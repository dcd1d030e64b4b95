/** src/rtl_ring.c: the bounded copying ring. Every operation is one critical section of the
    ring's mutex, so each method is atomic. */
module Ring {
  import opened Words
  import opened Bits
  import opened RingLog

  /** Slot s % count of the storage holds entry e. */
  ghost predicate Holds(data: seq<byte>, lens: seq<nat>, count: nat, size: nat, s: nat, e: seq<byte>) {
    && count > 0 && |lens| == count && |data| == count * size
    && |e| <= size && lens[s % count] == |e|
    && data[SlotStart(s % count, count, size)..SlotStart(s % count, count, size) + |e|] == e
  }

  function SlotStart(slot: nat, count: nat, size: nat): (at: nat)
    requires slot < count
    ensures at + size <= count * size
  {
    BlockBound(slot, count, size);
    slot * size
  }

  lemma SlotsApart(i: nat, j: nat, count: nat, size: nat)
    requires i < count && j < count && i != j
    ensures var p, q := SlotStart(i, count, size), SlotStart(j, count, size);
            p + size <= q || q + size <= p
  {
    if i < j { BlockBound(i, j, size); } else { BlockBound(j, i, size); }
  }

  /** The two storages differ at most in slot next % count. */
  ghost predicate OnlySlot(data: seq<byte>, lens: seq<nat>, data': seq<byte>, lens': seq<nat>, count: nat, size: nat,
      next: nat) {
    && count > 0 && |lens'| == |lens| == count && |data'| == |data| == count * size
    && (forall k :: 0 <= k < count && k != next % count ==> lens'[k] == lens[k])
    && var at := SlotStart(next % count, count, size);
       forall i :: 0 <= i < |data| && !(at <= i < at + size) ==> data'[i] == data[i]
  }

  /** Writing slot `next` leaves the slots of the preceding sequence numbers alone. */
  lemma OtherSlot(data: seq<byte>, lens: seq<nat>, data': seq<byte>, lens': seq<nat>, count: nat, size: nat,
                  next: nat, s: nat, e: seq<byte>)
    requires Holds(data, lens, count, size, s, e)
    requires s < next < s + count
    requires OnlySlot(data, lens, data', lens', count, size, next)
    ensures Holds(data', lens', count, size, s, e)
  {
    var i, j := s % count, next % count;
    ModDistinct(s, next, count);
    SlotsApart(i, j, count, size);
    hide SlotStart;
    var p := SlotStart(i, count, size);
    assert data'[p..p + |e|] == data[p..p + |e|];
  }

  /** The storage holds the entry that the current era logged under sequence number s. */
  ghost predicate Keeps(data: seq<byte>, lens: seq<nat>, count: nat, size: nat, era: Era, s: nat) {
    era.first <= s < era.Next() && Holds(data, lens, count, size, s, era.entries[s - era.first])
  }

  /** Storing the next entry keeps the retained ones, except the one it may displace. */
  lemma AllKept(data: seq<byte>, lens: seq<nat>, data': seq<byte>, lens': seq<nat>, count: nat, size: nat,
                era: Era, lo: nat, e: seq<byte>)
    requires count > 0 && lo <= era.Next() <= lo + count
    requires forall s: nat :: lo <= s < era.Next() ==> Keeps(data, lens, count, size, era, s)
    requires OnlySlot(data, lens, data', lens', count, size, era.Next())
    requires Holds(data', lens', count, size, era.Next(), e)
    ensures forall s: nat :: lo <= s <= era.Next() < s + count ==>
              Keeps(data', lens', count, size, Era(era.first, era.entries + [e]), s)
  {
    var next := era.Next();
    forall s: nat | lo <= s <= next < s + count
      ensures Keeps(data', lens', count, size, Era(era.first, era.entries + [e]), s)
    {
      if s < next {
        assert Keeps(data, lens, count, size, era, s);
        OtherSlot(data, lens, data', lens', count, size, next, s, era.entries[s - era.first]);
      }
    }
  }

  class Ring {
    const slotCount: nat
    const slotSize: nat
    const data: array<byte>
    const slotLens: array<nat>
    var nextSeq: nat
    var generation: nat
    var retained: nat
    ghost var log: Log

    ghost predicate Valid()
      reads this, data, slotLens
    {
      && slotCount > 0 && slotSize > 0
      && slotLens.Length == slotCount && data.Length == slotCount * slotSize
      && log.Valid()
      && nextSeq == log.Current().Next()
      && generation == log.Generation()
      && retained == Min(|log.Current().entries|, slotCount)
      && forall s: nat :: nextSeq - retained <= s < nextSeq ==>
           Keeps(data[..], slotLens[..], slotCount, slotSize, log.Current(), s)
    }

    constructor (slotCount: nat, slotSize: nat)
      requires slotCount > 0 && slotSize > 0
      ensures Valid() && fresh(data) && fresh(slotLens)
      ensures this.slotCount == slotCount && this.slotSize == slotSize
      ensures log == Log([Era(0, [])])
    {
      this.slotCount := slotCount;
      this.slotSize := slotSize;
      data := new byte[slotCount * slotSize];
      slotLens := new nat[slotCount](_ => 0);
      nextSeq, generation, retained := 0, 1, 0;
      log := Log([Era(0, [])]);
    }

    /** rtlsdr_ring_create: null for an empty geometry or one whose size overflows. */
    static method Create(slotCount: nat, slotSize: nat) returns (r: Ring?)
      ensures r == null <==>
              slotCount == 0 || slotSize == 0 || slotCount > SIZE_MAX / slotSize || slotCount > SIZE_MAX / 8
      ensures r != null ==> fresh(r) && r.Valid() && r.slotCount == slotCount && r.slotSize == slotSize
      ensures r != null ==> r.log == Log([Era(0, [])])
    {
      if slotCount == 0 || slotSize == 0 || slotCount > SIZE_MAX / slotSize || slotCount > SIZE_MAX / 8 {
        return null;
      }
      r := new Ring(slotCount, slotSize);
    }

    /** One payload is appended to the log; a rejected or empty write changes nothing. */
    method WriteCopy(src: Option<seq<byte>>, len: nat) returns (rc: int)
      requires Valid()
      requires src.Some? ==> len <= |src.value|
      modifies this`nextSeq, this`generation, this`retained, this`log, data, slotLens
      ensures Valid()
      ensures rc == if (src.None? && len > 0) || len > slotSize then -1 else 0
      ensures log == if rc == 0 && len > 0 then old(log).Write(src.value[..len]) else old(log)
    {
      assert |log.eras| >= 1;
      hide Keeps, Holds, OnlySlot, Log.Valid, Log.Write;
      if (src.None? && len > 0) || len > slotSize {
        return -1;
      }
      if len == 0 {
        return 0;
      }
      if nextSeq == U64_MAX {
        generation := (generation + 1) % U64;
        nextSeq, retained := 0, 0;
      }
      ghost var era := if nextSeq == 0 then Era(0, []) else log.Current();
      StoreSlot(nextSeq, src.value[..len]);
      AllKept(old(data[..]), old(slotLens[..]), data[..], slotLens[..], slotCount, slotSize, era,
              nextSeq - retained, src.value[..len]);
      WriteContinues(log, src.value[..len]);
      log := log.Write(src.value[..len]);
      assert log.Current() == Era(era.first, era.entries + [src.value[..len]]);
      nextSeq := nextSeq + 1;
      if retained < slotCount {
        retained := retained + 1;
      }
      return 0;
    }

    /** The memcpy into the slot of sequence number `next`, and its length. */
    method StoreSlot(next: nat, bytes: seq<byte>)
      requires slotCount > 0 && slotLens.Length == slotCount && data.Length == slotCount * slotSize
      requires |bytes| <= slotSize
      modifies data, slotLens
      ensures OnlySlot(old(data[..]), old(slotLens[..]), data[..], slotLens[..], slotCount, slotSize, next)
      ensures Holds(data[..], slotLens[..], slotCount, slotSize, next, bytes)
    {
      var slot := next % slotCount;
      var at := SlotStart(slot, slotCount, slotSize);
      forall i | 0 <= i < |bytes| { data[at + i] := bytes[i]; }
      slotLens[slot] := |bytes|;
      assert data[at..at + |bytes|] == bytes;
    }

    method CursorNow() returns (c: Cursor)
      requires Valid()
      ensures c == RingLog.CursorNow(log)
    {
      c := Cursor(nextSeq, generation);
    }

    /** Agrees with the log: the bytes delivered are the entry at the cursor, and the cursor
        moves only over delivered data. */
    method ReadCopy(c: Cursor, dst: array<byte>, capacity: nat) returns (r: ReadResult, len: nat, c': Cursor)
      requires Valid()
      requires capacity <= dst.Length && dst != data
      modifies dst
      ensures Valid()
      ensures r == Read(log, slotCount, c, capacity) && c' == Advance(c, r)
      ensures len == if r.Data? then |r.bytes| else 0
      ensures r.Data? ==> len <= capacity && dst[..len] == r.bytes
      ensures forall i :: len <= i < dst.Length ==> dst[i] == old(dst[i])
    {
      r, len, c' := Error, 0, c;
      if c.generation != generation || c.nextSeq < nextSeq - retained {
        r := Gap;
      } else if c.nextSeq == nextSeq {
        r := Empty;
      } else if c.nextSeq < nextSeq {
        var slot := c.nextSeq % slotCount;
        var bytes := slotLens[slot];
        ghost var e := log.Current().entries[c.nextSeq - log.Current().first];
        assert Keeps(data[..], slotLens[..], slotCount, slotSize, log.Current(), c.nextSeq);
        if bytes <= capacity {
          var at := SlotStart(slot, slotCount, slotSize);
          assert data[..][at..at + bytes] == e;
          forall i | 0 <= i < bytes { dst[i] := data[at + i]; }
          assert dst[..bytes] == e;
          len := bytes;
          c' := c.(nextSeq := c.nextSeq + 1);
          r := Data(dst[..bytes]);
        }
      }
    }

    method MarkGap()
      requires Valid()
      modifies this`generation, this`retained, this`log
      ensures Valid() && log == old(log).MarkGap()
    {
      generation := (generation + 1) % U64;
      retained := 0;
      log := log.MarkGap();
    }
  }
}
