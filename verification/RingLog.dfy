/** What the capture ring of src/rtl_ring.c means to its readers: an unbounded log of slot
    payloads, cut into eras. An era begins at creation, at every marked gap and at every
    rollover of the 64-bit sequence number; the ring's generation is the number of eras
    begun so far, modulo 2^64. */
module RingLog {
  import opened Sequences
  import opened Words

  datatype Era = Era(first: nat, entries: seq<seq<byte>>) {
    function Next(): nat { first + |entries| }
  }

  datatype Log = Log(eras: seq<Era>) {
    ghost predicate Valid() {
      |eras| >= 1 && forall i :: 0 <= i < |eras| ==> eras[i].Next() <= U64_MAX
    }

    function Current(): Era
      requires |eras| >= 1
    {
      eras[|eras| - 1]
    }

    function Generation(): nat { |eras| % U64 }

    function Write(entry: seq<byte>): Log
      requires |eras| >= 1
    {
      var cur := Current();
      if cur.Next() == U64_MAX
      then Log(eras + [Era(0, [entry])])
      else Log(eras[|eras| - 1 := cur.(entries := cur.entries + [entry])])
    }

    function MarkGap(): Log
      requires |eras| >= 1
    {
      Log(eras + [Era(Current().Next(), [])])
    }
  }

  /** A write continues the current era, or begins one when the sequence number is used up. */
  lemma WriteContinues(log: Log, entry: seq<byte>)
    requires log.Valid()
    ensures var cur, log' := log.Current(), log.Write(entry);
            && log'.Valid()
            && (cur.Next() < U64_MAX ==>
                  |log'.eras| == |log.eras| && log'.Current() == Era(cur.first, cur.entries + [entry]))
            && (cur.Next() == U64_MAX ==>
                  && |log'.eras| == |log.eras| + 1 && log'.Current() == Era(0, [entry])
                  && log'.Generation() == (log.Generation() + 1) % U64)
  {}

  datatype Cursor = Cursor(nextSeq: nat, generation: nat)

  function CursorNow(log: Log): Cursor
    requires |log.eras| >= 1
  {
    Cursor(log.Current().Next(), log.Generation())
  }

  function Min(a: nat, b: nat): nat { if a < b then a else b }

  datatype ReadResult = Data(bytes: seq<byte>) | Empty | Gap | Error

  /** The branches of rtlsdr_ring_read_copy. */
  function Read(log: Log, slots: nat, c: Cursor, capacity: nat): ReadResult
    requires |log.eras| >= 1
  {
    var cur := log.Current();
    if c.generation != log.Generation() || c.nextSeq < cur.Next() - Min(|cur.entries|, slots) then Gap
    else if c.nextSeq == cur.Next() then Empty
    else if c.nextSeq < cur.Next() then
      var e := cur.entries[c.nextSeq - cur.first];
      if |e| <= capacity then Data(e) else Error
    else Error
  }

  function Advance(c: Cursor, r: ReadResult): Cursor {
    if r.Data? then c.(nextSeq := c.nextSeq + 1) else c
  }

  datatype Op = WriteOp(entry: seq<byte>) | GapOp

  function Apply(log: Log, op: Op): Log
    requires |log.eras| >= 1
  {
    match op case WriteOp(e) => log.Write(e) case GapOp => log.MarkGap()
  }

  function ApplyAll(log: Log, ops: seq<Op>): (r: Log)
    requires |log.eras| >= 1
    ensures |r.eras| >= |log.eras|
    decreases |ops|
  {
    if ops == [] then log else ApplyAll(Apply(log, ops[0]), ops[1..])
  }

  /** c stands at position c.nextSeq of the e-th era of the log. */
  ghost predicate IssuedIn(log: Log, c: Cursor, e: nat) {
    && log.Valid() && 1 <= e <= |log.eras|
    && c.generation == e % U64
    && log.eras[e - 1].first <= c.nextSeq <= log.eras[e - 1].Next()
  }

  /** No operation on the ring disturbs what an era has logged; it only adds to the last. */
  ghost predicate Extends(log: Log, log': Log) {
    && 1 <= |log.eras| <= |log'.eras|
    && (forall i :: 0 <= i < |log.eras| ==>
          && log'.eras[i].first == log.eras[i].first
          && log.eras[i].entries <= log'.eras[i].entries)
    && (forall i :: 0 <= i < |log.eras| - 1 ==> log'.eras[i] == log.eras[i])
  }

  lemma {:induction false} ApplyAllExtends(log: Log, ops: seq<Op>)
    requires log.Valid()
    ensures ApplyAll(log, ops).Valid() && Extends(log, ApplyAll(log, ops))
    decreases |ops|
  {
    if ops != [] {
      ApplyAllExtends(Apply(log, ops[0]), ops[1..]);
    }
  }

  /** A cursor taken from the ring, or advanced by a read, stands inside the era it was taken
      in, never ahead of the writer, whatever is written or marked afterwards. */
  lemma CursorStaysIssued(log: Log, slots: nat, c: Cursor, e: nat, capacity: nat, ops: seq<Op>)
    requires log.Valid()
    ensures IssuedIn(log, CursorNow(log), |log.eras|)
    ensures IssuedIn(log, c, e) ==> IssuedIn(ApplyAll(log, ops), c, e)
    ensures IssuedIn(log, c, e) && |log.eras| - e < U64 ==> IssuedIn(log, Advance(c, Read(log, slots, c, capacity)), e)
  {
    ApplyAllExtends(log, ops);
    if IssuedIn(log, c, e) && |log.eras| - e < U64 {
      SameGeneration(e, |log.eras|);
    }
  }

  lemma SameGeneration(e: nat, n: nat)
    requires e <= n
    ensures e % U64 == n % U64 <==> (n - e) % U64 == 0
    ensures n - e < U64 ==> ((n - e) % U64 == 0 <==> e == n)
  {}

  /** When a read reports a gap, exactly: the generation numbers differ, or the entry at the
      cursor has been overwritten. Fewer than 2^64 eras after the cursor was taken that is:
      a later era has begun, or more than `slots` entries have been logged since. Otherwise
      the read returns the very entry at the cursor, or says there is none yet, and fails
      only when the entry is longer than the caller's buffer. */
  lemma ReadExact(log: Log, slots: nat, c: Cursor, e: nat, capacity: nat)
    requires IssuedIn(log, c, e)
    ensures var r, cur := Read(log, slots, c, capacity), log.Current();
            && (r.Gap? <==> (|log.eras| - e) % U64 != 0 || c.nextSeq < cur.Next() - Min(|cur.entries|, slots))
            && (|log.eras| - e < U64 ==>
                  && (r.Gap? <==> e < |log.eras| || c.nextSeq + slots < cur.Next())
                  && (r.Empty? <==> e == |log.eras| && c.nextSeq == cur.Next())
                  && (r.Data? ==> c.nextSeq < cur.Next() && r.bytes == cur.entries[c.nextSeq - cur.first])
                  && (r.Error? ==> c.nextSeq < cur.Next() && |cur.entries[c.nextSeq - cur.first]| > capacity))
  {
    SameGeneration(e, |log.eras|);
  }

  /** A reported gap is reported again, whatever the writer does, until the reader takes a
      new cursor. */
  lemma GapSticky(log: Log, slots: nat, c: Cursor, e: nat, capacity: nat, capacity': nat, ops: seq<Op>)
    requires IssuedIn(log, c, e) && Read(log, slots, c, capacity).Gap?
    requires |ApplyAll(log, ops).eras| - e < U64
    ensures Read(ApplyAll(log, ops), slots, c, capacity').Gap?
  {
    ApplyAllExtends(log, ops);
    ReadExact(log, slots, c, e, capacity);
    CursorStaysIssued(log, slots, c, e, capacity, ops);
    ReadExact(ApplyAll(log, ops), slots, c, e, capacity');
  }

  function Empties(n: nat): seq<Era> { seq(n, _ => Era(0, [])) }

  lemma {:induction false} GapsOnly(m: nat, n: nat)
    requires m >= 1
    ensures ApplyAll(Log(Empties(m)), seq(n, _ => GapOp)) == Log(Empties(m + n))
    decreases n
  {
    if n > 0 {
      assert Log(Empties(m)).MarkGap().eras == Empties(m + 1);
      assert seq(n, _ => GapOp)[1..] == seq(n - 1, _ => GapOp);
      GapsOnly(m + 1, n - 1);
    }
  }

  /** The bound of 2^64 eras is needed: 2^64 gaps after creation the generation counter has
      turned once, and a cursor of the first era is taken for a current one. */
  lemma StaleCursorAfterFullTurn(slots: nat, capacity: nat)
    ensures var log := ApplyAll(Log([Era(0, [])]), seq(U64, _ => GapOp));
            && IssuedIn(Log([Era(0, [])]), Cursor(0, 1), 1) && IssuedIn(log, Cursor(0, 1), 1)
            && |log.eras| == U64 + 1 && Read(log, slots, Cursor(0, 1), capacity) == Empty
  {
    hide ApplyAll;
    assert Empties(1) == [Era(0, [])];
    GapsOnly(1, U64);
  }

  // ---- What a run of operations logs ----

  /** The payloads written, in order. */
  function Written(ops: seq<Op>): seq<seq<byte>> {
    if ops == [] then []
    else (match ops[0] case WriteOp(e) => [e] case GapOp => []) + Written(ops[1..])
  }

  /** Those before the first marked gap. */
  function Leading(ops: seq<Op>): seq<seq<byte>> {
    if ops == [] || ops[0].GapOp? then [] else [ops[0].entry] + Leading(ops[1..])
  }

  /** Every byte the log has ever held, across all its eras. */
  function AllBytes(eras: seq<Era>): seq<byte> {
    if eras == [] then [] else AllBytes(eras[..|eras| - 1]) + Flatten(eras[|eras| - 1].entries)
  }

  lemma WriteBytes(log: Log, entry: seq<byte>)
    requires |log.eras| >= 1
    ensures AllBytes(log.Write(entry).eras) == AllBytes(log.eras) + entry
    ensures AllBytes(log.MarkGap().eras) == AllBytes(log.eras)
  {
    var n := |log.eras|;
    assert log.Write(entry).eras[..n - 1] == log.eras[..n - 1];
    assert log.Current().Next() == U64_MAX ==> log.Write(entry).eras[..n] == log.eras;
    assert log.MarkGap().eras[..n] == log.eras;
    FlattenSnoc(log.Current().entries, entry);
    FlattenOne(entry);
  }

  /** Nothing written is lost, repeated or reordered, by gaps and rollovers included. */
  lemma {:induction false} Conserved(log: Log, ops: seq<Op>)
    requires |log.eras| >= 1
    ensures AllBytes(ApplyAll(log, ops).eras) == AllBytes(log.eras) + Flatten(Written(ops))
    decreases |ops|
  {
    hide AllBytes;
    if ops != [] {
      Conserved(Apply(log, ops[0]), ops[1..]);
      match ops[0]
      case WriteOp(e) =>
        WriteBytes(log, e);
        FlattenCons(e, Written(ops[1..]));
      case GapOp =>
        WriteBytes(log, []);
        assert [] + Written(ops[1..]) == Written(ops[1..]);
    } else {
      assert Flatten(Written(ops)) == [];
    }
  }

  /** An era, once left, stays as it is. */
  lemma EraFrozen(log: Log, ops: seq<Op>, e: nat)
    requires log.Valid() && 1 <= e < |log.eras|
    ensures |ApplyAll(log, ops).eras| >= |log.eras| && ApplyAll(log, ops).eras[e - 1] == log.eras[e - 1]
  {
    ApplyAllExtends(log, ops);
  }

  /** The current era gets the payloads up to the first marked gap, all of them unless the
      sequence number is used up before. */
  lemma {:induction false} EraGets(log: Log, ops: seq<Op>)
    requires log.Valid()
    ensures var cur, after := log.Current(), ApplyAll(log, ops);
            && |after.eras| >= |log.eras|
            && var now := after.eras[|log.eras| - 1];
               && now.first == cur.first && cur.entries <= now.entries
               && now.entries[|cur.entries|..] <= Leading(ops)
               && (|after.eras| == |log.eras| ==> now.entries == cur.entries + Leading(ops))
    decreases |ops|
  {
    if ops != [] {
      var log' := Apply(log, ops[0]);
      if |log'.eras| == |log.eras| {
        EraGets(log', ops[1..]);
      } else {
        EraFrozen(log', ops[1..], |log.eras|);
      }
    }
  }

  /** Fewer writes than sequence numbers left, and no gap: the era goes on. */
  lemma {:induction false} EraGoesOn(log: Log, ops: seq<Op>)
    requires log.Valid() && (forall i :: 0 <= i < |ops| ==> ops[i].WriteOp?) && log.Current().Next() + |ops| <= U64_MAX
    ensures |ApplyAll(log, ops).eras| == |log.eras|
    decreases |ops|
  {
    if ops != [] {
      EraGoesOn(Apply(log, ops[0]), ops[1..]);
    }
  }

  /** Whatever the log holds beyond its earlier end was written since. */
  lemma {:induction false} EntriesWritten(log: Log, ops: seq<Op>, e: nat, k: nat)
    requires log.Valid() && |log.eras| <= e <= |ApplyAll(log, ops).eras|
    requires k < |ApplyAll(log, ops).eras[e - 1].entries| && (e == |log.eras| ==> k >= |log.Current().entries|)
    ensures ApplyAll(log, ops).eras[e - 1].entries[k] in Written(ops)
    decreases |ops|
  {
    if ops != [] {
      var log', rest := Apply(log, ops[0]), ops[1..];
      var after := ApplyAll(log, ops);
      if e < |log'.eras| {
        EraFrozen(log', rest, e);
      } else if e == |log'.eras| && k < |log'.Current().entries| {
        EraGets(log', rest);
        assert after.eras[e - 1].entries[k] == log'.Current().entries[k];
      } else {
        EntriesWritten(log', rest, e, k);
      }
    }
  }

  /** Everything logged since a cursor position, in order. */
  ghost function Since(log: Log, e: nat, seqNo: nat): seq<byte>
    requires 1 <= e <= |log.eras| && log.eras[e - 1].first <= seqNo <= log.eras[e - 1].Next()
  {
    Flatten(log.eras[e - 1].entries[seqNo - log.eras[e - 1].first..])
  }

  /** What a position of the current era sees of a run of operations. */
  lemma SinceGets(log: Log, ops: seq<Op>, start: nat)
    requires log.Valid() && log.Current().first <= start <= log.Current().Next()
    ensures var after, e := ApplyAll(log, ops), |log.eras|;
            && |after.eras| >= e && after.eras[e - 1].first <= start <= after.eras[e - 1].Next()
            && Since(log, e, start) <= Since(after, e, start) <= Since(log, e, start) + Flatten(Leading(ops))
            && (|after.eras| == e ==> Since(after, e, start) == Since(log, e, start) + Flatten(Leading(ops)))
  {
    hide Flatten, Leading, ApplyAll;
    EraGets(log, ops);
    var cur, now := log.Current(), ApplyAll(log, ops).eras[|log.eras| - 1];
    var was, more := cur.entries[start - cur.first..], now.entries[|cur.entries|..];
    assert now.entries[start - cur.first..] == was + more;
    FlattenAppend(was, more);
    FlattenPrefix(more, Leading(ops));
    if |ApplyAll(log, ops).eras| == |log.eras| {
      assert more == Leading(ops);
    }
  }
}
