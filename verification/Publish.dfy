/** rtlsdr_server_publish (src/rtl_stream_server.c): a callback of any even length becomes
    consecutive slots; a callback of odd length becomes a gap. */
module Publish {
  import opened Sequences
  import opened Words
  import opened RingLog
  import Ring

  function Chunks(input: seq<byte>, size: nat): (r: seq<seq<byte>>)
    requires size > 0
    ensures forall i :: 0 <= i < |r| ==> 0 < |r[i]| <= size
  {
    if input == [] then []
    else
      var count := Min(|input|, size);
      [input[..count]] + Chunks(input[count..], size)
  }

  /** Splitting loses, adds and reorders nothing. */
  lemma {:induction false} ChunksFlatten(input: seq<byte>, size: nat)
    requires size > 0
    ensures Flatten(Chunks(input, size)) == input
    decreases |input|
  {
    if input != [] {
      var count := Min(|input|, size);
      ChunksFlatten(input[count..], size);
      FlattenCons(input[..count], Chunks(input[count..], size));
    }
  }

  /** Even callbacks and even slots never separate an I byte from its Q byte. */
  lemma {:induction false} ChunksEven(input: seq<byte>, size: nat, i: nat)
    requires size > 0 && size % 2 == 0 && |input| % 2 == 0 && i < |Chunks(input, size)|
    ensures |Chunks(input, size)[i]| % 2 == 0
    decreases |input|
  {
    if i > 0 {
      ChunksEven(input[Min(|input|, size)..], size, i - 1);
    }
  }

  function Writes(parts: seq<seq<byte>>): (ops: seq<Op>)
    ensures |ops| == |parts|
  {
    seq(|parts|, i requires 0 <= i < |parts| => WriteOp(parts[i]))
  }

  /** What an accepted call does to the ring. */
  function Ops(input: seq<byte>, size: nat): seq<Op>
    requires size > 0
  {
    if |input| % 2 == 1 then [GapOp] else Writes(Chunks(input, size))
  }

  lemma WritesStep(log: Log, parts: seq<seq<byte>>)
    requires |log.eras| >= 1 && parts != []
    ensures ApplyAll(log, Writes(parts)) == ApplyAll(log.Write(parts[0]), Writes(parts[1..]))
  {
    assert Writes(parts)[1..] == Writes(parts[1..]);
  }

  lemma {:induction false} WritesAll(parts: seq<seq<byte>>)
    ensures Leading(Writes(parts)) == Written(Writes(parts)) == parts
  {
    if parts != [] {
      assert Writes(parts)[1..] == Writes(parts[1..]);
      WritesAll(parts[1..]);
      assert [parts[0]] + parts[1..] == parts;
    }
  }

  /** An even buffer is logged whole and in order. Short of a rollover of the sequence number
      every reader of the current era finds exactly it appended; across a rollover what it
      adds to the old era is its beginning. In any case the log as a whole gains exactly it. */
  lemma PublishedWhole(log: Log, input: seq<byte>, size: nat, start: nat)
    requires log.Valid() && size > 0 && |input| % 2 == 0
    requires log.Current().first <= start <= log.Current().Next()
    ensures var after, e := ApplyAll(log, Ops(input, size)), |log.eras|;
            && |after.eras| >= e && after.eras[e - 1].first <= start <= after.eras[e - 1].Next()
            && Since(log, e, start) <= Since(after, e, start) <= Since(log, e, start) + input
            && (log.Current().Next() + |Chunks(input, size)| <= U64_MAX ==> |after.eras| == e)
            && (|after.eras| == e ==> Since(after, e, start) == Since(log, e, start) + input)
            && AllBytes(after.eras) == AllBytes(log.eras) + input
  {
    hide Flatten, AllBytes, Leading, Written, ApplyAll, Since, Chunks;
    var parts := Chunks(input, size);
    WritesAll(parts);
    ChunksFlatten(input, size);
    Conserved(log, Writes(parts));
    SinceGets(log, Writes(parts), start);
    if log.Current().Next() + |parts| <= U64_MAX {
      EraGoesOn(log, Writes(parts));
    }
  }

  /** An accepted buffer is logged; an odd one is a gap; a call that is stopped, empty or
      without a buffer logs nothing. */
  method Publish(ring: Ring.Ring, stopping: bool, input: Option<seq<byte>>, len: nat) returns (rc: int)
    requires ring.Valid() && (input.Some? ==> |input.value| == len)
    modifies ring`nextSeq, ring`generation, ring`retained, ring`log, ring.data, ring.slotLens
    ensures ring.Valid()
    ensures rc == if (input.None? && len > 0) || stopping || len % 2 == 1 then -1 else 0
    ensures ring.log == if input.None? || stopping then old(ring.log)
              else ApplyAll(old(ring.log), Ops(input.value, ring.slotSize))
  {
    if (input.None? && len > 0) || stopping {
      return -1;
    }
    if len == 0 {
      return 0;
    }
    if len % 2 == 1 {
      ring.MarkGap();
      return -1;
    }
    var left := input.value;
    while left != []
      invariant ring.Valid()
      invariant ApplyAll(old(ring.log), Ops(input.value, ring.slotSize)) ==
                ApplyAll(ring.log, Writes(Chunks(left, ring.slotSize)))
      decreases |left|
    {
      var count := Min(|left|, ring.slotSize);
      ghost var rest := Chunks(left, ring.slotSize);
      assert rest[0] == left[..count] && rest[1..] == Chunks(left[count..], ring.slotSize);
      WritesStep(ring.log, rest);
      var w := ring.WriteCopy(Some(left[..count]), count);
      assert w == 0; // the failure branch, which would mark a gap, is never taken
      assert left[..count][..count] == left[..count];
      left := left[count..];
    }
    return 0;
  }
}
