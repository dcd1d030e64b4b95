/** A reader of the capture ring over time: what it has taken is what was logged. */
module Subscriber {
  import opened Sequences
  import opened Words
  import opened RingLog

  /** The entries from position start up to the cursor have been read. */
  ghost predicate Consumed(log: Log, era: nat, start: nat, cursor: Cursor, hist: seq<byte>) {
    && IssuedIn(log, cursor, era) && log.eras[era - 1].first <= start <= cursor.nextSeq
    && hist == Flatten(Taken(log.eras[era - 1], start, cursor.nextSeq))
  }

  ghost function Taken(era: Era, from: nat, to: nat): seq<seq<byte>>
    requires era.first <= from <= to <= era.Next()
  {
    era.entries[from - era.first..to - era.first]
  }

  /** hist is the beginning of what era `era` holds from position start on. */
  ghost predicate Captured(log: Log, era: nat, start: nat, hist: seq<byte>) {
    1 <= era <= |log.eras| && log.eras[era - 1].first <= start <= log.eras[era - 1].Next()
        && hist <= Since(log, era, start)
  }

  lemma ConsumedCaptured(log: Log, era: nat, start: nat, cursor: Cursor, hist: seq<byte>)
    requires Consumed(log, era, start, cursor, hist)
    ensures Captured(log, era, start, hist)
  {
    hide Flatten;
    var e := log.eras[era - 1];
    var taken, rest := Taken(e, start, cursor.nextSeq), Taken(e, cursor.nextSeq, e.Next());
    assert e.entries[start - e.first..] == taken + rest;
    FlattenAppend(taken, rest);
  }

  /** Whatever is captured, what has been read stays what was logged. */
  lemma ConsumedGrows(log: Log, op: Op, era: nat, start: nat, cursor: Cursor, hist: seq<byte>)
    requires Consumed(log, era, start, cursor, hist)
    ensures Apply(log, op).Valid() && Consumed(Apply(log, op), era, start, cursor, hist)
              && |Apply(log, op).eras| >= |log.eras|
  {
    ApplyAllExtends(log, [op]);
    assert ApplyAll(log, [op]) == Apply(log, op);
    assert Taken(Apply(log, op).eras[era - 1], start, cursor.nextSeq)
        == Taken(log.eras[era - 1], start, cursor.nextSeq);
  }

  /** A read takes the next entry. */
  lemma ConsumedReads(log: Log, slots: nat, capacity: nat, era: nat, start: nat, cursor: Cursor, hist: seq<byte>)
    requires Consumed(log, era, start, cursor, hist) && |log.eras| - era < U64
    ensures var r := RingLog.Read(log, slots, cursor, capacity);
            r.Data? ==> |r.bytes| <= capacity && Consumed(log, era, start, Advance(cursor, r), hist + r.bytes)
  {
    hide Flatten;
    ReadExact(log, slots, cursor, era, capacity);
    var r := RingLog.Read(log, slots, cursor, capacity);
    if r.Data? {
      var e := log.eras[era - 1];
      assert Taken(e, start, cursor.nextSeq + 1) == Taken(e, start, cursor.nextSeq) + [r.bytes];
      FlattenSnoc(Taken(e, start, cursor.nextSeq), r.bytes);
    }
  }

  lemma CapturedGrows(log: Log, op: Op, era: nat, start: nat, hist: seq<byte>)
    requires log.Valid() && Captured(log, era, start, hist)
    ensures Captured(Apply(log, op), era, start, hist)
  {
    hide Flatten;
    ApplyAllExtends(log, [op]);
    assert ApplyAll(log, [op]) == Apply(log, op);
    var e, e' := log.eras[era - 1], Apply(log, op).eras[era - 1];
    var was, more := e.entries[start - e.first..], e'.entries[|e.entries|..];
    assert e'.entries[start - e.first..] == was + more;
    FlattenAppend(was, more);
  }

  // ---- Entries a reader can take ----

  /** Whole samples, and no more than the reader's buffer holds. */
  predicate Fits(entry: seq<byte>, size: nat) { |entry| <= size && |entry| % 2 == 0 }

  /** So are all entries of the era from position start on. */
  ghost predicate Readable(log: Log, era: nat, start: nat, size: nat) {
    && 1 <= era <= |log.eras|
    && var e := log.eras[era - 1];
       e.first <= start && forall k :: start - e.first <= k < |e.entries| ==> Fits(e.entries[k], size)
  }

  lemma ReadableNow(log: Log, size: nat)
    requires log.Valid()
    ensures Readable(log, |log.eras|, CursorNow(log).nextSeq, size)
  {}

  lemma ReadableGrows(log: Log, op: Op, era: nat, start: nat, size: nat)
    requires log.Valid() && Readable(log, era, start, size) && (op.WriteOp? ==> Fits(op.entry, size))
    ensures Readable(Apply(log, op), era, start, size)
  {
    hide Fits;
  }

  /** A reader of such entries meets a gap, nothing new, or the next of them. */
  lemma ReadsReadable(log: Log, slots: nat, size: nat, era: nat, start: nat, cursor: Cursor, hist: seq<byte>)
    requires Consumed(log, era, start, cursor, hist) && Readable(log, era, start, size) && |log.eras| - era < U64
    ensures var r, cur := RingLog.Read(log, slots, cursor, size), log.Current();
            && !r.Error? && (r.Data? ==> |r.bytes| % 2 == 0)
            && (r.Gap? <==> era < |log.eras| || cursor.nextSeq + slots < cur.Next())
            && (r.Empty? <==> era == |log.eras| && cursor.nextSeq == cur.Next())
            && (r.Data? ==> cursor.nextSeq < cur.Next() && r.bytes == cur.entries[cursor.nextSeq - cur.first])
  {
    hide Flatten;
    ReadExact(log, slots, cursor, era, size);
    var cur := log.Current();
    if era == |log.eras| && cursor.nextSeq < cur.Next() {
      assert Fits(cur.entries[cursor.nextSeq - cur.first], size);
    }
  }
}
