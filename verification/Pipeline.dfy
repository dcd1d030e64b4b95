/** Publishing joined to the sessions: the only operations on the ring are those of
    rtlsdr_server_publish, on callbacks of any lengths (src/rtl_stream_server.c). A reader may
    subscribe in the middle of a call; the first of the callbacks is then what is left of it. */
module Pipeline {
  import opened Words
  import opened Sequences
  import opened RingLog
  import opened Subscriber
  import opened Publish
  import opened Wire
  import opened Outbox
  import Channelizer
  import Spectra
  import Iq = IqSession
  import Fft = FftSession

  // ---- Callbacks ----

  function PublishedOps(inputs: seq<seq<byte>>, size: nat): seq<Op>
    requires size > 0
  {
    if inputs == [] then [] else Ops(inputs[0], size) + PublishedOps(inputs[1..], size)
  }

  /** The bytes of the callbacks before the first of odd length. */
  function Stream(inputs: seq<seq<byte>>): (r: seq<byte>)
    ensures |r| % 2 == 0
  {
    if inputs == [] || |inputs[0]| % 2 == 1 then [] else inputs[0] + Stream(inputs[1..])
  }

  /** The bytes of all callbacks that are not refused. */
  function Accepted(inputs: seq<seq<byte>>): seq<byte> {
    if inputs == [] then [] else (if |inputs[0]| % 2 == 1 then [] else inputs[0]) + Accepted(inputs[1..])
  }

  lemma {:induction false} LeadingAppend(a: seq<Op>, b: seq<Op>)
    ensures Leading(a) <= Leading(a + b)
    ensures (forall i :: 0 <= i < |a| ==> a[i].WriteOp?) ==> Leading(a + b) == Leading(a) + Leading(b)
  {
    if a == [] {
      assert a + b == b;
    } else {
      assert (a + b)[1..] == a[1..] + b;
      LeadingAppend(a[1..], b);
    }
  }

  lemma {:induction false} WrittenAppend(a: seq<Op>, b: seq<Op>)
    ensures Written(a + b) == Written(a) + Written(b)
  {
    if a == [] {
      assert a + b == b;
    } else {
      assert (a + b)[1..] == a[1..] + b;
      WrittenAppend(a[1..], b);
    }
  }

  /** Cutting callbacks into slots leaves the stream as it is. */
  lemma {:induction false} StreamIs(inputs: seq<seq<byte>>, size: nat)
    requires size > 0
    ensures Flatten(Leading(PublishedOps(inputs, size))) == Stream(inputs)
    ensures Flatten(Written(PublishedOps(inputs, size))) == Accepted(inputs)
  {
    hide Flatten, Chunks;
    if inputs == [] {
      FlattenEmpty<byte>();
    } else {
      var first, rest := Ops(inputs[0], size), PublishedOps(inputs[1..], size);
      StreamIs(inputs[1..], size);
      LeadingAppend(first, rest);
      WrittenAppend(first, rest);
      if |inputs[0]| % 2 == 1 {
        FlattenEmpty<byte>();
        assert Leading(first + rest) == [] && Written(first) == [];
        assert [] + Written(rest) == Written(rest);
      } else {
        var parts := Chunks(inputs[0], size);
        WritesAll(parts);
        ChunksFlatten(inputs[0], size);
        FlattenAppend(parts, Leading(rest));
        FlattenAppend(parts, Written(rest));
      }
    }
  }

  lemma FlattenEmpty<T>()
    ensures Flatten<T>([]) == []
  {}

  /** Every slot written is non-empty and fits, and with even slots it is whole samples. */
  ghost predicate Sound(parts: seq<seq<byte>>, size: nat) {
    forall p :: p in parts ==> 0 < |p| <= size && (size % 2 == 0 ==> |p| % 2 == 0)
  }

  lemma {:induction false} SlotsSound(inputs: seq<seq<byte>>, size: nat)
    requires size > 0
    ensures Sound(Written(PublishedOps(inputs, size)), size)
  {
    hide Chunks;
    if inputs != [] {
      var first, rest := Ops(inputs[0], size), PublishedOps(inputs[1..], size);
      SlotsSound(inputs[1..], size);
      WrittenAppend(first, rest);
      if |inputs[0]| % 2 == 0 {
        var parts := Chunks(inputs[0], size);
        WritesAll(parts);
        forall p | p in parts ensures 0 < |p| <= size && (size % 2 == 0 ==> |p| % 2 == 0) {
          var i :| 0 <= i < |parts| && parts[i] == p;
          if size % 2 == 0 { ChunksEven(inputs[0], size, i); }
        }
      } else {
        assert Written(first) == [];
      }
    }
  }

  /** A part of what is published: the last call may be under way. */
  ghost predicate Publishes(ops: seq<Op>, inputs: seq<seq<byte>>, size: nat) {
    size > 0 && ops <= PublishedOps(inputs, size)
  }

  lemma SoFar(ops: seq<Op>, inputs: seq<seq<byte>>, size: nat)
    requires Publishes(ops, inputs, size)
    ensures Flatten(Leading(ops)) <= Stream(inputs) && Flatten(Written(ops)) <= Accepted(inputs)
              && Sound(Written(ops), size)
  {
    hide Flatten;
    var all := PublishedOps(inputs, size);
    var rest := all[|ops|..];
    assert all == ops + rest;
    StreamIs(inputs, size);
    SlotsSound(inputs, size);
    LeadingAppend(ops, rest);
    WrittenAppend(ops, rest);
    FlattenPrefix(Leading(ops), Leading(all));
    FlattenPrefix(Written(ops), Written(all));
  }

  // ---- To an IQ client ----

  function Captures(acts: seq<Iq.Action>): seq<Op> {
    if acts == [] then [] else (if acts[0].Capture? then [acts[0].op] else []) + Captures(acts[1..])
  }

  lemma {:induction false} LogOf<F>(su: Iq.Setup<F>, s: Iq.State, acts: seq<Iq.Action>, t: Iq.State)
    requires Channelizer.ValidConfig(su.cfg) && |s.log.eras| >= 1 && Iq.Run(su, s, acts, t)
    ensures t.log == ApplyAll(s.log, Captures(acts))
    decreases |acts|
  {
    hide Channelizer.ValidConfig, Apply, Enabled, Next, Channelizer.Emitted;
    if acts != [] {
      var a, s' := acts[0], Iq.After(su, s, acts[0]);
      Iq.LogGrows(su, s, a);
      LogOf(su, s', acts[1..], t);
      if a.Capture? {
        assert ([a.op] + Captures(acts[1..]))[1..] == Captures(acts[1..]);
      } else {
        assert [] + Captures(acts[1..]) == Captures(acts[1..]);
      }
    }
  }

  /** What a position at the end of the log sees of the callbacks that follow. */
  lemma SeesStream(log: Log, ops: seq<Op>, after: Log, inputs: seq<seq<byte>>, size: nat, e: nat, start: nat)
    requires log.Valid() && Publishes(ops, inputs, size) && after == ApplyAll(log, ops)
    requires e == |log.eras| && start == log.Current().Next()
    ensures |after.eras| >= e && after.eras[e - 1].first <= start <= after.eras[e - 1].Next()
    ensures Since(after, e, start) <= Stream(inputs)
    ensures |after.eras| == e && ops == PublishedOps(inputs, size) ==> Since(after, e, start) == Stream(inputs)
  {
    hide ApplyAll, Leading, PublishedOps, Flatten, Since, Stream, Sound, Accepted;
    SoFar(ops, inputs, size);
    StreamIs(inputs, size);
    SinceGets(log, ops, log.Current().Next());
    NothingYet(log);
  }

  lemma NothingYet(log: Log)
    requires log.Valid()
    ensures Since(log, |log.eras|, log.Current().Next()) == []
  {}

  lemma ChannelizeMore<F>(cfg: Channelizer.Config<F>, some: seq<byte>, all: seq<byte>)
    requires Channelizer.ValidConfig(cfg) && some <= all && |some| % 2 == |all| % 2 == 0
    ensures Channelizer.Channelize(cfg, some) <= Channelizer.Channelize(cfg, all)
  {
    hide Channelizer.ValidConfig, Channelizer.Channelize;
    assert all == some + all[|some|..];
    Channelizer.ChannelizePrefix(cfg, some, all[|some|..]);
  }

  /** End to end: however the callbacks were cut, the samples a client has been sent are a prefix
      of the channelizer over the published bytes, counted from its subscription on. */
  lemma PublishedToClient<F>(su: Iq.Setup<F>, inputs: seq<seq<byte>>, s: Iq.State, acts: seq<Iq.Action>, t: Iq.State)
    requires Iq.Served(su) && Iq.Init(su, s) && Iq.Run(su, s, acts, t) && |t.log.eras| - su.era < U64
    requires Publishes(Captures(acts), inputs, su.slotSize)
    ensures t.hist <= Stream(inputs)
    ensures Iq.Payload(t.box.data) <= Channelizer.Channelize(su.cfg, Stream(inputs))
  {
    hide Iq.Run, Channelizer.ValidConfig, Channelizer.Channelize, Iq.Payload, Iq.DataFrames, Script, ApplyAll,
        Publishes, Stream;
    Iq.Subscription(su, s, acts, t);
    LogOf(su, s, acts, t);
    SeesStream(s.log, Captures(acts), t.log, inputs, su.slotSize, su.era, su.start);
    ChannelizeMore(su.cfg, t.hist, Stream(inputs));
  }

  /** And so are the samples its program reads, into buffers of at least a slot, wherever the
      connection is cut. */
  lemma PublishedToReader<F>(su: Iq.Setup<F>, inputs: seq<seq<byte>>, s: Iq.State, acts: seq<Iq.Action>, t: Iq.State,
      maxes: seq<nat>)
    requires Iq.Served(su) && Iq.Init(su, s) && Iq.Run(su, s, acts, t) && |t.log.eras| - su.era < U64
    requires Publishes(Captures(acts), inputs, su.slotSize)
    requires forall i :: 0 <= i < |maxes| ==> maxes[i] >= su.slotSize
    ensures Iq.Heard(IqReads(Conn(true, t.box.wire), maxes)) <= Channelizer.Channelize(su.cfg, Stream(inputs))
  {
    hide Iq.Run, Channelizer.ValidConfig, Channelizer.Channelize, Publishes, Stream, Iq.Heard, IqReads;
    Iq.ReceivedSamples(su, s, acts, t, maxes);
    PublishedToClient(su, inputs, s, acts, t);
    ChannelizeMore(su.cfg, t.hist, Stream(inputs));
  }

  /** The next entry for a reader whose cursor is at or past the earlier end of the log was
      published since. */
  lemma ReadsPublished(log: Log, ops: seq<Op>, inputs: seq<seq<byte>>, size: nat, slots: nat, c: Cursor, e: nat)
    requires log.Valid() && Publishes(ops, inputs, size) && IssuedIn(ApplyAll(log, ops), c, e) && |log.eras| <= e
    requires e == |log.eras| ==> c.nextSeq >= log.Current().Next()
    requires |ApplyAll(log, ops).eras| - e < U64
    ensures var r := RingLog.Read(ApplyAll(log, ops), slots, c, size);
            !r.Error? && (r.Data? ==> 0 < |r.bytes| && (size % 2 == 0 ==> |r.bytes| % 2 == 0))
  {
    hide ApplyAll, Leading, Written, PublishedOps, Flatten, Stream, Accepted, RingLog.Read;
    var after := ApplyAll(log, ops);
    SoFar(ops, inputs, size);
    EraGets(log, ops);
    ReadExact(after, slots, c, e, size);
    var cur := after.Current();
    if e == |after.eras| && c.nextSeq < cur.Next() {
      EntryPublished(log, ops, e, c.nextSeq - cur.first, size);
    }
  }

  lemma EntryPublished(log: Log, ops: seq<Op>, e: nat, k: nat, size: nat)
    requires log.Valid() && Sound(Written(ops), size) && |log.eras| <= e <= |ApplyAll(log, ops).eras|
    requires k < |ApplyAll(log, ops).eras[e - 1].entries| && (e == |log.eras| ==> k >= |log.Current().entries|)
    ensures var p := ApplyAll(log, ops).eras[e - 1].entries[k]; 0 < |p| <= size && (size % 2 == 0 ==> |p| % 2 == 0)
  {
    hide ApplyAll, Written;
    EntriesWritten(log, ops, e, k);
  }

  /** A slot of odd length or one that does not fit never ends a client's session. */
  lemma NeverRefused<F>(su: Iq.Setup<F>, inputs: seq<seq<byte>>, s: Iq.State, acts: seq<Iq.Action>, t: Iq.State)
    requires Iq.Served(su) && Iq.Init(su, s) && Iq.Run(su, s, acts, t) && |t.log.eras| - su.era < U64
    requires Publishes(Captures(acts), inputs, su.slotSize) && su.slotSize % 2 == 0
    ensures |t.log.eras| >= 1
    ensures var r := RingLog.Read(t.log, su.slots, t.cursor, su.slotSize); !r.Error? && (r.Data? ==> |r.bytes| % 2 == 0)
  {
    hide Iq.Run, Channelizer.ValidConfig, Iq.Produced, Inv, ApplyAll, Publishes, RingLog.Read;
    Iq.InitKeeps(su, s);
    Iq.RunKeeps(su, s, acts, t);
    LogOf(su, s, acts, t);
    EraGets(s.log, Captures(acts));
    ReadsPublished(s.log, Captures(acts), inputs, su.slotSize, su.slots, t.cursor, su.era);
  }

  /** And nothing is held back: a client that has caught up with callbacks of which none was a
      gap has been sent the channelizer over all of them. */
  lemma AllDelivered<F>(su: Iq.Setup<F>, inputs: seq<seq<byte>>, s: Iq.State, acts: seq<Iq.Action>, t: Iq.State)
    requires Iq.Served(su) && Iq.Init(su, s) && Iq.Run(su, s, acts, t) && su.slotSize > 0
    requires Captures(acts) == PublishedOps(inputs, su.slotSize) && |t.log.eras| == su.era
    requires t.box.pc.Looking? && RingLog.Read(t.log, su.slots, t.cursor, su.slotSize).Empty?
    ensures Iq.Payload(t.box.data) == Channelizer.Channelize(su.cfg, Stream(inputs))
  {
    hide Iq.Run, Channelizer.ValidConfig, Channelizer.Channelize, Iq.Payload, Iq.DataFrames, Script;
    hide ApplyAll, Stream, PublishedOps, Flatten, Consumed, RingLog.Read, Iq.Produced, Inv, Since, Captured;
    Iq.Subscription(su, s, acts, t);
    Iq.InitKeeps(su, s);
    Iq.RunKeeps(su, s, acts, t);
    LogOf(su, s, acts, t);
    SeesStream(s.log, Captures(acts), t.log, inputs, su.slotSize, su.era, su.start);
    CaughtUp(t.log, su.slots, su.slotSize, su.era, su.start, t.cursor, t.hist);
  }

  /** Its program then reads exactly that, if it reads often enough. */
  lemma AllRead<F>(su: Iq.Setup<F>, inputs: seq<seq<byte>>, s: Iq.State, acts: seq<Iq.Action>, t: Iq.State,
      maxes: seq<nat>)
    requires Iq.Served(su) && Iq.Init(su, s) && Iq.Run(su, s, acts, t) && su.slotSize > 0
    requires Captures(acts) == PublishedOps(inputs, su.slotSize) && |t.log.eras| == su.era
    requires t.box.pc.Looking? && RingLog.Read(t.log, su.slots, t.cursor, su.slotSize).Empty?
    requires |maxes| >= |t.box.data| && forall i :: 0 <= i < |maxes| ==> maxes[i] >= su.slotSize
    ensures Iq.Heard(IqReads(Conn(true, t.box.wire), maxes)) == Channelizer.Channelize(su.cfg, Stream(inputs))
  {
    hide Iq.Run, Channelizer.ValidConfig, Channelizer.Channelize, Stream, Iq.Heard, IqReads, PublishedOps, Iq.Payload,
        RingLog.Read, Captures;
    Iq.ReceivedSamples(su, s, acts, t, maxes);
    PublishedToReader(su, inputs, s, acts, t, maxes);
    AllDelivered(su, inputs, s, acts, t);
  }

  lemma CaughtUp(log: Log, slots: nat, capacity: nat, era: nat, start: nat, cursor: Cursor, hist: seq<byte>)
    requires Consumed(log, era, start, cursor, hist) && era == |log.eras|
    requires RingLog.Read(log, slots, cursor, capacity).Empty?
    ensures hist == Since(log, era, start)
  {
    hide Flatten;
    var e := log.eras[era - 1];
    assert Taken(e, start, cursor.nextSeq) == e.entries[start - e.first..];
  }

  // ---- To an FFT client ----

  ghost predicate InfixAt(part: seq<byte>, all: seq<byte>, at: nat) {
    at + |part| <= |all| && all[at..at + |part|] == part
  }

  /** part is a contiguous piece of all. */
  ghost predicate Infix(part: seq<byte>, all: seq<byte>) {
    exists at: nat :: InfixAt(part, all, at)
  }

  /** Position (era, start) is not before the end of the log. */
  ghost predicate Past(log: Log, era: nat, start: nat) {
    |log.eras| >= 1 && (era > |log.eras| || (era == |log.eras| && start >= log.Current().Next()))
  }

  lemma PrefixOfInfix(some: seq<byte>, part: seq<byte>, all: seq<byte>)
    requires some <= part && Infix(part, all)
    ensures Infix(some, all)
  {
    var at: nat :| InfixAt(part, all, at);
    assert all[at..at + |some|] == all[at..at + |part|][..|some|];
    assert InfixAt(some, all, at);
  }

  lemma InfixWithin(part: seq<byte>, some: seq<byte>, before: seq<byte>, after: seq<byte>)
    requires Infix(part, some)
    ensures Infix(part, before + some + after)
  {
    var at: nat :| InfixAt(part, some, at);
    var all := before + some + after;
    assert all[|before| + at..|before| + at + |part|] == some[at..at + |part|];
    assert InfixAt(part, all, |before| + at);
  }

  /** What an era holds from a position past the earlier end of the log on was written from one
      operation on, without a gap. */
  lemma {:induction false} FromOneOp(log: Log, ops: seq<Op>, era: nat, start: nat) returns (j: nat)
    requires log.Valid() && Past(log, era, start) && era <= |ApplyAll(log, ops).eras|
    requires var e := ApplyAll(log, ops).eras[era - 1]; e.first <= start <= e.Next()
    ensures j <= |ops| && Since(ApplyAll(log, ops), era, start) <= Flatten(Leading(ops[j..]))
    decreases |ops|
  {
    hide Flatten, Since, Leading;
    j := 0;
    assert ops[0..] == ops;
    if era == |log.eras| && start == log.Current().Next() {
      SinceGets(log, ops, start);
      NothingYet(log);
    } else {
      var log' := Apply(log, ops[0]);
      if era < |log'.eras| { EraFrozen(log', ops[1..], era); } else { EraGets(log', ops[1..]); }
      if Past(log', era, start) {
        var i := FromOneOp(log', ops[1..], era, start);
        j := i + 1;
        assert ops[1..][i..] == ops[j..];
      } else {
        RollsOver(log, ops, start);
      }
    }
  }

  /** A write that begins an era is the first thing in it. */
  lemma RollsOver(log: Log, ops: seq<Op>, start: nat)
    requires log.Valid() && ops != [] && ops[0].WriteOp? && log.Current().Next() == U64_MAX && start == 0
    ensures var after, e := ApplyAll(log, ops), |log.eras| + 1;
            |after.eras| >= e && after.eras[e - 1].first == 0 && Since(after, e, 0) <= Flatten(Leading(ops))
  {
    hide Flatten, Since;
    var log' := Apply(log, ops[0]);
    SinceGets(log', ops[1..], 0);
    FirstEntry(log', ops[0].entry);
    FlattenCons(ops[0].entry, Leading(ops[1..]));
  }

  lemma FirstEntry(log: Log, entry: seq<byte>)
    requires |log.eras| >= 1 && log.Current() == Era(0, [entry])
    ensures Since(log, |log.eras|, 0) == entry
  {
    FlattenOne(entry);
    assert [entry][0..] == [entry];
  }

  /** What is written from one operation on, up to the next gap, is a piece of the callbacks
      between two of odd length. */
  lemma {:induction false} FromOneCallback(inputs: seq<seq<byte>>, size: nat, j: nat) returns (k: nat)
    requires size > 0 && j <= |PublishedOps(inputs, size)|
    ensures k <= |inputs| && Infix(Flatten(Leading(PublishedOps(inputs, size)[j..])), Stream(inputs[k..]))
    decreases |inputs|
  {
    hide Flatten, Chunks, Infix;
    k := 0;
    assert inputs[0..] == inputs;
    var all := PublishedOps(inputs, size);
    if inputs == [] {
      FlattenEmpty<byte>();
      EmptyInfix(Stream(inputs));
    } else {
      var first, rest := Ops(inputs[0], size), PublishedOps(inputs[1..], size);
      if j >= |first| {
        var i := FromOneCallback(inputs[1..], size, j - |first|);
        k := i + 1;
        assert all[j..] == rest[j - |first|..] && inputs[1..][i..] == inputs[k..];
      } else if |inputs[0]| % 2 == 1 {
        FlattenEmpty<byte>();
        EmptyInfix(Stream(inputs));
      } else {
        WithinCallback(inputs, size, j);
      }
    }
  }

  lemma EmptyInfix(all: seq<byte>)
    ensures Infix([], all)
  {
    assert InfixAt([], all, 0);
  }

  lemma WritesLate(parts: seq<seq<byte>>, j: nat, rest: seq<Op>)
    requires j <= |parts|
    ensures Leading((Writes(parts) + rest)[j..]) == parts[j..] + Leading(rest)
  {
    hide Leading;
    assert (Writes(parts) + rest)[j..] == Writes(parts[j..]) + rest;
    WritesAll(parts[j..]);
    LeadingAppend(Writes(parts[j..]), rest);
  }

  lemma WithinCallback(inputs: seq<seq<byte>>, size: nat, j: nat)
    requires size > 0 && inputs != [] && |inputs[0]| % 2 == 0 && j < |Ops(inputs[0], size)|
    ensures j <= |PublishedOps(inputs, size)|
    ensures Infix(Flatten(Leading(PublishedOps(inputs, size)[j..])), Stream(inputs))
  {
    hide Flatten, Chunks, Leading, Infix, Writes;
    var parts, rest := Chunks(inputs[0], size), PublishedOps(inputs[1..], size);
    WritesLate(parts, j, rest);
    StreamIs(inputs[1..], size);
    ChunksFlatten(inputs[0], size);
    LatePiece(parts, j, Leading(rest));
  }

  lemma LatePiece(parts: seq<seq<byte>>, j: nat, more: seq<seq<byte>>)
    requires j <= |parts|
    ensures Infix(Flatten(parts[j..] + more), Flatten(parts) + Flatten(more))
  {
    hide Flatten;
    var a, b := Flatten(parts[..j]), Flatten(parts[j..] + more);
    FlattenAppend(parts[..j], parts[j..] + more);
    FlattenAppend(parts, more);
    assert parts[..j] + (parts[j..] + more) == parts + more;
    assert InfixAt(b, a + b, |a|);
  }

  /** What a reader takes from a position past the earlier end of the log is a piece of what was
      published between two refused callbacks. */
  lemma PieceOf(log: Log, ops: seq<Op>, inputs: seq<seq<byte>>, size: nat, era: nat, start: nat, hist: seq<byte>)
      returns (k: nat)
    requires log.Valid() && Publishes(ops, inputs, size) && Past(log, era, start)
    requires Captured(ApplyAll(log, ops), era, start, hist)
    ensures k <= |inputs| && Infix(hist, Stream(inputs[k..]))
  {
    hide Flatten, ApplyAll, Since, Leading, PublishedOps, Infix, Stream;
    var j := FromOneOp(log, ops, era, start);
    var all := PublishedOps(inputs, size);
    k := FromOneCallback(inputs, size, j);
    assert all[j..] == ops[j..] + all[|ops|..];
    LeadingAppend(ops[j..], all[|ops|..]);
    FlattenPrefix(Leading(ops[j..]), Leading(all[j..]));
    PrefixOfInfix(hist, Flatten(Leading(all[j..])), Stream(inputs[k..]));
  }

  lemma {:induction false} StreamAccepted(inputs: seq<seq<byte>>)
    ensures Stream(inputs) <= Accepted(inputs)
  {
    if inputs != [] && |inputs[0]| % 2 == 0 {
      StreamAccepted(inputs[1..]);
    }
  }

  lemma {:induction false} PieceAccepted(part: seq<byte>, inputs: seq<seq<byte>>, k: nat)
    requires k <= |inputs| && Infix(part, Stream(inputs[k..]))
    ensures Infix(part, Accepted(inputs))
    decreases k
  {
    hide Infix, Stream;
    if k == 0 {
      assert inputs[0..] == inputs;
      StreamAccepted(inputs);
      var some, all := Stream(inputs), Accepted(inputs);
      InfixWithin(part, some, [], all[|some|..]);
      assert [] + some + all[|some|..] == all;
    } else {
      assert inputs[1..][k - 1..] == inputs[k..];
      PieceAccepted(part, inputs[1..], k - 1);
      var before, some := if |inputs[0]| % 2 == 1 then [] else inputs[0], Accepted(inputs[1..]);
      InfixWithin(part, some, before, []);
      assert before + some + [] == Accepted(inputs);
    }
  }

  function FftCaptures(acts: seq<Fft.Action>): seq<Op> {
    if acts == [] then [] else (if acts[0].Capture? then [acts[0].op] else []) + FftCaptures(acts[1..])
  }

  lemma LogKept(su: Fft.Setup, s: Fft.State, a: Fft.Action)
    requires Fft.Possible(su, s, a)
    ensures Fft.After(su, s, a).log == if a.Capture? then Apply(s.log, a.op) else s.log
  {
    hide Apply, Enabled, Next, RingLog.Read, Spectra.Spectrum;
  }

  lemma {:induction false} FftLogOf(su: Fft.Setup, s: Fft.State, acts: seq<Fft.Action>, t: Fft.State)
    requires |s.log.eras| >= 1 && Fft.Run(su, s, acts, t)
    ensures t.log == ApplyAll(s.log, FftCaptures(acts))
    decreases |acts|
  {
    hide Fft.Possible, Fft.After, Apply;
    if acts != [] {
      var a := acts[0];
      LogKept(su, s, a);
      Fft.Grows(su, s, a);
      FftLogOf(su, Fft.After(su, s, a), acts[1..], t);
      if a.Capture? {
        assert ([a.op] + FftCaptures(acts[1..]))[1..] == FftCaptures(acts[1..]);
      } else {
        assert [] + FftCaptures(acts[1..]) == FftCaptures(acts[1..]);
      }
    }
  }

  /** Every stretch begins after the earlier end of the log, and so does the log's end now. */
  ghost predicate Later(log: Log, s: Fft.State) {
    && s.log.Valid() && Past(log, |s.log.eras|, s.log.Current().Next())
    && forall st :: st in s.stretches ==> Past(log, st.era, st.start)
  }

  lemma EndMoves(log: Log, now: Log, op: Op)
    requires now.Valid() && Past(log, |now.eras|, now.Current().Next())
    ensures Apply(now, op).Valid() && Past(log, |Apply(now, op).eras|, Apply(now, op).Current().Next())
  {}

  lemma LaterKeeps(log: Log, su: Fft.Setup, s: Fft.State, a: Fft.Action)
    requires Fft.Possible(su, s, a) && Later(log, s)
    ensures Later(log, Fft.After(su, s, a))
  {
    hide Apply, Enabled, Next, RingLog.Read, Spectra.Spectrum, Past, Spectra.SpectrumCount;
    if a.Capture? {
      EndMoves(log, s.log, a.op);
    }
  }

  lemma {:induction false} LaterRun(log: Log, su: Fft.Setup, s: Fft.State, acts: seq<Fft.Action>, t: Fft.State)
    requires Fft.Run(su, s, acts, t) && Later(log, s)
    ensures Later(log, t)
    decreases |acts|
  {
    hide Fft.Possible, Fft.After, Later;
    if acts != [] {
      LaterKeeps(log, su, s, acts[0]);
      LaterRun(log, su, Fft.After(su, s, acts[0]), acts[1..], t);
    }
  }

  /** The capture behind every spectrum is a contiguous piece of the bytes published between
      two refused callbacks, and so of all the bytes published. */
  lemma StretchesPublished(su: Fft.Setup, inputs: seq<seq<byte>>, s: Fft.State, acts: seq<Fft.Action>, t: Fft.State,
      g: nat)
    requires Fft.Served(su) && Fft.Init(s) && Fft.Run(su, s, acts, t) && |t.log.eras| < U64 && |t.stretches| < U64
    requires Publishes(FftCaptures(acts), inputs, su.slotSize) && g < |t.stretches|
    ensures exists k :: 0 <= k <= |inputs| && Infix(t.stretches[g].hist, Stream(inputs[k..]))
    ensures Infix(t.stretches[g].hist, Accepted(inputs))
  {
    hide Fft.Run, Fft.Picked, Script, ApplyAll, Publishes, Captured, Accepted, Past, Stream, Infix;
    Fft.OneStretch(su, s, acts, t);
    FftLogOf(su, s, acts, t);
    AtEnd(s.log);
    LaterRun(s.log, su, s, acts, t);
    var st := t.stretches[g];
    var k := PieceOf(s.log, FftCaptures(acts), inputs, su.slotSize, st.era, st.start, st.hist);
    PieceAccepted(st.hist, inputs, k);
  }

  lemma AtEnd(log: Log)
    requires log.Valid()
    ensures Past(log, |log.eras|, log.Current().Next())
  {}

  /** A slot of odd length or one that does not fit never stops the FFT worker. */
  lemma WorkerNeverRefuses(su: Fft.Setup, inputs: seq<seq<byte>>, s: Fft.State, acts: seq<Fft.Action>, t: Fft.State)
    requires Fft.Served(su) && Fft.Init(s) && Fft.Run(su, s, acts, t) && |t.log.eras| < U64 && |t.stretches| < U64
    requires Publishes(FftCaptures(acts), inputs, su.slotSize) && su.slotSize % 2 == 0 && t.worker.Idle?
    ensures |t.log.eras| >= 1
    ensures var r := RingLog.Read(t.log, su.slots, t.cursor, su.slotSize); !r.Error? && (r.Data? ==> |r.bytes| % 2 == 0)
  {
    hide Fft.Run, Fft.Client, Inv, ApplyAll, Publishes, RingLog.Read, Fft.Shown, Fft.Contiguous, Flatten;
    Fft.InitKeeps(su, s);
    Fft.RunKeeps(su, s, acts, t);
    FftLogOf(su, s, acts, t);
    LaterRun(s.log, su, s, acts, t);
    ReadsPublished(s.log, FftCaptures(acts), inputs, su.slotSize, su.slots, t.cursor, Fft.Cur(t).era);
  }
}
