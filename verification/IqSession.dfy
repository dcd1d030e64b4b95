/** One IQ client from subscription to close (iq_client_handler in src/rtl_stream_server.c):
    ring reader, channelizer, framing and socket together, against a capture thread, retunes
    and stop requests that may fall between any two steps. Clients share nothing else, so one
    of them stands for each. */
module IqSession {
  import opened Words
  import opened RingLog
  import opened Sequences
  import opened Subscriber
  import opened Wire
  import opened Channelizer
  import opened Outbox

  /** What is fixed at subscription. */
  datatype Setup<!F> = Setup(cfg: Config<F>, slots: nat, slotSize: nat, freq: u64, rate: u64, era: nat, start: nat)

  /** rtlsdr_server_init refuses a ring with larger slots. */
  ghost predicate Served<F>(su: Setup<F>) {
    ValidConfig(su.cfg) && su.slotSize <= MAX_IQ_COMPONENTS
  }

  type Pairs = s: seq<byte> | |s| % 2 == 0 witness []

  /** hist is what the channelizer has been given. */
  datatype State = State(log: Log, cursor: Cursor, hist: Pairs, box: Box)

  datatype Action = Capture(op: Op) | ReadRing | Outside(act: Act)

  predicate Possible(s: State, a: Action) {
    match a
    case Capture(_) => |s.log.eras| >= 1
    case ReadRing => s.box.pc.Looking? && |s.log.eras| >= 1
    case Outside(act) => Enabled(s.box, act)
  }

  /** A slot of bytes has been read: channelize it, and frame what comes out, if anything. */
  function AfterData<F>(su: Setup<F>, s: State, bytes: seq<byte>): State
    requires ValidConfig(su.cfg)
  {
    hide Channelize, ValidConfig;
    if |bytes| % 2 == 1 then s.(box := s.box.(pc := GONE))
    else
      var out := Emitted(su.cfg, s.hist, bytes);
      s.(hist := s.hist + bytes, cursor := s.cursor.(nextSeq := s.cursor.nextSeq + 1),
         box := Offer(s.box, if out == [] then None else Some(Iq(su.freq, su.rate, |s.box.data| % U64, out))))
  }

  function AfterRead<F>(su: Setup<F>, s: State): State
    requires ValidConfig(su.cfg) && |s.log.eras| >= 1
  {
    match RingLog.Read(s.log, su.slots, s.cursor, su.slotSize)
    case Empty => s.(box := Offer(s.box, None))
    case Data(bytes) => AfterData(su, s, bytes)
    case _ => s.(box := s.box.(pc := GONE))
  }

  function After<F>(su: Setup<F>, s: State, a: Action): State
    requires ValidConfig(su.cfg) && Possible(s, a)
  {
    match a
    case Capture(op) => s.(log := Apply(s.log, op))
    case ReadRing => AfterRead(su, s)
    case Outside(act) => s.(box := Next(s.box, act))
  }

  ghost predicate Init<F>(su: Setup<F>, s: State) {
    && s.log.Valid() && s.cursor == CursorNow(s.log) && su.era == |s.log.eras| && su.start == s.cursor.nextSeq
    && s.hist == [] && Fresh(s.box) && !s.box.fftMode
  }

  // ---- The invariant ----

  /** The samples of the data frames, in order. */
  ghost function Payload(fs: seq<Frame>): seq<int16> {
    if fs == [] then []
    else Payload(fs[..|fs| - 1]) + (if fs[|fs| - 1].Iq? then fs[|fs| - 1].samples else [])
  }

  /** The n-th data frame. Neither encoder refuses it: it is emittable, and its payload fits the
      wire buffer of two bytes for each byte of a slot. */
  ghost predicate DataFrame<F>(su: Setup<F>, f: Frame, n: nat) {
    && f.Iq? && f.freq == su.freq && f.rate == su.rate && f.seqNo == n % U64 && f.samples != []
    && Emittable(f) && |f.samples| <= su.slotSize
  }

  ghost predicate DataFrames<F>(su: Setup<F>, data: seq<Frame>) {
    forall i :: 0 <= i < |data| ==> DataFrame(su, data[i], i)
  }

  /** The frames made so far are the channelized history, cut up. */
  ghost predicate Produced<F>(su: Setup<F>, hist: seq<byte>, line: seq<Frame>, over: bool) {
    && ValidConfig(su.cfg) && |hist| % 2 == 0 && DataFrames(su, line)
    && (if over then Payload(line) <= Channelize(su.cfg, hist) else Payload(line) == Channelize(su.cfg, hist))
  }

  ghost predicate SessionInv<F>(su: Setup<F>, s: State) {
    && Served(su) && su.era <= |s.log.eras| && s.log.Valid()
    && Consumed(s.log, su.era, su.start, s.cursor, s.hist)
    && Produced(su, s.hist, Line(s.box), Over(s.box.pc))
    && Inv(s.box) && !s.box.fftMode
  }

  // ---- Steps ----

  lemma PayloadSnoc(fs: seq<Frame>, f: Frame)
    ensures Payload(fs + [f]) == Payload(fs) + (if f.Iq? then f.samples else [])
  {
    assert (fs + [f])[..|fs|] == fs;
  }

  /** What a call of the channelizer emits continues what it has emitted, and fits a frame. */
  lemma EmittedContinues<F>(cfg: Config<F>, hist: seq<byte>, bytes: seq<byte>)
    requires ValidConfig(cfg) && |hist| % 2 == |bytes| % 2 == 0
    ensures Channelize(cfg, hist + bytes) == Channelize(cfg, hist) + Emitted(cfg, hist, bytes)
    ensures |Emitted(cfg, hist, bytes)| <= |bytes| && |Emitted(cfg, hist, bytes)| % 2 == 0
  {
    hide Channelize, ValidConfig, Beyond, Product;
    ChannelizePrefix(cfg, hist, bytes);
    ChannelizeCount(cfg, hist, bytes);
    ChannelizeCount(cfg, hist + bytes, []);
    BeyondRest(Channelize(cfg, hist + bytes), Channelize(cfg, hist));
  }

  lemma BeyondRest(all: seq<int16>, done: seq<int16>)
    requires done <= all
    ensures all == done + Beyond(all, done)
  {}

  lemma {:induction false} PayloadPrefix(fs: seq<Frame>, gs: seq<Frame>)
    requires fs <= gs
    ensures Payload(fs) <= Payload(gs)
    decreases |gs|
  {
    if |fs| == |gs| {
      assert fs == gs;
    } else {
      var n := |gs| - 1;
      PayloadPrefix(fs, gs[..n]);
      PayloadSnoc(gs[..n], gs[n]);
      assert gs[..n] + [gs[n]] == gs;
    }
  }

  /** Dropping the frame in hand loses only the end of the line. */
  lemma ProducedLess<F>(su: Setup<F>, hist: seq<byte>, line: seq<Frame>, less: seq<Frame>, over: bool)
    requires Produced(su, hist, line, over) && less <= line
    ensures Produced(su, hist, less, true)
  {
    hide Channelize, ValidConfig, Payload;
    PayloadPrefix(less, line);
  }

  lemma ProducedMore<F>(su: Setup<F>, hist: seq<byte>, data: seq<Frame>, bytes: seq<byte>)
    requires Served(su) && Produced(su, hist, data, false) && |bytes| % 2 == 0 && |bytes| <= su.slotSize
    ensures var out := Emitted(su.cfg, hist, bytes);
            var f := Iq(su.freq, su.rate, |data| % U64, out);
            && (out == [] ==> Produced(su, hist + bytes, data, false))
            && (out != [] ==> DataFrame(su, f, |data|) && Produced(su, hist + bytes, data + [f], false))
  {
    hide Channelize, ValidConfig, Payload, Emitted;
    EmittedContinues(su.cfg, hist, bytes);
    PayloadSnoc(data, Iq(su.freq, su.rate, |data| % U64, Emitted(su.cfg, hist, bytes)));
  }

  lemma ReadKeeps<F>(su: Setup<F>, s: State)
    requires SessionInv(su, s) && s.box.pc.Looking? && |s.log.eras| - su.era < U64
    ensures SessionInv(su, AfterRead(su, s)) && AfterRead(su, s).log == s.log
  {
    hide Consumed, ValidConfig, Emitted, Inv, Produced;
    ConsumedReads(s.log, su.slots, su.slotSize, su.era, su.start, s.cursor, s.hist);
    var r := RingLog.Read(s.log, su.slots, s.cursor, su.slotSize);
    OfferKeeps(s.box, None);
    StepKeeps(s.box, Abandon);
    ProducedLess(su, s.hist, Line(s.box), Line(Next(s.box, Abandon)), false);
    if r.Data? && |r.bytes| % 2 == 0 {
      ProducedMore(su, s.hist, s.box.data, r.bytes);
      var out := Emitted(su.cfg, s.hist, r.bytes);
      if out != [] {
        OfferKeeps(s.box, Some(Iq(su.freq, su.rate, |s.box.data| % U64, out)));
      }
    }
  }

  /** Every step of the client, the capture thread and the outside world keeps the invariant. */
  lemma SessionKeeps<F>(su: Setup<F>, s: State, a: Action)
    requires SessionInv(su, s) && Possible(s, a) && |s.log.eras| - su.era < U64
    ensures SessionInv(su, After(su, s, a))
  {
    hide Consumed, ValidConfig, Inv, Produced, AfterRead, Apply, Enabled, Next, Line;
    match a
    case ReadRing => ReadKeeps(su, s);
    case Capture(op) => ConsumedGrows(s.log, op, su.era, su.start, s.cursor, s.hist);
    case Outside(act) =>
      StepKeeps(s.box, act);
      ProducedLess(su, s.hist, Line(s.box), Line(Next(s.box, act)), Over(s.box.pc));
  }

  // ---- Runs ----

  ghost predicate Run<F>(su: Setup<F>, s: State, acts: seq<Action>, t: State)
    requires ValidConfig(su.cfg)
    decreases |acts|
  {
    if acts == [] then s == t else Possible(s, acts[0]) && Run(su, After(su, s, acts[0]), acts[1..], t)
  }

  lemma LogGrows<F>(su: Setup<F>, s: State, a: Action)
    requires ValidConfig(su.cfg) && Possible(s, a)
    ensures |After(su, s, a).log.eras| >= |s.log.eras|
  {
    hide Emitted, ValidConfig, Next, Enabled;
  }

  lemma {:induction false} RunGrows<F>(su: Setup<F>, s: State, acts: seq<Action>, t: State)
    requires ValidConfig(su.cfg) && Run(su, s, acts, t)
    ensures |t.log.eras| >= |s.log.eras|
    decreases |acts|
  {
    hide After, Possible, ValidConfig;
    if acts != [] {
      LogGrows(su, s, acts[0]);
      RunGrows(su, After(su, s, acts[0]), acts[1..], t);
    }
  }

  lemma {:induction false} RunKeeps<F>(su: Setup<F>, s: State, acts: seq<Action>, t: State)
    requires SessionInv(su, s) && Run(su, s, acts, t) && |t.log.eras| - su.era < U64
    ensures SessionInv(su, t)
    decreases |acts|
  {
    hide After, Possible, Consumed, Produced, Inv, ValidConfig;
    if acts != [] {
      RunGrows(su, s, acts, t);
      SessionKeeps(su, s, acts[0]);
      RunKeeps(su, After(su, s, acts[0]), acts[1..], t);
    }
  }

  lemma InitKeeps<F>(su: Setup<F>, s: State)
    requires Served(su) && Init(su, s)
    ensures SessionInv(su, s)
  {
    hide ValidConfig, Channelize;
    ChannelizeCount(su.cfg, [], []);
    assert s.box.data + s.box.tail == [];
  }

  /** What a subscriber is sent, on every interleaving: data frames numbered from 0 that
      concatenate to a prefix of the channelizer run over exactly what was captured since the
      subscription, with no byte skipped or repeated, and to all of it whenever the worker is
      waiting for more; then, only if the capture was retuned, one frequency event naming the
      frequency last tuned to when the worker noticed, and one end event. No data frame is begun
      after a retune. */
  lemma Subscription<F>(su: Setup<F>, s: State, acts: seq<Action>, t: State)
    requires Served(su) && Init(su, s) && Run(su, s, acts, t) && |t.log.eras| - su.era < U64
    ensures Captured(t.log, su.era, su.start, t.hist)
    ensures DataFrames(su, t.box.data) && Payload(t.box.data) <= Channelize(su.cfg, t.hist)
    ensures t.box.pc.Looking? ==> Payload(t.box.data) == Channelize(su.cfg, t.hist)
    ensures Script(t.box.tail, t.box.pc, t.box.tunes, t.box.seen)
    ensures t.box.tunes != [] ==> |t.box.data| <= t.box.begun
  {
    hide Run, After, ValidConfig, Channelize, Payload, Consumed, Captured, OnWire, DataFrame;
    InitKeeps(su, s);
    RunKeeps(su, s, acts, t);
    ConsumedCaptured(t.log, su.era, su.start, t.cursor, t.hist);
    ProducedLess(su, t.hist, Line(t.box), t.box.data, Over(t.box.pc));
    assert t.box.pc.Looking? ==> Line(t.box) == t.box.data;
  }

  /** The reader at the other end recovers the frames sent whole, one by one, and after them
      only errors, wherever the connection is cut and whatever buffers it reads into. */
  lemma {:induction false} Received<F>(su: Setup<F>, s: State, acts: seq<Action>, t: State, maxes: seq<nat>)
    requires Served(su) && Init(su, s) && Run(su, s, acts, t) && |t.log.eras| - su.era < U64
    ensures IqFrames(Whole(t.box))
    ensures forall i :: 0 <= i < |maxes| ==>
              IqReads(Conn(true, t.box.wire), maxes)[i] ==
              if i < |Whole(t.box)| then IqView(Whole(t.box)[i], maxes[i]) else ReadError
  {
    hide Run, After, Possible, ValidConfig, Channelize, Payload, EncodeAll, Encode, IqReads, IqView, Consumed, Retuned;
    InitKeeps(su, s);
    RunKeeps(su, s, acts, t);
    OnlyLastEnds(t.box);
    var next, cut := WireIsWhole(t.box);
    IqConnection(Whole(t.box), next, cut, maxes);
  }

  /** The samples of the reads that succeeded, in order. */
  ghost function Heard(got: seq<Read<int16>>): seq<int16> {
    if got == [] then []
    else Heard(got[..|got| - 1]) + (if got[|got| - 1].ReadOk? then got[|got| - 1].payload else [])
  }

  lemma {:induction false} HeardIs(fs: seq<Frame>, maxes: seq<nat>, got: seq<Read<int16>>, n: nat)
    requires IqFrames(fs) && n <= |got| == |maxes|
    requires forall i :: 0 <= i < |maxes| ==> got[i] == if i < |fs| then IqView(fs[i], maxes[i]) else ReadError
    requires forall i :: 0 <= i < |maxes| && i < |fs| && fs[i].Iq? ==> |fs[i].samples| <= maxes[i]
    ensures Heard(got[..n]) == Payload(fs[..Min(n, |fs|)])
  {
    if n > 0 {
      HeardIs(fs, maxes, got, n - 1);
      assert got[..n][..n - 1] == got[..n - 1];
      if n <= |fs| {
        PayloadSnoc(fs[..n - 1], fs[n - 1]);
        assert fs[..n] == fs[..n - 1] + [fs[n - 1]];
      }
    }
  }

  lemma {:induction false} PayloadEvents(fs: seq<Frame>, events: seq<Frame>)
    requires forall f :: f in events ==> !IsData(f)
    ensures Payload(fs + events) == Payload(fs)
  {
    if events == [] {
      assert fs + events == fs;
    } else {
      var n := |events| - 1;
      assert events[n] in events;
      PayloadEvents(fs, events[..n]);
      PayloadSnoc(fs + events[..n], events[n]);
      assert fs + events == fs + events[..n] + [events[n]];
    }
  }

  lemma SlotSized<F>(su: Setup<F>, line: seq<Frame>, data: seq<Frame>, events: seq<Frame>, f: Frame)
    requires DataFrames(su, line) && data <= line && (forall g :: g in events ==> !IsData(g))
    requires f in data + events && f.Iq?
    ensures |f.samples| <= su.slotSize
  {
    if f in data {
      var i :| 0 <= i < |data| && data[i] == f;
      assert DataFrame(su, line[i], i);
    }
  }

  /** The frames sent whole carry no more than the channelized history, in slot-sized pieces. */
  lemma WholePayload<F>(su: Setup<F>, t: State)
    requires SessionInv(su, t)
    ensures Payload(t.box.data) <= Payload(Whole(t.box)) <= Channelize(su.cfg, t.hist)
    ensures forall f :: f in Whole(t.box) && f.Iq? ==> |f.samples| <= su.slotSize
    ensures t.box.pc.Looking? ==> Whole(t.box) == t.box.data
  {
    hide ValidConfig, Channelize, Payload, Consumed, Inv, Whole, Line;
    var data, events := WholeParts(t.box);
    PayloadEvents(data, events);
    PayloadPrefix(t.box.data, data);
    PayloadPrefix(data, Line(t.box));
    forall f | f in Whole(t.box) && f.Iq? ensures |f.samples| <= su.slotSize {
      SlotSized(su, Line(t.box), data, events, f);
    }
  }

  /** What the peer's program gets, with buffers of at least a slot: never anything but the
      channelized history from its beginning, and every sample of every data frame sent once it
      has read often enough. */
  lemma ReceivedSamples<F>(su: Setup<F>, s: State, acts: seq<Action>, t: State, maxes: seq<nat>)
    requires Served(su) && Init(su, s) && Run(su, s, acts, t) && |t.log.eras| - su.era < U64
    requires forall i :: 0 <= i < |maxes| ==> maxes[i] >= su.slotSize
    ensures Heard(IqReads(Conn(true, t.box.wire), maxes)) <= Channelize(su.cfg, t.hist)
    ensures t.box.pc.Looking? ==> Whole(t.box) == t.box.data
    ensures |maxes| >= |Whole(t.box)| ==> Payload(t.box.data) <= Heard(IqReads(Conn(true, t.box.wire), maxes))
  {
    hide Run, ValidConfig, Channelize, Payload, IqReads, IqView, Consumed, Produced, Inv, Whole, Heard;
    InitKeeps(su, s);
    RunKeeps(su, s, acts, t);
    Received(su, s, acts, t, maxes);
    WholePayload(su, t);
    var fs, got := Whole(t.box), IqReads(Conn(true, t.box.wire), maxes);
    HeardIs(fs, maxes, got, |maxes|);
    assert got[..|maxes|] == got;
    PayloadPrefix(fs[..Min(|maxes|, |fs|)], fs);
    assert |maxes| >= |fs| ==> fs[..Min(|maxes|, |fs|)] == fs;
  }
}
