/** The FFT worker and one of its clients together (fft_compute_thread, fft_gap and
    fft_client_handler in src/rtl_stream_server.c): the worker reads the ring and replaces one
    shared snapshot; the client copies it when it is newer than the last it sent. A spectrum
    is published, a gap declared, the capture extended or a frame sent between any two steps.
    Powers are the 32-bit patterns of floats, and the float operations work on patterns. */
module FftSession {
  import opened Words
  import opened RingLog
  import opened Sequences
  import opened Subscriber
  import opened Spectra
  import opened Wire
  import opened Outbox

  datatype Setup = Setup(cfg: Config<u32>, slots: nat, slotSize: nat, freq: u64, rate: u64)

  ghost predicate Served(su: Setup) {
    WellFormed(su.cfg) && su.cfg.bins <= MAX_FFT_BINS
  }

  /** The capture between two gaps, from position start of an era on, with the number of
      spectra published before it. */
  datatype Stretch = Stretch(era: nat, start: nat, hist: seq<byte>, base: nat)

  datatype WorkerPc = Idle | Feeding | Resyncing | Stopped

  datatype State = State(
    log: Log, worker: WorkerPc, cursor: Cursor,
    stretches: seq<Stretch>, count: nat,     // spectra published in the last stretch
    snapshot: seq<u32>,
    gen: nat, picks: seq<nat>, box: Box)     // the client: its stretch (0 before it connects), the spectra it took

  datatype Action =
    | Capture(op: Op) | WorkerRead | Publish | Fed | WorkerFail | Resync
    | Connect | Look | Outside(act: Act)

  function Cur(s: State): Stretch
    requires s.stretches != []
  {
    s.stretches[|s.stretches| - 1]
  }

  /** fft_seq. */
  function SeqNo(s: State): u64
    requires s.stretches != []
  {
    (Cur(s).base + s.count) % U64
  }

  function LastSent(b: Box): u64 {
    if b.data != [] && b.data[|b.data| - 1].Fft? then b.data[|b.data| - 1].seqNo else 0
  }

  ghost predicate Possible(su: Setup, s: State, a: Action) {
    && |s.log.eras| >= 1 && s.stretches != [] && WellFormed(su.cfg)
    && match a
       case Capture(_) => true
       case WorkerRead => s.worker.Idle?
       case Publish => s.worker.Feeding? && s.count < SpectrumCount(su.cfg, Cur(s).hist)
       case Fed => s.worker.Feeding? && s.count == SpectrumCount(su.cfg, Cur(s).hist)
       case WorkerFail => true
       case Resync => s.worker.Resyncing?
       case Connect => s.gen == 0
       case Look => s.box.pc.Looking?
       case Outside(act) => Enabled(s.box, act)
  }

  ghost function Grown(s: State, st: Stretch): State
    requires s.stretches != []
  {
    s.(stretches := s.stretches[|s.stretches| - 1 := st])
  }

  ghost function WithData(s: State, bytes: seq<byte>): State
    requires s.stretches != []
  {
    Grown(s, Cur(s).(hist := Cur(s).hist + bytes)).(
      worker := Feeding, cursor := s.cursor.(nextSeq := s.cursor.nextSeq + 1))
  }

  /** A gap ends the stretch: the generation goes up and the snapshot is withdrawn. */
  ghost function AfterWorkerRead(su: Setup, s: State): State
    requires |s.log.eras| >= 1 && s.stretches != []
  {
    match RingLog.Read(s.log, su.slots, s.cursor, su.slotSize)
    case Gap =>
      var now := CursorNow(s.log);
      s.(stretches := s.stretches + [Stretch(|s.log.eras|, now.nextSeq, [], Cur(s).base + s.count)],
         worker := Resyncing, count := 0, snapshot := [])
    case Empty => s
    case Data(bytes) =>
      if |bytes| % 2 == 1 then s.(worker := Stopped)
      else WithData(s, bytes)
    case Error => s.(worker := Stopped)
  }

  /** The critical section of fft_client_handler. */
  ghost function AfterLook(su: Setup, s: State): State
    requires s.stretches != []
  {
    if s.gen % U64 != |s.stretches| % U64 then s.(box := s.box.(pc := GONE))
    else if s.count > 0 && SeqNo(s) != LastSent(s.box) then
      s.(box := Offer(s.box, Some(Fft(su.freq, su.rate, SeqNo(s), s.snapshot))), picks := s.picks + [s.count - 1])
    else s.(box := Offer(s.box, None))
  }

  ghost function After(su: Setup, s: State, a: Action): State
    requires Possible(su, s, a)
  {
    match a
    case Capture(op) => s.(log := Apply(s.log, op))
    case WorkerRead => AfterWorkerRead(su, s)
    case Publish =>
      CountedHas(su.cfg, Cur(s).hist, s.count);
      s.(snapshot := Spectrum(su.cfg, ONCE, Cur(s).hist, s.count), count := s.count + 1)
    case Fed => s.(worker := Idle)
    case WorkerFail => s.(worker := Stopped)
    case Resync =>
      var now := CursorNow(s.log);
      Grown(s, Cur(s).(era := |s.log.eras|, start := now.nextSeq)).(cursor := now, worker := Idle)
    case Connect => s.(gen := |s.stretches|, box := Offer(s.box, None))
    case Look => AfterLook(su, s)
    case Outside(act) => s.(box := Next(s.box, act))
  }

  ghost predicate Init(s: State) {
    && s.log.Valid() && s.worker.Idle? && s.cursor == CursorNow(s.log) && s.count == 0 && s.gen == 0 && s.picks == []
    && s.stretches == [Stretch(|s.log.eras|, s.cursor.nextSeq, [], 0)]
    && s.box.fftMode && s.box.pc == GONE && Fresh(s.box.(pc := Checking(None)))
  }

  // ---- The invariant ----

  /** Every stretch is a gap-free piece of the capture. */
  ghost predicate Contiguous(log: Log, stretches: seq<Stretch>) {
    forall g :: 0 <= g < |stretches| ==> Captured(log, stretches[g].era, stretches[g].start, stretches[g].hist)
  }

  /** The worker has published the first count spectra of the stretch, the last of them in the
      snapshot. */
  ghost predicate Shown(cfg: Config<u32>, hist: seq<byte>, count: nat, snapshot: seq<u32>) {
    && WellFormed(cfg)
    && (count > 0 ==> HasSpectrum(cfg, hist, count - 1) && snapshot == Spectrum(cfg, ONCE, hist, count - 1))
  }

  ghost predicate Reader(s: State) {
    s.stretches != [] &&
    var st := Cur(s);
    match s.worker
    case Resyncing => st.hist == [] && s.count == 0
    case Stopped => true
    case _ => Consumed(s.log, st.era, st.start, s.cursor, st.hist)
  }

  /** Frame f is spectrum k of a stretch, with its running number. */
  ghost predicate Shows(su: Setup, f: Frame, hist: seq<byte>, base: nat, k: nat) {
    && WellFormed(su.cfg) && HasSpectrum(su.cfg, hist, k)
    && f == Fft(su.freq, su.rate, (base + k + 1) % U64, Spectrum(su.cfg, ONCE, hist, k))
  }

  /** The client's frames are spectra of one stretch, later and later ones. */
  ghost predicate Picked(su: Setup, line: seq<Frame>, hist: seq<byte>, base: nat, picks: seq<nat>) {
    && |line| <= |picks|
    && (forall i :: 0 <= i < |line| ==> Shows(su, line[i], hist, base, picks[i]))
    && (forall i, j :: 0 <= i < j < |picks| ==> picks[i] < picks[j])
  }

  ghost predicate Client(su: Setup, s: State) {
    && s.gen <= |s.stretches|
    && (s.gen == 0 ==> s.box.pc == GONE && s.box.data == [] && s.box.tail == [] && s.box.seen == 0 && s.picks == [])
    && (s.gen > 0 ==> Picked(su, Line(s.box), s.stretches[s.gen - 1].hist, s.stretches[s.gen - 1].base, s.picks))
    && (!Over(s.box.pc) ==> |Line(s.box)| == |s.picks|)
    && (s.gen == |s.stretches| ==> forall i :: 0 <= i < |s.picks| ==> s.picks[i] < s.count)
  }

  ghost predicate SessionInv(su: Setup, s: State) {
    && Served(su) && s.log.Valid() && Reader(s) && Contiguous(s.log, s.stretches)
    && Shown(su.cfg, Cur(s).hist, s.count, s.snapshot)
    && Client(su, s)
    && Inv(s.box) && s.box.fftMode
  }

  // ---- Steps ----

  lemma CaptureKeeps(su: Setup, s: State, op: Op)
    requires SessionInv(su, s)
    ensures SessionInv(su, s.(log := Apply(s.log, op)))
  {
    hide Consumed, Captured, Inv, Shown, Picked, Line, Apply;
    ApplyAllExtends(s.log, [op]);
    assert ApplyAll(s.log, [op]) == Apply(s.log, op);
    forall g | 0 <= g < |s.stretches|
      ensures var st := s.stretches[g]; Captured(Apply(s.log, op), st.era, st.start, st.hist)
    {
      CapturedGrows(s.log, op, s.stretches[g].era, s.stretches[g].start, s.stretches[g].hist);
    }
    if s.worker.Idle? || s.worker.Feeding? {
      ConsumedGrows(s.log, op, Cur(s).era, Cur(s).start, s.cursor, Cur(s).hist);
    }
  }

  lemma ShownGrows(cfg: Config<u32>, hist: seq<byte>, more: seq<byte>, count: nat, snapshot: seq<u32>)
    requires Shown(cfg, hist, count, snapshot)
    ensures Shown(cfg, hist + more, count, snapshot)
  {
    if count > 0 {
      SpectrumPrefix(cfg, ONCE, ONCE, hist, more, count - 1);
    }
  }

  lemma PickedGrows(su: Setup, line: seq<Frame>, hist: seq<byte>, more: seq<byte>, base: nat, picks: seq<nat>)
    requires Picked(su, line, hist, base, picks)
    ensures Picked(su, line, hist + more, base, picks)
  {
    hide Spectrum, HasSpectrum;
    forall i | 0 <= i < |line| ensures Shows(su, line[i], hist + more, base, picks[i]) {
      SpectrumPrefix(su.cfg, ONCE, ONCE, hist, more, picks[i]);
    }
  }

  /** More capture in the current stretch. */
  lemma DataKeeps(su: Setup, s: State, bytes: seq<byte>)
    requires SessionInv(su, s) && s.worker.Idle? && |s.log.eras| < U64
    requires RingLog.Read(s.log, su.slots, s.cursor, su.slotSize) == Data(bytes)
    ensures SessionInv(su, WithData(s, bytes))
  {
    hide Consumed, Captured, Inv, Shown, Picked;
    var st := Cur(s);
    ConsumedEra(s.log, st.era, st.start, s.cursor, st.hist);
    ConsumedReads(s.log, su.slots, su.slotSize, st.era, st.start, s.cursor, st.hist);
    ConsumedCaptured(s.log, st.era, st.start, s.cursor.(nextSeq := s.cursor.nextSeq + 1), st.hist + bytes);
    ShownGrows(su.cfg, st.hist, bytes, s.count, s.snapshot);
    if s.gen == |s.stretches| {
      PickedGrows(su, Line(s.box), st.hist, bytes, st.base, s.picks);
    }
  }

  lemma ConsumedEra(log: Log, era: nat, start: nat, cursor: Cursor, hist: seq<byte>)
    requires Consumed(log, era, start, cursor, hist)
    ensures 1 <= era <= |log.eras|
  {}

  lemma NowConsumed(log: Log)
    requires log.Valid()
    ensures Consumed(log, |log.eras|, CursorNow(log).nextSeq, CursorNow(log), [])
    ensures Captured(log, |log.eras|, CursorNow(log).nextSeq, [])
  {
    ConsumedCaptured(log, |log.eras|, CursorNow(log).nextSeq, CursorNow(log), []);
  }

  lemma GapKeeps(su: Setup, s: State)
    requires SessionInv(su, s) && |s.log.eras| >= 1 && RingLog.Read(s.log, su.slots, s.cursor, su.slotSize).Gap?
    ensures SessionInv(su, AfterWorkerRead(su, s))
  {
    hide Consumed, Captured, Inv, Picked, CursorNow;
    NowConsumed(s.log);
  }

  lemma WorkerReadKeeps(su: Setup, s: State)
    requires SessionInv(su, s) && s.worker.Idle? && |s.log.eras| < U64
    ensures SessionInv(su, AfterWorkerRead(su, s))
  {
    hide Consumed, Captured, Inv, Shown, Picked, RingLog.Read;
    var r := RingLog.Read(s.log, su.slots, s.cursor, su.slotSize);
    match r
    case Gap => GapKeeps(su, s);
    case Data(bytes) => DataKeeps(su, s, bytes);
    case _ =>
  }

  lemma PublishKeeps(su: Setup, s: State)
    requires SessionInv(su, s) && Possible(su, s, Publish)
    ensures SessionInv(su, After(su, s, Publish))
  {
    hide Consumed, Captured, Inv, Spectrum, Picked, SpectrumCount, HasSpectrum;
    CountedHas(su.cfg, Cur(s).hist, s.count);
  }

  lemma ResyncKeeps(su: Setup, s: State)
    requires SessionInv(su, s) && Possible(su, s, Resync)
    ensures SessionInv(su, After(su, s, Resync))
  {
    hide Consumed, Captured, Inv, Picked, CursorNow;
    NowConsumed(s.log);
  }

  /** Copying the snapshot: only a spectrum later than the last one sent is taken. */
  lemma PickedMore(su: Setup, line: seq<Frame>, hist: seq<byte>, base: nat, picks: seq<nat>, count: nat)
    requires WellFormed(su.cfg) && Picked(su, line, hist, base, picks) && |line| == |picks|
    requires count > 0 && HasSpectrum(su.cfg, hist, count - 1) && forall i :: 0 <= i < |picks| ==> picks[i] < count
    requires line != [] ==> line[|line| - 1].Fft? && line[|line| - 1].seqNo != (base + count) % U64
    ensures Picked(su, line + [Fft(su.freq, su.rate, (base + count) % U64, Spectrum(su.cfg, ONCE, hist, count - 1))],
              hist, base, picks + [count - 1])
  {
    hide Spectrum, HasSpectrum;
    if line != [] {
      assert Shows(su, line[|line| - 1], hist, base, picks[|picks| - 1]);
      assert picks[|picks| - 1] < count - 1;
    }
  }

  lemma LookKeeps(su: Setup, s: State)
    requires SessionInv(su, s) && s.box.pc.Looking? && |s.stretches| < U64
    ensures SessionInv(su, AfterLook(su, s))
  {
    hide Consumed, Captured, Inv, Picked, Spectrum, HasSpectrum, Contiguous;
    LookingLine(s.box);
    OfferKeeps(s.box, None);
    StepKeeps(s.box, Abandon);
    if s.gen == |s.stretches| && s.count > 0 && SeqNo(s) != LastSent(s.box) {
      var st := Cur(s);
      LastOwn(su, s.box, st.hist, st.base, s.picks);
      PickedMore(su, s.box.data, st.hist, st.base, s.picks, s.count);
      OfferKeeps(s.box, Some(Fft(su.freq, su.rate, SeqNo(s), s.snapshot)));
    }
  }

  lemma LookingLine(b: Box)
    requires b.pc.Looking?
    ensures Line(b) == b.data
  {}

  lemma LastOwn(su: Setup, b: Box, hist: seq<byte>, base: nat, picks: seq<nat>)
    requires Picked(su, b.data, hist, base, picks)
    ensures b.data != [] ==> b.data[|b.data| - 1].Fft?
  {}

  lemma PickedLess(su: Setup, line: seq<Frame>, less: seq<Frame>, hist: seq<byte>, base: nat, picks: seq<nat>)
    requires Picked(su, line, hist, base, picks) && less <= line
    ensures Picked(su, less, hist, base, picks)
  {
    hide Spectrum, HasSpectrum;
  }

  lemma OutsideKeeps(su: Setup, s: State, act: Act)
    requires SessionInv(su, s) && Enabled(s.box, act)
    ensures SessionInv(su, s.(box := Next(s.box, act)))
  {
    hide Consumed, Captured, Inv, Picked, Shown, Contiguous, Line, Encode;
    StepKeeps(s.box, act);
    if s.gen > 0 {
      var st := s.stretches[s.gen - 1];
      PickedLess(su, Line(s.box), Line(Next(s.box, act)), st.hist, st.base, s.picks);
    }
  }

  lemma ConnectKeeps(su: Setup, s: State)
    requires SessionInv(su, s) && s.gen == 0
    ensures SessionInv(su, s.(gen := |s.stretches|, box := Offer(s.box, None)))
  {
    hide Consumed, Captured, Shown, Contiguous, Spectrum, HasSpectrum;
    assert s.box.data + s.box.tail == [];
  }

  lemma SessionKeeps(su: Setup, s: State, a: Action)
    requires SessionInv(su, s) && Possible(su, s, a) && |s.log.eras| < U64 && |s.stretches| < U64
    ensures SessionInv(su, After(su, s, a))
  {
    hide Consumed, Captured, Inv, Picked, Shown, Contiguous, Line, Enabled, Next, AfterWorkerRead, AfterLook, Offer;
    match a
    case Capture(op) => CaptureKeeps(su, s, op);
    case WorkerRead => WorkerReadKeeps(su, s);
    case Publish => PublishKeeps(su, s);
    case Resync => ResyncKeeps(su, s);
    case Connect => ConnectKeeps(su, s);
    case Look => LookKeeps(su, s);
    case Outside(act) => OutsideKeeps(su, s, act);
    case _ =>
  }

  // ---- Runs ----

  ghost predicate Run(su: Setup, s: State, acts: seq<Action>, t: State)
    decreases |acts|
  {
    if acts == [] then s == t else Possible(su, s, acts[0]) && Run(su, After(su, s, acts[0]), acts[1..], t)
  }

  lemma Grows(su: Setup, s: State, a: Action)
    requires Possible(su, s, a)
    ensures |After(su, s, a).log.eras| >= |s.log.eras| && |After(su, s, a).stretches| >= |s.stretches|
  {
    hide Enabled, Next, Spectrum, HasSpectrum, SpectrumCount;
  }

  lemma {:induction false} RunGrows(su: Setup, s: State, acts: seq<Action>, t: State)
    requires Run(su, s, acts, t)
    ensures |t.log.eras| >= |s.log.eras| && |t.stretches| >= |s.stretches|
    decreases |acts|
  {
    hide Possible, After;
    if acts != [] {
      Grows(su, s, acts[0]);
      RunGrows(su, After(su, s, acts[0]), acts[1..], t);
    }
  }

  lemma {:induction false} RunKeeps(su: Setup, s: State, acts: seq<Action>, t: State)
    requires SessionInv(su, s) && Run(su, s, acts, t) && |t.log.eras| < U64 && |t.stretches| < U64
    ensures SessionInv(su, t)
    decreases |acts|
  {
    hide Possible, After, SessionInv;
    if acts != [] {
      RunGrows(su, s, acts, t);
      SessionKeeps(su, s, acts[0]);
      RunKeeps(su, After(su, s, acts[0]), acts[1..], t);
    }
  }

  lemma InitKeeps(su: Setup, s: State)
    requires Served(su) && Init(s)
    ensures SessionInv(su, s)
  {
    hide Captured, Consumed;
    NowConsumed(s.log);
    assert s.box.data + s.box.tail == [];
  }

  /** What an FFT client is sent, on every interleaving: spectra of the one stretch of capture it
      connected in, each the mean over hops that lie wholly inside that stretch, which has no
      gap; later and later ones, numbered by their position, so that a step in the numbers is
      exactly the number of spectra skipped; then at most the two events, as for IQ. */
  lemma OneStretch(su: Setup, s: State, acts: seq<Action>, t: State)
    requires Served(su) && Init(s) && Run(su, s, acts, t) && |t.log.eras| < U64 && |t.stretches| < U64
    ensures t.gen <= |t.stretches| && (t.gen == 0 ==> t.box.data == [])
    ensures t.gen > 0 ==> Picked(su, t.box.data, t.stretches[t.gen - 1].hist, t.stretches[t.gen - 1].base, t.picks)
    ensures forall st :: st in t.stretches ==> Captured(t.log, st.era, st.start, st.hist)
    ensures Script(t.box.tail, t.box.pc, t.box.tunes, t.box.seen)
    ensures t.box.tunes != [] ==> |t.box.data| <= t.box.begun
  {
    hide Possible, After, Run, Captured, Consumed, Picked, Shown, OnWire;
    InitKeeps(su, s);
    RunKeeps(su, s, acts, t);
    if t.gen > 0 {
      var st := t.stretches[t.gen - 1];
      PickedLess(su, Line(t.box), t.box.data, st.hist, st.base, t.picks);
    }
  }

  /** Short of 2^64 spectra the numbers on a connection strictly increase. */
  lemma NumbersIncrease(su: Setup, data: seq<Frame>, hist: seq<byte>, base: nat, picks: seq<nat>, i: nat, j: nat)
    requires Picked(su, data, hist, base, picks) && i < j < |data| && base + picks[j] + 1 < U64
    ensures data[i].Fft? && data[j].Fft? && data[i].seqNo < data[j].seqNo
    ensures data[j].seqNo - data[i].seqNo == picks[j] - picks[i]
  {
    hide Spectrum, HasSpectrum;
    assert Shows(su, data[i], hist, base, picks[i]) && Shows(su, data[j], hist, base, picks[j]);
  }

  /** And its reader recovers those frames one by one, wherever the connection is cut. */
  lemma {:induction false} Received(su: Setup, s: State, acts: seq<Action>, t: State, maxes: seq<nat>)
    requires Served(su) && Init(s) && Run(su, s, acts, t) && |t.log.eras| < U64 && |t.stretches| < U64
    ensures FftFrames(Whole(t.box))
    ensures forall i :: 0 <= i < |maxes| ==>
              FftReads(Conn(true, t.box.wire), maxes)[i] ==
              if i < |Whole(t.box)| then FftView(Whole(t.box)[i], maxes[i]) else ReadError
  {
    hide Run, After, Possible, EncodeAll, Encode, FftReads, FftView, Consumed, Captured, Picked, Shown, Retuned;
    InitKeeps(su, s);
    RunKeeps(su, s, acts, t);
    OnlyLastEnds(t.box);
    var next, cut := WireIsWhole(t.box);
    FftConnection(Whole(t.box), next, cut, maxes);
  }
}
