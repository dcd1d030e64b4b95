/** When a client's worker and the FFT worker leave, and when they do not (client_current,
    iq_client_handler, fft_client_handler and fft_compute_thread in src/rtl_stream_server.c). */
module Endings {
  import opened Words
  import opened RingLog
  import opened Subscriber
  import opened Wire
  import opened Outbox
  import opened Pipeline
  import Channelizer
  import Spectra
  import Iq = IqSession
  import Fft = FftSession

  // ---- The sending half ----

  /** Neither a stop, nor the peer, nor the socket. */
  predicate Friendly(a: Act) { !a.Stop? && !a.Abandon? && !a.SendFail? }

  /** The worker is gone only after both events, and on its way out only after a retune. */
  ghost predicate Orderly(b: Box) {
    && !b.stopping
    && (b.pc.Gone? ==> b.pc.failed.None? && |b.tail| == 2)
    && (b.tunes == [] ==> !Over(b.pc))
  }

  lemma OrderlyStep(b: Box, a: Act)
    requires Inv(b) && Orderly(b) && Enabled(b, a) && Friendly(a)
    ensures Orderly(Next(b, a))
  {
    hide OnWire, Encode;
  }

  /** The farewell of an orderly worker. */
  lemma Farewell(b: Box)
    requires Inv(b) && Orderly(b) && b.pc.Gone?
    ensures 1 <= b.seen <= |b.tunes| && b.tail == [FreqChange(b.tunes[b.seen - 1]), StreamEnd]
  {
    hide OnWire, Kinds;
  }

  // ---- An IQ client ----

  /** The reader has not been overtaken: no gap was marked, and its next entry is still there. */
  predicate InReach<F>(su: Iq.Setup<F>, s: Iq.State) {
    |s.log.eras| >= 1 && |s.log.eras| == su.era && s.log.Current().Next() <= s.cursor.nextSeq + su.slots
  }

  /** A step that gives the worker no cause to leave, but for a retune. */
  predicate Harmless<F>(su: Iq.Setup<F>, s: Iq.State, a: Iq.Action) {
    match a
    case Capture(_) => true
    case ReadRing => InReach(su, s)
    case Outside(act) => Friendly(act)
  }

  predicate FitsOp(op: Op, size: nat) { op.WriteOp? ==> Fits(op.entry, size) }

  ghost predicate AllFit(ops: seq<Op>, size: nat) { forall op :: op in ops ==> FitsOp(op, size) }

  /** What is published into slots of even size can be read. */
  lemma PublishedFits(ops: seq<Op>, inputs: seq<seq<byte>>, size: nat)
    requires Publishes(ops, inputs, size) && size % 2 == 0
    ensures AllFit(ops, size)
  {
    hide Publishes, Written, Accepted, Stream;
    SoFar(ops, inputs, size);
    forall op | op in ops ensures FitsOp(op, size) {
      if op.WriteOp? { InWritten(ops, op.entry); }
    }
  }

  lemma {:induction false} InWritten(ops: seq<Op>, entry: seq<byte>)
    requires WriteOp(entry) in ops
    ensures entry in Written(ops)
  {
    if ops[0] != WriteOp(entry) {
      InWritten(ops[1..], entry);
    }
  }

  ghost predicate HarmlessRun<F>(su: Iq.Setup<F>, s: Iq.State, acts: seq<Iq.Action>, t: Iq.State)
    requires Channelizer.ValidConfig(su.cfg) && Iq.Run(su, s, acts, t)
    decreases |acts|
  {
    acts == [] || (Harmless(su, s, acts[0]) && HarmlessRun(su, Iq.After(su, s, acts[0]), acts[1..], t))
  }

  ghost predicate Settled<F>(su: Iq.Setup<F>, s: Iq.State) {
    Iq.SessionInv(su, s) && Orderly(s.box) && Readable(s.log, su.era, su.start, su.slotSize)
  }

  /** A read ends the session exactly when the reader has been overtaken. Otherwise the worker
      goes on: with the next entry, if there is one, taken into its history. */
  lemma ReadEndsExactly<F>(su: Iq.Setup<F>, s: Iq.State)
    requires Iq.SessionInv(su, s) && Readable(s.log, su.era, su.start, su.slotSize)
    requires s.box.pc.Looking? && |s.log.eras| - su.era < U64
    ensures |s.log.eras| >= 1
    ensures var t := Iq.AfterRead(su, s);
            && (Over(t.box.pc) <==> !InReach(su, s))
            && (InReach(su, s) ==>
                  var cur := s.log.Current();
                  && s.cursor.nextSeq <= cur.Next()
                  && (s.cursor.nextSeq == cur.Next() ==> t == s.(box := Offer(s.box, None)))
                  && (s.cursor.nextSeq < cur.Next() ==>
                        && cur.first <= s.cursor.nextSeq && t.cursor.nextSeq == s.cursor.nextSeq + 1
                        && t.hist == s.hist + cur.entries[s.cursor.nextSeq - cur.first]))
  {
    hide Inv, Iq.Produced, Channelizer.ValidConfig, Channelizer.Emitted, RingLog.Read, Readable;
    ReadsReadable(s.log, su.slots, su.slotSize, su.era, su.start, s.cursor, s.hist);
  }

  lemma SettledStep<F>(su: Iq.Setup<F>, s: Iq.State, a: Iq.Action)
    requires Settled(su, s) && Iq.Possible(s, a) && Harmless(su, s, a) && |s.log.eras| - su.era < U64
    requires a.Capture? ==> FitsOp(a.op, su.slotSize)
    ensures Settled(su, Iq.After(su, s, a))
  {
    hide Inv, Iq.Produced, Channelizer.ValidConfig, Consumed, Readable, Enabled, Next, Apply, Iq.AfterRead;
    Iq.SessionKeeps(su, s, a);
    match a
    case Capture(op) => ReadableGrows(s.log, op, su.era, su.start, su.slotSize);
    case Outside(act) => OrderlyStep(s.box, act);
    case ReadRing =>
      Iq.ReadKeeps(su, s);
      ReadEndsExactly(su, s);
      ReadKeepsEvents(su, s);
  }

  lemma ReadKeepsEvents<F>(su: Iq.Setup<F>, s: Iq.State)
    requires Channelizer.ValidConfig(su.cfg) && |s.log.eras| >= 1
    ensures var t := Iq.AfterRead(su, s); t.box.stopping == s.box.stopping && t.box.tail == s.box.tail
  {
    hide Channelizer.ValidConfig, Channelizer.Emitted, RingLog.Read;
  }

  lemma {:induction false} SettledRun<F>(su: Iq.Setup<F>, s: Iq.State, acts: seq<Iq.Action>, t: Iq.State)
    requires Settled(su, s) && Iq.Run(su, s, acts, t) && HarmlessRun(su, s, acts, t) && |t.log.eras| - su.era < U64
    requires AllFit(Captures(acts), su.slotSize)
    ensures Settled(su, t)
    decreases |acts|
  {
    hide Inv, Orderly, Readable, Consumed, Iq.Produced, Iq.After, Iq.Possible, Harmless, Channelizer.ValidConfig;
    if acts != [] {
      Iq.RunGrows(su, s, acts, t);
      SettledStep(su, s, acts[0]);
      SettledRun(su, Iq.After(su, s, acts[0]), acts[1..], t);
    }
  }

  lemma {:induction false} ReadableAll(log: Log, ops: seq<Op>, era: nat, start: nat, size: nat)
    requires log.Valid() && Readable(log, era, start, size) && AllFit(ops, size)
    ensures Readable(ApplyAll(log, ops), era, start, size)
    decreases |ops|
  {
    hide Readable, Fits;
    if ops != [] {
      assert FitsOp(ops[0], size);
      ReadableGrows(log, ops[0], era, start, size);
      ApplyValid(log, ops[0]);
      ReadableAll(Apply(log, ops[0]), ops[1..], era, start, size);
    }
  }

  lemma ApplyValid(log: Log, op: Op)
    requires log.Valid()
    ensures Apply(log, op).Valid()
  {}

  /** On published slots, whatever else happened: a worker that looks for data leaves exactly when
      it has been overtaken. Otherwise it finds the ring empty and goes on, or takes the next
      entry into its history. */
  lemma LeavesExactly<F>(su: Iq.Setup<F>, inputs: seq<seq<byte>>, s: Iq.State, acts: seq<Iq.Action>, t: Iq.State)
    requires Iq.Served(su) && Iq.Init(su, s) && Iq.Run(su, s, acts, t) && |t.log.eras| - su.era < U64
    requires Publishes(Captures(acts), inputs, su.slotSize) && su.slotSize % 2 == 0 && t.box.pc.Looking?
    ensures Iq.Possible(t, Iq.ReadRing)
    ensures var u := Iq.After(su, t, Iq.ReadRing);
            && (Over(u.box.pc) <==> !InReach(su, t))
            && (InReach(su, t) ==>
                  var cur := t.log.Current();
                  && t.cursor.nextSeq <= cur.Next()
                  && (t.cursor.nextSeq == cur.Next() ==> u == t.(box := Offer(t.box, None)))
                  && (t.cursor.nextSeq < cur.Next() ==>
                        cur.first <= t.cursor.nextSeq && u.hist == t.hist + cur.entries[t.cursor.nextSeq - cur.first]))
  {
    hide Iq.Run, Channelizer.ValidConfig, Iq.Produced, Inv, Consumed, Publishes, Readable, AllFit, ApplyAll,
        Iq.AfterRead;
    Iq.InitKeeps(su, s);
    Iq.RunKeeps(su, s, acts, t);
    LogOf(su, s, acts, t);
    PublishedFits(Captures(acts), inputs, su.slotSize);
    ReadableNow(s.log, su.slotSize);
    ReadableAll(s.log, Captures(acts), su.era, su.start, su.slotSize);
    ReadEndsExactly(su, t);
  }

  /** A subscriber that is not overtaken, and whose peer and socket hold, is served until the
      capture is retuned or the server stops, however often it finds the ring empty; and when it
      is left after a retune it has been told both events. */
  lemma StaysSubscribed<F>(su: Iq.Setup<F>, inputs: seq<seq<byte>>, s: Iq.State, acts: seq<Iq.Action>, t: Iq.State)
    requires Iq.Served(su) && Iq.Init(su, s) && !s.box.stopping && Iq.Run(su, s, acts, t) && |t.log.eras| - su.era < U64
    requires Publishes(Captures(acts), inputs, su.slotSize) && su.slotSize % 2 == 0 && HarmlessRun(su, s, acts, t)
    ensures t.box.tunes == [] ==> !Over(t.box.pc)
    ensures t.box.pc.Gone? ==>
              1 <= t.box.seen <= |t.box.tunes| && t.box.tail == [FreqChange(t.box.tunes[t.box.seen - 1]), StreamEnd]
  {
    hide Iq.Run, HarmlessRun, Channelizer.ValidConfig, Iq.Produced, Inv, Consumed, Publishes, Readable, AllFit;
    Iq.InitKeeps(su, s);
    ReadableNow(s.log, su.slotSize);
    PublishedFits(Captures(acts), inputs, su.slotSize);
    SettledRun(su, s, acts, t);
    if t.box.pc.Gone? { Farewell(t.box); }
  }

  // ---- An FFT client ----

  predicate HarmlessFft(s: Fft.State, a: Fft.Action) {
    match a
    case Look => s.gen == |s.stretches|
    case Outside(act) => Friendly(act)
    case _ => true
  }

  ghost predicate HarmlessFftRun(su: Fft.Setup, s: Fft.State, acts: seq<Fft.Action>, t: Fft.State)
    requires Fft.Run(su, s, acts, t)
    decreases |acts|
  {
    acts == [] || (HarmlessFft(s, acts[0]) && HarmlessFftRun(su, Fft.After(su, s, acts[0]), acts[1..], t))
  }

  ghost predicate FftOrderly(s: Fft.State) { !s.box.stopping && (s.gen > 0 ==> Orderly(s.box)) }

  lemma FftOrderlyStep(su: Fft.Setup, s: Fft.State, a: Fft.Action)
    requires Fft.SessionInv(su, s) && Fft.Possible(su, s, a) && HarmlessFft(s, a) && FftOrderly(s)
    ensures FftOrderly(Fft.After(su, s, a))
  {
    hide Inv, Enabled, Next, Apply, RingLog.Read, Spectra.Spectrum, Spectra.SpectrumCount, Fft.Reader, Fft.Contiguous,
        Fft.Shown, Fft.Picked;
    if a.Outside? {
      if s.gen > 0 { OrderlyStep(s.box, a.act); } else { StoppingKept(s.box, a.act); }
    }
  }

  lemma StoppingKept(b: Box, a: Act)
    requires Enabled(b, a) && Friendly(a)
    ensures Next(b, a).stopping == b.stopping
  {
    hide Encode;
  }

  lemma {:induction false} FftOrderlyRun(su: Fft.Setup, s: Fft.State, acts: seq<Fft.Action>, t: Fft.State)
    requires Fft.SessionInv(su, s) && Fft.Run(su, s, acts, t) && |t.log.eras| < U64 && |t.stretches| < U64
    requires HarmlessFftRun(su, s, acts, t) && FftOrderly(s)
    ensures FftOrderly(t)
    decreases |acts|
  {
    hide Fft.SessionInv, Fft.Possible, Fft.After, FftOrderly, HarmlessFft;
    if acts != [] {
      Fft.RunGrows(su, s, acts, t);
      Fft.SessionKeeps(su, s, acts[0]);
      FftOrderlyStep(su, s, acts[0]);
      FftOrderlyRun(su, Fft.After(su, s, acts[0]), acts[1..], t);
    }
  }

  /** The same for an FFT client, as long as it meets no gap. */
  lemma StaysConnected(su: Fft.Setup, s: Fft.State, acts: seq<Fft.Action>, t: Fft.State)
    requires Fft.Served(su) && Fft.Init(s) && !s.box.stopping && Fft.Run(su, s, acts, t)
    requires |t.log.eras| < U64 && |t.stretches| < U64 && HarmlessFftRun(su, s, acts, t)
    ensures t.gen > 0 && t.box.tunes == [] ==> !Over(t.box.pc)
    ensures t.gen > 0 && t.box.pc.Gone? ==>
              1 <= t.box.seen <= |t.box.tunes| && t.box.tail == [FreqChange(t.box.tunes[t.box.seen - 1]), StreamEnd]
  {
    hide Fft.Run, HarmlessFftRun, Inv, Fft.Reader, Fft.Contiguous, Fft.Shown, Fft.Client;
    Fft.InitKeeps(su, s);
    Fft.RunKeeps(su, s, acts, t);
    FftOrderlyRun(su, s, acts, t);
    if t.gen > 0 && t.box.pc.Gone? { Farewell(t.box); }
  }

  /** A look takes the latest spectrum unless it is the one taken last; either way the client
      stays, and it leaves exactly after a gap. */
  lemma LookTakesLatest(su: Fft.Setup, s: Fft.State)
    requires Fft.SessionInv(su, s) && s.box.pc.Looking? && s.gen > 0 && |s.stretches| < U64
    requires Fft.Cur(s).base + s.count < U64
    ensures var t, n := Fft.AfterLook(su, s), |s.picks|;
            && (Over(t.box.pc) <==> s.gen < |s.stretches|)
            && (s.gen == |s.stretches| && s.count > 0 && (n == 0 || s.picks[n - 1] < s.count - 1) ==>
                  && t.picks == s.picks + [s.count - 1] && t.box.pc.Checking? && t.box.pc.frame.Some?
                  && Fft.Shows(su, t.box.pc.frame.value, Fft.Cur(s).hist, Fft.Cur(s).base, s.count - 1))
            && (s.gen == |s.stretches| && (s.count == 0 || (n > 0 && s.picks[n - 1] == s.count - 1)) ==>
                  t == s.(box := Offer(s.box, None)))
  {
    hide Inv, Spectra.Spectrum, Spectra.HasSpectrum, Fft.Contiguous, Fft.Reader;
    Fft.LookingLine(s.box);
    var n := |s.picks|;
    if n > 0 {
      assert Fft.Shows(su, s.box.data[n - 1], s.stretches[s.gen - 1].hist, s.stretches[s.gen - 1].base, s.picks[n - 1]);
    }
  }

  // ---- The FFT worker ----

  ghost predicate Working(su: Fft.Setup, s: Fft.State) {
    && s.stretches != [] && !s.worker.Stopped?
    && (!s.worker.Resyncing? ==> Readable(s.log, Fft.Cur(s).era, Fft.Cur(s).start, su.slotSize))
  }

  /** One turn of the worker: nothing new changes nothing, the next entry extends the stretch,
      and having been overtaken begins a new one, in which the numbering goes on. */
  lemma WorkerReadExactly(su: Fft.Setup, s: Fft.State)
    requires Fft.SessionInv(su, s) && s.worker.Idle? && |s.log.eras| < U64 && Working(su, s)
    ensures |s.log.eras| >= 1
    ensures var t, cur, st := Fft.AfterWorkerRead(su, s), s.log.Current(), Fft.Cur(s);
            if st.era < |s.log.eras| || s.cursor.nextSeq + su.slots < cur.Next() then
              && t.worker.Resyncing? && |t.stretches| == |s.stretches| + 1 && s.stretches <= t.stretches
              && t.count == 0 && Fft.Cur(t).hist == [] && Fft.SeqNo(t) == Fft.SeqNo(s)
            else if s.cursor.nextSeq == cur.Next() then t == s
            else
              && cur.first <= s.cursor.nextSeq < cur.Next() && t.worker.Feeding?
              && t.stretches[..|s.stretches| - 1] == s.stretches[..|s.stretches| - 1]
              && |t.stretches| == |s.stretches|
              && Fft.Cur(t).hist == st.hist + cur.entries[s.cursor.nextSeq - cur.first]
  {
    hide Inv, Fft.Client, Fft.Shown, Fft.Contiguous, RingLog.Read, Readable;
    var st := Fft.Cur(s);
    ReadsReadable(s.log, su.slots, su.slotSize, st.era, st.start, s.cursor, st.hist);
  }

  lemma WorkingStep(su: Fft.Setup, s: Fft.State, a: Fft.Action)
    requires Fft.SessionInv(su, s) && Fft.Possible(su, s, a) && |s.log.eras| < U64
    requires Working(su, s) && !a.WorkerFail? && (a.Capture? ==> FitsOp(a.op, su.slotSize))
    ensures Working(su, Fft.After(su, s, a))
  {
    hide Inv, Enabled, Next, Apply, RingLog.Read, Spectra.Spectrum, Spectra.SpectrumCount, Fft.Contiguous, Fft.Shown,
        Fft.Client, Readable, Consumed;
    var st := Fft.Cur(s);
    match a
    case WorkerRead => ReadsReadable(s.log, su.slots, su.slotSize, st.era, st.start, s.cursor, st.hist);
    case Resync => ReadableNow(s.log, su.slotSize);
    case Capture(op) => if !s.worker.Resyncing? { ReadableGrows(s.log, op, st.era, st.start, su.slotSize); }
    case _ =>
  }

  lemma {:induction false} WorkingRun(su: Fft.Setup, s: Fft.State, acts: seq<Fft.Action>, t: Fft.State)
    requires Fft.SessionInv(su, s) && Fft.Run(su, s, acts, t) && |t.log.eras| < U64 && |t.stretches| < U64
    requires Working(su, s) && Fft.WorkerFail !in acts && AllFit(FftCaptures(acts), su.slotSize)
    ensures Working(su, t)
    decreases |acts|
  {
    hide Fft.SessionInv, Fft.Possible, Fft.After, Working, FitsOp;
    if acts != [] {
      Fft.RunGrows(su, s, acts, t);
      Fft.SessionKeeps(su, s, acts[0]);
      WorkingStep(su, s, acts[0]);
      WorkingRun(su, Fft.After(su, s, acts[0]), acts[1..], t);
    }
  }

  /** The worker goes on for ever unless it is told to stop or its transform fails: on published
      slots no read stops it. */
  lemma WorkerStays(su: Fft.Setup, inputs: seq<seq<byte>>, s: Fft.State, acts: seq<Fft.Action>, t: Fft.State)
    requires Fft.Served(su) && Fft.Init(s) && Fft.Run(su, s, acts, t) && |t.log.eras| < U64 && |t.stretches| < U64
    requires Publishes(FftCaptures(acts), inputs, su.slotSize) && su.slotSize % 2 == 0 && Fft.WorkerFail !in acts
    ensures Working(su, t) && !t.worker.Stopped?
  {
    hide Fft.Run, Fft.SessionInv, Publishes, Readable, AllFit;
    Fft.InitKeeps(su, s);
    ReadableNow(s.log, su.slotSize);
    PublishedFits(FftCaptures(acts), inputs, su.slotSize);
    WorkingRun(su, s, acts, t);
  }
}
