/** rtlsdr_server_request_stop, rtlsdr_server_run and rtlsdr_server_shutdown
    (src/rtl_stream_server.c): once the flag is set, the server comes to an end. */
module StopEnds {
  import opened Words
  import opened Lifecycle

  /** A step of a thread that is already inside the server, neither a signal nor a failure. */
  predicate Internal(a: Action) {
    !NewCall(a) && a != Shut(Enter) && a != Loop(PollInterrupted) && a != Loop(PollFailed)
  }

  predicate NewCall(a: Action) { a == Call(StopStore) || a == Call(Retune) }

  /** The worker in a busy slot can always go on. */
  function WorkerTurn(w: WorkerPc): WorkerAct {
    match w
    case Finishing => Report
    case Waking => Wake
    case _ => Fail
  }

  /** The run loop has ended, and so has shutdown if it was called at all. */
  predicate AtRest(s: State) { !s.runActive && (s.shut.Up? || s.shut.Freed?) }

  /** Until a stopped server is at rest, some thread inside it has a step to take, and it is
      never a new call, a signal or a failure that has to come to its help. */
  lemma StopNeverStuck(t: State) returns (a: Action)
    requires Inv(t) && t.stopping && !AtRest(t)
    ensures Enabled(t, a) && Internal(a)
  {
    hide Inv, Enabled, Internal;
    if t.runActive { a := LoopNotStuck(t); } else { a := ShutdownNotStuck(t); }
  }

  /** With the run loop gone, shutdown waits for nobody. */
  lemma ShutdownNotStuck(t: State) returns (a: Action)
    requires Inv(t) && t.stopping && !t.runActive && !t.shut.Up? && !t.shut.Freed?
    ensures Enabled(t, a) && Internal(a)
  {
    hide Busy, Owned, Gaps, Progress, Wakes, SlotOk;
    match t.shut
    case ShutStop(_) => a := Shut(ShutStopStep);
    case WaitRun => a := Shut(RunGone);
    case ShutScan(i) => a := Shut(if i < MAX_CLIENTS then ShutScanStep else FreeAll);
  }

  lemma LoopNotStuck(t: State) returns (a: Action)
    requires Inv(t) && t.runActive && t.stopping
    ensures Enabled(t, a) && Internal(a)
  {
    hide Busy, Owned, Gaps, Progress;
    match t.run
    case Spawn => a := Loop(SpawnFft(false, false));
    case Check => a := Loop(CheckStop);
    case Poll =>
      a := if t.pipe > 0 then Loop(PollReady(true))
           else if t.stopSweeps > 0 then Call(StopSweep)
           else if t.stopWakes > 0 then Call(StopWake)
           else if t.fft.FftStop? then Fft(FftStopStep)
           else Shut(ShutStopStep);
    case Drain => a := Loop(if t.pipe == 0 then DrainEmpty else DrainRead(1));
    case Scan(_, _) => a := Reap(ScanStep);
    case Join(_, i) =>
      a := if t.slots[i].worker.Exited? then Reap(JoinStep) else Worker(i, WorkerTurn(t.slots[i].worker));
    case Close(_, _) => a := Reap(CloseStep);
    case Listen(_) => a := Loop(ListenNext);
    case Held(_, _) => a := Door(Refuse);
    case Admitting(_, _) => a := Door(Admit(false));
    case RunStop(_) => a := End(StopStep);
    case JoinFft =>
      a := match t.fft
           case Looping => Fft(FftFlag)
           case CheckingEpoch => Fft(FftEpoch)
           case Working => Fft(FftTurn)
           case GapSweep => Fft(SweepOld)
           case FftStop(_) => Fft(FftStopStep)
           case _ => End(JoinFftStep);
    case _ => a := End(FinishStep);
  }

  function StopRank(p: StopPc): nat {
    match p case Flagging => 3 case Sweeping => 2 case Signalling => 1
  }

  /** Three steps for each slot from i on. */
  function ScanRank(i: nat): nat { if i < MAX_CLIENTS then 3 * (MAX_CLIENTS - i) else 0 }

  /** How far the run loop is from its end once the flag is set. */
  function RunRank(run: RunPc): nat {
    match run
    case Idle => 0
    case Ended => 0
    case Finish => 1
    case JoinFft => 2
    case Scan(all, i) => (if all then 3 else 107) + ScanRank(i)
    case Join(all, i) => (if all then 2 else 106) + ScanRank(i)
    case Close(all, i) => (if all then 1 else 105) + ScanRank(i)
    case RunStop(p) => 99 + StopRank(p)
    case Check => 103
    case Listen(_) => 104
    case Admitting(_, _) => 105
    case Held(_, _) => 106
    case Drain => 204
    case Poll => 205
    case Spawn => 206
  }

  function WorkerRank(w: WorkerPc): nat {
    match w
    case Begin => 4
    case Serving => 3
    case Finishing => 2
    case Waking => 1
    case _ => 0
  }

  function FftRank(f: FftPc): nat {
    match f
    case FftStop(p) => StopRank(p)
    case Looping => 1
    case GapSweep => 2
    case Working => 4
    case CheckingEpoch => 5
    case _ => 0
  }

  function ShutRank(h: ShutPc): nat {
    match h
    case Up => 102
    case ShutStop(p) => 98 + StopRank(p)
    case WaitRun => 98
    case ShutScan(i) => 1 + ScanRank(i)
    case ShutJoin(i) => ScanRank(i)
    case ShutClose(i) => if ScanRank(i) > 0 then ScanRank(i) - 1 else 0
    case Freed => 0
  }

  /** The steps left to all workers. */
  function Load(slots: seq<Slot>): nat {
    if slots == [] then 0 else Load(slots[..|slots| - 1]) + WorkerRank(slots[|slots| - 1].worker)
  }

  lemma {:induction false} LoadUpdate(slots: seq<Slot>, i: nat, sl: Slot)
    requires i < |slots|
    ensures Load(slots[i := sl]) == Load(slots) + WorkerRank(sl.worker) - WorkerRank(slots[i].worker)
  {
    var n := |slots| - 1;
    if i < n {
      LoadUpdate(slots[..n], i, sl);
      assert slots[i := sl][..n] == slots[..n][i := sl];
    } else {
      assert slots[i := sl][..n] == slots[..n];
    }
  }

  /** Every step takes at least one from the threads' ranks, and adds at most one byte to the
      pipe, which only reading takes out. */
  function Rank(s: State): nat {
    2 * (RunRank(s.run) + Load(s.slots) + FftRank(s.fft) + ShutRank(s.shut)
         + 2 * s.stopSweeps + s.stopWakes + 2 * s.tuneSweeps + s.tuneWakes) + s.pipe
  }

  lemma LoopFalls(s: State, a: LoopAct)
    requires s.stopping && LoopEnabled(s, a)
    ensures LoopNext(s, a).stopping && Rank(LoopNext(s, a)) < Rank(s)
  {
    hide LoopNext, Rank;
    if s.run.Poll? { PollFalls(s, a); } else if s.run.Listen? || s.run.Held? { ListenFalls(s, a); }
    else { TurnFalls(s, a); }
  }

  lemma PollFalls(s: State, a: LoopAct)
    requires s.stopping && LoopEnabled(s, a) && s.run.Poll?
    ensures LoopNext(s, a).stopping && Rank(LoopNext(s, a)) < Rank(s)
  {
    hide Load, ShutRank, FftRank;
  }

  lemma ListenFalls(s: State, a: LoopAct)
    requires s.stopping && LoopEnabled(s, a) && (s.run.Listen? || s.run.Held?)
    ensures LoopNext(s, a).stopping && Rank(LoopNext(s, a)) < Rank(s)
  {
    hide Load, ShutRank, FftRank;
  }

  lemma TurnFalls(s: State, a: LoopAct)
    requires s.stopping && LoopEnabled(s, a) && !s.run.Poll? && !s.run.Listen? && !s.run.Held?
    ensures LoopNext(s, a).stopping && Rank(LoopNext(s, a)) < Rank(s)
  {
    hide Load, ShutRank;
  }

  lemma EndFalls(s: State, a: EndAct)
    requires s.stopping && EndEnabled(s, a)
    ensures EndNext(s, a).stopping && Rank(EndNext(s, a)) < Rank(s)
  {
    hide Load, ShutRank, Swept;
    if a.StopStep? { OwnStopFalls(s); }
  }

  lemma OwnStopFalls(s: State)
    requires s.stopping && s.run.RunStop?
    ensures EndNext(s, StopStep).stopping && Rank(EndNext(s, StopStep)) < Rank(s)
  {
    hide Load, ShutRank, FftRank, Swept;
  }

  lemma ReapFalls(s: State, a: ReapAct)
    requires s.stopping && |s.slots| == MAX_CLIENTS && ReapEnabled(s, a)
    ensures ReapNext(s, a).stopping && Rank(ReapNext(s, a)) < Rank(s)
  {
    hide Load, FftRank, ShutRank;
    if s.run.i < |s.slots| {
      LoadUpdate(s.slots, s.run.i, ReapNext(s, a).slots[s.run.i]);
    }
  }

  lemma DoorFalls(s: State, a: DoorAct)
    requires s.stopping && DoorEnabled(s, a)
    ensures DoorNext(s, a).stopping && Rank(DoorNext(s, a)) < Rank(s)
  {
    hide Load, FftRank, ShutRank;
  }

  lemma WorkerFalls(s: State, w: nat, a: WorkerAct)
    requires s.stopping && WorkerEnabled(s, w, a)
    ensures WorkerNext(s, w, a).stopping && Rank(WorkerNext(s, w, a)) < Rank(s)
  {
    hide Load, RunRank, FftRank, ShutRank;
    LoadUpdate(s.slots, w, WorkerNext(s, w, a).slots[w]);
  }

  lemma FftFalls(s: State, a: FftAct)
    requires s.stopping && FftEnabled(s, a)
    ensures FftNext(s, a).stopping && Rank(FftNext(s, a)) < Rank(s)
  {
    hide Load, RunRank, ShutRank, Swept, GapSwept;
  }

  lemma CallFalls(s: State, a: CallAct)
    requires s.stopping && CallEnabled(s, a) && !a.StopStore? && !a.Retune?
    ensures CallNext(s, a).stopping && Rank(CallNext(s, a)) < Rank(s)
  {
    hide Load, RunRank, FftRank, ShutRank, Swept;
  }

  lemma ShutFalls(s: State, a: ShutAct)
    requires s.stopping && |s.slots| == MAX_CLIENTS && ShutEnabled(s, a)
    ensures ShutNext(s, a).stopping && Rank(ShutNext(s, a)) < Rank(s)
  {
    hide Load, RunRank, FftRank, Swept;
    if (a.ShutScanStep? || a.ShutJoinStep? || a.ShutCloseStep?) && s.shut.i < |s.slots| {
      LoadUpdate(s.slots, s.shut.i, ShutNext(s, a).slots[s.shut.i]);
    }
  }

  lemma RankFalls(s: State, a: Action)
    requires Inv(s) && s.stopping && Enabled(s, a) && !NewCall(a)
    ensures Next(s, a).stopping && Rank(Next(s, a)) < Rank(s)
  {
    hide Rank, Owned, Progress, Wakes, Gaps, Control;
    hide LoopEnabled, EndEnabled, ReapEnabled, DoorEnabled, WorkerEnabled, FftEnabled, CallEnabled, ShutEnabled;
    hide LoopNext, EndNext, ReapNext, DoorNext, WorkerNext, FftNext, CallNext, ShutNext;
    match a
    case Loop(x) => LoopFalls(s, x);
    case End(x) => EndFalls(s, x);
    case Reap(x) => ReapFalls(s, x);
    case Door(x) => DoorFalls(s, x);
    case Worker(w, x) => WorkerFalls(s, w, x);
    case Fft(x) => FftFalls(s, x);
    case Call(x) => CallFalls(s, x);
    case Shut(x) => ShutFalls(s, x);
  }

  /** After a stop no schedule goes on for ever: without new calls from outside, at most Rank
      steps are left. */
  lemma {:induction false} StopIsBounded(s: State, acts: seq<Action>, t: State)
    requires Inv(s) && s.stopping && Run(s, acts, t) && forall i :: 0 <= i < |acts| ==> !NewCall(acts[i])
    ensures t.stopping && |acts| + Rank(t) <= Rank(s)
    decreases |acts|
  {
    hide Inv, Next, Enabled, Rank, NewCall;
    if acts != [] {
      RankFalls(s, acts[0]);
      StepKeeps(s, acts[0]);
      assert forall i :: 0 <= i < |acts| - 1 ==> acts[1..][i] == acts[i + 1];
      StopIsBounded(Next(s, acts[0]), acts[1..], t);
    }
  }

  /** The step sweeps the sockets for a stop, whoever asked for it. */
  predicate StopSweeps(s: State, a: Action) {
    || (a == Call(StopSweep) && s.stopSweeps > 0)
    || (a == End(StopStep) && s.run == RunStop(Sweeping))
    || (a == Fft(FftStopStep) && s.fft == FftStop(Sweeping))
    || (a == Shut(ShutStopStep) && s.shut == ShutStop(Sweeping))
  }

  /** After it every client that is starting or served has had its socket shut down. */
  lemma SweepReaches(s: State, a: Action)
    requires StopSweeps(s, a)
    ensures Enabled(s, a) && forall sl :: sl in s.slots && Sweepable(sl) ==> sl.fd in Next(s, a).down
  {
    forall sl | sl in s.slots && Sweepable(sl) ensures sl.fd in Swept(s.slots) {
      var i :| 0 <= i < |s.slots| && s.slots[i] == sl;
    }
  }

  /** So a stop completes on every schedule: a run of the threads inside the server, from any
      reachable state in which the flag is set, has a bounded length, and if it cannot be
      continued the run loop has ended, and with it shutdown, if it was called. */
  lemma StopCompletes(s: State, before: seq<Action>, m: State, acts: seq<Action>, t: State)
    requires Init(s) && Run(s, before, m) && m.stopping && Run(m, acts, t)
    requires forall i :: 0 <= i < |acts| ==> !NewCall(acts[i])
    ensures |acts| <= Rank(m)
    ensures (forall a :: Internal(a) ==> !Enabled(t, a)) ==> !t.runActive && (t.shut.Up? || t.shut.Freed?)
  {
    hide Inv, Next, Enabled, Rank, NewCall, Internal;
    InitInv(s);
    RunKeeps(s, before, m);
    StopIsBounded(m, acts, t);
    RunKeeps(m, acts, t);
    if !AtRest(t) {
      var a := StopNeverStuck(t);
    }
  }
}
