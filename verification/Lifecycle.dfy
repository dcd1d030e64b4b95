/** src/rtl_stream_server.c: who may touch a client slot, a socket and a thread, as a state
    machine. Each step is one critical section, one system call or one atomic access; every
    interleaving of the run loop, the workers, the FFT thread, shutdown and any number of
    outside callers is a run. */
module Lifecycle {
  import opened Words

  const MAX_CLIENTS := 32

  datatype SlotState = Free | Starting | Running | Done | Joining
  datatype WorkerPc = Absent | Begin | Serving | Finishing | Waking | Exited
  datatype Slot = Slot(state: SlotState, worker: WorkerPc, fd: nat, fftMode: bool, gen: nat)

  /** rtlsdr_server_request_stop: set the flag, sweep the sockets, write the wake-up byte. */
  datatype StopPc = Flagging | Sweeping | Signalling

  datatype RunPc =
    | Idle | Spawn | Check | Poll | Drain
    | Scan(all: bool, i: nat) | Join(all: bool, i: nat) | Close(all: bool, i: nat)
    | Listen(port: nat) | Held(port: nat, fd: nat) | Admitting(port: nat, fd: nat)
    | RunStop(phase: StopPc) | JoinFft | Finish | Ended
  datatype FftPc = NoThread | Looping | CheckingEpoch | Working | GapSweep | FftStop(phase: StopPc) | FftExited
  datatype ShutPc =
    | Up | ShutStop(phase: StopPc) | WaitRun
    | ShutScan(i: nat) | ShutJoin(i: nat) | ShutClose(i: nat) | Freed

  datatype State = State(
    slots: seq<Slot>, run: RunPc, fft: FftPc, shut: ShutPc,
    stopping: bool, runActive: bool, epoch: nat, gen: nat,
    capacity: pos, pipe: nat,               // the control pipe and the bytes in it
    stopSweeps: nat, stopWakes: nat,        // outside calls of request_stop under way
    tuneSweeps: nat, tuneWakes: nat,        // outside calls of notify_frequency_change under way
    count: int,
    nextFd: nat, where: map<nat, int>,      // the open client sockets: -1 in the accept path, or a slot
    created: set<nat>, joined: set<nat>,    // the sockets whose worker was created, and joined
    down: set<nat>)                         // the sockets shut down both ways

  datatype LoopAct =
    | Start | SpawnFft(plan: bool, created: bool) | CheckStop
    | PollReady(control: bool) | PollInterrupted | PollFailed | DrainRead(k: nat) | DrainEmpty
    | ListenNext | ListenFail | Proceed
  datatype EndAct = StopStep | JoinFftStep | FinishStep
  datatype ReapAct = ScanStep | JoinStep | CloseStep
  datatype DoorAct = Accept | Refuse | Admit(created: bool)
  datatype WorkerAct = Serve | Fail | Report | Wake
  datatype FftAct = FftFlag | FftEpoch | FftTurn | Gap | SweepOld | GiveUp | FftStopStep
  datatype CallAct = StopStore | StopSweep | StopWake | Retune | RetuneSweep | RetuneWake
  datatype ShutAct = Enter | ShutStopStep | RunGone | ShutScanStep | ShutJoinStep | ShutCloseStep | FreeAll

  datatype Action =
    | Loop(loop: LoopAct) | End(end: EndAct) | Reap(reap: ReapAct) | Door(door: DoorAct)
    | Worker(w: nat, work: WorkerAct) | Fft(fft: FftAct) | Call(call: CallAct) | Shut(shut: ShutAct)

  predicate Live(w: WorkerPc) { w.Begin? || w.Serving? || w.Finishing? }

  predicate Sweepable(sl: Slot) { sl.state.Starting? || sl.state.Running? }

  /** The sockets a stop sweep shuts down. */
  function Swept(slots: seq<Slot>): set<nat> {
    set i | 0 <= i < |slots| && Sweepable(slots[i]) :: slots[i].fd
  }

  /** The sockets the gap sweep shuts down. */
  function GapSwept(slots: seq<Slot>, gen: nat): set<nat> {
    set i | 0 <= i < |slots| && Sweepable(slots[i]) && slots[i].fftMode && slots[i].gen != gen :: slots[i].fd
  }

  function TuneSwept(slots: seq<Slot>): set<nat> {
    set i | 0 <= i < |slots| && slots[i].state.Starting? :: slots[i].fd
  }

  /** The first free slot, or the number of slots. */
  function FirstFree(slots: seq<Slot>, from: nat): (i: nat)
    requires from <= |slots|
    ensures from <= i <= |slots| && (i < |slots| ==> slots[i].state.Free?)
    ensures forall j :: from <= j < i ==> !slots[j].state.Free?
    decreases |slots| - from
  {
    if from == |slots| || slots[from].state.Free? then from else FirstFree(slots, from + 1)
  }

  function Woken(s: State): nat { if s.pipe < s.capacity then s.pipe + 1 else s.pipe }

  // ---- Steps ----

  predicate SlotIs(s: State, i: nat, w: WorkerPc) { i < |s.slots| && s.slots[i].worker == w }

  predicate LoopEnabled(s: State, a: LoopAct) {
    match a
    case Start => (s.run.Idle? || s.run.Ended?) && !s.runActive && !s.stopping
    case SpawnFft(_, _) => s.run.Spawn?
    case CheckStop => s.run.Check?
    case PollReady(control) => s.run.Poll? && control == (s.pipe > 0)
    case PollInterrupted => s.run.Poll?
    case PollFailed => s.run.Poll?
    case DrainRead(k) => s.run.Drain? && 1 <= k <= s.pipe
    case DrainEmpty => s.run.Drain? && s.pipe == 0
    case ListenNext => s.run.Listen?
    case ListenFail => s.run.Listen? && s.run.port < 2 && !s.stopping
    case Proceed => s.run.Held? && s.epoch == 1
  }

  predicate EndEnabled(s: State, a: EndAct) {
    match a
    case StopStep => s.run.RunStop?
    case JoinFftStep => s.run.JoinFft? && (s.fft.NoThread? || s.fft.FftExited?)
    case FinishStep => s.run.Finish?
  }

  predicate ReapEnabled(s: State, a: ReapAct) {
    match a
    case ScanStep => s.run.Scan?
    case JoinStep => s.run.Join? && SlotIs(s, s.run.i, Exited)
    case CloseStep => s.run.Close? && s.run.i < |s.slots|
  }

  predicate DoorEnabled(s: State, a: DoorAct) {
    match a
    case Accept => s.run.Listen? && s.run.port < 2 && !s.stopping
    case Refuse => s.run.Held?
    case Admit(_) => s.run.Admitting?
  }

  predicate WorkerEnabled(s: State, w: nat, a: WorkerAct) {
    match a
    case Serve => SlotIs(s, w, Begin)
    case Fail => SlotIs(s, w, Begin) || SlotIs(s, w, Serving)
    case Report => SlotIs(s, w, Finishing)
    case Wake => SlotIs(s, w, Waking)
  }

  predicate FftEnabled(s: State, a: FftAct) {
    match a
    case FftFlag => s.fft.Looping?
    case FftEpoch => s.fft.CheckingEpoch?
    case FftTurn => s.fft.Working?
    case Gap => s.fft.Working?
    case SweepOld => s.fft.GapSweep?
    case GiveUp => s.fft.Working?
    case FftStopStep => s.fft.FftStop?
  }

  predicate CallEnabled(s: State, a: CallAct) {
    match a
    case StopStore => true
    case StopSweep => s.stopSweeps > 0
    case StopWake => s.stopWakes > 0
    case Retune => true
    case RetuneSweep => s.tuneSweeps > 0
    case RetuneWake => s.tuneWakes > 0
  }

  predicate ShutEnabled(s: State, a: ShutAct) {
    match a
    case Enter => s.shut.Up?
    case ShutStopStep => s.shut.ShutStop?
    case RunGone => s.shut.WaitRun? && !s.runActive
    case ShutScanStep => s.shut.ShutScan? && s.shut.i < |s.slots|
    case ShutJoinStep => s.shut.ShutJoin? && SlotIs(s, s.shut.i, Exited)
    case ShutCloseStep => s.shut.ShutClose? && s.shut.i < |s.slots|
    case FreeAll => s.shut.ShutScan? && s.shut.i == |s.slots|
  }

  predicate Enabled(s: State, a: Action) {
    match a
    case Loop(x) => LoopEnabled(s, x)
    case End(x) => EndEnabled(s, x)
    case Reap(x) => ReapEnabled(s, x)
    case Door(x) => DoorEnabled(s, x)
    case Worker(w, x) => WorkerEnabled(s, w, x)
    case Fft(x) => FftEnabled(s, x)
    case Call(x) => CallEnabled(s, x)
    case Shut(x) => ShutEnabled(s, x)
  }

  /** Whether reap_clients passes slot sl over. */
  predicate Passed(sl: Slot, all: bool) {
    sl.state.Free? || sl.state.Joining? || (!all && !sl.state.Done?)
  }

  function Marked(s: State, i: nat): State
    requires i < |s.slots|
  {
    s.(slots := s.slots[i := s.slots[i].(state := Joining)])
  }

  function ThreadJoined(s: State, i: nat): State
    requires i < |s.slots|
  {
    s.(slots := s.slots[i := s.slots[i].(worker := Absent)], joined := s.joined + {s.slots[i].fd})
  }

  function SlotFreed(s: State, i: nat): State
    requires i < |s.slots|
  {
    s.(slots := s.slots[i := s.slots[i].(state := Free)], count := s.count - 1, where := s.where - {s.slots[i].fd})
  }

  function SetWorker(s: State, i: nat, state: SlotState, w: WorkerPc): State
    requires i < |s.slots|
  {
    s.(slots := s.slots[i := s.slots[i].(state := state, worker := w)])
  }

  function AdmitNext(s: State, created: bool): State
    requires s.run.Admitting?
  {
    var fd := s.run.fd;
    var i := FirstFree(s.slots, 0);
    var s1 := s.(run := Listen(s.run.port + 1));
    if s.stopping || i == |s.slots| || !created then s1.(where := s.where - {fd})
    else
      s1.(slots := s.slots[i := Slot(Starting, Begin, fd, s.run.port == 1, s.gen)],
          where := s.where[fd := i], count := s.count + 1, created := s.created + {fd})
  }

  function LoopNext(s: State, a: LoopAct): State
    requires LoopEnabled(s, a)
  {
    match a
    case Start => s.(run := Spawn, runActive := true)
    case SpawnFft(plan, created) =>
      if !plan then s.(run := Check)
      else if created then s.(run := Check, fft := Looping)
      else s.(run := RunStop(Flagging))
    case CheckStop => s.(run := if s.stopping then RunStop(Flagging) else Poll)
    case PollReady(control) => s.(run := if control then Drain else Scan(false, 0))
    case PollInterrupted => s.(run := Check)
    case PollFailed => s.(run := RunStop(Flagging))
    case DrainRead(k) => s.(pipe := s.pipe - k)
    case DrainEmpty => s.(run := Scan(false, 0))
    case ListenNext => s.(run := if s.stopping || s.run.port >= 2 then Check else Listen(s.run.port + 1))
    case ListenFail => s.(run := RunStop(Flagging))
    case Proceed => s.(run := Admitting(s.run.port, s.run.fd))
  }

  function EndNext(s: State, a: EndAct): State
    requires EndEnabled(s, a)
  {
    match a
    case StopStep =>
      (match s.run.phase
       case Flagging => s.(stopping := true, run := RunStop(Sweeping))
       case Sweeping => s.(down := s.down + Swept(s.slots), run := RunStop(Signalling))
       case Signalling => s.(pipe := Woken(s), run := Scan(true, 0)))
    case JoinFftStep => s.(fft := NoThread, run := Finish)
    case FinishStep => s.(runActive := false, run := Ended)
  }

  /** reap_clients, one critical section at a time. */
  function ReapNext(s: State, a: ReapAct): State
    requires ReapEnabled(s, a)
  {
    var all, i := s.run.all, s.run.i;
    match a
    case ScanStep =>
      if i >= |s.slots| then s.(run := if all then JoinFft else Listen(0))
      else if Passed(s.slots[i], all) then s.(run := Scan(all, i + 1))
      else Marked(s, i).(run := Join(all, i))
    case JoinStep => ThreadJoined(s, i).(run := Close(all, i))
    case CloseStep => SlotFreed(s, i).(run := Scan(all, i + 1))
  }

  /** accept_client: a socket that is not admitted is closed again. */
  function DoorNext(s: State, a: DoorAct): State
    requires DoorEnabled(s, a)
  {
    match a
    case Accept => s.(run := Held(s.run.port, s.nextFd), where := s.where[s.nextFd := -1], nextFd := s.nextFd + 1)
    case Refuse => s.(run := Listen(s.run.port + 1), where := s.where - {s.run.fd})
    case Admit(created) => AdmitNext(s, created)
  }

  function WorkerNext(s: State, w: nat, a: WorkerAct): State
    requires WorkerEnabled(s, w, a)
  {
    match a
    case Serve => SetWorker(s, w, Running, Serving)
    case Fail => SetWorker(s, w, s.slots[w].state, Finishing)
    case Report => SetWorker(s, w, Done, Waking)
    case Wake => SetWorker(s, w, s.slots[w].state, Exited).(pipe := Woken(s))
  }

  function FftNext(s: State, a: FftAct): State
    requires FftEnabled(s, a)
  {
    match a
    case FftFlag => s.(fft := if s.stopping then FftExited else CheckingEpoch)
    case FftEpoch => s.(fft := if s.epoch != 1 then FftExited else Working)
    case FftTurn => s.(fft := Looping)
    case Gap => s.(fft := GapSweep, gen := s.gen + 1)
    case SweepOld => s.(fft := Looping, down := s.down + GapSwept(s.slots, s.gen))
    case GiveUp => s.(fft := FftStop(Flagging))
    case FftStopStep =>
      (match s.fft.phase
       case Flagging => s.(stopping := true, fft := FftStop(Sweeping))
       case Sweeping => s.(down := s.down + Swept(s.slots), fft := FftStop(Signalling))
       case Signalling => s.(pipe := Woken(s), fft := FftExited))
  }

  function CallNext(s: State, a: CallAct): State
    requires CallEnabled(s, a)
  {
    match a
    case StopStore => s.(stopping := true, stopSweeps := s.stopSweeps + 1)
    case StopSweep => s.(down := s.down + Swept(s.slots), stopSweeps := s.stopSweeps - 1, stopWakes := s.stopWakes + 1)
    case StopWake => s.(pipe := Woken(s), stopWakes := s.stopWakes - 1)
    case Retune => s.(epoch := s.epoch + 1, tuneSweeps := s.tuneSweeps + 1)
    case RetuneSweep => s.(tuneSweeps := s.tuneSweeps - 1, tuneWakes := s.tuneWakes + 1)
    case RetuneWake => s.(pipe := Woken(s), tuneWakes := s.tuneWakes - 1)
  }

  function ShutNext(s: State, a: ShutAct): State
    requires ShutEnabled(s, a)
  {
    match a
    case Enter => s.(shut := ShutStop(Flagging))
    case ShutStopStep =>
      (match s.shut.phase
       case Flagging => s.(stopping := true, shut := ShutStop(Sweeping))
       case Sweeping => s.(down := s.down + Swept(s.slots), shut := ShutStop(Signalling))
       case Signalling => s.(pipe := Woken(s), shut := WaitRun))
    case RunGone => s.(shut := ShutScan(0))
    case ShutScanStep =>
      if Passed(s.slots[s.shut.i], true) then s.(shut := ShutScan(s.shut.i + 1))
      else Marked(s, s.shut.i).(shut := ShutJoin(s.shut.i))
    case ShutJoinStep => ThreadJoined(s, s.shut.i).(shut := ShutClose(s.shut.i))
    case ShutCloseStep => SlotFreed(s, s.shut.i).(shut := ShutScan(s.shut.i + 1))
    case FreeAll => s.(shut := Freed)
  }

  function Next(s: State, a: Action): State
    requires Enabled(s, a)
  {
    match a
    case Loop(x) => LoopNext(s, x)
    case End(x) => EndNext(s, x)
    case Reap(x) => ReapNext(s, x)
    case Door(x) => DoorNext(s, x)
    case Worker(w, x) => WorkerNext(s, w, x)
    case Fft(x) => FftNext(s, x)
    case Call(x) => CallNext(s, x)
    case Shut(x) => ShutNext(s, x)
  }

  // ---- What a step does to the operating system ----

  function Closes(s: State, a: Action): set<nat>
    requires Enabled(s, a)
  {
    match a
    case Reap(CloseStep) => {s.slots[s.run.i].fd}
    case Shut(ShutCloseStep) => {s.slots[s.shut.i].fd}
    case Door(Refuse) => {s.run.fd}
    case Door(Admit(created)) => if s.stopping || FirstFree(s.slots, 0) == |s.slots| || !created then {s.run.fd} else {}
    case _ => {}
  }

  function Joins(s: State, a: Action): set<nat>
    requires Enabled(s, a)
  {
    match a
    case Reap(JoinStep) => {s.slots[s.run.i].fd}
    case Shut(ShutJoinStep) => {s.slots[s.shut.i].fd}
    case _ => {}
  }

  function ShutsDown(s: State, a: Action): set<nat>
    requires Enabled(s, a)
  {
    match a
    case End(StopStep) => if s.run.phase.Sweeping? then Swept(s.slots) else {}
    case Fft(FftStopStep) => if s.fft.phase.Sweeping? then Swept(s.slots) else {}
    case Shut(ShutStopStep) => if s.shut.phase.Sweeping? then Swept(s.slots) else {}
    case Call(StopSweep) => Swept(s.slots)
    case Fft(SweepOld) => GapSwept(s.slots, s.gen)
    case Call(RetuneSweep) => TuneSwept(s.slots)
    case _ => {}
  }

  // ---- The invariant ----

  datatype Visit = Away | JoinHere(all: bool) | CloseHere

  /** What the run loop's reaper is doing to slot i. */
  function VisitOf(run: RunPc, i: nat): Visit {
    match run
    case Join(all, j) => if i == j then JoinHere(all) else Away
    case Close(_, j) => if i == j then CloseHere else Away
    case _ => Away
  }

  /** A slot, its worker and the reaper agree. Under reap_clients(all = 0) only workers that
      are past their last access to the slot are ever joined. */
  ghost predicate SlotOk(sl: Slot, v: Visit) {
    && (sl.state.Free? ==> sl.worker.Absent? && v.Away?)
    && (sl.worker.Absent? ==> sl.state.Free? || v.CloseHere?)
    && (v.CloseHere? ==> sl.worker.Absent? && (sl.state.Done? || sl.state.Joining?))
    && (v.JoinHere? ==> !sl.worker.Absent? && (!v.all ==> sl.worker.Waking? || sl.worker.Exited?))
    && (sl.state.Joining? ==> !v.Away?)
    && (sl.state.Starting? ==> Live(sl.worker))
    && (sl.state.Running? ==> Live(sl.worker))
    && (sl.state.Done? ==> !Live(sl.worker))
  }

  ghost predicate SlotsOk(slots: seq<Slot>, run: RunPc) {
    |slots| == MAX_CLIENTS && forall i :: 0 <= i < MAX_CLIENTS ==> SlotOk(slots[i], VisitOf(run, i))
  }

  /** The socket on its way through the accept path. */
  function Carried(run: RunPc): Option<nat> {
    if run.Held? || run.Admitting? then Some(run.fd) else None
  }

  /** Every open socket has exactly one owner, and only the reaper about to close it finds its
      worker joined. */
  ghost predicate Owned(slots: seq<Slot>, carried: Option<nat>, where: map<nat, int>, nextFd: nat, created: set<nat>,
      joined: set<nat>) {
    && |slots| == MAX_CLIENTS
    && (forall fd :: fd in where ==> fd < nextFd && OwnerOk(slots, carried, where[fd], fd, fd in created, fd in joined))
    && (forall i :: 0 <= i < MAX_CLIENTS && !slots[i].state.Free? ==> slots[i].fd in where && where[slots[i].fd] == i)
    && (carried.Some? ==> carried.value in where && where[carried.value] == -1)
    && (forall fd :: fd in created ==> fd < nextFd && (fd in where || fd in joined))
    && joined <= created
  }

  ghost predicate OwnerOk(slots: seq<Slot>, carried: Option<nat>, i: int, fd: nat, created: bool, joined: bool)
    requires |slots| == MAX_CLIENTS
  {
    if i == -1 then carried == Some(fd) && !created
    else
      && 0 <= i < MAX_CLIENTS && !slots[i].state.Free? && slots[i].fd == fd
      && created && joined == slots[i].worker.Absent?
  }

  function Busy(slots: seq<Slot>): nat {
    if slots == [] then 0 else Busy(slots[..|slots| - 1]) + if slots[|slots| - 1].state.Free? then 0 else 1
  }

  /** run_active, stopping and the thread positions agree; shutdown's own reaper meets no
      client. */
  ghost predicate Control(s: State) {
    && (s.runActive <==> !s.run.Idle? && !s.run.Ended?)
    && (PastStop(s.run) || s.run == RunStop(Sweeping) || s.run == RunStop(Signalling) ==> s.stopping)
    && (!s.fft.NoThread? ==> s.runActive && !s.run.Spawn? && !s.run.Finish?)
    && (s.shut.WaitRun? || s.shut == ShutStop(Sweeping) || s.shut == ShutStop(Signalling) ==> s.stopping)
    && (s.fft == FftStop(Sweeping) || s.fft == FftStop(Signalling) ==> s.stopping)
    && (s.shut.ShutScan? || s.shut.Freed? ==> s.stopping && !s.runActive)
    && (s.shut.ShutScan? ==> s.shut.i <= MAX_CLIENTS)
    && !s.shut.ShutJoin? && !s.shut.ShutClose?
    && (s.run.Join? || s.run.Close? ==> s.run.i < MAX_CLIENTS)
  }

  /** The run loop is past its own request_stop. */
  predicate PastStop(run: RunPc) {
    ((run.Scan? || run.Join? || run.Close?) && run.all) || run.JoinFft? || run.Finish? || run.Ended?
  }

  /** The slots already emptied for good. */
  predicate Emptied(run: RunPc, i: nat) {
    match run
    case Idle => true case Spawn => true case JoinFft => true case Finish => true case Ended => true
    case Scan(all, k) => all && i < k
    case Join(all, k) => all && i < k
    case Close(all, k) => all && i < k
    case _ => false
  }

  ghost predicate Progress(slots: seq<Slot>, run: RunPc, down: set<nat>) {
    && |slots| == MAX_CLIENTS
    && (forall i :: 0 <= i < MAX_CLIENTS && Emptied(run, i) ==> slots[i].state.Free?)
    && (PastStop(run) || run == RunStop(Signalling) ==>
          forall i :: 0 <= i < MAX_CLIENTS && Live(slots[i].worker) ==> slots[i].fd in down)
  }

  predicate StopOwed(s: State) {
    s.stopSweeps + s.stopWakes > 0 || s.fft == FftStop(Sweeping) || s.fft == FftStop(Signalling)
    || s.shut == ShutStop(Sweeping) || s.shut == ShutStop(Signalling)
  }

  /** The slots the loop will not look at again before it polls. */
  predicate Scanned(run: RunPc, i: nat) {
    match run
    case Check => true case Poll => true case Listen(_) => true case Held(_, _) => true case Admitting(_, _) => true
    case Scan(all, k) => !all && i < k
    case Join(all, k) => !all && i < k
    case Close(all, k) => !all && i < k
    case _ => false
  }

  /** No wake-up is lost: a set flag or a finished worker that the loop has passed leaves a
      byte in the pipe, or a thread that is about to write one. */
  ghost predicate Wakes(slots: seq<Slot>, run: RunPc, pipe: nat, stopUnseen: bool) {
    && |slots| == MAX_CLIENTS
    && (run.Poll? && stopUnseen ==> pipe > 0)
    && (forall i :: 0 <= i < MAX_CLIENTS && Scanned(run, i) && slots[i].state.Done? ==>
        pipe > 0 || slots[i].worker.Waking?)
  }

  /** Once the gap sweep is over, no FFT client of an older generation can still be served; and
      no client is of a newer one. */
  ghost predicate Gaps(slots: seq<Slot>, sweeping: bool, gen: nat, down: set<nat>) {
    && |slots| == MAX_CLIENTS
    && (forall i :: 0 <= i < MAX_CLIENTS && !slots[i].state.Free? ==> slots[i].gen <= gen)
    && (!sweeping ==>
          forall i :: 0 <= i < MAX_CLIENTS && Live(slots[i].worker) && slots[i].fftMode && slots[i].gen != gen ==>
            slots[i].fd in down)
  }

  ghost predicate Inv(s: State) {
    && SlotsOk(s.slots, s.run)
    && Owned(s.slots, Carried(s.run), s.where, s.nextFd, s.created, s.joined)
    && s.count == Busy(s.slots)
    && Control(s)
    && Progress(s.slots, s.run, s.down)
    && Wakes(s.slots, s.run, s.pipe, s.stopping && !StopOwed(s))
    && Gaps(s.slots, s.fft.GapSweep?, s.gen, s.down)
  }

  ghost predicate Init(s: State) {
    && |s.slots| == MAX_CLIENTS
    && (forall i :: 0 <= i < MAX_CLIENTS ==> s.slots[i].state.Free? && s.slots[i].worker.Absent?)
    && s.run.Idle? && s.fft.NoThread? && s.shut.Up? && !s.stopping && !s.runActive && s.epoch == s.gen == 1
        && s.pipe == 0
    && s.stopSweeps == s.stopWakes == s.tuneSweeps == s.tuneWakes == s.count == s.nextFd == 0
    && s.where == map[] && s.created == s.joined == s.down == {}
  }

  // ---- Every step keeps it ----

  lemma {:induction false} BusyUpdate(slots: seq<Slot>, i: nat, sl: Slot)
    requires i < |slots|
    ensures Busy(slots[i := sl]) ==
            Busy(slots) + (if sl.state.Free? then 0 else 1) - (if slots[i].state.Free? then 0 else 1)
  {
    var n := |slots| - 1;
    if i < n {
      BusyUpdate(slots[..n], i, sl);
      assert slots[i := sl][..n] == slots[..n][i := sl];
    } else {
      assert slots[i := sl][..n] == slots[..n];
    }
  }

  lemma PollKeeps(s: State, a: LoopAct)
    requires Inv(s) && LoopEnabled(s, a) && (s.run.Poll? || s.run.Drain?)
    ensures Inv(LoopNext(s, a))
  {
    hide Busy, Owned;
  }

  lemma TurnKeeps(s: State, a: LoopAct)
    requires Inv(s) && LoopEnabled(s, a) && !s.run.Poll? && !s.run.Drain?
    ensures Inv(LoopNext(s, a))
  {
    hide Busy, Owned;
  }

  lemma LoopStep(s: State, a: LoopAct)
    requires Inv(s) && LoopEnabled(s, a)
    ensures Inv(LoopNext(s, a))
  {
    hide Inv, LoopNext, LoopEnabled;
    if s.run.Poll? || s.run.Drain? { PollKeeps(s, a); } else { TurnKeeps(s, a); }
  }

  lemma RunStopKeeps(s: State)
    requires Inv(s) && s.run.RunStop?
    ensures Inv(EndNext(s, StopStep))
  {
    hide Busy, Owned;
  }

  lemma EndStep(s: State, a: EndAct)
    requires Inv(s) && EndEnabled(s, a)
    ensures Inv(EndNext(s, a))
  {
    hide Busy, Owned, Swept;
    if a.StopStep? {
      RunStopKeeps(s);
    }
  }

  /** A step that keeps a slot in use, its socket, and whether its thread is joined. */
  lemma OwnedSame(slots: seq<Slot>, carried: Option<nat>, where: map<nat, int>, nextFd: nat, created: set<nat>,
      joined: set<nat>, i: nat, sl: Slot)
    requires Owned(slots, carried, where, nextFd, created, joined) && i < |slots|
    requires sl.fd == slots[i].fd && !sl.state.Free? && !slots[i].state.Free?
              && sl.worker.Absent? == slots[i].worker.Absent?
    ensures Owned(slots[i := sl], carried, where, nextFd, created, joined)
  {}

  lemma OwnedJoined(slots: seq<Slot>, carried: Option<nat>, where: map<nat, int>, nextFd: nat, created: set<nat>,
      joined: set<nat>, i: nat, sl: Slot)
    requires Owned(slots, carried, where, nextFd, created, joined) && i < |slots|
    requires sl.fd == slots[i].fd && !sl.state.Free? && !slots[i].state.Free? && sl.worker.Absent?
    ensures Owned(slots[i := sl], carried, where, nextFd, created, joined + {sl.fd})
  {}

  lemma OwnedClosed(slots: seq<Slot>, carried: Option<nat>, where: map<nat, int>, nextFd: nat, created: set<nat>,
      joined: set<nat>, i: nat, sl: Slot)
    requires Owned(slots, carried, where, nextFd, created, joined) && i < |slots|
    requires !slots[i].state.Free? && slots[i].worker.Absent? && sl.state.Free?
    ensures Owned(slots[i := sl], carried, where - {slots[i].fd}, nextFd, created, joined)
  {}

  lemma ReapOwned(s: State, a: ReapAct)
    requires Inv(s) && ReapEnabled(s, a)
    ensures var t := ReapNext(s, a); Owned(t.slots, Carried(t.run), t.where, t.nextFd, t.created, t.joined)
  {
    hide Busy, Progress, Wakes, Gaps, Owned;
    var i := s.run.i;
    if i < |s.slots| && !s.slots[i].state.Free? {
      var sl := ReapNext(s, a).slots[i];
      match a
      case ScanStep => OwnedSame(s.slots, None, s.where, s.nextFd, s.created, s.joined, i, sl);
      case JoinStep => OwnedJoined(s.slots, None, s.where, s.nextFd, s.created, s.joined, i, sl);
      case CloseStep => OwnedClosed(s.slots, None, s.where, s.nextFd, s.created, s.joined, i, sl);
    }
    assert s.slots == s.slots[..];
  }

  lemma ReapCounted(s: State, a: ReapAct)
    requires Inv(s) && ReapEnabled(s, a)
    ensures ReapNext(s, a).count == Busy(ReapNext(s, a).slots)
  {
    hide Busy, Owned, Progress, Wakes, Gaps;
    if s.run.i < |s.slots| {
      BusyUpdate(s.slots, s.run.i, ReapNext(s, a).slots[s.run.i]);
    }
  }

  lemma ScanSlots(s: State)
    requires Inv(s) && s.run.Scan? && s.run.i < |s.slots|
    ensures SlotsOk(ReapNext(s, ScanStep).slots, ReapNext(s, ScanStep).run) && !s.slots[s.run.i].state.Joining?
  {
    hide Busy, Owned, Progress, Wakes, Gaps;
  }

  lemma ScanPasses(s: State)
    requires Inv(s) && s.run.Scan? && s.run.i < |s.slots| && Passed(s.slots[s.run.i], s.run.all)
    ensures Inv(ReapNext(s, ScanStep))
  {
    hide Busy, Owned, SlotsOk;
    ScanSlots(s);
    ReapOwned(s, ScanStep);
  }

  lemma ScanMarks(s: State)
    requires Inv(s) && s.run.Scan? && s.run.i < |s.slots| && !Passed(s.slots[s.run.i], s.run.all)
    ensures Inv(ReapNext(s, ScanStep))
  {
    hide Busy, Owned, SlotsOk;
    ScanSlots(s);
    ReapOwned(s, ScanStep);
    ReapCounted(s, ScanStep);
  }

  lemma ReapStep(s: State, a: ReapAct)
    requires Inv(s) && ReapEnabled(s, a)
    ensures Inv(ReapNext(s, a))
  {
    hide Busy, Owned;
    if a.ScanStep? && s.run.i < |s.slots| {
      if Passed(s.slots[s.run.i], s.run.all) { ScanPasses(s); } else { ScanMarks(s); }
    } else {
      ReapOwned(s, a);
      ReapCounted(s, a);
    }
  }

  lemma OwnedDropped(slots: seq<Slot>, where: map<nat, int>, nextFd: nat, created: set<nat>, joined: set<nat>, fd: nat)
    requires Owned(slots, Some(fd), where, nextFd, created, joined)
    ensures Owned(slots, None, where - {fd}, nextFd, created, joined)
  {}

  lemma OwnedAdmitted(slots: seq<Slot>, where: map<nat, int>, nextFd: nat, created: set<nat>, joined: set<nat>,
      fd: nat, i: nat, sl: Slot)
    requires Owned(slots, Some(fd), where, nextFd, created, joined) && i < |slots| && slots[i].state.Free?
    requires sl.fd == fd && !sl.state.Free? && !sl.worker.Absent?
    ensures Owned(slots[i := sl], None, where[fd := i], nextFd, created + {fd}, joined)
  {}

  lemma OwnedAccepted(slots: seq<Slot>, where: map<nat, int>, nextFd: nat, created: set<nat>, joined: set<nat>)
    requires Owned(slots, None, where, nextFd, created, joined)
    ensures Owned(slots, Some(nextFd), where[nextFd := -1], nextFd + 1, created, joined)
  {}

  lemma DoorOwned(s: State, a: DoorAct)
    requires Inv(s) && DoorEnabled(s, a)
    ensures var t := DoorNext(s, a); Owned(t.slots, Carried(t.run), t.where, t.nextFd, t.created, t.joined)
  {
    hide Busy, Progress, Wakes, Gaps, Owned;
    if a.Accept? {
      OwnedAccepted(s.slots, s.where, s.nextFd, s.created, s.joined);
    } else {
      var fd, i := s.run.fd, FirstFree(s.slots, 0);
      OwnedDropped(s.slots, s.where, s.nextFd, s.created, s.joined, fd);
      if i < |s.slots| && a.Admit? {
        var sl := Slot(Starting, Begin, fd, s.run.port == 1, s.gen);
        OwnedAdmitted(s.slots, s.where, s.nextFd, s.created, s.joined, fd, i, sl);
      }
    }
  }

  lemma DoorCounted(s: State, a: DoorAct)
    requires Inv(s) && DoorEnabled(s, a)
    ensures DoorNext(s, a).count == Busy(DoorNext(s, a).slots)
  {
    hide Busy, Owned, Progress, Wakes, Gaps;
    if FirstFree(s.slots, 0) < |s.slots| {
      BusyUpdate(s.slots, FirstFree(s.slots, 0), DoorNext(s, a).slots[FirstFree(s.slots, 0)]);
    }
  }

  lemma DoorStep(s: State, a: DoorAct)
    requires Inv(s) && DoorEnabled(s, a)
    ensures Inv(DoorNext(s, a))
  {
    hide Busy, Owned;
    DoorOwned(s, a);
    DoorCounted(s, a);
  }

  lemma WorkerOwned(s: State, w: nat, a: WorkerAct)
    requires Inv(s) && WorkerEnabled(s, w, a)
    ensures var t := WorkerNext(s, w, a); Owned(t.slots, Carried(t.run), t.where, t.nextFd, t.created, t.joined)
  {
    hide Busy, Progress, Wakes, Gaps, Owned;
    OwnedSame(s.slots, Carried(s.run), s.where, s.nextFd, s.created, s.joined, w, WorkerNext(s, w, a).slots[w]);
  }

  lemma WorkerCounted(s: State, w: nat, a: WorkerAct)
    requires Inv(s) && WorkerEnabled(s, w, a)
    ensures WorkerNext(s, w, a).count == Busy(WorkerNext(s, w, a).slots)
  {
    hide Busy, Owned, Progress, Wakes, Gaps;
    BusyUpdate(s.slots, w, WorkerNext(s, w, a).slots[w]);
  }

  lemma WorkerStep(s: State, w: nat, a: WorkerAct)
    requires Inv(s) && WorkerEnabled(s, w, a)
    ensures Inv(WorkerNext(s, w, a))
  {
    hide Busy, Owned;
    WorkerOwned(s, w, a);
    WorkerCounted(s, w, a);
  }

  lemma FftStep(s: State, a: FftAct)
    requires Inv(s) && FftEnabled(s, a)
    ensures Inv(FftNext(s, a))
  {
    hide Busy, Owned;
  }

  lemma CallStep(s: State, a: CallAct)
    requires Inv(s) && CallEnabled(s, a)
    ensures Inv(CallNext(s, a))
  {
    hide Busy, Owned;
  }

  lemma ShutStopKeeps(s: State)
    requires Inv(s) && s.shut.ShutStop?
    ensures Inv(ShutNext(s, ShutStopStep))
  {
    hide Busy, Owned;
  }

  /** The reaper in shutdown finds every slot free. */
  lemma ShutStep(s: State, a: ShutAct)
    requires Inv(s) && ShutEnabled(s, a)
    ensures Inv(ShutNext(s, a))
  {
    hide Busy, Owned, Swept;
    if a.ShutStopStep? {
      ShutStopKeeps(s);
    }
  }

  lemma StepKeeps(s: State, a: Action)
    requires Inv(s) && Enabled(s, a)
    ensures Inv(Next(s, a))
  {
    hide Inv, LoopEnabled, EndEnabled, ReapEnabled, DoorEnabled, WorkerEnabled, FftEnabled, CallEnabled, ShutEnabled;
    hide LoopNext, EndNext, ReapNext, DoorNext, WorkerNext, FftNext, CallNext, ShutNext;
    match a
    case Loop(x) => LoopStep(s, x);
    case End(x) => EndStep(s, x);
    case Reap(x) => ReapStep(s, x);
    case Door(x) => DoorStep(s, x);
    case Worker(w, x) => WorkerStep(s, w, x);
    case Fft(x) => FftStep(s, x);
    case Call(x) => CallStep(s, x);
    case Shut(x) => ShutStep(s, x);
  }

  // ---- Runs ----

  ghost predicate Run(s: State, acts: seq<Action>, t: State)
    decreases |acts|
  {
    if acts == [] then s == t
    else Enabled(s, acts[0]) && Run(Next(s, acts[0]), acts[1..], t)
  }

  lemma InitInv(s: State)
    requires Init(s)
    ensures Inv(s)
  {
    AllFree(s.slots);
  }

  lemma {:induction false} AllFree(slots: seq<Slot>)
    requires forall i :: 0 <= i < |slots| ==> slots[i].state.Free?
    ensures Busy(slots) == 0
  {
    if slots != [] {
      AllFree(slots[..|slots| - 1]);
    }
  }

  /** The invariant holds in every state of every run. */
  lemma {:induction false} RunKeeps(s: State, acts: seq<Action>, t: State)
    requires Inv(s) && Run(s, acts, t)
    ensures Inv(t)
    decreases |acts|
  {
    hide Inv, Next, Enabled;
    if acts != [] {
      StepKeeps(s, acts[0]);
      RunKeeps(Next(s, acts[0]), acts[1..], t);
    }
  }

  // ---- What that means ----

  /** In every reachable state, a step closes only an open socket whose worker never existed
      or has been joined; joins only a thread not joined before; shuts down only open
      sockets. */
  lemma StepSafe(s: State, a: Action)
    requires Inv(s) && Enabled(s, a)
    ensures forall fd :: fd in Closes(s, a) ==> fd in s.where && (s.where[fd] == -1 || fd in s.joined)
    ensures forall fd :: fd in Joins(s, a) ==> fd in s.where && fd !in s.joined
    ensures forall fd :: fd in ShutsDown(s, a) ==> fd in s.where
  {
    hide Busy, Progress, Wakes, Gaps, Next;
  }

  /** Socket fd has been accepted and closed again. */
  function Gone(s: State, fd: nat): nat { if fd < s.nextFd && fd !in s.where then 1 else 0 }

  function JoinedNow(s: State, fd: nat): nat { if fd in s.joined then 1 else 0 }

  /** What the books say of the socket of a busy slot. */
  lemma OwnerOf(s: State, i: nat)
    requires Inv(s) && i < MAX_CLIENTS && !s.slots[i].state.Free?
    ensures var fd := s.slots[i].fd; fd in s.where && fd < s.nextFd && (fd in s.joined <==> s.slots[i].worker.Absent?)
  {
    hide Busy, Progress, Wakes, Gaps, SlotOk, Control;
  }

  lemma ReapCounts(s: State, a: ReapAct, fd: nat)
    requires Inv(s) && ReapEnabled(s, a)
    ensures Gone(ReapNext(s, a), fd) == Gone(s, fd) + (if fd in Closes(s, Reap(a)) then 1 else 0)
    ensures JoinedNow(ReapNext(s, a), fd) == JoinedNow(s, fd) + (if fd in Joins(s, Reap(a)) then 1 else 0)
  {
    hide Busy, Progress, Wakes, Gaps, Owned, Control;
    if s.run.i < MAX_CLIENTS && !s.slots[s.run.i].state.Free? {
      OwnerOf(s, s.run.i);
    }
  }

  lemma DoorCounts(s: State, a: DoorAct, fd: nat)
    requires Inv(s) && DoorEnabled(s, a)
    ensures Gone(DoorNext(s, a), fd) == Gone(s, fd) + (if fd in Closes(s, Door(a)) then 1 else 0)
    ensures DoorNext(s, a).joined == s.joined && Joins(s, Door(a)) == {}
  {
    hide Busy, Progress, Wakes, Gaps;
  }

  lemma NoEffect(s: State, a: Action)
    requires Enabled(s, a) && !a.Reap? && !a.Door? && !s.shut.ShutJoin? && !s.shut.ShutClose?
    ensures Closes(s, a) == {} && Joins(s, a) == {}
  {
    hide Swept, GapSwept;
  }

  function Books(s: State): (nat, map<nat, int>, set<nat>) { (s.nextFd, s.where, s.joined) }

  lemma BooksKept(s: State, a: Action)
    requires Enabled(s, a) && !a.Reap? && !a.Door? && !s.shut.ShutJoin? && !s.shut.ShutClose?
    ensures Books(Next(s, a)) == Books(s)
  {
    hide Swept, GapSwept, LoopNext, EndNext;
    if a.Loop? || a.End? { RunBooksKept(s, a); }
  }

  lemma RunBooksKept(s: State, a: Action)
    requires Enabled(s, a) && (a.Loop? || a.End?)
    ensures Books(Next(s, a)) == Books(s)
  {
    hide Swept;
  }

  lemma StepCounts(s: State, a: Action, fd: nat)
    requires Inv(s) && Enabled(s, a)
    ensures Gone(Next(s, a), fd) == Gone(s, fd) + (if fd in Closes(s, a) then 1 else 0)
    ensures JoinedNow(Next(s, a), fd) == JoinedNow(s, fd) + (if fd in Joins(s, a) then 1 else 0)
  {
    hide SlotsOk, Owned, Busy, Progress, Wakes, Gaps, Closes, Joins;
    hide LoopNext, EndNext, ReapNext, DoorNext, WorkerNext, FftNext, CallNext, ShutNext;
    match a
    case Reap(x) => ReapCounts(s, x, fd);
    case Door(x) => DoorCounts(s, x, fd);
    case _ => NoEffect(s, a); BooksKept(s, a);
  }

  ghost function CloseCount(s: State, acts: seq<Action>, t: State, fd: nat): nat
    requires Run(s, acts, t)
    decreases |acts|
  {
    if acts == [] then 0
    else (if fd in Closes(s, acts[0]) then 1 else 0) + CloseCount(Next(s, acts[0]), acts[1..], t, fd)
  }

  ghost function JoinCount(s: State, acts: seq<Action>, t: State, fd: nat): nat
    requires Run(s, acts, t)
    decreases |acts|
  {
    if acts == [] then 0 else (if fd in Joins(s, acts[0]) then 1 else 0) + JoinCount(Next(s, acts[0]), acts[1..], t, fd)
  }

  lemma {:induction false} Counts(s: State, acts: seq<Action>, t: State, fd: nat)
    requires Inv(s) && Run(s, acts, t)
    ensures Gone(s, fd) + CloseCount(s, acts, t, fd) == Gone(t, fd)
    ensures JoinedNow(s, fd) + JoinCount(s, acts, t, fd) == JoinedNow(t, fd)
    decreases |acts|
  {
    hide Inv, Next, Enabled, Closes, Joins, Gone, JoinedNow;
    if acts != [] {
      StepKeeps(s, acts[0]);
      StepCounts(s, acts[0], fd);
      Counts(Next(s, acts[0]), acts[1..], t, fd);
    }
  }

  /** Over a whole run each accepted socket is closed exactly once if it is no longer open and
      not at all otherwise; no thread is joined twice; and a worker whose socket is closed has
      been joined exactly once. */
  lemma ClosedExactlyOnce(s: State, acts: seq<Action>, t: State, fd: nat)
    requires Init(s) && Run(s, acts, t)
    ensures CloseCount(s, acts, t, fd) == if fd < t.nextFd && fd !in t.where then 1 else 0
    ensures JoinCount(s, acts, t, fd) == if fd in t.joined then 1 else 0
    ensures fd in t.created && fd !in t.where ==> JoinCount(s, acts, t, fd) == 1
  {
    hide Next, Enabled, Closes, Joins, Busy, Progress, Wakes, Gaps, SlotsOk;
    InitInv(s);
    RunKeeps(s, acts, t);
    Counts(s, acts, t, fd);
  }

  /** When shutdown frees the server, nothing it started is left: no run loop, no FFT thread, no
      worker, no open client socket; and no step of any of them is possible any more. */
  lemma NothingOutlivesShutdown(s: State, acts: seq<Action>, t: State)
    requires Init(s) && Run(s, acts, t) && t.shut.Freed?
    ensures !t.runActive && t.fft.NoThread? && t.where == map[] && t.count == 0
    ensures forall sl :: sl in t.slots ==> sl.state.Free? && sl.worker.Absent?
    ensures forall a :: Enabled(t, a) ==> a.Call?
  {
    hide Run, Next, Busy;
    InitInv(s);
    RunKeeps(s, acts, t);
    AllFree(t.slots);
  }

  /** A stop request cannot be slept through: once every caller of request_stop has returned,
      poll in the run loop reports the control pipe. */
  lemma StopIsSeen(s: State, acts: seq<Action>, t: State)
    requires Init(s) && Run(s, acts, t) && t.run.Poll? && t.stopping && !StopOwed(t)
    ensures Enabled(t, Loop(PollReady(true)))
  {
    hide Run, Next, Busy, Owned;
    InitInv(s);
    RunKeeps(s, acts, t);
  }

  /** Nor can a finished client: while its slot waits to be reaped and its worker is gone, the
      run loop does not sleep. */
  lemma FinishedClientIsSeen(s: State, acts: seq<Action>, t: State, i: nat)
    requires Init(s) && Run(s, acts, t) && t.run.Poll? && i < MAX_CLIENTS && |t.slots| == MAX_CLIENTS
    requires t.slots[i].state.Done? && t.slots[i].worker.Exited?
    ensures Enabled(t, Loop(PollReady(true)))
  {
    hide Run, Next, Busy, Owned;
    InitInv(s);
    RunKeeps(s, acts, t);
  }

  /** The reaper never waits for a client that is still being served: in the running server it
      joins only workers past their last access to the slot, and at the end every worker it
      joins has exited, is about to, or has had its socket shut down. */
  lemma JoinDoesNotHang(s: State, acts: seq<Action>, t: State)
    requires Init(s) && Run(s, acts, t) && t.run.Join?
    ensures t.run.i < |t.slots| == MAX_CLIENTS
    ensures var sl := t.slots[t.run.i];
            sl.worker.Waking? || sl.worker.Exited? || (t.run.all && Live(sl.worker) && sl.fd in t.down)
  {
    hide Run, Next, Busy, Owned;
    InitInv(s);
    RunKeeps(s, acts, t);
  }

  /** Only one reaper at a time, and shutdown's never finds a client. */
  lemma OneReaper(s: State, acts: seq<Action>, t: State)
    requires Init(s) && Run(s, acts, t)
    ensures !t.shut.ShutJoin? && !t.shut.ShutClose?
    ensures t.shut.ShutScan? ==> !t.run.Scan? && !t.run.Join? && !t.run.Close?
  {
    hide Run, Next, Busy, Owned;
    InitInv(s);
    RunKeeps(s, acts, t);
  }

  /** client_count is the number of slots in use, and a slot is reused only once its last
      socket is closed. */
  lemma CountIsExact(s: State, acts: seq<Action>, t: State, i: nat)
    requires Init(s) && Run(s, acts, t) && i < MAX_CLIENTS
    ensures |t.slots| == MAX_CLIENTS && t.count == Busy(t.slots)
    ensures t.slots[i].state.Free? && t.slots[i].fd in t.where ==> t.where[t.slots[i].fd] != i
  {
    hide Run, Next, Busy;
    InitInv(s);
    RunKeeps(s, acts, t);
  }

  /** After a capture gap no FFT client of an older generation goes on being served: its socket
      has been shut down both ways. */
  lemma GapReachesOldClients(s: State, acts: seq<Action>, t: State, i: nat)
    requires Init(s) && Run(s, acts, t) && i < MAX_CLIENTS && !t.fft.GapSweep?
    ensures |t.slots| == MAX_CLIENTS
    ensures Live(t.slots[i].worker) && t.slots[i].fftMode && t.slots[i].gen != t.gen ==> t.slots[i].fd in t.down
  {
    hide Run, Next, Busy, Owned;
    InitInv(s);
    RunKeeps(s, acts, t);
  }

  /** A capture gap ends every FFT connection that exists: whichever clients are live when the
      generation goes up, the sweep that follows finds them outdated and shuts them down. */
  lemma GapEndsAll(s: State, acts: seq<Action>, t: State, i: nat)
    requires Init(s) && Run(s, acts, t) && t.fft.Working? && i < MAX_CLIENTS
    ensures |t.slots| == MAX_CLIENTS
    ensures Enabled(t, Fft(Gap)) && Enabled(Next(t, Fft(Gap)), Fft(SweepOld))
    ensures Sweepable(t.slots[i]) && t.slots[i].fftMode ==>
              t.slots[i].fd in Next(Next(t, Fft(Gap)), Fft(SweepOld)).down
  {
    hide Run, Busy, Owned;
    InitInv(s);
    RunKeeps(s, acts, t);
  }
}
