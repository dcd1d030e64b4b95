/** What a server that is not told to stop goes on doing (rtlsdr_server_run and accept_client in
    src/rtl_stream_server.c): it keeps polling, listens on both ports in every turn, and admits
    every client for whom there is a slot. */
module Admission {
  import opened Words
  import opened Lifecycle

  // ---- Room ----

  lemma {:induction false} AllBusy(slots: seq<Slot>)
    requires forall i :: 0 <= i < |slots| ==> !slots[i].state.Free?
    ensures Busy(slots) == |slots|
  {
    if slots != [] {
      AllBusy(slots[..|slots| - 1]);
    }
  }

  /** There is a free slot exactly when the count is below the limit. */
  lemma RoomExactly(slots: seq<Slot>)
    ensures FirstFree(slots, 0) < |slots| <==> Busy(slots) < |slots|
  {
    hide Busy;
    var i := FirstFree(slots, 0);
    if i == |slots| {
      AllBusy(slots);
    } else {
      NotAllBusy(slots, i);
    }
  }

  lemma {:induction false} NotAllBusy(slots: seq<Slot>, i: nat)
    requires i < |slots| && slots[i].state.Free?
    ensures Busy(slots) < |slots|
  {
    var n := |slots| - 1;
    if i < n {
      NotAllBusy(slots[..n], i);
    } else {
      BusyBound(slots[..n]);
    }
  }

  lemma {:induction false} BusyBound(slots: seq<Slot>)
    ensures Busy(slots) <= |slots|
  {
    if slots != [] {
      BusyBound(slots[..|slots| - 1]);
    }
  }

  /** A new client with socket fd on this port, as its slot is set up. */
  function NewClient(s: State, port: nat, fd: nat): Slot { Slot(Starting, Begin, fd, port == 1, s.gen) }

  /** u is t with the client in a slot that was free, the lowest of them, and nothing else about
      the clients changed. */
  ghost predicate TakenIn(t: State, u: State, port: nat, fd: nat) {
    && fd in u.where && 0 <= u.where[fd] < |t.slots| && fd in u.created && u.count == t.count + 1
    && var i := u.where[fd];
       && t.slots[i].state.Free? && (forall j :: 0 <= j < i ==> !t.slots[j].state.Free?)
       && u.slots == t.slots[i := NewClient(t, port, fd)]
  }

  /** Admission, exactly: unless the server is stopping, the slots are used up or no thread can be
      made, the client gets the lowest free slot. Otherwise its socket is closed again and the
      slots are as they were. */
  lemma AdmittedExactly(s: State, acts: seq<Action>, t: State, created: bool)
    requires Init(s) && Run(s, acts, t) && t.run.Admitting?
    ensures Enabled(t, Door(Admit(created)))
    ensures var a, u := Door(Admit(created)), Next(t, Door(Admit(created)));
            if !t.stopping && t.count < MAX_CLIENTS && created then
              Closes(t, a) == {} && TakenIn(t, u, t.run.port, t.run.fd)
            else
              Closes(t, a) == {t.run.fd} && t.run.fd !in u.where && u.slots == t.slots && u.count == t.count
  {
    hide Run, Busy, Progress, Wakes, Gaps, Owned;
    InitInv(s);
    RunKeeps(s, acts, t);
    RoomExactly(t.slots);
  }

  /** From listening to a slot: while the server is neither stopping nor retuned and has room, a
      connection on either port is accepted, checked and admitted, in this order. */
  lemma Welcomed(s: State, acts: seq<Action>, t: State) returns (u: State)
    requires Init(s) && Run(s, acts, t) && t.run.Listen? && t.run.port < 2
    requires !t.stopping && t.epoch == 1 && t.count < MAX_CLIENTS
    ensures Run(t, [Door(Accept), Loop(Proceed), Door(Admit(true))], u)
    ensures TakenIn(t, u, t.run.port, t.nextFd) && u.run == Listen(t.run.port + 1)
  {
    var a, b, c := Door(Accept), Loop(Proceed), Door(Admit(true));
    var t1 := Next(t, a);
    var t2 := Next(t1, b);
    u := Next(t2, c);
    ThreeSteps(t, a, b, c);
    assert TakenIn(t, u, t.run.port, t.nextFd) by {
      hide Run, Busy, Progress, Wakes, Gaps, Owned;
      InitInv(s);
      RunKeeps(s, acts, t);
      RoomExactly(t.slots);
    }
  }

  lemma ThreeSteps(t: State, a: Action, b: Action, c: Action)
    requires Enabled(t, a) && Enabled(Next(t, a), b) && Enabled(Next(Next(t, a), b), c)
    ensures Run(t, [a, b, c], Next(Next(Next(t, a), b), c))
  {
    hide Enabled, Next;
    var t1, t2, u := Next(t, a), Next(Next(t, a), b), Next(Next(Next(t, a), b), c);
    assert [c][1..] == [] && [b, c][1..] == [c] && [a, b, c][1..] == [b, c];
    assert Run(u, [], u);
    assert Run(t2, [c], u);
    assert Run(t1, [b, c], u);
  }

  // ---- The loop goes on ----

  /** No call of request_stop or shutdown, and no failure of poll, a listener, the FFT thread's
      creation or its work. */
  predicate Steady(a: Action) {
    match a
    case Loop(PollFailed) => false
    case Loop(ListenFail) => false
    case Loop(SpawnFft(plan, created)) => plan ==> created
    case Fft(GiveUp) => false
    case Call(StopStore) => false
    case Shut(Enter) => false
    case _ => true
  }

  /** The run loop is at its work, or has not been started. */
  predicate AtWork(run: RunPc) {
    match run
    case RunStop(_) => false
    case JoinFft => false
    case Finish => false
    case Ended => false
    case Scan(all, _) => !all
    case Join(all, _) => !all
    case Close(all, _) => !all
    case _ => true
  }

  ghost predicate GoesOn(s: State) {
    && !s.stopping && s.shut.Up? && AtWork(s.run) && !s.fft.FftStop?
    && (s.fft.FftExited? ==> s.epoch != 1)
  }

  lemma StepGoesOn(s: State, a: Action)
    requires GoesOn(s) && Enabled(s, a) && Steady(a) && s.epoch >= 1
    ensures GoesOn(Next(s, a)) && Next(s, a).epoch >= 1
  {
    hide Swept, GapSwept, FirstFree, Passed;
    match a
    case Loop(x) => LoopGoesOn(s, x);
    case Reap(x) => ReapGoesOn(s, x);
    case _ =>
  }

  lemma LoopGoesOn(s: State, a: LoopAct)
    requires GoesOn(s) && LoopEnabled(s, a) && Steady(Loop(a)) && s.epoch >= 1
    ensures GoesOn(LoopNext(s, a)) && LoopNext(s, a).epoch >= 1
  {}

  lemma ReapGoesOn(s: State, a: ReapAct)
    requires GoesOn(s) && ReapEnabled(s, a) && s.epoch >= 1
    ensures GoesOn(ReapNext(s, a)) && ReapNext(s, a).epoch >= 1
  {}

  lemma {:induction false} RunGoesOn(s: State, acts: seq<Action>, t: State)
    requires GoesOn(s) && s.epoch >= 1 && Run(s, acts, t) && forall i :: 0 <= i < |acts| ==> Steady(acts[i])
    ensures GoesOn(t)
    decreases |acts|
  {
    hide GoesOn, Enabled, Next, Steady;
    if acts != [] {
      StepGoesOn(s, acts[0]);
      assert forall i :: 0 <= i < |acts| - 1 ==> acts[1..][i] == acts[i + 1];
      RunGoesOn(Next(s, acts[0]), acts[1..], t);
    }
  }

  /** Nothing but a stop, a shutdown or a failure ends the server: otherwise the run loop is at
      its work, and the FFT thread ends only when the capture is retuned. */
  lemma RunsUntilStopped(s: State, acts: seq<Action>, t: State)
    requires Init(s) && Run(s, acts, t) && forall i :: 0 <= i < |acts| ==> Steady(acts[i])
    ensures !t.stopping && AtWork(t.run) && (t.fft.FftExited? ==> t.epoch != 1)
  {
    hide Run, Steady;
    RunGoesOn(s, acts, t);
  }

  /** Every turn of a running loop that ends its scan listens on the IQ port, then on the FFT
      port, before it polls again. */
  lemma ListensOnBoth(t: State)
    requires !t.stopping && t.run == Scan(false, |t.slots|)
    ensures Enabled(t, Reap(ScanStep)) && Next(t, Reap(ScanStep)) == t.(run := Listen(0))
    ensures forall p: nat :: p < 2 ==>
              && Enabled(t.(run := Listen(p)), Door(Accept))
              && Next(t.(run := Listen(p)), Loop(ListenNext)) == t.(run := Listen(p + 1))
    ensures Next(t.(run := Listen(2)), Loop(ListenNext)) == t.(run := Check)
    ensures Next(t.(run := Check), Loop(CheckStop)) == t.(run := Poll)
  {}

  // ---- After a retune ----

  function Retunes(acts: seq<Action>): nat {
    if acts == [] then 0 else (if acts[0] == Call(Retune) then 1 else 0) + Retunes(acts[1..])
  }

  lemma EpochStep(s: State, a: Action)
    requires Enabled(s, a)
    ensures Next(s, a).epoch == s.epoch + if a == Call(Retune) then 1 else 0
  {
    hide Swept, GapSwept, FirstFree, Passed;
    if a.Loop? || a.Reap? { EpochKept(s, a); }
  }

  lemma EpochKept(s: State, a: Action)
    requires Enabled(s, a) && (a.Loop? || a.Reap?)
    ensures Next(s, a).epoch == s.epoch
  {}

  lemma {:induction false} EpochCounts(s: State, acts: seq<Action>, t: State)
    requires Run(s, acts, t)
    ensures t.epoch == s.epoch + Retunes(acts)
    decreases |acts|
  {
    hide Enabled, Next;
    if acts != [] {
      EpochStep(s, acts[0]);
      EpochCounts(Next(s, acts[0]), acts[1..], t);
    }
  }

  lemma {:induction false} OneRetune(acts: seq<Action>)
    requires Call(Retune) in acts
    ensures Retunes(acts) >= 1
  {
    if acts[0] != Call(Retune) {
      OneRetune(acts[1..]);
    }
  }

  /** Once the capture has been retuned no client is let in any more: none that waits at the door
      passes it, and the FFT thread, when it next looks, ends. */
  lemma ClosedAfterRetune(s: State, acts: seq<Action>, t: State)
    requires Init(s) && Run(s, acts, t) && Call(Retune) in acts
    ensures !Enabled(t, Loop(Proceed))
    ensures t.fft.CheckingEpoch? ==> Next(t, Fft(FftEpoch)).fft == FftExited
  {
    hide Run;
    EpochCounts(s, acts, t);
    OneRetune(acts);
  }
}
