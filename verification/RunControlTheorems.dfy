/** What the run-control protocol guarantees over every interleaving. */
module RunControlTheorems {
  import opened Text
  import opened Z80
  import opened RunControl

  ghost predicate Reachable(p: Program, s: State) {
    exists m: Machine, acts: seq<Action> :: CanRun(p, Initial(m), acts) && After(p, Initial(m), acts) == s
  }

  lemma ReachableInv(p: Program, s: State)
    requires Reachable(p, s)
    ensures Inv(p, s)
  {
    var m: Machine, acts: seq<Action> :| CanRun(p, Initial(m), acts) && After(p, Initial(m), acts) == s;
    InitialInv(p, m);
    RunKeepsInv(p, Initial(m), acts);
  }

  lemma {:induction false} OneMore(p: Program, s: State, acts: seq<Action>, a: Action)
    requires CanRun(p, s, acts) && Enabled(p, After(p, s, acts), a)
    ensures CanRun(p, s, acts + [a]) && After(p, s, acts + [a]) == Perform(p, After(p, s, acts), a)
    decreases |acts|
  {
    if acts == [] {
      assert acts + [a] == [a] && [a][1..] == [];
    } else {
      assert (acts + [a])[1..] == acts[1..] + [a];
      OneMore(p, Perform(p, s, acts[0]), acts[1..], a);
    }
  }

  lemma {:induction false} ReachNext(p: Program, s: State, a: Action)
    requires Reachable(p, s) && Enabled(p, s, a)
    ensures Reachable(p, Perform(p, s, a))
  {
    var m: Machine, acts: seq<Action> :| CanRun(p, Initial(m), acts) && After(p, Initial(m), acts) == s;
    OneMore(p, Initial(m), acts, a);
  }

  // ---- one worker at a time -----------------------------------------------------

  lemma AtMostOneLiveWorker(p: Program, s: State, i: nat, j: nat)
    requires Reachable(p, s)
    requires i < |s.workers| && j < |s.workers| && Live(s.workers[i]) && Live(s.workers[j])
    ensures i == j
  {
    ReachableInv(p, s);
  }

  /** From the exchange that returned false until the new thread exists, no worker is inside its
      loop, so raising the flag revives none; and the pause flag is down when the thread starts. */
  lemma {:induction false} ExchangeRevivesNoWorker(p: Program, s: State)
    requires Reachable(p, s)
    requires (s.main == ResumeExchanges && !s.running) || s.main in {ResumeJoins, ResumeSpawns}
    ensures forall i :: 0 <= i < |s.workers| ==> !InLoop(s.workers[i])
    ensures !s.pauseRequested
  {
    ReachableInv(p, s);
  }

  ghost predicate LeftAsIn(s: State, s': State, i: nat) {
    && i < |s.workers| <= |s'.workers| && !InLoop(s'.workers[i])
    && s'.workers[i].states == s.workers[i].states && s'.workers[i].cause == s.workers[i].cause
  }

  lemma LeftLoopStep(p: Program, s: State, a: Action, i: nat)
    requires Enabled(p, s, a) && i < |s.workers| && !InLoop(s.workers[i])
    ensures LeftAsIn(s, Perform(p, s, a), i)
  {
  }

  /** A worker that has left its loop executes nothing more, whatever happens next. */
  lemma {:induction false} LeftLoopForGood(p: Program, s: State, acts: seq<Action>, i: nat)
    requires CanRun(p, s, acts) && i < |s.workers| && !InLoop(s.workers[i])
    ensures LeftAsIn(s, After(p, s, acts), i)
    decreases |acts|
  {
    if acts != [] {
      LeftLoopStep(p, s, acts[0], i);
      LeftLoopForGood(p, Perform(p, s, acts[0]), acts[1..], i);
    }
  }

  // ---- the event log --------------------------------------------------------------

  ghost predicate RunByRun(log: seq<Event>, n: nat) {
    && (forall k :: 0 <= k < |log| ==> log[k].worker < n)
    && (forall j, k :: 0 <= j < k < |log| ==> log[j].worker <= log[k].worker)
    && (forall j, k :: 0 <= j < k < |log| && log[j].Stopped? ==> log[j].worker < log[k].worker)
  }

  lemma {:induction false} AppendRun(log: seq<Event>, n: nat, w: Worker)
    requires RunByRun(log, n)
    ensures RunByRun(log + WorkerLog(n, w), n + 1)
  {
    var latest := WorkerLog(n, w);
    assert forall k :: 0 <= k < |latest| ==> latest[k].worker == n && (latest[k].Stopped? ==> k == |latest| - 1);
  }

  lemma {:induction false} FullLogRunByRun(ws: seq<Worker>)
    ensures RunByRun(FullLog(ws), |ws|)
  {
    if ws != [] {
      var init := ws[..|ws| - 1];
      FullLogRunByRun(init);
      AppendRun(FullLog(init), |ws| - 1, ws[|ws| - 1]);
    }
  }

  lemma {:induction false} FullLogStops(ws: seq<Worker>, i: nat)
    requires i < |ws|
    ensures ws[i].pc == Finished <==> Stopped(i, ReasonOf(ws[i].cause)) in FullLog(ws)
    ensures forall r :: Stopped(i, r) in FullLog(ws) ==> r == ReasonOf(ws[i].cause)
  {
    var init := ws[..|ws| - 1];
    FullLogRunByRun(init);
    var before, latest := FullLog(init), WorkerLog(|ws| - 1, ws[|ws| - 1]);
    assert FullLog(ws) == before + latest;
    if i < |ws| - 1 {
      FullLogStops(init, i);
      assert forall r :: Stopped(i, r) !in latest;
    } else {
      assert forall r :: Stopped(i, r) !in before;
      if ws[i].pc == Finished {
        assert latest[|latest| - 1] == Stopped(i, ReasonOf(ws[i].cause));
        assert Stopped(i, ReasonOf(ws[i].cause)) in latest;
      }
    }
  }

  /** A worker reports exactly one stopped event, when it is finished and not before; and that event
      precedes every instruction (and every stopped event) of every later run. */
  lemma {:induction false} OneStoppedEventPerRun(p: Program, s: State, i: nat)
    requires Reachable(p, s) && i < |s.workers|
    ensures s.workers[i].pc == Finished <==>
      exists k :: 0 <= k < |s.log| && s.log[k] == Stopped(i, ReasonOf(s.workers[i].cause))
    ensures forall j, k | 0 <= j < |s.log| && 0 <= k < |s.log| && j != k && s.log[j].Stopped? ::
      s.log[j].worker == i && s.log[k].worker == i ==> s.log[k].Instruction? && k < j
    ensures forall j, k | 0 <= j < |s.log| && 0 <= k < |s.log| && s.log[j].Stopped? ::
      s.log[j].worker == i && s.log[k].worker > i ==> j < k
  {
    ReachableInv(p, s);
    FullLogStops(s.workers, i);
    FullLogRunByRun(s.workers);
  }

  // ---- where a run stops -----------------------------------------------------------

  /** A finished run executed its program from the machine it found and went on exactly while no
      breakpoint and no HALT was reached.  It reports a breakpoint only at one; the converse fails
      only when the target was no longer launched; and it ends without any instruction only when the
      running flag was cleared before it started. */
  lemma {:induction false} RunStopsAtFirstStop(p: Program, s: State, i: nat)
    requires Reachable(p, s) && i < |s.workers| && s.workers[i].pc == Finished
    ensures var w := s.workers[i];
      && (forall k :: 0 <= k < |w.states| ==> w.states[k] == Iterate(p.exec, w.start, k + 1))
      && (forall k :: 0 <= k < |w.states| - 1 ==> Passed(p, w.states[k]))
      && (w.states == [] ==> w.cause == NotRunning)
      && (w.states != [] && w.cause != NotLaunched ==>
            (ReasonOf(w.cause) == ReasonBreakpoint <==> AtBreakpoint(p, Current(w))))
      && (w.cause in {Breakpoint, Halted} ==> !Passed(p, Current(w)))
      && (w.cause == NotRunning && w.states != [] ==> Passed(p, Current(w)))
  {
    ReachableInv(p, s);
  }

  /** Nobody pauses, disconnects, steps or launches; repeated resumes are harmless. */
  ghost predicate Undisturbed(acts: seq<Action>) {
    forall a :: a in acts ==> a in {Resume, Main} || a.Work?
  }

  ghost predicate Quiet(s: State, n: nat, m: Machine) {
    && s.launched
    && s.main in {Ready, ResumeClearsPause, ResumeExchanges, ResumeJoins, ResumeSpawns}
    && n <= |s.workers|
    && (|s.workers| == n ==> s.machine == m)
    && (|s.workers| > n ==> !s.pauseRequested && s.workers[n].start == m)
    && (forall i :: n <= i < |s.workers| ==>
          s.workers[i].pc != ClearPause && s.workers[i].cause in {StillRunning, Breakpoint, Halted})
  }

  lemma QuietMain(p: Program, s: State, n: nat, m: Machine)
    requires Control(s) && Quiet(s, n, m) && Enabled(p, s, Main)
    requires |s.workers| == n ==> NoneLive(s)
    ensures var s' := PerformMain(s); Quiet(s', n, m) && (|s'.workers| == n ==> NoneLive(s'))
  {
  }

  lemma QuietWorker(p: Program, s: State, w: Worker)
    requires s.launched && !s.pauseRequested && LastOk(p, w) && Live(w)
    requires w.pc == TestRunning ==> s.running
    requires w.pc != ClearPause && w.cause in {StillRunning, Breakpoint, Halted}
    ensures var w' := NextWorker(p, s, w);
      w'.start == w.start && w'.pc != ClearPause && w'.cause in {StillRunning, Breakpoint, Halted}
  {
  }

  lemma QuietWork(p: Program, s: State, n: nat, m: Machine, i: nat)
    requires Inv(p, s) && Quiet(s, n, m) && Enabled(p, s, Work(i))
    requires |s.workers| == n ==> NoneLive(s)
    ensures var s' := PerformWork(p, s, i); Quiet(s', n, m) && (|s'.workers| == n ==> NoneLive(s'))
  {
    QuietWorker(p, s, s.workers[i]);
  }

  lemma QuietStep(p: Program, s: State, n: nat, m: Machine, a: Action)
    requires Inv(p, s) && Quiet(s, n, m) && Enabled(p, s, a) && (a in {Resume, Main} || a.Work?)
    requires |s.workers| == n ==> NoneLive(s)
    ensures var s' := Perform(p, s, a); Quiet(s', n, m) && (|s'.workers| == n ==> NoneLive(s'))
  {
    match a
    case Main => QuietMain(p, s, n, m);
    case Work(i) => QuietWork(p, s, n, m, i);
    case _ =>
  }

  lemma {:induction false} QuietRun(p: Program, s: State, n: nat, m: Machine, acts: seq<Action>)
    requires Inv(p, s) && Quiet(s, n, m) && CanRun(p, s, acts) && Undisturbed(acts)
    requires |s.workers| == n ==> NoneLive(s)
    ensures var s' := After(p, s, acts); Inv(p, s') && Quiet(s', n, m)
    decreases |acts|
  {
    if acts != [] {
      assert acts[0] in acts;
      QuietStep(p, s, n, m, acts[0]);
      ActionKeepsInv(p, s, acts[0]);
      QuietRun(p, Perform(p, s, acts[0]), n, m, acts[1..]);
    }
  }

  // ---- runs that are paused but not disconnected ---------------------------------------

  /** Launched, no disconnect under way, and every worker since the `n`-th still launched and started. */
  ghost predicate Connected(s: State, n: nat) {
    && s.launched
    && s.main !in {DisconnectClearsLaunched, DisconnectStores, DisconnectJoins}
    && n <= |s.workers|
    && (forall i :: 0 <= i < n ==> !Live(s.workers[i]))
    && (forall i :: n <= i < |s.workers| ==> s.workers[i].cause !in {NotLaunched, NotRunning})
  }

  lemma {:induction false} ConnectedWork(p: Program, s: State, n: nat, i: nat)
    requires Inv(p, s) && Connected(s, n) && Enabled(p, s, Work(i))
    ensures Connected(PerformWork(p, s, i), n)
  {
    var w := s.workers[i];
    assert WorkerOk(p, w);
    assert w.pc == TestRunning ==> s.running;
  }

  lemma {:induction false} ConnectedStep(p: Program, s: State, n: nat, a: Action)
    requires Inv(p, s) && Connected(s, n) && Enabled(p, s, a) && a != Disconnect
    ensures Connected(Perform(p, s, a), n)
  {
    match a
    case Work(i) => ConnectedWork(p, s, n, i);
    case _ =>
  }

  lemma {:induction false} ConnectedRun(p: Program, s: State, n: nat, acts: seq<Action>)
    requires Inv(p, s) && Connected(s, n) && CanRun(p, s, acts) && Disconnect !in acts
    ensures Inv(p, After(p, s, acts)) && Connected(After(p, s, acts), n)
    decreases |acts|
  {
    if acts != [] {
      assert acts[0] in acts;
      ConnectedStep(p, s, n, acts[0]);
      ActionKeepsInv(p, s, acts[0]);
      ConnectedRun(p, Perform(p, s, acts[0]), n, acts[1..]);
    }
  }

  /** Whatever is requested short of a disconnect (resumes, pauses, steps, launches, at any moment), every run
      started since executes something, and reports a breakpoint if and only if it ends at one. */
  lemma {:induction false} BreakpointReportedUnlessDisconnected(p: Program, s: State, acts: seq<Action>, i: nat)
    requires Reachable(p, s) && s.main == Ready && NoneLive(s) && s.launched
    requires CanRun(p, s, acts) && Disconnect !in acts
    requires |s.workers| <= i < |After(p, s, acts).workers| && After(p, s, acts).workers[i].pc == Finished
    ensures var w := After(p, s, acts).workers[i];
      w.states != [] && (ReasonOf(w.cause) == ReasonBreakpoint <==> AtBreakpoint(p, Current(w)))
  {
    ReachableInv(p, s);
    ConnectedRun(p, s, |s.workers|, acts);
    assert WorkerOk(p, After(p, s, acts).workers[i]);
  }

  /** The session thread's five steps of a resume that finds no worker. */
  ghost function ResumeActs(n: nat): seq<Action>
    requires n <= 4
  {
    [Resume] + seq(n, _ => Main)
  }

  /** A resume that finds no worker live starts one, on the machine as it is. */
  lemma {:induction false} ResumeSpawnsWorker(p: Program, s: State)
    requires Reachable(p, s) && s.main == Ready && NoneLive(s)
    ensures CanRun(p, s, ResumeActs(4))
    ensures var s' := After(p, s, ResumeActs(4));
      && s'.workers == s.workers + [Worker(TestRunning, s.machine, [], StillRunning)]
      && s'.main == Ready && s'.running && !s'.pauseRequested && s'.launched == s.launched
  {
    ReachableInv(p, s);
    ResumeExchanged(p, s);
    ResumeStep(p, s, 2);
    ResumeStep(p, s, 3);
  }

  lemma {:induction false} ResumeExchanged(p: Program, s: State)
    requires s.main == Ready && !s.running
    ensures CanRun(p, s, ResumeActs(2))
    ensures After(p, s, ResumeActs(2)) == s.(pauseRequested := false, running := true, main := ResumeJoins)
  {
    assert ResumeActs(0) == [] + [Resume];
    OneMore(p, s, [], Resume);
    ResumeStep(p, s, 0);
    ResumeStep(p, s, 1);
  }

  lemma {:induction false} ResumeStep(p: Program, s: State, n: nat)
    requires n < 4 && CanRun(p, s, ResumeActs(n)) && Enabled(p, After(p, s, ResumeActs(n)), Main)
    ensures CanRun(p, s, ResumeActs(n + 1))
    ensures After(p, s, ResumeActs(n + 1)) == PerformMain(After(p, s, ResumeActs(n)))
  {
    assert ResumeActs(n + 1) == ResumeActs(n) + [Main];
    OneMore(p, s, ResumeActs(n), Main);
  }

  // ---- runs that end at a breakpoint and report a pause -------------------------------

  /** A session with one worker, for the examples. */
  ghost function OneWorker(running: bool, launched: bool, main: MainPc, w: Worker, machine: Machine, log: seq<Event>): State {
    State(running, false, launched, main, Some(0), [w], machine, log)
  }

  lemma {:induction false} LaunchedAndResumed(p: Program, m: Machine)
    ensures Reachable(p, OneWorker(true, true, Ready, Worker(TestRunning, m, [], StillRunning), m, []))
  {
    var s := Initial(m);
    assert CanRun(p, s, []) && After(p, s, []) == s;
    ReachNext(p, s, Launch(m));
    var s1 := Perform(p, s, Launch(m));
    ReachNext(p, s1, Resume);
    var s2 := Perform(p, s1, Resume);
    ReachNext(p, s2, Main);
    var s3 := Perform(p, s2, Main);
    ReachNext(p, s3, Main);
    var s4 := Perform(p, s3, Main);
    ReachNext(p, s4, Main);
    var s5 := Perform(p, s4, Main);
    ReachNext(p, s5, Main);
    assert Perform(p, s5, Main) == OneWorker(true, true, Ready, Worker(TestRunning, m, [], StillRunning), m, []);
  }

  lemma {:induction false} WorkerMoves(p: Program, running: bool, launched: bool, main: MainPc, w: Worker, machine: Machine, log: seq<Event>)
    requires Reachable(p, OneWorker(running, launched, main, w, machine, log)) && Live(w)
    requires w.pc == Execute ==> p.ends(machine)
    ensures Reachable(p, PerformWork(p, OneWorker(running, launched, main, w, machine, log), 0))
  {
    ReachNext(p, OneWorker(running, launched, main, w, machine, log), Work(0));
  }

  /** A disconnect that arrives while the instruction executes: the run stands at a breakpoint, and reports a
      pause. */
  lemma {:induction false} DisconnectHidesBreakpoint(p: Program, m: Machine)
    requires p.ends(m) && AtBreakpoint(p, p.exec(m))
    ensures var w := Worker(Finished, m, [p.exec(m)], NotLaunched);
      && AtBreakpoint(p, Current(w))
      && Reachable(p, OneWorker(false, false, DisconnectStores, w, p.exec(m), [Instruction(0), Stopped(0, ReasonPause)]))
  {
    var next := p.exec(m);
    LaunchedAndResumed(p, m);
    WorkerMoves(p, true, true, Ready, Worker(TestRunning, m, [], StillRunning), m, []);
    assert PerformWork(p, OneWorker(true, true, Ready, Worker(TestRunning, m, [], StillRunning), m, []), 0)
        == OneWorker(true, true, Ready, Worker(Execute, m, [], StillRunning), m, []);
    var s := OneWorker(true, true, Ready, Worker(Execute, m, [], StillRunning), m, []);
    ReachNext(p, s, Disconnect);
    ReachNext(p, Perform(p, s, Disconnect), Main);
    assert Perform(p, Perform(p, s, Disconnect), Main)
        == OneWorker(true, false, DisconnectStores, Worker(Execute, m, [], StillRunning), m, []);
    WorkerMoves(p, true, false, DisconnectStores, Worker(Execute, m, [], StillRunning), m, []);
    LeavesNotLaunched(p, m);
  }

  lemma {:induction false} LeavesNotLaunched(p: Program, m: Machine)
    requires Reachable(p, PerformWork(p, OneWorker(true, false, DisconnectStores, Worker(Execute, m, [], StillRunning), m, []), 0))
    ensures Reachable(p, OneWorker(false, false, DisconnectStores, Worker(Finished, m, [p.exec(m)], NotLaunched), p.exec(m),
                                   [Instruction(0), Stopped(0, ReasonPause)]))
  {
    var next, log := p.exec(m), [Instruction(0)];
    assert [] + [next] == [next] && [] + log == log;
    assert PerformWork(p, OneWorker(true, false, DisconnectStores, Worker(Execute, m, [], StillRunning), m, []), 0)
        == OneWorker(true, false, DisconnectStores, Worker(TestLaunched, m, [next], StillRunning), next, log);
    WorkerMoves(p, true, false, DisconnectStores, Worker(TestLaunched, m, [next], StillRunning), next, log);
    assert PerformWork(p, OneWorker(true, false, DisconnectStores, Worker(TestLaunched, m, [next], StillRunning), next, log), 0)
        == OneWorker(true, false, DisconnectStores, Worker(StoreStopped, m, [next], NotLaunched), next, log);
    Finishes(p, true, false, DisconnectStores, m, [next], NotLaunched, next, log);
  }

  lemma {:induction false} Finishes(p: Program, running: bool, launched: bool, main: MainPc, m: Machine,
                                    states: seq<Machine>, cause: Cause, machine: Machine, log: seq<Event>)
    requires Reachable(p, OneWorker(running, launched, main, Worker(StoreStopped, m, states, cause), machine, log))
    ensures Reachable(p, OneWorker(false, launched, main, Worker(Finished, m, states, cause), machine,
                                   log + [Stopped(0, ReasonOf(cause))]))
  {
    var stopping, reporting := Worker(StoreStopped, m, states, cause), Worker(Report, m, states, cause);
    WorkerMoves(p, running, launched, main, stopping, machine, log);
    assert PerformWork(p, OneWorker(running, launched, main, stopping, machine, log), 0)
        == OneWorker(false, launched, main, reporting, machine, log);
    WorkerMoves(p, false, launched, main, reporting, machine, log);
    assert PerformWork(p, OneWorker(false, launched, main, reporting, machine, log), 0)
        == OneWorker(false, launched, main, Worker(Finished, m, states, cause), machine, log + [Stopped(0, ReasonOf(cause))]);
  }

  /** A disconnect that arrives before the first instruction: the run ends where it was resumed, at a
      breakpoint or not, and reports a pause. */
  lemma {:induction false} DisconnectBeforeFirstInstruction(p: Program, m: Machine)
    ensures Reachable(p, OneWorker(false, false, DisconnectJoins, Worker(Finished, m, [], NotRunning), m,
                                   [Stopped(0, ReasonPause)]))
  {
    var w := Worker(TestRunning, m, [], StillRunning);
    var s := OneWorker(true, true, Ready, w, m, []);
    LaunchedAndResumed(p, m);
    ReachNext(p, s, Disconnect);
    var s1 := Perform(p, s, Disconnect);
    ReachNext(p, s1, Main);
    var s2 := Perform(p, s1, Main);
    ReachNext(p, s2, Main);
    assert Perform(p, s2, Main) == OneWorker(false, false, DisconnectJoins, w, m, []);
    WorkerMoves(p, false, false, DisconnectJoins, w, m, []);
    assert PerformWork(p, OneWorker(false, false, DisconnectJoins, w, m, []), 0)
        == OneWorker(false, false, DisconnectJoins, Worker(StoreStopped, m, [], NotRunning), m, []);
    Finishes(p, false, false, DisconnectJoins, m, [], NotRunning, m, []);
  }

  /** A disconnect that arrives while the worker is at an instruction that never ends. */
  ghost function WaitsForWorker(m: Machine): State {
    OneWorker(false, false, DisconnectJoins, Worker(Execute, m, [], StillRunning), m, [])
  }

  lemma {:induction false} DisconnectFindsWorker(p: Program, m: Machine)
    ensures Reachable(p, WaitsForWorker(m))
  {
    var starting, executing := Worker(TestRunning, m, [], StillRunning), Worker(Execute, m, [], StillRunning);
    LaunchedAndResumed(p, m);
    WorkerMoves(p, true, true, Ready, starting, m, []);
    var s := OneWorker(true, true, Ready, executing, m, []);
    assert PerformWork(p, OneWorker(true, true, Ready, starting, m, []), 0) == s;
    ReachNext(p, s, Disconnect);
    var s1 := Perform(p, s, Disconnect);
    ReachNext(p, s1, Main);
    var s2 := Perform(p, s1, Main);
    ReachNext(p, s2, Main);
    assert Perform(p, s2, Main) == WaitsForWorker(m);
  }

  // ---- runs nobody disturbs ----------------------------------------------------------------

  /** A run nobody disturbs is the sequential one: at least one instruction, even from a breakpoint,
      then on to the earliest machine that is a breakpoint or a HALT, and the reason says which. */
  lemma {:induction false} UndisturbedRunIsSequential(p: Program, s: State, acts: seq<Action>)
    requires Reachable(p, s) && s.main == Ready && NoneLive(s) && s.launched
    requires CanRun(p, s, acts) && Undisturbed(acts)
    requires |After(p, s, acts).workers| > |s.workers| && After(p, s, acts).workers[|s.workers|].pc == Finished
    ensures var w := After(p, s, acts).workers[|s.workers|]; var n := |w.states|;
      && n > 0
      && Current(w) == Iterate(p.exec, s.machine, n)
      && (Current(w).regs.pc in p.breakpoints || Current(w).mem[Current(w).regs.pc] == 0x76)
      && (forall k :: 1 <= k < n ==>
            var now := Iterate(p.exec, s.machine, k); now.regs.pc !in p.breakpoints && now.mem[now.regs.pc] != 0x76)
      && (ReasonOf(w.cause) == ReasonBreakpoint <==> Current(w).regs.pc in p.breakpoints)
  {
    ReachableInv(p, s);
    QuietRun(p, s, |s.workers|, s.machine, acts);
    var w := After(p, s, acts).workers[|s.workers|];
    forall k | 1 <= k < |w.states| ensures Passed(p, Iterate(p.exec, s.machine, k)) {
      assert w.states[k - 1] == Iterate(p.exec, w.start, k);
    }
  }

  // ---- pause --------------------------------------------------------------------------

  ghost function WorkCount(acts: seq<Action>): nat {
    if acts == [] then 0 else (if acts[0].Work? then 1 else 0) + WorkCount(acts[1..])
  }

  ghost predicate Resuming(s: State) {
    s.main in {ResumeClearsPause, ResumeExchanges, ResumeJoins, ResumeSpawns}
  }

  /** How many more accesses a worker that cannot go round its loop again may make. */
  ghost function PauseRank(pc: WorkerPc): nat {
    match pc
    case TestHalt => 9
    case TestRunning => 8
    case Execute => 7
    case TestLaunched => 6
    case TestBreakpoint => 5
    case TestPause => 4
    case ClearPause => 3
    case StoreStopped => 2
    case Report => 1
    case Finished => 0
  }

  ghost function MayBegin(pc: WorkerPc): nat {
    if pc in {TestHalt, TestRunning, Execute} then 1 else 0
  }

  ghost predicate PausePending(s: State) {
    !Resuming(s) && (PauseRank(LastPc(s)) > 3 ==> s.pauseRequested)
  }

  ghost function LastPc(s: State): WorkerPc {
    if s.workers == [] then Finished else s.workers[|s.workers| - 1].pc
  }

  /** The last worker is at an instruction that never ends. */
  ghost predicate Stuck(p: Program, s: State) {
    LastPc(s) == Execute && !p.ends(s.machine)
  }

  ghost function Executed(s: State): nat {
    if s.workers == [] then 0 else |s.workers[|s.workers| - 1].states|
  }

  lemma {:induction false} PauseWork(p: Program, s: State, i: nat)
    requires i == |s.workers| - 1 && PausePending(s) && Enabled(p, s, Work(i))
    ensures var s' := PerformWork(p, s, i);
      && PausePending(s') && |s'.workers| == |s.workers|
      && Executed(s') + MayBegin(LastPc(s')) <= Executed(s) + MayBegin(LastPc(s))
      && PauseRank(LastPc(s')) < PauseRank(LastPc(s))
  {
    assert s.workers[i := NextWorker(p, s, s.workers[i])][i] == NextWorker(p, s, s.workers[i]);
  }

  lemma {:induction false} PauseStep(p: Program, s: State, a: Action)
    requires Control(s) && PausePending(s) && Enabled(p, s, a) && a != Resume
    ensures var s' := Perform(p, s, a);
      && PausePending(s') && |s'.workers| == |s.workers|
      && Executed(s') + MayBegin(LastPc(s')) <= Executed(s) + MayBegin(LastPc(s))
      && (if a.Work? then PauseRank(LastPc(s')) < PauseRank(LastPc(s)) else LastPc(s') == LastPc(s))
  {
    match a
    case Work(i) => PauseWork(p, s, i);
    case _ =>
  }

  lemma {:induction false} PauseRun(p: Program, s: State, acts: seq<Action>)
    requires Inv(p, s) && PausePending(s) && CanRun(p, s, acts) && Resume !in acts
    ensures var s' := After(p, s, acts);
      && |s'.workers| == |s.workers|
      && Executed(s') + MayBegin(LastPc(s')) <= Executed(s) + MayBegin(LastPc(s))
      && WorkCount(acts) + PauseRank(LastPc(s')) <= PauseRank(LastPc(s))
    decreases |acts|
  {
    if acts != [] {
      assert acts[0] in acts;
      PauseStep(p, s, acts[0]);
      ActionKeepsInv(p, s, acts[0]);
      PauseRun(p, Perform(p, s, acts[0]), acts[1..]);
    }
  }

  lemma PauseArrives(s: State)
    requires s.main == PauseStores
    ensures var s' := PerformMain(s);
      PausePending(s') && s'.workers == s.workers && PauseRank(LastPc(s')) <= 9 && MayBegin(LastPc(s')) <= 1
  {
  }

  lemma LastWorks(p: Program, s: State)
    ensures LastPc(s) != Finished ==> (Enabled(p, s, Work(|s.workers| - 1)) <==> !Stuck(p, s))
  {
  }

  /** After a pause request and until the next resume: no new worker, at most one more instruction,
      and the worker is finished after at most nine more accesses of its own, which it can always make unless
      its instruction never ends. */
  lemma {:induction false} PauseStopsWithinOneInstruction(p: Program, s: State, acts: seq<Action>)
    requires Reachable(p, s) && s.main == PauseStores
    requires CanRun(p, PerformMain(s), acts) && Resume !in acts
    ensures var s' := After(p, PerformMain(s), acts);
      && |s'.workers| == |s.workers|
      && Executed(s') <= Executed(s) + 1
      && WorkCount(acts) <= 9
      && (LastPc(s') != Finished ==> (Enabled(p, s', Work(|s'.workers| - 1)) <==> !Stuck(p, s')))
  {
    ReachableInv(p, s);
    ActionKeepsInv(p, s, Main);
    PauseArrives(s);
    PauseRun(p, PerformMain(s), acts);
    LastWorks(p, After(p, PerformMain(s), acts));
  }

  // ---- disconnect -------------------------------------------------------------------------

  ghost function StopRank(pc: WorkerPc): nat {
    match pc
    case Execute => 8
    case TestLaunched => 7
    case TestBreakpoint => 6
    case TestPause => 5
    case TestHalt => 4
    case ClearPause => 3
    case TestRunning => 3
    case StoreStopped => 2
    case Report => 1
    case Finished => 0
  }

  lemma {:induction false} StopWork(p: Program, s: State, i: nat)
    requires i == |s.workers| - 1 && !s.running && Enabled(p, s, Work(i))
    ensures var s' := PerformWork(p, s, i);
      && StopRank(LastPc(s')) < StopRank(LastPc(s)) && !s'.running && s'.main == s.main
      && Executed(s') <= Executed(s) + (if LastPc(s) == Execute then 1 else 0) && LastPc(s') != Execute
  {
    assert s.workers[i := NextWorker(p, s, s.workers[i])][i] == NextWorker(p, s, s.workers[i]);
  }

  lemma {:induction false} JoinMoves(p: Program, s: State)
    requires Inv(p, s) && s.main == DisconnectJoins
    ensures (Enabled(p, s, Main) || exists i :: Enabled(p, s, Work(i))) <==> !Stuck(p, s)
  {
    LastWorks(p, s);
    if i :| Enabled(p, s, Work(i)) {
      WorkKeepsControl(p, s, i);
    }
  }

  lemma {:induction false} JoinStep(p: Program, s: State, a: Action)
    requires Inv(p, s) && s.main == DisconnectJoins && Enabled(p, s, a) && a.Work?
    ensures var s' := Perform(p, s, a);
      && Inv(p, s') && s'.main == DisconnectJoins && !Stuck(p, s) && !Stuck(p, s')
      && StopRank(LastPc(s')) < StopRank(LastPc(s)) && LastPc(s') != Execute
      && Executed(s') <= Executed(s) + (if LastPc(s) == Execute then 1 else 0)
  {
    WorkKeepsInv(p, s, a.worker);
    WorkKeepsControl(p, s, a.worker);
    StopWork(p, s, a.worker);
  }

  lemma {:induction false} JoinRun(p: Program, s: State, acts: seq<Action>)
    requires Inv(p, s) && s.main == DisconnectJoins && CanRun(p, s, acts)
    requires forall a :: a in acts ==> a.Work?
    ensures var s' := After(p, s, acts);
      && Inv(p, s') && s'.main == DisconnectJoins
      && |acts| + StopRank(LastPc(s')) <= StopRank(LastPc(s))
      && Executed(s') <= Executed(s) + (if LastPc(s) == Execute then 1 else 0)
      && (Stuck(p, s) ==> acts == []) && (Stuck(p, s') ==> Stuck(p, s))
    decreases |acts|
  {
    if acts != [] {
      assert acts[0] in acts;
      JoinStep(p, s, acts[0]);
      JoinRun(p, Perform(p, s, acts[0]), acts[1..]);
    }
  }

  /** The join inside `disconnect` comes to an end if and only if the worker is not, when the join begins, on an
      instruction that never ends.  It has at most eight accesses left, of which at most one is an instruction,
      and until the join can proceed somebody can move; a stuck worker makes none of them. */
  lemma {:induction false} DisconnectReturnsIff(p: Program, s: State, acts: seq<Action>)
    requires Reachable(p, s) && s.main == DisconnectJoins && CanRun(p, s, acts)
    requires forall a :: a in acts ==> a.Work?
    ensures |acts| + StopRank(LastPc(After(p, s, acts))) <= StopRank(LastPc(s)) <= 8
    ensures Executed(After(p, s, acts)) <= Executed(s) + (if LastPc(s) == Execute then 1 else 0)
    ensures Stuck(p, s) ==> acts == []
    ensures var s' := After(p, s, acts);
      (Enabled(p, s', Main) || exists i :: Enabled(p, s', Work(i))) <==> !Stuck(p, s)
  {
    ReachableInv(p, s);
    JoinRun(p, s, acts);
    JoinMoves(p, After(p, s, acts));
  }

  lemma {:induction false} StuckStep(p: Program, s: State, a: Action)
    requires Inv(p, s) && Stuck(p, s) && Enabled(p, s, a)
    ensures !a.Work? && s.main != DisconnectJoins
    ensures var s' := Perform(p, s, a); Stuck(p, s') && s'.workers == s.workers && s'.machine == s.machine && s'.log == s.log
  {
  }

  /** An instruction that never ends is never left, whatever is requested: nothing runs and nothing is reported,
      and once a disconnect waits for the worker no request is read any more. */
  lemma {:induction false} StuckForGood(p: Program, s: State, acts: seq<Action>)
    requires Reachable(p, s) && Stuck(p, s) && CanRun(p, s, acts)
    ensures var s' := After(p, s, acts);
      Stuck(p, s') && s'.workers == s.workers && s'.machine == s.machine && s'.log == s.log
    ensures s.main == DisconnectJoins ==> acts == []
    decreases |acts|
  {
    ReachableInv(p, s);
    if acts != [] {
      StuckStep(p, s, acts[0]);
      ReachNext(p, s, acts[0]);
      StuckForGood(p, Perform(p, s, acts[0]), acts[1..]);
    }
  }

  /** Whenever some instruction never ends there is a session that hangs in `disconnect`: nobody can move. */
  lemma {:induction false} EndlessInstructionHangsDisconnect(p: Program, m: Machine)
    requires !p.ends(m)
    ensures var s := WaitsForWorker(m);
      Reachable(p, s) && Stuck(p, s) && forall acts :: CanRun(p, s, acts) ==> acts == []
  {
    var s := WaitsForWorker(m);
    DisconnectFindsWorker(p, m);
    forall acts | CanRun(p, s, acts) ensures acts == [] {
      StuckForGood(p, s, acts);
    }
  }

  ghost predicate AllStopped(s: State) {
    NoneLive(s) && !s.running && !Resuming(s)
  }

  lemma {:induction false} StoppedStays(p: Program, s: State, acts: seq<Action>)
    requires AllStopped(s) && CanRun(p, s, acts) && Resume !in acts
    ensures var s' := After(p, s, acts);
      AllStopped(s') && s'.workers == s.workers && s'.log == s.log && WorkCount(acts) == 0
    decreases |acts|
  {
    if acts != [] {
      assert acts[0] in acts;
      StoppedStays(p, Perform(p, s, acts[0]), acts[1..]);
    }
  }

  /** Once `disconnect` has returned no worker is live, and until a resume arrives no worker starts
      and neither an instruction nor an event is added. */
  lemma {:induction false} DisconnectIsFinal(p: Program, s: State, acts: seq<Action>)
    requires Reachable(p, s) && s.main == DisconnectJoins && Enabled(p, s, Main)
    requires CanRun(p, PerformMain(s), acts) && Resume !in acts
    ensures var s' := After(p, PerformMain(s), acts);
      NoneLive(s') && s'.workers == s.workers && s'.log == s.log && !s'.running
  {
    ReachableInv(p, s);
    StoppedStays(p, PerformMain(s), acts);
  }
}
