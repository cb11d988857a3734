/** `resume`, `pause` and `disconnect` on the session thread against the emulation worker.
    A two-thread protocol: every shared access is one step, and every interleaving of steps is a run. */
module RunControl {
  import opened Text
  import opened Z80

  // What the worker knows about the program it runs; `ends` says on which machines an instruction completes.
  datatype Program = Program(exec: Machine -> Machine, ends: Machine -> bool, breakpoints: set<word>)

  predicate AtBreakpoint(p: Program, m: Machine) { m.regs.pc in p.breakpoints }

  predicate AtHalt(m: Machine) { m.mem[m.regs.pc] == 0x76 }

  // ---- state ----------------------------------------------------------------

  // Where a worker is: the access it performs next.
  datatype WorkerPc =
    | TestRunning | Execute | TestLaunched | TestBreakpoint | TestPause | ClearPause | TestHalt
    | StoreStopped | Report | Finished

  // Why a worker left its loop.
  datatype Cause = StillRunning | NotRunning | NotLaunched | Breakpoint | Paused | Halted

  // A worker with the machine it found and the machine after each instruction it executed.
  datatype Worker = Worker(pc: WorkerPc, start: Machine, states: seq<Machine>, cause: Cause)

  // Where the session thread is: `Ready` between requests, otherwise inside one.
  datatype MainPc =
    | Ready
    | ResumeClearsPause | ResumeExchanges | ResumeJoins | ResumeSpawns
    | PauseStores
    | DisconnectClearsLaunched | DisconnectStores | DisconnectJoins

  datatype Reason = ReasonBreakpoint | ReasonPause

  datatype Event = Instruction(worker: nat) | Stopped(worker: nat, reason: Reason)

  datatype State = State(
    running: bool, pauseRequested: bool, launched: bool,
    main: MainPc, thread: Option<nat>, workers: seq<Worker>,
    machine: Machine, log: seq<Event>)

  datatype Action =
    | Resume | Pause | Disconnect        // a request arrives
    | Step(after: Machine)               // a stepping command changes the machine
    | Launch(program: Machine)
    | Main                               // the session thread performs its next access
    | Work(worker: nat)                  // a worker performs its next access

  ghost predicate Live(w: Worker) { w.pc != Finished }

  ghost predicate InLoop(w: Worker) { w.pc != Report && w.pc != Finished }

  ghost predicate NoneLive(s: State) { forall i :: 0 <= i < |s.workers| ==> !Live(s.workers[i]) }

  ghost function Initial(m: Machine): State {
    State(false, false, false, Ready, None, [], m, [])
  }

  // ---- steps ----------------------------------------------------------------

  /** The client contract is that stepping and launching wait for the stopped event, so those
      two need every worker to be finished; a join waits for the thread it joins, and a worker on an
      instruction that never ends stays there. */
  ghost predicate Enabled(p: Program, s: State, a: Action) {
    match a
    case Resume => s.main == Ready
    case Pause => s.main == Ready
    case Disconnect => s.main == Ready
    case Step(_) => s.main == Ready && NoneLive(s)
    case Launch(_) => s.main == Ready && NoneLive(s)
    case Main =>
      s.main != Ready &&
      (s.main in {ResumeJoins, DisconnectJoins} && s.thread.Some? && s.thread.value < |s.workers|
       ==> !Live(s.workers[s.thread.value]))
    case Work(i) => i < |s.workers| && Live(s.workers[i]) && (s.workers[i].pc == Execute ==> p.ends(s.machine))
  }

  ghost function Perform(p: Program, s: State, a: Action): State
    requires Enabled(p, s, a)
  {
    match a
    case Resume => s.(main := ResumeClearsPause)
    case Pause => s.(main := PauseStores)
    case Disconnect => s.(main := DisconnectClearsLaunched)
    case Step(m) => s.(machine := m)
    case Launch(m) => s.(machine := m, launched := true)
    case Main => PerformMain(s)
    case Work(i) => PerformWork(p, s, i)
  }

  ghost function PerformMain(s: State): State {
    match s.main
    case Ready => s
    case ResumeClearsPause => s.(pauseRequested := false, main := ResumeExchanges)
    case ResumeExchanges => s.(running := true, main := if s.running then Ready else ResumeJoins)
    case ResumeJoins => s.(thread := None, main := ResumeSpawns)
    case ResumeSpawns =>
      s.(workers := s.workers + [Worker(TestRunning, s.machine, [], StillRunning)],
         thread := Some(|s.workers|), main := Ready)
    case PauseStores => s.(pauseRequested := true, main := Ready)
    case DisconnectClearsLaunched => s.(launched := false, main := DisconnectStores)
    case DisconnectStores => s.(running := false, main := DisconnectJoins)
    case DisconnectJoins => s.(thread := None, main := Ready)
  }

  ghost function ReasonOf(c: Cause): Reason {
    if c == Breakpoint then ReasonBreakpoint else ReasonPause
  }

  ghost function PerformWork(p: Program, s: State, i: nat): State
    requires i < |s.workers|
  {
    var w := s.workers[i];
    var s' := s.(workers := s.workers[i := NextWorker(p, s, w)]);
    match w.pc
    case Execute => s'.(machine := p.exec(s.machine), log := s.log + [Instruction(i)])
    case ClearPause => s'.(pauseRequested := false)
    case StoreStopped => s'.(running := false)
    case Report => s'.(log := s.log + [Stopped(i, ReasonOf(w.cause))])
    case _ => s'
  }

  ghost function Leave(w: Worker, c: Cause): Worker {
    w.(pc := StoreStopped, cause := c)
  }

  ghost function NextWorker(p: Program, s: State, w: Worker): Worker {
    match w.pc
    case TestRunning => if s.running then w.(pc := Execute) else Leave(w, NotRunning)
    case Execute => w.(pc := TestLaunched, states := w.states + [p.exec(s.machine)])
    case TestLaunched => if s.launched then w.(pc := TestBreakpoint) else Leave(w, NotLaunched)
    case TestBreakpoint => if AtBreakpoint(p, s.machine) then Leave(w, Breakpoint) else w.(pc := TestPause)
    case TestPause => w.(pc := if s.pauseRequested then ClearPause else TestHalt)
    case ClearPause => Leave(w, Paused)
    case TestHalt => if AtHalt(s.machine) then Leave(w, Halted) else w.(pc := TestRunning)
    case StoreStopped => w.(pc := Report)
    case Report => w.(pc := Finished)
    case Finished => w
  }

  ghost predicate CanRun(p: Program, s: State, acts: seq<Action>)
    decreases |acts|
  {
    acts == [] || (Enabled(p, s, acts[0]) && CanRun(p, Perform(p, s, acts[0]), acts[1..]))
  }

  ghost function After(p: Program, s: State, acts: seq<Action>): State
    requires CanRun(p, s, acts)
    decreases |acts|
  {
    if acts == [] then s else After(p, Perform(p, s, acts[0]), acts[1..])
  }

  // ---- invariant --------------------------------------------------------------

  /** What one worker has put on the log: its instructions, then one stopped event once it is finished. */
  ghost function WorkerLog(i: nat, w: Worker): seq<Event> {
    seq(|w.states|, _ => Instruction(i)) + if w.pc == Finished then [Stopped(i, ReasonOf(w.cause))] else []
  }

  ghost function FullLog(ws: seq<Worker>): seq<Event> {
    if ws == [] then [] else FullLog(ws[..|ws| - 1]) + WorkerLog(|ws| - 1, ws[|ws| - 1])
  }

  ghost function Current(w: Worker): Machine {
    if w.states == [] then w.start else w.states[|w.states| - 1]
  }

  ghost predicate Passed(p: Program, m: Machine) {
    !AtBreakpoint(p, m) && !AtHalt(m)
  }

  /** The last machine of a worker, as far as the checks the worker has made tell. */
  ghost predicate LastOk(p: Program, w: Worker) {
    var m := Current(w);
    match w.pc
    case TestRunning => w.cause == StillRunning && (w.states != [] ==> Passed(p, m))
    case Execute => w.cause == StillRunning && (w.states != [] ==> Passed(p, m))
    case TestLaunched => w.cause == StillRunning && w.states != []
    case TestBreakpoint => w.cause == StillRunning && w.states != []
    case TestPause => w.cause == StillRunning && w.states != [] && !AtBreakpoint(p, m)
    case ClearPause => w.cause == StillRunning && w.states != [] && !AtBreakpoint(p, m)
    case TestHalt => w.cause == StillRunning && w.states != [] && !AtBreakpoint(p, m)
    case _ =>
      match w.cause
      case StillRunning => false
      case NotRunning => w.states != [] ==> Passed(p, m)
      case NotLaunched => w.states != []
      case Breakpoint => w.states != [] && AtBreakpoint(p, m)
      case Paused => w.states != [] && !AtBreakpoint(p, m)
      case Halted => w.states != [] && !AtBreakpoint(p, m) && AtHalt(m)
  }

  /** A worker executes its program instruction by instruction from the machine it found,
      and never goes on from a breakpoint or a HALT that it reached. */
  ghost predicate WorkerOk(p: Program, w: Worker) {
    && (forall k :: 0 <= k < |w.states| ==> w.states[k] == Iterate(p.exec, w.start, k + 1))
    && (forall k :: 0 <= k < |w.states| - 1 ==> Passed(p, w.states[k]))
    && LastOk(p, w)
  }

  ghost predicate Control(s: State) {
    var n := |s.workers|;
    && (forall i :: 0 <= i < n - 1 ==> !Live(s.workers[i]))
    && (s.thread.Some? ==> n > 0 && s.thread.value == n - 1)
    && (s.thread.None? ==> NoneLive(s))
    && (s.main == ResumeSpawns ==> s.thread.None?)
    && (s.main in {ResumeJoins, ResumeSpawns} ==> s.running && (n > 0 ==> !InLoop(s.workers[n - 1])))
    && (s.main in {ResumeExchanges, ResumeJoins, ResumeSpawns} ==> !s.pauseRequested)
    && (s.main in {DisconnectStores, DisconnectJoins} ==> !s.launched)
    && (s.main == DisconnectJoins ==> !s.running)
    && (s.main !in {ResumeJoins, ResumeSpawns, DisconnectJoins} ==>
          (s.running <==> n > 0 && InLoop(s.workers[n - 1])))
  }

  /** Every worker is in order, the last one is in step with the machine, and the log is what they did. */
  ghost predicate Recorded(p: Program, ws: seq<Worker>, machine: Machine, log: seq<Event>) {
    && (forall i :: 0 <= i < |ws| ==> WorkerOk(p, ws[i]))
    && (ws != [] && Live(ws[|ws| - 1]) ==> machine == Current(ws[|ws| - 1]))
    && log == FullLog(ws)
  }

  ghost predicate Inv(p: Program, s: State) {
    Control(s) && Recorded(p, s.workers, s.machine, s.log)
  }

  lemma InitialInv(p: Program, m: Machine)
    ensures Inv(p, Initial(m))
  {
  }

  lemma SpawnKeepsLog(ws: seq<Worker>, w: Worker)
    requires w.states == [] && w.pc != Finished
    ensures FullLog(ws + [w]) == FullLog(ws)
  {
    assert (ws + [w])[..|ws|] == ws;
  }

  lemma LastLog(ws: seq<Worker>, w: Worker)
    requires ws != []
    ensures FullLog(ws[|ws| - 1 := w]) == FullLog(ws[..|ws| - 1]) + WorkerLog(|ws| - 1, w)
  {
    assert ws[|ws| - 1 := w][..|ws| - 1] == ws[..|ws| - 1];
  }

  lemma {:induction false} MainKeepsControl(p: Program, s: State)
    requires Control(s) && Enabled(p, s, Main)
    ensures Control(PerformMain(s))
  {
  }

  lemma {:induction false} SpawnKeepsWorkers(p: Program, ws: seq<Worker>, w: Worker)
    requires WorkerOk(p, w) && forall i :: 0 <= i < |ws| ==> WorkerOk(p, ws[i])
    ensures forall i :: 0 <= i < |ws + [w]| ==> WorkerOk(p, (ws + [w])[i])
  {
    forall i | 0 <= i < |ws + [w]| ensures WorkerOk(p, (ws + [w])[i]) {
      assert (ws + [w])[i] == if i < |ws| then ws[i] else w;
    }
  }

  lemma {:induction false} SpawnKeepsRecord(p: Program, ws: seq<Worker>, machine: Machine, log: seq<Event>)
    requires Recorded(p, ws, machine, log)
    ensures Recorded(p, ws + [Worker(TestRunning, machine, [], StillRunning)], machine, log)
  {
    var w := Worker(TestRunning, machine, [], StillRunning);
    SpawnKeepsLog(ws, w);
    SpawnKeepsWorkers(p, ws, w);
  }

  lemma {:induction false} MainKeepsInv(p: Program, s: State)
    requires Inv(p, s) && Enabled(p, s, Main)
    ensures Inv(p, PerformMain(s))
  {
    MainKeepsControl(p, s);
    SpawnKeepsRecord(p, s.workers, s.machine, s.log);
  }

  lemma {:induction false} WorkKeepsControl(p: Program, s: State, i: nat)
    requires Control(s) && Enabled(p, s, Work(i))
    ensures i == |s.workers| - 1
    ensures Control(PerformWork(p, s, i))
  {
  }

  lemma {:induction false} ExecuteKeepsWorker(p: Program, s: State, w: Worker)
    requires w.pc == Execute && WorkerOk(p, w) && s.machine == Current(w)
    ensures var w' := NextWorker(p, s, w); WorkerOk(p, w') && p.exec(s.machine) == Current(w')
  {
    assert s.machine == Iterate(p.exec, w.start, |w.states|);
    var w' := NextWorker(p, s, w);
    assert forall k :: 0 <= k < |w.states| ==> w'.states[k] == w.states[k];
  }

  lemma {:induction false} TestKeepsWorker(p: Program, s: State, w: Worker)
    requires w.pc != Execute && WorkerOk(p, w) && s.machine == Current(w)
    ensures var w' := NextWorker(p, s, w); WorkerOk(p, w') && s.machine == Current(w')
  {
    var w' := NextWorker(p, s, w);
    assert w'.states == w.states && w'.start == w.start;
    assert LastOk(p, w');
  }

  /** What the next access of a worker adds to the log. */
  ghost function Logged(i: nat, w: Worker): seq<Event> {
    if w.pc == Execute then [Instruction(i)]
    else if w.pc == Report then [Stopped(i, ReasonOf(w.cause))]
    else []
  }

  lemma NextWorkerLog(p: Program, s: State, w: Worker, i: nat)
    requires Live(w)
    ensures WorkerLog(i, NextWorker(p, s, w)) == WorkerLog(i, w) + Logged(i, w)
  {
  }

  lemma {:induction false} WorkLogs(p: Program, s: State, i: nat)
    requires Enabled(p, s, Work(i))
    ensures var s' := PerformWork(p, s, i);
      && s'.workers == s.workers[i := NextWorker(p, s, s.workers[i])]
      && s'.log == s.log + Logged(i, s.workers[i])
  {
  }

  lemma {:induction false} WorkKeepsLog(p: Program, s: State, i: nat)
    requires i == |s.workers| - 1 && Enabled(p, s, Work(i)) && s.log == FullLog(s.workers)
    ensures var s' := PerformWork(p, s, i); s'.log == FullLog(s'.workers)
  {
    var w := s.workers[i];
    WorkLogs(p, s, i);
    NextWorkerLog(p, s, w, i);
    LastLog(s.workers, w);
    LastLog(s.workers, NextWorker(p, s, w));
    assert s.workers[i := w] == s.workers;
    Assoc(FullLog(s.workers[..i]), WorkerLog(i, w), Logged(i, w));
  }

  lemma {:induction false} WorkKeepsWorkers(p: Program, ws: seq<Worker>, ws': seq<Worker>, i: nat, w: Worker)
    requires i < |ws| && ws' == ws[i := w]
    requires WorkerOk(p, w) && forall k :: 0 <= k < |ws| ==> WorkerOk(p, ws[k])
    ensures forall k :: 0 <= k < |ws'| ==> WorkerOk(p, ws'[k])
  {
    forall k | 0 <= k < |ws'| ensures WorkerOk(p, ws'[k]) {
      assert ws'[k] == if k == i then w else ws[k];
    }
  }

  lemma {:induction false} NextKeepsWorker(p: Program, s: State, i: nat)
    requires i < |s.workers| && WorkerOk(p, s.workers[i]) && s.machine == Current(s.workers[i])
    ensures var w' := NextWorker(p, s, s.workers[i]);
      WorkerOk(p, w') && PerformWork(p, s, i).machine == Current(w')
  {
    if s.workers[i].pc == Execute {
      ExecuteKeepsWorker(p, s, s.workers[i]);
    } else {
      TestKeepsWorker(p, s, s.workers[i]);
    }
  }

  lemma {:induction false} WorkKeepsRecord(p: Program, s: State, i: nat)
    requires Recorded(p, s.workers, s.machine, s.log) && i == |s.workers| - 1 && Enabled(p, s, Work(i))
    ensures var s' := PerformWork(p, s, i); Recorded(p, s'.workers, s'.machine, s'.log)
  {
    WorkKeepsLog(p, s, i);
    WorkLogs(p, s, i);
    NextKeepsWorker(p, s, i);
    WorkKeepsWorkers(p, s.workers, PerformWork(p, s, i).workers, i, NextWorker(p, s, s.workers[i]));
  }

  lemma {:induction false} WorkKeepsInv(p: Program, s: State, i: nat)
    requires Inv(p, s) && Enabled(p, s, Work(i))
    ensures Inv(p, PerformWork(p, s, i))
  {
    WorkKeepsControl(p, s, i);
    WorkKeepsRecord(p, s, i);
  }

  lemma {:induction false} ActionKeepsInv(p: Program, s: State, a: Action)
    requires Inv(p, s) && Enabled(p, s, a)
    ensures Inv(p, Perform(p, s, a))
  {
    match a
    case Main => MainKeepsInv(p, s);
    case Work(i) => WorkKeepsInv(p, s, i);
    case _ =>
  }

  lemma {:induction false} RunKeepsInv(p: Program, s: State, acts: seq<Action>)
    requires Inv(p, s) && CanRun(p, s, acts)
    ensures Inv(p, After(p, s, acts))
    decreases |acts|
  {
    if acts != [] {
      ActionKeepsInv(p, s, acts[0]);
      RunKeepsInv(p, Perform(p, s, acts[0]), acts[1..]);
    }
  }
}
