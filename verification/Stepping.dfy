/** Source-level stepping and step-back history. */
module Stepping {
  import opened Text
  import opened Z80
  import opened SourceData

  /** What the stepping loops consult: one complete instruction (`ends` says whether it ever completes), and
      the source index.  `sourceAt` holds C lines, `asmAt` assembly lines. */
  datatype Target = Target(
    exec: Machine -> Machine,
    ends: Machine -> bool,
    sourceAt: word -> Option<Location>,
    asmAt: word -> Option<Location>,
    hasCdb: bool)

  function LookupAny(t: Target, pc: word): Option<Location> {
    if t.sourceAt(pc).Some? then t.sourceAt(pc) else t.asmAt(pc)
  }

  const STEP_LIMIT: nat := 500000
  const STEP_IN_LIMIT: nat := 10000
  const UNMAPPED_LIMIT: nat := 32
  const MAX_HISTORY: nat := 1000

  // ---- instruction classification ------------------------------------------

  function Opcode(m: Machine): byte { m.mem[m.regs.pc] }

  function SecondOpcode(m: Machine): byte {
    if m.regs.pc + 1 < MEMORY_SIZE then m.mem[m.regs.pc + 1] else 0
  }

  /** `op & 0xC7`: the top two and the bottom three bits. */
  function Mask(op: byte): int { (op / 64) * 64 + op % 8 }

  predicate IsCall(op: byte) { op == 0xCD || Mask(op) == 0xC4 || Mask(op) == 0xC7 }

  predicate IsRet(op: byte, op2: byte) {
    op == 0xC9 || Mask(op) == 0xC0 || (op == 0xED && (op2 == 0x4D || op2 == 0x45))
  }

  /** `int16_t` difference of the stack pointer over one instruction. */
  function SpDelta(before: Machine, after: Machine): int {
    Signed(Word(Signed(after.regs.sp) - Signed(before.regs.sp)))
  }

  predicate TakenCall(t: Target, m: Machine) {
    SpDelta(m, t.exec(m)) == -2 && IsCall(Opcode(m))
  }

  predicate TakenRet(t: Target, m: Machine) {
    SpDelta(m, t.exec(m)) == 2 && IsRet(Opcode(m), SecondOpcode(m))
  }

  // ---- the step-over loop as a function -----------------------------------------

  /** `call_depth` after the instruction at `m`. */
  function NextDepth(t: Target, startSp: int, m: Machine, depth: nat): nat {
    var d := if TakenCall(t, m) then depth + 1
             else if TakenRet(t, m) && depth > 0 then depth - 1 else depth;
    if Signed(t.exec(m).regs.sp) >= startSp then 0 else d
  }

  datatype Outcome = Outcome(machine: Machine, count: nat)

  /** The next `n` instructions all end. */
  ghost predicate AllEnd(t: Target, m: Machine, n: nat)
    decreases n, m
  {
    n == 0 || (t.ends(m) && AllEnd(t, t.exec(m), n - 1))
  }

  ghost function StepOverFrom(t: Target, stop: word -> bool, startSp: int, m: Machine, depth: nat, count: nat): Outcome
    decreases STEP_LIMIT - count, m
  {
    if count >= STEP_LIMIT then Outcome(m, count)
    else
      var m' := t.exec(m);
      var depth' := NextDepth(t, startSp, m, depth);
      if depth' == 0 && stop(m'.regs.pc) then Outcome(m', count + 1)
      else StepOverFrom(t, stop, startSp, m', depth', count + 1)
  }

  lemma StepOverNext(t: Target, stop: word -> bool, startSp: int, m: Machine, depth: nat, count: nat)
    requires count < STEP_LIMIT
    ensures var m' := t.exec(m); var depth' := NextDepth(t, startSp, m, depth);
      StepOverFrom(t, stop, startSp, m, depth, count)
      == if depth' == 0 && stop(m'.regs.pc) then Outcome(m', count + 1)
         else StepOverFrom(t, stop, startSp, m', depth', count + 1)
  {
  }

  lemma {:induction false} StepOverCounts(t: Target, stop: word -> bool, startSp: int, m: Machine, depth: nat, count: nat)
    requires count <= STEP_LIMIT
    ensures StepOverFrom(t, stop, startSp, m, depth, count).count >= count
    ensures count < STEP_LIMIT ==> StepOverFrom(t, stop, startSp, m, depth, count).count > count
    decreases STEP_LIMIT - count
  {
    if count < STEP_LIMIT {
      StepOverNext(t, stop, startSp, m, depth, count);
      StepOverCounts(t, stop, startSp, t.exec(m), NextDepth(t, startSp, m, depth), count + 1);
    }
  }

  ghost function StepOver(t: Target, stop: word -> bool, m: Machine): Outcome {
    StepOverFrom(t, stop, Signed(m.regs.sp), m, 0, 0)
  }

  /** A mapped location other than the one the step started on. */
  function Elsewhere(found: Option<Location>, from: Location): bool {
    found.Some? && (found.value.file != from.file || found.value.line != from.line)
  }

  function LeavesSource(t: Target, from: Location): word -> bool {
    (pc: word) => Elsewhere(t.sourceAt(pc), from)
  }

  function LeavesAny(t: Target, from: Location): word -> bool {
    (pc: word) => Elsewhere(LookupAny(t, pc), from)
  }

  // ---- loops that run until a condition ----------------------------------------------

  /** Executes at least one and at most `limit` instructions, up to the first transition that satisfies `stop`. */
  ghost function RunUntil(t: Target, stop: (Machine, Machine) -> bool, m: Machine, limit: nat): (r: Outcome)
    ensures limit > 0 ==> r.count > 0
    decreases limit, m
  {
    if limit == 0 then Outcome(m, 0)
    else if stop(m, t.exec(m)) then Outcome(t.exec(m), 1)
    else
      var rest := RunUntil(t, stop, t.exec(m), limit - 1);
      Outcome(rest.machine, rest.count + 1)
  }

  lemma RunNext(t: Target, stop: (Machine, Machine) -> bool, m: Machine, limit: nat)
    requires limit > 0 && AllEnd(t, m, RunUntil(t, stop, m, limit).count)
    ensures t.ends(m)
    ensures RunUntil(t, stop, m, limit).machine
      == if stop(m, t.exec(m)) then t.exec(m) else RunUntil(t, stop, t.exec(m), limit - 1).machine
    ensures !stop(m, t.exec(m)) ==> AllEnd(t, t.exec(m), RunUntil(t, stop, t.exec(m), limit - 1).count)
  {
  }

  ghost function StopUnmapped(t: Target, entrySp: int): (Machine, Machine) -> bool {
    (m: Machine, m': Machine) => LookupAny(t, m'.regs.pc).Some? || Signed(m'.regs.sp) > entrySp
  }

  ghost function StopReturned(entrySp: int): (Machine, Machine) -> bool {
    (m: Machine, m': Machine) => Signed(m'.regs.sp) > entrySp
  }

  ghost function StopAnyLine(t: Target, from: Location): (Machine, Machine) -> bool {
    (m: Machine, m': Machine) => Elsewhere(LookupAny(t, m'.regs.pc), from)
  }

  /** `step_in` from C: another C line, or an assembly line just entered by a call.  The difference of
      the two `int16_t` values is an `int` here, so it does not wrap. */
  predicate StopsInto(t: Target, from: Location, m: Machine, m': Machine) {
    var loc := t.sourceAt(m'.regs.pc);
    Elsewhere(loc, from)
    || (loc.None? && Signed(m'.regs.sp) - Signed(m.regs.sp) == -2 && IsCall(Opcode(m))
        && LookupAny(t, m'.regs.pc).Some?)
  }

  ghost function StopInto(t: Target, from: Location): (Machine, Machine) -> bool {
    (m: Machine, m': Machine) => StopsInto(t, from, m, m')
  }

  /** The machine that `step` leaves, and how many instructions it executes. */
  ghost function StepOutcome(t: Target, m: Machine): Outcome {
    var loc := LookupAny(t, m.regs.pc);
    if loc.Some? && loc.value.isAsm then StepOver(t, LeavesAny(t, loc.value), m)
    else if loc.Some? then StepOver(t, LeavesSource(t, loc.value), m)
    else RunUntil(t, StopUnmapped(t, Signed(m.regs.sp)), m, UNMAPPED_LIMIT)
  }

  ghost function StepInOutcome(t: Target, m: Machine): Outcome {
    var loc := LookupAny(t, m.regs.pc);
    if loc.Some? && loc.value.isAsm then RunUntil(t, StopAnyLine(t, loc.value), m, STEP_IN_LIMIT)
    else if loc.Some? && t.hasCdb then RunUntil(t, StopInto(t, loc.value), m, STEP_IN_LIMIT)
    else Outcome(t.exec(m), 1)
  }

  ghost function StepOutOutcome(t: Target, m: Machine): Outcome {
    RunUntil(t, StopReturned(Signed(m.regs.sp)), m, STEP_LIMIT)
  }

  /** The bounded history after one more snapshot. */
  function Remember(history: seq<Machine>, m: Machine): seq<Machine> {
    (if |history| >= MAX_HISTORY then history[1..] else history) + [m]
  }

  /** A command as the history sees it: a step of any kind (with the machine it leaves), a step back,
      or a run or a launch, which take no snapshot. */
  datatype Command = Stepped(after: Machine) | Back | Ran(after: Machine)

  datatype Bounded = Bounded(machine: Machine, history: seq<Machine>)

  ghost function Obey(b: Bounded, c: Command): Bounded {
    match c
    case Stepped(m) => Bounded(m, Remember(b.history, b.machine))
    case Ran(m) => b.(machine := m)
    case Back =>
      if b.history == [] then b
      else Bounded(b.history[|b.history| - 1], b.history[..|b.history| - 1])
  }

  // ---- the stepper ---------------------------------------------------------------------

  class Stepper {
    const target: Target
    var machine: Machine
    var history: seq<Machine>

    ghost function State(): Bounded
      reads this
    {
      Bounded(machine, history)
    }

    constructor (target: Target, machine: Machine)
      ensures this.target == target && State() == Bounded(machine, [])
    {
      this.target := target;
      this.machine := machine;
      this.history := [];
    }

    method PushHistory()
      modifies this`history
      ensures history == Remember(old(history), machine)
    {
      if |history| >= MAX_HISTORY {
        history := history[1..];
      }
      history := history + [machine];
    }

    method StepBack()
      modifies this
      ensures State() == Obey(old(State()), Back)
    {
      if history == [] {
        return;
      }
      machine := history[|history| - 1];
      history := history[..|history| - 1];
    }

    method StepInstruction()
      requires target.ends(machine)
      modifies this`machine
      ensures machine == target.exec(old(machine))
    {
      machine := target.exec(machine);
    }

    method StepOverLoop(stop: word -> bool)
      requires AllEnd(target, machine, StepOver(target, stop, machine).count)
      modifies this`machine
      ensures machine == StepOver(target, stop, old(machine)).machine
    {
      var callDepth: nat := 0;
      var startSp := Signed(machine.regs.sp);
      var i := 0;
      while i < STEP_LIMIT
        invariant i <= STEP_LIMIT
        invariant StepOver(target, stop, old(machine))
                  == StepOverFrom(target, stop, startSp, machine, callDepth, i)
        invariant i <= StepOver(target, stop, old(machine)).count
        invariant AllEnd(target, machine, StepOver(target, stop, old(machine)).count - i)
      {
        var op, op2 := Opcode(machine), SecondOpcode(machine);
        ghost var was := machine;
        StepOverCounts(target, stop, startSp, was, callDepth, i);
        StepOverNext(target, stop, startSp, was, callDepth, i);
        ghost var depth := NextDepth(target, startSp, was, callDepth);
        var spBefore := Signed(machine.regs.sp);
        StepInstruction();
        var spAfter := Signed(machine.regs.sp);
        var spDelta := Signed(Word(spAfter - spBefore));
        if spDelta == -2 && IsCall(op) {
          callDepth := callDepth + 1;
        } else if spDelta == 2 && IsRet(op, op2) && callDepth > 0 {
          callDepth := callDepth - 1;
        }
        if spAfter >= startSp {
          callDepth := 0;
        }
        assert callDepth == depth;
        i := i + 1;
        if callDepth > 0 {
          continue;
        }
        if stop(machine.regs.pc) {
          return;
        }
      }
    }

    /** No mapping at the current address: walk on to a mapped one, or out to the caller. */
    method WalkUnmapped()
      requires AllEnd(target, machine,
                      RunUntil(target, StopUnmapped(target, Signed(machine.regs.sp)), machine, UNMAPPED_LIMIT).count)
      modifies this`machine
      ensures machine == RunUntil(target, StopUnmapped(target, Signed(old(machine.regs.sp))), old(machine), UNMAPPED_LIMIT).machine
    {
      var entrySp := Signed(machine.regs.sp);
      ghost var stop := StopUnmapped(target, entrySp);
      ghost var all := RunUntil(target, stop, machine, UNMAPPED_LIMIT).machine;
      var i := 0;
      while i < UNMAPPED_LIMIT
        invariant i <= UNMAPPED_LIMIT
        invariant all == RunUntil(target, stop, machine, UNMAPPED_LIMIT - i).machine
        invariant AllEnd(target, machine, RunUntil(target, stop, machine, UNMAPPED_LIMIT - i).count)
      {
        RunNext(target, stop, machine, UNMAPPED_LIMIT - i);
        StepInstruction();
        i := i + 1;
        if LookupAny(target, machine.regs.pc).Some? {
          break;
        }
        if Signed(machine.regs.sp) > entrySp {
          break;
        }
      }
    }

    /** Like the other two commands it returns when every instruction that it executes does. */
    method Step()
      requires AllEnd(target, machine, StepOutcome(target, machine).count)
      modifies this
      ensures State() == Obey(old(State()), Stepped(StepOutcome(target, old(machine)).machine))
    {
      PushHistory();
      var startPc := machine.regs.pc;
      var startLoc := LookupAny(target, startPc);
      if startLoc.Some? && startLoc.value.isAsm {
        StepOverLoop(LeavesAny(target, startLoc.value));
      } else if startLoc.Some? {
        StepOverLoop(LeavesSource(target, startLoc.value));
      } else {
        WalkUnmapped();
      }
    }

    method StepToAnyLine(from: Location)
      requires AllEnd(target, machine, RunUntil(target, StopAnyLine(target, from), machine, STEP_IN_LIMIT).count)
      modifies this`machine
      ensures machine == RunUntil(target, StopAnyLine(target, from), old(machine), STEP_IN_LIMIT).machine
    {
      ghost var stop := StopAnyLine(target, from);
      ghost var all := RunUntil(target, stop, machine, STEP_IN_LIMIT).machine;
      var i := 0;
      while i < STEP_IN_LIMIT
        invariant i <= STEP_IN_LIMIT
        invariant all == RunUntil(target, stop, machine, STEP_IN_LIMIT - i).machine
        invariant AllEnd(target, machine, RunUntil(target, stop, machine, STEP_IN_LIMIT - i).count)
      {
        RunNext(target, stop, machine, STEP_IN_LIMIT - i);
        StepInstruction();
        i := i + 1;
        if Elsewhere(LookupAny(target, machine.regs.pc), from) {
          break;
        }
      }
    }

    method StepIntoCall(from: Location)
      requires AllEnd(target, machine, RunUntil(target, StopInto(target, from), machine, STEP_IN_LIMIT).count)
      modifies this`machine
      ensures machine == RunUntil(target, StopInto(target, from), old(machine), STEP_IN_LIMIT).machine
    {
      ghost var stop := StopInto(target, from);
      ghost var all := RunUntil(target, stop, machine, STEP_IN_LIMIT).machine;
      var i := 0;
      while i < STEP_IN_LIMIT
        invariant i <= STEP_IN_LIMIT
        invariant all == RunUntil(target, stop, machine, STEP_IN_LIMIT - i).machine
        invariant AllEnd(target, machine, RunUntil(target, stop, machine, STEP_IN_LIMIT - i).count)
      {
        RunNext(target, stop, machine, STEP_IN_LIMIT - i);
        var op := Opcode(machine);
        var spBefore := Signed(machine.regs.sp);
        StepInstruction();
        i := i + 1;
        var newPc := machine.regs.pc;
        var loc := target.sourceAt(newPc);
        if Elsewhere(loc, from) {
          break;
        }
        if loc.None? {
          var enteredCall := Signed(machine.regs.sp) - spBefore == -2 && IsCall(op);
          if enteredCall && LookupAny(target, newPc).Some? {
            break;
          }
        }
      }
    }

    method StepIn()
      requires AllEnd(target, machine, StepInOutcome(target, machine).count)
      modifies this
      ensures State() == Obey(old(State()), Stepped(StepInOutcome(target, old(machine)).machine))
    {
      PushHistory();
      var startPc := machine.regs.pc;
      var startLoc := LookupAny(target, startPc);
      if startLoc.Some? && startLoc.value.isAsm {
        StepToAnyLine(startLoc.value);
      } else if startLoc.Some? && target.hasCdb {
        StepIntoCall(startLoc.value);
      } else {
        StepInstruction();
      }
    }

    method StepOut()
      requires AllEnd(target, machine, StepOutOutcome(target, machine).count)
      modifies this
      ensures State() == Obey(old(State()), Stepped(StepOutOutcome(target, old(machine)).machine))
    {
      PushHistory();
      var entrySp := Signed(machine.regs.sp);
      ghost var stop := StopReturned(entrySp);
      ghost var all := RunUntil(target, stop, machine, STEP_LIMIT).machine;
      var i := 0;
      while i < STEP_LIMIT
        invariant i <= STEP_LIMIT && history == Remember(old(history), old(machine))
        invariant all == RunUntil(target, stop, machine, STEP_LIMIT - i).machine
        invariant AllEnd(target, machine, RunUntil(target, stop, machine, STEP_LIMIT - i).count)
      {
        RunNext(target, stop, machine, STEP_LIMIT - i);
        StepInstruction();
        i := i + 1;
        if Signed(machine.regs.sp) > entrySp {
          break;
        }
      }
    }
  }
}
