/** Where the stepping commands end, said of the machine and the source index themselves. */
module StepLandings {
  import opened Text
  import opened Z80
  import opened SourceData
  import opened Stepping
  import opened StepTheorems

  // ---- which instructions call and return ----------------------------------------------

  /** CALL nn, the eight CALL cc and the eight RST. */
  const CALLS: set<int> := {0xCD, 0xC4, 0xCC, 0xD4, 0xDC, 0xE4, 0xEC, 0xF4, 0xFC, 0xC7, 0xCF, 0xD7, 0xDF, 0xE7, 0xEF, 0xF7, 0xFF}

  /** RET and the eight RET cc. */
  const RETURNS: set<int> := {0xC9, 0xC0, 0xC8, 0xD0, 0xD8, 0xE0, 0xE8, 0xF0, 0xF8}

  lemma {:induction false} CallsAre(op: byte)
    ensures IsCall(op) <==> op in CALLS
  {
    assert op == op / 64 * 64 + op / 8 % 8 * 8 + op % 8;
  }

  lemma {:induction false} ReturnsAre(op: byte, op2: byte)
    ensures IsRet(op, op2) <==> op in RETURNS || (op == 0xED && (op2 == 0x4D || op2 == 0x45))
  {
    assert op == op / 64 * 64 + op / 8 % 8 * 8 + op % 8;
  }

  lemma {:induction false} DeltaIs(before: Machine, after: Machine)
    ensures SpDelta(before, after) == -2 <==> after.regs.sp == Word(before.regs.sp - 2)
    ensures SpDelta(before, after) == 2 <==> after.regs.sp == Word(before.regs.sp + 2)
  {
    var a, b := Signed(before.regs.sp), Signed(after.regs.sp);
    WordCases(b - a);
    WordCases(before.regs.sp as int - 2);
    WordCases(before.regs.sp as int + 2);
  }

  /** A taken call is an instruction of the list that lowers the stack pointer by two, modulo 65536. */
  lemma {:induction false} TakenCallIs(t: Target, m: Machine)
    ensures TakenCall(t, m) <==> m.mem[m.regs.pc] in CALLS && t.exec(m).regs.sp == Word(m.regs.sp - 2)
  {
    CallsAre(Opcode(m));
    DeltaIs(m, t.exec(m));
  }

  /** A taken return raises it by two; RETN and RETI are known by their second byte. */
  lemma {:induction false} TakenRetIs(t: Target, m: Machine)
    ensures var op := m.mem[m.regs.pc];
      TakenRet(t, m) <==>
        && t.exec(m).regs.sp == Word(m.regs.sp + 2)
        && (op in RETURNS || (op == 0xED && m.regs.pc < 0xFFFF && m.mem[m.regs.pc + 1] in {0x45, 0x4D}))
  {
    ReturnsAre(Opcode(m), SecondOpcode(m));
    DeltaIs(m, t.exec(m));
  }

  // ---- step over passes every kind of call and return -----------------------------------------

  lemma CallsAreListed(op: byte, af: word)
    requires Calls(op, af)
    ensures op in CALLS && op >= 0xC0 && (op % 8 == 7 <==> op in {0xC7, 0xCF, 0xD7, 0xDF, 0xE7, 0xEF, 0xF7, 0xFF})
  {
    assert op == op / 64 * 64 + op / 8 % 8 * 8 + op % 8;
  }

  lemma ReturnsAreListed(op: byte, op2: byte, af: word)
    requires Returns(op, op2, af)
    ensures op in RETURNS || (op == 0xED && op2 in {0x45, 0x4D})
    ensures !Calls(op, af)
  {
    assert op == op / 64 * 64 + op / 8 % 8 * 8 + op % 8;
  }

  /** A taken call at `m` (RST, CALL or CALL cc) to a function that is one taken return (RET, RET cc, RETN or
      RETI), with the stack away from both and below 0x8000. */
  ghost predicate CallsReturn(m: Machine, entry: word) {
    var pc, sp, op := m.regs.pc, m.regs.sp, m.mem[m.regs.pc];
    && pc <= 0xFFF0 && entry <= 0xFFF0 && 2 <= sp < 0x8000
    && Calls(op, m.regs.af)
    && entry == (if op % 8 == 7 then op - 0xC7 else m.mem[pc + 1] as int + 0x100 * m.mem[pc + 2] as int)
    && Returns(m.mem[entry], m.mem[entry + 1], m.regs.af)
    && (entry + 1 < sp - 2 || sp <= entry)
  }

  function AfterCall(m: Machine): int { m.regs.pc + if m.mem[m.regs.pc] % 8 == 7 then 1 else 3 }

  lemma PushedWord(mem: seq<byte>, sp: word, w: word)
    requires |mem| == MEMORY_SIZE && 2 <= sp < 0x8000
    ensures WordAt(Pushed(mem, sp, w), sp - 2) == w
    ensures forall a: word :: a < sp - 2 || sp <= a ==> Pushed(mem, sp, w)[a] == mem[a]
  {
    WordCases(sp as int - 1);
    WordCases(sp as int - 2);
  }

  lemma {:induction false} CallGoes(m: Machine, entry: word)
    requires CallsReturn(m, entry)
    ensures var called := StackExec(m);
      && called.regs == m.regs.(pc := entry, sp := m.regs.sp - 2)
      && called.mem == Pushed(m.mem, m.regs.sp, AfterCall(m))
  {
    CallsAreListed(Opcode(m), m.regs.af);
    WordCases(m.regs.pc as int + 1);
    WordCases(m.regs.pc as int + 2);
    WordCases(m.regs.sp as int - 2);
    WordCases(AfterCall(m));
    assert CallEntry(m) == entry;
  }

  lemma {:induction false} ReturnComesBack(m: Machine, called: Machine, entry: word)
    requires CallsReturn(m, entry)
    requires called.regs == m.regs.(pc := entry, sp := m.regs.sp - 2)
    requires called.mem == Pushed(m.mem, m.regs.sp, AfterCall(m))
    ensures StackExec(called).regs.pc == AfterCall(m) && StackExec(called).regs.sp == m.regs.sp
    ensures called.mem[entry] == m.mem[entry] && called.mem[entry + 1] == m.mem[entry + 1]
  {
    PushedWord(m.mem, m.regs.sp, AfterCall(m));
    ReturnsAreListed(m.mem[entry], m.mem[entry + 1], m.regs.af);
    WordCases(m.regs.sp as int);
  }

  lemma {:induction false} CallAndReturn(t: Target, m: Machine, entry: word)
    requires (forall x: Machine :: t.exec(x) == StackExec(x)) && CallsReturn(m, entry)
    ensures var called := t.exec(m); var back := t.exec(called);
      && TakenCall(t, m) && called.regs.sp == m.regs.sp - 2
      && TakenRet(t, called) && !TakenCall(t, called)
      && back.regs.pc == AfterCall(m) && back.regs.sp == m.regs.sp
  {
    var called := t.exec(m);
    CallGoes(m, entry);
    ReturnComesBack(m, called, entry);
    CallsAreListed(m.mem[m.regs.pc], m.regs.af);
    ReturnsAreListed(m.mem[entry], m.mem[entry + 1], m.regs.af);
    WordCases(m.regs.sp as int - 2);
    WordCases(m.regs.sp as int);
    TakenCallIs(t, m);
    TakenCallIs(t, called);
    TakenRetIs(t, called);
  }

  /** The loop at such a call, with the stack pointer at or below the start of the step. */
  lemma {:induction false} LoopPassesCall(t: Target, stop: word -> bool, startSp: int, m: Machine, entry: word, count: nat)
    requires (forall x: Machine :: t.exec(x) == StackExec(x)) && CallsReturn(m, entry)
    requires Signed(m.regs.sp) <= startSp && count <= 10 && stop(AfterCall(m))
    ensures StepOverFrom(t, stop, startSp, m, 0, count) == Outcome(t.exec(t.exec(m)), count + 2)
  {
    CallAndReturn(t, m, entry);
    StepOverNext(t, stop, startSp, m, 0, count);
    StepOverNext(t, stop, startSp, t.exec(m), 1, count + 1);
  }

  /** From a line that calls, whatever the instruction that calls and the one that returns, the step ends on the
      next line of the caller; where the function is mapped does not matter. */
  lemma {:induction false} StepPassesCall(t: Target, m: Machine, from: Location, entry: word)
    requires (forall x: Machine :: t.exec(x) == StackExec(x)) && CallsReturn(m, entry)
    requires t.sourceAt(m.regs.pc) == Some(from) && !from.isAsm
    requires var next := t.sourceAt(AfterCall(m)); next.Some? && (next.value.file != from.file || next.value.line != from.line)
    ensures var r := StepOutcome(t, m); r.count == 2 && r.machine.regs.pc == AfterCall(m) && r.machine.regs.sp == m.regs.sp
  {
    CallAndReturn(t, m, entry);
    LoopPassesCall(t, LeavesSource(t, from), Signed(m.regs.sp), m, entry, 0);
  }

  /** The same for a line that pushes an argument first, so that the stack pointer is below its start after the
      return and only the return instruction tells the loop that the call is over. */
  lemma {:induction false} StepPassesCallWithArgument(t: Target, m: Machine, from: Location, entry: word)
    requires (forall x: Machine :: t.exec(x) == StackExec(x)) && m.mem[m.regs.pc] == 0xE5 && 2 <= m.regs.sp < 0x8000
    requires CallsReturn(StackExec(m), entry)
    requires t.sourceAt(m.regs.pc) == Some(from) && !from.isAsm && t.sourceAt(StackExec(m).regs.pc).None?
    requires var next := t.sourceAt(AfterCall(StackExec(m)));
      next.Some? && (next.value.file != from.file || next.value.line != from.line)
    ensures var r := StepOutcome(t, m);
      r.count == 3 && r.machine.regs.pc == AfterCall(StackExec(m)) && r.machine.regs.sp == m.regs.sp - 2
  {
    PushIsPlain(t, m);
    CallAndReturn(t, StackExec(m), entry);
    LoopPlain(t, LeavesSource(t, from), Signed(m.regs.sp), m, 0);
    LoopPassesCall(t, LeavesSource(t, from), Signed(m.regs.sp), StackExec(m), entry, 1);
  }

  lemma {:induction false} PushIsPlain(t: Target, m: Machine)
    requires t.exec(m) == StackExec(m) && m.mem[m.regs.pc] == 0xE5 && 2 <= m.regs.sp < 0x8000
    ensures !TakenCall(t, m) && StackExec(m).regs.sp == m.regs.sp - 2
  {
    WordCases(m.regs.sp as int - 2);
    TakenCallIs(t, m);
  }

  // ---- where step over ends ------------------------------------------------------------------------

  predicate OtherSourceLine(t: Target, from: Location, pc: word) {
    t.sourceAt(pc).Some? && (t.sourceAt(pc).value.file != from.file || t.sourceAt(pc).value.line != from.line)
  }

  /** Another C line, or another assembly line where there is no C line. */
  predicate OtherLine(t: Target, from: Location, pc: word) {
    || OtherSourceLine(t, from, pc)
    || (t.sourceAt(pc).None? && t.asmAt(pc).Some?
        && (t.asmAt(pc).value.file != from.file || t.asmAt(pc).value.line != from.line))
  }

  lemma {:induction false} SameStops(t: Target, f: word -> bool, g: word -> bool, startSp: int, m: Machine, depth: nat, count: nat)
    requires forall pc: word :: f(pc) == g(pc)
    ensures StepOverFrom(t, f, startSp, m, depth, count) == StepOverFrom(t, g, startSp, m, depth, count)
    decreases STEP_LIMIT - count
  {
    if count < STEP_LIMIT {
      StepOverNext(t, f, startSp, m, depth, count);
      StepOverNext(t, g, startSp, m, depth, count);
      SameStops(t, f, g, startSp, t.exec(m), NextDepth(t, startSp, m, depth), count + 1);
    }
  }

  /** The `step` command from a C line: the first machine outside all callees on another C line, or the limit. */
  lemma {:induction false} StepEndsOnAnotherSourceLine(t: Target, m: Machine, from: Location, stop: word -> bool, tr: Trace)
    requires t.sourceAt(m.regs.pc) == Some(from) && !from.isAsm
    requires forall pc: word :: stop(pc) <==> OtherSourceLine(t, from, pc)
    requires tr != Done && Executes(t, m, tr, true) && Tracked(t, Signed(m.regs.sp), m, tr) && NoStopBeforeEnd(t, stop, m, tr)
    ensures Length(tr) <= 500000 && OtherSourceLine(t, from, End(t, m, tr).regs.pc) ==>
      StepOutcome(t, m) == Outcome(End(t, m, tr), Length(tr))
    ensures Length(tr) > 500000 ==> StepOutcome(t, m).count == 500000
  {
    StepOverSkipsWholeCalls(t, stop, m, tr);
    SameStops(t, stop, LeavesSource(t, from), Signed(m.regs.sp), m, 0, 0);
  }

  /** The same from an assembly line, where C and assembly lines both count. */
  lemma {:induction false} StepEndsOnAnotherAsmLine(t: Target, m: Machine, from: Location, stop: word -> bool, tr: Trace)
    requires t.sourceAt(m.regs.pc).None? && t.asmAt(m.regs.pc) == Some(from) && from.isAsm
    requires forall pc: word :: stop(pc) <==> OtherLine(t, from, pc)
    requires tr != Done && Executes(t, m, tr, true) && Tracked(t, Signed(m.regs.sp), m, tr) && NoStopBeforeEnd(t, stop, m, tr)
    ensures Length(tr) <= 500000 && OtherLine(t, from, End(t, m, tr).regs.pc) ==>
      StepOutcome(t, m) == Outcome(End(t, m, tr), Length(tr))
    ensures Length(tr) > 500000 ==> StepOutcome(t, m).count == 500000
  {
    StepOverSkipsWholeCalls(t, stop, m, tr);
    SameStops(t, stop, LeavesAny(t, from), Signed(m.regs.sp), m, 0, 0);
  }

  // ---- the commands that look at every machine -----------------------------------------------------

  /** `r` is the machine after the fewest instructions, at least one and at most `limit`, the last of which goes
      from one machine to another as `lands` says, or else after `limit` instructions. */
  ghost predicate FirstLanding(t: Target, lands: (Machine, Machine) -> bool, m: Machine, limit: nat, r: Outcome) {
    && 1 <= r.count <= limit && r.machine == Iterate(t.exec, m, r.count)
    && (forall j :: 0 <= j < r.count - 1 ==> !StopsAt(t, lands, m, j))
    && (StopsAt(t, lands, m, r.count - 1) || r.count == limit)
  }

  lemma {:induction false} RunLands(t: Target, stop: (Machine, Machine) -> bool, lands: (Machine, Machine) -> bool, m: Machine, limit: nat)
    requires limit > 0 && forall a: Machine, b: Machine :: stop(a, b) == lands(a, b)
    ensures FirstLanding(t, lands, m, limit, RunUntil(t, stop, m, limit))
  {
    RunUntilStopsFirst(t, stop, m, limit);
    var r := RunUntil(t, stop, m, limit);
    assert forall j: nat :: StopsAt(t, stop, m, j) == StopsAt(t, lands, m, j);
  }

  /** From unmapped code the `step` command walks to the first address with a C or assembly line, or out of the
      function, at most 32 instructions. */
  lemma {:induction false} StepWalksToMappedCode(t: Target, m: Machine, lands: (Machine, Machine) -> bool)
    requires t.sourceAt(m.regs.pc).None? && t.asmAt(m.regs.pc).None?
    requires forall a: Machine, b: Machine :: lands(a, b) <==>
      t.sourceAt(b.regs.pc).Some? || t.asmAt(b.regs.pc).Some? || Signed(b.regs.sp) > Signed(m.regs.sp)
    ensures FirstLanding(t, lands, m, 32, StepOutcome(t, m))
  {
    RunLands(t, StopUnmapped(t, Signed(m.regs.sp)), lands, m, 32);
  }

  /** An instruction that enters assembly code from C: one of the calls, with the signed stack pointer down by
      exactly two, to an address with an assembly line and no C line. */
  ghost predicate EntersAssembly(t: Target, before: Machine, after: Machine) {
    && t.sourceAt(after.regs.pc).None? && t.asmAt(after.regs.pc).Some?
    && before.mem[before.regs.pc] in CALLS && Signed(after.regs.sp) == Signed(before.regs.sp) - 2
  }

  /** From a C line, with CDB data loaded, stepping in ends at the first machine on another C line or just called
      into assembly code. */
  lemma {:induction false} StepInFromSourceLine(t: Target, m: Machine, from: Location, lands: (Machine, Machine) -> bool)
    requires t.sourceAt(m.regs.pc) == Some(from) && !from.isAsm && t.hasCdb
    requires forall a: Machine, b: Machine :: lands(a, b) <==> OtherSourceLine(t, from, b.regs.pc) || EntersAssembly(t, a, b)
    ensures FirstLanding(t, lands, m, 10000, StepInOutcome(t, m))
  {
    forall a: Machine, b: Machine ensures StopInto(t, from)(a, b) == lands(a, b) {
      CallsAre(Opcode(a));
    }
    RunLands(t, StopInto(t, from), lands, m, 10000);
  }

  /** A call into a function that has only assembly lines ends the command at its entry. */
  lemma {:induction false} StepInStopsInAssembly(t: Target, m: Machine, from: Location)
    requires t.sourceAt(m.regs.pc) == Some(from) && !from.isAsm && t.hasCdb
    requires EntersAssembly(t, m, t.exec(m))
    ensures StepInOutcome(t, m) == Outcome(t.exec(m), 1)
  {
    CallsAre(Opcode(m));
  }

  /** A call into code with no line at all does not: the command goes on. */
  lemma {:induction false} StepInPassesUnmappedEntry(t: Target, m: Machine, from: Location)
    requires t.sourceAt(m.regs.pc) == Some(from) && !from.isAsm && t.hasCdb
    requires t.sourceAt(t.exec(m).regs.pc).None? && t.asmAt(t.exec(m).regs.pc).None?
    ensures StepInOutcome(t, m).count > 1
  {
    assert RunUntil(t, StopInto(t, from), t.exec(m), 9999).count > 0;
  }

  /** From an assembly line stepping in ends at the first machine on another C or assembly line. */
  lemma {:induction false} StepInFromAsmLine(t: Target, m: Machine, from: Location, lands: (Machine, Machine) -> bool)
    requires t.sourceAt(m.regs.pc).None? && t.asmAt(m.regs.pc) == Some(from) && from.isAsm
    requires forall a: Machine, b: Machine :: lands(a, b) <==> OtherLine(t, from, b.regs.pc)
    ensures FirstLanding(t, lands, m, 10000, StepInOutcome(t, m))
  {
    RunLands(t, StopAnyLine(t, from), lands, m, 10000);
  }

  /** From an address without a line, or a C line without CDB data, it is exactly one instruction. */
  lemma {:induction false} StepInIsOneInstruction(t: Target, m: Machine)
    requires t.sourceAt(m.regs.pc).None? ==> t.asmAt(m.regs.pc).None?
    requires t.sourceAt(m.regs.pc).Some? ==> !t.sourceAt(m.regs.pc).value.isAsm && !t.hasCdb
    ensures StepInOutcome(t, m) == Outcome(t.exec(m), 1)
  {
  }
}
