/** `step_instruction`: which steps of the processor one call takes, for any instruction; and what the block
    copies LDIR (ED B0) and LDDR (ED B8) do in it. */
module BlockCopy {
  import opened Z80

  /** The processor between two `z80ex_step` calls: its machine, and the prefix byte it has consumed
      (0 when it is between instructions, which is when `z80ex_last_op_type` is 0). */
  datatype Cpu = Cpu(machine: Machine, prefix: byte)

  // ---- one call, for any instruction --------------------------------------------

  /** The test for block instructions; past the end of memory the second byte is read as 0. */
  predicate IsBlock(m: Machine) {
    var b1 := if m.regs.pc + 1 < MEMORY_SIZE then m.mem[m.regs.pc + 1] else 0;
    m.mem[m.regs.pc] == 0xED && (0xB0 <= b1 <= 0xB3 || 0xB8 <= b1 <= 0xBB)
  }

  /** The processor after `n` steps. */
  ghost function Nth(step: Cpu -> Cpu, c: Cpu, n: nat): Cpu {
    if n == 0 then c else step(Nth(step, c, n - 1))
  }

  /** Clock states of the first `n` steps. */
  ghost function Total(step: Cpu -> Cpu, states: Cpu -> nat, c: Cpu, n: nat): nat {
    if n == 0 then 0 else Total(step, states, c, n - 1) + states(Nth(step, c, n - 1))
  }

  /** A call that began at `c` may return after `n` steps: no prefix is pending, and a block instruction has
      let go of its address. */
  ghost predicate Returns(step: Cpu -> Cpu, c: Cpu, n: nat) {
    var now := Nth(step, c, n);
    now.prefix == 0 && !(IsBlock(c.machine) && now.machine.regs.pc == c.machine.regs.pc)
  }

  /** It has not returned before `n` steps. */
  ghost predicate Pending(step: Cpu -> Cpu, c: Cpu, n: nat) {
    forall k :: 0 < k < n ==> !Returns(step, c, k)
  }

  /** It takes exactly `n` steps: the first after which it may return. */
  ghost predicate CallTakes(step: Cpu -> Cpu, c: Cpu, n: nat) {
    n > 0 && Returns(step, c, n) && Pending(step, c, n)
  }

  /** It returns at all. */
  ghost predicate CallEnds(step: Cpu -> Cpu, c: Cpu) {
    exists n :: n > 0 && Returns(step, c, n)
  }

  /** `now` is the processor after `n` steps, which took `total` clock states. */
  ghost predicate Ran(step: Cpu -> Cpu, states: Cpu -> nat, c: Cpu, n: nat, now: Cpu, total: nat) {
    now == Nth(step, c, n) && total == Total(step, states, c, n)
  }

  lemma {:induction false} RanNext(step: Cpu -> Cpu, states: Cpu -> nat, c: Cpu, n: nat, now: Cpu, total: nat)
    requires Ran(step, states, c, n, now, total)
    ensures Ran(step, states, c, n + 1, step(now), total + states(now))
  {
  }

  lemma {:induction false} PendingNext(step: Cpu -> Cpu, c: Cpu, n: nat)
    requires Pending(step, c, n) && (n > 0 ==> !Returns(step, c, n))
    ensures Pending(step, c, n + 1)
  {
  }

  lemma {:induction false} PendingBefore(step: Cpu -> Cpu, c: Cpu, n: nat, last: nat)
    requires Pending(step, c, n) && last > 0 && Returns(step, c, last)
    ensures n <= last
  {
  }

  class Emulator {
    const step: Cpu -> Cpu
    const states: Cpu -> nat
    var cpu: Cpu

    constructor (step: Cpu -> Cpu, states: Cpu -> nat, machine: Machine)
      ensures this.step == step && this.states == states && cpu == Cpu(machine, 0)
    {
      this.step := step;
      this.states := states;
      cpu := Cpu(machine, 0);
    }

    /** One call, on any instruction on which it ends. */
    method StepInstruction() returns (total: nat, ghost steps: nat)
      requires CallEnds(step, cpu)
      modifies this`cpu
      ensures CallTakes(step, old(cpu), steps)
      ensures Ran(step, states, old(cpu), steps, cpu, total)
    {
      ghost var c := cpu;
      ghost var last: nat :| last > 0 && Returns(step, c, last);
      var startPc := cpu.machine.regs.pc;
      var isBlock := IsBlock(cpu.machine);
      total, steps := 0, 0;
      while true
        invariant Pending(step, c, steps + 1)
        invariant Ran(step, states, c, steps, cpu, total)
        decreases last - steps
      {
        PendingBefore(step, c, steps + 1, last);
        RanNext(step, states, c, steps, cpu, total);
        total := total + states(cpu);
        cpu := step(cpu);
        steps := steps + 1;
        while cpu.prefix != 0
          invariant steps > 0 && Pending(step, c, steps) && steps <= last
          invariant Ran(step, states, c, steps, cpu, total)
          decreases last - steps
        {
          PendingNext(step, c, steps);
          PendingBefore(step, c, steps + 1, last);
          RanNext(step, states, c, steps, cpu, total);
          total := total + states(cpu);
          cpu := step(cpu);
          steps := steps + 1;
        }
        if !(isBlock && cpu.machine.regs.pc == startPc) {
          return;
        }
        PendingNext(step, c, steps);
      }
    }
  }

  lemma OneCallLength(step: Cpu -> Cpu, c: Cpu, n: nat, k: nat)
    requires CallTakes(step, c, n) && CallTakes(step, c, k)
    ensures n == k
  {
  }

  // ---- the eight block instructions ----------------------------------------------------

  /** LDIR, CPIR, INIR, OTIR, LDDR, CPDR, INDR and OTDR. */
  const BLOCKS: set<int> := {0xB0, 0xB1, 0xB2, 0xB3, 0xB8, 0xB9, 0xBA, 0xBB}

  /** Step `2k + 1` of a call consumes the prefix, step `2k + 2` ends an instruction; `back` says whether it leaves
      the processor at the address of the call. */
  ghost predicate Iterates(step: Cpu -> Cpu, c: Cpu, k: nat, back: bool) {
    && Nth(step, c, 2 * k + 1).prefix != 0 && Nth(step, c, 2 * k + 2).prefix == 0
    && (Nth(step, c, 2 * k + 2).machine.regs.pc == c.machine.regs.pc <==> back)
  }

  /** A call on any of the eight goes on while the processor comes back to their address, whatever decides that
      (a count, a comparison, a port), and returns after the first iteration that leaves it. */
  lemma {:induction false} BlockGoesOn(step: Cpu -> Cpu, m: Machine, n: nat)
    requires m.regs.pc < 0xFFFF && m.mem[m.regs.pc] == 0xED && m.mem[m.regs.pc + 1] in BLOCKS && n > 0
    requires (forall k :: 0 <= k < n - 1 ==> Iterates(step, Cpu(m, 0), k, true)) && Iterates(step, Cpu(m, 0), n - 1, false)
    ensures CallTakes(step, Cpu(m, 0), 2 * n)
  {
    var c := Cpu(m, 0);
    assert 2 * (n - 1) + 2 == 2 * n;
    forall j | 0 < j < 2 * n ensures !Returns(step, c, j) {
      var k := (j - 1) / 2;
      assert j == 2 * k + 1 || j == 2 * k + 2;
      assert k < n - 1 ==> Iterates(step, c, k, true);
    }
  }

  /** Any other instruction with the prefix is one iteration, whether or not it leaves its address; so is a block
      instruction across the end of memory. */
  lemma {:induction false} OtherTakesOne(step: Cpu -> Cpu, m: Machine, back: bool)
    requires m.mem[m.regs.pc] == 0xED && (m.regs.pc < 0xFFFF ==> m.mem[m.regs.pc + 1] !in BLOCKS)
    requires Iterates(step, Cpu(m, 0), 0, back)
    ensures CallTakes(step, Cpu(m, 0), 2)
  {
    assert 2 * 0 + 1 == 1 && 2 * 0 + 2 == 2;
  }

  // ---- block copies ---------------------------------------------------------------

  function At(base: word, up: bool, i: nat): word {
    if up then Word(base + i) else Word(base - i)
  }

  predicate IsCopy(op: byte) { op == 0xB0 || op == 0xB8 }

  /** What a step does to the machine apart from the flags and the refresh register. */
  ghost predicate SameBut(m: Machine, r: Registers, mem: seq<byte>) {
    m.mem == mem && m.regs == r.(af := m.regs.af, r := m.regs.r)
  }

  /** One iteration with the prefix already consumed: copy a byte, move the pointers, count down, and
      go back to the prefix (two bytes before the next instruction) unless the count has run out. */
  ghost predicate CopiesOne(m: Machine, m': Machine, up: bool) {
    var r := m.regs;
    var bc := Word(r.bc - 1);
    SameBut(m', r.(hl := At(r.hl, up, 1), de := At(r.de, up, 1), bc := bc,
                   pc := if bc != 0 then Word(r.pc - 1) else Word(r.pc + 1)),
            m.mem[r.de := m.mem[r.hl]])
  }

  /** The contract of the processor for the two block copies; everything else is up to it. */
  ghost predicate CopyContract(step: Cpu -> Cpu) {
    && (forall m: Machine {:trigger step(Cpu(m, 0))} :: m.mem[m.regs.pc] == 0xED ==>
          var c := step(Cpu(m, 0));
          c.prefix == 0xED && SameBut(c.machine, m.regs.(pc := Word(m.regs.pc + 1)), m.mem))
    && (forall m: Machine {:trigger step(Cpu(m, 0xED))} :: IsCopy(m.mem[m.regs.pc]) ==>
          var c := step(Cpu(m, 0xED));
          c.prefix == 0 && CopiesOne(m, c.machine, m.mem[m.regs.pc] == 0xB0))
  }

  /** A processor that does nothing but block copies, to show that the contract can be met. */
  function CopyOnly(c: Cpu): Cpu {
    var m := c.machine;
    var r := m.regs;
    if c.prefix == 0 && m.mem[r.pc] == 0xED then Cpu(m.(regs := r.(pc := Word(r.pc + 1))), 0xED)
    else if c.prefix == 0xED && IsCopy(m.mem[r.pc]) then
      var up, bc := m.mem[r.pc] == 0xB0, Word(r.bc - 1);
      Cpu(MachineData(r.(hl := At(r.hl, up, 1), de := At(r.de, up, 1), bc := bc,
                         pc := if bc != 0 then Word(r.pc - 1) else Word(r.pc + 1)),
                      m.mem[r.de := m.mem[r.hl]]), 0)
    else c
  }

  lemma CopyOnlyMeetsContract()
    ensures CopyContract(c => CopyOnly(c))
  {
  }

  // ---- the copy, one byte after the other ---------------------------------------

  /** Memory after the first `i` bytes have been copied in order. */
  function Copied(mem: seq<byte>, src: word, dst: word, up: bool, i: nat): (r: seq<byte>)
    requires |mem| == MEMORY_SIZE
    ensures |r| == MEMORY_SIZE
  {
    if i == 0 then mem
    else
      var before := Copied(mem, src, dst, up, i - 1);
      before[At(dst, up, i - 1) := before[At(src, up, i - 1)]]
  }

  /** BC as a count: 0 means 65536. */
  function Count(bc: word): nat {
    if bc == 0 then 0x10000 else bc
  }

  function Second(m: Machine): byte { m.mem[Word(m.regs.pc + 1)] }

  /** A block copy as the processor finds it; at 0xFFFF its second byte is at address 0. */
  predicate CopyAt(m: Machine) {
    m.mem[m.regs.pc] == 0xED && IsCopy(Second(m))
  }

  predicate Up(m: Machine) { Second(m) == 0xB0 }

  function CopiedAt(m: Machine, i: nat): (r: seq<byte>)
    ensures |r| == MEMORY_SIZE
  {
    Copied(m.mem, m.regs.hl, m.regs.de, Up(m), i)
  }

  /** After `i` iterations the two opcode bytes are what they were. */
  ghost predicate OpcodeAfter(m: Machine, i: nat) {
    CopiedAt(m, i)[m.regs.pc] == 0xED && CopiedAt(m, i)[Word(m.regs.pc + 1)] == Second(m)
  }

  /** Each of the first `n` iterations after the first still finds the opcode. */
  ghost predicate OpcodeKept(m: Machine, n: nat) {
    forall i :: 1 <= i < n ==> OpcodeAfter(m, i)
  }

  /** Where the machine stands after `i` iterations. */
  ghost predicate AfterCopies(m: Machine, m': Machine, i: nat)
    requires i <= Count(m.regs.bc)
  {
    SameBut(m', m.regs.(hl := At(m.regs.hl, Up(m), i), de := At(m.regs.de, Up(m), i), bc := Word(m.regs.bc - i),
                        pc := if i == Count(m.regs.bc) then Word(m.regs.pc + 2) else m.regs.pc),
            CopiedAt(m, i))
  }

  lemma AtNext(base: word, up: bool, i: nat)
    requires i < 0x10000
    ensures At(At(base, up, i), up, 1) == At(base, up, i + 1)
  {
    var now: int := At(base, up, i);
    WordCases(if up then base + i else base - i);
    WordCases(if up then base + i + 1 else base - (i + 1));
    WordCases(now + 1);
    WordCases(now - 1);
  }

  lemma CountNext(bc: word, i: nat)
    requires i < Count(bc)
    ensures Word(Word(bc - i) - 1) == Word(bc - (i + 1))
    ensures Word(bc - (i + 1)) == 0 <==> i + 1 == Count(bc)
  {
  }

  lemma PcNext(pc: word)
    ensures Word(Word(pc + 1) - 1) == pc && Word(Word(pc + 1) + 1) == Word(pc + 2)
  {
    WordCases(pc as int + 1);
    WordCases(pc as int + 2);
    WordCases(Word(pc + 1) as int - 1);
    WordCases(Word(pc + 1) as int + 1);
  }

  lemma {:induction false} PrefixStep(step: Cpu -> Cpu, m: Machine, now: Machine, i: nat)
    requires CopyContract(step) && CopyAt(m) && (i > 0 ==> OpcodeAfter(m, i))
    requires i < Count(m.regs.bc) && AfterCopies(m, now, i)
    ensures step(Cpu(now, 0)).prefix == 0xED
    ensures SameBut(step(Cpu(now, 0)).machine, now.regs.(pc := Word(m.regs.pc + 1)), now.mem)
    ensures now.mem[Word(m.regs.pc + 1)] == Second(m)
  {
    assert now.mem == CopiedAt(m, i);
    assert now.mem[m.regs.pc] == 0xED;
  }

  lemma CopyStep(m: Machine, mid: Machine, next: Machine, i: nat)
    requires i < Count(m.regs.bc)
    requires SameBut(mid, m.regs.(hl := At(m.regs.hl, Up(m), i), de := At(m.regs.de, Up(m), i),
                                  bc := Word(m.regs.bc - i), pc := Word(m.regs.pc + 1)), CopiedAt(m, i))
    requires CopiesOne(mid, next, Up(m))
    ensures AfterCopies(m, next, i + 1)
  {
    AtNext(m.regs.hl, Up(m), i);
    AtNext(m.regs.de, Up(m), i);
    CountNext(m.regs.bc, i);
    PcNext(m.regs.pc);
    assert next.mem == CopiedAt(m, i + 1);
  }

  /** One prefix step and one opcode step copy one more byte, when they find the opcode. */
  lemma OneIteration(step: Cpu -> Cpu, m: Machine, now: Machine, i: nat)
    requires CopyContract(step) && CopyAt(m) && (i > 0 ==> OpcodeAfter(m, i))
    requires i < Count(m.regs.bc) && AfterCopies(m, now, i)
    ensures step(Cpu(now, 0)).prefix == 0xED
    ensures step(step(Cpu(now, 0))).prefix == 0
    ensures AfterCopies(m, step(step(Cpu(now, 0))).machine, i + 1)
  {
    PrefixStep(step, m, now, i);
    var mid := step(Cpu(now, 0));
    assert mid == Cpu(mid.machine, 0xED);
    assert IsCopy(mid.machine.mem[mid.machine.regs.pc]);
    CopyStep(m, mid.machine, step(mid).machine, i);
  }

  lemma {:induction false} NthTwo(step: Cpu -> Cpu, c: Cpu, n: nat)
    requires n > 0
    ensures Nth(step, c, 2 * n - 1) == step(Nth(step, c, 2 * (n - 1)))
    ensures Nth(step, c, 2 * n) == step(step(Nth(step, c, 2 * (n - 1))))
  {
    assert 2 * n - 1 == 2 * (n - 1) + 1;
  }

  /** However the steps are spread over calls, 2n of them copy n bytes as long as the opcode is kept. */
  lemma {:induction false} CopySteps(step: Cpu -> Cpu, m: Machine, n: nat)
    requires CopyContract(step) && CopyAt(m) && n <= Count(m.regs.bc) && OpcodeKept(m, n)
    ensures var c := Nth(step, Cpu(m, 0), 2 * n); c.prefix == 0 && AfterCopies(m, c.machine, n)
    ensures n > 0 ==> Nth(step, Cpu(m, 0), 2 * n - 1).prefix == 0xED
    decreases n
  {
    if n == 0 {
      assert AfterCopies(m, m, 0);
    } else {
      CopySteps(step, m, n - 1);
      var c := Nth(step, Cpu(m, 0), 2 * (n - 1));
      assert c == Cpu(c.machine, 0);
      NthTwo(step, Cpu(m, 0), n);
      OneIteration(step, m, c.machine, n - 1);
    }
  }

  lemma {:induction false} NotYet(step: Cpu -> Cpu, m: Machine, n: nat, k: nat)
    requires CopyContract(step) && CopyAt(m) && m.regs.pc != 0xFFFF
    requires n < Count(m.regs.bc) && OpcodeKept(m, n) && 0 < k <= 2 * n
    ensures !Returns(step, Cpu(m, 0), k)
  {
    if k % 2 == 0 {
      CopySteps(step, m, k / 2);
    } else {
      CopySteps(step, m, (k + 1) / 2);
    }
  }

  lemma {:induction false} BlockTakes(step: Cpu -> Cpu, m: Machine)
    requires CopyContract(step) && CopyAt(m) && m.regs.pc != 0xFFFF && OpcodeKept(m, Count(m.regs.bc))
    ensures CallTakes(step, Cpu(m, 0), 2 * Count(m.regs.bc))
  {
    var n := Count(m.regs.bc);
    CopySteps(step, m, n);
    WordCases(m.regs.pc as int + 2);
    forall k | 0 < k < 2 * n ensures !Returns(step, Cpu(m, 0), k) {
      if k == 2 * n - 1 {
        assert Nth(step, Cpu(m, 0), k).prefix == 0xED;
      } else {
        NotYet(step, m, n - 1, k);
      }
    }
  }

  /** At 0xFFFF the processor finds the second opcode byte at address 0, but the test for block
      instructions reads it as 0: the copy is not recognised and one call makes one iteration only. */
  lemma {:induction false} SplitAcrossTheEndIsNotABlock(step: Cpu -> Cpu, m: Machine)
    requires CopyContract(step) && CopyAt(m) && m.regs.pc == 0xFFFF
    ensures CallTakes(step, Cpu(m, 0), 2)
    ensures AfterCopies(m, Nth(step, Cpu(m, 0), 2).machine, 1)
  {
    CopySteps(step, m, 1);
    assert Nth(step, Cpu(m, 0), 1).prefix == 0xED;
  }

  /** The steps of a whole copy are those of one call if and only if the instruction does not lie across the
      end of memory, or has one byte to copy. */
  lemma {:induction false} WholeBlockInOneCallIff(step: Cpu -> Cpu, m: Machine)
    requires CopyContract(step) && CopyAt(m) && OpcodeKept(m, Count(m.regs.bc))
    ensures var n := 2 * Count(m.regs.bc); var c := Nth(step, Cpu(m, 0), n);
      && c.prefix == 0 && AfterCopies(m, c.machine, Count(m.regs.bc))
      && (CallTakes(step, Cpu(m, 0), n) <==> m.regs.pc != 0xFFFF || m.regs.bc == 1)
  {
    CopySteps(step, m, Count(m.regs.bc));
    if m.regs.pc != 0xFFFF {
      BlockTakes(step, m);
    } else {
      SplitAcrossTheEndIsNotABlock(step, m);
      if CallTakes(step, Cpu(m, 0), 2 * Count(m.regs.bc)) {
        OneCallLength(step, Cpu(m, 0), 2, 2 * Count(m.regs.bc));
      }
    }
  }

  /** The clock states of the two copies: four for the prefix, and seventeen for an iteration that repeats or
      twelve for the last. */
  ghost predicate CopyStates(states: Cpu -> nat) {
    && (forall m: Machine {:trigger states(Cpu(m, 0))} :: m.mem[m.regs.pc] == 0xED ==> states(Cpu(m, 0)) == 4)
    && (forall m: Machine {:trigger states(Cpu(m, 0xED))} :: IsCopy(m.mem[m.regs.pc]) ==>
          states(Cpu(m, 0xED)) == if m.regs.bc == 1 then 12 else 17)
  }

  lemma {:induction false} IterationStates(step: Cpu -> Cpu, states: Cpu -> nat, m: Machine, now: Machine, i: nat)
    requires CopyContract(step) && CopyStates(states) && CopyAt(m) && (i > 0 ==> OpcodeAfter(m, i))
    requires i < Count(m.regs.bc) && AfterCopies(m, now, i)
    ensures states(Cpu(now, 0)) == 4
    ensures states(step(Cpu(now, 0))) == if i + 1 == Count(m.regs.bc) then 12 else 17
  {
    PrefixStep(step, m, now, i);
    var mid := step(Cpu(now, 0));
    assert mid == Cpu(mid.machine, 0xED);
    assert IsCopy(mid.machine.mem[mid.machine.regs.pc]);
    CountNext(m.regs.bc, i);
    WordCases(mid.machine.regs.bc as int - 1);
  }

  /** A copy of n bytes takes 21 states for each but the last one of the block, which takes 16. */
  lemma {:induction false} BlockStates(step: Cpu -> Cpu, states: Cpu -> nat, m: Machine, n: nat)
    requires CopyContract(step) && CopyStates(states) && CopyAt(m) && n <= Count(m.regs.bc) && OpcodeKept(m, n)
    ensures Total(step, states, Cpu(m, 0), 2 * n) == 21 * n - (if n == Count(m.regs.bc) then 5 else 0)
    decreases n
  {
    if n > 0 {
      var c := Nth(step, Cpu(m, 0), 2 * (n - 1));
      BlockStates(step, states, m, n - 1);
      CopySteps(step, m, n - 1);
      assert c == Cpu(c.machine, 0);
      NthTwo(step, Cpu(m, 0), n);
      IterationStates(step, states, m, c.machine, n - 1);
      TotalTwo(step, states, Cpu(m, 0), n);
    }
  }

  lemma {:induction false} TotalTwo(step: Cpu -> Cpu, states: Cpu -> nat, c: Cpu, n: nat)
    requires n > 0
    ensures var before := Nth(step, c, 2 * (n - 1));
      Total(step, states, c, 2 * n) == Total(step, states, c, 2 * (n - 1)) + states(before) + states(step(before))
  {
    NthTwo(step, c, n);
    assert Total(step, states, c, 2 * n) == Total(step, states, c, 2 * n - 1) + states(Nth(step, c, 2 * n - 1));
    assert Total(step, states, c, 2 * n - 1) == Total(step, states, c, 2 * n - 2) + states(Nth(step, c, 2 * n - 2));
  }

  /** A copy that overwrites its own opcode: the call goes on, with `k` bytes copied, and executes whatever
      the bytes at its address have become. */
  lemma {:induction false} OverwrittenOpcodeIsExecuted(step: Cpu -> Cpu, m: Machine, k: nat)
    requires CopyContract(step) && CopyAt(m) && m.regs.pc != 0xFFFF
    requires 1 <= k < Count(m.regs.bc) && OpcodeKept(m, k) && !OpcodeAfter(m, k)
    ensures forall j :: 0 < j <= 2 * k ==> !Returns(step, Cpu(m, 0), j)
    ensures var c := Nth(step, Cpu(m, 0), 2 * k);
      && c.prefix == 0 && AfterCopies(m, c.machine, k) && c.machine.regs.pc == m.regs.pc
      && (c.machine.mem[m.regs.pc] != 0xED || Second(c.machine) != Second(m))
  {
    CopySteps(step, m, k);
    forall j | 0 < j <= 2 * k ensures !Returns(step, Cpu(m, 0), j) {
      NotYet(step, m, k, j);
    }
  }

  // ---- what the copy means -----------------------------------------------------------

  /** How far `a` is from `base` in the direction of the copy. */
  function Distance(base: word, up: bool, a: word): word {
    if up then Word(a - base) else Word(base - a)
  }

  /** `k` modulo `d`. */
  function Cycle(k: nat, d: nat): (r: nat)
    requires d > 0
    ensures r < d
  {
    if k < d then k else Cycle(k - d, d)
  }

  lemma DistanceAt(base: word, up: bool, a: word, k: nat)
    requires k < 0x10000
    ensures At(base, up, Distance(base, up, a)) == a
    ensures a == At(base, up, k) <==> Distance(base, up, a) == k
  {
    var d := Distance(base, up, a);
    WordCases(if up then a - base else base - a);
    WordCases(if up then base + d else base - d);
    WordCases(if up then base + k else base - k);
  }

  /** Seen from the destination, the `k`-th source byte is `d` behind. */
  lemma SourceDistance(src: word, dst: word, up: bool, k: nat)
    requires k < 0x10000
    ensures var d := Distance(src, up, dst);
      Distance(dst, up, At(src, up, k)) == if d == 0 || k >= d then k - d else k - d + 0x10000
  {
    var a := At(src, up, k);
    WordCases(if up then src + k else src - k);
    WordCases(if up then dst - src else src - dst);
    WordCases(if up then a - dst else dst - a);
  }

  lemma {:induction false} CopiedClosedForm(mem: seq<byte>, src: word, dst: word, up: bool, i: nat, a: word)
    requires |mem| == MEMORY_SIZE && i <= 0x10000 && src != dst
    ensures Distance(src, up, dst) > 0
    ensures Copied(mem, src, dst, up, i)[a] ==
      var j := Distance(dst, up, a);
      if j < i then mem[At(src, up, Cycle(j, Distance(src, up, dst)))] else mem[a]
    decreases i
  {
    if i > 0 {
      var k := i - 1;
      CopiedClosedForm(mem, src, dst, up, k, a);
      DistanceAt(dst, up, a, k);
      if a == At(dst, up, k) {
        SourceDistance(src, dst, up, k);
        CopiedClosedForm(mem, src, dst, up, k, At(src, up, k));
      }
    }
  }

  /** Every byte of the destination gets the source byte at its position, wrapped to the distance between
      the two blocks: a plain copy when they do not overlap ahead of the copy, a repeated pattern (a fill
      when the distance is 1) when they do.  Nothing else changes. */
  lemma BlockCopyMeaning(m: Machine, m': Machine, a: word)
    requires CopyAt(m) && AfterCopies(m, m', Count(m.regs.bc)) && m.regs.hl != m.regs.de
    ensures Distance(m.regs.hl, Up(m), m.regs.de) > 0
    ensures m'.mem[a] ==
      var j := Distance(m.regs.de, Up(m), a);
      if j < Count(m.regs.bc) then m.mem[At(m.regs.hl, Up(m), Cycle(j, Distance(m.regs.hl, Up(m), m.regs.de)))]
      else m.mem[a]
  {
    CopiedClosedForm(m.mem, m.regs.hl, m.regs.de, Up(m), Count(m.regs.bc), a);
  }

  lemma NextIsOneAhead(src: word, dst: word)
    requires dst == Word(src + 1)
    ensures src != dst && Distance(src, true, dst) == 1 && At(src, true, 0) == src
  {
    WordCases(src + 1 as int);
    WordCases(dst as int - src as int);
  }

  /** The idiom DE = HL + 1: the first byte fills the block. */
  lemma {:induction false} FillWithFirstByte(m: Machine, m': Machine, j: nat)
    requires CopyAt(m) && Up(m) && AfterCopies(m, m', Count(m.regs.bc))
    requires m.regs.de == Word(m.regs.hl + 1) && j < Count(m.regs.bc)
    ensures m'.mem[At(m.regs.de, true, j)] == m.mem[m.regs.hl]
  {
    DistanceAt(m.regs.de, true, At(m.regs.de, true, j), j);
    NextIsOneAhead(m.regs.hl, m.regs.de);
    assert Cycle(j, 1) == 0;
    BlockCopyMeaning(m, m', At(m.regs.de, true, j));
  }

  lemma {:induction false} CopyOntoItself(mem: seq<byte>, src: word, up: bool, i: nat)
    requires |mem| == MEMORY_SIZE
    ensures Copied(mem, src, src, up, i) == mem
    decreases i
  {
    if i > 0 {
      CopyOntoItself(mem, src, up, i - 1);
    }
  }

  lemma {:induction false} Untouched(mem: seq<byte>, src: word, dst: word, up: bool, i: nat, a: word)
    requires |mem| == MEMORY_SIZE && forall k :: 0 <= k < i ==> At(dst, up, k) != a
    ensures Copied(mem, src, dst, up, i)[a] == mem[a]
    decreases i
  {
    if i > 0 {
      Untouched(mem, src, dst, up, i - 1, a);
    }
  }

  /** A caller can check beforehand that the opcode survives: no destination before the last one is on it. */
  lemma OpcodeKeptWhenNotTargeted(m: Machine)
    requires CopyAt(m)
    requires forall k :: 0 <= k < Count(m.regs.bc) - 1 ==>
      At(m.regs.de, Up(m), k) != m.regs.pc && At(m.regs.de, Up(m), k) != Word(m.regs.pc + 1)
    ensures OpcodeKept(m, Count(m.regs.bc))
  {
    forall i | 1 <= i < Count(m.regs.bc) ensures OpcodeAfter(m, i) {
      Untouched(m.mem, m.regs.hl, m.regs.de, Up(m), i, m.regs.pc);
      Untouched(m.mem, m.regs.hl, m.regs.de, Up(m), i, Word(m.regs.pc + 1));
    }
  }
}
