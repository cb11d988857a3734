/** When a call of `step_instruction` ends: instructions made of prefixes, and block copies that overwrite
    their own opcode. */
module EndlessCalls {
  import opened Z80
  import opened BlockCopy

  // ---- prefixes -------------------------------------------------------------------

  predicate IsIndexPrefix(b: byte) { b == 0xDD || b == 0xFD }

  /** Not in the middle of an ED or CB instruction. */
  predicate TakesPrefix(c: Cpu) { c.prefix == 0 || IsIndexPrefix(c.prefix) }

  function NextByte(c: Cpu): byte { c.machine.mem[c.machine.regs.pc] }

  /** What a step does with an index prefix: it consumes the byte and leaves everything else. */
  ghost predicate Consumes(c: Cpu, c': Cpu) {
    && c'.prefix == NextByte(c)
    && SameBut(c'.machine, c.machine.regs.(pc := Word(c.machine.regs.pc + 1)), c.machine.mem)
  }

  ghost predicate Completes(step: Cpu -> Cpu, c: Cpu) {
    exists n :: n > 0 && Nth(step, c, n).prefix == 0
  }

  /** The contract of the processor for prefixes: DD and FD are consumed, one step each, the last one counts;
      any other byte begins an instruction that completes. */
  ghost predicate PrefixContract(step: Cpu -> Cpu) {
    && (forall c: Cpu {:trigger step(c)} :: TakesPrefix(c) && IsIndexPrefix(NextByte(c)) ==> Consumes(c, step(c)))
    && (forall c: Cpu {:trigger Completes(step, c)} :: TakesPrefix(c) && !IsIndexPrefix(NextByte(c)) ==> Completes(step, c))
  }

  lemma {:induction false} NthLater(step: Cpu -> Cpu, c: Cpu, n: nat)
    ensures Nth(step, step(c), n) == Nth(step, c, n + 1)
    decreases n
  {
    if n > 0 {
      NthLater(step, c, n - 1);
    } else {
      assert Nth(step, c, 1) == step(Nth(step, c, 0));
    }
  }

  lemma {:induction false} CompletesLater(step: Cpu -> Cpu, c: Cpu)
    requires Completes(step, step(c))
    ensures Completes(step, c)
  {
    var n: nat :| n > 0 && Nth(step, step(c), n).prefix == 0;
    NthLater(step, c, n);
  }

  lemma NextIsNearer(pc: word, a: word)
    requires pc != a
    ensures Word(a - pc) > 0 && Word(a - Word(pc + 1)) == Word(a - pc) - 1
  {
    WordCases(pc as int + 1);
    WordCases(a as int - pc as int);
    WordCases(a as int - Word(pc + 1) as int);
  }

  /** Prefixes are consumed one by one until a byte that is none; here at most at `a`. */
  lemma {:induction false} CompletesAtOther(step: Cpu -> Cpu, c: Cpu, a: word)
    requires PrefixContract(step) && TakesPrefix(c) && !IsIndexPrefix(c.machine.mem[a])
    ensures Completes(step, c)
    decreases Word(a - c.machine.regs.pc)
  {
    if IsIndexPrefix(NextByte(c)) {
      assert Consumes(c, step(c));
      NextIsNearer(c.machine.regs.pc, a);
      CompletesAtOther(step, step(c), a);
      CompletesLater(step, c);
    }
  }

  ghost predicate OnlyPrefixes(m: Machine) {
    forall a: word :: IsIndexPrefix(m.mem[a])
  }

  lemma {:induction false} PrefixesForEver(step: Cpu -> Cpu, m: Machine, n: nat)
    requires PrefixContract(step) && OnlyPrefixes(m)
    ensures var c := Nth(step, Cpu(m, 0), n); c.machine.mem == m.mem && (if n > 0 then IsIndexPrefix(c.prefix) else c.prefix == 0)
    decreases n
  {
    if n > 0 {
      PrefixesForEver(step, m, n - 1);
      var c := Nth(step, Cpu(m, 0), n - 1);
      assert IsIndexPrefix(NextByte(c)) && Consumes(c, step(c));
    }
  }

  /** A call on anything but a block instruction returns if and only if some byte of memory is no index prefix. */
  lemma {:induction false} CallEndsIff(step: Cpu -> Cpu, m: Machine)
    requires PrefixContract(step) && !IsBlock(m)
    ensures CallEnds(step, Cpu(m, 0)) <==> !OnlyPrefixes(m)
  {
    if OnlyPrefixes(m) {
      forall n | n > 0 ensures !Returns(step, Cpu(m, 0), n) {
        PrefixesForEver(step, m, n);
      }
    } else {
      var a: word :| !IsIndexPrefix(m.mem[a]);
      CompletesAtOther(step, Cpu(m, 0), a);
      var n: nat :| n > 0 && Nth(step, Cpu(m, 0), n).prefix == 0;
      assert Returns(step, Cpu(m, 0), n);
    }
  }

  // ---- block copies --------------------------------------------------------------------

  /** A block copy whose opcode survives returns, wherever it is. */
  lemma {:induction false} KeptCopyEnds(step: Cpu -> Cpu, m: Machine)
    requires CopyContract(step) && CopyAt(m) && (m.regs.pc != 0xFFFF ==> OpcodeKept(m, Count(m.regs.bc)))
    ensures CallEnds(step, Cpu(m, 0))
  {
    if m.regs.pc != 0xFFFF {
      BlockTakes(step, m);
      assert Returns(step, Cpu(m, 0), 2 * Count(m.regs.bc));
    } else {
      SplitAcrossTheEndIsNotABlock(step, m);
      assert Returns(step, Cpu(m, 0), 2);
    }
  }

  /** Each iteration writes one byte, so the first one that changes the opcode changes one of its two bytes:
      an ED B0 cannot become another two-byte instruction with neither byte in common. */
  lemma {:induction false} OneByteAtATime(m: Machine, k: nat)
    requires CopyAt(m) && 1 <= k && OpcodeKept(m, k)
    ensures CopiedAt(m, k)[m.regs.pc] == 0xED || CopiedAt(m, k)[Word(m.regs.pc + 1)] == Second(m)
  {
    PcNext(m.regs.pc);
    assert Word(m.regs.pc + 1) != m.regs.pc;
    assert k > 1 ==> OpcodeAfter(m, k - 1);
    assert CopiedAt(m, k) == CopiedAt(m, k - 1)[At(m.regs.de, Up(m), k - 1) := CopiedAt(m, k - 1)[At(m.regs.hl, Up(m), k - 1)]];
  }

  function WordAt(m: Machine, a: word): word {
    (m.mem[a] as int) + 0x100 * (m.mem[Word(a + 1)] as int)
  }

  /** The contract of the processor for JP nn. */
  ghost predicate JumpContract(step: Cpu -> Cpu) {
    forall m: Machine {:trigger step(Cpu(m, 0))} :: m.mem[m.regs.pc] == 0xC3 ==>
      var c := step(Cpu(m, 0));
      c.prefix == 0 && SameBut(c.machine, m.regs.(pc := WordAt(m, Word(m.regs.pc + 1))), m.mem)
  }

  /** A processor with prefixes, jumps and block copies, and a NOP for everything else: the three contracts can
      be met together. */
  function Sample(c: Cpu): Cpu {
    var m := c.machine;
    var r := m.regs;
    var op := NextByte(c);
    var skipped := m.(regs := r.(pc := Word(r.pc + 1)));
    if TakesPrefix(c) && IsIndexPrefix(op) then Cpu(skipped, op)
    else if c.prefix == 0 && op == 0xC3 then Cpu(m.(regs := r.(pc := WordAt(m, Word(r.pc + 1)))), 0)
    else if (c.prefix == 0 && op == 0xED) || (c.prefix == 0xED && IsCopy(op)) then CopyOnly(c)
    else Cpu(skipped, 0)
  }

  lemma {:induction false} SampleCompletes(step: Cpu -> Cpu, c: Cpu)
    requires TakesPrefix(c) && !IsIndexPrefix(NextByte(c)) && forall d: Cpu :: step(d) == Sample(d)
    ensures Completes(step, c)
  {
    assert Nth(step, c, 1) == step(Nth(step, c, 0)) == Sample(c);
    if Sample(c).prefix != 0 {
      assert Nth(step, c, 2) == step(Nth(step, c, 1)) == Sample(Sample(c));
    }
  }

  lemma {:induction false} SampleCopies(step: Cpu -> Cpu)
    requires forall c: Cpu :: step(c) == Sample(c)
    ensures CopyContract(step)
  {
    forall m: Machine | m.mem[m.regs.pc] == 0xED ensures step(Cpu(m, 0)) == CopyOnly(Cpu(m, 0)) {
    }
    forall m: Machine | IsCopy(m.mem[m.regs.pc]) ensures step(Cpu(m, 0xED)) == CopyOnly(Cpu(m, 0xED)) {
    }
  }

  lemma {:induction false} SampleMeetsContracts(step: Cpu -> Cpu)
    requires forall c: Cpu :: step(c) == Sample(c)
    ensures PrefixContract(step) && JumpContract(step) && CopyContract(step)
  {
    SampleCopies(step);
    forall c: Cpu | TakesPrefix(c) && !IsIndexPrefix(NextByte(c)) ensures Completes(step, c) {
      SampleCompletes(step, c);
    }
  }

  /** A jump to its own address. */
  predicate JumpsToItself(m: Machine) {
    m.mem[m.regs.pc] == 0xC3 && WordAt(m, Word(m.regs.pc + 1)) == m.regs.pc
  }

  /** From `k` steps on the processor is between instructions at the same jump, with the same memory. */
  lemma {:induction false} JumpsForEver(step: Cpu -> Cpu, c: Cpu, k: nat, n: nat)
    requires JumpContract(step) && k <= n
    requires Nth(step, c, k).prefix == 0 && JumpsToItself(Nth(step, c, k).machine)
    ensures var first, now := Nth(step, c, k), Nth(step, c, n);
      now.prefix == 0 && now.machine.mem == first.machine.mem && now.machine.regs.pc == first.machine.regs.pc
    decreases n
  {
    if n > k {
      JumpsForEver(step, c, k, n - 1);
      var now := Nth(step, c, n - 1);
      assert now == Cpu(now.machine, 0) && now.machine.mem[now.machine.regs.pc] == 0xC3;
    }
  }

  /** The machine at which the copy has just overwritten its opcode, after `k` bytes. */
  ghost function Overwritten(m: Machine, k: nat): Machine
  {
    MachineData(m.regs, CopiedAt(m, k))
  }

  /** A copy that turns itself into a jump to its own address, at any byte but the last, never returns: the call
      waits for the address to be left, and the jump never leaves it. */
  lemma {:induction false} OverwrittenCopyNeverReturns(step: Cpu -> Cpu, m: Machine, k: nat)
    requires CopyContract(step) && JumpContract(step) && CopyAt(m) && m.regs.pc != 0xFFFF
    requires 1 <= k < Count(m.regs.bc) && OpcodeKept(m, k)
    requires JumpsToItself(Overwritten(m, k))
    ensures !CallEnds(step, Cpu(m, 0))
  {
    OverwrittenOpcodeIsExecuted(step, m, k);
    var c := Nth(step, Cpu(m, 0), 2 * k);
    assert c.machine.mem == CopiedAt(m, k) && c.machine.regs.pc == m.regs.pc;
    forall n | n > 0 ensures !Returns(step, Cpu(m, 0), n) {
      if n > 2 * k {
        JumpsForEver(step, Cpu(m, 0), 2 * k, n);
      }
    }
  }

  /** Such copies exist: an LDIR at an address that ends in B0, whose first byte, a C3, goes onto its own opcode. */
  lemma {:induction false} CopyBecomesJump(step: Cpu -> Cpu, m: Machine)
    requires CopyContract(step) && JumpContract(step) && CopyAt(m) && Up(m) && m.regs.bc != 1
    requires m.regs.pc % 0x100 == 0xB0 && m.mem[m.regs.pc + 2] == m.regs.pc / 0x100
    requires m.regs.de == m.regs.pc && m.mem[m.regs.hl] == 0xC3
    ensures !CallEnds(step, Cpu(m, 0))
  {
    var pc := m.regs.pc;
    assert CopiedAt(m, 0) == m.mem;
    assert At(m.regs.de, true, 0) == pc && At(m.regs.hl, true, 0) == m.regs.hl;
    assert CopiedAt(m, 1) == m.mem[pc := 0xC3];
    assert JumpsToItself(Overwritten(m, 1));
    OverwrittenCopyNeverReturns(step, m, 1);
  }
}
