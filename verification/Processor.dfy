/** From steps of the processor to whole instructions: what `exec` and `ends` of the other modules stand for, and
    what an instruction that never ends does to a session. */
module Processor {
  import opened Text
  import opened Z80
  import opened BlockCopy
  import opened EndlessCalls
  import opened RunControl
  import opened RunControlTheorems
  import Stepping
  import StepTheorems

  /** `exec` and `ends` describe the calls that this processor makes. */
  ghost predicate Realizes(step: Cpu -> Cpu, exec: Machine -> Machine, ends: Machine -> bool) {
    && (forall m: Machine {:trigger ends(m)} :: ends(m) <==> CallEnds(step, Cpu(m, 0)))
    && (forall m: Machine, n: nat {:trigger CallTakes(step, Cpu(m, 0), n)} ::
          CallTakes(step, Cpu(m, 0), n) ==> Nth(step, Cpu(m, 0), n) == Cpu(exec(m), 0))
  }

  /** A call that ends takes some number of steps. */
  lemma {:induction false} FirstReturn(step: Cpu -> Cpu, c: Cpu, n: nat) returns (first: nat)
    requires n > 0 && Returns(step, c, n)
    ensures CallTakes(step, c, first)
    decreases n
  {
    if k: nat :| 0 < k < n && Returns(step, c, k) {
      first := FirstReturn(step, c, k);
    } else {
      first := n;
    }
  }

  /** The machine a call leaves, if it ends. */
  ghost function CallResult(step: Cpu -> Cpu, m: Machine): Machine {
    if n: nat :| CallTakes(step, Cpu(m, 0), n) then Nth(step, Cpu(m, 0), n).machine else m
  }

  /** Every processor is described by some `exec` and `ends`. */
  lemma {:induction false} EveryProcessorIsRealized(step: Cpu -> Cpu) returns (exec: Machine -> Machine, ends: Machine -> bool)
    ensures Realizes(step, exec, ends)
  {
    exec := (m: Machine) => CallResult(step, m);
    ends := (m: Machine) => CallEnds(step, Cpu(m, 0));
    forall m: Machine, n: nat | CallTakes(step, Cpu(m, 0), n) ensures Nth(step, Cpu(m, 0), n) == Cpu(exec(m), 0) {
      forall k: nat | CallTakes(step, Cpu(m, 0), k) ensures k == n {
        OneCallLength(step, Cpu(m, 0), n, k);
      }
    }
  }

  // ---- what an instruction that never ends does to a session ------------------------------

  /** A worker that executes anything but a block instruction is stuck if and only if memory holds nothing but
      index prefixes; so that is also exactly when a `disconnect` that waits for it does not return. */
  lemma {:induction false} StuckIff(step: Cpu -> Cpu, p: Program, s: State)
    requires Realizes(step, p.exec, p.ends) && PrefixContract(step)
    requires LastPc(s) == Execute && !IsBlock(s.machine)
    ensures Stuck(p, s) <==> OnlyPrefixes(s.machine)
  {
    CallEndsIff(step, s.machine);
  }

  /** A program that overwrites its copy instruction with a jump to itself hangs the session. */
  lemma {:induction false} CopyHangsDisconnect(step: Cpu -> Cpu, p: Program, m: Machine)
    requires Realizes(step, p.exec, p.ends) && CopyContract(step) && JumpContract(step)
    requires CopyAt(m) && Up(m) && m.regs.bc != 1
    requires m.regs.pc % 0x100 == 0xB0 && m.mem[m.regs.pc + 2] == m.regs.pc / 0x100
    requires m.regs.de == m.regs.pc && m.mem[m.regs.hl] == 0xC3
    ensures var s := WaitsForWorker(m);
      Reachable(p, s) && Stuck(p, s) && forall acts :: CanRun(p, s, acts) ==> acts == []
  {
    CopyBecomesJump(step, m);
    EndlessInstructionHangsDisconnect(p, m);
  }

  /** Instructions without block instructions among them all end if and only if none of them finds memory full of
      index prefixes: when that is so, the step commands return. */
  lemma {:induction false} AllEndIff(step: Cpu -> Cpu, t: Stepping.Target, m: Machine, n: nat)
    requires Realizes(step, t.exec, t.ends) && PrefixContract(step)
    requires forall k :: 0 <= k < n ==> !IsBlock(Iterate(t.exec, m, k))
    ensures Stepping.AllEnd(t, m, n) <==> forall k :: 0 <= k < n ==> !OnlyPrefixes(Iterate(t.exec, m, k))
  {
    assert Iterate(t.exec, m, 0) == m;
    StepTheorems.AllEndAt(t, m, 0, n);
    forall k | 0 <= k < n ensures t.ends(Iterate(t.exec, m, k)) <==> !OnlyPrefixes(Iterate(t.exec, m, k)) {
      CallEndsIff(step, Iterate(t.exec, m, k));
    }
  }
}
