/** What stepping over, stepping out and stepping back mean. */
module StepTheorems {
  import opened Text
  import opened Z80
  import opened SourceData
  import opened Stepping

  // ---- big-step execution --------------------------------------------------------

  /** The shape of an execution: instructions in the current function, and calls with everything
      their callee does (including further calls, to itself or others) up to the instruction that ends it. */
  datatype Trace =
    | Done
    | Plain(rest: Trace)
    | Call(body: Trace, after: Trace)

  function Length(tr: Trace): nat {
    match tr
    case Done => 0
    case Plain(rest) => 1 + Length(rest)
    case Call(body, after) => 1 + Length(body) + 1 + Length(after)
  }

  /** The machine after the whole of `tr`. */
  ghost function End(t: Target, m: Machine, tr: Trace): Machine
    decreases tr, 0
  {
    match tr
    case Done => m
    case Plain(rest) => End(t, t.exec(m), rest)
    case Call(body, after) => End(t, Returned(t, m, body), after)
  }

  /** The machine after the call at `m`, its callee's `body` and the instruction that ends it. */
  ghost function Returned(t: Target, m: Machine, body: Trace): Machine
    decreases body, 1
  {
    t.exec(End(t, t.exec(m), body))
  }

  /** The instruction at `last` ends the call made at `m`: a return, or any other that brings the stack pointer
      back to where it was, as JP (HL) or LD SP,HL do in a callee that cleans its own stack. */
  ghost predicate EndsCall(t: Target, m: Machine, last: Machine) {
    TakenRet(t, last) || Signed(t.exec(last).regs.sp) >= Signed(m.regs.sp)
  }

  /** `tr` is what executes from `m`.  A function that was called never returns inside its own trace;
      the outermost one may (`top`), as when the step crosses the end of a function. */
  ghost predicate Executes(t: Target, m: Machine, tr: Trace, top: bool)
    decreases tr
  {
    match tr
    case Done => true
    case Plain(rest) =>
      !TakenCall(t, m) && (top || !TakenRet(t, m)) && Executes(t, t.exec(m), rest, top)
    case Call(body, after) =>
      TakenCall(t, m) && Executes(t, t.exec(m), body, false)
      && EndsCall(t, m, End(t, t.exec(m), body)) && Executes(t, Returned(t, m, body), after, top)
  }

  // ---- the heuristic and when it is right ---------------------------------------------

  /** Every machine of `tr`, first and last included, has its stack pointer below `startSp` (as signed). */
  ghost predicate Below(t: Target, startSp: int, m: Machine, tr: Trace)
    decreases tr
  {
    Signed(m.regs.sp) < startSp &&
    match tr
    case Done => true
    case Plain(rest) => Below(t, startSp, t.exec(m), rest)
    case Call(body, after) =>
      Below(t, startSp, t.exec(m), body) && Below(t, startSp, Returned(t, m, body), after)
  }

  /** Inside every call that `tr` makes, the stack pointer stays below `startSp`. */
  ghost predicate CalleesBelow(t: Target, startSp: int, m: Machine, tr: Trace)
    decreases tr
  {
    match tr
    case Done => true
    case Plain(rest) => CalleesBelow(t, startSp, t.exec(m), rest)
    case Call(body, after) =>
      Below(t, startSp, t.exec(m), body) && CalleesBelow(t, startSp, Returned(t, m, body), after)
  }

  /** Every call that `tr` makes, at any depth, ends with a return instruction. */
  ghost predicate RetsOnly(t: Target, m: Machine, tr: Trace)
    decreases tr
  {
    match tr
    case Done => true
    case Plain(rest) => RetsOnly(t, t.exec(m), rest)
    case Call(body, after) =>
      RetsOnly(t, t.exec(m), body) && TakenRet(t, End(t, t.exec(m), body)) && RetsOnly(t, Returned(t, m, body), after)
  }

  /** The ends of calls are all such that the loop can see them: an outermost call ends with a return or
      brings the stack pointer back to `startSp`, and the calls inside it end with returns. */
  ghost predicate EndsSeen(t: Target, startSp: int, m: Machine, tr: Trace)
    decreases tr
  {
    match tr
    case Done => true
    case Plain(rest) => EndsSeen(t, startSp, t.exec(m), rest)
    case Call(body, after) =>
      && RetsOnly(t, t.exec(m), body)
      && (TakenRet(t, End(t, t.exec(m), body)) || Signed(Returned(t, m, body).regs.sp) >= startSp)
      && EndsSeen(t, startSp, Returned(t, m, body), after)
  }

  /** What the loop's heuristic relies on. */
  ghost predicate Tracked(t: Target, startSp: int, m: Machine, tr: Trace) {
    CalleesBelow(t, startSp, m, tr) && EndsSeen(t, startSp, m, tr)
  }

  /** The loop's `call_depth` after `tr`, when it was `depth` before. */
  ghost function DepthAfter(t: Target, startSp: int, m: Machine, tr: Trace, depth: nat): nat
    decreases tr
  {
    match tr
    case Done => depth
    case Plain(rest) => DepthAfter(t, startSp, t.exec(m), rest, NextDepth(t, startSp, m, depth))
    case Call(body, after) =>
      var inside := DepthAfter(t, startSp, t.exec(m), body, NextDepth(t, startSp, m, depth));
      DepthAfter(t, startSp, Returned(t, m, body), after,
                 NextDepth(t, startSp, End(t, t.exec(m), body), inside))
  }

  /** At every machine of `tr` the loop's `call_depth` is the number of calls really open. */
  ghost predicate DepthExact(t: Target, startSp: int, m: Machine, tr: Trace, open: nat, depth: nat)
    decreases tr
  {
    open == depth &&
    match tr
    case Done => true
    case Plain(rest) => DepthExact(t, startSp, t.exec(m), rest, open, NextDepth(t, startSp, m, depth))
    case Call(body, after) =>
      var entered := NextDepth(t, startSp, m, depth);
      var inside := DepthAfter(t, startSp, t.exec(m), body, entered);
      DepthExact(t, startSp, t.exec(m), body, open + 1, entered)
      && DepthExact(t, startSp, Returned(t, m, body), after, open,
                    NextDepth(t, startSp, End(t, t.exec(m), body), inside))
  }

  lemma {:induction false} DepthExactInside(t: Target, startSp: int, m: Machine, tr: Trace, depth: nat)
    requires Executes(t, m, tr, false) && depth > 0 && Signed(m.regs.sp) < startSp
    ensures DepthExact(t, startSp, m, tr, depth, depth) <==> Below(t, startSp, m, tr) && RetsOnly(t, m, tr)
    ensures Below(t, startSp, m, tr) && RetsOnly(t, m, tr) ==>
      DepthAfter(t, startSp, m, tr, depth) == depth && Signed(End(t, m, tr).regs.sp) < startSp
    decreases tr
  {
    match tr
    case Done =>
    case Plain(rest) =>
      if Signed(t.exec(m).regs.sp) < startSp {
        DepthExactInside(t, startSp, t.exec(m), rest, depth);
      }
    case Call(body, after) =>
      if Signed(t.exec(m).regs.sp) < startSp {
        DepthExactInside(t, startSp, t.exec(m), body, depth + 1);
        if Below(t, startSp, t.exec(m), body) && Signed(Returned(t, m, body).regs.sp) < startSp {
          DepthExactInside(t, startSp, Returned(t, m, body), after, depth);
        }
      }
  }

  /** `call_depth` is the true nesting depth all along an execution (recursive calls included) if and
      only if inside every callee the stack pointer, read as a signed number, stays below where it
      started, and no call ends unseen.  So it is wrong exactly when a callee pops past its return address,
      the stack crosses 0x8000, or a nested callee returns without a return instruction. */
  lemma {:induction false} DepthIsNestingIffTracked(t: Target, startSp: int, m: Machine, tr: Trace)
    requires Executes(t, m, tr, true)
    ensures DepthExact(t, startSp, m, tr, 0, 0) <==> Tracked(t, startSp, m, tr)
    decreases tr
  {
    match tr
    case Done =>
    case Plain(rest) => DepthIsNestingIffTracked(t, startSp, t.exec(m), rest);
    case Call(body, after) =>
      if Signed(t.exec(m).regs.sp) < startSp {
        DepthExactInside(t, startSp, t.exec(m), body, 1);
      }
      DepthIsNestingIffTracked(t, startSp, Returned(t, m, body), after);
  }

  /** A function and its callees keep to the stack discipline from a stack pointer of `sp` on: it stays at or
      below `sp` in the function itself, and each call pushes without crossing 0x8000 and its callee keeps
      to the discipline from there. */
  ghost predicate Disciplined(t: Target, sp: int, m: Machine, tr: Trace)
    decreases tr
  {
    Signed(m.regs.sp) <= sp &&
    match tr
    case Done => true
    case Plain(rest) => Disciplined(t, sp, t.exec(m), rest)
    case Call(body, after) =>
      && Signed(t.exec(m).regs.sp) < Signed(m.regs.sp)
      && Disciplined(t, Signed(t.exec(m).regs.sp), t.exec(m), body)
      && Disciplined(t, sp, Returned(t, m, body), after)
  }

  /** The same of every call that `tr` makes, from call sites at or below `startSp`. */
  ghost predicate CallsDisciplined(t: Target, startSp: int, m: Machine, tr: Trace)
    decreases tr
  {
    match tr
    case Done => true
    case Plain(rest) => CallsDisciplined(t, startSp, t.exec(m), rest)
    case Call(body, after) =>
      && Signed(t.exec(m).regs.sp) < Signed(m.regs.sp) <= startSp
      && Disciplined(t, Signed(t.exec(m).regs.sp), t.exec(m), body)
      && CallsDisciplined(t, startSp, Returned(t, m, body), after)
  }

  lemma {:induction false} DisciplinedIsBelow(t: Target, sp: int, startSp: int, m: Machine, tr: Trace)
    requires Disciplined(t, sp, m, tr) && sp < startSp
    ensures Below(t, startSp, m, tr)
    decreases tr
  {
    match tr
    case Done =>
    case Plain(rest) => DisciplinedIsBelow(t, sp, startSp, t.exec(m), rest);
    case Call(body, after) =>
      DisciplinedIsBelow(t, Signed(t.exec(m).regs.sp), startSp, t.exec(m), body);
      DisciplinedIsBelow(t, sp, startSp, Returned(t, m, body), after);
  }

  /** Ordinary code is tracked: calls made at or below the starting stack pointer, whose callees never rise
      above the stack pointer they were entered with. */
  lemma {:induction false} DisciplineKeepsCalleesBelow(t: Target, startSp: int, m: Machine, tr: Trace)
    requires CallsDisciplined(t, startSp, m, tr)
    ensures CalleesBelow(t, startSp, m, tr)
    decreases tr
  {
    match tr
    case Done =>
    case Plain(rest) => DisciplineKeepsCalleesBelow(t, startSp, t.exec(m), rest);
    case Call(body, after) =>
      DisciplinedIsBelow(t, Signed(t.exec(m).regs.sp), startSp, t.exec(m), body);
      DisciplineKeepsCalleesBelow(t, startSp, Returned(t, m, body), after);
  }

  // ---- step over refines big-step execution ------------------------------------------------

  /** No machine strictly inside `tr`, between two of its outermost items, satisfies `stop`. */
  ghost predicate NoStopBeforeEnd(t: Target, stop: word -> bool, m: Machine, tr: Trace)
    decreases tr
  {
    match tr
    case Done => true
    case Plain(rest) =>
      rest.Done? || (!stop(t.exec(m).regs.pc) && NoStopBeforeEnd(t, stop, t.exec(m), rest))
    case Call(body, after) =>
      after.Done?
      || (!stop(Returned(t, m, body).regs.pc) && NoStopBeforeEnd(t, stop, Returned(t, m, body), after))
  }

  /** The machine is inside a callee all along `tr`, with the stack below `startSp`, and the loop sees every call
      and every return that it makes. */
  ghost predicate Inside(t: Target, startSp: int, m: Machine, tr: Trace)
    decreases tr
  {
    Signed(m.regs.sp) < startSp &&
    match tr
    case Done => true
    case Plain(rest) => !TakenCall(t, m) && !TakenRet(t, m) && Inside(t, startSp, t.exec(m), rest)
    case Call(body, after) =>
      && TakenCall(t, m) && Inside(t, startSp, t.exec(m), body)
      && TakenRet(t, End(t, t.exec(m), body)) && Inside(t, startSp, Returned(t, m, body), after)
  }

  lemma {:induction false} InsideIs(t: Target, startSp: int, m: Machine, tr: Trace)
    requires Executes(t, m, tr, false) && Below(t, startSp, m, tr) && RetsOnly(t, m, tr)
    ensures Inside(t, startSp, m, tr)
    decreases tr
  {
    match tr
    case Done =>
    case Plain(rest) => InsideIs(t, startSp, t.exec(m), rest);
    case Call(body, after) =>
      InsideIs(t, startSp, t.exec(m), body);
      InsideIs(t, startSp, Returned(t, m, body), after);
  }

  lemma InsideStarts(t: Target, startSp: int, m: Machine, tr: Trace)
    requires Inside(t, startSp, m, tr)
    ensures Signed(m.regs.sp) < startSp
  {
  }

  /** While the depth stays positive the loop does not look at `stop`. */
  lemma LoopGoesOn(t: Target, stop: word -> bool, startSp: int, m: Machine, depth: nat, count: nat)
    requires count < STEP_LIMIT && depth > 0 && Signed(t.exec(m).regs.sp) < startSp
    ensures !TakenCall(t, m) && !TakenRet(t, m) ==>
      StepOverFrom(t, stop, startSp, m, depth, count) == StepOverFrom(t, stop, startSp, t.exec(m), depth, count + 1)
    ensures TakenCall(t, m) ==>
      StepOverFrom(t, stop, startSp, m, depth, count) == StepOverFrom(t, stop, startSp, t.exec(m), depth + 1, count + 1)
    ensures TakenRet(t, m) && depth > 1 ==>
      StepOverFrom(t, stop, startSp, m, depth, count) == StepOverFrom(t, stop, startSp, t.exec(m), depth - 1, count + 1)
  {
    StepOverNext(t, stop, startSp, m, depth, count);
  }

  /** A call made inside a callee, when the loop gets through its body to the count `mid`. */
  lemma {:induction false} LoopSkipsInner(t: Target, stop: word -> bool, startSp: int, m: Machine, body: Trace,
                                          depth: nat, count: nat, mid: nat)
    requires TakenCall(t, m) && depth > 0 && count < mid < STEP_LIMIT && Signed(t.exec(m).regs.sp) < startSp
    requires TakenRet(t, End(t, t.exec(m), body)) && Signed(Returned(t, m, body).regs.sp) < startSp
    requires StepOverFrom(t, stop, startSp, t.exec(m), depth + 1, count + 1)
      == StepOverFrom(t, stop, startSp, End(t, t.exec(m), body), depth + 1, mid)
    ensures StepOverFrom(t, stop, startSp, m, depth, count)
      == StepOverFrom(t, stop, startSp, Returned(t, m, body), depth, mid + 1)
  {
    LoopGoesOn(t, stop, startSp, m, depth, count);
    LoopGoesOn(t, stop, startSp, End(t, t.exec(m), body), depth + 1, mid);
  }

  lemma {:induction false} LoopSkipsBody(t: Target, stop: word -> bool, startSp: int, m: Machine, tr: Trace,
                                         depth: nat, count: nat, last: nat)
    requires Inside(t, startSp, m, tr) && depth > 0
    requires count + Length(tr) == last <= STEP_LIMIT
    ensures StepOverFrom(t, stop, startSp, m, depth, count) == StepOverFrom(t, stop, startSp, End(t, m, tr), depth, last)
    decreases tr
  {
    match tr
    case Done =>
    case Plain(rest) =>
      InsideStarts(t, startSp, t.exec(m), rest);
      LoopGoesOn(t, stop, startSp, m, depth, count);
      LoopSkipsBody(t, stop, startSp, t.exec(m), rest, depth, count + 1, last);
    case Call(body, after) =>
      var mid := count + 1 + Length(body);
      InsideStarts(t, startSp, t.exec(m), body);
      InsideStarts(t, startSp, Returned(t, m, body), after);
      LoopSkipsBody(t, stop, startSp, t.exec(m), body, depth + 1, count + 1, mid);
      LoopSkipsInner(t, stop, startSp, m, body, depth, count, mid);
      LoopSkipsBody(t, stop, startSp, Returned(t, m, body), after, depth, mid + 1, last);
  }

  lemma {:induction false} LoopEndsInBody(t: Target, stop: word -> bool, startSp: int, m: Machine, tr: Trace, depth: nat, count: nat)
    requires Inside(t, startSp, m, tr) && depth > 0
    requires count <= STEP_LIMIT <= count + Length(tr)
    ensures StepOverFrom(t, stop, startSp, m, depth, count).count == STEP_LIMIT
    decreases tr
  {
    if count < STEP_LIMIT {
      match tr
      case Plain(rest) =>
        InsideStarts(t, startSp, t.exec(m), rest);
        LoopGoesOn(t, stop, startSp, m, depth, count);
        LoopEndsInBody(t, stop, startSp, t.exec(m), rest, depth, count + 1);
      case Call(body, after) =>
        var mid := count + 1 + Length(body);
        InsideStarts(t, startSp, t.exec(m), body);
        if STEP_LIMIT <= mid {
          LoopGoesOn(t, stop, startSp, m, depth, count);
          LoopEndsInBody(t, stop, startSp, t.exec(m), body, depth + 1, count + 1);
        } else {
          InsideStarts(t, startSp, Returned(t, m, body), after);
          LoopSkipsBody(t, stop, startSp, t.exec(m), body, depth + 1, count + 1, mid);
          LoopSkipsInner(t, stop, startSp, m, body, depth, count, mid);
          LoopEndsInBody(t, stop, startSp, Returned(t, m, body), after, depth, mid + 1);
        }
    }
  }

  /** One instruction outside all calls. */
  lemma {:induction false} LoopPlain(t: Target, stop: word -> bool, startSp: int, m: Machine, count: nat)
    requires !TakenCall(t, m) && count < STEP_LIMIT
    ensures StepOverFrom(t, stop, startSp, m, 0, count)
      == if stop(t.exec(m).regs.pc) then Outcome(t.exec(m), count + 1)
         else StepOverFrom(t, stop, startSp, t.exec(m), 0, count + 1)
  {
    StepOverNext(t, stop, startSp, m, 0, count);
  }

  /** One outermost call. */
  lemma {:induction false} LoopSkipsCall(t: Target, stop: word -> bool, startSp: int, m: Machine, body: Trace,
                                         count: nat, next: Machine, mid: nat)
    requires TakenCall(t, m) && Inside(t, startSp, t.exec(m), body) && next == Returned(t, m, body)
    requires TakenRet(t, End(t, t.exec(m), body)) || Signed(next.regs.sp) >= startSp
    requires count + 2 + Length(body) == mid <= STEP_LIMIT
    ensures StepOverFrom(t, stop, startSp, m, 0, count)
      == if stop(next.regs.pc) then Outcome(next, mid) else StepOverFrom(t, stop, startSp, next, 0, mid)
  {
    InsideStarts(t, startSp, t.exec(m), body);
    StepOverNext(t, stop, startSp, m, 0, count);
    LoopSkipsBody(t, stop, startSp, t.exec(m), body, 1, count + 1, mid - 1);
    StepOverNext(t, stop, startSp, End(t, t.exec(m), body), 1, mid - 1);
  }

  lemma {:induction false} LoopEndsInCall(t: Target, stop: word -> bool, startSp: int, m: Machine, body: Trace, count: nat)
    requires TakenCall(t, m) && Inside(t, startSp, t.exec(m), body)
    requires count < STEP_LIMIT < count + 2 + Length(body)
    ensures StepOverFrom(t, stop, startSp, m, 0, count).count == STEP_LIMIT
  {
    InsideStarts(t, startSp, t.exec(m), body);
    StepOverNext(t, stop, startSp, m, 0, count);
    LoopEndsInBody(t, stop, startSp, t.exec(m), body, 1, count + 1);
  }

  lemma {:induction false} CallSplits(t: Target, startSp: int, m: Machine, body: Trace, after: Trace, next: Machine)
    requires Executes(t, m, Call(body, after), true) && Tracked(t, startSp, m, Call(body, after))
    requires next == Returned(t, m, body)
    ensures TakenCall(t, m) && Inside(t, startSp, t.exec(m), body)
    ensures TakenRet(t, End(t, t.exec(m), body)) || Signed(next.regs.sp) >= startSp
    ensures Executes(t, next, after, true) && Tracked(t, startSp, next, after)
  {
    InsideIs(t, startSp, t.exec(m), body);
  }

  lemma {:induction false} LoopReachesStop(t: Target, stop: word -> bool, startSp: int, m: Machine, tr: Trace, count: nat, last: nat)
    requires tr != Done && Executes(t, m, tr, true) && Tracked(t, startSp, m, tr) && NoStopBeforeEnd(t, stop, m, tr)
    requires count + Length(tr) == last <= STEP_LIMIT && stop(End(t, m, tr).regs.pc)
    ensures StepOverFrom(t, stop, startSp, m, 0, count) == Outcome(End(t, m, tr), last)
    decreases tr
  {
    match tr
    case Plain(rest) =>
      LoopPlain(t, stop, startSp, m, count);
      if rest != Done {
        LoopReachesStop(t, stop, startSp, t.exec(m), rest, count + 1, last);
      }
    case Call(body, after) =>
      var next, mid := Returned(t, m, body), count + 2 + Length(body);
      CallSplits(t, startSp, m, body, after, next);
      LoopSkipsCall(t, stop, startSp, m, body, count, next, mid);
      if after != Done {
        LoopReachesStop(t, stop, startSp, next, after, mid, last);
      }
  }

  lemma {:induction false} LoopReachesLimit(t: Target, stop: word -> bool, startSp: int, m: Machine, tr: Trace, count: nat, last: nat)
    requires Executes(t, m, tr, true) && Tracked(t, startSp, m, tr) && (tr != Done ==> NoStopBeforeEnd(t, stop, m, tr))
    requires count <= STEP_LIMIT <= last == count + Length(tr)
    requires last == STEP_LIMIT && tr != Done ==> !stop(End(t, m, tr).regs.pc)
    ensures StepOverFrom(t, stop, startSp, m, 0, count).count == STEP_LIMIT
    decreases tr
  {
    if count < STEP_LIMIT {
      match tr
      case Plain(rest) =>
        LoopPlain(t, stop, startSp, m, count);
        LoopReachesLimit(t, stop, startSp, t.exec(m), rest, count + 1, last);
      case Call(body, after) =>
        var next, mid := Returned(t, m, body), count + 2 + Length(body);
        CallSplits(t, startSp, m, body, after, next);
        if mid <= STEP_LIMIT {
          LoopSkipsCall(t, stop, startSp, m, body, count, next, mid);
          LoopReachesLimit(t, stop, startSp, next, after, mid, last);
        } else {
          LoopEndsInCall(t, stop, startSp, m, body, count);
        }
    }
  }

  lemma {:induction false} StepOverFromIterates(t: Target, stop: word -> bool, startSp: int, m: Machine, k: nat, depth: nat)
    requires k <= STEP_LIMIT
    ensures var r := StepOverFrom(t, stop, startSp, Iterate(t.exec, m, k), depth, k);
      k <= r.count <= STEP_LIMIT && r.machine == Iterate(t.exec, m, r.count)
    decreases STEP_LIMIT - k
  {
    if k < STEP_LIMIT {
      var now := Iterate(t.exec, m, k);
      assert Iterate(t.exec, m, k + 1) == t.exec(now);
      StepOverNext(t, stop, startSp, now, depth, k);
      StepOverFromIterates(t, stop, startSp, m, k + 1, NextDepth(t, startSp, now, depth));
    }
  }

  /** Whatever it skips, the loop executes instructions one after the other, at most its limit. */
  lemma {:induction false} StepOverIterates(t: Target, stop: word -> bool, m: Machine)
    ensures var r := StepOver(t, stop, m); r.count <= STEP_LIMIT && r.machine == Iterate(t.exec, m, r.count)
  {
    assert Iterate(t.exec, m, 0) == m;
    StepOverFromIterates(t, stop, Signed(m.regs.sp), m, 0, 0);
  }

  /** Step over is big-step execution: whole calls are skipped, and the step ends at the first machine
      between two outermost items that satisfies `stop`, or after exactly the instruction limit. */
  lemma StepOverSkipsWholeCalls(t: Target, stop: word -> bool, m: Machine, tr: Trace)
    requires tr != Done && Executes(t, m, tr, true) && Tracked(t, Signed(m.regs.sp), m, tr)
    requires NoStopBeforeEnd(t, stop, m, tr)
    ensures Length(tr) <= STEP_LIMIT && stop(End(t, m, tr).regs.pc) ==>
      StepOver(t, stop, m) == Outcome(End(t, m, tr), Length(tr))
    ensures Length(tr) > STEP_LIMIT || (Length(tr) == STEP_LIMIT && !stop(End(t, m, tr).regs.pc)) ==>
      StepOver(t, stop, m) == Outcome(Iterate(t.exec, m, STEP_LIMIT), STEP_LIMIT)
  {
    if Length(tr) <= STEP_LIMIT && stop(End(t, m, tr).regs.pc) {
      LoopReachesStop(t, stop, Signed(m.regs.sp), m, tr, 0, Length(tr));
    } else if Length(tr) >= STEP_LIMIT {
      LoopReachesLimit(t, stop, Signed(m.regs.sp), m, tr, 0, Length(tr));
    }
    StepOverIterates(t, stop, m);
  }

  /** An execution that ends with calls still open: `before`, then a call that has not come back, whose callee
      has done `callee` so far.  Endless recursion and a callee that never returns have one of any length. */
  datatype OpenTrace = Here(done: Trace) | Inner(before: Trace, callee: OpenTrace)

  function OpenLength(o: OpenTrace): nat {
    match o
    case Here(done) => Length(done)
    case Inner(before, callee) => Length(before) + 1 + OpenLength(callee)
  }

  /** What executes inside a call from `m` on, with the stack below `startSp` and returns that the loop sees. */
  ghost predicate StaysInside(t: Target, startSp: int, m: Machine, o: OpenTrace)
    decreases o
  {
    var first := if o.Here? then o.done else o.before;
    && Executes(t, m, first, false) && Below(t, startSp, m, first) && RetsOnly(t, m, first)
    && (o.Inner? ==> TakenCall(t, End(t, m, first)) && StaysInside(t, startSp, t.exec(End(t, m, first)), o.callee))
  }

  lemma {:induction false} StaysBelow(t: Target, startSp: int, m: Machine, o: OpenTrace)
    requires StaysInside(t, startSp, m, o)
    ensures Signed(m.regs.sp) < startSp
  {
  }

  lemma {:induction false} LoopEndsInOpenCall(t: Target, stop: word -> bool, startSp: int, m: Machine, o: OpenTrace,
                                              depth: nat, count: nat)
    requires StaysInside(t, startSp, m, o) && depth > 0
    requires count <= STEP_LIMIT <= count + OpenLength(o)
    ensures StepOverFrom(t, stop, startSp, m, depth, count).count == STEP_LIMIT
    decreases o
  {
    var first := if o.Here? then o.done else o.before;
    InsideIs(t, startSp, m, first);
    var mid := count + Length(first);
    if STEP_LIMIT <= mid {
      LoopEndsInBody(t, stop, startSp, m, first, depth, count);
    } else {
      var site := End(t, m, first);
      LoopSkipsBody(t, stop, startSp, m, first, depth, count, mid);
      StaysBelow(t, startSp, t.exec(site), o.callee);
      LoopGoesOn(t, stop, startSp, site, depth, mid);
      LoopEndsInOpenCall(t, stop, startSp, t.exec(site), o.callee, depth + 1, mid + 1);
    }
  }

  lemma {:induction false} LoopEntersOpenCall(t: Target, stop: word -> bool, startSp: int, site: Machine,
                                              callee: OpenTrace, count: nat)
    requires TakenCall(t, site) && StaysInside(t, startSp, t.exec(site), callee)
    requires count < STEP_LIMIT <= count + 1 + OpenLength(callee)
    ensures StepOverFrom(t, stop, startSp, site, 0, count).count == STEP_LIMIT
  {
    StaysBelow(t, startSp, t.exec(site), callee);
    StepOverNext(t, stop, startSp, site, 0, count);
    LoopEndsInOpenCall(t, stop, startSp, t.exec(site), callee, 1, count + 1);
  }

  /** No machine between outermost items of `tr` satisfies `stop`, nor does the last one. */
  ghost predicate NoStop(t: Target, stop: word -> bool, m: Machine, tr: Trace)
    decreases tr
  {
    match tr
    case Done => true
    case Plain(rest) => !stop(t.exec(m).regs.pc) && NoStop(t, stop, t.exec(m), rest)
    case Call(body, after) =>
      !stop(Returned(t, m, body).regs.pc) && NoStop(t, stop, Returned(t, m, body), after)
  }

  lemma {:induction false} NoStopAtEnd(t: Target, stop: word -> bool, m: Machine, tr: Trace)
    requires tr != Done && NoStop(t, stop, m, tr)
    ensures NoStopBeforeEnd(t, stop, m, tr) && !stop(End(t, m, tr).regs.pc)
    decreases tr
  {
    match tr
    case Plain(rest) =>
      if rest != Done {
        NoStopAtEnd(t, stop, t.exec(m), rest);
      }
    case Call(body, after) =>
      if after != Done {
        NoStopAtEnd(t, stop, Returned(t, m, body), after);
      }
  }

  lemma {:induction false} LoopPassesTrace(t: Target, stop: word -> bool, startSp: int, m: Machine, tr: Trace, count: nat, last: nat)
    requires Executes(t, m, tr, true) && Tracked(t, startSp, m, tr) && NoStop(t, stop, m, tr)
    requires count + Length(tr) == last <= STEP_LIMIT
    ensures StepOverFrom(t, stop, startSp, m, 0, count) == StepOverFrom(t, stop, startSp, End(t, m, tr), 0, last)
    decreases tr
  {
    match tr
    case Done =>
    case Plain(rest) =>
      LoopPassesTrace(t, stop, startSp, t.exec(m), rest, count + 1, last);
      LoopPlain(t, stop, startSp, m, count);
    case Call(body, after) =>
      var next, mid := Returned(t, m, body), count + 2 + Length(body);
      CallSplits(t, startSp, m, body, after, next);
      LoopSkipsCall(t, stop, startSp, m, body, count, next, mid);
      LoopPassesTrace(t, stop, startSp, next, after, mid, last);
  }

  /** A step over a call that does not come back within the limit, however deep it is in calls by then: the
      command ends after exactly 500000 instructions. */
  lemma {:induction false} StepOverEndsInOpenCall(t: Target, stop: word -> bool, m: Machine, before: Trace, callee: OpenTrace)
    requires Executes(t, m, before, true) && Tracked(t, Signed(m.regs.sp), m, before) && NoStop(t, stop, m, before)
    requires TakenCall(t, End(t, m, before))
    requires StaysInside(t, Signed(m.regs.sp), t.exec(End(t, m, before)), callee)
    requires Length(before) + 1 + OpenLength(callee) >= STEP_LIMIT
    ensures StepOver(t, stop, m) == Outcome(Iterate(t.exec, m, STEP_LIMIT), STEP_LIMIT)
  {
    var startSp, site, n := Signed(m.regs.sp), End(t, m, before), Length(before);
    StepOverIterates(t, stop, m);
    if n < STEP_LIMIT {
      LoopPassesTrace(t, stop, startSp, m, before, 0, n);
      LoopEntersOpenCall(t, stop, startSp, site, callee, n);
    } else {
      NoStopAtEnd(t, stop, m, before);
      LoopReachesLimit(t, stop, startSp, m, before, 0, n);
    }
  }

  /** The instructions that all end are those of the first `n` machines. */
  lemma {:induction false} AllEndAt(t: Target, m: Machine, k: nat, n: nat)
    ensures AllEnd(t, Iterate(t.exec, m, k), n) <==> forall j :: k <= j < k + n ==> t.ends(Iterate(t.exec, m, j))
    decreases n
  {
    if n > 0 {
      assert Iterate(t.exec, m, k + 1) == t.exec(Iterate(t.exec, m, k));
      AllEndAt(t, m, k + 1, n - 1);
    }
  }

  /** The transition out of the machine after `k` instructions satisfies `stop`. */
  ghost predicate StopsAt(t: Target, stop: (Machine, Machine) -> bool, m: Machine, k: nat) {
    stop(Iterate(t.exec, m, k), Iterate(t.exec, m, k + 1))
  }

  lemma {:induction false} RunUntilFrom(t: Target, stop: (Machine, Machine) -> bool, m: Machine, k: nat, limit: nat)
    requires limit > 0
    ensures var r := RunUntil(t, stop, Iterate(t.exec, m, k), limit);
      && 1 <= r.count <= limit && r.machine == Iterate(t.exec, m, k + r.count)
      && (forall j :: k <= j < k + r.count - 1 ==> !StopsAt(t, stop, m, j))
      && (StopsAt(t, stop, m, k + r.count - 1) || r.count == limit)
    decreases limit
  {
    var now := Iterate(t.exec, m, k);
    assert Iterate(t.exec, m, k + 1) == t.exec(now);
    if !stop(now, t.exec(now)) {
      if limit > 1 {
        RunUntilFrom(t, stop, m, k + 1, limit - 1);
      } else {
        assert RunUntil(t, stop, t.exec(now), 0).count == 0;
      }
    }
  }

  /** The loops of step in, step out and the unmapped walk execute the fewest instructions, at least
      one, whose last satisfies their condition, or else all of their limit. */
  lemma RunUntilStopsFirst(t: Target, stop: (Machine, Machine) -> bool, m: Machine, limit: nat)
    requires limit > 0
    ensures var r := RunUntil(t, stop, m, limit);
      && 1 <= r.count <= limit && r.machine == Iterate(t.exec, m, r.count)
      && (forall j :: 0 <= j < r.count - 1 ==> !StopsAt(t, stop, m, j))
      && (StopsAt(t, stop, m, r.count - 1) || r.count == limit)
  {
    RunUntilFrom(t, stop, m, 0, limit);
  }

  // ---- a callee that pops its return address -----------------------------------------------------

  function LowByte(w: word): byte { w % 0x100 }

  function HighByte(w: word): byte { w / 0x100 }

  function WordAt(mem: seq<byte>, a: word): word
    requires |mem| == MEMORY_SIZE
  {
    (mem[a] as int) + 0x100 * (mem[Word(a + 1)] as int)
  }

  function Pushed(mem: seq<byte>, sp: word, w: word): (r: seq<byte>)
    requires |mem| == MEMORY_SIZE
    ensures |r| == MEMORY_SIZE
  {
    mem[Word(sp - 1) := HighByte(w)][Word(sp - 2) := LowByte(w)]
  }

  /** The eight conditions NZ, Z, NC, C, PO, PE, P and M, on the flags in the low byte of AF. */
  predicate ConditionHolds(af: word, condition: int) {
    var flag := if condition < 2 then af / 0x40 % 2 else if condition < 4 then af % 2
                else if condition < 6 then af / 4 % 2 else af / 0x80 % 2;
    flag == condition % 2
  }

  /** CALL nn, CALL cc with its condition met, or RST. */
  predicate Calls(op: byte, af: word) {
    op == 0xCD || (op >= 0xC0 && op % 8 == 4 && ConditionHolds(af, op / 8 % 8)) || (op >= 0xC0 && op % 8 == 7)
  }

  /** RET, RET cc with its condition met, RETN or RETI. */
  predicate Returns(op: byte, op2: byte, af: word) {
    op == 0xC9 || (op >= 0xC0 && op % 8 == 0 && ConditionHolds(af, op / 8 % 8)) || (op == 0xED && op2 in {0x45, 0x4D})
  }

  /** CALL is three bytes long, RST one. */
  function CallLength(op: byte): nat { if op % 8 == 7 then 1 else 3 }

  /** Where a call leads: to the address in it, or for RST to one of eight fixed ones. */
  function CallEntry(m: Machine): word {
    if Opcode(m) % 8 == 7 && Opcode(m) >= 0xC0 then Opcode(m) - 0xC7 else WordAt(m.mem, Word(m.regs.pc + 1))
  }

  /** The Z80 on the instructions that call and return, on POP HL and on PUSH HL; a CALL cc that is not taken is
      skipped and every other instruction is taken for a NOP of one byte. */
  function StackExec(m: Machine): Machine {
    var r, op := m.regs, Opcode(m);
    if Calls(op, r.af) then
      MachineData(r.(pc := CallEntry(m), sp := Word(r.sp - 2)), Pushed(m.mem, r.sp, Word(r.pc + CallLength(op))))
    else if Returns(op, SecondOpcode(m), r.af) then
      m.(regs := r.(pc := WordAt(m.mem, r.sp), sp := Word(r.sp + 2), iff1 := if op == 0xED then r.iff2 else r.iff1))
    else if op == 0xE1 then m.(regs := r.(hl := WordAt(m.mem, r.sp), sp := Word(r.sp + 2), pc := Word(r.pc + 1)))
    else if op == 0xE5 then
      MachineData(r.(sp := Word(r.sp - 2), pc := Word(r.pc + 1)), Pushed(m.mem, r.sp, r.hl))
    else m.(regs := r.(pc := Word(r.pc + if op >= 0xC0 && op % 8 == 4 then 3 else 1)))
  }

  function StackTarget(): Target {
    Target(m => StackExec(m), m => true,
           pc => if pc == 0 then Some(Location("main.c", 1, false))
                 else if pc == 3 then Some(Location("main.c", 2, false))
                 else if pc == 0x101 then Some(Location("lib.c", 7, false)) else None,
           pc => None, true)
  }

  /** CALL 0100h at 0; at 0100h POP HL, PUSH HL and RET: a callee that looks at its return address. */
  predicate HoldsPopPush(mem: seq<byte>)
    requires |mem| == MEMORY_SIZE
  {
    mem[0] == 0xCD && mem[1] == 0 && mem[2] == 1 && mem[0x100] == 0xE1 && mem[0x101] == 0xE5 && mem[0x102] == 0xC9
  }

  /** The four machines of the execution. */
  function Called(m: Machine): Machine {
    MachineData(m.regs.(pc := 0x100, sp := Word(m.regs.sp - 2)), Pushed(m.mem, m.regs.sp, 3))
  }

  function Popped(m: Machine): Machine {
    MachineData(m.regs.(pc := 0x101, hl := 3), Pushed(m.mem, m.regs.sp, 3))
  }

  function PushedAgain(m: Machine): Machine {
    MachineData(m.regs.(pc := 0x102, hl := 3, sp := Word(m.regs.sp - 2)), Pushed(m.mem, m.regs.sp, 3))
  }

  function BackInMain(m: Machine): Machine {
    MachineData(m.regs.(pc := 3, hl := 3), Pushed(m.mem, m.regs.sp, 3))
  }

  /** The stack is away from the code and below 0x8000. */
  predicate AtPopPush(m: Machine) {
    HoldsPopPush(m.mem) && m.regs.pc == 0 && 0x200 <= m.regs.sp < 0x8000
  }

  lemma PushedHolds(mem: seq<byte>, sp: word)
    requires |mem| == MEMORY_SIZE && HoldsPopPush(mem) && 0x200 <= sp < 0x8000
    ensures HoldsPopPush(Pushed(mem, sp, 3)) && WordAt(Pushed(mem, sp, 3), Word(sp - 2)) == 3
    ensures Pushed(Pushed(mem, sp, 3), sp, 3) == Pushed(mem, sp, 3)
    ensures Word(sp - 2) == sp - 2 && Word(sp - 1) == sp - 1 && Word(Word(sp - 2) + 2) == sp
  {
  }

  lemma PopPushRun(m: Machine)
    requires AtPopPush(m)
    ensures StackExec(m) == Called(m)
    ensures StackExec(Called(m)) == Popped(m)
    ensures StackExec(Popped(m)) == PushedAgain(m)
    ensures StackExec(PushedAgain(m)) == BackInMain(m)
  {
    PushedHolds(m.mem, m.regs.sp);
  }

  lemma PopPushKinds(t: Target, m: Machine)
    requires t == StackTarget() && AtPopPush(m)
    ensures TakenCall(t, m)
    ensures !TakenCall(t, Called(m)) && !TakenRet(t, Called(m))
    ensures !TakenCall(t, Popped(m)) && !TakenRet(t, Popped(m))
    ensures TakenRet(t, PushedAgain(m))
  {
    PushedHolds(m.mem, m.regs.sp);
    PopPushRun(m);
  }

  lemma PopPushStops(t: Target, m: Machine)
    requires t == StackTarget() && AtPopPush(m)
    ensures StepOver(t, LeavesSource(t, Location("main.c", 1, false)), m).machine == Popped(m)
  {
    PushedHolds(m.mem, m.regs.sp);
    PopPushRun(m);
    PopPushKinds(t, m);
    var stop, sp := LeavesSource(t, Location("main.c", 1, false)), Signed(m.regs.sp);
    StepOverNext(t, stop, sp, m, 0, 0);
    assert NextDepth(t, sp, m, 0) == 1;
    StepOverNext(t, stop, sp, Called(m), 1, 1);
    assert NextDepth(t, sp, Called(m), 1) == 0;
  }

  /** Every call site is at or below the start, the stack is nowhere near 0x8000, the callee is matched by its
      return and comes back to the next line of the caller: yet step over stops inside it. */
  lemma StepOverStopsInsideCallee(m: Machine)
    requires AtPopPush(m)
    ensures var t := StackTarget(); var tr := Call(Plain(Plain(Done)), Done);
      && Executes(t, m, tr, true) && RetsOnly(t, m, tr)
      && NoStopBeforeEnd(t, LeavesSource(t, Location("main.c", 1, false)), m, tr)
      && End(t, m, tr).regs.pc == 3
      && !CalleesBelow(t, Signed(m.regs.sp), m, tr)
      && StepOutcome(t, m).machine.regs.pc == 0x101
  {
    var t := StackTarget();
    PushedHolds(m.mem, m.regs.sp);
    PopPushRun(m);
    PopPushKinds(t, m);
    PopPushStops(t, m);
    assert LookupAny(t, 0) == Some(Location("main.c", 1, false));
    PopPushTrace(t, m);
  }

  lemma PopPushTrace(t: Target, m: Machine)
    requires t == StackTarget() && AtPopPush(m)
    ensures var body := Plain(Plain(Done));
      && Executes(t, Called(m), body, false) && RetsOnly(t, Called(m), body)
      && End(t, Called(m), body) == PushedAgain(m)
      && !Below(t, Signed(m.regs.sp), Called(m), body)
  {
    PopPushRun(m);
    PopPushKinds(t, m);
    assert Executes(t, Popped(m), Plain(Done), false) && End(t, Popped(m), Plain(Done)) == PushedAgain(m);
    assert !Below(t, Signed(m.regs.sp), Popped(m), Plain(Done));
  }

  // ---- step out -----------------------------------------------------------------------------------

  /** The signed stack pointer is at most `sp` all along `tr`, first and last machine included. */
  ghost predicate AtMost(t: Target, sp: int, m: Machine, tr: Trace)
    decreases tr
  {
    Signed(m.regs.sp) <= sp &&
    match tr
    case Done => true
    case Plain(rest) => AtMost(t, sp, t.exec(m), rest)
    case Call(body, after) => AtMost(t, sp, t.exec(m), body) && AtMost(t, sp, Returned(t, m, body), after)
  }

  /** The stack discipline is one way to stay there. */
  lemma {:induction false} DisciplinedIsAtMost(t: Target, sp: int, m: Machine, tr: Trace)
    requires Disciplined(t, sp, m, tr)
    ensures AtMost(t, sp, m, tr)
    decreases tr
  {
    match tr
    case Done =>
    case Plain(rest) => DisciplinedIsAtMost(t, sp, t.exec(m), rest);
    case Call(body, after) =>
      DisciplinedIsBelow(t, Signed(t.exec(m).regs.sp), sp, t.exec(m), body);
      BelowIsAtMost(t, sp, t.exec(m), body);
      DisciplinedIsAtMost(t, sp, Returned(t, m, body), after);
  }

  lemma {:induction false} BelowIsAtMost(t: Target, sp: int, m: Machine, tr: Trace)
    requires Below(t, sp, m, tr)
    ensures AtMost(t, sp, m, tr)
    decreases tr
  {
    match tr
    case Done =>
    case Plain(rest) => BelowIsAtMost(t, sp, t.exec(m), rest);
    case Call(body, after) =>
      BelowIsAtMost(t, sp, t.exec(m), body);
      BelowIsAtMost(t, sp, Returned(t, m, body), after);
  }

  /** A trace lists single instructions: its end is the machine after as many as it is long. */
  lemma {:induction false} EndIterates(t: Target, m: Machine, tr: Trace, k: nat)
    ensures End(t, Iterate(t.exec, m, k), tr) == Iterate(t.exec, m, k + Length(tr))
    decreases tr
  {
    match tr
    case Done =>
    case Plain(rest) =>
      assert Iterate(t.exec, m, k + 1) == t.exec(Iterate(t.exec, m, k));
      EndIterates(t, m, rest, k + 1);
    case Call(body, after) =>
      var last := k + 1 + Length(body);
      assert Iterate(t.exec, m, k + 1) == t.exec(Iterate(t.exec, m, k));
      EndIterates(t, m, body, k + 1);
      assert Iterate(t.exec, m, last + 1) == Returned(t, Iterate(t.exec, m, k), body);
      EndIterates(t, m, after, last + 1);
  }

  lemma {:induction false} AtMostAt(t: Target, sp: int, m: Machine, tr: Trace, k: nat, j: nat)
    requires AtMost(t, sp, Iterate(t.exec, m, k), tr) && k <= j <= k + Length(tr)
    ensures Signed(Iterate(t.exec, m, j).regs.sp) <= sp
    decreases tr
  {
    assert Iterate(t.exec, m, k + 1) == t.exec(Iterate(t.exec, m, k));
    if j > k {
      match tr
      case Plain(rest) => AtMostAt(t, sp, m, rest, k + 1, j);
      case Call(body, after) =>
        var back := k + 1 + Length(body) + 1;
        EndIterates(t, m, body, k + 1);
        assert Iterate(t.exec, m, back) == Returned(t, Iterate(t.exec, m, k), body);
        if j < back {
          AtMostAt(t, sp, m, body, k + 1, j);
        } else {
          AtMostAt(t, sp, m, after, back, j);
        }
    }
  }

  /** The signed stack pointer after a return instruction, which wraps only at the top of the signed range. */
  lemma ReturnLifts(t: Target, m: Machine)
    requires TakenRet(t, m)
    ensures Signed(t.exec(m).regs.sp) > Signed(m.regs.sp) <==> Signed(m.regs.sp) < 0x7FFE
  {
    var before, after := Signed(m.regs.sp), Signed(t.exec(m).regs.sp);
    WordCases(after - before);
  }

  /** `rest` is what the current function, entered with the signed stack pointer `entry`, has left to do before
      its return instruction; on the way its stack pointer stays at or below `entry`. */
  ghost predicate ReturnsAfter(t: Target, entry: int, m: Machine, rest: Trace) {
    && AtMost(t, entry, m, rest)
    && TakenRet(t, End(t, m, rest))
    && Signed(End(t, m, rest).regs.sp) == entry
  }

  ghost predicate Lifted(t: Target, m: Machine, k: nat) {
    StopsAt(t, StopReturned(Signed(m.regs.sp)), m, k)
  }

  lemma {:induction false} LiftedWhen(t: Target, entry: int, m: Machine, rest: Trace)
    requires ReturnsAfter(t, entry, m, rest)
    ensures Signed(m.regs.sp) == entry ==>
      (forall j :: 0 <= j < Length(rest) ==> !Lifted(t, m, j)) && (Lifted(t, m, Length(rest)) <==> entry < 0x7FFE)
    ensures Signed(m.regs.sp) < entry ==> rest != Done && Lifted(t, m, Length(rest) - 1)
  {
    assert Iterate(t.exec, m, 0) == m;
    EndIterates(t, m, rest, 0);
    ReturnLifts(t, End(t, m, rest));
    forall j | 0 <= j < Length(rest) ensures !(Signed(m.regs.sp) == entry && Lifted(t, m, j)) {
      AtMostAt(t, entry, m, rest, 0, j + 1);
    }
  }

  /** Step out stops right after the return of the current function if and only if the stack pointer is back,
      when the command is given, at what the function was entered with.  With anything on the stack since then
      (a saved register, a frame, an argument) it stops at or before the instruction that takes that off, still
      inside the function.  A return at 0x7FFE or 0x7FFF wraps to the negative numbers and is not seen at all. */
  lemma {:induction false} StepOutLeavesFunctionIff(t: Target, entry: int, m: Machine, rest: Trace)
    requires ReturnsAfter(t, entry, m, rest) && Length(rest) < STEP_LIMIT
    ensures entry < 0x7FFE ==>
      (StepOutOutcome(t, m) == Outcome(t.exec(End(t, m, rest)), Length(rest) + 1) <==> Signed(m.regs.sp) == entry)
    ensures Signed(m.regs.sp) < entry ==> StepOutOutcome(t, m).count <= Length(rest)
    ensures Signed(m.regs.sp) == entry >= 0x7FFE ==>
      StepOutOutcome(t, m).count > Length(rest) + 1 || StepOutOutcome(t, m).count == STEP_LIMIT
  {
    var n := Length(rest);
    assert Signed(m.regs.sp) <= entry;
    LiftedWhen(t, entry, m, rest);
    RunUntilStopsFirst(t, StopReturned(Signed(m.regs.sp)), m, STEP_LIMIT);
    assert Iterate(t.exec, m, 0) == m;
    EndIterates(t, m, rest, 0);
    assert Iterate(t.exec, m, n + 1) == t.exec(Iterate(t.exec, m, n));
    var count := StepOutOutcome(t, m).count;
    assert forall j :: 0 <= j < count - 1 ==> !Lifted(t, m, j);
    assert Lifted(t, m, count - 1) || count == STEP_LIMIT;
  }

  /** PUSH HL, POP HL and RET at 0100h. */
  predicate HoldsPushPop(mem: seq<byte>)
    requires |mem| == MEMORY_SIZE
  {
    mem[0x100] == 0xE5 && mem[0x101] == 0xE1 && mem[0x102] == 0xC9
  }

  lemma PushKeepsCode(mem: seq<byte>, sp: word, w: word)
    requires |mem| == MEMORY_SIZE && HoldsPushPop(mem) && 0x200 <= sp < 0x7FFE
    ensures HoldsPushPop(Pushed(mem, sp, w))
    ensures Word(sp - 2) == sp - 2 && Word(sp - 1) == sp - 1 && Word(Word(sp - 2) + 2) == sp && Word(sp + 2) == sp + 2
  {
  }

  lemma PushPopRun(m: Machine)
    requires HoldsPushPop(m.mem) && m.regs.pc == 0x100 && 0x200 <= m.regs.sp < 0x7FFE
    ensures var pushed := StackExec(m); var popped := StackExec(pushed); var returned := StackExec(popped);
      && HoldsPushPop(pushed.mem) && pushed.regs.pc == 0x101 && pushed.regs.sp == m.regs.sp - 2
      && popped.mem == pushed.mem && popped.regs.pc == 0x102 && popped.regs.sp == m.regs.sp
      && returned.regs.sp == m.regs.sp + 2
  {
    PushKeepsCode(m.mem, m.regs.sp, m.regs.hl);
  }

  lemma PushPopKinds(t: Target, m: Machine)
    requires t == StackTarget() && HoldsPushPop(m.mem) && m.regs.pc == 0x100 && 0x200 <= m.regs.sp < 0x7FFE
    ensures !TakenCall(t, m) && !TakenRet(t, m)
    ensures !TakenCall(t, t.exec(m)) && !TakenRet(t, t.exec(m))
    ensures TakenRet(t, t.exec(t.exec(m)))
  {
    PushPopRun(m);
  }

  /** A function that saves a register: stepping out of its first instruction leaves it, stepping out of the
      second stops at its RET. */
  lemma {:induction false} StepOutStopsAtRet(m: Machine)
    requires HoldsPushPop(m.mem) && m.regs.pc == 0x100 && 0x200 <= m.regs.sp < 0x7FFE
    ensures var t := StackTarget(); var pushed := t.exec(m); var popped := t.exec(pushed);
      && Executes(t, m, Plain(Plain(Done)), false) && ReturnsAfter(t, m.regs.sp, m, Plain(Plain(Done)))
      && StepOutOutcome(t, m).machine == t.exec(popped)
      && Executes(t, pushed, Plain(Done), false) && ReturnsAfter(t, m.regs.sp, pushed, Plain(Done))
      && StepOutOutcome(t, pushed).machine == popped && popped.regs.pc == 0x102
  {
    var t := StackTarget();
    var pushed := t.exec(m);
    var popped := t.exec(pushed);
    PushPopRun(m);
    PushPopKinds(t, m);
    assert ReturnsAfter(t, m.regs.sp, popped, Done);
    assert Executes(t, pushed, Plain(Done), false) && ReturnsAfter(t, m.regs.sp, pushed, Plain(Done));
    assert End(t, pushed, Plain(Done)) == popped && End(t, m, Plain(Plain(Done))) == popped;
    StepOutLeavesFunctionIff(t, m.regs.sp, m, Plain(Plain(Done)));
    StepOutLeavesFunctionIff(t, m.regs.sp, pushed, Plain(Done));
    assert StepOutOutcome(t, pushed).count == 1;
    RunUntilStopsFirst(t, StopReturned(Signed(pushed.regs.sp)), pushed, STEP_LIMIT);
  }

  // ---- history ----------------------------------------------------------------------------------------

  /** `stack` is every pre-step machine not yet stepped back over, without a bound. */
  datatype Unbounded = Unbounded(machine: Machine, stack: seq<Machine>)

  /** The ideal undo stack.  `forgotten` says how many of its oldest entries can no longer be undone. */
  ghost function Ideal(u: Unbounded, c: Command, forgotten: nat): Unbounded {
    match c
    case Stepped(m) => Unbounded(m, u.stack + [u.machine])
    case Ran(m) => u.(machine := m)
    case Back =>
      if |u.stack| <= forgotten then u
      else Unbounded(u.stack[|u.stack| - 1], u.stack[..|u.stack| - 1])
  }

  ghost function Forgotten(u: Unbounded, c: Command, forgotten: nat): nat {
    if c.Stepped? && |u.stack| + 1 > forgotten + MAX_HISTORY then forgotten + 1 else forgotten
  }

  ghost predicate Suffix(b: Bounded, u: Unbounded, forgotten: nat) {
    && b.machine == u.machine
    && forgotten <= |u.stack|
    && b.history == u.stack[forgotten..]
    && |b.history| <= 1000
  }

  ghost function ObeyAll(b: Bounded, cs: seq<Command>): Bounded
    decreases |cs|
  {
    if cs == [] then b else ObeyAll(Obey(b, cs[0]), cs[1..])
  }

  ghost function IdealAll(u: Unbounded, cs: seq<Command>, forgotten: nat): (Unbounded, nat)
    decreases |cs|
  {
    if cs == [] then (u, forgotten)
    else IdealAll(Ideal(u, cs[0], forgotten), cs[1..], Forgotten(u, cs[0], forgotten))
  }

  /** Over any commands the history is a suffix of the unbounded stack, of at most a thousand entries. */
  lemma {:induction false} HistoryIsSuffix(b: Bounded, u: Unbounded, forgotten: nat, cs: seq<Command>)
    requires Suffix(b, u, forgotten)
    ensures var r := IdealAll(u, cs, forgotten); Suffix(ObeyAll(b, cs), r.0, r.1)
    decreases |cs|
  {
    if cs != [] {
      HistoryIsSuffix(Obey(b, cs[0]), Ideal(u, cs[0], forgotten), Forgotten(u, cs[0], forgotten), cs[1..]);
    }
  }

  ghost function Backs(k: nat): seq<Command> { seq(k, _ => Back) }

  ghost predicate AllStepped(cs: seq<Command>) {
    forall c :: c in cs ==> c.Stepped?
  }

  /** The machine before each of consecutive steps. */
  ghost function Before(m: Machine, steps: seq<Command>): seq<Machine>
    requires AllStepped(steps)
    decreases |steps|
  {
    if steps == [] then [] else [m] + Before(steps[0].after, steps[1..])
  }

  ghost function LastN(s: seq<Machine>, n: nat): seq<Machine> {
    if |s| <= n then s else s[|s| - n..]
  }

  lemma NthFromTheEnd(history: seq<Machine>, before: seq<Machine>, k: nat)
    requires 1 <= k <= 1000 && k <= |before|
    ensures var last := LastN(history + before, MAX_HISTORY);
      k <= |last| && last[|last| - k] == before[|before| - k]
  {
    var all := history + before;
    assert all[|all| - k] == before[|before| - k];
  }

  lemma RememberLast(history: seq<Machine>, m: Machine, rest: seq<Machine>)
    requires |history| <= MAX_HISTORY
    ensures LastN(Remember(history, m) + rest, MAX_HISTORY) == LastN(history + ([m] + rest), MAX_HISTORY)
  {
    var all := history + ([m] + rest);
    if |history| < MAX_HISTORY {
      Assoc(history, [m], rest);
    } else {
      assert Remember(history, m) + rest == all[1..];
    }
  }

  lemma {:induction false} StepsFillHistory(b: Bounded, steps: seq<Command>)
    requires AllStepped(steps) && |b.history| <= 1000
    ensures |Before(b.machine, steps)| == |steps|
    ensures ObeyAll(b, steps).history == LastN(b.history + Before(b.machine, steps), 1000)
    decreases |steps|
  {
    if steps == [] {
      assert b.history + [] == b.history;
    } else {
      assert steps[0] in steps;
      var b' := Obey(b, steps[0]);
      StepsFillHistory(b', steps[1..]);
      RememberLast(b.history, b.machine, Before(steps[0].after, steps[1..]));
    }
  }

  lemma {:induction false} BacksUnwind(b: Bounded, k: nat)
    requires 1 <= k <= |b.history|
    ensures ObeyAll(b, Backs(k)) == Bounded(b.history[|b.history| - k], b.history[..|b.history| - k])
    decreases k
  {
    assert Backs(k)[1..] == Backs(k - 1) && Backs(k)[0] == Back;
    if k > 1 {
      BacksUnwind(Obey(b, Back), k - 1);
    }
  }

  lemma {:induction false} ObeyAppend(b: Bounded, cs: seq<Command>, ds: seq<Command>)
    ensures ObeyAll(b, cs + ds) == ObeyAll(ObeyAll(b, cs), ds)
    decreases |cs|
  {
    if cs == [] {
      assert cs + ds == ds;
    } else {
      assert (cs + ds)[1..] == cs[1..] + ds;
      ObeyAppend(Obey(b, cs[0]), cs[1..], ds);
    }
  }

  lemma BacksAfter(b: Bounded, cs: seq<Command>, k: nat)
    requires 1 <= k <= |ObeyAll(b, cs).history|
    ensures var history := ObeyAll(b, cs).history;
      ObeyAll(b, cs + Backs(k)).machine == history[|history| - k]
  {
    ObeyAppend(b, cs, Backs(k));
    BacksUnwind(ObeyAll(b, cs), k);
  }

  /** A launch or a run does not clear the history: step-backs after it restore machines from before it, even
      when a launch has loaded another program since. */
  lemma {:induction false} StepBackCrossesLaunch(b: Bounded, steps: seq<Command>, launched: Machine, k: nat)
    requires AllStepped(steps) && |b.history| <= 1000
    requires 1 <= k <= |steps| && k <= 1000
    ensures |Before(b.machine, steps)| == |steps|
    ensures ObeyAll(b, steps + [Ran(launched)]).machine == launched
    ensures ObeyAll(b, steps + [Ran(launched)] + Backs(k)).machine == Before(b.machine, steps)[|steps| - k]
  {
    ObeyAppend(b, steps, [Ran(launched)]);
    assert [Ran(launched)][1..] == [];
    StepsFillHistory(b, steps);
    NthFromTheEnd(b.history, Before(b.machine, steps), k);
    BacksAfter(b, steps + [Ran(launched)], k);
  }

  /** After n consecutive steps, k step-backs restore the machine as it was before step n-k+1,
      for every k up to the number of steps and the size of the history. */
  lemma {:induction false} StepBackUndoesSteps(b: Bounded, steps: seq<Command>, k: nat)
    requires AllStepped(steps) && |b.history| <= 1000
    requires 1 <= k <= |steps| && k <= 1000
    ensures |Before(b.machine, steps)| == |steps|
    ensures ObeyAll(b, steps + Backs(k)).machine == Before(b.machine, steps)[|steps| - k]
  {
    StepsFillHistory(b, steps);
    NthFromTheEnd(b.history, Before(b.machine, steps), k);
    BacksAfter(b, steps, k);
  }
}
