/**
 The instrumented module and its reference: a module in which every mutated function
 simply has the body its trampoline would dispatch to. Both directions of the
 simulation are one induction; `forward` says which of the two programs runs first.
 */
module Simulation {
  import opened IR
  import opened Interpreter
  import opened Trampoline

  predicate SafeValue(n: nat, v: Value) {
    v.Fn? ==> v.id < n
  }

  predicate SafeArgs(n: nat, args: seq<Value>) {
    forall v | v in args :: SafeValue(n, v)
  }

  predicate SafeWorld(n: nat, w: World) {
    forall a | a in w.memory :: SafeValue(n, w.memory[a])
  }

  predicate SafeFrame(n: nat, fr: Frame) {
    && SafeArgs(n, fr.args)
    && (forall r | r in fr.regs :: SafeValue(n, fr.regs[r]))
    && (forall r | r in fr.slots :: SafeValue(n, fr.slots[r]))
  }

  predicate SafeResult(n: nat, r: OpResult) {
    r.Done? ==> SafeValue(n, r.value) && SafeWorld(n, r.world)
  }

  /** No instruction fabricates the address of a function that the source module does not have. */
  ghost predicate SafeMachine(n: nat, m: Machine) {
    && (forall opcode, args, w | SafeArgs(n, args) && SafeWorld(n, w) :: SafeResult(n, m.op(opcode, args, w)))
    && (forall name, args, w | SafeArgs(n, args) && SafeWorld(n, w) :: SafeResult(n, m.external(name, args, w)))
  }

  /** `p[f]` is a trampoline that, under `env`, dispatches to a function with the body of `r`. */
  ghost predicate Trampolined(env: map<string, string>, r: Function, p: seq<Function>, f: FnId, copy: FnId,
                              choices: seq<Choice>, limit: nat) {
    && f < |p|
    && r.body != [] && !r.variadic
    && p[f] == r.(body := Build(r.isVoid, r.arity, FnRef(copy), choices))
    && |choices| + 3 <= limit
    && var t := Dispatch(env, copy, choices);
       && t < |p|
       && p[t].body == r.body && p[t].arity == r.arity && p[t].isVoid == r.isVoid && !p[t].variadic
  }

  ghost predicate Implements(env: map<string, string>, ref: seq<Function>, p: seq<Function>, limit: nat) {
    && |ref| <= |p|
    && forall f: FnId | f < |ref| ::
         p[f] == ref[f] || exists copy, choices :: Trampolined(env, ref[f], p, f, copy, choices, limit)
  }

  ghost predicate Related(m: Machine, ref: seq<Function>, p: seq<Function>, limit: nat) {
    && Implements(m.env, ref, p, limit)
    && SafeMachine(|ref|, m)
    && forall f: FnId | f < |ref| :: SafeBody(|ref|, ref[f].body)
  }

  /** Running out of fuel says nothing; every other outcome is exact. */
  predicate Refines(o1: Outcome, o2: Outcome) {
    o1 == OutOfFuel || o1 == o2
  }

  /** How much fuel the second program needs for the first one's outcome. */
  predicate Enough(forward: bool, limit: nat, depth1: nat, budget1: nat, depth2: nat, budget2: nat) {
    && budget1 <= budget2
    && (if forward then limit <= budget2 && 2 * depth1 <= depth2 else depth1 <= depth2)
  }

  function First(forward: bool, ref: seq<Function>, p: seq<Function>): seq<Function> {
    if forward then ref else p
  }

  lemma {:induction false} SafeEntry(n: nat, phis: seq<Phi>, from: Option<Label>, before: Frame, fr: Frame)
    requires forall phi | phi in phis :: SafePhi(n, phi)
    requires SafeFrame(n, before) && SafeFrame(n, fr)
    ensures EnterPhis(phis, from, before, fr).Some? ==> SafeFrame(n, EnterPhis(phis, from, before, fr).value)
  {
    if phis != [] && from.Some? {
      EntryForFacts(phis[0].incoming, from.value);
      var o := PhiOperand(phis[0], from.value);
      if o.Some? {
        assert SafePhi(n, phis[0]);
        assert SafeOperand(n, o.value);
        SafeEntry(n, phis[1..], from, before, fr.(regs := fr.regs[phis[0].dst := Eval(o.value, before)]));
      }
    }
  }

  lemma SafeEval(n: nat, o: Operand, fr: Frame)
    requires SafeOperand(n, o) && SafeFrame(n, fr)
    ensures SafeValue(n, Eval(o, fr))
  {}

  lemma SafeEvalAll(n: nat, os: seq<Operand>, fr: Frame)
    requires (forall o | o in os :: SafeOperand(n, o)) && SafeFrame(n, fr)
    ensures SafeArgs(n, EvalAll(os, fr))
  {
    forall i | 0 <= i < |os| ensures SafeValue(n, EvalAll(os, fr)[i]) {
      SafeEval(n, os[i], fr);
    }
  }

  /** What a run leaves behind mentions functions of the source module only. */
  predicate SafeOutcome(n: nat, o: Outcome) {
    o.Returned? ==> SafeValue(n, o.value) && SafeWorld(n, o.world)
  }

  predicate SafeProgress(n: nat, r: Progress) {
    r.Running? ==> SafeFrame(n, r.frame) && SafeWorld(n, r.world)
  }

  lemma {:induction false} SimCode(m: Machine, ref: seq<Function>, p: seq<Function>, limit: nat, forward: bool,
                                   d1: nat, k1: nat, d2: nat, k2: nat, code: seq<Instr>, fr: Frame, w: World)
    requires Related(m, ref, p, limit) && Enough(forward, limit, d1, k1, d2, k2)
    requires SafeCode(|ref|, code) && SafeFrame(|ref|, fr) && SafeWorld(|ref|, w)
    ensures var r1 := RunCode(m, First(forward, ref, p), d1, k1, code, fr, w);
            var r2 := RunCode(m, First(!forward, ref, p), d2, k2, code, fr, w);
            && (r1 == Halted(OutOfFuel) || r1 == r2)
            && SafeProgress(|ref|, r1)
            && !(r1.Halted? && r1.outcome.Returned?)
    decreases d1, 0, 1 + |code|
  {
    if code != [] {
      assert code[0] in code;
      var i := code[0];
      if i.Call? {
        var callee := Eval(i.callee, fr);
        if callee.Fn? {
          var args := EvalAll(i.args, fr);
          SafeEvalAll(|ref|, i.args, fr);
          SafeEval(|ref|, i.callee, fr);
          SimInvoke(m, ref, p, limit, forward, d1, k1, d2, k2, callee.id, args, w);
          var o := Invoke(m, First(forward, ref, p), d1, k1, callee.id, args, w);
          if o.Returned? {
            SimCode(m, ref, p, limit, forward, d1, k1, d2, k2, code[1..], SetReg(fr, i.dst, o.value), o.world);
          }
        }
      } else {
        if i.Op? {
          SafeEvalAll(|ref|, i.args, fr);
        }
        var s := Simple(m, i, fr, w);
        if s.Running? {
          SimCode(m, ref, p, limit, forward, d1, k1, d2, k2, code[1..], s.frame, s.world);
        }
      }
    }
  }

  lemma {:induction false} SimArrive(m: Machine, ref: seq<Function>, p: seq<Function>, limit: nat, forward: bool,
                                     d1: nat, k1: nat, d2: nat, k2: nat, block: Block,
                                     from: Option<Label>, fr: Frame, w: World)
    requires Related(m, ref, p, limit) && Enough(forward, limit, d1, k1, d2, k2)
    requires SafeBlock(|ref|, block) && SafeFrame(|ref|, fr) && SafeWorld(|ref|, w)
    ensures var r1 := Arrive(m, First(forward, ref, p), d1, k1, block, from, fr, w);
            var r2 := Arrive(m, First(!forward, ref, p), d2, k2, block, from, fr, w);
            && (r1 == Halted(OutOfFuel) || r1 == r2)
            && SafeProgress(|ref|, r1)
            && !(r1.Halted? && r1.outcome.Returned?)
    decreases d1, 1, 0
  {
    SafeEntry(|ref|, block.phis, from, fr, fr);
    var entered := EnterPhis(block.phis, from, fr, fr);
    if entered.Some? {
      SimCode(m, ref, p, limit, forward, d1, k1, d2, k2, block.code, entered.value, w);
    }
  }

  lemma {:induction false} SimBlock(m: Machine, ref: seq<Function>, p: seq<Function>, limit: nat, forward: bool,
                                    d1: nat, k1: nat, left1: nat, d2: nat, k2: nat, left2: nat,
                                    body: Body, cur: Label, from: Option<Label>, fr: Frame, w: World)
    requires Related(m, ref, p, limit) && Enough(forward, limit, d1, k1, d2, k2) && left1 <= left2
    requires SafeBody(|ref|, body) && SafeFrame(|ref|, fr) && SafeWorld(|ref|, w)
    ensures var o1 := RunBlock(m, First(forward, ref, p), d1, k1, left1, body, cur, from, fr, w);
            && Refines(o1, RunBlock(m, First(!forward, ref, p), d2, k2, left2, body, cur, from, fr, w))
            && SafeOutcome(|ref|, o1)
    decreases d1, 2 + left1, 0
  {
    if left1 > 0 && cur < |body| {
      var block := body[cur];
      assert SafeBlock(|ref|, block);
      SimArrive(m, ref, p, limit, forward, d1, k1, d2, k2, block, from, fr, w);
      var r := Arrive(m, First(forward, ref, p), d1, k1, block, from, fr, w);
      if r.Running? {
        match block.term
        case Br(t) =>
          SimBlock(m, ref, p, limit, forward, d1, k1, left1 - 1, d2, k2, left2 - 1, body,
                   t, Some(cur), r.frame, r.world);
        case CondBr(c, ifFalse, ifTrue) =>
          var v := Eval(c, r.frame);
          if v.Int? {
            SimBlock(m, ref, p, limit, forward, d1, k1, left1 - 1, d2, k2, left2 - 1, body,
                     if v.n != 0 then ifTrue else ifFalse, Some(cur), r.frame, r.world);
          }
        case _ =>
      }
    }
  }

  /** Calling a trampoline costs one level of depth and then behaves as the reference function. */
  lemma InvokeTrampoline(m: Machine, r: Function, p: seq<Function>, f: FnId, copy: FnId, choices: seq<Choice>,
                         limit: nat,
                         depth: nat, budget: nat, args: seq<Value>, w: World)
    requires Trampolined(m.env, r, p, f, copy, choices, limit) && Accepts(r, args)
    ensures Invoke(m, p, depth, budget, f, args, w)
         == if depth == 0 || budget < 1 + PathLength(m.env, choices) || depth == 1 then OutOfFuel
            else Finish(r.isVoid, RunBlock(m, p, depth - 2, budget, budget, r.body, 0, None, Start(args), w))
    ensures 1 + PathLength(m.env, choices) <= limit
  {
    PathLengthBound(m.env, choices);
    if depth > 0 {
      RunTrampoline(m, p, depth - 1, budget, budget, r.isVoid, r.arity, copy, choices, w, args);
      assert args[..r.arity] == args;
    }
  }

  lemma {:induction false} SimInvoke(m: Machine, ref: seq<Function>, p: seq<Function>, limit: nat, forward: bool,
                                     d1: nat, k1: nat, d2: nat, k2: nat, f: FnId, args: seq<Value>, w: World)
    requires Related(m, ref, p, limit) && Enough(forward, limit, d1, k1, d2, k2)
    requires f < |ref| && SafeArgs(|ref|, args) && SafeWorld(|ref|, w)
    ensures var o1 := Invoke(m, First(forward, ref, p), d1, k1, f, args, w);
            && Refines(o1, Invoke(m, First(!forward, ref, p), d2, k2, f, args, w))
            && SafeOutcome(|ref|, o1)
    decreases d1, 0, 0
  {
    var r := ref[f];
    if d1 == 0 || !Accepts(r, args) {
    } else if r.body == [] {
      assert p[f] == r;
      assert SafeResult(|ref|, m.external(r.name, args, w));
    } else if p[f] == r {
      SimBlock(m, ref, p, limit, forward, d1 - 1, k1, k1, d2 - 1, k2, k2, r.body, 0, None, Start(args), w);
    } else {
      var copy, choices :| Trampolined(m.env, r, p, f, copy, choices, limit);
      if forward {
        InvokeTrampoline(m, r, p, f, copy, choices, limit, d2, k2, args, w);
        SimBlock(m, ref, p, limit, true, d1 - 1, k1, k1, d2 - 2, k2, k2, r.body, 0, None, Start(args), w);
      } else {
        InvokeTrampoline(m, r, p, f, copy, choices, limit, d1, k1, args, w);
        if d1 >= 2 {
          SimBlock(m, ref, p, limit, false, d1 - 2, k1, k1, d2 - 1, k2, k2, r.body, 0, None, Start(args), w);
        }
      }
    }
  }

  /** Some amount of fuel makes the call end with outcome `o`. */
  ghost predicate Ends(m: Machine, p: seq<Function>, f: FnId, args: seq<Value>, w: World, o: Outcome) {
    exists depth: nat, budget: nat :: Invoke(m, p, depth, budget, f, args, w) == o
  }

  /** The two programs have the same terminating behaviours, and so diverge together. */
  lemma SameBehaviour(m: Machine, ref: seq<Function>, p: seq<Function>, limit: nat, f: FnId, args: seq<Value>,
                      w: World, o: Outcome)
    requires Related(m, ref, p, limit)
    requires f < |ref| && SafeArgs(|ref|, args) && SafeWorld(|ref|, w) && o != OutOfFuel
    ensures Ends(m, ref, f, args, w, o) <==> Ends(m, p, f, args, w, o)
  {
    if Ends(m, ref, f, args, w, o) {
      var depth: nat, budget: nat :| Invoke(m, ref, depth, budget, f, args, w) == o;
      SimInvoke(m, ref, p, limit, true, depth, budget, 2 * depth, budget + limit, f, args, w);
      assert Invoke(m, p, 2 * depth, budget + limit, f, args, w) == o;
    }
    if Ends(m, p, f, args, w, o) {
      var depth: nat, budget: nat :| Invoke(m, p, depth, budget, f, args, w) == o;
      SimInvoke(m, ref, p, limit, false, depth, budget, depth, budget, f, args, w);
      assert Invoke(m, ref, depth, budget, f, args, w) == o;
    }
  }
}
