/**
 Chains in the interpreter: each condition is evaluated in the frame and the world in which control
 reaches it, so blocks of a chain may call functions and have effects.
 */
module ChainRuns {
  import opened IR
  import opened Interpreter
  import opened Rewriting
  import opened PhiRules
  import opened Chains
  import AndToOr

  datatype Context = Context(m: Machine, p: seq<Function>, depth: nat, budget: nat) {
    function Enter(b: Block, from: Option<Label>, fr: Frame, w: World): Progress {
      Arrive(m, p, depth, budget, b, from, fr, w)
    }

    function Run(left: nat, body: Body, l: Label, from: Option<Label>, fr: Frame, w: World): Outcome {
      RunBlock(m, p, depth, budget, left, body, l, from, fr, w)
    }
  }

  /** What evaluating operands leads to: a truth value, after entering some blocks, or the end of the run. */
  datatype Verdict =
    | Decided(holds: bool, last: Option<Label>, frame: Frame, world: World, entered: nat)
    | Stopped(outcome: Outcome)

  function Entering(v: Verdict, n: nat): Verdict {
    if v.Decided? then v.(entered := v.entered + n) else v
  }

  /** Operand k by itself. */
  ghost function EvaluateOne(x: Context, body: Body, c: Chain, k: nat, from: Option<Label>, fr: Frame,
                             w: World): (v: Verdict)
    requires k < c.Length() && IsConditional(body, c.start + k)
    ensures v.Decided? ==> v.entered == 1
  {
    match x.Enter(body[c.start + k], from, fr, w)
    case Halted(o) => Stopped(o)
    case Running(fr', w') =>
      var v := Eval(body[c.start + k].term.cond, fr');
      if !v.Int? then Stopped(Crashed) else Decided((v.n != 0) != c.negated[k], Some(c.start + k), fr', w', 1)
  }

  /** Operands k to n - 1, from left to right until one fails. */
  ghost function Evaluate(x: Context, body: Body, c: Chain, k: nat, n: nat, from: Option<Label>, fr: Frame,
                          w: World): (v: Verdict)
    requires Lowered(body, c) && k <= n <= c.Length()
    ensures v.Decided? ==> v.entered <= n - k
    decreases n - k
  {
    if k == n then Decided(true, from, fr, w, 0)
    else
      assert LoweredAt(body, c, k);
      var v := EvaluateOne(x, body, c, k, from, fr, w);
      if v.Decided? && v.holds then Entering(Evaluate(x, body, c, k + 1, n, v.last, v.frame, v.world), 1) else v
  }

  /** Operand i, or operands i + 1 to j if it fails; then the others. */
  ghost function EvaluateEither(x: Context, body: Body, c: Chain, i: nat, j: nat, from: Option<Label>, fr: Frame,
                                w: World): Verdict
    requires Lowered(body, c) && i < j < c.Length()
  {
    assert LoweredAt(body, c, i);
    var v := EvaluateOne(x, body, c, i, from, fr, w);
    if v.Stopped? then v
    else Entering(Evaluate(x, body, c, if v.holds then j + 1 else i + 1, c.Length(), v.last, v.frame, v.world), 1)
  }

  /** The same after operands 0 to i - 1. */
  ghost function EvaluateWeakened(x: Context, body: Body, c: Chain, i: nat, j: nat, from: Option<Label>, fr: Frame,
                                  w: World): Verdict
    requires Lowered(body, c) && i < j < c.Length()
  {
    var before := Evaluate(x, body, c, 0, i, from, fr, w);
    if before.Stopped? || !before.holds then before
    else Entering(EvaluateEither(x, body, c, i, j, before.last, before.frame, before.world), before.entered)
  }

  /** The run after the verdict, at one of the chain's two exits. */
  function Leave(x: Context, left: nat, r: Body, c: Chain, v: Verdict): Outcome {
    match v
    case Stopped(o) => o
    case Decided(holds, last, fr, w, entered) =>
      if left < entered then OutOfFuel
      else x.Run(left - entered, r, if holds then c.ifHolds else c.ifFails, last, fr, w)
  }

  ghost predicate SameInside(body: Body, r: Body, c: Chain) {
    && |r| == |body|
    && forall l: Label | l < |body| && c.Inside(l) :: r[l].code == body[l].code && r[l].phis == body[l].phis
  }

  /** Where operand k is evaluated, or where control goes after the last one. */
  function At(c: Chain, k: nat): Label {
    if k < c.Length() then c.start + k else c.ifHolds
  }

  lemma RunOne(x: Context, body: Body, r: Body, c: Chain, k: nat, whenHolds: Label, whenFails: Label,
               left: nat, from: Option<Label>, fr: Frame, w: World)
    requires Lowered(body, c) && SameInside(body, r, c) && k < c.Length() && left > 0
    requires Leads(r[c.start + k].term, c.negated[k], whenHolds, whenFails)
    requires IsConditional(body, c.start + k) && r[c.start + k].term.cond == body[c.start + k].term.cond
    ensures x.Run(left, r, c.start + k, from, fr, w)
         == match EvaluateOne(x, body, c, k, from, fr, w)
            case Stopped(o) => o
            case Decided(holds, last, fr', w', _) => x.Run(left - 1, r, if holds then
              whenHolds else whenFails, last, fr', w')
  {
    assert c.Inside(c.start + k);
    assert x.Enter(r[c.start + k], from, fr, w) == x.Enter(body[c.start + k], from, fr, w);
  }

  ghost predicate SameFrom(body: Body, r: Body, c: Chain, k: nat) {
    |r| == |body| && forall l: Label | c.start + k <= l < |body| :: r[l].term == body[l].term
  }

  /** Operands whose branches are unchanged are evaluated as ever. */
  lemma {:induction false} RunTail(x: Context, body: Body, r: Body, c: Chain, k: nat,
                                   left: nat, from: Option<Label>, fr: Frame, w: World)
    requires Lowered(body, c) && SameFrom(body, r, c, k) && SameInside(body, r, c)
    requires k <= c.Length() && left >= c.Length() - k
    ensures x.Run(left, r, At(c, k), from, fr, w)
         == Leave(x, left, r, c, Evaluate(x, body, c, k, c.Length(), from, fr, w))
    decreases c.Length() - k
  {
    if k < c.Length() {
      assert LoweredAt(body, c, k) && r[c.start + k].term == body[c.start + k].term;
      RunOne(x, body, r, c, k, c.Next(k), c.ifFails, left, from, fr, w);
      var v := EvaluateOne(x, body, c, k, from, fr, w);
      if v.Decided? && v.holds {
        RunTail(x, body, r, c, k + 1, left - 1, v.last, v.frame, v.world);
        LeaveLater(x, left, r, c, Evaluate(x, body, c, k + 1, c.Length(), v.last, v.frame, v.world), 1);
      }
    }
  }

  /** The chain itself evaluates its operands from left to right until one fails. */
  lemma ChainRun(x: Context, body: Body, c: Chain, left: nat, from: Option<Label>, fr: Frame, w: World)
    requires Lowered(body, c) && c.Length() > 0 && left >= c.Length()
    ensures x.Run(left, body, c.start, from, fr, w)
         == Leave(x, left, body, c, Evaluate(x, body, c, 0, c.Length(), from, fr, w))
  {
    RunTail(x, body, body, c, 0, left, from, fr, w);
  }

  /** The run after a verdict on the operands before i: on to operand i if they hold. */
  function Reach(x: Context, left: nat, r: Body, c: Chain, i: nat, v: Verdict): Outcome {
    if v.Decided? && v.holds && v.entered <= left then x.Run(left - v.entered, r, c.start + i, v.last, v.frame, v.world)
    else Leave(x, left, r, c, v)
  }

  lemma ReachLater(x: Context, left: nat, r: Body, c: Chain, i: nat, v: Verdict)
    requires left > 0
    ensures Reach(x, left, r, c, i, Entering(v, 1)) == Reach(x, left - 1, r, c, i, v)
  {}

  /** Operands before i are evaluated as ever, up to there. */
  lemma {:induction false} RunHead(x: Context, body: Body, r: Body, c: Chain, i: nat, k: nat,
                                   left: nat, from: Option<Label>, fr: Frame, w: World)
    requires Lowered(body, c) && ChangedAt(body, r, c, i) && SameInside(body, r, c)
    requires k <= i < c.Length() && left >= i - k
    ensures x.Run(left, r, c.start + k, from, fr, w) == Reach(x, left, r, c, i, Evaluate(x, body, c, k, i, from, fr, w))
    decreases i - k
  {
    if k < i {
      assert LoweredAt(body, c, k) && r[c.start + k].term == body[c.start + k].term;
      RunOne(x, body, r, c, k, c.Next(k), c.ifFails, left, from, fr, w);
      var v := EvaluateOne(x, body, c, k, from, fr, w);
      if v.Decided? && v.holds {
        RunHead(x, body, r, c, i, k + 1, left - 1, v.last, v.frame, v.world);
        ReachLater(x, left, r, c, i, Evaluate(x, body, c, k + 1, i, v.last, v.frame, v.world));
      }
    }
  }

  lemma NextHasNoPhis(body: Body, c: Chain, j: nat)
    requires Lowered(body, c) && j < c.Length()
    ensures c.Next(j) < |body| && (c.Inside(c.Next(j)) ==> body[c.Next(j)].phis == [])
  {
    if j + 1 < c.Length() {
      assert LoweredAt(body, c, j + 1);
    }
  }

  /** Only the branch of operand i differs: where it leads if the operand holds, and where if not. */
  ghost predicate Redirected(body: Body, r: Body, c: Chain, i: nat, whenHolds: Label, whenFails: Label) {
    && ChangedAt(body, r, c, i) && SameInside(body, r, c)
    && i < c.Length() && IsConditional(body, c.start + i)
    && Leads(r[c.start + i].term, c.negated[i], whenHolds, whenFails)
    && r[c.start + i].term.cond == body[c.start + i].term.cond
  }

  /** The code is kept, and so are all phis but those of the block that gains a predecessor. */
  ghost predicate BlocksKept(body: Body, r: Body, gained: Label) {
    && |r| == |body|
    && forall l: Label | l < |body| ::
         r[l].code == body[l].code && (l != gained || body[l].phis == [] ==> r[l].phis == body[l].phis)
  }

  lemma MutantKeepsBlocks(body: Body, c: Chain, i: nat, second: Label)
    requires InRange(body) && i < c.Length() && c.start + i < |body|
    requires AndToOr.Find(body, c.start + i) == Found(OwnPattern(c, i), second)
    ensures AndToOr.CanMutate(body, c.start + i) && IsConditional(body, second)
    ensures BlocksKept(body, AndToOr.Mutate(body, c.start + i), body[second].term.ifTrue)
  {
    FoundFacts(body, c.start + i);
    RewriteShape(body, c.start + i, second, OwnPattern(c, i));
  }

  lemma RedirectedMutant(body: Body, c: Chain, i: nat, j: nat)
    requires Lowered(body, c) && InRange(body) && NextPlain(c, i, j)
    ensures AndToOr.CanMutate(body, c.start + i)
    ensures Redirected(body, AndToOr.Mutate(body, c.start + i), c, i, c.Next(j), c.Next(i))
  {
    MutantBranch(body, c, i, j);
    FindInChain(body, c, i, j);
    MutantKeepsBlocks(body, c, i, c.start + j);
    NextHasNoPhis(body, c, j);
    assert LoweredAt(body, c, j);
  }

  lemma LeaveLater(x: Context, left: nat, r: Body, c: Chain, v: Verdict, n: nat)
    requires n <= left
    ensures Leave(x, left, r, c, Entering(v, n)) == Leave(x, left - n, r, c, v)
  {}

  /** Like Evaluate and Leave, except that control goes to `target` if operand i holds. */
  ghost function RunVia(x: Context, body: Body, r: Body, c: Chain, i: nat, target: Label,
                        left: nat, from: Option<Label>, fr: Frame, w: World): Outcome
    requires Lowered(body, c) && i < c.Length() && left >= c.Length()
  {
    var before := Evaluate(x, body, c, 0, i, from, fr, w);
    if before.Stopped? || !before.holds then Leave(x, left, r, c, before)
    else ViaOperand(x, body, r, c, i, target, left - before.entered, before.last, before.frame, before.world)
  }

  ghost function ViaOperand(x: Context, body: Body, r: Body, c: Chain, i: nat, target: Label,
                            left: nat, from: Option<Label>, fr: Frame, w: World): Outcome
    requires Lowered(body, c) && i < c.Length() && left >= c.Length() - i
  {
    assert LoweredAt(body, c, i);
    match EvaluateOne(x, body, c, i, from, fr, w)
    case Stopped(o) => o
    case Decided(holds, last, fr', w', _) =>
      if holds then x.Run(left - 1, r, target, last, fr', w')
      else Leave(x, left - 1, r, c, Evaluate(x, body, c, i + 1, c.Length(), last, fr', w'))
  }

  lemma RedirectedOperand(x: Context, body: Body, r: Body, c: Chain, i: nat, target: Label,
                          left: nat, from: Option<Label>, fr: Frame, w: World)
    requires Lowered(body, c) && i < c.Length() && left >= c.Length() - i
    requires Redirected(body, r, c, i, target, c.Next(i))
    ensures x.Run(left, r, c.start + i, from, fr, w) == ViaOperand(x, body, r, c, i, target, left, from, fr, w)
  {
    RunOne(x, body, r, c, i, target, c.Next(i), left, from, fr, w);
    var v := EvaluateOne(x, body, c, i, from, fr, w);
    if v.Decided? && !v.holds {
      RunTail(x, body, r, c, i + 1, left - 1, v.last, v.frame, v.world);
    }
  }

  /** A chain in which operand i has a new target. */
  lemma RedirectedRun(x: Context, body: Body, r: Body, c: Chain, i: nat, target: Label,
                      left: nat, from: Option<Label>, fr: Frame, w: World)
    requires Lowered(body, c) && i < c.Length() && left >= c.Length()
    requires Redirected(body, r, c, i, target, c.Next(i))
    ensures x.Run(left, r, c.start, from, fr, w) == RunVia(x, body, r, c, i, target, left, from, fr, w)
  {
    var v := Evaluate(x, body, c, 0, i, from, fr, w);
    assert x.Run(left, r, c.start, from, fr, w) == Reach(x, left, r, c, i, v) by {
      RunHead(x, body, r, c, i, 0, left, from, fr, w);
    }
    if v.Decided? && v.holds {
      RedirectedOperand(x, body, r, c, i, target, left - v.entered, v.last, v.frame, v.world);
    }
  }

  lemma ViaEither(x: Context, body: Body, r: Body, c: Chain, i: nat, j: nat,
                  left: nat, from: Option<Label>, fr: Frame, w: World)
    requires Lowered(body, c) && ChangedAt(body, r, c, i) && SameInside(body, r, c)
    requires i < j < c.Length() && left >= c.Length() - i
    ensures ViaOperand(x, body, r, c, i, c.Next(j), left, from, fr, w)
            == Leave(x, left, r, c, EvaluateEither(x, body, c, i, j, from, fr, w))
  {
    assert LoweredAt(body, c, i);
    var v := EvaluateOne(x, body, c, i, from, fr, w);
    if v.Decided? {
      var next := if v.holds then j + 1 else i + 1;
      RunTail(x, body, r, c, next, left - 1, v.last, v.frame, v.world);
      LeaveLater(x, left, r, c, Evaluate(x, body, c, next, c.Length(), v.last, v.frame, v.world), 1);
    }
  }

  lemma RunWeakened(x: Context, body: Body, r: Body, c: Chain, i: nat, j: nat,
                    left: nat, from: Option<Label>, fr: Frame, w: World)
    requires Lowered(body, c) && i < j < c.Length() && left >= c.Length()
    requires Redirected(body, r, c, i, c.Next(j), c.Next(i))
    ensures x.Run(left, r, c.start, from, fr, w)
            == Leave(x, left, r, c, EvaluateWeakened(x, body, c, i, j, from, fr, w))
  {
    RedirectedRun(x, body, r, c, i, c.Next(j), left, from, fr, w);
    var before := Evaluate(x, body, c, 0, i, from, fr, w);
    if before.Decided? && before.holds {
      ViaEither(x, body, r, c, i, j, left - before.entered, before.last, before.frame, before.world);
      LeaveLater(x, left, r, c, EvaluateEither(x, body, c, i, j, before.last, before.frame, before.world),
                 before.entered);
    }
  }

  /**
   A run into the mutated chain evaluates the weakened conjunction, every operand in the frame in which
   it is reached and none that is not needed, and leaves by the exit that its value chooses.
   */
  lemma MutatedChainRun(x: Context, body: Body, c: Chain, i: nat, j: nat,
                        left: nat, from: Option<Label>, fr: Frame, w: World)
    requires Lowered(body, c) && InRange(body) && NextPlain(c, i, j) && left >= c.Length()
    ensures AndToOr.CanMutate(body, c.start + i)
    ensures var r := AndToOr.Mutate(body, c.start + i);
            x.Run(left, r, c.start, from, fr, w)
            == Leave(x, left, r, c, EvaluateWeakened(x, body, c, i, j, from, fr, w))
  {
    RedirectedMutant(body, c, i, j);
    RunWeakened(x, body, AndToOr.Mutate(body, c.start + i), c, i, j, left, from, fr, w);
  }

  /** The chain as it was, with the phis as the mutation leaves them. */
  function WithBranch(r: Body, body: Body, l: Label): Body
    requires l < |body| && |r| == |body|
  {
    SetTerm(r, l, body[l].term)
  }

  lemma LoweredWithBranch(body: Body, r: Body, c: Chain, i: nat, gained: Label)
    requires Lowered(body, c) && i < c.Length() && ChangedAt(body, r, c, i) && BlocksKept(body, r, gained)
    ensures Lowered(WithBranch(r, body, c.start + i), c) && SameInside(WithBranch(r, body, c.start + i), r, c)
    ensures gained != c.start ==> SameInside(body, r, c)
  {
    forall l: Label | l < |body| && c.Inside(l) && l != c.start ensures body[l].phis == [] {
      assert LoweredAt(body, c, l - c.start);
    }
    var b := WithBranch(r, body, c.start + i);
    assert forall l: Label | l < |body| :: b[l].term == body[l].term;
    forall k: nat | k < c.Length() ensures LoweredAt(b, c, k) {
      assert LoweredAt(body, c, k) && b[c.start + k].term == body[c.start + k].term;
    }
  }

  /**
   A run into the chain whose operand i was paired with a branch behind the chain: if operand i is reached
   and holds, the run goes on where that branch's true target is.
   */
  lemma PastChainRun(x: Context, body: Body, c: Chain, i: nat, second: Label,
                     left: nat, from: Option<Label>, fr: Frame, w: World)
    requires Lowered(body, c) && InRange(body) && i < c.Length() && left >= c.Length()
    requires AndToOr.Find(body, c.start + i) == Found(OwnPattern(c, i), second)
    ensures AndToOr.CanMutate(body, c.start + i) && IsConditional(body, second)
    ensures var r := AndToOr.Mutate(body, c.start + i);
            && |r| == |body|
            && Lowered(WithBranch(r, body, c.start + i), c)
            && x.Run(left, r, c.start, from, fr, w)
               == RunVia(x, WithBranch(r, body, c.start + i), r, c, i, body[second].term.ifTrue, left, from, fr, w)
            && (body[second].term.ifTrue != c.start ==>
                  x.Run(left, r, c.start, from, fr, w)
                  == RunVia(x, body, r, c, i, body[second].term.ifTrue, left, from, fr, w))
  {
    MutatedBranch(body, c, i, second);
    MutantKeepsBlocks(body, c, i, second);
    var r := AndToOr.Mutate(body, c.start + i);
    LoweredWithBranch(body, r, c, i, body[second].term.ifTrue);
    RedirectedRun(x, WithBranch(r, body, c.start + i), r, c, i, body[second].term.ifTrue, left, from, fr, w);
    if body[second].term.ifTrue != c.start {
      RedirectedRun(x, body, r, c, i, body[second].term.ifTrue, left, from, fr, w);
    }
  }
}
