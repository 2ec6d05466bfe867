/** Disjunctions in the interpreter: the same blocks as a conjunction of the complemented operands. */
module DisjunctionRuns {
  import opened IR
  import opened Interpreter
  import opened Rewriting
  import opened Duality
  import opened PhiRules
  import opened Chains
  import opened ChainRuns
  import opened Disjunctions
  import AndToOr
  import OrToAnd

  /** Operands k to n - 1, from left to right until one holds. */
  ghost function EvaluateAny(x: Context, body: Body, c: Chain, k: nat, n: nat, from: Option<Label>, fr: Frame,
                             w: World): (v: Verdict)
    requires LoweredOr(body, c) && k <= n <= c.Length()
    ensures v.Decided? ==> v.entered <= n - k
    decreases n - k
  {
    if k == n then Decided(false, from, fr, w, 0)
    else
      assert LoweredOrAt(body, c, k);
      var v := EvaluateOne(x, body, c, k, from, fr, w);
      if v.Decided? && !v.holds then Entering(EvaluateAny(x, body, c, k + 1, n, v.last, v.frame, v.world), 1) else v
  }

  /** Operand i, and one of operands i + 1 to j if it holds; otherwise one of the others. */
  ghost function EvaluateBoth(x: Context, body: Body, c: Chain, i: nat, j: nat, from: Option<Label>, fr: Frame,
                              w: World): Verdict
    requires LoweredOr(body, c) && i < j < c.Length()
  {
    assert LoweredOrAt(body, c, i);
    var v := EvaluateOne(x, body, c, i, from, fr, w);
    if v.Stopped? then v
    else Entering(EvaluateAny(x, body, c, if v.holds then i + 1 else j + 1, c.Length(), v.last, v.frame, v.world), 1)
  }

  /** The same after operands 0 to i - 1. */
  ghost function EvaluateStrengthened(x: Context, body: Body, c: Chain, i: nat, j: nat, from: Option<Label>, fr: Frame,
                                      w: World): Verdict
    requires LoweredOr(body, c) && i < j < c.Length()
  {
    var before := EvaluateAny(x, body, c, 0, i, from, fr, w);
    if before.Stopped? || before.holds then before
    else Entering(EvaluateBoth(x, body, c, i, j, before.last, before.frame, before.world), before.entered)
  }

  // --- As a conjunction of the complements, on the same body.

  function Complement(c: Chain): Chain {
    Chain(c.start, seq(|c.negated|, k requires 0 <= k < |c.negated| => !c.negated[k]), c.ifFails, c.ifHolds)
  }

  function Opposite(v: Verdict): Verdict {
    if v.Decided? then v.(holds := !v.holds) else v
  }

  lemma ComplementLowered(body: Body, c: Chain)
    requires LoweredOr(body, c)
    ensures Lowered(body, Complement(c))
  {
    forall k: nat | k < c.Length() ensures LoweredAt(body, Complement(c), k) {
      assert LoweredOrAt(body, c, k);
    }
  }

  lemma {:induction false} AnyIsNotAll(x: Context, body: Body, c: Chain, k: nat, n: nat,
                                       from: Option<Label>, fr: Frame, w: World)
    requires LoweredOr(body, c) && Lowered(body, Complement(c)) && k <= n <= c.Length()
    ensures EvaluateAny(x, body, c, k, n, from, fr, w) == Opposite(Evaluate(x, body, Complement(c), k, n, from, fr, w))
    decreases n - k
  {
    if k < n {
      assert LoweredOrAt(body, c, k);
      var v := EvaluateOne(x, body, c, k, from, fr, w);
      assert v == Opposite(EvaluateOne(x, body, Complement(c), k, from, fr, w));
      if v.Decided? && !v.holds {
        AnyIsNotAll(x, body, c, k + 1, n, v.last, v.frame, v.world);
      }
    }
  }

  lemma BothIsNotEither(x: Context, body: Body, c: Chain, i: nat, j: nat, from: Option<Label>, fr: Frame, w: World)
    requires LoweredOr(body, c) && Lowered(body, Complement(c)) && i < j < c.Length()
    ensures EvaluateBoth(x, body, c, i, j, from, fr, w)
         == Opposite(EvaluateEither(x, body, Complement(c), i, j, from, fr, w))
  {
    assert LoweredOrAt(body, c, i);
    var v := EvaluateOne(x, body, c, i, from, fr, w);
    assert v == Opposite(EvaluateOne(x, body, Complement(c), i, from, fr, w));
    if v.Decided? {
      AnyIsNotAll(x, body, c, if v.holds then i + 1 else j + 1, c.Length(), v.last, v.frame, v.world);
    }
  }

  lemma StrengthenedIsNotWeakened(x: Context, body: Body, c: Chain, i: nat, j: nat,
                                  from: Option<Label>, fr: Frame, w: World)
    requires LoweredOr(body, c) && Lowered(body, Complement(c)) && i < j < c.Length()
    ensures EvaluateStrengthened(x, body, c, i, j, from, fr, w)
         == Opposite(EvaluateWeakened(x, body, Complement(c), i, j, from, fr, w))
  {
    AnyIsNotAll(x, body, c, 0, i, from, fr, w);
    var before := EvaluateAny(x, body, c, 0, i, from, fr, w);
    if before.Decided? && !before.holds {
      BothIsNotEither(x, body, c, i, j, before.last, before.frame, before.world);
    }
  }

  lemma LeaveComplement(x: Context, left: nat, r: Body, c: Chain, v: Verdict)
    ensures Leave(x, left, r, Complement(c), v) == Leave(x, left, r, c, Opposite(v))
  {}

  /** The chain itself evaluates its operands from left to right until one holds. */
  lemma OrChainRun(x: Context, body: Body, c: Chain, left: nat, from: Option<Label>, fr: Frame, w: World)
    requires LoweredOr(body, c) && c.Length() > 0 && left >= c.Length()
    ensures x.Run(left, body, c.start, from, fr, w)
         == Leave(x, left, body, c, EvaluateAny(x, body, c, 0, c.Length(), from, fr, w))
  {
    ComplementLowered(body, c);
    ChainRun(x, body, Complement(c), left, from, fr, w);
    AnyIsNotAll(x, body, c, 0, c.Length(), from, fr, w);
    LeaveComplement(x, left, body, c, Evaluate(x, body, Complement(c), 0, c.Length(), from, fr, w));
  }

  /** A redirected branch, seen through exchanged targets. */
  lemma DualBranch(body: Body, d: Body, c: Chain, i: nat, whenHolds: Label, whenFails: Label)
    requires i < c.Length() && IsConditional(body, c.start + i)
    requires Redirected(Dual(body), d, DualChain(c), i, whenFails, whenHolds)
    ensures Redirected(body, Dual(d), c, i, whenHolds, whenFails)
  {
    var r := Dual(d);
    assert |r| == |body|;
    forall l: Label | l < |body|
      ensures l != c.start + i ==> r[l].term == body[l].term
      ensures c.Inside(l) ==> r[l].code == body[l].code && r[l].phis == body[l].phis
    {
      assert Dual(body)[l] == DualBlock(body[l]);
      assert c.Inside(l) <==> DualChain(c).Inside(l);
    }
  }

  lemma RedirectedComplement(body: Body, r: Body, c: Chain, i: nat, whenHolds: Label, whenFails: Label)
    requires Redirected(body, r, c, i, whenHolds, whenFails)
    ensures Redirected(body, r, Complement(c), i, whenFails, whenHolds)
  {
    assert forall l: Label :: c.Inside(l) <==> Complement(c).Inside(l);
  }

  lemma RedirectedOrMutant(body: Body, c: Chain, i: nat, j: nat)
    requires LoweredOr(body, c) && InRange(body) && NextPlain(c, i, j)
    ensures OrToAnd.CanMutate(body, c.start + i)
    ensures Redirected(body, OrToAnd.Mutate(body, c.start + i), c, i, NextOr(c, i), NextOr(c, j))
  {
    DualLowered(body, c);
    DualInRange(body);
    assert NextPlain(DualChain(c), i, j);
    RedirectedMutant(Dual(body), DualChain(c), i, j);
    MutateDual(body, c.start + i);
    DualBranch(body, AndToOr.Mutate(Dual(body), c.start + i), c, i, NextOr(c, i), NextOr(c, j));
  }

  /**
   A run into the mutated chain evaluates the strengthened disjunction, every operand in the frame in which
   it is reached and none that is not needed, and leaves by the exit that its value chooses.
   */
  lemma MutatedOrChainRun(x: Context, body: Body, c: Chain, i: nat, j: nat,
                          left: nat, from: Option<Label>, fr: Frame, w: World)
    requires LoweredOr(body, c) && InRange(body) && NextPlain(c, i, j) && left >= c.Length()
    ensures OrToAnd.CanMutate(body, c.start + i)
    ensures var r := OrToAnd.Mutate(body, c.start + i);
            x.Run(left, r, c.start, from, fr, w)
            == Leave(x, left, r, c, EvaluateStrengthened(x, body, c, i, j, from, fr, w))
  {
    RedirectedOrMutant(body, c, i, j);
    ComplementLowered(body, c);
    var r, d := OrToAnd.Mutate(body, c.start + i), Complement(c);
    RedirectedComplement(body, r, c, i, NextOr(c, i), NextOr(c, j));
    RunWeakened(x, body, r, d, i, j, left, from, fr, w);
    StrengthenedIsNotWeakened(x, body, c, i, j, from, fr, w);
    LeaveComplement(x, left, r, c, EvaluateWeakened(x, body, d, i, j, from, fr, w));
  }
}
