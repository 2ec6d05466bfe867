/**
 Chains of conditional branches as a disjunction is lowered: each block leads to a common true target
 if its operand holds and to the next one if not. With exchanged targets they are chains of the negated
 operands, so OrToAnd does to them what AndToOr does to those.
 */
module Disjunctions {
  import opened IR
  import opened Rewriting
  import opened Duality
  import opened PhiRules
  import opened Chains
  import AndToOr
  import OrToAnd

  /** The same chain as a conjunction of the negated operands. */
  function DualChain(c: Chain): Chain {
    Chain(c.start, c.negated, c.ifFails, c.ifHolds)
  }

  function NextOr(c: Chain, k: nat): Label {
    if k + 1 < c.Length() then c.start + k + 1 else c.ifFails
  }

  ghost predicate LoweredOr(body: Body, c: Chain) {
    && c.End() <= |body| && c.ifHolds < |body| && c.ifFails < |body|
    && c.ifHolds != c.ifFails && !c.Inside(c.ifHolds) && !c.Inside(c.ifFails)
    && forall k: nat | k < c.Length() :: LoweredOrAt(body, c, k)
  }

  ghost predicate LoweredOrAt(body: Body, c: Chain, k: nat)
    requires c.End() <= |body| && k < c.Length()
  {
    && Leads(body[c.start + k].term, c.negated[k], c.ifHolds, NextOr(c, k))
    && (k > 0 ==> body[c.start + k].phis == [])
  }

  lemma DualLowered(body: Body, c: Chain)
    ensures LoweredOr(body, c) <==> Lowered(Dual(body), DualChain(c))
  {
    if c.End() <= |body| {
      forall k: nat | k < c.Length()
        ensures LoweredOrAt(body, c, k) <==> LoweredAt(Dual(body), DualChain(c), k)
      {
        assert Dual(body)[c.start + k] == DualBlock(body[c.start + k]);
      }
    }
  }

  function Not(holds: Label -> bool): Label -> bool {
    (l: Label) => !holds(l)
  }

  /** Walking the exchanged graph with negated conditions is walking the graph. */
  lemma {:induction false} DualExit(body: Body, c: Chain, holds: Label -> bool, l: Label, steps: nat)
    ensures Exit(Dual(body), DualChain(c), Not(holds), l, steps) == Exit(body, c, holds, l, steps)
    decreases steps
  {
    if steps > 0 && c.Inside(l) && l < |body| && body[l].term.CondBr? {
      assert Dual(body)[l] == DualBlock(body[l]);
      DualExit(body, c, holds, if holds(l) then body[l].term.ifTrue else body[l].term.ifFalse, steps - 1);
    }
  }

  lemma DualOperands(c: Chain, holds: Label -> bool)
    ensures forall k: nat | k < c.Length() :: OperandHolds(DualChain(c), Not(holds), k) <==> !OperandHolds(c, holds, k)
  {}

  ghost predicate AnyHolds(c: Chain, holds: Label -> bool, from: nat, to: nat)
    requires to <= c.Length()
  {
    exists k: nat :: from <= k < to && OperandHolds(c, holds, k)
  }

  lemma DualHolds(c: Chain, holds: Label -> bool, a: nat, b: nat)
    requires b <= c.Length()
    ensures AllHold(DualChain(c), Not(holds), a, b) <==> !AnyHolds(c, holds, a, b)
  {
    DualOperands(c, holds);
  }

  /** The chain itself computes the disjunction. */
  lemma OrChainMeaning(body: Body, c: Chain, holds: Label -> bool)
    requires LoweredOr(body, c) && c.Length() > 0
    ensures Exit(body, c, holds, c.start, c.Length())
         == if AnyHolds(c, holds, 0, c.Length()) then c.ifHolds else c.ifFails
  {
    DualLowered(body, c);
    DualExit(body, c, holds, c.start, c.Length());
    DualHolds(c, holds, 0, c.Length());
    ChainMeaning(Dual(body), DualChain(c), Not(holds), 0, c.Length());
  }

  lemma FindInOrChain(body: Body, c: Chain, i: nat, j: nat)
    requires LoweredOr(body, c) && NextPlain(c, i, j)
    ensures OrToAnd.Find(body, c.start + i) == Found(OwnPattern(c, i), c.start + j)
  {
    DualLowered(body, c);
    assert NextPlain(DualChain(c), i, j);
    FindInChain(Dual(body), DualChain(c), i, j);
    FindDual(body, c.start + i);
  }

  /** What the mutated chain computes: operand i only counts together with one of operands i + 1 to j. */
  ghost predicate Strengthened(c: Chain, holds: Label -> bool, i: nat, j: nat)
    requires i < j < c.Length()
  {
    || AnyHolds(c, holds, 0, i)
    || (OperandHolds(c, holds, i) && AnyHolds(c, holds, i + 1, j + 1))
    || AnyHolds(c, holds, j + 1, c.Length())
  }

  lemma DualWeakened(c: Chain, holds: Label -> bool, i: nat, j: nat)
    requires i < j < c.Length()
    ensures Weakened(DualChain(c), Not(holds), i, j) <==> !Strengthened(c, holds, i, j)
  {
    DualOperands(c, holds);
    DualHolds(c, holds, 0, i);
    DualHolds(c, holds, i + 1, j + 1);
    DualHolds(c, holds, j + 1, c.Length());
  }

  /** The mutant of a chain, walked, is the mutant of the dual chain, walked. */
  lemma DualMutantExit(body: Body, c: Chain, holds: Label -> bool, i: nat)
    requires c.start + i < |body| && OrToAnd.CanMutate(body, c.start + i)
    ensures AndToOr.CanMutate(Dual(body), c.start + i)
    ensures Exit(OrToAnd.Mutate(body, c.start + i), c, holds, c.start, c.Length())
         == Exit(AndToOr.Mutate(Dual(body), c.start + i), DualChain(c), Not(holds), c.start, c.Length())
  {
    MutateDual(body, c.start + i);
    var d := AndToOr.Mutate(Dual(body), c.start + i);
    DualTwice(d);
    DualExit(Dual(d), c, holds, c.start, c.Length());
  }

  /**
   Mutating operand i of a disjunction replaces its "operand i or operands i + 1 to j" by "operand i
   and operands i + 1 to j", where j is the next operand without a negation.
   */
  lemma MutatedOrChainMeaning(body: Body, c: Chain, holds: Label -> bool, i: nat, j: nat)
    requires LoweredOr(body, c) && InRange(body) && NextPlain(c, i, j)
    ensures OrToAnd.CanMutate(body, c.start + i)
    ensures Exit(OrToAnd.Mutate(body, c.start + i), c, holds, c.start, c.Length())
         == if Strengthened(c, holds, i, j) then c.ifHolds else c.ifFails
  {
    DualLowered(body, c);
    DualInRange(body);
    MutateDual(body, c.start + i);
    assert NextPlain(DualChain(c), i, j);
    MutatedChainMeaning(Dual(body), DualChain(c), Not(holds), i, j);
    DualMutantExit(body, c, holds, i);
    DualWeakened(c, holds, i, j);
  }

  /** The disjunction with one || replaced, the one between operands i and i + 1. */
  ghost predicate OneConjunction(c: Chain, holds: Label -> bool, i: nat)
    requires i + 1 < c.Length()
  {
    || (exists k: nat :: k < c.Length() && k != i && k != i + 1 && OperandHolds(c, holds, k))
    || (OperandHolds(c, holds, i) && OperandHolds(c, holds, i + 1))
  }

  lemma DualReading(c: Chain, holds: Label -> bool, i: nat)
    requires i + 1 < c.Length()
    ensures OneDisjunction(DualChain(c), Not(holds), i) <==> !OneConjunction(c, holds, i)
  {
    DualOperands(c, holds);
  }

  /** The mutant leaves by the false target exactly where the disjunction with one || replaced is false. */
  ghost predicate ReplacesOneOr(body: Body, c: Chain, i: nat)
    requires i + 1 < c.Length()
  {
    && c.start + i < |body| && OrToAnd.CanMutate(body, c.start + i)
    && forall holds: Label -> bool ::
         Exit(OrToAnd.Mutate(body, c.start + i), c, holds, c.start, c.Length()) == c.ifFails
         <==> !OneConjunction(c, holds, i)
  }

  ghost predicate NothingFitsOr(body: Body, first: Label, from: Label, to: Label)
    requires IsConditional(body, first) && to <= |body|
  {
    forall l: Label | from <= l < to :: OrToAnd.Classify(body, first, l) == None
  }

  /** Block l is the first branch behind the chain that fits a pattern, and fits operand i's own. */
  ghost predicate FitsBehindOr(body: Body, c: Chain, i: nat, l: Label)
    requires IsConditional(body, c.start + i) && i < c.Length()
  {
    && c.End() <= l < |body|
    && OrToAnd.Classify(body, c.start + i, l) == Some(OwnPattern(c, i))
    && NothingFitsOr(body, c.start + i, c.End(), l)
  }

  /** Behind the chain is a branch that is paired with operand i and leads past operand i + 1. */
  ghost predicate RejoinsBehindOr(body: Body, c: Chain, i: nat)
    requires LoweredOr(body, c) && i + 1 < c.Length()
  {
    && NoPlainAfter(c, i) && IsConditional(body, c.start + i)
    && exists l: Label :: FitsBehindOr(body, c, i, l) && body[l].term.ifFalse == NextOr(c, i + 1)
  }

  lemma DualRejoins(body: Body, c: Chain, i: nat)
    requires LoweredOr(body, c) && i + 1 < c.Length()
    ensures Lowered(Dual(body), DualChain(c))
    ensures RejoinsBehindOr(body, c, i) <==> RejoinsBehind(Dual(body), DualChain(c), i)
  {
    DualLowered(body, c);
    var d := DualChain(c);
    assert LoweredOrAt(body, c, i) && Dual(body)[c.start + i] == DualBlock(body[c.start + i]);
    forall l: Label | l < |body|
      ensures Dual(body)[l] == DualBlock(body[l])
      ensures OrToAnd.Classify(body, c.start + i, l) == AndToOr.Classify(Dual(body), c.start + i, l)
    {
      ClassifyDual(body, c.start + i, l);
    }
    assert forall l: Label :: FitsBehindOr(body, c, i, l) <==> FitsBehind(Dual(body), d, i, l);
    assert NoPlainAfter(c, i) <==> NoPlainAfter(d, i);
  }

  lemma {:induction false} NotNotExit(body: Body, c: Chain, holds: Label -> bool, l: Label, steps: nat)
    ensures Exit(body, c, Not(Not(holds)), l, steps) == Exit(body, c, holds, l, steps)
    decreases steps
  {
    if steps > 0 && c.Inside(l) && l < |body| && body[l].term.CondBr? {
      NotNotExit(body, c, holds, if holds(l) then body[l].term.ifTrue else body[l].term.ifFalse, steps - 1);
    }
  }

  lemma DualReplacesOne(body: Body, c: Chain, i: nat)
    requires LoweredOr(body, c) && i + 1 < c.Length()
    ensures ReplacesOneOr(body, c, i) <==> ReplacesOne(Dual(body), DualChain(c), i)
  {
    MutateDual(body, c.start + i);
    if OrToAnd.CanMutate(body, c.start + i) {
      var r, d := OrToAnd.Mutate(body, c.start + i), AndToOr.Mutate(Dual(body), c.start + i);
      forall holds: Label -> bool
        ensures (Exit(r, c, holds, c.start, c.Length()) == c.ifFails <==> !OneConjunction(c, holds, i))
            <==> (Exit(d, DualChain(c), Not(holds), c.start, c.Length()) == c.ifFails
                  <==> OneDisjunction(DualChain(c), Not(holds), i))
      {
        DualMutantExit(body, c, holds, i);
        DualReading(c, holds, i);
      }
      if ReplacesOneOr(body, c, i) {
        forall holds: Label -> bool
          ensures Exit(d, DualChain(c), holds, c.start, c.Length()) == c.ifFails
              <==> OneDisjunction(DualChain(c), holds, i)
        {
          NotNotExit(d, DualChain(c), holds, c.start, c.Length());
          assert Exit(r, c, Not(holds), c.start, c.Length()) == c.ifFails <==> !OneConjunction(c, Not(holds), i);
          DualMutantExit(body, c, Not(holds), i);
          DualReading(c, Not(holds), i);
          NotNotReading(DualChain(c), holds, i);
        }
      }
    }
  }

  lemma NotNotReading(c: Chain, holds: Label -> bool, i: nat)
    requires i + 1 < c.Length()
    ensures OneDisjunction(c, Not(Not(holds)), i) <==> OneDisjunction(c, holds, i)
  {
    assert forall k: nat | k < c.Length() :: OperandHolds(c, Not(Not(holds)), k) == OperandHolds(c, holds, k);
  }

  /** The dual condition, exactly: one || is replaced if and only if the next operand is not negated, or by accident. */
  lemma ExactlyOneOrReplaced(body: Body, c: Chain, i: nat)
    requires LoweredOr(body, c) && InRange(body) && i + 1 < c.Length()
    ensures ReplacesOneOr(body, c, i) <==> !c.negated[i + 1] || RejoinsBehindOr(body, c, i)
  {
    DualInRange(body);
    DualRejoins(body, c, i);
    DualReplacesOne(body, c, i);
    ExactlyOneReplaced(Dual(body), DualChain(c), i);
  }
}
