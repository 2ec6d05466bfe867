/**
 Chains of conditional branches, as a conjunction of n possibly negated operands is
 lowered: each block leads to the next one if its operand holds and to a common false
 target if not. Which operand a mutation weakens, and how far, depends on the negations.
 */
module Chains {
  import opened IR
  import opened Rewriting
  import opened PhiRules
  import AndToOr

  datatype Chain = Chain(start: Label, negated: seq<bool>, ifHolds: Label, ifFails: Label) {
    function Length(): nat { |negated| }

    function End(): Label { start + |negated| }

    function Next(k: nat): Label {
      if k + 1 < |negated| then start + k + 1 else ifHolds
    }

    predicate Inside(l: Label) {
      start <= l < End()
    }
  }

  /** The branch of an operand: where it leads if the operand holds, and where if not. */
  predicate Leads(t: Terminator, negated: bool, ifHolds: Label, ifFails: Label) {
    && t.CondBr?
    && (if negated then t.ifFalse == ifHolds && t.ifTrue == ifFails else t.ifTrue == ifHolds && t.ifFalse == ifFails)
  }

  /** The body contains the chain; only the first block of a chain may have phis. */
  ghost predicate Lowered(body: Body, c: Chain) {
    && c.End() <= |body| && c.ifHolds < |body| && c.ifFails < |body|
    && c.ifHolds != c.ifFails && !c.Inside(c.ifHolds) && !c.Inside(c.ifFails)
    && forall k: nat | k < c.Length() :: LoweredAt(body, c, k)
  }

  ghost predicate LoweredAt(body: Body, c: Chain, k: nat)
    requires c.End() <= |body| && k < c.Length()
  {
    && Leads(body[c.start + k].term, c.negated[k], c.Next(k), c.ifFails)
    && (k > 0 ==> body[c.start + k].phis == [])
  }

  /** Follows the branches of the chain, block l's condition being holds(l), until control leaves it. */
  function Exit(body: Body, c: Chain, holds: Label -> bool, l: Label, steps: nat): Label
    decreases steps
  {
    if steps == 0 || !c.Inside(l) || l >= |body| || !body[l].term.CondBr? then l
    else Exit(body, c, holds, if holds(l) then body[l].term.ifTrue else body[l].term.ifFalse, steps - 1)
  }

  /** The k-th operand of the conjunction. */
  predicate OperandHolds(c: Chain, holds: Label -> bool, k: nat)
    requires k < c.Length()
  {
    holds(c.start + k) != c.negated[k]
  }

  ghost predicate AllHold(c: Chain, holds: Label -> bool, from: nat, to: nat)
    requires to <= c.Length()
  {
    forall k: nat | from <= k < to :: OperandHolds(c, holds, k)
  }

  /** The chain itself computes the conjunction. */
  lemma {:induction false} ChainMeaning(body: Body, c: Chain, holds: Label -> bool, k: nat, steps: nat)
    requires Lowered(body, c) && k < c.Length() && steps >= c.Length() - k
    ensures Exit(body, c, holds, c.start + k, steps)
         == if AllHold(c, holds, k, c.Length()) then c.ifHolds else c.ifFails
    decreases steps
  {
    assert LoweredAt(body, c, k);
    if OperandHolds(c, holds, k) && k + 1 < c.Length() {
      ChainMeaning(body, c, holds, k + 1, steps - 1);
    }
  }

  // --- What the finder selects.

  /** j is the first operand after i that is not negated. */
  ghost predicate NextPlain(c: Chain, i: nat, j: nat) {
    && i < j < c.Length()
    && !c.negated[j]
    && forall k | i < k < j :: c.negated[k]
  }

  ghost predicate NoPlainAfter(c: Chain, i: nat) {
    forall k | i < k < c.Length() :: c.negated[k]
  }

  lemma PlainOrNone(c: Chain, i: nat, k: nat) returns (j: nat)
    requires i < k <= c.Length() && forall l | i < l < k :: c.negated[l]
    ensures NoPlainAfter(c, i) || NextPlain(c, i, j)
    decreases c.Length() - k
  {
    j := k;
    if k < c.Length() && c.negated[k] {
      j := PlainOrNone(c, i, k + 1);
    }
  }

  /** What the finder makes of operand j, seen from operand i. */
  function OwnPattern(c: Chain, i: nat): Pattern
    requires i < c.Length()
  {
    if c.negated[i] then Pattern2 else Pattern1
  }

  lemma ClassifyOperand(body: Body, c: Chain, i: nat, k: nat)
    requires Lowered(body, c) && i < k < c.Length()
    ensures IsConditional(body, c.start + i)
    ensures AndToOr.Classify(body, c.start + i, c.start + k) == if c.negated[k] then None else Some(OwnPattern(c, i))
  {
    assert LoweredAt(body, c, i) && LoweredAt(body, c, k);
  }

  lemma {:induction false} ScanPasses(body: Body, first: Label, a: Label, b: Label)
    requires IsConditional(body, first) && a <= b <= |body|
    requires forall k: Label | a <= k < b :: AndToOr.Classify(body, first, k) == None
    ensures AndToOr.Scan(body, first, a) == AndToOr.Scan(body, first, b)
    decreases b - a
  {
    if a < b {
      ScanPasses(body, first, a + 1, b);
    }
  }

  lemma FindPasses(body: Body, c: Chain, i: nat, j: nat)
    requires Lowered(body, c) && i < j <= c.Length() && forall k | i < k < j :: c.negated[k]
    ensures IsConditional(body, c.start + i)
    ensures AndToOr.Find(body, c.start + i) == AndToOr.Scan(body, c.start + i, c.start + j)
  {
    var first := c.start + i;
    assert LoweredAt(body, c, i);
    forall l: Label | first < l < c.start + j
      ensures AndToOr.Classify(body, first, l) == None
    {
      ClassifyOperand(body, c, i, l - c.start);
    }
    ScanPasses(body, first, first + 1, c.start + j);
  }

  /** The finder skips the negated operands in between. */
  lemma FindInChain(body: Body, c: Chain, i: nat, j: nat)
    requires Lowered(body, c) && NextPlain(c, i, j)
    ensures AndToOr.Find(body, c.start + i) == Found(OwnPattern(c, i), c.start + j)
    ensures AndToOr.CanMutate(body, c.start + i)
  {
    FindPasses(body, c, i, j);
    ClassifyOperand(body, c, i, j);
    assert LoweredAt(body, c, j);
  }

  /** With no plain operand left, it leaves the chain and goes on behind it. */
  lemma FindPastChain(body: Body, c: Chain, i: nat)
    requires Lowered(body, c) && i < c.Length() && NoPlainAfter(c, i)
    ensures IsConditional(body, c.start + i)
    ensures AndToOr.Find(body, c.start + i) == AndToOr.Scan(body, c.start + i, c.End())
  {
    FindPasses(body, c, i, c.Length());
  }

  /** No branch from block `from` up to block `to` fits a pattern. */
  ghost predicate NothingFits(body: Body, first: Label, from: Label, to: Label)
    requires IsConditional(body, first) && to <= |body|
  {
    forall l: Label | from <= l < to :: AndToOr.Classify(body, first, l) == None
  }

  // --- What the mutated chain computes.

  /** The bodies differ, as far as terminators go, in the branch of operand i only. */
  ghost predicate ChangedAt(body: Body, r: Body, c: Chain, i: nat) {
    |r| == |body| && forall l: Label | l < |body| && l != c.start + i :: r[l].term == body[l].term
  }

  lemma {:induction false} TailExit(body: Body, r: Body, c: Chain, holds: Label -> bool, i: nat, k: nat, steps: nat)
    requires Lowered(body, c) && ChangedAt(body, r, c, i) && i < k < c.Length() && steps >= c.Length() - k
    ensures Exit(r, c, holds, c.start + k, steps)
         == if AllHold(c, holds, k, c.Length()) then c.ifHolds else c.ifFails
    decreases steps
  {
    assert LoweredAt(body, c, k);
    if OperandHolds(c, holds, k) && k + 1 < c.Length() {
      TailExit(body, r, c, holds, i, k + 1, steps - 1);
    }
  }

  lemma {:induction false} HeadExit(body: Body, r: Body, c: Chain, holds: Label -> bool, i: nat, k: nat, steps: nat)
    requires Lowered(body, c) && ChangedAt(body, r, c, i) && k <= i < c.Length() && steps >= i - k
    ensures Exit(r, c, holds, c.start + k, steps)
         == if AllHold(c, holds, k, i) then Exit(r, c, holds, c.start + i, steps - (i - k)) else c.ifFails
    decreases steps
  {
    if k < i {
      assert LoweredAt(body, c, k);
      if OperandHolds(c, holds, k) {
        HeadExit(body, r, c, holds, i, k + 1, steps - 1);
      }
    }
  }

  /** One step from operand i, wherever its branch now leads. */
  lemma StepExit(r: Body, c: Chain, holds: Label -> bool, i: nat, whenHolds: Label, whenFails: Label, steps: nat)
    requires i < c.Length() && c.End() <= |r| && steps > 0
    requires Leads(r[c.start + i].term, c.negated[i], whenHolds, whenFails)
    ensures Exit(r, c, holds, c.start + i, steps)
         == Exit(r, c, holds, if OperandHolds(c, holds, i) then whenHolds else whenFails, steps - 1)
  {}

  lemma NextExit(body: Body, r: Body, c: Chain, holds: Label -> bool, i: nat, k: nat, steps: nat)
    requires Lowered(body, c) && ChangedAt(body, r, c, i) && i <= k < c.Length() && steps >= c.Length() - k - 1
    ensures Exit(r, c, holds, c.Next(k), steps)
         == if AllHold(c, holds, k + 1, c.Length()) then c.ifHolds else c.ifFails
  {
    if k + 1 < c.Length() {
      TailExit(body, r, c, holds, i, k + 1, steps);
    }
  }

  /** The conjunction in which operand i no longer has to hold together with operands i + 1 to j. */
  ghost predicate Weakened(c: Chain, holds: Label -> bool, i: nat, j: nat)
    requires i < j < c.Length()
  {
    && AllHold(c, holds, 0, i)
    && (OperandHolds(c, holds, i) || AllHold(c, holds, i + 1, j + 1))
    && AllHold(c, holds, j + 1, c.Length())
  }

  /** The whole chain, with a new target for operand i when it holds. */
  lemma RedirectedExit(body: Body, r: Body, c: Chain, holds: Label -> bool, i: nat, target: Label)
    requires Lowered(body, c) && ChangedAt(body, r, c, i) && i < c.Length()
    requires Leads(r[c.start + i].term, c.negated[i], target, c.Next(i))
    ensures Exit(r, c, holds, c.start, c.Length())
         == if !AllHold(c, holds, 0, i) then c.ifFails
            else if OperandHolds(c, holds, i) then Exit(r, c, holds, target, c.Length() - i - 1)
            else if AllHold(c, holds, i + 1, c.Length()) then c.ifHolds
            else c.ifFails
  {
    HeadExit(body, r, c, holds, i, 0, c.Length());
    StepExit(r, c, holds, i, target, c.Next(i), c.Length() - i);
    NextExit(body, r, c, holds, i, i, c.Length() - i - 1);
  }

  lemma WeakenedExit(body: Body, r: Body, c: Chain, holds: Label -> bool, i: nat, j: nat)
    requires Lowered(body, c) && ChangedAt(body, r, c, i) && i < j < c.Length()
    requires Leads(r[c.start + i].term, c.negated[i], c.Next(j), c.Next(i))
    ensures Exit(r, c, holds, c.start, c.Length()) == if Weakened(c, holds, i, j) then c.ifHolds else c.ifFails
  {
    RedirectedExit(body, r, c, holds, i, c.Next(j));
    NextExit(body, r, c, holds, i, j, c.Length() - i - 1);
    assert AllHold(c, holds, i + 1, c.Length())
      <==> AllHold(c, holds, i + 1, j + 1) && AllHold(c, holds, j + 1, c.Length());
  }

  /** The branch that the mutation gives operand i, when it pairs it with a branch in its own pattern. */
  lemma MutatedBranch(body: Body, c: Chain, i: nat, second: Label)
    requires Lowered(body, c) && InRange(body) && i < c.Length()
    requires AndToOr.Find(body, c.start + i) == Found(OwnPattern(c, i), second)
    ensures AndToOr.CanMutate(body, c.start + i) && IsConditional(body, second)
    ensures var r := AndToOr.Mutate(body, c.start + i);
            && ChangedAt(body, r, c, i)
            && Leads(r[c.start + i].term, c.negated[i], body[second].term.ifTrue, c.Next(i))
            && IsConditional(body, c.start + i) && r[c.start + i].term.cond == body[c.start + i].term.cond
  {
    FoundFacts(body, c.start + i);
    assert LoweredAt(body, c, i);
    RewriteShape(body, c.start + i, second, OwnPattern(c, i));
  }

  lemma MutantBranch(body: Body, c: Chain, i: nat, j: nat)
    requires Lowered(body, c) && InRange(body) && NextPlain(c, i, j)
    ensures AndToOr.CanMutate(body, c.start + i) && IsConditional(body, c.start + i)
    ensures var r := AndToOr.Mutate(body, c.start + i);
            && ChangedAt(body, r, c, i)
            && Leads(r[c.start + i].term, c.negated[i], c.Next(j), c.Next(i))
            && r[c.start + i].term.cond == body[c.start + i].term.cond
  {
    FindInChain(body, c, i, j);
    MutatedBranch(body, c, i, c.start + j);
    assert LoweredAt(body, c, j);
  }

  /**
   Mutating operand i of a chain replaces the conjunction's "operand i and operands i+1 to j"
   by "operand i or operands i+1 to j", where j is the next operand without a negation.
   */
  lemma MutatedChainMeaning(body: Body, c: Chain, holds: Label -> bool, i: nat, j: nat)
    requires Lowered(body, c) && InRange(body) && NextPlain(c, i, j)
    ensures AndToOr.CanMutate(body, c.start + i)
    ensures Exit(AndToOr.Mutate(body, c.start + i), c, holds, c.start, c.Length())
         == if Weakened(c, holds, i, j) then c.ifHolds else c.ifFails
  {
    MutantBranch(body, c, i, j);
    WeakenedExit(body, AndToOr.Mutate(body, c.start + i), c, holds, i, j);
  }

  /**
   Without a plain operand after it, operand i may be paired with a branch behind the chain:
   if operand i holds, control then goes where that branch's true target is.
   */
  lemma MutatedPastChain(body: Body, c: Chain, holds: Label -> bool, i: nat, second: Label)
    requires Lowered(body, c) && InRange(body) && i < c.Length() && NoPlainAfter(c, i)
    requires AndToOr.Find(body, c.start + i) == Found(OwnPattern(c, i), second)
    ensures AndToOr.CanMutate(body, c.start + i) && IsConditional(body, second) && second >= c.End()
    ensures var r := AndToOr.Mutate(body, c.start + i);
            Exit(r, c, holds, c.start, c.Length())
            == if !AllHold(c, holds, 0, i) then c.ifFails
               else if OperandHolds(c, holds, i) then Exit(r, c, holds, body[second].term.ifTrue, c.Length() - i - 1)
               else if AllHold(c, holds, i + 1, c.Length()) then c.ifHolds
               else c.ifFails
  {
    FindPastChain(body, c, i);
    AndToOr.ScanIsFirst(body, c.start + i, c.End());
    MutatedBranch(body, c, i, second);
    RedirectedExit(body, AndToOr.Mutate(body, c.start + i), c, holds, i, body[second].term.ifTrue);
  }

  /** If nothing behind the chain fits either, nothing is mutated. */
  lemma UnmutatedChain(body: Body, c: Chain, holds: Label -> bool, i: nat)
    requires Lowered(body, c) && i < c.Length() && NoPlainAfter(c, i)
    requires IsConditional(body, c.start + i) && NothingFits(body, c.start + i, c.End(), |body|)
    ensures AndToOr.Find(body, c.start + i) == NotFound
    ensures AndToOr.CanMutate(body, c.start + i) && AndToOr.Mutate(body, c.start + i) == body
    ensures Exit(body, c, holds, c.start, c.Length())
            == if AllHold(c, holds, 0, c.Length()) then c.ifHolds else c.ifFails
  {
    FindPastChain(body, c, i);
    ScanPasses(body, c.start + i, c.End(), |body|);
    ChainMeaning(body, c, holds, 0, c.Length());
  }

  // --- When exactly one && becomes ||.

  /** The conjunction with one && replaced, the one between operands i and i + 1. */
  ghost predicate OneDisjunction(c: Chain, holds: Label -> bool, i: nat)
    requires i + 1 < c.Length()
  {
    && (forall k: nat | k < c.Length() && k != i && k != i + 1 :: OperandHolds(c, holds, k))
    && (OperandHolds(c, holds, i) || OperandHolds(c, holds, i + 1))
  }

  /** With a plain operand next, exactly one && becomes ||. */
  lemma AdjacentOperands(body: Body, c: Chain, holds: Label -> bool, i: nat)
    requires Lowered(body, c) && InRange(body) && i + 1 < c.Length() && !c.negated[i + 1]
    ensures AndToOr.CanMutate(body, c.start + i)
    ensures Exit(AndToOr.Mutate(body, c.start + i), c, holds, c.start, c.Length()) == c.ifHolds
            <==> OneDisjunction(c, holds, i)
  {
    MutatedChainMeaning(body, c, holds, i, i + 1);
    assert Weakened(c, holds, i, i + 1) <==> OneDisjunction(c, holds, i);
  }

  /** All operands hold but the l-th. */
  function AllBut(c: Chain, l: nat): Label -> bool {
    (x: Label) => c.Inside(x) && ((x == c.start + l) == c.negated[x - c.start])
  }

  lemma AllButHold(c: Chain, l: nat, i: nat)
    requires i + 1 < c.Length()
    ensures forall k: nat | k < c.Length() :: OperandHolds(c, AllBut(c, l), k) <==> k != l
    ensures forall a: nat, b: nat | b <= c.Length() :: AllHold(c, AllBut(c, l), a, b) <==> !(a <= l < b)
    ensures OneDisjunction(c, AllBut(c, l), i) <==> l >= c.Length() || l == i || l == i + 1
  {
    var holds := AllBut(c, l);
    assert forall k: nat | k < c.Length() :: OperandHolds(c, holds, k) <==> k != l;
    forall a: nat, b: nat | b <= c.Length()
      ensures AllHold(c, holds, a, b) <==> !(a <= l < b)
    {
      if a <= l < b {
        assert !OperandHolds(c, holds, l);
      }
    }
    if l < c.Length() {
      assert !OperandHolds(c, holds, l);
    }
  }

  /** The two readings differ for some assignment of the conditions. */
  ghost predicate Differs(r: Body, c: Chain, holds: Label -> bool, i: nat)
    requires i + 1 < c.Length()
  {
    (Exit(r, c, holds, c.start, c.Length()) == c.ifHolds) != OneDisjunction(c, holds, i)
  }

  /** With a negated operand next and a plain one later, more than the one && is replaced. */
  lemma NegatedOperandNext(body: Body, c: Chain, i: nat, j: nat) returns (holds: Label -> bool)
    requires Lowered(body, c) && InRange(body) && NextPlain(c, i, j) && j > i + 1
    ensures AndToOr.CanMutate(body, c.start + i) && Differs(AndToOr.Mutate(body, c.start + i), c, holds, i)
  {
    holds := AllBut(c, j);
    AllButHold(c, j, i);
    MutatedChainMeaning(body, c, holds, i, j);
  }

  /** If operand i now leads to the false target when it holds, the mutant fails where all operands hold. */
  lemma CrossedDiffers(body: Body, r: Body, c: Chain, i: nat, whenFails: Label) returns (holds: Label -> bool)
    requires Lowered(body, c) && ChangedAt(body, r, c, i) && i + 1 < c.Length()
    requires Leads(r[c.start + i].term, c.negated[i], c.ifFails, whenFails)
    ensures Differs(r, c, holds, i)
  {
    holds := AllBut(c, c.Length());
    AllButHold(c, c.Length(), i);
    HeadExit(body, r, c, holds, i, 0, c.Length());
    StepExit(r, c, holds, i, c.ifFails, whenFails, c.Length() - i);
  }

  lemma {:induction false} LoopStays(body: Body, r: Body, c: Chain, holds: Label -> bool, i: nat, k: nat,
                                     whenFails: Label,
                                     l: nat, steps: nat)
    requires Lowered(body, c) && ChangedAt(body, r, c, i) && k <= l <= i < c.Length()
    requires AllHold(c, holds, 0, c.Length())
    requires Leads(r[c.start + i].term, c.negated[i], c.start + k, whenFails)
    ensures c.Inside(Exit(r, c, holds, c.start + l, steps))
    decreases steps
  {
    if steps > 0 {
      if l < i {
        assert LoweredAt(body, c, l) && OperandHolds(c, holds, l);
        StepExit(r, c, holds, l, c.Next(l), c.ifFails, steps);
        LoopStays(body, r, c, holds, i, k, whenFails, l + 1, steps - 1);
      } else {
        StepExit(r, c, holds, i, c.start + k, whenFails, steps);
        LoopStays(body, r, c, holds, i, k, whenFails, k, steps - 1);
      }
    }
  }

  /** Unless operand i leads past operand i + 1 when it holds, the mutant is not the single disjunction. */
  lemma OtherTargetDiffers(body: Body, r: Body, c: Chain, i: nat, target: Label) returns (holds: Label -> bool)
    requires Lowered(body, c) && ChangedAt(body, r, c, i) && i + 1 < c.Length()
    requires Leads(r[c.start + i].term, c.negated[i], target, c.Next(i)) && target != c.Next(i + 1)
    ensures Differs(r, c, holds, i)
  {
    var but := if c.Inside(target) && target == c.start + i + 1 then i + 1
               else if target == c.ifHolds || (c.Inside(target) && target > c.start + i) then i + 2
               else c.Length();
    holds := AllBut(c, but);
    AllButHold(c, but, i);
    RedirectedExit(body, r, c, holds, i, target);
    var steps: nat := c.Length() - i - 1;
    if !c.Inside(target) {
      assert Exit(r, c, holds, target, steps) == target;
    } else if target > c.start + i {
      TailExit(body, r, c, holds, i, target - c.start, steps);
    } else {
      LoopStays(body, r, c, holds, i, target - c.start, c.Next(i), target - c.start, steps);
    }
  }

  /** Block l is the first branch behind the chain that fits a pattern, and fits operand i's own. */
  ghost predicate FitsBehind(body: Body, c: Chain, i: nat, l: Label)
    requires IsConditional(body, c.start + i) && i < c.Length()
  {
    && c.End() <= l < |body|
    && AndToOr.Classify(body, c.start + i, l) == Some(OwnPattern(c, i))
    && NothingFits(body, c.start + i, c.End(), l)
  }

  /** Behind the chain is a branch that is paired with operand i and leads past operand i + 1. */
  ghost predicate RejoinsBehind(body: Body, c: Chain, i: nat)
    requires Lowered(body, c) && i + 1 < c.Length()
  {
    && NoPlainAfter(c, i) && IsConditional(body, c.start + i)
    && exists l: Label :: FitsBehind(body, c, i, l) && body[l].term.ifTrue == c.Next(i + 1)
  }

  lemma FoundBehind(body: Body, c: Chain, i: nat, l: Label)
    requires Lowered(body, c) && i < c.Length() && NoPlainAfter(c, i)
    ensures IsConditional(body, c.start + i)
    ensures FitsBehind(body, c, i, l) <==> AndToOr.Find(body, c.start + i) == Found(OwnPattern(c, i), l)
  {
    FindPastChain(body, c, i);
    AndToOr.ScanIsFirst(body, c.start + i, c.End());
  }

  /** The mutant computes the chain's conjunction with exactly one && replaced. */
  ghost predicate ReplacesOne(body: Body, c: Chain, i: nat)
    requires i + 1 < c.Length()
  {
    && AndToOr.CanMutate(body, c.start + i)
    && forall holds: Label -> bool ::
         Exit(AndToOr.Mutate(body, c.start + i), c, holds, c.start, c.Length()) == c.ifHolds
         <==> OneDisjunction(c, holds, i)
  }

  lemma RejoiningExit(body: Body, r: Body, c: Chain, holds: Label -> bool, i: nat)
    requires Lowered(body, c) && ChangedAt(body, r, c, i) && i + 1 < c.Length()
    requires Leads(r[c.start + i].term, c.negated[i], c.Next(i + 1), c.Next(i))
    ensures Exit(r, c, holds, c.start, c.Length()) == c.ifHolds <==> OneDisjunction(c, holds, i)
  {
    WeakenedExit(body, r, c, holds, i, i + 1);
    assert Weakened(c, holds, i, i + 1) <==> OneDisjunction(c, holds, i);
  }

  /** What a branch behind the chain does to operand i when it is not paired in operand i's own pattern. */
  lemma CrossedBranch(body: Body, c: Chain, i: nat) returns (whenFails: Label)
    requires Lowered(body, c) && InRange(body) && i + 1 < c.Length() && NoPlainAfter(c, i)
    requires AndToOr.CanMutate(body, c.start + i) && AndToOr.Find(body, c.start + i).Found?
    requires AndToOr.Find(body, c.start + i).pattern != OwnPattern(c, i)
    ensures var r := AndToOr.Mutate(body, c.start + i);
            && ChangedAt(body, r, c, i)
            && Leads(r[c.start + i].term, c.negated[i], c.ifFails, whenFails)
  {
    FoundFacts(body, c.start + i);
    FindPastChain(body, c, i);
    AndToOr.ScanIsFirst(body, c.start + i, c.End());
    assert LoweredAt(body, c, i);
    var Found(pattern, second) := AndToOr.Find(body, c.start + i);
    if pattern.Pattern3? {
      whenFails := c.Next(i);
    } else {
      whenFails := body[second].term.ifTrue;
      RewriteShape(body, c.start + i, second, pattern);
    }
  }

  lemma PastChainDiffers(body: Body, c: Chain, i: nat) returns (holds: Label -> bool)
    requires Lowered(body, c) && InRange(body) && i + 1 < c.Length() && NoPlainAfter(c, i)
    requires AndToOr.CanMutate(body, c.start + i) && !RejoinsBehind(body, c, i)
    ensures Differs(AndToOr.Mutate(body, c.start + i), c, holds, i)
  {
    FindPastChain(body, c, i);
    AndToOr.ScanIsFirst(body, c.start + i, c.End());
    var found := AndToOr.Find(body, c.start + i);
    var r := AndToOr.Mutate(body, c.start + i);
    if found.NotFound? {
      holds := AllBut(c, i);
      AllButHold(c, i, i);
      ChainMeaning(body, c, holds, 0, c.Length());
    } else if found.pattern != OwnPattern(c, i) {
      var whenFails := CrossedBranch(body, c, i);
      holds := CrossedDiffers(body, r, c, i, whenFails);
    } else {
      FoundBehind(body, c, i, found.second);
      MutatedBranch(body, c, i, found.second);
      holds := OtherTargetDiffers(body, r, c, i, body[found.second].term.ifTrue);
    }
  }

  lemma RejoiningReplacesOne(body: Body, c: Chain, i: nat)
    requires Lowered(body, c) && InRange(body) && i + 1 < c.Length() && RejoinsBehind(body, c, i)
    ensures ReplacesOne(body, c, i)
  {
    var l: Label :| FitsBehind(body, c, i, l) && body[l].term.ifTrue == c.Next(i + 1);
    FoundBehind(body, c, i, l);
    MutatedBranch(body, c, i, l);
    forall holds: Label -> bool
      ensures Exit(AndToOr.Mutate(body, c.start + i), c, holds, c.start, c.Length()) == c.ifHolds
              <==> OneDisjunction(c, holds, i)
    {
      RejoiningExit(body, AndToOr.Mutate(body, c.start + i), c, holds, i);
    }
  }

  /**
   The mutation of operand i replaces exactly one && if and only if the next operand is not negated,
   or a branch behind the chain is paired with operand i and happens to lead past the next operand.
   */
  lemma ExactlyOneReplaced(body: Body, c: Chain, i: nat)
    requires Lowered(body, c) && InRange(body) && i + 1 < c.Length()
    ensures ReplacesOne(body, c, i) <==> !c.negated[i + 1] || RejoinsBehind(body, c, i)
  {
    if !c.negated[i + 1] {
      forall holds: Label -> bool
        ensures AndToOr.CanMutate(body, c.start + i)
        ensures Exit(AndToOr.Mutate(body, c.start + i), c, holds, c.start, c.Length()) == c.ifHolds
                <==> OneDisjunction(c, holds, i)
      {
        AdjacentOperands(body, c, holds, i);
      }
      FindInChain(body, c, i, i + 1);
    } else if RejoinsBehind(body, c, i) {
      RejoiningReplacesOne(body, c, i);
    } else if AndToOr.CanMutate(body, c.start + i) {
      var j := PlainOrNone(c, i, i + 1);
      var holds: Label -> bool;
      if NoPlainAfter(c, i) {
        holds := PastChainDiffers(body, c, i);
      } else {
        holds := NegatedOperandNext(body, c, i, j);
      }
      assert Differs(AndToOr.Mutate(body, c.start + i), c, holds, i);
    }
  }

  /** If no branch behind the chain fits, that leaves the next operand alone to decide. */
  lemma ExactlyOneReplacedAlone(body: Body, c: Chain, i: nat)
    requires Lowered(body, c) && InRange(body) && i + 1 < c.Length()
    requires IsConditional(body, c.start + i) && NothingFits(body, c.start + i, c.End(), |body|)
    ensures ReplacesOne(body, c, i) <==> !c.negated[i + 1]
  {
    ExactlyOneReplaced(body, c, i);
  }
}
