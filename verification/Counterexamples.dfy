/** Inputs on which the logical mutators do not do what their names say. */
module Counterexamples {
  import opened IR
  import opened Interpreter
  import opened Rewriting
  import opened PhiRules
  import opened Chains
  import AndToOr

  function Leaf(): Block {
    Block([], [], Ret(NoValue))
  }

  function Test(argument: nat, ifFalse: Label, ifTrue: Label): Block {
    Block([], [], CondBr(Arg(argument), ifFalse, ifTrue))
  }

  // --- The value of a && b && c, joined in a phi and branched on.

  function JoinPhi(): Phi {
    Phi(0, [Incoming(Const(0), 0), Incoming(Const(0), 1), Incoming(Arg(2), 2)])
  }

  function ValueOfThree(): Body {
    [Test(0, 3, 1), Test(1, 3, 2), Block([], [], Br(3)), Block([JoinPhi()], [], CondBr(Use(0), 5, 4)), Leaf(), Leaf()]
  }

  lemma JoinEntries(p: Label)
    ensures CountEntries(JoinPhi().incoming, p) == if p <= 2 then 1 else 0
    ensures PhiOperand(JoinPhi(), 0) == Some(Const(0)) && PhiOperand(JoinPhi(), 1) == Some(Const(0))
  {
    var e := JoinPhi().incoming;
    assert e[..2] == [e[0], e[1]] && e[..2][..1] == [e[0]] && e[..2][..1][..0] == [];
    assert CountEntries(e[..2][..1], p) == if p == 0 then 1 else 0;
    assert CountEntries(e[..2], p) == if p <= 1 then 1 else 0;
    assert e[1..][0] == e[1];
  }

  lemma JoinIsLegal()
    ensures LegalPhi(ValueOfThree(), 3, JoinPhi())
  {
    var body := ValueOfThree();
    forall p: Label | p < |body|
      ensures CountEntries(JoinPhi().incoming, p) == CountEdges(body[p].term, 3)
    {
      JoinEntries(p);
    }
  }

  lemma ValueOfThreeIsLegal()
    ensures Legal(ValueOfThree()) && InRange(ValueOfThree())
  {
    var body := ValueOfThree();
    JoinIsLegal();
    forall l: Label | l < |body| ensures LegalBlock(body, l) {
      assert body[l].phis == if l == 3 then [JoinPhi()] else [];
    }
  }

  /** The first branch, mutated, leaves its entry behind in the join. */
  lemma StaleEntry()
    ensures var body := ValueOfThree();
            && Legal(body) && InRange(body)
            && AndToOr.Find(body, 0) == Found(Pattern1, 1)
            && AndToOr.CanMutate(body, 0)
            && !Legal(AndToOr.Mutate(body, 0))
  {
    var body := ValueOfThree();
    ValueOfThreeIsLegal();
    assert AndToOr.Classify(body, 0, 1) == Some(Pattern1);
    LegalAfterAndToOr(body, 0);
  }

  lemma SecondBranchFound()
    ensures AndToOr.Find(ValueOfThree(), 1) == Found(Pattern3, 3)
  {
    var body := ValueOfThree();
    assert AndToOr.Classify(body, 1, 2) == None;
    assert JoinPhi() in body[3].phis && JoinPhi().incoming[0] in JoinPhi().incoming;
    assert AndToOr.Classify(body, 1, 3) == Some(Pattern3);
    assert AndToOr.Scan(body, 1, 3) == Found(Pattern3, 3);
  }

  lemma NegatedJoin()
    ensures PhiOperand(NegatePhi(JoinPhi()), 0) == Some(Const(1))
            && PhiOperand(NegatePhi(JoinPhi()), 1) == Some(Const(0))
  {
    var incoming := NegatePhi(JoinPhi()).incoming;
    assert incoming == [Incoming(Const(1), 0), Incoming(Const(0), 1), Incoming(Arg(2), 2)];
    assert incoming[1..][0] == Incoming(Const(0), 1);
  }

  /** The second branch, mutated, makes the first one's false entry true and keeps its own false. */
  lemma WrongEntry()
    ensures var body := ValueOfThree();
            && Legal(body) && InRange(body)
            && AndToOr.Find(body, 1) == Found(Pattern3, 3)
            && AndToOr.CanMutate(body, 1)
            && var r := AndToOr.Mutate(body, 1);
               && |r| == 6 && |r[3].phis| == 1
               && PhiOperand(r[3].phis[0], 0) == Some(Const(1)) && PhiOperand(r[3].phis[0], 1) == Some(Const(0))
  {
    ValueOfThreeIsLegal();
    SecondBranchFound();
    NegatedJoin();
    assert AndToOr.Mutate(ValueOfThree(), 1)[3].phis == [NegatePhi(JoinPhi())];
  }

  // --- Chains with a negated operand.

  /** a && !b && c */
  function NegatedInBetween(): Body {
    [Test(0, 4, 1), Test(1, 2, 4), Test(2, 4, 3), Leaf(), Leaf()]
  }

  /** Mutating the first operand yields a || (!b && c), not (a || !b) && c. */
  lemma TwoReplaced()
    ensures var body := NegatedInBetween();
            var c := Chain(0, [false, true, false], 3, 4);
            && Lowered(body, c) && InRange(body) && NextPlain(c, 0, 2)
            && AndToOr.Find(body, 0) == Found(Pattern1, 2)
            && !ReplacesOne(body, c, 0)
  {
    var body := NegatedInBetween();
    var c := Chain(0, [false, true, false], 3, 4);
    assert LoweredAt(body, c, 0) && LoweredAt(body, c, 1) && LoweredAt(body, c, 2);
    FindInChain(body, c, 0, 2);
    ExactlyOneReplaced(body, c, 0);
    assert !c.negated[2];
  }

  /** a && !b */
  function NegatedLast(): Body {
    [Test(0, 3, 1), Test(1, 2, 3), Leaf(), Leaf()]
  }

  /** Nothing is mutated. */
  lemma NoneReplaced()
    ensures var body := NegatedLast();
            var c := Chain(0, [false, true], 2, 3);
            && Lowered(body, c) && InRange(body)
            && AndToOr.Find(body, 0) == NotFound
            && AndToOr.CanMutate(body, 0) && AndToOr.Mutate(body, 0) == body
            && !ReplacesOne(body, c, 0)
  {
    var body := NegatedLast();
    var c := Chain(0, [false, true], 2, 3);
    assert LoweredAt(body, c, 0) && LoweredAt(body, c, 1);
    UnmutatedChain(body, c, l => true, 0);
    ExactlyOneReplacedAlone(body, c, 0);
  }

  /** a && !b, and behind it another test with the same two targets */
  function SharedTargets(): Body {
    [Test(0, 4, 1), Test(1, 3, 4), Test(2, 4, 3), Leaf(), Leaf()]
  }

  /** The branch behind the chain is taken for its second operand, which here makes no difference. */
  lemma ReplacedByAccident()
    ensures var body := SharedTargets();
            var c := Chain(0, [false, true], 3, 4);
            && Lowered(body, c) && InRange(body) && c.negated[1]
            && AndToOr.Find(body, 0) == Found(Pattern1, 2)
            && ReplacesOne(body, c, 0)
  {
    var body := SharedTargets();
    var c := Chain(0, [false, true], 3, 4);
    assert LoweredAt(body, c, 0) && LoweredAt(body, c, 1);
    FindPastChain(body, c, 0);
    assert AndToOr.Classify(body, 0, 2) == Some(Pattern1);
    ExactlyOneReplaced(body, c, 0);
  }
}
