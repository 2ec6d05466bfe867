/**
 What the finders select on a legal body, in terms of branch targets and predecessors alone; and the values of
 && and ||, joined in a phi and branched on, which Pattern 3 is for.
 */
module Findings {
  import opened IR
  import opened Interpreter
  import opened Rewriting
  import opened Duality
  import opened PhiRules
  import opened PatternMeaning
  import AndToOr
  import OrToAnd

  predicate JumpsTo(body: Body, from: Label, to: Label) {
    from < |body| && to in Successors(body[from].term)
  }

  lemma EdgesAreJumps(t: Terminator, l: Label)
    ensures CountEdges(t, l) > 0 <==> l in Successors(t)
  {
    if t.CondBr? {
      assert Successors(t)[0] == t.ifTrue && Successors(t)[1] == t.ifFalse;
    } else if t.Br? {
      assert Successors(t)[0] == t.target;
    }
  }

  /** In a legal body the entries of a phi tell the predecessors of its block. */
  lemma OtherEntryIsOtherPredecessor(body: Body, l: Label, first: Label)
    requires Legal(body) && l < |body|
    ensures HasOtherEntry(body[l], first)
            <==> body[l].phis != [] && exists p: Label :: p != first && JumpsTo(body, p, l)
  {
    assert LegalBlock(body, l);
    if HasOtherEntry(body[l], first) {
      var phi :| phi in body[l].phis && exists e | e in phi.incoming :: e.block != first;
      var e :| e in phi.incoming && e.block != first;
      var i :| 0 <= i < |body[l].phis| && body[l].phis[i] == phi;
      assert LegalPhi(body, l, phi);
      CountIsPresence(phi.incoming, e.block);
      EdgesAreJumps(body[e.block].term, l);
      assert JumpsTo(body, e.block, l);
    }
    if p: Label :| body[l].phis != [] && p != first && JumpsTo(body, p, l) {
      var phi := body[l].phis[0];
      assert LegalPhi(body, l, phi);
      EdgesAreJumps(body[p].term, l);
      CountIsPresence(phi.incoming, p);
      assert phi in body[l].phis;
    }
  }

  /**
   How a conditional branch fits one before it: it fails to the same target (Pattern 1), or to where the other
   one goes when it holds (Pattern 2), or it does neither and ends the block that the other one fails to, which
   has a phi and another predecessor (Pattern 3).
   */
  ghost predicate Fits(body: Body, first: Label, c: Label, pattern: Pattern)
    requires IsConditional(body, first)
  {
    && IsConditional(body, c)
    && var t, s := body[first].term, body[c].term;
       match pattern
       case Pattern1 => s.ifFalse == t.ifFalse
       case Pattern2 => s.ifFalse == t.ifTrue && s.ifFalse != t.ifFalse
       case Pattern3 =>
         && s.ifFalse != t.ifFalse && s.ifFalse != t.ifTrue
         && c == t.ifFalse && body[c].phis != []
         && exists p: Label :: p != first && JumpsTo(body, p, c)
  }

  lemma ClassifyFits(body: Body, first: Label, c: Label, pattern: Pattern)
    requires Legal(body) && IsConditional(body, first) && c < |body|
    ensures AndToOr.Classify(body, first, c) == Some(pattern) <==> Fits(body, first, c, pattern)
  {
    OtherEntryIsOtherPredecessor(body, c, first);
  }

  /** The first branch, in layout order, that fits. */
  lemma FoundIsFirstFit(body: Body, first: Label, pattern: Pattern, second: Label)
    requires Legal(body) && first < |body|
    ensures AndToOr.Find(body, first) == Found(pattern, second)
            <==> && IsConditional(body, first) && first < second && Fits(body, first, second, pattern)
                 && forall c: Label, q | first < c < second :: !Fits(body, first, c, q)
  {
    if IsConditional(body, first) {
      AndToOr.ScanIsFirst(body, first, first + 1);
      forall c: Label, q | c < |body|
        ensures AndToOr.Classify(body, first, c) == Some(q) <==> Fits(body, first, c, q)
      {
        ClassifyFits(body, first, c, q);
      }
    }
  }

  /** Pattern 3 is selected exactly for the block joined to, if no branch before it fails to one of the targets. */
  ghost predicate JoinsAnd(body: Body, first: Label, second: Label) {
    && IsConditional(body, first) && IsConditional(body, second) && first < second
    && second == body[first].term.ifFalse && body[second].phis != []
    && (exists p: Label :: p != first && JumpsTo(body, p, second))
    && forall c: Label | first < c <= second && IsConditional(body, c) ::
         body[c].term.ifFalse != body[first].term.ifFalse && body[c].term.ifFalse != body[first].term.ifTrue
  }

  lemma Pattern3IsFound(body: Body, first: Label, second: Label)
    requires Legal(body) && first < |body|
    ensures AndToOr.Find(body, first) == Found(Pattern3, second) <==> JoinsAnd(body, first, second)
  {
    FoundIsFirstFit(body, first, Pattern3, second);
    if AndToOr.Find(body, first) == Found(Pattern3, second) {
      forall c: Label | first < c <= second && IsConditional(body, c)
        ensures body[c].term.ifFalse != body[first].term.ifFalse && body[c].term.ifFalse != body[first].term.ifTrue
      {
        assert c < second ==> !Fits(body, first, c, Pattern1) && !Fits(body, first, c, Pattern2);
      }
    }
  }

  /** The dual, on true targets. */
  ghost predicate FitsOr(body: Body, first: Label, c: Label, pattern: Pattern)
    requires IsConditional(body, first)
  {
    && IsConditional(body, c)
    && var t, s := body[first].term, body[c].term;
       match pattern
       case Pattern1 => s.ifTrue == t.ifTrue
       case Pattern2 => s.ifTrue == t.ifFalse && s.ifTrue != t.ifTrue
       case Pattern3 =>
         && s.ifTrue != t.ifTrue && s.ifTrue != t.ifFalse
         && c == t.ifTrue && body[c].phis != []
         && exists p: Label :: p != first && JumpsTo(body, p, c)
  }

  lemma DualJumps(body: Body, p: Label, l: Label)
    ensures JumpsTo(Dual(body), p, l) <==> JumpsTo(body, p, l)
  {
    if p < |body| {
      assert Dual(body)[p] == DualBlock(body[p]);
      EdgesAreJumps(body[p].term, l);
      EdgesAreJumps(Dual(body)[p].term, l);
    }
  }

  lemma DualFits(body: Body, first: Label, c: Label, pattern: Pattern)
    requires IsConditional(body, first)
    ensures IsConditional(Dual(body), first)
    ensures FitsOr(body, first, c, pattern) <==> Fits(Dual(body), first, c, pattern)
  {
    var d := Dual(body);
    assert d[first] == DualBlock(body[first]) && (c < |body| ==> d[c] == DualBlock(body[c]));
    forall p: Label ensures JumpsTo(d, p, c) <==> JumpsTo(body, p, c) {
      DualJumps(body, p, c);
    }
  }

  lemma OrFoundIsFirstFit(body: Body, first: Label, pattern: Pattern, second: Label)
    requires Legal(body) && first < |body|
    ensures OrToAnd.Find(body, first) == Found(pattern, second)
            <==> && IsConditional(body, first) && first < second && FitsOr(body, first, second, pattern)
                 && forall c: Label, q | first < c < second :: !FitsOr(body, first, c, q)
  {
    DualLegal(body);
    FindDual(body, first);
    FoundIsFirstFit(Dual(body), first, pattern, second);
    assert Dual(body)[first] == DualBlock(body[first]);
    if IsConditional(body, first) {
      forall c: Label, q ensures FitsOr(body, first, c, q) <==> Fits(Dual(body), first, c, q) {
        DualFits(body, first, c, q);
      }
    }
  }

  ghost predicate JoinsOr(body: Body, first: Label, second: Label) {
    && IsConditional(body, first) && IsConditional(body, second) && first < second
    && second == body[first].term.ifTrue && body[second].phis != []
    && (exists p: Label :: p != first && JumpsTo(body, p, second))
    && forall c: Label | first < c <= second && IsConditional(body, c) ::
         body[c].term.ifTrue != body[first].term.ifTrue && body[c].term.ifTrue != body[first].term.ifFalse
  }

  lemma OrPattern3IsFound(body: Body, first: Label, second: Label)
    requires Legal(body) && first < |body|
    ensures OrToAnd.Find(body, first) == Found(Pattern3, second) <==> JoinsOr(body, first, second)
  {
    OrFoundIsFirstFit(body, first, Pattern3, second);
    if OrToAnd.Find(body, first) == Found(Pattern3, second) {
      forall c: Label | first < c <= second && IsConditional(body, c)
        ensures body[c].term.ifTrue != body[first].term.ifTrue && body[c].term.ifTrue != body[first].term.ifFalse
      {
        assert c < second ==> !FitsOr(body, first, c, Pattern1) && !FitsOr(body, first, c, Pattern2);
      }
    }
  }

  // --- The lowered value of two operands.

  /**
   Block `join` joins a value: its first phi, whose register no other phi writes, takes `constant` from the first
   block and `b` from block `last`, where the evaluation of the second operand ends.
   */
  ghost predicate Value(body: Body, first: Label, last: Label, join: Label, constant: int, b: Operand) {
    && IsConditional(body, first) && IsConditional(body, join) && first < join
    && last != first && JumpsTo(body, last, join)
    && body[join].phis != [] && body[join].phis[0].incoming == [Incoming(Const(constant), first), Incoming(b, last)]
    && forall i | 0 < i < |body[join].phis| :: body[join].phis[i].dst != body[join].phis[0].dst
  }

  /** "a && b": if a fails, the first block jumps to the join, and no later branch up to there fails to its targets. */
  ghost predicate ValueOfAnd(body: Body, first: Label, last: Label, join: Label, b: Operand) {
    && Value(body, first, last, join, 0, b)
    && body[first].term.ifFalse == join
    && forall c: Label | first < c <= join && IsConditional(body, c) ::
         body[c].term.ifFalse != join && body[c].term.ifFalse != body[first].term.ifTrue
  }

  /** "a || b": if a holds, the first block jumps to the join, with a constant that is not zero. */
  ghost predicate ValueOfOr(body: Body, first: Label, last: Label, join: Label, constant: int, b: Operand) {
    && Value(body, first, last, join, constant, b) && constant != 0
    && body[first].term.ifTrue == join
    && forall c: Label | first < c <= join && IsConditional(body, c) ::
         body[c].term.ifTrue != join && body[c].term.ifTrue != body[first].term.ifFalse
  }

  /** The register of the first phi, once the block is entered. */
  ghost predicate Holds(block: Block, from: Label, fr: Frame, v: Value)
    requires block.phis != []
  {
    match EnterPhis(block.phis, Some(from), fr, fr)
    case None => true
    case Some(entered) => Eval(Use(block.phis[0].dst), entered) == v
  }

  /** In the join the phi is `constant` when it is entered from the first block, and the value of b otherwise. */
  ghost predicate JoinHolds(block: Block, first: Label, last: Label, constant: int, b: Operand)
    requires block.phis != []
  {
    forall fr :: Holds(block, first, fr, Int(constant)) && Holds(block, last, fr, Eval(b, fr))
  }

  lemma PhiIsHeld(block: Block, from: Label, o: Operand, fr: Frame)
    requires block.phis != [] && PhiOperand(block.phis[0], from) == Some(o)
    requires forall i | 0 < i < |block.phis| :: block.phis[i].dst != block.phis[0].dst
    ensures Holds(block, from, fr, Eval(o, fr))
  {
    EnterKeepsRegister(block.phis[1..], Some(from), fr, fr, block.phis[0].dst, Eval(o, fr));
  }

  lemma JoinOfConstant(block: Block, first: Label, last: Label, constant: int, b: Operand)
    requires block.phis != [] && first != last
    requires block.phis[0].incoming == [Incoming(Const(constant), first), Incoming(b, last)]
    requires forall i | 0 < i < |block.phis| :: block.phis[i].dst != block.phis[0].dst
    ensures JoinHolds(block, first, last, constant, b)
  {
    var incoming := block.phis[0].incoming;
    assert incoming[1..][0] == Incoming(b, last) && EntryFor(incoming[1..], last) == Some(0);
    assert PhiOperand(block.phis[0], first) == Some(Const(constant));
    assert PhiOperand(block.phis[0], last) == Some(b);
    forall fr ensures Holds(block, first, fr, Int(constant)) && Holds(block, last, fr, Eval(b, fr)) {
      PhiIsHeld(block, first, Const(constant), fr);
      PhiIsHeld(block, last, b, fr);
    }
  }

  /** Before and after, where the first phi of the join is concerned. */
  ghost predicate JoinChanges(body: Body, r: Body, first: Label, last: Label, join: Label, was: int, now: int,
                              b: Operand)
  {
    && |r| == |body| && join < |body| && body[join].phis != [] && r[join].phis != []
    && JoinHolds(body[join], first, last, was, b) && JoinHolds(r[join], first, last, now, b)
    && r[join].code == body[join].code && r[join].term == body[join].term
    && forall l: Label | l < |body| && l != first && l != join :: r[l] == body[l]
  }

  lemma ExchangeChangesJoin(body: Body, first: Label, last: Label, join: Label, constant: int, b: Operand)
    requires Value(body, first, last, join, constant, b)
    ensures JoinChanges(body, Exchange(body, first, join), first, last, join, constant, Negated(constant), b)
  {
    var r := Exchange(body, first, join);
    JoinOfConstant(body[join], first, last, constant, b);
    JoinOfConstant(r[join], first, last, Negated(constant), b);
  }

  /**
   The value of "a && b" becomes that of "a || b". Where the run used to enter the join with 0 if a failed, and
   went on to b otherwise, it now enters the join with 1 if a holds, and goes on to b otherwise.
   */
  lemma AndValueBecomesOr(m: Machine, p: seq<Function>, depth: nat, budget: nat, left: nat, body: Body, first: Label,
                          last: Label, join: Label, b: Operand, from: Option<Label>, fr: Frame, w: World)
    requires Legal(body) && ValueOfAnd(body, first, last, join, b) && left > 0
    ensures AndToOr.Find(body, first) == Found(Pattern3, join) && AndToOr.CanMutate(body, first)
    ensures var r := AndToOr.Mutate(body, first);
            var t := body[first].term;
            && JoinChanges(body, r, first, last, join, 0, 1, b)
            && RunBlock(m, p, depth, budget, left, body, first, from, fr, w)
               == ShortCircuit(m, p, depth, budget, left, body, first, t.cond, false, join, first, t.ifTrue, from, fr,
                               w)
            && RunBlock(m, p, depth, budget, left, r, first, from, fr, w)
               == ShortCircuit(m, p, depth, budget, left, r, first, t.cond, true, join, first, t.ifTrue, from, fr, w)
  {
    Pattern3IsFound(body, first, join);
    ExchangeChangesJoin(body, first, last, join, 0, b);
    var t := body[first].term;
    RunsAsShortCircuit(m, p, depth, budget, left, body, first, t.cond, false, join, first, t.ifTrue, from, fr, w);
    RunsAsShortCircuit(m, p, depth, budget, left, AndToOr.Mutate(body, first), first, t.cond, true, join, first,
      t.ifTrue, from, fr, w);
  }

  /** The dual: the value of "a || b" becomes that of "a && b". */
  lemma OrValueBecomesAnd(m: Machine, p: seq<Function>, depth: nat, budget: nat, left: nat, body: Body, first: Label,
                          last: Label, join: Label, constant: int, b: Operand, from: Option<Label>, fr: Frame, w: World)
    requires Legal(body) && ValueOfOr(body, first, last, join, constant, b) && left > 0
    ensures OrToAnd.Find(body, first) == Found(Pattern3, join) && OrToAnd.CanMutate(body, first)
    ensures var r := OrToAnd.Mutate(body, first);
            var t := body[first].term;
            && JoinChanges(body, r, first, last, join, constant, 0, b)
            && RunBlock(m, p, depth, budget, left, body, first, from, fr, w)
               == ShortCircuit(m, p, depth, budget, left, body, first, t.cond, true, join, first, t.ifFalse, from, fr,
                               w)
            && RunBlock(m, p, depth, budget, left, r, first, from, fr, w)
               == ShortCircuit(m, p, depth, budget, left, r, first, t.cond, false, join, first, t.ifFalse, from, fr, w)
  {
    OrPattern3IsFound(body, first, join);
    ExchangeChangesJoin(body, first, last, join, constant, b);
    var t := body[first].term;
    RunsAsShortCircuit(m, p, depth, budget, left, body, first, t.cond, true, join, first, t.ifFalse, from, fr, w);
    RunsAsShortCircuit(m, p, depth, budget, left, OrToAnd.Mutate(body, first), first, t.cond, false, join, first,
      t.ifFalse, from, fr, w);
  }

  // --- The smallest such bodies.

  /** x = a && b, or x = a || b if `either`, and a branch on x. */
  function TwoOperands(either: bool): Body {
    var join := Phi(0, [Incoming(Const(if either then 1 else 0), 0), Incoming(Arg(1), 1)]);
    [Block([], [], if either then CondBr(Arg(0), 1, 2) else CondBr(Arg(0), 2, 1)), Block([], [], Br(2)),
     Block([join], [], CondBr(Use(0), 4, 3)), Block([], [], Ret(Const(1))), Block([], [], Ret(Const(0)))]
  }

  lemma TwoOperandsAreLegal(either: bool)
    ensures Legal(TwoOperands(either))
    ensures if either then ValueOfOr(TwoOperands(either), 0, 1, 2, 1, Arg(1))
            else ValueOfAnd(TwoOperands(either), 0, 1, 2, Arg(1))
  {
    var body := TwoOperands(either);
    var phi := body[2].phis[0];
    var e := phi.incoming;
    assert e[..1] == [e[0]] && e[..1][..0] == [];
    forall p: Label | p < |body| ensures CountEntries(e, p) == CountEdges(body[p].term, 2) {
      assert CountEntries(e[..1], p) == if p == 0 then 1 else 0;
    }
    assert LegalPhi(body, 2, phi);
    forall l: Label | l < |body| ensures LegalBlock(body, l) {}
    EdgesAreJumps(body[1].term, 2);
  }

  lemma ExchangedBody(either: bool)
    ensures HasConstant(TwoOperands(either)[2])
    ensures Exchange(TwoOperands(either), 0, 2) == TwoOperands(!either)
  {
    var body, other := TwoOperands(either), TwoOperands(!either);
    var r := Exchange(body, 0, 2);
    assert NegatePhi(body[2].phis[0]) == other[2].phis[0];
    assert r[0] == other[0];
    assert r[2].phis == other[2].phis;
    assert r[2] == other[2];
    assert r[1] == other[1] && r[3] == other[3] && r[4] == other[4];
  }

  /** Mutated at its first branch, each is the other. */
  lemma TwoOperandsAreExchanged()
    ensures AndToOr.Find(TwoOperands(false), 0) == Found(Pattern3, 2) && AndToOr.CanMutate(TwoOperands(false), 0)
    ensures AndToOr.Mutate(TwoOperands(false), 0) == TwoOperands(true)
    ensures OrToAnd.Find(TwoOperands(true), 0) == Found(Pattern3, 2) && OrToAnd.CanMutate(TwoOperands(true), 0)
    ensures OrToAnd.Mutate(TwoOperands(true), 0) == TwoOperands(false)
  {
    TwoOperandsAreLegal(false);
    TwoOperandsAreLegal(true);
    Pattern3IsFound(TwoOperands(false), 0, 2);
    OrPattern3IsFound(TwoOperands(true), 0, 2);
    ExchangedBody(false);
    ExchangedBody(true);
  }
}
