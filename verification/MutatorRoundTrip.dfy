/** Applying AndToOr and then OrToAnd with the same pattern to the same two branches. */
module MutatorRoundTrip {
  import opened IR
  import opened Interpreter
  import opened Rewriting
  import opened Duality
  import opened PhiRules
  import AndToOr
  import OrToAnd

  ghost predicate NoEntry(block: Block, second: Label) {
    forall i | 0 <= i < |block.phis| :: PhiOperand(block.phis[i], second).None?
  }

  /** OrToAnd's rewrite, on any body: the phis of the false target of the second branch grow. */
  lemma OrShape(body: Body, first: Label, second: Label, pattern: Pattern)
    requires CanRewrite(body, first, second, pattern) && !pattern.Pattern3?
    requires body[second].term.ifFalse < |body|
    ensures var r := OrToAnd.Rewrite(body, first, second, pattern);
            var a := body[second].term.ifFalse;
            && |r| == |body|
            && r[first].term == OrToAnd.Replacement(body, first, second, pattern)
            && (forall l: Label | l < |body| :: r[l].code == body[l].code)
            && (forall l: Label | l < |body| && l != first :: r[l].term == body[l].term)
            && (forall l: Label | l < |body| && l != a :: r[l].phis == body[l].phis)
            && var once := ExtendPhis(body[a].phis, second, first);
               r[a].phis == if body[second].term.ifTrue == a then ExtendPhis(once, second, first) else once
  {
    var s := body[second].term;
    var replaced := SetTerm(body, first, OrToAnd.Replacement(body, first, second, pattern));
    ExtendPair(replaced, s.ifTrue, s.ifFalse, s.ifFalse, second, first);
  }

  /** How the phis of the two blocks grow on the way there and back. */
  lemma RoundTripShape(body: Body, first: Label, second: Label, pattern: Pattern)
    requires InRange(body) && CanRewrite(body, first, second, pattern) && !pattern.Pattern3?
    requires AndToOr.Classify(body, first, second) == Some(pattern)
    ensures var there := AndToOr.Rewrite(body, first, second, pattern);
            && CanRewrite(there, first, second, pattern)
            && var back := OrToAnd.Rewrite(there, first, second, pattern);
               var a, g := Abandoned(body, second), Gained(body, second);
               && |back| == |body| && a < |body| && g < |body|
               && (forall l: Label | l < |body| :: back[l].term == body[l].term && back[l].code == body[l].code)
               && (forall l: Label | l < |body| && l != a && l != g :: back[l].phis == body[l].phis)
               && (a != g ==> && back[g].phis == ExtendPhis(body[g].phis, second, first)
                              && back[a].phis == ExtendPhis(body[a].phis, second, first))
               && (a == g ==> back[g].phis == Fourfold(body[g].phis, second, first))
  {
    var there := AndToOr.Rewrite(body, first, second, pattern);
    assert body[second] in body && Abandoned(body, second) in Successors(body[second].term);
    RewriteShape(body, first, second, pattern);
    OrShape(there, first, second, pattern);
  }

  function Fourfold(phis: seq<Phi>, second: Label, first: Label): seq<Phi> {
    var once := ExtendPhis(phis, second, first);
    var twice := ExtendPhis(once, second, first);
    var thrice := ExtendPhis(twice, second, first);
    ExtendPhis(thrice, second, first)
  }

  lemma FourfoldIsIdentity(phis: seq<Phi>, second: Label, first: Label)
    ensures Fourfold(phis, second, first) == phis <==> forall i | 0 <= i < |phis| :: PhiOperand(phis[i], second).None?
  {
    var e1 := ExtendPhis(phis, second, first);
    var e2 := ExtendPhis(e1, second, first);
    var e3 := ExtendPhis(e2, second, first);
    var e4 := ExtendPhis(e3, second, first);
    if e4 == phis {
      forall i | 0 <= i < |phis| ensures PhiOperand(phis[i], second).None? {
        assert |e1[i].incoming| <= |e2[i].incoming| <= |e3[i].incoming| <= |e4[i].incoming|;
        assert e4[i] == phis[i];
      }
    }
  }

  /** Both targets come back; the whole body does exactly when no phi was extended on the way. */
  lemma RoundTrip(body: Body, first: Label, second: Label, pattern: Pattern)
    requires InRange(body) && CanRewrite(body, first, second, pattern) && !pattern.Pattern3?
    requires AndToOr.Classify(body, first, second) == Some(pattern)
    ensures var there := AndToOr.Rewrite(body, first, second, pattern);
            && CanRewrite(there, first, second, pattern)
            && var back := OrToAnd.Rewrite(there, first, second, pattern);
               var a, g := Abandoned(body, second), Gained(body, second);
               && |back| == |body| && a < |body| && g < |body|
               && (forall l: Label | l < |body| :: back[l].term == body[l].term && back[l].code == body[l].code)
               && (back == body <==> NoEntry(body[a], second) && NoEntry(body[g], second))
  {
    RoundTripShape(body, first, second, pattern);
    var back := OrToAnd.Rewrite(AndToOr.Rewrite(body, first, second, pattern), first, second, pattern);
    var a, g := Abandoned(body, second), Gained(body, second);
    FourfoldIsIdentity(body[g].phis, second, first);
    assert NoEntry(body[a], second) && NoEntry(body[g], second)
      <==> back[a].phis == body[a].phis && back[g].phis == body[g].phis;
    if back[a].phis == body[a].phis && back[g].phis == body[g].phis {
      forall l: Label | l < |body| ensures back[l] == body[l] {}
    }
  }

  /** Pattern 3 restores both targets, and the constant exactly when it was 0 or 1. */
  lemma RoundTripPattern3(body: Body, first: Label, second: Label)
    requires CanRewrite(body, first, second, Pattern3)
    ensures var there := AndToOr.Rewrite(body, first, second, Pattern3);
            && CanRewrite(there, first, second, Pattern3)
            && var back := OrToAnd.Rewrite(there, first, second, Pattern3);
               && |back| == |body|
               && (forall l: Label | l < |body| :: back[l].term == body[l].term)
               && (back == body <==> body[second].phis[0].incoming[0].value.n in {0, 1})
  {
    var there := AndToOr.Rewrite(body, first, second, Pattern3);
    var phi := body[second].phis[0];
    assert there[second].phis[0] == NegatePhi(phi);
    var back := OrToAnd.Rewrite(there, first, second, Pattern3);
    assert back[second].phis[0] == NegatePhi(NegatePhi(phi));
    assert NegatePhi(NegatePhi(phi)).incoming[0].value == Const(Negated(Negated(phi.incoming[0].value.n)));
    if phi.incoming[0].value.n in {0, 1} {
      assert NegatePhi(NegatePhi(phi)).incoming == phi.incoming;
      assert back[second].phis == body[second].phis;
      forall l: Label | l < |body| ensures back[l] == body[l] {}
    }
  }
}
