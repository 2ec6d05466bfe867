/**
 The phi rules of the LLVM Language Reference ('phi' Instruction): one entry for each
 incoming edge, and entries for one block agree. Exactly when do the mutators keep them?
 */
module PhiRules {
  import opened IR
  import opened Interpreter
  import opened Rewriting
  import opened Duality
  import AndToOr
  import OrToAnd

  function CountEntries(incoming: seq<Incoming>, p: Label): nat {
    if incoming == [] then 0
    else CountEntries(incoming[..|incoming| - 1], p) + if incoming[|incoming| - 1].block == p then 1 else 0
  }

  function CountEdges(t: Terminator, l: Label): nat {
    match t
    case Br(target) => if target == l then 1 else 0
    case CondBr(_, ifFalse, ifTrue) => (if ifFalse == l then 1 else 0) + (if ifTrue == l then 1 else 0)
    case _ => 0
  }

  ghost predicate Agree(incoming: seq<Incoming>) {
    forall i, j | 0 <= i < |incoming| && 0 <= j < |incoming| && incoming[i].block == incoming[j].block ::
      incoming[i].value == incoming[j].value
  }

  ghost predicate LegalPhi(body: Body, l: Label, phi: Phi) {
    && (forall p: Label | p < |body| :: CountEntries(phi.incoming, p) == CountEdges(body[p].term, l))
    && (forall e | e in phi.incoming :: e.block < |body|)
    && Agree(phi.incoming)
  }

  ghost predicate LegalBlock(body: Body, l: Label)
    requires l < |body|
  {
    forall i | 0 <= i < |body[l].phis| :: LegalPhi(body, l, body[l].phis[i])
  }

  ghost predicate Legal(body: Body) {
    forall l: Label | l < |body| :: LegalBlock(body, l)
  }

  lemma {:induction false} CountIsPresence(incoming: seq<Incoming>, p: Label)
    ensures CountEntries(incoming, p) > 0 <==> exists e | e in incoming :: e.block == p
  {
    if incoming != [] {
      var n := |incoming| - 1;
      CountIsPresence(incoming[..n], p);
      assert incoming == incoming[..n] + [incoming[n]];
    }
  }

  lemma HasEntry(phi: Phi, p: Label)
    ensures PhiOperand(phi, p).Some? <==> CountEntries(phi.incoming, p) > 0
    ensures PhiOperand(phi, p).Some? ==> exists i | 0 <= i < |phi.incoming| ::
            phi.incoming[i] == Incoming(PhiOperand(phi, p).value, p)
  {
    CountIsPresence(phi.incoming, p);
    EntryForFacts(phi.incoming, p);
    if PhiOperand(phi, p).Some? {
      assert phi.incoming[EntryFor(phi.incoming, p).value] == Incoming(PhiOperand(phi, p).value, p);
    }
  }

  lemma AppendCounts(incoming: seq<Incoming>, e: Incoming, p: Label)
    ensures CountEntries(incoming + [e], p) == CountEntries(incoming, p) + if e.block == p then 1 else 0
  {
    assert (incoming + [e])[..|incoming|] == incoming;
  }

  /** The false target of the second branch, which the first branch no longer jumps to. */
  function Abandoned(body: Body, second: Label): Label
    requires IsConditional(body, second)
  {
    body[second].term.ifFalse
  }

  function Gained(body: Body, second: Label): Label
    requires IsConditional(body, second)
  {
    body[second].term.ifTrue
  }

  function Kept(body: Body, first: Label, pattern: Pattern): Label
    requires IsConditional(body, first)
  {
    if pattern == Pattern1 then body[first].term.ifTrue else body[first].term.ifFalse
  }

  lemma FoundFacts(body: Body, first: Label)
    requires first < |body| && AndToOr.Find(body, first).Found?
    ensures var found := AndToOr.Find(body, first);
            && IsConditional(body, first) && IsConditional(body, found.second) && first < found.second
            && AndToOr.Classify(body, first, found.second) == Some(found.pattern)
            && (!found.pattern.Pattern3? ==> AndToOr.CanMutate(body, first))
  {
    AndToOr.ScanIsFirst(body, first, first + 1);
  }

  /** Everything Patterns 1 and 2 change: one terminator, and the phis of the gained block. */
  lemma RewriteShape(body: Body, first: Label, second: Label, pattern: Pattern)
    requires InRange(body) && CanRewrite(body, first, second, pattern) && !pattern.Pattern3?
    ensures var r := AndToOr.Rewrite(body, first, second, pattern);
            var g := Gained(body, second);
            && |r| == |body| && g < |body|
            && r[first].term == AndToOr.Replacement(body, first, second, pattern)
            && (forall l: Label | l < |body| :: r[l].code == body[l].code)
            && (forall l: Label | l < |body| && l != first :: r[l].term == body[l].term)
            && (forall l: Label | l < |body| && l != g :: r[l].phis == body[l].phis)
            && var once := ExtendPhis(body[g].phis, second, first);
               r[g].phis == if Abandoned(body, second) == g then ExtendPhis(once, second, first) else once
  {
    var s := body[second].term;
    assert body[second] in body && s.ifTrue in Successors(s);
    var replaced := SetTerm(body, first, AndToOr.Replacement(body, first, second, pattern));
    ExtendPair(replaced, s.ifTrue, s.ifFalse, s.ifTrue, second, first);
  }

  lemma EdgesAfter(body: Body, first: Label, second: Label, pattern: Pattern, l: Label)
    requires CanRewrite(body, first, second, pattern) && !pattern.Pattern3?
    requires AndToOr.Classify(body, first, second) == Some(pattern)
    ensures var edges := if Kept(body, first, pattern) == l then 1 else 0;
            && CountEdges(body[first].term, l) == edges + (if Abandoned(body, second) == l then 1 else 0)
            && CountEdges(AndToOr.Replacement(body, first, second, pattern), l)
              == edges + (if Gained(body, second) == l then 1 else 0)
  {}

  /** Where the gained block was already a successor of the first one, both entries must agree. */
  ghost predicate EntriesAgree(block: Block, first: Label, second: Label) {
    forall i | 0 <= i < |block.phis| :: PhiOperand(block.phis[i], first) == PhiOperand(block.phis[i], second)
  }

  lemma ExtendedAgrees(incoming: seq<Incoming>, o: Operand, first: Label)
    requires Agree(incoming)
    ensures Agree(incoming + [Incoming(o, first)])
            <==> forall i | 0 <= i < |incoming| && incoming[i].block == first :: incoming[i].value == o
  {
    var extended := incoming + [Incoming(o, first)];
    assert forall i | 0 <= i < |incoming| :: extended[i] == incoming[i];
    assert extended[|incoming|] == Incoming(o, first);
  }

  lemma AllValuesFor(phi: Phi, p: Label, o: Operand)
    requires Agree(phi.incoming) && PhiOperand(phi, p).Some?
    ensures PhiOperand(phi, p) == Some(o)
            <==> forall i | 0 <= i < |phi.incoming| && phi.incoming[i].block == p :: phi.incoming[i].value == o
  {
    HasEntry(phi, p);
  }

  lemma ExtendedCounts(body: Body, r: Body, first: Label, second: Label, pattern: Pattern, phi: Phi, o: Operand)
    requires InRange(body) && CanRewrite(body, first, second, pattern) && !pattern.Pattern3?
    requires AndToOr.Classify(body, first, second) == Some(pattern)
    requires r == AndToOr.Rewrite(body, first, second, pattern)
    requires Abandoned(body, second) != Gained(body, second)
    requires LegalPhi(body, Gained(body, second), phi)
    ensures |r| == |body|
    ensures forall p: Label | p < |r| ::
              CountEntries(phi.incoming + [Incoming(o, first)], p) == CountEdges(r[p].term, Gained(body, second))
  {
    var g := Gained(body, second);
    RewriteShape(body, first, second, pattern);
    EdgesAfter(body, first, second, pattern, g);
    forall p: Label | p < |r|
      ensures CountEntries(phi.incoming + [Incoming(o, first)], p) == CountEdges(r[p].term, g)
    {
      AppendCounts(phi.incoming, Incoming(o, first), p);
      assert CountEntries(phi.incoming, p) == CountEdges(body[p].term, g);
    }
  }

  lemma ExtendedIsLegal(body: Body, r: Body, first: Label, second: Label, pattern: Pattern, phi: Phi)
    requires InRange(body) && CanRewrite(body, first, second, pattern) && !pattern.Pattern3?
    requires AndToOr.Classify(body, first, second) == Some(pattern)
    requires r == AndToOr.Rewrite(body, first, second, pattern)
    requires Abandoned(body, second) != Gained(body, second)
    requires LegalPhi(body, Gained(body, second), phi)
    ensures LegalPhi(r, Gained(body, second), ExtendPhi(phi, second, first))
            <==> (Kept(body, first, pattern) == Gained(body, second) ==>
              PhiOperand(phi, first) == PhiOperand(phi, second))
  {
    var g := Gained(body, second);
    assert CountEntries(phi.incoming, second) == CountEdges(body[second].term, g);
    assert CountEntries(phi.incoming, first) == CountEdges(body[first].term, g);
    EdgesAfter(body, first, second, pattern, g);
    HasEntry(phi, second);
    HasEntry(phi, first);
    var o := PhiOperand(phi, second).value;
    var extended := phi.incoming + [Incoming(o, first)];
    ExtendedCounts(body, r, first, second, pattern, phi, o);
    ExtendedAgrees(phi.incoming, o, first);
    assert ExtendPhi(phi, second, first).incoming == extended;
    assert LegalPhi(r, g, ExtendPhi(phi, second, first)) <==> Agree(extended);
    if PhiOperand(phi, first).Some? {
      AllValuesFor(phi, first, o);
    } else {
      CountIsPresence(phi.incoming, first);
    }
  }

  lemma DoublyExtendedIsIllegal(body: Body, r: Body, first: Label, second: Label, pattern: Pattern, phi: Phi)
    requires InRange(body) && CanRewrite(body, first, second, pattern) && !pattern.Pattern3?
    requires AndToOr.Classify(body, first, second) == Some(pattern)
    requires r == AndToOr.Rewrite(body, first, second, pattern)
    requires Abandoned(body, second) == Gained(body, second)
    requires LegalPhi(body, Gained(body, second), phi)
    ensures !LegalPhi(r, Gained(body, second), ExtendPhi(ExtendPhi(phi, second, first), second, first))
  {
    var g := Gained(body, second);
    RewriteShape(body, first, second, pattern);
    EdgesAfter(body, first, second, pattern, g);
    HasEntry(phi, second);
    var once := ExtendPhi(phi, second, first);
    AppendCounts(phi.incoming, once.incoming[|phi.incoming|], first);
    AppendCounts(phi.incoming, once.incoming[|phi.incoming|], second);
    HasEntry(once, second);
    var twice := ExtendPhi(once, second, first);
    AppendCounts(once.incoming, twice.incoming[|once.incoming|], first);
  }

  /**
   Patterns 1 and 2 turn legal phis into legal phis exactly when the block that the first
   branch stops jumping to has none, and a block it already jumped to gets no second value.
   */
  lemma LegalAfterAndToOr(body: Body, first: Label)
    requires Legal(body) && InRange(body) && first < |body|
    requires AndToOr.Find(body, first).Found? && !AndToOr.Find(body, first).pattern.Pattern3?
    ensures AndToOr.CanMutate(body, first)
    ensures var found := AndToOr.Find(body, first);
            IsConditional(body, first) && IsConditional(body, found.second) &&
            var a, g := Abandoned(body, found.second), Gained(body, found.second);
            && a < |body| && g < |body|
            && (Legal(AndToOr.Mutate(body, first)) <==>
                  && body[a].phis == []
                  && (Kept(body, first, found.pattern) == g ==> EntriesAgree(body[g], first, found.second)))
  {
    FoundFacts(body, first);
    var Found(pattern, second) := AndToOr.Find(body, first);
    var a, g := Abandoned(body, second), Gained(body, second);
    var kept := Kept(body, first, pattern);
    var r := AndToOr.Mutate(body, first);
    assert body[second] in body && a in Successors(body[second].term) && g in Successors(body[second].term);
    RewriteShape(body, first, second, pattern);
    if Legal(r) {
      AbandonedHasNoPhis(body, first, second, pattern);
      if kept == g && body[a].phis == [] {
        forall i | 0 <= i < |body[g].phis|
          ensures PhiOperand(body[g].phis[i], first) == PhiOperand(body[g].phis[i], second)
        {
          assert a != g;
          assert LegalBlock(body, g) && LegalBlock(r, g);
          assert r[g].phis[i] == ExtendPhi(body[g].phis[i], second, first);
          assert LegalPhi(body, g, body[g].phis[i]) && LegalPhi(r, g, r[g].phis[i]);
          ExtendedIsLegal(body, r, first, second, pattern, body[g].phis[i]);
        }
      }
    }
    if body[a].phis == [] && (kept == g ==> EntriesAgree(body[g], first, second)) {
      forall l: Label | l < |body| ensures LegalBlock(r, l) {
        assert LegalBlock(body, l);
        forall i | 0 <= i < |r[l].phis| ensures LegalPhi(r, l, r[l].phis[i]) {
          if l == g && a != g {
            assert r[l].phis[i] == ExtendPhi(body[g].phis[i], second, first);
            ExtendedIsLegal(body, r, first, second, pattern, body[g].phis[i]);
          } else if l != g {
            EdgesAfter(body, first, second, pattern, l);
            assert LegalPhi(body, l, body[l].phis[i]);
          }
        }
      }
    }
  }

  lemma AbandonedHasNoPhis(body: Body, first: Label, second: Label, pattern: Pattern)
    requires Legal(body) && InRange(body)
    requires CanRewrite(body, first, second, pattern) && !pattern.Pattern3?
    requires AndToOr.Classify(body, first, second) == Some(pattern)
    requires Legal(AndToOr.Rewrite(body, first, second, pattern))
    ensures Abandoned(body, second) < |body| && body[Abandoned(body, second)].phis == []
  {
    var a, g := Abandoned(body, second), Gained(body, second);
    var r := AndToOr.Rewrite(body, first, second, pattern);
    assert body[second] in body && a in Successors(body[second].term);
    RewriteShape(body, first, second, pattern);
    EdgesAfter(body, first, second, pattern, a);
    if body[a].phis != [] {
      assert LegalBlock(body, a) && LegalBlock(r, a);
      assert LegalPhi(body, a, body[a].phis[0]) && LegalPhi(r, a, r[a].phis[0]);
      if a == g {
        DoublyExtendedIsIllegal(body, r, first, second, pattern, body[a].phis[0]);
      }
    }
  }

  /** Every phi has an entry for every predecessor of its block. */
  ghost predicate CompletePhi(body: Body, l: Label, phi: Phi) {
    forall p: Label | p < |body| && CountEdges(body[p].term, l) > 0 :: PhiOperand(phi, p).Some?
  }

  ghost predicate Complete(body: Body) {
    forall l: Label | l < |body| :: forall i | 0 <= i < |body[l].phis| :: CompletePhi(body, l, body[l].phis[i])
  }

  lemma ExtendKeepsEntries(phi: Phi, second: Label, first: Label, p: Label)
    ensures var e := ExtendPhi(phi, second, first);
            && (PhiOperand(phi, p).Some? ==> PhiOperand(e, p) == PhiOperand(phi, p))
            && (PhiOperand(phi, second).Some? ==> PhiOperand(e, first).Some?)
            && (PhiOperand(phi, second).Some? && PhiOperand(phi, first).None? ==>
              PhiOperand(e, first) == PhiOperand(phi, second))
  {
    if PhiOperand(phi, second).Some? {
      var o := PhiOperand(phi, second).value;
      AppendEntry(phi.incoming, Incoming(o, first), p);
      AppendEntry(phi.incoming, Incoming(o, first), first);
    }
  }

  lemma {:induction false} AppendEntry(incoming: seq<Incoming>, e: Incoming, p: Label)
    ensures EntryFor(incoming + [e], p)
         == if EntryFor(incoming, p).Some? then EntryFor(incoming, p)
            else if e.block == p then Some(|incoming|) else None
    ensures EntryFor(incoming, p).Some? ==> EntryFor(incoming, p).value < |incoming|
  {
    if incoming == [] {
      assert (incoming + [e])[1..] == [];
    } else {
      assert (incoming + [e])[1..] == incoming[1..] + [e];
      AppendEntry(incoming[1..], e, p);
    }
  }

  /** No predecessor is ever left without an entry, whatever the graph. */
  lemma CompleteAfterAndToOr(body: Body, first: Label)
    requires Complete(body) && InRange(body) && first < |body|
    requires AndToOr.Find(body, first).Found? && !AndToOr.Find(body, first).pattern.Pattern3?
    ensures AndToOr.CanMutate(body, first) && Complete(AndToOr.Mutate(body, first))
  {
    FoundFacts(body, first);
    var Found(pattern, second) := AndToOr.Find(body, first);
    var a, g := Abandoned(body, second), Gained(body, second);
    var r := AndToOr.Mutate(body, first);
    RewriteShape(body, first, second, pattern);
    forall l: Label, i | l < |body| && 0 <= i < |r[l].phis|
      ensures CompletePhi(r, l, r[l].phis[i])
    {
      var phi := body[l].phis[i];
      assert CompletePhi(body, l, phi);
      EdgesAfter(body, first, second, pattern, l);
      if l == g {
        assert CountEdges(body[second].term, g) > 0;
        ExtendedIsComplete(body, r, g, phi, second, first);
      }
    }
  }

  lemma ExtendedIsComplete(body: Body, r: Body, l: Label, phi: Phi, second: Label, first: Label)
    requires |r| == |body| && CompletePhi(body, l, phi)
    requires second < |body| && CountEdges(body[second].term, l) > 0
    requires forall p: Label | p < |body| && p != first :: r[p].term == body[p].term
    ensures CompletePhi(r, l, ExtendPhi(phi, second, first))
    ensures CompletePhi(r, l, ExtendPhi(ExtendPhi(phi, second, first), second, first))
  {
    var once := ExtendPhi(phi, second, first);
    forall p: Label | p < |r| && CountEdges(r[p].term, l) > 0
      ensures PhiOperand(once, p).Some? && PhiOperand(ExtendPhi(once, second, first), p).Some?
    {
      ExtendKeepsEntries(phi, second, first, p);
      ExtendKeepsEntries(once, second, first, p);
    }
  }

  /** Pattern 3 negates one value, so the phi stays legal exactly when its block has no second entry. */
  lemma LegalAfterPattern3(body: Body, first: Label, second: Label)
    requires Legal(body) && CanRewrite(body, first, second, Pattern3)
    ensures var incoming := body[second].phis[0].incoming;
            Legal(AndToOr.Rewrite(body, first, second, Pattern3)) <==> CountEntries(incoming, incoming[0].block) == 1
    ensures OrToAnd.Rewrite(body, first, second, Pattern3) == AndToOr.Rewrite(body, first, second, Pattern3)
  {
    var r := AndToOr.Rewrite(body, first, second, Pattern3);
    var phi := body[second].phis[0];
    var incoming, negated := phi.incoming, NegatePhi(phi).incoming;
    assert r[second].phis == body[second].phis[0 := NegatePhi(phi)];
    forall p: Label, l: Label | p < |body| ensures CountEdges(r[p].term, l) == CountEdges(body[p].term, l) {}
    forall p: Label ensures CountEntries(negated, p) == CountEntries(incoming, p) {
      SameBlocksSameCounts(incoming, negated, p);
    }
    assert LegalBlock(body, second) && LegalPhi(body, second, phi);
    FirstIsOnly(incoming);
    if CountEntries(incoming, incoming[0].block) == 1 {
      forall l: Label | l < |body| ensures LegalBlock(r, l) {
        assert LegalBlock(body, l);
        forall i | 0 <= i < |r[l].phis| ensures LegalPhi(r, l, r[l].phis[i]) {
          assert LegalPhi(body, l, body[l].phis[i]);
          if l == second && i == 0 {
            assert forall e | e in negated :: e.block < |r|;
            assert Agree(negated);
          }
        }
      }
    } else {
      var j :| 0 < j < |incoming| && incoming[j].block == incoming[0].block;
      assert negated[j] == incoming[j] && negated[0].value != negated[j].value;
      assert r[second].phis[0] == NegatePhi(phi);
      assert !Agree(negated);
      assert !LegalPhi(r, second, r[second].phis[0]);
      assert !LegalBlock(r, second);
    }
  }

  lemma {:induction false} SameBlocksSameCounts(a: seq<Incoming>, b: seq<Incoming>, p: Label)
    requires |a| == |b| && forall i | 0 <= i < |a| :: a[i].block == b[i].block
    ensures CountEntries(a, p) == CountEntries(b, p)
  {
    if a != [] {
      SameBlocksSameCounts(a[..|a| - 1], b[..|b| - 1], p);
    }
  }

  lemma {:induction false} FirstIsOnly(incoming: seq<Incoming>)
    requires incoming != []
    ensures CountEntries(incoming, incoming[0].block) >= 1
    ensures CountEntries(incoming, incoming[0].block) == 1
            <==> forall j | 0 < j < |incoming| :: incoming[j].block != incoming[0].block
  {
    var n := |incoming| - 1;
    if n > 0 {
      FirstIsOnly(incoming[..n]);
      assert incoming[..n][0] == incoming[0];
      assert forall j | 0 < j < n :: incoming[..n][j] == incoming[j];
    }
  }

  lemma DualLegal(body: Body)
    ensures Legal(Dual(body)) <==> Legal(body)
  {
    var d := Dual(body);
    assert forall l: Label | l < |body| :: d[l].phis == body[l].phis;
    forall p: Label, l: Label | p < |body| ensures CountEdges(d[p].term, l) == CountEdges(body[p].term, l) {}
    forall l: Label, phi | l < |body| ensures LegalPhi(d, l, phi) <==> LegalPhi(body, l, phi) {}
    forall l: Label | l < |body| ensures LegalBlock(d, l) <==> LegalBlock(body, l) {}
  }

  /** The same for OrToAnd, whose abandoned block is the true target of its second branch. */
  lemma LegalAfterOrToAnd(body: Body, first: Label)
    requires Legal(body) && InRange(body) && first < |body|
    requires OrToAnd.Find(body, first).Found? && !OrToAnd.Find(body, first).pattern.Pattern3?
    ensures OrToAnd.CanMutate(body, first)
    ensures var found := OrToAnd.Find(body, first);
            IsConditional(body, first) && IsConditional(body, found.second) &&
            var a, g := body[found.second].term.ifTrue, body[found.second].term.ifFalse;
            var kept := if found.pattern == Pattern1 then body[first].term.ifFalse else body[first].term.ifTrue;
            && a < |body| && g < |body|
            && (Legal(OrToAnd.Mutate(body, first)) <==>
                  body[a].phis == [] && (kept == g ==> EntriesAgree(body[g], first, found.second)))
  {
    var d := Dual(body);
    DualLegal(body);
    FindDual(body, first);
    DualInRange(body);
    FoundFacts(d, first);
    MutateDual(body, first);
    LegalAfterAndToOr(d, first);
    DualLegal(AndToOr.Mutate(d, first));
    assert forall l: Label | l < |body| :: d[l] == DualBlock(body[l]);
  }

  lemma DualComplete(body: Body)
    ensures Complete(Dual(body)) <==> Complete(body)
  {
    var d := Dual(body);
    assert forall l: Label | l < |body| :: d[l].phis == body[l].phis;
    forall p: Label, l: Label | p < |body| ensures CountEdges(d[p].term, l) == CountEdges(body[p].term, l) {}
    forall l: Label, phi | l < |body| ensures CompletePhi(d, l, phi) <==> CompletePhi(body, l, phi) {}
  }

  lemma CompleteAfterOrToAnd(body: Body, first: Label)
    requires Complete(body) && InRange(body) && first < |body|
    requires OrToAnd.Find(body, first).Found? && !OrToAnd.Find(body, first).pattern.Pattern3?
    ensures OrToAnd.CanMutate(body, first) && Complete(OrToAnd.Mutate(body, first))
  {
    DualComplete(body);
    DualInRange(body);
    FindDual(body, first);
    MutateDual(body, first);
    CompleteAfterAndToOr(Dual(body), first);
    DualComplete(AndToOr.Mutate(Dual(body), first));
  }

  lemma DualInRange(body: Body)
    requires InRange(body)
    ensures InRange(Dual(body))
  {
    var d := Dual(body);
    forall b, l | b in d && l in Successors(b.term) ensures l < |d| {
      var i :| 0 <= i < |d| && d[i] == b;
      assert body[i] in body && l in Successors(body[i].term);
    }
  }
}
