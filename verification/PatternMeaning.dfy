/** What a mutated pair of branches computes, in the interpreter. */
module PatternMeaning {
  import opened IR
  import opened Interpreter
  import opened Rewriting
  import opened Duality
  import opened PhiRules
  import AndToOr
  import OrToAnd

  // --- Entering a block from one branch or from the other.

  lemma {:induction false} SameEntry(phis: seq<Phi>, phis': seq<Phi>, from: Label, from': Label, before: Frame,
                                     fr: Frame)
    requires |phis| == |phis'|
    requires forall i | 0 <= i < |phis| ::
               phis[i].dst == phis'[i].dst && PhiOperand(phis[i], from) == PhiOperand(phis'[i], from')
    ensures EnterPhis(phis, Some(from), before, fr) == EnterPhis(phis', Some(from'), before, fr)
  {
    if phis != [] {
      var o := PhiOperand(phis[0], from);
      assert o == PhiOperand(phis'[0], from');
      if o.Some? {
        var next := fr.(regs := fr.regs[phis[0].dst := Eval(o.value, before)]);
        SameEntry(phis[1..], phis'[1..], from, from', before, next);
      }
    }
  }

  /** A phi of the block that knows `first` takes the same value from it as from `second`. */
  ghost predicate EntersAlike(block: Block, first: Label, second: Label) {
    forall i | 0 <= i < |block.phis| ::
      PhiOperand(block.phis[i], first).None? || PhiOperand(block.phis[i], first) == PhiOperand(block.phis[i], second)
  }

  /** The rule for a gained block that the first branch already led to. */
  ghost predicate GainedAgrees(body: Body, first: Label, second: Label, gained: Label) {
    && IsConditional(body, first) && gained < |body|
    && (gained in Successors(body[first].term) ==> EntriesAgree(body[gained], first, second))
  }

  lemma LegalGainedBlock(body: Body, first: Label, second: Label, gained: Label)
    requires Legal(body) && GainedAgrees(body, first, second, gained)
    ensures EntersAlike(body[gained], first, second)
  {
    assert LegalBlock(body, gained);
    var ss := Successors(body[first].term);
    if gained !in ss {
      assert ss[0] != gained && ss[1] != gained;
      forall i | 0 <= i < |body[gained].phis|
        ensures PhiOperand(body[gained].phis[i], first).None?
      {
        var phi := body[gained].phis[i];
        assert LegalPhi(body, gained, phi);
        HasEntry(phi, first);
        assert CountEntries(phi.incoming, first) == CountEdges(body[first].term, gained);
      }
    }
  }

  /** Entering the gained block from the first block is entering it from the second one. */
  lemma GainedEntry(body: Body, first: Label, second: Label, pattern: Pattern, fr: Frame)
    requires InRange(body) && CanRewrite(body, first, second, pattern) && !pattern.Pattern3?
    requires Gained(body, second) < |body| && EntersAlike(body[Gained(body, second)], first, second)
    ensures var g := Gained(body, second);
            var r := AndToOr.Rewrite(body, first, second, pattern);
            && |r| == |body|
            && EnterPhis(r[g].phis, Some(first), fr, fr) == EnterPhis(r[g].phis, Some(second), fr, fr)
            && EnterPhis(r[g].phis, Some(second), fr, fr) == EnterPhis(body[g].phis, Some(second), fr, fr)
  {
    var g := Gained(body, second);
    var r := AndToOr.Rewrite(body, first, second, pattern);
    RewriteShape(body, first, second, pattern);
    forall i | 0 <= i < |r[g].phis|
      ensures r[g].phis[i].dst == body[g].phis[i].dst
      ensures PhiOperand(r[g].phis[i], first) == PhiOperand(r[g].phis[i], second) == PhiOperand(body[g].phis[i], second)
    {
      var phi := body[g].phis[i];
      var once := ExtendPhi(phi, second, first);
      ExtendKeepsEntries(phi, second, first, first);
      ExtendKeepsEntries(phi, second, first, second);
      ExtendKeepsEntries(once, second, first, first);
      ExtendKeepsEntries(once, second, first, second);
    }
    SameEntry(r[g].phis, r[g].phis, first, second, fr, fr);
    SameEntry(r[g].phis, body[g].phis, second, second, fr, fr);
  }

  ghost predicate SameEntries(r: Body, l: Label, from: Label, from': Label) {
    l < |r| && forall fr :: EnterPhis(r[l].phis, Some(from), fr, fr) == EnterPhis(r[l].phis, Some(from'), fr, fr)
  }

  // --- Short circuits.

  /**
   Block `first` decides by `cond` alone, if it is true or if it is false as `onTrue` says: control then
   goes to `gained` as it would from `second`. Otherwise it goes on to `kept`.
   */
  function ShortCircuit(m: Machine, p: seq<Function>, depth: nat, budget: nat, left: nat, r: Body, first: Label,
                        cond: Operand, onTrue: bool, gained: Label, second: Label, kept: Label,
                        from: Option<Label>, fr: Frame, w: World): Outcome
    requires first < |r| && left > 0
  {
    match Arrive(m, p, depth, budget, r[first], from, fr, w)
    case Halted(o) => o
    case Running(fr', w') =>
      var v := Eval(cond, fr');
      if !v.Int? then Crashed
      else if (v.n != 0) == onTrue then RunBlock(m, p, depth, budget, left - 1, r, gained, Some(second), fr', w')
      else RunBlock(m, p, depth, budget, left - 1, r, kept, Some(first), fr', w')
  }

  lemma SameArrivalSameRun(m: Machine, p: seq<Function>, depth: nat, budget: nat, left: nat, r: Body, l: Label,
                           from: Label, from': Label, fr: Frame, w: World)
    requires SameEntries(r, l, from, from')
    ensures RunBlock(m, p, depth, budget, left, r, l, Some(from), fr, w)
         == RunBlock(m, p, depth, budget, left, r, l, Some(from'), fr, w)
  {
    assert Arrive(m, p, depth, budget, r[l], Some(from), fr, w)
      == Arrive(m, p, depth, budget, r[l], Some(from'), fr, w);
  }

  lemma RunsAsShortCircuit(m: Machine, p: seq<Function>, depth: nat, budget: nat, left: nat, r: Body, first: Label,
                           cond: Operand, onTrue: bool, gained: Label, second: Label, kept: Label,
                           from: Option<Label>, fr: Frame, w: World)
    requires first < |r| && left > 0 && SameEntries(r, gained, first, second)
    requires r[first].term == if onTrue then CondBr(cond, kept, gained) else CondBr(cond, gained, kept)
    ensures RunBlock(m, p, depth, budget, left, r, first, from, fr, w)
         == ShortCircuit(m, p, depth, budget, left, r, first, cond, onTrue, gained, second, kept, from, fr, w)
  {
    var arrived := Arrive(m, p, depth, budget, r[first], from, fr, w);
    if arrived.Running? {
      SameArrivalSameRun(m, p, depth, budget, left - 1, r, gained, first, second, arrived.frame, arrived.world);
    }
  }

  // --- Patterns 1 and 2.

  lemma GainedEntries(body: Body, first: Label)
    requires Legal(body) && InRange(body) && first < |body|
    requires AndToOr.Find(body, first).Found? && !AndToOr.Find(body, first).pattern.Pattern3?
    requires IsConditional(body, AndToOr.Find(body, first).second)
    requires var second := AndToOr.Find(body, first).second; GainedAgrees(body, first, second, Gained(body, second))
    ensures AndToOr.CanMutate(body, first)
    ensures var second := AndToOr.Find(body, first).second;
            SameEntries(AndToOr.Mutate(body, first), Gained(body, second), first, second)
  {
    FoundFacts(body, first);
    var Found(pattern, second) := AndToOr.Find(body, first);
    LegalGainedBlock(body, first, second, Gained(body, second));
    var r := AndToOr.Mutate(body, first);
    forall fr
      ensures |r| == |body|
      ensures EnterPhis(r[Gained(body, second)].phis, Some(first), fr, fr)
           == EnterPhis(r[Gained(body, second)].phis, Some(second), fr, fr)
    {
      GainedEntry(body, first, second, pattern, fr);
    }
  }

  /**
   After Patterns 1 and 2 the first block computes a short-circuit ||: if its operand holds (its
   condition is true, or false under Pattern 2), the run goes straight to the block the second operand
   leads to when it holds, with the phi values of that path; otherwise it goes on as before, to
   evaluate the second operand.
   */
  lemma RewrittenIsShortCircuitOr(m: Machine, p: seq<Function>, depth: nat, budget: nat, left: nat,
                                  body: Body, first: Label, from: Option<Label>, fr: Frame, w: World)
    requires Legal(body) && InRange(body) && first < |body| && left > 0
    requires AndToOr.Find(body, first).Found? && !AndToOr.Find(body, first).pattern.Pattern3?
    requires IsConditional(body, AndToOr.Find(body, first).second)
    requires var second := AndToOr.Find(body, first).second; GainedAgrees(body, first, second, Gained(body, second))
    ensures AndToOr.CanMutate(body, first)
    ensures var r := AndToOr.Mutate(body, first);
            var Found(pattern, second) := AndToOr.Find(body, first);
            && |r| == |body| && r[first].code == body[first].code
            && (Gained(body, second) != first ==> r[first].phis == body[first].phis)
            && RunBlock(m, p, depth, budget, left, r, first, from, fr, w)
               == ShortCircuit(m, p, depth, budget, left, r, first, body[first].term.cond, pattern == Pattern1,
                               Gained(body, second), second, Kept(body, first, pattern), from, fr, w)
  {
    FoundFacts(body, first);
    GainedEntries(body, first);
    var Found(pattern, second) := AndToOr.Find(body, first);
    RewriteShape(body, first, second, pattern);
    RunsAsShortCircuit(m, p, depth, budget, left, AndToOr.Mutate(body, first), first, body[first].term.cond,
                       pattern == Pattern1, Gained(body, second), second, Kept(body, first, pattern), from, fr, w);
  }

  /** What the exchange of targets makes of the branches and phis of a mutated body. */
  lemma DualMutant(body: Body, first: Label)
    requires InRange(body) && first < |body|
    requires OrToAnd.Find(body, first).Found? && !OrToAnd.Find(body, first).pattern.Pattern3?
    ensures OrToAnd.CanMutate(body, first) && AndToOr.CanMutate(Dual(body), first)
    ensures var second := OrToAnd.Find(body, first).second;
            IsConditional(body, second) && IsConditional(Dual(body), second)
            && Gained(Dual(body), second) == body[second].term.ifFalse
    ensures var r, d := OrToAnd.Mutate(body, first), AndToOr.Mutate(Dual(body), first);
            |r| == |d| == |body| && forall l: Label | l < |r| :: r[l] == DualBlock(d[l])
  {
    var d := Dual(body);
    FindDual(body, first);
    DualInRange(body);
    FoundFacts(d, first);
    MutateDual(body, first);
    var Found(pattern, second) := AndToOr.Find(d, first);
    assert d[second] == DualBlock(body[second]);
    RewriteShape(d, first, second, pattern);
  }

  /** The dual: after Patterns 1 and 2 of OrToAnd the first block computes a short-circuit &&. */
  lemma RewrittenIsShortCircuitAnd(m: Machine, p: seq<Function>, depth: nat, budget: nat, left: nat,
                                   body: Body, first: Label, from: Option<Label>, fr: Frame, w: World)
    requires Legal(body) && InRange(body) && first < |body| && left > 0
    requires OrToAnd.Find(body, first).Found? && !OrToAnd.Find(body, first).pattern.Pattern3?
    requires IsConditional(body, OrToAnd.Find(body, first).second)
    requires var second := OrToAnd.Find(body, first).second;
             GainedAgrees(body, first, second, body[second].term.ifFalse)
    ensures OrToAnd.CanMutate(body, first)
    ensures var r := OrToAnd.Mutate(body, first);
            var Found(pattern, second) := OrToAnd.Find(body, first);
            var kept := if pattern == Pattern1 then body[first].term.ifFalse else body[first].term.ifTrue;
            && |r| == |body| && r[first].code == body[first].code
            && RunBlock(m, p, depth, budget, left, r, first, from, fr, w)
               == ShortCircuit(m, p, depth, budget, left, r, first, body[first].term.cond, pattern == Pattern2,
                               body[second].term.ifFalse, second, kept, from, fr, w)
  {
    var d := Dual(body);
    var Found(pattern, second) := OrToAnd.Find(body, first);
    var gained := body[second].term.ifFalse;
    DualMutant(body, first);
    DualLegal(body);
    DualInRange(body);
    FindDual(body, first);
    assert d[first] == DualBlock(body[first]) && d[gained].phis == body[gained].phis;
    GainedEntries(d, first);
    FoundFacts(d, first);
    RewriteShape(d, first, second, pattern);
    var kept := if pattern == Pattern1 then body[first].term.ifFalse else body[first].term.ifTrue;
    RunsAsShortCircuit(m, p, depth, budget, left, OrToAnd.Mutate(body, first), first, body[first].term.cond,
                       pattern == Pattern2, gained, second, kept, from, fr, w);
  }

  // --- Pattern 3.

  /**
   Pattern 3 negates the value that the first block supplies exactly when the phi's first entry is the
   one of the first block. Entries of other blocks and other phis keep their values.
   */
  lemma NegatedEntry(body: Body, first: Label, second: Label, n: int)
    requires CanRewrite(body, first, second, Pattern3)
    requires PhiOperand(body[second].phis[0], first) == Some(Const(n))
    ensures var r := Exchange(body, first, second);
            && |r| == |body| && |r[second].phis| == |body[second].phis|
            && (PhiOperand(r[second].phis[0], first) == Some(Const(Negated(n)))
                <==> body[second].phis[0].incoming[0].block == first)
            && (forall x: Label | x != body[second].phis[0].incoming[0].block ::
                  PhiOperand(r[second].phis[0], x) == PhiOperand(body[second].phis[0], x))
            && (forall i | 0 < i < |body[second].phis| :: r[second].phis[i] == body[second].phis[i])
  {
    var phi := body[second].phis[0];
    var r := Exchange(body, first, second);
    assert r[second].phis[0] == NegatePhi(phi);
    forall x: Label
      ensures EntryFor(NegatePhi(phi).incoming, x) == EntryFor(phi.incoming, x)
    {
      SameBlocksSameEntry(phi.incoming, NegatePhi(phi).incoming, x);
    }
    EntryForFacts(phi.incoming, first);
    forall x: Label | x != phi.incoming[0].block
      ensures PhiOperand(NegatePhi(phi), x) == PhiOperand(phi, x)
    {
      EntryForFacts(phi.incoming, x);
    }
  }

  lemma {:induction false} SameBlocksSameEntry(a: seq<Incoming>, b: seq<Incoming>, x: Label)
    requires |a| == |b| && forall i | 0 <= i < |a| :: a[i].block == b[i].block
    ensures EntryFor(a, x) == EntryFor(b, x)
  {
    if a != [] {
      SameBlocksSameEntry(a[1..], b[1..], x);
    }
  }

  /** A phi's register survives the phis after it, if they write others. */
  lemma {:induction false} EnterKeepsRegister(phis: seq<Phi>, from: Option<Label>, before: Frame, fr: Frame, dst: Reg,
                                              v: Value)
    requires forall i | 0 <= i < |phis| :: phis[i].dst != dst
    ensures EnterPhis(phis, from, before, SetReg(fr, dst, v))
         == match EnterPhis(phis, from, before, fr)
            case None => None
            case Some(e) => Some(SetReg(e, dst, v))
  {
    if phis != [] && from.Some? && PhiOperand(phis[0], from.value).Some? {
      var u := Eval(PhiOperand(phis[0], from.value).value, before);
      EnterKeepsRegister(phis[1..], from, before, SetReg(fr, phis[0].dst, u), dst, v);
      assert SetReg(SetReg(fr, dst, v), phis[0].dst, u) == SetReg(SetReg(fr, phis[0].dst, u), dst, v);
    }
  }

  /** The join that Pattern 3 expects: the phi's operand 0 is the constant of the first block. */
  ghost predicate JoinsConstant(body: Body, first: Label, second: Label, n: int) {
    && CanRewrite(body, first, second, Pattern3)
    && body[second].phis[0].incoming[0] == Incoming(Const(n), first)
    && forall i | 0 < i < |body[second].phis| :: body[second].phis[i].dst != body[second].phis[0].dst
  }

  /** Entering the join from the first block now gives the negated constant. */
  lemma JoinFromFirst(body: Body, first: Label, second: Label, n: int, fr: Frame)
    requires JoinsConstant(body, first, second, n)
    ensures var r := Exchange(body, first, second);
            && |r| == |body|
            && EnterPhis(r[second].phis, Some(first), fr, fr)
               == match EnterPhis(body[second].phis, Some(first), fr, fr)
                  case None => None
                  case Some(e) => Some(SetReg(e, body[second].phis[0].dst, Int(Negated(n))))
  {
    var phis := body[second].phis;
    var rest := phis[1..];
    var dst := phis[0].dst;
    NegatedEntry(body, first, second, n);
    var r := Exchange(body, first, second);
    assert r[second].phis == [NegatePhi(phis[0])] + rest;
    EnterKeepsRegister(rest, Some(first), fr, fr, dst, Int(n));
    EnterKeepsRegister(rest, Some(first), fr, fr, dst, Int(Negated(n)));
    assert EnterPhis(phis, Some(first), fr, fr) == EnterPhis(rest, Some(first), fr, SetReg(fr, dst, Int(n)));
    assert r[second].phis[1..] == rest;
    assert EnterPhis(r[second].phis, Some(first), fr, fr)
        == EnterPhis(rest, Some(first), fr, SetReg(fr, dst, Int(Negated(n))));
    var entered := EnterPhis(rest, Some(first), fr, fr);
    if entered.Some? {
      assert SetReg(SetReg(entered.value, dst, Int(n)), dst, Int(Negated(n)))
        == SetReg(entered.value, dst, Int(Negated(n)));
    }
  }

  /** Entering it from anywhere else gives what it gave before. */
  lemma JoinFromOther(body: Body, first: Label, second: Label, n: int, x: Label, fr: Frame)
    requires JoinsConstant(body, first, second, n) && x != first
    ensures var r := Exchange(body, first, second);
            |r| == |body| && EnterPhis(r[second].phis, Some(x), fr, fr) == EnterPhis(body[second].phis, Some(x), fr, fr)
  {
    NegatedEntry(body, first, second, n);
    SameEntry(Exchange(body, first, second)[second].phis, body[second].phis, x, x, fr, fr);
  }

  /** How the join is entered in the mutant, against how it was entered before. */
  ghost predicate JoinNegated(body: Body, r: Body, first: Label, second: Label, n: int)
    requires second < |body| && body[second].phis != []
  {
    && |r| == |body|
    && (forall x, fr | x != first ::
          EnterPhis(r[second].phis, Some(x), fr, fr) == EnterPhis(body[second].phis, Some(x), fr, fr))
    && forall fr ::
         EnterPhis(r[second].phis, Some(first), fr, fr)
         == match EnterPhis(body[second].phis, Some(first), fr, fr)
            case None => None
            case Some(e) => Some(SetReg(e, body[second].phis[0].dst, Int(Negated(n))))
  }

  lemma ExchangeNegatesJoin(body: Body, first: Label, second: Label, n: int)
    requires JoinsConstant(body, first, second, n)
    ensures JoinNegated(body, Exchange(body, first, second), first, second, n)
  {
    var r := Exchange(body, first, second);
    forall x, fr | x != first
      ensures EnterPhis(r[second].phis, Some(x), fr, fr) == EnterPhis(body[second].phis, Some(x), fr, fr)
    {
      JoinFromOther(body, first, second, n, x, fr);
    }
    forall fr
      ensures EnterPhis(r[second].phis, Some(first), fr, fr)
           == match EnterPhis(body[second].phis, Some(first), fr, fr)
              case None => None
              case Some(e) => Some(SetReg(e, body[second].phis[0].dst, Int(Negated(n))))
    {
      JoinFromFirst(body, first, second, n, fr);
    }
  }

  /**
   Pattern 3 turns "first operand ? second operand : false" into "first operand ? true : second
   operand": if the first operand holds, the run goes straight to the join, whose phi is then true,
   otherwise it evaluates the second operand, whose value the phi takes as before.
   */
  lemma Pattern3IsShortCircuitOr(m: Machine, p: seq<Function>, depth: nat, budget: nat, left: nat,
                                 body: Body, first: Label, second: Label, from: Option<Label>, fr: Frame, w: World)
    requires first < |body| && AndToOr.Find(body, first) == Found(Pattern3, second) && left > 0
    requires JoinsConstant(body, first, second, 0)
    ensures AndToOr.CanMutate(body, first)
    ensures var r := AndToOr.Mutate(body, first);
            && JoinNegated(body, r, first, second, 0)
            && RunBlock(m, p, depth, budget, left, r, first, from, fr, w)
               == ShortCircuit(m, p, depth, budget, left, r, first, body[first].term.cond, true,
                               second, first, body[first].term.ifTrue, from, fr, w)
  {
    FoundFacts(body, first);
    ExchangeNegatesJoin(body, first, second, 0);
    RunsAsShortCircuit(m, p, depth, budget, left, AndToOr.Mutate(body, first), first, body[first].term.cond, true,
                       second, first, body[first].term.ifTrue, from, fr, w);
  }

  /** The dual: "first operand ? true : second operand" becomes "first operand ? second operand : false". */
  lemma Pattern3IsShortCircuitAnd(m: Machine, p: seq<Function>, depth: nat, budget: nat, left: nat,
                                  body: Body, first: Label, second: Label, n: int, from: Option<Label>, fr: Frame,
                                    w: World)
    requires first < |body| && OrToAnd.Find(body, first) == Found(Pattern3, second) && left > 0
    requires JoinsConstant(body, first, second, n) && n != 0
    ensures OrToAnd.CanMutate(body, first) && Negated(n) == 0
    ensures var r := OrToAnd.Mutate(body, first);
            && JoinNegated(body, r, first, second, n)
            && RunBlock(m, p, depth, budget, left, r, first, from, fr, w)
               == ShortCircuit(m, p, depth, budget, left, r, first, body[first].term.cond, false,
                               second, first, body[first].term.ifFalse, from, fr, w)
  {
    FindDual(body, first);
    FoundFacts(Dual(body), first);
    assert Dual(body)[first] == DualBlock(body[first]) && Dual(body)[second] == DualBlock(body[second]);
    ExchangeNegatesJoin(body, first, second, n);
    RunsAsShortCircuit(m, p, depth, budget, left, OrToAnd.Mutate(body, first), first, body[first].term.cond, false,
                       second, first, body[first].term.ifFalse, from, fr, w);
  }
}
