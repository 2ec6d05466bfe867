/** The two logical mutators are the same program seen through exchanged branch targets. */
module Duality {
  import opened IR
  import opened Rewriting
  import AndToOr
  import OrToAnd

  function DualTerm(t: Terminator): Terminator {
    match t
    case CondBr(cond, ifFalse, ifTrue) => CondBr(cond, ifTrue, ifFalse)
    case _ => t
  }

  function DualBlock(b: Block): Block {
    b.(term := DualTerm(b.term))
  }

  /** Exchanges the two targets of every conditional branch. */
  function Dual(body: Body): Body {
    seq(|body|, i requires 0 <= i < |body| => DualBlock(body[i]))
  }

  lemma DualTwice(body: Body)
    ensures Dual(Dual(body)) == body
  {}

  lemma ClassifyDual(body: Body, first: Label, c: Label)
    requires IsConditional(body, first) && c < |body|
    ensures IsConditional(Dual(body), first)
    ensures OrToAnd.Classify(body, first, c) == AndToOr.Classify(Dual(body), first, c)
    ensures Dual(body)[c] == DualBlock(body[c])
  {
    assert Dual(body)[first] == DualBlock(body[first]);
  }

  lemma {:induction false} ScanDual(body: Body, first: Label, c: Label)
    requires IsConditional(body, first) && c <= |body|
    ensures OrToAnd.Scan(body, first, c) == AndToOr.Scan(Dual(body), first, c)
    decreases |body| - c
  {
    if c < |body| {
      ClassifyDual(body, first, c);
      if OrToAnd.Classify(body, first, c).None? {
        ScanDual(body, first, c + 1);
      }
    }
  }

  /** Same answer, same pattern number, same second branch. */
  lemma FindDual(body: Body, first: Label)
    requires first < |body|
    ensures OrToAnd.Find(body, first) == AndToOr.Find(Dual(body), first)
  {
    assert Dual(body)[first] == DualBlock(body[first]);
    if IsConditional(body, first) {
      ScanDual(body, first, first + 1);
    }
  }

  lemma ExtendBlockDual(body: Body, target: Label, second: Label, first: Label)
    ensures Dual(ExtendBlock(body, target, second, first)) == ExtendBlock(Dual(body), target, second, first)
  {}

  /** The patching loop meets two successors; their order does not matter. */
  lemma ExtendPair(body: Body, l0: Label, l1: Label, target: Label, second: Label, first: Label)
    ensures var once := ExtendBlock(body, target, second, first);
            ExtendTargets(body, [l0, l1], target, second, first)
            == if l0 == target && l1 == target then ExtendBlock(once, target, second, first)
               else if l0 == target || l1 == target then once
               else body
  {
    assert [l0, l1][..1] == [l0];
    assert [l0][..0] == [];
    assert ExtendTargets(body, [l0], target, second, first)
        == if l0 == target then ExtendBlock(body, target, second, first) else body;
  }

  lemma RewriteDual(body: Body, first: Label, second: Label, pattern: Pattern)
    requires CanRewrite(body, first, second, pattern)
    ensures CanRewrite(Dual(body), first, second, pattern)
    ensures OrToAnd.Rewrite(body, first, second, pattern) == Dual(AndToOr.Rewrite(Dual(body), first, second, pattern))
  {
    var d := Dual(body);
    assert d[first] == DualBlock(body[first]) && d[second] == DualBlock(body[second]);
    if pattern.Pattern3? {
      assert Dual(NegateConstant(d, second)) == NegateConstant(body, second);
      var t := d[first].term;
      assert Dual(Exchange(d, first, second)) == Exchange(body, first, second);
    } else {
      var target := body[second].term.ifFalse;
      var r := AndToOr.Replacement(d, first, second, pattern);
      assert OrToAnd.Replacement(body, first, second, pattern) == DualTerm(r);
      var e := SetTerm(d, first, r);
      var e' := SetTerm(body, first, DualTerm(r));
      assert Dual(e) == e';
      var s := body[second].term;
      ExtendPair(e, s.ifFalse, s.ifTrue, target, second, first);
      ExtendPair(e', s.ifTrue, s.ifFalse, target, second, first);
      ExtendBlockDual(e, target, second, first);
      ExtendBlockDual(ExtendBlock(e, target, second, first), target, second, first);
    }
  }

  /** OrToAnd is AndToOr conjugated by the exchange of targets, on every control-flow graph. */
  lemma MutateDual(body: Body, first: Label)
    requires first < |body|
    ensures OrToAnd.CanMutate(body, first) <==> AndToOr.CanMutate(Dual(body), first)
    ensures OrToAnd.CanMutate(body, first) ==>
              OrToAnd.Mutate(body, first) == Dual(AndToOr.Mutate(Dual(body), first))
  {
    FindDual(body, first);
    DualTwice(body);
    assert Dual(body)[first] == DualBlock(body[first]);
    var found := OrToAnd.Find(body, first);
    if found.Found? {
      if found.second < |body| {
        assert Dual(body)[found.second] == DualBlock(body[found.second]);
      }
      if OrToAnd.CanMutate(body, first) {
        RewriteDual(body, first, found.second, found.pattern);
      }
    }
  }
}
