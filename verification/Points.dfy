/** Mutation points: a mutator, the place it mutates, and the identifier that switches it on. */
module Points {
  import opened IR
  import opened Interpreter
  import opened Modules
  import opened Rewriting
  import opened Text
  import AndToOr
  import OrToAnd

  /** A trivial mutator rewrites one instruction; what it rewrites it to is its own business. */
  datatype Mutator =
    | Trivial(id: string, rewrite: Instr -> Instr)
    | LogicalAndToOr
    | LogicalOrToAnd
  {
    function Identifier(): string {
      match this
      case Trivial(id, _) => id
      case LogicalAndToOr => "cxx_logical_and_to_or"
      case LogicalOrToAnd => "cxx_logical_or_to_and"
    }
  }

  /** Positions of the block in the function and of the instruction in the block. */
  datatype Address = Address(block: Label, index: nat)

  datatype Point = Point(
    mutator: Mutator,
    owner: FnId,
    address: Address,
    file: string,
    line: int,
    column: int,
    endLine: int,
    endColumn: int,
    covered: bool,
    userIdentifier: string)
  {
    /** The constructor computes the identifier from the other fields. */
    predicate Named() {
      userIdentifier == Identifier(mutator.Identifier(), file, line, column)
    }

    /** mutator:file:line:column:end line:end column:covered */
    function Encoding(): string {
      userIdentifier + ":" + ToString(endLine) + ":" + ToString(endColumn) + ":" + ToString(if covered then 1 else 0)
    }

    /** What recordMutation adds to the section: the encoding and a NUL. */
    function Record(): string {
      Encoding() + ['\0']
    }
  }

  function Identifier(mutator: string, file: string, line: int, column: int): string {
    mutator + ":" + file + ":" + ToString(line) + ":" + ToString(column)
  }

  /** The two logical mutators go by their documented names. */
  lemma LogicalIdentifiers()
    ensures LogicalAndToOr.Identifier() == "cxx_logical_and_to_or"
    ensures LogicalOrToAnd.Identifier() == "cxx_logical_or_to_and"
    ensures LogicalAndToOr.Identifier() != LogicalOrToAnd.Identifier()
  {
    assert LogicalAndToOr.Identifier()[12] == 'a' && LogicalOrToAnd.Identifier()[12] == 'o';
  }

  function InstructionCount(b: Block): nat {
    |b.phis| + |b.code| + 1
  }

  /** The address of an instruction of the body, phis and terminators included. */
  predicate Names(body: Body, a: Address) {
    a.block < |body| && a.index < InstructionCount(body[a.block])
  }

  /** What is found at an address. */
  datatype Content = PhiNode(phi: Phi) | Plain(instr: Instr) | Last(term: Terminator)

  /** The instructions of a block in their order. */
  function Contents(b: Block): (r: seq<Content>)
    ensures |r| == InstructionCount(b)
  {
    var phis := seq(|b.phis|, i requires 0 <= i < |b.phis| => PhiNode(b.phis[i]));
    var code := seq(|b.code|, i requires 0 <= i < |b.code| => Plain(b.code[i]));
    phis + code + [Last(b.term)]
  }

  function ContentAt(body: Body, a: Address): Content
    requires Names(body, a)
  {
    Contents(body[a.block])[a.index]
  }

  lemma SameContentsSameBlock(b: Block, c: Block)
    requires Contents(b) == Contents(c)
    ensures b == c
  {
    var s, t := Contents(b), Contents(c);
    assert forall i | 0 <= i < |s| :: (s[i].PhiNode? <==> i < |b.phis|) && (t[i].PhiNode? <==> i < |c.phis|);
    assert !s[|b.phis|].PhiNode? && !t[|c.phis|].PhiNode?;
    forall i | 0 <= i < |b.phis| ensures b.phis[i] == c.phis[i] {
      assert s[i] == PhiNode(b.phis[i]) && t[i] == PhiNode(c.phis[i]);
    }
    forall i | 0 <= i < |b.code| ensures b.code[i] == c.code[i] {
      assert s[|b.phis| + i] == Plain(b.code[i]) && t[|b.phis| + i] == Plain(c.code[i]);
    }
    assert s[|s| - 1] == Last(b.term) && t[|s| - 1] == Last(c.term);
  }

  /** A body is determined by what is found at its addresses. */
  lemma SameContentsSameBody(body: Body, r: Body)
    requires forall x :: Names(r, x) <==> Names(body, x)
    requires forall x | Names(body, x) :: ContentAt(r, x) == ContentAt(body, x)
    ensures r == body
  {
    assert !Names(body, Address(|body|, 0)) && !Names(r, Address(|r|, 0));
    forall b: Label | b < |body| ensures r[b] == body[b] {
      var n, k := InstructionCount(body[b]), InstructionCount(r[b]);
      assert !Names(body, Address(b, n)) && !Names(r, Address(b, k));
      forall i | 0 <= i < n ensures Contents(r[b])[i] == Contents(body[b])[i] {
        assert Names(body, Address(b, i));
        assert ContentAt(r, Address(b, i)) == ContentAt(body, Address(b, i));
      }
      SameContentsSameBlock(r[b], body[b]);
    }
  }

  /**
   Where `a` names an instruction that is neither a phi nor a terminator, it is rewritten; at every
   other address there is what there was.
   */
  ghost predicate RewritesAt(body: Body, r: Body, a: Address, rewrite: Instr -> Instr) {
    && (forall x :: Names(r, x) <==> Names(body, x))
    && forall x | Names(body, x) ::
         ContentAt(r, x)
         == if x == a && ContentAt(body, x).Plain? then Plain(rewrite(ContentAt(body, x).instr)) else ContentAt(body, x)
  }

  /** What the mutators assert about the instruction they are given. */
  predicate CanApply(m: Mutator, body: Body, a: Address) {
    && Names(body, a)
    && (m.LogicalAndToOr? ==> a.index == InstructionCount(body[a.block]) - 1 && AndToOr.CanMutate(body, a.block))
    && (m.LogicalOrToAnd? ==> a.index == InstructionCount(body[a.block]) - 1 && OrToAnd.CanMutate(body, a.block))
  }

  function Apply(m: Mutator, body: Body, a: Address): Body
    requires CanApply(m, body, a)
  {
    match m
    case LogicalAndToOr => AndToOr.Mutate(body, a.block)
    case LogicalOrToAnd => OrToAnd.Mutate(body, a.block)
    case Trivial(_, rewrite) =>
      var b := body[a.block];
      if |b.phis| <= a.index < |b.phis| + |b.code| then
        var k := a.index - |b.phis|;
        body[a.block := b.(code := b.code[k := rewrite(b.code[k])])]
      else body
  }

  /** The mutant of a body at a point; where the mutator's assertions fail there is none, and the body stays. */
  function Mutant(p: Point, body: Body): Body {
    if CanApply(p.mutator, body, p.address) then Apply(p.mutator, body, p.address) else body
  }

  lemma RewriteIsLocal(m: Mutator, body: Body, a: Address)
    requires m.Trivial? && CanApply(m, body, a)
    ensures RewritesAt(body, Apply(m, body, a), a, m.rewrite)
  {
    var r := Apply(m, body, a);
    forall x | Names(body, x)
      ensures Names(r, x)
      ensures ContentAt(r, x)
           == if x == a && ContentAt(body, x).Plain? then Plain(m.rewrite(ContentAt(body, x).instr))
              else ContentAt(body, x)
    {
      assert r[x.block] == if x.block == a.block then r[a.block] else body[x.block];
    }
  }

  /** The mutant of a trivial point is the only body that differs as described from the one it is made from. */
  lemma TrivialMutant(p: Point, body: Body, r: Body)
    requires p.mutator.Trivial?
    ensures r == Mutant(p, body) <==> RewritesAt(body, r, p.address, p.mutator.rewrite)
  {
    var mutant := Mutant(p, body);
    if CanApply(p.mutator, body, p.address) {
      RewriteIsLocal(p.mutator, body, p.address);
    }
    if RewritesAt(body, r, p.address, p.mutator.rewrite) {
      forall x ensures Names(r, x) <==> Names(mutant, x) {
        assert Names(r, x) <==> Names(body, x);
      }
      SameContentsSameBody(mutant, r);
    }
  }

  method ApplyMutator(mod: Module, f: FnId, m: Mutator, a: Address)
    requires f < |mod.functions| && InRange(mod.functions[f].body) && CanApply(m, mod.functions[f].body, a)
    modifies mod
    ensures mod.functions == old(mod.functions)[f :=
            old(mod.functions)[f].(body := Apply(m, old(mod.functions)[f].body, a))]
    ensures m.Trivial? ==> RewritesAt(old(mod.functions)[f].body, mod.functions[f].body, a, m.rewrite)
  {
    if m.Trivial? {
      RewriteIsLocal(m, mod.functions[f].body, a);
    }
    match m {
      case LogicalAndToOr => AndToOr.ApplyMutation(mod, f, a.block);
      case LogicalOrToAnd => OrToAnd.ApplyMutation(mod, f, a.block);
      case Trivial(_, _) => mod.SetBody(f, Apply(m, mod.functions[f].body, a));
    }
  }

  /** A mutator that introduces no reference to a function the module does not have. */
  ghost predicate SafeMutator(n: nat, m: Mutator) {
    m.Trivial? ==> forall i :: SafeInstr(n, i) ==> SafeInstr(n, m.rewrite(i))
  }

  lemma SafeAfterExtend(n: nat, body: Body, target: Label, second: Label, first: Label)
    requires SafeBody(n, body)
    ensures SafeBody(n, ExtendBlock(body, target, second, first))
  {
    if target < |body| {
      assert SafeBlock(n, body[target]);
      var phis := ExtendPhis(body[target].phis, second, first);
      forall phi | phi in phis ensures SafePhi(n, phi) {
        var i :| 0 <= i < |phis| && phis[i] == phi;
        assert SafePhi(n, body[target].phis[i]);
        EntryForFacts(body[target].phis[i].incoming, second);
      }
    }
  }

  lemma {:induction false} SafeAfterExtends(n: nat, body: Body, successors: seq<Label>, target: Label, second: Label,
                                            first: Label)
    requires SafeBody(n, body)
    ensures SafeBody(n, ExtendTargets(body, successors, target, second, first))
  {
    if successors != [] {
      var k := |successors| - 1;
      SafeAfterExtends(n, body, successors[..k], target, second, first);
      SafeAfterExtend(n, ExtendTargets(body, successors[..k], target, second, first), target, second, first);
    }
  }

  lemma SafeAfterExchange(n: nat, body: Body, first: Label, second: Label)
    requires SafeBody(n, body) && IsConditional(body, first) && second < |body| && HasConstant(body[second])
    ensures SafeBody(n, Exchange(body, first, second))
  {
    var b := body[second];
    assert SafeBlock(n, b) && SafePhi(n, b.phis[0]) && SafeBlock(n, body[first]);
    var negated := NegatePhi(b.phis[0]);
    assert SafePhi(n, negated);
    assert SafeBlock(n, b.(phis := b.phis[0 := negated]));
    assert SafeBody(n, NegateConstant(body, second));
    var t := body[first].term;
  }

  /** Mutants mention no more functions than the body they are made from. */
  lemma SafeAfterApply(n: nat, m: Mutator, body: Body, a: Address)
    requires SafeBody(n, body) && CanApply(m, body, a) && SafeMutator(n, m)
    ensures SafeBody(n, Apply(m, body, a))
  {
    var b := body[a.block];
    assert SafeBlock(n, b);
    match m
    case LogicalAndToOr =>
      var found := AndToOr.Find(body, a.block);
      if found.Found? {
        if found.pattern.Pattern3? {
          SafeAfterExchange(n, body, a.block, found.second);
        } else {
          var r := AndToOr.Replacement(body, a.block, found.second, found.pattern);
          var e := SetTerm(body, a.block, r);
          var target := body[found.second].term.ifTrue;
          SafeAfterExtends(n, e, Successors(e[found.second].term), target, found.second, a.block);
        }
      }
    case LogicalOrToAnd =>
      var found := OrToAnd.Find(body, a.block);
      if found.Found? {
        if found.pattern.Pattern3? {
          SafeAfterExchange(n, body, a.block, found.second);
        } else {
          var r := OrToAnd.Replacement(body, a.block, found.second, found.pattern);
          var e := SetTerm(body, a.block, r);
          var target := body[found.second].term.ifFalse;
          SafeAfterExtends(n, e, Successors(e[found.second].term), target, found.second, a.block);
        }
      }
    case Trivial(_, rewrite) =>
      if |b.phis| <= a.index < |b.phis| + |b.code| {
        var k := a.index - |b.phis|;
        assert SafeInstr(n, b.code[k]);
        assert SafeCode(n, b.code[k := rewrite(b.code[k])]);
      }
  }
}
