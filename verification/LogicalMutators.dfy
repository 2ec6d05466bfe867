/** What the two logical mutators share: replacing a branch and patching phi nodes. */
module Rewriting {
  import opened IR
  import opened Interpreter
  import opened Modules

  datatype Pattern = Pattern1 | Pattern2 | Pattern3

  datatype Finding = NotFound | Found(pattern: Pattern, second: Label)

  function Successors(t: Terminator): seq<Label> {
    match t
    case Br(l) => [l]
    case CondBr(_, ifFalse, ifTrue) => [ifTrue, ifFalse]
    case _ => []
  }

  /** Every branch target is a block of the function. */
  predicate InRange(body: Body) {
    forall b | b in body :: forall l | l in Successors(b.term) :: l < |body|
  }

  predicate IsConditional(body: Body, b: Label) {
    b < |body| && body[b].term.CondBr?
  }

  function SetTerm(body: Body, b: Label, term: Terminator): Body
    requires b < |body|
  {
    body[b := body[b].(term := term)]
  }

  /** A phi with an entry for `second` also accepts the same value from `first`. */
  function ExtendPhi(phi: Phi, second: Label, first: Label): Phi {
    match PhiOperand(phi, second)
    case None => phi
    case Some(o) => phi.(incoming := phi.incoming + [Incoming(o, first)])
  }

  function ExtendPhis(phis: seq<Phi>, second: Label, first: Label): seq<Phi> {
    seq(|phis|, i requires 0 <= i < |phis| => ExtendPhi(phis[i], second, first))
  }

  function ExtendBlock(body: Body, target: Label, second: Label, first: Label): Body {
    if target >= |body| then body
    else body[target := body[target].(phis := ExtendPhis(body[target].phis, second, first))]
  }

  /** One extension for each successor of the second branch that is the target. */
  function ExtendTargets(body: Body, successors: seq<Label>, target: Label, second: Label, first: Label): (r: Body)
    ensures |r| == |body| && forall b: Label | b < |body| :: r[b].term == body[b].term && r[b].code == body[b].code
  {
    if successors == [] then body
    else
      var n := |successors| - 1;
      var before := ExtendTargets(body, successors[..n], target, second, first);
      if successors[n] == target then ExtendBlock(before, target, second, first) else before
  }

  /** Replaces the first branch and patches the phis of the block it now also jumps to. */
  function Rewire(body: Body, first: Label, second: Label, replacement: Terminator, target: Label): Body
    requires first < |body| && second < |body|
  {
    var replaced := SetTerm(body, first, replacement);
    ExtendTargets(replaced, Successors(replaced[second].term), target, second, first)
  }

  /** The constant of the first phi's first entry, which Pattern 3 negates. */
  predicate HasConstant(block: Block) {
    block.phis != [] && block.phis[0].incoming != [] && block.phis[0].incoming[0].value.Const?
  }

  /** The source asserts that Pattern 3 finds a constant to negate. */
  predicate CanRewrite(body: Body, first: Label, second: Label, pattern: Pattern) {
    && IsConditional(body, first) && IsConditional(body, second) && first != second
    && (pattern.Pattern3? ==> HasConstant(body[second]))
  }

  function Negated(n: int): int {
    if n != 0 then 0 else 1
  }

  function NegatePhi(phi: Phi): Phi
    requires phi.incoming != [] && phi.incoming[0].value.Const?
  {
    phi.(incoming := phi.incoming[0 := phi.incoming[0].(value := Const(Negated(phi.incoming[0].value.n)))])
  }

  function NegateConstant(body: Body, second: Label): Body
    requires second < |body| && HasConstant(body[second])
  {
    body[second := body[second].(phis := body[second].phis[0 := NegatePhi(body[second].phis[0])])]
  }

  /** Negates the constant and exchanges the two targets of the first branch. */
  function Exchange(body: Body, first: Label, second: Label): Body
    requires IsConditional(body, first) && second < |body| && HasConstant(body[second])
  {
    var t := body[first].term;
    SetTerm(NegateConstant(body, second), first, CondBr(t.cond, t.ifTrue, t.ifFalse))
  }

  /** Some phi of the block has an entry for another block than `first`. */
  predicate HasOtherEntry(block: Block, first: Label) {
    exists phi | phi in block.phis :: exists e | e in phi.incoming :: e.block != first
  }

  method FindOtherEntry(block: Block, first: Label) returns (found: bool)
    ensures found == HasOtherEntry(block, first)
  {
    for i := 0 to |block.phis|
      invariant forall j | 0 <= j < i :: forall e | e in block.phis[j].incoming :: e.block == first
    {
      var incoming := block.phis[i].incoming;
      for j := 0 to |incoming|
        invariant forall k | 0 <= k < j :: incoming[k].block == first
      {
        if incoming[j].block != first {
          assert block.phis[i] in block.phis && incoming[j] in incoming;
          return true;
        }
      }
    }
    return false;
  }

  /** The patching loop over the successors of the second branch. */
  method PatchPhis(mod: Module, f: FnId, first: Label, second: Label, target: Label)
    requires f < |mod.functions| && InRange(mod.functions[f].body)
    requires first < |mod.functions[f].body| && second < |mod.functions[f].body|
    modifies mod
    ensures mod.functions == old(mod.functions)[f := old(mod.functions)[f].(body :=
              ExtendTargets(old(mod.functions)[f].body, Successors(old(mod.functions)[f].body[second].term), target,
                second, first))]
  {
    ghost var was := mod.functions;
    var body := mod.functions[f].body;
    var successors := Successors(body[second].term);
    for index := 0 to |successors|
      invariant mod.functions == was[f := was[f].(body :=
                ExtendTargets(body, successors[..index], target, second, first))]
    {
      ghost var sofar := successors[..index + 1];
      assert sofar[..index] == successors[..index];
      if successors[index] == target {
        assert body[second] in body && successors[index] in Successors(body[second].term);
        PatchBlock(mod, f, first, second, target);
      }
    }
    assert successors[..|successors|] == successors;
  }

  /** The body in which the first i phis of the target are extended. */
  function ExtendSome(body: Body, target: Label, i: nat, second: Label, first: Label): Body
    requires target < |body| && i <= |body[target].phis|
  {
    var phis := body[target].phis;
    body[target := body[target].(phis := ExtendPhis(phis[..i], second, first) + phis[i..])]
  }

  lemma ExtendSomeEnds(body: Body, target: Label, second: Label, first: Label)
    requires target < |body|
    ensures ExtendSome(body, target, 0, second, first) == body
    ensures ExtendSome(body, target, |body[target].phis|, second, first) == ExtendBlock(body, target, second, first)
  {
    var phis := body[target].phis;
    assert ExtendPhis(phis[..0], second, first) + phis[0..] == phis;
    assert phis[..|phis|] == phis;
    assert ExtendPhis(phis, second, first) + phis[|phis|..] == ExtendPhis(phis, second, first);
  }

  lemma ExtendSomeStep(body: Body, target: Label, i: nat, second: Label, first: Label)
    requires target < |body| && i < |body[target].phis|
    ensures var now := ExtendSome(body, target, i, second, first);
            && now[target].phis[i] == body[target].phis[i]
            && ExtendSome(body, target, i + 1, second, first)
               == now[target := now[target].(phis :=
                 now[target].phis[i := ExtendPhi(body[target].phis[i], second, first)])]
    ensures PhiOperand(body[target].phis[i], second).None? ==>
              ExtendSome(body, target, i + 1, second, first) == ExtendSome(body, target, i, second, first)
  {
    var phis := body[target].phis;
    assert ExtendPhis(phis[..i + 1], second, first) + phis[i + 1..]
        == (ExtendPhis(phis[..i], second, first) + phis[i..])[i := ExtendPhi(phis[i], second, first)];
    if PhiOperand(phis[i], second).None? {
      assert ExtendPhis(phis[..i + 1], second, first) + phis[i + 1..]
        == ExtendPhis(phis[..i], second, first) + phis[i..];
    }
  }

  method PatchBlock(mod: Module, f: FnId, first: Label, second: Label, target: Label)
    requires f < |mod.functions| && target < |mod.functions[f].body|
    modifies mod
    ensures mod.functions == old(mod.functions)[f := old(mod.functions)[f].(body :=
              ExtendBlock(old(mod.functions)[f].body, target, second, first))]
  {
    ghost var was := mod.functions;
    var body := mod.functions[f].body;
    ExtendSomeEnds(body, target, second, first);
    for i := 0 to |body[target].phis|
      invariant mod.functions == was[f := was[f].(body := ExtendSome(body, target, i, second, first))]
    {
      ExtendSomeStep(body, target, i, second, first);
      var phi := mod.functions[f].body[target].phis[i];
      match PhiOperand(phi, second) {
        case None =>
        case Some(o) => mod.ReplacePhi(f, target, i, phi.(incoming := phi.incoming + [Incoming(o, first)]));
      }
    }
  }
}

/** lib/Mutators/CXX/LogicalAndToOr.cpp: replaces && with ||. */
module AndToOr {
  import opened IR
  import opened Modules
  import opened Rewriting

  /** How a later conditional branch relates to the first one, if at all. */
  function Classify(body: Body, first: Label, c: Label): Option<Pattern>
    requires IsConditional(body, first) && c < |body|
  {
    if !body[c].term.CondBr? then None
    else if body[c].term.ifFalse == body[first].term.ifFalse then Some(Pattern1)
    else if body[c].term.ifFalse == body[first].term.ifTrue then Some(Pattern2)
    else if HasOtherEntry(body[c], first) && c == body[first].term.ifFalse then Some(Pattern3)
    else None
  }

  function Scan(body: Body, first: Label, c: Label): Finding
    requires IsConditional(body, first) && c <= |body|
    decreases |body| - c
  {
    if c == |body| then NotFound
    else match Classify(body, first, c)
      case Some(pattern) => Found(pattern, c)
      case None => Scan(body, first, c + 1)
  }

  /** The first branch after `first`, in layout order, that matches a pattern. */
  function Find(body: Body, first: Label): Finding
    requires first < |body|
  {
    if IsConditional(body, first) then Scan(body, first, first + 1) else NotFound
  }

  method FindPossibleMutationInBranch(body: Body, first: Label) returns (r: Finding)
    requires first < |body|
    ensures r == Find(body, first)
  {
    if !body[first].term.CondBr? {
      return NotFound;
    }
    var right, left := body[first].term.ifFalse, body[first].term.ifTrue;
    var passedBranch := false;
    for c := 0 to |body|
      invariant passedBranch <==> c > first
      invariant Find(body, first) == if passedBranch then Scan(body, first, c) else Scan(body, first, first + 1)
    {
      if body[c].term.CondBr? {
        if c == first {
          passedBranch := true;
        } else if passedBranch {
          if body[c].term.ifFalse == right {
            return Found(Pattern1, c);
          } else if body[c].term.ifFalse == left {
            return Found(Pattern2, c);
          }
          var other := FindOtherEntry(body[c], first);
          if other && c == right {
            return Found(Pattern3, c);
          }
        }
      }
    }
    return NotFound;
  }

  function Replacement(body: Body, first: Label, second: Label, pattern: Pattern): Terminator
    requires IsConditional(body, first) && IsConditional(body, second)
  {
    var t, s := body[first].term, body[second].term;
    match pattern
    case Pattern1 => CondBr(t.cond, t.ifTrue, s.ifTrue)
    case Pattern2 => CondBr(t.cond, s.ifTrue, t.ifFalse)
    case Pattern3 => CondBr(t.cond, t.ifTrue, t.ifFalse)
  }

  function Rewrite(body: Body, first: Label, second: Label, pattern: Pattern): Body
    requires CanRewrite(body, first, second, pattern)
  {
    if pattern.Pattern3? then Exchange(body, first, second)
    else Rewire(body, first, second, Replacement(body, first, second, pattern), body[second].term.ifTrue)
  }

  predicate CanMutate(body: Body, first: Label) {
    && IsConditional(body, first)
    && (Find(body, first).Found? ==> CanRewrite(body, first, Find(body, first).second, Find(body, first).pattern))
  }

  function Mutate(body: Body, first: Label): Body
    requires CanMutate(body, first)
  {
    match Find(body, first)
    case NotFound => body
    case Found(pattern, second) => Rewrite(body, first, second, pattern)
  }

  method ApplyPattern12(mod: Module, f: FnId, first: Label, second: Label, pattern: Pattern)
    requires f < |mod.functions| && InRange(mod.functions[f].body)
    requires CanRewrite(mod.functions[f].body, first, second, pattern) && !pattern.Pattern3?
    modifies mod
    ensures mod.functions == old(mod.functions)[f :=
            old(mod.functions)[f].(body := Rewrite(old(mod.functions)[f].body, first, second, pattern))]
  {
    var body := mod.functions[f].body;
    var t, s := body[first].term, body[second].term;
    var replacement :=
      if pattern == Pattern1 then CondBr(t.cond, t.ifTrue, s.ifTrue) else CondBr(t.cond, s.ifTrue, t.ifFalse);
    assert body[first] in body && body[second] in body;
    assert t.ifTrue in Successors(t) && t.ifFalse in Successors(t) && s.ifTrue in Successors(s);
    mod.ReplaceTerminator(f, first, replacement);
    PatchPhis(mod, f, first, second, s.ifTrue);
  }

  method ApplyPattern3(mod: Module, f: FnId, first: Label, second: Label)
    requires f < |mod.functions| && CanRewrite(mod.functions[f].body, first, second, Pattern3)
    modifies mod
    ensures mod.functions == old(mod.functions)[f :=
            old(mod.functions)[f].(body := Rewrite(old(mod.functions)[f].body, first, second, Pattern3))]
  {
    var phi := mod.functions[f].body[second].phis[0];
    var constant := phi.incoming[0].value.n;
    var negated := phi.incoming[0].(value := Const(if constant != 0 then 0 else 1));
    mod.ReplacePhi(f, second, 0, phi.(incoming := phi.incoming[0 := negated]));
    var t := mod.functions[f].body[first].term;
    mod.ReplaceTerminator(f, first, CondBr(t.cond, t.ifTrue, t.ifFalse));
  }

  /** The mutation, on the branch that the address names. */
  method ApplyMutation(mod: Module, f: FnId, first: Label)
    requires f < |mod.functions| && InRange(mod.functions[f].body) && CanMutate(mod.functions[f].body, first)
    modifies mod
    ensures mod.functions == old(mod.functions)[f :=
            old(mod.functions)[f].(body := Mutate(old(mod.functions)[f].body, first))]
  {
    var found := FindPossibleMutationInBranch(mod.functions[f].body, first);
    match found {
      case NotFound =>
      case Found(pattern, second) =>
        if pattern == Pattern3 {
          ApplyPattern3(mod, f, first, second);
        } else {
          ApplyPattern12(mod, f, first, second, pattern);
        }
    }
  }

  lemma {:induction false} ScanIsFirst(body: Body, first: Label, c: Label)
    requires IsConditional(body, first) && c <= |body|
    ensures var r := Scan(body, first, c);
            if r.NotFound? then forall j | c <= j < |body| :: Classify(body, first, j) == None
            else && c <= r.second < |body| && Classify(body, first, r.second) == Some(r.pattern)
                 && forall j | c <= j < r.second :: Classify(body, first, j) == None
    decreases |body| - c
  {
    if c < |body| && Classify(body, first, c).None? {
      ScanIsFirst(body, first, c + 1);
    }
  }
}

/** lib/Mutators/CXX/LogicalOrToAnd.cpp: replaces || with &&. */
module OrToAnd {
  import opened IR
  import opened Modules
  import opened Rewriting

  function Classify(body: Body, first: Label, c: Label): Option<Pattern>
    requires IsConditional(body, first) && c < |body|
  {
    if !body[c].term.CondBr? then None
    else if body[c].term.ifTrue == body[first].term.ifTrue then Some(Pattern1)
    else if body[c].term.ifTrue == body[first].term.ifFalse then Some(Pattern2)
    else if HasOtherEntry(body[c], first) && c == body[first].term.ifTrue then Some(Pattern3)
    else None
  }

  function Scan(body: Body, first: Label, c: Label): Finding
    requires IsConditional(body, first) && c <= |body|
    decreases |body| - c
  {
    if c == |body| then NotFound
    else match Classify(body, first, c)
      case Some(pattern) => Found(pattern, c)
      case None => Scan(body, first, c + 1)
  }

  function Find(body: Body, first: Label): Finding
    requires first < |body|
  {
    if IsConditional(body, first) then Scan(body, first, first + 1) else NotFound
  }

  method FindPossibleMutationInBranch(body: Body, first: Label) returns (r: Finding)
    requires first < |body|
    ensures r == Find(body, first)
  {
    if !body[first].term.CondBr? {
      return NotFound;
    }
    var left, right := body[first].term.ifTrue, body[first].term.ifFalse;
    var passedBranch := false;
    for c := 0 to |body|
      invariant passedBranch <==> c > first
      invariant Find(body, first) == if passedBranch then Scan(body, first, c) else Scan(body, first, first + 1)
    {
      if body[c].term.CondBr? {
        if c == first {
          passedBranch := true;
        } else if passedBranch {
          if body[c].term.ifTrue == left {
            return Found(Pattern1, c);
          } else if body[c].term.ifTrue == right {
            return Found(Pattern2, c);
          }
          var other := FindOtherEntry(body[c], first);
          if other && c == left {
            return Found(Pattern3, c);
          }
        }
      }
    }
    return NotFound;
  }

  function Replacement(body: Body, first: Label, second: Label, pattern: Pattern): Terminator
    requires IsConditional(body, first) && IsConditional(body, second)
  {
    var t, s := body[first].term, body[second].term;
    match pattern
    case Pattern1 => CondBr(t.cond, s.ifFalse, t.ifFalse)
    case Pattern2 => CondBr(t.cond, t.ifTrue, s.ifFalse)
    case Pattern3 => CondBr(t.cond, t.ifTrue, t.ifFalse)
  }

  function Rewrite(body: Body, first: Label, second: Label, pattern: Pattern): Body
    requires CanRewrite(body, first, second, pattern)
  {
    if pattern.Pattern3? then Exchange(body, first, second)
    else Rewire(body, first, second, Replacement(body, first, second, pattern), body[second].term.ifFalse)
  }

  predicate CanMutate(body: Body, first: Label) {
    && IsConditional(body, first)
    && (Find(body, first).Found? ==> CanRewrite(body, first, Find(body, first).second, Find(body, first).pattern))
  }

  function Mutate(body: Body, first: Label): Body
    requires CanMutate(body, first)
  {
    match Find(body, first)
    case NotFound => body
    case Found(pattern, second) => Rewrite(body, first, second, pattern)
  }

  method ApplyPattern12(mod: Module, f: FnId, first: Label, second: Label, pattern: Pattern)
    requires f < |mod.functions| && InRange(mod.functions[f].body)
    requires CanRewrite(mod.functions[f].body, first, second, pattern) && !pattern.Pattern3?
    modifies mod
    ensures mod.functions == old(mod.functions)[f :=
            old(mod.functions)[f].(body := Rewrite(old(mod.functions)[f].body, first, second, pattern))]
  {
    var body := mod.functions[f].body;
    var t, s := body[first].term, body[second].term;
    var replacement :=
      if pattern == Pattern1 then CondBr(t.cond, s.ifFalse, t.ifFalse) else CondBr(t.cond, t.ifTrue, s.ifFalse);
    assert body[first] in body && body[second] in body;
    assert t.ifTrue in Successors(t) && t.ifFalse in Successors(t) && s.ifFalse in Successors(s);
    mod.ReplaceTerminator(f, first, replacement);
    PatchPhis(mod, f, first, second, s.ifFalse);
  }

  method ApplyPattern3(mod: Module, f: FnId, first: Label, second: Label)
    requires f < |mod.functions| && CanRewrite(mod.functions[f].body, first, second, Pattern3)
    modifies mod
    ensures mod.functions == old(mod.functions)[f :=
            old(mod.functions)[f].(body := Rewrite(old(mod.functions)[f].body, first, second, Pattern3))]
  {
    var phi := mod.functions[f].body[second].phis[0];
    var constant := phi.incoming[0].value.n;
    var negated := phi.incoming[0].(value := Const(if constant != 0 then 0 else 1));
    mod.ReplacePhi(f, second, 0, phi.(incoming := phi.incoming[0 := negated]));
    var t := mod.functions[f].body[first].term;
    mod.ReplaceTerminator(f, first, CondBr(t.cond, t.ifTrue, t.ifFalse));
  }

  method ApplyMutation(mod: Module, f: FnId, first: Label)
    requires f < |mod.functions| && InRange(mod.functions[f].body) && CanMutate(mod.functions[f].body, first)
    modifies mod
    ensures mod.functions == old(mod.functions)[f :=
            old(mod.functions)[f].(body := Mutate(old(mod.functions)[f].body, first))]
  {
    var found := FindPossibleMutationInBranch(mod.functions[f].body, first);
    match found {
      case NotFound =>
      case Found(pattern, second) =>
        if pattern == Pattern3 {
          ApplyPattern3(mod, f, first, second);
        } else {
          ApplyPattern12(mod, f, first, second, pattern);
        }
    }
  }
}
