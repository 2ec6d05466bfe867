/** Mutant identifiers, and what switching one on changes. */
module Enabling {
  import opened IR
  import opened Interpreter
  import opened Trampoline
  import opened Points
  import opened Schemata
  import opened WholeProgram
  import opened Text

  /** The first separator ends the first part. */
  lemma FirstPart(a: string, x: string, b: string, y: string)
    requires ':' !in a && ':' !in b && a + ":" + x == b + ":" + y
    ensures a == b && x == y
  {
    var s := a + ":" + x;
    assert s == b + ":" + y;
    assert s[|a|] == ':' && s[|b|] == ':';
    assert forall i | 0 <= i < |a| :: s[i] == a[i] && a[i] in a;
    assert forall i | 0 <= i < |b| :: s[i] == b[i] && b[i] in b;
    assert |a| == |b|;
    assert s[..|a|] == a && s[..|b|] == b;
    assert s[|a| + 1..] == x && s[|b| + 1..] == y;
  }

  /** The last separator starts the last part. */
  lemma LastPart(x: string, a: string, y: string, b: string)
    requires ':' !in a && ':' !in b && x + ":" + a == y + ":" + b
    ensures a == b && x == y
  {
    var s := x + ":" + a;
    assert s == y + ":" + b;
    assert s[|x|] == ':' && s[|y|] == ':';
    assert forall i | |x| < i < |s| :: s[i] == a[i - |x| - 1] && a[i - |x| - 1] in a;
    assert forall i | |y| < i < |s| :: s[i] == b[i - |y| - 1] && b[i - |y| - 1] in b;
    assert |x| == |y|;
    assert s[..|x|] == x && s[..|y|] == y;
    assert s[|x| + 1..] == a && s[|y| + 1..] == b;
  }

  /** Identifiers tell mutants apart: the path may hold separators, the mutator's name may not. */
  lemma IdentifierInjective(mutator: string, file: string, line: int, column: int, mutator': string, file': string,
                            line': int, column': int)
    requires ':' !in mutator && ':' !in mutator'
    requires Identifier(mutator, file, line, column) == Identifier(mutator', file', line', column')
    ensures mutator == mutator' && file == file' && line == line' && column == column'
  {
    ToStringChars(line);
    ToStringChars(line');
    ToStringChars(column);
    ToStringChars(column');
    LastPart(mutator + ":" + file + ":" + ToString(line), ToString(column),
             mutator' + ":" + file' + ":" + ToString(line'), ToString(column'));
    LastPart(mutator + ":" + file, ToString(line), mutator' + ":" + file', ToString(line'));
    FirstPart(mutator, file, mutator', file');
    ToStringInjective(line, line');
    ToStringInjective(column, column');
  }

  /** Without that restriction they would not. */
  lemma SeparatorInMutatorIsAmbiguous()
    ensures Identifier("a:b", "c", 1, 2) == Identifier("a", "b:c", 1, 2)
  {}

  predicate SameMutant(p: Point, q: Point) {
    p.mutator.Identifier() == q.mutator.Identifier() && p.file == q.file && p.line == q.line && p.column == q.column
  }

  ghost predicate SeparatorFree(plan: Plan) {
    forall f, p | f in plan.points && p in plan.points[f] :: ':' !in p.mutator.Identifier()
  }

  /** The environment of the run for mutant q: no other identifier of the plan is in it. */
  ghost predicate EnvironmentFor(plan: Plan, env: map<string, string>, q: Point) {
    && q.userIdentifier in env
    && forall f, p | f in plan.points && p in plan.points[f] && p.userIdentifier in env ::
      p.userIdentifier == q.userIdentifier
  }

  /** A run for mutant q replaces a function's body exactly where a covered point of q asks for it. */
  lemma EnablingIsExact(src: seq<Function>, plan: Plan, env: map<string, string>, q: Point, f: FnId)
    requires ValidPlan(src, plan) && SeparatorFree(plan) && q.Named() && ':' !in q.mutator.Identifier()
    requires EnvironmentFor(plan, env, q) && f < |src|
    ensures var points := plan.Of(f);
            var last := LastEnabled(env, points, |points|);
            && (last.Some? <==> exists i | 0 <= i < |points| :: points[i].covered && SameMutant(points[i], q))
            && (last.Some? ==>
                  && SameMutant(points[last.value], q)
                  && Reference(env, src, plan)[f] == src[f].(body := Mutant(points[last.value], src[f].body)))
            && (last.None? ==> Reference(env, src, plan)[f] == src[f])
  {
    var points := plan.Of(f);
    forall i | 0 <= i < |points|
      ensures points[i].userIdentifier in env <==> SameMutant(points[i], q)
    {
      assert points[i] in plan.points[f] && points[i].Named();
      if points[i].userIdentifier in env {
        IdentifierInjective(points[i].mutator.Identifier(), points[i].file, points[i].line, points[i].column,
                            q.mutator.Identifier(), q.file, q.line, q.column);
      }
    }
  }

  /**
   A trampoline forwards the declared arguments only, so a variadic function is run as if it had
   been called without the others.
   */
  lemma VariadicArgumentsAreDropped(m: Machine, p: seq<Function>, f: FnId, copy: FnId, choices: seq<Choice>,
                                    depth: nat, budget: nat, args: seq<Value>, w: World)
    requires f < |p| && p[f].variadic && p[f].arity <= |args|
    requires p[f].body == Build(p[f].isVoid, p[f].arity, FnRef(copy), choices)
    requires depth > 0 && budget >= |choices| + 3
    ensures Invoke(m, p, depth, budget, f, args, w)
         == Finish(p[f].isVoid, Invoke(m, p, depth - 1, budget, Dispatch(m.env, copy, choices), args[..p[f].arity], w))
  {
    PathLengthBound(m.env, choices);
    RunTrampoline(m, p, depth - 1, budget, budget, p[f].isVoid, p[f].arity, copy, choices, w, args);
  }
}
