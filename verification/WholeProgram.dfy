/**
 The instrumented program does what it is for: under any environment it behaves as the
 source program in which the last enabled mutant of each function is written out.
 */
module WholeProgram {
  import opened IR
  import opened Interpreter
  import opened Trampoline
  import opened Modules
  import opened Points
  import opened Schemata
  import opened Simulation

  /** Position of the last covered point, among the first j, that the environment enables. */
  function LastEnabled(env: map<string, string>, points: seq<Point>, j: nat): (r: Option<nat>)
    requires j <= |points|
    ensures r.Some? ==> r.value < j && points[r.value].covered && points[r.value].userIdentifier in env
    ensures forall i | (if r.Some? then r.value + 1 else 0) <= i < j && points[i].covered ::
            points[i].userIdentifier !in env
  {
    if j == 0 then None
    else if points[j - 1].covered && points[j - 1].userIdentifier in env then Some(j - 1)
    else LastEnabled(env, points, j - 1)
  }

  function ReferenceFunction(env: map<string, string>, f: Function, points: seq<Point>): Function {
    match LastEnabled(env, points, |points|)
    case None => f
    case Some(i) => f.(body := Mutant(points[i], f.body))
  }

  /** The source with the enabled mutants in place of the functions they mutate. */
  function Reference(env: map<string, string>, src: seq<Function>, plan: Plan): seq<Function> {
    seq(|src|, f requires 0 <= f < |src| => ReferenceFunction(env, src[f], plan.Of(f)))
  }

  /** What the transformation needs of the module beyond what its own assertions check. */
  ghost predicate Transformable(src: seq<Function>, plan: Plan) {
    && ValidPlan(src, plan)
    && DistinctNames(src)
    && FreshCopies(src, plan)
    && (forall g | 0 <= g < |plan.order| && HasCovered(plan.At(g)) :: !src[plan.order[g]].variadic)
    && (forall f: FnId | f < |src| :: SafeBody(|src|, src[f].body))
    && (forall g, j | 0 <= g < |plan.order| && 0 <= j < |plan.At(g)| && plan.At(g)[j].covered ::
      SafeMutator(|src|, plan.At(g)[j].mutator))
  }

  /** More blocks than any trampoline of the plan lets one invocation enter. */
  ghost predicate Limit(plan: Plan, limit: nat) {
    forall g | 0 <= g < |plan.order| :: |plan.At(g)| + 3 <= limit
  }

  // --- The state of the module after all phases.

  /** Clones and copies are not functions of the source, so deleting and inserting leave them alone. */
  lemma PreparedOther(src: seq<Function>, plan: Plan, i: FnId)
    requires ValidPlan(src, plan) && |src| <= i < |Prepared(src, plan)|
    ensures var now := CloneAll(src, plan, |plan.order|);
            && |src| <= |now|
            && |DeleteAll(now, plan, |plan.order|)| == |Prepared(src, plan)|
            && Prepared(src, plan)[i] == DeleteAll(now, plan, |plan.order|)[i]
            && (i < |now| ==> Prepared(src, plan)[i] == now[i])
  {
    var now := CloneAll(src, plan, |plan.order|);
    UninsertedBody(src, DeleteAll(now, plan, |plan.order|), plan, |plan.order|, i);
    if i < |now| {
      UndeletedBody(now, plan, |plan.order|, i);
    }
  }

  lemma PreparedUncovered(src: seq<Function>, plan: Plan, f: FnId)
    requires ValidPlan(src, plan) && f < |src| && !HasCovered(plan.Of(f))
    ensures Prepared(src, plan)[f] == src[f]
  {
    var n := |plan.order|;
    var now := CloneAll(src, plan, n);
    CloneAllFacts(src, plan, n);
    if f in plan.order {
      var g :| 0 <= g < n && plan.order[g] == f;
      DeletedBody(now, plan, n, g);
      InsertedBody(src, DeleteAll(now, plan, n), plan, n, g);
    } else {
      UndeletedBody(now, plan, n, f);
      UninsertedBody(src, DeleteAll(now, plan, n), plan, n, f);
    }
  }

  lemma PreparedTrampoline(src: seq<Function>, plan: Plan, g: nat)
    requires ValidPlan(src, plan) && g < |plan.order| && HasCovered(plan.At(g))
    ensures var f := plan.order[g];
            var now := CloneAll(src, plan, |plan.order|);
            && |src| <= |now|
            && Prepared(src, plan)[f]
               == src[f].(body := Build(src[f].isVoid, src[f].arity, CopyOperand(DeleteAll(now, plan, |plan.order|), f),
                                        ChoicesOf(src, plan, g, |plan.At(g)|)))
  {
    var n := |plan.order|;
    var now := CloneAll(src, plan, n);
    CloneAllFacts(src, plan, n);
    DeletedBody(now, plan, n, g);
    InsertedBody(src, DeleteAll(now, plan, n), plan, n, g);
  }

  lemma JobsAreClones(src: seq<Function>, plan: Plan, jobs: seq<Job>)
    requires ValidPlan(src, plan) && JobsArePlaced(src, plan, jobs)
    ensures forall k | 0 <= k < |jobs| && jobs[k].point.covered ::
              |src| <= jobs[k].clone < |CloneAll(src, plan, |plan.order|)|
  {
    forall k | 0 <= k < |jobs| && jobs[k].point.covered
      ensures |src| <= jobs[k].clone < |CloneAll(src, plan, |plan.order|)|
    {
      var g, j :| JobFor(src, plan, jobs[k], g, j);
      CloneIsCopy(src, plan, g, j);
    }
  }

  /**
   First-order mutants: a clone has the point's identifier for a name, as far as that was free, and the source
   body but for the mutation of its own point. A trivial mutator rewrites the instruction at the point's
   address and leaves what is at all other addresses.
   */
  lemma CloneIsMutant(src: seq<Function>, plan: Plan, jobs: seq<Job>, g: nat, j: nat)
    requires ValidPlan(src, plan) && ValidJobs(src, plan, jobs)
    requires g < |plan.order| && j < |plan.At(g)| && plan.At(g)[j].covered
    ensures var r := Instrumented(src, plan, jobs);
            var id := CloneId(src, plan, g, j);
            var f := src[plan.order[g]];
            var now := CloneAll(src, plan, |plan.order|);
            && |src| <= id < |now| <= |r|
            && r[id] == f.(name := UniqueName(now[..id], plan.At(g)[j].userIdentifier), internal := true,
                           body := Mutant(plan.At(g)[j], f.body))
    ensures var p := plan.At(g)[j];
            p.mutator.Trivial? ==>
              RewritesAt(src[plan.order[g]].body, Instrumented(src, plan, jobs)[CloneId(src, plan, g, j)].body,
                         p.address, p.mutator.rewrite)
  {
    var body := src[plan.order[g]].body;
    if plan.At(g)[j].mutator.Trivial? {
      TrivialMutant(plan.At(g)[j], body, Mutant(plan.At(g)[j], body));
    }
    CloneIsCopy(src, plan, g, j);
    PreparedOther(src, plan, CloneId(src, plan, g, j));
    JobsAreClones(src, plan, jobs);
    ApplyAllFacts(Prepared(src, plan), jobs, |jobs|);
    var k :| 0 <= k < |jobs| && JobFor(src, plan, jobs[k], g, j);
  }

  /** Applying the mutations touches nothing but the clones. */
  lemma OthersArePrepared(src: seq<Function>, plan: Plan, jobs: seq<Job>, i: FnId)
    requires ValidPlan(src, plan) && JobsArePlaced(src, plan, jobs) && DistinctClones(jobs)
    requires i < |src| || |CloneAll(src, plan, |plan.order|)| <= i < |Prepared(src, plan)|
    ensures Instrumented(src, plan, jobs)[i] == Prepared(src, plan)[i]
  {
    JobsAreClones(src, plan, jobs);
    ApplyAllFacts(Prepared(src, plan), jobs, |jobs|);
  }

  lemma KeptCopyIsOriginal(src: seq<Function>, plan: Plan, g: nat)
    requires ValidPlan(src, plan) && DistinctNames(src) && FreshCopies(src, plan)
    requires g < |plan.order| && HasCovered(plan.At(g))
    ensures |src| <= |CloneAll(src, plan, |plan.order|)|
    ensures var f := src[plan.order[g]];
            var now := CloneAll(src, plan, |plan.order|);
            var deleted := DeleteAll(now, plan, |plan.order|);
            var copy := CopyId(now, plan, g);
            && |now| <= copy < |deleted|
            && deleted[copy] == f.(name := "mull_" + f.name + "_original")
            && CopyOperand(deleted, plan.order[g]) == FnRef(copy)
  {
    var now := CloneAll(src, plan, |plan.order|);
    CloneAllFacts(src, plan, |plan.order|);
    KeptCopies(now, plan, |plan.order|, g);
    CopyNameIsFree(src, plan, g);
    CopyIsFound(src, plan, g);
    DeletedName(now, plan, |plan.order|, plan.order[g]);
    assert now[plan.order[g]] == src[plan.order[g]];
  }

  /** The kept copy has the source body, and the trampoline's default choice is that copy. */
  lemma CopyIsOriginal(src: seq<Function>, plan: Plan, jobs: seq<Job>, g: nat)
    requires ValidPlan(src, plan) && DistinctNames(src) && FreshCopies(src, plan)
    requires JobsArePlaced(src, plan, jobs) && DistinctClones(jobs)
    requires g < |plan.order| && HasCovered(plan.At(g))
    ensures var r := Instrumented(src, plan, jobs);
            var f := src[plan.order[g]];
            var now := CloneAll(src, plan, |plan.order|);
            && |src| <= |now|
            && var copy := CopyId(now, plan, g);
            && copy < |r|
            && r[copy] == f.(name := "mull_" + f.name + "_original")
            && r[plan.order[g]] == f.(body :=
              Build(f.isVoid, f.arity, FnRef(copy), ChoicesOf(src, plan, g, |plan.At(g)|)))
  {
    var copy := CopyId(CloneAll(src, plan, |plan.order|), plan, g);
    KeptCopyIsOriginal(src, plan, g);
    PreparedOther(src, plan, copy);
    PreparedTrampoline(src, plan, g);
    OthersArePrepared(src, plan, jobs, copy);
    OthersArePrepared(src, plan, jobs, plan.order[g]);
  }

  /** Instrumentation adds clones for covered points and copies of mutated functions, and nothing else. */
  lemma NothingElseIsAdded(src: seq<Function>, plan: Plan, jobs: seq<Job>, i: FnId)
    requires ValidPlan(src, plan) && |src| <= i < |Instrumented(src, plan, jobs)|
    ensures |src| <= |CloneAll(src, plan, |plan.order|)|
    ensures || (exists g, j | 0 <= g < |plan.order| && 0 <= j < |plan.At(g)| ::
                  plan.At(g)[j].covered && i == CloneId(src, plan, g, j))
            || (exists g | 0 <= g < |plan.order| ::
                  HasCovered(plan.At(g)) && i == CopyId(CloneAll(src, plan, |plan.order|), plan, g))
  {
    var n := |plan.order|;
    var now := CloneAll(src, plan, n);
    CloneAllFacts(src, plan, n);
    if i < |now| {
      ClonesAreOfPoints(src, plan, n, i);
    } else {
      CopiesAreOriginals(now, plan, n, i);
    }
  }

  // --- Dispatching agrees with the reference.

  lemma {:induction false} ChoicesBound(src: seq<Function>, plan: Plan, g: nat, j: nat)
    requires ValidPlan(src, plan) && g < |plan.order| && j <= |plan.At(g)|
    ensures |ChoicesOf(src, plan, g, j)| <= j
  {
    if j > 0 {
      ChoicesBound(src, plan, g, j - 1);
    }
  }

  lemma {:induction false} DispatchIsLastEnabled(src: seq<Function>, plan: Plan, g: nat, j: nat,
                                                 env: map<string, string>, copy: FnId)
    requires ValidPlan(src, plan) && g < |plan.order| && j <= |plan.At(g)|
    ensures Dispatch(env, copy, ChoicesOf(src, plan, g, j))
         == match LastEnabled(env, plan.At(g), j)
            case None => copy
            case Some(i) => CloneId(src, plan, g, i)
  {
    if j > 0 {
      DispatchIsLastEnabled(src, plan, g, j - 1, env, copy);
      var before := ChoicesOf(src, plan, g, j - 1);
      if plan.At(g)[j - 1].covered {
        var choices := ChoicesOf(src, plan, g, j);
        assert choices[..|choices| - 1] == before;
      }
    }
  }

  lemma MutantHasBlocks(p: Point, body: Body)
    ensures |Mutant(p, body)| == |body|
  {}

  /** Dispatching leads to a function with the body and signature of the reference. */
  lemma DispatchedIsReference(src: seq<Function>, plan: Plan, jobs: seq<Job>, env: map<string, string>, g: nat,
                              copy: FnId)
    requires ValidPlan(src, plan) && DistinctNames(src) && FreshCopies(src, plan) && ValidJobs(src, plan, jobs)
    requires g < |plan.order| && HasCovered(plan.At(g)) && |src| <= |CloneAll(src, plan, |plan.order|)|
    requires copy == CopyId(CloneAll(src, plan, |plan.order|), plan, g)
    ensures var f := src[plan.order[g]];
            var r := Instrumented(src, plan, jobs);
            var t := Dispatch(env, copy, ChoicesOf(src, plan, g, |plan.At(g)|));
            t < |r| && r[t] == ReferenceFunction(env, f, plan.At(g)).(name := r[t].name, internal := r[t].internal)
  {
    var points := plan.At(g);
    DispatchIsLastEnabled(src, plan, g, |points|, env, copy);
    match LastEnabled(env, points, |points|) {
      case None => CopyIsOriginal(src, plan, jobs, g);
      case Some(i) => CloneIsMutant(src, plan, jobs, g, i);
    }
  }

  lemma ReferenceKeepsShape(env: map<string, string>, f: Function, points: seq<Point>)
    ensures var r := ReferenceFunction(env, f, points);
            r == f.(body := r.body) && |r.body| == |f.body|
  {
    match LastEnabled(env, points, |points|) {
      case None =>
      case Some(i) => MutantHasBlocks(points[i], f.body);
    }
  }

  /** A function with a covered point is a trampoline. */
  lemma CoveredIsTrampolined(src: seq<Function>, plan: Plan, jobs: seq<Job>, env: map<string, string>, limit: nat,
                             g: nat)
    requires Transformable(src, plan) && ValidJobs(src, plan, jobs) && Limit(plan, limit)
    requires g < |plan.order| && HasCovered(plan.At(g))
    ensures var f := plan.order[g];
            exists copy, choices :: Trampolined(env, ReferenceFunction(env, src[f], plan.At(g)),
                                                Instrumented(src, plan, jobs), f, copy, choices, limit)
  {
    var f, points := plan.order[g], plan.At(g);
    CloneAllFacts(src, plan, |plan.order|);
    var copy := CopyId(CloneAll(src, plan, |plan.order|), plan, g);
    CopyIsOriginal(src, plan, jobs, g);
    ChoicesBound(src, plan, g, |points|);
    DispatchedIsReference(src, plan, jobs, env, g, copy);
    ReferenceKeepsShape(env, src[f], points);
    assert src[f].body != [] by {
      var i :| 0 <= i < |points| && points[i].covered;
      assert points[i] in plan.points[f];
    }
    assert Trampolined(env, ReferenceFunction(env, src[f], points), Instrumented(src, plan, jobs), f, copy,
                       ChoicesOf(src, plan, g, |points|), limit);
  }

  lemma InstrumentedImplements(src: seq<Function>, plan: Plan, jobs: seq<Job>, env: map<string, string>, limit: nat)
    requires Transformable(src, plan) && ValidJobs(src, plan, jobs) && Limit(plan, limit)
    ensures Implements(env, Reference(env, src, plan), Instrumented(src, plan, jobs), limit)
  {
    var ref := Reference(env, src, plan);
    var r := Instrumented(src, plan, jobs);
    forall f: FnId | f < |src|
      ensures r[f] == ref[f] || exists copy, choices :: Trampolined(env, ref[f], r, f, copy, choices, limit)
    {
      if HasCovered(plan.Of(f)) {
        var g :| 0 <= g < |plan.order| && plan.order[g] == f;
        CoveredIsTrampolined(src, plan, jobs, env, limit, g);
      } else {
        OthersArePrepared(src, plan, jobs, f);
        PreparedUncovered(src, plan, f);
      }
    }
  }

  lemma ReferenceIsSafe(src: seq<Function>, plan: Plan, env: map<string, string>)
    requires Transformable(src, plan)
    ensures forall f: FnId | f < |src| :: SafeBody(|src|, Reference(env, src, plan)[f].body)
  {
    forall f: FnId | f < |src|
      ensures SafeBody(|src|, Reference(env, src, plan)[f].body)
    {
      var points := plan.Of(f);
      match LastEnabled(env, points, |points|)
      case None =>
      case Some(i) =>
        var g :| 0 <= g < |plan.order| && plan.order[g] == f;
        assert plan.At(g) == points && points[i] in plan.points[f];
        SafeAfterApply(|src|, points[i].mutator, src[f].body, points[i].address);
    }
  }

  // --- The theorem.

  /** The instrumented program and the reference have the same terminating runs, recursion included. */
  lemma WholeProgramCorrect(m: Machine, src: seq<Function>, plan: Plan, jobs: seq<Job>, f: FnId, args: seq<Value>,
                            w: World, o: Outcome)
    requires Transformable(src, plan) && ValidJobs(src, plan, jobs) && SafeMachine(|src|, m)
    requires f < |src| && SafeArgs(|src|, args) && SafeWorld(|src|, w) && o != OutOfFuel
    ensures Ends(m, Reference(m.env, src, plan), f, args, w, o)
            <==> Ends(m, Instrumented(src, plan, jobs), f, args, w, o)
  {
    var limit := LargestLimit(plan, |plan.order|);
    InstrumentedImplements(src, plan, jobs, m.env, limit);
    ReferenceIsSafe(src, plan, m.env);
    SameBehaviour(m, Reference(m.env, src, plan), Instrumented(src, plan, jobs), limit, f, args, w, o);
  }

  function LargestLimit(plan: Plan, g: nat): (limit: nat)
    requires g <= |plan.order|
    ensures forall h | 0 <= h < g :: |plan.At(h)| + 3 <= limit
  {
    if g == 0 then 0
    else
      var rest := LargestLimit(plan, g - 1);
      if |plan.At(g - 1)| + 3 > rest then |plan.At(g - 1)| + 3 else rest
  }

  /** How much deeper the instrumented program goes: every source call becomes at most two. */
  lemma DepthAtMostDoubles(m: Machine, src: seq<Function>, plan: Plan, jobs: seq<Job>, limit: nat,
                           depth: nat, budget: nat, f: FnId, args: seq<Value>, w: World)
    requires Transformable(src, plan) && ValidJobs(src, plan, jobs) && SafeMachine(|src|, m) && Limit(plan, limit)
    requires f < |src| && SafeArgs(|src|, args) && SafeWorld(|src|, w)
    ensures var o := Invoke(m, Reference(m.env, src, plan), depth, budget, f, args, w);
            o != OutOfFuel ==>
              o == Invoke(m, Instrumented(src, plan, jobs), 2 * depth,
                          if budget < limit then limit else budget, f, args, w)
  {
    InstrumentedImplements(src, plan, jobs, m.env, limit);
    ReferenceIsSafe(src, plan, m.env);
    SimInvoke(m, Reference(m.env, src, plan), Instrumented(src, plan, jobs), limit, true,
              depth, budget, 2 * depth, if budget < limit then limit else budget, f, args, w);
  }

  /** With no mutant enabled, the instrumented program is the source program. */
  lemma NothingEnabled(m: Machine, src: seq<Function>, plan: Plan, jobs: seq<Job>, f: FnId, args: seq<Value>,
                       w: World, o: Outcome)
    requires Transformable(src, plan) && ValidJobs(src, plan, jobs) && SafeMachine(|src|, m)
    requires f < |src| && SafeArgs(|src|, args) && SafeWorld(|src|, w) && o != OutOfFuel
    requires forall f, p | f in plan.points && p in plan.points[f] && p.covered :: p.userIdentifier !in m.env
    ensures Ends(m, src, f, args, w, o) <==> Ends(m, Instrumented(src, plan, jobs), f, args, w, o)
  {
    forall i | 0 <= i < |src|
      ensures Reference(m.env, src, plan)[i] == src[i]
    {
      var points := plan.Of(i);
      forall k | 0 <= k < |points| && points[k].covered
        ensures points[k].userIdentifier !in m.env
      {
        assert points[k] in plan.points[i];
      }
    }
    assert Reference(m.env, src, plan) == src;
    WholeProgramCorrect(m, src, plan, jobs, f, args, w, o);
  }
}
