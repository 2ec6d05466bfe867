/** lib/Parallelization/Tasks/MutantExecutionTask.cpp: one run of the instrumented program per mutant. */
module MutantExecution {
  import opened IR
  import opened Interpreter
  import opened Points
  import opened Schemata
  import opened Simulation
  import opened WholeProgram
  import opened Enabling
  import Records

  /** The environment is the inherited one with the identifier, set to 1, added. */
  ghost predicate Adds(env: map<string, string>, inherited: map<string, string>, identifier: string) {
    && env.Keys == inherited.Keys + {identifier}
    && env[identifier] == "1"
    && forall k | k in inherited && k != identifier :: env[k] == inherited[k]
  }

  lemma OneEnvironment(env: map<string, string>, inherited: map<string, string>, identifier: string)
    ensures Adds(env, inherited, identifier) <==> env == inherited[identifier := "1"]
  {}

  datatype Status<R> = NotCovered | Ran(result: R)

  datatype MutationResult<R> = MutationResult(status: Status<R>, mutant: Records.Mutant)

  /** `run` stands for running the program in an environment. */
  method ExecuteMutants<R>(mutants: seq<Records.Mutant>, inherited: map<string, string>, run: map<string, string> -> R)
    returns (storage: seq<MutationResult<R>>)
    ensures |storage| == |mutants| && forall i | 0 <= i < |mutants| :: storage[i].mutant == mutants[i]
    ensures forall i | 0 <= i < |mutants| && mutants[i].covered ::
              exists env :: Adds(env, inherited, mutants[i].identifier) && storage[i].status == Ran(run(env))
    ensures forall i | 0 <= i < |mutants| && !mutants[i].covered :: storage[i].status == NotCovered
  {
    storage := [];
    for i := 0 to |mutants|
      invariant |storage| == i && forall j | 0 <= j < i :: storage[j].mutant == mutants[j]
      invariant forall j | 0 <= j < i && mutants[j].covered ::
                  exists env :: Adds(env, inherited, mutants[j].identifier) && storage[j].status == Ran(run(env))
      invariant forall j | 0 <= j < i && !mutants[j].covered :: storage[j].status == NotCovered
    {
      var status := NotCovered;
      if mutants[i].covered {
        var env := inherited[mutants[i].identifier := "1"];
        assert Adds(env, inherited, mutants[i].identifier);
        status := Ran(run(env));
      }
      storage := storage + [MutationResult(status, mutants[i])];
    }
  }

  /** Position of the last covered point, among the first j, of the same mutant as q. */
  function LastOf(points: seq<Point>, q: Point, j: nat): (r: Option<nat>)
    requires j <= |points|
    ensures r.Some? ==> r.value < j
  {
    if j == 0 then None
    else if points[j - 1].covered && SameMutant(points[j - 1], q) then Some(j - 1)
    else LastOf(points, q, j - 1)
  }

  /** The source with one mutant written out, in every function that has it and nowhere else. */
  function FirstOrder(src: seq<Function>, plan: Plan, q: Point): seq<Function> {
    seq(|src|, f requires 0 <= f < |src| =>
      var points := plan.Of(f);
      match LastOf(points, q, |points|)
      case None => src[f]
      case Some(i) => src[f].(body := Mutant(points[i], src[f].body)))
  }

  /** No identifier of the plan was in the environment before. */
  ghost predicate CleanEnvironment(plan: Plan, inherited: map<string, string>) {
    forall f, p | f in plan.points && p in plan.points[f] :: p.userIdentifier !in inherited
  }

  /** A point is enabled exactly if it is of the mutant whose identifier was added. */
  lemma EnabledIsSame(env: map<string, string>, inherited: map<string, string>, p: Point, q: Point)
    requires Adds(env, inherited, q.userIdentifier)
    requires p.Named() && q.Named() && p.userIdentifier !in inherited
    requires ':' !in p.mutator.Identifier() && ':' !in q.mutator.Identifier()
    ensures p.userIdentifier in env <==> SameMutant(p, q)
  {
    if p.userIdentifier == q.userIdentifier {
      IdentifierInjective(p.mutator.Identifier(), p.file, p.line, p.column,
                          q.mutator.Identifier(), q.file, q.line, q.column);
    }
  }

  lemma {:induction false} LastOfIsLastEnabled(env: map<string, string>, points: seq<Point>, q: Point, j: nat)
    requires j <= |points| && forall p | p in points :: p.userIdentifier in env <==> SameMutant(p, q)
    ensures LastEnabled(env, points, j) == LastOf(points, q, j)
  {
    if j > 0 {
      LastOfIsLastEnabled(env, points, q, j - 1);
      assert points[j - 1] in points;
    }
  }

  lemma FirstOrderIsReference(src: seq<Function>, plan: Plan, env: map<string, string>,
                              inherited: map<string, string>, q: Point)
    requires Adds(env, inherited, q.userIdentifier)
    requires AllNamed(plan) && SeparatorFree(plan) && CleanEnvironment(plan, inherited)
    requires q.Named() && ':' !in q.mutator.Identifier()
    ensures Reference(env, src, plan) == FirstOrder(src, plan, q)
  {
    forall f | 0 <= f < |src|
      ensures Reference(env, src, plan)[f] == FirstOrder(src, plan, q)[f]
    {
      var points := plan.Of(f);
      forall p | p in points ensures p.userIdentifier in env <==> SameMutant(p, q) {
        assert p in plan.points[f] && p.Named();
        EnabledIsSame(env, inherited, p, q);
      }
      LastOfIsLastEnabled(env, points, q, |points|);
    }
  }

  /** The run for one mutant behaves as the source program with that mutant written out. */
  lemma MutantRunIsFirstOrder(m: Machine, src: seq<Function>, plan: Plan, jobs: seq<Job>,
                              inherited: map<string, string>, q: Point,
                              f: FnId, args: seq<Value>, w: World, o: Outcome)
    requires Transformable(src, plan) && ValidJobs(src, plan, jobs) && SafeMachine(|src|, m)
    requires SeparatorFree(plan) && CleanEnvironment(plan, inherited) && q.Named() && ':' !in q.mutator.Identifier()
    requires Adds(m.env, inherited, q.userIdentifier)
    requires f < |src| && SafeArgs(|src|, args) && SafeWorld(|src|, w) && o != OutOfFuel
    ensures Ends(m, FirstOrder(src, plan, q), f, args, w, o) <==> Ends(m, Instrumented(src, plan, jobs), f, args, w, o)
  {
    FirstOrderIsReference(src, plan, m.env, inherited, q);
    WholeProgramCorrect(m, src, plan, jobs, f, args, w, o);
  }
}
