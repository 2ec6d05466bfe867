/** lib/Driver.cpp, prepareMutations: the phases in their order, on one module. */
module Drivers {
  import opened IR
  import opened Modules
  import opened Rewriting
  import opened Points
  import opened Schemata
  import opened Bitcodes
  import WholeProgram

  /** Point k is the j-th point of function g, and was given that point's clone. */
  ghost predicate Placed(src: seq<Function>, order: seq<FnId>, groups: map<FnId, seq<MutationPoint>>, job: Job,
                         point: MutationPoint, g: nat, j: nat)
    requires forall h | 0 <= h < |order| :: order[h] < |src|
  {
    && g < |order| && j < |PointsIn(groups, order[g])|
    && PointsIn(groups, order[g])[j] == point
    && job.point == point.info
    && (point.info.covered ==>
          j <= |PlanFor(order, groups).At(g)| && job.clone == CloneId(src, PlanFor(order, groups), g, j))
  }

  function JobsOf(points: seq<MutationPoint>): seq<Job>
    reads points
  {
    seq(|points|, k requires 0 <= k < |points| reads points =>
      Job(points[k].info, if points[k].mutatedFunction.Some? then points[k].mutatedFunction.value else 0))
  }

  /** What cloning leaves behind: every covered point knows its clone. */
  ghost predicate Cloned(src: seq<Function>, order: seq<FnId>, points: seq<MutationPoint>,
                         groups: map<FnId, seq<MutationPoint>>)
    reads Objects(groups)
  {
    && Distinct(points) && Groups(points, groups) && ValidPlan(src, PlanFor(order, groups))
    && (forall k | 0 <= k < |points| :: points[k].info.owner in order)
    && forall h | 0 <= h < |order| :: ReachedGroup(src, order, groups, h)
  }

  ghost predicate ReachedGroup(src: seq<Function>, order: seq<FnId>, groups: map<FnId, seq<MutationPoint>>, h: nat)
    requires h < |order| && forall i | 0 <= i < |order| :: order[i] < |src|
    reads Objects(groups)
  {
    assert forall p | p in PointsIn(groups, order[h]) :: p in Objects(groups);
    Reached(src, order, groups, h)
  }

  lemma Place(src: seq<Function>, order: seq<FnId>, points: seq<MutationPoint>, groups: map<FnId, seq<MutationPoint>>,
              k: nat)
    returns (g: nat, j: nat)
    requires Cloned(src, order, points, groups) && k < |points|
    ensures Placed(src, order, groups, JobsOf(points)[k], points[k], g, j)
    ensures points[k].info.covered ==> points[k].mutatedFunction.Some?
  {
    g :| 0 <= g < |order| && order[g] == points[k].info.owner;
    var group := PointsIn(groups, order[g]);
    assert points[k] in points;
    j :| 0 <= j < |group| && group[j] == points[k];
    assert ReachedGroup(src, order, groups, g);
    AssignedAt(CloneAll(src, PlanFor(order, groups), g), order[g], Infos(group), Marks(group), |group|, j);
    assert Infos(group)[j] == points[k].info && Marks(group)[j] == points[k].mutatedFunction;
  }

  /** Different points are in different places. */
  lemma PlacesDiffer(src: seq<Function>, order: seq<FnId>, groups: map<FnId, seq<MutationPoint>>,
                     job: Job, point: MutationPoint, g: nat, j: nat, job': Job, point': MutationPoint, g': nat, j': nat)
    requires forall h | 0 <= h < |order| :: order[h] < |src|
    requires Placed(src, order, groups, job, point, g, j) && Placed(src, order, groups, job', point', g', j')
    requires point != point' && point.info.covered && point'.info.covered
    ensures job.clone != job'.clone
  {
    var plan := PlanFor(order, groups);
    assert plan.At(g) == Infos(PointsIn(groups, order[g])) && plan.At(g') == Infos(PointsIn(groups, order[g']));
    if g < g' || (g == g' && j < j') {
      CloneIdsDiffer(src, plan, g, j, g', j');
    } else {
      CloneIdsDiffer(src, plan, g', j', g, j);
    }
  }

  /** What cloning leaves behind is a complete list of jobs. */
  lemma JobsAreValid(src: seq<Function>, order: seq<FnId>, points: seq<MutationPoint>,
                     groups: map<FnId, seq<MutationPoint>>)
    requires Cloned(src, order, points, groups)
    ensures ValidJobs(src, PlanFor(order, groups), JobsOf(points)) && Follows(points, JobsOf(points))
  {
    var plan := PlanFor(order, groups);
    var jobs := JobsOf(points);
    forall k | 0 <= k < |jobs|
      ensures jobs[k].point.covered ==> exists g, j :: JobFor(src, plan, jobs[k], g, j)
      ensures points[k].info.covered ==> points[k].mutatedFunction == Some(jobs[k].clone)
    {
      var g, j := Place(src, order, points, groups, k);
      assert points[k].info.covered ==> JobFor(src, plan, jobs[k], g, j);
    }
    forall g, j | 0 <= g < |plan.order| && 0 <= j < |plan.At(g)| && plan.At(g)[j].covered
      ensures exists k | 0 <= k < |jobs| :: JobFor(src, plan, jobs[k], g, j)
    {
      var group := PointsIn(groups, order[g]);
      assert ReachedGroup(src, order, groups, g) && group[j] in points;
      var k :| 0 <= k < |points| && points[k] == group[j];
      AssignedAt(CloneAll(src, plan, g), order[g], Infos(group), Marks(group), |group|, j);
      assert Infos(group)[j] == points[k].info && Marks(group)[j] == points[k].mutatedFunction;
      assert JobFor(src, plan, jobs[k], g, j);
    }
    forall k, l | 0 <= k < l < |jobs| && jobs[k].point.covered && jobs[l].point.covered
      ensures jobs[k].clone != jobs[l].clone
    {
      var g, j := Place(src, order, points, groups, k);
      var g', j' := Place(src, order, points, groups, l);
      PlacesDiffer(src, order, groups, jobs[k], points[k], g, j, jobs[l], points[l], g', j');
    }
  }

  /** Every covered clone is still the body its mutator accepts. */
  lemma JobsCanBeDone(src: seq<Function>, plan: Plan, jobs: seq<Job>)
    requires ValidPlan(src, plan) && ValidJobs(src, plan, jobs)
    requires forall f: FnId | f < |src| :: InRange(src[f].body)
    ensures AllCanDo(Prepared(src, plan), jobs)
  {
    forall k | 0 <= k < |jobs| && jobs[k].point.covered
      ensures CanDo(Prepared(src, plan), jobs[k])
    {
      var g: nat, j: nat :| JobFor(src, plan, jobs[k], g, j);
      CloneIsCopy(src, plan, g, j);
      WholeProgram.PreparedOther(src, plan, jobs[k].clone);
      assert plan.At(g)[j] in plan.points[plan.order[g]];
      assert Prepared(src, plan)[jobs[k].clone].body == src[plan.order[g]].body;
    }
  }

  /** After deleting, exactly the functions with covered points are empty and wait to be rebuilt. */
  lemma ReadyForTrampolines(src: seq<Function>, order: seq<FnId>, groups: map<FnId, seq<MutationPoint>>)
    requires ValidPlan(src, PlanFor(order, groups))
    ensures var plan := PlanFor(order, groups);
            var now := CloneAll(src, plan, |order|);
            && |src| <= |now|
            && forall g | 0 <= g < |order| && HasCovered(Infos(PointsIn(groups, order[g]))) ::
                 DeleteAll(now, plan, |order|)[order[g]].body == []
  {
    var plan := PlanFor(order, groups);
    var now := CloneAll(src, plan, |order|);
    forall g | 0 <= g < |order| && HasCovered(Infos(PointsIn(groups, order[g])))
      ensures DeleteAll(now, plan, |order|)[order[g]].body == []
    {
      DeletedBody(now, plan, |order|, g);
    }
  }

  /** The preparation; a dry run does nothing. */
  method PrepareMutations(bitcode: Bitcode, points: seq<MutationPoint>, dryRun: bool)
    requires bitcode.mutationPoints == map[] && bitcode.section == "" && Distinct(points)
    requires forall k | 0 <= k < |points| :: points[k].info.owner in bitcode.order
    requires ValidPlan(bitcode.mod.functions, PlanFor(bitcode.order, Grouped(points, |points|)))
    requires forall f: FnId | f < |bitcode.mod.functions| :: InRange(bitcode.mod.functions[f].body)
    modifies bitcode, bitcode.mod, points
    ensures dryRun ==> bitcode.mod.functions == old(bitcode.mod.functions) && bitcode.section == old(bitcode.section)
    ensures !dryRun ==>
              var plan := PlanFor(bitcode.order, Grouped(points, |points|));
              && ValidJobs(old(bitcode.mod.functions), plan, JobsOf(points))
              && bitcode.mod.functions == Instrumented(old(bitcode.mod.functions), plan, JobsOf(points))
              && bitcode.section == Section(points, |points|)
  {
    if dryRun {
      return;
    }
    ghost var src := bitcode.mod.functions;
    for k := 0 to |points|
      invariant bitcode.mutationPoints == Grouped(points, k) && bitcode.section == ""
      invariant bitcode.mod.functions == src
    {
      bitcode.AddMutation(points[k]);
    }
    var groups := bitcode.mutationPoints;
    GroupedFacts(points, |points|);
    assert points[..|points|] == points;
    RunPhases(bitcode, points, groups);
  }

  method RunPhases(bitcode: Bitcode, points: seq<MutationPoint>, groups: map<FnId, seq<MutationPoint>>)
    requires Groups(points, groups) && bitcode.section == "" && Distinct(points)
    requires forall k | 0 <= k < |points| :: points[k].info.owner in bitcode.order
    requires ValidPlan(bitcode.mod.functions, PlanFor(bitcode.order, groups))
    requires forall f: FnId | f < |bitcode.mod.functions| :: InRange(bitcode.mod.functions[f].body)
    modifies bitcode`section, bitcode.mod, points
    ensures ValidJobs(old(bitcode.mod.functions), PlanFor(bitcode.order, groups), JobsOf(points))
    ensures bitcode.mod.functions
         == Instrumented(old(bitcode.mod.functions), PlanFor(bitcode.order, groups), JobsOf(points))
    ensures bitcode.section == Section(points, |points|)
  {
    ghost var src := bitcode.mod.functions;
    CloneDeleteInsert(bitcode.mod, bitcode.order, groups, points);
    JobsAreValid(src, bitcode.order, points, groups);
    JobsCanBeDone(src, PlanFor(bitcode.order, groups), JobsOf(points));
    bitcode.ApplyMutations(points, JobsOf(points));
  }

  method DeleteAndInsert(mod: Module, order: seq<FnId>, groups: map<FnId, seq<MutationPoint>>, ghost src: seq<Function>)
    requires ValidPlan(src, PlanFor(order, groups)) && ValidGroups(order, groups)
    requires mod.functions == CloneAll(src, PlanFor(order, groups), |order|)
    requires forall g | 0 <= g < |order| :: Reached(src, order, groups, g)
    modifies mod
    ensures mod.functions == Prepared(src, PlanFor(order, groups))
  {
    ReadyForTrampolines(src, order, groups);
    DeleteFunctions(mod, order, groups);
    InsertTrampolines(mod, order, groups, src);
  }

  method CloneDeleteInsert(mod: Module, order: seq<FnId>, groups: map<FnId, seq<MutationPoint>>,
                           points: seq<MutationPoint>)
    requires Groups(points, groups) && Distinct(points)
    requires ValidPlan(mod.functions, PlanFor(order, groups))
    requires forall k | 0 <= k < |points| :: points[k].info.owner in order
    modifies mod, points
    ensures mod.functions == Prepared(old(mod.functions), PlanFor(order, groups))
    ensures Cloned(old(mod.functions), order, points, groups)
  {
    ghost var src := mod.functions;
    assert ValidGroups(order, groups) && forall p | p in Objects(groups) :: p in points;
    CloneFunctions(mod, order, groups);
    assert forall h | 0 <= h < |order| :: ReachedGroup(src, order, groups, h);
    assert Cloned(src, order, points, groups);
    DeleteAndInsert(mod, order, groups, src);
  }
}
