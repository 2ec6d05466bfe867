/**
 The four phases that put all mutants of a module into one program, as functions of the
 source module and of the mutation points: clone, delete, insert trampolines, apply.
 */
module Schemata {
  import opened IR
  import opened Trampoline
  import opened Modules
  import opened Points
  import opened Text

  /** The points of each function, and the order in which the map of functions is walked. */
  datatype Plan = Plan(order: seq<FnId>, points: map<FnId, seq<Point>>) {
    function Of(f: FnId): seq<Point> {
      if f in points then points[f] else []
    }

    function At(g: nat): seq<Point>
      requires g < |order|
    {
      Of(order[g])
    }
  }

  predicate HasCovered(points: seq<Point>) {
    exists i | 0 <= i < |points| :: points[i].covered
  }

  function OriginalName(name: string): string {
    "mull_" + name + "_original"
  }

  /** What the functions of a module must satisfy for the phases to run on it. */
  ghost predicate ValidPlan(src: seq<Function>, plan: Plan) {
    && (forall g | 0 <= g < |plan.order| :: plan.order[g] < |src|)
    && (forall g, h | 0 <= g < h < |plan.order| :: plan.order[g] != plan.order[h])
    && (forall f | f in plan.points :: f in plan.order)
    && AllNamed(plan)
    && (forall f, p | f in plan.points && p in plan.points[f] && p.covered ::
          f < |src| && src[f].body != [] && CanApply(p.mutator, src[f].body, p.address))
  }

  // --- Clone: one copy per covered point, named after the point.

  function CloneGroup(now: seq<Function>, f: FnId, points: seq<Point>, j: nat): (r: seq<Function>)
    requires f < |now| && j <= |points|
    ensures |now| <= |r|
  {
    if j == 0 then now
    else
      var before := CloneGroup(now, f, points, j - 1);
      if points[j - 1].covered then before + [Cloned(before, f, points[j - 1].userIdentifier, true)] else before
  }

  function CloneAll(src: seq<Function>, plan: Plan, g: nat): (r: seq<Function>)
    requires g <= |plan.order| && forall h | 0 <= h < g :: plan.order[h] < |src|
    ensures |src| <= |r|
  {
    if g == 0 then src
    else CloneGroup(CloneAll(src, plan, g - 1), plan.order[g - 1], plan.At(g - 1), |plan.At(g - 1)|)
  }

  /** The position of the clone made for point j of function g: where the module then ended. */
  function CloneId(src: seq<Function>, plan: Plan, g: nat, j: nat): FnId
    requires g < |plan.order| && j <= |plan.At(g)| && forall h | 0 <= h <= g :: plan.order[h] < |src|
  {
    |CloneGroup(CloneAll(src, plan, g), plan.order[g], plan.At(g), j)|
  }

  // --- Delete: keep a copy of the original body and empty the function.

  function DeleteOne(now: seq<Function>, f: FnId, points: seq<Point>): (r: seq<Function>)
    requires f < |now|
    ensures |now| <= |r|
  {
    if HasCovered(points) then
      (now + [Cloned(now, f, OriginalName(now[f].name), now[f].internal)])[f := now[f].(body := [])]
    else now
  }

  function DeleteAll(now: seq<Function>, plan: Plan, g: nat): (r: seq<Function>)
    requires g <= |plan.order| && forall h | 0 <= h < g :: plan.order[h] < |now|
    ensures |now| <= |r|
  {
    if g == 0 then now
    else DeleteOne(DeleteAll(now, plan, g - 1), plan.order[g - 1], plan.At(g - 1))
  }

  // --- Insert: rebuild the emptied functions as trampolines.

  function ChoicesOf(src: seq<Function>, plan: Plan, g: nat, j: nat): seq<Choice>
    requires g < |plan.order| && j <= |plan.At(g)| && forall h | 0 <= h <= g :: plan.order[h] < |src|
  {
    if j == 0 then []
    else
      var before := ChoicesOf(src, plan, g, j - 1);
      if plan.At(g)[j - 1].covered
      then before + [Choice(plan.At(g)[j - 1].userIdentifier, CloneId(src, plan, g, j - 1))]
      else before
  }

  function CopyOperand(now: seq<Function>, f: FnId): Operand
    requires f < |now|
  {
    match Lookup(now, OriginalName(now[f].name))
    case Some(copy) => FnRef(copy)
    case None => NullPtr
  }

  function InsertOne(now: seq<Function>, f: FnId, points: seq<Point>, choices: seq<Choice>): (r: seq<Function>)
    requires f < |now|
    ensures |now| == |r|
  {
    if HasCovered(points) then
      now[f := now[f].(body := Build(now[f].isVoid, now[f].arity, CopyOperand(now, f), choices))]
    else now
  }

  function InsertAll(src: seq<Function>, now: seq<Function>, plan: Plan, g: nat): (r: seq<Function>)
    requires g <= |plan.order| && |src| <= |now| && forall h | 0 <= h < |plan.order| :: plan.order[h] < |src|
    ensures |now| == |r|
  {
    if g == 0 then now
    else InsertOne(InsertAll(src, now, plan, g - 1), plan.order[g - 1], plan.At(g - 1),
      ChoicesOf(src, plan, g - 1, |plan.At(g - 1)|))
  }

  // --- Apply: mutate each clone, in the order of the list of points.

  datatype Job = Job(point: Point, clone: FnId)

  function ApplyOne(now: seq<Function>, job: Job): (r: seq<Function>)
    ensures |r| == |now|
  {
    if job.point.covered && job.clone < |now|
    then now[job.clone := now[job.clone].(body := Mutant(job.point, now[job.clone].body))]
    else now
  }

  function ApplyAll(now: seq<Function>, jobs: seq<Job>, k: nat): (r: seq<Function>)
    requires k <= |jobs|
    ensures |r| == |now|
  {
    if k == 0 then now else ApplyOne(ApplyAll(now, jobs, k - 1), jobs[k - 1])
  }

  /** The module before any mutation is applied. */
  function Prepared(src: seq<Function>, plan: Plan): (r: seq<Function>)
    requires forall h | 0 <= h < |plan.order| :: plan.order[h] < |src|
    ensures |src| <= |r|
  {
    var n := |plan.order|;
    InsertAll(src, DeleteAll(CloneAll(src, plan, n), plan, n), plan, n)
  }

  function Instrumented(src: seq<Function>, plan: Plan, jobs: seq<Job>): seq<Function>
    requires forall h | 0 <= h < |plan.order| :: plan.order[h] < |src|
  {
    ApplyAll(Prepared(src, plan), jobs, |jobs|)
  }

  /** Every job on a covered point names the clone of some point of the plan. */
  ghost predicate JobsArePlaced(src: seq<Function>, plan: Plan, jobs: seq<Job>)
    requires ValidPlan(src, plan)
  {
    forall k | 0 <= k < |jobs| && jobs[k].point.covered :: exists g, j :: JobFor(src, plan, jobs[k], g, j)
  }

  /** Every covered point of the plan has a job. */
  ghost predicate PointsHaveJobs(src: seq<Function>, plan: Plan, jobs: seq<Job>)
    requires ValidPlan(src, plan)
  {
    forall g, j | 0 <= g < |plan.order| && 0 <= j < |plan.At(g)| && plan.At(g)[j].covered ::
      exists k | 0 <= k < |jobs| :: JobFor(src, plan, jobs[k], g, j)
  }

  ghost predicate DistinctClones(jobs: seq<Job>) {
    forall i, j | 0 <= i < j < |jobs| && jobs[i].point.covered && jobs[j].point.covered ::
      jobs[i].clone != jobs[j].clone
  }

  /** Every covered point is mutated once, in its own clone. */
  ghost predicate ValidJobs(src: seq<Function>, plan: Plan, jobs: seq<Job>)
    requires ValidPlan(src, plan)
  {
    JobsArePlaced(src, plan, jobs) && PointsHaveJobs(src, plan, jobs) && DistinctClones(jobs)
  }

  ghost predicate JobFor(src: seq<Function>, plan: Plan, job: Job, g: nat, j: nat)
    requires ValidPlan(src, plan)
  {
    && g < |plan.order| && j < |plan.At(g)|
    && job.point == plan.At(g)[j]
    && job.clone == CloneId(src, plan, g, j)
  }

  // --- What the phases achieve, one at a time.

  /** How the name of a clone ends; the name of an original copy never ends so. */
  predicate EndsLikeClone(name: string) {
    name != "" && (IsDigit(name[|name| - 1]) || name[|name| - 1] == '.')
  }

  lemma AppendUnique(now: seq<Function>, f: FnId, wanted: string, internal: bool)
    requires f < |now| && DistinctNames(now)
    ensures DistinctNames(now + [Cloned(now, f, wanted, internal)])
  {
    var c := Cloned(now, f, wanted, internal);
    UniqueNameIsFresh(now, wanted);
    forall i | 0 <= i < |now| ensures now[i].name != c.name {
      assert now[i] in now;
    }
  }

  /** Cloning only appends, and what it appends are copies. */
  lemma {:induction false} CloneGroupAppends(now: seq<Function>, f: FnId, points: seq<Point>, j: nat)
    requires f < |now| && j <= |points|
    ensures now <= CloneGroup(now, f, points, j)
  {
    if j > 0 {
      CloneGroupAppends(now, f, points, j - 1);
    }
  }

  lemma {:induction false} CloneGroupNames(now: seq<Function>, f: FnId, points: seq<Point>, j: nat)
    requires f < |now| && j <= |points|
    ensures DistinctNames(now) ==> DistinctNames(CloneGroup(now, f, points, j))
  {
    if j > 0 {
      CloneGroupNames(now, f, points, j - 1);
      if DistinctNames(now) && points[j - 1].covered {
        AppendUnique(CloneGroup(now, f, points, j - 1), f, points[j - 1].userIdentifier, true);
      }
    }
  }

  lemma CloneName(now: seq<Function>, p: Point)
    requires p.Named()
    ensures EndsLikeClone(UniqueName(now, p.userIdentifier))
  {}

  ghost predicate PointsNamed(points: seq<Point>) {
    forall k | 0 <= k < |points| :: points[k].Named()
  }

  /** Whatever holds of every name that a point can give holds of the names of all clones. */
  lemma {:induction false} CloneGroupNaming(now: seq<Function>, f: FnId, points: seq<Point>, j: nat, i: FnId,
                                            good: string -> bool)
    requires f < |now| && j <= |points|
    requires forall now', k | 0 <= k < |points| :: good(UniqueName(now', points[k].userIdentifier))
    requires |now| <= i < |CloneGroup(now, f, points, j)|
    ensures good(CloneGroup(now, f, points, j)[i].name)
  {
    if j > 0 && i < |CloneGroup(now, f, points, j - 1)| {
      CloneGroupNaming(now, f, points, j - 1, i, good);
    }
  }

  lemma CloneGroupEndings(now: seq<Function>, f: FnId, points: seq<Point>, j: nat, i: FnId)
    requires f < |now| && j <= |points| && PointsNamed(points)
    requires |now| <= i < |CloneGroup(now, f, points, j)|
    ensures EndsLikeClone(CloneGroup(now, f, points, j)[i].name)
  {
    var good := s => EndsLikeClone(s);
    forall now', k | 0 <= k < |points| ensures good(UniqueName(now', points[k].userIdentifier)) {
      CloneName(now', points[k]);
    }
    CloneGroupNaming(now, f, points, j, i, good);
  }

  lemma {:induction false} CloneGroupPrefix(now: seq<Function>, f: FnId, points: seq<Point>, i: nat, j: nat)
    requires f < |now| && i <= j <= |points|
    ensures CloneGroup(now, f, points, i) <= CloneGroup(now, f, points, j)
    decreases j
  {
    if i < j {
      CloneGroupPrefix(now, f, points, i, j - 1);
    }
  }

  ghost predicate AllNamed(plan: Plan) {
    forall f, p | f in plan.points && p in plan.points[f] :: p.Named()
  }

  lemma {:induction false} CloneAllFacts(src: seq<Function>, plan: Plan, g: nat)
    requires g <= |plan.order| && forall h | 0 <= h < g :: plan.order[h] < |src|
    ensures var r := CloneAll(src, plan, g);
            && src <= r
            && (DistinctNames(src) ==> DistinctNames(r))
  {
    if g > 0 {
      CloneAllFacts(src, plan, g - 1);
      CloneGroupAppends(CloneAll(src, plan, g - 1), plan.order[g - 1], plan.At(g - 1), |plan.At(g - 1)|);
      CloneGroupNames(CloneAll(src, plan, g - 1), plan.order[g - 1], plan.At(g - 1), |plan.At(g - 1)|);
    }
  }

  lemma {:induction false} CloneAllEndings(src: seq<Function>, plan: Plan, g: nat, i: FnId)
    requires g <= |plan.order| && forall h | 0 <= h < g :: plan.order[h] < |src|
    requires AllNamed(plan) && |src| <= i < |CloneAll(src, plan, g)|
    ensures EndsLikeClone(CloneAll(src, plan, g)[i].name)
  {
    var before := CloneAll(src, plan, g - 1);
    CloneGroupAppends(before, plan.order[g - 1], plan.At(g - 1), |plan.At(g - 1)|);
    if i < |before| {
      CloneAllEndings(src, plan, g - 1, i);
    } else {
      CloneGroupEndings(before, plan.order[g - 1], plan.At(g - 1), |plan.At(g - 1)|, i);
    }
  }

  lemma {:induction false} CloneAllPrefix(src: seq<Function>, plan: Plan, g: nat, h: nat)
    requires g <= h <= |plan.order| && forall i | 0 <= i < h :: plan.order[i] < |src|
    ensures CloneAll(src, plan, g) <= CloneAll(src, plan, h)
    decreases h
  {
    if g < h {
      CloneAllPrefix(src, plan, g, h - 1);
      CloneGroupAppends(CloneAll(src, plan, h - 1), plan.order[h - 1], plan.At(h - 1), |plan.At(h - 1)|);
    }
  }

  lemma CloneInGroup(now: seq<Function>, f: FnId, points: seq<Point>, j: nat)
    requires f < |now| && j < |points| && points[j].covered
    ensures var id := |CloneGroup(now, f, points, j)|;
            var r := CloneGroup(now, f, points, |points|);
            && id < |r|
            && r[id] == now[f].(name := UniqueName(r[..id], points[j].userIdentifier), internal := true)
  {
    CloneGroupAppends(now, f, points, j);
    CloneGroupPrefix(now, f, points, j + 1, |points|);
    var before := CloneGroup(now, f, points, j);
    assert before[f] == now[f];
    assert before == CloneGroup(now, f, points, |points|)[..|before|];
    assert CloneGroup(now, f, points, j + 1)[|before|] == Cloned(before, f, points[j].userIdentifier, true);
  }

  /** The clone of a covered point is a copy of its function, whatever is cloned later. */
  lemma CloneIsCopy(src: seq<Function>, plan: Plan, g: nat, j: nat)
    requires g < |plan.order| && forall i | 0 <= i < |plan.order| :: plan.order[i] < |src|
    requires j < |plan.At(g)| && plan.At(g)[j].covered
    ensures var id := CloneId(src, plan, g, j);
            var r := CloneAll(src, plan, |plan.order|);
            var f := src[plan.order[g]];
            && |src| <= id < |r|
            && r[id] == f.(name := UniqueName(r[..id], plan.At(g)[j].userIdentifier), internal := true)
  {
    CloneAllFacts(src, plan, g);
    CloneInGroup(CloneAll(src, plan, g), plan.order[g], plan.At(g), j);
    CloneAllPrefix(src, plan, g + 1, |plan.order|);
    var id := CloneId(src, plan, g, j);
    assert CloneAll(src, plan, |plan.order|)[..id] == CloneAll(src, plan, g + 1)[..id];
    assert CloneAll(src, plan, g)[plan.order[g]] == src[plan.order[g]];
  }

  lemma {:induction false} ClonesInGroup(now: seq<Function>, f: FnId, points: seq<Point>, j: nat, i: FnId)
    requires f < |now| && j <= |points| && |now| <= i < |CloneGroup(now, f, points, j)|
    ensures exists k | 0 <= k < j :: points[k].covered && i == |CloneGroup(now, f, points, k)|
  {
    if i < |CloneGroup(now, f, points, j - 1)| {
      ClonesInGroup(now, f, points, j - 1, i);
    } else {
      assert points[j - 1].covered && i == |CloneGroup(now, f, points, j - 1)|;
    }
  }

  /** Every function that cloning adds is the clone for some covered point. */
  lemma {:induction false} ClonesAreOfPoints(src: seq<Function>, plan: Plan, n: nat, i: FnId)
    requires n <= |plan.order| && forall h | 0 <= h < |plan.order| :: plan.order[h] < |src|
    requires |src| <= i < |CloneAll(src, plan, n)|
    ensures exists g, j | 0 <= g < n && 0 <= j < |plan.At(g)| :: plan.At(g)[j].covered && i == CloneId(src, plan, g, j)
  {
    var before := CloneAll(src, plan, n - 1);
    if i < |before| {
      ClonesAreOfPoints(src, plan, n - 1, i);
    } else {
      ClonesInGroup(before, plan.order[n - 1], plan.At(n - 1), |plan.At(n - 1)|, i);
    }
  }

  /** Clone positions grow along the walk, so no two covered points share a clone. */
  lemma CloneIdsDiffer(src: seq<Function>, plan: Plan, g: nat, j: nat, g': nat, j': nat)
    requires g < |plan.order| && g' < |plan.order| && forall i | 0 <= i < |plan.order| :: plan.order[i] < |src|
    requires j < |plan.At(g)| && plan.At(g)[j].covered && j' < |plan.At(g')| && plan.At(g')[j'].covered
    requires g < g' || (g == g' && j < j')
    ensures CloneId(src, plan, g, j) < CloneId(src, plan, g', j')
  {
    var now := CloneAll(src, plan, g);
    if g == g' {
      CloneGroupPrefix(now, plan.order[g], plan.At(g), j + 1, j');
    } else {
      CloneGroupPrefix(now, plan.order[g], plan.At(g), j + 1, |plan.At(g)|);
      CloneAllPrefix(src, plan, g + 1, g');
    }
  }

  /** Where the copy of the original body of function g goes. */
  function CopyId(now: seq<Function>, plan: Plan, g: nat): FnId
    requires g < |plan.order| && forall h | 0 <= h < g :: plan.order[h] < |now|
  {
    |DeleteAll(now, plan, g)|
  }

  /** A body is emptied exactly when it has a covered point. */
  lemma {:induction false} DeletedBody(now: seq<Function>, plan: Plan, k: nat, g: nat)
    requires k <= |plan.order| && forall h | 0 <= h < |plan.order| :: plan.order[h] < |now|
    requires forall g, h | 0 <= g < h < |plan.order| :: plan.order[g] != plan.order[h]
    requires g < |plan.order|
    ensures DeleteAll(now, plan, k)[plan.order[g]]
         == if g < k && HasCovered(plan.At(g)) then now[plan.order[g]].(body := []) else now[plan.order[g]]
  {
    if k > 0 {
      DeletedBody(now, plan, k - 1, g);
    }
  }

  lemma {:induction false} UndeletedBody(now: seq<Function>, plan: Plan, k: nat, i: FnId)
    requires k <= |plan.order| && forall h | 0 <= h < |plan.order| :: plan.order[h] < |now|
    requires i < |now| && i !in plan.order
    ensures DeleteAll(now, plan, k)[i] == now[i]
  {
    if k > 0 {
      UndeletedBody(now, plan, k - 1, i);
    }
  }

  lemma {:induction false} DeleteKeepsNamesDistinct(now: seq<Function>, plan: Plan, k: nat)
    requires k <= |plan.order| && forall h | 0 <= h < |plan.order| :: plan.order[h] < |now|
    requires DistinctNames(now)
    ensures DistinctNames(DeleteAll(now, plan, k))
  {
    if k > 0 {
      DeleteKeepsNamesDistinct(now, plan, k - 1);
      var before := DeleteAll(now, plan, k - 1);
      var f := plan.order[k - 1];
      AppendUnique(before, f, OriginalName(before[f].name), before[f].internal);
    }
  }

  /** The copy kept by one deletion is untouched by the later ones. */
  lemma {:induction false} KeptCopies(now: seq<Function>, plan: Plan, k: nat, g: nat)
    requires k <= |plan.order| && forall h | 0 <= h < |plan.order| :: plan.order[h] < |now|
    requires forall g, h | 0 <= g < h < |plan.order| :: plan.order[g] != plan.order[h]
    requires g < k && HasCovered(plan.At(g))
    ensures var r := DeleteAll(now, plan, k);
            var c := CopyId(now, plan, g);
            && |now| <= c < |r|
            && var name := UniqueName(DeleteAll(now, plan, g), OriginalName(now[plan.order[g]].name));
               r[c] == now[plan.order[g]].(name := name)
    decreases k
  {
    var before := DeleteAll(now, plan, k - 1);
    if g < k - 1 {
      KeptCopies(now, plan, k - 1, g);
      assert DeleteOne(before, plan.order[k - 1], plan.At(k - 1))[CopyId(now, plan, g)] == before[CopyId(now, plan, g)];
    } else {
      DeletedBody(now, plan, g, g);
    }
  }

  /** No function of the source has the name that the copy of a mutated function will get. */
  ghost predicate FreshCopies(src: seq<Function>, plan: Plan)
    requires ValidPlan(src, plan)
  {
    forall g | 0 <= g < |plan.order| && HasCovered(plan.At(g)) :: !Taken(src, OriginalName(src[plan.order[g]].name))
  }

  lemma OriginalNameFacts(a: string, b: string)
    ensures OriginalName(a) == OriginalName(b) ==> a == b
    ensures !EndsLikeClone(OriginalName(a))
  {
    assert OriginalName(a)[5..|OriginalName(a)| - 9] == a;
    assert OriginalName(b)[5..|OriginalName(b)| - 9] == b;
  }

  /** Every function past the clones is the copy for some function with a covered point. */
  lemma {:induction false} CopiesAreOriginals(now: seq<Function>, plan: Plan, k: nat, i: FnId)
    requires k <= |plan.order| && forall h | 0 <= h < |plan.order| :: plan.order[h] < |now|
    requires |now| <= i < |DeleteAll(now, plan, k)|
    ensures exists g | 0 <= g < k :: HasCovered(plan.At(g)) && i == CopyId(now, plan, g)
  {
    if i >= |DeleteAll(now, plan, k - 1)| {
      assert HasCovered(plan.At(k - 1)) && i == CopyId(now, plan, k - 1);
    } else {
      CopiesAreOriginals(now, plan, k - 1, i);
    }
  }

  lemma CopyNamesDiffer(now: seq<Function>, a: string, b: string)
    requires a != b
    ensures UniqueName(now, OriginalName(a)) != OriginalName(b)
  {
    OriginalNameFacts(b, a);
    OriginalNameFacts(a, b);
    var name := UniqueName(now, OriginalName(a));
    assert name == OriginalName(a) || name[|name| - 1] == '.';
  }

  /** If its name was free in the source, it is still free when the copy is named. */
  lemma CopyNameIsFree(src: seq<Function>, plan: Plan, k: nat)
    requires ValidPlan(src, plan) && DistinctNames(src) && k < |plan.order|
    requires !Taken(src, OriginalName(src[plan.order[k]].name))
    ensures !Taken(DeleteAll(CloneAll(src, plan, |plan.order|), plan, k), OriginalName(src[plan.order[k]].name))
  {
    var now := CloneAll(src, plan, |plan.order|);
    var before := DeleteAll(now, plan, k);
    var wanted := OriginalName(src[plan.order[k]].name);
    CloneAllFacts(src, plan, |plan.order|);
    OriginalNameFacts(src[plan.order[k]].name, "");
    forall i | 0 <= i < |before| ensures before[i].name != wanted {
      if i >= |now| {
        CopiesAreOriginals(now, plan, k, i);
        var g :| 0 <= g < k && HasCovered(plan.At(g)) && i == CopyId(now, plan, g);
        KeptCopies(now, plan, k, g);
        assert now[plan.order[g]] == src[plan.order[g]];
        CopyNamesDiffer(DeleteAll(now, plan, g), src[plan.order[g]].name, src[plan.order[k]].name);
      } else {
        DeletedName(now, plan, k, i);
        if i < |src| {
          assert now[i] == src[i] && src[i] in src;
        } else {
          CloneAllEndings(src, plan, |plan.order|, i);
        }
      }
    }
  }

  lemma DeletedName(now: seq<Function>, plan: Plan, k: nat, i: FnId)
    requires k <= |plan.order| && forall h | 0 <= h < |plan.order| :: plan.order[h] < |now|
    requires forall g, h | 0 <= g < h < |plan.order| :: plan.order[g] != plan.order[h]
    requires i < |now|
    ensures DeleteAll(now, plan, k)[i].name == now[i].name
  {
    if i in plan.order {
      var g :| 0 <= g < |plan.order| && plan.order[g] == i;
      DeletedBody(now, plan, k, g);
    } else {
      UndeletedBody(now, plan, k, i);
    }
  }

  /** Looking up the name of the kept copy leads to it exactly when the source did not use that name. */
  lemma CopyIsFound(src: seq<Function>, plan: Plan, g: nat)
    requires ValidPlan(src, plan) && DistinctNames(src) && g < |plan.order| && HasCovered(plan.At(g))
    ensures var now := CloneAll(src, plan, |plan.order|);
            var wanted := OriginalName(src[plan.order[g]].name);
            && |src| <= |now|
            && (Lookup(DeleteAll(now, plan, |plan.order|), wanted) == Some(CopyId(now, plan, g))
              <==> !Taken(src, wanted))
  {
    var now := CloneAll(src, plan, |plan.order|);
    var r := DeleteAll(now, plan, |plan.order|);
    var wanted := OriginalName(src[plan.order[g]].name);
    CloneAllFacts(src, plan, |plan.order|);
    DeleteKeepsNamesDistinct(now, plan, |plan.order|);
    KeptCopies(now, plan, |plan.order|, g);
    if Taken(src, wanted) {
      var f :| f in src && f.name == wanted;
      var i :| 0 <= i < |src| && src[i] == f;
      DeletedName(now, plan, |plan.order|, i);
      assert now[i] == src[i];
      LookupFinds(r, i);
    } else {
      CopyNameIsFree(src, plan, g);
      assert now[plan.order[g]] == src[plan.order[g]];
      LookupFinds(r, CopyId(now, plan, g));
    }
  }

  lemma {:induction false} InsertKeepsNames(src: seq<Function>, now: seq<Function>, plan: Plan, k: nat)
    requires k <= |plan.order| && |src| <= |now| && forall h | 0 <= h < |plan.order| :: plan.order[h] < |src|
    ensures forall i | 0 <= i < |now| :: InsertAll(src, now, plan, k)[i].name == now[i].name
  {
    if k > 0 {
      InsertKeepsNames(src, now, plan, k - 1);
    }
  }

  lemma {:induction false} InsertedBody(src: seq<Function>, now: seq<Function>, plan: Plan, k: nat, g: nat)
    requires k <= |plan.order| && |src| <= |now| && forall h | 0 <= h < |plan.order| :: plan.order[h] < |src|
    requires forall g, h | 0 <= g < h < |plan.order| :: plan.order[g] != plan.order[h]
    requires g < |plan.order|
    ensures var f := plan.order[g];
            InsertAll(src, now, plan, k)[f]
            == if g < k && HasCovered(plan.At(g))
               then now[f].(body := Build(now[f].isVoid, now[f].arity, CopyOperand(now, f),
                 ChoicesOf(src, plan, g, |plan.At(g)|)))
               else now[f]
  {
    if k > 0 {
      InsertedBody(src, now, plan, k - 1, g);
      if g == k - 1 {
        InsertKeepsNames(src, now, plan, g);
        SameLookup(InsertAll(src, now, plan, g), now, OriginalName(now[plan.order[g]].name));
      }
    }
  }

  lemma {:induction false} UninsertedBody(src: seq<Function>, now: seq<Function>, plan: Plan, k: nat, i: FnId)
    requires k <= |plan.order| && |src| <= |now| && forall h | 0 <= h < |plan.order| :: plan.order[h] < |src|
    requires i < |now| && i !in plan.order
    ensures InsertAll(src, now, plan, k)[i] == now[i]
  {
    if k > 0 {
      UninsertedBody(src, now, plan, k - 1, i);
    }
  }

  lemma {:induction false} SameLookup(a: seq<Function>, b: seq<Function>, name: string)
    requires |a| == |b| && forall i | 0 <= i < |a| :: a[i].name == b[i].name
    ensures Lookup(a, name) == Lookup(b, name)
  {
    if a != [] {
      SameLookup(a[1..], b[1..], name);
    }
  }

  lemma {:induction false} ApplyAllFacts(now: seq<Function>, jobs: seq<Job>, k: nat)
    requires k <= |jobs|
    requires forall j | 0 <= j < |jobs| && jobs[j].point.covered :: jobs[j].clone < |now|
    requires DistinctClones(jobs)
    ensures var r := ApplyAll(now, jobs, k);
            && (forall i: FnId | i < |now| && (forall j | 0 <= j < k && jobs[j].point.covered :: jobs[j].clone != i) ::
                  r[i] == now[i])
            && (forall j | 0 <= j < k && jobs[j].point.covered ::
                  r[jobs[j].clone] == now[jobs[j].clone].(body := Mutant(jobs[j].point, now[jobs[j].clone].body)))
  {
    if k > 0 {
      ApplyAllFacts(now, jobs, k - 1);
      var before, job := ApplyAll(now, jobs, k - 1), jobs[k - 1];
      assert ApplyAll(now, jobs, k) == ApplyOne(before, job);
      if job.point.covered {
        assert before[job.clone] == now[job.clone];
        assert forall j | 0 <= j < k - 1 && jobs[j].point.covered :: jobs[j].clone != job.clone;
      }
    }
  }
}
