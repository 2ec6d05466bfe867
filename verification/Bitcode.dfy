/** The phases as they run: methods that edit a module and its mutation points in place. */
module Bitcodes {
  import opened IR
  import opened Trampoline
  import opened Modules
  import opened Rewriting
  import opened Points
  import opened Schemata
  import opened Text

  class MutationPoint {
    const info: Point
    var mutatedFunction: Option<FnId>

    constructor (mutator: Mutator, owner: FnId, address: Address, file: string, line: int, column: int,
                 endLine: int, endColumn: int, covered: bool)
      ensures info.Named() && mutatedFunction == None
      ensures info == Point(mutator, owner, address, file, line, column, endLine, endColumn, covered,
              info.userIdentifier)
    {
      var identifier := mutator.Identifier() + ":" + file + ":" + ToString(line) + ":" + ToString(column);
      info := Point(mutator, owner, address, file, line, column, endLine, endColumn, covered, identifier);
      mutatedFunction := None;
    }
  }

  function Infos(points: seq<MutationPoint>): seq<Point> {
    seq(|points|, i requires 0 <= i < |points| => points[i].info)
  }

  /** The map that adding the first k points one by one builds. */
  function Grouped(points: seq<MutationPoint>, k: nat): map<FnId, seq<MutationPoint>>
    requires k <= |points|
  {
    if k == 0 then map[]
    else
      var before := Grouped(points, k - 1);
      var p := points[k - 1];
      before[p.info.owner := (if p.info.owner in before then before[p.info.owner] else []) + [p]]
  }

  function PlanFor(order: seq<FnId>, groups: map<FnId, seq<MutationPoint>>): Plan {
    Plan(order, map f | f in groups :: Infos(groups[f]))
  }

  ghost predicate Distinct(points: seq<MutationPoint>) {
    forall i, j | 0 <= i < j < |points| :: points[i] != points[j]
  }

  /** The lists hold exactly the points, each once and under its own function. */
  ghost predicate Groups(points: seq<MutationPoint>, groups: map<FnId, seq<MutationPoint>>) {
    && (forall f, p | f in groups && p in groups[f] :: p.info.owner == f && p in points)
    && (forall p | p in points :: p in PointsIn(groups, p.info.owner))
    && (forall f | f in groups :: Distinct(groups[f]))
  }

  lemma {:induction false} GroupedFacts(points: seq<MutationPoint>, k: nat)
    requires k <= |points| && Distinct(points)
    ensures Groups(points[..k], Grouped(points, k))
  {
    if k > 0 {
      GroupedFacts(points, k - 1);
      assert points[..k] == points[..k - 1] + [points[k - 1]];
      assert points[k - 1] !in points[..k - 1];
    }
  }

  /** The section that the records of the first k points make up, each with its terminating NUL. */
  function Section(points: seq<MutationPoint>, k: nat): string
    requires k <= |points|
  {
    if k == 0 then "" else Section(points, k - 1) + points[k - 1].info.Record()
  }

  function Marks(points: seq<MutationPoint>): seq<Option<FnId>>
    reads points
  {
    seq(|points|, i requires 0 <= i < |points| reads points => points[i].mutatedFunction)
  }

  /** Each covered point among the first k knows the function that was cloned for it. */
  ghost predicate Assigned(now: seq<Function>, f: FnId, points: seq<Point>, marks: seq<Option<FnId>>, k: nat)
    requires f < |now| && k <= |points| == |marks|
  {
    k > 0 ==>
      && Assigned(now, f, points, marks, k - 1)
      && (points[k - 1].covered ==> marks[k - 1] == Some(|CloneGroup(now, f, points, k - 1)|))
  }

  lemma {:induction false} AssignedAt(now: seq<Function>, f: FnId, points: seq<Point>, marks: seq<Option<FnId>>,
                                      k: nat, j: nat)
    requires f < |now| && j < k <= |points| == |marks| && Assigned(now, f, points, marks, k)
    ensures points[j].covered ==> marks[j] == Some(|CloneGroup(now, f, points, j)|)
  {
    if j < k - 1 {
      AssignedAt(now, f, points, marks, k - 1, j);
    }
  }

  lemma {:induction false} StillAssigned(now: seq<Function>, f: FnId, points: seq<Point>, marks: seq<Option<FnId>>,
                                         marks': seq<Option<FnId>>, k: nat)
    requires f < |now| && k <= |points| == |marks| == |marks'| && forall j | 0 <= j < k :: marks[j] == marks'[j]
    requires Assigned(now, f, points, marks, k)
    ensures Assigned(now, f, points, marks', k)
  {
    if k > 0 {
      StillAssigned(now, f, points, marks, marks', k - 1);
    }
  }

  function PointsIn(groups: map<FnId, seq<MutationPoint>>, f: FnId): seq<MutationPoint> {
    if f in groups then groups[f] else []
  }

  ghost function Objects(groups: map<FnId, seq<MutationPoint>>): set<MutationPoint> {
    set f, p | f in groups && p in groups[f] :: p
  }

  ghost predicate ValidGroups(order: seq<FnId>, groups: map<FnId, seq<MutationPoint>>) {
    && (forall f, p | f in groups && p in groups[f] :: p.info.owner == f)
    && (forall f | f in groups :: Distinct(groups[f]))
    && (forall g, h | 0 <= g < h < |order| :: order[g] != order[h])
  }

  /** Cloning has reached function g: its covered points know their clones. */
  ghost predicate Reached(src: seq<Function>, order: seq<FnId>, groups: map<FnId, seq<MutationPoint>>, g: nat)
    requires g < |order| && forall h | 0 <= h < |order| :: order[h] < |src|
    reads PointsIn(groups, order[g])
  {
    var points := PointsIn(groups, order[g]);
    Assigned(CloneAll(src, PlanFor(order, groups), g), order[g], Infos(points), Marks(points), |points|)
  }

  lemma GroupsAreDisjoint(order: seq<FnId>, groups: map<FnId, seq<MutationPoint>>, g: nat, h: nat)
    requires ValidGroups(order, groups) && g < |order| && h < |order| && g != h
    ensures forall p | p in PointsIn(groups, order[g]) :: p !in PointsIn(groups, order[h])
  {
    forall p | p in PointsIn(groups, order[g]) ensures p !in PointsIn(groups, order[h]) {
      assert p.info.owner == order[g] != order[h];
    }
  }

  method CloneFor(mod: Module, f: FnId, points: seq<MutationPoint>)
    requires f < |mod.functions| && Distinct(points)
    modifies mod, points
    ensures mod.functions == CloneGroup(old(mod.functions), f, Infos(points), |points|)
    ensures Assigned(old(mod.functions), f, Infos(points), Marks(points), |points|)
  {
    ghost var now := mod.functions;
    for j := 0 to |points|
      invariant mod.functions == CloneGroup(now, f, Infos(points), j)
      invariant Assigned(now, f, Infos(points), Marks(points), j)
    {
      assert Infos(points)[j] == points[j].info;
      if points[j].info.covered {
        ghost var marks := Marks(points);
        var clone := mod.CloneFunction(f, points[j].info.userIdentifier, true);
        points[j].mutatedFunction := Some(clone);
        StillAssigned(now, f, Infos(points), marks, Marks(points), j);
      }
    }
  }

  /** One step of the walk: clones for the points of function g, none for the others. */
  method CloneNext(mod: Module, order: seq<FnId>, groups: map<FnId, seq<MutationPoint>>, g: nat,
                   ghost src: seq<Function>)
    requires ValidGroups(order, groups) && g < |order| && forall h | 0 <= h < |order| :: order[h] < |src|
    requires mod.functions == CloneAll(src, PlanFor(order, groups), g)
    requires forall h | 0 <= h < g :: Reached(src, order, groups, h)
    modifies mod, PointsIn(groups, order[g])
    ensures mod.functions == CloneAll(src, PlanFor(order, groups), g + 1)
    ensures forall h | 0 <= h <= g :: Reached(src, order, groups, h)
  {
    var points := PointsIn(groups, order[g]);
    assert PlanFor(order, groups).At(g) == Infos(points);
    CloneFor(mod, order[g], points);
    assert Reached(src, order, groups, g);
    forall h | 0 <= h < g ensures Reached(src, order, groups, h) {
      GroupsAreDisjoint(order, groups, h, g);
      var others := PointsIn(groups, order[h]);
      assert forall i | 0 <= i < |others| :: others[i] in others && others[i] !in points;
      assert Marks(others) == old(Marks(others));
    }
  }

  method CloneFunctions(mod: Module, order: seq<FnId>, groups: map<FnId, seq<MutationPoint>>)
    requires ValidGroups(order, groups) && forall h | 0 <= h < |order| :: order[h] < |mod.functions|
    modifies mod, Objects(groups)
    ensures mod.functions == CloneAll(old(mod.functions), PlanFor(order, groups), |order|)
    ensures forall g | 0 <= g < |order| :: Reached(old(mod.functions), order, groups, g)
  {
    ghost var src := mod.functions;
    for g := 0 to |order|
      invariant mod.functions == CloneAll(src, PlanFor(order, groups), g)
      invariant forall h | 0 <= h < g :: Reached(src, order, groups, h)
    {
      assert forall p | p in PointsIn(groups, order[g]) :: p in Objects(groups);
      CloneNext(mod, order, groups, g, src);
    }
  }

  method FindCovered(points: seq<MutationPoint>) returns (found: bool)
    ensures found == HasCovered(Infos(points))
  {
    for i := 0 to |points|
      invariant forall j | 0 <= j < i :: !Infos(points)[j].covered
    {
      if points[i].info.covered {
        assert Infos(points)[i].covered;
        return true;
      }
    }
    return false;
  }

  method DeleteFunctions(mod: Module, order: seq<FnId>, groups: map<FnId, seq<MutationPoint>>)
    requires forall h | 0 <= h < |order| :: order[h] < |mod.functions|
    modifies mod
    ensures mod.functions == DeleteAll(old(mod.functions), PlanFor(order, groups), |order|)
  {
    ghost var now := mod.functions;
    ghost var plan := PlanFor(order, groups);
    for g := 0 to |order|
      invariant mod.functions == DeleteAll(now, plan, g)
    {
      var f := order[g];
      assert plan.At(g) == Infos(PointsIn(groups, f));
      var covered := FindCovered(PointsIn(groups, f));
      if covered {
        var copy := mod.CloneFunction(f, OriginalName(mod.functions[f].name), mod.functions[f].internal);
        mod.SetBody(f, []);
      }
    }
  }

  /** The choices of a trampoline, read off the points themselves. */
  function MarkedChoices(points: seq<Point>, marks: seq<Option<FnId>>, j: nat): seq<Choice>
    requires j <= |points| == |marks|
  {
    if j == 0 then []
    else
      var before := MarkedChoices(points, marks, j - 1);
      if points[j - 1].covered && marks[j - 1].Some?
      then before + [Choice(points[j - 1].userIdentifier, marks[j - 1].value)]
      else before
  }

  lemma {:induction false} MarkedChoicesAreChoices(src: seq<Function>, order: seq<FnId>,
                                                   groups: map<FnId, seq<MutationPoint>>,
                                                   marks: seq<Option<FnId>>, g: nat, j: nat)
    requires g < |order| && forall h | 0 <= h < |order| :: order[h] < |src|
    requires |marks| == |PointsIn(groups, order[g])| && j <= |marks|
    requires Assigned(CloneAll(src, PlanFor(order, groups), g), order[g], Infos(PointsIn(groups, order[g])), marks,
             |marks|)
    ensures PlanFor(order, groups).At(g) == Infos(PointsIn(groups, order[g]))
    ensures MarkedChoices(Infos(PointsIn(groups, order[g])), marks, j) == ChoicesOf(src, PlanFor(order, groups), g, j)
  {
    if j > 0 {
      MarkedChoicesAreChoices(src, order, groups, marks, g, j - 1);
      AssignedAt(CloneAll(src, PlanFor(order, groups), g), order[g], Infos(PointsIn(groups, order[g])), marks,
        |marks|, j - 1);
    }
  }

  /** The check and the selection of one covered point, in front of the chain so far. */
  method AddCheck(point: MutationPoint, before: Body, head: Label, ghost choices: seq<Choice>)
    returns (checks: Body, next: Label)
    requires point.mutatedFunction.Some? && before == Checks(choices) && head == Head(|choices|)
    ensures var choice := Choice(point.info.userIdentifier, point.mutatedFunction.value);
            checks == Checks(choices + [choice]) && next == Head(|choices + [choice]|)
  {
    next := 3 + |before|;
    ChecksStep(choices, Choice(point.info.userIdentifier, point.mutatedFunction.value));
    var check := CheckBlock(point.info.userIdentifier, head, next + 1);
    checks := before + [check, MutationBlock(point.mutatedFunction.value)];
  }

  method BuildChecks(points: seq<MutationPoint>) returns (checks: Body, head: Label)
    requires forall p | p in points && p.info.covered :: p.mutatedFunction.Some?
    ensures var choices := MarkedChoices(Infos(points), Marks(points), |points|);
            checks == Checks(choices) && head == Head(|choices|)
  {
    checks, head := [], ORIGINAL_BLOCK;
    ghost var infos, marks := Infos(points), Marks(points);
    for j := 0 to |points|
      invariant checks == Checks(MarkedChoices(infos, marks, j)) && head == Head(|MarkedChoices(infos, marks, j)|)
    {
      assert points[j] in points;
      if points[j].info.covered {
        checks, head := AddCheck(points[j], checks, head, MarkedChoices(infos, marks, j));
      }
    }
  }

  method InsertTrampoline(mod: Module, f: FnId, points: seq<MutationPoint>)
    requires f < |mod.functions| && mod.functions[f].body == [] && HasCovered(Infos(points))
    requires forall p | p in points && p.info.covered :: p.mutatedFunction.Some?
    modifies mod
    ensures mod.functions == InsertOne(old(mod.functions), f, Infos(points),
            MarkedChoices(Infos(points), Marks(points), |points|))
  {
    var name := mod.functions[f].name;
    var copy := mod.GetFunction(OriginalName(name));
    var original := OriginalBlock(match copy case Some(c) => FnRef(c) case None => NullPtr);
    var checks, head := BuildChecks(points);
    var entry := Block([], [Alloca(SLOT)], Br(head));
    var body := [entry, original, CallBlock(mod.functions[f].isVoid, mod.functions[f].arity)] + checks;
    assert mod.functions[f].body + body == body;
    mod.SetBody(f, mod.functions[f].body + body);
  }

  lemma CoveredAreMarked(src: seq<Function>, order: seq<FnId>, groups: map<FnId, seq<MutationPoint>>, g: nat)
    requires g < |order| && forall h | 0 <= h < |order| :: order[h] < |src|
    requires Reached(src, order, groups, g)
    ensures forall p | p in PointsIn(groups, order[g]) && p.info.covered :: p.mutatedFunction.Some?
  {
    var points := PointsIn(groups, order[g]);
    forall p | p in points && p.info.covered ensures p.mutatedFunction.Some? {
      var j :| 0 <= j < |points| && points[j] == p;
      AssignedAt(CloneAll(src, PlanFor(order, groups), g), order[g], Infos(points), Marks(points), |points|, j);
      assert Infos(points)[j] == p.info && Marks(points)[j] == p.mutatedFunction;
    }
  }

  /** One step of the walk: a trampoline for function g if it has a covered point. */
  method InsertNext(mod: Module, order: seq<FnId>, groups: map<FnId, seq<MutationPoint>>, g: nat,
                    ghost src: seq<Function>, ghost now: seq<Function>)
    requires ValidGroups(order, groups) && g < |order|
    requires |src| <= |now| && forall h | 0 <= h < |order| :: order[h] < |src|
    requires Reached(src, order, groups, g)
    requires HasCovered(Infos(PointsIn(groups, order[g]))) ==> now[order[g]].body == []
    requires mod.functions == InsertAll(src, now, PlanFor(order, groups), g)
    modifies mod
    ensures mod.functions == InsertAll(src, now, PlanFor(order, groups), g + 1)
  {
    var points := PointsIn(groups, order[g]);
    MarkedChoicesAreChoices(src, order, groups, Marks(points), g, |points|);
    var covered := FindCovered(points);
    if covered {
      InsertedBody(src, now, PlanFor(order, groups), g, g);
      CoveredAreMarked(src, order, groups, g);
      InsertTrampoline(mod, order[g], points);
    }
  }

  method InsertTrampolines(mod: Module, order: seq<FnId>, groups: map<FnId, seq<MutationPoint>>,
                           ghost src: seq<Function>)
    requires ValidGroups(order, groups)
    requires |src| <= |mod.functions| && forall h | 0 <= h < |order| :: order[h] < |src|
    requires forall g | 0 <= g < |order| :: Reached(src, order, groups, g)
    requires forall g | 0 <= g < |order| && HasCovered(Infos(PointsIn(groups, order[g]))) ::
             mod.functions[order[g]].body == []
    modifies mod
    ensures mod.functions == InsertAll(src, old(mod.functions), PlanFor(order, groups), |order|)
  {
    ghost var now := mod.functions;
    for g := 0 to |order|
      invariant mod.functions == InsertAll(src, now, PlanFor(order, groups), g)
    {
      assert Reached(src, order, groups, g);
      InsertNext(mod, order, groups, g, src, now);
    }
  }

  /** The jobs are what the points say: where each covered one is to be applied. */
  ghost predicate Follows(points: seq<MutationPoint>, jobs: seq<Job>)
    reads points
  {
    && |jobs| == |points|
    && forall k | 0 <= k < |points| ::
         && jobs[k].point == points[k].info
         && (points[k].info.covered ==> points[k].mutatedFunction == Some(jobs[k].clone))
  }

  lemma SectionStep(before: string, points: seq<MutationPoint>, k: nat)
    requires k < |points|
    ensures before + Section(points, k) + points[k].info.Record() == before + Section(points, k + 1)
  {}

  class Bitcode {
    const mod: Module
    /** The functions in the order of their addresses, in which the map of points is walked. */
    const order: seq<FnId>
    var mutationPoints: map<FnId, seq<MutationPoint>>
    /** The content of the .mull_mutants section. */
    var section: string

    constructor (mod: Module, order: seq<FnId>)
      ensures this.mod == mod && this.order == order && mutationPoints == map[] && section == ""
    {
      this.mod := mod;
      this.order := order;
      mutationPoints := map[];
      section := "";
    }

    method AddMutation(point: MutationPoint)
      modifies this`mutationPoints
      ensures mutationPoints == old(mutationPoints)[point.info.owner :=
              PointsIn(old(mutationPoints), point.info.owner) + [point]]
    {
      mutationPoints := mutationPoints[point.info.owner := PointsIn(mutationPoints, point.info.owner) + [point]];
    }

    method RecordMutation(point: MutationPoint)
      modifies this`section
      ensures section == old(section) + point.info.Record()
    {
      section := section + point.info.Record();
    }

    method ApplyMutation(point: MutationPoint)
      requires point.mutatedFunction.Some? && point.mutatedFunction.value < |mod.functions|
      requires InRange(mod.functions[point.mutatedFunction.value].body)
      requires CanApply(point.info.mutator, mod.functions[point.mutatedFunction.value].body, point.info.address)
      modifies mod
      ensures var clone := point.mutatedFunction.value;
              var body := old(mod.functions)[clone].body;
              mod.functions
              == old(mod.functions)[clone := old(mod.functions)[clone].(body :=
                Apply(point.info.mutator, body, point.info.address))]
      ensures var clone := point.mutatedFunction.value;
              point.info.mutator.Trivial? ==>
                RewritesAt(old(mod.functions)[clone].body, mod.functions[clone].body, point.info.address,
                           point.info.mutator.rewrite)
    {
      ApplyMutator(mod, point.mutatedFunction.value, point.info.mutator, point.info.address);
    }

    /** Records every point and mutates the clones of the covered ones. */
    method ApplyMutations(points: seq<MutationPoint>, ghost jobs: seq<Job>)
      requires Follows(points, jobs)
      requires AllCanDo(mod.functions, jobs)
      requires DistinctClones(jobs)
      modifies mod, this`section
      ensures mod.functions == ApplyAll(old(mod.functions), jobs, |points|)
      ensures section == old(section) + Section(points, |points|)
    {
      ghost var now := mod.functions;
      for k := 0 to |points|
        invariant mod.functions == ApplyAll(now, jobs, k) && Follows(points, jobs)
        invariant section == old(section) + Section(points, k)
      {
        ApplyNext(points, k, now, jobs, old(section));
      }
    }

    method ApplyNext(points: seq<MutationPoint>, k: nat, ghost now: seq<Function>, ghost jobs: seq<Job>,
                     ghost before: string)
      requires k < |points| && Follows(points, jobs) && DistinctClones(jobs)
      requires AllCanDo(now, jobs)
      requires mod.functions == ApplyAll(now, jobs, k) && section == before + Section(points, k)
      modifies mod, this`section
      ensures mod.functions == ApplyAll(now, jobs, k + 1) && section == before + Section(points, k + 1)
      ensures Follows(points, jobs)
    {
      SectionStep(before, points, k);
      RecordMutation(points[k]);
      if points[k].info.covered {
        StillToDo(now, jobs, k);
        ApplyMutation(points[k]);
      }
    }
  }

  ghost predicate CanDo(now: seq<Function>, job: Job) {
    job.point.covered ==>
      && job.clone < |now| && InRange(now[job.clone].body)
      && CanApply(job.point.mutator, now[job.clone].body, job.point.address)
  }

  ghost predicate AllCanDo(now: seq<Function>, jobs: seq<Job>) {
    forall k | 0 <= k < |jobs| && jobs[k].point.covered :: CanDo(now, jobs[k])
  }

  lemma StillToDo(now: seq<Function>, jobs: seq<Job>, k: nat)
    requires k < |jobs| && DistinctClones(jobs) && AllCanDo(now, jobs)
    ensures CanDo(ApplyAll(now, jobs, k), jobs[k])
  {
    ApplyAllFacts(now, jobs, k);
  }
}
