/** lib/Mutators/MutatorsFactory.cpp, expandGroups and mutators: the mutators that named groups stand for. */
module MutatorGroups {
  import opened Text

  type Groups = map<string, seq<string>>

  /** A chain of memberships from a requested name down to another name. */
  ghost predicate Path(mapping: Groups, path: seq<string>) {
    && path != []
    && forall i | 0 <= i < |path| - 1 :: path[i] in mapping && path[i + 1] in mapping[path[i]]
  }

  ghost predicate Reaches(mapping: Groups, from: string, to: string) {
    exists path :: Path(mapping, path) && path[0] == from && path[|path| - 1] == to
  }

  /** No group contains itself, directly or not: the ranks of groups decrease from group to member. */
  ghost predicate Acyclic(mapping: Groups, rank: map<string, nat>) {
    && (forall g | g in mapping :: g in rank)
    && forall g, m | g in mapping && m in mapping[g] && m in mapping :: rank[m] < rank[g]
  }

  /** The names, other than groups, that some requested name leads to. */
  ghost predicate Member(mapping: Groups, groups: seq<string>, name: string) {
    name !in mapping && exists g | g in groups :: Reaches(mapping, g, name)
  }

  lemma ReachesSelf(mapping: Groups, name: string)
    ensures Reaches(mapping, name, name)
    ensures name !in mapping ==> forall to | Reaches(mapping, name, to) :: to == name
  {
    assert Path(mapping, [name]);
    if name !in mapping {
      forall to | Reaches(mapping, name, to) ensures to == name {
        var path :| Path(mapping, path) && path[0] == name && path[|path| - 1] == to;
        assert |path| == 1;
      }
    }
  }

  lemma ReachesThrough(mapping: Groups, group: string, name: string)
    requires group in mapping && name !in mapping
    ensures Reaches(mapping, group, name) <==> exists m | m in mapping[group] :: Reaches(mapping, m, name)
  {
    if Reaches(mapping, group, name) {
      var path :| Path(mapping, path) && path[0] == group && path[|path| - 1] == name;
      assert |path| > 1;
      assert Path(mapping, path[1..]);
      assert path[1] in mapping[group] && Reaches(mapping, path[1], name);
    }
    if m :| m in mapping[group] && Reaches(mapping, m, name) {
      var path :| Path(mapping, path) && path[0] == m && path[|path| - 1] == name;
      var longer := [group] + path;
      assert Path(mapping, longer) && longer[|longer| - 1] == name;
    }
  }

  ghost predicate RankBelow(mapping: Groups, rank: map<string, nat>, groups: seq<string>, bound: nat) {
    forall g | g in groups && g in mapping :: g in rank && rank[g] < bound
  }

  lemma OneMore(mapping: Groups, groups: seq<string>, i: nat, name: string)
    requires i < |groups|
    ensures Member(mapping, groups[..i + 1], name)
            <==> Member(mapping, groups[..i], name) || (name !in mapping && Reaches(mapping, groups[i], name))
  {
    assert groups[..i + 1] == groups[..i] + [groups[i]];
    assert groups[i] in groups[..i + 1];
  }

  /** Adds exactly the members of the requested groups, whatever their order and repetitions. */
  method ExpandGroups(groups: seq<string>, mapping: Groups, expanded: set<string>, ghost rank: map<string, nat>,
                      ghost bound: nat)
    returns (result: set<string>)
    requires Acyclic(mapping, rank) && RankBelow(mapping, rank, groups, bound)
    ensures forall name :: name in result <==> name in expanded || Member(mapping, groups, name)
    decreases bound
  {
    result := expanded;
    for i := 0 to |groups|
      invariant forall name :: name in result <==> name in expanded || Member(mapping, groups[..i], name)
    {
      var group := groups[i];
      assert group in groups;
      ghost var before := result;
      if group !in mapping {
        result := result + {group};
      } else {
        result := ExpandGroups(mapping[group], mapping, result, rank, rank[group]);
      }
      forall name
        ensures name in result <==> name in expanded || Member(mapping, groups[..i + 1], name)
      {
        OneMore(mapping, groups, i, name);
        ReachesSelf(mapping, group);
        if group in mapping && name !in mapping {
          ReachesThrough(mapping, group, name);
        }
      }
    }
    assert groups[..|groups|] == groups;
  }

  ghost predicate Ascending(names: seq<string>) {
    forall i, j | 0 <= i < j < |names| :: LessString(names[i], names[j])
  }

  function Insert(names: seq<string>, name: string): seq<string> {
    if names == [] || LessString(name, names[0]) then [name] + names
    else [names[0]] + Insert(names[1..], name)
  }

  lemma {:induction false} InsertKeepsAscending(names: seq<string>, name: string)
    requires Ascending(names) && name !in names
    ensures Ascending(Insert(names, name))
    ensures forall n :: n in Insert(names, name) <==> n in names || n == name
  {
    if names == [] {
    } else if LessString(name, names[0]) {
      forall j | 0 < j < |names| ensures LessString(name, names[j]) {
        LessStringOrder(name, names[0], names[j]);
      }
    } else {
      LessStringOrder(names[0], name, name);
      InsertKeepsAscending(names[1..], name);
      var rest := Insert(names[1..], name);
      forall j | 0 <= j < |rest| ensures LessString(names[0], rest[j]) {
        assert rest[j] in rest;
      }
      assert names == [names[0]] + names[1..];
    }
  }

  /** The order in which a std::set is walked. */
  method InOrder(names: set<string>) returns (order: seq<string>)
    ensures Ascending(order) && forall n :: n in order <==> n in names
  {
    order := [];
    var rest := names;
    while rest != {}
      invariant rest <= names && Ascending(order) && forall n :: n in order <==> n in names - rest
      decreases |rest|
    {
      var name :| name in rest;
      InsertKeepsAscending(order, name);
      order := Insert(order, name);
      rest := rest - {name};
    }
  }

  const DEFAULT_GROUP := "cxx_default"

  /** `names` are the members of the groups for which `wanted` holds, each once and in order. */
  ghost predicate Selected(mapping: Groups, groups: seq<string>, names: seq<string>, wanted: string -> bool) {
    Ascending(names) && forall name :: name in names <==> Member(mapping, groups, name) && wanted(name)
  }

  lemma NoneSelected(mapping: Groups, groups: seq<string>, names: seq<string>, wanted: string -> bool)
    requires Selected(mapping, groups, names, wanted)
    ensures names == [] <==> forall name | Member(mapping, groups, name) :: !wanted(name)
  {
    if names != [] {
      assert names[0] in names;
    }
  }

  class MutatorsFactory<M> {
    /** What init() puts into the mapping: a new mutator for every identifier. */
    const known: map<string, M>
    const groupsMapping: Groups
    var mutatorsMapping: map<string, M>

    constructor (known: map<string, M>, groupsMapping: Groups)
      ensures this.known == known && this.groupsMapping == groupsMapping && Valid()
    {
      this.known := known;
      this.groupsMapping := groupsMapping;
      mutatorsMapping := map[];
    }

    ghost predicate Valid()
      reads this
    {
      mutatorsMapping.Keys <= known.Keys
    }

    method Init()
      requires Valid()
      modifies this
      ensures Valid() && mutatorsMapping == known
    {
      mutatorsMapping := mutatorsMapping + known;
    }

    /**
     Every known mutator that was requested, exactly once and in order; the others are warned
     about, and so is an empty selection. No groups requested means the default group.
     */
    method Mutators(groups: seq<string>, ghost rank: map<string, nat>, ghost bound: nat)
      returns (mutators: seq<M>, warnings: seq<string>, noneValid: bool, ghost names: seq<string>)
      requires Valid() && Acyclic(groupsMapping, rank)
      requires RankBelow(groupsMapping, rank, if groups == [] then ["cxx_default"] else groups, bound)
      modifies this
      ensures Valid()
      ensures groups != [] ==>
                && Selected(groupsMapping, groups, names, name => name in known)
                && Selected(groupsMapping, groups, warnings, name => name !in known)
                && (noneValid <==> forall name | Member(groupsMapping, groups, name) :: name !in known)
      ensures groups == [] ==>
                && Selected(groupsMapping, ["cxx_default"], names, name => name in known)
                && Selected(groupsMapping, ["cxx_default"], warnings, name => name !in known)
                && (noneValid <==> forall name | Member(groupsMapping, ["cxx_default"], name) :: name !in known)
      ensures |mutators| == |names|
      ensures forall i | 0 <= i < |names| :: names[i] in known && mutators[i] == known[names[i]]
      ensures forall name :: name in mutatorsMapping <==> name in known && name !in names
    {
      Init();
      var requested := groups;
      if groups == [] {
        requested := [DEFAULT_GROUP];
      }
      var expanded := ExpandGroups(requested, groupsMapping, {}, rank, bound);
      var order := InOrder(expanded);
      mutators, warnings, names := [], [], [];
      for i := 0 to |order|
        invariant mutatorsMapping.Keys <= known.Keys
        invariant forall name :: name in mutatorsMapping <==> name in known && name !in names
        invariant forall name | name in mutatorsMapping :: mutatorsMapping[name] == known[name]
        invariant Ascending(names) && forall name :: name in names <==> name in order[..i] && name in known
        invariant Ascending(warnings) && forall name :: name in warnings <==> name in order[..i] && name !in known
        invariant |mutators| == |names|
        invariant forall j | 0 <= j < |names| :: names[j] in known && mutators[j] == known[names[j]]
      {
        var group := order[i];
        NotYet(order, i);
        if group !in mutatorsMapping {
          warnings := warnings + [group];
        } else {
          mutators := mutators + [mutatorsMapping[group]];
          names := names + [group];
          mutatorsMapping := mutatorsMapping - {group};
        }
      }
      assert order[..|order|] == order;
      noneValid := mutators == [];
      NoneSelected(groupsMapping, requested, names, name => name in known);
    }
  }

  lemma NotYet(order: seq<string>, i: nat)
    requires Ascending(order) && i < |order|
    ensures order[i] !in order[..i]
    ensures forall name | name in order[..i] :: LessString(name, order[i])
    ensures order[..i + 1] == order[..i] + [order[i]]
  {
    LessStringOrder(order[i], order[i], order[i]);
  }
}
