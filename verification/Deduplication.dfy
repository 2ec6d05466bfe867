/** lib/Driver.cpp, run, and lib/Mutant.cpp: one mutant per identifier, in a canonical order. */
module Deduplication {
  import opened Text
  import opened Points
  import opened Records

  /** MutantComparator: lexicographic in path, line, column and mutator. */
  predicate Less(a: Mutant, b: Mutant) {
    if a.file != b.file then LessString(a.file, b.file)
    else if a.line != b.line then a.line < b.line
    else if a.column != b.column then a.column < b.column
    else LessString(a.mutator, b.mutator)
  }

  /** The comparator is a strict order, total on mutants with different identifiers. */
  lemma LessIsStrictTotalOrder(a: Mutant, b: Mutant, c: Mutant)
    requires Named(a) && Named(b)
    ensures !Less(a, a)
    ensures a.identifier != b.identifier ==> Less(a, b) || Less(b, a)
    ensures Less(a, b) && Less(b, c) ==> Less(a, c)
  {
    LessStringOrder(a.file, b.file, c.file);
    LessStringOrder(a.mutator, b.mutator, c.mutator);
    LessStringOrder(b.file, a.file, c.file);
    LessStringOrder(a.file, c.file, b.file);
  }

  /** The identifier is the one made of the mutant's own fields. */
  predicate Named(m: Mutant) {
    m.identifier == Identifier(m.mutator, m.file, m.line, m.column)
  }

  /** The points with a given identifier among the first k, in order. */
  function Group(points: seq<Point>, id: string, k: nat): seq<Point>
    requires k <= |points|
  {
    if k == 0 then []
    else if points[k - 1].userIdentifier == id then Group(points, id, k - 1) + [points[k - 1]]
    else Group(points, id, k - 1)
  }

  /** The first point gives the locations; one covered point makes the mutant covered. */
  function MutantFor(id: string, group: seq<Point>): Mutant
    requires group != []
  {
    var p := group[0];
    Mutant(id, p.mutator.Identifier(), p.file, p.line, p.column, p.endLine, p.endColumn, AnyCovered(group))
  }

  predicate Occurs(points: seq<Point>, id: string) {
    exists i | 0 <= i < |points| :: points[i].userIdentifier == id
  }

  lemma {:induction false} GroupMembers(points: seq<Point>, id: string, k: nat, i: nat)
    requires k <= |points| && i < |Group(points, id, k)|
    ensures Group(points, id, k)[i].userIdentifier == id
    ensures exists j | 0 <= j < k :: points[j] == Group(points, id, k)[i]
  {
    if i < |Group(points, id, k - 1)| {
      GroupMembers(points, id, k - 1, i);
    }
  }

  lemma {:induction false} GroupHas(points: seq<Point>, id: string, k: nat, j: nat)
    requires j < k <= |points| && points[j].userIdentifier == id
    ensures exists i | 0 <= i < |Group(points, id, k)| :: Group(points, id, k)[i] == points[j]
    decreases k
  {
    if j < k - 1 {
      GroupHas(points, id, k - 1, j);
      var i :| 0 <= i < |Group(points, id, k - 1)| && Group(points, id, k - 1)[i] == points[j];
      assert Group(points, id, k)[i] == points[j];
    } else {
      assert Group(points, id, k)[|Group(points, id, k - 1)|] == points[j];
    }
  }

  /** Some point with this identifier is covered. */
  predicate CoveredSomewhere(points: seq<Point>, id: string) {
    exists i | 0 <= i < |points| :: points[i].userIdentifier == id && points[i].covered
  }

  predicate AnyCovered(group: seq<Point>) {
    exists i | 0 <= i < |group| :: group[i].covered
  }

  lemma GroupFacts(points: seq<Point>, id: string)
    ensures var g := Group(points, id, |points|);
            && (g != [] ==> g[0].userIdentifier == id)
            && (g != [] <==> Occurs(points, id))
            && (AnyCovered(g) <==> CoveredSomewhere(points, id))
  {
    var g := Group(points, id, |points|);
    if g != [] {
      GroupMembers(points, id, |points|, 0);
    }
    if Occurs(points, id) {
      var j :| 0 <= j < |points| && points[j].userIdentifier == id;
      GroupHas(points, id, |points|, j);
    }
    if AnyCovered(g) {
      var i :| 0 <= i < |g| && g[i].covered;
      GroupMembers(points, id, |points|, i);
    }
    if CoveredSomewhere(points, id) {
      var j :| 0 <= j < |points| && points[j].userIdentifier == id && points[j].covered;
      GroupHas(points, id, |points|, j);
    }
  }

  /** An order in which the hash map of identifiers might be walked: each key once. */
  ghost predicate Enumerates(order: seq<string>, points: seq<Point>) {
    && (forall i | 0 <= i < |points| :: points[i].Named())
    && (forall id :: id in order <==> Occurs(points, id))
    && forall i, j | 0 <= i < j < |order| :: order[i] != order[j]
  }

  function GroupOf(points: seq<Point>, id: string): seq<Point> {
    Group(points, id, |points|)
  }

  /** The list before it is sorted. */
  ghost predicate Collected(points: seq<Point>, order: seq<string>, mutants: seq<Mutant>) {
    && |mutants| == |order|
    && forall i | 0 <= i < |order| ::
         GroupOf(points, order[i]) != [] && mutants[i] == MutantFor(order[i], GroupOf(points, order[i]))
  }

  ghost predicate Sorted(mutants: seq<Mutant>) {
    forall i, j | 0 <= i < j < |mutants| :: !Less(mutants[j], mutants[i])
  }

  ghost predicate StrictlySorted(mutants: seq<Mutant>) {
    forall i, j | 0 <= i < j < |mutants| :: Less(mutants[i], mutants[j])
  }

  /** std::sort is only known to sort; which algorithm it uses does not matter below. */
  ghost predicate SortOf(before: seq<Mutant>, after: seq<Mutant>) {
    multiset(after) == multiset(before) && Sorted(after)
  }

  function Get(mapping: map<string, seq<Point>>, id: string): seq<Point> {
    if id in mapping then mapping[id] else []
  }

  ghost predicate Mapped(mapping: map<string, seq<Point>>, points: seq<Point>, k: nat)
    requires k <= |points|
  {
    forall id :: Get(mapping, id) == Group(points, id, k)
  }

  method BuildMapping(points: seq<Point>) returns (mapping: map<string, seq<Point>>)
    ensures Mapped(mapping, points, |points|)
  {
    mapping := map[];
    for k := 0 to |points|
      invariant Mapped(mapping, points, k)
    {
      var key := points[k].userIdentifier;
      mapping := mapping[key := Get(mapping, key) + [points[k]]];
    }
  }

  method Collect(points: seq<Point>, order: seq<string>) returns (mutants: seq<Mutant>)
    requires Enumerates(order, points)
    ensures Collected(points, order, mutants)
  {
    var mapping := BuildMapping(points);
    mutants := [];
    for i := 0 to |order|
      invariant |mutants| == i
      invariant forall j | 0 <= j < i ::
                  GroupOf(points, order[j]) != [] && mutants[j] == MutantFor(order[j], GroupOf(points, order[j]))
    {
      assert order[i] in order;
      GroupFacts(points, order[i]);
      assert Get(mapping, order[i]) == GroupOf(points, order[i]);
      var mutant := MutantFromGroup(order[i], mapping[order[i]]);
      mutants := mutants + [mutant];
    }
  }

  method MutantFromGroup(id: string, group: seq<Point>) returns (mutant: Mutant)
    requires group != []
    ensures mutant == MutantFor(id, group)
  {
    var anyPoint := group[0];
    var covered := false;
    var i := 0;
    while i < |group| && !covered
      invariant i <= |group|
      invariant covered <==> exists j | 0 <= j < i :: group[j].covered
    {
      covered := group[i].covered;
      i := i + 1;
    }
    assert covered <==> AnyCovered(group);
    mutant := Mutant(id, anyPoint.mutator.Identifier(), anyPoint.file, anyPoint.line, anyPoint.column,
      anyPoint.endLine, anyPoint.endColumn, covered);
  }

  lemma CollectedAreNamed(points: seq<Point>, order: seq<string>, mutants: seq<Mutant>)
    requires Enumerates(order, points) && Collected(points, order, mutants)
    ensures forall i | 0 <= i < |mutants| :: mutants[i].identifier == order[i] && Named(mutants[i])
  {
    forall i | 0 <= i < |mutants| ensures mutants[i].identifier == order[i] && Named(mutants[i]) {
      GroupFacts(points, order[i]);
      GroupMembers(points, order[i], |points|, 0);
    }
  }

  /** Distinct identifiers leave no ties: sorting is strict. */
  lemma SortingIsStrict(points: seq<Point>, order: seq<string>, before: seq<Mutant>, after: seq<Mutant>)
    requires Enumerates(order, points) && Collected(points, order, before) && SortOf(before, after)
    ensures StrictlySorted(after)
    ensures forall m :: m in after <==> m in before
  {
    CollectedAreNamed(points, order, before);
    assert forall m :: m in after <==> m in multiset(after);
    assert forall m :: m in before <==> m in multiset(before);
    forall i, j | 0 <= i < j < |after| ensures Less(after[i], after[j]) {
      assert after[i] in after && after[j] in after;
      TwiceIsTwice(after, i, j);
      OnceEach(points, order, before, after[i]);
      OnceEach(points, order, before, after[j]);
      var k :| 0 <= k < |before| && before[k] == after[i];
      var l :| 0 <= l < |before| && before[l] == after[j];
      LessIsStrictTotalOrder(after[i], after[j], after[i]);
    }
  }

  lemma {:induction false} TwiceIsTwice(s: seq<Mutant>, i: nat, j: nat)
    requires i < j < |s|
    ensures s[i] == s[j] ==> multiset(s)[s[i]] >= 2
  {
    assert s == s[..j] + [s[j]] + s[j + 1..];
    assert s[i] in s[..j];
  }

  lemma OnceEach(points: seq<Point>, order: seq<string>, mutants: seq<Mutant>, m: Mutant)
    requires Enumerates(order, points) && Collected(points, order, mutants) && m in mutants
    ensures multiset(mutants)[m] == 1
  {
    CollectedAreNamed(points, order, mutants);
    var i :| 0 <= i < |mutants| && mutants[i] == m;
    forall j | 0 <= j < |mutants| && j != i ensures mutants[j] != m {
      assert mutants[j].identifier == order[j] && order[i] != order[j];
    }
    OnlyOnce(mutants, i);
  }

  lemma OnlyOnce(s: seq<Mutant>, i: nat)
    requires i < |s| && forall j | 0 <= j < |s| && j != i :: s[j] != s[i]
    ensures multiset(s)[s[i]] == 1
  {
    assert s == s[..i] + [s[i]] + s[i + 1..];
  }

  lemma SameEmptiness(a: seq<Mutant>, b: seq<Mutant>)
    requires forall m :: m in a <==> m in b
    ensures a == [] <==> b == []
  {
    if a != [] {
      assert a[0] in b;
    }
    if b != [] {
      assert b[0] in a;
    }
  }

  lemma {:induction false} StrictlySortedUnique(a: seq<Mutant>, b: seq<Mutant>)
    requires StrictlySorted(a) && StrictlySorted(b) && forall m :: m in a <==> m in b
    requires forall m | m in a :: Named(m)
    ensures a == b
    decreases |a|
  {
    SameEmptiness(a, b);
    if a != [] {
      SameFirst(a, b);
      SameRest(a, b);
      StrictlySortedUnique(a[1..], b[1..]);
    }
  }

  lemma SameFirst(a: seq<Mutant>, b: seq<Mutant>)
    requires StrictlySorted(a) && StrictlySorted(b) && a != [] && b != [] && forall m :: m in a <==> m in b
    requires forall m | m in a :: Named(m)
    ensures a[0] == b[0]
  {
    assert a[0] in b && b[0] in a;
    var i :| 0 <= i < |b| && b[i] == a[0];
    var j :| 0 <= j < |a| && a[j] == b[0];
    if i > 0 && j > 0 {
      assert Less(b[0], b[i]) && Less(a[0], a[j]);
      LessIsStrictTotalOrder(a[0], b[0], a[0]);
      assert false;
    }
  }

  lemma SameRest(a: seq<Mutant>, b: seq<Mutant>)
    requires StrictlySorted(a) && StrictlySorted(b) && a != [] && b != [] && forall m :: m in a <==> m in b
    requires a[0] == b[0] && forall m | m in a :: Named(m)
    ensures forall m :: m in a[1..] <==> m in b[1..]
    ensures StrictlySorted(a[1..]) && StrictlySorted(b[1..])
  {
    assert forall m :: m in a <==> m == a[0] || m in a[1..];
    assert forall m :: m in b <==> m == b[0] || m in b[1..];
    LessIsStrictTotalOrder(a[0], a[0], a[0]);
    assert a[0] !in a[1..] && b[0] !in b[1..];
  }

  /** The final list does not depend on the order of the hash map, nor on the sorting algorithm. */
  lemma CanonicalDeduplication(points: seq<Point>, order: seq<string>, before: seq<Mutant>, after: seq<Mutant>,
                               order': seq<string>, before': seq<Mutant>, after': seq<Mutant>)
    requires Enumerates(order, points) && Collected(points, order, before) && SortOf(before, after)
    requires Enumerates(order', points) && Collected(points, order', before') && SortOf(before', after')
    ensures after == after'
  {
    SortingIsStrict(points, order, before, after);
    SortingIsStrict(points, order', before', after');
    CollectedAreNamed(points, order, before);
    SameElements(points, order, before, order', before');
    SameElements(points, order', before', order, before);
    forall m | m in after ensures Named(m) {
      assert m in before;
    }
    StrictlySortedUnique(after, after');
  }

  lemma SameElements(points: seq<Point>, order: seq<string>, mutants: seq<Mutant>, order': seq<string>,
                     mutants': seq<Mutant>)
    requires Enumerates(order, points) && Collected(points, order, mutants)
    requires Enumerates(order', points) && Collected(points, order', mutants')
    ensures forall m | m in mutants :: m in mutants'
  {
    forall m | m in mutants ensures m in mutants' {
      var i :| 0 <= i < |mutants| && mutants[i] == m;
      assert order[i] in order && order[i] in order';
      var j :| 0 <= j < |order'| && order'[j] == order[i];
      assert mutants'[j] == m;
    }
  }

  /** One mutant for each identifier that occurs, covered when some point with it is covered. */
  lemma DeduplicatedMutants(points: seq<Point>, order: seq<string>, before: seq<Mutant>, after: seq<Mutant>)
    requires Enumerates(order, points) && Collected(points, order, before) && SortOf(before, after)
    ensures forall id :: Occurs(points, id) <==> exists i | 0 <= i < |after| :: after[i].identifier == id
    ensures forall i, j | 0 <= i < j < |after| :: after[i].identifier != after[j].identifier
    ensures forall i | 0 <= i < |after| ::
              after[i].covered <==> CoveredSomewhere(points, after[i].identifier)
  {
    SortingIsStrict(points, order, before, after);
    CollectedAreNamed(points, order, before);
    forall id | Occurs(points, id) ensures exists i | 0 <= i < |after| :: after[i].identifier == id {
      assert id in order;
      var k :| 0 <= k < |order| && order[k] == id;
      assert before[k] in after;
    }
    forall i | 0 <= i < |after|
      ensures Occurs(points, after[i].identifier)
      ensures after[i].covered <==> CoveredSomewhere(points, after[i].identifier)
    {
      assert after[i] in after && after[i] in before;
      var k :| 0 <= k < |before| && before[k] == after[i];
      assert order[k] in order;
      GroupFacts(points, order[k]);
    }
    forall i, j | 0 <= i < j < |after| ensures after[i].identifier != after[j].identifier {
      DistinctIdentifiers(points, order, before, after[i], after[j]);
      assert Less(after[i], after[j]);
      assert after[i] in before && Named(after[i]);
      LessIsStrictTotalOrder(after[i], after[i], after[i]);
    }
  }

  lemma DistinctIdentifiers(points: seq<Point>, order: seq<string>, mutants: seq<Mutant>, a: Mutant, b: Mutant)
    requires Enumerates(order, points) && Collected(points, order, mutants) && a in mutants && b in mutants
    ensures a.identifier == b.identifier ==> a == b
  {
    CollectedAreNamed(points, order, mutants);
    var i :| 0 <= i < |mutants| && mutants[i] == a;
    var j :| 0 <= j < |mutants| && mutants[j] == b;
  }

  /**
   The final list by its fields: paths ascend, lines within a path, columns within a line, and the names of
   mutators within a column, strings being compared at their first difference.
   */
  lemma FinalOrder(points: seq<Point>, order: seq<string>, before: seq<Mutant>, after: seq<Mutant>)
    requires Enumerates(order, points) && Collected(points, order, before) && SortOf(before, after)
    ensures forall i, j | 0 <= i < j < |after| ::
              var a, b := after[i], after[j];
              || Precedes(a.file, b.file)
              || (a.file == b.file && a.line < b.line)
              || (a.file == b.file && a.line == b.line && a.column < b.column)
              || (a.file == b.file && a.line == b.line && a.column == b.column && Precedes(a.mutator, b.mutator))
  {
    SortingIsStrict(points, order, before, after);
    forall i, j | 0 <= i < j < |after|
      ensures var a, b := after[i], after[j];
              || Precedes(a.file, b.file)
              || (a.file == b.file && a.line < b.line)
              || (a.file == b.file && a.line == b.line && a.column < b.column)
              || (a.file == b.file && a.line == b.line && a.column == b.column && Precedes(a.mutator, b.mutator))
    {
      assert Less(after[i], after[j]);
      LessStringIsPrecedes(after[i].file, after[j].file);
      LessStringIsPrecedes(after[i].mutator, after[j].mutator);
    }
  }

  lemma {:induction false} GroupStartsFirst(points: seq<Point>, id: string, k: nat, first: nat)
    requires first < k <= |points| && points[first].userIdentifier == id
    requires forall i | 0 <= i < first :: points[i].userIdentifier != id
    ensures Group(points, id, k) != [] && Group(points, id, k)[0] == points[first]
    decreases k
  {
    if first < k - 1 {
      GroupStartsFirst(points, id, k - 1, first);
    } else {
      NoGroup(points, id, first);
    }
  }

  lemma {:induction false} NoGroup(points: seq<Point>, id: string, k: nat)
    requires k <= |points| && forall i | 0 <= i < k :: points[i].userIdentifier != id
    ensures Group(points, id, k) == []
  {
    if k > 0 {
      NoGroup(points, id, k - 1);
    }
  }

  /** Every mutant of the final list has the locations of the first point with its identifier. */
  lemma LocationsOfFirst(points: seq<Point>, order: seq<string>, before: seq<Mutant>, after: seq<Mutant>, first: nat)
    requires Enumerates(order, points) && Collected(points, order, before) && SortOf(before, after)
    requires first < |points|
    requires forall i | 0 <= i < first :: points[i].userIdentifier != points[first].userIdentifier
    ensures var p := points[first];
            exists m | m in after ::
              && m.identifier == p.userIdentifier && m.mutator == p.mutator.Identifier() && m.file == p.file
              && m.line == p.line && m.column == p.column && m.endLine == p.endLine && m.endColumn == p.endColumn
              && (m.covered <==> exists i | 0 <= i < |points| ::
                    points[i].userIdentifier == p.userIdentifier && points[i].covered)
  {
    var id := points[first].userIdentifier;
    SortingIsStrict(points, order, before, after);
    assert Occurs(points, id) && id in order;
    var k :| 0 <= k < |order| && order[k] == id;
    assert before[k] in after;
    GroupStartsFirst(points, id, |points|, first);
    GroupFacts(points, id);
  }
}
