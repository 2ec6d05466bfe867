/** lib/JunkDetection/CXX/ASTStorage.cpp: the sorted index of function declarations. */
module DeclarationIndex {
  import opened IR

  /** A declaration's source range; `id` tells declarations apart. */
  datatype Decl = Decl(begin: int, end: int, id: nat)

  ghost predicate Ranges(s: seq<Decl>) {
    forall i | 0 <= i < |s| :: s[i].begin <= s[i].end
  }

  ghost predicate SortedByBegin(s: seq<Decl>) {
    forall i, j | 0 <= i < j < |s| :: s[i].begin <= s[j].begin
  }

  /** UniqueLocationComparator: not a symmetric relation, always asked about the last kept element. */
  predicate Overlaps(kept: Decl, next: Decl) {
    !(kept.end < next.begin)
  }

  function KeepAfter(last: Decl, rest: seq<Decl>): seq<Decl>
    decreases |rest|
  {
    if rest == [] then []
    else if Overlaps(last, rest[0]) then KeepAfter(last, rest[1..])
    else [rest[0]] + KeepAfter(rest[0], rest[1..])
  }

  /** std::unique with that comparator, followed by erase. */
  function Unique(s: seq<Decl>): seq<Decl> {
    if s == [] then [] else [s[0]] + KeepAfter(s[0], s[1..])
  }

  /** Moves the kept elements to the front of the array and returns how many there are. */
  method UniqueInPlace(a: array<Decl>) returns (n: nat)
    modifies a
    ensures n <= a.Length && a[..n] == Unique(old(a[..]))
  {
    if a.Length == 0 {
      return 0;
    }
    ghost var was := a[..];
    ghost var kept := [was[0]];
    var last := 0;
    for i := 1 to a.Length
      invariant last < i && |kept| == last + 1
      invariant forall j | 0 <= j <= last :: a[j] == kept[j]
      invariant forall j | i <= j < a.Length :: a[j] == was[j]
      invariant Unique(was) == kept + KeepAfter(kept[last], was[i..])
    {
      if !Overlaps(a[last], a[i]) {
        kept := kept + [a[i]];
        last := last + 1;
        a[last] := a[i];
      }
    }
    n := last + 1;
    assert a[..n] == kept;
  }

  /** Kept ranges are in order and apart. */
  ghost predicate Apart(kept: seq<Decl>) {
    forall i, j | 0 <= i < j < |kept| :: kept[i].end < kept[j].begin
  }

  lemma {:induction false} KeptAreApart(last: Decl, rest: seq<Decl>)
    requires last.begin <= last.end && Ranges(rest)
    ensures Apart([last] + KeepAfter(last, rest)) && Ranges(KeepAfter(last, rest))
    decreases |rest|
  {
    if rest != [] {
      if Overlaps(last, rest[0]) {
        KeptAreApart(last, rest[1..]);
      } else {
        KeptAreApart(rest[0], rest[1..]);
        var tail := [rest[0]] + KeepAfter(rest[0], rest[1..]);
        assert tail == KeepAfter(last, rest);
        forall j | 0 <= j < |tail| ensures last.end < tail[j].begin {
          if j > 0 {
            assert tail[0].end < tail[j].begin;
          }
        }
      }
    }
  }

  lemma UniqueIsApart(s: seq<Decl>)
    requires Ranges(s)
    ensures Apart(Unique(s)) && Ranges(Unique(s))
  {
    if s != [] {
      KeptAreApart(s[0], s[1..]);
    }
  }

  lemma {:induction false} KeptAreRecorded(last: Decl, rest: seq<Decl>)
    ensures forall d | d in KeepAfter(last, rest) :: d in rest
    decreases |rest|
  {
    if rest != [] {
      if Overlaps(last, rest[0]) {
        KeptAreRecorded(last, rest[1..]);
      } else {
        KeptAreRecorded(rest[0], rest[1..]);
      }
    }
  }

  lemma {:induction false} KeepStep(last: Decl, rest: seq<Decl>, d: Decl)
    ensures var kept := [last] + KeepAfter(last, rest);
            [last] + KeepAfter(last, rest + [d]) == if kept[|kept| - 1].end < d.begin then kept + [d] else kept
    decreases |rest|
  {
    if rest == [] {
      assert rest + [d] == [d];
      assert [d][1..] == [];
    } else {
      assert (rest + [d])[1..] == rest[1..] + [d];
      KeepStep(if Overlaps(last, rest[0]) then last else rest[0], rest[1..], d);
    }
  }

  /** A further declaration is kept exactly if it begins past the end of the last one kept before it. */
  lemma UniqueStep(s: seq<Decl>, d: Decl)
    ensures var kept := Unique(s);
            Unique(s + [d]) == if kept == [] || kept[|kept| - 1].end < d.begin then kept + [d] else kept
  {
    if s == [] {
      assert s + [d] == [d] && [d][1..] == [];
    } else {
      assert (s + [d])[1..] == s[1..] + [d];
      KeepStep(s[0], s[1..], d);
    }
  }

  predicate Inside(location: int, d: Decl) {
    d.begin < location < d.end
  }

  /** The reference for the lookup: the first kept range strictly around the location. */
  function LinearSearch(kept: seq<Decl>, location: int): Option<Decl> {
    if kept == [] then None
    else if Inside(location, kept[0]) then Some(kept[0])
    else LinearSearch(kept[1..], location)
  }

  lemma {:induction false} LinearSearchFinds(kept: seq<Decl>, location: int, i: nat)
    requires Apart(kept) && Ranges(kept) && i < |kept| && Inside(location, kept[i])
    ensures LinearSearch(kept, location) == Some(kept[i])
  {
    if i > 0 {
      assert kept[0].end < kept[i].begin;
      LinearSearchFinds(kept[1..], location, i - 1);
    }
  }

  lemma {:induction false} LinearSearchFails(kept: seq<Decl>, location: int)
    requires forall i | 0 <= i < |kept| :: !Inside(location, kept[i])
    ensures LinearSearch(kept, location) == None
  {
    if kept != [] {
      LinearSearchFails(kept[1..], location);
    }
  }

  /** std::lower_bound: the first range that does not end before the location. */
  method LowerBound(decls: seq<Decl>, location: int) returns (first: nat)
    requires forall i, j | 0 <= i < j < |decls| :: decls[i].end <= decls[j].end
    ensures first <= |decls|
    ensures forall i | 0 <= i < first :: decls[i].end < location
    ensures forall i | first <= i < |decls| :: decls[i].end >= location
  {
    first := 0;
    var count: nat := |decls|;
    while count > 0
      invariant first + count <= |decls|
      invariant forall i | 0 <= i < first :: decls[i].end < location
      invariant forall i | first + count <= i < |decls| :: decls[i].end >= location
    {
      var step := count / 2;
      if decls[first + step].end < location {
        forall i | 0 <= i < first + step + 1 ensures decls[i].end < location {}
        first := first + step + 1;
        count := count - (step + 1);
      } else {
        forall i | first + step <= i < |decls| ensures decls[i].end >= location {}
        count := step;
      }
    }
  }

  /** std::sort, of which callers know no more than the contract says. */
  method Sort(s: seq<Decl>) returns (sorted: seq<Decl>)
    ensures SortedByBegin(sorted) && multiset(sorted) == multiset(s)
  {
    sorted := [];
    for i := 0 to |s|
      invariant SortedByBegin(sorted) && multiset(sorted) == multiset(s[..i])
    {
      InsertAdds(sorted, s[i]);
      InsertKeepsSorted(sorted, s[i]);
      sorted := Insert(sorted, s[i]);
      assert s[..i + 1] == s[..i] + [s[i]];
    }
    assert s[..|s|] == s;
  }

  function Insert(s: seq<Decl>, d: Decl): seq<Decl> {
    if s == [] || d.begin <= s[0].begin then [d] + s else [s[0]] + Insert(s[1..], d)
  }

  lemma {:induction false} InsertAdds(s: seq<Decl>, d: Decl)
    ensures multiset(Insert(s, d)) == multiset(s) + multiset{d}
    ensures forall e | e in Insert(s, d) :: e == d || e in s
  {
    if s != [] && d.begin > s[0].begin {
      InsertAdds(s[1..], d);
      assert s == [s[0]] + s[1..];
    }
  }

  lemma {:induction false} InsertKeepsSorted(s: seq<Decl>, d: Decl)
    requires SortedByBegin(s)
    ensures SortedByBegin(Insert(s, d))
  {
    if s != [] && d.begin > s[0].begin {
      var rest := Insert(s[1..], d);
      InsertKeepsSorted(s[1..], d);
      InsertAdds(s[1..], d);
      forall i | 0 <= i < |rest| ensures s[0].begin <= rest[i].begin {
        assert rest[i] in rest;
      }
    }
  }

  lemma RangesOfPermutation(s: seq<Decl>, t: seq<Decl>)
    requires Ranges(s) && multiset(s) == multiset(t)
    ensures Ranges(t)
  {
    forall i | 0 <= i < |t| ensures t[i].begin <= t[i].end {
      assert t[i] in multiset(t);
    }
  }

  class AstUnit {
    var decls: seq<Decl>

    constructor ()
      ensures decls == []
    {
      decls := [];
    }

    ghost predicate Valid()
      reads this
    {
      Apart(decls) && Ranges(decls)
    }

    /** Indexes the visited declarations; in which order sorting leaves ties is not promised. */
    method RecordDeclarations(visited: seq<Decl>) returns (ghost order: seq<Decl>)
      requires Ranges(visited)
      modifies this
      ensures SortOf(order, visited)
      ensures Valid() && decls == Unique(order)
      ensures Laminar(visited) && TiesEndTogether(visited) ==> FindsAll(visited, decls)
    {
      var sorted := Sort(visited);
      order := sorted;
      RangesOfPermutation(visited, sorted);
      var a := new Decl[|sorted|](i requires 0 <= i < |sorted| => sorted[i]);
      assert a[..] == sorted;
      var n := UniqueInPlace(a);
      decls := a[..n];
      UniqueIsApart(sorted);
      if Laminar(visited) {
        EverySortFindsAll(visited);
      }
    }

    /** The binary search finds what a linear search would. */
    method GetDecl(location: int) returns (found: Option<Decl>)
      requires Valid()
      ensures found == LinearSearch(decls, location)
      ensures found.Some? <==> exists i | 0 <= i < |decls| :: Inside(location, decls[i])
      ensures found.Some? ==> found.value in decls && found.value.begin < location < found.value.end
    {
      if decls == [] {
        return None;
      }
      forall i, j | 0 <= i < j < |decls| ensures decls[i].end <= decls[j].end {
        assert decls[i].end < decls[j].begin <= decls[j].end;
      }
      var lower := LowerBound(decls, location);
      if lower < |decls| && decls[lower].begin < location && location < decls[lower].end {
        LinearSearchFinds(decls, location, lower);
        return Some(decls[lower]);
      }
      forall i | 0 <= i < |decls| ensures !Inside(location, decls[i]) {
        if lower < i {
          assert decls[lower].end < decls[i].begin;
        }
      }
      LinearSearchFails(decls, location);
      return None;
    }
  }

  // --- Which locations are found.

  predicate Nested(inner: Decl, outer: Decl) {
    outer.begin <= inner.begin && inner.end <= outer.end
  }

  /** Two declarations are disjoint or one contains the other. */
  predicate LaminarPair(a: Decl, b: Decl) {
    a.end < b.begin || b.end < a.begin || Nested(a, b) || Nested(b, a)
  }

  ghost predicate Laminar(s: seq<Decl>) {
    forall a, b | a in s && b in s :: LaminarPair(a, b)
  }

  /** No declaration that begins where k begins has a location inside it past the end of k. */
  ghost predicate LongestAt(s: seq<Decl>, k: Decl) {
    forall d | d in s && d.begin == k.begin :: d.end <= k.end || d.end <= d.begin + 1
  }

  ghost predicate LongestKept(s: seq<Decl>, kept: seq<Decl>) {
    forall k | k in kept :: LongestAt(s, k)
  }

  /** No earlier declaration reaches the beginning of the i-th. */
  ghost predicate Uncovered(s: seq<Decl>, i: nat)
    requires i < |s|
  {
    forall h | 0 <= h < i :: s[h].end < s[i].begin
  }

  /** Of the declarations that begin together, outside all others, the longest was sorted first. */
  ghost predicate LongestFirst(s: seq<Decl>) {
    forall i, j | 0 <= i < j < |s| && s[i].begin == s[j].begin && Uncovered(s, i) ::
      s[j].end <= s[i].end || s[j].end <= s[j].begin + 1
  }

  lemma {:induction false} UncoveredAreKept(s: seq<Decl>, n: nat, last: Decl, i: nat)
    requires n <= i < |s| && last in s[..n] && Uncovered(s, i)
    ensures s[i] in KeepAfter(last, s[n..])
    decreases |s| - n
  {
    assert s[n..][0] == s[n] && s[n..][1..] == s[n + 1..];
    assert s[..n + 1] == s[..n] + [s[n]];
    if Overlaps(last, s[n]) {
      var h :| 0 <= h < n && s[h] == last;
      assert n != i;
      UncoveredAreKept(s, n + 1, last, i);
    } else if n < i {
      UncoveredAreKept(s, n + 1, s[n], i);
    }
  }

  lemma UncoveredIsKept(s: seq<Decl>, i: nat)
    requires i < |s| && Uncovered(s, i)
    ensures s[i] in Unique(s)
  {
    if i > 0 {
      UncoveredAreKept(s, 1, s[0], i);
    }
  }

  /** The first n declarations do not begin, nor reach with more than an empty inside, past `last`. */
  ghost predicate Dominates(s: seq<Decl>, n: nat, last: Decl)
    requires n <= |s|
  {
    forall h | 0 <= h < n :: s[h].begin <= last.end && (s[h].end <= last.end || s[h].end <= s[h].begin + 1)
  }

  lemma KeptIsLongest(s: seq<Decl>, n: nat, last: Decl)
    requires SortedByBegin(s) && Ranges(s) && Laminar(s) && LongestFirst(s)
    requires n < |s| && Dominates(s, n, last) && !Overlaps(last, s[n])
    ensures LongestAt(s, s[n])
  {
    assert forall h | 0 <= h < n :: s[h].begin < s[n].begin;
    forall d | d in s && d.begin == s[n].begin ensures d.end <= s[n].end || d.end <= d.begin + 1 {
      var j :| 0 <= j < |s| && s[j] == d;
      if !Uncovered(s, n) {
        var h :| 0 <= h < n && s[h].end >= s[n].begin;
        assert s[h] in s && LaminarPair(s[h], d);
      }
    }
  }

  lemma {:induction false} AllKeptAreLongest(s: seq<Decl>, n: nat, last: Decl)
    requires SortedByBegin(s) && Ranges(s) && Laminar(s) && LongestFirst(s)
    requires 0 < n <= |s| && last in s && Dominates(s, n, last) && LongestAt(s, last)
    requires n < |s| ==> last.begin <= s[n].begin
    ensures forall k | k in KeepAfter(last, s[n..]) :: LongestAt(s, k)
    decreases |s| - n
  {
    if n < |s| {
      assert s[n..][0] == s[n] && s[n..][1..] == s[n + 1..];
      if Overlaps(last, s[n]) {
        assert s[n] in s && LaminarPair(last, s[n]);
        AllKeptAreLongest(s, n + 1, last);
      } else {
        KeptIsLongest(s, n, last);
        AllKeptAreLongest(s, n + 1, s[n]);
      }
    }
  }

  /** What the sorted list has to be like is what the kept one is then like. */
  lemma LongestFirstIsKept(s: seq<Decl>)
    requires SortedByBegin(s) && Ranges(s) && Laminar(s)
    ensures LongestFirst(s) <==> LongestKept(s, Unique(s))
  {
    if LongestKept(s, Unique(s)) {
      forall i, j | 0 <= i < j < |s| && s[i].begin == s[j].begin && Uncovered(s, i)
        ensures s[j].end <= s[i].end || s[j].end <= s[j].begin + 1
      {
        UncoveredIsKept(s, i);
        assert LongestAt(s, s[i]) && s[j] in s;
      }
    }
    if LongestFirst(s) && s != [] {
      AllKeptAreLongest(s, 1, s[0]);
    }
  }

  ghost predicate Found(kept: seq<Decl>, location: int) {
    exists i | 0 <= i < |kept| :: Inside(location, kept[i])
  }

  /** Every location strictly inside one of the declarations is inside a kept one. */
  ghost predicate FindsAll(s: seq<Decl>, kept: seq<Decl>) {
    forall d, location | d in s && Inside(location, d) :: Found(kept, location)
  }

  lemma {:induction false} CoveredByKept(all: seq<Decl>, kept: seq<Decl>, last: Decl, rest: seq<Decl>, d: Decl)
    requires Laminar(all) && LongestKept(all, kept) && last in all && last in kept
    requires forall e | e in rest :: e in all && last.begin <= e.begin
    requires forall k | k in KeepAfter(last, rest) :: k in kept
    requires SortedByBegin(rest)
    requires (d == last || d in rest) && d.end > d.begin + 1
    ensures exists k | k in kept :: Nested(d, k)
    decreases |rest|
  {
    if d == last {
      assert Nested(d, last);
    } else {
      var first := rest[0];
      assert first in rest && forall e | e in rest[1..] :: e in rest;
      if Overlaps(last, first) && d == first {
        assert LaminarPair(last, first);
      } else if Overlaps(last, first) {
        CoveredByKept(all, kept, last, rest[1..], d);
      } else {
        var more := KeepAfter(first, rest[1..]);
        assert KeepAfter(last, rest) == [first] + more;
        assert first in [first] + more && forall k | k in more :: k in [first] + more;
        CoveredByKept(all, kept, first, rest[1..], d);
      }
    }
  }

  lemma CoveredByUnique(s: seq<Decl>, d: Decl)
    requires SortedByBegin(s) && Laminar(s) && LongestKept(s, Unique(s))
    requires d in s && d.end > d.begin + 1
    ensures exists k | k in Unique(s) :: Nested(d, k)
  {
    forall e | e in s[1..] ensures e in s && s[0].begin <= e.begin {
      var i :| 0 <= i < |s| - 1 && s[1..][i] == e;
      assert s[i + 1] == e;
    }
    CoveredByKept(s, Unique(s), s[0], s[1..], d);
  }

  lemma KeptDecls(s: seq<Decl>)
    ensures forall k | k in Unique(s) :: k in s
  {
    if s != [] {
      KeptAreRecorded(s[0], s[1..]);
    }
  }

  lemma InsideIsFound(s: seq<Decl>, d: Decl, location: int)
    requires SortedByBegin(s) && Ranges(s) && Laminar(s) && LongestKept(s, Unique(s))
    requires d in s && Inside(location, d)
    ensures exists i | 0 <= i < |Unique(s)| :: Nested(d, Unique(s)[i]) && Inside(location, Unique(s)[i])
  {
    var kept := Unique(s);
    CoveredByUnique(s, d);
    var k :| k in kept && Nested(d, k);
    var i :| 0 <= i < |kept| && kept[i] == k;
  }

  lemma ShorterHides(s: seq<Decl>, d: Decl, k: Decl) returns (location: int)
    requires Ranges(s) && d in s && k in Unique(s) && d.begin == k.begin && d.end > k.end && d.end > d.begin + 1
    ensures Inside(location, d) && !Found(Unique(s), location)
  {
    UniqueIsApart(s);
    var i :| 0 <= i < |Unique(s)| && Unique(s)[i] == k;
    location := if k.end > k.begin then k.end else k.begin + 1;
  }

  /**
   For properly nested declarations, every location strictly inside one is found exactly when
   sorting put the longest first among those that begin together outside all earlier ones.
   */
  lemma EveryLocationIsFound(s: seq<Decl>)
    requires SortedByBegin(s) && Ranges(s) && Laminar(s)
    ensures FindsAll(s, Unique(s)) <==> LongestFirst(s)
  {
    LongestFirstIsKept(s);
    if LongestFirst(s) {
      forall d, location | d in s && Inside(location, d) ensures Found(Unique(s), location) {
        InsideIsFound(s, d, location);
      }
    } else {
      var k :| k in Unique(s) && !LongestAt(s, k);
      var d :| d in s && d.begin == k.begin && d.end > k.end && d.end > d.begin + 1;
      var location := ShorterHides(s, d, k);
    }
  }

  // --- The same, before sorting.

  ghost predicate SortOf(s: seq<Decl>, visited: seq<Decl>) {
    SortedByBegin(s) && multiset(s) == multiset(visited)
  }

  /** No declaration that begins earlier reaches `begin`. */
  ghost predicate Free(s: seq<Decl>, begin: int) {
    forall h | h in s && h.begin < begin :: h.end < begin
  }

  /** Declarations that begin together, outside all others, end together or have nothing inside. */
  ghost predicate TiesEndTogether(s: seq<Decl>) {
    forall d, e | d in s && e in s && d.begin == e.begin && Free(s, d.begin) ::
      e.end <= d.end || e.end <= e.begin + 1
  }

  lemma SameMembers(s: seq<Decl>, t: seq<Decl>)
    requires multiset(s) == multiset(t)
    ensures forall d :: d in s <==> d in t
  {
    assert forall d :: d in s <==> d in multiset(s);
  }

  lemma SortHasSame(s: seq<Decl>, visited: seq<Decl>)
    requires SortOf(s, visited)
    ensures Ranges(visited) ==> Ranges(s)
    ensures Laminar(s) <==> Laminar(visited)
    ensures TiesEndTogether(s) <==> TiesEndTogether(visited)
  {
    SameMembers(s, visited);
    if Ranges(visited) {
      RangesOfPermutation(visited, s);
    }
    assert forall b: int :: Free(s, b) <==> Free(visited, b);
  }

  lemma TiesAreLongestFirst(s: seq<Decl>)
    requires SortedByBegin(s) && TiesEndTogether(s)
    ensures LongestFirst(s)
  {
    forall i, j | 0 <= i < j < |s| && s[i].begin == s[j].begin && Uncovered(s, i)
      ensures s[j].end <= s[i].end || s[j].end <= s[j].begin + 1
    {
      assert Free(s, s[i].begin);
      assert s[i] in s && s[j] in s;
    }
  }

  lemma {:induction false} InsertedFirst(s: seq<Decl>, d: Decl) returns (i: nat)
    requires SortedByBegin(s)
    ensures i < |Insert(s, d)| && Insert(s, d)[i] == d
    ensures forall h | 0 <= h < i :: Insert(s, d)[h].begin < d.begin
  {
    i := 0;
    if s != [] && d.begin > s[0].begin {
      i := InsertedFirst(s[1..], d);
      i := i + 1;
    }
  }

  /** Some sorting leaves a given declaration first among those that begin with it. */
  lemma {:induction false} SortedFirst(visited: seq<Decl>, d: Decl) returns (s: seq<Decl>, i: nat)
    requires d in visited
    ensures SortOf(s, visited) && i < |s| && s[i] == d && forall h | 0 <= h < i :: s[h].begin < d.begin
    decreases |visited|
  {
    var k :| 0 <= k < |visited| && visited[k] == d;
    var rest := visited[..k] + visited[k + 1..];
    assert visited == visited[..k] + [d] + visited[k + 1..];
    var sorted := [];
    if rest != [] {
      sorted, i := SortedFirst(rest, rest[0]);
    }
    s := Insert(sorted, d);
    InsertAdds(sorted, d);
    InsertKeepsSorted(sorted, d);
    i := InsertedFirst(sorted, d);
  }

  lemma UnevenTiesHide(visited: seq<Decl>) returns (s: seq<Decl>)
    requires !TiesEndTogether(visited)
    ensures SortOf(s, visited) && !LongestFirst(s)
  {
    var d, e :| d in visited && e in visited && d.begin == e.begin && Free(visited, d.begin)
                && e.end > d.end && e.end > e.begin + 1;
    var i;
    s, i := SortedFirst(visited, d);
    SameMembers(s, visited);
    var j :| 0 <= j < |s| && s[j] == e;
    assert Uncovered(s, i);
    assert i < j && s[i].begin == s[j].begin;
  }

  /**
   Whatever order sorting leaves ties in, every location is found: exactly when the visited declarations
   that begin together outside all others end together.
   */
  lemma EverySortFindsAll(visited: seq<Decl>)
    requires Ranges(visited) && Laminar(visited)
    ensures TiesEndTogether(visited) <==> forall s | SortOf(s, visited) :: FindsAll(visited, Unique(s))
  {
    forall s | SortOf(s, visited)
      ensures FindsAll(visited, Unique(s)) <==> LongestFirst(s)
      ensures TiesEndTogether(visited) ==> LongestFirst(s)
    {
      SameMembers(s, visited);
      SortHasSame(s, visited);
      EveryLocationIsFound(s);
      if TiesEndTogether(s) {
        TiesAreLongestFirst(s);
      }
    }
    if !TiesEndTogether(visited) {
      var s := UnevenTiesHide(visited);
    }
  }

  /** Then the declaration found is the outermost one around the location. */
  lemma FoundIsOutermost(s: seq<Decl>, location: int, d: Decl)
    requires SortedByBegin(s) && Ranges(s) && Laminar(s) && LongestFirst(s)
    requires d in s && Inside(location, d)
    ensures var found := LinearSearch(Unique(s), location);
            && found.Some? && found.value in s && Inside(location, found.value)
            && forall e | e in s && Inside(location, e) :: Nested(e, found.value)
  {
    var kept := Unique(s);
    UniqueIsApart(s);
    KeptDecls(s);
    LongestFirstIsKept(s);
    InsideIsFound(s, d, location);
    var i :| 0 <= i < |kept| && Nested(d, kept[i]) && Inside(location, kept[i]);
    LinearSearchFinds(kept, location, i);
    forall e | e in s && Inside(location, e) ensures Nested(e, kept[i]) {
      InsideIsFound(s, e, location);
      var j :| 0 <= j < |kept| && Nested(e, kept[j]) && Inside(location, kept[j]);
      LinearSearchFinds(kept, location, j);
    }
  }

  /** Distinct beginnings are enough for that. */
  lemma DistinctBeginsAreEnough(s: seq<Decl>)
    requires SortedByBegin(s) && Ranges(s) && Laminar(s)
    requires forall i, j | 0 <= i < j < |s| :: s[i].begin != s[j].begin
    ensures FindsAll(s, Unique(s))
  {
    EveryLocationIsFound(s);
  }

  /** A shorter declaration sorted before a longer one with the same beginning hides it. */
  lemma HiddenDeclaration()
    ensures var s := [Decl(1, 3, 0), Decl(1, 5, 1)];
            && SortedByBegin(s) && Ranges(s) && Laminar(s)
            && Inside(4, s[1]) && LinearSearch(Unique(s), 4) == None
  {
    var s := [Decl(1, 3, 0), Decl(1, 5, 1)];
    assert s[1..] == [s[1]] && s[1..][1..] == [];
    assert Unique(s) == [s[0]];
  }
}
