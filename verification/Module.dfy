/** The mutable module that the instrumentation phases and the mutators edit in place. */
module Modules {
  import opened IR

  predicate Taken(functions: seq<Function>, name: string) {
    exists f | f in functions :: f.name == name
  }

  function LongestName(functions: seq<Function>): nat {
    if functions == [] then 0
    else
      var rest := LongestName(functions[1..]);
      if |functions[0].name| > rest then |functions[0].name| else rest
  }

  function Dots(n: nat): string {
    seq(n, _ => '.')
  }

  /**
   A module never holds one name twice: a taken name gets a suffix. LLVM's own choice of
   suffix is not modelled, only that it leads to an unused name and does not end in a letter.
   */
  function UniqueName(functions: seq<Function>, wanted: string): string {
    if Taken(functions, wanted) then wanted + Dots(LongestName(functions) + 1) else wanted
  }

  /** Position of the function with this name, if there is one. */
  function Lookup(functions: seq<Function>, name: string): Option<FnId> {
    if functions == [] then None
    else if functions[0].name == name then Some(0)
    else match Lookup(functions[1..], name)
      case None => None
      case Some(i) => Some(i + 1)
  }

  ghost predicate DistinctNames(functions: seq<Function>) {
    forall i, j | 0 <= i < j < |functions| :: functions[i].name != functions[j].name
  }

  lemma {:induction false} LongestNameBounds(functions: seq<Function>, f: Function)
    requires f in functions
    ensures |f.name| <= LongestName(functions)
  {
    if f != functions[0] {
      LongestNameBounds(functions[1..], f);
    }
  }

  lemma UniqueNameIsFresh(functions: seq<Function>, wanted: string)
    ensures !Taken(functions, UniqueName(functions, wanted))
  {
    var name := UniqueName(functions, wanted);
    if Taken(functions, name) {
      var f :| f in functions && f.name == name;
      LongestNameBounds(functions, f);
    }
  }

  /** A name is changed only if it is taken, and then by a suffix. */
  lemma UniqueNameIsWanted(functions: seq<Function>, wanted: string)
    ensures wanted <= UniqueName(functions, wanted)
    ensures UniqueName(functions, wanted) == wanted <==> !Taken(functions, wanted)
  {
    assert UniqueName(functions, wanted) != wanted ==> |UniqueName(functions, wanted)| > |wanted|;
  }

  lemma {:induction false} LookupFinds(functions: seq<Function>, i: nat)
    requires DistinctNames(functions) && i < |functions|
    ensures Lookup(functions, functions[i].name) == Some(i)
  {
    if i > 0 {
      assert functions[0].name != functions[i].name;
      LookupFinds(functions[1..], i - 1);
    }
  }

  /** What llvm::CloneFunction followed by setName appends. */
  function Cloned(functions: seq<Function>, f: FnId, wanted: string, internal: bool): Function
    requires f < |functions|
  {
    functions[f].(name := UniqueName(functions, wanted), internal := internal)
  }

  class Module {
    var functions: seq<Function>

    constructor (source: seq<Function>)
      ensures functions == source
    {
      functions := source;
    }

    method CloneFunction(f: FnId, wanted: string, internal: bool) returns (clone: FnId)
      requires f < |functions|
      modifies this
      ensures clone == |old(functions)|
      ensures functions == old(functions) + [Cloned(old(functions), f, wanted, internal)]
    {
      clone := |functions|;
      functions := functions + [Cloned(functions, f, wanted, internal)];
    }

    method GetFunction(name: string) returns (f: Option<FnId>)
      ensures f == Lookup(functions, name)
    {
      f := Lookup(functions, name);
    }

    method SetBody(f: FnId, body: Body)
      requires f < |functions|
      modifies this
      ensures functions == old(functions)[f := old(functions)[f].(body := body)]
    {
      functions := functions[f := functions[f].(body := body)];
    }

    method ReplaceTerminator(f: FnId, b: Label, term: Terminator)
      requires f < |functions| && b < |functions[f].body|
      modifies this
      ensures var body := old(functions)[f].body;
              functions == old(functions)[f := old(functions)[f].(body := body[b := body[b].(term := term)])]
    {
      var body := functions[f].body;
      SetBody(f, body[b := body[b].(term := term)]);
    }

    method ReplacePhi(f: FnId, b: Label, i: nat, phi: Phi)
      requires f < |functions| && b < |functions[f].body| && i < |functions[f].body[b].phis|
      modifies this
      ensures var body := old(functions)[f].body;
              var block := body[b].(phis := body[b].phis[i := phi]);
              functions == old(functions)[f := old(functions)[f].(body := body[b := block])]
    {
      var body := functions[f].body;
      SetBody(f, body[b := body[b].(phis := body[b].phis[i := phi])]);
    }
  }
}
