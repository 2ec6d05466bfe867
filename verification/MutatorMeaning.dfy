/** What the points of the two logical mutators, by their names, do to the conditions they are at. */
module MutatorMeaning {
  import opened IR
  import opened Rewriting
  import opened Points
  import opened Chains
  import opened Disjunctions
  import AndToOr
  import OrToAnd

  /** The point is at the branch of operand i. */
  predicate AtOperand(p: Point, body: Body, c: Chain, i: nat)
    requires c.End() <= |body| && i < c.Length()
  {
    p.address == Address(c.start + i, InstructionCount(body[c.start + i]) - 1)
  }

  /** At a branch of a conjunction, before a plain operand, "cxx_logical_and_to_or" replaces one && by ||. */
  lemma AndToOrPoint(p: Point, body: Body, c: Chain, i: nat, holds: Label -> bool)
    requires !p.mutator.Trivial? && p.mutator.Identifier() == "cxx_logical_and_to_or"
    requires Lowered(body, c) && InRange(body) && i + 1 < c.Length() && !c.negated[i + 1] && AtOperand(p, body, c, i)
    ensures Exit(Mutant(p, body), c, holds, c.start, c.Length()) == c.ifHolds <==> OneDisjunction(c, holds, i)
  {
    LogicalIdentifiers();
    AdjacentOperands(body, c, holds, i);
  }

  /** At a branch of a disjunction, before a plain operand, "cxx_logical_or_to_and" replaces one || by &&. */
  lemma OrToAndPoint(p: Point, body: Body, c: Chain, i: nat, holds: Label -> bool)
    requires !p.mutator.Trivial? && p.mutator.Identifier() == "cxx_logical_or_to_and"
    requires LoweredOr(body, c) && InRange(body) && i + 1 < c.Length() && !c.negated[i + 1] && AtOperand(p, body, c, i)
    ensures Exit(Mutant(p, body), c, holds, c.start, c.Length()) == c.ifFails <==> !OneConjunction(c, holds, i)
  {
    LogicalIdentifiers();
    ExactlyOneOrReplaced(body, c, i);
    assert ReplacesOneOr(body, c, i);
  }
}
