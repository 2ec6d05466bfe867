# Mull: a verified model of mutant schemata and the pipeline around it

Mull puts every mutant of a program into one instrumented program and switches one on per run
through an environment variable. This project models the parts of that pipeline whose correctness
is not visible from reading one function, and proves what they promise.

**Mutant schemata.** `IR` and `Interpreter` give modules a meaning: blocks with phis, calls by
function value, a memory and an output, a fixed environment, with `depth` bounding nested calls and
`budget` the blocks of one invocation, so that running out of fuel is told apart from every outcome.
`Schemata` states the four phases (clone, delete, insert trampolines, apply) as functions of the
source module; `Modules`, `Bitcodes` and `Drivers` carry them out in place on objects and are proved
to compute those functions. `Trampoline` is the body that replaces a mutated function. `Simulation`
relates the instrumented module to a reference in both directions, and `WholeProgram` concludes:
under any environment and for any program, recursive ones included, the instrumented program ends
with exactly the outcomes of the source program in which every function has the body of its last
covered enabled mutant. `Enabling` and `MutantExecution` add that identifiers are injective and that
the run for one mutant is the source with that mutant written out and nothing else; `Witness` gives
a module, a machine and a memory that meet the hypotheses, of a program that calls through a pointer
read back from memory. `Addresses` is the level below: instruction objects, their
addresses and their images in clones.

**Logical mutators.** `Rewriting`, `AndToOr` and `OrToAnd` are the two finders and their rewrites,
as loops over a function edited in place. `Duality` shows that one is the other seen through
exchanged branch targets; `PhiRules` says exactly when the result obeys the rules of the LLVM
Language Reference ('phi' Instruction: one entry for each predecessor edge, entries for one block agree);
`Findings` says in terms of the graph alone what the finders select on a legal body, and what becomes of
the joined value of `a && b` or `a || b`;
`PatternMeaning`, `Chains`, `Disjunctions`, `ChainRuns` and `DisjunctionRuns` say what a mutated
condition computes, `Counterexamples` where that is not what one would expect; `MutatorMeaning` ties this
to mutation points by their mutator's name, and `MutatorRoundTrip` composes the two
mutators.

**Executor and reporter.** `Batches` is the split of the work, `Executor` a state machine in which
workers and the reporter take steps in any order; its invariant gives the refinement of the
sequential executor and the accuracy of the reporter's non-atomic scans.

**Codecs and indexes.** `Points`, `Text`, `Records` and `Extraction` cover the mutant records from
printer to parser, `Deduplication` the canonical list of mutants, `DeclarationIndex` the sorted
index of declarations, `SourceLines` the line index, `MutatorGroups` the expansion of groups and
the choice of mutators.

What the proofs show about the code, beyond what one would expect of it:

- The abandoned edge of Patterns 1 and 2 leaves its phi entries behind: the result is legal only if
  the abandoned block has no phis (`PhiRules.LegalAfterAndToOr`). The join of `a && b && c` has one
  (`Counterexamples.StaleEntry`). No predecessor ever lacks an entry, though
  (`PhiRules.CompleteAfterAndToOr`).
- In a chain of operands the mutation of one `&&` reaches to the next operand without a negation, and
  past the end of the chain if there is none. Exactly one `&&` becomes `||` if and only if the next
  operand is not negated, or all later ones are negated and the first branch behind the chain that
  fits a pattern fits the operand's own and happens to lead past the next operand (`Chains.ExactlyOneReplaced`). By itself `a && !b` is not mutated at
  all, and `a && !b && c` in more than one place (`Counterexamples.NoneReplaced`,
  `Counterexamples.TwoReplaced`).
- Pattern 3 negates the phi's first entry, which is the first branch's value exactly when that entry
  belongs to the first block (`PatternMeaning.NegatedEntry`); `Counterexamples.WrongEntry` is a body
  where it does not.
- When several points of one function are enabled, the last covered one wins
  (`Trampoline.DispatchWinner`).
- A function of the source that is already called `mull_<f>_original` is taken for the kept copy
  (`Schemata.CopyIsFound`), and trampolines drop variadic arguments
  (`Enabling.VariadicArgumentsAreDropped`).
- A record comes back exactly when its mutator and path are non-empty and free of `:` and NUL and
  its numbers fit 32 bits (`Records.RecordsRoundTrip`).
- A shorter declaration sorted before a longer one with the same beginning hides it
  (`DeclarationIndex.HiddenDeclaration`), and nothing else does, for nested declarations
  (`DeclarationIndex.EveryLocationIsFound`). Whatever order sorting leaves ties in, all is found exactly
  if declarations that begin together outside all others end together
  (`DeclarationIndex.EverySortFindsAll`).
- The last line of a file is read with one byte too many (`SourceLines.LastLineHasJunk`).

## Model

| member | source | states |
|---|---|---|
| `WholeProgram.WholeProgramCorrect` | lib/Driver.cpp:195-235 | For every transformable module, machine, environment, function, arguments, memory and outcome other than running out of fuel, where no address in arguments and memory is of a function that the source does not have and no instruction makes one up: the instrumented program ends so if and only if the source with each function's last covered enabled mutant written out does |
| `WholeProgram.NothingEnabled` | lib/Parallelization/Tasks/MutantPreparationTasks.cpp:67-163 | If no identifier of a covered point is in the environment, the instrumented program has exactly the outcomes of the source program |
| `WholeProgram.DepthAtMostDoubles` | lib/Parallelization/Tasks/MutantPreparationTasks.cpp:138-161 | An outcome that the reference reaches at depth d is reached by the instrumented program at depth 2d, with a budget of at least the longest trampoline |
| `WholeProgram.LastEnabled` | lib/Parallelization/Tasks/MutantPreparationTasks.cpp:103-134 | The point found is covered and enabled, and no later covered point is enabled; none is found only if no covered point is enabled |
| `WholeProgram.CloneIsMutant` | lib/Parallelization/Tasks/ApplyMutationTask.cpp:8-17 | After all phases the clone of a covered point is its source function, internal, named by the point's identifier as far as that was free, with only that point's mutation applied: for a trivial mutator the instruction at the point's address, if it is neither phi nor terminator, is the rewritten one, and at every other address is what the source has |
| `WholeProgram.NothingElseIsAdded` | lib/Parallelization/Tasks/MutantPreparationTasks.cpp:20-57 | Every function past those of the source is the clone of a covered point or the kept copy of a function that has one |
| `WholeProgram.KeptCopyIsOriginal` | lib/Parallelization/Tasks/MutantPreparationTasks.cpp:43-57 | The kept copy has the source body and the name `mull_<f>_original`, and looking that name up leads to it |
| `WholeProgram.CopyIsOriginal` | lib/Parallelization/Tasks/MutantPreparationTasks.cpp:94-99 | After all phases the copy still has the source body, and the trampoline's default choice is that copy |
| `WholeProgram.PreparedTrampoline` | lib/Parallelization/Tasks/MutantPreparationTasks.cpp:75-161 | Every function with a covered point, and its signature, ends up as a trampoline over its own covered points |
| `WholeProgram.PreparedUncovered` | lib/Parallelization/Tasks/MutantPreparationTasks.cpp:75-85 | A function without covered points is left exactly as it was |
| `WholeProgram.OthersArePrepared` | lib/MutationPoint.cpp:123-126 | Applying the mutations touches neither source functions nor kept copies |
| `WholeProgram.DispatchIsLastEnabled` | lib/Parallelization/Tasks/MutantPreparationTasks.cpp:101-134 | The trampoline built from a list of mixed covered and uncovered points dispatches to the clone of the last covered enabled one, else to the copy |
| `WholeProgram.InstrumentedImplements` | lib/Driver.cpp:205-234 | Every function of the instrumented module is its reference function, or a trampoline that dispatches to a function with the reference's body |
| `Witness.FollowsThePointer` | lib/Parallelization/Tasks/MutantPreparationTasks.cpp:20-163 | All hypotheses of the whole-program theorem are met at once: by a module with two covered points on one instruction, a machine that loads, stores and passes on any value, and a memory that holds a function's address; instrumented, the module calls that function through the pointer read from memory if neither point is enabled, and crashes as its mutants do if one is |
| `Simulation.SimInvoke` | lib/Parallelization/Tasks/MutantPreparationTasks.cpp:149-161 | With enough fuel on the second side, a call has the same outcome in reference and instrumented module, in either direction, and neither returns nor leaves in memory an address that the source module does not have |
| `Simulation.SameBehaviour` | lib/Parallelization/Tasks/MutantPreparationTasks.cpp:67-163 | A module that implements a reference has the same terminating behaviours and so diverges together with it |
| `Simulation.InvokeTrampoline` | lib/Parallelization/Tasks/MutantPreparationTasks.cpp:138-161 | Calling a trampoline costs one level of depth and then is running the reference body on the same arguments |
| `Trampoline.RunTrampoline` | lib/Parallelization/Tasks/MutantPreparationTasks.cpp:88-161 | A run from the entry makes exactly one call, of the dispatched function with the declared arguments, unless the budget is below the length of the path |
| `Trampoline.RunHead` | lib/Parallelization/Tasks/MutantPreparationTasks.cpp:101-136 | The same from the check of any choice, over the choices up to it |
| `Trampoline.PathLengthBound` | lib/Parallelization/Tasks/MutantPreparationTasks.cpp:103-136 | Dispatching enters at most one check per covered point, and the selected block and the call block |
| `Trampoline.BuildIsAcyclic` | lib/Parallelization/Tasks/MutantPreparationTasks.cpp:88-136 | Every edge of a trampoline stays inside it and leads to a block of smaller rank |
| `Trampoline.DispatchWinner` | lib/Parallelization/Tasks/MutantPreparationTasks.cpp:131-133 | If choice i is enabled and no later one is, the target is clone i |
| `Trampoline.DispatchDefault` | lib/Parallelization/Tasks/MutantPreparationTasks.cpp:96-101 | If no choice is enabled, the target is the original copy |
| `Trampoline.ChecksAt` | lib/Parallelization/Tasks/MutantPreparationTasks.cpp:103-134 | The i-th covered point has its check and selection blocks at fixed positions, whatever the later points are |
| `Schemata.CloneIsCopy` | lib/Parallelization/Tasks/MutantPreparationTasks.cpp:20-33 | The clone of a covered point is an internal copy of its source function under the point's identifier, or a name made from it if that is taken, however much is cloned before and after |
| `Schemata.ClonesAreOfPoints` | lib/Parallelization/Tasks/MutantPreparationTasks.cpp:23-26 | Every function that cloning adds is the clone of a covered point; uncovered points add none |
| `Schemata.CloneIdsDiffer` | lib/Parallelization/Tasks/MutantPreparationTasks.cpp:20-33 | No two covered points share a clone |
| `Schemata.DeletedBody` | lib/Parallelization/Tasks/MutantPreparationTasks.cpp:43-57 | A function's body is emptied exactly when it has a covered point, and nothing else of it changes |
| `Schemata.KeptCopies` | lib/Parallelization/Tasks/MutantPreparationTasks.cpp:47-53 | The copy taken before emptying has the full body, and later deletions leave it alone |
| `Schemata.CopyNameIsFree` | lib/MutationPoint.cpp:190-192 | If the source does not use the name of the copy, neither clones nor earlier copies have taken it |
| `Schemata.CopyIsFound` | lib/Parallelization/Tasks/MutantPreparationTasks.cpp:96 | The lookup by name finds the kept copy if and only if the source module had no function of that name |
| `Schemata.InsertedBody` | lib/Parallelization/Tasks/MutantPreparationTasks.cpp:75-85 | A body is rebuilt exactly when it has a covered point, whatever is inserted elsewhere |
| `Schemata.ApplyAllFacts` | lib/Parallelization/Tasks/ApplyMutationTask.cpp:10-16 | After the first k points exactly their clones are mutated, each once |
| `Schemata.CloneAllEndings` | lib/MutationPoint.cpp:178-188 | Every function that cloning adds ends like an identifier, so none has the name of an original copy |
| `Modules.LookupFinds` | lib/Parallelization/Tasks/MutantPreparationTasks.cpp:96 | With distinct names, a function is found at its own position |
| `Modules.UniqueNameIsFresh` | lib/MutationPoint.cpp:178-181 | The name a function gets is not taken in its module |
| `Modules.UniqueNameIsWanted` | lib/MutationPoint.cpp:178-188 | That name begins with the wanted one, and is the wanted one exactly if that was free |
| `Modules.Module.CloneFunction` | lib/Parallelization/Tasks/MutantPreparationTasks.cpp:27-30 | Appends one function, the copy under a unique name, and changes no other |
| `Bitcodes.Bitcode.AddMutation` | lib/Bitcode.cpp:39-42 | Appends the point to the list of its function and leaves the other lists alone |
| `Bitcodes.Bitcode.RecordMutation` | lib/MutationPoint.cpp:137-156 | Appends the record, ended by a NUL, to the section |
| `Bitcodes.Bitcode.ApplyMutation` | lib/MutationPoint.cpp:123-126 | Mutates the point's clone, covered or not, by the point's mutator at its address, and nothing else; a trivial mutator rewrites the instruction at that address and leaves all others |
| `Bitcodes.Bitcode.ApplyMutations` | lib/Parallelization/Tasks/ApplyMutationTask.cpp:8-17 | Records every point, covered or not, and applies the covered ones, each on its own clone |
| `Bitcodes.GroupedFacts` | lib/Bitcode.cpp:39-42 | The lists hold exactly the added points, each once and under its own function |
| `Bitcodes.CloneFunctions` | lib/Parallelization/Tasks/MutantPreparationTasks.cpp:20-33 | In place: the module becomes the cloned one, and every covered point knows the position of its own clone |
| `Bitcodes.FindCovered` | lib/Parallelization/Tasks/MutantPreparationTasks.cpp:76-82 | True exactly if some point is covered |
| `Bitcodes.DeleteFunctions` | lib/Parallelization/Tasks/MutantPreparationTasks.cpp:43-57 | In place: the module becomes the one with copies kept and bodies emptied |
| `Bitcodes.InsertTrampoline` | lib/Parallelization/Tasks/MutantPreparationTasks.cpp:86-161 | Fills the emptied function with the trampoline over the clones that its points were given |
| `Bitcodes.BuildChecks` | lib/Parallelization/Tasks/MutantPreparationTasks.cpp:101-134 | The loop over the points builds the chain of checks over the covered ones and ends at its head |
| `Bitcodes.InsertTrampolines` | lib/Parallelization/Tasks/MutantPreparationTasks.cpp:67-163 | In place: the module becomes the one in which every emptied function is rebuilt |
| `Bitcodes.MarkedChoicesAreChoices` | lib/Parallelization/Tasks/MutantPreparationTasks.cpp:129 | What the points were given while cloning is what the trampolines select |
| `Drivers.JobsAreValid` | lib/Driver.cpp:205-234 | Cloning leaves every covered point with its own clone: all are placed, none is missing, no two share one |
| `Drivers.JobsCanBeDone` | lib/MutationPoint.cpp:123-126 | When mutations are applied, every clone is still a body that its mutator accepts |
| `Drivers.PrepareMutations` | lib/Driver.cpp:195-235 | Nothing on a dry run; else the preparation of one module computes the instrumented module that the whole-program theorem is about, and the section of all records |
| `Addresses.GetIndex` | lib/MutationPoint.cpp:56-67 | The first position of the value, or the length if it is not there |
| `Addresses.AddressFromInstruction` | lib/MutationPoint.cpp:69-75 | The address leads back to the instruction, in its function and in its module |
| `Addresses.CloneFunction` | lib/Parallelization/Tasks/MutantPreparationTasks.cpp:27-28 | Cloning fills an injective value map with new instructions in the same places |
| `Addresses.AddressFindsImage` | lib/MutationPoint.cpp:32-37 | In every clone the address finds the image of the instruction it was taken from, and no other address does |
| `Addresses.AddressesOfPoints` | lib/MutationPoint.cpp:69-75 | The addresses of a function object are the positions in the body it represents, which its clones represent too |
| `Addresses.MutationRewritesImage` | lib/MutationPoint.cpp:32-37 | A trivial mutator given the address taken from an instruction object rewrites, in a clone, the image of that very instruction and of no other |
| `Points.SafeAfterApply` | lib/MutationPoint.cpp:123-126 | A mutant refers to no function that its module does not have |
| `Points.ApplyMutator` | lib/MutationPoint.cpp:123-126 | Carries out the point's mutation in place in one function of the module; a trivial mutator rewrites the instruction at the address and leaves all others |
| `Points.TrivialMutant` | lib/MutationPoint.cpp:32-37 | A body is the mutant of a trivial point if and only if it has the same addresses, the rewritten instruction at the point's address, if that names neither phi nor terminator, and at every other address what the original has, phis counted before instructions and the terminator last |
| `Points.LogicalIdentifiers` | lib/Mutators/CXX/LogicalAndToOr.cpp:18-20 | The two logical mutators go by their documented names, which differ |
| `MutatorMeaning.AndToOrPoint` | lib/Mutators/CXX/LogicalAndToOr.cpp:43-66 | The mutant of a point named cxx_logical_and_to_or at an operand of a conjunction whose next operand is plain computes the conjunction with that && made || |
| `MutatorMeaning.OrToAndPoint` | lib/Mutators/CXX/LogicalOrToAnd.cpp:43-66 | The mutant of a point named cxx_logical_or_to_and at an operand of a disjunction whose next operand is plain computes the disjunction with that || made && |
| `Enabling.IdentifierInjective` | lib/MutationPoint.cpp:85-87 | Equal identifiers have equal mutator, file, line and column, if mutator names have no colon; paths may |
| `Enabling.SeparatorInMutatorIsAmbiguous` | lib/MutationPoint.cpp:85-87 | With a colon in a mutator's name two different mutants share an identifier |
| `Enabling.EnablingIsExact` | lib/Parallelization/Tasks/MutantPreparationTasks.cpp:103-134 | If one mutant is enabled, a function's body is replaced exactly if it has a covered point of that mutant, and by that mutant |
| `Enabling.VariadicArgumentsAreDropped` | lib/Parallelization/Tasks/MutantPreparationTasks.cpp:138-141 | A trampoline of a variadic function calls its target with the declared arguments only |
| `MutantExecution.ExecuteMutants` | lib/Parallelization/Tasks/MutantExecutionTask.cpp:18-36 | One result per mutant, in order: a covered one is run in an environment with the inherited names and its identifier, set to 1, and the inherited values of all other names; the others are reported as not covered |
| `MutantExecution.OneEnvironment` | lib/Toolchain/Runner.cpp:35-42 | There is exactly one such environment |
| `MutantExecution.FirstOrderIsReference` | lib/Toolchain/Runner.cpp:35-42 | An environment that adds one identifier to an inherited one without any enables exactly that mutant in every function |
| `MutantExecution.MutantRunIsFirstOrder` | lib/Parallelization/Tasks/MutantExecutionTask.cpp:18-36 | The run for one mutant has exactly the outcomes of the source program with that mutant written out wherever a covered point asks for it, and nowhere else |
| `Rewriting.FindOtherEntry` | lib/Mutators/CXX/LogicalAndToOr.cpp:291-311 | True exactly if some phi of the block has an entry for a block other than the first one |
| `Rewriting.PatchBlock` | lib/Mutators/CXX/LogicalAndToOr.cpp:115-131 | In place: every phi with an entry for the second block also accepts its value from the first block |
| `Rewriting.PatchPhis` | lib/Mutators/CXX/LogicalAndToOr.cpp:106-132 | In place: one such extension for each successor of the second branch that is the new target |
| `AndToOr.FindPossibleMutationInBranch` | lib/Mutators/CXX/LogicalAndToOr.cpp:247-316 | The scan with its flag returns the first later branch that fits a pattern, and that pattern |
| `AndToOr.ScanIsFirst` | lib/Mutators/CXX/LogicalAndToOr.cpp:257-315 | The branch found fits its pattern and no branch in between fits any; if none is found, none fits |
| `Findings.FoundIsFirstFit` | lib/Mutators/CXX/LogicalAndToOr.cpp:247-316 | On a legal body a branch is found, as a given pattern, if and only if it is the first later conditional branch that fits: failing to the same target; failing to where the first one goes when it holds; or failing to neither, in the block that the first one fails to, if that has a phi and a predecessor other than the first block |
| `Findings.Pattern3IsFound` | lib/Mutators/CXX/LogicalAndToOr.cpp:291-311 | Pattern 3 is found if and only if the first branch fails to a later block with a phi, a conditional branch and another predecessor, and no conditional branch up to that one fails to a target of the first |
| `AndToOr.ApplyPattern12` | lib/Mutators/CXX/LogicalAndToOr.cpp:70-197 | In place: replaces the first branch and patches the phis of its new target |
| `AndToOr.ApplyPattern3` | lib/Mutators/CXX/LogicalAndToOr.cpp:199-243 | In place: negates the phi's first constant and exchanges the targets of the first branch |
| `AndToOr.ApplyMutation` | lib/Mutators/CXX/LogicalAndToOr.cpp:43-66 | In place: finds and applies the pattern for the addressed branch, and changes no other function |
| `OrToAnd.FindPossibleMutationInBranch` | lib/Mutators/CXX/LogicalOrToAnd.cpp:249-320 | The dual scan returns the first later branch that fits a dual pattern, and that pattern |
| `Findings.OrFoundIsFirstFit` | lib/Mutators/CXX/LogicalOrToAnd.cpp:249-320 | The dual of the first fit, on true targets |
| `Findings.OrPattern3IsFound` | lib/Mutators/CXX/LogicalOrToAnd.cpp:295-315 | The dual condition for Pattern 3, exactly |
| `OrToAnd.ApplyPattern12` | lib/Mutators/CXX/LogicalOrToAnd.cpp:70-199 | In place: replaces the first branch and patches the phis of its new target |
| `OrToAnd.ApplyPattern3` | lib/Mutators/CXX/LogicalOrToAnd.cpp:201-245 | In place: negates the phi's first constant and exchanges the targets of the first branch |
| `OrToAnd.ApplyMutation` | lib/Mutators/CXX/LogicalOrToAnd.cpp:43-66 | In place: finds and applies the dual pattern for the addressed branch |
| `Duality.FindDual` | lib/Mutators/CXX/LogicalOrToAnd.cpp:249-320 | On every graph OrToAnd finds the same pattern number and second branch as AndToOr on the graph with exchanged targets |
| `Duality.RewriteDual` | lib/Mutators/CXX/LogicalOrToAnd.cpp:70-245 | Each of OrToAnd's rewrites is AndToOr's conjugated by the exchange |
| `Duality.MutateDual` | lib/Mutators/CXX/LogicalOrToAnd.cpp:43-66 | So is the whole mutation, and one is possible exactly if the other is |
| `PhiRules.RewriteShape` | lib/Mutators/CXX/LogicalAndToOr.cpp:88-132 | Patterns 1 and 2 change one terminator and the phis of the gained block, and nothing else; those are extended twice if both targets of the second branch are that block |
| `PhiRules.ExtendKeepsEntries` | lib/Mutators/CXX/LogicalAndToOr.cpp:122-130 | A patched phi keeps its values, and its new entry carries the value of the second block's |
| `PhiRules.CompleteAfterAndToOr` | lib/Mutators/CXX/LogicalAndToOr.cpp:70-197 | If every phi had an entry for each predecessor, it still does after Patterns 1 and 2, on every graph |
| `PhiRules.CompleteAfterOrToAnd` | lib/Mutators/CXX/LogicalOrToAnd.cpp:70-199 | The same for Patterns 1 and 2 of OrToAnd |
| `PhiRules.LegalAfterAndToOr` | lib/Mutators/CXX/LogicalAndToOr.cpp:70-197 | Legal phis stay legal under Patterns 1 and 2 if and only if the abandoned block has no phis and a gained block that was a successor already agrees on both entries |
| `PhiRules.LegalAfterPattern3` | lib/Mutators/CXX/LogicalAndToOr.cpp:199-243 | Legal phis stay legal under Pattern 3 of either mutator, which do the same, if and only if the first entry's block has no second entry in that phi |
| `PhiRules.LegalAfterOrToAnd` | lib/Mutators/CXX/LogicalOrToAnd.cpp:70-199 | The dual condition, exactly, for OrToAnd |
| `PhiRules.AbandonedHasNoPhis` | lib/Mutators/CXX/LogicalAndToOr.cpp:88-100 | The edge that the first branch loses leaves stale entries in any phi of the abandoned block |
| `PatternMeaning.RewrittenIsShortCircuitOr` | lib/Mutators/CXX/LogicalAndToOr.cpp:70-197 | In the interpreter the mutated branch goes straight to the second operand's true target, with the phi values of that path, if its own operand holds, and on to the second operand if not; a target that the first branch already led to need only agree on its phi entries |
| `PatternMeaning.RewrittenIsShortCircuitAnd` | lib/Mutators/CXX/LogicalOrToAnd.cpp:70-199 | The dual: straight to the second operand's false target if the own operand fails, on to the second operand if it holds |
| `PatternMeaning.GainedEntry` | lib/Mutators/CXX/LogicalAndToOr.cpp:102-132 | Entering the gained block from the first block computes what entering it from the second one computes, before and after, if its phis do not already hold another value for the first block |
| `PatternMeaning.Pattern3IsShortCircuitOr` | lib/Mutators/CXX/LogicalAndToOr.cpp:199-243 | With a false constant from the first block as the phi's operand 0, the mutant computes the disjunction: straight to the join, where the phi is then true, if the first operand holds, else on to the second operand, whose value the phi takes as before |
| `PatternMeaning.Pattern3IsShortCircuitAnd` | lib/Mutators/CXX/LogicalOrToAnd.cpp:201-245 | The dual: with a true constant, straight to the join, where the phi is then false, if the first operand fails, else on to the second operand |
| `PatternMeaning.NegatedEntry` | lib/Mutators/CXX/LogicalAndToOr.cpp:203-224 | Under Pattern 3 the value supplied by the first block is negated if and only if the phi's first entry is its; other entries and phis keep their values |
| `PatternMeaning.JoinFromFirst` | lib/Mutators/CXX/LogicalAndToOr.cpp:216-224 | Entering the join from the first block gives its phi the negated constant and every other phi what it had |
| `PatternMeaning.JoinFromOther` | lib/Mutators/CXX/LogicalAndToOr.cpp:216-224 | Entering the join from any other block gives what it gave before |
| `Findings.AndValueBecomesOr` | lib/Mutators/CXX/LogicalAndToOr.cpp:199-316 | The lowered value of a && b, in any legal body, is found as Pattern 3; a run that entered the join with 0 if a failed, and went on to b otherwise, enters it in the mutant with 1 if a holds and goes on to b otherwise, and b's value is what the phi then holds, before and after |
| `Findings.OrValueBecomesAnd` | lib/Mutators/CXX/LogicalOrToAnd.cpp:201-320 | The dual for the lowered value of a || b |
| `Findings.TwoOperandsAreExchanged` | lib/Mutators/CXX/LogicalAndToOr.cpp:43-66 | The smallest bodies of both kinds: AndToOr turns the value of a && b into the very body of a || b, and OrToAnd turns it back |
| `Chains.ChainMeaning` | lib/Mutators/CXX/LogicalAndToOr.cpp:247-316 | A lowered chain leaves by its true exit exactly if all operands hold |
| `Chains.FindInChain` | lib/Mutators/CXX/LogicalAndToOr.cpp:275-289 | If some operand after i has no negation, the finder selects the next one of them, as Pattern 1, or as Pattern 2 if operand i is negated |
| `Chains.FindPastChain` | lib/Mutators/CXX/LogicalAndToOr.cpp:275-315 | If every operand after i is negated, the finder finds what it would find starting behind the chain |
| `Chains.MutatedChainMeaning` | lib/Mutators/CXX/LogicalAndToOr.cpp:43-197 | With j the next operand without a negation, the mutated chain leaves by its true exit exactly if all operands hold, except that operand i or operands i + 1 to j suffice |
| `Chains.MutatedPastChain` | lib/Mutators/CXX/LogicalAndToOr.cpp:43-197 | If no such operand is left and operand i is paired, in its own pattern, with a branch behind the chain, control goes to that branch's true target where operand i holds, and the chain is unchanged otherwise |
| `Chains.UnmutatedChain` | lib/Mutators/CXX/LogicalAndToOr.cpp:247-316 | If no such operand is left and no branch behind the chain fits, nothing is mutated and the chain still computes the conjunction |
| `Chains.AdjacentOperands` | lib/Mutators/CXX/LogicalAndToOr.cpp:43-197 | If operand i + 1 has no negation, exactly one conjunction became a disjunction |
| `Chains.NegatedOperandNext` | lib/Mutators/CXX/LogicalAndToOr.cpp:277-289 | If operand i + 1 is negated and a later one is not, some assignment of the conditions tells the mutant from the chain with a single disjunction |
| `Chains.ExactlyOneReplaced` | lib/Mutators/CXX/LogicalAndToOr.cpp:43-316 | For every chain: the mutant is the chain with exactly one conjunction made a disjunction if and only if the next operand is not negated, or all later ones are and the first branch behind the chain that is classified at all is in operand i's own pattern and leads past the next operand |
| `Chains.ExactlyOneReplacedAlone` | lib/Mutators/CXX/LogicalAndToOr.cpp:43-316 | If no branch behind the chain fits a pattern, that is so if and only if the next operand is not negated |
| `ChainRuns.ChainRun` | lib/Mutators/CXX/LogicalAndToOr.cpp:247-316 | In the interpreter a lowered chain evaluates its operands from left to right, each in the frame and world in which it is reached, until one fails, and leaves by the exit of that value |
| `ChainRuns.MutatedChainRun` | lib/Mutators/CXX/LogicalAndToOr.cpp:43-197 | With j the next operand without a negation, the mutated chain evaluates the weakened conjunction in the interpreter, effects of the blocks included, skipping operands i + 1 to j where operand i holds |
| `ChainRuns.PastChainRun` | lib/Mutators/CXX/LogicalAndToOr.cpp:43-197 | If operand i is paired, in its own pattern, with a branch wherever it is, the run goes on at that branch's true target where operand i is reached and holds, and is the chain's otherwise; only if that target is the chain's own start have the phis there changed |
| `ChainRuns.RedirectedRun` | lib/Mutators/CXX/LogicalAndToOr.cpp:90-98 | A chain in which only operand i's branch has a new target runs like the chain up to operand i, and on to the target if it holds |
| `DisjunctionRuns.OrChainRun` | lib/Mutators/CXX/LogicalOrToAnd.cpp:249-320 | In the interpreter a chain lowered from a disjunction evaluates its operands from left to right until one holds |
| `DisjunctionRuns.MutatedOrChainRun` | lib/Mutators/CXX/LogicalOrToAnd.cpp:43-199 | With j the next operand without a negation, the mutated disjunction evaluates operands i + 1 to j only where operand i holds, effects of the blocks included |
| `Disjunctions.OrChainMeaning` | lib/Mutators/CXX/LogicalOrToAnd.cpp:249-320 | A chain lowered from a disjunction leaves by its true exit exactly if some operand holds |
| `Disjunctions.FindInOrChain` | lib/Mutators/CXX/LogicalOrToAnd.cpp:277-293 | If some operand after i has no negation, OrToAnd selects the next one of them, as Pattern 1, or as Pattern 2 if operand i is negated |
| `Disjunctions.MutatedOrChainMeaning` | lib/Mutators/CXX/LogicalOrToAnd.cpp:43-199 | With j the next operand without a negation, operand i of the mutated disjunction counts only together with one of operands i + 1 to j |
| `Disjunctions.ExactlyOneOrReplaced` | lib/Mutators/CXX/LogicalOrToAnd.cpp:43-320 | Exactly one disjunction is made a conjunction if and only if the next operand is not negated, or all later ones are and the first branch behind the chain that OrToAnd classifies at all is in operand i's own pattern and its false target lies past the next operand |
| `Counterexamples.StaleEntry` | lib/Mutators/CXX/LogicalAndToOr.cpp:88-100 | The value of a && b && c joined in a phi: legal, and no longer so after the first branch is mutated |
| `Counterexamples.WrongEntry` | lib/Mutators/CXX/LogicalAndToOr.cpp:216-224 | The same body: mutating the second branch makes the first branch's false entry true and leaves its own false |
| `Counterexamples.TwoReplaced` | lib/Mutators/CXX/LogicalAndToOr.cpp:275-289 | a && !b && c: the first operand is paired with the third, and the mutant is not the one with a single disjunction |
| `Counterexamples.NoneReplaced` | lib/Mutators/CXX/LogicalAndToOr.cpp:247-316 | a && !b: nothing is found and nothing is mutated |
| `Counterexamples.ReplacedByAccident` | lib/Mutators/CXX/LogicalAndToOr.cpp:275-289 | a && !b before another test of the same two targets: that test is taken for the second operand, with the right result |
| `MutatorRoundTrip.RoundTrip` | lib/Mutators/CXX/LogicalOrToAnd.cpp:70-199 | AndToOr then OrToAnd with Pattern 1 or 2 restores every terminator, and the whole body if and only if no phi of either target knew the second block |
| `MutatorRoundTrip.RoundTripPattern3` | lib/Mutators/CXX/LogicalOrToAnd.cpp:201-245 | With Pattern 3 every terminator is restored, and the constant if and only if it was 0 or 1 |
| `Batches.TaskBatches` | lib/Parallelization/TaskExecutor.cpp:7-35 | As many positive sizes as tasks, summing to the number of items; the k-th is the ceiling of (n - k) / m; they never grow and differ by at most one |
| `Batches.BatchSizeIs` | lib/Parallelization/TaskExecutor.cpp:22-31 | The first n mod m batches have one item more than the quotient, the others exactly it |
| `Executor.Configure` | include/mull/Parallelization/TaskExecutor.h:45-50 | There are as many batches as workers, never more than items, and they cover all items |
| `Executor.ExecuteSequentially` | include/mull/Parallelization/TaskExecutor.h:84-93 | Appends the outputs of all items in order and counts every item |
| `Executor.OutputsJoin` | include/mull/Parallelization/TaskExecutor.h:84-93 | The outputs of consecutive ranges of items, joined, are those of the whole range |
| `Executor.MergeStorages` | include/mull/Parallelization/TaskExecutor.h:77-81 | Appends every element of every storage, in order |
| `Executor.InvIsInductive` | include/mull/Parallelization/TaskExecutor.h:57-81 | Every step of any thread keeps the invariant on batches, storages, counters, reporter and output |
| `Executor.RunKeepsInv` | include/mull/Parallelization/TaskExecutor.h:45-82 | The invariant holds in every state of every interleaving |
| `Executor.StoragesAreOutputs` | include/mull/Parallelization/TaskExecutor.h:77-81 | The storages of finished workers together are the outputs of all their items, in order |
| `Executor.ParallelRefinesSequential` | include/mull/Parallelization/TaskExecutor.h:45-93 | Under every interleaving the merged output is the sequential one, order included, and before the merge the output is untouched |
| `Executor.ScanIsAccurate` | lib/Parallelization/Progress.cpp:35-38 | A scanned sum lies between the true totals at the start and the end of the scan, is no less than the previous one and at most the total |
| `Executor.ReporterLeavesLast` | lib/Parallelization/Progress.cpp:47-49 | The reporter has left only if every worker has counted its last item |
| `Executor.FullScanLeaves` | lib/Parallelization/Progress.cpp:34-50 | A scan that begins after all items are counted is the last |
| `Executor.PrintedProgress` | lib/Parallelization/Progress.cpp:53-74 | Printed values grow strictly, stay within the total, and the last one before leaving is the total |
| `Executor.SequentialMode` | include/mull/Parallelization/TaskExecutor.h:84-93 | With one worker and a reporter beside it, the output so far is that of the items so far at any time, and the reporter leaves only after all items are counted, having printed the total |
| `Executor.EveryRunCanComplete` | include/mull/Parallelization/TaskExecutor.h:70-81 | No interleaving gets stuck: every run extends to one that merges the sequential output |
| `Text.StoiRoundTrip` | tools/mull-runner/MutantExtractor.cpp:54-58 | std::stoi reads back what std::to_string prints, for every 32-bit number |
| `Text.StoiReads` | tools/mull-runner/MutantExtractor.cpp:54-58 | White space, a sign or none, and digits up to something else are read as the signed number if it fits 32 bits, and rejected if not |
| `Text.StoiReadsOnly` | tools/mull-runner/MutantExtractor.cpp:54-58 | Whatever is read has that form |
| `Text.PrintedNumbers` | lib/MutationPoint.cpp:86-87 | Numbers are printed in base ten, highest digit first |
| `Text.NoLeadingZero` | lib/MutationPoint.cpp:86-87 | No positive number is printed with a zero in front |
| `Text.ToStringInjective` | lib/MutationPoint.cpp:86-87 | Different numbers print differently |
| `Text.LessStringOrder` | lib/Mutant.cpp:49-50 | The order on strings is strict, total and transitive |
| `Text.LessStringIsPrecedes` | lib/Mutant.cpp:49-50 | One string is less than another if and only if at their first difference it has ended or has the smaller character |
| `Records.SplitParts` | tools/mull-runner/MutantExtractor.cpp:10-20 | Returns the non-empty parts between delimiters |
| `Records.SplitAppend` | tools/mull-runner/MutantExtractor.cpp:10-20 | Splitting distributes over a delimiter |
| `Records.SplitChunks` | tools/mull-runner/MutantExtractor.cpp:10-20 | The parts are non-empty, without delimiters and made of the input's characters |
| `Records.ExtractMutants` | tools/mull-runner/MutantExtractor.cpp:48-71 | Decodes every record of the section in order, or fails if one cannot be decoded |
| `Records.DecodeIs` | tools/mull-runner/MutantExtractor.cpp:50-68 | A record decodes to a mutant if and only if it has seven parts or more, the first two are the mutator and the path, the next four read as the positions, the seventh as a number that is not zero exactly if covered, and the identifier is the first four fields again |
| `Records.ExtractIs` | tools/mull-runner/MutantExtractor.cpp:48-71 | Any section yields a list of mutants if and only if all its records decode, to one mutant each and in order |
| `Records.EncodingRoundTrip` | lib/MutationPoint.cpp:137-143 | Decoding an encoded point with clean names gives its mutant, identifier included |
| `Records.RecordsRoundTrip` | tools/mull-runner/MutantExtractor.cpp:44-71 | With any NUL padding before, between and after the records, the list of mutants comes back if and only if all names and numbers survive the format |
| `Extraction.SectionRoundTrip` | tools/mull-runner/MutantExtractor.cpp:44-71 | The same for the section that the instrumentation of a module writes |
| `Deduplication.LessIsStrictTotalOrder` | lib/Mutant.cpp:46-51 | The comparator is a strict order, total on mutants with different identifiers |
| `Deduplication.BuildMapping` | lib/Driver.cpp:42-45 | Every identifier is mapped to its points in the order of the list |
| `Deduplication.MutantFromGroup` | lib/Driver.cpp:47-63 | Locations of the first point, covered exactly if some point of the group is |
| `Deduplication.Collect` | lib/Driver.cpp:46-64 | For any order of the hash map, one mutant per key with its group's data |
| `Deduplication.GroupFacts` | lib/Driver.cpp:42-59 | A group is non-empty exactly if its identifier occurs, and has a covered point exactly if the list has one with that identifier |
| `Deduplication.SortingIsStrict` | lib/Driver.cpp:65 | However the list is sorted, the result is strictly ascending and has the same members |
| `Deduplication.FinalOrder` | lib/Mutant.cpp:46-51 | In the final list paths ascend, lines within a path, columns within a line and mutators within a column, strings being compared at their first difference |
| `Deduplication.CanonicalDeduplication` | lib/Driver.cpp:41-66 | The final list is the same for any two orders of the hash map and any two sorting algorithms |
| `Deduplication.DeduplicatedMutants` | lib/Driver.cpp:41-66 | It has exactly one mutant for each identifier that occurs, covered if and only if some point with that identifier is |
| `Deduplication.LocationsOfFirst` | lib/Driver.cpp:46-64 | For the first point with any identifier the final list has a mutant with that point's mutator and locations, covered if and only if some point with the identifier is |
| `DeclarationIndex.UniqueInPlace` | lib/JunkDetection/CXX/ASTStorage.cpp:139-141 | In place: the array starts with the elements that do not begin before the end of the last kept one |
| `DeclarationIndex.UniqueStep` | lib/JunkDetection/CXX/ASTStorage.cpp:139-141 | A further declaration is kept if and only if it begins past the end of the last one kept before it |
| `DeclarationIndex.UniqueIsApart` | lib/JunkDetection/CXX/ASTStorage.cpp:118-142 | The kept ranges are ordered and pairwise disjoint, though the relation is no equivalence |
| `DeclarationIndex.LowerBound` | lib/JunkDetection/CXX/ASTStorage.cpp:151-156 | The binary search returns the first range that does not end before the location |
| `DeclarationIndex.AstUnit.RecordDeclarations` | lib/JunkDetection/CXX/ASTStorage.cpp:130-142 | Sorts the visited declarations by their beginning, ties in no promised order, and keeps those that do not begin before the end of the last kept one; the result is ordered and disjoint, and has every strictly inner location if nested declarations that begin together outside all others end together |
| `DeclarationIndex.AstUnit.GetDecl` | lib/JunkDetection/CXX/ASTStorage.cpp:144-168 | Finds what a linear search finds: a kept range strictly around the location, if and only if there is one |
| `DeclarationIndex.EveryLocationIsFound` | lib/JunkDetection/CXX/ASTStorage.cpp:130-168 | For nested declarations, every location strictly inside one is found if and only if, of declarations that begin together and outside all earlier ones, the first in sorted order is the longest |
| `DeclarationIndex.EverySortFindsAll` | lib/JunkDetection/CXX/ASTStorage.cpp:130-168 | For nested visited declarations, every sorting lets every strictly inner location be found if and only if those that begin together, outside all that begin earlier, end together or have nothing inside |
| `DeclarationIndex.LongestFirstIsKept` | lib/JunkDetection/CXX/ASTStorage.cpp:130-142 | That condition on the sorted list holds exactly if no kept range is shorter than another declaration with the same beginning |
| `DeclarationIndex.FoundIsOutermost` | lib/JunkDetection/CXX/ASTStorage.cpp:130-168 | Then the declaration found encloses every declaration around the location |
| `DeclarationIndex.DistinctBeginsAreEnough` | lib/JunkDetection/CXX/ASTStorage.cpp:130-168 | With distinct beginnings every location strictly inside a nested declaration is found |
| `DeclarationIndex.HiddenDeclaration` | lib/JunkDetection/CXX/ASTStorage.cpp:122-124 | Two nested declarations with one beginning, of which the outer one is not found |
| `SourceLines.ComputeOffsets` | lib/Reporters/SourceManager.cpp:44-52 | The loop records 0, one past each newline, and one past the end of the file |
| `SourceLines.StartsAreLines` | lib/Reporters/SourceManager.cpp:44-51 | Between two recorded offsets lies exactly one newline-terminated line |
| `SourceLines.LineIsSegment` | lib/Reporters/SourceManager.cpp:13-27 | Line k, up to the number of newlines, is the k-th newline-terminated segment |
| `SourceLines.LastLineHasJunk` | lib/Reporters/SourceManager.cpp:17-25 | The last line is what follows the last newline and, unless it is NUL, one byte that was never read |
| `SourceLines.LineIsCString` | lib/Reporters/SourceManager.cpp:17-26 | A line of any file, with NULs or without, is its segment up to the first NUL, the last one having the unread byte |
| `SourceLines.LinesConcatenate` | lib/Reporters/SourceManager.cpp:13-27 | The lines in order are the content up to the last newline |
| `SourceLines.SourceManager.GetLineOffset` | lib/Reporters/SourceManager.cpp:35-58 | A cached lookup agrees with a fresh one, and keeps the cache right |
| `SourceLines.SourceManager.GetLine` | lib/Reporters/SourceManager.cpp:13-27 | Cached or not, the line is that of the file |
| `SourceLines.SourceManager.GetNumberOfLines` | lib/Reporters/SourceManager.cpp:29-33 | One more than the number of newlines |
| `MutatorGroups.ExpandGroups` | lib/Mutators/MutatorsFactory.cpp:72-81 | Terminates on acyclic groups and adds exactly the names, other than groups, that requested names reach, whatever their order and repetitions |
| `MutatorGroups.ReachesThrough` | lib/Mutators/MutatorsFactory.cpp:74-80 | A group reaches a name exactly through one of its members |
| `MutatorGroups.InsertKeepsAscending` | lib/Mutators/MutatorsFactory.cpp:250-260 | Insertion into a sorted list keeps it strictly ascending and adds one name |
| `MutatorGroups.InOrder` | lib/Mutators/MutatorsFactory.cpp:260 | A set is walked in strictly ascending order, each name once |
| `MutatorGroups.MutatorsFactory.Mutators` | lib/Mutators/MutatorsFactory.cpp:244-274 | With groups requested, every known mutator among their members exactly once and in ascending order, a warning for exactly the unknown members, and another exactly if none is known; with none requested the same for the group `cxx_default`; and so on every call anew |

## Left out

- LLVM's types, instructions and linker: `Op` stands for any instruction whose meaning the instrumentation does not look at; of the terminators only branches, returns and unreachable are modelled, not `switch`, `invoke` or indirect branches.
- Modules.UniqueName: LLVM's own suffix for a taken name is not reproduced; the model appends dots until the name is new, and the proofs use only that the result is unused and, if changed, does not end like an original copy.
- Instructions, blocks and functions are positions in the schemata model; pointer identity is modelled in `Addresses` only.
- WholeProgram.WholeProgramCorrect: one module at a time, no variadic mutated functions (`Enabling.VariadicArgumentsAreDropped` says what happens to them), no free use of the names `mull_*_original` (`Schemata.CopyIsFound` says when the copy is found), an environment that does not change during the run, and safe addresses: given arguments and a memory with no address of a function that the source does not have, instructions and external functions return and store none either. An external function cannot call back into the module.
- `getenv` is an instruction of the model: a program that defines its own `getenv`, and the declaration that instrumentation inserts for it, are not modelled.
- Drivers.PrepareMutations: one module; in the source the first three phases run over all modules in parallel, which share nothing, by the executor that `Executor` models.
- Trivial mutators are arbitrary functions on one instruction that is neither a phi nor a terminator; what the individual operators rewrite is not modelled.
- AndToOr.ApplyPattern12: the two pattern methods of the source differ in one line and are one method here; likewise in OrToAnd. The lists that `getMutations` builds are not modelled.
- Rewriting.CanRewrite: the source asserts that Pattern 3 finds a phi whose operand 0 is a constant; without one there is no mutant, and the callers require it.
- Chains.Lowered: a chain has phis in its first block only and blocks in layout order, as for a condition without other conditions inside; what a disjunction paired with a branch behind its chain computes is stated by the exact condition only, in `Disjunctions`.
- The executor's memory model: each counter access is one atomic step, storages are private until the join, and threads are not assumed to be scheduled fairly, so completion is proved possible from every state rather than certain. `execute()`'s choice between the two modes, timing and the progress bar's stars are not modelled.
- Executor.ExecuteSequentially: the loop by itself; the reporter that the source starts before it and joins after it is in `Executor.SequentialMode`.
- Batches.TaskBatches: sizes are unbounded integers; the conversion of `size_t` to `int` for more than 2^31 - 1 items is not modelled.
- SourceLines.Offsets: offsets are unbounded; files of 4 GiB and more, whose 32-bit offsets would wrap around, are not modelled. A file that cannot be opened is not modelled.
- SourceLines.SourceManager.GetLine: requires the line to be in the index, as the source asserts, and to be at least 1.
- Records.ExtractMutants: where the source would throw or read past the chunks of a malformed record, the model returns None; reading the executable and finding its section is left out.
- Deduplication.SortOf: std::sort and std::unordered_map are any sorted permutation and any order of the keys.
- DeclarationIndex.AstUnit.RecordDeclarations: takes the declarations that Clang's traversal visits; the traversal, source locations (integers here) and the mutexes are left out.
- MutatorGroups.ExpandGroups: requires acyclic groups, on which alone the source terminates; the concrete tables of mutators and groups are left out.
- Process running, time limits, coverage loading, filters, reports, SQLite, diagnostics, the command line, compilation databases, git diffs, and the Clang front end: input and output, or thin wrappers.
- The mutation score and the star count of the progress bar are floating point and not modelled.
