# Resynthesis and its solver, verified

msyn resynthesises multi-output logic: it looks for signals that suffice to realise a
node, computes the node's new function over them, and installs it. It rests on a SAT
solver (Glucose) and an and-inverter graph package (ABC). This project models the four
layers and proves what each promises.

**The solver** (`SolverTypes`, `Assignments`, `Watches`, `WatchEdits`,
`SolverInvariant`, `ConflictAnalysis`, `AnalysisSteps`, `ReasonPaths`, `LearntClauses`,
`Assumptions`, `DatabaseSteps`, `LiteralOrder`, `Collections`, `SearchProgress`,
`SolverCore`). `SolverCore.Solver` is one state machine: clauses whose literals are
swapped in place, a trail with levels and reasons, watcher lists with blockers, separate
lists for binary clauses. Its invariant `Consistent` says that the trail, the reasons
and the watches fit together and that the live clauses with the level 0 trail have
exactly the models of the formula. `Drained` says which part of the trail has been
propagated: a dequeued false watched literal has its other watch or its blocker true at
no higher level. Every operation keeps both, so the answers of `Solve` are right for any
choice of decisions, restarts, reductions and collections of the clause region. There
always is an answer: between two restarts every turn of the search opens a level or adds
a literal to the first level that changes (`SearchProgress`), which it can do only
finitely often. `Heaps` is the priority heap. `ClauseAllocating` is the copying
collector of clauses: it follows watchers, lists and the reasons of trail literals,
never the reasons left behind by backtracking, and what it leaves can be collected
again. `Collections` shows that it renames references consistently, so the solver's
invariant holds after it.

**Preprocessing** (`Resolution`, `Elimination`, `ClauseLists`, `Recovery`,
`PreprocessingSteps`, `SubsumptionSteps`, `EliminationSteps`, `EliminationOrder`,
`Preprocessing`, `RedundancyCheck`). Backward subsumption, self-subsuming resolution and
variable elimination. The invariant of `Preprocessing.SimpSolver` is that the clauses
follow from the formula, and that the backward walk of the packed vector `elimclauses`
turns every model of them into a model of the formula. `Eliminate` ends, and unless the
user interrupts no live clause then subsumes or strengthens another within the length
limit, no such clause has a variable with a value, and every variable that may be
eliminated was refused. With the option that skips clauses already implied (`useRcheck`,
off by default) this is false of the code: both parents of a resolvent imply it, so the
check drops every resolvent, and then the parents are deleted.
`RedundancyCheck.LoseModel` eliminates v from the two clauses v+a+b and -v+c+d while a,
b, c and d are frozen, as under assumptions on them: the model with everything false
satisfies what is left, although no model of the formula has these values of a to d, and
from it the walk makes v true and ends with the second clause false. The contract of
`EliminateVar` gives the exact condition, checkable before the call: models of what is
left extend if the option is off or every resolvent of the two sides that is no
tautology follows from the clauses not mentioning the variable, and when propagation
runs to a fixpoint exactly then.

**Resynthesis** (`WordCounting`, `BitVectors`, `SetCovering`, `PatchDesign`,
`MergeSelecting`, `DontCares`, `DontCareSolving`, `Resynthesis`). A design is the
implementation as a function of the inputs and the target value, the specification, and
candidate signals that do not depend on the target. The solver is represented by what a
query means; `CircuitCnf`, `SolverInterfacing`, `QuerySolving`, `DontCareSolving` and
`Oracle` build the clauses of the selection and of the enumeration from netlists, load
them into a `SolverCore.Solver` and show that it answers exactly these queries. Clusters
are selected greedily: `Select` succeeds exactly if the greedy choice covers all rows
within the limit. It can refuse although another choice within the limit exists
(`GreedyCanMiss`), but not if one cluster would do. `Resynthesize` chains the
counterexample-guided selection, the enumeration of patterns and the installation of the
cover; its contract is that the patched circuit is right on exactly the inputs that some
target value repairs. The enumeration keeps the cases it has seen as 32-bit keys. If two
patterns on which the target matters share a key (`KeyClash`), the second is met again
and again and the enumeration never completes; otherwise it completes or finds an input
that no value repairs. Up to 32 signals there is no clash; above, `NeverCompletes` gives
designs with one. `Clusters` holds the partition of the gates into clusters, the cones,
and merging, which keeps the cluster graph acyclic exactly if no third cluster lies
between the two.

**Graph algorithms** (`Aigs`, `SupportCones`, `SupportMinimizing`, `AigManaging`,
`AigRebuilding`, `Fanouts`, `Cuts`). Support minimisation under an OR condition,
composition and factoring by memoised rebuilding, fanout rings in one flat array, and
priority cuts, whose enumeration is complete when all pairs fit into the slots
(`CutsComplete`).

Bounds of the model that matter to a reader: integers are unbounded except where a width
is written out (the 32-bit variable hash and case keys); an interrupt by the user is a
parameter that allows it at any moment; nondeterministic choices (`*`) stand for
activities, decay, restarts, LBD limits and which clauses to drop.

Where code and documentation of the repository disagree, the code is followed. Four
facts about it that the proofs brought out: a removed binary clause that is the reason
of its second literal stays recorded as that reason (only the first literal is looked
at), which is harmless because it happens at level 0 only; `setNEqual` numbers its
auxiliary variables from the variables made so far, so a signal that gets its variable
only there can coincide with an auxiliary, and then, unless the two lists are equal,
some differing valuation of the signals is refused (`DifferenceExact`); this happens in
none of the formulas modelled here; a pair of cuts whose union is too large can still
throw out the most costly cut of a node with full slots, because a slot is freed before
the merge (`PairStep`); and `Restruct` takes the inputs of the target from the first
recorded case, so without cases nothing can be installed, which cannot happen after a
successful search because that has recorded an input needing value 1.

## Model

| member | source | states |
|---|---|---|
| `SolverTypes.LitEncoding` | glucose/core/SolverTypes.h:90-101 | the integer encoding of literals is a bijection and negation flips its lowest bit |
| `SolverCore.Solver.UncheckedEnqueue` | glucose/core/Solver.cc:913-917 | the whole assignment after making a literal true: value, level, reason and trail position |
| `Assignments.EnqueueReasons` | glucose/core/Solver.cc:913-917 | every trail literal keeps a sound reason: it is in the clause, the other literals were false before it, and in a long clause it comes first |
| `Assignments.CutSem` | glucose/core/Solver.cc:600-614 | after backjumping the live clauses with the level 0 trail still have exactly the models of the formula |
| `Assignments.CutReasons` | glucose/core/Solver.cc:600-614 | after backjumping every remaining trail literal still has its sound reason or is the decision of its level |
| `SolverCore.Solver.CancelUntil` | glucose/core/Solver.cc:600-614 | backjumping removes exactly the levels above the target and keeps the invariant, even when the queue was not drained at the conflict level |
| `SolverInvariant.CutConsistent` | glucose/core/Solver.cc:600-614 | cutting the trail at a level that was fully propagated keeps the two-watch invariant and leaves nothing undrained |
| `SolverCore.Solver.PropagateBinary` | glucose/core/Solver.cc:942-959 | the binary watchers of a literal are all visited, or a wholly false clause containing its negation is returned at once with the queue not drained |
| `SolverCore.Solver.FindWatch` | glucose/core/Solver.cc:988-1018 | 0 exactly if all literals from the third on are false; otherwise the first preferred one that is not, or else the last one that is not |
| `SolverCore.Solver.OrderWatches` | glucose/core/Solver.cc:974-977 | the false watched literal ends at index 1 and the invariant is kept through the swap inside the clause |
| `SolverCore.Solver.VisitLong` | glucose/core/Solver.cc:963-1032 | one watcher: kept with a true blocker, moved to another list, propagated, or a conflict, with the list invariant carried on |
| `SolverCore.Solver.MoveWatchTo` | glucose/core/Solver.cc:1006-1009 | swapping the new literal into index 1 and pushing the watcher to its list keeps every clause watched by its first two literals |
| `SolverCore.Solver.VisitUnit` | glucose/core/Solver.cc:1020-1032 | the first literal is enqueued with the clause as its reason, or the clause is wholly false and contains the negated literal |
| `SolverCore.Solver.PropagateLong` | glucose/core/Solver.cc:961-1036 | the compacted list holds what was kept; a conflict copies the rest and empties the queue |
| `SolverCore.Solver.CleanAll` | glucose/core/SolverTypes.h:387-414 | lazily deleted watchers are gone from the dirty lists and the invariant holds for the live ones |
| `SolverCore.Solver.Propagate` | glucose/core/Solver.cc:931-1052 | without conflict the queue is empty and every dequeued false watch is covered; a conflict clause is wholly false and contains the negation of the last dequeued literal, before which everything was propagated |
| `SolverInvariant.DrainedMeansPropagated` | glucose/core/Solver.cc:931-1052 | when the queue is empty no attached clause is false, or unit with an unassigned literal |
| `SolverInvariant.QueueLevel` | glucose/core/Solver.cc:952-954 | whatever a conflict left undrained is at the conflict level |
| `Watches.OneWatchFalse` | glucose/core/Solver.cc:965-987 | a watched literal made false in the drained part of the trail has its other watch or its blocker true at no higher level |
| `ConflictAnalysis.Resolve` | glucose/core/Solver.cc:659-735 | resolving on a marked literal keeps: any model agreeing with the unmarked part is refuted by the marked literals |
| `SolverCore.Solver.OrderReason` | glucose/core/Solver.cc:671-678 | a binary reason is swapped so that the implied literal comes first, and every other literal was assigned before it |
| `SolverCore.Solver.ResolveClause` | glucose/core/Solver.cc:669-726 | the marks, the counter and the learnt part after one clause, with the counter exactly the marked literals of the conflict level still ahead |
| `SolverCore.Solver.TakeMarked` | glucose/core/Solver.cc:728-733 | the next marked trail literal of the conflict level, unmarked, with one less ahead |
| `SolverCore.Solver.FirstUip` | glucose/core/Solver.cc:664-736 | the loop ends at a literal of the conflict level with no other marked literal there, and its negation with the collected literals is refuted |
| `ConflictAnalysis.AgreeOnMarked` | glucose/core/Solver.cc:835-869 | marks closed under reasons are decided by the learnt literals, by induction along the trail |
| `ConflictAnalysis.MinimizedEntailed` | glucose/core/Solver.cc:745-775 | dropping together every literal whose reasons lead back to marked ones leaves an entailed clause |
| `SolverCore.Solver.ScanReason` | glucose/core/Solver.cc:849-865 | newly marked literals have reasons and levels in the abstraction; each mark shrinks the unmarked set, so the search ends |
| `SolverCore.Solver.UndoMarks` | glucose/core/Solver.cc:858-861 | a failed search restores the marks and the list exactly |
| `SolverCore.Solver.LitRedundant` | glucose/core/Solver.cc:835-869 | success means that the marks are closed for the literal over reasons, keeping marks of earlier successes; failure that reasons lead through unmarked variables to a decision or to a level outside the abstraction, and changes no mark |
| `SolverCore.Solver.MinimizeDeep` | glucose/core/Solver.cc:746-753 | the shorter clause is entailed and starts with the same literal; each literal kept has no reason, or reasons lead from it outside the clause and its levels |
| `SolverCore.Solver.MinimizeBasic` | glucose/core/Solver.cc:755-770 | the shorter clause of basic minimisation is entailed, a binary reason being scanned from index 0; the reason of each literal kept has an unmarked literal |
| `LearntClauses.Partition` | glucose/core/Solver.cc:575-590 | the in-place partition moves exactly the literals marked by a binary clause to the end |
| `ConflictAnalysis.BinaryMinimized` | glucose/core/Solver.cc:556-595 | removing literals implied through binary clauses on the first literal keeps the clause entailed |
| `SolverCore.Solver.MinimisationWithBinaryResolution` | glucose/core/Solver.cc:556-595 | up to the limit on levels exactly the literals implied by the negated first one through a binary clause go; the clause stays entailed and keeps its first literal |
| `SolverCore.Solver.ComputeLbd` | glucose/core/Solver.cc:487-518 | the number of distinct levels among the literals, in incremental mode among the first ones up to the bound that are no selectors; under `reduceOnSize` the size instead for a short clause, and added for a long one |
| `SolverCore.Solver.FindBtLevel` | glucose/core/Solver.cc:788-803 | index 1 holds a literal of the highest remaining level, which is the level to jump to |
| `SolverCore.Solver.Analyze` | glucose/core/Solver.cc:659-829 | the learnt clause is entailed, wholly false, with exactly its first literal at the conflict level and the second at the backjump level, and all marks are clear |
| `DatabaseSteps.BacktrackMakesUnit` | glucose/core/Solver.cc:1324-1350 | after the backjump the learnt clause is unit with its first literal unassigned |
| `SolverCore.Solver.LearnClause` | glucose/core/Solver.cc:1339-1350 | the learnt clause is stored, watched by its first two literals and propagated, keeping the invariant |
| `SolverCore.Solver.AnalyzeFinal` | glucose/core/Solver.cc:881-911 | the final conflict is entailed, made only of negated assumptions, and all marks are clear |
| `SolverCore.Solver.RemoveClause` | glucose/core/Solver.cc:451-470 | a removed clause disappears from the live data base and, if locked, as the reason of its first literal, and nothing else of the assignment changes |
| `SolverCore.Solver.ReduceDb` | glucose/core/Solver.cc:1149-1182 | deleting any unlocked learnt clauses, and possibly collecting, keeps the invariant, the progress of propagation, and everything of the assignment but the names of reasons |
| `DatabaseSteps.NotLocked` | glucose/core/Solver.h:460-467 | a clause that is not locked, long or binary, is the reason of nothing above level 0 |
| `SolverCore.Solver.Satisfied` | glucose/core/Solver.cc:472-481 | exactly whether the clause has a true literal, in incremental mode among its first two |
| `SolverCore.Solver.RemoveSatisfied` | glucose/core/Solver.cc:1184-1200 | exactly the clauses that look true are removed, and what remains still has the formula's models |
| `SolverCore.Solver.RebuildOrderHeap` | glucose/core/Solver.cc:1202-1208 | the heap holds exactly decision variables without value, and all of them |
| `SolverCore.Solver.Simplify` | glucose/core/Solver.cc:1219-1246 | simplification at level 0 keeps every invariant; false means that the formula is unsatisfiable |
| `SolverCore.Solver.PickBranchLit` | glucose/core/Solver.cc:620-640 | an unassigned variable, or none only if every decision variable has a value |
| `SolverCore.Solver.NextDecision` | glucose/core/Solver.cc:1387-1412 | the next assumption is decided, passed over if true, or refuted with an entailed final conflict; a decision opens levels on top of those there are |
| `Assumptions.AssumptionsHold` | glucose/core/Solver.cc:1388-1412 | once every assumption has its level, all of them hold in the model read off the assignment |
| `Assumptions.AssumptionsImplied` | glucose/core/Solver.cc:1339-1350 | a propagated literal or a level 0 fact keeps every level up to the number of assumptions with its assumption |
| `SolverCore.Solver.HandleConflict` | glucose/core/Solver.cc:1319-1356 | after learning and backjumping the stable state and the decided assumptions are kept, and the level jumped to has one literal more |
| `SolverCore.Solver.Restart` | glucose/core/Solver.cc:1358-1368 | backtracking to the assumptions keeps the stable state |
| `SolverCore.Solver.Search` | glucose/core/Solver.cc:1262-1419 | between two restarts the search ends. True: every decision variable has a value, everything is propagated and the assumptions are in force; false: the formula is unsatisfiable or the final conflict is entailed; whatever the decisions, restarts and reductions |
| `SearchProgress.TurnsShrink` | glucose/core/Solver.cc:1319-1412 | a turn that adds a literal to the first level that changes, or opens a level, leaves fewer turns, of which there are finitely many for the variables and assumptions |
| `SolverCore.Solver.AddClause` | glucose/core/Solver.cc:334-384 | the formula gains the clause; duplicates, false literals, tautologies and satisfied clauses are handled without changing its models |
| `LiteralOrder.SimplifyLits` | glucose/core/Solver.cc:340-360 | the clause without repeated and false literals, or the news that it is true or a tautology |
| `LiteralOrder.SortLits` | glucose/core/Solver.cc:340-340 | the literals in the order of their integer encoding, none lost |
| `SolverCore.Solver.NewVar` | glucose/core/Solver.cc:314-331 | a fresh unassigned variable with empty watch lists, keeping every invariant, also when the solver is no longer ok |
| `SolverCore.Solver.SetDecisionVar` | glucose/core/Solver.h:482-488 | the decision flag changes and the heap still covers the unassigned decision variables |
| `SolverCore.Solver.Solve` | glucose/core/Solver.cc:1456-1522 | the solver always answers, for any choices and any number of restarts: a model gives every decision variable a value and satisfies the assumptions, and the formula if its variables are decision variables; a refutation makes formula and assumptions unsatisfiable together, and without final conflict the formula alone |
| `DatabaseSteps.AddProblemSem` | glucose/core/Solver.cc:354-384 | storing the simplified clause keeps: live clauses and level 0 trail have exactly the models of the formula |
| `Heaps.RootIsLeast` | glucose/mtl/Heap.h:36-36 | the root of a heap is a minimum |
| `Heaps.Heap.PercolateUp` | glucose/mtl/Heap.h:45-58 | heap order is restored upwards and the index array stays the inverse of the heap |
| `Heaps.Heap.PercolateDown` | glucose/mtl/Heap.h:61-73 | heap order is restored downwards from any place on, the elements and the inverse kept |
| `Heaps.Heap.Insert` | glucose/mtl/Heap.h:101-109 | the element is added and the heap stays ordered with its inverse |
| `Heaps.Heap.RemoveMin` | glucose/mtl/Heap.h:112-121 | a minimum is returned and exactly it is removed |
| `Heaps.Heap.Decrease` | glucose/mtl/Heap.h:85-85 | after a priority rose the heap is ordered for the new priorities |
| `Heaps.Heap.Increase` | glucose/mtl/Heap.h:86-86 | after a priority fell the heap is ordered for the new priorities |
| `Heaps.Heap.Update` | glucose/mtl/Heap.h:91-98 | after any change of one priority the heap is ordered, with the element in it |
| `Heaps.Heap.Build` | glucose/mtl/Heap.h:125-136 | a heap of exactly the given elements, whatever was in it before |
| `Heaps.MoveUp` | glucose/mtl/Heap.h:50-55 | one exchange upwards moves the only disorder one place up |
| `Heaps.MoveDown` | glucose/mtl/Heap.h:64-70 | one exchange with the smallest child moves the only disorder one place down |
| `ClauseAllocating.ClauseAllocator.Alloc` | glucose/core/SolverTypes.h:286-297 | the new clause lies at the old end of the region and overlaps none |
| `ClauseAllocating.ClauseAllocator.Reloc` | glucose/core/SolverTypes.h:312-337 | a clause is copied once with literals, mark, learnt flag and LBD, and later requests get the same new reference |
| `ClauseAllocating.ClauseAllocator.RelocReasons` | glucose/core/Solver.cc:1645-1652 | a reason is forwarded if its clause was copied or is locked by its literal, else left as it was |
| `ClauseAllocating.ClauseAllocator.RelocAll` | glucose/core/Solver.cc:1620-1664 | the dirty lists lose the watchers of deleted clauses; then every watcher, learnt and original reference is forwarded, and every reason that is watched or in its place |
| `ClauseAllocating.DeletedKept` | glucose/core/Solver.cc:1620-1664 | a deleted clause is copied only if a list that is not dirty watches it, it is the reason of a trail literal, or it is still listed; with the reasons in place exactly then |
| `ClauseAllocating.ClauseAllocator.GarbageCollect` | glucose/core/Solver.cc:1667-1678 | the new region with the forwarded references, and which clause went where; if the reasons of trail literals were in place, all references lead into the new region, so it can be collected again |
| `ClauseAllocating.ForwardingIsomorphism` | glucose/core/SolverTypes.h:229-231 | new references are equal exactly if the old ones were, and denote clauses with the same literals, mark and flag |
| `ClauseAllocating.NothingElseKept` | glucose/core/Solver.cc:1667-1678 | every clause of the new region is the copy of one that was referred to |
| `ClauseAllocating.AllForwarded` | glucose/core/Solver.cc:1645-1652 | with the reasons in place the reason of every trail literal is forwarded, and exactly the clauses referred to are copied |
| `ClauseAllocating.CollectedInside` | glucose/core/Solver.cc:1620-1664 | after a collection all references lead to clauses of the new region and reasons are in place again |
| `Collections.RenameConsistent` | glucose/core/Solver.cc:1620-1664 | renaming the references of clauses, lists and trail reasons keeps the two-watch invariant, the models, and how far the trail was propagated |
| `Collections.CollectionConsistent` | glucose/core/Solver.cc:1620-1678 | the collector renames: from a consistent state it makes a consistent state without dirty lists, as far propagated, whatever it dropped |
| `SolverCore.Solver.GarbageCollect` | glucose/core/Solver.cc:1667-1678 | the solver after a collection: every invariant is kept, and clauses, lists and trail reasons are those of before under one renaming |
| `SolverCore.Solver.CheckGarbage` | glucose/core/Solver.h:448-451 | collecting or not keeps the invariants and changes nothing of the assignment but the names of reasons |
| `Resolution.CalcAbstraction` | glucose/core/SolverTypes.h:206-211 | the variable hash is the least mask with the bits of all literals |
| `Resolution.HashNeverRejects` | glucose/core/SolverTypes.h:473-474 | the hash test never rejects a clause all of whose variables occur in the other |
| `Resolution.Subsumes` | glucose/core/SolverTypes.h:465-500 | contained, contained up to one negation with that literal, or neither, exactly |
| `Resolution.FlippingUnique` | glucose/core/SolverTypes.h:476-494 | the literal to flip is unique and excludes containment |
| `Resolution.StrengthenedHolds` | glucose/core/SolverTypes.h:465-500 | with the first clause true, the second holds exactly if it does without the flipped literal |
| `Resolution.Merge` | glucose/simp/SimpSolver.cc:309-336 | false exactly for a tautology, otherwise the resolvent with each literal once |
| `Resolution.MergeSize` | glucose/simp/SimpSolver.cc:340-366 | the same verdict and the length of the same resolvent |
| `Resolution.ResolventSound` | glucose/simp/SimpSolver.cc:309-336 | a model of both parents satisfies the resolvent |
| `Vectors.Remove` | glucose/mtl/Alg.h:36-43 | the vector without the first occurrence, the rest in order |
| `Elimination.MkElimClause` | glucose/simp/SimpSolver.cc:536-558 | the clause is appended with the literal of the variable first and its length last |
| `Elimination.PackAppend` | glucose/simp/SimpSolver.cc:529-558 | packing records one after the other concatenates their codes |
| `Elimination.WalkRecords` | glucose/simp/SimpSolver.cc:658-674 | the backward index walk over the packed vector applies the records last to first, skipping a record at its first literal that is not false |
| `Elimination.WalkSide` | glucose/simp/SimpSolver.cc:658-674 | the records of one side set the variable exactly if the rest of some stored clause is false |
| `Elimination.EliminationExtends` | glucose/simp/SimpSolver.cc:592-607 | one side and the default unit restore both sides: any model of all resolvents extends to a model of both |
| `Recovery.ElimRestores` | glucose/simp/SimpSolver.cc:562-621 | one side stored and the default for the other restore the clauses there were from any model of what is left, if every resolvent follows from it |
| `Recovery.RecoverElim` | glucose/simp/SimpSolver.cc:562-621 | a walk that restores the clauses before the elimination can be put on top of all earlier walks |
| `Recovery.RecoverStep` | glucose/simp/SimpSolver.cc:418-482 | equivalence of the clauses carries over to extending models |
| `Recovery.ExtendKeeps` | glucose/simp/SimpSolver.cc:658-674 | the walk changes eliminated variables only |
| `Recovery.SameSatisfiability` | glucose/simp/SimpSolver.cc:562-621 | what remains is satisfiable exactly if the original formula is |
| `Recovery.ResolventsLookImplied` | glucose/simp/SimpSolver.cc:397-414 | with all literals of a resolvent false, one of its parents is false or unit, so propagation cannot stop there |
| `EliminationSteps.ResolventImplied` | glucose/simp/SimpSolver.cc:216-217 | with propagation to a fixpoint the check accepts every resolvent whose parents are still there |
| `EliminationSteps.RestoringMeansFollowing` | glucose/simp/SimpSolver.cc:562-621 | no walk that changes only the variable restores both sides unless every resolvent follows from the clauses without it |
| `EliminationSteps.DroppedResolvents` | glucose/simp/SimpSolver.cc:562-621 | with every resolvent dropped by the check, the stored side and the default restore the clauses exactly if every resolvent follows from the clauses without the variable |
| `EliminationSteps.FollowStays` | glucose/simp/SimpSolver.cc:603-607 | whatever the check drops, resolvents that followed before still do |
| `RedundancyCheck.LoseModel` | glucose/simp/SimpSolver.cc:562-621 | two clauses with one variable in common, the others frozen, the check on: eliminating it drops the resolvent, what is left has the model in which nothing is true, the walk from it sets the variable and ends with the second clause false, and no model of the formula has these values |
| `RedundancyCheck.NothingToSubsume` | glucose/simp/SimpSolver.cc:418-482 | neither of the two clauses subsumes or strengthens the other, so subsumption before elimination leaves them alone |
| `ClauseLists.CleanedLists` | glucose/core/SolverTypes.h:398-408 | cleaning a list leaves exactly the live clauses, each once, and the other lists alone |
| `Preprocessing.SimpSolver.RemoveClause` | glucose/simp/SimpSolver.cc:254-266 | the clause is dead and exactly the lists of its variables are dirty |
| `Preprocessing.SimpSolver.StrengthenClause` | glucose/simp/SimpSolver.cc:269-305 | the clauses gain exactly the shorter clause; a binary clause becomes a fact; false means refuted |
| `Preprocessing.SimpSolver.TryCandidate` | glucose/simp/SimpSolver.cc:462-472 | a candidate that contains the clause is deleted; one that does up to one negation loses that literal, or becomes a fact if it was binary; otherwise nothing changes. No model changes either |
| `Preprocessing.SimpSolver.ScanCandidates` | glucose/simp/SimpSolver.cc:447-478 | the scan ends with no candidate left that the clause subsumes or strengthens, and changes no model |
| `Preprocessing.SimpSolver.BackwardSubsumptionCheck` | glucose/simp/SimpSolver.cc:418-482 | the check ends; models stay as they were and false means that there are none; without interrupt every clause that was queued or used up before subsumes and strengthens no candidate any more, and no candidate has a variable of a new fact |
| `SubsumptionSteps.TurnDone` | glucose/simp/SimpSolver.cc:424-478 | using the first clause of the queue keeps: every live clause is queued, used up, or untouched and never queued; shortened clauses are queued again |
| `Preprocessing.SimpSolver.Implied` | glucose/simp/SimpSolver.cc:397-414 | a conflict under the negated clause shows that it follows; with propagation to a fixpoint no conflict means that the clause is true, a tautology, or can be false with nothing left to propagate |
| `Preprocessing.SimpSolver.AddClauseCore` | glucose/simp/SimpSolver.cc:208-249 | afterwards clauses and trail mean the old ones and the clause, variable by variable unless the check dropped it; a resolvent with both parents there is always dropped by the check; an unassigned clause that does not follow is stored as it is |
| `Preprocessing.SimpSolver.CountResolvents` | glucose/simp/SimpSolver.cc:576-583 | too many or too long resolvents, counted over all pairs, exactly |
| `Preprocessing.SimpSolver.StoreClauses` | glucose/simp/SimpSolver.cc:590-600 | the smaller side and the default unit are on the stack |
| `Preprocessing.SimpSolver.AddResolvents` | glucose/simp/SimpSolver.cc:603-607 | every resolvent that is no tautology follows from the clauses without the variable; with the check on and full propagation nothing is added |
| `Preprocessing.SimpSolver.EliminateVar` | glucose/simp/SimpSolver.cc:562-621 | the variable is eliminated exactly within the limits; the smaller side is stored; models of what is left extend if the check is off or the resolvents followed from the other clauses, and with full propagation exactly then; the clauses keep following from the formula |
| `Preprocessing.SimpSolver.AddClause` | glucose/simp/SimpSolver.cc:208-249 | the formula gains the clause and models still extend to all of it |
| `Preprocessing.SimpSolver.GatherTouchedClauses` | glucose/simp/SimpSolver.cc:369-394 | exactly the live clauses with a touched variable join the queue |
| `Preprocessing.SimpSolver.Eliminate` | glucose/simp/SimpSolver.cc:677-767 | the rounds of subsumption and elimination end and keep the invariant and the frozen variables; without interrupt no live clause subsumes or strengthens a candidate in the end, no candidate has a variable with a value, and each variable that may be eliminated was refused over clauses that are all still there |
| `EliminationOrder.HeapTried` | glucose/simp/SimpSolver.cc:712-736 | a variable that was tried need not be in the heap: it is eliminated, not eligible, or beyond the limits |
| `Preprocessing.SimpSolver.ExtendModel` | glucose/simp/SimpSolver.cc:658-674 | if no elimination was lossy, any model of the remaining clauses becomes a model of every original clause |
| `Preprocessing.SimpSolver.Equisatisfiable` | glucose/simp/SimpSolver.cc:677-767 | if no elimination was lossy, the remaining clauses are satisfiable exactly if the formula is, after any run |
| `BitVectors.BitVector.Set` | include/setcover/bitop.h:115-123 | exactly the bit is set and the cached count stays exact |
| `BitVectors.BitVector.Resize` | include/setcover/bitop.h:85-101 | old bits are kept, new ones clear, the cached count exact |
| `WordCounting.TopByte` | include/setcover/bitop.h:25-25 | the product by ones in every byte has the sum of all eight bytes on top, for bytes of at most 8 |
| `WordCounting.PartNumber` | include/setcover/bitop.h:22-24 | after the sums of pairs, nibbles and bytes each byte is the number of set bits of its part of the word |
| `WordCounting.CountWord` | include/setcover/bitop.h:21-26 | for every 64-bit word `count64` is the number of set bits |
| `BitVectors.BitVector.Recount` | include/setcover/bitop.h:195-213 | the count word by word, with half and full words recognised and `count64` for the others, is the number of set bits |
| `BitVectors.BitVector.OrCount` | include/setcover/bitop.h:219-224 | the bits of both vectors with an exact count |
| `BitVectors.BitVector.MaskCount` | include/setcover/bitop.h:235-242 | the bits not in the other vector with an exact count |
| `BitVectors.CountAll` | include/setcover/bitop.h:142-144 | the count is the size exactly if every bit is set |
| `SetCovering.SetCover.AddRows` | src/setcover/setcover_m.cpp:33-66 | rows and columns hold all rows ever added, as transposes of one another, and the mask is clear |
| `SetCovering.SetCover.GenOr` | src/setcover/setcover_m.cpp:76-82 | the rows that the columns of a cluster hit |
| `SetCovering.SetCover.SelectOnce` | src/setcover/setcover_m.cpp:140-166 | the first cluster of largest gain is added to the mask, which strictly grows, or no cluster hits an uncovered row |
| `SetCovering.SetCover.Select` | src/setcover/setcover_m.cpp:169-177 | success exactly if the greedy clusters cover all rows within the limit; a refusal means that some row is hit by no cluster, or that the greedy choice needs more clusters than the limit |
| `SetCovering.GreedyUnique` | src/setcover/setcover_m.cpp:140-177 | greedy choices are determined: of two greedy sequences the shorter starts the longer |
| `SetCovering.GreedyShare` | src/setcover/setcover_m.cpp:140-166 | if some selection covers all rows, each greedy cluster hits at least its share of the rows left |
| `SetCovering.OneSuffices` | src/setcover/setcover_m.cpp:169-177 | with a cluster that hits every row the choice never fails, unless the limit is 0 |
| `SetCovering.GreedyCanMiss` | src/setcover/setcover_m.cpp:169-177 | an instance in which two clusters cover all rows and the greedy choice refuses with limit 2 |
| `MergeSelecting.UnsatExplains` | src/findfanin/mergeselection.cpp:56-127 | a negative answer puts every conflicting pair that the selection cannot tell apart among the blocked cases |
| `MergeSelecting.MergeSelection.RecordPair` | src/findfanin/mergeselection.cpp:184-232 | new cases are recorded with a row for every pair, and strictly fewer patterns remain |
| `MergeSelecting.CoverHitsPairs` | src/findfanin/mergeselection.cpp:269-281 | a cover of the rows tells every recorded pair apart |
| `MergeSelecting.NoSelectionHelps` | src/findfanin/mergeselection.cpp:278-281 | a row no cluster hits comes from two inputs that no selection can tell apart |
| `MergeSelecting.MergeSelection.SolveC` | src/findfanin/mergeselection.cpp:129-282 | the loop ends; a reported selection separates all inputs needing different values; a refusal means that no selection does, or that for rows of such pairs the greedy choice does not end within the limit |
| `MergeSelecting.LimitPassedMeans` | src/findfanin/mergeselection.cpp:278-281 | the second reason never applies if the limit admits all clusters, or if one cluster alone would do |
| `DontCares.KeysDistinct` | src/getDC/getDC.cpp:164-176 | cases of n signals have distinct 32-bit keys exactly if n is at most 32 |
| `DontCares.GetDC.RemoveCase` | src/getDC/getDC.cpp:155-189 | a case with a new key is recorded on its side and blocked, one with a known key is not |
| `DontCares.GetDC.Meet` | src/getDC/getDC.cpp:155-189 | one round: a new pattern is recorded, so that fewer remain, or its key is known and one repetition is used up; none is left only if two patterns share a key |
| `DontCares.GetDC.Solve` | src/getDC/getDC.cpp:216-266 | every input on which the target matters has its pattern recorded under the value it needs; failing means an input that no value repairs; the enumeration completes only if no two such patterns share a key, and is left open only if two do |
| `DontCares.ClashNeedsMany` | src/getDC/getDC.cpp:164-176 | patterns that share a key need more than 32 signals |
| `DontCares.ClashingClashes` | src/getDC/getDC.cpp:164-189 | a design of any size above 32 for which two patterns share a key, in whatever order its signals are listed |
| `DontCares.NeverCompletes` | src/getDC/getDC.cpp:216-266 | on that design the enumeration does not complete, however often a known key is met |
| `DontCareSolving.MiterAnswered` | src/getDC/getDC.cpp:284-295 | two netlists with equal inputs and unequal outputs: the clauses have a model exactly if some input vector makes the netlists differ |
| `DontCareSolving.MakeMain` | src/getDC/getDC.cpp:121-143 | the models of the first formula: two copies of the implementation with equal inputs, the target 1 and 0, and some output different |
| `DontCareSolving.BlockCase` | src/getDC/getDC.cpp:182-187 | the models in which the chosen signals differ from the case |
| `DontCareSolving.MainAnswered` | src/getDC/getDC.cpp:121-187 | the first formula with the blocked cases has a model exactly if some input on which the target matters has a new pattern |
| `DontCareSolving.MakeCheck` | src/getDC/getDC.cpp:147-152 | the models of the second formula: implementation and specification with equal inputs and equal outputs |
| `DontCareSolving.EnforceInput` | src/getDC/getDC.cpp:243-249 | the models that have the given inputs whenever a fresh control variable is true |
| `DontCareSolving.CheckAnswered` | src/getDC/getDC.cpp:147-152 | with its control variable on, the second formula has a model with a target value exactly if the value repairs the input, whatever was enforced before |
| `Resynthesis.CubeMeaning` | abc/src/base/abc/abcSop.c:857-902 | the installed cover is well formed, every line over all signals with output 1, and with its output column read it evaluates to true exactly on the recorded minterms |
| `Resynthesis.Restruct` | src/circuit/node.cpp:546-564 | the installed cover is well formed with output 1 and evaluates to true exactly on the cases; without any case there are no inputs to take and nothing is installed |
| `Resynthesis.PatchedRight` | abc/src/base/abc/abcSop.c:1197-1233 | the patched circuit, the cover read with its output column, is right on exactly the inputs that some target value repairs |
| `Resynthesis.Resynthesize` | src/findfanin/mergeselection.cpp:129-303 | end to end: a patch is right wherever the circuit can be repaired at all, over a selection within the limit; with a patch no two patterns over its signals share a key, and the run is stuck only over signals for which two do; a refusal for want of clusters means that none suffice or the greedy choice exceeds the limit, never with one cluster that suffices |
| `SupportMinimizing.ChoicesTogether` | abc/src/aig/aig/aigFact.c:287-334 | replacing all chosen variables at once is right wherever the condition holds, though each was tested alone |
| `SupportMinimizing.ChoiceKind` | abc/src/aig/aig/aigFact.c:320-334 | a chosen constant never leaves the care set, or the variable does not matter at all |
| `SupportMinimizing.ComputeTables` | abc/src/aig/aig/aigFact.c:287-310 | every node of the cone has the table of its function of the support |
| `SupportMinimizing.Perform` | abc/src/aig/aig/aigFact.c:320-334 | each variable that passes one of the two cofactor tests is chosen, and no other |
| `SupportMinimizing.Reconstruct` | abc/src/aig/aig/aigFact.c:348-365 | the rebuilt node evaluates as the cone with the constants in place |
| `AigManaging.AigMan.CollectSuper` | abc/src/aig/aig/aigFact.c:542-575 | the literals of the wide OR, each once; it is true exactly when the node is false |
| `AigManaging.AigMan.HighlightCone` | abc/src/aig/aig/aigFact.c:487-525 | true exactly if the root leads to the gate, and marked are exactly the nodes outside the gate that are reached without passing it and lead to it |
| `AigManaging.AigMan.CollectConeRec` | abc/src/aig/aig/aigFact.c:439-451 | the cone in topological order, each marked node once |
| `AigManaging.AigMan.CollectSupport` | abc/src/aig/aig/aigFact.c:402-426 | exactly the children of cone nodes that are outside the cone, each once |
| `AigManaging.AigMan.GateIsInSupport` | abc/src/aig/aig/aigFact.c:377-388 | true exactly if every gate node is in the support |
| `AigManaging.AigMan.SupportMinimization` | abc/src/aig/aig/aigFact.c:592-669 | a result is equal to the function wherever the condition holds, with every support variable that passes a cofactor test replaced by a constant; each status has its exact reason: no OR, no cone or one too large, or a gate outside the support or no variable to replace |
| `Aigs.ValueKept` | abc/src/aig/aig/aigFact.c:361-363 | the nodes that rebuilding adds with `Aig_And` do not change the value of earlier ones |
| `AigRebuilding.Composer.ComposeRec` | abc/src/aig/aig/aigDfs.c:952-968 | the memo stands for the composed nodes, and exactly the cone is marked |
| `AigRebuilding.Composer.ConeUnmarkRec` | abc/src/aig/aig/aigDfs.c:704-713 | exactly the marks of the cone are cleared |
| `AigRebuilding.Composer.Compose` | abc/src/aig/aig/aigDfs.c:980-993 | the result evaluates as the root with the variable replaced by the function, and no mark is left; an undefined variable is reported |
| `AigRebuilding.FindImplicationsRec` | abc/src/aig/aig/aigFact.c:46-56 | the collected edges are those at the leaves of the tree of ANDs, all true exactly when the edge is |
| `AigRebuilding.Factorer.FindConeOverlapRec` | abc/src/aig/aig/aigFact.c:89-103 | true exactly if the cone meets an implied node |
| `AigRebuilding.Factorer.FactorAlgebraic` | abc/src/aig/aig/aigFact.c:190-216 | the result has on every input the value of B with each node that A fixes set to its constant, so it equals B where A has the value; there is none exactly if a side is trivial or the cone of B has no such node |
| `Fanouts.SlotsDistinct` | abc/src/aig/aig/aigFanout.c:36-39 | the slots for first, previous and next never coincide |
| `Fanouts.UnlinkFanout` | abc/src/aig/aig/aigFanout.c:154-186 | unlinking leaves a ring of the others in order |
| `Fanouts.FanoutTable.AddFanout` | abc/src/aig/aig/aigFanout.c:107-144 | the fanout is appended to the list of the object, all other lists unchanged, across reallocation |
| `Fanouts.FanoutTable.RemoveFanout` | abc/src/aig/aig/aigFanout.c:154-186 | exactly the fanout leaves the list of the object, the others keep their order |
| `Fanouts.FanoutTable.EnumerateFanouts` | abc/src/aig/aig/aig.h:424-430 | following the links from the first fanout gives the list in insertion order |
| `Cuts.MergeOrdered` | abc/src/aig/aig/aigCuts.c:421-493 | succeeds exactly if the union has at most the allowed leaves, and is then the sorted union |
| `Cuts.SignCount` | abc/src/aig/aig/aigCuts.c:594-596 | the masks never have more bits than there are leaves, so no feasible pair is ruled out |
| `Cuts.SignContained` | abc/src/aig/aig/aigCuts.c:379-399 | comparing masks never misses a containment |
| `Cuts.Filter` | abc/src/aig/aig/aigCuts.c:370-408 | the cut is dropped exactly if a stored one is contained in it, otherwise exactly the larger ones containing it are |
| `Cuts.FilteredAntichain` | abc/src/aig/aig/aigCuts.c:370-408 | stored cuts of two or more leaves never contain one another |
| `Cuts.MergeDetermines` | abc/src/aig/aig/aigCuts.c:576-618 | the leaves of a merged cut decide the value of the node |
| `Cuts.FindFree` | abc/src/aig/aig/aigCuts.c:220-235 | the first free slot, or if there is none the first of the most costly ones, freed |
| `Cuts.CutManager.TryPair` | abc/src/aig/aig/aigCuts.c:592-617 | one pair: a slot is freed before the union is known to fit, and a pair that fits is stored or represented by a cut within it |
| `Cuts.CutManager.ComputeCuts` | abc/src/aig/aig/aigCuts.c:631-650 | inputs have their trivial cut, and the slots of every node come from the trivial cut by one step for each pair of stored cuts of its children, in order; every stored cut decides its node, is sorted, within the size, and part of an antichain |
| `Cuts.RoomyFinds` | abc/src/aig/aig/aigCuts.c:588-617 | if all pairs fit into the slots, every pair whose union is within the size is represented in the end |
| `Cuts.CutsComplete` | abc/src/aig/aig/aigCuts.c:576-650 | then the enumeration is complete: a set of leaves within the size cuts the node off from the inputs exactly if a stored cut lies within it |
| `SolverCore.Solver.ExamineLiteral` | glucose/core/Solver.cc:751-753 | a literal is dropped only if it is closed over its reason, otherwise kept, and every earlier decision stays justified |
| `CircuitCnf.GateMeaning` | src/CNFGenerator/CNFGenerator.cpp:429-484 | the clauses of a gate hold exactly if its output has the value the gate gives it |
| `CircuitCnf.NetMeaning` | src/CNFGenerator/CNFGenerator.cpp:404-485 | the clauses of an acyclic netlist hold exactly if every signal has its simulated value |
| `CircuitCnf.OneSimulation` | src/CNFGenerator/CNFGenerator.cpp:404-485 | every choice of inputs extends to exactly one satisfying assignment of the signals, the simulation |
| `SolverInterfacing.GInterface.GenLit` | src/glucose-interface/glucoseInterface.cpp:42-57 | the literal, with all variables up to it made |
| `SolverInterfacing.GInterface.AddCNF` | src/glucose-interface/glucoseInterface.cpp:59-77 | exactly the clauses of the copy of the netlist are added |
| `SolverInterfacing.GInterface.SetEqual` | src/glucose-interface/glucoseInterface.cpp:155-167 | the models are those with both signals equal |
| `SolverInterfacing.GInterface.SetNEqual` | src/glucose-interface/glucoseInterface.cpp:103-133 | the models are those where each auxiliary, numbered from the variables there were, is true exactly if its pair differs, and some auxiliary is true |
| `SolverInterfacing.DifferenceExact` | src/glucose-interface/glucoseInterface.cpp:103-133 | for every valuation of the signals the auxiliaries can be chosen exactly if some pair differs; this holds if and only if no signal is an auxiliary or the two lists are equal |
| `SolverInterfacing.DifferenceExtends` | src/glucose-interface/glucoseInterface.cpp:103-133 | if no signal is an auxiliary, the marks the pairs ask for satisfy the condition exactly if some pair differs |
| `SolverInterfacing.Refused` | src/glucose-interface/glucoseInterface.cpp:103-133 | otherwise a valuation in which some pair differs and no choice of the auxiliaries exists |
| `SolverInterfacing.GInterface.IfTrueThenEq` | src/glucose-interface/glucoseInterface.cpp:256-271 | the models are those with the signals equal in pairs whenever the flag is true |
| `QuerySolving.MakeSolver` | src/findfanin/mergeselection.cpp:56-105 | the models of the whole formula: six simulated copies, fixed targets, shared inputs, right and wrong outputs, and triggers |
| `QuerySolving.RemoveCase` | src/findfanin/mergeselection.cpp:107-127 | the models are those in which the case is avoided or its side is switched off |
| `QuerySolving.QueryAnswered` | src/findfanin/mergeselection.cpp:129-182 | the formula has a model under the assumptions exactly if some pair of input vectors answers the query |
| `Oracle.Load` | src/glucose-interface/glucoseInterface.cpp:27-57 | a solver with exactly the variables and clauses of the interface, all variables open to decisions |
| `Oracle.Ask` | src/findfanin/mergeselection.cpp:143-168 | the solver always answers: with a pair that answers the query, or with the certainty that there is none |
| `Oracle.Decide` | src/findfanin/mergeselection.cpp:56-168 | from the circuits to the answer: the formula is built and loaded and the solver asked; a pair answers the query, a refusal means that no pair does |
| `Oracle.DecideMain` | src/getDC/getDC.cpp:216-240 | from the circuits and the blocked cases to an input on which the target matters with a new pattern, or the certainty that there is none |
| `Oracle.DecideCheck` | src/getDC/getDC.cpp:240-263 | the target value that repairs an input, or the certainty that none does; the input's clauses are switched off again |
| `Oracle.Enumerate` | src/getDC/getDC.cpp:121-266 | the whole enumeration from the circuits, every query answered by the solver: complete case lists, an input that no value repairs, or two patterns that share a key |
| `Clusters.Circuit.constructor` | src/circuit/node.cpp:647-655 | a cluster of its own for every gate, with its fanins as input nodes; no cycle if the circuit has none |
| `Clusters.Circuit.Append` | include/circuit/node.h:59-69 | the node joins the cluster, its fanins become input nodes, and nodes inside are no input nodes |
| `Clusters.Circuit.GetFaninCone` | src/circuit/node.cpp:332-346 | exactly the other clusters the given one depends on; the worklist runs out although clusters can wait more than once |
| `Clusters.Circuit.GetFanoutCone` | src/circuit/node.cpp:348-361 | exactly the other clusters that depend on the given one |
| `Clusters.Circuit.Merge` | src/circuit/node.cpp:657-667 | the clusters stay a partition with the recorded owner of every gate and the outside fanins as input nodes; their graph stays acyclic exactly if no third cluster lies between the two |
| `Clusters.MergeAcyclic` | src/circuit/node.cpp:657-667 | merging keeps the graph acyclic exactly if no third cluster lies on a way from one of the two to the other |
| `Clusters.OneWay` | src/circuit/node.cpp:332-361 | in an acyclic graph two clusters never reach each other |
| `Clusters.Circuit.QuickMergeStep` | src/circuit/nodemerge.cpp:192-222 | the chosen cluster is in neither cone of the seed and has the fewest inputs with it within the limit; the graph stays acyclic |
| `Preprocessing.SimpSolver.SetFrozen` | glucose/simp/SimpSolver.h:223-223 | a frozen variable is remembered as such and nothing else changes |

## Left out

- Solve: restarts happen at arbitrary moments but at most a given number of times; that the source restarts only finitely often is not claimed.
- Activities, decay, polarity heuristics, LBD updates, restart and reduction limits, `canBeDel`, clause protection and conflict statistics: arbitrary choices stand for them.
- In SolverCore the order heap is the set of its elements; Heaps proves the real heap, whose elements and minimum are what the solver relies on.
- The `permDiff` stamps of binary minimisation and LBD counting are sets cleared by each use; the wrap-around of the stamp counter is not modelled.
- Options that shrink a learnt clause by its size before minimisation, certified unsatisfiability output, unary watches, parallel hooks, progress output and budgets in conflicts or seconds.
- How much garbage starts a collection is left open: CheckGarbage collects or not. The clause data base of SolverCore is a map, which GarbageCollect hands to ClauseAllocating as a region. Activities and the other copied fields of learnt clauses are represented by the LBD. Overflow of the 32-bit region size is not modelled.
- Preprocessing.SimpSolver propagates at level 0 by unit steps on whole clauses, to a fixpoint or (`fullPropagation` false) for any number of steps: its watch lists, and the order of literals inside its clauses, are not modelled. The elimination heap is the set of its elements: variables are tried in any order instead of by occurrence counts.
- `asymm`, `asymmVar`, `substitute`, switching elimination off (`use_elim`), skipping it for more than 4800000 clauses, and growing the variable set of SimpSolver after construction.
- SimpSolver.ExtendModel: requires that no elimination was lossy (`lossless`), because after one the extended model can be wrong (`RedundancyCheck.LoseModel`). With the redundancy check off that always holds.
- MergeSelecting.Solve, DontCares.MainSolve and DontCares.CheckSolve look for an answer among all inputs. Oracle gives methods with the same contracts that build the clauses and ask `SolverCore.Solver`; each query gets a new solver with the whole formula, where the source adds clauses to solvers it keeps.
- Gates with more than two fanins, and netlists from formats other than a list of gates: the source rejects the former.
- Timeouts in `Solve_c` and `getDC::solve`: the source treats a timeout as unsatisfiable; here the solver always answers.
- GetDC.Solve: a case with a known key is met again without end in the source; the model gives up after a given number of such meetings.
- `BitVector` holds its words as booleans and is a value, as vectors of bit vectors hold them. `setall`, `reset`, `next_set`, `not_count`, `and_count`.
- Clusters covers initial clusters, cones and merging by fewest inputs. The iteration of `QuickMerge` over the set it is erasing from, `FaninMerge`, clusters by sharedness, merging after a patch, removal of nodes that became unused, `setcover.cpp`, the multi-target variants, reading and writing of circuits.
- Truth tables of cuts, the cost of a cut (an arbitrary number here) and shrinking a cut to its true support.
- `Aig_Transfer`, the other walks of `aigDfs.c`, and reference counts; MakeAnd stands for `Aig_And` by its contract.
- CutsComplete: requires room for all pairs; without it cuts are thrown out by cost, as the steps of ComputeCuts say.
- The masks of cuts are sets of residues modulo 32, one per bit.
