# The search kernel of JamSAT in Dafny

JamSAT is an incremental CDCL SAT solver. This project models its search kernel and proves it correct: the trail with
two-watched-literal propagation, first-UIP conflict analysis, lemma minimization, backjumping, the driver with facts and
assumptions, simplification with facts, the clause storage, the branching heuristic and the proof encoding. Classes whose
methods update fields in the original are Dafny classes here, with the same fields, branches and error results.

How it is built:

- `Literals`, `Logic`: literals, clauses, models, entailment; unit propagation as closed sets of literals. A clause is an
  *asymmetric tautology* (AT) if every set closed under unit propagation which contains its negation falsifies a clause.
- `Trail`, `Watching`, `ListMoves`, `PropagationSteps`, `Traversal`, `Cleanup`, `Lifecycle`: the state of the assignment as a
  value (`Snapshot`), its invariant `Consistent`, and what each single step does to it. `Assignment` is the class; each of
  its methods changes the snapshot by such a step. `pos`, `reg`, `settled`, `skipped` and `stale` are ghost state: trail
  positions, registered clauses, false literals whose watch lists have been traversed, those traversed without redundant
  clauses (the `exclude_lemmas` mode), and literals which have been taken out of clauses but may still be blockers.
- `ImplicationGraph`, `FirstUipLearning`, `ClauseMinimization`, `AssignmentAnalysis`, `LiteralBlockDistance`, `StampMap`: conflict
  analysis.
- `Ranking`, `SearchState`, `Soundness`, `Derivations`, `Refutations`, `Compression`, `Environment`, `CdclSolver`: the driver.
  `Record` is what has been added (`problem`) and derived (`lines`); `Kept` says that facts and clauses follow from the record
  and the other way round; `LiveRefuted` says what unit propagation through the live clauses refutes. `FailureExamples` shows
  two limits of the answers, `FailedAssumptions` which assumptions are to blame.
- `OccurrenceMap`, `FactCleaner`: simplification with facts.
- `BinaryHeap`, `VsidsBranchingHeuristic`: branching. `IterableClauseDB`, `ClauseRegion`: the storage of clauses.
  `LubySequence`: the sequence used by restarts. `DratCertificate`: the binary DRAT encoding.

Clause pointers are indices into the clause database (`CRef`). Watch lists are maps from literals to sequences of records
(clause, blocker, index of the watched literal, redundancy). Activities are real numbers. Where the code leaves a choice to
policies (whether to restart, simplify or reduce, which redundant clauses to delete), the solver asks an `Environment`, whose
answers are arbitrary and remembered, so the results hold for every policy and can say what it has answered. The environment
also says whether a request to stop has been made. The loop over restarts has no bound in the code; `Solve` takes the number
of restarts after which the request comes at the latest, and its contract holds for every such number. Proof properties
ignore the deletion of clauses.

Some code is split into smaller methods here: `PropagateBinaries` is a method of its own as in the code, while
`PropagateLong`, `FindWatchable`, `Rewatch`, `ProcessQueue`, `AddWatchers`, `CutTrail`, `Unassign`, `AddLiteral`,
`FindStamped`, `CheckReason`, `PushWork`, `AnalyzeReason`, `LearnFrom`, `ResolveIfShort`, `PlaceSecond`, `Backjump`,
`AnalyzeConflict`, `HandleConflict`, `AppendDecision`, `MakeDecision`, `PropagateFact`, `Decide`, `Restart`, `Simplify`,
`MarkLemmas` and `Clean` are parts of the functions they are cited with.

## What turned out

- `finalizeProofOnUnsat` also ends the proof with the empty clause when only the assumptions are refuted. That last line is
  an AT for the facts and live clauses exactly if no assumption is to blame (`CdclSolvers.Failure`, in the contract of
  `Solve`). `EmptyClauseNeedNotFollow` gives an input where the empty clause does not follow at all.
- The failed assumptions are documented to activate an UNSAT core. They do if the failed assumption had been forced to be
  false, if its opposite is a fact, or if nothing else had been assumed before it; and always if there are two or more of
  them. Otherwise only the assumption itself is returned, and another assumption is true. `LoneFailedAssumption` shows, for
  a family of inputs, that the solver then returns an assumption which has a model with the problem.
- Between two restarts the search answers FALSE exactly if unit propagation refutes facts and assumptions; a conflict further
  down never decides by itself. If no policy restarts the search or deletes clauses, `Solve` always comes to an answer: each
  restart is then due to a new fact, or to assumptions which are refuted in the next run.
- `registerLemma` is documented for clauses whose literals but the first are false. It keeps the watch invariant exactly if
  the second literal has been assigned on the current level (`SecondLiteralMatters`), which the driver arranges.
- The blocker of a watcher need not occur in its clause any more after simplification. Propagation is complete all the same,
  because a removed literal is the negation of a fact and never true once the facts are assigned.
- `OccurrenceMap::resolveModifications` expects that nothing is pending afterwards. This holds exactly if no clause with
  pending removals has been deleted since.
- `BinaryMaxHeap::clear` leaves a proper heap exactly if the heap was empty.

## Model

| member | source | states |
|---|---|---|
| Logic.AsymmetricTautologyIsEntailed | testsrc/toolbox/testutils/OnlineDRATChecker.cpp:278-300 | Unit propagation is sound: an AT is a consequence of the clauses it is checked against. |
| Assignments.Assignment.constructor | lib/libjamsat/solver/Assignment.cpp:15-28 | A new assignment satisfies all invariants and is at a propagation fixpoint. |
| Assignments.Assignment.Assign | lib/libjamsat/solver/Assignment.cpp:62-73 | The literal is pushed on the trail with the current level and the given reason; nothing else changes. |
| Assignments.Assignment.Append | lib/libjamsat/solver/Assignment.cpp:75-79 | All invariants are kept; the trail grows by the literal and forced literals only; a returned clause is registered and falsified; without a conflict a fixpoint leads to a fixpoint. |
| Assignments.Assignment.RegisterClause | lib/libjamsat/solver/Assignment.cpp:81-97 | A clause of unassigned literals gets exactly two watchers, at positions 0 and 1, and all invariants are kept. |
| Assignments.Assignment.RegisterLemma | lib/libjamsat/solver/Assignment.cpp:99-112 | A clause whose first literal alone is unassigned, with its second literal on the current level, is registered and forces its first literal; then as for Append. |
| Assignments.Assignment.RegisterClauseModification | lib/libjamsat/solver/Assignment.cpp:115-130 | Exactly the lists of the first two literals are added to those to be cleaned up; no list is entered twice. |
| Assignments.Assignment.NewLevel | lib/libjamsat/solver/Assignment.cpp:132-139 | Opens a level at the end of the trail; all invariants are kept. |
| Assignments.Assignment.UndoToLevel | lib/libjamsat/solver/Assignment.cpp:141-155 | Exactly the assignments above the level are removed and remembered as phases; all invariants, including those on watchers, hold again although no watcher is touched. |
| Assignments.Assignment.UndoAll | lib/libjamsat/solver/Assignment.cpp:157-171 | Nothing is assigned, all invariants hold, and the values of all assigned variables are remembered as phases. |
| Assignments.Assignment.GetLevelAssignments | lib/libjamsat/solver/Assignment.cpp:173-185 | The result are exactly the true literals of the level. |
| Assignments.Assignment.PropagateUntilFixpoint | lib/libjamsat/solver/Assignment.cpp:192-241 | Pending cleanups are done first; without a conflict everything on the trail from the given literal on has been propagated; in the mode for it, no long redundant clause forces a literal or is returned. |
| Assignments.Assignment.Propagate | lib/libjamsat/solver/Assignment.cpp:244-346 | Propagating one literal keeps all invariants, permutes literals within clauses, appends forced literals only, and reports a falsified clause or has dealt with every clause watching the literal; long redundant clauses have no effect if they are to be left out. |
| Assignments.Assignment.PropagateBinaries | lib/libjamsat/solver/Assignment.cpp:350-380 | The same for binary clauses, watcher by watcher. |
| Assignments.Assignment.IsReason | lib/libjamsat/solver/Assignment.cpp:383-406 | True for each clause which forced a current assignment; may also be true for a former reason. |
| Assignments.Assignment.CleanupWatchers | lib/libjamsat/solver/Assignment.cpp:409-415 | Afterwards each live clause is watched exactly once at each of its first two positions, in the right list. |
| Assignments.Assignment.CleanupList | lib/libjamsat/solver/Assignment.cpp:422-488 | One list is cleaned: watchers of deleted clauses go, those of shortened clauses move to the binary lists, misplaced ones to their list. |
| Assignments.Assignment.ClearClauses | lib/libjamsat/solver/Assignment.cpp:30-34 | No clause is registered and all watch lists are empty; the invariants hold afterwards if and only if no literal on the trail has a reason. |
| Assignments.Assignment.IncreaseMaxVar | lib/libjamsat/solver/Assignment.cpp:36-60 | New variables are unassigned with phase FALSE, values and phases of all others stay; all invariants are kept. |
| Assignments.Assignment.GetAssignment | lib/libjamsat/solver/Assignment.h:369-375 | The looked-up value is the one stored for the variable, negated for negative literals (Val, see Derivations.TrailTrue). |
| Derivations.TrailTrue | lib/libjamsat/solver/Assignment.h:369-375 | The literals on the trail are exactly those whose value is true. |
| Assignments.Assignment.BinariesOf | lib/libjamsat/solver/Watcher.h:175-199 | The blockers of the binary watchers of a literal are exactly its partners in registered binary clauses. |
| Trails.PushFacts | lib/libjamsat/solver/Assignment.cpp:62-73 | Pushing an unassigned literal keeps trail, levels, positions and values consistent and changes exactly one variable. |
| Trails.UndoFacts | lib/libjamsat/solver/Assignment.cpp:141-155 | After undoing, exactly the literals of the levels up to the target are assigned. |
| Trails.TrailBound | lib/libjamsat/solver/Assignment.h:412-415 | The trail is as long as there are variables only if all of them are assigned. |
| Traversal.MoveStep | lib/libjamsat/solver/Assignment.cpp:289-325 | Exchanging a watched literal for one which is not false, and moving the watcher, keeps all invariants during the traversal. |
| Traversal.LongWatcher | lib/libjamsat/solver/Assignment.cpp:255-300 | A watcher may be passed over if its blocker or the other watched literal is true, or if redundant clauses are left out, although the blocker may be outdated. |
| Traversal.NothingElseToWatch | lib/libjamsat/solver/Assignment.cpp:325-345 | If no other literal can be watched, the clause is falsified or forces its other watched literal. |
| Traversal.BinaryWatcher | lib/libjamsat/solver/Assignment.cpp:350-380 | The blocker of a binary watcher decides whether the clause is falsified, forces the blocker, or is satisfied. |
| Traversal.FinishTraversal | lib/libjamsat/solver/Assignment.cpp:244-346 | Once both lists have been traversed, each clause watching the falsified literal has a true literal of no higher level. |
| Lifecycle.FixpointComplete | lib/libjamsat/solver/Assignment.h:339-347 | Watch completeness: at a fixpoint every registered clause has a true literal, or both of its watched literals are unassigned, so none is falsified or unit; provided that no literal taken out of a clause before is true, which SearchState.NoStale shows once the facts are assigned. |
| SearchState.NoStale | lib/libjamsat/simplification/optimizers/FactCleaner.cpp:134-144 | Literals taken out of clauses are never true once all facts are: they are negations of facts. |
| Lifecycle.UndoKeeps | lib/libjamsat/solver/Assignment.cpp:141-155 | Backtracking keeps all invariants with no watcher repair. |
| Lifecycle.RegisterAsserting | lib/libjamsat/solver/Assignment.cpp:99-112 | Registering an asserting lemma and forcing its literal keeps all invariants. |
| Lifecycle.SecondLiteralMatters | lib/libjamsat/solver/Assignment.cpp:99-112 | Registering a clause which forces its first literal keeps the invariants if and only if its second literal has been assigned on the current level. |
| Lifecycle.UndoneFixpoint | lib/libjamsat/drivers/CDCLSatSolver.cpp:700-705 | If all lower levels have been propagated, backtracking leads to a fixpoint. |
| ImplicationGraph.ReasonLevel | lib/libjamsat/solver/Assignment.cpp:289-345 | All other literals of a reason are false, earlier on the trail and on no higher level than the forced literal. |
| ImplicationGraph.CutClauseFalsifies | lib/libjamsat/solver/FirstUIPLearning.h:454-484 | Assuming the negation of the first-UIP clause, unit propagation through the reasons falsifies the conflicting clause. |
| ImplicationGraph.CutIsAfter | lib/libjamsat/solver/FirstUIPLearning.h:362-439 | A cut separating the conflict from an implication point contains nothing assigned before that point. |
| FirstUip.NotUip | lib/libjamsat/solver/FirstUIPLearning.h:362-439 | As long as another literal of the current level is part of the resolvent, the literal at the cursor is no implication point. |
| FirstUip.FinishLeast | lib/libjamsat/solver/FirstUIPLearning.h:362-439 | Every cut for the implication point contains the variables resolved away. |
| FirstUip.FirstUipLearning.AddResolvent | lib/libjamsat/solver/FirstUIPLearning.h:311-359 | The literals of the clause are added without duplicates, those of the current level as stamps and work, others to the result; the count of new work is returned. |
| FirstUip.FirstUipLearning.ResolveUntilUip | lib/libjamsat/solver/FirstUIPLearning.h:362-439 | Walking back the trail never meets a missing reason nor leaves the level, and ends with one literal, the first unique implication point. |
| FirstUip.FirstUipLearning.ClearStamps | lib/libjamsat/solver/FirstUIPLearning.h:442-451 | No stamp is left; the callback is called once for each variable. |
| FirstUip.FirstUipLearning.ComputeConflictClause | lib/libjamsat/solver/FirstUIPLearning.h:454-484 | The result is the resolvent of the conflict clause with the reasons of the cut; all its literals are false and distinct; only the first one is on the current level and it is the first unique implication point; nothing is resolved needlessly; stamps are clean again; the callback sees each variable involved exactly once. |
| StampMaps.StampMap.SetStamped | lib/libjamsat/utils/StampMap.h:316-326 | Changes the set of stamped indices by one index. |
| StampMaps.StampMap.IsStamped | lib/libjamsat/utils/StampMap.h:328-336 | Tells whether the index is stamped in the current context. |
| StampMaps.StampMap.Clear | lib/libjamsat/utils/StampMap.h:302-314 | Closes the context in such a way that the next one starts without stamps, also when the 16-bit stamps are used up. |
| ClauseMinimization.RedundancyChecker.IsRedundant | lib/libjamsat/simplification/ClauseMinimization.h:151-229 | Returns whether the literal is redundant, exactly; pruning by the over-approximated levels loses nothing; a failed check leaves no stamps. |
| ClauseMinimization.RedundancyChecker.EraseRedundantLiterals | lib/libjamsat/simplification/ClauseMinimization.h:232-267 | What remains are exactly the literals which are not redundant, in order. |
| ClauseMinimization.ErasedRefutes | lib/libjamsat/simplification/ClauseMinimization.h:232-267 | From the negation of what remains, unit propagation through reasons and level-0 facts derives the negation of the whole lemma. |
| ClauseMinimization.LevelWithoutLiteral | lib/libjamsat/simplification/ClauseMinimization.h:187-200 | A redundant literal cannot depend on a level (but 0) without a literal in the lemma, so the level check is safe. |
| ClauseMinimization.ResolveWithBinaries | lib/libjamsat/simplification/ClauseMinimization.h:269-291 | What remains are exactly the literals which cannot be resolved away with a binary clause containing the given literal. |
| ClauseMinimization.ResolvedRefutes | lib/libjamsat/simplification/ClauseMinimization.h:269-291 | From the negation of what remains, unit propagation through the binary clauses derives the negation of the lemma; the asserting literal remains. |
| LiteralBlockDistances.GetLbd | lib/libjamsat/solver/LiteralBlockDistance.h:63-90 | The result is the number of different levels of the literals; the stamp map is clean again. |
| AssignmentAnalysis.AnalyzeAssignment | lib/libjamsat/solver/AssignmentAnalysis.h:78-133 | Terminates; without a reason the result is just the query; otherwise it is the query and the distinct true unforced literals of the current level to which it can be traced back, exactly. |
| AssignmentAnalysis.RootsPropagate | lib/libjamsat/solver/AssignmentAnalysis.h:78-133 | From these literals and the lower levels, unit propagation derives the opposite of the query. |
| Ranking.RankDecreases | lib/libjamsat/drivers/CDCLSatSolver.cpp:760-781 | The vector of literal counts per level grows lexicographically towards a bound, so a number computed from it decreases. |
| SearchState.DecisionSearching | lib/libjamsat/drivers/CDCLSatSolver.cpp:760-770 | A decision on an unassigned variable keeps the search state: on levels from 2 on, only the first literal lacks a reason. |
| SearchState.UndoSearching | lib/libjamsat/drivers/CDCLSatSolver.cpp:700-705 | Backjumping to a level from 1 on keeps the search state and reaches a fixpoint. |
| SearchState.RegisterSearching | lib/libjamsat/drivers/CDCLSatSolver.cpp:880-898 | Registering the lemma after the backjump keeps the search state, and its level gains a literal. |
| Soundness.DerivedContradiction | lib/libjamsat/drivers/CDCLSatSolver.cpp:821-831 | If unit propagation derives a fact, then assuming its opposite leads to a conflict. |
| Soundness.ConflictAnalyzable | lib/libjamsat/solver/FirstUIPLearning.h:298-305 | Each conflict on levels from 2 on has two literals of the current level, and all its literals but the decision have reasons. |
| Soundness.MinimizedRefutes | lib/libjamsat/drivers/CDCLSatSolver.cpp:969-984 | Assuming the negation of the minimized lemma, unit propagation falsifies the conflicting clause. |
| Soundness.MinimizedLearnt | lib/libjamsat/drivers/CDCLSatSolver.cpp:912-966 | A minimized lemma keeps its asserting literal first, and all other literals are false on levels between 1 and the current one. |
| Soundness.BackjumpAsserting | lib/libjamsat/drivers/CDCLSatSolver.cpp:926-964 | After the backjump to the level of the second literal, exactly the first literal is unassigned and the others are false. |
| Derivations.LemmaIsTautology | lib/libjamsat/drivers/CDCLSatSolver.cpp:870-887 | Every lemma is an AT with respect to the problem and the clauses derived before. |
| Derivations.LinesFollow | lib/libjamsat/drivers/CDCLSatSolver.cpp:1002-1007 | Each model of the problem satisfies all derived clauses. |
| Derivations.RefutedIsUnsatisfiable | lib/libjamsat/drivers/CDCLSatSolver.cpp:821-850 | If unit propagation refutes problem and assumptions, they have no common model. |
| Derivations.ConflictRefutes | lib/libjamsat/drivers/CDCLSatSolver.cpp:837-845 | A clause falsified on level 0 or 1 means that unit propagation refutes facts and assumptions. |
| Derivations.OppositeRefutes | lib/libjamsat/drivers/CDCLSatSolver.cpp:821-831 | The same for a fact or assumption whose opposite is true. |
| Derivations.TracedCore | lib/libjamsat/drivers/CDCLSatSolver.cpp:821-831 | A falsified assumption with a reason and the assumptions it is traced back to are refuted by unit propagation. |
| Derivations.LevelZeroCore | lib/libjamsat/drivers/CDCLSatSolver.cpp:821-831 | An assumption whose opposite holds on level 0 is refuted on its own. |
| Refutations.FixpointNotRefuted | lib/libjamsat/drivers/CDCLSatSolver.cpp:787-850 | If facts and assumptions are propagated without conflict, unit propagation through the live clauses does not refute them. |
| Refutations.ConflictRefutesLive | lib/libjamsat/drivers/CDCLSatSolver.cpp:817-850 | If a clause, a fact or an assumption is falsified on level 0 or 1, unit propagation through the live clauses refutes facts and assumptions. |
| Refutations.FixpointIsClosure | lib/libjamsat/drivers/CDCLSatSolver.cpp:787-804 | After propagation of the facts, level 0 holds exactly the literals which unit propagation derives from them. |
| Refutations.ClosureRefuted | lib/libjamsat/drivers/CDCLSatSolver.cpp:793-802 | Replacing the facts by everything derived from them does not change what is refuted. |
| Refutations.ProblemRefuted | lib/libjamsat/drivers/CDCLSatSolver.cpp:471-502 | If unit propagation refutes the problem with the assumptions, it refutes the facts and clauses of the solver with them. |
| Derivations.TrailAsFacts | lib/libjamsat/drivers/CDCLSatSolver.cpp:793-802 | The whole level 0 may replace the facts. |
| Derivations.BackjumpSearching | lib/libjamsat/drivers/CDCLSatSolver.cpp:870-898 | Storing a lemma, jumping back and registering it meets the preconditions of registerLemma and keeps the search state and the record. |
| Derivations.CompleteIsModel | lib/libjamsat/drivers/CDCLSatSolver.cpp:783-784 | A complete assignment without conflict makes all added clauses (tautologies included) and all assumptions true. |
| Derivations.KnowledgeIsProblem | lib/libjamsat/drivers/CDCLSatSolver.cpp:471-502 | A model satisfies the clauses added if and only if the empty clause is not among them and it satisfies facts and live clauses. |
| Derivations.CompressKept | lib/libjamsat/drivers/CDCLSatSolver.cpp:684-686 | Dropping the deleted clauses loses nothing. |
| Compression.WithoutRedundancies | lib/libjamsat/utils/RangeUtils.h:81-98 | The result has the same literals, in strictly ascending order. |
| Compression.CompressClause | lib/libjamsat/drivers/CDCLSatSolver.cpp:451-469 | The result is missing exactly for tautologies, and has the same literals over distinct variables otherwise. |
| CdclSolvers.CdclSolver.constructor | lib/libjamsat/drivers/CDCLSatSolver.cpp:415-440 | A new solver is valid and knows nothing. |
| CdclSolvers.CdclSolver.AddClause | lib/libjamsat/drivers/CDCLSatSolver.cpp:471-502 | The clause joins the problem, and the solver stays valid. Tautologies are not stored, unit clauses become facts, the literals of other clauses are stored once each. |
| CdclSolvers.CdclSolver.OptimizeLemma | lib/libjamsat/drivers/CDCLSatSolver.cpp:969-984 | Exactly the redundant literals are erased, and if the rest is short with few levels, exactly those which can be resolved away with binary clauses. |
| CdclSolvers.CdclSolver.BumpVariables | lib/libjamsat/drivers/CDCLSatSolver.cpp:438-439 | Each variable seen gains the increment exactly once, up to a common power of the scaling limit; heap and elements stay. |
| CdclSolvers.CdclSolver.LearnFrom | lib/libjamsat/drivers/CDCLSatSolver.cpp:912-916 | The lemma is the first-UIP clause of the conflict with the least cut, minimized; it is an AT, and the variables of cut and clause have been bumped. |
| CdclSolvers.CdclSolver.PlaceSecond | lib/libjamsat/drivers/CDCLSatSolver.cpp:951-964 | The second literal gets a maximal level among all but the first, which is the backjump level. |
| CdclSolvers.CdclSolver.DeriveLemma | lib/libjamsat/drivers/CDCLSatSolver.cpp:912-966 | The derived fact or stored lemma has the literals of the minimized first-UIP clause, with the same first one, and is an AT; it is a fact exactly if one literal is left; a lemma is ready for the backjump. |
| CdclSolvers.CdclSolver.AnalyzeConflict | lib/libjamsat/drivers/CDCLSatSolver.cpp:860-868 | The variables which took part in the conflict gain the increment, which grows afterwards. |
| CdclSolvers.CdclSolver.HandleConflict | lib/libjamsat/drivers/CDCLSatSolver.cpp:857-907 | Exactly one line, the minimized first-UIP clause, joins the proof. A fact is new and leads to a restart. A lemma is stored with its flags, the search returns to exactly the level of its second literal with lexicographically more literals per level, and a restart is requested exactly if there is a conflict on level 1. The variables involved are rewarded. |
| CdclSolvers.CdclSolver.BacktrackToLevel | lib/libjamsat/drivers/CDCLSatSolver.cpp:700-705 | Exactly the levels above the target are undone, and all their variables are available for branching again. |
| CdclSolvers.CdclSolver.ResolveDecision | lib/libjamsat/drivers/CDCLSatSolver.cpp:852-910 | Terminates. Without a conflict, exactly the decision and what it forces are added. A restart is requested only with one more fact, or a conflict on level 1 which refutes the assumptions. Otherwise the search is at a fixpoint with lexicographically more literals per level. |
| CdclSolvers.CdclSolver.PrepareBacktrack | lib/libjamsat/drivers/CDCLSatSolver.cpp:707-719 | All variables assigned on the level or above are available for branching again. |
| CdclSolvers.CdclSolver.BacktrackAll | lib/libjamsat/drivers/CDCLSatSolver.cpp:693-698 | Nothing is assigned, all variables are available for branching, and the values of assigned variables are remembered as phases. |
| CdclSolvers.CdclSolver.PickDecision | lib/libjamsat/drivers/CDCLSatSolver.cpp:760-766 | The decision is an unassigned variable of greatest activity among all unassigned ones, with its saved phase as sign, and the only unassigned variable taken from the heap: the assertion in the code holds. |
| CdclSolvers.CdclSolver.MakeDecision | lib/libjamsat/drivers/CDCLSatSolver.cpp:760-771 | One round of the search: a restart is needed as in ResolveDecision, or the rank of the trail decreases. Without a conflict, the new decision was a best one, as are those before. |
| CdclSolvers.CdclSolver.Decide | lib/libjamsat/drivers/CDCLSatSolver.cpp:760-785 | Terminates for all policies. The end is a complete assignment at a fixpoint, a restart after a new fact, refuted assumptions or by policy, or a stop exactly if one has been requested. In a run without conflicts every decision was a best one. |
| CdclSolvers.CdclSolver.AnalyzeFailed | lib/libjamsat/drivers/CDCLSatSolver.cpp:821-845 | The failed assumptions are exactly the query and the unforced literals of its level to which it can be traced back, or just the query if it has no reason; they are refuted if the query was forced or its opposite is a fact. |
| CdclSolvers.CdclSolver.PropagateFact | lib/libjamsat/drivers/CDCLSatSolver.cpp:817-850 | One fact or assumption becomes true, or it is contradicted by what has been assigned before, and unit propagation refutes facts and assumptions so far. The failed assumptions are traced exactly; they suffice if the assumption had been forced to be false, its opposite is a fact, or nothing else has been assumed; otherwise only the assumption itself is returned, and another one is true. |
| CdclSolvers.FalseAssumption | lib/libjamsat/drivers/CDCLSatSolver.cpp:821-831 | If the opposite of an assumption is neither forced nor a fact, it has been assumed as well. |
| CdclSolvers.LoneAssumption | lib/libjamsat/drivers/CDCLSatSolver.cpp:837-845 | If nothing else has been assumed, an assumption whose propagation leads to a conflict is refuted on its own. |
| CdclSolvers.CdclSolver.PropagateFactsOnSystemLevels | lib/libjamsat/drivers/CDCLSatSolver.cpp:817-850 | All facts or assumptions become true at a fixpoint, or the first one which cannot be assigned and those to blame for it are determined, and unit propagation refutes facts and assumptions. |
| CdclSolvers.CdclSolver.PropagateHardFacts | lib/libjamsat/drivers/CDCLSatSolver.cpp:787-804 | The facts become exactly what unit propagation derives from them, unless and only unless it refutes them. |
| CdclSolvers.CdclSolver.PropagateAssumedFacts | lib/libjamsat/drivers/CDCLSatSolver.cpp:807-814 | The assumptions are true on level 1 if and only if unit propagation does not refute facts and assumptions. If it does, the failed assumptions are those to blame for the first one which fails, and they suffice or another assumption is true. |
| CdclSolvers.CdclSolver.SolveUntilRestart | lib/libjamsat/drivers/CDCLSatSolver.cpp:744-785 | Terminates for all policies. The answer is FALSE if and only if unit propagation refutes facts and assumptions, with the assumptions to blame; otherwise as for Decide. |
| CdclSolvers.CdclSolver.SynchronizeSubsystemsWithClauseDB | lib/libjamsat/drivers/CDCLSatSolver.cpp:603-616 | Exactly the live clauses are registered, and exactly the redundant ones among them are collected. |
| CdclSolvers.CdclSolver.TrySimplify | lib/libjamsat/drivers/CDCLSatSolver.cpp:630-666 | If simplification is due, its result is exact as for Optimize, and what was refuted remains so; unsatisfiability is detected exactly if unit propagation refutes the new facts. Otherwise nothing changes. |
| CdclSolvers.CdclSolver.TryReduceClauseDB | lib/libjamsat/drivers/CDCLSatSolver.cpp:669-690 | If a reduction is due, exactly the redundant clauses chosen by the policy are deleted, the others stay in order. Everything the search needs is kept. |
| CdclSolvers.CdclSolver.Restart | lib/libjamsat/drivers/CDCLSatSolver.cpp:537-546 | If unit propagation refutes the problem with the assumptions, the verdict is FALSE. Without a verdict, there are more facts or the assumptions are refuted now, or a policy or a request to stop is responsible. |
| CdclSolvers.CdclSolver.SearchWithRestarts | lib/libjamsat/drivers/CDCLSatSolver.cpp:535-546 | If no policy asks for restarts or reductions and nobody for stopping, there is a verdict after at most two restarts per variable and one more. The search is only given up after a request to stop or as many restarts as asked for. |
| CdclSolvers.CdclSolver.ResizeSubsystems | lib/libjamsat/drivers/CDCLSatSolver.cpp:594-600 | All components are large enough for the greatest variable; new variables are available for branching; phases and activities of the others stay. |
| CdclSolvers.CdclSolver.InitializeBranchingHeuristic | lib/libjamsat/drivers/CDCLSatSolver.cpp:619-627 | A variable is eligible for decisions if and only if it does not occur in the assumptions. |
| CdclSolvers.CdclSolver.CreateModel | lib/libjamsat/drivers/CDCLSatSolver.cpp:574-591 | The model has exactly the values of the trail. |
| CdclSolvers.CdclSolver.FinalizeProofOnUnsat | lib/libjamsat/drivers/CDCLSatSolver.cpp:1009-1017 | The empty clause is added once; nothing is written afterwards. |
| CdclSolvers.CdclSolver.Solve | lib/libjamsat/drivers/CDCLSatSolver.cpp:504-571 | TRUE: the result gives every variable a value, and every model described by it satisfies all added clauses and assumptions. FALSE: they have no common model, unit propagation refutes them with the proof lines, and the failed assumptions are those to blame in some state of the solver, as in Failure; without assumptions the empty clause is an AT. If unit propagation refutes the problem with the assumptions, the answer is FALSE. INDETERMINATE only as in SearchWithRestarts; never if no policy interferes and there is patience. Every proof line is an AT. The solver stays valid for further calls. |
| CdclSolvers.CdclSolver.Meaning | lib/libjamsat/drivers/CDCLSatSolver.cpp:504-571 | Between calls, a model satisfies the problem if and only if the empty clause has not been added and it satisfies facts and live clauses; each line of the proof is an AT for the problem and the lines before it. |
| CdclSolvers.EligibleIfUnassigned | lib/libjamsat/drivers/CDCLSatSolver.cpp:760-766 | At each decision every unassigned variable is eligible. |
| CdclSolvers.SomeCandidate | lib/libjamsat/drivers/CDCLSatSolver.cpp:760-766 | At each decision an unassigned eligible variable is in the heap. |
| CdclSolvers.DecisionIsBest | lib/libjamsat/drivers/CDCLSatSolver.cpp:760-766 | A decision picked as a best one was a best one when it was made, and remains so, like those before. |
| FailureExamples.EmptyClauseNeedNotFollow | lib/libjamsat/drivers/CDCLSatSolver.cpp:548-550 | For these inputs problem and assumption are refuted, but the problem has a model and the empty clause is no AT. |
| FailureExamples.LastLineOfSatisfiable | lib/libjamsat/drivers/CDCLSatSolver.cpp:548-550 | Whenever the problem has a model, a negative answer blames assumptions and the empty clause ending the proof is no AT. |
| FailureExamples.EmptyClauseEndsProof | lib/libjamsat/drivers/CDCLSatSolver.cpp:504-571 | A new solver with the clause (-a) and the assumption a answers FALSE, and ends its proof with the empty clause, which is no AT. |
| FailureExamples.LoneFailedAssumptionNeedNotSuffice | lib/libjamsat/drivers/CDCLSatSolver.cpp:837-845 | For these clauses a and b together are refuted, but b alone has a model with the problem. |
| FailureExamples.OnlyFirstIsTrue | lib/libjamsat/drivers/CDCLSatSolver.cpp:821-845 | In every state of the solver for these clauses in which only a has been assumed, a is the only true literal, so the guard for sufficiency fails. |
| FailureExamples.LoneFailedAssumption | lib/libjamsat/drivers/CDCLSatSolver.cpp:817-850 | From every such state, propagating the assumption b fails, and exactly b is returned although it has a model with the problem. |
| FailedAssumptions.UnusedNotBlamed | lib/libjamsat/drivers/CDCLSatSolver.cpp:821-845 | An assumption whose variable occurs in no known clause is only blamed for its own failure, and alone. |
| FailedAssumptions.OnlyInvolvedAreBlamed | lib/libjamsat/drivers/CDCLSatSolver.cpp:817-850 | With the clause (-b -c) and the assumptions a, b and c, a negative answer blames exactly c and b, in this order. |
| OccurrenceMaps.OccurrenceMap.Insert | lib/libjamsat/utils/OccurrenceMap.h:309-318 | The map now also stands for the clause with its literals, unless it is deleted. |
| OccurrenceMaps.OccurrenceMap.Remove | lib/libjamsat/utils/OccurrenceMap.h:338-346 | The map no longer stands for the clause. |
| OccurrenceMaps.OccurrenceMap.SetModified | lib/libjamsat/utils/OccurrenceMap.h:355-400 | The map stands for the clause with the additions and without the removals, also if an element is added again while its removal is pending. |
| OccurrenceMaps.OccurrenceMap.Update | lib/libjamsat/utils/OccurrenceMap.h:465-493 | The list is exact, and no removal from it is pending. |
| OccurrenceMaps.OccurrenceMap.Lookup | lib/libjamsat/utils/OccurrenceMap.h:438-446 | The result holds each live clause containing the literal exactly once, and nothing else. |
| OccurrenceMaps.OccurrenceMap.ResolveModifications | lib/libjamsat/utils/OccurrenceMap.h:406-432 | Modification marks are cleared; nothing is pending afterwards if and only if no clause with pending removals has been deleted. |
| FactCleaning.FactCleaner.WithConsequences | lib/libjamsat/simplification/optimizers/FactCleaner.cpp:44-62 | Exactly what unit propagation derives from the facts, or a refutation, exactly if it refutes them; each live clause then contains a fact or has watched literals which no fact affects. |
| FactCleaning.FactCleaner.DeleteClause | lib/libjamsat/simplification/optimizers/FactCleaner.cpp:64-71 | Deleting a clause which contains a fact keeps everything. |
| FactCleaning.FactCleaner.StrengthenClause | lib/libjamsat/simplification/optimizers/FactCleaner.cpp:134-144 | Exactly the negation of the fact is taken out, never at position 0 or 1, and the shorter clause is an AT. |
| FactCleaning.FactCleaner.StrengthenAll | lib/libjamsat/simplification/optimizers/FactCleaner.cpp:122-147 | No live clause contains the negation of the fact; the branch for binary clauses is never reached. |
| FactCleaning.FactCleaner.Optimize | lib/libjamsat/simplification/optimizers/FactCleaner.cpp:81-149 | When it runs fully, the facts become exactly what unit propagation derives from them, exactly the clauses containing a fact are deleted, and the others lose exactly the negations of facts; state, record and watch lists (up to the pending cleanup) stay correct. Unsatisfiability is detected exactly if unit propagation refutes the facts. Nothing is done if the number of facts has not changed. |
| FactCleaning.SimplificationKeepsModels | lib/libjamsat/simplification/optimizers/FactCleaner.cpp:81-149 | Facts and live clauses have the same models before and afterwards. |
| FactCleaning.CleanedRefuted | lib/libjamsat/simplification/optimizers/FactCleaner.cpp:81-149 | What unit propagation refuted before is still refuted afterwards. |
| FactCleaning.PropagatedSeparated | lib/libjamsat/simplification/optimizers/FactCleaner.cpp:114-131 | After propagation of the facts no clause has lost just one of its watched literals. |
| BinaryHeaps.BinaryMaxHeap.Insert | lib/libjamsat/utils/BinaryHeap.h:331-347 | The element is added unless present; heap order and indices stay correct. |
| BinaryHeaps.BinaryMaxHeap.IncreasingUpdate | lib/libjamsat/utils/BinaryHeap.h:349-371 | Restores the order if one element has become greater; the elements stay the same. |
| BinaryHeaps.BinaryMaxHeap.DecreasingUpdate | lib/libjamsat/utils/BinaryHeap.h:373-405 | Restores the order if one element has become smaller; the elements stay the same. |
| BinaryHeaps.BinaryMaxHeap.RemoveMax | lib/libjamsat/utils/BinaryHeap.h:407-429 | Returns a maximum and removes exactly it. |
| BinaryHeaps.BinaryMaxHeap.IncreaseMaxSizeTo | lib/libjamsat/utils/BinaryHeap.h:276-283 | Makes room for more elements and keeps the heap. |
| BinaryHeaps.BinaryMaxHeap.Clear | lib/libjamsat/utils/BinaryHeap.h:431-435 | Leaves a proper heap if and only if it was empty. |
| BinaryHeaps.RootIsGreatest | lib/libjamsat/utils/BinaryHeap.h:407-429 | Heap order puts a maximum at the root. |
| BinaryHeaps.SiftDown | lib/libjamsat/utils/BinaryHeap.h:378-395 | Moving the greatest child up repairs all but the place the element moves to. |
| VsidsBranching.VsidsBranchingHeuristic.PickBranchLiteral | lib/libjamsat/branching/VSIDSBranchingHeuristic.h:207-223 | Returns an unassigned eligible variable of greatest activity among those in the heap, with its saved phase as sign, and none exactly if there is none; nothing else which could be picked is lost. |
| VsidsBranching.VsidsBranchingHeuristic.SeenInConflict | lib/libjamsat/branching/VSIDSBranchingHeuristic.h:225-239 | Exactly the activity of the variable is increased by the increment; if it reaches the limit, all activities and the increment are divided by the limit; order and elements of the heap stay correct. |
| VsidsBranching.VsidsBranchingHeuristic.BeginHandlingConflict | lib/libjamsat/branching/VSIDSBranchingHeuristic.h:282-290 | Conflicts are counted; the decay rate is raised every 5000 conflicts, up to 0.95. |
| VsidsBranching.VsidsBranchingHeuristic.EndHandlingConflict | lib/libjamsat/branching/VSIDSBranchingHeuristic.h:292-296 | The increment grows by the decay rate, so that later conflicts weigh more. |
| VsidsBranching.VsidsBranchingHeuristic.ScaleDownActivities | lib/libjamsat/branching/VSIDSBranchingHeuristic.h:241-251 | All activities are divided by the same number; their order stays the same. |
| VsidsBranching.BumpScaled | lib/libjamsat/branching/VSIDSBranchingHeuristic.h:225-251 | Scaling all activities and the increment down keeps what they stand for. |
| VsidsBranching.VsidsBranchingHeuristic.Reset | lib/libjamsat/branching/VSIDSBranchingHeuristic.h:253-262 | All variables are in the heap. |
| VsidsBranching.VsidsBranchingHeuristic.IncreaseMaxVarTo | lib/libjamsat/branching/VSIDSBranchingHeuristic.h:298-315 | Exactly the new variables are added, with activity 0; the activities of the others stay. |
| IterableClauseDBs.IterableClauseDB.CreateActiveRegion | lib/libjamsat/clausedb/IterableClauseDB.h:672-691 | An empty region is added, and a spare region remains. |
| IterableClauseDBs.IterableClauseDB.CreateClause | lib/libjamsat/clausedb/IterableClauseDB.h:577-604 | The clause is stored behind all others; this fails only if it is too large for any region. |
| IterableClauseDBs.IterableClauseDB.MoveClauses | lib/libjamsat/clausedb/IterableClauseDB.h:631-660 | The swap-in index stays behind the region being read, a swapped-out region is empty, and a clause always finds a place. |
| IterableClauseDBs.IterableClauseDB.Compress | lib/libjamsat/clausedb/IterableClauseDB.h:607-670 | Iteration afterwards yields exactly the clauses not scheduled for deletion, unchanged and in the same order; a spare region remains. |
| ClauseDatabase.ClauseDB.Compress | lib/libjamsat/clausedb/IterableClauseDB.h:607-670 | Exactly the clauses not marked for deletion remain, in the same order and with the same flags. |
| ClauseDatabase.CompressRefines | lib/libjamsat/clausedb/IterableClauseDB.h:607-670 | Compressing the region storage is compressing the database of the solver: literals, order and all flags agree. |
| ClauseDatabase.CreateRefines | lib/libjamsat/clausedb/IterableClauseDB.h:577-604 | Creating a clause in the region storage is creating it in the database of the solver. |
| ClauseDatabase.SurvivingFrom | lib/libjamsat/clausedb/IterableClauseDB.h:607-670 | Each clause which is left was a live clause before. |
| ClauseRegions.Region.Allocate | lib/libjamsat/clausedb/IterableClauseDB.h:364-381 | A clause is placed behind all others, which stay unchanged; fails exactly if there is not enough space. |
| ClauseRegions.Region.InitialSize | lib/libjamsat/clausedb/Clause.h:376-383 | Decodes the size with which the clause was allocated. |
| ClauseRegions.Region.Resize | lib/libjamsat/clausedb/Clause.h:385-398 | The clause keeps its first literals, all other clauses and the initial size stay the same. |
| ClauseRegions.Region.Erase | lib/libjamsat/clausedb/Clause.h:420-428 | The literal is replaced by the last one, which is dropped; all other clauses stay the same. |
| ClauseRegions.Region.GetNextClause | lib/libjamsat/clausedb/IterableClauseDB.h:485-512 | The clause allocated next, if any. |
| ClauseRegions.Region.Walk | lib/libjamsat/clausedb/IterableClauseDB.h:466-512 | First and next visit exactly the allocated clauses in order, whatever has been shortened. |
| LubySequences.ElementIsLuby | lib/libjamsat/utils/LubySequence.h:83-90 | The element generated for each pair of the reluctant doubling sequence is the one at its position in the Luby sequence. |
| LubySequences.LubySequence.Next | lib/libjamsat/utils/LubySequence.h:83-90 | After n calls the result is Luby(n + 1). |
| LubySequences.LubySequence.Current | lib/libjamsat/utils/LubySequence.h:92-95 | The current element is Luby(n + 1) after n calls of Next. |
| DratCertificates.EncodeLiteral | lib/libjamsat/proof/BinaryDRATEncoder.cpp:33-52 | Writes at most 5 bytes: the groups of 7 bits of the literal's DIMACS-based number. |
| DratCertificates.EncodeBinaryDrat | lib/libjamsat/proof/BinaryDRATEncoder.cpp:55-65 | Writes the bytes of all literals within 5 bytes per literal. |
| DratCertificates.NumberNotZero | lib/libjamsat/proof/BinaryDRATEncoder.cpp:41-49 | No byte of a literal is zero. |
| DratCertificates.ProofRead | lib/libjamsat/proof/DRATCertificate.cpp:101-134 | Every sequence of steps is recovered from its bytes. |
| DratCertificates.DratCertificate.Recovered | lib/libjamsat/proof/DRATCertificate.cpp:101-134 | All steps added to the certificate can be read from its file again, in order. |
| DratCertificates.DratCertificate.WriteLiterals | lib/libjamsat/proof/DRATCertificate.cpp:101-113 | The file is extended by exactly one step; the buffer suffices. |
| DratCertificates.DratCertificate.WriteLiteralsPivotFirst | lib/libjamsat/proof/DRATCertificate.cpp:115-134 | The same with the pivot first, followed by the other literals in order. |
| DratCertificates.DratCertificate.AddRatClause | lib/libjamsat/proof/DRATCertificate.cpp:60-71 | The step added has the same literals, with the pivot first. |

## Left out

- Assignments.Assignment.RegisterLemma: requires the second literal to be of the current level, without which the invariants do
  not hold afterwards, as SecondLiteralMatters shows; the same holds for Lifecycle.RegisterAsserting.
- VsidsBranching.VsidsBranchingHeuristic.Reset: requires an empty heap, because the heap is not cleared properly otherwise; it is
  only called by the constructor.
- CdclSolvers.CdclSolver.SynchronizeSubsystemsWithClauseDB: clauses still marked for deletion from an earlier simplification
  are not registered, while the code registers them again until the next compression; such clauses contain a fact.
- CdclSolvers.CdclSolver.Solve: does not bound the number of restarts, because the code does not either; it takes the number of
  restarts after which it is stopped. A request to stop is noticed after decisions and after restarts; one which comes
  between the beginning of the call and the first run of the search is not modelled.
- CdclSolvers.CdclSolver.AnalyzeFailed: says when the failed assumptions suffice by the reason of the query and for two or more of
  them; a single failed assumption without a reason may or may not suffice.
- IterableClauseDBs.IterableClauseDB.Compress: regions are values here (sequences of clauses with their initial sizes), so the
  exchange of memory blocks is an exchange of values; memory cells are modelled in ClauseRegions.
- ClauseRegions.Region.Resize: flags and LBD in the clause header are left out, cells hold numbers of any size, alignment is
  not modelled; erasing a range of literals is left out.
- DratCertificates.DratCertificate.WriteLiterals: the file is a sequence of bytes; opening, flushing and failing writes are left
  out. The solver's own proof is a sequence of clauses, and deletion lines are not part of it.
- LubySequences.LubySequence.Next: numbers are unbounded, the code uses 64-bit integers; u & -u is the greatest power of two
  dividing u.
- VsidsBranching.VsidsBranchingHeuristic.SeenInConflict: activities are real numbers, rounding is left out.
- StampMaps.StampMap.SetStamped: stamps of literals, variables and levels are told apart by their indices only.
- Memory exhaustion, exceptions and the state after them.
- The LBD stored with clauses, restart and reduction policies, statistics, logging: arbitrary choices or without effect here.
- The Bloom filter of clauses, which the modelled algorithms do not use.
- The parsers, the IPASIR interface, the command-line tools and the test code.
