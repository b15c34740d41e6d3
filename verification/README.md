# A verified model of SATCheck

SATCheck explores the behaviours of a multi-threaded program. It records the program's memory operations, branches
and loops, compiles the recording to a propositional formula whose solutions are sequentially consistent executions,
turns a solution back into a thread schedule, and replays the program under that schedule. This project models the
sequentially consistent build of that pipeline, the data structures under it, the allocator that it ships with, and
one of the concurrent programs that it checks, and proves what they are for.

| file | component | main results |
|---|---|---|
| `Constraint.dfy` | formulas and their translation to clauses | `simplify` preserves the meaning exactly under a stated condition |
| `Encodings.dfy`, `CodeRecords.dfy` | bit codes of values, outputs and branch directions | codes decode to what they encode; the bit-trick comparison is right exactly under a stated condition |
| `ExecPoint.dfy` | names of events | names never repeat in a run exactly when no counter overflows; runs in different directions share no name; the incremental hash is the fold |
| `Records.dfy`, `ConstGen.dfy`, `Orders.dfy` | order of events | satisfying assignments are exactly the interleavings; which pairs are forced; what thread starts and joins decide, exactly |
| `ReadFrom.dfy`, `LoadRF.dfy`, `LoadMeaning.dfy`, `Address.dfy`, `SCExecution.dfy` | what a load reads | every satisfying assignment is sequentially consistent, with both pruning optimisations |
| `Branches.dfy`, `Subsumption.dfy` | which records are executed | the clauses of a branch hold exactly when it follows the value of its source; when one store's execution implies another's, exactly |
| `Generation.dfy` | the two traversals | exactly which clauses are generated; an assignment satisfies them if and only if it describes a sequentially consistent execution |
| `Grouping.dfy` | sets of operations that share addresses | two addresses share a set exactly when operations link them |
| `Schedule.dfy`, `ProgramRun.dfy`, `Extraction.dfy`, `Replay.dfy` | schedule extraction and replay | threads run exactly what the solution takes; when the emitted order is the solution's, exactly; replay admits this one interleaving and never blocks it |
| `Propagation.dfy`, `Planner.dfy` | value propagation | the worklist computes the least value sets that are closed under the rules of propagation |
| `HashTable.dfy`, `HashSet.dfy` | containers | when `put` duplicates a key, and why the set never does |
| `Snapshot.dfy` | page snapshots | rollback restores every page |
| `TreeBins.dfy`, `TreeLinks.dfy`, `TreeSearch.dfy`, `LinkSearch.dfy`, `BinMap.dfy`, `Bins.dfy`, `Heap.dfy`, `Mspace.dfy` | the allocator | tries and the pointers that hold them, best fit on both, bin maps, boundary tags, allocation and freeing |
| `MSQueue.dfy` | the Michael-Scott queue | linearizability in every run of any number of threads |

Code that updates fields in place is a class whose methods carry the loops; what a method computes is a function, and
what the source promises is proved about that function. `dafny verify dfyconfig.toml` checks everything.

## Reading the main results

`SCExecutions.SatisfyingAssignmentIsSC` is the compiler correctness statement, and `Generation.SolvedIsSC` is the same
for the clauses that the two traversals leave in the solver. `Generation.SolvedExactly` has both directions: no
execution is lost either. The hypotheses are what recording and traversal provide:
the records of a thread are inserted in an order that extends program order (`VectorsFollowPoints`), branch records
describe the directions in which records sit (`Enclosed`, `Named`), and two more. The record from which an executed
operation takes its address has, in the solution, a value that leads to one of the operation's addresses
(`InputsDecode`); this is the one hypothesis about the assignment. And where the pruning of conflict sets takes it that
the execution of one store implies that of another (the comment at constgen.cc:1073-1074), no direction that skips the
latter is compatible with the former (`SubsumptionSound`). This is a test on the records, and `SubsumesExactly` says
that the comment is true in all assignments if and only if it is passed. `SharedSkips` says that it is passed where
recordExecCond attaches the skips of the one store to the other or to a branch around it, and `SkippedIsSubsumed` that
it is not passed always. `StaticProgramIsSC` needs no hypothesis about the assignment. A load for which no store is a
candidate is not constrained, because the comparison with zero is TRUE.

`Orders.ForcedExactly` says which pairs of records the clauses order in every solution: those that a chain of program
order, thread starts and joins links. `Orders.GrandchildMayComeFirst` shows the consequence for a thread that starts
another one before it has an operation of its own. `Schedules.ScheduleBuilder.BuildSchedule` asks for a total order
only, which every solution gives (`Extractions.SolutionIsTotal`), and emits the run in this order if and only if the
order agrees with program order and thread creation; `Extractions.AlwaysInOrderExactly` says for which runs every
solution does.

`Planners.Planner.ProcessChanges` computes a least fixed point. `Propagations.Rule` lists why a value is possible, and
the value sets end as the least ones around those at the start that are closed under these rules, provided that every
rule which applies at the start is either met or has a change pending. Recording a load or a store keeps this so;
recording a read-modify-write may not (`RecordRMW`), and `MissedExactly` says when it does not.

Where the code falls short of what one would expect, a lemma gives the input and another the exact condition:
`FalseConjunctIsLost` and `SimplifyExact`; `NegateImpliesExact`; `LTExact`; `OverflowGoesBack`, `MoveIsLaterExactly` and
`RunIsLaterExactly`; `SkippedIsSubsumed` and `SubsumesExactly`; `GrandchildMayComeFirst`, `GrandchildOutOfOrder`,
`BuildSchedule` and `AlwaysInOrderExactly`; `RecordedTooLate` and `MissedExactly`; `TombstoneDuplicates` and the
postcondition of `HashTable.Put`; `TombstonesFill` and `ProbeStopsExactly`; `TerabyteInFirstBin` and `IndexExact`.

## Model

| member | source | states |
|---|---|---|
| `Constraints.SimplifyInPlace` | constraint.cc:266-393 | The recursion and loops of simplify end and compute the specification `Simplify`, for every constraint. |
| `Constraints.SimplifyExact` | constraint.cc:245-393 | When no implication sits in an antecedent, the clauses mean the constraint under every assignment if and only if no FALSE sits under conjunctions only, or what remains after the collapse is unsatisfiable anyway. |
| `Constraints.SimplifyMeaning` | constraint.cc:266-393 | For every assignment the clauses hold exactly where the collapsed constraint does, every element is TRUE, FALSE, a literal or an OR of literals, and FALSE appears only for the constraint FALSE. |
| `Constraints.SimplifyImplied` | constraint.cc:266-393 | Whatever satisfies the input satisfies the output, without the condition on FALSE. |
| `Constraints.CollapsedMeaning` | constraint.cc:250-258 | A FALSE under conjunctions makes the input unsatisfiable, and without one nothing collapses. |
| `Constraints.FalseConjunctIsLost` | constraint.cc:250-258 | Concrete input on which the meaning is lost: x AND FALSE is simplified to TRUE. |
| `Constraints.MergedMeaning` | constraint.cc:245-264 | Merging stops exactly at a FALSE and then leaves TRUE only; otherwise it keeps the conjunction of both lists. |
| `Constraints.MergeAndFree` | constraint.cc:245-264 | The loop computes the merge, stops if and only if the second list has a FALSE, and then returns the single TRUE. |
| `Constraints.NegateNegates` | constraint.cc:395-423 | Without implications negate is the negation under every assignment, and negating twice gives the constraint back. |
| `Constraints.NegateImpliesExact` | constraint.cc:404-410 | On an implication negate is the negation exactly where the two sides differ. |
| `Encodings.NumBits` | mcutil.h:32 | The number of bits is the least width that holds the value. |
| `Encodings.GenerateConstraint` | constraint.cc:193-202 | The loop builds the code constraint of the value. |
| `Encodings.CodeIsMeaning` | constraint.cc:193-202 | The constraint holds exactly when the variables carry the low bits of the value. |
| `Encodings.CodesExclusive` | constraint.cc:193-202 | Two different codes of the width exclude each other. |
| `Encodings.GenerateLTConstraint` | constraint.cc:204-225 | The loop ends for every value, and makes at most one clause per variable, so the fixed clause array never overflows. |
| `Encodings.LTMeaning` | constraint.cc:204-225 | For 0 < value <= 2^n the formula holds exactly when the code is below the value. |
| `Encodings.LTExact` | constraint.cc:204-225 | Over distinct variables the comparison is right under every assignment if and only if the value is positive and is at most 2^n or zero in its n low bits. |
| `Encodings.EquivMeaning` | constraint.cc:227-243 | Two variable vectors are constrained to the same code, and to nothing else. |
| `CodeRecords.ValueRoundTrip` | valuerecord.cc:25-67 | The encoding of a known value holds exactly when decoding gives that value, and encodings of different values exclude each other. |
| `CodeRecords.ValueEncodingMeaning` | valuerecord.cc:50-67 | The encoding of a known value holds exactly when the variables carry its position in the set. |
| `CodeRecords.ValueCodesFit` | valuerecord.cc:16-20 | Every position fits in the number of variables. |
| `CodeRecords.ValueRecord.GetValue` | valuerecord.cc:25-48 | Reading a solution gives the value at the code's position, and the marker value for codes outside the set. |
| `CodeRecords.ValueRecord.GetValueEncoding` | valuerecord.cc:50-67 | The walk over the set gives the code of the value's position, or nothing for a value outside the set. |
| `CodeRecords.FunctionRecord.constructor` | functionrecord.cc:15-28 | Fresh variables for one code per output and, unless the function is a phi, one more. |
| `CodeRecords.FunctionRecord.GetValueEncoding` | functionrecord.cc:34-62 | The walk over the outputs gives the code of the output's position, or nothing for an unknown output. |
| `CodeRecords.NoValueIsNew` | functionrecord.cc:34-66 | The all-ones code of a new output excludes the code of every known output. |
| `CodeRecords.BranchDecodes` | branchrecord.cc:29-59 | A known direction's constraint holds exactly when the branch decodes to its index, and then the branch counts as executed. |
| `CodeRecords.NotExecutedDecodes` | branchrecord.cc:29-59 | "Not executed" decodes to -1 and is exactly what falsifies getAnyBranch. |
| `CodeRecords.NewBranchIsNew` | branchrecord.cc:36-59 | Where it is a goal, the all-ones code decodes to no known direction. |
| `CodeRecords.GetBranchValue` | branchrecord.cc:48-59 | The loop reads the direction out of a solution, -1 for a branch that is not executed. |
| `CodeRecords.InsertBranch` | constgen.cc:1149-1167 | A branch gets fresh variables for one code per direction, one for new directions if there may be any, and one for "not executed" unless it is always executed. |
| `ExecPoints.CompareAntisymmetric` | execpoint.cc:51-73 | On type-consistent points, swapping the points flips the result of compare, and Equals means the same point. |
| `ExecPoints.LaterTransitive` | execpoint.cc:51-73 | Coming later is transitive, with no assumption about the two outer points. |
| `ExecPoints.CompareAtDifference` | execpoint.cc:51-73 | On type-consistent points the result is decided at the first difference. |
| `ExecPoints.HashPop` | execpoint.cc:75-78 | Cancelling and rotating back the last counter gives the hash of the shorter point. |
| `ExecPoints.ExecPoint.Push` | execpoint.cc:97-108 | The point grows by the pair, the array doubles when it is full, and the incremental hash stays the fold of thread id and counters; the answer is false exactly for an array of length zero, behind which the source writes. |
| `ExecPoints.ExecPoint.Pop` | execpoint.cc:75-78 | pop undoes push for the pairs and for the hash. |
| `ExecPoints.ExecPoint.IncrementTop` | execpoint.cc:110-114 | Only the top counter grows by one in its word, and the hash stays the fold. |
| `ExecPoints.ExecPoint.CompareTo` | execpoint.cc:51-73 | The loop over the flat array computes the comparison of the pair sequences. |
| `ExecPoints.ExecPoint.EqualsPoint` | execpoint.cc:120-130 | Equal exactly when thread and pairs are; comparing the hash first never decides wrongly. |
| `ExecPoints.ExecPointEquals` | execpoint.cc:120-130 | A missing first point equals a missing second one only; two points are equal exactly when thread and pairs are. |
| `ExecPoints.ExecPoint.Copy` | execpoint.cc:26-34 | A copy holds the same pairs in an array that has no room to spare. |
| `ExecPoints.RunNeverRepeats` | mcexecution.cc:537-595 | In every run of properly nested moves in which no counter passes the end of its word, each point is strictly after all earlier ones, so no event name repeats. |
| `ExecPoints.RunIsLaterExactly` | mcexecution.cc:537-595 | For every run: each point is strictly after all earlier ones if and only if no move takes a counter past the end of its word. |
| `ExecPoints.MoveIsLater` | mcexecution.cc:883-958 | Branch, merge, loop entry, iteration, exit and increment each lead to a strictly later, properly nested point unless a counter overflows. |
| `ExecPoints.OverflowGoesBack` | execpoint.cc:110-114 | Whatever the move, a counter at the end of its word wraps, and the next point is named before the current one. |
| `ExecPoints.MoveIsLaterExactly` | mcexecution.cc:883-958 | For every move: the next point is later if and only if no counter that the move increments is at the end of its word. |
| `ExecPoints.FullCircleRepeats` | execpoint.cc:110-114 | After 2^32 increments of the top counter the point has the name that it started with. |
| `ExecPoints.MCExecution.BranchDir` | mcexecution.cc:537-574 | The current point moves into the direction, which the name records, and stays properly nested. |
| `ExecPoints.MCExecution.Merge` | mcexecution.cc:576-595 | The current point returns to just after the branch. |
| `ExecPoints.MCExecution.EnterLoop` | mcexecution.cc:883-901 | The current point moves into the first iteration. |
| `ExecPoints.MCExecution.LoopIterate` | mcexecution.cc:953-958 | The current point moves to the next iteration. |
| `ExecPoints.MCExecution.ExitLoop` | mcexecution.cc:903-951 | The loop pops to the innermost loop and the current point moves behind it. |
| `ExecPoints.DirectionsNeverMeet` | mcexecution.cc:537-574 | In all runs inside two different directions of a branch, every point of the one is incomparable to every point of the other, so no name occurs in both. |
| `ExecPoints.MergeReturns` | mcexecution.cc:576-595 | From any point in a direction, whatever was run in it, the merge leads to the point of the branch, one further. |
| `ExecPoints.LeaveReturns` | mcexecution.cc:903-951 | From any point in an iteration, whatever was run in it, leaving the loop leads to the point of the loop entry, one further. |
| `ExecPoints.IterationFollows` | mcexecution.cc:953-958 | The next iteration has the next number and starts at statement zero again. |
| `ExecPoints.StartsAtZero` | mcexecution.cc:537-574 | Every direction of a branch and every loop counts its statements from zero, below a pair that names the direction or the first iteration. |
| `ConstGens.ConstGen.AddConstraint` | constgen.cc:852-868 | The solver's clauses go on meaning exactly the set of constraints that were added. |
| `ConstGens.ConstGen.PrintDIMACS` | constraint.cc:72-91 | One clause with the literals of the constraint and its terminating zero reaches the solver. |
| `ConstGens.ConstGen.GetArrayNewVars` | constgen.cc:1028-1031 | The variables are consecutive and were never handed out before. |
| `ConstGens.ConstGen.CreateOrderConstraint` | constgen.cc:995-1009 | The pair is related afterwards, by TRUE or FALSE where thread starts and joins decide and by a variable of its own otherwise; existing entries stay. |
| `ConstGens.ConstGen.InsertAction` | constgen.cc:696-720 | The record joins its thread's vector and every two records of different threads stay related, each pair once. |
| `ConstGens.OrderAntisymmetric` | constgen.cc:898-929 | Across threads the constraint of (b, a) is the negation of the one of (a, b), under every assignment. |
| `ConstGens.ConstGen.GenTransOrderConstraints` | constgen.cc:723-736 | All clauses for every two and three threads are added, and each of them follows from the order being strict and total. |
| `ConstGens.ConstGen.GenTransRow` | constgen.cc:738-801 | Both kinds of two-thread clauses are present for the pair of records, also when the short cut for decided pairs is taken. |
| `ConstGens.ConstGen.GenTransTriple` | constgen.cc:803-814 | Both cycle clauses are present for every triple of records of the three threads. |
| `ConstGens.ConstGen.GenTransOrderConstraint` | constgen.cc:816-830 | Neither cycle through the three records is left open. |
| `ConstGens.TransClausesMeanTotalOrder` | constgen.cc:723-830 | For any number of threads and records an assignment satisfies the generated clauses if and only if "vector index within a thread, order variable across threads" is a strict total order on all records. |
| `Orders.GetOrder` | constgen.cc:931-963 | The decoded order of two records is what their order constraint says under the solution. |
| `Orders.EveryInterleavingIsDescribed` | constgen.cc:696-830 | Completeness: every strict total order that agrees with program order, thread starts and joins is described by an assignment that satisfies the clauses. |
| `Orders.SatisfiedIsInterleaving` | constgen.cc:723-830 | Soundness: an assignment that satisfies the clauses describes such an order. |
| `Orders.ForcedExactly` | constgen.cc:968-1009 | All satisfying assignments put one record before another if and only if a chain of program order, thread starts and joins leads from the one to the other. |
| `Orders.ThreadOrderIsFixed` | constgen.cc:968-991 | What a thread start or a join decides is the same under every assignment. |
| `Orders.ThreadOrderHolds` | constgen.cc:968-991 | Whatever the other threads are: what orderThread orders comes in this order in every execution that respects program order, thread starts and joins. |
| `Orders.ThreadOrderExactly` | constgen.cc:968-991 | When only the start and the joins between two threads are looked at, orderThread puts one record before another if and only if every order does in which threads run in program order, start after their creation and have ended when they are joined. |
| `Orders.LeastRespects` | constgen.cc:968-991 | The least order that a start and joins between two threads ask for is transitive and irreflexive and respects program order, the start and the joins. |
| `Orders.GrandchildMayComeFirst` | constgen.cc:968-1009 | A thread start decides about the creating thread only: the clauses admit an operation of a grandchild thread before an operation that precedes the start of its parent, when the parent has no operation of its own before it starts the grandchild. |
| `ReadFrom.GetMayReadFromSet` | constgen.cc:523-558 | Exactly the stores to one of the load's addresses that are not after it in program order, each once. |
| `ReadFrom.GetMayReadFromSetOpt` | constgen.cc:560-604 | Exactly the stores of other threads and those of the load's own thread that are before it and not before the latest sure store. |
| `ReadFrom.LatestIsLast` | constgen.cc:576-590 | No sure store of the table is after the one that the scan ends with. |
| `ReadFrom.KeptExactly` | constgen.cc:560-604 | A store of the load's own thread is kept if and only if it is before the load and no sure store comes after it. |
| `ReadFrom.ComputeConflictSet` | constgen.cc:433-520 | For one common address the result is part of the base set, every consistent outcome with a conflicting store in between still has one in the result although witnesses may be removed later in the same loop, and no store of the result makes another one redundant; for several common addresses there is no result. |
| `ReadFrom.PruneStep` | constgen.cc:447-511 | Removing a store that a remaining one makes redundant loses no outcome's conflict. |
| `ReadFrom.FindWitness` | constgen.cc:447-505 | A store is pruned exactly if some store of the current set makes it redundant. |
| `ReadFrom.CommonAddress` | constgen.cc:433-446 | The number of addresses that both records may use, and the last of them. |
| `LoadRFs.GetExecutionConstraint` | constgen.cc:1108-1137 | The constraint is the conjunction of the enclosing direction and the negated skips. |
| `LoadRFs.ExecutedMeaning` | constgen.cc:1108-1137 | It holds exactly when the record's innermost direction is taken and no skip is. |
| `LoadRFs.StoreLoadSet.Add` | storeloadset.cc:30-44 | The set gains the operation, its addresses, and for a writer the values it may store. |
| `LoadRFs.StoreLoadSet.GetAddrVars` | storeloadset.cc:87-96 | The same variables for every request of a record, made on the first one. |
| `LoadRFs.StoreLoadSet.GetValVars` | storeloadset.cc:98-107 | The same variables for every request of a record, made on the first one. |
| `LoadRFs.StoreLoadSet.GetRMWRValVars` | storeloadset.cc:109-118 | The same variables for every request of a record, made on the first one. |
| `LoadRFs.LoadRF.constructor` | loadrf.cc:18-24 | Fresh variables, as many as the number of candidate stores needs. |
| `LoadRFs.LoadRF.GenConstraints` | loadrf.cc:30-131 | Exactly the match, conflict and range clauses of the load are added, over conflict sets that keep every conflict. |
| `LoadRFs.LoadRF.GenMatch` | loadrf.cc:46-72 | The clause of one candidate store: reading from it implies its order, value, execution and address. |
| `LoadRFs.LoadRF.GenConflict` | loadrf.cc:81-119 | The clause of one conflicting store, unless a constant order excludes it. |
| `LoadMeanings.MatchMeaning` | loadrf.cc:46-72 | The match clause holds exactly when the code naming the store implies that it is executed before the load at its address with its value. |
| `LoadMeanings.ConflictMeaning` | loadrf.cc:81-119 | The conflict clause holds exactly when the code naming the store implies that the other store is not executed in between at the load's address. |
| `LoadMeanings.RangeMeaning` | loadrf.cc:128-130 | An executed load has a code in range, and without candidate stores the clause says nothing. |
| `LoadMeanings.LoadClausesMeaning` | loadrf.cc:30-131 | An assignment satisfies the clauses of a load if and only if an executed load has a code in range and the store that the code names matches and has no listed store in between. |
| `Addresses.ProcessAddresses` | constgen.cc:1244-1270 | Exactly the address clauses of the record are added: the code of a hard-coded address, or for every possible address that the matching value of the source record implies its code; the address is the value plus the offset in its word. |
| `Addresses.AddressCarried` | constgen.cc:1244-1270 | Whatever satisfies these clauses makes the record's variables carry one of its addresses: the hard-coded one, or the sum, in its word, of the value of the source record and the offset. |
| `Addresses.AddressExactly` | constgen.cc:1244-1270 | An assignment satisfies the clauses if and only if the variables carry the hard-coded address, or for every value of the source record that leads to one of the record's addresses the sum of this value and the offset. |
| `Addresses.InputValueExactly` | constgen.cc:1260-1263 | Among the words, exactly one value of the source record leads to an address: the address minus the offset. |
| `Branches.ProcessBranch` | constgen.cc:1169-1222 | Exactly the clauses of the branch are added: that a branch which takes a direction is executed, unless it always is, and for every known direction that each source value which selects it, under the three cases for zero, any value and a specific value, makes the executed branch take it. |
| `Branches.BranchFollowsValue` | constgen.cc:1184-1222 | Whatever satisfies these clauses makes an executed branch take the direction that the value of its source selects, for every value that the source record may have. |
| `Branches.BranchExactly` | constgen.cc:1169-1222 | An assignment satisfies the clauses if and only if the branch is executed whenever it takes a direction, unless it always is, and an executed branch takes every direction that the value of its source selects. |
| `Branches.DirectionsTaken` | constgen.cc:1169-1222 | An executed record's branch directions are all taken, from the innermost to the outermost. |
| `Subsumptions.SubsumesExactly` | constgen.cc:1073-1106 | Where the test says that k is executed whenever c is: this holds in every assignment that satisfies the parent clauses if and only if no direction that skips k is compatible, by the records, with those of c, which can be tested when the clauses are made. |
| `Subsumptions.TogetherExactly` | constgen.cc:1073-1137 | A direction can be taken together with the execution of a record, in some assignment that satisfies the parent clauses, if and only if no branch around either is asked to go two ways and none of the directions needed skips the record or a branch around it. |
| `Subsumptions.SharedSkips` | constgen.cc:1930-1956 | Skips that c or a branch around c shares with k, which is how recording attaches them behind a jump, are never compatible with c, so the test is right for such records. |
| `Subsumptions.SkippedIsSubsumed` | constgen.cc:1073-1106 | Concrete records, for a jump and a label at any points in this order, on which the test holds, c is executed and k is skipped. |
| `Branches.IncomparableNotBoth` | constgen.cc:1169-1222 | Records in different directions of one branch are never both executed. |
| `SCExecutions.ExecutedOrder` | constgen.cc:898-929 | On executed records the order constraints describe a strict total order, program order included. |
| `SCExecutions.AddressKnown` | constgen.cc:1244-1270 | In every assignment that satisfies the clauses the address variables of an executed record carry one of its addresses. |
| `SCExecutions.OutcomeConsistent` | constgen.cc:433-520 | Every satisfying assignment has the properties on which pruning relies. |
| `SCExecutions.PrunedSetSuffices` | constgen.cc:433-520 | The clauses over the pruned set exclude as much as clauses over all candidate stores would. |
| `SCExecutions.LoadClausesExact` | loadrf.cc:30-131 | For an executed load with candidates the generated clauses hold if and only if its code names a store that is executed before it, at its address, with its value, and no candidate store to that address is executed in between. |
| `SCExecutions.SatisfyingAssignmentIsSC` | loadrf.cc:30-131 | Compiler correctness: whatever satisfies the generated clauses, address clauses included, is sequentially consistent, for any number of threads and records whose skips pass the test of SubsumesExactly. |
| `SCExecutions.StaticProgramIsSC` | loadrf.cc:30-131 | With hard-coded addresses, skipped records included, this needs no assumption about the assignment at all. |
| `Generation.Generate` | constgen.cc:218-236 | Both traversals, on a new solver: every memory operation is inserted, and the clauses in the solver mean exactly the order clauses and the clauses of every record. |
| `Generation.Traverse` | constgen.cc:387-395 | The second traversal adds exactly the clauses of the records that it visits, over variables that later records do not change. |
| `Generation.ProcessRecord` | constgen.cc:1830-1870 | Exactly the clauses of the record are added: those of a branch, or of a memory operation its address clauses, and for a load those of what it reads. |
| `Generation.ProcessLoad` | constgen.cc:1234-1239 | The read-from clauses of the load are added, and no others. |
| `Generation.SolvedIsSC` | constgen.cc:218-236 | End to end: what satisfies the clauses in the solver after generation orders all records strictly and totally and lets every visited load that is executed read the last store, given the two tests on records and source values. |
| `Generation.SolvedExactly` | constgen.cc:218-236 | Soundness and completeness of the whole encoding: an assignment satisfies the clauses in the solver if and only if it describes an execution, that is, it orders all records strictly and totally, branches and addresses follow from the values of their sources, and every executed load that has a candidate reads the last store. |
| `SCExecutions.LatestIsCandidate` | constgen.cc:560-604 | The latest sure store of the load's thread is a candidate, executed before the load at its address. |
| `SCExecutions.ReadsLastOfAllStores` | constgen.cc:560-604 | Of all stores to the load's addresses, kept as candidates or not, none that is executed before the load at its address comes after the store that it reads. |
| `Groupings.SameSetMeansLinked` | constgen.cc:406-430 | Two addresses map to the same set if and only if a chain of operations that share addresses links them, every operation is in the set of each of its addresses, and no address maps to a deleted set. |
| `Groupings.Grouping.GroupMemoryOperations` | constgen.cc:406-430 | Grouping one more operation keeps the partition, now over the operation as well. |
| `Groupings.Grouping.MergeSets` | constgen.cc:609-624 | All operations and addresses of one set move to the other, and no other entry changes. |
| `Groupings.MergedAddress` | constgen.cc:406-430 | After a merge the operation's next address is done, although it is in two sets on the way. |
| `Schedules.NextIsInnermost` | schedulebuilder.cc:151-170 | The next record is what follows the innermost level, from the record outwards through its branches, that goes on; a branch whose exit is unknown does not. There is none exactly when no level goes on. |
| `ProgramRuns.OnlyTakenRuns` | schedulebuilder.cc:151-232 | A thread, and the threads that it creates, execute operations only in directions that the solution takes, at every level of nesting. |
| `ProgramRuns.BranchRuns` | schedulebuilder.cc:151-191 | At a branch a thread executes all operations of the direction that the solution takes, and then, whatever it took, all operations of what follows the branch, unless something inside the branch leaves it. |
| `Schedules.ScheduleBuilder.ProcessRecord` | schedulebuilder.cc:172-232 | Where a thread goes on from a record, with created threads started on the way. |
| `Schedules.ScheduleBuilder.SkipToOperations` | schedulebuilder.cc:64-94 | Every thread goes on to its next memory operation, and no operation is lost. |
| `Schedules.ScheduleBuilder.FindEarliest` | schedulebuilder.cc:96-115 | The head that is first by the solution's order. |
| `Schedules.ScheduleBuilder.Emit` | schedulebuilder.cc:124-148 | The operation is taken off its thread and waits for the last operation of every other thread. |
| `Schedules.ScheduleBuilder.BuildSchedule` | schedulebuilder.cc:57-149 | All operations of the run are emitted, each thread's and those of created threads, what is done later later; the loop ends; every thread's wait pairs are those that the emitted order asks for; and the order is the solution's if and only if the solution agrees with program order and thread creation. |
| `Schedules.MovedMerging` | schedulebuilder.cc:64-94 | Moving past a record that is no operation, and starting a thread, keeps the merge. |
| `Schedules.EmittedMerging` | schedulebuilder.cc:96-148 | Emitting the earliest head keeps the merge: what follows an emitted operation is emitted later or still to come, and if the order agrees with program order and creation, nothing emitted comes after anything to come. |
| `Schedules.EveryStateMerges` | schedulebuilder.cc:57-149 | Every state that the builder reaches, by any number of heads that move on and operations that are emitted, keeps the merge. |
| `Schedules.WaitsAfter` | schedulebuilder.cc:124-148 | The pairs added for an operation are the ones that the longer schedule asks for. |
| `Schedules.ScheduleIsPlanned` | schedulebuilder.cc:57-149 | What the builder leaves in the scheduler is a plan in the sense of the replay results. |
| `Extractions.SolutionIsTotal` | schedulebuilder.cc:96-115 | The order that a satisfying assignment describes is a strict total order of the operations of the run, which is what the builder asks for. |
| `Extractions.SolvedInOrderMeaning` | schedulebuilder.cc:57-149 | For the builder's order this agreement is: the solution puts an operation before everything that its thread, and the threads created after it, do later. |
| `Extractions.ProgramOrderIsKept` | constgen.cc:898-929 | Within a thread every solution agrees. |
| `Extractions.AlwaysInOrderExactly` | constgen.cc:968-1009 | Every solution is scheduled in its own order if and only if the operations of created threads are linked to the operations before their creation by chains of program order, thread starts and joins. |
| `Extractions.GrandchildOutOfOrder` | schedulebuilder.cc:57-149 | Concrete run and satisfying assignment that the builder cannot emit in the order of the solution. |
| `Replays.MCScheduler.AddWaitPair` | mcschedule.cc:49-86 | The pair is last in its thread's list, no other list changes and no cursor moves, also when the index array grows. |
| `Replays.MCScheduler.CheckSet` | mcschedule.cc:176-234 | With no new behaviour the verdict and the cursor are those of the scan, and only this thread's cursor moves; with new behaviour every thread may run. |
| `Replays.MCScheduler.CheckPreempt` | mcschedule.cc:116-162 | The first thread in turn that is not finished and may run; when every unfinished thread is refused, the thread that is first in turn again unless it is finished, and none then. |
| `Replays.SomeMayRun` | mcschedule.cc:143-161 | In every reachable state in which some thread is not finished, some unfinished thread may run, so a refused thread is never run for lack of another. |
| `Replays.ScanMeaning` | mcschedule.cc:176-234 | The scan passes exactly the pairs of the current operation whose waits are over and refuses at the first that is not. |
| `Replays.VerdictMeaning` | mcschedule.cc:170-234 | A thread at its next operation may run if and only if that operation is next in the schedule; a thread elsewhere may always run. |
| `Replays.StepFollows` | mcschedule.cc:116-234 | Every step keeps the executed operations a beginning of the schedule and executes at most the next one. |
| `Replays.OnlyOneInterleaving` | mcschedule.cc:116-234 | Whatever threads are tried, in every replay the operations are executed in the order of the schedule. |
| `Replays.NextIsEnabled` | mcschedule.cc:116-234 | In every reachable state the thread of the next operation is not finished and may run, and every other thread that stands at an operation is refused. |
| `Planners.Planner.ProcessChanges` | planner.cc:54-86 | The worklist empties. Only what follows by the rules of propagation is added, and at the end every rule that applies has been applied, except for those that were already missed at the start; when none was, the value sets are exactly the least ones that are closed under the rules. |
| `Propagations.LeastIsClosed` | planner.cc:54-86 | What every closed collection of facts around the given ones has in common is closed itself, so there is a least one. |
| `Planners.Planner.Process` | planner.cc:88-136 | Every rule that the change brings has its conclusion afterwards. |
| `Planners.Planner.ProcessNewReturnValue` | planner.cc:143-154 | The value is registered with every record that depends on the one that returns it, with the offset added to addresses. |
| `Planners.Planner.ProcessNewLoadAddress` | planner.cc:161-185 | The load may read everything that the stores to the address may have written. |
| `Planners.Planner.ProcessNewStoreAddress` | planner.cc:187-212 | Every load and read-modify-write of the address may read everything that the store may write. |
| `Planners.Planner.ProcessNewStoreValue` | planner.cc:214-234 | Every load and read-modify-write of any of the store's addresses may read the value. |
| `Planners.Planner.RegisterValue` | planner.cc:237-262 | The value is in the record's set, unless the record merges branches. |
| `Planners.Planner.RegisterLoadValue` | planner.cc:268-292 | Exactly this value is added, with the offset if it is an address, and its change is pending if it is new. |
| `Planners.Planner.RegisterStoreValue` | planner.cc:386-401 | Exactly this value is added, with the offset if it is an address, and its change is pending in any case. |
| `Planners.Planner.RegisterRMWValue` | planner.cc:294-318 | The value is added. A new address or value read has its change pending, and of a compare-and-swap a new operand or value read may be stored. |
| `Planners.Planner.DoRMWNewAddrChange` | planner.cc:320-346 | The read-modify-write is listed at the address as a load and as a store, its change is pending, and it may read everything that the stores to the address may have written. |
| `Planners.Planner.DoRMWRFChange` | planner.cc:348-361 | The change for the value that is returned is pending, and with the value read exactly the same value is added to what a compare-and-swap may store. |
| `Planners.Planner.DoRMWBaseChange` | planner.cc:363-380 | With the operand, exactly the same value is added to what a compare-and-swap may store, and nothing for the other operations. |
| `Planners.Planner.RegisterFunctionValue` | planner.cc:407-424 | The value is added. A phi has its change pending, and of a function with shared goals every goal that takes the new value and has all its inputs has its output. |
| `Planners.Planner.EvalGoal` | mcexecution.cc:760-768 | Exactly the output of a goal with all inputs is added, with its change if it is new. |
| `Planners.Planner.RegisterInput` | planner.cc:264-266 | Exactly this value is added to the inputs of a branch or of a comparison, and no change is pending because of it. |
| `Planners.Planner.RecordStore` | mcexecution.cc:455-466 | A recorded store adds its address and value, and no rule is missed because of it. |
| `Planners.Planner.RecordValue` | mcexecution.cc:429-432 | A recorded value of a store, a read-modify-write, a function or a comparison is added, and no rule is missed because of it. |
| `Planners.Planner.RecordLoad` | mcexecution.cc:448-453 | A recorded load adds its address, and no rule is missed because of it. |
| `Planners.Planner.RecordRMW` | mcexecution.cc:434-446 | A recorded read-modify-write adds its address, operands and value; the rules that may be missed because of it are its reads of the address and that a compare-and-swap may store the operand. |
| `Planners.RecordedTooLate` | mcexecution.cc:434-446 | A concrete recording: an exchange that is recorded after a store to its address has been processed misses the stored value. |
| `Planners.Planner.AddChange` | planner.cc:48-52 | The change is pending behind those that were, none is pending twice, and nothing else changes. |
| `Propagations.MissedExactly` | planner.cc:96-111 | When a read-modify-write misses what may have been written to one of its addresses: if and only if it has not read it and no change of the store is waiting, since its own address brings it nothing. |
| `Propagations.NewFact` | planner.cc:268-401 | A new fact whose change is pending lets only those rules be missed that it makes apply and that the change does not bring. |
| `Propagations.TakeChange` | planner.cc:54-86 | Taking a change off the list lets only the rules be missed that it brings, and none if it was completed before. |
| `HashTables.HashTable.Put` | hashtable.h:169-209 | put keeps the table right and maps the key to the value if and only if the key is zero or absent, the table grows, or no hole precedes the key on its probe path; otherwise the key is in the table twice. |
| `HashTables.PutDuplicates` | hashtable.h:187-199 | Putting a key that a hole precedes stores it twice. |
| `HashTables.TombstoneDuplicates` | hashtable.h:187-199 | Concrete table on which put duplicates a key behind a tombstone. |
| `HashTables.HashTable.Get` | hashtable.h:211-243 | get answers exactly what the table maps the key to, also when tombstones fill the table. |
| `HashTables.HashTable.Remove` | hashtable.h:245-281 | remove takes out exactly the key and returns its value, when its probe ends. |
| `HashTables.HashTable.Contains` | hashtable.h:293-317 | contains is membership, when its probe ends. |
| `HashTables.HashTable.Resize` | hashtable.h:320-357 | The same map in the new capacity, without tombstones. |
| `HashTables.HashTable.Reset` | hashtable.h:115-123 | The table is empty and has no tombstones left. |
| `HashTables.RemoveKeeps` | hashtable.h:245-281 | A tombstone keeps every other key reachable from its home slot. |
| `HashTables.NoHoles` | hashtable.h:320-357 | Without tombstones no hole precedes a key. |
| `HashTables.ProbeStopsExactly` | hashtable.h:245-317 | The probes of remove and contains stop after some number of steps if and only if the table has the key or a vacant slot; otherwise they run forever. |
| `HashTables.TombstonesFill` | hashtable.h:169-281 | Concrete puts and removes that lead to a table on which the probe for an absent key never stops, although the table is empty. |
| `HashSets.HashSet.Add` | hashset.h:125-144 | The key is appended to the insertion order exactly if it was absent; the answer says which. |
| `HashSets.HashSet.Remove` | hashset.h:162-181 | Exactly the key leaves and the others keep their order; the answer says whether it was there. |
| `HashSets.HashSet.Contains` | hashset.h:158-160 | Membership; its probe always ends. |
| `HashSets.HashSet.Get` | hashset.h:146-152 | The key if it is present. |
| `HashSets.HashSet.GetFirstKey` | hashset.h:154-156 | The oldest key. |
| `HashSets.HashSet.Reset` | hashset.h:111-123 | The set is empty. |
| `HashSets.HashSet.GetSize` | hashset.h:183-185 | The number of keys. |
| `HashSets.HashSet.IsEmpty` | hashset.h:187-189 | True exactly for the empty set. |
| `HashSets.PresentEnds` | hashset.h:162-181 | Looking a key up first makes the probe of the table's remove end, also when tombstones fill the table. |
| `HashSets.HSIterator.Next` | hashset.h:59-64 | The iterator visits the keys in insertion order. |
| `HashSets.HSIterator.CurrKey` | hashset.h:66-68 | The key that was returned last. |
| `HashSets.HSIterator.Remove` | hashset.h:70-73 | The key returned last leaves the set, and the iteration goes on with the one after it. |
| `HashSets.Copy` | hashset.h:102-109 | A separate set with the same keys in the same order. |
| `Snapshots.Snapshotter.RollBack` | snapshot.cc:238-266 | Every page is as it was when the snapshot was taken, older snapshots stay restorable, and the fast path writes only pages that are not protected and can be repeated. |
| `Snapshots.Snapshotter.TakeSnapshot` | snapshot.cc:219-236 | The memory is saved under a new id, or the program ends when no record is left. |
| `Snapshots.Snapshotter.HandlePf` | snapshot.cc:115-141 | The first write to a page since the last snapshot backs it up and unprotects it, or the program ends when no backing page is left. |
| `Snapshots.Snapshotter.Write` | snapshot.cc:115-141 | A write changes its page and keeps every live snapshot restorable. |
| `Snapshots.Snapshotter.CopyOldest` | snapshot.cc:257-262 | On the general path the oldest backing copy of every page wins. |
| `Snapshots.Snapshotter.CopyLatest` | snapshot.cc:240-247 | On the fast path every record is the only one of its page. |
| `Snapshots.FaultKeeps` | snapshot.cc:115-141 | Copying on a first write keeps all snapshots restorable. |
| `Snapshots.RollBackKeeps` | snapshot.cc:238-266 | After a rollback the records that are left restore all older snapshots. |
| `Snapshots.BackAtSnapshot` | snapshot.cc:238-266 | When all records since a snapshot are copied back, the memory is as it was. |
| `TreeBins.IndexRange` | malloc.c:2820-2834 | The tree index of a size below 2^40 is that of the bin whose size range holds it. |
| `TreeBins.IndexExact` | malloc.c:2823-2834 | For all large sizes: the index is right if and only if the size is below 2^40, or the 32 bits of it that reach the computation are at least 0xC000. |
| `TreeBins.TerabyteInFirstBin` | malloc.c:2823-2834 | Concrete size for which the 32-bit truncation picks the first bin. |
| `TreeBins.IndexMonotone` | malloc.c:2820-2834 | Later bins hold larger sizes only. |
| `TreeBins.WordSteers` | malloc.c:2890-2892 | The size shifted to the top of the word leads, bit by bit, to the size's place in the trie of its bin. |
| `TreeBins.InsertKeeps` | malloc.c:3625-3674 | Inserting a chunk keeps the bitwise trie with one ring for each size and adds exactly the chunk. |
| `TreeBins.RemoveKeeps` | malloc.c:3693-3762 | Unlinking a chunk keeps the trie, also where a leaf replaces an inner node, and removes exactly the chunk. |
| `TreeBins.PopLeafKeeps` | malloc.c:3708-3722 | The replacement is a leaf, and what is left is a trie of all other chunks. |
| `TreeBins.RingIsFIFO` | malloc.c:3662-3672 | A ring is first in, first out: a chunk joins at the end, and taking the first leaves the others in order. |
| `TreeLinks.TreeBin.InsertLarge` | malloc.c:3625-3674 | On child, parent and ring pointers: the chunk is written into the memory so that it holds the trie with the chunk inserted, and no other memory changes. |
| `TreeLinks.TreeBin.Descend` | malloc.c:3638-3671 | The walk by the bits of the size ends at the chunk of the same size or at the missing child, where the insertion is that of the whole trie. |
| `TreeLinks.TreeBin.UnlinkLarge` | malloc.c:3693-3762 | Found through its pointers alone: the memory holds the trie without exactly this chunk, whether it is chained, heads its ring, or is the last of its size, and no other memory changes. |
| `TreeLinks.TreeBin.PopRightmost` | malloc.c:3707-3722 | A chunk alone in its ring gets the rightmost leaf below it for a replacement, also when this is its own child, and nothing when it is a leaf itself. |
| `TreeLinks.TreeBin.Relink` | malloc.c:3723-3761 | The bin or the parent points to the replacement, which has the children of the chunk, and treemap is cleared when the bin is empty. |
| `TreeLinks.UnlinkedIsRemove` | malloc.c:3693-3762 | The trie that the pointers lead to is the one that the size leads to, so what is proved of the latter holds for the memory. |
| `TreeLinks.FollowerUnlinked` | malloc.c:3696-3705 | A chained chunk leaves its ring, and nothing else of the trie changes. |
| `TreeLinks.FirstReady` | malloc.c:3696-3705 | The chunk before the first one of a ring is fit to replace it: it has no children and no parent of its own. |
| `TreeLinks.LeafReady` | malloc.c:3707-3722 | The leaf is fit to replace the chunk when the child pointer to it is cleared, and the children of the chunk that are left are those of the replacement. |
| `TreeSearches.BestFit` | malloc.c:4410-4450 | A chunk of the smallest size that serves the request among all tree-binned chunks, one that heads its ring, and nothing exactly when no chunk serves it, for every request. |
| `TreeSearches.Descend` | malloc.c:4415-4438 | The walk through the request's bin loses no better fit but those in the subtree it leaves behind. |
| `TreeSearches.LeastOf` | malloc.c:4450-4457 | The walk down the leftmost children finds the smallest size of a subtree. |
| `TreeSearches.NextBin` | malloc.c:4439-4448 | When the request's bin has no fit, the next bin that is not empty has the best ones. |
| `TreeSearches.LeastFit` | malloc.c:4481-4496 | A chunk of the smallest size in all tree bins. |
| `LinkSearches.BestLink` | malloc.c:4410-4450 | tmalloc_large on child pointers: the walk by the bits of the size, the bins after it, and the leftmost descent find a chunk of the smallest size that serves the request among all that the bins show in memory, and NULL exactly when none serves it. |
| `LinkSearches.LeastBinLink` | malloc.c:4481-4496 | tmalloc_small on child pointers: a chunk of the smallest size in all tree bins. |
| `LinkSearches.DescendLinks` | malloc.c:4415-4438 | The walk over child pointers is the walk through the trie that the memory shows. |
| `LinkSearches.LeastLink` | malloc.c:4450-4457 | The walk down the leftmost child pointers finds the smallest size. |
| `Bins.BinState.InsertLargeChunk` | malloc.c:3625-3674 | The bins hold one chunk more, and tries, maps and rings stay right. |
| `Bins.BinState.UnlinkLargeChunk` | malloc.c:3693-3762 | The bins hold one chunk fewer, and tries, maps and rings stay right. |
| `Bins.BinState.InsertSmallChunk` | malloc.c:3547-3563 | The bins hold one chunk more, in the list of its size. |
| `Bins.BinState.UnlinkSmallChunk` | malloc.c:3566-3589 | The bins hold one chunk fewer. |
| `Bins.BinState.UnlinkFirstSmallChunk` | malloc.c:3592-3607 | Some chunk of the size leaves the bins. |
| `Bins.BinState.FindLarge` | malloc.c:4410-4457 | The best fit among all chunks in the bins. |
| `Bins.BinState.FindSmall` | malloc.c:4481-4496 | A smallest chunk of the tree bins. |
| `Bins.BinState.SmallMapExact` | malloc.c:3345-3365 | A bit of the small map is set exactly when the bins hold a chunk of that size. |
| `BinMaps.MarkedBins` | malloc.c:2902-2912 | Setting and clearing a bit of the map marks and unmarks exactly this bin. |
| `BinMaps.LeastMarked` | malloc.c:2914-2930 | The least bit of the map, x & -x, is that of the least marked bin. |
| `BinMaps.AboveMarked` | malloc.c:2917-2918 | The mask left_bits of one bit selects exactly the marked bins above it. |
| `BinMaps.RemainderlessBin` | malloc.c:5486-5490 | The two lowest bits of the shifted map tell whether the bin of the request or the next one holds a chunk, and the index arithmetic picks the first that does. |
| `Heaps.Tiles` | malloc.c:3399-3427 | Every address of the segment is inside exactly one chunk, or inside top. |
| `Heaps.BytesAddUp` | malloc.c:3399-3427 | The bytes of the chunks in use, of the free chunks and of top add up to the segment. |
| `Heaps.BytesMove` | malloc.c:5586-5685 | Taking one chunk out of use moves exactly its bytes. |
| `Heaps.FreeUndoesMalloc` | malloc.c:5474-5685 | Allocating a chunk and freeing it leaves the same chunks in use and as many bytes free. |
| `Heaps.FreeBetween` | malloc.c:5605-5625 | Freeing before a chunk in use, with or without a free chunk before: tags, feet and tiling stay right, and exactly the merged chunk becomes free. |
| `Heaps.FreeIntoTop` | malloc.c:5633-5645 | Freeing before top: the chunk, and a free one before it, become part of top. |
| `Heaps.FreeWithNext` | malloc.c:5646-5660 | Freeing before a free chunk: up to three chunks become one, and no two adjacent chunks are free. |
| `Heaps.TakePart` | malloc.c:4461-4472 | Splitting a free chunk: the first part is in use, the rest is free, and nothing else changes. |
| `Mspaces.Mspace.Free` | malloc.c:5586-5685 | Freeing a chunk in use keeps the heap well formed, takes exactly this chunk out of use, and leaves every free chunk except dv in exactly one bin; a chunk that is not in use is refused. |
| `Mspaces.Mspace.FreeBeforeTop` | malloc.c:5633-5645 | Consolidation with top, also when the chunk before is dv. |
| `Mspaces.Mspace.FreeBeforeDv` | malloc.c:5646-5651 | Consolidation with dv. |
| `Mspaces.Mspace.FreeBeforeBinned` | malloc.c:5652-5661 | Consolidation with a binned chunk, also when the chunk before is dv. |
| `Mspaces.Mspace.TmallocLarge` | malloc.c:4409-4477 | The best fit among the bins is allocated, unless dv fits better. |
| `Mspaces.Mspace.TmallocSmall` | malloc.c:4480-4518 | A smallest tree-binned chunk is allocated and the rest becomes dv. |
| `Mspaces.Mspace.Malloc` | malloc.c:5474-5584 | Allocation fails, up to a system call, exactly when no free chunk and not even top serves the request; otherwise one chunk comes into use that was not. It has room for the request beside its head, is aligned, is smaller than every size that would do plus a minimal chunk, and is chosen as documented: remainderless small chunk, dv, best fit, top for small requests, and the best fit of bins and dv for large ones. |
| `Mspaces.PaddedIsLeast` | malloc.c:2212-2221 | The padded size of every allowed request is the least aligned size that holds the request beside the head of the chunk and is not below a minimal chunk. |
| `Mspaces.Mspace.MallocAndFree` | malloc.c:5474-5685 | malloc followed by free leaves the same chunks in use and as many bytes free. |
| `Mspaces.Mspace.TakeDv` | malloc.c:5541-5558 | Allocation from dv, split or exhausted. |
| `Mspaces.Mspace.TakeTop` | malloc.c:5560-5570 | Allocation from top. |
| `Mspaces.Mspace.ReplaceDv` | malloc.c:3611-3619 | The new dv replaces the old one, which goes to its bin. |
| `MSQueues.InvNext` | benchmarks/satcheck/msqueueoffset/ms-queue-simple_unannotated.c:32-104 | The invariant is inductive over every atomic step of any thread. |
| `MSQueues.RunIsSafe` | benchmarks/satcheck/msqueueoffset/ms-queue-simple_unannotated.c:32-104 | In every run of any number of threads no thread dereferences NULL or a stray pointer, the head never passes the tail, and the tail lags by at most one node. |
| `MSQueues.StepRefines` | benchmarks/satcheck/msqueueoffset/ms-queue-simple_unannotated.c:32-104 | Every step is a step of the abstract queue: the CAS on tail->next appends, a successful CAS on the head removes and returns the front, and nothing else changes the queue. |
| `MSQueues.RunIsFIFO` | benchmarks/satcheck/msqueueoffset/ms-queue-simple_unannotated.c:32-104 | In every run the enqueued values are the dequeued values, in the same order, followed by what is in the queue. |
| `MSQueues.CallsTakeEffectOnce` | benchmarks/satcheck/msqueueoffset/ms-queue-simple_unannotated.c:32-104 | Every call takes effect exactly once, between its start and its return, and as it reports. |
| `MSQueues.FalseSawEmpty` | benchmarks/satcheck/msqueueoffset/ms-queue-simple_unannotated.c:71-85 | A dequeue that returns false saw an empty queue at its load of head->next. |
| `MSQueues.InvInitial` | benchmarks/satcheck/msqueueoffset/ms-queue-simple_unannotated.c:17-30 | init_queue establishes the invariant and an empty queue. |

## Left out

- The TSO build (store buffers, fences, TSO order clauses): only the code outside `#ifdef TSO` is modelled.
- Subsumptions.SubsumesExactly: the comment at constgen.cc:1073-1074 promises that k is executed whenever c is, and `SkippedIsSubsumed` refutes it; the assignments are those that satisfy the parent clauses, other clauses may exclude more. A skip in another thread than c, on which the source fails an assertion, is answered with false.
- SCExecutions.SatisfyingAssignmentIsSC: the encoding of the record from which an address comes is a parameter (`InputsDecode`); the implications that derive values from other operations (constgen.cc:1272-1490) are not modelled.
- Generation.Generate: one set of operations that share addresses; the records come in the order of the traversal, whose work stack is not modelled; of a store and a read-modify-write only the clauses for addresses and for what is read are generated, and records of functions, equalities, phis and yields add nothing.
- Generation.SolvedExactly: `vals` gives every branch the value that its source has in the assignment (`SourcesAre`), and the sources of addresses decode to a value that leads to one of the operation's addresses (`InputsDecode`); the code of a load that is not executed only has to meet the clauses of the store that it names.
- Branches.ProcessBranch: the goal for new directions (constgen.cc:1171-1174) is left out; the encoding of the source record's values is a parameter.
- SCExecutions.ReadsLastOfAllStores: a store's address in the solution is what its variables decode to; for a dropped store of the same thread this is its only address.
- ReadFrom.GetMayReadFromSetOpt: the address must have an entry in the store table, which the source dereferences without a test.
- Encoding of functions, equalities, phis, yields and fences, goals other than branch directions, reuse of an encoding, and the hash-consing of constraints.
- CodeRecords.ValueRecord.GetValue: for a set without values the source uses 32 variables and decodes to the marker value 111111111; this is kept.
- Constraints and records are values: sharing, ownership and freeing of formulas are not modelled.
- The solver is "some assignment that satisfies the clauses"; its process, pipes and result reading are not modelled.
- ExecPoints.ExecPointEquals: a missing second point with a first one that is not missing is excluded, because the source reads the second point.
- Schedules.ScheduleBuilder.BuildSchedule: that recording links each record to later points and numbers threads upwards is assumed (`Recorded`).
- ProgramRuns.BranchRuns: asks that nothing inside the branch leaves it before the end of its direction (leaving a loop from inside a branch does), and that every loop has a first record.
- Extractions.GrandchildOutOfOrder: the operations of the builder's run are given by decoded branch directions; that they are the records which the assignment executes is not stated.
- Replays.OnlyOneInterleaving: every thread has a current point from the start; the source reads the point of a thread that is not created yet.
- Replay switches contexts, records new events, and plans new goals when behaviour is new: the model stops at the verdicts.
- Planners.Planner.ProcessChanges: the rules that were missed at the start may stay missed, as in the source: a recorded read-modify-write does not fetch what was written to its address (planner.cc:96-111), and dependences and goals that are recorded after their values were propagated are not applied to them (mcexecution.cc:997-1023). Dependences and goals do not change while changes are processed.
- Planners.Planner.RegisterRMWValue: the operand of an ADD or of an exchange stores nothing new, because the source drops these cases (planner.cc:372-378).
- Planner goals, branch goals and the choice of what to explore next.
- HashTables.HashTable.Put: capacities are powers of two, so masking is a remainder; 32-bit overflow of a doubled capacity, and keys other than numbers with an equality of their own, are not modelled.
- HashTables.HashTable.Contains: asks for a probe that ends; ProbeStopsExactly says on which tables it does.
- Snapshots.Snapshotter.HandlePf: a page fault is a write to a protected page; ending the program is the result false. Regions are one array of pages, and a fault outside of them is left out.
- The fork-based snapshots and backTrackBeforeStep.
- TreeBins.InsertKeeps: tries are values here and in `Bins`, with the chunk that carries the links first in its ring; `TreeLinks` relates them to the child, parent and ring pointers of one bin. `LinkSearches` restates the searches on the child pointers of all bins.
- TreeLinks.TreeBin.UnlinkLarge: the checks of addresses and of the ring (RTCHECK) are left out; the bin is given instead of found by the index that the chunk stores.
- Bins.BinState.InsertSmallChunk: lists are sequences and bin maps are sets; `BinMaps` relates the words and their bit tricks to the sets.
- Mspaces.Mspace.Free: one segment of less than 2^40 bytes; trimming, releasing segments and memory-mapped chunks are left out. It is called on a chunk of the mspace, and answers false for one that is not in use, where the source aborts.
- Mspaces.Mspace.Malloc: the answer without a block stands for the call of sys_alloc. realloc, memalign, calloc, locks, footers, statistics and corruption checks are left out.
- The words of user data in a chunk: only heads and feet are modelled.
- MSQueues.RunIsSafe: nodes are fresh and never freed, as in the benchmark; progress (lock freedom) is not stated.
- Output redirection, options, stack traces, event graph printing, the annotator and the other benchmarks.
