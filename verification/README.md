# Verified models of the compiler's middle

This project models, in Dafny, how the compiler orders host blocks, simulates
their execution and rewrites quantum programs, and proves what these steps
promise. It verifies with `dafny verify dfyconfig.toml`.

The modules follow the program:

- **Block precedences** (`Precedences`, `Floaters`, `Reduction`,
  `AddPrecedences`): dependencies are collected, handed on at merge points,
  floaters are moved in front of branch blocks, the graph is reduced and a
  `blk_meta` record is emitted for every block. `QoalaHost` holds
  the verifier's rules for records, and `Graph` and `BlockOrder` hold
  reachability and orders.
- **The scheduling model** (`Reordering`, `MilpModel`, `MilpOrder`, `MilpBuild`,
  `MilpConstraints`, `Closure`, `MilpSchedule`, `MilpSerial`, `MilpReorder`,
  `MilpTheorems`, `MilpDeadlines`, `MilpDeadlineConstraints`, `MilpAnnotate`):
  blocks become tasks with start times, the linear constraints are built one by
  one, and the solver may return any integer assignment that satisfies them. The
  results are about every such assignment: what it guarantees, that there is
  one, and that sorting, splicing and attaching deadlines by it keeps the
  function acceptable.
- **The host and quantum simulation** (`Scheduler`, `SchedulerClock`,
  `SchedulerTiming`): two resource lists and clocks in wrapping 64-bit time.
  Order and termination hold always; `SchedulerTiming` says exactly when the
  clock never decreases and when entries start after their dependencies, and
  `SchedulerClock` gives a sufficient condition on what is displaced.
- **Circuit rewriting** (`Peephole`, `PeepholeRewriter`): gates on wires, with
  an interpretation of gates as a parameter and its laws as hypotheses.
- **Qubit values to qubit cells** (`Lowering`): static single assignment
  programs and their lowered form, with the linearity check beside them.
- **The angle search** (`Angle`): over exact reals, with the constant pi as a
  parameter between 3 and 4.
- **Outlining** (`Outlining`, `Functionize`, `FunctionizeMeaning`,
  `FunctionizeModule`) and the **per-qubit grouper** (`Grouper`).
- **Qubit slots** (`QubitSlots`): the lowest-free allocator and the counters
  that predict it.
- **Dead gates** (`DeadCode`): liveness and erasure.

Six places where the code does not do what it says, each with an input that
shows it and the exact condition under which it does:

- The simulated clock can run backwards (`SchedulerClock.DisplacedClockRunsBack`).
  It never does exactly when in every iteration some chosen entry has not run
  past its time, and entries then start after their dependencies exactly when
  none fires prematurely (`SchedulerTiming.KeepsTimeExactly`).
- The linearity check does not look at the results of Pauli gates and integer
  rotations (`Lowering.OverlookedPasses`, `Lowering.CheckedIsLinear`), and a
  value used twice is then read after its change (`Lowering.ReuseReadsSuccessor`).
- Erasing dead gates fails on a body with a dead integer rotation
  (`DeadCode.RotatedIsUnsafe`, `DeadCode.RunOnOperation`).
- The search for the return block stops at the block's record
  (`MilpReorder.FindReturnBlock`), so a block that returns may be left in front
  of another (`MilpTheorems.ReturnBlockLeftInFront`); it is last exactly when no
  unmodelled block stood after it (`MilpTheorems.ReturnBlockIsLast`).
- At exponent 30 the period of the normalisation, `1 << 31`, is negative: the
  numerators from 1 to 2^30 leave their normal form (`Peephole.ReducedExactly`),
  and rewriting, in wrapping arithmetic, then goes back and forth
  (`Peephole.SpinsForever`, `Peephole.EndlessExactly`).
- Integer controlled rotations are normalised by full turns and then dropped at
  zero, although the elimination of full turns spares controlled rotations
  (lib/Analysis/QNet/PeepholeOptimizations.cpp:343-348). All rewrites keep the
  meaning exactly where a controlled full turn changes nothing
  (`Peephole.KeptExactly`, `Peephole.ControlledTurnIsLost`).

The comments on the order selector state it the wrong way round
(lib/Analysis/QoalaHost/MILPReordering.cpp:857-858, 924, 940). The model
follows the code: selector 1 puts the first block of the pair first.

## Model

| member | source | states |
|---|---|---|
| AddPrecedences.Run | lib/Analysis/QoalaHost/Precedences.cpp:212-661 | If the incoming list places every data, memory and control-flow predecessor earlier: the dependencies of the program are handed on at merge points and nowhere else, every conditional branch block then has its turn and any other block none, and the final list is a permutation whose records pass the declare-before-use rule, reach exactly what the dependencies found so reach, have no two-edge shortcut, and say of every predecessor whether it is left out, of every bridge what stands before it, and which block communicated and requested before |
| AddPrecedences.EmittedIsDeclared | lib/Analysis/QoalaHost/Precedences.cpp:536-658 | Any block order that honours the dependencies, control flow, previous communication and previous entanglement gives records that name only earlier blocks, including the predecessor made up for a bridge |
| AddPrecedences.SourceListIsSound | lib/Analysis/QoalaHost/Precedences.cpp:253-330 | The incoming order honours all four kinds of precedence, including the two that follow program order of communications and requests |
| AddPrecedences.KeptAreListed | lib/Analysis/QoalaHost/Precedences.cpp:574-614 | The scan over the predecessors records exactly the kept ones |
| AddPrecedences.RecordTells | lib/Analysis/QoalaHost/Precedences.cpp:574-646 | A predecessor is left out exactly when the block has at least two, calls a routine, does not depend on it, and the last routines of the two share no written buffer; a bridge without predecessors names the block in front of it and no other block has a made-up one; the previous communication and request blocks are the nearest earlier ones |
| AddPrecedences.EmitMeta | lib/Analysis/QoalaHost/Precedences.cpp:536-658 | Every record holds exactly the block's dependencies and says of the program what RecordTells states |
| AddPrecedences.PropagateAllFloaters | lib/Analysis/QoalaHost/Precedences.cpp:423-532 | Every block that ends in a conditional branch has its turn, in the incoming order, and no other block changes anything: a turn ties, moves and settles the floaters of its block (every eligible one needed after it then stands before it and is a direct dependency, or is still blocked) |
| Precedences.DataDependencies | lib/Analysis/QoalaHost/Precedences.cpp:305-328 | A block depends on another exactly when it uses a value made there, or communicates and the other is the first block |
| Precedences.ResolveMemorySideEffects | lib/Analysis/QoalaHost/Precedences.cpp:90-157 | Adds exactly the blocks whose last called routine stands earlier in the module and shares a buffer with the block's last called routine that one of the two writes |
| Precedences.PreviousMap | lib/Analysis/QoalaHost/Precedences.cpp:392-408 | The map sends a block to the block of the operation just before its first one, when that is another block |
| Precedences.PreviousOf | lib/Analysis/QoalaHost/Precedences.cpp:624-646 | The scan at emission finds the same previous block as the map built before the floater loop |
| Precedences.PropagateAtMerges | lib/Analysis/QoalaHost/Precedences.cpp:349-370 | Every predecessor of a block gets the block's dependencies that stand before it, nothing is added otherwise, and the list still honours all dependencies |
| Precedences.PreviousGrows | lib/Analysis/QoalaHost/Precedences.cpp:394-400 | In program order the first recorded previous block of a block is its only one |
| Precedences.PreviousIsNearest | lib/Analysis/QoalaHost/Precedences.cpp:392-408 | The block listed just before the first operation of a block is the nearest earlier block in the list |
| Precedences.CallSiteIsLast | lib/Analysis/QoalaHost/Precedences.cpp:299-301 | A block is remembered for its last call |
| Precedences.HandedBefore | lib/Analysis/QoalaHost/Precedences.cpp:355-370 | Positions in the list decide which dependencies a predecessor receives: all of the block's that stand before that predecessor; that nothing else is added is stated by PropagateAtMerges |
| Floaters.PropagateFloaters | lib/Analysis/QoalaHost/Precedences.cpp:433-532 | The loop of one branch block ends (each move leaves fewer blocks after it). Then every other block without predecessors that is more than a lone branch and is needed after it, and with the static scheduler calls no request routine, stands before it and is a direct dependency, or is still blocked by a dependency or a previous communication or request at or after it; only such blocks are tied, and only tied blocks have changed sides with others |
| Floaters.TryMove | lib/Analysis/QoalaHost/Precedences.cpp:500-529 | A floater after the branch moves exactly when it is not blocked, and lands in front of the branch |
| Floaters.MoveKeepsSound | lib/Analysis/QoalaHost/Precedences.cpp:508-527 | Moving an unblocked floater in front of the branch breaks no dependency, control-flow edge or previous operation |
| Floaters.TransitiveNeeds | lib/Analysis/QoalaHost/Precedences.cpp:448-468 | The worklist ends with a set that holds all dependencies of the blocks after the branch, is closed, and holds nothing that is not needed after it |
| Floaters.NeedsAreClosed | lib/Analysis/QoalaHost/Precedences.cpp:448-499 | The needs stay complete while the branch gains dependencies out of them |
| Reduction.TransitiveReduction | lib/Analysis/QoalaHost/Precedences.cpp:159-184 | In any block order, reading neighbours that may be reduced already: on an acyclic graph reachability is preserved exactly and no two-edge shortcut is left |
| Reduction.ReduceAtKeepsReach | lib/Analysis/QoalaHost/Precedences.cpp:165-182 | Reducing one block of an acyclic graph preserves exactly the reachability relation |
| Reduction.CyclicReductionLosesReach | lib/Analysis/QoalaHost/Precedences.cpp:165-182 | A block that depends on itself loses its other dependencies, so the hypothesis of acyclicity is needed |
| BlockOrder.MoveKeepsRespects | lib/Analysis/QoalaHost/Precedences.cpp:524 | Moving a block up keeps an order that honours a relation when all that the block needs stands above its new place |
| QoalaHost.VerifyRegions | lib/Dialect/QoalaHost/QoalaHost.cpp:80-139 | Accepts exactly the functions in which every block has one record, which comes first, and every named block is declared earlier; otherwise reports what is wrong with the first bad block: no record, several, one that is not first, or an undeclared name of an attribute |
| MilpBuild.BuildMilp | lib/Analysis/QoalaHost/MILPReordering.cpp:218-484 | Succeeds exactly when every block that does not stay out has a right number of operations and names only blocks up to it that do not stay out; then the model describes the program (next row), and a failure names a bad block or lists exactly the unresolved edges |
| MilpBuild.ModelDescribes | lib/Analysis/QoalaHost/MILPReordering.cpp:218-484 | The blocks of the model stand, in order, for exactly the host blocks that neither return nor are empty, name nobody and are named by nobody: same id, kind and durations, no task for communication, one host task for a classical block, and a host call, a quantum routine and a host return for a quantum block; the precedences are exactly the names in their records |
| MilpBuild.RecordEdges | lib/Analysis/QoalaHost/MILPReordering.cpp:136-148 | Exactly the names of blocks known so far become precedences, and exactly the others are recorded as unresolved edges |
| MilpBuild.BuiltFrom | lib/Analysis/QoalaHost/MILPReordering.cpp:218-484 | The model holds exactly the blocks that neither return nor are empty and unreferenced |
| Reordering.CreateTasksForBlock | lib/Analysis/QoalaHost/MILPReordering.cpp:22-74 | Fails exactly on a wrong number of operations; otherwise the block has the parts of its kind over its own operations: none for communication, all operations in one for a classical block, and call, routine and return for a quantum block |
| Reordering.TaskObject.GetDuration | include/Analysis/QoalaHost/Reordering.h:82-88 | The summed durations of its operations, modulo 2^64 |
| Closure.Close | lib/Analysis/QoalaHost/MILPReordering.cpp:866-882 | The closure loop ends with exactly the pairs reachable by precedences, whether or not a pair added in a round is visited in it |
| MilpConstraints.BuildOrderModel | lib/Analysis/QoalaHost/MILPReordering.cpp:773-1017 | The solutions of the linear constraints that are built are exactly the schedules of the program: starts within twice the summed durations, operations of a block one duration apart, blocks after those they must follow, and for any two unordered blocks with tasks one selector that puts the first tasks, and for two quantum blocks all three, of one block before those of the other |
| MilpConstraints.FcfsConstraints | lib/Analysis/QoalaHost/MILPReordering.cpp:849-958 | A pair gets a selector exactly when neither block reaches the other and both start with a task of the same kind; selector 1 puts the first block of the pair first |
| MilpConstraints.HorizonConstraints | lib/Analysis/QoalaHost/MILPReordering.cpp:773-794 | The bounds say that every start is between 0 and the given bound |
| MilpConstraints.ComputeBigM | lib/Analysis/QoalaHost/MILPReordering.cpp:773-784 | The bound that BuildOrderModel gives is twice the summed durations modulo 2^32; BuildOrderModel shows that it is twice the sum when that fits |
| MilpSchedule.RunsThrough | lib/Analysis/QoalaHost/MILPReordering.cpp:796-823 | In a solution every operation starts at its block's start plus the durations before it |
| MilpSchedule.ReachEndsBefore | lib/Analysis/QoalaHost/MILPReordering.cpp:825-847 | In a solution a block that reaches another by precedences has ended when the other starts |
| MilpSchedule.OneWinner | lib/Analysis/QoalaHost/MILPReordering.cpp:899-957 | Two blocks left unordered have one winner in all compared slots: the first when the selector is 1, the second when it is 0 |
| MilpSchedule.HostTasksDisjoint | lib/Analysis/QoalaHost/MILPReordering.cpp:849-958 | In a solution the first (host) parts of any two blocks never overlap |
| MilpSchedule.QuantumTasksDisjoint | lib/Analysis/QoalaHost/MILPReordering.cpp:849-958 | In a solution the calls of any two quantum blocks never overlap, nor do their routines, nor their returns |
| MilpSchedule.FeasibleExactly | lib/Analysis/QoalaHost/MILPReordering.cpp:796-1017 | The feasible assignments of the model are exactly the schedules of the program, in start times alone |
| MilpSerial.OrderModelIsFeasible | lib/Analysis/QoalaHost/MILPReordering.cpp:773-1017 | For every acyclic precedence list whose total duration is at least the number of blocks, a serial topological schedule with unit gaps satisfies the whole model within its own horizon |
| MilpSerial.PutInLine | lib/Analysis/QoalaHost/MILPReordering.cpp:773-1017 | The blocks can be put in a line along the precedences, with the same total duration |
| MilpSerial.SerialExclusive | lib/Analysis/QoalaHost/MILPReordering.cpp:899-957 | In the serial schedule every competing pair meets its selector constraints, with the selector that tells which comes first |
| MilpTheorems.VerifiedIsSchedulable | lib/Analysis/QoalaHost/MILPReordering.cpp:218-484 | A function that passes the verifier gives an acyclic model, so its model is feasible |
| MilpTheorems.ReorderedIsVerified | lib/Analysis/QoalaHost/MILPReordering.cpp:1280-1390 | For every feasible schedule of a verified function whose modelled blocks last at least one unit, sorting by start time and splicing gives a permutation that again passes the verifier, for modelled and unmodelled blocks alike |
| MilpTheorems.ReorderVerified | lib/Analysis/QoalaHost/MILPReordering.cpp:1320-1390 | The splice by the start order of a feasible schedule succeeds, the verifier accepts its result, and a block that returns ends it exactly when no unmodelled block stood after it |
| MilpTheorems.ReturnBlockIsLast | lib/Analysis/QoalaHost/MILPReordering.cpp:1379-1384 | After the splice a block that returns is the last one exactly when every block after it in the function is modelled |
| MilpTheorems.ReturnBlockLeftInFront | lib/Analysis/QoalaHost/MILPReordering.cpp:1379-1384 | A verified function, a block that returns and an empty one behind it, whose splice leaves the block that returns in front |
| MilpTheorems.VerifiedIsBuildable | lib/Analysis/QoalaHost/MILPReordering.cpp:218-484 | For a verified function whose modelled blocks have right numbers of operations, the model is built exactly when no modelled block names a block that returns |
| MilpTheorems.GetOrderedBlocks | lib/Analysis/QoalaHost/MILPReordering.cpp:1280-1318 | The result holds each block of the model once, sorted by start time in the solution |
| MilpTheorems.NamedStartsEarlier | lib/Analysis/QoalaHost/MILPReordering.cpp:825-847 | A block named in the record of a modelled block starts strictly earlier in every feasible schedule |
| MilpReorder.ReorderBlocks | lib/Analysis/QoalaHost/MILPReordering.cpp:1320-1390 | Fails exactly on an id the scan did not remember; otherwise the result is the listed blocks in the listed order, then the others in their old order, with a block that returns before any record moved to the end; with records first no such move happens |
| MilpReorder.FindReturnBlock | lib/Analysis/QoalaHost/MILPReordering.cpp:1334-1345 | Finds a block exactly when some block returns before any record of it, and remembers exactly the ids of the blocks with a record before any return; with records first it finds none, because the scan of a block stops at its record |
| MilpReorder.WithoutOneMore | lib/Analysis/QoalaHost/MILPReordering.cpp:1379-1384 | Taking one more id out of the remainder removes exactly its block |
| MilpDeadlines.ChainPrecedences | lib/Analysis/QoalaHost/MILPReordering.cpp:1392-1417 | The precedences of an order are exactly its consecutive pairs of known ids |
| MilpDeadlineConstraints.BuildDeadlineModel | lib/Analysis/QoalaHost/MILPReordering.cpp:1419-1675 | The solutions of the linear constraints that are built are exactly the assignments that space the chain (nonnegative starts, operations one duration apart, every gap the idle time between two blocks and at least the least gap, the horizon) and keep each measured qubit within its lifetime bound in 64-bit arithmetic |
| MilpDeadlineConstraints.LifetimeExactly | lib/Analysis/QoalaHost/MILPReordering.cpp:1677-1708 | The constraint says that a qubit lives at most the given time, from the end of its allocation to the end of its measurement, exactly when the bound fits a signed 64-bit integer |
| MilpDeadlineConstraints.GapConstraints | lib/Analysis/QoalaHost/MILPReordering.cpp:1592-1637 | The two constraints of a pair say that its gap is the idle time between the blocks and at least the least gap |
| MilpDeadlineConstraints.FcfsConsistency | lib/Analysis/QoalaHost/MILPReordering.cpp:1550-1590 | The constraints of a pair say that equal slots are served in chain order, with exact 32-bit durations |
| MilpDeadlines.SolutionIsLinked | lib/Analysis/QoalaHost/MILPReordering.cpp:1468-1637 | In every solution of the deadline model each block of the chain starts one gap after the one before it ends, and every gap is at least the least gap |
| MilpDeadlines.SortedIsChain | lib/Analysis/QoalaHost/MILPReordering.cpp:1468-1637 | Sorting the blocks of a solution by start time gives back the chain |
| MilpDeadlines.FcfsIsImplied | lib/Analysis/QoalaHost/MILPReordering.cpp:1550-1590 | The first-come-first-served constraints follow from the other ones |
| MilpDeadlines.DeadlinedExactly | lib/Analysis/QoalaHost/MILPReordering.cpp:1468-1675 | The deadline model, with its task, precedence, slot, gap and horizon constraints, says exactly that the chain is spaced |
| MilpDeadlines.ComputeDeadlines | lib/Analysis/QoalaHost/MILPReordering.cpp:1827-1904 | Every deadline is the 32-bit distance from the end of the reference block when that is nonnegative, and otherwise the deadline before plus one, 1 for the reference block; only ordered blocks get one |
| MilpDeadlines.DeadlinesOfSolution | lib/Analysis/QoalaHost/MILPReordering.cpp:1827-1904 | Only the reference block is fixed up; every later deadline is the sum of the gaps and durations since it, and deadlines grow by at least a duration and the least gap |
| MilpDeadlines.ProgramHorizon | lib/Analysis/QoalaHost/MILPReordering.cpp:1710-1747 | The user's horizon when it is positive and not below the summed durations, and otherwise twice the sum |
| MilpAnnotate.AnnotateBlockDeadlines | lib/Analysis/QoalaHost/MILPReordering.cpp:1906-1950 | Every record with a deadline, other than the reference block's, names the reference block in its deadlines, and nothing else changes |
| MilpAnnotate.AnnotatedIsDeclared | lib/Analysis/QoalaHost/MILPReordering.cpp:1906-1950 | An accepted function is accepted with its deadlines exactly when all blocks that get one stand after the reference block |
| MilpAnnotate.DeadlinesKeepVerified | lib/Analysis/QoalaHost/MILPReordering.cpp:1906-1950 | A verified function, spliced by any feasible schedule and given any deadlines of its sorted blocks, is accepted |
| MilpAnnotate.AttachDeadlines | lib/Analysis/QoalaHost/MILPReordering.cpp:1827-1950 | On an accepted splice, the deadlines of any solution of the deadline model sum up the gaps and durations since the reference block, and the function with them is accepted |
| Scheduler.RunScheduler | lib/Analysis/QoalaHost/QubitLifetime.cpp:405-439 | The loop ends, and its result is the clock and the lifetimes of the specified run |
| Scheduler.StepRemoves | lib/Analysis/QoalaHost/QubitLifetime.cpp:268-296 | Every iteration removes at least one waiting entry, even when 64-bit times wrap, because some entry is available and the added time lands exactly on its end |
| Scheduler.RunIsLinear | lib/Analysis/QoalaHost/QubitLifetime.cpp:405-439 | Every entry is scheduled exactly once, after all it depends on, in at most one iteration per entry |
| Scheduler.StepKeeps | lib/Analysis/QoalaHost/QubitLifetime.cpp:333-363 | An iteration keeps names and map keys in agreement and the log a linear extension: the host's choice stays available after the quantum side is served |
| Scheduler.RunLogsListed | lib/Analysis/QoalaHost/QubitLifetime.cpp:405-439 | What is logged for a resource comes from the list of that resource |
| Scheduler.SomeAvailable | lib/Analysis/QoalaHost/QubitLifetime.cpp:268-281 | Without dependency cycles some waiting entry is available |
| Scheduler.FindNextAvailableTask | lib/Analysis/QoalaHost/QubitLifetime.cpp:286-296 | The first available entry of the list, or none when there is none |
| Scheduler.LifetimeIsMeasured | lib/Analysis/QoalaHost/QubitLifetime.cpp:304-328 | A qubit initialised once and measured later has as lifetime the time from the end of the first to the end of the second |
| SchedulerClock.StepTrusted | lib/Analysis/QoalaHost/QubitLifetime.cpp:333-399 | An iteration keeps an invariant (clocks not ahead, tasks logged in time, and the next task of each resource startable when its clock stopped) exactly when no timed entry is displaced after time has passed on it |
| SchedulerClock.CalmIsTrusted | lib/Analysis/QoalaHost/QubitLifetime.cpp:405-439 | A run keeps that invariant throughout exactly when none of its iterations displaces a timed entry; this is enough for the global clock never to decrease |
| SchedulerClock.CalmRunKeepsTime | lib/Analysis/QoalaHost/QubitLifetime.cpp:405-439 | Without displacement and with times that sum to a 64-bit value: the clock never decreases, nothing starts before its dependencies end, and entries of one resource never overlap |
| SchedulerClock.ChainedIsCalm | lib/Analysis/QoalaHost/QubitLifetime.cpp:405-439 | When each entry of a list depends on the one listed before it, no run displaces anything |
| SchedulerClock.DisplacedClockRunsBack | lib/Analysis/QoalaHost/QubitLifetime.cpp:372-430 | A run in which a newly released entry displaces a timed one: the global clock falls from 5 to 1 and the entry starts before its dependency ends |
| SchedulerClock.ReadyWhenKept | lib/Analysis/QoalaHost/QubitLifetime.cpp:333-363 | Whatever is next instead of a timed entry waited for what has just been scheduled, and for nothing else; the invariant then fails unless no time had passed |
| SchedulerTiming.AdvanceRises | lib/Analysis/QoalaHost/QubitLifetime.cpp:372-399 | An iteration does not lower the global clock exactly when none is chosen or some chosen entry has not run past its time, so that the subtraction that computes what is missing of it does not wrap |
| SchedulerTiming.RisingExactly | lib/Analysis/QoalaHost/QubitLifetime.cpp:405-439 | On a run the global clock never decreases exactly when that holds in every iteration; then entries of one resource never overlap, whatever is displaced |
| SchedulerTiming.PunctualExactly | lib/Analysis/QoalaHost/QubitLifetime.cpp:405-439 | On such a run every entry starts after its dependencies end exactly when in no iteration an entry fires that was released after the clock of its resource and less than its time before |
| SchedulerTiming.KeepsTimeExactly | lib/Analysis/QoalaHost/QubitLifetime.cpp:405-439 | For lists and dependencies that agree and times that sum to a 64-bit value: both conditions of the two rows above are exact for the rising clock and for the whole timeline (dependencies and resources) |
| Peephole.RewritingKeepsMeaning | lib/Analysis/QNet/PeepholeOptimizations.cpp:22-107 | After every run of Hermitian cancellation, rotation folding, normalisation and zero elimination, in any order and at any place, the last circuit means what the first did in every lawful interpretation, provided that a controlled full turn changes nothing in it or that no controlled rotation is normalised on the run |
| Peephole.RewritingEnds | lib/Analysis/QNet/PeepholeOptimizations.cpp:649-678 | Every run from a circuit without exponent 30 ends within n(n+1)/2 plus the number of uncanonical rotations |
| Peephole.EndlessExactly | lib/Analysis/QNet/PeepholeOptimizations.cpp:649-678 | There are runs of any length exactly when a run reaches a rotation with exponent 30 and an angle above zero and up to half a turn |
| Peephole.SpinsForever | lib/Analysis/QNet/PeepholeOptimizations.cpp:649-678 | From any circuit with such a rotation there are runs of any length: normalising it again and again |
| Peephole.SpinningWhich | lib/Analysis/QNet/PeepholeOptimizations.cpp:660-667 | These are the numerators from 1 to 2^30 at exponent 30, and those less a full turn |
| Peephole.KeptExactly | lib/Analysis/QNet/PeepholeOptimizations.cpp:680-709 | All rewrites of all circuits keep the meaning in a lawful interpretation exactly when a controlled full turn changes nothing in it |
| Peephole.ControlledTurnIsLost | lib/Analysis/QNet/PeepholeOptimizations.cpp:680-709 | A lawful interpretation in which a controlled full turn means something, and a run that drops it |
| Peephole.RewriteKeepsMeaning | lib/Analysis/QNet/PeepholeOptimizations.cpp:561-595 | One rewrite by any rule keeps the meaning under every interpretation in which gates on other wires commute, Hermitian gates undo themselves, and rotations add and repeat after a full turn; to normalise a controlled rotation, controlled ones must repeat too |
| Peephole.RewriteShrinks | lib/Analysis/QNet/PeepholeOptimizations.cpp:646-678 | Every rule keeps circuits valid, and lowers the lexicographic measure of gates and uncanonical rotations in circuits without a rotation that never comes to rest |
| Peephole.CancelKeepsMeaning | lib/Analysis/QNet/PeepholeOptimizations.cpp:22-107 | A Hermitian gate that takes exactly the results of an equal gate cancels with it, across gates on other wires |
| Peephole.CancelExactly | lib/Analysis/QNet/PeepholeOptimizations.cpp:25-106 | Hermitian cancellation succeeds exactly when an equal Hermitian gate stands earlier and no gate between touches its wires, however many stand between, and then removes both |
| Peephole.FoldExactly | lib/Analysis/QNet/PeepholeOptimizations.cpp:561-639 | Folding succeeds exactly when a rotation of the same axis and wires stands earlier, no gate between touches these wires, and the angles add up in 32 bits over the larger denominator; the sum then stands at the second place |
| Peephole.NormalizeExactly | lib/Analysis/QNet/PeepholeOptimizations.cpp:649-711 | Normalisation succeeds exactly on exponents from 0 to 30 with a numerator outside the turn around zero, or at exponent 30 above zero |
| Peephole.FoldKeepsMeaning | lib/Analysis/QNet/PeepholeOptimizations.cpp:561-639 | Two rotations of one axis whose wires meet fold into one at the second place; the controlled rotation needs its control wired through |
| Peephole.CombinedIsSum | lib/Analysis/QNet/PeepholeOptimizations.cpp:398-422 | The combined angle is exactly n1/2^d1 + n2/2^d2 and fits 32 bits; refusal means a negative exponent, exponents 31 apart, or a sum that 32 bits cannot hold at the larger denominator |
| Peephole.NormalizeKeepsMeaning | lib/Analysis/QNet/PeepholeOptimizations.cpp:646-678 | A normalised rotation means the same, a controlled one if a controlled full turn changes nothing |
| Peephole.NormalIsCongruent | lib/Analysis/QNet/PeepholeOptimizations.cpp:657-667 | The normal form differs by full turns, lies in (-2^d, 2^d], and a numerator is left alone exactly when it lies there |
| Peephole.NormalFits | lib/Analysis/QNet/PeepholeOptimizations.cpp:653-666 | For exponents up to 29 no step of the normalisation leaves 32 bits, and it gives the normal form |
| Peephole.ReducedExactly | lib/Analysis/QNet/PeepholeOptimizations.cpp:649-667 | In wrapping 32-bit arithmetic the result always differs by full turns, and it is the normal form exactly unless the exponent is 30 and the numerator lies between 1 and 2^30, where it was normal already |
| Peephole.EliminateKeepsMeaning | lib/Analysis/QNet/PeepholeOptimizations.cpp:718-730 | A rotation by zero can be dropped |
| Peephole.MergePair | lib/Analysis/QNet/PeepholeOptimizations.cpp:93-103 | Two gates with nothing on their wires between them act as one piece at the second place |
| PeepholeRewriter.Rewriter.MatchCancelHermitianPair | lib/Analysis/QNet/PeepholeOptimizations.cpp:25-106 | In place, succeeds exactly when an equal Hermitian gate stands earlier with no gate on its wires between, and then erases both |
| PeepholeRewriter.Rewriter.MatchFoldIntRotationPair | lib/Analysis/QNet/PeepholeOptimizations.cpp:564-639 | In place, succeeds exactly when a rotation of the same axis and wires stands earlier with no gate on them between and the angles add up in 32 bits, and then keeps one rotation by the sum at the second place |
| PeepholeRewriter.Rewriter.MatchNormalizeIntRotation | lib/Analysis/QNet/PeepholeOptimizations.cpp:649-711 | In place, succeeds exactly when the exponent is between 0 and 30 and the reduced numerator differs, and then replaces it; for single and controlled rotations |
| PeepholeRewriter.Rewriter.MatchEliminateZeroIntRotation | lib/Analysis/QNet/PeepholeOptimizations.cpp:718-745 | In place, succeeds exactly on a rotation by zero, and then drops it |
| PeepholeRewriter.Rewriter.MatchAny | lib/Analysis/QNet/PeepholeOptimizations.cpp:22-107 | A success of any pattern at a place is one rewrite; without a success nothing changes, no equal Hermitian gate or rotation that adds up adjoins, and a rotation is not zero and lies in its turn |
| PeepholeRewriter.Rewriter.FindDefiningOp | lib/Analysis/QNet/PeepholeOptimizations.cpp:42-46 | Walking back finds the last earlier gate that touches the wire |
| Lowering.EveryStep | lib/Conversion/QoalaHIRToQoalaMIR/QoalaHIRToQoalaMIRPatterns.cpp:60-247 | On a linear program, after any number of operations: the lowered operations so far compute the same world and outcomes, and every qubit value made and not yet used is the content of its cell |
| Lowering.LoweringSimulates | lib/Conversion/QoalaHIRToQoalaMIR/QoalaHIRToQoalaMIRPatterns.cpp:60-247 | The same from any related state, so also for programs with qubit arguments |
| Lowering.OpSimulates | lib/Conversion/QoalaHIRToQoalaMIR/QoalaHIRToQoalaMIRPatterns.cpp:102-247 | Each operation is simulated by its lowered form: gates change the cells of their operands, which then stand for their results |
| Lowering.LiveEndIsUnused | lib/Conversion/QoalaHIRToQoalaMIR/QoalaHIRToQoalaMIRPatterns.cpp:60-247 | The values that are live at the end are those given or made and never used |
| Lowering.LowerProgram | lib/Conversion/QoalaHIRToQoalaMIR/QoalaHIRToQoalaMIRPatterns.cpp:60-247 | The pass over the operations gives the specified lowered program and mapping |
| Lowering.CheckLinear | lib/Analysis/QNet/CheckLinear.cpp:19-47 | Accepts exactly when every result of an operation that is neither classical, a Pauli gate nor an integer rotation has at most one use |
| Lowering.CheckedIsLinear | lib/Analysis/QNet/CheckLinear.cpp:19-47 | An accepted program is linear exactly when the results of the operations the check overlooks (Pauli gates and integer rotations) are used at most once |
| Lowering.OverlookedPasses | lib/Analysis/QNet/CheckLinear.cpp:19-22 | A well-formed program that is accepted and not linear |
| Lowering.ReuseReadsSuccessor | lib/Conversion/QoalaHIRToQoalaMIR/QoalaHIRToQoalaMIRPatterns.cpp:183-196 | In any simulation state, once a gate has turned a value, measuring the old value again reads the old content on values and the new content on cells |
| Angle.TransformDouble | lib/Conversion/Helpers/AngleTransformHelper.cpp:64-162 | For every angle a >= 0 whose starting numerator fits 32 bits, and any pi above 3: the search ends with n and e < 32 such that n*pi/2^e is within 0.000001 of a or at least as close as every pair with a numerator below 200 whose multiple of pi is not below a and an exponent up to 30, where n is below 200 or the first numerator not below a; and for pi below 4 it is within a/100 or 0.000001 |
| Angle.FoundIsClose | lib/Conversion/Helpers/AngleTransformHelper.cpp:96-162 | An almost perfect pair, or the closest pair of the whole grid of numerators below 200 and exponents up to 30, is within one percent or a millionth |
| Angle.FoundIsClosest | lib/Conversion/Helpers/AngleTransformHelper.cpp:96-162 | What the search finds is within a millionth, or no pair of the grid is closer |
| Angle.CrossingIsClosest | lib/Conversion/Helpers/AngleTransformHelper.cpp:126-151 | At the exponent where the contour is crossed, one of the two neighbouring pairs is closest among all exponents |
| Angle.NextNumerator | lib/Conversion/Helpers/AngleTransformHelper.cpp:119-158 | After one more numerator the best pair is closest over all numerators so far, and the next numerator can start from the exponent reached |
| Angle.Cross | lib/Conversion/Helpers/AngleTransformHelper.cpp:126-134 | The exponents tried lie above the angle until one does not; the negative 1 << 31 always stops the loop |
| Angle.GridIsFine | lib/Conversion/Helpers/AngleTransformHelper.cpp:119-158 | Between the two bounds some pair of the grid is within one percent, with a numerator the search reaches |
| FunctionizeMeaning.OutlinedKeepsMeaning | lib/Analysis/QMem/Functionize.cpp:218-261 | One group: when its results are used only after its last operation and its operations commute with those that stay between them, the rewritten body ends in the same world, every operation outside the group has the same results, and the call has at each index the result it replaces |
| FunctionizeModule.FunctionizeModule | lib/Analysis/QMem/Functionize.cpp:218-261 | The loop over all groups: if in the given body the results of every group are used only after its last operation and its operations can be exchanged with what stays between them, the last body has the calls in place of all groups, ends in the same world, all other operations have the same results, and every call holds results of its group |
| FunctionizeModule.CanStillOutline | lib/Analysis/QMem/Functionize.cpp:218-261 | Outlining one group leaves the conditions of every other group intact, although calls and renamed values now stand between its operations |
| FunctionizeModule.ExchangesCall | lib/Analysis/QMem/Functionize.cpp:237-247 | What can be exchanged with every operation of a function can be exchanged with a call to it |
| FunctionizeModule.RunIsOrdered | lib/Analysis/QMem/Functionize.cpp:218-223 | In a body that runs, the group's operations only take results of earlier ones of the group |
| FunctionizeMeaning.InvokeIsGroup | lib/Analysis/QMem/Functionize.cpp:121-202 | The new function, called with the collected arguments, yields at each index the result returned there, and leaves the world as the group does |
| FunctionizeMeaning.FunctionizeGroup | lib/Analysis/QMem/Functionize.cpp:218-261 | Building the function, inserting the call after the last operation, replacing uses in any order and erasing in reverse order gives the specified body |
| FunctionizeMeaning.OutlinedParts | lib/Analysis/QMem/Functionize.cpp:237-260 | The rewritten body is what stays before the call, the call with unchanged arguments, and the renamed rest |
| FunctionizeMeaning.RestBeside | lib/Analysis/QMem/Functionize.cpp:250-253 | After the call the rest of the body computes the same on the call's results |
| Functionize.ComputeArgTypesAndReturns | lib/Analysis/QMem/Functionize.cpp:28-87 | The arguments are the external operands, each once and with its position; the results are, each once, those no operation uses or one outside the group uses |
| Functionize.ReturnedOnce | lib/Analysis/QMem/Functionize.cpp:57-80 | Every such result is returned exactly once |
| Functionize.CreateNewFunction | lib/Analysis/QMem/Functionize.cpp:121-202 | Every clone works on what stands for the original operands, and what is returned at an index is the clone of the result mapped to that index |
| Outlining.Gather | lib/Analysis/QMem/Functionize.cpp:235-239 | Running a body is running what stays first and the group after it, under the two conditions |
| Outlining.SwapNeighbours | lib/Analysis/QMem/Functionize.cpp:235-239 | Two operations that commute and do not use each other can be exchanged |
| Grouper.FunctionizeOpClassifier | lib/Analysis/QMem/PerQubitOpClassifier.cpp:290-388 | The groups hold exactly the definitions and gates in program order, each group is an allocation with its definition or a gate followed by gates on the same qubits, without a receive or change of block inside and at most max(maxOps, 2) long, and two neighbouring groups are separate only for a reason |
| Grouper.EachInOneGroup | lib/Analysis/QMem/PerQubitOpClassifier.cpp:290-388 | Each definition and gate is in exactly one group, and nothing else but allocations is in any |
| Grouper.AllocationsOnce | lib/Analysis/QMem/PerQubitOpClassifier.cpp:143-151 | No allocation is in two groups |
| Grouper.DefinitionJoined | lib/Analysis/QMem/PerQubitOpClassifier.cpp:143-151 | A definition stands right after its own allocation at the start of its group |
| Grouper.BelowIsProgress | lib/Analysis/QMem/PerQubitOpClassifier.cpp:322-384 | After any number of operations the groups so far are well formed and the active one is open for a reason |
| Grouper.JoinStep | lib/Analysis/QMem/PerQubitOpClassifier.cpp:153-164 | A gate on the qubits of an open group that is not full extends it |
| Grouper.PerQubitGrouper.AddOperationToGroup | lib/Analysis/QMem/PerQubitOpClassifier.cpp:153-164 | The operation extends the active group of the same qubits unless it is full, and otherwise begins a new one after the old one is closed |
| Grouper.PerQubitGrouper.GetGroupForQubits | lib/Analysis/QMem/PerQubitOpClassifier.cpp:181-201 | The active group stays exactly when it has the name of the qubits |
| Grouper.PerQubitGrouper.GroupDefinitionWithQAlloc | lib/Analysis/QMem/PerQubitOpClassifier.cpp:131-174 | A definition closes the active group and begins one with its allocation, under a number no group had |
| Grouper.PerQubitGrouper.CommitCurrentGroup | lib/Analysis/QMem/PerQubitOpClassifier.cpp:203-213 | A nonempty active group is appended, an empty one is dropped |
| Grouper.PerQubitGrouper.constructor | lib/Analysis/QMem/PerQubitOpClassifier.cpp:58-59 | A new grouper has no groups and knows no qubits |
| QubitSlots.PredictionMatchesAllocator | lib/Analysis/QoalaHost/QMemoryEfficiency.cpp:34-52 | The predicted number of physical qubits is the number of different qubits the allocator hands out, which are the numbers below it |
| QubitSlots.CountIsPeak | lib/Analysis/QoalaHost/QMemoryEfficiency.cpp:34-52 | For every trace that measures held qubits: the predicted number is the peak number held at once, and the other counters are the peak minus the held ones and the allocations |
| QubitSlots.AllocatorIsCompact | lib/Target/iQoala/iQoalaContext.cpp:48-58 | Up to a peak of sixteen the qubits handed out are exactly the numbers below the peak |
| QubitSlots.RunsOutAbovePeak | lib/Target/iQoala/iQoalaContext.cpp:48-56 | The allocator returns 0xFF exactly when more than sixteen qubits are held at once |
| QubitSlots.LiveNeverShare | lib/Target/iQoala/iQoalaContext.cpp:48-58 | Whatever the trace, two live allocations never share a qubit |
| QubitSlots.PeakIsReached | lib/Analysis/QoalaHost/QMemoryEfficiency.cpp:34-52 | The peak is the largest held count over all prefixes |
| QubitSlots.AssignQubits | lib/Target/iQoala/iQoalaContext.cpp:48-58 | Driving the allocator by a trace hands out the specified qubits |
| QubitSlots.ProcessCalleeQMemOps | lib/Analysis/QoalaHost/QMemoryEfficiency.cpp:34-52 | The counters go on from one routine to the next as if on one trace |
| QubitSlots.QubitContext.AllocateQubit | lib/Target/iQoala/iQoalaContext.cpp:48-56 | Takes the lowest of sixteen qubits that is free, or returns 0xFF and takes none when all sixteen are taken |
| QubitSlots.QubitContext.ReleaseQubit | lib/Target/iQoala/iQoalaContext.cpp:58 | Frees exactly the given qubit |
| QubitSlots.QubitContext.constructor | lib/Target/iQoala/iQoalaContext.cpp:42-46 | All sixteen qubits are free at first |
| DeadCode.Liveness | lib/Analysis/QNet/DeadCodeElimination.cpp:176-206 | The worklist ends with exactly the measurements, all that a measurement depends on, and the entanglement requests |
| DeadCode.RunOnOperation | lib/Analysis/QNet/DeadCodeElimination.cpp:208-238 | No erased operation has a user left, so the pass succeeds with exactly the survivors and no operand missing, exactly when no operation that stays and feeds no measurement uses a gate that feeds none; bodies in which only gates and measurements take qubits always succeed |
| DeadCode.SafeIsNoDangling | lib/Analysis/QNet/DeadCodeElimination.cpp:208-238 | What stays has no erased operand exactly under that condition |
| DeadCode.MeasurementsKeepTrees | lib/Analysis/QNet/DeadCodeElimination.cpp:194-206 | Every measurement keeps its whole def-use tree |
| DeadCode.RotatedIsUnsafe | lib/Analysis/QNet/DeadCodeElimination.cpp:27-29 | A new qubit that only an integer rotation takes: the rotation stays and its operand is erased |

## Left out

- Once built, the blocks of the scheduling model are values: they are only read from then on. Names of blocks, routines and operations are numbers, so the sorting of names inside a record is not modelled.
- A routine called by two blocks orders neither of them against the other: the code compares positions of routines strictly, and the model does the same.
- Precedences.PropagateAtMerges: the code keeps a reference into a hash map while it inserts into the map; the model reads the current dependencies of the block.
- The dialect check of the operations in a region and the rules for remote ids are not modelled.
- Durations of operations, the inlining of callees into a block and the pairing of qubit uses are inputs of the scheduling model.
- Blocks with equal start times are sorted stably; every theorem about the sorted order allows any order of ties.
- The solver, its objectives and tie-breaks, and its floating-point values: any integer assignment that satisfies the constraints stands for it.
- Grouping entanglement requests, in the splice and in the grouper, is off.
- MilpDeadlineConstraints.BuildDeadlineModel: takes the horizon as a parameter that MilpDeadlines.ProgramHorizon computes.
- MilpSerial.OrderModelIsFeasible: asks for a total duration of at least the number of blocks, because the exclusion constraints want one unit between blocks that compete.
- SchedulerTiming.KeepsTimeExactly: bounds the summed times by 64 bits; the order results need no bound.
- The creation of entries and their dependencies from blocks is not modelled: the simulation takes lists and a map that agree, with unique names and no cycle.
- Peephole.ReducedExactly: signed 32-bit arithmetic wraps in the model; where the code overflows at exponent 30 its own language leaves the result open.
- Peephole.RewritingKeepsMeaning: the iteration limit of the rewrite driver is left out. Float rotations, Pauli-to-rotation and the run-time fold path are left out. Gates act on wires: a value's single use holds by linearity.
- Lowering.EveryStep: straight-line programs; the rewriting of structured conditionals and the conversion driver are left out.
- Angle.TransformDouble: exact reals instead of doubles.
- FunctionizeModule.FunctionizeModule: straight-line bodies, and groups given as sets of operations; argument and result types, attributes and function names are left out.
- Grouper.PerQubitGrouper.GetGroupForQubits: the name of a group is the list of its qubit numbers rather than its printed form.
- QubitSlots.CountIsPeak: one trace; the worst case over branches and the visiting order of blocks are left out, and so are register allocators.
- DeadCode.RunOnOperation: default mode on bodies without regions; classical awareness and the warning for removed qubits are left out.
- Dialect registration, parsers and printers, instruction builders, text emission, command-line tools and the ported rewrite driver have no deep invariant of their own.
