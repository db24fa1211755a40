# XSB engine verification

A Dafny model of the hard parts of the XSB Prolog engine (`XSB/emu`), with proofs of what
they are for. `dafny verify dfyconfig.toml` checks the whole project.

C structures that the engine changes in place are classes with the same fields; pointers are
numbers (of nodes, clauses, registers, frames) into maps, sequences or arrays held in those
fields. Loops stay loops. The engine's errors, aborts and overflows are outcomes of the
methods. Two kinds of ghost parameter recur: the abstract value a linked structure stands for
(the sequence of a chain, the layout of an index), and, in predicates that carry much, a guard
`Open(k)` from the module `Hiding`, which keeps a definition folded until a proof asks for it.

## The parts

- **Incremental tabling: components.** `IncrSccs` runs the Tarjan-style pass over the listed
  subgoals; `SccState` proves what every step of it keeps. The pass never pops a node without
  out-edges, which therefore is swallowed by the next component closed below it on the stack.
  The numbering is right for all nodes with out-edges, and it is the whole partition exactly
  when every sink is listed before all that reach it.
- **Incremental tabling: changes.** `ChangePropagation` marks what a changed node affects by
  counting supporting edges, walking with an explicit stack, and withdraws changes by counting
  down. Withdrawal is exact precisely when no invalidated source reaches a cycle.
  `LazyUpdates` lists the calls to recompute before a call is used, dependencies first exactly
  when none of them depends on itself, and says at which call the search gives up. `CallEdges` keeps both directions of the edges, the
  counts and the global counters together.
- **Clause compiler.** `RegAlloc` (free list inside the register array), `InstQueue` (circular
  deque), `HeadCode` (the equations that get, uni, put and bld instructions leave between the
  values registers and cells have once all variables are bound, and where each of them may
  stand), `HeadCompiler` (compilation of
  terms, read in a head or built for a body), `ParallelMoves` (loading argument registers when
  sources and targets overlap) and `ClauseCompiler` (a whole clause: the code applies exactly
  when the head matches, and exactly when it calls the body with the right arguments). `CInts`
  has the conversion to a C `int`.
- **Clause store.** `Chains` (doubly linked chains whose instruction tells the position),
  `Blocks` (index blocks with hash buckets), `ClauseIndex` (asserta, assertz, retract, lookup,
  and agreement with a plain clause list over any history), `SafeRetract` (retracting while
  choice points are about: which clauses fail, and which are unlinked at once).
- **Concurrent completion.** `ThreadDeps` (the dependency fixpoint), `Completion` (the
  protocol run by any number of threads under one mutex, over any interleaving), `LeaderTest`
  (a run that shows why leaders are compared), `WaitFor` (wait-for pointers, cycle detection,
  re-pointing interleaved with other threads' waits, and exactly when that is safe).
- **Linked-structure surgery.** `Suspensions` (filtering and splicing suspended frames),
  `TrailTidying` (removing unconditional frames from the trail at a cut).
- **Terms.** `ExcessVars` (free variables by binding and undoing), `Printer` (canonical term
  text) and `PrinterReader` (a reader for that text, and which terms share a text).

Where code and comments differ, the code is modelled. The comment above `db_genmvs` promises
moves for any overlap of registers; its two scans stop at the end of the buffer, so once the
queue has wrapped they see nothing. `ParallelMoves.GenMvs` is right exactly if the queue is in
time: always up to 123 items, and `ClauseCompiler.ShiftClause` has the clause
`p(A1,...,A123) :- q([],A1,...,A123)` pass a wrong argument. `db_geninst` holds an integer at the
front of a list in a C `int` when it builds for the body, though not when it matches the head
(XSB/emu/biassert.c:948,959); so `p :- q([1,4294967301])` passes `[1,5]`
(`ClauseCompiler.CutClause`). `ClauseCompiler.CompileClause` is right exactly if neither
happens. A comment in `conc_compl.c` asks whether comparing leaders is necessary;
`LeaderTest.LeaderTestNeeded` answers, with a run of the protocol, that it is. The loop in
`is_incomplete` lets a thread that still waits find a cycle (XSB/emu/bineg_xsb_i.h:141-158);
`WaitFor.LeadsSafelyIff` shows that it can then be led into a cycle itself.

## Model

The main results come first, then what they rest on, part by part.

| member | source | states |
|---|---|---|
| IncrSccs.GetIncrSccs | XSB/emu/call_graph_xsb.c:1358-1432 | nodes with out-edges share a number iff mutually reachable, and are numbered after all components with out-edges that they call; a sink listed before all that reach it is alone; any other sink shares the number of a node that reaches it |
| IncrSccs.PartitionIffSinksFirst | XSB/emu/call_graph_xsb.c:1468-1476 | the numbering is the full partition, sinks included, iff every sink is listed before all other nodes reaching it |
| ChangePropagation.ChangeAndWithdraw | XSB/emu/call_graph_xsb.c:459-479 | after invalidating some nodes and withdrawing some of these, a call is marked iff a change that stands reaches it or a cycle some change reached holds it; without such cycles iff a standing change reaches it |
| ChangePropagation.WithdrawalExactIffNoCycleReached | XSB/emu/call_graph_xsb.c:459-479 | withdrawal is exact for every choice of standing sources iff no invalidated source reaches a cycle |
| LazyUpdates.Schedule | XSB/emu/call_graph_xsb.c:847-894 | succeeds iff everything reached can be updated; the list is then the reached tabled calls, each once, and dependencies come first iff none of these calls depends on itself; otherwise it throws for an incomplete table and gives way to readers, whichever comes first among the ways to calls that cannot be updated, in the order of the dependency lists |
| CallEdges.CallGraph.RemoveCall | XSB/emu/tr_utils.c:4755-4757 | the three deletions in this order remove exactly the edges at the call, a loop included, and keep everything in agreement |
| ClauseCompiler.CompileClause | XSB/emu/biassert.c:765-782 | unless an overflow is thrown, the code decides whether the clause applies; whenever it applies, the argument registers end with the body's arguments under the matching substitution, iff the loads are in time, a condition on head and body that holds up to 123 arguments, and no integer is changed by the cut to a C int; with loads in time they end with the arguments as cut; small clauses never overflow |
| HeadCompiler.CompileHead | XSB/emu/biassert.c:771-782 | unless an overflow is thrown, the code of a fact is defined on any values of the argument registers and succeeds iff they are an instance of the head, and then the matching substitutions are those that agree with the final registers; small heads never overflow |
| ParallelMoves.GenMvs | XSB/emu/biassert.c:1060-1103 | terminates for every overlap; registers run out iff saving takes more than are left; otherwise every target ends with its constant, its new variable or the initial value of its source, whatever the registers hold, iff the items are in time, a condition on the queue alone; if not, some move's value is lost for good |
| ParallelMoves.InTimeIff | XSB/emu/biassert.c:1034-1046 | in time: fewer than 246 items, and together with those put off in the first pass no more than 246; or more items, and none of the first 245 blocked: exactly then the scans see every source in time |
| ClauseIndex.Replay | XSB/emu/biassert.c:1758-1787 | after any history of asserta, assertz and retract the store holds exactly the plain list of that history, with each clause's argument, and every lookup agrees with it |
| ClauseIndex.VisitAgrees | XSB/emu/biassert.c:1793-1955 | a lookup is an order-preserving subsequence of the clause list and misses no clause whose argument is a variable or equals the goal's |
| SafeRetract.RetractClause | XSB/emu/biassert.c:2985-3019 | the clause leaves the list of clauses a call can still use, and no other does; it is unlinked at once iff memory may be given back and every choice point is harmless to it, and then every choice point survives, whichever chain it is on; otherwise it stays linked, failing, and nothing else changes |
| Completion.RunAll | XSB/emu/complete_xsb_i.h:61-118 | over any interleaving of any threads, every step is as its event says, and every completion is of a group closed under dependency, all of whose other members are blocked with current counts |
| Completion.TestsSuffice | XSB/emu/complete_xsb_i.h:92-103 | the tests made with a list just brought up to date imply that the group is safe |
| LeaderTest.LeaderTestNeeded | XSB/emu/conc_compl.c:226-257 | in every run of eleven given events by two threads the last check finds its list up to date, nobody busy, all counts current and the same threads listed, and yet completing the group would be wrong: only the comparison of leaders prevents it |
| WaitFor.LeadsSafelyIff | XSB/emu/deadlock.c:118-139 | from any sound state, when a thread finds a cycle and collects its chain, all goes well in every continuation iff it waits for nobody itself and no other leader is still to re-point it or a thread of its chain; otherwise some continuation closes a cycle or leads a loop astray |
| WaitFor.RunAll | XSB/emu/bineg_xsb_i.h:141-164 | over any interleaving, up to the first upset, every step is as its event says, no cycle ever closes and no leader's loop goes astray |
| ThreadDeps.UpdateDeps | XSB/emu/conc_compl.c:144-177 | terminates with the least list above the old one closed under the dependencies of blocked threads, fresh counts, busy iff a listed thread works, and the oldest own subgoal depended on |
| Suspensions.Scc.ProcessSuspensionFrames | XSB/emu/complete_local.h:230-288 | one chain ending at breg, every list emptied: a frame is in it iff it is on the list of a subgoal of the stack that is not completed and the call it belongs to is not completed; frames come in the order of their subgoals, leader first, and of their lists; the pointer passed in if there are none |
| TrailTidying.Trail.UnwindTrail | XSB/emu/cut_xsb.h:186-206 | exactly the frames at or below the cut's trail top or the freeze register and those still conditional stay, in descending order, and everything below is untouched |
| ExcessVars.ExcessMeans | XSB/emu/builtin.c:2458-2507 | start list, then every other variable free in the goal and not in the template, once, in first-occurrence order of a scoping defined without any marking |
| PrinterReader.ReadsBackIff | XSB/emu/cinterf.c:1184-1186 | the term itself is read back iff its integers fit a C int and every structure has an argument |
| PrinterReader.SameTextIff | XSB/emu/cinterf.c:1171-1224 | two terms have the same text iff they are read back as the same term |
| SccState.EnterKeeps | XSB/emu/call_graph_xsb.c:1446-1449 | entering a node keeps the pass invariant: stack order, reachability along the stack, sound low links, right components |
| SccState.SinkKeeps | XSB/emu/call_graph_xsb.c:1446-1476 | numbering a node without out-edges and leaving it on the stack keeps the invariant |
| SccState.LowerKeeps | XSB/emu/call_graph_xsb.c:1460-1464 | taking over a smaller low value of a live node that is reached keeps the invariant |
| SccState.RetireKeeps | XSB/emu/call_graph_xsb.c:1466-1475 | a call that can still reach below itself may return and leave its node on the stack |
| SccState.CloseKeeps | XSB/emu/call_graph_xsb.c:1468-1474 | closing a component gives mutual reachability exactly: done nodes with out-edges share a number iff they reach each other |
| SccState.CloseCallees | XSB/emu/call_graph_xsb.c:1468-1474 | closing a component numbers it after all that its members call |
| IncrSccs.SccPass.CloseComponent | XSB/emu/call_graph_xsb.c:1468-1474 | pops down to the root into one component and starts the next number |
| IncrSccs.SccPass.FollowEdges | XSB/emu/call_graph_xsb.c:1452-1466 | the loop ends with every out-edge accounted for |
| IncrSccs.SccPass.ComputeScc | XSB/emu/call_graph_xsb.c:1434-1477 | the recursive procedure terminates on any graph, keeps the invariant, and visits only what the node reaches |
| IncrSccs.SccPass.Run | XSB/emu/call_graph_xsb.c:1421-1427 | the numbers of the whole pass satisfy ComponentsOf and CallersLater |
| IncrSccs.SinkMergedExample | XSB/emu/call_graph_xsb.c:1476 | one call depending on another, listed first: both get one number though not mutually reachable |
| IncrSccs.ListedGraphMeans | XSB/emu/call_graph_xsb.c:1455-1456 | the resolved graph is the call graph among the listed subgoals, except that the first listed one also stands for every out-neighbour that is not listed |
| IncrSccs.UnlistedMerges | XSB/emu/call_graph_xsb.c:1455-1456 | because of that, two listed subgoals that do not call each other can come out as one component |
| ChangePropagation.IncrGraph.InvalidateCall | XSB/emu/call_graph_xsb.c:897-907 | marks exactly what the standing sources span, whether or not the node has in-edges, or aborts iff an incomplete table is newly affected; a marked call is left alone |
| ChangePropagation.IncrGraph.DfsOutedges | XSB/emu/call_graph_xsb.c:633-707 | the walk terminates and counts each edge out of each newly affected node once |
| ChangePropagation.IncrGraph.Walk | XSB/emu/call_graph_xsb.c:656-704 | from any stack the loop ends with the stack empty and all counts in place, or at an incomplete table |
| ChangePropagation.IncrGraph.PropagateNoChange | XSB/emu/call_graph_xsb.c:459-479 | counting down terminates and unmarks only nodes left without support, keeping any self-supporting set |
| ChangePropagation.IncrGraph.WithdrawSource | XSB/emu/call_graph_xsb.c:459-479 | after withdrawing one source the marks are exactly the span of the remaining ones; other sources keep their marks |
| ChangePropagation.InvalidateAll | XSB/emu/call_graph_xsb.c:897-907 | each changed node invalidated in turn: aborts iff one of them reaches a call whose table is incomplete, and otherwise marked is exactly what the changes span |
| ChangePropagation.SupportedIsSpanned | XSB/emu/call_graph_xsb.c:459-479 | a set in which every member is standing or has a predecessor lies within the span, so nothing more can be unmarked |
| ChangePropagation.MarkedIffReached | XSB/emu/call_graph_xsb.c:459-479 | where no source reaches a cycle, a non-source is marked iff a standing source reaches it |
| ChangePropagation.MutualRecursionStaysMarked | XSB/emu/call_graph_xsb.c:459-479 | a fact feeding two mutually recursive calls: withdrawing its change leaves both marked |
| LazyUpdates.Search.DfsInedges | XSB/emu/call_graph_xsb.c:847-894 | lists a call after what it depends on, unless something the root depends on depends on itself; empties the list at the end of the first way to a call that cannot be updated |
| LazyUpdates.Search.FollowInedges | XSB/emu/call_graph_xsb.c:875-888 | follows every affected tabled dependency, once each |
| LazyUpdates.OrderedIsAcyclic | XSB/emu/call_graph_xsb.c:889-893 | a list of all that the root depends on can be dependencies first only if nothing there depends on itself |
| LazyUpdates.RefusedOnce | XSB/emu/call_graph_xsb.c:851-863 | there is one such first way at most, so the outcome is determined |
| LazyUpdates.RefusedThere | XSB/emu/call_graph_xsb.c:875-888 | following dependencies in list order, with calls already searched skipped, meets the first way first |
| CallEdges.CallGraph.AddCallNode | XSB/emu/call_graph_xsb.c:178-202 | a new call without edges keeps tables, lists and counts in agreement |
| CallEdges.CallGraph.AddCallEdge | XSB/emu/call_graph_xsb.c:500-542 | adds the edge to both sides and the counts, or nothing if it is there already; loops included |
| CallEdges.CallGraph.DeleteOutEdges | XSB/emu/call_graph_xsb.c:285-330 | the call is off the lists of all other calls in its table; its own table is left behind |
| CallEdges.CallGraph.DeleteInEdges | XSB/emu/call_graph_xsb.c:239-275 | the call is out of the tables of all other calls on its list, with their counts and the global counter |
| CallEdges.CallGraph.DeleteCallNode | XSB/emu/call_graph_xsb.c:371-384 | drops the call, or aborts iff its out-count is not zero |
| CallEdges.NewEdge | XSB/emu/call_graph_xsb.c:500-542 | duality, counts and both global counters survive the addition |
| CallEdges.CallRemoved | XSB/emu/tr_utils.c:4755-4757 | from the two deletions' effects: agreement of tables, lists, counts and counters without the call |
| RegAlloc.RegStat.Get | XSB/emu/biassert.c:609-625 | hands out a register not in use; throws iff there is none |
| RegAlloc.RegStat.Release | XSB/emu/biassert.c:627-634 | frees introduced registers only; all others stay in use |
| InstQueues.InstQueue.Push | XSB/emu/biassert.c:528-537 | appends at the top, overflow iff 255 items are queued |
| InstQueues.InstQueue.Pop | XSB/emu/biassert.c:539-547 | removes the last item, around the end of the buffer |
| InstQueues.InstQueue.Rem | XSB/emu/biassert.c:549-556 | removes the first item, around the end of the buffer |
| InstQueues.InstQueue.Add | XSB/emu/biassert.c:558-569 | prepends and counts the addition, overflow iff 255 items are queued |
| InstQueues.InstQueue.Rotate | XSB/emu/biassert.c:571-578 | moves the counted additions from the front to the end and cannot overflow |
| HeadCode.PayOne | XSB/emu/emudef.h:139-307 | appending an instruction that pays one debt turns code right for that debt into code right for the rest, whatever values registers and built terms have in the end; right code never reads where nothing is, nor trusts the read or write flag where nobody set it, nor writes where a term may have to be read |
| HeadCode.PayGetConstant | XSB/emu/emudef.h:139-210 | getcon, getnumcon, getnil succeed iff the register holds that constant |
| HeadCode.PayGetTVal | XSB/emu/emuloop.c:603-610 | gettval succeeds iff both registers hold the same ground term |
| HeadCode.PayFreezeArgument | XSB/emu/biassert.c:809-811 | a variable first met as an argument needs no code: its register is the argument's |
| HeadCode.PayGetList | XSB/emu/emudef.h:290-307 | getlist succeeds iff the register holds a list cell and owes its two parts; from a fresh variable they have to be written |
| HeadCode.PayGetStr | XSB/emu/emudef.h:253-288 | getstr succeeds iff functor and arity agree and owes the arguments |
| HeadCode.PayGetListTVarTVar | XSB/emu/emuloop.c:1085-1117 | a cell of two new variables is read into two fresh registers by one instruction |
| HeadCode.PayUniConstant | XSB/emu/emuloop.c:783-822 | unicon, uninumcon, uninil when matching and their bld forms when building equate the next cell with the constant |
| HeadCode.PayUniTVal | XSB/emu/emuloop.c:769-782 | unitval when matching and bldtval when building equate the next cell with a variable met before |
| HeadCode.PayUniTVarNew | XSB/emu/emuloop.c:716-728 | unitvar when matching and bldtvar when building bind a variable first met inside a structure to a fresh register |
| HeadCode.PayUniTVarLater | XSB/emu/emuloop.c:716-728 | unitvar and bldtvar put off a compound argument to be matched from a fresh register, or built there: bldtvar leaves a fresh variable in it |
| HeadCode.PayUniTVarGetListUniNumCon | XSB/emu/emuloop.c:729-758 | the one-instruction forms for a list with a small number in front are right for 0 to 65535 |
| HeadCode.PayPut | XSB/emu/emuloop.c:943-996 | puttvar, putlist and putstr begin a term whose eventual value is not known: one more equation, its cells still to be written |
| HeadCompiler.Compiler.GenTopInst | XSB/emu/biassert.c:791-826 | compiling one head argument discharges it, whatever the rest; what it may cost in registers and queue slots is bounded by its size |
| HeadCompiler.Compiler.GenTerms | XSB/emu/biassert.c:829-885 | matching or building, it terminates with the queue empty and everything in it discharged; no variable loses its register |
| HeadCompiler.Compiler.GenTerm | XSB/emu/biassert.c:840-875 | one item popped: its register is given back and its parts are owed or queued |
| HeadCompiler.Compiler.GenInst | XSB/emu/biassert.c:887-970 | one argument inside a structure, matched or built, including the loop that takes small numbers off a last list argument; when building, what is owed is the term with those numbers cut to a C int |
| HeadCompiler.GotList | XSB/emu/biassert.c:854-856 | releasing the register of a list as soon as getlist is emitted is safe |
| HeadCompiler.GotStr | XSB/emu/biassert.c:863-865 | releasing the register of a structure as soon as getstr is emitted is safe |
| HeadCompiler.GotTwoVariables | XSB/emu/biassert.c:845-852 | two fresh registers for the variables, then the list's own is released |
| HeadCompiler.UnifiedVariable | XSB/emu/biassert.c:913-917 | a fresh register, possibly a reused one, may hold a new variable |
| HeadCompiler.UnifiedLater | XSB/emu/biassert.c:946-969 | a fresh register, possibly a reused one, may hold a term to be matched later |
| HeadCompiler.UnifiedSmallInt | XSB/emu/biassert.c:948-954 | the register used in passing holds nothing needed later |
| HeadCompiler.Reordered | XSB/emu/biassert.c:571-578 | rotating the queue leaves the debt the same |
| HeadCompiler.NothingOwed | XSB/emu/biassert.c:772-774 | with nothing owed the code is defined and decides matching, leaves each variable's register right, and the registers of built arguments hold their values |
| HeadCompiler.Compiler.GenBuild | XSB/emu/biassert.c:1021-1027 | a compound argument of the body is built in a register that keeps it, with its integers as cut |
| HeadCompiler.Compiler.GenNewVariable | XSB/emu/biassert.c:982-986 | a variable new in the body gets a register and a fresh cell |
| HeadCompiler.Putting | XSB/emu/biassert.c:853-875 | the first instruction of a built term goes into a register nothing else needs |
| HeadCompiler.GenHead | XSB/emu/biassert.c:772-774 | all arguments of the head, one after the other; what it may cost is bounded by their size |
| HeadCompiler.MadeSameIff | XSB/emu/biassert.c:956-965 | what is built for a term has the term's value, under any substitution, iff no list in last position has an integer in front that is within 0 to 65535 only once it is cut to a C int |
| HeadCompiler.HomesNext | XSB/emu/biassert.c:795-811 | with one head argument more, a variable that first occurs as an argument of its own is kept in that argument's register, and any other in a register of its own |
| HeadCompiler.Compiler.GenParts | XSB/emu/biassert.c:853-872 | the cells of a compound argument of the body are written, with what they put off queued |
| HeadCompiler.CutSafeMeans | XSB/emu/biassert.c:956-965 | of a list in last position the cut changes the integer iff what a C int keeps of it is within 0 to 65535 and the integer is another |
| ClauseCompiler.GenAput | XSB/emu/biassert.c:973-1028 | queues the load of a body argument: its constant, the register of its variable, or the register it was built in, with its integers as cut; none of these is disturbed by later arguments |
| ClauseCompiler.GenBody | XSB/emu/biassert.c:775-779 | all arguments of the body are queued right, and what is needed to build them, integers as cut, is discharged |
| ClauseCompiler.LoadsWellQueued | XSB/emu/biassert.c:973-1028 | the loads of a whole body are of the kind the sequencer asks for: distinct argument registers as targets, registers that are never given back as sources |
| ClauseCompiler.BodyBuildsAlways | XSB/emu/biassert.c:775-779 | building the body decides nothing: the code gets through for some eventual values of what it builds iff the head matches |
| ClauseCompiler.ClauseVerdict | XSB/emu/biassert.c:777-780 | whatever order the loads are emitted in: right code for the loads in time, and code that loses a value when they are not, make the clause right exactly under those two conditions |
| ClauseCompiler.InTimeOfClause | XSB/emu/biassert.c:1034-1046 | whether the queued loads are in time can be told from head and body: only variables that are arguments of both matter |
| ClauseCompiler.LateLoadShows | XSB/emu/biassert.c:1089-1101 | when the loads are not in time there is a call that matches the head and passes some argument wrong |
| ClauseCompiler.CutShows | XSB/emu/biassert.c:956-965 | so is there when a body argument has an integer changed by the cut |
| ClauseCompiler.CutClause | XSB/emu/biassert.c:956-965 | p :- q([1,4294967301]) is compiled, and passes [1,5] |
| ClauseCompiler.ShiftInTimeIff | XSB/emu/biassert.c:1060-1103 | the loads of p(A1,...,An) :- q([],A1,...,An) are in time iff n is at most 122 |
| ClauseCompiler.ShiftClause | XSB/emu/biassert.c:1060-1103 | with n = 123 the clause is compiled, and passes some argument wrong |
| ParallelMoves.TargetIsNotSource | XSB/emu/biassert.c:1030-1039 | the scan is right while the queue has not wrapped and finds nothing once it has |
| ParallelMoves.SourceIsNotTarget | XSB/emu/biassert.c:1041-1049 | the same for targets |
| ParallelMoves.SmallQueuesInTime | XSB/emu/biassert.c:1060-1103 | up to 123 items are always in time |
| ParallelMoves.ChainInTimeIff | XSB/emu/biassert.c:1060-1103 | and no further: a constant for register 1 followed by n moves, each to the next register, is in time iff these are at most 123 items |
| ParallelMoves.ChainLosesValue | XSB/emu/biassert.c:1060-1103 | the code emitted for such a queue of 124 items is wrong for some contents of the registers |
| ParallelMoves.FullQueueLosesValue | XSB/emu/biassert.c:1034-1046 | with 246 items the scans see nothing from the start, and a constant overwrites a source |
| ParallelMoves.EmitGoesAstray | XSB/emu/biassert.c:1089-1101 | emitting an item whose target is still a source loses that source for every later turn, whenever the item loads anything else than the source held |
| ParallelMoves.Treat | XSB/emu/biassert.c:1065-1101 | every turn keeps what the emitted code and the queue say together, right or astray, and makes progress |
| ParallelMoves.LossShows | XSB/emu/biassert.c:1089-1101 | code in which a move is overtaken for good is wrong for some contents of the registers |
| Chains.PrefixToChain | XSB/emu/biassert.c:1470-1490 | adding in front keeps codes, prev and next right for the longer chain |
| Chains.AppendToChain | XSB/emu/biassert.c:1492-1512 | adding at the end keeps codes, prev and next right for the longer chain |
| Chains.DeleteFromChain | XSB/emu/biassert.c:1966-2010 | unlinking keeps codes, prev and next right for the rest and leaves the unlinked clause's own words |
| Chains.DeletedLinks | XSB/emu/biassert.c:1966-2010 | if both neighbours are right after a deletion, the whole chain is |
| Blocks.MembersGrown | XSB/emu/biassert.c:1689-1727 | adding a clause at either end of a block adds it at that end of its bucket only |
| Blocks.MembersDropped | XSB/emu/biassert.c:2014-2029 | removing a clause removes it from its own bucket only |
| Blocks.TableChanged | XSB/emu/biassert.c:1689-1727 | a table is right again once the one bucket that changed is, with its count |
| ClauseIndex.SearchSize | XSB/emu/biassert.c:1560-1572 | the least listed table size that suffices, or the largest |
| ClauseIndex.DynPred.HashResize | XSB/emu/biassert.c:1546-1574 | the larger of the size asked for and the size to follow the block's: its own up to about three quarters filled, else the next listed one, or two more at the largest; without a block the least listed size that is enough |
| ClauseIndex.DynPred.AddToHashChain | XSB/emu/biassert.c:1689-1727 | the table is right for the block with the clause added, non-empty count included |
| ClauseIndex.DynPred.AddToAllChain | XSB/emu/biassert.c:1729-1755 | the block's chain of all clauses, header included |
| ClauseIndex.DynPred.DbAddBuff | XSB/emu/biassert.c:1515-1539 | the predicate's chain of blocks, header included |
| ClauseIndex.DynPred.AddSob | XSB/emu/biassert.c:1660-1687 | a new block with an empty table, linked at the chosen end |
| ClauseIndex.DynPred.Place | XSB/emu/biassert.c:1783-1786 | the whole predicate is right with the clause added to one block |
| ClauseIndex.DynPred.AddClause | XSB/emu/biassert.c:1758-1787 | the clause list with the clause at the chosen end; the block there is used iff its table has the size asked for, 1 for a variable argument, and otherwise one block of that size is added at that end |
| ClauseIndex.DynPred.DeleteFromAllChain | XSB/emu/biassert.c:2033-2056 | the block's chain and header without the clause |
| ClauseIndex.DynPred.DeleteFromHashChain | XSB/emu/biassert.c:2014-2029 | the table is right without the clause, non-empty count included |
| ClauseIndex.DynPred.DeleteFromSobChain | XSB/emu/biassert.c:2062-2090 | the predicate's chain of blocks and its header without the block |
| ClauseIndex.DynPred.Unplace | XSB/emu/biassert.c:2848-2870 | the predicate is right without the clause; all other blocks untouched |
| ClauseIndex.DynPred.DeleteClause | XSB/emu/biassert.c:2832-2897 | the clause is gone, and its block exactly if it was the last in it |
| ClauseIndex.DynPred.FirstClauseSob | XSB/emu/biassert.c:1859-1869 | skips exactly the blocks with nothing to try |
| ClauseIndex.DynPred.FirstClref | XSB/emu/biassert.c:1871-1894 | the first clause of the visiting sequence, or none if it is empty |
| ClauseIndex.DynPred.NextClref | XSB/emu/biassert.c:1896-1955 | the clause to try next, in the same bucket or a later block |
| ClauseIndex.DynPred.Lookup | XSB/emu/biassert.c:1871-1955 | first_clref and then next_clref to the end try exactly the visiting sequence |
| ClauseIndex.ClausesDropped | XSB/emu/biassert.c:2832-2897 | removing from one block removes the clause, and no other, from the clause list |
| ClauseIndex.DynPred.MakeRoom | XSB/emu/biassert.c:1769-1780 | the block at the chosen end if its table has the size, else a new one there |
| ClauseIndex.VisitIff | XSB/emu/biassert.c:1793-1955 | a lookup tries exactly, of each block, the clauses that share the goal's hash value, and all clauses where the table has one bucket or the goal's argument is a variable |
| SafeRetract.MarkCpStack | XSB/emu/biassert.c:2171-2215 | reports a choice point on the clause iff there is one, else marks exactly the clauses choice points will try |
| SafeRetract.DetermineIfSafeToDelete | XSB/emu/biassert.c:2914-2940 | safe iff the clause is unmarked and so is, in each chain it leads, the one after it |
| SafeRetract.ChainSafe | XSB/emu/biassert.c:2104-2122 | the choice point stays on a retry or trust and will try what it would have, minus the removed clause |
| SafeRetract.BreaksIff | XSB/emu/biassert.c:2104-2122 | removal turns a choice point's instruction into a try exactly when the removed clause leads the chain right before it |
| SafeRetract.AllLinkSurvives | XSB/emu/biassert.c:2033-2056 | a choice point on the chain of all clauses, of this block or another |
| SafeRetract.IndLinkSurvives | XSB/emu/biassert.c:2014-2029 | a choice point on a bucket chain, of this block or another |
| SafeRetract.LiveLoses | XSB/emu/biassert.c:2943-2966 | marking a clause to fail has the same effect on the usable clauses as unlinking it |
| ThreadDeps.CheckInsSubg | XSB/emu/conc_compl.c:42-63 | one entry per thread with the oldest subgoal seen; changed iff not covered before; aborts iff a 256th thread would be listed |
| ThreadDeps.InsertedCovers | XSB/emu/conc_compl.c:42-63 | afterwards exactly the old subgoals and those no older than the new one are covered |
| ThreadDeps.PropagateDeps | XSB/emu/conc_compl.c:109-130 | all dependencies of a blocked thread are heeded |
| ThreadDeps.Pass | XSB/emu/conc_compl.c:144-177 | one pass over the list heeds every entry and says whether anything was new |
| ThreadDeps.FixpointUnique | XSB/emu/conc_compl.c:144-177 | the result is determined up to order, leader and busy included |
| ThreadDeps.AbortsOnlyIfTooMany | XSB/emu/conc_compl.c:51-56 | giving up excludes that a closed list of at most 255 threads exists |
| Completion.FindFixpoint | XSB/emu/schedrev_xsb_i.h:169-250 | the first list: every incomplete foreign subgoal from the leader's frame up is covered, and nothing else is on it |
| Completion.MayHaveAnswers | XSB/emu/conc_compl.c:188-213 | true iff some listed thread recorded an answer count that is out of date |
| Completion.SameThreads | XSB/emu/conc_compl.c:227-257 | one listed thread would complete the subgoal depended on and lists the same threads; by ReadyIff this is membership in its section and equality of the thread sets |
| Completion.CheckForSCC | XSB/emu/conc_compl.c:226-257 | true iff this holds of every listed thread |
| Completion.Threads.CompleteOtherThreads | XSB/emu/conc_compl.c:259-274 | does so for every listed thread down to its leader, and no other |
| Completion.Threads.CompleteAll | XSB/emu/complete_xsb_i.h:98-103 | completes a safe group and keeps the protocol invariant |
| Completion.Threads.UpdateList | XSB/emu/complete_xsb_i.h:66-75 | the thread's list is the fixpoint of its dependencies, or no list fits |
| Completion.Threads.CompleteOrWait | XSB/emu/complete_xsb_i.h:92-113 | completes iff the group is ready, stated without the tests; then the group is safe |
| Completion.Threads.CheckComplete | XSB/emu/complete_xsb_i.h:61-118 | one turn under the mutex: each outcome with exactly its condition and its effect on all threads |
| Completion.Threads.Wake | XSB/emu/complete_xsb_i.h:110-117 | a woken thread leaves if it was completed, else takes another turn |
| Completion.Threads.Happen | XSB/emu/complete_xsb_i.h:61-118 | any event has exactly its effect and keeps the protocol invariant |
| Completion.GroupKeeps | XSB/emu/conc_compl.c:259-327 | completing a safe group keeps the invariant for all other threads |
| Completion.NewlyDone | XSB/emu/conc_compl.c:307-327 | what is newly completed is exactly the group's own part of the stacks |
| Completion.WaitKeeps | XSB/emu/complete_xsb_i.h:107-113 | a thread going to wait has listed all it depends on with current counts |
| Completion.ReadyIff | XSB/emu/conc_compl.c:188-257 | with the list up to date the tests pass iff all listed threads are blocked, their counts are current, they list the same threads, and the subgoal depended on is among the frames from the thread's leader up |
| Completion.RecordedTells | XSB/emu/conc_compl.c:160-164 | a count just recorded is up to date iff the thread is blocked |
| LeaderTest.RunExample | XSB/emu/conc_compl.c:226-257 | there is such a run: the one the protocol makes |
| LeaderTest.Turn | XSB/emu/complete_xsb_i.h:61-118 | a turn of a thread that depends on one subgoal completes the group iff the group is ready, else it waits |
| WaitFor.WouldDeadlock | XSB/emu/deadlock.c:22-36 | on acyclic pointers it terminates and says whether they lead from one thread to the other |
| WaitFor.CycleIffReached | XSB/emu/deadlock.c:22-36 | a new pointer closes a cycle iff its target reaches its source |
| WaitFor.SetPointer | XSB/emu/bineg_xsb_i.h:149-157 | the same of the array of wait-for pointers |
| WaitFor.Collect | XSB/emu/deadlock.c:124-129 | the chain from the owner back to the leader is remembered in order and its pointers cleared |
| WaitFor.Repoint | XSB/emu/deadlock.c:132-139 | re-pointing the whole chain without interruption leaves the pointers acyclic |
| WaitFor.OneRepointed | XSB/emu/deadlock.c:133-139 | re-pointing one thread cannot close a cycle, whatever the others did meanwhile |
| WaitFor.WaitGraph.Lead | XSB/emu/deadlock.c:118-129 | the thread that found a cycle collects the chain; all stays right unless it waits itself or another leader has to do with it or its chain |
| WaitFor.WaitGraph.TryWait | XSB/emu/bineg_xsb_i.h:144-158 | refuses to wait exactly when the wait would close a cycle |
| WaitFor.WaitGraph.RepointOne | XSB/emu/deadlock.c:133-139 | one turn of the leader's loop; it ends when the chain is back at the leader, which is when all of it has been re-pointed |
| WaitFor.WaitGraph.Happen | XSB/emu/bineg_xsb_i.h:141-164 | any event has exactly its effect, and keeps everything sound unless it is such an upset |
| WaitFor.WaitingLeaderClosesCycle | XSB/emu/bineg_xsb_i.h:141-164 | a run of five events by three threads in which a thread that still waits collects a chain, and a cycle closes |
| WaitFor.TangledGoesAstray | XSB/emu/deadlock.c:124-139 | if another leader is still to re-point a thread of the chain, that leader's loop goes astray, unless it is to re-point the collecting thread too |
| WaitFor.WaitingClosesCycle | XSB/emu/deadlock.c:118-139 | a thread that still waits and collects a chain can be led into a cycle: the thread at the end of its own pointers comes to wait for the first of its chain |
| WaitFor.PendingClosesCycle | XSB/emu/deadlock.c:118-139 | so can one that another leader is still to re-point |
| WaitFor.SteppedSound | XSB/emu/deadlock.c:118-139 | every other event keeps the pointers acyclic and every leader's loop right, threads between losing their pointer and being re-pointed included |
| Suspensions.Scc.FilterList | XSB/emu/complete_local.h:262-278 | exactly the frames of completed root subgoals are dropped, the order kept |
| Suspensions.Scc.ResumeCSFs | XSB/emu/complete_local.h:192-210 | the list is spliced to the end of the chain, which ends at breg, and the subgoal's list emptied |
| Suspensions.Scc.ProcessPending | XSB/emu/complete_local.h:253-283 | filters, then splices what remains |
| Suspensions.ResumedMeans | XSB/emu/complete_local.h:253-283 | what is resumed, stated on stack, lists and completed subgoals |
| Suspensions.ResumedInOrder | XSB/emu/complete_local.h:240-283 | and in which order |
| TrailTidying.Trail.PushTrail | XSB/emu/binding.h:72-92 | a new frame above both the trail top and the frozen part |
| TrailTidying.Trail.ConditionalMeans | XSB/emu/binding.h:120-121 | a binding is conditional iff its cell is older than the choice point or in the frozen part, of the heap or of the local stack |
| TrailTidying.Trail.TidiedMeans | XSB/emu/cut_xsb.h:186-206 | which frames stay, frame by frame |
| ExcessVars.Collector.UndoVars | XSB/emu/builtin.c:841-845 | undoes every binding of the answers' trail |
| ExcessVars.Collector.MakeGround | XSB/emu/builtin.c:943-974 | binds exactly the free variables of a term |
| ExcessVars.Collector.ReadStart | XSB/emu/builtin.c:2472-2495 | succeeds iff the start list is a proper list of distinct variables, and reads its longest such prefix |
| ExcessVars.Collector.Collect | XSB/emu/builtin.c:976-1030 | adds the variables free in a term once each, in order of first free occurrence |
| ExcessVars.Collector.CollectScoped | XSB/emu/builtin.c:996-1012 | ^, setof and bagof keep their variables out of scope only while the goal is walked |
| ExcessVars.ExcessVarsOf | XSB/emu/builtin.c:2458-2507 | the whole call: the result, and nothing left bound; a type error leaves the start variables bound |
| ExcessVars.OccurrencesScoped | XSB/emu/builtin.c:996-1012 | putting more variables in scope drops exactly their occurrences |
| ExcessVars.QuantifiersMean | XSB/emu/builtin.c:995-1014 | of ^/2 the second argument is scanned, of setof/3 and bagof/3 the second and the third, all without the variables of the first; of any other structure, or if quantifiers are not asked for, all arguments |
| Printer.Printer.MustQuote | XSB/emu/cinterf.c:1093-1106 | quotes are needed iff the atom is not a plain name |
| Printer.Printer.PrintPString | XSB/emu/cinterf.c:1109-1125 | the atom, quoted with inner quotes doubled where needed |
| Printer.Printer.PrintPTerm | XSB/emu/cinterf.c:1171-1224 | the printer that loops on the last argument appends the same text as plain recursion |
| Printer.UnquotedIff | XSB/emu/cinterf.c:1093-1106 | an atom goes without quotes iff it begins with a small letter and has letters, digits and underscores only |
| PrinterReader.RoundTrip | XSB/emu/cinterf.c:1171-1224 | reading the text gives back the term with its integers cut to a C int and its structures without arguments turned to atoms, whatever follows |
| PrinterReader.TopLevelDiffers | XSB/emu/cinterf.c:1113-1117 | at top level only an atom that needs quotes is printed differently |
| PrinterReader.ShownSame | XSB/emu/cinterf.c:1184-1186 | a term is shown as it is iff its integers fit and every structure has an argument |

## Left out

- The reallocation of the walk's stack, which drops the new address (XSB/emu/call_graph_xsb.c:623): the stack is a growable sequence.
- IncrSccs.GetIncrSccs: does not model an empty list of subgoals, nor a subgoal listed twice; the heap list it returns is a sequence of numbers.
- ChangePropagation.IncrGraph.InvalidateCall: does not model `abolishing` calls, nor a fact invalidated again while its change stands, which counts its edges once more; counts kept apart by a ghost field are not part of the engine.
- ChangePropagation.IncrGraph.WithdrawSource: withdraws the change of a node without in-edges only; replacing the node of a re-evaluated call, and its in-edges, is not part of this model.
- LazyUpdates.Schedule: does not model `find_the_visitors` and the deallocation of a list half built; the outcome says which of the two failures occurred.
- CallEdges.CallGraph.RemoveCall: hash tables are sequences in iteration order; freeing memory and the deletion of `previous_call` are not part of this model.
- Clause compilation: `$assertVAR` terms with occurrence counts, attributed variables, floats, boxed integers, references between cells (an integer reached through one is not taken in the short form for lists), interned terms, and a variable that occurs a million times in one clause, at which its built-in count runs out.
- HeadCode.PayOne: takes every instruction for the equation it leaves between final values; the heap, the binding of cells and trailing are not part of this model, and of the read or write flag only where an instruction may rely on it.
- HeadCompiler.CompileHead: does not give the exact heads that overflow, only a bound below which none does; atoms' and functors' table entries are their names.
- ClauseCompiler.CompileClause: likewise of clauses; that all arguments are right only if the loads are in time and no integer is cut needs different atoms to have different places in the symbol table.
- Clause store: trees of index blocks for several or joint indexes, predicates without an index, the path that turns an "improper sob" into a fresh one, deleted-clause frames and their sweep, and choice points on chains of index blocks.
- ClauseIndex.Replay: numbers clauses by the event that added them and takes a fresh address for every block; memory reuse is not modelled.
- SafeRetract.RetractClause: says whether memory may be given back by a parameter, which stands for the thread count, the garbage collection flag, an incomplete table and the size of the choice point stack; the periodic sweep is not part of this model.
- SafeRetract.MarkCpStack: does not model the mark bit in the clause's length word and its removal (a set stands for it), nor dangling pointers into a clause's code.
- ThreadDeps.UpdateDeps: does not model the copying between the two fixed arrays (lists are values), and a new entry's `last` is arbitrary until it is set.
- Completion.Threads.CheckComplete: does not model well-founded simplification (a parameter says whether all negative literals are decided), levels, exceptions, or which blocked thread is signalled (any may wake).
- WaitFor.RunAll: ends at the first upset, for the pointers may be cyclic from there on and following them need not end; stacks, subgoals and ownership changes of the reset are not part of this model.
- Suspensions.Scc.ProcessSuspensionFrames: does not model marking delayed goals and the heap and environment registers; a null root subgoal pointer, on which the loop would not end, is excluded.
- TrailTidying.Trail.UnwindTrail: does not model the words between trail frames, and the chain is given down to a frame at or below the bound.
- ExcessVars.ExcessVarsOf: does not model the size limit of the trail, attributed variables and the building of the answer list on the heap; structures without arguments are excluded.
- Printer.Printer.PrintPTerm: does not model variables, floats and growth of the buffer.
- Tries, delay lists, loading of object files, sockets, clocks, statistics and garbage collection: other subsystems, or input and output.
