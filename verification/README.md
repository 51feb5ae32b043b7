# Relavium verification model

A Dafny model of the parts of Relavium whose correctness cannot be seen from one function: the workflow
compiler, the request-data copier, the temporary-file protocols, the durable stores and the price arithmetic.

- **Compiler** (`Workflow`, `Graph`, `ReadyHeap`, `Kahn`, `PlanOrder`, `Closure`, `MergeOrder`, `Ceilings`, `Validation`,
  `Plan`). `Plan.BuildRunPlan` runs the ceilings, the reference checks, the edge wiring, the heap-driven Kahn loop, the
  cycle report, the closure fold, the unordered-read check and the merge pairing, and its contract ties all of them
  together: a document is accepted exactly when it is within the ceilings, its references are in order, it is acyclic
  and free of unordered reads, and none of the checks outside the model (one flag) objects; an accepted plan carries
  the lexicographically least execution order.
- **Copier** (`ObjectGraph`, `InertCopy`, `Inspection`). An explicit-stack depth-first walk over a mutable object heap
  that either refuses or produces a fresh isomorphic graph, and the inspection of each container it meets.
- **Temporary files** (`Recovery`, `Maintenance`, `NativeToken`). Step systems over a shared directory with any number
  of processes, any interleaving and crashes at any step: who can never be at work together, and that whoever nobody
  alive stands in the way of gets its work done.
- **Durable stores** (`RunHistory`, `RunMoney`, `ScopeRange`, `EffectJournal`, `EffectTurns`, `TurnJournal`, `UsageCoverage`,
  `LedgerSums`, `SessionLedger`, `LedgerStore`, `MediaReferences`). Each `BEGIN IMMEDIATE` transaction is one method of
  a class, tied to a function of the old rows; the theorems are about every sequence of those functions.
- **Prices** (`Pricing`). Tier selection, independently rounded terms and the pre-egress estimate, over exact reals with
  `round(x) = floor(x + 1/2)`.

Results worth knowing about the code as it stands:

- A lease generation restarts at one after `release` deletes the row. Which fence is accepted depends only on the grants
  since the row was last absent (`RunHistory.FenceIsGrantCount`): a superseded fence is out for good while the row is
  kept (`RunHistory.SupersededForGood`), and after a deletion every fence can come back
  (`RunHistory.AbsentRowReopens`, with `RunHistory.GenerationsRestart` as a concrete schedule).
- The fence check compares owner and generation and not expiry (`RunHistory.ExpiryIsNotChecked`). A holder's fence is
  accepted exactly until somebody is granted the run or it is released (`RunHistory.AcceptedWhileUndisturbed`), so an
  expired lease that nobody took over still admits its holder's writes (`RunHistory.ExpiredLeaseAppends`).
- `run:completed` overwrites the run total without a cost row. Rows and total agree from then on exactly when the stated
  total is the largest snapshot logged before it (`RunMoney.CompletionAgreesIffLargest`).
- `flagForAttention` has no state predicate, so it also ends the replay of a committed result
  (`EffectJournal.CommittedReplaysUnlessFlagged`).
- Effect-turn keys are fresh exactly while journal writers keep two rules (`EffectTurns.CoveredIffLawful`): once a mark is
  set, file only under reserved keys; and do not discard the last evidence of a key the mark does not cover. `discard`
  itself checks neither, and `EffectTurns.DroppedEvidenceIsForgotten` is an input on which a key below a named one is
  handed out.
- The cost estimate takes the rates of the highest threshold, not the highest rates. `Pricing.EstimateBoundsIff` gives
  the exact condition under which it bounds the cost; where a lower tier charges more for output no margin is enough
  (`Pricing.OutputDominanceIsNecessary`), and the one-micro-cent slack is reached (`Pricing.ExtraMicrocentIsReached`).
- A new reference to a soft-deleted media handle does not revive it; only admission does
  (`MediaReferences.OnlyAdmissionRevives`). Referenced objects stay live exactly as long as nobody adds such a reference
  (`MediaReferences.ReferencedStaysLive`).

`dafny verify dfyconfig.toml` checks the whole project.

## Model

| member | source | states |
|---|---|---|
| `Graph.GraphBuilder.constructor` | packages/core/src/dag.ts:146-151 | An edgeless graph over distinct authored ids, with both edge maps defined on every node and positions in authored order. |
| `Graph.GraphBuilder.AddEdge` | packages/core/src/dag.ts:152-160 | The two edge maps stay mirror images; the edge is added exactly when both ends are nodes, and no other edge changes. |
| `Graph.AuthoredSortIsSorted` | packages/core/src/dag.ts:212-213 | Sorting a set of nodes by authored index yields strictly increasing positions. |
| `Graph.TopologicalImpliesAcyclic` | packages/core/src/dag.ts:179-181 | A graph with a topological order has no closed walk. |
| `ReadyHeap.BinaryHeap.Push` | packages/core/src/dag.ts:664-675 | The hole-based sift-up keeps the heap order and adds exactly the pushed id. |
| `ReadyHeap.BinaryHeap.Pop` | packages/core/src/dag.ts:676-694 | Removes exactly the returned id, which has the least rank of all held ids, and keeps the heap order. |
| `ReadyHeap.BinaryHeap.SiftDown` | packages/core/src/dag.ts:680-692 | Sinking the displaced last element restores the heap order without losing or duplicating an id. |
| `ReadyHeap.SiftUpStep` | packages/core/src/dag.ts:667-673 | One upward move confines the only possible disorder to the parent slot. |
| `ReadyHeap.SiftDownStep` | packages/core/src/dag.ts:681-690 | One downward move to the lesser child confines the only possible disorder to that child. |
| `ReadyHeap.RootIsLeast` | packages/core/src/dag.ts:677-679 | The root of a heap has the least rank. |
| `Kahn.SeedReady` | packages/core/src/dag.ts:695-699 | The heap starts with exactly the nodes without dependencies, once each. |
| `Kahn.Tell` | packages/core/src/dag.ts:708-712 | Decrementing one consumer pushes it exactly when nothing is left for it to wait for. |
| `Kahn.Release` | packages/core/src/dag.ts:707-713 | After all consumers are told, in any order, counters and heap describe the new ready set exactly. |
| `Kahn.PopReady` | packages/core/src/dag.ts:676-694 | The popped node is the authored-least node whose dependencies are all placed. |
| `Kahn.Emit` | packages/core/src/dag.ts:701-714 | One turn of the loop places the authored-least ready node and keeps the counters and heap exact. |
| `Kahn.Order` | packages/core/src/dag.ts:651-716 | The heap loop refines the greedy rule: each step emits the authored-least ready node, and it stops only when none is ready. |
| `PlanOrder.GreedyCount` | packages/core/src/dag.ts:179-180 | The order is never longer than the node list, and its length is the node count exactly when it holds every node. |
| `PlanOrder.CompleteIsTopological` | packages/core/src/dag.ts:651-716 | An order of full length places every node once, after all its dependencies. |
| `PlanOrder.KahnOrderIsLeast` | packages/core/src/dag.ts:651-716 | A complete Kahn order is lexicographically no later, by authored index, than any topological order of the graph. |
| `PlanOrder.GreedyWins` | packages/core/src/dag.ts:664-694 | At the first difference from any other topological order, the Kahn order has the earlier authored node. |
| `PlanOrder.CompleteIffAcyclic` | packages/core/src/dag.ts:651-716 | The order covers all nodes if and only if the graph has no closed walk. |
| `PlanOrder.LeastStuckIsLeast` | packages/core/src/dag.ts:752-753 | The predecessor the cycle walk follows is the authored-least unplaced dependency. |
| `PlanOrder.CycleFromIsRing` | packages/core/src/dag.ts:746-764 | The predecessor walk from any stuck node terminates within the node count and closes into a ring. |
| `PlanOrder.RingIsCycle` | packages/core/src/dag.ts:758-764 | Such a ring, reversed, is a closed walk along real edges between unplaced nodes that repeats only its head. |
| `PlanOrder.WalkBack` | packages/core/src/dag.ts:746-764 | The loop with its path and position map returns a ring of the least-stuck-predecessor map. |
| `PlanOrder.ExtractCycle` | packages/core/src/dag.ts:724-765 | On a short order, a simple forward cycle over unplaced nodes: the walk from the authored-first unplaced node, each time to its authored-least unplaced dependency, read backwards from where it closes; empty only when the order is complete. |
| `Closure.FoldOne` | packages/core/src/dag.ts:983-991 | Dependencies plus what they inherited are exactly the nodes the vertex transitively depends on. |
| `Closure.ComputeAncestors` | packages/core/src/dag.ts:977-998 | One pass over a topological order computes the exact transitive closure of every node. |
| `Closure.ReachesIsBefore` | packages/core/src/dag.ts:977-998 | Whatever a node transitively depends on precedes it in every topological order. |
| `Closure.UnrelatedMayFollow` | packages/core/src/dag.ts:1000-1022 | A node outside the closure follows the vertex in some topological order. |
| `Closure.ClosureIsAlwaysBefore` | packages/core/src/dag.ts:977-998 | On an acyclic graph the closure is exactly what precedes the vertex in every topological order. |
| `Closure.CollectUnorderedReads` | packages/core/src/dag.ts:1023-1054 | Reports exactly the literal reads of workflow nodes outside the reader's closure, for readers with no unresolved agent upstream. |
| `Closure.AcceptedReadIsOrdered` | packages/core/src/dag.ts:1023-1054 | With nothing reported, every checkable literal read is of a node that precedes its reader in every topological order. |
| `Closure.RefusedReadIsUnordered` | packages/core/src/dag.ts:1023-1054 | A literal read is reported exactly when some execution order puts the reader before the node it reads and no unresolved agent precedes the reader in every order. |
| `MergeOrder.PairParallel` | packages/core/src/dag.ts:881-899 | The paired parallel is eligible, covers the most producing branches, and is the first authored to do so; none is paired exactly when no eligible one covers any. |
| `MergeOrder.PairedJoins` | packages/core/src/dag.ts:840-914 | The parallel chosen by coverage is, counted by positions, the first authored of those feeding only this merge that feed it most values, and none is chosen when none feeds it any. |
| `MergeOrder.BranchOrder` | packages/core/src/dag.ts:840-914 | The merge's dependencies with a value once each, those of the parallel it joins first and as declared, then the others as authored; the parallel joined is the first authored of those that feed it most values. |
| `MergeOrder.BranchesConcat` | packages/core/src/dag.ts:901-911 | Declared branches and authored extras together are a duplicate-free listing of the producing dependencies, with the merge itself dropped. |
| `Ceilings.SplitAgreesWithBase` | packages/core/src/limits.ts:346-350 | Splitting an edge source at `:` and cutting it at the first `:` name the same node. |
| `Ceilings.AddAll` | packages/core/src/dag.ts:573-584 | Adding a list of attempted edges adds exactly those between nodes. |
| `Ceilings.WireLinks` | packages/core/src/dag.ts:338-386 | The structural pass wires exactly the plain edges between nodes that do not leave a condition. |
| `Ceilings.WireNodes` | packages/core/src/dag.ts:249-268 | The node pass adds, between nodes, the attempted routing, prompt and own data edges; `Validation.EdgesAreDependencies` says which those are. |
| `Ceilings.Wire` | packages/core/src/dag.ts:236-269 | The finished graph has exactly the attempted edges between nodes, links first; `Validation.EdgesAreDependencies` says which those are. |
| `Ceilings.BuildOutTargets` | packages/core/src/limits.ts:320-352 | The fan-out map records exactly the distinct targets that nodes and edges contribute, condition branches excepted. |
| `Ceilings.TargetsWiden` | packages/core/src/limits.ts:320-352 | A target counts toward a node's width exactly when it is a member of that parallel, reads the node's output in a field or resolved prompt, or is where an edge from the node leads. |
| `Ceilings.BaseNames` | packages/core/src/limits.ts:346-350 | An edge source names a node exactly when its text is the id, alone or before the first `:`. |
| `Ceilings.CollectCeilingIssues` | packages/core/src/limits.ts:354-423 | Reports exactly the exceeded node, edge, fan-out, node-retry and concurrency ceilings with their counts, and nothing exactly when the document is within 500 nodes, 2000 edges, 50 targets, 10 attempts and 64 parallel nodes. |
| `Ceilings.EdgesBounded` | packages/core/src/limits.ts:293-307 | The wired graph has at most as many distinct edges as the ceiling pass counted. |
| `Ceilings.NodeCountIs` | packages/core/src/limits.ts:293-307 | A node's share of the edge total is its routing entries and each written reference to a node, with repetitions. |
| `Validation.OutEdgeWidens` | packages/core/src/limits.ts:320-352 | Every out-edge of a vertex that is not a condition is counted in its width. |
| `Plan.AcceptedPlanIsBounded` | packages/core/src/limits.ts:354-423 | A document within the limits yields at most 500 vertices, 2000 distinct edges and out-degree 50 outside conditions. |
| `Ceilings.RecordedIsWithin` | packages/core/src/limits.ts:354-423 | The counted maps are within the ceilings exactly when the document is within the five limits as numbers. |
| `Validation.LinkFaults` | packages/core/src/dag.ts:338-386 | Reports exactly the faults of one authored edge: unknown ends, a plain edge out of a condition, a handle that names no branch, a handle whose branch leads elsewhere. |
| `Validation.HandleFaults` | packages/core/src/dag.ts:593-643 | A handle is refused exactly when its source is no condition, no branch answers to it, or the first branch that does has another target. |
| `Validation.NodeFaults` | packages/core/src/dag.ts:389-441 | Reports exactly a node's unknown members, branch targets and default, and its unresolved agent when a registry was supplied. |
| `Validation.CollectFaults` | packages/core/src/dag.ts:236-269 | Reports exactly the faults of all authored references, edge by edge and node by node. |
| `Validation.FaultlessIsHonoured` | packages/core/src/dag.ts:332-441 | In a document without faults every authored edge, plain or handled, and every routing target is a dependency of the graph. |
| `Validation.EdgesAreDependencies` | packages/core/src/dag.ts:236-269 | The graph has exactly the edges between nodes that a plain link out of no condition, a routing entry, a read in a node's own fields or a read in its resolved agent's prompt makes. |
| `Validation.NoFaultsIffInOrder` | packages/core/src/dag.ts:338-441 | A document has no faults exactly when both ends of every edge are nodes, no plain edge leaves a condition, every handle follows the first branch it answers to, every routing target is a node and, with a registry, every agent resolves. |
| `Plan.AllOrdersLater` | packages/core/src/dag.ts:179-181 | A complete Kahn order is least among all topological orders, and the graph is acyclic. |
| `Plan.PinBranches` | packages/core/src/dag.ts:840-914 | Every merge gets exactly its producing dependencies in the order its paired parallel declares. |
| `Plan.ParallelsInOrder` | packages/core/src/dag.ts:847-848 | The parallels a merge is paired over are all of them, in authored order. |
| `Plan.BuildRunPlan` | packages/core/src/dag.ts:123-225 | The graph has exactly the dependencies the document authors; a document is accepted exactly when it is within the limits, in order, acyclic, without unordered reads and no check outside the model objects; an accepted plan honours every authored edge and has the least order, exact closures, bounded size and pinned branches; a refusal lists exactly the reference faults, names the first blocked cycle exactly when there is one and, when the closure check runs, exactly the unordered reads. |
| `ObjectGraph.PopStep` | packages/llm/src/inert-data.ts:189-202 | Closing an exhausted frame keeps the depth-first invariant and finishes its source after everything it holds. |
| `ObjectGraph.PushStep` | packages/llm/src/inert-data.ts:221-248 | Opening an object met for the first time keeps the invariant. |
| `ObjectGraph.ActiveChildIsCycle` | packages/llm/src/inert-data.ts:207-208 | A property that refers to an active source lies on a directed cycle. |
| `ObjectGraph.WalkStaysDone` | packages/llm/src/inert-data.ts:158-255 | A walk from a finished source stays among sources finished earlier. |
| `ObjectGraph.FinishedIsCopyable` | packages/llm/src/inert-data.ts:158-255 | When the stack is empty the finished sources are exactly the reachable ones, none cyclic, foreign or holding an unsupported leaf. |
| `InertCopy.CloseFrame` | packages/llm/src/inert-data.ts:189-202 | Freezes the finished copy when asked, leaves the active set, and keeps the loop invariant. |
| `InertCopy.DefineProperty` | packages/llm/src/inert-data.ts:221-247 | Appends one image property to the open copy and advances its frame, keeping the loop invariant. |
| `InertCopy.OpenFrame` | packages/llm/src/inert-data.ts:223-248 | Registers one fresh copy of a new source, links it and opens its frame; existing memo entries keep their copies. |
| `InertCopy.Visit` | packages/llm/src/inert-data.ts:185-249 | One turn refuses only an uncopyable input, or keeps the invariant and makes progress. |
| `InertCopy.RefusalIsJust` | packages/llm/src/inert-data.ts:207-241 | Meeting an unsupported leaf, a foreign container or an active source proves the input uncopyable. |
| `InertCopy.Drain` | packages/llm/src/inert-data.ts:173-250 | The frame loop terminates, refuses exactly the uncopyable inputs, and otherwise ends with an isomorphic copy. |
| `InertCopy.CopyContainer` | packages/llm/src/inert-data.ts:158-255 | Refuses exactly when a cycle, foreign container or unsupported leaf is reachable; otherwise a fresh isomorphic graph (keys, scalars, shapes, shared aliases, distinct copies for distinct sources), each source expanded once, sources unchanged. |
| `InertCopy.CopyInertData` | packages/llm/src/inert-data.ts:136-138 | The same for any root value: leaves pass through, unsupported leaves are refused, containers are copied. |
| `Inspection.Properties` | packages/llm/src/inert-data.ts:47-117 | Lists a container's own data properties in order exactly when it is an ordinary record or a dense ordinary array, and refuses it otherwise. |
| `Inspection.InertMeansPlain` | packages/llm/src/inert-data.ts:47-117 | What passes is exactly a record with a plain prototype and no boxed value behind it, or an array of its length, with no inherited serializer and only enumerable string-keyed data, `__proto__` and callable `toJSON` excluded. |
| `Inspection.AcceptedArrayIsDense` | packages/llm/src/inert-data.ts:94-115 | An accepted array has every index below its length and no other property. |
| `Inspection.CopyReadsBack` | packages/llm/src/inert-data.ts:119-130 | A container the copier allocated and filled with an accepted container's keys passes inspection and lists what it was given, so copies can be copied. |
| `Recovery.InvStep` | packages/db/src/media-store-temporaries.ts:440-584 | Every atomic step or crash keeps: live holders' markers are on disk, whatever a scan cleared is dead, and of two live listers one saw the other. |
| `Recovery.ScheduleKeepsInv` | packages/db/src/media-store-temporaries.ts:440-584 | The invariant holds in every state of every interleaving. |
| `Recovery.DestructionIsExclusive` | packages/db/src/media-store-temporaries.ts:440-532 | No two live recoveries of one claim are ever both past their marker scan. |
| `Recovery.RemovalIsReportedOnce` | packages/db/src/media-store-temporaries.ts:560-584 | Over a whole schedule at most one recovery reports the claim removed, and the directory and its contents stay gone. |
| `Recovery.LoneRecoverySucceeds` | packages/db/src/media-store-temporaries.ts:440-584 | A live recovery that starts where only dead recoveries have left markers can always run to the end: their markers, the blob and the directory go, and it reports the claim removed. |
| `Recovery.LateRecoveryDeclines` | packages/db/src/media-store-temporaries.ts:440-532 | A recovery of a claim that is already gone ends without a report and leaves nothing behind. |
| `Recovery.OwnMarkerIsPresent` | packages/db/src/media-store-temporaries.ts:533-559 | A live recovery that has to retire its marker always finds it. |
| `Maintenance.InvStep` | packages/db/src/media-store-temporaries.ts:203-255 | Every step of producers, prunes and sweeps, and every crash, keeps the announce-then-look invariant. |
| `Maintenance.LeftoversStep` | packages/db/src/media-store.ts:235-316 | Every step keeps: a live prune that has listed the root listed every temporary a live, checked producer left behind. |
| `Maintenance.ScheduleKeepsInv` | packages/db/src/media-store-temporaries.ts:203-255 | The invariant holds in every state of every interleaving. |
| `Maintenance.PruneIsExclusive` | packages/db/src/media-store-temporaries.ts:203-255 | While a live prune is past its scan, no other live prune is past its scan, and no live producer past its second check still has its temporary on disk, whether it is still at work or ended unable to remove it. |
| `Maintenance.AnnouncementHeld` | packages/db/src/media-store.ts:235-316 | A live process that announced itself and has not retreated still has its file on disk. |
| `Maintenance.PublicationIsChecked` | packages/db/src/media-store.ts:235-316 | In every schedule whatever is published was published by a producer that had passed its second check. |
| `Maintenance.LonePruneSucceeds` | packages/db/src/media-store-temporaries.ts:203-255 | A prune that only dead processes' files stand in the way of can always run to the end: no legacy temporary is left and its own marker is gone. |
| `Maintenance.LoneProducerPublishes` | packages/db/src/media-store.ts:235-316 | A producer that only dead prunes' markers stand in the way of can always run to the end: its media is published and its temporary is gone. |
| `NativeToken.PrintThenParse` | packages/db/src/media-store-temporaries.ts:61-67 | A printed base-36 value parses back to itself and has no leading zero. |
| `NativeToken.ParseThenPrint` | packages/db/src/media-store-temporaries.ts:68-73 | A digit string without leading zero is the print of its value. |
| `NativeToken.LexIsNumeric` | packages/db/src/media-store-temporaries.ts:68-73 | For equal lengths, string comparison is numeric comparison. |
| `NativeToken.CanonicalIffPrinted` | packages/db/src/media-store-temporaries.ts:68-73 | The accepted tokens are exactly the prints of the values 0 to 2^64-1. |
| `NativeToken.IdentityTokenIsCanonical` | packages/db/src/media-store-temporaries.ts:61-73 | A stat field's token is always accepted, and two fields share one exactly when they are the same unsigned 64-bit value. |
| `RunHistory.RunHistoryStore.FoldCumulative` | packages/db/src/run-history-store.ts:656-683 | Raises the total to the snapshot if that is larger and writes one row for the difference, otherwise nothing. |
| `RunHistory.RunHistoryStore.ApplyDerived` | packages/db/src/run-history-store.ts:709-966 | What each event writes: how far the total rises, which node and how much the money row charges, which step rows of which attempt show the node's cost, and nothing else. |
| `RunHistory.RunHistoryStore.Persist` | packages/db/src/run-history-store.ts:979-1074 | Appended exactly when a guarded writer named the end of the log and writes beyond it, a fenced one holds the lease, it does not end the run a second time and the number is new; each refusal exactly when its check is the first to fail, without a trace. |
| `RunHistory.JudgeDecides` | packages/db/src/run-history-store.ts:979-1074 | The verdict is the first of the four checks that fails, each stated over the log and the lease. |
| `RunHistory.DeriveWrites` | packages/db/src/run-history-store.ts:709-966 | The derived writes are those of the event's arm. |
| `RunHistory.RunHistoryStore.Acquire` | packages/db/src/run-history-store.ts:1146-1183 | Refused exactly while another owner's lease is unexpired; otherwise the next generation of the row, which other owners can take exactly from `now + ttl` on. |
| `RunHistory.RunHistoryStore.Heartbeat` | packages/db/src/run-history-store.ts:1185-1207 | Kept exactly for the current owner and generation; once kept, other owners can take the run exactly from `now + ttl` on; otherwise nothing changes. |
| `RunHistory.RunHistoryStore.Release` | packages/db/src/run-history-store.ts:1209-1228 | Afterwards the fence is not accepted; the row goes exactly if the fence was accepted, so a fenced-out process never deletes another holder's lease. |
| `RunHistory.LogIsSound` | packages/db/src/run-history-store.ts:1046-1074 | Over every interleaving, guarded and fenced or not, a log holds at most one terminal and no repeated sequence number. |
| `RunHistory.GuardedLogIncreases` | packages/db/src/run-history-store.ts:995-1020 | When every append is guarded, the log's sequence numbers strictly increase. |
| `RunHistory.OneFence` | packages/db/src/run-history-store.ts:1027-1045 | At most one fence is acceptable at a time. |
| `RunHistory.LeaseIsNotTaken` | packages/db/src/run-history-store.ts:1146-1228 | A lease that stays unexpired and unreleased never passes to another owner. |
| `RunHistory.LeaseLastsUntilExpiry` | packages/db/src/run-history-store.ts:1146-1228 | Before its expiry no operation of any other owner changes a lease. |
| `RunHistory.HoldLastsItsTtl` | packages/db/src/run-history-store.ts:1146-1207 | After a granted acquire or a kept heartbeat, the fence stays acceptable for the whole time to live against every other owner. |
| `RunHistory.AcceptedWhileUndisturbed` | packages/db/src/run-history-store.ts:1027-1045 | A fence is accepted at every moment of a run exactly when nobody is granted the run and the fence is not released, whatever the clock says. |
| `RunHistory.HolderIsNotFenced` | packages/db/src/run-history-store.ts:1027-1045 | Until then the fence refuses none of its holder's appends, expired or not. |
| `RunHistory.ExpiryIsNotChecked` | packages/db/src/run-history-store.ts:1027-1045 | The verdict on an append does not depend on the lease's expiry. |
| `RunHistory.ExpiredLeaseAppends` | packages/db/src/run-history-store.ts:1027-1045 | A concrete fenced append after the lease has run out. |
| `RunHistory.AcquireSupersedes` | packages/db/src/run-history-store.ts:1146-1183 | A granted acquire over a held row retires every fence acceptable before it, the acquirer's own included. |
| `RunHistory.SupersededStaysOut` | packages/db/src/run-history-store.ts:1027-1045 | A fence that is not accepted stays so until its owner acquires again. |
| `RunHistory.SupersededForGood` | packages/db/src/run-history-store.ts:1146-1228 | A superseded fence is not accepted again unless the row is deleted in between, even if its owner reacquires. |
| `RunHistory.LeaseIsGrantCount` | packages/db/src/run-history-store.ts:1146-1228 | Since the row was last absent, the generation is the number of grants and the owner is whom the last was to. |
| `RunHistory.FenceIsGrantCount` | packages/db/src/run-history-store.ts:1146-1228 | A fence is accepted if and only if the grants since the row was last absent number its generation and the last was to its owner. |
| `RunHistory.AbsentRowReopens` | packages/db/src/run-history-store.ts:1146-1183 | From any run without a lease row, every fence becomes acceptable when its owner acquires as often as its generation says. |
| `RunHistory.WritersAreSeparated` | packages/db/src/run-history-store.ts:1027-1045 | Between fenced appends under two different fences the later writer has acquired the run. |
| `RunHistory.GenerationsRestart` | packages/db/src/run-history-store.ts:1209-1228 | The witness: takeover, release and reacquisition make a superseded fence acceptable again. |
| `RunMoney.AgreesAlways` | packages/db/src/run-history-store.ts:709-966 | Over every run, rows, total and largest snapshot are one number until a `run:completed`; after it, rows and total differ by exactly the error it introduced. |
| `RunMoney.MoneyIsConserved` | packages/db/src/run-history-store.ts:743-887 | In every order and staleness of events other than `run:completed`, row sum, run total and largest snapshot are equal. |
| `RunMoney.CompletionAgreesIffLargest` | packages/db/src/run-history-store.ts:904-918 | With a `run:completed` logged, rows and total are equal, then and ever after, if and only if it states the largest snapshot before it. |
| `RunMoney.OrderDoesNotMatter` | packages/db/src/run-history-store.ts:656-683 | Two runs that logged the same events in any orders hold the same total and row sum. |
| `RunMoney.LargestIsMaximum` | packages/db/src/run-history-store.ts:656-683 | The reference figure is the maximum of the carried snapshots. |
| `RunMoney.NodeCostsPartitionTotal` | packages/db/src/run-history-store.ts:701-706 | Per-node settled costs add up to the sum of all rows. |
| `RunMoney.StepCostIsSettledCost` | packages/db/src/run-history-store.ts:743-820 | No step row ever shows more than its node's money rows hold. |
| `RunMoney.EndedStepIsExact` | packages/db/src/run-history-store.ts:743-820 | When an attempt has just ended, its step rows show exactly its node's rows, earlier settled attempts included, and all other step rows stay. |
| `ScopeRange.RangeIsPrefix` | packages/db/src/effect-journal-store.ts:152-154 | The half-open byte range over a colon-terminated prefix matches exactly the strings with that prefix. |
| `ScopeRange.EncodeIsInjective` | packages/shared/src/run.ts:604-608 | Percent-encoding of byte strings is injective. |
| `ScopeRange.UnreservedText` | packages/shared/src/run.ts:604-608 | The bytes left alone are ASCII letters, digits and the nine marks. |
| `ScopeRange.EscapedText` | packages/shared/src/run.ts:604-608 | Every other byte becomes `%` and its two upper-case hexadecimal digits. |
| `ScopeRange.RangesAreDisjoint` | packages/db/src/effect-journal-store.ts:152-154 | No byte string falls in the ranges of two ids of one kind. |
| `ScopeRange.RangeSelectsOwner` | packages/db/src/effect-journal-store.ts:152-154 | A range over one id's prefix selects that id's scopes and no other id's. |
| `ScopeRange.KindsAreDisjoint` | packages/shared/src/run.ts:604-608 | No byte string falls in a run's range and in a session's range. |
| `EffectJournal.JournalStore.Prepare` | packages/db/src/effect-journal-store.ts:199-252 | Proceeds exactly for a free identity and claims it; replays exactly a committed, same-digest, parseable result outside `session:` scopes; otherwise conflicts, and changes nothing. |
| `EffectJournal.JournalStore.Settle` | packages/db/src/effect-journal-store.ts:254-290 | A prepared row ends in the state asked for with its id and digest, no result in a session scope, and otherwise the given result or its own; any other row is reported, and nothing else changes. |
| `EffectJournal.JournalStore.Discard` | packages/db/src/effect-journal-store.ts:299-309 | Frees the identity for a new claim exactly when its row was only prepared, and touches no other row. |
| `EffectJournal.JournalStore.FlagForAttention` | packages/db/src/effect-journal-store.ts:311-322 | From then on every prepare of the identity conflicts, whatever state its row was in; no other row changes. |
| `EffectJournal.JournalStore.SweepCommittedForSession` | packages/db/src/effect-journal-store.ts:431-465 | The chunked deletes remove exactly the captured committed rows whose scope starts with the session's prefix and leave the others as they were. |
| `EffectJournal.JournalStore.SweepCommittedForRun` | packages/db/src/effect-journal-store.ts:467-488 | The half-open range delete removes exactly the committed rows whose scope starts with the run's prefix and leaves the others as they were. |
| `EffectJournal.MissingMeansFreed` | packages/db/src/effect-journal-store.ts:299-488 | A row that was there and is gone was discarded while prepared or swept while committed in between. |
| `EffectJournal.ProceedsAreSeparated` | packages/db/src/effect-journal-store.ts:199-252 | Between two `proceed` verdicts for one identity lies a discard of its prepared claim or a sweep of its committed row. |
| `EffectJournal.UnresolvedStays` | packages/db/src/effect-journal-store.ts:199-322 | An ambiguous or flagged row is never deleted and every later prepare conflicts. |
| `EffectJournal.CommittedHasOrigin` | packages/db/src/effect-journal-store.ts:254-290 | A committed row comes from one uninterrupted claim and one settle, with that claim's digest and that settle's result. |
| `EffectJournal.ReplayReturnsTheSettledResult` | packages/db/src/effect-journal-store.ts:213-235 | A replay returns the result settled for a claim of the same digest, and never happens in a session scope. |
| `EffectJournal.SettledEffectReplays` | packages/db/src/effect-journal-store.ts:199-290 | A run's effect settled as committed with a value is replayed with that value to the same call, and conflicts with any other. |
| `EffectJournal.UnreplayableSettleConflicts` | packages/db/src/effect-journal-store.ts:199-290 | An effect settled as ambiguous, or in a session scope, conflicts with every later call. |
| `EffectJournal.CommittedReplaysUnlessFlagged` | packages/db/src/effect-journal-store.ts:199-322 | A replayable row that is not freed keeps replaying the same value exactly until it is flagged, and conflicts ever after. |
| `EffectJournal.RunSweepIsConfined` | packages/db/src/effect-journal-store.ts:467-488 | A run sweep takes that run's committed rows and no other run's or any session's. |
| `EffectJournal.SessionSweepIsConfined` | packages/db/src/effect-journal-store.ts:431-465 | A session sweep takes exactly that session's captured committed rows and no run's. |
| `EffectTurns.TurnKeys.CountCompleted` | packages/db/src/session-effect-turns.ts:28-47 | Counts exactly the completed assistant messages, or fails exactly when a message cannot be read. |
| `EffectTurns.CompletedIsCount` | packages/db/src/session-effect-turns.ts:28-65 | The completed turns are the number of completed messages. |
| `EffectTurns.TurnKeys.SeedLegacyKey` | packages/db/src/session-effect-turns.ts:50-83 | A set mark is returned as it is; an unset one becomes the exact maximum of the completed messages and the filed keys, or the evidence is refused and nothing changes. |
| `EffectTurns.TurnKeys.Reserve` | packages/db/src/session-effect-turns.ts:163-189 | Granted exactly outside transactions on a session that is not deleted and has a key left and, unmarked, a readable history; the key is one more than the mark or, unmarked, one more than the larger of the completed messages and the filed turns. |
| `EffectTurns.TurnKeys.Sweep` | packages/db/src/session-effect-turns.ts:90-97 | Refused exactly when rows are captured and the mark is out of range or unset with unreadable evidence; otherwise captured effects go only after the mark preserves what they prove. |
| `EffectTurns.TurnKeys.Initialize` | packages/db/src/session-effect-turns.ts:100-160 | Open-time backfill seeds exactly the unmarked readable sessions with evidence and leaves all others as they were. |
| `EffectTurns.NextKeyIsExact` | packages/db/src/session-effect-turns.ts:163-189 | The key handed out exceeds exactly the keys covered by the mark or, while it is unset, by the evidence. |
| `EffectTurns.CoverStep` | packages/db/src/session-effect-turns.ts:50-189 | One operation keeps every named key covered exactly when it obeys the filing or the dropping rule. |
| `EffectTurns.CoveredIffLawful` | packages/db/src/session-effect-turns.ts:50-189 | Over a whole life every named key stays covered at every moment exactly when every operation obeys the rules. |
| `EffectTurns.ReservedKeyIsNew` | packages/db/src/session-effect-turns.ts:163-189 | In every life a reserved key exceeds every key reserved before; it exceeds every key any scope has named exactly when those are covered by the mark or the remaining evidence, and always when the journal writers kept the two rules. |
| `EffectTurns.FilingRuleIsExact` | packages/db/src/session-effect-turns.ts:50-83 | Once a mark is set, the next key exceeds a filed key if and only if the filing was under an already reserved key. |
| `EffectTurns.DropRuleIsExact` | packages/db/src/effect-journal-store.ts:299-309 | After a claim is dropped, the next key exceeds its key if and only if the mark, the completed turns or another effect covers it. |
| `EffectTurns.DroppedEvidenceIsForgotten` | packages/db/src/effect-journal-store.ts:299-309 | The failing input: dropping the only evidence of key 5 while no mark is set lets key 1 be handed out. |
| `TurnJournal.PrintedTurnIsRead` | packages/db/src/session-effect-turns.ts:69-77 | A printed turn is read back from a scope suffix as that turn. |
| `TurnJournal.SuffixIsPrint` | packages/db/src/session-effect-turns.ts:72-77 | A suffix names a turn exactly when it is that turn's decimal print; all other text is malformed. |
| `TurnJournal.ScopeNamesItsTurn` | packages/shared/src/run.ts:604-608 | A journal row under a session's scope is evidence of exactly the turn in its scope. |
| `TurnJournal.OthersLeaveEvidence` | packages/db/src/effect-journal-store.ts:254-488 | Settling, flagging, run sweeps and other sessions' sweeps leave a session's evidence alone. |
| `TurnJournal.StepRefines` | packages/db/src/effect-journal-store.ts:199-488 | Every operation on journal and session row is an operation on the session's evidence, lawful in the same cases. |
| `TurnJournal.ReservedKeyIsExact` | packages/db/src/session-effect-turns.ts:163-189 | Over the journal's rows, the key handed out exceeds exactly the turns the mark or the scopes cover. |
| `TurnJournal.ReservedKeyIsNewInTheJournal` | packages/db/src/session-effect-turns.ts:163-189 | While journal writers keep the two rules, a reserved key exceeds the turn of every scope of the session any row ever had, settled, flagged, discarded or swept since. |
| `UsageCoverage.UsageStore.LatchEntryTaint` | packages/db/src/session-usage-write.ts:37-54 | Latches the session exactly when its revision is not the acknowledged one. |
| `UsageCoverage.UsageStore.AcknowledgeFinalRevision` | packages/db/src/session-usage-write.ts:56-71 | Acknowledges the session's current revision and touches nothing else. |
| `UsageCoverage.UsageStore.WithSessionUsageWrite` | packages/db/src/session-usage-write.ts:88-112 | All named owners latched, then the body, then all acknowledged; an abort leaves no trace. |
| `UsageCoverage.UsageStore.CreateFreshSession` | packages/db/src/session-usage-store.ts:67-97 | Refused exactly for an existing row; otherwise the session reads verified, by the only write that clears the latch, and no other session changes. |
| `UsageCoverage.BodyEffect` | packages/db/drizzle/0018_windy_rhodey.sql:62-83 | A body raises a session's revision exactly when it writes it, sets the latch only by tainting it, and never moves the acknowledged revision. |
| `UsageCoverage.BodyRunsIff` | packages/db/drizzle/0018_windy_rhodey.sql:62-83 | A body of writes runs exactly when no session's revision would pass the largest safe integer. |
| `UsageCoverage.BodyCounts` | packages/db/drizzle/0018_windy_rhodey.sql:62-83 | It raises each session's revision by the number of its writes to it. |
| `UsageCoverage.InsertIsUnverified` | packages/db/drizzle/0018_windy_rhodey.sql:62-70 | An inserted session reads unverified, and inserting an existing one aborts. |
| `UsageCoverage.CoverageStep` | packages/db/src/session-usage-read.ts:33-39 | One operation leaves a session verified exactly when it was verified and the operation owned every write to it. |
| `UsageCoverage.VerifiedIffAlwaysClean` | packages/db/src/session-usage-write.ts:37-106 | Over every later sequence of operations, a session reads verified exactly when it did at the start and every operation was clean; one unowned bump is never forgiven. |
| `UsageCoverage.LatchIsNeverCleared` | packages/db/src/session-usage-store.ts:67-97 | No operation on an existing session clears the latch. |
| `UsageCoverage.AlwaysValid` | packages/db/src/session-usage-write.ts:25-35 | No reachable row fails the revision validity check. |
| `LedgerSums.ChangeKeepsBalance` | packages/db/src/session-usage-receipt.ts:77-106 | Any row change matched by the same counter change keeps owner, per-model and row counts equal. |
| `LedgerSums.BeginBalances` | packages/db/src/session-usage-receipt.ts:108-162 | A begun invocation keeps the three counts equal. |
| `LedgerSums.IncompleteBalances` | packages/db/src/session-usage-receipt.ts:164-186 | Turning a pending row incomplete keeps them equal. |
| `LedgerSums.SettleBalances` | packages/db/src/session-usage-receipt.ts:189-204 | Settling a row out of its own state keeps them equal. |
| `LedgerSums.RetireBalances` | packages/db/src/session-usage-receipt.ts:210-219 | Retiring a row keeps what it owed counted. |
| `SessionLedger.ApplyIsGood` | packages/db/src/session-usage-receipt.ts:77-219 | Every operation keeps balanced counters, distinct issued ordinals, settleable live receipts and exact money sums. |
| `SessionLedger.RunIsGood` | packages/db/src/session-store.ts:571-759 | Every interleaving from a new session keeps realized rows equal to the realized total and conservative rows to the conservative total. |
| `SessionLedger.CountersAgree` | packages/db/src/session-usage-receipt.ts:77-219 | Owner counters equal the per-model sums and the surviving plus retired rows in each state, and none is ever negative. |
| `SessionLedger.OrdinalsAreNotReused` | packages/db/src/session-usage-receipt.ts:108-162 | Two admitted invocations never share an ordinal, whatever was settled, retired or lost between. |
| `SessionLedger.ReceiptChargesOnce` | packages/db/src/session-store.ts:609-676 | A receipt that has added money is never accepted for a charge again. |
| `SessionLedger.ChargedPays` | packages/db/src/session-store.ts:609-676 | An accepted charge adds its amount to its model and the total, nothing to any other model or hold, and spends its receipt. |
| `SessionLedger.HeldReceiptIsReadable` | packages/db/src/session-usage-receipt.ts:64-76 | On every reachable state a held receipt is never refused for a missing or disagreeing row. |
| `SessionLedger.MoneyGoesToItsModel` | packages/db/src/session-store.ts:609-759 | Per model, realized money moves only by an accepted cost and by its amount, and holds only by a commitment or a release. |
| `SessionLedger.SidesAreIndependent` | packages/db/src/session-store.ts:205-218 | No write but a cost moves the realized side and none but a commitment or release the conservative side; a turn or session write drops the money columns of the record it sets, so its stale totals reach neither. |
| `LedgerStore.Store.ChangeCoverage` | packages/db/src/session-usage-receipt.ts:77-106 | Moves one model's counters and the owner's by the same amounts, or nothing when the model has no counter row. |
| `LedgerStore.Store.BeginInvocation` | packages/db/src/session-usage-receipt.ts:108-162 | Accepted exactly on a live or one-shot session with an ordinal left; hands out the next ordinal, which no receipt has had, as a pending row of its model and context and a receipt good for one charge on that model; keeps the ledger valid. |
| `LedgerStore.Store.ReadReceipt` | packages/db/src/session-usage-receipt.ts:52-76 | Whether a receipt is unknown, retired, disagrees with its row, or can be used. |
| `LedgerStore.Store.Dispose` | packages/db/src/session-usage-receipt.ts:164-186 | Accepted exactly for a live receipt with a pending row; the row goes, or exactly it becomes unknown, money does not move, and a second disposition is declined; keeps the ledger valid. |
| `LedgerStore.Store.CompleteInvocation` | packages/db/src/session-usage-receipt.ts:189-204 | Settles the row out of the counter of its own state and retires the receipt. |
| `LedgerStore.Store.RetireInvocation` | packages/db/src/session-usage-receipt.ts:210-219 | Accepted exactly for a live receipt; exactly its row goes, the receipt is spent and every counter stays; keeps the ledger valid. |
| `LedgerStore.Store.RecordCost` | packages/db/src/session-store.ts:609-676 | Accepted exactly without a receipt or with a live one of the same model; adds its amount to its model and the total and to nothing else, settles exactly the receipt's row, leaves legacy rows alone and spends the receipt; a refused cost changes nothing; keeps the ledger valid. |
| `LedgerStore.Store.RecordConservativeCommitment` | packages/db/src/session-store.ts:678-733 | Keeps the ledger valid; the estimate is added to its model's hold and to the conservative total, and no other hold and no realized money moves. |
| `LedgerStore.Store.ReleaseConservativeCommitments` | packages/db/src/session-store.ts:735-759 | Keeps the ledger valid; returns the sum of the holds, leaves none on a live session and no model's realized money changed. |
| `LedgerStore.Store.UpdateSession` | packages/db/src/session-store.ts:205-218 | Keeps the ledger valid; the record's columns are set after its id, creation time and money are dropped, so both totals stay what the cost writers made them. |
| `Pricing.RateBasisFor` | packages/llm/src/cost-tracker.ts:101-125 | The rates are those of the highest threshold the prompt exceeds, the first listed of equals, with that tier's input rate for cached input when it states none, or the flat rates when it exceeds none. |
| `Pricing.BestIsHighest` | packages/llm/src/cost-tracker.ts:101-125 | The chosen tier applies and has the highest threshold among those that do, the first listed among equals. |
| `Pricing.TierOrderIsIrrelevant` | packages/llm/src/cost-tracker.ts:101-125 | Any listing order of the tiers gives the same rates, provided tiers with equal thresholds carry equal rates (among equals the scan keeps the first listed). |
| `Pricing.MonotoneDominates` | packages/llm/src/cost-tracker.ts:131-144 | Rates that never fall with the threshold make the unbounded-prompt rates an upper bound for every prompt. |
| `Pricing.InputSideBound` | packages/llm/src/cost-tracker.ts:214-235 | Input and cached input, rounded separately, cost at most the estimated input side plus one. |
| `Pricing.RealizedIsNearExact` | packages/llm/src/cost-tracker.ts:214-235 | The realized cost is the sum of the four token classes at their rates to within half a micro-cent each. |
| `Pricing.EstimateIsNearExact` | packages/llm/src/budget-estimator.ts:64-118 | The estimate is the cost of the reservation at the unbounded-prompt rates to within a micro-cent. |
| `Pricing.EstimateBoundsRealized` | packages/llm/src/budget-estimator.ts:64-118 | Under dominance at the usage's own size, a usage within the estimate costs at most the estimate, one micro-cent and its cache writes. |
| `Pricing.MonotoneEstimateBounds` | packages/llm/src/budget-estimator.ts:64-118 | For monotone prices, any usage without cache writes or media within the estimated input and reserved output costs at most the estimate plus one micro-cent. |
| `Pricing.EstimateBoundsIff` | packages/llm/src/budget-estimator.ts:64-118 | For a given input, cached input and estimated input, the estimate bounds the cost of every output within every reservation if and only if the input side fits and the output rate of the request's own tier is at most the estimate's, which is not negative. |
| `Pricing.ExtraMicrocentIsReached` | packages/llm/src/cost-tracker.ts:214-235 | A usage that exceeds the estimate by exactly that micro-cent. |
| `Pricing.OutputDominanceIsNecessary` | packages/llm/src/cost-tracker.ts:131-133 | Where the request's own tier charges more for output than the estimate assumes, some response exceeds the estimate by any margin. |
| `Pricing.OutputSignIsNecessary` | packages/llm/src/cost-tracker.ts:131-133 | Where the estimate's output rate is negative, some reservation falls short by any margin. |
| `Pricing.CostTracker.Record` | packages/llm/src/cost-tracker.ts:338-360 | Adds the cost to the running total; it is the exact cost at the tier of the whole input side, cache reads and writes included, to within half a micro-cent for each of four classes, and for monotone prices at most a micro-cent over any estimate the usage stays within. |
| `Pricing.RecordAll` | packages/llm/src/cost-tracker.ts:318-360 | The running total is the sum of the realized costs recorded. |
| `Pricing.TotalIsBounded` | packages/llm/src/cost-tracker.ts:318-360 | Across attempts the total exceeds the sum of the estimates by at most a micro-cent each. |
| `MediaReferences.ReferenceStore.AdmitBatch` | packages/db/src/media-reference-store.ts:140-181 | Admitted exactly when no descriptor contradicts the store or another of its handle; then every described handle is live, touched now and says what its descriptor says, and no other row changes. |
| `MediaReferences.ReferenceStore.AddReference` | packages/db/src/media-reference-store.ts:199-230 | Adds exactly this reference and moves exactly its handle's cursor, for recorded handles only. |
| `MediaReferences.ReferenceStore.RemoveRunReferences` | packages/db/src/media-reference-store.ts:86-110 | Drops exactly the run's references and moves the cursor of exactly the handles it held. |
| `MediaReferences.ReferenceStore.ReclaimExpired` | packages/db/src/media-reference-store.ts:113-138 | Soft-deletes and returns exactly the live, unreferenced handles whose cursor is at or before the cutoff. |
| `MediaReferences.IdentityIsImmutable` | packages/db/src/media-reference-store.ts:140-181 | A handle's type, modality, length and known duration never change, through deletion, revival and enrichment. |
| `MediaReferences.AdmissionIffConsistent` | packages/db/src/media-reference-store.ts:140-181 | A batch goes in exactly when its descriptors agree with the store, deleted rows included, and pairwise. |
| `MediaReferences.AdmissionHolds` | packages/db/src/media-reference-store.ts:140-181 | After admission the store says what every descriptor said, and unmentioned handles are as they were. |
| `MediaReferences.ReferencesAreBacked` | packages/db/src/media-reference-store.ts:199-230 | On every reachable state each reference names a recorded object. |
| `MediaReferences.CursorCoversTouches` | packages/db/src/media-reference-store.ts:86-230 | Under a non-decreasing clock the cursor is never older than any admission, reference or release of the handle. |
| `MediaReferences.ReclaimRespectsGrace` | packages/db/src/media-reference-store.ts:113-138 | A reclaimed handle is unreferenced, and nothing recorded, referenced or released it within the grace window. |
| `MediaReferences.LiveStep` | packages/db/src/media-reference-store.ts:86-230 | One operation keeps every referenced object live exactly when it references nothing soft-deleted. |
| `MediaReferences.ReferencedStaysLive` | packages/db/src/media-reference-store.ts:86-230 | Over every run, reclaims included, all referenced objects stay live at every moment exactly as long as references are only added to live ones. |
| `MediaReferences.OnlyAdmissionRevives` | packages/db/src/media-reference-store.ts:140-230 | One operation makes a soft-deleted handle live again exactly when it is a successful admission of that handle. |

## Left out

- `Plan.BuildRunPlan`: tool grants, output schemas, agent-file ceilings and the secret-leak refusal enter as one flag; vertex configuration is not modelled; distinct node ids and distinct `parallel_of` members are what the schema has already guaranteed.
- `Validation.HandleFaults`: which texts read as which numbers is an input.
- `Closure.CollectUnorderedReads`: the literal reads of each node are an input; extracting them from expression text is not modelled, nor is the code-unit sort of the stored ancestor lists.
- `Ceilings.CollectCeilingIssues`: the report's ordering is not modelled; template references are an input, with repetitions.
- `InertCopy.CopyInertData`: the walk takes the verdict and the listed properties of each container's inspection as given (`inert`, `props`); the inspection itself is `Inspection.Properties`. The typed-root bridge with its omissions, additions and exception edges is not modelled.
- `Recovery.DestructionIsExclusive`: file identities, ages, counts and the claim step that creates a claim directory are not modelled; a probe that reports an owner absent is taken to be right.
- `Maintenance.PruneIsExclusive`: the bytes written, the rename target and the identity checks on each candidate are not modelled; process-id reuse is outside the probe's assumption.
- `RunHistory.RunHistoryStore.ApplyDerived`: token columns, statuses and outputs are not modelled.
- `EffectJournal.JournalStore.Prepare`: digests, results and row ids are abstract values; audit columns and the record listings are not modelled.
- `EffectTurns.TurnKeys.Initialize`: one session at a time; session rows that are hard-deleted and scopes without a session row are not modelled, and a one-shot session is an initial state.
- `UsageCoverage.CoverageStep`: the per-model map a coverage read returns is not modelled, only its verified flag.
- `LedgerStore.Store.ChangeCoverage`: the upper bound that aborts a counter past the largest safe integer is not modelled; that no counter goes below zero is proved instead.
- `LedgerStore.Store.RecordCost`: token columns and timestamps are not modelled.
- `Pricing.MonotoneEstimateBounds`: rates and sums are exact reals, so binary floating-point error is outside the model; media pricing and provider overlays are not modelled.
- `MediaReferences.ReferenceStore.AdmitBatch`: merging duplicate descriptors before the transaction is not modelled; MIME aliases are already canonical.
- Busy retry and rollback: a retried transaction is one atomic step that either happens or does not.
- JSON text, timestamps as strings, UUIDs, SQL text and driver errors: values are abstract and writes are atomic.
- Network egress, provider adapters, YAML parsing, the command line, MCP and configuration: they sit outside the graph, copy, file, store and price logic modelled here.
