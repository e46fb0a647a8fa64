# The world kernel of Portal OS, verified

A Dafny model of the world kernel and its neighbours, with proofs about every run of it. `dafny verify
dfyconfig.toml` checks everything.

| module | what it models |
|---|---|
| `MeshRouting`, `MeshOrder`, `MeshCoordinator`, `MeshHistory` | the mesh of edges between domains and the routing table rebuilt by breadth-first search after each change |
| `DomainRegistry`, `RegistryHistory` | the registry of domains, its parent and child references, and the recursive tree reader |
| `BftNode` | a node of the consensus protocol, and clusters of nodes under arbitrary delivery |
| `Substrate`, `SubstrateHistory` | the write-through cache over a key-value store with expiry and a durable store |
| `VectorClocks`, `Lattice`, `LevelHistory`, `Causality` | clocks, the event lattice that shares them, conflict detection, and the walk through causes |
| `StateTree`, `StateRuns`, `StateHistory`, `WorldState`, `StateManager` | the state tree: paths, views, snapshots and audit log on values, and the same on linked nodes |
| `Physics`, `Collisions` | the collision pass |
| `Channel`, `ChannelHistory` | the channel between two domains: priorities, batches, acknowledgements |
| `EventSimulation`, `EventHistory` | the cascading event queue |
| `Scheduler`, `SchedulerHistory` | the kernel scheduler and its two example policies |
| `Prelude`, `Sorting` | optional values, insertion-ordered dictionaries, stable sorting |

Each component is described twice. A step function on values says what one operation does, `Run` folds it over a
history, and lemmas state what every history keeps. A class with the fields of the source carries out the operation
in place, and its methods are proved to have the step function's effect on the value the object stands for. The
modules named `History`, and `Collisions`, say what any history leaves without the step function: they read it off
the calls, or off the law the step obeys, and prove the two alike. What the
source draws from outside, such as generated identifiers, the clock and the answers of adapters, is a parameter.

Where the code differs from its own documentation the model follows the code:

- stored routes run from the world domain to a domain, although the docstring at
  `kernel/world_kernel/multi_domain_unification.py:232` says the reverse, and they need not be shortest;
- the merged state of the lattice takes the value of the deepest level, although the comment at
  `kernel/world_kernel/world_kernel_lattice.py:185` says the world overrides;
- conflict detection never excludes a pair by its clocks, since clocks are shared per domain and never merged;
- two state updates at different times always conflict, although `kernel/world_kernel/world_kernel_state.py:163-165`
  means to let sequential ones pass.

## Model

| member | source | states |
|---|---|---|
| MeshRouting.FirstDequeuesAreShortest | kernel/world_kernel/multi_domain_unification.py:262-276 | the path a node carries when it is first taken off the queue is exactly a shortest one over the healthy edges |
| MeshRouting.DequeuedIsReachable | kernel/world_kernel/multi_domain_unification.py:262-276 | a node is reachable iff it is some first dequeue, and no node is first dequeued twice |
| MeshRouting.HeadIsShortest | kernel/world_kernel/multi_domain_unification.py:262-266 | while the search runs, the path at the head of the queue is shortest whenever its node is unvisited (queue lengths stay sorted and differ by at most one) |
| MeshRouting.ExploreIsSound | kernel/world_kernel/multi_domain_unification.py:262-276 | the loop keeps the search invariant and ends with an empty queue |
| MeshRouting.DiscoveredExactly | kernel/world_kernel/multi_domain_unification.py:268-273 | one node expands exactly along its healthy edges to nodes not visited yet |
| MeshRouting.RoutesReachExactly | kernel/world_kernel/multi_domain_unification.py:253-276 | the table has a route to v iff v is not the world domain and is reachable from it over healthy edges |
| MeshRouting.RoutesAreNearlyShortest | kernel/world_kernel/multi_domain_unification.py:253-276 | each stored route is a repetition-free healthy path from the world domain, at most one hop longer than a shortest one |
| MeshRouting.RouteIsLongExactlyWhen | kernel/world_kernel/multi_domain_unification.py:273-276 | a stored route is one hop too long iff a node equally far away, dequeued earlier, has a healthy edge to its end |
| MeshRouting.StoredRouteCanBeLong | kernel/world_kernel/multi_domain_unification.py:273-276 | with edges w→a, w→b, a→b the route stored for b is w, a, b |
| MeshRouting.RouteShape | kernel/world_kernel/multi_domain_unification.py:273-276 | the route to a node extends the path of the last node dequeued before it that links to it |
| MeshRouting.LastDiscovererIsLast | kernel/world_kernel/multi_domain_unification.py:275 | `LastDiscoverer` is the last expansion that finds a healthy edge to a node not visited yet; `RouteShape` ties the table entry to it |
| MeshRouting.RebuildIsBounded | kernel/world_kernel/multi_domain_unification.py:262-276 | a rebuild ends after at most one dequeue per healthy edge and the first |
| MeshOrder.DequeuesAreFirstWalks | kernel/world_kernel/multi_domain_unification.py:262-276 | nodes are taken in the order of their first walks: shortest, and of those the one that follows the earliest edges |
| MeshOrder.RouteIsLongExactlyWhenOvertaken | kernel/world_kernel/multi_domain_unification.py:253-276 | a stored route is longer than a shortest one iff another node equally far, whose first walk is earlier, has a healthy edge to its end; read off the edges alone |
| MeshOrder.UnlevelRoutesAreShortest | kernel/world_kernel/multi_domain_unification.py:253-276 | all stored routes are shortest if no healthy edge joins two different nodes equally far from the world domain |
| MeshOrder.RoutesAreShortestExactlyWhenUnlevel | kernel/world_kernel/multi_domain_unification.py:253-276 | when each healthy edge has its reverse, all stored routes are shortest iff no healthy edge joins two different nodes equally far from the world domain |
| MeshCoordinator.RoutesFollowTheHealthyEdges | kernel/world_kernel/multi_domain_unification.py:181-276 | over every history, once one change follows the registration of the world domain, the table holds exactly the domains now reachable, each with a near-shortest healthy route |
| MeshCoordinator.RouteIsLongExactlyWhenEdgesSay | kernel/world_kernel/multi_domain_unification.py:181-276 | over every history with a rebuild after the registration of the world domain, a stored route is longer than a shortest one iff the edges let its end be overtaken |
| MeshCoordinator.HealthyLinksAreDistinct | kernel/world_kernel/multi_domain_unification.py:189-196 | two edges never run between the same two domains in the same direction |
| MeshCoordinator.RunKeepsInStep | kernel/world_kernel/multi_domain_unification.py:181-229 | once the table is the rebuild from the current edges, every later operation leaves it so |
| MeshCoordinator.NoRoutesWithoutWorld | kernel/world_kernel/multi_domain_unification.py:255-256 | as long as no world domain is registered the table stays empty |
| MeshCoordinator.WorldIsKept | kernel/world_kernel/multi_domain_unification.py:81-84 | the world domain, once set, never changes |
| MeshCoordinator.ConnectKeepsEdgeExactlyWhen | kernel/world_kernel/multi_domain_unification.py:189-196 | connecting keeps an existing edge iff its printed name differs |
| MeshCoordinator.DifferentPairsCanPrintAlike | kernel/world_kernel/multi_domain_unification.py:189 | the pairs (a, b→c) and (a→b, c) print as one edge name |
| MeshCoordinator.LookalikeReplacesEdge | kernel/world_kernel/multi_domain_unification.py:189-196 | connecting the second of those pairs leaves the mesh without the edge of the first |
| MeshHistory.EdgesFollowTheCalls | kernel/world_kernel/multi_domain_unification.py:181-229 | after any calls there is an edge under a name, and one only, iff the last call connecting or disconnecting the name connects it; it has that call's fields, and is healthy iff no later call marks it or the last one that does marks it healthy |
| MeshHistory.EdgesKeepTheirOrder | kernel/world_kernel/multi_domain_unification.py:189-211 | the edges stand in the order their names were connected since they were last disconnected; connecting a standing name again keeps its place |
| MeshHistory.RoutesFollowTheCalls | kernel/world_kernel/multi_domain_unification.py:181-276 | the world domain is the first registered; the table is the rebuild over the present healthy edges once a call has altered an edge since, and empty until then |
| MeshHistory.RoutesLeadOverTheEdges | kernel/world_kernel/multi_domain_unification.py:181-276 | read off the calls alone: there is a route to a domain iff a chain of edges connected and healthy leads to it from the world domain; it is such a chain, repeats no domain, and is at most one hop longer than any other |
| MeshHistory.HealthyLinksExactly | kernel/world_kernel/multi_domain_unification.py:269-273 | the links searched are exactly the ends of the healthy edges |
| MeshCoordinator.MeshCoordinator.EstablishConnection | kernel/world_kernel/multi_domain_unification.py:181-198 | stores the edge under its printed name and rebuilds; the new state is the connect step |
| MeshCoordinator.MeshCoordinator.DisconnectEdge | kernel/world_kernel/multi_domain_unification.py:200-211 | removes a present edge, leaving the others in order and none under its name, and rebuilds; reports whether there was one |
| MeshCoordinator.MeshCoordinator.MarkEdge | kernel/world_kernel/multi_domain_unification.py:213-229 | sets the health of a present edge, leaving every other as it was, and rebuilds; reports whether there was one |
| MeshCoordinator.MeshCoordinator.GetRouteToWorld | kernel/world_kernel/multi_domain_unification.py:231-233 | of a table in step, there is a route iff the domain is not the world domain and is reachable; it runs from the world domain to it, repeats no node and is at most one hop too long |
| MeshCoordinator.MeshCoordinator.RebuildRoutingTable | kernel/world_kernel/multi_domain_unification.py:253-276 | the search loop over the mutable queue, visited set and table computes the routes of the healthy edges |
| MeshCoordinator.MeshCoordinator.Scan | kernel/world_kernel/multi_domain_unification.py:268-276 | the inner loop enters one longer path per healthy edge to an unvisited node, in edge order, overwriting earlier entries |
| DomainRegistry.PointersStayInStep | kernel/world_kernel/multi_domain_unification.py:71-101 | over any history of registrations and removals c is on the child list of p, and then once, iff both are registered and the parent of c is p |
| DomainRegistry.HistoryKeepsConsistent | kernel/world_kernel/multi_domain_unification.py:71-170 | every change keeps child lists and parent references consistent |
| DomainRegistry.RegisterKeepsConsistent | kernel/world_kernel/multi_domain_unification.py:71-101 | a registration keeps child lists and parent references consistent, adds exactly one record, and sets the world domain iff its tier is world |
| DomainRegistry.UnregisterKeepsConsistent | kernel/world_kernel/multi_domain_unification.py:151-170 | a removal keeps child lists and parent references consistent, removes exactly one record, and leaves the world domain as it was |
| DomainRegistry.TreeListsDescendantsOnce | kernel/world_kernel/multi_domain_unification.py:132-143 | the tree under a domain has each domain once if its chain of registered parents reaches it, and no other |
| DomainRegistry.SiblingsAreDisjoint | kernel/world_kernel/multi_domain_unification.py:139-142 | no domain lies under two children of one domain |
| DomainRegistry.AncestorsAreComparable | kernel/world_kernel/multi_domain_unification.py:91-93 | two ancestors of a domain lie on one chain |
| RegistryHistory.RecordsFollowTheCalls | kernel/world_kernel/multi_domain_unification.py:71-170 | after any calls a domain is registered iff its last registration was not of a second world domain and it was not removed since; its record says what that call said, its state is the last one set since, and the world domain is the first one asked for |
| RegistryHistory.ListsFollowTheCalls | kernel/world_kernel/multi_domain_unification.py:88-93 | after any calls the list of a domain has exactly the registered domains that name it as parent, in the order registered |
| DomainRegistry.TreeShows | kernel/world_kernel/multi_domain_unification.py:132-143 | each node of the tree has the name, tier and state of its domain, and under it, in order of registration, exactly the domains that name it as parent |
| DomainRegistry.DomainRegistry.RegisterDomain | kernel/world_kernel/multi_domain_unification.py:71-101 | fails iff a second world domain is registered, and otherwise is the registration step |
| DomainRegistry.DomainRegistry.Enrol | kernel/world_kernel/multi_domain_unification.py:86-93 | storing a registration and appending it to its parent keeps objects and records in step |
| DomainRegistry.DomainRegistry.UnregisterDomain | kernel/world_kernel/multi_domain_unification.py:151-170 | removes the domain from its parent and the registry, and reports whether it was there |
| DomainRegistry.DomainRegistry.Strike | kernel/world_kernel/multi_domain_unification.py:158-164 | taking a domain off its parent and out of the dictionary keeps objects and records in step |
| DomainRegistry.DomainRegistry.UpdateDomainState | kernel/world_kernel/multi_domain_unification.py:107-125 | changes the state of that domain alone |
| DomainRegistry.DomainRegistry.BuildTree | kernel/world_kernel/multi_domain_unification.py:132-143 | the recursive reader ends, meets no missing child, and builds the tree of the records |
| DomainRegistry.DomainRegistry.GetDomainTree | kernel/world_kernel/multi_domain_unification.py:127-145 | nothing without a world domain, a key error once it was removed, and otherwise each domain under it exactly once |
| BftNode.CommittedLogsAgree | governance/global_consensus_protocol/hierarchical_bft.py:82-120 | nodes of any cluster whose accepted sequences are prefixes of one order always have committed logs one of which is a prefix of the other, under any delivery, repetition or forging |
| BftNode.AgreementNeedsCommonOrder | governance/global_consensus_protocol/hierarchical_bft.py:82-120 | two nodes agree under every delivery of commit messages iff one has accepted a prefix of what the other has |
| BftNode.RunKeepsLedger | governance/global_consensus_protocol/hierarchical_bft.py:82-120 | committed followed by pending is always the sequence accepted |
| BftNode.ClusterRunsNodes | governance/global_consensus_protocol/hierarchical_bft.py:82-120 | in an interleaved run of a cluster each node does what its own deliveries make it do |
| BftNode.CommitsNeedQuorum | governance/global_consensus_protocol/hierarchical_bft.py:108-120 | a delivery commits iff it is a commit message that brings the distinct senders for its view and sequence to 2f+1 or more while a proposal is pending, and it then commits the oldest pending one |
| BftNode.VotesAreCommitters | governance/global_consensus_protocol/hierarchical_bft.py:111-113 | the votes held for a key are exactly the senders that sent a commit message for it |
| BftNode.VotesArePreparers | governance/global_consensus_protocol/hierarchical_bft.py:98-106 | the votes held as prepared for a key within the watermarks are exactly the senders of prepare messages for it, and none are held for other keys |
| BftNode.NodeFollowsTheDeliveries | governance/global_consensus_protocol/hierarchical_bft.py:82-120 | any deliveries leave the proposals accepted, each answered by a prepare message of the node; committed the first of them, one for each commit message that came with a quorum while one was left; and pending the rest in order |
| BftNode.ReportAfter | governance/global_consensus_protocol/hierarchical_bft.py:82-120 | after any deliveries, a pre-prepare reports whether its view is not old and its sequence within 0 and 1000; a prepare, whether also 2f+1 distinct senders have now prepared its key; a commit, whether 2f+1 have committed it and a proposal was left |
| BftNode.CommitTakesNextAccepted | governance/global_consensus_protocol/hierarchical_bft.py:115-118 | the i-th commit takes the i-th proposal accepted |
| BftNode.CommitsTakeOwnExactlyWhen | governance/global_consensus_protocol/hierarchical_bft.py:108-120 | over every run of a new node, each commit takes a proposal accepted under the key of the committing message iff the keys that come with a quorum while a proposal is left are, in order, the first of the keys accepted; both lists are read off the deliveries |
| BftNode.CommittingKeysExactly | governance/global_consensus_protocol/hierarchical_bft.py:108-120 | the keys that the deliveries let commit, by distinct senders and by how many were accepted and committed before, are those of the node's actual commits |
| BftNode.CommitTakesOwnExactlyWhen | governance/global_consensus_protocol/hierarchical_bft.py:115-118 | of proposals accepted once each, a commit message commits one accepted under its own key iff that is the key of the next accepted |
| BftNode.QuorumCanCommitAnotherKey | governance/global_consensus_protocol/hierarchical_bft.py:115-118 | a quorum for one sequence commits a proposal that was accepted under another |
| BftNode.FloodCommits | governance/global_consensus_protocol/hierarchical_bft.py:113-119 | from the (2f+1)-st sender on, each further commit message commits one more proposal |
| BftNode.CanCommitAll | governance/global_consensus_protocol/hierarchical_bft.py:108-120 | some commit messages make a node commit everything it accepted |
| BftNode.CommittedIsPrefix | governance/global_consensus_protocol/hierarchical_bft.py:108-120 | commit messages never commit anything but a prefix of what was accepted |
| BftNode.QuorumsShareHonestSenders | governance/global_consensus_protocol/hierarchical_bft.py:113-114 | with 3f+1 members, at most f faulty, a quorum has f+1 honest ones, and two quorums for one key share f+1 senders, one of them honest |
| BftNode.KeysPrintApart | governance/global_consensus_protocol/hierarchical_bft.py:103-111 | different pairs of view and sequence print as different keys |
| BftNode.BftNode.OnPrePrepare | governance/global_consensus_protocol/hierarchical_bft.py:82-96 | accepts the proposal, leaves it pending and records a prepare message iff the view is not old and the sequence is within the watermarks |
| BftNode.BftNode.OnPrepare | governance/global_consensus_protocol/hierarchical_bft.py:98-106 | counts the sender and reports whether 2f+1 distinct ones have prepared |
| BftNode.BftNode.OnCommit | governance/global_consensus_protocol/hierarchical_bft.py:108-120 | counts the sender, commits the oldest pending proposal once 2f+1 distinct ones have committed, and reports whether it did |
| Substrate.ReadsReturnLatest | substrate/index.ts:165-246 | over any run in which each key keeps one durability, a read gives the most recently written value or nothing, and nothing from one default refill after the store dropped it |
| Substrate.ReadsServeWhatIsStored | substrate/index.ts:196-227 | a read never misses a value its store still holds, whatever was evicted or expired, and a key never written or since deleted reads as nothing |
| Substrate.RunKeepsCoherent | substrate/index.ts:165-246 | cache, key-value store and durable store agree with the latest writes after every operation |
| Substrate.RunKeepsStored | substrate/index.ts:165-246 | the store a key belongs to always holds the value it stands under |
| Substrate.TransactionModifiesLatest | substrate/index.ts:306-315 | a transaction applies its modifier to the latest value while a store holds it, and afterwards to that or to nothing; what it wrote is then the latest |
| Substrate.EvictionTakesOldest | substrate/index.ts:350-358 | a full cache loses exactly one entry, the first of those that expire soonest |
| Substrate.OldestIsLeast | substrate/index.ts:353-356 | the reduction over the cache finds the first entry of least expiry |
| Substrate.WriteKeepsBounded | substrate/index.ts:165-191 | a write, whether or not the adapters answer, keeps the cache at 1000 entries with distinct keys |
| Substrate.ReadKeepsBounded | substrate/index.ts:196-227 | a read, whether or not the adapters answer, keeps the cache at 1000 entries with distinct keys |
| Substrate.StalenessBoundIsSharp | substrate/index.ts:38-51 | a read just before the store drops a value serves it for a whole default refill more, to the millisecond |
| Substrate.NothingOlderComesBackExactlyWhen | substrate/index.ts:165-246 | however the layer is used until the key is next written or deleted, and whichever adapters answer, reads of the key give v or nothing iff the live cached and key-value entries of the key are v and so is the durable one, unless a key-value entry that never expires covers it |
| Substrate.NeverOlderExactlyWhen | substrate/index.ts:196-227 | the reads of the key from now on, with the cache as it is or emptied, give v or nothing iff the same holds |
| Substrate.WriteIsFinalExactlyWhen | substrate/index.ts:165-191 | after a write nothing older can come back iff it reached the key-value store or no other live value is there, and reached the durable store, or no other value is there, or a key-value entry that never expires covers it |
| SubstrateHistory.WriteIsReadBack | substrate/index.ts:165-191 | whichever adapters there are and answer, a value written is read back in any weather until its time to live has passed |
| SubstrateHistory.ReadAfterWriteExactly | substrate/index.ts:165-227 | exactly what a read gives at any time after a write: the value until its time to live has passed, then what the key-value store holds, which is the value for a thousand times as long if it took it, then what the durable store holds |
| SubstrateHistory.WriteIsReadBackThrough | substrate/index.ts:165-246 | while fewer than 1000 keys are in use that holds through anything done meanwhile that neither writes nor deletes the key nor clears the cache |
| SubstrateHistory.WriteIsReadBackWhileKept | substrate/index.ts:165-246 | however full the cache, it holds through anything that neither writes, deletes, clears nor evicts the key |
| SubstrateHistory.ReadIsReadBack | substrate/index.ts:196-227 | a value read from a store is read again, in any weather, for a minute |
| SubstrateHistory.ReadExactly | substrate/index.ts:196-227 | a read gives the live cached value, or what the key-value store holds and nothing if that fails, or what the durable store holds if it answers |
| SubstrateHistory.WriteLeavesOthers | substrate/index.ts:165-191 | a write leaves what the stores hold of other keys, and the cached value of another key unless the cache was full and this the one to go |
| Substrate.MixedDurabilityServesOlderExactlyWhen | substrate/index.ts:170-182 | a durable write lets an older value come back iff the key-value store still holds one; one that is not durable, iff the durable store does and the value written can expire or is null |
| Substrate.FailedWriteServesOlderExactlyWhen | substrate/index.ts:186-190 | a write the store refuses lets an older value come back iff a store holds one that it will be asked for |
| Substrate.DeleteIsFinalExactlyWhen | substrate/index.ts:232-246 | after a delete no later use of the layer reads a value of the key, until it is written again, iff no store that the delete did not reach holds one |
| Substrate.FailedDeleteServesAgain | substrate/index.ts:232-246 | a key deleted while the key-value store does not answer can be read again |
| Substrate.MixedDurabilityServesOlder | substrate/index.ts:170-182 | a key written under both durabilities can come back with its older value |
| Substrate.FailedWriteServesOlder | substrate/index.ts:186-190 | a key whose last write the store refused can come back with its older value |
| Substrate.SubstrateLayer.WriteKey | substrate/index.ts:165-191 | writes to the store of its durability and caches the value for its time to live, in the cache alone when there is no such store or it fails |
| Substrate.SubstrateLayer.ReadKey | substrate/index.ts:196-227 | answers from the cache, the key-value store, then the durable store, and refills the cache |
| Substrate.SubstrateLayer.DeleteKey | substrate/index.ts:232-246 | deletes from the cache and both stores, stopping at one that fails |
| Substrate.SubstrateLayer.Transaction | substrate/index.ts:306-315 | returns and writes the modifier of what a read returned |
| Substrate.SubstrateLayer.FindOldest | substrate/index.ts:353-355 | the loop finds the first entry of least expiry |
| Substrate.SubstrateLayer.UpdateLocalCache | substrate/index.ts:350-363 | evicts when full and stores under the new expiry |
| Substrate.SubstrateLayer.GetFromCache | substrate/index.ts:368-380 | returns a live entry, and removes an expired one |
| VectorClocks.BeforeIsStrictOrder | kernel/world_kernel/world_kernel_lattice.py:39-49 | happens-before is irreflexive, asymmetric and transitive, absent entries reading as zero |
| VectorClocks.IncrementAdvances | kernel/world_kernel/world_kernel_lattice.py:30-32 | an increment is a least strict advance of the entry of its domain |
| VectorClocks.MergeIsMaximumExactlyWhen | kernel/world_kernel/world_kernel_lattice.py:34-37 | the merge is the entrywise maximum iff no entry that only this clock has is negative |
| VectorClocks.MergeIsLeastUpperBound | kernel/world_kernel/world_kernel_lattice.py:34-37 | on clocks without negative entries the merge is the least upper bound |
| VectorClocks.MergeIsSemilattice | kernel/world_kernel/world_kernel_lattice.py:34-37 | on clocks without negative entries the merge is commutative, associative and idempotent up to entries of zero |
| VectorClocks.VectorClock.Increment | kernel/world_kernel/world_kernel_lattice.py:30-32 | the clock in place becomes the incremented one |
| VectorClocks.VectorClock.Update | kernel/world_kernel/world_kernel_lattice.py:34-37 | the loop in place computes the merge in whatever order it visits entries, and also for a clock merged with itself |
| VectorClocks.VectorClock.HappensBefore | kernel/world_kernel/world_kernel_lattice.py:39-49 | the loop with its early exit decides happens-before |
| VectorClocks.VectorClock.ConcurrentWith | kernel/world_kernel/world_kernel_lattice.py:51-53 | neither clock happens before the other |
| Lattice.WorldKernelLattice.SubmitEvent | kernel/world_kernel/world_kernel_lattice.py:153-168 | keeps every logged event on the one clock object of its domain, which holds the number of its submissions alone; adds the event to the lowest level with its domain, and reports whether there is one |
| Lattice.WorldKernelLattice.Stamp | kernel/world_kernel/world_kernel_lattice.py:155-160 | advances the clock of the domain, shares it with the event and logs the event |
| Lattice.WorldKernelLattice.Tick | kernel/world_kernel/world_kernel_lattice.py:156 | the domain has one more submission and keeps its clock object |
| Lattice.WorldKernelLattice.ClockOf | kernel/world_kernel/world_kernel_lattice.py:138 | the clock of a domain is made on first use and is no other domain's |
| Lattice.BumpKeepsTallied | kernel/world_kernel/world_kernel_lattice.py:156-160 | counting an event with the log keeps the counts equal to the numbers of submissions |
| Lattice.WorldKernelLattice.LoggedAreConcurrent | kernel/world_kernel/world_kernel_lattice.py:51-53 | any two logged events have concurrent clocks |
| Lattice.SingleEntriesAreConcurrent | kernel/world_kernel/world_kernel_lattice.py:39-53 | clocks of one entry each are concurrent when of different domains, and with themselves |
| Lattice.WorldKernelLattice.DetectConflicts | kernel/world_kernel/world_kernel_lattice.py:218-230 | returns exactly the pairs of logged events with one state key, the comparison of clocks never excluding one |
| Lattice.ConflictsOfRun | kernel/world_kernel/world_kernel_lattice.py:153-230 | whatever events are submitted to a new lattice, in any order, the conflicts reported are exactly the pairs with one state key, in the order submitted |
| Lattice.SubmitAll | kernel/world_kernel/world_kernel_lattice.py:153-168 | submitting events one after another logs just those, in that order, on the clocks of their domains |
| Lattice.WorldKernelLattice.ConflictsWith | kernel/world_kernel/world_kernel_lattice.py:223-228 | the inner loop returns those of one event |
| Lattice.SameKeyPairsExactly | kernel/world_kernel/world_kernel_lattice.py:222-228 | the pairs of log positions with one state key are listed once each, in log order |
| Lattice.WorldKernelLattice.ConflictsAfterPropagation | kernel/world_kernel/world_kernel_lattice.py:218-273 | after an event is propagated to the world, the conflicts detected include it with the event it was propagated from |
| Lattice.WorldKernelLattice.PropagateToWorld | kernel/world_kernel/world_kernel_lattice.py:257-273 | logs one fresh commit event of the world domain with the key and value of the event found and naming it as parent, added to the lowest level with the world domain alone, or does nothing |
| Lattice.WorldKernelLattice.DetermineLevel | kernel/world_kernel/world_kernel_lattice.py:249-255 | the lowest level with the domain, and 3 when there is none |
| Lattice.WorldKernelLattice.AddToLevel | kernel/world_kernel/world_kernel_lattice.py:162-168 | adds to that level alone, and reports whether there is one |
| Lattice.WorldKernelLattice.CreateLevel | kernel/world_kernel/world_kernel_lattice.py:140-151 | adds a new empty level of that name and those domains, or leaves an existing one |
| Lattice.WorldKernelLattice.GetGlobalState | kernel/world_kernel/world_kernel_lattice.py:181-194 | has the keys of all levels, each with the value of the deepest level that has it |
| Lattice.AddKeepsSettled | kernel/world_kernel/world_kernel_lattice.py:94-101 | adding an event keeps a level's events those committed and those pending |
| Lattice.CommitKeepsSettled | kernel/world_kernel/world_kernel_lattice.py:103-112 | committing an event keeps a level's events those committed and those pending, and its state the replay of the commits |
| LevelHistory.LevelFollowsTheCalls | kernel/world_kernel/world_kernel_lattice.py:94-112 | after any calls a level has exactly the events added of its domains, in order; under an identifier the last one added waits until committed; the committed identifiers are those of the events taken so, and each key of the state has the value of the last of them with that key |
| Lattice.LatticeLevel.AddEvent | kernel/world_kernel/world_kernel_lattice.py:94-101 | appends the event and leaves it pending iff its domain is of the level |
| Lattice.LatticeLevel.CommitEvent | kernel/world_kernel/world_kernel_lattice.py:103-112 | moves a pending event to the committed and stores its value, refused iff it is not pending |
| Causality.GetCausalityChain | kernel/world_kernel/world_kernel_lattice.py:196-216 | ends even on cyclic parents and returns each logged event reachable through logged parents once, the query last and every other before one that names it |
| Causality.Traverse | kernel/world_kernel/world_kernel_lattice.py:201-213 | one traversal visits only what it reaches and appends a closed, justified chain |
| Causality.ClosedReachesAll | kernel/world_kernel/world_kernel_lattice.py:201-213 | a closed chain has visited all that is reachable |
| Causality.ReversedIsJustified | kernel/world_kernel/world_kernel_lattice.py:216 | reversing turns "after one that names it" into "before" |
| StateTree.JoinSplit | kernel/world_kernel/world_kernel_state.py:94-100 | joining the parts of a dotted path gives the path back |
| StateTree.PartsHaveNoDots | kernel/world_kernel/world_kernel_state.py:96 | no part of a path has a dot in it |
| StateTree.SplitIsInjective | kernel/world_kernel/world_kernel_state.py:96 | paths with the same parts are the same |
| StateTree.PathPrints | kernel/world_kernel/world_kernel_state.py:68-72 | the root's name and the parts of p, joined by dots, are the root's name, a dot and p |
| StateTree.TouchExactly | kernel/world_kernel/world_kernel_state.py:94-100 | reaching a path adds exactly its missing prefixes, blank, and changes nothing else |
| StateTree.ViewIsLocal | kernel/world_kernel/world_kernel_state.py:74-78 | what is seen at a node depends on the nodes below it alone |
| StateTree.TouchedElsewhere | kernel/world_kernel/world_kernel_state.py:211-217 | reading a path changes what is seen at its prefixes only |
| StateTree.WrittenElsewhere | kernel/world_kernel/world_kernel_state.py:120-155 | writing a path changes what is seen at its prefixes only |
| StateTree.WriteIsReadBackExactlyWhen | kernel/world_kernel/world_kernel_state.py:74-86 | what was written is what is read back iff the node has no children or they already showed the very dictionary written |
| StateTree.WrittenShows | kernel/world_kernel/world_kernel_state.py:74-86 | after a write its node shows the value written if it has no children, and otherwise what it showed before |
| StateTree.DictIsReadBackOverChildren | kernel/world_kernel/world_kernel_state.py:74-86 | with "1" at x.a, the dictionary {"a": "1"} written at x is read back although x has a child |
| StateTree.ReadDisturbsExactlyWhen | kernel/world_kernel/world_kernel_state.py:211-217 | reading q changes what is seen at r iff q was absent and r is a proper prefix of it, except where r is there and the last node on the way has no children and holds just the nested dictionaries that the missing nodes will show |
| StateTree.MadeShows | kernel/world_kernel/world_kernel_state.py:74-100 | the nodes a read makes show one nested dictionary for each name, with nothing at the end |
| StateTree.ForeshownReadIsNotSeen | kernel/world_kernel/world_kernel_state.py:211-217 | with {"y": None} at x, reading the absent x.y leaves what is seen at x as it was |
| StateTree.DifferenceRises | kernel/world_kernel/world_kernel_state.py:76-77 | a difference at a node shows at every node above it |
| StateHistory.UpdateIsTakenInExactlyWhen | kernel/world_kernel/world_kernel_state.py:120-149 | after any run an update is taken in iff the last set of domains given for its path, if any was, lists its domain; it is then logged as asked with the value its node held, and otherwise nothing changes |
| StateHistory.LogFollowsTheSteps | kernel/world_kernel/world_kernel_state.py:132-142 | after any run the log has exactly the updates taken in, in order, each as it was asked for |
| StateHistory.EntriesWereAdmitted | kernel/world_kernel/world_kernel_state.py:281-285 | each log entry is an update of the run whose domain was in the set last given for its path before it, if any was |
| StateHistory.AccessFollowsTheSteps | kernel/world_kernel/world_kernel_state.py:245-251 | after any run a path is restricted iff it was given a set of domains, and to the last one given |
| StateHistory.TreeFollowsTheSteps | kernel/world_kernel/world_kernel_state.py:94-232 | after any run there is a node at exactly the paths reached by the updates taken in, the resolutions and the reads, a restore going back to those before its snapshot; version, value and owner are the number, value and domain of the writes there; the same of every snapshot |
| StateRuns.LogReplaysToTree | kernel/world_kernel/world_kernel_state.py:120-155 | over any updates, reads and snapshots each version is the number of log entries at its path, each value that of the last, and each old value the new value of the one before |
| StateRuns.ApplyKeepsReplay | kernel/world_kernel/world_kernel_state.py:132-149 | each update, read, snapshot and access change keeps the log replaying to the tree |
| StateRuns.StartReplays | kernel/world_kernel/world_kernel_state.py:106-118 | the empty log replays to the empty manager's tree |
| StateRuns.ResolutionIsNotLogged | kernel/world_kernel/world_kernel_state.py:205-207 | resolving a conflict writes without logging, after which the log no longer replays |
| StateRuns.UnrestoredLogReplaysExactlyWhen | kernel/world_kernel/world_kernel_state.py:120-217 | over every run without restores the log replays to the tree iff nothing was resolved |
| StateRuns.LogReplaysExactlyWhenWritesAgree | kernel/world_kernel/world_kernel_state.py:120-232 | over every run, resolutions and restores among it, the log replays to the tree iff at every path it has as many entries, and the same last value, as the writes the tree has taken in |
| StateRuns.LogReplaysExactlyWhen | kernel/world_kernel/world_kernel_state.py:120-232 | after any updates, reads, snapshots and restores, the log replays to the tree iff the tree has taken in as many updates as are logged |
| StateRuns.FollowKeepsDescended | kernel/world_kernel/world_kernel_state.py:120-232 | over any steps at all the tree, and each snapshot, replays the writes it has taken in, logged or not |
| StateRuns.LogReplaysThroughRestores | kernel/world_kernel/world_kernel_state.py:120-232 | if each restore finds as many updates logged as its snapshot had taken in, the log replays to the tree and each old value is the new value of the entry before |
| StateRuns.RestoreReplaysExactlyWhen | kernel/world_kernel/world_kernel_state.py:219-232 | restoring a snapshot that the log replayed to, after any other steps, leaves the log replaying to the tree iff nothing was logged since |
| StateRuns.RestoreAfterUpdateBreaksReplay | kernel/world_kernel/world_kernel_state.py:225-232 | after a snapshot, an update and a restore the log no longer replays |
| StateRuns.UpdateKeepsOldValuesExactlyWhen | kernel/world_kernel/world_kernel_state.py:132-146 | an update records as old value that of the last entry at its path iff the node holds it |
| StateRuns.SnapshotRoundTrip | kernel/world_kernel/world_kernel_state.py:296-328 | serializing and reading back gives the same nodes, contents and names |
| StateRuns.SerializeHolds | kernel/world_kernel/world_kernel_state.py:298-308 | the nested data has exactly the nodes below, each with its content and name |
| StateRuns.FlattenExactly | kernel/world_kernel/world_kernel_state.py:314-326 | reading nested data gives exactly its nodes |
| StateRuns.RestoreBringsBack | kernel/world_kernel/world_kernel_state.py:219-232 | restoring a snapshot after any later updates, reads, resolutions, snapshots and restores shows at every path what it showed then |
| StateRuns.SnapshotIsKept | kernel/world_kernel/world_kernel_state.py:219-223 | no later step changes a snapshot |
| WorldState.StateNode.PathIsJoined | kernel/world_kernel/world_kernel_state.py:68-72 | following parents prints the names on the way from the root, joined by dots |
| WorldState.StateNode.PrintsPath | kernel/world_kernel/world_kernel_state.py:68-72 | the node at path p below the root prints as the root's name, a dot and p |
| WorldState.DifferentPathsDifferentNodes | kernel/world_kernel/world_kernel_state.py:94-100 | different paths lead to different nodes |
| WorldState.StateNode.ValueIsView | kernel/world_kernel/world_kernel_state.py:74-78 | the recursive reader returns the view of the tree |
| WorldState.StateNode.SnapIsTree | kernel/world_kernel/world_kernel_state.py:298-308 | the recursive writer returns the nested data of the tree |
| WorldState.StateNode.CreateChild | kernel/world_kernel/world_kernel_state.py:88-92 | makes an absent child with its parent set and returns a present one; the heap stands for the grown tree |
| WorldState.StateNode.SetValue | kernel/world_kernel/world_kernel_state.py:80-86 | sets value and owner and advances the version of that node alone |
| WorldState.StateNode.GetOrCreatePath | kernel/world_kernel/world_kernel_state.py:94-100 | the loop reaches the node at the path, which prints as the root's name, a dot and the path, and the heap stands for the touched tree |
| WorldState.StateNode.WritePath | kernel/world_kernel/world_kernel_state.py:133-149 | returns the old value, and the heap stands for the tree written at the path |
| WorldState.StateNode.ReadPath | kernel/world_kernel/world_kernel_state.py:216-217 | returns the view at the path, and the heap stands for the touched tree |
| WorldState.Deserialize | kernel/world_kernel/world_kernel_state.py:312-328 | builds from fresh nodes, with parents set, the tree the data stands for, in any order of children |
| WorldState.DeserializeChild | kernel/world_kernel/world_kernel_state.py:323-324 | stores one more child, built from fresh nodes, and keeps those already built |
| StateManager.PerformAll | kernel/world_kernel/world_kernel_state.py:120-251 | whatever calls a client makes on one manager, in any order, its state is that of the run of those steps on values, so every result about runs holds of the object |
| StateManager.FirstGreatest | kernel/world_kernel/world_kernel_state.py:189-193 | the first greatest update by a key |
| StateManager.WorldKernelState.UpdateState | kernel/world_kernel/world_kernel_state.py:120-155 | refuses the update iff the path is restricted to domains without this one, and otherwise logs and writes it; a refusal changes nothing |
| StateManager.WorldKernelState.GetState | kernel/world_kernel/world_kernel_state.py:211-217 | returns the view and is the read step, which makes missing nodes |
| StateManager.WorldKernelState.CreateSnapshot | kernel/world_kernel/world_kernel_state.py:219-223 | stores nested data that reads back as exactly the present tree |
| StateManager.WorldKernelState.RestoreSnapshot | kernel/world_kernel/world_kernel_state.py:225-232 | rebuilds the tree, all from fresh nodes, as it was at the snapshot, and reports whether there is one |
| StateManager.WorldKernelState.DetectConflict | kernel/world_kernel/world_kernel_state.py:157-173 | two updates conflict iff they name one path at different times |
| StateManager.WorldKernelState.ResolveConflict | kernel/world_kernel/world_kernel_state.py:175-209 | writes the update the strategy asks for the first time, and returns it without writing afterwards |
| StateManager.ChosenResolves | kernel/world_kernel/world_kernel_state.py:187-201 | the update chosen has the latest time, the earliest time or the greatest priority by strategy, and is the first of equals; or is the resolver's, or the first without one |
| StateManager.WorldKernelState.ApplyResolution | kernel/world_kernel/world_kernel_state.py:205-207 | writes the tree and leaves the log alone |
| StateManager.WorldKernelState.SetAccessControl | kernel/world_kernel/world_kernel_state.py:245-251 | restricts one path to the given domains and changes nothing else |
| Physics.CollisionPassConserves | sim/world_simulation_engine/physics_engine.py:172-206 | with positive masses and elasticities in [0, 1] a whole pass completes, keeps total kinetic energy iff each body it resolves is perfectly elastic or left at rest, and otherwise loses some; with all elasticities 1 it also keeps total momentum |
| Collisions.CollisionRebounds | sim/world_simulation_engine/physics_engine.py:191-206 | the bodies rebound keeping momentum and reversing their relative velocity, and each leaves with its elasticity times that velocity, nothing else of it changed |
| Collisions.ReboundIsUnique | sim/world_simulation_engine/physics_engine.py:194-199 | those two equations leave one choice of velocities only |
| Collisions.CollisionLeavesEnergy | sim/world_simulation_engine/physics_engine.py:191-206 | the kinetic energy left is of each undamped velocity its elasticity squared, and those together have the energy there was |
| Collisions.EqualElasticitiesScale | sim/world_simulation_engine/physics_engine.py:191-206 | bodies of one elasticity leave with momentum and reversed relative velocity both scaled by it |
| Collisions.PassResolvesItsCollisions | sim/world_simulation_engine/physics_engine.py:172-206 | a pass is its recorded collisions, each resolved once by that law, in order, the last one not if it raised; no other body changes |
| Physics.CollisionsAreTheTouchingPairs | sim/world_simulation_engine/physics_engine.py:172-189 | a pass records the touching pairs in order, judged by the bodies before it; it raises iff a touching pair has masses that cancel |
| Physics.PassRecords | sim/world_simulation_engine/physics_engine.py:177-181 | resolving a pair never makes or breaks a later one, and changes velocities only |
| Physics.CollisionEnergy | sim/world_simulation_engine/physics_engine.py:191-206 | one collision keeps kinetic energy iff each body is perfectly elastic or left at rest, and otherwise loses some; perfectly elastic bodies also keep momentum |
| Physics.ExchangeConserves | sim/world_simulation_engine/physics_engine.py:194-199 | the exchange of velocities, before damping, keeps momentum and energy whenever the masses do not cancel |
| Physics.DampingLoses | sim/world_simulation_engine/physics_engine.py:204-206 | damping keeps energy iff the elasticity is 1 or the body is at rest, and otherwise loses some |
| Physics.CollidingComparesDistance | sim/world_simulation_engine/physics_engine.py:183-189 | comparing squares decides whether the distance is below the sum of the radii |
| Physics.PairsAreAll | sim/world_simulation_engine/physics_engine.py:177-178 | the two loops visit each pair of positions once, in order |
| Physics.PhysicsObject.CalculateKineticEnergy | sim/world_simulation_engine/physics_engine.py:110-113 | the kinetic energy of the body |
| Physics.PhysicsEngine.DetectCollisions | sim/world_simulation_engine/physics_engine.py:172-181 | the nested loops over the objects compute the pass and name its pairs by identifier |
| Physics.PhysicsEngine.CheckCollision | sim/world_simulation_engine/physics_engine.py:183-189 | decides whether two bodies touch |
| Physics.PhysicsEngine.ResolveCollision | sim/world_simulation_engine/physics_engine.py:191-206 | leaves both bodies as one collision does, or raises iff the masses cancel |
| Physics.PhysicsEngine.VisitPair | sim/world_simulation_engine/physics_engine.py:177-181 | records and resolves one pair if it touches, and changes no other body |
| Channel.AcceptedLeaveOnceInOrder | kernel/world_kernel/inter_domain_channels.py:117-158 | over any calls each accepted message is flushed once or waits in one place, and critical and other messages each leave in the order sent |
| Channel.NoRegularLeavesWhileCriticalWaits | kernel/world_kernel/inter_domain_channels.py:210-222 | when a flush lets a regular message out, every critical message accepted has left before it |
| Channel.RunIsOrdered | kernel/world_kernel/inter_domain_channels.py:117-222 | messages are numbered as sent, and those of each kind are the ones flushed followed by the ones waiting |
| Channel.BatchTakes | kernel/world_kernel/inter_domain_channels.py:210-222 | a batch is the oldest critical messages, then the oldest others only if none is left, up to the capacity |
| Channel.Least | kernel/world_kernel/inter_domain_channels.py:60-64 | the heap gives up a message none other of which is less |
| Channel.RegularsAreBounded | kernel/world_kernel/inter_domain_channels.py:131-134 | the regular queue never exceeds the capacity |
| Channel.CriticalsAreUnbounded | kernel/world_kernel/inter_domain_channels.py:131-149 | the critical queue has no bound: with capacity 1, any number is accepted |
| Channel.ThrottleBoundsInFlight | kernel/world_kernel/inter_domain_channels.py:126-129 | while backpressure is on, the number in flight stays within the maximum, or within the number when it was switched on if that was greater |
| Channel.AverageIsOfLatencies | kernel/world_kernel/inter_domain_channels.py:188-197 | the average latency times the number of acknowledgements is the sum of the times from sending to acknowledging; messages in flight are those pending |
| Channel.PendingExactlyUntilAcknowledged | kernel/world_kernel/inter_domain_channels.py:151-199 | a message that wants an acknowledgement is pending until its one acknowledgement, and each is counted |
| ChannelHistory.SendIsTakenExactlyWhen | kernel/world_kernel/inter_domain_channels.py:117-158 | after any calls a send is taken in iff not as many as 100 acknowledgements are awaited under backpressure and fewer regular messages wait than the capacity, both counted from the calls; it is then recorded as sent, and otherwise only counted as dropped |
| ChannelHistory.HistoryFollowsTheCalls | kernel/world_kernel/inter_domain_channels.py:117-158 | after any calls the history has exactly the messages taken in, numbered in that order, and the others are counted |
| ChannelHistory.ChannelStands | kernel/world_kernel/inter_domain_channels.py:117-222 | after any calls as many messages of each kind wait, and the same acknowledgements are awaited, as the calls say |
| ChannelHistory.WaitingFollowsTheCalls | kernel/world_kernel/inter_domain_channels.py:117-222 | what waits is the last messages taken in of each kind, and a flush lets out the first of those, critical ones before the others, as many as the capacity |
| Channel.InterDomainChannel.SendMessage | kernel/world_kernel/inter_domain_channels.py:117-158 | drops the message under backpressure or when the queue is full, and otherwise queues and records a fresh one |
| Channel.InterDomainChannel.Post | kernel/world_kernel/inter_domain_channels.py:146-157 | queues and records a new message |
| Channel.InterDomainChannel.AcknowledgeMessage | kernel/world_kernel/inter_domain_channels.py:178-208 | takes a pending message out of flight, counts and marks it, and keeps marked exactly the acknowledged ones |
| Channel.InterDomainChannel.Measure | kernel/world_kernel/inter_domain_channels.py:188-197 | takes a message out of flight and its latency into the average |
| Channel.InterDomainChannel.FlushOutbound | kernel/world_kernel/inter_domain_channels.py:210-222 | returns the batch and is the flush step |
| Channel.InterDomainChannel.DrainPriority | kernel/world_kernel/inter_domain_channels.py:214-216 | the loop takes least messages off the heap until it is empty or the batch is full |
| Channel.InterDomainChannel.DrainRegular | kernel/world_kernel/inter_domain_channels.py:218-220 | the loop takes messages off the front of the queue until it is empty or the batch is full |
| EventSimulation.ProcessingLogsSortedThenChildren | sim/world_simulation_engine/event_simulation.py:91-129 | processing raises iff a queued event cascades below the lowest priority; otherwise it logs the stably sorted queue and then the children in the order of their parents, restores the depth and returns their number |
| EventSimulation.ProcessingStopsAtFirstFailing | sim/world_simulation_engine/event_simulation.py:91-129 | when it raises, the event at fault is lost, those before it are logged, those after it and the children so far stay queued, and the depth stays one higher |
| EventSimulation.DepthCountsFailures | sim/world_simulation_engine/event_simulation.py:115-129 | over any calls the cascade depth is the number of calls that raised, at most 10, after which nothing cascades |
| EventSimulation.LowCascadeRaises | sim/world_simulation_engine/event_simulation.py:115-124 | a run of one creation makes the next processing raise |
| EventSimulation.CascadesEnd | sim/world_simulation_engine/event_simulation.py:115-116 | a run of ten raising calls reaches the greatest depth, after which a cascading event with an affected entity is logged without children |
| EventSimulation.RunKeepsEveryEvent | sim/world_simulation_engine/event_simulation.py:66-129 | over any calls each event made is logged, queued or lost, once, and parent and child references mirror each other |
| EventSimulation.ChainShowsNoCause | sim/world_simulation_engine/event_simulation.py:131-144 | the causal chain of an event is that event alone, and of a cascade child empty, since children never enter the history |
| EventSimulation.ChildHasHiddenCause | sim/world_simulation_engine/event_simulation.py:131-144 | a run of one creation and one processing makes a child whose recorded parent is not found in its chain |
| EventSimulation.QueueDrains | sim/world_simulation_engine/event_simulation.py:98-102 | the loop over a growing queue ends in a state given in closed form |
| EventSimulation.FamilySize | sim/world_simulation_engine/event_simulation.py:119-128 | the events of a queue and their children are as many as the work counted for it |
| EventSimulation.DispatchAdds | sim/world_simulation_engine/event_simulation.py:115-129 | dispatching appends one child per affected entity and leaves the depth, unless it raises |
| EventSimulation.Lower | sim/world_simulation_engine/event_simulation.py:124 | the next priority down exists except below the lowest |
| EventHistory.RunFollowsTheCalls | sim/world_simulation_engine/event_simulation.py:66-129 | after any calls log, queue, lost events and depth are those told by batches: a creation queues one event as asked for; a processing logs the sorted queue and then one child per affected entity of the next lower priority, or stops at the first event that cascades below the lowest |
| EventSimulation.EventSimulator.CreateEvent | sim/world_simulation_engine/event_simulation.py:66-87 | queues one new event without parent or children, enters it in the history, and changes nothing else |
| EventSimulation.EventSimulator.DispatchEvent | sim/world_simulation_engine/event_simulation.py:106-129 | makes one child per affected entity of a cascading event, and raises iff it cascades below the lowest priority |
| EventSimulation.EventSimulator.Spawn | sim/world_simulation_engine/event_simulation.py:119-128 | makes one child with the next identifier at the end of the queue and records it in its parent |
| EventSimulation.EventSimulator.ProcessEvents | sim/world_simulation_engine/event_simulation.py:91-104 | sorts and drains the queue; state, count and whether it raised are those of the step |
| EventSimulation.EventSimulator.GetEventCausalChain | sim/world_simulation_engine/event_simulation.py:131-144 | the loop collects the chain through the history |
| Sorting.SortIsSorted | sim/world_simulation_engine/event_simulation.py:96 | sorting gives a sorted permutation |
| Sorting.SortIsStable | kernel/scheduler/queue.py:12 | sorting keeps the order of elements with equal keys |
| Sorting.SortFiltered | kernel/scheduler/queue.py:12 | the elements selected from a sorted list are in the order they get when sorted by themselves |
| Scheduler.RunIsFair | kernel/scheduler/engine.py:15-41 | through any mix of additions, boosts, limits and pops the kernel-named tasks and the others each stay sorted by priority and first-come first-served among equals |
| Scheduler.PopTakesTheFirstOfItsGroup | kernel/scheduler/queue.py:14-17 | a popped task comes before every task of its group left behind |
| Scheduler.DisorderIsAtMostBoosts | kernel/scheduler/examples/policies.py:5-10 | a queued task is below a later one by at most the number of boosts since the last addition |
| Scheduler.DisorderIsSharp | kernel/scheduler/examples/policies.py:5-10 | for every n there is a run with n boosts that leaves a task n below the next |
| Scheduler.BoostKeepsSortedExactlyWhen | kernel/scheduler/examples/policies.py:5-10 | a boost leaves a queue in order iff no other task stands before a kernel task of equal priority |
| Scheduler.TickSeesOrderExactlyWhen | kernel/scheduler/engine.py:25-28 | after any calls, the queue a tick pops from is in order iff no surviving other task stands before a surviving kernel task less than the boosts below it |
| Scheduler.NextIsHighestExactlyWhen | kernel/scheduler/engine.py:25-31 | after any calls, the task a tick pops is a highest one iff it is the kernel's or every surviving kernel task is at least the boosts below it |
| Scheduler.PoliciesInClosedForm | kernel/scheduler/engine.py:26-28 | the policies of a tick together drop the tasks that some limit catches and raise the kernel's by the number of boosts |
| Scheduler.NextIsNearlyHighest | kernel/scheduler/engine.py:25-35 | the task about to run is below any other by at most those boosts, and is the first of its group |
| Scheduler.EveryTaskOnce | kernel/scheduler/engine.py:15-41 | each task added is queued, run or dropped, and once |
| Scheduler.TicksRunOneEach | kernel/scheduler/engine.py:37-41 | ticks report one task run each and then idle, and as many ticks as tasks empty the queue |
| SchedulerHistory.RunFollowsTheCalls | kernel/scheduler/engine.py:15-41 | after any calls the queue and the tasks run are those told by additions sorted stably by highest priority and by ticks that each run the first task to get through the policies |
| SchedulerHistory.PoliciesLetThrough | kernel/scheduler/examples/policies.py:5-16 | unless the kernel is known to be ready a boost raises by one a task whose name has "kernel" in it, and a limit drops a task below the threshold, or below zero without one; the rest stay in order |
| SchedulerHistory.PoliciesFollowTheCalls | kernel/scheduler/engine.py:20-23 | each policy registered stands under its name, once, as last registered |
| SchedulerHistory.TickReports | kernel/scheduler/engine.py:25-35 | a tick reports name, raised priority and the executor's result of the first task to get through, or idle |
| Scheduler.AddKeepsFair | kernel/scheduler/queue.py:10-12 | the stable sort after an addition keeps each group in order |
| Scheduler.BoostKeepsFair | kernel/scheduler/examples/policies.py:5-10 | a boost keeps the kernel-named tasks in order among themselves, and the others |
| Scheduler.LimitKeepsFair | kernel/scheduler/examples/policies.py:13-16 | a limit keeps the kernel-named tasks in order among themselves, and the others |
| Scheduler.Contains | kernel/scheduler/examples/policies.py:9 | the test for a substring |
| Scheduler.SortTasksSorts | kernel/scheduler/queue.py:12 | sorting the task objects by their present priorities sorts what they stand for |
| Scheduler.SchedTask.RunTask | kernel/scheduler/task.py:13-20 | marks the task completed and reports its name, its priority and what its executor returns for the context |
| Scheduler.SchedQueue.Add | kernel/scheduler/queue.py:10-12 | appends and sorts; no task is gained or lost |
| Scheduler.SchedQueue.Pop | kernel/scheduler/queue.py:14-17 | takes the first task off, if there is one |
| Scheduler.PolicyBoostKernel | kernel/scheduler/examples/policies.py:5-10 | the loop raises each kernel-named task by one unless the kernel is ready |
| Scheduler.PolicyLimitLowPriority | kernel/scheduler/examples/policies.py:13-16 | keeps exactly the tasks at or above the threshold, in order |
| Scheduler.KernelScheduler.AddTask | kernel/scheduler/engine.py:15-18 | adds a fresh task to the queue and keeps the others |
| Scheduler.KernelScheduler.AddPolicy | kernel/scheduler/engine.py:20-23 | registers a policy in the place its name already has, or last |
| Scheduler.KernelScheduler.ApplyPolicies | kernel/scheduler/engine.py:26-28 | the loop applies the policies in order |
| Scheduler.KernelScheduler.PopAndRun | kernel/scheduler/engine.py:30-35 | runs the first task, if there is one |
| Scheduler.KernelScheduler.RunOnce | kernel/scheduler/engine.py:25-35 | is one tick, and reports its task or idle |
| Scheduler.KernelScheduler.RunTicks | kernel/scheduler/engine.py:37-41 | the loop is that many ticks, with their reports in order |

## Left out

- Substrate.ReadsReturnLatest: assumes that a key keeps one durability and that adapters answer, because without either it is false: `MixedDurabilityServesOlder` and `FailedWriteServesOlder` give inputs, and `WriteIsFinalExactlyWhen` with `NothingOlderComesBackExactlyWhen` say exactly when.
- Substrate.ReadsServeWhatIsStored: says nothing about JSON null, because the source takes a null from a store for a missing value.
- StateRuns.LogReplaysToTree: covers no restores and no resolutions, because those change the tree without logging; `UnrestoredLogReplaysExactlyWhen`, `LogReplaysExactlyWhen` and `LogReplaysExactlyWhenWritesAgree` say for runs with resolutions, with restores and with both exactly when the log still replays.
- BftNode.CommittedLogsAgree: assumes a common order of acceptance, because the code does not establish one; `AgreementNeedsCommonOrder` shows it is needed.
- Lattice.WorldKernelLattice.GetGlobalState: does not model the order of the resulting keys, because nothing reads it.
- DomainRegistry.DomainRegistry.RegisterDomain: assumes that the generated identifier is new and not the parent asked for, because `uuid4` gives no other.
- Channel.Least: does not model the array layout of the heap, because only what is popped is visible.
- Physics.CollidingComparesDistance: compares squares, because the model has no square root; any number whose square is the sum of squares does for the distance.
- Physics.CollisionPassConserves: is about exact reals, because floating point rounds.
- EventSimulation.EventSimulator.GetEventCausalChain: requires parents older than their children in the history, because on a cycle the source does not end; every run meets it.
- Callbacks, watchers, hooks and subscribers do nothing that the model sees, executors return a string for the context, and none calls back into the object; an exception in one is not modelled.
- State values are nothing, dictionaries with string keys, or anything else told apart by its text; a caller that alters a written dictionary in place is not modelled.
- Floating-point numbers are exact reals; timestamps used for ordering are integers; recursion depth is unbounded.
- `substrate/index.ts`: `exists`, `list`, `batchWrite`, `batchRead`, `initialize`, the `__ping__` key, interleaving of two operations at an `await`, and writing `undefined`.
- `BFTConsensusRound`, message receipt and view changes: the round delivers too few messages to exercise the quorum.
- `DomainLifecycleManager`, `get_mesh_health`, listing by tier, heartbeats and metadata of the registry.
- The lattice's `get_lattice_structure`, `causality_graph`, and its `commit_event`, which looks up the level and calls the level's own.
- `get_audit_log`, statistics and watchers of the state manager; the order of children, which no view depends on.
- `receive_message`, `inject_inbound`, channel modes, payloads, metadata and `ChannelMesh`.
- Forces, integration, gravity, and adding and removing of objects in the physics engine: an object's fields are given.
- `get_event_cascade_tree` and statistics of the event simulator; `describe` of the scheduler, and policies other than the two examples.
- Workers, routes, Durable Object `fetch`, deployment, and the registries and drivers elsewhere in the repository: input and output, or dictionary look-ups.
