# Formal model of the LLM gateway's scheduling, caching and replication core

This project models the decision-making core of a gateway that spreads LLM requests over a fleet of
backends, and states what that core guarantees.  Each component is modelled in its own form: objects that
update their fields are classes, loops are loops, pure expressions are functions.  Every class is tied to
functions on values, and the theorems about whole runs are lemmas about those functions.

| file | what it models |
|---|---|
| `Basics.dfy` | small definitions and lemmas that several components share |
| `PrefixSets.dfy`, `TreeShape.dfy`, `Holdings.dfy`, `InsertProof.dfy`, `Recency.dfy`, `RadixTree.dfy` | the path-compressed prefix tree with one LRU list per backend |
| `Compression.dfy` | how few nodes and blocks the tree needs |
| `PrefixClosure.dfy` | when a backend on a node holds the entire prefix ending there |
| `RoutingHistory.dfy`, `TreeReplication.dfy` | whole runs of inserts and removals on one tree, and on the trees of several replicas |
| `Bits.dfy`, `Hashing.dfy`, `PromptAffinity.dfy` | 64-bit arithmetic, chained block hashing, and hashing and tree together |
| `FairQueue.dfy`, `FairSched.dfy` | weighted fair queuing and the slot gate on top of it |
| `StringOrder.dfy`, `Lww.dfy`, `LwwCluster.dfy`, `Bus.dfy` | last-writer-wins maps, N replicas of one, message loss, the in-memory transport |
| `ReplicatedState.dfy`, `Coordinator.dfy` | the drain and membership maps, the coordinator and the backend registry |
| `FleetCluster.dfy`, `TreeCluster.dfy` | N replicas with coordinator, registry, tree and bus together |
| `DagGraph.dfy`, `Kahn.dfy` | topological layering with cycle detection |
| `Queueing.dfy`, `Planner.dfy` | Erlang-C sizing and the scaling controller |
| `Tenancy.dfy` | token buckets and the per-tenant limiter |
| `Disagg.dfy` | the prefill/decode split decision |

## How to read the main results

**Prefix tree.** The tree is compared with a plain object: for each backend `b`, the set `Covered(b)` of
prefixes it holds.  Nodes live in an arena; a ghost map `locus` sends every hash list in the tree to the one
node whose edge holds its last block.  `RadixTree.Valid` says that the tree is well-formed, that a backend is
among a node's holders exactly when the node is on that backend's list, and that no backend covers more
prefixes than the capacity.  `Match` is exact although a holder of a node need not hold the node's ancestors,
because it intersects holders on the way down.

**Fair queue.** Costs and weights may differ from item to item.  An item's share is its cost divided by its
weight; the theorems bound the work of two backlogged classes, measured in shares, by one share of each.

**Replication.** Writes, digests and syncs of N replicas interleave arbitrarily; messages in flight may be
lost, duplicated and reordered, and a replica may seed its map from a snapshot without telling anybody.  A log
records every write.  A map is `Best` for a log when it is the per-key
maximum by (timestamp, origin).

**Where the code differs from its documentation, or a natural property fails.**

- `gateway/radix_tree.py` documents that a backend recorded on a node holds the entire prefix ending there.
  Eviction drops the least recently used node, and a node is touched before the nodes below it, so this fails:
  `PrefixClosure.OrphanedPrefix` gives a run of three inserts.  It holds exactly when every node on the
  backend's list hangs below the root or below another node on the list (`PrefixClosure.CoverageClosedIff`);
  an insert keeps it exactly when no entry that survives eviction hangs below one that was evicted
  (`PrefixClosure.InsertKeepsClosed`); and it holds as long as what the backend was given fits
  (`RoutingHistory.FittingIsClosed`).
- `gateway/cluster/drain_state.py` calls the merge commutative.  It is so exactly for maps that never give one
  stamp two values (`Lww.JoinCommutesIff`).  A replica that restarts under its old id with a reset clock
  reuses a stamp, and then two replicas keep different values however often they exchange digests
  (`Lww.ResetClockDiverges`).
- `DrainState.apply` documents its result as "the drained set changed".  The code also reports a change when a
  backend is mentioned for the first time as not draining (`ReplicatedState.FirstMentionUndrained`).  The
  documentation is right exactly when the backend was known before or is now drained
  (`ReplicatedState.ReportIff`).
- Draining flags do not always agree with the drain map after a sync: a backend added by reconciliation starts
  undrained, and a later sync that reports no drain change leaves a disagreement standing
  (`Coordinator.AddedWhileDrained` shows both).  The flags agree after a sync exactly when no backend added by
  it is drained and either some message of it reported a drain change or the flags of the backends that stay
  agreed before (`Coordinator.ClusterCoordinator.SyncEvents`).
- The split decision is within the configured margin of the cheapest pair when both pools have members.  When
  one pool is empty it may not be: no backend then counts as co-locatable and the split may pay a handoff for
  nothing (`Disagg.OneEmptyPoolPaysHandoff`), though never more than that one handoff
  (`Disagg.WithinOneHandoff`).  The pools for which the promise holds for every request and load are exactly
  those with members on both sides and those with at most one backend, unless a handoff costs nothing
  (`Disagg.WithinMarginIff`).
- `erlang_b` divides by zero for some negative loads, exactly when a denominator of Erlang's formula vanishes
  (`Queueing.ErlangBFormula`), for instance at a load of -1 (`Queueing.UnitLoadOff`); its callers pass positive
  loads only.
- A tenant's token quota is not a bound when a request may cost less than nothing, which the server's cost
  estimate allows: a negative cost fills the bucket beyond its capacity and at the same instant a request
  dearer than the quota is admitted (`Tenancy.OverQuota`).  For histories in order of time whose costs are at
  least m the quota bounds every window exactly when m is at least zero or the tenant's request rate or in-flight
  cap is below two (`Tenancy.TokenBoundIff`).  For all costs the bound holds with what negative
  costs put in added to it (`Tenancy.TokenBound`).
- A rejected request gives its tokens back, except that a rejection for the request rate cuts a bucket that
  negative costs have over-filled (`Tenancy.RejectionCostsNothing` says exactly when).
- `TokenBucket.deficit_seconds` documents its result as the time until the tokens are available.  That is so
  exactly when the bucket can hold as many (`Tenancy.DeficitIff`); a request dearer than the quota is told a
  finite delay and is never admitted (`Tenancy.TooDear`).
- The coordinator documents that replicas converge on which backend holds which prefix.  An insert and a
  removal of the same backend that cross each other leave two trees different with nothing in flight
  (`TreeReplication.CrossingDiverges`).  Without such crossings, and while prefixes fit, they converge
  (`TreeReplication.QuietSitesAgree`), and coordinators with their registries and bus converge to what was
  dispatched anywhere (`TreeCluster.QuietAnswers`).

## Model

| member | source | states |
|---|---|---|
| RadixTree.RadixTree.constructor | gateway/radix_tree.py:32-36 | a new tree is valid and covers nothing for anybody |
| RadixTree.RadixTree.Match | gateway/radix_tree.py:39-66 | for every backend the result is the largest d such that the first d prefixes of the query are all covered by it, and a backend is absent exactly when d is 0 |
| RadixTree.RadixTree.Insert | gateway/radix_tree.py:69-111 | the inserting backend gains at most the prefixes of the list and nobody else's coverage changes, even when an edge they hold is split; something is dropped if and only if the union exceeds the capacity; a list that fits survives its own insert; every other backend's list keeps its entries in order and gets at most one more, at the end, namely the head of the edge that is cut, and its oldest entries go on covering what they covered, less what that head takes over; the inserter's new LRU list is the old one with the nodes spelling the list touched from the root down, cut to its longest tail that fits; nodes keep the paths they spell; at most two nodes are new, and the paths in the tree are the old ones and the prefixes of the list; the capacity bound and the holder/LRU agreement hold again for every backend |
| Recency.NextEvictionDrops | gateway/radix_tree.py:134-140 | after an insert by somebody else, a later eviction of a backend that drops no more entries than it had before drops exactly what those oldest entries covered before, less the prefixes up to the cut |
| Recency.SplitKept | gateway/radix_tree.py:101-102 | a cut appends the head to the list of each holder of the edge, whose older entries keep their order and cover the same but for the head's prefixes; other lists stay as they are |
| RadixTree.RadixTree.Descend | gateway/radix_tree.py:74-109 | before eviction the backend's coverage is exactly the old one plus all prefixes of the list, spelled by a chain of distinct nodes that are now the latest entries of its list |
| RadixTree.RadixTree.SplitEdge | gateway/radix_tree.py:95-102 | the arena is the old one with the edge cut after j blocks, and every holder of the cut node gets the head as the latest entry of its list |
| RadixTree.RadixTree.Evict | gateway/radix_tree.py:134-140 | the list becomes its longest tail within capacity, whole edges leave the backend's coverage, other backends keep coverage and list |
| RadixTree.RadixTree.RemoveBackend | gateway/radix_tree.py:113-119 | the backend covers nothing and has no list; everybody else keeps coverage and list |
| RadixTree.RadixTree.HeldBlocks | gateway/radix_tree.py:143-144 | the block total equals the number of covered prefixes and is at most the capacity |
| RadixTree.RadixTree.Track | gateway/radix_tree.py:126-132 | the node becomes the latest entry of the list, the others keep their order |
| RadixTree.CommonRun | gateway/radix_tree.py:51-53 | the number of edge blocks that agree with the query from a position, and disagreement right after |
| TreeShape.SplitShape | gateway/radix_tree.py:95-99 | cutting an edge keeps every path in the tree at exactly one node |
| TreeShape.AddLeafShape | gateway/radix_tree.py:78-79 | hanging a leaf under a free key keeps the tree well-formed |
| TreeShape.RunOnEdge | gateway/radix_tree.py:47-64 | blocks that agree with an edge lie on it, and where the query leaves the edge it leaves the tree |
| Holdings.SplitCov | gateway/radix_tree.py:96-102 | a split leaves every backend's covered prefixes unchanged and keeps holders and lists in agreement |
| Holdings.CovIsRegion | gateway/radix_tree.py:134-144 | the sum of the edge lengths on a backend's list counts its covered prefixes: edges never overlap |
| InsertProof.TrimCapacity | gateway/radix_tree.py:134-140 | trimming the list loses coverage exactly when the whole does not fit, and the rest is within capacity |
| InsertProof.TrimKeepsChain | gateway/radix_tree.py:122-140 | nodes just touched that fit in the capacity all survive the trimming |
| Compression.PackedSplit | gateway/radix_tree.py:95-99 | cutting an edge leaves every node but the new head a branch point or the end of an inserted list |
| Compression.PackedLeaf | gateway/radix_tree.py:78-79 | a new leaf spells the inserted list and makes the node above it branch |
| Compression.EdgesCountPaths | gateway/radix_tree.py:5-7 | the edges together are as long as there are distinct prefixes in the tree |
| Compression.SmallGrew | gateway/radix_tree.py:5-7 | after an insert every node but the root is still a branch point or the end of an inserted list, and there are at most two nodes per distinct list; a list inserted before adds none |
| RoutingHistory.SizeAfterRun | gateway/radix_tree.py:5-7 | after any run of any backends the tree has at most 1 + 2 * (distinct lists ever inserted) nodes, and its edges are as long as there are distinct prefixes of these lists |
| PrefixSets.DepthUnique | gateway/radix_tree.py:10-12 | the contiguous-from-front depth is determined by coverage |
| PrefixSets.ClosedIffDepth | gateway/radix_tree.py:9-11 | for prefix-closed coverage, and for no other, a covered list tells how deep every query that extends it matches |
| PrefixClosure.RegionClosedIff | gateway/radix_tree.py:9 | the prefixes ending at a list of nodes are closed if and only if the parents of the nodes are listed |
| PrefixClosure.CoverageClosedIff | gateway/radix_tree.py:9 | a backend holds every prefix of what it holds if and only if the parents of its nodes are on its list |
| PrefixClosure.CutClosedIff | gateway/radix_tree.py:134-140 | eviction leaves a closed list closed if and only if no survivor loses its parent |
| PrefixClosure.InsertKeepsClosed | gateway/radix_tree.py:69-140 | from a closed state the backend holds whole prefixes after an insert if and only if no surviving entry hangs below an evicted one |
| PrefixClosure.OrphanedPrefix | gateway/radix_tree.py:134-140 | with capacity 2, after inserting [1, 2], [1, 3] and [4] the backend is on the node of [1, 3] without holding [1], and matching [1, 3] finds nothing |
| RoutingHistory.RoutingBelief | gateway/radix_tree.py:39-140 | after any run of inserts and removals the answer for a backend is at most the longest common prefix of the query with a list inserted for it since its last removal, equals it when the backend's prefixes have fitted since then, and is at least the last inserted list when that fits and the query extends it |
| RoutingHistory.FittingIsClosed | gateway/radix_tree.py:9 | while what a backend was given since its last removal fits, it holds whole prefixes |
| RoutingHistory.Extend | gateway/radix_tree.py:69-119 | one more insert or removal keeps coverage below the union of the live lists, and equal to it while everything fits |
| RoutingHistory.MatchAfter | gateway/radix_tree.py:39-66 | on a tree with a known history every answer is bounded by the longest shared prefix of a live list, exact for backends that fitted, at least any list that is wholly covered, and at least the backend's latest list if that fits and the query extends it, whatever else was inserted since for others |
| RoutingHistory.CapacityAfterRun | gateway/radix_tree.py:96-144 | after any run by any backends every backend's block total is within capacity, and counts the distinct live prefixes when they have fitted since the last removal |
| RoutingHistory.DepthOfUnion | gateway/radix_tree.py:39-66 | matching against the union of inserted lists finds the longest shared length |
| RoutingHistory.OrderIndependent | gateway/cluster/coordinator.py:14-17 | without removals neither order nor repetition of inserts affects what is covered |
| TreeReplication.QuietSitesAgree | gateway/cluster/coordinator.py:64-76 | in every interleaving of dispatches, removals and syncs in which no insert and removal of a backend cross, two replicas with empty inboxes give the same answer for every query on that backend if its prefixes fit |
| TreeReplication.QuietSiteKnows | gateway/cluster/coordinator.py:14-17 | in every such run a replica with an empty inbox holds for a backend exactly the lists dispatched for it anywhere since its last removal anywhere, if they fit |
| TreeReplication.CrossingDiverges | gateway/cluster/coordinator.py:64-76 | an insert and a removal of one backend that cross leave one replica believing that it holds the list and the other that it holds nothing, with both inboxes empty |
| TreeReplication.IssueEffect | gateway/cluster/coordinator.py:165-192 | an operation issued at one replica changes the live lists of every replica in the same way |
| TreeReplication.QueryBoth | gateway/cluster/coordinator.py:165-197 | the two trees built from their own histories return equal match results |
| Hashing.Fnv1a | gateway/hashing.py:16-21 | the loop computes the 64-bit FNV-1a fold |
| Hashing.OneByteDiffers | gateway/hashing.py:16-21 | inputs that differ in exactly one byte, wherever it is and whatever surrounds it, have different hashes |
| Hashing.TestVectors | gateway/hashing.py:11-21 | the published 64-bit FNV-1a values of the empty input, "a" and "foobar" |
| Bits.StepInjective | gateway/hashing.py:19-20 | one step tells apart both hashes and bytes: exclusive or and multiplication by the odd prime lose nothing modulo 2^64 |
| Hashing.BlockHashes | gateway/hashing.py:33-51 | one chained hash per full block up to the cutoff, none for a partial block |
| Hashing.BlockCount | gateway/hashing.py:42-43 | never above the cutoff, never past the last full block, and every full block below the cutoff is counted |
| Hashing.SeedsSeparate | gateway/hashing.py:45-49 | seeds that differ modulo 2^64 give the first blocks different inputs, whatever the prompts; seeds equal modulo 2^64, negative ones included, give the same chain |
| Hashing.MaskBytes | gateway/hashing.py:45-49 | the masked seed, written little-endian, is the low eight bytes of the seed |
| Hashing.HashBoth | gateway/hashing.py:33-51 | extending a prompt bytewise extends its hash list |
| Hashing.ChainExact | gateway/hashing.py:5-8 | two prompts that agree in one block hash have equal seeds and identical bytes up to the end of that block, or else their own chained inputs at some block up to it differ and collide under FNV-1a, with identical blocks after that one |
| Hashing.CollisionHidden | gateway/hashing.py:33-51 | conversely a collision of the two chains followed by identical blocks is never noticed |
| PromptAffinity.FollowUp | gateway/server.py:863-886 | after any run, a prompt extending a just-inserted one is offered the same backend with at least all of its full blocks, provided they fit |
| FairQueue.WeightedFairQueue.Push | gateway/fairqueue.py:34-44 | with start the later of virtual time and the last finish of the class, (finish - start) * weight is the cost for a positive weight, and the tag is 10^9 costs later for any other; the class finishes there and virtual time stays |
| FairQueue.WeightedFairQueue.Pop | gateway/fairqueue.py:46-51 | the entry that leaves has the least tag, and among equal tags arrived first; virtual time never goes back; an empty queue is an error that changes nothing |
| FairQueue.RunGood | gateway/fairqueue.py:34-51 | every run keeps: queued tags are at or after virtual time, a waiting class is a chain of tags whose head starts by virtual time, an idle class has finished by then; virtual time never decreases |
| FairQueue.ServedFirst | gateway/fairqueue.py:46-51 | the entry served is the oldest of its class and no other class changes |
| FairQueue.Fairness | gateway/fairqueue.py:10-16 | over any stretch during which two classes stay backlogged, the work done for them in shares differs by at most one share of each |
| FairQueue.FairnessInCounts | gateway/fairqueue.py:10-16 | the same as service counts times cost over weight, when these are constant per class |
| FairQueue.WeightedFairness | gateway/fairqueue.py:10-40 | when every item of a class arrives with weight wa > 0 and cost ca, and of another with wb > 0 and cb, then over any stretch during which both stay backlogged the numbers served, times ca / wa and cb / wb, differ by at most ca / wa + cb / wb |
| FairQueue.ThreeToOne | gateway/fairqueue.py:28-33 | with unit costs a class of weight 3 is served three times as often as one of weight 1, within four services |
| FairQueue.ClassFifo | gateway/fairqueue.py:34-51 | in any run what a class has been served followed by what still waits is what waited at first followed by what arrived |
| FairQueue.TagsMonotone | gateway/fairqueue.py:46-51 | tags served later in a run are never smaller |
| FairQueue.BoundedBypass | gateway/fairqueue.py:34-51 | while an entry waits, another class is served at most 1 + floor((tag - virtual time) / share) times, however many of its items arrive |
| FairQueue.WeightedBypass | gateway/fairqueue.py:34-51 | the same bound for a class whose items arrive with one positive weight and cost, in terms of these |
| FairSched.AsyncFairScheduler.AcquireSlot | gateway/fairsched.py:82-94 | parks if and only if as many slots as max(1, maximum concurrency) are taken: then a pending future is queued, and otherwise a slot is taken at once and nothing else changes |
| FairSched.AsyncFairScheduler.GrantToNext | gateway/fairsched.py:103-112 | pops entries until one that is not cancelled is found and grants exactly that one |
| FairSched.AsyncFairScheduler.FreeOne | gateway/fairsched.py:114-116 | hands the slot on or lowers the counter, clamped at zero |
| FairSched.AsyncFairScheduler.ReleaseSlot | gateway/fairsched.py:118-120 | a holder's release is the release step; a stray one only passes through the clamp |
| FairSched.AsyncFairScheduler.CancelWaiter | gateway/fairsched.py:95-101 | a parked waiter is only marked; a waiter already granted gives its slot on |
| FairSched.GrantNextOk | gateway/fairsched.py:103-112 | granting succeeds if and only if someone live waits, and then changes the future of the least live entry only |
| FairSched.NextInv | gateway/fairsched.py:82-120 | every step keeps the slot accounting and the queue's agreement with the futures |
| FairSched.SlotConservation | gateway/fairsched.py:82-120 | in every run where only holders release: the counter equals holders plus granted futures, stays within the limit, live waiters exist only while all slots are busy and somebody will give one back, and with nobody holding or granted the counter is zero and nobody waits |
| FairSched.LetIn | gateway/fairsched.py:82-86 | as many requests as max(1, maximum concurrency) are let in without parking, whatever their classes |
| FairSched.HandsOver | gateway/fairsched.py:97-120 | whoever gives a slot back, the weighted-fair first among the live waiters gets it and the busy count does not change; with no live waiter one slot is freed and the queue is emptied; the clamp never acts |
| FairSched.TraceRun | gateway/fairsched.py:82-120 | a gate run drives its queue through a queue run |
| FairSched.GateBypass | gateway/fairsched.py:18-25 | from any reachable gate state, while a parked entry waits, a class is served at most 1 + floor((tag - virtual time) / (cost / weight)) times |
| FairSched.ServedIsGrantedOrReaped | gateway/fairsched.py:103-112 | what the queue serves of a class during a gate run is what the gate grants of it plus the cancelled waiters it reaps |
| FairSched.GateFairness | gateway/fairsched.py:3-25 | from any reachable gate state, while two classes keep waiters parked, the numbers granted or reaped times cost over weight differ by at most one share of each |
| FairSched.GateWeightedFairness | gateway/fairsched.py:57-94 | the same with the weights of the configuration: the listed one of a class, or else the default one, if positive |
| FairSched.GateWeightedBypass | gateway/fairsched.py:57-94 | and the bypass bound with those weights: while an entry waits, a class of weight w is granted or reaped at most 1 + floor((tag - virtual time) / (cost / w)) times |
| FairSched.ParkedTag | gateway/fairsched.py:89-90 | a request that parks goes last in the queue with its own future, and its tag is start + cost / w for the configured weight w of its class |
| Lww.JoinAssociative | gateway/cluster/drain_state.py:9-10 | merging is associative for all maps |
| Lww.JoinIdempotent | gateway/cluster/drain_state.py:9-10 | merging a map into itself changes nothing |
| Lww.JoinCommutesIff | gateway/cluster/drain_state.py:9-11 | merging commutes if and only if no key carries one stamp with two values |
| Lww.ResetClockDiverges | gateway/cluster/drain_state.py:20-37 | a replica that writes, restarts empty and writes again reuses its stamp; its value and the one a peer kept survive every exchange of digests |
| Lww.ApplyIsJoin | gateway/cluster/drain_state.py:39-48 | applying a remote write is merging a one-entry map |
| Lww.WhoWins | gateway/cluster/drain_state.py:44-46 | the greater timestamp wins, and at equal timestamps the lexicographically greater origin, whichever side is merged into which |
| StringOrder.LessIff | gateway/cluster/drain_state.py:44 | one string comes before another if and only if at their first difference it ends or has the smaller character |
| Lww.SetLocalIsJoin | gateway/cluster/drain_state.py:25-37 | while stored timestamps are at most the clock, a local write is itself a merge and keeps that so |
| LwwCluster.StepInv | gateway/cluster/coordinator.py:88-197 | every step, including unsent seeding writes, loss, duplication and reordering, keeps: stored timestamps within the clock, every entry issued, every write still dominated at its origin, no stamp with two values |
| LwwCluster.StrongConvergence | gateway/cluster/coordinator.py:136-197 | in every interleaving without loss, a replica whose inbox is empty holds the per-key maximum of all writes ever issued |
| LwwCluster.QuietReplicasAgree | gateway/cluster/bus.py:43-75 | any two replicas with empty inboxes hold the same map |
| LwwCluster.DigestRoundHeals | gateway/cluster/bus.py:175-188 | after any run with unsent seeding writes, loss, duplication and reordering, once all replicas broadcast digests and then sync, each holds the per-key maximum of all writes ever issued |
| LwwCluster.BestUnique | gateway/cluster/drain_state.py:6-11 | that maximum is unique |
| LwwCluster.SyncPossible | gateway/cluster/coordinator.py:165-197 | every inbox can be applied |
| Bus.InMemoryBroker.FanOut | gateway/cluster/bus.py:53-56 | every inbox but the producer's grows by the event, at its end, and the producer's does not change |
| Bus.InMemoryBroker.Drain | gateway/cluster/bus.py:58-62 | hands over the whole inbox and empties that one only; an unknown replica gets an empty one |
| ReplicatedState.DrainAllEffect | gateway/cluster/coordinator.py:158-159 | in whatever order a snapshot is walked, exactly its backends are drained in addition, under stamps not given out before |
| ReplicatedState.DrainState.SetLocal | gateway/cluster/drain_state.py:33-37 | ticks the clock and writes under the new timestamp, which it returns |
| ReplicatedState.DrainState.Apply | gateway/cluster/drain_state.py:39-48 | adopts exactly newer versions, observes the timestamp, and reports a change exactly when what the map says of some backend changed, which is a change of the drained set if and only if the backend was known or is now drained |
| ReplicatedState.ReportIff | gateway/cluster/drain_state.py:41 | the documented meaning of the report holds if and only if the backend was mentioned before or is now drained |
| ReplicatedState.FirstMentionUndrained | gateway/cluster/drain_state.py:44-47 | a first mention as not draining is reported although the drained set stays empty |
| ReplicatedState.DrainState.Merge | gateway/cluster/drain_state.py:50-57 | the entry-by-entry loop merges the whole digest in any order; the report is exact |
| ReplicatedState.MembershipState.Apply | gateway/cluster/membership_state.py:38-46 | the same, with a change reported exactly when presence or url of some backend changed |
| ReplicatedState.MembershipState.Merge | gateway/cluster/membership_state.py:48-53 | the loop merges the whole digest; the report is exact |
| Coordinator.ClusterCoordinator.SyncEvents | gateway/cluster/coordinator.py:165-197 | both maps end merged with every polled message in order; the whole new registry; it agrees with the membership map, and with the startup fleet elsewhere, although reconciliation is skipped when no change is reported; staying backends keep health and model; an added one has the url and the model that the map gives it, or the default model if that is empty, and starts unhealthy and undrained; draining flags agree if and only if no added backend is drained and a drain change was reported or the staying backends agreed before; the tree goes through the polled inserts and removals in order and then drops exactly the backends that left the registry |
| Coordinator.SyncedFlagsIff | gateway/cluster/coordinator.py:193-196 | that condition, for all registries, reports and maps |
| Coordinator.UnreportedSame | gateway/cluster/coordinator.py:171-192 | when no message reported a change, the two maps say what they said before |
| Coordinator.ClusterCoordinator.ApplyAll | gateway/cluster/coordinator.py:169-192 | the event loop merges every message, applies every tree operation in order, and reports a change exactly when some message, at its turn, changed what the map says |
| Coordinator.ClusterCoordinator.ReconcileDrains | gateway/cluster/coordinator.py:145-151 | every registered backend drains exactly when the drain map says so, nothing else changes |
| Coordinator.ClusterCoordinator.ReconcileMembership | gateway/cluster/coordinator.py:125-134 | the registry becomes the one the membership map prescribes, and the backends that left it lose their prefixes |
| Coordinator.ReconciledInSync | gateway/cluster/coordinator.py:125-134 | the prescribed registry agrees with the map on mentioned backends and with the startup fleet on the others |
| Coordinator.ReconciledTwice | gateway/cluster/coordinator.py:125-134 | reconciling again changes nothing |
| Coordinator.ClusterCoordinator.WarmStart | gateway/cluster/coordinator.py:153-162 | the snapshot's backends are drained in addition to those already drained, each by a local write; flags agree with the map at once |
| Coordinator.ClusterCoordinator.Dispatch | gateway/server.py:884-886 | the tree learns the list at once and it is published unless empty; a list that fits is wholly covered |
| Coordinator.ClusterCoordinator.BackendDown | gateway/server.py:241-243 | a dead backend covers nothing and the peers are told |
| Coordinator.ClusterCoordinator.Lookup | gateway/radix_tree.py:39-66 | at any point of a replica's life an answer is bounded by, and for backends that fitted equal to, the longest prefix shared with a list dispatched or received for the backend since its last removal, and a query that extends the backend's latest list finds it whole if it fits |
| Coordinator.ClusterCoordinator.PublishDrain | gateway/cluster/coordinator.py:88-99 | the write is local and returned as an event with its timestamp; the drained set gains or loses exactly that backend, and flags agree with the map at once |
| Coordinator.ClusterCoordinator.AdminAdd | gateway/server.py:434-448 | registry first, then the replicated map: the two stay in sync |
| Coordinator.ClusterCoordinator.AdminRemove | gateway/server.py:455-468 | an unknown backend is refused without a write; a known one leaves registry and tree and becomes a tombstone, in sync |
| Coordinator.ClusterCoordinator.RoutableIds | gateway/backends.py:79-85 | exactly the healthy undrained backends of the model are offered, and while flags agree none that the drain map lists |
| Coordinator.BackendRegistry.Add | gateway/backends.py:44-54 | a new backend gets the url and the model, or the default one if that is empty, unhealthy and undrained; a known one only gets the url; nobody else changes |
| Coordinator.AddedWhileDrained | gateway/cluster/coordinator.py:193-196 | a sync that learns of a drained new backend registers it undrained, and a following sync without news leaves it so |
| Coordinator.SyncedInSync | gateway/cluster/coordinator.py:193-196 | a sync leaves the registry in step with the merged membership map whether or not a change was reported |
| FleetCluster.DrainMoves | gateway/cluster/coordinator.py:88-197 | every step of N coordinators on one bus is, for their drain maps, one reliable step of N last-writer-wins maps or nothing |
| FleetCluster.MemberMoves | gateway/cluster/coordinator.py:101-197 | the same for their membership maps |
| FleetCluster.StepOk | gateway/cluster/coordinator.py:88-197 | every step keeps each registry in step with its membership map and, while no membership write was ever issued, draining flags with its drain map |
| FleetCluster.QuietFleetsAgree | gateway/cluster/coordinator.py:165-197 | in every interleaving of drain decisions, membership changes, dispatches, lost backends, digests and polls, two replicas with empty inboxes hold equal drain and membership maps; started alike they register the same backends under the same urls, and with no membership write they agree on which of them drain |
| FleetCluster.SetDrainAndSend | gateway/cluster/coordinator.py:88-99 | a coordinator on a bus takes the drain step of that system |
| FleetCluster.AddMemberAndSend | gateway/server.py:434-448 | and the step of adding a backend |
| FleetCluster.RemoveMemberAndSend | gateway/server.py:455-468 | and the step of removing one |
| FleetCluster.DispatchAndSend | gateway/server.py:884-886 | and the step of dispatching a prompt: the tree learns it and every peer gets the event |
| FleetCluster.DropAndSend | gateway/server.py:241-243 | and the step of giving up a dead backend |
| FleetCluster.PollAndSync | gateway/cluster/coordinator.py:166-197 | and the step of applying its inbox, on both maps, the registry and the tree |
| TreeCluster.LearnFromPeer | gateway/cluster/coordinator.py:165-192 | a prompt dispatched at one coordinator is found whole by a query at another that polls next, if it fits there, unless that very poll takes the backend out of the registry |
| TreeCluster.QuietAnswers | gateway/cluster/coordinator.py:8-17 | in every run of N coordinators in which a backend is never removed from the membership and no insert and removal of it cross, two coordinators with empty inboxes give the same answer for it, namely the longest prefix shared with a list dispatched for it anywhere since it was last given up anywhere, if these lists fit |
| TreeCluster.QuietNodeKnows | gateway/cluster/coordinator.py:8-17 | the same for one replica's history, without the tree |
| TreeCluster.SitesMove | gateway/cluster/coordinator.py:64-192 | every step of N coordinators is, for the tree operations on one backend that stays a member, one step of the replicated trees or nothing, and issues the same operations |
| Kahn.RequestDag.ComputeLayers | gateway/dag/graph.py:64-82 | a lookup error if and only if a parent is unknown; otherwise a cycle error if and only if there is a cycle; otherwise each node is in exactly one layer, namely 0 without parents and one more than the highest parent's otherwise, duplicate parents included, each layer sorted without repetition |
| Kahn.RequestDag.GetLayers | gateway/dag/graph.py:60-62 | the same without validation: an unknown parent surfaces as a lookup error |
| Kahn.RequestDag.Validate | gateway/dag/graph.py:44-51 | names an unknown parent if and only if there is one, and otherwise reports a cycle if and only if there is one |
| Kahn.RequestDag.Children | gateway/dag/graph.py:53-58 | an unknown parent if and only if there is one; otherwise each parent lists a child as often as the child lists the parent |
| Kahn.RequestDag.AddNode | gateway/dag/graph.py:39-42 | a duplicate id is refused and changes nothing |
| Kahn.LeftOverCycle | gateway/dag/graph.py:80-81 | nodes left over when the frontier is empty contain a cycle |
| DagGraph.LevelsAcyclic | gateway/dag/graph.py:12-15 | a graph that has levels has no cycle |
| DagGraph.LevelsUnique | gateway/dag/graph.py:61 | levels are unique, so the layering depends on no iteration order |
| Queueing.ComputeErlangB | gateway/autoscale/queueing.py:21-31 | the loop computes the recursion for every load, and Erlang-B, without a division by zero, for a load that is not negative |
| Queueing.ErlangBFormula | gateway/autoscale/queueing.py:21-31 | for every load the recursion computes Erlang's closed formula a^c / sum of c!/j! a^j, and divides by zero if and only if such a sum vanishes on the way |
| Queueing.UnitLoadOff | gateway/autoscale/queueing.py:29-30 | a load of -1 divides by zero for every number of servers |
| Queueing.BIsReciprocal | gateway/autoscale/queueing.py:21-31 | Erlang-B is positive and the reciprocal of a linear recursion |
| Queueing.CIsReciprocal | gateway/autoscale/queueing.py:34-46 | in the stable range Erlang-C is the reciprocal of what one more server adds to that recursion |
| Queueing.ErlangCRange | gateway/autoscale/queueing.py:34-46 | in the stable range Erlang-C lies in (0, 1] and falls strictly with every server added |
| Queueing.ErlangCFormula | gateway/autoscale/queueing.py:34-46 | in the stable range C * ((c - a) * sum + a^c) = a^c, where sum is that of (c-1)!/j! a^j over j < c |
| Queueing.WaitFalls | gateway/autoscale/queueing.py:49-59 | in the stable range the expected wait is positive and falls strictly with every server added |
| Queueing.WaitFormula | gateway/autoscale/queueing.py:49-59 | the expected wait for every input: nothing without load or rate, infinite exactly up to c = a, and beyond it wait * (c * mu - lam) * ((c - a) * sum + a^c) = a^c |
| Queueing.SingleServer | gateway/autoscale/queueing.py:49-59 | for one server the wait is lam / (mu * (mu - lam)), that of an M/M/1 queue |
| Queueing.SearchReplicas | gateway/autoscale/queueing.py:62-77 | the loop computes the search |
| Queueing.SizingCorrect | gateway/autoscale/queueing.py:62-77 | no smaller count meets the objective; below the maximum the result and every larger count meet it; otherwise the maximum is returned |
| Queueing.EnoughIff | gateway/autoscale/queueing.py:62-77 | a count below the maximum is at least the result if and only if its wait is finite and at most the objective, equality included |
| Queueing.WorkedSizing | gateway/autoscale/queueing.py:62-77 | 20 requests a second at 5 a second per replica, a wait of at most 0.1 s and at most 20 replicas need 6: five wait 0.11 s, six 0.03 s |
| Planner.TargetMeetsObjective | gateway/autoscale/planner.py:63-67 | raising the target for utilization or the minimum never breaks a wait objective met below the maximum |
| Planner.TargetKeepsHeadroom | gateway/autoscale/planner.py:50-67 | when the maximum allows it, utilization at the target is at most the configured one |
| Planner.TargetWithinBounds | gateway/autoscale/planner.py:63-67 | the target lies between minimum and maximum, and is the minimum when the bounds contradict each other; without load it is zero clamped |
| Planner.TargetIsLeast | gateway/autoscale/planner.py:50-67 | any count below the target and at least the minimum misses the wait objective or exceeds the utilization |
| Planner.ObjectiveIs | gateway/autoscale/planner.py:63-64 | the reported requirement of the wait objective: no smaller count meets it, and below the maximum the count itself does |
| Planner.UtilizationIs | gateway/autoscale/planner.py:50-55 | the reported requirement of the utilization: the least count whose share of the offered load is within it |
| Planner.CooldownsHold | gateway/autoscale/planner.py:69-94 | the decision is up if and only if the target is above the count and the last scale-up is at least the up-cooldown ago, down if and only if the target is below by the deadband and the last scale-down is at least the down-cooldown ago, blocked if and only if one of these was wanted and cooling; how far it goes; and the wait is estimated at the desired count |
| Planner.StepTowardTarget | gateway/autoscale/planner.py:69-88 | a decision moves toward the target by at most the step and never past it |
| Planner.NoFlapping | gateway/autoscale/planner.py:58-94 | under constant load no run contains both an up and a down, whatever the cooldowns do |
| Planner.SettlesInTime | scripts/autoscale_demo.py:38-51 | with cooldowns elapsed the closed loop settles in ceil(distance / step) ticks, at the target from below and within the deadband from above |
| Tenancy.TokenBucket.TryConsume | gateway/tenancy.py:65-71 | refills lazily, then takes the tokens if and only if they are there |
| Tenancy.ReplenishTwice | gateway/tenancy.py:60-63 | refilling lazily in two steps is refilling once |
| Tenancy.RateLimiter.AdmitRequest | gateway/tenancy.py:142-156 | in-flight cap, then tokens, then requests with refund; answer and new state of both bucket objects, other tenants untouched |
| Tenancy.RateLimiter.ReleaseRequest | gateway/tenancy.py:158-162 | the in-flight count goes down to at least zero and the token bucket gets what was reserved less what was used, capped at capacity |
| Tenancy.RefundIsExact | gateway/tenancy.py:142-162 | an admission of cost c released at once at an actual cost a between 0 and c leaves the limiter as an admission of cost a, and the in-flight count as it was |
| Tenancy.AdmitsIff | gateway/tenancy.py:142-156 | a request is admitted if and only if a slot is free, its tokens are there and one request credit is; the reason is the first of these that fails, in that order |
| Tenancy.AnswerIs | gateway/tenancy.py:142-156 | the answer tells what is left of tokens and credit, and as delay what is missing over the rate at which it is earned |
| Tenancy.TokensAtLeast | gateway/tenancy.py:60-83 | nothing is lost: after any calls the tokens are at least the quota, or what there was and has been earned if that is less, minus what admissions and releases have taken and releases have not given back |
| Tenancy.CreditAtLeast | gateway/tenancy.py:60-71 | the same for request credit, of which every admission takes one |
| Tenancy.WithinMeansIsAdmitted | gateway/tenancy.py:142-156 | liveness: after any calls by anybody, a request whose cost is within that bound, with one request credit by the same reckoning and a free slot, is admitted |
| Tenancy.RejectionCostsNothing | gateway/tenancy.py:142-155 | after a rejection both buckets are, at every later time, what they would have been without the request, except exactly that a rejection for the request rate cuts a token bucket still over its capacity then |
| Tenancy.DeficitIff | gateway/tenancy.py:73-79 | the delay is the first moment at which the tokens are there if and only if the bucket can hold as many |
| Tenancy.TooDear | gateway/tenancy.py:65-79 | a request dearer than the bucket's capacity is never admitted while the bucket is in order, and is told a finite delay |
| Tenancy.NonInterference | gateway/tenancy.py:128-162 | in any interleaving a tenant's answers are those it gets when its own calls are the only ones |
| Tenancy.RateBound | gateway/tenancy.py:60-71 | from any reachable state, in any time window of length T at most max(1, rate) + rate * T requests of a tenant are admitted, whatever they cost and whatever other tenants do |
| Tenancy.TokenConservation | gateway/tenancy.py:60-83 | whatever the signs of the costs, tokens left plus net cost admitted are at most tokens found at first plus refill plus unused reservations given back, and so, with a debt counted as nothing, is the net cost alone |
| Tenancy.TokenBound | gateway/tenancy.py:136-162 | from any reachable state, in any time window of length T the positive costs admitted for a tenant are together at most quota + quota * T plus the unused reservations given back plus what negative costs have put in; without negative costs the last part vanishes |
| Tenancy.OverQuota | gateway/tenancy.py:65-71 | for a tenant whose request rate and in-flight cap are at least two: after a cost of -c a request of quota + c is admitted at the same instant, for every positive c |
| Tenancy.TokenBoundIff | gateway/server.py:620-625 | in all histories in order of time with costs of at least m every window stays within quota, refill and refunds, if and only if m is at least zero, or the request rate is below two, or the in-flight cap is |
| Tenancy.InflightRun | gateway/tenancy.py:142-160 | the in-flight counter is at least admissions minus releases, equal to it when no release is stray, and stays between zero and the cap |
| Tenancy.InflightCap | gateway/tenancy.py:142-160 | after any calls, over any further calls, admissions exceed releases by at most what the cap leaves free |
| Disagg.Candidates | gateway/disagg/router.py:71-75 | exactly the unsaturated backends of the pool, or the whole pool when all are saturated |
| Disagg.ChooseDisaggregated | gateway/disagg/router.py:78-152 | the loop computes the decision function |
| Disagg.EstimatesAre | gateway/disagg/router.py:124-152 | the estimates are those of the two chosen backends, their sum is the total, a handoff is charged exactly for a split, and its time is prompt tokens times bytes per token over the link rate in bytes per millisecond |
| Disagg.PrefillIs | gateway/disagg/router.py:51-57 | a prefill costs its rate for each prompt token not in a cached block, and the service time for each request in flight |
| Disagg.CachedBlockSaves | gateway/disagg/router.py:53-55 | one more cached block saves the cost of a block of tokens, while the prompt has them |
| Disagg.DecodeIs | gateway/disagg/router.py:60-63 | a decode costs its rate for each output token and the service time for each request in flight |
| Disagg.OverloadedLast | gateway/disagg/router.py:66-75 | a backend over the in-flight or the cache-pressure limit is chosen only when its whole pool is over one of them |
| Disagg.SplitIff | gateway/disagg/router.py:100-122 | a split is chosen if and only if some pair of two candidates beats every co-located candidate by more than the margin |
| Disagg.ArgMinEarliest | gateway/disagg/router.py:100-103 | among equally cheap candidates the first one in pool order is taken |
| Disagg.NearOptimal | gateway/disagg/router.py:93-152 | with both pools non-empty the estimate is within the margin of the cheapest pair of all prefill and decode candidates, handoff charged only to real splits, and, for a margin of at least zero, never above the best co-located candidate |
| Disagg.SharedIsColocated | gateway/disagg/pools.py:67-75 | a candidate on both sides is a co-location candidate even when saturation empties the eligible sets |
| Disagg.OneEmptyPoolPaysHandoff | gateway/disagg/router.py:94-98 | an input with an empty prefill pool on which the decision costs 101 ms although one backend alone would cost 2 ms |
| Disagg.WithinMarginIff | gateway/disagg/router.py:94-122 | for a positive prefill rate and block size, the decision is within the margin for every request and load if and only if both pools have members, or there is at most one backend, or a handoff costs nothing |
| Disagg.BreaksMargin | gateway/disagg/router.py:94-98 | for any other pools, a request and a load on which it is not |
| Disagg.WithinOneHandoff | gateway/disagg/router.py:94-122 | without co-locatable backends the decision is within one handoff of the cheapest pair |

## Left out

- `gateway/server.py` request handling, streaming, failover and endpoints: only the order of calls of the admin handlers is modelled.
- `RedisBus`, `RedisSnapshotStore`, HTTP sending and JSON encoding: events are passed as datatypes; loss, duplication and reordering stand for the network.
- The snapshot store: its contents are an argument of the warm start, and writing through to it is not modelled.
- Restarts: replica ids are distinct and no replica restarts with a reset clock, except in the lemma that shows what then goes wrong.
- `model` in membership agreement: a change of model alone is neither reported nor applied to a known backend.
- The optional registry of a coordinator: a coordinator without one skips reconciliation.
- `FleetLoadView`, circuit breaker, load tracker, session affinity, RAG and media indexes, admission policy, LoRA filter, metrics, tokenizer, embeddings, auth: single-branch logic or plumbing that would only add easy members.
- `gateway/router.py` strategies and `gateway/dag/scheduler.py`: minimum searches over cost formulas.
- Floating point: tags, tokens, costs and waits are reals; wall-clock time is an argument.
- asyncio: a future is pending, granted, cancelled, taken or abandoned; cancelling a pending one marks it at once.
- `heapq`: the queue is represented by its contents in arrival order, and a pop takes the least (tag, arrival number).
- FairQueue.Fairness: negative costs are not covered; a negative cost would let tags run backwards.
- Tenancy.RateBound: negative quotas are not covered, and all calls for the tenant carry one request rate.
- Tenancy.TokenBound: negative quotas are not covered, and all calls for the tenant carry one token rate.
- Tenancy.TokensAtLeast: negative quotas and times before zero are not covered; negative costs count as nothing, so that the bound is lower than what is there.
- Tenancy.CreditAtLeast: negative rates and times before zero are not covered.
- Tenancy.WithinMeansIsAdmitted: negative rates, negative quotas and times before zero are not covered.
- TreeCluster.QuietAnswers: a backend that is removed from the membership at some point is not covered, because every replica then drops its prefixes whenever it learns of the removal, which may cross an insert.
- Tenancy.TokenBoundIff: negative rates and quotas are not covered.
- RadixTree.RadixTree.Insert: the clock value stored per holder is written but nothing reads it, so the contract does not speak of it.
- Disagg.NearOptimal: KV bytes per token are at least zero.
- Disagg.SplitIff: KV bytes per token and margin are at least zero, and both pools and their intersection have members.
- Disagg.WithinMarginIff: a prefill rate or block size of zero or less, negative KV sizes and negative margins are not covered.
- Disagg pools: the default output length and the parsing of pool specifications; the caller passes the resolved values.
- `DrainState.digest`, `peek_class`, `queue_depth`, `TenantRegistry` and `parse_weights`: plain reads and parsing.
