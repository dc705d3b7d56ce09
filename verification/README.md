# Verification of the BookSim2 network core

A Dafny model of the parts of BookSim2 whose guarantees are theorems, with proofs of those
guarantees over every input, every run or every reachable state.

- **Allocators and arbiters.** The maximum-size allocator finds a matching of maximum cardinality; its
  failed search is turned into a vertex cover of the same size. iSLIP and PIM share one model of a grant
  and accept iteration (`GrantAccept`); the wavefront allocator is characterised by the unique greedy
  matching in priority and diagonal order. The maximum-size allocator, iSLIP, wavefront and the matrix
  arbiter are starvation-free with explicit bounds; the matrix arbiter's matrix is the order of last grants.
- **Routing.** Shortest paths and loop-free forwarding on arbitrary graphs; dimension-order routing on
  tori, concentrated tori and meshes with exact hop counts and the ejection port taken at the last hop only;
  deadlock freedom of both torus schemes as an if-and-only-if; ROMM, also with its exact deadlock condition;
  the wiring and routing of the concentrated mesh.
- **Credit flow control.** The sender's slot accounting under all sharing policies, the delay line, the
  input buffer, and the loop between them as a state machine over its steps, with safety over all runs.
- **Injection.** The class queues, the round-robin scan and the choice of virtual channels, with the flits
  on every virtual channel shown to be whole packets, every flit made accounted for under numbers of its own, and
  injector, delay lines and input buffer run together.
- **Support.** The lagged-Fibonacci random number generator and the dependency tracker of the trace reader.

Objects that the simulator updates in place are classes with the same fields; raw buffers are arrays;
vectors, lists, queues, sets and maps are the corresponding Dafny values held in fields. Loops are loops
with invariants. `Error(...)` calls that a caller could provoke are results of the methods; those that are
shown to be unreachable are asserted. Random draws are arbitrary values, so every statement about a
random choice holds for all of them. Time and the answers of routing functions are parameters.

Some statements turned out to hold only under a condition. The failing inputs are lemmas, and the conditions
are exact unless said otherwise:

- Torus routing, plain or dateline, has cyclic waits for an odd number of virtual channels because the two
  halves share the middle one (`Torus.DeadlockFree`, `CkTorus.DeadlockFree`).
- The concentrated torus numbers its routers and its ejection ports with weights that are the mixed-radix
  strides only in some configurations. It is wired as a torus exactly when the router weights are
  (`CkTorus.WiringExactly`, `CkNodes.AddressRoundTrip`), and packets leave at their own nodes exactly when the
  offset weights are and no two routers share an address (`CkNodes.EjectionExactly`). Failing configurations:
  `CkNodes.RoundTripFails`, `CkNodes.EjectionFails`, `CkNodes.AddressesClash`.
- ROMM has cyclic waits for an odd number of virtual channels in two or more dimensions (`Romm.DeadlockFree`).
- With `buf_size` zero the private buffer policy admits flits that the buffer has no room for
  (`CreditLoop.PrivateSafeExactly`); in general a policy is safe exactly when what it divides up fits
  (`CreditLoop.SafeExactly`). The dynamic and shifting policies reach a share of zero in a run that takes
  all virtual channels of a buffer too small for them (`HeldSlotLimits.HeldSlots.TakeAll`).
- A waiting head keeps the virtual channel it was given while another class goes first, and can run into a packet
  that uses it. Where tail credit is awaited and there is room for two flits this happens exactly when a class that
  can be outranked shares virtual channels; elsewhere exactly when a class can be overtaken by one of its own
  priority, for shared buffers with a single slot only sufficient (`BusyRuns.NeverBusyExactly`; failing settings: `BusyRuns.TwoClassesClash`,
  `BusyRuns.ThreeClassesClash`).
- A request to iSLIP can starve when the requests it competes with are withdrawn and posted in turn
  (`ISlips.RepostingIsNeeded`); posting again all unserved requests for its output is sufficient.
- A request to the wavefront allocator that is cleared instead of allocated, and counted alone, is granted later
  (`Wavefronts.ClearedRequestIsGranted`).

`dafny verify dfyconfig.toml` checks the whole project.

## Model

| member | source | states |
|---|---|---|
| `Matching.CoverBound` | booksim2/src/allocators/maxsize.cpp:89-98 | no set of requests without a shared port is larger than any vertex cover of the requests |
| `Matching.CoverCertifies` | booksim2/src/allocators/maxsize.cpp:89-98 | a matching as large as some vertex cover is of maximum size among all matchings |
| `DenseAllocators.DenseAllocator.Clear` | booksim2/src/allocators/allocator.cpp:62-139 | after clearing there is no request and no grant, although the match vectors are rewritten only when something was requested since the last clear |
| `DenseAllocators.DenseAllocator.AddRequest` | booksim2/src/allocators/allocator.cpp:159-168 | the request relation gains exactly the new pair; grants are untouched |
| `MaxSize.DepthBound` | booksim2/src/allocators/maxsize.cpp:119-154 | a search tree level that is not empty has a number below the number of inputs, so `_inputs` levels are enough |
| `MaxSize.FailedSearchIsCertificate` | booksim2/src/allocators/maxsize.cpp:101-156 | a search that runs dry leaves a vertex cover of exactly the matching's size (König), so the matching is maximum |
| `MaxSize.SearchExhausted` | booksim2/src/allocators/maxsize.cpp:119-156 | after `_inputs` levels without a free output the matching is maximum |
| `MaxSize.MaxSizeMatch.ScanRow` | booksim2/src/allocators/maxsize.cpp:125-146 | scanning one input's row keeps the breadth-first tree and stops exactly at its lowest free output |
| `MaxSize.MaxSizeMatch.Flip` | booksim2/src/allocators/maxsize.cpp:158-194 | flipping an augmenting path gives a valid matching that is one larger and unmatches no port |
| `MaxSize.MaxSizeMatch.ShortestAugmenting` | booksim2/src/allocators/maxsize.cpp:101-212 | success grows the matching by exactly one and unmatches no port, and grants the first direct request in turn order if there is one; without a path nothing changes and the matching is maximum; the search can read past its array only if some request names an output beyond the number of inputs, and then changes nothing |
| `MaxSize.MaxSizeMatch.Allocate` | booksim2/src/allocators/maxsize.cpp:89-98 | the loop ends with a valid matching of maximum cardinality over all matchings of the requests, and no port matched before loses its match; from an empty matching an input goes without a grant only if at least as many inputs before it, counting from the priority, as it has requests got one; the priority moves on by one; it fails only as the search does |
| `MaxSize.HitIsFirst` | booksim2/src/allocators/maxsize.cpp:110-146 | a hit at the first level is the first unmatched input from the priority on with a request for a free output, and its lowest such output |
| `MaxSize.FirstIsServed` | booksim2/src/allocators/maxsize.cpp:89-115 | the first input with a request, counting from the priority, is matched, and so is every input with more requests than inputs before it |
| `MaxSize.NoStarvation` | booksim2/src/allocators/maxsize.cpp:89-115 | an input that requests m outputs or more in every round is matched once fewer than m inputs are left before it, hence in fewer rounds than there are inputs |
| `SparseAllocators.LowerBound` | booksim2/src/allocators/islip.cpp:72-92 | the first requesting port at or after a pointer |
| `SparseAllocators.RoundRobin` | booksim2/src/allocators/islip.cpp:72-106 | of all eligible ports the one first reached from the pointer, walking up and wrapping, is picked; none only if none is eligible |
| `SparseAllocators.SparseAllocator.Clear` | booksim2/src/allocators/allocator.cpp:270-286 | no request and no grant is left, and the two request maps and occupancy sets still agree |
| `SparseAllocators.SparseAllocator.AddRequest` | booksim2/src/allocators/allocator.cpp:317-346 | the request relation gains exactly the new pair, seen alike from the input and the output side |
| `GrantAccept.AcceptedWereFree` | booksim2/src/allocators/islip.cpp:58-163 | an accepted pair is a request between two ports that were free |
| `GrantAccept.IterationKeepsMatching` | booksim2/src/allocators/islip.cpp:58-163 | one grant and accept iteration keeps a valid matching within the requests and revokes no match, for any pointers |
| `GrantAccept.IterationMakesProgress` | booksim2/src/allocators/islip.cpp:58-163 | an iteration adds a match unless the matching is already maximal |
| `GrantAccept.FullIsMaximal` | booksim2/src/allocators/islip.cpp:47-170 | a matching as large as the smaller side is maximal |
| `ISlips.ISlip.GrantPhase` | booksim2/src/allocators/islip.cpp:58-105 | every free output grants to its first free requester from the grant pointer on |
| `ISlips.ISlip.AcceptOne` | booksim2/src/allocators/islip.cpp:122-152 | an input accepts, of the outputs that granted it, the first from its accept pointer on |
| `ISlips.ISlip.AcceptPhase` | booksim2/src/allocators/islip.cpp:120-170 | every input accepts its first grant from the accept pointer on; only first-iteration acceptances move the pointers, to one past the partner |
| `ISlips.ISlip.Allocate` | booksim2/src/allocators/islip.cpp:47-170 | exactly `_iSLIP_iter` iterations, the first with the old pointers and the others with the new ones: the matching stays valid, no match is revoked, each iteration adds one or the matching is maximal, and min(inputs, outputs) iterations make it maximal |
| `ISlips.WaitFalls` | booksim2/src/allocators/islip.cpp:58-170 | the wait of an unserved re-posted request (distance to it, to the current grantee, and of that grantee's accept pointer, taken lexicographically) falls every round |
| `ISlips.UnservedMustWait` | booksim2/src/allocators/islip.cpp:58-170 | a request with wait zero is served |
| `ISlips.NoStarvation` | booksim2/src/allocators/islip.cpp:58-170 | if every unserved request for output o is posted again each round, each is matched within inputs * inputs * outputs rounds, whatever is requested of the other outputs |
| `ISlips.RepostingIsNeeded` | booksim2/src/allocators/islip.cpp:58-170 | the hypothesis is needed: from the initial pointers a request posted in every round can starve for ever when competing unserved requests are withdrawn in turn |
| `Randoms.RandomInt` | booksim2/src/random_utils.hpp:51-53 | any number from 0 to max may come out, so everything built on it holds for every draw |
| `Pims.ScanPosition` | booksim2/src/allocators/pim.cpp:65-79 | the scan from a random offset meets every port exactly once |
| `Pims.Pim.GrantOne` | booksim2/src/allocators/pim.cpp:65-79 | an output grants to its first free requester at or after the offset |
| `Pims.Pim.AcceptOne` | booksim2/src/allocators/pim.cpp:87-101 | an input accepts its first grant at or after the offset |
| `Pims.Pim.Allocate` | booksim2/src/allocators/pim.cpp:49-103 | exactly `_PIM_iter` iterations, for every sequence of random offsets: valid matching, nothing revoked, each iteration adds a match or the matching is maximal, min(inputs, outputs) iterations make it maximal |
| `Wavefronts.GreedyIsUnique` | booksim2/src/allocators/wavefront.cpp:57-111 | priority class and diagonal order determine the outcome: two greedy matchings of the same requests are equal |
| `Wavefronts.SingleGrant` | booksim2/src/allocators/wavefront.cpp:67-72 | the bypass for a single request gives what the full diagonal scan gives |
| `Wavefronts.AllScanned` | booksim2/src/allocators/wavefront.cpp:78-99 | the scan over all classes and diagonals gives the greedy matching, and grants something if anything is requested |
| `Wavefronts.Wavefront.AddRequest` | booksim2/src/allocators/wavefront.cpp:47-55 | the counters tell of at least the requests, the last one counted is one of them, and the class set covers their classes; exactly so if it was before |
| `Wavefronts.Wavefront.Clear` | booksim2/src/allocators/allocator.cpp:62-139 | requests and grants are gone; the counters are not reset, so they tell of the requests only if and only if they were zero |
| `Wavefronts.ClearedRequestIsGranted` | booksim2/src/allocators/wavefront.cpp:57-72 | a request that is posted and then cleared is granted by the next allocation |
| `Wavefronts.Wavefront.FullScan` | booksim2/src/allocators/wavefront.cpp:78-99 | the nested loops compute the greedy matching |
| `Wavefronts.Wavefront.Allocate` | booksim2/src/allocators/wavefront.cpp:57-111 | grants lie within the requests if and only if it is not the case that a cleared request is counted alone; then the outcome is the greedy matching whether or not the bypass is taken, every refused request lost its input or output to one of at least its out_pri and, if equal, at least its in_pri, and the priority diagonal moves on from itself or from the first granted diagonal; the assertion fails exactly when several requests are counted and none is left |
| `Wavefronts.RefusedForHigherOrEqual` | booksim2/src/allocators/wavefront.cpp:78-99 | a request is refused only if its input or its output went to a request of higher out_pri, or of the same out_pri and at least its in_pri, compared as numbers |
| `Wavefronts.GreedyGrants` | booksim2/src/allocators/wavefront.cpp:57-111 | the greedy matching is by priority: of two requests that share a port the granted one is at least as high in numbers |
| `Wavefronts.LostToEarlierDiagonal` | booksim2/src/allocators/wavefront.cpp:82-110 | a refused request of the top class lost to a strictly earlier diagonal |
| `Wavefronts.NoStarvation` | booksim2/src/allocators/wavefront.cpp:57-111 | in both diagonal modes a re-posted request that no other exceeds in (out_pri, in_pri) is granted within `_square` rounds |
| `MatrixArbiters.BestIsUnique` | booksim2/src/arbiters/matrix_arb.cpp:81-118 | at most one request is best |
| `MatrixArbiters.BestExists` | booksim2/src/arbiters/matrix_arb.cpp:81-118 | if anyone requests, some request is best |
| `MatrixArbiters.MovedLastKeepsOrder` | booksim2/src/arbiters/matrix_arb.cpp:63-73 | sending the winner to the back keeps a strict total order |
| `MatrixArbiters.GrantIsMostRecent` | booksim2/src/arbiters/matrix_arb.cpp:63-73 | one input goes before another exactly when it was granted less recently; of those never granted the higher goes first |
| `MatrixArbiters.MatrixArbiter.constructor` | booksim2/src/arbiters/matrix_arb.cpp:41-50 | the initial matrix is the strict total order in which higher inputs go first |
| `MatrixArbiters.MatrixArbiter.AddRequest` | booksim2/src/arbiters/arbiter.cpp:56-65 | exactly one entry changes and the request count stays right |
| `MatrixArbiters.MatrixArbiter.Clear` | booksim2/src/arbiters/matrix_arb.cpp:120-124 | no request is left |
| `MatrixArbiters.MatrixArbiter.Arbitrate` | booksim2/src/arbiters/matrix_arb.cpp:81-118 | the grant goes to the unique best of the highest-priority requests; the shortcut for one request agrees with the scan |
| `MatrixArbiters.MatrixArbiter.UpdateState` | booksim2/src/arbiters/matrix_arb.cpp:63-73 | the last winner becomes the least favoured input and the others keep their order; the matrix is always the order of the last grants |
| `MatrixArbiters.FewerBeaters` | booksim2/src/arbiters/matrix_arb.cpp:63-118 | every round a top request loses takes exactly one input out of those ahead of it |
| `MatrixArbiters.NoStarvation` | booksim2/src/arbiters/matrix_arb.cpp:63-118 | a request that stays at the top priority wins within `_size` grant-and-update rounds |
| `AnyNets.FrontierOnPath` | booksim2/src/networks/anynet.cpp:268-292 | on any walk to a router the search has an unsettled router at most as far as the walk is long, or has settled the router that near |
| `AnyNets.TreeIsShortest` | booksim2/src/networks/anynet.cpp:258-292 | the distances found are the least total latency over all walks |
| `AnyNets.AnyNet.FindMin` | booksim2/src/networks/anynet.cpp:269-280 | the nearest unsettled router is picked |
| `AnyNets.AnyNet.RelaxNeighbours` | booksim2/src/networks/anynet.cpp:282-291 | one settled router's distance is passed on to all its neighbours and the search invariant is restored |
| `AnyNets.AnyNet.Dijkstra` | booksim2/src/networks/anynet.cpp:258-292 | a shortest-path tree from the start router to every router |
| `AnyNets.AnyNet.FirstHop` | booksim2/src/networks/anynet.cpp:305-315 | walking back along prev ends at a neighbour that starts a shortest path, and both lookups on the way exist |
| `AnyNets.AnyNet.Route` | booksim2/src/networks/anynet.cpp:258-324 | every node gets a port: its own port at its router, else that of a first hop of a shortest path |
| `AnyNets.AnyNet.BuildRoutingTable` | booksim2/src/networks/anynet.cpp:246-253 | every router's table holds such ports |
| `AnyNets.AnyNet.MinAnynet` | booksim2/src/networks/anynet.cpp:217-244 | the port leads to a router nearer by exactly the link's latency, or to the node itself |
| `AnyNets.GoodHopIsNearer` | booksim2/src/networks/anynet.cpp:305-322 | a first hop of one router's shortest path lowers the true distance by the link latency |
| `AnyNets.OneHop` | booksim2/src/networks/anynet.cpp:217-324 | following one router's own table leads to a router whose own distance is smaller by the link latency, despite independent tie-breaking |
| `AnyNets.ForwardDelivers` | booksim2/src/networks/anynet.cpp:217-324 | hop-by-hop forwarding over independently built tables reaches the node's router along a walk of minimum total latency |
| `AnyNets.ForwardNeverLoops` | booksim2/src/networks/anynet.cpp:217-324 | it never visits a router twice |
| `Radix.ToFrom` | booksim2/src/networks/ckncube.cpp:397-427 | positions survive the round trip through the address |
| `Radix.FromTo` | booksim2/src/networks/ckncube.cpp:397-427 | addresses survive the round trip through the positions |
| `Radix.PositionByStride` | booksim2/src/networks/kncube.cpp:192-220 | a position is found by dividing by its stride |
| `Radix.WeightsExact` | booksim2/src/networks/ckncube.cpp:419-427 | a weighted sum is the address of every position vector exactly when the weights are the strides |
| `Torus.EnterClimbs` | booksim2/src/routefunc.cpp:607-648 | entering a ring, plain or balanced, picks a shortest direction and a partition from which the ranks climb up to the destination |
| `Torus.MoveClimbs` | booksim2/src/routefunc.cpp:592-658 | one hop along the ring is one nearer and one rank higher, also across the wrap link |
| `Torus.HopsClimb` | booksim2/src/routefunc.cpp:592-658 | consecutive hops of any packet climb the rank of (link, partition) |
| `Torus.HalvesDisjoint` | booksim2/src/routefunc.cpp:1592-1600 | the two VC partitions are disjoint exactly for an even VC count |
| `Torus.WaitingClimbs` | booksim2/src/routefunc.cpp:1553-1619 | whoever holds one channel and waits for another waits for a higher rank |
| `Torus.OddSharesChannel` | booksim2/src/routefunc.cpp:1592-1600 | with an odd VC count and rings of four or more routers there is a cyclic wait |
| `Torus.DeadlockFree` | booksim2/src/routefunc.cpp:1553-1756 | plain and balanced dimension-order torus routing has no cyclic wait, over all runs and draws, if and only if the VC count is even or the rings have fewer than four routers |
| `Torus.HopCounts` | booksim2/src/routefunc.cpp:592-658 | every hop is one fewer to go |
| `Torus.Delivers` | booksim2/src/routefunc.cpp:592-658 | whatever is drawn, a packet arrives after exactly the sum of its ring distances |
| `Torus.HandedOver` | booksim2/src/routefunc.cpp:592-658 | the ejection port is taken at hop number `sum of ring distances` and at no hop before |
| `Torus.WiredNeighbor` | booksim2/src/networks/kncube.cpp:192-220 | the wired neighbour differs by one step in exactly one position |
| `Torus.WiredPort` | booksim2/src/networks/kncube.cpp:119-190 | the channel behind an output is the input of exactly one port: the opposite port of the neighbour |
| `Torus.WireRouter` | booksim2/src/networks/kncube.cpp:105-169 | ports 2d and 2d + 1 are the right and left channels of dimension d, and the last port, 2n, is the node's own and no channel between routers |
| `Torus.HopIsWired` | booksim2/src/networks/kncube.cpp:119-190 | a hop of the model leads to the router and input port that the wiring gives |
| `Torus.LowestDiff` | booksim2/src/routefunc.cpp:600-603 | dividing both addresses by k finds the lowest dimension in which they differ |
| `Torus.EnterRing` | booksim2/src/routefunc.cpp:607-648 | the shorter way round by the number of steps, and half 1 exactly for a lower destination (plain) or for crossing the wrap link (balanced, half 0 for crossing the middle) |
| `Torus.DorNextTorus` | booksim2/src/routefunc.cpp:592-658 | ejected exactly at the destination; else a link of the lowest dimension that differs, straight on with the same partition inside a ring, and on entering the shorter way (drawn if equal) with the partition of the plain or balanced rule, in numbers |
| `Torus.DimOrderTorus` | booksim2/src/routefunc.cpp:1553-1619 | the same, with the lower or upper half of the VC class rounded up, and the whole class exactly where the packet is ejected |
| `CkTorus.RingHop` | booksim2/src/networks/ckncube.cpp:502-522 | a hop is one nearer, keeps its direction inside the dimension whatever the tie draw, and climbs with its dateline class |
| `CkTorus.HopsClimb` | booksim2/src/networks/ckncube.cpp:479-523 | consecutive hops climb the (link, class) order and never reverse inside a dimension |
| `CkTorus.WaitingClimbs` | booksim2/src/networks/ckncube.cpp:579-637 | whoever holds one channel and waits for another waits for a higher rank |
| `CkTorus.OddSharesChannel` | booksim2/src/networks/ckncube.cpp:599-614 | with an odd VC count and a ring of four or more routers there is a cyclic wait |
| `CkTorus.DeadlockFree` | booksim2/src/networks/ckncube.cpp:579-637 | dateline routing has no cyclic wait if and only if the VC count is even or every ring has fewer than four routers |
| `CkTorus.HopCounts` | booksim2/src/networks/ckncube.cpp:479-523 | every hop lowers the summed ring distances by one |
| `CkTorus.Delivers` | booksim2/src/networks/ckncube.cpp:479-523 | a packet reaches its router after exactly the summed ring distances |
| `CkTorus.HandedOver` | booksim2/src/networks/ckncube.cpp:479-523 | it takes a link at every hop before that and an ejection port then |
| `CkNodes.AddressRoundTrip` | booksim2/src/networks/ckncube.cpp:397-427 | IndexToRouter inverts RouterIndex on every router if and only if its weights are the strides |
| `CkNodes.RoundTripFails` | booksim2/src/networks/ckncube.cpp:397-427 | with 2, 3 and 2 routers per dimension the weights are 1, 2, 9 instead of 1, 2, 6, and router 11 gets address 14, past the last one |
| `CkNodes.StridesHold` | booksim2/src/networks/ckncube.cpp:419-427 | that holds for up to two dimensions and for equal radices |
| `CkNodes.Powi` | booksim2/src/misc_utils.cpp:33-42 | x multiplied by itself y times |
| `CkNodes.RouterIndex` | booksim2/src/networks/ckncube.cpp:397-406 | repeated division gives the mixed-radix positions |
| `CkNodes.IndexToRouter` | booksim2/src/networks/ckncube.cpp:419-427 | the weighted sum of the positions |
| `CkTorus.LinkedRouter` | booksim2/src/networks/ckncube.cpp:252-279 | the weighted sum of the position one step away, wrapping at the ends, which is the neighbour's true address when the weights are the strides |
| `CkNodes.NodeIndex` | booksim2/src/networks/ckncube.cpp:408-417 | a node's positions counted in nodes per dimension |
| `CkNodes.NodeInRouter` | booksim2/src/networks/ckncube.cpp:386-395 | the weighted sum of the node's router position, which is the router's true address when the weights are the strides |
| `CkNodes.ConcentrationOffset` | booksim2/src/networks/ckncube.cpp:429-438 | the weighted sum of the node's place on its router |
| `CkNodes.OffsetsExactly` | booksim2/src/networks/ckncube.cpp:429-438 | different places on a router get different ejection ports if and only if the offset weights are the strides, as in up to two dimensions |
| `CkNodes.OffsetsClash` | booksim2/src/networks/ckncube.cpp:429-438 | otherwise two places share a port |
| `CkNodes.OffsetsInOrder` | booksim2/src/networks/ckncube.cpp:429-438 | then the nodes of one router get distinct ports below their number, in the order of their addresses |
| `CkNodes.AttachNodes` | booksim2/src/networks/ckncube.cpp:217-231 | fails exactly when the computed router address of some node lies outside the network; otherwise every router gets the nodes with its address, in increasing order |
| `CkNodes.StridesNumber` | booksim2/src/networks/ckncube.cpp:419-427 | stride weights give every position a router address of its own inside the network |
| `CkNodes.AttachedByPlace` | booksim2/src/networks/ckncube.cpp:217-231 | if every position has a router address of its own, a router carries one node per place, and the node at a place is attached as the number that place has in mixed radix |
| `CkNodes.EjectionExactly` | booksim2/src/networks/ckncube.cpp:429-438 | every packet leaves through the port its node was attached to if and only if the offset weights are the strides and every position has a router address of its own inside the network |
| `CkNodes.EjectionFails` | booksim2/src/networks/ckncube.cpp:429-438 | with two nodes per dimension in three dimensions the nodes at (0, 1, 0) and (0, 0, 1) of a router share port 2, so some packet leaves at the wrong node |
| `CkNodes.AddressesClash` | booksim2/src/networks/ckncube.cpp:217-231 | with 3, 2, 2 routers and 2, 1, 1 nodes per router the offsets are right and all addresses exist, but two routers share address 4 and some packet leaves at the wrong node |
| `CkNodes.NumberedButPermuted` | booksim2/src/networks/ckncube.cpp:419-427 | addresses of their own need not be the true ones: with 1, 8, 2, 8 routers they are permuted |
| `CkTorus.WiringExactly` | booksim2/src/networks/ckncube.cpp:166-197 | the channel behind every output is the input of exactly the opposite port of the neighbour if and only if the router weights are the strides |
| `CkTorus.DorNextCkntorus` | booksim2/src/networks/ckncube.cpp:479-523 | a link exactly away from the node's router: in the lowest differing dimension, the way with fewer steps; the assertion holds whenever the node's router exists; packets leave through the very port the node was attached to when offset weights are strides and every position has an address of its own |
| `CkTorus.DimOrderDateline` | booksim2/src/networks/ckncube.cpp:579-637 | the VC range is the lower half rounded up, the upper one if the destination has the lower position, and the whole class at the node's router, where the port is the one the node was attached to under the same condition |
| `Mesh.HopCounts` | booksim2/src/routefunc.cpp:559-588 | a hop is one nearer, changes one position and uses no wrap link |
| `Mesh.Delivers` | booksim2/src/routefunc.cpp:559-588 | in either dimension order a packet arrives after exactly the Manhattan distance |
| `Mesh.HandedOver` | booksim2/src/routefunc.cpp:559-588 | the ejection port is taken at hop number `Manhattan distance` and at no hop before |
| `Mesh.TopDigit` | booksim2/src/routefunc.cpp:567-573 | multiplying by k and dividing by the node count peels off the top position |
| `Mesh.LowestDim` | booksim2/src/routefunc.cpp:574-580 | the lowest differing dimension and the positions there |
| `Mesh.HighestDim` | booksim2/src/routefunc.cpp:567-573 | the scaled top digit finds the highest differing dimension and the positions there |
| `Mesh.DorNextMesh` | booksim2/src/routefunc.cpp:559-588 | ejected exactly at the destination; else a link of the lowest or highest differing dimension, to the right exactly if the destination lies there |
| `Mesh.QuadrantIsMinimal` | booksim2/src/routefunc.cpp:811-832 | going through a router of the minimal quadrant costs nothing |
| `Mesh.RandMinIntrMesh` | booksim2/src/routefunc.cpp:811-832 | whatever is drawn, the intermediate router lies between the endpoints in every dimension |
| `Mesh.RommHopCounts` | booksim2/src/routefunc.cpp:836-895 | in both phases a hop is one nearer to the destination |
| `Mesh.RommDelivers` | booksim2/src/routefunc.cpp:836-895 | through any drawn intermediate router a packet needs exactly the Manhattan distance |
| `Mesh.RommHandedOver` | booksim2/src/routefunc.cpp:836-895 | in either phase and for any draw the ejection port is taken at hop number `Manhattan distance` and at no hop before |
| `Mesh.RommPhaseIsFinal` | booksim2/src/routefunc.cpp:836-895 | a packet in flight in phase 1 never returns to phase 0 |
| `Mesh.RommMesh` | booksim2/src/routefunc.cpp:836-895 | phase 0 lasts from injection until the intermediate router is met, the port is a step toward the phase's target, the packet is ejected exactly in phase 1 at its destination, and elsewhere the VC range is the half of the phase |
| `Romm.NextRequest` | booksim2/src/routefunc.cpp:836-895 | two requests of one packet in a row: the second is in the later phase, or in a higher dimension, or one step further in the same direction |
| `Romm.WaitingClimbs` | booksim2/src/routefunc.cpp:836-895 | whoever holds one channel and waits for another waits for a higher one |
| `Romm.OddSharesChannel` | booksim2/src/routefunc.cpp:871-886 | with an odd VC count four packets around a square wait for each other on the shared channel |
| `Romm.DeadlockFree` | booksim2/src/routefunc.cpp:836-895 | ROMM has no cyclic wait, for any random draw, if and only if the VC count is even or the mesh has a single dimension or a single router |
| `CMesh.SinkMeetsSource` | booksim2/src/networks/cmesh.cpp:183-232 | the channel behind an output is the channel in front of the input it ends at, express channels included |
| `CMesh.SinkIsInvolution` | booksim2/src/networks/cmesh.cpp:183-232 | links are symmetric |
| `CMesh.InChannelUnique` | booksim2/src/networks/cmesh.cpp:183-232 | no channel is the input of two ports |
| `CMesh.BuildNet` | booksim2/src/networks/cmesh.cpp:163-232 | the wiring uses every channel exactly once as an output and exactly once as an input |
| `CMesh.AttachmentInverts` | booksim2/src/networks/cmesh.cpp:318-336 | NodeToRouter and NodeToPort invert the attachment formula |
| `CMesh.EveryNodeAttached` | booksim2/src/networks/cmesh.cpp:163-178 | every node address is attached to some router and port |
| `CMesh.AttachNodes` | booksim2/src/networks/cmesh.cpp:162-178 | port cX * y + x of a router carries the node that the attachment formula names for place (x, y) |
| `CMesh.HopIsNearer` | booksim2/src/networks/cmesh.cpp:671-727 | columns first, then rows; a hop covers one step, or half a side where twice the distance is at least a side and the router lies on the edge the express channels run along |
| `CMesh.HopCounts` | booksim2/src/networks/cmesh.cpp:671-727 | each hop lowers the exact number of hops to go by one |
| `CMesh.WiredHopCounts` | booksim2/src/networks/cmesh.cpp:183-232 | over the wiring that was built a hop is exactly one fewer to go |
| `CMesh.Delivers` | booksim2/src/networks/cmesh.cpp:671-727 | every packet arrives after exactly the hops counted beforehand: half sides by express channel, single steps for the rest |
| `CMesh.DorCmesh` | booksim2/src/networks/cmesh.cpp:729-781 | a packet is handed to its node's port exactly at its router; elsewhere the port is a link |
| `FlowControl.PoolUpdate` | booksim2/src/buffer_state.cpp:196-233 | changing one virtual channel moves its own group's occupancy, and the shared occupancy by what the group moves past its private size |
| `FlowControl.TakeKeeps` | booksim2/src/buffer_state.cpp:654-666 | taking a free virtual channel keeps every limit |
| `FlowControl.SendKeeps` | booksim2/src/buffer_state.cpp:212-233 | a send that was not reported full keeps every limit, on any virtual channel |
| `FlowControl.SendBreaks` | booksim2/src/buffer_state.cpp:212-233 | a send that was reported full breaks one, so the overflow checks catch exactly those |
| `FlowControl.CreditKeeps` | booksim2/src/buffer_state.cpp:235-242 | a credit for an occupied slot keeps every limit and the one-slot reservation rule |
| `FlowControl.NeverOverflows` | booksim2/src/buffer_state.cpp:622-652 | all occupied slots together never exceed what the policy divides up |
| `FlowControl.StartedKept` | booksim2/src/buffer_state.cpp:212-242 | every step keeps a slot or a reservation for a packet between head and tail |
| `FlowControl.DrainedIsNeverFull` | booksim2/src/buffer_state.cpp:244-250 | such a packet with no flit left in the buffer is not reported full, whatever the other virtual channels hold |
| `FlowControl.RoomExactly` | booksim2/src/buffer_state.cpp:252-258 | reserved, private and shared slots left, added up, are exactly the flits that can be sent before the virtual channel is full |
| `FlowControl.RoomAdmits` | booksim2/src/buffer_state.cpp:300-304 | with a limit the smaller of that and what is left to the limit is exactly how many more flits fit |
| `FlowControl.RoomWithin` | booksim2/src/buffer_state.cpp:260-264 | what is held and what still fits never exceed the private and the shared slots together |
| `FlowControl.PrivateFits` | booksim2/src/buffer_state.cpp:88-99 | the private slots fit the buffer if and only if buf_size is not zero; at zero each virtual channel still gets vc_buf_size slots of a buffer that has none |
| `FlowControl.StartsClimb` | booksim2/src/buffer_state.cpp:155-179 | the default ranges are non-empty, adjacent and cover all virtual channels |
| `FlowControl.StartsEven` | booksim2/src/buffer_state.cpp:155-179 | and as even as they can be: none is a whole virtual channel off the average |
| `FlowControl.BuildMap` | booksim2/src/buffer_state.cpp:181-191 | the assertions hold if and only if the configured ranges are non-empty, in range and disjoint and the private buffers fit; then every virtual channel is mapped to its range and no slot is lost or counted twice |
| `FlowControl.DefaultRanges` | booksim2/src/buffer_state.cpp:155-179 | the default ranges satisfy that condition |
| `FlowControl.DefaultCovers` | booksim2/src/buffer_state.cpp:155-191 | and leave no virtual channel without a private buffer |
| `HeldSlotLimits.LeastPowerAbove` | booksim2/src/buffer_state.cpp:341-352 | the shift loop divides by the least power of two that covers the active packets |
| `HeldSlotLimits.LimitIsShare` | booksim2/src/buffer_state.cpp:312-366 | the limit in numbers: the configured one (the whole buffer if negative), or the largest n such that the active packets, or the least power of two covering them, times n fit in the buffer |
| `HeldSlotLimits.AlwaysPositive` | booksim2/src/buffer_state.cpp:318-366 | the limit assertions of the dynamic and shifting policies hold in every state if and only if the buffer covers all virtual channels (rounded up to a power of two when shifting) |
| `HeldSlotLimits.HeldSlots.Halved` | booksim2/src/buffer_state.cpp:341-352 | the shift loop computes that quotient |
| `HeldSlotLimits.HeldSlots.TakeBuffer` | booksim2/src/buffer_state.cpp:276-282 | the active count is the number of packets under way, never more than the virtual channels, and the limit is their share in numbers; the limit assertion fails exactly when the new share is empty |
| `HeldSlotLimits.HeldSlots.SendingFlit` | booksim2/src/buffer_state.cpp:284-293 | the tail of a packet under way takes it out of the count, the limit is the share of the others and never empty |
| `HeldSlotLimits.HeldSlots.TakeAll` | booksim2/src/buffer_state.cpp:318-352 | a run that takes every virtual channel in turn gets through if and only if the buffer covers them all |
| `FeedbackLimits.ComputeLimit` | booksim2/src/buffer_state.cpp:407-413 | the limit is never below one |
| `FeedbackLimits.LimitByCycle` | booksim2/src/buffer_state.cpp:407-413 | at twice the least latency the limit is the offset, and every cycle more costs one slot, down to one |
| `FeedbackLimits.AverageIsWeighted` | booksim2/src/buffer_state.cpp:397-405 | the first sample is the average; later ones count one part in 2^scale, rounded down |
| `FeedbackLimits.AverageMovesToSample` | booksim2/src/buffer_state.cpp:397-405 | the shifted moving average moves toward the sample and never past it |
| `FeedbackLimits.Feedback.SendingFlit` | booksim2/src/buffer_state.cpp:500-516 | pending credits are exactly the uncredited flits sent before the outstanding probe (simple form); all uncredited send times are queued (plain form) |
| `FeedbackLimits.Feedback.FreeSlotFor` | booksim2/src/buffer_state.cpp:427-539 | a sample is taken exactly when the credited flit was timed, and it is that flit's own round trip; average and limit follow it, the other virtual channels keep theirs, and the total mapped size stays the sum of the limits |
| `FeedbackLimits.Feedback.TakeSample` | booksim2/src/buffer_state.cpp:427-473 | the virtual channel's average and limit follow the sample, and the total mapped size stays the sum of the limits |
| `FeedbackLimits.Feedback.MaxSlots` | booksim2/src/buffer_state.cpp:415-425 | the limit in force is the smaller of the recorded one and the one for a round trip that ends now, at least one |
| `FeedbackLimits.Feedback.constructor` | booksim2/src/buffer_state.cpp:372-395 | no limit but the buffer and no average before the first sample |
| `BufferStates.BufferState.PoolFullFor` | booksim2/src/buffer_state.cpp:244-250 | the counters report full exactly when the sums they stand for do |
| `BufferStates.BufferState.IsFullFor` | booksim2/src/buffer_state.cpp:244-250 | full exactly when the pool is full or the occupancy has reached the limit in force: the configured or current share of the buffer, or the feedback limit of this time; never for a packet that has drained |
| `BufferStates.BufferState.AvailableFor` | booksim2/src/buffer_state.cpp:252-258 | exactly the number of flits that can be sent on the virtual channel before the same policy reports full |
| `BufferStates.BufferState.LimitFor` | booksim2/src/buffer_state.cpp:260-264 | occupancy and available slots together never exceed it, and it never exceeds the share or feedback limit in force |
| `BufferStates.BufferState.AloneUsesLimit` | booksim2/src/buffer_state.cpp:252-264 | with the other virtual channels empty, occupancy and available slots together are the limit |
| `BufferStates.BufferState.TakeBuffer` | booksim2/src/buffer_state.cpp:654-666 | fails exactly when the virtual channel is in use; otherwise no counter changes |
| `BufferStates.BufferState.ProcessFreeSlot` | booksim2/src/buffer_state.cpp:196-210 | one slot leaves the group and, if it was in excess, the shared pool; fails exactly when a count would go negative |
| `BufferStates.BufferState.ReleaseReserved` | booksim2/src/buffer_state.cpp:227-232 | with no reservation there is nothing to do; otherwise all of them go back |
| `BufferStates.BufferState.PoolSendingFlit` | booksim2/src/buffer_state.cpp:212-233 | a send uses the reservation or one new slot; the tail finds no reservation left |
| `BufferStates.BufferState.SendingFlit` | booksim2/src/buffer_state.cpp:622-652 | fails exactly when the policy reported full; otherwise every counter is again the sum it stands for, even on a virtual channel nobody took (where a limited policy may fail for counting a packet's end too many) |
| `BufferStates.BufferState.CountSend` | booksim2/src/buffer_state.cpp:101-233 | the counters of the private and shared policies after a send are the sums they stand for; fails exactly when full |
| `BufferStates.BufferState.CreditFor` | booksim2/src/buffer_state.cpp:574-619 | fails exactly when no slot is occupied; otherwise every counter is again the sum it stands for, and a feedback policy measures the round trip of the oldest flit at the time of the credit |
| `BufferStates.BufferState.ProcessCredit` | booksim2/src/buffer_state.cpp:574-619 | credits every named virtual channel once, in any order, each with its own measurement, and fails exactly when one of them has no occupied slot |
| `BufferStates.SendStep` | booksim2/src/buffer_state.cpp:212-233 | the counter arithmetic of a send matches the sums |
| `BufferStates.CreditStep` | booksim2/src/buffer_state.cpp:196-242 | the counter arithmetic of a credit matches the sums and nothing goes below zero |
| `Channels.Channel.ReadInputs` | booksim2/src/channel.hpp:102-107 | an item is queued for exactly its delay |
| `Channels.Channel.WriteOutputs` | booksim2/src/channel.hpp:110-125 | exactly the item due now leaves, so nothing is early, late, lost or overtaken and the time assertion holds |
| `Flits.Buffer.AddFlit` | booksim2/src/buffer.cpp:68-78 | fails exactly when the buffer is full or the flit belongs to another packet than the one being received |
| `Flits.Buffer.RemoveFlit` | booksim2/src/vc.cpp:113-126 | the oldest flit leaves; fails exactly on an empty virtual channel |
| `Flits.NeverUnexpected` | booksim2/src/vc.cpp:83-98 | a receiver of whole packets in order never sees an unexpected packet |
| `CreditLoop.OutstandingIsQueue` | booksim2/src/buffer_state.cpp:574-652 | per virtual channel, returning credits, buffered flits and flits on the wire form one queue: sends append, credits remove the oldest, nothing else changes it |
| `CreditLoop.StepKeepsInv` | booksim2/src/buffer_state.cpp:574-666 | every step keeps: occupancy equals flits on the wire plus in the buffer plus credits returning, the pool limits, the packet boundaries on both sides and the slot of a packet being sent |
| `CreditLoop.RoomToDeliver` | booksim2/src/buffer.cpp:68-78 | the buffer has room for whatever is on the wire |
| `CreditLoop.CreditsAreOwed` | booksim2/src/buffer_state.cpp:574-619 | a returning credit stands for an occupied slot of a virtual channel that is still held if tail credit is awaited |
| `CreditLoop.NoFault` | booksim2/src/buffer_state.cpp:574-666 | no step from such a state reports an error |
| `CreditLoop.RunIsSafe` | booksim2/src/buffer_state.cpp:574-666 | in every run that sends only when not full, every state keeps the invariant and no error of BufferState, Buffer or VC is reported |
| `CreditLoop.OverCommitted` | booksim2/src/buffer_state.cpp:88-194 | a policy that divides up more slots than the buffer has, each usable by some virtual channel, runs into an overflow |
| `CreditLoop.SafeExactly` | booksim2/src/buffer_state.cpp:541-666 | no run reports an error if and only if the slots the policy divides up fit in the buffer (when there is a virtual channel to use each of them) |
| `CreditLoop.PrivateSafeExactly` | booksim2/src/buffer_state.cpp:88-99 | the private policy is safe in every run if and only if buf_size is not zero |
| `CreditLoop.DrainedPacketMaySend` | booksim2/src/buffer_state.cpp:212-250 | in every run under a shared policy a packet past its head holds a slot, and once drained is not reported full |
| `Injection.UniformIsSafe` | booksim2/src/trafficmanager.cpp:842-844 | equal priorities are a safe setting |
| `Injection.DisjointIsSafe` | booksim2/src/trafficmanager.cpp:896-923 | so are classes that share no virtual channel |
| `Injection.SafeIsSteady` | booksim2/src/trafficmanager.cpp:842-923 | a safe setting is steady: no class can be overtaken by one of its own priority on a shared virtual channel |
| `Injection.PacketIsWhole` | booksim2/src/trafficmanager.cpp:682-733 | a generated packet is one head-to-tail packet |
| `Injection.SelectFindsAll` | booksim2/src/trafficmanager.cpp:896-923 | a search that finds no virtual channel has tried the whole range, or only its first one when the last one used lies outside |
| `Injection.SelectIsNext` | booksim2/src/trafficmanager.cpp:896-923 | the virtual channel found is the first usable one after the last one used, counted cyclically |
| `Injection.ScanServes` | booksim2/src/trafficmanager.cpp:824-943 | after the round-robin scan nothing that could be sent outranks the winner, nor has its priority and comes before it |
| `Injection.ScanTouches` | booksim2/src/trafficmanager.cpp:824-943 | the scan changes nothing but to give usable virtual channels to heads that win or are outranked by the winner |
| `Injection.CycleMoves` | booksim2/src/trafficmanager.cpp:824-1010 | a cycle takes at most the front flit of one class, which is then the last class served, and after a head its virtual channel is the last one used |
| `Injection.PassedOver` | booksim2/src/trafficmanager.cpp:824-943 | a class with a flit that could be sent is passed over only for a higher priority, or for an equal one, and then moves up in turn |
| `Injection.ServedInTurn` | booksim2/src/trafficmanager.cpp:824-943 | so a class that is not outranked is served after fewer cycles than there are classes |
| `Injection.ContinuesOnVc` | booksim2/src/trafficmanager.cpp:945-1010 | a flit whose virtual channel is in order continues what was sent there, and no other class is sending there |
| `Injection.LeaveKeeps` | booksim2/src/trafficmanager.cpp:945-1010 | a send, with the virtual channel passed back to the next flit, keeps whole packets on every virtual channel and every class queue consistent |
| `Holding.NeverAhead` | booksim2/src/trafficmanager.cpp:824-975 | in a steady setting no head is considered before a waiting head of equal priority on its virtual channel |
| `Holding.WinnerIsClear` | booksim2/src/trafficmanager.cpp:824-975 | the winning head finds its virtual channel free, by the priority of whoever else is sending there or because nobody may be |
| `Holding.CycleKeeps` | booksim2/src/trafficmanager.cpp:824-1010 | a cycle meets no busy virtual channel, and in a setting safe for the buffer it keeps the flits on every virtual channel whole packets back to back |
| `Holding.CreditsKeepInjection` | booksim2/src/trafficmanager.cpp:776-790 | credits change nothing about that |
| `InjectionRuns.SafeIsNeverBusy` | booksim2/src/trafficmanager.cpp:824-1010 | in a setting safe for the buffer no run of packets, credits and cycles meets a busy virtual channel, under any policy |
| `BusyRuns.ToppedBecomesBusy` | booksim2/src/trafficmanager.cpp:824-975 | if a third class outranks two of one priority on a shared virtual channel, some run meets a busy one, under every policy with room for a flit and whether or not tail credit is awaited |
| `BusyRuns.UnsafeBecomesBusy` | booksim2/src/trafficmanager.cpp:824-975 | with tail credit awaited and room for two flits, some run of every unsafe setting meets a busy virtual channel, under every policy |
| `BusyRuns.UnsteadyBecomesBusy` | booksim2/src/trafficmanager.cpp:824-975 | otherwise some run of every setting that is not steady does, under the private policy and under every policy with room for two flits |
| `BusyRuns.NeverBusyExactly` | booksim2/src/trafficmanager.cpp:824-975 | no run meets a busy virtual channel if and only if the setting is safe (tail credit awaited and two slots) or steady (else), under the private policy and under every policy with room for two flits; sufficient under every policy |
| `BusyRuns.TwoClassesClash` | booksim2/src/trafficmanager.cpp:842-975 | priorities 0 and 1 on one shared virtual channel are a failing input |
| `BusyRuns.TwoClassesAreSteady` | booksim2/src/trafficmanager.cpp:824-975 | two classes alone never clash without awaited tail credit |
| `BusyRuns.ThreeClassesClash` | booksim2/src/trafficmanager.cpp:842-975 | three classes of priorities 1, 0, 0, the last two on one virtual channel, clash with and without awaited tail credit |
| `Injectors.Injector.GeneratePacket` | booksim2/src/trafficmanager.cpp:649-735 | the packet's flits join the class queue in order, numbered on from the last flit, under a packet number never used before, and both counters move on; or nothing changes when the queue is long or there is no destination |
| `Numbering.MadeNext` | booksim2/src/trafficmanager.cpp:665-733 | the list of flits made keeps its numbering: positions as flit numbers, one packet number per packet, higher for later packets |
| `Numbering.SamePacket` | booksim2/src/trafficmanager.cpp:665-733 | two flits ever made carry the same packet number exactly when no packet starts in between |
| `Numbering.GenerateAccounts` | booksim2/src/trafficmanager.cpp:649-735 | generating a packet keeps: every flit made is waiting or was sent, once, and there are no others |
| `Numbering.CycleAccounts` | booksim2/src/trafficmanager.cpp:824-1010 | so does every cycle: nothing is lost, duplicated or renumbered |
| `Numbering.NumbersGivenOut` | booksim2/src/trafficmanager.cpp:665-684 | every waiting or sent flit has numbers below the counters and is the flit made under its number |
| `Numbering.WaitingDiffer` | booksim2/src/trafficmanager.cpp:684-733 | no two waiting flits share a number, over all queues |
| `Numbering.SentDiffer` | booksim2/src/trafficmanager.cpp:684-1010 | no two sent flits share a number, over all virtual channels |
| `Numbering.SentIsGone` | booksim2/src/trafficmanager.cpp:684-1010 | a sent flit is not waiting any more |
| `Injectors.Injector.SelectVc` | booksim2/src/trafficmanager.cpp:896-923 | the loop finds the first usable virtual channel after the last one used, cyclically, or none only if none is usable; with the last one outside the range only the first is tried |
| `Injectors.Injector.Consider` | booksim2/src/trafficmanager.cpp:826-942 | one class replaces the winner only with a strictly higher priority and a virtual channel that is not full |
| `Injectors.Injector.Choose` | booksim2/src/trafficmanager.cpp:824-943 | the loop over the classes computes the scan of the model |
| `Injectors.Injector.TakeAndSend` | booksim2/src/trafficmanager.cpp:975-988 | fails exactly when a head's virtual channel is in use; the send is timed now |
| `Injectors.Injector.Inject` | booksim2/src/trafficmanager.cpp:824-1010 | a cycle does what the model does and meets no busy virtual channel; no virtual channel ever holds more than the limit in force when it was last sent on; every flit made stays accounted for; in a setting safe for the buffer the flits sent on every virtual channel stay whole packets back to back |
| `Injectors.Injector.ReceiveCredit` | booksim2/src/trafficmanager.cpp:776-790 | credits for occupied slots are accepted, measured at the time they arrive, and change nothing about injection |
| `Segments.Segment.Deliver` | booksim2/src/channel.hpp:110-125 | the flit that is due, and only that, finds room in the buffer and belongs to the expected packet; one step of the credit loop |
| `Segments.Segment.Return` | booksim2/src/trafficmanager.cpp:776-790 | the credit that is due, and only that, names occupied slots only and is measured in the next cycle; one step of the credit loop |
| `Segments.Segment.Inject` | booksim2/src/trafficmanager.cpp:824-1024 | the injected flit is exactly the steps of the credit loop that the injection model names: a head takes its virtual channel, then the flit is sent |
| `Segments.Segment.Remove` | booksim2/src/buffer.hpp:60-69 | taking flits out of the buffer and sending one credit for them is one step of the credit loop |
| `Segments.Segment.Cycle` | booksim2/src/trafficmanager.cpp:776-1062 | injector, both delay lines and input buffer together: no part reports an error in any cycle, for any traffic, routing and choice of flits to remove; the objects stay in the state that a run of the credit loop leads to, and the cycle extends that run by exactly the stated steps |
| `Segments.Segment.ReadInputs` | booksim2/src/channel.hpp:102-108 | the channels take up what was sent; nothing is lost and an item that is due this cycle is now at the front |
| `Segments.InjectStep` | booksim2/src/trafficmanager.cpp:973-1024 | a flit that the injector may send extends a run of the credit loop by legal steps and keeps its invariant |
| `Injectors.Injector.SendFront` | booksim2/src/trafficmanager.cpp:945-1010 | sending the winner's front flit does what the model of a send does, and the history records it |
| `Rng.Restart` | booksim2/src/rng.hpp:33-43 | restarting from the state after n terms continues the sequence |
| `Rng.TermIs` | booksim2/src/rng.hpp:21-43 | in numbers: each term is the one 100 before it less the one 37 before it, modulo 2^30 |
| `Rng.StateComposes` | booksim2/src/rng.hpp:33-43 | producing n terms and then m is producing n + m |
| `Rng.OnlyTheTotalCounts` | booksim2/src/rng.hpp:33-43 | the state depends only on the total number of terms |
| `Rng.SameTotalSameState` | booksim2/src/rng.hpp:33-43 | two call sequences with the same total length reach the same state |
| `Rng.Generator.RanArray` | booksim2/src/rng.hpp:33-43 | for any n of at least KK the block holds n terms of X_j = (X_{j-100} - X_{j-37}) mod 2^30 and the state the next hundred, computed in place |
| `Rng.Stream.Next` | booksim2/src/rng.hpp:89-98 | the c-th number handed out is the c-th of the fixed sequence: the first hundred of every 1009 terms |
| `DependencyTables.DependencyTable.Get` | booksim2/src/netrace/netrace.c:345-357 | lookup in the hash chains agrees with a plain map |
| `DependencyTables.DependencyTable.Add` | booksim2/src/netrace/netrace.c:269-290 | so does insertion |
| `DependencyTables.DependencyTable.Put` | booksim2/src/netrace/netrace.c:233-262 | so does writing through the node found |
| `DependencyTables.DependencyTable.Remove` | booksim2/src/netrace/netrace.c:316-343 | so does removal, absent identifiers included |
| `Netrace.RefsZero` | booksim2/src/netrace/netrace.c:255-262 | the count of a packet is zero exactly when no packet read and not cleared names it |
| `Netrace.PredecessorsCleared` | booksim2/src/netrace/netrace.c:359-415 | a released packet's predecessors have all been cleared |
| `Netrace.NothingHeldBack` | booksim2/src/netrace/netrace.c:359-415 | a packet read whose predecessors are all cleared has been released |
| `Netrace.NoClearingError` | booksim2/src/netrace/netrace.c:383-394 | neither error check of clearing can fire: the dependant's node exists and its count is positive |
| `Netrace.NeverStuck` | booksim2/src/netrace/netrace.c:373-415 | while a packet read is uncleared some released packet is uncleared |
| `Netrace.ThrottlingFinishes` | booksim2/src/netrace/netrace.c:292-314 | until the whole trace is cleared there is a released packet left to clear |
| `Netrace.Context.ReadPacket` | booksim2/src/netrace/netrace.c:199-267 | after reading, every count is the number of references from packets read and not cleared |
| `Netrace.Context.Admit` | booksim2/src/netrace/netrace.c:307-308 | a packet just read is released exactly when no packet read and not cleared names it |
| `Netrace.Context.ReadAhead` | booksim2/src/netrace/netrace.c:292-314 | nothing is read if the window is covered; else reading stops at the first packet past the window or at the end of the trace, and the last packet read is uncleared unless the trace is used up |
| `Netrace.Context.PrimeSelfThrottle` | booksim2/src/netrace/netrace.c:442-449 | the first packet is released and the first window read |
| `Netrace.Context.EmptyClearedList` | booksim2/src/netrace/netrace.c:463-470 | the network takes over the list; what has been released is unchanged |
| `Netrace.Context.ClearDependenciesFreePacket` | booksim2/src/netrace/netrace.c:373-415 | clearing a released packet keeps the counts exact, releases each dependant at most once and only when its last predecessor clears, and never reports an error |

## Left out

- MaxSize.MaxSizeMatch.Allocate: the search array is sized by the inputs (booksim2/src/allocators/maxsize.cpp:117); a request for an output beyond it, when the search gets there, is modelled as a failure, since what the code then reads is undefined.
- AnyNets.AnyNet.Dijkstra: assumes that distances stay below the largest int, and that every link exists in both directions, as the file reader makes them.
- Injectors.Injector.Inject: models noq and hold-switch off, and one node and subnet with its own class queues.
- BusyRuns.NeverBusyExactly: under shared policies that divide up a single slot for some virtual channel the condition is shown sufficient, and necessary only as far as a third class outranks two others.
- BufferStates.BufferState.SendingFlit: every virtual channel is mapped to a private buffer.
- CreditLoop.RunIsSafe: the limited and feedback policies appear as the runs in which they hold back more; the routers' own pipelines are abstracted to removing flits and returning credits.
- Netrace.Context.ReadAhead: does not model the overflow of the 64-bit cycle, and a trace is a sequence of well-formed packets with unique identifiers and dependencies on later packets.
- Rng.ModDiff: the bit mask on a two's complement difference is modelled as the Euclidean remainder.
- Identifiers of packets and flits are unbounded; wrap-around of the counters is not modelled.
- RemoveRequest of both allocators, SelAlloc, the separable and LOA allocators, and the round-robin, tree and priority arbiters.
- Adaptive, Valiant and chaos routing, the xy/yx choices, and the fat tree, quad tree, dragonfly, flattened butterfly and fly networks.
- The router pipelines, look-ahead routing, VC priorities and priority donation.
- `ran_start`, the floating-point generator and the traffic patterns.
- Configuration parsing, the network file reader, statistics, power models, printing, object pools and time jumps.
- The gem5 side of the coupling.
