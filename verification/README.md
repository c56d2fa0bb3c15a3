# Verified model of the BookSim power-gating fork

This project models the algorithmic cores of the network simulator in `booksim2/src` and proves what they are
for: switch allocators, the routing functions and tables of the power-gated meshes (FLOV, Router Parking,
NoRD), credit flow control with shared buffers, random permutation traffic, and the FLOV voting round.
Code that changes state step by step is a class or a method with loops, proved against functions on values;
the theorems over whole runs are lemmas about those functions. `dafny verify dfyconfig.toml` checks everything.

## How the files hang together

- `Arithmetic`, `Ports` and `Sums` are shared.
- Allocators: `Matchings` (reference definitions), `DenseAllocator`, `SparseAllocator` (request stores),
  `MaxSize`, `GrantAccept` (the iteration that iSLIP and PIM share), `Islip`, `Pim`.
- Routing: `Mesh`, `FlovRouting` (choices on coordinates, runs, termination and rank arguments),
  `FlovFunctions` (the routing functions on router numbers), `DimensionOrder` (any number of dimensions, ROMM),
  `Graphs`, `ShortestPaths`, `SpanningTrees`, `RouteTables`, `RouterParking`, `NordRing` (the ring itself),
  `NordEscape` (`nord_mesh` and what its packets hold and ask for), `NordDeadlock` (when its escape channels can
  deadlock), `DatelineRing` (`ring_dateline_mesh`).
- Flow control: `BufferPolicies` (policies on values), `BufferStates` (the sender's object), `Channels`,
  `CreditLoop` (the whole loop as a state machine), `ChannelSearch` (which flit is injected next, and where),
  `Injection` (the objects at the ends of the loop), `InjectionRuns` (whole runs of a node), `Feedback`.
- `RandomPermutations` and `Voting`.

## Assumptions about the environment

- FLOV: a flit sent towards gated routers flies straight to the first powered one. The power map may be a
  different one for every hop, with any set of gated routers, as long as the last row and the destination are
  powered and, for R-FLOV, no two neighbours are gated. The view that a router has of its neighbours is right
  during the hop. `late` stands for any outcome of a time-out.
- NoRD: any node may send to any other on regular channels, from gated routers too; which routers may be gated, which
  of them stay off throughout, and what nodes put on escape channels is given. Views of routers are any that agree.
- Router Parking: an escape table is built on a fresh object or on one that holds a tree already.
- Credit loop: one subnetwork, any number of traffic classes; the receiver returns one credit for every flit it
  removes, and a credit names each of its channels once.
- Shared buffers: the configuration meets the source's own assertions, that is, a positive share for every
  channel under the dynamic policies and a shared part that is not negative.
- Random numbers are arbitrary values of the range from which they are drawn.

## What the proofs found

- `MaxSizeMatch` resets `_from` to the number of inputs (maxsize.cpp:115) but indexes it by output
  (maxsize.cpp:126, 128). All request matrices of a shape are allocated within bounds exactly if there are no
  more outputs than inputs (`ShapeIsSafeIff`); with more, a single request to an output beyond makes the first
  scan leave the vector (`LeavesFrom`), for instance request (0,1) in a 1 x 2 allocator.
- The routing tables can be built exactly if every powered-on router can be reached from the source
  (`BuildRoute`, `BuildEscRoute`); else the source increments INT_MAX or follows a predecessor of -1.
- `ReturnBuffer` leaves a consistent state exactly if the channel was taken and, where the tail's credit is
  awaited, has no flits outstanding (`ReturnKeepsIff`).
- A head that is given an injection channel but loses to a more urgent class keeps the channel without taking it
  (trafficmanager.cpp:1167, 1098). Another packet can take it meanwhile, and injection then fails with "Buffer
  taken while in use". A run fails exactly if a packet is chosen that has kept a channel which is taken
  (`RunSafeIff`). None does with one class or one priority (`EqualRunsAreSafe`), or with separate channels for the
  classes (`SeparateRunsAreSafe`); two classes of different urgency whose ranges begin with the same channel fail
  within two cycles wherever the tail's credit is awaited and the channel has room for two flits (`FailingRun`).
- NoRD's escape channels can deadlock when a packet is too long for the one slot that the interface of a gated router
  has (nordtrafficmanager.cpp:101-103): in the router of its own node a packet from the interface counts as new,
  also when it has come round on an escape channel (routefunc.cpp:2685-2688). It leaves on regular channels and
  asks for an escape channel again while it still holds the interface. `NordDeadlock.AcyclicIff` is exact: no chain
  of waiting packets closes if and only if no node at a gated router injects backwards on an escape channel and,
  where packets are that long and routers may be gated, there is no way off the ring. A way off is a link between
  routers that do not stay off and that is none of the ring, or the ring's link taken back from a router that may
  be gated. So with routers that are now gated and now on, long packets are never safe (`AcyclicIffNoneOff`);
  where gated routers stay off, they are safe exactly if the others are joined by links of the ring only
  (`AcyclicIffSteady`). With packets that fit, only injections matter (`AcyclicIffFitting`). A comment in
  nordtrafficmanager.cpp:394 says that gated nodes do not inject; the injection loop does not check it.
- A full channel is recognised before its packet takes it, but taking lowers the dynamic limit: a packet can be
  over its limit with its first flit, exactly under the condition of `OverLimitIff`.
- The private policy falls back on `vc_buf_size` for `buf_size` 0, the buffer itself only for a negative one
  (buffer_state.cpp:101-102, 609-610), so that with 0 the first flit is reported as an overflow (`PrivateFits`).
- The search for an injection channel covers its range only if the last channel used lies in it
  (`SearchesAllIff`).
- NoRD's ports form a ring only on meshes of even radix (`RingIffEven`). `ring_dateline_mesh` cannot deadlock
  exactly with an even number of channels (`AcyclicIffEven`), and the phase halves of `romm_mesh` are separate
  exactly then (`PhasesApartIff`).
- Votes are counted only if an epoch has more cycles than the mesh has columns (`CountedExactly`). A router on
  the diagonal counts its own ballot once, every other router twice, on different packets (`OwnBallots`).
- In `opt_rflov_mesh` and `opt_flov_mesh` the branch that turns an escape packet away from the north never
  runs, since such a packet never chooses the north there (routefunc.cpp:2166, 2270; `EscapeNeverNorth`).

## Model

| member | source | states |
|---|---|---|
| DenseAllocators.DenseAllocator.AddRequest | booksim2/src/allocators/allocator.cpp:156-165 | the request joins the request graph with its label and both priorities, nothing else changes in the matrix, and the assignment stays |
| DenseAllocators.DenseAllocator.RemoveRequest | booksim2/src/allocators/allocator.cpp:167-173 | exactly this request leaves the request graph |
| DenseAllocators.DenseAllocator.Clear | booksim2/src/allocators/allocator.cpp:128-136 | no requests and no assignments remain, also when the clearing is skipped because nothing was added |
| SparseAllocators.SparseAllocator.AddRequest | booksim2/src/allocators/allocator.cpp:314-343 | both indices and both occupancy sets still describe one request matrix, which gains this request |
| SparseAllocators.SparseAllocator.RemoveRequest | booksim2/src/allocators/allocator.cpp:345-368 | the same matrix without this request, in both indices and both occupancy sets |
| SparseAllocators.SparseAllocator.Clear | booksim2/src/allocators/allocator.cpp:267-283 | the empty matrix and no assignments: the loops that skip unoccupied rows leave none behind, since those are empty already |
| SparseAllocators.SparseAllocator.ReadRequest | booksim2/src/allocators/allocator.cpp:285-312 | a request is found exactly if the matrix holds it |
| SparseAllocators.SparseAllocator.OccupancyExact | booksim2/src/allocators/allocator.cpp:370-378 | a port is listed as occupied exactly if some pair of the matrix uses it |
| MaxSize.FollowEdge | booksim2/src/allocators/maxsize.cpp:123-144 | following an edge keeps the search forest, adds exactly the partner of the output reached, and never overflows the stack of next inputs |
| MaxSize.ExhaustedIsMaximum | booksim2/src/allocators/maxsize.cpp:117-154 | a search that has followed every edge without reaching a free output certifies by its cover that no matching of the requests is larger |
| MaxSize.MaxSizeMatch.PushUnassigned | booksim2/src/allocators/maxsize.cpp:104-113 | the stack holds each unassigned input once and no other, in turn from the first input of this allocation on |
| MaxSize.MaxSizeMatch.ScanRow | booksim2/src/allocators/maxsize.cpp:121-144 | every edge of the row is followed, or a free output is reached by a path from a free input; it leaves `_from` only if a request lies beyond it |
| MaxSize.MaxSizeMatch.ExpandLevel | booksim2/src/allocators/maxsize.cpp:118-145 | all edges of this depth are followed, and the next depth is exactly what was newly found |
| MaxSize.MaxSizeMatch.Deepen | booksim2/src/allocators/maxsize.cpp:118-151 | a round followed by the swap of the two stacks leaves the search at the next depth |
| MaxSize.MaxSizeMatch.Search | booksim2/src/allocators/maxsize.cpp:104-156 | either an augmenting path has been found or the assignment is maximum; as many rounds as there are inputs always suffice |
| MaxSize.FlipStep | booksim2/src/allocators/maxsize.cpp:171-186 | after each flipped edge the assignment is a matching of the requests but for one input |
| MaxSize.MaxSizeMatch.Augment | booksim2/src/allocators/maxsize.cpp:158-192 | the path is flipped in place: one input and one output more are assigned, and no port loses its assignment |
| MaxSize.MaxSizeMatch.ShortestAugmenting | booksim2/src/allocators/maxsize.cpp:99-210 | true with a larger matching, or false with a maximum one; it leaves `_from` only if a request lies beyond it |
| MaxSize.MaxSizeMatch.Allocate | booksim2/src/allocators/maxsize.cpp:87-96 | the assignment is consistent, inside the requests and of maximum size over all matchings, and the first input in turn moves on; it stays within `_from` if no request lies beyond it, and cannot if a maximum matching needs one that does |
| MaxSize.ShapeIsSafeIff | booksim2/src/allocators/maxsize.cpp:114-140 | all request matrices of a shape keep within `_from`, and none needs to leave it, exactly if there are no more outputs than inputs |
| MaxSize.LeavesFrom | booksim2/src/allocators/maxsize.cpp:114-140 | on a fresh allocator of any shape with a single request in a column beyond the number of inputs, the allocation leaves `_from` |
| Matchings.AssignedIsMatching | booksim2/src/allocators/maxsize.cpp:192-209 | the two assignment vectors stand for a matching in the reference sense, with as many pairs as assigned inputs |
| GrantAccept.IterationGrows | booksim2/src/allocators/islip.cpp:56-168 | a grant and accept iteration keeps a matching inside the requests, unassigns nobody, and adds a pair unless nothing could be added |
| GrantAccept.FullIsMaximal | booksim2/src/allocators/islip.cpp:56-168 | once one side is fully assigned no request can be added |
| GrantAccept.MatchedSidesAgree | booksim2/src/allocators/islip.cpp:151-155 | as many inputs as outputs are assigned |
| GrantAccept.MaximalIsHalf | booksim2/src/allocators/islip.cpp:45-168 | a result to which nothing can be added has at least half the pairs of any matching, also of the maximum one |
| Islip.RoundRobin | booksim2/src/allocators/islip.cpp:70-101 | the wrapped scan of an ordered row finds the acceptable port that comes first in turn after the pointer, and fails only if there is none |
| Islip.ISlip.GrantPass | booksim2/src/allocators/islip.cpp:57-102 | every free output grants the free requester that is first in its turn |
| Islip.ISlip.AcceptInput | booksim2/src/allocators/islip.cpp:120-167 | an input accepts the granting output that is first in its turn; both pointers move past the pair, in the first iteration only |
| Islip.ISlip.Allocate | booksim2/src/allocators/islip.cpp:45-168 | a matching inside the requests, to which each iteration adds a pair until it is maximal, at the latest after as many iterations as ports on the smaller side; the first iteration is one allocation step with its pointer moves and survives the later ones |
| Islip.WaitShrinks | booksim2/src/allocators/islip.cpp:151-160 | the wait of a pair, turns of the grant pointer times outputs plus turns of the accept pointer, falls in every allocation that does not serve it |
| Islip.NoStarvation | booksim2/src/allocators/islip.cpp:45-168 | a request repeated in inputs times outputs consecutive allocations is served in the first iteration of one of them |
| ParallelIterativeMatching.Pim.DrawGrant | booksim2/src/allocators/pim.cpp:63-77 | whatever offset is drawn, a free requester is granted if there is one |
| ParallelIterativeMatching.Pim.DrawAccept | booksim2/src/allocators/pim.cpp:85-99 | whatever offset is drawn, an output granting this input is taken if there is one |
| ParallelIterativeMatching.Pim.Allocate | booksim2/src/allocators/pim.cpp:47-101 | for every draw a matching inside the requests, to which each iteration adds a pair until it is maximal, at the latest after as many iterations as ports on the smaller side |
| FlovFunctions.FlovMesh | booksim2/src/routefunc.cpp:2019-2100 | on router numbers the function offers exactly the port and the channel range of the choice on coordinates, in all branches |
| FlovFunctions.OptRflovMesh | booksim2/src/routefunc.cpp:2102-2192 | the same for R-FLOV with its detours and the turn-back rule |
| FlovFunctions.LogicalCoordinates | booksim2/src/routefunc.cpp:2239-2247 | the logical neighbours are the nearest powered routers, as columns and rows |
| FlovFunctions.OptFlovMesh | booksim2/src/routefunc.cpp:2194-2296 | the same for G-FLOV, whose detours look at the logical neighbours |
| FlovFunctions.AdaptiveFlovMesh | booksim2/src/routefunc.cpp:2298-2444 | exactly which channels are granted on which port: the escape range of `flov_mesh` always and alone to escape packets, regular ranges to the available minimal directions or else the fallback, and more credit is preferred |
| FlovFunctions.AvailableIff | booksim2/src/routefunc.cpp:2392-2407 | a direction can be used exactly if a powered router lies in it short of the destination's column, or in its column to the north; to the south only the neighbour counts |
| FlovFunctions.CreditDecides | booksim2/src/routefunc.cpp:2376-2387 | of two available directions the one with more credit has the higher priority |
| FlovFunctions.OfferShows | booksim2/src/routefunc.cpp:2086-2090 | a routing choice offers exactly the channels that show at the next router whether the packet is on the escape channel |
| FlovFunctions.RegularIsNearer | booksim2/src/routefunc.cpp:2368-2440 | every regular direction granted leads nearer to the destination, or in the escape direction when there is none |
| FlovFunctions.AdaptiveEscapeAcyclic | booksim2/src/routefunc.cpp:2298-2444 | no chain of packets waiting on the escape channels of `adaptive_flov_mesh` closes |
| FlovRouting.HopExists | booksim2/src/routefunc.cpp:2067-2084 | every choice of the three functions leads to a powered router on the mesh, and the escape channel is never left |
| FlovRouting.FlovLeads | booksim2/src/routefunc.cpp:2052-2099 | when `flov_mesh` takes the escape channel, which of row and column a regular hop follows, and that it brings the packet nearer by its whole length, in terms of powered neighbours only |
| FlovRouting.RflovLeads | booksim2/src/routefunc.cpp:2142-2172 | a hop of R-FLOV is towards the column exactly unless the neighbour there is gated and the column is the next one; a regular hop brings the packet nearer by its whole length exactly unless besides its row is the next one to the north, or to the south behind a gated router, and then it leads south |
| FlovRouting.GflovLeads | booksim2/src/routefunc.cpp:2230-2276 | a hop of G-FLOV is towards the column exactly if a powered router lies there, not beyond it; a regular hop brings the packet nearer by its whole length exactly if one lies there or likewise towards its row, and otherwise leads south |
| FlovRouting.TurningBackEscapes | booksim2/src/routefunc.cpp:2142-2172 | under R-FLOV and G-FLOV a packet takes the escape channel exactly when it is late or turns back south after a hop to the north |
| FlovRouting.FlovHop | booksim2/src/routefunc.cpp:2067-2084 | a regular hop of `flov_mesh` brings the packet nearer by its whole length, an escape hop goes south until row or column agree |
| FlovRouting.FlovDelivers | booksim2/src/routefunc.cpp:2052-2099 | every run splits into at most 2(k-1) regular hops and then at most 3(k-1) escape hops, under power maps that change at every hop |
| FlovRouting.OptShrinks | booksim2/src/routefunc.cpp:2142-2172 | every hop of R-FLOV and G-FLOV lowers one measure of escape flag, column distance, vertical direction and row |
| FlovRouting.OptDelivers | booksim2/src/routefunc.cpp:2230-2276 | no run of R-FLOV or G-FLOV makes 3 k k hops, whatever power maps and time-outs it meets |
| FlovRouting.RankRises | booksim2/src/routefunc.cpp:2075-2084 | a packet in an escape buffer asks only for escape buffers of higher rank |
| FlovRouting.EscapeAcyclic | booksim2/src/routefunc.cpp:2164-2171 | no chain of packets waiting for escape buffers closes |
| FlovRouting.EscapeNeverNorth | booksim2/src/routefunc.cpp:2164-2171 | an escape packet outside row and column of its destination never chooses the north, so the branch that turns it away is dead |
| FlovRouting.OneSideOnly | booksim2/src/routefunc.cpp:2052-2099 | no run goes both east and west, whatever power maps it meets |
| FlovRouting.EscapeShape | booksim2/src/routefunc.cpp:2075-2084 | on the escape channel a run that has turned north stays on that course, and with `flov_mesh` one that has left the south does not return to it: south first, then to one side, then north |
| DimensionOrder.DorNextMesh | booksim2/src/routefunc.cpp:545-574 | dividing digits away, from below or from above, finds the port towards the destination in the first dimension that differs |
| DimensionOrder.HopCloser | booksim2/src/routefunc.cpp:569-573 | the next port exists and lowers the sum of digit differences by one |
| DimensionOrder.DorMinimal | booksim2/src/routefunc.cpp:545-574 | a route has made exactly as many hops as the sum of digit differences has fallen, in either order of dimensions |
| DimensionOrder.RandMinIntrMesh | booksim2/src/routefunc.cpp:794-815 | for every draw the intermediate router lies, in each digit, between source and destination |
| DimensionOrder.RommMesh | booksim2/src/routefunc.cpp:819-876 | at injection all channels and an untouched flit; in a router the drawn intermediate router and the phase kept in the flit, the port, and the half of the channels are those of the phase automaton |
| DimensionOrder.RommCloser | booksim2/src/routefunc.cpp:850-854 | in either phase a hop leads one step nearer to the destination, and a packet at its destination is always in its second phase |
| DimensionOrder.RommMinimal | booksim2/src/routefunc.cpp:819-876 | ROMM routes are minimal for every draw |
| DimensionOrder.PhasesApartIff | booksim2/src/routefunc.cpp:860-868 | no channel serves both phases exactly if the class has an even number of channels |
| DimensionOrder.PhasesCover | booksim2/src/routefunc.cpp:860-868 | between them the phases use every channel of the class |
| RouteTables.RouteTbl.constructor | booksim2/src/routetbl.cpp:24-76 | the matrix holds exactly the links between powered-on mesh neighbours |
| RouteTables.RouteTbl.ClosestUnvisited | booksim2/src/routetbl.cpp:89-101 | an unvisited router of least distance |
| RouteTables.RouteTbl.Settle | booksim2/src/routetbl.cpp:120-129 | settling a router keeps all tentative distances tight; INT_MAX is incremented only if the graph is not connected |
| RouteTables.RouteTbl.CalDist | booksim2/src/routetbl.cpp:103-157 | the final distances are the graph distances, and predecessors lie one step nearer to the source; on an undirected graph it succeeds exactly if all edges are connected to the source |
| RouteTables.RouteTbl.FirstHop | booksim2/src/routetbl.cpp:171-186 | the walk back along predecessors succeeds exactly for reachable routers, and its last step is the first hop of a shortest walk |
| RouteTables.RouteTbl.BuildRoute | booksim2/src/routetbl.cpp:159-190 | every entry for a powered-on router leads one step nearer to it over a link, the others stay invalid; it succeeds exactly if all powered-on routers can be reached |
| RouteTables.RouteTbl.BreadthFirst | booksim2/src/routetbl.cpp:249-268 | the queue algorithm computes the search tree that is a function of the matrix and the root, so it is the same at every router; by TreeSpans it is a tree of shortest walks from the root |
| RouteTables.RouteTbl.BuildEscRoute | booksim2/src/routetbl.cpp:199-239 | the escape table holds first hops of shortest walks in the search tree, joined to the trees of earlier calls; it succeeds exactly if all powered-on routers can be reached along them |
| RouteTables.TreeReachesIff | booksim2/src/routetbl.cpp:241-268 | the tree reaches all powered-on routers from any of them exactly if the mesh does from the root |
| ShortestPaths.FinalDistances | booksim2/src/routetbl.cpp:110-132 | when all routers are settled, distances are exact for reachable routers |
| SpanningTrees.TreeSpans | booksim2/src/routetbl.cpp:249-268 | the tree spans what the root reaches: each router but the root has one parent, one level above, joined to it by a link, there are no other tree edges, and the level of a router is its distance from the root in the mesh |
| SpanningTrees.TreeDistances | booksim2/src/routetbl.cpp:199-268 | shortest walks in the tree are as long as the mesh requires from and to the root, and between any two routers at most both distances to the root together |
| SpanningTrees.UpThenDown | booksim2/src/routetbl.cpp:201-211 | two steps along the tree that do not turn back use channels of rising rank and never go up after down |
| RouterParking.ForwardingIsShortest | booksim2/src/routetbl.cpp:159-190 | forwarding hop by hop through each router's own table reaches the destination after exactly the distance, not earlier and not later |
| RouterParking.EscapeForwarding | booksim2/src/routetbl.cpp:199-268 | forwarding by the escape tables takes exactly the distance of the mesh from and to the root, and between any two routers at most both distances to the root together |
| RouterParking.RpMesh | booksim2/src/routefunc.cpp:2468-2505 | what is offered is a hop of the packet: to a powered-on router one step nearer in the graph of the table in use, on exactly those channels that tell the next router whether the packet is on the escape channel |
| RouterParking.RpHopExists | booksim2/src/routefunc.cpp:2488-2505 | a packet that is not at its destination can always hop, and to a powered-on router |
| RouterParking.RpDelivers | booksim2/src/routefunc.cpp:2488-2505 | under arbitrary switches into escape a run has at most the mesh distance of regular hops and then at most the tree distance of escape hops |
| RouterParking.EscapeRises | booksim2/src/routetbl.cpp:199-239 | escape tables lead along channels of strictly rising rank, up moves first |
| RouterParking.EscapeAcyclic | booksim2/src/routefunc.cpp:2502-2505 | no chain of packets waiting for escape channels returns to its first channel |
| NordRing.RingOf | booksim2/src/routers/nord_router.cpp:37-78 | on even radix the router behind the computed ring output has the next position and takes flits in at its own ring input; positions are below the number of routers and tell routers apart |
| NordRing.RingIffEven | booksim2/src/routers/nord_router.cpp:37-78 | every router's ring output leads to the router of the next position, entering by its ring input, exactly if the radix is even |
| NordRing.PositionsDiffer | booksim2/src/routers/nord_router.cpp:70-78 | routers have different positions, below the number of routers |
| NordRing.RingDelivers | booksim2/src/networks/kncube.cpp:215-227 | following the ring reaches any router in as many hops as positions lie between, fewer than there are routers |
| NordEscape.NordInterface | booksim2/src/routefunc.cpp:2614-2663 | exactly which channels into a router are granted: all of them for packets of its node; for a packet passing a gated router its own escape channel, a regular one, or after too many detours the escape channel of the position |
| NordEscape.NordMesh | booksim2/src/routefunc.cpp:2664-2785 | exactly which channels are granted on which port: of the escape channels always the one along the ring that the positions give, regular channels in free minimal directions or else along the ring; a gated router forwards along the ring only; more credit is preferred |
| NordEscape.RegularIsMinimal | booksim2/src/routefunc.cpp:2686-2785 | in a powered router the regular directions are exactly those that lead one hop nearer, not back, and to a powered router or along the ring; only if there is none, the ring; a gated router forwards along the ring only |
| NordEscape.CreditDecides | booksim2/src/routefunc.cpp:2693-2703 | of two free minimal directions the one with more credit has the higher priority, and both come before ring and escape channels |
| NordEscape.HeldChannel | booksim2/src/routefunc.cpp:2614-2785 | by induction over whatever a packet is granted, regular channels in between included: on the ring it always holds the escape channel of its position, at an interface that one or, at position 0, the one it came with, unless its own node chose another |
| NordDeadlock.RankRises | booksim2/src/routefunc.cpp:2614-2785 | over all routes that the functions grant, where no node injects backwards and long packets have no way off the ring, packets wait for channels of higher rank, also those that still hold the interface of their own node while they move on regular channels |
| NordDeadlock.AcyclicIff | booksim2/src/routefunc.cpp:2614-2785 | no chain of packets waiting for escape channels closes exactly if no node at a gated router injects backwards and, where packets may be too long for an interface and some router may be gated, no link between routers that do not stay off leads off the ring |
| NordDeadlock.AcyclicIffFitting | booksim2/src/routefunc.cpp:2614-2785 | if packets fit an interface: exactly if no node at a gated router inside the ring injects a packet for an earlier position on the last channel but one |
| NordDeadlock.AcyclicIffNoneOff | booksim2/src/routefunc.cpp:2614-2785 | if no router stays off throughout, long packets are safe exactly if no router is ever gated |
| NordDeadlock.AcyclicIffSteady | booksim2/src/routefunc.cpp:2614-2785 | if gated routers stay off, long packets are safe exactly if no node injects backwards and the other routers are joined by links of the ring only |
| NordDeadlock.ComesAhead | booksim2/src/routefunc.cpp:2711-2785 | without a way off the ring a packet from a gated router is brought by regular channels only to positions before its destination, by induction over its hops |
| NordDeadlock.ShortcutRound | booksim2/src/routefunc.cpp:2711-2785 | with a way off the ring some packet from a gated router is brought to a position from where the ring passes its own node first |
| NordDeadlock.FirstRowIsSafe | booksim2/src/routefunc.cpp:2614-2785 | with only the first row on, no chain closes, also for long packets |
| NordDeadlock.SingleOffCloses | booksim2/src/routefunc.cpp:2614-2785 | with a single router off on a larger mesh, a chain of long packets closes |
| NordDeadlock.OwnIff | booksim2/src/routefunc.cpp:2681-2688 | a packet is at its own interface on an escape channel exactly if its node may put it there, or regular channels can bring it to a position from where the ring passes its node before its destination |
| DatelineRing.RingDatelineMesh | booksim2/src/routefunc.cpp:2519-2581 | exactly the channels of the half to which the packet belongs at this point are offered, along the ring; with an odd number the middle channel to both halves |
| DatelineRing.HalvesCover | booksim2/src/routefunc.cpp:2530-2555 | between them the halves use every channel, and none is empty |
| DatelineRing.DatelineAt | booksim2/src/routefunc.cpp:2545-2552 | the router that the function takes for the dateline has one fixed ring position on meshes of even radix |
| DatelineRing.RouteKeepsHalf | booksim2/src/routefunc.cpp:2530-2555 | by induction over whatever a packet is offered: with an even number of channels it is in the upper half exactly once it has left the router at the dateline |
| DatelineRing.AcyclicIffEven | booksim2/src/routefunc.cpp:2519-2581 | no chain of waiting packets closes exactly if the number of channels is even |
| BufferPolicies.ShareBounds | booksim2/src/buffer_state.cpp:351-424 | the shares of all active channels fit the buffer; a shifting share lies between half of the dynamic one and the dynamic one; both are positive exactly from the stated size on |
| BufferPolicies.LargestShare | booksim2/src/buffer_state.cpp:351-367 | the dynamic share is the largest that all packets being sent can have |
| BufferPolicies.DoublingsIsPower | booksim2/src/buffer_state.cpp:385-396 | the shift loop divides by the least power of two that is not below the number of packets |
| BufferPolicies.StepKeepsValid | booksim2/src/buffer_state.cpp:637-744 | taking, sending, credits and returning keep the private, shared and reserved counters equal to what they stand for, the active count equal to the packets still being sent, and the limit equal to their share, or to the whole buffer when there are none |
| BufferPolicies.RunKeepsValid | booksim2/src/buffer_state.cpp:637-744 | the same in every state reachable from the empty buffer, which never holds more than its size |
| BufferPolicies.ReturnKeepsIff | booksim2/src/buffer_state.cpp:732-744 | giving a taken channel back leaves a consistent state exactly if no credit is awaited for it |
| BufferPolicies.WithinSize | booksim2/src/buffer_state.cpp:691-694 | however slots are shared out, the whole stays within the buffer size |
| BufferPolicies.FullIffNoneAvailable | booksim2/src/buffer_state.cpp:122-130 | a channel is full exactly if no slot is available to it |
| BufferPolicies.AvailableIsExact | booksim2/src/buffer_state.cpp:267-328 | exactly as many body flits as slots are available can be sent back to back before the channel is full |
| BufferPolicies.IdleLimit | booksim2/src/buffer_state.cpp:351-367 | under the dynamic policies, while no packet is being sent, a channel is full only if no slot is left for it or it occupies the whole buffer |
| BufferPolicies.AllFullIsUsed | booksim2/src/buffer_state.cpp:299-305 | under the shared policy no slot is wasted: if every channel is full, every slot of the buffer holds a flit |
| BufferPolicies.EmptiedKeepsRoom | booksim2/src/buffer_state.cpp:219-233 | a channel that runs empty while its packet is still being sent has a slot for the next flit |
| BufferPolicies.KeptSlotStays | booksim2/src/buffer_state.cpp:219-265 | no operation of another channel takes that slot |
| BufferPolicies.TakeKeepsRoom | booksim2/src/buffer_state.cpp:299-305 | taking a channel leaves the room for its first flit as it was |
| BufferPolicies.OverLimitIff | booksim2/src/buffer_state.cpp:351-357 | when exactly a packet is over its dynamic limit with its first flit |
| BufferPolicies.FirstFlitOverLimit | booksim2/src/buffer_state.cpp:351-367 | a concrete buffer in which that happens |
| BufferPolicies.PrivateFits | booksim2/src/buffer_state.cpp:96-110 | the private slots fit the buffer exactly if `buf_size` is not 0 |
| BufferPolicies.ZeroSizeOverflows | booksim2/src/buffer_state.cpp:601-618 | with `buf_size` 0 the first flit overflows the buffer although its channel is not full |
| BufferStates.BufferState.IsFullFor | booksim2/src/buffer_state.cpp:122-125 | true exactly if no slot is available |
| BufferStates.BufferState.ShiftedShare | booksim2/src/buffer_state.cpp:385-396 | the shift loop divides by the least power of two not below the number of packets |
| BufferStates.BufferState.TakeBuffer | booksim2/src/buffer_state.cpp:717-730 | the new state is that of the policy, all counters stay right, and none of the error checks fires |
| BufferStates.BufferState.ReturnBuffer | booksim2/src/buffer_state.cpp:732-744 | when exactly giving a channel back is reported as an error, and when exactly it leaves a consistent state |
| BufferStates.BufferState.SharedSendingFlit | booksim2/src/buffer_state.cpp:235-256 | a reserved slot is used, or the private buffer grows and spills; the release loop at a tail has nothing to release |
| BufferStates.BufferState.SendingFlit | booksim2/src/buffer_state.cpp:685-715 | the new state is that of the policy, and neither the buffer, the channel nor the shared part overflows |
| BufferStates.BufferState.FreeSlotFor | booksim2/src/buffer_state.cpp:219-265 | a slot is kept for a taken channel that has run empty, and freed otherwise |
| BufferStates.BufferState.ProcessCredit | booksim2/src/buffer_state.cpp:637-682 | all channels of a credit are credited, and no counter falls below zero |
| BufferStates.SendNeverOverflows | booksim2/src/buffer_state.cpp:685-715 | what a sender finds when its channel has room |
| BufferStates.CreditNeverUnderflows | booksim2/src/buffer_state.cpp:637-682 | what a credit finds when its channel has flits outstanding |
| Channels.ReadKeeps | booksim2/src/channel.hpp:100-106 | arrival times stay strictly rising and within the delay, and nothing is lost or reordered |
| Channels.WriteKeeps | booksim2/src/channel.hpp:108-123 | what is due is due in exactly this cycle, and nothing is lost or reordered |
| Channels.DelayChannel.Read | booksim2/src/channel.hpp:100-106 | the object does what the function says and keeps its contents |
| Channels.DelayChannel.Write | booksim2/src/channel.hpp:108-123 | the object does what the function says, and its time check never fails |
| CreditLoop.CycleSafe | booksim2/src/trafficmanager.cpp:1052-1275 | in a cycle in which injection takes a free channel, conservation and the packet order of every class are kept, and no check of credits, channels or receiver fails |
| CreditLoop.InjectKeeps | booksim2/src/trafficmanager.cpp:1194-1260 | sending the next flit of any class on a channel that is not full keeps the invariant of the loop; no two classes are ever in the middle of packets on one channel |
| CreditLoop.ArriveKeeps | booksim2/src/vc.cpp:80-95 | storing the oldest flit of the channel keeps the invariant; it belongs to the expected packet |
| CreditLoop.ArrivalHasRoom | booksim2/src/buffer.cpp:66-72 | an arriving flit finds room and is of the expected packet |
| CreditLoop.NeverTooFull | booksim2/src/buffer.cpp:68-70 | the receiver holds no more than the sender counts, and that is within the buffer |
| CreditLoop.RunsAreSafe | booksim2/src/buffer_state.cpp:637-715 | with any number of classes, and whatever is injected on free channels, in every reachable state the sender's count of each channel is flits under way plus flits stored plus credits under way, and no check of credits, channels or receiver ever fails |
| ChannelSearch.SearchesAllIff | booksim2/src/trafficmanager.cpp:1144-1150 | the search tries its whole range exactly if the last channel used lies in it or there is one channel only |
| ChannelSearch.BehindLast | booksim2/src/trafficmanager.cpp:1144-1171 | a head whose class has last used a channel of its range is given the nearest usable channel behind that one, and one whenever any channel of the range is usable |
| ChannelSearch.ServesInTurn | booksim2/src/trafficmanager.cpp:1059-1192 | no class with a channel that is not full is more urgent than the one that goes, and no equally urgent one comes earlier in turn after the class last served, unless that one holds the switch |
| ChannelSearch.OnlyKeptIsStale | booksim2/src/trafficmanager.cpp:1098-1171 | a channel given in a search is free; only one kept from an earlier cycle can turn out to be taken |
| ChannelSearch.KeptChannelTaken | booksim2/src/trafficmanager.cpp:1098-1226 | with two classes of different urgency whose ranges begin with the same channel, the only outcome of the second cycle is that the packet chosen stands on a channel that the other class has taken |
| Injection.Injector.FindVc | booksim2/src/trafficmanager.cpp:1144-1171 | the first channel in turn that is free and not full, or the news that no channel tried can be used |
| Injection.Injector.Search | booksim2/src/trafficmanager.cpp:1059-1192 | the class that is to go is the most urgent one that can, the first in turn among equally urgent ones, and the holder of the switch first of all; every class passed over is stuck, less urgent, or later in turn |
| Injection.Injector.Step | booksim2/src/trafficmanager.cpp:1052-1275 | what is sent is allowed by the credit loop and changes buffer state and packets as it says; the channel of a head is remembered for its class, and the class served; it fails exactly if the packet chosen has kept a channel that is taken |
| Injection.Injector.Transmit | booksim2/src/trafficmanager.cpp:1194-1260 | a head takes the channel, the flit is counted, and the channel is passed back to the next flit of the packet |
| InjectionRuns.TakesFreeIff | booksim2/src/trafficmanager.cpp:1098-1226 | in a cycle whose injection is what the search finds, with nothing presupposed about the channel, the check on taking it passes exactly unless the packet chosen has kept a channel that is taken |
| InjectionRuns.SearchCycleSafe | booksim2/src/trafficmanager.cpp:1052-1275 | otherwise the cycle is one of the credit loop, no check fails in it, and all that the next cycle needs holds again |
| InjectionRuns.RunSafeIff | booksim2/src/trafficmanager.cpp:1052-1275 | in a whole run of searches, with credits, arrivals and new packets in between, no check ever fails exactly if no packet chosen has kept a channel that is taken |
| InjectionRuns.RunCycle | booksim2/src/trafficmanager.cpp:1030-1275 | a credit, new packets and the injection loop on the node's own objects make a cycle of the run, with buffer state, queues, channels last used and class last served as the run says, and fail exactly when the run does |
| InjectionRuns.RemembersLastHead | booksim2/src/trafficmanager.cpp:1145-1226 | at any time each class begins its search at the channel of the last head that it has sent |
| InjectionRuns.HoldsTheSwitch | booksim2/src/trafficmanager.cpp:1063-1074 | with the switch held, a class in the middle of a packet goes on unless a more urgent one can go |
| InjectionRuns.EqualRunsAreSafe | booksim2/src/trafficmanager.cpp:1094-1226 | with one class, or one priority for all flits, no check fails in any run |
| InjectionRuns.SeparateRunsAreSafe | booksim2/src/trafficmanager.cpp:1098-1226 | with separate channels for the classes no check fails in any run |
| InjectionRuns.FailingRun | booksim2/src/trafficmanager.cpp:1098-1226 | for every such configuration a run from the start in whose second cycle the check on the channel taken fails |
| Injection.Buffer.AddFlit | booksim2/src/buffer.cpp:66-76 | the flit is stored last, the expected packet follows, and neither overflow nor a wrong packet number is reported |
| Injection.Buffer.RemoveFlit | booksim2/src/buffer.hpp:58-67 | the oldest flit of the channel leaves and the count follows |
| Feedback.AverageBetween | booksim2/src/buffer_state.cpp:457-465 | the shifted moving average lies between the old estimate and the sample |
| Feedback.AverageMoves | booksim2/src/buffer_state.cpp:457-465 | the average moves by the fraction of the difference that the scale says, rounded down |
| Feedback.CongestionCosts | booksim2/src/buffer_state.cpp:467-473 | a round trip without congestion grants the offset, every further cycle costs one slot, and the last slot is never taken away |
| Feedback.HeldToComing | booksim2/src/buffer_state.cpp:475-519 | while a probe is under way its channel is held to the limit that its credit would set now, or to the present one if that is lower |
| Feedback.ProbeExact | booksim2/src/buffer_state.cpp:560-599 | sends and credits keep at most one probe, with as many credits pending as flits were sent before it |
| Feedback.RunsExact | booksim2/src/buffer_state.cpp:560-599 | in every run the estimate changes exactly with the credit of the probe, and the sample is the probe's own round trip |
| Feedback.OnlyCreditsGrant | booksim2/src/buffer_state.cpp:475-485 | the slots granted fall while a probe is late, a credit never lowers them, and sending never raises them |
| Feedback.SimpleFeedback.IsFullFor | booksim2/src/buffer_state.cpp:475-541 | full exactly if no slot is available under both limits; an empty channel is never held back by the policy alone |
| Feedback.SimpleFeedback.SendingFlit | booksim2/src/buffer_state.cpp:560-576 | the shared slot accounting and the channel's probe follow in one call, and the probes stay exact for the occupancies of the buffer state |
| Feedback.SimpleFeedback.CreditFor | booksim2/src/buffer_state.cpp:487-599 | the shared slot accounting, the estimate and the limit follow in one call, the total of all limits stays right, and the probes stay exact |
| RandomPermutations.RandomPermutation.Randomize | booksim2/src/traffic.cpp:352-378 | for every draw the result is a permutation, and the search for the free place never runs past the end |
| RandomPermutations.EveryPermutation | booksim2/src/traffic.cpp:360-375 | every permutation comes from some draws |
| RandomPermutations.DrawsDetermined | booksim2/src/traffic.cpp:360-375 | the draws can be read off the permutation, so that different draws give different permutations |
| Voting.VotingMonitor.CastVote | booksim2/src/flovtrafficmanager.cpp:486-504 | one ballot goes to the rest of the row, to the rest of the column, and once to the voter |
| Voting.VotingMonitor.Turn | booksim2/src/flovtrafficmanager.cpp:471-510 | every router gains the ballots of its row, those of its column, or both with its own once in that turn; voters' statistics are cleared |
| Voting.VotingMonitor.Evaluate | booksim2/src/flovtrafficmanager.cpp:467-534 | the whole block: votes, statistics, counter and what each router is asked |
| Voting.VotingMonitor.Decide | booksim2/src/flovtrafficmanager.cpp:512-531 | each router outside the last row is asked by the sign of its votes, and all votes are reset |
| Voting.VotingMonitor.AddSample | booksim2/src/flovtrafficmanager.cpp:221 | a packet's latency counts at its destination only |
| Voting.CountedExactly | booksim2/src/flovtrafficmanager.cpp:469-533 | votes are counted in cycle i exactly if the epoch is longer than k and i is a positive multiple of epoch plus k |
| Voting.VotesExact | booksim2/src/flovtrafficmanager.cpp:470-510 | at any time a router has exactly the ballots of the turns that are over in this round, and none between rounds |
| Voting.TotalBound | booksim2/src/flovtrafficmanager.cpp:486-504 | at most 2 k votes in either direction, one less on the diagonal |
| Voting.OwnBallots | booksim2/src/flovtrafficmanager.cpp:486-504 | a round counts for a router the others of its row, the others of its column, and its own ballot of each of their turns: one on the diagonal, two elsewhere |
| Voting.VotedIsCleared | booksim2/src/flovtrafficmanager.cpp:486-506 | after voting a router has no samples, so that its second ballot is about packets seen since |
| Voting.RoundIsFair | booksim2/src/flovtrafficmanager.cpp:512-531 | every decision is by the sign of what the row and the column have voted in their turns, and never concerns the last row |
| Voting.LatencyDecides | booksim2/src/flovtrafficmanager.cpp:467-531 | in average latencies: outside the last row a router is asked to gate more if some router of its row or column, in the turn of that row or column, is below the low watermark and none above the high one, to gate less the other way round, and nothing if none is either |

## Left out

- FlovRouting.OptDelivers: the routers' own pipelines, drain and wake-up handshakes (`FLOVRouter`, `RFLOVRouter`, `GFLOVRouter`) are not part of this model; a draining or waking router counts as gated for the flight, and the neighbour view is right for the duration of a hop.
- FlovFunctions.AdaptiveFlovMesh: livelock freedom is not claimed for the regular channels of `adaptive_flov_mesh`, which rely on a misroute counter kept by the routers; its escape channels are those of `flov_mesh`.
- NordEscape.NordMesh: livelock freedom of the regular channels of `nord_mesh` is not claimed either; they rely on the same counter.
- NordDeadlock.AcyclicIff: the counter of detours is any; with a low threshold some packets may be sent to the escape channels before they reach the way off the ring.
- MaxSize.MaxSizeMatch.Allocate: what the source does once it has left `_from` is not modelled; the operation ends there. A matrix with a request beyond the inputs that no maximum matching needs may or may not leave it, depending on the order of the search; no condition on the matrix alone is stated for these.
- CreditLoop.RunsAreSafe: several subnetworks sharing the queues of a node, and the routers between sender and receiver, are not modelled.
- Injection.Injector.Step: the range of channels of each class is given, in place of the routing function and of the lookahead that narrows it; nothing else of the lookahead matters for injection.
- Feedback.SimpleFeedback.CreditFor: credits of a channel that do not return in the order of its flits are not modelled.
- The class hierarchies of allocators and buffer policies are a field `base` and a `kind`, since there is no inheritance in the model.
- 32-bit widths, except INT_MAX in the routing tables.
- `ClearCredits`, `FullCredits`, `FillCredits` and `SetVCBufferSize`, which leave the shared counters alone.
- `NumInputRequests` and `NumOutputRequests` of the sparse allocator, which return occupancy instead of counts.
- Bit and digit permutations other than the random one, torus, fat tree and flattened butterfly routing, Valiant, chaos and planar-adaptive routing.
- Statistics, configuration, display and watch output, and all of `gem5`.
