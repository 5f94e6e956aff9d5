# Routing simulator, counter mode, addresses and state files: a verified model

This project models the parts of the repository that carry its algorithms, and proves what they
compute. Dafny 4.11 checks all of it with `dafny verify dfyconfig.toml`.

**The routing simulator** (`bgp_sim/SecureSimulator`). Given an AS graph with customer, peer and
provider edges and a destination, three restartable breadth-first passes over one mutable graph build
a layered DAG: for every AS a depth, a class and the set of its equally good parents, and a table of
ASes by depth and class. The model keeps the code's form: `AsNode` objects with status, depth, parent
and child list, arrays for the tables, a queue, and one method for each branch of the loop. The
theorems say what the DAG means.

- `GaoRexford.dfy` and `ValleyFree.dfy` define the routing problem on its own: a routing is *stable*
  when every AS holds the best route its neighbours export to it. A graph and a destination have exactly
  one stable routing; an AS has a route in it exactly when a valley-free walk leads to the destination, and
  customer and peer routes are the shortest such walks.
- `BfsState.dfy` to `RoutingTree.dfy` prove that the passes compute the stable routing: the invariant
  of a pass, the state between passes, and the heap program. The three passes succeed exactly when the
  stable routing fits the bucket table, which it does whenever the table has as many rows as the graph
  has nodes; when they fail, the model says which route did not fit.
- `TieBreak.dfy`, `MiniDestination.dfy`, `Weights.dfy`, `Initialisation.dfy`, `Agreement.dfy`: sorting the parent
  lists by hash, the DAG and the weights that result, and the agreement of the three ways in which the code
  breaks ties.
- `SecurePaths.dfy`, `Destinations.dfy`, `Utilities.dfy`, `Transit.dfy`: what a security state determines
  (who has a secure path, which parent each AS takes, which path follows), the loops that compute it
  row by row, the utilities counted from whole paths, and the conservation of traffic.
- `Workers.dfy`: the incremental "what if n flipped its bit" computation, exact for all four
  utilities, and leaving the shared state as it was.
- `Pruning.dfy`, `Simulators.dfy`, `Rounds.dfy`: skipping flips loses nothing, a destination's results
  are exact, and rounds of flips converge.
- `Simulation.dfy`: from the graph to the next security state, which depends on nothing but the graph, the
  destinations, the parameters and the state.
- `BestPaths.dfy`, `AllPaths.dfy`: the path enumerations and the set of ASes sent to the Tor client.

**AES counter mode** (`AesCtr.dfy`, `Bytes.dfy`; `aes.c` as built without the OpenSSL counter mode and
with the four counter words). The block cipher is an uninterpreted function. The cipher object keeps
four words, a byte copy of which only changed words are refreshed, a key block filled ahead of use, and
a position; the proofs tie these to section 6.5 and appendix B.1 of NIST SP 800-38A over any calls.
A call on buffers that overlap is described as well.

**Addresses** (`DiOps.dfy`, `Address.dfy`, `PtrName.dfy`; `di_ops.c`, `address.c`): memory comparison by
masks instead of branches, masked comparison of addresses as comparison of prefixes,
the exact extent to which its two modes are orders for each mask, and reverse lookup names that round-trip
(section 3.5 of RFC 1035, section 2.5 of RFC 3596).

**State files** (`StateText.dfy`, `GlobalStateText.dfy`, `Decimal.dfy`, `Text.dfy`; `ObjectToText.cs`):
the printers and the readers driven by section headings, and exactly when they undo each other.

What the source takes for granted appears as a precondition: the graph is symmetric, has no self
edges, no duplicate neighbours and no sibling edges; AS numbers are below the table size and, where
they are joined with a class, below 2^29; where `tieBreak` runs, keys differ and stay below the number it starts from.
The tie-break hash is an uninterpreted function. Weights are natural numbers, and single-precision
rounding is an arbitrary function; convergence asks that it keeps order, is idempotent and keeps 0 and 1.
`None` stands for null and for an exception in the value models.

Where the code and its comments differ, the model follows the code:

- `tor_addr_compare_masked` is documented as a total order. With `CMP_SEMANTIC` it is not transitive;
  `SemanticIsNotTransitive` and `SemanticIsNotTransitiveMasked` give three addresses each, with the full
  mask and with 96 bits. For every mask `SemanticTransitivity` says on which sets of addresses it is
  transitive, and `SemanticSymmetry` for which pairs swapping the addresses swaps the sign.
  The comment also promises to cut IPv6 masks above 128; the code does not.
- The summary of `destinationToText` says that `L` is not written; the code writes it.
- `tieBreak` is called a minimum, but starts from the largest 32-bit number, so a list none of whose
  keys is smaller gives that number (`TieRule.Choose`).
- A comment at the call of `ComputeUtility` says that the 32-bit counters do not overflow; nothing in the
  code bounds them. `CountersFit` gives a bound on the weights under which none of them does.
- A comment in `initMiniDestination` gives weights between 0 and 500; the code gives 10 divided by the
  distance, rounded down (`WeightFalls`).
- The parser of reverse names relies on the suffix instead of checking the length. That is sound, and
  `ParseIp6` shows that no character after the NUL is read.

## Model

| member | source | states |
|---|---|---|
| GaoRexford.StableIsUnique | bgp_sim/SecureSimulator/BFS.cs:584-599 | A graph and a destination have at most one stable routing under "everything to customers, customer routes to all". |
| GaoRexford.StableExists | bgp_sim/SecureSimulator/BFS.cs:584-599 | Every graph and destination have a stable routing. |
| ValleyFree.PairwiseIsShape | bgp_sim/SecureSimulator/BFS.cs:584-599 | The export rule at every hop is equivalent to the global shape provider* peer? customer*. |
| ValleyFree.LegalIsValleyFree | bgp_sim/SecureSimulator/BFS.cs:584-599 | A walk obeys the export rule at every hop exactly when it is valley-free. |
| ValleyFree.RouteHasWalk | bgp_sim/SecureSimulator/BFS.cs:584-599 | Every route of a stable routing is realised by a valley-free walk of its length that starts in its class. |
| ValleyFree.WalkHasRoute | bgp_sim/SecureSimulator/BFS.cs:584-599 | A valley-free walk guarantees a route at least as good in class, and no longer for customer and peer routes. |
| ValleyFree.ReachIsExact | bgp_sim/SecureSimulator/BFS.cs:584-599 | An AS is reached exactly when a valley-free walk leads from it to the destination. |
| ValleyFree.UphillIsExact | bgp_sim/SecureSimulator/BFS.cs:584-599 | Customer routes are the shortest purely uphill walks; peer routes the shortest walks with one peer hop, held exactly where no uphill walk exists. |
| TieBreak.TieRule.Choose | bgp_sim/SecureSimulator/BFS.cs:349-372 | The running minimum returns the entry with the least key, or the largest 32-bit number when no key is below it. |
| TieBreak.TieRule.LeastIsUnique | bgp_sim/SecureSimulator/BFS.cs:349-372 | With distinct keys the winner of the tie-break is unique. |
| TieBreak.TieRule.FirstIsLeast | bgp_sim/SecureSimulator/Worker.cs:150-174 | In a list sorted by key the first entry is the winner of the tie-break. |
| TieBreak.TieRule.SortByHashValue | bgp_sim/SecureSimulator/SimulatorLibrary.cs:617-641 | Fails exactly when two entries hash alike, as adding a key twice does; otherwise sorts by key and keeps the elements. |
| TieBreak.SortIsPermutation | bgp_sim/SecureSimulator/SimulatorLibrary.cs:630-637 | Sorting numbers yields an ascending permutation. |
| BfsSteps.DiscoverKeeps | bgp_sim/SecureSimulator/BFS.cs:122-211 | Discovering a node keeps the whole invariant of the pass: queue order, statuses, tree, Best sets, tables, earlier trees. |
| BfsSteps.RevisitKeeps | bgp_sim/SecureSimulator/BFS.cs:213-228 | Following a tree edge of an earlier pass keeps the invariant. |
| BfsSteps.RevisitDepth | bgp_sim/SecureSimulator/BFS.cs:223-227 | The exception "Unexpected BFS depth during BFS re-run" cannot occur. |
| BfsSteps.AlternativeKeeps | bgp_sim/SecureSimulator/BFS.cs:236-279 | An equally long route joins the Best set and takes over the parent when it wins the tie-break, keeping the invariant. |
| BfsSteps.TiedListed | bgp_sim/SecureSimulator/AsNode.cs:164-171 | The exception "Child not found" cannot occur: a node to be moved is on its parent's child list. |
| BfsSteps.SkipKeeps | bgp_sim/SecureSimulator/BFS.cs:229-240 | Edges that call for no action keep the invariant. |
| BfsSteps.FinishKeeps | bgp_sim/SecureSimulator/BFS.cs:332-333 | Marking a node processed once all its edges are scanned keeps the invariant. |
| BfsSteps.MidwayHead | bgp_sim/SecureSimulator/BFS.cs:110-115 | The depth worked on never decreases from one dequeued node to the next. |
| BfsPasses.BlankIsSettled | bgp_sim/SecureSimulator/SimulatorLibrary.cs:469-498 | Empty tables over reinitialised nodes are a settled state from which the first pass may start. |
| BfsPasses.StartKeeps | bgp_sim/SecureSimulator/BFS.cs:85-107 | Visiting the source over the result of the earlier passes establishes the invariant of the next pass. |
| BfsPasses.PriorProcessed | bgp_sim/SecureSimulator/BFS.cs:213-228 | When a pass ends, every node of the earlier trees has been revisited and processed. |
| BfsPasses.ProcessedIsSource | bgp_sim/SecureSimulator/BFS.cs:109-334 | The nodes a pass processes are exactly those that export along its edges; the rest are unreached. |
| BfsPasses.QueuedFromParent | bgp_sim/SecureSimulator/BFS.cs:205-228 | Whoever is processed, other than the source, was reached over the edge from its parent, which is processed too and lies higher. |
| BfsPasses.OrderEnumerates | bgp_sim/SecureSimulator/BFS.cs:109-334 | The order of dequeuing lists the exporters of the pass, each once, by depth and after its parent, and among them every node an earlier pass found. |
| BfsPasses.LockSettles | bgp_sim/SecureSimulator/BFS.cs:336-346 | A pass that ends leaves a settled state with one more class of routes: exact Best sets, depths, classes, paths and bucket cells. |
| BfsPasses.RerunUndisturbed | bgp_sim/SecureSimulator/BFS.cs:60-74 | Parents, depths, Best sets, paths and bucket cells of earlier passes are unchanged by a later pass. |
| BfsPasses.SettledIsStable | bgp_sim/SecureSimulator/BFS.cs:584-599 | What three passes leave behind is a stable routing. |
| BfsPasses.BestIsOffers | bgp_sim/SecureSimulator/BFS.cs:183-279 | The Best list of an AS is, without duplicates, exactly the set of neighbours that offer it the route it holds. |
| BfsOverflow.TooDeepIn | bgp_sim/SecureSimulator/BFS.cs:145-180 | A table is too short exactly when any stable routing, hence the only one, has a route of at least as many hops as the table has rows. |
| BfsOverflow.TooDeepNeedsNodes | bgp_sim/SecureSimulator/BFS.cs:145-180 | That takes a graph with more nodes than the table has rows. |
| BfsOverflow.SettledAgrees | bgp_sim/SecureSimulator/BFS.cs:584-599 | After k passes the nodes found hold exactly the routes any stable routing gives them in the first k classes. |
| BfsOverflow.OverflowIsDeep | bgp_sim/SecureSimulator/BFS.cs:145-180 | The node that does not fit has, in every stable routing, a route too long for the table. |
| BfsOverflow.SettledFits | bgp_sim/SecureSimulator/BFS.cs:145-180 | Routes of a finished tree are shorter than the table. |
| RoutingTree.ReinitializeNodes | bgp_sim/SecureSimulator/NetworkGraph.cs:127-134 | Whatever an earlier destination left in the nodes, they end in their initial state. |
| RoutingTree.RoutingTables.constructor | bgp_sim/SecureSimulator/SimulatorLibrary.cs:497-501 | Fresh nodes, as of a copied graph, and new tables are blank. |
| RoutingTree.RoutingTables.Over | bgp_sim/SecureSimulator/SimulatorLibrary.cs:469-496 | New tables over reinitialised nodes are blank. |
| RoutingTree.RoutingTables.Visit | bgp_sim/SecureSimulator/BFS.cs:115-283 | One edge scanned on the heap is exactly the step of the value model that the statuses call for, queues the node exactly when the source does and keeps the invariant; or it runs past the bucket table, and then the new node, the child list of its parent and `L` have changed and nothing else. |
| RoutingTree.RoutingTables.ProcessNode | bgp_sim/SecureSimulator/BFS.cs:110-334 | One turn of the loop keeps the invariant, dequeues one node, and adds exactly that node, at the depth worked on, to the processed ones. |
| RoutingTree.RoutingTables.DrainQueue | bgp_sim/SecureSimulator/BFS.cs:109-334 | The loop terminates with an empty queue and the invariant, or at an edge that does not fit; the nodes dequeued are exactly the processed ones, each once, at depths that never decrease. |
| RoutingTree.RoutingTables.ExecuteBfs | bgp_sim/SecureSimulator/BFS.cs:75-347 | A pass takes a settled state to the next one and leaves earlier results undisturbed; it dequeues exactly the exporters of its class, each once, by depth and after its parent, among them every node found earlier; it fails only when the stable routing is too deep. |
| RoutingTree.RoutingTables.RoutingTreeAlg | bgp_sim/SecureSimulator/BFS.cs:584-599 | The three passes succeed exactly when the stable routing fits the table, and then compute it. |
| Initialisation.DagIsValid | bgp_sim/SecureSimulator/SimulatorLibrary.cs:469-504 | The finished tables form a layered DAG: parents one row closer, each AS in exactly one bucket cell, classes consistent with export. |
| MiniDestination.ReorderedIsValid | bgp_sim/SecureSimulator/SimulatorLibrary.cs:505-510 | Reordering the parent lists keeps the DAG valid. |
| Initialisation.DagSolves | bgp_sim/SecureSimulator/SimulatorLibrary.cs:469-504 | The DAG is that of the stable routing: its class, depth and parent sets are exact. |
| Initialisation.InitMiniDestination | bgp_sim/SecureSimulator/SimulatorLibrary.cs:469-556 | From nodes in any state, and with or without copying the graph, yields the sorted DAG of the stable routing and the weights; fails for depth exactly when a route is too long for the table, and otherwise fails exactly when two offered parents hash alike. |
| Weights.FillWeights | bgp_sim/SecureSimulator/SimulatorLibrary.cs:530-556 | The walk over the bucket table gives every reached AS the weight of its distance, and 0 to the destination and the ASes not reached. |
| Weights.WeightFalls | bgp_sim/SecureSimulator/SimulatorLibrary.cs:559-571 | The further from the destination the lower the weight; 10 at most, and 0 exactly beyond ten hops, or twelve with the less harsh weights. |
| SecurePaths.ChoiceExists | bgp_sim/SecureSimulator/Destination.cs:157-174 | Every reached AS has a parent that wins the tie-break among those it considers. |
| SecurePaths.ChoiceIsUnique | bgp_sim/SecureSimulator/Destination.cs:157-174 | That parent is unique when no two keys agree. |
| SecurePaths.SecureByParent | bgp_sim/SecureSimulator/Destination.cs:177-178 | An AS has a fully secure best path exactly when it is secure and the parent it chooses has one. |
| SecurePaths.SecureIsWholePath | bgp_sim/SecureSimulator/Destination.cs:125-182 | Its bit is set exactly when every AS on its chosen path, itself and the destination included, is secure. |
| SecurePaths.PathIsChain | bgp_sim/SecureSimulator/Destination.cs:295-309 | The encoded path has L+1 entries, follows the chosen parents to the destination, repeats no AS and carries the bucket columns. |
| Destinations.Destination.TieBreakSet | bgp_sim/SecureSimulator/Destination.cs:157-172 | The tie-break set holds the secure parents of a secure AS that has some, and all parents otherwise. |
| Destinations.Destination.UpdateNode | bgp_sim/SecureSimulator/Destination.cs:155-179 | Once its parents are up to date, one AS gets exactly the parent, path and bit the security state determines. |
| Destinations.Destination.UpdateSource | bgp_sim/SecureSimulator/Destination.cs:132-146 | Row 0 makes the destination's bit its own security. |
| Destinations.Destination.UpdatePaths | bgp_sim/SecureSimulator/Destination.cs:125-182 | From any earlier state, every reached AS ends with the parent, path and bit S determines, and no other entry changes. |
| Destinations.Destination.ComputeU | bgp_sim/SecureSimulator/Destination.cs:188-242 | The nested loops over paths give every AS the utility of the traffic that passes through it. |
| Utilities.Subtrees.AddPath | bgp_sim/SecureSimulator/Destination.cs:208-233 | One path adds its weight to each AS on it once per visit, under the class of the hop, and nothing to the destination. |
| Transit.ViaIsCloser | bgp_sim/SecureSimulator/Destination.cs:125-182 | A chosen path only goes through ASes strictly closer to the destination. |
| Transit.HitsAreVia | bgp_sim/SecureSimulator/Destination.cs:208-233 | Scanning an encoded path finds an AS once if the chosen path goes through it, under the class of that hop, and never otherwise. |
| Transit.UtilityOfPaths | bgp_sim/SecureSimulator/Destination.cs:188-242 | The utility counted on the stored paths is the one the security state determines. |
| Transit.CountersFit | bgp_sim/SecureSimulator/SimulatorLibrary.cs:290-296 | Where all weights together, and the weight of the destination counted once for every AS, are below 2^31, no counter and no utility reaches 2^31. |
| Transit.TransitsAreDepth | bgp_sim/SecureSimulator/Destination.cs:188-242 | A path of depth L goes through L-1 ASes before the destination. |
| Transit.TrafficIsConserved | bgp_sim/SecureSimulator/Destination.cs:188-242 | On the paths stored for any security state, the customer, peer and provider weights counted for all ASes but the destination add up to the sum of W[i]*(L[i]-1). |
| Workers.SparedSecure | bgp_sim/SecureSimulator/Worker.cs:58-82 | Flipping n changes the security of no AS above n or beside it. |
| Workers.FirstSecureIsChoice | bgp_sim/SecureSimulator/Worker.cs:155-168 | In a sorted list the first secure parent is the choice of a secure AS. |
| Workers.FirstIsChoice | bgp_sim/SecureSimulator/Worker.cs:66-70 | Without a secure parent, or for an insecure AS, the first parent is the choice. |
| Workers.Worker.UpdateParent | bgp_sim/SecureSimulator/Worker.cs:150-190 | A secure AS ends with its choice; an insecure one keeps its parent. |
| Workers.Worker.RepairFlipped | bgp_sim/SecureSimulator/Worker.cs:60-73 | After the flip, n has the parent and bit of the new state although only its own entries were touched. |
| Workers.Worker.TagNode | bgp_sim/SecureSimulator/Worker.cs:101-108 | The one-byte tag says whether, and over which class of hop, the new path of i goes through n. |
| Workers.Worker.VisitRows | bgp_sim/SecureSimulator/Worker.cs:82-128 | The rows below n are repaired and counted once each. |
| Workers.Worker.WhatIf | bgp_sim/SecureSimulator/Worker.cs:58-130 | Flip, repair, flip back: S is restored, the copies hold the flipped state's routes, the counters its utility. |
| Workers.Worker.ComputeUtility | bgp_sim/SecureSimulator/Worker.cs:42-139 | For every AS and all four utilities the incremental answer equals full recomputation with n flipped, and S is restored. |
| Pruning.IdleFlip | bgp_sim/SecureSimulator/SimulatorLibrary.cs:319-330 | Flipping an AS without a secure parent changes nobody's parent or security. |
| Pruning.OffMeansInsecure | bgp_sim/SecureSimulator/SimulatorLibrary.cs:277-282 | When the destination is off nobody has a secure path. |
| Pruning.PruningIsSound | bgp_sim/SecureSimulator/SimulatorLibrary.cs:286-304 | Skipped flips would not have changed the utility of the AS. |
| Simulators.HasSecPThroughParent | bgp_sim/SecureSimulator/SimulatorLibrary.cs:319-330 | Finds a secure parent exactly when there is one. |
| Simulators.RouteAndCount | bgp_sim/SecureSimulator/SimulatorLibrary.cs:266-275 | Updating paths and counting utilities gives every AS the utility its security state determines, on paths that conserve traffic. |
| Simulators.ComputeOnDestination | bgp_sim/SecureSimulator/SimulatorLibrary.cs:238-310 | Exact utilities before any flip and after the flip of each AS of interest, although most flips are never recomputed. |
| Simulators.DestinationOff | bgp_sim/SecureSimulator/SimulatorLibrary.cs:277-282 | For a destination that is off every utility equals the one after any flip. |
| Rounds.SimulatorLibrary.UpdateGlobalState | bgp_sim/SecureSimulator/SimulatorLibrary.cs:737-775 | Flips exactly the ASes whose summed utility, rounded, exceeds the rounded product of the rounded sum before and 1 + percent, and counts flips and ASes on; without results nothing is flipped. |
| Rounds.Threshold.NoGainNoFlip | bgp_sim/SecureSimulator/SimulatorLibrary.cs:763-763 | With any rounding that keeps order, rounds rounded numbers to themselves and keeps 0 and 1, no threshold of at least zero is exceeded without a gain. |
| Rounds.SimulatorLibrary.Round | bgp_sim/SecureSimulator/SimulatorLibrary.cs:737-775 | A round over a list of destinations flips an AS if and only if its "after" values, summed over the destinations, exceed the "before" values by more than the threshold. For a destination that is on, "after" is the exact utility after the AS's own flip for a non-stub (with justProgress, for one that is off), the old utility for other non-stubs and 0 for stubs; for a destination that is off it is the old utility. |
| Rounds.OnlyProgress | bgp_sim/SecureSimulator/SimulatorLibrary.cs:286-304 | With justProgress and a threshold of at least zero only non-stubs that are off are flipped. |
| Rounds.RoundIsProgress | bgp_sim/SecureSimulator/SimulatorLibrary.cs:737-775 | No AS is turned off, no stub is flipped, and the number on grows by exactly the number flipped. |
| Rounds.FlippingShrinks | bgp_sim/SecureSimulator/SimulatorLibrary.cs:737-775 | A round that flips anything leaves strictly fewer non-stubs off. |
| Rounds.Converges | bgp_sim/SecureSimulator/SimulatorLibrary.cs:737-775 | A fixed point is reached after at most as many rounds as non-stubs are off at the start, and every earlier round changes the state. |
| Simulation.ReadyIsPrepared | bgp_sim/SecureSimulator/SimulatorLibrary.cs:469-511 | A DAG as initialised over at most 2^29 numbers, with no key as large as the one the tie-break starts from, meets everything a round asks of it. |
| Simulation.DagIsUnique | bgp_sim/SecureSimulator/SimulatorLibrary.cs:469-511 | A graph, a destination and a tie-break have one sorted DAG, but for the order within bucket cells. |
| Simulation.BuildDags | bgp_sim/TestingApplication/TestingClass.cs:524-528 | One graph whose nodes are reused from destination to destination yields the DAG of each; it fails exactly when some destination has a route too long or a hash collision. |
| Simulation.SimulateRound | bgp_sim/TestingApplication/TestingClass.cs:524-533 | One iteration from the graph reaches exactly the next state of the DAGs of its destinations, or fails, exactly when one of them cannot be built, and changes nothing. |
| Simulation.NextStateIsUnique | bgp_sim/TestingApplication/TestingClass.cs:524-533 | Whichever DAGs a round is given for a graph and its destinations, the next state is the same. |
| Agreement.BfsParentIsChoice | bgp_sim/SecureSimulator/BFS.cs:236-262 | The running comparison inside the BFS picks the parent the arg-min picks. |
| Agreement.BfsPathIsPath | bgp_sim/SecureSimulator/Destination.cs:125-182 | With nobody secure, the path of every reached AS is the one the BFS had stored. |
| BestPaths.WalkDescends | bgp_sim/SecureSimulator/Destination.cs:594-625 | Following best parents leads exactly one row closer at every step. |
| BestPaths.BestPathIsSimple | bgp_sim/SecureSimulator/Destination.cs:594-625 | Best paths have L+1 ASes and repeat none. |
| BestPaths.BestPathIsValleyFree | bgp_sim/SecureSimulator/Destination.cs:594-625 | Along every best path the classes are provider* peer? customer*. |
| BestPaths.GetAllBestPaths | bgp_sim/SecureSimulator/Destination.cs:594-625 | The queue terminates and appends every best path of at most 20 ASes exactly once, and nothing else. |
| BestPaths.ReachedLiesOnPath | bgp_sim/TestingApplication/Program.cs:363-377 | Every AS reached along best parents lies on a best path. |
| BestPaths.GetBestPaths | bgp_sim/TestingApplication/Program.cs:355-382 | The set sent to the Tor client is exactly the ASes reached along best parents when L is below 20, and empty otherwise; for the DAG of a graph these are the ASes the traffic of src may pass through in the graph's stable routing. |
| AllPaths.UnblockedIsShaped | bgp_sim/SecureSimulator/Destination.cs:668-668 | The source's check rejects no hop of a path exactly when the classes of the path are provider* peer? customer*. |
| AllPaths.Extend | bgp_sim/SecureSimulator/Destination.cs:750-760 | A hop that is not blocked and leads to a new AS keeps a partial path simple and legal. |
| AllPaths.EncodingsFindAs | bgp_sim/SecureSimulator/Destination.cs:743-748 | Looking for the four encodings of an AS is looking for the AS. |
| AllPaths.GetAllPaths | bgp_sim/SecureSimulator/Destination.cs:627-767 | Every path reported from src to a different dst follows the lists searched, has the shape provider* peer? customer*, repeats no AS and has at most 8 ASes. |
| Bytes.BigEndianReadsBack | astoria-tor-client/src/common/aes.c:501-519 | Writing a number that fits as big-endian bytes and reading it back gives the number. |
| Bytes.BigEndianJoins | astoria-tor-client/src/common/aes.c:380-387 | The bytes of a number are those of its high part followed by those of its low part. |
| AesCtr.StreamConcat | astoria-tor-client/src/common/aes.c:402-461 | How the data is cut into calls does not matter. |
| AesCtr.StreamTwice | astoria-tor-client/src/common/aes.c:402-461 | Encrypting twice from the same position restores the data. |
| AesCtr.RunIsStream | astoria-tor-client/src/common/aes.c:402-500 | Any sequence of calls writes the one stream of the standard over the concatenated data. |
| AesCtr.RunRestores | astoria-tor-client/src/common/aes.c:402-500 | A second run from the same IV restores the data however either side cut it into calls. |
| AesCtr.WordReadsBack | astoria-tor-client/src/common/aes.c:507-510 | Reading a word in network order and writing it out gives the same bytes. |
| AesCtr.WordsAreBlock | astoria-tor-client/src/common/aes.c:380-387 | The four words in network order are the 128-bit counter in network order. |
| AesCtr.CarryIsIncrement | astoria-tor-client/src/common/aes.c:446-456 | The nested carries over four wrapping words add one modulo 2^128. |
| AesCtr.AesCounterCipher.FillBuf | astoria-tor-client/src/common/aes.c:288-304 | The key block becomes the encryption of the counter. |
| AesCtr.AesCounterCipher.Carry | astoria-tor-client/src/common/aes.c:446-456 | Refreshing only the changed words keeps the byte copy equal to the words. |
| AesCtr.AesCounterCipher.NextBlock | astoria-tor-client/src/common/aes.c:445-457 | At a block boundary the counter grows by one modulo 2^128 and both copies are current. |
| AesCtr.AesCounterCipher.SetIv | astoria-tor-client/src/common/aes.c:501-519 | The counter becomes the number the IV bytes spell, the position 0, the key block its encryption. |
| AesCtr.AesCounterCipher.SetKey | astoria-tor-client/src/common/aes.c:326-365 | A new key starts from counter and position 0. |
| AesCtr.AesCounterCipher.constructor | astoria-tor-client/src/common/aes.c:314-324 | A new cipher stands at the start of the stream of its key and IV. |
| AesCtr.WrittenIsStream | astoria-tor-client/src/common/aes.c:402-461 | A call that reads none of its own output writes the stream: separate buffers, the same buffer, and output that starts before the input. |
| AesCtr.AesCounterCipher.Crypt | astoria-tor-client/src/common/aes.c:402-461 | From and to any places of one buffer or two, overlapping or not, each byte written is the byte then at its place of the input XORed with the stream from the current position; the rest of the buffer is untouched, and the position is the number of bytes so far modulo 16. |
| AesCtr.AesCounterCipher.CryptInplace | astoria-tor-client/src/common/aes.c:463-500 | The same in place. |
| AesCtr.AesCounterCipher.CryptAll | astoria-tor-client/src/common/aes.c:402-500 | Any sequence of calls on one cipher, in place or not, together writes the stream over the concatenated data, and from a fresh start exactly the run of the value model. |
| DiOps.MemCmp | astoria-tor-client/src/common/di_ops.c:14-25 | Zero exactly for equal byte strings. |
| DiOps.MemCmpAt | astoria-tor-client/src/common/di_ops.c:14-25 | Otherwise the difference at the first place that differs. |
| DiOps.MaskIsEquality | astoria-tor-client/src/common/di_ops.c:45-66 | Exclusive or, decrement and sign-keeping shift give all ones exactly when the two bytes agree, and zero otherwise. |
| DiOps.AndWithMask | astoria-tor-client/src/common/di_ops.c:73-75 | Bitwise "and" with that mask keeps the previous result, whatever its sign, or clears it. |
| DiOps.TorMemcmp | astoria-tor-client/src/common/di_ops.c:25-82 | The loop from the last byte to the first, which masks instead of branching, computes exactly that. |
| Address.MemCmpIsOrder | astoria-tor-client/src/common/address.c:1003-1009 | Comparing bytes from the front is comparing big-endian numbers. |
| Address.TopOfBytes | astoria-tor-client/src/common/address.c:1003-1016 | Whole bytes and leftover bits together are the top bits of the address as a number. |
| Address.SameFamilyIsPrefix | astoria-tor-client/src/common/address.c:981-1020 | Within a family the sign is that of comparing the top mask bits as one number, IPv4 masks cut to 32. |
| Address.ExactIsKeyOrder | astoria-tor-client/src/common/address.c:977-1024 | CMP_EXACT orders by family, then by the top bits. |
| Address.ExactIsTotalPreorder | astoria-tor-client/src/common/address.c:965-1024 | For each mask CMP_EXACT is reflexive, antisymmetric in sign and transitive. |
| Address.ExactIsTotalOrder | astoria-tor-client/src/common/address.c:965-1024 | With the full mask only equal addresses compare equal, unspecified ones being identified. |
| Address.MappedIsItsHost | astoria-tor-client/src/common/address.c:960-964 | Under CMP_SEMANTIC a mapped address stands for the IPv4 address in it, and compare(a,b,96+m) = -compare(b,a,m). |
| Address.MappedBlock | astoria-tor-client/src/common/address.c:1029-1036 | The mapped addresses are one block of numbers, in the order of the addresses inside them. |
| Address.MappedTops | astoria-tor-client/src/common/address.c:1038-1050 | The prefixes of two mapped addresses are ordered as the bits that a mask counted from a mapped address selects. |
| Address.SemanticInNumbers | astoria-tor-client/src/common/address.c:1021-1058 | The sign of CMP_SEMANTIC for every mask, in numbers. |
| Address.SemanticSymmetry | astoria-tor-client/src/common/address.c:960-967 | For every mask, swapping the addresses swaps the sign if and only if the two are not an IPv4 and a mapped address that differ under the one reading of the mask and agree under the other. |
| Address.SemanticTransitivity | astoria-tor-client/src/common/address.c:965-967 | For every mask, CMP_SEMANTIC is transitive on a set of addresses if and only if the set holds no crossed triple. |
| Address.CrossedAtFullMask | astoria-tor-client/src/common/address.c:965-967 | With the full mask a crossed triple is an IPv4 address, an IPv6 address below the mapped block, and a mapped address not above the first. |
| Address.SemanticIsNotTransitive | astoria-tor-client/src/common/address.c:965-967 | 1.2.3.4 is below ::1, ::1 below ::ffff:1.2.3.4, and the last equals the first. |
| Address.SemanticIsNotTransitiveMasked | astoria-tor-client/src/common/address.c:965-967 | Under 96 bits 5.0.0.0 is below ::ffff:6.0.0.0, which equals 5.0.0.0 and 1.0.0.0, while 5.0.0.0 is above 1.0.0.0. |
| Decimal.PrintReadsBack | bgp_sim/CloudLibrary/ObjectToText.cs:83-90 | A printed number is a numeral whose value is the number. |
| PtrName.ToPtrName | astoria-tor-client/src/common/address.c:545-582 | Writes the name and its NUL and returns its length when the buffer has room, and returns -1 otherwise and for other families. |
| PtrName.ParseIp6 | astoria-tor-client/src/common/address.c:492-523 | Accepts exactly the 72-character names of 32 nibbles under ip6.arpa, and never reads past the NUL on any string with the suffix. |
| PtrName.ParsePtrName | astoria-tor-client/src/common/address.c:448-540 | The result for every string, family and flag; the length check never decides. |
| PtrName.InetAton | astoria-tor-client/src/common/compat.c:2216-2228 | An accepted dotted quad is a 32-bit number of fewer than 16 characters. |
| PtrName.DottedReads | astoria-tor-client/src/common/compat.c:2216-2228 | Four printed bytes are read back as their 32-bit number. |
| PtrName.Ip6NameReads | astoria-tor-client/src/common/address.c:565-579 | The printed IPv6 name is accepted and gives the address back. |
| PtrName.InAddrNameReads | astoria-tor-client/src/common/address.c:555-563 | The printed IPv4 name is accepted by the first branch and gives the address back. |
| PtrName.NameReadsBack | astoria-tor-client/src/common/address.c:459-582 | Parsing the name printed for any IPv4 or IPv6 address returns that address. |
| PtrName.AcceptedIp6Reprints | astoria-tor-client/src/common/address.c:492-523 | Any accepted ip6.arpa string has 72 characters and prints back to itself up to letter case. |
| StateText.LinesReadBack | bgp_sim/CloudLibrary/ObjectToText.cs:312-315 | Text written line by line is read line by line, with either line ending on headings. |
| StateText.SplitRow | bgp_sim/CloudLibrary/ObjectToText.cs:314-314 | A row of words splits back into the words. |
| StateText.SectionNames | bgp_sim/CloudLibrary/ObjectToText.cs:317-350 | Which section words each heading contains, so that the order of the tests selects the right section. |
| StateText.TableReads | bgp_sim/CloudLibrary/ObjectToText.cs:357-363 | Reading the rows of a table restores its lists and leaves null cells null. |
| StateText.ListsRead | bgp_sim/CloudLibrary/ObjectToText.cs:364-369 | Reading the parent lists restores them, null ones staying null. |
| StateText.PrintedReads | bgp_sim/CloudLibrary/ObjectToText.cs:65-383 | The exact result of reading a printed destination: an exception for an empty array, otherwise the destination with rows cut to the width of the first. |
| StateText.PrintedReadsBack | bgp_sim/CloudLibrary/ObjectToText.cs:65-383 | The round trip restores the destination if and only if the table is rectangular and both arrays are non-empty. |
| StateText.ValidReadsBack | bgp_sim/CloudLibrary/ObjectToText.cs:65-113 | Every valid routing DAG is restored by the round trip. |
| StateText.MiniDestinationToStream | bgp_sim/CloudLibrary/ObjectToText.cs:65-113 | The loops write exactly the specified lines. |
| StateText.MiniDestinationFromStream | bgp_sim/CloudLibrary/ObjectToText.cs:300-383 | The loop over lines gives the specified result on every text, exceptions included. |
| StateText.StreamReader.ReadLine | bgp_sim/CloudLibrary/ObjectToText.cs:311-313 | Takes one line and its break from the front of the text. |
| GlobalStateText.PrintedReads | bgp_sim/CloudLibrary/ObjectToText.cs:416-496 | The round trip of the global state restores it if flags, weights and non-stubs are non-empty, and ends in an exception otherwise. |
| GlobalStateText.GlobalStateToBlob | bgp_sim/CloudLibrary/ObjectToText.cs:416-437 | The loops write exactly the specified lines. |
| GlobalStateText.GlobalStateFromBlob | bgp_sim/CloudLibrary/ObjectToText.cs:439-496 | The loop over lines gives the specified result on every text, exceptions included. |

## Left out

- RoutingTree.RoutingTables.RoutingTreeAlg: parents and children are held by AS number rather than by object reference, `BestNew` and the counters `BfsTreeDepth` and `BfsTreeNodeCount` are not kept.
- Initialisation.InitMiniDestination: needs at most 256 bucket rows so that a depth fits the byte it is cast to (the source allocates 30); the `stubsDontCare` step, off by default, is not modelled.
- Destinations.Destination.ComputeU: the counters are unbounded numbers; `Transit.CountersFit` says when the 32-bit ones agree with them, and what they hold after wrapping is not modelled.
- Workers.Worker.ComputeUtility: the counters are unbounded numbers, as in `ComputeU`.
- Rounds.SimulatorLibrary.UpdateGlobalState: rounding is an arbitrary function on the reals; infinities are not modelled, and the 64-bit sums are unbounded.
- AllPaths.GetAllPaths: soundness only, and for a source other than the destination; the early return and the depth cap make the search incomplete by design. The encoded lists are an arbitrary input that names no AS twice in a list, since how `BestNew` is filled has no clean specification.
- Address.CompareMasked: IPv6 masks above 128 make the source read past the address and are excluded; addresses of other families than the three are not modelled.
- PtrName.ParsePtrName: `tor_addr_parse`, used for strings without a reverse suffix, is an arbitrary function.
- PtrName.Snprintf: what a truncated name leaves in the buffer is not described.
- StateText.MiniDestinationFromStream: an array never mentioned is empty here and null there; white space and letters outside ASCII are ordinary characters here, and signs other than + and - of a culture are errors.
- GlobalStateText.GlobalStateFromBlob: white space and letters outside ASCII are ordinary characters, as in the reader of destinations.
- AesCtr.AesCounterCipher.Crypt: the OpenSSL and EVP paths are not modelled, and buffers are not the cipher's own arrays.
- `OnlyNonStubs`, `useMiniDWeight`, sibling edges and random edge addition: off or absent in the modelled configuration.
- The bit mixing of `hash6432shift`, `ShortestRoutingTreeAlg`, `pathoflength`: an uninterpreted function, a variant with one pass, and a search that gives up at the first failing branch.
- `messageToBlob` and `messageFromBlob`: the text form of results is not modelled.
- Building the graph (`AddEdge`, the file readers) and the result analysis classes: the graph is a value that meets the stated conditions.
- Files, blobs, queues, sockets, consoles, the server loop and the Python scripts: input and output.
