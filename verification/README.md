# Model of the basic-sim experiment framework

A Dafny model of the algorithms in this repository, with proofs of what they are for. Each module follows
one component; where the source changes state in place (the distance matrix, the log helper, the tracker,
the schedulers, the ping client), the model has methods with loops, arrays or classes, each proved against
a specification, and what the component promises is proved about that specification.

- **Max-min fairness** (`MaxMinFairness`, `MmfaTables`, `MmfaSolver`): what a max-min fair allocation is, that it
  is the allocation in which every flow has a bottleneck, that it is unique, and that progressive filling
  computes it. The path check accepts two kinds of input for which no allocation is produced (a path of one
  node, a path that crosses a link again); the contract of `SolveMmfa` says exactly for which inputs one is.
- **Routing** (`HopDistances`, `FloydWarshall`, `EcmpRouting`, `LeafSpine`): walks and hop distances; the in-place
  distance matrix on 32-bit integers; candidate lists and the per-packet decision; delivery of every packet in
  the least number of hops whatever the hashes, and the use of all shortest walks by the hashes; the leaf-spine
  generator and the distances on its networks.
- **Topology files** (`ExpUtil`, `TopologyGraph`, `DirectedMaps`, `LeafSpineTopology`, `FabricRouting`): trimming,
  splitting, numbers, sets and maps as text, and exactly which texts are read as what; reading and checking a topology;
  the round trip from the leaf-spine generator's text to the network the simulator routes on, and the delivery of
  packets between its servers.
- **Experiments in TeX** (`Inheritance`, `ExperimentRuns`, `TexTraversal`): the meaning of a document read from top to
  bottom, and that recording it as a hierarchy and evaluating that depth first later gives the same.
- **Logs** (`StepFunctionLog`, `LogUpdateHelpers`, `UtilizationTracking`, `UtilizationCompression`): the online log of a
  step function, the utilization of a device in windows, and the compression of these windows.
- **Protocols** (`TcpFlowSchedule`, `TcpFlowScheduling`, `LongSchedules`, `UdpPing`, `PingHistory`): the schedule of
  flows and the self-rescheduling starter in a shared event queue, with what becomes of schedules it can not count; the
  ping protocol over a network that loses and reorders packets, and the journeys behind the entries of its log. The
  statements about them are about every state of every run.

Rates and capacities are exact reals, so rounding does not appear. 32-bit and 64-bit widths are modelled where they
matter: the distance matrix, parsed numbers, the loop over the nodes of a topology, the index of the flow starter and
the counter of sent pings. Overflow of a signed index, which C++ leaves undefined, is a failure in the model; a counter
without sign and the cast of a size wrap around. An exception or failed assertion is a value of the result (`None`,
`Refused`, `failed`, `aborted`, ...); where several checks refuse the same input, the model says that it is refused and,
if it is a list of lines or commands, which is the first offending one, but not with which message. Iteration over hash
sets is in arbitrary order in the model, and the contracts hold for every order.

Rows that say "refinement link" are not results of their own: they tie a method to the step function that the theorems
over runs and journeys are about.

Four results say something the documentation does not:

- `read_flow_paths` is documented to guarantee valid paths, and `solve_mmfa` to return an allocation. With a repeated link
  or a path without links it returns none (`SolveMmfa` has the exact condition;
  `LoneNodeIsAcceptedButUnsolvable` and `RoundTripIsAcceptedButUnsolvable` have inputs).
- The sanity checks of the ping client cannot fail if and only if it sends at most 2^32 pings (`SanityChecksHoldIff`): its
  counter has 32 bits while its lists go on growing.
- A generated topology passes every check on the topology graph if and only if it has at most 2^31 - 1 nodes: the loop
  that sets up the nodes has a 32-bit index (`GeneratedTopologyIsAccepted`; `OneLeafCanBeTooLarge` has an input).
  Routing has a limit of its own: it is set up if and only if there are at most 40000 nodes (`FabricRouting.SetUp`;
  `AcceptedButNotRouted` has an input).
- Some run of the simulation fails, or stops without having started every flow, if and only if the schedule has more
  than 2^31 - 1 entries (`StartingGoesWrongIff`; `TooManyFlows` has an input): the starter counts them with a 32-bit
  index and casts their number to 32 bits. Depending on that cast either no run ever stops (`NeverStops`), or every run
  that stops has started only the first entries (`StopsEarly`).

## Model

| member | source | states |
|---|---|---|
| `MaxMinFairness.BottleneckTheorem` | frameworks/mmfa/solve_mmfa.py:220-266 | A feasible allocation of valid paths is max-min fair (whoever gets more elsewhere, somebody with no more than that flow's rate gets less) exactly when every flow crosses a saturated link on which no flow has more |
| `MaxMinFairness.UnblockedFlowCanGrow` | frameworks/mmfa/solve_mmfa.py:220-266 | A flow without a bottleneck in a feasible allocation gets more in another feasible allocation, in which only flows that had more than it get less; so the allocation is not fair |
| `MaxMinFairness.FairAllocationIsUnique` | frameworks/mmfa/solve_mmfa.py:225-250 | There is one max-min fair allocation, so ties between links and the order of the affected set do not matter |
| `MaxMinFairness.SamePathSameRate` | experimentex/rootclasses/rootclass_mmfa.py:462-467 | Flows with the same path have the same rate, which is what the plotter relies on when it reads one matching line |
| `MmfaTables.CounterIsExactWithoutRepeats` | frameworks/mmfa/solve_mmfa.py:240-244 | If no path crosses a link twice, the counter of a link is the number of fixed flows on it, and it reaches the number of present flows exactly when all of them are fixed |
| `MmfaTables.CounterCountsFixedFlows` | frameworks/mmfa/solve_mmfa.py:239-244 | The counter is at least the number of fixed flows on the link, and it is that number if and only if none of the fixed flows crosses the link more than once |
| `MmfaTables.CounterOvershootsOnRepeats` | frameworks/mmfa/solve_mmfa.py:195-206 | With all flows fixed, the counter is at least the number of present flows, and equal to it only if no flow crosses the link more than once |
| `MmfaTables.TightestRaisesLevel` | frameworks/mmfa/solve_mmfa.py:225-227 | Charging the tightest link's flows leaves every other link at least as tight as before: the chosen tightness never decreases |
| `MmfaTables.RoundSettles` | frameworks/mmfa/solve_mmfa.py:233-247 | After a round every fixed flow still has a link on which all flows are fixed, nothing is left, and no flow has more |
| `MmfaTables.EntriesAreOpenLinks` | frameworks/mmfa/solve_mmfa.py:249-266 | The list has as many entries as there are links with flows still to be fixed |
| `MmfaTables.OpenLinksShrink` | frameworks/mmfa/solve_mmfa.py:249-266 | Fixing all flows of a link that was open leaves fewer links open: no link is opened again |
| `MmfaTables.SettledIsFeasible` | frameworks/mmfa/solve_mmfa.py:244-266 | When all flows are fixed, no link carries more than its capacity: its remainder is its capacity minus the rates on it |
| `MmfaSolver.LinkIsThere` | frameworks/mmfa/solve_mmfa.py:198-203 | The scan with early exit finds out whether the path crosses the link |
| `MmfaSolver.FindPresentFlows` | frameworks/mmfa/solve_mmfa.py:194-206 | Exactly the flows that cross the link, in strictly ascending order, so each once |
| `MmfaSolver.BuildTables` | frameworks/mmfa/solve_mmfa.py:187-215 | Succeeds exactly when every used link has capacity; then the tables are exact and the list holds one up-to-date entry per used link |
| `MmfaSolver.Tightest` | frameworks/mmfa/solve_mmfa.py:225-227 | The head of the sorted list: an entry that no entry precedes |
| `MmfaSolver.FixFlow` | frameworks/mmfa/solve_mmfa.py:239-244 | Every crossing of a link by the path raises its counter and lowers its remainder; other links stay; the affected links are those from before and exactly the used links of the path |
| `MmfaSolver.ChargeFlow` | frameworks/mmfa/solve_mmfa.py:236-247 | Fixing a flow keeps counters and remainders exact for the enlarged set of rates |
| `MmfaSolver.RemapLinks` | frameworks/mmfa/solve_mmfa.py:249-266 | In whatever order the affected links are taken, the list ends with one up-to-date entry per link with flows left; an error names a link with flows and without remainder |
| `MmfaSolver.Round` | frameworks/mmfa/solve_mmfa.py:222-266 | Keeps the filling invariant, keeps earlier rates, gives new flows the new level, which is at most every entry of the list; without repeated links it always fixes a flow, never lowers the level, never fails and leaves a strictly shorter list; a round that fixes nothing changes nothing |
| `MmfaSolver.SolveMmfa` | frameworks/mmfa/solve_mmfa.py:172-271 | Returns an allocation if and only if there is a flow, every path has a link, none crosses a link twice, and every used link has capacity; it is the one max-min fair allocation of all flows |
| `MmfaSolver.ReadFlowPaths` | frameworks/mmfa/solve_mmfa.py:120-148 | Accepts exactly the lists whose every hop is a link; the refused line has one that is not |
| `MmfaSolver.ReadAndSolve` | frameworks/mmfa/solve_mmfa.py:274-300 | From the lines of the flow file: an allocation exactly for valid and solvable lines, and it is the fair one |
| `MmfaSolver.LoneNodeIsAcceptedButUnsolvable` | frameworks/mmfa/solve_mmfa.py:269 | A path of one node passes the path check, but there is no allocation |
| `MmfaSolver.RoundTripIsAcceptedButUnsolvable` | frameworks/mmfa/solve_mmfa.py:240-243 | So does a path that crosses a link again |
| `HopDistances.DistanceExists` | frameworks/ns-3-bs/ns-3/contrib/basic-sim/helper/core/arbiter-ecmp-helper.cc:79-88 | Connected nodes have a distance, and it is smaller than the number of nodes |
| `FloydWarshall.InitialMatrix` | frameworks/ns-3-bs/ns-3/contrib/basic-sim/helper/core/arbiter-ecmp-helper.cc:60-77 | 0 on the diagonal, 1 on edges in both directions, 100000000 elsewhere |
| `FloydWarshall.RelaxStep` | frameworks/ns-3-bs/ns-3/contrib/basic-sim/helper/core/arbiter-ecmp-helper.cc:80-88 | One step of the in-place triple loop keeps every entry the length of some walk, or infinite, and no more than any walk whose inner nodes have been handled |
| `FloydWarshall.CoveredIsExact` | frameworks/ns-3-bs/ns-3/contrib/basic-sim/helper/core/arbiter-ecmp-helper.cc:55-58 | After the loop the entries are the distances; with at most 40000 nodes these can not be taken for infinity |
| `FloydWarshall.HopDistanceMatrix` | frameworks/ns-3-bs/ns-3/contrib/basic-sim/helper/core/arbiter-ecmp-helper.cc:53-88 | The matrix on 32-bit integers, computed in place without overflow, is the hop distance of every connected pair and 100000000 for every other |
| `EcmpRouting.CalculateGlobalState` | frameworks/ns-3-bs/ns-3/contrib/basic-sim/helper/core/arbiter-ecmp-helper.cc:45-125 | Refuses exactly more than 40000 nodes; otherwise returns the lists built edge by edge from an exact matrix |
| `EcmpRouting.CandidatesAreExact` | frameworks/ns-3-bs/ns-3/contrib/basic-sim/helper/core/arbiter-ecmp-helper.cc:105-118 | A node is listed as next hop exactly when it is a neighbour on a shortest walk to the target |
| `EcmpRouting.CandidatesAscend` | frameworks/ns-3-bs/ns-3/contrib/basic-sim/model/core/topology-ptop.cc:192-193 | On sorted edges every list is strictly ascending, so without duplicates |
| `EcmpRouting.CandidatesEmpty` | frameworks/ns-3-bs/ns-3/contrib/basic-sim/helper/core/arbiter-ecmp-helper.cc:94-118 | A list is empty exactly at the target and where the target can not be reached |
| `EcmpRouting.Arbiter.constructor` | frameworks/ns-3-bs/ns-3/contrib/basic-sim/model/core/arbiter-ptop.cc:34-57 | The table holds for every neighbour the interface of the edge to it, and 0 for every other node |
| `EcmpRouting.Arbiter.DecideNext` | frameworks/ns-3-bs/ns-3/contrib/basic-sim/model/core/arbiter-ptop.cc:63-109 | Refinement link: the method returns the decision of the model for its table, candidate lists and hash; which of the three errors, no route, or the interface of the candidate numbered by the hash, is stated outright |
| `EcmpRouting.InstallArbiters` | frameworks/ns-3-bs/ns-3/contrib/basic-sim/helper/core/arbiter-ecmp-helper.cc:24-41 | For every network of at most 40000 nodes with valid interfaces, what is installed on the nodes is a valid routing, which is what all statements about journeys require; larger networks are refused |
| `EcmpRouting.EveryDecisionGetsCloser` | frameworks/ns-3-bs/ns-3/contrib/basic-sim/model/core/arbiter-ecmp.cc:43-53 | Whatever the hash, no error occurs on the way to a reachable target, and the one node behind the chosen interface is one hop closer |
| `EcmpRouting.HashSelectsCandidate` | frameworks/ns-3-bs/ns-3/contrib/basic-sim/model/core/arbiter-ecmp.cc:52 | The packet comes out at exactly the candidate whose place is the hash modulo the number of candidates |
| `EcmpRouting.HashesTakeAllShortestWalks` | frameworks/ns-3-bs/ns-3/contrib/basic-sim/model/core/arbiter-ecmp.cc:43-53 | A node is where some hash takes the packet if and only if it is a neighbour on a shortest walk to the target |
| `EcmpRouting.ConsecutiveHashesTakeEachOnce` | frameworks/ns-3-bs/ns-3/contrib/basic-sim/model/core/arbiter-ecmp.cc:52 | Of as many consecutive hashes as there are candidates, exactly one takes the packet to each neighbour on a shortest walk |
| `EcmpRouting.JourneysDeliver` | frameworks/ns-3-bs/ns-3/contrib/basic-sim/model/core/arbiter-ptop.cc:63-109 | Every forwarding run, whatever the hashes, visits no node twice and is at the target exactly when it has taken the shortest number of hops |
| `EcmpRouting.JourneysContinue` | frameworks/ns-3-bs/ns-3/contrib/basic-sim/model/core/arbiter-ecmp.cc:43-53 | No forwarding run gets stuck short of the target: every next hash extends it |
| `EcmpRouting.CutOffIsNoCandidates` | frameworks/ns-3-bs/ns-3/contrib/basic-sim/model/core/arbiter-ecmp.cc:46-51 | Away from the target, the no-candidates error is raised exactly where the target can not be reached |
| `LeafSpine.GenerateLinks` | experimentex/rootclasses/rootclass_load_ls.py:754-775 | The nested loops give the links leaf by leaf, spines first |
| `LeafSpine.GeneratedLinks` | experimentex/rootclasses/rootclass_load_ls.py:760-781 | The links join exactly leafs with spines and servers with their leaf, each once, smaller end first, in sorted order and as many as declared |
| `LeafSpine.DistanceToServer` | experimentex/rootclasses/rootclass_load_ls.py:760-775 | The hop distance from every node to every server |
| `LeafSpine.ServerDistances` | experimentex/rootclasses/rootclass_load_ls.py:760-775 | Two servers are 2 hops apart under one leaf, and 4 otherwise |
| `LeafSpine.FabricCandidates` | frameworks/ns-3-bs/ns-3/contrib/basic-sim/helper/core/arbiter-ecmp-helper.cc:105-118 | Towards a server under another leaf a leaf lists all spines and only those; every other node has the one way there is |
| `ExpUtil.TrimDropsPadding` | frameworks/ns-3-bs/ns-3/contrib/basic-sim/model/core/exp-util.cc:32-58 | Trimming a text with white space around it gives the text |
| `ExpUtil.TrimLeavesBareText` | frameworks/ns-3-bs/ns-3/contrib/basic-sim/model/core/exp-util.cc:32-58 | Trimming removes white space at the ends only, and all of it |
| `ExpUtil.SplitString` | frameworks/ns-3-bs/ns-3/contrib/basic-sim/model/core/exp-util.cc:107-118 | The loop over first occurrences gives the split of the text |
| `ExpUtil.JoinUndoesSplit` | frameworks/ns-3-bs/ns-3/contrib/basic-sim/model/core/exp-util.cc:107-118 | The pieces, joined by the delimiter, are the text |
| `ExpUtil.SplitUndoesJoin` | frameworks/ns-3-bs/ns-3/contrib/basic-sim/model/core/exp-util.cc:107-118 | Joined pieces in which the delimiter does not occur are split into the same pieces |
| `ExpUtil.SplitIs` | frameworks/ns-3-bs/ns-3/contrib/basic-sim/model/core/exp-util.cc:107-118 | The split is the only list of pieces that, joined, give the text and in which the delimiter does not occur |
| `ExpUtil.NumberRoundTrip` | frameworks/ns-3-bs/ns-3/contrib/basic-sim/model/core/exp-util.cc:157-190 | A number printed in decimal is read back, in any padding, exactly when it fits in 64 bits |
| `ExpUtil.NumbersAreRead` | frameworks/ns-3-bs/ns-3/contrib/basic-sim/model/core/exp-util.cc:157-190 | A text is read as a number if and only if it is white space, perhaps a sign, digits and white space, and the value fits in 64 bits; all other texts are refused |
| `ExpUtil.MembersCount` | frameworks/ns-3-bs/ns-3/contrib/basic-sim/model/core/exp-util.cc:306-313 | Comparing the sizes of list and set finds out whether an element is repeated |
| `ExpUtil.ParseSetString` | frameworks/ns-3-bs/ns-3/contrib/basic-sim/model/core/exp-util.cc:290-315 | Reads exactly the elements of a text `set(...)`, trimmed; refuses other texts and repeated elements |
| `ExpUtil.SetRoundTrip` | frameworks/ns-3-bs/ns-3/contrib/basic-sim/model/core/exp-util.cc:290-315 | A list printed as a set is read back as the set of its elements, and refused exactly when one is repeated |
| `ExpUtil.SetsAreRead` | frameworks/ns-3-bs/ns-3/contrib/basic-sim/model/core/exp-util.cc:290-315 | A text is read as a set if and only if it is pieces without commas, joined by commas, between `set(` and `)`, and no two pieces are equal when trimmed |
| `ExpUtil.ParseSetPositiveInt64` | frameworks/ns-3-bs/ns-3/contrib/basic-sim/model/core/exp-util.cc:324-339 | Reads a set of numbers: refused exactly when an element is no number or two stand for the same one |
| `ExpUtil.NumberSetsAreRead` | frameworks/ns-3-bs/ns-3/contrib/basic-sim/model/core/exp-util.cc:324-339 | A text is read as a set of numbers if and only if its pieces are numbers, no two the same |
| `ExpUtil.ParseMapString` | frameworks/ns-3-bs/ns-3/contrib/basic-sim/model/core/exp-util.cc:422-457 | Reads the entries of a text `map(...)` in order; refused exactly when no list of entries with distinct keys fits |
| `ExpUtil.MapRoundTrip` | frameworks/ns-3-bs/ns-3/contrib/basic-sim/model/core/exp-util.cc:422-457 | A printed map of plain keys and values reads as the same entries in the same order, exactly when no key is repeated |
| `ExpUtil.EntriesAreRead` | frameworks/ns-3-bs/ns-3/contrib/basic-sim/model/core/exp-util.cc:445-446 | A piece is read as an entry if and only if it has one colon; key and value are the trimmed sides |
| `TopologyGraph.NodesCovered` | frameworks/ns-3-bs/ns-3/contrib/basic-sim/model/core/topology-ptop.cc:211-213 | The size of their union decides whether servers and switches are exactly all nodes |
| `TopologyGraph.EmptyAdjacency` | frameworks/ns-3-bs/ns-3/contrib/basic-sim/model/core/topology-ptop.cc:161-165 | The loop over the nodes gives all of them, without neighbours, exactly when there are at most 2^31 - 1; otherwise its 32-bit index overflows |
| `TopologyGraph.CollectEdges` | frameworks/ns-3-bs/ns-3/contrib/basic-sim/model/core/topology-ptop.cc:167-190 | Accepts exactly texts that all stand for a pair of existing nodes, smaller first; then list, set and adjacency hold those pairs |
| `TopologyGraph.NoEdgeTwice` | frameworks/ns-3-bs/ns-3/contrib/basic-sim/model/core/topology-ptop.cc:201-203 | Comparing list and set finds out whether two spellings stand for one edge |
| `TopologyGraph.SortEdges` | frameworks/ns-3-bs/ns-3/contrib/basic-sim/model/core/topology-ptop.cc:192-193 | The same edges in order |
| `TopologyGraph.CheckHierarchy` | frameworks/ns-3-bs/ns-3/contrib/basic-sim/model/core/topology-ptop.cc:205-226 | The checks on node types accept exactly: every node is either server or switch, top-of-rack nodes are switches, and servers connect to those only |
| `TopologyGraph.ParseGraph` | frameworks/ns-3-bs/ns-3/contrib/basic-sim/model/core/topology-ptop.cc:142-233 | Returns the graph the configuration describes, with sorted edges and exact adjacency, exactly when it describes one; ends in the overflow of the node index exactly when everything before it is in order and there are 2^31 nodes or more |
| `TopologyGraph.GraphIsUnique` | frameworks/ns-3-bs/ns-3/contrib/basic-sim/model/core/topology-ptop.cc:142-233 | A configuration describes at most one graph |
| `TopologyGraph.NoParameterIsMissing` | frameworks/ns-3-bs/ns-3/contrib/basic-sim/model/core/topology-ptop.cc:142-233 | A configuration that describes a graph has all six parameters |
| `TopologyGraph.PairsAreRead` | frameworks/ns-3-bs/ns-3/contrib/basic-sim/model/core/topology-ptop.cc:313-316 | A text is read as a pair if and only if it is two numbers with the separator between them and nowhere else; the first number comes first |
| `TopologyGraph.EdgeSetsAreRead` | frameworks/ns-3-bs/ns-3/contrib/basic-sim/model/core/topology-ptop.cc:167-190 | A text is read as a set of edges if and only if its pieces are edges of existing nodes, smaller end first, and no two the same edge |
| `TopologyGraph.TopologyPtop.ParseTopologyGraph` | frameworks/ns-3-bs/ns-3/contrib/basic-sim/model/core/topology-ptop.cc:142-252 | Succeeds exactly when the configuration describes a graph with as many nodes as there are system assignments, and the fields then hold it; overflows exactly when the node index does |
| `TopologyGraph.ParsedNetwork` | frameworks/ns-3-bs/ns-3/contrib/basic-sim/model/core/topology-ptop.cc:168-203 | An accepted graph meets what routing needs: a valid network with sorted edges whose neighbours are those in the adjacency list |
| `TopologyGraph.BothDirectionsCount` | frameworks/ns-3-bs/ns-3/contrib/basic-sim/model/core/topology-ptop.cc:333 | There are twice as many directed edges as edges |
| `TopologyGraph.TopologyPtop.ParseDirectedEdgeMap` | frameworks/ns-3-bs/ns-3/contrib/basic-sim/model/core/topology-ptop.cc:306-338 | Accepts exactly the texts that stand for a map with one entry for each direction of each edge and no other; the result is that map |
| `DirectedMaps.DirectedMapRoundTrip` | frameworks/ns-3-bs/ns-3/contrib/basic-sim/model/core/topology-ptop.cc:306-338 | A map printed with keys `a->b` is read if and only if its pairs are both directions of all edges, each once; the result gives each pair the value printed for it |
| `DirectedMaps.PrintedMapIsAccepted` | frameworks/ns-3-bs/ns-3/contrib/basic-sim/model/core/topology-ptop.cc:306-338 | A map printed for both directions of all edges, in any order, is accepted |
| `DirectedMaps.DirectedMapIsUnique` | frameworks/ns-3-bs/ns-3/contrib/basic-sim/model/core/topology-ptop.cc:306-338 | No text stands for two maps |
| `LeafSpineTopology.NumberSetRoundTrip` | experimentex/rootclasses/rootclass_load_ls.py:781-791 | A printed set of distinct numbers that fit in 64 bits is read back as that set |
| `LeafSpineTopology.EdgeSetRoundTrip` | experimentex/rootclasses/rootclass_load_ls.py:792-794 | A printed list of edges is read back as exactly that edge set; one printed twice is refused |
| `LeafSpineTopology.GeneratedTopologyIsAccepted` | experimentex/rootclasses/rootclass_load_ls.py:777-794 | The generated text describes a graph if and only if there are at most 2^31 - 1 nodes, and that graph is the fabric |
| `LeafSpineTopology.GeneratedTopologyOverflows` | frameworks/ns-3-bs/ns-3/contrib/basic-sim/model/core/topology-ptop.cc:161-165 | A generated topology overflows the node index exactly when it has 2^31 nodes or more and its counts can be read as 64-bit numbers |
| `LeafSpineTopology.OneLeafCanBeTooLarge` | frameworks/ns-3-bs/ns-3/contrib/basic-sim/model/core/topology-ptop.cc:161-165 | One leaf, one spine and 2^31 - 2 servers: all counts are readable, and reading overflows |
| `LeafSpineTopology.SortedEdgesAreUnique` | frameworks/ns-3-bs/ns-3/contrib/basic-sim/model/core/topology-ptop.cc:192-193 | There is one sorted list of a set of edges |
| `LeafSpineTopology.SimulatedNetworkIsTheFabric` | experimentex/rootclasses/rootclass_load_ls.py:754-794 | What the simulator reads from the generated text is the generated network, edge by edge in the same order |
| `FabricRouting.SetUp` | frameworks/ns-3-bs/ns-3/contrib/basic-sim/main/main-full.cc:55-57 | Reading the printed topology of a fabric and installing routing on what was read succeeds if and only if it has at most 40000 nodes; then every node holds its part of a valid routing of the generated network |
| `FabricRouting.ServersDeliver` | frameworks/ns-3-bs/ns-3/contrib/basic-sim/model/core/arbiter-ptop.cc:63-109 | Between two servers every forwarding run, whatever the hashes, takes at most 2 hops under one leaf and 4 otherwise, visits no node twice, and is at the target exactly when it has taken that many |
| `FabricRouting.ServersContinue` | frameworks/ns-3-bs/ns-3/contrib/basic-sim/model/core/arbiter-ecmp.cc:43-53 | Short of the target server every next hash extends the run |
| `FabricRouting.LeafsSpread` | frameworks/ns-3-bs/ns-3/contrib/basic-sim/model/core/arbiter-ecmp.cc:52 | A leaf sends a packet for a server under another leaf to the spine numbered by the hash modulo the number of spines |
| `FabricRouting.AcceptedButNotRouted` | frameworks/ns-3-bs/ns-3/contrib/basic-sim/helper/core/arbiter-ecmp-helper.cc:55-58 | A fabric of 40002 nodes whose topology is accepted, but which is too large for routing |
| `Inheritance.LineKeepsRecords` | experimentex/parser.py:471-504 | Recording a legal expline keeps: every recorded name means its parent's meaning with its own lines applied |
| `Inheritance.DeclarationKeepsRecords` | experimentex/parser.py:506-578 | So does recording a declaration; the names stay a forest under the root classes |
| `Inheritance.IncludeKeepsRecords` | experimentex/parser.py:580-591 | So does recording an include: every name keeps all files included for it so far, in text order |
| `Inheritance.IncludedFilesInTextOrder` | experimentex/parser.py:584-591 | The recorded files of a name are those of all commands that include for it, each once and in text order |
| `ExperimentRuns.ProcessInheritance` | experimentex/parser.py:425-622 | Accepts exactly the legal documents; a rejection inside the document is at its first illegal command; every name is recorded with the files of all its includes |
| `ExperimentRuns.CheckIncludes` | experimentex/parser.py:603-622 | No complaint exactly when every included name is an instance |
| `ExperimentRuns.InterpretRoot` | experimentex/interpret.py:53-125 | The work list visits everything under one root class, each name once and after its parent, and generates exactly its childless names, each as what it means |
| `ExperimentRuns.ChildlessAreInstances` | experimentex/parser.py:596-601 | In an accepted hierarchy the childless declared names are exactly the instances |
| `ExperimentRuns.Interpret` | experimentex/interpret.py:52-125 | Terminates, visits every declared name exactly once and after its parent, and generates for every instance its meaning |
| `ExperimentRuns.InterpretDocument` | experimentex/interpret.py:64-89 | Deferred inheritance keeps the meaning: each instance of a legal document gets what executing the commands in text order gives it |
| `TexTraversal.ReadingOrder` | experimentex/parser.py:393-395 | A list is one command for each address in the tree that has one, in lexicographic order of addresses, if and only if it is what the recursion over children finds |
| `TexTraversal.ParseTexFile` | experimentex/parser.py:81-95 | The explicit work list adds the commands at all addresses in the tree of the document that have one, each once and in the order of the addresses |
| `TexTraversal.ParseTexFiles` | experimentex/parser.py:404-422 | The commands of all files in the same sense, all those of a file before those of the next |
| `StepFunctionLog.LogIsUnique` | frameworks/ns-3-bs/ns-3/contrib/basic-sim/model/core/log-update-helper.h:146-216 | A history has one log: contiguous, non-empty intervals with different adjacent values, from the first update to the end, each holding the last value written |
| `StepFunctionLog.LaterUpdateKeepsSteps` | frameworks/ns-3-bs/ns-3/contrib/basic-sim/model/core/log-update-helper.h:86-89 | An update that is not in the past leaves the log up to its time correct |
| `LogUpdateHelpers.UpdateFits` | frameworks/ns-3-bs/ns-3/contrib/basic-sim/model/core/log-update-helper.h:78-144 | The two remembered intervals and what was written keep describing the history: several updates at one moment collapse to the last, equal neighbours merge |
| `LogUpdateHelpers.EndIsLog` | frameworks/ns-3-bs/ns-3/contrib/basic-sim/model/core/log-update-helper.h:159-207 | What finalizing adds completes the log of the history up to the end time |
| `LogUpdateHelpers.LogUpdateHelper.Update` | frameworks/ns-3-bs/ns-3/contrib/basic-sim/model/core/log-update-helper.h:78-144 | Appends the update to the history, or refuses a negative or past time and changes nothing; after finalizing, the log goes on and the closed file stays as it is |
| `LogUpdateHelpers.LogUpdateHelper.Finalize` | frameworks/ns-3-bs/ns-3/contrib/basic-sim/model/core/log-update-helper.h:146-216 | Returns the log of the whole history; the file holds the left ends of the same intervals and one closing line. A second call appends the open intervals to the log again and leaves the file as it is |
| `UtilizationTracking.CountedIsOnTime` | frameworks/ns-3-bs/ns-3/contrib/basic-sim/model/core/net-device-utilization-tracker.cc:54-60 | For alternating begin and end events, what the tracker counts as busy is the time the device was on |
| `UtilizationTracking.BusyTimesAddUp` | frameworks/ns-3-bs/ns-3/contrib/basic-sim/model/core/net-device-utilization-tracker.cc:75-76 | The busy times of windows that tile the time add up to the busy time of the whole |
| `UtilizationTracking.ClosingAWindow` | frameworks/ns-3-bs/ns-3/contrib/basic-sim/model/core/net-device-utilization-tracker.cc:78-86 | When a window closes, idle and busy time add up to its width, for every history |
| `UtilizationTracking.EventIsCounted` | frameworks/ns-3-bs/ns-3/contrib/basic-sim/model/core/net-device-utilization-tracker.cc:62-101 | Accounting for an event, whatever the number of windows it ends, leaves every window and the counters exact for the longer history |
| `UtilizationTracking.NetDeviceUtilizationTracker.TrackUtilization` | frameworks/ns-3-bs/ns-3/contrib/basic-sim/model/core/net-device-utilization-tracker.cc:62-101 | An event is added to the history; the windows saved before stay, and the counters fit the longer history |
| `UtilizationTracking.NetDeviceUtilizationTracker.FinalizeUtilization` | frameworks/ns-3-bs/ns-3/contrib/basic-sim/model/core/net-device-utilization-tracker.cc:103-113 | The windows tile the time up to now, all but the last of full width; for alternating events each holds the on-time inside it, and their total is the total on-time |
| `UtilizationCompression.Compress` | frameworks/ns-3-bs/ns-3/contrib/basic-sim/helper/core/ptop-link-net-device-utilization-tracking.cc:142-197 | The lines are the maximal runs of windows whose neighbours are closer than the threshold; they span the same time without gaps and hold the same total busy time |
| `UtilizationCompression.LinesTile` | frameworks/ns-3-bs/ns-3/contrib/basic-sim/helper/core/ptop-link-net-device-utilization-tracking.cc:174-194 | The lines span the same time as the windows, without gaps |
| `UtilizationCompression.BusyTimeIsConserved` | frameworks/ns-3-bs/ns-3/contrib/basic-sim/helper/core/ptop-link-net-device-utilization-tracking.cc:144-147 | Total busy time is the same |
| `UtilizationCompression.LinesAreClose` | frameworks/ns-3-bs/ns-3/contrib/basic-sim/helper/core/ptop-link-net-device-utilization-tracking.h:24 | In a line of m windows each window's utilization is within (m - 1) times 0.000001 of the line's |
| `UtilizationCompression.NextLineDiffers` | frameworks/ns-3-bs/ns-3/contrib/basic-sim/helper/core/ptop-link-net-device-utilization-tracking.cc:166 | Where one line ends and another begins, the utilizations of the neighbouring windows differ by 0.000001 or more |
| `UtilizationCompression.TrackedWindowsAreConsecutive` | frameworks/ns-3-bs/ns-3/contrib/basic-sim/helper/core/ptop-link-net-device-utilization-tracking.cc:141 | What the tracker returns can be compressed |
| `TcpFlowSchedule.ReadTcpFlowSchedule` | frameworks/ns-3-bs/ns-3/contrib/basic-sim/helper/apps/tcp-flow-schedule-reader.cc:77-152 | Accepts exactly the schedules: ids are line numbers, endpoints valid and different, starts weakly ascending and before the end; otherwise names the first line that keeps the file from being one |
| `TcpFlowSchedule.EntryRoundTrip` | frameworks/ns-3-bs/ns-3/contrib/basic-sim/helper/apps/tcp-flow-schedule-reader.cc:97-110 | A line with the fields of an entry in this order, separated by commas, is read back as the entry |
| `TcpFlowSchedule.EntryIsRead` | frameworks/ns-3-bs/ns-3/contrib/basic-sim/helper/apps/tcp-flow-schedule-reader.cc:97-110 | A line is read as an entry if and only if it has seven fields, the first five its numbers, the last two its texts |
| `TcpFlowSchedule.FilteredIsExact` | frameworks/ns-3-bs/ns-3/contrib/basic-sim/helper/apps/tcp-flow-scheduler.cc:123-134 | The schedule of a system holds exactly the entries starting at its nodes, in ascending order of ids |
| `TcpFlowSchedule.FilteredIsStartable` | frameworks/ns-3-bs/ns-3/contrib/basic-sim/helper/apps/tcp-flow-scheduler.cc:123-134 | Filtering keeps starts weakly ascending and before the end |
| `TcpFlowSchedule.SystemsPartitionTheSchedule` | frameworks/ns-3-bs/ns-3/contrib/basic-sim/helper/apps/tcp-flow-scheduler.cc:123-134 | The systems together hold every entry exactly as often as the full schedule |
| `TcpFlowScheduling.StepKeeps` | frameworks/ns-3-bs/ns-3/contrib/basic-sim/helper/apps/tcp-flow-scheduler.cc:28-63 | On a schedule of at most 2^31 - 1 entries every event keeps the invariant: one pending start, that of the first entry not started, and applications in schedule order; applications are only added and the clock never goes back |
| `TcpFlowScheduling.EveryRunStartsInOrder` | frameworks/ns-3-bs/ns-3/contrib/basic-sim/helper/apps/tcp-flow-scheduler.cc:28-63 | On such a schedule, in every state of every run no assertion has failed, the applications are those of the first entries, each started once at its start time, and every entry whose time has passed is started |
| `TcpFlowScheduling.StoppedRunHasStartedAll` | frameworks/ns-3-bs/ns-3/contrib/basic-sim/model/core/basic-simulation.cc:177 | On such a schedule, when the stop event has been executed, all entries have been started |
| `LongSchedules.StartingGoesWrongIff` | frameworks/ns-3-bs/ns-3/contrib/basic-sim/helper/apps/tcp-flow-scheduler.cc:28-63 | Some reachable state has failed, or has stopped without having started every flow, if and only if the schedule has more than 2^31 - 1 entries |
| `LongSchedules.NeverStops` | frameworks/ns-3-bs/ns-3/contrib/basic-sim/helper/apps/tcp-flow-scheduler.cc:58 | On a longer schedule whose size is cast to a number that is not positive, no run reaches the stop event: the index overflows before |
| `LongSchedules.StopsEarly` | frameworks/ns-3-bs/ns-3/contrib/basic-sim/helper/apps/tcp-flow-scheduler.cc:58-61 | On a longer schedule whose size is cast to a positive number, no run fails, and a stopped run has started, once and at their times, exactly as many of the first entries as that number |
| `LongSchedules.EndedRunIsCompleteIff` | frameworks/ns-3-bs/ns-3/contrib/basic-sim/helper/apps/tcp-flow-scheduler.cc:28-63 | A run that is over, stopped or failed, has started every flow, once and at its time, if and only if the schedule has at most 2^31 - 1 entries |
| `LongSchedules.TooManyFlows` | frameworks/ns-3-bs/ns-3/contrib/basic-sim/helper/apps/tcp-flow-scheduler.cc:58-60 | 2^31 flows that all start at time 0 are a legal schedule on which some run fails and no run ever stops |
| `TcpFlowScheduling.Filter` | frameworks/ns-3-bs/ns-3/contrib/basic-sim/helper/apps/tcp-flow-scheduler.cc:124-130 | The loop gives the filtered schedule |
| `TcpFlowScheduling.TcpFlowScheduler.constructor` | frameworks/ns-3-bs/ns-3/contrib/basic-sim/helper/apps/tcp-flow-scheduler.cc:73-179 | Keeps the whole schedule or this system's part, and puts the start of its first entry, if any, into the event queue |
| `TcpFlowScheduling.TcpFlowScheduler.StartNextFlow` | frameworks/ns-3-bs/ns-3/contrib/basic-sim/helper/apps/tcp-flow-scheduler.cc:28-63 | Refinement link: does to applications and event queue what the step of the model does, and fails exactly for an index out of range, at a time that is not the start time, or when index or schedule overflow |
| `TcpFlowScheduling.TcpFlowScheduler.WriteResults` | frameworks/ns-3-bs/ns-3/contrib/basic-sim/helper/apps/tcp-flow-scheduler.cc:214-274 | Runs out of range exactly with fewer applications than entries; after a complete run row i pairs entry i with its own application, and ends at its completion if it was completed and at the end of the simulation if not |
| `UdpPing.EveryRunIsSane` | frameworks/ns-3-bs/ns-3/contrib/basic-sim/model/apps/udp-ping-client.cc:172-238 | With at most 2^32 pings, in every reachable state no sanity check has failed, the three lists are equally long, ping k was sent at start + k intervals, and an answered ping has send <= reply <= receive |
| `UdpPing.ClosedMeansComplete` | frameworks/ns-3-bs/ns-3/contrib/basic-sim/model/apps/udp-ping-client.cc:196-204 | A closed client has sent max(1, ceil(duration / interval)) pings and closed at start + duration + wait |
| `UdpPing.LateMeansClosed` | frameworks/ns-3-bs/ns-3/contrib/basic-sim/model/apps/udp-ping-client.cc:153-204 | Once the duration and the wait are over, every started client has closed, at start + duration + wait, with all its pings sent |
| `UdpPing.PingsCount` | frameworks/ns-3-bs/ns-3/contrib/basic-sim/model/apps/udp-ping-client.cc:197 | The test for another ping holds for as many pings as the duration has intervals begun |
| `UdpPing.OwnReplyIsEntered` | frameworks/ns-3-bs/ns-3/contrib/basic-sim/model/apps/udp-ping-client.cc:225-235 | A reply of ours passes both sanity checks and sets exactly its own entries |
| `UdpPing.OthersDoNotMatter` | frameworks/ns-3-bs/ns-3/contrib/basic-sim/model/apps/udp-ping-client.cc:221-225 | Reading packets has the same effect as reading only those among them with the client's own identifier |
| `PingHistory.EntriesStay` | frameworks/ns-3-bs/ns-3/contrib/basic-sim/model/apps/udp-ping-client.cc:225-235 | A step changes the entries of a ping only if it is the receipt of a reply with the client's own identifier and that number, and the ping was not answered; sent times never change |
| `PingHistory.AnsweredPingsMadeTheTrip` | frameworks/ns-3-bs/ns-3/contrib/basic-sim/model/apps/udp-ping-server.cc:110-136 | For every answered ping the run holds the step in which it was sent, at the time in the first list, a later one in which the server answered it, at the time in the second list, and a later one in which this answer was received, at the time in the third |
| `UdpPing.DrainIsReceives` | frameworks/ns-3-bs/ns-3/contrib/basic-sim/model/apps/udp-ping-client.cc:209-238 | Reading all waiting packets at once leads to a state reached by receiving them one after the other |
| `UdpPing.SanityChecksHoldIff` | frameworks/ns-3-bs/ns-3/contrib/basic-sim/model/apps/udp-ping-client.cc:228-229 | Some run fails a sanity check if and only if more than 2^32 pings are sent |
| `UdpPing.UdpPingClient.Send` | frameworks/ns-3-bs/ns-3/contrib/basic-sim/model/apps/udp-ping-client.cc:171-206 | Refinement link: sends the packet and changes the state as the step of the model does |
| `UdpPing.UdpPingClient.HandleRead` | frameworks/ns-3-bs/ns-3/contrib/basic-sim/model/apps/udp-ping-client.cc:208-238 | Refinement link: reads packets in order up to a failed check, as the model does; packets with other identifiers leave the state as it was |
| `UdpPing.UdpPingClient.Finish` | frameworks/ns-3-bs/ns-3/contrib/basic-sim/model/apps/udp-ping-client.cc:153-163 | Closes exactly when no event is pending, and changes nothing else |
| `UdpPing.UdpPingServer.HandleRead` | frameworks/ns-3-bs/ns-3/contrib/basic-sim/model/apps/udp-ping-server.cc:110-136 | Every waiting packet is answered with its own identifier and number and the present time |

## Left out

- File, directory, plotting and console output; run directories and run.sh files; file contents appear only as sequences of lines or parameters.
- `read_config` and `read_directed_topology`: the topology parameters are a map from names to texts, the flow graph is given with distinct links and capacities that are not negative.
- Floating point rounding in the allocation and in the compression; parsing of decimal fractions.
- Rejections are not told apart by message; of the checks on one line or one configuration the model says only that one fails.
- The exceptional texts of the TeX parser (argument formats) and of single explines; the effect of an expline is an arbitrary total function on the data structure.
- The murmur3 hash: every packet may have any hash at every node.
- Sockets, TCP, queues, interface numbering and the MPI simulator: interface numbers are given, positive and distinct at each node; in a distributed run each system is a run of its own.
- Overflow of 64-bit sums of times (start + duration + wait of a ping, start of a flow), which are unbounded integers here.
- Ping identifiers of 2^32 and more, which the client stores in 32 bits.
- `ParseUndirectedEdgeMap`: the same loop as for directed edges, with one direction only.
- The remote port and type-of-service selectors of the flow scheduler, and the log of single flows.
- Round-trip statistics and percentiles; top lists; random traffic generation; the mean load formulas.
- MmfaSolver.SolveMmfa: takes lists of paths that passed the path check, as the program does; `MmfaSolver.ReadAndSolve` has no such condition. `SpinsForever` stands for the loop that repeats a round without changing its state.
