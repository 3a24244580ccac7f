# Routing, topology, workload and analysis of the cross-datacenter simulator

A Dafny model of the parts of the simulator that decide where packets go and what is measured, with proofs about every
graph, every fabric size, every run and every input.

**Routing** (`Graph`, `Costs`, `Routing`, `Forwarding`, `Failover`, `Symmetry`, `Crossed`). `nbr2if` is a map of maps of interfaces. A breadth-first
search from every host fills `nextHop`, `pairDelay`, `pairTxDelay` and `pairBw`; taking a link down clears `nextHop` and
searches again. The neighbour maps are keyed by pointers in the program, so their order is arbitrary here (`:|`), and all
results hold for every order. The tables are proved to be exactly the shortest-path next hops, equal-cost forwarding to be
loop-free whatever is chosen at each step, and every sequence of failures to leave what a fresh computation would give. The
pair tables are different: they are not cleared, so that entries of nodes cut off keep their last values
(`Failover.StaleIffCutOff`, `Failover.StaleKeepsValues`) while the others are current. Two hosts' records of each other agree if
all shortest paths between them cost alike, as they do on the fabric (`Symmetry`); on a network with crossed layers they differ
although all searches walk neighbours in one order (`Crossed`).

**Load balancing** (`PathIds`, `LoadBalancing`). The nested loops that chain next hops from ToR to ToR and pack ports into a
32-bit id are proved to enumerate exactly the shortest paths, and to give up exactly if some pair of ToRs is more than four
hops apart. The un-reset byte buffer never leaks between paths.

**Topology** (`Topology`, `Loops`, `TopologyGen`, `TopologyFacts`, `Wiring`, `Fabric`, `Rtt`, `FabricRtt`, `Setup`, `FatTree`,
`FatPorts`, `FatPaths`).
The generator of multi-datacenter fat-trees, the reading of its file, and the routing results on it, for every even k,
over-subscription ratio and number of datacenters: ids are a bijection, distances and path counts per layer, `maxRtt` and
`maxBdp` in 64-bit arithmetic and exactly when they have their closed forms. Long enough links between datacenters make the
product behind `maxBdp` wrap (`FabricRtt.LongLinksWrap`). Two end-to-end results: on every generated cross-datacenter fabric
the load balancers of modes 3, 6 and 9 stop at their assertion (`Setup.SetUpLoadBalancer`), and on every single fat-tree they
are set up completely (`FatTree.SetUpTree`). There every pair of ToRs gets one id per shortest path if and only if k/2 is at most 256
(`FatPaths.HowManyIds`); beyond that ids collide.

**Workload** (`Decimal`, `Traffic`, `FlowFile`, `Schedule`, `Workload`). The generators' event loops over arbitrary random numbers,
the flow file as text with its back-patched header, its reading, and the scheduler that installs flows as simulated time goes
by. Unless the simulation itself is stopped first, intra-datacenter files always run to the end. A mixed file runs to the end
exactly if its second phase, which starts over at the base time, begins no earlier than its first phase ends; otherwise the scheduler computes a negative delay. Each line is
installed once exactly if the header's count is the number of lines; a count left too high installs the last line again
(`Schedule.EachLineOnce`).

**Analysis and tools** (`CustomRand`, `Pfc`, `Cdf`, `Gather`, `UnifiedDiff`, `PatchParsing`, `CheckStyle`). Inverse functions over exact reals; pause
intervals compared with the older analyzer; run-length distributions, whose zero bucket is missing exactly if 0 is the smallest
value; the path gatherer, which finds exactly the simple paths of the type graph; and the diff printer and parser, which are
inverse exactly on patches without lines that look like file headers and without newlines in names or lines; for any other
input `PatchParsing` says when the parser raises and what it builds.

Methods follow the program's loops and mutable objects; each is proved against a predicate or function on its state, and the
lemmas beside it say what that means. `hide` statements only keep definitions out of proofs that do not need them.
`dafny verify dfyconfig.toml` checks everything.

## Model

| member | source | states |
|---|---|---|
| Graph.CertifiedByPaths | simulation/scratch/cross_dc.cc:879-905 | a distance map closed under relayed up links, with a path attaining each value, is the shortest-path distance and its keys are exactly the reachable nodes |
| Graph.LabelIsDist | simulation/scratch/cross_dc.cc:879-905 | a labelling that is 0 at the host, grows by at most one per relayed link and has a nearer relaying neighbour everywhere else is the shortest-path distance |
| Graph.NoPathIsShorter | simulation/scratch/cross_dc.cc:896-898 | no path over up links with switches inside is shorter than what the search recorded |
| Graph.OneNearer | simulation/scratch/cross_dc.cc:900-903 | every reachable node but the host has a relaying neighbour exactly one link nearer |
| Graph.SameElements | simulation/scratch/cross_dc.cc:883-904 | next-hop lists with the same elements, each once, are equal up to order, whatever order the neighbour map was walked in |
| Routing.Network.VisitNeighbours | simulation/scratch/cross_dc.cc:880-904 | expanding one queue entry, its neighbours in any order, keeps the search invariant: the queue is ordered by distance, every node known has a tree path of its distance and recorded cost, and the next hops listed so far are those of the links looked at |
| Routing.Network.CalculateRoute | simulation/scratch/cross_dc.cc:864-915 | one search appends to each node's list for its host exactly the relaying neighbours one link nearer, each once, touches no other host's lists, and stores for every reachable node delay, transmission time and bandwidth of one and the same shortest path, in 64-bit arithmetic |
| Routing.Network.CalculateRoutes | simulation/scratch/cross_dc.cc:916-923 | the searches of all hosts together: each adds only entries of its own destination |
| Routing.FromEmptyIsExact | simulation/scratch/cross_dc.cc:916-923 | from empty tables, every list holds exactly the next hops on shortest paths, each once, and lists for anything but a host are empty |
| Routing.OneMoreRoute | simulation/scratch/cross_dc.cc:917-921 | a further search keeps the routes of the earlier ones |
| Routing.OneMoreColumn | simulation/scratch/cross_dc.cc:906-922 | a further search keeps the pair entries of the earlier ones |
| Routing.DistancesFound | simulation/scratch/cross_dc.cc:879-905 | when the queue is used up, the distances are those of shortest paths and nothing reachable is missing |
| Routing.MoreExpanded | simulation/scratch/cross_dc.cc:880-881 | each pass expands a node not expanded before, so the search over the growing queue ends |
| Routing.PairsAreExact | simulation/scratch/cross_dc.cc:906-914 | the stored columns are the costs of shortest paths for what the host reaches, and all other entries are as before |
| Routing.Network.SetRoutingEntries | simulation/scratch/cross_dc.cc:928-951 | to the ports of a node for a host it appends one for each next hop, in order: the number of the interface that leads to it |
| Routing.PortsLeadThere | simulation/scratch/cross_dc.cc:940-944 | the ports of a list of neighbours are as many as these, the k-th being the number of the interface to the k-th |
| Routing.Network.TakeDownLink | simulation/scratch/cross_dc.cc:955-978 | if the link is up it goes down in both directions, no other interface changes, next hops become those a fresh computation on the remaining links gives, and for each of them the number of the interface to it is installed; otherwise nothing changes |
| Routing.LinkIsLost | simulation/scratch/cross_dc.cc:956-958 | marking one interface pair down removes exactly that link, and reading an absent interface changes no link |
| Costs.CostsSnoc | simulation/scratch/cross_dc.cc:889-893 | extending a path by one link adds its delay and transmission time modulo 2^64 and takes the smaller bandwidth |
| Costs.TxIsQuotient | simulation/scratch/cross_dc.cc:890-892 | a link's transmission time is the 64-bit value of 8 * 10^9 times the payload, divided by the rate and rounded down |
| Costs.NarrowestLink | simulation/scratch/cross_dc.cc:893 | a path's bandwidth is at most that of each of its links and equals one of them, or the 64-bit maximum |
| Costs.ShortestPathsCostAlike | simulation/scratch/cross_dc.cc:889-893 | if a potential grows along every next-hop link by what the link costs, all shortest paths of a pair cost the same, so the recorded values do not depend on neighbour order |
| Symmetry.CostsBack | simulation/scratch/cross_dc.cc:889-893 | on a table whose links have the same delay and rate in both directions, a path and its reverse have the same delay, transmission time and bandwidth |
| Symmetry.DistanceBack | simulation/scratch/cross_dc.cc:894-903 | distances are the same in both directions |
| Symmetry.RecordsAgree | simulation/scratch/cross_dc.cc:906-914 | if all shortest paths between two hosts cost alike, what each records of the other agrees in all three tables, and so do the round-trip times and products computed from it |
| Symmetry.AgreeIfAlike | simulation/scratch/cross_dc.cc:889-914 | the two records agree in every table filled along shortest paths, whichever they are, if and only if all shortest paths between the two hosts cost alike in 64 bits |
| Symmetry.WiredRecordsAgree | simulation/scratch/cross_dc.cc:1605-1619 | so on any network read from link lines with rates above 0, whose links always have the same delay and rate in both directions |
| Crossed.RecordsDiffer | simulation/scratch/cross_dc.cc:879-899 | a network of two hosts and four switches on which searches that both walk neighbours in ascending order record a delay of 4 one way and 3 the other |
| Symmetry.TakedownKeepsAgreement | simulation/scratch/cross_dc.cc:955-960 | a takedown keeps the agreement if the shortest paths left cost alike, or if none is left and both entries are stale |
| Forwarding.HopIsNextHop | simulation/scratch/cross_dc.cc:900-903 | in exact tables being listed and being a relaying neighbour one link nearer are the same |
| Forwarding.CountsDown | simulation/scratch/cross_dc.cc:900-903 | along every sequence of next-hop choices the distance to the host falls by one per step |
| Forwarding.LoopFree | simulation/scratch/cross_dc.cc:894-903 | no sequence of next-hop choices visits a node twice, or a host other than its ends |
| Forwarding.ShortestPathForwards | simulation/scratch/cross_dc.cc:900-903 | every shortest path is one of the sequences of next-hop choices |
| Forwarding.TripIsShortestPath | simulation/scratch/cross_dc.cc:900-903 | every sequence of next-hop choices to the host is a shortest path |
| Forwarding.TripsAreTrips | simulation/scratch/cross_dc.cc:900-903 | the enumeration through the tables yields exactly the forwarding trips of a given length |
| Forwarding.TripsDiffer | simulation/scratch/cross_dc.cc:900-903 | ... each of them once, so its length counts equal-cost paths |
| Failover.DistancesNeverShrink | simulation/scratch/cross_dc.cc:955-960 | losing links makes nothing reachable and no distance smaller |
| Failover.UpDecides | simulation/scratch/cross_dc.cc:885 | routing depends on nothing but which links are up |
| Failover.ExactIsUnique | simulation/scratch/cross_dc.cc:959-960 | two exact tables on the same links hold the same next hops up to order: recomputation equals a fresh computation |
| Failover.RunsStayConsistent | simulation/scratch/cross_dc.cc:955-971 | after any sequence of takedowns links are symmetric, the tables are exact, every node's installed ports are the interfaces to its next hops in order, and what is up is what was up and never cut, with the same interfaces |
| Failover.RunsInstallPorts | simulation/scratch/cross_dc.cc:940-971 | after any sequence of takedowns a node's ports for a host are exactly the numbers of its interfaces to relaying neighbours one link nearer over links never cut, as many as there are such neighbours, each once if its interfaces were apart |
| Failover.RunsAvoidCuts | simulation/scratch/cross_dc.cc:955-971 | after any sequence of takedowns no next hop uses a cut link, and its node is still connected and no nearer than at the start |
| Failover.OrderIsIrrelevant | simulation/scratch/cross_dc.cc:955-971 | only the set of cut links decides the next hops, not order or repetition |
| Failover.RepeatChangesNothing | simulation/scratch/cross_dc.cc:956 | taking a link down twice changes nothing the second time |
| Failover.StaleIffCutOff | simulation/scratch/cross_dc.cc:906-914 | pair tables are not cleared: after any sequence of takedowns a pair has its three entries exactly if its host reached its node at the start, so they match the links if and only if the run did not cut the node off |
| Failover.StaleKeepsValues | simulation/scratch/cross_dc.cc:906-914 | from the takedown that cuts a node off from a host on, their entries keep the values they had just before it |
| Failover.ReachedAreCurrent | simulation/scratch/cross_dc.cc:906-922 | after any sequence of takedowns the entries of every node a host still reaches are the costs of a shortest path over the links that are left |
| Failover.CutOffEntryStays | simulation/scratch/cross_dc.cc:906-914 | the smallest network in which an entry stays behind |
| PathIds.PackIsInjective | simulation/scratch/cross_dc.cc:1991-2004 | with at most four ports in 1..255 the 32-bit id determines the whole port sequence, its length included |
| PathIds.IdBytesAre | simulation/scratch/cross_dc.cc:1991-2004 | the i-th byte of the id, from the least significant, is the low byte of the i-th port, and 0 past the last |
| PathIds.HomeTest | simulation/scratch/cross_dc.cc:1996-1997 | the test for a single next hop equal to the destination ToR holds exactly at distance two from the host |
| PathIds.OnlyTorAtOne | simulation/scratch/cross_dc.cc:1952-1955 | the only node at distance one from a single-homed host is its ToR |
| PathIds.BufferPacks | simulation/scratch/cross_dc.cc:1991-2004 | packing the four bytes of the buffer, unwritten ones zero, is packing the ports written |
| PathIds.LoadBalancer.Record | simulation/scratch/cross_dc.cc:1998-2018 | one path: its id enters the set of its ToR pair with the base round-trip time of its length, and no byte beyond its length is ever written |
| PathIds.LoadBalancer.FollowThird | simulation/scratch/cross_dc.cc:2054-2093 | the third hops: exactly the ids of the trips of this length are inserted, or the run stops if the ToR is farther |
| PathIds.LoadBalancer.FollowSecond | simulation/scratch/cross_dc.cc:2022-2094 | the second hops, likewise |
| PathIds.LoadBalancer.EnumeratePaths | simulation/scratch/cross_dc.cc:1989-2095 | the loops for one ToR and one host succeed exactly if the distance is at most five, and then insert exactly the ids of all trips, with one base round-trip time |
| LoadBalancing.PortSeqsAreTrips | simulation/scratch/cross_dc.cc:1993-2095 | the enumerated port sequences are exactly those of forwarding trips |
| LoadBalancing.PortsAlong | simulation/scratch/cross_dc.cc:1995-2003 | the i-th port of a path is the number of the interface to its next node |
| LoadBalancing.TripsAreShortestPaths | simulation/scratch/cross_dc.cc:1993-2095 | the trips for a host are exactly the shortest switch paths to its ToR, and all have one length |
| LoadBalancing.SameTorSameDistance | simulation/scratch/cross_dc.cc:1972-1977 | hosts under one ToR are equally far from every switch, so iteration order does not matter |
| LoadBalancing.FoundAreShortestPaths | simulation/scratch/cross_dc.cc:1993-2095 | the ids found for a host are exactly the packed port sequences of all shortest paths to its ToR of two to four hops |
| LoadBalancing.IdsTellPaths | simulation/scratch/cross_dc.cc:1991-2004 | with interfaces numbered 1..255 and apart, two paths from a ToR with one id are the same path |
| LoadBalancing.ConfigureSource | simulation/scratch/cross_dc.cc:1971-2096 | all destinations of one source ToR; failure means some host under another ToR is farther than five links |
| LoadBalancing.ConfigureLoadBalancer | simulation/scratch/cross_dc.cc:1962-2098 | succeeds exactly if no ToR pair is more than four hops apart; then each pair's set holds the ids of exactly the shortest paths of two to four hops between the ToRs, its base round-trip time, if the set is not empty, is 4, 6 or 8 times the delay of one hop for two, three or four hops, and no other key is there |
| LoadBalancing.BaseTimeIsRoundTrip | simulation/scratch/network-load-balance.cc:1214 | if every link takes the delay of one hop, the base round-trip time is twice the delay along any shortest path between the two ToRs |
| LoadBalancing.CabledHaveNoIds | simulation/scratch/cross_dc.cc:1984-2098 | a pair within reach has ids and a base round-trip time if and only if its ToRs are at least two hops apart, that is not cabled to each other directly |
| Topology.IdInjective | tools/topology_gen/cross_dc_topology_gen.py:114-157 | different positions (datacenter, layer, index) have different node ids |
| Topology.IdInRange | tools/topology_gen/cross_dc_topology_gen.py:67-78 | ids lie below the node total |
| Topology.IdSurjective | tools/topology_gen/cross_dc_topology_gen.py:67-78 | every number below the node total is the id of some position |
| Topology.IdsAgree | tools/traffic_gen/cross_dc_traffic_gen.py:37-40 | the traffic generators' server ids are the topology's, injective, and dividing by nodes per datacenter tells whether two are in one datacenter |
| Topology.DciIdsAgree | simulation/run_cross_dc.py:293-297 | the runner's DCI switch ids are the topology's |
| TopologyGen.Generate | tools/topology_gen/cross_dc_topology_gen.py:112-181 | the nests of loops write the link lines in the stated order, header and switch list |
| TopologyGen.WriteServerLinks | tools/topology_gen/cross_dc_topology_gen.py:117-123 | the server-to-ToR loop |
| TopologyGen.WriteTorLinks | tools/topology_gen/cross_dc_topology_gen.py:125-132 | the ToR-to-aggregation loops |
| TopologyGen.WriteAggLinks | tools/topology_gen/cross_dc_topology_gen.py:134-142 | the aggregation-to-core loops |
| TopologyGen.WriteCoreLinks | tools/topology_gen/cross_dc_topology_gen.py:144-149 | the core-to-DCI loop |
| TopologyGen.WriteMeshLinks | tools/topology_gen/cross_dc_topology_gen.py:151-157 | the full mesh of DCI switches |
| TopologyFacts.WritesTheFabric | tools/topology_gen/cross_dc_topology_gen.py:112-157 | exactly the links of a multi-datacenter fat-tree are written |
| TopologyFacts.WritesOnce | tools/topology_gen/cross_dc_topology_gen.py:112-157 | no link is written twice |
| TopologyFacts.LinkLines | tools/topology_gen/cross_dc_topology_gen.py:122-156 | the lines of the file are those of the fabric's links with their rate and latency |
| TopologyFacts.LinesAreDistinct | tools/topology_gen/cross_dc_topology_gen.py:122-156 | no line joins a node to itself and no two lines join the same two nodes |
| TopologyFacts.LineOrder | tools/topology_gen/cross_dc_topology_gen.py:112-150 | the place of every line inside a datacenter: datacenter by datacenter, servers, ToRs, aggregation switches and cores in nested order |
| TopologyFacts.MeshOrder | tools/topology_gen/cross_dc_topology_gen.py:151-157 | the links between DCI switches come last, in order of their ends |
| TopologyFacts.ServersAreSingleHomed | tools/topology_gen/cross_dc_topology_gen.py:117-123 | every server is on exactly one line, to its ToR |
| TopologyFacts.LinkCount | tools/topology_gen/cross_dc_topology_gen.py:123-157 | the header's link count is D((os+2)k^3/4 + k^2/4) + D(D-1)/2 |
| TopologyFacts.SwitchList | tools/topology_gen/cross_dc_topology_gen.py:166-175 | the second line lists exactly the ids that are not servers |
| TopologyFacts.SwitchesRise | tools/topology_gen/cross_dc_topology_gen.py:166-175 | the ids are listed datacenter by datacenter in rising order |
| TopologyFacts.HeaderTotals | tools/topology_gen/cross_dc_topology_gen.py:67-78 | the header's totals are the numbers of nodes and of listed switches |
| Wiring.ReadLinks | simulation/scratch/cross_dc.cc:1554-1619 | reading the lines gives each end a new device and an interface in both directions |
| Wiring.WiredLines | simulation/scratch/cross_dc.cc:1605-1619 | two nodes are neighbours exactly if a line joins them, with that line's delay and rate |
| Wiring.WiredSymmetric | simulation/scratch/cross_dc.cc:1605-1619 | links are up in both directions |
| Wiring.WiredPorts | simulation/scratch/cross_dc.cc:1605-1619 | interfaces are numbered from 1 and no two neighbours of a node share one |
| Fabric.FileIsFabric | tools/topology_gen/cross_dc_topology_gen.py:112-157 | wiring the generated file yields the fabric, for every k, over-subscription and number of datacenters |
| Fabric.DistanceIsDelta | simulation/scratch/cross_dc.cc:879-905 | every node is reached from every server, at the distance of its layer: servers are 2, 4, 6 or 9 links apart |
| Fabric.NextHopRole | simulation/scratch/cross_dc.cc:900-903 | the next hops on the fabric are the relaying neighbours one layer nearer |
| Fabric.HopListLength | simulation/scratch/cross_dc.cc:900-903 | how many next hops each node lists |
| Fabric.ShortestPathCount | tools/topology_gen/cross_dc_topology_gen.py:125-157 | counted through the next-hop tables there are k/2 shortest paths between servers of one pod, (k/2)^2 between pods, (k/2)^4 between datacenters |
| Rtt.ComputeRtts | simulation/scratch/cross_dc.cc:1903-1922 | round-trip times and products are stored for both orders of every pair of hosts and nothing else, and the maxima are attained upper bounds |
| Rtt.StoredPairs | simulation/scratch/cross_dc.cc:1903-1922 | the same for two given hosts: what is stored under both orders, what is not stored, and the maxima |
| Rtt.RttIs | simulation/scratch/cross_dc.cc:1909-1913 | twice the recorded delay plus the recorded transmission time modulo 2^64, and its product with the recorded rate modulo 2^64 in bytes; entries never recorded read as 0 |
| Rtt.ComputeRow | simulation/scratch/cross_dc.cc:1907-1921 | the same for the pairs of one host |
| FabricRtt.FabricCertificate | simulation/scratch/cross_dc.cc:889-893 | on the fabric costs grow along next hops by a layer-determined potential |
| FabricRtt.RecordedCosts | simulation/scratch/cross_dc.cc:906-914 | on the fabric the recorded values are determined by the two roles, whichever shortest path the search took |
| Symmetry.WiredBothWays | simulation/scratch/cross_dc.cc:1605-1619 | both directions of a link get the delay and rate of one and the same line, even when a later line joins the two nodes again |
| Symmetry.FabricPairsAgree | simulation/scratch/cross_dc.cc:1903-1919 | on the fabric what the loops over i < j store under [j][i] is what [j][i] itself would give: delays, rates, round-trip times and products of two servers are the same in both orders |
| FabricRtt.PairOnFabric | simulation/scratch/cross_dc.cc:1909-1913 | the round-trip time and the product of two servers are those of two, four, six or nine links, in 64-bit arithmetic |
| FabricRtt.MaximaOnFabric | simulation/scratch/cross_dc.cc:1903-1922 | maxRtt and maxBdp are the largest 64-bit values among the kinds of pairs that occur, for every size, rate and latency |
| FabricRtt.ClosedRtt | simulation/scratch/cross_dc.cc:1903-1922 | maxRtt is the round-trip time of servers in different datacenters if and only if that is below 2^64 |
| FabricRtt.ClosedBdp | simulation/scratch/cross_dc.cc:1913-1921 | maxBdp is the larger of the products of six and of nine links if and only if one that attains it is below 2^64; the product that wraps always falls short |
| FabricRtt.EnoughRoom | simulation/scratch/cross_dc.cc:1913 | both hold whenever the longest round-trip time times the inner bandwidth is below 2^64 |
| FabricRtt.LongLinksWrap | simulation/scratch/cross_dc.cc:1913 | 100 ms between datacenters at 100 and 400 Gb/s: the round-trip time fits, its product wraps, and maxBdp is 194365240 instead of 2500208250 |
| FabricRtt.NoServersNoMaxima | simulation/scratch/cross_dc.cc:1901-1922 | without servers both maxima are 0 |
| FabricRtt.MaximaWithFastInterconnect | simulation/scratch/cross_dc.cc:1903-1922 | with an interconnect at least as fast, maxRtt = 2(8 il + el) + 8 tx(intra) + tx(inter) if and only if that is below 2^64, and maxBdp its product with the inner bandwidth if and only if this is below 2^64 or the product of six links comes to the same |
| Setup.ReadHomes | simulation/scratch/cross_dc.cc:1947-1957 | the host-to-ToR map read from the link lines |
| Setup.LastLineIsHome | simulation/scratch/cross_dc.cc:1947-1957 | of several lines from a host to switches the last one names its home |
| Setup.TorsAreHomes | simulation/scratch/cross_dc.cc:1928-1942 | without hosts on several switches, the switches with hosts are exactly the homes |
| Setup.FileIsLoaded | simulation/scratch/cross_dc.cc:1928-1957 | what the simulator knows after reading a generated file |
| Setup.FabricHomes | simulation/scratch/cross_dc.cc:1952-1955 | every server hangs off exactly one ToR, which the map names |
| Setup.TorDepths | simulation/scratch/cross_dc.cc:1993-2095 | from a ToR to hosts of others: two hops in a pod, four in a datacenter, seven across |
| Setup.SomePairTooDeep | simulation/scratch/cross_dc.cc:2088-2091 | with two datacenters some pair of ToRs is too far apart |
| Setup.SetUp | simulation/scratch/cross_dc.cc:1896-1924 | generate, read, route and measure: exact tables, installed ports, the maxima as the largest 64-bit values of the pairs that occur, and exactly when they have their closed forms |
| Setup.SetUpLoadBalancer | simulation/scratch/cross_dc.cc:1944-2098 | with a path-aware load balancer the set-up of every generated cross-datacenter fabric stops at the assertion for too large topologies |
| FatTree.GenerateFat | tools/topology_gen/fat_topology_gen.py:42-91 | the single-datacenter generator: header totals of nodes, switches and links, the switch list and the link lines in order |
| FatTree.FatLinkCount | tools/topology_gen/fat_topology_gen.py:40-68 | the header's link count is (os + 2) k^3 / 4 |
| FatTree.WritesTheTree | tools/topology_gen/fat_topology_gen.py:42-68 | exactly the links of a fat-tree are written |
| FatTree.FatDistance | simulation/scratch/network-load-balance.cc:590-641 | distances on the tree, by layer |
| FatTree.FatPairsAreShort | simulation/scratch/network-load-balance.cc:1535-1633 | every two ToRs of a tree are two or four hops apart |
| FatTree.SetUpTree | simulation/scratch/network-load-balance.cc:1504-1640 | generating, reading, routing and enumerating on every fat-tree: the set-up succeeds and for every two ToRs the table holds exactly the ids of all shortest paths |
| FatTree.WiredPortsDiffer | simulation/scratch/cross_dc.cc:1991-2004 | with at most 255 devices per node interfaces are numbered so that ids tell paths apart |
| FatPorts.TreeDegrees | tools/topology_gen/fat_topology_gen.py:42-68 | a server is on one line, a ToR on k/2 (os + 1), an aggregation switch and a core on k |
| FatPorts.NumberOf | simulation/scratch/cross_dc.cc:1605-1619 | the interface to a neighbour is numbered by how many lines at the node come up to the one that joins the two |
| FatPorts.TorNumbers | tools/topology_gen/fat_topology_gen.py:42-59 | a ToR's uplink to the a-th aggregation switch is interface k/2 os + a + 1, and interface t + 1 leads down to the t-th ToR |
| FatPorts.AggNumbers | tools/topology_gen/fat_topology_gen.py:61-68 | an aggregation switch's uplink to its c-th core is interface k/2 + c + 1, and a core's interface to a pod is the pod's number plus one |
| FatPorts.TreePortsDiffer | simulation/scratch/cross_dc.cc:1991-2004 | if neither k nor k/2 (os + 1) exceeds 255, interfaces of the tree are numbered 1 to 255 and apart, so that ids tell paths apart |
| FatPaths.TreePaths | simulation/scratch/network-load-balance.cc:1535-1633 | the shortest paths between two ToRs are exactly those by way of each aggregation switch and, between pods, each of its cores |
| FatPaths.WayPorts | simulation/scratch/network-load-balance.cc:1535-1633 | the ports along each of them |
| FatPaths.HowManyIds | simulation/scratch/network-load-balance.cc:1535-1633 | two ToRs have k/2 shortest paths in one pod and (k/2)^2 between pods; they have as many ids if and only if k/2 is at most 256, beyond which uplinks whose numbers agree modulo 256 share ids |
| FatPaths.TreeTable | simulation/scratch/network-load-balance.cc:1504-1640 | for every two ToRs the set-up leaves min(k/2, 256) ids in one pod and its square between pods, and 4 or 8 times the delay of one hop as base round-trip time |
| Traffic.Least | tools/traffic_gen/cross_dc_traffic_gen.py:213 | the heap's first entry is the least |
| Traffic.PickOther | tools/traffic_gen/cross_dc_traffic_gen.py:216-219 | redrawing until the index differs from the source's own picks the first other index drawn |
| Traffic.PickDestination | tools/traffic_gen/cross_dc_traffic_gen.py:249-255 | the destination stays in the datacenter but is another server, or lies in another datacenter |
| Traffic.Round | tools/traffic_gen/cross_dc_traffic_gen.py:212-233 | one round lets the earliest source emit a flow when it is due, or leave; it uses one draw; positive gaps shrink the work left |
| Traffic.RunPhase | tools/traffic_gen/cross_dc_traffic_gen.py:211-267 | ordered flows of the phase, each emitted when its source was due and one more gap stayed within the limit, with the size of its draw, but at least 1, to the first tried server that is another one or to the first tried server of the drawn other datacenter; flows of one time come in the order of their sources; a finished run leaves no source that could send within the limit, and with positive gaps the rounds are bounded |
| Traffic.OverMeans | tools/traffic_gen/cross_dc_traffic_gen.py:226-228 | when a phase is over, each source's last due time and one more drawn gap pass the limit |
| Traffic.AcceptIsTried | tools/traffic_gen/cross_dc_traffic_gen.py:219-221 | redrawing stops at the first index that is not the source's own |
| Traffic.OnTimeKeepsGaps | tools/traffic_gen/cross_dc_traffic_gen.py:214-233 | two consecutive flows of one source lie exactly the drawn gap apart |
| Traffic.DueIsLatest | tools/traffic_gen/cross_dc_traffic_gen.py:233 | a source is due its gap after its latest flow |
| FlowFile.ServerIndices | tools/traffic_gen/cross_dc_traffic_gen.py:199-202 | the list of servers enumerates datacenters and indices without gaps |
| FlowFile.StartHosts | tools/traffic_gen/cross_dc_traffic_gen.py:205-209 | every server becomes a source exactly once, with its first arrival |
| FlowFile.WriteFile | tools/traffic_gen/cross_dc_traffic_gen.py:194-273 | the finished file carries the true count and reads back as its flows |
| FlowFile.HeaderLength | tools/traffic_gen/cross_dc_traffic_gen.py:43-43 | the header takes seventeen characters exactly when its number has at most sixteen digits |
| FlowFile.PatchKeepsBody | tools/traffic_gen/cross_dc_traffic_gen.py:271-274 | overwriting the estimate with the count leaves the lines intact exactly when both headers are equally long |
| FlowFile.LineIsRead | simulation/scratch/cross_dc.cc:222-224 | a flow line is read back as its flow exactly if its numbers fit in 32 bits |
| FlowFile.BodyIsRead | simulation/scratch/cross_dc.cc:221-224 | all lines are read back, or reading fails |
| FlowFile.FileIsRead | simulation/scratch/cross_dc.cc:1483 | header and lines together are read back as the flows |
| FlowFile.UnpatchedFileIsRead | tools/traffic_gen/cross_dc_traffic_gen.py:194-274 | a file left with its estimate gives the estimate and all lines, after which extraction fails at the end of the file |
| FlowFile.GenerateIntraOnly | tools/traffic_gen/intra_dc_traffic_gen.py:178-222 | the intra-datacenter generator |
| FlowFile.GenerateMixed | tools/traffic_gen/cross_dc_traffic_gen.py:194-274 | the mixed generator: first all flows inside datacenters, then all between them |
| FlowFile.KeepIntraDc | simulation/analysis/compare_fct_intra_only.py:118-128 | the analysis's filter over a list of flows |
| FlowFile.PhaseOfFlow | simulation/analysis/compare_fct_intra_only.py:87-94 | the analysis's test holds of a flow exactly if the first phase emitted it |
| FlowFile.AnalysisKeepsFirstPhase | simulation/analysis/compare_fct_intra_only.py:87-94 | of a mixed file the filter keeps exactly the first phase |
| FlowFile.AnalysisKeepsIntra | simulation/analysis/compare_fct_intra_only.py:87-94 | of flows in any order, such as that of their completion, the analysis keeps exactly those of the first phase, in that order |
| Schedule.Scheduler.constructor | simulation/scratch/cross_dc.cc:2169-2177 | port counters start at 10000 and 100 for every host |
| Schedule.Scheduler.ReadFlowInput | simulation/scratch/cross_dc.cc:221-233 | the next line enters the buffer, which keeps its value past the end of the file; endpoints must be hosts |
| Schedule.Scheduler.InstallOne | simulation/scratch/cross_dc.cc:241-306 | one flow is installed as planned, or the run aborts if its pair has no round-trip time |
| Schedule.Scheduler.ScheduleFlowInputs | simulation/scratch/cross_dc.cc:238-316 | one event installs everything due now and asks for the next event, never with a negative delay |
| Schedule.Scheduler.Run | simulation/scratch/cross_dc.cc:2176-2182 | the run installs the flows it reads in order, each at its own start time, and aborts exactly at the first one that starts before its predecessor or has unknown endpoints; a run to the end has installed each line once if and only if the header's count is the number of lines |
| Schedule.InstallsMean | simulation/scratch/cross_dc.cc:241-306 | every installation is numbered in order, uses the ports 10000 and 100 plus the number of earlier flows of its source and to its destination, modulo 65536, sends at least one byte, and has the window and round-trip time of its pair, or the largest ones if these are global |
| Schedule.WhenRefused | simulation/scratch/cross_dc.cc:221-233 | a line stops the run if and only if an endpoint is no host, the pair has no round-trip time, or it starts before the line before it |
| Schedule.EachLineOnce | simulation/scratch/cross_dc.cc:221-233 | with a count n the i-th installation carries out line min(i, lines - 1): each line exactly once if and only if n is the number of lines; a smaller count leaves the rest out, a greater one installs the last line n - lines + 1 times |
| Schedule.OneLineTwice | simulation/scratch/cross_dc.cc:221-233 | one line and a count of two: the run is not stopped and installs the line twice, on ports 10000 and 10001 to 100 and 101 |
| Schedule.PortsCollide | simulation/scratch/cross_dc.cc:246-252 | two flows of a source (destination) share a port exactly when a multiple of 65536 of its flows lies between |
| Schedule.PortsAreDistinct | simulation/scratch/cross_dc.cc:246-252 | ports are distinct while no host has more than 65536 flows |
| Workload.FlowKnown | simulation/scratch/cross_dc.cc:288-293 | every generated flow joins two hosts whose round-trip time is known |
| Workload.IntraFileRuns | tools/traffic_gen/intra_dc_traffic_gen.py:196-217 | an intra-datacenter file always runs to the end |
| Workload.MixedFileRuns | tools/traffic_gen/cross_dc_traffic_gen.py:241-269 | a mixed file runs to the end exactly if its last inner flow is no later than its first outer one; otherwise it stops exactly there |
| Workload.IntraOnlyExperiment | simulation/run_cross_dc.py:366-373 | generating an intra-datacenter file, reading it back and simulating it installs every flow as planned |
| CustomRand.Distribution.CheckCdf | tools/traffic_gen/custom_rand.py:5-13 | acceptance of a distribution |
| CustomRand.Distribution.SetCdf | tools/traffic_gen/custom_rand.py:14-18 | an accepted distribution is stored, a rejected one leaves the old |
| CustomRand.Distribution.GetAvg | tools/traffic_gen/custom_rand.py:19-27 | the loop computes the sum over segments |
| CustomRand.Distribution.GetPercentileFromValue | tools/traffic_gen/custom_rand.py:31-38 | the lookup by value |
| CustomRand.Distribution.GetValueFromPercentile | tools/traffic_gen/custom_rand.py:39-44 | the lookup by percentage |
| CustomRand.Distribution.GetIntegralY | tools/traffic_gen/custom_rand.py:45-56 | the loop computes the integral |
| CustomRand.PercentileOfValue | tools/traffic_gen/custom_rand.py:31-44 | percentages 0..100 map into the range of values and back to themselves |
| CustomRand.ValueOfPercentile | tools/traffic_gen/custom_rand.py:31-44 | values of the distribution map to percentages 0..100 and back to themselves |
| CustomRand.OnTheLine | tools/traffic_gen/custom_rand.py:39-44 | within a segment value and percentage are in proportion |
| CustomRand.NoValueBeyond | tools/traffic_gen/custom_rand.py:39-44 | past 100 percent there is no value |
| CustomRand.PercentileOutside | tools/traffic_gen/custom_rand.py:31-33 | values below 0 or above the largest are marked by -1 |
| CustomRand.ValueRises | tools/traffic_gen/custom_rand.py:39-44 | larger percentages have larger values |
| CustomRand.PercentileRises | tools/traffic_gen/custom_rand.py:31-38 | larger values have larger percentages |
| CustomRand.IntegralIsMean | tools/traffic_gen/custom_rand.py:19-56 | the integral over all percentages is the mean |
| CustomRand.IntegralMonotone | tools/traffic_gen/custom_rand.py:39-56 | over any range of percentages the integral lies between the width times the least and the greatest value |
| Pfc.AnalyzeGroup | simulation/analysis/pfc/analyze_pfc.py:51-96 | the pause state machine over one interface's events |
| Pfc.IntervalsOrdered | simulation/analysis/pfc/analyze_pfc.py:61-89 | intervals are in order, disjoint, of non-negative length and end within the log |
| Pfc.IntervalsCover | simulation/analysis/pfc/analyze_pfc.py:61-89 | a time is covered exactly if the latest event then was a pause and a resume follows or the default pause has not run out |
| Pfc.LatestRenewal | simulation/analysis/pfc/analyze_pfc.py:61-79 | the last pause kept with a finished interval is the latest one before its resume |
| Pfc.LastPauseIsLast | simulation/analysis/pfc/analyze_pfc.py:61-66 | the one kept with the open interval is the last pause of the log |
| Pfc.RenewedAndResumed | simulation/analysis/pfc/analyze_pfc.py:51-79 | pauses (1) at 3 and 5 and a resume (0) at 9 give one interval, and two older events |
| Pfc.TotalWithinLog | simulation/analysis/pfc/analyze_pfc.py:71-95 | all pauses together last at most from the first pause to the end of the log |
| Pfc.FindResume | simulation/analyze_pfc.py:60-64 | the earliest resume after a pause |
| Pfc.AnalyzeGroupOld | simulation/analyze_pfc.py:56-77 | the older analyzer: every pause on its own |
| Pfc.NextResumeIsEarliest | simulation/analyze_pfc.py:60-64 | the match is a later resume and no later resume is earlier |
| Pfc.LongestOldEvent | simulation/analysis/pfc/analyze_pfc.py:68-79 | each interval is the longest of the old events that end at its resume |
| Pfc.OldScanMatches | simulation/analyze_pfc.py:56-64 | one pass over the log finds what the older analyzer finds by searching |
| Pfc.NewNeverExceedsOld | simulation/analysis/pfc/analyze_pfc.py:68-89 | on strictly timed logs the count never exceeds the older analyzer's; the total does not if and only if joining the pauses that are never resumed gains no more than the renewals of the others lose |
| Pfc.RenewedInTime | simulation/analysis/pfc/analyze_pfc.py:68-89 | in particular if every renewal at the end of the log comes before the default pause has run out |
| Pfc.AllResumed | simulation/analysis/pfc/analyze_pfc.py:61-79 | ... and so if every pause is resumed: then nothing is left at the end |
| Pfc.LateRenewal | simulation/analysis/pfc/analyze_pfc.py:81-89 | pauses at 0 and 10000, a default of 5000 and no resume: 15000 in the new total, 10000 in the old |
| Gather.StaticInformation.DoGather | simulation/utils/print-introspected-doxygen.cc:266-367 | the recursion terminates, appends exactly the depth-first walk, and restores path and stack |
| Gather.StaticInformation.GatherAttributes | simulation/utils/print-introspected-doxygen.cc:275-314 | the steps along pointer and container attributes, bare object pointers skipped |
| Gather.StaticInformation.GatherChildren | simulation/utils/print-introspected-doxygen.cc:315-330 | the steps to all types that descend from this one |
| Gather.StaticInformation.GatherAggregates | simulation/utils/print-introspected-doxygen.cc:331-366 | the steps along aggregations, in both directions |
| Gather.StaticInformation.HasAlreadyBeenProcessed | simulation/utils/print-introspected-doxygen.cc:229-240 | membership in the stack |
| Gather.StaticInformation.GetCurrentPath | simulation/utils/print-introspected-doxygen.cc:211-221 | the joined path |
| Gather.StaticInformation.Gather | simulation/utils/print-introspected-doxygen.cc:257-264 | the output gains exactly the pairs of a type and the joined names of a simple path to it, and is strictly sorted |
| Gather.StaticInformation.Get | simulation/utils/print-introspected-doxygen.cc:242-255 | all paths of a type, each once |
| Gather.WalkIsExact | simulation/utils/print-introspected-doxygen.cc:266-367 | the walk finds a pair exactly if a path that avoids the stack leads there |
| Gather.SimpleMeans | simulation/utils/print-introspected-doxygen.cc:270-273 | avoiding the stack step by step is repeating no type |
| Gather.WalkFindsPaths | simulation/utils/print-introspected-doxygen.cc:257-367 | from the root: exactly the simple paths |
| Gather.EdgesAreOffered | simulation/utils/print-introspected-doxygen.cc:276-368 | the steps walked are exactly those through a pointer attribute except to a bare object, a container attribute, to a type that descends from the current one, and along an aggregation from either end |
| Gather.JoinSpells | simulation/utils/print-introspected-doxygen.cc:211-221 | a path's text reads each name in turn with a slash in front |
| Gather.StringLessMeans | simulation/utils/print-introspected-doxygen.cc:262 | strings are ordered by the first place where they differ, or by length if one begins the other |
| Gather.PushShrinks | simulation/utils/print-introspected-doxygen.cc:296-297 | types not on the stack become fewer with every descent |
| Gather.Sort | simulation/utils/print-introspected-doxygen.cc:262 | sorting keeps the pairs |
| Gather.Unique | simulation/utils/print-introspected-doxygen.cc:263 | removing adjacent repetitions of a sorted list leaves it strictly sorted, with the same pairs |
| CheckStyle.PatchChunk.Write | simulation/utils/check-style.py:193-197 | the header announces how many lines are of the old and how many of the new file, and the lines follow in order; a line of no kind is refused |
| CheckStyle.PatchChunk.CountSrc | simulation/utils/check-style.py:177-190 | the number of lines that are removed or in both files |
| CheckStyle.PatchChunk.CountDst | simulation/utils/check-style.py:183-192 | the number of lines that are added or in both files |
| CheckStyle.Patch.Write | simulation/utils/check-style.py:215-219 | a patch prints its file names and chunks |
| CheckStyle.ReadLine | simulation/utils/check-style.py:230-264 | one line changes the parser's objects as its classification says, or raises: on a line that matches no pattern, one with a newline inside among them, and on one that comes before what it belongs to |
| CheckStyle.ParsePatchset | simulation/utils/check-style.py:221-265 | the parser builds exactly the patches its input stands for, and raises exactly on inputs with a line that cannot be read |
| UnifiedDiff.ClassifyLine | simulation/utils/check-style.py:222-227 | a printed line is classified as itself unless it looks like a file header, and matches no pattern if its text holds a newline |
| UnifiedDiff.ClassifyHeader | simulation/utils/check-style.py:224 | a printed chunk header is classified as such, with its positions |
| UnifiedDiff.HeaderCounts | simulation/utils/check-style.py:193-197 | a printed header announces as many old lines as lines begin with '-' or ' ' and as many new ones as begin with '+' or ' ' |
| UnifiedDiff.PlainIsReadBack | simulation/utils/check-style.py:215-265 | printed patches with no confusing line and no newline in a name or line are parsed back |
| UnifiedDiff.ParseCounts | simulation/utils/check-style.py:230-264 | the parser keeps as many lines as it classifies as lines |
| UnifiedDiff.ParsedOnOneLine | simulation/utils/check-style.py:222-264 | whatever the parser returns, no name and no line of it holds a newline |
| PatchParsing.WhenParserRaises | simulation/utils/check-style.py:221-264 | the parser gets through an input if and only if every line matches a pattern and has something to belong to: the name of a new file and a chunk header a file before it, any other line a chunk header before it |
| PatchParsing.ParsedIs | simulation/utils/check-style.py:230-264 | of any input it gets through: each name of an old file starts a patch, names of new files and chunk headers go to the latest patch, and all other lines to the latest chunk, whatever file names come between |
| PatchParsing.HeaderReads | simulation/utils/check-style.py:224 | a line is a chunk header if and only if it begins with the four numbers in their fixed setting, whatever follows; the first and third are the positions |
| UnifiedDiff.RoundTrip | simulation/utils/check-style.py:193-265 | patches parse back to themselves exactly when no removed line starts with "-- ", no added line with "++ ", and no name or line holds a newline |
| UnifiedDiff.NewlineIsNotReadBack | simulation/utils/check-style.py:222-264 | a removed line with a newline inside is printed, and the parser raises on it |
| UnifiedDiff.SplitFlatten | simulation/utils/check-style.py:230 | iterating over a file yields the lines that were written |
| UnifiedDiff.FileRoundTrip | simulation/utils/check-style.py:193-265 | through a file the same condition decides, although a line with a newline comes back as several |
| Cdf.Sort | simulation/fctAnalysis.py:10 | sorting keeps all counts |
| Cdf.Scan | simulation/fctAnalysis.py:13-29 | the run-length loop keeps every bucket exact |
| Cdf.GetCdfFromArray | simulation/fctAnalysis.py:9-33 | fails exactly if no value differs from 0; otherwise rising keys, exact multiplicities, cumulative counts and positions, one bucket per value, except that the zeros have none exactly if 0 is the smallest value |
| Cdf.LastIsAll | simulation/fctAnalysis.py:9-33 | the last cumulative count is the number of values |
| Cdf.BucketMeans | simulation/fctAnalysis.py:9-33 | each bucket's position is (count up to its key - 1) / (n - 1), so the last one's is 1; a single value gives 0/0 |
| Cdf.SliceIsPercent | simulation/fctAnalysis.py:113-120 | a slice begins at the whole number below its percentage of the values |
| Cdf.SlicesNonempty | simulation/fctAnalysis.py:113-120 | the five-percent slices lie end to end, and all are non-empty exactly from 20 values on |
| Decimal.ReadBack | simulation/utils/check-style.py:171-172 | a number printed in decimal is read back |
| Decimal.DigitAt | simulation/utils/check-style.py:194-195 | the i-th character from the right is the i-th decimal digit, without leading zeros |

## Left out

- Congestion control, switch buffers, ConWeave, CONGA and LetFlow data planes, the forward error correction engine: their sources are not part of this model.
- ns-3 objects, IP addresses, devices and queue-pair redistribution: nodes are numbers, simulated time is integer nanoseconds, and only the device numbers of links are kept.
- Configuration files, command lines, plotting, awk pipelines, monitors and logging.
- Random distributions: a draw is an arbitrary input of its range; `random.randint` on an empty range, which raises, has no draw.
- The three load balancers' path sets, kept per source switch and destination ToR, are one table keyed by both; the base round-trip times, which mode 9 alone stores, are stored whatever the mode.
- The CONGA leaf tables and bit-rate maps filled after the path enumeration (simulation/scratch/cross_dc.cc:2100-2150).
- Error rates of links, which pass through unchanged, and the spelling of the link and switch lines of the topology file, modelled as lists of numbers.
- A link rate of 0, by which the program divides, and one that does not fit in 64 bits as bits per second.
- The nests of loops over second and third hops and over the type graph's edges are methods of their own; what happens at each loop is the same.
- Reading an absent key of a nested C++ map creates an entry. It is modelled where it can be seen (`nbr2if` in a takedown) and otherwise taken to leave no trace: entries without next hops insert nothing.
- The byte order of the path id: four ports are packed least significant first, as on the little-endian machines the program is built for.
- Python's `heapq`, `sort` and pandas `groupby` are modelled by what they return, not by how; events of one time keep the order of the sorted group.
- PatchChunkLine objects are values here: nothing in printing or parsing changes a line after it was added.
- AgreeIfAlike: its only-if ranges over every table that holds the costs of one shortest path per host and node, more than a single order of the neighbour maps can produce: searches that share their order may agree although paths differ in cost.
- Reuse of names within `find_and_replace` on path labels: a type's label is an arbitrary string.
- Conversion of flow times through `double` and nine decimals: times are whole nanoseconds, written with nine decimals.
- The ends of a simulation by time and by count: it stops ten seconds after the flow generation time (simulation/scratch/cross_dc.cc:2237), and soon after as many flows have finished as the header counts (lines 837-859). Flows starting later are then not installed; a run that goes to its end here is one that neither stops.
- ns-3's refusal of negative delays is taken to end the run, as its assertion does in a debug build.
- `getCdfFromArray` and `CustomRand` on floating-point rounding, infinities and not-a-number inputs: values are exact reals; a single value divides 0 by 0, which is a separate case. An empty distribution table, on which `testCdf` raises, is excluded.
- Limits of the generators are whole nanoseconds: a fractional limit compares with integer times as its integer part does.
- The percentile and average columns computed inside the slices, and the second, identical computation for absolute times.
