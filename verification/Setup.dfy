/** The start of a simulation, from the parameters of the fabric to routes, maxima and load balancer. */
module Setup {
  import opened Graph
  import opened Costs
  import opened Routing
  import opened Topology
  import opened Loops
  import opened TopologyGen
  import opened TopologyFacts
  import opened Wiring
  import opened Fabric
  import opened Rtt
  import opened FabricRtt
  import opened PathIds
  import opened LoadBalancing

  /** `node_type`: the ids of the switch list. */
  function SwitchSet(switches: seq<nat>): set<Node> {
    set a | a in switches
  }

  /** `hostIp2SwitchId`: a line from a host to a switch names the host's ToR. */
  function HomeMap(ls: seq<Link>, sw: set<Node>): map<Node, Node> {
    if ls == [] then map[]
    else var l, rest := ls[|ls| - 1], HomeMap(ls[..|ls| - 1], sw);
         if l.src !in sw && l.dst in sw then rest[l.src := l.dst] else rest
  }

  method ReadHomes(ls: seq<Link>, sw: set<Node>) returns (home: map<Node, Node>, tors: set<Node>)
    ensures home == HomeMap(ls, sw)
    ensures forall t :: t in tors <==> exists l :: l in ls && l.src !in sw && l.dst == t && t in sw
  {
    home, tors := map[], {};
    for i := 0 to |ls|
      invariant home == HomeMap(ls[..i], sw)
      invariant forall t :: t in tors <==> exists l :: l in ls[..i] && l.src !in sw && l.dst == t && t in sw
    {
      assert ls[..i + 1][..i] == ls[..i] && ls[..i + 1] == ls[..i] + [ls[i]];
      if ls[i].src !in sw && ls[i].dst in sw {
        home := home[ls[i].src := ls[i].dst];
        tors := tors + {ls[i].dst};
      }
    }
    assert ls[..|ls|] == ls;
  }

  /** Of several lines from one host to switches the last one names its home. */
  lemma {:induction false} LastLineIsHome(ls: seq<Link>, sw: set<Node>, i: nat)
    requires i < |ls| && ls[i].src !in sw && ls[i].dst in sw
    requires forall j :: i < j < |ls| && ls[j].src == ls[i].src ==> ls[j].dst !in sw
    ensures ls[i].src in HomeMap(ls, sw) && HomeMap(ls, sw)[ls[i].src] == ls[i].dst
    decreases |ls|
  {
    if i < |ls| - 1 { LastLineIsHome(ls[..|ls| - 1], sw, i); }
  }

  /** If no host has lines to different switches, the switches with hosts are exactly the homes. */
  lemma TorsAreHomes(ls: seq<Link>, sw: set<Node>, tors: set<Node>)
    requires forall t :: t in tors <==> exists l :: l in ls && l.src !in sw && l.dst == t && t in sw
    requires forall k, l :: k in ls && l in ls && k.src == l.src && k.src !in sw ==> k.dst == l.dst
    ensures tors == HomeMap(ls, sw).Values && tors <= sw
  {
    var home := HomeMap(ls, sw);
    hide HomeMap;
    forall t ensures t in tors <==> t in home.Values {
      if t in tors {
        var l :| l in ls && l.src !in sw && l.dst == t && t in sw;
        HomeIsLine(ls, sw, l.src);
      }
      if t in home.Values {
        var a :| a in home && home[a] == t;
        HomeIsLine(ls, sw, a);
      }
    }
  }

  lemma {:induction false} HomeIsLine(ls: seq<Link>, sw: set<Node>, a: Node)
    ensures a in HomeMap(ls, sw) <==> exists l :: l in ls && l.src == a && a !in sw && l.dst in sw
    ensures a in HomeMap(ls, sw) ==> exists l :: l in ls && l.src == a && a !in sw && l.dst in sw && HomeMap(ls, sw)[a] == l.dst
    decreases |ls|
  {
    if ls != [] {
      var init, l := ls[..|ls| - 1], ls[|ls| - 1];
      HomeIsLine(init, sw, a);
      assert ls == init + [l];
    }
  }

  /** What the program knows after reading the generated file. */
  ghost predicate Loaded(p: Params, nb: Neighbours, sw: set<Node>, home: map<Node, Node>) {
    && IsFabric(p, nb) && Symmetric(nb) && SwitchIds(p, sw)
    && (forall r :: Valid(p, r) && r.Server? ==> HomeIs(p, home, r))
  }

  ghost predicate HomeIs(p: Params, home: map<Node, Node>, r: Role)
    requires r.Server?
  {
    Id(p, r) in home && home[Id(p, r)] == Id(p, Tor(r.dc, r.pod, r.tor))
  }

  lemma FileIsLoaded(p: Params, nb: Neighbours, sw: set<Node>, home: map<Node, Node>)
    requires nb == Wire(Render(p, AllEnds(p))).nb && sw == SwitchSet(Concat(p.dcs, SwitchRow(p)))
    requires home == HomeMap(Render(p, AllEnds(p)), sw)
    ensures Loaded(p, nb, sw, home)
  {
    hide *;
    FileIsFabric(p, nb);
    SwitchSetIs(p, sw);
    forall r | Valid(p, r) && r.Server? ensures HomeIs(p, home, r) {
      ServerHome(p, sw, home, r);
    }
    LoadedParts(p, nb, sw, home);
  }

  lemma LoadedParts(p: Params, nb: Neighbours, sw: set<Node>, home: map<Node, Node>)
    requires IsFabric(p, nb) && Symmetric(nb) && SwitchIds(p, sw)
    requires forall r :: Valid(p, r) && r.Server? ==> HomeIs(p, home, r)
    ensures Loaded(p, nb, sw, home)
  {
    hide IsFabric, Valid, HomeIs;
  }

  lemma SwitchSetIs(p: Params, sw: set<Node>)
    requires sw == SwitchSet(Concat(p.dcs, SwitchRow(p)))
    ensures SwitchIds(p, sw)
  {
    forall a: Node ensures a in sw <==> a < NodeTotal(p) && !RoleOf(p, a).Server? {
      SwitchList(p, a);
    }
  }

  /** No server of the fabric has lines to different switches. */
  lemma FabricLinesHome(p: Params, sw: set<Node>)
    requires SwitchIds(p, sw)
    ensures forall k, l :: k in Render(p, AllEnds(p)) && l in Render(p, AllEnds(p)) && k.src == l.src && k.src !in sw ==> k.dst == l.dst
  {
    forall k, l | k in Render(p, AllEnds(p)) && l in Render(p, AllEnds(p)) && k.src == l.src && k.src !in sw ensures k.dst == l.dst {
      LinkLines(p, k);
      hide Render, AllEnds, Id;
      var e :| Written(p, e) && k == LinkFor(p, e);
      RoleOfId(p, e.0);
      ServersAreSingleHomed(p, e.0, k);
      ServersAreSingleHomed(p, e.0, l);
    }
  }

  lemma ServerHome(p: Params, sw: set<Node>, home: map<Node, Node>, r: Role)
    requires SwitchIds(p, sw) && home == HomeMap(Render(p, AllEnds(p)), sw) && Valid(p, r) && r.Server?
    ensures HomeIs(p, home, r)
  {
    var ls, t, a := Render(p, AllEnds(p)), Tor(r.dc, r.pod, r.tor), Id(p, r);
    var up := LinkFor(p, (r, t));
    RoleOfId(p, r);
    RoleOfId(p, t);
    ServersAreSingleHomed(p, r, up);
    hide Render, AllEnds, Id, HomeMap;
    HomeIsLine(ls, sw, a);
    assert up in ls && up.src == a && a !in sw && up.dst in sw;
    var l :| l in ls && l.src == a && home[a] == l.dst;
    ServersAreSingleHomed(p, r, l);
  }

  /** Servers hang off one ToR each. */
  lemma FabricHomes(p: Params, nb: Neighbours, sw: set<Node>, home: map<Node, Node>)
    requires Loaded(p, nb, sw, home)
    ensures Homes(nb, sw, NodeTotal(p), home)
  {
    forall h: Node | h < NodeTotal(p) && h !in sw ensures h in home && HomedAt(nb, sw, h, home[h]) {
      var r := RoleOf(p, h);
      assert HomeIs(p, home, r);
      ServerHomedAt(p, nb, sw, r);
    }
  }

  lemma ServerHomedAt(p: Params, nb: Neighbours, sw: set<Node>, r: Role)
    requires IsFabric(p, nb) && SwitchIds(p, sw) && Valid(p, r) && r.Server?
    ensures HomedAt(nb, sw, Id(p, r), Id(p, Tor(r.dc, r.pod, r.tor)))
  {
    var t := Tor(r.dc, r.pod, r.tor);
    RoleOfId(p, r);
    RoleOfId(p, t);
    assert LinkIs(p, nb, r, t);
    hide Id;
    forall u ensures Up(nb, Id(p, r), u) <==> u == Id(p, t) {
      if Up(nb, Id(p, r), u) { LinkIs2(p, nb, Id(p, r), u); }
    }
  }

  /** From a ToR to the hosts of other ToRs: two hops within a pod, four within a datacenter, seven across. */
  lemma TorDepths(p: Params, nb: Neighbours, sw: set<Node>, h: Role, t: Role)
    requires Ready(p, nb, sw, h) && h.Server? && Valid(p, t) && t.Tor? && t != Tor(h.dc, h.pod, h.tor)
    ensures Reachable(nb, sw, Id(p, h), Id(p, t))
    ensures Dist(nb, sw, Id(p, h), Id(p, t)) - 1 == if t.dc != h.dc then 7 else if t.pod != h.pod then 4 else 2
  {
    TorDelta(h, t);
    hide *;
    DistanceIsDelta(p, nb, sw, h, t);
  }

  lemma TorDelta(h: Role, t: Role)
    requires h.Server? && t.Tor? && t != Tor(h.dc, h.pod, h.tor)
    ensures Delta(h, t) - 1 == if t.dc != h.dc then 7 else if t.pod != h.pod then 4 else 2
  {
  }

  /** So with two datacenters there is always a pair of ToRs too far apart for the load balancers. */
  lemma SomePairTooDeep(p: Params, nb: Neighbours, sw: set<Node>, home: map<Node, Node>, tors: set<Node>) returns (s: Node, h: Node)
    requires Accepted(p) && p.k > 0 && p.os > 0 && Loaded(p, nb, sw, home) && tors == home.Values
    ensures IsPair(nb, sw, NodeTotal(p), home, tors, s, h) && Dist(nb, sw, h, s) > 5
  {
    var x, y := Server(0, 0, 0, 0), Server(1, 0, 0, 0);
    var t := Tor(1, 0, 0);
    SomeServers(p);
    RoleOfId(p, x);
    RoleOfId(p, y);
    RoleOfId(p, t);
    hide Id;
    s, h := Id(p, t), Id(p, x);
    assert HomeIs(p, home, y) && HomeIs(p, home, x);
    assert s in tors by { assert home[Id(p, y)] == s; }
    DistanceIsDelta(p, nb, sw, x, t);
  }

  /** Generate, read, route and measure: the maxima the simulator then asserts and hands to its flows. */
  method SetUp(p: Params, payload: nat) returns (net: Network, maxRtt: nat, maxBdp: nat)
    requires Accepted(p) && GoodRates(p)
    ensures net.Valid() && net.n == NodeTotal(p) && SwitchIds(p, net.switches) && IsFabric(p, net.nbr2if)
    ensures Exact(net.nbr2if, net.switches, net.n, net.nextHop) && Installed(net.nbr2if, net.nextHop, net.rtTable)
    ensures p.k == 0 || p.os == 0 ==> maxRtt == 0 && maxBdp == 0
    ensures p.k > 0 && p.os > 0 ==> LargestRtt(p, payload, maxRtt) && LargestBdp(p, payload, maxBdp)
    ensures p.k > 0 && p.os > 0 ==> (maxRtt == InterRtt(p, payload) <==> InterRtt(p, payload) < U64)
    ensures p.k > 0 && p.os > 0 ==>
      (maxBdp == Larger(IntraBdp(p, payload), InterBdp(p, payload)) <==> LargerFits(p, payload))
  {
    hide IsFabric, Exact, RoutesAdded, AllPairsAdded, Symmetric, PositiveRates, MaxSoFar, Filled, SwitchIds, Installed, PortsAdded,
         AllEnds, Render, Concat, Wire, HomeMap, NodeTotal, Loaded, InterRtt, GoodRates, ServersPerDc, IntraBw,
         IntraBdp, InterBdp, LargerFits, LargestRtt, LargestBdp;
    var f := Generate(p);
    HeaderTotals(p);
    var nb, devices := ReadLinks(f.links);
    var sw := SwitchSet(f.switches);
    var home, tors := ReadHomes(f.links, sw);
    FileIsLoaded(p, nb, sw, home);
    LoadedIs(p, nb, sw, home);
    FabricRates(p, nb);
    net := new Network(f.nodeTotal, sw, payload, nb);
    net.CalculateRoutes();
    FromEmptyIsExact(nb, sw, net.n, net.nextHop);
    net.SetRoutingEntries();
    FreshlyInstalled(nb, net.nextHop, map[], net.rtTable);
    var pairRtt, pairBdp;
    pairRtt, pairBdp, maxRtt, maxBdp := ComputeRtts(net.n, sw, net.Pairs());
    if p.k > 0 && p.os > 0 {
      MaximaOnFabric(p, nb, sw, payload, net.Pairs(), maxRtt, maxBdp);
      ClosedRtt(p, payload, maxRtt);
      ClosedBdp(p, payload, maxBdp);
    } else {
      NoServersNoMaxima(p, sw, net.Pairs(), maxRtt, maxBdp);
    }
  }

  lemma LoadedIs(p: Params, nb: Neighbours, sw: set<Node>, home: map<Node, Node>)
    requires Loaded(p, nb, sw, home)
    ensures IsFabric(p, nb) && Symmetric(nb) && SwitchIds(p, sw)
  {
  }

  /** With a path-aware load balancer (modes 3, 6 and 9) the set-up of every generated fabric stops at the
      assertion for topologies that are too large. */
  method SetUpLoadBalancer(p: Params, net: Network, oneHopDelay: nat, links: seq<Link>) returns (ok: bool)
    requires Accepted(p) && p.k > 0 && p.os > 0 && net.n == NodeTotal(p) && links == Render(p, AllEnds(p))
    requires IsFabric(p, net.nbr2if) && Symmetric(net.nbr2if) && SwitchIds(p, net.switches)
    requires Exact(net.nbr2if, net.switches, net.n, net.nextHop)
    ensures !ok
  {
    hide IsFabric, Exact, Symmetric, SwitchIds, Loaded, NodeTotal, IsPair, Homes, Render, AllEnds, HomeMap, HomeIs;
    var home, tors := ReadHomes(links, net.switches);
    FabricLinesHome(p, net.switches);
    TorsAreHomes(links, net.switches, tors);
    forall r | Valid(p, r) && r.Server? ensures HomeIs(p, home, r) {
      ServerHome(p, net.switches, home, r);
    }
    LoadedParts(p, net.nbr2if, net.switches, home);
    FabricHomes(p, net.nbr2if, net.switches, home);
    var lb := new LoadBalancer(oneHopDelay);
    ok := ConfigureLoadBalancer(lb, net.nbr2if, net.nextHop, home, tors, net.switches, net.n);
    ghost var s, h := SomePairTooDeep(p, net.nbr2if, net.switches, home, tors);
    assert IsPair(net.nbr2if, net.switches, net.n, home, tors, s, h) && Dist(net.nbr2if, net.switches, h, s) > 5;
  }
}
