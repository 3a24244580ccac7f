/** The generator of single fat-trees, on which the load balancers' path enumeration always succeeds. */
module FatTree {
  import opened Graph
  import opened Routing
  import opened Topology
  import opened Loops
  import opened TopologyGen
  import opened TopologyFacts
  import opened Wiring
  import opened Fabric
  import opened PathIds
  import opened LoadBalancing
  import opened Setup

  /** The generator's own assertion; its tree is numbered like the one datacenter of a fabric without its DCI switch. */
  predicate Single(p: Params) {
    p.dcs == 1 && p.k % 2 == 0
  }

  function FatTotal(p: Params): nat {
    ServersPerDc(p) + SwitchesPerDc(p)
  }

  function FatEnds(p: Params): seq<Ends> {
    [] + Concat(TorsPerDc(p), ServerRow(p, 0)) + Concat(p.k, TorPod(p, 0)) + Concat(p.k, AggPod(p, 0))
  }

  /** The links of the tree: those of the fabric that do not lead to a DCI switch. */
  predicate WrittenFat(p: Params, e: Ends) {
    Written(p, e) && !e.0.Dci? && !e.1.Dci?
  }

  /** The whole program: the links, then the switch list and the header line in front. */
  method GenerateFat(p: Params) returns (f: TopologyFile)
    requires Single(p)
    ensures f.links == Render(p, FatEnds(p)) && f.linkTotal == |f.links|
    ensures |f.switches| == f.switchTotal == SwitchesPerDc(p) && f.nodeTotal == FatTotal(p)
    ensures forall i :: 0 <= i < |f.switches| ==> f.switches[i] == i + ServersPerDc(p)
  {
    hide Render, Concat, ServerRow, TorPod, AggPod, TorsPerDc, ServersPerDc, AggsPerDc, CoresPerDc;
    var links: seq<Link> := [];
    NothingRendered(p);
    links := WriteServerLinks(p, 0, [], links);
    links := WriteTorLinks(p, 0, [] + Concat(TorsPerDc(p), ServerRow(p, 0)), links);
    links := WriteAggLinks(p, 0, [] + Concat(TorsPerDc(p), ServerRow(p, 0)) + Concat(p.k, TorPod(p, 0)), links);
    var nodeTotal := ServersPerDc(p) + TorsPerDc(p) + AggsPerDc(p) + CoresPerDc(p);
    var switchTotal := TorsPerDc(p) + AggsPerDc(p) + CoresPerDc(p);
    var switches: seq<nat> := [];
    for i := 0 to switchTotal
      invariant |switches| == i && forall j :: 0 <= j < i ==> switches[j] == j + ServersPerDc(p)
    {
      switches := switches + [i + ServersPerDc(p)];
    }
    f := TopologyFile(nodeTotal, switchTotal, |links|, switches, links);
  }

  /** The header's link count: (os + 2) k^3 / 4. */
  lemma FatLinkCount(p: Params)
    requires Single(p)
    ensures 4 * |Render(p, FatEnds(p))| == (p.os + 2) * (p.k * p.k * p.k)
  {
    RenderAt(p, FatEnds(p));
    PerDatacenter(p, 0);
    var h := Half(p);
    var all := |Datacenter(p)(0)|;
    ConcatLength(CoresPerDc(p), CoreCell(p, 0), 1);
    assert all == |FatEnds(p)| + CoresPerDc(p) by { hide Concat; }
    hide Concat, Render, Datacenter, FatEnds;
    FatCount(p.k, h, p.os);
  }

  lemma FatCount(k: nat, h: nat, os: nat)
    requires k == 2 * h
    ensures 4 * ((h * k) * (h * os) + k * (h * h) + k * (h * h)) == (os + 2) * (k * k * k)
  {
    var cube := h * h * h;
    assert k * k * k == 8 * cube;
    assert (h * k) * (h * os) == 2 * cube * os;
    assert k * (h * h) == 2 * cube;
  }

  lemma NothingRendered(p: Params)
    ensures Render(p, []) == []
  {
  }

  /** The generator writes exactly the links of the tree. */
  lemma WritesTheTree(p: Params, e: Ends)
    requires Single(p)
    ensures e in FatEnds(p) <==> WrittenFat(p, e)
  {
    InServers(p, 0, e);
    InTors(p, 0, e);
    InAggs(p, 0, e);
    hide Concat;
  }

  lemma FatLines(p: Params, l: Link)
    requires Single(p)
    ensures l in Render(p, FatEnds(p)) <==> exists e :: WrittenFat(p, e) && l == LinkFor(p, e)
  {
    var es := FatEnds(p);
    RenderAt(p, es);
    hide FatEnds, Single;
    if l in Render(p, es) {
      var i :| 0 <= i < |es| && Render(p, es)[i] == l;
      WritesTheTree(p, es[i]);
    }
    if e :| WrittenFat(p, e) && l == LinkFor(p, e) {
      WritesTheTree(p, e);
      var i :| 0 <= i < |es| && es[i] == e;
      assert Render(p, es)[i] == l;
    }
  }

  // ----- the tree as wired

  /** Node ids below the total are the servers and switches, the DCI switch aside. */
  lemma FatIds(p: Params, r: Role)
    requires Single(p) && Valid(p, r)
    ensures Id(p, r) < FatTotal(p) <==> !r.Dci?
    ensures !r.Dci? ==> (r.Server? <==> Id(p, r) < ServersPerDc(p))
    ensures RoleOf(p, Id(p, r)) == r && FatTotal(p) < NodeTotal(p)
  {
    LocalBound(p, r);
    RoleOfId(p, r);
    hide ServersPerDc, SwitchesPerDc, Local;
  }

  ghost predicate FatLink(p: Params, nb: Neighbours, r: Role, s: Role) {
    Up(nb, Id(p, r), Id(p, s)) <==> Adjacent(p, r, s) && !r.Dci? && !s.Dci?
  }

  /** What the simulator knows after reading the file of a tree. */
  ghost predicate IsTree(p: Params, nb: Neighbours, sw: set<Node>) {
    && (forall a: Node, b: Node :: Up(nb, a, b) ==> a < FatTotal(p) && b < FatTotal(p))
    && (forall r, s :: Valid(p, r) && Valid(p, s) ==> FatLink(p, nb, r, s))
    && Symmetric(nb) && (forall a: Node :: a in sw <==> ServersPerDc(p) <= a < FatTotal(p))
  }

  lemma WiredFatLink(p: Params, nb: Neighbours, r: Role, s: Role)
    requires Single(p) && nb == Wire(Render(p, FatEnds(p))).nb && Valid(p, r) && Valid(p, s)
    ensures FatLink(p, nb, r, s)
  {
    hide Id, Wire, Render, FatEnds, Latency, Rate, Single;
    var ls, a, b := Render(p, FatEnds(p)), Id(p, r), Id(p, s);
    WiredLines(ls, a, b);
    if Up(nb, a, b) {
      var l :| l in ls && Joins(l, a, b);
      FatLines(p, l);
      var e :| WrittenFat(p, e) && l == LinkFor(p, e);
      EndsAre(p, e, r, s);
    }
    if Adjacent(p, r, s) && !r.Dci? && !s.Dci? {
      var e := if Written(p, (r, s)) then (r, s) else (s, r);
      assert WrittenFat(p, e);
      var l := LinkFor(p, e);
      FatLines(p, l);
      assert l in ls && Joins(l, a, b);
    }
  }

  lemma FatBounds(p: Params, nb: Neighbours, a: Node, b: Node)
    requires Single(p) && nb == Wire(Render(p, FatEnds(p))).nb && Up(nb, a, b)
    ensures a < FatTotal(p) && b < FatTotal(p) && (p.intraRate > 0 ==> nb[a][b].bw > 0)
  {
    hide Id, Wire, Render, FatEnds, FatTotal, Single;
    var ls := Render(p, FatEnds(p));
    WiredLines(ls, a, b);
    var l :| l in ls && From(nb, a, b, l);
    FatLines(p, l);
    var e :| WrittenFat(p, e) && l == LinkFor(p, e);
    FatIds(p, e.0);
    FatIds(p, e.1);
  }

  lemma FileIsTree(p: Params, nb: Neighbours, sw: set<Node>)
    requires Single(p) && nb == Wire(Render(p, FatEnds(p))).nb && forall a: Node :: a in sw <==> ServersPerDc(p) <= a < FatTotal(p)
    ensures IsTree(p, nb, sw)
  {
    hide Wire, FatEnds, Render, Single, ServersPerDc, FatTotal, FatLink;
    WiredSymmetric(Render(p, FatEnds(p)));
    forall a: Node, b: Node | Up(nb, a, b) ensures a < FatTotal(p) && b < FatTotal(p) { FatBounds(p, nb, a, b); }
    forall r, s | Valid(p, r) && Valid(p, s) ensures FatLink(p, nb, r, s) { WiredFatLink(p, nb, r, s); }
  }

  ghost function FatDeltas(p: Params, h: Role): map<Node, nat>
    requires h.Server? && FatTotal(p) <= NodeTotal(p)
  {
    map a: Node | a < FatTotal(p) :: Delta(h, RoleOf(p, a))
  }

  lemma FatRole(p: Params, a: Node)
    requires Single(p) && a < FatTotal(p)
    ensures a < NodeTotal(p) && !RoleOf(p, a).Dci? && Valid(p, RoleOf(p, a)) && (RoleOf(p, a).Server? <==> a < ServersPerDc(p))
  {
    FatIds(p, Dci(0));
    FatIds(p, RoleOf(p, a));
    hide ServersPerDc, FatTotal, NodeTotal, Id;
  }

  /** An up link of the tree is one of the fabric, and never leads to a DCI switch. */
  lemma FatLinkRoles(p: Params, nb: Neighbours, sw: set<Node>, a: Node, b: Node)
    requires Single(p) && IsTree(p, nb, sw) && Up(nb, a, b)
    ensures a < FatTotal(p) && b < FatTotal(p) && FatTotal(p) <= NodeTotal(p)
    ensures Adjacent(p, RoleOf(p, a), RoleOf(p, b))
  {
    FatIds(p, Dci(0));
    assert a < FatTotal(p) && b < FatTotal(p);
    FatRole(p, a);
    FatRole(p, b);
    assert FatLink(p, nb, RoleOf(p, a), RoleOf(p, b));
  }

  lemma FatRelays(p: Params, nb: Neighbours, sw: set<Node>, h: Role, r: Role)
    requires Single(p) && IsTree(p, nb, sw) && Valid(p, h) && h.Server? && Valid(p, r) && !r.Dci?
    ensures Relays(sw, Id(p, h), Id(p, r)) <==> r == h || !r.Server?
  {
    FatIds(p, h);
    FatIds(p, r);
    hide Id, ServersPerDc, FatTotal, FatLink;
  }

  /** Without the DCI switch nothing in the tree is farther from a server than it was with it. */
  lemma FatDistance(p: Params, nb: Neighbours, sw: set<Node>, h: Role, r: Role)
    requires Single(p) && IsTree(p, nb, sw) && Valid(p, h) && h.Server? && Valid(p, r) && !r.Dci?
    ensures Reachable(nb, sw, Id(p, h), Id(p, r)) && Dist(nb, sw, Id(p, h), Id(p, r)) == Delta(h, r)
  {
    FatIds(p, h);
    FatIds(p, r);
    var dis, host := FatDeltas(p, h), Id(p, h);
    hide Id, Delta, IsTree, FatTotal, ServersPerDc, NodeTotal, Single, Valid, Adjacent, Parent;
    assert dis[host] == 0 by { DeltaOfSelf(h); }
    forall u, v | u in dis && Relays(sw, host, u) && Up(nb, u, v) ensures v in dis && dis[v] <= dis[u] + 1 {
      FatLinkRoles(p, nb, sw, u, v);
      FatRole(p, u);
      FatRelays(p, nb, sw, h, RoleOf(p, u));
      DeltaGrows(p, h, RoleOf(p, u), RoleOf(p, v));
    }
    forall v | v in dis && v != host ensures exists u :: HasNearer(nb, sw, host, dis, v, u) {
      FatRole(p, v);
      var u := FatParent(p, nb, sw, h, RoleOf(p, v));
      assert HasNearer(nb, sw, host, dis, v, u);
    }
    LabelIsDist(nb, sw, host, dis, Id(p, r));
  }

  lemma FatParent(p: Params, nb: Neighbours, sw: set<Node>, h: Role, r: Role) returns (u: Node)
    requires Single(p) && IsTree(p, nb, sw) && Valid(p, h) && h.Server? && Valid(p, r) && !r.Dci? && r != h
    ensures u < FatTotal(p) <= NodeTotal(p) && Relays(sw, Id(p, h), u) && Up(nb, u, Id(p, r)) && Delta(h, RoleOf(p, u)) + 1 == Delta(h, r)
  {
    ParentIsNearer(p, h, r);
    var w := Parent(h, r);
    assert !w.Dci?;
    u := Id(p, w);
    FatIds(p, w);
    FatRelays(p, nb, sw, h, w);
    assert FatLink(p, nb, w, r);
  }

  // ----- the load balancers on the tree

  lemma FatHomedAt(p: Params, nb: Neighbours, sw: set<Node>, r: Role)
    requires Single(p) && IsTree(p, nb, sw) && Valid(p, r) && r.Server?
    ensures HomedAt(nb, sw, Id(p, r), Id(p, Tor(r.dc, r.pod, r.tor)))
  {
    var t := Tor(r.dc, r.pod, r.tor);
    FatIds(p, r);
    FatIds(p, t);
    assert FatLink(p, nb, r, t) && Id(p, t) in sw;
    hide Id, IsTree, ServersPerDc, FatTotal, NodeTotal, Single;
    forall u ensures Up(nb, Id(p, r), u) <==> u == Id(p, t) {
      if Up(nb, Id(p, r), u) { FatLinkRoles(p, nb, sw, Id(p, r), u); }
    }
  }

  /** The one line a server starts is the one to its ToR. */
  lemma FatLineUp(p: Params, r: Role, l: Link)
    requires Single(p) && Valid(p, r) && r.Server?
    ensures l in Render(p, FatEnds(p)) && l.src == Id(p, r) <==> l == LinkFor(p, (r, Tor(r.dc, r.pod, r.tor)))
  {
    FatLines(p, l);
    assert WrittenFat(p, (r, Tor(r.dc, r.pod, r.tor)));
    hide Render, FatEnds, Id, Single;
    if l in Render(p, FatEnds(p)) && l.src == Id(p, r) {
      var e :| WrittenFat(p, e) && l == LinkFor(p, e);
      IdInjective(p, e.0, r);
    }
  }

  /** No server of the tree has lines to different switches. */
  lemma FatLinesHome(p: Params, sw: set<Node>)
    requires Single(p) && forall a: Node :: a in sw <==> ServersPerDc(p) <= a < FatTotal(p)
    ensures forall k, l :: k in Render(p, FatEnds(p)) && l in Render(p, FatEnds(p)) && k.src == l.src && k.src !in sw ==> k.dst == l.dst
  {
    forall k, l | k in Render(p, FatEnds(p)) && l in Render(p, FatEnds(p)) && k.src == l.src && k.src !in sw ensures k.dst == l.dst {
      FatLines(p, k);
      hide Render, FatEnds, Id, ServersPerDc, FatTotal, Single;
      var e :| WrittenFat(p, e) && k == LinkFor(p, e);
      FatIds(p, e.0);
      FatLineUp(p, e.0, k);
      FatLineUp(p, e.0, l);
    }
  }

  lemma FatHome(p: Params, nb: Neighbours, sw: set<Node>, home: map<Node, Node>, a: Node)
    requires Single(p) && IsTree(p, nb, sw) && home == HomeMap(Render(p, FatEnds(p)), sw)
    requires a < FatTotal(p) && a !in sw
    ensures a in home && HomedAt(nb, sw, a, home[a]) && a < NodeTotal(p)
    ensures var r := RoleOf(p, a); Valid(p, r) && r.Server? && home[a] == Id(p, Tor(r.dc, r.pod, r.tor))
  {
    FatRole(p, a);
    var r := RoleOf(p, a);
    FatHomedAt(p, nb, sw, r);
    var up := LinkFor(p, (r, Tor(r.dc, r.pod, r.tor)));
    FatLineUp(p, r, up);
    hide Render, FatEnds, Id, HomeMap, IsTree, FatTotal, ServersPerDc, NodeTotal, Single;
    HomeIsLine(Render(p, FatEnds(p)), sw, a);
    assert up.dst in sw;
    var l :| l in Render(p, FatEnds(p)) && l.src == a && home[a] == l.dst;
    FatLineUp(p, r, l);
  }

  /** The switches that are some host's home are ToRs. */
  lemma HomeIsTor(p: Params, nb: Neighbours, sw: set<Node>, home: map<Node, Node>, g: Node) returns (t: Role)
    requires Single(p) && IsTree(p, nb, sw) && home == HomeMap(Render(p, FatEnds(p)), sw) && g in home
    ensures Valid(p, t) && t.Tor? && home[g] == Id(p, t)
  {
    HomeIsLine(Render(p, FatEnds(p)), sw, g);
    var l :| l in Render(p, FatEnds(p)) && l.src == g && g !in sw && l.dst in sw;
    FatLines(p, l);
    hide Render, FatEnds, HomeMap, IsTree, Single;
    var e :| WrittenFat(p, e) && l == LinkFor(p, e);
    FatIds(p, e.0);
    hide Id, FatTotal, ServersPerDc, NodeTotal;
    FatHome(p, nb, sw, home, g);
    var y := RoleOf(p, g);
    t := Tor(y.dc, y.pod, y.tor);
  }

  /** From every ToR of a tree every other ToR is two or four hops away, never too far for the load balancers. */
  lemma FatPairsAreShort(p: Params, nb: Neighbours, sw: set<Node>, home: map<Node, Node>, tors: set<Node>, s: Node, h: Node)
    requires Single(p) && IsTree(p, nb, sw) && home == HomeMap(Render(p, FatEnds(p)), sw)
    requires tors == home.Values && IsPair(nb, sw, FatTotal(p), home, tors, s, h)
    ensures Dist(nb, sw, h, s) == 3 || Dist(nb, sw, h, s) == 5
  {
    var g: Node :| g in home && home[g] == s;
    hide Render, FatEnds, HomeMap, IsTree, Id, FatTotal, ServersPerDc, NodeTotal;
    FatHome(p, nb, sw, home, h);
    var t := HomeIsTor(p, nb, sw, home, g);
    var x := RoleOf(p, h);
    FatDistance(p, nb, sw, x, t);
    assert t != Tor(x.dc, x.pod, x.tor);
  }

  /** Generate a tree, read it, route and enumerate: the set-up succeeds, and for every two ToRs the table holds
      exactly the ids of all shortest paths between them. */
  method SetUpTree(p: Params, payload: nat, oneHopDelay: nat) returns (ok: bool, net: Network, lb: LoadBalancer, ghost home: map<Node, Node>)
    requires Single(p) && p.intraRate > 0
    ensures ok && net.nbr2if == Wire(Render(p, FatEnds(p))).nb && home == HomeMap(Render(p, FatEnds(p)), net.switches)
    ensures IsTree(p, net.nbr2if, net.switches) && net.n == FatTotal(p) && Exact(net.nbr2if, net.switches, net.n, net.nextHop)
    ensures Homes(net.nbr2if, net.switches, net.n, home) && lb.oneHopDelay == oneHopDelay
    ensures forall k: Key ::
      if ToRPair(net.nbr2if, net.switches, net.n, home, home.Values, k)
      then Complete(net.nbr2if, net.switches, oneHopDelay, k, lb.pathTable, lb.rxToRId2BaseRTT)
      else Known(lb.pathTable, k) == {} && k !in lb.rxToRId2BaseRTT
  {
    hide *;
    var f := GenerateFat(p);
    var nb, devices := ReadLinks(f.links);
    var sw := SwitchSet(f.switches);
    assert forall a: Node :: a in sw <==> ServersPerDc(p) <= a < FatTotal(p) by { FatSwitches(p, f.switches); }
    var homes, tors := ReadHomes(f.links, sw);
    home := homes;
    assert nb == Wire(Render(p, FatEnds(p))).nb;
    FileIsTree(p, nb, sw);
    TreeParts(p, nb, sw);
    net := new Network(f.nodeTotal, sw, payload, nb);
    net.CalculateRoutes();
    FromEmptyIsExact(nb, sw, net.n, net.nextHop);
    TreeHomes(p, nb, sw, home);
    FatLinesHome(p, sw);
    TorsAreHomes(f.links, sw, tors);
    lb := new LoadBalancer(oneHopDelay);
    ok := ConfigureLoadBalancer(lb, nb, net.nextHop, homes, tors, sw, net.n);
    AllPairsAreShort(p, nb, sw, home, tors);
  }

  lemma AllPairsAreShort(p: Params, nb: Neighbours, sw: set<Node>, home: map<Node, Node>, tors: set<Node>)
    requires Single(p) && IsTree(p, nb, sw) && home == HomeMap(Render(p, FatEnds(p)), sw) && tors == home.Values
    ensures forall s: Node, h: Node :: IsPair(nb, sw, FatTotal(p), home, tors, s, h) ==> Dist(nb, sw, h, s) <= 5
  {
    hide Render, FatEnds, HomeMap, IsTree, FatTotal, Single;
    forall s: Node, h: Node | IsPair(nb, sw, FatTotal(p), home, tors, s, h) ensures Dist(nb, sw, h, s) <= 5 {
      FatPairsAreShort(p, nb, sw, home, tors, s, h);
    }
  }

  lemma FatSwitches(p: Params, switches: seq<nat>)
    requires |switches| == SwitchesPerDc(p) && forall i :: 0 <= i < |switches| ==> switches[i] == i + ServersPerDc(p)
    ensures forall a: Node :: a in SwitchSet(switches) <==> ServersPerDc(p) <= a < FatTotal(p)
  {
    hide ServersPerDc, SwitchesPerDc;
    forall a: Node | ServersPerDc(p) <= a < FatTotal(p) ensures a in SwitchSet(switches) {
      assert switches[a - ServersPerDc(p)] == a;
    }
  }

  lemma TreeParts(p: Params, nb: Neighbours, sw: set<Node>)
    requires Single(p) && nb == Wire(Render(p, FatEnds(p))).nb && IsTree(p, nb, sw)
    ensures Symmetric(nb) && (p.intraRate > 0 ==> PositiveRates(nb))
  {
    hide Wire, FatEnds, Render, Single, FatLink;
    if p.intraRate > 0 {
      forall a: Node, b: Node | Up(nb, a, b) ensures nb[a][b].bw > 0 { FatBounds(p, nb, a, b); }
    }
  }

  lemma TreeHomes(p: Params, nb: Neighbours, sw: set<Node>, home: map<Node, Node>)
    requires Single(p) && nb == Wire(Render(p, FatEnds(p))).nb && IsTree(p, nb, sw) && home == HomeMap(Render(p, FatEnds(p)), sw)
    ensures Homes(nb, sw, FatTotal(p), home)
  {
    hide Wire, FatEnds, Render, Single, FatLink, IsTree, HomedAt, HomeMap, FatTotal;
    forall a: Node | a < FatTotal(p) && a !in sw ensures a in home && HomedAt(nb, sw, a, home[a]) { FatHome(p, nb, sw, home, a); }
  }

  /** If no node has more than 255 devices, interfaces are numbered so that ids tell paths apart. */
  lemma WiredPortsDiffer(ls: seq<Link>)
    requires forall a: Node :: Devices(Wire(ls), a) <= 255
    ensures DistinctPorts(Wire(ls).nb)
  {
    var nb := Wire(ls).nb;
    hide Wire, Devices;
    forall a, b | Up(nb, a, b) ensures 1 <= nb[a][b].idx <= 255 { PortBound(ls, a, b); }
    forall a, b, c | Up(nb, a, b) && Up(nb, a, c) && nb[a][b].idx == nb[a][c].idx ensures b == c {
      if b != c { WiredPorts(ls, a, b, c); }
    }
  }
}
