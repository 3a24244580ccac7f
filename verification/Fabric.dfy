/** Shortest paths on the generated fabric, for every size of it. */
module Fabric {
  import opened Graph
  import opened Routing
  import opened Forwarding
  import opened Topology
  import opened TopologyGen
  import opened TopologyFacts
  import opened Wiring

  predicate Adjacent(p: Params, r: Role, s: Role) {
    Written(p, (r, s)) || Written(p, (s, r))
  }

  function Latency(p: Params, r: Role, s: Role): nat {
    if r.Dci? && s.Dci? then p.interLatency else p.intraLatency
  }

  function Rate(p: Params, r: Role, s: Role): nat {
    BitsPerSecond(if r.Dci? && s.Dci? then p.interRate else p.intraRate)
  }

  /** `nb` is the fabric: exactly its links are up, and each has its latency and rate. */
  ghost predicate IsFabric(p: Params, nb: Neighbours) {
    && (forall a: Node, b: Node :: Up(nb, a, b) ==> a < NodeTotal(p) && b < NodeTotal(p))
    && (forall r, s :: Valid(p, r) && Valid(p, s) ==> LinkIs(p, nb, r, s))
  }

  ghost predicate LinkIs(p: Params, nb: Neighbours, r: Role, s: Role) {
    var a, b := Id(p, r), Id(p, s);
    && (Up(nb, a, b) <==> Adjacent(p, r, s))
    && (Up(nb, a, b) ==> nb[a][b].delay == Latency(p, r, s) && nb[a][b].bw == Rate(p, r, s))
  }

  ghost predicate SwitchIds(p: Params, sw: set<Node>) {
    forall a: Node :: a in sw <==> a < NodeTotal(p) && !RoleOf(p, a).Server?
  }

  lemma RoleOfId(p: Params, r: Role)
    requires Valid(p, r)
    ensures Id(p, r) < NodeTotal(p) && RoleOf(p, Id(p, r)) == r
  {
    IdInRange(p, r);
    IdInjective(p, r, RoleOf(p, Id(p, r)));
  }

  /** Reading the generated file wires the fabric. */
  lemma FileIsFabric(p: Params, nb: Neighbours)
    requires nb == Wire(Render(p, AllEnds(p))).nb
    ensures IsFabric(p, nb) && Symmetric(nb)
  {
    var ls := Render(p, AllEnds(p));
    WiredSymmetric(ls);
    forall a: Node, b: Node | Up(nb, a, b) ensures a < NodeTotal(p) && b < NodeTotal(p) {
      WiredLines(ls, a, b);
      var l :| l in ls && Joins(l, a, b);
      LinkLines(p, l);
      var e :| Written(p, e) && l == LinkFor(p, e);
      IdInRange(p, e.0);
      IdInRange(p, e.1);
    }
    forall r, s | Valid(p, r) && Valid(p, s) ensures LinkIs(p, nb, r, s) {
      WiredLink(p, nb, r, s);
    }
  }

  lemma WiredLink(p: Params, nb: Neighbours, r: Role, s: Role)
    requires nb == Wire(Render(p, AllEnds(p))).nb && Valid(p, r) && Valid(p, s)
    ensures LinkIs(p, nb, r, s)
  {
    hide Id, Wire, Render, AllEnds, Latency, Rate;
    var ls, a, b := Render(p, AllEnds(p)), Id(p, r), Id(p, s);
    WiredLines(ls, a, b);
    if Up(nb, a, b) {
      var l :| l in ls && From(nb, a, b, l);
      LinkLines(p, l);
      var e :| Written(p, e) && l == LinkFor(p, e);
      EndsAre(p, e, r, s);
    }
    if Adjacent(p, r, s) {
      var e := if Written(p, (r, s)) then (r, s) else (s, r);
      var l := LinkFor(p, e);
      LinkLines(p, l);
      assert l in ls && Joins(l, a, b);
    }
  }

  lemma EndsAre(p: Params, e: Ends, r: Role, s: Role)
    requires Written(p, e) && Valid(p, r) && Valid(p, s) && Joins(LinkFor(p, e), Id(p, r), Id(p, s))
    ensures e == (r, s) || e == (s, r)
    ensures LinkFor(p, e).latency == Latency(p, r, s) && BitsPerSecond(LinkFor(p, e).rate) == Rate(p, r, s)
  {
    hide Id;
    if Id(p, e.0) == Id(p, r) && Id(p, e.1) == Id(p, s) {
      IdInjective(p, e.0, r);
      IdInjective(p, e.1, s);
    } else {
      IdInjective(p, e.0, s);
      IdInjective(p, e.1, r);
    }
  }

  // ----- distances

  /** The number of links from server `h` to any node, by layer and by how far they have in common. */
  function Delta(h: Role, r: Role): nat
    requires h.Server?
  {
    match r
    case Server(dc, pod, t, _) =>
      if r == h then 0 else if dc != h.dc then 9 else if pod != h.pod then 6 else if t != h.tor then 4 else 2
    case Tor(dc, pod, t) =>
      if dc != h.dc then 8 else if pod != h.pod then 5 else if t != h.tor then 3 else 1
    case Agg(dc, pod, _) => if dc != h.dc then 7 else if pod != h.pod then 4 else 2
    case Core(dc, _, _) => if dc != h.dc then 6 else 3
    case Dci(dc) => if dc != h.dc then 5 else 4
  }

  /** A neighbour one link nearer to `h`. */
  function Parent(h: Role, r: Role): Role
    requires h.Server? && r != h
  {
    match r
    case Server(dc, pod, t, _) => Tor(dc, pod, t)
    case Tor(dc, pod, t) => if dc == h.dc && pod == h.pod && t == h.tor then h else Agg(dc, pod, 0)
    case Agg(dc, pod, a) => if dc == h.dc && pod == h.pod then Tor(dc, pod, h.tor) else Core(dc, a, 0)
    case Core(dc, g, _) => if dc == h.dc then Agg(dc, h.pod, g) else Dci(dc)
    case Dci(dc) => if dc == h.dc then Core(dc, 0, 0) else Dci(h.dc)
  }

  lemma DeltaGrows(p: Params, h: Role, r: Role, s: Role)
    requires h.Server? && Adjacent(p, r, s) && (r == h || !r.Server?)
    ensures Delta(h, s) <= Delta(h, r) + 1
  {
  }

  lemma ParentIsNearer(p: Params, h: Role, r: Role)
    requires Valid(p, h) && h.Server? && Valid(p, r) && r != h
    ensures var u := Parent(h, r);
      Valid(p, u) && Adjacent(p, u, r) && (u == h || !u.Server?) && Delta(h, u) + 1 == Delta(h, r)
  {
  }

  ghost function Deltas(p: Params, h: Role): map<Node, nat>
    requires h.Server?
  {
    map a: Node | a < NodeTotal(p) :: Delta(h, RoleOf(p, a))
  }

  ghost predicate Ready(p: Params, nb: Neighbours, sw: set<Node>, h: Role) {
    IsFabric(p, nb) && Symmetric(nb) && SwitchIds(p, sw) && Valid(p, h) && h.Server?
  }

  lemma RelayRole(p: Params, nb: Neighbours, sw: set<Node>, h: Role, r: Role)
    requires Ready(p, nb, sw, h) && Valid(p, r)
    ensures Relays(sw, Id(p, h), Id(p, r)) <==> r == h || !r.Server?
  {
    RoleOfId(p, h);
    RoleOfId(p, r);
  }

  /** Every node is reached from every server, at its layer's distance. */
  lemma DistanceIsDelta(p: Params, nb: Neighbours, sw: set<Node>, h: Role, r: Role)
    requires Ready(p, nb, sw, h) && Valid(p, r)
    ensures Reachable(nb, sw, Id(p, h), Id(p, r)) && Dist(nb, sw, Id(p, h), Id(p, r)) == Delta(h, r)
  {
    var dis, host := Deltas(p, h), Id(p, h);
    RoleOfId(p, h);
    RoleOfId(p, r);
    hide Id, Delta;
    assert dis[host] == 0 by { DeltaOfSelf(h); }
    forall u, v | u in dis && Relays(sw, host, u) && Up(nb, u, v) ensures v in dis && dis[v] <= dis[u] + 1 {
      LinkIs2(p, nb, u, v);
      RelayRole(p, nb, sw, h, RoleOf(p, u));
      DeltaGrows(p, h, RoleOf(p, u), RoleOf(p, v));
    }
    forall v | v in dis && v != host ensures exists u :: HasNearer(nb, sw, host, dis, v, u) {
      var s := RoleOf(p, v);
      ParentIsNearer(p, h, s);
      var w := Parent(h, s);
      RoleOfId(p, w);
      RelayRole(p, nb, sw, h, w);
      assert LinkIs(p, nb, w, s);
      assert HasNearer(nb, sw, host, dis, v, Id(p, w));
    }
    LabelIsDist(nb, sw, host, dis, Id(p, r));
  }

  lemma DeltaOfSelf(h: Role)
    requires h.Server?
    ensures Delta(h, h) == 0
  {
  }

  lemma LinkIs2(p: Params, nb: Neighbours, a: Node, b: Node)
    requires IsFabric(p, nb) && Up(nb, a, b)
    ensures a < NodeTotal(p) && b < NodeTotal(p) && Adjacent(p, RoleOf(p, a), RoleOf(p, b))
    ensures nb[a][b].delay == Latency(p, RoleOf(p, a), RoleOf(p, b)) && nb[a][b].bw == Rate(p, RoleOf(p, a), RoleOf(p, b))
  {
    assert LinkIs(p, nb, RoleOf(p, a), RoleOf(p, b));
  }

  /** The next hops of a node are its relaying neighbours one layer nearer. */
  lemma NextHopRole(p: Params, nb: Neighbours, sw: set<Node>, h: Role, r: Role, s: Role)
    requires Ready(p, nb, sw, h) && Valid(p, r) && Valid(p, s)
    ensures IsNextHop(nb, sw, Id(p, h), Id(p, r), Id(p, s))
      <==> Adjacent(p, s, r) && (s == h || !s.Server?) && Delta(h, s) + 1 == Delta(h, r)
  {
    hide Id, Delta;
    DistanceIsDelta(p, nb, sw, h, r);
    DistanceIsDelta(p, nb, sw, h, s);
    RelayRole(p, nb, sw, h, s);
    assert LinkIs(p, nb, s, r);
  }

  // ----- how many shortest paths there are

  /** How many next hops a node has, and the `i`-th of them. */
  function HopCount(p: Params, h: Role, r: Role): nat
    requires h.Server? && r != h
  {
    match r
    case Server(_, _, _, _) => 1
    case Tor(dc, pod, t) => if dc == h.dc && pod == h.pod && t == h.tor then 1 else Half(p)
    case Agg(dc, pod, _) => if dc == h.dc && pod == h.pod then 1 else Half(p)
    case Core(_, _, _) => 1
    case Dci(dc) => if dc == h.dc then CoresPerDc(p) else 1
  }

  function NthHop(p: Params, h: Role, r: Role, i: nat): Role
    requires h.Server? && r != h
  {
    match r
    case Server(dc, pod, t, _) => Tor(dc, pod, t)
    case Tor(dc, pod, t) => if dc == h.dc && pod == h.pod && t == h.tor then h else Agg(dc, pod, i)
    case Agg(dc, pod, a) => if dc == h.dc && pod == h.pod then Tor(dc, pod, h.tor) else Core(dc, a, i)
    case Core(dc, g, _) => if dc == h.dc then Agg(dc, h.pod, g) else Dci(dc)
    case Dci(dc) => if dc == h.dc then Core(dc, Pod(p, i), Slot(p, i)) else Dci(h.dc)
  }

  predicate IsHop(p: Params, h: Role, r: Role, s: Role)
    requires h.Server?
  {
    Valid(p, s) && Adjacent(p, s, r) && (s == h || !s.Server?) && Delta(h, s) + 1 == Delta(h, r)
  }

  lemma NthIsHop(p: Params, h: Role, r: Role, i: nat)
    requires Valid(p, h) && h.Server? && Valid(p, r) && r != h && i < HopCount(p, h, r)
    ensures IsHop(p, h, r, NthHop(p, h, r, i))
  {
    if r.Dci? && r.dc == h.dc { PodSlot(p, i, Half(p)); }
  }

  lemma HopIsNth(p: Params, h: Role, r: Role, s: Role) returns (i: nat)
    requires Valid(p, h) && h.Server? && Valid(p, r) && r != h && IsHop(p, h, r, s)
    ensures i < HopCount(p, h, r) && s == NthHop(p, h, r, i)
  {
    i := 0;
    match r
    case Server(_, _, _, _) =>
    case Tor(_, _, _) => if s.Agg? { i := s.agg; }
    case Agg(_, _, _) => if s.Core? { i := s.c; }
    case Core(_, _, _) =>
    case Dci(dc) =>
      if s.Core? {
        i := Radix(s.group, s.c, Half(p));
        PodSlotOf(p, s.group, s.c, Half(p));
      }
  }

  lemma HopsDiffer(p: Params, h: Role, r: Role, i: nat, j: nat)
    requires Valid(p, h) && h.Server? && Valid(p, r) && r != h
    requires i < j < HopCount(p, h, r)
    ensures NthHop(p, h, r, i) != NthHop(p, h, r, j)
  {
    if r.Dci? && r.dc == h.dc {
      PodSlot(p, i, Half(p));
      PodSlot(p, j, Half(p));
    }
  }

  /** The next-hop list has as many entries. */
  lemma HopListLength(p: Params, nb: Neighbours, sw: set<Node>, n: nat, nh: Table, h: Role, r: Role)
    requires Ready(p, nb, sw, h) && n == NodeTotal(p) && Exact(nb, sw, n, nh) && Valid(p, r) && r != h
    ensures |Hops(nh, Id(p, r), Id(p, h))| == HopCount(p, h, r)
    ensures forall u :: u in Hops(nh, Id(p, r), Id(p, h)) ==> u < NodeTotal(p) && IsHop(p, h, r, RoleOf(p, u))
  {
    var host, v, m := Id(p, h), Id(p, r), HopCount(p, h, r);
    var hops := Hops(nh, v, host);
    RoleOfId(p, h);
    assert host !in sw;
    assert ListsNextHops(nb, sw, host, v, hops);
    hide Id, IsHop, HopCount, NthHop, IsNextHop, Exact, IsFabric;
    var t: seq<Node> := seq(m, i requires 0 <= i < m => Id(p, NthHop(p, h, r, i)));
    forall i, j | 0 <= i < j < |t| ensures t[i] != t[j] {
      HopsDiffer(p, h, r, i, j);
      ValidHop(p, h, r, i);
      ValidHop(p, h, r, j);
      if t[i] == t[j] { IdInjective(p, NthHop(p, h, r, i), NthHop(p, h, r, j)); }
    }
    forall u: Node ensures u in hops <==> u < NodeTotal(p) && IsHop(p, h, r, RoleOf(p, u)) {
      HopOfId(p, nb, sw, h, r, u);
    }
    forall u: Node ensures u in t <==> u in hops {
      if u in t {
        var i :| 0 <= i < m && t[i] == u;
        NthIsHop(p, h, r, i);
        ValidHop(p, h, r, i);
        RoleOfId(p, NthHop(p, h, r, i));
      }
      if u in hops {
        var i := HopIsNth(p, h, r, RoleOf(p, u));
        assert t[i] == u;
      }
    }
    SameElements(t, hops);
    assert |multiset(t)| == |t| && |multiset(hops)| == |hops|;
  }

  lemma ValidHop(p: Params, h: Role, r: Role, i: nat)
    requires Valid(p, h) && h.Server? && Valid(p, r) && r != h && i < HopCount(p, h, r)
    ensures Valid(p, NthHop(p, h, r, i))
  {
    NthIsHop(p, h, r, i);
  }

  lemma HopOfId(p: Params, nb: Neighbours, sw: set<Node>, h: Role, r: Role, u: Node)
    requires Ready(p, nb, sw, h) && Valid(p, r)
    ensures IsNextHop(nb, sw, Id(p, h), Id(p, r), u) <==> u < NodeTotal(p) && IsHop(p, h, r, RoleOf(p, u))
  {
    hide Id, Delta;
    if u < NodeTotal(p) {
      NextHopRole(p, nb, sw, h, r, RoleOf(p, u));
    }
  }

  /** The number of shortest paths from `r` to `h`. */
  function PathCount(p: Params, h: Role, r: Role): nat
    requires h.Server?
  {
    var k := Half(p);
    match r
    case Server(dc, pod, t, _) => if r == h then 1 else TorPaths(p, h, dc, pod, t)
    case Tor(dc, pod, t) => TorPaths(p, h, dc, pod, t)
    case Agg(dc, pod, _) => if dc != h.dc then k * (k * k) else if pod != h.pod then k else 1
    case Core(dc, _, _) => if dc != h.dc then k * k else 1
    case Dci(_) => k * k
  }

  /** From any ToR: (k/2)^4 across datacenters, (k/2)^2 across pods, k/2 within a pod. */
  function TorPaths(p: Params, h: Role, dc: nat, pod: nat, t: nat): nat
    requires h.Server?
  {
    var k := Half(p);
    if dc != h.dc then k * (k * (k * k)) else if pod != h.pod then k * k else if t != h.tor then k else 1
  }

  lemma PathCountStep(p: Params, h: Role, r: Role, s: Role)
    requires Valid(p, h) && h.Server? && Valid(p, r) && r != h && IsHop(p, h, r, s)
    ensures PathCount(p, h, r) == HopCount(p, h, r) * PathCount(p, h, s)
  {
  }

  /** The next-hop tables hold that many trips from `r` to `h`, all of `Delta` steps. */
  lemma {:induction false} ShortestPathCount(p: Params, nb: Neighbours, sw: set<Node>, n: nat, nh: Table, h: Role, r: Role)
    requires Ready(p, nb, sw, h) && n == NodeTotal(p) && Exact(nb, sw, n, nh) && Valid(p, r)
    ensures |Trips(nh, Id(p, h), Id(p, r), Delta(h, r))| == PathCount(p, h, r)
    decreases Delta(h, r)
  {
    if r == h {
      assert Delta(h, r) == 0;
    } else {
      var hops, d := Hops(nh, Id(p, r), Id(p, h)), Delta(h, r) - 1;
      HopListLength(p, nb, sw, n, nh, h, r);
      ParentIsNearer(p, h, r);
      var c := PathCount(p, h, Parent(h, r));
      PathCountStep(p, h, r, Parent(h, r));
      assert Trips(nh, Id(p, h), Id(p, r), d + 1) == TripsVia(nh, Id(p, h), Id(p, r), hops, d);
      forall u | u in hops ensures |Trips(nh, Id(p, h), u, d)| == c {
        var s := RoleOf(p, u);
        SameCount(p, h, r, s, Parent(h, r));
        assert Delta(h, s) == d;
        ShortestPathCount(p, nb, sw, n, nh, h, s);
      }
      UniformCount(nh, Id(p, h), Id(p, r), hops, d, c);
    }
  }

  lemma SameCount(p: Params, h: Role, r: Role, s: Role, s': Role)
    requires Valid(p, h) && h.Server? && Valid(p, r) && r != h && IsHop(p, h, r, s) && IsHop(p, h, r, s')
    ensures PathCount(p, h, s) == PathCount(p, h, s')
  {
  }
}
