/** The link table of the simulator as a value, and what a shortest path in it is. */
module Graph {
  type Node = nat

  datatype Interface = Interface(idx: nat, up: bool, delay: nat, bw: nat)

  /** `nbr2if`: for each node, its neighbours and the interface that leads to each. */
  type Neighbours = map<Node, map<Node, Interface>>

  predicate Up(nb: Neighbours, a: Node, b: Node) {
    a in nb && b in nb[a] && nb[a][b].up
  }

  ghost predicate Symmetric(nb: Neighbours) {
    forall a, b :: Up(nb, a, b) <==> Up(nb, b, a)
  }

  ghost predicate PositiveRates(nb: Neighbours) {
    forall a, b :: Up(nb, a, b) ==> nb[a][b].bw > 0
  }

  ghost predicate NoDup<T(!new)>(s: seq<T>) {
    forall i, j :: 0 <= i < j < |s| ==> s[i] != s[j]
  }

  /** Lists without repetitions of the same elements differ in nothing but order. */
  lemma SameElements(s: seq<Node>, t: seq<Node>)
    requires NoDup(s) && NoDup(t) && forall u: Node :: u in s <==> u in t
    ensures multiset(s) == multiset(t)
  {
    forall u: Node ensures multiset(s)[u] == multiset(t)[u] {
      Once(s, u);
      Once(t, u);
    }
  }

  lemma {:induction false} Once(s: seq<Node>, u: Node)
    requires NoDup(s)
    ensures multiset(s)[u] == if u in s then 1 else 0
  {
    if s != [] {
      var init := s[..|s| - 1];
      assert s == init + [s[|s| - 1]];
      Once(init, u);
    }
  }

  /** A node packets may leave on their way: the destination itself, or a switch. */
  predicate Relays(sw: set<Node>, host: Node, u: Node) {
    u == host || u in sw
  }

  /** A path over up links whose inner nodes are all switches. */
  ghost predicate IsPath(nb: Neighbours, sw: set<Node>, p: seq<Node>) {
    && |p| > 0
    && (forall i :: 0 <= i < |p| - 1 ==> Up(nb, p[i], p[i + 1]))
    && (forall i :: 0 < i < |p| - 1 ==> p[i] in sw)
  }

  ghost predicate PathTo(nb: Neighbours, sw: set<Node>, host: Node, v: Node, p: seq<Node>) {
    IsPath(nb, sw, p) && p[0] == host && p[|p| - 1] == v
  }

  ghost predicate Reachable(nb: Neighbours, sw: set<Node>, host: Node, v: Node) {
    exists p :: PathTo(nb, sw, host, v, p)
  }

  ghost predicate AtDistance(nb: Neighbours, sw: set<Node>, host: Node, v: Node, d: nat) {
    && (exists p {:trigger PathTo(nb, sw, host, v, p)} :: PathTo(nb, sw, host, v, p) && |p| == d + 1)
    && (forall p {:trigger PathTo(nb, sw, host, v, p)} :: PathTo(nb, sw, host, v, p) ==> |p| >= d + 1)
  }

  lemma ShortestExists(nb: Neighbours, sw: set<Node>, host: Node, v: Node, p: seq<Node>)
    requires PathTo(nb, sw, host, v, p)
    ensures exists d: nat :: AtDistance(nb, sw, host, v, d)
    decreases |p|
  {
    if q :| PathTo(nb, sw, host, v, q) && |q| < |p| {
      ShortestExists(nb, sw, host, v, q);
    } else {
      assert AtDistance(nb, sw, host, v, |p| - 1);
    }
  }

  /** The number of links on a shortest path. */
  ghost function Dist(nb: Neighbours, sw: set<Node>, host: Node, v: Node): (d: nat)
    requires Reachable(nb, sw, host, v)
    ensures AtDistance(nb, sw, host, v, d)
  {
    var p :| PathTo(nb, sw, host, v, p);
    ShortestExists(nb, sw, host, v, p);
    var d: nat :| AtDistance(nb, sw, host, v, d);
    d
  }

  lemma DistIs(nb: Neighbours, sw: set<Node>, host: Node, v: Node, d: nat)
    requires AtDistance(nb, sw, host, v, d)
    ensures Reachable(nb, sw, host, v) && Dist(nb, sw, host, v) == d
  {
  }

  lemma PathSnoc(nb: Neighbours, sw: set<Node>, host: Node, u: Node, v: Node, p: seq<Node>)
    requires PathTo(nb, sw, host, u, p) && Relays(sw, host, u) && (u == host ==> |p| == 1) && Up(nb, u, v)
    ensures PathTo(nb, sw, host, v, p + [v])
  {
    var q := p + [v];
    forall i | 0 <= i < |q| - 1 ensures Up(nb, q[i], q[i + 1]) {
      if i < |p| - 1 { assert Up(nb, p[i], p[i + 1]); }
    }
  }

  lemma PathInit(nb: Neighbours, sw: set<Node>, host: Node, v: Node, p: seq<Node>)
    requires PathTo(nb, sw, host, v, p) && |p| > 1
    ensures PathTo(nb, sw, host, p[|p| - 2], p[..|p| - 1])
    ensures Up(nb, p[|p| - 2], v) && Relays(sw, host, p[|p| - 2])
  {
    assert Up(nb, p[|p| - 2], p[|p| - 2 + 1]);
  }

  lemma HostAtZero(nb: Neighbours, sw: set<Node>, host: Node)
    ensures Reachable(nb, sw, host, host) && Dist(nb, sw, host, host) == 0
  {
    assert PathTo(nb, sw, host, host, [host]);
  }

  lemma OnlyHostAtZero(nb: Neighbours, sw: set<Node>, host: Node, v: Node)
    requires Reachable(nb, sw, host, v) && Dist(nb, sw, host, v) == 0
    ensures v == host
  {
  }

  /** One up link away from a relaying node: reachable, and at most one link farther. */
  lemma OneFarther(nb: Neighbours, sw: set<Node>, host: Node, u: Node, v: Node)
    requires Reachable(nb, sw, host, u) && Relays(sw, host, u) && Up(nb, u, v)
    ensures Reachable(nb, sw, host, v) && Dist(nb, sw, host, v) <= Dist(nb, sw, host, u) + 1
  {
    var d := Dist(nb, sw, host, u);
    var p :| PathTo(nb, sw, host, u, p) && |p| == d + 1;
    if u == host { HostAtZero(nb, sw, host); }
    PathSnoc(nb, sw, host, u, v, p);
  }

  /** Every reachable node but the host has a relaying neighbour one link nearer. */
  lemma OneNearer(nb: Neighbours, sw: set<Node>, host: Node, v: Node) returns (u: Node)
    requires Reachable(nb, sw, host, v) && v != host
    ensures Reachable(nb, sw, host, u) && Relays(sw, host, u) && Up(nb, u, v)
    ensures Dist(nb, sw, host, v) == Dist(nb, sw, host, u) + 1
  {
    var p :| PathTo(nb, sw, host, v, p) && |p| == Dist(nb, sw, host, v) + 1;
    u := p[|p| - 2];
    PathInit(nb, sw, host, v, p);
    OneFarther(nb, sw, host, u, v);
  }

  /** `u` is where `v` forwards to for `host`: a relaying neighbour one link nearer. */
  ghost predicate IsNextHop(nb: Neighbours, sw: set<Node>, host: Node, v: Node, u: Node) {
    && Relays(sw, host, u) && Up(nb, u, v)
    && Reachable(nb, sw, host, u) && Reachable(nb, sw, host, v)
    && Dist(nb, sw, host, u) + 1 == Dist(nb, sw, host, v)
  }

  /** `dis` answers breadth-first search if it starts at the host with 0, grows by at most
      one per relayed link, and each value is attained by some path. */
  lemma CertifiedByPaths(nb: Neighbours, sw: set<Node>, host: Node, dis: map<Node, nat>, tree: map<Node, seq<Node>>)
    requires host in dis && dis[host] == 0 && tree.Keys == dis.Keys
    requires forall u, v :: u in dis && Relays(sw, host, u) && Up(nb, u, v) ==> v in dis && dis[v] <= dis[u] + 1
    requires forall v :: v in dis ==> PathTo(nb, sw, host, v, tree[v]) && |tree[v]| == dis[v] + 1
    ensures forall v :: Reachable(nb, sw, host, v) <==> v in dis
    ensures forall v :: v in dis ==> Dist(nb, sw, host, v) == dis[v]
  {
    forall v, p | PathTo(nb, sw, host, v, p) ensures v in dis && dis[v] < |p| {
      NoPathIsShorter(nb, sw, host, dis, v, p);
    }
    forall v | v in dis ensures Reachable(nb, sw, host, v) && Dist(nb, sw, host, v) == dis[v] {
      DistIs(nb, sw, host, v, dis[v]);
    }
  }

  lemma {:induction false} NoPathIsShorter(nb: Neighbours, sw: set<Node>, host: Node, dis: map<Node, nat>, v: Node, p: seq<Node>)
    requires host in dis && dis[host] == 0
    requires forall u, v :: u in dis && Relays(sw, host, u) && Up(nb, u, v) ==> v in dis && dis[v] <= dis[u] + 1
    requires PathTo(nb, sw, host, v, p)
    ensures v in dis && dis[v] < |p|
    decreases |p|
  {
    if |p| > 1 {
      PathInit(nb, sw, host, v, p);
      NoPathIsShorter(nb, sw, host, dis, p[|p| - 2], p[..|p| - 1]);
    }
  }

  /** A labelling of nodes is the distance if it is 0 only at the host, grows by at most one per
      relayed link and every labelled node but the host has a relaying neighbour labelled one less. */
  ghost predicate Labels(nb: Neighbours, sw: set<Node>, host: Node, dis: map<Node, nat>) {
    && host in dis && dis[host] == 0
    && (forall u, v :: u in dis && Relays(sw, host, u) && Up(nb, u, v) ==> v in dis && dis[v] <= dis[u] + 1)
    && (forall v :: v in dis && v != host ==> exists u :: HasNearer(nb, sw, host, dis, v, u))
  }

  ghost predicate HasNearer(nb: Neighbours, sw: set<Node>, host: Node, dis: map<Node, nat>, v: Node, u: Node)
    requires v in dis
  {
    u in dis && Relays(sw, host, u) && Up(nb, u, v) && dis[u] + 1 == dis[v]
  }

  lemma {:induction false} LabelIsDist(nb: Neighbours, sw: set<Node>, host: Node, dis: map<Node, nat>, v: Node)
    requires Labels(nb, sw, host, dis) && v in dis
    ensures Reachable(nb, sw, host, v) && Dist(nb, sw, host, v) == dis[v]
    decreases dis[v]
  {
    if v == host {
      HostAtZero(nb, sw, host);
    } else {
      var u :| HasNearer(nb, sw, host, dis, v, u);
      LabelIsDist(nb, sw, host, dis, u);
      OneFarther(nb, sw, host, u, v);
      var p :| PathTo(nb, sw, host, v, p) && |p| == Dist(nb, sw, host, v) + 1;
      NoPathIsShorter(nb, sw, host, dis, v, p);
    }
  }
}
