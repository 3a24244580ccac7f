/** Searches that all walk neighbours in one order, as the program's do, can still take different shortest paths
    there and back: the smallest network with two crossed middle layers. */
module Crossed {
  import opened Graph
  import opened Costs
  import opened Routing
  import opened Symmetry

  /** One neighbour of the node being expanded; a node already known is passed over. */
  function Look(nb: Neighbours, sw: set<Node>, payload: nat, s: Search, now: Node, next: Node): Search {
    if now in s.dis && now in s.delay && now in s.tx && now in s.bw && Up(nb, now, next) && nb[now][next].bw > 0 && next !in s.dis
    then Discover(s, sw, payload, now, next, nb[now][next])
    else s
  }

  /** The neighbours of one node, in the order given. */
  function Visit(nb: Neighbours, sw: set<Node>, payload: nat, s: Search, now: Node, order: seq<Node>): Search
    decreases |order|
  {
    if order == [] then s else Visit(nb, sw, payload, Look(nb, sw, payload, s, now, order[0]), now, order[1..])
  }

  function Start(host: Node): Search {
    Search([host], map[host := 0], map[host := 0], map[host := 0], map[host := MAX_BW])
  }

  /** The search after `n` passes over the queue. */
  function Passes(nb: Neighbours, sw: set<Node>, payload: nat, order: seq<Node>, host: Node, n: nat): Search {
    if n == 0 then Start(host)
    else
      var s := Passes(nb, sw, payload, order, host, n - 1);
      if n <= |s.q| then Visit(nb, sw, payload, s, s.q[n - 1], order) else s
  }

  // ----- the network

  function Link(delay: nat): Interface {
    Interface(1, true, delay, 1)
  }

  /** Hosts 0 and 1; 0 is linked to the switches 2 and 3, 1 to 4 and 5. The crossed links are 2-5, of delay 2, and 3-4. */
  function Net(): Neighbours {
    map[0 := map[2 := Link(1), 3 := Link(1)], 1 := map[4 := Link(1), 5 := Link(1)],
        2 := map[0 := Link(1), 5 := Link(2)], 3 := map[0 := Link(1), 4 := Link(1)],
        4 := map[1 := Link(1), 3 := Link(1)], 5 := map[1 := Link(1), 2 := Link(2)]]
  }

  const SWITCHES: set<Node> := {2, 3, 4, 5}
  const ASCENDING: seq<Node> := [0, 1, 2, 3, 4, 5]

  function Joined(a: Node, b: Node): bool {
    match a
    case 0 => b == 2 || b == 3
    case 1 => b == 4 || b == 5
    case 2 => b == 0 || b == 5
    case 3 => b == 0 || b == 4
    case 4 => b == 1 || b == 3
    case 5 => b == 1 || b == 2
    case _ => false
  }

  function Delay(a: Node, b: Node): nat {
    if (a == 2 && b == 5) || (a == 5 && b == 2) then 2 else 1
  }

  lemma NetIs(a: Node, b: Node)
    ensures Up(Net(), a, b) <==> Joined(a, b)
    ensures Up(Net(), a, b) ==> Net()[a][b] == Link(Delay(a, b))
  {
  }

  lemma NetBothWays()
    ensures SameBothWays(Net()) && PositiveRates(Net())
  {
    forall a, b | Up(Net(), a, b) ensures SameBack(Net(), a, b) && Net()[a][b].bw > 0 {
      NetIs(a, b);
      NetIs(b, a);
    }
  }

  // ----- one pass

  ghost predicate Whole(s: Search) {
    s.delay.Keys == s.tx.Keys == s.bw.Keys == s.dis.Keys
  }

  /** `next` is found from `now`. */
  ghost predicate Finds(s: Search, now: Node, next: Node, t: Search) {
    && Whole(s) && Whole(t) && now in s.dis && Joined(now, next) && next !in s.dis
    && t == Discover(s, SWITCHES, 0, now, next, Link(Delay(now, next)))
  }

  ghost predicate AllKnown(s: Search, now: Node, from: nat, to: nat) {
    forall y: Node :: from <= y < to && Joined(now, y) ==> y in s.dis
  }

  lemma LookKnown(s: Search, now: Node, next: Node)
    requires Joined(now, next) ==> next in s.dis
    ensures Look(Net(), SWITCHES, 0, s, now, next) == s
  {
    NetIs(now, next);
    hide Net;
  }

  lemma LookFinds(s: Search, now: Node, next: Node, t: Search)
    requires Finds(s, now, next, t)
    ensures Look(Net(), SWITCHES, 0, s, now, next) == t
  {
    NetIs(now, next);
    hide Net;
  }

  lemma From(from: nat)
    requires from < 6
    ensures ASCENDING[from..] != [] && ASCENDING[from..][0] == from && ASCENDING[from..][1..] == ASCENDING[from + 1..]
  {
  }

  lemma Ends()
    ensures ASCENDING[6..] == [] && ASCENDING[0..] == ASCENDING
  {
  }

  /** Nodes that are known, or no neighbours, are passed over. */
  lemma {:induction false} PassedOver(s: Search, now: Node, from: nat, to: nat)
    requires from <= to <= 6 && AllKnown(s, now, from, to)
    ensures Visit(Net(), SWITCHES, 0, s, now, ASCENDING[from..]) == Visit(Net(), SWITCHES, 0, s, now, ASCENDING[to..])
    decreases if from <= to then to - from else 0
  {
    if from < to {
      assert Joined(now, from) ==> from in s.dis;
      hide Net, ASCENDING, Look;
      From(from);
      LookKnown(s, now, from);
      PassedOver(s, now, from + 1, to);
    }
  }

  lemma FindNext(s: Search, now: Node, from: nat, next: Node, t: Search)
    requires from <= next < 6 && AllKnown(s, now, from, next) && Finds(s, now, next, t)
    ensures Visit(Net(), SWITCHES, 0, s, now, ASCENDING[from..]) == Visit(Net(), SWITCHES, 0, t, now, ASCENDING[next + 1..])
  {
    hide Net, ASCENDING, Look, AllKnown, Finds;
    PassedOver(s, now, from, next);
    From(next);
    LookFinds(s, now, next, t);
  }

  lemma FindLast(s: Search, now: Node, from: nat)
    requires from <= 6 && AllKnown(s, now, from, 6)
    ensures Visit(Net(), SWITCHES, 0, s, now, ASCENDING[from..]) == s
  {
    hide Net, ASCENDING, Look, AllKnown;
    PassedOver(s, now, from, 6);
    Ends();
  }

  lemma OneFound(s: Search, now: Node, next: Node, t: Search)
    requires next < 6 && Finds(s, now, next, t) && AllKnown(s, now, 0, next) && AllKnown(t, now, next + 1, 6)
    ensures Visit(Net(), SWITCHES, 0, s, now, ASCENDING) == t
  {
    hide *;
    Ends();
    FindNext(s, now, 0, next, t);
    FindLast(t, now, next + 1);
  }

  lemma TwoFound(s: Search, now: Node, x: Node, y: Node, t: Search, u: Search)
    requires x < y < 6 && Finds(s, now, x, t) && Finds(t, now, y, u)
    requires AllKnown(s, now, 0, x) && AllKnown(t, now, x + 1, y) && AllKnown(u, now, y + 1, 6)
    ensures Visit(Net(), SWITCHES, 0, s, now, ASCENDING) == u
  {
    hide *;
    Ends();
    FindNext(s, now, 0, x, t);
    FindNext(t, now, x + 1, y, u);
    FindLast(u, now, y + 1);
  }

  // ----- the two searches

  function Searched(host: Node, n: nat): Search {
    Passes(Net(), SWITCHES, 0, ASCENDING, host, n)
  }

  lemma Pass(host: Node, n: nat)
    requires n < |Searched(host, n).q|
    ensures Searched(host, n + 1) == Visit(Net(), SWITCHES, 0, Searched(host, n), Searched(host, n).q[n], ASCENDING)
  {
    hide Visit, Net;
  }

  /** The queue is `q`, and exactly the nodes in `d` are known, with these delays. */
  ghost predicate Holds(s: Search, q: seq<Node>, d: map<Node, nat>) {
    Whole(s) && s.q == q && s.delay == d
  }

  ghost predicate Reached(host: Node, n: nat, q: seq<Node>, d: map<Node, nat>) {
    Holds(Searched(host, n), q, d)
  }

  /** One more node in the queue and among those known. */
  ghost predicate Grows(q: seq<Node>, d: map<Node, nat>, now: Node, next: Node, q': seq<Node>, d': map<Node, nat>) {
    && now in d && d[now] < 10 && Joined(now, next) && next !in d && next < 6
    && q' == (if next in SWITCHES then q + [next] else q) && d' == d[next := d[now] + Delay(now, next)]
  }

  lemma Find(s: Search, q: seq<Node>, d: map<Node, nat>, now: Node, next: Node, q': seq<Node>, d': map<Node, nat>) returns (t: Search)
    requires Holds(s, q, d) && Grows(q, d, now, next, q', d')
    ensures Holds(t, q', d') && Finds(s, now, next, t)
  {
    hide Joined, SWITCHES;
    t := Discover(s, SWITCHES, 0, now, next, Link(Delay(now, next)));
  }

  lemma KnownBy(s: Search, q: seq<Node>, d: map<Node, nat>, now: Node, from: nat, to: nat)
    requires Holds(s, q, d) && forall y: Node :: from <= y < to && Joined(now, y) ==> y in d
    ensures AllKnown(s, now, from, to)
  {
    hide Joined;
  }

  lemma GrowsIs(q: seq<Node>, d: map<Node, nat>, now: Node, next: Node, q': seq<Node>, d': map<Node, nat>)
    requires Grows(q, d, now, next, q', d')
    ensures next < 6 && next in d' && forall y :: y in d ==> y in d'
  {
    hide Joined, Delay;
  }

  lemma OneMore(host: Node, n: nat, q: seq<Node>, d: map<Node, nat>, next: Node, q': seq<Node>, d': map<Node, nat>)
    requires Reached(host, n, q, d) && n < |q| && Grows(q, d, q[n], next, q', d')
    requires forall y: Node :: Joined(q[n], y) && y != next ==> y in d
    ensures Reached(host, n + 1, q', d')
  {
    var s, now := Searched(host, n), q[n];
    assert Holds(s, q, d) && s.q == q;
    hide *;
    GrowsIs(q, d, now, next, q', d');
    var t := Find(s, q, d, now, next, q', d');
    KnownBy(s, q, d, now, 0, next);
    KnownBy(t, q', d', now, next + 1, 6);
    Pass(host, n);
    OneFound(s, now, next, t);
    ReachedIs(host, n + 1, q', d');
  }

  lemma ReachedIs(host: Node, n: nat, q: seq<Node>, d: map<Node, nat>)
    ensures Reached(host, n, q, d) <==> Holds(Searched(host, n), q, d)
  {
    hide Holds, Searched;
  }

  lemma NoMore(host: Node, n: nat, q: seq<Node>, d: map<Node, nat>)
    requires Reached(host, n, q, d) && n < |q| && forall y: Node :: Joined(q[n], y) ==> y in d
    ensures Reached(host, n + 1, q, d)
  {
    var s, now := Searched(host, n), q[n];
    assert Holds(s, q, d) && s.q == q;
    hide *;
    KnownBy(s, q, d, now, 0, 6);
    Pass(host, n);
    Ends();
    FindLast(s, now, 0);
    ReachedIs(host, n + 1, q, d);
  }

  /** The first pass, over the two neighbours of a host. */
  lemma TwoMore(host: Node, x: Node, y: Node, q: seq<Node>, d: map<Node, nat>, q': seq<Node>, d': map<Node, nat>)
    requires x < y && Grows([host], map[host := 0], host, x, q, d) && Grows(q, d, host, y, q', d')
    requires forall z: Node :: Joined(host, z) ==> z == x || z == y
    ensures Reached(host, 1, q', d')
  {
    var s := Start(host);
    assert Searched(host, 0) == s && s.q == [host] && Holds(s, [host], map[host := 0]);
    hide *;
    GrowsIs([host], map[host := 0], host, x, q, d);
    GrowsIs(q, d, host, y, q', d');
    var t := Find(s, [host], map[host := 0], host, x, q, d);
    var u := Find(t, q, d, host, y, q', d');
    KnownBy(s, [host], map[host := 0], host, 0, x);
    KnownBy(t, q, d, host, x + 1, y);
    KnownBy(u, q', d', host, y + 1, 6);
    Pass(host, 0);
    TwoFound(s, host, x, y, t, u);
    ReachedIs(host, 1, q', d');
  }

  lemma FromZero1(a: Node)
    requires a == 0
    ensures Reached(a, 1, [0, 2, 3], map[0 := 0, 2 := 1, 3 := 1])
  {
    TwoMore(a, 2, 3, [a, 2], map[a := 0][2 := 1], [a, 2, 3], map[a := 0][2 := 1][3 := 1]);
    hide Reached;
    assert map[a := 0][2 := 1][3 := 1] == map[0 := 0, 2 := 1, 3 := 1];
  }

  lemma FromZero2(a: Node)
    requires Reached(a, 1, [0, 2, 3], map[0 := 0, 2 := 1, 3 := 1])
    ensures Reached(a, 2, [0, 2, 3, 5], map[0 := 0, 2 := 1, 3 := 1, 5 := 3])
  {
    hide Reached;
    var d := map[0 := 0, 2 := 1, 3 := 1];
    assert d[5 := 3] == map[0 := 0, 2 := 1, 3 := 1, 5 := 3];
    OneMore(a, 1, [0, 2, 3], d, 5, [0, 2, 3, 5], d[5 := 3]);
  }

  lemma FromZero3(a: Node)
    requires Reached(a, 2, [0, 2, 3, 5], map[0 := 0, 2 := 1, 3 := 1, 5 := 3])
    ensures Reached(a, 3, [0, 2, 3, 5, 4], map[0 := 0, 2 := 1, 3 := 1, 5 := 3, 4 := 2])
  {
    hide Reached;
    var d := map[0 := 0, 2 := 1, 3 := 1, 5 := 3];
    assert d[4 := 2] == map[0 := 0, 2 := 1, 3 := 1, 5 := 3, 4 := 2];
    OneMore(a, 2, [0, 2, 3, 5], d, 4, [0, 2, 3, 5, 4], d[4 := 2]);
  }

  lemma FromZero4(a: Node)
    requires Reached(a, 3, [0, 2, 3, 5, 4], map[0 := 0, 2 := 1, 3 := 1, 5 := 3, 4 := 2])
    ensures Reached(a, 4, [0, 2, 3, 5, 4], map[0 := 0, 2 := 1, 3 := 1, 5 := 3, 4 := 2, 1 := 4])
  {
    hide Reached;
    var d := map[0 := 0, 2 := 1, 3 := 1, 5 := 3, 4 := 2];
    assert d[1 := 4] == map[0 := 0, 2 := 1, 3 := 1, 5 := 3, 4 := 2, 1 := 4];
    OneMore(a, 3, [0, 2, 3, 5, 4], d, 1, [0, 2, 3, 5, 4], d[1 := 4]);
  }

  /** From host 0: 2 is expanded before 3, so 5 before 4, and 5 discovers 1. */
  lemma FromZero(a: Node)
    requires a == 0
    ensures Reached(a, 5, [0, 2, 3, 5, 4], map[0 := 0, 2 := 1, 3 := 1, 5 := 3, 4 := 2, 1 := 4])
  {
    hide Reached;
    FromZero1(a);
    FromZero2(a);
    FromZero3(a);
    FromZero4(a);
    NoMore(a, 4, [0, 2, 3, 5, 4], map[0 := 0, 2 := 1, 3 := 1, 5 := 3, 4 := 2, 1 := 4]);
  }

  lemma FromOne1(b: Node)
    requires b == 1
    ensures Reached(b, 1, [1, 4, 5], map[1 := 0, 4 := 1, 5 := 1])
  {
    TwoMore(b, 4, 5, [b, 4], map[b := 0][4 := 1], [b, 4, 5], map[b := 0][4 := 1][5 := 1]);
    hide Reached;
    assert map[b := 0][4 := 1][5 := 1] == map[1 := 0, 4 := 1, 5 := 1];
  }

  lemma FromOne2(b: Node)
    requires Reached(b, 1, [1, 4, 5], map[1 := 0, 4 := 1, 5 := 1])
    ensures Reached(b, 2, [1, 4, 5, 3], map[1 := 0, 4 := 1, 5 := 1, 3 := 2])
  {
    hide Reached;
    var d := map[1 := 0, 4 := 1, 5 := 1];
    assert d[3 := 2] == map[1 := 0, 4 := 1, 5 := 1, 3 := 2];
    OneMore(b, 1, [1, 4, 5], d, 3, [1, 4, 5, 3], d[3 := 2]);
  }

  lemma FromOne3(b: Node)
    requires Reached(b, 2, [1, 4, 5, 3], map[1 := 0, 4 := 1, 5 := 1, 3 := 2])
    ensures Reached(b, 3, [1, 4, 5, 3, 2], map[1 := 0, 4 := 1, 5 := 1, 3 := 2, 2 := 3])
  {
    hide Reached;
    var d := map[1 := 0, 4 := 1, 5 := 1, 3 := 2];
    assert d[2 := 3] == map[1 := 0, 4 := 1, 5 := 1, 3 := 2, 2 := 3];
    OneMore(b, 2, [1, 4, 5, 3], d, 2, [1, 4, 5, 3, 2], d[2 := 3]);
  }

  lemma FromOne4(b: Node)
    requires Reached(b, 3, [1, 4, 5, 3, 2], map[1 := 0, 4 := 1, 5 := 1, 3 := 2, 2 := 3])
    ensures Reached(b, 4, [1, 4, 5, 3, 2], map[1 := 0, 4 := 1, 5 := 1, 3 := 2, 2 := 3, 0 := 3])
  {
    hide Reached;
    var d := map[1 := 0, 4 := 1, 5 := 1, 3 := 2, 2 := 3];
    assert d[0 := 3] == map[1 := 0, 4 := 1, 5 := 1, 3 := 2, 2 := 3, 0 := 3];
    OneMore(b, 3, [1, 4, 5, 3, 2], d, 0, [1, 4, 5, 3, 2], d[0 := 3]);
  }

  /** From host 1: 4 is expanded before 5, so 3 before 2, and 3 discovers 0. */
  lemma FromOne(b: Node)
    requires b == 1
    ensures Reached(b, 5, [1, 4, 5, 3, 2], map[1 := 0, 4 := 1, 5 := 1, 3 := 2, 2 := 3, 0 := 3])
  {
    hide Reached;
    FromOne1(b);
    FromOne2(b);
    FromOne3(b);
    FromOne4(b);
    NoMore(b, 4, [1, 4, 5, 3, 2], map[1 := 0, 4 := 1, 5 := 1, 3 := 2, 2 := 3, 0 := 3]);
  }

  /** Both searches are over after five passes; host 0 records 4 for host 1, which records 3 for host 0. */
  lemma RecordsDiffer(a: Node, b: Node)
    requires a == 0 && b == 1
    ensures SameBothWays(Net()) && PositiveRates(Net())
    ensures |Searched(a, 5).q| == 5 && b in Searched(a, 5).delay && Searched(a, 5).delay[b] == 4
    ensures |Searched(b, 5).q| == 5 && a in Searched(b, 5).delay && Searched(b, 5).delay[a] == 3
  {
    NetBothWays();
    FromZero(a);
    FromOne(b);
    hide Net, Searched;
  }
}
