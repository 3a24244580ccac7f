/** Equal-cost forwarding over exact tables: at each node any of the listed next hops may be taken. */
module Forwarding {
  import opened Graph
  import opened Routing

  /** `r` is a trip of a packet for `host`: each node passes it to one of its next hops. */
  ghost predicate Forwards(nh: Table, host: Node, r: seq<Node>) {
    |r| > 0 && forall i :: 0 <= i < |r| - 1 ==> Takes(nh, host, r, i)
  }

  ghost predicate Takes(nh: Table, host: Node, r: seq<Node>, i: nat)
    requires i + 1 < |r|
  {
    r[i + 1] in Hops(nh, r[i], host)
  }

  lemma HopIsNextHop(nb: Neighbours, sw: set<Node>, n: nat, nh: Table, host: Node, v: Node, u: Node)
    requires Exact(nb, sw, n, nh) && host < n && host !in sw
    ensures u in Hops(nh, v, host) <==> IsNextHop(nb, sw, host, v, u)
  {
    assert ListsNextHops(nb, sw, host, v, Hops(nh, v, host));
  }

  lemma {:induction false} CountsDown(nb: Neighbours, sw: set<Node>, n: nat, nh: Table, host: Node, r: seq<Node>, i: nat)
    requires Exact(nb, sw, n, nh) && host < n && host !in sw
    requires Forwards(nh, host, r) && Reachable(nb, sw, host, r[0]) && i < |r|
    ensures Reachable(nb, sw, host, r[i]) && Dist(nb, sw, host, r[i]) + i == Dist(nb, sw, host, r[0])
  {
    if i > 0 {
      CountsDown(nb, sw, n, nh, host, r, i - 1);
      assert Takes(nh, host, r, i - 1);
      HopIsNextHop(nb, sw, n, nh, host, r[i - 1], r[i]);
    }
  }

  /** However next hops are chosen, a packet never visits a node twice, crosses only up links and
      switches, can always go on until it is at the host, and is there after exactly `Dist` steps. */
  lemma LoopFree(nb: Neighbours, sw: set<Node>, n: nat, nh: Table, host: Node, r: seq<Node>)
    requires Symmetric(nb) && Exact(nb, sw, n, nh) && host < n && host !in sw
    requires Forwards(nh, host, r) && Reachable(nb, sw, host, r[0])
    ensures NoDup(r)
    ensures forall i :: 0 <= i < |r| - 1 ==> Up(nb, r[i], r[i + 1])
    ensures forall i :: 0 < i < |r| ==> r[i] in sw || r[i] == host
    ensures r[|r| - 1] == host <==> Hops(nh, r[|r| - 1], host) == []
    ensures r[|r| - 1] == host <==> |r| == Dist(nb, sw, host, r[0]) + 1
    ensures |r| <= Dist(nb, sw, host, r[0]) + 1
  {
    var last := r[|r| - 1];
    CountsDown(nb, sw, n, nh, host, r, |r| - 1);
    HostAtZero(nb, sw, host);
    if last != host {
      if Dist(nb, sw, host, last) == 0 { OnlyHostAtZero(nb, sw, host, last); }
      var u := OneNearer(nb, sw, host, last);
      HopIsNextHop(nb, sw, n, nh, host, last, u);
    } else if Hops(nh, host, host) != [] {
      HopIsNextHop(nb, sw, n, nh, host, host, Hops(nh, host, host)[0]);
    }
    forall i, j | 0 <= i < j < |r| ensures r[i] != r[j] {
      CountsDown(nb, sw, n, nh, host, r, i);
      CountsDown(nb, sw, n, nh, host, r, j);
    }
    forall i | 0 <= i < |r| - 1 ensures Up(nb, r[i], r[i + 1]) {
      StepIsUp(nb, sw, n, nh, host, r, i);
    }
    forall i | 0 < i < |r| ensures r[i] in sw || r[i] == host {
      StepIsUp(nb, sw, n, nh, host, r, i - 1);
    }
  }

  lemma StepIsUp(nb: Neighbours, sw: set<Node>, n: nat, nh: Table, host: Node, r: seq<Node>, i: nat)
    requires Symmetric(nb) && Exact(nb, sw, n, nh) && host < n && host !in sw
    requires Forwards(nh, host, r) && i + 1 < |r|
    ensures Up(nb, r[i], r[i + 1]) && Relays(sw, host, r[i + 1])
  {
    assert Takes(nh, host, r, i);
    HopIsNextHop(nb, sw, n, nh, host, r[i], r[i + 1]);
    assert Up(nb, r[i + 1], r[i]);
  }

  /** A shortest path read backwards is a trip, step by step. */
  lemma {:induction false} ShortestPathForwards(nb: Neighbours, sw: set<Node>, n: nat, nh: Table, host: Node, v: Node,
                                                p: seq<Node>, r: seq<Node>)
    requires Exact(nb, sw, n, nh) && host < n && host !in sw
    requires PathTo(nb, sw, host, v, p) && |p| == Dist(nb, sw, host, v) + 1
    requires |r| == |p| && forall i :: 0 <= i < |p| ==> r[i] == p[|p| - 1 - i]
    ensures Forwards(nh, host, r)
    decreases |p|
  {
    if |p| > 1 {
      var u := p[|p| - 2];
      PathInit(nb, sw, host, v, p);
      OneFarther(nb, sw, host, u, v);
      ShortestPathForwards(nb, sw, n, nh, host, u, p[..|p| - 1], r[1..]);
      HopIsNextHop(nb, sw, n, nh, host, v, u);
      TripTail(nh, host, r);
    }
  }

  /** A trip that ends at the host, read backwards, is a shortest path. */
  lemma {:induction false} TripIsShortestPath(nb: Neighbours, sw: set<Node>, n: nat, nh: Table, host: Node,
                                              p: seq<Node>, r: seq<Node>)
    requires Exact(nb, sw, n, nh) && host < n && host !in sw
    requires Forwards(nh, host, r) && Reachable(nb, sw, host, r[0]) && r[|r| - 1] == host
    requires |p| == |r| && forall i :: 0 <= i < |p| ==> p[i] == r[|r| - 1 - i]
    ensures PathTo(nb, sw, host, r[0], p) && |p| == Dist(nb, sw, host, r[0]) + 1
    decreases |r|
  {
    CountsDown(nb, sw, n, nh, host, r, |r| - 1);
    HostAtZero(nb, sw, host);
    if |r| > 1 {
      assert Takes(nh, host, r, 0);
      HopIsNextHop(nb, sw, n, nh, host, r[0], r[1]);
      TripTail(nh, host, r);
      var q := p[..|p| - 1];
      TripIsShortestPath(nb, sw, n, nh, host, q, r[1..]);
      assert r[1] == host ==> |q| == 1 by {
        if r[1] == host { CountsDown(nb, sw, n, nh, host, r, 1); }
      }
      PathSnoc(nb, sw, host, r[1], r[0], q);
      assert p == q + [r[0]];
    }
  }

  // ----- counting trips

  /** All trips of `d` steps from `v` that end at the host, listed in the order of the next-hop lists. */
  ghost function Trips(nh: Table, host: Node, v: Node, d: nat): seq<seq<Node>>
    decreases d, 1, 0
  {
    if d == 0 then (if v == host then [[v]] else [])
    else TripsVia(nh, host, v, Hops(nh, v, host), d - 1)
  }

  ghost function TripsVia(nh: Table, host: Node, v: Node, hops: seq<Node>, d: nat): seq<seq<Node>>
    decreases d + 1, 0, |hops|
  {
    if hops == [] then []
    else TripsVia(nh, host, v, hops[..|hops| - 1], d) + Prefixed(v, Trips(nh, host, hops[|hops| - 1], d))
  }

  ghost function Prefixed(v: Node, ts: seq<seq<Node>>): (r: seq<seq<Node>>)
    ensures |r| == |ts| && forall i :: 0 <= i < |ts| ==> r[i] == [v] + ts[i]
  {
    seq(|ts|, i requires 0 <= i < |ts| => [v] + ts[i])
  }

  /** The list holds exactly the trips, ... */
  lemma {:induction false} TripsAreTrips(nh: Table, host: Node, v: Node, d: nat, r: seq<Node>)
    ensures r in Trips(nh, host, v, d)
      <==> |r| == d + 1 && r[0] == v && r[d] == host && Forwards(nh, host, r)
    decreases d
  {
    if d == 0 {
      assert |r| == 1 && r[0] == v ==> r == [v];
    } else {
      InTripsVia(nh, host, v, Hops(nh, v, host), d - 1, r);
      if |r| == d + 1 && r[0] == v {
        TripsAreTrips(nh, host, r[1], d - 1, r[1..]);
        TripTail(nh, host, r);
      }
    }
  }

  lemma TripTail(nh: Table, host: Node, r: seq<Node>)
    requires |r| > 1
    ensures Forwards(nh, host, r) <==> r[1] in Hops(nh, r[0], host) && Forwards(nh, host, r[1..])
  {
    if Forwards(nh, host, r) {
      assert Takes(nh, host, r, 0);
      forall i | 0 <= i < |r[1..]| - 1 ensures Takes(nh, host, r[1..], i) {
        assert Takes(nh, host, r, i + 1);
      }
    }
    if r[1] in Hops(nh, r[0], host) && Forwards(nh, host, r[1..]) {
      forall i | 0 <= i < |r| - 1 ensures Takes(nh, host, r, i) {
        if i > 0 { assert Takes(nh, host, r[1..], i - 1); }
      }
    }
  }

  lemma {:induction false} InTripsVia(nh: Table, host: Node, v: Node, hops: seq<Node>, d: nat, r: seq<Node>)
    ensures r in TripsVia(nh, host, v, hops, d)
      <==> |r| == d + 2 && r[0] == v && r[1] in hops && r[1..] in Trips(nh, host, r[1], d)
    decreases |hops|
  {
    if hops != [] {
      var init, u := hops[..|hops| - 1], hops[|hops| - 1];
      InTripsVia(nh, host, v, init, d, r);
      assert hops == init + [u];
      InPrefixed(nh, host, v, u, d, r);
    }
  }

  lemma InPrefixed(nh: Table, host: Node, v: Node, u: Node, d: nat, r: seq<Node>)
    ensures r in Prefixed(v, Trips(nh, host, u, d))
      <==> |r| == d + 2 && r[0] == v && r[1] == u && r[1..] in Trips(nh, host, u, d)
  {
    var ts := Trips(nh, host, u, d);
    if r in Prefixed(v, ts) {
      var i :| 0 <= i < |ts| && r == [v] + ts[i];
      assert r[1..] == ts[i];
      TripShape(nh, host, u, d, ts[i]);
    }
    if |r| == d + 2 && r[0] == v && r[1..] in ts {
      var i :| 0 <= i < |ts| && r[1..] == ts[i];
      assert r == [v] + ts[i];
      assert Prefixed(v, ts)[i] == r;
    }
  }

  lemma {:induction false} TripShape(nh: Table, host: Node, v: Node, d: nat, r: seq<Node>)
    requires r in Trips(nh, host, v, d)
    ensures |r| == d + 1 && r[0] == v
    decreases d, 1, 0
  {
    if d > 0 { ViaShape(nh, host, v, Hops(nh, v, host), d - 1, r); }
  }

  lemma {:induction false} ViaShape(nh: Table, host: Node, v: Node, hops: seq<Node>, d: nat, r: seq<Node>)
    requires r in TripsVia(nh, host, v, hops, d)
    ensures |r| == d + 2 && r[0] == v && r[1] in hops
    decreases d + 1, 0, |hops|
  {
    var init, u := hops[..|hops| - 1], hops[|hops| - 1];
    if r in TripsVia(nh, host, v, init, d) {
      ViaShape(nh, host, v, init, d, r);
    } else {
      var ts := Trips(nh, host, u, d);
      var i :| 0 <= i < |ts| && r == Prefixed(v, ts)[i];
      TripShape(nh, host, u, d, ts[i]);
    }
  }

  /** ... each of them once, so its length is their number. */
  lemma {:induction false} TripsDiffer(nh: Table, host: Node, v: Node, d: nat)
    requires forall w :: NoDup(Hops(nh, w, host))
    ensures NoDup(Trips(nh, host, v, d))
    decreases d, 1, 0
  {
    if d > 0 { ViaDiffer(nh, host, v, Hops(nh, v, host), d - 1); }
  }

  lemma {:induction false} ViaDiffer(nh: Table, host: Node, v: Node, hops: seq<Node>, d: nat)
    requires forall w :: NoDup(Hops(nh, w, host))
    requires NoDup(hops)
    ensures NoDup(TripsVia(nh, host, v, hops, d))
    decreases d + 1, 0, |hops|
  {
    if hops != [] {
      var init, u := hops[..|hops| - 1], hops[|hops| - 1];
      var a, b := TripsVia(nh, host, v, init, d), Prefixed(v, Trips(nh, host, u, d));
      ViaDiffer(nh, host, v, init, d);
      TripsDiffer(nh, host, u, d);
      forall i, j | 0 <= i < |a| && 0 <= j < |b| ensures a[i] != b[j] {
        ViaShape(nh, host, v, init, d, a[i]);
        TripShape(nh, host, u, d, Trips(nh, host, u, d)[j]);
        assert b[j][1] == u;
      }
      forall i, j | 0 <= i < j < |b| ensures b[i] != b[j] {
        assert b[i][1..] == Trips(nh, host, u, d)[i] && b[j][1..] == Trips(nh, host, u, d)[j];
      }
    }
  }

  /** If every next hop has `c` trips left, the number of trips is `c` times the number of next hops. */
  lemma {:induction false} UniformCount(nh: Table, host: Node, v: Node, hops: seq<Node>, d: nat, c: nat)
    requires forall u :: u in hops ==> |Trips(nh, host, u, d)| == c
    ensures |TripsVia(nh, host, v, hops, d)| == |hops| * c
    decreases |hops|
  {
    if hops != [] {
      var u := hops[|hops| - 1];
      assert u in hops;
      UniformCount(nh, host, v, hops[..|hops| - 1], d, c);
      assert |hops| * c == (|hops| - 1) * c + c;
    }
  }
}
