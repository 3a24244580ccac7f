/** What the enumerated path ids mean, and the loops that enumerate them for all pairs of ToRs. */
module LoadBalancing {
  import opened Graph
  import opened Costs
  import opened Routing
  import opened Forwarding
  import opened PathIds

  /** The ports a packet leaves through along a path. */
  ghost function PathPorts(nb: Neighbours, p: seq<Node>): (r: seq<nat>)
    ensures |r| == if |p| == 0 then 0 else |p| - 1
  {
    if |p| <= 1 then [] else [Port(nb, p[0], p[1])] + PathPorts(nb, p[1..])
  }

  /** The i-th is the number of the interface to the next node. */
  lemma {:induction false} PortsAlong(nb: Neighbours, p: seq<Node>, i: nat)
    requires i + 1 < |p| && Up(nb, p[i], p[i + 1])
    ensures PathPorts(nb, p)[i] == nb[p[i]][p[i + 1]].idx
    decreases i
  {
    if i > 0 { PortsAlong(nb, p[1..], i - 1); }
  }

  ghost predicate SwitchPath(nb: Neighbours, sw: set<Node>, s: Node, t: Node, p: seq<Node>) {
    && |p| > 0 && p[0] == s && p[|p| - 1] == t
    && (forall i :: 0 <= i < |p| ==> p[i] in sw)
    && (forall i :: 0 <= i < |p| - 1 ==> Up(nb, p[i], p[i + 1]))
  }

  /** `p` is one of the shortest paths between two switches over switches only. */
  ghost predicate Shortest(nb: Neighbours, sw: set<Node>, s: Node, t: Node, p: seq<Node>) {
    SwitchPath(nb, sw, s, t, p) && forall q :: SwitchPath(nb, sw, s, t, q) ==> |p| <= |q|
  }

  /** Port sequences of `m` steps are those of the trips of `m` steps. */
  lemma PortSeqsAreTrips(nb: Neighbours, nh: Table, dst: Node, x: Node, m: nat, r: seq<nat>)
    ensures r in PortSeqs(nb, nh, dst, x, m) <==> exists p :: IsTrip(nb, nh, dst, x, m, r, p)
  {
    hide *;
    if r in PortSeqs(nb, nh, dst, x, m) {
      var p := TripOfSeq(nb, nh, dst, x, m, r);
    }
    if p :| IsTrip(nb, nh, dst, x, m, r, p) {
      SeqOfTrip(nb, nh, dst, x, m, r, p);
    }
  }

  lemma {:induction false} TripOfSeq(nb: Neighbours, nh: Table, dst: Node, x: Node, m: nat, r: seq<nat>) returns (p: seq<Node>)
    requires r in PortSeqs(nb, nh, dst, x, m)
    ensures IsTrip(nb, nh, dst, x, m, r, p)
    decreases m
  {
    StepsByHop(nb, nh, dst, x, m, r);
    hide *;
    if m == 0 {
      NoSteps(nb, nh, dst, x, r);
      p :| IsTrip(nb, nh, dst, x, 0, r, p);
    } else {
      var u :| u in Hops(nh, x, dst) && StartsWith(nb, nh, dst, x, u, m - 1, r);
      StartsThere(nb, nh, dst, x, u, m - 1, r);
      var q := TripOfSeq(nb, nh, dst, u, m - 1, r[1..]);
      TripBack(nb, nh, dst, x, m, r, u, q);
      p := [x] + q;
    }
  }

  lemma {:induction false} SeqOfTrip(nb: Neighbours, nh: Table, dst: Node, x: Node, m: nat, r: seq<nat>, p: seq<Node>)
    requires IsTrip(nb, nh, dst, x, m, r, p)
    ensures r in PortSeqs(nb, nh, dst, x, m)
    decreases m
  {
    StepsByHop(nb, nh, dst, x, m, r);
    hide *;
    if m == 0 {
      NoSteps(nb, nh, dst, x, r);
    } else {
      TripOnward(nb, nh, dst, x, m, r, p);
      SeqOfTrip(nb, nh, dst, p[1], m - 1, r[1..], p[1..]);
      StartsThere(nb, nh, dst, x, p[1], m - 1, r);
    }
  }

  lemma StepsByHop(nb: Neighbours, nh: Table, dst: Node, x: Node, m: nat, r: seq<nat>)
    ensures m > 0 ==> (r in PortSeqs(nb, nh, dst, x, m) <==> exists u :: u in Hops(nh, x, dst) && StartsWith(nb, nh, dst, x, u, m - 1, r))
  {
    hide *;
    if m > 0 {
      InVia(nb, nh, dst, x, Hops(nh, x, dst), m - 1, r);
      SeqsAreVia(nb, nh, dst, x, m);
    }
  }

  lemma SeqsAreVia(nb: Neighbours, nh: Table, dst: Node, x: Node, m: nat)
    requires m > 0
    ensures PortSeqs(nb, nh, dst, x, m) == Via(nb, nh, dst, x, Hops(nh, x, dst), m - 1)
  {
    hide Via, Hops;
  }

  lemma NoSteps(nb: Neighbours, nh: Table, dst: Node, x: Node, r: seq<nat>)
    ensures r in PortSeqs(nb, nh, dst, x, 0) <==> exists p :: IsTrip(nb, nh, dst, x, 0, r, p)
  {
    assert Forwards(nh, dst, [x]);
    assert IsTrip(nb, nh, dst, x, 0, [], [x]);
  }

  lemma StartsThere(nb: Neighbours, nh: Table, dst: Node, x: Node, u: Node, m: nat, r: seq<nat>)
    ensures StartsWith(nb, nh, dst, x, u, m, r) <==> |r| > 0 && r[0] == Port(nb, x, u) && r[1..] in PortSeqs(nb, nh, dst, u, m)
  {
    hide Port, PortSeqs;
  }

  lemma TripOnward(nb: Neighbours, nh: Table, dst: Node, x: Node, m: nat, r: seq<nat>, p: seq<Node>)
    requires m > 0 && IsTrip(nb, nh, dst, x, m, r, p)
    ensures |p| > 1 && p[1] in Hops(nh, x, dst) && |r| > 0 && r[0] == Port(nb, x, p[1])
    ensures IsTrip(nb, nh, dst, p[1], m - 1, r[1..], p[1..])
  {
    hide Hops, Port;
    TripTail(nh, dst, p);
  }

  lemma TripBack(nb: Neighbours, nh: Table, dst: Node, x: Node, m: nat, r: seq<nat>, u: Node, q: seq<Node>)
    requires m > 0 && |r| > 0 && u in Hops(nh, x, dst) && r[0] == Port(nb, x, u) && IsTrip(nb, nh, dst, u, m - 1, r[1..], q)
    ensures IsTrip(nb, nh, dst, x, m, r, [x] + q)
  {
    hide Hops, Port;
    assert ([x] + q)[1..] == q;
    TripTail(nh, dst, [x] + q);
    assert r == [r[0]] + r[1..];
  }

  ghost predicate IsTrip(nb: Neighbours, nh: Table, dst: Node, x: Node, m: nat, r: seq<nat>, p: seq<Node>) {
    |p| == m + 1 && p[0] == x && Forwards(nh, dst, p) && PathPorts(nb, p) == r
  }

  ghost predicate StartsWith(nb: Neighbours, nh: Table, dst: Node, x: Node, u: Node, m: nat, r: seq<nat>) {
    |r| > 0 && r[0] == Port(nb, x, u) && r[1..] in PortSeqs(nb, nh, dst, u, m)
  }

  lemma {:induction false} InVia(nb: Neighbours, nh: Table, dst: Node, x: Node, us: seq<Node>, m: nat, r: seq<nat>)
    ensures r in Via(nb, nh, dst, x, us, m) <==> exists u :: u in us && StartsWith(nb, nh, dst, x, u, m, r)
    decreases |us|
  {
    if us != [] {
      var u, init := us[|us| - 1], us[..|us| - 1];
      InVia(nb, nh, dst, x, init, m, r);
      assert us == init + [u];
      if StartsWith(nb, nh, dst, x, u, m, r) {
        assert r == [Port(nb, x, u)] + r[1..];
      }
      if q :| q in PortSeqs(nb, nh, dst, u, m) && r == [Port(nb, x, u)] + q {
        assert r[1..] == q;
        assert StartsWith(nb, nh, dst, x, u, m, r);
      }
    }
  }

  // ----- trips to a single-homed host are shortest paths to its ToR

  lemma {:induction false} SwitchPathBound(nb: Neighbours, sw: set<Node>, dst: Node, s: Node, t: Node, p: seq<Node>)
    requires Symmetric(nb) && SwitchPath(nb, sw, s, t, p) && Reachable(nb, sw, dst, t)
    ensures Reachable(nb, sw, dst, s) && Dist(nb, sw, dst, s) <= Dist(nb, sw, dst, t) + |p| - 1
    decreases |p|
  {
    if |p| > 1 {
      assert Up(nb, p[0], p[0 + 1]);
      forall i | 0 <= i < |p[1..]| - 1 ensures Up(nb, p[1..][i], p[1..][i + 1]) {
        assert Up(nb, p[i + 1], p[i + 1 + 1]);
      }
      SwitchPathBound(nb, sw, dst, p[1], t, p[1..]);
      OneFarther(nb, sw, dst, p[1], s);
    }
  }

  lemma {:induction false} TightPathForwards(nb: Neighbours, sw: set<Node>, n: nat, nh: Table, dst: Node, tor: Node,
                                             s: Node, p: seq<Node>)
    requires Symmetric(nb) && Exact(nb, sw, n, nh) && dst < n && dst !in sw && HomedAt(nb, sw, dst, tor)
    requires SwitchPath(nb, sw, s, tor, p) && Reachable(nb, sw, dst, s) && |p| == Dist(nb, sw, dst, s)
    ensures Forwards(nh, dst, p)
    decreases |p|
  {
    if |p| > 1 {
      assert Up(nb, p[0], p[0 + 1]);
      forall i | 0 <= i < |p[1..]| - 1 ensures Up(nb, p[1..][i], p[1..][i + 1]) {
        assert Up(nb, p[i + 1], p[i + 1 + 1]);
      }
      TorAtOne(nb, sw, dst, tor);
      SwitchPathBound(nb, sw, dst, p[1], tor, p[1..]);
      OneFarther(nb, sw, dst, p[1], s);
      TightPathForwards(nb, sw, n, nh, dst, tor, p[1], p[1..]);
      HopIsNextHop(nb, sw, n, nh, dst, s, p[1]);
      TripTail(nh, dst, p);
    }
  }

  lemma TorAtOne(nb: Neighbours, sw: set<Node>, dst: Node, tor: Node)
    requires Symmetric(nb) && dst !in sw && HomedAt(nb, sw, dst, tor)
    ensures Reachable(nb, sw, dst, tor) && Dist(nb, sw, dst, tor) == 1
  {
    HostAtZero(nb, sw, dst);
    OneFarther(nb, sw, dst, dst, tor);
    OnlyTorAtOne(nb, sw, dst, tor, tor);
  }

  lemma {:induction false} TripExists(nb: Neighbours, sw: set<Node>, n: nat, nh: Table, dst: Node, v: Node) returns (r: seq<Node>)
    requires Exact(nb, sw, n, nh) && dst < n && dst !in sw && Reachable(nb, sw, dst, v) && Dist(nb, sw, dst, v) > 0
    ensures Forwards(nh, dst, r) && r[0] == v && |r| == Dist(nb, sw, dst, v)
    decreases Dist(nb, sw, dst, v)
  {
    r := [v];
    if Dist(nb, sw, dst, v) > 1 {
      HostAtZero(nb, sw, dst);
      var u := OneNearer(nb, sw, dst, v);
      var q := TripExists(nb, sw, n, nh, dst, u);
      r := [v] + q;
      assert r[1..] == q;
      HopIsNextHop(nb, sw, n, nh, dst, v, u);
      TripTail(nh, dst, r);
    }
  }

  lemma TripIsSwitchPath(nb: Neighbours, sw: set<Node>, n: nat, nh: Table, dst: Node, tor: Node, s: Node, p: seq<Node>)
    requires Symmetric(nb) && Exact(nb, sw, n, nh) && dst < n && dst !in sw && HomedAt(nb, sw, dst, tor)
    requires s in sw && Reachable(nb, sw, dst, s)
    requires Forwards(nh, dst, p) && p[0] == s && |p| == Dist(nb, sw, dst, s)
    ensures SwitchPath(nb, sw, s, tor, p)
  {
    HostAtZero(nb, sw, dst);
    CountsDown(nb, sw, n, nh, dst, p, |p| - 1);
    OnlyTorAtOne(nb, sw, dst, tor, p[|p| - 1]);
    forall i | 0 <= i < |p| ensures p[i] in sw {
      if i > 0 {
        StepIsUp(nb, sw, n, nh, dst, p, i - 1);
        CountsDown(nb, sw, n, nh, dst, p, i);
      }
    }
    forall i | 0 <= i < |p| - 1 ensures Up(nb, p[i], p[i + 1]) {
      StepIsUp(nb, sw, n, nh, dst, p, i);
    }
  }

  /** The next hops for a host under `tor` lead from a switch along exactly the shortest paths to `tor`,
      and all of these have one length, which is the distance to the host. */
  lemma TripsAreShortestPaths(nb: Neighbours, sw: set<Node>, n: nat, nh: Table, dst: Node, tor: Node, s: Node, p: seq<Node>)
    requires Symmetric(nb) && Exact(nb, sw, n, nh) && dst < n && dst !in sw && HomedAt(nb, sw, dst, tor)
    requires s in sw && Reachable(nb, sw, dst, s)
    ensures |p| == Dist(nb, sw, dst, s) && p[0] == s && Forwards(nh, dst, p) <==> Shortest(nb, sw, s, tor, p)
    ensures Shortest(nb, sw, s, tor, p) ==> |p| == Dist(nb, sw, dst, s)
  {
    var d := Dist(nb, sw, dst, s);
    TorAtOne(nb, sw, dst, tor);
    if d == 0 { OnlyHostAtZero(nb, sw, dst, s); }
    forall q | SwitchPath(nb, sw, s, tor, q) ensures |q| >= d {
      SwitchPathBound(nb, sw, dst, s, tor, q);
    }
    if |p| == d && p[0] == s && Forwards(nh, dst, p) {
      TripIsSwitchPath(nb, sw, n, nh, dst, tor, s, p);
    }
    if Shortest(nb, sw, s, tor, p) {
      var r := TripExists(nb, sw, n, nh, dst, s);
      TripIsSwitchPath(nb, sw, n, nh, dst, tor, s, r);
      TightPathForwards(nb, sw, n, nh, dst, tor, s, p);
    }
  }

  /** Hosts under one ToR are equally far from every switch. */
  lemma SameTorSameDistance(nb: Neighbours, sw: set<Node>, n: nat, nh: Table, dst: Node, dst': Node, tor: Node, s: Node)
    requires Symmetric(nb) && Exact(nb, sw, n, nh)
    requires dst < n && dst !in sw && HomedAt(nb, sw, dst, tor) && dst' < n && dst' !in sw && HomedAt(nb, sw, dst', tor)
    requires s in sw && Reachable(nb, sw, dst, s) && Reachable(nb, sw, dst', s)
    ensures Dist(nb, sw, dst, s) == Dist(nb, sw, dst', s)
  {
    TorAtOne(nb, sw, dst, tor);
    if Dist(nb, sw, dst, s) == 0 { OnlyHostAtZero(nb, sw, dst, s); }
    var r := TripExists(nb, sw, n, nh, dst, s);
    TripsAreShortestPaths(nb, sw, n, nh, dst, tor, s, r);
    TripsAreShortestPaths(nb, sw, n, nh, dst', tor, s, r);
  }

  /** A shortest path whose ports the loops pack, and the id they make. */
  ghost predicate PathWithId(nb: Neighbours, sw: set<Node>, s: Node, t: Node, id: nat, p: seq<Node>) {
    Shortest(nb, sw, s, t, p) && 3 <= |p| <= 5 && PackId(PathPorts(nb, p)) == id
  }

  /** The ids found for a destination host are exactly those of the shortest paths to its ToR. */
  lemma FoundAreShortestPaths(nb: Neighbours, sw: set<Node>, n: nat, nh: Table, dst: Node, tor: Node, s: Node, id: nat)
    requires Symmetric(nb) && Exact(nb, sw, n, nh) && dst < n && dst !in sw && HomedAt(nb, sw, dst, tor)
    requires s in sw && Reachable(nb, sw, dst, s)
    ensures id in Found(nb, nh, dst, s, Dist(nb, sw, dst, s), 5, []) <==> exists p :: PathWithId(nb, sw, s, tor, id, p)
  {
    var d := Dist(nb, sw, dst, s);
    InFound(nb, nh, dst, s, d, id);
    hide *;
    if id in Found(nb, nh, dst, s, d, 5, []) {
      var r :| r in PortSeqs(nb, nh, dst, s, d - 1) && id == PackId(r);
      var p := TripFound(nb, sw, n, nh, dst, tor, s, r);
    }
    if p :| PathWithId(nb, sw, s, tor, id, p) {
      PathFound(nb, sw, n, nh, dst, tor, s, id, p);
    }
  }

  lemma TripFound(nb: Neighbours, sw: set<Node>, n: nat, nh: Table, dst: Node, tor: Node, s: Node, r: seq<nat>) returns (p: seq<Node>)
    requires Symmetric(nb) && Exact(nb, sw, n, nh) && dst < n && dst !in sw && HomedAt(nb, sw, dst, tor)
    requires s in sw && Reachable(nb, sw, dst, s) && 3 <= Dist(nb, sw, dst, s) <= 5
    requires r in PortSeqs(nb, nh, dst, s, Dist(nb, sw, dst, s) - 1)
    ensures PathWithId(nb, sw, s, tor, PackId(r), p)
  {
    var d := Dist(nb, sw, dst, s);
    hide PortSeqs, PackId, Shortest, Forwards, PathPorts, Exact, Symmetric, HomedAt, Reachable;
    PortSeqsAreTrips(nb, nh, dst, s, d - 1, r);
    p :| IsTrip(nb, nh, dst, s, d - 1, r, p);
    TripsAreShortestPaths(nb, sw, n, nh, dst, tor, s, p);
  }

  lemma PathFound(nb: Neighbours, sw: set<Node>, n: nat, nh: Table, dst: Node, tor: Node, s: Node, id: nat, p: seq<Node>)
    requires Symmetric(nb) && Exact(nb, sw, n, nh) && dst < n && dst !in sw && HomedAt(nb, sw, dst, tor)
    requires s in sw && Reachable(nb, sw, dst, s) && PathWithId(nb, sw, s, tor, id, p)
    ensures 3 <= Dist(nb, sw, dst, s) <= 5
    ensures PathPorts(nb, p) in PortSeqs(nb, nh, dst, s, Dist(nb, sw, dst, s) - 1) && PackId(PathPorts(nb, p)) == id
  {
    var d := Dist(nb, sw, dst, s);
    hide PortSeqs, PackId, Shortest, Forwards, PathPorts, Exact, Symmetric, HomedAt, Reachable;
    TripsAreShortestPaths(nb, sw, n, nh, dst, tor, s, p);
    assert IsTrip(nb, nh, dst, s, d - 1, PathPorts(nb, p), p);
    PortSeqsAreTrips(nb, nh, dst, s, d - 1, PathPorts(nb, p));
  }

  lemma InFound(nb: Neighbours, nh: Table, dst: Node, s: Node, d: nat, id: nat)
    ensures id in Found(nb, nh, dst, s, d, 5, []) <==> 3 <= d <= 5 && exists r :: r in PortSeqs(nb, nh, dst, s, d - 1) && id == PackId(r)
  {
    hide PortSeqs, PackId;
    forall r: seq<nat> ensures [] + r == r {
    }
  }

  // ----- ids tell paths apart

  ghost predicate DistinctPorts(nb: Neighbours) {
    && (forall a, b :: Up(nb, a, b) ==> 1 <= nb[a][b].idx <= 255)
    && (forall a, b, c :: Up(nb, a, b) && Up(nb, a, c) && nb[a][b].idx == nb[a][c].idx ==> b == c)
  }

  lemma {:induction false} PortsTellPaths(nb: Neighbours, sw: set<Node>, s: Node, t: Node, p: seq<Node>, t': Node, q: seq<Node>)
    requires DistinctPorts(nb) && SwitchPath(nb, sw, s, t, p) && SwitchPath(nb, sw, s, t', q)
    requires PathPorts(nb, p) == PathPorts(nb, q)
    ensures p == q
    decreases |p|
  {
    assert |p| == |q|;
    if |p| > 1 {
      assert Up(nb, p[0], p[0 + 1]) && Up(nb, q[0], q[0 + 1]);
      assert PathPorts(nb, p)[0] == Port(nb, s, p[1]) && PathPorts(nb, q)[0] == Port(nb, s, q[1]);
      assert PathPorts(nb, p)[1..] == PathPorts(nb, p[1..]) && PathPorts(nb, q)[1..] == PathPorts(nb, q[1..]);
      PathTail(nb, sw, s, t, p);
      PathTail(nb, sw, s, t', q);
      PortsTellPaths(nb, sw, p[1], t, p[1..], t', q[1..]);
      assert p == [s] + p[1..] && q == [s] + q[1..];
    }
  }

  lemma PathTail(nb: Neighbours, sw: set<Node>, s: Node, t: Node, p: seq<Node>)
    requires SwitchPath(nb, sw, s, t, p) && |p| > 1
    ensures SwitchPath(nb, sw, p[1], t, p[1..])
  {
    forall i | 0 <= i < |p[1..]| - 1 ensures Up(nb, p[1..][i], p[1..][i + 1]) {
      assert Up(nb, p[i + 1], p[i + 1 + 1]);
    }
  }

  lemma {:induction false} PortsInRange(nb: Neighbours, sw: set<Node>, s: Node, t: Node, p: seq<Node>)
    requires DistinctPorts(nb) && SwitchPath(nb, sw, s, t, p)
    ensures forall i :: 0 <= i < |p| - 1 ==> 1 <= PathPorts(nb, p)[i] <= 255
    decreases |p|
  {
    if |p| > 1 {
      assert Up(nb, p[0], p[0 + 1]);
      PathTail(nb, sw, s, t, p);
      PortsInRange(nb, sw, p[1], t, p[1..]);
    }
  }

  /** When interfaces are numbered 1..255 and apart, different paths from a ToR have different ids. */
  lemma IdsTellPaths(nb: Neighbours, sw: set<Node>, s: Node, t: Node, p: seq<Node>, t': Node, q: seq<Node>, id: nat)
    requires DistinctPorts(nb) && PathWithId(nb, sw, s, t, id, p) && PathWithId(nb, sw, s, t', id, q)
    ensures p == q && t == t'
  {
    PortsInRange(nb, sw, s, t, p);
    PortsInRange(nb, sw, s, t', q);
    PackIsInjective(PathPorts(nb, p), PathPorts(nb, q));
    PortsTellPaths(nb, sw, s, t, p, t', q);
  }

  // ----- all pairs

  /** Every host is behind one switch, which `home` names. */
  ghost predicate Homes(nb: Neighbours, sw: set<Node>, n: nat, home: map<Node, Node>) {
    forall h: Node :: h < n && h !in sw ==> h in home && HomedAt(nb, sw, h, home[h])
  }

  /** A ToR `s` and a host `h` under another ToR that `s` reaches. */
  ghost predicate IsPair(nb: Neighbours, sw: set<Node>, n: nat, home: map<Node, Node>, tors: set<Node>, s: Node, h: Node) {
    s in tors && h < n && h !in sw && h in home && home[h] != s && Reachable(nb, sw, h, s)
  }

  ghost predicate Handled(home: map<Node, Node>, pairs: set<(Node, Node)>, k: Key) {
    exists h: Node :: (k.0, h) in pairs && h in home && home[h] == k.1
  }

  /** The entry of a pair of ToRs: the ids of all shortest paths between them that the loops can pack, and
      4, 6 or 8 times the delay of one hop if these have two, three or four hops. */
  ghost predicate Complete(nb: Neighbours, sw: set<Node>, oneHopDelay: nat, k: Key, table: map<Key, set<nat>>, rtt: map<Key, nat>) {
    && AllIds(nb, sw, k, Known(table, k))
    && (k in rtt <==> Known(table, k) != {})
    && (k in rtt ==> forall p :: Shortest(nb, sw, k.0, k.1, p) ==> BaseTime(oneHopDelay, |p| - 1, rtt[k]))
  }

  predicate BaseTime(oneHopDelay: nat, hops: int, rtt: nat) {
    || (hops == 2 && rtt == 4 * oneHopDelay)
    || (hops == 3 && rtt == 6 * oneHopDelay)
    || (hops == 4 && rtt == 8 * oneHopDelay)
  }

  /** If every link takes the delay of one hop, that is the time along any of the shortest paths and back. */
  lemma BaseTimeIsRoundTrip(nb: Neighbours, sw: set<Node>, oneHopDelay: nat, k: Key, table: map<Key, set<nat>>, rtt: map<Key, nat>, p: seq<Node>)
    requires Complete(nb, sw, oneHopDelay, k, table, rtt) && k in rtt && Shortest(nb, sw, k.0, k.1, p)
    requires forall a, b :: Up(nb, a, b) ==> nb[a][b].delay == oneHopDelay
    ensures IsPath(nb, sw, p) && rtt[k] == 2 * PathDelay(nb, sw, p)
  {
    assert IsPath(nb, sw, p);
    hide AllIds;
    UniformDelay(nb, sw, oneHopDelay, p);
    assert BaseTime(oneHopDelay, |p| - 1, rtt[k]);
  }

  lemma {:induction false} UniformDelay(nb: Neighbours, sw: set<Node>, d: nat, p: seq<Node>)
    requires IsPath(nb, sw, p) && forall a, b :: Up(nb, a, b) ==> nb[a][b].delay == d
    ensures PathDelay(nb, sw, p) == (|p| - 1) * d
    decreases |p|
  {
    if |p| > 1 {
      PathInit(nb, sw, p[0], p[|p| - 1], p);
      UniformDelay(nb, sw, d, p[..|p| - 1]);
      assert (|p| - 1) * d == (|p| - 2) * d + d;
    }
  }

  /** A switch two links from a host is cabled directly to the host's ToR. */
  lemma CabledAtTwo(nb: Neighbours, sw: set<Node>, dst: Node, tor: Node, s: Node)
    requires Symmetric(nb) && dst !in sw && HomedAt(nb, sw, dst, tor) && s in sw && s != tor && Reachable(nb, sw, dst, s)
    ensures Dist(nb, sw, dst, s) == 2 <==> Up(nb, s, tor)
  {
    TorAtOne(nb, sw, dst, tor);
    NotTooNear(nb, sw, dst, tor, s);
    if Dist(nb, sw, dst, s) == 2 {
      var u := OneNearer(nb, sw, dst, s);
      OnlyTorAtOne(nb, sw, dst, tor, u);
    }
    if Up(nb, s, tor) {
      assert Up(nb, tor, s);
      OneFarther(nb, sw, dst, tor, s);
    }
  }

  /** Two ToRs within reach have ids, and a base round-trip time, unless they are cabled to each other directly. */
  lemma CabledHaveNoIds(nb: Neighbours, sw: set<Node>, n: nat, nh: Table, home: map<Node, Node>, tors: set<Node>, s: Node, h: Node,
                        oneHopDelay: nat, table: map<Key, set<nat>>, rtt: map<Key, nat>)
    requires Symmetric(nb) && Exact(nb, sw, n, nh) && Homes(nb, sw, n, home) && tors <= sw
    requires IsPair(nb, sw, n, home, tors, s, h) && Dist(nb, sw, h, s) <= 5
    requires Complete(nb, sw, oneHopDelay, (s, home[h]), table, rtt)
    ensures Known(table, (s, home[h])) == {} <==> Up(nb, s, home[h])
    ensures (s, home[h]) in rtt <==> !Up(nb, s, home[h])
  {
    var t, d := home[h], Dist(nb, sw, h, s);
    CabledAtTwo(nb, sw, h, t, s);
    NotTooNear(nb, sw, h, t, s);
    var p := TripExists(nb, sw, n, nh, h, s);
    TripsAreShortestPaths(nb, sw, n, nh, h, t, s, p);
    hide Exact, Symmetric, Homes, Shortest, Forwards, Reachable, PathPorts, PackId;
    assert AllIds(nb, sw, (s, t), Known(table, (s, t)));
    forall q | Shortest(nb, sw, s, t, q) ensures |q| == d {
      TripsAreShortestPaths(nb, sw, n, nh, h, t, s, q);
    }
    if d >= 3 {
      assert PathWithId(nb, sw, s, t, PackId(PathPorts(nb, p)), p);
      assert PackId(PathPorts(nb, p)) in Known(table, (s, t));
    }
  }

  ghost predicate AllIds(nb: Neighbours, sw: set<Node>, k: Key, ids: set<nat>) {
    forall id: nat :: id in ids <==> exists p :: PathWithId(nb, sw, k.0, k.1, id, p)
  }

  ghost predicate Holds(nb: Neighbours, sw: set<Node>, home: map<Node, Node>, oneHopDelay: nat, pairs: set<(Node, Node)>,
                        table: map<Key, set<nat>>, rtt: map<Key, nat>) {
    forall k: Key :: if Handled(home, pairs, k) then Complete(nb, sw, oneHopDelay, k, table, rtt)
                     else Known(table, k) == {} && k !in rtt
  }

  lemma OnePairMore(nb: Neighbours, sw: set<Node>, n: nat, nh: Table, home: map<Node, Node>, oneHopDelay: nat,
                    pairs: set<(Node, Node)>, s: Node, h: Node,
                    t0: map<Key, set<nat>>, r0: map<Key, nat>, t: map<Key, set<nat>>, r: map<Key, nat>)
    requires Symmetric(nb) && Exact(nb, sw, n, nh) && Homes(nb, sw, n, home) && h < n && h !in sw
    requires s in sw && home[h] != s && Reachable(nb, sw, h, s)
    requires Holds(nb, sw, home, oneHopDelay, pairs, t0, r0)
    requires Dist(nb, sw, h, s) > 0
    requires Inserted(t0, r0, (s, home[h]), Found(nb, nh, h, s, Dist(nb, sw, h, s), 5, []),
                      BaseRtt(oneHopDelay, Dist(nb, sw, h, s) - 1), t, r)
    ensures Holds(nb, sw, home, oneHopDelay, pairs + {(s, h)}, t, r)
  {
    var key: Key, d := (s, home[h]), Dist(nb, sw, h, s);
    var found := Found(nb, nh, h, s, d, 5, []);
    assert AllIds(nb, sw, key, found) by {
      forall id: nat ensures id in found <==> exists p :: PathWithId(nb, sw, s, home[h], id, p) {
        FoundAreShortestPaths(nb, sw, n, nh, h, home[h], s, id);
      }
    }
    forall p | Shortest(nb, sw, s, home[h], p) ensures |p| == d {
      TripsAreShortestPaths(nb, sw, n, nh, h, home[h], s, p);
    }
    EntryComplete(nb, sw, oneHopDelay, key, d, found, t0, r0, t, r, Handled(home, pairs, key));
    hide *;
    HandledNow(home, pairs, s, h);
    forall k: Key
      ensures if Handled(home, pairs + {(s, h)}, k) then Complete(nb, sw, oneHopDelay, k, t, r)
              else Known(t, k) == {} && k !in r
    {
      if k != key {
        HandledOther(home, pairs, s, h, k);
        OtherEntry(nb, sw, home, oneHopDelay, pairs, k, key, found, BaseRtt(oneHopDelay, d - 1), t0, r0, t, r);
      }
    }
    HoldsByKey(nb, sw, home, oneHopDelay, pairs + {(s, h)}, t, r);
  }

  lemma HandledOther(home: map<Node, Node>, pairs: set<(Node, Node)>, s: Node, h: Node, k: Key)
    requires h in home && k != (s, home[h])
    ensures Handled(home, pairs + {(s, h)}, k) <==> Handled(home, pairs, k)
  {
    if Handled(home, pairs + {(s, h)}, k) {
      var g: Node :| (k.0, g) in pairs + {(s, h)} && g in home && home[g] == k.1;
      assert (k.0, g) in pairs;
    }
    if Handled(home, pairs, k) {
      var g: Node :| (k.0, g) in pairs && g in home && home[g] == k.1;
      assert (k.0, g) in pairs + {(s, h)};
    }
  }

  lemma HandledNow(home: map<Node, Node>, pairs: set<(Node, Node)>, s: Node, h: Node)
    requires h in home
    ensures Handled(home, pairs + {(s, h)}, (s, home[h]))
  {
    assert (s, h) in pairs + {(s, h)};
  }

  lemma HoldsByKey(nb: Neighbours, sw: set<Node>, home: map<Node, Node>, oneHopDelay: nat, pairs: set<(Node, Node)>,
                   t: map<Key, set<nat>>, r: map<Key, nat>)
    requires forall k: Key :: if Handled(home, pairs, k) then Complete(nb, sw, oneHopDelay, k, t, r)
                              else Known(t, k) == {} && k !in r
    ensures Holds(nb, sw, home, oneHopDelay, pairs, t, r)
  {
  }

  lemma OtherEntry(nb: Neighbours, sw: set<Node>, home: map<Node, Node>, oneHopDelay: nat, pairs: set<(Node, Node)>,
                   k: Key, key: Key, found: set<nat>, rtt: nat,
                   t0: map<Key, set<nat>>, r0: map<Key, nat>, t: map<Key, set<nat>>, r: map<Key, nat>)
    requires Holds(nb, sw, home, oneHopDelay, pairs, t0, r0) && Inserted(t0, r0, key, found, rtt, t, r) && k != key
    ensures if Handled(home, pairs, k) then Complete(nb, sw, oneHopDelay, k, t, r) else Known(t, k) == {} && k !in r
  {
    assert Known(t, k) == Known(t0, k);
  }

  lemma EntryComplete(nb: Neighbours, sw: set<Node>, oneHopDelay: nat, key: Key, d: nat, found: set<nat>,
                      t0: map<Key, set<nat>>, r0: map<Key, nat>, t: map<Key, set<nat>>, r: map<Key, nat>, again: bool)
    requires d > 0 && Inserted(t0, r0, key, found, BaseRtt(oneHopDelay, d - 1), t, r)
    requires AllIds(nb, sw, key, found) && forall p :: Shortest(nb, sw, key.0, key.1, p) ==> |p| == d
    requires if again then Complete(nb, sw, oneHopDelay, key, t0, r0) else Known(t0, key) == {} && key !in r0
    ensures Complete(nb, sw, oneHopDelay, key, t, r)
  {
    hide Shortest, PathPorts, PackId;
    if again {
      assert forall id: nat :: id in Known(t0, key) <==> id in found;
      assert Known(t0, key) == found;
    }
    assert Known(t, key) == found;
    if found != {} {
      var id :| id in found;
      var p :| PathWithId(nb, sw, key.0, key.1, id, p);
      assert BaseTime(oneHopDelay, d - 1, r[key]);
    }
  }

  /** The loop over the destinations of one source ToR. Keys created by merely reading `nextHop` have no next
      hops; nothing is inserted for them. */
  method ConfigureSource(lb: LoadBalancer, nb: Neighbours, nh: Table, home: map<Node, Node>, tors: set<Node>, src: Node,
                         ghost sw: set<Node>, ghost n: nat, ghost pairs0: set<(Node, Node)>)
    returns (ok: bool, ghost pairs: set<(Node, Node)>)
    requires Symmetric(nb) && Exact(nb, sw, n, nh) && Homes(nb, sw, n, home) && tors <= sw && src in tors && src in nh
    requires Holds(nb, sw, home, lb.oneHopDelay, pairs0, lb.pathTable, lb.rxToRId2BaseRTT)
    requires AllShort(nb, sw, n, home, tors, pairs0)
    modifies lb
    ensures ok ==> Holds(nb, sw, home, lb.oneHopDelay, pairs, lb.pathTable, lb.rxToRId2BaseRTT)
    ensures ok ==> AllShort(nb, sw, n, home, tors, pairs) && pairs0 <= pairs
    ensures ok ==> forall h: Node :: IsPair(nb, sw, n, home, tors, src, h) ==> (src, h) in pairs
    ensures !ok ==> exists h: Node :: IsPair(nb, sw, n, home, tors, src, h) && Dist(nb, sw, h, src) > 5
  {
    pairs := pairs0;
    var table1 := nh[src];
    forall h: Node | IsPair(nb, sw, n, home, tors, src, h) ensures h in table1 && table1[h] != [] && home[h] != src {
      PairHasHops(nb, sw, n, nh, home, tors, src, h);
    }
    hide *;
    var dsts := table1.Keys;
    while dsts != {}
      invariant dsts <= table1.Keys && pairs0 <= pairs
      invariant Holds(nb, sw, home, lb.oneHopDelay, pairs, lb.pathTable, lb.rxToRId2BaseRTT)
      invariant AllShort(nb, sw, n, home, tors, pairs)
      invariant forall h: Node :: IsPair(nb, sw, n, home, tors, src, h) && h !in dsts ==> (src, h) in pairs
    {
      var dst: Node :| dst in dsts;
      dsts := dsts - {dst};
      if table1[dst] == [] { continue; }
      DestinationFacts(nb, sw, n, nh, home, tors, src, dst);
      var swDst := home[dst];
      if src == swDst { continue; }
      ghost var t0, r0 := lb.pathTable, lb.rxToRId2BaseRTT;
      ok := lb.EnumeratePaths(nb, nh, src, dst, swDst, sw, n);
      if !ok { return; }
      OnePairMore(nb, sw, n, nh, home, lb.oneHopDelay, pairs, src, dst, t0, r0, lb.pathTable, lb.rxToRId2BaseRTT);
      OneShortMore(nb, sw, n, home, tors, pairs, src, dst);
      pairs := pairs + {(src, dst)};
    }
    ok := true;
  }

  lemma DestinationFacts(nb: Neighbours, sw: set<Node>, n: nat, nh: Table, home: map<Node, Node>, tors: set<Node>, src: Node, dst: Node)
    requires Exact(nb, sw, n, nh) && Homes(nb, sw, n, home) && tors <= sw && src in tors
    requires src in nh && dst in nh[src] && nh[src][dst] != []
    ensures dst < n && dst !in sw && dst in home && HomedAt(nb, sw, dst, home[dst])
    ensures src in sw && Reachable(nb, sw, dst, src) && Dist(nb, sw, dst, src) > 0
    ensures home[dst] != src ==> IsPair(nb, sw, n, home, tors, src, dst)
  {
    HopsMeanReachable(nb, sw, n, nh, src, dst);
    AtLeastOne(nb, sw, dst, src);
    hide Exact, Reachable, HomedAt;
  }

  lemma OneShortMore(nb: Neighbours, sw: set<Node>, n: nat, home: map<Node, Node>, tors: set<Node>, pairs: set<(Node, Node)>, s: Node, h: Node)
    requires AllShort(nb, sw, n, home, tors, pairs) && IsPair(nb, sw, n, home, tors, s, h) && Dist(nb, sw, h, s) <= 5
    ensures AllShort(nb, sw, n, home, tors, pairs + {(s, h)})
  {
    hide IsPair;
  }

  /** The loop over every ToR. */
  method ConfigureLoadBalancer(lb: LoadBalancer, nb: Neighbours, nh: Table, home: map<Node, Node>, tors: set<Node>,
                               ghost sw: set<Node>, ghost n: nat)
    returns (ok: bool)
    requires Symmetric(nb) && Exact(nb, sw, n, nh) && Homes(nb, sw, n, home) && tors <= sw
    requires lb.pathTable == map[] && lb.rxToRId2BaseRTT == map[]
    modifies lb
    ensures ok <==> forall s: Node, h: Node :: IsPair(nb, sw, n, home, tors, s, h) ==> Dist(nb, sw, h, s) <= 5
    ensures ok ==> forall k: Key ::
      if ToRPair(nb, sw, n, home, tors, k) then Complete(nb, sw, lb.oneHopDelay, k, lb.pathTable, lb.rxToRId2BaseRTT)
      else Known(lb.pathTable, k) == {} && k !in lb.rxToRId2BaseRTT
  {
    ghost var pairs: set<(Node, Node)> := {};
    forall s: Node, h: Node | IsPair(nb, sw, n, home, tors, s, h) ensures s in nh {
      PairHasHops(nb, sw, n, nh, home, tors, s, h);
    }
    NothingYet(nb, sw, home, lb.oneHopDelay);
    assert AllShort(nb, sw, n, home, tors, pairs);
    assert forall s: Node, h: Node :: IsPair(nb, sw, n, home, tors, s, h) ==> s in tors;
    hide *;
    var srcs := nh.Keys;
    while srcs != {}
      invariant srcs <= nh.Keys
      invariant Holds(nb, sw, home, lb.oneHopDelay, pairs, lb.pathTable, lb.rxToRId2BaseRTT)
      invariant AllShort(nb, sw, n, home, tors, pairs)
      invariant forall s: Node, h: Node :: IsPair(nb, sw, n, home, tors, s, h) && s !in srcs ==> (s, h) in pairs
    {
      var src: Node :| src in srcs;
      srcs := srcs - {src};
      if src in tors {
        ok, pairs := ConfigureSource(lb, nb, nh, home, tors, src, sw, n, pairs);
        if !ok { return; }
      }
    }
    AllPairsHold(nb, sw, n, home, tors, lb.oneHopDelay, pairs, lb.pathTable, lb.rxToRId2BaseRTT);
    return true;
  }

  lemma AllPairsHold(nb: Neighbours, sw: set<Node>, n: nat, home: map<Node, Node>, tors: set<Node>, oneHopDelay: nat,
                     pairs: set<(Node, Node)>, t: map<Key, set<nat>>, r: map<Key, nat>)
    requires Holds(nb, sw, home, oneHopDelay, pairs, t, r) && AllShort(nb, sw, n, home, tors, pairs)
    requires forall s: Node, h: Node :: IsPair(nb, sw, n, home, tors, s, h) ==> (s, h) in pairs
    ensures forall k: Key :: if ToRPair(nb, sw, n, home, tors, k) then Complete(nb, sw, oneHopDelay, k, t, r)
                             else Known(t, k) == {} && k !in r
  {
    forall k: Key ensures ToRPair(nb, sw, n, home, tors, k) <==> Handled(home, pairs, k) {
      if ToRPair(nb, sw, n, home, tors, k) {
        var h: Node :| IsPair(nb, sw, n, home, tors, k.0, h) && home[h] == k.1;
        assert (k.0, h) in pairs;
      }
    }
  }

  lemma NothingYet(nb: Neighbours, sw: set<Node>, home: map<Node, Node>, oneHopDelay: nat)
    ensures Holds(nb, sw, home, oneHopDelay, {}, map[], map[])
  {
  }

  lemma AtLeastOne(nb: Neighbours, sw: set<Node>, host: Node, s: Node)
    requires Reachable(nb, sw, host, s) && s != host
    ensures Dist(nb, sw, host, s) > 0
  {
    if Dist(nb, sw, host, s) == 0 { OnlyHostAtZero(nb, sw, host, s); }
  }

  lemma HopsMeanReachable(nb: Neighbours, sw: set<Node>, n: nat, nh: Table, v: Node, h: Node)
    requires Exact(nb, sw, n, nh) && Hops(nh, v, h) != []
    ensures h < n && h !in sw && Reachable(nb, sw, h, v)
  {
    assert h < n && h !in sw;
    assert ListsNextHops(nb, sw, h, v, Hops(nh, v, h));
    assert Hops(nh, v, h)[0] in Hops(nh, v, h);
  }

  lemma PairHasHops(nb: Neighbours, sw: set<Node>, n: nat, nh: Table, home: map<Node, Node>, tors: set<Node>, s: Node, h: Node)
    requires Exact(nb, sw, n, nh) && tors <= sw && IsPair(nb, sw, n, home, tors, s, h)
    ensures Hops(nh, s, h) != []
  {
    AtLeastOne(nb, sw, h, s);
    HopsNearer(nb, sw, n, nh, h, s);
  }

  /** Two different ToRs, the second with a host that the first reaches. */
  ghost predicate ToRPair(nb: Neighbours, sw: set<Node>, n: nat, home: map<Node, Node>, tors: set<Node>, k: Key) {
    exists h: Node :: IsPair(nb, sw, n, home, tors, k.0, h) && home[h] == k.1
  }

  ghost predicate AllShort(nb: Neighbours, sw: set<Node>, n: nat, home: map<Node, Node>, tors: set<Node>, pairs: set<(Node, Node)>) {
    forall s: Node, h: Node {:trigger (s, h) in pairs} :: (s, h) in pairs ==>
      IsPair(nb, sw, n, home, tors, s, h) && Dist(nb, sw, h, s) <= 5
  }
}
