/** The two directions of a pair: a path back costs what the path there does, and so what two hosts record
    of each other agrees wherever all shortest paths between them cost alike. */
module Symmetry {
  import opened Options
  import opened Graph
  import opened Costs
  import opened Routing
  import opened TopologyGen
  import opened Wiring
  import opened Topology
  import opened Fabric
  import opened Rtt
  import opened FabricRtt

  ghost predicate SameBack(nb: Neighbours, a: Node, b: Node)
    requires Up(nb, a, b)
  {
    Up(nb, b, a) && nb[b][a].delay == nb[a][b].delay && nb[b][a].bw == nb[a][b].bw
  }

  /** Every link is up in both directions, with the same delay and rate. */
  ghost predicate SameBothWays(nb: Neighbours) {
    forall a, b :: Up(nb, a, b) ==> SameBack(nb, a, b)
  }

  // ----- reversed paths

  ghost function Reversed(p: seq<Node>): (r: seq<Node>)
    ensures |r| == |p| && forall i :: 0 <= i < |p| ==> r[i] == p[|p| - 1 - i]
  {
    if p == [] then [] else [p[|p| - 1]] + Reversed(p[..|p| - 1])
  }

  lemma ReversedPath(nb: Neighbours, sw: set<Node>, a: Node, b: Node, p: seq<Node>)
    requires Symmetric(nb) && PathTo(nb, sw, a, b, p)
    ensures PathTo(nb, sw, b, a, Reversed(p))
  {
    var r, n := Reversed(p), |p|;
    forall i | 0 <= i < n - 1 ensures Up(nb, r[i], r[i + 1]) {
      var j := n - 2 - i;
      assert Up(nb, p[j], p[j + 1]) && r[i] == p[j + 1] && r[i + 1] == p[j];
    }
  }

  /** Distances are the same in both directions. */
  lemma DistanceBack(nb: Neighbours, sw: set<Node>, a: Node, b: Node)
    requires Symmetric(nb) && Reachable(nb, sw, a, b)
    ensures Reachable(nb, sw, b, a) && Dist(nb, sw, b, a) == Dist(nb, sw, a, b)
  {
    var p :| PathTo(nb, sw, a, b, p) && |p| == Dist(nb, sw, a, b) + 1;
    ReversedPath(nb, sw, a, b, p);
    var q :| PathTo(nb, sw, b, a, q) && |q| == Dist(nb, sw, b, a) + 1;
    ReversedPath(nb, sw, b, a, q);
  }

  lemma PathTail(nb: Neighbours, sw: set<Node>, p: seq<Node>)
    requires IsPath(nb, sw, p) && |p| > 1
    ensures Up(nb, p[0], p[1]) && IsPath(nb, sw, p[1..])
  {
    forall i | 0 <= i < |p| - 2 ensures Up(nb, p[1..][i], p[1..][i + 1]) {
      assert Up(nb, p[i + 1], p[i + 1 + 1]);
    }
    assert Up(nb, p[0], p[0 + 1]);
  }

  /** Costs add up from the front as they do from the back. */
  lemma {:induction false} CostsFromFront(nb: Neighbours, sw: set<Node>, payload: nat, p: seq<Node>)
    requires PositiveRates(nb) && IsPath(nb, sw, p) && |p| > 1
    ensures Up(nb, p[0], p[1]) && IsPath(nb, sw, p[1..])
    ensures PathDelay(nb, sw, p) == LinkDelay(nb, p[0], p[1]) + PathDelay(nb, sw, p[1..])
    ensures PathTx(nb, sw, payload, p) == LinkTx(nb, payload, p[0], p[1]) + PathTx(nb, sw, payload, p[1..])
    ensures PathBw(nb, sw, p) == Min(nb[p[0]][p[1]].bw, PathBw(nb, sw, p[1..]))
    decreases |p|
  {
    var m := |p| - 1;
    PathTail(nb, sw, p);
    PathInit(nb, sw, p[0], p[m], p);
    if m > 1 {
      CostsFromFront(nb, sw, payload, p[..m]);
      assert p[..m][1..] == p[1..][..m - 1];
    }
  }

  /** What a path costs in one direction it costs in the other. */
  lemma {:induction false} CostsBack(nb: Neighbours, sw: set<Node>, payload: nat, p: seq<Node>)
    requires PositiveRates(nb) && SameBothWays(nb) && IsPath(nb, sw, p)
    ensures IsPath(nb, sw, Reversed(p))
    ensures PathDelay(nb, sw, Reversed(p)) == PathDelay(nb, sw, p)
    ensures PathTx(nb, sw, payload, Reversed(p)) == PathTx(nb, sw, payload, p)
    ensures PathBw(nb, sw, Reversed(p)) == PathBw(nb, sw, p)
    decreases |p|
  {
    var r, m := Reversed(p), |p| - 1;
    ReversedPath(nb, sw, p[0], p[m], p);
    if m > 0 {
      PathInit(nb, sw, p[0], p[m], p);
      CostsBack(nb, sw, payload, p[..m]);
      assert r[1..] == Reversed(p[..m]);
      CostsFromFront(nb, sw, payload, r);
      assert SameBack(nb, p[m - 1], p[m]);
    }
  }

  // ----- recorded costs

  ghost predicate CostTheSame(nb: Neighbours, sw: set<Node>, payload: nat, p: seq<Node>, q: seq<Node>)
    requires PositiveRates(nb) && IsPath(nb, sw, p) && IsPath(nb, sw, q)
  {
    && PathDelay(nb, sw, p) % U64 == PathDelay(nb, sw, q) % U64
    && PathTx(nb, sw, payload, p) % U64 == PathTx(nb, sw, payload, q) % U64
    && PathBw(nb, sw, p) == PathBw(nb, sw, q)
  }

  ghost predicate Shortest(nb: Neighbours, sw: set<Node>, a: Node, b: Node, p: seq<Node>) {
    PathTo(nb, sw, a, b, p) && |p| == Dist(nb, sw, a, b) + 1
  }

  /** All shortest paths between the two cost alike, in 64 bits. */
  ghost predicate CostAlike(nb: Neighbours, sw: set<Node>, payload: nat, a: Node, b: Node)
    requires PositiveRates(nb)
  {
    forall p, q :: Shortest(nb, sw, a, b, p) && Shortest(nb, sw, a, b, q) ==> CostTheSame(nb, sw, payload, p, q)
  }

  ghost predicate AgreeOn(m: Metrics, a: Node, b: Node) {
    && Entry(m.delay, a, b) == Entry(m.delay, b, a)
    && Entry(m.tx, a, b) == Entry(m.tx, b, a)
    && Entry(m.bw, a, b) == Entry(m.bw, b, a)
  }

  /** Searches on a table that is the same both ways keep two hosts' records of each other in agreement if all
      shortest paths between them cost alike, and then what is computed from the records agrees too. */
  lemma RecordsAgree(nb: Neighbours, sw: set<Node>, payload: nat, n: nat, m0: Metrics, m: Metrics, a: Node, b: Node)
    requires PositiveRates(nb) && SameBothWays(nb) && AllPairsAdded(nb, sw, payload, n, m0, m) && AgreeOn(m0, a, b)
    requires a < n && b < n && a !in sw && b !in sw && CostAlike(nb, sw, payload, a, b)
    ensures AgreeOn(m, a, b) && RttOf(m, a, b) == RttOf(m, b, a) && BdpOf(m, a, b) == BdpOf(m, b, a)
  {
    BothUp(nb);
    assert PairsFor(nb, sw, payload, a, m0, m) && PairsFor(nb, sw, payload, b, m0, m);
    if Reachable(nb, sw, a, b) {
      DistanceBack(nb, sw, a, b);
      var p := RecordedPath(nb, sw, payload, a, b, m);
      var q := RecordedPath(nb, sw, payload, b, a, m);
      ReversedPath(nb, sw, b, a, q);
      CostsBack(nb, sw, payload, q);
      assert CostTheSame(nb, sw, payload, p, Reversed(q));
    } else {
      if Reachable(nb, sw, b, a) { DistanceBack(nb, sw, b, a); }
      assert SameEntry(m0, m, b, a) && SameEntry(m0, m, a, b);
    }
    hide RttOf, BdpOf;
    SameValues(m, a, b);
  }

  lemma SameValues(m: Metrics, a: Node, b: Node)
    requires AgreeOn(m, a, b)
    ensures RttOf(m, a, b) == RttOf(m, b, a) && BdpOf(m, a, b) == BdpOf(m, b, a)
  {
    hide Bdp, Add64;
  }

  lemma BothUp(nb: Neighbours)
    requires SameBothWays(nb)
    ensures Symmetric(nb)
  {
    forall a, b ensures Up(nb, a, b) <==> Up(nb, b, a) {
      assert Up(nb, a, b) ==> SameBack(nb, a, b);
      assert Up(nb, b, a) ==> SameBack(nb, b, a);
    }
  }

  /** The path whose costs a host recorded for a node. */
  lemma RecordedPath(nb: Neighbours, sw: set<Node>, payload: nat, host: Node, v: Node, m: Metrics) returns (p: seq<Node>)
    requires PositiveRates(nb) && Reachable(nb, sw, host, v) && PairCosts(nb, sw, payload, host, v, m)
    ensures Shortest(nb, sw, host, v, p)
    ensures Entry(m.delay, v, host) == Some(PathDelay(nb, sw, p) % U64)
    ensures Entry(m.tx, v, host) == Some(PathTx(nb, sw, payload, p) % U64)
    ensures Entry(m.bw, v, host) == Some(PathBw(nb, sw, p))
  {
    p :| PathTo(nb, sw, host, v, p) && |p| == Dist(nb, sw, host, v) + 1
         && CostsOf(nb, sw, payload, host, v, p, Entry(m.delay, v, host).value, Entry(m.tx, v, host).value, Entry(m.bw, v, host).value);
  }

  // ----- when the records can differ

  /** The path a search records: `p` from `a` to `b`, `q` from `b` to `a`, any shortest one for other pairs. */
  ghost function Chosen(nb: Neighbours, sw: set<Node>, a: Node, b: Node, p: seq<Node>, q: seq<Node>, h: Node, v: Node): (r: seq<Node>)
    requires Shortest(nb, sw, a, b, p) && Shortest(nb, sw, b, a, q) && Reachable(nb, sw, h, v)
    ensures Shortest(nb, sw, h, v, r)
  {
    if h == a && v == b then p else if h == b && v == a then q
    else
      assert exists r :: Shortest(nb, sw, h, v, r) by {
        var r :| PathTo(nb, sw, h, v, r) && |r| == Dist(nb, sw, h, v) + 1;
        assert Shortest(nb, sw, h, v, r);
      }
      var r :| Shortest(nb, sw, h, v, r);
      r
  }

  ghost function Hosts(sw: set<Node>, n: nat): set<Node> {
    set h: Node | h < n && h !in sw
  }

  /** Tables that the searches from `hosts` fill along the chosen paths. */
  ghost function ChosenTables(nb: Neighbours, sw: set<Node>, payload: nat, hosts: set<Node>,
                              a: Node, b: Node, p: seq<Node>, q: seq<Node>): Metrics
    requires PositiveRates(nb) && Shortest(nb, sw, a, b, p) && Shortest(nb, sw, b, a, q)
  {
    var nodes := nb.Keys + hosts;
    Metrics(
      map v: Node | v in nodes :: map h: Node | h in hosts && Reachable(nb, sw, h, v) :: PathDelay(nb, sw, Chosen(nb, sw, a, b, p, q, h, v)) % U64,
      map v: Node | v in nodes :: map h: Node | h in hosts && Reachable(nb, sw, h, v) :: PathTx(nb, sw, payload, Chosen(nb, sw, a, b, p, q, h, v)) % U64,
      map v: Node | v in nodes :: map h: Node | h in hosts && Reachable(nb, sw, h, v) :: PathBw(nb, sw, Chosen(nb, sw, a, b, p, q, h, v)))
  }

  lemma ReachedNode(nb: Neighbours, sw: set<Node>, h: Node, v: Node)
    requires Symmetric(nb) && Reachable(nb, sw, h, v)
    ensures v == h || v in nb
  {
    var p :| PathTo(nb, sw, h, v, p);
    if v != h { PathInit(nb, sw, h, v, p); }
  }

  lemma ChosenEntries(nb: Neighbours, sw: set<Node>, payload: nat, hosts: set<Node>,
                      a: Node, b: Node, p: seq<Node>, q: seq<Node>, h: Node, v: Node)
    requires PositiveRates(nb) && Shortest(nb, sw, a, b, p) && Shortest(nb, sw, b, a, q) && (v == h || v in nb || h !in hosts)
    ensures var m := ChosenTables(nb, sw, payload, hosts, a, b, p, q);
      if h in hosts && Reachable(nb, sw, h, v) then
        var r := Chosen(nb, sw, a, b, p, q, h, v);
        && Entry(m.delay, v, h) == Some(PathDelay(nb, sw, r) % U64)
        && Entry(m.tx, v, h) == Some(PathTx(nb, sw, payload, r) % U64)
        && Entry(m.bw, v, h) == Some(PathBw(nb, sw, r))
      else Entry(m.delay, v, h) == None && Entry(m.tx, v, h) == None && Entry(m.bw, v, h) == None
  {
    hide Shortest, Reachable, Chosen, PathDelay, PathTx, PathBw, PositiveRates;
  }

  lemma ChosenPair(nb: Neighbours, sw: set<Node>, payload: nat, hosts: set<Node>,
                   a: Node, b: Node, p: seq<Node>, q: seq<Node>, h: Node, v: Node)
    requires PositiveRates(nb) && Symmetric(nb) && Shortest(nb, sw, a, b, p) && Shortest(nb, sw, b, a, q)
    ensures var m0, m := Metrics(map[], map[], map[]), ChosenTables(nb, sw, payload, hosts, a, b, p, q);
      if h in hosts && Reachable(nb, sw, h, v) then PairCosts(nb, sw, payload, h, v, m) else SameEntry(m0, m, v, h)
  {
    if h in hosts && Reachable(nb, sw, h, v) {
      ReachedNode(nb, sw, h, v);
      assert PathTo(nb, sw, h, v, Chosen(nb, sw, a, b, p, q, h, v));
      ChosenEntries(nb, sw, payload, hosts, a, b, p, q, h, v);
      hide Chosen, ChosenTables, PathDelay, PathTx, PathBw, Entry, Symmetric, PositiveRates, Reachable;
    } else {
      hide Shortest, Reachable, Chosen, PathDelay, PathTx, PathBw, PositiveRates;
    }
  }

  lemma ChosenIsFresh(nb: Neighbours, sw: set<Node>, payload: nat, n: nat, a: Node, b: Node, p: seq<Node>, q: seq<Node>)
    requires PositiveRates(nb) && Symmetric(nb) && Shortest(nb, sw, a, b, p) && Shortest(nb, sw, b, a, q)
    ensures FreshPairs(nb, sw, payload, n, ChosenTables(nb, sw, payload, Hosts(sw, n), a, b, p, q))
  {
    var hosts := Hosts(sw, n);
    hide PairCosts, SameEntry, Shortest, ChosenTables, Reachable;
    forall h: Node, v: Node ensures var m0, m := Metrics(map[], map[], map[]), ChosenTables(nb, sw, payload, hosts, a, b, p, q);
      if h in hosts && Reachable(nb, sw, h, v) then PairCosts(nb, sw, payload, h, v, m) else SameEntry(m0, m, v, h)
    {
      ChosenPair(nb, sw, payload, hosts, a, b, p, q, h, v);
    }
  }

  /** The records of two hosts agree in every table filled along shortest paths, whichever they are, exactly if all
      shortest paths between them cost alike. */
  lemma AgreeIfAlike(nb: Neighbours, sw: set<Node>, payload: nat, n: nat, a: Node, b: Node)
    requires PositiveRates(nb) && SameBothWays(nb) && a < n && b < n && a !in sw && b !in sw && Reachable(nb, sw, a, b)
    ensures (forall m :: FreshPairs(nb, sw, payload, n, m) ==> AgreeOn(m, a, b)) <==> CostAlike(nb, sw, payload, a, b)
  {
    var m0 := Metrics(map[], map[], map[]);
    BothUp(nb);
    hide AgreeOn, PathDelay, PathTx, PathBw, SameBothWays, AllPairsAdded, Shortest;
    if CostAlike(nb, sw, payload, a, b) {
      forall m | FreshPairs(nb, sw, payload, n, m) ensures AgreeOn(m, a, b) {
        NothingRecorded(a, b);
        RecordsAgree(nb, sw, payload, n, m0, m, a, b);
      }
    } else {
      var p, q :| Shortest(nb, sw, a, b, p) && Shortest(nb, sw, a, b, q) && !CostTheSame(nb, sw, payload, p, q);
      ReversedShortest(nb, sw, a, b, q);
      ChosenIsFresh(nb, sw, payload, n, a, b, p, Reversed(q));
      ChosenDisagree(nb, sw, payload, n, a, b, p, q);
    }
  }

  lemma NothingRecorded(a: Node, b: Node)
    ensures AgreeOn(Metrics(map[], map[], map[]), a, b)
  {
  }

  lemma ReversedShortest(nb: Neighbours, sw: set<Node>, a: Node, b: Node, q: seq<Node>)
    requires Symmetric(nb) && Reachable(nb, sw, a, b) && Shortest(nb, sw, a, b, q)
    ensures Reachable(nb, sw, b, a) && Shortest(nb, sw, b, a, Reversed(q))
  {
    ReversedPath(nb, sw, a, b, q);
    DistanceBack(nb, sw, a, b);
  }

  lemma PathToItself(nb: Neighbours, sw: set<Node>, a: Node, b: Node, p: seq<Node>, q: seq<Node>)
    requires Shortest(nb, sw, a, b, p) && Shortest(nb, sw, a, b, q)
    ensures a == b ==> p == q
  {
    HostAtZero(nb, sw, a);
    if a == b { assert p == [a] && q == [a]; }
  }

  lemma ChosenDisagree(nb: Neighbours, sw: set<Node>, payload: nat, n: nat, a: Node, b: Node, p: seq<Node>, q: seq<Node>)
    requires PositiveRates(nb) && SameBothWays(nb) && a < n && b < n && a !in sw && b !in sw
    requires Reachable(nb, sw, a, b) && Reachable(nb, sw, b, a)
    requires Shortest(nb, sw, a, b, p) && Shortest(nb, sw, a, b, q) && Shortest(nb, sw, b, a, Reversed(q))
    requires !CostTheSame(nb, sw, payload, p, q)
    ensures !AgreeOn(ChosenTables(nb, sw, payload, Hosts(sw, n), a, b, p, Reversed(q)), a, b)
  {
    CostsBack(nb, sw, payload, q);
    PathToItself(nb, sw, a, b, p, q);
    hide PathDelay, PathTx, PathBw;
  }

  /** A link lost is lost in both directions. */
  lemma LossKeepsBothWays(nb: Neighbours, a: Node, b: Node, nb': Neighbours)
    requires SameBothWays(nb) && LinkLost(nb, a, b, nb')
    ensures SameBothWays(nb')
  {
    forall x, y | Up(nb', x, y) ensures SameBack(nb', x, y) {
      assert Up(nb, x, y) && SameBack(nb, x, y);
      assert nb'[x][y] == nb[x][y] && Up(nb', y, x);
    }
  }

  /** A takedown keeps the records of two hosts in agreement if the shortest paths left between them cost
      alike, or if none is left. */
  lemma TakedownKeepsAgreement(sw: set<Node>, n: nat, payload: nat, s: Snapshot, a: Node, b: Node, s': Snapshot, x: Node, y: Node)
    requires SameBothWays(s.nb) && TookDown(sw, n, payload, s, a, b, s') && AgreeOn(s.pairs, x, y)
    requires x < n && y < n && x !in sw && y !in sw && CostAlike(s'.nb, sw, payload, x, y)
    ensures SameBothWays(s'.nb) && AgreeOn(s'.pairs, x, y)
  {
    LossKeepsBothWays(s.nb, a, b, s'.nb);
    hide AgreeOn, SameBothWays, CostAlike, AllPairsAdded;
    if Up(s.nb, a, b) { RecordsAgree(s'.nb, sw, payload, n, s.pairs, s'.pairs, x, y); }
  }

  // ----- wired tables and the fabric

  /** Both directions of a line get its latency and rate, and a later line overwrites both. */
  lemma {:induction false} WiredBothWays(ls: seq<Link>, a: Node, b: Node)
    requires Up(Wire(ls).nb, a, b)
    ensures SameBack(Wire(ls).nb, a, b)
    decreases |ls|
  {
    if ls != [] {
      var init, l := ls[..|ls| - 1], ls[|ls| - 1];
      LineAt(Wire(init), l, a, b);
      LineAt(Wire(init), l, b, a);
      assert Wire(ls) == AddLine(Wire(init), l);
      assert Joins(l, a, b) <==> Joins(l, b, a);
      hide Wire, AddLine, Joins;
      if !Joins(l, a, b) { WiredBothWays(init, a, b); }
    }
  }

  lemma WiredIsSame(ls: seq<Link>)
    ensures SameBothWays(Wire(ls).nb)
  {
    forall a, b | Up(Wire(ls).nb, a, b) ensures SameBack(Wire(ls).nb, a, b) {
      WiredBothWays(ls, a, b);
    }
  }

  /** So on any network read from link lines with rates above 0. */
  lemma WiredRecordsAgree(ls: seq<Link>, sw: set<Node>, payload: nat, n: nat, m: Metrics, a: Node, b: Node)
    requires forall l :: l in ls ==> l.rate > 0
    ensures PositiveRates(Wire(ls).nb)
    ensures a < n && b < n && a !in sw && b !in sw && FreshPairs(Wire(ls).nb, sw, payload, n, m) && CostAlike(Wire(ls).nb, sw, payload, a, b)
      ==> AgreeOn(m, a, b) && RttOf(m, a, b) == RttOf(m, b, a) && BdpOf(m, a, b) == BdpOf(m, b, a)
  {
    var nb := Wire(ls).nb;
    forall x, y | Up(nb, x, y) ensures nb[x][y].bw > 0 {
      WiredLines(ls, x, y);
    }
    WiredIsSame(ls);
    NothingRecorded(a, b);
    hide Wire, AgreeOn, SameBothWays, CostAlike, AllPairsAdded, RttOf, BdpOf;
    if a < n && b < n && a !in sw && b !in sw && FreshPairs(nb, sw, payload, n, m) && CostAlike(nb, sw, payload, a, b) {
      RecordsAgree(nb, sw, payload, n, Metrics(map[], map[], map[]), m, a, b);
    }
  }

  lemma FabricBothWays(p: Params, nb: Neighbours)
    requires IsFabric(p, nb) && Symmetric(nb)
    ensures SameBothWays(nb)
  {
    hide IsFabric, Rate, Latency, RoleOf;
    forall a, b | Up(nb, a, b) ensures SameBack(nb, a, b) {
      assert Up(nb, b, a);
      LinkIs2(p, nb, a, b);
      LinkIs2(p, nb, b, a);
      EitherEnd(p, RoleOf(p, a), RoleOf(p, b));
    }
  }

  lemma EitherEnd(p: Params, r: Role, s: Role)
    ensures Latency(p, r, s) == Latency(p, s, r) && Rate(p, r, s) == Rate(p, s, r)
  {
  }

  lemma FabricCostsAlike(p: Params, nb: Neighbours, sw: set<Node>, payload: nat, h: Role, v: Node)
    requires Ready(p, nb, sw, h) && GoodRates(p) && PositiveRates(nb)
    ensures CostAlike(nb, sw, payload, Id(p, h), v)
  {
    FabricCertificate(p, nb, sw, payload, h);
    var host, delay, tx, bw := Id(p, h), DelayMap(p, h), TxMap(p, payload, h), BwMap(p, h);
    hide Id, CostCertificate, IsFabric, DelayMap, TxMap, BwMap;
    forall q, r | Shortest(nb, sw, host, v, q) && Shortest(nb, sw, host, v, r) ensures CostTheSame(nb, sw, payload, q, r) {
      ShortestPathsCostAlike(nb, sw, payload, host, v, q, delay, tx, bw);
      ShortestPathsCostAlike(nb, sw, payload, host, v, r, delay, tx, bw);
    }
  }

  /** On the fabric the loops over the pairs i < j store under both orders what either order would give. */
  lemma FabricPairsAgree(p: Params, nb: Neighbours, sw: set<Node>, payload: nat, m: Metrics, pairRtt: Pairs, pairBdp: Pairs,
                         a: Node, b: Node)
    requires IsFabric(p, nb) && Symmetric(nb) && SwitchIds(p, sw) && PositiveRates(nb) && GoodRates(p)
    requires FreshPairs(nb, sw, payload, NodeTotal(p), m)
    requires Filled(NodeTotal(p), sw, m, NodeTotal(p), 0, pairRtt, pairBdp)
    requires a < NodeTotal(p) && b < NodeTotal(p) && a !in sw && b !in sw && a != b
    ensures AgreeOn(m, a, b)
    ensures Entry(pairRtt, a, b) == Some(RttOf(m, a, b)) == Some(RttOf(m, b, a)) == Entry(pairRtt, b, a)
    ensures Entry(pairBdp, a, b) == Some(BdpOf(m, a, b)) == Some(BdpOf(m, b, a)) == Entry(pairBdp, b, a)
  {
    var n := NodeTotal(p);
    var h := RoleOf(p, a);
    assert Valid(p, h) && h.Server? && Id(p, h) == a;
    FabricCostsAlike(p, nb, sw, payload, h, b);
    FabricBothWays(p, nb);
    RecordsAgree(nb, sw, payload, n, Metrics(map[], map[], map[]), m, a, b);
    assert CellIs(n, sw, m, n, 0, pairRtt, pairBdp, a, b) && CellIs(n, sw, m, n, 0, pairRtt, pairBdp, b, a);
    hide *;
    BothCells(n, sw, m, pairRtt, pairBdp, a, b);
  }

  lemma BothCells(n: nat, sw: set<Node>, m: Metrics, pairRtt: Pairs, pairBdp: Pairs, a: Node, b: Node)
    requires CellIs(n, sw, m, n, 0, pairRtt, pairBdp, a, b) && CellIs(n, sw, m, n, 0, pairRtt, pairBdp, b, a)
    requires a < n && b < n && a !in sw && b !in sw && a != b
    requires RttOf(m, a, b) == RttOf(m, b, a) && BdpOf(m, a, b) == BdpOf(m, b, a)
    ensures Entry(pairRtt, a, b) == Some(RttOf(m, a, b)) == Entry(pairRtt, b, a)
    ensures Entry(pairBdp, a, b) == Some(BdpOf(m, a, b)) == Entry(pairBdp, b, a)
  {
    hide RttOf, BdpOf;
  }
}
