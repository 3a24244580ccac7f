/** Path costs and the largest round-trip time and bandwidth-delay product on the generated fabric. */
module FabricRtt {
  import opened Options
  import opened Graph
  import opened Costs
  import opened Routing
  import opened Topology
  import opened Wiring
  import opened Fabric
  import opened Rtt

  function IntraBw(p: Params): nat { BitsPerSecond(p.intraRate) }
  function InterBw(p: Params): nat { BitsPerSecond(p.interRate) }

  predicate GoodRates(p: Params) {
    p.intraRate > 0 && p.interRate > 0 && IntraBw(p) <= MAX_BW && InterBw(p) <= MAX_BW
  }

  function IntraTx(p: Params, payload: nat): nat
    requires GoodRates(p)
  {
    TxTime(payload, IntraBw(p))
  }

  function InterTx(p: Params, payload: nat): nat
    requires GoodRates(p)
  {
    TxTime(payload, InterBw(p))
  }

  /** What every shortest path from `h` to `r` costs: one inter-datacenter link if they are in different
      datacenters, all other links inside. */
  function DelayTo(p: Params, h: Role, r: Role): nat
    requires h.Server?
  {
    if r.dc == h.dc then Delta(h, r) * p.intraLatency else (Delta(h, r) - 1) * p.intraLatency + p.interLatency
  }

  function TxTo(p: Params, payload: nat, h: Role, r: Role): nat
    requires h.Server? && GoodRates(p)
  {
    if r.dc == h.dc then Delta(h, r) * IntraTx(p, payload)
    else (Delta(h, r) - 1) * IntraTx(p, payload) + InterTx(p, payload)
  }

  function BwTo(p: Params, h: Role, r: Role): nat
    requires h.Server?
  {
    if r == h then MAX_BW else if r.dc == h.dc then IntraBw(p) else Min(IntraBw(p), InterBw(p))
  }

  lemma FabricRates(p: Params, nb: Neighbours)
    requires IsFabric(p, nb) && GoodRates(p)
    ensures PositiveRates(nb)
  {
    forall a, b | Up(nb, a, b) ensures nb[a][b].bw > 0 {
      LinkIs2(p, nb, a, b);
    }
  }

  lemma CostsGrow(p: Params, payload: nat, h: Role, r: Role, s: Role)
    requires GoodRates(p) && Valid(p, h) && h.Server? && Valid(p, r) && IsHop(p, h, r, s)
    ensures Rate(p, s, r) > 0
    ensures DelayTo(p, h, r) == DelayTo(p, h, s) + Latency(p, s, r)
    ensures TxTo(p, payload, h, r) == TxTo(p, payload, h, s) + TxTime(payload, Rate(p, s, r))
    ensures BwTo(p, h, r) == Min(BwTo(p, h, s), Rate(p, s, r))
  {
    hide TxTime;
    if s.Dci? && r.Dci? {
      assert s.dc == h.dc && r.dc != h.dc;
    } else {
      assert s.dc == r.dc;
    }
    var d := Delta(h, s);
    assert r.dc != h.dc && s.dc == r.dc ==> d >= 5;
    Distribute(d, p.intraLatency);
    Distribute(d, IntraTx(p, payload));
    if d > 0 {
      Distribute(d - 1, p.intraLatency);
      Distribute(d - 1, IntraTx(p, payload));
    }
  }

  lemma Distribute(d: nat, x: nat)
    ensures (d + 1) * x == d * x + x
  {
  }

  ghost function DelayMap(p: Params, h: Role): map<Node, nat>
    requires h.Server?
  {
    map a: Node | a < NodeTotal(p) :: DelayTo(p, h, RoleOf(p, a))
  }

  ghost function TxMap(p: Params, payload: nat, h: Role): map<Node, nat>
    requires h.Server? && GoodRates(p)
  {
    map a: Node | a < NodeTotal(p) :: TxTo(p, payload, h, RoleOf(p, a))
  }

  ghost function BwMap(p: Params, h: Role): map<Node, nat>
    requires h.Server?
  {
    map a: Node | a < NodeTotal(p) :: BwTo(p, h, RoleOf(p, a))
  }

  lemma FabricCertificate(p: Params, nb: Neighbours, sw: set<Node>, payload: nat, h: Role)
    requires Ready(p, nb, sw, h) && GoodRates(p) && PositiveRates(nb)
    ensures CostCertificate(nb, sw, payload, Id(p, h), DelayMap(p, h), TxMap(p, payload, h), BwMap(p, h))
  {
    SelfCosts(p, payload, h);
    RoleOfId(p, h);
    assert HostCosts(Id(p, h), DelayMap(p, h), TxMap(p, payload, h), BwMap(p, h));
    hide *;
    forall v | Reachable(nb, sw, Id(p, h), v) ensures v in DelayMap(p, h) && v in TxMap(p, payload, h) && v in BwMap(p, h) {
      ReachedIsNode(p, nb, sw, h, payload, v);
    }
    forall u, v | IsNextHop(nb, sw, Id(p, h), v, u)
      ensures EdgeCosts(nb, payload, u, v, DelayMap(p, h), TxMap(p, payload, h), BwMap(p, h))
    {
      EdgeIsCosted(p, nb, sw, payload, h, u, v);
    }
    Certify(nb, sw, payload, Id(p, h), DelayMap(p, h), TxMap(p, payload, h), BwMap(p, h));
  }

  lemma Certify(nb: Neighbours, sw: set<Node>, payload: nat, host: Node, delay: map<Node, nat>, tx: map<Node, nat>, bw: map<Node, nat>)
    requires PositiveRates(nb) && HostCosts(host, delay, tx, bw)
    requires forall v :: Reachable(nb, sw, host, v) ==> v in delay && v in tx && v in bw
    requires forall u, v :: IsNextHop(nb, sw, host, v, u) ==> EdgeCosts(nb, payload, u, v, delay, tx, bw)
    ensures CostCertificate(nb, sw, payload, host, delay, tx, bw)
  {
    hide EdgeCosts, IsNextHop, Reachable, HostCosts;
  }

  lemma ReachedIsNode(p: Params, nb: Neighbours, sw: set<Node>, h: Role, payload: nat, v: Node)
    requires Ready(p, nb, sw, h) && GoodRates(p) && Reachable(nb, sw, Id(p, h), v)
    ensures v in DelayMap(p, h) && v in TxMap(p, payload, h) && v in BwMap(p, h)
  {
    hide Id, DelayTo, TxTo, BwTo;
    RoleOfId(p, h);
    if v != Id(p, h) {
      var u := OneNearer(nb, sw, Id(p, h), v);
      LinkIs2(p, nb, u, v);
    }
  }

  lemma EdgeIsCosted(p: Params, nb: Neighbours, sw: set<Node>, payload: nat, h: Role, u: Node, v: Node)
    requires Ready(p, nb, sw, h) && GoodRates(p) && PositiveRates(nb) && IsNextHop(nb, sw, Id(p, h), v, u)
    ensures EdgeCosts(nb, payload, u, v, DelayMap(p, h), TxMap(p, payload, h), BwMap(p, h))
  {
    hide Id, DelayTo, TxTo, BwTo, TxTime, IsHop, IsNextHop;
    HopUp(nb, sw, Id(p, h), v, u);
    LinkIs2(p, nb, u, v);
    HopOfId(p, nb, sw, h, RoleOf(p, v), u);
    CostsGrow(p, payload, h, RoleOf(p, v), RoleOf(p, u));
  }

  lemma HopUp(nb: Neighbours, sw: set<Node>, host: Node, v: Node, u: Node)
    requires IsNextHop(nb, sw, host, v, u)
    ensures Up(nb, u, v)
  {
  }

  lemma SelfCosts(p: Params, payload: nat, h: Role)
    requires h.Server? && GoodRates(p)
    ensures DelayTo(p, h, h) == 0 && TxTo(p, payload, h, h) == 0 && BwTo(p, h, h) == MAX_BW
  {
    hide TxTime;
  }

  /** Whatever the searches recorded for a pair of nodes does not depend on which shortest path they took. */
  lemma RecordedCosts(p: Params, nb: Neighbours, sw: set<Node>, payload: nat, h: Role, r: Role, m: Metrics)
    requires Ready(p, nb, sw, h) && GoodRates(p) && PositiveRates(nb) && Valid(p, r)
    requires Reachable(nb, sw, Id(p, h), Id(p, r)) && PairCosts(nb, sw, payload, Id(p, h), Id(p, r), m)
    ensures Entry(m.delay, Id(p, r), Id(p, h)) == Some(DelayTo(p, h, r) % U64)
    ensures Entry(m.tx, Id(p, r), Id(p, h)) == Some(TxTo(p, payload, h, r) % U64)
    ensures Entry(m.bw, Id(p, r), Id(p, h)) == Some(BwTo(p, h, r))
  {
    var host, v := Id(p, h), Id(p, r);
    RoleOfId(p, r);
    FabricCertificate(p, nb, sw, payload, h);
    hide Id, DelayTo, TxTo, BwTo, TxTime, CostCertificate, IsFabric;
    var q :| PathTo(nb, sw, host, v, q) && |q| == Dist(nb, sw, host, v) + 1
          && CostsOf(nb, sw, payload, host, v, q,
                     Entry(m.delay, v, host).value, Entry(m.tx, v, host).value, Entry(m.bw, v, host).value);
    ShortestPathsCostAlike(nb, sw, payload, host, v, q, DelayMap(p, h), TxMap(p, payload, h), BwMap(p, h));
  }

  // ----- pairs of servers by how many links apart they are

  /** Servers of one ToR are two links apart, of one pod four, of one datacenter six, and others nine. */
  predicate Occurs(p: Params, links: nat) {
    match links
    case 2 => ServersPerTor(p) >= 2
    case 4 => Half(p) >= 2
    case 6 => true
    case 9 => true
    case _ => false
  }

  /** Twice the delay and once the transmission time of that many links, one of nine between datacenters, ... */
  function WholeRtt(p: Params, payload: nat, links: nat): nat
    requires GoodRates(p)
  {
    if links == 9 then 2 * (8 * p.intraLatency + p.interLatency) + 8 * IntraTx(p, payload) + InterTx(p, payload)
    else 2 * (links * p.intraLatency) + links * IntraTx(p, payload)
  }

  function BwBy(p: Params, links: nat): nat {
    if links == 9 then Min(IntraBw(p), InterBw(p)) else IntraBw(p)
  }

  function WholeBdp(rtt: nat, bw: nat): nat {
    rtt * bw / 1_000_000_000 / 8
  }

  /** ... and what the 64-bit arithmetic makes of it. */
  function RttBy(p: Params, payload: nat, links: nat): nat
    requires GoodRates(p)
  {
    WholeRtt(p, payload, links) % U64
  }

  function BdpBy(p: Params, payload: nat, links: nat): nat
    requires GoodRates(p)
  {
    Bdp(RttBy(p, payload, links), BwBy(p, links))
  }

  lemma PairRange(p: Params, payload: nat, h: Role, r: Role)
    requires GoodRates(p) && Valid(p, h) && Valid(p, r) && h.Server? && r.Server? && r != h
    ensures Occurs(p, Delta(h, r))
    ensures 2 * DelayTo(p, h, r) + TxTo(p, payload, h, r) == WholeRtt(p, payload, Delta(h, r))
    ensures BwTo(p, h, r) == BwBy(p, Delta(h, r))
  {
    hide TxTime, Half, ServersPerTor;
    var d := Delta(h, r);
    assert d == 2 || d == 4 || d == 6 || d == 9;
  }

  lemma ProductMono(a: nat, b: nat, c: nat, d: nat)
    requires a <= b && c <= d
    ensures a * c <= b * d
  {
    assert a * c <= b * c by { assert (b - a) * c >= 0; }
    assert b * c <= b * d by { assert b * (d - c) >= 0; }
  }

  lemma WholeBdpMono(a: nat, b: nat, c: nat, d: nat)
    requires a * c <= b * d
    ensures WholeBdp(a, c) <= WholeBdp(b, d)
  {
    QuotientMono(a * c, b * d, 1_000_000_000);
    QuotientMono(a * c / 1_000_000_000, b * d / 1_000_000_000, 8);
  }

  lemma QuotientMono(x: nat, y: nat, q: nat)
    requires x <= y && q > 0
    ensures x / q <= y / q
  {
    if x / q > y / q {
      ProductMono(y / q + 1, x / q, q, q);
    }
  }

  /** The tables of a fresh run. */
  ghost predicate FreshPairs(nb: Neighbours, sw: set<Node>, payload: nat, n: nat, m: Metrics)
    requires PositiveRates(nb)
  {
    AllPairsAdded(nb, sw, payload, n, Metrics(map[], map[], map[]), m)
  }

  /** The round-trip time and the product of a pair depend on nothing but how many links it is apart. */
  lemma PairOnFabric(p: Params, nb: Neighbours, sw: set<Node>, payload: nat, m: Metrics, i: Node, j: Node)
    requires IsFabric(p, nb) && Symmetric(nb) && SwitchIds(p, sw) && PositiveRates(nb) && GoodRates(p)
    requires FreshPairs(nb, sw, payload, NodeTotal(p), m) && HostPair(NodeTotal(p), sw, i, j)
    ensures RoleOf(p, i).Server? && RoleOf(p, j).Server? && Occurs(p, Delta(RoleOf(p, j), RoleOf(p, i)))
    ensures RttOf(m, i, j) == RttBy(p, payload, Delta(RoleOf(p, j), RoleOf(p, i)))
    ensures BdpOf(m, i, j) == BdpBy(p, payload, Delta(RoleOf(p, j), RoleOf(p, i)))
  {
    var h, r := RoleOf(p, j), RoleOf(p, i);
    PairRecorded(p, nb, sw, payload, m, i, j);
    PairRange(p, payload, h, r);
    WrapRtt(DelayTo(p, h, r), TxTo(p, payload, h, r));
    hide *;
    PairValues(m, i, j, DelayTo(p, h, r), TxTo(p, payload, h, r), BwTo(p, h, r));
    ValuesBy(p, payload, Delta(h, r));
  }

  lemma PairRecorded(p: Params, nb: Neighbours, sw: set<Node>, payload: nat, m: Metrics, i: Node, j: Node)
    requires IsFabric(p, nb) && Symmetric(nb) && SwitchIds(p, sw) && PositiveRates(nb) && GoodRates(p)
    requires FreshPairs(nb, sw, payload, NodeTotal(p), m) && HostPair(NodeTotal(p), sw, i, j)
    ensures RoleOf(p, i).Server? && RoleOf(p, j).Server? && RoleOf(p, i) != RoleOf(p, j)
    ensures Entry(m.delay, i, j) == Some(DelayTo(p, RoleOf(p, j), RoleOf(p, i)) % U64)
    ensures Entry(m.tx, i, j) == Some(TxTo(p, payload, RoleOf(p, j), RoleOf(p, i)) % U64)
    ensures Entry(m.bw, i, j) == Some(BwTo(p, RoleOf(p, j), RoleOf(p, i)))
  {
    var h, r := RoleOf(p, j), RoleOf(p, i);
    hide Id, Delta, DelayTo, TxTo, BwTo, IsFabric, PairCosts, Symmetric, PositiveRates;
    DistanceIsDelta(p, nb, sw, h, r);
    assert PairsFor(nb, sw, payload, j, Metrics(map[], map[], map[]), m);
    assert PairCosts(nb, sw, payload, j, i, m);
    RecordedCosts(p, nb, sw, payload, h, r, m);
  }

  lemma ValuesBy(p: Params, payload: nat, links: nat)
    requires GoodRates(p)
    ensures RttBy(p, payload, links) == WholeRtt(p, payload, links) % U64
    ensures BdpBy(p, payload, links) == Bdp(RttBy(p, payload, links), BwBy(p, links))
  {
  }

  lemma PairValues(m: Metrics, i: Node, j: Node, d: nat, t: nat, bw: nat)
    requires Entry(m.delay, i, j) == Some(d % U64) && Entry(m.tx, i, j) == Some(t % U64) && Entry(m.bw, i, j) == Some(bw)
    requires Add64(d % U64 * 2 % U64, t % U64) == (2 * d + t) % U64
    ensures RttOf(m, i, j) == (2 * d + t) % U64 && BdpOf(m, i, j) == Bdp((2 * d + t) % U64, bw)
  {
    hide Bdp;
  }

  lemma WrapRtt(d: nat, t: nat)
    ensures Add64(d % U64 * 2 % U64, t % U64) == (2 * d + t) % U64
  {
    var x, y := d % U64, t % U64;
    var a, b := d / U64, t / U64;
    assert 2 * d + t == (2 * x + y) + (2 * a + b) * U64;
    WrapAdd(2 * x, y);
    Wraps(2 * x + y, 2 * a + b);
  }

  lemma Wraps(x: nat, k: nat)
    ensures (x + k * U64) % U64 == x % U64
  {
  }

  // ----- the maxima

  ghost predicate LargestRtt(p: Params, payload: nat, max: nat)
    requires GoodRates(p)
  {
    && (forall d: nat :: Occurs(p, d) ==> RttBy(p, payload, d) <= max)
    && exists d: nat :: Occurs(p, d) && RttBy(p, payload, d) == max
  }

  ghost predicate LargestBdp(p: Params, payload: nat, max: nat)
    requires GoodRates(p)
  {
    && (forall d: nat :: Occurs(p, d) ==> BdpBy(p, payload, d) <= max)
    && exists d: nat :: Occurs(p, d) && BdpBy(p, payload, d) == max
  }

  /** The maxima are the largest values, as 64 bits hold them, of the kinds of pairs that occur. */
  lemma MaximaOnFabric(p: Params, nb: Neighbours, sw: set<Node>, payload: nat, m: Metrics, maxRtt: nat, maxBdp: nat)
    requires Accepted(p) && p.k > 0 && p.os > 0 && GoodRates(p)
    requires IsFabric(p, nb) && Symmetric(nb) && SwitchIds(p, sw) && PositiveRates(nb)
    requires FreshPairs(nb, sw, payload, NodeTotal(p), m)
    requires MaxSoFar(NodeTotal(p), sw, m, NodeTotal(p), 0, maxRtt, maxBdp)
    ensures LargestRtt(p, payload, maxRtt) && LargestBdp(p, payload, maxBdp)
  {
    var n := NodeTotal(p);
    hide RttOf, BdpOf, IsFabric, FreshPairs, RttBy, BdpBy, Symmetric, PositiveRates, SwitchIds, NodeTotal, HostPair, Accepted, Delta;
    forall d: nat | Occurs(p, d) ensures RttBy(p, payload, d) <= maxRtt && BdpBy(p, payload, d) <= maxBdp {
      var i, j := SomePair(p, sw, d);
      PairOnFabric(p, nb, sw, payload, m, i, j);
      assert Seen(n, sw, n, 0, i, j) by { HostPairIs(n, sw, i, j); }
    }
    assert Occurs(p, 9);
    if maxRtt > 0 {
      var a: Node, b: Node :| Seen(n, sw, n, 0, a, b) && RttOf(m, a, b) == maxRtt;
      PairOnFabric(p, nb, sw, payload, m, a, b);
    }
    if maxBdp > 0 {
      var a: Node, b: Node :| Seen(n, sw, n, 0, a, b) && BdpOf(m, a, b) == maxBdp;
      PairOnFabric(p, nb, sw, payload, m, a, b);
    }
  }

  lemma HostPairIs(n: nat, sw: set<Node>, i: Node, j: Node)
    requires HostPair(n, sw, i, j)
    ensures i < n
  {
  }

  /** For every kind that occurs, a pair of servers in the order the loops take it. */
  lemma SomePair(p: Params, sw: set<Node>, links: nat) returns (i: Node, j: Node)
    requires p.k > 0 && p.os > 0 && Accepted(p) && SwitchIds(p, sw) && Occurs(p, links)
    ensures HostPair(NodeTotal(p), sw, i, j) && Delta(RoleOf(p, j), RoleOf(p, i)) == links
  {
    var a := Server(0, 0, 0, 0);
    var b := match links
      case 2 => Server(0, 0, 0, 1)
      case 4 => Server(0, 0, 1, 0)
      case 6 => Server(0, 1, 0, 0)
      case _ => Server(1, 0, 0, 0);
    SomeServers(p);
    assert Valid(p, a) && Valid(p, b);
    RoleOfId(p, a);
    RoleOfId(p, b);
    i, j := Id(p, a), Id(p, b);
    assert i == 0;
    if i == j { IdInjective(p, a, b); }
  }

  lemma SomeServers(p: Params)
    requires Accepted(p) && p.k > 0 && p.os > 0
    ensures p.k >= 2 && Half(p) > 0 && ServersPerTor(p) > 0
  {
  }

  /** Without servers there are no pairs, and the maxima keep their initial values. */
  lemma NoServersNoMaxima(p: Params, sw: set<Node>, m: Metrics, maxRtt: nat, maxBdp: nat)
    requires SwitchIds(p, sw) && (p.k == 0 || p.os == 0)
    requires MaxSoFar(NodeTotal(p), sw, m, NodeTotal(p), 0, maxRtt, maxBdp)
    ensures maxRtt == 0 && maxBdp == 0
  {
    forall a: Node | a < NodeTotal(p) ensures a in sw {
      assert Valid(p, RoleOf(p, a));
      NothingBelow(p);
    }
    hide RttOf, BdpOf, SwitchIds, NodeTotal;
  }

  lemma NothingBelow(p: Params)
    requires p.k == 0 || p.os == 0
    ensures p.k == 0 || ServersPerTor(p) == 0
  {
  }

  // ----- when the maxima have a closed form

  /** Round-trip time of two servers of one datacenter in different pods, and of different datacenters. */
  function IntraRtt(p: Params, payload: nat): nat
    requires GoodRates(p)
  {
    WholeRtt(p, payload, 6)
  }

  function InterRtt(p: Params, payload: nat): nat
    requires GoodRates(p)
  {
    WholeRtt(p, payload, 9)
  }

  function IntraBdp(p: Params, payload: nat): nat
    requires GoodRates(p)
  {
    WholeBdp(IntraRtt(p, payload), IntraBw(p))
  }

  function InterBdp(p: Params, payload: nat): nat
    requires GoodRates(p)
  {
    WholeBdp(InterRtt(p, payload), Min(IntraBw(p), InterBw(p)))
  }

  function Larger(a: nat, b: nat): nat {
    if a < b then b else a
  }

  lemma RttRises(p: Params, payload: nat, links: nat)
    requires GoodRates(p) && Occurs(p, links)
    ensures WholeRtt(p, payload, links) <= InterRtt(p, payload)
    ensures links != 9 ==> WholeRtt(p, payload, links) <= IntraRtt(p, payload)
  {
    hide TxTime, Half, ServersPerTor, IntraTx, InterTx;
    assert links in {2, 4, 6, 9};
  }

  /** The largest round-trip time is that of servers in different datacenters if and only if that fits in 64 bits. */
  lemma ClosedRtt(p: Params, payload: nat, max: nat)
    requires GoodRates(p) && LargestRtt(p, payload, max)
    ensures max == InterRtt(p, payload) <==> InterRtt(p, payload) < U64
  {
    hide *;
    var d := LargestRttAt(p, payload, max);
    ValuesBy(p, payload, d);
    ValuesBy(p, payload, 9);
    RttRises(p, payload, d);
    InterIs(p, payload);
    Wrapped(WholeRtt(p, payload, d));
    Wrapped(InterRtt(p, payload));
  }

  lemma LargestRttAt(p: Params, payload: nat, max: nat) returns (d: nat)
    requires GoodRates(p) && LargestRtt(p, payload, max)
    ensures Occurs(p, d) && RttBy(p, payload, d) == max && RttBy(p, payload, 9) <= max
  {
    assert Occurs(p, 9);
    hide Occurs, RttBy;
    d :| Occurs(p, d) && RttBy(p, payload, d) == max;
  }

  lemma InterIs(p: Params, payload: nat)
    requires GoodRates(p)
    ensures InterRtt(p, payload) == WholeRtt(p, payload, 9)
  {
  }

  lemma Wrapped(x: nat)
    ensures x % U64 < U64 && x % U64 <= x && (x < U64 ==> x % U64 == x)
  {
  }

  /** The 64-bit product of a wrapped round-trip time wraps like the whole one. */
  lemma BdpWraps(r: nat, bw: nat)
    ensures Bdp(r % U64, bw) == r * bw % U64 / 1_000_000_000 / 8
    ensures Bdp(r % U64, bw) <= WholeBdp(r, bw)
    ensures r * bw < U64 ==> Bdp(r % U64, bw) == WholeBdp(r, bw)
    ensures r * bw >= U64 ==> Bdp(r % U64, bw) < WholeBdp(r, bw)
  {
    var x, k := r % U64, r / U64;
    Expand(x, k, bw);
    Wraps(x * bw, k * bw);
    QuotientFalls(r * bw);
  }

  lemma Expand(x: nat, k: nat, bw: nat)
    ensures (x + k * U64) * bw == x * bw + (k * bw) * U64
  {
  }

  lemma QuotientFalls(y: nat)
    ensures y % U64 / 1_000_000_000 / 8 <= y / 1_000_000_000 / 8
    ensures y < U64 ==> y % U64 == y
    ensures y >= U64 ==> y % U64 / 1_000_000_000 / 8 < y / 1_000_000_000 / 8
  {
  }

  /** The largest product is the larger of the two closed forms if and only if one that attains it fits in 64 bits. */
  lemma ClosedBdp(p: Params, payload: nat, max: nat)
    requires GoodRates(p) && LargestBdp(p, payload, max)
    ensures max == Larger(IntraBdp(p, payload), InterBdp(p, payload)) <==> LargerFits(p, payload)
  {
    hide *;
    if LargerFits(p, payload) { ClosedIfFits(p, payload, max); }
    if max == Larger(IntraBdp(p, payload), InterBdp(p, payload)) { FitsIfClosed(p, payload, max); }
  }

  lemma ClosedIfFits(p: Params, payload: nat, max: nat)
    requires GoodRates(p) && LargestBdp(p, payload, max) && LargerFits(p, payload)
    ensures max == Larger(IntraBdp(p, payload), InterBdp(p, payload))
  {
    hide *;
    FitsIs(p, payload);
    var d := LargestAt(p, payload, max);
    BdpAt(p, payload, d);
    BdpAt(p, payload, 6);
    BdpAt(p, payload, 9);
    LargerIs(IntraBdp(p, payload), InterBdp(p, payload));
  }

  lemma FitsIfClosed(p: Params, payload: nat, max: nat)
    requires GoodRates(p) && LargestBdp(p, payload, max) && max == Larger(IntraBdp(p, payload), InterBdp(p, payload))
    ensures LargerFits(p, payload)
  {
    hide *;
    FitsIs(p, payload);
    var d := LargestAt(p, payload, max);
    BdpAt(p, payload, d);
    LargerIs(IntraBdp(p, payload), InterBdp(p, payload));
    if d != 9 { NearlyIntra(p, payload, d); }
  }

  function Product(p: Params, payload: nat, links: nat): nat
    requires GoodRates(p)
  {
    WholeRtt(p, payload, links) * BwBy(p, links)
  }

  function ClosedBy(p: Params, payload: nat, links: nat): nat
    requires GoodRates(p)
  {
    if links == 9 then InterBdp(p, payload) else IntraBdp(p, payload)
  }

  /** One of the two products that attains the larger closed form is below 2^64. */
  predicate LargerFits(p: Params, payload: nat)
    requires GoodRates(p)
  {
    || (IntraBdp(p, payload) >= InterBdp(p, payload) && IntraRtt(p, payload) * IntraBw(p) < U64)
    || (InterBdp(p, payload) >= IntraBdp(p, payload) && InterRtt(p, payload) * Min(IntraBw(p), InterBw(p)) < U64)
  }

  lemma FitsIs(p: Params, payload: nat)
    requires GoodRates(p)
    ensures LargerFits(p, payload) <==>
      ((IntraBdp(p, payload) >= InterBdp(p, payload) && Product(p, payload, 6) < U64)
       || (InterBdp(p, payload) >= IntraBdp(p, payload) && Product(p, payload, 9) < U64))
  {
    hide WholeRtt, IntraBw, InterBw, WholeBdp, Min;
  }

  lemma LargerIs(a: nat, b: nat)
    ensures Larger(a, b) == if a < b then b else a
  {
  }

  lemma LargestAt(p: Params, payload: nat, max: nat) returns (d: nat)
    requires GoodRates(p) && LargestBdp(p, payload, max)
    ensures Occurs(p, d) && BdpBy(p, payload, d) == max
    ensures Occurs(p, 6) && Occurs(p, 9) && BdpBy(p, payload, 6) <= max && BdpBy(p, payload, 9) <= max
  {
    assert Occurs(p, 6) && Occurs(p, 9);
    hide Occurs, BdpBy;
    d :| Occurs(p, d) && BdpBy(p, payload, d) == max;
  }

  /** A kind of pair attains at most its closed form, and less if its product wraps; six and nine links attain
      theirs if their product does not. */
  lemma BdpAt(p: Params, payload: nat, links: nat)
    requires GoodRates(p) && Occurs(p, links)
    ensures BdpBy(p, payload, links) <= ClosedBy(p, payload, links)
    ensures Product(p, payload, links) >= U64 ==> BdpBy(p, payload, links) < ClosedBy(p, payload, links)
    ensures Product(p, payload, links) < U64 && (links == 6 || links == 9) ==> BdpBy(p, payload, links) == ClosedBy(p, payload, links)
    ensures ClosedBy(p, payload, links) == if links == 9 then InterBdp(p, payload) else IntraBdp(p, payload)
  {
    RttRises(p, payload, links);
    var r, bw := WholeRtt(p, payload, links), BwBy(p, links);
    var c := if links == 9 then 9 else 6;
    ClosedIs(p, payload, links);
    assert WholeRtt(p, payload, links) <= WholeRtt(p, payload, c) && BwBy(p, c) == bw;
    assert Product(p, payload, links) == r * bw;
    ValuesBy(p, payload, links);
    hide *;
    ProductMono(r, WholeRtt(p, payload, c), bw, bw);
    WholeBdpMono(r, WholeRtt(p, payload, c), bw, bw);
    BdpWraps(r, bw);
  }

  lemma ClosedIs(p: Params, payload: nat, links: nat)
    requires GoodRates(p)
    ensures var c := if links == 9 then 9 else 6; ClosedBy(p, payload, links) == WholeBdp(WholeRtt(p, payload, c), BwBy(p, c))
  {
    hide WholeRtt, WholeBdp, IntraBw, InterBw, Min;
  }

  /** If fewer than six links come to the closed form of six, its product is far from wrapping. */
  lemma NearlyIntra(p: Params, payload: nat, links: nat)
    requires GoodRates(p) && Occurs(p, links) && BdpBy(p, payload, links) == IntraBdp(p, payload)
    ensures links != 9 ==> Product(p, payload, 6) < U64
  {
    if links != 9 {
      var y := (2 * p.intraLatency + IntraTx(p, payload)) * IntraBw(p);
      assert links in {2, 4, 6};
      InnerProduct(p, payload, links);
      InnerProduct(p, payload, 6);
      ValuesBy(p, payload, links);
      hide *;
      BdpAt(p, payload, links);
      BdpWraps(WholeRtt(p, payload, links), BwBy(p, links));
      FarApart(y, links);
    }
  }

  lemma InnerProduct(p: Params, payload: nat, links: nat)
    requires GoodRates(p) && links != 9
    ensures var y := (2 * p.intraLatency + IntraTx(p, payload)) * IntraBw(p);
      Product(p, payload, links) == WholeRtt(p, payload, links) * BwBy(p, links) == links * y
    ensures links == 6 ==> IntraBdp(p, payload) == Product(p, payload, links) / 1_000_000_000 / 8
  {
    var x, bw := 2 * p.intraLatency + IntraTx(p, payload), IntraBw(p);
    hide IntraBw, IntraTx, InterTx;
    assert WholeRtt(p, payload, links) == links * x by { Regroup(links, p.intraLatency, IntraTx(p, payload)); }
    Reassociate(links, x, bw);
  }

  lemma Regroup(n: nat, a: nat, b: nat)
    ensures 2 * (n * a) + n * b == n * (2 * a + b)
  {
  }

  lemma Reassociate(n: nat, x: nat, y: nat)
    ensures n * x * y == n * (x * y)
  {
  }

  lemma FarApart(y: nat, links: nat)
    requires links in {2, 4, 6}
    ensures 6 * y >= U64 && links < 6 ==> links * y / 1_000_000_000 / 8 < 6 * y / 1_000_000_000 / 8
  {
  }

  /** If the longest round-trip time times the inner bandwidth fits in 64 bits, nothing wraps. */
  lemma EnoughRoom(p: Params, payload: nat)
    requires GoodRates(p) && InterRtt(p, payload) * IntraBw(p) < U64
    ensures InterRtt(p, payload) < U64 && LargerFits(p, payload)
  {
    var r, bw := InterRtt(p, payload), IntraBw(p);
    assert bw >= 1 && Min(bw, InterBw(p)) <= bw && Occurs(p, 6);
    RttRises(p, payload, 6);
    hide IntraBdp, InterBdp, InterRtt, IntraRtt, WholeRtt, IntraBw, InterBw, Min;
    ProductMono(r, r, 1, bw);
    ProductMono(IntraRtt(p, payload), r, bw, bw) by { IntraIs(p, payload); }
    ProductMono(r, r, Min(bw, InterBw(p)), bw);
  }

  lemma IntraIs(p: Params, payload: nat)
    requires GoodRates(p)
    ensures IntraRtt(p, payload) == WholeRtt(p, payload, 6)
  {
  }

  /** With datacenter interconnects at least as fast as the links inside, both maxima are those of the farthest pair,
      2 (8 il + el) + 8 tx(intra) + tx(inter) and its product with the inner bandwidth, exactly as long as these fit,
      or the product of six links is in their place. */
  lemma MaximaWithFastInterconnect(p: Params, payload: nat, maxRtt: nat, maxBdp: nat)
    requires GoodRates(p) && p.interRate >= p.intraRate && LargestRtt(p, payload, maxRtt) && LargestBdp(p, payload, maxBdp)
    ensures var rtt := 2 * (8 * p.intraLatency + p.interLatency) + 8 * IntraTx(p, payload) + InterTx(p, payload);
      && (maxRtt == rtt <==> rtt < U64)
      && (maxBdp == rtt * IntraBw(p) / 1_000_000_000 / 8
          <==> (rtt * IntraBw(p) < U64
                || (IntraBdp(p, payload) == InterBdp(p, payload) && IntraRtt(p, payload) * IntraBw(p) < U64)))
  {
    FastIs(p, payload);
    hide *;
    ClosedRtt(p, payload, maxRtt);
    ClosedBdp(p, payload, maxBdp);
    LargerIs(IntraBdp(p, payload), InterBdp(p, payload));
  }

  lemma FastIs(p: Params, payload: nat)
    requires GoodRates(p) && p.interRate >= p.intraRate
    ensures var rtt := 2 * (8 * p.intraLatency + p.interLatency) + 8 * IntraTx(p, payload) + InterTx(p, payload);
      && InterRtt(p, payload) == rtt && InterBdp(p, payload) == rtt * IntraBw(p) / 1_000_000_000 / 8
      && (LargerFits(p, payload) <==> (IntraBdp(p, payload) >= InterBdp(p, payload) && IntraRtt(p, payload) * IntraBw(p) < U64)
                                      || rtt * IntraBw(p) < U64)
    ensures IntraBdp(p, payload) <= InterBdp(p, payload)
  {
    assert Min(IntraBw(p), InterBw(p)) == IntraBw(p) && Occurs(p, 6);
    RttRises(p, payload, 6);
    hide TxTime, IntraTx, InterTx;
    ProductMono(IntraRtt(p, payload), InterRtt(p, payload), IntraBw(p), IntraBw(p));
    WholeBdpMono(IntraRtt(p, payload), InterRtt(p, payload), IntraBw(p), IntraBw(p));
    hide IntraBw, InterBw, Min;
  }

  /** 100 ms between two datacenters at 100 and 400 Gb/s: the round-trip time fits, its product does not, and the
      largest product is far from the closed form. */
  lemma LongLinksWrap(maxRtt: nat, maxBdp: nat)
    ensures var p := Params(4, 2, 2, 100, 1000, 400, 100_000_000);
      && Accepted(p) && GoodRates(p)
      && (LargestRtt(p, 1000, maxRtt) ==> maxRtt == InterRtt(p, 1000) == 200_016_660)
      && (LargestBdp(p, 1000, maxBdp) ==> maxBdp == 194_365_240)
      && Larger(IntraBdp(p, 1000), InterBdp(p, 1000)) == 2_500_208_250
  {
    var p := Params(4, 2, 2, 100, 1000, 400, 100_000_000);
    LongLinksRates(p);
    if LargestRtt(p, 1000, maxRtt) { ClosedRtt(p, 1000, maxRtt); }
    if LargestBdp(p, 1000, maxBdp) {
      var d := LargestAt(p, 1000, maxBdp);
      LongLinksBdp(p, d);
      LongLinksBdp(p, 9);
    }
  }

  lemma LongLinksRates(p: Params)
    requires p == Params(4, 2, 2, 100, 1000, 400, 100_000_000)
    ensures GoodRates(p) && IntraTx(p, 1000) == 80 && InterTx(p, 1000) == 20
    ensures InterRtt(p, 1000) == 200_016_660 && IntraRtt(p, 1000) == 12_480
  {
  }

  lemma LongLinksBdp(p: Params, d: nat)
    requires p == Params(4, 2, 2, 100, 1000, 400, 100_000_000) && GoodRates(p) && Occurs(p, d)
    ensures BdpBy(p, 1000, d) <= 194_365_240 && (d == 9 ==> BdpBy(p, 1000, d) == 194_365_240)
  {
    LongLinksRates(p);
  }
}
