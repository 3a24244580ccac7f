/** Round-trip times and bandwidth-delay products of all pairs of hosts, and their maxima. */
module Rtt {
  import opened Options
  import opened Graph
  import opened Costs
  import opened Routing

  /** Reading an absent entry yields 0. */
  function Value(m: Pairs, i: Node, j: Node): (x: nat)
    ensures x == if i in m && j in m[i] then m[i][j] else 0
  {
    match Entry(m, i, j)
    case Some(x) => x
    case None => 0
  }

  function RttOf(m: Metrics, i: Node, j: Node): nat {
    Add64(Value(m.delay, i, j) * 2 % U64, Value(m.tx, i, j))
  }

  function Bdp(rtt: nat, bw: nat): nat {
    rtt * bw % U64 / 1_000_000_000 / 8
  }

  function BdpOf(m: Metrics, i: Node, j: Node): nat {
    Bdp(RttOf(m, i, j), Value(m.bw, i, j))
  }

  predicate HostPair(n: nat, sw: set<Node>, i: Node, j: Node) {
    i < j < n && i !in sw && j !in sw
  }

  /** The pairs the two loops have been through when they are at `i` and `j`. */
  predicate Seen(n: nat, sw: set<Node>, i: nat, j: nat, a: Node, b: Node) {
    HostPair(n, sw, a, b) && (a < i || (a == i && b < j))
  }

  ghost predicate MaxSoFar(n: nat, sw: set<Node>, m: Metrics, i: nat, j: nat, maxRtt: nat, maxBdp: nat) {
    && (forall a: Node, b: Node :: Seen(n, sw, i, j, a, b) ==> RttOf(m, a, b) <= maxRtt && BdpOf(m, a, b) <= maxBdp)
    && (maxRtt == 0 || exists a: Node, b: Node :: Seen(n, sw, i, j, a, b) && RttOf(m, a, b) == maxRtt)
    && (maxBdp == 0 || exists a: Node, b: Node :: Seen(n, sw, i, j, a, b) && BdpOf(m, a, b) == maxBdp)
  }

  ghost predicate Filled(n: nat, sw: set<Node>, m: Metrics, i: nat, j: nat, pairRtt: Pairs, pairBdp: Pairs) {
    forall a: Node, b: Node :: CellIs(n, sw, m, i, j, pairRtt, pairBdp, a, b)
  }

  ghost predicate CellIs(n: nat, sw: set<Node>, m: Metrics, i: nat, j: nat, pairRtt: Pairs, pairBdp: Pairs, a: Node, b: Node) {
    if Seen(n, sw, i, j, a, b) then Entry(pairRtt, a, b) == Some(RttOf(m, a, b)) && Entry(pairBdp, a, b) == Some(BdpOf(m, a, b))
    else if Seen(n, sw, i, j, b, a) then Entry(pairRtt, a, b) == Some(RttOf(m, b, a)) && Entry(pairBdp, a, b) == Some(BdpOf(m, b, a))
    else Entry(pairRtt, a, b) == None && Entry(pairBdp, a, b) == None
  }

  /** Twice the recorded delay and once the recorded transmission time, in 64 bits; times the recorded rate it gives
      bytes. */
  lemma RttIs(m: Metrics, i: Node, j: Node, d: nat, t: nat, bw: nat)
    requires d == (if i in m.delay && j in m.delay[i] then m.delay[i][j] else 0)
    requires t == (if i in m.tx && j in m.tx[i] then m.tx[i][j] else 0)
    requires bw == (if i in m.bw && j in m.bw[i] then m.bw[i][j] else 0)
    ensures RttOf(m, i, j) == (2 * d + t) % U64
    ensures BdpOf(m, i, j) == RttOf(m, i, j) * bw % U64 / 8_000_000_000
  {
    WrapAdd(2 * d, t);
    var x := RttOf(m, i, j) * bw % U64;
    assert x / 1_000_000_000 / 8 == x / 8_000_000_000;
  }

  /** What is stored in the end: both values under both orders of every two hosts, and nothing else; the maxima bound
      them and are attained, or are 0. */
  lemma StoredPairs(n: nat, sw: set<Node>, m: Metrics, pairRtt: Pairs, pairBdp: Pairs, maxRtt: nat, maxBdp: nat, a: Node, b: Node)
    requires MaxSoFar(n, sw, m, n, 0, maxRtt, maxBdp) && Filled(n, sw, m, n, 0, pairRtt, pairBdp)
    ensures a < b < n && a !in sw && b !in sw ==>
      && Entry(pairRtt, a, b) == Entry(pairRtt, b, a) == Some(RttOf(m, a, b)) && RttOf(m, a, b) <= maxRtt
      && Entry(pairBdp, a, b) == Entry(pairBdp, b, a) == Some(BdpOf(m, a, b)) && BdpOf(m, a, b) <= maxBdp
    ensures a == b || a >= n || a in sw ==>
      Entry(pairRtt, a, b) == Entry(pairRtt, b, a) == None && Entry(pairBdp, a, b) == Entry(pairBdp, b, a) == None
    ensures maxRtt == 0 || exists x: Node, y: Node :: x < y < n && x !in sw && y !in sw && RttOf(m, x, y) == maxRtt
    ensures maxBdp == 0 || exists x: Node, y: Node :: x < y < n && x !in sw && y !in sw && BdpOf(m, x, y) == maxBdp
  {
    hide RttOf, BdpOf;
    assert CellIs(n, sw, m, n, 0, pairRtt, pairBdp, a, b) && CellIs(n, sw, m, n, 0, pairRtt, pairBdp, b, a);
    assert a < b < n && a !in sw && b !in sw ==> Seen(n, sw, n, 0, a, b);
  }

  lemma OneMorePair(n: nat, sw: set<Node>, m: Metrics, i: nat, j: nat, pairRtt: Pairs, pairBdp: Pairs, maxRtt: nat, maxBdp: nat)
    requires MaxSoFar(n, sw, m, i, j, maxRtt, maxBdp) && Filled(n, sw, m, i, j, pairRtt, pairBdp)
    requires HostPair(n, sw, i, j)
    ensures MaxSoFar(n, sw, m, i, j + 1, if RttOf(m, i, j) > maxRtt then RttOf(m, i, j) else maxRtt,
                     if BdpOf(m, i, j) > maxBdp then BdpOf(m, i, j) else maxBdp)
    ensures Filled(n, sw, m, i, j + 1, Put(Put(pairRtt, i, j, RttOf(m, i, j)), j, i, RttOf(m, i, j)),
                   Put(Put(pairBdp, i, j, BdpOf(m, i, j)), j, i, BdpOf(m, i, j)))
  {
    hide RttOf, BdpOf;
    var r, d := RttOf(m, i, j), BdpOf(m, i, j);
    forall a: Node, b: Node ensures Seen(n, sw, i, j + 1, a, b) <==> Seen(n, sw, i, j, a, b) || (a == i && b == j) {
    }
    var rtts, bdps := Put(Put(pairRtt, i, j, r), j, i, r), Put(Put(pairBdp, i, j, d), j, i, d);
    var next := j + 1;
    forall a: Node, b: Node ensures CellIs(n, sw, m, i, next, rtts, bdps, a, b) {
      assert CellIs(n, sw, m, i, j, pairRtt, pairBdp, a, b);
    }
    if r > maxRtt { assert Seen(n, sw, i, j + 1, i, j) && RttOf(m, i, j) == r; }
    if d > maxBdp { assert Seen(n, sw, i, j + 1, i, j) && BdpOf(m, i, j) == d; }
  }

  /** Moving on without a pair in between. */
  lemma SamePairs(n: nat, sw: set<Node>, m: Metrics, i: nat, j: nat, i': nat, j': nat,
                  pairRtt: Pairs, pairBdp: Pairs, maxRtt: nat, maxBdp: nat)
    requires MaxSoFar(n, sw, m, i, j, maxRtt, maxBdp) && Filled(n, sw, m, i, j, pairRtt, pairBdp)
    requires forall a: Node, b: Node :: Seen(n, sw, i, j, a, b) <==> Seen(n, sw, i', j', a, b)
    ensures MaxSoFar(n, sw, m, i', j', maxRtt, maxBdp) && Filled(n, sw, m, i', j', pairRtt, pairBdp)
  {
    hide RttOf, BdpOf;
    forall a: Node, b: Node ensures CellIs(n, sw, m, i', j', pairRtt, pairBdp, a, b) {
      assert CellIs(n, sw, m, i, j, pairRtt, pairBdp, a, b);
    }
  }

  lemma NoPairs(n: nat, sw: set<Node>, m: Metrics)
    ensures MaxSoFar(n, sw, m, 0, 0, 0, 0) && Filled(n, sw, m, 0, 0, map[], map[])
  {
  }

  /** The outer loop over the first host of a pair. */
  method ComputeRtts(n: nat, sw: set<Node>, m: Metrics)
    returns (pairRtt: Pairs, pairBdp: Pairs, maxRtt: nat, maxBdp: nat)
    ensures MaxSoFar(n, sw, m, n, 0, maxRtt, maxBdp) && Filled(n, sw, m, n, 0, pairRtt, pairBdp)
  {
    hide MaxSoFar, Filled;
    pairRtt, pairBdp, maxRtt, maxBdp := map[], map[], 0, 0;
    NoPairs(n, sw, m);
    for i := 0 to n
      invariant MaxSoFar(n, sw, m, i, 0, maxRtt, maxBdp) && Filled(n, sw, m, i, 0, pairRtt, pairBdp)
    {
      if i in sw {
        SamePairs(n, sw, m, i, 0, i + 1, 0, pairRtt, pairBdp, maxRtt, maxBdp);
      } else {
        pairRtt, pairBdp, maxRtt, maxBdp := ComputeRow(n, sw, m, i, pairRtt, pairBdp, maxRtt, maxBdp);
        SamePairs(n, sw, m, i, n, i + 1, 0, pairRtt, pairBdp, maxRtt, maxBdp);
      }
    }
  }

  /** The inner loop over the second host. */
  method ComputeRow(n: nat, sw: set<Node>, m: Metrics, i: nat, pairRtt0: Pairs, pairBdp0: Pairs, maxRtt0: nat, maxBdp0: nat)
    returns (pairRtt: Pairs, pairBdp: Pairs, maxRtt: nat, maxBdp: nat)
    requires MaxSoFar(n, sw, m, i, 0, maxRtt0, maxBdp0) && Filled(n, sw, m, i, 0, pairRtt0, pairBdp0)
    requires i < n && i !in sw
    ensures MaxSoFar(n, sw, m, i, n, maxRtt, maxBdp) && Filled(n, sw, m, i, n, pairRtt, pairBdp)
  {
    hide MaxSoFar, Filled, Bdp, Add64;
    pairRtt, pairBdp, maxRtt, maxBdp := pairRtt0, pairBdp0, maxRtt0, maxBdp0;
    SamePairs(n, sw, m, i, 0, i, i + 1, pairRtt, pairBdp, maxRtt, maxBdp);
    for j := i + 1 to n
      invariant MaxSoFar(n, sw, m, i, j, maxRtt, maxBdp) && Filled(n, sw, m, i, j, pairRtt, pairBdp)
    {
      if j !in sw {
        OneMorePair(n, sw, m, i, j, pairRtt, pairBdp, maxRtt, maxBdp);
        var delay := Value(m.delay, i, j);
        var txDelay := Value(m.tx, i, j);
        var rtt := Add64(delay * 2 % U64, txDelay);
        var bdp := Bdp(rtt, Value(m.bw, i, j));
        pairBdp := Put(pairBdp, i, j, bdp);
        pairBdp := Put(pairBdp, j, i, bdp);
        pairRtt := Put(pairRtt, i, j, rtt);
        pairRtt := Put(pairRtt, j, i, rtt);
        maxBdp := if bdp > maxBdp then bdp else maxBdp;
        maxRtt := if rtt > maxRtt then rtt else maxRtt;
      } else {
        SamePairs(n, sw, m, i, j, i, j + 1, pairRtt, pairBdp, maxRtt, maxBdp);
      }
    }
  }
}
