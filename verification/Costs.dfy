/** What a path costs: delay and transmission time add up, bandwidth is the bottleneck. */
module Costs {
  import opened Graph

  const U64 := 0x1_0000_0000_0000_0000
  const MAX_BW: nat := 0xffff_ffff_ffff_ffff

  /** Nanoseconds to send one packet of `payload` bytes at `bw` bits per second, in 64-bit arithmetic. */
  function TxTime(payload: nat, bw: nat): nat
    requires bw > 0
  {
    payload * 1_000_000_000 % U64 * 8 % U64 / bw
  }

  /** The quotient of the 64-bit number of billionths of bits by the rate, rounded down. */
  lemma TxIsQuotient(payload: nat, bw: nat)
    requires bw > 0
    ensures TxTime(payload, bw) * bw <= payload * 8_000_000_000 % U64 < (TxTime(payload, bw) + 1) * bw
  {
    WrapTimes(payload * 1_000_000_000);
    var x := payload * 8_000_000_000 % U64;
    assert x == x / bw * bw + x % bw;
  }

  lemma WrapTimes(a: nat)
    ensures a % U64 * 8 % U64 == a * 8 % U64
  {
  }

  /** 64-bit unsigned addition. */
  function Add64(a: nat, b: nat): nat {
    (a + b) % U64
  }

  function Min(a: nat, b: nat): nat {
    if b < a then b else a
  }

  /** A 64-bit running total absorbs one more term. */
  lemma WrapAdd(a: nat, b: nat)
    ensures (a % U64 + b) % U64 == (a + b) % U64
  {
  }

  ghost function LinkDelay(nb: Neighbours, a: Node, b: Node): nat
    requires Up(nb, a, b)
  {
    nb[a][b].delay
  }

  ghost function LinkTx(nb: Neighbours, payload: nat, a: Node, b: Node): nat
    requires PositiveRates(nb) && Up(nb, a, b)
  {
    TxTime(payload, nb[a][b].bw)
  }

  /** The sum of the link delays along a path that starts at the host. */
  ghost function PathDelay(nb: Neighbours, sw: set<Node>, p: seq<Node>): nat
    requires IsPath(nb, sw, p)
  {
    if |p| == 1 then 0
    else PathInit(nb, sw, p[0], p[|p| - 1], p);
         PathDelay(nb, sw, p[..|p| - 1]) + LinkDelay(nb, p[|p| - 2], p[|p| - 1])
  }

  ghost function PathTx(nb: Neighbours, sw: set<Node>, payload: nat, p: seq<Node>): nat
    requires IsPath(nb, sw, p) && PositiveRates(nb)
  {
    if |p| == 1 then 0
    else PathInit(nb, sw, p[0], p[|p| - 1], p);
         PathTx(nb, sw, payload, p[..|p| - 1]) + LinkTx(nb, payload, p[|p| - 2], p[|p| - 1])
  }

  /** The bandwidth of the narrowest link, capped by the 64-bit maximum. */
  ghost function PathBw(nb: Neighbours, sw: set<Node>, p: seq<Node>): nat
    requires IsPath(nb, sw, p)
  {
    if |p| == 1 then MAX_BW
    else PathInit(nb, sw, p[0], p[|p| - 1], p);
         Min(PathBw(nb, sw, p[..|p| - 1]), nb[p[|p| - 2]][p[|p| - 1]].bw)
  }

  /** ... no link has less, and one has as much unless none is below the cap. */
  lemma {:induction false} NarrowestLink(nb: Neighbours, sw: set<Node>, p: seq<Node>)
    requires IsPath(nb, sw, p)
    ensures forall i :: 0 <= i < |p| - 1 ==> Up(nb, p[i], p[i + 1]) && PathBw(nb, sw, p) <= nb[p[i]][p[i + 1]].bw
    ensures PathBw(nb, sw, p) == MAX_BW || exists i :: 0 <= i < |p| - 1 && Up(nb, p[i], p[i + 1]) && PathBw(nb, sw, p) == nb[p[i]][p[i + 1]].bw
    ensures PathBw(nb, sw, p) <= 0xffff_ffff_ffff_ffff
    decreases |p|
  {
    if |p| > 1 {
      var init, m := p[..|p| - 1], |p| - 2;
      PathInit(nb, sw, p[0], p[|p| - 1], p);
      NarrowestLink(nb, sw, init);
      forall i | 0 <= i < |p| - 1 ensures Up(nb, p[i], p[i + 1]) && PathBw(nb, sw, p) <= nb[p[i]][p[i + 1]].bw {
        if i < m { assert init[i] == p[i] && init[i + 1] == p[i + 1]; }
      }
      if PathBw(nb, sw, p) == PathBw(nb, sw, init) && PathBw(nb, sw, p) != MAX_BW {
        var i :| 0 <= i < |init| - 1 && Up(nb, init[i], init[i + 1]) && PathBw(nb, sw, init) == nb[init[i]][init[i + 1]].bw;
        assert p[i] == init[i] && p[i + 1] == init[i + 1];
      } else {
        assert Up(nb, p[m], p[m + 1]);
      }
    }
  }

  /** `p` is a shortest path and `delay`, `tx`, `bw` are what it costs, all three along that one path. */
  ghost predicate CostsOf(nb: Neighbours, sw: set<Node>, payload: nat, host: Node, v: Node, p: seq<Node>,
                          delay: nat, tx: nat, bw: nat)
    requires PositiveRates(nb)
  {
    && PathTo(nb, sw, host, v, p)
    && delay == PathDelay(nb, sw, p) % U64
    && tx == PathTx(nb, sw, payload, p) % U64
    && bw == PathBw(nb, sw, p)
  }

  lemma CostsSnoc(nb: Neighbours, sw: set<Node>, payload: nat, host: Node, u: Node, v: Node, p: seq<Node>,
                  delay: nat, tx: nat, bw: nat)
    requires PositiveRates(nb) && CostsOf(nb, sw, payload, host, u, p, delay, tx, bw)
    requires Relays(sw, host, u) && (u == host ==> |p| == 1) && Up(nb, u, v)
    ensures CostsOf(nb, sw, payload, host, v, p + [v],
                    Add64(delay, nb[u][v].delay), Add64(tx, TxTime(payload, nb[u][v].bw)), Min(bw, nb[u][v].bw))
  {
    var q := p + [v];
    PathSnoc(nb, sw, host, u, v, p);
    assert q[..|q| - 1] == p && q[|q| - 2] == u;
    WrapAdd(PathDelay(nb, sw, p), nb[u][v].delay);
    WrapAdd(PathTx(nb, sw, payload, p), TxTime(payload, nb[u][v].bw));
  }

  /** If a potential rises along every next-hop link by what the link costs, every shortest path to a
      node costs that node's potential: the cost does not depend on which shortest path was taken. */
  ghost predicate CostCertificate(nb: Neighbours, sw: set<Node>, payload: nat, host: Node,
                                  delay: map<Node, nat>, tx: map<Node, nat>, bw: map<Node, nat>)
    requires PositiveRates(nb)
  {
    && (forall v {:trigger Reachable(nb, sw, host, v)} :: Reachable(nb, sw, host, v) ==> v in delay && v in tx && v in bw)
    && HostCosts(host, delay, tx, bw)
    && (forall u, v :: IsNextHop(nb, sw, host, v, u) ==> EdgeCosts(nb, payload, u, v, delay, tx, bw))
  }

  ghost predicate EdgeCosts(nb: Neighbours, payload: nat, u: Node, v: Node,
                            delay: map<Node, nat>, tx: map<Node, nat>, bw: map<Node, nat>)
    requires PositiveRates(nb)
  {
    && Up(nb, u, v) && u in delay && v in delay && u in tx && v in tx && u in bw && v in bw
    && delay[v] == delay[u] + nb[u][v].delay
    && tx[v] == tx[u] + TxTime(payload, nb[u][v].bw)
    && bw[v] == Min(bw[u], nb[u][v].bw)
  }

  ghost predicate HostCosts(host: Node, delay: map<Node, nat>, tx: map<Node, nat>, bw: map<Node, nat>) {
    && host in delay && host in tx && host in bw
    && delay[host] == 0 && tx[host] == 0 && bw[host] == MAX_BW
  }

  lemma {:induction false} ShortestPathsCostAlike(nb: Neighbours, sw: set<Node>, payload: nat, host: Node, v: Node,
                                                  p: seq<Node>,
                                                  delay: map<Node, nat>, tx: map<Node, nat>, bw: map<Node, nat>)
    requires PositiveRates(nb) && CostCertificate(nb, sw, payload, host, delay, tx, bw)
    requires PathTo(nb, sw, host, v, p) && |p| == Dist(nb, sw, host, v) + 1
    ensures PathDelay(nb, sw, p) == delay[v] && PathTx(nb, sw, payload, p) == tx[v] && PathBw(nb, sw, p) == bw[v]
    decreases |p|
  {
    if |p| > 1 {
      var u, r := p[|p| - 2], p[..|p| - 1];
      PathInit(nb, sw, host, v, p);
      OneFarther(nb, sw, host, u, v);
      assert IsNextHop(nb, sw, host, v, u) && EdgeCosts(nb, payload, u, v, delay, tx, bw);
      ShortestPathsCostAlike(nb, sw, payload, host, u, r, delay, tx, bw);
    }
  }
}
