/** Load-balancer setup: every ToR-to-ToR path is found by chaining next hops and packed into a 32-bit id. */
module PathIds {
  import opened Graph
  import opened Routing

  // ----- packing

  function ByteAt(ports: seq<nat>, i: nat): nat {
    if i < |ports| then ports[i] % 256 else 0
  }

  /** `*((uint32_t *)path_ports)` on a little-endian machine. */
  function PackId(ports: seq<nat>): nat {
    ByteAt(ports, 0) + 0x100 * ByteAt(ports, 1) + 0x1_0000 * ByteAt(ports, 2) + 0x100_0000 * ByteAt(ports, 3)
  }

  /** The i-th byte of the id, from the least significant, is the low byte of the i-th port, or 0 past the last. */
  lemma IdBytesAre(ports: seq<nat>)
    requires |ports| <= 4
    ensures var id := PackId(ports);
      && id < 0x1_0000_0000
      && id % 256 == (if |ports| > 0 then ports[0] % 256 else 0)
      && id / 0x100 % 256 == (if |ports| > 1 then ports[1] % 256 else 0)
      && id / 0x1_0000 % 256 == (if |ports| > 2 then ports[2] % 256 else 0)
      && id / 0x100_0000 == (if |ports| > 3 then ports[3] % 256 else 0)
  {
    var a, b, c, d := ByteAt(ports, 0), ByteAt(ports, 1), ByteAt(ports, 2), ByteAt(ports, 3);
    Quotients(a, b, c, d);
  }

  lemma Quotients(a: nat, b: nat, c: nat, d: nat)
    requires a < 256 && b < 256 && c < 256 && d < 256
    ensures var id := a + 0x100 * b + 0x1_0000 * c + 0x100_0000 * d;
      id < 0x1_0000_0000 && id % 256 == a && id / 0x100 % 256 == b && id / 0x1_0000 % 256 == c && id / 0x100_0000 == d
  {
  }

  predicate PortNumbers(ports: seq<nat>) {
    |ports| <= 4 && forall i :: 0 <= i < |ports| ==> 1 <= ports[i] <= 255
  }

  /** With at most four ports, all within 1..255, the id tells the whole path, its length included. */
  lemma PackIsInjective(p: seq<nat>, q: seq<nat>)
    requires PortNumbers(p) && PortNumbers(q) && PackId(p) == PackId(q)
    ensures p == q
  {
    FourDigits(ByteAt(p, 0), ByteAt(p, 1), ByteAt(p, 2), ByteAt(p, 3), ByteAt(q, 0), ByteAt(q, 1), ByteAt(q, 2), ByteAt(q, 3));
    SameBytes(p, q);
  }

  lemma SameBytes(p: seq<nat>, q: seq<nat>)
    requires PortNumbers(p) && PortNumbers(q)
    requires ByteAt(p, 0) == ByteAt(q, 0) && ByteAt(p, 1) == ByteAt(q, 1) && ByteAt(p, 2) == ByteAt(q, 2) && ByteAt(p, 3) == ByteAt(q, 3)
    ensures p == q
  {
    assert |p| <= 4 && |q| <= 4;
    hide PortNumbers, ByteAt;
    if |p| < |q| { SameByte(p, q, |p|); NonZero(p, |p|); NonZero(q, |p|); }
    if |q| < |p| { SameByte(p, q, |q|); NonZero(p, |q|); NonZero(q, |q|); }
    forall i | 0 <= i < |p| ensures p[i] == q[i] {
      SameByte(p, q, i);
      PortAt(p, i);
      PortAt(q, i);
    }
  }

  lemma PortAt(p: seq<nat>, i: nat)
    requires PortNumbers(p) && i < |p|
    ensures ByteAt(p, i) == p[i]
  {
  }

  lemma SameByte(p: seq<nat>, q: seq<nat>, i: nat)
    requires ByteAt(p, 0) == ByteAt(q, 0) && ByteAt(p, 1) == ByteAt(q, 1) && ByteAt(p, 2) == ByteAt(q, 2) && ByteAt(p, 3) == ByteAt(q, 3)
    ensures i < 4 ==> ByteAt(p, i) == ByteAt(q, i)
  {
    hide ByteAt;
    assert i < 4 ==> i == 0 || i == 1 || i == 2 || i == 3;
  }

  lemma FourDigits(a0: nat, a1: nat, a2: nat, a3: nat, b0: nat, b1: nat, b2: nat, b3: nat)
    requires a0 < 256 && a1 < 256 && a2 < 256 && a3 < 256 && b0 < 256 && b1 < 256 && b2 < 256 && b3 < 256
    requires a0 + 0x100 * a1 + 0x1_0000 * a2 + 0x100_0000 * a3 == b0 + 0x100 * b1 + 0x1_0000 * b2 + 0x100_0000 * b3
    ensures a0 == b0 && a1 == b1 && a2 == b2 && a3 == b3
  {
    Digit(a0, a1 + 0x100 * a2 + 0x1_0000 * a3, b0, b1 + 0x100 * b2 + 0x1_0000 * b3);
    Digit(a1, a2 + 0x100 * a3, b1, b2 + 0x100 * b3);
    Digit(a2, a3, b2, b3);
  }

  lemma Digit(a: nat, x: nat, b: nat, y: nat)
    requires a < 256 && b < 256 && a + 0x100 * x == b + 0x100 * y
    ensures a == b && x == y
  {
  }

  lemma NonZero(p: seq<nat>, i: nat)
    requires PortNumbers(p)
    ensures ByteAt(p, i) != 0 <==> i < |p|
  {
  }

  // ----- what the nested loops enumerate

  /** The port sequences of all trips of `m` steps from `x`. */
  ghost function PortSeqs(nb: Neighbours, nh: Table, dst: Node, x: Node, m: nat): set<seq<nat>>
    decreases m, 1, 0
  {
    if m == 0 then {[]} else Via(nb, nh, dst, x, Hops(nh, x, dst), m - 1)
  }

  ghost function Via(nb: Neighbours, nh: Table, dst: Node, x: Node, us: seq<Node>, m: nat): set<seq<nat>>
    decreases m + 1, 0, |us|
  {
    if us == [] then {}
    else var u := us[|us| - 1];
         Via(nb, nh, dst, x, us[..|us| - 1], m)
         + set r | r in PortSeqs(nb, nh, dst, u, m) :: [Port(nb, x, u)] + r
  }

  ghost function Ids(prefix: seq<nat>, rs: set<seq<nat>>): set<nat> {
    set r | r in rs :: PackId(prefix + r)
  }

  lemma ViaSnoc(nb: Neighbours, nh: Table, dst: Node, x: Node, us: seq<Node>, i: nat, m: nat, prefix: seq<nat>)
    requires i < |us|
    ensures Ids(prefix, Via(nb, nh, dst, x, us[..i + 1], m))
         == Ids(prefix, Via(nb, nh, dst, x, us[..i], m))
          + Ids(prefix + [Port(nb, x, us[i])], PortSeqs(nb, nh, dst, us[i], m))
  {
    var u := us[i];
    var old_, new_ := Via(nb, nh, dst, x, us[..i], m), set r | r in PortSeqs(nb, nh, dst, u, m) :: [Port(nb, x, u)] + r;
    assert us[..i + 1][..i] == us[..i];
    assert Via(nb, nh, dst, x, us[..i + 1], m) == old_ + new_;
    forall r ensures prefix + ([Port(nb, x, u)] + r) == prefix + [Port(nb, x, u)] + r {
    }
    forall id | id in Ids(prefix + [Port(nb, x, u)], PortSeqs(nb, nh, dst, u, m)) ensures id in Ids(prefix, new_) {
      var r :| r in PortSeqs(nb, nh, dst, u, m) && id == PackId(prefix + [Port(nb, x, u)] + r);
      assert [Port(nb, x, u)] + r in new_;
    }
  }

  lemma LastStep(nb: Neighbours, nh: Table, dst: Node, x: Node, tor: Node, prefix: seq<nat>)
    requires Hops(nh, x, dst) == [tor]
    ensures Ids(prefix, PortSeqs(nb, nh, dst, x, 1)) == {PackId(prefix + [Port(nb, x, tor)])}
  {
    assert [tor][..0] == [];
    assert Via(nb, nh, dst, x, [], 0) == {};
    assert Via(nb, nh, dst, x, [tor], 0) == {[Port(nb, x, tor)]} by {
      assert [Port(nb, x, tor)] + [] == [Port(nb, x, tor)];
    }
  }

  // ----- single-homed hosts

  /** `dst`'s only up link leads to the switch `tor`. */
  ghost predicate HomedAt(nb: Neighbours, sw: set<Node>, dst: Node, tor: Node) {
    tor in sw && forall u :: Up(nb, dst, u) <==> u == tor
  }

  lemma OnlyTorAtOne(nb: Neighbours, sw: set<Node>, dst: Node, tor: Node, x: Node)
    requires Symmetric(nb) && dst !in sw && HomedAt(nb, sw, dst, tor)
    requires Reachable(nb, sw, dst, x)
    ensures Dist(nb, sw, dst, x) == 1 <==> x == tor
  {
    HostAtZero(nb, sw, dst);
    if Dist(nb, sw, dst, x) == 1 {
      var u := OneNearer(nb, sw, dst, x);
      OnlyHostAtZero(nb, sw, dst, u);
    }
    if x == tor {
      OneFarther(nb, sw, dst, dst, tor);
      if Dist(nb, sw, dst, x) == 0 { OnlyHostAtZero(nb, sw, dst, x); }
    }
  }

  /** The test in the loops, one next hop which is the destination ToR, singles out distance two. */
  lemma HomeTest(nb: Neighbours, sw: set<Node>, n: nat, nh: Table, dst: Node, tor: Node, x: Node)
    requires Symmetric(nb) && Exact(nb, sw, n, nh) && dst < n && dst !in sw && HomedAt(nb, sw, dst, tor)
    requires Reachable(nb, sw, dst, x)
    ensures Hops(nh, x, dst) == [tor] <==> Dist(nb, sw, dst, x) == 2
  {
    var s := Hops(nh, x, dst);
    assert ListsNextHops(nb, sw, dst, x, s);
    HostAtZero(nb, sw, dst);
    if s == [tor] {
      assert tor in s;
      OnlyTorAtOne(nb, sw, dst, tor, tor);
    }
    if Dist(nb, sw, dst, x) == 2 {
      forall u | u in s ensures u == tor { OnlyTorAtOne(nb, sw, dst, tor, u); }
      var u := OneNearer(nb, sw, dst, x);
      assert u in s;
      assert s[0] in s && s[|s| - 1] in s;
    }
  }

  lemma HopsNearer(nb: Neighbours, sw: set<Node>, n: nat, nh: Table, dst: Node, x: Node)
    requires Exact(nb, sw, n, nh) && dst < n && dst !in sw && Reachable(nb, sw, dst, x)
    ensures forall u :: u in Hops(nh, x, dst) ==> Reachable(nb, sw, dst, u) && Dist(nb, sw, dst, u) + 1 == Dist(nb, sw, dst, x)
    ensures Hops(nh, x, dst) == [] <==> Dist(nb, sw, dst, x) == 0
  {
    assert ListsNextHops(nb, sw, dst, x, Hops(nh, x, dst));
    HostAtZero(nb, sw, dst);
    if Dist(nb, sw, dst, x) > 0 {
      var u := OneNearer(nb, sw, dst, x);
      assert u in Hops(nh, x, dst);
    }
    if Hops(nh, x, dst) != [] {
      assert Hops(nh, x, dst)[0] in Hops(nh, x, dst);
    }
  }

  lemma NotTooNear(nb: Neighbours, sw: set<Node>, dst: Node, tor: Node, src: Node)
    requires Symmetric(nb) && dst !in sw && HomedAt(nb, sw, dst, tor) && src in sw && src != tor && Reachable(nb, sw, dst, src)
    ensures Dist(nb, sw, dst, src) >= 2
  {
    OnlyTorAtOne(nb, sw, dst, tor, src);
    if Dist(nb, sw, dst, src) == 0 { OnlyHostAtZero(nb, sw, dst, src); }
  }

  type Key = (Node, Node)

  function Known(table: map<Key, set<nat>>, k: Key): set<nat> {
    if k in table then table[k] else {}
  }

  /** The set `added` was inserted under `k`, and with the first insertion the RTT `rtt`. */
  ghost predicate Inserted(t0: map<Key, set<nat>>, r0: map<Key, nat>, k: Key, added: set<nat>, rtt: nat,
                           t: map<Key, set<nat>>, r: map<Key, nat>) {
    && Known(t, k) == Known(t0, k) + added
    && (forall j: Key :: j != k ==> Known(t, j) == Known(t0, j))
    && r == if added == {} then r0 else r0[k := rtt]
  }

  /** `added`, and the ids found by way of the next hops `us` of `x`, for the depths the loops handle. */
  ghost function Part(added: set<nat>, nb: Neighbours, nh: Table, dst: Node, x: Node, us: seq<Node>, e: nat, deepest: nat,
                      ports: seq<nat>): set<nat> {
    if 3 <= e <= deepest then added + Ids(ports, Via(nb, nh, dst, x, us, e - 2)) else added
  }

  /** The ids of the trips from `x`, at distance `e`, to the ToR of `dst`, for the depths the loops handle. */
  ghost function Found(nb: Neighbours, nh: Table, dst: Node, x: Node, e: nat, deepest: nat, ports: seq<nat>): set<nat> {
    if 3 <= e <= deepest then Ids(ports, PortSeqs(nb, nh, dst, x, e - 1)) else {}
  }

  lemma PartBounds(added: set<nat>, nb: Neighbours, nh: Table, dst: Node, x: Node, us: seq<Node>, e: nat, deepest: nat, ports: seq<nat>)
    requires us == Hops(nh, x, dst)
    ensures Part(added, nb, nh, dst, x, us[..0], e, deepest, ports) == added
    ensures Part(added, nb, nh, dst, x, us[..|us|], e, deepest, ports) == added + Found(nb, nh, dst, x, e, deepest, ports)
  {
    assert us[..0] == [] && us[..|us|] == us;
  }

  lemma PartDeeper(added: set<nat>, nb: Neighbours, nh: Table, dst: Node, x: Node, us: seq<Node>, i: nat, e: nat, deepest: nat, ports: seq<nat>)
    requires i < |us| && e != 3 && e > 0 && deepest > 0
    ensures Part(added, nb, nh, dst, x, us[..i + 1], e, deepest, ports)
         == Part(added, nb, nh, dst, x, us[..i], e, deepest, ports)
          + Found(nb, nh, dst, us[i], e - 1, deepest - 1, ports + [Port(nb, x, us[i])])
  {
    if 3 <= e <= deepest { ViaSnoc(nb, nh, dst, x, us, i, e - 2, ports); }
  }

  lemma PartLast(added: set<nat>, nb: Neighbours, nh: Table, dst: Node, tor: Node, x: Node, us: seq<Node>, i: nat, deepest: nat, ports: seq<nat>)
    requires i < |us| && Hops(nh, us[i], dst) == [tor] && deepest >= 3
    ensures Part(added, nb, nh, dst, x, us[..i + 1], 3, deepest, ports) == Part(added, nb, nh, dst, x, us[..i], 3, deepest, ports)
      + {PackId(ports + [Port(nb, x, us[i])] + [Port(nb, us[i], tor)])}
  {
    ViaSnoc(nb, nh, dst, x, us, i, 1, ports);
    LastStep(nb, nh, dst, us[i], tor, ports + [Port(nb, x, us[i])]);
  }

  lemma OneElement(s: seq<Node>, x: Node)
    ensures |s| == 1 && s[0] == x <==> s == [x]
  {
  }

  lemma SomeHop(nb: Neighbours, sw: set<Node>, n: nat, nh: Table, dst: Node, x: Node)
    requires Exact(nb, sw, n, nh) && dst < n && dst !in sw && Reachable(nb, sw, dst, x)
    ensures Hops(nh, x, dst) == [] <==> Dist(nb, sw, dst, x) == 0
  {
    HopsNearer(nb, sw, n, nh, dst, x);
  }

  /** What the loops learn of the `i`-th next hop of `x`. */
  lemma HopFacts(nb: Neighbours, sw: set<Node>, n: nat, nh: Table, dst: Node, tor: Node, x: Node, i: nat)
    requires Symmetric(nb) && Exact(nb, sw, n, nh) && dst < n && dst !in sw && HomedAt(nb, sw, dst, tor)
    requires Reachable(nb, sw, dst, x) && i < |Hops(nh, x, dst)|
    ensures Reachable(nb, sw, dst, Hops(nh, x, dst)[i])
    ensures Dist(nb, sw, dst, Hops(nh, x, dst)[i]) + 1 == Dist(nb, sw, dst, x)
    ensures Hops(nh, Hops(nh, x, dst)[i], dst) == [tor] <==> Dist(nb, sw, dst, x) == 3
  {
    var u := Hops(nh, x, dst)[i];
    assert u in Hops(nh, x, dst);
    HopsNearer(nb, sw, n, nh, dst, x);
    HomeTest(nb, sw, n, nh, dst, tor, u);
  }

  /** A third hop is the last before the ToR or too far away. */
  lemma ThirdHop(nb: Neighbours, sw: set<Node>, n: nat, nh: Table, dst: Node, tor: Node, x: Node, us: seq<Node>, i: nat, e: nat,
                 added: set<nat>, ports: seq<nat>)
    requires Symmetric(nb) && Exact(nb, sw, n, nh) && dst < n && dst !in sw && HomedAt(nb, sw, dst, tor)
    requires Reachable(nb, sw, dst, x) && us == Hops(nh, x, dst) && i < |us| && e == Dist(nb, sw, dst, x) && e != 1 && e != 2
    ensures if Hops(nh, us[i], dst) == [tor] then
              e == 3 && Part(added, nb, nh, dst, x, us[..i + 1], e, 3, ports)
                        == Part(added, nb, nh, dst, x, us[..i], e, 3, ports)
                           + {PackId(ports + [Port(nb, x, us[i])] + [Port(nb, us[i], tor)])}
            else e > 3
  {
    HopFacts(nb, sw, n, nh, dst, tor, x, i);
    SomeHop(nb, sw, n, nh, dst, x);
    hide *;
    if Hops(nh, us[i], dst) == [tor] { PartLast(added, nb, nh, dst, tor, x, us, i, 3, ports); }
  }

  lemma InsertedNothing(t0: map<Key, set<nat>>, r0: map<Key, nat>, k: Key, rtt: nat)
    ensures Inserted(t0, r0, k, {}, rtt, t0, r0)
  {
  }

  lemma OneMore(t0: map<Key, set<nat>>, r0: map<Key, nat>, k: Key, added: set<nat>, rtt: nat,
                t: map<Key, set<nat>>, r: map<Key, nat>, id: nat)
    requires Inserted(t0, r0, k, added, rtt, t, r)
    ensures Inserted(t0, r0, k, added + {id}, rtt, t[k := Known(t, k) + {id}], r[k := rtt])
  {
  }

  /** Packing the bytes of the buffer, zeros included, is packing the ports written to it. */
  lemma BufferPacks(bytes: seq<nat>, ports: seq<nat>)
    requires |bytes| == 4 && |ports| <= 4
    requires forall i :: 0 <= i < 4 ==> bytes[i] == if i < |ports| then ports[i] % 256 else 0
    ensures PackId(bytes) == PackId(ports)
  {
    hide ByteAt;
    BufferByte(bytes, ports, 0);
    BufferByte(bytes, ports, 1);
    BufferByte(bytes, ports, 2);
    BufferByte(bytes, ports, 3);
  }

  lemma BufferByte(bytes: seq<nat>, ports: seq<nat>, i: nat)
    requires i < |bytes| && bytes[i] == if i < |ports| then ports[i] % 256 else 0
    ensures ByteAt(bytes, i) == ByteAt(ports, i)
  {
  }

  /** Four, six or eight one-hop delays: there and back over `hops` hops. */
  function BaseRtt(oneHopDelay: nat, hops: nat): (rtt: nat)
    ensures hops == 2 ==> rtt == 4 * oneHopDelay
    ensures hops == 3 ==> rtt == 6 * oneHopDelay
    ensures hops == 4 ==> rtt == 8 * oneHopDelay
  {
    oneHopDelay * (2 * hops)
  }

  /** No byte from position `hops` on was written. */
  ghost predicate Clean(pathPorts: array<nat>, hops: nat)
    reads pathPorts
  {
    pathPorts.Length == 4 && forall i :: hops <= i < 4 ==> pathPorts[i] == 0
  }

  class LoadBalancer {
    const oneHopDelay: nat
    /** For each pair of source and destination ToR, the ids of the paths between them. */
    var pathTable: map<Key, set<nat>>
    var rxToRId2BaseRTT: map<Key, nat>

    constructor (oneHopDelay: nat)
      ensures this.oneHopDelay == oneHopDelay && pathTable == map[] && rxToRId2BaseRTT == map[]
    {
      this.oneHopDelay, pathTable, rxToRId2BaseRTT := oneHopDelay, map[], map[];
    }

    /** Writes the ports of one path into the buffer and inserts the id that the whole buffer then makes. */
    method Record(k: Key, ports: seq<nat>, pathPorts: array<nat>,
                  ghost t0: map<Key, set<nat>>, ghost r0: map<Key, nat>, ghost added: set<nat>)
      requires |ports| <= 4 && Clean(pathPorts, |ports|)
      requires Inserted(t0, r0, k, added, BaseRtt(oneHopDelay, |ports|), pathTable, rxToRId2BaseRTT)
      modifies `pathTable, `rxToRId2BaseRTT, pathPorts
      ensures Clean(pathPorts, |ports|)
      ensures Inserted(t0, r0, k, added + {PackId(ports)}, BaseRtt(oneHopDelay, |ports|), pathTable, rxToRId2BaseRTT)
    {
      for i := 0 to |ports|
        modifies pathPorts
        invariant forall j :: 0 <= j < 4 ==> j < i ==> pathPorts[j] == ports[j] % 256
        invariant forall j :: |ports| <= j < 4 ==> pathPorts[j] == 0
      {
        pathPorts[i] := ports[i] % 256;
      }
      var pathId := PackId(pathPorts[..]);
      BufferPacks(pathPorts[..], ports);
      OneMore(t0, r0, k, added, BaseRtt(oneHopDelay, |ports|), pathTable, rxToRId2BaseRTT, pathId);
      pathTable := pathTable[k := Known(pathTable, k) + {pathId}];
      rxToRId2BaseRTT := rxToRId2BaseRTT[k := BaseRtt(oneHopDelay, |ports|)];
    }

    /** The innermost loop: the third hops of the paths that go on from `next2`. */
    method FollowThird(nb: Neighbours, nh: Table, src: Node, dst: Node, tor: Node, ports: seq<nat>,
                       next2: Node, pathPorts: array<nat>, ghost e: nat,
                       ghost sw: set<Node>, ghost n: nat, ghost t0: map<Key, set<nat>>, ghost r0: map<Key, nat>, ghost added: set<nat>)
      returns (ok: bool)
      requires Symmetric(nb) && Exact(nb, sw, n, nh) && dst < n && dst !in sw && HomedAt(nb, sw, dst, tor)
      requires Reachable(nb, sw, dst, next2) && e == Dist(nb, sw, dst, next2) && e != 1 && e != 2
      requires |ports| == 2 && Clean(pathPorts, e + 1)
      requires Inserted(t0, r0, (src, tor), added, BaseRtt(oneHopDelay, e + 1), pathTable, rxToRId2BaseRTT)
      modifies `pathTable, `rxToRId2BaseRTT, pathPorts
      ensures ok <==> e <= 3
      ensures ok ==> Clean(pathPorts, e + 1)
      ensures ok ==> Inserted(t0, r0, (src, tor),
                       added + Found(nb, nh, dst, next2, e, 3, ports),
                       BaseRtt(oneHopDelay, e + 1), pathTable, rxToRId2BaseRTT)
    {
      var nexts3 := Hops(nh, next2, dst);
      ghost var rtt: nat := BaseRtt(oneHopDelay, e + 1);
      hide *;
      SomeHop(nb, sw, n, nh, dst, next2);
      PartBounds(added, nb, nh, dst, next2, nexts3, e, 3, ports);
      for i3 := 0 to |nexts3|
        invariant i3 == 0 || e == 3
        invariant Clean(pathPorts, e + 1)
        invariant Inserted(t0, r0, (src, tor), Part(added, nb, nh, dst, next2, nexts3[..i3], e, 3, ports), rtt,
                           pathTable, rxToRId2BaseRTT)
      {
        var next3 := nexts3[i3];
        var outPort3 := Port(nb, next2, next3);
        var nexts4 := Hops(nh, next3, dst);
        ThirdHop(nb, sw, n, nh, dst, tor, next2, nexts3, i3, e, added, ports);
        ghost var sofar := Part(added, nb, nh, dst, next2, nexts3[..i3], e, 3, ports);
        OneElement(nexts4, tor);
        if !(|nexts4| == 1 && nexts4[0] == tor) {
          return false;
        }
        assert e == 3;
        var outPort4 := Port(nb, next3, nexts4[0]);
        Record((src, tor), ports + [outPort3] + [outPort4], pathPorts, t0, r0, sofar);
      }
      return true;
    }

    /** The middle loop: the second hops of the paths that go on from `next1`. */
    method FollowSecond(nb: Neighbours, nh: Table, src: Node, dst: Node, tor: Node, ports: seq<nat>,
                        next1: Node, pathPorts: array<nat>, ghost e: nat,
                        ghost sw: set<Node>, ghost n: nat, ghost t0: map<Key, set<nat>>, ghost r0: map<Key, nat>, ghost added: set<nat>)
      returns (ok: bool)
      requires Symmetric(nb) && Exact(nb, sw, n, nh) && dst < n && dst !in sw && HomedAt(nb, sw, dst, tor)
      requires Reachable(nb, sw, dst, next1) && e == Dist(nb, sw, dst, next1) && e != 2
      requires |ports| == 1 && Clean(pathPorts, e)
      requires Inserted(t0, r0, (src, tor), added, BaseRtt(oneHopDelay, e), pathTable, rxToRId2BaseRTT)
      modifies `pathTable, `rxToRId2BaseRTT, pathPorts
      ensures ok <==> e <= 4
      ensures ok ==> Clean(pathPorts, e)
      ensures ok ==> Inserted(t0, r0, (src, tor),
                       added + Found(nb, nh, dst, next1, e, 4, ports),
                       BaseRtt(oneHopDelay, e), pathTable, rxToRId2BaseRTT)
    {
      var nexts2 := Hops(nh, next1, dst);
      ghost var rtt: nat := BaseRtt(oneHopDelay, e);
      hide *;
      SomeHop(nb, sw, n, nh, dst, next1);
      PartBounds(added, nb, nh, dst, next1, nexts2, e, 4, ports);
      for i2 := 0 to |nexts2|
        invariant e > 4 ==> i2 == 0
        invariant Clean(pathPorts, e)
        invariant Inserted(t0, r0, (src, tor), Part(added, nb, nh, dst, next1, nexts2[..i2], e, 4, ports), rtt,
                           pathTable, rxToRId2BaseRTT)
      {
        var next2 := nexts2[i2];
        var outPort2 := Port(nb, next1, next2);
        var nexts3 := Hops(nh, next2, dst);
        HopFacts(nb, sw, n, nh, dst, tor, next1, i2);
        ghost var sofar := Part(added, nb, nh, dst, next1, nexts2[..i2], e, 4, ports);
        if |nexts3| == 1 && nexts3[0] == tor {
          assert nexts3 == [tor];
          var outPort3 := Port(nb, next2, nexts3[0]);
          PartLast(added, nb, nh, dst, tor, next1, nexts2, i2, 4, ports);
          Record((src, tor), ports + [outPort2] + [outPort3], pathPorts, t0, r0, sofar);
          continue;
        }
        assert nexts3 != [tor];
        PartDeeper(added, nb, nh, dst, next1, nexts2, i2, e, 4, ports);
        ok := FollowThird(nb, nh, src, dst, tor, ports + [outPort2], next2, pathPorts, e - 1, sw, n, t0, r0, sofar);
        if !ok {
          return false;
        }
      }
      return true;
    }

    /** The loops over the paths from ToR `src` to the ToR of host `dst`; `ok` is false when the
        program gives up because the topology is too deep. */
    method EnumeratePaths(nb: Neighbours, nh: Table, src: Node, dst: Node, tor: Node, ghost sw: set<Node>, ghost n: nat)
      returns (ok: bool)
      requires Symmetric(nb) && Exact(nb, sw, n, nh) && dst < n && dst !in sw && HomedAt(nb, sw, dst, tor)
      requires src in sw && src != tor && Reachable(nb, sw, dst, src)
      modifies this
      ensures ok <==> Dist(nb, sw, dst, src) <= 5
      ensures ok ==> Inserted(old(pathTable), old(rxToRId2BaseRTT), (src, tor),
                       Found(nb, nh, dst, src, Dist(nb, sw, dst, src), 5, []), BaseRtt(oneHopDelay, Dist(nb, sw, dst, src) - 1),
                       pathTable, rxToRId2BaseRTT)
    {
      var pathPorts := new nat[4](_ => 0);
      assert forall k: nat :: Clean(pathPorts, k);
      hide *;
      NotTooNear(nb, sw, dst, tor, src);
      var nexts1 := Hops(nh, src, dst);
      ghost var e: nat := Dist(nb, sw, dst, src);
      ghost var rtt: nat := BaseRtt(oneHopDelay, e - 1);
      ghost var t0, r0 := pathTable, rxToRId2BaseRTT;
      InsertedNothing(t0, r0, (src, tor), rtt);
      PartBounds({}, nb, nh, dst, src, nexts1, e, 5, []);
      assert {} + Found(nb, nh, dst, src, e, 5, []) == Found(nb, nh, dst, src, e, 5, []);
      SomeHop(nb, sw, n, nh, dst, src);
      for i1 := 0 to |nexts1|
        invariant e > 5 ==> i1 == 0
        invariant Clean(pathPorts, e - 1)
        invariant Inserted(t0, r0, (src, tor), Part({}, nb, nh, dst, src, nexts1[..i1], e, 5, []), rtt,
                           pathTable, rxToRId2BaseRTT)
      {
        var next1 := nexts1[i1];
        var outPort1 := Port(nb, src, next1);
        var nexts2 := Hops(nh, next1, dst);
        HopFacts(nb, sw, n, nh, dst, tor, src, i1);
        ghost var sofar := Part({}, nb, nh, dst, src, nexts1[..i1], e, 5, []);
        if |nexts2| == 1 && nexts2[0] == tor {
          assert nexts2 == [tor];
          var outPort2 := Port(nb, next1, nexts2[0]);
          PartLast({}, nb, nh, dst, tor, src, nexts1, i1, 5, []);
          Record((src, tor), [] + [outPort1] + [outPort2], pathPorts, t0, r0, sofar);
          continue;
        }
        assert nexts2 != [tor];
        PartDeeper({}, nb, nh, dst, src, nexts1, i1, e, 5, []);
        ok := FollowSecond(nb, nh, src, dst, tor, [] + [outPort1], next1, pathPorts, e - 1, sw, n, t0, r0, sofar);
        if !ok {
          return false;
        }
      }
      return true;
    }
  }
}
