/** The global routing tables and the breadth-first searches that fill them. */
module Routing {
  import opened Options
  import opened Graph
  import opened Costs

  /** `nextHop`: for each node and destination host, the equal-cost next hops. */
  type Table = map<Node, map<Node, seq<Node>>>

  type Pairs = map<Node, map<Node, nat>>

  function Hops(nh: Table, v: Node, host: Node): seq<Node> {
    if v in nh && host in nh[v] then nh[v][host] else []
  }

  function Push(nh: Table, v: Node, host: Node, u: Node): (r: Table)
    ensures forall w, h :: Hops(r, w, h) == Hops(nh, w, h) + (if w == v && h == host then [u] else [])
  {
    var row: map<Node, seq<Node>> := if v in nh then nh[v] else map[];
    nh[v := row[host := Hops(nh, v, host) + [u]]]
  }

  function Entry(m: Pairs, v: Node, host: Node): Option<nat> {
    if v in m && host in m[v] then Some(m[v][host]) else None
  }

  function Put(m: Pairs, v: Node, host: Node, x: nat): (r: Pairs)
    ensures forall w, h :: Entry(r, w, h) == if w == v && h == host then Some(x) else Entry(m, w, h)
  {
    var row: map<Node, nat> := if v in m then m[v] else map[];
    m[v := row[host := x]]
  }

  /** `s` lists exactly the next hops of `v` for `host`, each once; the order is left open. */
  ghost predicate ListsNextHops(nb: Neighbours, sw: set<Node>, host: Node, v: Node, s: seq<Node>) {
    NoDup(s) && forall u :: u in s <==> IsNextHop(nb, sw, host, v, u)
  }

  /** What was appended to the list for `v` and `host`. */
  ghost function Added(before: Table, after: Table, v: Node, host: Node): seq<Node> {
    var m, s := |Hops(before, v, host)|, Hops(after, v, host);
    if m <= |s| then s[m..] else []
  }

  ghost predicate RouteFor(nb: Neighbours, sw: set<Node>, host: Node, before: Table, after: Table) {
    forall v :: Hops(before, v, host) <= Hops(after, v, host) && ListsNextHops(nb, sw, host, v, Added(before, after, v, host))
  }

  ghost predicate SameRoutes(host: Node, before: Table, after: Table) {
    forall v :: Hops(after, v, host) == Hops(before, v, host)
  }

  /** One search appends to every list for its own host what a shortest-path router should hold there,
      and touches no other list. */
  ghost predicate RouteAdded(nb: Neighbours, sw: set<Node>, host: Node, before: Table, after: Table) {
    && RouteFor(nb, sw, host, before, after)
    && (forall h :: h != host ==> SameRoutes(h, before, after))
  }

  /** The searches of all hosts below `i`. */
  ghost predicate RoutesAdded(nb: Neighbours, sw: set<Node>, i: nat, before: Table, after: Table) {
    forall h: Node :: if h < i && h !in sw then RouteFor(nb, sw, h, before, after) else SameRoutes(h, before, after)
  }

  lemma OneMoreRoute(nb: Neighbours, sw: set<Node>, i: nat, t0: Table, t1: Table, t2: Table)
    requires RoutesAdded(nb, sw, i, t0, t1)
    requires if i in sw then t2 == t1 else RouteAdded(nb, sw, i, t1, t2)
    ensures RoutesAdded(nb, sw, i + 1, t0, t2)
  {
    forall h: Node
      ensures if h < i + 1 && h !in sw then RouteFor(nb, sw, h, t0, t2) else SameRoutes(h, t0, t2)
    {
      if h == i && h !in sw {
        assert SameRoutes(h, t0, t1);
        forall v ensures Hops(t0, v, h) <= Hops(t2, v, h) && ListsNextHops(nb, sw, h, v, Added(t0, t2, v, h)) {
          assert Hops(t1, v, h) == Hops(t0, v, h);
          assert Added(t0, t2, v, h) == Added(t1, t2, v, h);
        }
      } else {
        assert SameRoutes(h, t1, t2);
        if h < i && h !in sw {
          assert RouteFor(nb, sw, h, t0, t1);
          forall v ensures Hops(t0, v, h) <= Hops(t2, v, h) && ListsNextHops(nb, sw, h, v, Added(t0, t2, v, h)) {
            assert Hops(t2, v, h) == Hops(t1, v, h);
            assert Added(t0, t2, v, h) == Added(t0, t1, v, h);
          }
        } else {
          assert SameRoutes(h, t0, t1);
        }
      }
    }
  }

  lemma FromEmptyIsExact(nb: Neighbours, sw: set<Node>, n: nat, nh: Table)
    requires RoutesAdded(nb, sw, n, map[], nh)
    ensures Exact(nb, sw, n, nh)
  {
    forall v: Node, h: Node
      ensures if h < n && h !in sw then ListsNextHops(nb, sw, h, v, Hops(nh, v, h)) else Hops(nh, v, h) == []
    {
      assert Hops(map[], v, h) == [];
      if h < n && h !in sw {
        assert RouteFor(nb, sw, h, map[], nh);
        assert Added(map[], nh, v, h) == Hops(nh, v, h);
      } else {
        assert SameRoutes(h, map[], nh);
      }
    }
  }

  /** Pair tables: delay, transmission time and bandwidth from a host to each node. */
  datatype Metrics = Metrics(delay: Pairs, tx: Pairs, bw: Pairs)

  /** The entries of `m` for `v` and `host` are the cost of one shortest path. */
  ghost predicate PairCosts(nb: Neighbours, sw: set<Node>, payload: nat, host: Node, v: Node, m: Metrics)
    requires PositiveRates(nb) && Reachable(nb, sw, host, v)
  {
    && Entry(m.delay, v, host).Some? && Entry(m.tx, v, host).Some? && Entry(m.bw, v, host).Some?
    && exists p {:trigger PathTo(nb, sw, host, v, p)} :: PathTo(nb, sw, host, v, p) && |p| == Dist(nb, sw, host, v) + 1
          && CostsOf(nb, sw, payload, host, v, p,
                     Entry(m.delay, v, host).value, Entry(m.tx, v, host).value, Entry(m.bw, v, host).value)
  }

  ghost predicate SameEntry(m0: Metrics, m: Metrics, v: Node, h: Node) {
    && Entry(m.delay, v, h) == Entry(m0.delay, v, h)
    && Entry(m.tx, v, h) == Entry(m0.tx, v, h)
    && Entry(m.bw, v, h) == Entry(m0.bw, v, h)
  }

  /** Whatever the host reaches holds the cost of one shortest path; its other entries are as before. */
  ghost predicate PairsFor(nb: Neighbours, sw: set<Node>, payload: nat, host: Node, m0: Metrics, m: Metrics)
    requires PositiveRates(nb)
  {
    forall v :: if Reachable(nb, sw, host, v) then PairCosts(nb, sw, payload, host, v, m) else SameEntry(m0, m, v, host)
  }

  ghost predicate SamePairs(host: Node, m0: Metrics, m: Metrics) {
    forall v :: SameEntry(m0, m, v, host)
  }

  ghost predicate PairsAdded(nb: Neighbours, sw: set<Node>, payload: nat, host: Node, m0: Metrics, m: Metrics)
    requires PositiveRates(nb)
  {
    PairsFor(nb, sw, payload, host, m0, m) && forall h :: h != host ==> SamePairs(h, m0, m)
  }

  /** The searches of all hosts below `i`. */
  ghost predicate AllPairsAdded(nb: Neighbours, sw: set<Node>, payload: nat, i: nat, m0: Metrics, m: Metrics)
    requires PositiveRates(nb)
  {
    forall h: Node :: if h < i && h !in sw then PairsFor(nb, sw, payload, h, m0, m) else SamePairs(h, m0, m)
  }

  lemma OneMoreColumn(nb: Neighbours, sw: set<Node>, payload: nat, i: nat, m0: Metrics, m1: Metrics, m2: Metrics)
    requires PositiveRates(nb) && AllPairsAdded(nb, sw, payload, i, m0, m1)
    requires if i in sw then m2 == m1 else PairsAdded(nb, sw, payload, i, m1, m2)
    ensures AllPairsAdded(nb, sw, payload, i + 1, m0, m2)
  {
    hide PairCosts;
    forall h: Node
      ensures if h < i + 1 && h !in sw then PairsFor(nb, sw, payload, h, m0, m2) else SamePairs(h, m0, m2)
    {
      if h == i && h !in sw {
        assert SamePairs(h, m0, m1);
        forall v ensures if Reachable(nb, sw, h, v) then PairCosts(nb, sw, payload, h, v, m2) else SameEntry(m0, m2, v, h) {
          assert SameEntry(m0, m1, v, h);
        }
      } else {
        assert SamePairs(h, m1, m2);
        if h < i && h !in sw {
          assert PairsFor(nb, sw, payload, h, m0, m1);
          forall v ensures if Reachable(nb, sw, h, v) then PairCosts(nb, sw, payload, h, v, m2) else SameEntry(m0, m2, v, h) {
            assert SameEntry(m1, m2, v, h);
            if Reachable(nb, sw, h, v) { SameCosts(nb, sw, payload, h, v, m1, m2); }
          }
        } else {
          assert SamePairs(h, m0, m1);
          forall v ensures SameEntry(m0, m2, v, h) {
            assert SameEntry(m0, m1, v, h) && SameEntry(m1, m2, v, h);
          }
        }
      }
    }
  }

  lemma SameCosts(nb: Neighbours, sw: set<Node>, payload: nat, host: Node, v: Node, m: Metrics, m': Metrics)
    requires PositiveRates(nb) && Reachable(nb, sw, host, v)
    requires PairCosts(nb, sw, payload, host, v, m) && SameEntry(m, m', v, host)
    ensures PairCosts(nb, sw, payload, host, v, m')
  {
  }

  /** The tables hold, for every host below `n`, what a search on `nb` finds, and nothing else. */
  ghost predicate Exact(nb: Neighbours, sw: set<Node>, n: nat, nh: Table) {
    forall v: Node, h: Node :: if h < n && h !in sw then ListsNextHops(nb, sw, h, v, Hops(nh, v, h)) else Hops(nh, v, h) == []
  }

  // ----- invariants of the search

  /** The local variables of one search: the queue, and what is known of each node reached. */
  datatype Search = Search(q: seq<Node>, dis: map<Node, nat>,
                           delay: map<Node, nat>, tx: map<Node, nat>, bw: map<Node, nat>)

  ghost predicate QueueInv(sw: set<Node>, host: Node, s: Search) {
    && NoDup(s.q)
    && (forall v :: v in s.q <==> v in s.dis && Relays(sw, host, v))
    && (forall j, k :: 0 <= j < k < |s.q| ==> s.dis[s.q[j]] <= s.dis[s.q[k]])
  }

  /** Each reached node has a path in the search tree that attains its distance and costs what is recorded. */
  ghost predicate TreeInv(nb: Neighbours, sw: set<Node>, payload: nat, host: Node, s: Search, tree: map<Node, seq<Node>>)
    requires PositiveRates(nb)
  {
    && TreeShape(nb, host, s, tree)
    && (forall v :: v in s.dis ==> Traced(nb, sw, payload, host, s, tree, v))
  }

  ghost predicate TreeShape(nb: Neighbours, host: Node, s: Search, tree: map<Node, seq<Node>>) {
    && host in s.dis && s.dis[host] == 0
    && tree.Keys == s.dis.Keys == s.delay.Keys == s.tx.Keys == s.bw.Keys
    && (forall v :: v in s.dis ==> v in nb.Keys + {host} && |tree[v]| == s.dis[v] + 1)
  }

  ghost predicate Traced(nb: Neighbours, sw: set<Node>, payload: nat, host: Node, s: Search, tree: map<Node, seq<Node>>, v: Node)
    requires PositiveRates(nb) && v in tree && v in s.delay && v in s.tx && v in s.bw
  {
    CostsOf(nb, sw, payload, host, v, tree[v], s.delay[v], s.tx[v], s.bw[v])
  }

  /** The links in `done` have been looked at: their far ends are known and at most one farther. */
  ghost predicate Closed(nb: Neighbours, done: set<(Node, Node)>, dis: map<Node, nat>) {
    forall u, v {:trigger (u, v) in done} :: (u, v) in done ==> u in dis && (Up(nb, u, v) ==> v in dis && dis[v] <= dis[u] + 1)
  }

  ghost predicate Points(nb: Neighbours, done: set<(Node, Node)>, dis: map<Node, nat>, v: Node, u: Node) {
    (u, v) in done && Up(nb, u, v) && u in dis && v in dis && dis[v] == dis[u] + 1
  }

  ghost predicate HopsInv(nb: Neighbours, host: Node, done: set<(Node, Node)>, dis: map<Node, nat>, before: Table, after: Table) {
    && (forall v :: HopsAt(nb, host, done, dis, before, after, v))
    && (forall h :: h != host ==> SameRoutes(h, before, after))
  }

  ghost predicate HopsAt(nb: Neighbours, host: Node, done: set<(Node, Node)>, dis: map<Node, nat>, before: Table, after: Table, v: Node) {
    && Hops(before, v, host) <= Hops(after, v, host)
    && NoDup(Added(before, after, v, host))
    && (forall u :: u in Added(before, after, v, host) <==> Points(nb, done, dis, v, u))
  }

  /** What holds whenever node `s.q[i]` still has the neighbours `todo` to look at. */
  ghost predicate Inner(nb: Neighbours, sw: set<Node>, payload: nat, host: Node, s: Search, tree: map<Node, seq<Node>>,
                        done: set<(Node, Node)>, i: nat, todo: set<Node>, before: Table, after: Table)
    requires PositiveRates(nb)
  {
    && i < |s.q| && QueueInv(sw, host, s) && TreeInv(nb, sw, payload, host, s, tree)
    && Closed(nb, done, s.dis) && HopsInv(nb, host, done, s.dis, before, after)
    && Near(s.dis, s.q[i]) && Progress(nb, s.q[..i], s.q[i], todo, done)
  }

  ghost predicate Near(dis: map<Node, nat>, now: Node)
    requires now in dis
  {
    forall v :: v in dis ==> dis[v] <= dis[now] + 1
  }

  /** `done` holds the links of `past`, those of `now` but for `todo`, and no others that are up. */
  ghost predicate Progress(nb: Neighbours, past: seq<Node>, now: Node, todo: set<Node>, done: set<(Node, Node)>) {
    && (forall u, v {:trigger (u, v) in done} :: (u, v) in done ==> u in past || (u == now && v !in todo))
    && AllDone(nb, past, done)
    && (forall v :: Up(nb, now, v) ==> v in todo || (now, v) in done)
  }

  ghost predicate OnlyFrom(past: seq<Node>, done: set<(Node, Node)>) {
    forall u, v {:trigger (u, v) in done} :: (u, v) in done ==> u in past
  }

  ghost predicate AllDone(nb: Neighbours, past: seq<Node>, done: set<(Node, Node)>) {
    forall u: Node, v: Node :: u in past && Up(nb, u, v) ==> (u, v) in done
  }

  /** What holds between two nodes of the queue. */
  ghost predicate Outer(nb: Neighbours, sw: set<Node>, payload: nat, host: Node, s: Search, tree: map<Node, seq<Node>>,
                        done: set<(Node, Node)>, i: nat, before: Table, after: Table)
    requires PositiveRates(nb)
  {
    && i <= |s.q| && QueueInv(sw, host, s) && TreeInv(nb, sw, payload, host, s, tree)
    && Closed(nb, done, s.dis) && HopsInv(nb, host, done, s.dis, before, after)
    && (i < |s.q| ==> Near(s.dis, s.q[i]))
    && OnlyFrom(s.q[..i], done) && AllDone(nb, s.q[..i], done)
  }

  /** The search after an up link to a node not seen before. */
  function Discover(s: Search, sw: set<Node>, payload: nat, now: Node, next: Node, link: Interface): Search
    requires now in s.dis && now in s.delay && now in s.tx && now in s.bw && link.bw > 0
  {
    Search(if next in sw then s.q + [next] else s.q,
           s.dis[next := s.dis[now] + 1],
           s.delay[next := Add64(s.delay[now], link.delay)],
           s.tx[next := Add64(s.tx[now], TxTime(payload, link.bw))],
           s.bw[next := Min(s.bw[now], link.bw)])
  }

  lemma QueueGrows(sw: set<Node>, payload: nat, host: Node, s: Search, i: nat, next: Node, link: Interface)
    requires QueueInv(sw, host, s) && i < |s.q| && Near(s.dis, s.q[i]) && next !in s.dis && link.bw > 0 && host in s.dis
    requires s.delay.Keys == s.tx.Keys == s.bw.Keys == s.dis.Keys
    ensures QueueInv(sw, host, Discover(s, sw, payload, s.q[i], next, link))
    ensures Near(Discover(s, sw, payload, s.q[i], next, link).dis, s.q[i])
    ensures Discover(s, sw, payload, s.q[i], next, link).q[..i] == s.q[..i]
  {
  }

  lemma TreeGrows(nb: Neighbours, sw: set<Node>, payload: nat, host: Node, s: Search, tree: map<Node, seq<Node>>,
                  now: Node, next: Node)
    requires PositiveRates(nb) && Symmetric(nb) && TreeInv(nb, sw, payload, host, s, tree)
    requires now in s.dis && Relays(sw, host, now) && Up(nb, now, next) && next !in s.dis
    ensures TreeInv(nb, sw, payload, host, Discover(s, sw, payload, now, next, nb[now][next]), tree[next := tree[now] + [next]])
  {
    var s', tree' := Discover(s, sw, payload, now, next, nb[now][next]), tree[next := tree[now] + [next]];
    ShapeGrows(nb, sw, payload, host, s, tree, now, next);
    forall v | v in s'.dis ensures Traced(nb, sw, payload, host, s', tree', v) {
      if v == next {
        NextTraced(nb, sw, payload, host, s, tree, now, next);
      } else {
        assert Traced(nb, sw, payload, host, s, tree, v);
      }
    }
  }

  lemma ShapeGrows(nb: Neighbours, sw: set<Node>, payload: nat, host: Node, s: Search, tree: map<Node, seq<Node>>,
                   now: Node, next: Node)
    requires TreeShape(nb, host, s, tree) && Up(nb, now, next) && Up(nb, next, now) && nb[now][next].bw > 0
    requires now in s.dis && next !in s.dis
    ensures TreeShape(nb, host, Discover(s, sw, payload, now, next, nb[now][next]), tree[next := tree[now] + [next]])
  {
  }

  lemma NextTraced(nb: Neighbours, sw: set<Node>, payload: nat, host: Node, s: Search, tree: map<Node, seq<Node>>,
                   now: Node, next: Node)
    requires PositiveRates(nb) && TreeInv(nb, sw, payload, host, s, tree)
    requires now in s.dis && Relays(sw, host, now) && Up(nb, now, next)
    ensures Traced(nb, sw, payload, host, Discover(s, sw, payload, now, next, nb[now][next]),
                   tree[next := tree[now] + [next]], next)
  {
    assert Traced(nb, sw, payload, host, s, tree, now);
    CostsSnoc(nb, sw, payload, host, now, next, tree[now], s.delay[now], s.tx[now], s.bw[now]);
  }

  lemma HopsKept(nb: Neighbours, host: Node, done: set<(Node, Node)>, dis: map<Node, nat>, before: Table, after: Table, v: Node, d: nat)
    requires Closed(nb, done, dis) && HopsInv(nb, host, done, dis, before, after) && v !in dis
    ensures Closed(nb, done, dis[v := d]) && HopsInv(nb, host, done, dis[v := d], before, after)
  {
    var dis' := dis[v := d];
    forall w ensures HopsAt(nb, host, done, dis', before, after, w) {
      assert HopsAt(nb, host, done, dis, before, after, w);
      forall u ensures Points(nb, done, dis, w, u) <==> Points(nb, done, dis[v := d], w, u) {
      }
    }
  }

  lemma Discovered(nb: Neighbours, sw: set<Node>, payload: nat, host: Node, s: Search, tree: map<Node, seq<Node>>,
                   done: set<(Node, Node)>, i: nat, todo: set<Node>, before: Table, after: Table, next: Node)
    requires PositiveRates(nb) && Symmetric(nb)
    requires Inner(nb, sw, payload, host, s, tree, done, i, todo, before, after)
    requires Up(nb, s.q[i], next) && next !in s.dis
    ensures Inner(nb, sw, payload, host, Discover(s, sw, payload, s.q[i], next, nb[s.q[i]][next]),
                  tree[next := tree[s.q[i]] + [next]], done, i, todo, before, after)
  {
    assert s.q[i] in s.q;
    QueueGrows(sw, payload, host, s, i, next, nb[s.q[i]][next]);
    TreeGrows(nb, sw, payload, host, s, tree, s.q[i], next);
    HopsKept(nb, host, done, s.dis, before, after, next, s.dis[s.q[i]] + 1);
  }

  /** The list after one more link was looked at. */
  function Record(dis: map<Node, nat>, host: Node, now: Node, next: Node, up: bool, after: Table): Table
    requires now in dis && (up ==> next in dis)
  {
    if up && dis[now] + 1 == dis[next] then Push(after, next, host, now) else after
  }

  lemma HopsRecorded(nb: Neighbours, host: Node, done: set<(Node, Node)>, dis: map<Node, nat>, before: Table, after: Table, now: Node, next: Node)
    requires HopsInv(nb, host, done, dis, before, after) && (now, next) !in done
    requires now in dis && (Up(nb, now, next) ==> next in dis)
    ensures HopsInv(nb, host, done + {(now, next)}, dis, before, Record(dis, host, now, next, Up(nb, now, next), after))
  {
    forall h | h != host ensures SameRoutes(h, before, Record(dis, host, now, next, Up(nb, now, next), after)) {
      assert SameRoutes(h, before, after);
    }
    var done', push := done + {(now, next)}, Up(nb, now, next) && dis[now] + 1 == dis[next];
    var r := Record(dis, host, now, next, Up(nb, now, next), after);
    forall w ensures HopsAt(nb, host, done', dis, before, r, w) {
      assert HopsAt(nb, host, done, dis, before, after, w);
      assert !Points(nb, done, dis, next, now);
      var a, b := Added(before, after, w, host), Added(before, r, w, host);
      assert b == a + (if push && w == next then [now] else []);
      forall x ensures x in b <==> Points(nb, done', dis, w, x) {
        assert Points(nb, done', dis, w, x) <==> Points(nb, done, dis, w, x) || (push && w == next && x == now);
      }
    }
  }

  lemma ClosedRecorded(nb: Neighbours, done: set<(Node, Node)>, dis: map<Node, nat>, now: Node, next: Node)
    requires Closed(nb, done, dis) && now in dis && Near(dis, now) && (Up(nb, now, next) ==> next in dis)
    ensures Closed(nb, done + {(now, next)}, dis)
  {
  }

  lemma Recorded(nb: Neighbours, sw: set<Node>, payload: nat, host: Node, s: Search, tree: map<Node, seq<Node>>,
                 done: set<(Node, Node)>, i: nat, todo: set<Node>, before: Table, after: Table, next: Node)
    requires PositiveRates(nb)
    requires Inner(nb, sw, payload, host, s, tree, done, i, todo, before, after)
    requires next in todo && (Up(nb, s.q[i], next) ==> next in s.dis)
    ensures Inner(nb, sw, payload, host, s, tree, done + {(s.q[i], next)}, i, todo - {next},
                  before, Record(s.dis, host, s.q[i], next, Up(nb, s.q[i], next), after))
  {
    var now := s.q[i];
    assert now in s.q && (now, next) !in done;
    HopsRecorded(nb, host, done, s.dis, before, after, now, next);
    ClosedRecorded(nb, done, s.dis, now, next);
  }

  /** The parts of the invariant the code itself relies on. */
  lemma InnerKnows(nb: Neighbours, sw: set<Node>, payload: nat, host: Node, s: Search, tree: map<Node, seq<Node>>,
                   done: set<(Node, Node)>, i: nat, todo: set<Node>, before: Table, after: Table)
    requires PositiveRates(nb)
    requires Inner(nb, sw, payload, host, s, tree, done, i, todo, before, after)
    ensures s.q[i] in s.dis && s.q[i] in s.delay && s.q[i] in s.tx && s.q[i] in s.bw && s.q[i] in tree
  {
    assert s.q[i] in s.q;
  }

  lemma SearchStarts(nb: Neighbours, sw: set<Node>, payload: nat, host: Node, before: Table)
    requires PositiveRates(nb) && host !in sw
    ensures Outer(nb, sw, payload, host, Search([host], map[host := 0], map[host := 0], map[host := 0], map[host := MAX_BW]),
                  map[host := [host]], {}, 0, before, before)
  {
  }

  ghost function Unexpanded(nb: Neighbours, host: Node, q: seq<Node>, i: nat): set<Node>
    requires i <= |q|
  {
    set v | v in nb.Keys + {host} && v !in q[..i]
  }

  /** Each pass expands a node not expanded before. */
  lemma MoreExpanded(nb: Neighbours, sw: set<Node>, payload: nat, host: Node, s: Search, tree: map<Node, seq<Node>>,
                     done: set<(Node, Node)>, i: nat, before: Table, after: Table)
    requires PositiveRates(nb) && i < |s.q|
    requires Outer(nb, sw, payload, host, s, tree, done, i, before, after)
    ensures Unexpanded(nb, host, s.q, i + 1) < Unexpanded(nb, host, s.q, i)
  {
    assert NoDup(s.q) && s.q[i] in s.q && (s.q[i] in s.dis && (s.q[i] in nb.Keys + {host}));
    hide *;
    OneLessUnexpanded(nb, host, s.q, i);
  }

  lemma OneLessUnexpanded(nb: Neighbours, host: Node, q: seq<Node>, i: nat)
    requires i < |q| && NoDup(q) && q[i] in nb.Keys + {host}
    ensures Unexpanded(nb, host, q, i + 1) < Unexpanded(nb, host, q, i)
  {
    assert q[..i + 1] == q[..i] + [q[i]];
    assert q[i] in Unexpanded(nb, host, q, i) && q[i] !in Unexpanded(nb, host, q, i + 1);
  }

  lemma ProgressStarts(nb: Neighbours, past: seq<Node>, now: Node, todo: set<Node>, done: set<(Node, Node)>)
    requires OnlyFrom(past, done) && AllDone(nb, past, done) && forall v :: Up(nb, now, v) ==> v in todo
    ensures Progress(nb, past, now, todo, done)
  {
  }

  lemma ProgressEnds(nb: Neighbours, past: seq<Node>, now: Node, done: set<(Node, Node)>)
    requires Progress(nb, past, now, {}, done)
    ensures OnlyFrom(past + [now], done) && AllDone(nb, past + [now], done)
  {
  }

  lemma NodeStarts(nb: Neighbours, sw: set<Node>, payload: nat, host: Node, s: Search, tree: map<Node, seq<Node>>,
                   done: set<(Node, Node)>, i: nat, todo: set<Node>, before: Table, after: Table)
    requires PositiveRates(nb) && i < |s.q|
    requires Outer(nb, sw, payload, host, s, tree, done, i, before, after)
    requires forall v :: Up(nb, s.q[i], v) ==> v in todo
    ensures Inner(nb, sw, payload, host, s, tree, done, i, todo, before, after)
  {
    ProgressStarts(nb, s.q[..i], s.q[i], todo, done);
  }

  lemma NodeDone(nb: Neighbours, sw: set<Node>, payload: nat, host: Node, s: Search, tree: map<Node, seq<Node>>,
                 done: set<(Node, Node)>, i: nat, before: Table, after: Table)
    requires PositiveRates(nb)
    requires Inner(nb, sw, payload, host, s, tree, done, i, {}, before, after)
    ensures Outer(nb, sw, payload, host, s, tree, done, i + 1, before, after)
  {
    hide *;
    InnerParts(nb, sw, payload, host, s, tree, done, i, {}, before, after);
    if i + 1 < |s.q| { NearMoves(sw, host, s, i); }
    ProgressEnds(nb, s.q[..i], s.q[i], done);
    assert s.q[..i + 1] == s.q[..i] + [s.q[i]];
    OuterParts(nb, sw, payload, host, s, tree, done, i + 1, before, after);
  }

  lemma InnerParts(nb: Neighbours, sw: set<Node>, payload: nat, host: Node, s: Search, tree: map<Node, seq<Node>>,
                   done: set<(Node, Node)>, i: nat, todo: set<Node>, before: Table, after: Table)
    requires PositiveRates(nb) && Inner(nb, sw, payload, host, s, tree, done, i, todo, before, after)
    ensures i < |s.q| && QueueInv(sw, host, s) && TreeInv(nb, sw, payload, host, s, tree)
    ensures Closed(nb, done, s.dis) && HopsInv(nb, host, done, s.dis, before, after)
    ensures s.q[i] in s.dis && Near(s.dis, s.q[i]) && Progress(nb, s.q[..i], s.q[i], todo, done)
    ensures i + 1 < |s.q| ==> s.q[i + 1] in s.dis
  {
    assert s.q[i] in s.q && (i + 1 < |s.q| ==> s.q[i + 1] in s.q);
    hide TreeInv, Closed, HopsInv, Near, Progress;
  }

  lemma OuterParts(nb: Neighbours, sw: set<Node>, payload: nat, host: Node, s: Search, tree: map<Node, seq<Node>>,
                   done: set<(Node, Node)>, i: nat, before: Table, after: Table)
    requires PositiveRates(nb) && i <= |s.q| && QueueInv(sw, host, s) && TreeInv(nb, sw, payload, host, s, tree)
    requires Closed(nb, done, s.dis) && HopsInv(nb, host, done, s.dis, before, after)
    requires i < |s.q| ==> s.q[i] in s.dis && Near(s.dis, s.q[i])
    requires OnlyFrom(s.q[..i], done) && AllDone(nb, s.q[..i], done)
    ensures Outer(nb, sw, payload, host, s, tree, done, i, before, after)
  {
    hide QueueInv, TreeInv, Closed, HopsInv, Near, OnlyFrom, AllDone;
  }

  lemma NearMoves(sw: set<Node>, host: Node, s: Search, i: nat)
    requires QueueInv(sw, host, s) && i + 1 < |s.q| && Near(s.dis, s.q[i])
    ensures Near(s.dis, s.q[i + 1])
  {
    assert s.q[i + 1] in s.q && s.dis[s.q[i]] <= s.dis[s.q[i + 1]];
  }

  /** `dis` is the distance of every reachable node, and of no other. */
  ghost predicate Measured(nb: Neighbours, sw: set<Node>, host: Node, dis: map<Node, nat>) {
    && (forall v :: Reachable(nb, sw, host, v) <==> v in dis)
    && (forall v :: v in dis ==> Dist(nb, sw, host, v) == dis[v])
  }

  lemma DistancesFound(nb: Neighbours, sw: set<Node>, payload: nat, host: Node, s: Search, tree: map<Node, seq<Node>>,
                       done: set<(Node, Node)>)
    requires PositiveRates(nb) && QueueInv(sw, host, s) && TreeInv(nb, sw, payload, host, s, tree)
    requires Closed(nb, done, s.dis) && AllDone(nb, s.q, done)
    ensures Measured(nb, sw, host, s.dis)
  {
    forall u, v | u in s.dis && Relays(sw, host, u) && Up(nb, u, v) ensures v in s.dis && s.dis[v] <= s.dis[u] + 1 {
      assert (u, v) in done;
    }
    forall v | v in s.dis ensures PathTo(nb, sw, host, v, tree[v]) {
      assert Traced(nb, sw, payload, host, s, tree, v);
    }
    CertifiedByPaths(nb, sw, host, s.dis, tree);
  }

  lemma HopsFound(nb: Neighbours, sw: set<Node>, host: Node, q: seq<Node>, dis: map<Node, nat>, done: set<(Node, Node)>,
                  before: Table, after: Table)
    requires HopsInv(nb, host, done, dis, before, after) && AllDone(nb, q, done)
    requires forall v :: v in q <==> v in dis && Relays(sw, host, v)
    requires OnlyFrom(q, done)
    requires Measured(nb, sw, host, dis)
    ensures RouteAdded(nb, sw, host, before, after)
  {
    forall v ensures Hops(before, v, host) <= Hops(after, v, host)
      && ListsNextHops(nb, sw, host, v, Added(before, after, v, host))
    {
      assert HopsAt(nb, host, done, dis, before, after, v);
      forall u ensures Points(nb, done, dis, v, u) <==> IsNextHop(nb, sw, host, v, u) {
      }
    }
  }

  /** Once every queued node's links are done, the search has found exactly the next hops. */
  lemma SearchIsExact(nb: Neighbours, sw: set<Node>, payload: nat, host: Node, s: Search, tree: map<Node, seq<Node>>,
                      done: set<(Node, Node)>, before: Table, after: Table)
    requires PositiveRates(nb) && Outer(nb, sw, payload, host, s, tree, done, |s.q|, before, after)
    ensures RouteAdded(nb, sw, host, before, after)
    ensures Measured(nb, sw, host, s.dis) && TreeInv(nb, sw, payload, host, s, tree)
  {
    assert s.q[..|s.q|] == s.q;
    DistancesFound(nb, sw, payload, host, s, tree, done);
    HopsFound(nb, sw, host, s.q, s.dis, done, before, after);
  }

  lemma PairsAreExact(nb: Neighbours, sw: set<Node>, payload: nat, host: Node, s: Search, tree: map<Node, seq<Node>>,
                      m0: Metrics, m: Metrics)
    requires PositiveRates(nb) && TreeInv(nb, sw, payload, host, s, tree) && Measured(nb, sw, host, s.dis)
    requires ColumnStored(m0.delay, s.delay, host, m.delay)
    requires ColumnStored(m0.tx, s.tx, host, m.tx) && ColumnStored(m0.bw, s.bw, host, m.bw)
    ensures PairsAdded(nb, sw, payload, host, m0, m)
  {
    hide PairCosts, TreeInv, Measured, ColumnStored, SameEntry, SamePairs, Reachable, PositiveRates, Dist;
    TreeKeys(nb, sw, payload, host, s, tree);
    OthersKept(nb, sw, host, s, m0, m);
    forall v | Reachable(nb, sw, host, v) ensures PairCosts(nb, sw, payload, host, v, m) {
      CostsStored(nb, sw, payload, host, s, tree, m0, m, v);
    }
  }

  lemma TreeKeys(nb: Neighbours, sw: set<Node>, payload: nat, host: Node, s: Search, tree: map<Node, seq<Node>>)
    requires PositiveRates(nb) && TreeInv(nb, sw, payload, host, s, tree)
    ensures s.delay.Keys == s.dis.Keys && s.tx.Keys == s.dis.Keys && s.bw.Keys == s.dis.Keys
  {
    hide Traced;
  }

  lemma OthersKept(nb: Neighbours, sw: set<Node>, host: Node, s: Search, m0: Metrics, m: Metrics)
    requires Measured(nb, sw, host, s.dis) && s.delay.Keys == s.dis.Keys && s.tx.Keys == s.dis.Keys && s.bw.Keys == s.dis.Keys
    requires ColumnStored(m0.delay, s.delay, host, m.delay)
    requires ColumnStored(m0.tx, s.tx, host, m.tx) && ColumnStored(m0.bw, s.bw, host, m.bw)
    ensures forall v :: !Reachable(nb, sw, host, v) ==> SameEntry(m0, m, v, host)
    ensures forall h :: h != host ==> SamePairs(h, m0, m)
  {
    hide Reachable;
  }

  lemma CostsStored(nb: Neighbours, sw: set<Node>, payload: nat, host: Node, s: Search, tree: map<Node, seq<Node>>,
                    m0: Metrics, m: Metrics, v: Node)
    requires PositiveRates(nb) && TreeInv(nb, sw, payload, host, s, tree) && Measured(nb, sw, host, s.dis)
    requires ColumnStored(m0.delay, s.delay, host, m.delay)
    requires ColumnStored(m0.tx, s.tx, host, m.tx) && ColumnStored(m0.bw, s.bw, host, m.bw)
    requires Reachable(nb, sw, host, v)
    ensures PairCosts(nb, sw, payload, host, v, m)
  {
    hide CostsOf, Dist, Reachable;
    assert |tree[v]| == Dist(nb, sw, host, v) + 1 && Traced(nb, sw, payload, host, s, tree, v);
    assert PathTo(nb, sw, host, v, tree[v]) by { TracedIsPath(nb, sw, payload, host, s, tree, v); }
  }

  lemma TracedIsPath(nb: Neighbours, sw: set<Node>, payload: nat, host: Node, s: Search, tree: map<Node, seq<Node>>, v: Node)
    requires PositiveRates(nb) && v in tree && v in s.delay && v in s.tx && v in s.bw
    requires Traced(nb, sw, payload, host, s, tree, v)
    ensures PathTo(nb, sw, host, v, tree[v])
  {
  }

  ghost predicate ColumnStored(m: Pairs, column: map<Node, nat>, host: Node, r: Pairs) {
    forall v, h :: Entry(r, v, h) == if h == host && v in column then Some(column[v]) else Entry(m, v, h)
  }

  /** The loops that copy one search's results into a pair table. */
  method StoreColumn(m: Pairs, column: map<Node, nat>, host: Node) returns (r: Pairs)
    ensures ColumnStored(m, column, host, r)
  {
    r := m;
    var todo := column.Keys;
    while todo != {}
      invariant todo <= column.Keys
      invariant forall v, h ::
        Entry(r, v, h) == if h == host && v in column && v !in todo then Some(column[v]) else Entry(m, v, h)
    {
      var v: Node :| v in todo;
      r := Put(r, v, host, column[v]);
      todo := todo - {v};
    }
  }

  /** The port of `a` that leads to `b`. */
  function Port(nb: Neighbours, a: Node, b: Node): nat {
    if a in nb && b in nb[a] then nb[a][b].idx else 0
  }

  function PortsOf(nb: Neighbours, v: Node, hops: seq<Node>): seq<nat> {
    if hops == [] then [] else PortsOf(nb, v, hops[..|hops| - 1]) + [Port(nb, v, hops[|hops| - 1])]
  }

  /** `ports` names, for each of the neighbours `us` in turn, the interface of `v` that leads to it; an absent one reads as 0. */
  ghost predicate LeadTo(nb: Neighbours, v: Node, us: seq<Node>, ports: seq<nat>) {
    && |ports| == |us|
    && forall k :: 0 <= k < |us| ==> ports[k] == if v in nb && us[k] in nb[v] then nb[v][us[k]].idx else 0
  }

  lemma {:induction false} PortsLeadThere(nb: Neighbours, v: Node, us: seq<Node>)
    ensures LeadTo(nb, v, us, PortsOf(nb, v, us))
    decreases |us|
  {
    if us != [] { PortsLeadThere(nb, v, us[..|us| - 1]); }
  }

  /** Reading an absent entry of `nbr2if` creates an interface that is down. */
  function Touch(nb: Neighbours, a: Node, b: Node): (r: Neighbours)
    ensures a in r && b in r[a] && (forall x: Node, y: Node :: Up(r, x, y) <==> Up(nb, x, y))
    ensures forall x: Node, y: Node :: Up(nb, x, y) ==> r[x][y] == nb[x][y]
  {
    var row: map<Node, Interface> := if a in nb then nb[a] else map[];
    if b in row then nb else nb[a := row[b := Interface(0, false, 0, 0)]]
  }

  function SetDown(nb: Neighbours, a: Node, b: Node): (r: Neighbours)
    requires a in nb && b in nb[a]
    ensures forall x: Node, y: Node :: Up(r, x, y) <==> Up(nb, x, y) && (x, y) != (a, b)
    ensures forall x: Node, y: Node :: Up(r, x, y) ==> Up(nb, x, y) && r[x][y] == nb[x][y]
  {
    nb[a := nb[a][b := nb[a][b].(up := false)]]
  }

  lemma OneLinkLess(nb: Neighbours, a: Node, b: Node)
    requires Symmetric(nb) && PositiveRates(nb)
    ensures var r := Touch(nb, a, b); Symmetric(r) && PositiveRates(r)
    ensures var r := SetDown(Touch(nb, a, b), a, b);
            var r' := SetDown(Touch(r, b, a), b, a); Symmetric(r') && PositiveRates(r')
  {
  }

  /** The link table, the routing tables it led to, and the installed ports. */
  datatype Snapshot = Snapshot(nb: Neighbours, nh: Table, rt: map<Node, map<Node, seq<nat>>>, pairs: Metrics)

  /** Every node's installed ports are those of its next hops, in the same order. */
  ghost predicate Installed(nb: Neighbours, nh: Table, rt: map<Node, map<Node, seq<nat>>>) {
    forall v: Node, h: Node :: LeadTo(nb, v, Hops(nh, v, h), Hops(rt, v, h))
  }

  /** The entries of `rt'` are those of `rt` followed by one port for each next hop. */
  ghost predicate PortsAdded(nb: Neighbours, nh: Table, rt: map<Node, map<Node, seq<nat>>>, rt': map<Node, map<Node, seq<nat>>>) {
    forall v: Node, h: Node :: Hops(rt, v, h) <= Hops(rt', v, h) && LeadTo(nb, v, Hops(nh, v, h), Hops(rt', v, h)[|Hops(rt, v, h)|..])
  }

  lemma AddedPortsLead(nb: Neighbours, nh: Table, rt: map<Node, map<Node, seq<nat>>>, rt': map<Node, map<Node, seq<nat>>>)
    requires forall v: Node, h: Node :: Hops(rt', v, h) == Hops(rt, v, h) + PortsOf(nb, v, Hops(nh, v, h))
    ensures PortsAdded(nb, nh, rt, rt')
  {
    hide Hops, PortsOf, LeadTo;
    forall v: Node, h: Node
      ensures Hops(rt, v, h) <= Hops(rt', v, h) && LeadTo(nb, v, Hops(nh, v, h), Hops(rt', v, h)[|Hops(rt, v, h)|..])
    {
      PortsLeadThere(nb, v, Hops(nh, v, h));
      assert Hops(rt', v, h)[|Hops(rt, v, h)|..] == PortsOf(nb, v, Hops(nh, v, h));
    }
  }

  /** From empty tables that is all that is installed. */
  lemma FreshlyInstalled(nb: Neighbours, nh: Table, rt: map<Node, map<Node, seq<nat>>>, rt': map<Node, map<Node, seq<nat>>>)
    requires PortsAdded(nb, nh, rt, rt') && rt == map[]
    ensures Installed(nb, nh, rt')
  {
    hide LeadTo;
    forall v: Node, h: Node ensures LeadTo(nb, v, Hops(nh, v, h), Hops(rt', v, h)) {
      assert Hops(rt, v, h) == [] && Hops(rt', v, h)[0..] == Hops(rt', v, h);
    }
  }

  /** The links that are up after `a` and `b` were disconnected; every other interface is as before. */
  ghost predicate LinkLost(nb: Neighbours, a: Node, b: Node, nb': Neighbours) {
    && (forall x: Node, y: Node :: Up(nb', x, y) <==> Up(nb, x, y) && (x, y) != (a, b) && (x, y) != (b, a))
    && (forall x: Node, y: Node :: Up(nb', x, y) ==> Up(nb, x, y) && nb'[x][y] == nb[x][y])
  }

  /** What taking a link down does to the link table, if the link is down already, and if it is up. */
  lemma LinkIsLost(nb: Neighbours, a: Node, b: Node)
    requires Symmetric(nb) && PositiveRates(nb)
    ensures var r := Touch(nb, a, b);
            (r[a][b].up <==> Up(nb, a, b)) && (!Up(nb, a, b) ==> LinkLost(nb, a, b, r))
    ensures var r := SetDown(Touch(nb, a, b), a, b);
            var r' := SetDown(Touch(r, b, a), b, a); LinkLost(nb, a, b, r')
  {
    assert Up(nb, a, b) <==> Up(nb, b, a);
    assert Up(Touch(nb, a, b), a, b) <==> Touch(nb, a, b)[a][b].up;
    hide Touch, SetDown;
  }

  ghost predicate TookDown(sw: set<Node>, n: nat, payload: nat, s: Snapshot, a: Node, b: Node, s': Snapshot) {
    && PositiveRates(s'.nb) && LinkLost(s.nb, a, b, s'.nb)
    && if Up(s.nb, a, b)
       then && Exact(s'.nb, sw, n, s'.nh) && Installed(s'.nb, s'.nh, s'.rt)
            && AllPairsAdded(s'.nb, sw, payload, n, s.pairs, s'.pairs)
       else s'.nh == s.nh && s'.rt == s.rt && s'.pairs == s.pairs
  }

  class Network {
    const n: nat
    const switches: set<Node>
    const payload: nat
    var nbr2if: Neighbours
    var nextHop: Table
    var pairDelay: Pairs
    var pairTxDelay: Pairs
    var pairBw: Pairs
    /** For each node and destination, the ports installed in its forwarding table. */
    var rtTable: map<Node, map<Node, seq<nat>>>

    ghost predicate Valid()
      reads this
    {
      Symmetric(nbr2if) && PositiveRates(nbr2if)
    }

    function Pairs(): Metrics
      reads this
    {
      Metrics(pairDelay, pairTxDelay, pairBw)
    }

    function Now(): Snapshot
      reads this
    {
      Snapshot(nbr2if, nextHop, rtTable, Pairs())
    }

    constructor (n: nat, switches: set<Node>, payload: nat, nbr2if: Neighbours)
      requires Symmetric(nbr2if) && PositiveRates(nbr2if)
      ensures Valid()
      ensures this.n == n && this.switches == switches && this.payload == payload && this.nbr2if == nbr2if
      ensures nextHop == map[] && Pairs() == Metrics(map[], map[], map[]) && rtTable == map[]
    {
      this.n, this.switches, this.payload, this.nbr2if := n, switches, payload, nbr2if;
      nextHop, pairDelay, pairTxDelay, pairBw, rtTable := map[], map[], map[], map[], map[];
    }

    /** Looks at every neighbour of the `i`-th node of the queue, in any order. */
    method VisitNeighbours(host: Node, s: Search, i: nat, ghost tree: map<Node, seq<Node>>, ghost done: set<(Node, Node)>,
                           ghost before: Table)
      returns (r: Search, ghost tree': map<Node, seq<Node>>, ghost done': set<(Node, Node)>)
      requires Valid() && i < |s.q|
      requires Outer(nbr2if, switches, payload, host, s, tree, done, i, before, nextHop)
      modifies `nextHop
      ensures Outer(nbr2if, switches, payload, host, r, tree', done', i + 1, before, nextHop)
      ensures i < |r.q| && s.q <= r.q
    {
      hide Inner, Outer;
      r, tree', done' := s, tree, done;
      var now := s.q[i];
      var todo := if now in nbr2if then nbr2if[now].Keys else {};
      NodeStarts(nbr2if, switches, payload, host, s, tree, done, i, todo, before, nextHop);
      while todo != {}
        invariant todo != {} ==> now in nbr2if && todo <= nbr2if[now].Keys
        invariant s.q <= r.q
        invariant Inner(nbr2if, switches, payload, host, r, tree', done', i, todo, before, nextHop)
      {
        var next :| next in todo;
        var link := nbr2if[now][next];
        InnerKnows(nbr2if, switches, payload, host, r, tree', done', i, todo, before, nextHop);
        if link.up {
          if next !in r.dis {
            Discovered(nbr2if, switches, payload, host, r, tree', done', i, todo, before, nextHop, next);
            tree' := tree'[next := tree'[now] + [next]];
            r := Discover(r, switches, payload, now, next, link);
          }
        }
        Recorded(nbr2if, switches, payload, host, r, tree', done', i, todo, before, nextHop, next);
        if link.up && r.dis[now] + 1 == r.dis[next] {
          nextHop := Push(nextHop, next, host, now);
        }
        done' := done' + {(now, next)};
        todo := todo - {next};
      }
      NodeDone(nbr2if, switches, payload, host, r, tree', done', i, before, nextHop);
    }

    /** Breadth-first search from `host`. */
    method CalculateRoute(host: Node)
      requires Valid() && host !in switches
      modifies `nextHop, `pairDelay, `pairTxDelay, `pairBw
      ensures RouteAdded(nbr2if, switches, host, old(nextHop), nextHop)
      ensures PairsAdded(nbr2if, switches, payload, host, old(Pairs()), Pairs())
    {
      hide Inner, Outer, TreeInv, Measured, RouteAdded, PairsAdded;
      var s := Search([host], map[host := 0], map[host := 0], map[host := 0], map[host := MAX_BW]);
      ghost var tree: map<Node, seq<Node>> := map[host := [host]];
      ghost var done: set<(Node, Node)> := {};
      SearchStarts(nbr2if, switches, payload, host, nextHop);
      var i := 0;
      while i < |s.q|
        modifies `nextHop
        invariant i <= |s.q|
        invariant Outer(nbr2if, switches, payload, host, s, tree, done, i, old(nextHop), nextHop)
        decreases Unexpanded(nbr2if, host, s.q, i)
      {
        MoreExpanded(nbr2if, switches, payload, host, s, tree, done, i, old(nextHop), nextHop);
        ghost var q := s.q;
        s, tree, done := VisitNeighbours(host, s, i, tree, done, old(nextHop));
        assert s.q[..i] == q[..i] && s.q[..i + 1] == q[..i + 1];
        i := i + 1;
      }
      SearchIsExact(nbr2if, switches, payload, host, s, tree, done, old(nextHop), nextHop);
      pairDelay := StoreColumn(pairDelay, s.delay, host);
      pairTxDelay := StoreColumn(pairTxDelay, s.tx, host);
      pairBw := StoreColumn(pairBw, s.bw, host);
      PairsAreExact(nbr2if, switches, payload, host, s, tree, old(Pairs()), Pairs());
    }

    /** A search from every host. */
    method CalculateRoutes()
      requires Valid()
      modifies `nextHop, `pairDelay, `pairTxDelay, `pairBw
      ensures RoutesAdded(nbr2if, switches, n, old(nextHop), nextHop)
      ensures AllPairsAdded(nbr2if, switches, payload, n, old(Pairs()), Pairs())
    {
      hide RouteAdded, PairsAdded, RouteFor, PairsFor;
      for i := 0 to n
        invariant RoutesAdded(nbr2if, switches, i, old(nextHop), nextHop)
        invariant AllPairsAdded(nbr2if, switches, payload, i, old(Pairs()), Pairs())
      {
        ghost var nh, m := nextHop, Pairs();
        if i !in switches {
          CalculateRoute(i);
        }
        OneMoreRoute(nbr2if, switches, i, old(nextHop), nh, nextHop);
        OneMoreColumn(nbr2if, switches, payload, i, old(Pairs()), m, Pairs());
      }
    }

    /** Installs, for every next hop of every list, the port that leads to it. */
    method SetRoutingEntries()
      modifies `rtTable
      ensures PortsAdded(nbr2if, nextHop, old(rtTable), rtTable)
    {
      var nodes := nextHop.Keys;
      while nodes != {}
        invariant nodes <= nextHop.Keys
        invariant forall v: Node, h: Node ::
          Hops(rtTable, v, h) == Hops(old(rtTable), v, h) + (if v in nodes then [] else PortsOf(nbr2if, v, Hops(nextHop, v, h)))
      {
        var node: Node :| node in nodes;
        SetNodeEntries(node, nextHop[node]);
        nodes := nodes - {node};
      }
      hide Hops, PortsOf;
      AddedPortsLead(nbr2if, nextHop, old(rtTable), rtTable);
    }

    method SetNodeEntries(node: Node, table: map<Node, seq<Node>>)
      modifies `rtTable
      ensures forall v: Node, h: Node ::
        Hops(rtTable, v, h) == Hops(old(rtTable), v, h) + (if v == node && h in table then PortsOf(nbr2if, v, table[h]) else [])
    {
      hide Hops, PortsOf;
      var dsts := table.Keys;
      while dsts != {}
        invariant dsts <= table.Keys
        invariant forall v: Node, h: Node ::
          Hops(rtTable, v, h) == Hops(old(rtTable), v, h) + (if v == node && h in table && h !in dsts then PortsOf(nbr2if, v, table[h]) else [])
      {
        var dst: Node :| dst in dsts;
        SetEntry(node, dst, table[dst]);
        dsts := dsts - {dst};
      }
    }

    /** The ports towards one host, in the order of the next hops. */
    method SetEntry(node: Node, dst: Node, nexts: seq<Node>)
      modifies `rtTable
      ensures forall v: Node, h: Node ::
        Hops(rtTable, v, h) == Hops(old(rtTable), v, h) + (if v == node && h == dst then PortsOf(nbr2if, node, nexts) else [])
    {
      hide Hops, Push, Port;
      for k := 0 to |nexts|
        invariant forall v: Node, h: Node ::
          Hops(rtTable, v, h) == Hops(old(rtTable), v, h) + (if v == node && h == dst then PortsOf(nbr2if, node, nexts[..k]) else [])
      {
        assert nexts[..k + 1][..k] == nexts[..k];
        rtTable := Push(rtTable, node, dst, Port(nbr2if, node, nexts[k]));
      }
      assert nexts[..|nexts|] == nexts;
    }

    /** Takes the link between `a` and `b` down and routes again. */
    method TakeDownLink(a: Node, b: Node)
      requires Valid()
      modifies this
      ensures Valid()
      ensures TookDown(switches, n, payload, old(Now()), a, b, Now())
    {
      hide Exact, RoutesAdded, AllPairsAdded, PortsAdded, Installed, Symmetric, PositiveRates, LinkLost, Touch, SetDown, Hops;
      OneLinkLess(nbr2if, a, b);
      LinkIsLost(nbr2if, a, b);
      nbr2if := Touch(nbr2if, a, b);
      if !nbr2if[a][b].up {
        return;
      }
      nbr2if := SetDown(nbr2if, a, b);
      nbr2if := SetDown(Touch(nbr2if, b, a), b, a);
      nextHop := map[];
      CalculateRoutes();
      FromEmptyIsExact(nbr2if, switches, n, nextHop);
      rtTable := map[];
      ghost var cleared := rtTable;
      SetRoutingEntries();
      FreshlyInstalled(nbr2if, nextHop, cleared, rtTable);
    }
  }
}
