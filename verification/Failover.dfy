/** Sequences of link failures: what every recomputation keeps. */
module Failover {
  import opened Graph
  import opened Costs
  import opened Routing
  import opened Forwarding

  /** `a` has no up link that `b` lacks. */
  ghost predicate Fewer(nb': Neighbours, nb: Neighbours) {
    forall x: Node, y: Node :: Up(nb', x, y) ==> Up(nb, x, y)
  }

  lemma PathsSurvive(nb': Neighbours, nb: Neighbours, sw: set<Node>, host: Node, v: Node, p: seq<Node>)
    requires Fewer(nb', nb) && PathTo(nb', sw, host, v, p)
    ensures PathTo(nb, sw, host, v, p)
  {
    forall i | 0 <= i < |p| - 1 ensures Up(nb, p[i], p[i + 1]) {
      assert Up(nb', p[i], p[i + 1]);
    }
  }

  /** Losing links never makes a node reachable, and never shortens a distance. */
  lemma DistancesNeverShrink(nb': Neighbours, nb: Neighbours, sw: set<Node>, host: Node, v: Node)
    requires Fewer(nb', nb) && Reachable(nb', sw, host, v)
    ensures Reachable(nb, sw, host, v) && Dist(nb, sw, host, v) <= Dist(nb', sw, host, v)
  {
    var p :| PathTo(nb', sw, host, v, p) && |p| == Dist(nb', sw, host, v) + 1;
    PathsSurvive(nb', nb, sw, host, v, p);
  }

  /** Routing depends on nothing but which links are up. */
  lemma UpDecides(nb': Neighbours, nb: Neighbours, sw: set<Node>, n: nat, nh: Table)
    requires Fewer(nb', nb) && Fewer(nb, nb') && Exact(nb, sw, n, nh)
    ensures Exact(nb', sw, n, nh)
  {
    forall v: Node, h: Node
      ensures if h < n && h !in sw then ListsNextHops(nb', sw, h, v, Hops(nh, v, h)) else Hops(nh, v, h) == []
    {
      if h < n && h !in sw {
        assert ListsNextHops(nb, sw, h, v, Hops(nh, v, h));
        forall u ensures IsNextHop(nb', sw, h, v, u) <==> IsNextHop(nb, sw, h, v, u) {
          if IsNextHop(nb, sw, h, v, u) { SameNextHop(nb', nb, sw, h, v, u); }
          if IsNextHop(nb', sw, h, v, u) { SameNextHop(nb, nb', sw, h, v, u); }
        }
      }
    }
  }

  lemma SameNextHop(nb': Neighbours, nb: Neighbours, sw: set<Node>, host: Node, v: Node, u: Node)
    requires Fewer(nb', nb) && Fewer(nb, nb') && IsNextHop(nb, sw, host, v, u)
    ensures IsNextHop(nb', sw, host, v, u)
  {
    SameDistance(nb', nb, sw, host, v);
    SameDistance(nb', nb, sw, host, u);
  }

  lemma SameDistance(nb': Neighbours, nb: Neighbours, sw: set<Node>, host: Node, v: Node)
    requires Fewer(nb', nb) && Fewer(nb, nb') && Reachable(nb, sw, host, v)
    ensures Reachable(nb', sw, host, v) && Dist(nb', sw, host, v) == Dist(nb, sw, host, v)
  {
    DistancesNeverShrink(nb, nb', sw, host, v);
    DistancesNeverShrink(nb', nb, sw, host, v);
  }

  /** Two exact tables on the same up links hold the same next hops, up to their order. */
  lemma ExactIsUnique(nb: Neighbours, sw: set<Node>, n: nat, nh: Table, nh': Table, v: Node, host: Node)
    requires Exact(nb, sw, n, nh) && Exact(nb, sw, n, nh')
    ensures multiset(Hops(nh, v, host)) == multiset(Hops(nh', v, host))
  {
    if host < n && host !in sw {
      var s, t := Hops(nh, v, host), Hops(nh', v, host);
      assert ListsNextHops(nb, sw, host, v, s) && ListsNextHops(nb, sw, host, v, t);
      SameElements(s, t);
    }
  }

  // ----- runs

  /** `ss` is a history of the network in which the links `cuts` fail one after the other. */
  ghost predicate Run(sw: set<Node>, n: nat, payload: nat, ss: seq<Snapshot>, cuts: seq<(Node, Node)>) {
    |ss| == |cuts| + 1 && forall i :: 0 <= i < |cuts| ==> TookDown(sw, n, payload, ss[i], cuts[i].0, cuts[i].1, ss[i + 1])
  }

  /** What holds at every moment: links are up in both directions, the tables are those a fresh
      computation on the links still up would give, and the installed ports are theirs. */
  ghost predicate Consistent(sw: set<Node>, n: nat, s: Snapshot) {
    Symmetric(s.nb) && Exact(s.nb, sw, n, s.nh) && Installed(s.nb, s.nh, s.rt)
  }

  ghost predicate Cut(cuts: seq<(Node, Node)>, x: Node, y: Node) {
    (x, y) in cuts || (y, x) in cuts
  }

  /** Asking for a link that is down already leaves every installed port right. */
  lemma PortsStay(sw: set<Node>, n: nat, s: Snapshot, a: Node, b: Node, nb': Neighbours)
    requires Consistent(sw, n, s) && LinkLost(s.nb, a, b, nb') && !Up(s.nb, a, b)
    ensures Installed(nb', s.nh, s.rt)
  {
    forall v: Node, h: Node ensures LeadTo(nb', v, Hops(s.nh, v, h), Hops(s.rt, v, h)) {
      assert LeadTo(s.nb, v, Hops(s.nh, v, h), Hops(s.rt, v, h));
      forall u | u in Hops(s.nh, v, h) ensures Up(nb', v, u) && Up(s.nb, v, u) {
        HopIsNextHop(s.nb, sw, n, s.nh, h, v, u);
        assert Up(s.nb, u, v) && Up(s.nb, v, u) && !Up(s.nb, b, a);
      }
    }
  }

  lemma SameUp(nb: Neighbours, a: Node, b: Node, nb': Neighbours)
    requires Symmetric(nb) && LinkLost(nb, a, b, nb')
    ensures Symmetric(nb') && Fewer(nb', nb) && (!Up(nb, a, b) ==> Fewer(nb, nb'))
  {
    assert Up(nb, b, a) <==> Up(nb, a, b);
  }

  lemma StepKeeps(sw: set<Node>, n: nat, payload: nat, s: Snapshot, a: Node, b: Node, s': Snapshot)
    requires Consistent(sw, n, s) && TookDown(sw, n, payload, s, a, b, s')
    ensures Consistent(sw, n, s') && !Up(s'.nb, a, b)
  {
    SameUp(s.nb, a, b, s'.nb);
    if !Up(s.nb, a, b) {
      UpDecides(s'.nb, s.nb, sw, n, s.nh);
      PortsStay(sw, n, s, a, b, s'.nb);
    }
    hide Exact, Installed, AllPairsAdded, Symmetric, PositiveRates, Fewer;
  }

  /** After any run the tables are exact for the links never cut, which are all that is up. */
  lemma {:induction false} RunsStayConsistent(sw: set<Node>, n: nat, payload: nat, ss: seq<Snapshot>, cuts: seq<(Node, Node)>)
    requires Run(sw, n, payload, ss, cuts) && Consistent(sw, n, ss[0])
    ensures Consistent(sw, n, ss[|cuts|])
    ensures forall x: Node, y: Node :: Up(ss[|cuts|].nb, x, y) <==> Up(ss[0].nb, x, y) && !Cut(cuts, x, y)
    ensures forall x: Node, y: Node :: Up(ss[|cuts|].nb, x, y) ==> ss[|cuts|].nb[x][y] == ss[0].nb[x][y]
    decreases |cuts|
  {
    if cuts != [] {
      var k := |cuts| - 1;
      var before := cuts[..k];
      RunsStayConsistent(sw, n, payload, ss[..k + 1], before);
      assert cuts == before + [cuts[k]];
      assert TookDown(sw, n, payload, ss[k], cuts[k].0, cuts[k].1, ss[k + 1]);
      StepKeeps(sw, n, payload, ss[k], cuts[k].0, cuts[k].1, ss[k + 1]);
      forall x: Node, y: Node ensures Cut(cuts, x, y) <==> Cut(before, x, y) || (x, y) == cuts[k] || (y, x) == cuts[k] {
      }
    }
  }

  /** During a run no next hop lies behind a link that was cut, and distances only grow. */
  lemma RunsAvoidCuts(sw: set<Node>, n: nat, payload: nat, ss: seq<Snapshot>, cuts: seq<(Node, Node)>,
                      v: Node, host: Node, u: Node)
    requires Run(sw, n, payload, ss, cuts) && Consistent(sw, n, ss[0])
    requires u in Hops(ss[|cuts|].nh, v, host)
    ensures Up(ss[|cuts|].nb, v, u) && Up(ss[0].nb, v, u) && !Cut(cuts, v, u)
    ensures host < n && host !in sw && Reachable(ss[|cuts|].nb, sw, host, v) && Reachable(ss[0].nb, sw, host, v)
    ensures Dist(ss[0].nb, sw, host, v) <= Dist(ss[|cuts|].nb, sw, host, v)
  {
    RunsStayConsistent(sw, n, payload, ss, cuts);
    var s := ss[|cuts|];
    assert host < n && host !in sw;
    HopIsNextHop(s.nb, sw, n, s.nh, host, v, u);
    assert Up(s.nb, v, u) <==> Up(s.nb, u, v);
    DistancesNeverShrink(s.nb, ss[0].nb, sw, host, v);
  }

  /** No two up links of a node share an interface. */
  ghost predicate PortsApart(nb: Neighbours, v: Node) {
    forall u, w :: Up(nb, v, u) && Up(nb, v, w) && nb[v][u].idx == nb[v][w].idx ==> u == w
  }

  /** After any run a node's ports for a host are those of its surviving links to the neighbours one link nearer, as many
      as there are such neighbours; each once, if its interfaces were apart to begin with. */
  lemma RunsInstallPorts(sw: set<Node>, n: nat, payload: nat, ss: seq<Snapshot>, cuts: seq<(Node, Node)>, v: Node, host: Node)
    requires Run(sw, n, payload, ss, cuts) && Consistent(sw, n, ss[0]) && host < n && host !in sw
    ensures forall port ::
      port in Hops(ss[|cuts|].rt, v, host) <==> exists u :: NearerBy(ss[0].nb, ss[|cuts|].nb, cuts, sw, host, v, u, port)
    ensures |Hops(ss[|cuts|].rt, v, host)| == |Hops(ss[|cuts|].nh, v, host)|
    ensures PortsApart(ss[0].nb, v) ==> NoDup(Hops(ss[|cuts|].rt, v, host))
  {
    var s := ss[|cuts|];
    RunsStayConsistent(sw, n, payload, ss, cuts);
    var us, ports := Hops(s.nh, v, host), Hops(s.rt, v, host);
    assert ListsNextHops(s.nb, sw, host, v, us) && LeadTo(s.nb, v, us, ports);
    forall u | u in us ensures Up(s.nb, v, u) {
      assert Up(s.nb, u, v);
    }
    hide Exact, Installed, Run, Cut, Symmetric;
    forall k | 0 <= k < |us| ensures NearerBy(ss[0].nb, s.nb, cuts, sw, host, v, us[k], ports[k]) {
      assert us[k] in us;
    }
    forall port, u | NearerBy(ss[0].nb, s.nb, cuts, sw, host, v, u, port) ensures port in ports {
      assert u in us;
      var k :| 0 <= k < |us| && us[k] == u;
      assert ports[k] == port;
    }
    if PortsApart(ss[0].nb, v) {
      forall j, k | 0 <= j < k < |us| ensures ports[j] != ports[k] {
        assert us[j] in us && us[k] in us && us[j] != us[k];
      }
    }
  }

  /** `u` is a relaying neighbour of `v` one link nearer to the host, over a link that was never cut; `port` is the
      interface the link had from the start. */
  ghost predicate NearerBy(nb0: Neighbours, nb: Neighbours, cuts: seq<(Node, Node)>, sw: set<Node>, host: Node, v: Node, u: Node, port: nat) {
    && Up(nb0, v, u) && !Cut(cuts, v, u) && nb0[v][u].idx == port && Relays(sw, host, u)
    && Reachable(nb, sw, host, u) && Reachable(nb, sw, host, v) && Dist(nb, sw, host, u) + 1 == Dist(nb, sw, host, v)
  }

  /** Only which links were cut matters, not the order or how often. */
  lemma OrderIsIrrelevant(sw: set<Node>, n: nat, payload: nat, ss: seq<Snapshot>, cuts: seq<(Node, Node)>,
                          tt: seq<Snapshot>, cuts': seq<(Node, Node)>, v: Node, host: Node)
    requires Run(sw, n, payload, ss, cuts) && Run(sw, n, payload, tt, cuts')
    requires ss[0] == tt[0] && Consistent(sw, n, ss[0])
    requires forall x: Node, y: Node :: Cut(cuts, x, y) <==> Cut(cuts', x, y)
    ensures multiset(Hops(ss[|cuts|].nh, v, host)) == multiset(Hops(tt[|cuts'|].nh, v, host))
  {
    var s, t := ss[|cuts|], tt[|cuts'|];
    RunsStayConsistent(sw, n, payload, ss, cuts);
    RunsStayConsistent(sw, n, payload, tt, cuts');
    UpDecides(s.nb, t.nb, sw, n, t.nh);
    ExactIsUnique(s.nb, sw, n, s.nh, t.nh, v, host);
  }

  /** Taking the same link down again changes neither a link nor a table. */
  lemma RepeatChangesNothing(sw: set<Node>, n: nat, payload: nat, s: Snapshot, a: Node, b: Node, s': Snapshot, s'': Snapshot)
    requires TookDown(sw, n, payload, s, a, b, s') && TookDown(sw, n, payload, s', a, b, s'')
    ensures s''.nh == s'.nh && s''.rt == s'.rt && s''.pairs == s'.pairs
    ensures forall x: Node, y: Node :: Up(s''.nb, x, y) <==> Up(s'.nb, x, y)
  {
    assert !Up(s'.nb, a, b);
  }

  // ----- pair tables

  ghost predicate AllRecorded(m: Metrics, v: Node, host: Node) {
    Entry(m.delay, v, host).Some? && Entry(m.tx, v, host).Some? && Entry(m.bw, v, host).Some?
  }

  ghost predicate NoneRecorded(m: Metrics, v: Node, host: Node) {
    Entry(m.delay, v, host).None? && Entry(m.tx, v, host).None? && Entry(m.bw, v, host).None?
  }

  /** The pair tables agree with the links: their entries exist exactly for what a host reaches. */
  ghost predicate PairsMatch(nb: Neighbours, sw: set<Node>, m: Metrics, v: Node, host: Node) {
    if Reachable(nb, sw, host, v) then AllRecorded(m, v, host) else NoneRecorded(m, v, host)
  }

  /** What a takedown does to the entries of one pair: unlike `nextHop` they are not cleared. */
  lemma StepPairs(sw: set<Node>, n: nat, payload: nat, s: Snapshot, a: Node, b: Node, s': Snapshot, v: Node, host: Node)
    requires Consistent(sw, n, s) && TookDown(sw, n, payload, s, a, b, s') && host < n && host !in sw
    ensures Reachable(s'.nb, sw, host, v) ==> Reachable(s.nb, sw, host, v)
    ensures Reachable(s'.nb, sw, host, v) ==> SameEntry(s.pairs, s'.pairs, v, host) || AllRecorded(s'.pairs, v, host)
    ensures !Reachable(s'.nb, sw, host, v) ==> SameEntry(s.pairs, s'.pairs, v, host)
  {
    SameUp(s.nb, a, b, s'.nb);
    if Reachable(s'.nb, sw, host, v) { DistancesNeverShrink(s'.nb, s.nb, sw, host, v); }
    if Up(s.nb, a, b) { assert PairsFor(s'.nb, sw, payload, host, s.pairs, s'.pairs); }
  }

  /** After any run a pair has entries exactly if its host reached its node at the start, so that they match the
      links if and only if the run did not cut the node off. */
  lemma {:induction false} StaleIffCutOff(sw: set<Node>, n: nat, payload: nat, ss: seq<Snapshot>, cuts: seq<(Node, Node)>,
                                          v: Node, host: Node)
    requires Run(sw, n, payload, ss, cuts) && Consistent(sw, n, ss[0]) && host < n && host !in sw
    requires PairsMatch(ss[0].nb, sw, ss[0].pairs, v, host)
    ensures PairsMatch(ss[0].nb, sw, ss[|cuts|].pairs, v, host)
    ensures Reachable(ss[|cuts|].nb, sw, host, v) ==> Reachable(ss[0].nb, sw, host, v)
    ensures PairsMatch(ss[|cuts|].nb, sw, ss[|cuts|].pairs, v, host)
      <==> (Reachable(ss[0].nb, sw, host, v) ==> Reachable(ss[|cuts|].nb, sw, host, v))
    decreases |cuts|
  {
    if cuts != [] {
      var k := |cuts| - 1;
      StaleIffCutOff(sw, n, payload, ss[..k + 1], cuts[..k], v, host);
      RunsStayConsistent(sw, n, payload, ss[..k + 1], cuts[..k]);
      StepPairs(sw, n, payload, ss[k], cuts[k].0, cuts[k].1, ss[k + 1], v, host);
      hide Consistent, Reachable, Entry, TookDown;
    }
  }

  /** Once a node is cut off from a host, their entries keep the values they had before, whatever fails later. */
  lemma {:induction false} StaleKeepsValues(sw: set<Node>, n: nat, payload: nat, ss: seq<Snapshot>, cuts: seq<(Node, Node)>,
                                            v: Node, host: Node, j: nat)
    requires Run(sw, n, payload, ss, cuts) && Consistent(sw, n, ss[0]) && host < n && host !in sw
    requires 1 <= j <= |cuts| && !Reachable(ss[j].nb, sw, host, v)
    ensures !Reachable(ss[|cuts|].nb, sw, host, v) && SameEntry(ss[j - 1].pairs, ss[|cuts|].pairs, v, host)
    decreases |cuts|
  {
    var k := |cuts| - 1;
    RunsStayConsistent(sw, n, payload, ss[..k + 1], cuts[..k]);
    StepPairs(sw, n, payload, ss[k], cuts[k].0, cuts[k].1, ss[k + 1], v, host);
    if j < |cuts| { StaleKeepsValues(sw, n, payload, ss[..k + 1], cuts[..k], v, host, j); }
    hide Consistent, Reachable, Entry, TookDown;
  }

  lemma {:induction false} CostsSurvive(nb: Neighbours, nb': Neighbours, sw: set<Node>, payload: nat, a: Node, b: Node, p: seq<Node>)
    requires PositiveRates(nb) && PositiveRates(nb') && LinkLost(nb, a, b, nb') && IsPath(nb', sw, p)
    ensures IsPath(nb, sw, p) && PathDelay(nb, sw, p) == PathDelay(nb', sw, p)
    ensures PathTx(nb, sw, payload, p) == PathTx(nb', sw, payload, p) && PathBw(nb, sw, p) == PathBw(nb', sw, p)
    decreases |p|
  {
    var m := |p| - 1;
    PathsSurvive(nb', nb, sw, p[0], p[m], p);
    if m > 0 {
      PathInit(nb', sw, p[0], p[m], p);
      PathInit(nb, sw, p[0], p[m], p);
      CostsSurvive(nb, nb', sw, payload, a, b, p[..m]);
    }
  }

  /** Asking for a link that is down already leaves the cost of every pair right. */
  lemma CostsStay(sw: set<Node>, payload: nat, nb: Neighbours, a: Node, b: Node, nb': Neighbours, m: Metrics, v: Node, host: Node)
    requires Symmetric(nb) && PositiveRates(nb) && PositiveRates(nb') && LinkLost(nb, a, b, nb') && !Up(nb, a, b)
    requires Reachable(nb, sw, host, v) && PairCosts(nb, sw, payload, host, v, m)
    ensures Reachable(nb', sw, host, v) && PairCosts(nb', sw, payload, host, v, m)
  {
    SameUp(nb, a, b, nb');
    SameDistance(nb', nb, sw, host, v);
    var p :| PathTo(nb, sw, host, v, p) && |p| == Dist(nb, sw, host, v) + 1
          && CostsOf(nb, sw, payload, host, v, p, Entry(m.delay, v, host).value, Entry(m.tx, v, host).value, Entry(m.bw, v, host).value);
    PathsSurvive(nb, nb', sw, host, v, p);
    CostsSurvive(nb, nb', sw, payload, a, b, p);
    hide Entry, LinkLost, PositiveRates, Symmetric, Fewer, PathDelay, PathTx, PathBw, IsPath;
  }

  /** What is not cut off is up to date: after any run the entries of every node its host still reaches are the
      costs of a shortest path over the links that are left. */
  lemma {:induction false} ReachedAreCurrent(sw: set<Node>, n: nat, payload: nat, ss: seq<Snapshot>, cuts: seq<(Node, Node)>,
                                             v: Node, host: Node)
    requires Run(sw, n, payload, ss, cuts) && Consistent(sw, n, ss[0]) && PositiveRates(ss[0].nb) && host < n && host !in sw
    requires Reachable(ss[0].nb, sw, host, v) ==> PairCosts(ss[0].nb, sw, payload, host, v, ss[0].pairs)
    ensures PositiveRates(ss[|cuts|].nb)
    ensures Reachable(ss[|cuts|].nb, sw, host, v) ==> PairCosts(ss[|cuts|].nb, sw, payload, host, v, ss[|cuts|].pairs)
    decreases |cuts|
  {
    if cuts != [] {
      var k := |cuts| - 1;
      ReachedAreCurrent(sw, n, payload, ss[..k + 1], cuts[..k], v, host);
      RunsStayConsistent(sw, n, payload, ss[..k + 1], cuts[..k]);
      StepIsCurrent(sw, n, payload, ss[k], cuts[k].0, cuts[k].1, ss[k + 1], v, host);
      hide Consistent, Reachable, PairCosts, PositiveRates, TookDown;
    }
  }

  lemma StepIsCurrent(sw: set<Node>, n: nat, payload: nat, s: Snapshot, a: Node, b: Node, s': Snapshot, v: Node, host: Node)
    requires Consistent(sw, n, s) && TookDown(sw, n, payload, s, a, b, s') && PositiveRates(s.nb) && host < n && host !in sw
    requires Reachable(s.nb, sw, host, v) ==> PairCosts(s.nb, sw, payload, host, v, s.pairs)
    ensures Reachable(s'.nb, sw, host, v) ==> PairCosts(s'.nb, sw, payload, host, v, s'.pairs)
  {
    hide PairCosts, PositiveRates, Reachable, Exact, Installed;
    if Up(s.nb, a, b) {
      assert PairsFor(s'.nb, sw, payload, host, s.pairs, s'.pairs);
    } else if Reachable(s'.nb, sw, host, v) {
      StepPairs(sw, n, payload, s, a, b, s', v, host);
      CostsStay(sw, payload, s.nb, a, b, s'.nb, s.pairs, v, host);
    }
  }

  /** The smallest case: host 0 loses its only link, to switch 1, and the entry for 1 stays behind. */
  lemma CutOffEntryStays(payload: nat, i: Interface, j: Interface, s: Snapshot, s': Snapshot)
    requires i.up && j.up && s.nb == map[0 := map[1 := i], 1 := map[0 := j]]
    requires Consistent({1}, 2, s) && PairsMatch(s.nb, {1}, s.pairs, 1, 0) && TookDown({1}, 2, payload, s, 0, 1, s')
    ensures !PairsMatch(s'.nb, {1}, s'.pairs, 1, 0)
  {
    assert Up(s.nb, 0, 1);
    assert PathTo(s.nb, {1}, 0, 1, [0, 1]);
    forall p ensures !PathTo(s'.nb, {1}, 0, 1, p) {
      if PathTo(s'.nb, {1}, 0, 1, p) { PathInit(s'.nb, {1}, 0, 1, p); }
    }
    StaleIffCutOff({1}, 2, payload, [s, s'], [(0, 1)], 1, 0);
  }
}
