/** Which interface leads where in a single fat-tree, and how many path ids two of its ToRs have. */
module FatPorts {
  import opened Graph
  import opened Topology
  import opened Loops
  import opened TopologyGen
  import opened TopologyFacts
  import opened Wiring
  import opened Fabric
  import opened LoadBalancing
  import opened FatTree

  // ----- counting the lines at a node

  function At(e: Ends, r: Role): nat {
    (if e.0 == r then 1 else 0) + (if e.1 == r then 1 else 0)
  }

  function Degree(es: seq<Ends>, r: Role): nat {
    if es == [] then 0 else Degree(es[..|es| - 1], r) + At(es[|es| - 1], r)
  }

  lemma {:induction false} DegreeAppend(a: seq<Ends>, b: seq<Ends>, r: Role)
    ensures Degree(a + b, r) == Degree(a, r) + Degree(b, r)
    decreases |b|
  {
    if b == [] {
      assert a + b == a;
    } else {
      DegreeAppend(a, b[..|b| - 1], r);
      assert (a + b)[..|a + b| - 1] == a + b[..|b| - 1];
    }
  }

  lemma DegreeOne(e: Ends, r: Role)
    ensures Degree([e], r) == At(e, r) && Degree([], r) == 0
  {
    assert [e][..0] == [];
  }

  /** One more round of a loop. */
  lemma DegreeRound(n: nat, f: nat -> seq<Ends>, row: seq<Ends>, r: Role)
    requires f(n) == row
    ensures Degree(Concat(n + 1, f), r) == Degree(Concat(n, f), r) + Degree(row, r)
  {
    hide Degree;
    ConcatStep(n, f);
    DegreeAppend(Concat(n, f), row, r);
  }

  lemma DegreeNone(f: nat -> seq<Ends>, r: Role)
    ensures Degree(Concat(0, f), r) == 0
  {
  }

  // ----- the loops of the generator, as far as they have run

  lemma {:induction false} ServerCells(dc: nat, pod: nat, t: nat, n: nat, r: Role)
    ensures Degree(Concat(n, ServerCell(dc, pod, t)), r)
         == if r == Tor(dc, pod, t) then n else if r.Server? && Tor(r.dc, r.pod, r.tor) == Tor(dc, pod, t) && r.i < n then 1 else 0
  {
    var f := ServerCell(dc, pod, t);
    DegreeNone(f, r);
    if n > 0 {
      var e := (Server(dc, pod, t, n - 1), Tor(dc, pod, t));
      ServerCells(dc, pod, t, n - 1, r);
      assert f(n - 1) == [e];
      hide Degree, Concat;
      DegreeRound(n - 1, f, [e], r);
      DegreeOne(e, r);
    }
  }

  /** On how many of the lines that the loops have written so far a node is. */
  function OnTorCells(dc: nat, pod: nat, t: nat, n: nat, r: Role): nat {
    if r == Tor(dc, pod, t) then n else if r.Agg? && r.dc == dc && r.pod == pod && r.agg < n then 1 else 0
  }

  function OnTorRows(p: Params, dc: nat, pod: nat, n: nat, r: Role): nat {
    if r.Tor? && r.dc == dc && r.pod == pod && r.tor < n then Half(p)
    else if r.Agg? && r.dc == dc && r.pod == pod then n else 0
  }

  function OnTorPods(p: Params, dc: nat, n: nat, r: Role): nat {
    if (r.Tor? || r.Agg?) && r.dc == dc && r.pod < n then Half(p) else 0
  }

  function OnAggCells(dc: nat, pod: nat, a: nat, n: nat, r: Role): nat {
    if r == Agg(dc, pod, a) then n else if r.Core? && r.dc == dc && r.group == a && r.c < n then 1 else 0
  }

  function OnAggRows(p: Params, dc: nat, pod: nat, n: nat, r: Role): nat {
    if r.Agg? && r.dc == dc && r.pod == pod && r.agg < n then Half(p)
    else if r.Core? && r.dc == dc && r.group < n then 1 else 0
  }

  function OnAggPods(p: Params, dc: nat, n: nat, r: Role): nat {
    if r.Agg? && r.dc == dc && r.pod < n then Half(p) else if r.Core? && r.dc == dc then n else 0
  }

  lemma {:induction false} TorCells(dc: nat, pod: nat, t: nat, n: nat, r: Role)
    ensures Degree(Concat(n, TorCell(dc, pod, t)), r) == OnTorCells(dc, pod, t, n, r)
  {
    var f := TorCell(dc, pod, t);
    DegreeNone(f, r);
    if n > 0 {
      var e := (Tor(dc, pod, t), Agg(dc, pod, n - 1));
      TorCells(dc, pod, t, n - 1, r);
      assert f(n - 1) == [e];
      hide Degree, Concat;
      DegreeRound(n - 1, f, [e], r);
      DegreeOne(e, r);
    }
  }

  lemma TorRowStep(p: Params, dc: nat, pod: nat, n: nat, r: Role)
    requires Valid(p, r)
    ensures OnTorRows(p, dc, pod, 0, r) == 0
    ensures OnTorRows(p, dc, pod, n + 1, r) == OnTorRows(p, dc, pod, n, r) + OnTorCells(dc, pod, n, Half(p), r)
  {
  }

  lemma {:induction false} TorRows(p: Params, dc: nat, pod: nat, n: nat, r: Role)
    requires Valid(p, r)
    ensures Degree(Concat(n, TorRow(p, dc, pod)), r) == OnTorRows(p, dc, pod, n, r)
  {
    hide *;
    var f := TorRow(p, dc, pod);
    DegreeNone(f, r);
    TorRowStep(p, dc, pod, if n > 0 then n - 1 else 0, r);
    if n > 0 {
      TorRows(p, dc, pod, n - 1, r);
      TorRowIs(p, dc, pod, n - 1);
      DegreeRound(n - 1, f, f(n - 1), r);
      TorCells(dc, pod, n - 1, Half(p), r);
    }
  }

  lemma TorPodStep(p: Params, dc: nat, n: nat, r: Role)
    requires Valid(p, r)
    ensures OnTorPods(p, dc, 0, r) == 0
    ensures OnTorPods(p, dc, n + 1, r) == OnTorPods(p, dc, n, r) + OnTorRows(p, dc, n, Half(p), r)
  {
  }

  lemma {:induction false} TorPods(p: Params, dc: nat, n: nat, r: Role)
    requires Valid(p, r)
    ensures Degree(Concat(n, TorPod(p, dc)), r) == OnTorPods(p, dc, n, r)
  {
    hide *;
    var f := TorPod(p, dc);
    DegreeNone(f, r);
    TorPodStep(p, dc, if n > 0 then n - 1 else 0, r);
    if n > 0 {
      TorPods(p, dc, n - 1, r);
      TorPodIs(p, dc, n - 1);
      DegreeRound(n - 1, f, f(n - 1), r);
      TorRows(p, dc, n - 1, Half(p), r);
    }
  }

  lemma {:induction false} AggCells(dc: nat, pod: nat, t: nat, n: nat, r: Role)
    ensures Degree(Concat(n, AggCell(dc, pod, t)), r) == OnAggCells(dc, pod, t, n, r)
  {
    var f := AggCell(dc, pod, t);
    DegreeNone(f, r);
    if n > 0 {
      var e := (Agg(dc, pod, t), Core(dc, t, n - 1));
      AggCells(dc, pod, t, n - 1, r);
      assert f(n - 1) == [e];
      hide Degree, Concat;
      DegreeRound(n - 1, f, [e], r);
      DegreeOne(e, r);
    }
  }

  lemma AggRowStep(p: Params, dc: nat, pod: nat, n: nat, r: Role)
    requires Valid(p, r)
    ensures OnAggRows(p, dc, pod, 0, r) == 0
    ensures OnAggRows(p, dc, pod, n + 1, r) == OnAggRows(p, dc, pod, n, r) + OnAggCells(dc, pod, n, Half(p), r)
  {
  }

  lemma {:induction false} AggRows(p: Params, dc: nat, pod: nat, n: nat, r: Role)
    requires Valid(p, r)
    ensures Degree(Concat(n, AggRow(p, dc, pod)), r) == OnAggRows(p, dc, pod, n, r)
  {
    hide *;
    var f := AggRow(p, dc, pod);
    DegreeNone(f, r);
    AggRowStep(p, dc, pod, if n > 0 then n - 1 else 0, r);
    if n > 0 {
      AggRows(p, dc, pod, n - 1, r);
      TorRowIs(p, dc, pod, n - 1);
      DegreeRound(n - 1, f, f(n - 1), r);
      AggCells(dc, pod, n - 1, Half(p), r);
    }
  }

  lemma AggPodStep(p: Params, dc: nat, n: nat, r: Role)
    requires Valid(p, r)
    ensures OnAggPods(p, dc, 0, r) == 0
    ensures OnAggPods(p, dc, n + 1, r) == OnAggPods(p, dc, n, r) + OnAggRows(p, dc, n, Half(p), r)
  {
  }

  lemma {:induction false} AggPods(p: Params, dc: nat, n: nat, r: Role)
    requires Valid(p, r)
    ensures Degree(Concat(n, AggPod(p, dc)), r) == OnAggPods(p, dc, n, r)
  {
    hide *;
    var f := AggPod(p, dc);
    DegreeNone(f, r);
    AggPodStep(p, dc, if n > 0 then n - 1 else 0, r);
    if n > 0 {
      AggPods(p, dc, n - 1, r);
      TorPodIs(p, dc, n - 1);
      DegreeRound(n - 1, f, f(n - 1), r);
      AggRows(p, dc, n - 1, Half(p), r);
    }
  }

  function OnServerRows(p: Params, dc: nat, n: nat, r: Role): nat {
    if !(r.Tor? || r.Server?) || r.dc != dc || Radix(r.pod, r.tor, Half(p)) >= n then 0
    else if r.Tor? then ServersPerTor(p) else 1
  }

  lemma {:induction false} ServerRows(p: Params, dc: nat, n: nat, r: Role)
    requires Valid(p, r) && n <= TorsPerDc(p)
    ensures Degree(Concat(n, ServerRow(p, dc)), r) == OnServerRows(p, dc, n, r)
  {
    var f := ServerRow(p, dc);
    DegreeNone(f, r);
    if n > 0 {
      var q := n - 1;
      ServerRows(p, dc, q, r);
      ServerRowIs(p, dc, q);
      PodSlot(p, q, p.k);
      if r.Tor? || r.Server? { PodSlotOf(p, r.pod, r.tor, p.k); }
      hide Degree, Concat, ServerRow, Half, Pod, Slot, Radix, ServersPerTor, TorsPerDc;
      DegreeRound(q, f, f(q), r);
      ServerCells(dc, Pod(p, q), Slot(p, q), ServersPerTor(p), r);
    }
  }

  /** How many lines a node of the tree is on: a server on one, a ToR on one for each server and each aggregation
      switch, an aggregation switch and a core on k. */
  function Devs(p: Params, r: Role): nat {
    match r
    case Server(_, _, _, _) => 1
    case Tor(_, _, _) => ServersPerTor(p) + Half(p)
    case Agg(_, _, _) => p.k
    case Core(_, _, _) => p.k
    case Dci(_) => 0
  }

  lemma TreeDegrees(p: Params, r: Role)
    requires Single(p) && Valid(p, r)
    ensures Degree(FatEnds(p), r) == Devs(p, r)
  {
    var a, b, c := Concat(TorsPerDc(p), ServerRow(p, 0)), Concat(p.k, TorPod(p, 0)), Concat(p.k, AggPod(p, 0));
    assert FatEnds(p) == a + b + c;
    hide *;
    SingleHasOne(p);
    OnAll(p, r);
    ServerRows(p, 0, TorsPerDc(p), r);
    TorPods(p, 0, p.k, r);
    AggPods(p, 0, p.k, r);
    ThreeParts(a, b, c, r);
  }

  lemma OnAll(p: Params, r: Role)
    requires Single(p) && Valid(p, r)
    ensures OnServerRows(p, 0, TorsPerDc(p), r) + OnTorPods(p, 0, p.k, r) + OnAggPods(p, 0, p.k, r) == Devs(p, r)
  {
    if r.Tor? || r.Server? { PodSlotOf(p, r.pod, r.tor, p.k); }
    assert TorsPerDc(p) == Half(p) * p.k && p.k == Half(p) + Half(p);
    hide Radix, Half, ServersPerTor, TorsPerDc, Pod, Slot;
  }

  lemma ThreeParts(a: seq<Ends>, b: seq<Ends>, c: seq<Ends>, r: Role)
    ensures Degree(a + b + c, r) == Degree(a, r) + Degree(b, r) + Degree(c, r)
  {
    hide *;
    DegreeAppend(a, b, r);
    DegreeAppend(a + b, c, r);
  }

  // ----- devices and interface numbers

  ghost predicate AllWritten(p: Params, es: seq<Ends>) {
    forall i :: 0 <= i < |es| ==> Written(p, es[i])
  }

  lemma {:induction false} WiredDevices(p: Params, es: seq<Ends>, r: Role)
    requires AllWritten(p, es) && Valid(p, r)
    ensures Devices(Wire(Render(p, es)), Id(p, r)) == Degree(es, r)
    decreases |es|
  {
    if es != [] {
      var init, e := es[..|es| - 1], es[|es| - 1];
      assert Written(p, e) && Render(p, es) == Render(p, init) + [LinkFor(p, e)];
      WiredDevices(p, init, r);
      WireLast(Render(p, init), LinkFor(p, e));
      LineDevices(Wire(Render(p, init)), LinkFor(p, e), Id(p, r));
      hide Wire, Render, Devices, AddLine, Id;
      if Id(p, e.0) == Id(p, r) { IdInjective(p, e.0, r); }
      if Id(p, e.1) == Id(p, r) { IdInjective(p, e.1, r); }
    }
  }

  lemma WireLast(ls: seq<Link>, l: Link)
    ensures Wire(ls + [l]) == AddLine(Wire(ls), l)
  {
    assert (ls + [l])[..|ls|] == ls;
    hide AddLine;
  }

  lemma LineDevices(w: Wired, l: Link, x: Node)
    ensures Devices(AddLine(w, l), x) == Devices(w, x) + (if x == l.src then 1 else 0) + (if x == l.dst then 1 else 0)
  {
    var bw := BitsPerSecond(l.rate);
    AttachAt(w, l.src, l.dst, l.latency, bw, x, x);
    AttachAt(Attach(w, l.src, l.dst, l.latency, bw), l.dst, l.src, l.latency, bw, x, x);
    hide Attach, Devices, BitsPerSecond;
  }

  /** A line between two nodes leads to the next device of each. */
  lemma LineNumbers(w: Wired, l: Link, x: Node, y: Node)
    requires l.src != l.dst && Joins(l, x, y)
    ensures Up(AddLine(w, l).nb, x, y) && AddLine(w, l).nb[x][y].idx == Devices(w, x) + 1
  {
    var bw := BitsPerSecond(l.rate);
    var v := Attach(w, l.src, l.dst, l.latency, bw);
    AttachAt(w, l.src, l.dst, l.latency, bw, x, y);
    AttachAt(v, l.dst, l.src, l.latency, bw, x, y);
    hide Attach, Devices, BitsPerSecond;
  }

  /** The link between `r` and `s` is the one after `pre`. */
  ghost predicate LinkAfter(p: Params, es: seq<Ends>, pre: seq<Ends>, e: Ends, post: seq<Ends>) {
    es == pre + [e] + post && AllWritten(p, es) && NoDup(es)
  }

  /** The interface to a neighbour is numbered by the lines at the node up to the one that joins the two. */
  lemma {:induction false} NumberOf(p: Params, es: seq<Ends>, pre: seq<Ends>, e: Ends, post: seq<Ends>, r: Role, s: Role)
    requires LinkAfter(p, es, pre, e, post) && (e == (r, s) || e == (s, r))
    ensures var nb := Wire(Render(p, es)).nb; Up(nb, Id(p, r), Id(p, s)) && nb[Id(p, r)][Id(p, s)].idx == Degree(pre, r) + 1
    decreases |post|
  {
    var a, b := Id(p, r), Id(p, s);
    if post == [] {
      NumberOfLast(p, es, pre, e, r, s);
    } else {
      var m := |post| - 1;
      var init, l := es[..|es| - 1], LinkFor(p, post[m]);
      EarlierLink(p, es, pre, e, post, r, s);
      NumberOf(p, init, pre, e, post[..m], r, s);
      hide *;
      WireLast(Render(p, init), l);
      StaysWired(Wire(Render(p, init)), l, a, b);
    }
  }

  lemma StaysWired(w: Wired, l: Link, x: Node, y: Node)
    requires Up(w.nb, x, y) && !Joins(l, x, y)
    ensures Up(AddLine(w, l).nb, x, y) && AddLine(w, l).nb[x][y] == w.nb[x][y]
  {
    LineAt(w, l, x, y);
    hide AddLine;
  }

  lemma NumberOfLast(p: Params, es: seq<Ends>, pre: seq<Ends>, e: Ends, r: Role, s: Role)
    requires LinkAfter(p, es, pre, e, []) && (e == (r, s) || e == (s, r))
    ensures var nb := Wire(Render(p, es)).nb; Up(nb, Id(p, r), Id(p, s)) && nb[Id(p, r)][Id(p, s)].idx == Degree(pre, r) + 1
  {
    assert es == pre + [e] && es[|pre|] == e && Written(p, e);
    forall i | 0 <= i < |pre| ensures Written(p, pre[i]) { assert es[i] == pre[i]; }
    WiredDevices(p, pre, r);
    RenderSnoc(p, pre, e);
    EndsDiffer(p, e);
    hide Id, Wire, Render, Degree, Devices, Written, Valid, LinkAfter, AllWritten;
    WireLast(Render(p, pre), LinkFor(p, e));
    LineNumbers(Wire(Render(p, pre)), LinkFor(p, e), Id(p, r), Id(p, s));
  }

  lemma EndsDiffer(p: Params, e: Ends)
    requires Written(p, e)
    ensures LinkFor(p, e).src != LinkFor(p, e).dst && Valid(p, e.0) && Valid(p, e.1)
  {
    hide Id;
    if Id(p, e.0) == Id(p, e.1) { IdInjective(p, e.0, e.1); }
  }

  lemma EarlierLink(p: Params, es: seq<Ends>, pre: seq<Ends>, e: Ends, post: seq<Ends>, r: Role, s: Role)
    requires LinkAfter(p, es, pre, e, post) && (e == (r, s) || e == (s, r)) && post != []
    ensures var m := |post| - 1;
      && LinkAfter(p, es[..|es| - 1], pre, e, post[..m])
      && Render(p, es) == Render(p, es[..|es| - 1]) + [LinkFor(p, post[m])]
      && !Joins(LinkFor(p, post[m]), Id(p, r), Id(p, s))
  {
    var m := |post| - 1;
    assert es[|es| - 1] == post[m] && es[|pre|] == e && es[..|es| - 1] == pre + [e] + post[..m];
    assert Written(p, e) && Written(p, post[m]) && post[m] != e;
    hide Id, Render;
    if Joins(LinkFor(p, post[m]), Id(p, r), Id(p, s)) { EndsAre(p, post[m], r, s); }
    assert Render(p, es) == Render(p, es[..|es| - 1]) + [LinkFor(p, post[m])] by { LastRendered(p, es); }
  }

  lemma LastRendered(p: Params, es: seq<Ends>)
    requires es != []
    ensures Render(p, es) == Render(p, es[..|es| - 1]) + [LinkFor(p, es[|es| - 1])]
  {
  }

  // ----- where a line is

  lemma Nested<T>(es: seq<T>, pre: seq<T>, mid: seq<T>, post: seq<T>, pre': seq<T>, mid': seq<T>, post': seq<T>)
    requires es == pre + mid + post && mid == pre' + mid' + post'
    ensures es == (pre + pre') + mid' + (post' + post)
  {
  }

  lemma {:induction false} Rest<T>(n: nat, f: nat -> seq<T>, i: nat) returns (post: seq<T>)
    requires i < n
    ensures Concat(n, f) == Concat(i, f) + f(i) + post
    decreases n
  {
    if i == n - 1 {
      post := [];
    } else {
      post := Rest(n - 1, f, i);
      Assoc(Concat(i, f) + f(i), post, f(n - 1));
      post := post + f(n - 1);
    }
  }

  lemma FatIsOnce(p: Params)
    requires Single(p)
    ensures AllWritten(p, FatEnds(p)) && NoDup(FatEnds(p))
  {
    var a, b, c := Concat(TorsPerDc(p), ServerRow(p, 0)), Concat(p.k, TorPod(p, 0)), Concat(p.k, AggPod(p, 0));
    assert FatEnds(p) == a + b + c;
    hide Concat, ServerRow, TorPod, AggPod, FatEnds;
    ServersOnce(p, 0);
    TorsOnce(p, 0);
    AggsOnce(p, 0);
    forall e ensures (e in a ==> e.0.Server?) && (e in b ==> e.0.Tor?) && (e in c ==> e.0.Agg?) {
      InServers(p, 0, e);
      InTors(p, 0, e);
      InAggs(p, 0, e);
    }
    NoDupAppend(a, b);
    NoDupAppend(a + b, c);
    forall i | 0 <= i < |FatEnds(p)| ensures Written(p, FatEnds(p)[i]) {
      WritesTheTree(p, FatEnds(p)[i]);
    }
  }

  /** What is written before the line between a ToR and an aggregation switch, ... */
  ghost function BeforeTorLink(p: Params, pod: nat, t: nat, a: nat): seq<Ends> {
    Concat(TorsPerDc(p), ServerRow(p, 0)) + (Concat(pod, TorPod(p, 0)) + (Concat(t, TorRow(p, 0, pod)) + Concat(a, TorCell(0, pod, t))))
  }

  /** ... and before the one between an aggregation switch and a core. */
  ghost function BeforeAggLink(p: Params, pod: nat, a: nat, c: nat): seq<Ends> {
    (Concat(TorsPerDc(p), ServerRow(p, 0)) + Concat(p.k, TorPod(p, 0)))
    + (Concat(pod, AggPod(p, 0)) + (Concat(a, AggRow(p, 0, pod)) + Concat(c, AggCell(0, pod, a))))
  }

  lemma TorLinkAt(p: Params, pod: nat, t: nat, a: nat) returns (pre: seq<Ends>, post: seq<Ends>)
    requires Single(p) && pod < p.k && t < Half(p) && a < Half(p)
    ensures FatEnds(p) == pre + [(Tor(0, pod, t), Agg(0, pod, a))] + post
    ensures pre == BeforeTorLink(p, pod, t, a)
  {
    var x, y, z := Concat(TorsPerDc(p), ServerRow(p, 0)), Concat(p.k, TorPod(p, 0)), Concat(p.k, AggPod(p, 0));
    assert FatEnds(p) == x + y + z;
    TorPodIs(p, 0, pod);
    TorRowIs(p, 0, pod, t);
    TorEnds(p, 0, pod, t, a);
    hide *;
    var u, v, w := Concat(pod, TorPod(p, 0)), Concat(t, TorRow(p, 0, pod)), Concat(a, TorCell(0, pod, t));
    var p1 := Rest(p.k, TorPod(p, 0), pod);
    var p2 := Rest(Half(p), TorRow(p, 0, pod), t);
    var p3 := Rest(Half(p), TorCell(0, pod, t), a);
    Nested(FatEnds(p), x, y, z, u, TorPod(p, 0)(pod), p1);
    Nested(FatEnds(p), x + u, TorPod(p, 0)(pod), p1 + z, v, TorRow(p, 0, pod)(t), p2);
    Nested(FatEnds(p), x + u + v, TorRow(p, 0, pod)(t), p2 + (p1 + z), w, TorCell(0, pod, t)(a), p3);
    Assoc(v, w, []);
    Assoc(x, u, v + w);
    Assoc(x + u, v, w);
    pre, post := x + (u + (v + w)), p3 + (p2 + (p1 + z));
  }

  lemma AggLinkAt(p: Params, pod: nat, a: nat, c: nat) returns (pre: seq<Ends>, post: seq<Ends>)
    requires Single(p) && pod < p.k && a < Half(p) && c < Half(p)
    ensures FatEnds(p) == pre + [(Agg(0, pod, a), Core(0, a, c))] + post
    ensures pre == BeforeAggLink(p, pod, a, c)
  {
    var x, y := Concat(TorsPerDc(p), ServerRow(p, 0)) + Concat(p.k, TorPod(p, 0)), Concat(p.k, AggPod(p, 0));
    assert FatEnds(p) == x + y + [];
    TorPodIs(p, 0, pod);
    TorRowIs(p, 0, pod, a);
    AggEnds(p, 0, pod, a, c);
    hide *;
    var u, v, w := Concat(pod, AggPod(p, 0)), Concat(a, AggRow(p, 0, pod)), Concat(c, AggCell(0, pod, a));
    var p1 := Rest(p.k, AggPod(p, 0), pod);
    var p2 := Rest(Half(p), AggRow(p, 0, pod), a);
    var p3 := Rest(Half(p), AggCell(0, pod, a), c);
    Nested(FatEnds(p), x, y, [], u, AggPod(p, 0)(pod), p1);
    Nested(FatEnds(p), x + u, AggPod(p, 0)(pod), p1 + [], v, AggRow(p, 0, pod)(a), p2);
    Nested(FatEnds(p), x + u + v, AggRow(p, 0, pod)(a), p2 + (p1 + []), w, AggCell(0, pod, a)(c), p3);
    Assoc(x, u, v + w);
    Assoc(x + u, v, w);
    pre, post := x + (u + (v + w)), p3 + (p2 + (p1 + []));
  }

  lemma DegreeOfFour(x: seq<Ends>, u: seq<Ends>, v: seq<Ends>, w: seq<Ends>, r: Role)
    ensures Degree(x + (u + (v + w)), r) == Degree(x, r) + Degree(u, r) + Degree(v, r) + Degree(w, r)
  {
    hide *;
    DegreeAppend(v, w, r);
    DegreeAppend(u, v + w, r);
    DegreeAppend(x, u + (v + w), r);
  }

  lemma BeforeTorLinkAt(p: Params, pod: nat, t: nat, a: nat)
    requires pod < p.k && t < Half(p) && a < Half(p) && p.dcs == 1
    ensures Degree(BeforeTorLink(p, pod, t, a), Tor(0, pod, t)) == ServersPerTor(p) + a
    ensures Degree(BeforeTorLink(p, pod, t, a), Agg(0, pod, a)) == t
  {
    var x, y := Tor(0, pod, t), Agg(0, pod, a);
    PodSlotOf(p, pod, t, p.k);
    assert Valid(p, x) && Valid(p, y) && TorsPerDc(p) == Half(p) * p.k;
    var c0, c1, c2, c3 := Concat(TorsPerDc(p), ServerRow(p, 0)), Concat(pod, TorPod(p, 0)), Concat(t, TorRow(p, 0, pod)), Concat(a, TorCell(0, pod, t));
    assert BeforeTorLink(p, pod, t, a) == c0 + (c1 + (c2 + c3));
    hide Degree, Concat, BeforeTorLink, ServerRow, TorPod, TorRow, TorCell, Half, ServersPerTor, TorsPerDc, Radix;
    forall r | r == x || r == y ensures Degree(c0 + (c1 + (c2 + c3)), r) == if r == x then ServersPerTor(p) + a else t {
      DegreeOfFour(c0, c1, c2, c3, r);
      ServerRows(p, 0, TorsPerDc(p), r);
      TorPods(p, 0, pod, r);
      TorRows(p, 0, pod, t, r);
      TorCells(0, pod, t, a, r);
    }
  }

  lemma BeforeAggLinkAt(p: Params, pod: nat, a: nat, c: nat)
    requires pod < p.k && a < Half(p) && c < Half(p) && p.dcs == 1
    ensures Degree(BeforeAggLink(p, pod, a, c), Agg(0, pod, a)) == Half(p) + c
    ensures Degree(BeforeAggLink(p, pod, a, c), Core(0, a, c)) == pod
  {
    var x, y := Agg(0, pod, a), Core(0, a, c);
    assert Valid(p, x) && Valid(p, y);
    var b0, b1 := Concat(TorsPerDc(p), ServerRow(p, 0)), Concat(p.k, TorPod(p, 0));
    var c1, c2, c3 := Concat(pod, AggPod(p, 0)), Concat(a, AggRow(p, 0, pod)), Concat(c, AggCell(0, pod, a));
    assert BeforeAggLink(p, pod, a, c) == (b0 + b1) + (c1 + (c2 + c3));
    hide Degree, Concat, BeforeAggLink, ServerRow, TorPod, AggPod, AggRow, AggCell, Half, ServersPerTor, TorsPerDc, Radix;
    forall r | r == x || r == y ensures Degree((b0 + b1) + (c1 + (c2 + c3)), r) == if r == x then Half(p) + c else pod {
      DegreeOfFour(b0 + b1, c1, c2, c3, r);
      DegreeAppend(b0, b1, r);
      ServerRows(p, 0, TorsPerDc(p), r);
      TorPods(p, 0, p.k, r);
      AggPods(p, 0, pod, r);
      AggRows(p, 0, pod, a, r);
      AggCells(0, pod, a, c, r);
    }
  }

  ghost function WiredTree(p: Params): Neighbours {
    Wire(Render(p, FatEnds(p))).nb
  }

  ghost predicate Numbered(p: Params, r: Role, s: Role, i: nat) {
    var nb := WiredTree(p);
    Up(nb, Id(p, r), Id(p, s)) && nb[Id(p, r)][Id(p, s)].idx == i
  }

  /** A ToR's interfaces lead to its servers first, then to the aggregation switches in order; an aggregation
      switch's lead to the ToRs of its pod in order first. */
  lemma TorNumbers(p: Params, pod: nat, t: nat, a: nat)
    requires Single(p) && pod < p.k && t < Half(p) && a < Half(p)
    ensures Numbered(p, Tor(0, pod, t), Agg(0, pod, a), ServersPerTor(p) + a + 1)
    ensures Numbered(p, Agg(0, pod, a), Tor(0, pod, t), t + 1)
  {
    hide *;
    FatIsOnce(p);
    var pre, post := TorLinkAt(p, pod, t, a);
    Numbers(p, pre, (Tor(0, pod, t), Agg(0, pod, a)), post);
    SingleHasOne(p);
    BeforeTorLinkAt(p, pod, t, a);
  }

  lemma SingleHasOne(p: Params)
    requires Single(p)
    ensures p.dcs == 1
  {
  }

  lemma Numbers(p: Params, pre: seq<Ends>, e: Ends, post: seq<Ends>)
    requires FatEnds(p) == pre + [e] + post && AllWritten(p, FatEnds(p)) && NoDup(FatEnds(p))
    ensures Numbered(p, e.0, e.1, Degree(pre, e.0) + 1) && Numbered(p, e.1, e.0, Degree(pre, e.1) + 1)
  {
    assert LinkAfter(p, FatEnds(p), pre, e, post) && e == (e.0, e.1);
    hide *;
    NumberOneWay(p, pre, e, post, e.0, e.1);
    NumberOneWay(p, pre, e, post, e.1, e.0);
  }

  lemma NumberOneWay(p: Params, pre: seq<Ends>, e: Ends, post: seq<Ends>, r: Role, s: Role)
    requires LinkAfter(p, FatEnds(p), pre, e, post) && (e == (r, s) || e == (s, r))
    ensures Numbered(p, r, s, Degree(pre, r) + 1)
  {
    hide *;
    NumberOf(p, FatEnds(p), pre, e, post, r, s);
    NumberedIs(p, r, s);
  }

  lemma NumberedIs(p: Params, r: Role, s: Role)
    requires var nb := Wire(Render(p, FatEnds(p))).nb; Up(nb, Id(p, r), Id(p, s))
    ensures Numbered(p, r, s, Wire(Render(p, FatEnds(p))).nb[Id(p, r)][Id(p, s)].idx)
  {
    hide Wire, Render, FatEnds, Id;
  }

  /** After its ToRs an aggregation switch's interfaces lead to the cores of its group in order; a core's lead to
      the pods in order. */
  lemma AggNumbers(p: Params, pod: nat, a: nat, c: nat)
    requires Single(p) && pod < p.k && a < Half(p) && c < Half(p)
    ensures Numbered(p, Agg(0, pod, a), Core(0, a, c), Half(p) + c + 1)
    ensures Numbered(p, Core(0, a, c), Agg(0, pod, a), pod + 1)
  {
    hide *;
    FatIsOnce(p);
    var pre, post := AggLinkAt(p, pod, a, c);
    Numbers(p, pre, (Agg(0, pod, a), Core(0, a, c)), post);
    SingleHasOne(p);
    BeforeAggLinkAt(p, pod, a, c);
  }

  lemma {:induction false} NoDevices(ls: seq<Link>, a: Node)
    requires forall l :: l in ls ==> l.src != a && l.dst != a
    ensures Devices(Wire(ls), a) == 0
    decreases |ls|
  {
    if ls != [] {
      NoDevices(ls[..|ls| - 1], a);
      assert ls == ls[..|ls| - 1] + [ls[|ls| - 1]];
      WireLast(ls[..|ls| - 1], ls[|ls| - 1]);
      LineDevices(Wire(ls[..|ls| - 1]), ls[|ls| - 1], a);
    }
  }

  /** If k and the devices of a ToR do not exceed 255, interfaces are numbered 1 to 255 and apart. */
  lemma TreePortsDiffer(p: Params)
    requires Single(p) && p.k <= 255 && Half(p) * (p.os + 1) <= 255
    ensures DistinctPorts(WiredTree(p))
  {
    var es := FatEnds(p);
    var ls := Render(p, es);
    forall a: Node ensures Devices(Wire(ls), a) <= 255 {
      if a < FatTotal(p) {
        FatRole(p, a);
        var r := RoleOf(p, a);
        FatIsOnce(p);
        WiredDevices(p, es, r);
        TreeDegrees(p, r);
        DevsAre(p, r);
      } else {
        OutsideTree(p, a);
      }
    }
    hide *;
    WiredPortsDiffer(ls);
    WiredTreeIs(p);
  }

  lemma WiredTreeIs(p: Params)
    ensures WiredTree(p) == Wire(Render(p, FatEnds(p))).nb
  {
  }

  lemma DevsAre(p: Params, r: Role)
    requires Single(p) && p.k <= 255 && Half(p) * (p.os + 1) <= 255
    ensures Devs(p, r) <= 255
  {
    assert Half(p) * (p.os + 1) == ServersPerTor(p) + Half(p);
  }

  lemma OutsideTree(p: Params, a: Node)
    requires Single(p) && a >= FatTotal(p)
    ensures Devices(Wire(Render(p, FatEnds(p))), a) == 0
  {
    var ls := Render(p, FatEnds(p));
    forall l | l in ls ensures l.src != a && l.dst != a {
      FatLines(p, l);
      var e :| WrittenFat(p, e) && l == LinkFor(p, e);
      FatIds(p, e.0);
      FatIds(p, e.1);
    }
    hide *;
    NoDevices(ls, a);
  }
}
