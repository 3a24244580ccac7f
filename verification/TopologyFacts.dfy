/** What is in the topology file: the links of the fabric, each once, and the switches, each once. */
module TopologyFacts {
  import opened Graph
  import opened Topology
  import opened Loops
  import opened TopologyGen

  // ----- membership

  lemma PodSlotOf(p: Params, pod: nat, t: nat, m: nat)
    requires pod < m && t < Half(p)
    ensures Radix(pod, t, Half(p)) < Half(p) * m
    ensures Pod(p, Radix(pod, t, Half(p))) == pod && Slot(p, Radix(pod, t, Half(p))) == t
  {
    RadixBound(pod, t, m, Half(p));
    PodSlot(p, Radix(pod, t, Half(p)), m);
    RadixUnique(Pod(p, Radix(pod, t, Half(p))), Slot(p, Radix(pod, t, Half(p))), pod, t, Half(p));
  }

  lemma InServers(p: Params, dc: nat, e: Ends)
    requires dc < p.dcs
    ensures e in Concat(TorsPerDc(p), ServerRow(p, dc)) <==> Written(p, e) && e.0.Server? && e.0.dc == dc
  {
    var f := ServerRow(p, dc);
    InConcat(TorsPerDc(p), f, e);
    forall q: nat ensures e in f(q) <==> exists i: nat :: i < ServersPerTor(p) && e in ServerCell(dc, Pod(p, q), Slot(p, q))(i) {
      InConcat(ServersPerTor(p), ServerCell(dc, Pod(p, q), Slot(p, q)), e);
    }
    if q: nat :| q < TorsPerDc(p) && e in f(q) {
      PodSlot(p, q, p.k);
    }
    if Written(p, e) && e.0.Server? && e.0.dc == dc {
      PodSlotOf(p, e.0.pod, e.0.tor, p.k);
      var q := Radix(e.0.pod, e.0.tor, Half(p));
      assert e in ServerCell(dc, Pod(p, q), Slot(p, q))(e.0.i);
      assert e in f(q);
    }
  }

  lemma InTors(p: Params, dc: nat, e: Ends)
    requires dc < p.dcs
    ensures e in Concat(p.k, TorPod(p, dc)) <==> Written(p, e) && e.0.Tor? && e.0.dc == dc
  {
    InConcat(p.k, TorPod(p, dc), e);
    forall pod: nat
      ensures e in TorPod(p, dc)(pod) <==> exists t: nat, a: nat :: t < Half(p) && a < Half(p) && e in TorCell(dc, pod, t)(a)
    {
      InConcat(Half(p), TorRow(p, dc, pod), e);
      forall t: nat ensures e in TorRow(p, dc, pod)(t) <==> exists a: nat :: a < Half(p) && e in TorCell(dc, pod, t)(a) {
        InConcat(Half(p), TorCell(dc, pod, t), e);
      }
    }
    if Written(p, e) && e.0.Tor? && e.0.dc == dc {
      assert e in TorCell(dc, e.0.pod, e.0.tor)(e.1.agg);
      assert e in TorPod(p, dc)(e.0.pod);
    }
  }

  lemma InAggs(p: Params, dc: nat, e: Ends)
    requires dc < p.dcs
    ensures e in Concat(p.k, AggPod(p, dc)) <==> Written(p, e) && e.0.Agg? && e.0.dc == dc
  {
    InConcat(p.k, AggPod(p, dc), e);
    forall pod: nat
      ensures e in AggPod(p, dc)(pod) <==> exists a: nat, c: nat :: a < Half(p) && c < Half(p) && e in AggCell(dc, pod, a)(c)
    {
      InConcat(Half(p), AggRow(p, dc, pod), e);
      forall a: nat ensures e in AggRow(p, dc, pod)(a) <==> exists c: nat :: c < Half(p) && e in AggCell(dc, pod, a)(c) {
        InConcat(Half(p), AggCell(dc, pod, a), e);
      }
    }
    if Written(p, e) && e.0.Agg? && e.0.dc == dc {
      assert e in AggCell(dc, e.0.pod, e.0.agg)(e.1.c);
      assert e in AggPod(p, dc)(e.0.pod);
    }
  }

  lemma InCores(p: Params, dc: nat, e: Ends)
    requires dc < p.dcs
    ensures e in Concat(CoresPerDc(p), CoreCell(p, dc)) <==> Written(p, e) && e.0.Core? && e.0.dc == dc
  {
    InConcat(CoresPerDc(p), CoreCell(p, dc), e);
    if q: nat :| q < CoresPerDc(p) && e in CoreCell(p, dc)(q) {
      PodSlot(p, q, Half(p));
    }
    if Written(p, e) && e.0.Core? && e.0.dc == dc {
      PodSlotOf(p, e.0.group, e.0.c, Half(p));
      assert e in CoreCell(p, dc)(Radix(e.0.group, e.0.c, Half(p)));
    }
  }

  lemma InMesh(p: Params, e: Ends)
    ensures e in Concat(p.dcs, MeshRow(p)) <==> Written(p, e) && e.0.Dci?
  {
    InConcat(p.dcs, MeshRow(p), e);
    forall i: nat | i < p.dcs
      ensures e in MeshRow(p)(i) <==> exists x: nat :: x < p.dcs - i - 1 && e in MeshCell(i)(x)
    {
      InConcat(p.dcs - i - 1, MeshCell(i), e);
    }
    if Written(p, e) && e.0.Dci? {
      assert e in MeshCell(e.0.dc)(e.1.dc - e.0.dc - 1);
      assert e in MeshRow(p)(e.0.dc);
    }
  }

  lemma InDatacenter(p: Params, dc: nat, e: Ends)
    requires dc < p.dcs
    ensures e in Datacenter(p)(dc) <==> Written(p, e) && !e.0.Dci? && e.0.dc == dc
  {
    InServers(p, dc, e);
    InTors(p, dc, e);
    InAggs(p, dc, e);
    InCores(p, dc, e);
    hide Concat;
  }

  /** The generator writes exactly the links of the fabric. */
  lemma WritesTheFabric(p: Params, e: Ends)
    ensures e in AllEnds(p) <==> Written(p, e)
  {
    assert Written(p, e) ==> e.0.dc < p.dcs;
    hide *;
    AllEndsIs(p);
    InMesh(p, e);
    InDatacenters(p, e);
  }

  lemma InDatacenters(p: Params, e: Ends)
    ensures e in Concat(p.dcs, Datacenter(p)) <==> Written(p, e) && !e.0.Dci?
  {
    assert Written(p, e) ==> e.0.dc < p.dcs;
    hide *;
    var f := Datacenter(p);
    InConcat(p.dcs, f, e);
    if e in Concat(p.dcs, f) {
      var dc: nat :| dc < p.dcs && e in f(dc);
      InDatacenter(p, dc, e);
    }
    if Written(p, e) && !e.0.Dci? {
      InDatacenter(p, e.0.dc, e);
    }
  }

  // ----- nothing is written twice

  lemma CellsApart<T(!new)>(n: nat, f: nat -> seq<T>)
    requires forall i: nat :: i < n ==> |f(i)| == 1
    requires forall i: nat, j: nat :: i < n && j < n && f(i) == f(j) ==> i == j
    ensures NoDup(Concat(n, f))
  {
    forall i: nat, j: nat, x | i < n && j < n && x in f(i) && x in f(j) ensures i == j {
      assert f(i) == [x] && f(j) == [x];
    }
    ConcatNoDup(n, f);
  }

  lemma ServersOnce(p: Params, dc: nat)
    requires dc < p.dcs
    ensures NoDup(Concat(TorsPerDc(p), ServerRow(p, dc)))
  {
    var f := ServerRow(p, dc);
    forall q: nat | q < TorsPerDc(p) ensures NoDup(f(q)) {
      CellsApart(ServersPerTor(p), ServerCell(dc, Pod(p, q), Slot(p, q)));
    }
    forall q: nat, e ensures e in f(q) ==> e.1 == Tor(dc, Pod(p, q), Slot(p, q)) {
      InConcat(ServersPerTor(p), ServerCell(dc, Pod(p, q), Slot(p, q)), e);
    }
    forall q: nat, q': nat, e | q < TorsPerDc(p) && q' < TorsPerDc(p) && e in f(q) && e in f(q') ensures q == q' {
      assert e.1 == Tor(dc, Pod(p, q), Slot(p, q)) && e.1 == Tor(dc, Pod(p, q'), Slot(p, q'));
      PodSlot(p, q, p.k);
      PodSlot(p, q', p.k);
    }
    ConcatNoDup(TorsPerDc(p), f);
  }

  lemma TorsOnce(p: Params, dc: nat)
    requires dc < p.dcs
    ensures NoDup(Concat(p.k, TorPod(p, dc)))
  {
    forall pod: nat ensures NoDup(TorPod(p, dc)(pod)) && forall e :: e in TorPod(p, dc)(pod) ==> e.0.Tor? && e.0.pod == pod {
      forall t: nat ensures NoDup(TorRow(p, dc, pod)(t)) && forall e :: e in TorRow(p, dc, pod)(t) ==> e.0 == Tor(dc, pod, t) {
        CellsApart(Half(p), TorCell(dc, pod, t));
        forall e ensures e in TorRow(p, dc, pod)(t) ==> e.0 == Tor(dc, pod, t) {
          InConcat(Half(p), TorCell(dc, pod, t), e);
        }
      }
      ConcatNoDup(Half(p), TorRow(p, dc, pod));
      forall e ensures e in TorPod(p, dc)(pod) ==> e.0.Tor? && e.0.pod == pod {
        InConcat(Half(p), TorRow(p, dc, pod), e);
      }
    }
    ConcatNoDup(p.k, TorPod(p, dc));
  }

  lemma AggsOnce(p: Params, dc: nat)
    requires dc < p.dcs
    ensures NoDup(Concat(p.k, AggPod(p, dc)))
  {
    forall pod: nat ensures NoDup(AggPod(p, dc)(pod)) && forall e :: e in AggPod(p, dc)(pod) ==> e.0.Agg? && e.0.pod == pod {
      forall a: nat ensures NoDup(AggRow(p, dc, pod)(a)) && forall e :: e in AggRow(p, dc, pod)(a) ==> e.0 == Agg(dc, pod, a) {
        CellsApart(Half(p), AggCell(dc, pod, a));
        forall e ensures e in AggRow(p, dc, pod)(a) ==> e.0 == Agg(dc, pod, a) {
          InConcat(Half(p), AggCell(dc, pod, a), e);
        }
      }
      ConcatNoDup(Half(p), AggRow(p, dc, pod));
      forall e ensures e in AggPod(p, dc)(pod) ==> e.0.Agg? && e.0.pod == pod {
        InConcat(Half(p), AggRow(p, dc, pod), e);
      }
    }
    ConcatNoDup(p.k, AggPod(p, dc));
  }

  lemma CoresOnce(p: Params, dc: nat)
    ensures NoDup(Concat(CoresPerDc(p), CoreCell(p, dc)))
  {
    var f := CoreCell(p, dc);
    forall q: nat, q': nat | q < CoresPerDc(p) && q' < CoresPerDc(p) && f(q) == f(q') ensures q == q' {
      PodSlot(p, q, Half(p));
      PodSlot(p, q', Half(p));
      assert f(q)[0] == f(q')[0];
    }
    CellsApart(CoresPerDc(p), f);
  }

  lemma MeshOnce(p: Params)
    ensures NoDup(Concat(p.dcs, MeshRow(p)))
  {
    forall i: nat | i < p.dcs ensures NoDup(MeshRow(p)(i)) && forall e :: e in MeshRow(p)(i) ==> e.0 == Dci(i) {
      forall x: nat, y: nat | MeshCell(i)(x) == MeshCell(i)(y) ensures x == y {
        assert MeshCell(i)(x)[0] == MeshCell(i)(y)[0];
      }
      CellsApart(p.dcs - i - 1, MeshCell(i));
      forall e ensures e in MeshRow(p)(i) ==> e.0 == Dci(i) {
        InConcat(p.dcs - i - 1, MeshCell(i), e);
      }
    }
    ConcatNoDup(p.dcs, MeshRow(p));
  }

  lemma DatacenterOnce(p: Params, dc: nat)
    requires dc < p.dcs
    ensures NoDup(Datacenter(p)(dc))
  {
    var a, b := Concat(TorsPerDc(p), ServerRow(p, dc)), Concat(p.k, TorPod(p, dc));
    var c, d := Concat(p.k, AggPod(p, dc)), Concat(CoresPerDc(p), CoreCell(p, dc));
    assert Datacenter(p)(dc) == a + b + c + d;
    hide Concat;
    ServersOnce(p, dc);
    TorsOnce(p, dc);
    AggsOnce(p, dc);
    CoresOnce(p, dc);
    forall e ensures (e in a ==> e.0.Server?) && (e in b ==> e.0.Tor?) && (e in c ==> e.0.Agg?) && (e in d ==> e.0.Core?) {
      InServers(p, dc, e);
      InTors(p, dc, e);
      InAggs(p, dc, e);
      InCores(p, dc, e);
    }
    NoDupAppend(a, b);
    NoDupAppend(a + b, c);
    NoDupAppend(a + b + c, d);
  }

  /** No link is written twice. */
  lemma WritesOnce(p: Params)
    ensures NoDup(AllEnds(p))
  {
    hide *;
    var f := Datacenter(p);
    forall i: nat, j: nat, e | i < p.dcs && j < p.dcs && e in f(i) && e in f(j) ensures i == j {
      InDatacenter(p, i, e);
      InDatacenter(p, j, e);
    }
    forall dc: nat | dc < p.dcs ensures NoDup(f(dc)) {
      DatacenterOnce(p, dc);
    }
    DatacentersOnce(p, f);
    AllEndsIs(p);
    MeshOnce(p);
    forall e ensures e in Concat(p.dcs, f) && e in Concat(p.dcs, MeshRow(p)) ==> false {
      InDatacenters(p, e);
      InMesh(p, e);
    }
    NoDupAppend(Concat(p.dcs, f), Concat(p.dcs, MeshRow(p)));
  }

  lemma DatacentersOnce(p: Params, f: nat -> seq<Ends>)
    requires forall i: nat :: i < p.dcs ==> NoDup(f(i))
    requires forall i: nat, j: nat, e :: i < p.dcs && j < p.dcs && e in f(i) && e in f(j) ==> i == j
    ensures NoDup(Concat(p.dcs, f))
  {
    ConcatNoDup(p.dcs, f);
  }

  // ----- the file

  /** The link lines are those of the fabric's links. */
  lemma LinkLines(p: Params, l: Link)
    ensures l in Render(p, AllEnds(p)) <==> exists e :: Written(p, e) && l == LinkFor(p, e)
  {
    var es := AllEnds(p);
    RenderAt(p, es);
    hide AllEnds;
    if l in Render(p, es) {
      var i :| 0 <= i < |es| && Render(p, es)[i] == l;
      WritesTheFabric(p, es[i]);
    }
    if e :| Written(p, e) && l == LinkFor(p, e) {
      WritesTheFabric(p, e);
      var i :| 0 <= i < |es| && es[i] == e;
      assert Render(p, es)[i] == l;
    }
  }

  ghost predicate Touches(l: Link, a: nat) {
    l.src == a || l.dst == a
  }

  /** No line links a node to itself, and no two lines link the same two nodes, in either direction. */
  lemma LinesAreDistinct(p: Params, i: nat, j: nat)
    requires i < j < |Render(p, AllEnds(p))|
    ensures var ls := Render(p, AllEnds(p));
      ls[i].src != ls[i].dst && !(Touches(ls[i], ls[j].src) && Touches(ls[i], ls[j].dst))
  {
    var es := AllEnds(p);
    RenderAt(p, es);
    WritesOnce(p);
    WritesTheFabric(p, es[i]);
    WritesTheFabric(p, es[j]);
    EndsOfLinks(p, es[i], es[j]);
  }

  lemma EndsOfLinks(p: Params, d: Ends, e: Ends)
    requires Written(p, d) && Written(p, e) && d != e
    ensures Id(p, d.0) != Id(p, d.1)
    ensures !(Touches(LinkFor(p, d), Id(p, e.0)) && Touches(LinkFor(p, d), Id(p, e.1)))
  {
    hide Id;
    if Id(p, d.0) == Id(p, d.1) { IdInjective(p, d.0, d.1); }
    if Id(p, e.0) == Id(p, e.1) { IdInjective(p, e.0, e.1); }
    if Id(p, d.0) == Id(p, e.0) { IdInjective(p, d.0, e.0); }
    if Id(p, d.1) == Id(p, e.1) { IdInjective(p, d.1, e.1); }
    if Id(p, d.0) == Id(p, e.1) { IdInjective(p, d.0, e.1); }
    if Id(p, d.1) == Id(p, e.0) { IdInjective(p, d.1, e.0); }
  }

  /** Every server is on exactly one line, the one to its ToR. */
  lemma ServersAreSingleHomed(p: Params, r: Role, l: Link)
    requires Valid(p, r) && r.Server?
    ensures l in Render(p, AllEnds(p)) && Touches(l, Id(p, r)) <==> l == LinkFor(p, (r, Tor(r.dc, r.pod, r.tor)))
  {
    var up := (r, Tor(r.dc, r.pod, r.tor));
    LinkLines(p, l);
    hide Id;
    if l in Render(p, AllEnds(p)) && Touches(l, Id(p, r)) {
      var e :| Written(p, e) && l == LinkFor(p, e);
      if l.src == Id(p, r) { IdInjective(p, e.0, r); } else { IdInjective(p, e.1, r); }
    }
    if l == LinkFor(p, up) {
      assert Written(p, up);
    }
  }

  // ----- counts

  lemma PerDatacenter(p: Params, dc: nat)
    ensures |Datacenter(p)(dc)| == TorsPerDc(p) * ServersPerTor(p) + p.k * (Half(p) * Half(p)) + p.k * (Half(p) * Half(p)) + CoresPerDc(p)
  {
    forall q: nat ensures |ServerRow(p, dc)(q)| == ServersPerTor(p) {
      ConcatLength(ServersPerTor(p), ServerCell(dc, Pod(p, q), Slot(p, q)), 1);
    }
    ConcatLength(TorsPerDc(p), ServerRow(p, dc), ServersPerTor(p));
    forall pod: nat ensures |TorPod(p, dc)(pod)| == Half(p) * Half(p) && |AggPod(p, dc)(pod)| == Half(p) * Half(p) {
      forall t: nat ensures |TorRow(p, dc, pod)(t)| == Half(p) && |AggRow(p, dc, pod)(t)| == Half(p) {
        ConcatLength(Half(p), TorCell(dc, pod, t), 1);
        ConcatLength(Half(p), AggCell(dc, pod, t), 1);
      }
      ConcatLength(Half(p), TorRow(p, dc, pod), Half(p));
      ConcatLength(Half(p), AggRow(p, dc, pod), Half(p));
    }
    ConcatLength(p.k, TorPod(p, dc), Half(p) * Half(p));
    ConcatLength(p.k, AggPod(p, dc), Half(p) * Half(p));
    ConcatLength(CoresPerDc(p), CoreCell(p, dc), 1);
  }

  function ServerLines(p: Params): nat { TorsPerDc(p) * ServersPerTor(p) }
  function PodLines(p: Params): nat { p.k * (Half(p) * Half(p)) }
  function DcLines(p: Params): nat { ServerLines(p) + PodLines(p) + PodLines(p) + CoresPerDc(p) }

  /** Where in the lines of its datacenter a line is: servers ToR by ToR, then ToRs, aggregation switches and cores. */
  function PlaceInDc(p: Params, e: Ends): nat
    requires Written(p, e) && !e.0.Dci?
  {
    match e.0
    case Server(_, pod, t, i) => Radix(pod, t, Half(p)) * ServersPerTor(p) + i
    case Tor(_, pod, t) => ServerLines(p) + PodIndex(Half(p), pod, t, e.1.agg)
    case Agg(_, pod, a) => ServerLines(p) + PodLines(p) + PodIndex(Half(p), pod, a, e.1.c)
    case Core(_, g, c) => ServerLines(p) + PodLines(p) + PodLines(p) + Radix(g, c, Half(p))
  }

  lemma ServerPlace(p: Params, dc: nat, pod: nat, t: nat, i: nat)
    requires pod < p.k && t < Half(p) && i < ServersPerTor(p)
    ensures var s := Concat(TorsPerDc(p), ServerRow(p, dc));
      && Radix(pod, t, Half(p)) * ServersPerTor(p) + i < |s|
      && s[Radix(pod, t, Half(p)) * ServersPerTor(p) + i] == (Server(dc, pod, t, i), Tor(dc, pod, t))
  {
    var q := Radix(pod, t, Half(p));
    ServerCellAt(p, dc, pod, t, i);
    ServerRowLengths(p, dc);
    ServerRowIs(p, dc, q);
    hide *;
    ConcatAt(ServersPerTor(p), ServerCell(dc, Pod(p, q), Slot(p, q)), 1, i, 0);
    ConcatAt(TorsPerDc(p), ServerRow(p, dc), ServersPerTor(p), q, i);
  }

  lemma ServerCellAt(p: Params, dc: nat, pod: nat, t: nat, i: nat)
    requires pod < p.k && t < Half(p)
    ensures var q := Radix(pod, t, Half(p)); var cell := ServerCell(dc, Pod(p, q), Slot(p, q));
      q < TorsPerDc(p) && (forall x: nat :: |cell(x)| == 1) && cell(i)[0] == (Server(dc, pod, t, i), Tor(dc, pod, t))
  {
    PodSlotOf(p, pod, t, p.k);
    assert TorsPerDc(p) == Half(p) * p.k;
    hide Radix, Half, Pod, Slot, TorsPerDc;
  }

  lemma ServerRowLengths(p: Params, dc: nat)
    ensures forall q: nat :: |ServerRow(p, dc)(q)| == ServersPerTor(p)
  {
    forall q: nat ensures |ServerRow(p, dc)(q)| == ServersPerTor(p) {
      ConcatLength(ServersPerTor(p), ServerCell(dc, Pod(p, q), Slot(p, q)), 1);
    }
  }

  function PodIndex(h: nat, pod: nat, t: nat, a: nat): nat {
    pod * (h * h) + t * h + a
  }

  lemma Regroup(h: nat, pod: nat, t: nat, a: nat)
    ensures PodIndex(h, pod, t, a) == pod * (h * h) + (t * h + a)
  {
  }

  /** Three nested loops, the inner two over `h` rounds. */
  lemma NestedAt(k: nat, pods: nat -> seq<Ends>, rows: nat -> seq<Ends>, cell: nat -> seq<Ends>, h: nat, pod: nat, t: nat, a: nat)
    requires pod < k && t < h && a < h
    requires pods(pod) == Concat(h, rows) && rows(t) == Concat(h, cell)
    requires (forall x: nat :: |pods(x)| == h * h) && (forall x: nat :: |rows(x)| == h) && (forall x: nat :: |cell(x)| == 1)
    ensures PodIndex(h, pod, t, a) < |Concat(k, pods)| && Concat(k, pods)[PodIndex(h, pod, t, a)] == cell(a)[0]
  {
    hide *;
    ConcatAt(h, cell, 1, a, 0);
    ConcatAt(h, rows, h, t, a);
    ConcatAt(k, pods, h * h, pod, t * h + a);
    Regroup(h, pod, t, a);
  }

  lemma PodPlace(p: Params, dc: nat, pod: nat, t: nat, a: nat)
    requires pod < p.k && t < Half(p) && a < Half(p)
    ensures var n, s := PodIndex(Half(p), pod, t, a), Concat(p.k, TorPod(p, dc)); n < |s| && s[n] == (Tor(dc, pod, t), Agg(dc, pod, a))
    ensures var n, s := PodIndex(Half(p), pod, t, a), Concat(p.k, AggPod(p, dc)); n < |s| && s[n] == (Agg(dc, pod, t), Core(dc, t, a))
  {
    RowLengths(p, dc);
    TorPodIs(p, dc, pod);
    TorRowIs(p, dc, pod, t);
    CellsAre(p, dc, pod, t, a);
    hide *;
    NestedAt(p.k, TorPod(p, dc), TorRow(p, dc, pod), TorCell(dc, pod, t), Half(p), pod, t, a);
    NestedAt(p.k, AggPod(p, dc), AggRow(p, dc, pod), AggCell(dc, pod, t), Half(p), pod, t, a);
  }

  lemma CellsAre(p: Params, dc: nat, pod: nat, t: nat, a: nat)
    ensures forall x: nat :: |TorCell(dc, pod, t)(x)| == 1 && |AggCell(dc, pod, t)(x)| == 1
    ensures TorCell(dc, pod, t)(a)[0] == (Tor(dc, pod, t), Agg(dc, pod, a)) && AggCell(dc, pod, t)(a)[0] == (Agg(dc, pod, t), Core(dc, t, a))
  {
  }

  lemma RowLengths(p: Params, dc: nat)
    ensures forall pod: nat, t: nat :: |TorRow(p, dc, pod)(t)| == Half(p) && |AggRow(p, dc, pod)(t)| == Half(p)
    ensures forall pod: nat :: |TorPod(p, dc)(pod)| == Half(p) * Half(p) && |AggPod(p, dc)(pod)| == Half(p) * Half(p)
  {
    forall pod: nat, t: nat ensures |TorRow(p, dc, pod)(t)| == Half(p) && |AggRow(p, dc, pod)(t)| == Half(p) {
      ConcatLength(Half(p), TorCell(dc, pod, t), 1);
      ConcatLength(Half(p), AggCell(dc, pod, t), 1);
    }
    forall pod: nat ensures |TorPod(p, dc)(pod)| == Half(p) * Half(p) && |AggPod(p, dc)(pod)| == Half(p) * Half(p) {
      ConcatLength(Half(p), TorRow(p, dc, pod), Half(p));
      ConcatLength(Half(p), AggRow(p, dc, pod), Half(p));
    }
  }

  lemma CorePlace(p: Params, dc: nat, g: nat, c: nat)
    requires g < Half(p) && c < Half(p)
    ensures var s := Concat(CoresPerDc(p), CoreCell(p, dc));
      && |s| == CoresPerDc(p) && Radix(g, c, Half(p)) < |s| && s[Radix(g, c, Half(p))] == (Core(dc, g, c), Dci(dc))
  {
    PodSlotOf(p, g, c, Half(p));
    var q := Radix(g, c, Half(p));
    assert forall x: nat :: |CoreCell(p, dc)(x)| == 1;
    assert CoreCell(p, dc)(q)[0] == (Core(dc, g, c), Dci(dc));
    assert CoresPerDc(p) == Half(p) * Half(p);
    hide Concat, CoreCell, Radix, Half, CoresPerDc, Pod, Slot;
    ConcatAt(CoresPerDc(p), CoreCell(p, dc), 1, q, 0);
  }

  lemma FourParts<T>(a: seq<T>, b: seq<T>, c: seq<T>, d: seq<T>, i: nat)
    ensures i < |a| ==> (a + b + c + d)[i] == a[i]
    ensures i < |b| ==> (a + b + c + d)[|a| + i] == b[i]
    ensures i < |c| ==> (a + b + c + d)[|a| + |b| + i] == c[i]
    ensures i < |d| ==> (a + b + c + d)[|a| + |b| + |c| + i] == d[i]
  {
  }

  lemma PartsOfDc(p: Params, dc: nat)
    ensures Datacenter(p)(dc) == Concat(TorsPerDc(p), ServerRow(p, dc)) + Concat(p.k, TorPod(p, dc))
                                 + Concat(p.k, AggPod(p, dc)) + Concat(CoresPerDc(p), CoreCell(p, dc))
    ensures |Concat(TorsPerDc(p), ServerRow(p, dc))| == ServerLines(p)
    ensures |Concat(p.k, TorPod(p, dc))| == PodLines(p) == |Concat(p.k, AggPod(p, dc))|
  {
    LengthsOfParts(p, dc);
    hide Concat, ServerRow, TorPod, AggPod, CoreCell;
  }

  lemma ServerInDc(p: Params, e: Ends)
    requires Written(p, e) && e.0.Server?
    ensures var s := Datacenter(p)(e.0.dc); PlaceInDc(p, e) < |s| && s[PlaceInDc(p, e)] == e
  {
    var dc := e.0.dc;
    var a, b := Concat(TorsPerDc(p), ServerRow(p, dc)), Concat(p.k, TorPod(p, dc));
    var c, d := Concat(p.k, AggPod(p, dc)), Concat(CoresPerDc(p), CoreCell(p, dc));
    ServerPlace(p, dc, e.0.pod, e.0.tor, e.0.i);
    assert PlaceInDc(p, e) == Radix(e.0.pod, e.0.tor, Half(p)) * ServersPerTor(p) + e.0.i && e == (Server(dc, e.0.pod, e.0.tor, e.0.i), Tor(dc, e.0.pod, e.0.tor));
    PartsOfDc(p, dc);
    var n := Radix(e.0.pod, e.0.tor, Half(p)) * ServersPerTor(p) + e.0.i;
    hide *;
    FourParts(a, b, c, d, n);
  }

  lemma TorInDc(p: Params, e: Ends)
    requires Written(p, e) && e.0.Tor?
    ensures var s := Datacenter(p)(e.0.dc); PlaceInDc(p, e) < |s| && s[PlaceInDc(p, e)] == e
  {
    var dc := e.0.dc;
    var a, b := Concat(TorsPerDc(p), ServerRow(p, dc)), Concat(p.k, TorPod(p, dc));
    var c, d := Concat(p.k, AggPod(p, dc)), Concat(CoresPerDc(p), CoreCell(p, dc));
    PodPlace(p, dc, e.0.pod, e.0.tor, e.1.agg);
    assert PlaceInDc(p, e) == ServerLines(p) + PodIndex(Half(p), e.0.pod, e.0.tor, e.1.agg) && e == (Tor(dc, e.0.pod, e.0.tor), Agg(dc, e.0.pod, e.1.agg));
    PartsOfDc(p, dc);
    var n := PodIndex(Half(p), e.0.pod, e.0.tor, e.1.agg);
    hide *;
    FourParts(a, b, c, d, n);
  }

  lemma AggInDc(p: Params, e: Ends)
    requires Written(p, e) && e.0.Agg?
    ensures var s := Datacenter(p)(e.0.dc); PlaceInDc(p, e) < |s| && s[PlaceInDc(p, e)] == e
  {
    var dc := e.0.dc;
    var a, b := Concat(TorsPerDc(p), ServerRow(p, dc)), Concat(p.k, TorPod(p, dc));
    var c, d := Concat(p.k, AggPod(p, dc)), Concat(CoresPerDc(p), CoreCell(p, dc));
    PodPlace(p, dc, e.0.pod, e.0.agg, e.1.c);
    assert PlaceInDc(p, e) == ServerLines(p) + PodLines(p) + PodIndex(Half(p), e.0.pod, e.0.agg, e.1.c) && e == (Agg(dc, e.0.pod, e.0.agg), Core(dc, e.0.agg, e.1.c));
    PartsOfDc(p, dc);
    var n := PodIndex(Half(p), e.0.pod, e.0.agg, e.1.c);
    hide *;
    FourParts(a, b, c, d, n);
  }

  lemma CoreInDc(p: Params, e: Ends)
    requires Written(p, e) && e.0.Core?
    ensures var s := Datacenter(p)(e.0.dc); PlaceInDc(p, e) < |s| && s[PlaceInDc(p, e)] == e
  {
    var dc := e.0.dc;
    var a, b := Concat(TorsPerDc(p), ServerRow(p, dc)), Concat(p.k, TorPod(p, dc));
    var c, d := Concat(p.k, AggPod(p, dc)), Concat(CoresPerDc(p), CoreCell(p, dc));
    CorePlace(p, dc, e.0.group, e.0.c);
    assert PlaceInDc(p, e) == ServerLines(p) + PodLines(p) + PodLines(p) + Radix(e.0.group, e.0.c, Half(p)) && e == (Core(dc, e.0.group, e.0.c), Dci(dc));
    PartsOfDc(p, dc);
    var n := Radix(e.0.group, e.0.c, Half(p));
    hide *;
    FourParts(a, b, c, d, n);
  }

  lemma InDcPlace(p: Params, e: Ends)
    requires Written(p, e) && !e.0.Dci?
    ensures var s := Datacenter(p)(e.0.dc); |s| == DcLines(p) && PlaceInDc(p, e) < |s| && s[PlaceInDc(p, e)] == e
  {
    PerDatacenter(p, e.0.dc);
    assert |Datacenter(p)(e.0.dc)| == DcLines(p);
    hide *;
    match e.0
    case Server(_, _, _, _) => ServerInDc(p, e);
    case Tor(_, _, _) => TorInDc(p, e);
    case Agg(_, _, _) => AggInDc(p, e);
    case Core(_, _, _) => CoreInDc(p, e);
  }

  lemma LengthsOfParts(p: Params, dc: nat)
    ensures |Concat(TorsPerDc(p), ServerRow(p, dc))| == ServerLines(p) && |Concat(CoresPerDc(p), CoreCell(p, dc))| == CoresPerDc(p)
    ensures |Concat(p.k, TorPod(p, dc))| == PodLines(p) == |Concat(p.k, AggPod(p, dc))|
  {
    forall q: nat ensures |ServerRow(p, dc)(q)| == ServersPerTor(p) {
      ConcatLength(ServersPerTor(p), ServerCell(dc, Pod(p, q), Slot(p, q)), 1);
    }
    ConcatLength(TorsPerDc(p), ServerRow(p, dc), ServersPerTor(p));
    ConcatLength(CoresPerDc(p), CoreCell(p, dc), 1);
    RowLengths(p, dc);
    ConcatLength(p.k, TorPod(p, dc), Half(p) * Half(p));
    ConcatLength(p.k, AggPod(p, dc), Half(p) * Half(p));
  }

  function Place(p: Params, e: Ends): nat
    requires Written(p, e) && !e.0.Dci?
  {
    Radix(e.0.dc, PlaceInDc(p, e), DcLines(p))
  }

  lemma PlaceIs(p: Params, e: Ends)
    requires Written(p, e) && !e.0.Dci?
    ensures Place(p, e) == e.0.dc * DcLines(p) + PlaceInDc(p, e) && e.0.dc < p.dcs
  {
    hide PlaceInDc, DcLines;
  }

  /** Datacenter by datacenter, every line inside has its place in the file; ... */
  lemma LineOrder(p: Params, e: Ends)
    requires Written(p, e) && !e.0.Dci?
    ensures Place(p, e) < |Render(p, AllEnds(p))| && Render(p, AllEnds(p))[Place(p, e)] == LinkFor(p, e)
  {
    PlaceIs(p, e);
    DcLengths(p);
    AllEndsIs(p);
    InDcPlace(p, e);
    RenderAt(p, AllEnds(p));
    var dc := e.0.dc;
    hide *;
    ConcatAt(p.dcs, Datacenter(p), DcLines(p), dc, PlaceInDc(p, e));
  }

  /** ... the links between DCI switches come last, in order of their first ends and then of their second. */
  lemma MeshOrder(p: Params, i: nat, j: nat) returns (n: nat)
    requires i < j < p.dcs
    ensures 2 * n == i * (2 * p.dcs - i - 1) + 2 * (j - i - 1)
    ensures var m := p.dcs * DcLines(p) + n;
      m < |Render(p, AllEnds(p))| && Render(p, AllEnds(p))[m] == LinkFor(p, (Dci(i), Dci(j)))
  {
    DcLengths(p);
    AllEndsIs(p);
    RenderAt(p, AllEnds(p));
    hide *;
    ConcatLength(p.dcs, Datacenter(p), DcLines(p));
    n := MeshPlace(p, i, j, p.dcs);
  }

  lemma DcLengths(p: Params)
    ensures forall dc: nat :: |Datacenter(p)(dc)| == DcLines(p)
  {
    forall dc: nat ensures |Datacenter(p)(dc)| == DcLines(p) { PerDatacenter(p, dc); }
  }

  lemma {:induction false} MeshPlace(p: Params, i: nat, j: nat, m: nat) returns (n: nat)
    requires i < j < p.dcs && i < m <= p.dcs
    ensures 2 * n == i * (2 * p.dcs - i - 1) + 2 * (j - i - 1)
    ensures n < |Concat(m, MeshRow(p))| && Concat(m, MeshRow(p))[n] == (Dci(i), Dci(j))
    decreases m
  {
    if i < m - 1 {
      n := MeshPlace(p, i, j, m - 1);
    } else {
      MeshCount(p, i);
      MeshRowIs(p, i);
      var cell := MeshCell(i);
      assert forall x: nat :: |cell(x)| == 1;
      assert cell(j - i - 1)[0] == (Dci(i), Dci(j));
      ConcatStep(i, MeshRow(p));
      hide *;
      ConcatAt(p.dcs - i - 1, cell, 1, j - i - 1, 0);
      n := |Concat(i, MeshRow(p))| + (j - i - 1);
    }
  }

  /** The ids of the second line rise. */
  lemma SwitchesRise(p: Params, dc: nat, i: nat)
    requires dc < p.dcs && i <= SwitchesPerDc(p)
    ensures var n := dc * (SwitchesPerDc(p) + 1) + i;
      n < |Concat(p.dcs, SwitchRow(p))| && Concat(p.dcs, SwitchRow(p))[n] == dc * NodesPerDc(p) + ServersPerDc(p) + i
  {
    forall d: nat ensures |SwitchRow(p)(d)| == SwitchesPerDc(p) + 1 {
      ConcatLength(SwitchesPerDc(p) + 1, SwitchCell(p, d), 1);
    }
    SwitchRowIs(p, dc);
    var cell := SwitchCell(p, dc);
    assert forall x: nat :: |cell(x)| == 1;
    assert cell(i)[0] == dc * NodesPerDc(p) + ServersPerDc(p) + i;
    hide Concat, SwitchRow, SwitchesPerDc, ServersPerDc, NodesPerDc;
    ConcatAt(SwitchesPerDc(p) + 1, cell, 1, i, 0);
    ConcatAt(p.dcs, SwitchRow(p), SwitchesPerDc(p) + 1, dc, i);
  }

  lemma {:induction false} MeshCount(p: Params, i: nat)
    requires i <= p.dcs
    ensures 2 * |Concat(i, MeshRow(p))| == i * (2 * p.dcs - i - 1)
  {
    if i > 0 {
      MeshCount(p, i - 1);
      ConcatLength(p.dcs - i, MeshCell(i - 1), 1);
      MeshArith(i, p.dcs);
    }
  }

  lemma MeshArith(i: nat, d: nat)
    requires 0 < i <= d
    ensures (i - 1) * (2 * d - i) + 2 * (d - i) == i * (2 * d - i - 1)
  {
  }

  /** The header's link count, for an even k: D ((os + 2) k^3 / 4 + k^2 / 4) + D (D - 1) / 2. */
  lemma LinkCount(p: Params, c: nat)
    requires Accepted(p) && 4 * c == (p.os + 2) * (p.k * p.k * p.k) + p.k * p.k
    ensures 2 * |Render(p, AllEnds(p))| == 2 * (p.dcs * c) + p.dcs * (p.dcs - 1)
  {
    RenderAt(p, AllEnds(p));
    forall dc: nat ensures |Datacenter(p)(dc)| == c {
      PerDatacenter(p, dc);
      CountArith(p.k, Half(p), p.os, c);
    }
    hide Half, Render, Datacenter, MeshRow, Concat;
    ConcatLength(p.dcs, Datacenter(p), c);
    MeshCount(p, p.dcs);
    MeshTotal(p.dcs);
  }

  lemma MeshTotal(d: nat)
    ensures d * (2 * d - d - 1) == d * (d - 1)
  {
  }

  lemma CountArith(k: nat, h: nat, os: nat, c: nat)
    requires k == 2 * h && 4 * c == (os + 2) * (k * k * k) + k * k
    ensures (h * k) * (h * os) + k * (h * h) + k * (h * h) + h * h == c
  {
    var cube := h * h * h;
    assert k * k * k == 8 * cube && k * k == 4 * (h * h);
    assert (h * k) * (h * os) == 2 * cube * os;
    assert k * (h * h) == 2 * cube;
  }

  // ----- the switch list

  /** The second line of the file lists the ids of exactly the nodes that are not servers. */
  lemma SwitchList(p: Params, a: nat)
    ensures a in Concat(p.dcs, SwitchRow(p)) <==> a < NodeTotal(p) && !RoleOf(p, a).Server?
  {
    hide *;
    InConcat(p.dcs, SwitchRow(p), a);
    if a in Concat(p.dcs, SwitchRow(p)) {
      var dc: nat :| dc < p.dcs && a in SwitchRow(p)(dc);
      InSwitchRow(p, dc, a);
      SwitchIdRole(p, dc, a - DcOffset(p, dc) - ServersPerDc(p), a);
    }
    if a < NodeTotal(p) && !RoleOf(p, a).Server? {
      var dc := RoleSwitchId(p, a);
      InSwitchRow(p, dc, a);
    }
  }

  lemma InSwitchRow(p: Params, dc: nat, a: nat)
    ensures a in SwitchRow(p)(dc)
      <==> DcOffset(p, dc) + ServersPerDc(p) <= a <= DcOffset(p, dc) + ServersPerDc(p) + SwitchesPerDc(p)
  {
    SwitchRowIs(p, dc);
    hide DcOffset, ServersPerDc, SwitchesPerDc, SwitchRow, Concat;
    var first := DcOffset(p, dc) + ServersPerDc(p);
    InConcat(SwitchesPerDc(p) + 1, SwitchCell(p, dc), a);
    if first <= a <= first + SwitchesPerDc(p) {
      assert a in SwitchCell(p, dc)(a - first);
    }
  }

  lemma RoleSwitchId(p: Params, a: nat) returns (dc: nat)
    requires a < NodeTotal(p) && !RoleOf(p, a).Server?
    ensures dc < p.dcs && DcOffset(p, dc) + ServersPerDc(p) <= a <= DcOffset(p, dc) + ServersPerDc(p) + SwitchesPerDc(p)
  {
    hide ServersPerDc, SwitchesPerDc;
    var r := RoleOf(p, a);
    LocalBound(p, r);
    dc := r.dc;
  }

  lemma SwitchIdRole(p: Params, dc: nat, i: nat, a: nat)
    requires dc < p.dcs && i <= SwitchesPerDc(p) && a == DcOffset(p, dc) + ServersPerDc(p) + i
    ensures a < NodeTotal(p) && !RoleOf(p, a).Server?
  {
    hide ServersPerDc, SwitchesPerDc;
    RadixBound(dc, ServersPerDc(p) + i, p.dcs, NodesPerDc(p));
    var r := RoleOf(p, a);
    LocalBound(p, r);
    RadixUnique(dc, ServersPerDc(p) + i, r.dc, Local(p, r), NodesPerDc(p));
  }

  /** The header's node and switch totals are the numbers of nodes and of listed switches. */
  lemma HeaderTotals(p: Params)
    ensures var switchTotal := p.dcs * TorsPerDc(p) + p.dcs * AggsPerDc(p) + p.dcs * CoresPerDc(p) + p.dcs;
      |Concat(p.dcs, SwitchRow(p))| == switchTotal && p.dcs * ServersPerDc(p) + switchTotal == NodeTotal(p)
  {
    forall dc: nat ensures |SwitchRow(p)(dc)| == SwitchesPerDc(p) + 1 {
      ConcatLength(SwitchesPerDc(p) + 1, SwitchCell(p, dc), 1);
    }
    ConcatLength(p.dcs, SwitchRow(p), SwitchesPerDc(p) + 1);
    hide Concat, SwitchRow, TorsPerDc, AggsPerDc, CoresPerDc, ServersPerDc;
    HeaderArith(p.dcs, ServersPerDc(p), TorsPerDc(p), AggsPerDc(p), CoresPerDc(p));
  }

  lemma HeaderArith(d: nat, s: nat, t: nat, a: nat, c: nat)
    ensures d * t + d * a + d * c + d == d * (t + a + c + 1)
    ensures d * s + (d * t + d * a + d * c + d) == d * (s + (t + a + c) + 1)
  {
  }
}
