/** The loops that write the topology file. */
module TopologyGen {
  import opened Topology
  import opened Loops

  datatype Link = Link(src: nat, dst: nat, rate: nat, latency: nat)

  /** Header line, switch list and link lines. */
  datatype TopologyFile = TopologyFile(nodeTotal: nat, switchTotal: nat, linkTotal: nat, switches: seq<nat>, links: seq<Link>)

  type Ends = (Role, Role)

  /** The links of the fabric in the direction they are written: server to ToR, ToR to every aggregation
      switch of its pod, the a-th aggregation switch to the a-th group of cores, core to DCI switch,
      and every DCI switch to the ones of later datacenters. */
  predicate Written(p: Params, e: Ends) {
    && Valid(p, e.0) && Valid(p, e.1)
    && match e.0
       case Server(dc, pod, t, _) => e.1 == Tor(dc, pod, t)
       case Tor(dc, pod, _) => e.1.Agg? && e.1.dc == dc && e.1.pod == pod
       case Agg(dc, _, a) => e.1.Core? && e.1.dc == dc && e.1.group == a
       case Core(dc, _, _) => e.1 == Dci(dc)
       case Dci(dc) => e.1.Dci? && dc < e.1.dc
  }

  function LinkFor(p: Params, e: Ends): Link {
    if e.0.Dci? then Link(Id(p, e.0), Id(p, e.1), p.interRate, p.interLatency)
    else Link(Id(p, e.0), Id(p, e.1), p.intraRate, p.intraLatency)
  }

  // ----- what each nest of loops writes

  function Pod(p: Params, q: nat): nat { if Half(p) == 0 then 0 else q / Half(p) }
  function Slot(p: Params, q: nat): nat { if Half(p) == 0 then 0 else q % Half(p) }

  function ServerCell(dc: nat, pod: nat, t: nat): nat -> seq<Ends> { (i: nat) => [(Server(dc, pod, t, i), Tor(dc, pod, t))] }
  function ServerRow(p: Params, dc: nat): nat -> seq<Ends> {
    (q: nat) => Concat(ServersPerTor(p), ServerCell(dc, Pod(p, q), Slot(p, q)))
  }
  function TorCell(dc: nat, pod: nat, t: nat): nat -> seq<Ends> { (a: nat) => [(Tor(dc, pod, t), Agg(dc, pod, a))] }
  function TorRow(p: Params, dc: nat, pod: nat): nat -> seq<Ends> { (t: nat) => Concat(Half(p), TorCell(dc, pod, t)) }
  function TorPod(p: Params, dc: nat): nat -> seq<Ends> { (pod: nat) => Concat(Half(p), TorRow(p, dc, pod)) }
  function AggCell(dc: nat, pod: nat, a: nat): nat -> seq<Ends> { (c: nat) => [(Agg(dc, pod, a), Core(dc, a, c))] }
  function AggRow(p: Params, dc: nat, pod: nat): nat -> seq<Ends> { (a: nat) => Concat(Half(p), AggCell(dc, pod, a)) }
  function AggPod(p: Params, dc: nat): nat -> seq<Ends> { (pod: nat) => Concat(Half(p), AggRow(p, dc, pod)) }
  function CoreCell(p: Params, dc: nat): nat -> seq<Ends> { (q: nat) => [(Core(dc, Pod(p, q), Slot(p, q)), Dci(dc))] }
  function Datacenter(p: Params): nat -> seq<Ends> {
    (dc: nat) => Concat(TorsPerDc(p), ServerRow(p, dc)) + Concat(p.k, TorPod(p, dc))
                 + Concat(p.k, AggPod(p, dc)) + Concat(CoresPerDc(p), CoreCell(p, dc))
  }
  function MeshCell(i: nat): nat -> seq<Ends> { (x: nat) => [(Dci(i), Dci(i + 1 + x))] }
  function MeshRow(p: Params): nat -> seq<Ends> { (i: nat) => Concat(if i < p.dcs then p.dcs - i - 1 else 0, MeshCell(i)) }

  /** Everything written, in order. */
  function AllEnds(p: Params): seq<Ends> {
    Concat(p.dcs, Datacenter(p)) + Concat(p.dcs, MeshRow(p))
  }

  function Render(p: Params, es: seq<Ends>): seq<Link> {
    if es == [] then [] else Render(p, es[..|es| - 1]) + [LinkFor(p, es[|es| - 1])]
  }

  lemma {:induction false} RenderAt(p: Params, es: seq<Ends>)
    ensures |Render(p, es)| == |es| && forall i :: 0 <= i < |es| ==> Render(p, es)[i] == LinkFor(p, es[i])
    decreases |es|
  {
    if es != [] { RenderAt(p, es[..|es| - 1]); }
  }

  lemma RenderSnoc(p: Params, es: seq<Ends>, e: Ends)
    ensures Render(p, es + [e]) == Render(p, es) + [LinkFor(p, e)]
  {
    assert (es + [e])[..|es + [e]| - 1] == es;
  }

  // ----- the loops

  /** Appending a line to the file and its ends to the list of what was written. */
  lemma Wrote(p: Params, es: seq<Ends>, f: seq<Link>, e: Ends, l: Link, n: nat, cell: nat -> seq<Ends>, row: seq<Ends>)
    requires f == Render(p, es) && es == row + Concat(n, cell) && cell(n) == [e] && LinkFor(p, e) == l
    ensures f + [l] == Render(p, row + Concat(n + 1, cell))
  {
    RenderSnoc(p, es, e);
    assert es + [e] == row + Concat(n + 1, cell);
  }

  lemma NothingWritten<T>(row: seq<T>, f: nat -> seq<T>)
    ensures row + Concat(0, f) == row
  {
  }

  lemma RoundWritten<T>(base: seq<T>, n: nat, f: nat -> seq<T>, row: seq<T>)
    requires f(n) == row
    ensures base + Concat(n, f) + row == base + Concat(n + 1, f)
  {
  }

  method WriteServerLinks(p: Params, dc: nat, ghost es: seq<Ends>, f: seq<Link>) returns (r: seq<Link>)
    requires f == Render(p, es)
    ensures r == Render(p, es + Concat(TorsPerDc(p), ServerRow(p, dc)))
  {
    hide *;
    r := f;
    ghost var rows := ServerRow(p, dc);
    NothingWritten(es, rows);
    for q := 0 to TorsPerDc(p)
      invariant r == Render(p, es + Concat(q, rows))
    {
      ghost var row := es + Concat(q, rows);
      ghost var cell := ServerCell(dc, Pod(p, q), Slot(p, q));
      NothingWritten(row, cell);
      for i := 0 to ServersPerTor(p)
        invariant r == Render(p, row + Concat(i, cell))
      {
        var idServer := DcOffset(p, dc) + q * ServersPerTor(p) + i;
        var idTor := DcOffset(p, dc) + ServersPerDc(p) + q;
        ServerEnds(p, dc, q, i);
        Wrote(p, row + Concat(i, cell), r, (Server(dc, Pod(p, q), Slot(p, q), i), Tor(dc, Pod(p, q), Slot(p, q))),
              Link(idServer, idTor, p.intraRate, p.intraLatency), i, cell, row);
        r := r + [Link(idServer, idTor, p.intraRate, p.intraLatency)];
      }
      ServerRowIs(p, dc, q);
      RoundWritten(es, q, rows, Concat(ServersPerTor(p), cell));
    }
  }

  lemma ServerRowIs(p: Params, dc: nat, q: nat)
    ensures ServerRow(p, dc)(q) == Concat(ServersPerTor(p), ServerCell(dc, Pod(p, q), Slot(p, q)))
  {
  }

  lemma ServerEnds(p: Params, dc: nat, q: nat, i: nat)
    requires q < TorsPerDc(p)
    ensures ServerCell(dc, Pod(p, q), Slot(p, q))(i) == [(Server(dc, Pod(p, q), Slot(p, q), i), Tor(dc, Pod(p, q), Slot(p, q)))]
    ensures LinkFor(p, (Server(dc, Pod(p, q), Slot(p, q), i), Tor(dc, Pod(p, q), Slot(p, q))))
         == Link(DcOffset(p, dc) + q * ServersPerTor(p) + i, DcOffset(p, dc) + ServersPerDc(p) + q, p.intraRate, p.intraLatency)
  {
    PodSlot(p, q, p.k);
  }

  lemma PodSlot(p: Params, q: nat, m: nat)
    requires q < Half(p) * m
    ensures Radix(Pod(p, q), Slot(p, q), Half(p)) == q && Pod(p, q) < m && Slot(p, q) < Half(p)
  {
    NotEmpty(Half(p), m);
    hide Half;
    Swap(Half(p), m);
    var a, b := RadixSplit(q, m, Half(p));
    DivRadix(a, b, Half(p));
    RadixSplits(q, Half(p));
  }

  lemma NotEmpty(h: nat, m: nat)
    ensures 0 < h * m ==> h > 0
  {
  }

  lemma Swap(a: nat, b: nat)
    ensures a * b == b * a
  {
  }

  lemma RadixSplits(q: nat, n: nat)
    requires n > 0
    ensures Radix(q / n, q % n, n) == q
  {
  }

  method WriteTorLinks(p: Params, dc: nat, ghost es: seq<Ends>, f: seq<Link>) returns (r: seq<Link>)
    requires f == Render(p, es)
    ensures r == Render(p, es + Concat(p.k, TorPod(p, dc)))
  {
    hide *;
    r := f;
    ghost var pods := TorPod(p, dc);
    NothingWritten(es, pods);
    for i := 0 to p.k
      invariant r == Render(p, es + Concat(i, pods))
    {
      ghost var pod, rows := es + Concat(i, pods), TorRow(p, dc, i);
      NothingWritten(pod, rows);
      for j := 0 to Half(p)
        invariant r == Render(p, pod + Concat(j, rows))
      {
        ghost var row, cell := pod + Concat(j, rows), TorCell(dc, i, j);
        NothingWritten(row, cell);
        for l := 0 to Half(p)
          invariant r == Render(p, row + Concat(l, cell))
        {
          var idTor := DcOffset(p, dc) + ServersPerDc(p) + i * Half(p) + j;
          var idAgg := DcOffset(p, dc) + ServersPerDc(p) + TorsPerDc(p) + i * Half(p) + l;
          TorEnds(p, dc, i, j, l);
          Wrote(p, row + Concat(l, cell), r, (Tor(dc, i, j), Agg(dc, i, l)),
                Link(idTor, idAgg, p.intraRate, p.intraLatency), l, cell, row);
          r := r + [Link(idTor, idAgg, p.intraRate, p.intraLatency)];
        }
        TorRowIs(p, dc, i, j);
        RoundWritten(pod, j, rows, Concat(Half(p), cell));
      }
      TorPodIs(p, dc, i);
      RoundWritten(es, i, pods, Concat(Half(p), rows));
    }
  }

  lemma TorPodIs(p: Params, dc: nat, pod: nat)
    ensures TorPod(p, dc)(pod) == Concat(Half(p), TorRow(p, dc, pod))
    ensures AggPod(p, dc)(pod) == Concat(Half(p), AggRow(p, dc, pod))
  {
  }

  lemma TorRowIs(p: Params, dc: nat, pod: nat, t: nat)
    ensures TorRow(p, dc, pod)(t) == Concat(Half(p), TorCell(dc, pod, t))
    ensures AggRow(p, dc, pod)(t) == Concat(Half(p), AggCell(dc, pod, t))
  {
  }

  lemma TorEnds(p: Params, dc: nat, pod: nat, t: nat, a: nat)
    ensures TorCell(dc, pod, t)(a) == [(Tor(dc, pod, t), Agg(dc, pod, a))]
    ensures LinkFor(p, (Tor(dc, pod, t), Agg(dc, pod, a)))
         == Link(DcOffset(p, dc) + ServersPerDc(p) + pod * Half(p) + t,
                 DcOffset(p, dc) + ServersPerDc(p) + TorsPerDc(p) + pod * Half(p) + a, p.intraRate, p.intraLatency)
  {
  }

  method WriteAggLinks(p: Params, dc: nat, ghost es: seq<Ends>, f: seq<Link>) returns (r: seq<Link>)
    requires f == Render(p, es)
    ensures r == Render(p, es + Concat(p.k, AggPod(p, dc)))
  {
    hide *;
    r := f;
    ghost var pods := AggPod(p, dc);
    NothingWritten(es, pods);
    for i := 0 to p.k
      invariant r == Render(p, es + Concat(i, pods))
    {
      ghost var pod, rows := es + Concat(i, pods), AggRow(p, dc, i);
      NothingWritten(pod, rows);
      for j := 0 to Half(p)
        invariant r == Render(p, pod + Concat(j, rows))
      {
        ghost var row, cell := pod + Concat(j, rows), AggCell(dc, i, j);
        NothingWritten(row, cell);
        for l := 0 to Half(p)
          invariant r == Render(p, row + Concat(l, cell))
        {
          var idAgg := DcOffset(p, dc) + ServersPerDc(p) + TorsPerDc(p) + i * Half(p) + j;
          var idCore := DcOffset(p, dc) + ServersPerDc(p) + TorsPerDc(p) + AggsPerDc(p) + j * Half(p) + l;
          AggEnds(p, dc, i, j, l);
          Wrote(p, row + Concat(l, cell), r, (Agg(dc, i, j), Core(dc, j, l)),
                Link(idAgg, idCore, p.intraRate, p.intraLatency), l, cell, row);
          r := r + [Link(idAgg, idCore, p.intraRate, p.intraLatency)];
        }
        TorRowIs(p, dc, i, j);
        RoundWritten(pod, j, rows, Concat(Half(p), cell));
      }
      TorPodIs(p, dc, i);
      RoundWritten(es, i, pods, Concat(Half(p), rows));
    }
  }

  lemma AggEnds(p: Params, dc: nat, pod: nat, a: nat, c: nat)
    ensures AggCell(dc, pod, a)(c) == [(Agg(dc, pod, a), Core(dc, a, c))]
    ensures LinkFor(p, (Agg(dc, pod, a), Core(dc, a, c)))
         == Link(DcOffset(p, dc) + ServersPerDc(p) + TorsPerDc(p) + pod * Half(p) + a,
                 DcOffset(p, dc) + ServersPerDc(p) + TorsPerDc(p) + AggsPerDc(p) + a * Half(p) + c, p.intraRate, p.intraLatency)
  {
  }

  method WriteCoreLinks(p: Params, dc: nat, ghost es: seq<Ends>, f: seq<Link>) returns (r: seq<Link>)
    requires f == Render(p, es)
    ensures r == Render(p, es + Concat(CoresPerDc(p), CoreCell(p, dc)))
  {
    hide *;
    r := f;
    var idDci := DcOffset(p, dc) + ServersPerDc(p) + TorsPerDc(p) + AggsPerDc(p) + CoresPerDc(p);
    ghost var cell := CoreCell(p, dc);
    NothingWritten(es, cell);
    for i := 0 to CoresPerDc(p)
      invariant r == Render(p, es + Concat(i, cell))
    {
      var idCore := DcOffset(p, dc) + ServersPerDc(p) + TorsPerDc(p) + AggsPerDc(p) + i;
      CoreEnds(p, dc, i);
      Wrote(p, es + Concat(i, cell), r, (Core(dc, Pod(p, i), Slot(p, i)), Dci(dc)),
            Link(idCore, idDci, p.intraRate, p.intraLatency), i, cell, es);
      r := r + [Link(idCore, idDci, p.intraRate, p.intraLatency)];
    }
  }

  lemma CoreEnds(p: Params, dc: nat, q: nat)
    requires q < CoresPerDc(p)
    ensures CoreCell(p, dc)(q) == [(Core(dc, Pod(p, q), Slot(p, q)), Dci(dc))]
    ensures LinkFor(p, (Core(dc, Pod(p, q), Slot(p, q)), Dci(dc)))
         == Link(DcOffset(p, dc) + ServersPerDc(p) + TorsPerDc(p) + AggsPerDc(p) + q,
                 DcOffset(p, dc) + ServersPerDc(p) + TorsPerDc(p) + AggsPerDc(p) + CoresPerDc(p), p.intraRate, p.intraLatency)
  {
    PodSlot(p, q, Half(p));
  }

  method WriteMeshLinks(p: Params, ghost es: seq<Ends>, f: seq<Link>) returns (r: seq<Link>)
    requires f == Render(p, es)
    ensures r == Render(p, es + Concat(p.dcs, MeshRow(p)))
  {
    hide *;
    r := f;
    ghost var rows := MeshRow(p);
    NothingWritten(es, rows);
    for i := 0 to p.dcs
      invariant r == Render(p, es + Concat(i, rows))
    {
      ghost var row, cell := es + Concat(i, rows), MeshCell(i);
      NothingWritten(row, cell);
      for j := i + 1 to p.dcs
        invariant r == Render(p, row + Concat(j - i - 1, cell))
      {
        var idDci1 := DcOffset(p, i) + ServersPerDc(p) + SwitchesPerDc(p);
        var idDci2 := DcOffset(p, j) + ServersPerDc(p) + SwitchesPerDc(p);
        MeshEnds(p, i, j);
        Wrote(p, row + Concat(j - i - 1, cell), r, (Dci(i), Dci(j)),
              Link(idDci1, idDci2, p.interRate, p.interLatency), j - i - 1, cell, row);
        r := r + [Link(idDci1, idDci2, p.interRate, p.interLatency)];
      }
      MeshRowIs(p, i);
      RoundWritten(es, i, rows, Concat(p.dcs - i - 1, cell));
    }
  }

  lemma MeshRowIs(p: Params, i: nat)
    requires i < p.dcs
    ensures MeshRow(p)(i) == Concat(p.dcs - i - 1, MeshCell(i))
  {
  }

  lemma MeshEnds(p: Params, i: nat, j: nat)
    requires i < j
    ensures MeshCell(i)(j - i - 1) == [(Dci(i), Dci(j))]
    ensures LinkFor(p, (Dci(i), Dci(j)))
         == Link(DcOffset(p, i) + ServersPerDc(p) + SwitchesPerDc(p), DcOffset(p, j) + ServersPerDc(p) + SwitchesPerDc(p),
                 p.interRate, p.interLatency)
  {
  }

  /** The switches of one datacenter, in the order of their ids. */
  function SwitchCell(p: Params, dc: nat): nat -> seq<nat> { (i: nat) => [DcOffset(p, dc) + ServersPerDc(p) + i] }
  function SwitchRow(p: Params): nat -> seq<nat> { (dc: nat) => Concat(SwitchesPerDc(p) + 1, SwitchCell(p, dc)) }

  /** The whole program: links first, then the switch list and the header are put in front. */
  method Generate(p: Params) returns (f: TopologyFile)
    requires Accepted(p)
    ensures f.links == Render(p, AllEnds(p)) && f.linkTotal == |f.links|
    ensures f.switches == Concat(p.dcs, SwitchRow(p))
    ensures f.nodeTotal == p.dcs * ServersPerDc(p) + f.switchTotal
    ensures f.switchTotal == p.dcs * TorsPerDc(p) + p.dcs * AggsPerDc(p) + p.dcs * CoresPerDc(p) + p.dcs
  {
    hide *;
    var links: seq<Link> := [];
    ghost var dcs := Datacenter(p);
    NothingYet(p, dcs);
    for dc := 0 to p.dcs
      invariant links == Render(p, Concat(dc, dcs))
    {
      ghost var e0 := Concat(dc, dcs);
      links := WriteServerLinks(p, dc, e0, links);
      ghost var e1 := e0 + Concat(TorsPerDc(p), ServerRow(p, dc));
      links := WriteTorLinks(p, dc, e1, links);
      ghost var e2 := e1 + Concat(p.k, TorPod(p, dc));
      links := WriteAggLinks(p, dc, e2, links);
      ghost var e3 := e2 + Concat(p.k, AggPod(p, dc));
      links := WriteCoreLinks(p, dc, e3, links);
      DatacenterWritten(p, dc, e0, e1, e2, e3);
    }
    links := WriteMeshLinks(p, Concat(p.dcs, dcs), links);
    AllEndsIs(p);
    var switches: seq<nat> := [];
    ghost var rows := SwitchRow(p);
    ConcatStep(0, rows);
    for dc := 0 to p.dcs
      invariant switches == Concat(dc, rows)
    {
      ghost var row, cell := switches, SwitchCell(p, dc);
      NothingWritten(row, cell);
      for i := 0 to SwitchesPerDc(p) + 1
        invariant switches == row + Concat(i, cell)
      {
        var switchId: nat := DcOffset(p, dc) + ServersPerDc(p) + i;
        SwitchCellIs(p, dc, i);
        RoundWritten<nat>(row, i, cell, [switchId]);
        switches := switches + [switchId];
      }
      SwitchRowIs(p, dc);
      ConcatStep(dc, rows);
    }
    var switchTotal := p.dcs * TorsPerDc(p) + p.dcs * AggsPerDc(p) + p.dcs * CoresPerDc(p) + p.dcs;
    f := TopologyFile(p.dcs * ServersPerDc(p) + switchTotal, switchTotal, |links|, switches, links);
  }

  lemma NothingYet(p: Params, f: nat -> seq<Ends>)
    ensures Render(p, Concat(0, f)) == []
  {
  }

  lemma DatacenterWritten(p: Params, dc: nat, e0: seq<Ends>, e1: seq<Ends>, e2: seq<Ends>, e3: seq<Ends>)
    requires e0 == Concat(dc, Datacenter(p)) && e1 == e0 + Concat(TorsPerDc(p), ServerRow(p, dc))
    requires e2 == e1 + Concat(p.k, TorPod(p, dc)) && e3 == e2 + Concat(p.k, AggPod(p, dc))
    ensures e3 + Concat(CoresPerDc(p), CoreCell(p, dc)) == Concat(dc + 1, Datacenter(p))
  {
    var a, b := Concat(TorsPerDc(p), ServerRow(p, dc)), Concat(p.k, TorPod(p, dc));
    var c, d := Concat(p.k, AggPod(p, dc)), Concat(CoresPerDc(p), CoreCell(p, dc));
    assert Datacenter(p)(dc) == a + b + c + d;
    ConcatStep(dc, Datacenter(p));
    hide *;
    Assoc(e0, a, b);
    Assoc(e0, a + b, c);
    Assoc(e0, a + b + c, d);
  }

  lemma AllEndsIs(p: Params)
    ensures AllEnds(p) == Concat(p.dcs, Datacenter(p)) + Concat(p.dcs, MeshRow(p))
  {
  }

  lemma SwitchCellIs(p: Params, dc: nat, i: nat)
    ensures SwitchCell(p, dc)(i) == [DcOffset(p, dc) + ServersPerDc(p) + i]
  {
  }

  lemma SwitchRowIs(p: Params, dc: nat)
    ensures SwitchRow(p)(dc) == Concat(SwitchesPerDc(p) + 1, SwitchCell(p, dc))
  {
  }
}
