/** The generator of multi-datacenter fat-trees: how nodes are numbered and which links it writes. */
module Topology {
  datatype Params = Params(k: nat, os: nat, dcs: nat, intraRate: nat, intraLatency: nat, interRate: nat, interLatency: nat)

  /** The generator's own assertions. */
  predicate Accepted(p: Params) {
    p.k % 2 == 0 && p.dcs >= 2
  }

  function Half(p: Params): nat { p.k / 2 }
  function ServersPerTor(p: Params): nat { Half(p) * p.os }
  function TorsPerDc(p: Params): nat { Half(p) * p.k }
  function AggsPerDc(p: Params): nat { Half(p) * p.k }
  function CoresPerDc(p: Params): nat { Half(p) * Half(p) }
  function ServersPerDc(p: Params): nat { ServersPerTor(p) * Half(p) * p.k }
  function SwitchesPerDc(p: Params): nat { TorsPerDc(p) + AggsPerDc(p) + CoresPerDc(p) }
  function NodesPerDc(p: Params): (r: nat)
    ensures r > 0
  {
    ServersPerDc(p) + SwitchesPerDc(p) + 1
  }
  function NodeTotal(p: Params): nat { p.dcs * NodesPerDc(p) }
  function DcOffset(p: Params, dc: nat): nat { dc * (ServersPerDc(p) + SwitchesPerDc(p) + 1) }

  /** Where a node stands: its datacenter, layer and position. */
  datatype Role =
    | Server(dc: nat, pod: nat, tor: nat, i: nat)
    | Tor(dc: nat, pod: nat, tor: nat)
    | Agg(dc: nat, pod: nat, agg: nat)
    | Core(dc: nat, group: nat, c: nat)
    | Dci(dc: nat)

  predicate Valid(p: Params, r: Role) {
    r.dc < p.dcs && match r
    case Server(_, pod, t, i) => pod < p.k && t < Half(p) && i < ServersPerTor(p)
    case Tor(_, pod, t) => pod < p.k && t < Half(p)
    case Agg(_, pod, a) => pod < p.k && a < Half(p)
    case Core(_, g, c) => g < Half(p) && c < Half(p)
    case Dci(_) => true
  }

  function Radix(q: nat, r: nat, n: nat): nat {
    q * n + r
  }

  /** The position of a node within its datacenter. */
  function Local(p: Params, r: Role): nat {
    match r
    case Server(_, pod, t, i) => Radix(Radix(pod, t, Half(p)), i, ServersPerTor(p))
    case Tor(_, pod, t) => ServersPerDc(p) + Radix(pod, t, Half(p))
    case Agg(_, pod, a) => ServersPerDc(p) + TorsPerDc(p) + Radix(pod, a, Half(p))
    case Core(_, g, c) => ServersPerDc(p) + TorsPerDc(p) + AggsPerDc(p) + Radix(g, c, Half(p))
    case Dci(_) => ServersPerDc(p) + SwitchesPerDc(p)
  }

  function Id(p: Params, r: Role): nat {
    Radix(r.dc, Local(p, r), NodesPerDc(p))
  }

  // ----- mixed-radix arithmetic

  lemma MulMono(a: nat, b: nat, n: nat)
    requires a <= b
    ensures a * n <= b * n
  {
  }

  lemma RadixBound(q: nat, r: nat, m: nat, n: nat)
    requires q < m && r < n
    ensures Radix(q, r, n) < m * n
  {
    MulMono(q + 1, m, n);
  }

  lemma RadixUnique(q: nat, r: nat, q': nat, r': nat, n: nat)
    requires r < n && r' < n && Radix(q, r, n) == Radix(q', r', n)
    ensures q == q' && r == r'
  {
    if q < q' { RadixBound(q, r, q', n); }
    if q' < q { RadixBound(q', r', q, n); }
  }

  lemma DivRadix(q: nat, r: nat, n: nat)
    requires r < n
    ensures Radix(q, r, n) / n == q
  {
    var a := Radix(q, r, n);
    RadixUnique(a / n, a % n, q, r, n);
  }

  lemma RadixSplit(a: nat, m: nat, n: nat) returns (q: nat, r: nat)
    requires a < m * n
    ensures q < m && r < n && a == Radix(q, r, n)
  {
    q, r := a / n, a % n;
    if q >= m { MulMono(m, q, n); }
  }

  // ----- numbering is a bijection

  lemma LocalBound(p: Params, r: Role)
    requires Valid(p, r)
    ensures Local(p, r) < NodesPerDc(p)
    ensures r.Server? <==> Local(p, r) < ServersPerDc(p)
    ensures r.Tor? <==> ServersPerDc(p) <= Local(p, r) < ServersPerDc(p) + TorsPerDc(p)
    ensures r.Agg? <==> ServersPerDc(p) + TorsPerDc(p) <= Local(p, r) < ServersPerDc(p) + TorsPerDc(p) + AggsPerDc(p)
    ensures r.Dci? <==> Local(p, r) == ServersPerDc(p) + SwitchesPerDc(p)
  {
    Counts(p);
    hide Radix, Half, ServersPerTor, TorsPerDc, AggsPerDc, CoresPerDc, ServersPerDc;
    match r
    case Server(_, pod, t, i) =>
      RadixBound(pod, t, p.k, Half(p));
      RadixBound(Radix(pod, t, Half(p)), i, p.k * Half(p), ServersPerTor(p));
    case Tor(_, pod, t) => RadixBound(pod, t, p.k, Half(p));
    case Agg(_, pod, a) => RadixBound(pod, a, p.k, Half(p));
    case Core(_, g, c) => RadixBound(g, c, Half(p), Half(p));
    case Dci(_) =>
  }

  lemma Counts(p: Params)
    ensures ServersPerDc(p) == p.k * Half(p) * ServersPerTor(p)
    ensures TorsPerDc(p) == p.k * Half(p) && AggsPerDc(p) == p.k * Half(p) && CoresPerDc(p) == Half(p) * Half(p)
  {
  }

  /** Different nodes have different ids, ... */
  lemma IdInjective(p: Params, r: Role, s: Role)
    requires Valid(p, r) && Valid(p, s) && Id(p, r) == Id(p, s)
    ensures r == s
  {
    LocalBound(p, r);
    LocalBound(p, s);
    RadixUnique(r.dc, Local(p, r), s.dc, Local(p, s), NodesPerDc(p));
    match r
    case Server(_, pod, t, i) =>
      RadixUnique(Radix(pod, t, Half(p)), i, Radix(s.pod, s.tor, Half(p)), s.i, ServersPerTor(p));
      RadixUnique(pod, t, s.pod, s.tor, Half(p));
    case Tor(_, pod, t) => RadixUnique(pod, t, s.pod, s.tor, Half(p));
    case Agg(_, pod, a) => RadixUnique(pod, a, s.pod, s.agg, Half(p));
    case Core(_, g, c) => RadixUnique(g, c, s.group, s.c, Half(p));
    case Dci(_) =>
  }

  /** ... below the total, ... */
  lemma IdInRange(p: Params, r: Role)
    requires Valid(p, r)
    ensures Id(p, r) < NodeTotal(p)
  {
    LocalBound(p, r);
    RadixBound(r.dc, Local(p, r), p.dcs, NodesPerDc(p));
  }

  /** ... and every number below the total is some node's. */
  lemma IdSurjective(p: Params, a: nat) returns (r: Role)
    requires a < NodeTotal(p)
    ensures Valid(p, r) && Id(p, r) == a
  {
    var dc, x := RadixSplit(a, p.dcs, NodesPerDc(p));
    var s, t := ServersPerDc(p), TorsPerDc(p);
    Counts(p);
    if x < s {
      var y, i := RadixSplit(x, p.k * Half(p), ServersPerTor(p));
      var pod, j := RadixSplit(y, p.k, Half(p));
      r := Server(dc, pod, j, i);
    } else if x < s + t {
      var pod, j := RadixSplit(x - s, p.k, Half(p));
      r := Tor(dc, pod, j);
    } else if x < s + t + AggsPerDc(p) {
      var pod, j := RadixSplit(x - s - t, p.k, Half(p));
      r := Agg(dc, pod, j);
    } else if x < s + SwitchesPerDc(p) {
      var g, c := RadixSplit(x - s - t - AggsPerDc(p), Half(p), Half(p));
      r := Core(dc, g, c);
    } else {
      r := Dci(dc);
    }
  }

  /** The node with a given id. */
  ghost function RoleOf(p: Params, a: nat): (r: Role)
    requires a < NodeTotal(p)
    ensures Valid(p, r) && Id(p, r) == a
  {
    assert exists r :: Valid(p, r) && Id(p, r) == a by { var r := IdSurjective(p, a); }
    var r :| Valid(p, r) && Id(p, r) == a;
    r
  }

  // ----- the ids other programs compute

  /** `get_server_id` of the traffic generators. */
  function GetServerId(p: Params, serverIndex: nat, dc: nat): nat {
    DcOffset(p, dc) + serverIndex
  }

  function DcOfNode(p: Params, a: nat): nat {
    hide *;
    a / NodesPerDc(p)
  }

  /** `is_intra_dc_flow` of the flow-completion-time analysis. */
  predicate IsIntraDcFlow(p: Params, src: nat, dst: nat) {
    DcOfNode(p, src) == DcOfNode(p, dst)
  }

  /** The runner's id of a datacenter's DCI switch. */
  function RunnerDciId(p: Params, dc: nat): nat {
    dc * (ServersPerDc(p) + SwitchesPerDc(p) + 1) + ServersPerDc(p) + SwitchesPerDc(p)
  }

  lemma DcOfId(p: Params, r: Role)
    requires Valid(p, r)
    ensures DcOfNode(p, Id(p, r)) == r.dc
  {
    LocalBound(p, r);
    DivRadix(r.dc, Local(p, r), NodesPerDc(p));
  }

  /** The runner's DCI ids are the topology's. */
  lemma DciIdsAgree(p: Params, dc: nat)
    ensures RunnerDciId(p, dc) == Id(p, Dci(dc))
  {
  }

  /** The traffic generators and the analysis read ids the way the topology writes them. */
  lemma IdsAgree(p: Params, dc: nat, i: nat, dc': nat, i': nat)
    requires dc < p.dcs && dc' < p.dcs && i < ServersPerDc(p) && i' < ServersPerDc(p)
    ensures exists r :: Valid(p, r) && r.Server? && r.dc == dc && Id(p, r) == GetServerId(p, i, dc)
    ensures IsIntraDcFlow(p, GetServerId(p, i, dc), GetServerId(p, i', dc')) <==> dc == dc'
    ensures GetServerId(p, i, dc) == GetServerId(p, i', dc') <==> dc == dc' && i == i'
  {
    var _ := ServerIdRole(p, dc, i);
    var _ := ServerIdRole(p, dc', i');
    hide Radix, ServersPerDc, SwitchesPerDc, GetServerId, DcOfNode, NodesPerDc, Local, Id;
    if GetServerId(p, i, dc) == GetServerId(p, i', dc') { RadixUnique(dc, i, dc', i', NodesPerDc(p)); }
  }

  lemma ServerIdRole(p: Params, dc: nat, i: nat) returns (r: Role)
    requires dc < p.dcs && i < ServersPerDc(p)
    ensures Valid(p, r) && r.Server? && r.dc == dc && Id(p, r) == GetServerId(p, i, dc)
    ensures GetServerId(p, i, dc) == Radix(dc, i, NodesPerDc(p)) && DcOfNode(p, GetServerId(p, i, dc)) == dc
    ensures i < NodesPerDc(p)
  {
    hide ServersPerDc, SwitchesPerDc;
    RadixBound(dc, i, p.dcs, NodesPerDc(p));
    r := RoleOf(p, GetServerId(p, i, dc));
    LocalBound(p, r);
    RadixUnique(dc, i, r.dc, Local(p, r), NodesPerDc(p));
    DcOfId(p, r);
  }
}
