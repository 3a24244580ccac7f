/** Generated flow files on generated fabrics: which of them the simulator runs to the end. */
module Workload {
  import opened Graph
  import opened Routing
  import opened Rtt
  import opened Topology
  import opened Fabric
  import opened Traffic
  import opened FlowFile
  import opened Schedule

  /** The simulator has loaded the fabric and computed the round-trip times of its hosts. */
  ghost predicate OnFabric(p: Params, s: Setting, m: Metrics) {
    s.n == NodeTotal(p) && SwitchIds(p, s.sw) && Filled(s.n, s.sw, m, s.n, 0, s.pairRtt, s.pairBdp)
  }

  lemma ServerIsHost(p: Params, s: Setting, i: nat, dc: nat)
    requires s.n == NodeTotal(p) && SwitchIds(p, s.sw) && dc < p.dcs && i < ServersPerDc(p)
    ensures IsHostNode(s, GetServerId(p, i, dc))
  {
    var r := ServerIdRole(p, dc, i);
    RoleOfId(p, r);
    hide NodeTotal, GetServerId, Id;
  }

  lemma PairKnown(s: Setting, m: Metrics, a: Node, b: Node)
    requires Filled(s.n, s.sw, m, s.n, 0, s.pairRtt, s.pairBdp) && IsHostNode(s, a) && IsHostNode(s, b) && a != b
    ensures Entry(s.pairRtt, a, b).Some?
  {
    hide RttOf, BdpOf, Entry;
    assert CellIs(s.n, s.sw, m, s.n, 0, s.pairRtt, s.pairBdp, a, b);
  }

  lemma FlowKnown(p: Params, s: Setting, m: Metrics, phase: Phase, limit: int, f: Flow)
    requires OnFabric(p, s, m) && FlowOk(p, phase, limit, f)
    ensures IsHostNode(s, f.src) && IsHostNode(s, f.dst) && Entry(s.pairRtt, f.src, f.dst).Some? && f.t >= 0
  {
    hide Filled, SwitchIds, NodeTotal, GetServerId, IsHostNode, Entry;
    var i: nat, dc: nat, j: nat, dc': nat :| Endpoints(p, phase, f, i, dc, j, dc');
    ServerIsHost(p, s, i, dc);
    ServerIsHost(p, s, j, dc');
    PhaseOfFlow(p, phase, limit, f);
    PairKnown(s, m, f.src, f.dst);
  }

  /** Every flow of an intra-datacenter file is acceptable: such a file always runs to the end. */
  lemma IntraFileRuns(p: Params, s: Setting, m: Metrics, limit: int, flows: seq<Flow>, i: nat)
    requires OnFabric(p, s, m) && AllOk(p, Intra, limit, flows) && TimesRise(flows) && i < |flows|
    ensures Acceptable(s, flows, i)
  {
    FlowKnown(p, s, m, Intra, limit, flows[i]);
    hide OnFabric, FlowOk, Entry, IsHostNode;
  }

  /** The second phase starts over at the base time: a mixed file runs to the end exactly if the last flow
      inside a datacenter is no later than the first between datacenters; otherwise it stops right there. */
  lemma MixedFileRuns(p: Params, s: Setting, m: Metrics, limit: int, intra: seq<Flow>, inter: seq<Flow>, i: nat)
    requires OnFabric(p, s, m) && AllOk(p, Intra, limit, intra) && AllOk(p, Inter, limit, inter)
    requires TimesRise(intra) && TimesRise(inter) && i < |intra + inter|
    ensures Acceptable(s, intra + inter, i) <==> (i == |intra| > 0 ==> intra[|intra| - 1].t <= inter[0].t)
  {
    var all := intra + inter;
    if i < |intra| {
      FlowKnown(p, s, m, Intra, limit, intra[i]);
    } else {
      FlowKnown(p, s, m, Inter, limit, inter[i - |intra|]);
    }
    hide OnFabric, FlowOk, Entry, IsHostNode;
  }

  lemma WrittenReads(text: string, estimate: nat, flows: seq<Flow>)
    requires Written(text, estimate, flows)
    ensures estimate < 10_000_000_000_000_000 && |flows| < TWO32 && AllFit(flows) ==> ReadFile(text) == Got(flows, "\n")
  {
    hide ReadFile, AllFit, Printable, Header, Body;
  }

  /** Generating an intra-datacenter file and simulating it. */
  method IntraOnlyExperiment(p: Params, estimate: nat, first: seq<nat>, draws: seq<Draw>, limit: int, s: Setting, ghost m: Metrics)
    returns (finished: bool, flows: seq<Flow>, sim: Scheduler)
    requires |first| == p.dcs * ServersPerDc(p) && forall i :: 0 <= i < |draws| ==> DrawOk(p, Intra, draws[i])
    requires OnFabric(p, s, m)
    ensures finished && estimate < 10_000_000_000_000_000 && |flows| < TWO32 && AllFit(flows) ==>
              sim.file == flows && !sim.aborted && |sim.installed| == |flows| && AsPlanned(s, flows, sim.installed)
  {
    hide *;
    var text; ghost var hosts; ghost var tr;
    text, flows, finished, hosts, tr := GenerateIntraOnly(p, estimate, first, draws, limit);
    var read: seq<Flow> := match ReadFile(text) case Got(fs, _) => fs case Failed => [];
    if finished { WrittenReads(text, estimate, flows); }
    sim := new Scheduler(s, read, |read|);
    sim.Run();
    if read == flows && sim.aborted {
      IntraFileRuns(p, s, m, limit, flows, sim.idx);
      assert false;
    }
  }
}
