/** The flow generators: a heap of hosts ordered by their next arrival emits flows in order of time. */
module Traffic {
  import opened Topology

  const BASE_T := 2_000_000_000

  datatype Flow = Flow(src: nat, dst: nat, size: int, t: int)

  /** A heap entry: a host's next arrival. */
  datatype Host = Host(t: int, id: nat, dc: nat, index: nat)

  /** The random numbers one round consumes: the gap to the next arrival, the destination indices tried in
      turn, the destination datacenter among the others, and the size. */
  datatype Draw = Draw(gap: nat, tries: seq<nat>, otherDc: nat, size: int)

  datatype Phase = Intra | Inter

  /** Python's order on the tuples in the heap; ids tell them apart. */
  predicate Earlier(a: Host, b: Host) {
    a.t < b.t || (a.t == b.t && a.id <= b.id)
  }

  /** `heap[0]`: the least entry. */
  method Least(heap: seq<Host>) returns (k: nat)
    requires heap != []
    ensures k < |heap| && forall i :: 0 <= i < |heap| ==> Earlier(heap[k], heap[i])
  {
    k := 0;
    for i := 1 to |heap|
      invariant k < |heap| && forall j :: 0 <= j < i ==> Earlier(heap[k], heap[j])
    {
      if !Earlier(heap[k], heap[i]) { k := i; }
    }
  }

  /** The first tried index that is not the source's own, if any. */
  function Accept(tries: seq<nat>, self: nat): nat {
    if tries == [] then self else if tries[0] != self then tries[0] else Accept(tries[1..], self)
  }

  method PickOther(tries: seq<nat>, self: nat) returns (dst: nat)
    ensures dst == Accept(tries, self)
  {
    dst := self;
    var j := 0;
    while j < |tries| && dst == self
      invariant j <= |tries|
      invariant dst == self ==> Accept(tries, self) == Accept(tries[j..], self)
      invariant dst != self ==> dst == Accept(tries, self)
    {
      assert tries[j..][1..] == tries[j + 1..];
      dst := tries[j];
      j := j + 1;
    }
  }

  /** One source per entry, each a server of the topology, none before the base time. */
  ghost predicate HeapOk(p: Params, heap: seq<Host>) {
    (forall i :: 0 <= i < |heap| ==> IsHost(p, heap[i])) && Distinct(heap)
  }

  ghost predicate IsHost(p: Params, h: Host) {
    h.dc < p.dcs && h.index < ServersPerDc(p) && h.id == GetServerId(p, h.index, h.dc) && h.t >= BASE_T
  }

  ghost predicate Distinct(heap: seq<Host>) {
    forall i, j :: 0 <= i < j < |heap| ==> heap[i].id != heap[j].id
  }

  ghost predicate DrawOk(p: Params, phase: Phase, d: Draw) {
    (phase.Inter? ==> d.otherDc + 1 < p.dcs) && forall i :: 0 <= i < |d.tries| ==> d.tries[i] < ServersPerDc(p)
  }

  ghost predicate TimesRise(fs: seq<Flow>) {
    forall i, j :: 0 <= i < j < |fs| ==> fs[i].t <= fs[j].t
  }

  /** A flow of the phase: between servers, inside one datacenter but not to itself, or across datacenters. */
  ghost predicate FlowOk(p: Params, phase: Phase, limit: int, f: Flow) {
    && BASE_T <= f.t <= limit && f.size >= 1
    && exists i: nat, dc: nat, j: nat, dc': nat :: Endpoints(p, phase, f, i, dc, j, dc')
  }

  ghost predicate AllOk(p: Params, phase: Phase, limit: int, fs: seq<Flow>) {
    forall i :: 0 <= i < |fs| ==> FlowOk(p, phase, limit, fs[i])
  }

  ghost predicate Endpoints(p: Params, phase: Phase, f: Flow, i: nat, dc: nat, j: nat, dc': nat) {
    && dc < p.dcs && dc' < p.dcs && i < ServersPerDc(p) && j < ServersPerDc(p)
    && f.src == GetServerId(p, i, dc) && f.dst == GetServerId(p, j, dc')
    && match phase
       case Intra => dc == dc' && i != j
       case Inter => dc != dc'
  }

  /** When source h is due next: its latest flow's time plus the gap drawn with it, or its first arrival. */
  ghost function Due(h: Host, fs: seq<Flow>, gaps: seq<nat>): int
    requires |gaps| == |fs|
  {
    if fs == [] then h.t
    else var m := |fs| - 1;
      if fs[m].src == h.id then fs[m].t + gaps[m] else Due(h, fs[..m], gaps[..m])
  }

  /** Every flow is emitted exactly when its source was due. */
  ghost predicate OnTime(hosts: seq<Host>, fs: seq<Flow>, gaps: seq<nat>) {
    |gaps| == |fs| && (fs != [] ==>
      var m := |fs| - 1;
      OnTime(hosts, fs[..m], gaps[..m]) && exists a: nat :: a < |hosts| && DueAt(hosts[a], fs[m].src, fs[m].t, fs[..m], gaps[..m]))
  }

  ghost predicate DueAt(h: Host, id: nat, t: int, fs: seq<Flow>, gaps: seq<nat>) {
    |gaps| == |fs| && h.id == id && t == Due(h, fs, gaps)
  }

  /** Heap entries carry their sources' due times, none before a flow already out. */
  ghost predicate Pending(hosts: seq<Host>, heap: seq<Host>, fs: seq<Flow>, gaps: seq<nat>) {
    (forall i :: 0 <= i < |heap| ==> Awaits(hosts, heap[i], fs, gaps)) && NoneBefore(heap, fs)
  }

  ghost predicate NoneBefore(heap: seq<Host>, fs: seq<Flow>) {
    forall i, j :: 0 <= i < |heap| && 0 <= j < |fs| ==> fs[j].t <= heap[i].t
  }

  ghost predicate Awaits(hosts: seq<Host>, e: Host, fs: seq<Flow>, gaps: seq<nat>) {
    exists a: nat :: a < |hosts| && DueAt(hosts[a], e.id, e.t, fs, gaps)
  }

  /** A source left the heap because its due time plus one more drawn gap passed the limit. */
  ghost predicate Retired(h: Host, last: map<nat, nat>, fs: seq<Flow>, gaps: seq<nat>, limit: int) {
    |gaps| == |fs| && h.id in last && Due(h, fs, gaps) + last[h.id] > limit
  }

  ghost predicate InHeap(id: nat, heap: seq<Host>) {
    exists i :: 0 <= i < |heap| && heap[i].id == id
  }

  /** Every source is still in the heap or retired, not both. */
  ghost predicate Accounted(hosts: seq<Host>, heap: seq<Host>, last: map<nat, nat>, fs: seq<Flow>, gaps: seq<nat>, limit: int) {
    && (forall i :: 0 <= i < |heap| ==> heap[i].id !in last)
    && (forall a :: 0 <= a < |hosts| ==> InHeap(hosts[a].id, heap) || Retired(hosts[a], last, fs, gaps, limit))
  }

  lemma DueAfter(h: Host, fs: seq<Flow>, gaps: seq<nat>, f: Flow, gap: nat)
    requires |gaps| == |fs|
    ensures Due(h, fs + [f], gaps + [gap]) == if f.src == h.id then f.t + gap else Due(h, fs, gaps)
  {
    assert (fs + [f])[..|fs|] == fs && (gaps + [gap])[..|gaps|] == gaps;
  }

  lemma TimesStayOrdered(heap: seq<Host>, fs: seq<Flow>, k: nat, f: Flow)
    requires TimesRise(fs) && k < |heap| && f.t == heap[k].t
    requires NoneBefore(heap, fs)
    ensures TimesRise(fs + [f])
  {
  }

  lemma OnTimeAfter(hosts: seq<Host>, heap: seq<Host>, fs: seq<Flow>, gaps: seq<nat>, k: nat, f: Flow, gap: nat)
    requires OnTime(hosts, fs, gaps) && Pending(hosts, heap, fs, gaps) && k < |heap| && f.src == heap[k].id && f.t == heap[k].t
    ensures OnTime(hosts, fs + [f], gaps + [gap])
  {
    assert (fs + [f])[..|fs|] == fs && (gaps + [gap])[..|gaps|] == gaps;
    assert Awaits(hosts, heap[k], fs, gaps);
  }

  lemma PendingAfter(hosts: seq<Host>, heap: seq<Host>, fs: seq<Flow>, gaps: seq<nat>, k: nat, f: Flow, gap: nat)
    requires Pending(hosts, heap, fs, gaps) && Distinct(heap) && k < |heap| && (forall i :: 0 <= i < |heap| ==> Earlier(heap[k], heap[i]))
    requires f.src == heap[k].id && f.t == heap[k].t
    ensures Pending(hosts, heap[k := heap[k].(t := f.t + gap)], fs + [f], gaps + [gap])
  {
    var heap', fs', gaps' := heap[k := heap[k].(t := f.t + gap)], fs + [f], gaps + [gap];
    NoneBeforeAfter(heap, fs, k, f, gap);
    hide Awaits, NoneBefore, Earlier;
    forall i | 0 <= i < |heap'| ensures Awaits(hosts, heap'[i], fs', gaps') {
      AwaitsAfter(hosts, heap[i], fs, gaps, f, gap);
      assert heap'[i] == if heap[i].id == f.src then heap[i].(t := f.t + gap) else heap[i];
    }
  }

  lemma NoneBeforeAfter(heap: seq<Host>, fs: seq<Flow>, k: nat, f: Flow, gap: nat)
    requires NoneBefore(heap, fs) && k < |heap| && f.t == heap[k].t && (forall i :: 0 <= i < |heap| ==> Earlier(heap[k], heap[i]))
    ensures NoneBefore(heap[k := heap[k].(t := f.t + gap)], fs + [f])
  {
    var heap', fs' := heap[k := heap[k].(t := f.t + gap)], fs + [f];
    forall i, j | 0 <= i < |heap'| && 0 <= j < |fs'| ensures fs'[j].t <= heap'[i].t {
      assert Earlier(heap[k], heap[i]) && (j < |fs| ==> fs'[j] == fs[j]);
    }
  }

  lemma AwaitsAfter(hosts: seq<Host>, e: Host, fs: seq<Flow>, gaps: seq<nat>, f: Flow, gap: nat)
    requires Awaits(hosts, e, fs, gaps)
    ensures Awaits(hosts, if e.id == f.src then e.(t := f.t + gap) else e, fs + [f], gaps + [gap])
  {
    var a: nat :| a < |hosts| && DueAt(hosts[a], e.id, e.t, fs, gaps);
    DueAfter(hosts[a], fs, gaps, f, gap);
    assert DueAt(hosts[a], e.id, if e.id == f.src then f.t + gap else e.t, fs + [f], gaps + [gap]);
  }

  lemma AccountedAfter(hosts: seq<Host>, heap: seq<Host>, last: map<nat, nat>, fs: seq<Flow>, gaps: seq<nat>, limit: int,
                       k: nat, f: Flow, gap: nat)
    requires Accounted(hosts, heap, last, fs, gaps, limit) && k < |heap| && f.src == heap[k].id && |fs| == |gaps|
    ensures Accounted(hosts, heap[k := heap[k].(t := f.t + gap)], last, fs + [f], gaps + [gap], limit)
  {
    var heap' := heap[k := heap[k].(t := f.t + gap)];
    forall a | 0 <= a < |hosts| ensures InHeap(hosts[a].id, heap') || Retired(hosts[a], last, fs + [f], gaps + [gap], limit) {
      if InHeap(hosts[a].id, heap) {
        var i :| 0 <= i < |heap| && heap[i].id == hosts[a].id;
        assert heap'[i].id == hosts[a].id;
      } else {
        DueAfter(hosts[a], fs, gaps, f, gap);
      }
    }
  }

  function Remove(heap: seq<Host>, k: nat): seq<Host>
    requires k < |heap|
  {
    heap[..k] + heap[k + 1..]
  }

  lemma RemoveKeeps(p: Params, hosts: seq<Host>, heap: seq<Host>, fs: seq<Flow>, gaps: seq<nat>, k: nat)
    requires Pending(hosts, heap, fs, gaps) && HeapOk(p, heap) && k < |heap|
    ensures Pending(hosts, Remove(heap, k), fs, gaps) && HeapOk(p, Remove(heap, k))
  {
    hide Awaits, IsHost;
    var r := Remove(heap, k);
    assert forall a :: 0 <= a < |r| ==> r[a] == heap[if a < k then a else a + 1];
  }

  lemma RemoveRetires(hosts: seq<Host>, heap: seq<Host>, last: map<nat, nat>, fs: seq<Flow>, gaps: seq<nat>, limit: int, k: nat, gap: nat)
    requires Accounted(hosts, heap, last, fs, gaps, limit) && Pending(hosts, heap, fs, gaps) && Distinct(heap) && Distinct(hosts)
    requires k < |heap| && heap[k].t + gap > limit
    ensures Accounted(hosts, Remove(heap, k), last[heap[k].id := gap], fs, gaps, limit)
  {
    hide Earlier;
    var r, last' := Remove(heap, k), last[heap[k].id := gap];
    assert forall a :: 0 <= a < |r| ==> r[a] == heap[if a < k then a else a + 1];
    assert Awaits(hosts, heap[k], fs, gaps);
    var b: nat :| b < |hosts| && DueAt(hosts[b], heap[k].id, heap[k].t, fs, gaps);
    forall a | 0 <= a < |hosts| ensures InHeap(hosts[a].id, r) || Retired(hosts[a], last', fs, gaps, limit) {
      if a != b && InHeap(hosts[a].id, heap) {
        var i :| 0 <= i < |heap| && heap[i].id == hosts[a].id;
        assert r[if i < k then i else i - 1].id == hosts[a].id;
      }
    }
  }

  /** An upper bound for the rounds still to come when every gap is at least 1. */
  ghost function Work(heap: seq<Host>, limit: int): nat {
    if heap == [] then 0 else Work(heap[..|heap| - 1], limit) + HostWork(heap[|heap| - 1], limit)
  }

  ghost function HostWork(h: Host, limit: int): nat {
    if h.t <= limit then limit - h.t + 1 else 1
  }

  lemma {:induction false} WorkAppend(a: seq<Host>, b: seq<Host>, limit: int)
    ensures Work(a + b, limit) == Work(a, limit) + Work(b, limit)
    decreases |b|
  {
    if b == [] {
      assert a + b == a;
    } else {
      WorkAppend(a, b[..|b| - 1], limit);
      assert (a + b)[..|a + b| - 1] == a + b[..|b| - 1];
    }
  }

  lemma WorkSplit(heap: seq<Host>, k: nat, h: Host, limit: int)
    requires k < |heap|
    ensures Work(heap[k := h], limit) == Work(Remove(heap, k), limit) + HostWork(h, limit)
  {
    assert heap[k := h] == heap[..k] + [h] + heap[k + 1..];
    WorkAppend(heap[..k] + [h], heap[k + 1..], limit);
    WorkAppend(heap[..k], [h], limit);
    WorkAppend(heap[..k], heap[k + 1..], limit);
    assert [h][..0] == [];
  }

  /** Inside a phase flows stay in the datacenter but leave the server, or leave the datacenter. */
  predicate Chosen(phase: Phase, h: Host, index: nat, dc: nat) {
    match phase
    case Intra => dc == h.dc && index != h.index
    case Inter => dc != h.dc
  }

  /** All tried indices are one and the same, the source's own, or none is there. */
  ghost predicate OutOfTries(phase: Phase, d: Draw) {
    match phase
    case Intra => forall i, j :: 0 <= i < j < |d.tries| ==> d.tries[i] == d.tries[j]
    case Inter => d.tries == []
  }

  /** Where a round's flow goes: an index and a datacenter, or nothing if the draws were used up. */
  method PickDestination(p: Params, phase: Phase, h: Host, d: Draw) returns (ok: bool, index: nat, dc: nat)
    requires DrawOk(p, phase, d) && h.dc < p.dcs
    ensures ok ==> index < ServersPerDc(p) && dc < p.dcs
    ensures ok ==> Chosen(phase, h, index, dc)
    ensures ok ==> match phase
                   case Intra => index == Accept(d.tries, h.index)
                   case Inter => dc == (if d.otherDc >= h.dc then d.otherDc + 1 else d.otherDc) && d.tries != [] && index == d.tries[0]
    ensures !ok ==> OutOfTries(phase, d)
  {
    if phase.Intra? {
      index := PickOther(d.tries, h.index);
      dc := h.dc;
      ok := index != h.index;
      if ok { ghost var k := AcceptIsTried(d.tries, h.index); } else { AcceptNone(d.tries, h.index); }
    } else {
      dc := d.otherDc;
      if dc >= h.dc { dc := dc + 1; }
      ok := d.tries != [];
      index := if ok then d.tries[0] else 0;
    }
  }

  lemma {:induction false} AcceptIsTried(tries: seq<nat>, self: nat) returns (k: nat)
    requires Accept(tries, self) != self
    ensures FirstOther(tries, self, k) && tries[k] == Accept(tries, self)
    decreases |tries|
  {
    k := 0;
    if tries[0] == self {
      var i := AcceptIsTried(tries[1..], self);
      k := i + 1;
      assert forall j :: 0 < j < k ==> tries[j] == tries[1..][j - 1];
    }
  }

  lemma {:induction false} AcceptNone(tries: seq<nat>, self: nat)
    requires Accept(tries, self) == self
    ensures forall i :: 0 <= i < |tries| ==> tries[i] == self
    decreases |tries|
  {
    if tries != [] {
      AcceptNone(tries[1..], self);
      assert forall i :: 0 < i < |tries| ==> tries[i] == tries[1..][i - 1];
    }
  }

  lemma Replaced(p: Params, heap: seq<Host>, k: nat, t: int)
    requires HeapOk(p, heap) && k < |heap| && t >= heap[k].t
    ensures HeapOk(p, heap[k := heap[k].(t := t)])
  {
    hide GetServerId, ServersPerDc;
  }

  lemma EmittedOk(p: Params, phase: Phase, limit: int, heap: seq<Host>, k: nat, index: nat, dc: nat, size: int)
    requires HeapOk(p, heap) && k < |heap| && index < ServersPerDc(p) && dc < p.dcs && heap[k].t <= limit && size >= 1
    requires Chosen(phase, heap[k], index, dc)
    ensures FlowOk(p, phase, limit, Flow(heap[k].id, GetServerId(p, index, dc), size, heap[k].t))
  {
    hide GetServerId, ServersPerDc;
    assert Endpoints(p, phase, Flow(heap[k].id, GetServerId(p, index, dc), size, heap[k].t), heap[k].index, heap[k].dc, index, dc);
  }

  /** What holds between rounds. */
  ghost predicate Inv(p: Params, phase: Phase, limit: int, hosts: seq<Host>, heap: seq<Host>, last: map<nat, nat>,
                      flows: seq<Flow>, gaps: seq<nat>) {
    && HeapOk(p, heap) && Distinct(hosts) && Pending(hosts, heap, flows, gaps)
    && Accounted(hosts, heap, last, flows, gaps, limit)
    && TimesRise(flows) && OnTime(hosts, flows, gaps) && AllOk(p, phase, limit, flows)
  }

  lemma NothingEmitted(p: Params, phase: Phase, limit: int, hosts: seq<Host>)
    requires HeapOk(p, hosts)
    ensures Inv(p, phase, limit, hosts, hosts, map[], [], [])
  {
    hide IsHost;
    forall i | 0 <= i < |hosts| ensures Awaits(hosts, hosts[i], [], []) && InHeap(hosts[i].id, hosts) {
      assert DueAt(hosts[i], hosts[i].id, hosts[i].t, [], []);
    }
  }

  lemma RoundPops(p: Params, phase: Phase, limit: int, hosts: seq<Host>, heap: seq<Host>, last: map<nat, nat>,
                  flows: seq<Flow>, gaps: seq<nat>, k: nat, gap: nat)
    requires Inv(p, phase, limit, hosts, heap, last, flows, gaps) && k < |heap| && heap[k].t + gap > limit
    ensures Inv(p, phase, limit, hosts, Remove(heap, k), last[heap[k].id := gap], flows, gaps)
  {
    assert Distinct(heap);
    hide HeapOk, Pending, Accounted, TimesRise, OnTime, AllOk, Remove, Distinct;
    RemoveKeeps(p, hosts, heap, flows, gaps, k);
    RemoveRetires(hosts, heap, last, flows, gaps, limit, k, gap);
  }

  lemma PopLessWork(heap: seq<Host>, k: nat, limit: int)
    requires k < |heap|
    ensures Work(Remove(heap, k), limit) < Work(heap, limit)
  {
    hide Remove, Work;
    WorkSplit(heap, k, heap[k], limit);
    assert heap[k := heap[k]] == heap;
  }

  lemma EmitLessWork(heap: seq<Host>, k: nat, gap: nat, limit: int)
    requires k < |heap| && heap[k].t + gap <= limit
    ensures Work(heap[k := heap[k].(t := heap[k].t + gap)], limit) + gap == Work(heap, limit)
  {
    hide Remove, Work;
    WorkSplit(heap, k, heap[k], limit);
    WorkSplit(heap, k, heap[k].(t := heap[k].t + gap), limit);
    assert heap[k := heap[k]] == heap;
  }

  lemma AllOkAppend(p: Params, phase: Phase, limit: int, flows: seq<Flow>, f: Flow)
    requires AllOk(p, phase, limit, flows) && FlowOk(p, phase, limit, f)
    ensures AllOk(p, phase, limit, flows + [f])
  {
    hide FlowOk;
  }

  lemma RoundEmits(p: Params, phase: Phase, limit: int, hosts: seq<Host>, heap: seq<Host>, last: map<nat, nat>,
                   flows: seq<Flow>, gaps: seq<nat>, k: nat, index: nat, dc: nat, size: int, gap: nat, f: Flow)
    requires Inv(p, phase, limit, hosts, heap, last, flows, gaps)
    requires k < |heap| && forall i :: 0 <= i < |heap| ==> Earlier(heap[k], heap[i])
    requires index < ServersPerDc(p) && dc < p.dcs && heap[k].t + gap <= limit && size >= 1 && Chosen(phase, heap[k], index, dc)
    requires f == Flow(heap[k].id, GetServerId(p, index, dc), size, heap[k].t)
    ensures Inv(p, phase, limit, hosts, heap[k := heap[k].(t := heap[k].t + gap)], last, flows + [f], gaps + [gap])
  {
    hide *;
    InvParts(p, phase, limit, hosts, heap, last, flows, gaps);
    HeapParts(p, hosts, heap, flows, gaps, k);
    EmittedOk(p, phase, limit, heap, k, index, dc, size);
    TimesStayOrdered(heap, flows, k, f);
    Replaced(p, heap, k, heap[k].t + gap);
    AllOkAppend(p, phase, limit, flows, f);
    OnTimeAfter(hosts, heap, flows, gaps, k, f, gap);
    PendingAfter(hosts, heap, flows, gaps, k, f, gap);
    AccountedAfter(hosts, heap, last, flows, gaps, limit, k, f, gap);
    InvHolds(p, phase, limit, hosts, heap[k := heap[k].(t := heap[k].t + gap)], last, flows + [f], gaps + [gap]);
  }

  lemma InvParts(p: Params, phase: Phase, limit: int, hosts: seq<Host>, heap: seq<Host>, last: map<nat, nat>,
                 flows: seq<Flow>, gaps: seq<nat>)
    requires Inv(p, phase, limit, hosts, heap, last, flows, gaps)
    ensures HeapOk(p, heap) && Distinct(hosts) && Pending(hosts, heap, flows, gaps)
    ensures Accounted(hosts, heap, last, flows, gaps, limit)
    ensures TimesRise(flows) && OnTime(hosts, flows, gaps) && AllOk(p, phase, limit, flows)
  {
    hide HeapOk, Distinct, Pending, Accounted, TimesRise, OnTime, AllOk;
  }

  lemma InvHolds(p: Params, phase: Phase, limit: int, hosts: seq<Host>, heap: seq<Host>, last: map<nat, nat>,
                 flows: seq<Flow>, gaps: seq<nat>)
    requires HeapOk(p, heap) && Distinct(hosts) && Pending(hosts, heap, flows, gaps)
    requires Accounted(hosts, heap, last, flows, gaps, limit)
    requires TimesRise(flows) && OnTime(hosts, flows, gaps) && AllOk(p, phase, limit, flows)
    ensures Inv(p, phase, limit, hosts, heap, last, flows, gaps)
  {
    hide HeapOk, Distinct, Pending, Accounted, TimesRise, OnTime, AllOk;
  }

  lemma HeapParts(p: Params, hosts: seq<Host>, heap: seq<Host>, fs: seq<Flow>, gaps: seq<nat>, k: nat)
    requires HeapOk(p, heap) && Pending(hosts, heap, fs, gaps) && k < |heap|
    ensures Distinct(heap) && NoneBefore(heap, fs) && |gaps| == |fs|
  {
    hide IsHost, NoneBefore, Distinct;
    assert Awaits(hosts, heap[k], fs, gaps);
  }

  lemma InvMeans(p: Params, phase: Phase, limit: int, hosts: seq<Host>, heap: seq<Host>, last: map<nat, nat>,
                 flows: seq<Flow>, gaps: seq<nat>)
    requires Inv(p, phase, limit, hosts, heap, last, flows, gaps)
    ensures TimesRise(flows) && OnTime(hosts, flows, gaps) && AllOk(p, phase, limit, flows) && |gaps| == |flows|
    ensures forall i :: 0 <= i < |heap| ==> heap[i].dc < p.dcs && IsHost(p, heap[i]) && heap[i].id !in last
    ensures heap == [] ==> AllRetired(hosts, last, flows, gaps, limit)
  {
    hide TimesRise, AllOk, Retired, Pending, Distinct;
  }

  ghost predicate AllRetired(hosts: seq<Host>, last: map<nat, nat>, fs: seq<Flow>, gaps: seq<nat>, limit: int) {
    forall a :: 0 <= a < |hosts| ==> Retired(hosts[a], last, fs, gaps, limit)
  }

  ghost predicate GapsPositive(draws: seq<Draw>) {
    forall i :: 0 <= i < |draws| ==> draws[i].gap >= 1
  }

  lemma PositiveAt(draws: seq<Draw>, i: nat)
    requires i < |draws|
    ensures GapsPositive(draws) ==> draws[i].gap >= 1
  {
  }

  /** A source's flow goes to the first tried index that is not the source's own, in its own datacenter; or to the
      first tried index in the drawn one of the other datacenters. */
  ghost predicate Aimed(p: Params, phase: Phase, h: Host, d: Draw, dst: nat) {
    match phase
    case Intra => exists k: nat :: FirstOther(d.tries, h.index, k) && dst == GetServerId(p, d.tries[k], h.dc)
    case Inter => d.tries != [] && dst == GetServerId(p, d.tries[0], if d.otherDc < h.dc then d.otherDc else d.otherDc + 1)
  }

  ghost predicate FirstOther(tries: seq<nat>, self: nat, k: nat) {
    k < |tries| && tries[k] != self && forall j :: 0 <= j < k ==> tries[j] == self
  }

  /** A flow's size is the drawn one, but at least 1, its destination is where its source aimed, and one more gap does not
      pass the limit. */
  ghost predicate Drawn(p: Params, phase: Phase, limit: int, f: Flow, d: Draw) {
    && (d.size >= 1 ==> f.size == d.size) && (d.size <= 0 ==> f.size == 1) && f.t + d.gap <= limit
    && exists h: Host :: IsHost(p, h) && h.id == f.src && Aimed(p, phase, h, d, f.dst)
  }

  /** One round uses one draw, for a flow or for a source's departure. */
  ghost predicate Stepped(p: Params, phase: Phase, limit: int, d: Draw, last: map<nat, nat>, fs: seq<Flow>, gaps: seq<nat>,
                          last': map<nat, nat>, fs': seq<Flow>, gaps': seq<nat>) {
    || (last' == last && gaps' == gaps + [d.gap] && exists f :: fs' == fs + [f] && Drawn(p, phase, limit, f, d))
    || (fs' == fs && gaps' == gaps && exists id: nat :: id !in last && last' == last[id := d.gap])
  }

  /** Flows come from increasing rounds; every other round let one source go. */
  ghost predicate FromDraws(p: Params, phase: Phase, limit: int, draws: seq<Draw>, rounds: nat, fs: seq<Flow>, gaps: seq<nat>,
                            last: map<nat, nat>, used: seq<nat>) {
    && rounds <= |draws| && |used| == |fs| == |gaps| && rounds == |fs| + |last|
    && (forall i :: 0 <= i < |fs| ==> used[i] < rounds && gaps[i] == draws[used[i]].gap && Drawn(p, phase, limit, fs[i], draws[used[i]]))
    && (forall i, j :: 0 <= i < j < |used| ==> used[i] < used[j])
    && (forall id :: id in last ==> exists r: nat :: r < rounds && r !in used && last[id] == draws[r].gap)
  }

  lemma FromDrawsNext(p: Params, phase: Phase, limit: int, draws: seq<Draw>, rounds: nat, fs: seq<Flow>, gaps: seq<nat>, last: map<nat, nat>,
                      used: seq<nat>, fs': seq<Flow>, gaps': seq<nat>, last': map<nat, nat>) returns (used': seq<nat>)
    requires FromDraws(p, phase, limit, draws, rounds, fs, gaps, last, used) && rounds < |draws|
    requires Stepped(p, phase, limit, draws[rounds], last, fs, gaps, last', fs', gaps')
    ensures FromDraws(p, phase, limit, draws, rounds + 1, fs', gaps', last', used')
  {
    hide Drawn;
    if |fs'| > |fs| {
      used' := used + [rounds];
    } else {
      used' := used;
      assert rounds !in used;
    }
    forall id | id in last' ensures exists r: nat :: r < rounds + 1 && r !in used' && last'[id] == draws[r].gap {
      if id in last && last'[id] == last[id] {
        var r: nat :| r < rounds && r !in used && last[id] == draws[r].gap;
        assert r !in used';
      }
    }
  }

  /** Flows of one time come in the order of their sources, and whoever is still due at that time comes after them. */
  ghost predicate TiesBySource(fs: seq<Flow>) {
    forall i, j :: 0 <= i < j < |fs| && fs[i].t == fs[j].t ==> fs[i].src < fs[j].src
  }

  ghost predicate Tied(heap: seq<Host>, fs: seq<Flow>) {
    TiesBySource(fs) && forall i, j :: 0 <= i < |heap| && 0 <= j < |fs| && fs[j].t == heap[i].t ==> fs[j].src < heap[i].id
  }

  lemma TiedStays(heap: seq<Host>, fs: seq<Flow>, k: nat, gap: nat, f: Flow)
    requires Tied(heap, fs) && NoneBefore(heap, fs) && Distinct(heap) && k < |heap| && forall i :: 0 <= i < |heap| ==> Earlier(heap[k], heap[i])
    requires f.src == heap[k].id && f.t == heap[k].t
    ensures gap >= 1 ==> Tied(heap[k := heap[k].(t := heap[k].t + gap)], fs + [f])
    ensures Tied(Remove(heap, k), fs)
  {
  }

  lemma TiedMeans(heap: seq<Host>, fs: seq<Flow>)
    requires Tied(heap, fs)
    ensures TiesBySource(fs)
  {
  }

  /** One round of an event loop: the earliest source emits a flow or leaves. */
  method Round(p: Params, phase: Phase, limit: int, ghost hosts: seq<Host>, heap: seq<Host>, ghost last: map<nat, nat>,
               flows: seq<Flow>, ghost gaps: seq<nat>, d: Draw)
    returns (ok: bool, heap': seq<Host>, ghost last': map<nat, nat>, flows': seq<Flow>, ghost gaps': seq<nat>)
    requires Inv(p, phase, limit, hosts, heap, last, flows, gaps) && heap != [] && DrawOk(p, phase, d)
    ensures Inv(p, phase, limit, hosts, heap', last', flows', gaps')
    ensures if ok then Stepped(p, phase, limit, d, last, flows, gaps, last', flows', gaps') else OutOfTries(phase, d)
    ensures !ok ==> (heap', last', flows', gaps') == (heap, last, flows, gaps)
    ensures ok && d.gap >= 1 ==> Work(heap', limit) < Work(heap, limit)
    ensures d.gap >= 1 && Tied(heap, flows) ==> Tied(heap', flows')
  {
    hide Tied, Distinct, NoneBefore;
    hide Inv, Work, GetServerId, ServersPerDc, Accept, Remove, Earlier, Chosen, OutOfTries, DrawOk, Drawn, IsHost, Retired;
    heap', last', flows', gaps' := heap, last, flows, gaps;
    var k := Least(heap);
    var h := heap[k];
    InvMeans(p, phase, limit, hosts, heap, last, flows, gaps);
    InvParts(p, phase, limit, hosts, heap, last, flows, gaps);
    HeapParts(p, hosts, heap, flows, gaps, k);
    var index, dc;
    ok, index, dc := PickDestination(p, phase, h, d);
    if !ok {
    } else if h.t + d.gap > limit {
      RoundPops(p, phase, limit, hosts, heap, last, flows, gaps, k, d.gap);
      PopLessWork(heap, k, limit);
      if Tied(heap, flows) { TiedStays(heap, flows, k, d.gap, Flow(h.id, 0, 1, h.t)); }
      heap', last' := Remove(heap, k), last[h.id := d.gap];
    } else {
      var size := if d.size <= 0 then 1 else d.size;
      var f := Flow(h.id, GetServerId(p, index, dc), size, h.t);
      FlowIsDrawn(p, phase, limit, h, d, index, dc, f);
      RoundEmits(p, phase, limit, hosts, heap, last, flows, gaps, k, index, dc, size, d.gap, f);
      EmitLessWork(heap, k, d.gap, limit);
      if Tied(heap, flows) { TiedStays(heap, flows, k, d.gap, f); }
      flows', gaps' := flows + [f], gaps + [d.gap];
      heap' := heap[k := h.(t := h.t + d.gap)];
    }
  }

  lemma FlowIsDrawn(p: Params, phase: Phase, limit: int, h: Host, d: Draw, index: nat, dc: nat, f: Flow)
    requires IsHost(p, h) && f.src == h.id && f.dst == GetServerId(p, index, dc) && Chosen(phase, h, index, dc)
    requires (d.size >= 1 ==> f.size == d.size) && (d.size <= 0 ==> f.size == 1) && f.t + d.gap <= limit
    requires match phase
             case Intra => index == Accept(d.tries, h.index)
             case Inter => dc == (if d.otherDc >= h.dc then d.otherDc + 1 else d.otherDc) && d.tries != [] && index == d.tries[0]
    ensures Drawn(p, phase, limit, f, d)
  {
    hide GetServerId, Accept, ServersPerDc;
    if phase.Intra? {
      var k := AcceptIsTried(d.tries, h.index);
      assert f.dst == GetServerId(p, d.tries[k], h.dc);
    }
    assert Aimed(p, phase, h, d, f.dst);
  }

  /** How a phase went: how many rounds, each flow's gap and round, each departed source's last gap. */
  datatype Trace = Trace(rounds: nat, gaps: seq<nat>, used: seq<nat>, last: map<nat, nat>)

  /** What a phase's flows are, given its sources and random numbers. */
  ghost predicate IsRun(p: Params, phase: Phase, hosts: seq<Host>, draws: seq<Draw>, limit: int, flows: seq<Flow>, tr: Trace) {
    && TimesRise(flows) && OnTime(hosts, flows, tr.gaps) && AllOk(p, phase, limit, flows)
    && FromDraws(p, phase, limit, draws, tr.rounds, flows, tr.gaps, tr.last, tr.used)
  }

  /** No source has anything left to send before the limit. */
  ghost predicate IsOver(hosts: seq<Host>, flows: seq<Flow>, limit: int, tr: Trace) {
    AllRetired(hosts, tr.last, flows, tr.gaps, limit)
  }

  lemma PhaseEnds(p: Params, phase: Phase, hosts: seq<Host>, draws: seq<Draw>, limit: int, heap: seq<Host>, flows: seq<Flow>, tr: Trace)
    requires Inv(p, phase, limit, hosts, heap, tr.last, flows, tr.gaps)
    requires FromDraws(p, phase, limit, draws, tr.rounds, flows, tr.gaps, tr.last, tr.used)
    ensures IsRun(p, phase, hosts, draws, limit, flows, tr)
    ensures heap == [] ==> IsOver(hosts, flows, limit, tr)
  {
    hide FromDraws, Inv, TimesRise, OnTime, AllOk, AllRetired;
    InvMeans(p, phase, limit, hosts, heap, tr.last, flows, tr.gaps);
  }

  lemma NothingDrawn(p: Params, phase: Phase, limit: int, draws: seq<Draw>)
    ensures FromDraws(p, phase, limit, draws, 0, [], [], map[], [])
  {
  }

  /** One of the two event loops. It ends when no source is left, or when the random numbers run out. */
  method RunPhase(p: Params, phase: Phase, hosts: seq<Host>, draws: seq<Draw>, limit: int)
    returns (flows: seq<Flow>, finished: bool, ghost tr: Trace)
    requires HeapOk(p, hosts) && forall i :: 0 <= i < |draws| ==> DrawOk(p, phase, draws[i])
    ensures TimesRise(flows) && AllOk(p, phase, limit, flows)
    ensures IsRun(p, phase, hosts, draws, limit, flows, tr)
    ensures finished ==> IsOver(hosts, flows, limit, tr)
    ensures finished || tr.rounds == |draws| || OutOfTries(phase, draws[tr.rounds])
    ensures GapsPositive(draws) ==> tr.rounds <= Work(hosts, limit) && TiesBySource(flows)
  {
    flows := [];
    var rounds := 0;
    ghost var gaps: seq<nat>, last: map<nat, nat>, used: seq<nat> := [], map[], [];
    NothingEmitted(p, phase, limit, hosts);
    NothingDrawn(p, phase, limit, draws);
    var heap := hosts;
    assert Tied(heap, flows);
    hide *;
    while heap != [] && rounds < |draws|
      invariant rounds <= |draws| && Inv(p, phase, limit, hosts, heap, last, flows, gaps)
      invariant FromDraws(p, phase, limit, draws, rounds, flows, gaps, last, used)
      invariant GapsPositive(draws) ==> rounds + Work(heap, limit) <= Work(hosts, limit) && Tied(heap, flows)
      decreases |draws| - rounds
    {
      var ok, heap'; ghost var last'; var flows'; ghost var gaps';
      ok, heap', last', flows', gaps' := Round(p, phase, limit, hosts, heap, last, flows, gaps, draws[rounds]);
      if !ok { break; }
      PositiveAt(draws, rounds);
      used := FromDrawsNext(p, phase, limit, draws, rounds, flows, gaps, last, used, flows', gaps', last');
      heap, last, flows, gaps, rounds := heap', last', flows', gaps', rounds + 1;
    }
    finished := heap == [];
    tr := Trace(rounds, gaps, used, last);
    PhaseEnds(p, phase, hosts, draws, limit, heap, flows, tr);
    InvParts(p, phase, limit, hosts, heap, last, flows, gaps);
    if Tied(heap, flows) { TiedMeans(heap, flows); }
  }

  /** When a phase is over, every source's last flow and two more gaps, or its first arrival and one more gap, pass the limit. */
  lemma OverMeans(hosts: seq<Host>, flows: seq<Flow>, limit: int, tr: Trace, a: nat)
    requires IsOver(hosts, flows, limit, tr) && |tr.gaps| == |flows| && a < |hosts|
    ensures hosts[a].id in tr.last
    ensures (forall i :: 0 <= i < |flows| ==> flows[i].src != hosts[a].id) ==> hosts[a].t + tr.last[hosts[a].id] > limit
    ensures forall i :: 0 <= i < |flows| && flows[i].src == hosts[a].id && (forall m :: i < m < |flows| ==> flows[m].src != hosts[a].id)
              ==> flows[i].t + tr.gaps[i] + tr.last[hosts[a].id] > limit
  {
    assert Retired(hosts[a], tr.last, flows, tr.gaps, limit);
    hide Due;
    if forall i :: 0 <= i < |flows| ==> flows[i].src != hosts[a].id { DueAtFirst(hosts[a], flows, tr.gaps); }
    forall i | 0 <= i < |flows| && flows[i].src == hosts[a].id && (forall m :: i < m < |flows| ==> flows[m].src != hosts[a].id)
      ensures flows[i].t + tr.gaps[i] + tr.last[hosts[a].id] > limit
    {
      DueIsLatest(hosts[a], flows, tr.gaps, i);
    }
  }

  lemma {:induction false} DueAtFirst(h: Host, fs: seq<Flow>, gaps: seq<nat>)
    requires |gaps| == |fs| && forall i :: 0 <= i < |fs| ==> fs[i].src != h.id
    ensures Due(h, fs, gaps) == h.t
    decreases |fs|
  {
    if fs != [] { DueAtFirst(h, fs[..|fs| - 1], gaps[..|fs| - 1]); }
  }

  /** Two consecutive flows of one source lie exactly the drawn gap apart. */
  ghost predicate GapsKept(fs: seq<Flow>, gaps: seq<nat>)
    requires |gaps| == |fs|
  {
    forall i, j :: 0 <= i < j < |fs| && Consecutive(fs, i, j) ==> fs[j].t == fs[i].t + gaps[i]
  }

  ghost predicate Consecutive(fs: seq<Flow>, i: nat, j: nat)
    requires i < j < |fs|
  {
    fs[i].src == fs[j].src && forall m :: i < m < j ==> fs[m].src != fs[i].src
  }

  lemma {:induction false} DueIsLatest(h: Host, fs: seq<Flow>, gaps: seq<nat>, i: nat)
    requires |gaps| == |fs| && i < |fs| && fs[i].src == h.id && forall m :: i < m < |fs| ==> fs[m].src != h.id
    ensures Due(h, fs, gaps) == fs[i].t + gaps[i]
    decreases |fs|
  {
    var m := |fs| - 1;
    if i < m {
      DueIsLatest(h, fs[..m], gaps[..m], i);
    }
  }

  lemma {:induction false} OnTimeAt(hosts: seq<Host>, fs: seq<Flow>, gaps: seq<nat>, j: nat)
    requires OnTime(hosts, fs, gaps) && j < |fs|
    ensures exists a: nat :: a < |hosts| && DueAt(hosts[a], fs[j].src, fs[j].t, fs[..j], gaps[..j])
    decreases |fs|
  {
    var m := |fs| - 1;
    if j < m {
      OnTimeAt(hosts, fs[..m], gaps[..m], j);
      assert fs[..m][..j] == fs[..j] && gaps[..m][..j] == gaps[..j];
    }
  }

  lemma OnTimeKeepsGaps(hosts: seq<Host>, fs: seq<Flow>, gaps: seq<nat>)
    requires OnTime(hosts, fs, gaps)
    ensures GapsKept(fs, gaps)
  {
    forall i, j | 0 <= i < j < |fs| && Consecutive(fs, i, j) ensures fs[j].t == fs[i].t + gaps[i] {
      OnTimeAt(hosts, fs, gaps, j);
      var a: nat :| a < |hosts| && DueAt(hosts[a], fs[j].src, fs[j].t, fs[..j], gaps[..j]);
      DueIsLatest(hosts[a], fs[..j], gaps[..j], i);
    }
  }
}
