/** Installing the flows of a file as simulated time goes by. */
module Schedule {
  import opened Graph
  import opened Loops
  import opened Routing
  import opened Rtt
  import opened Traffic

  const TWO16 := 0x1_0000

  /** A flow installed on its source. */
  datatype Install = Install(at: int, id: nat, src: nat, dst: nat, sport: nat, dport: nat, length: nat, window: nat, rtt: nat)

  /** What the simulator has set up before flows start. */
  datatype Setting = Setting(n: nat, sw: set<Node>, pairRtt: Pairs, pairBdp: Pairs, maxRtt: nat, maxBdp: nat, hasWin: bool, globalT: bool)

  predicate IsHostNode(s: Setting, a: nat) {
    a < s.n && a !in s.sw
  }

  const ZERO_FLOW := Flow(0, 0, 0, 0)

  /** The flow in the input buffer after the i-th read: past the end of the file the buffer keeps its value. */
  function Nth(file: seq<Flow>, i: nat): Flow {
    if i < |file| then file[i] else if file == [] then ZERO_FLOW else file[|file| - 1]
  }

  /** How many of the first i flows leave from, or go to, a host. */
  function SentBy(file: seq<Flow>, i: nat, a: nat): nat {
    if i == 0 then 0 else SentBy(file, i - 1, a) + (if Nth(file, i - 1).src == a then 1 else 0)
  }

  function SentTo(file: seq<Flow>, i: nat, a: nat): nat {
    if i == 0 then 0 else SentTo(file, i - 1, a) + (if Nth(file, i - 1).dst == a then 1 else 0)
  }

  /** The i-th installation of a file, by reference to the file alone. */
  function Planned(s: Setting, file: seq<Flow>, i: nat): Install
  {
    var f := Nth(file, i);
    Install(f.t, i, f.src, f.dst, SrcPort(file, i, f.src), DstPort(file, i, f.dst),
            if f.size <= 0 then 1 else f.size,
            if !s.hasWin then 0 else if s.globalT then s.maxBdp else Value(s.pairBdp, f.src, f.dst),
            if s.globalT then s.maxRtt else Value(s.pairRtt, f.src, f.dst))
  }

  /** A flow the simulator accepts: between hosts with a known round-trip time, not before the previous one. */
  predicate Acceptable(s: Setting, file: seq<Flow>, i: nat) {
    && IsHostNode(s, Nth(file, i).src) && IsHostNode(s, Nth(file, i).dst)
    && Entry(s.pairRtt, Nth(file, i).src, Nth(file, i).dst).Some?
    && Previous(file, i) <= Nth(file, i).t
  }

  function SrcPort(file: seq<Flow>, i: nat, a: nat): nat {
    (10000 + SentBy(file, i, a)) % TWO16
  }

  function DstPort(file: seq<Flow>, i: nat, a: nat): nat {
    (100 + SentTo(file, i, a)) % TWO16
  }

  ghost predicate SrcPorts(s: Setting, file: seq<Flow>, i: nat, m: map<nat, nat>) {
    forall a: nat :: IsHostNode(s, a) ==> a in m && m[a] == SrcPort(file, i, a)
  }

  ghost predicate DstPorts(s: Setting, file: seq<Flow>, i: nat, m: map<nat, nat>) {
    forall a: nat :: IsHostNode(s, a) ==> a in m && m[a] == DstPort(file, i, a)
  }

  /** The 16-bit counters count. */
  lemma PortsStep(s: Setting, file: seq<Flow>, i: nat, m: map<nat, nat>, m': map<nat, nat>)
    requires SrcPorts(s, file, i, m) && DstPorts(s, file, i, m')
    requires IsHostNode(s, Nth(file, i).src) && IsHostNode(s, Nth(file, i).dst)
    ensures SrcPorts(s, file, i + 1, m[Nth(file, i).src := (m[Nth(file, i).src] + 1) % TWO16])
    ensures DstPorts(s, file, i + 1, m'[Nth(file, i).dst := (m'[Nth(file, i).dst] + 1) % TWO16])
  {
    hide Nth, IsHostNode, SentBy, SentTo, SrcPort, DstPort;
    var f := Nth(file, i);
    forall a: nat | IsHostNode(s, a)
      ensures SrcPort(file, i + 1, a) == if a == f.src then (SrcPort(file, i, a) + 1) % TWO16 else SrcPort(file, i, a)
      ensures DstPort(file, i + 1, a) == if a == f.dst then (DstPort(file, i, a) + 1) % TWO16 else DstPort(file, i, a)
    {
      PortCounts(file, i, a);
    }
  }

  lemma PortCounts(file: seq<Flow>, i: nat, a: nat)
    ensures SrcPort(file, i + 1, a) == if a == Nth(file, i).src then (SrcPort(file, i, a) + 1) % TWO16 else SrcPort(file, i, a)
    ensures DstPort(file, i + 1, a) == if a == Nth(file, i).dst then (DstPort(file, i, a) + 1) % TWO16 else DstPort(file, i, a)
  {
    assert SentBy(file, i + 1, a) == SentBy(file, i, a) + (if Nth(file, i).src == a then 1 else 0);
    assert SentTo(file, i + 1, a) == SentTo(file, i, a) + (if Nth(file, i).dst == a then 1 else 0);
    hide Nth, SentBy, SentTo;
    WrapOne(10000 + SentBy(file, i, a));
    WrapOne(100 + SentTo(file, i, a));
  }

  lemma WrapOne(c: nat)
    ensures (c + 1) % TWO16 == (c % TWO16 + 1) % TWO16
  {
  }

  ghost predicate AsPlanned(s: Setting, file: seq<Flow>, installed: seq<Install>) {
    forall i :: 0 <= i < |installed| ==> installed[i] == Planned(s, file, i) && Acceptable(s, file, i)
  }

  lemma OneMorePlanned(s: Setting, file: seq<Flow>, installed: seq<Install>, x: Install)
    requires AsPlanned(s, file, installed) && Acceptable(s, file, |installed|) && x == Planned(s, file, |installed|)
    ensures AsPlanned(s, file, installed + [x])
  {
    hide Acceptable, Planned;
  }

  /** The time of the flow before the i-th. */
  function Previous(file: seq<Flow>, i: nat): int {
    if i == 0 then 0 else Nth(file, i - 1).t
  }

  lemma AcceptableIs(s: Setting, file: seq<Flow>, i: nat)
    ensures var f := Nth(file, i);
      Acceptable(s, file, i) <==> IsHostNode(s, f.src) && IsHostNode(s, f.dst) && Entry(s.pairRtt, f.src, f.dst).Some? && Previous(file, i) <= f.t
  {
    hide Nth, IsHostNode, Entry, Previous;
  }

  lemma PlannedIs(s: Setting, file: seq<Flow>, i: nat)
    ensures var f := Nth(file, i);
      Planned(s, file, i) == Install(f.t, i, f.src, f.dst, SrcPort(file, i, f.src), DstPort(file, i, f.dst),
                                     if f.size <= 0 then 1 else f.size,
                                     if !s.hasWin then 0 else if s.globalT then s.maxBdp else Value(s.pairBdp, f.src, f.dst),
                                     if s.globalT then s.maxRtt else Value(s.pairRtt, f.src, f.dst))
  {
    hide Nth, SrcPort, DstPort, Value;
  }

  class Scheduler {
    const s: Setting
    const file: seq<Flow>
    const flowNum: nat
    var idx: nat
    var input: Flow
    var portNumber: map<nat, nat>
    var dportNumber: map<nat, nat>
    var installed: seq<Install>
    var aborted: bool

    constructor (s: Setting, file: seq<Flow>, flowNum: nat)
      ensures this.s == s && this.file == file && this.flowNum == flowNum && !aborted && idx == 0 && input == ZERO_FLOW && Consistent()
    {
      this.s, this.file, this.flowNum := s, file, flowNum;
      idx, input, installed, aborted := 0, ZERO_FLOW, [], false;
      portNumber := map a: nat | a < s.n && a !in s.sw :: 10000;
      dportNumber := map a: nat | a < s.n && a !in s.sw :: 100;
    }

    /** The first idx flows are installed as planned, and the port counters are where that leaves them. */
    ghost predicate Consistent()
      reads this
    {
      && idx <= flowNum && |installed| == idx && AsPlanned(s, file, installed)
      && (!aborted ==> SrcPorts(s, file, idx, portNumber) && DstPorts(s, file, idx, dportNumber))
    }

    /** Unless the run has been aborted, the input buffer holds the next flow, between hosts. */
    ghost predicate Ready()
      reads this
    {
      && Consistent()
      && (aborted ==> idx < flowNum && !Acceptable(s, file, idx))
      && (!aborted && idx < flowNum ==> input == Nth(file, idx) && IsHostNode(s, input.src) && IsHostNode(s, input.dst))
    }

    /** Reads the next flow into the buffer; running out of lines leaves it as it is. */
    method ReadFlowInput()
      requires Consistent() && !aborted && (if idx == 0 then input == ZERO_FLOW else input == Nth(file, idx - 1))
      modifies this`input, this`aborted
      ensures Ready()
    {
      hide AsPlanned, SrcPorts, DstPorts;
      if idx < flowNum {
        if idx < |file| { input := file[idx]; }
        assert input == Nth(file, idx);
        if !(IsHostNode(s, input.src) && IsHostNode(s, input.dst)) { aborted := true; }
      }
    }

    /** Installs the flow in the buffer and reads the next. */
    method InstallOne(now: int)
      requires Ready() && !aborted && idx < flowNum && input.t == now && Previous(file, idx) <= now
      modifies this
      ensures Ready()
      ensures if idx == old(idx) then aborted else idx == old(idx) + 1 && Nth(file, old(idx)).t == now
    {
      hide AsPlanned, SrcPorts, DstPorts, SrcPort, DstPort, Value, Nth, Entry, IsHostNode, Acceptable, Planned;
      var f := input;
      AcceptableIs(s, file, idx);
      PlannedIs(s, file, idx);
      PortValues(f);
      PortsStep(s, file, idx, portNumber, dportNumber);
      var sport := portNumber[f.src];
      portNumber := portNumber[f.src := (portNumber[f.src] + 1) % TWO16];
      var dport := dportNumber[f.dst];
      dportNumber := dportNumber[f.dst := (dportNumber[f.dst] + 1) % TWO16];
      var target := if f.size <= 0 then 1 else f.size;
      if Entry(s.pairRtt, f.src, f.dst).None? {
        aborted := true;
        return;
      }
      var x := Install(now, idx, f.src, f.dst, sport, dport, target,
                       if s.hasWin then (if s.globalT then s.maxBdp else Value(s.pairBdp, f.src, f.dst)) else 0,
                       if s.globalT then s.maxRtt else Value(s.pairRtt, f.src, f.dst));
      assert x == Planned(s, file, idx);
      OneMorePlanned(s, file, installed, x);
      installed := installed + [x];
      idx := idx + 1;
      ReadFlowInput();
    }

    lemma PortValues(f: Flow)
      requires Consistent() && !aborted && IsHostNode(s, f.src) && IsHostNode(s, f.dst)
      ensures f.src in portNumber && portNumber[f.src] == SrcPort(file, idx, f.src)
      ensures f.dst in dportNumber && dportNumber[f.dst] == DstPort(file, idx, f.dst)
    {
    }

    /** One event: installs every flow due now, then asks for the next event; a negative delay is refused. */
    method ScheduleFlowInputs(now: int) returns (delay: int)
      requires Ready() && !aborted && Previous(file, idx) <= now && ((idx == 0 && now == 0) || (idx < flowNum && input.t == now))
      modifies this
      ensures Ready() && old(idx) <= idx
      ensures !aborted && idx < flowNum ==> delay >= 0 && now + delay == input.t && input.t != now
      ensures !aborted && idx < flowNum ==> (idx > old(idx) ==> Previous(file, idx) == now) && (idx == old(idx) ==> old(input.t) != now)
    {
      delay := 0;
      hide Acceptable, Nth, AsPlanned, SrcPorts, DstPorts, IsHostNode;
      while !aborted && idx < flowNum && input.t == now
        invariant Ready() && old(idx) <= idx <= flowNum
        invariant Previous(file, idx) <= now && (idx > old(idx) ==> Previous(file, idx) == now)
        invariant idx == old(idx) && !aborted ==> input == old(input)
        decreases flowNum - idx, !aborted
      {
        InstallOne(now);
      }
      if !aborted && idx < flowNum {
        delay := input.t - now;
        if delay < 0 {
          AcceptableIs(s, file, idx);
          aborted := true;
        }
      }
    }

    /** The whole run, from time 0. It aborts exactly if some flow is not acceptable, at the first such flow;
        until then every flow read has been installed, in order, at its own start time. */
    method Run()
      requires Consistent() && !aborted && idx == 0 && input == ZERO_FLOW
      modifies this
      ensures |installed| == idx <= flowNum && AsPlanned(s, file, installed)
      ensures if aborted then idx < flowNum && !Acceptable(s, file, idx) else idx == flowNum
      ensures !aborted && file != [] ==> ((forall k :: 0 <= k < |file| ==> Times(file, idx, k) == 1) <==> flowNum == |file|)
    {
      if flowNum > 0 {
        hide AsPlanned, SrcPorts, DstPorts, Acceptable, Nth;
        ReadFlowInput();
        var now := 0;
        while !aborted && idx < flowNum
          invariant Ready() && (!aborted && idx < flowNum ==> Previous(file, idx) <= now)
          invariant !aborted && idx < flowNum ==> (idx == 0 && now == 0) || input.t == now
          decreases flowNum - idx, !aborted, if input.t != now then 1 else 0
        {
          var delay := ScheduleFlowInputs(now);
          now := now + delay;
        }
      }
      hide *;
      if !aborted && file != [] { EachLineOnce(s, file, idx, installed); }
    }
  }

  // ----- what the plan means

  lemma {:induction false} SentMonotone(file: seq<Flow>, i: nat, j: nat, a: nat)
    requires i <= j
    ensures SentBy(file, i, a) <= SentBy(file, j, a) && SentTo(file, i, a) <= SentTo(file, j, a)
    decreases j
  {
    if i < j { SentMonotone(file, i, j - 1, a); }
  }

  lemma SameResidue(c: nat, x: nat, y: nat)
    requires x <= y
    ensures (c + x) % TWO16 == (c + y) % TWO16 <==> (y - x) % TWO16 == 0
  {
  }

  /** Two flows of one source share a source port exactly when a multiple of 65536 of its flows lies between
      them, and two flows to one destination a destination port likewise. */
  lemma PortsCollide(s: Setting, file: seq<Flow>, i: nat, j: nat)
    requires i < j
    ensures Nth(file, i).src == Nth(file, j).src ==>
              (Planned(s, file, i).sport == Planned(s, file, j).sport
               <==> (SentBy(file, j, Nth(file, j).src) - SentBy(file, i, Nth(file, i).src)) % TWO16 == 0)
    ensures Nth(file, i).dst == Nth(file, j).dst ==>
              (Planned(s, file, i).dport == Planned(s, file, j).dport
               <==> (SentTo(file, j, Nth(file, j).dst) - SentTo(file, i, Nth(file, i).dst)) % TWO16 == 0)
  {
    hide SentBy, SentTo, Nth, Value;
    var f, g := Nth(file, i), Nth(file, j);
    SentMonotone(file, i, j, g.src);
    SentMonotone(file, i, j, g.dst);
    SameResidue(10000, SentBy(file, i, g.src), SentBy(file, j, g.src));
    SameResidue(100, SentTo(file, i, g.dst), SentTo(file, j, g.dst));
  }

  /** While no source and no destination has more than 65536 flows, ports tell all its flows apart. */
  lemma PortsAreDistinct(s: Setting, file: seq<Flow>, i: nat, j: nat, n: nat)
    requires i < j < n && forall a: nat :: SentBy(file, n, a) <= TWO16 && SentTo(file, n, a) <= TWO16
    ensures Nth(file, i).src == Nth(file, j).src ==> Planned(s, file, i).sport != Planned(s, file, j).sport
    ensures Nth(file, i).dst == Nth(file, j).dst ==> Planned(s, file, i).dport != Planned(s, file, j).dport
  {
    hide Nth, Planned;
    var f, g := Nth(file, i), Nth(file, j);
    PortsCollide(s, file, i, j);
    SentMonotone(file, i + 1, j, g.src);
    SentMonotone(file, i + 1, j, g.dst);
    SentMonotone(file, j + 1, n, g.src);
    SentMonotone(file, j + 1, n, g.dst);
  }

  /** Which of the first n installations leave from, or go to, a host. */
  ghost function Leaving(xs: seq<Install>, n: nat, a: nat): set<nat>
    requires n <= |xs|
  {
    set i: nat | i < n && xs[i].src == a
  }

  ghost function Arriving(xs: seq<Install>, n: nat, a: nat): set<nat>
    requires n <= |xs|
  {
    set i: nat | i < n && xs[i].dst == a
  }

  lemma {:induction false} CountsAre(s: Setting, file: seq<Flow>, xs: seq<Install>, n: nat, a: nat)
    requires AsPlanned(s, file, xs) && n <= |xs|
    ensures SentBy(file, n, a) == |Leaving(xs, n, a)| && SentTo(file, n, a) == |Arriving(xs, n, a)|
    decreases n
  {
    if n > 0 {
      assert xs[n - 1] == Planned(s, file, n - 1);
      assert xs[n - 1].src == Nth(file, n - 1).src && xs[n - 1].dst == Nth(file, n - 1).dst;
      hide Planned, Nth, AsPlanned;
      CountsAre(s, file, xs, n - 1, a);
      OneMoreElement(Leaving(xs, n - 1, a), Leaving(xs, n, a), n - 1);
      OneMoreElement(Arriving(xs, n - 1, a), Arriving(xs, n, a), n - 1);
    }
  }

  /** What every installation is: numbered in order, on the ports after those of the earlier flows of its source and to its
      destination, with at least one byte to send, and with the window and round-trip time of its pair or the largest ones. */
  lemma InstallsMean(s: Setting, file: seq<Flow>, xs: seq<Install>, i: nat)
    requires AsPlanned(s, file, xs) && i < |xs|
    ensures var x := xs[i];
      && x.id == i && x.length >= 1
      && x.sport == (10000 + |set j: nat | j < i && xs[j].src == x.src|) % 65536
      && x.dport == (100 + |set j: nat | j < i && xs[j].dst == x.dst|) % 65536
      && x.src < s.n && x.src !in s.sw && x.dst < s.n && x.dst !in s.sw && (i > 0 ==> xs[i - 1].at <= x.at)
    ensures var x := xs[i];
      && (s.globalT ==> x.rtt == s.maxRtt && x.window == if s.hasWin then s.maxBdp else 0)
      && (!s.globalT ==> x.src in s.pairRtt && x.dst in s.pairRtt[x.src] && x.rtt == s.pairRtt[x.src][x.dst])
      && (!s.globalT && s.hasWin && x.src in s.pairBdp && x.dst in s.pairBdp[x.src] ==> x.window == s.pairBdp[x.src][x.dst])
      && (!s.hasWin ==> x.window == 0)
  {
    var x := xs[i];
    assert x == Planned(s, file, i) && Acceptable(s, file, i);
    CountsAre(s, file, xs, i, x.src);
    CountsAre(s, file, xs, i, x.dst);
    assert Leaving(xs, i, x.src) == set j: nat | j < i && xs[j].src == x.src;
    assert Arriving(xs, i, x.dst) == set j: nat | j < i && xs[j].dst == x.dst;
    if i > 0 { assert xs[i - 1] == Planned(s, file, i - 1); }
    hide SentBy, SentTo, Leaving, Arriving, AsPlanned, Nth;
  }

  /** A run stops at a flow with an endpoint that is no host or no recorded round-trip time, or that starts before the one
      before it. */
  lemma WhenRefused(s: Setting, file: seq<Flow>, i: nat)
    requires i < |file|
    ensures !Acceptable(s, file, i)
      <==> (file[i].src >= s.n || file[i].src in s.sw || file[i].dst >= s.n || file[i].dst in s.sw
            || file[i].src !in s.pairRtt || file[i].dst !in s.pairRtt[file[i].src]
            || file[i].t < if i == 0 then 0 else file[i - 1].t)
  {
  }

  // ----- a count that is not the number of lines

  /** Which line of a non-empty file the buffer holds after the i-th read. */
  function LineAt(file: seq<Flow>, i: nat): (k: nat)
    requires file != []
    ensures k < |file| && Nth(file, i) == file[k]
  {
    if i < |file| then i else |file| - 1
  }

  /** How many of the first n installations are of line k. */
  function Times(file: seq<Flow>, n: nat, k: nat): nat
    requires file != []
  {
    if n == 0 then 0 else Times(file, n - 1, k) + (if LineAt(file, n - 1) == k then 1 else 0)
  }

  lemma {:induction false} TimesAre(file: seq<Flow>, n: nat, k: nat)
    requires file != [] && k < |file|
    ensures Times(file, n, k) == if k >= n then 0 else if k == |file| - 1 then n - k else 1
    decreases n
  {
    if n > 0 { TimesAre(file, n - 1, k); }
  }

  /** The installation carries out the line. */
  predicate Shows(x: Install, f: Flow) {
    x.at == f.t && x.src == f.src && x.dst == f.dst && x.length == if f.size <= 0 then 1 else f.size
  }

  /** A run that does not stop before its count installs every line exactly once if and only if the count is the
      number of lines. With a smaller count the remaining lines are never installed; a greater count installs
      the last line again for each flow it is too many. */
  lemma EachLineOnce(s: Setting, file: seq<Flow>, n: nat, installed: seq<Install>)
    requires file != [] && |installed| == n && AsPlanned(s, file, installed)
    ensures forall i :: 0 <= i < n ==> Shows(installed[i], file[LineAt(file, i)])
    ensures (forall k :: 0 <= k < |file| ==> Times(file, n, k) == 1) <==> n == |file|
    ensures n <= |file| ==> forall k :: 0 <= k < |file| ==> Times(file, n, k) == if k < n then 1 else 0
    ensures n >= |file| ==> Times(file, n, |file| - 1) == n - |file| + 1
    ensures n >= |file| ==> forall k :: 0 <= k < |file| - 1 ==> Times(file, n, k) == 1
  {
    forall k | 0 <= k < |file| ensures Times(file, n, k) == if k >= n then 0 else if k == |file| - 1 then n - k else 1 {
      TimesAre(file, n, k);
    }
    hide Times, SrcPort, DstPort, Value;
    assert n < |file| ==> Times(file, n, |file| - 1) == 0;
    assert n > |file| ==> Times(file, n, |file| - 1) == n - |file| + 1;
  }

  /** A file with one line and a count of two: nothing stops the run, and the line is installed twice. */
  lemma OneLineTwice(s: Setting, f: Flow, installed: seq<Install>)
    requires IsHostNode(s, f.src) && IsHostNode(s, f.dst) && Entry(s.pairRtt, f.src, f.dst).Some? && f.t >= 0
    ensures Acceptable(s, [f], 0) && Acceptable(s, [f], 1)
    ensures |installed| == 2 && AsPlanned(s, [f], installed) ==>
      && Shows(installed[0], f) && Shows(installed[1], f)
      && installed[0].sport == 10000 && installed[1].sport == 10001 && installed[0].dport == 100 && installed[1].dport == 101
  {
    assert SentBy([f], 1, f.src) == SentBy([f], 0, f.src) + 1 && SentTo([f], 1, f.dst) == SentTo([f], 0, f.dst) + 1;
    hide Entry, Value, IsHostNode;
  }
}
