/** The flow file: how the generators write it, patch its header, and how the simulator reads it. */
module FlowFile {
  import opened Decimal
  import opened Topology
  import opened Traffic

  // ----- text

  const HEADER_WIDTH := 16
  const BILLION := 1_000_000_000
  const TWO32 := 0x1_0000_0000

  predicate IsBlank(c: char) {
    c == ' ' || c == '\n'
  }

  function Spaces(n: nat): string {
    seq(n, _ => ' ')
  }

  /** A number in a field of sixteen, wider if it does not fit, and a newline. */
  function Header(n: nat): string {
    var s := ToString(n);
    Spaces(if |s| < HEADER_WIDTH then HEADER_WIDTH - |s| else 0) + s + "\n"
  }

  /** `n` in exactly `w` digits. */
  function Fixed(w: nat, n: nat): (s: string)
    ensures |s| == w && AllDigits(s)
  {
    if w == 0 then "" else Fixed(w - 1, n / 10) + [DigitOf(n % 10)]
  }

  /** A time in nanoseconds, written in seconds. */
  function Seconds(t: nat): string {
    ToString(t / BILLION) + "." + Fixed(9, t % BILLION)
  }

  function Line(f: Flow): string
    requires f.size >= 0 && f.t >= 0
  {
    ToString(f.src) + " " + ToString(f.dst) + " 3 " + ToString(f.size) + " " + Seconds(f.t) + "\n"
  }

  predicate Printable(fs: seq<Flow>) {
    forall i :: 0 <= i < |fs| ==> fs[i].size >= 0 && fs[i].t >= 0
  }

  function Body(fs: seq<Flow>): string
    requires Printable(fs)
  {
    if fs == [] then "" else Line(fs[0]) + Body(fs[1..])
  }

  /** Writing at the start of a file that is already there. */
  function Overwrite(file: string, s: string): string {
    if |s| <= |file| then s + file[|s|..] else s
  }

  // ----- reading, the way stream extraction does

  datatype Read<T> = Got(value: T, rest: string) | Failed

  function WordLength(s: string): nat
    ensures WordLength(s) <= |s| && forall i :: 0 <= i < WordLength(s) ==> !IsBlank(s[i])
  {
    if s == "" || IsBlank(s[0]) then 0 else 1 + WordLength(s[1..])
  }

  /** The next word, leading blanks skipped. */
  function Word(s: string): (string, string)
    decreases |s|
  {
    if s != "" && IsBlank(s[0]) then Word(s[1..]) else (s[..WordLength(s)], s[WordLength(s)..])
  }

  /** Extraction of an unsigned 32-bit number; one that does not fit fails. */
  function ReadU32(s: string): Read<nat> {
    var (w, rest) := Word(s);
    if w != "" && AllDigits(w) && ToNat(w) < TWO32 then Got(ToNat(w), rest) else Failed
  }

  /** Extraction of a time written in seconds with nine decimals, in nanoseconds. */
  function ReadTime(s: string): Read<nat> {
    var (w, rest) := Word(s);
    if |w| > 10 && w[|w| - 10] == '.' && AllDigits(w[..|w| - 10]) && AllDigits(w[|w| - 9..])
    then Got(ToNat(w[..|w| - 10]) * BILLION + ToNat(w[|w| - 9..]), rest)
    else Failed
  }

  function ReadFlow(s: string): Read<Flow> {
    match ReadU32(s)
    case Failed => Failed
    case Got(src, r0) =>
      match ReadU32(r0)
      case Failed => Failed
      case Got(dst, r1) =>
        match ReadU32(r1)
        case Failed => Failed
        case Got(_, r2) =>
          match ReadU32(r2)
          case Failed => Failed
          case Got(size, r3) =>
            match ReadTime(r3)
            case Failed => Failed
            case Got(t, r4) => Got(Flow(src, dst, size, t), r4)
  }

  function ReadFlows(s: string, n: nat): Read<seq<Flow>>
    decreases n
  {
    if n == 0 then Got([], s)
    else match ReadFlow(s)
      case Failed => Failed
      case Got(f, rest) =>
        match ReadFlows(rest, n - 1)
        case Failed => Failed
        case Got(fs, rest') => Got([f] + fs, rest')
  }

  /** The flow count, then as many flows. */
  function ReadFile(s: string): Read<seq<Flow>> {
    match ReadU32(s)
    case Failed => Failed
    case Got(n, rest) => ReadFlows(rest, n)
  }

  // ----- what is written is read back

  lemma {:induction false} WordIs(w: string, rest: string)
    requires (forall i :: 0 <= i < |w| ==> !IsBlank(w[i])) && rest != "" && IsBlank(rest[0])
    ensures WordLength(w + rest) == |w|
  {
    if w == "" {
      assert w + rest == rest;
    } else {
      assert (w + rest)[1..] == w[1..] + rest;
      WordIs(w[1..], rest);
    }
  }

  lemma {:induction false} WordAfterSpaces(n: nat, w: string, rest: string)
    requires w != "" && (forall i :: 0 <= i < |w| ==> !IsBlank(w[i])) && rest != "" && IsBlank(rest[0])
    ensures Word(Spaces(n) + w + rest) == (w, rest)
  {
    var s := Spaces(n) + w + rest;
    if n == 0 {
      assert s == w + rest;
      WordIs(w, rest);
      assert (w + rest)[..|w|] == w && (w + rest)[|w|..] == rest;
    } else {
      assert s[1..] == Spaces(n - 1) + w + rest;
      WordAfterSpaces(n - 1, w, rest);
    }
  }

  lemma DigitsAreNoBlanks(w: string)
    requires AllDigits(w)
    ensures forall i :: 0 <= i < |w| ==> !IsBlank(w[i])
  {
  }

  lemma NumberIsRead(n: nat, lead: nat, rest: string)
    requires rest != "" && IsBlank(rest[0])
    ensures ReadU32(Spaces(lead) + ToString(n) + rest) == if n < TWO32 then Got(n, rest) else Failed
  {
    DigitsAreNoBlanks(ToString(n));
    WordAfterSpaces(lead, ToString(n), rest);
    ReadBack(n);
  }

  lemma {:induction false} FixedReadBack(w: nat, n: nat)
    requires n < Pow10(w)
    ensures ToNat(Fixed(w, n)) == n
  {
    if w > 0 {
      FixedReadBack(w - 1, n / 10);
      var s := Fixed(w, n);
      assert s[..|s| - 1] == Fixed(w - 1, n / 10);
    }
  }

  lemma TimeIsRead(t: nat, rest: string)
    requires rest != "" && IsBlank(rest[0])
    ensures ReadTime(" " + Seconds(t) + rest) == Got(t, rest)
  {
    var a, b := ToString(t / BILLION), Fixed(9, t % BILLION);
    var w := Seconds(t);
    assert Pow10(9) == BILLION by { PowersOfTen(); }
    assert w == a + "." + b && |b| == 9 && AllDigits(b);
    TimeWord(a, b);
    assert t == t / BILLION * BILLION + t % BILLION;
    hide Fixed, Seconds, ToString, ToNat, Pow10;
    ReadBack(t / BILLION);
    FixedReadBack(9, t % BILLION);
    assert " " + w + rest == Spaces(1) + w + rest;
    WordAfterSpaces(1, w, rest);
  }

  /** A word of digits, a point and nine digits, and its slices. */
  lemma TimeWord(a: string, b: string)
    requires AllDigits(a) && a != "" && |b| == 9 && AllDigits(b)
    ensures var w := a + "." + b;
      && |w| > 10 && w[..|w| - 10] == a && w[|w| - 9..] == b && w[|w| - 10] == '.'
      && forall i :: 0 <= i < |w| ==> !IsBlank(w[i])
  {
    var w := a + "." + b;
    assert forall i :: 0 <= i < |w| ==> w[i] == if i < |a| then a[i] else if i == |a| then '.' else b[i - |a| - 1];
  }

  lemma PowersOfTen()
    ensures Pow10(9) == BILLION && Pow10(16) == 10_000_000_000_000_000
  {
    assert Pow10(5) == 100_000;
    assert Pow10(9) == 10 * (10 * (10 * (10 * Pow10(5))));
    assert Pow10(13) == 10 * (10 * (10 * (10 * Pow10(9))));
  }

  predicate Fits(f: Flow) {
    f.src < 4_294_967_296 && f.dst < 4_294_967_296 && f.size < 4_294_967_296
  }

  /** A line is read back as its flow, if the numbers fit in 32 bits, and only then. */
  lemma LineIsRead(f: Flow, rest: string)
    requires f.size >= 0 && f.t >= 0
    ensures ReadFlow(Line(f) + rest) == if Fits(f) then Got(f, "\n" + rest) else Failed
  {
    var r4 := "\n" + rest;
    var r3 := " " + Seconds(f.t) + r4;
    var r2 := " " + ToString(f.size) + r3;
    var r1 := " " + ToString(3) + r2;
    var r0 := " " + ToString(f.dst) + r1;
    LineIs(f, rest);
    assert Spaces(0) == "" && Spaces(1) == " ";
    hide ReadU32, ReadTime, Line, Seconds, ToString, Spaces;
    assert Spaces(0) + ToString(f.src) + r0 == ToString(f.src) + r0;
    NumberIsRead(f.src, 0, r0);
    NumberIsRead(f.dst, 1, r1);
    NumberIsRead(3, 1, r2);
    NumberIsRead(f.size, 1, r3);
    TimeIsRead(f.t, r4);
  }

  lemma LineIs(f: Flow, rest: string)
    requires f.size >= 0 && f.t >= 0
    ensures Line(f) + rest == ToString(f.src) + (" " + ToString(f.dst) + (" " + ToString(3) + (" " + ToString(f.size)
                              + (" " + Seconds(f.t) + ("\n" + rest)))))
  {
    assert ToString(3) == "3";
    hide ToString, Seconds;
  }

  lemma SkipNewline(s: string)
    ensures ReadFlow("\n" + s) == ReadFlow(s)
  {
    assert ("\n" + s)[1..] == s;
    assert ReadU32("\n" + s) == ReadU32(s);
    hide ReadU32, ReadTime;
  }

  predicate AllFit(fs: seq<Flow>) {
    forall i :: 0 <= i < |fs| ==> Fits(fs[i])
  }

  lemma ReadOneMore(f: Flow, body: string, fs: seq<Flow>)
    requires f.size >= 0 && f.t >= 0
    requires ReadFlows("\n" + body, |fs|) == if AllFit(fs) then Got(fs, "\n") else Failed
    ensures ReadFlows("\n" + (Line(f) + body), |fs| + 1) == if Fits(f) && AllFit(fs) then Got([f] + fs, "\n") else Failed
  {
    hide Line, ReadFlow, Fits, AllFit;
    SkipNewline(Line(f) + body);
    LineIsRead(f, body);
  }

  lemma AllFitCons(f: Flow, fs: seq<Flow>)
    ensures AllFit([f] + fs) <==> Fits(f) && AllFit(fs)
  {
    hide Fits;
    var all := [f] + fs;
    assert forall i :: 0 <= i < |fs| ==> fs[i] == all[i + 1];
    assert all[0] == f;
  }

  /** The lines are read back as the flows, if every number fits in 32 bits, and only then. */
  lemma {:induction false} BodyIsRead(fs: seq<Flow>)
    requires Printable(fs)
    ensures ReadFlows("\n" + Body(fs), |fs|) == if AllFit(fs) then Got(fs, "\n") else Failed
    decreases |fs|
  {
    hide *;
    if fs == [] {
      NoLinesAreRead();
    } else {
      var f, rest := fs[0], fs[1..];
      FirstLine(fs);
      BodyIsRead(rest);
      ReadOneMore(f, Body(rest), rest);
      AllFitCons(f, rest);
    }
  }

  lemma NoLinesAreRead()
    ensures ReadFlows("\n" + Body([]), 0) == Got([], "\n") && AllFit([])
  {
  }

  lemma FirstLine(fs: seq<Flow>)
    requires fs != [] && Printable(fs)
    ensures Printable(fs[1..]) && fs[0].size >= 0 && fs[0].t >= 0
    ensures Body(fs) == Line(fs[0]) + Body(fs[1..]) && fs == [fs[0]] + fs[1..] && |fs| == |fs[1..]| + 1
  {
    hide Line;
  }

  lemma HeaderIsRead(n: nat, rest: string)
    ensures ReadU32(Header(n) + rest) == if n < TWO32 then Got(n, "\n" + rest) else Failed
  {
    var lead := if |ToString(n)| < HEADER_WIDTH then HEADER_WIDTH - |ToString(n)| else 0;
    assert Header(n) + rest == Spaces(lead) + ToString(n) + ("\n" + rest);
    hide ReadU32, Header, ToString, Spaces;
    NumberIsRead(n, lead, "\n" + rest);
  }

  /** A whole file, header and lines, is read back as its flows, if every number fits in 32 bits, and only then. */
  lemma FileIsRead(fs: seq<Flow>)
    requires Printable(fs)
    ensures ReadFile(Header(|fs|) + Body(fs)) == if AllFit(fs) && |fs| < TWO32 then Got(fs, "\n") else Failed
  {
    hide ReadU32, ReadFlows, Header, Body, AllFit, Printable;
    HeaderIsRead(|fs|, Body(fs));
    BodyIsRead(fs);
  }

  /** A file whose count was never patched gives the estimate and then its lines, after which extraction fails
      at the end of the file. */
  lemma UnpatchedFileIsRead(estimate: nat, fs: seq<Flow>)
    requires Printable(fs) && AllFit(fs) && estimate < TWO32
    ensures ReadU32(Header(estimate) + Body(fs)) == Got(estimate, "\n" + Body(fs))
    ensures ReadFlows("\n" + Body(fs), |fs|) == Got(fs, "\n") && ReadFlow("\n") == Failed
  {
    NothingLeft();
    hide *;
    HeaderIsRead(estimate, Body(fs));
    BodyIsRead(fs);
  }

  lemma NothingLeft()
    ensures ReadFlow("\n") == Failed
  {
    assert "\n"[1..] == "";
    assert Word("\n") == Word("");
  }

  // ----- patching the header

  lemma {:induction false} DigitCount(n: nat, w: nat)
    requires w >= 1
    ensures |ToString(n)| <= w <==> n < Pow10(w)
    decreases w
  {
    if w == 1 {
      assert Pow10(1) == 10;
    } else if n >= 10 {
      DigitCount(n / 10, w - 1);
    }
  }

  /** A header takes seventeen characters exactly when its number has at most sixteen digits. */
  lemma HeaderLength(n: nat)
    ensures |Header(n)| >= HEADER_WIDTH + 1 && (|Header(n)| == HEADER_WIDTH + 1 <==> n < 10_000_000_000_000_000)
  {
    PowersOfTen();
    DigitCount(n, HEADER_WIDTH);
    hide ToString, Pow10;
  }

  /** Writing the true count over the estimate leaves the lines intact exactly when the two headers are
      equally long, so in particular when both numbers have at most sixteen digits. */
  lemma PatchKeepsBody(estimate: nat, fs: seq<Flow>)
    requires Printable(fs)
    ensures Overwrite(Header(estimate) + Body(fs), Header(|fs|)) == Header(|fs|) + Body(fs) <==> |Header(estimate)| == |Header(|fs|)|
    ensures estimate < 10_000_000_000_000_000 && |fs| < 10_000_000_000_000_000 ==> |Header(estimate)| == |Header(|fs|)|
  {
    HeaderLength(estimate);
    HeaderLength(|fs|);
    var h, h', b := Header(estimate), Header(|fs|), Body(fs);
    BodyIsLong(fs);
    if fs == [] {
      assert ToString(0) == "0";
    }
    hide Header, Body;
    if |h| == |h'| {
      assert (h + b)[|h'|..] == b;
    }
  }

  lemma BodyIsLong(fs: seq<Flow>)
    requires Printable(fs)
    ensures fs == [] <==> Body(fs) == ""
  {
  }

  // ----- the generators

  /** The list of servers, datacenter by datacenter. */
  method ServerIndices(p: Params) returns (l: seq<(nat, nat)>)
    ensures |l| == p.dcs * ServersPerDc(p)
    ensures forall n :: 0 <= n < |l| ==> l[n].0 < p.dcs && l[n].1 < ServersPerDc(p) && Radix(l[n].0, l[n].1, ServersPerDc(p)) == n
  {
    l := [];
    var s := ServersPerDc(p);
    hide ServersPerDc;
    for dc := 0 to p.dcs
      invariant |l| == dc * s
      invariant forall n :: 0 <= n < |l| ==> l[n].0 < p.dcs && l[n].1 < s && Radix(l[n].0, l[n].1, s) == n
    {
      for i := 0 to s
        invariant |l| == dc * s + i
        invariant forall n :: 0 <= n < |l| ==> l[n].0 < p.dcs && l[n].1 < s && Radix(l[n].0, l[n].1, s) == n
      {
        l := l + [(dc, i)];
      }
    }
  }

  /** The sources are the servers, each once, with the given first arrivals. */
  ghost predicate StartsAt(p: Params, first: seq<nat>, hosts: seq<Host>) {
    && HeapOk(p, hosts) && |hosts| == |first| && (forall n :: 0 <= n < |hosts| ==> hosts[n].t == 2_000_000_000 + first[n])
    && forall dc: nat, i: nat :: dc < p.dcs && i < ServersPerDc(p) ==> InHeap(GetServerId(p, i, dc), hosts)
  }

  lemma SourcesOk(p: Params, first: seq<nat>, hosts: seq<Host>)
    requires StartsAt(p, first, hosts)
    ensures HeapOk(p, hosts)
  {
    hide HeapOk, InHeap;
  }

  /** Every server becomes a source, with its first arrival. */
  method StartHosts(p: Params, first: seq<nat>) returns (hosts: seq<Host>)
    requires |first| == p.dcs * ServersPerDc(p)
    ensures StartsAt(p, first, hosts)
  {
    hide GetServerId, ServersPerDc;
    var l := ServerIndices(p);
    hosts := [];
    for n := 0 to |l|
      invariant |hosts| == n
      invariant forall m :: 0 <= m < n ==> hosts[m] == Host(BASE_T + first[m], GetServerId(p, l[m].1, l[m].0), l[m].0, l[m].1)
    {
      hosts := hosts + [Host(BASE_T + first[n], GetServerId(p, l[n].1, l[n].0), l[n].0, l[n].1)];
    }
    forall i, j | 0 <= i < j < |hosts| ensures hosts[i].id != hosts[j].id {
      IdsAgree(p, l[i].0, l[i].1, l[j].0, l[j].1);
    }
    forall dc: nat, i: nat | dc < p.dcs && i < ServersPerDc(p) ensures InHeap(GetServerId(p, i, dc), hosts) {
      var s := ServersPerDc(p);
      RadixBound(dc, i, p.dcs, s);
      var n := Radix(dc, i, s);
      RadixUnique(dc, i, l[n].0, l[n].1, s);
      assert hosts[n].id == GetServerId(p, i, dc);
    }
  }

  lemma RunIsPrintable(p: Params, phase: Phase, hosts: seq<Host>, draws: seq<Draw>, limit: int, flows: seq<Flow>, tr: Trace)
    requires IsRun(p, phase, hosts, draws, limit, flows, tr)
    ensures Printable(flows)
  {
    hide TimesRise, OnTime, FromDraws;
    assert forall i :: 0 <= i < |flows| ==> FlowOk(p, phase, limit, flows[i]);
  }

  /** A finished file says how many flows it holds, and reads back as them. */
  ghost predicate Written(text: string, estimate: nat, flows: seq<Flow>) {
    && Printable(flows)
    && (estimate < 10_000_000_000_000_000 && |flows| < 10_000_000_000_000_000 ==> text == Header(|flows|) + Body(flows))
    && (estimate < 10_000_000_000_000_000 && |flows| < TWO32 && AllFit(flows) ==> ReadFile(text) == Got(flows, "\n"))
  }

  /** The estimate is written first and the count over it at the end. */
  method WriteFile(estimate: nat, flows: seq<Flow>) returns (text: string)
    requires Printable(flows)
    ensures Written(text, estimate, flows)
  {
    text := Header(estimate);
    text := text + Body(flows);
    text := Overwrite(text, Header(|flows|));
    PatchKeepsBody(estimate, flows);
    FileIsRead(flows);
    hide Header, Body, Overwrite, ReadFile, AllFit;
  }

  /** The intra-datacenter generator. */
  method GenerateIntraOnly(p: Params, estimate: nat, first: seq<nat>, draws: seq<Draw>, limit: int)
    returns (text: string, flows: seq<Flow>, finished: bool, ghost hosts: seq<Host>, ghost tr: Trace)
    requires |first| == p.dcs * ServersPerDc(p) && forall i :: 0 <= i < |draws| ==> DrawOk(p, Intra, draws[i])
    ensures TimesRise(flows) && AllOk(p, Intra, limit, flows) && (finished ==> Written(text, estimate, flows))
    ensures StartsAt(p, first, hosts) && IsRun(p, Intra, hosts, draws, limit, flows, tr)
    ensures finished ==> IsOver(hosts, flows, limit, tr)
  {
    hide *;
    var start := StartHosts(p, first);
    hosts := start;
    SourcesOk(p, first, start);
    flows, finished, tr := RunPhase(p, Intra, start, draws, limit);
    RunIsPrintable(p, Intra, hosts, draws, limit, flows, tr);
    text := WriteFile(estimate, flows);
  }

  lemma BothPrintable(a: seq<Flow>, b: seq<Flow>)
    requires Printable(a) && Printable(b)
    ensures Printable(a + b)
  {
  }

  /** The cross-datacenter generator: first the flows inside the datacenters, then those between them. */
  method GenerateMixed(p: Params, estimate: nat, firstIntra: seq<nat>, drawsIntra: seq<Draw>, firstInter: seq<nat>,
                       drawsInter: seq<Draw>, limit: int)
    returns (text: string, intra: seq<Flow>, inter: seq<Flow>, finished: bool, ghost hosts: seq<Host>, ghost hosts': seq<Host>,
             ghost tr: Trace, ghost tr': Trace)
    requires |firstIntra| == |firstInter| == p.dcs * ServersPerDc(p)
    requires forall i :: 0 <= i < |drawsIntra| ==> DrawOk(p, Intra, drawsIntra[i])
    requires forall i :: 0 <= i < |drawsInter| ==> DrawOk(p, Inter, drawsInter[i])
    ensures TimesRise(intra) && AllOk(p, Intra, limit, intra) && TimesRise(inter) && AllOk(p, Inter, limit, inter)
    ensures finished ==> Written(text, estimate, intra + inter)
    ensures StartsAt(p, firstIntra, hosts) && IsRun(p, Intra, hosts, drawsIntra, limit, intra, tr)
    ensures StartsAt(p, firstInter, hosts') && IsRun(p, Inter, hosts', drawsInter, limit, inter, tr')
    ensures finished ==> IsOver(hosts, intra, limit, tr) && IsOver(hosts', inter, limit, tr')
  {
    hide *;
    var start := StartHosts(p, firstIntra);
    hosts := start;
    SourcesOk(p, firstIntra, start);
    intra, finished, tr := RunPhase(p, Intra, start, drawsIntra, limit);
    var start' := StartHosts(p, firstInter);
    hosts' := start';
    SourcesOk(p, firstInter, start');
    var finished';
    inter, finished', tr' := RunPhase(p, Inter, start', drawsInter, limit);
    finished := finished && finished';
    RunIsPrintable(p, Intra, hosts, drawsIntra, limit, intra, tr);
    RunIsPrintable(p, Inter, hosts', drawsInter, limit, inter, tr');
    BothPrintable(intra, inter);
    text := WriteFile(estimate, intra + inter);
  }

  // ----- the analysis tells the phases apart

  /** The filter of the flow-completion-time analysis, which reads node ids only. */
  method KeepIntraDc(p: Params, flows: seq<Flow>) returns (kept: seq<Flow>)
    ensures kept == IntraDcOf(p, flows)
  {
    hide IsIntraDcFlow;
    kept := [];
    for i := 0 to |flows|
      invariant kept == IntraDcOf(p, flows[..i])
    {
      assert flows[..i + 1][..i] == flows[..i];
      if IsIntraDcFlow(p, flows[i].src, flows[i].dst) { kept := kept + [flows[i]]; }
    }
    assert flows[..|flows|] == flows;
  }

  function IntraDcOf(p: Params, flows: seq<Flow>): seq<Flow> {
    if flows == [] then []
    else IntraDcOf(p, flows[..|flows| - 1])
         + (var f := flows[|flows| - 1]; if IsIntraDcFlow(p, f.src, f.dst) then [f] else [])
  }

  /** The filter keeps, in their order, the flows at exactly the places where both ends are in one datacenter. */
  lemma {:induction false} KeptAre(p: Params, flows: seq<Flow>) returns (at: seq<nat>)
    ensures |at| == |IntraDcOf(p, flows)| && forall k :: 0 <= k < |at| ==> at[k] < |flows| && IntraDcOf(p, flows)[k] == flows[at[k]]
    ensures forall j, k :: 0 <= j < k < |at| ==> at[j] < at[k]
    ensures forall i: nat :: i < |flows| ==> (i in at <==> IsIntraDcFlow(p, flows[i].src, flows[i].dst))
    decreases |flows|
  {
    hide IsIntraDcFlow;
    at := [];
    if flows != [] {
      var m := |flows| - 1;
      at := KeptAre(p, flows[..m]);
      if IsIntraDcFlow(p, flows[m].src, flows[m].dst) { at := at + [m]; }
    }
  }

  /** Of flows in any order, such as that of their completion, the analysis keeps exactly those of the first phase. */
  lemma AnalysisKeepsIntra(p: Params, limit: int, flows: seq<Flow>, intra: set<nat>) returns (at: seq<nat>)
    requires forall i: nat :: i < |flows| ==> FlowOk(p, if i in intra then Intra else Inter, limit, flows[i])
    ensures |at| == |IntraDcOf(p, flows)| && forall k :: 0 <= k < |at| ==> at[k] < |flows| && IntraDcOf(p, flows)[k] == flows[at[k]]
    ensures forall j, k :: 0 <= j < k < |at| ==> at[j] < at[k]
    ensures forall i: nat :: i < |flows| ==> (i in at <==> i in intra)
  {
    at := KeptAre(p, flows);
    hide IsIntraDcFlow, FlowOk, IntraDcOf;
    forall i: nat | i < |flows| ensures i in at <==> i in intra {
      PhaseOfFlow(p, if i in intra then Intra else Inter, limit, flows[i]);
    }
  }

  lemma PhaseOfFlow(p: Params, phase: Phase, limit: int, f: Flow)
    requires FlowOk(p, phase, limit, f)
    ensures IsIntraDcFlow(p, f.src, f.dst) <==> phase.Intra?
    ensures f.src != f.dst
  {
    hide GetServerId, IsIntraDcFlow;
    var i: nat, dc: nat, j: nat, dc': nat :| Endpoints(p, phase, f, i, dc, j, dc');
    IdsAgree(p, dc, i, dc', j);
  }

  /** Whatever the random numbers, the analysis keeps of a mixed file exactly the first phase's flows. */
  lemma {:induction false} AnalysisKeepsFirstPhase(p: Params, limit: int, intra: seq<Flow>, inter: seq<Flow>)
    requires AllOk(p, Intra, limit, intra) && AllOk(p, Inter, limit, inter)
    ensures IntraDcOf(p, intra + inter) == intra
    decreases |intra| + |inter|
  {
    hide IsIntraDcFlow, FlowOk;
    var all := intra + inter;
    if inter != [] {
      var m := |inter| - 1;
      PhaseOfFlow(p, Inter, limit, inter[m]);
      assert all[..|all| - 1] == intra + inter[..m];
      AnalysisKeepsFirstPhase(p, limit, intra, inter[..m]);
    } else if intra != [] {
      var m := |intra| - 1;
      PhaseOfFlow(p, Intra, limit, intra[m]);
      assert all == intra && all[..|all| - 1] == intra[..m] + inter;
      AnalysisKeepsFirstPhase(p, limit, intra[..m], inter);
    }
  }
}
