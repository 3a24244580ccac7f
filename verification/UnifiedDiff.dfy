/** Unified diffs: printing patches and parsing them back. */
module UnifiedDiff {
  import opened Options
  import opened Decimal
  import opened Loops

  // ----- what a patch says

  datatype Kind = Unset | Src | Dst | Both

  datatype Line = Line(kind: Kind, text: string)

  datatype ChunkValue = ChunkValue(srcPos: nat, dstPos: nat, lines: seq<Line>)

  datatype PatchValue = PatchValue(src: string, dst: string, chunks: seq<ChunkValue>)

  predicate IsSrc(l: Line) { l.kind == Src || l.kind == Both }

  predicate IsDst(l: Line) { l.kind == Dst || l.kind == Both }

  function SrcLen(ls: seq<Line>): nat {
    if ls == [] then 0 else SrcLen(ls[..|ls| - 1]) + (if IsSrc(ls[|ls| - 1]) then 1 else 0)
  }

  function DstLen(ls: seq<Line>): nat {
    if ls == [] then 0 else DstLen(ls[..|ls| - 1]) + (if IsDst(ls[|ls| - 1]) then 1 else 0)
  }

  // ----- the printed form

  function LineText(l: Line): string {
    match l.kind
    case Src => "-" + l.text + "\n"
    case Dst => "+" + l.text + "\n"
    case _ => " " + l.text + "\n"
  }

  function LineTexts(ls: seq<Line>): seq<string> {
    if ls == [] then [] else LineTexts(ls[..|ls| - 1]) + [LineText(ls[|ls| - 1])]
  }

  function Header(c: ChunkValue): string {
    "@@ -" + ToString(c.srcPos) + "," + ToString(SrcLen(c.lines)) + " +" + ToString(c.dstPos) + "," + ToString(DstLen(c.lines)) + " @@\n"
  }

  function ChunkTexts(c: ChunkValue): seq<string> {
    [Header(c)] + LineTexts(c.lines)
  }

  function ChunksTexts(cs: seq<ChunkValue>): seq<string> {
    if cs == [] then [] else ChunksTexts(cs[..|cs| - 1]) + ChunkTexts(cs[|cs| - 1])
  }

  function PatchTexts(p: PatchValue): seq<string> {
    ["--- " + p.src + "\n", "+++ " + p.dst + "\n"] + ChunksTexts(p.chunks)
  }

  function PatchsetTexts(ps: seq<PatchValue>): seq<string> {
    if ps == [] then [] else PatchsetTexts(ps[..|ps| - 1]) + PatchTexts(ps[|ps| - 1])
  }

  // ----- what the printed counts say

  /** Which of the first n lines are of one of two kinds. */
  ghost function Where(ls: seq<Line>, n: nat, a: Kind, b: Kind): set<nat>
    requires n <= |ls|
  {
    set i: nat | i < n && (ls[i].kind == a || ls[i].kind == b)
  }

  lemma OneMoreLine(ls: seq<Line>, n: nat, a: Kind, b: Kind)
    requires n < |ls|
    ensures |Where(ls, n + 1, a, b)| == |Where(ls, n, a, b)| + (if ls[n].kind == a || ls[n].kind == b then 1 else 0)
  {
    var more, s := Where(ls, n + 1, a, b), Where(ls, n, a, b);
    forall i: nat ensures i in more <==> i in s || (i == n && (ls[n].kind == a || ls[n].kind == b)) {
    }
    assert n !in s;
    hide *;
    OneMoreElement(s, more, n);
  }

  /** The lengths are how many lines are in the old file, and how many in the new one. */
  lemma LengthsCount(ls: seq<Line>)
    ensures SrcLen(ls) == |Where(ls, |ls|, Src, Both)| && DstLen(ls) == |Where(ls, |ls|, Dst, Both)|
  {
    PrefixCount(ls, |ls|);
    assert ls[..|ls|] == ls;
    hide *;
  }

  lemma {:induction false} PrefixCount(ls: seq<Line>, n: nat)
    requires n <= |ls|
    ensures SrcLen(ls[..n]) == |Where(ls, n, Src, Both)| && DstLen(ls[..n]) == |Where(ls, n, Dst, Both)|
    decreases n
  {
    if n > 0 {
      assert ls[..n][..n - 1] == ls[..n - 1];
      hide Where;
      PrefixCount(ls, n - 1);
      OneMoreLine(ls, n - 1, Src, Both);
      OneMoreLine(ls, n - 1, Dst, Both);
    }
  }

  lemma {:induction false} LineTextAt(ls: seq<Line>, i: nat)
    requires i < |ls|
    ensures |LineTexts(ls)| == |ls| && LineTexts(ls)[i] == LineText(ls[i])
    decreases |ls|
  {
    hide LineText;
    if i < |ls| - 1 { LineTextAt(ls[..|ls| - 1], i); } else { LineTextsLength(ls); }
  }

  lemma {:induction false} LineTextsLength(ls: seq<Line>)
    ensures |LineTexts(ls)| == |ls|
    decreases |ls|
  {
    if ls != [] { LineTextsLength(ls[..|ls| - 1]); }
  }

  /** Which of the texts begin with a character or with a blank. */
  ghost function Begin(ts: seq<string>, a: char): set<nat> {
    set i: nat | i < |ts| && OneOf(ts[i], a)
  }

  lemma TextBegins(l: Line)
    requires l.kind != Unset
    ensures LineText(l) != "" && LineText(l)[0] == if l.kind == Src then '-' else if l.kind == Dst then '+' else ' '
  {
  }

  predicate OneOf(t: string, a: char) {
    t != "" && (t[0] == a || t[0] == ' ')
  }

  lemma SameIndices(ts: seq<string>, ls: seq<Line>, a: char, k: Kind)
    requires |ts| == |ls| && forall i: nat :: i < |ls| ==> (OneOf(ts[i], a) <==> ls[i].kind == k || ls[i].kind == Both)
    ensures Begin(ts, a) == Where(ls, |ls|, k, Both)
  {
    hide OneOf;
  }

  lemma BeginWhere(ls: seq<Line>)
    requires AllSet(ls)
    ensures Begin(LineTexts(ls), '-') == Where(ls, |ls|, Src, Both)
    ensures Begin(LineTexts(ls), '+') == Where(ls, |ls|, Dst, Both)
  {
    LineTextsLength(ls);
    var ts := LineTexts(ls);
    forall i: nat | i < |ls|
      ensures (OneOf(ts[i], '-') <==> ls[i].kind == Src || ls[i].kind == Both) && (OneOf(ts[i], '+') <==> ls[i].kind == Dst || ls[i].kind == Both)
    {
      LineTextAt(ls, i);
      TextBegins(ls[i]);
    }
    hide *;
    SameIndices(ts, ls, '-', Src);
    SameIndices(ts, ls, '+', Dst);
  }

  /** A printed chunk announces as many old lines as there are lines after the header that begin with '-' or ' ', and as
      many new lines as begin with '+' or ' '. */
  lemma HeaderCounts(c: ChunkValue)
    requires AllSet(c.lines)
    ensures var ts := ChunkTexts(c);
      && |ts| == |c.lines| + 1
      && ts[0] == "@@ -" + ToString(c.srcPos) + "," + ToString(|Begin(ts[1..], '-')|)
                + " +" + ToString(c.dstPos) + "," + ToString(|Begin(ts[1..], '+')|) + " @@\n"
  {
    var ts := ChunkTexts(c);
    LineTextsLength(c.lines);
    assert ts[1..] == LineTexts(c.lines);
    BeginWhere(c.lines);
    LengthsCount(c.lines);
    hide ToString, Begin, Where, LineTexts, SrcLen, DstLen, AllSet;
  }

  // ----- what a line of text is

  datatype Token =
    | SrcFile(name: string)
    | DstFile(name: string)
    | ChunkStart(srcPos: nat, dstPos: nat)
    | Body(l: Line)
    | Junk

  /** A line without its newline. */
  function Chomp(s: string): string {
    if s != "" && s[|s| - 1] == '\n' then s[..|s| - 1] else s
  }

  predicate StartsWith(s: string, w: string) {
    |w| <= |s| && s[..|w|] == w
  }

  function DigitSpan(s: string): (n: nat)
    ensures n <= |s| && AllDigits(s[..n]) && (n < |s| ==> !IsDigit(s[n]))
  {
    if s == "" || !IsDigit(s[0]) then 0 else 1 + DigitSpan(s[1..])
  }

  /** `([0-9]+)` followed by a fixed text: the number and what is left. */
  function Number(s: string, after: string): Option<(nat, string)> {
    var n := DigitSpan(s);
    if n > 0 && StartsWith(s[n..], after) then Some((ToNat(s[..n]), s[n + |after|..])) else None
  }

  /** The header of a chunk; only its positions are used. */
  function ReadHeader(s: string): Option<(nat, nat)> {
    if !StartsWith(s, "@@ -") then None
    else match Number(s[4..], ",")
      case None => None
      case Some(a) =>
        match Number(a.1, " +")
        case None => None
        case Some(b) =>
          match Number(b.1, ",")
          case None => None
          case Some(c) =>
            match Number(c.1, " @@")
            case None => None
            case Some(d) => Some((a.0, c.0))
  }

  predicate OneLine(s: string) {
    '\n' !in s
  }

  /** One of the patterns that capture the rest of the line: the captured part never holds a newline, and
      nothing but one newline may follow it. */
  predicate Captures(line: string, w: string) {
    StartsWith(Chomp(line), w) && OneLine(Chomp(line))
  }

  /** The first of the six patterns that a line matches. */
  function Classify(line: string): Token {
    var s := Chomp(line);
    if Captures(line, "--- ") then SrcFile(s[4..])
    else if Captures(line, "+++ ") then DstFile(s[4..])
    else match ReadHeader(line)
      case Some(h) => ChunkStart(h.0, h.1)
      case None =>
        if Captures(line, "-") then Body(Line(Src, s[1..]))
        else if Captures(line, "+") then Body(Line(Dst, s[1..]))
        else if Captures(line, " ") then Body(Line(Both, s[1..]))
        else Junk
  }

  // ----- the parser as a function of its input

  /** The patches so far and the patch that holds the current chunk, its last. */
  datatype State = State(patches: seq<PatchValue>, current: Option<nat>)

  predicate StateOk(st: State) {
    st.current.Some? ==> st.current.value < |st.patches| && st.patches[st.current.value].chunks != []
  }

  function SetDst(p: PatchValue, dst: string): PatchValue {
    PatchValue(p.src, dst, p.chunks)
  }

  function AddChunk(p: PatchValue, c: ChunkValue): PatchValue {
    PatchValue(p.src, p.dst, p.chunks + [c])
  }

  function AddLine(c: ChunkValue, l: Line): ChunkValue {
    ChunkValue(c.srcPos, c.dstPos, c.lines + [l])
  }

  function AddToLast(p: PatchValue, l: Line): PatchValue
    requires p.chunks != []
  {
    var m := |p.chunks| - 1;
    PatchValue(p.src, p.dst, p.chunks[..m] + [AddLine(p.chunks[m], l)])
  }

  /** One line of input; `None` where the parser raises. */
  function Step(st: State, line: string): (r: Option<State>)
    requires StateOk(st)
    ensures r.Some? ==> StateOk(r.value)
  {
    var n := |st.patches|;
    match Classify(line)
    case SrcFile(name) => Some(State(st.patches + [PatchValue(name, "", [])], st.current))
    case DstFile(name) => if n == 0 then None else Some(State(st.patches[n - 1 := SetDst(st.patches[n - 1], name)], st.current))
    case ChunkStart(a, b) =>
      if n == 0 then None
      else Some(State(st.patches[n - 1 := AddChunk(st.patches[n - 1], ChunkValue(a, b, []))], Some(n - 1)))
    case Body(l) =>
      if st.current.None? then None
      else var k := st.current.value;
        Some(State(st.patches[k := AddToLast(st.patches[k], l)], st.current))
    case Junk => None
  }

  function Parse(lines: seq<string>): (r: Option<State>)
    ensures r.Some? ==> StateOk(r.value)
  {
    if lines == [] then Some(State([], None))
    else match Parse(lines[..|lines| - 1])
      case None => None
      case Some(st) => Step(st, lines[|lines| - 1])
  }

  // ----- what each printed line is classified as

  predicate Confusing(l: Line) {
    (l.kind == Src && StartsWith(l.text, "-- ")) || (l.kind == Dst && StartsWith(l.text, "++ "))
  }

  lemma OneLineJoin(a: string, b: string)
    ensures OneLine(a + b) <==> OneLine(a) && OneLine(b)
  {
    assert forall c :: c in a + b <==> c in a || c in b;
  }

  /** A printed file name reads back as itself, unless it holds a newline: then no pattern matches. */
  lemma ClassifyName(prefix: string, name: string)
    requires prefix == "--- " || prefix == "+++ "
    ensures Classify(prefix + name + "\n")
         == if !OneLine(name) then Junk else if prefix == "--- " then SrcFile(name) else DstFile(name)
  {
    var line := prefix + name + "\n";
    assert Chomp(line) == prefix + name;
    assert (prefix + name)[4..] == name && (prefix + name)[..4] == prefix;
    assert prefix[0] == '-' || prefix[0] == '+';
    OneLineJoin(prefix, name);
    hide OneLine;
    assert ReadHeader(line) == None by { assert line[..4][0] == prefix[0] && "@@ -"[0] == '@'; }
    hide ReadHeader;
  }

  /** A printed line reads back as itself, unless it looks like the header of a file; if it holds a newline no
      pattern matches. */
  lemma ClassifyLine(l: Line)
    requires l.kind != Unset
    ensures !OneLine(l.text) ==> Classify(LineText(l)) == Junk
    ensures OneLine(l.text) && Confusing(l) ==> Classify(LineText(l)).SrcFile? || Classify(LineText(l)).DstFile?
    ensures OneLine(l.text) && !Confusing(l) ==> Classify(LineText(l)) == Body(l)
  {
    var line := LineText(l);
    var s := Chomp(line);
    assert s[1..] == l.text && line[0] == s[0];
    OneLineJoin([s[0]], l.text);
    assert OneLine([s[0]]) && s == [s[0]] + l.text;
    assert s[..1] == [s[0]];
    if |s| >= 4 {
      assert s[..4] == [s[0]] + l.text[..3];
    }
    assert |line| >= 4 ==> line[..4][0] == line[0] && "@@ -"[0] == '@';
    if StartsWith(s, "--- ") { assert "--- "[1..] == "-- " && s[..4][1..] == l.text[..3]; }
    if StartsWith(s, "+++ ") { assert "+++ "[1..] == "++ " && s[..4][1..] == l.text[..3]; }
    assert ReadHeader(line) == None;
    hide ReadHeader;
  }

  lemma {:induction false} DigitSpanIs(w: string, rest: string)
    requires AllDigits(w) && rest != "" && !IsDigit(rest[0])
    ensures DigitSpan(w + rest) == |w|
  {
    if w == "" {
      assert w + rest == rest;
    } else {
      assert (w + rest)[1..] == w[1..] + rest;
      DigitSpanIs(w[1..], rest);
    }
  }

  lemma NumberIs(n: nat, after: string, rest: string)
    requires after != "" && !IsDigit(after[0])
    ensures Number(ToString(n) + after + rest, after) == Some((n, rest))
  {
    var w, s := ToString(n), ToString(n) + after + rest;
    assert s == w + (after + rest);
    DigitSpanIs(w, after + rest);
    ReadBack(n);
    hide ToString, ToNat, DigitSpan;
    assert s[..|w|] == w && s[|w|..] == after + rest && s[|w|..][..|after|] == after && s[|w| + |after|..] == rest;
  }

  lemma ClassifyHeader(c: ChunkValue)
    ensures Classify(Header(c)) == ChunkStart(c.srcPos, c.dstPos)
  {
    var r3 := ToString(DstLen(c.lines)) + " @@" + "\n";
    var r2 := ToString(c.dstPos) + "," + r3;
    var r1 := ToString(SrcLen(c.lines)) + " +" + r2;
    var r0 := ToString(c.srcPos) + "," + r1;
    var h := "@@ -" + r0;
    HeaderIs(c);
    assert Header(c) == h;
    hide Header, ToString, Number;
    assert h[4..] == r0 && h[..4] == "@@ -" && h[0] == '@' && Chomp(h)[0] == '@';
    hide Chomp;
    NumberIs(c.srcPos, ",", r1);
    NumberIs(SrcLen(c.lines), " +", r2);
    NumberIs(c.dstPos, ",", r3);
    NumberIs(DstLen(c.lines), " @@", "\n");
    assert ReadHeader(h) == Some((c.srcPos, c.dstPos));
    hide ReadHeader;
    NoFileHeader(Chomp(h));
  }

  lemma HeaderIs(c: ChunkValue)
    ensures Header(c) == "@@ -" + (ToString(c.srcPos) + "," + (ToString(SrcLen(c.lines)) + " +"
                           + (ToString(c.dstPos) + "," + (ToString(DstLen(c.lines)) + " @@" + "\n"))))
  {
    hide ToString;
  }

  lemma NoFileHeader(s: string)
    requires s != "" && s[0] == '@'
    ensures !StartsWith(s, "--- ") && !StartsWith(s, "+++ ")
  {
    if |s| >= 4 { assert s[..4][0] == '@'; }
  }

  // ----- round trip

  /** Names and lines without a newline in them. */
  predicate OnOneLine(p: PatchValue) {
    OneLine(p.src) && OneLine(p.dst) && ChunksOnOneLine(p.chunks)
  }

  predicate ChunksOnOneLine(cs: seq<ChunkValue>) {
    forall i :: 0 <= i < |cs| ==> LinesOnOneLine(cs[i].lines)
  }

  predicate LinesOnOneLine(ls: seq<Line>) {
    forall i :: 0 <= i < |ls| ==> OneLine(ls[i].text)
  }

  predicate AllOnOneLine(ps: seq<PatchValue>) {
    forall i :: 0 <= i < |ps| ==> OnOneLine(ps[i])
  }

  lemma ParseSnoc(lines: seq<string>, line: string)
    ensures Parse(lines + [line]) == match Parse(lines) case None => None case Some(st) => Step(st, line)
  {
    assert (lines + [line])[..|lines|] == lines;
  }

  predicate Plain(ls: seq<Line>) {
    forall i :: 0 <= i < |ls| ==> ls[i].kind != Unset && !Confusing(ls[i])
  }

  predicate PlainPatch(p: PatchValue) {
    forall i :: 0 <= i < |p.chunks| ==> Plain(p.chunks[i].lines)
  }

  predicate PlainPatchset(ps: seq<PatchValue>) {
    forall i :: 0 <= i < |ps| ==> PlainPatch(ps[i])
  }

  /** The parser's state after a patchset has been read: its last chunk is the current one. */
  ghost predicate ReadsAs(lines: seq<string>, ps: seq<PatchValue>) {
    Parse(lines).Some? && Parse(lines).value.patches == ps
  }

  ghost predicate InChunk(lines: seq<string>, before: seq<PatchValue>, src: string, dst: string, cs: seq<ChunkValue>, c: ChunkValue) {
    Parse(lines) == Some(State(before + [PatchValue(src, dst, cs + [c])], Some(|before|)))
  }

  lemma LastLine(ls: seq<Line>)
    requires ls != []
    ensures LineTexts(ls) == LineTexts(ls[..|ls| - 1]) + [LineText(ls[|ls| - 1])]
  {
    hide LineText;
  }

  lemma PlainSplit(ls: seq<Line>)
    requires ls != [] && Plain(ls) && LinesOnOneLine(ls)
    ensures var m := |ls| - 1;
      Plain(ls[..m]) && LinesOnOneLine(ls[..m]) && ls[m].kind != Unset && !Confusing(ls[m]) && OneLine(ls[m].text)
  {
    hide Confusing, OneLine;
  }

  lemma LastChunk(cs: seq<ChunkValue>)
    requires cs != []
    ensures var m := |cs| - 1; ChunksTexts(cs) == ChunksTexts(cs[..m]) + ChunkTexts(cs[m]) && cs == cs[..m] + [cs[m]]
  {
    AsInitAndLast(cs);
    hide ChunkTexts;
  }

  lemma AsInitAndLast<T>(s: seq<T>)
    requires s != []
    ensures s == s[..|s| - 1] + [s[|s| - 1]]
  {
  }

  lemma LastAdded(a: nat, b: nat, ls: seq<Line>)
    requires ls != []
    ensures AddLine(ChunkValue(a, b, ls[..|ls| - 1]), ls[|ls| - 1]) == ChunkValue(a, b, ls)
  {
    assert ls == ls[..|ls| - 1] + [ls[|ls| - 1]];
  }

  lemma {:induction false} LinesAreRead(lines: seq<string>, before: seq<PatchValue>, src: string, dst: string, cs: seq<ChunkValue>,
                                        a: nat, b: nat, ls: seq<Line>)
    requires InChunk(lines, before, src, dst, cs, ChunkValue(a, b, [])) && Plain(ls) && LinesOnOneLine(ls)
    ensures InChunk(lines + LineTexts(ls), before, src, dst, cs, ChunkValue(a, b, ls))
    decreases |ls|
  {
    if ls == [] {
      assert lines + [] == lines;
    } else {
      var m := |ls| - 1;
      var rest, l := ls[..m], ls[m];
      hide *;
      LastLine(ls);
      PlainSplit(ls);
      LinesAreRead(lines, before, src, dst, cs, a, b, rest);
      LineIsRead(lines + LineTexts(rest), before, src, dst, cs, ChunkValue(a, b, rest), l);
      LastAdded(a, b, ls);
      Assoc(lines, LineTexts(rest), [LineText(l)]);
    }
  }

  lemma LineIsRead(lines: seq<string>, before: seq<PatchValue>, src: string, dst: string, cs: seq<ChunkValue>, c: ChunkValue, l: Line)
    requires InChunk(lines, before, src, dst, cs, c) && l.kind != Unset && !Confusing(l) && OneLine(l.text)
    ensures InChunk(lines + [LineText(l)], before, src, dst, cs, AddLine(c, l))
  {
    hide Parse, LineText, Classify, Confusing, Step, AddLine, OneLine;
    ClassifyLine(l);
    ParseSnoc(lines, LineText(l));
    LineIsAdded(before, src, dst, cs, c, l);
  }

  lemma LineIsAdded(before: seq<PatchValue>, src: string, dst: string, cs: seq<ChunkValue>, c: ChunkValue, l: Line)
    requires Classify(LineText(l)) == Body(l)
    ensures Step(State(before + [PatchValue(src, dst, cs + [c])], Some(|before|)), LineText(l))
         == Some(State(before + [PatchValue(src, dst, cs + [AddLine(c, l)])], Some(|before|)))
  {
    hide Classify, LineText;
    var p := PatchValue(src, dst, cs + [c]);
    assert p.chunks[..|cs|] == cs;
    assert (before + [p])[|before| := AddToLast(p, l)] == before + [AddToLast(p, l)];
  }

  ghost predicate InPatch(lines: seq<string>, before: seq<PatchValue>, p: PatchValue) {
    && Parse(lines).Some? && Parse(lines).value.patches == before + [p]
    && (p.chunks != [] ==> Parse(lines).value.current == Some(|before|))
  }

  lemma HeaderIsRead(lines: seq<string>, before: seq<PatchValue>, src: string, dst: string, cs: seq<ChunkValue>, c: ChunkValue)
    requires InPatch(lines, before, PatchValue(src, dst, cs))
    ensures InChunk(lines + [Header(c)], before, src, dst, cs, ChunkValue(c.srcPos, c.dstPos, []))
  {
    ClassifyHeader(c);
    ParseSnoc(lines, Header(c));
    hide Parse, Header, Classify;
    var p, d := PatchValue(src, dst, cs), ChunkValue(c.srcPos, c.dstPos, []);
    assert (before + [p])[|before| := AddChunk(p, d)] == before + [AddChunk(p, d)];
  }

  lemma ChunkIsRead(lines: seq<string>, before: seq<PatchValue>, src: string, dst: string, cs: seq<ChunkValue>, c: ChunkValue)
    requires InPatch(lines, before, PatchValue(src, dst, cs)) && Plain(c.lines) && LinesOnOneLine(c.lines)
    ensures InPatch(lines + ChunkTexts(c), before, PatchValue(src, dst, cs + [c]))
  {
    hide Parse, Header, LineTexts, Plain, LinesOnOneLine;
    HeaderIsRead(lines, before, src, dst, cs, c);
    LinesAreRead(lines + [Header(c)], before, src, dst, cs, c.srcPos, c.dstPos, c.lines);
    assert lines + ChunkTexts(c) == lines + [Header(c)] + LineTexts(c.lines);
  }

  lemma {:induction false} ChunksAreRead(lines: seq<string>, before: seq<PatchValue>, src: string, dst: string, cs: seq<ChunkValue>)
    requires InPatch(lines, before, PatchValue(src, dst, [])) && ChunksOnOneLine(cs)
    requires forall i :: 0 <= i < |cs| ==> Plain(cs[i].lines)
    ensures InPatch(lines + ChunksTexts(cs), before, PatchValue(src, dst, cs))
    decreases |cs|
  {
    if cs == [] {
      assert lines + [] == lines;
    } else {
      var m := |cs| - 1;
      var rest, c := cs[..m], cs[m];
      assert ChunksOnOneLine(rest) && LinesOnOneLine(c.lines);
      hide *;
      LastChunk(cs);
      ChunksAreRead(lines, before, src, dst, rest);
      ChunkIsRead(lines + ChunksTexts(rest), before, src, dst, rest, c);
      Assoc(lines, ChunksTexts(rest), ChunkTexts(c));
    }
  }

  lemma FilesAreRead(lines: seq<string>, before: seq<PatchValue>, src: string, dst: string)
    requires ReadsAs(lines, before) && OneLine(src) && OneLine(dst)
    ensures InPatch(lines + ["--- " + src + "\n"] + ["+++ " + dst + "\n"], before, PatchValue(src, dst, []))
  {
    ClassifyName("--- ", src);
    ClassifyName("+++ ", dst);
    var a, b := "--- " + src + "\n", "+++ " + dst + "\n";
    hide Parse, Classify, OneLine;
    ParseSnoc(lines, a);
    OldNameRead(lines, before, src, a);
    ParseSnoc(lines + [a], b);
    NewNameRead(lines + [a], before, src, dst, b);
  }

  lemma OldNameRead(lines: seq<string>, before: seq<PatchValue>, src: string, a: string)
    requires ReadsAs(lines, before) && Classify(a) == SrcFile(src)
    ensures InPatch(lines + [a], before, PatchValue(src, "", []))
  {
    ParseSnoc(lines, a);
    hide Parse, Classify;
  }

  lemma NewNameRead(lines: seq<string>, before: seq<PatchValue>, src: string, dst: string, b: string)
    requires InPatch(lines, before, PatchValue(src, "", [])) && Classify(b) == DstFile(dst)
    ensures InPatch(lines + [b], before, PatchValue(src, dst, []))
  {
    ParseSnoc(lines, b);
    hide Parse, Classify;
    var p := PatchValue(src, "", []);
    assert (before + [p])[|before| := SetDst(p, dst)] == before + [SetDst(p, dst)];
  }

  lemma PatchIsRead(lines: seq<string>, before: seq<PatchValue>, p: PatchValue)
    requires ReadsAs(lines, before) && PlainPatch(p) && OnOneLine(p)
    ensures ReadsAs(lines + PatchTexts(p), before + [p])
  {
    assert forall i :: 0 <= i < |p.chunks| ==> Plain(p.chunks[i].lines);
    hide *;
    var a, b := "--- " + p.src + "\n", "+++ " + p.dst + "\n";
    PatchTextsAre(p);
    FilesAreRead(lines, before, p.src, p.dst);
    Assoc(lines, [a], [b]);
    Assoc(lines, [a] + [b], ChunksTexts(p.chunks));
    ChunksAreRead(lines + [a] + [b], before, p.src, p.dst, p.chunks);
    PatchDone(lines + [a] + [b] + ChunksTexts(p.chunks), before, p);
  }

  lemma PatchDone(lines: seq<string>, before: seq<PatchValue>, p: PatchValue)
    requires InPatch(lines, before, PatchValue(p.src, p.dst, p.chunks))
    ensures ReadsAs(lines, before + [p])
  {
  }

  lemma LastPatch(ps: seq<PatchValue>)
    requires ps != []
    ensures var m := |ps| - 1; PatchsetTexts(ps) == PatchsetTexts(ps[..m]) + PatchTexts(ps[m])
  {
    hide PatchTexts;
  }

  lemma LastPatchPlain(ps: seq<PatchValue>)
    requires ps != [] && PlainPatchset(ps)
    ensures PlainPatchset(ps[..|ps| - 1]) && PlainPatch(ps[|ps| - 1])
  {
    hide PlainPatch;
  }

  lemma LastPatchOnOneLine(ps: seq<PatchValue>)
    requires ps != [] && AllOnOneLine(ps)
    ensures AllOnOneLine(ps[..|ps| - 1]) && OnOneLine(ps[|ps| - 1])
  {
    hide OnOneLine;
  }

  lemma {:induction false} PlainIsReadBack(ps: seq<PatchValue>)
    requires PlainPatchset(ps) && AllOnOneLine(ps)
    ensures ReadsAs(PatchsetTexts(ps), ps)
    decreases |ps|
  {
    hide *;
    if ps == [] {
      NothingIsRead();
    } else {
      var m := |ps| - 1;
      var rest, p := ps[..m], ps[m];
      LastPatch(ps);
      LastPatchPlain(ps);
      LastPatchOnOneLine(ps);
      PlainIsReadBack(rest);
      PatchIsRead(PatchsetTexts(rest), rest, p);
      assert ps == rest + [p];
    }
  }

  lemma NothingIsRead()
    ensures ReadsAs(PatchsetTexts([]), [])
  {
  }

  // ----- what a confusing line costs

  function BodyCount(lines: seq<string>): nat {
    if lines == [] then 0 else BodyCount(lines[..|lines| - 1]) + (if Classify(lines[|lines| - 1]).Body? then 1 else 0)
  }

  function ChunkLines(cs: seq<ChunkValue>): nat {
    if cs == [] then 0 else ChunkLines(cs[..|cs| - 1]) + |cs[|cs| - 1].lines|
  }

  function TotalLines(ps: seq<PatchValue>): nat {
    if ps == [] then 0 else TotalLines(ps[..|ps| - 1]) + ChunkLines(ps[|ps| - 1].chunks)
  }

  lemma {:induction false} BodyCountAppend(a: seq<string>, b: seq<string>)
    ensures BodyCount(a + b) == BodyCount(a) + BodyCount(b)
    decreases |b|
  {
    hide Classify;
    if b == [] {
      assert a + b == a;
    } else {
      BodyCountAppend(a, b[..|b| - 1]);
      assert (a + b)[..|a + b| - 1] == a + b[..|b| - 1];
    }
  }

  lemma {:induction false} TotalUpdate(ps: seq<PatchValue>, k: nat, p: PatchValue)
    requires k < |ps|
    ensures TotalLines(ps[k := p]) + ChunkLines(ps[k].chunks) == TotalLines(ps) + ChunkLines(p.chunks)
    decreases |ps|
  {
    var m := |ps| - 1;
    hide ChunkLines;
    if k < m {
      TotalUpdate(ps[..m], k, p);
      assert ps[k := p][..m] == ps[..m][k := p];
    } else {
      assert ps[k := p][..m] == ps[..m];
    }
  }

  lemma TotalOneMore(ps: seq<PatchValue>, p: PatchValue)
    ensures TotalLines(ps + [p]) == TotalLines(ps) + ChunkLines(p.chunks)
  {
    assert (ps + [p])[..|ps|] == ps;
  }

  lemma ChunkLinesOneMore(cs: seq<ChunkValue>, c: ChunkValue)
    ensures ChunkLines(cs + [c]) == ChunkLines(cs) + |c.lines|
  {
    assert (cs + [c])[..|cs|] == cs;
  }

  lemma NoLinesYet()
    ensures ChunkLines([]) == 0
  {
  }

  lemma StepCounts(st: State, line: string)
    requires StateOk(st) && Step(st, line).Some?
    ensures TotalLines(Step(st, line).value.patches) == TotalLines(st.patches) + (if Classify(line).Body? then 1 else 0)
  {
    hide TotalLines, ChunkLines, Classify;
    NoLinesYet();
    var n := |st.patches|;
    match Classify(line)
    case SrcFile(name) =>
      TotalOneMore(st.patches, PatchValue(name, "", []));
    case DstFile(name) => TotalUpdate(st.patches, n - 1, SetDst(st.patches[n - 1], name));
    case ChunkStart(a, b) =>
      TotalUpdate(st.patches, n - 1, AddChunk(st.patches[n - 1], ChunkValue(a, b, [])));
      ChunkLinesOneMore(st.patches[n - 1].chunks, ChunkValue(a, b, []));
    case Body(l) =>
      var k := st.current.value;
      var p := st.patches[k];
      var m := |p.chunks| - 1;
      TotalUpdate(st.patches, k, AddToLast(p, l));
      ChunkLinesOneMore(p.chunks[..m], p.chunks[m]);
      ChunkLinesOneMore(p.chunks[..m], AddLine(p.chunks[m], l));
      assert p.chunks == p.chunks[..m] + [p.chunks[m]];
    case Junk =>
  }

  lemma {:induction false} ParseCounts(lines: seq<string>)
    requires Parse(lines).Some?
    ensures TotalLines(Parse(lines).value.patches) == BodyCount(lines)
    decreases |lines|
  {
    if lines != [] {
      var m := |lines| - 1;
      ParseCounts(lines[..m]);
      StepCounts(Parse(lines[..m]).value, lines[m]);
      hide Step, Classify, TotalLines;
    }
  }

  predicate AllSet(ls: seq<Line>) {
    forall i :: 0 <= i < |ls| ==> ls[i].kind != Unset
  }

  predicate ChunksSet(cs: seq<ChunkValue>) {
    forall i :: 0 <= i < |cs| ==> AllSet(cs[i].lines)
  }

  predicate PatchesSet(ps: seq<PatchValue>) {
    forall i :: 0 <= i < |ps| ==> ChunksSet(ps[i].chunks)
  }

  lemma BodyCountOne(line: string)
    ensures BodyCount([line]) == if Classify(line).Body? then 1 else 0
  {
    hide Classify;
    assert [line][..0] == [];
    assert BodyCount([]) == 0;
  }

  lemma PlainIff(ls: seq<Line>)
    requires ls != [] && AllSet(ls) && LinesOnOneLine(ls)
    ensures var m := |ls| - 1;
      AllSet(ls[..m]) && LinesOnOneLine(ls[..m]) && OneLine(ls[m].text) && (Plain(ls) <==> Plain(ls[..m]) && !Confusing(ls[m]))
  {
    hide Confusing, OneLine;
  }

  lemma {:induction false} LinesCount(ls: seq<Line>)
    requires AllSet(ls) && LinesOnOneLine(ls)
    ensures BodyCount(LineTexts(ls)) <= |ls| && (BodyCount(LineTexts(ls)) == |ls| <==> Plain(ls))
    decreases |ls|
  {
    if ls != [] {
      var m := |ls| - 1;
      assert ls[m].kind != Unset;
      hide *;
      LastLine(ls);
      PlainIff(ls);
      ClassifyLine(ls[m]);
      BodyCountOne(LineText(ls[m]));
      LinesCount(ls[..m]);
      BodyCountAppend(LineTexts(ls[..m]), [LineText(ls[m])]);
    }
  }

  lemma ChunkCount(c: ChunkValue)
    requires AllSet(c.lines)
    ensures BodyCount(ChunkTexts(c)) == BodyCount(LineTexts(c.lines))
  {
    hide Classify, Header, LineTexts;
    ClassifyHeader(c);
    BodyCountAppend([Header(c)], LineTexts(c.lines));
    assert [Header(c)][..0] == [];
  }

  lemma {:induction false} ChunksCount(cs: seq<ChunkValue>)
    requires ChunksSet(cs) && ChunksOnOneLine(cs)
    ensures BodyCount(ChunksTexts(cs)) <= ChunkLines(cs)
    ensures BodyCount(ChunksTexts(cs)) == ChunkLines(cs) <==> forall i :: 0 <= i < |cs| ==> Plain(cs[i].lines)
    decreases |cs|
  {
    if cs != [] {
      var m := |cs| - 1;
      LastChunk(cs);
      hide Plain, LineTexts, ChunkTexts, BodyCount, ChunksTexts, LinesOnOneLine;
      ChunksCount(cs[..m]);
      ChunkCount(cs[m]);
      LinesCount(cs[m].lines);
      BodyCountAppend(ChunksTexts(cs[..m]), ChunkTexts(cs[m]));
    } else {
      assert BodyCount([]) == 0;
    }
  }

  lemma PatchTextsAre(p: PatchValue)
    ensures PatchTexts(p) == ["--- " + p.src + "\n"] + ["+++ " + p.dst + "\n"] + ChunksTexts(p.chunks)
  {
    hide ChunksTexts;
  }

  lemma PatchCount(p: PatchValue)
    requires OneLine(p.src) && OneLine(p.dst)
    ensures BodyCount(PatchTexts(p)) == BodyCount(ChunksTexts(p.chunks))
  {
    hide *;
    var a, b := "--- " + p.src + "\n", "+++ " + p.dst + "\n";
    PatchTextsAre(p);
    ClassifyName("--- ", p.src);
    ClassifyName("+++ ", p.dst);
    BodyCountAppend([a] + [b], ChunksTexts(p.chunks));
    BodyCountAppend([a], [b]);
    BodyCountOne(a);
    BodyCountOne(b);
  }

  lemma {:induction false} PatchesCount(ps: seq<PatchValue>)
    requires PatchesSet(ps) && AllOnOneLine(ps)
    ensures BodyCount(PatchsetTexts(ps)) <= TotalLines(ps)
    ensures BodyCount(PatchsetTexts(ps)) == TotalLines(ps) <==> PlainPatchset(ps)
    decreases |ps|
  {
    if ps == [] {
      assert BodyCount([]) == 0;
    } else {
      var m := |ps| - 1;
      assert PatchsetTexts(ps) == PatchsetTexts(ps[..m]) + PatchTexts(ps[m]);
      assert TotalLines(ps) == TotalLines(ps[..m]) + ChunkLines(ps[m].chunks);
      assert AllOnOneLine(ps[..m]) && OneLine(ps[m].src) && OneLine(ps[m].dst) && ChunksOnOneLine(ps[m].chunks);
      hide *;
      PlainPatchesIff(ps);
      PatchesCount(ps[..m]);
      PatchCount(ps[m]);
      ChunksCount(ps[m].chunks);
      BodyCountAppend(PatchsetTexts(ps[..m]), PatchTexts(ps[m]));
    }
  }

  lemma PlainPatchesIff(ps: seq<PatchValue>)
    requires ps != [] && PatchesSet(ps)
    ensures var m := |ps| - 1;
            PatchesSet(ps[..m]) && ChunksSet(ps[m].chunks) && (PlainPatchset(ps) <==> PlainPatchset(ps[..m]) && PlainPatch(ps[m]))
    ensures var m := |ps| - 1;
            PlainPatch(ps[m]) <==> forall i :: 0 <= i < |ps[m].chunks| ==> Plain(ps[m].chunks[i].lines)
  {
    hide Plain, AllSet;
  }

  // ----- what is parsed never holds a newline

  predicate TokenOnOneLine(t: Token) {
    match t
    case SrcFile(name) => OneLine(name)
    case DstFile(name) => OneLine(name)
    case Body(l) => OneLine(l.text)
    case _ => true
  }

  lemma OneLineDrop(s: string, i: nat)
    requires OneLine(s) && i <= |s|
    ensures OneLine(s[i..])
  {
  }

  lemma ClassifyOnOneLine(line: string)
    ensures TokenOnOneLine(Classify(line))
  {
    var s := Chomp(line);
    if OneLine(s) {
      if |s| >= 4 { OneLineDrop(s, 4); }
      if |s| >= 1 { OneLineDrop(s, 1); }
    }
    hide OneLine, ReadHeader;
  }

  lemma StepOnOneLine(st: State, line: string)
    requires StateOk(st) && AllOnOneLine(st.patches) && Step(st, line).Some?
    ensures AllOnOneLine(Step(st, line).value.patches)
  {
    ClassifyOnOneLine(line);
    hide Classify, OneLine, LinesOnOneLine;
    assert OneLine("") && LinesOnOneLine([]) by { NothingOnOneLine(); }
    if Classify(line).Body? {
      var l := Classify(line).l;
      var p := st.patches[st.current.value];
      var m := |p.chunks| - 1;
      assert OnOneLine(p);
      LineOnOneLine(p.chunks[m].lines, l);
    }
  }

  lemma NothingOnOneLine()
    ensures OneLine("") && LinesOnOneLine([])
  {
  }

  lemma LineOnOneLine(ls: seq<Line>, l: Line)
    requires LinesOnOneLine(ls) && OneLine(l.text)
    ensures LinesOnOneLine(ls + [l])
  {
    hide OneLine;
  }

  /** Whatever is parsed, from any lines, no name and no line of it holds a newline. */
  lemma {:induction false} ParsedOnOneLine(lines: seq<string>)
    requires Parse(lines).Some?
    ensures AllOnOneLine(Parse(lines).value.patches)
    decreases |lines|
  {
    if lines != [] {
      var m := |lines| - 1;
      ParsedOnOneLine(lines[..m]);
      StepOnOneLine(Parse(lines[..m]).value, lines[m]);
      hide Step, AllOnOneLine;
    }
  }

  /** Printed patches parse back to themselves exactly when no removed line starts with "-- ", no added line
      with "++ ", and no name or line holds a newline. */
  lemma RoundTrip(ps: seq<PatchValue>)
    requires PatchesSet(ps)
    ensures ReadsAs(PatchsetTexts(ps), ps) <==> PlainPatchset(ps) && AllOnOneLine(ps)
  {
    if PlainPatchset(ps) && AllOnOneLine(ps) { PlainIsReadBack(ps); }
    if ReadsAs(PatchsetTexts(ps), ps) {
      ParsedOnOneLine(PatchsetTexts(ps));
      ParseCounts(PatchsetTexts(ps));
      PatchesCount(ps);
    }
    hide Parse, PlainPatchset, AllOnOneLine, PatchsetTexts, TotalLines, BodyCount;
  }

  lemma OneChunkTexts(p: PatchValue, c: ChunkValue, l: Line)
    requires p.chunks == [c] && c.lines == [l]
    ensures PatchsetTexts([p]) == ["--- " + p.src + "\n", "+++ " + p.dst + "\n"] + [Header(c)] + [LineText(l)]
  {
    assert LineTexts([l]) == [LineText(l)] by { assert [l][..0] == []; }
    assert ChunksTexts([c]) == ChunkTexts(c) by { assert [c][..0] == []; }
    assert PatchsetTexts([p]) == PatchTexts(p) by { assert [p][..0] == []; }
    PatchTextsAre(p);
    assert ChunkTexts(c) == [Header(c)] + [LineText(l)];
    hide *;
  }

  /** A removed line with a newline in it is printed, and then no pattern matches it: the parser raises. */
  lemma NewlineIsNotReadBack()
    ensures Parse(PatchsetTexts([PatchValue("x", "y", [ChunkValue(1, 1, [Line(Src, "a\nb")])])])).None?
  {
    var l := Line(Src, "a\nb");
    var c := ChunkValue(1, 1, [l]);
    var p := PatchValue("x", "y", [c]);
    assert l.text[1] == '\n';
    hide *;
    NewlineStops(["--- " + p.src + "\n", "+++ " + p.dst + "\n"] + [Header(c)], l, 1);
    OneChunkTexts(p, c, l);
  }

  lemma NewlineStops(before: seq<string>, l: Line, i: nat)
    requires i < |l.text| && l.text[i] == '\n' && l.kind != Unset
    ensures Parse(before + [LineText(l)]).None?
  {
    assert !OneLine(l.text);
    ClassifyLine(l);
    hide Classify, LineText, Parse, OneLine;
    ParseSnoc(before, LineText(l));
  }

  // ----- through a file

  function Flatten(lines: seq<string>): string {
    if lines == [] then "" else lines[0] + Flatten(lines[1..])
  }

  /** The length of the first line of a text, its newline included. */
  function LineLength(text: string): (n: nat)
    requires text != ""
    ensures 0 < n <= |text|
  {
    if text[0] == '\n' || |text| == 1 then 1 else 1 + LineLength(text[1..])
  }

  /** Iteration over a file. */
  function SplitLines(text: string): seq<string>
    decreases |text|
  {
    if text == "" then [] else [text[..LineLength(text)]] + SplitLines(text[LineLength(text)..])
  }

  predicate Terminated(line: string) {
    line != "" && line[|line| - 1] == '\n' && OneLine(line[..|line| - 1])
  }

  predicate AllTerminated(lines: seq<string>) {
    forall i :: 0 <= i < |lines| ==> Terminated(lines[i])
  }

  lemma {:induction false} LineLengthIs(line: string, rest: string)
    requires Terminated(line)
    ensures LineLength(line + rest) == |line|
    decreases |line|
  {
    if |line| > 1 {
      assert line[..|line| - 1][0] == line[0] && line[0] != '\n';
      assert (line + rest)[1..] == line[1..] + rest;
      assert forall i :: 0 <= i < |line| - 2 ==> line[1..][i] == line[..|line| - 1][i + 1];
      LineLengthIs(line[1..], rest);
    }
  }

  lemma {:induction false} SplitFlatten(lines: seq<string>)
    requires AllTerminated(lines)
    ensures SplitLines(Flatten(lines)) == lines
    decreases |lines|
  {
    if lines != [] {
      var l, rest := lines[0], Flatten(lines[1..]);
      assert l != "" && Flatten(lines) == l + rest;
      hide Terminated, Flatten;
      LineLengthIs(l, rest);
      assert (l + rest)[..|l|] == l && (l + rest)[|l|..] == rest && l + rest != "";
      SplitFlatten(lines[1..]);
      hide LineLength;
      assert lines == [l] + lines[1..];
    }
  }

  lemma TerminatedAppend(a: seq<string>, b: seq<string>)
    requires AllTerminated(a) && AllTerminated(b)
    ensures AllTerminated(a + b)
  {
    hide Terminated;
  }

  lemma WithNewline(s: string)
    requires OneLine(s)
    ensures Terminated(s + "\n")
  {
    assert (s + "\n")[..|s|] == s;
  }

  lemma {:induction false} LineTextsTerminated(ls: seq<Line>)
    requires LinesOnOneLine(ls)
    ensures AllTerminated(LineTexts(ls))
    decreases |ls|
  {
    if ls != [] {
      var m := |ls| - 1;
      LineTextsTerminated(ls[..m]);
      WithNewline("-" + ls[m].text);
      WithNewline("+" + ls[m].text);
      WithNewline(" " + ls[m].text);
      assert Terminated(LineText(ls[m]));
      hide Terminated, LineText;
    }
  }

  lemma DigitsOnOneLine(n: nat)
    ensures OneLine(ToString(n))
  {
    assert AllDigits(ToString(n));
    hide ToString;
  }

  lemma HeaderTerminated(c: ChunkValue)
    ensures Terminated(Header(c))
  {
    DigitsOnOneLine(c.srcPos);
    DigitsOnOneLine(SrcLen(c.lines));
    DigitsOnOneLine(c.dstPos);
    DigitsOnOneLine(DstLen(c.lines));
    hide ToString;
    var s := "@@ -" + ToString(c.srcPos) + "," + ToString(SrcLen(c.lines)) + " +" + ToString(c.dstPos) + "," + ToString(DstLen(c.lines)) + " @@";
    assert Header(c) == s + "\n";
    WithNewline(s);
  }

  lemma {:induction false} ChunksTerminated(cs: seq<ChunkValue>)
    requires ChunksOnOneLine(cs)
    ensures AllTerminated(ChunksTexts(cs))
    decreases |cs|
  {
    if cs != [] {
      var m := |cs| - 1;
      LastChunk(cs);
      hide Header, LineTexts, ChunksTexts, Terminated, LinesOnOneLine;
      ChunksTerminated(cs[..m]);
      HeaderTerminated(cs[m]);
      LineTextsTerminated(cs[m].lines);
      TerminatedAppend([Header(cs[m])], LineTexts(cs[m].lines));
      TerminatedAppend(ChunksTexts(cs[..m]), ChunkTexts(cs[m]));
    }
  }

  lemma PatchTerminated(p: PatchValue)
    requires OnOneLine(p)
    ensures AllTerminated(PatchTexts(p))
  {
    WithNewline("--- " + p.src);
    WithNewline("+++ " + p.dst);
    hide Terminated, ChunksTexts, LinesOnOneLine;
    ChunksTerminated(p.chunks);
    TerminatedAppend(["--- " + p.src + "\n", "+++ " + p.dst + "\n"], ChunksTexts(p.chunks));
  }

  lemma {:induction false} PatchesTerminated(ps: seq<PatchValue>)
    requires AllOnOneLine(ps)
    ensures AllTerminated(PatchsetTexts(ps))
    decreases |ps|
  {
    if ps != [] {
      var m := |ps| - 1;
      hide AllTerminated, PatchTexts, OnOneLine;
      PatchesTerminated(ps[..m]);
      PatchTerminated(ps[m]);
      TerminatedAppend(PatchsetTexts(ps[..m]), PatchTexts(ps[m]));
    } else {
      assert AllTerminated([]);
    }
  }

  /** Patches printed to a file and parsed from it again: the same condition decides, although iterating over
      the file breaks a line that holds a newline into several. */
  lemma FileRoundTrip(ps: seq<PatchValue>)
    requires PatchesSet(ps)
    ensures ReadsAs(SplitLines(Flatten(PatchsetTexts(ps))), ps) <==> PlainPatchset(ps) && AllOnOneLine(ps)
  {
    if AllOnOneLine(ps) {
      PatchesTerminated(ps);
      SplitFlatten(PatchsetTexts(ps));
      RoundTrip(ps);
    } else if ReadsAs(SplitLines(Flatten(PatchsetTexts(ps))), ps) {
      ParsedOnOneLine(SplitLines(Flatten(PatchsetTexts(ps))));
    }
    hide Parse, PlainPatchset, AllOnOneLine, PatchsetTexts, SplitLines, Flatten;
  }
}
