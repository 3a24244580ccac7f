/** What the patch parser makes of any input, line by line, and when it raises. */
module PatchParsing {
  import opened Options
  import opened Decimal
  import opened UnifiedDiff

  // ----- when it raises

  ghost predicate FileBefore(lines: seq<string>, i: nat) {
    exists j :: 0 <= j < i && j < |lines| && Classify(lines[j]).SrcFile?
  }

  ghost predicate ChunkBefore(lines: seq<string>, i: nat) {
    exists j :: 0 <= j < i && j < |lines| && Classify(lines[j]).ChunkStart?
  }

  /** A line that one of the patterns matches and that has something to belong to: the name of a new file and the header of
      a chunk a file before it, any other line a chunk. */
  ghost predicate Readable(lines: seq<string>, i: nat)
    requires i < |lines|
  {
    match Classify(lines[i])
    case SrcFile(_) => true
    case DstFile(_) => FileBefore(lines, i)
    case ChunkStart(_, _) => FileBefore(lines, i)
    case Body(_) => ChunkBefore(lines, i)
    case Junk => false
  }

  lemma BeforeStays(lines: seq<string>, n: nat, i: nat)
    requires i <= n <= |lines|
    ensures FileBefore(lines[..n], i) <==> FileBefore(lines, i)
    ensures ChunkBefore(lines[..n], i) <==> ChunkBefore(lines, i)
    ensures i < n ==> (Readable(lines[..n], i) <==> Readable(lines, i))
  {
    hide Classify;
    forall j | 0 <= j < n ensures lines[..n][j] == lines[j] {
    }
    if FileBefore(lines, i) {
      var j :| 0 <= j < i && j < |lines| && Classify(lines[j]).SrcFile?;
      assert Classify(lines[..n][j]).SrcFile?;
    }
    if ChunkBefore(lines, i) {
      var j :| 0 <= j < i && j < |lines| && Classify(lines[j]).ChunkStart?;
      assert Classify(lines[..n][j]).ChunkStart?;
    }
  }

  lemma OneMoreBefore(lines: seq<string>, i: nat)
    requires i < |lines|
    ensures FileBefore(lines, i + 1) <==> FileBefore(lines, i) || Classify(lines[i]).SrcFile?
    ensures ChunkBefore(lines, i + 1) <==> ChunkBefore(lines, i) || Classify(lines[i]).ChunkStart?
  {
    hide Classify;
  }

  /** The parser gets through exactly the inputs all of whose lines are readable. */
  lemma {:induction false} WhenParserRaises(lines: seq<string>)
    ensures Parse(lines).Some? <==> forall i :: 0 <= i < |lines| ==> Readable(lines, i)
    ensures Parse(lines).Some? ==>
      && (Parse(lines).value.patches != [] <==> FileBefore(lines, |lines|))
      && (Parse(lines).value.current.Some? <==> ChunkBefore(lines, |lines|))
    decreases |lines|
  {
    if lines != [] {
      var m := |lines| - 1;
      WhenParserRaises(lines[..m]);
      assert Parse(lines) == match Parse(lines[..m]) case None => None case Some(st) => Step(st, lines[m]);
      forall i: nat | i <= m ensures FileBefore(lines[..m], i) <==> FileBefore(lines, i) { BeforeStays(lines, m, i); }
      forall i: nat | i <= m ensures ChunkBefore(lines[..m], i) <==> ChunkBefore(lines, i) { BeforeStays(lines, m, i); }
      forall i: nat | i < m ensures Readable(lines[..m], i) <==> Readable(lines, i) { BeforeStays(lines, m, i); }
      OneMoreBefore(lines, m);
      hide Classify, Parse, FileBefore, ChunkBefore;
      assert (forall i :: 0 <= i < |lines| ==> Readable(lines, i))
        <==> (forall i :: 0 <= i < m ==> Readable(lines, i)) && Readable(lines, m);
    }
  }

  // ----- what it makes of them

  function AllChunks(ps: seq<PatchValue>): seq<ChunkValue> {
    if ps == [] then [] else AllChunks(ps[..|ps| - 1]) + ps[|ps| - 1].chunks
  }

  /** Each chunk header starts a chunk, and every other line goes to the latest one, whatever file names come between. */
  function ChunksOf(lines: seq<string>): seq<ChunkValue> {
    if lines == [] then []
    else
      var m := |lines| - 1;
      var cs := ChunksOf(lines[..m]);
      match Classify(lines[m])
      case ChunkStart(a, b) => cs + [ChunkValue(a, b, [])]
      case Body(l) => if cs == [] then cs else cs[..|cs| - 1] + [ChunkValue(cs[|cs| - 1].srcPos, cs[|cs| - 1].dstPos, cs[|cs| - 1].lines + [l])]
      case _ => cs
  }

  /** A patch's names and how many chunks it has. */
  datatype Shape = Shape(src: string, dst: string, chunks: nat)

  function ShapeOf(p: PatchValue): Shape {
    Shape(p.src, p.dst, |p.chunks|)
  }

  function NextShapes(s: seq<Shape>, t: Token): seq<Shape> {
    match t
    case SrcFile(name) => s + [Shape(name, "", 0)]
    case DstFile(name) => if s == [] then s else s[|s| - 1 := s[|s| - 1].(dst := name)]
    case ChunkStart(_, _) => if s == [] then s else s[|s| - 1 := s[|s| - 1].(chunks := s[|s| - 1].chunks + 1)]
    case _ => s
  }

  /** Each name of an old file starts a patch; names of new files and chunk headers go to the latest one. */
  function ShapesOf(lines: seq<string>): seq<Shape> {
    if lines == [] then [] else NextShapes(ShapesOf(lines[..|lines| - 1]), Classify(lines[|lines| - 1]))
  }

  /** Patches after the one with the current chunk have none yet. */
  ghost predicate EmptyAfter(st: State) {
    forall j :: 0 <= j < |st.patches| && (st.current.Some? ==> j > st.current.value) ==> st.patches[j].chunks == []
  }

  lemma {:induction false} NoneFrom(ps: seq<PatchValue>, k: nat)
    requires k <= |ps| && forall j :: k <= j < |ps| ==> ps[j].chunks == []
    ensures AllChunks(ps) == AllChunks(ps[..k])
    decreases |ps|
  {
    if k < |ps| {
      NoneFrom(ps[..|ps| - 1], k);
      assert ps[..|ps| - 1][..k] == ps[..k];
    } else {
      assert ps[..k] == ps;
    }
  }

  lemma ChunksUpTo(ps: seq<PatchValue>, k: nat)
    requires k < |ps| && forall j :: k < j < |ps| ==> ps[j].chunks == []
    ensures AllChunks(ps) == AllChunks(ps[..k]) + ps[k].chunks
  {
    hide *;
    NoneFrom(ps, k + 1);
    FirstAndNext(ps, k);
    ChunksOfOneMore(ps[..k], ps[k]);
  }

  lemma FirstAndNext<T>(s: seq<T>, k: nat)
    requires k < |s|
    ensures s[..k + 1] == s[..k] + [s[k]]
  {
  }

  lemma ChunksUpdated(ps: seq<PatchValue>, k: nat, p: PatchValue)
    requires k < |ps| && forall j :: k < j < |ps| ==> ps[j].chunks == []
    ensures AllChunks(ps) == AllChunks(ps[..k]) + ps[k].chunks && AllChunks(ps[k := p]) == AllChunks(ps[..k]) + p.chunks
  {
    ChunksUpTo(ps, k);
    assert ps[k := p][..k] == ps[..k];
    ChunksUpTo(ps[k := p], k);
  }

  /** What one line does to the chunks of all patches. */
  lemma StepChunks(st: State, line: string)
    requires StateOk(st) && EmptyAfter(st) && Step(st, line).Some?
    ensures var cs, cs' := AllChunks(st.patches), AllChunks(Step(st, line).value.patches);
      EmptyAfter(Step(st, line).value) &&
      match Classify(line)
      case ChunkStart(a, b) => cs' == cs + [ChunkValue(a, b, [])]
      case Body(l) => cs != [] && cs' == cs[..|cs| - 1] + [AddLine(cs[|cs| - 1], l)]
      case _ => cs' == cs
  {
    var ps, n := st.patches, |st.patches|;
    hide Classify, AllChunks;
    match Classify(line)
    case SrcFile(name) =>
      ChunksOfOneMore(ps, PatchValue(name, "", []));
    case DstFile(name) =>
      ChunksUpdated(ps, n - 1, SetDst(ps[n - 1], name));
    case ChunkStart(a, b) =>
      ChunksUpdated(ps, n - 1, AddChunk(ps[n - 1], ChunkValue(a, b, [])));
    case Body(l) =>
      var k := st.current.value;
      ChunksUpdated(ps, k, AddToLast(ps[k], l));
      var m := |ps[k].chunks| - 1;
      LastOfTwo(AllChunks(ps[..k]), ps[k].chunks);
    case Junk =>
  }

  lemma ChunksOfOneMore(ps: seq<PatchValue>, p: PatchValue)
    ensures AllChunks(ps + [p]) == AllChunks(ps) + p.chunks
  {
    assert (ps + [p])[..|ps|] == ps;
  }

  lemma LastOfTwo<T>(a: seq<T>, b: seq<T>)
    requires b != []
    ensures (a + b)[|a + b| - 1] == b[|b| - 1] && (a + b)[..|a + b| - 1] == a + b[..|b| - 1]
  {
  }

  lemma StepShapes(st: State, line: string)
    requires StateOk(st) && Step(st, line).Some?
    ensures var ps, ps' := st.patches, Step(st, line).value.patches;
      match Classify(line)
      case SrcFile(name) => ps' == ps + [PatchValue(name, "", [])]
      case DstFile(name) => ps != [] && SameShapes(ps, ps', ShapeOf(ps[|ps| - 1]).(dst := name))
      case ChunkStart(_, _) => ps != [] && SameShapes(ps, ps', ShapeOf(ps[|ps| - 1]).(chunks := |ps[|ps| - 1].chunks| + 1))
      case _ => |ps'| == |ps| && forall i :: 0 <= i < |ps| ==> ShapeOf(ps'[i]) == ShapeOf(ps[i])
  {
    hide Classify;
  }

  /** Only the last patch is of another shape. */
  ghost predicate SameShapes(ps: seq<PatchValue>, ps': seq<PatchValue>, last: Shape) {
    && |ps'| == |ps| > 0 && ShapeOf(ps'[|ps| - 1]) == last
    && forall i :: 0 <= i < |ps| - 1 ==> ShapeOf(ps'[i]) == ShapeOf(ps[i])
  }

  lemma {:induction false} ParsedChunks(lines: seq<string>)
    requires Parse(lines).Some?
    ensures EmptyAfter(Parse(lines).value) && AllChunks(Parse(lines).value.patches) == ChunksOf(lines)
    decreases |lines|
  {
    if lines != [] {
      var m := |lines| - 1;
      ParsedChunks(lines[..m]);
      assert Parse(lines[..m]).Some? && Parse(lines) == Step(Parse(lines[..m]).value, lines[m]);
      hide Parse, Classify, Step, AllChunks, EmptyAfter;
      StepChunks(Parse(lines[..m]).value, lines[m]);
    }
  }

  ghost predicate Shaped(ps: seq<PatchValue>, shapes: seq<Shape>) {
    |ps| == |shapes| && forall i :: 0 <= i < |ps| ==> ShapeOf(ps[i]) == shapes[i]
  }

  lemma ShapesNext(st: State, line: string, shapes: seq<Shape>)
    requires StateOk(st) && Step(st, line).Some? && Shaped(st.patches, shapes)
    ensures Shaped(Step(st, line).value.patches, NextShapes(shapes, Classify(line)))
  {
    StepShapes(st, line);
    hide Classify, Step;
  }

  lemma {:induction false} ParsedShapes(lines: seq<string>)
    requires Parse(lines).Some?
    ensures Shaped(Parse(lines).value.patches, ShapesOf(lines))
    decreases |lines|
  {
    if lines != [] {
      var m := |lines| - 1;
      assert Parse(lines[..m]).Some? && Parse(lines) == Step(Parse(lines[..m]).value, lines[m]);
      assert ShapesOf(lines) == NextShapes(ShapesOf(lines[..m]), Classify(lines[m]));
      hide *;
      ParsedShapes(lines[..m]);
      ShapesNext(Parse(lines[..m]).value, lines[m], ShapesOf(lines[..m]));
    }
  }

  /** A parsed input has exactly these patches, by names and numbers of chunks, and all their chunks in a row are these. */
  lemma ParsedIs(lines: seq<string>)
    requires Parse(lines).Some?
    ensures var ps := Parse(lines).value.patches;
      && AllChunks(ps) == ChunksOf(lines)
      && |ps| == |ShapesOf(lines)| && forall i :: 0 <= i < |ps| ==> ShapeOf(ps[i]) == ShapesOf(lines)[i]
  {
    ParsedChunks(lines);
    ParsedShapes(lines);
    hide Parse, AllChunks, ChunksOf, ShapesOf, ShapeOf;
  }

  // ----- chunk headers

  ghost predicate Numeral(s: string) {
    s != "" && AllDigits(s)
  }

  /** The line begins like a header with these four numbers, whatever comes after it. */
  ghost predicate HeaderOf(s: string, a: string, n: string, b: string, m: string, rest: string) {
    && Numeral(a) && Numeral(n) && Numeral(b) && Numeral(m)
    && s == "@@ -" + (a + ("," + (n + (" +" + (b + ("," + (m + (" @@" + rest))))))))
  }

  lemma {:induction false} SpanOf(d: string, rest: string)
    requires AllDigits(d) && (rest == "" || !IsDigit(rest[0]))
    ensures DigitSpan(d + rest) == |d|
    decreases |d|
  {
    if d != "" {
      assert (d + rest)[1..] == d[1..] + rest && (d + rest)[0] == d[0];
      SpanOf(d[1..], rest);
    } else {
      assert d + rest == rest;
    }
  }

  lemma NumberOf(s: string, after: string, x: nat, rest: string)
    requires after != "" && !IsDigit(after[0])
    ensures Number(s, after) == Some((x, rest)) <==> exists d :: Numeral(d) && s == d + (after + rest) && ToNat(d) == x
  {
    var n := DigitSpan(s);
    if Number(s, after) == Some((x, rest)) {
      var d := s[..n];
      assert Numeral(d) && s[n..][..|after|] == after && s[n..] == after + rest && s == d + (after + rest);
    }
    if d :| Numeral(d) && s == d + (after + rest) && ToNat(d) == x {
      SpanOf(d, after + rest);
      assert s[..n] == d && s[n..] == after + rest && (after + rest)[|after|..] == rest;
    }
    hide ToNat;
  }

  /** What follows a number and a fixed text, if the line goes on like that. */
  ghost predicate Goes(s: string, d: string, after: string, rest: string) {
    Numeral(d) && s == d + (after + rest)
  }

  lemma NumberGoes(s: string, after: string)
    requires after != "" && !IsDigit(after[0])
    ensures Number(s, after).Some? ==> exists d :: Goes(s, d, after, Number(s, after).value.1) && ToNat(d) == Number(s, after).value.0
    ensures forall d, rest :: Goes(s, d, after, rest) ==> Number(s, after) == Some((ToNat(d), rest))
  {
    if Number(s, after).Some? { NumberOf(s, after, Number(s, after).value.0, Number(s, after).value.1); }
    forall d, rest | Goes(s, d, after, rest) ensures Number(s, after) == Some((ToNat(d), rest)) {
      NumberOf(s, after, ToNat(d), rest);
    }
    hide Number, ToNat, Numeral;
  }

  /** A line is read as a chunk header if and only if it begins like one; its first and third numbers are the positions. */
  lemma HeaderReads(s: string, x: nat, y: nat)
    ensures ReadHeader(s) == Some((x, y))
      <==> exists a, n, b, m, rest :: HeaderOf(s, a, n, b, m, rest) && ToNat(a) == x && ToNat(b) == y
  {
    if ReadHeader(s) == Some((x, y)) { var a, n, b, m, rest := HeaderParts(s); }
    if a, n, b, m, rest :| HeaderOf(s, a, n, b, m, rest) && ToNat(a) == x && ToNat(b) == y {
      HeaderIsMatched(s, a, n, b, m, rest);
    }
    hide ReadHeader, ToNat, HeaderOf;
  }

  lemma FourMatches(s: string) returns (p: (nat, string), q: (nat, string), r: (nat, string), t: (nat, string))
    requires ReadHeader(s).Some?
    ensures StartsWith(s, "@@ -") && Number(s[4..], ",") == Some(p) && Number(p.1, " +") == Some(q)
    ensures Number(q.1, ",") == Some(r) && Number(r.1, " @@") == Some(t) && ReadHeader(s) == Some((p.0, r.0))
  {
    assert StartsWith(s, "@@ -") && |s| >= 4;
    hide Number, StartsWith;
    p := Number(s[4..], ",").value;
    q := Number(p.1, " +").value;
    r := Number(q.1, ",").value;
    t := Number(r.1, " @@").value;
  }

  lemma FourMatched(s: string, p: (nat, string), q: (nat, string), r: (nat, string), t: (nat, string))
    requires StartsWith(s, "@@ -") && Number(s[4..], ",") == Some(p) && Number(p.1, " +") == Some(q)
    requires Number(q.1, ",") == Some(r) && Number(r.1, " @@") == Some(t)
    ensures ReadHeader(s) == Some((p.0, r.0))
  {
    hide Number, StartsWith;
  }

  lemma AfterPrefix(r0: string)
    ensures StartsWith("@@ -" + r0, "@@ -") && ("@@ -" + r0)[4..] == r0
  {
  }

  lemma WithPrefix(s: string)
    requires StartsWith(s, "@@ -")
    ensures |s| >= 4 && s == "@@ -" + s[4..]
  {
    assert s == s[..4] + s[4..];
  }

  lemma Separators()
    ensures !IsDigit(","[0]) && !IsDigit(" +"[0]) && !IsDigit(" @@"[0])
  {
  }

  lemma HeaderParts(s: string) returns (a: string, n: string, b: string, m: string, rest: string)
    requires ReadHeader(s).Some?
    ensures HeaderOf(s, a, n, b, m, rest) && ToNat(a) == ReadHeader(s).value.0 && ToNat(b) == ReadHeader(s).value.1
  {
    var p, q, r, t := FourMatches(s);
    Separators();
    WithPrefix(s);
    hide *;
    NumberGoes(s[4..], ",");
    a :| Goes(s[4..], a, ",", p.1) && ToNat(a) == p.0;
    NumberGoes(p.1, " +");
    n :| Goes(p.1, n, " +", q.1) && ToNat(n) == q.0;
    NumberGoes(q.1, ",");
    b :| Goes(q.1, b, ",", r.1) && ToNat(b) == r.0;
    NumberGoes(r.1, " @@");
    m :| Goes(r.1, m, " @@", t.1) && ToNat(m) == t.0;
    rest := t.1;
    GoOnce(s, s[4..], p.1, q.1, r.1, a, n, b, m, rest);
  }

  lemma GoOnce(s: string, r0: string, r1: string, r2: string, r3: string, a: string, n: string, b: string, m: string, rest: string)
    requires Goes(r0, a, ",", r1) && Goes(r1, n, " +", r2) && Goes(r2, b, ",", r3) && Goes(r3, m, " @@", rest) && s == "@@ -" + r0
    ensures HeaderOf(s, a, n, b, m, rest)
  {
    hide Numeral;
  }

  lemma GoesThrough(s: string, a: string, n: string, b: string, m: string, rest: string) returns (r0: string, r1: string, r2: string, r3: string)
    requires HeaderOf(s, a, n, b, m, rest)
    ensures Goes(r0, a, ",", r1) && Goes(r1, n, " +", r2) && Goes(r2, b, ",", r3) && Goes(r3, m, " @@", rest) && s == "@@ -" + r0
  {
    hide Numeral;
    r3 := m + (" @@" + rest);
    r2 := b + ("," + r3);
    r1 := n + (" +" + r2);
    r0 := a + ("," + r1);
  }

  lemma HeaderIsMatched(s: string, a: string, n: string, b: string, m: string, rest: string)
    requires HeaderOf(s, a, n, b, m, rest)
    ensures AllDigits(a) && AllDigits(b) && ReadHeader(s) == Some((ToNat(a), ToNat(b)))
  {
    var r0, r1, r2, r3 := GoesThrough(s, a, n, b, m, rest);
    AfterPrefix(r0);
    Separators();
    assert AllDigits(a) && AllDigits(n) && AllDigits(b) && AllDigits(m);
    hide *;
    NumberGoes(r0, ",");
    NumberGoes(r1, " +");
    NumberGoes(r2, ",");
    NumberGoes(r3, " @@");
    FourMatched(s, (ToNat(a), r1), (ToNat(n), r2), (ToNat(b), r3), (ToNat(m), rest));
  }
}
