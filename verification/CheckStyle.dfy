/** The objects that hold patches while they are read and printed. */
module CheckStyle {
  import opened Options
  import opened Decimal
  import opened Loops
  import opened UnifiedDiff

  class PatchChunk {
    const srcPos: nat
    const dstPos: nat
    var lines: seq<Line>

    constructor (srcPos: nat, dstPos: nat)
      ensures this.srcPos == srcPos && this.dstPos == dstPos && lines == []
    {
      this.srcPos, this.dstPos, this.lines := srcPos, dstPos, [];
    }

    ghost predicate Shows(c: ChunkValue)
      reads this
    {
      c == ChunkValue(srcPos, dstPos, lines)
    }

    method AddLine(line: Line)
      modifies this
      ensures lines == old(lines) + [line]
    {
      lines := lines + [line];
    }

    /** The lines of the old file, and of the new one. */
    method CountSrc() returns (n: nat)
      ensures n == |set i: nat | i < |lines| && (lines[i].kind == Src || lines[i].kind == Both)|
      ensures n == SrcLen(lines)
    {
      LengthsCount(lines);
      n := 0;
      for i := 0 to |lines|
        invariant n == SrcLen(lines[..i])
      {
        assert lines[..i + 1][..i] == lines[..i];
        if IsSrc(lines[i]) { n := n + 1; }
      }
      assert lines[..|lines|] == lines;
    }

    method CountDst() returns (n: nat)
      ensures n == |set i: nat | i < |lines| && (lines[i].kind == Dst || lines[i].kind == Both)|
      ensures n == DstLen(lines)
    {
      LengthsCount(lines);
      n := 0;
      for i := 0 to |lines|
        invariant n == DstLen(lines[..i])
      {
        assert lines[..i + 1][..i] == lines[..i];
        if IsDst(lines[i]) { n := n + 1; }
      }
      assert lines[..|lines|] == lines;
    }

    /** Prints the chunk to f; a line whose kind was never set is refused. */
    method Write(f: seq<string>) returns (ok: bool, f': seq<string>)
      ensures ok <==> AllSet(lines)
      ensures ok ==> f' == f + ChunkTexts(ChunkValue(srcPos, dstPos, lines))
      ensures ok ==> |f'| == |f| + 1 + |lines|
      ensures ok ==> (
        var n := |set i: nat | i < |lines| && (lines[i].kind == Src || lines[i].kind == Both)|;
        var m := |set i: nat | i < |lines| && (lines[i].kind == Dst || lines[i].kind == Both)|;
        f'[|f|] == "@@ -" + ToString(srcPos) + "," + ToString(n) + " +" + ToString(dstPos) + "," + ToString(m) + " @@\n")
    {
      var srcLen := CountSrc();
      var dstLen := CountDst();
      hide LineText, ToString, SrcLen, DstLen;
      var header := "@@ -" + ToString(srcPos) + "," + ToString(srcLen) + " +" + ToString(dstPos) + "," + ToString(dstLen) + " @@\n";
      assert header == Header(ChunkValue(srcPos, dstPos, lines));
      hide Header;
      f' := f + [header];
      for i := 0 to |lines|
        invariant AllSet(lines[..i]) && f' == f + [header] + LineTexts(lines[..i])
      {
        assert lines[..i + 1][..i] == lines[..i];
        if lines[i].kind == Unset { return false, f'; }
        f' := f' + [LineText(lines[i])];
      }
      assert lines[..|lines|] == lines;
      LineTextsLength(lines);
      hide LineTexts, AllSet;
      assert f'[|f|] == header;
      return true, f';
    }
  }

  class Patch {
    var src: string
    var dst: string
    var chunks: seq<PatchChunk>

    constructor ()
      ensures src == "" && dst == "" && chunks == []
    {
      src, dst, chunks := "", "", [];
    }

    ghost predicate Shows(p: PatchValue)
      reads this, chunks
    {
      && src == p.src && dst == p.dst && |chunks| == |p.chunks|
      && forall j :: 0 <= j < |chunks| ==> chunks[j].Shows(p.chunks[j])
    }

    method AddChunk(chunk: PatchChunk)
      modifies `chunks
      ensures chunks == old(chunks) + [chunk]
    {
      chunks := chunks + [chunk];
    }

    /** Prints the patch to f. */
    method Write(f: seq<string>, ghost p: PatchValue) returns (ok: bool, f': seq<string>)
      requires Shows(p)
      ensures ok <==> ChunksSet(p.chunks)
      ensures ok ==> f' == f + PatchTexts(p)
    {
      f' := f + ["--- " + src + "\n"];
      f' := f' + ["+++ " + dst + "\n"];
      ghost var start := f';
      assert start == f + ["--- " + p.src + "\n", "+++ " + p.dst + "\n"];
      hide ChunkTexts, AllSet, ChunksTexts, ChunksSet;
      NothingPrinted(p.chunks);
      for j := 0 to |chunks|
        invariant ChunksSet(p.chunks[..j]) && f' == start + ChunksTexts(p.chunks[..j])
      {
        OneMorePrinted(p.chunks, j);
        assert chunks[j].Shows(p.chunks[j]);
        ok, f' := chunks[j].Write(f');
        if !ok { return; }
        Assoc(start, ChunksTexts(p.chunks[..j]), ChunkTexts(p.chunks[j]));
      }
      assert p.chunks[..|chunks|] == p.chunks;
      Assoc(f, ["--- " + p.src + "\n", "+++ " + p.dst + "\n"], ChunksTexts(p.chunks));
      ok := true;
    }
  }

  lemma NothingPrinted(cs: seq<ChunkValue>)
    ensures ChunksTexts(cs[..0]) == [] && ChunksSet(cs[..0])
  {
  }

  lemma OneMorePrinted(cs: seq<ChunkValue>, j: nat)
    requires j < |cs|
    ensures ChunksTexts(cs[..j + 1]) == ChunksTexts(cs[..j]) + ChunkTexts(cs[j])
    ensures ChunksSet(cs[..j + 1]) <==> ChunksSet(cs[..j]) && AllSet(cs[j].lines)
    ensures ChunksSet(cs) ==> AllSet(cs[j].lines)
  {
    hide ChunkTexts, AllSet;
    assert cs[..j + 1][..j] == cs[..j];
  }

  ghost predicate Represents(patchset: seq<Patch>, ps: seq<PatchValue>)
    reads *
  {
    |patchset| == |ps| && forall i :: 0 <= i < |ps| ==> patchset[i].Shows(ps[i])
  }

  /** No patch and no chunk occurs twice. */
  ghost predicate Separate(patchset: seq<Patch>)
    reads *
  {
    && (forall i, k :: 0 <= i < k < |patchset| ==> patchset[i] != patchset[k])
    && (forall i, k, j, l :: 0 <= i < |patchset| && 0 <= k < |patchset| && 0 <= j < |patchset[i].chunks| && 0 <= l < |patchset[k].chunks|
          ==> patchset[i].chunks[j] == patchset[k].chunks[l] ==> i == k && j == l)
  }

  /** The loop variables of the parser stand for its state. */
  ghost predicate Stands(patchset: seq<Patch>, currentPatch: Patch?, currentChunk: PatchChunk?, st: State)
    reads *
  {
    && StateOk(st) && Represents(patchset, st.patches) && Separate(patchset)
    && currentPatch == (if patchset == [] then null else patchset[|patchset| - 1])
    && (match st.current
        case None => currentChunk == null
        case Some(k) => currentChunk == patchset[k].chunks[|patchset[k].chunks| - 1])
  }

  lemma {:induction false} ParseStaysFailed(lines: seq<string>, i: nat)
    requires i <= |lines| && Parse(lines[..i]).None?
    ensures Parse(lines).None?
    decreases |lines|
  {
    hide Step;
    if i < |lines| {
      var m := |lines| - 1;
      assert lines[..m][..i] == lines[..i];
      ParseStaysFailed(lines[..m], i);
    } else {
      assert lines[..i] == lines;
    }
  }

  lemma StandsFor(patchset: seq<Patch>, currentPatch: Patch?, currentChunk: PatchChunk?, st: State)
    requires Stands(patchset, currentPatch, currentChunk, st)
    ensures Represents(patchset, st.patches)
  {
    hide Represents, Separate;
  }

  method StartPatch(name: string, patchset: seq<Patch>, currentPatch: Patch?, currentChunk: PatchChunk?, ghost st: State)
    returns (patchset': seq<Patch>, currentPatch': Patch)
    requires Stands(patchset, currentPatch, currentChunk, st)
    ensures Stands(patchset', currentPatch', currentChunk, State(st.patches + [PatchValue(name, "", [])], st.current))
    ensures patchset' == patchset + [currentPatch'] && fresh(currentPatch') && currentPatch'.chunks == []
  {
    currentPatch' := new Patch();
    patchset' := patchset + [currentPatch'];
    currentPatch'.src := name;
    assert currentPatch'.Shows(PatchValue(name, "", []));
    assert forall i :: 0 <= i < |patchset| ==> patchset'[i] == patchset[i];
    hide PatchChunk.Shows;
  }

  method NameNewFile(name: string, patchset: seq<Patch>, currentPatch: Patch, currentChunk: PatchChunk?, ghost st: State)
    requires Stands(patchset, currentPatch, currentChunk, st)
    modifies currentPatch`dst
    ensures Stands(patchset, currentPatch, currentChunk,
                   State(st.patches[|st.patches| - 1 := SetDst(st.patches[|st.patches| - 1], name)], st.current))
  {
    currentPatch.dst := name;
  }

  method StartChunk(a: nat, b: nat, patchset: seq<Patch>, currentPatch: Patch, currentChunk: PatchChunk?, ghost st: State)
    returns (currentChunk': PatchChunk)
    requires Stands(patchset, currentPatch, currentChunk, st)
    modifies currentPatch`chunks
    ensures var n := |st.patches| - 1;
            Stands(patchset, currentPatch, currentChunk',
                   State(st.patches[n := AddChunk(st.patches[n], ChunkValue(a, b, []))], Some(n)))
    ensures fresh(currentChunk') && currentPatch.chunks == old(currentPatch.chunks) + [currentChunk']
  {
    currentChunk' := new PatchChunk(a, b);
    currentPatch.AddChunk(currentChunk');
  }

  method AppendLine(l: Line, patchset: seq<Patch>, currentPatch: Patch?, currentChunk: PatchChunk, ghost st: State)
    requires Stands(patchset, currentPatch, currentChunk, st)
    modifies currentChunk
    ensures st.current.Some? && var k := st.current.value;
            Stands(patchset, currentPatch, currentChunk, State(st.patches[k := AddToLast(st.patches[k], l)], st.current))
  {
    currentChunk.AddLine(l);
  }

  /** Reads one line. */
  method ReadLine(line: string, patchset: seq<Patch>, currentPatch: Patch?, currentChunk: PatchChunk?, ghost st: State)
    returns (ok: bool, patchset': seq<Patch>, currentPatch': Patch?, currentChunk': PatchChunk?)
    requires Stands(patchset, currentPatch, currentChunk, st)
    modifies currentPatch, currentChunk
    ensures StateOk(st) && (ok <==> Step(st, line).Some?)
    ensures ok ==> Stands(patchset', currentPatch', currentChunk', Step(st, line).value)
    ensures currentPatch' == currentPatch || fresh(currentPatch')
    ensures currentChunk' == currentChunk || fresh(currentChunk')
  {
    hide Classify, Separate;
    ok, patchset', currentPatch', currentChunk' := true, patchset, currentPatch, currentChunk;
    match Classify(line)
    case SrcFile(name) =>
      patchset', currentPatch' := StartPatch(name, patchset, currentPatch, currentChunk, st);
    case DstFile(name) =>
      if currentPatch == null { ok := false; return; }
      NameNewFile(name, patchset, currentPatch, currentChunk, st);
    case ChunkStart(a, b) =>
      if currentPatch == null { ok := false; return; }
      currentChunk' := StartChunk(a, b, patchset, currentPatch, currentChunk, st);
    case Body(l) =>
      if currentChunk == null { ok := false; return; }
      AppendLine(l, patchset, currentPatch, currentChunk, st);
    case Junk =>
      ok := false;
  }

  /** Reads a patchset, line by line; `ok` is false where the parser raises. */
  method ParsePatchset(lines: seq<string>) returns (ok: bool, patchset: seq<Patch>)
    ensures ok <==> Parse(lines).Some?
    ensures ok ==> Represents(patchset, Parse(lines).value.patches)
  {
    patchset := [];
    var currentPatch: Patch? := null;
    var currentChunk: PatchChunk? := null;
    ghost var st := State([], None);
    assert Stands(patchset, currentPatch, currentChunk, st);
    assert Parse(lines[..0]) == Some(st);
    hide Parse, Classify, Step, Stands, Represents;
    for i := 0 to |lines|
      invariant Parse(lines[..i]) == Some(st)
      invariant Stands(patchset, currentPatch, currentChunk, st)
      invariant (currentPatch == null || fresh(currentPatch)) && (currentChunk == null || fresh(currentChunk))
    {
      ParseSnoc(lines[..i], lines[i]);
      assert lines[..i + 1] == lines[..i] + [lines[i]];
      ok, patchset, currentPatch, currentChunk := ReadLine(lines[i], patchset, currentPatch, currentChunk, st);
      if !ok {
        ParseStaysFailed(lines, i + 1);
        return;
      }
      st := Step(st, lines[i]).value;
    }
    assert lines[..|lines|] == lines;
    StandsFor(patchset, currentPatch, currentChunk, st);
    ok := true;
  }
}
