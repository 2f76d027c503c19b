/** `segments`: every line accounted for, and every citation at its own line. */
module Segments {
  import opened Text
  import opened Markdown
  import MarkdownLaw
  import opened Citations
  import opened Fragments
  import opened Prefixes

  function Lines(document: string): (lines: seq<string>)
    ensures lines != []
  {
    Split(document, '\n')
  }

  /** The prose keeps its lines where they were; every other line is left empty. */
  function ProseLine(line: string, kind: Kind): string {
    if kind.Prose? then line else ""
  }

  function ProseLines(lines: seq<string>, kinds: seq<Kind>): (r: seq<string>)
    requires |kinds| == |lines|
    ensures |r| == |lines| && forall i :: 0 <= i < |lines| ==> r[i] == ProseLine(lines[i], kinds[i])
  {
    if lines == [] then []
    else ProseLines(lines[..|lines| - 1], kinds[..|kinds| - 1]) + [ProseLine(lines[|lines| - 1], kinds[|kinds| - 1])]
  }

  /** Code lines, each whole and under its own number. */
  function CodeLines(lines: seq<string>, kinds: seq<Kind>): seq<Fragment>
    requires |kinds| == |lines|
  {
    if lines == [] then []
    else
      var n := |lines| - 1;
      CodeLines(lines[..n], kinds[..n]) + (if kinds[n].Code? then [Fragment(n + 1, lines[n], true)] else [])
  }

  lemma {:induction false} CodeLineExact(lines: seq<string>, kinds: seq<Kind>, f: Fragment)
    requires |kinds| == |lines|
    ensures f in CodeLines(lines, kinds) <==>
              && 0 < f.number <= |lines| && kinds[f.number - 1].Code? && f.text == lines[f.number - 1] && f.code
  {
    if lines != [] {
      var n := |lines| - 1;
      CodeLineExact(lines[..n], kinds[..n], f);
    }
  }

  function Kinds(lines: seq<string>): (kinds: seq<Kind>)
    ensures |kinds| == |lines|
  {
    ScanKeeps(lines);
    ScanAll(lines).1
  }

  lemma KindsNext(lines: seq<string>, i: nat)
    requires i < |lines|
    ensures var (st, kind) := Step(ScanAll(lines[..i]).0, lines[i]);
            && ScanAll(lines[..i + 1]).0 == st && Kinds(lines[..i + 1]) == Kinds(lines[..i]) + [kind]
            && ProseLines(lines[..i + 1], Kinds(lines[..i + 1]))
               == ProseLines(lines[..i], Kinds(lines[..i])) + [ProseLine(lines[i], kind)]
            && CodeLines(lines[..i + 1], Kinds(lines[..i + 1]))
               == CodeLines(lines[..i], Kinds(lines[..i]))
                  + (if kind.Code? then [Fragment(i + 1, lines[i], true)] else [])
  {
    var more := lines[..i + 1];
    assert more[..i] == lines[..i];
    assert Kinds(more)[..i] == Kinds(lines[..i]);
  }

  /** The line scan as it runs: code lines go out at once, prose is collected. */
  method ScanLines(lines: seq<string>) returns (code: seq<Fragment>, prose: seq<string>)
    ensures MarkdownLaw.KindsLaw(lines, Kinds(lines))
    ensures code == CodeLines(lines, Kinds(lines)) && prose == ProseLines(lines, Kinds(lines))
  {
    MarkdownLaw.ScanLaw(lines);
    var st := START;
    code, prose := [], [];
    for i := 0 to |lines|
      invariant st == ScanAll(lines[..i]).0
      invariant code == CodeLines(lines[..i], Kinds(lines[..i])) && prose == ProseLines(lines[..i], Kinds(lines[..i]))
    {
      KindsNext(lines, i);
      var (next, kind) := Step(st, lines[i]);
      if kind.Code? {
        code := code + [Fragment(i + 1, lines[i], true)];
      }
      prose := prose + [ProseLine(lines[i], kind)];
      st := next;
    }
    assert lines[..|lines|] == lines;
  }

  /** The prose text, in which code lines and fence delimiters are empty lines. */
  function ProseText(lines: seq<string>): string
    requires lines != []
  {
    Join(ProseLines(lines, Kinds(lines)), '\n')
  }

  lemma ProseAligned(document: string)
    ensures Aligned(Lines(document), ProseText(Lines(document)))
  {
    var lines := Lines(document);
    SplitParts(document, '\n');
    var prose := ProseLines(lines, Kinds(lines));
    SplitJoin(prose, '\n');
    JoinedAligned(lines, prose, ProseText(lines));
  }

  /** Lines kept or emptied leave their words in place. */
  lemma JoinedAligned(lines: seq<string>, prose: seq<string>, text: string)
    requires |prose| == |lines| && (forall i :: 0 <= i < |lines| ==> prose[i] == lines[i] || prose[i] == "")
    requires Split(text, '\n') == prose
    ensures Aligned(lines, text)
  {
    forall o: nat, n: nat | Token(text, o, n)
      ensures AlignedAt(lines, text, o, n)
    {
      Located(text, o, n);
    }
  }

  lemma CodeLineCites(document: string, f: Fragment, o: nat, n: nat)
    requires f in CodeLines(Lines(document), Kinds(Lines(document))) && Token(f.text, o, n)
    ensures Cites(Lines(document), f, o, f.text[o..o + n], o)
  {
    var lines := Lines(document);
    CodeLineExact(lines, Kinds(lines), f);
    SplitParts(document, '\n');
    LineCites(lines, f, o, n);
  }

  /** All of a document: its code lines, the content of its spans, and the rest of its prose. */
  ghost predicate Covers(lines: seq<string>, spans: seq<Span>, fragments: seq<Fragment>)
    requires lines != [] && Ordered(spans, ProseText(lines))
  {
    var text, code := ProseText(lines), CodeLines(lines, Kinds(lines));
    && |fragments| == |code| + |spans| + 1 && fragments[..|code|] == code
    && SpanFragments(text, spans, fragments[|code|..|code| + |spans|])
    && var last := fragments[|fragments| - 1];
       last.number == 1 && !last.code && Blanked(text, spans, last.text)
  }

  /** The column of a document line at which an offset of the k-th fragment stands, after `code`
      fragments that are whole lines. */
  function Column(text: string, code: nat, spans: seq<Span>, k: nat, o: nat): nat {
    if k < code then o
    else
      var at := if k < code + |spans| then spans[k - code].from + o else o;
      if at <= |text| then Col(text, at) else 0
  }

  /** Every token of every fragment starts at its own column of the line recorded for it. */
  ghost predicate AllCited(lines: seq<string>, spans: seq<Span>, fragments: seq<Fragment>)
    requires lines != []
  {
    var text, code := ProseText(lines), |CodeLines(lines, Kinds(lines))|;
    forall k: nat, o: nat, n: nat :: k < |fragments| && Token(fragments[k].text, o, n) ==>
      Cites(lines, fragments[k], o, fragments[k].text[o..o + n], Column(text, code, spans, k, o))
  }

  lemma SpanAt(lines: seq<string>, text: string, code: nat, spans: seq<Span>, f: Fragment, k: nat, o: nat, n: nat)
    requires Ordered(spans, text) && Aligned(lines, text) && code <= k < code + |spans|
    requires f == Fragment(1 + Row(text, spans[k - code].from), text[spans[k - code].from..spans[k - code].to], true)
    requires Token(f.text, o, n)
    ensures Cites(lines, f, o, f.text[o..o + n], Column(text, code, spans, k, o))
  {
    SpanCites(lines, text, spans[k - code].from, spans[k - code].to, f, o, n);
  }

  lemma RestAt(lines: seq<string>, text: string, code: nat, spans: seq<Span>, f: Fragment, k: nat, o: nat, n: nat)
    requires Aligned(lines, text) && k == code + |spans|
    requires f.number == 1 && Blanked(text, spans, f.text) && Token(f.text, o, n)
    ensures Cites(lines, f, o, f.text[o..o + n], Column(text, code, spans, k, o))
  {
    RemainderCites(lines, text, spans, f, o, n);
  }

  lemma CitedAt(document: string, text: string, spans: seq<Span>, code: seq<Fragment>, cut: seq<Fragment>,
                last: Fragment, k: nat, o: nat, n: nat)
    requires Ordered(spans, text) && Aligned(Lines(document), text) && SpanFragments(text, spans, cut)
    requires forall f :: f in code ==> f in CodeLines(Lines(document), Kinds(Lines(document)))
    requires last.number == 1 && Blanked(text, spans, last.text)
    requires k < |code| + |cut| + 1 && Token(Nth(code, cut, last, k).text, o, n)
    ensures (code + cut + [last])[k] == Nth(code, cut, last, k)
    ensures var f := Nth(code, cut, last, k);
            Cites(Lines(document), f, o, f.text[o..o + n], Column(text, |code|, spans, k, o))
  {
    if k < |code| {
      CodeLineCites(document, code[k], o, n);
    } else if k < |code| + |cut| {
      SpanAt(Lines(document), text, |code|, spans, cut[k - |code|], k, o, n);
    } else {
      RestAt(Lines(document), text, |code|, spans, last, k, o, n);
    }
  }

  function Nth(code: seq<Fragment>, cut: seq<Fragment>, last: Fragment, k: nat): Fragment {
    if k < |code| then code[k] else if k < |code| + |cut| then cut[k - |code|] else last
  }

  lemma ThreeParts(code: seq<Fragment>, cut: seq<Fragment>, last: Fragment)
    ensures var all := code + cut + [last];
            && |all| == |code| + |cut| + 1 && all[..|code|] == code && all[|code|..|code| + |cut|] == cut
            && all[|all| - 1] == last
  {
  }

  lemma AllAt(document: string, spans: seq<Span>, cut: seq<Fragment>, last: Fragment)
    requires var text := ProseText(Lines(document));
             && Ordered(spans, text) && SpanFragments(text, spans, cut)
             && last.number == 1 && Blanked(text, spans, last.text)
    ensures var lines := Lines(document);
            AllCited(lines, spans, CodeLines(lines, Kinds(lines)) + cut + [last])
  {
    var lines := Lines(document);
    var text, code := ProseText(lines), CodeLines(lines, Kinds(lines));
    var fragments := code + cut + [last];
    ProseAligned(document);
    forall k: nat, o: nat, n: nat | k < |fragments| && Token(fragments[k].text, o, n)
      ensures Cites(lines, fragments[k], o, fragments[k].text[o..o + n], Column(text, |code|, spans, k, o))
    {
      CitedAt(document, text, spans, code, cut, last, k, o, n);
    }
  }

  /** `segments`: whole code lines, code spans, then the prose with the spans blanked. Whatever the
      document, every token found in a fragment stands in the line that is recorded for it. */
  method Segment(document: string, find: string -> seq<Span>) returns (fragments: seq<Fragment>)
    requires Ordered(find(ProseText(Lines(document))), ProseText(Lines(document)))
    ensures Covers(Lines(document), find(ProseText(Lines(document))), fragments)
    ensures AllCited(Lines(document), find(ProseText(Lines(document))), fragments)
  {
    var lines := Split(document, '\n');
    var code, prose := ScanLines(lines);
    var text := Join(prose, '\n');
    var spans := find(text);
    var cut, remainder := CutSpans(text, spans);
    fragments := code + cut + [Fragment(1, remainder, false)];
    ThreeParts(code, cut, Fragment(1, remainder, false));
    AllAt(document, spans, cut, Fragment(1, remainder, false));
  }

  // ------------------------------------------------- documents with prefixes

  /** Every token of every fragment stands in the line of the document that is recorded for it, with
      the removed prefixes taken out of that very line. */
  ghost predicate CitedInDocument(chunks: seq<Chunk>, spans: seq<Span>, fragments: seq<Fragment>) {
    var lines, parts := Lines(Original(chunks)), LineChunks(chunks);
    var text, code := ProseText(AllScanned(parts)), |CodeLines(AllScanned(parts), Kinds(AllScanned(parts)))|;
    && |parts| == |lines|
    && forall k: nat, o: nat, n: nat :: k < |fragments| && Token(fragments[k].text, o, n) ==>
         var row := Recorded(fragments[k], o);
         && 0 <= row < |lines| && lines[row] == Original(parts[row])
         && StandsAt(Scanned(parts[row]), fragments[k].text[o..o + n], Column(text, code, spans, k, o))
  }

  /** `references` up to its tokens: the prefixes go, then the rest is taken apart. A recorded line is
      a line of the document itself whenever no removed piece holds a newline. */
  method Scan(chunks: seq<Chunk>, find: string -> seq<Span>) returns (fragments: seq<Fragment>)
    requires Ordered(find(ProseText(Lines(Scanned(chunks)))), ProseText(Lines(Scanned(chunks))))
    ensures Covers(Lines(Scanned(chunks)), find(ProseText(Lines(Scanned(chunks)))), fragments)
    ensures OneLinePieces(chunks) ==>
              CitedInDocument(chunks, find(ProseText(Lines(Scanned(chunks)))), fragments)
  {
    fragments := Segment(Scanned(chunks), find);
    if OneLinePieces(chunks) {
      LinesKept(chunks);
      InDocument(chunks, find(ProseText(Lines(Scanned(chunks)))), fragments);
    }
  }

  lemma InDocument(chunks: seq<Chunk>, spans: seq<Span>, fragments: seq<Fragment>)
    requires AllCited(Lines(Scanned(chunks)), spans, fragments)
    requires Lines(Original(chunks)) == Originals(LineChunks(chunks))
    requires Lines(Scanned(chunks)) == AllScanned(LineChunks(chunks))
    ensures CitedInDocument(chunks, spans, fragments)
  {
    var lines, parts := Lines(Original(chunks)), LineChunks(chunks);
    var scanned := AllScanned(parts);
    var text, code := ProseText(scanned), |CodeLines(scanned, Kinds(scanned))|;
    forall k: nat, o: nat, n: nat | k < |fragments| && Token(fragments[k].text, o, n)
      ensures var row := Recorded(fragments[k], o);
              && 0 <= row < |lines| && lines[row] == Original(parts[row])
              && StandsAt(Scanned(parts[row]), fragments[k].text[o..o + n], Column(text, code, spans, k, o))
    {
      assert Cites(scanned, fragments[k], o, fragments[k].text[o..o + n], Column(text, code, spans, k, o));
    }
  }
}
