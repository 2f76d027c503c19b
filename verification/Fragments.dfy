/** Fragments of a text, and the lines recorded for what stands in them. */
module Fragments {
  import opened Citations

  datatype Fragment = Fragment(number: nat, text: string, code: bool)

  /** A code span: where it starts and ends with its backticks, and where its content lies. */
  datatype Span = Span(start: nat, from: nat, to: nat, end: nat)

  /** Matches as `finditer` gives them: in order, apart, within the text. */
  predicate Ordered(spans: seq<Span>, text: string) {
    && (forall i :: 0 <= i < |spans| ==> spans[i].start <= spans[i].from <= spans[i].to <= spans[i].end <= |text|)
    && (forall i, j :: 0 <= i < j < |spans| ==> spans[i].end <= spans[j].start)
  }

  // ------------------------------------------------------------ blanked spans

  predicate Inside(spans: seq<Span>, i: nat) {
    exists k :: 0 <= k < |spans| && spans[k].start <= i < spans[k].end
  }

  /** Spans blanked, newlines kept. */
  predicate Blanked(text: string, spans: seq<Span>, remainder: string) {
    && |remainder| == |text|
    && forall i :: 0 <= i < |text| ==>
         remainder[i] == if Inside(spans, i) && text[i] != '\n' then ' ' else text[i]
  }

  function Blank(s: string): (r: string)
    ensures |r| == |s| && forall i :: 0 <= i < |s| ==> r[i] == if s[i] == '\n' then '\n' else ' '
  {
    seq(|s|, i requires 0 <= i < |s| => if s[i] == '\n' then '\n' else ' ')
  }

  /** Each span's content under the line it starts on. */
  predicate SpanFragments(text: string, spans: seq<Span>, code: seq<Fragment>)
    requires Ordered(spans, text)
  {
    && |code| == |spans|
    && forall k :: 0 <= k < |spans| ==>
         code[k] == Fragment(1 + Row(text, spans[k].from), text[spans[k].from..spans[k].to], true)
  }

  /** The loop over the spans: each goes out with the line its content starts on. */
  method CutSpans(text: string, spans: seq<Span>) returns (code: seq<Fragment>, remainder: string)
    requires Ordered(spans, text)
    ensures SpanFragments(text, spans, code)
    ensures Blanked(text, spans, remainder)
  {
    var end := 0;
    code, remainder := [], [];
    var k := 0;
    while k < |spans|
      invariant 0 <= k <= |spans| && |code| == k && end <= |text| && |remainder| == end
      invariant end == if k == 0 then 0 else spans[k - 1].end
      invariant forall j :: 0 <= j < k ==>
                  code[j] == Fragment(1 + Row(text, spans[j].from), text[spans[j].from..spans[j].to], true)
      invariant Blanked(text[..end], spans[..k], remainder)
    {
      var span := spans[k];
      BisectRow(text, 0, span.from);
      code := code + [Fragment(1 + AtMost(Starts(text, 0), span.from), text[span.from..span.to], true)];
      BlankedMore(text, spans, k, end, remainder);
      remainder := remainder + text[end..span.start] + Blank(text[span.start..span.end]);
      end := span.end;
      k := k + 1;
    }
    BlankedRest(text, spans, end, remainder);
    remainder := remainder + text[end..];
  }

  lemma BlankedMore(text: string, spans: seq<Span>, k: nat, end: nat, remainder: string)
    requires Ordered(spans, text) && k < |spans| && end == (if k == 0 then 0 else spans[k - 1].end)
    requires Blanked(text[..end], spans[..k], remainder)
    ensures end <= spans[k].start
    ensures Blanked(text[..spans[k].end], spans[..k + 1],
                    remainder + text[end..spans[k].start] + Blank(text[spans[k].start..spans[k].end]))
  {
    var next := remainder + text[end..spans[k].start] + Blank(text[spans[k].start..spans[k].end]);
    forall i | 0 <= i < spans[k].end
      ensures next[i] == if Inside(spans[..k + 1], i) && text[i] != '\n' then ' ' else text[i]
    {
      InsideSteps(spans, text, k, end, i);
    }
  }

  lemma InsideSteps(spans: seq<Span>, text: string, k: nat, end: nat, i: nat)
    requires Ordered(spans, text) && k < |spans| && end == (if k == 0 then 0 else spans[k - 1].end) && i < spans[k].end
    ensures i < end ==> (Inside(spans[..k + 1], i) <==> Inside(spans[..k], i))
    ensures end <= i ==> (Inside(spans[..k + 1], i) <==> spans[k].start <= i)
  {
    if i < end {
      if Inside(spans[..k], i) {
        var j :| 0 <= j < k && spans[..k][j].start <= i < spans[..k][j].end;
        assert spans[..k + 1][j] == spans[..k][j];
      }
    } else if spans[k].start <= i {
      assert spans[..k + 1][k] == spans[k];
    }
  }

  lemma BlankedRest(text: string, spans: seq<Span>, end: nat, remainder: string)
    requires Ordered(spans, text) && end == (if spans == [] then 0 else spans[|spans| - 1].end) && end <= |text|
    requires Blanked(text[..end], spans[..|spans|], remainder)
    ensures Blanked(text, spans, remainder + text[end..])
  {
    assert spans[..|spans|] == spans;
    forall i | end <= i < |text|
      ensures !Inside(spans, i)
    {
      forall k | 0 <= k < |spans|
        ensures spans[k].end <= end
      {
        EndsInOrder(spans, text, k);
      }
    }
  }

  lemma EndsInOrder(spans: seq<Span>, text: string, k: nat)
    requires Ordered(spans, text) && k < |spans|
    ensures spans[k].end <= spans[|spans| - 1].end
  {
    if k < |spans| - 1 {
      assert spans[k].end <= spans[|spans| - 1].start;
    }
  }

  // --------------------------------------------------------------- citations

  /** A stretch of a fragment without blanks, as every token is. */
  predicate Token(text: string, o: nat, n: nat) {
    0 < n && o + n <= |text| && '\n' !in text[o..o + n] && ' ' !in text[o..o + n]
  }

  /** The line `references` records for an offset in a fragment, counting from zero. */
  function Recorded(f: Fragment, o: nat): int
    requires o <= |f.text|
  {
    f.number + AtMost(Starts(f.text, 0), o) - 1
  }

  /** The word starts at this column of the line. */
  predicate StandsAt(line: string, word: string, col: nat) {
    col + |word| <= |line| && line[col..col + |word|] == word
  }

  /** The word that stands at an offset of a fragment starts at this column of the recorded line. */
  predicate Cites(lines: seq<string>, f: Fragment, o: nat, word: string, col: nat)
    requires o <= |f.text|
  {
    0 <= Recorded(f, o) < |lines| && StandsAt(lines[Recorded(f, o)], word, col)
  }

  /** A text whose words stand in the same lines and columns of the document. */
  ghost predicate Aligned(lines: seq<string>, text: string) {
    forall o: nat, n: nat :: Token(text, o, n) ==> AlignedAt(lines, text, o, n)
  }

  predicate AlignedAt(lines: seq<string>, text: string, o: nat, n: nat)
    requires o + n <= |text|
  {
    Row(text, o) < |lines| && StandsAt(lines[Row(text, o)], text[o..o + n], Col(text, o))
  }

  lemma RecordedRow(f: Fragment, o: nat)
    requires o <= |f.text|
    ensures Recorded(f, o) == f.number - 1 + Row(f.text, o)
  {
    BisectRow(f.text, 0, o);
  }

  lemma SpanCites(lines: seq<string>, text: string, from: nat, to: nat, f: Fragment, o: nat, n: nat)
    requires Aligned(lines, text) && from <= to <= |text|
    requires f == Fragment(1 + Row(text, from), text[from..to], true) && Token(f.text, o, n)
    ensures Cites(lines, f, o, f.text[o..o + n], Col(text, from + o))
  {
    SlicePiece(text, from, to, o, n);
    assert Token(text, from + o, n);
    assert AlignedAt(lines, text, from + o, n);
    SliceRow(text, from, to, o);
    RecordedRow(f, o);
  }

  lemma BlankedToken(text: string, spans: seq<Span>, remainder: string, o: nat, n: nat)
    requires Blanked(text, spans, remainder) && Token(remainder, o, n)
    ensures text[o..o + n] == remainder[o..o + n] && Row(text, o) == Row(remainder, o)
  {
    forall i | o <= i < o + n
      ensures text[i] == remainder[i]
    {
      assert remainder[i] == remainder[o..o + n][i - o];
    }
    RowSame(text, remainder, o);
  }

  lemma RemainderCites(lines: seq<string>, text: string, spans: seq<Span>, f: Fragment, o: nat, n: nat)
    requires Aligned(lines, text) && f.number == 1 && Blanked(text, spans, f.text) && Token(f.text, o, n)
    ensures Cites(lines, f, o, f.text[o..o + n], Col(text, o))
  {
    BlankedToken(text, spans, f.text, o, n);
    assert AlignedAt(lines, text, o, n);
    RecordedRow(f, o);
  }

  lemma LineCites(lines: seq<string>, f: Fragment, o: nat, n: nat)
    requires 0 < f.number <= |lines| && f.text == lines[f.number - 1] && '\n' !in f.text && Token(f.text, o, n)
    ensures Cites(lines, f, o, f.text[o..o + n], o)
  {
    RowFlat(f.text, o);
    RecordedRow(f, o);
  }
}
