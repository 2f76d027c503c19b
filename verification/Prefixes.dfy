/** The removal of absolute prefixes before a document is scanned: which line a token is then
    recorded under, told of the document as it was. */
module Prefixes {
  import opened Text
  import opened Citations

  /** A document as the substitution takes it apart: pieces that stay, and occurrences of the prefix. */
  datatype Chunk = Stays(text: string) | Goes(text: string)

  function Original(chunks: seq<Chunk>): string {
    if chunks == [] then [] else chunks[0].text + Original(chunks[1..])
  }

  function Scanned(chunks: seq<Chunk>): string {
    if chunks == [] then []
    else (if chunks[0].Stays? then chunks[0].text else []) + Scanned(chunks[1..])
  }

  /** Where a place of the scanned text was. */
  function Place(chunks: seq<Chunk>, o: nat): (at: nat)
    requires o <= |Scanned(chunks)|
    ensures at <= |Original(chunks)|
  {
    if chunks == [] then 0
    else
      var n := |chunks[0].text|;
      if chunks[0].Goes? then n + Place(chunks[1..], o)
      else if o < n then o
      else n + Place(chunks[1..], o - n)
  }

  predicate OneLinePieces(chunks: seq<Chunk>) {
    forall i :: 0 <= i < |chunks| && chunks[i].Goes? ==> '\n' !in chunks[i].text
  }

  // -------------------------------------------------------------------- rows

  lemma RowHead(head: string, tail: string, o: nat)
    requires o <= |head|
    ensures Row(head + tail, o) == Row(head, o)
  {
    assert (head + tail)[..|head|] == head;
    RowPrefix(head + tail, |head|, o);
  }

  lemma RowTail(head: string, tail: string, o: nat)
    requires o <= |tail|
    ensures Row(head + tail, |head| + o) == Row(head, |head|) + Row(tail, o)
  {
    RowAdd(head + tail, |head|, o);
    RowHead(head, tail, |head|);
    assert (head + tail)[|head|..] == tail;
  }

  /** Removing pieces without newlines keeps the row of every place. */
  lemma {:induction false} RowKept(chunks: seq<Chunk>, o: nat)
    requires OneLinePieces(chunks) && o <= |Scanned(chunks)|
    ensures Row(Scanned(chunks), o) == Row(Original(chunks), Place(chunks, o))
  {
    if chunks != [] {
      var text, rest := chunks[0].text, chunks[1..];
      var n := |text|;
      if chunks[0].Goes? {
        assert [] + Scanned(rest) == Scanned(rest);
        RowKept(rest, o);
        RowTail(text, Original(rest), Place(rest, o));
        RowFlat(text, n);
      } else if o < n {
        RowHead(text, Scanned(rest), o);
        RowHead(text, Original(rest), o);
      } else {
        RowKept(rest, o - n);
        RowTail(text, Scanned(rest), o - n);
        RowTail(text, Original(rest), Place(rest, o - n));
      }
    }
  }

  /** Every character of the scanned text is the one at its place. */
  lemma {:induction false} SameCharacter(chunks: seq<Chunk>, o: nat)
    requires o < |Scanned(chunks)|
    ensures Place(chunks, o) < |Original(chunks)| && Original(chunks)[Place(chunks, o)] == Scanned(chunks)[o]
  {
    var n, rest := |chunks[0].text|, chunks[1..];
    if chunks[0].Goes? {
      SameCharacter(rest, o);
    } else if o >= n {
      SameCharacter(rest, o - n);
    }
  }

  /** Newlines in the removed pieces. */
  function Lost(chunks: seq<Chunk>): nat {
    if chunks == [] then 0
    else (if chunks[0].Goes? then Row(chunks[0].text, |chunks[0].text|) else 0) + Lost(chunks[1..])
  }

  lemma {:induction false} EndRows(chunks: seq<Chunk>)
    ensures Place(chunks, |Scanned(chunks)|) == |Original(chunks)|
    ensures Row(Original(chunks), |Original(chunks)|) == Row(Scanned(chunks), |Scanned(chunks)|) + Lost(chunks)
  {
    if chunks != [] {
      var text, rest := chunks[0].text, chunks[1..];
      EndRows(rest);
      RowTail(text, Original(rest), |Original(rest)|);
      if chunks[0].Stays? {
        RowTail(text, Scanned(rest), |Scanned(rest)|);
      } else {
        assert [] + Scanned(rest) == Scanned(rest);
      }
    }
  }

  lemma {:induction false} RowNone(text: string)
    ensures Row(text, |text|) == 0 <==> '\n' !in text
  {
    if text != [] {
      RowNone(text[1..]);
      assert text == [text[0]] + text[1..];
    }
  }

  lemma {:induction false} LostNone(chunks: seq<Chunk>)
    ensures Lost(chunks) == 0 <==> OneLinePieces(chunks)
  {
    if chunks != [] {
      LostNone(chunks[1..]);
      RowNone(chunks[0].text);
      assert chunks == [chunks[0]] + chunks[1..];
    }
  }

  ghost predicate RowsKept(chunks: seq<Chunk>) {
    forall o: nat :: o <= |Scanned(chunks)| ==> Row(Scanned(chunks), o) == Row(Original(chunks), Place(chunks, o))
  }

  /** And only then: every recorded row is the document's own exactly when no removed piece holds a
      newline, which for one prefix means that the repository's path holds none. */
  lemma RowsKeptExactly(chunks: seq<Chunk>)
    ensures RowsKept(chunks) <==> OneLinePieces(chunks)
  {
    if OneLinePieces(chunks) {
      forall o: nat | o <= |Scanned(chunks)|
        ensures Row(Scanned(chunks), o) == Row(Original(chunks), Place(chunks, o))
      {
        RowKept(chunks, o);
      }
    }
    if RowsKept(chunks) {
      EndRows(chunks);
      LostNone(chunks);
    }
  }

  /** Every repository whose path holds a newline fails so: a document that begins with the prefix
      has its first token recorded under line one, and it stands further down. */
  lemma NewlineInPath(prefix: string, text: string)
    requires '\n' in prefix
    ensures var chunks := [Goes(prefix), Stays(text)];
            && Original(chunks) == prefix + text && Scanned(chunks) == text
            && Row(Scanned(chunks), 0) == 0 < Row(Original(chunks), Place(chunks, 0))
  {
    var chunks := [Goes(prefix), Stays(text)];
    OnePiece(text);
    assert chunks[1..] == [Stays(text)];
    RowTail(prefix, text, 0);
    RowNone(prefix);
  }

  lemma OnePiece(text: string)
    ensures Original([Stays(text)]) == text == Scanned([Stays(text)])
    ensures Place([Stays(text)], 0) == 0
  {
    assert [Stays(text)][1..] == [];
  }

  // ------------------------------------------------------------------- lines

  /** Two lists of lines of texts that follow each other: the last and the first are one line. */
  function Glue<T>(p: seq<seq<T>>, q: seq<seq<T>>): (r: seq<seq<T>>)
    requires p != [] && q != []
    ensures |r| == |p| + |q| - 1
  {
    p[..|p| - 1] + [p[|p| - 1] + q[0]] + q[1..]
  }

  lemma GrowGlue(x: char, p: seq<string>, q: seq<string>)
    requires p != [] && q != []
    ensures Grow(x, Glue(p, q), '\n') == Glue(Grow(x, p, '\n'), q)
  {
    if x != '\n' && |p| == 1 {
      Joined([x], p[0], q[0]);
    }
  }

  lemma Joined(a: string, b: string, c: string)
    ensures a + (b + c) == a + b + c
  {
  }

  lemma GlueEmpty(q: seq<string>)
    requires q != []
    ensures Glue([""], q) == q
  {
    assert "" + q[0] == q[0];
  }

  lemma {:induction false} SplitGlue(a: string, b: string)
    ensures Split(a + b, '\n') == Glue(Split(a, '\n'), Split(b, '\n'))
  {
    if a == [] {
      assert a + b == b;
      GlueEmpty(Split(b, '\n'));
    } else {
      assert (a + b)[1..] == a[1..] + b;
      SplitGlue(a[1..], b);
      GrowGlue(a[0], Split(a[1..], '\n'), Split(b, '\n'));
    }
  }

  /** Each line of a piece that stays, as a list of its own. */
  function Apart(parts: seq<string>): (r: seq<seq<Chunk>>)
    ensures |r| == |parts|
  {
    seq(|parts|, i requires 0 <= i < |parts| => [Stays(parts[i])])
  }

  /** The lines of a document, each taken apart. */
  function LineChunks(chunks: seq<Chunk>): (r: seq<seq<Chunk>>)
    ensures r != []
  {
    if chunks == [] then [[]]
    else Glue(if chunks[0].Stays? then Apart(Split(chunks[0].text, '\n')) else [[chunks[0]]], LineChunks(chunks[1..]))
  }

  function Originals(lines: seq<seq<Chunk>>): (r: seq<string>)
    ensures |r| == |lines|
  {
    seq(|lines|, i requires 0 <= i < |lines| => Original(lines[i]))
  }

  function AllScanned(lines: seq<seq<Chunk>>): (r: seq<string>)
    ensures |r| == |lines|
  {
    seq(|lines|, i requires 0 <= i < |lines| => Scanned(lines[i]))
  }

  lemma {:induction false} OriginalConcat(a: seq<Chunk>, b: seq<Chunk>)
    ensures Original(a + b) == Original(a) + Original(b)
  {
    if a == [] {
      assert a + b == b;
    } else {
      assert (a + b)[1..] == a[1..] + b;
      OriginalConcat(a[1..], b);
      Joined(a[0].text, Original(a[1..]), Original(b));
    }
  }

  lemma {:induction false} ScannedConcat(a: seq<Chunk>, b: seq<Chunk>)
    ensures Scanned(a + b) == Scanned(a) + Scanned(b)
  {
    if a == [] {
      assert a + b == b;
    } else {
      assert (a + b)[1..] == a[1..] + b;
      ScannedConcat(a[1..], b);
      Joined(if a[0].Stays? then a[0].text else [], Scanned(a[1..]), Scanned(b));
    }
  }

  lemma TextsGlue(p: seq<seq<Chunk>>, q: seq<seq<Chunk>>)
    requires p != [] && q != []
    ensures Originals(Glue(p, q)) == Glue(Originals(p), Originals(q))
    ensures AllScanned(Glue(p, q)) == Glue(AllScanned(p), AllScanned(q))
  {
    OriginalConcat(p[|p| - 1], q[0]);
    ScannedConcat(p[|p| - 1], q[0]);
  }

  lemma TextsApart(parts: seq<string>)
    ensures Originals(Apart(parts)) == parts && AllScanned(Apart(parts)) == parts
  {
    forall i | 0 <= i < |parts|
      ensures Originals(Apart(parts))[i] == parts[i] == AllScanned(Apart(parts))[i]
    {
      OnePiece(parts[i]);
    }
  }

  lemma PieceGone(text: string)
    ensures Original([Goes(text)]) == text && Scanned([Goes(text)]) == []
  {
    assert [Goes(text)][1..] == [];
  }

  lemma StaysLines(text: string, original: string, scanned: string, later: seq<seq<Chunk>>)
    requires later != [] && Split(original, '\n') == Originals(later) && Split(scanned, '\n') == AllScanned(later)
    ensures var lines := Glue(Apart(Split(text, '\n')), later);
            Split(text + original, '\n') == Originals(lines) && Split(text + scanned, '\n') == AllScanned(lines)
  {
    SplitGlue(text, original);
    SplitGlue(text, scanned);
    TextsApart(Split(text, '\n'));
    TextsGlue(Apart(Split(text, '\n')), later);
  }

  lemma GoesLines(text: string, original: string, scanned: string, later: seq<seq<Chunk>>)
    requires later != [] && Split(original, '\n') == Originals(later) && Split(scanned, '\n') == AllScanned(later)
    requires '\n' !in text
    ensures var lines := Glue([[Goes(text)]], later);
            Split(text + original, '\n') == Originals(lines) && Split(scanned, '\n') == AllScanned(lines)
  {
    SplitGlue(text, original);
    SplitWhole(text, '\n');
    PieceGone(text);
    assert Originals([[Goes(text)]]) == [text] && AllScanned([[Goes(text)]]) == [""];
    TextsGlue([[Goes(text)]], later);
    GlueEmpty(AllScanned(later));
  }

  /** The scanned text has the document's lines, one for one, each with its own pieces removed. */
  lemma {:induction false} LinesKept(chunks: seq<Chunk>)
    requires OneLinePieces(chunks)
    ensures Split(Original(chunks), '\n') == Originals(LineChunks(chunks))
    ensures Split(Scanned(chunks), '\n') == AllScanned(LineChunks(chunks))
  {
    if chunks == [] {
      assert Originals([[]]) == [""] == AllScanned([[]]);
    } else {
      var text, rest := chunks[0].text, chunks[1..];
      LinesKept(rest);
      if chunks[0].Stays? {
        StaysLines(text, Original(rest), Scanned(rest), LineChunks(rest));
      } else {
        assert [] + Scanned(rest) == Scanned(rest);
        GoesLines(text, Original(rest), Scanned(rest), LineChunks(rest));
      }
    }
  }
}
