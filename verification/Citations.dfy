/** Where a token stands: offsets, lines and the fragments of `segments`. */
module Citations {
  import opened Text

  /** Newlines before an offset: how many lines lie above it. */
  function Row(text: string, o: nat): nat
    requires o <= |text|
  {
    if o == 0 then 0 else (if text[0] == '\n' then 1 else 0) + Row(text[1..], o - 1)
  }

  /** Characters between the start of its line and an offset. */
  function Col(text: string, o: nat): nat
    requires o <= |text|
  {
    if o == 0 then 0
    else Col(text[1..], o - 1) + (if Row(text[1..], o - 1) == 0 && text[0] != '\n' then 1 else 0)
  }

  lemma {:induction false} FirstLine(text: string, n: nat)
    requires n <= |text| && '\n' !in text[..n]
    ensures n <= |Split(text, '\n')[0]| && Split(text, '\n')[0][..n] == text[..n]
  {
    if n > 0 {
      assert text[0] in text[..n];
      assert text[1..][..n - 1] == text[..n][1..];
      FirstLine(text[1..], n - 1);
      var rest := Split(text[1..], '\n')[0];
      assert ([text[0]] + rest)[..n] == [text[0]] + rest[..n - 1];
      assert text[..n] == [text[0]] + text[1..][..n - 1];
    }
  }

  /** A piece without newlines stands in its line, at its column. */
  lemma {:induction false} Located(text: string, o: nat, n: nat)
    requires o + n <= |text| && '\n' !in text[o..o + n]
    ensures var row, col := Row(text, o), Col(text, o);
            && row < |Split(text, '\n')| && col + n <= |Split(text, '\n')[row]|
            && Split(text, '\n')[row][col..col + n] == text[o..o + n]
    decreases o
  {
    if o == 0 {
      assert text[0..n] == text[..n];
      FirstLine(text, n);
    } else {
      var rest := text[1..];
      assert rest[o - 1..o - 1 + n] == text[o..o + n];
      Located(rest, o - 1, n);
      GrownLine(text, o, n);
    }
  }

  lemma GrownLine(text: string, o: nat, n: nat)
    requires 0 < o && o + n <= |text|
    requires var row, col := Row(text[1..], o - 1), Col(text[1..], o - 1);
             && row < |Split(text[1..], '\n')| && col + n <= |Split(text[1..], '\n')[row]|
    ensures var row, col := Row(text[1..], o - 1), Col(text[1..], o - 1);
            && Row(text, o) < |Split(text, '\n')| && Col(text, o) + n <= |Split(text, '\n')[Row(text, o)]|
            && Split(text, '\n')[Row(text, o)][Col(text, o)..Col(text, o) + n]
               == Split(text[1..], '\n')[row][col..col + n]
  {
    var row, col := Row(text[1..], o - 1), Col(text[1..], o - 1);
    var parts := Split(text[1..], '\n');
    if text[0] != '\n' && row == 0 {
      assert ([text[0]] + parts[0])[col + 1..col + 1 + n] == parts[0][col..col + n];
    }
  }

  lemma {:induction false} RowAdd(text: string, a: nat, o: nat)
    requires a + o <= |text|
    ensures Row(text, a + o) == Row(text, a) + Row(text[a..], o)
  {
    if a > 0 {
      RowAdd(text[1..], a - 1, o);
      assert text[1..][a - 1..] == text[a..];
    }
  }

  lemma {:induction false} RowPrefix(text: string, b: nat, o: nat)
    requires o <= b <= |text|
    ensures Row(text[..b], o) == Row(text, o)
  {
    if o > 0 {
      RowPrefix(text[1..], b - 1, o - 1);
      assert text[..b][1..] == text[1..][..b - 1];
    }
  }

  lemma {:induction false} RowSame(a: string, b: string, o: nat)
    requires |a| == |b| && o <= |a| && forall i :: 0 <= i < |a| ==> (a[i] == '\n' <==> b[i] == '\n')
    ensures Row(a, o) == Row(b, o)
  {
    if o > 0 {
      RowSame(a[1..], b[1..], o - 1);
    }
  }

  lemma {:induction false} RowFlat(text: string, o: nat)
    requires o <= |text| && '\n' !in text
    ensures Row(text, o) == 0
  {
    if o > 0 {
      assert text[0] in text;
      RowFlat(text[1..], o - 1);
    }
  }

  /** Offsets inside a slice. */
  lemma SliceRow(text: string, from: nat, to: nat, o: nat)
    requires from <= to <= |text| && o <= to - from
    ensures Row(text, from + o) == Row(text, from) + Row(text[from..to], o)
  {
    RowAdd(text, from, o);
    assert text[from..][..to - from] == text[from..to];
    RowPrefix(text[from..], to - from, o);
  }

  lemma SlicePiece(text: string, from: nat, to: nat, o: nat, n: nat)
    requires from <= to <= |text| && o + n <= to - from
    ensures text[from..to][o..o + n] == text[from + o..from + o + n]
  {
    assert forall i :: from + o <= i < from + o + n ==> text[from..to][i - from] == text[i];
  }

  // ------------------------------------------------------------------ bisect

  /** Where lines start, the first at a given offset. */
  function Starts(text: string, from: nat): seq<nat> {
    if text == [] then []
    else (if text[0] == '\n' then [from + 1] else []) + Starts(text[1..], from + 1)
  }

  /** `bisect_right` on a sorted list: how many elements are at most x. */
  function AtMost(list: seq<nat>, x: nat): nat {
    if list == [] then 0 else (if list[0] <= x then 1 else 0) + AtMost(list[1..], x)
  }

  lemma {:induction false} NoneAtMost(text: string, from: nat, x: nat)
    requires x <= from
    ensures AtMost(Starts(text, from), x) == 0
  {
    if text != [] {
      NoneAtMost(text[1..], from + 1, x);
      var rest := Starts(text[1..], from + 1);
      assert ([from + 1] + rest)[1..] == rest && [] + rest == rest;
    }
  }

  /** The search among the line starts gives the line. */
  lemma {:induction false} BisectRow(text: string, from: nat, o: nat)
    requires o <= |text|
    ensures AtMost(Starts(text, from), from + o) == Row(text, o)
  {
    if o == 0 {
      NoneAtMost(text, from, from);
    } else {
      BisectRow(text[1..], from + 1, o - 1);
      var rest := Starts(text[1..], from + 1);
      assert ([from + 1] + rest)[1..] == rest && [] + rest == rest;
    }
  }
}
