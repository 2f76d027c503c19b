/** The pieces of a line that `segments` looks for, each told by its characters: indentation, list markers,
    the run that opens a fence and the line that closes one. */
module MarkdownTokens {
  import opened Basics
  import opened Markdown

  predicate Leading(lead: string) {
    forall i :: 0 <= i < |lead| ==> lead[i] == ' ' || lead[i] == '\t'
  }

  /** The next column after one more space or, with a stop every four columns, one more tab. */
  function Next(column: nat, c: char): nat {
    if c == '\t' then (column / 4 + 1) * 4 else column + 1
  }

  /** The column after some spaces and tabs. */
  function Width(from: nat, lead: string): nat {
    if lead == [] then from else Next(Width(from, lead[..|lead| - 1]), lead[|lead| - 1])
  }

  lemma {:induction false} WidthFirst(from: nat, c: char, rest: string)
    ensures Width(from, [c] + rest) == Width(Next(from, c), rest)
  {
    var lead := [c] + rest;
    if rest == [] {
      assert lead[..0] == [] && Width(from, lead[..0]) == from;
    } else {
      assert lead[..|lead| - 1] == [c] + rest[..|rest| - 1];
      WidthFirst(from, c, rest[..|rest| - 1]);
    }
  }

  lemma {:induction false} IndentLead(line: string, from: nat) returns (lead: string)
    ensures Leading(lead) && line == lead + Indent(line, from).1 && Indent(line, from).0 == Width(from, lead)
    ensures Indent(line, from).1 != [] ==> !Leading([Indent(line, from).1[0]])
  {
    lead := [];
    if line != [] && (line[0] == ' ' || line[0] == '\t') {
      var rest := IndentLead(line[1..], Next(from, line[0]));
      lead := [line[0]] + rest;
      WidthFirst(from, line[0], rest);
    } else if line != [] {
      assert [line[0]][0] == line[0];
    }
  }

  lemma SameLead(a: string, x: string, b: string, y: string)
    requires a + x == b + y && Leading(a) && Leading(b)
    requires (x == [] || !Leading([x[0]])) && (y == [] || !Leading([y[0]]))
    ensures a == b && x == y
  {
    var line := a + x;
    assert forall i :: 0 <= i < |a| ==> line[i] == a[i];
    assert forall i :: 0 <= i < |b| ==> line[i] == b[i];
    assert x != [] ==> line[|a|] == x[0];
    assert y != [] ==> line[|b|] == y[0];
    assert |a| == |b|;
    assert a == line[..|a|] && x == line[|a|..] && y == line[|b|..];
  }

  /** A line is its indentation, as wide as its spaces and tabs, and its content. */
  lemma IndentExactly(line: string, columns: nat, content: string)
    ensures Indent(line, 0) == (columns, content) <==>
              exists lead :: && line == lead + content && Leading(lead) && Width(0, lead) == columns
                             && (content == [] || !Leading([content[0]]))
  {
    var found := IndentLead(line, 0);
    if lead :| line == lead + content && Leading(lead) && Width(0, lead) == columns
               && (content == [] || !Leading([content[0]])) {
      SameLead(lead, content, found, Indent(line, 0).1);
    }
  }

  /** One of `-*+`, or one to nine digits and `.` or `)`. */
  predicate IsMarker(t: string) {
    || t == "-" || t == "*" || t == "+"
    || (&& 2 <= |t| <= 10 && (t[|t| - 1] == '.' || t[|t| - 1] == ')')
        && forall i :: 0 <= i < |t| - 1 ==> '0' <= t[i] <= '9')
  }

  lemma MarkerExactly(s: string, m: nat)
    requires 0 < m <= |s|
    ensures Marker(s) == m <==> IsMarker(s[..m])
  {
    if IsMarker(s[..m]) && m > 1 {
      assert s[0] == s[..m][0] && s[m - 1] == s[..m][m - 1];
      DigitsExactly(s, m - 1);
    }
    if Marker(s) == m {
      assert m == 1 ==> s[..m] == [s[0]];
    }
  }

  lemma DigitsExactly(s: string, n: nat)
    requires n < |s| && !IsDigit(s[n]) && forall i :: 0 <= i < n ==> IsDigit(s[i])
    ensures DigitRun(s, 0) == n
  {
    var d := DigitRun(s, 0);
    assert d >= n;
    assert d <= n;
  }

  /** A list item: a marker, then all the spaces there are, at least one unless the line ends. */
  lemma ItemExactly(s: string, m: nat, n: nat)
    ensures ListItem(s) == Some((m, n)) <==>
              && 0 < m && m + n <= |s| && IsMarker(s[..m]) && (n > 0 || m == |s|)
              && (forall i :: m <= i < m + n ==> s[i] == ' ') && (m + n < |s| ==> s[m + n] != ' ')
  {
    if 0 < m <= |s| {
      MarkerExactly(s, m);
      SpacesExactly(s, m, n);
    }
  }

  lemma SpacesExactly(s: string, m: nat, n: nat)
    requires m <= |s|
    ensures RunLength(s, m, ' ') == n <==>
              m + n <= |s| && (forall i :: m <= i < m + n ==> s[i] == ' ') && (m + n < |s| ==> s[m + n] != ' ')
  {
    var r := RunLength(s, m, ' ');
    assert r < n && m + n <= |s| ==> s[m + r] != ' ';
  }

  /** A run of one character, as long as it goes. */
  predicate WholeRun(s: string, f: string) {
    && f != [] && f <= s && (forall i :: 0 <= i < |f| ==> f[i] == f[0]) && (|f| < |s| ==> s[|f|] != f[0])
  }

  lemma WholeRunExactly(s: string, f: string)
    requires s != []
    ensures WholeRun(s, f) <==> f == s[..RunLength(s, 0, s[0])]
  {
    var n := RunLength(s, 0, s[0]);
    if WholeRun(s, f) {
      assert f[0] == s[0];
      assert |f| >= n && |f| <= n;
    }
  }

  /** A run of at least three backticks or tildes, as long as it goes, and after backticks no other. */
  lemma FenceExactly(s: string, f: string)
    ensures Fence(s) == Some(f) <==>
              WholeRun(s, f) && |f| >= 3 && (f[0] == '`' || f[0] == '~') && (f[0] == '`' ==> '`' !in s[|f|..])
  {
    if s != [] {
      WholeRunExactly(s, f);
    }
  }

  lemma {:induction false} StrippedExactly(s: string, r: string)
    ensures Stripped(s) == r <==>
              && r <= s && (forall i :: |r| <= i < |s| ==> White(s[i])) && (r != [] ==> !White(r[|r| - 1]))
  {
    if s != [] && White(s[|s| - 1]) {
      var init := s[..|s| - 1];
      StrippedExactly(init, r);
      if r <= s && r != [] && !White(r[|r| - 1]) {
        assert |r| < |s|;
      }
    }
  }

  /** So many of one character, then nothing but white space. */
  predicate RunToEnd(s: string, c: char, n: int) {
    && 0 <= n <= |s| && (forall i :: 0 <= i < n ==> s[i] == c) && (forall i :: n <= i < |s| ==> White(s[i]))
  }

  /** A fence is closed by a run of its own character at least as long, with nothing but white space after. */
  lemma ClosesExactly(fence: string, s: string)
    requires GoodFence(Some(fence))
    ensures Closes(fence, s) <==> exists n :: |fence| <= n && RunToEnd(s, fence[0], n)
  {
    var r := Stripped(s);
    StrippedExactly(s, r);
    if Closes(fence, s) {
      assert forall i :: 0 <= i < |r| ==> s[i] == r[i];
      assert RunToEnd(s, fence[0], |r|);
    }
    if n :| |fence| <= n && RunToEnd(s, fence[0], n) {
      RunCloses(fence, s, n);
    }
  }

  lemma RunCloses(fence: string, s: string, n: nat)
    requires GoodFence(Some(fence)) && |fence| <= n && RunToEnd(s, fence[0], n)
    ensures Closes(fence, s)
  {
    StrippedExactly(s, s[..n]);
    assert fence <= s[..n];
  }
}
