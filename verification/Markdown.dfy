/** The line scan of `segments`: fences, list items and indented code. */
module Markdown {
  import opened Basics

  /** What becomes of a line: yielded whole as code, a fence delimiter, or kept as prose. */
  datatype Kind = Code | Delimiter | Prose

  datatype Scan = Scan(fence: Option<string>, items: seq<nat>, blank: bool, opens: bool)

  const START := Scan(None, [], true, true)

  /** Columns of indentation, with tab stops every four, and the rest of the line. */
  function Indent(line: string, columns: nat): (nat, string) {
    if line == [] then (columns, "")
    else if line[0] == ' ' then Indent(line[1..], columns + 1)
    else if line[0] == '\t' then Indent(line[1..], columns + 4 - columns % 4)
    else (columns, line)
  }

  /** What `str.rstrip` strips. */
  predicate White(c: char) {
    var n := c as int;
    || n == 0x20 || 0x09 <= n <= 0x0D || 0x1C <= n <= 0x1F || n == 0x85 || n == 0xA0 || n == 0x1680
    || 0x2000 <= n <= 0x200A || n == 0x2028 || n == 0x2029 || n == 0x202F || n == 0x205F || n == 0x3000
  }

  function Stripped(s: string): string {
    if s != [] && White(s[|s| - 1]) then Stripped(s[..|s| - 1]) else s
  }

  /** How many times a character repeats from a place on. */
  function RunLength(s: string, from: nat, c: char): (n: nat)
    requires from <= |s|
    ensures from + n <= |s| && forall i :: from <= i < from + n ==> s[i] == c
    ensures from + n < |s| ==> s[from + n] != c
    decreases |s| - from
  {
    if from == |s| || s[from] != c then 0 else 1 + RunLength(s, from + 1, c)
  }

  predicate IsDigit(c: char) {
    '0' <= c <= '9'
  }

  function DigitRun(s: string, from: nat): (n: nat)
    requires from <= |s|
    ensures from + n <= |s| && forall i :: from <= i < from + n ==> IsDigit(s[i])
    ensures from + n < |s| ==> !IsDigit(s[from + n])
    decreases |s| - from
  {
    if from == |s| || !IsDigit(s[from]) then 0 else 1 + DigitRun(s, from + 1)
  }

  /** Length of a list marker: one of `-*+`, or one to nine digits and `.` or `)`. */
  function Marker(s: string): (n: nat)
    ensures n <= |s|
  {
    if s == [] then 0
    else if s[0] in "-*+" then 1
    else
      var d := DigitRun(s, 0);
      if 1 <= d <= 9 && d < |s| && (s[d] == '.' || s[d] == ')') then d + 1 else 0
  }

  /** A list item: its marker's length, and the spaces between it and its content. */
  function ListItem(s: string): (r: Option<(nat, nat)>)
    ensures r.Some? ==> 0 < r.value.0 && r.value.0 + r.value.1 <= |s|
  {
    var m := Marker(s);
    if m == 0 then None
    else
      var spaces := RunLength(s, m, ' ');
      if spaces > 0 || m == |s| then Some((m, spaces)) else None
  }

  /** The run that opens a fence, if the line opens one. */
  function Fence(s: string): Option<string> {
    if s == [] || (s[0] != '`' && s[0] != '~') then None
    else
      var n := RunLength(s, 0, s[0]);
      if n < 3 || (s[0] == '`' && '`' in s[n..]) then None else Some(s[..n])
  }

  predicate Closes(fence: string, content: string) {
    && fence != [] && fence <= Stripped(content)
    && forall i :: 0 <= i < |Stripped(content)| ==> Stripped(content)[i] == fence[0]
  }

  function Last(items: seq<nat>): nat {
    if items == [] then 0 else items[|items| - 1]
  }

  /** Leave the items deeper than a column. */
  function Pop(items: seq<nat>, columns: nat): (r: seq<nat>)
    ensures r <= items && Last(r) <= columns
  {
    if items != [] && columns < items[|items| - 1] then Pop(items[..|items| - 1], columns) else items
  }

  /** The items open after a line that may open one. */
  function Items(items: seq<nat>, columns: nat, item: Option<(nat, nat)>): seq<nat> {
    match item
    case None => items
    case Some((marker, spaces)) => Pop(items, columns) + [columns + marker + if 1 <= spaces <= 4 then spaces else 1]
  }

  /** What follows the marker, if there is one. */
  function Inner(content: string): string {
    match ListItem(content)
    case None => content
    case Some((marker, spaces)) => content[marker + spaces..]
  }

  /** A line outside fences and indented code: an item may open on it, then a fence or a heading. */
  function Open(st: Scan, columns: nat, content: string): (Scan, Kind) {
    var items := Items(st.items, columns, ListItem(content));
    match Fence(Inner(content))
    case Some(fence) => (Scan(Some(fence), items, st.blank, st.opens), Delimiter)
    case None => (Scan(None, items, st.blank, "#" <= Inner(content)), Prose)
  }

  function Step(st: Scan, line: string): (Scan, Kind) {
    var (columns, content) := Indent(line, 0);
    if st.fence.Some? then
      if Closes(st.fence.value, content) then (st.(fence := None, opens := true), Delimiter) else (st, Code)
    else if content == [] then (st.(blank := true, opens := true), Prose)
    else
      var left := st.(items := if st.blank then Pop(st.items, columns) else st.items, blank := false);
      if left.opens && columns >= Last(left.items) + 4 then (left, Code)
      else Open(left, columns, content)
  }

  function ScanAll(lines: seq<string>): (Scan, seq<Kind>) {
    if lines == [] then (START, [])
    else
      var (st, kinds) := ScanAll(lines[..|lines| - 1]);
      var (next, kind) := Step(st, lines[|lines| - 1]);
      (next, kinds + [kind])
  }

  // --------------------------------------------------------------- invariant

  /** Open list items nest: each one's content starts deeper than the one before. */
  predicate Increasing(items: seq<nat>) {
    forall i, j :: 0 <= i < j < |items| ==> items[i] < items[j]
  }

  lemma IncreasingMore(items: seq<nat>, columns: nat, n: nat)
    requires Increasing(items) && n > columns
    ensures Increasing(Pop(items, columns) + [n])
  {
    var kept := Pop(items, columns);
    forall i | 0 <= i < |kept|
      ensures kept[i] < n
    {
      assert kept[i] <= Last(kept) by {
        if i < |kept| - 1 {
          assert items[i] < items[|kept| - 1];
        }
      }
    }
  }

  /** A fence in force is a run of at least three. */
  predicate GoodFence(fence: Option<string>) {
    fence.Some? ==> |fence.value| >= 3 && (fence.value[0] == '`' || fence.value[0] == '~')
                    && forall i :: 0 <= i < |fence.value| ==> fence.value[i] == fence.value[0]
  }

  lemma FenceGood(s: string)
    ensures GoodFence(Fence(s))
  {
  }

  lemma ItemsKeep(items: seq<nat>, columns: nat, item: Option<(nat, nat)>)
    requires Increasing(items) && (item.Some? ==> item.value.0 > 0)
    ensures Increasing(Items(items, columns, item))
  {
    match item
    case None =>
    case Some((marker, spaces)) =>
      IncreasingMore(items, columns, columns + marker + if 1 <= spaces <= 4 then spaces else 1);
  }

  lemma OpenKeeps(st: Scan, columns: nat, content: string)
    requires Increasing(st.items)
    ensures Increasing(Open(st, columns, content).0.items)
    ensures GoodFence(Open(st, columns, content).0.fence)
  {
    ItemsKeep(st.items, columns, ListItem(content));
    FenceGood(Inner(content));
  }

  lemma StepKeeps(st: Scan, line: string)
    requires Increasing(st.items) && GoodFence(st.fence)
    ensures Increasing(Step(st, line).0.items) && GoodFence(Step(st, line).0.fence)
  {
    var (columns, content) := Indent(line, 0);
    var left := st.(items := if st.blank then Pop(st.items, columns) else st.items, blank := false);
    OpenKeeps(left, columns, content);
  }

  lemma {:induction false} ScanKeeps(lines: seq<string>)
    ensures |ScanAll(lines).1| == |lines|
    ensures Increasing(ScanAll(lines).0.items) && GoodFence(ScanAll(lines).0.fence)
  {
    if lines != [] {
      ScanKeeps(lines[..|lines| - 1]);
      StepKeeps(ScanAll(lines[..|lines| - 1]).0, lines[|lines| - 1]);
    }
  }

  // ------------------------------------------------------------------ fences

  /** The kinds of some lines from a state on. */
  function KindsFrom(st: Scan, lines: seq<string>): seq<Kind>
    decreases |lines|
  {
    if lines == [] then []
    else
      var (next, kind) := Step(st, lines[0]);
      [kind] + KindsFrom(next, lines[1..])
  }

  /** The scan of a document goes on from the state its first lines leave. */
  lemma {:induction false} ScanGoesOn(first: seq<string>, rest: seq<string>)
    ensures ScanAll(first + rest).1 == ScanAll(first).1 + KindsFrom(ScanAll(first).0, rest)
    decreases |rest|
  {
    if rest == [] {
      assert first + rest == first;
    } else {
      var more := first + [rest[0]];
      assert more[..|first|] == first && first + rest == more + rest[1..];
      ScanGoesOn(more, rest[1..]);
    }
  }

  predicate NoneCloses(fence: string, lines: seq<string>) {
    forall i :: 0 <= i < |lines| ==> !Closes(fence, Indent(lines[i], 0).1)
  }

  function Codes(n: nat): (kinds: seq<Kind>)
    ensures |kinds| == n && forall i :: 0 <= i < n ==> kinds[i] == Code
  {
    seq(n, _ => Code)
  }

  /** Once a fence is open, every line is code, blank and indented ones included, as long as none
      closes it. */
  lemma {:induction false} FencedLines(st: Scan, lines: seq<string>, rest: seq<string>)
    requires st.fence.Some? && NoneCloses(st.fence.value, lines)
    ensures KindsFrom(st, lines + rest) == Codes(|lines|) + KindsFrom(st, rest)
    decreases |lines|
  {
    if lines == [] {
      assert lines + rest == rest;
    } else {
      FencedLines(st, lines[1..], rest);
      assert (lines + rest)[1..] == lines[1..] + rest;
      assert Step(st, lines[0]) == (st, Code);
      assert [Code] + Codes(|lines| - 1) == Codes(|lines|);
    }
  }

  /** In a document: a line that opens a fence is a delimiter, every line after it is code up to the
      first line that closes it, and that line is a delimiter again. */
  lemma FencedDocument(before: seq<string>, opening: string, lines: seq<string>, closing: string)
    requires ScanAll(before).0.fence.None? && ScanAll(before + [opening]).0.fence.Some?
    requires var fence := ScanAll(before + [opening]).0.fence.value;
             NoneCloses(fence, lines) && Closes(fence, Indent(closing, 0).1)
    ensures ScanAll(before + [opening] + (lines + [closing])).1
            == ScanAll(before).1 + [Delimiter] + (Codes(|lines|) + [Delimiter])
  {
    OpeningLine(before, opening);
    var st := ScanAll(before + [opening]).0;
    ScanGoesOn(before + [opening], lines + [closing]);
    FencedLines(st, lines, [closing]);
    assert KindsFrom(st, [closing]) == [Delimiter];
  }

  /** A fence that is never closed makes code of every line to the end of the document. */
  lemma UnclosedDocument(before: seq<string>, opening: string, lines: seq<string>)
    requires ScanAll(before).0.fence.None? && ScanAll(before + [opening]).0.fence.Some?
    requires NoneCloses(ScanAll(before + [opening]).0.fence.value, lines)
    ensures ScanAll(before + [opening] + lines).1 == ScanAll(before).1 + [Delimiter] + Codes(|lines|)
  {
    OpeningLine(before, opening);
    var st := ScanAll(before + [opening]).0;
    ScanGoesOn(before + [opening], lines);
    AllFenced(st, lines);
  }

  lemma AllFenced(st: Scan, lines: seq<string>)
    requires st.fence.Some? && NoneCloses(st.fence.value, lines)
    ensures KindsFrom(st, lines) == Codes(|lines|)
  {
    FencedLines(st, lines, []);
    assert lines + [] == lines;
  }

  lemma OpeningLine(before: seq<string>, opening: string)
    requires ScanAll(before).0.fence.None? && ScanAll(before + [opening]).0.fence.Some?
    ensures ScanAll(before + [opening]).1 == ScanAll(before).1 + [Delimiter]
  {
    assert (before + [opening])[..|before|] == before;
  }
}
