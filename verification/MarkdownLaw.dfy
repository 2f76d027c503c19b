/** What becomes of each line of a document, told of the lines before it: the scan gives every line
    exactly the kind this law asks for. */
module MarkdownLaw {
  import opened Basics
  import opened Markdown

  function Columns(line: string): nat {
    Indent(line, 0).0
  }

  function Content(line: string): string {
    Indent(line, 0).1
  }

  predicate Blank(line: string) {
    Content(line) == []
  }

  predicate Itemed(line: string) {
    ListItem(Content(line)).Some?
  }

  /** What a line says, after the marker and the spaces of an item. */
  function Body(line: string): string {
    if Itemed(line) then Content(line)[ListItem(Content(line)).value.0 + ListItem(Content(line)).value.1..]
    else Content(line)
  }

  /** A heading, inside a list item or not. */
  predicate Heading(line: string) {
    Body(line) != [] && Body(line)[0] == '#'
  }

  /** The run that opens a fence, inside a list item or not. */
  function OpeningRun(line: string): Option<string> {
    Fence(Body(line))
  }

  /** Where the content of an item starts: after its marker and one to four spaces, or else one. */
  function ItemColumn(line: string): nat
    requires Itemed(line)
  {
    var (marker, spaces) := ListItem(Content(line)).value;
    Columns(line) + marker + if 1 <= spaces <= 4 then spaces else 1
  }

  // ----------------------------------------------------------------- the law

  /** An odd number of delimiters: the next line is inside a fence. */
  predicate Fenced(kinds: seq<Kind>) {
    kinds != [] && if kinds[|kinds| - 1].Delimiter? then !Fenced(kinds[..|kinds| - 1]) else Fenced(kinds[..|kinds| - 1])
  }

  predicate Outside(kinds: seq<Kind>, k: int) {
    0 <= k < |kinds| && !Fenced(kinds[..k])
  }

  /** The fence in force: the run of the last delimiter, which opened it. */
  ghost predicate InForce(before: seq<string>, kinds: seq<Kind>, fence: string) {
    && |before| == |kinds|
    && exists o :: Outside(kinds, o) && kinds[o].Delimiter? && OpeningRun(before[o]) == Some(fence)
                   && forall k :: o < k < |kinds| ==> !kinds[k].Delimiter?
  }

  /** The last line outside a fence, or none. */
  function LastOutside(kinds: seq<Kind>): (r: int)
    ensures -1 <= r < |kinds| && (r >= 0 ==> Outside(kinds, r)) && forall k :: r < k < |kinds| ==> !Outside(kinds, k)
  {
    if kinds == [] then -1
    else
      var n := |kinds| - 1;
      assert forall k :: 0 <= k < n ==> kinds[..n][..k] == kinds[..k];
      assert forall k :: 0 <= k < n ==> (Outside(kinds[..n], k) <==> Outside(kinds, k));
      if Outside(kinds, n) then n else LastOutside(kinds[..n])
  }

  /** The last line that is not code, or none. */
  function LastText(kinds: seq<Kind>): (r: int)
    ensures -1 <= r < |kinds| && (r >= 0 ==> !kinds[r].Code?) && forall k :: r < k < |kinds| ==> kinds[k].Code?
  {
    if kinds == [] then -1
    else if !kinds[|kinds| - 1].Code? then |kinds| - 1
    else LastText(kinds[..|kinds| - 1])
  }

  /** The last line outside a fence was blank, or there was none. */
  predicate AfterBlank(before: seq<string>, kinds: seq<Kind>)
    requires |before| == |kinds|
  {
    LastOutside(kinds) == -1 || Blank(before[LastOutside(kinds)])
  }

  /** No paragraph is open: the last line that is not code was a fence's end, blank, or a heading, or there
      was none. */
  predicate NoParagraph(before: seq<string>, kinds: seq<Kind>)
    requires |before| == |kinds|
  {
    var k := LastText(kinds);
    k == -1 || kinds[k].Delimiter? || Blank(before[k]) || Heading(before[k])
  }

  /** A line that opens an item. */
  predicate Itemises(before: seq<string>, kinds: seq<Kind>, o: int)
    requires |before| == |kinds|
  {
    Outside(kinds, o) && !kinds[o].Code? && Itemed(before[o])
  }

  /** A line leaves the items whose content it is left of, if it follows a blank line or opens an item. */
  predicate Leaves(before: seq<string>, kinds: seq<Kind>, k: int, column: nat)
    requires |before| == |kinds| && 0 <= k < |kinds|
  {
    && Outside(kinds, k) && !Blank(before[k]) && Columns(before[k]) < column
    && (AfterBlank(before[..k], kinds[..k]) || Itemises(before, kinds, k))
  }

  /** An item opened and not left since. */
  predicate Stays(before: seq<string>, kinds: seq<Kind>, o: int)
    requires |before| == |kinds|
  {
    && Itemises(before, kinds, o)
    && forall k :: o < k < |kinds| ==> !Leaves(before, kinds, k, ItemColumn(before[o]))
  }

  /** Four columns past every open item that the line itself does not leave, with no paragraph to go on. */
  ghost predicate Indented(before: seq<string>, kinds: seq<Kind>, line: string)
    requires |before| == |kinds|
  {
    && NoParagraph(before, kinds) && Columns(line) >= 4
    && forall o :: Stays(before, kinds, o) && !(AfterBlank(before, kinds) && Columns(line) < ItemColumn(before[o])) ==>
         Columns(line) >= ItemColumn(before[o]) + 4
  }

  /** Inside a fence a line is code unless it closes it. Outside, a blank line is prose, an indented one code,
      one that opens a fence a delimiter, and any other prose. */
  ghost predicate LineLaw(before: seq<string>, kinds: seq<Kind>, line: string, kind: Kind)
    requires |before| == |kinds|
  {
    if Fenced(kinds) then
      exists fence :: InForce(before, kinds, fence) && kind == if Closes(fence, Content(line)) then Delimiter else Code
    else if Blank(line) then kind == Prose
    else if Indented(before, kinds, line) then kind == Code
    else kind == if OpeningRun(line).Some? then Delimiter else Prose
  }

  ghost predicate LawAt(lines: seq<string>, kinds: seq<Kind>, i: int) {
    |kinds| == |lines| && 0 <= i < |lines| && LineLaw(lines[..i], kinds[..i], lines[i], kinds[i])
  }

  ghost predicate KindsLaw(lines: seq<string>, kinds: seq<Kind>) {
    |kinds| == |lines| && forall i :: 0 <= i < |lines| ==> LawAt(lines, kinds, i)
  }

  // --------------------------------------------------------- one line more

  lemma Prefix(before: seq<string>, kinds: seq<Kind>, line: string, kind: Kind, k: int)
    requires |before| == |kinds| && 0 <= k <= |kinds|
    ensures (before + [line])[..k] == before[..k] && (kinds + [kind])[..k] == kinds[..k]
    ensures k < |kinds| ==> (Outside(kinds + [kind], k) <==> Outside(kinds, k))
  {
  }

  lemma FencedMore(kinds: seq<Kind>, kind: Kind)
    ensures Fenced(kinds + [kind]) <==> if kind.Delimiter? then !Fenced(kinds) else Fenced(kinds)
    ensures Outside(kinds + [kind], |kinds|) <==> !Fenced(kinds)
  {
    assert (kinds + [kind])[..|kinds|] == kinds;
  }

  lemma LastMore(kinds: seq<Kind>, kind: Kind)
    ensures LastOutside(kinds + [kind]) == if Fenced(kinds) then LastOutside(kinds) else |kinds|
    ensures LastText(kinds + [kind]) == if kind.Code? then LastText(kinds) else |kinds|
  {
    assert (kinds + [kind])[..|kinds|] == kinds;
    FencedMore(kinds, kind);
  }

  lemma BlankMore(before: seq<string>, kinds: seq<Kind>, line: string, kind: Kind)
    requires |before| == |kinds|
    ensures AfterBlank(before + [line], kinds + [kind]) <==>
              if Fenced(kinds) then AfterBlank(before, kinds) else Blank(line)
  {
    LastMore(kinds, kind);
  }

  lemma ParagraphMore(before: seq<string>, kinds: seq<Kind>, line: string, kind: Kind)
    requires |before| == |kinds|
    ensures NoParagraph(before + [line], kinds + [kind]) <==>
              if kind.Code? then NoParagraph(before, kinds) else kind.Delimiter? || Blank(line) || Heading(line)
  {
    LastMore(kinds, kind);
  }

  lemma ForceMore(before: seq<string>, kinds: seq<Kind>, line: string, kind: Kind, fence: string)
    requires |before| == |kinds| && !kind.Delimiter? && InForce(before, kinds, fence)
    ensures InForce(before + [line], kinds + [kind], fence)
  {
    var o :| Outside(kinds, o) && kinds[o].Delimiter? && OpeningRun(before[o]) == Some(fence)
             && forall k :: o < k < |kinds| ==> !kinds[k].Delimiter?;
    Prefix(before, kinds, line, kind, o);
    assert (kinds + [kind])[o].Delimiter? && (before + [line])[o] == before[o];
  }

  lemma ForceNew(before: seq<string>, kinds: seq<Kind>, line: string, fence: string)
    requires |before| == |kinds| && !Fenced(kinds) && OpeningRun(line) == Some(fence)
    ensures InForce(before + [line], kinds + [Delimiter], fence)
  {
    FencedMore(kinds, Delimiter);
    assert (kinds + [Delimiter])[|kinds|].Delimiter? && (before + [line])[|before|] == line;
  }

  /** Only one fence is in force. */
  lemma ForceUnique(before: seq<string>, kinds: seq<Kind>, a: string, b: string)
    requires InForce(before, kinds, a) && InForce(before, kinds, b)
    ensures a == b
  {
    var o :| Outside(kinds, o) && kinds[o].Delimiter? && OpeningRun(before[o]) == Some(a)
             && forall k :: o < k < |kinds| ==> !kinds[k].Delimiter?;
    var p :| Outside(kinds, p) && kinds[p].Delimiter? && OpeningRun(before[p]) == Some(b)
             && forall k :: p < k < |kinds| ==> !kinds[k].Delimiter?;
    assert o == p;
  }

  /** What the new line leaves. */
  predicate LeavesNow(before: seq<string>, kinds: seq<Kind>, line: string, kind: Kind, column: nat)
    requires |before| == |kinds|
  {
    && !Fenced(kinds) && !Blank(line) && Columns(line) < column
    && (AfterBlank(before, kinds) || (!kind.Code? && Itemed(line)))
  }

  lemma LeavesSame(before: seq<string>, kinds: seq<Kind>, line: string, kind: Kind, k: int, column: nat)
    requires |before| == |kinds| && 0 <= k < |kinds|
    ensures Leaves(before + [line], kinds + [kind], k, column) <==> Leaves(before, kinds, k, column)
  {
    Prefix(before, kinds, line, kind, k);
    assert (before + [line])[k] == before[k] && (kinds + [kind])[k] == kinds[k];
  }

  lemma LeavesLast(before: seq<string>, kinds: seq<Kind>, line: string, kind: Kind, column: nat)
    requires |before| == |kinds|
    ensures Leaves(before + [line], kinds + [kind], |kinds|, column) <==> LeavesNow(before, kinds, line, kind, column)
  {
    Prefix(before, kinds, line, kind, |kinds|);
    FencedMore(kinds, kind);
    assert before[..|before|] == before && kinds[..|kinds|] == kinds;
  }

  lemma StaysMore(before: seq<string>, kinds: seq<Kind>, line: string, kind: Kind, o: int)
    requires |before| == |kinds| && 0 <= o < |kinds|
    ensures Stays(before + [line], kinds + [kind], o) <==>
              Stays(before, kinds, o) && !LeavesNow(before, kinds, line, kind, ItemColumn(before[o]))
  {
    var all, more := before + [line], kinds + [kind];
    Prefix(before, kinds, line, kind, o);
    assert all[o] == before[o] && more[o] == kinds[o];
    if Itemises(before, kinds, o) {
      var column := ItemColumn(before[o]);
      forall k | o < k < |kinds|
        ensures Leaves(all, more, k, column) <==> Leaves(before, kinds, k, column)
      {
        LeavesSame(before, kinds, line, kind, k, column);
      }
      LeavesLast(before, kinds, line, kind, column);
    }
  }

  lemma StaysLast(before: seq<string>, kinds: seq<Kind>, line: string, kind: Kind)
    requires |before| == |kinds|
    ensures Stays(before + [line], kinds + [kind], |kinds|) <==> !Fenced(kinds) && !kind.Code? && Itemed(line)
  {
    FencedMore(kinds, kind);
    assert (before + [line])[|before|] == line && (kinds + [kind])[|kinds|] == kind;
  }

  // ------------------------------------------------- the state of the scan

  /** The scan's items are the columns of the items that stay. */
  ghost predicate Tracks(before: seq<string>, kinds: seq<Kind>, items: seq<nat>)
    requires |before| == |kinds|
  {
    && (forall o :: Stays(before, kinds, o) ==> ItemColumn(before[o]) in items)
    && (forall c :: c in items ==> exists o :: Stays(before, kinds, o) && ItemColumn(before[o]) == c)
  }

  /** What the scan's state says of the lines before. */
  ghost predicate Represents(before: seq<string>, kinds: seq<Kind>, st: Scan) {
    && |before| == |kinds| && (st.fence.Some? <==> Fenced(kinds))
    && (st.fence.Some? ==> InForce(before, kinds, st.fence.value))
    && (st.blank <==> AfterBlank(before, kinds)) && (st.fence.None? ==> (st.opens <==> NoParagraph(before, kinds)))
    && Increasing(st.items) && Tracks(before, kinds, st.items)
  }

  function NewItems(kinds: seq<Kind>, line: string, kind: Kind): seq<nat> {
    if !Fenced(kinds) && !kind.Code? && Itemed(line) then [ItemColumn(line)] else []
  }

  lemma ItemsMore(before: seq<string>, kinds: seq<Kind>, line: string, kind: Kind, items: seq<nat>, kept: seq<nat>)
    requires |before| == |kinds| && Tracks(before, kinds, items)
    requires forall c :: c in kept <==> c in items && !LeavesNow(before, kinds, line, kind, c)
    ensures Tracks(before + [line], kinds + [kind], kept + NewItems(kinds, line, kind))
  {
    var all, more, next := before + [line], kinds + [kind], kept + NewItems(kinds, line, kind);
    StaysLast(before, kinds, line, kind);
    assert all[|before|] == line;
    forall o | Stays(all, more, o)
      ensures ItemColumn(all[o]) in next
    {
      if o < |kinds| {
        StaysMore(before, kinds, line, kind, o);
        assert all[o] == before[o];
        assert ItemColumn(before[o]) in kept;
      }
    }
    forall c | c in next
      ensures exists o :: Stays(all, more, o) && ItemColumn(all[o]) == c
    {
      if c in kept {
        var o :| Stays(before, kinds, o) && ItemColumn(before[o]) == c;
        StaysMore(before, kinds, line, kind, o);
        assert Stays(all, more, o) && ItemColumn(all[o]) == c;
      } else {
        assert Stays(all, more, |kinds|) && ItemColumn(all[|kinds|]) == c;
      }
    }
  }

  /** Popping leaves the items at or left of a column. */
  lemma {:induction false} PopMembers(items: seq<nat>, columns: nat, c: nat)
    requires Increasing(items)
    ensures c in Pop(items, columns) <==> c in items && c <= columns
  {
    if items != [] {
      var n := |items| - 1;
      if columns < items[n] {
        PopMembers(items[..n], columns, c);
        assert items == items[..n] + [items[n]];
      } else {
        assert forall i :: 0 <= i < |items| ==> items[i] <= items[n];
      }
    }
  }

  lemma LastIsMost(items: seq<nat>, columns: nat)
    requires Increasing(items)
    ensures columns >= Last(items) + 4 <==> columns >= 4 && forall c :: c in items ==> columns >= c + 4
  {
    if items != [] {
      assert forall i :: 0 <= i < |items| ==> items[i] <= items[|items| - 1];
      assert items[|items| - 1] in items;
    }
  }

  /** The items after the line left what it is left of, if it follows a blank line. */
  function Kept(st: Scan, line: string): seq<nat> {
    if st.blank then Pop(st.items, Columns(line)) else st.items
  }

  lemma KeptIncreasing(st: Scan, line: string)
    requires Increasing(st.items)
    ensures Increasing(Kept(st, line))
    ensures forall c :: c in Kept(st, line) <==> c in st.items && !(st.blank && Columns(line) < c)
  {
    forall c: nat
      ensures c in Pop(st.items, Columns(line)) <==> c in st.items && c <= Columns(line)
    {
      PopMembers(st.items, Columns(line), c);
    }
  }

  lemma IndentedExactly(before: seq<string>, kinds: seq<Kind>, st: Scan, line: string)
    requires Represents(before, kinds, st) && st.fence.None?
    ensures Indented(before, kinds, line) <==> st.opens && Columns(line) >= Last(Kept(st, line)) + 4
  {
    KeptIncreasing(st, line);
    LastIsMost(Kept(st, line), Columns(line));
    if Indented(before, kinds, line) {
      forall c | c in Kept(st, line)
        ensures Columns(line) >= c + 4
      {
        var o :| Stays(before, kinds, o) && ItemColumn(before[o]) == c;
      }
    }
    if st.opens && Columns(line) >= Last(Kept(st, line)) + 4 {
      forall o | Stays(before, kinds, o) && !(AfterBlank(before, kinds) && Columns(line) < ItemColumn(before[o]))
        ensures Columns(line) >= ItemColumn(before[o]) + 4
      {
        assert ItemColumn(before[o]) in Kept(st, line);
      }
    }
  }

  lemma FencedStep(before: seq<string>, kinds: seq<Kind>, st: Scan, line: string)
    requires Represents(before, kinds, st) && st.fence.Some?
    ensures var (next, kind) := Step(st, line);
            LineLaw(before, kinds, line, kind) && Represents(before + [line], kinds + [kind], next)
  {
    var (next, kind) := Step(st, line);
    Surroundings(before, kinds, line, kind);
    if kind.Code? {
      ForceMore(before, kinds, line, kind, st.fence.value);
    }
    ItemsMore(before, kinds, line, kind, st.items, st.items);
    assert st.items + [] == st.items;
  }

  lemma Surroundings(before: seq<string>, kinds: seq<Kind>, line: string, kind: Kind)
    requires |before| == |kinds|
    ensures Fenced(kinds + [kind]) <==> if kind.Delimiter? then !Fenced(kinds) else Fenced(kinds)
    ensures AfterBlank(before + [line], kinds + [kind]) <==>
              if Fenced(kinds) then AfterBlank(before, kinds) else Blank(line)
    ensures NoParagraph(before + [line], kinds + [kind]) <==>
              if kind.Code? then NoParagraph(before, kinds) else kind.Delimiter? || Blank(line) || Heading(line)
  {
    FencedMore(kinds, kind);
    BlankMore(before, kinds, line, kind);
    ParagraphMore(before, kinds, line, kind);
  }

  lemma BlankStep(before: seq<string>, kinds: seq<Kind>, st: Scan, line: string)
    requires Represents(before, kinds, st) && st.fence.None? && Blank(line)
    ensures var (next, kind) := Step(st, line);
            LineLaw(before, kinds, line, kind) && Represents(before + [line], kinds + [kind], next)
  {
    Surroundings(before, kinds, line, Prose);
    ItemsMore(before, kinds, line, Prose, st.items, st.items);
    assert st.items + [] == st.items;
  }

  lemma IndentedStep(before: seq<string>, kinds: seq<Kind>, st: Scan, line: string)
    requires Represents(before, kinds, st) && st.fence.None? && !Blank(line)
    requires st.opens && Columns(line) >= Last(Kept(st, line)) + 4
    ensures var (next, kind) := Step(st, line);
            LineLaw(before, kinds, line, kind) && Represents(before + [line], kinds + [kind], next)
  {
    IndentedExactly(before, kinds, st, line);
    Surroundings(before, kinds, line, Code);
    KeptIncreasing(st, line);
    ItemsMore(before, kinds, line, Code, st.items, Kept(st, line));
    assert Kept(st, line) + [] == Kept(st, line);
  }

  /** What opens on a line: an item, a fence or neither. */
  lemma OpenLine(st: Scan, line: string)
    requires st.fence.None? && !Blank(line) && !(st.opens && Columns(line) >= Last(Kept(st, line)) + 4)
    ensures var (next, kind) := Step(st, line);
            && kind == (if OpeningRun(line).Some? then Delimiter else Prose) && next.fence == OpeningRun(line)
            && !next.blank && (kind.Prose? ==> (next.opens <==> Heading(line)))
            && next.items == if Itemed(line) then Pop(Kept(st, line), Columns(line)) + [ItemColumn(line)]
                             else Kept(st, line)
  {
    var left := st.(items := Kept(st, line), blank := false);
    assert Step(st, line) == Open(left, Columns(line), Content(line));
    OpenBody(left, line);
  }

  lemma OpenBody(st: Scan, line: string)
    ensures Inner(Content(line)) == Body(line)
    ensures Items(st.items, Columns(line), ListItem(Content(line)))
            == if Itemed(line) then Pop(st.items, Columns(line)) + [ItemColumn(line)] else st.items
  {
  }

  lemma OpenStep(before: seq<string>, kinds: seq<Kind>, st: Scan, line: string)
    requires Represents(before, kinds, st) && st.fence.None? && !Blank(line)
    requires !(st.opens && Columns(line) >= Last(Kept(st, line)) + 4)
    ensures var (next, kind) := Step(st, line);
            LineLaw(before, kinds, line, kind) && Represents(before + [line], kinds + [kind], next)
  {
    var (next, kind) := Step(st, line);
    OpenLine(st, line);
    IndentedExactly(before, kinds, st, line);
    StepKeeps(st, line);
    OpenTold(before, kinds, st, line, next, kind);
  }

  lemma OpenTold(before: seq<string>, kinds: seq<Kind>, st: Scan, line: string, next: Scan, kind: Kind)
    requires Represents(before, kinds, st) && st.fence.None? && !Blank(line)
    requires kind == (if OpeningRun(line).Some? then Delimiter else Prose) && next.fence == OpeningRun(line)
    requires !next.blank && (kind.Prose? ==> (next.opens <==> Heading(line))) && Increasing(next.items)
    requires next.items == if Itemed(line) then Pop(Kept(st, line), Columns(line)) + [ItemColumn(line)]
                           else Kept(st, line)
    ensures Represents(before + [line], kinds + [kind], next)
  {
    Surroundings(before, kinds, line, kind);
    if kind.Delimiter? {
      ForceNew(before, kinds, line, next.fence.value);
    }
    OpenItems(before, kinds, st, line, kind);
  }

  lemma OpenItems(before: seq<string>, kinds: seq<Kind>, st: Scan, line: string, kind: Kind)
    requires Represents(before, kinds, st) && st.fence.None? && !Blank(line) && !kind.Code?
    ensures Tracks(before + [line], kinds + [kind],
                   if Itemed(line) then Pop(Kept(st, line), Columns(line)) + [ItemColumn(line)] else Kept(st, line))
  {
    if Itemed(line) {
      ItemStep(before, kinds, st, line, kind);
    } else {
      KeptIncreasing(st, line);
      ItemsMore(before, kinds, line, kind, st.items, Kept(st, line));
      assert Kept(st, line) + [] == Kept(st, line);
    }
  }

  lemma ItemStep(before: seq<string>, kinds: seq<Kind>, st: Scan, line: string, kind: Kind)
    requires Represents(before, kinds, st) && st.fence.None? && !Blank(line) && Itemed(line) && !kind.Code?
    ensures Tracks(before + [line], kinds + [kind], Pop(Kept(st, line), Columns(line)) + [ItemColumn(line)])
  {
    KeptIncreasing(st, line);
    forall c: nat
      ensures c in Pop(Kept(st, line), Columns(line)) <==> c in st.items && c <= Columns(line)
    {
      PopMembers(Kept(st, line), Columns(line), c);
    }
    ItemsMore(before, kinds, line, kind, st.items, Pop(Kept(st, line), Columns(line)));
  }

  lemma StepLaw(before: seq<string>, kinds: seq<Kind>, st: Scan, line: string)
    requires Represents(before, kinds, st)
    ensures var (next, kind) := Step(st, line);
            LineLaw(before, kinds, line, kind) && Represents(before + [line], kinds + [kind], next)
  {
    if st.fence.Some? {
      FencedStep(before, kinds, st, line);
    } else if Blank(line) {
      BlankStep(before, kinds, st, line);
    } else if st.opens && Columns(line) >= Last(Kept(st, line)) + 4 {
      IndentedStep(before, kinds, st, line);
    } else {
      OpenStep(before, kinds, st, line);
    }
  }

  // ------------------------------------------------------------- whole documents

  lemma {:induction false} ScanRepresents(lines: seq<string>)
    ensures Represents(lines, ScanAll(lines).1, ScanAll(lines).0)
  {
    if lines != [] {
      var n := |lines| - 1;
      ScanRepresents(lines[..n]);
      StepLaw(lines[..n], ScanAll(lines[..n]).1, ScanAll(lines[..n]).0, lines[n]);
      SameLines(lines);
    }
  }

  lemma SameLines(lines: seq<string>)
    requires lines != []
    ensures lines == lines[..|lines| - 1] + [lines[|lines| - 1]]
  {
  }

  lemma FirstKinds(kinds: seq<Kind>, kind: Kind, i: nat)
    requires i <= |kinds|
    ensures (kinds + [kind])[..i] == kinds[..i] && (kinds + [kind])[|kinds|] == kind
    ensures i < |kinds| ==> (kinds + [kind])[i] == kinds[i]
    ensures kinds[..|kinds|] == kinds
  {
  }

  lemma LastKind(lines: seq<string>)
    requires lines != []
    ensures var n := |lines| - 1;
            && |ScanAll(lines[..n]).1| == n
            && ScanAll(lines).1 == ScanAll(lines[..n]).1 + [Step(ScanAll(lines[..n]).0, lines[n]).1]
  {
    ScanKeeps(lines[..|lines| - 1]);
  }

  lemma NextKind(lines: seq<string>, n: nat)
    requires 0 < n <= |lines|
    ensures |ScanAll(lines[..n - 1]).1| == n - 1
    ensures ScanAll(lines[..n]).1
            == ScanAll(lines[..n - 1]).1 + [Step(ScanAll(lines[..n - 1]).0, lines[n - 1]).1]
  {
    assert lines[..n][..n - 1] == lines[..n - 1];
    LastKind(lines[..n]);
  }

  /** The kinds of the first lines. */
  function KindsTo(lines: seq<string>, n: nat): seq<Kind>
    requires n <= |lines|
  {
    ScanAll(lines[..n]).1
  }

  function KindAt(lines: seq<string>, i: nat): Kind
    requires i < |lines|
  {
    Step(ScanAll(lines[..i]).0, lines[i]).1
  }

  lemma KindsNext(lines: seq<string>, n: nat)
    requires n < |lines|
    ensures |KindsTo(lines, n)| == n && KindsTo(lines, n + 1) == KindsTo(lines, n) + [KindAt(lines, n)]
  {
    NextKind(lines, n + 1);
  }

  lemma {:induction false} EarlierKind(lines: seq<string>, n: nat, i: nat)
    requires i < n <= |lines|
    ensures |KindsTo(lines, n)| == n && KindsTo(lines, n)[..i] == KindsTo(lines, i)
    ensures KindsTo(lines, n)[i] == KindAt(lines, i)
  {
    KindsNext(lines, n - 1);
    FirstKinds(KindsTo(lines, n - 1), KindAt(lines, n - 1), i);
    if i < n - 1 {
      EarlierKind(lines, n - 1, i);
    }
  }

  lemma ScanLawAt(lines: seq<string>, i: nat)
    requires i < |lines|
    ensures LawAt(lines, ScanAll(lines).1, i)
  {
    EarlierKind(lines, |lines|, i);
    assert lines[..|lines|] == lines;
    ScanRepresents(lines[..i]);
    StepLaw(lines[..i], ScanAll(lines[..i]).1, ScanAll(lines[..i]).0, lines[i]);
  }

  lemma ScanLaw(lines: seq<string>)
    ensures KindsLaw(lines, ScanAll(lines).1)
  {
    ScanKeeps(lines);
    forall i | 0 <= i < |lines|
      ensures LawAt(lines, ScanAll(lines).1, i)
    {
      ScanLawAt(lines, i);
    }
  }

  lemma LineUnique(before: seq<string>, kinds: seq<Kind>, line: string, a: Kind, b: Kind)
    requires |before| == |kinds| && LineLaw(before, kinds, line, a) && LineLaw(before, kinds, line, b)
    ensures a == b
  {
    if Fenced(kinds) {
      var f :| InForce(before, kinds, f) && a == if Closes(f, Content(line)) then Delimiter else Code;
      var g :| InForce(before, kinds, g) && b == if Closes(g, Content(line)) then Delimiter else Code;
      ForceUnique(before, kinds, f, g);
    }
  }

  lemma OneKindMore(kinds: seq<Kind>, n: nat)
    requires 0 < n <= |kinds|
    ensures kinds[..n] == kinds[..n - 1] + [kinds[n - 1]]
  {
  }

  lemma {:induction false} LawUnique(lines: seq<string>, a: seq<Kind>, b: seq<Kind>, n: nat)
    requires KindsLaw(lines, a) && KindsLaw(lines, b) && n <= |lines|
    ensures a[..n] == b[..n]
  {
    if n > 0 {
      LawUnique(lines, a, b, n - 1);
      assert LawAt(lines, a, n - 1) && LawAt(lines, b, n - 1);
      LineUnique(lines[..n - 1], a[..n - 1], lines[n - 1], a[n - 1], b[n - 1]);
      OneKindMore(a, n);
      OneKindMore(b, n);
    }
  }

  /** The kinds the scan gives the lines of a document are the only ones that keep the law. */
  lemma KindsExactly(lines: seq<string>, kinds: seq<Kind>)
    ensures ScanAll(lines).1 == kinds <==> KindsLaw(lines, kinds)
  {
    ScanLaw(lines);
    if KindsLaw(lines, kinds) {
      LawUnique(lines, kinds, ScanAll(lines).1, |lines|);
      assert kinds[..|lines|] == kinds && ScanAll(lines).1[..|lines|] == ScanAll(lines).1;
    }
  }
}
