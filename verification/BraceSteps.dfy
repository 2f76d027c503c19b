/** Brace expansion of any token: whatever order groups are chosen in, the same strings come out. */
module BraceSteps {
  import opened Basics
  import opened Text
  import opened Braces
  import opened BraceProduct

  predicate NoGroup(s: string) {
    forall i :: 0 <= i < |s| ==> Group(s, i).None?
  }

  /** A group replaced by a string. */
  function Replaced(s: string, i: nat, j: nat, c: string): string
    requires i < j < |s|
  {
    s[..i] + c + s[j + 1..]
  }

  function Options(s: string, i: nat, j: nat): seq<string>
    requires i < j < |s|
  {
    Split(s[i + 1..j], ',')
  }

  /** Any group of a token, not only the first, replaced by any of its choices. */
  function StepAt(s: string, i: nat, c: string): Option<string> {
    if i < |s| && Group(s, i).Some? && c in Options(s, i, Group(s, i).value)
    then Some(Replaced(s, i, Group(s, i).value, c)) else None
  }

  /** Choices made one after another, each at some group of the token as it then is. */
  datatype Choices = Done | Then(i: nat, c: string, rest: Choices)

  function Follow(s: string, choices: Choices): Option<string>
    decreases choices
  {
    match choices
    case Done => Some(s)
    case Then(i, c, rest) =>
      var t :- StepAt(s, i, c);
      Follow(t, rest)
  }

  /** Where choices made at any groups, in any order, can end. */
  ghost predicate Ends(s: string, r: string) {
    NoGroup(r) && exists choices :: Follow(s, choices) == Some(r)
  }

  // --------------------------------------------------------------- two groups

  /** What being a group means, and that it depends on the group's own text only. */
  lemma GroupText(s: string, i: nat)
    requires i < |s| && Group(s, i).Some?
    ensures var j := Group(s, i).value;
            s[j] == '}' && Flat(s[i + 1..j]) && ',' in s[i + 1..j]
  {
    NextBraceSkips(s, i + 1);
  }

  lemma SlicedAgain(s: string, i: nat, j: nat)
    requires i < j < |s|
    ensures var g := s[i..j + 1];
            g[0] == s[i] && g[j - i] == s[j] && g[1..j - i] == s[i + 1..j]
  {
    var g, h := s[i..j + 1][1..j - i], s[i + 1..j];
    forall x | 0 <= x < |h|
      ensures g[x] == h[x]
    {
    }
  }

  lemma GroupMoved(s: string, i: nat, j: nat, t: string, k: nat)
    requires i < j < |s| && Group(s, i) == Some(j) && k + (j - i) < |t| && t[k..k + (j - i) + 1] == s[i..j + 1]
    ensures Group(t, k) == Some(k + (j - i)) && t[k + 1..k + (j - i)] == s[i + 1..j]
  {
    GroupText(s, i);
    var l := k + (j - i);
    SlicedAgain(t, k, l);
    SlicedAgain(s, i, j);
    GroupIs(t, k, l);
  }

  lemma Apart(s: string, i: nat, k: nat)
    requires i < k < |s| && Group(s, i).Some? && Group(s, k).Some?
    ensures Group(s, i).value < k
  {
    NextBraceSkips(s, i + 1);
  }

  lemma Middle(x: string, y: string, z: string)
    ensures (x + y + z)[..|x|] == x && (x + y + z)[|x|..|x| + |y|] == y && (x + y + z)[|x| + |y|..] == z
  {
  }

  /** A group with what stands before and after it. */
  lemma GroupBetween(s: string, i: nat, j: nat, x: string, z: string, c: string)
    requires i < j < |s| && Group(s, i) == Some(j)
    ensures var t := x + s[i..j + 1] + z;
            var a, b := |x|, |x| + (j - i);
            && b < |t| && Group(t, a) == Some(b) && Options(t, a, b) == Options(s, i, j)
            && Replaced(t, a, b, c) == x + c + z
  {
    Middle(x, s[i..j + 1], z);
    GroupMoved(s, i, j, x + s[i..j + 1] + z, |x|);
  }

  lemma Regroup(p: string, d: string, m: string, h: string, q: string)
    ensures p + d + (m + h + q) == (p + d + m) + h + q
    ensures (p + d + m) + h + q == p + d + (m + h + q)
  {
  }

  /** Where the later of two groups stands once the earlier is replaced. */
  function Shifted(i: nat, k: nat, l: nat, d: string): nat
    requires k < l < i
  {
    i - (l - k + 1) + |d|
  }

  lemma LaterStays(s: string, k: nat, l: nat, d: string, i: nat, j: nat, c: string)
    requires k < l < i < j < |s| && Group(s, i) == Some(j)
    ensures var t, a := Replaced(s, k, l, d), Shifted(i, k, l, d);
            && a + (j - i) < |t| && Group(t, a) == Some(a + (j - i))
            && Options(t, a, a + (j - i)) == Options(s, i, j)
            && Replaced(t, a, a + (j - i), c) == s[..k] + d + s[l + 1..i] + c + s[j + 1..]
  {
    var p, m, h, q := s[..k], s[l + 1..i], s[i..j + 1], s[j + 1..];
    FivePieces(s, k, l, i, j);
    GroupBetween(s, i, j, p + d + m, q, c);
    Regroup(p, d, m, h, q);
  }

  lemma EarlierStays(s: string, k: nat, l: nat, d: string, i: nat, j: nat, c: string)
    requires k < l < i < j < |s| && Group(s, k) == Some(l)
    ensures var u := Replaced(s, i, j, c);
            && l < |u| && Group(u, k) == Some(l) && Options(u, k, l) == Options(s, k, l)
            && Replaced(u, k, l, d) == s[..k] + d + s[l + 1..i] + c + s[j + 1..]
  {
    var p, g, m, q := s[..k], s[k..l + 1], s[l + 1..i], s[j + 1..];
    FivePieces(s, k, l, i, j);
    GroupBetween(s, k, l, p, m + c + q, d);
    Regroup(p, g, m, c, q);
    Regroup(p, d, m, c, q);
  }

  /** A choice at one group and then at a later one, the other way round. */
  lemma LaterFirst(s: string, k: nat, l: nat, d: string, i: nat, j: nat, c: string, t: string)
    requires k < l < i < j < |s| && Group(s, k) == Some(l) && Group(s, i) == Some(j)
    requires StepAt(s, k, d) == Some(t) && StepAt(t, Shifted(i, k, l, d), c).Some?
    ensures StepAt(s, i, c).Some?
    ensures StepAt(StepAt(s, i, c).value, k, d) == StepAt(t, Shifted(i, k, l, d), c)
  {
    LaterStays(s, k, l, d, i, j, c);
    EarlierStays(s, k, l, d, i, j, c);
  }

  lemma EarlierFirst(s: string, i: nat, j: nat, c: string, k: nat, l: nat, d: string, t: string)
    requires i < j < k < l < |s| && Group(s, i) == Some(j) && Group(s, k) == Some(l)
    requires StepAt(s, k, d) == Some(t) && StepAt(t, i, c).Some?
    ensures StepAt(s, i, c).Some?
    ensures StepAt(StepAt(s, i, c).value, Shifted(k, i, j, c), d) == StepAt(t, i, c)
  {
    EarlierStays(s, i, j, c, k, l, d);
    LaterStays(s, i, j, c, k, l, d);
  }

  lemma FivePieces(s: string, k: nat, l: nat, i: nat, j: nat)
    requires k < l < i < j < |s|
    ensures s[l + 1..] == s[l + 1..i] + s[i..j + 1] + s[j + 1..]
    ensures s[..i] == s[..k] + s[k..l + 1] + s[l + 1..i]
  {
  }

  // -------------------------------------------------------------- confluence

  /** Where a group is after a step at another one. */
  function Place(s: string, k: nat, d: string, i: nat): int
    requires k < |s| && Group(s, k).Some?
  {
    if i < k then i else i - (Group(s, k).value - k + 1) + |d|
  }

  lemma StillThere(s: string, k: nat, d: string, t: string, i: nat)
    requires StepAt(s, k, d) == Some(t) && i < |s| && Group(s, i).Some? && i != k
    ensures 0 <= Place(s, k, d, i) < |t| && Group(t, Place(s, k, d, i)).Some?
  {
    var j, l := Group(s, i).value, Group(s, k).value;
    if k < i {
      Apart(s, k, i);
      LaterStays(s, k, l, d, i, j, "");
    } else {
      Apart(s, i, k);
      EarlierStays(s, i, j, "", k, l, d);
    }
  }

  /** Two steps at different groups, made the other way round. */
  lemma Swapped(s: string, k: nat, d: string, t: string, i: nat, place: nat, c: string) returns (back: nat)
    requires StepAt(s, k, d) == Some(t) && i < |s| && Group(s, i).Some? && i != k
    requires place == Place(s, k, d, i) && StepAt(t, place, c).Some?
    ensures StepAt(s, i, c).Some? && StepAt(StepAt(s, i, c).value, back, d) == StepAt(t, place, c)
  {
    var j, l := Group(s, i).value, Group(s, k).value;
    if k < i {
      Apart(s, k, i);
      LaterFirst(s, k, l, d, i, j, c, t);
      back := k;
    } else {
      Apart(s, i, k);
      EarlierFirst(s, i, j, c, k, l, d, t);
      back := Shifted(k, i, j, c);
    }
  }

  /** A finished expansion can begin at any group of the token. */
  lemma {:induction false} AnyFirst(s: string, r: string, choices: Choices, i: nat) returns (c: string, rest: Choices)
    requires Follow(s, choices) == Some(r) && NoGroup(r) && i < |s| && Group(s, i).Some?
    ensures Follow(s, Then(i, c, rest)) == Some(r)
    decreases choices
  {
    var Then(k, d, later) := choices;
    if k == i {
      c, rest := d, later;
    } else {
      var t := StepAt(s, k, d).value;
      StillThere(s, k, d, t, i);
      var more;
      c, more := AnyFirst(t, r, later, Place(s, k, d, i));
      var back := Swapped(s, k, d, t, i, Place(s, k, d, i), c);
      rest := Then(back, d, more);
    }
  }

  // -------------------------------------------------------------- expansion

  lemma NoGroupExact(s: string)
    ensures NoGroup(s) <==> Search(s, 0).None?
  {
    if NoGroup(s) {
      SearchNone(s, 0);
    } else {
      var i :| 0 <= i < |s| && Group(s, i).Some?;
      SearchSome(s, 0, i);
    }
  }

  lemma {:induction false} SearchSome(s: string, from: nat, i: nat)
    requires from <= i < |s| && Group(s, i).Some?
    ensures Search(s, from).Some?
    decreases i - from
  {
    if from < i && Group(s, from).None? {
      SearchSome(s, from + 1, i);
    }
  }

  lemma {:induction false} EachExact(before: string, choices: seq<string>, after: string, r: string)
    requires AllFlat(choices)
    ensures r in ExpandEach(before, choices, after) <==>
              exists k :: 0 <= k < |choices| && r in Expand(before + choices[k] + after)
  {
    if choices != [] {
      EachExact(before, choices[1..], after, r);
      if k :| 0 <= k < |choices| && r in Expand(before + choices[k] + after) {
        assert k == 0 || choices[1..][k - 1] == choices[k];
      }
      if r in ExpandEach(before, choices[1..], after) {
        var k :| 0 <= k < |choices[1..]| && r in Expand(before + choices[1..][k] + after);
        assert choices[k + 1] == choices[1..][k];
      }
    }
  }

  /** For every token, nested and stray braces included, expansion gives exactly the strings without
      a group that some sequence of choices, made at any groups in any order, ends in. */
  lemma {:induction false} ExpandExact(s: string, r: string)
    ensures r in Expand(s) <==> Ends(s, r)
    decreases Opens(s)
  {
    NoGroupExact(s);
    if NoGroup(s) {
      ExpandsToItself(s, r);
    } else {
      var (i, j) := Search(s, 0).value;
      SearchGroup(s, 0);
      InsideFlat(s, i, j);
      SplitFlat(s[i + 1..j], ',');
      OpensFewer(s, i, j);
      forall c | c in Options(s, i, j)
        ensures r in Expand(Replaced(s, i, j, c)) <==> Ends(Replaced(s, i, j, c), r)
      {
        OpensBetween(s[..i], c, s[j + 1..]);
        ExpandExact(Replaced(s, i, j, c), r);
      }
      FirstExpand(s, i, j, r);
      FirstChoice(s, i, j, r);
    }
  }

  lemma FirstExpand(s: string, i: nat, j: nat, r: string)
    requires i < j < |s| && Search(s, 0) == Some((i, j)) && AllFlat(Options(s, i, j))
    ensures r in Expand(s) <==> exists c :: c in Options(s, i, j) && r in Expand(Replaced(s, i, j, c))
  {
    ExpandAt(s, i, j);
    EachExact(s[..i], Options(s, i, j), s[j + 1..], r);
    SomeChoice(s, i, j, Options(s, i, j), r);
  }

  lemma SomeChoice(s: string, i: nat, j: nat, choices: seq<string>, r: string)
    requires i < j < |s|
    ensures (exists k :: 0 <= k < |choices| && r in Expand(s[..i] + choices[k] + s[j + 1..]))
            <==> exists c :: c in choices && r in Expand(Replaced(s, i, j, c))
  {
    if k :| 0 <= k < |choices| && r in Expand(s[..i] + choices[k] + s[j + 1..]) {
      assert choices[k] in choices && r in Expand(Replaced(s, i, j, choices[k]));
    }
    if c :| c in choices && r in Expand(Replaced(s, i, j, c)) {
      var k :| 0 <= k < |choices| && choices[k] == c;
      assert r in Expand(s[..i] + choices[k] + s[j + 1..]);
    }
  }

  lemma ExpandsToItself(s: string, r: string)
    requires NoGroup(s)
    ensures r in Expand(s) <==> Ends(s, r)
  {
    NoGroupExact(s);
    assert Expand(s) == [s];
    assert Follow(s, Done) == Some(s);
    forall choices | Follow(s, choices) == Some(r)
      ensures s == r
    {
      assert choices.Done?;
    }
  }

  lemma FirstChoice(s: string, i: nat, j: nat, r: string)
    requires i < j < |s| && Group(s, i) == Some(j)
    ensures Ends(s, r) <==> exists c :: c in Options(s, i, j) && Ends(Replaced(s, i, j, c), r)
  {
    if Ends(s, r) {
      var choices :| Follow(s, choices) == Some(r);
      var c, rest := AnyFirst(s, r, choices, i);
      assert c in Options(s, i, j) && Follow(Replaced(s, i, j, c), rest) == Some(r);
    }
    if c :| c in Options(s, i, j) && Ends(Replaced(s, i, j, c), r) {
      var rest :| Follow(Replaced(s, i, j, c), rest) == Some(r);
      assert Follow(s, Then(i, c, rest)) == Some(r);
    }
  }
}
