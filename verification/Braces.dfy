/** `expand`: brace lists, innermost and leftmost first. */
module Braces {
  import opened Basics
  import opened Text

  predicate Brace(c: char) {
    c == '{' || c == '}'
  }

  predicate Flat(s: string) {
    forall i :: 0 <= i < |s| ==> !Brace(s[i])
  }

  predicate AllFlat(list: seq<string>) {
    forall k :: 0 <= k < |list| ==> Flat(list[k])
  }

  function NextBrace(s: string, from: nat): (j: nat)
    requires from <= |s|
    ensures from <= j <= |s|
    decreases |s| - from
  {
    if from == |s| || Brace(s[from]) then from else NextBrace(s, from + 1)
  }

  lemma {:induction false} NextBraceIs(s: string, from: nat, j: nat)
    requires from <= j <= |s| && (j < |s| ==> Brace(s[j])) && forall i :: from <= i < j ==> !Brace(s[i])
    ensures NextBrace(s, from) == j
    decreases j - from
  {
    if from < j {
      NextBraceIs(s, from + 1, j);
    }
  }

  lemma {:induction false} NextBraceSkips(s: string, from: nat)
    requires from <= |s|
    ensures forall i :: from <= i < NextBrace(s, from) ==> !Brace(s[i])
    decreases |s| - from
  {
    if from < |s| && !Brace(s[from]) {
      NextBraceSkips(s, from + 1);
    }
  }

  /** Where the group opening here closes, if it is a group: no brace inside, and a comma. */
  function Group(s: string, i: nat): (j: Option<nat>)
    requires i < |s|
    ensures j.Some? ==> i < j.value < |s| && s[i] == '{'
  {
    if s[i] != '{' then None
    else
      var j := NextBrace(s, i + 1);
      if j < |s| && s[j] == '}' && ',' in s[i + 1..j] then Some(j) else None
  }

  /** The first group from a place on. */
  function Search(s: string, from: nat): (r: Option<(nat, nat)>)
    requires from <= |s|
    ensures r.Some? ==> from <= r.value.0 < r.value.1 < |s| && s[r.value.0] == '{'
    decreases |s| - from
  {
    if from == |s| then None
    else match Group(s, from)
    case Some(j) => Some((from, j))
    case None => Search(s, from + 1)
  }

  lemma {:induction false} SearchIs(s: string, from: nat, i: nat, j: nat)
    requires from <= i < |s| && Group(s, i) == Some(j) && forall k :: from <= k < i ==> Group(s, k).None?
    ensures Search(s, from) == Some((i, j))
    decreases i - from
  {
    if from < i {
      SearchIs(s, from + 1, i, j);
    }
  }

  lemma {:induction false} SearchNone(s: string, from: nat)
    requires from <= |s| && forall k :: from <= k < |s| ==> Group(s, k).None?
    ensures Search(s, from).None?
    decreases |s| - from
  {
    if from < |s| {
      SearchNone(s, from + 1);
    }
  }

  lemma {:induction false} SearchGroup(s: string, from: nat)
    requires from <= |s| && Search(s, from).Some?
    ensures Group(s, Search(s, from).value.0) == Some(Search(s, from).value.1)
    decreases |s| - from
  {
    if Group(s, from).None? {
      SearchGroup(s, from + 1);
    }
  }

  /** What a found group encloses has no brace. */
  lemma InsideFlat(s: string, i: nat, j: nat)
    requires i < j < |s| && Search(s, 0) == Some((i, j))
    ensures Flat(s[i + 1..j])
  {
    SearchGroup(s, 0);
    NextBraceSkips(s, i + 1);
  }

  function Opens(s: string): nat {
    if s == [] then 0 else Opens(s[..|s| - 1]) + (if s[|s| - 1] == '{' then 1 else 0)
  }

  lemma {:induction false} OpensConcat(a: string, b: string)
    ensures Opens(a + b) == Opens(a) + Opens(b)
  {
    if b == [] {
      assert a + b == a;
    } else {
      OpensConcat(a, b[..|b| - 1]);
      assert (a + b)[..|a + b| - 1] == a + b[..|b| - 1];
    }
  }

  lemma {:induction false} OpensFlat(s: string)
    requires Flat(s)
    ensures Opens(s) == 0
  {
    if s != [] {
      OpensFlat(s[..|s| - 1]);
    }
  }

  lemma {:induction false} OpensFirst(s: string)
    requires s != [] && s[0] == '{'
    ensures Opens(s) > 0
  {
    if |s| > 1 {
      OpensFirst(s[..|s| - 1]);
    }
  }

  lemma OpensThree(a: string, b: string, c: string)
    ensures Opens(a + b + c) == Opens(a) + Opens(b) + Opens(c)
  {
    OpensConcat(a + b, c);
    OpensConcat(a, b);
  }

  /** Taking a group out takes one opening brace out. */
  lemma OpensFewer(s: string, i: nat, j: nat)
    requires i < j < |s| && s[i] == '{'
    ensures Opens(s[..i]) + Opens(s[j + 1..]) < Opens(s)
  {
    assert s == s[..i] + s[i..j + 1] + s[j + 1..];
    OpensThree(s[..i], s[i..j + 1], s[j + 1..]);
    OpensFirst(s[i..j + 1]);
  }

  lemma {:induction false} SplitFlat(s: string, c: char)
    requires Flat(s)
    ensures AllFlat(Split(s, c))
  {
    if s != [] {
      SplitFlat(s[1..], c);
    }
  }

  /** Ends for every token: each step has one opening brace less. */
  function Expand(s: string): seq<string>
    decreases Opens(s), 0
  {
    match Search(s, 0)
    case None => [s]
    case Some((i, j)) =>
      OpensFewer(s, i, j);
      InsideFlat(s, i, j);
      SplitFlat(s[i + 1..j], ',');
      ExpandEach(s[..i], Split(s[i + 1..j], ','), s[j + 1..])
  }

  function ExpandEach(before: string, choices: seq<string>, after: string): seq<string>
    requires AllFlat(choices)
    decreases Opens(before) + Opens(after), |choices| + 1
  {
    if choices == [] then []
    else
      OpensBetween(before, choices[0], after);
      Expand(before + choices[0] + after) + ExpandEach(before, choices[1..], after)
  }

  lemma OpensBetween(before: string, choice: string, after: string)
    requires Flat(choice)
    ensures Opens(before + choice + after) == Opens(before) + Opens(after)
  {
    OpensConcat(before + choice, after);
    OpensConcat(before, choice);
    OpensFlat(choice);
  }
}
