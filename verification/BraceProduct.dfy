/** Brace expansion of a flat template is the full product of its choices. */
module BraceProduct {
  import opened Basics
  import opened Text
  import opened Braces

  /** A token as its author wrote it: literal parts and lists of choices. */
  datatype Part = Literal(text: string) | Choices(options: seq<string>)

  predicate GoodOption(s: string) {
    Flat(s) && ',' !in s
  }

  predicate GoodPart(p: Part) {
    match p
    case Literal(text) => Flat(text)
    case Choices(options) => |options| >= 2 && forall k :: 0 <= k < |options| ==> GoodOption(options[k])
  }

  predicate GoodParts(parts: seq<Part>) {
    forall k :: 0 <= k < |parts| ==> GoodPart(parts[k])
  }

  function Render(parts: seq<Part>): string
    requires GoodParts(parts)
  {
    if parts == [] then ""
    else (match parts[0]
          case Literal(text) => text
          case Choices(options) => "{" + Join(options, ',') + "}") + Render(parts[1..])
  }

  function Prefixed(p: string, list: seq<string>): (r: seq<string>)
    ensures |r| == |list| && forall i :: 0 <= i < |list| ==> r[i] == p + list[i]
  {
    seq(|list|, i requires 0 <= i < |list| => p + list[i])
  }

  function Combine(options: seq<string>, rest: seq<string>): seq<string> {
    if options == [] then [] else Prefixed(options[0], rest) + Combine(options[1..], rest)
  }

  /** Every way to choose, the first list slowest. */
  function Product(parts: seq<Part>): seq<string> {
    if parts == [] then [""]
    else match parts[0]
    case Literal(text) => Prefixed(text, Product(parts[1..]))
    case Choices(options) => Combine(options, Product(parts[1..]))
  }

  lemma FlatConcat(a: string, b: string)
    requires Flat(a) && Flat(b)
    ensures Flat(a + b)
  {
  }

  lemma {:induction false} JoinFlat(options: seq<string>)
    requires options != [] && forall k :: 0 <= k < |options| ==> GoodOption(options[k])
    ensures Flat(Join(options, ',')) && (|options| >= 2 ==> ',' in Join(options, ','))
  {
    if |options| > 1 {
      JoinFlat(options[1..]);
      assert Join(options, ',') == options[0] + [','] + Join(options[1..], ',');
      assert Join(options, ',')[|options[0]|] == ',';
    }
  }

  /** Without braces there is nothing to expand. */
  lemma SearchFlat(s: string)
    requires Flat(s)
    ensures Search(s, 0).None?
  {
    SearchNone(s, 0);
  }

  lemma GroupIs(s: string, i: nat, j: nat)
    requires i < j < |s| && s[i] == '{' && s[j] == '}' && Flat(s[i + 1..j]) && ',' in s[i + 1..j]
    ensures Group(s, i) == Some(j)
  {
    forall k | i < k < j
      ensures !Brace(s[k])
    {
      assert s[k] == s[i + 1..j][k - i - 1];
    }
    NextBraceIs(s, i + 1, j);
  }

  /** The pieces around a list. */
  lemma Pieces(before: string, inside: string, after: string, s: string, i: nat, j: nat)
    requires s == before + ("{" + inside + "}" + after) && i == |before| && j == i + 1 + |inside|
    ensures i < j < |s| && s[i] == '{' && s[j] == '}'
    ensures s[..i] == before && s[i + 1..j] == inside && s[j + 1..] == after
  {
  }

  /** After a part without braces, a list is the first group. */
  lemma SearchIn(s: string, i: nat, j: nat)
    requires i < j < |s| && s[i] == '{' && s[j] == '}' && Flat(s[i + 1..j]) && ',' in s[i + 1..j] && Flat(s[..i])
    ensures Search(s, 0) == Some((i, j))
  {
    GroupIs(s, i, j);
    forall k | 0 <= k < i
      ensures Group(s, k).None?
    {
      assert s[k] == s[..i][k];
    }
    SearchIs(s, 0, i, j);
  }

  lemma PrefixedTwice(p: string, q: string, list: seq<string>)
    ensures Prefixed(p, Prefixed(q, list)) == Prefixed(p + q, list)
  {
    forall i | 0 <= i < |list|
      ensures Prefixed(p, Prefixed(q, list))[i] == Prefixed(p + q, list)[i]
    {
      Associative(p, q, list[i]);
    }
  }

  lemma PrefixedConcat(p: string, a: seq<string>, b: seq<string>)
    ensures Prefixed(p, a + b) == Prefixed(p, a) + Prefixed(p, b)
  {
    forall i | 0 <= i < |a + b|
      ensures Prefixed(p, a + b)[i] == (Prefixed(p, a) + Prefixed(p, b))[i]
    {
      assert i < |a| ==> (a + b)[i] == a[i];
      assert i >= |a| ==> (a + b)[i] == b[i - |a|];
    }
  }

  /** A flat template expands to its full product, after any part without braces. */
  lemma {:induction false} ExpandAfter(before: string, parts: seq<Part>)
    requires Flat(before) && GoodParts(parts)
    ensures Expand(before + Render(parts)) == Prefixed(before, Product(parts))
    decreases |parts|, 1
  {
    if parts == [] {
      assert before + Render(parts) == before;
      SearchFlat(before);
      assert Prefixed(before, [""]) == [before + ""];
    } else {
      var rest := parts[1..];
      match parts[0]
      case Literal(text) =>
        FlatConcat(before, text);
        ExpandAfter(before + text, rest);
        assert before + Render(parts) == before + text + Render(rest);
        PrefixedTwice(before, text, Product(rest));
      case Choices(options) =>
        OptionsFlat(options);
        ExpandList(before, options, rest);
        assert before + Render(parts) == before + ("{" + Join(options, ',') + "}" + Render(rest));
        ExpandOptions(before, options, rest);
    }
  }

  lemma OptionsFlat(options: seq<string>)
    requires forall k :: 0 <= k < |options| ==> GoodOption(options[k])
    ensures AllFlat(options)
    ensures forall k :: 0 <= k < |options| ==> ',' !in options[k]
  {
    forall k | 0 <= k < |options|
      ensures Flat(options[k]) && ',' !in options[k]
    {
      assert GoodOption(options[k]);
    }
  }

  /** One list and what follows it. */
  lemma ExpandList(before: string, options: seq<string>, rest: seq<Part>)
    requires Flat(before) && GoodParts(rest) && |options| >= 2
    requires forall k :: 0 <= k < |options| ==> GoodOption(options[k])
    requires AllFlat(options)
    requires forall k :: 0 <= k < |options| ==> ',' !in options[k]
    ensures Expand(before + ("{" + Join(options, ',') + "}" + Render(rest)))
            == ExpandEach(before, options, Render(rest))
  {
    var inside := Join(options, ',');
    JoinFlat(options);
    SplitJoin(options, ',');
    var s := before + ("{" + inside + "}" + Render(rest));
    var i := |before|;
    var j := i + 1 + |inside|;
    Pieces(before, inside, Render(rest), s, i, j);
    ExpandGroup(s, i, j, options);
  }

  lemma ExpandGroup(s: string, i: nat, j: nat, options: seq<string>)
    requires i < j < |s| && s[i] == '{' && s[j] == '}' && Flat(s[i + 1..j]) && ',' in s[i + 1..j] && Flat(s[..i])
    requires Split(s[i + 1..j], ',') == options && AllFlat(options)
    ensures Expand(s) == ExpandEach(s[..i], options, s[j + 1..])
  {
    SearchIn(s, i, j);
    ExpandAt(s, i, j);
  }

  lemma ExpandAt(s: string, i: nat, j: nat)
    requires i < j < |s| && Search(s, 0) == Some((i, j))
    requires AllFlat(Split(s[i + 1..j], ','))
    ensures Expand(s) == ExpandEach(s[..i], Split(s[i + 1..j], ','), s[j + 1..])
  {
    var choices := Split(s[i + 1..j], ',');
    var each := ExpandEach(s[..i], choices, s[j + 1..]);
    assert Expand(s) == each;
  }

  lemma {:induction false} ExpandOptions(before: string, options: seq<string>, rest: seq<Part>)
    requires Flat(before) && GoodParts(rest) && AllFlat(options)
    ensures ExpandEach(before, options, Render(rest)) == Prefixed(before, Combine(options, Product(rest)))
    decreases |rest|, 2 + |options|
  {
    if options != [] {
      FlatConcat(before, options[0]);
      ExpandAfter(before + options[0], rest);
      ExpandOptions(before, options[1..], rest);
      PrefixedTwice(before, options[0], Product(rest));
      PrefixedConcat(before, Prefixed(options[0], Product(rest)), Combine(options[1..], Product(rest)));
    }
  }

  /** Brace expansion of a flat template is the full product of its choices. */
  lemma ExpandProduct(parts: seq<Part>)
    requires GoodParts(parts)
    ensures Expand(Render(parts)) == Product(parts)
  {
    ExpandAfter("", parts);
    assert "" + Render(parts) == Render(parts);
    PrefixedNothing(Product(parts));
  }

  lemma PrefixedNothing(list: seq<string>)
    ensures Prefixed("", list) == list
  {
    forall i | 0 <= i < |list|
      ensures Prefixed("", list)[i] == list[i]
    {
      assert "" + list[i] == list[i];
    }
  }

  /** Of any token, nested groups included, no group is left. */
  lemma {:induction false} Expanded(s: string, r: string)
    requires r in Expand(s)
    ensures Search(r, 0).None?
    decreases Opens(s), 0
  {
    match Search(s, 0)
    case None =>
    case Some((i, j)) =>
      OpensFewer(s, i, j);
      InsideFlat(s, i, j);
      SplitFlat(s[i + 1..j], ',');
      ExpandedEach(s[..i], Split(s[i + 1..j], ','), s[j + 1..], r);
  }

  lemma {:induction false} ExpandedEach(before: string, choices: seq<string>, after: string, r: string)
    requires AllFlat(choices) && r in ExpandEach(before, choices, after)
    ensures Search(r, 0).None?
    decreases Opens(before) + Opens(after), |choices| + 1
  {
    OpensBetween(before, choices[0], after);
    if r in Expand(before + choices[0] + after) {
      Expanded(before + choices[0] + after, r);
    } else {
      ExpandedEach(before, choices[1..], after, r);
    }
  }
}
