/** Splitting text at a separator and joining it again. */
module Text {

  /** Put one more character before the parts of the text after it. */
  function Grow(x: char, parts: seq<string>, c: char): (r: seq<string>)
    requires parts != []
    ensures r != []
  {
    if x == c then [""] + parts else [[x] + parts[0]] + parts[1..]
  }

  /** `s.split(c)`: always at least one part, none containing the separator. */
  function Split(s: string, c: char): (parts: seq<string>)
    ensures parts != []
  {
    if s == [] then [""] else Grow(s[0], Split(s[1..], c), c)
  }

  /** `c.join(parts)`. */
  function Join(parts: seq<string>, c: char): string
    requires parts != []
  {
    if |parts| == 1 then parts[0] else parts[0] + [c] + Join(parts[1..], c)
  }

  lemma {:induction false} SplitParts(s: string, c: char)
    ensures forall i :: 0 <= i < |Split(s, c)| ==> c !in Split(s, c)[i]
  {
    if s != [] {
      SplitParts(s[1..], c);
    }
  }

  /** A part without separators, then what follows the next separator. */
  lemma {:induction false} SplitFirst(head: string, tail: string, c: char)
    requires c !in head
    ensures Split(head + [c] + tail, c) == [head] + Split(tail, c)
  {
    var s := head + [c] + tail;
    if head == [] {
      assert s[0] == c && s[1..] == tail;
    } else {
      SplitFirst(head[1..], tail, c);
      assert s[1..] == head[1..] + [c] + tail;
      assert [head[0]] + head[1..] == head;
      assert s[0] in head;
    }
  }

  lemma GrowConcat(x: char, a: seq<string>, b: seq<string>, c: char)
    requires a != []
    ensures Grow(x, a + b, c) == Grow(x, a, c) + b
  {
  }

  lemma {:induction false} SplitConcat(a: string, b: string, c: char)
    ensures Split(a + [c] + b, c) == Split(a, c) + Split(b, c)
  {
    if a == [] {
      SplitFirst([], b, c);
    } else {
      SplitConcat(a[1..], b, c);
      GrowConcat(a[0], Split(a[1..], c), Split(b, c), c);
      assert (a + [c] + b)[1..] == a[1..] + [c] + b;
    }
  }

  lemma {:induction false} SplitWhole(head: string, c: char)
    requires c !in head
    ensures Split(head, c) == [head]
  {
    if head != [] {
      SplitWhole(head[1..], c);
      assert [head[0]] + head[1..] == head;
      assert head[0] in head;
    }
  }

  lemma {:induction false} SplitJoin(parts: seq<string>, c: char)
    requires parts != []
    requires forall i :: 0 <= i < |parts| ==> c !in parts[i]
    ensures Split(Join(parts, c), c) == parts
  {
    if |parts| == 1 {
      SplitWhole(parts[0], c);
    } else {
      SplitJoin(parts[1..], c);
      SplitFirst(parts[0], Join(parts[1..], c), c);
      assert [parts[0]] + parts[1..] == parts;
    }
  }

  /** Text added after a final separator becomes the last part. */
  lemma SplitLast(s: string, tail: string, parts: seq<string>, c: char)
    requires s == [] || s[|s| - 1] == c
    requires c !in tail && Split(s, c) == parts + [""]
    ensures Split(s + tail, c) == parts + [tail]
  {
    if s == [] {
      SplitWhole(tail, c);
      assert s + tail == tail;
    } else {
      var a := s[..|s| - 1];
      assert s == a + [c] + "" && s + tail == a + [c] + tail;
      SplitConcat(a, "", c);
      SplitConcat(a, tail, c);
      SplitWhole(tail, c);
      assert (Split(a, c) + [""])[..|parts|] == parts;
      assert Split(a, c) == parts;
    }
  }

  predicate Prefix(p: string, s: string) {
    p <= s
  }

  predicate Suffix(p: string, s: string) {
    |p| <= |s| && s[|s| - |p|..] == p
  }
}
