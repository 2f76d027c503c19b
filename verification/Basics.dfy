/** Small vocabulary shared by the models. */
module Basics {

  datatype Option<+T> = None | Some(value: T) {
    predicate IsFailure() {
      None?
    }
    function PropagateFailure<U>(): Option<U>
      requires None?
    {
      None
    }
    function Extract(): T
      requires Some?
    {
      value
    }
  }

  /** File contents: each character stands for the byte with that code. */
  type Bytes = seq<char>

  /** One past the largest 64-bit number. */
  const WORD := 0x1_0000_0000_0000_0000

  /** The longest JSON record that is read. */
  const MAX_JSON_BYTES := 16777216

  /** The two signals sent to a process group. */
  datatype Signal = Term | Kill

  function Zeros(n: nat): (s: string)
    ensures |s| == n && forall i :: 0 <= i < n ==> s[i] == '0'
  {
    if n == 0 then "" else "0" + Zeros(n - 1)
  }

  /** A SHA-256 digest in lower-case hexadecimal. */
  predicate Digest(s: string) {
    |s| == 64 && forall i :: 0 <= i < |s| ==> '0' <= s[i] <= '9' || 'a' <= s[i] <= 'f'
  }

  lemma Associative(a: string, b: string, c: string)
    ensures a + b + c == a + (b + c)
  {
  }

  /** Strictly increasing in code point order, as Python compares strings. */
  predicate Less(a: string, b: string) {
    b != [] && (a == [] || a[0] < b[0] || (a[0] == b[0] && Less(a[1..], b[1..])))
  }

  /** The results for each element, if there is one for every element. */
  function AllSome<S, T>(f: S -> Option<T>, list: seq<S>): Option<seq<T>> {
    if list == [] then Some([])
    else
      var before :- AllSome(f, list[..|list| - 1]);
      var last :- f(list[|list| - 1]);
      Some(before + [last])
  }

  lemma {:induction false} AllSomeOf<S, T>(f: S -> Option<T>, list: seq<S>, r: seq<T>)
    requires |r| == |list| && forall i :: 0 <= i < |list| ==> f(list[i]) == Some(r[i])
    ensures AllSome(f, list) == Some(r)
  {
    if list != [] {
      AllSomeOf(f, list[..|list| - 1], r[..|r| - 1]);
      assert r == r[..|r| - 1] + [r[|r| - 1]];
    }
  }

  /** An element counts twice exactly when it stands at two places. */
  lemma {:induction false} Repeats<T>(s: seq<T>, x: T)
    ensures multiset(s)[x] >= 2 <==> exists i, j :: 0 <= i < j < |s| && s[i] == x && s[j] == x
  {
    if s != [] {
      var n := |s| - 1;
      assert s == s[..n] + [s[n]];
      Repeats(s[..n], x);
      if s[n] == x && x in s[..n] {
        var i :| 0 <= i < n && s[i] == x;
        assert 0 <= i < n < |s| && s[i] == x && s[n] == x;
      }
      if i, j :| 0 <= i < j < |s| && s[i] == x && s[j] == x {
        if j < n {
          assert s[..n][i] == x && s[..n][j] == x;
        } else {
          assert s[..n][i] == x;
        }
      }
    }
  }
}
