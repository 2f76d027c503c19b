/** Several journals read as one history: when they fit together, what they hold together, and
    that their order plays no part. */
module HistoryMerge {
  import opened Basics

  type Root = seq<string>

  /** What reading one supplied journal gave: no entries is a rejection. */
  datatype Found<E> = Found(root: Root, journal: string, entries: Option<map<string, E>>)

  datatype Owned<E> = Owned(journal: string, entry: E)

  predicate Nested(a: Root, b: Root) {
    a <= b || b <= a
  }

  predicate Holds<E>(f: Found<E>, id: string) {
    f.entries.Some? && id in f.entries.value
  }

  predicate Compatible<E>(f: Found<E>, g: Found<E>) {
    && !Nested(f.root, g.root) && f.journal != g.journal
    && (f.entries.Some? && g.entries.Some? ==> f.entries.value.Keys !! g.entries.value.Keys)
  }

  predicate PairsCompatible<E>(list: seq<Found<E>>) {
    forall i, j :: 0 <= i < j < |list| ==> Compatible(list[i], list[j])
  }

  /** When the list is one history. */
  predicate OneHistory<E>(list: seq<Found<E>>) {
    && list != [] && (forall i :: 0 <= i < |list| ==> list[i].entries.Some?)
    && PairsCompatible(list)
  }

  /** Every attempt of every journal, owned by that journal, and no other. */
  ghost predicate Merges<E>(list: seq<Found<E>>, m: map<string, Owned<E>>) {
    && (forall id :: id in m ==> exists i :: 0 <= i < |list| && Holds(list[i], id))
    && (forall i, id :: 0 <= i < |list| && Holds(list[i], id) ==>
          id in m && m[id] == Owned(list[i].journal, list[i].entries.value[id]))
  }

  function Add<E>(attempts: map<string, Owned<E>>, f: Found<E>): map<string, Owned<E>>
    requires f.entries.Some?
  {
    attempts + (map id | id in f.entries.value :: Owned(f.journal, f.entries.value[id]))
  }

  /** Compatible with each journal before it, told from what the loop keeps. */
  ghost predicate Fits<E>(list: seq<Found<E>>, attempts: map<string, Owned<E>>, f: Found<E>) {
    && (forall i :: 0 <= i < |list| ==> !Nested(f.root, list[i].root) && f.journal != list[i].journal)
    && f.entries.Some? && f.entries.value.Keys !! attempts.Keys
  }

  lemma FitsExactly<E>(list: seq<Found<E>>, attempts: map<string, Owned<E>>, f: Found<E>)
    requires Merges(list, attempts) && (list == [] || OneHistory(list))
    ensures Fits(list, attempts, f) <==> OneHistory(list + [f])
  {
    if Fits(list, attempts, f) {
      forall i, j | 0 <= i < j < |list + [f]|
        ensures Compatible((list + [f])[i], (list + [f])[j])
      {
      }
    }
    if OneHistory(list + [f]) {
      assert (list + [f])[|list|] == f;
      forall i | 0 <= i < |list|
        ensures Compatible(list[i], f)
      {
        assert Compatible((list + [f])[i], (list + [f])[|list|]);
      }
      forall id | id in attempts
        ensures id !in f.entries.value
      {
        var i :| 0 <= i < |list| && Holds(list[i], id);
        assert Compatible(list[i], f);
      }
    }
  }

  lemma AddMerges<E>(list: seq<Found<E>>, attempts: map<string, Owned<E>>, f: Found<E>)
    requires Merges(list, attempts) && Fits(list, attempts, f)
    ensures Merges(list + [f], Add(attempts, f))
  {
    var m, all := Add(attempts, f), list + [f];
    assert all[|list|] == f;
    forall id | id in m
      ensures exists i :: 0 <= i < |all| && Holds(all[i], id)
    {
      if id in attempts {
        var i :| 0 <= i < |list| && Holds(list[i], id);
        assert Holds(all[i], id);
      } else {
        assert Holds(all[|list|], id);
      }
    }
  }

  /** A list that is not one history never grows into one. */
  lemma PrefixHistory<E>(list: seq<Found<E>>, n: nat)
    requires OneHistory(list) && 0 < n <= |list|
    ensures OneHistory(list[..n])
  {
  }

  /** The roots and journal ids the loop has seen. */
  ghost predicate Tracks<E>(list: seq<Found<E>>, roots: seq<Root>, journals: set<string>) {
    && |roots| == |list| && (forall k :: 0 <= k < |list| ==> roots[k] == list[k].root)
    && (forall k :: 0 <= k < |list| ==> list[k].journal in journals)
    && (forall name :: name in journals ==> exists k :: 0 <= k < |list| && list[k].journal == name)
  }

  predicate Clashes<E>(roots: seq<Root>, journals: set<string>, f: Found<E>) {
    (exists k :: 0 <= k < |roots| && Nested(f.root, roots[k])) || f.journal in journals
  }

  lemma ClashesExactly<E>(list: seq<Found<E>>, roots: seq<Root>, journals: set<string>, f: Found<E>)
    requires Tracks(list, roots, journals)
    ensures Clashes(roots, journals, f) <==>
              exists i :: 0 <= i < |list| && (Nested(f.root, list[i].root) || f.journal == list[i].journal)
  {
  }

  lemma TracksMore<E>(list: seq<Found<E>>, roots: seq<Root>, journals: set<string>, f: Found<E>)
    requires Tracks(list, roots, journals)
    ensures Tracks(list + [f], roots + [f.root], journals + {f.journal})
  {
    forall name | name in journals + {f.journal}
      ensures exists k :: 0 <= k < |list + [f]| && (list + [f])[k].journal == name
    {
      if name in journals {
        var k :| 0 <= k < |list| && list[k].journal == name;
        assert (list + [f])[k].journal == name;
      } else {
        assert (list + [f])[|list|].journal == name;
      }
    }
  }

  /** The loop of `replay_journals`. */
  method Merge<E>(list: seq<Found<E>>) returns (r: Option<map<string, Owned<E>>>)
    ensures r.Some? <==> OneHistory(list)
    ensures r.Some? ==> Merges(list, r.value)
  {
    var roots: seq<Root> := [];
    var journals: set<string> := {};
    var attempts: map<string, Owned<E>> := map[];
    var i := 0;
    while i < |list|
      invariant 0 <= i <= |list|
      invariant Tracks(list[..i], roots, journals)
      invariant i == 0 || OneHistory(list[..i])
      invariant Merges(list[..i], attempts)
    {
      var f := list[i];
      ghost var before := list[..i];
      assert list[..i + 1] == before + [f];
      FitsExactly(before, attempts, f);
      ClashesExactly(before, roots, journals, f);
      if OneHistory(list) {
        PrefixHistory(list, i + 1);
      }
      if Clashes(roots, journals, f) {
        return None;
      }
      if f.entries.None? || (exists id :: id in f.entries.value && id in attempts) {
        return None;
      }
      AddMerges(before, attempts, f);
      TracksMore(before, roots, journals, f);
      attempts := Add(attempts, f);
      roots := roots + [f.root];
      journals := journals + {f.journal};
      i := i + 1;
    }
    assert list[..i] == list;
    assert list != [] ==> list[0].journal in journals;
    r := if journals == {} then None else Some(attempts);
  }

  // -------------------------------------------------------------------- order

  /** The merged map is determined by the list. */
  lemma MergesOnce<E>(list: seq<Found<E>>, m: map<string, Owned<E>>, n: map<string, Owned<E>>)
    requires Merges(list, m) && Merges(list, n)
    ensures m == n
  {
    forall id | id in m
      ensures id in n && m[id] == n[id]
    {
      var i :| 0 <= i < |list| && Holds(list[i], id);
    }
    forall id | id in n
      ensures id in m
    {
      var i :| 0 <= i < |list| && Holds(list[i], id);
    }
  }

  /** Each attempt belongs to exactly one journal. */
  lemma OneOwner<E>(list: seq<Found<E>>, m: map<string, Owned<E>>, id: string)
    requires OneHistory(list) && Merges(list, m) && id in m
    ensures exists i :: 0 <= i < |list| && Holds(list[i], id) && m[id].journal == list[i].journal
                        && forall j :: 0 <= j < |list| && j != i ==>
                            !Holds(list[j], id) && list[j].journal != m[id].journal
  {
    var i :| 0 <= i < |list| && Holds(list[i], id);
    forall j | 0 <= j < |list| && j != i
      ensures !Holds(list[j], id) && list[j].journal != list[i].journal
    {
      assert if i < j then Compatible(list[i], list[j]) else Compatible(list[j], list[i]);
    }
  }

  /** The same condition over the elements and how often each occurs. */
  ghost predicate HistoryOf<E>(bag: multiset<Found<E>>) {
    && bag != multiset{}
    && (forall f :: f in bag ==> f.entries.Some? && bag[f] == 1)
    && (forall f, g :: f in bag && g in bag && f != g ==> Compatible(f, g))
  }

  lemma HistoryBag<E>(list: seq<Found<E>>)
    requires OneHistory(list)
    ensures HistoryOf(multiset(list))
  {
    assert list[0] in multiset(list);
    forall f | f in multiset(list)
      ensures multiset(list)[f] == 1
    {
      Repeats(list, f);
    }
    forall f, g | f in multiset(list) && g in multiset(list) && f != g
      ensures Compatible(f, g)
    {
      var i :| 0 <= i < |list| && list[i] == f;
      var j :| 0 <= j < |list| && list[j] == g;
      assert if i < j then Compatible(list[i], list[j]) else Compatible(list[j], list[i]);
    }
  }

  lemma BagHistory<E>(list: seq<Found<E>>)
    requires HistoryOf(multiset(list))
    ensures OneHistory(list)
  {
    forall i | 0 <= i < |list|
      ensures list[i].entries.Some? && list[i] in multiset(list)
    {
    }
    forall i, j | 0 <= i < j < |list|
      ensures Compatible(list[i], list[j])
    {
      Repeats(list, list[i]);
    }
  }

  lemma OrderFree<E>(list: seq<Found<E>>)
    ensures OneHistory(list) <==> HistoryOf(multiset(list))
  {
    if OneHistory(list) {
      HistoryBag(list);
    }
    if HistoryOf(multiset(list)) {
      BagHistory(list);
    }
  }

  /** Every permutation of an accepted list is accepted, with the same history. */
  lemma PermutationSame<E>(list: seq<Found<E>>, other: seq<Found<E>>, m: map<string, Owned<E>>)
    requires multiset(list) == multiset(other)
    ensures OneHistory(list) <==> OneHistory(other)
    ensures Merges(list, m) <==> Merges(other, m)
  {
    OrderFree(list);
    OrderFree(other);
    if Merges(list, m) {
      MergesPermuted(list, other, m);
    }
    if Merges(other, m) {
      MergesPermuted(other, list, m);
    }
  }

  lemma MergesPermuted<E>(list: seq<Found<E>>, other: seq<Found<E>>, m: map<string, Owned<E>>)
    requires multiset(list) == multiset(other) && Merges(list, m)
    ensures Merges(other, m)
  {
    forall id | id in m
      ensures exists i :: 0 <= i < |other| && Holds(other[i], id)
    {
      var i :| 0 <= i < |list| && Holds(list[i], id);
      assert list[i] in multiset(other);
      var j :| 0 <= j < |other| && other[j] == list[i];
      assert Holds(other[j], id);
    }
    forall i, id | 0 <= i < |other| && Holds(other[i], id)
      ensures id in m && m[id] == Owned(other[i].journal, other[i].entries.value[id])
    {
      assert other[i] in multiset(list);
      var j :| 0 <= j < |list| && list[j] == other[i];
      assert Holds(list[j], id);
    }
  }

  function Each<S, T>(f: S -> T, list: seq<S>): (r: seq<T>)
    ensures |r| == |list| && forall i :: 0 <= i < |list| ==> r[i] == f(list[i])
  {
    seq(|list|, i requires 0 <= i < |list| => f(list[i]))
  }

  lemma Taken<T>(list: seq<T>, k: nat)
    requires k < |list|
    ensures multiset(list) == multiset(list[..k] + list[k + 1..]) + multiset{list[k]}
  {
    assert list == list[..k] + [list[k]] + list[k + 1..];
  }

  lemma EachTaken<S, T>(f: S -> T, list: seq<S>, k: nat)
    requires k < |list|
    ensures multiset(Each(f, list)) == multiset(Each(f, list[..k] + list[k + 1..])) + multiset{f(list[k])}
  {
    var all := Each(f, list);
    assert Each(f, list[..k] + list[k + 1..]) == all[..k] + all[k + 1..];
    Taken(all, k);
  }

  lemma {:induction false} EachPermuted<S, T>(f: S -> T, list: seq<S>, other: seq<S>)
    requires multiset(list) == multiset(other)
    ensures multiset(Each(f, list)) == multiset(Each(f, other))
    decreases |list|
  {
    if list == [] {
      assert |multiset(other)| == 0;
    } else {
      var n := |list| - 1;
      assert list[n] in multiset(other);
      var k :| 0 <= k < |other| && other[k] == list[n];
      var rest := other[..k] + other[k + 1..];
      Taken(list, n);
      Taken(other, k);
      assert list[..n] + list[n + 1..] == list[..n];
      assert multiset(rest) == multiset(other) - multiset{list[n]} == multiset(list[..n]);
      EachPermuted(f, list[..n], rest);
      EachTaken(f, other, k);
      EachTaken(f, list, n);
    }
  }
}
