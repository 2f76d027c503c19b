/** `check_soak` and `check_integrity`: streamed checks and what an accepted stream covers. */
module ReleaseStreams {
  import opened Basics

  // -------------------------------------------------------------------- soak

  datatype Heartbeat = Heartbeat(elapsed: real, operations: nat, errors: int, mismatches: int)

  const SOAK_SECONDS := 86400.0
  const MAX_GAP := 60.0
  const MIN_HEARTBEATS := 1441

  predicate GoodBeat(row: Heartbeat) {
    row.elapsed >= 0.0 && row.errors == 0 && row.mismatches == 0 && row.operations < WORD
  }

  predicate Next(before: Heartbeat, row: Heartbeat) {
    0.0 < row.elapsed - before.elapsed <= MAX_GAP && row.operations > before.operations
  }

  /** The first beat is at zero, each next one at most a minute later, with work done in between. */
  predicate BeatsTo(rows: seq<Heartbeat>, n: nat)
    requires n <= |rows|
  {
    && (n > 0 ==> rows[0].elapsed == 0.0)
    && (forall i :: 0 < i < n ==> Next(rows[i - 1], rows[i]))
    && (forall i :: 0 <= i < n ==> GoodBeat(rows[i]))
  }

  predicate Beats(rows: seq<Heartbeat>) {
    BeatsTo(rows, |rows|)
  }

  /** What the stream of a whole soak must be. */
  predicate Soaked(duration: real, elapsed: real, rows: seq<Heartbeat>) {
    && duration >= SOAK_SECONDS && elapsed >= duration && Beats(rows)
    && |rows| >= MIN_HEARTBEATS && rows[|rows| - 1].elapsed == duration
  }

  method CheckSoak(duration: real, elapsed: real, rows: seq<Heartbeat>) returns (ok: bool)
    ensures ok <==> Soaked(duration, elapsed, rows)
  {
    if duration < SOAK_SECONDS || elapsed < duration {
      return false;
    }
    var previous := 0.0;
    var operations := 0;
    var count := 0;
    while count < |rows|
      invariant 0 <= count <= |rows| && BeatsTo(rows, count)
      invariant count > 0 ==> previous == rows[count - 1].elapsed && operations == rows[count - 1].operations
    {
      var row := rows[count];
      if !(if count == 0 then row.elapsed == 0.0 else 0.0 < row.elapsed - previous <= MAX_GAP) {
        assert count > 0 ==> !Next(rows[count - 1], row);
        return false;
      }
      if !GoodBeat(row) {
        return false;
      }
      if count > 0 && row.operations <= operations {
        assert !Next(rows[count - 1], row);
        return false;
      }
      operations, previous, count := row.operations, row.elapsed, count + 1;
    }
    ok := count >= MIN_HEARTBEATS && previous == duration;
  }

  lemma {:induction false} GapsAdd(rows: seq<Heartbeat>, n: nat)
    requires Beats(rows) && n < |rows|
    ensures rows[n].elapsed <= MAX_GAP * n as real
  {
    if n > 0 {
      GapsAdd(rows, n - 1);
      assert Next(rows[n - 1], rows[n]);
    }
  }

  /** The gap rule alone already forces the minimum count. */
  lemma GapsForceCount(duration: real, rows: seq<Heartbeat>)
    requires Beats(rows) && rows != [] && rows[|rows| - 1].elapsed == duration && duration >= SOAK_SECONDS
    ensures |rows| >= MIN_HEARTBEATS
  {
    GapsAdd(rows, |rows| - 1);
  }

  /** An accepted soak, without the count, which the gaps make superfluous: a day or more without an error
      or a mismatch, from zero to the duration in steps of at most a minute, with work done in each. */
  lemma SoakedExactly(duration: real, elapsed: real, rows: seq<Heartbeat>)
    ensures Soaked(duration, elapsed, rows) <==>
              && 86400.0 <= duration <= elapsed && rows != []
              && rows[0].elapsed == 0.0 && rows[|rows| - 1].elapsed == duration
              && (forall i :: 0 <= i < |rows| ==>
                    rows[i].errors == 0 && rows[i].mismatches == 0 && rows[i].operations < 0x1_0000_0000_0000_0000)
              && (forall i :: 0 < i < |rows| ==>
                    && rows[i - 1].elapsed < rows[i].elapsed <= rows[i - 1].elapsed + 60.0
                    && rows[i - 1].operations < rows[i].operations)
  {
    if rows != [] && rows[0].elapsed == 0.0 && forall i :: 0 < i < |rows| ==> rows[i - 1].elapsed < rows[i].elapsed {
      NeverNegative(rows, |rows| - 1);
    }
    if Beats(rows) && rows != [] && rows[|rows| - 1].elapsed == duration && duration >= SOAK_SECONDS {
      GapsForceCount(duration, rows);
    }
  }

  lemma {:induction false} NeverNegative(rows: seq<Heartbeat>, n: nat)
    requires n < |rows| && rows[0].elapsed == 0.0
    requires forall i :: 0 < i < |rows| ==> rows[i - 1].elapsed < rows[i].elapsed
    ensures forall i :: 0 <= i <= n ==> rows[i].elapsed >= 0.0
  {
    if n > 0 {
      NeverNegative(rows, n - 1);
      assert rows[n - 1].elapsed < rows[n].elapsed;
    }
  }

  /** The last beat not after an instant. */
  function LastBy(rows: seq<Heartbeat>, t: real, n: nat): (k: nat)
    requires n < |rows| && rows[0].elapsed <= t
    ensures k <= n && rows[k].elapsed <= t && forall i :: k < i <= n ==> rows[i].elapsed > t
  {
    if n == 0 || rows[n].elapsed <= t then n else LastBy(rows, t, n - 1)
  }

  /** No instant of an accepted soak is more than half a minute from a heartbeat, so none is more
      than a minute from one. */
  lemma NeverSilent(duration: real, elapsed: real, rows: seq<Heartbeat>, t: real)
    requires Soaked(duration, elapsed, rows) && 0.0 <= t <= duration
    ensures exists k :: 0 <= k < |rows| && -MAX_GAP / 2.0 <= rows[k].elapsed - t <= MAX_GAP / 2.0
  {
    var n := |rows| - 1;
    var k := LastBy(rows, t, n);
    if t - rows[k].elapsed > MAX_GAP / 2.0 {
      assert Next(rows[k], rows[k + 1]);
      assert -MAX_GAP / 2.0 <= rows[k + 1].elapsed - t <= MAX_GAP / 2.0;
    } else {
      assert -MAX_GAP / 2.0 <= rows[k].elapsed - t <= MAX_GAP / 2.0;
    }
  }

  // --------------------------------------------------------------- integrity

  datatype Batch = Batch(first: int, documents: nat, bytes: nat, expected: string, observed: string)

  function Documents(rows: seq<Batch>): nat {
    if rows == [] then 0 else Documents(rows[..|rows| - 1]) + rows[|rows| - 1].documents
  }

  function Size(rows: seq<Batch>): nat {
    if rows == [] then 0 else Size(rows[..|rows| - 1]) + rows[|rows| - 1].bytes
  }

  predicate GoodBatch(b: Batch) {
    1 <= b.documents <= 256 && 1 <= b.bytes < WORD && Digest(b.expected) && b.expected == b.observed
  }

  predicate InPlace(rows: seq<Batch>, i: nat)
    requires i < |rows|
  {
    GoodBatch(rows[i]) && rows[i].first == Documents(rows[..i])
  }

  /** Each batch begins where the ones before it end. */
  predicate ContiguousTo(rows: seq<Batch>, n: nat)
    requires n <= |rows|
  {
    forall i :: 0 <= i < n ==> InPlace(rows, i)
  }

  predicate Contiguous(rows: seq<Batch>) {
    ContiguousTo(rows, |rows|)
  }

  predicate Verified(rows: seq<Batch>, documents: nat, bytes: nat) {
    Contiguous(rows) && Documents(rows) == documents && Size(rows) == bytes
  }

  lemma {:induction false} PrefixLess(rows: seq<Batch>, n: nat)
    requires n <= |rows|
    ensures Documents(rows[..n]) <= Documents(rows) && Size(rows[..n]) <= Size(rows)
  {
    if n == |rows| {
      assert rows[..n] == rows;
    } else {
      PrefixLess(rows[..|rows| - 1], n);
      assert rows[..|rows| - 1][..n] == rows[..n];
    }
  }

  lemma PrefixMore(rows: seq<Batch>, n: nat)
    requires n < |rows|
    ensures Documents(rows[..n + 1]) == Documents(rows[..n]) + rows[n].documents
    ensures Size(rows[..n + 1]) == Size(rows[..n]) + rows[n].bytes
  {
    assert rows[..n + 1][..n] == rows[..n];
  }

  /** Stopping early refuses nothing that the whole stream would have been accepted for. */
  method CheckIntegrity(rows: seq<Batch>, documents: nat, bytes: nat) returns (ok: bool)
    ensures ok <==> Verified(rows, documents, bytes)
  {
    var count, size := 0, 0;
    var i := 0;
    while i < |rows|
      invariant 0 <= i <= |rows| && ContiguousTo(rows, i)
      invariant count == Documents(rows[..i]) && size == Size(rows[..i])
    {
      var row := rows[i];
      PrefixMore(rows, i);
      PrefixLess(rows, i + 1);
      if row.first != count || !GoodBatch(row) {
        assert !InPlace(rows, i);
        return false;
      }
      count, size := count + row.documents, size + row.bytes;
      if count > documents || size > bytes {
        return false;
      }
      i := i + 1;
    }
    assert rows[..i] == rows;
    ok := count == documents && size == bytes;
  }

  predicate Covers(b: Batch, d: nat) {
    b.first <= d < b.first + b.documents
  }

  lemma {:induction false} CoveredBy(rows: seq<Batch>, n: nat, d: nat) returns (k: nat)
    requires Contiguous(rows) && n <= |rows| && d < Documents(rows[..n])
    ensures k < n && Covers(rows[k], d)
  {
    PrefixMore(rows, n - 1);
    if d < Documents(rows[..n - 1]) {
      k := CoveredBy(rows, n - 1, d);
    } else {
      assert InPlace(rows, n - 1);
      k := n - 1;
    }
  }

  /** Batches lie apart, in order. */
  lemma Apart(rows: seq<Batch>, j: nat, k: nat)
    requires Contiguous(rows) && j < k < |rows|
    ensures rows[j].first + rows[j].documents <= rows[k].first
  {
    assert InPlace(rows, j) && InPlace(rows, k);
    PrefixMore(rows, j);
    PrefixLess(rows[..k], j + 1);
    assert rows[..k][..j + 1] == rows[..j + 1];
  }

  /** An accepted stream tiles the corpus: every document lies in exactly one batch. */
  lemma Tiles(rows: seq<Batch>, documents: nat, bytes: nat, d: nat)
    requires Verified(rows, documents, bytes) && d < documents
    ensures exists k :: && 0 <= k < |rows| && Covers(rows[k], d)
                        && forall j :: 0 <= j < |rows| && j != k ==> !Covers(rows[j], d)
  {
    assert rows[..|rows|] == rows;
    var k := CoveredBy(rows, |rows|, d);
    forall j | 0 <= j < |rows| && j != k
      ensures !Covers(rows[j], d)
    {
      if j < k {
        Apart(rows, j, k);
      } else {
        Apart(rows, k, j);
      }
    }
  }

  /** Where the batches before the i-th end. */
  function End(rows: seq<Batch>, i: nat): int
    requires i <= |rows|
  {
    if i == 0 then 0 else rows[i - 1].first + rows[i - 1].documents
  }

  predicate Chained(rows: seq<Batch>) {
    forall i :: 0 <= i < |rows| ==> rows[i].first == End(rows, i)
  }

  lemma {:induction false} EndsAt(rows: seq<Batch>, n: nat)
    requires n <= |rows| && forall i :: 0 <= i < n ==> rows[i].first == Documents(rows[..i])
    ensures forall i :: 0 <= i <= n ==> End(rows, i) == Documents(rows[..i])
  {
    if n > 0 {
      EndsAt(rows, n - 1);
      PrefixMore(rows, n - 1);
    }
  }

  lemma {:induction false} ChainedSums(rows: seq<Batch>, n: nat)
    requires Chained(rows) && n <= |rows|
    ensures Documents(rows[..n]) == End(rows, n)
  {
    if n > 0 {
      ChainedSums(rows, n - 1);
      PrefixMore(rows, n - 1);
    }
  }

  lemma ChainedExactly(rows: seq<Batch>)
    ensures Chained(rows) <==> forall i :: 0 <= i < |rows| ==> rows[i].first == Documents(rows[..i])
  {
    if Chained(rows) {
      forall i | 0 <= i < |rows|
        ensures rows[i].first == Documents(rows[..i])
      {
        ChainedSums(rows, i);
      }
    }
    if forall i :: 0 <= i < |rows| ==> rows[i].first == Documents(rows[..i]) {
      EndsAt(rows, |rows|);
    }
  }

  /** An accepted stream, without its sum of documents: each batch begins where the one before it ends, the
      first at zero and the last ending at the number of documents. */
  lemma VerifiedExactly(rows: seq<Batch>, documents: nat, bytes: nat)
    ensures Verified(rows, documents, bytes) <==>
              && (forall i :: 0 <= i < |rows| ==>
                    && 1 <= rows[i].documents <= 256 && 1 <= rows[i].bytes < 0x1_0000_0000_0000_0000
                    && Digest(rows[i].expected) && rows[i].observed == rows[i].expected)
              && Chained(rows) && documents == End(rows, |rows|) && Size(rows) == bytes
  {
    ChainedExactly(rows);
    assert rows[..|rows|] == rows;
    if Chained(rows) {
      ChainedSums(rows, |rows|);
    }
    InPlaceExactly(rows);
  }

  lemma InPlaceExactly(rows: seq<Batch>)
    ensures Contiguous(rows) <==>
              && (forall i :: 0 <= i < |rows| ==> GoodBatch(rows[i]))
              && (forall i :: 0 <= i < |rows| ==> rows[i].first == Documents(rows[..i]))
  {
    if Contiguous(rows) {
      forall i | 0 <= i < |rows|
        ensures GoodBatch(rows[i]) && rows[i].first == Documents(rows[..i])
      {
        assert InPlace(rows, i);
      }
    }
  }
}
