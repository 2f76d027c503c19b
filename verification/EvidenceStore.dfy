/** The create-only evidence destination: one pass, a second pass, and passes side by side. */
module EvidenceStore {
  import opened Basics

  type Path = seq<string>

  type Store = map<Path, Bytes>

  datatype Record = Record(path: Path, sha256: string, bytes: nat)

  /** How one operation on the destination ended. */
  datatype Result =
    | Copied(record: Record)
    | HashOnly(record: Record)
    | Stored
    | Differs(path: Path)

  const BINARY_PROBE := 8000

  /** A NUL byte near the start marks a binary. */
  predicate Binary(data: Bytes) {
    (0 as char) in data[..if |data| < BINARY_PROBE then |data| else BINARY_PROBE]
  }

  predicate Copyable(data: Bytes, cap: nat) {
    !(Binary(data) && |data| > cap)
  }

  function RecordOf(hash: Bytes -> string, p: Path, data: Bytes): Record {
    Record(p, hash(data), |data|)
  }

  /** `matches`: the destination is compared by digest and length. */
  predicate Matches(hash: Bytes -> string, stored: Bytes, data: Bytes) {
    |stored| == |data| && hash(stored) == hash(data)
  }

  /** What a pass does: preserve a cited file, or write bytes it generated. */
  datatype Op = Copy(path: Path, source: Bytes) | Put(path: Path, data: Bytes)

  function Outcome(hash: Bytes -> string, cap: nat, store: Store, op: Op): Result {
    match op
    case Copy(p, data) =>
      if p in store then (if Matches(hash, store[p], data) then Copied(RecordOf(hash, p, data)) else Differs(p))
      else if Copyable(data, cap) then Copied(RecordOf(hash, p, data)) else HashOnly(RecordOf(hash, p, data))
    case Put(p, data) =>
      if p in store && !Matches(hash, store[p], data) then Differs(p) else Stored
  }

  function Content(op: Op): Bytes {
    match op
    case Copy(_, data) => data
    case Put(_, data) => data
  }

  function After(cap: nat, store: Store, op: Op): Store {
    if op.path in store || (op.Copy? && !Copyable(op.source, cap)) then store else store[op.path := Content(op)]
  }

  /** A store with everything of another, unchanged. */
  predicate Keeps(before: Store, after: Store) {
    forall p :: p in before ==> p in after && after[p] == before[p]
  }

  /** A record of a copy is true of the destination. */
  predicate Holds(hash: Bytes -> string, store: Store, r: Result) {
    r.Copied? ==> r.record.path in store && |store[r.record.path]| == r.record.bytes
                  && hash(store[r.record.path]) == r.record.sha256
  }

  predicate AllHold(hash: Bytes -> string, store: Store, results: seq<Result>) {
    forall i :: 0 <= i < |results| ==> Holds(hash, store, results[i])
  }

  lemma HoldsLater(hash: Bytes -> string, before: Store, after: Store, results: seq<Result>)
    requires Keeps(before, after) && AllHold(hash, before, results)
    ensures AllHold(hash, after, results)
  {
    forall i | 0 <= i < |results|
      ensures Holds(hash, after, results[i])
    {
      assert Holds(hash, before, results[i]);
    }
  }

  /** One operation keeps what is there, and its own record is true of what it leaves. */
  lemma OpKeeps(hash: Bytes -> string, cap: nat, store: Store, op: Op)
    ensures Keeps(store, After(cap, store, op))
    ensures Holds(hash, After(cap, store, op), Outcome(hash, cap, store, op))
  {
  }

  class Destination {
    var files: Store

    constructor (initial: Store)
      ensures files == initial
    {
      files := initial;
    }

    /** `publish`: a link never replaces anything; what is there already must match. */
    method Publish(hash: Bytes -> string, p: Path, staged: Bytes) returns (ok: bool)
      modifies this
      ensures files == if p in old(files) then old(files) else old(files)[p := staged]
      ensures ok <==> Matches(hash, files[p], staged)
    {
      if p in files {
        ok := Matches(hash, files[p], staged);
      } else {
        files := files[p := staged];
        ok := true;
      }
    }

    /** `write`. */
    method Write(hash: Bytes -> string, p: Path, data: Bytes) returns (r: Result)
      modifies this
      ensures r == Outcome(hash, 0, old(files), Put(p, data)) && files == After(0, old(files), Put(p, data))
    {
      if p in files {
        return if Matches(hash, files[p], data) then Stored else Differs(p);
      }
      var ok := Publish(hash, p, data);
      r := if ok then Stored else Differs(p);
    }

    /** `copy` of a source that holds still. */
    method CopyFile(hash: Bytes -> string, cap: nat, p: Path, source: Bytes) returns (r: Result)
      modifies this
      ensures r == Outcome(hash, cap, old(files), Copy(p, source)) && files == After(cap, old(files), Copy(p, source))
    {
      var record := RecordOf(hash, p, source);
      if Copyable(source, cap) && p !in files {
        var ok := Publish(hash, p, source);
        return if ok then Copied(record) else Differs(p);
      }
      if p !in files {
        return HashOnly(record);
      }
      r := if Matches(hash, files[p], source) then Copied(record) else Differs(p);
    }

    /** One pass over everything it preserves and writes: nothing that was there changes, and every
        record of a copy is true of the files it leaves. */
    method Pass(hash: Bytes -> string, cap: nat, ops: seq<Op>) returns (results: seq<Result>)
      modifies this
      ensures Keeps(old(files), files) && |results| == |ops| && AllHold(hash, files, results)
      ensures results == Results(hash, cap, old(files), ops) && files == Final(cap, old(files), ops)
    {
      results := [];
      for i := 0 to |ops|
        invariant results == Results(hash, cap, old(files), ops[..i]) && files == Final(cap, old(files), ops[..i])
        invariant Keeps(old(files), files) && |results| == i && AllHold(hash, files, results)
      {
        OpKeeps(hash, cap, files, ops[i]);
        HoldsLater(hash, files, After(cap, files, ops[i]), results);
        assert ops[..i + 1][..i] == ops[..i];
        var r;
        match ops[i] {
          case Copy(p, source) => r := CopyFile(hash, cap, p, source);
          case Put(p, data) => r := Write(hash, p, data);
        }
        results := results + [r];
      }
      assert ops[..|ops|] == ops;
    }
  }

  function Final(cap: nat, store: Store, ops: seq<Op>): Store {
    if ops == [] then store else After(cap, Final(cap, store, ops[..|ops| - 1]), ops[|ops| - 1])
  }

  function Results(hash: Bytes -> string, cap: nat, store: Store, ops: seq<Op>): seq<Result> {
    if ops == [] then []
    else
      var n := |ops| - 1;
      Results(hash, cap, store, ops[..n]) + [Outcome(hash, cap, Final(cap, store, ops[..n]), ops[n])]
  }

  // ------------------------------------------------------------ a second pass

  /** Generated bytes are kept apart from the preserved paths, and one path has one source. */
  predicate Consistent(ops: seq<Op>) {
    forall i, j :: 0 <= i < |ops| && 0 <= j < |ops| && ops[i].path == ops[j].path ==>
      (ops[i].Copy? <==> ops[j].Copy?) && (ops[i].Copy? ==> ops[i] == ops[j])
  }

  /** An operation that has nothing left to do and would end the same way again. */
  predicate Settled(hash: Bytes -> string, cap: nat, store: Store, op: Op, r: Result) {
    Outcome(hash, cap, store, op) == r && After(cap, store, op) == store
  }

  lemma SettlesNow(hash: Bytes -> string, cap: nat, store: Store, op: Op)
    ensures Settled(hash, cap, After(cap, store, op), op, Outcome(hash, cap, store, op))
  {
  }

  lemma StaysSettled(hash: Bytes -> string, cap: nat, store: Store, op: Op, r: Result, next: Op)
    requires Settled(hash, cap, store, op, r)
    requires op.path == next.path && op.Copy? ==> op == next
    requires op.path == next.path && op.Put? ==> next.Put?
    ensures Settled(hash, cap, After(cap, store, next), op, r)
  {
  }

  /** After a pass, each of its operations is settled with the result it had. */
  lemma {:induction false} PassSettles(hash: Bytes -> string, cap: nat, store: Store, ops: seq<Op>, i: nat)
    requires Consistent(ops) && i < |ops|
    ensures |Results(hash, cap, store, ops)| == |ops|
    ensures Settled(hash, cap, Final(cap, store, ops), ops[i], Results(hash, cap, store, ops)[i])
  {
    var n := |ops| - 1;
    ResultsLength(hash, cap, store, ops[..n]);
    if i == n {
      SettlesNow(hash, cap, Final(cap, store, ops[..n]), ops[n]);
    } else {
      PassSettles(hash, cap, store, ops[..n], i);
      StaysSettled(hash, cap, Final(cap, store, ops[..n]), ops[i], Results(hash, cap, store, ops[..n])[i], ops[n]);
    }
  }

  lemma {:induction false} ResultsLength(hash: Bytes -> string, cap: nat, store: Store, ops: seq<Op>)
    ensures |Results(hash, cap, store, ops)| == |ops|
  {
    if ops != [] {
      ResultsLength(hash, cap, store, ops[..|ops| - 1]);
    }
  }

  /** Settled operations leave everything as it is. */
  lemma {:induction false} SettledPass(hash: Bytes -> string, cap: nat, store: Store, ops: seq<Op>,
                                       results: seq<Result>)
    requires |results| == |ops| && forall i :: 0 <= i < |ops| ==> Settled(hash, cap, store, ops[i], results[i])
    ensures Final(cap, store, ops) == store && Results(hash, cap, store, ops) == results
  {
    if ops != [] {
      var n := |ops| - 1;
      SettledPass(hash, cap, store, ops[..n], results[..n]);
      assert Settled(hash, cap, store, ops[n], results[n]);
      assert results == results[..n] + [results[n]];
    }
  }

  /** A second pass over unchanged sources ends in the same results and changes nothing. */
  lemma SecondPass(hash: Bytes -> string, cap: nat, store: Store, ops: seq<Op>)
    requires Consistent(ops)
    ensures Final(cap, Final(cap, store, ops), ops) == Final(cap, store, ops)
    ensures Results(hash, cap, Final(cap, store, ops), ops) == Results(hash, cap, store, ops)
  {
    ResultsLength(hash, cap, store, ops);
    var results := Results(hash, cap, store, ops);
    forall i | 0 <= i < |ops|
      ensures Settled(hash, cap, Final(cap, store, ops), ops[i], results[i])
    {
      PassSettles(hash, cap, store, ops, i);
    }
    SettledPass(hash, cap, Final(cap, store, ops), ops, results);
  }

  /** Preserved paths all lie under `target`, generated ones elsewhere. */
  predicate Separate(sources: map<Path, Bytes>, ops: seq<Op>) {
    forall i :: 0 <= i < |ops| ==>
      && ops[i].path != []
      && (ops[i].Copy? ==>
          ops[i].path[0] == "target" && ops[i].path in sources && ops[i].source == sources[ops[i].path])
      && (ops[i].Put? ==> ops[i].path[0] != "target")
  }

  lemma SeparateConsistent(sources: map<Path, Bytes>, ops: seq<Op>)
    requires Separate(sources, ops)
    ensures Consistent(ops)
  {
  }

  /** A pass decides each operation from the results so far: what it generates, an inventory or the
      manifest, holds them. */
  type Plan = seq<Result> -> Option<Op>

  ghost predicate Follows(plan: Plan, hash: Bytes -> string, cap: nat, store: Store, ops: seq<Op>) {
    && (forall i :: 0 <= i < |ops| ==> plan(Results(hash, cap, store, ops[..i])) == Some(ops[i]))
    && plan(Results(hash, cap, store, ops)) == None
  }

  lemma {:induction false} ResultsPrefix(hash: Bytes -> string, cap: nat, store: Store, ops: seq<Op>, i: nat)
    requires i <= |ops|
    ensures Results(hash, cap, store, ops[..i]) <= Results(hash, cap, store, ops)
  {
    if i == |ops| {
      assert ops[..i] == ops;
    } else {
      var before := ops[..|ops| - 1];
      ResultsPrefix(hash, cap, store, before, i);
      assert before[..i] == ops[..i];
    }
  }

  /** So a second pass over unchanged sources makes the very same operations, and the manifest it
      writes is the same. */
  lemma SecondPassSame(plan: Plan, hash: Bytes -> string, cap: nat, store: Store, ops: seq<Op>)
    requires Consistent(ops) && Follows(plan, hash, cap, store, ops)
    ensures Follows(plan, hash, cap, Final(cap, store, ops), ops)
  {
    var done := Final(cap, store, ops);
    SecondPass(hash, cap, store, ops);
    forall i | 0 <= i < |ops|
      ensures plan(Results(hash, cap, done, ops[..i])) == Some(ops[i])
    {
      ResultsPrefix(hash, cap, store, ops, i);
      ResultsPrefix(hash, cap, done, ops, i);
      ResultsLength(hash, cap, store, ops[..i]);
      ResultsLength(hash, cap, done, ops[..i]);
      SamePrefix(Results(hash, cap, store, ops[..i]), Results(hash, cap, done, ops[..i]),
                 Results(hash, cap, store, ops));
    }
  }

  lemma SamePrefix(a: seq<Result>, b: seq<Result>, whole: seq<Result>)
    requires a <= whole && b <= whole && |a| == |b|
    ensures a == b
  {
  }

  /** A run repeated over unchanged sources: the same operations with the same results, and every
      file of the destination as it was. */
  lemma SecondRun(sources: map<Path, Bytes>, plan: Plan, hash: Bytes -> string, cap: nat, store: Store, ops: seq<Op>)
    requires Separate(sources, ops) && Follows(plan, hash, cap, store, ops)
    ensures var done := Final(cap, store, ops);
            && Follows(plan, hash, cap, done, ops) && Final(cap, done, ops) == done
            && Results(hash, cap, done, ops) == Results(hash, cap, store, ops)
  {
    SeparateConsistent(sources, ops);
    SecondPass(hash, cap, store, ops);
    SecondPassSame(plan, hash, cap, store, ops);
  }
}
