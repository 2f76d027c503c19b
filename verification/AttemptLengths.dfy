/** How long journal rows are: which rows always fit the row limit, and which real inputs exceed a
    limit and what is left then. */
module AttemptLengths {
  import opened Basics
  import opened Json
  import opened JsonLength
  import opened AttemptRows
  import opened AttemptIndex
  import opened AttemptFrame
  import opened AttemptCalls
  import opened AttemptRuns

  const TARGETS := {"x86_64-unknown-linux-gnu", "aarch64-unknown-linux-gnu", "aarch64-apple-darwin"}

  /** The surroundings the journal really has: SHA-256 digests and the three release targets. */
  ghost predicate Standard(env: Env) {
    (forall data :: Digest(env.hash(data))) && env.targets == TARGETS
  }

  // ---------------------------------------------------------- rows that fit

  predicate ShortText(s: string) {
    |s| <= 160
  }

  /** A member with a short key and a short text or a 64-bit number. */
  predicate ShortField(f: Field) {
    && |f.key| <= 20
    && ((f.value.Str? && ShortText(f.value.s)) || (f.value.Num? && 0 <= f.value.n < WORD))
  }

  /** However much of it has to be escaped. */
  lemma ShortFieldLength(f: Field)
    requires ShortField(f)
    ensures FieldLength(f) <= 2200
  {
    QuotedAtMost(f.key);
    if f.value.Str? {
      QuotedAtMost(f.value.s);
    } else {
      WordLength(f.value.n);
    }
  }

  predicate AllShort(fields: seq<Field>) {
    forall i :: 0 <= i < |fields| ==> ShortField(fields[i])
  }

  lemma ShortObject(fields: seq<Field>)
    requires fields != [] && AllShort(fields)
    ensures |Dumps(Obj(fields))| <= |fields| * 2200 + 1
  {
    forall i | 0 <= i < |fields|
      ensures FieldLength(fields[i]) <= 2200
    {
      ShortFieldLength(fields[i]);
    }
    ObjectAtMost(fields, 2200);
  }

  lemma IdentityShort(row: Row)
    requires row.IdentityRow? && 0 <= row.sequence < WORD && ShortText(row.previous)
    requires ShortText(row.identity.journal) && ShortText(row.identity.host) && ShortText(row.identity.target)
    ensures AllShort(RowValue(row).fields)
  {
  }

  lemma IdentityLength(row: Row)
    requires row.IdentityRow? && AllShort(RowValue(row).fields)
    ensures |RowBytes(row)| <= MAX_ROW_BYTES
  {
    ShortObject(RowValue(row).fields);
  }

  /** The identity row of any valid identity fits. */
  lemma IdentityFits(env: Env, identity: Identity, row: Row)
    requires Standard(env) && ValidIdentity(env, identity) && row == IdentityRowFor(identity)
    ensures |RowBytes(row)| <= MAX_ROW_BYTES
  {
    IdentityShort(row);
    IdentityLength(row);
  }

  lemma RefLength(r: Ref)
    requires ShortText(r.path) && ShortText(r.sha256) && 0 <= r.bytes < WORD
    ensures |Dumps(RefValue(r))| <= 6601
  {
    assert AllShort(RefValue(r).fields);
    ShortObject(RefValue(r).fields);
  }

  lemma TerminalShort(row: Row)
    requires row.TerminalRow? && 0 <= row.sequence < WORD && ShortText(row.previous) && ShortText(row.id)
    ensures var fields := RowValue(row).fields;
            forall i :: 0 <= i < |fields| && i != 3 ==> ShortField(fields[i])
  {
  }

  lemma TerminalLength(row: Row)
    requires row.TerminalRow? && |Dumps(RefValue(row.receipt))| <= 6601
    requires var fields := RowValue(row).fields;
             forall i :: 0 <= i < |fields| && i != 3 ==> ShortField(fields[i])
    ensures |RowBytes(row)| <= MAX_ROW_BYTES
  {
    var fields := RowValue(row).fields;
    forall i | 0 <= i < |fields|
      ensures FieldLength(fields[i]) <= 7000
    {
      if i == 3 {
        QuotedAtMost(fields[3].key);
      } else {
        ShortFieldLength(fields[i]);
      }
    }
    ObjectAtMost(fields, 7000);
  }

  /** A terminal row of 64-character digests and 64-bit numbers fits. */
  lemma TerminalFits(row: Row)
    requires row.TerminalRow? && 0 <= row.sequence < WORD && Digest(row.previous) && Name(row.id)
    requires row.receipt.path == ReceiptPath(row.id) && Digest(row.receipt.sha256) && 0 <= row.receipt.bytes < WORD
    ensures |RowBytes(row)| <= MAX_ROW_BYTES
  {
    RefLength(row.receipt);
    TerminalShort(row);
    TerminalLength(row);
  }

  lemma {:induction false} ReplayDigest(env: Env, disk: Disk, data: Bytes, st: Progress)
    requires Standard(env) && Digest(st.previous) && ReplayData(env, disk, data, st).Some?
    ensures Digest(ReplayData(env, disk, data, st).value.previous)
    decreases |data|
  {
    if data != [] {
      var next := Apply(env, disk, st, FirstLine(data)).value;
      assert next.previous == env.hash(FirstLine(data));
      ReplayDigest(env, disk, AfterLine(data), next);
    }
  }

  lemma OpenDigest(env: Env, disk: Disk)
    requires Standard(env) && Open(env, disk).Some?
    ensures Digest(Open(env, disk).value.sha256)
  {
    ReplayDigest(env, disk, IndexData(disk), START);
  }

  /** Every number of a call is a 64-bit number. */
  predicate Counted(env: Env, disk: Disk, receipt: Value) {
    (Open(env, disk).Some? ==> Open(env, disk).value.sequence + 1 < WORD) && |Canonical(receipt)| < WORD
  }

  lemma FinishFits(env: Env, disk: Disk, id: string, receipt: Value)
    requires Standard(env) && Counted(env, disk, receipt) && Name(id) && Open(env, disk).Some?
    ensures |FinishLine(env, disk, id, Canonical(receipt))| <= MAX_ROW_BYTES
  {
    OpenDigest(env, disk);
    TerminalFits(TerminalRowFor(env, Open(env, disk).value, id, Canonical(receipt)));
  }

  /** `finish` is rejected exactly when its checks fail, and a rejected `finish` changes nothing. */
  lemma RejectedFinish(env: Env, disk: Disk, id: string, receipt: Value)
    requires Standard(env) && Counted(env, disk, receipt)
    ensures Finish(env, disk, id, receipt).row.None? <==> !FinishAllowed(env, disk, id, receipt)
    ensures Finish(env, disk, id, receipt).row.None? ==> Finish(env, disk, id, receipt).disk == disk
  {
    if FinishAllowed(env, disk, id, receipt) {
      FinishFits(env, disk, id, receipt);
    }
  }

  /** A fresh root is founded, and then admits any well-formed first attempt. */
  lemma FreshAdmits(env: Env, disk: Disk, identity: Identity, a: Admission)
    requires Standard(env) && disk.slots == map[] && disk.attempts.None? && ValidIdentity(env, identity)
    requires Name(a.id) && a.id != INDEX_NAME && env.time(a.started).Some?
    requires a.kind in env.kinds && identity.target in env.kinds[a.kind].targets
    requires Relative(a.output).Some? && Relative(a.output).value !in disk.tree
    requires Relative(a.output).value != [] && Relative(a.output).value[0] != "attempts"
    ensures Create(env, disk, identity).row.Some?
    ensures BeginAllowed(env, Create(env, disk, identity).disk, a)
  {
    IdentityFits(env, identity, IdentityRowFor(identity));
    CreateCompletes(env, disk, identity);
  }

  // ------------------------------------------------- an admission over the limit

  /** A UTC timestamp with `n` digits after the second: digits past the sixth are read and dropped. */
  function LongStart(n: nat): string {
    "2026-01-01T00:00:00." + Zeros(n) + "+00:00"
  }

  lemma BeginLong(env: Env, disk: Disk, a: Admission)
    requires Open(env, disk).Some? && |a.started| >= MAX_ROW_BYTES
    ensures |BeginLine(env, disk, a)| > MAX_ROW_BYTES
  {
    var fields := RowValue(BeginRowFor(Open(env, disk).value, a)).fields;
    QuotedAtLeast(a.started);
    ObjectAtLeast(fields, 7);
  }

  /** Wherever the timestamp reader takes such a start, the first admission of a freshly founded
      journal is rejected and the journal is dead. */
  lemma LongStartKills(env: Env, disk: Disk, identity: Identity, a: Admission)
    requires Standard(env) && disk.slots == map[] && disk.attempts.None? && ValidIdentity(env, identity)
    requires Name(a.id) && a.id != INDEX_NAME && a.started == LongStart(MAX_ROW_BYTES) && env.time(a.started).Some?
    requires a.kind in env.kinds && identity.target in env.kinds[a.kind].targets
    requires Relative(a.output).Some? && Relative(a.output).value !in disk.tree
    requires Relative(a.output).value != [] && Relative(a.output).value[0] != "attempts"
    ensures var founded := Create(env, disk, identity).disk;
            Open(env, founded).Some? && Begin(env, founded, a).row.None? && Dead(env, Begin(env, founded, a).disk)
  {
    var founded := Create(env, disk, identity).disk;
    FreshAdmits(env, disk, identity, a);
    BeginLong(env, founded, a);
    RejectedBegin(env, founded, a);
  }

  // --------------------------------------------------- a receipt over the limit

  /** The receipt with one process record of `n` bytes: `processes` may be any list. */
  function Padded(receipt: Value, n: nat): Value
    requires Exact(receipt, RECEIPT_KEYS)
  {
    Obj(receipt.fields[4 := Field("processes", Arr([Str(Zeros(n))]))])
  }

  lemma {:induction false} FindOther(fields: seq<Field>, i: nat, f: Field, key: string)
    requires i < |fields| && f.key == fields[i].key && f.key != key
    ensures Find(fields[i := f], key) == Find(fields, key)
  {
    if i > 0 {
      assert fields[i := f][1..] == fields[1..][i - 1 := f];
      FindOther(fields[1..], i - 1, f, key);
    }
  }

  lemma {:induction false} FindFirst(fields: seq<Field>, i: nat)
    requires i < |fields| && forall j :: 0 <= j < i ==> fields[j].key != fields[i].key
    ensures Find(fields, fields[i].key) == Some(fields[i].value)
  {
    if i > 0 {
      FindFirst(fields[1..], i - 1);
    }
  }

  /** Two receipts that say the same but for their processes. */
  predicate SameButProcesses(a: Value, b: Value) {
    && Exact(a, RECEIPT_KEYS) && Exact(b, RECEIPT_KEYS)
    && Get(a, "domain_observation") == Get(b, "domain_observation") && Get(a, "evidence") == Get(b, "evidence")
    && Get(a, "finished_at") == Get(b, "finished_at") && Get(a, "id") == Get(b, "id")
    && Get(a, "schema") == Get(b, "schema") && Get(a, "started_at") == Get(b, "started_at")
    && Get(a, "status") == Get(b, "status")
  }

  lemma PaddedSame(receipt: Value, n: nat)
    requires Exact(receipt, RECEIPT_KEYS)
    ensures SameButProcesses(receipt, Padded(receipt, n))
    ensures Get(Padded(receipt, n), "processes") == Some(Arr([Str(Zeros(n))]))
  {
    var fields := receipt.fields;
    var f := Field("processes", Arr([Str(Zeros(n))]));
    assert fields[4].key == RECEIPT_KEYS[4];
    FindOther(fields, 4, f, "domain_observation");
    FindOther(fields, 4, f, "evidence");
    FindOther(fields, 4, f, "finished_at");
    FindOther(fields, 4, f, "id");
    FindOther(fields, 4, f, "schema");
    FindOther(fields, 4, f, "started_at");
    FindOther(fields, 4, f, "status");
    FindFirst(fields[4 := f], 4);
  }

  lemma SameHolds(env: Env, tree: Tree, identity: Identity, begin: Row, a: Value, b: Value)
    requires begin.BeginRow? && SameButProcesses(a, b) && ReceiptHolds(env, tree, identity, begin, a)
    requires Get(b, "processes").Some? && Get(b, "processes").value.Arr?
    ensures ReceiptHolds(env, tree, identity, begin, b)
  {
  }

  lemma TextItem(s: string)
    ensures |Dumps(Arr([Str(s)]))| > |s|
  {
    QuotedAtLeast(s);
    assert DumpItems([Str(s)]) == Quoted(s) + "]";
  }

  lemma PaddedLength(receipt: Value, n: nat)
    requires Exact(receipt, RECEIPT_KEYS)
    ensures |Canonical(Padded(receipt, n))| > n
  {
    TextItem(Zeros(n));
    ValueLength(Padded(receipt, n).fields, 4, Arr([Str(Zeros(n))]), n);
  }

  lemma ValueLength(fields: seq<Field>, i: nat, v: Value, n: nat)
    requires i < |fields| && fields[i].value == v && |Dumps(v)| > n
    ensures |Canonical(Obj(fields))| > n
  {
    ObjectAtLeast(fields, i);
  }

  /** Every attempt that can be finished can be finished with a receipt over the JSON limit: the
      call reports success and leaves a dead journal. */
  lemma OversizedReceipt(env: Env, disk: Disk, id: string, receipt: Value, n: nat)
    requires Standard(env) && FinishAllowed(env, disk, id, receipt) && n >= MAX_JSON_BYTES
    requires Counted(env, disk, Padded(receipt, n))
    ensures Finish(env, disk, id, Padded(receipt, n)).row.Some?
    ensures Dead(env, Finish(env, disk, id, Padded(receipt, n)).disk)
  {
    var j := Open(env, disk).value;
    var padded := Padded(receipt, n);
    PaddedSame(receipt, n);
    SameHolds(env, disk.tree, j.identity, j.entries[id].begin, receipt, padded);
    PaddedLength(receipt, n);
    FinishFits(env, disk, id, padded);
    TooLarge(env, disk, id, Canonical(padded));
  }

  /** No disk with such a receipt takes its row. */
  lemma TooLargeRow(env: Env, disk: Disk, st: Progress, row: Row)
    requires row.TerminalRow? && row.receipt.bytes > MAX_JSON_BYTES && |RowBytes(row)| <= MAX_ROW_BYTES
    ensures Apply(env, disk, st, RowBytes(row)).None?
  {
    DecodeRowExact(RowBytes(row), row);
  }

  lemma TooLarge(env: Env, disk: Disk, id: string, data: Bytes)
    requires Open(env, disk).Some? && id in Open(env, disk).value.entries && |data| > MAX_JSON_BYTES
    requires |FinishLine(env, disk, id, data)| <= MAX_ROW_BYTES
    ensures Dead(env, Appended(Received(disk, id, data), FinishLine(env, disk, id, data)))
  {
    var row := TerminalRowFor(env, Open(env, disk).value, id, data);
    OverlongDead(env, disk, Appended(Received(disk, id, data), RowBytes(row)), row);
  }

  lemma OverlongDead(env: Env, disk: Disk, after: Disk, row: Row)
    requires Open(env, disk).Some? && Indexed(after) && IndexData(after) == IndexData(disk) + RowBytes(row)
    requires row.TerminalRow? && row.receipt.bytes > MAX_JSON_BYTES && |RowBytes(row)| <= MAX_ROW_BYTES
    ensures Dead(env, after)
  {
    DecodeRowBytes(row);
    forall tree
      ensures Open(env, after.(tree := tree)).None?
    {
      var other := after.(tree := tree);
      if Open(env, other).Some? {
        ReplayLast(env, disk, other, IndexData(disk), RowBytes(row), START);
        TooLargeRow(env, other, ReplayData(env, disk, IndexData(disk), START).value, row);
      }
    }
  }
}
