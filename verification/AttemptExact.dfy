/** `create`, `begin` and `finish` exactly: when each returns a row, told without the checks they make,
    and what each then leaves. */
module AttemptExact {
  import opened Basics
  import opened Json
  import opened Text
  import opened AttemptRows
  import opened AttemptIndex
  import opened AttemptReplay
  import opened AttemptCalls
  import opened AttemptLengths
  import opened AttemptReceipts
  import opened AttemptEntries
  import opened AttemptLaw

  // ------------------------------------------------------------------ create

  /** `create` returns the identity row exactly for a well-formed identity and a namespace that is either
      unused or already a journal of that identity. */
  lemma CreateExactly(env: Env, disk: Disk, identity: Identity)
    requires Standard(env)
    ensures Create(env, disk, identity).row.Some? <==>
              && IdText(identity.journal) && IdText(identity.host) && identity.target in env.targets
              && (disk.attempts.None? || disk.attempts == Some(Dir))
              && if Index in disk.slots then Open(env, disk).Some? && Open(env, disk).value.identity == identity
                 else disk.slots == map[]
    ensures Create(env, disk, identity).row.Some? ==>
              Create(env, disk, identity).row == Some(IdentityRow(1, Zeros(64), identity))
    ensures Create(env, disk, identity).row.Some? ==>
              Create(env, disk, identity).disk ==
                if Index in disk.slots then disk
                else Disk(Some(Dir), map[Index := File(RowBytes(IdentityRow(1, Zeros(64), identity)))], disk.tree)
  {
    NameText(identity.journal);
    NameText(identity.host);
    if ValidIdentity(env, identity) {
      IdentityFits(env, identity, IdentityRow(1, Zeros(64), identity));
    }
  }

  // ------------------------------------------------------------------- begin

  /** What `begin` needs of the journal it finds and of the disk. */
  predicate Beginnable(env: Env, disk: Disk, j: Journal, a: Admission) {
    var row := BeginRow(j.sequence + 1, j.sha256, a.id, a.kind, a.output, a.started);
    && Admits(env, j.identity, row) && a.id != "index.jsonl" && a.id !in j.entries
    && (forall id :: id in j.entries && j.entries[id].begin.BeginRow? ==> OutputsApart(row, j.entries[id].begin))
    && Split(a.output, '/') !in disk.tree && Attempt(a.id) !in disk.slots
    && |RowBytes(row)| <= 65536
  }

  /** `begin` returns a row exactly when the journal opens and takes the admission. */
  lemma BeginExactly(env: Env, disk: Disk, a: Admission)
    ensures Begin(env, disk, a).row.Some? <==>
              Open(env, disk).Some? && Beginnable(env, disk, Open(env, disk).value, a)
  {
    NameText(a.id);
    CleanText(a.output);
  }

  /** A completed `begin` leaves one directory and one row more. */
  lemma BeginLeaves(env: Env, disk: Disk, a: Admission)
    requires Begin(env, disk, a).row.Some?
    ensures Open(env, disk).Some? && Indexed(disk)
    ensures var j, after := Open(env, disk).value, Begin(env, disk, a).disk;
            var row := BeginRow(j.sequence + 1, j.sha256, a.id, a.kind, a.output, a.started);
            && Begin(env, disk, a).row == Some(row)
            && after.attempts == disk.attempts && after.tree == disk.tree
            && after.slots == disk.slots[Attempt(a.id) := Dir][Index := File(IndexData(disk) + RowBytes(row))]
  {
  }

  // ------------------------------------------------------------------ finish

  /** An open attempt of the journal. */
  predicate Unfinished(j: Journal, id: string) {
    id in j.entries && j.entries[id].terminal.None? && j.entries[id].begin.BeginRow?
  }

  /** `finish` returns a row exactly when the attempt is open and the tree bears the receipt out. */
  lemma FinishExactly(env: Env, disk: Disk, id: string, receipt: Value)
    requires Standard(env) && Counted(env, disk, receipt)
    ensures Finish(env, disk, id, receipt).row.Some? <==>
              && Open(env, disk).Some? && Unfinished(Open(env, disk).value, id) && Receipt(id) !in disk.slots
              && Reported(env, disk.tree, Open(env, disk).value, id, receipt)
  {
    RejectedFinish(env, disk, id, receipt);
    if Open(env, disk).Some? && Unfinished(Open(env, disk).value, id) {
      OpenName(env, disk, id);
      ReportedExactly(env, disk.tree, Open(env, disk).value, id, receipt);
    }
  }

  lemma OpenName(env: Env, disk: Disk, id: string)
    requires Open(env, disk).Some? && id in Open(env, disk).value.entries
    ensures Name(id) && Open(env, disk).value.entries[id].begin.BeginRow?
    ensures Open(env, disk).value.entries[id].begin.id == id
  {
    OpenSound(env, disk);
    assert SoundEntry(id, Open(env, disk).value.entries[id]);
  }

  /** A completed `finish` leaves the receipt in the attempt's directory and one row more. */
  lemma FinishLeaves(env: Env, disk: Disk, id: string, receipt: Value)
    requires Finish(env, disk, id, receipt).row.Some?
    ensures Open(env, disk).Some? && Indexed(disk)
    ensures var j, after, data := Open(env, disk).value, Finish(env, disk, id, receipt).disk, Canonical(receipt);
            var row := TerminalRow(j.sequence + 1, j.sha256, id,
                                   Ref("attempts/" + id + "/attempt.json", env.hash(data), |data|));
            && Finish(env, disk, id, receipt).row == Some(row)
            && after.attempts == disk.attempts && after.tree == disk.tree
            && after.slots == disk.slots[Receipt(id) := File(data)][Index := File(IndexData(disk) + RowBytes(row))]
  {
  }

  ghost predicate Reported(env: Env, tree: Tree, j: Journal, id: string, receipt: Value)
    requires Unfinished(j, id)
  {
    exists r ::
      receipt == ReceiptValue(env, j.entries[id].begin, r) && BorneOut(env, tree, j.identity, j.entries[id].begin, r)
  }

  lemma ReportedExactly(env: Env, tree: Tree, j: Journal, id: string, receipt: Value)
    requires Unfinished(j, id)
    ensures ReceiptHolds(env, tree, j.identity, j.entries[id].begin, receipt) <==> Reported(env, tree, j, id, receipt)
  {
    var begin := j.entries[id].begin;
    if ReceiptHolds(env, tree, j.identity, begin, receipt) {
      var r := HoldsBorneOut(env, tree, j.identity, begin, receipt);
    }
    if r :| receipt == ReceiptValue(env, begin, r) && BorneOut(env, tree, j.identity, begin, r) {
      BorneOutHolds(env, tree, j.identity, begin, r);
    }
  }

  /** What a receipt says of an admission, member by member. */
  ghost predicate Says(env: Env, begin: Row, receipt: Value)
    requires begin.BeginRow?
  {
    && Get(receipt, "id") == Some(Str(begin.id)) && Get(receipt, "started_at") == Some(Str(begin.started))
    && Get(receipt, "status") in {Some(Str("passed")), Some(Str("failed")), Some(Str("interrupted"))}
    && exists finished ::
         && Get(receipt, "finished_at") == Some(Str(finished))
         && env.time(begin.started).Some? && env.time(finished).Some?
         && env.time(begin.started).value <= env.time(finished).value
  }

  /** The evidence lies below the admitted output, and its record names the attempt with the same
      status and times. */
  ghost predicate Supports(env: Env, tree: Tree, begin: Row, receipt: Value)
    requires begin.BeginRow?
  {
    exists path, data, outcome ::
      && Get(receipt, "evidence") == Some(Reference(env, path, data)) && Stored(tree, [], path, data)
      && Split(begin.output, '/') <= Split(path, '/') && Loads(env, data, outcome)
      && Get(outcome, "attempt_id") == Some(Str(begin.id)) && Get(outcome, "status") == Get(receipt, "status")
      && Get(outcome, "started_at") == Get(receipt, "started_at")
      && Get(outcome, "finished_at") == Get(receipt, "finished_at")
  }

  lemma BorneOutSays(env: Env, tree: Tree, identity: Identity, begin: Row, r: Report)
    requires begin.BeginRow? && BorneOut(env, tree, identity, begin, r)
    ensures Says(env, begin, ReceiptValue(env, begin, r)) && Supports(env, tree, begin, ReceiptValue(env, begin, r))
  {
    NamedReceipt(env, begin, r);
    ReceiptGets(ReceiptValue(env, begin, r));
    var outcome :| OutcomeOf(env, tree, identity, begin, r, outcome);
    assert Stored(tree, [], r.evidence, r.data) && Loads(env, r.data, outcome);
  }

  /** A finished receipt: its own id, status and start, finished no earlier than it started, with its
      evidence retained. */
  lemma FinishedSays(env: Env, disk: Disk, id: string, receipt: Value)
    requires Finish(env, disk, id, receipt).row.Some?
    ensures Open(env, disk).Some? && Unfinished(Open(env, disk).value, id)
    ensures var begin := Open(env, disk).value.entries[id].begin;
            begin.id == id && Says(env, begin, receipt) && Supports(env, disk.tree, begin, receipt)
  {
    var j := Open(env, disk).value;
    var begin := j.entries[id].begin;
    OpenName(env, disk, id);
    var r := HoldsBorneOut(env, disk.tree, j.identity, begin, receipt);
    BorneOutSays(env, disk.tree, j.identity, begin, r);
  }

  /** The same of every terminal row of a journal that opens. */
  lemma OpenedSays(env: Env, disk: Disk, id: string)
    requires Open(env, disk).Some? && id in Open(env, disk).value.entries
    requires Open(env, disk).value.entries[id].terminal.Some?
    ensures var e := Open(env, disk).value.entries[id];
            && e.begin.BeginRow? && e.begin.id == id && Receipt(id) in disk.slots && disk.slots[Receipt(id)].File?
            && var data := disk.slots[Receipt(id)].data;
               && e.terminal.value.TerminalRow?
               && e.terminal.value.receipt == Ref("attempts/" + id + "/attempt.json", env.hash(data), |data|)
               && env.loads(data).Some?
               && Says(env, e.begin, env.loads(data).value) && Supports(env, disk.tree, e.begin, env.loads(data).value)
  {
    var rows := OpenLaw(env, disk);
    LawOpens(env, disk, rows);
    LawfulTracks(env, disk, rows);
    var k :| 0 <= k < |rows| && rows[k].TerminalRow? && rows[k].id == id;
    assert EntriesOf(rows)[id].terminal == Some(rows[k]);
    var i := EndedAt(env, disk, rows, k);
    assert EntriesOf(rows)[id].begin == rows[i];
    var data, r :| Concludes(env, disk, rows[0].identity, rows[i], rows[k], data, r);
    BorneOutSays(env, disk.tree, rows[0].identity, rows[i], r);
  }

  /** The admission a lawful terminal row ends. */
  lemma EndedAt(env: Env, disk: Disk, rows: seq<Row>, k: nat) returns (i: nat)
    requires AllLawful(env, disk, rows) && k < |rows| && rows[k].TerminalRow?
    ensures i < k && rows[0].IdentityRow? && rows[i].BeginRow? && rows[i].id == rows[k].id
    ensures Concluded(env, disk, rows[0].identity, rows[i], rows[k])
  {
    assert Lawful(env, disk, rows[..k], rows[k]);
    assert k > 0;
    i := EndsOne(env, disk, rows[..k], rows[k]);
  }

  lemma EndsOne(env: Env, disk: Disk, before: seq<Row>, row: Row) returns (i: nat)
    requires before != [] && row.TerminalRow? && Ends(env, disk, before, row)
    ensures i < |before| && before[0].IdentityRow? && before[i].BeginRow? && before[i].id == row.id
    ensures Concluded(env, disk, before[0].identity, before[i], row)
  {
    i :| 0 <= i < |before| && before[i].BeginRow? && before[i].id == row.id
         && Concluded(env, disk, before[0].identity, before[i], row);
  }

  // ---------------------------------------------------------- rostered kinds

  /** A rostered run's record: where and when it ran, how it ended, and what it produced. */
  predicate Recorded(env: Env, begin: Row, identity: Identity, r: Report, outcome: Value, products: seq<Product>)
    requires begin.BeginRow?
  {
    && Loads(env, r.data, outcome) && Names(env, begin, r, outcome)
    && Get(outcome, "target") == Some(Str(identity.target))
    && Get(outcome, "products") == Some(Arr(ProductValues(env, products)))
  }

  /** An open attempt of a rostered kind finishes, however it ended: a record stored below its output,
      a finish no earlier than the start and the roster's files are enough. */
  lemma RosteredFinish(env: Env, disk: Disk, id: string, r: Report, outcome: Value, products: seq<Product>,
                       roster: set<string>)
    requires Standard(env) && Open(env, disk).Some? && Unfinished(Open(env, disk).value, id)
    requires var begin := Open(env, disk).value.entries[id].begin;
             && begin.kind in env.kinds && env.kinds[begin.kind].roster == Some(roster)
             && Counted(env, disk, ReceiptValue(env, begin, r))
             && env.time(begin.started).Some? && env.time(r.finished).Some?
             && env.time(begin.started).value <= env.time(r.finished).value
             && Stored(disk.tree, [], r.evidence, r.data) && Split(begin.output, '/') <= Split(r.evidence, '/')
             && Recorded(env, begin, Open(env, disk).value.identity, r, outcome, products)
             && Produced(disk.tree, Split(begin.output, '/'), roster, products, r.status == "passed")
    requires r.observation == Null && (r.status == "passed" || r.status == "failed" || r.status == "interrupted")
    requires Receipt(id) !in disk.slots
    ensures Finish(env, disk, id, ReceiptValue(env, Open(env, disk).value.entries[id].begin, r)).row.Some?
  {
    var j := Open(env, disk).value;
    RecordedOutcome(env, disk.tree, j.identity, j.entries[id].begin, r, outcome, products, roster);
    FinishExactly(env, disk, id, ReceiptValue(env, j.entries[id].begin, r));
  }

  lemma RecordedOutcome(env: Env, tree: Tree, identity: Identity, begin: Row, r: Report, outcome: Value,
                        products: seq<Product>, roster: set<string>)
    requires begin.BeginRow? && begin.kind in env.kinds && env.kinds[begin.kind].roster == Some(roster)
    requires Recorded(env, begin, identity, r, outcome, products) && r.observation == Null
    requires Produced(tree, Split(begin.output, '/'), roster, products, r.status == "passed")
    ensures OutcomeOf(env, tree, identity, begin, r, outcome)
  {
  }
}
