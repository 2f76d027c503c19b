/** `create`, `begin` and `finish`: what each leaves on disk, what a cut of it leaves, and the
    journal every later call then finds. */
module AttemptCalls {
  import opened Basics
  import opened Json
  import opened AttemptRows
  import opened AttemptIndex
  import opened AttemptReplay
  import opened AttemptFrame

  /** The disk a call leaves and the row it returns; no row is a rejection. */
  datatype Result = Result(disk: Disk, row: Option<Row>)

  function Put(disk: Disk, slot: Slot, node: Node): Disk {
    disk.(slots := disk.slots[slot := node])
  }

  function Appended(disk: Disk, bytes: Bytes): Disk
    requires Indexed(disk)
  {
    Put(disk, Index, File(IndexData(disk) + bytes))
  }

  // ------------------------------------------------------------------- begin

  datatype Admission = Admission(id: string, kind: string, output: string, started: string)

  function BeginRowFor(j: Journal, a: Admission): (row: Row)
    ensures row.BeginRow?
  {
    BeginRow(j.sequence + 1, j.sha256, a.id, a.kind, a.output, a.started)
  }

  /** Every check `begin` makes before its first effect, the directory creation included. */
  predicate BeginAllowed(env: Env, disk: Disk, a: Admission) {
    && Name(a.id) && a.kind in env.kinds && Open(env, disk).Some?
    && var j := Open(env, disk).value;
       && Relative(a.output).Some? && Relative(a.output).value !in disk.tree
       && Admissible(env, j.identity, j.entries, BeginRowFor(j, a))
       && a.id != INDEX_NAME && Attempt(a.id) !in disk.slots
  }

  function Made(disk: Disk, id: string): Disk {
    Put(disk, Attempt(id), Dir)
  }

  function BeginLine(env: Env, disk: Disk, a: Admission): Bytes
    requires Open(env, disk).Some?
  {
    RowBytes(BeginRowFor(Open(env, disk).value, a))
  }

  function Begin(env: Env, disk: Disk, a: Admission): Result {
    if !BeginAllowed(env, disk, a) then Result(disk, None)
    else
      var made := Made(disk, a.id);
      var line := BeginLine(env, disk, a);
      if |line| > MAX_ROW_BYTES then Result(made, None)
      else Result(Appended(made, line), Some(BeginRowFor(Open(env, disk).value, a)))
  }

  // ------------------------------------------------------------------ finish

  predicate FinishAllowed(env: Env, disk: Disk, id: string, receipt: Value) {
    && Name(id) && Open(env, disk).Some?
    && var j := Open(env, disk).value;
       && id in j.entries && j.entries[id].terminal.None? && j.entries[id].begin.BeginRow?
       && ReceiptHolds(env, disk.tree, j.identity, j.entries[id].begin, receipt)
       && Receipt(id) !in disk.slots
  }

  function TerminalRowFor(env: Env, j: Journal, id: string, data: Bytes): (row: Row)
    ensures row.TerminalRow?
  {
    TerminalRow(j.sequence + 1, j.sha256, id, Ref(ReceiptPath(id), env.hash(data), |data|))
  }

  function Received(disk: Disk, id: string, bytes: Bytes): Disk {
    Put(disk, Receipt(id), File(bytes))
  }

  function FinishLine(env: Env, disk: Disk, id: string, data: Bytes): Bytes
    requires Open(env, disk).Some?
  {
    RowBytes(TerminalRowFor(env, Open(env, disk).value, id, data))
  }

  function Finish(env: Env, disk: Disk, id: string, receipt: Value): Result {
    if !FinishAllowed(env, disk, id, receipt) then Result(disk, None)
    else
      var data := Canonical(receipt);
      var kept := Received(disk, id, data);
      var line := FinishLine(env, disk, id, data);
      if |line| > MAX_ROW_BYTES then Result(kept, None)
      else Result(Appended(kept, line), Some(TerminalRowFor(env, Open(env, disk).value, id, data)))
  }

  // ------------------------------------------------------------------ create

  function IdentityRowFor(identity: Identity): (row: Row)
    ensures row.IdentityRow?
  {
    IdentityRow(1, Zeros(64), identity)
  }

  function Create(env: Env, disk: Disk, identity: Identity): Result {
    var row := IdentityRowFor(identity);
    if !ValidIdentity(env, identity) then Result(disk, None)
    else if disk.attempts.Some? && !disk.attempts.value.Dir? then Result(disk, None)
    else if Index in disk.slots then
      match Open(env, disk)
      case None => Result(disk, None)
      case Some(j) => Result(disk, if j.identity == identity then Some(row) else None)
    else
      var made := disk.(attempts := Some(Dir));
      if made.slots != map[] then Result(made, None)
      else if |RowBytes(row)| > MAX_ROW_BYTES then Result(Put(made, Index, File([])), None)
      else Result(Put(made, Index, File(RowBytes(row))), Some(row))
  }

  // ------------------------------------------------- cut before the whole row

  /** The disk after a cut of `begin`: the directory, then any part of the row. */
  predicate BeginCut(disk: Disk, id: string, line: Bytes, cut: Disk)
    requires Indexed(disk)
  {
    exists k :: 0 <= k < |line| && cut == Appended(Made(disk, id), line[..k])
  }

  /** The disk after a cut of `finish`: any part of the receipt, then any part of the row. */
  predicate FinishCut(disk: Disk, id: string, receipt: Bytes, line: Bytes, cut: Disk)
    requires Indexed(disk)
  {
    || (exists k :: 0 <= k <= |receipt| && cut == Received(disk, id, receipt[..k]))
    || (exists k :: 0 <= k < |line| && cut == Appended(Received(disk, id, receipt), line[..k]))
  }

  /** Rejected by every replay, now and after any change outside `attempts/`. */
  ghost predicate Dead(env: Env, disk: Disk) {
    && Indexed(disk)
    && forall tree :: Open(env, disk.(tree := tree)).None?
  }

  lemma TornDead(env: Env, disk: Disk, data: Bytes, tail: Bytes)
    requires Indexed(disk) && IndexData(disk) == data + tail && tail != [] && '\n' !in tail
    ensures Dead(env, disk)
  {
    forall tree
      ensures Open(env, disk.(tree := tree)).None?
    {
      TornRejected(env, disk.(tree := tree), data, tail, START);
    }
  }

  /** Tearing a row leaves a dead journal when even no byte of it does. */
  lemma RowCutDead(env: Env, base: Disk, row: Row, k: nat)
    requires Dead(env, base) && k < |RowBytes(row)|
    ensures Dead(env, Appended(base, RowBytes(row)[..k]))
  {
    var tail := RowBytes(row)[..k];
    if k == 0 {
      assert IndexData(base) + tail == IndexData(base);
      assert Appended(base, tail) == base;
    } else {
      RowTerminated(row);
      TornDead(env, Appended(base, tail), IndexData(base), tail);
    }
  }

  /** Rows that were accepted on one disk leave the same entries on any disk that accepts them. */
  lemma SameRowsSameJournal(env: Env, disk: Disk, other: Disk)
    requires Open(env, disk).Some? && Open(env, other).Some?
    requires IndexData(other) == IndexData(disk)
    ensures Open(env, other).value == Open(env, disk).value
  {
    ReplayDetermined(env, disk, other, IndexData(disk), START);
  }

  lemma OpenCensus(env: Env, disk: Disk)
    requires Open(env, disk).Some?
    ensures Indexed(disk) && Census(disk.slots, Open(env, disk).value.entries)
  {
  }

  lemma CensusAt(slots: Slots, entries: Entries, slot: Slot)
    requires Census(slots, entries) && slot in slots
    ensures SlotHolds(slot, slots[slot], entries)
  {
  }

  lemma MadeDead(env: Env, disk: Disk, id: string)
    requires Open(env, disk).Some? && Attempt(id) !in disk.slots
    ensures Dead(env, Made(disk, id))
  {
    OpenCensus(env, disk);
    forall tree
      ensures Open(env, Made(disk, id).(tree := tree)).None?
    {
      var other := Made(disk, id).(tree := tree);
      if Open(env, other).Some? {
        SameRowsSameJournal(env, disk, other);
        OpenCensus(env, other);
        CensusAt(other.slots, Open(env, disk).value.entries, Attempt(id));
      }
    }
  }

  /** Cutting `begin` after its first effect and before its whole row is on disk leaves a journal
      that is rejected ever after. */
  lemma BeginCutDead(env: Env, disk: Disk, a: Admission, cut: Disk)
    requires BeginAllowed(env, disk, a) && BeginCut(disk, a.id, BeginLine(env, disk, a), cut)
    ensures Dead(env, cut)
  {
    var row := BeginRowFor(Open(env, disk).value, a);
    var made := Made(disk, a.id);
    MadeDead(env, disk, a.id);
    var k :| 0 <= k < |RowBytes(row)| && cut == Appended(made, RowBytes(row)[..k]);
    RowCutDead(env, made, row, k);
  }

  lemma ReceivedDead(env: Env, disk: Disk, id: string, bytes: Bytes)
    requires Open(env, disk).Some? && id in Open(env, disk).value.entries
    requires Open(env, disk).value.entries[id].terminal.None?
    ensures Dead(env, Received(disk, id, bytes))
  {
    OpenCensus(env, disk);
    forall tree
      ensures Open(env, Received(disk, id, bytes).(tree := tree)).None?
    {
      var other := Received(disk, id, bytes).(tree := tree);
      if Open(env, other).Some? {
        SameRowsSameJournal(env, disk, other);
        OpenCensus(env, other);
        CensusAt(other.slots, Open(env, disk).value.entries, Receipt(id));
      }
    }
  }

  /** The same for `finish`: a receipt torn anywhere, a receipt without a row, a torn row. */
  lemma FinishCutDead(env: Env, disk: Disk, id: string, receipt: Value, cut: Disk)
    requires FinishAllowed(env, disk, id, receipt)
    requires FinishCut(disk, id, Canonical(receipt), FinishLine(env, disk, id, Canonical(receipt)), cut)
    ensures Dead(env, cut)
  {
    FinishBytesDead(env, disk, id, Canonical(receipt), cut);
  }

  lemma FinishBytesDead(env: Env, disk: Disk, id: string, data: Bytes, cut: Disk)
    requires Open(env, disk).Some? && id in Open(env, disk).value.entries
    requires Open(env, disk).value.entries[id].terminal.None?
    requires FinishCut(disk, id, data, FinishLine(env, disk, id, data), cut)
    ensures Dead(env, cut)
  {
    var row := TerminalRowFor(env, Open(env, disk).value, id, data);
    if k :| 0 <= k <= |data| && cut == Received(disk, id, data[..k]) {
      ReceivedDead(env, disk, id, data[..k]);
    } else {
      ReceivedDead(env, disk, id, data);
      var k :| 0 <= k < |RowBytes(row)| && cut == Appended(Received(disk, id, data), RowBytes(row)[..k]);
      RowCutDead(env, Received(disk, id, data), row, k);
    }
  }

  /** No later call of any kind accepts a dead journal or changes it, and nothing done outside
      `attempts/` brings it back. */
  lemma DeadIsFinal(env: Env, disk: Disk)
    requires Dead(env, disk)
    ensures Open(env, disk).None?
    ensures forall identity :: Create(env, disk, identity) == Result(disk, None)
    ensures forall a :: Begin(env, disk, a) == Result(disk, None)
    ensures forall id, receipt :: Finish(env, disk, id, receipt) == Result(disk, None)
    ensures forall tree :: Dead(env, disk.(tree := tree))
  {
    assert disk.(tree := disk.tree) == disk;
    forall tree
      ensures Dead(env, disk.(tree := tree))
    {
      forall next: Tree
        ensures Open(env, disk.(tree := tree).(tree := next)).None?
      {
        assert disk.(tree := tree).(tree := next) == disk.(tree := next);
      }
    }
  }

  /** `begin` measures its row only after it made the directory. So a rejected `begin` changes the
      disk exactly when its checks pass and its row is over the limit, and what it then leaves
      behind is a dead journal. */
  lemma RejectedBegin(env: Env, disk: Disk, a: Admission)
    ensures Begin(env, disk, a).row.None? && Begin(env, disk, a).disk != disk
            <==> BeginAllowed(env, disk, a) && |BeginLine(env, disk, a)| > MAX_ROW_BYTES
    ensures BeginAllowed(env, disk, a) && |BeginLine(env, disk, a)| > MAX_ROW_BYTES ==>
              Dead(env, Begin(env, disk, a).disk)
  {
    if BeginAllowed(env, disk, a) && |BeginLine(env, disk, a)| > MAX_ROW_BYTES {
      MadeDead(env, disk, a.id);
      assert Attempt(a.id) in Made(disk, a.id).slots;
    }
  }
}
