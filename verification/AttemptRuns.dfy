/** Completed calls refine an abstract journal: replay rebuilds exactly what they built. */
module AttemptRuns {
  import opened Basics
  import opened Json
  import opened AttemptRows
  import opened AttemptIndex
  import opened AttemptReplay
  import opened AttemptFrame
  import opened AttemptCalls

  /** Every place of the namespace but the index is still as it was, and so is the tree. */
  predicate Grown(before: Disk, after: Disk) {
    && after.tree == before.tree
    && forall slot :: slot in before.slots && slot != Index ==>
        slot in after.slots && after.slots[slot] == before.slots[slot]
  }

  lemma GrownKeeps(before: Disk, after: Disk, id: string, begin: Row)
    requires Grown(before, after) && begin.BeginRow?
    ensures Kept(before, after, id, begin)
  {
  }

  /** Finished attempts of an accepted journal find what they are read back from. */
  predicate AllKept(before: Disk, after: Disk, entries: Entries) {
    forall id :: id in entries && entries[id].terminal.Some? ==>
      entries[id].begin.BeginRow? && Kept(before, after, id, entries[id].begin)
  }

  lemma KeptReplays(env: Env, before: Disk, after: Disk)
    requires Open(env, before).Some? && AllKept(before, after, Open(env, before).value.entries)
    ensures ReplayData(env, after, IndexData(before), START) == ReplayData(env, before, IndexData(before), START)
  {
    ReplayFrame(env, before, after, IndexData(before), START);
  }

  /** The rows already there replay as before on a disk that only grew. */
  lemma GrownReplays(env: Env, before: Disk, after: Disk)
    requires Open(env, before).Some? && Grown(before, after)
    ensures ReplayData(env, after, IndexData(before), START) == ReplayData(env, before, IndexData(before), START)
  {
    OpenSound(env, before);
    var end := Open(env, before).value.entries;
    forall id | id in end && end[id].terminal.Some?
      ensures end[id].begin.BeginRow? && Kept(before, after, id, end[id].begin)
    {
      assert SoundEntry(id, end[id]);
      GrownKeeps(before, after, id, end[id].begin);
    }
    KeptReplays(env, before, after);
  }

  function ProgressOf(j: Journal): Progress {
    Progress(Some(j.identity), j.entries, j.sequence, j.sha256)
  }

  lemma OpenProgress(env: Env, disk: Disk)
    requires Open(env, disk).Some?
    ensures ReplayData(env, disk, IndexData(disk), START) == Some(ProgressOf(Open(env, disk).value))
  {
  }

  lemma OpenIs(env: Env, disk: Disk, j: Journal)
    requires Indexed(disk) && ReplayData(env, disk, IndexData(disk), START) == Some(ProgressOf(j))
    requires Census(disk.slots, j.entries)
    ensures Open(env, disk) == Some(j)
  {
  }

  lemma DecodeRowBytes(row: Row)
    requires ValidRow(row) && |RowBytes(row)| <= MAX_ROW_BYTES
    ensures DecodeRow(RowBytes(row)) == Some(row) && OneLine(RowBytes(row))
  {
    DecodeRowExact(RowBytes(row), row);
    RowTerminated(row);
  }

  lemma ApplyEncoded(env: Env, disk: Disk, st: Progress, row: Row)
    requires ValidRow(row) && |RowBytes(row)| <= MAX_ROW_BYTES
    ensures Apply(env, disk, st, RowBytes(row)) == ApplyRow(env, disk, st, row, env.hash(RowBytes(row)))
  {
    DecodeRowBytes(row);
  }

  /** A row appended to an accepted journal is judged against that journal. */
  lemma AppendReplays(env: Env, before: Disk, after: Disk, row: Row)
    requires Open(env, before).Some? && Grown(before, after) && Indexed(after)
    requires ValidRow(row) && |RowBytes(row)| <= MAX_ROW_BYTES
    requires IndexData(after) == IndexData(before) + RowBytes(row)
    ensures ReplayData(env, after, IndexData(after), START)
            == ApplyRow(env, after, ProgressOf(Open(env, before).value), row, env.hash(RowBytes(row)))
  {
    GrownReplays(env, before, after);
    OpenProgress(env, before);
    DecodeRowBytes(row);
    ReplayAppend(env, after, IndexData(before), RowBytes(row), START);
    ApplyEncoded(env, after, ProgressOf(Open(env, before).value), row);
  }

  lemma ApplyRowIs(env: Env, disk: Disk, j: Journal, row: Row, digest: string, entries: Entries)
    requires !row.IdentityRow? && row.sequence == j.sequence + 1 && row.previous == j.sha256
    requires NextEntries(env, disk, ProgressOf(j), row) == Some(entries)
    ensures ApplyRow(env, disk, ProgressOf(j), row, digest)
            == Some(ProgressOf(Journal(j.identity, entries, j.sequence + 1, digest)))
  {
  }

  /** The journal after one more row with these entries. */
  function Advanced(env: Env, j: Journal, row: Row, entries: Entries): Journal {
    Journal(j.identity, entries, j.sequence + 1, env.hash(RowBytes(row)))
  }

  lemma RowOpens(env: Env, before: Disk, after: Disk, row: Row, next: Journal)
    requires Open(env, before).Some? && Grown(before, after) && Indexed(after)
    requires ValidRow(row) && |RowBytes(row)| <= MAX_ROW_BYTES
    requires IndexData(after) == IndexData(before) + RowBytes(row)
    requires ApplyRow(env, after, ProgressOf(Open(env, before).value), row, env.hash(RowBytes(row)))
             == Some(ProgressOf(next))
    requires Census(after.slots, next.entries)
    ensures Open(env, after) == Some(next)
  {
    AppendReplays(env, before, after, row);
    OpenIs(env, after, next);
  }

  lemma RowRejected(env: Env, before: Disk, after: Disk, row: Row)
    requires Open(env, before).Some? && Grown(before, after) && Indexed(after)
    requires ValidRow(row) && |RowBytes(row)| <= MAX_ROW_BYTES
    requires IndexData(after) == IndexData(before) + RowBytes(row)
    requires NextEntries(env, after, ProgressOf(Open(env, before).value), row).None?
    ensures Open(env, after).None?
  {
    AppendReplays(env, before, after, row);
  }

  // ------------------------------------------------------------------- begin

  function Admitted(env: Env, j: Journal, row: Row): Journal
    requires row.BeginRow?
  {
    Advanced(env, j, row, j.entries[row.id := Entry(row, None)])
  }

  /** A real directory: an attempt's files need its directory. */
  predicate Rooted(slots: Slots) {
    forall slot :: slot in slots && (slot.Receipt? || slot.Stray?) ==> Attempt(slot.name) in slots
  }

  lemma MadeCensus(disk: Disk, entries: Entries, id: string, row: Row, bytes: Bytes)
    requires Indexed(disk) && Rooted(disk.slots) && Census(disk.slots, entries) && Name(id)
    requires Attempt(id) !in disk.slots && id !in entries
    ensures Census(Appended(Made(disk, id), bytes).slots, entries[id := Entry(row, None)])
  {
    var after, next := Appended(Made(disk, id), bytes).slots, entries[id := Entry(row, None)];
    forall slot | slot in after
      ensures SlotHolds(slot, after[slot], next)
    {
      if slot != Index && slot != Attempt(id) {
        CensusAt(disk.slots, entries, slot);
      }
    }
  }

  /** A completed `begin`: replay finds the journal it started from with one more admission. */
  lemma BeginCompletes(env: Env, disk: Disk, a: Admission)
    requires Rooted(disk.slots) && Begin(env, disk, a).row.Some?
    ensures Open(env, Begin(env, disk, a).disk)
            == Some(Admitted(env, Open(env, disk).value, Begin(env, disk, a).row.value))
  {
    BeginOpens(env, disk, BeginRowFor(Open(env, disk).value, a));
  }

  lemma BeginOpens(env: Env, disk: Disk, row: Row)
    requires Open(env, disk).Some? && Rooted(disk.slots) && row.BeginRow? && Name(row.id)
    requires row.sequence == Open(env, disk).value.sequence + 1 && row.previous == Open(env, disk).value.sha256
    requires Admissible(env, Open(env, disk).value.identity, Open(env, disk).value.entries, row)
    requires Attempt(row.id) !in disk.slots && |RowBytes(row)| <= MAX_ROW_BYTES
    ensures Open(env, Appended(Made(disk, row.id), RowBytes(row))) == Some(Admitted(env, Open(env, disk).value, row))
  {
    var j := Open(env, disk).value;
    var after := Appended(Made(disk, row.id), RowBytes(row));
    OpenCensus(env, disk);
    MadeCensus(disk, j.entries, row.id, row, RowBytes(row));
    ApplyRowIs(env, after, j, row, env.hash(RowBytes(row)), j.entries[row.id := Entry(row, None)]);
    RowOpens(env, disk, after, row, Admitted(env, j, row));
  }

  // ------------------------------------------------------------------ finish

  function Finished(env: Env, j: Journal, row: Row): Journal
    requires row.TerminalRow? && row.id in j.entries
  {
    Advanced(env, j, row, j.entries[row.id := Entry(j.entries[row.id].begin, Some(row))])
  }

  lemma ReceivedCensus(disk: Disk, entries: Entries, id: string, row: Row, data: Bytes, bytes: Bytes)
    requires Indexed(disk) && Census(disk.slots, entries) && id in entries
    ensures Census(Appended(Received(disk, id, data), bytes).slots, entries[id := Entry(entries[id].begin, Some(row))])
  {
    var after := Appended(Received(disk, id, data), bytes).slots;
    var next := entries[id := Entry(entries[id].begin, Some(row))];
    forall slot | slot in after
      ensures SlotHolds(slot, after[slot], next)
    {
      if slot != Index && slot != Receipt(id) {
        CensusAt(disk.slots, entries, slot);
      }
    }
  }

  /** What replay reads from the receipt just written. */
  lemma ReceiptReadBack(env: Env, disk: Disk, after: Disk, id: string, data: Bytes)
    requires Open(env, disk).Some? && id in Open(env, disk).value.entries && Grown(disk, after)
    requires Receipt(id) in after.slots && after.slots[Receipt(id)] == File(data)
    ensures ReceiptRef(env, after.slots, id, Ref(ReceiptPath(id), env.hash(data), |data|)) ==
              if |data| <= MAX_JSON_BYTES then env.loads(data) else None
  {
    OpenCensus(env, disk);
    CensusAt(disk.slots, Open(env, disk).value.entries, Attempt(id));
  }

  lemma FinishApplies(env: Env, disk: Disk, after: Disk, id: string, receipt: Value, data: Bytes)
    requires FinishAllowed(env, disk, id, receipt) && Grown(disk, after)
    requires Receipt(id) in after.slots && after.slots[Receipt(id)] == File(data)
    requires env.loads(data) == Some(receipt)
    ensures var j := Open(env, disk).value;
            var row := TerminalRowFor(env, j, id, data);
            NextEntries(env, after, ProgressOf(j), row) ==
              if |data| <= MAX_JSON_BYTES
              then Some(j.entries[id := Entry(j.entries[id].begin, Some(row))]) else None
  {
    ReceiptReadBack(env, disk, after, id, data);
  }

  /** A completed `finish` is replayed as built exactly when its receipt is within the JSON limit;
      a larger receipt, although written and indexed, makes the journal unreadable. */
  lemma FinishCompletes(env: Env, disk: Disk, id: string, receipt: Value)
    requires Finish(env, disk, id, receipt).row.Some?
    requires env.loads(Canonical(receipt)) == Some(receipt)
    ensures Open(env, Finish(env, disk, id, receipt).disk) ==
              if |Canonical(receipt)| <= MAX_JSON_BYTES
              then Some(Finished(env, Open(env, disk).value, Finish(env, disk, id, receipt).row.value)) else None
  {
    FinishOpens(env, disk, id, receipt, Canonical(receipt));
  }

  lemma FinishOpens(env: Env, disk: Disk, id: string, receipt: Value, data: Bytes)
    requires FinishAllowed(env, disk, id, receipt) && env.loads(data) == Some(receipt)
    requires |FinishLine(env, disk, id, data)| <= MAX_ROW_BYTES
    ensures Open(env, Appended(Received(disk, id, data), FinishLine(env, disk, id, data))) ==
              if |data| <= MAX_JSON_BYTES
              then Some(Finished(env, Open(env, disk).value, TerminalRowFor(env, Open(env, disk).value, id, data)))
              else None
  {
    var j := Open(env, disk).value;
    var row := TerminalRowFor(env, j, id, data);
    var after := Appended(Received(disk, id, data), RowBytes(row));
    OpenCensus(env, disk);
    FinishApplies(env, disk, after, id, receipt, data);
    if |data| <= MAX_JSON_BYTES {
      ReceivedCensus(disk, j.entries, id, row, data, RowBytes(row));
      ApplyRowIs(env, after, j, row, env.hash(RowBytes(row)), j.entries[id := Entry(j.entries[id].begin, Some(row))]);
      RowOpens(env, disk, after, row, Finished(env, j, row));
    } else {
      RowRejected(env, disk, after, row);
    }
  }

  // ------------------------------------------------------------------ create

  function Founded(env: Env, identity: Identity): Journal {
    Journal(identity, map[], 1, env.hash(RowBytes(IdentityRowFor(identity))))
  }

  lemma CreateCompletes(env: Env, disk: Disk, identity: Identity)
    requires Index !in disk.slots && Create(env, disk, identity).row.Some?
    ensures Open(env, Create(env, disk, identity).disk) == Some(Founded(env, identity))
  {
    FirstRowOpens(env, Create(env, disk, identity).disk, IdentityRowFor(identity));
  }

  lemma FirstRowReplays(env: Env, disk: Disk, row: Row)
    requires ValidRow(row) && |RowBytes(row)| <= MAX_ROW_BYTES
    ensures ReplayData(env, disk, RowBytes(row), START) == ApplyRow(env, disk, START, row, env.hash(RowBytes(row)))
  {
    DecodeRowBytes(row);
    ReplayAppend(env, disk, [], RowBytes(row), START);
    assert [] + RowBytes(row) == RowBytes(row);
    ApplyEncoded(env, disk, START, row);
  }

  lemma FirstRowApplies(env: Env, disk: Disk, row: Row, digest: string)
    requires row.IdentityRow? && row.sequence == 1 && row.previous == Zeros(64) && ValidIdentity(env, row.identity)
    ensures ApplyRow(env, disk, START, row, digest) == Some(ProgressOf(Journal(row.identity, map[], 1, digest)))
  {
  }

  lemma FirstRowOpens(env: Env, after: Disk, row: Row)
    requires row.IdentityRow? && row.sequence == 1 && row.previous == Zeros(64)
    requires ValidIdentity(env, row.identity) && |RowBytes(row)| <= MAX_ROW_BYTES
    requires Indexed(after) && after.slots == map[Index := File(RowBytes(row))]
    ensures Open(env, after) == Some(Journal(row.identity, map[], 1, env.hash(RowBytes(row))))
  {
    FirstRowReplays(env, after, row);
    FirstRowApplies(env, after, row, env.hash(RowBytes(row)));
    OpenIs(env, after, Journal(row.identity, map[], 1, env.hash(RowBytes(row))));
  }
}
