/** The calls as they run: effect by effect on one custody root, every write free to be short. */
module AttemptDisk {
  import opened Basics
  import opened Json
  import opened AttemptRows
  import opened AttemptIndex
  import opened AttemptCalls

  /** `replay_rows` over the lines of the index. */
  method ReplayRows(env: Env, disk: Disk, data: Bytes) returns (st: Option<Progress>)
    ensures st == ReplayData(env, disk, data, START)
  {
    var rest := data;
    var identity: Option<Identity> := None;
    var entries: Entries := map[];
    var previous := Zeros(64);
    var sequence: nat := 0;
    while rest != []
      invariant ReplayData(env, disk, data, START)
             == ReplayData(env, disk, rest, Progress(identity, entries, sequence, previous))
      decreases |rest|
    {
      var next := Apply(env, disk, Progress(identity, entries, sequence, previous), FirstLine(rest));
      if next.None? {
        return None;
      }
      identity, entries := next.value.identity, next.value.entries;
      sequence, previous := next.value.sequence, next.value.previous;
      rest := AfterLine(rest);
    }
    st := Some(Progress(identity, entries, sequence, previous));
  }

  /** What a write in pieces can leave, nothing and everything included. */
  predicate PartlyAppended(base: Disk, data: Bytes, disk: Disk)
    requires Indexed(base)
  {
    exists k :: 0 <= k <= |data| && disk == Appended(base, data[..k])
  }

  /** Where a crash can stop: the journal is dead, or the call is complete. */
  ghost predicate DeadOr(env: Env, disk: Disk, done: Disk) {
    Dead(env, disk) || disk == done
  }

  class Custody {
    var disk: Disk
    /** Every disk an effect left, in order. */
    ghost var seen: seq<Disk>
    /** Writes that took nothing and syncs that failed. */
    ghost var failures: nat

    constructor (initial: Disk)
      ensures disk == initial && seen == [] && failures == 0
    {
      disk := initial;
      seen := [];
      failures := 0;
    }

    method Effect(next: Disk)
      modifies this
      ensures disk == next && seen == old(seen) + [next] && failures == old(failures)
    {
      disk := next;
      seen := seen + [next];
    }

    /** The operating system's answer to a sync. */
    method Sync() returns (ok: bool)
      modifies this`failures
      ensures failures == old(failures) + if ok then 0 else 1
    {
      ok := *;
      if !ok {
        failures := failures + 1;
      }
    }

    /** Writes that each take what they can, then fsync. */
    method Write(data: Bytes) returns (ok: bool)
      requires Indexed(disk)
      modifies this
      ensures ok ==> disk == Appended(old(disk), data)
      ensures failures == old(failures) + if ok then 0 else 1
      ensures PartlyAppended(old(disk), data, disk)
      ensures old(seen) <= seen
      ensures forall i :: |old(seen)| <= i < |seen| ==> PartlyAppended(old(disk), data, seen[i])
    {
      ghost var base := disk;
      AppendedNothing(base, data);
      var written := 0;
      while written < |data|
        invariant 0 <= written <= |data|
        invariant disk == Appended(base, data[..written]) && failures == old(failures)
        invariant old(seen) <= seen
        invariant forall i :: |old(seen)| <= i < |seen| ==> PartlyAppended(base, data, seen[i])
      {
        var count: nat :| count <= |data| - written;
        if count == 0 {
          failures := failures + 1;
          return false;
        }
        AppendedMore(base, data, written, count);
        Effect(Appended(disk, data[written..written + count]));
        written := written + count;
      }
      assert data[..|data|] == data;
      ok := Sync();
    }

    /** `append`. Every caller appends where the journal is dead, and it stays so up to the last
        byte of the row. */
    method AppendRow(ghost env: Env, row: Row) returns (ok: bool)
      requires Dead(env, disk)
      modifies this
      ensures ok ==> |RowBytes(row)| <= MAX_ROW_BYTES && disk == Appended(old(disk), RowBytes(row))
      ensures |RowBytes(row)| > MAX_ROW_BYTES ==> disk == old(disk) && seen == old(seen)
      ensures failures == old(failures) + if ok || |RowBytes(row)| > MAX_ROW_BYTES then 0 else 1
      ensures DeadOr(env, disk, Appended(old(disk), RowBytes(row)))
      ensures old(seen) <= seen
      ensures forall i :: |old(seen)| <= i < |seen| ==> DeadOr(env, seen[i], Appended(old(disk), RowBytes(row)))
    {
      if |RowBytes(row)| > MAX_ROW_BYTES {
        return false;
      }
      ghost var base := disk;
      ok := Write(RowBytes(row));
      forall d | PartlyAppended(base, RowBytes(row), d)
        ensures DeadOr(env, d, Appended(base, RowBytes(row)))
      {
        PartDead(env, base, row, d);
      }
    }

    /** The exclusive creation of a receipt, its writes and fsync. */
    method WriteReceipt(ghost env: Env, id: string, data: Bytes) returns (ok: bool)
      requires Open(env, disk).Some? && id in Open(env, disk).value.entries
      requires Open(env, disk).value.entries[id].terminal.None?
      modifies this
      ensures ok ==> disk == Received(old(disk), id, data)
      ensures failures == old(failures) + if ok then 0 else 1
      ensures Dead(env, disk) && old(seen) < seen
      ensures forall i :: |old(seen)| <= i < |seen| ==> Dead(env, seen[i])
    {
      ghost var base := disk;
      var written := 0;
      assert data[..0] == [];
      ReceivedDead(env, base, id, []);
      Effect(Received(disk, id, []));
      while written < |data|
        invariant 0 <= written <= |data|
        invariant disk == Received(base, id, data[..written]) && failures == old(failures)
        invariant old(seen) < seen && Dead(env, disk)
        invariant forall i :: |old(seen)| <= i < |seen| ==> Dead(env, seen[i])
      {
        var count: nat :| count <= |data| - written;
        if count == 0 {
          failures := failures + 1;
          return false;
        }
        written := written + count;
        ReceivedDead(env, base, id, data[..written]);
        Effect(Received(disk, id, data[..written]));
      }
      assert data[..|data|] == data;
      ok := Sync();
    }

    /** `begin`: stopped anywhere, it has changed nothing, killed the journal or completed. */
    method Begin(env: Env, a: Admission) returns (row: Option<Row>)
      modifies this
      ensures failures == old(failures) ==> AttemptCalls.Begin(env, old(disk), a) == Result(disk, row)
      ensures failures != old(failures) ==> row.None?
      ensures disk == old(disk) || DeadOr(env, disk, AttemptCalls.Begin(env, old(disk), a).disk)
      ensures seen == old(seen) <==> !BeginAllowed(env, old(disk), a)
      ensures old(seen) <= seen
      ensures forall i :: |old(seen)| <= i < |seen| ==>
                DeadOr(env, seen[i], AttemptCalls.Begin(env, old(disk), a).disk)
    {
      if !BeginAllowed(env, disk, a) {
        return None;
      }
      var next := BeginRowFor(Open(env, disk).value, a);
      MadeDead(env, disk, a.id);
      Effect(Made(disk, a.id));
      var ok := AppendRow(env, next);
      row := if ok then Some(next) else None;
    }

    /** `finish`, likewise. */
    method Finish(env: Env, id: string, receipt: Value) returns (row: Option<Row>)
      modifies this
      ensures failures == old(failures) ==> AttemptCalls.Finish(env, old(disk), id, receipt) == Result(disk, row)
      ensures failures != old(failures) ==> row.None?
      ensures disk == old(disk) || DeadOr(env, disk, AttemptCalls.Finish(env, old(disk), id, receipt).disk)
      ensures seen == old(seen) <==> !FinishAllowed(env, old(disk), id, receipt)
      ensures old(seen) <= seen
      ensures forall i :: |old(seen)| <= i < |seen| ==>
                DeadOr(env, seen[i], AttemptCalls.Finish(env, old(disk), id, receipt).disk)
    {
      if !FinishAllowed(env, disk, id, receipt) {
        return None;
      }
      var j := Open(env, disk).value;
      var data := Canonical(receipt);
      var ok := WriteReceipt(env, id, data);
      if !ok {
        return None;
      }
      var next := TerminalRowFor(env, j, id, data);
      ok := AppendRow(env, next);
      row := if ok then Some(next) else None;
    }

    /** The exclusive creation of an index and its first row. */
    method Found(ghost env: Env, row: Row) returns (ok: bool)
      requires disk.attempts == Some(Dir)
      modifies this
      ensures ok ==> |RowBytes(row)| <= MAX_ROW_BYTES && disk == Put(old(disk), Index, File(RowBytes(row)))
      ensures failures == old(failures) + if ok || |RowBytes(row)| > MAX_ROW_BYTES then 0 else 1
      ensures DeadOr(env, disk, Put(old(disk), Index, File(RowBytes(row))))
      ensures old(seen) <= seen
      ensures |RowBytes(row)| > MAX_ROW_BYTES ==>
                seen == old(seen) + [disk] && disk == Put(old(disk), Index, File([])) && Dead(env, disk)
      ensures forall i :: |old(seen)| <= i < |seen| ==>
                DeadOr(env, seen[i], Put(old(disk), Index, File(RowBytes(row))))
    {
      FoundEmpty(env, disk, RowBytes(row));
      Effect(Put(disk, Index, File([])));
      ok := AppendRow(env, row);
    }

    /** `create` may also stop with the namespace made and no index in it: the only state short of
        completion that a later `create` can go on from. */
    method Create(env: Env, identity: Identity) returns (row: Option<Row>)
      modifies this
      ensures failures == old(failures) ==> AttemptCalls.Create(env, old(disk), identity) == Result(disk, row)
      ensures failures != old(failures) ==> row.None?
      ensures disk == old(disk) || disk == old(disk).(attempts := Some(Dir))
              || DeadOr(env, disk, AttemptCalls.Create(env, old(disk), identity).disk)
      ensures old(seen) <= seen
      ensures forall i :: |old(seen)| <= i < |seen| ==>
                || seen[i] == old(disk).(attempts := Some(Dir))
                || DeadOr(env, seen[i], AttemptCalls.Create(env, old(disk), identity).disk)
    {
      var next := IdentityRowFor(identity);
      if !ValidIdentity(env, identity) || (disk.attempts.Some? && !disk.attempts.value.Dir?) {
        return None;
      }
      if Index in disk.slots {
        var j := Open(env, disk);
        return if j.Some? && j.value.identity == identity then Some(next) else None;
      }
      if disk.attempts.None? {
        Effect(disk.(attempts := Some(Dir)));
      }
      if disk.slots != map[] {
        return None;
      }
      var ok := Found(env, next);
      row := if ok then Some(next) else None;
    }
  }

  lemma AppendedNothing(base: Disk, data: Bytes)
    requires Indexed(base)
    ensures Appended(base, data[..0]) == base
  {
    assert IndexData(base) + data[..0] == IndexData(base);
  }

  lemma AppendedMore(base: Disk, data: Bytes, written: nat, count: nat)
    requires Indexed(base) && written + count <= |data|
    ensures Appended(Appended(base, data[..written]), data[written..written + count])
         == Appended(base, data[..written + count])
  {
    assert data[..written] + data[written..written + count] == data[..written + count];
    assert IndexData(base) + data[..written] + data[written..written + count]
        == IndexData(base) + data[..written + count];
  }

  /** A dead journal stays dead under every proper part of a row. */
  lemma PartDead(env: Env, base: Disk, row: Row, disk: Disk)
    requires Dead(env, base) && PartlyAppended(base, RowBytes(row), disk)
    ensures DeadOr(env, disk, Appended(base, RowBytes(row)))
  {
    var k :| 0 <= k <= |RowBytes(row)| && disk == Appended(base, RowBytes(row)[..k]);
    if k == |RowBytes(row)| {
      assert RowBytes(row)[..k] == RowBytes(row);
    } else {
      RowCutDead(env, base, row, k);
    }
  }

  /** An empty index is dead, and what is appended to it is the whole index. */
  lemma FoundEmpty(env: Env, disk: Disk, data: Bytes)
    requires disk.attempts == Some(Dir)
    ensures Dead(env, Put(disk, Index, File([])))
    ensures Appended(Put(disk, Index, File([])), data) == Put(disk, Index, File(data))
  {
    assert [] + data == data;
    var empty := Put(disk, Index, File([]));
    assert empty.slots[Index := File(data)] == disk.slots[Index := File(data)];
    forall tree
      ensures Open(env, empty.(tree := tree)).None?
    {
    }
  }
}
