/** The journal's law, told of its rows at once: replay accepts exactly the files that keep it. */
module AttemptLaw {
  import opened Basics
  import opened Json
  import opened Text
  import opened AttemptRows
  import opened AttemptIndex
  import opened AttemptReplay
  import opened AttemptRuns
  import opened AttemptReceipts
  import opened AttemptEntries
  import AttemptTamper

  // ---------------------------------------------------------------- the law

  predicate Letter(c: char) {
    'A' <= c <= 'Z' || 'a' <= c <= 'z' || '0' <= c <= '9'
  }

  /** A letter or digit, then up to 127 letters, digits, dots, underscores and dashes. */
  predicate IdText(s: string) {
    && 1 <= |s| <= 128 && Letter(s[0])
    && forall i :: 0 <= i < |s| ==> Letter(s[i]) || s[i] == '.' || s[i] == '_' || s[i] == '-'
  }

  /** One host and one of the release targets. */
  predicate Founds(env: Env, row: Row) {
    row.IdentityRow? && IdText(row.identity.journal) && IdText(row.identity.host) && row.identity.target in env.targets
  }

  /** What an admission must be by itself. */
  predicate Admits(env: Env, identity: Identity, row: Row) {
    && row.BeginRow? && IdText(row.id) && env.time(row.started).Some?
    && row.kind in env.kinds && identity.target in env.kinds[row.kind].targets
    && Clean(Split(row.output, '/')) && Split(row.output, '/')[0] != "attempts"
  }

  /** Neither output lies inside the other. */
  predicate OutputsApart(a: Row, b: Row)
    requires a.BeginRow? && b.BeginRow?
  {
    !(Split(a.output, '/') <= Split(b.output, '/')) && !(Split(b.output, '/') <= Split(a.output, '/'))
  }

  /** The receipt in the attempt's own directory is the one the row names, and the tree bears it out. */
  ghost predicate Concludes(env: Env, disk: Disk, identity: Identity, begin: Row, row: Row, data: Bytes, r: Report)
    requires begin.BeginRow? && row.TerminalRow?
  {
    && Attempt(row.id) in disk.slots && disk.slots[Attempt(row.id)] == Dir
    && Receipt(row.id) in disk.slots && disk.slots[Receipt(row.id)] == File(data)
    && row.receipt == Ref("attempts/" + row.id + "/attempt.json", env.hash(data), |data|)
    && Loads(env, data, ReceiptValue(env, begin, r)) && BorneOut(env, disk.tree, identity, begin, r)
  }

  ghost predicate Concluded(env: Env, disk: Disk, identity: Identity, begin: Row, row: Row)
    requires begin.BeginRow? && row.TerminalRow?
  {
    exists data, r :: Concludes(env, disk, identity, begin, row, data, r)
  }

  /** An admission of a new id, its output apart from all others. */
  predicate Begins(env: Env, rows: seq<Row>, row: Row)
    requires rows != [] && row.BeginRow?
  {
    && rows[0].IdentityRow? && Admits(env, rows[0].identity, row) && !Begun(rows, row.id)
    && forall k :: 0 <= k < |rows| && rows[k].BeginRow? ==> OutputsApart(row, rows[k])
  }

  /** The first end of an earlier admission, with its receipt. */
  ghost predicate Ends(env: Env, disk: Disk, rows: seq<Row>, row: Row)
    requires rows != [] && row.TerminalRow?
  {
    && rows[0].IdentityRow? && !Ended(rows, row.id)
    && exists k ::
         && 0 <= k < |rows| && rows[k].BeginRow? && rows[k].id == row.id
         && Concluded(env, disk, rows[0].identity, rows[k], row)
  }

  /** Numbered, within the row limit, and chained to the row before. */
  predicate Chained(env: Env, rows: seq<Row>, row: Row) {
    && row.sequence == |rows| + 1 && |RowBytes(row)| <= 65536
    && row.previous == if rows == [] then Zeros(64) else env.hash(RowBytes(rows[|rows| - 1]))
  }

  /** A row after the rows before it: the identity first and only first, then admissions and ends. */
  ghost predicate Lawful(env: Env, disk: Disk, rows: seq<Row>, row: Row) {
    && Chained(env, rows, row)
    && (if rows == [] then Founds(env, row)
        else match row
             case IdentityRow(_, _, _) => false
             case BeginRow(_, _, _, _, _, _) => Begins(env, rows, row)
             case TerminalRow(_, _, _, _) => Ends(env, disk, rows, row))
  }

  ghost predicate AllLawful(env: Env, disk: Disk, rows: seq<Row>) {
    forall i :: 0 <= i < |rows| ==> Lawful(env, disk, rows[..i], rows[i])
  }

  function Spelled(rows: seq<Row>): Bytes {
    if rows == [] then [] else Spelled(rows[..|rows| - 1]) + RowBytes(rows[|rows| - 1])
  }

  /** A directory for each admission, a receipt for each end, and nothing else of either. */
  ghost predicate Placed(slots: Slots, rows: seq<Row>) {
    && (forall name :: Attempt(name) in slots <==> Begun(rows, name))
    && (forall name :: Attempt(name) in slots ==> slots[Attempt(name)] == Dir)
    && (forall name :: Begun(rows, name) ==> (Receipt(name) in slots <==> Ended(rows, name)))
    && (forall name :: Begun(rows, name) && Receipt(name) in slots ==> slots[Receipt(name)].File?)
    && (forall name, leaf :: Begun(rows, name) ==> Stray(name, leaf) !in slots)
  }

  /** The namespace holds the index, which spells the rows, and what they place. */
  ghost predicate Housed(disk: Disk, rows: seq<Row>) {
    && disk.attempts == Some(Dir) && Index in disk.slots && disk.slots[Index] == File(Spelled(rows))
    && Placed(disk.slots, rows)
  }

  // ------------------------------------------------------------- the state

  function StateOf(env: Env, rows: seq<Row>): Progress {
    Progress(if rows != [] && rows[0].IdentityRow? then Some(rows[0].identity) else None, EntriesOf(rows), |rows|,
             if rows == [] then Zeros(64) else env.hash(RowBytes(rows[|rows| - 1])))
  }

  lemma LawfulFollows(env: Env, disk: Disk, rows: seq<Row>, row: Row)
    requires Lawful(env, disk, rows, row)
    ensures Follows(rows, row)
  {
  }

  lemma LawfulLast(env: Env, disk: Disk, rows: seq<Row>)
    requires AllLawful(env, disk, rows) && rows != []
    ensures var n := |rows| - 1;
            && AllLawful(env, disk, rows[..n]) && Lawful(env, disk, rows[..n], rows[n]) && Follows(rows[..n], rows[n])
  {
    var n := |rows| - 1;
    LawfulPrefix(env, disk, rows, n);
    LawfulFollows(env, disk, rows[..n], rows[n]);
  }

  lemma {:induction false} LawfulTracks(env: Env, disk: Disk, rows: seq<Row>)
    requires AllLawful(env, disk, rows)
    ensures Tracks(EntriesOf(rows), rows)
  {
    if rows != [] {
      LawfulLast(env, disk, rows);
      LawfulTracks(env, disk, rows[..|rows| - 1]);
      TracksLast(rows);
    }
  }

  lemma LawfulPrefix(env: Env, disk: Disk, rows: seq<Row>, n: nat)
    requires AllLawful(env, disk, rows) && n <= |rows|
    ensures AllLawful(env, disk, rows[..n])
  {
    forall i | 0 <= i < n
      ensures Lawful(env, disk, rows[..n][..i], rows[..n][i])
    {
      assert rows[..n][..i] == rows[..i];
    }
  }

  lemma LawfulMore(env: Env, disk: Disk, rows: seq<Row>, row: Row)
    ensures AllLawful(env, disk, rows + [row]) <==> AllLawful(env, disk, rows) && Lawful(env, disk, rows, row)
  {
    var all := rows + [row];
    assert all[..|rows|] == rows;
    if AllLawful(env, disk, all) {
      LawfulPrefix(env, disk, all, |rows|);
      assert Lawful(env, disk, all[..|rows|], all[|rows|]);
    }
    if AllLawful(env, disk, rows) && Lawful(env, disk, rows, row) {
      forall i | 0 <= i < |all|
        ensures Lawful(env, disk, all[..i], all[i])
      {
        if i < |rows| {
          assert all[..i] == rows[..i];
        }
      }
    }
  }

  // --------------------------------------------------------------- one row

  lemma NameText(id: string)
    ensures Name(id) <==> IdText(id)
  {
  }

  lemma FoundsExactly(env: Env, disk: Disk, row: Row)
    requires row.IdentityRow?
    ensures NextEntries(env, disk, START, row) == if Founds(env, row) then Some(map[]) else None
  {
    NameText(row.identity.journal);
    NameText(row.identity.host);
  }

  lemma CleanText(text: string)
    ensures Relative(text).Some? <==> Clean(Split(text, '/'))
  {
  }

  lemma AdmissionExactly(env: Env, identity: Identity, entries: Entries, rows: seq<Row>, row: Row)
    requires Tracks(entries, rows) && row.BeginRow?
    ensures Name(row.id) && Admissible(env, identity, entries, row) <==>
              && Admits(env, identity, row) && !Begun(rows, row.id)
              && forall k :: 0 <= k < |rows| && rows[k].BeginRow? ==> OutputsApart(row, rows[k])
  {
    NameText(row.id);
    CleanText(row.output);
    if forall k :: 0 <= k < |rows| && rows[k].BeginRow? ==> OutputsApart(row, rows[k]) {
      forall id | id in entries && entries[id].begin.BeginRow?
        ensures Apart(OutputParts(row), OutputParts(entries[id].begin))
      {
        var k :| 0 <= k < |rows| && rows[k].BeginRow? && rows[k].id == id;
        assert entries[id].begin == rows[k];
      }
    }
    if Name(row.id) && Admissible(env, identity, entries, row) {
      forall k | 0 <= k < |rows| && rows[k].BeginRow?
        ensures OutputsApart(row, rows[k])
      {
        assert entries[rows[k].id].begin == rows[k];
      }
    }
    BegunExactly(entries, rows, row.id);
  }

  lemma BegunExactly(entries: Entries, rows: seq<Row>, id: string)
    requires Tracks(entries, rows)
    ensures id in entries <==> Begun(rows, id)
    ensures id in entries ==> (entries[id].terminal.Some? <==> Ended(rows, id))
  {
    if Ended(rows, id) {
      var k :| 0 <= k < |rows| && rows[k].TerminalRow? && rows[k].id == id;
    }
  }

  /** The receipt a terminal row names, read and judged, is one the law describes. */
  lemma ConclusionExactly(env: Env, disk: Disk, identity: Identity, begin: Row, row: Row)
    requires begin.BeginRow? && row.TerminalRow?
    ensures (&& row.receipt.path == ReceiptPath(row.id) && ReceiptRef(env, disk.slots, row.id, row.receipt).Some?
             && ReceiptHolds(env, disk.tree, identity, begin, ReceiptRef(env, disk.slots, row.id, row.receipt).value))
            <==> Concluded(env, disk, identity, begin, row)
  {
    if (&& row.receipt.path == ReceiptPath(row.id) && ReceiptRef(env, disk.slots, row.id, row.receipt).Some?
        && ReceiptHolds(env, disk.tree, identity, begin, ReceiptRef(env, disk.slots, row.id, row.receipt).value)) {
      var receipt := ReceiptRef(env, disk.slots, row.id, row.receipt).value;
      var r := HoldsBorneOut(env, disk.tree, identity, begin, receipt);
      var data := disk.slots[Receipt(row.id)].data;
      assert Concludes(env, disk, identity, begin, row, data, r);
    }
    if data, r :| Concludes(env, disk, identity, begin, row, data, r) {
      BorneOutHolds(env, disk.tree, identity, begin, r);
    }
  }

  lemma BeginsExactly(env: Env, disk: Disk, rows: seq<Row>, row: Row)
    requires rows != [] && row.BeginRow? && rows[0].IdentityRow? && Tracks(EntriesOf(rows), rows)
    ensures NextEntries(env, disk, StateOf(env, rows), row)
            == if Begins(env, rows, row) then Some(EntriesOf(rows + [row])) else None
  {
    AdmissionExactly(env, rows[0].identity, EntriesOf(rows), rows, row);
    EntriesMore(rows, row);
  }

  lemma EndsExactly(env: Env, disk: Disk, rows: seq<Row>, row: Row)
    requires rows != [] && row.TerminalRow? && rows[0].IdentityRow? && Tracks(EntriesOf(rows), rows)
    requires forall k :: 0 <= k < |rows| && rows[k].BeginRow? ==> IdText(rows[k].id)
    ensures NextEntries(env, disk, StateOf(env, rows), row)
            == if Ends(env, disk, rows, row) then Some(EntriesOf(rows + [row])) else None
  {
    var entries := EntriesOf(rows);
    BegunExactly(entries, rows, row.id);
    EntriesMore(rows, row);
    if Begun(rows, row.id) {
      var k :| 0 <= k < |rows| && rows[k].BeginRow? && rows[k].id == row.id;
      NameText(row.id);
      EndsAt(env, disk, rows, row, k);
      TerminalExactly(env, disk, StateOf(env, rows), rows[0].identity, rows[k], row);
    } else {
      NeverBegun(env, disk, rows, row);
    }
  }

  lemma NeverBegun(env: Env, disk: Disk, rows: seq<Row>, row: Row)
    requires rows != [] && row.TerminalRow? && !Begun(rows, row.id)
    ensures !Ends(env, disk, rows, row)
  {
  }

  lemma TerminalExactly(env: Env, disk: Disk, st: Progress, identity: Identity, begin: Row, row: Row)
    requires begin.BeginRow? && row.TerminalRow? && st.identity == Some(identity) && Name(row.id)
    requires row.id in st.entries && st.entries[row.id].begin == begin
    ensures NextEntries(env, disk, st, row) ==
              if st.entries[row.id].terminal.None? && Concluded(env, disk, identity, begin, row)
              then Some(Entered(st.entries, row)) else None
  {
    ConclusionExactly(env, disk, identity, begin, row);
  }

  lemma EndsAt(env: Env, disk: Disk, rows: seq<Row>, row: Row, k: nat)
    requires rows != [] && row.TerminalRow? && rows[0].IdentityRow? && Tracks(EntriesOf(rows), rows)
    requires k < |rows| && rows[k].BeginRow? && rows[k].id == row.id
    ensures Ends(env, disk, rows, row) <==>
              !Ended(rows, row.id) && Concluded(env, disk, rows[0].identity, rows[k], row)
  {
    var entries := EntriesOf(rows);
    forall i | 0 <= i < |rows| && rows[i].BeginRow? && rows[i].id == row.id
      ensures rows[i] == rows[k]
    {
      assert entries[rows[i].id].begin == rows[i];
    }
  }

  lemma {:induction false} LawfulIds(env: Env, disk: Disk, rows: seq<Row>)
    requires AllLawful(env, disk, rows)
    ensures rows != [] ==> rows[0].IdentityRow?
    ensures forall k :: 0 <= k < |rows| && rows[k].BeginRow? ==> IdText(rows[k].id)
  {
    forall k | 0 <= k < |rows|
      ensures k == 0 ==> rows[k].IdentityRow?
      ensures rows[k].BeginRow? ==> IdText(rows[k].id)
    {
      assert Lawful(env, disk, rows[..k], rows[k]);
    }
  }

  lemma UnchainedRejected(env: Env, disk: Disk, rows: seq<Row>, row: Row, digest: string)
    requires |RowBytes(row)| <= MAX_ROW_BYTES
    ensures ApplyRow(env, disk, StateOf(env, rows), row, digest).Some? ==> Chained(env, rows, row)
  {
  }

  /** One line after lawful rows is applied exactly when it is a lawful row's. */
  lemma ApplyExactly(env: Env, disk: Disk, rows: seq<Row>, row: Row)
    requires AllLawful(env, disk, rows) && ValidRow(row) && |RowBytes(row)| <= MAX_ROW_BYTES
    ensures Apply(env, disk, StateOf(env, rows), RowBytes(row))
            == if Lawful(env, disk, rows, row) then Some(StateOf(env, rows + [row])) else None
  {
    LawfulIds(env, disk, rows);
    LawfulTracks(env, disk, rows);
    ApplyEncoded(env, disk, StateOf(env, rows), row);
    UnchainedRejected(env, disk, rows, row, env.hash(RowBytes(row)));
    if Chained(env, rows, row) {
      NextExactly(env, disk, rows, row);
      ApplyNext(env, disk, rows, row, Lawful(env, disk, rows, row));
    }
  }

  lemma ApplyNext(env: Env, disk: Disk, rows: seq<Row>, row: Row, lawful: bool)
    requires Chained(env, rows, row) && (rows != [] ==> rows[0].IdentityRow?)
    requires NextEntries(env, disk, StateOf(env, rows), row) == if lawful then Some(EntriesOf(rows + [row])) else None
    requires lawful ==> (rows == [] <==> row.IdentityRow?)
    ensures ApplyRow(env, disk, StateOf(env, rows), row, env.hash(RowBytes(row)))
            == if lawful then Some(StateOf(env, rows + [row])) else None
  {
    var all := rows + [row];
    assert |all| == |rows| + 1 && all[|rows|] == row && (rows != [] ==> all[0] == rows[0]);
    StateMore(env, rows, row, all);
  }

  lemma StateMore(env: Env, rows: seq<Row>, row: Row, all: seq<Row>)
    requires |all| == |rows| + 1 && all[|rows|] == row
    requires rows != [] ==> rows[0].IdentityRow? && all[0] == rows[0]
    ensures var t := StateOf(env, all);
            && t.entries == EntriesOf(all) && t.sequence == |rows| + 1 && t.previous == env.hash(RowBytes(row))
            && (rows != [] ==> t.identity == StateOf(env, rows).identity)
            && (rows == [] && row.IdentityRow? ==> t.identity == Some(row.identity))
  {
  }

  lemma FirstExactly(env: Env, disk: Disk, row: Row)
    requires Chained(env, [], row)
    ensures NextEntries(env, disk, START, row) == if Founds(env, row) then Some(EntriesOf([row])) else None
  {
    if row.IdentityRow? {
      EntriesMore([], row);
      assert [] + [row] == [row];
      FoundsExactly(env, disk, row);
    }
  }

  lemma NextFirst(env: Env, disk: Disk, rows: seq<Row>, row: Row)
    requires rows == [] && Chained(env, rows, row)
    ensures NextEntries(env, disk, StateOf(env, rows), row)
            == if Founds(env, row) then Some(EntriesOf(rows + [row])) else None
  {
    FirstExactly(env, disk, row);
    assert rows + [row] == [row];
  }

  lemma NextExactly(env: Env, disk: Disk, rows: seq<Row>, row: Row)
    requires rows != [] ==> rows[0].IdentityRow?
    requires Tracks(EntriesOf(rows), rows)
    requires forall k :: 0 <= k < |rows| && rows[k].BeginRow? ==> IdText(rows[k].id)
    requires Chained(env, rows, row)
    ensures NextEntries(env, disk, StateOf(env, rows), row)
            == if Lawful(env, disk, rows, row) then Some(EntriesOf(rows + [row])) else None
  {
    if rows == [] {
      NextFirst(env, disk, rows, row);
    } else if row.BeginRow? {
      BeginsExactly(env, disk, rows, row);
    } else if row.TerminalRow? {
      EndsExactly(env, disk, rows, row);
    } else {
      SecondIdentity(env, disk, rows, row);
    }
  }

  lemma SecondIdentity(env: Env, disk: Disk, rows: seq<Row>, row: Row)
    requires rows != [] && row.IdentityRow?
    ensures NextEntries(env, disk, StateOf(env, rows), row) == None
  {
  }

  // --------------------------------------------------------------- whole files

  lemma SpelledMore(rows: seq<Row>, row: Row)
    ensures Spelled(rows + [row]) == Spelled(rows) + RowBytes(row)
  {
    assert (rows + [row])[..|rows|] == rows;
  }

  lemma LawfulValid(env: Env, disk: Disk, rows: seq<Row>, row: Row)
    requires Lawful(env, disk, rows, row)
    ensures ValidRow(row) && |RowBytes(row)| <= MAX_ROW_BYTES
  {
  }

  lemma LastApart(rows: seq<Row>)
    requires rows != []
    ensures rows == rows[..|rows| - 1] + [rows[|rows| - 1]]
  {
  }

  /** Lawful rows replay to their state. */
  lemma {:induction false} LawfulReplays(env: Env, disk: Disk, rows: seq<Row>)
    requires AllLawful(env, disk, rows)
    ensures ReplayData(env, disk, Spelled(rows), START) == Some(StateOf(env, rows))
  {
    if rows != [] {
      var n := |rows| - 1;
      LawfulLast(env, disk, rows);
      LawfulReplays(env, disk, rows[..n]);
      ReplaysMore(env, disk, rows[..n], rows[n]);
      LastApart(rows);
    }
  }

  lemma ReplaysMore(env: Env, disk: Disk, rows: seq<Row>, row: Row)
    requires AllLawful(env, disk, rows) && Lawful(env, disk, rows, row)
    requires ReplayData(env, disk, Spelled(rows), START) == Some(StateOf(env, rows))
    ensures ReplayData(env, disk, Spelled(rows + [row]), START) == Some(StateOf(env, rows + [row]))
  {
    LawfulValid(env, disk, rows, row);
    DecodeRowBytes(row);
    ReplayAppend(env, disk, Spelled(rows), RowBytes(row), START);
    ApplyExactly(env, disk, rows, row);
    SpelledMore(rows, row);
  }

  /** And whatever is replayed is spelled by lawful rows. */
  lemma {:induction false} ReplayedLawful(env: Env, disk: Disk, data: Bytes) returns (rows: seq<Row>)
    requires ReplayData(env, disk, data, START).Some?
    ensures data == Spelled(rows) && AllLawful(env, disk, rows)
    ensures ReplayData(env, disk, data, START) == Some(StateOf(env, rows))
    decreases |data|
  {
    if data == [] {
      rows := [];
    } else {
      var init, line := AttemptTamper.LastRow(env, disk, data, START);
      var before := ReplayedLawful(env, disk, init);
      var row := DecodeRow(line).value;
      DecodeRowExact(line, row);
      ApplyExactly(env, disk, before, row);
      LawfulMore(env, disk, before, row);
      SpelledMore(before, row);
      rows := before + [row];
    }
  }

  /** Replay accepts exactly the files that lawful rows spell, and ends in the state those rows leave. */
  lemma ReplayExactly(env: Env, disk: Disk, data: Bytes, st: Progress)
    ensures ReplayData(env, disk, data, START) == Some(st) <==>
              exists rows: seq<Row> ::
                data == Spelled(rows) && AllLawful(env, disk, rows) && st == StateOf(env, rows)
  {
    if ReplayData(env, disk, data, START) == Some(st) {
      var rows := ReplayedLawful(env, disk, data);
    }
    if rows: seq<Row> :| data == Spelled(rows) && AllLawful(env, disk, rows) && st == StateOf(env, rows) {
      LawfulReplays(env, disk, rows);
    }
  }

  lemma CensusExactly(disk: Disk, rows: seq<Row>, entries: Entries)
    requires Tracks(entries, rows) && Index in disk.slots && disk.slots[Index].File?
    requires forall k :: 0 <= k < |rows| && rows[k].BeginRow? ==> IdText(rows[k].id)
    ensures Census(disk.slots, entries) <==> Placed(disk.slots, rows)
  {
    if Placed(disk.slots, rows) {
      forall slot | slot in disk.slots
        ensures SlotHolds(slot, disk.slots[slot], entries)
      {
        SlotExactly(disk.slots, rows, entries, slot);
      }
      forall id | id in entries
        ensures Attempt(id) in disk.slots && (entries[id].terminal.Some? ==> Receipt(id) in disk.slots)
      {
        BegunExactly(entries, rows, id);
      }
    }
    if Census(disk.slots, entries) {
      CensusPlaced(disk.slots, rows, entries);
    }
  }

  lemma SlotExactly(slots: Slots, rows: seq<Row>, entries: Entries, slot: Slot)
    requires Tracks(entries, rows) && Placed(slots, rows) && slot in slots && (slot.Index? ==> slots[slot].File?)
    requires forall k :: 0 <= k < |rows| && rows[k].BeginRow? ==> IdText(rows[k].id)
    ensures SlotHolds(slot, slots[slot], entries)
  {
    if !slot.Index? {
      BegunExactly(entries, rows, slot.name);
      if Begun(rows, slot.name) {
        var k :| 0 <= k < |rows| && rows[k].BeginRow? && rows[k].id == slot.name;
        NameText(slot.name);
      }
    }
  }

  lemma NoStray(slots: Slots, entries: Entries, name: string, leaf: string)
    requires Census(slots, entries) && name in entries
    ensures Stray(name, leaf) !in slots
  {
  }

  lemma CensusPlaced(slots: Slots, rows: seq<Row>, entries: Entries)
    requires Tracks(entries, rows) && Census(slots, entries)
    ensures Placed(slots, rows)
  {
    forall name
      ensures name in entries <==> Begun(rows, name)
      ensures name in entries ==> (entries[name].terminal.Some? <==> Ended(rows, name))
    {
      BegunExactly(entries, rows, name);
    }
    forall name, leaf | Begun(rows, name)
      ensures Stray(name, leaf) !in slots
    {
      NoStray(slots, entries, name, leaf);
    }
    forall name | Attempt(name) in slots
      ensures Begun(rows, name) && slots[Attempt(name)] == Dir
    {
      assert SlotHolds(Attempt(name), slots[Attempt(name)], entries);
    }
    forall name | Begun(rows, name) && Receipt(name) in slots
      ensures Ended(rows, name) && slots[Receipt(name)].File?
    {
      assert SlotHolds(Receipt(name), slots[Receipt(name)], entries);
    }
  }

  function JournalOf(env: Env, rows: seq<Row>): Journal
    requires rows != [] && rows[0].IdentityRow?
  {
    Journal(rows[0].identity, EntriesOf(rows), |rows|, env.hash(RowBytes(rows[|rows| - 1])))
  }

  /** A custody root that keeps the law with these rows. */
  ghost predicate KeepsLaw(env: Env, disk: Disk, rows: seq<Row>) {
    rows != [] && AllLawful(env, disk, rows) && Housed(disk, rows)
  }

  lemma LawOpens(env: Env, disk: Disk, rows: seq<Row>)
    requires KeepsLaw(env, disk, rows)
    ensures rows[0].IdentityRow? && Open(env, disk) == Some(JournalOf(env, rows))
  {
    LawfulReplays(env, disk, rows);
    LawfulTracks(env, disk, rows);
    LawfulIds(env, disk, rows);
    CensusExactly(disk, rows, EntriesOf(rows));
  }

  lemma OpenLaw(env: Env, disk: Disk) returns (rows: seq<Row>)
    requires Open(env, disk).Some?
    ensures KeepsLaw(env, disk, rows)
  {
    rows := ReplayedLawful(env, disk, IndexData(disk));
    LawfulTracks(env, disk, rows);
    LawfulIds(env, disk, rows);
    CensusExactly(disk, rows, EntriesOf(rows));
  }

  /** Replay accepts a custody root exactly when some rows keep the law there, and the journal it then
      rebuilds is theirs: their identity, every admission with its end, their number and last digest. */
  lemma OpenExactly(env: Env, disk: Disk, j: Journal)
    ensures Open(env, disk) == Some(j) <==>
              exists rows: seq<Row> :: KeepsLaw(env, disk, rows) && rows[0].IdentityRow? && j == JournalOf(env, rows)
    ensures forall rows: seq<Row> :: KeepsLaw(env, disk, rows) ==> Tracks(EntriesOf(rows), rows)
  {
    if Open(env, disk) == Some(j) {
      var rows := OpenLaw(env, disk);
      LawOpens(env, disk, rows);
    }
    forall rows: seq<Row> | KeepsLaw(env, disk, rows)
      ensures Tracks(EntriesOf(rows), rows) && rows[0].IdentityRow? && Open(env, disk) == Some(JournalOf(env, rows))
    {
      LawOpens(env, disk, rows);
      LawfulTracks(env, disk, rows);
    }
  }
}
