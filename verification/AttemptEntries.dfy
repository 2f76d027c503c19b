/** The entries of a journal as its rows leave them. */
module AttemptEntries {
  import opened Basics
  import opened AttemptRows
  import opened AttemptIndex

  predicate Begun(rows: seq<Row>, id: string) {
    exists k :: 0 <= k < |rows| && rows[k].BeginRow? && rows[k].id == id
  }

  predicate Ended(rows: seq<Row>, id: string) {
    exists k :: 0 <= k < |rows| && rows[k].TerminalRow? && rows[k].id == id
  }

  /** A row that may follow: an admission of a new id, or the first end of an admitted one. */
  predicate Follows(rows: seq<Row>, row: Row) {
    && (row.BeginRow? ==> !Begun(rows, row.id))
    && (row.TerminalRow? ==> Begun(rows, row.id) && !Ended(rows, row.id))
  }

  function Entered(entries: Entries, row: Row): Entries {
    if row.BeginRow? then entries[row.id := Entry(row, None)]
    else if row.TerminalRow? && row.id in entries then entries[row.id := Entry(entries[row.id].begin, Some(row))]
    else entries
  }

  function EntriesOf(rows: seq<Row>): Entries {
    if rows == [] then map[] else Entered(EntriesOf(rows[..|rows| - 1]), rows[|rows| - 1])
  }

  /** The entries are the admissions, each with its end if it has one. */
  predicate Tracks(entries: Entries, rows: seq<Row>) {
    && (forall id :: id in entries ==> Begun(rows, id) && (entries[id].terminal.Some? ==> Ended(rows, id)))
    && (forall k :: 0 <= k < |rows| && rows[k].BeginRow? ==>
          rows[k].id in entries && entries[rows[k].id].begin == rows[k])
    && (forall k :: 0 <= k < |rows| && rows[k].TerminalRow? ==>
          rows[k].id in entries && entries[rows[k].id].terminal == Some(rows[k]))
  }

  lemma BegunMore(rows: seq<Row>, row: Row, id: string)
    ensures Begun(rows + [row], id) <==> Begun(rows, id) || (row.BeginRow? && row.id == id)
    ensures Ended(rows + [row], id) <==> Ended(rows, id) || (row.TerminalRow? && row.id == id)
  {
    var all := rows + [row];
    assert forall k :: 0 <= k < |rows| ==> all[k] == rows[k];
    assert all[|rows|] == row;
    if Begun(all, id) && !(row.BeginRow? && row.id == id) {
      var k :| 0 <= k < |all| && all[k].BeginRow? && all[k].id == id;
      assert rows[k].id == id;
    }
    if Ended(all, id) && !(row.TerminalRow? && row.id == id) {
      var k :| 0 <= k < |all| && all[k].TerminalRow? && all[k].id == id;
      assert rows[k].id == id;
    }
  }

  lemma EntriesMore(rows: seq<Row>, row: Row)
    ensures EntriesOf(rows + [row]) == Entered(EntriesOf(rows), row)
  {
    assert (rows + [row])[..|rows|] == rows;
  }

  lemma TracksMore(rows: seq<Row>, row: Row)
    requires Tracks(EntriesOf(rows), rows) && Follows(rows, row)
    ensures Tracks(EntriesOf(rows + [row]), rows + [row])
  {
    EntriesMore(rows, row);
    var all, entries := rows + [row], EntriesOf(rows + [row]);
    forall id | id in entries
      ensures Begun(all, id) && (entries[id].terminal.Some? ==> Ended(all, id))
    {
      BegunMore(rows, row, id);
    }
    forall k | 0 <= k < |all| && (all[k].BeginRow? || all[k].TerminalRow?)
      ensures all[k].id in entries
      ensures all[k].BeginRow? ==> entries[all[k].id].begin == all[k]
      ensures all[k].TerminalRow? ==> entries[all[k].id].terminal == Some(all[k])
    {
      if k < |rows| {
        assert rows[k] == all[k];
        EarlierRow(EntriesOf(rows), rows, row, k);
      } else {
        LastRow(EntriesOf(rows), rows, row);
      }
    }
  }

  lemma EarlierRow(entries: Entries, rows: seq<Row>, row: Row, k: nat)
    requires Tracks(entries, rows) && Follows(rows, row) && k < |rows| && (rows[k].BeginRow? || rows[k].TerminalRow?)
    ensures var x, next := rows[k], Entered(entries, row);
            && x.id in next && (x.BeginRow? ==> next[x.id].begin == x)
            && (x.TerminalRow? ==> next[x.id].terminal == Some(x))
  {
    assert rows[k].BeginRow? ==> Begun(rows, rows[k].id);
    assert rows[k].TerminalRow? ==> Ended(rows, rows[k].id);
  }

  lemma LastRow(entries: Entries, rows: seq<Row>, row: Row)
    requires Tracks(entries, rows) && Follows(rows, row) && (row.BeginRow? || row.TerminalRow?)
    ensures var next := Entered(entries, row);
            && row.id in next && (row.BeginRow? ==> next[row.id].begin == row)
            && (row.TerminalRow? ==> next[row.id].terminal == Some(row))
  {
    if row.TerminalRow? {
      var k :| 0 <= k < |rows| && rows[k].BeginRow? && rows[k].id == row.id;
    }
  }

  lemma TracksLast(rows: seq<Row>)
    requires rows != []
    requires var n := |rows| - 1; Tracks(EntriesOf(rows[..n]), rows[..n]) && Follows(rows[..n], rows[n])
    ensures Tracks(EntriesOf(rows), rows)
  {
    var n := |rows| - 1;
    TracksMore(rows[..n], rows[n]);
    assert rows == rows[..n] + [rows[n]];
  }
}
