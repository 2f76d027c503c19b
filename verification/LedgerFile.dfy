/** The ledger file as its writers and readers use it, and what reservation means for its bytes. */
module LedgerFile {
  import opened Basics
  import opened Text
  import opened GroupLedger
  import opened LedgerCodec
  import opened CustodyMachine
  import opened CustodySeal

  /** `_group_ledger_rows`: whole lines within the limit, each a row, in shape. */
  method ReadRows(data: Bytes) returns (r: Option<seq<Row>>, closed: bool)
    ensures r == ReadLedger(data)
    ensures r.Some? ==> (closed <==> IsClosed(r.value))
  {
    closed := false;
    if |data| > MAX_LEDGER_BYTES || (data != [] && data[|data| - 1] != '\n') {
      return None, closed;
    }
    var lines := Split(data, '\n');
    r := AllSome(DecodeLine, lines[..|lines| - 1]);
    if r.Some? {
      var accepted;
      accepted, closed := CheckRows(r.value);
      if !accepted {
        r := None;
      }
    }
  }

  class SharedLedger {
    var data: Bytes
    /** The whole rows in the file, and what is left of a row cut short. */
    ghost var rows: seq<Row>
    ghost var rest: Bytes

    ghost predicate Valid()
      reads this
    {
      data == Written(rows) + rest && '\n' !in rest
    }

    constructor ()
      ensures Valid() && data == [] && rows == [] && rest == []
    {
      data, rows, rest := [], [], [];
    }

    /** `_group_ledger_append`: one write, which takes as much as the system lets it, then fsync. */
    method Append(row: Row, taken: nat, synced: bool) returns (ok: bool)
      requires Valid() && rest == []
      modifies this
      ensures Valid()
      ensures ok <==> |RowBytes(row)| <= taken && synced
      ensures |RowBytes(row)| <= taken ==> rows == old(rows) + [row] && rest == []
      ensures taken < |RowBytes(row)| ==> rows == old(rows) && rest == RowBytes(row)[..taken]
    {
      var count := if taken < |RowBytes(row)| then taken else |RowBytes(row)|;
      AppendedBytes(data, rows, row, count);
      data := data + RowBytes(row)[..count];
      if count == |RowBytes(row)| {
        rows := rows + [row];
      } else {
        rest := RowBytes(row)[..count];
      }
      ok := count == |RowBytes(row)| && synced;
    }

    /** `seal_group_ledger`, under the lock. The rows it returns are the ones it closes over; what
        it leaves is readable exactly when the closure still fits. */
    method Seal(taken: nat, synced: bool) returns (sealed: Option<seq<Row>>)
      requires Valid()
      modifies this
      ensures Valid()
      ensures sealed.Some? <==>
                Readable(Width, old(rows), old(rest) != []) && !IsClosed(old(rows)) && 29 <= taken && synced
      ensures sealed.Some? ==> sealed.value == old(rows)
      ensures Readable(Width, old(rows), old(rest) != []) && !IsClosed(old(rows)) ==>
                if 29 <= taken then rows == old(rows) + [Closed] && rest == []
                else rows == old(rows) && rest < RowBytes(Closed) && |rest| == taken
      ensures sealed.Some? ==>
                (ReadLedger(data) == Some(rows) <==> Total(Width, old(rows)) + 29 <= MAX_LEDGER_BYTES)
      ensures !Readable(Width, old(rows), old(rest) != []) || IsClosed(old(rows)) ==>
                data == old(data) && rows == old(rows) && rest == old(rest)
    {
      ReadWritten(rows, rest);
      ClosureWidth();
      var found, closed := ReadRows(data);
      if found.None? || closed {
        return None;
      }
      var ok := Append(Closed, taken, synced);
      if !ok {
        return None;
      }
      SealedReads(old(rows));
      assert data == Written(rows);
      sealed := found;
    }
  }

  lemma AppendedBytes(data: Bytes, rows: seq<Row>, row: Row, count: nat)
    requires data == Written(rows) + [] && count <= |RowBytes(row)|
    ensures var bytes := RowBytes(row)[..count];
            && (count == |RowBytes(row)| ==> data + bytes == Written(rows + [row]) + [])
            && (count < |RowBytes(row)| ==>
                  data + bytes == Written(rows) + bytes && '\n' !in bytes && bytes < RowBytes(row))
  {
    WrittenMore(rows, row);
    PieceAppended(data, Written(rows), RowBytes(row), count);
    if count < |RowBytes(row)| {
      TornRow(row, count);
    }
  }

  lemma PieceAppended(data: Bytes, written: Bytes, bytes: Bytes, count: nat)
    requires data == written + [] && count <= |bytes|
    ensures data + bytes[..count] == written + bytes[..count]
    ensures count == |bytes| ==> data + bytes[..count] == written + bytes + []
    ensures count < |bytes| ==> bytes[..count] < bytes
  {
  }

  lemma SealedReads(rows: seq<Row>)
    requires Readable(Width, rows, false) && !IsClosed(rows)
    ensures ReadLedger(Written(rows + [Closed])) == Some(rows + [Closed])
            <==> Total(Width, rows) + 29 <= MAX_LEDGER_BYTES
  {
    ClosureWidth();
    ReadWritten(rows + [Closed], []);
    assert Written(rows + [Closed]) + [] == Written(rows + [Closed]);
    ShapeMore(rows, Closed);
    TotalMore(Width, rows, Closed);
  }

  lemma WordsFit(e: Entry)
    requires Words(e)
    ensures Fits(Width, e)
  {
    WordWidth(e);
    ClosureWidth();
  }

  /** Admissions as `OwnedProcesses.spawn` makes them: reserved, of machine width, of new groups. */
  ghost predicate OwnedAdmissions(events: seq<Event>) {
    forall i :: 0 <= i < |events| && Run(Width, events[..i]).Some? ==>
      && (events[i].Lock? ==> events[i].reserve)
      && (events[i].Popen? ==>
          Words(events[i].entry) && !Names(Run(Width, events[..i]).value.rows, events[i].entry.group))
  }

  /** In every interleaving of such admissions, failures, kills and the seal, the bytes on disk are
      read back as exactly the rows written, unless a write was cut short. */
  lemma OwnedLedgerReadable(events: seq<Event>)
    requires Run(Width, events).Some? && OwnedAdmissions(events)
    ensures var s := Run(Width, events).value;
            && Total(Width, s.rows) + (if IsClosed(s.rows) then 0 else 29) <= MAX_LEDGER_BYTES
            && (!s.torn ==> ReadLedger(Written(s.rows)) == Some(s.rows))
  {
    ClosureWidth();
    forall i | 0 <= i < |events| && Run(Width, events[..i]).Some?
      ensures Reserved(Width, Run(Width, events[..i]).value, events[i])
    {
      if events[i].Popen? {
        WordsFit(events[i].entry);
      }
    }
    ReservedReadable(Width, events);
    var rows := Run(Width, events).value.rows;
    ReadWritten(rows, []);
    assert Written(rows) + [] == Written(rows);
  }

  /** Without the reservation a run of admissions, all of new groups and with nothing torn, leaves
      bytes that no reader accepts. */
  lemma UnreservedUnreadable() returns (m: nat)
    ensures Run(Width, Admissions(m)) == Some(Filled(m))
    ensures Shape(Filled(m).rows) && ReadLedger(Written(Filled(m).rows)).None?
  {
    m := UnreservedOverflows(Width, 0);
    var rows := Filled(m).rows;
    ReadWritten(rows, []);
    assert Written(rows) + [] == Written(rows);
  }
}
