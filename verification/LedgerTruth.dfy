/** The bytes of the ledger file in every run of the custody machine: what any reader finds there. */
module LedgerTruth {
  import opened Basics
  import opened Json
  import opened GroupLedger
  import opened LedgerCodec
  import opened CustodyMachine

  /** The row that an event writes, wholly or not. */
  function RowWritten(s: State, e: Event): (r: Option<Row>)
    ensures r.Some? ==> e.Append? || e.Kill? || e.SealAppend?
  {
    match e
    case Append(id, _, _) => if PhaseOf(s, id).Spawned? then Some(Group(PhaseOf(s, id).entry)) else None
    case Kill(id, _) => if PhaseOf(s, id).Spawned? then Some(Group(PhaseOf(s, id).entry)) else None
    case SealAppend(_, _) => if s.sealer.Sealing? then Some(Closed) else None
    case _ => None
  }

  /** What one write leaves of a row: for a part of it any bytes but all of them. */
  function Piece(row: Row, wrote: Wrote, taken: nat): Bytes {
    var bytes := RowBytes(row);
    match wrote
    case Nothing => []
    case Whole => bytes
    case Part => if |bytes| < 2 then [] else bytes[..if taken + 1 < |bytes| then taken + 1 else |bytes| - 1]
  }

  /** The file after some events, with as much taken by each partial write as `taken` says. */
  function FileAfter(events: seq<Event>, taken: nat -> nat): Bytes {
    if events == [] then []
    else
      var n := |events| - 1;
      match Run(Width, events[..n])
      case None => FileAfter(events[..n], taken)
      case Some(s) => FileAfter(events[..n], taken) + Added(s, events[n], taken(n))
  }

  function Added(s: State, e: Event, taken: nat): Bytes {
    if RowWritten(s, e).Some? then Piece(RowWritten(s, e).value, e.wrote, taken) else []
  }

  lemma PieceOf(row: Row, wrote: Wrote, taken: nat)
    ensures wrote == Part ==> Piece(row, wrote, taken) != [] && '\n' !in Piece(row, wrote, taken)
  {
    RowLong(row);
    if wrote == Part {
      TornRow(row, |Piece(row, wrote, taken)|);
    }
  }

  lemma RowLong(row: Row)
    ensures |RowBytes(row)| >= 2
  {
    var v := RowValue(row);
    assert Dumps(v) == "{" + DumpFields(v.fields);
  }

  /** A write happens only where the file is whole; any other event leaves rows and tear alone. */
  lemma WriteOnly(s: State, e: Event, t: State)
    requires Inv(Width, s) && Step(Width, s, e) == Some(t)
    ensures RowWritten(s, e).Some? ==>
              && !s.torn && t.rows == Write(s, RowWritten(s, e).value, e.wrote).rows
              && t.torn == Write(s, RowWritten(s, e).value, e.wrote).torn
    ensures RowWritten(s, e).None? ==> t.rows == s.rows && t.torn == s.torn
  {
    if e.Append? || e.Kill? {
      assert PhaseHolds(Width, s, e.id);
    }
  }

  lemma StepTruth(s: State, e: Event, t: State, data: Bytes, rest: Bytes, taken: nat) returns (left: Bytes)
    requires Inv(Width, s) && Step(Width, s, e) == Some(t)
    requires data == Written(s.rows) + rest && '\n' !in rest && (s.torn <==> rest != [])
    ensures data + Added(s, e, taken) == Written(t.rows) + left && '\n' !in left && (t.torn <==> left != [])
  {
    WriteOnly(s, e, t);
    left := rest;
    if RowWritten(s, e).Some? {
      var row := RowWritten(s, e).value;
      left := WriteTruth(s.rows, row, e.wrote, taken);
      assert data == Written(s.rows);
    } else {
      assert data + [] == data;
    }
  }

  lemma WriteTruth(rows: seq<Row>, row: Row, wrote: Wrote, taken: nat) returns (left: Bytes)
    ensures '\n' !in left && (wrote == Part <==> left != [])
    ensures Written(rows) + Piece(row, wrote, taken) == Written(if wrote == Whole then rows + [row] else rows) + left
  {
    PieceOf(row, wrote, taken);
    WrittenMore(rows, row);
    left := if wrote == Part then Piece(row, wrote, taken) else [];
    assert Written(rows + [row]) + [] == Written(rows + [row]);
  }

  lemma {:induction false} FileTruth(events: seq<Event>, taken: nat -> nat) returns (rest: Bytes)
    requires Run(Width, events).Some?
    ensures FileAfter(events, taken) == Written(Run(Width, events).value.rows) + rest && '\n' !in rest
    ensures Run(Width, events).value.torn <==> rest != []
  {
    if events == [] {
      rest := [];
    } else {
      var n := |events| - 1;
      var before := FileTruth(events[..n], taken);
      RunKeeps(Width, events[..n]);
      rest := StepTruth(Run(Width, events[..n]).value, events[n], Run(Width, events).value,
                        FileAfter(events[..n], taken), before, taken(n));
    }
  }

  /** Whatever was admitted, published, cut short, killed and sealed, a reader of the file finds exactly the
      rows of the machine's state, or refuses it where the machine's readers do. */
  lemma EveryReader(events: seq<Event>, taken: nat -> nat)
    requires Run(Width, events).Some?
    ensures var s := Run(Width, events).value;
            ReadLedger(FileAfter(events, taken)) == if Readable(Width, s.rows, s.torn) then Some(s.rows) else None
  {
    var rest := FileTruth(events, taken);
    ReadWritten(Run(Width, events).value.rows, rest);
  }
}
