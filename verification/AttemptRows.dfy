/** Journal rows and the canonical JSON lines that carry them. */
module AttemptRows {
  import opened Basics
  import opened Json

  datatype Identity = Identity(journal: string, host: string, target: string)

  datatype Ref = Ref(path: string, sha256: string, bytes: int)

  datatype Row =
    | IdentityRow(sequence: int, previous: string, identity: Identity)
    | BeginRow(sequence: int, previous: string, id: string, kind: string, output: string, started: string)
    | TerminalRow(sequence: int, previous: string, id: string, receipt: Ref)

  const SCHEMA := "kasumi-native-attempt-index-v2"

  function RefValue(r: Ref): Value {
    Obj([Field("bytes", Num(r.bytes)), Field("path", Str(r.path)), Field("sha256", Str(r.sha256))])
  }

  function RefOf(v: Value): Option<Ref> {
    if && v.Obj? && |v.fields| == 3
       && v.fields[0].key == "bytes" && v.fields[0].value.Num? && v.fields[0].value.n >= 0
       && v.fields[1].key == "path" && v.fields[1].value.Str?
       && v.fields[2].key == "sha256" && v.fields[2].value.Str?
    then Some(Ref(v.fields[1].value.s, v.fields[2].value.s, v.fields[0].value.n))
    else None
  }

  function RowValue(row: Row): Value {
    match row
    case IdentityRow(n, p, identity) =>
      Obj([Field("event", Str("journal")), Field("host", Str(identity.host)),
           Field("journal_id", Str(identity.journal)), Field("previous_sha256", Str(p)),
           Field("schema", Str(SCHEMA)), Field("sequence", Num(n)), Field("target", Str(identity.target))])
    case BeginRow(n, p, id, kind, output, started) =>
      Obj([Field("event", Str("begin")), Field("id", Str(id)), Field("kind", Str(kind)),
           Field("output", Str(output)), Field("previous_sha256", Str(p)), Field("schema", Str(SCHEMA)),
           Field("sequence", Num(n)), Field("started_at", Str(started))])
    case TerminalRow(n, p, id, receipt) =>
      Obj([Field("event", Str("terminal")), Field("id", Str(id)), Field("previous_sha256", Str(p)),
           Field("receipt", RefValue(receipt)), Field("schema", Str(SCHEMA)), Field("sequence", Num(n))])
  }

  function IdentityRowOf(f: seq<Field>): Option<Row>
    requires |f| == 7
  {
    if && f[0] == Field("event", Str("journal"))
       && f[1].key == "host" && f[1].value.Str? && f[2].key == "journal_id" && f[2].value.Str?
       && f[3].key == "previous_sha256" && f[3].value.Str? && f[4] == Field("schema", Str(SCHEMA))
       && f[5].key == "sequence" && f[5].value.Num? && f[6].key == "target" && f[6].value.Str?
    then Some(IdentityRow(f[5].value.n, f[3].value.s, Identity(f[2].value.s, f[1].value.s, f[6].value.s)))
    else None
  }

  function BeginRowOf(f: seq<Field>): Option<Row>
    requires |f| == 8
  {
    if && f[0] == Field("event", Str("begin"))
       && f[1].key == "id" && f[1].value.Str? && f[2].key == "kind" && f[2].value.Str?
       && f[3].key == "output" && f[3].value.Str? && f[4].key == "previous_sha256" && f[4].value.Str?
       && f[5] == Field("schema", Str(SCHEMA))
       && f[6].key == "sequence" && f[6].value.Num? && f[7].key == "started_at" && f[7].value.Str?
    then Some(BeginRow(f[6].value.n, f[4].value.s, f[1].value.s, f[2].value.s, f[3].value.s, f[7].value.s))
    else None
  }

  function TerminalRowOf(f: seq<Field>): Option<Row>
    requires |f| == 6
  {
    if && f[0] == Field("event", Str("terminal"))
       && f[1].key == "id" && f[1].value.Str? && f[2].key == "previous_sha256" && f[2].value.Str?
       && f[3].key == "receipt" && RefOf(f[3].value).Some? && f[4] == Field("schema", Str(SCHEMA))
       && f[5].key == "sequence" && f[5].value.Num?
    then Some(TerminalRow(f[5].value.n, f[2].value.s, f[1].value.s, RefOf(f[3].value).value))
    else None
  }

  /** The row an exact set of members spells, if any. */
  function RowOf(v: Value): Option<Row> {
    if !v.Obj? then None
    else if |v.fields| == 7 then IdentityRowOf(v.fields)
    else if |v.fields| == 8 then BeginRowOf(v.fields)
    else if |v.fields| == 6 then TerminalRowOf(v.fields)
    else None
  }

  /** Terminal rows carry the reference of an existing file, so its length is a length. */
  predicate ValidRow(row: Row) {
    row.TerminalRow? ==> row.receipt.bytes >= 0
  }

  lemma RowOfExact(v: Value, row: Row)
    ensures RowOf(v) == Some(row) <==> ValidRow(row) && v == RowValue(row)
  {
    if RowOf(v) == Some(row) {
      var f := v.fields;
      if |f| == 7 {
        assert f == RowValue(row).fields;
      } else if |f| == 8 {
        assert f == RowValue(row).fields;
      } else {
        var r := f[3].value;
        assert r.fields == RefValue(row.receipt).fields;
        assert f == RowValue(row).fields;
      }
    }
  }

  lemma RowWellFormed(row: Row)
    ensures WellFormed(RowValue(row))
  {
    var f := RowValue(row).fields;
    match row
    case IdentityRow(_, _, _) => IdentityFieldsSorted(f);
    case BeginRow(_, _, _, _, _, _) => BeginFieldsSorted(f);
    case TerminalRow(_, _, _, r) =>
      TerminalFieldsSorted(f);
      assert Less("bytes", "path") && Less("path", "sha256");
      assert WellFormed(RefValue(r));
  }

  lemma IdentityFieldsSorted(f: seq<Field>)
    requires |f| == 7
    requires f[0].key == "event" && f[1].key == "host" && f[2].key == "journal_id"
    requires f[3].key == "previous_sha256" && f[4].key == "schema" && f[5].key == "sequence" && f[6].key == "target"
    ensures Sorted(f)
  {
    assert Less("event", "host") && Less("host", "journal_id") && Less("journal_id", "previous_sha256");
    assert Less("previous_sha256", "schema") && Less("sequence", "target");
    SchemaBeforeSequence();
  }

  lemma SchemaBeforeSequence()
    ensures Less("schema", "sequence")
  {
    assert "schema"[1..] == "chema" && "sequence"[1..] == "equence";
    assert Less("chema", "equence");
  }

  lemma BeginFieldsSorted(f: seq<Field>)
    requires |f| == 8
    requires f[0].key == "event" && f[1].key == "id" && f[2].key == "kind" && f[3].key == "output"
    requires f[4].key == "previous_sha256" && f[5].key == "schema" && f[6].key == "sequence" && f[7].key == "started_at"
    ensures Sorted(f)
  {
    assert Less("event", "id") && Less("id", "kind") && Less("kind", "output");
    assert Less("output", "previous_sha256") && Less("previous_sha256", "schema");
    SchemaBeforeSequence();
    assert "sequence"[1..] == "equence" && "started_at"[1..] == "tarted_at";
    assert Less("equence", "tarted_at");
  }

  lemma TerminalFieldsSorted(f: seq<Field>)
    requires |f| == 6
    requires f[0].key == "event" && f[1].key == "id" && f[2].key == "previous_sha256" && f[3].key == "receipt"
    requires f[4].key == "schema" && f[5].key == "sequence"
    ensures Sorted(f)
  {
    assert Less("event", "id") && Less("id", "previous_sha256");
    assert Less("previous_sha256", "receipt") && Less("receipt", "schema");
    SchemaBeforeSequence();
  }

  function RowBytes(row: Row): Bytes {
    Canonical(RowValue(row))
  }

  function DecodeRow(line: Bytes): Option<Row> {
    var v :- Decode(line);
    RowOf(v)
  }

  /** A row is accepted from exactly the bytes that are written for it. */
  lemma DecodeRowExact(line: Bytes, row: Row)
    ensures DecodeRow(line) == Some(row)
            <==> ValidRow(row) && line == RowBytes(row) && |line| <= MAX_ROW_BYTES
  {
    if DecodeRow(line) == Some(row) {
      var v := Decode(line).value;
      DecodeExact(line, v);
      RowOfExact(v, row);
    }
    if ValidRow(row) && line == RowBytes(row) && |line| <= MAX_ROW_BYTES {
      var v := RowValue(row);
      RowWellFormed(row);
      DecodeExact(line, v);
      RowOfExact(v, row);
    }
  }

  /** One row's bytes: a single newline, at the end. */
  predicate Terminated(line: Bytes) {
    line != [] && forall i :: 0 <= i < |line| ==> (line[i] == '\n' <==> i == |line| - 1)
  }

  lemma RowTerminated(row: Row)
    ensures Terminated(RowBytes(row))
  {
    CanonicalOneLine(RowValue(row));
  }

  lemma DecodedLine(line: Bytes)
    requires DecodeRow(line).Some?
    ensures Terminated(line) && |line| <= MAX_ROW_BYTES
  {
    var row := DecodeRow(line).value;
    DecodeRowExact(line, row);
    RowTerminated(row);
  }
}
