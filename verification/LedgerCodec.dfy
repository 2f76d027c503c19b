/** The group ledger as bytes: one canonical JSON line for each row. */
module LedgerCodec {
  import opened Basics
  import opened Json
  import opened JsonLength
  import opened Text
  import opened GroupLedger

  function BirthValue(birth: Option<string>): Value {
    match birth
    case None => Null
    case Some(s) => Str(s)
  }

  function RowValue(row: Row): Value {
    match row
    case Group(e) =>
      Obj([Field("executable_sha256", Str(e.executable)), Field("group", Num(e.group)),
           Field("kind", Str("group")), Field("leader_birth", BirthValue(e.birth)),
           Field("owner_pid", Num(e.owner)), Field("schema", Num(1))])
    case Closed => Obj([Field("kind", Str("closed")), Field("schema", Num(1))])
  }

  function RowOf(v: Value): Option<Row> {
    if !v.Obj? then None
    else if v.fields == [Field("kind", Str("closed")), Field("schema", Num(1))] then Some(Closed)
    else if |v.fields| == 6 then
      var f := v.fields;
      if && f[0].key == "executable_sha256" && f[0].value.Str? && f[1].key == "group" && f[1].value.Num?
         && f[2] == Field("kind", Str("group")) && f[3].key == "leader_birth" && (f[3].value.Null? || f[3].value.Str?)
         && f[4].key == "owner_pid" && f[4].value.Num? && f[5] == Field("schema", Num(1))
      then Some(Group(Entry(f[1].value.n, f[4].value.n, f[0].value.s,
                            if f[3].value.Null? then None else Some(f[3].value.s))))
      else None
    else None
  }

  lemma RowOfExact(v: Value, row: Row)
    ensures RowOf(v) == Some(row) <==> v == RowValue(row)
  {
    if RowOf(v) == Some(row) && row.Group? {
      assert v.fields == RowValue(row).fields;
    }
  }

  lemma RowWellFormed(row: Row)
    ensures WellFormed(RowValue(row))
  {
    match row
    case Group(e) =>
      assert Less("executable_sha256", "group") && Less("group", "kind") && Less("kind", "leader_birth");
      assert Less("leader_birth", "owner_pid") && Less("owner_pid", "schema");
    case Closed =>
      assert Less("kind", "schema");
  }

  function RowBytes(row: Row): (data: Bytes)
    ensures data != []
  {
    Canonical(RowValue(row))
  }

  function DecodeLine(line: Bytes): Option<Row> {
    var v :- Decode(line + "\n");
    RowOf(v)
  }

  lemma DecodeLineExact(line: Bytes, row: Row)
    requires |line| < MAX_LEDGER_BYTES
    ensures DecodeLine(line) == Some(row) <==> line + "\n" == RowBytes(row)
  {
    RowWellFormed(row);
    if DecodeLine(line) == Some(row) {
      var v := Decode(line + "\n").value;
      DecodeExact(line + "\n", v);
      RowOfExact(v, row);
    }
    if line + "\n" == RowBytes(row) {
      DecodeExact(line + "\n", RowValue(row));
      RowOfExact(RowValue(row), row);
    }
  }

  /** `_group_ledger_rows`. */
  function ReadLedger(data: Bytes): Option<seq<Row>> {
    if |data| > MAX_LEDGER_BYTES || (data != [] && data[|data| - 1] != '\n') then None
    else
      var lines := Split(data, '\n');
      var rows :- AllSome(DecodeLine, lines[..|lines| - 1]);
      if Shape(rows) then Some(rows) else None
  }

  function Written(rows: seq<Row>): Bytes {
    if rows == [] then [] else Written(rows[..|rows| - 1]) + RowBytes(rows[|rows| - 1])
  }

  function Width(row: Row): nat {
    |RowBytes(row)|
  }

  // -------------------------------------------------------------- round trip

  function Line(row: Row): Bytes {
    RowBytes(row)[..|RowBytes(row)| - 1]
  }

  lemma LineExact(row: Row)
    ensures Line(row) + "\n" == RowBytes(row) && '\n' !in Line(row)
  {
    CanonicalOneLine(RowValue(row));
  }

  function LinesOf(rows: seq<Row>): (lines: seq<Bytes>)
    ensures |lines| == |rows| && forall i :: 0 <= i < |rows| ==> lines[i] == Line(rows[i])
  {
    seq(|rows|, i requires 0 <= i < |rows| => Line(rows[i]))
  }

  lemma LinesMore(rows: seq<Row>)
    requires rows != []
    ensures LinesOf(rows) == LinesOf(rows[..|rows| - 1]) + [Line(rows[|rows| - 1])]
  {
  }

  lemma WrittenLine(rows: seq<Row>)
    requires rows != []
    ensures Written(rows) == Written(rows[..|rows| - 1]) + Line(rows[|rows| - 1]) + "\n"
    ensures '\n' !in Line(rows[|rows| - 1])
  {
    var row := rows[|rows| - 1];
    LineExact(row);
    Associative(Written(rows[..|rows| - 1]), Line(row), "\n");
  }

  lemma {:induction false} SplitWritten(rows: seq<Row>)
    ensures Split(Written(rows), '\n') == LinesOf(rows) + [""]
    ensures rows != [] ==> Written(rows) != [] && Written(rows)[|Written(rows)| - 1] == '\n'
  {
    if rows == [] {
      assert LinesOf(rows) == [];
    } else {
      var before, line := rows[..|rows| - 1], Line(rows[|rows| - 1]);
      SplitWritten(before);
      WrittenLine(rows);
      LinesMore(rows);
      SplitRow(Written(before), line, LinesOf(before));
    }
  }

  /** One more line after a text that ends its last one. */
  lemma SplitRow(text: Bytes, line: Bytes, lines: seq<Bytes>)
    requires text == [] || text[|text| - 1] == '\n'
    requires '\n' !in line && Split(text, '\n') == lines + [""]
    ensures Split(text + line + "\n", '\n') == lines + [line] + [""]
  {
    var all := text + line;
    SplitConcat(all, "", '\n');
    assert all + ['\n'] + "" == all + "\n";
    assert Split("", '\n') == [""];
    SplitLast(text, line, lines, '\n');
  }

  lemma DecodeWritten(rows: seq<Row>)
    requires Total(Width, rows) <= MAX_LEDGER_BYTES
    ensures AllSome(DecodeLine, LinesOf(rows)) == Some(rows)
  {
    forall i | 0 <= i < |rows|
      ensures DecodeLine(LinesOf(rows)[i]) == Some(rows[i])
    {
      WithinTotal(Width, rows, i);
      DecodeOwn(rows[i]);
    }
    AllSomeOf(DecodeLine, LinesOf(rows), rows);
  }

  lemma DecodeOwn(row: Row)
    requires Width(row) <= MAX_LEDGER_BYTES
    ensures DecodeLine(Line(row)) == Some(row)
  {
    LineExact(row);
    DecodeLineExact(Line(row), row);
  }

  lemma {:induction false} WrittenTotal(rows: seq<Row>)
    ensures |Written(rows)| == Total(Width, rows)
  {
    if rows != [] {
      var before, row := rows[..|rows| - 1], rows[|rows| - 1];
      WrittenTotal(before);
      assert Total(Width, rows) == Total(Width, before) + Width(row);
    }
  }

  lemma WrittenMore(rows: seq<Row>, row: Row)
    ensures Written(rows + [row]) == Written(rows) + RowBytes(row)
  {
    assert (rows + [row])[..|rows|] == rows;
  }

  /** What a reader makes of any written rows and any torn rest, exactly. */
  lemma ReadWritten(rows: seq<Row>, rest: Bytes)
    requires '\n' !in rest
    ensures ReadLedger(Written(rows) + rest) == if Readable(Width, rows, rest != []) then Some(rows) else None
  {
    WrittenTotal(rows);
    if rest != [] {
      ReadTorn(Written(rows), rest);
    } else {
      assert Written(rows) + rest == Written(rows);
      ReadWhole(rows);
    }
  }

  lemma ReadTorn(data: Bytes, rest: Bytes)
    requires rest != [] && '\n' !in rest
    ensures ReadLedger(data + rest).None?
  {
    assert (data + rest)[|data + rest| - 1] == rest[|rest| - 1];
  }

  lemma ReadWhole(rows: seq<Row>)
    requires |Written(rows)| == Total(Width, rows)
    ensures ReadLedger(Written(rows)) == if Readable(Width, rows, false) then Some(rows) else None
  {
    SplitWritten(rows);
    if |Written(rows)| <= MAX_LEDGER_BYTES {
      DecodeWritten(rows);
      ReadLines(Written(rows), LinesOf(rows), rows);
    }
  }

  lemma ReadLines(data: Bytes, lines: seq<Bytes>, rows: seq<Row>)
    requires |data| <= MAX_LEDGER_BYTES && (data == [] || data[|data| - 1] == '\n')
    requires Split(data, '\n') == lines + [""] && AllSome(DecodeLine, lines) == Some(rows)
    ensures ReadLedger(data) == if Shape(rows) then Some(rows) else None
  {
    assert (lines + [""])[..|lines|] == lines;
  }

  /** A cut row is a rest without a newline. */
  lemma TornRow(row: Row, k: nat)
    requires k < |RowBytes(row)|
    ensures '\n' !in RowBytes(row)[..k]
  {
    CanonicalOneLine(RowValue(row));
  }

  // ------------------------------------------------------------------ lengths

  /** A birth witness of machine words. */
  predicate WordBirth(s: string) {
    || (exists n :: 0 <= n < WORD && s == "linux:" + Decimal(n))
    || (exists a, b :: 0 <= a < WORD && 0 <= b < WORD && s == "darwin:" + Decimal(a) + ":" + Decimal(b))
  }

  predicate Words(e: Entry) {
    && ValidEntry(e) && e.group < WORD && e.owner < WORD
    && (e.birth.Some? ==> WordBirth(e.birth.value))
  }

  lemma BirthLength(s: string)
    requires WordBirth(s)
    ensures |s| <= 48 && AllPlain(s)
  {
    if n :| 0 <= n < WORD && s == "linux:" + Decimal(n) {
      WordLength(n);
      DecimalPlain(n);
    } else {
      var a, b :| 0 <= a < WORD && 0 <= b < WORD && s == "darwin:" + Decimal(a) + ":" + Decimal(b);
      WordLength(a);
      WordLength(b);
      DecimalPlain(a);
      DecimalPlain(b);
    }
  }

  lemma SchemaField()
    ensures FieldLength(Field("schema", Num(1))) == 11
  {
    PlainQuoted("schema");
  }

  lemma BirthField(s: string)
    requires WordBirth(s)
    ensures FieldLength(Field("leader_birth", Str(s))) <= 66
  {
    BirthLength(s);
    StringField("leader_birth", s);
  }

  lemma NoBirthField(key: string)
    requires key == "leader_birth"
    ensures FieldLength(Field(key, Null)) == 20
  {
    ValueField(key, Null);
  }

  lemma GroupField(n: nat)
    requires n < WORD
    ensures FieldLength(Field("group", Num(n))) <= 29
  {
    NumberField("group", n);
  }

  lemma OwnerField(n: nat)
    requires n < WORD
    ensures FieldLength(Field("owner_pid", Num(n))) <= 33
  {
    NumberField("owner_pid", n);
  }

  lemma KindField()
    ensures FieldLength(Field("kind", Str("group"))) == 15
  {
    StringField("kind", "group");
  }

  lemma DigestField(s: string)
    requires Digest(s)
    ensures FieldLength(Field("executable_sha256", Str(s))) == 87
  {
    StringField("executable_sha256", s);
  }

  /** Every field of machine width, a group row takes at most 243 bytes and the closure 29. */
  lemma WordWidth(e: Entry)
    requires Words(e)
    ensures Width(Group(e)) <= 243
  {
    match e.birth {
      case None => NoBirthField("leader_birth");
      case Some(s) => BirthField(s);
    }
    DigestField(e.executable);
    PartsWidth(e);
  }

  lemma PartsWidth(e: Entry)
    requires 0 <= e.group < WORD && 0 <= e.owner < WORD
    requires FieldLength(Field("executable_sha256", Str(e.executable))) == 87
    requires FieldLength(Field("leader_birth", BirthValue(e.birth))) <= 66
    ensures Width(Group(e)) <= 243
  {
    GroupField(e.group);
    OwnerField(e.owner);
    KindField();
    SchemaField();
    SixLength(Field("executable_sha256", Str(e.executable)), Field("group", Num(e.group)),
              Field("kind", Str("group")), Field("leader_birth", BirthValue(e.birth)),
              Field("owner_pid", Num(e.owner)), Field("schema", Num(1)));
  }

  lemma ClosureWidth()
    ensures Width(Closed) == 29
  {
    var f := RowValue(Closed).fields;
    StringField("kind", "closed");
    SchemaField();
    assert FieldsLength(f[1..]) == FieldLength(f[1]);
    DumpLength(f);
  }
}
