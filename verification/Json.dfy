/** Canonical JSON: `json.dumps(value, sort_keys=True, separators=(",", ":"))`
    followed by one newline, and the reader that undoes it. */
module Json {
  import opened Basics

  datatype Field = Field(key: string, value: Value)

  /** A JSON value without fractional numbers. An object lists its members. */
  datatype Value =
    | Null
    | Bool(b: bool)
    | Num(n: int)
    | Str(s: string)
    | Arr(items: seq<Value>)
    | Obj(fields: seq<Field>)

  /** Members sorted by key and without repeats: one list for each Python dictionary. */
  predicate Sorted(fields: seq<Field>) {
    forall i :: 0 <= i < |fields| - 1 ==> Less(fields[i].key, fields[i + 1].key)
  }

  predicate WellFormed(v: Value) {
    match v
    case Arr(items) => forall item :: item in items ==> WellFormed(item)
    case Obj(fields) => Sorted(fields) && forall f :: f in fields ==> WellFormed(f.value)
    case _ => true
  }

  // ---------------------------------------------------------------- writing

  function Digit(n: nat): (c: char)
    requires n < 16
  {
    if n < 10 then '0' + n as char else 'a' + (n - 10) as char
  }

  function Decimal(n: nat): (t: string)
    ensures t != []
  {
    if n < 10 then [Digit(n)] else Decimal(n / 10) + [Digit(n % 10)]
  }

  function Integer(n: int): string {
    if n < 0 then "-" + Decimal(-n) else Decimal(n)
  }

  function Hex4(n: nat): (t: string)
    requires n < 0x10000
    ensures |t| == 4
  {
    var a := n / 16;
    var b := a / 16;
    [Digit(b / 16), Digit(b % 16), Digit(a % 16), Digit(n % 16)]
  }

  predicate Plain(c: char) {
    ' ' <= c <= '~' && c != '"' && c != '\\'
  }

  /** The letter of a two-character escape. */
  function ShortEscape(c: char): Option<char> {
    if c == '"' then Some('"')
    else if c == '\\' then Some('\\')
    else if c == '\n' then Some('n')
    else if c == '\r' then Some('r')
    else if c == '\t' then Some('t')
    else if c == 12 as char then Some('f')
    else if c == 8 as char then Some('b')
    else None
  }

  /** One character inside a string literal. Everything outside printable ASCII is
      escaped, a character beyond the basic plane as its surrogate pair. */
  function Escape(c: char): (t: string)
    ensures t != [] && t[0] != '"'
  {
    if Plain(c) then [c]
    else if ShortEscape(c).Some? then ['\\', ShortEscape(c).value]
    else "\\u" + UnicodeEscape(c as int)
  }

  /** The surrogate pair of a character beyond the basic plane. */
  function High(n: nat): (h: nat)
    requires 0x10000 <= n < 0x110000
    ensures 0xD800 <= h < 0xDC00
  {
    0xD800 + (n - 0x10000) / 0x400
  }

  function Low(n: nat): (l: nat)
    requires 0x10000 <= n < 0x110000
    ensures 0xDC00 <= l < 0xE000
  {
    0xDC00 + (n - 0x10000) % 0x400
  }

  /** What follows the first `\u`: one code unit, or the two of a surrogate pair. */
  function UnicodeEscape(n: nat): string
    requires n < 0x110000
  {
    if n < 0x10000 then Hex4(n) else Hex4(High(n)) + ("\\u" + Hex4(Low(n)))
  }

  function EscapeAll(s: string): string {
    if s == [] then [] else Escape(s[0]) + EscapeAll(s[1..])
  }

  function Quoted(s: string): string {
    "\"" + EscapeAll(s) + "\""
  }

  function Dumps(v: Value): string
    decreases v, 1
  {
    match v
    case Null => "null"
    case Bool(b) => if b then "true" else "false"
    case Num(n) => Integer(n)
    case Str(s) => Quoted(s)
    case Arr(items) => "[" + DumpItems(items)
    case Obj(fields) => "{" + DumpFields(fields)
  }

  /** The items of an array up to and including the closing bracket. */
  function DumpItems(items: seq<Value>): string
    decreases items, 0
  {
    if items == [] then "]"
    else if |items| == 1 then Dumps(items[0]) + "]"
    else Dumps(items[0]) + "," + DumpItems(items[1..])
  }

  function DumpFields(fields: seq<Field>): string
    decreases fields, 0
  {
    if fields == [] then "}"
    else if |fields| == 1 then Quoted(fields[0].key) + ":" + Dumps(fields[0].value) + "}"
    else Quoted(fields[0].key) + ":" + Dumps(fields[0].value) + "," + DumpFields(fields[1..])
  }

  function Canonical(v: Value): (data: Bytes) {
    Dumps(v) + "\n"
  }

  // ---------------------------------------------------------------- reading

  datatype Parsed<+T> = Fail | Done(value: T, rest: string)

  predicate IsDigit(c: char) {
    '0' <= c <= '9'
  }

  function ReadNat(acc: nat, t: string): (r: Parsed<nat>)
    ensures r.Done? && |r.rest| <= |t|
    ensures t != [] && IsDigit(t[0]) ==> |r.rest| < |t|
    decreases |t|
  {
    if t != [] && IsDigit(t[0]) then ReadNat(acc * 10 + (t[0] - '0') as int, t[1..]) else Done(acc, t)
  }

  function ReadInteger(t: string): (r: Parsed<int>)
    ensures r.Done? ==> |r.rest| < |t|
  {
    if t == [] then Fail
    else if IsDigit(t[0]) then
      var r := ReadNat(0, t);
      Done(r.value as int, r.rest)
    else if t[0] == '-' && |t| > 1 && IsDigit(t[1]) then
      var r := ReadNat(0, t[1..]);
      Done(0 - r.value as int, r.rest)
    else Fail
  }

  function HexValue(c: char): Option<nat> {
    if IsDigit(c) then Some((c - '0') as int)
    else if 'a' <= c <= 'f' then Some((c - 'a') as int + 10)
    else None
  }

  function ReadHex4(t: string): (r: Option<nat>)
    requires |t| >= 4
    ensures r.Some? ==> r.value < 0x10000
  {
    var a :- HexValue(t[0]);
    var b :- HexValue(t[1]);
    var c :- HexValue(t[2]);
    var d :- HexValue(t[3]);
    assert a < 16 && b < 16 && c < 16 && d < 16;
    Some(a * 0x1000 + b * 0x100 + c * 16 + d)
  }

  function FromPair(hi: nat, lo: nat): (c: char)
    requires 0xD800 <= hi < 0xDC00 <= lo < 0xE000
  {
    (0x10000 + (hi - 0xD800) * 0x400 + (lo - 0xDC00)) as char
  }

  lemma PairUndoes(c: char)
    requires c as int >= 0x10000
    ensures FromPair(High(c as int), Low(c as int)) == c
  {
    var v := c as int - 0x10000;
    assert v == v / 0x400 * 0x400 + v % 0x400;
  }

  /** The character written as `\uXXXX` or as a surrogate pair, after the first `\u`. */
  function ReadUnicode(t: string): (r: Parsed<char>)
    ensures r.Done? ==> |r.rest| < |t|
  {
    if |t| < 4 then Fail
    else
      match ReadHex4(t)
      case None => Fail
      case Some(n) =>
        if n < 0xD800 || n >= 0xE000 then Done(n as char, t[4..])
        else if n < 0xDC00 && |t| >= 10 && t[4] == '\\' && t[5] == 'u' then
          match ReadHex4(t[6..])
          case None => Fail
          case Some(m) =>
            if 0xDC00 <= m < 0xE000 then Done(FromPair(n, m), t[10..])
            else Fail
        else Fail
  }

  function ReadShort(letter: char): Option<char> {
    if letter == '"' then Some('"')
    else if letter == '\\' then Some('\\')
    else if letter == 'n' then Some('\n')
    else if letter == 'r' then Some('\r')
    else if letter == 't' then Some('\t')
    else if letter == 'f' then Some(12 as char)
    else if letter == 'b' then Some(8 as char)
    else None
  }

  function ReadChar(t: string): (r: Parsed<char>)
    ensures r.Done? ==> |r.rest| < |t|
  {
    if t == [] then Fail
    else if Plain(t[0]) then Done(t[0], t[1..])
    else if t[0] != '\\' || |t| < 2 then Fail
    else if t[1] == 'u' then ReadUnicode(t[2..])
    else
      match ReadShort(t[1])
      case None => Fail
      case Some(c) => Done(c, t[2..])
  }

  /** The characters up to the closing quote, which is consumed. */
  function ReadChars(t: string): (r: Parsed<string>)
    ensures r.Done? ==> |r.rest| < |t|
    decreases |t|
  {
    if t == [] then Fail
    else if t[0] == '"' then Done([], t[1..])
    else
      match ReadChar(t)
      case Fail => Fail
      case Done(c, rest) =>
        match ReadChars(rest)
        case Fail => Fail
        case Done(s, rest') => Done([c] + s, rest')
  }

  function ReadQuoted(t: string): (r: Parsed<string>)
    ensures r.Done? ==> |r.rest| < |t|
  {
    if t != [] && t[0] == '"' then ReadChars(t[1..]) else Fail
  }

  function ReadWord(word: string, v: Value, t: string): (r: Parsed<Value>)
    requires word != []
    ensures r.Done? ==> |r.rest| < |t|
  {
    if word <= t then Done(v, t[|word|..]) else Fail
  }

  function ReadValue(t: string): (r: Parsed<Value>)
    ensures r.Done? ==> |r.rest| < |t|
    decreases |t|, 1
  {
    if t == [] then Fail
    else if t[0] == 'n' then ReadWord("null", Null, t)
    else if t[0] == 't' then ReadWord("true", Bool(true), t)
    else if t[0] == 'f' then ReadWord("false", Bool(false), t)
    else if t[0] == '"' then
      match ReadQuoted(t)
      case Fail => Fail
      case Done(s, rest) => Done(Str(s), rest)
    else if t[0] == '[' then
      match ReadItems(t[1..])
      case Fail => Fail
      case Done(items, rest) => Done(Arr(items), rest)
    else if t[0] == '{' then
      match ReadFields(t[1..])
      case Fail => Fail
      case Done(fields, rest) => Done(Obj(fields), rest)
    else
      match ReadInteger(t)
      case Fail => Fail
      case Done(n, rest) => Done(Num(n), rest)
  }

  function ReadItems(t: string): (r: Parsed<seq<Value>>)
    ensures r.Done? ==> |r.rest| < |t|
    decreases |t|, 2
  {
    if t != [] && t[0] == ']' then Done([], t[1..])
    else
      match ReadValue(t)
      case Fail => Fail
      case Done(v, rest) =>
        if rest != [] && rest[0] == ']' then Done([v], rest[1..])
        else if rest != [] && rest[0] == ',' then
          match ReadItems(rest[1..])
          case Fail => Fail
          case Done(items, rest') => Done([v] + items, rest')
        else Fail
  }

  function ReadFields(t: string): (r: Parsed<seq<Field>>)
    ensures r.Done? ==> |r.rest| < |t|
    decreases |t|, 2
  {
    if t != [] && t[0] == '}' then Done([], t[1..])
    else
      match ReadQuoted(t)
      case Fail => Fail
      case Done(key, colon) =>
        if colon == [] || colon[0] != ':' then Fail
        else
          match ReadValue(colon[1..])
          case Fail => Fail
          case Done(v, rest) =>
            if rest != [] && rest[0] == '}' then Done([Field(key, v)], rest[1..])
            else if rest != [] && rest[0] == ',' then
              match ReadFields(rest[1..])
              case Fail => Fail
              case Done(fields, rest') => Done([Field(key, v)] + fields, rest')
            else Fail
  }

  // ------------------------------------------------- reading undoes writing

  lemma {:induction false} ReadNatDecimal(n: nat, rest: string)
    ensures ReadNat(0, Decimal(n) + rest) == ReadNat(n, rest)
    decreases n
  {
    if n < 10 {
      assert Decimal(n) + rest == [Digit(n)] + rest;
      assert ([Digit(n)] + rest)[1..] == rest;
    } else {
      var d := [Digit(n % 10)];
      ReadNatDecimal(n / 10, d + rest);
      assert Decimal(n) + rest == Decimal(n / 10) + (d + rest);
      assert (d + rest)[1..] == rest;
    }
  }

  lemma DecimalHead(n: nat)
    ensures IsDigit(Decimal(n)[0])
  {
  }

  /** A number must not run into a following digit. */
  predicate Separated(rest: string) {
    rest == [] || !IsDigit(rest[0])
  }

  lemma ReadIntegerUndoes(n: int, rest: string)
    requires Separated(rest)
    ensures ReadInteger(Integer(n) + rest) == Done(n, rest)
  {
    var m := if n < 0 then -n else n;
    DecimalHead(m);
    ReadNatDecimal(m, rest);
    if n < 0 {
      assert (Integer(n) + rest)[1..] == Decimal(m) + rest;
    }
  }

  lemma HexDigit(n: nat)
    requires n < 16
    ensures HexValue(Digit(n)) == Some(n)
  {
  }

  lemma ReadHexUndoes(n: nat, rest: string)
    requires n < 0x10000
    ensures ReadHex4(Hex4(n) + rest) == Some(n)
  {
    var a := n / 16;
    var b := a / 16;
    HexDigit(b / 16);
    HexDigit(b % 16);
    HexDigit(a % 16);
    HexDigit(n % 16);
    assert n == a * 16 + n % 16 && a == b * 16 + a % 16 && b == b / 16 * 16 + b % 16;
  }

  lemma ReadPairUndoes(hi: nat, lo: nat, rest: string)
    requires 0xD800 <= hi < 0xDC00 <= lo < 0xE000
    ensures ReadUnicode(Hex4(hi) + ("\\u" + (Hex4(lo) + rest)))
            == Done(FromPair(hi, lo), rest)
  {
    var tail := "\\u" + (Hex4(lo) + rest);
    var t := Hex4(hi) + tail;
    ReadHexUndoes(hi, tail);
    ReadHexUndoes(lo, rest);
    assert t[4] == '\\' && t[5] == 'u';
    assert t[6..] == Hex4(lo) + rest;
    assert t[10..] == rest;
  }

  lemma ReadAstralUndoes(c: char, rest: string)
    requires c as int >= 0x10000
    ensures ReadUnicode(UnicodeEscape(c as int) + rest) == Done(c, rest)
  {
    var hi, lo := High(c as int), Low(c as int);
    PairUndoes(c);
    ReadPairUndoes(hi, lo, rest);
    Associative(Hex4(hi), "\\u" + Hex4(lo), rest);
    Associative("\\u", Hex4(lo), rest);
  }

  lemma ReadUnicodeUndoes(c: char, rest: string)
    ensures ReadUnicode(UnicodeEscape(c as int) + rest) == Done(c, rest)
  {
    if c as int >= 0x10000 {
      ReadAstralUndoes(c, rest);
    } else {
      ReadHexUndoes(c as int, rest);
      assert (Hex4(c as int) + rest)[4..] == rest;
    }
  }

  lemma ReadShortUndoes(c: char)
    requires ShortEscape(c).Some?
    ensures ReadShort(ShortEscape(c).value) == Some(c) && ShortEscape(c).value != 'u'
  {
  }

  lemma ReadLongUndoes(u: string, c: char, rest: string)
    requires ReadUnicode(u + rest) == Done(c, rest)
    ensures ReadChar("\\u" + u + rest) == Done(c, rest)
  {
    assert ("\\u" + u + rest)[2..] == u + rest;
  }

  lemma ReadCharUndoes(c: char, rest: string)
    ensures ReadChar(Escape(c) + rest) == Done(c, rest)
  {
    var t := Escape(c) + rest;
    if Plain(c) {
      assert t[1..] == rest;
    } else if ShortEscape(c).Some? {
      ReadShortUndoes(c);
      assert t[2..] == rest;
    } else {
      ReadUnicodeUndoes(c, rest);
      ReadLongUndoes(UnicodeEscape(c as int), c, rest);
    }
  }

  lemma {:induction false} ReadCharsUndoes(s: string, rest: string)
    ensures ReadChars(EscapeAll(s) + "\"" + rest) == Done(s, rest)
  {
    if s == [] {
      assert EscapeAll(s) + "\"" + rest == "\"" + rest;
      assert ("\"" + rest)[1..] == rest;
    } else {
      var tail := EscapeAll(s[1..]) + "\"" + rest;
      var t := EscapeAll(s) + "\"" + rest;
      assert t == Escape(s[0]) + tail;
      ReadCharUndoes(s[0], tail);
      ReadCharsUndoes(s[1..], rest);
      assert [s[0]] + s[1..] == s;
    }
  }

  lemma ReadQuotedUndoes(s: string, rest: string)
    ensures ReadQuoted(Quoted(s) + rest) == Done(s, rest)
  {
    var body := EscapeAll(s) + "\"" + rest;
    ReadCharsUndoes(s, rest);
    Associative("\"" + EscapeAll(s), "\"", rest);
    Associative("\"", EscapeAll(s), "\"" + rest);
    Associative(EscapeAll(s), "\"", rest);
    assert Quoted(s) + rest == "\"" + body;
    assert ("\"" + body)[1..] == body;
  }

  lemma DumpsHead(v: Value)
    ensures Dumps(v) != []
    ensures Dumps(v)[0] != ']' && Dumps(v)[0] != '}'
    ensures v.Num? ==> IsDigit(Dumps(v)[0]) || Dumps(v)[0] == '-'
  {
    if v.Num? && v.n >= 0 {
      DecimalHead(v.n);
    }
  }

  lemma ReadWordUndoes(word: string, v: Value, rest: string)
    requires word != []
    ensures ReadWord(word, v, word + rest) == Done(v, rest)
  {
    assert (word + rest)[|word|..] == rest;
  }

  lemma ReadWords(v: Value, rest: string)
    requires v.Null? || v.Bool?
    ensures ReadValue(Dumps(v) + rest) == Done(v, rest)
  {
    ReadWordUndoes("null", Null, rest);
    ReadWordUndoes("true", Bool(true), rest);
    ReadWordUndoes("false", Bool(false), rest);
  }

  lemma ReadArray(body: string, items: seq<Value>, rest: string)
    requires ReadItems(body) == Done(items, rest)
    ensures ReadValue("[" + body) == Done(Arr(items), rest)
  {
    assert ("[" + body)[1..] == body;
  }

  lemma ReadObject(body: string, fields: seq<Field>, rest: string)
    requires ReadFields(body) == Done(fields, rest)
    ensures ReadValue("{" + body) == Done(Obj(fields), rest)
  {
    assert ("{" + body)[1..] == body;
  }

  lemma ReadNumber(n: int, rest: string)
    requires Separated(rest)
    ensures ReadValue(Integer(n) + rest) == Done(Num(n), rest)
  {
    ReadIntegerUndoes(n, rest);
    DecimalHead(if n < 0 then -n else n);
  }

  lemma ReadString(s: string, rest: string)
    ensures ReadValue(Quoted(s) + rest) == Done(Str(s), rest)
  {
    ReadQuotedUndoes(s, rest);
  }

  /** Reading consumes exactly the text of the value, before anything but a digit. */
  lemma {:induction false} ReadUndoesDumps(v: Value, rest: string)
    requires Separated(rest)
    ensures ReadValue(Dumps(v) + rest) == Done(v, rest)
    decreases v, 1
  {
    match v
    case Null => ReadWords(v, rest);
    case Bool(_) => ReadWords(v, rest);
    case Num(n) =>
      ReadNumber(n, rest);
    case Str(s) =>
      ReadString(s, rest);
    case Arr(items) =>
      ReadUndoesItems(items, rest);
      ReadArray(DumpItems(items) + rest, items, rest);
      Associative("[", DumpItems(items), rest);
    case Obj(fields) =>
      ReadUndoesFields(fields, rest);
      ReadObject(DumpFields(fields) + rest, fields, rest);
      Associative("{", DumpFields(fields), rest);
  }

  /** The text after the first item. */
  function AfterItem(items: seq<Value>, rest: string): string
    requires items != []
  {
    if |items| == 1 then "]" + rest else "," + (DumpItems(items[1..]) + rest)
  }

  lemma DumpItemsStep(items: seq<Value>, rest: string)
    requires items != []
    ensures DumpItems(items) + rest == Dumps(items[0]) + AfterItem(items, rest)
  {
  }

  /** How `ReadItems` goes on after the item it starts with. */
  lemma ReadItem(v: Value, t: string, tail: string)
    requires t != [] && t[0] != ']'
    requires ReadValue(t) == Done(v, tail)
    ensures tail != [] && tail[0] == ']' ==> ReadItems(t) == Done([v], tail[1..])
    ensures tail != [] && tail[0] == ',' && ReadItems(tail[1..]).Done? ==>
              ReadItems(t) == Done([v] + ReadItems(tail[1..]).value, ReadItems(tail[1..]).rest)
  {
  }

  lemma {:induction false} ReadUndoesItems(items: seq<Value>, rest: string)
    ensures ReadItems(DumpItems(items) + rest) == Done(items, rest)
    decreases items, 0
  {
    if items == [] {
      assert ("]" + rest)[1..] == rest;
    } else {
      var v, tail := items[0], AfterItem(items, rest);
      DumpItemsStep(items, rest);
      ReadUndoesDumps(v, tail);
      DumpsHead(v);
      ReadItem(v, Dumps(v) + tail, tail);
      if |items| == 1 {
        assert tail[1..] == rest && [v] == items;
      } else {
        assert tail[1..] == DumpItems(items[1..]) + rest;
        ReadUndoesItems(items[1..], rest);
        assert [v] + items[1..] == items;
      }
    }
  }

  /** The text after the first member. */
  function AfterMember(fields: seq<Field>, rest: string): string
    requires fields != []
  {
    if |fields| == 1 then "}" + rest else "," + (DumpFields(fields[1..]) + rest)
  }

  lemma DumpFieldsStep(fields: seq<Field>, rest: string)
    requires fields != []
    ensures DumpFields(fields) + rest
            == Quoted(fields[0].key) + (":" + (Dumps(fields[0].value) + AfterMember(fields, rest)))
  {
  }

  lemma {:induction false} ReadUndoesFields(fields: seq<Field>, rest: string)
    ensures ReadFields(DumpFields(fields) + rest) == Done(fields, rest)
    decreases fields, 0
  {
    if fields == [] {
      assert ("}" + rest)[1..] == rest;
    } else {
      var f, tail := fields[0], AfterMember(fields, rest);
      ReadUndoesDumps(f.value, tail);
      DumpFieldsStep(fields, rest);
      ReadMember(f, DumpFields(fields) + rest, tail);
      if |fields| == 1 {
        assert tail[1..] == rest && [f] == fields;
      } else {
        assert tail[1..] == DumpFields(fields[1..]) + rest;
        ReadUndoesFields(fields[1..], rest);
        assert [f] + fields[1..] == fields;
      }
    }
  }

  /** How `ReadFields` goes on after the member it starts with. */
  lemma ReadMember(f: Field, t: string, tail: string)
    requires t == Quoted(f.key) + (":" + (Dumps(f.value) + tail))
    requires ReadValue(Dumps(f.value) + tail) == Done(f.value, tail)
    ensures tail != [] && tail[0] == '}' ==> ReadFields(t) == Done([f], tail[1..])
    ensures tail != [] && tail[0] == ',' && ReadFields(tail[1..]).Done? ==>
              ReadFields(t) == Done([f] + ReadFields(tail[1..]).value, ReadFields(tail[1..]).rest)
  {
    var colon := ":" + (Dumps(f.value) + tail);
    ReadQuotedUndoes(f.key, colon);
    assert colon[1..] == Dumps(f.value) + tail;
    assert t[0] == '"';
    assert f == Field(f.key, f.value);
  }

  /** Two values with the same canonical bytes are the same value. */
  lemma CanonicalInjective(a: Value, b: Value)
    requires Canonical(a) == Canonical(b)
    ensures a == b
  {
    ReadUndoesDumps(a, "\n");
    ReadUndoesDumps(b, "\n");
  }

  // ----------------------------------------------- one line, no inner newline

  predicate Printable(t: string) {
    forall i :: 0 <= i < |t| ==> ' ' <= t[i] <= '~'
  }

  lemma DecimalPrintable(n: nat)
    ensures Printable(Decimal(n))
  {
  }

  lemma PrintableConcat(a: string, b: string)
    requires Printable(a) && Printable(b)
    ensures Printable(a + b)
  {
  }

  lemma Hex4Printable(n: nat)
    requires n < 0x10000
    ensures Printable(Hex4(n))
  {
  }

  lemma UnicodeEscapePrintable(n: nat)
    requires n < 0x110000
    ensures Printable(UnicodeEscape(n))
  {
    if n < 0x10000 {
      Hex4Printable(n);
    } else {
      Hex4Printable(High(n));
      Hex4Printable(Low(n));
      PrintableConcat("\\u", Hex4(Low(n)));
      PrintableConcat(Hex4(High(n)), "\\u" + Hex4(Low(n)));
    }
  }

  lemma EscapePrintable(c: char)
    ensures Printable(Escape(c))
  {
    UnicodeEscapePrintable(c as int);
  }

  lemma {:induction false} EscapeAllPrintable(s: string)
    ensures Printable(EscapeAll(s))
  {
    if s != [] {
      EscapePrintable(s[0]);
      EscapeAllPrintable(s[1..]);
    }
  }

  lemma {:induction false} DumpsPrintable(v: Value)
    ensures Printable(Dumps(v))
    decreases v, 1
  {
    match v
    case Num(n) => DecimalPrintable(if n < 0 then -n else n);
    case Str(s) => EscapeAllPrintable(s);
    case Arr(items) => DumpItemsPrintable(items);
    case Obj(fields) => DumpFieldsPrintable(fields);
    case _ =>
  }

  lemma {:induction false} DumpItemsPrintable(items: seq<Value>)
    ensures Printable(DumpItems(items))
    decreases items, 0
  {
    if items != [] {
      DumpsPrintable(items[0]);
      if |items| > 1 {
        DumpItemsPrintable(items[1..]);
      }
    }
  }

  lemma {:induction false} DumpFieldsPrintable(fields: seq<Field>)
    ensures Printable(DumpFields(fields))
    decreases fields, 0
  {
    if fields != [] {
      var key, value := fields[0].key, fields[0].value;
      EscapeAllPrintable(key);
      DumpsPrintable(value);
      PrintableConcat(Quoted(key), ":");
      PrintableConcat(Quoted(key) + ":", Dumps(value));
      if |fields| > 1 {
        DumpFieldsPrintable(fields[1..]);
        PrintableConcat(Quoted(key) + ":" + Dumps(value), ",");
        PrintableConcat(Quoted(key) + ":" + Dumps(value) + ",", DumpFields(fields[1..]));
      }
    }
  }

  /** Canonical bytes are one line: the newline is the last byte and only there. */
  lemma CanonicalOneLine(v: Value)
    ensures var data := Canonical(v);
            forall i :: 0 <= i < |data| ==> (data[i] == '\n' <==> i == |data| - 1)
  {
    DumpsPrintable(v);
  }

  // ------------------------------------------------------------ bounded rows

  const MAX_ROW_BYTES := 65536

  /** A bounded, terminated row whose bytes are exactly the canonical ones. */
  function Decode(data: Bytes): (r: Option<Value>) {
    if |data| > MAX_ROW_BYTES || data == [] || data[|data| - 1] != '\n' then None
    else
      match ReadValue(data)
      case Fail => None
      case Done(v, rest) => if rest == "\n" && WellFormed(v) && Canonical(v) == data then Some(v) else None
  }

  lemma DecodeExact(data: Bytes, v: Value)
    ensures Decode(data) == Some(v) <==> WellFormed(v) && Canonical(v) == data && |data| <= MAX_ROW_BYTES
  {
    if WellFormed(v) && Canonical(v) == data && |data| <= MAX_ROW_BYTES {
      ReadUndoesDumps(v, "\n");
    }
  }

  // ---------------------------------------------------------------- members

  /** `dict.get`: the member with this key. */
  function Get(v: Value, key: string): Option<Value> {
    if v.Obj? then Find(v.fields, key) else None
  }

  function Find(fields: seq<Field>, key: string): Option<Value> {
    if fields == [] then None
    else if fields[0].key == key then Some(fields[0].value)
    else Find(fields[1..], key)
  }
}
