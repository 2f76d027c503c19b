/** How many bytes canonical JSON takes. */
module JsonLength {
  import opened Basics
  import opened Json

  // ------------------------------------------------------------------ numbers

  function Pow10(k: nat): nat {
    if k == 0 then 1 else 10 * Pow10(k - 1)
  }

  lemma {:induction false} DecimalLength(n: nat, k: nat)
    requires k > 0 && n < Pow10(k)
    ensures |Decimal(n)| <= k
  {
    if n >= 10 {
      DecimalLength(n / 10, k - 1);
    }
  }

  lemma WordLength(n: nat)
    requires n < WORD
    ensures |Decimal(n)| <= 20
  {
    assert Pow10(10) == 10000000000;
    Pow10Add(10, 10);
    DecimalLength(n, 20);
  }

  lemma {:induction false} Pow10Add(a: nat, b: nat)
    ensures Pow10(a + b) == Pow10(a) * Pow10(b)
  {
    if a > 0 {
      Pow10Add(a - 1, b);
    }
  }

  // ------------------------------------------------------------------ strings

  predicate AllPlain(s: string) {
    forall i :: 0 <= i < |s| ==> Plain(s[i])
  }

  lemma {:induction false} DecimalPlain(n: nat)
    ensures AllPlain(Decimal(n))
  {
    if n >= 10 {
      DecimalPlain(n / 10);
    }
  }

  lemma {:induction false} PlainQuoted(s: string)
    requires AllPlain(s)
    ensures |EscapeAll(s)| == |s| && |Quoted(s)| == |s| + 2
  {
    if s != [] {
      PlainQuoted(s[1..]);
      assert Escape(s[0]) == [s[0]];
    }
  }

  function FieldLength(f: Field): nat {
    |Quoted(f.key)| + |Dumps(f.value)| + 2
  }

  /** Each member costs its key, its value, a colon and what follows it. */
  function FieldsLength(fields: seq<Field>): nat {
    if fields == [] then 0 else FieldLength(fields[0]) + FieldsLength(fields[1..])
  }

  lemma {:induction false} DumpLength(fields: seq<Field>)
    requires fields != []
    ensures |DumpFields(fields)| == FieldsLength(fields)
  {
    if |fields| > 1 {
      DumpLength(fields[1..]);
    }
  }

  lemma OneMore(n: nat, bound: nat)
    requires n > 0
    ensures n * bound == bound + (n - 1) * bound
  {
  }

  lemma {:induction false} FieldsAtMost(fields: seq<Field>, bound: nat)
    requires forall i :: 0 <= i < |fields| ==> FieldLength(fields[i]) <= bound
    ensures FieldsLength(fields) <= |fields| * bound
  {
    if fields != [] {
      FieldsAtMost(fields[1..], bound);
      OneMore(|fields|, bound);
    }
  }

  lemma ObjectAtMost(fields: seq<Field>, bound: nat)
    requires fields != [] && forall i :: 0 <= i < |fields| ==> FieldLength(fields[i]) <= bound
    ensures |Dumps(Obj(fields))| <= |fields| * bound + 1
  {
    FieldsAtMost(fields, bound);
    DumpLength(fields);
  }

  lemma {:induction false} FieldsAtLeast(fields: seq<Field>, i: nat)
    requires i < |fields|
    ensures FieldsLength(fields) >= FieldLength(fields[i])
  {
    if i > 0 {
      FieldsAtLeast(fields[1..], i - 1);
    }
  }

  /** An object takes at least the bytes of each value in it. */
  lemma ObjectAtLeast(fields: seq<Field>, i: nat)
    requires i < |fields|
    ensures |Dumps(Obj(fields))| > |Dumps(fields[i].value)|
  {
    FieldsAtLeast(fields, i);
    DumpLength(fields);
  }

  lemma {:induction false} QuotedAtLeast(s: string)
    ensures |EscapeAll(s)| >= |s| && |Quoted(s)| >= |s| + 2
  {
    if s != [] {
      QuotedAtLeast(s[1..]);
    }
  }

  /** No character takes more than two escapes of six bytes. */
  lemma {:induction false} QuotedAtMost(s: string)
    ensures |EscapeAll(s)| <= 12 * |s| && |Quoted(s)| <= 12 * |s| + 2
  {
    if s != [] {
      QuotedAtMost(s[1..]);
      assert |Escape(s[0])| <= 12;
    }
  }

  lemma ValueField(key: string, v: Value)
    requires AllPlain(key)
    ensures FieldLength(Field(key, v)) == |key| + |Dumps(v)| + 4
  {
    PlainQuoted(key);
  }

  lemma StringField(key: string, value: string)
    requires AllPlain(key)
    requires AllPlain(value)
    ensures FieldLength(Field(key, Str(value))) == |key| + |value| + 6
  {
    PlainQuoted(key);
    PlainQuoted(value);
  }

  lemma NumberField(key: string, n: nat)
    requires AllPlain(key)
    requires n < WORD
    ensures FieldLength(Field(key, Num(n))) <= |key| + 24
  {
    PlainQuoted(key);
    WordLength(n);
  }

  lemma FieldsNext(f: seq<Field>, i: nat)
    requires i < |f|
    ensures FieldsLength(f[i..]) == FieldLength(f[i]) + FieldsLength(f[i + 1..])
  {
    assert f[i..][1..] == f[i + 1..];
  }

  lemma SixFields(f: seq<Field>)
    requires |f| == 6
    ensures FieldsLength(f) == FieldLength(f[0]) + FieldLength(f[1]) + FieldLength(f[2])
                             + FieldLength(f[3]) + FieldLength(f[4]) + FieldLength(f[5])
  {
    FieldsNext(f, 0);
    FieldsNext(f, 1);
    FieldsNext(f, 2);
    FieldsNext(f, 3);
    FieldsNext(f, 4);
    FieldsNext(f, 5);
    assert f[0..] == f && f[6..] == [];
  }

  lemma SixLength(a: Field, b: Field, c: Field, d: Field, e: Field, f: Field)
    ensures |Canonical(Obj([a, b, c, d, e, f]))| == FieldLength(a) + FieldLength(b) + FieldLength(c)
                                                  + FieldLength(d) + FieldLength(e) + FieldLength(f) + 2
  {
    SixFields([a, b, c, d, e, f]);
    DumpLength([a, b, c, d, e, f]);
  }
}
