/** The process group ledger: its rows, and when its readers accept them. */
module GroupLedger {
  import opened Basics

  /** One registered group: who started it, from which bytes, and when its leader was born. */
  datatype Entry = Entry(group: int, owner: int, executable: string, birth: Option<string>)

  datatype Row = Group(entry: Entry) | Closed

  const MAX_LEDGER_BYTES := 65536

  /** What an admission that reserves leaves for its row and the closure. */
  const RESERVE := 512

  predicate Digits(s: string) {
    s != [] && forall i :: 0 <= i < |s| ==> '0' <= s[i] <= '9'
  }

  /** `linux:N` or `darwin:N:N`. */
  predicate Birth(s: string) {
    || ("linux:" <= s && Digits(s[6..]))
    || ("darwin:" <= s && exists k :: 7 <= k < |s| && s[k] == ':' && Digits(s[7..k]) && Digits(s[k + 1..]))
  }

  /** A system's name, then its numbers after colons: one for Linux, two for Darwin. */
  lemma BirthExactly(s: string)
    ensures Birth(s) <==>
              || (exists a :: Digits(a) && s == "linux:" + a)
              || (exists a, b :: Digits(a) && Digits(b) && s == "darwin:" + a + ":" + b)
  {
    if a :| Digits(a) && s == "linux:" + a {
      assert s[6..] == a;
    }
    if "linux:" <= s && Digits(s[6..]) {
      assert s == "linux:" + s[6..];
    }
    if a, b :| Digits(a) && Digits(b) && s == "darwin:" + a + ":" + b {
      TwoNumbers("darwin:", a, b);
    }
    if "darwin:" <= s {
      if k :| 7 <= k < |s| && s[k] == ':' && Digits(s[7..k]) && Digits(s[k + 1..]) {
        NumbersOf("darwin:", s, k);
      }
    }
  }

  lemma TwoNumbers(system: string, a: string, b: string)
    ensures var s, k := system + a + ":" + b, |system| + |a|;
            system <= s && k < |s| && s[k] == ':' && s[|system|..k] == a && s[k + 1..] == b
  {
  }

  lemma NumbersOf(system: string, s: string, k: nat)
    requires system <= s && |system| <= k < |s| && s[k] == ':'
    ensures s == system + s[|system|..k] + ":" + s[k + 1..]
  {
  }

  /** A digit from end to end. */
  lemma DigitsExactly(s: string)
    ensures Digits(s) <==> |s| > 0 && s[0] in "0123456789" && (|s| > 1 ==> Digits(s[1..]))
  {
    if |s| > 1 && Digits(s[1..]) && s[0] in "0123456789" {
      assert forall i :: 1 <= i < |s| ==> s[i] == s[1..][i - 1];
    }
  }

  predicate ValidEntry(e: Entry) {
    && e.group > 0 && e.owner > 0 && Digest(e.executable)
    && (e.birth.Some? ==> Birth(e.birth.value))
  }

  predicate ValidRow(row: Row) {
    row.Group? ==> ValidEntry(row.entry)
  }

  /** Groups, each once, then at most one closure. */
  predicate Shape(rows: seq<Row>) {
    && (forall i :: 0 <= i < |rows| ==> ValidRow(rows[i]))
    && (forall i :: 0 <= i < |rows| - 1 ==> rows[i].Group?)
    && (forall i, j :: 0 <= i < j < |rows| && rows[i].Group? && rows[j].Group? ==>
        rows[i].entry.group != rows[j].entry.group)
  }

  predicate IsClosed(rows: seq<Row>) {
    rows != [] && rows[|rows| - 1].Closed?
  }

  ghost predicate Names(rows: seq<Row>, group: int) {
    exists i :: 0 <= i < |rows| && rows[i].Group? && rows[i].entry.group == group
  }

  /** The loop of `_group_ledger_rows` over decoded rows. */
  method CheckRows(rows: seq<Row>) returns (accepted: bool, closed: bool)
    ensures accepted <==> Shape(rows)
    ensures accepted ==> (closed <==> IsClosed(rows))
  {
    var groups: set<int> := {};
    closed := false;
    for i := 0 to |rows|
      invariant Shape(rows[..i])
      invariant closed <==> IsClosed(rows[..i])
      invariant forall g :: g in groups <==> Names(rows[..i], g)
    {
      assert rows[..i + 1] == rows[..i] + [rows[i]];
      match rows[i]
      case Group(e) =>
        if closed || !ValidEntry(e) || e.group in groups {
          return false, closed;
        }
        NamesMore(rows[..i], rows[i]);
        groups := groups + {e.group};
      case Closed =>
        if closed {
          return false, closed;
        }
        NamesMore(rows[..i], rows[i]);
        closed := true;
    }
    assert rows[..|rows|] == rows;
    accepted := true;
  }

  lemma NamesMore(rows: seq<Row>, row: Row)
    ensures forall g :: Names(rows + [row], g) <==> Names(rows, g) || (row.Group? && row.entry.group == g)
  {
    forall g
      ensures Names(rows + [row], g) <==> Names(rows, g) || (row.Group? && row.entry.group == g)
    {
      if Names(rows, g) {
        var i :| 0 <= i < |rows| && rows[i].Group? && rows[i].entry.group == g;
        assert (rows + [row])[i].entry.group == g;
      }
      if row.Group? && row.entry.group == g {
        assert (rows + [row])[|rows|].entry.group == g;
      }
    }
  }

  /** Exactly which rows may follow an accepted ledger. */
  lemma ShapeMore(rows: seq<Row>, row: Row)
    requires Shape(rows)
    ensures Shape(rows + [row]) <==>
              ValidRow(row) && !IsClosed(rows) && (row.Group? ==> !Names(rows, row.entry.group))
  {
    var all := rows + [row];
    assert all[|rows|] == row;
    assert forall i :: 0 <= i < |rows| ==> all[i] == rows[i];
    if IsClosed(rows) {
      assert all[|rows| - 1].Closed?;
    }
    if row.Group? && Names(rows, row.entry.group) {
      var i :| 0 <= i < |rows| && rows[i].Group? && rows[i].entry.group == row.entry.group;
      assert all[i].entry.group == all[|rows|].entry.group;
    }
  }

  lemma ShapePrefix(rows: seq<Row>, n: nat)
    requires Shape(rows) && n <= |rows|
    ensures Shape(rows[..n])
  {
  }

  // ------------------------------------------------------------------ length

  /** Total length of the rows, each as long as `width` says. */
  function Total(width: Row -> nat, rows: seq<Row>): nat {
    if rows == [] then 0 else Total(width, rows[..|rows| - 1]) + width(rows[|rows| - 1])
  }

  lemma TotalMore(width: Row -> nat, rows: seq<Row>, row: Row)
    ensures Total(width, rows + [row]) == Total(width, rows) + width(row)
  {
    assert (rows + [row])[..|rows|] == rows;
  }

  lemma {:induction false} WithinTotal(width: Row -> nat, rows: seq<Row>, i: nat)
    requires i < |rows|
    ensures width(rows[i]) <= Total(width, rows)
  {
    if i < |rows| - 1 {
      WithinTotal(width, rows[..|rows| - 1], i);
    }
  }

  /** What a reader under the lock needs: whole rows, in shape, within the limit. */
  predicate Readable(width: Row -> nat, rows: seq<Row>, torn: bool) {
    !torn && Shape(rows) && Total(width, rows) <= MAX_LEDGER_BYTES
  }
}
