/** `terminal_census`: every answer of the operating system is free, and every question asked and
    signal sent is kept in a trace. */
module TerminalCensus {
  import opened Basics
  import opened GroupLedger

  datatype Leader = Leader(group: int, birth: string)

  /** What a signal came to: sent, no such group, or refused. */
  datatype Sent = Delivered | Gone | Refused

  /** An answer of `None` is an error; a leader of `None` means that none is alive. */
  datatype Act =
    | Inspect(group: int, members: Option<seq<int>>)
    | Identify(group: int, leader: Option<Option<Leader>>)
    | Send(group: int, number: Signal, sent: Sent)

  datatype Item = Item(entry: Entry, before: Option<seq<int>>, after: Option<seq<int>>,
                       signals: seq<Signal>, errors: nat, terminal: bool)

  /** The identity that authorizes a signal to a registered group. */
  predicate Authorized(entry: Entry, a: Act) {
    && entry.birth.Some?
    && a == Identify(entry.group, Some(Some(Leader(entry.group, entry.birth.value))))
  }

  /** Acts on one group only, each signal right after its leader was found alive with the registered
      birth, and never to the launcher's own group. */
  predicate Guarded(entry: Entry, own: int, trace: seq<Act>) {
    && (forall i :: 0 <= i < |trace| ==> trace[i].group == entry.group)
    && (forall i :: 0 <= i < |trace| && trace[i].Send? ==>
          entry.group != own && i > 0 && Authorized(entry, trace[i - 1]))
  }

  /** An answered inspection, the registered leader found alive, a signal not refused. */
  predicate Fine(entry: Entry, a: Act) {
    match a
    case Inspect(_, members) => members.Some?
    case Identify(_, _) => Authorized(entry, a)
    case Send(_, _, sent) => sent != Refused
  }

  /** Nothing in the trace went wrong. */
  predicate Clean(entry: Entry, trace: seq<Act>) {
    forall i :: 0 <= i < |trace| ==> Fine(entry, trace[i])
  }

  lemma GuardedMore(entry: Entry, own: int, trace: seq<Act>, a: Act)
    requires Guarded(entry, own, trace) && a.group == entry.group
    requires a.Send? ==> entry.group != own && trace != [] && Authorized(entry, trace[|trace| - 1])
    ensures Guarded(entry, own, trace + [a])
    ensures Clean(entry, trace + [a]) <==> Clean(entry, trace) && Fine(entry, a)
  {
    assert (trace + [a])[|trace|] == a;
    assert forall i :: 0 <= i < |trace| ==> (trace + [a])[i] == trace[i];
  }

  lemma CleanConcat(entry: Entry, a: seq<Act>, b: seq<Act>)
    ensures Clean(entry, a + b) <==> Clean(entry, a) && Clean(entry, b)
  {
    assert forall i :: 0 <= i < |b| ==> (a + b)[|a| + i] == b[i];
    assert forall i :: 0 <= i < |a| ==> (a + b)[i] == a[i];
  }

  /** One round: the identity again, and if it still holds the signal and polls, up to the first that fails
      or finds the group empty. */
  predicate IsRound(entry: Entry, number: Signal, r: seq<Act>) {
    && r != [] && r[0].Identify?
    && if !Authorized(entry, r[0]) then |r| == 1
       else
         && |r| > 1 && r[1].Send? && r[1].number == number
         && forall i :: 2 <= i < |r| ==>
              r[i].Inspect? && (i < |r| - 1 ==> r[i].members.Some? && r[i].members != Some([]))
  }

  /** A round after which there is nothing more to do. */
  predicate Final(r: seq<Act>) {
    |r| == 1 || (r != [] && r[|r| - 1].Inspect? && r[|r| - 1].members == Some([]))
  }

  /** SIGTERM, and SIGKILL unless the first round was final. */
  predicate IsTermination(entry: Entry, trace: seq<Act>) {
    exists k :: 0 < k <= |trace| && IsRound(entry, Term, trace[..k])
                && if Final(trace[..k]) then k == |trace| else IsRound(entry, Kill, trace[k..])
  }

  /** Nothing for the own group or an empty one; otherwise the identity, and a termination if it holds. */
  predicate IsSettlement(entry: Entry, own: int, before: Option<seq<int>>, trace: seq<Act>) {
    if entry.group == own || before == Some([]) then trace == []
    else
      && trace != [] && trace[0].Identify?
      && if !Authorized(entry, trace[0]) then |trace| == 1 else IsTermination(entry, trace[1..])
  }

  function Signals(trace: seq<Act>): seq<Signal> {
    if trace == [] then []
    else
      var last := trace[|trace| - 1];
      Signals(trace[..|trace| - 1]) + (if last.Send? && last.sent == Delivered then [last.number] else [])
  }

  lemma SignalsMore(trace: seq<Act>, a: Act)
    ensures Signals(trace + [a]) == Signals(trace) + (if a.Send? && a.sent == Delivered then [a.number] else [])
  {
    assert (trace + [a])[..|trace|] == trace;
  }

  /** One group's record and the acts behind it: an error exactly for the own group or an act that went
      wrong. */
  predicate Recorded(entry: Entry, own: int, item: Item, trace: seq<Act>) {
    && item.entry == entry && Guarded(entry, own, trace)
    && |trace| >= 2 && trace[0] == Inspect(entry.group, item.before)
    && trace[|trace| - 1] == Inspect(entry.group, item.after)
    && IsSettlement(entry, own, item.before, trace[1..|trace| - 1])
    && item.signals == Signals(trace) && InOrder(item.signals)
    && (item.errors == 0 <==> Clean(entry, trace) && entry.group != own)
    && (item.terminal <==> item.after == Some([]) && item.errors == 0)
  }

  /** One round. */
  method Round(entry: Entry, number: Signal, own: int) returns (final: bool, errors: nat, trace: seq<Act>)
    requires entry.birth.Some? && entry.group != own
    ensures Guarded(entry, own, trace) && IsRound(entry, number, trace) && (final <==> Final(trace))
    ensures errors == 0 <==> Clean(entry, trace)
  {
    var g := entry.group;
    var leader: Option<Option<Leader>> := *;
    trace := [Identify(g, leader)];
    if leader != Some(Some(Leader(g, entry.birth.value))) {
      return true, 1, trace;
    }
    var sent: Sent := *;
    GuardedMore(entry, own, trace, Send(g, number, sent));
    trace := trace + [Send(g, number, sent)];
    errors, final := if sent == Refused then 1 else 0, false;
    var polls: nat := *;
    while polls > 0
      invariant Guarded(entry, own, trace) && |trace| > 1 && !final
      invariant trace[0] == Identify(g, leader) && trace[1] == Send(g, number, sent)
      invariant forall i :: 2 <= i < |trace| ==>
                  trace[i].Inspect? && trace[i].members.Some? && trace[i].members != Some([])
      invariant errors == 0 <==> Clean(entry, trace)
    {
      var observed: Option<seq<int>> := *;
      GuardedMore(entry, own, trace, Inspect(g, observed));
      trace := trace + [Inspect(g, observed)];
      if observed.None? {
        errors := errors + 1;
        break;
      }
      if observed == Some([]) {
        final := true;
        break;
      }
      polls := polls - 1;
    }
  }

  lemma {:induction false} SignalsConcat(a: seq<Act>, b: seq<Act>)
    ensures Signals(a + b) == Signals(a) + Signals(b)
  {
    if b == [] {
      assert a + b == a;
    } else {
      var init, last := b[..|b| - 1], b[|b| - 1];
      SignalsConcat(a, init);
      assert b == init + [last] && a + b == a + init + [last];
      OneSignalMore(a + b, a + init, last);
      OneSignalMore(b, init, last);
    }
  }

  lemma OneSignalMore(trace: seq<Act>, init: seq<Act>, last: Act)
    requires trace == init + [last]
    ensures Signals(trace) == Signals(init) + (if last.Send? && last.sent == Delivered then [last.number] else [])
  {
    SignalsMore(init, last);
  }

  lemma GuardedConcat(entry: Entry, own: int, a: seq<Act>, b: seq<Act>)
    requires Guarded(entry, own, a) && Guarded(entry, own, b)
    ensures Guarded(entry, own, a + b)
  {
    forall i | 0 <= i < |a + b| && (a + b)[i].Send?
      ensures entry.group != own && i > 0 && Authorized(entry, (a + b)[i - 1])
    {
      if i >= |a| {
        assert b[i - |a|].Send?;
      }
    }
  }

  /** SIGTERM, and SIGKILL if the group is still there. */
  method Terminate(entry: Entry, own: int) returns (errors: nat, trace: seq<Act>)
    requires entry.birth.Some? && entry.group != own
    ensures Guarded(entry, own, trace) && IsTermination(entry, trace)
    ensures errors == 0 <==> Clean(entry, trace)
  {
    var final;
    final, errors, trace := Round(entry, Term, own);
    if final {
      OneRound(entry, trace);
      return;
    }
    var more, rest;
    final, more, rest := Round(entry, Kill, own);
    GuardedConcat(entry, own, trace, rest);
    CleanConcat(entry, trace, rest);
    TwoRounds(entry, trace, rest);
    errors, trace := errors + more, trace + rest;
  }

  lemma OneRound(entry: Entry, r: seq<Act>)
    requires IsRound(entry, Term, r) && Final(r)
    ensures IsTermination(entry, r)
  {
    assert r[..|r|] == r;
  }

  lemma TwoRounds(entry: Entry, a: seq<Act>, b: seq<Act>)
    requires IsRound(entry, Term, a) && !Final(a) && IsRound(entry, Kill, b)
    ensures IsTermination(entry, a + b)
  {
    assert (a + b)[..|a|] == a && (a + b)[|a|..] == b;
  }

  /** SIGTERM, then SIGKILL, each at most once. */
  predicate InOrder(signals: seq<Signal>) {
    signals == [] || signals == [Term] || signals == [Kill] || signals == [Term, Kill]
  }

  lemma {:induction false} NoSignals(trace: seq<Act>)
    requires forall i :: 0 <= i < |trace| ==> !trace[i].Send?
    ensures Signals(trace) == []
  {
    if trace != [] {
      NoSignals(trace[..|trace| - 1]);
    }
  }

  lemma RoundSignals(entry: Entry, number: Signal, r: seq<Act>)
    requires IsRound(entry, number, r)
    ensures Signals(r) == [] || Signals(r) == [number]
  {
    if |r| == 1 {
      NoSignals(r);
    } else {
      NoSignals(r[2..]);
      NoSignals([r[0]]);
      SignalsMore([r[0]], r[1]);
      SignalsConcat([r[0]] + [r[1]], r[2..]);
      assert r == [r[0]] + [r[1]] + r[2..];
    }
  }

  lemma TerminationSignals(entry: Entry, trace: seq<Act>)
    requires IsTermination(entry, trace)
    ensures InOrder(Signals(trace))
  {
    var k :| 0 < k <= |trace| && IsRound(entry, Term, trace[..k])
             && if Final(trace[..k]) then k == |trace| else IsRound(entry, Kill, trace[k..]);
    RoundSignals(entry, Term, trace[..k]);
    assert trace == trace[..k] + trace[k..];
    SignalsConcat(trace[..k], trace[k..]);
    if k < |trace| {
      RoundSignals(entry, Kill, trace[k..]);
    }
  }

  lemma SettlementSignals(entry: Entry, own: int, before: Option<seq<int>>, trace: seq<Act>)
    requires IsSettlement(entry, own, before, trace)
    ensures InOrder(Signals(trace))
  {
    if trace != [] {
      assert trace == [trace[0]] + trace[1..];
      SignalsConcat([trace[0]], trace[1..]);
      NoSignals([trace[0]]);
      if |trace| > 1 {
        TerminationSignals(entry, trace[1..]);
      }
    }
  }

  /** Between the two inspections of a group. */
  method Settle(entry: Entry, own: int, before: Option<seq<int>>) returns (errors: nat, trace: seq<Act>)
    ensures Guarded(entry, own, trace) && IsSettlement(entry, own, before, trace)
    ensures errors == 0 <==> Clean(entry, trace) && entry.group != own
  {
    trace, errors := [], 0;
    if entry.group == own {
      errors := 1;
    } else if before != Some([]) {
      var leader: Option<Option<Leader>> := *;
      trace := [Identify(entry.group, leader)];
      if entry.birth.None? || leader != Some(Some(Leader(entry.group, entry.birth.value))) {
        errors := 1;
      } else {
        var more, rest := Terminate(entry, own);
        GuardedConcat(entry, own, trace, rest);
        CleanConcat(entry, trace, rest);
        assert (trace + rest)[1..] == rest;
        errors, trace := more, trace + rest;
      }
    }
  }

  lemma Framed(entry: Entry, own: int, before: Option<seq<int>>, middle: seq<Act>, after: Option<seq<int>>)
    requires Guarded(entry, own, middle)
    ensures var trace := [Inspect(entry.group, before)] + middle + [Inspect(entry.group, after)];
            && Guarded(entry, own, trace) && Signals(trace) == Signals(middle) && trace[1..|trace| - 1] == middle
            && (Clean(entry, trace) <==> Clean(entry, middle) && before.Some? && after.Some?)
  {
    var first, last := [Inspect(entry.group, before)], [Inspect(entry.group, after)];
    SignalsConcat(first, middle);
    SignalsConcat(first + middle, last);
    GuardedConcat(entry, own, first, middle);
    GuardedConcat(entry, own, first + middle, last);
    CleanConcat(entry, first, middle);
    CleanConcat(entry, first + middle, last);
    OnlyFine(entry, first[0]);
    OnlyFine(entry, last[0]);
  }

  lemma OnlyFine(entry: Entry, a: Act)
    ensures Clean(entry, [a]) <==> Fine(entry, a)
  {
    assert [a][0] == a;
  }

  method CensusGroup(entry: Entry, own: int) returns (item: Item, trace: seq<Act>)
    ensures Recorded(entry, own, item, trace)
  {
    var before: Option<seq<int>> := *;
    var errors, middle := Settle(entry, own, before);
    var after: Option<seq<int>> := *;
    Framed(entry, own, before, middle, after);
    trace := [Inspect(entry.group, before)] + middle + [Inspect(entry.group, after)];
    SettlementSignals(entry, own, before, middle);
    errors := errors + (if before.None? then 1 else 0) + (if after.None? then 1 else 0);
    item := Item(entry, before, after, Signals(middle), errors, after == Some([]) && errors == 0);
  }

  function Entries(rows: seq<Row>): seq<Entry> {
    if rows == [] then []
    else Entries(rows[..|rows| - 1]) + (if rows[|rows| - 1].Group? then [rows[|rows| - 1].entry] else [])
  }

  /** Every signal in a whole census, as in one group's. */
  predicate SignalsGuarded(entries: seq<Entry>, own: int, trace: seq<Act>) {
    forall i :: 0 <= i < |trace| && trace[i].Send? ==>
      && trace[i].group != own && i > 0
      && exists e :: e in entries && e.group == trace[i].group && Authorized(e, trace[i - 1])
  }

  /** The last thing done to a group was to find it empty. */
  predicate LeftEmpty(group: int, trace: seq<Act>) {
    exists i :: 0 <= i < |trace| && trace[i] == Inspect(group, Some([]))
                && forall j :: i < j < |trace| ==> trace[j].group != group
  }

  ghost function Joined(parts: seq<seq<Act>>): seq<Act> {
    if parts == [] then [] else Joined(parts[..|parts| - 1]) + parts[|parts| - 1]
  }

  lemma JoinedMore(parts: seq<seq<Act>>, more: seq<Act>)
    ensures Joined(parts + [more]) == Joined(parts) + more
  {
    assert (parts + [more])[..|parts|] == parts;
  }

  datatype Census = Census(closed: bool, items: seq<Item>, complete: bool)

  predicate Distinct(entries: seq<Entry>) {
    forall i, j :: 0 <= i < j < |entries| ==> entries[i].group != entries[j].group
  }

  lemma LeftEmptyLater(group: int, trace: seq<Act>, more: seq<Act>)
    requires LeftEmpty(group, trace) && forall i :: 0 <= i < |more| ==> more[i].group != group
    ensures LeftEmpty(group, trace + more)
  {
    var i :| && 0 <= i < |trace| && trace[i] == Inspect(group, Some([]))
             && forall j :: i < j < |trace| ==> trace[j].group != group;
    assert (trace + more)[i] == Inspect(group, Some([]));
    forall j | i < j < |trace + more|
      ensures (trace + more)[j].group != group
    {
    }
  }

  lemma LeftEmptyNow(entry: Entry, own: int, item: Item, trace: seq<Act>, more: seq<Act>)
    requires Recorded(entry, own, item, more) && item.terminal
    ensures LeftEmpty(entry.group, trace + more)
  {
    var n := |trace + more| - 1;
    assert (trace + more)[n] == Inspect(entry.group, Some([]));
  }

  lemma SignalsGuardedMore(entries: seq<Entry>, own: int, trace: seq<Act>, entry: Entry, more: seq<Act>)
    requires SignalsGuarded(entries, own, trace) && entry in entries && Guarded(entry, own, more)
    ensures SignalsGuarded(entries, own, trace + more)
  {
    var all := trace + more;
    forall i | 0 <= i < |all| && all[i].Send?
      ensures && all[i].group != own && i > 0
              && exists e :: e in entries && e.group == all[i].group && Authorized(e, all[i - 1])
    {
      if i >= |trace| {
        assert more[i - |trace|] == all[i] && more[i - |trace| - 1] == all[i - 1];
        assert Authorized(entry, all[i - 1]);
      }
    }
  }

  /** The groups done so far: their records, their acts, and the empty ones. */
  ghost predicate Progress(entries: seq<Entry>, own: int, items: seq<Item>, parts: seq<seq<Act>>, trace: seq<Act>) {
    && |items| == |parts| <= |entries| && trace == Joined(parts) && SignalsGuarded(entries, own, trace)
    && (forall i :: 0 <= i < |parts| ==> Recorded(entries[i], own, items[i], parts[i]))
    && (forall i :: 0 <= i < |trace| ==> InGroups(entries, |items|, trace[i]))
    && (forall i :: 0 <= i < |items| && items[i].terminal ==> LeftEmpty(entries[i].group, trace))
  }

  ghost predicate InGroups(entries: seq<Entry>, k: nat, a: Act) {
    exists j :: 0 <= j < k <= |entries| && a.group == entries[j].group
  }

  lemma KnownGroups(entries: seq<Entry>, k: nat, trace: seq<Act>, more: seq<Act>)
    requires k < |entries| && (forall i :: 0 <= i < |trace| ==> InGroups(entries, k, trace[i]))
    requires forall i :: 0 <= i < |more| ==> more[i].group == entries[k].group
    ensures forall i :: 0 <= i < |trace + more| ==> InGroups(entries, k + 1, (trace + more)[i])
  {
    forall i | 0 <= i < |trace + more|
      ensures InGroups(entries, k + 1, (trace + more)[i])
    {
      if i < |trace| {
        assert InGroups(entries, k, trace[i]);
      } else {
        assert more[i - |trace|].group == entries[k].group;
      }
    }
  }

  lemma ProgressMore(entries: seq<Entry>, own: int, items: seq<Item>, parts: seq<seq<Act>>, trace: seq<Act>, item: Item,
                     more: seq<Act>)
    requires Distinct(entries) && Progress(entries, own, items, parts, trace) && |items| < |entries|
    requires Recorded(entries[|items|], own, item, more)
    ensures Progress(entries, own, items + [item], parts + [more], trace + more)
  {
    var k := |items|;
    JoinedMore(parts, more);
    SignalsGuardedMore(entries, own, trace, entries[k], more);
    KnownGroups(entries, k, trace, more);
    EmptyMore(entries, own, items, trace, item, more);
  }

  lemma EmptyMore(entries: seq<Entry>, own: int, items: seq<Item>, trace: seq<Act>, item: Item, more: seq<Act>)
    requires Distinct(entries) && |items| < |entries| && Recorded(entries[|items|], own, item, more)
    requires forall i :: 0 <= i < |items| && items[i].terminal ==> LeftEmpty(entries[i].group, trace)
    ensures var next := items + [item];
            forall i :: 0 <= i < |next| && next[i].terminal ==> LeftEmpty(entries[i].group, trace + more)
  {
    var k, next := |items|, items + [item];
    forall i | 0 <= i < |next| && next[i].terminal
      ensures LeftEmpty(entries[i].group, trace + more)
    {
      if i < k {
        LeftEmptyLater(entries[i].group, trace, more);
      } else {
        LeftEmptyNow(entries[k], own, item, trace, more);
      }
    }
  }

  /** A complete census found the ledger closed and every registered group empty, after the last
      signal it sent to it; and no signal, in any census, was sent but to a registered group whose
      leader had just been seen alive with its registered birth. */
  method Take(rows: seq<Row>, own: int) returns (census: Census, trace: seq<Act>, ghost parts: seq<seq<Act>>)
    requires Shape(rows)
    ensures census.closed <==> IsClosed(rows)
    ensures |census.items| == |Entries(rows)| == |parts| && trace == Joined(parts)
    ensures forall i :: 0 <= i < |parts| ==> Recorded(Entries(rows)[i], own, census.items[i], parts[i])
    ensures SignalsGuarded(Entries(rows), own, trace)
    ensures census.complete <==> census.closed && forall i :: 0 <= i < |census.items| ==> census.items[i].terminal
    ensures census.complete ==> forall i :: 0 <= i < |Entries(rows)| ==> LeftEmpty(Entries(rows)[i].group, trace)
  {
    var entries := Entries(rows);
    EntriesDistinct(rows);
    var items: seq<Item> := [];
    var all := true;
    trace, parts := [], [];
    for k := 0 to |entries|
      invariant |items| == k && Progress(entries, own, items, parts, trace)
      invariant all <==> forall i :: 0 <= i < k ==> items[i].terminal
    {
      var item, more := CensusGroup(entries[k], own);
      ProgressMore(entries, own, items, parts, trace, item, more);
      items, trace, all, parts := items + [item], trace + more, all && item.terminal, parts + [more];
    }
    census := Census(IsClosed(rows), items, IsClosed(rows) && all);
  }

  lemma {:induction false} EntriesDistinct(rows: seq<Row>)
    requires Shape(rows)
    ensures Distinct(Entries(rows))
    ensures forall e :: e in Entries(rows) <==> Group(e) in rows
  {
    if rows != [] {
      var before, last := rows[..|rows| - 1], rows[|rows| - 1];
      ShapePrefix(rows, |rows| - 1);
      EntriesDistinct(before);
      assert rows == before + [last];
      if last.Group? {
        forall i | 0 <= i < |Entries(before)|
          ensures Entries(before)[i].group != last.entry.group
        {
          assert Group(Entries(before)[i]) in before;
        }
      }
    }
  }
}
