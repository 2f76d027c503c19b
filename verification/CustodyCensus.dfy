/** The seal and the census together: what a complete terminal census has seen. */
module CustodyCensus {
  import opened GroupLedger
  import opened CustodyMachine
  import opened CustodySeal
  import opened TerminalCensus

  ghost predicate SawEmpty(rows: seq<Row>, trace: seq<Act>) {
    forall i :: 0 <= i < |Entries(rows)| ==> LeftEmpty(Entries(rows)[i].group, trace)
  }

  lemma NamedSeen(rows: seq<Row>, trace: seq<Act>, group: int)
    requires Shape(rows) && SawEmpty(rows, trace) && Names(rows, group)
    ensures LeftEmpty(group, trace)
  {
    var i :| 0 <= i < |rows| && rows[i].Group? && rows[i].entry.group == group;
    EntriesDistinct(rows);
    assert Group(rows[i].entry) in rows;
    assert rows[i].entry in Entries(rows);
    var k :| 0 <= k < |Entries(rows)| && Entries(rows)[k] == rows[i].entry;
  }

  /** Whatever happened before the seal and whatever happens after it, a complete census of the
      sealed ledger found every group started under it empty, but for those whose admission failed
      and whose own spawner answers for them. No group starts once the ledger is sealed. */
  lemma CompleteCensusCovers(width: Row -> nat, events: seq<Event>, n: nat, trace: seq<Act>, id: nat)
    requires n <= |events| && Run(width, events).Some?
    requires Run(width, events[..n]).Some? && Run(width, events[..n]).value.sealer.Sealed?
    requires SawEmpty(Run(width, events[..n]).value.rows, trace)
    ensures var phase := PhaseOf(Run(width, events).value, id);
            GroupOf(phase).Some? ==> LeftEmpty(GroupOf(phase).value, trace) || Answerable(phase)
    ensures var phase := PhaseOf(Run(width, events).value, id);
            Published(phase) ==> GroupOf(phase).Some? && LeftEmpty(GroupOf(phase).value, trace)
  {
    var s := Run(width, events).value;
    AfterSeal(width, events, n);
    RunKeeps(width, events);
    SealedCovers(width, events, id);
    assert PhaseHolds(width, s, id);
    var phase := PhaseOf(s, id);
    if GroupOf(phase).Some? && Names(s.rows, GroupOf(phase).value) {
      NamedSeen(s.rows, trace, GroupOf(phase).value);
    }
  }

  /** A census of the sealed rows that calls itself complete has seen all of that. */
  method CensusOfSealed(width: Row -> nat, ghost events: seq<Event>, ghost n: nat, rows: seq<Row>, own: int)
      returns (census: Census, trace: seq<Act>)
    requires n <= |events| && Run(width, events).Some?
    requires Run(width, events[..n]).Some? && Run(width, events[..n]).value.sealer.Sealed?
    requires rows == Run(width, events[..n]).value.rows
    ensures SignalsGuarded(Entries(rows), own, trace)
    ensures census.complete ==> forall id: nat ::
              var phase := PhaseOf(Run(width, events).value, id);
              && (GroupOf(phase).Some? ==> LeftEmpty(GroupOf(phase).value, trace) || Answerable(phase))
              && (Published(phase) ==> GroupOf(phase).Some? && LeftEmpty(GroupOf(phase).value, trace))
  {
    RunKeeps(width, events[..n]);
    ghost var parts;
    census, trace, parts := Take(rows, own);
    if census.complete {
      forall id: nat
        ensures var phase := PhaseOf(Run(width, events).value, id);
                && (GroupOf(phase).Some? ==> LeftEmpty(GroupOf(phase).value, trace) || Answerable(phase))
                && (Published(phase) ==> GroupOf(phase).Some? && LeftEmpty(GroupOf(phase).value, trace))
      {
        CompleteCensusCovers(width, events, n, trace, id);
      }
    }
  }
}
