/** What the seal decides, and how the reservation keeps the ledger readable. */
module CustodySeal {
  import opened Basics
  import opened GroupLedger
  import opened CustodyMachine

  // -------------------------------------------------------------- after seal

  lemma AfterSealStep(width: Row -> nat, s: State, e: Event, t: State)
    requires Inv(width, s) && s.sealer.Sealed? && Step(width, s, e) == Some(t)
    ensures t.rows == s.rows && t.torn == s.torn && t.sealer.Sealed?
    ensures forall id :: GroupOf(PhaseOf(t, id)) == GroupOf(PhaseOf(s, id))
  {
    if !e.SealLock? && !e.SealAppend? {
      assert PhaseHolds(width, s, e.id);
      QuietLock(width, s, e, t);
      QuietOwn(width, s, e, t);
    }
  }

  /** Once sealed, the ledger never changes again, and no process is even started under it: every
      spawner has the group it had at the seal, or none. */
  lemma {:induction false} AfterSeal(width: Row -> nat, events: seq<Event>, n: nat)
    requires n <= |events| && Run(width, events).Some?
    requires Run(width, events[..n]).Some? && Run(width, events[..n]).value.sealer.Sealed?
    ensures var s, t := Run(width, events[..n]).value, Run(width, events).value;
            && t.rows == s.rows && !t.torn && t.sealer.Sealed?
            && forall id :: GroupOf(PhaseOf(t, id)) == GroupOf(PhaseOf(s, id))
    decreases |events|
  {
    if n == |events| {
      assert events[..n] == events;
      RunKeeps(width, events);
    } else {
      var before := events[..|events| - 1];
      assert before[..n] == events[..n];
      AfterSeal(width, before, n);
      RunKeeps(width, before);
      AfterSealStep(width, Run(width, before).value, events[|events| - 1], Run(width, events).value);
    }
  }

  /** A spawner still answerable for a group the ledger does not name: its admission failed and it
      drains the group itself, or it was killed before it could. */
  predicate Answerable(phase: Phase) {
    phase.Failed? || (phase.Drained? && !phase.published) || (phase.Killed? && !phase.published)
  }

  /** At the seal every started group is in the ledger or answered for by its own spawner. */
  lemma SealedCovers(width: Row -> nat, events: seq<Event>, id: nat)
    requires Run(width, events).Some? && Run(width, events).value.sealer.Sealed?
    ensures var s := Run(width, events).value;
            GroupOf(PhaseOf(s, id)).Some? ==>
              Names(s.rows, GroupOf(PhaseOf(s, id)).value) || Answerable(PhaseOf(s, id))
  {
    RunKeeps(width, events);
    assert PhaseHolds(width, Run(width, events).value, id);
  }

  // ---------------------------------------------------------------- capacity

  /** A row that fits what one admission reserves, with the closure to come. */
  predicate Fits(width: Row -> nat, entry: Entry) {
    width(Group(entry)) + width(Closed) <= RESERVE
  }

  /** Every admission reserves, and no group number is registered already. */
  ghost predicate Reserved(width: Row -> nat, s: State, e: Event) {
    && (e.Lock? ==> e.reserve)
    && (e.Popen? ==> Fits(width, e.entry) && !Names(s.rows, e.entry.group))
  }

  ghost predicate AllReserved(width: Row -> nat, events: seq<Event>) {
    forall i :: 0 <= i < |events| && Run(width, events[..i]).Some? ==>
      Reserved(width, Run(width, events[..i]).value, events[i])
  }

  ghost predicate RoomFor(width: Row -> nat, s: State, id: nat) {
    var phase := PhaseOf(s, id);
    && (InLock(phase) ==> Total(width, s.rows) + RESERVE <= MAX_LEDGER_BYTES)
    && (phase.Spawned? ==> Fits(width, phase.entry) && !Names(s.rows, phase.entry.group))
  }

  ghost predicate Room(width: Row -> nat, s: State) {
    && Shape(s.rows)
    && Total(width, s.rows) + (if IsClosed(s.rows) then 0 else width(Closed)) <= MAX_LEDGER_BYTES
    && forall id :: RoomFor(width, s, id)
  }

  lemma RoomStep(width: Row -> nat, s: State, e: Event, t: State)
    requires Inv(width, s) && Room(width, s) && Reserved(width, s, e) && Step(width, s, e) == Some(t)
    ensures Room(width, t)
  {
    if e.SealLock? || e.SealAppend? {
      RoomSeal(width, s, e, t);
    } else if Quiet(e, PhaseOf(s, e.id)) {
      QuietLock(width, s, e, t);
      RoomOwn(width, s, e, t);
      forall id ensures RoomFor(width, t, id) {
        assert RoomFor(width, s, id);
      }
    } else {
      RoomWrite(width, s, e, t);
    }
  }

  lemma RoomSeal(width: Row -> nat, s: State, e: Event, t: State)
    requires Inv(width, s) && Room(width, s) && Step(width, s, e) == Some(t) && (e.SealLock? || e.SealAppend?)
    ensures Room(width, t)
  {
    assert t.phases == s.phases;
    if t.rows == s.rows {
      forall id ensures RoomFor(width, t, id) {
        assert RoomFor(width, s, id);
      }
    } else {
      ShapeMore(s.rows, Closed);
      TotalMore(width, s.rows, Closed);
      forall id ensures RoomFor(width, t, id) {
        assert PhaseHolds(width, s, id) && PhaseOf(t, id) == PhaseOf(s, id);
      }
    }
  }

  lemma RoomOwn(width: Row -> nat, s: State, e: Event, t: State)
    requires !e.SealLock? && !e.SealAppend? && RoomFor(width, s, e.id) && Quiet(e, PhaseOf(s, e.id))
    requires Reserved(width, s, e) && Step(width, s, e) == Some(t)
    ensures RoomFor(width, t, e.id)
  {
    QuietLock(width, s, e, t);
  }

  lemma RoomWrite(width: Row -> nat, s: State, e: Event, t: State)
    requires Inv(width, s) && Room(width, s) && Step(width, s, e) == Some(t)
    requires (e.Append? || e.Kill?) && PhaseOf(s, e.id).Spawned?
    ensures Room(width, t)
  {
    assert PhaseHolds(width, s, e.id) && RoomFor(width, s, e.id);
    var row := Group(PhaseOf(s, e.id).entry);
    WritingPhase(width, s, e, t);
    ShapeMore(s.rows, row);
    TotalMore(width, s.rows, row);
    forall id ensures RoomFor(width, t, id) {
      if id != e.id {
        assert PhaseHolds(width, s, id);
        RoomOther(width, s, e.id, t, id);
      }
    }
  }

  /** Only one spawner is inside the lock. */
  lemma RoomOther(width: Row -> nat, s: State, own: nat, t: State, id: nat)
    requires PhaseHolds(width, s, id) && PhaseHolds(width, s, own) && PhaseOf(s, own).Spawned?
    requires id != own && PhaseOf(t, id) == PhaseOf(s, id)
    ensures RoomFor(width, t, id)
  {
    assert !InLock(PhaseOf(s, id));
  }

  /** When every admission reserves its row and the closure, whatever else happens the whole rows
      stay in shape and the ledger with its closure stays within the limit; so unless a write was
      cut short every reader accepts it, the census after the seal included. */
  lemma {:induction false} ReservedReadable(width: Row -> nat, events: seq<Event>)
    requires width(Closed) <= MAX_LEDGER_BYTES
    requires Run(width, events).Some? && AllReserved(width, events)
    ensures var s := Run(width, events).value;
            Room(width, s) && (!s.torn ==> Readable(width, s.rows, s.torn))
  {
    if events != [] {
      var n := |events| - 1;
      var before := events[..n];
      forall i | 0 <= i < n
        ensures before[..i] == events[..i] && before[i] == events[i]
      {
      }
      assert Reserved(width, Run(width, events[..n]).value, events[n]);
      ReservedReadable(width, before);
      RunKeeps(width, before);
      RoomStep(width, Run(width, before).value, events[n], Run(width, events).value);
    }
  }

  /** Without a reservation an admission keeps the ledger readable exactly when its row fits and
      its group is new; and a seal does exactly when the closure fits. */
  lemma UnreservedExact(width: Row -> nat, rows: seq<Row>, entry: Entry)
    requires Readable(width, rows, false) && !IsClosed(rows) && ValidEntry(entry)
    ensures Readable(width, rows + [Group(entry)], false) <==>
              !Names(rows, entry.group) && Total(width, rows) + width(Group(entry)) <= MAX_LEDGER_BYTES
    ensures Readable(width, rows + [Closed], false) <==> Total(width, rows) + width(Closed) <= MAX_LEDGER_BYTES
  {
    ShapeMore(rows, Group(entry));
    ShapeMore(rows, Closed);
    TotalMore(width, rows, Group(entry));
    TotalMore(width, rows, Closed);
  }

  // ---------------------------------------- what `gate_process.run` leaves open

  function Sample(k: nat): Entry {
    Entry(k + 1, 1, Zeros(64), None)
  }

  function Samples(n: nat): (rows: seq<Row>)
    ensures |rows| == n && forall i :: 0 <= i < n ==> rows[i] == Group(Sample(i))
  {
    if n == 0 then [] else Samples(n - 1) + [Group(Sample(n - 1))]
  }

  function Admission(k: nat): seq<Event> {
    [Lock(k, false), Popen(k, Sample(k)), Append(k, Whole, true), Release(k)]
  }

  function Admissions(n: nat): seq<Event> {
    if n == 0 then [] else Admissions(n - 1) + Admission(n - 1)
  }

  function Admitting(n: nat): (phases: map<nat, Phase>)
    ensures forall k: nat :: k in phases <==> k < n
  {
    if n == 0 then map[] else Admitting(n - 1)[n - 1 := Running(Sample(n - 1))]
  }

  lemma AdmissionSteps(width: Row -> nat, s: State, id: nat, entry: Entry)
    requires Open(width, s) && s.lock.None? && PhaseOf(s, id) == Idle && ValidEntry(entry)
    ensures var locked := Put(s, id, Admitted).(lock := Some(Spawner(id)));
            var spawned := Put(locked, id, Spawned(entry));
            var published := Put(Write(spawned, Group(entry), Whole), id, Running(entry));
            && Step(width, s, Lock(id, false)) == Some(locked)
            && Step(width, locked, Popen(id, entry)) == Some(spawned)
            && Step(width, spawned, Append(id, Whole, true)) == Some(published)
            && Step(width, published, Release(id)) == Some(published.(lock := None))
            && published.phases == s.phases[id := Running(entry)]
  {
  }

  lemma AdmissionRuns(width: Row -> nat, events: seq<Event>, s: State, id: nat, entry: Entry)
    requires Run(width, events) == Some(s) && Open(width, s) && s.lock.None? && PhaseOf(s, id) == Idle
    requires ValidEntry(entry)
    ensures Run(width, events + [Lock(id, false), Popen(id, entry), Append(id, Whole, true), Release(id)])
         == Some(State(s.rows + [Group(entry)], s.torn, None, s.phases[id := Running(entry)], s.sealer))
  {
    AdmissionSteps(width, s, id, entry);
    var locked := Put(s, id, Admitted).(lock := Some(Spawner(id)));
    var spawned := Put(locked, id, Spawned(entry));
    RunTwo(width, events, Lock(id, false), Popen(id, entry), s, locked, spawned);
    var published := Put(Write(spawned, Group(entry), Whole), id, Running(entry));
    RunTwo(width, events + [Lock(id, false), Popen(id, entry)], Append(id, Whole, true), Release(id),
           spawned, published, published.(lock := None));
    assert events + [Lock(id, false), Popen(id, entry), Append(id, Whole, true), Release(id)]
        == events + [Lock(id, false), Popen(id, entry)] + [Append(id, Whole, true), Release(id)];
  }

  lemma RunTwo(width: Row -> nat, events: seq<Event>, d: Event, e: Event, s: State, t: State, u: State)
    requires Run(width, events) == Some(s) && Step(width, s, d) == Some(t) && Step(width, t, e) == Some(u)
    ensures Run(width, events + [d, e]) == Some(u)
  {
    RunMore(width, events, d);
    RunMore(width, events + [d], e);
    assert events + [d] + [e] == events + [d, e];
  }

  lemma RunMore(width: Row -> nat, events: seq<Event>, e: Event)
    requires Run(width, events).Some?
    ensures Run(width, events + [e]) == Step(width, Run(width, events).value, e)
  {
    assert (events + [e])[..|events|] == events;
  }

  function Filled(n: nat): State {
    State(Samples(n), false, None, Admitting(n), Unsealed)
  }

  lemma SamplesShape(n: nat)
    ensures Shape(Samples(n)) && !IsClosed(Samples(n))
  {
  }

  lemma FillMore(width: Row -> nat, n: nat)
    requires Run(width, Admissions(n)) == Some(Filled(n)) && Total(width, Samples(n)) <= MAX_LEDGER_BYTES
    ensures Run(width, Admissions(n + 1)) == Some(Filled(n + 1))
  {
    SamplesShape(n);
    AdmissionRuns(width, Admissions(n), Filled(n), n, Sample(n));
  }

  /** Admissions without a reservation, all of new groups and with nothing torn, do reach a ledger
      that no reader accepts. */
  lemma {:induction false} UnreservedOverflows(width: Row -> nat, n: nat) returns (m: nat)
    requires forall k: nat :: width(Group(Sample(k))) > 0
    requires Run(width, Admissions(n)) == Some(Filled(n)) && Total(width, Samples(n)) <= MAX_LEDGER_BYTES
    ensures Run(width, Admissions(m)) == Some(Filled(m))
    ensures Shape(Filled(m).rows) && !Readable(width, Filled(m).rows, Filled(m).torn)
    decreases MAX_LEDGER_BYTES - Total(width, Samples(n))
  {
    FillMore(width, n);
    TotalMore(width, Samples(n), Group(Sample(n)));
    if Total(width, Samples(n + 1)) > MAX_LEDGER_BYTES {
      SamplesShape(n + 1);
      m := n + 1;
    } else {
      m := UnreservedOverflows(width, n + 1);
    }
  }
}
