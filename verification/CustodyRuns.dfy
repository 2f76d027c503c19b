/** Runs of the custody machine that can happen, and what no later step takes back. */
module CustodyRuns {
  import opened Basics
  import opened GroupLedger
  import opened CustodyMachine

  // ------------------------------------------------------------- published groups

  lemma StepPublished(width: Row -> nat, s: State, e: Event, t: State, id: nat)
    requires Step(width, s, e) == Some(t) && Published(PhaseOf(s, id))
    ensures Published(PhaseOf(t, id)) && GroupOf(PhaseOf(t, id)) == GroupOf(PhaseOf(s, id))
  {
    if e.SealLock? || e.SealAppend? {
      assert t.phases == s.phases;
    } else if e.id != id {
      assert PhaseOf(t, id) == PhaseOf(s, id);
    }
  }

  /** A spawner whose row was written whole stays answerable for it under the same group, drained, killed
      or still running. */
  lemma {:induction false} StaysPublished(width: Row -> nat, events: seq<Event>, n: nat, id: nat)
    requires n <= |events| && Run(width, events).Some? && Run(width, events[..n]).Some?
    requires Published(PhaseOf(Run(width, events[..n]).value, id))
    ensures var phase := PhaseOf(Run(width, events).value, id);
            Published(phase) && GroupOf(phase) == GroupOf(PhaseOf(Run(width, events[..n]).value, id))
  {
    if n == |events| {
      assert events[..n] == events;
    } else {
      var k := |events| - 1;
      assert events[..k][..n] == events[..n];
      StaysPublished(width, events[..k], n, id);
      StepPublished(width, Run(width, events[..k]).value, events[k], Run(width, events).value, id);
    }
  }

  // ------------------------------------------------------------------- a whole run

  lemma RunMore(width: Row -> nat, events: seq<Event>, e: Event)
    ensures Run(width, events + [e])
            == match Run(width, events) case None => None case Some(s) => Step(width, s, e)
  {
    assert (events + [e])[..|events|] == events;
  }

  lemma Starts(width: Row -> nat, events: seq<Event>, s: State, id: nat, entry: Entry)
    requires Run(width, events) == Some(s) && ValidEntry(entry)
    requires s.lock.None? && PhaseOf(s, id).Idle? && Readable(width, s.rows, s.torn) && !IsClosed(s.rows)
    requires Total(width, s.rows) + 512 <= MAX_LEDGER_BYTES
    ensures Run(width, events + [Lock(id, true), Popen(id, entry)])
            == Some(s.(phases := s.phases[id := Spawned(entry)], lock := Some(Spawner(id))))
  {
    RunMore(width, events, Lock(id, true));
    RunMore(width, events + [Lock(id, true)], Popen(id, entry));
    assert events + [Lock(id, true)] + [Popen(id, entry)] == events + [Lock(id, true), Popen(id, entry)];
    assert s.phases[id := Admitted][id := Spawned(entry)] == s.phases[id := Spawned(entry)];
  }

  lemma Publishes(width: Row -> nat, events: seq<Event>, s: State, id: nat, entry: Entry)
    requires Run(width, events) == Some(s) && s.lock == Some(Spawner(id)) && PhaseOf(s, id) == Spawned(entry)
    ensures Run(width, events + [Append(id, Whole, true), Release(id)])
            == Some(s.(rows := s.rows + [Group(entry)], phases := s.phases[id := Running(entry)], lock := None))
  {
    RunMore(width, events, Append(id, Whole, true));
    RunMore(width, events + [Append(id, Whole, true)], Release(id));
    assert events + [Append(id, Whole, true)] + [Release(id)] == events + [Append(id, Whole, true), Release(id)];
  }

  /** From any open state with the lock free and room left, a new spawner can admit, start, publish, release
      and drain. */
  lemma SpawnCompletes(width: Row -> nat, events: seq<Event>, s: State, id: nat, entry: Entry)
    requires Run(width, events) == Some(s) && ValidEntry(entry)
    requires s.lock.None? && PhaseOf(s, id).Idle? && Readable(width, s.rows, s.torn) && !IsClosed(s.rows)
    requires Total(width, s.rows) + 512 <= MAX_LEDGER_BYTES
    ensures Run(width, events + [Lock(id, true), Popen(id, entry)] + [Append(id, Whole, true), Release(id)]
                       + [Drain(id)])
            == Some(s.(rows := s.rows + [Group(entry)], phases := s.phases[id := Drained(entry.group, true)]))
  {
    var started := s.(phases := s.phases[id := Spawned(entry)], lock := Some(Spawner(id)));
    var ran := s.(rows := s.rows + [Group(entry)], phases := started.phases[id := Running(entry)]);
    var first := events + [Lock(id, true), Popen(id, entry)];
    var second := first + [Append(id, Whole, true), Release(id)];
    Starts(width, events, s, id, entry);
    Publishes(width, first, started, id, entry);
    RunMore(width, second, Drain(id));
    assert ran.phases[id := Drained(entry.group, true)] == s.phases[id := Drained(entry.group, true)];
  }

  /** And the sealer can close it. */
  lemma SealCompletes(width: Row -> nat, events: seq<Event>)
    requires Run(width, events).Some?
    requires var s := Run(width, events).value;
             s.lock.None? && s.sealer.Unsealed? && Readable(width, s.rows, s.torn) && !IsClosed(s.rows)
    ensures var s := Run(width, events).value;
            Run(width, events + [SealLock, SealAppend(Whole, true)])
            == Some(s.(rows := s.rows + [Closed], sealer := Sealed))
  {
    RunMore(width, events, SealLock);
    RunMore(width, events + [SealLock], SealAppend(Whole, true));
    assert events + [SealLock] + [SealAppend(Whole, true)] == events + [SealLock, SealAppend(Whole, true)];
  }
}
