/** Many spawners and one sealer over one group ledger, step by step under its lock. */
module CustodyMachine {
  import opened Basics
  import opened GroupLedger

  /** Where one admission is. From `Admitted` to `Spawned` it holds the lock. */
  datatype Phase =
    | Idle
    | Refused
    | Admitted
    | Spawned(entry: Entry)
    | Running(entry: Entry)
    | Failed(group: int)
    | Drained(group: int, published: bool)
    | Killed(left: Option<int>, published: bool)

  datatype SealPhase = Unsealed | Sealing | Sealed | SealFailed

  datatype Holder = Spawner(id: nat) | Sealer

  /** `torn` says that part of a row, without its newline, follows the whole rows. */
  datatype State = State(rows: seq<Row>, torn: bool, lock: Option<Holder>, phases: map<nat, Phase>, sealer: SealPhase)

  const START := State([], false, None, map[], Unsealed)

  /** How much of a row one write left. */
  datatype Wrote = Nothing | Part | Whole

  datatype Event =
    | Lock(id: nat, reserve: bool)
    | Abandon(id: nat)
    | Popen(id: nat, entry: Entry)
    | Append(id: nat, wrote: Wrote, ok: bool)
    | Release(id: nat)
    | Drain(id: nat)
    | Kill(id: nat, wrote: Wrote)
    | SealLock
    | SealAppend(wrote: Wrote, ok: bool)

  function PhaseOf(s: State, id: nat): Phase {
    if id in s.phases then s.phases[id] else Idle
  }

  function Put(s: State, id: nat, phase: Phase): State {
    s.(phases := s.phases[id := phase])
  }

  function Write(s: State, row: Row, wrote: Wrote): State {
    match wrote
    case Nothing => s
    case Part => s.(torn := true)
    case Whole => s.(rows := s.rows + [row])
  }

  predicate Open(width: Row -> nat, s: State) {
    Readable(width, s.rows, s.torn) && !IsClosed(s.rows)
  }

  function Unlock(s: State, id: nat): State {
    if s.lock == Some(Spawner(id)) then s.(lock := None) else s
  }

  /** One step, or none when the event cannot happen here. */
  function Step(width: Row -> nat, s: State, e: Event): Option<State> {
    match e
    case Lock(id, reserve) =>
      if PhaseOf(s, id) != Idle || s.lock != None then None
      else if Open(width, s) && (reserve ==> Total(width, s.rows) + RESERVE <= MAX_LEDGER_BYTES)
      then Some(Put(s, id, Admitted).(lock := Some(Spawner(id))))
      else Some(Put(s, id, Refused))
    case Abandon(id) =>
      if PhaseOf(s, id) != Admitted then None else Some(Unlock(Put(s, id, Refused), id))
    case Popen(id, entry) =>
      if PhaseOf(s, id) != Admitted || !ValidEntry(entry) then None
      else Some(Put(s, id, Spawned(entry)))
    case Append(id, wrote, ok) =>
      if !PhaseOf(s, id).Spawned? then None
      else
        var entry := PhaseOf(s, id).entry;
        Some(Put(Write(s, Group(entry), wrote), id,
                 if wrote == Whole && ok then Running(entry) else Failed(entry.group)))
    case Release(id) =>
      if s.lock != Some(Spawner(id)) || PhaseOf(s, id).Admitted? || PhaseOf(s, id).Spawned? then None
      else Some(s.(lock := None))
    case Drain(id) =>
      (match PhaseOf(s, id)
       case Running(entry) => Some(Put(s, id, Drained(entry.group, true)))
       case Failed(group) => Some(Put(s, id, Drained(group, false)))
       case _ => None)
    case Kill(id, wrote) =>
      (match PhaseOf(s, id)
       case Spawned(entry) => Some(Unlock(Put(Write(s, Group(entry), wrote), id, Killed(Some(entry.group), false)), id))
       case Running(entry) => Some(Unlock(Put(s, id, Killed(Some(entry.group), true)), id))
       case Failed(group) => Some(Unlock(Put(s, id, Killed(Some(group), false)), id))
       case Drained(group, published) => Some(Unlock(Put(s, id, Killed(Some(group), published)), id))
       case Killed(_, _) => None
       case _ => Some(Unlock(Put(s, id, Killed(None, false)), id)))
    case SealLock =>
      if s.sealer != Unsealed || s.lock != None then None
      else if Open(width, s) then Some(s.(sealer := Sealing, lock := Some(Sealer)))
      else Some(s.(sealer := SealFailed))
    case SealAppend(wrote, ok) =>
      if s.sealer != Sealing then None
      else Some(Write(s, Closed, wrote).(sealer := if wrote == Whole && ok then Sealed else SealFailed, lock := None))
  }

  function Run(width: Row -> nat, events: seq<Event>): Option<State> {
    if events == [] then Some(START)
    else
      var s :- Run(width, events[..|events| - 1]);
      Step(width, s, events[|events| - 1])
  }

  // --------------------------------------------------------------- invariant

  function GroupOf(phase: Phase): Option<int> {
    match phase
    case Spawned(entry) => Some(entry.group)
    case Running(entry) => Some(entry.group)
    case Failed(group) => Some(group)
    case Drained(group, _) => Some(group)
    case Killed(left, _) => left
    case _ => None
  }

  predicate Published(phase: Phase) {
    phase.Running? || (phase.Drained? && phase.published) || (phase.Killed? && phase.published)
  }

  predicate InLock(phase: Phase) {
    phase.Admitted? || phase.Spawned?
  }

  /** Groups, then at most one closure, whatever was torn or repeated. */
  predicate ClosureLast(rows: seq<Row>) {
    && (forall i :: 0 <= i < |rows| ==> ValidRow(rows[i]))
    && (forall i :: 0 <= i < |rows| - 1 ==> rows[i].Group?)
  }

  ghost predicate PhaseHolds(width: Row -> nat, s: State, id: nat) {
    var phase := PhaseOf(s, id);
    && (InLock(phase) ==> s.lock == Some(Spawner(id)) && Open(width, s))
    && (phase.Spawned? || phase.Running? ==> ValidEntry(phase.entry))
    && (Published(phase) ==> GroupOf(phase).Some? && Names(s.rows, GroupOf(phase).value))
  }

  ghost predicate SealHolds(width: Row -> nat, s: State) {
    && (s.sealer.Sealing? ==> s.lock == Some(Sealer) && Open(width, s))
    && (s.sealer.Sealed? ==> !s.torn && Shape(s.rows) && IsClosed(s.rows))
    && (IsClosed(s.rows) ==> s.sealer.Sealed? || s.sealer.SealFailed?)
  }

  ghost predicate Inv(width: Row -> nat, s: State) {
    && ClosureLast(s.rows)
    && (forall id :: PhaseHolds(width, s, id))
    && SealHolds(width, s)
    && Sourced(s)
  }

  lemma WriteKeeps(s: State, row: Row, wrote: Wrote)
    requires ClosureLast(s.rows) && !IsClosed(s.rows) && ValidRow(row)
    ensures ClosureLast(Write(s, row, wrote).rows)
    ensures forall g :: Names(s.rows, g) ==> Names(Write(s, row, wrote).rows, g)
    ensures wrote == Whole && row.Group? ==> Names(Write(s, row, wrote).rows, row.entry.group)
    ensures row.Group? ==> !IsClosed(Write(s, row, wrote).rows)
  {
    NamesMore(s.rows, row);
  }

  /** Every group row has the spawner it came from. */
  ghost predicate Sourced(s: State) {
    forall i :: 0 <= i < |s.rows| && s.rows[i].Group? ==> HasSource(s, s.rows[i].entry.group)
  }

  ghost predicate HasSource(s: State, group: int) {
    exists id :: GroupOf(PhaseOf(s, id)) == Some(group)
  }

  /** A spawner that keeps its group keeps every row sourced. */
  lemma SourcedKeeps(s: State, t: State)
    requires Sourced(s) && t.rows == s.rows
    requires forall id :: GroupOf(PhaseOf(s, id)).Some? ==> GroupOf(PhaseOf(t, id)) == GroupOf(PhaseOf(s, id))
    ensures Sourced(t)
  {
    forall i | 0 <= i < |t.rows| && t.rows[i].Group?
      ensures HasSource(t, t.rows[i].entry.group)
    {
      assert HasSource(s, s.rows[i].entry.group);
      var id :| GroupOf(PhaseOf(s, id)) == Some(s.rows[i].entry.group);
      assert GroupOf(PhaseOf(t, id)) == Some(t.rows[i].entry.group);
    }
  }

  lemma SourcedWrite(s: State, id: nat, row: Row, wrote: Wrote, phase: Phase)
    requires Sourced(s)
    requires GroupOf(PhaseOf(s, id)).Some? ==> GroupOf(phase) == GroupOf(PhaseOf(s, id))
    requires row.Group? ==> GroupOf(phase) == Some(row.entry.group)
    ensures Sourced(Put(Write(s, row, wrote), id, phase))
  {
    var t := Put(s, id, phase);
    SourcedKeeps(s, t);
    var u := Put(Write(s, row, wrote), id, phase);
    forall i | 0 <= i < |u.rows| && u.rows[i].Group?
      ensures HasSource(u, u.rows[i].entry.group)
    {
      if i < |s.rows| {
        assert HasSource(t, t.rows[i].entry.group);
        var k :| GroupOf(PhaseOf(t, k)) == Some(t.rows[i].entry.group);
        assert GroupOf(PhaseOf(u, k)) == Some(u.rows[i].entry.group);
      } else {
        assert GroupOf(PhaseOf(u, id)) == Some(u.rows[i].entry.group);
      }
    }
  }

  /** Steps that touch no row. */
  predicate Quiet(e: Event, phase: Phase) {
    e.Lock? || e.Abandon? || e.Popen? || e.Release? || e.Drain? || (e.Kill? && !phase.Spawned?)
  }

  lemma QuietKeeps(width: Row -> nat, s: State, e: Event, t: State)
    requires Inv(width, s) && Step(width, s, e) == Some(t)
    requires !e.SealLock? && !e.SealAppend? && Quiet(e, PhaseOf(s, e.id))
    ensures Inv(width, t)
  {
    forall id
      ensures PhaseHolds(width, t, id)
      ensures GroupOf(PhaseOf(s, id)).Some? ==> GroupOf(PhaseOf(t, id)) == GroupOf(PhaseOf(s, id))
    {
      QuietPhase(width, s, e, t, id);
    }
    QuietPhase(width, s, e, t, e.id);
    SourcedKeeps(s, t);
  }

  lemma QuietPhase(width: Row -> nat, s: State, e: Event, t: State, id: nat)
    requires PhaseHolds(width, s, id) && SealHolds(width, s) && Step(width, s, e) == Some(t)
    requires !e.SealLock? && !e.SealAppend? && PhaseHolds(width, s, e.id) && Quiet(e, PhaseOf(s, e.id))
    ensures t.rows == s.rows && t.torn == s.torn && t.sealer == s.sealer && SealHolds(width, t)
    ensures PhaseHolds(width, t, id)
    ensures GroupOf(PhaseOf(s, id)).Some? ==> GroupOf(PhaseOf(t, id)) == GroupOf(PhaseOf(s, id))
  {
    QuietLock(width, s, e, t);
    if id != e.id {
      assert PhaseOf(t, id) == PhaseOf(s, id);
    } else {
      QuietOwn(width, s, e, t);
    }
  }

  /** Rows stay, and the lock moves only between no one and this spawner. */
  lemma QuietLock(width: Row -> nat, s: State, e: Event, t: State)
    requires Step(width, s, e) == Some(t)
    requires !e.SealLock? && !e.SealAppend? && Quiet(e, PhaseOf(s, e.id))
    ensures t.rows == s.rows && t.torn == s.torn && t.sealer == s.sealer
    ensures || t.lock == s.lock || (s.lock.None? && t.lock == Some(Spawner(e.id)))
            || (s.lock == Some(Spawner(e.id)) && t.lock.None?)
    ensures forall id :: id != e.id ==> PhaseOf(t, id) == PhaseOf(s, id)
  {
  }

  lemma QuietOwn(width: Row -> nat, s: State, e: Event, t: State)
    requires Step(width, s, e) == Some(t)
    requires !e.SealLock? && !e.SealAppend? && PhaseHolds(width, s, e.id) && Quiet(e, PhaseOf(s, e.id))
    ensures PhaseHolds(width, t, e.id)
    ensures GroupOf(PhaseOf(s, e.id)).Some? ==> GroupOf(PhaseOf(t, e.id)) == GroupOf(PhaseOf(s, e.id))
  {
  }

  lemma WritingKeeps(width: Row -> nat, s: State, e: Event, t: State)
    requires Inv(width, s) && Step(width, s, e) == Some(t)
    requires e.Append? || (e.Kill? && PhaseOf(s, e.id).Spawned?)
    ensures Inv(width, t)
  {
    assert PhaseHolds(width, s, e.id);
    var entry := PhaseOf(s, e.id).entry;
    WriteKeeps(s, Group(entry), e.wrote);
    WritingPhase(width, s, e, t);
    SourcedWrite(s, e.id, Group(entry), e.wrote, PhaseOf(t, e.id));
    SourcedKeeps(Put(Write(s, Group(entry), e.wrote), e.id, PhaseOf(t, e.id)), t);
    forall id
      ensures PhaseHolds(width, t, id)
    {
      if id != e.id {
        assert PhaseHolds(width, s, id) && PhaseOf(t, id) == PhaseOf(s, id);
      }
    }
  }

  lemma WritingPhase(width: Row -> nat, s: State, e: Event, t: State)
    requires Step(width, s, e) == Some(t) && ClosureLast(s.rows)
    requires (e.Append? || e.Kill?) && PhaseHolds(width, s, e.id) && PhaseOf(s, e.id).Spawned?
    ensures t.rows == Write(s, Group(PhaseOf(s, e.id).entry), e.wrote).rows && t.sealer == s.sealer
    ensures PhaseHolds(width, t, e.id) && !InLock(PhaseOf(t, e.id))
    ensures GroupOf(PhaseOf(t, e.id)) == GroupOf(PhaseOf(s, e.id))
    ensures forall id :: id != e.id ==> PhaseOf(t, id) == PhaseOf(s, id)
  {
    WriteKeeps(s, Group(PhaseOf(s, e.id).entry), e.wrote);
  }

  lemma SealKeeps(width: Row -> nat, s: State, e: Event, t: State)
    requires Inv(width, s) && Step(width, s, e) == Some(t)
    requires e.SealLock? || e.SealAppend?
    ensures Inv(width, t)
  {
    if e.SealAppend? {
      WriteKeeps(s, Closed, e.wrote);
      ShapeMore(s.rows, Closed);
    }
    forall id
      ensures PhaseHolds(width, t, id)
    {
      assert PhaseHolds(width, s, id);
    }
    SealSourced(s, t);
  }

  lemma SealSourced(s: State, t: State)
    requires Sourced(s) && t.phases == s.phases && (t.rows == s.rows || t.rows == s.rows + [Closed])
    ensures Sourced(t)
  {
    forall i | 0 <= i < |t.rows| && t.rows[i].Group?
      ensures HasSource(t, t.rows[i].entry.group)
    {
      assert HasSource(s, s.rows[i].entry.group);
      var id :| GroupOf(PhaseOf(s, id)) == Some(s.rows[i].entry.group);
      assert GroupOf(PhaseOf(t, id)) == Some(t.rows[i].entry.group);
    }
  }

  lemma StepKeeps(width: Row -> nat, s: State, e: Event, t: State)
    requires Inv(width, s) && Step(width, s, e) == Some(t)
    ensures Inv(width, t)
  {
    if e.SealLock? || e.SealAppend? {
      SealKeeps(width, s, e, t);
    } else if Quiet(e, PhaseOf(s, e.id)) {
      QuietKeeps(width, s, e, t);
    } else {
      WritingKeeps(width, s, e, t);
    }
  }

  /** In every interleaving the ledger is groups and then at most one closure, a group that its
      spawner reported as admitted is in it, and every group in it has a spawner. */
  lemma {:induction false} RunKeeps(width: Row -> nat, events: seq<Event>)
    requires Run(width, events).Some?
    ensures Inv(width, Run(width, events).value)
  {
    if events != [] {
      var before := events[..|events| - 1];
      RunKeeps(width, before);
      StepKeeps(width, Run(width, before).value, events[|events| - 1], Run(width, events).value);
    }
  }
}
