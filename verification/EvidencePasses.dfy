/** Any number of preservation passes at once, over sources that may change under them. */
module EvidencePasses {
  import opened Basics
  import opened EvidenceStore

  /** A pass between two of its steps: at rest, or with a staged file to publish. */
  datatype Phase = Resting | Staged(op: Op)

  datatype Pass = Pass(phase: Phase, results: seq<Result>)

  datatype State = State(store: Store, passes: map<nat, Pass>)

  /** What a pass does next. Each time it reads a source it may find other bytes. */
  datatype Event =
    | Look(id: nat, op: Op)
    | Publish(id: nat)
    | Drop(id: nat)

  function PassOf(s: State, id: nat): Pass {
    if id in s.passes then s.passes[id] else Pass(Resting, [])
  }

  function Ended(s: State, id: nat, r: Result): State {
    s.(passes := s.passes[id := Pass(Resting, PassOf(s, id).results + [r])])
  }

  function Step(hash: Bytes -> string, cap: nat, s: State, e: Event): Option<State> {
    match e
    case Look(id, op) =>
      if !PassOf(s, id).phase.Resting? then None
      else if op.path in s.store || (op.Copy? && !Copyable(op.source, cap))
      then Some(Ended(s, id, Outcome(hash, cap, s.store, op)))
      else Some(s.(passes := s.passes[id := Pass(Staged(op), PassOf(s, id).results)]))
    case Publish(id) =>
      (match PassOf(s, id).phase
       case Resting => None
       case Staged(op) =>
         var p, data := op.path, Content(op);
         var r := if p in s.store && !Matches(hash, s.store[p], data) then Differs(p)
                  else if op.Copy? then Copied(RecordOf(hash, p, data)) else Stored;
         Some(Ended(s.(store := if p in s.store then s.store else s.store[p := data]), id, r)))
    case Drop(id) => Some(s.(passes := s.passes[id := Pass(Resting, PassOf(s, id).results)]))
  }

  function Run(hash: Bytes -> string, cap: nat, s: State, events: seq<Event>): Option<State> {
    if events == [] then Some(s)
    else
      var t :- Run(hash, cap, s, events[..|events| - 1]);
      Step(hash, cap, t, events[|events| - 1])
  }

  ghost predicate Inv(hash: Bytes -> string, s: State) {
    forall id :: AllHold(hash, s.store, PassOf(s, id).results)
  }

  lemma StepKeeps(hash: Bytes -> string, cap: nat, s: State, e: Event, t: State)
    requires Inv(hash, s) && Step(hash, cap, s, e) == Some(t)
    ensures Keeps(s.store, t.store) && Inv(hash, t)
  {
    forall id
      ensures AllHold(hash, t.store, PassOf(t, id).results)
    {
      HoldsLater(hash, s.store, t.store, PassOf(s, id).results);
      if id == e.id {
        StepResult(hash, cap, s, e, t);
      }
    }
  }

  /** A step adds at most one result, and a true one. */
  lemma StepResult(hash: Bytes -> string, cap: nat, s: State, e: Event, t: State)
    requires Step(hash, cap, s, e) == Some(t)
    ensures var was, now := PassOf(s, e.id).results, PassOf(t, e.id).results;
            now == was || (now == was + [now[|now| - 1]] && Holds(hash, t.store, now[|now| - 1]))
  {
  }

  /** However passes interleave and sources change, a published file never changes, and every record
      of a copy that any pass ever made stays true. */
  lemma {:induction false} RunKeeps(hash: Bytes -> string, cap: nat, s: State, events: seq<Event>)
    requires Inv(hash, s) && Run(hash, cap, s, events).Some?
    ensures Keeps(s.store, Run(hash, cap, s, events).value.store) && Inv(hash, Run(hash, cap, s, events).value)
  {
    if events != [] {
      var before := events[..|events| - 1];
      RunKeeps(hash, cap, s, before);
      StepKeeps(hash, cap, Run(hash, cap, s, before).value, events[|events| - 1], Run(hash, cap, s, events).value);
    }
  }

  // ------------------------------------------------------------- one pass alone

  /** The steps of a pass that handles one file undisturbed. */
  function Alone(cap: nat, s: State, id: nat, op: Op): seq<Event> {
    if op.path in s.store || (op.Copy? && !Copyable(op.source, cap)) then [Look(id, op)]
    else [Look(id, op), Publish(id)]
  }

  lemma RunMore(hash: Bytes -> string, cap: nat, s: State, events: seq<Event>, e: Event)
    ensures Run(hash, cap, s, events + [e])
            == match Run(hash, cap, s, events) case None => None case Some(t) => Step(hash, cap, t, e)
  {
    assert (events + [e])[..|events|] == events;
  }

  /** A pass at rest that is left alone does to the store, and records, exactly what one operation does. */
  lemma AloneIsSequential(hash: Bytes -> string, cap: nat, s: State, id: nat, op: Op)
    requires PassOf(s, id).phase.Resting?
    ensures var next := Run(hash, cap, s, Alone(cap, s, id, op));
            && next.Some? && next.value.store == After(cap, s.store, op)
            && PassOf(next.value, id) == Pass(Resting, PassOf(s, id).results + [Outcome(hash, cap, s.store, op)])
            && forall other: nat :: other != id ==> PassOf(next.value, other) == PassOf(s, other)
  {
    var look := Look(id, op);
    RunMore(hash, cap, s, [], look);
    assert [] + [look] == [look];
    assert Run(hash, cap, s, [look]) == Step(hash, cap, s, look);
    if Alone(cap, s, id, op) == [look, Publish(id)] {
      RunMore(hash, cap, s, [look], Publish(id));
      assert [look] + [Publish(id)] == [look, Publish(id)];
      StagedPublishes(hash, cap, s, id, op);
    }
  }

  lemma StagedPublishes(hash: Bytes -> string, cap: nat, s: State, id: nat, op: Op)
    requires PassOf(s, id).phase.Resting? && op.path !in s.store && (op.Copy? ==> Copyable(op.source, cap))
    ensures Step(hash, cap, s, Look(id, op)).Some?
    ensures var next := Step(hash, cap, Step(hash, cap, s, Look(id, op)).value, Publish(id));
            && next.Some? && next.value.store == After(cap, s.store, op)
            && PassOf(next.value, id) == Pass(Resting, PassOf(s, id).results + [Outcome(hash, cap, s.store, op)])
            && forall other: nat :: other != id ==> PassOf(next.value, other) == PassOf(s, other)
  {
  }
}
