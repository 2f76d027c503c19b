/** `serve_tls_source`: the accept loop, its permits, its connection tasks and their shutdown, as
    steps in any interleaving. */
module Listener {
  import opened Basics

  datatype Limits = Limits(maxConnections: nat, maxStreams: nat, handshakeTimeout: nat, drainTimeout: nat)

  /** A connection task holds its permit until it is over. */
  datatype Task =
    | Configuring
    | Handshaking
    | AuditingRejected
    | AuditingAccepted
    | Starting
    | Serving
    | Closing
    | Over
    | Joined

  datatype Phase = Accepting | Draining | Aborting | Returned

  /** What an observer outside can tell. */
  datatype Log =
    | SetUp(id: nat, ok: bool)
    | Audited(id: nat, accepted: bool, ok: bool)
    | ServiceStarted(id: nat)
    | AcceptFailed(error: int)

  /** `stop` says that the shutdown channel has changed or lost its sender. */
  datatype State = State(phase: Phase, free: nat, tasks: seq<Task>, stop: bool, connectionStop: bool,
                         outcome: Option<int>, log: seq<Log>)

  datatype Event =
    | Shutdown
    | StopSeen
    | Accept
    | AcceptError(error: int)
    | Run(id: nat, ok: bool)
    | Notice(id: nat)
    | Join(id: nat)
    | DrainTimeout
    | Cancel(id: nat)
    | Return

  predicate ValidLimits(limits: Limits) {
    limits.maxConnections > 0 && limits.maxStreams > 0 && limits.handshakeTimeout > 0 && limits.drainTimeout > 0
  }

  function Start(limits: Limits): State {
    State(Accepting, limits.maxConnections, [], false, false, None, [])
  }

  predicate Live(t: Task) {
    !t.Over? && !t.Joined?
  }

  /** What one task does next when it goes on: its successor, and what shows outside. */
  function Advance(id: nat, t: Task, ok: bool, connectionStop: bool): (Task, seq<Log>) {
    match t
    case Configuring => (if ok then Handshaking else AuditingRejected, [SetUp(id, ok)])
    case Handshaking =>
      (if !ok then AuditingRejected else if connectionStop then Over else AuditingAccepted, [])
    case AuditingRejected => (Over, [Audited(id, false, ok)])
    case AuditingAccepted => (if ok then Starting else Over, [Audited(id, true, ok)])
    case Starting => (Serving, [ServiceStarted(id)])
    case _ => (Over, [])
  }

  function Put(s: State, id: nat, t: Task): State
    requires id < |s.tasks|
  {
    s.(tasks := s.tasks[id := t], free := if Live(s.tasks[id]) && !Live(t) then s.free + 1 else s.free)
  }

  function Stopped(s: State): State {
    s.(phase := Draining, connectionStop := true)
  }

  /** One step, or none when the event cannot happen here. */
  function Step(s: State, e: Event): Option<State> {
    if s.phase.Returned? then None
    else match e
    case Shutdown => Some(s.(stop := true))
    case StopSeen => if s.phase.Accepting? && s.stop then Some(Stopped(s)) else None
    case Accept =>
      if !s.phase.Accepting? || s.stop then None
      else if s.free == 0 then Some(s)
      else Some(s.(free := s.free - 1, tasks := s.tasks + [Configuring]))
    case AcceptError(error) =>
      if !s.phase.Accepting? || s.stop then None
      else Some(Stopped(s).(outcome := Some(error), log := s.log + [AcceptFailed(error)]))
    case Run(id, ok) =>
      if id >= |s.tasks| || !Live(s.tasks[id]) then None
      else
        var (t, shown) := Advance(id, s.tasks[id], ok, s.connectionStop);
        Some(Put(s, id, t).(log := s.log + shown))
    case Notice(id) =>
      if id < |s.tasks| && s.tasks[id].Serving? && s.connectionStop then Some(Put(s, id, Closing)) else None
    case Join(id) =>
      if id < |s.tasks| && s.tasks[id].Over? then Some(Put(s, id, Joined)) else None
    case DrainTimeout => if s.phase.Draining? then Some(s.(phase := Aborting)) else None
    case Cancel(id) =>
      if s.phase.Aborting? && id < |s.tasks| && Live(s.tasks[id]) then Some(Put(s, id, Over)) else None
    case Return =>
      if !s.phase.Accepting? && AllJoined(s.tasks) then Some(s.(phase := Returned)) else None
  }

  predicate AllJoined(tasks: seq<Task>) {
    forall i :: 0 <= i < |tasks| ==> tasks[i].Joined?
  }

  function Reach(limits: Limits, events: seq<Event>): Option<State> {
    if events == [] then Some(Start(limits))
    else
      var s :- Reach(limits, events[..|events| - 1]);
      Step(s, events[|events| - 1])
  }

  // ----------------------------------------------------------------- permits

  function LiveCount(tasks: seq<Task>): nat {
    if tasks == [] then 0
    else LiveCount(tasks[..|tasks| - 1]) + (if Live(tasks[|tasks| - 1]) then 1 else 0)
  }

  lemma LiveMore(tasks: seq<Task>, t: Task)
    ensures LiveCount(tasks + [t]) == LiveCount(tasks) + (if Live(t) then 1 else 0)
  {
    assert (tasks + [t])[..|tasks|] == tasks;
  }

  lemma {:induction false} LivePut(tasks: seq<Task>, id: nat, t: Task)
    requires id < |tasks|
    ensures LiveCount(tasks[id := t]) + (if Live(tasks[id]) then 1 else 0)
            == LiveCount(tasks) + (if Live(t) then 1 else 0)
  {
    var n := |tasks| - 1;
    if id < n {
      LivePut(tasks[..n], id, t);
      assert tasks[id := t][..n] == tasks[..n][id := t];
    } else {
      assert tasks[id := t][..n] == tasks[..n];
    }
  }

  lemma {:induction false} NoneLive(tasks: seq<Task>)
    requires AllJoined(tasks)
    ensures LiveCount(tasks) == 0
  {
    if tasks != [] {
      NoneLive(tasks[..|tasks| - 1]);
    }
  }

  // --------------------------------------------------------------- invariant

  /** A service that started had its accepted handshake durably audited before. */
  predicate AuditedFirst(log: seq<Log>) {
    forall i :: 0 <= i < |log| && log[i].ServiceStarted? ==> Audited(log[i].id, true, true) in log[..i]
  }

  predicate InService(t: Task) {
    t.Starting? || t.Serving? || t.Closing?
  }

  /** Why the loop ended, and with what result. */
  ghost predicate EndedRightly(s: State) {
    && (!s.phase.Accepting? ==> s.connectionStop && (s.stop || s.outcome.Some?))
    && (s.phase.Accepting? ==> s.outcome.None? && !s.connectionStop)
    && (forall e :: s.outcome == Some(e) <==> AcceptFailed(e) in s.log)
  }

  /** Some audit record of a connection, successful or not. */
  predicate HasAudit(log: seq<Log>, id: nat) {
    exists i :: 0 <= i < |log| && log[i].Audited? && log[i].id == id
  }

  /** Until the listener stops, a connection that is over has been audited, whatever ended it. */
  predicate AllAudited(s: State) {
    forall i :: 0 <= i < |s.tasks| && !Live(s.tasks[i]) && !s.connectionStop ==> HasAudit(s.log, i)
  }

  ghost predicate Inv(limits: Limits, s: State) {
    && AllAudited(s)
    && LiveCount(s.tasks) + s.free == limits.maxConnections
    && AuditedFirst(s.log)
    && (forall i :: 0 <= i < |s.tasks| && InService(s.tasks[i]) ==> Audited(i, true, true) in s.log)
    && EndedRightly(s)
    && (s.phase.Returned? ==> AllJoined(s.tasks))
  }

  lemma AuditedMore(log: seq<Log>, id: nat, t: Task, ok: bool, connectionStop: bool)
    requires AuditedFirst(log) && (InService(t) ==> Audited(id, true, true) in log)
    ensures var (next, shown) := Advance(id, t, ok, connectionStop);
            && AuditedFirst(log + shown)
            && (forall e :: AcceptFailed(e) in log + shown <==> AcceptFailed(e) in log)
            && (InService(next) ==> Audited(id, true, true) in log + shown)
            && (Live(t) && !Live(next) && !connectionStop ==> HasAudit(log + shown, id))
  {
    var all := log + Advance(id, t, ok, connectionStop).1;
    forall i | 0 <= i < |all| && all[i].ServiceStarted?
      ensures Audited(all[i].id, true, true) in all[..i]
    {
      if i < |log| {
        assert all[..i] == log[..i];
      } else {
        assert all[..i] == log;
      }
    }
    if t.AuditingAccepted? || t.AuditingRejected? {
      assert all[|log|] == Audited(id, t.AuditingAccepted?, ok);
    }
    if InService(t) {
      var i :| 0 <= i < |log| && log[i] == Audited(id, true, true);
      assert all[i] == log[i];
    }
  }

  lemma AuditStays(log: seq<Log>, shown: seq<Log>, id: nat)
    requires HasAudit(log, id)
    ensures HasAudit(log + shown, id)
  {
    var i :| 0 <= i < |log| && log[i].Audited? && log[i].id == id;
    assert (log + shown)[i] == log[i];
  }

  /** A task's own step: permits, audits and the reason for the end stay right, and whatever became
      of its socket the accept loop goes on. */
  lemma TaskKeeps(limits: Limits, s: State, e: Event, t: State)
    requires Inv(limits, s) && Step(s, e) == Some(t)
    requires e.Run? || e.Notice? || e.Join? || e.Cancel?
    ensures Inv(limits, t) && t.phase == s.phase && t.outcome == s.outcome && t.stop == s.stop
  {
    LivePut(s.tasks, e.id, t.tasks[e.id]);
    if e.Run? {
      var shown := Advance(e.id, s.tasks[e.id], e.ok, s.connectionStop).1;
      AuditedMore(s.log, e.id, s.tasks[e.id], e.ok, s.connectionStop);
      forall i | 0 <= i < |t.tasks| && !Live(t.tasks[i]) && !t.connectionStop
        ensures HasAudit(t.log, i)
      {
        if i != e.id {
          AuditStays(s.log, shown, i);
        }
      }
    }
  }

  lemma AcceptKeeps(limits: Limits, s: State, t: State)
    requires Inv(limits, s) && Step(s, Accept) == Some(t)
    ensures Inv(limits, t)
  {
    if s.free > 0 {
      LiveMore(s.tasks, Configuring);
    }
  }

  lemma FailedAcceptLog(log: seq<Log>, error: int)
    requires AuditedFirst(log)
    ensures AuditedFirst(log + [AcceptFailed(error)])
    ensures forall id :: HasAudit(log, id) ==> HasAudit(log + [AcceptFailed(error)], id)
  {
    var all := log + [AcceptFailed(error)];
    forall i | 0 <= i < |all| && all[i].ServiceStarted?
      ensures Audited(all[i].id, true, true) in all[..i]
    {
      assert all[..i] == log[..i];
    }
    forall id | HasAudit(log, id)
      ensures HasAudit(all, id)
    {
      AuditStays(log, [AcceptFailed(error)], id);
    }
  }

  lemma AcceptErrorKeeps(limits: Limits, s: State, error: int, t: State)
    requires Inv(limits, s) && Step(s, AcceptError(error)) == Some(t)
    ensures Inv(limits, t)
  {
    FailedAcceptLog(s.log, error);
    assert t.log[|s.log|] == AcceptFailed(error);
  }

  lemma LoopKeeps(limits: Limits, s: State, e: Event, t: State)
    requires Inv(limits, s) && Step(s, e) == Some(t)
    requires !(e.Run? || e.Notice? || e.Join? || e.Cancel?)
    ensures Inv(limits, t)
  {
    match e
    case Shutdown => assert t == s.(stop := true);
    case StopSeen => assert t == Stopped(s);
    case Accept => AcceptKeeps(limits, s, t);
    case AcceptError(error) => AcceptErrorKeeps(limits, s, error, t);
    case DrainTimeout => assert t == s.(phase := Aborting);
    case Return => assert t == s.(phase := Returned);
  }

  lemma {:induction false} ReachKeeps(limits: Limits, events: seq<Event>)
    requires Reach(limits, events).Some?
    ensures Inv(limits, Reach(limits, events).value)
  {
    if events != [] {
      var before, e := events[..|events| - 1], events[|events| - 1];
      ReachKeeps(limits, before);
      var s, t := Reach(limits, before).value, Reach(limits, events).value;
      if e.Run? || e.Notice? || e.Join? || e.Cancel? {
        TaskKeeps(limits, s, e, t);
      } else {
        LoopKeeps(limits, s, e, t);
      }
    }
  }

  // ---------------------------------------------------------------- results

  /** `serve_tls_source` returns an error for limits it refuses, else what its run ended with. */
  datatype Result = Ok | Err(error: int) | InvalidLimits

  function ResultOf(limits: Limits, s: State): Result {
    if !ValidLimits(limits) then InvalidLimits
    else match s.outcome
    case None => Ok
    case Some(error) => Err(error)
  }

  /** Limits are refused exactly when one of them is zero. */
  lemma LimitsRefused(limits: Limits, s: State)
    ensures ResultOf(limits, s) == InvalidLimits <==>
              || limits.maxConnections == 0 || limits.maxStreams == 0
              || limits.handshakeTimeout == 0 || limits.drainTimeout == 0
  {
  }

  /** In every run: no more live connections than permits, service only after its audit succeeded, an
      audit tried for every connection that got a permit and ended while listening, an end only for a
      shutdown or a failed accept; and on return no task is left, every permit is back, and the
      result is an error exactly when accept failed, with that error. */
  lemma RunSafe(limits: Limits, events: seq<Event>)
    requires ValidLimits(limits) && Reach(limits, events).Some?
    ensures var s := Reach(limits, events).value;
            && LiveCount(s.tasks) <= limits.maxConnections
            && AuditedFirst(s.log) && AllAudited(s)
            && (!s.phase.Accepting? ==> s.stop || s.outcome.Some?)
            && (s.phase.Returned? ==>
                  && AllJoined(s.tasks) && s.free == limits.maxConnections
                  && forall error :: ResultOf(limits, s) == Err(error) <==> AcceptFailed(error) in s.log)
  {
    ReachKeeps(limits, events);
    var s := Reach(limits, events).value;
    if s.phase.Returned? {
      NoneLive(s.tasks);
    }
  }

  // ------------------------------------------------------------------ ending

  function Rank(t: Task): nat {
    match t
    case Configuring => 7
    case Handshaking => 6
    case AuditingAccepted => 5
    case Starting => 4
    case Serving => 3
    case Closing => 2
    case AuditingRejected => 2
    case Over => 1
    case Joined => 0
  }

  function Weight(tasks: seq<Task>): nat {
    if tasks == [] then 0 else Weight(tasks[..|tasks| - 1]) + Rank(tasks[|tasks| - 1])
  }

  lemma {:induction false} WeightPut(tasks: seq<Task>, id: nat, t: Task)
    requires id < |tasks|
    ensures Weight(tasks[id := t]) + Rank(tasks[id]) == Weight(tasks) + Rank(t)
  {
    var n := |tasks| - 1;
    if id < n {
      WeightPut(tasks[..n], id, t);
      assert tasks[id := t][..n] == tasks[..n][id := t];
    } else {
      assert tasks[id := t][..n] == tasks[..n];
    }
  }

  function Left(s: State): nat {
    Weight(s.tasks) + (match s.phase case Draining => 2 case Aborting => 1 case _ => 0)
  }

  /** Once the loop has ended, no connection is taken, and every step but a repeated shutdown
      request brings the return closer. */
  lemma EndingProgresses(s: State, e: Event, t: State)
    requires (s.phase.Draining? || s.phase.Aborting?) && Step(s, e) == Some(t) && !e.Shutdown?
    ensures |t.tasks| == |s.tasks| && Left(t) < Left(s)
  {
    if e.Run? || e.Notice? || e.Join? || e.Cancel? {
      WeightPut(s.tasks, e.id, t.tasks[e.id]);
    }
  }

  ghost predicate Ending(s: State) {
    s.phase.Draining? || s.phase.Aborting?
  }

  /** Until the return there is always such a step: a task's own, a join, or the return. */
  lemma NeverStuck(s: State) returns (e: Event)
    requires Ending(s)
    ensures !e.Shutdown? && Step(s, e).Some?
  {
    if AllJoined(s.tasks) {
      e := Return;
    } else {
      var id :| 0 <= id < |s.tasks| && !s.tasks[id].Joined?;
      e := if Live(s.tasks[id]) then Run(id, false) else Join(id);
    }
  }

  function RunFrom(s: State, events: seq<Event>): Option<State> {
    if events == [] then Some(s)
    else
      var t :- RunFrom(s, events[..|events| - 1]);
      Step(t, events[|events| - 1])
  }

  /** The steps of a run that are not repeated shutdown requests. */
  function Work(events: seq<Event>): nat {
    if events == [] then 0
    else Work(events[..|events| - 1]) + (if events[|events| - 1].Shutdown? then 0 else 1)
  }

  /** However the tasks are scheduled once the loop has ended, only so many steps are left, and the
      run is stuck exactly when it has returned. So every run that goes on while it can returns. */
  lemma {:induction false} EndingReturns(s: State, events: seq<Event>)
    requires Ending(s) && RunFrom(s, events).Some?
    ensures var t := RunFrom(s, events).value;
            && Work(events) + Left(t) <= Left(s) && (Ending(t) || t.phase.Returned?)
            && (t.phase.Returned? <==> forall e :: Step(t, e).Some? ==> e.Shutdown?)
  {
    var t := RunFrom(s, events).value;
    if events != [] {
      var before, e := events[..|events| - 1], events[|events| - 1];
      EndingReturns(s, before);
      if !e.Shutdown? {
        EndingProgresses(RunFrom(s, before).value, e, t);
      }
    }
    StuckExactly(t);
  }

  lemma StuckExactly(t: State)
    requires Ending(t) || t.phase.Returned?
    ensures t.phase.Returned? <==> forall e :: Step(t, e).Some? ==> e.Shutdown?
  {
    if Ending(t) {
      var e := NeverStuck(t);
    }
  }

  // ----------------------------------------------------------------- service

  /** The steps of one connection whose every step succeeds. */
  function Served(id: nat): seq<Event> {
    [Accept, Run(id, true), Run(id, true), Run(id, true), Run(id, true)]
  }

  lemma RunFromMore(s: State, events: seq<Event>, e: Event)
    ensures RunFrom(s, events + [e]) == match RunFrom(s, events) case None => None case Some(t) => Step(t, e)
  {
    assert (events + [e])[..|events|] == events;
  }

  /** A live task goes on and stays live. */
  lemma TaskStep(s: State, before: seq<Task>, t: Task, next: Task, shown: seq<Log>)
    requires !s.phase.Returned? && s.tasks == before + [t] && Live(t) && Live(next)
    requires Advance(|before|, t, true, s.connectionStop) == (next, shown)
    ensures Step(s, Run(|before|, true)) == Some(s.(tasks := before + [next], log := s.log + shown))
  {
    assert (before + [t])[|before| := next] == before + [next];
  }

  /** While the loop accepts and a permit is free, a connection can come to its service: configured, shaken
      hands with, audited, started, with one permit less. */
  lemma ConnectionServed(s: State)
    requires s.phase.Accepting? && !s.stop && s.free > 0 && !s.connectionStop
    ensures var n := |s.tasks|;
            RunFrom(s, Served(n)) ==
              Some(s.(free := s.free - 1, tasks := s.tasks + [Serving],
                      log := s.log + [SetUp(n, true), Audited(n, true, true), ServiceStarted(n)]))
  {
    var n, before := |s.tasks|, s.tasks;
    var s1 := s.(free := s.free - 1, tasks := before + [Configuring]);
    var s2 := s1.(tasks := before + [Handshaking], log := s.log + [SetUp(n, true)]);
    var s3 := s2.(tasks := before + [AuditingAccepted], log := s2.log + []);
    var s4 := s3.(tasks := before + [Starting], log := s3.log + [Audited(n, true, true)]);
    TaskStep(s1, before, Configuring, Handshaking, [SetUp(n, true)]);
    TaskStep(s2, before, Handshaking, AuditingAccepted, []);
    TaskStep(s3, before, AuditingAccepted, Starting, [Audited(n, true, true)]);
    TaskStep(s4, before, Starting, Serving, [ServiceStarted(n)]);
    FiveSteps(s, Accept, Run(n, true), s1, s2, s3, s4);
    ThreeShown(s.log, SetUp(n, true), Audited(n, true, true), ServiceStarted(n));
  }

  lemma ThreeShown(log: seq<Log>, a: Log, b: Log, c: Log)
    ensures log + [a] + [] + [b] + [c] == log + [a, b, c]
  {
  }

  lemma FiveSteps(s: State, a: Event, e: Event, s1: State, s2: State, s3: State, s4: State)
    requires Step(s, a) == Some(s1) && Step(s1, e) == Some(s2) && Step(s2, e) == Some(s3) && Step(s3, e) == Some(s4)
    ensures RunFrom(s, [a, e, e, e, e]) == Step(s4, e)
  {
    RunFromMore(s, [], a);
    assert [] + [a] == [a];
    RunFromMore(s, [a], e);
    assert [a] + [e] == [a, e];
    RunFromMore(s, [a, e], e);
    assert [a, e] + [e] == [a, e, e];
    RunFromMore(s, [a, e, e], e);
    assert [a, e, e] + [e] == [a, e, e, e];
    RunFromMore(s, [a, e, e, e], e);
    assert [a, e, e, e] + [e] == [a, e, e, e, e];
  }
}
