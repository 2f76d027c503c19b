/** The supervisor's event loop and its orderly stop. */
module SupervisorRun {
  import opened Backoff

  /** What the supervisor does to its processes, in order, and the requests to stop. A signal notes which
      entries were running when it was sent. */
  datatype Act =
    | Requested
    | Attempt(id: nat)
    | Exit(id: nat, kind: Kind, clean: bool, stopping: bool)
    | StopSeen
    | Signal(id: nat, running: set<nat>)
    | Reaped(id: nat)

  /** What the system answers about one process in a round: how long it takes, whether a stop is requested
      meanwhile, whether the process ended, how, and how its run rounds. */
  datatype Poll = Poll(took: real, request: bool, exited: bool, clean: bool, rounding: real)

  /** And about one start. */
  datatype Start = Start(before: real, request: bool, ok: bool, after: real, again: bool)

  datatype Round = Round(polls: nat -> Poll, starts: nat -> Start, wait: real, request: bool, failed: bool)

  function Abs(t: real): real {
    if t < 0.0 then -t else t
  }

  /** A run is rounded to a tenth of a second. */
  function Ran(e: Entry, at: real, rounding: real): real {
    at - e.started + if -0.05 <= rounding <= 0.05 then rounding else 0.0
  }

  /** A process that ended: while stopping this is only noted. */
  function Ended(e: Entry, w: Poll, stopping: bool, at: real): Entry {
    if stopping then e.(running := false) else Exited(e, w.clean, Ran(e, at, w.rounding), at)
  }

  /** A stop was requested, or the server ended by itself, cleanly, while nothing was stopping. */
  ghost predicate Stops(acts: seq<Act>) {
    exists k :: 0 <= k < |acts| && Stopper(acts[k])
  }

  predicate Stopper(a: Act) {
    a.Requested? || (a.Exit? && a.kind.Server? && a.clean && !a.stopping)
  }

  lemma StopsMore(acts: seq<Act>, a: Act)
    ensures Stops(acts + [a]) <==> Stops(acts) || Stopper(a)
  {
    assert (acts + [a])[|acts|] == a;
    assert forall k :: 0 <= k < |acts| ==> (acts + [a])[k] == acts[k];
  }

  /** What a round of polls makes of one entry, at some time of it. */
  ghost predicate Polled(e: Entry, after: Entry, w: Poll, from: real, to: real, was: bool, now: bool) {
    if !(e.running && w.exited) then after == e
    else exists stop, at :: EndedAt(e, after, w, from, to, was, now, stop, at)
  }

  predicate EndedAt(e: Entry, after: Entry, w: Poll, from: real, to: real, was: bool, now: bool, stop: bool, at: real) {
    from <= at <= to && (was ==> stop) && (stop ==> now) && after == Ended(e, w, stop, at)
  }

  /** What a round of starts makes of one entry. */
  ghost predicate Launched(e: Entry, after: Entry, w: Start, from: real, to: real) {
    if e.running || e.due.None? || e.due.value > from then after == e
    else exists at, later :: TriedAt(e, after, w, from, to, at, later)
  }

  predicate TriedAt(e: Entry, after: Entry, w: Start, from: real, to: real, at: real, later: real) {
    from <= at <= later <= to && after == Tried(e, at, w.ok, later)
  }

  function RunningIds(entries: seq<Entry>): set<nat> {
    set i | 0 <= i < |entries| && entries[i].running
  }

  /** Entries of the same kinds. */
  predicate SameKinds(a: seq<Entry>, b: seq<Entry>) {
    |a| == |b| && forall i :: 0 <= i < |a| ==> a[i].kind == b[i].kind
  }

  predicate NoneRunning(entries: seq<Entry>, kind: Kind) {
    forall i :: 0 <= i < |entries| && entries[i].kind == kind ==> !entries[i].running
  }

  /** Requests, starts and exits only: nothing was signalled. */
  ghost predicate Quiet(acts: seq<Act>) {
    forall k :: 0 <= k < |acts| ==> acts[k].Requested? || acts[k].Attempt? || acts[k].Exit?
  }

  class Supervisor {
    var entries: seq<Entry>
    var stopping: bool
    var now: real
    ghost var acts: seq<Act>

    ghost predicate Valid()
      reads this
    {
      (forall i :: 0 <= i < |entries| ==> Good(entries[i], now)) && (stopping <==> Stops(acts))
    }

    constructor (kinds: seq<Kind>)
      ensures Valid() && !stopping && acts == [] && |entries| == |kinds| && now == 0.0
      ensures forall i :: 0 <= i < |kinds| ==> entries[i] == New(kinds[i])
    {
      entries := seq(|kinds|, i requires 0 <= i < |kinds| => New(kinds[i]));
      stopping, now, acts := false, 0.0, [];
    }

    /** The entries are the same ones: their kinds never change. */
    twostate predicate SameEntries()
      reads this
    {
      SameKinds(entries, old(entries))
    }

    /** Time passes, and a stop may be requested. */
    method Pass(took: real, request: bool)
      requires Valid()
      modifies this`now, this`stopping, this`acts
      ensures Valid() && now == old(now) + Abs(took) && (stopping <==> old(stopping) || request)
      ensures acts == old(acts) + if request then [Requested] else []
    {
      now := now + (if took < 0.0 then -took else took);
      if request {
        StopsMore(acts, Requested);
        stopping, acts := true, acts + [Requested];
      }
    }

    /** `launch`. */
    method Launch(i: nat, w: Start)
      requires Valid() && i < |entries|
      requires !entries[i].running && entries[i].due.Some? && entries[i].due.value <= now
      modifies this
      ensures Valid() && now == old(now) + Abs(w.before) + Abs(w.after)
      ensures stopping <==> old(stopping) || w.request || w.again
      ensures acts == old(acts) + (if w.request then [Requested] else []) + (if w.again then [Requested] else [])
                      + [Attempt(i)]
      ensures entries == old(entries)[i := Tried(old(entries)[i], old(now) + Abs(w.before), w.ok, now)]
    {
      ghost var before := now;
      Pass(w.before, w.request);
      var at := now;
      Pass(w.after, w.again);
      TriedGood(entries[i], before, at, w.ok, now);
      StopsMore(acts, Attempt(i));
      entries := entries[i := Tried(entries[i], at, w.ok, now)];
      acts := acts + [Attempt(i)];
    }

    /** One process that may have ended. Exits while stopping are only noted; a server that exits
        cleanly starts the stop. */
    method ReapOne(i: nat, w: Poll)
      requires Valid() && i < |entries|
      modifies this
      ensures Valid() && now == old(now) + Abs(w.took)
      ensures var was, exited := old(stopping) || w.request, old(entries)[i].running && w.exited;
              && entries == (if exited then old(entries)[i := Ended(old(entries)[i], w, was, now)] else old(entries))
              && (stopping <==> was || (exited && w.clean && old(entries)[i].kind.Server?))
              && acts == old(acts) + (if w.request then [Requested] else [])
                         + (if exited then [Exit(i, old(entries)[i].kind, w.clean, was)] else [])
    {
      Pass(w.took, w.request);
      if !entries[i].running || !w.exited {
        return;
      }
      var kind, was := entries[i].kind, stopping;
      if stopping {
        entries := entries[i := entries[i].(running := false)];
      } else {
        var ran := Ran(entries[i], now, w.rounding);
        ExitedGood(entries[i], w.clean, ran, now);
        entries := entries[i := Exited(entries[i], w.clean, ran, now)];
        stopping := w.clean && kind.Server?;
      }
      StopsMore(acts, Exit(i, kind, w.clean, was));
      acts := acts + [Exit(i, kind, w.clean, was)];
    }

    /** The same, as a round of polls has it. */
    method ReapNext(i: nat, w: Poll)
      requires Valid() && i < |entries|
      modifies this
      ensures Valid() && SameEntries() && (old(stopping) ==> stopping) && old(now) <= now
      ensures Polled(old(entries)[i], entries[i], w, old(now), now, old(stopping), stopping)
      ensures forall j :: 0 <= j < |entries| && j != i ==> entries[j] == old(entries)[j]
      ensures old(acts) <= acts && (Quiet(old(acts)) ==> Quiet(acts))
    {
      ReapOne(i, w);
      ghost var was := old(stopping) || w.request;
      assert EndedAt(old(entries)[i], Ended(old(entries)[i], w, was, now), w, old(now), now, old(stopping), stopping,
                     was, now);
    }

    /** `reap`: every process is looked at once. */
    method Reap(polls: nat -> Poll)
      requires Valid()
      modifies this
      ensures Valid() && SameEntries() && (old(stopping) ==> stopping) && old(now) <= now
      ensures forall j :: 0 <= j < |entries| ==>
                Polled(old(entries)[j], entries[j], polls(j), old(now), now, old(stopping), stopping)
      ensures old(acts) <= acts && (Quiet(old(acts)) ==> Quiet(acts))
    {
      for i := 0 to |entries|
        invariant Valid() && SameEntries() && (old(stopping) ==> stopping) && old(now) <= now
        invariant forall j :: 0 <= j < i ==>
                    Polled(old(entries)[j], entries[j], polls(j), old(now), now, old(stopping), stopping)
        invariant forall j :: i <= j < |entries| ==> entries[j] == old(entries)[j]
        invariant old(acts) <= acts && (Quiet(old(acts)) ==> Quiet(acts))
      {
        ghost var at, stop := now, stopping;
        ReapNext(i, polls(i));
        assert Polled(old(entries)[i], entries[i], polls(i), at, now, stop, stopping);
        PolledEarlier(old(entries)[i], entries[i], polls(i), old(now), at, now, old(stopping), stop, stopping);
        forall j | 0 <= j < i
          ensures Polled(old(entries)[j], entries[j], polls(j), old(now), now, old(stopping), stopping)
        {
          PolledLater(old(entries)[j], entries[j], polls(j), old(now), at, now, old(stopping), stop, stopping);
        }
      }
    }

    /** One entry, if its start was due when the round of starts began. */
    method LaunchIfDue(i: nat, at: real, w: Start)
      requires Valid() && i < |entries| && at <= now
      modifies this
      ensures Valid() && (old(stopping) ==> stopping) && old(now) <= now && |entries| == |old(entries)|
      ensures Launched(old(entries)[i], entries[i], w, at, now)
      ensures forall j :: 0 <= j < |entries| && j != i ==> entries[j] == old(entries)[j]
      ensures old(acts) <= acts && (Quiet(old(acts)) ==> Quiet(acts))
    {
      if !entries[i].running && entries[i].due.Some? && entries[i].due.value <= at {
        Launch(i, w);
        assert TriedAt(old(entries)[i], entries[i], w, at, now, old(now) + Abs(w.before), now);
      }
    }

    /** Every entry whose start is due. */
    method LaunchDue(starts: nat -> Start)
      requires Valid()
      modifies this
      ensures Valid() && SameEntries() && (old(stopping) ==> stopping) && old(now) <= now
      ensures forall j :: 0 <= j < |entries| ==> Launched(old(entries)[j], entries[j], starts(j), old(now), now)
      ensures old(acts) <= acts && (Quiet(old(acts)) ==> Quiet(acts))
    {
      var at := now;
      for i := 0 to |entries|
        invariant Valid() && SameEntries() && (old(stopping) ==> stopping) && at <= now
        invariant forall j :: 0 <= j < i ==> Launched(old(entries)[j], entries[j], starts(j), at, now)
        invariant forall j :: i <= j < |entries| ==> entries[j] == old(entries)[j]
        invariant old(acts) <= acts && (Quiet(old(acts)) ==> Quiet(acts))
      {
        ghost var before := now;
        LaunchIfDue(i, at, starts(i));
        forall j | 0 <= j < i
          ensures Launched(old(entries)[j], entries[j], starts(j), at, now)
        {
          LaunchedLater(old(entries)[j], entries[j], starts(j), at, before, now);
        }
      }
    }

    /** `shutdown`: watchers, then the server, then the rest; each kind reaped before the next is
        signalled, and nothing left. */
    method Shutdown()
      requires Valid()
      modifies this
      ensures Valid() && SameEntries() && old(acts) <= acts
      ensures RunningIds(entries) == {}
      ensures Orderly(old(entries), acts[|old(acts)|..])
    {
      ghost var start, base := entries, acts;
      StopKind(Watcher);
      StopInTurn(start, start, Watcher, acts[|base|..]);
      ghost var second, acts2 := entries, acts;
      StopKind(Server);
      StopInTurn(start, second, Server, acts[|acts2|..]);
      ghost var third, acts3 := entries, acts;
      StopKind(KeepAwake);
      StopInTurn(start, third, KeepAwake, acts[|acts3|..]);
      assert acts[|base|..] == acts2[|base|..] + acts3[|acts2|..] + acts[|acts3|..];
      assert RunningIds(entries) == {};
    }

    /** `run`: rounds of reaping and launching until a stop is seen, which comes after any number of them;
        after that nothing is launched, and at the end nothing runs. An exception in a round ends it
        without a signal to anything: the processes keep running. */
    method Run(rounds: nat, script: nat -> Round) returns (ok: bool, ghost n: nat)
      requires Valid() && acts == []
      modifies this
      ensures Valid() && SameEntries()
      ensures n <= rounds && (forall r :: 0 <= r < n ==> !script(r).failed)
      ensures !ok ==> n < rounds && script(n).failed
      ensures ok ==> RunningIds(entries) == {}
      ensures ok ==> exists k :: && 0 <= k < |acts| && acts[k] == StopSeen && Quiet(acts[..k]) && Stops(acts[..k])
                                 && Orderly(old(entries), acts[k + 1..])
      ensures !ok ==> Quiet(acts)
    {
      var r := 0;
      n := 0;
      while true
        invariant Valid() && SameEntries() && Quiet(acts) && n == r <= rounds
        invariant forall q :: 0 <= q < r ==> !script(q).failed
        decreases rounds - r
      {
        var round := script(r);
        if r == rounds {
          Pass(0.0, true);
        }
        Reap(round.polls);
        if stopping {
          break;
        }
        LaunchDue(round.starts);
        Pass(round.wait, round.request);
        if round.failed {
          return false, n;
        }
        r := r + 1;
        n := r;
      }
      ghost var k := |acts|;
      ghost var before, quiet := entries, acts;
      StopsMore(acts, StopSeen);
      acts := acts + [StopSeen];
      Shutdown();
      assert acts[..k] == quiet;
      assert acts[k] == StopSeen && Orderly(before, acts[k + 1..]);
      OrderlySame(before, old(entries), acts[k + 1..]);
      ok := true;
    }

    /** The signals to one kind. */
    method SignalKind(kind: Kind) returns (ghost made: seq<Act>)
      requires Valid()
      modifies this`acts
      ensures Valid() && acts == old(acts) + made && StopActs(entries, kind, made)
      ensures forall i :: 0 <= i < |entries| && entries[i].running && entries[i].kind == kind ==>
                Signal(i, RunningIds(entries)) in made
    {
      made := [];
      for i := 0 to |entries|
        invariant Valid() && acts == old(acts) + made && StopActs(entries, kind, made)
        invariant forall j :: 0 <= j < i && entries[j].running && entries[j].kind == kind ==>
                    Signal(j, RunningIds(entries)) in made
      {
        if entries[i].kind == kind && entries[i].running {
          StopActsMore(entries, kind, made, Signal(i, RunningIds(entries)));
          StopsMore(acts, Signal(i, RunningIds(entries)));
          made := made + [Signal(i, RunningIds(entries))];
          acts := acts + [Signal(i, RunningIds(entries))];
        }
      }
    }

    /** The waits for one kind, each ended by the exit or by a kill. */
    method AwaitKind(kind: Kind) returns (ghost made: seq<Act>)
      requires Valid()
      modifies this
      ensures Valid() && acts == old(acts) + made && StopActs(old(entries), kind, made)
      ensures |entries| == |old(entries)|
      ensures forall j :: 0 <= j < |entries| ==>
                entries[j] == if old(entries)[j].kind == kind then old(entries)[j].(running := false)
                              else old(entries)[j]
      ensures forall j :: 0 <= j < |entries| && old(entries)[j].running && old(entries)[j].kind == kind ==>
                Reaped(j) in made
    {
      ghost var before := entries;
      made := [];
      for i := 0 to |entries|
        invariant Valid() && |entries| == |before| && acts == old(acts) + made && StopActs(before, kind, made)
        invariant forall j :: 0 <= j < i && before[j].running && before[j].kind == kind ==> Reaped(j) in made
        invariant forall j :: 0 <= j < |entries| ==>
                    entries[j] == if j < i && before[j].kind == kind then before[j].(running := false) else before[j]
      {
        if entries[i].kind == kind && entries[i].running {
          entries := entries[i := entries[i].(running := false)];
          StopActsMore(before, kind, made, Reaped(i));
          StopsMore(acts, Reaped(i));
          made := made + [Reaped(i)];
          acts := acts + [Reaped(i)];
        }
      }
    }

    /** Signal every running process of one kind, then wait for each, killing it if it outstays its
        patience. */
    method StopKind(kind: Kind)
      requires Valid()
      modifies this
      ensures Valid() && SameEntries() && old(acts) <= acts
      ensures forall i :: 0 <= i < |entries| && entries[i].kind != kind ==> entries[i] == old(entries)[i]
      ensures NoneRunning(entries, kind)
      ensures StopActs(old(entries), kind, acts[|old(acts)|..])
      ensures forall i :: 0 <= i < |entries| && old(entries)[i].running && old(entries)[i].kind == kind ==>
                Signal(i, RunningIds(old(entries))) in acts[|old(acts)|..] && Reaped(i) in acts[|old(acts)|..]
    {
      ghost var signals := SignalKind(kind);
      ghost var reaped := AwaitKind(kind);
      assert acts[|old(acts)|..] == signals + reaped;
    }
  }

  lemma PolledLater(e: Entry, after: Entry, w: Poll, from: real, to: real, later: real, was: bool, now: bool,
                    next: bool)
    requires Polled(e, after, w, from, to, was, now) && to <= later && (now ==> next)
    ensures Polled(e, after, w, from, later, was, next)
  {
    if e.running && w.exited {
      var stop, at :| EndedAt(e, after, w, from, to, was, now, stop, at);
      assert EndedAt(e, after, w, from, later, was, next, stop, at);
    }
  }

  lemma PolledEarlier(e: Entry, after: Entry, w: Poll, before: real, from: real, to: real, was: bool, since: bool,
                      now: bool)
    requires Polled(e, after, w, from, to, since, now) && before <= from && (was ==> since)
    ensures Polled(e, after, w, before, to, was, now)
  {
    if e.running && w.exited {
      var stop, at :| EndedAt(e, after, w, from, to, since, now, stop, at);
      assert EndedAt(e, after, w, before, to, was, now, stop, at);
    }
  }

  lemma LaunchedLater(e: Entry, after: Entry, w: Start, from: real, to: real, later: real)
    requires Launched(e, after, w, from, to) && to <= later
    ensures Launched(e, after, w, from, later)
  {
    if !(e.running || e.due.None? || e.due.value > from) {
      var at, end :| TriedAt(e, after, w, from, to, at, end);
      assert TriedAt(e, after, w, from, later, at, end);
    }
  }

  /** A kind whose predecessors are down is stopped in its turn. */
  lemma StopInTurn(start: seq<Entry>, entries: seq<Entry>, kind: Kind, acts: seq<Act>)
    requires SameKinds(start, entries) && StopActs(entries, kind, acts)
    requires kind.Server? ==> NoneRunning(entries, Watcher)
    requires kind.KeepAwake? ==> NoneRunning(entries, Watcher) && NoneRunning(entries, Server)
    ensures Orderly(start, acts)
  {
    forall k | 0 <= k < |acts|
      ensures InTurn(start, acts[k])
    {
      if acts[k].Signal? {
        forall j | j in acts[k].running && j < |start|
          ensures entries[j].running
        {
          assert j in RunningIds(entries);
        }
      }
    }
  }

  /** Whom a signal finds running: with the server no watcher, with the last one nothing else. */
  predicate InTurn(entries: seq<Entry>, a: Act) {
    a.Signal? ==>
      && a.id < |entries|
      && (entries[a.id].kind.Server? ==> forall j :: j in a.running && j < |entries| ==> !entries[j].kind.Watcher?)
      && (entries[a.id].kind.KeepAwake? ==> forall j :: j in a.running && j < |entries| ==> entries[j].kind.KeepAwake?)
  }

  predicate Orderly(entries: seq<Entry>, acts: seq<Act>) {
    forall k :: 0 <= k < |acts| ==> !acts[k].Attempt? && InTurn(entries, acts[k])
  }

  lemma OrderlySame(a: seq<Entry>, b: seq<Entry>, acts: seq<Act>)
    requires SameKinds(a, b) && Orderly(a, acts)
    ensures Orderly(b, acts)
  {
    forall k | 0 <= k < |acts|
      ensures InTurn(b, acts[k])
    {
      assert InTurn(a, acts[k]);
    }
  }

  /** Stopping one kind: signals to that kind only, each sent while these entries were running, and
      no new start. */
  ghost predicate StopActs(entries: seq<Entry>, kind: Kind, acts: seq<Act>) {
    forall k :: 0 <= k < |acts| ==>
      && !acts[k].Attempt?
      && (acts[k].Signal? ==>
          acts[k].id < |entries| && entries[acts[k].id].kind == kind && acts[k].running == RunningIds(entries))
  }

  lemma StopActsMore(entries: seq<Entry>, kind: Kind, acts: seq<Act>, a: Act)
    requires StopActs(entries, kind, acts) && !a.Attempt?
    requires a.Signal? ==> a.id < |entries| && entries[a.id].kind == kind && a.running == RunningIds(entries)
    ensures StopActs(entries, kind, acts + [a])
  {
  }
}
