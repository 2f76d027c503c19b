/** `drain` and `run`: one owned process group, with every poll, inspection, clock reading and
    arriving signal free. The trace keeps what happened, in order. */
module GateRun {
  import opened Basics

  /** How `killpg` ended: delivered, no such group, no permission, or another error. */
  datatype Sent = Delivered | Gone | Forbidden | Rejected

  /** What may raise: dispatching, waiting, the two callbacks around the cleanup, and the check that the
      executable's bytes are still the same. */
  datatype Step = Dispatching | Waiting | BeforeCleanup | AfterCleanup | Comparing

  datatype Act =
    | Arrived(numbers: seq<int>)
    | Clocked(elapsed: real)
    | Polled(code: Option<int>)
    | Inspected(members: Option<seq<int>>)
    | Signalled(signal: Signal, sent: Sent)
    | Refused
    | Tried(step: Step, raised: bool)
    | Located(executable: Executable)
    | Spawned(pid: int)
    | Decided

  datatype Cleanup = Cleanup(group: Option<int>, before: Option<seq<int>>, after: Option<seq<int>>,
                             signals: seq<Signal>, errors: nat, drained: bool, returncode: Option<int>)

  datatype Executable = Executable(path: string, sha256: string)

  /** The receipt `run` returns. `error` says that some exception was recorded. */
  datatype Record = Record(passed: bool, command: seq<string>, timeout: real, executable: Option<Executable>,
                           group: Option<int>, processExit: Option<int>, exit: Option<int>,
                           timedOut: bool, received: seq<int>, error: bool, cleanup: Cleanup)

  // ------------------------------------------------------------------ traces

  datatype Kill = Sending(signal: Signal, sent: Sent)

  /** What a trace comes to: the signals that arrived; the first exit code; what inspections answered,
      whether each directly followed a poll, and how many answered nothing; the calls of `killpg`, whether
      each directly followed an inspection that did not find the group empty, and the refusals that
      stand; the steps after the wait; whether anything raised; the latest clock reading, and how many
      came after an arrival; the executable; the process; the decisions. Arrivals come between any two
      acts and do not part them. */
  datatype Tally = Tally(arrived: seq<int>, code: Option<int>, seen: seq<Option<seq<int>>>, reaped: seq<bool>,
                         blanks: nat, kills: seq<Kill>, warranted: bool, refusals: nat, steps: seq<Step>, raised: bool,
                         latest: real, overdue: nat, executable: Option<Executable>, group: Option<int>, decided: nat,
                         last: Option<Act>)

  const NOTHING_YET := Tally([], None, [], [], 0, [], true, 0, [], false, 0.0, 0, None, None, 0, None)

  predicate Inhabited(last: Option<Act>) {
    last.Some? && last.value.Inspected? && last.value.members != Some([])
  }

  function Add(t: Tally, a: Act): Tally {
    match a
    case Arrived(numbers) => t.(arrived := t.arrived + numbers)
    case Clocked(elapsed) =>
      t.(last := Some(a), latest := if elapsed > t.latest then elapsed else t.latest,
         overdue := t.overdue + if t.arrived == [] then 0 else 1)
    case Polled(code) => t.(last := Some(a), code := if t.code.None? then code else t.code)
    case Inspected(members) =>
      t.(last := Some(a), seen := t.seen + [members], reaped := t.reaped + [t.last.Some? && t.last.value.Polled?],
         blanks := t.blanks + if members.None? then 1 else 0)
    case Signalled(signal, sent) =>
      t.(last := Some(a), kills := t.kills + [Sending(signal, sent)], warranted := t.warranted && Inhabited(t.last))
    case Refused => t.(last := Some(a), refusals := t.refusals + 1)
    case Tried(step, raised) =>
      t.(last := Some(a), raised := t.raised || raised,
         steps := if step.Dispatching? || step.Waiting? then t.steps else t.steps + [step])
    case Located(executable) => t.(last := Some(a), executable := Some(executable))
    case Spawned(pid) => t.(last := Some(a), group := Some(pid))
    case Decided => t.(last := Some(a), decided := t.decided + 1)
  }

  function TallyOf(acts: seq<Act>): Tally {
    if acts == [] then NOTHING_YET else Add(TallyOf(acts[..|acts| - 1]), acts[|acts| - 1])
  }

  lemma OneMore(acts: seq<Act>, a: Act)
    ensures TallyOf(acts + [a]) == Add(TallyOf(acts), a)
  {
    assert (acts + [a])[..|acts|] == acts;
  }

  /** Every clock reading was inside the deadline. */
  predicate OnTime(acts: seq<Act>, timeout: real) {
    forall i :: 0 <= i < |acts| && acts[i].Clocked? ==> acts[i].elapsed < timeout
  }

  /** No poll found an exit code. */
  predicate Unreaped(acts: seq<Act>) {
    forall i :: 0 <= i < |acts| && acts[i].Polled? ==> acts[i].code.None?
  }

  /** Some step raised. */
  predicate Raised(acts: seq<Act>) {
    exists i :: 0 <= i < |acts| && acts[i].Tried? && acts[i].raised
  }

  lemma {:induction false} RaisedMeans(acts: seq<Act>)
    ensures TallyOf(acts).raised <==> Raised(acts)
  {
    if acts != [] {
      var init, last := acts[..|acts| - 1], acts[|acts| - 1];
      RaisedMeans(init);
      RaisedMore(init, last);
      assert acts == init + [last];
    }
  }

  lemma RaisedMore(acts: seq<Act>, a: Act)
    ensures Raised(acts + [a]) <==> Raised(acts) || (a.Tried? && a.raised)
  {
    assert (acts + [a])[|acts|] == a;
    assert forall i :: 0 <= i < |acts| ==> (acts + [a])[i] == acts[i];
  }

  lemma {:induction false} LatestMeans(acts: seq<Act>, timeout: real)
    requires timeout > 0.0
    ensures TallyOf(acts).latest < timeout <==> OnTime(acts, timeout)
  {
    if acts != [] {
      var init, last := acts[..|acts| - 1], acts[|acts| - 1];
      LatestMeans(init, timeout);
      OnTimeMore(init, last, timeout);
      assert acts == init + [last];
    }
  }

  lemma OnTimeMore(acts: seq<Act>, a: Act, timeout: real)
    ensures OnTime(acts + [a], timeout) <==> OnTime(acts, timeout) && (a.Clocked? ==> a.elapsed < timeout)
  {
    assert (acts + [a])[|acts|] == a;
    assert forall i :: 0 <= i < |acts| ==> (acts + [a])[i] == acts[i];
  }

  lemma {:induction false} CodeMeans(acts: seq<Act>)
    ensures TallyOf(acts).code.None? <==> Unreaped(acts)
    ensures TallyOf(acts).code.Some? ==> Polled(TallyOf(acts).code) in acts
  {
    if acts != [] {
      var init, last := acts[..|acts| - 1], acts[|acts| - 1];
      CodeMeans(init);
      UnreapedMore(init, last);
      assert acts == init + [last];
    }
  }

  lemma UnreapedMore(acts: seq<Act>, a: Act)
    ensures Unreaped(acts + [a]) <==> Unreaped(acts) && (a.Polled? ==> a.code.None?)
  {
    assert (acts + [a])[|acts|] == a;
    assert forall i :: 0 <= i < |acts| ==> (acts + [a])[i] == acts[i];
  }

  lemma {:induction false} BlanksMeans(acts: seq<Act>)
    ensures TallyOf(acts).blanks == 0 <==> Answered(TallyOf(acts).seen)
  {
    if acts != [] {
      var t, last := TallyOf(acts[..|acts| - 1]), acts[|acts| - 1];
      BlanksMeans(acts[..|acts| - 1]);
      if last.Inspected? {
        assert (t.seen + [last.members])[|t.seen|] == last.members;
        assert forall i :: 0 <= i < |t.seen| ==> (t.seen + [last.members])[i] == t.seen[i];
      }
    }
  }

  /** SIGTERM first, then SIGKILL, each at most once. */
  predicate InOrder(kills: seq<Kill>) {
    |kills| <= 2 && (|kills| > 0 ==> kills[0].signal == Term) && (|kills| > 1 ==> kills[1].signal == Kill)
  }

  /** The signals that were delivered. */
  function Landed(kills: seq<Kill>): seq<Signal> {
    if kills == [] then []
    else if kills[0].sent == Delivered then [kills[0].signal] + Landed(kills[1..])
    else Landed(kills[1..])
  }

  predicate Answered(seen: seq<Option<seq<int>>>) {
    forall i :: 0 <= i < |seen| ==> seen[i].Some?
  }

  const SIGINT := 2
  const SIGTERM := 15

  const NAP := 0.05
  const GRACE := 10.0

  /** How many naps fit before a deadline this far away. */
  function Naps(left: real): nat {
    if left <= 0.0 then 0 else (left * 20.0).Floor + 1
  }

  lemma NapsFewer(left: real, later: real)
    requires left > 0.0 && later <= left - NAP
    ensures Naps(later) < Naps(left)
  {
    if later > 0.0 {
      assert later * 20.0 <= left * 20.0 - 1.0;
    }
  }

  predicate Known(numbers: seq<int>) {
    forall i :: 0 <= i < |numbers| ==> numbers[i] == SIGINT || numbers[i] == SIGTERM
  }

  lemma KnownMore(a: seq<int>, b: seq<int>)
    requires Known(a) && Known(b)
    ensures Known(a + b)
  {
  }

  class OwnedGroup {
    /** The child's reaped exit code, and the signals the handler appended. */
    var returncode: Option<int>
    var received: seq<int>
    /** The monotonic clock since the start. */
    var now: real
    ghost var trace: seq<Act>
    ghost var tally: Tally

    ghost predicate Valid()
      reads this
    {
      && tally == TallyOf(trace) && returncode == tally.code && received == tally.arrived
      && tally.warranted && |tally.reaped| == |tally.seen| && Known(received)
    }

    constructor ()
      ensures Valid() && returncode == None && received == [] && trace == [] && now == 0.0
    {
      returncode, received, trace, tally, now := None, [], [], NOTHING_YET, 0.0;
    }

    /** What every step keeps. */
    twostate predicate Grew()
      reads this
    {
      Valid() && old(trace) <= trace && old(received) <= received && old(now) <= now
    }

    /** Only this act happened, and signals may have arrived before it. */
    twostate predicate Did(a: Act)
      reads this
    {
      Grew() && tally == Add(old(tally).(arrived := received), a)
    }

    method Note(ghost a: Act)
      requires Valid() && !a.Arrived? && !a.Polled? && (a.Signalled? ==> Inhabited(tally.last))
      modifies this`trace, this`tally
      ensures Did(a) && trace == old(trace) + [a]
    {
      OneMore(trace, a);
      trace, tally := trace + [a], Add(tally, a);
    }

    /** Time passes, and signals may arrive, between any two steps. */
    method Interrupts()
      requires Valid()
      modifies this`received, this`trace, this`tally, this`now
      ensures Grew() && tally == old(tally).(arrived := received)
      ensures trace == old(trace) || (|trace| == |old(trace)| + 1 && trace[|old(trace)|].Arrived?)
    {
      var passing: real :| passing >= 0.0;
      now := now + passing;
      assert Known([]);
      var numbers: seq<int> :| Known(numbers);
      if numbers != [] {
        OneMore(trace, Arrived(numbers));
        KnownMore(received, numbers);
        received := received + numbers;
        trace, tally := trace + [Arrived(numbers)], Add(tally, Arrived(numbers));
      }
    }

    method Poll() returns (code: Option<int>)
      requires Valid()
      modifies this`returncode, this`received, this`trace, this`tally, this`now
      ensures Did(Polled(code)) && code == returncode && (old(returncode).Some? ==> code == old(returncode))
    {
      Interrupts();
      if returncode.None? {
        code := *;
      } else {
        code := returncode;
      }
      OneMore(trace, Polled(code));
      trace, tally := trace + [Polled(code)], Add(tally, Polled(code));
      returncode := code;
    }

    method Clock() returns (elapsed: real)
      requires Valid()
      modifies this`received, this`trace, this`tally, this`now
      ensures Did(Clocked(elapsed)) && elapsed == now
    {
      Interrupts();
      elapsed := now;
      Note(Clocked(elapsed));
    }

    method Inspect() returns (members: Option<seq<int>>)
      requires Valid()
      modifies this`received, this`trace, this`tally, this`now
      ensures Did(Inspected(members))
    {
      Interrupts();
      members := *;
      Note(Inspected(members));
    }

    /** A step that may raise. */
    method Try(step: Step) returns (raised: bool)
      requires Valid()
      modifies this`received, this`trace, this`tally, this`now
      ensures Did(Tried(step, raised))
    {
      Interrupts();
      raised := *;
      Note(Tried(step, raised));
    }

    /** Only acts of a cleanup happened. */
    twostate predicate Cleans()
      reads this
    {
      Grew() && Cleaned(old(tally), tally) && (old(returncode).Some? ==> returncode == old(returncode))
    }

    /** Reap the leader if it is gone, then inspect. */
    method Look() returns (members: Option<seq<int>>)
      requires Valid()
      modifies this`returncode, this`received, this`trace, this`tally, this`now
      ensures Cleans() && tally.kills == old(tally).kills && tally.refusals == old(tally).refusals
      ensures tally.seen == old(tally).seen + [members] && tally.reaped == old(tally).reaped + [true]
      ensures tally.blanks == old(tally).blanks + if members.None? then 1 else 0
    {
      var code := Poll();
      members := Inspect();
    }

    /** Wait until the group is found empty, is unknown after its leader is gone, or the grace runs out. */
    method Await() returns (errors: nat)
      requires Valid()
      modifies this
      ensures Cleans() && tally.kills == old(tally).kills && tally.refusals == old(tally).refusals
      ensures errors == tally.blanks - old(tally).blanks
      ensures forall i :: |old(tally).seen| <= i < |tally.seen| - 1 ==>
                tally.seen[i] != Some([]) && (old(returncode).Some? ==> tally.seen[i].Some?)
      ensures now >= old(now) + 10.0 || (|tally.seen| > |old(tally).seen| && Enough(Last(tally.seen), returncode))
    {
      errors := 0;
      var until := now + GRACE;
      while now < until
        invariant Cleans() && tally.kills == old(tally).kills && tally.refusals == old(tally).refusals
        invariant errors == tally.blanks - old(tally).blanks
        invariant forall i :: |old(tally).seen| <= i < |tally.seen| ==>
                    tally.seen[i] != Some([]) && (old(returncode).Some? ==> tally.seen[i].Some?)
        decreases Naps(until - now)
      {
        ghost var left := until - now;
        var observed := Look();
        if observed.None? {
          errors := errors + 1;
        }
        if observed == Some([]) || (observed.None? && returncode.Some?) {
          break;
        }
        NapsFewer(left, until - (now + NAP));
        now := now + NAP;
      }
    }

    /** One `killpg`. */
    method Send(signal: Signal) returns (sent: Sent, errors: nat)
      requires Valid() && Inhabited(tally.last)
      modifies this
      ensures Cleans() && tally.kills == old(tally).kills + [Sending(signal, sent)]
      ensures errors == Faults(tally) - Faults(old(tally))
      ensures tally.refusals == old(tally).refusals + if Stands(sent, returncode, old(tally), tally) then 1 else 0
    {
      sent := *;
      Note(Signalled(signal, sent));
      errors := 0;
      if sent == Forbidden || sent == Rejected {
        errors := Excuse(sent == Forbidden);
      }
    }

    /** A refused signal: for want of permission it is excused once the leader is found reaped and the
        group empty. */
    method Excuse(forbidden: bool) returns (errors: nat)
      requires Valid()
      modifies this
      ensures Cleans() && tally.kills == old(tally).kills && errors == Faults(tally) - Faults(old(tally))
      ensures tally.refusals == old(tally).refusals
                + if forbidden && returncode.Some? && FoundEmpty(old(tally).seen, tally.seen) then 0 else 1
    {
      var again := Recheck(forbidden);
      errors := if again == Some(None) then 1 else 0;
      if again != Some(Some([])) {
        errors := errors + 1;
        Note(Refused);
      }
    }

    /** The leader, and if that may excuse a refusal the group. */
    method Recheck(forbidden: bool) returns (again: Option<Option<seq<int>>>)
      requires Valid()
      modifies this
      ensures Cleans() && tally.kills == old(tally).kills && tally.refusals == old(tally).refusals
      ensures again.Some? <==> forbidden && returncode.Some?
      ensures tally.seen == if again.Some? then old(tally).seen + [again.value] else old(tally).seen
      ensures tally.blanks == old(tally).blanks + if again == Some(None) then 1 else 0
    {
      var code := Poll();
      again := None;
      if forbidden && code.Some? {
        var members := Inspect();
        again := Some(members);
      }
    }

    /** One signal of the two, unless the group is already empty. */
    method Attempt(signal: Signal) returns (sent: Option<Sent>, errors: nat)
      requires Valid()
      modifies this
      ensures Cleans() && (sent.None? ==> tally.kills == old(tally).kills)
      ensures sent.Some? ==> tally.kills == old(tally).kills + [Sending(signal, sent.value)]
      ensures Trying(old(tally), tally, sent) && errors == Faults(tally) - Faults(old(tally))
    {
      var members := Inspect();
      if members == Some([]) {
        return None, 0;
      }
      var how, faults := Send(signal);
      var more := Await();
      sent, errors := Some(how), faults + more + (if members.None? then 1 else 0);
    }

    /** SIGTERM, then SIGKILL, each unless an inspection finds the group empty. */
    method Terminate() returns (signals: seq<Signal>, errors: nat, ghost kills: seq<Kill>)
      requires Valid()
      modifies this
      ensures Cleans() && tally.kills == old(tally).kills + kills && Terminating(old(tally).seen, tally.seen, kills)
      ensures signals == Landed(kills) && errors == Faults(tally) - Faults(old(tally))
    {
      var sent, more := Attempt(Term);
      signals, errors := if sent == Some(Delivered) then [Term] else [], more;
      kills := if sent.Some? then [Sending(Term, sent.value)] else [];
      if sent.Some? {
        sent, more := Attempt(Kill);
        errors := errors + more;
        signals := signals + (if sent == Some(Delivered) then [Kill] else []);
        kills := kills + (if sent.Some? then [Sending(Kill, sent.value)] else []);
      }
      LandedTwo(kills);
    }

    /** `drain`: signals are sent only to a group that an inspection did not find empty. */
    method Drain(group: int) returns (c: Cleanup, ghost kills: seq<Kill>)
      requires Valid()
      modifies this
      ensures Cleans() && tally.kills == old(tally).kills + kills
      ensures Drained(|old(tally).seen|, tally.seen, tally.reaped, kills)
      ensures c.group == Some(group) && c.returncode == returncode
      ensures c.before == tally.seen[|old(tally).seen|] && c.after == Last(tally.seen)
      ensures c.signals == Landed(kills) && c.errors == Faults(tally) - Faults(old(tally))
      ensures c.drained <==> c.after == Some([]) && c.errors == 0
    {
      var before := Look();
      ghost var begun := tally;
      var signals, errors;
      signals, errors, kills := Terminate();
      ghost var middle := tally;
      var after := Look();
      DrainedSteps(old(tally), begun, middle, tally, before, after, kills);
      errors := errors + (if before.None? then 1 else 0) + (if after.None? then 1 else 0);
      c := Cleanup(Some(group), before, after, signals, errors, after == Some([]) && errors == 0, returncode);
    }

    /** The wait: a signal, the deadline, an error or the child's exit ends it. */
    method Wait(timeout: real) returns (exit: Option<int>, timedOut: bool, error: bool)
      requires Valid() && returncode.None? && !tally.raised && tally.latest < timeout && tally.overdue == 0
      modifies this`returncode, this`received, this`trace, this`tally, this`now
      ensures Grew() && Waited(old(tally), tally)
      ensures exit == returncode && (timedOut <==> tally.latest >= timeout) && (error <==> tally.raised)
      ensures exit.Some? ==> !timedOut && !error
      ensures exit.None? ==> timedOut || error || received != []
    {
      exit, timedOut, error := None, false, false;
      while true
        invariant Grew() && Waited(old(tally), tally) && (received == [] ==> tally.overdue == 0)
        invariant returncode.None? && !tally.raised && tally.latest < timeout
        invariant exit.None? && !timedOut && !error
        decreases Naps(timeout - now)
      {
        ghost var left := timeout - now;
        if received != [] {
          break;
        }
        var elapsed := Clock();
        if elapsed >= timeout {
          timedOut := true;
          break;
        }
        error := Try(Waiting);
        if error {
          break;
        }
        var code := Poll();
        if code.Some? {
          exit := code;
          break;
        }
        NapsFewer(left, timeout - (now + NAP));
        now := now + NAP;
      }
    }

    /** Identify the executable, unless a signal arrived first. */
    method Identify() returns (executable: Option<Executable>, error: bool)
      requires Valid() && trace == []
      modifies this`received, this`trace, this`tally, this`now
      ensures Grew() && executable == tally.executable && (error <==> tally.raised)
      ensures tally == NOTHING_YET.(arrived := received, executable := executable, raised := error, last := tally.last)
      ensures executable.None? ==> error || received != []
    {
      executable := None;
      error := Try(Dispatching);
      if error || received != [] {
        return;
      }
      error := Try(Dispatching);
      if error {
        return;
      }
      var found: Executable := *;
      Note(Located(found));
      executable := Some(found);
    }

    /** Then start the process, up to the first exception. */
    method Launch() returns (executable: Option<Executable>, group: Option<int>, error: bool)
      requires Valid() && trace == []
      modifies this`received, this`trace, this`tally, this`now
      ensures Grew() && Dispatched(tally) && executable == tally.executable && group == tally.group
      ensures tally.latest == 0.0 && tally.overdue == 0 && tally.code.None? && (error <==> tally.raised)
      ensures group.None? ==> error || received != []
    {
      group := None;
      executable, error := Identify();
      if error || executable.None? {
        return;
      }
      error := Try(Dispatching);
      if error {
        return;
      }
      var pid: int :| pid > 0;
      Note(Spawned(pid));
      group := Some(pid);
      error := Try(Dispatching);
    }

    /** Dispatch and wait, up to the first exception. */
    method Dispatch(timeout: real) returns (executable: Option<Executable>, group: Option<int>, exit: Option<int>,
                                            timedOut: bool, error: bool)
      requires Valid() && trace == [] && timeout > 0.0
      modifies this`returncode, this`received, this`trace, this`tally, this`now
      ensures Grew() && Dispatched(tally) && executable == tally.executable && group == tally.group
      ensures exit == returncode && (timedOut <==> tally.latest >= timeout) && (error <==> tally.raised)
      ensures exit.Some? ==> group.Some? && !timedOut && !error
      ensures exit.None? ==> timedOut || error || received != []
    {
      executable, group, error := Launch();
      exit, timedOut := None, false;
      if group.Some? && !error {
        exit, timedOut, error := Wait(timeout);
      }
    }

    /** The exit code, from what the handler has collected by now. */
    method Choose(exit: Option<int>, timedOut: bool, error: bool, cleanup: Cleanup) returns (code: Option<int>)
      requires exit.None? ==> timedOut || error || received != []
      ensures Chosen(code, exit, timedOut, received, error, cleanup)
    {
      code := exit;
      if timedOut {
        code := Some(124);
      } else if received != [] {
        code := Some(128 + received[0]);
      } else if error || !cleanup.drained || cleanup.errors > 0 || cleanup.before.None? || cleanup.before.value != [] {
        code := Some(125);
      }
    }

    /** The decision: signals may arrive before it and after it. */
    method Settle(exit: Option<int>, timedOut: bool, error: bool, cleanup: Cleanup)
        returns (code: Option<int>, ghost d: nat)
      requires Valid() && (exit.None? ==> timedOut || error || received != [])
      modifies this`received, this`trace, this`tally, this`now
      ensures Grew() && d < |trace| && trace[d] == Decided && Known(TallyOf(trace[..d]).arrived)
      ensures tally == old(tally).(arrived := received, last := Some(Decided), decided := old(tally).decided + 1)
      ensures Chosen(code, exit, timedOut, TallyOf(trace[..d]).arrived, error, cleanup)
    {
      Interrupts();
      d := |trace|;
      ghost var before := trace;
      Note(Decided);
      code := Choose(exit, timedOut, error, cleanup);
      Interrupts();
      assert trace[..d] == before && trace[d] == Decided;
    }

    /** Drain the group, if one was started. */
    method DrainStarted(group: Option<int>) returns (cleanup: Cleanup)
      requires Valid() && tally.seen == [] && tally.kills == [] && Faults(tally) == 0
      modifies this
      ensures Grew() && Aside(old(tally), tally) && (old(returncode).Some? ==> returncode == old(returncode))
      ensures Clears(cleanup, group, returncode, tally)
    {
      cleanup := Cleanup(None, Some([]), Some([]), [], 0, true, None);
      if group.Some? {
        ghost var kills;
        cleanup, kills := Drain(group.value);
        FirstDrain(old(tally), tally, cleanup, group, returncode, kills);
      }
    }

    /** The callback after the cleanup and the check of the executable's bytes may raise. */
    method RunChecks(executable: Option<Executable>) returns (error: bool)
      requires Valid()
      modifies this`received, this`trace, this`tally, this`now
      ensures Grew()
      ensures tally == old(tally).(arrived := received, raised := old(tally).raised || error, last := tally.last,
                                   steps := old(tally).steps
                                     + [AfterCleanup] + if executable.Some? then [Comparing] else [])
    {
      error := Try(AfterCleanup);
      if executable.Some? {
        var more := Try(Comparing);
        error := error || more;
      }
    }

    /** Dispatch, wait and clean up. The callback before the cleanup may raise. */
    method Perform(timeout: real) returns (executable: Option<Executable>, group: Option<int>, exit: Option<int>,
                                           timedOut: bool, error: bool, cleanup: Cleanup)
      requires Valid() && trace == [] && timeout > 0.0
      modifies this
      ensures Grew() && Performed(tally) && executable == tally.executable && group == tally.group
      ensures (timedOut <==> tally.latest >= timeout) && (error <==> tally.raised)
      ensures exit.Some? ==> exit == returncode && group.Some? && !timedOut
      ensures exit.None? ==> timedOut || error || received != []
      ensures Clears(cleanup, group, returncode, tally)
    {
      executable, group, exit, timedOut, error := Dispatch(timeout);
      var before := Try(BeforeCleanup);
      cleanup := DrainStarted(group);
      var after := RunChecks(executable);
      error := error || before || after;
    }

    /** `run` with any callbacks. A timeout outside its range is refused before anything starts. */
    method Run(command: seq<string>, timeout: real) returns (r: Option<Record>, ghost d: nat)
      requires Valid() && trace == []
      modifies this
      ensures r.Some? <==> 0.0 < timeout <= 86400.0
      ensures r.None? ==> trace == []
      ensures r.Some? ==> r.value.command == command && r.value.timeout == timeout && Tells(r.value, trace, d)
      ensures r.Some? ==> (r.value.passed <==> Passes(r.value, TallyOf(trace[..d]).arrived))
      ensures r.Some? ==> TellsCleanup(r.value.cleanup, r.value.group, r.value.processExit, TallyOf(trace))
    {
      d := 0;
      if !(0.0 < timeout <= 86400.0) {
        return None, d;
      }
      var executable, group, exit, timedOut, error, cleanup := Perform(timeout);
      var code;
      code, d := Settle(exit, timedOut, error, cleanup);
      r := Some(Record(code == Some(0), command, timeout, executable, group, returncode, code, timedOut, received,
                       error, cleanup));
      RecordTells(r.value, trace, d, exit);
    }
  }

  /** What everything up to the decision comes to: both callbacks ran, and the executable was checked again if
      it was identified. */
  predicate Performed(t: Tally) {
    && t.steps == [BeforeCleanup, AfterCleanup] + (if t.executable.Some? then [Comparing] else [])
    && t.overdue <= 1 && t.decided == 0 && t.warranted && (t.group.Some? ==> t.group.value > 0 && t.executable.Some?)
  }

  predicate Clears(c: Cleanup, group: Option<int>, code: Option<int>, t: Tally) {
    if group.None? then c == Cleanup(None, Some([]), Some([]), [], 0, true, None) && t.seen == [] && t.kills == []
    else
      && Drained(0, t.seen, t.reaped, t.kills)
      && c.group == group && c.returncode == code && c.before == t.seen[0] && c.after == Last(t.seen)
      && c.signals == Landed(t.kills) && c.errors == Faults(t)
      && (c.drained <==> c.after == Some([]) && c.errors == 0)
  }

  lemma RecordTells(r: Record, trace: seq<Act>, d: nat, exit: Option<int>)
    requires r.timeout > 0.0 && d < |trace| && trace[d] == Decided && Known(TallyOf(trace[..d]).arrived)
    requires var t := TallyOf(trace);
             && Performed(t.(decided := 0)) && t.decided == 1 && r.executable == t.executable && r.group == t.group
             && (r.timedOut <==> t.latest >= r.timeout) && (r.error <==> t.raised)
             && r.processExit == t.code && r.received == t.arrived && (r.passed <==> r.exit == Some(0))
             && Clears(r.cleanup, r.group, r.processExit, t)
    requires Chosen(r.exit, exit, r.timedOut, TallyOf(trace[..d]).arrived, r.error, r.cleanup)
    requires exit.Some? ==> exit == r.processExit && r.group.Some?
    ensures Tells(r, trace, d) && (r.passed <==> Passes(r, TallyOf(trace[..d]).arrived))
    ensures TellsCleanup(r.cleanup, r.group, r.processExit, TallyOf(trace))
  {
    RaisedMeans(trace);
    LatestMeans(trace, r.timeout);
    CodeMeans(trace);
    BlanksMeans(trace);
  }

  function Last(seen: seq<Option<seq<int>>>): Option<seq<int>>
    requires seen != []
  {
    seen[|seen| - 1]
  }

  /** The group was found empty, or nothing more can be learnt of it. */
  predicate Enough(observed: Option<seq<int>>, code: Option<int>) {
    observed == Some([]) || (observed.None? && code.Some?)
  }

  /** One inspection more, which found the group empty. */
  predicate FoundEmpty(before: seq<Option<seq<int>>>, after: seq<Option<seq<int>>>) {
    |after| == |before| + 1 && Last(after) == Some([])
  }

  /** Unanswered inspections and refusals that stand. */
  function Faults(t: Tally): nat {
    t.blanks + t.refusals
  }

  /** A refusal stands unless it was for want of permission and, right after, the leader was found reaped
      and the group empty. */
  predicate Stands(sent: Sent, code: Option<int>, before: Tally, after: Tally) {
    sent == Rejected || (sent == Forbidden && !(code.Some? && FoundEmpty(before.seen, after.seen)))
  }

  /** Only what a cleanup does happened. */
  predicate Aside(a: Tally, b: Tally) {
    b == a.(arrived := b.arrived, code := b.code, seen := b.seen, reaped := b.reaped, blanks := b.blanks,
            kills := b.kills, refusals := b.refusals, last := b.last)
  }

  /** A tally grew by acts of a cleanup. */
  predicate Cleaned(a: Tally, b: Tally) {
    Aside(a, b) && a.seen <= b.seen && a.reaped <= b.reaped
  }

  /** A signal was sent, unless the next inspection found the group empty. */
  predicate Trying(a: Tally, b: Tally, sent: Option<Sent>) {
    && |a.seen| < |b.seen| && (sent.None? <==> b.seen[|a.seen|] == Some([]))
    && (sent.None? ==> |b.seen| == |a.seen| + 1)
  }

  /** SIGTERM was sent unless the next inspection found the group empty, SIGKILL unless the last one did. */
  predicate Terminating(a: seq<Option<seq<int>>>, b: seq<Option<seq<int>>>, kills: seq<Kill>) {
    && a <= b && |a| < |b| && InOrder(kills) && (kills == [] <==> b[|a|] == Some([]))
    && (|kills| < 2 ==> Last(b) == Some([]))
  }

  /** The same between two inspections that each directly follow a poll. */
  predicate Drained(from: nat, seen: seq<Option<seq<int>>>, reaped: seq<bool>, kills: seq<Kill>) {
    && from + 3 <= |seen| && |reaped| == |seen| && reaped[from] && reaped[|seen| - 1] && InOrder(kills)
    && (kills == [] <==> seen[from + 1] == Some([])) && (|kills| < 2 ==> seen[|seen| - 2] == Some([]))
  }

  lemma DrainedSteps(a: Tally, b: Tally, c: Tally, d: Tally, before: Option<seq<int>>, after: Option<seq<int>>,
                     kills: seq<Kill>)
    requires |a.reaped| == |a.seen| && |c.reaped| == |c.seen|
    requires b.seen == a.seen + [before] && b.reaped == a.reaped + [true] && b.reaped <= c.reaped
    requires Terminating(b.seen, c.seen, kills) && d.seen == c.seen + [after] && d.reaped == c.reaped + [true]
    ensures Drained(|a.seen|, d.seen, d.reaped, kills) && d.seen[|a.seen|] == before
  {
  }

  lemma FirstDrain(a: Tally, b: Tally, c: Cleanup, group: Option<int>, code: Option<int>, kills: seq<Kill>)
    requires a.seen == [] && a.kills == [] && Faults(a) == 0 && group.Some?
    requires b.kills == a.kills + kills && Drained(|a.seen|, b.seen, b.reaped, kills)
    requires c.group == group && c.returncode == code && c.before == b.seen[|a.seen|] && c.after == Last(b.seen)
    requires c.signals == Landed(kills) && c.errors == Faults(b) - Faults(a)
    requires c.drained <==> c.after == Some([]) && c.errors == 0
    ensures Clears(c, group, code, b)
  {
    assert b.kills == kills;
  }

  lemma LandedTwo(kills: seq<Kill>)
    requires |kills| <= 2
    ensures kills == [] ==> Landed(kills) == []
    ensures |kills| == 1 ==> Landed(kills) == if kills[0].sent == Delivered then [kills[0].signal] else []
    ensures |kills| == 2 ==>
              Landed(kills) == (if kills[0].sent == Delivered then [kills[0].signal] else [])
                               + (if kills[1].sent == Delivered then [kills[1].signal] else [])
  {
    if |kills| == 2 {
      assert kills[1..][0] == kills[1] && kills[1..][1..] == [];
    }
  }

  /** Acts of the wait happened: after an arrival the clock is read at most once more. */
  predicate Waited(a: Tally, b: Tally) {
    && b == a.(arrived := b.arrived, code := b.code, raised := b.raised, latest := b.latest, overdue := b.overdue,
               last := b.last)
    && b.overdue <= 1
  }

  /** What a dispatch and its wait come to. */
  predicate Dispatched(t: Tally) {
    && t == NOTHING_YET.(arrived := t.arrived, code := t.code, raised := t.raised, latest := t.latest,
                         overdue := t.overdue, executable := t.executable, group := t.group, last := t.last)
    && t.overdue <= 1 && (t.group.Some? ==> t.group.value > 0 && t.executable.Some?)
  }

  /** How the exit code is chosen. */
  predicate Chosen(code: Option<int>, exit: Option<int>, timedOut: bool, arrived: seq<int>, error: bool,
                   cleanup: Cleanup)
  {
    var unclean := !cleanup.drained || cleanup.errors > 0 || cleanup.before != Some([]);
    && (timedOut ==> code == Some(124))
    && (!timedOut && arrived != [] ==> code == Some(128 + arrived[0]))
    && (!timedOut && arrived == [] && (error || unclean) ==> code == Some(125))
    && (!timedOut && arrived == [] && !error && !unclean ==> code == exit && exit.Some?)
  }

  /** The record against what happened up to the decision and after it. */
  ghost predicate Tells(r: Record, trace: seq<Act>, d: nat) {
    var t := TallyOf(trace);
    && d < |trace| && trace[d] == Decided && t.decided == 1 && t.overdue <= 1
    && t.steps == [BeforeCleanup, AfterCleanup] + (if r.executable.Some? then [Comparing] else [])
    && (r.timedOut <==> !OnTime(trace, r.timeout)) && (r.error <==> Raised(trace))
    && (r.processExit.Some? ==> Polled(r.processExit) in trace) && (r.processExit.None? ==> Unreaped(trace))
    && r.executable == t.executable && r.group == t.group && (r.group.Some? ==> r.group.value > 0 && r.executable.Some?)
    && r.received == t.arrived && (r.passed <==> r.exit == Some(0))
    && Chosen(r.exit, r.processExit, r.timedOut, TallyOf(trace[..d]).arrived, r.error, r.cleanup)
  }

  /** A run passes exactly when its child exited 0 in time, no signal arrived before the decision, nothing
      raised, and the group was found empty from the start and drained without an error. */
  predicate Passes(r: Record, arrived: seq<int>) {
    && r.processExit == Some(0) && !r.timedOut && arrived == [] && !r.error && r.group.Some?
    && r.cleanup.drained && r.cleanup.errors == 0 && r.cleanup.before == Some([])
  }

  /** The cleanup against what happened. Without a process nothing was inspected or signalled. With one,
      SIGTERM went out unless the second inspection found the group empty, and SIGKILL unless the last
      but one did; the record tells the first and the last inspection, the signals delivered, and an
      error exactly for an unanswered inspection or a refusal that stands. */
  ghost predicate TellsCleanup(c: Cleanup, group: Option<int>, code: Option<int>, t: Tally) {
    if group.None? then c == Cleanup(None, Some([]), Some([]), [], 0, true, None) && t.seen == [] && t.kills == []
    else
      && Drained(0, t.seen, t.reaped, t.kills) && t.warranted
      && c.group == group && c.returncode == code && c.before == t.seen[0] && c.after == Last(t.seen)
      && c.signals == Landed(t.kills) && (c.errors == 0 <==> Answered(t.seen) && t.refusals == 0)
      && (c.drained <==> c.after == Some([]) && c.errors == 0)
  }

  // ----------------------------------------------------------- verification

  /** What every record of `run` satisfies: it passed exactly with exit code 0, and then everything in it
      but late signals and cleanup signals is as the verifier wants it. */
  predicate Consistent(r: Record) {
    && (r.passed <==> r.exit == Some(0))
    && (r.passed ==>
          && r.processExit == Some(0) && !r.timedOut && !r.error && r.executable.Some?
          && r.group.Some? && r.group.value > 0 && r.cleanup.group == r.group
          && r.cleanup.drained && r.cleanup.errors == 0 && r.cleanup.returncode == Some(0)
          && r.cleanup.before == Some([]) && r.cleanup.after == Some([]))
  }

  /** Hence which records of `run` the verifier accepts. */
  lemma RecordVerified(r: Record, trace: seq<Act>, d: nat)
    requires Tells(r, trace, d) && TellsCleanup(r.cleanup, r.group, r.processExit, TallyOf(trace))
    requires r.passed <==> Passes(r, TallyOf(trace[..d]).arrived)
    ensures Consistent(r)
    ensures Verified(GateOf(r), r, r.timeout) <==>
              && r.passed && NamesCommand(r.command, r.executable.value)
              && TallyOf(trace).arrived == [] && Landed(TallyOf(trace).kills) == []
  {
    VerifiedExactly(GateOf(r), r, r.timeout);
  }

  /** The gate record `release_gate` keeps of a finished run, with the stability of its outputs. */
  datatype Gate = Gate(command: seq<string>, timeout: real, timedOut: bool, received: seq<int>, error: bool,
                       cleanup: Cleanup, outputsStable: bool)

  function GateOf(r: Record): Gate {
    Gate(r.command, r.timeout, r.timedOut, r.received, r.error, r.cleanup,
         r.cleanup.drained && r.cleanup.errors == 0)
  }

  predicate Absolute(path: string) {
    path != [] && path[0] == '/'
  }

  /** The last name of a path. */
  function BaseName(path: string): (r: string)
    ensures |r| <= |path| && r == path[|path| - |r|..] && '/' !in r
    ensures |r| < |path| ==> path[|path| - |r| - 1] == '/'
  {
    if path == [] then []
    else if path[|path| - 1] == '/' then []
    else BaseName(path[..|path| - 1]) + [path[|path| - 1]]
  }

  /** The recorded executable is the one the command names. */
  predicate NamesCommand(command: seq<string>, e: Executable) {
    && Absolute(e.path) && Digest(e.sha256) && command != []
    && (Absolute(command[0]) ==> command[0] == e.path)
    && BaseName(command[0]) == BaseName(e.path)
  }

  /** `verify_process_receipt` on the parsed receipt. */
  predicate Verified(gate: Gate, r: Record, timeout: real) {
    && r.executable.Some? && NamesCommand(gate.command, r.executable.value)
    && r.passed && gate.outputsStable && r.command == gate.command
    && r.exit == Some(0) && r.processExit == Some(0)
    && r.timeout == timeout && gate.timeout == timeout
    && !r.timedOut && !gate.timedOut && r.received == [] && gate.received == [] && !r.error && !gate.error
    && r.group.Some? && r.group.value > 0 && r.cleanup.group == r.group && r.cleanup.drained
    && r.cleanup.before == Some([]) && r.cleanup.after == Some([]) && r.cleanup.signals == [] && r.cleanup.errors == 0
    && r.cleanup.returncode == Some(0) && gate.cleanup == r.cleanup
  }

  /** The verifier accepts exactly the gate of a record, under that record's timeout, that passed as a
      record of `run` passes, names its command's executable, is free of signals that arrived after
      the result was decided, and needed no signal to clean up. */
  lemma VerifiedExactly(gate: Gate, r: Record, timeout: real)
    ensures Verified(gate, r, timeout) <==>
              && Consistent(r) && r.passed && gate == GateOf(r) && r.timeout == timeout
              && NamesCommand(r.command, r.executable.value) && r.received == [] && r.cleanup.signals == []
  {
  }

  function Late(r: Record, numbers: seq<int>): Record {
    r.(received := numbers)
  }

  /** A verified record, and the same record with any signals that arrived after its result was
      decided: still passed, still consistent as every record of `Run` is, and refused. That some
      run makes it is not shown here: its signals are those that arrive after `Decided`. */
  lemma LateSignals() returns (r: Record)
    ensures Consistent(r) && Verified(GateOf(r), r, r.timeout)
    ensures forall numbers :: numbers != [] ==>
              && Consistent(Late(r, numbers)) && Late(r, numbers).passed
              && !Verified(GateOf(Late(r, numbers)), Late(r, numbers), r.timeout)
  {
    var e := Executable("/b", seq(64, _ => 'a'));
    var c := Cleanup(Some(7), Some([]), Some([]), [], 0, true, Some(0));
    r := Record(true, ["/b"], 1.0, Some(e), Some(7), Some(0), Some(0), false, [], false, c);
    VerifiedExactly(GateOf(r), r, r.timeout);
  }
}
