/** `Harness.compact`: waiting for a compaction through a worker's cached status. */
module Compaction {
  /** One cycle of the worker: the status it captured, and when it published that copy. */
  datatype Publication = Publication(captured: real, published: real, requested: bool, idle: bool)

  /** One worker, one copy at a time: it captures, publishes, and only then captures again. */
  predicate Sequential(pubs: seq<Publication>) {
    && (forall i :: 0 <= i < |pubs| ==> pubs[i].captured <= pubs[i].published)
    && (forall i, j :: 0 <= i < j < |pubs| ==> pubs[i].published <= pubs[j].captured)
  }

  /** What a metrics call answers. */
  datatype Figures =
    | Error
    | Status(age: real, requested: bool, idle: bool)

  /** The copy a server holds at some time: the last one published by then. */
  predicate HeldAt(pubs: seq<Publication>, at: real, i: nat) {
    && i < |pubs| && pubs[i].published <= at
    && (forall j :: i < j < |pubs| ==> pubs[j].published > at)
  }

  /** An answer given at some time: a failure, no copy yet, or the copy held then with its age. */
  ghost predicate Answers(pubs: seq<Publication>, at: real, figures: Figures) {
    figures.Status? ==> exists i: nat :: HeldAt(pubs, at, i) && figures == StatusOf(pubs[i], at)
  }

  function StatusOf(p: Publication, at: real): Figures {
    Status(at - p.published, p.requested, p.idle)
  }

  predicate Done(figures: Figures) {
    figures.Status? && !figures.requested && figures.idle
  }

  predicate Fresh(figures: Figures, observing: real, freshAfter: real) {
    figures.Status? && 0.0 <= figures.age <= observing - freshAfter
  }

  /** A status captured after the request returned, showing it consumed and the store idle. */
  predicate ShowsDone(pubs: seq<Publication>, returned: real, i: nat) {
    i < |pubs| && pubs[i].captured > returned && !pubs[i].requested && pubs[i].idle
  }

  /** With any delay at all, a fresh answer was published after `freshAfter`. */
  lemma FreshIsLater(pubs: seq<Publication>, at: real, i: nat, observing: real, freshAfter: real)
    requires HeldAt(pubs, at, i) && observing < at
    requires Fresh(StatusOf(pubs[i], at), observing, freshAfter)
    ensures freshAfter < pubs[i].published <= at
  {
  }

  lemma InOrder(pubs: seq<Publication>, i: nat, j: nat)
    requires Sequential(pubs) && i < |pubs| && j < |pubs|
    ensures i <= j ==> pubs[i].published <= pubs[j].published
  {
    if i < j {
      assert pubs[i].published <= pubs[j].captured;
    }
  }

  // ---------------------------------------------------------------- the call

  datatype Mode = Never | Start | Finish

  datatype Outcome =
    | Skipped
    | RequestFailed
    | Requested
    | Finished
    | TimedOut

  /** One turn of the wait: the clock at its check, before its question, at the answer and after it. */
  datatype Asking = Asking(checked: real, observing: real, at: real, figures: Figures, now: real)

  /** The whole call on its clock: the request, the wait from `since` on, and its last check. */
  datatype Call = Call(started: real, returned: real, failed: bool, since: real, asked: seq<Asking>, ended: real)

  /** The clock after some turns. */
  function Clock(since: real, asked: seq<Asking>): real {
    if asked == [] then since else asked[|asked| - 1].now
  }

  /** A turn begins inside the deadline, sleeps a second, and has its answer after some delay. */
  ghost predicate Turn(pubs: seq<Publication>, started: real, timeout: real, before: real, q: Asking) {
    && before <= q.checked && q.checked - started < timeout && q.checked + 1.0 <= q.observing
    && q.observing < q.at <= q.now && Answers(pubs, q.at, q.figures)
  }

  ghost predicate Turns(pubs: seq<Publication>, started: real, timeout: real, since: real, asked: seq<Asking>) {
    forall i :: 0 <= i < |asked| ==> Turn(pubs, started, timeout, Clock(since, asked[..i]), asked[i])
  }

  /** The clock after the last busy answer, or at the start of the wait. */
  function Mark(since: real, asked: seq<Asking>, s: int): real
    requires -1 <= s < |asked|
  {
    if s == -1 then since else asked[s].now
  }

  /** Two fresh idle answers with no busy one between: the first fresh against the last busy answer before
      it, or the start of the wait, the second against the first. */
  predicate Pair(since: real, asked: seq<Asking>, s: int, a: int, b: int) {
    && -1 <= s < a < b < |asked|
    && (s >= 0 ==> asked[s].figures.Error? || asked[s].figures.requested || !asked[s].figures.idle)
    && (forall k :: s < k <= b ==>
          asked[k].figures.Status? && !asked[k].figures.requested && asked[k].figures.idle)
    && 0.0 <= asked[a].figures.age <= asked[a].observing - Mark(since, asked, s)
    && 0.0 <= asked[b].figures.age <= asked[b].observing - asked[a].now
  }

  ghost predicate Paired(since: real, asked: seq<Asking>) {
    exists s, a, b :: Pair(since, asked, s, a, b)
  }

  /** A pair is made by the last answer or not at all. */
  ghost predicate LastOnly(since: real, asked: seq<Asking>) {
    forall s, a, b :: Pair(since, asked, s, a, b) ==> b == |asked| - 1
  }

  lemma {:induction false} ClockLater(pubs: seq<Publication>, c: Call, timeout: real, i: int, j: int)
    requires Turns(pubs, c.started, timeout, c.since, c.asked) && -1 <= i < j < |c.asked|
    ensures Mark(c.since, c.asked, i) <= c.asked[j].checked
    decreases j - i
  {
    var q := c.asked[j];
    assert Turn(pubs, c.started, timeout, Clock(c.since, c.asked[..j]), q);
    if i + 1 < j {
      ClockLater(pubs, c, timeout, i, j - 1);
      assert Turn(pubs, c.started, timeout, Clock(c.since, c.asked[..j - 1]), c.asked[j - 1]);
      assert c.asked[..j][j - 1] == c.asked[j - 1];
    }
  }

  lemma Held(pubs: seq<Publication>, at: real, figures: Figures) returns (i: nat)
    requires Answers(pubs, at, figures) && figures.Status?
    ensures HeldAt(pubs, at, i) && figures == StatusOf(pubs[i], at)
  {
    i :| HeldAt(pubs, at, i) && figures == StatusOf(pubs[i], at);
  }

  /** With such a pair the store was idle, the request consumed, at a capture made after the request
      returned. */
  lemma PairIsEnough(pubs: seq<Publication>, c: Call, timeout: real, s: int, a: int, b: int) returns (j: nat)
    requires Sequential(pubs) && Turns(pubs, c.started, timeout, c.since, c.asked) && c.returned <= c.since
    requires Pair(c.since, c.asked, s, a, b)
    ensures ShowsDone(pubs, c.returned, j)
  {
    var first, second := c.asked[a], c.asked[b];
    assert Turn(pubs, c.started, timeout, Clock(c.since, c.asked[..a]), first);
    assert Turn(pubs, c.started, timeout, Clock(c.since, c.asked[..b]), second);
    ClockLater(pubs, c, timeout, a, b);
    var i := Held(pubs, first.at, first.figures);
    j := Held(pubs, second.at, second.figures);
    FreshIsLater(pubs, first.at, i, first.observing, Mark(c.since, c.asked, s));
    FreshIsLater(pubs, second.at, j, second.observing, first.now);
    if s >= 0 {
      ClockLater(pubs, c, timeout, -1, s);
      assert Turn(pubs, c.started, timeout, Clock(c.since, c.asked[..s]), c.asked[s]);
    }
    InOrder(pubs, j, i);
  }

  // -------------------------------------------------------------- one turn more

  /** Where the wait stands: the last busy answer, the first fresh one since, and the clock an answer has to be
      fresh against. */
  ghost predicate Stands(since: real, asked: seq<Asking>, s: int, a: int, confirmed: bool, freshAfter: real) {
    && -1 <= s < |asked| && (s >= 0 ==> !Done(asked[s].figures))
    && (forall k :: s < k < |asked| ==> Done(asked[k].figures))
    && (if confirmed then
          && s < a < |asked| && freshAfter == asked[a].now
          && Fresh(asked[a].figures, asked[a].observing, Mark(since, asked, s))
          && (forall k :: s < k < a ==> !Fresh(asked[k].figures, asked[k].observing, Mark(since, asked, s)))
        else
          && freshAfter == Mark(since, asked, s)
          && (forall k :: s < k < |asked| ==> !Fresh(asked[k].figures, asked[k].observing, freshAfter)))
  }

  lemma TurnsMore(pubs: seq<Publication>, c: Call, timeout: real, q: Asking)
    requires Turns(pubs, c.started, timeout, c.since, c.asked)
    requires Turn(pubs, c.started, timeout, Clock(c.since, c.asked), q)
    ensures Turns(pubs, c.started, timeout, c.since, c.asked + [q])
  {
    var all := c.asked + [q];
    forall i | 0 <= i < |all|
      ensures Turn(pubs, c.started, timeout, Clock(c.since, all[..i]), all[i])
    {
      assert all[..i] == c.asked[..i];
      assert i == |c.asked| ==> c.asked[..i] == c.asked;
    }
  }

  /** The earlier answers keep their pairs; one more makes a pair exactly when it is idle and fresh after a
      confirmed one. */
  lemma OneMore(pubs: seq<Publication>, c: Call, timeout: real, q: Asking, s: int, a: int, confirmed: bool,
                freshAfter: real)
    requires Turns(pubs, c.started, timeout, c.since, c.asked) && !Paired(c.since, c.asked)
    requires Stands(c.since, c.asked, s, a, confirmed, freshAfter)
    ensures LastOnly(c.since, c.asked + [q])
    ensures Paired(c.since, c.asked + [q]) <==>
              confirmed && Done(q.figures) && Fresh(q.figures, q.observing, freshAfter)
  {
    var all, n := c.asked + [q], |c.asked|;
    forall s', a', b' | Pair(c.since, all, s', a', b')
      ensures b' == n && confirmed && Done(q.figures) && Fresh(q.figures, q.observing, freshAfter)
    {
      NotEarlier(c.since, c.asked, q, s', a', b');
      SamePair(pubs, c, timeout, q, s, a, confirmed, freshAfter, s', a');
    }
    if confirmed && Done(q.figures) && Fresh(q.figures, q.observing, freshAfter) {
      NewPair(c.since, c.asked, q, s, a, freshAfter);
    }
  }

  lemma NewPair(since: real, asked: seq<Asking>, q: Asking, s: int, a: int, freshAfter: real)
    requires Stands(since, asked, s, a, true, freshAfter) && Done(q.figures)
    requires Fresh(q.figures, q.observing, freshAfter)
    ensures Pair(since, asked + [q], s, a, |asked|)
  {
    assert forall k :: 0 <= k < |asked| ==> (asked + [q])[k] == asked[k];
  }

  lemma NotEarlier(since: real, asked: seq<Asking>, q: Asking, s: int, a: int, b: int)
    requires Pair(since, asked + [q], s, a, b) && !Paired(since, asked)
    ensures b == |asked|
  {
    if b < |asked| {
      EarlierPair(since, asked, q, s, a, b);
    }
  }

  lemma EarlierPair(since: real, asked: seq<Asking>, q: Asking, s: int, a: int, b: int)
    requires Pair(since, asked + [q], s, a, b) && b < |asked|
    ensures Pair(since, asked, s, a, b)
  {
    assert forall k :: 0 <= k < |asked| ==> (asked + [q])[k] == asked[k];
  }

  lemma SameMark(since: real, asked: seq<Asking>, q: Asking, s: int, s': int, a': int)
    requires -1 <= s < |asked| && (s >= 0 ==> !Done(asked[s].figures))
    requires forall k :: s < k < |asked| ==> Done(asked[k].figures)
    requires Pair(since, asked + [q], s', a', |asked|)
    ensures s' == s && Done(q.figures) && s < a' < |asked|
    ensures Fresh(asked[a'].figures, asked[a'].observing, Mark(since, asked, s))
    ensures Fresh(q.figures, q.observing, asked[a'].now)
  {
    var all := asked + [q];
    assert all[|asked|] == q && all[a'] == asked[a'];
    assert s >= 0 ==> all[s] == asked[s];
    assert s' >= 0 ==> all[s'] == asked[s'];
  }

  lemma SamePair(pubs: seq<Publication>, c: Call, timeout: real, q: Asking, s: int, a: int, confirmed: bool,
                 freshAfter: real, s': int, a': int)
    requires Turns(pubs, c.started, timeout, c.since, c.asked)
    requires Stands(c.since, c.asked, s, a, confirmed, freshAfter) && Pair(c.since, c.asked + [q], s', a', |c.asked|)
    ensures confirmed && Done(q.figures) && Fresh(q.figures, q.observing, freshAfter)
  {
    SameMark(c.since, c.asked, q, s, s', a');
    if confirmed && a < a' {
      ClockLater(pubs, c, timeout, a, a');
      assert Turn(pubs, c.started, timeout, Clock(c.since, c.asked[..a']), c.asked[a']);
    }
  }

  /** A first fresh idle answer, a busy one, and an idle one that is not fresh. */
  lemma StandsMore(since: real, asked: seq<Asking>, q: Asking, s: int, a: int, confirmed: bool, freshAfter: real)
    requires Stands(since, asked, s, a, confirmed, freshAfter)
    ensures var recent := Fresh(q.figures, q.observing, freshAfter);
            && (!confirmed && recent && Done(q.figures) ==> Stands(since, asked + [q], s, |asked|, true, q.now))
            && (!Done(q.figures) ==> Stands(since, asked + [q], |asked|, a, false, q.now))
            && (!recent && Done(q.figures) ==> Stands(since, asked + [q], s, a, confirmed, freshAfter))
  {
    var all := asked + [q];
    assert all[|asked|] == q && forall k :: 0 <= k < |asked| ==> all[k] == asked[k];
  }

  function Seconds(left: real): nat {
    if left <= 0.0 then 0 else left.Floor + 1
  }

  lemma SecondsFewer(left: real, later: real)
    requires left > 0.0 && later <= left - 1.0
    ensures Seconds(later) < Seconds(left)
  {
  }

  /** The wait after the request, every delay free but each answer given after it was asked for: it finishes
      with the first pair of fresh idle answers, and otherwise goes on to the deadline. */
  method Wait(pubs: seq<Publication>, started: real, returned: real, since: real, timeout: real)
    returns (finished: bool, ghost c: Call)
    requires returned <= since
    ensures c.started == started && c.returned == returned && !c.failed && c.since == since
    ensures Turns(pubs, started, timeout, since, c.asked)
    ensures (finished <==> Paired(since, c.asked)) && LastOnly(since, c.asked)
    ensures !finished ==> c.ended >= Clock(since, c.asked) && c.ended - started >= timeout
  {
    c := Call(started, returned, false, since, [], since);
    var now, freshAfter, confirmedIdle := since, since, false;
    ghost var s, a := -1, -1;
    while true
      invariant c == Call(started, returned, false, since, c.asked, since) && now == Clock(since, c.asked)
      invariant Turns(pubs, started, timeout, since, c.asked) && !Paired(since, c.asked)
      invariant Stands(since, c.asked, s, a, confirmedIdle, freshAfter)
      decreases Seconds(timeout - (now - started))
    {
      ghost var left := timeout - (now - started);
      var pause := Delay();
      var checked := now + pause;
      if checked - started >= timeout {
        c := c.(ended := checked);
        return false, c;
      }
      pause := Delay();
      var observing := checked + 1.0 + pause;
      var latency := Delay();
      var at := observing + latency + (if latency == 0.0 then 1.0 else 0.0);
      var figures := Ask(pubs, at);
      pause := Delay();
      now := at + pause;
      ghost var q := Asking(checked, observing, at, figures, now);
      TurnsMore(pubs, c, timeout, q);
      OneMore(pubs, c, timeout, q, s, a, confirmedIdle, freshAfter);
      StandsMore(since, c.asked, q, s, a, confirmedIdle, freshAfter);
      SecondsFewer(left, timeout - (now - started));
      ghost var asked := c.asked;
      c := c.(asked := asked + [q]);
      if Fresh(figures, observing, freshAfter) && Done(figures) {
        if confirmedIdle {
          return true, c;
        }
        a := |asked|;
        confirmedIdle := true;
        freshAfter := now;
        continue;
      }
      if !Done(figures) {
        s := |asked|;
        confirmedIdle := false;
        freshAfter := now;
      }
    }
  }

  /** The whole call, around a request that took some time and may have failed. If it returns in `finish`
      mode, the store was idle with the request consumed at some capture made after the request
      returned. */
  method Compact(pubs: seq<Publication>, observed: bool, mode: Mode, timeout: real, started: real, returned: real,
                 failed: bool)
    returns (outcome: Outcome, ghost c: Call)
    requires Sequential(pubs) && started <= returned
    ensures c.started == started && c.returned == returned && c.failed == failed
    ensures outcome == Skipped <==> mode == Never || !observed
    ensures outcome == RequestFailed <==> outcome != Skipped && failed
    ensures outcome == Requested <==> outcome != Skipped && !failed && mode == Start
    ensures outcome == Finished || outcome == TimedOut ==>
              && returned <= c.since && Turns(pubs, c.started, timeout, c.since, c.asked)
              && (outcome == Finished <==> Paired(c.since, c.asked)) && LastOnly(c.since, c.asked)
    ensures outcome == TimedOut ==> c.ended >= Clock(c.since, c.asked) && c.ended - c.started >= timeout
    ensures outcome == Finished ==> exists i: nat :: ShowsDone(pubs, c.returned, i)
  {
    c := Call(started, returned, failed, returned, [], returned);
    if mode == Never || !observed {
      return Skipped, c;
    }
    if failed {
      return RequestFailed, c;
    }
    if mode == Start {
      return Requested, c;
    }
    var pause := Delay();
    var finished;
    finished, c := Wait(pubs, started, returned, returned + pause, timeout);
    outcome := if finished then Finished else TimedOut;
    if finished {
      ghost var s, a, b :| Pair(c.since, c.asked, s, a, b);
      ghost var i := PairIsEnough(pubs, c, timeout, s, a, b);
    }
  }

  /** Any time that may pass. */
  method Delay() returns (d: real)
    ensures d >= 0.0
  {
    d := *;
    d := if d < 0.0 then -d else d;
  }

  /** A metrics call answered at a given time: it may fail, or there may be no copy yet. */
  method Ask(pubs: seq<Publication>, at: real) returns (figures: Figures)
    ensures Answers(pubs, at, figures)
  {
    var fails: bool := *;
    figures := Error;
    var i := |pubs|;
    while i > 0 && !fails
      invariant 0 <= i <= |pubs| && figures == Error
      invariant forall j :: i <= j < |pubs| ==> pubs[j].published > at
    {
      i := i - 1;
      if pubs[i].published <= at {
        return StatusOf(pubs[i], at);
      }
    }
  }

  /** One fresh idle publication is not enough: this one was captured before the request. */
  lemma OneIsNotEnough()
    ensures var pubs := [Publication(0.0, 2.0, false, true)];
            && Sequential(pubs) && HeldAt(pubs, 3.5, 0)
            && Fresh(StatusOf(pubs[0], 3.5), 3.0, 1.0) && Done(StatusOf(pubs[0], 3.5))
            && forall i: nat :: !ShowsDone(pubs, 1.0, i)
  {
  }

  /** Nor are two without a delay: the same publication can then answer both times. */
  lemma DelayMatters()
    ensures var pubs := [Publication(0.0, 2.0, false, true)];
            && Sequential(pubs) && HeldAt(pubs, 2.0, 0) && HeldAt(pubs, 3.0, 0)
            && Fresh(StatusOf(pubs[0], 2.0), 2.0, 1.0) && Done(StatusOf(pubs[0], 2.0))
            && Fresh(StatusOf(pubs[0], 3.0), 3.0, 2.0) && Done(StatusOf(pubs[0], 3.0))
            && forall i: nat :: !ShowsDone(pubs, 1.0, i)
  {
  }
}
