/** The restart schedule of one supervised process, and the launch rate it allows. */
module Backoff {
  import opened Basics

  datatype Kind = KeepAwake | Server | Watcher

  /** One supervised process and its restart schedule, with the times its starts were tried and the
      attempts whose run lasted long enough to be counted healthy. */
  datatype Entry = Entry(kind: Kind, running: bool, started: real, failures: nat, due: Option<real>,
                         attempts: seq<real>, healthy: set<int>)

  const RESTART_FIRST := 1.0
  const RESTART_CAP := 300.0
  const RESTART_RESET := 600.0

  function Pow2(n: nat): (r: real)
    ensures r >= 1.0
  {
    if n == 0 then 1.0 else 2.0 * Pow2(n - 1)
  }

  /** `restart_delay`, for at least one failure. */
  function Delay(failures: nat): (d: real)
    requires failures >= 1
    ensures 1.0 <= d <= RESTART_CAP
  {
    var doublings := if failures - 1 < 20 then failures - 1 else 20;
    if RESTART_FIRST * Pow2(doublings) < RESTART_CAP then RESTART_FIRST * Pow2(doublings) else RESTART_CAP
  }

  // ---------------------------------------------------------------- one entry

  function New(kind: Kind): Entry {
    Entry(kind, false, 0.0, 0, Some(0.0), [], {})
  }

  /** A new entry has not run or failed, and its first start is due from the beginning. */
  lemma NewDue(kind: Kind, now: real)
    requires now >= 0.0
    ensures var e := New(kind);
            && e.kind == kind && !e.running && e.failures == 0 && e.attempts == [] && e.healthy == {}
            && e.due.Some? && e.due.value <= now
    ensures Good(New(kind), now)
  {
  }

  /** The last healthy attempt before the k-th, or the first of all: failures count from there. */
  function Base(healthy: set<int>, k: nat): (b: nat)
    ensures b <= k && (k > 0 ==> b < k)
  {
    if k == 0 then 0 else if k - 1 in healthy then k - 1 else Base(healthy, k - 1)
  }

  /** Attempts keep the delays their count of failures asks for. */
  predicate Spaced(attempts: seq<real>, healthy: set<int>) {
    forall k :: 0 < k < |attempts| ==> attempts[k] >= attempts[k - 1] + Delay(k - Base(healthy, k))
  }

  /** Never running and scheduled at once; as many failures as attempts that ended since the last
      healthy one, and the next start no sooner than their delay allows. */
  predicate Good(e: Entry, now: real) {
    var n := |e.attempts|;
    && !(e.running && e.due.Some?)
    && (forall k :: 0 <= k < n ==> e.attempts[k] <= now)
    && (forall k :: k in e.healthy ==> k < n)
    && Spaced(e.attempts, e.healthy)
    && (e.running ==> n > 0 && n - 1 !in e.healthy && e.failures + 1 == n - Base(e.healthy, n))
    && (e.due.Some? ==>
          && e.failures == n - Base(e.healthy, n)
          && (n > 0 ==> e.due.value >= e.attempts[n - 1] + Delay(n - Base(e.healthy, n))))
  }

  function Scheduled(e: Entry, now: real): Entry {
    e.(running := false, failures := e.failures + 1, due := Some(now + Delay(e.failures + 1)))
  }

  /** A start that is due, tried at some time: it may fail. */
  function Tried(e: Entry, at: real, ok: bool, later: real): Entry {
    var tried := e.(attempts := e.attempts + [at]);
    if ok then tried.(running := true, started := later, due := None) else Scheduled(tried, later)
  }

  lemma SpacedMore(attempts: seq<real>, healthy: set<int>, at: real)
    requires Spaced(attempts, healthy)
    requires var n := |attempts|; n > 0 ==> at >= attempts[n - 1] + Delay(n - Base(healthy, n))
    ensures Spaced(attempts + [at], healthy)
  {
    var more := attempts + [at];
    forall k | 0 < k < |more|
      ensures more[k] >= more[k - 1] + Delay(k - Base(healthy, k))
    {
      assert k < |attempts| ==> more[k] == attempts[k];
      assert more[k - 1] == attempts[k - 1];
    }
  }

  lemma TriedGood(e: Entry, now: real, at: real, ok: bool, later: real)
    requires Good(e, now) && !e.running && e.due.Some? && e.due.value <= at && now <= at <= later
    ensures Good(Tried(e, at, ok, later), later)
  {
    var next := Tried(e, at, ok, later);
    assert forall k :: 0 <= k < |e.attempts| ==> next.attempts[k] == e.attempts[k];
    assert |e.attempts| !in e.healthy;
    SpacedMore(e.attempts, e.healthy, at);
    assert Base(e.healthy, |e.attempts| + 1) == Base(e.healthy, |e.attempts|);
  }

  /** A process that ended by itself, while the supervisor is not stopping. */
  function Exited(e: Entry, clean: bool, ran: real, now: real): Entry {
    if clean && !e.kind.KeepAwake? then e.(running := false, due := None)
    else if ran >= RESTART_RESET then Scheduled(e.(failures := 0, healthy := e.healthy + {|e.attempts| - 1}), now)
    else Scheduled(e, now)
  }

  /** A process that ended by itself is not running. It is due again, after its delay, unless it ended
      cleanly and is not the one that keeps the machine awake; ten minutes of running clear the failures
      before it. */
  lemma ExitedExactly(e: Entry, clean: bool, ran: real, now: real)
    requires Good(e, now) && e.running
    ensures var r := Exited(e, clean, ran, now);
            && !r.running && r.kind == e.kind && r.attempts == e.attempts
            && (r.due.None? <==> clean && (e.kind.Server? || e.kind.Watcher?))
            && (r.due.Some? ==> r.failures == (if ran >= 600.0 then 1 else e.failures + 1)
                                && r.due.value == now + Delay(r.failures))
            && (r.due.None? ==> r.failures == e.failures)
  {
  }

  /** A start tried in time runs from then on, or is due again after one failure more. */
  lemma TriedExactly(e: Entry, at: real, ok: bool, later: real)
    requires !e.running
    ensures var r := Tried(e, at, ok, later);
            && r.attempts == e.attempts + [at] && r.kind == e.kind && r.healthy == e.healthy && (r.running <==> ok)
            && (ok ==> r.started == later && r.due.None? && r.failures == e.failures)
            && (!ok ==> r.failures == e.failures + 1 && r.due == Some(later + Delay(e.failures + 1)))
  {
  }

  lemma ExitedGood(e: Entry, clean: bool, ran: real, now: real)
    requires Good(e, now) && e.running
    ensures Good(Exited(e, clean, ran, now), now)
  {
    SpacedHealthy(e.attempts, e.healthy);
  }

  lemma SpacedHealthy(attempts: seq<real>, healthy: set<int>)
    requires attempts != [] && Spaced(attempts, healthy)
    ensures Spaced(attempts, healthy + {|attempts| - 1})
    ensures Base(healthy + {|attempts| - 1}, |attempts|) == |attempts| - 1
  {
    var more := healthy + {|attempts| - 1};
    forall k | 0 < k < |attempts|
      ensures attempts[k] >= attempts[k - 1] + Delay(k - Base(more, k))
    {
      BaseSame(healthy, |attempts| - 1, k);
    }
  }

  lemma {:induction false} BaseSame(healthy: set<int>, more: int, k: nat)
    requires k <= more
    ensures Base(healthy + {more}, k) == Base(healthy, k)
  {
    if k > 0 {
      BaseSame(healthy, more, k - 1);
    }
  }

  /** With no healthy run from the first of some attempts on, failures count from before it. */
  lemma {:induction false} BaseBefore(healthy: set<int>, first: nat, k: nat)
    requires first <= k && forall i :: first <= i < k ==> i !in healthy
    ensures Base(healthy, k) <= first
  {
    if k > first {
      BaseBefore(healthy, first, k - 1);
    }
  }

  // --------------------------------------------------------------- the bound

  /** How long n attempts must take. */
  function Span(n: nat): real {
    if n <= 1 then 0.0 else Span(n - 1) + Delay(n - 1)
  }

  lemma Powers()
    ensures Pow2(1) == 2.0 && Pow2(2) == 4.0 && Pow2(3) == 8.0 && Pow2(4) == 16.0 && Pow2(5) == 32.0
    ensures Pow2(6) == 64.0 && Pow2(7) == 128.0 && Pow2(8) == 256.0 && Pow2(9) == 512.0
  {
  }

  lemma {:induction false} PowGrows(n: nat, m: nat)
    requires n <= m
    ensures Pow2(n) <= Pow2(m)
  {
    if n < m {
      PowGrows(n, m - 1);
    }
  }

  /** Delays double up to the ninth failure and then stay at the cap. */
  lemma DelayIs(failures: nat)
    requires failures >= 1
    ensures Delay(failures) == if failures <= 9 then Pow2(failures - 1) else RESTART_CAP
  {
    Powers();
    if failures <= 9 {
      PowGrows(failures - 1, 8);
    } else {
      PowGrows(9, if failures - 1 < 20 then failures - 1 else 20);
    }
  }

  lemma DelayGrows(n: nat, m: nat)
    requires 1 <= n <= m
    ensures Delay(n) <= Delay(m)
  {
    DelayIs(n);
    DelayIs(m);
    if m <= 9 {
      PowGrows(n - 1, m - 1);
    }
  }

  predicate NoneHealthy(healthy: set<int>, first: nat, n: nat) {
    forall k :: first <= k < first + n - 1 ==> k !in healthy
  }

  /** Any n attempts in a row with no healthy run between them, wherever they begin. */
  lemma {:induction false} SpacedSpan(attempts: seq<real>, healthy: set<int>, first: nat, n: nat)
    requires Spaced(attempts, healthy) && n >= 1 && first + n <= |attempts| && NoneHealthy(healthy, first, n)
    ensures attempts[first + n - 1] - attempts[first] >= Span(n)
  {
    if n > 1 {
      var k := first + n - 1;
      SpacedSpan(attempts, healthy, first, n - 1);
      BaseBefore(healthy, first, k);
      DelayGrows(n - 1, k - Base(healthy, k));
    }
  }

  lemma {:induction false} SpanIs(n: nat)
    requires n >= 1
    ensures n <= 10 ==> Span(n) == Pow2(n - 1) - 1.0
    ensures n > 10 ==> Span(n) == 511.0 + 300.0 * (n - 10) as real
  {
    if n > 1 {
      SpanIs(n - 1);
      DelayIs(n - 1);
      Powers();
    }
  }

  /** The launch rate: any n consecutive attempts of an entry with no healthy run between them take
      at least this long, whatever happened before. */
  lemma LaunchRate(e: Entry, now: real, first: nat, n: nat)
    requires Good(e, now) && n >= 1 && first + n <= |e.attempts| && NoneHealthy(e.healthy, first, n)
    ensures n <= 10 ==> e.attempts[first + n - 1] - e.attempts[first] >= Pow2(n - 1) - 1.0
    ensures n > 10 ==> e.attempts[first + n - 1] - e.attempts[first] >= 511.0 + 300.0 * (n - 10) as real
  {
    SpacedSpan(e.attempts, e.healthy, first, n);
    SpanIs(n);
  }
}
