/** `OwnedProcesses`: one controller of daemon groups, whose every attempt stays owned until its
    group went through `drain`. */
module OwnedProcesses {
  import opened Basics
  import opened GroupLedger
  import opened LedgerCodec
  import opened LedgerFile
  import GateRun

  datatype Status = Starting | Running | Drained | Failed

  /** The record of one original execution. */
  datatype Attempt = Attempt(name: string, sha256: string, status: Status, group: Option<int>, birth: Option<string>,
                             cleanup: Option<GateRun.Cleanup>, received: seq<int>, stable: bool, error: bool)

  const MAX_ATTEMPTS := 1024

  /** The cleanup of an attempt that never started a process. */
  const NOTHING := GateRun.Cleanup(None, Some([]), Some([]), [], 0, true, None)

  predicate ValidName(name: string) {
    name != [] && forall i :: 0 <= i < |name| ==> 'a' <= name[i] <= 'z' || '0' <= name[i] <= '9' || name[i] == '-'
  }

  predicate Settled(a: Attempt) {
    a.cleanup.Some? && a.cleanup.value.drained
  }

  predicate Owned(attempts: seq<Attempt>, active: map<string, nat>, i: nat)
    requires i < |attempts|
  {
    attempts[i].name in active && active[attempts[i].name] == i
  }

  /** Stable output and the status `drained` need a drained group. */
  predicate Sound(a: Attempt) {
    && (a.stable ==> Settled(a))
    && (a.status.Drained? ==> Settled(a) && a.stable && !a.error)
    && (a.status.Running? ==> a.group.Some? && a.birth.Some?)
    && (a.group.None? && a.cleanup.Some? ==> a.cleanup == Some(NOTHING))
  }

  /** An owned attempt is not cleaned up yet. */
  predicate Answered(attempts: seq<Attempt>, active: map<string, nat>, i: nat)
    requires i < |attempts|
  {
    && Sound(attempts[i])
    && (Owned(attempts, active, i) ==>
          attempts[i].cleanup.None? && (attempts[i].status.Starting? || attempts[i].status.Running?))
  }

  predicate Consistent(attempts: seq<Attempt>, active: map<string, nat>) {
    && |attempts| <= MAX_ATTEMPTS
    && (forall name :: name in active ==> active[name] < |attempts| && attempts[active[name]].name == name)
    && (forall i :: 0 <= i < |attempts| ==> Answered(attempts, active, i))
  }

  predicate Distinct(groups: map<nat, GateRun.OwnedGroup>) {
    forall i, j :: i in groups && j in groups && i != j ==> groups[i] != groups[j]
  }

  ghost predicate Started(attempts: seq<Attempt>, groups: map<nat, GateRun.OwnedGroup>) {
    forall i: nat :: i in groups <==> i < |attempts| && attempts[i].group.Some?
  }

  /** The record tells what the last inspection of the group found. */
  ghost predicate Tells(c: GateRun.Cleanup, g: GateRun.OwnedGroup)
    reads g
  {
    && g.tally.seen != [] && c.after == GateRun.Last(g.tally.seen) && c.returncode == g.returncode
    && (c.drained <==> c.after == Some([]) && c.errors == 0)
  }

  ghost predicate Told(a: Attempt, g: GateRun.OwnedGroup)
    reads g
  {
    g.Valid() && (a.cleanup.Some? ==> Tells(a.cleanup.value, g))
  }

  /** A process for each attempt that has a group, and the records of those processes true. */
  ghost predicate AllTold(attempts: seq<Attempt>, groups: map<nat, GateRun.OwnedGroup>)
    reads groups.Values
  {
    Started(attempts, groups) && forall i :: i in groups ==> Told(attempts[i], groups[i])
  }

  /** What the system answers one `spawn`: the signals and the deadline its check finds, whether the command
      selects the admitted executable, whether the receipt is saved, the enclosing ledger is the
      child's and is locked, the process, its birth, how much of a row is written, whether that is
      synced, and whether the receipt is saved again. */
  datatype Opening = Opening(arriving: seq<int>, expired: bool, exact: bool, recorded: bool, enclosed: bool,
                             pid: Option<int>, birth: Option<string>, taken: nat, synced: bool, saved: bool)

  /** What it answers one `finish`: whether `drain` raises, the executable's bytes changed, the log is
      flushed and the receipt saved. */
  datatype Closing = Closing(raised: bool, changed: bool, flushed: bool, saved: bool)

  /** What a write of one row leaves: the whole row, or as much of it as was taken. */
  predicate Left(rows: seq<Row>, after: seq<Row>, left: Bytes, row: Row, taken: nat) {
    if |RowBytes(row)| <= taken then after == rows + [row] && left == []
    else after == rows && left == RowBytes(row)[..taken]
  }

  /** No record but one changed. */
  predicate Only(before: seq<Attempt>, after: seq<Attempt>, i: nat) {
    |after| == |before| && forall j :: 0 <= j < |after| && j != i ==> after[j] == before[j]
  }

  /** Under the lock: readable, not closed, and with room for one bounded row and the seal. */
  predicate Admits(rows: seq<Row>, rest: Bytes) {
    Readable(Width, rows, rest != []) && !IsClosed(rows) && Total(Width, rows) + RESERVE <= MAX_LEDGER_BYTES
  }

  /** The record of an attempt before and after `finish`, with this cleanup. */
  predicate Closes(was: Attempt, a: Attempt, received: seq<int>, w: Closing) {
    && a.name == was.name && a.sha256 == was.sha256 && a.group == was.group && a.birth == was.birth
    && (a.cleanup.None? <==> was.group.Some? && w.raised) && (a.cleanup.None? ==> a == was)
    && (was.group.None? ==> a.cleanup == Some(NOTHING))
    && (a.cleanup.Some? ==>
          && a.cleanup.value.group == a.group && a.received == received && (a.error <==> was.error || w.changed)
          && (if w.flushed then
                (a.stable <==> Settled(a)) && a.status == (if Settled(a) && !a.error then Drained else Failed)
              else a.stable == was.stable && a.status == was.status))
  }

  /** The record after a drain: the executable is checked again, the log flushed, the receipt saved. */
  method Conclude(was: Attempt, cleanup: Option<GateRun.Cleanup>, received: seq<int>, w: Closing)
      returns (a: Attempt, ok: bool)
    requires Sound(was) && was.cleanup.None? && (was.status.Starting? || was.status.Running?)
    requires cleanup.None? <==> was.group.Some? && w.raised
    requires cleanup.Some? ==> cleanup.value.group == was.group && (was.group.None? ==> cleanup == Some(NOTHING))
    ensures Closes(was, a, received, w) && Sound(a) && a.cleanup == cleanup
    ensures ok <==> Settled(a) && w.flushed && w.saved
  {
    a := was;
    if cleanup.Some? {
      a := was.(cleanup := cleanup, received := received, error := was.error || w.changed);
      if w.flushed {
        var drained := cleanup.value.drained;
        a := a.(stable := drained, status := if drained && !a.error then Drained else Failed);
      }
    }
    ok := w.flushed && w.saved && Settled(a);
  }

  class Controller {
    /** The enclosing runner's ledger, if it has one. */
    const ledger: SharedLedger?
    const owner: int
    var attempts: seq<Attempt>
    var active: map<string, nat>
    /** The processes started so far, under the numbers of their attempts. */
    var groups: map<nat, GateRun.OwnedGroup>
    var received: seq<int>
    var closed: bool

    ghost predicate Valid()
      reads this, groups.Values
    {
      Consistent(attempts, active) && (closed ==> active == map[]) && Distinct(groups) && AllTold(attempts, groups)
    }

    constructor (enclosing: SharedLedger?, pid: int)
      ensures Valid() && attempts == [] && active == map[] && groups == map[] && !closed
      ensures ledger == enclosing && owner == pid
    {
      ledger, owner := enclosing, pid;
      attempts, active, groups, received, closed := [], map[], map[], [], false;
    }

    /** `check`: not closed, not interrupted and before the deadline. */
    method Check(w: Opening) returns (ok: bool)
      modifies this`received
      ensures received == old(received) + w.arriving
      ensures ok <==> !closed && received == [] && !w.expired
    {
      received := received + w.arriving;
      ok := !closed && received == [] && !w.expired;
    }

    /** Drain the group of one attempt. An exception from `drain` leaves no record of it. */
    method DrainGroup(i: nat, group: int, raised: bool) returns (cleanup: Option<GateRun.Cleanup>)
      requires Valid() && i in groups
      modifies this`received, groups[i]
      ensures groups[i].Valid() && forall j :: j in groups && j != i ==> Told(attempts[j], groups[j])
      ensures (cleanup.None? <==> raised) && old(received) <= received
      ensures cleanup.Some? ==> Tells(cleanup.value, groups[i]) && cleanup.value.group == Some(group)
    {
      var g := groups[i];
      var known := |g.received|;
      var c, _ := g.Drain(group);
      received := received + g.received[known..];
      cleanup := if raised then None else Some(c);
    }

    /** `finish`: whatever the drain comes to, even if it raises and even if the log or the receipt
        cannot be written, the name is free again. */
    method Finish(name: string, w: Closing) returns (ok: bool)
      requires Valid() && name in active
      modifies this`attempts, this`active, this`received, groups.Values
      ensures Valid() && active == old(active) - {name} && Only(old(attempts), attempts, old(active)[name])
      ensures old(received) <= received
      ensures Closes(old(attempts)[old(active)[name]], attempts[old(active)[name]], received, w)
      ensures ok <==> Settled(attempts[old(active)[name]]) && w.flushed && w.saved
    {
      var i := active[name];
      var was := attempts[i];
      assert Answered(attempts, active, i);
      var cleanup := Some(NOTHING);
      if was.group.Some? {
        cleanup := DrainGroup(i, was.group.value, w.raised);
      }
      var a, done := Conclude(was, cleanup, received, w);
      Release(name, a);
      ok := done;
    }

    /** The new record of an attempt, whose name is free from here on. */
    method Release(name: string, a: Attempt)
      requires Consistent(attempts, active) && Distinct(groups) && Started(attempts, groups) && name in active
      requires (closed ==> active == map[]) && Sound(a) && a.name == name && a.group == attempts[active[name]].group
      requires forall j :: j in groups ==> Told(if j == active[name] then a else attempts[j], groups[j])
      modifies this`attempts, this`active
      ensures Valid() && active == old(active) - {name} && Only(old(attempts), attempts, old(active)[name])
      ensures attempts[old(active)[name]] == a
    {
      FinishKeeps(attempts, active, name, a);
      attempts := attempts[active[name] := a];
      active := active - {name};
    }

    /** What has to hold for a process to be started at all: under an enclosing ledger, its admission. */
    ghost predicate Begins(w: Opening)
      reads ledger
    {
      w.recorded && (ledger != null ==> w.enclosed && Admits(ledger.rows, ledger.rest)) && w.pid.Some?
    }

    /** What has to hold for it to be recorded as running: its birth and, under a ledger, its whole row. */
    ghost predicate Runs(w: Opening, sha256: string)
      reads ledger
    {
      && Begins(w) && w.birth.Some?
      && (ledger != null ==>
            |RowBytes(Group(Entry(w.pid.value, owner, sha256, w.birth)))| <= w.taken && w.synced)
    }

    /** The enclosing ledger under its lock, before anything is started. */
    method Reserve(w: Opening) returns (ok: bool)
      requires ledger != null && ledger.Valid()
      ensures ok <==> w.enclosed && Admits(ledger.rows, ledger.rest)
    {
      if !w.enclosed {
        return false;
      }
      ReadWritten(ledger.rows, ledger.rest);
      WrittenTotal(ledger.rows);
      var found, sealed := ReadRows(ledger.data);
      ok := found.Some? && !sealed && |ledger.data| + RESERVE <= MAX_LEDGER_BYTES;
    }

    /** The receipt, the enclosing ledger's admission and the process. */
    method Begin(w: Opening) returns (ok: bool)
      requires ledger != null ==> ledger.Valid()
      ensures ok <==> Begins(w)
    {
      ok := w.recorded;
      if ok && ledger != null {
        ok := Reserve(w);
      }
      ok := ok && w.pid.Some?;
    }

    /** The birth witness and the published row of a started process. */
    method Publish(started: Attempt, w: Opening) returns (a: Attempt, ok: bool)
      requires started.group.Some? && started.group == w.pid && started.birth.None? && started.status.Starting?
      requires ledger != null ==> ledger.Valid() && Admits(ledger.rows, ledger.rest)
      modifies ledger
      ensures ledger != null ==> ledger.Valid()
      ensures var listed := w.birth.Some? && (ledger != null ==>
                |RowBytes(Group(Entry(w.pid.value, owner, started.sha256, w.birth)))| <= w.taken && w.synced);
              && a == started.(birth := w.birth, status := if listed then Running else Starting)
              && (ok <==> listed && w.saved)
      ensures ledger != null && w.birth.None? ==> ledger.rows == old(ledger.rows) && ledger.rest == old(ledger.rest)
      ensures ledger != null && w.birth.Some? ==>
                Left(old(ledger.rows), ledger.rows, ledger.rest,
                     Group(Entry(w.pid.value, owner, started.sha256, w.birth)), w.taken)
    {
      a := started;
      if w.birth.None? {
        return a, false;
      }
      a := a.(birth := w.birth);
      if ledger != null {
        var appended := ledger.Append(Group(Entry(a.group.value, owner, a.sha256, a.birth)), w.taken, w.synced);
        if !appended {
          return a, false;
        }
      }
      a := a.(status := Running);
      ok := w.saved;
    }

    /** The steps between the record and its status `running`; any of them may fail, before or
        after a process exists. Nothing starts under a ledger that does not admit it. */
    method Start(i: nat, w: Opening) returns (ok: bool)
      requires Valid() && i < |attempts| && Owned(attempts, active, i)
      requires attempts[i].status.Starting? && attempts[i].group.None? && attempts[i].birth.None?
      requires ledger != null ==> ledger.Valid()
      modifies this`attempts, this`groups, ledger
      ensures Valid() && (ledger != null ==> ledger.Valid())
      ensures forall g :: g in groups.Values ==> g in old(groups).Values || fresh(g)
      ensures ok <==> old(Runs(w, attempts[i].sha256)) && w.saved
      ensures var was := old(attempts)[i];
              attempts == old(attempts)[i := Opened(was, w, old(Begins(w)), old(Runs(w, attempts[i].sha256)))]
      ensures ledger != null ==>
                Recorded(old(ledger.rows), old(ledger.rest), ledger.rows, ledger.rest, old(Begins(w)),
                         old(attempts)[i].sha256, owner, w)
    {
      var begun := Begin(w);
      ok := false;
      if begun {
        ok := Proceed(i, w);
      }
    }

    /** With a process: its birth witness, its row and its receipt. */
    method Proceed(i: nat, w: Opening) returns (ok: bool)
      requires Valid() && i < |attempts| && Owned(attempts, active, i)
      requires attempts[i].status.Starting? && attempts[i].group.None? && attempts[i].birth.None?
      requires (ledger != null ==> ledger.Valid()) && Begins(w)
      modifies this`attempts, this`groups, ledger
      ensures Valid() && (ledger != null ==> ledger.Valid())
      ensures forall g :: g in groups.Values ==> g in old(groups).Values || fresh(g)
      ensures ok <==> old(Runs(w, attempts[i].sha256)) && w.saved
      ensures attempts == old(attempts)[i := Opened(old(attempts)[i], w, true, old(Runs(w, attempts[i].sha256)))]
      ensures ledger != null ==>
                Recorded(old(ledger.rows), old(ledger.rest), ledger.rows, ledger.rest, true, old(attempts)[i].sha256,
                         owner, w)
    {
      assert Answered(attempts, active, i);
      var g := new GateRun.OwnedGroup();
      var a, done := Publish(attempts[i].(group := w.pid), w);
      ok := done;
      Keep(i, a, g);
    }

    method Keep(i: nat, a: Attempt, g: GateRun.OwnedGroup)
      requires Valid() && i < |attempts| && Owned(attempts, active, i) && attempts[i].group.None?
      requires a.name == attempts[i].name && Sound(a) && a.cleanup.None? && a.group.Some?
      requires a.status.Starting? || a.status.Running?
      requires g.Valid() && g !in groups.Values
      modifies this`attempts, this`groups
      ensures Valid() && attempts == old(attempts)[i := a] && groups == old(groups)[i := g]
    {
      StartKeeps(attempts, active, i, a);
      attempts := attempts[i := a];
      groups := groups[i := g];
    }

    /** The record of a new attempt, owned from here on. */
    method Enlist(name: string, sha256: string)
      requires Valid() && !closed && name !in active && |attempts| < MAX_ATTEMPTS
      modifies this`attempts, this`active
      ensures Valid() && active == old(active)[name := |old(attempts)|]
      ensures attempts == old(attempts) + [New(name, sha256)]
    {
      var a := New(name, sha256);
      EnlistKeeps(attempts, active, a);
      attempts, active := attempts + [a], active[name := |attempts|];
    }

    /** An exception of any step is recorded before the attempt is finished. */
    method Fail(name: string, w: Closing)
      requires Valid() && name in active
      modifies this`attempts, this`active, this`received, groups.Values
      ensures Valid() && active == old(active) - {name} && Only(old(attempts), attempts, old(active)[name])
      ensures old(received) <= received
      ensures var was, a := old(attempts)[old(active)[name]], attempts[old(active)[name]];
              Closes(was.(error := true), a, received, w)
    {
      var i := active[name];
      assert Answered(attempts, active, i);
      StartKeeps(attempts, active, i, attempts[i].(error := true));
      attempts := attempts[i := attempts[i].(error := true)];
      var finished := Finish(name, w);
    }

    /** From the record of a new attempt to its status `running`, or to its first failure. */
    method TryStart(name: string, sha256: string, w: Opening) returns (ok: bool)
      requires Valid() && !closed && name !in active && |attempts| < MAX_ATTEMPTS
      requires ledger != null ==> ledger.Valid()
      modifies this`attempts, this`active, this`groups, ledger
      ensures Valid() && (ledger != null ==> ledger.Valid())
      ensures forall g :: g in groups.Values ==> g in old(groups).Values || fresh(g)
      ensures ok <==> old(Runs(w, sha256)) && w.saved
      ensures attempts == old(attempts) + [Opened(New(name, sha256), w, old(Begins(w)), old(Runs(w, sha256)))]
      ensures active == old(active)[name := |old(attempts)|]
      ensures ledger != null ==>
                Recorded(old(ledger.rows), old(ledger.rest), ledger.rows, ledger.rest, old(Begins(w)), sha256, owner, w)
    {
      var i := |attempts|;
      Enlist(name, sha256);
      ok := Start(i, w);
    }

    /** The same, with a failed attempt finished. */
    method Launch(name: string, sha256: string, w: Opening, z: Closing) returns (ok: bool)
      requires Valid() && !closed && name !in active && |attempts| < MAX_ATTEMPTS
      requires ledger != null ==> ledger.Valid()
      modifies this`attempts, this`active, this`received, this`groups, groups.Values, ledger
      ensures Valid() && (ledger != null ==> ledger.Valid()) && old(received) <= received
      ensures ok <==> old(Runs(w, sha256)) && w.saved
      ensures |attempts| == |old(attempts)| + 1 && attempts[..|old(attempts)|] == old(attempts)
      ensures Attempted(attempts[|old(attempts)|], name, sha256, w, old(Begins(w)), ok, z)
      ensures active == if ok then old(active)[name := |old(attempts)|] else old(active)
      ensures ledger != null ==>
                && Recorded(old(ledger.rows), old(ledger.rest), ledger.rows, ledger.rest, old(Begins(w)), sha256,
                            owner, w)
                && (ok ==> |ledger.rows| != |old(ledger.rows)|)
                && (|ledger.rows| != |old(ledger.rows)| ==>
                      Published(old(ledger.rows), ledger.rows, ledger.rest, attempts[|old(attempts)|], owner))
    {
      ghost var before := attempts;
      ok := TryStart(name, sha256, w);
      if !ok {
        ghost var started := attempts;
        Fail(name, z);
        OnlyLast(before, started, attempts);
        ReleasedName(old(active), name, |before|);
      }
      ghost var begun, a := old(Begins(w)), attempts[|old(attempts)|];
      AttemptedFields(a, name, sha256, w, begun, old(Runs(w, sha256)), ok, received, z);
      if ledger != null {
        RecordedRow(old(ledger.rows), old(ledger.rest), ledger.rows, ledger.rest, begun, sha256, owner, w, a);
      }
    }

    /** `spawn` goes ahead: open, uninterrupted, in time, and a free name with an exact executable. */
    ghost predicate Admissible(name: string, w: Opening)
      reads this
    {
      && !closed && received == [] && w.arriving == [] && !w.expired && ValidName(name)
      && name !in active && |attempts| < MAX_ATTEMPTS && w.exact
    }

    /** `spawn`. A failed attempt is finished before the failure is reported: its name is free, its
        group went through `drain`, and the ledger is as it was, has its whole row, or is torn. */
    method Spawn(name: string, sha256: string, w: Opening, z: Closing) returns (ok: bool)
      requires Valid() && (ledger != null ==> ledger.Valid())
      modifies this, groups.Values, ledger
      ensures Valid() && closed == old(closed) && (ledger != null ==> ledger.Valid())
      ensures ok <==> old(Admissible(name, w)) && old(Runs(w, sha256)) && w.saved
      ensures active == if ok then old(active)[name := |old(attempts)|] else old(active)
      ensures !old(Admissible(name, w)) ==>
                && attempts == old(attempts) && received == old(received) + w.arriving
                && (ledger != null ==> ledger.rows == old(ledger.rows) && ledger.rest == old(ledger.rest))
      ensures old(Admissible(name, w)) ==>
                && |attempts| == |old(attempts)| + 1 && attempts[..|old(attempts)|] == old(attempts)
                && Attempted(attempts[|old(attempts)|], name, sha256, w, old(Begins(w)), ok, z)
      ensures ledger != null && old(Admissible(name, w)) ==>
                && Recorded(old(ledger.rows), old(ledger.rest), ledger.rows, ledger.rest, old(Begins(w)), sha256,
                            owner, w)
                && (ok ==> |ledger.rows| != |old(ledger.rows)|)
                && (|ledger.rows| != |old(ledger.rows)| ==>
                      Published(old(ledger.rows), ledger.rows, ledger.rest, attempts[|old(attempts)|], owner))
    {
      var may := Check(w);
      if !may || !ValidName(name) || name in active || |attempts| >= MAX_ATTEMPTS || !w.exact {
        return false;
      }
      ok := Launch(name, sha256, w, z);
    }

    /** Every owned process is finished, even when some fail to drain. */
    method FinishAll(w: string -> Closing) returns (ok: bool)
      requires Valid()
      modifies this`attempts, this`active, this`received, groups.Values
      ensures Valid() && active == map[] && |attempts| == |old(attempts)|
      ensures ok <==> AllSettled(old(active), map[], attempts, w)
    {
      ok := true;
      ghost var owned := active;
      ConsistentApart(attempts, active);
      while active != map[]
        invariant Valid() && |attempts| == |old(attempts)|
        invariant Remaining(owned, active) && Apart(owned, |attempts|)
        invariant ok <==> AllSettled(owned, active, attempts, w)
        decreases |active|
      {
        var name :| name in active;
        ghost var was, records := active, attempts;
        var done := Finish(name, w(name));
        SettledMore(owned, was, records, attempts, name, w);
        ok := ok && done;
      }
    }

    /** `close`. */
    method Close(w: string -> Closing) returns (ok: bool)
      requires Valid()
      modifies this, groups.Values
      ensures Valid() && closed && active == map[] && |attempts| == |old(attempts)|
      ensures ok <==> AllSettled(old(active), map[], attempts, w)
    {
      ok := FinishAll(w);
      closed := true;
    }
  }

  function New(name: string, sha256: string): Attempt {
    Attempt(name, sha256, Starting, None, None, None, [], false, false)
  }

  /** The record once the process was started, if it was, and listed, if it was. */
  function Opened(was: Attempt, w: Opening, begun: bool, listed: bool): Attempt {
    if !begun then was
    else was.(group := w.pid, birth := w.birth, status := if listed then Running else Starting)
  }

  /** What one `spawn` did to the ledger: nothing before a process had its birth witness, and then as much of
      the row as was taken. */
  predicate Recorded(rows: seq<Row>, rest: Bytes, after: seq<Row>, left: Bytes, begun: bool, sha256: string, owner: int,
                     w: Opening)
  {
    if begun && w.birth.Some? && w.pid.Some?
    then Left(rows, after, left, Group(Entry(w.pid.value, owner, sha256, w.birth)), w.taken)
    else after == rows && left == rest
  }

  /** An attempt that failed: unless `drain` raised, its group went through it, and then, with the log
      flushed, its status says so. */
  predicate Failing(a: Attempt, z: Closing) {
    && (a.cleanup.None? <==> a.group.Some? && z.raised) && (a.group.None? ==> a.cleanup == Some(NOTHING))
    && (a.cleanup.Some? && z.flushed ==> a.status.Failed? && (a.stable <==> Settled(a)))
    && (a.cleanup.None? || !z.flushed ==> !a.stable && (a.status.Starting? || a.status.Running?))
  }

  /** The row tells the attempt's group, who started it, the admitted bytes and its leader's birth. */
  predicate Registers(row: Row, a: Attempt, owner: int) {
    && row.Group? && Some(row.entry.group) == a.group && row.entry.owner == owner
    && row.entry.executable == a.sha256 && row.entry.birth == a.birth
  }

  /** The ledger gained exactly that row. */
  ghost predicate Published(rows: seq<Row>, after: seq<Row>, left: Bytes, a: Attempt, owner: int) {
    && |after| == |rows| + 1 && rows <= after && left == [] && a.group.Some?
    && Registers(after[|rows|], a, owner) && Names(after, a.group.value)
  }

  lemma RecordedRow(rows: seq<Row>, rest: Bytes, after: seq<Row>, left: Bytes, begun: bool, sha256: string, owner: int,
                    w: Opening, a: Attempt)
    requires Recorded(rows, rest, after, left, begun, sha256, owner, w)
    requires begun ==> a.group == w.pid && w.pid.Some? && a.birth == w.birth && a.sha256 == sha256
    ensures |after| != |rows| ==> Published(rows, after, left, a, owner)
  {
    if |after| != |rows| {
      assert after[|rows|].entry.group == w.pid.value;
    }
  }

  /** The record of an attempt: its name and bytes, the process and its birth if one was started, and an
      error exactly if it failed. */
  predicate Attempted(a: Attempt, name: string, sha256: string, w: Opening, begun: bool, ok: bool, z: Closing) {
    && a.name == name && a.sha256 == sha256 && (a.error <==> !ok)
    && a.group == (if begun then w.pid else None) && a.birth == (if begun then w.birth else None)
    && (if ok then a.status.Running? && a.cleanup.None? && !a.stable && a.received == [] else Failing(a, z))
  }

  lemma AttemptedFields(a: Attempt, name: string, sha256: string, w: Opening, begun: bool, listed: bool, ok: bool,
                        received: seq<int>, z: Closing)
    requires var record := Opened(New(name, sha256), w, begun, listed);
             if ok then a == record && begun && listed else Closes(record.(error := true), a, received, z)
    ensures Attempted(a, name, sha256, w, begun, ok, z)
  {
  }

  /** Some of the names owned at first, at the same attempts. */
  predicate Remaining(owned: map<string, nat>, active: map<string, nat>) {
    forall name :: name in active ==> name in owned && active[name] == owned[name]
  }

  /** Different names own different attempts. */
  predicate Apart(owned: map<string, nat>, n: nat) {
    && (forall name :: name in owned ==> owned[name] < n)
    && (forall name, other :: name in owned && other in owned && name != other ==> owned[name] != owned[other])
  }

  lemma ConsistentApart(attempts: seq<Attempt>, active: map<string, nat>)
    requires Consistent(attempts, active)
    ensures Apart(active, |attempts|)
  {
  }

  /** Of the names no longer owned, every attempt drained and its log and receipt are kept. */
  predicate AllSettled(owned: map<string, nat>, active: map<string, nat>, attempts: seq<Attempt>, w: string -> Closing)
  {
    forall name :: name in owned && name !in active ==> Ended(owned[name], attempts, w(name))
  }

  predicate Ended(i: nat, attempts: seq<Attempt>, w: Closing) {
    i < |attempts| && Settled(attempts[i]) && w.flushed && w.saved
  }

  lemma SettledMore(owned: map<string, nat>, was: map<string, nat>, before: seq<Attempt>, after: seq<Attempt>,
                    name: string, w: string -> Closing)
    requires Remaining(owned, was) && name in was && owned[name] < |before| && Only(before, after, owned[name])
    requires Apart(owned, |after|)
    ensures Remaining(owned, was - {name}) && |was - {name}| < |was|
    ensures AllSettled(owned, was - {name}, after, w) <==>
              AllSettled(owned, was, before, w) && Ended(owned[name], after, w(name))
  {
    assert was.Keys == (was - {name}).Keys + {name};
    forall other | other in owned && other !in was
      ensures Ended(owned[other], after, w(other)) <==> Ended(owned[other], before, w(other))
    {
      assert owned[other] != owned[name];
    }
    SettledOthers(owned, was, before, after, name, w);
  }

  lemma SettledOthers(owned: map<string, nat>, was: map<string, nat>, before: seq<Attempt>, after: seq<Attempt>,
                      name: string, w: string -> Closing)
    requires name in was && name in owned
    requires forall other :: other in owned && other !in was ==>
               (Ended(owned[other], after, w(other)) <==> Ended(owned[other], before, w(other)))
    ensures AllSettled(owned, was - {name}, after, w) <==>
              AllSettled(owned, was, before, w) && Ended(owned[name], after, w(name))
  {
    if AllSettled(owned, was - {name}, after, w) {
      forall other | other in owned && other !in was
        ensures Ended(owned[other], before, w(other))
      {
        assert other !in was - {name};
      }
      assert name !in was - {name};
    }
  }

  lemma ReleasedName(active: map<string, nat>, name: string, n: nat)
    requires name !in active
    ensures active[name := n] - {name} == active
  {
  }

  lemma OnlyLast(first: seq<Attempt>, before: seq<Attempt>, after: seq<Attempt>)
    requires |before| == |first| + 1 && before[..|first|] == first && Only(before, after, |first|)
    ensures |after| == |first| + 1 && after[..|first|] == first
  {
    assert forall j :: 0 <= j < |first| ==> after[j] == before[j] && before[..|first|][j] == before[j];
  }

  lemma FinishKeeps(attempts: seq<Attempt>, active: map<string, nat>, name: string, a: Attempt)
    requires Consistent(attempts, active) && name in active && a.name == name
    requires Sound(a)
    ensures Consistent(attempts[active[name] := a], active - {name})
  {
    var next, rest := attempts[active[name] := a], active - {name};
    forall i | 0 <= i < |next|
      ensures Answered(next, rest, i)
    {
      assert Answered(attempts, active, i);
    }
    forall other | other in rest
      ensures rest[other] < |next| && next[rest[other]].name == other
    {
      assert attempts[active[other]].name == other;
    }
  }

  lemma StartKeeps(attempts: seq<Attempt>, active: map<string, nat>, i: nat, a: Attempt)
    requires Consistent(attempts, active) && i < |attempts| && a.name == attempts[i].name
    requires Sound(a) && a.cleanup.None? && (a.status.Starting? || a.status.Running?)
    ensures Consistent(attempts[i := a], active)
  {
    var next := attempts[i := a];
    forall j | 0 <= j < |next|
      ensures Answered(next, active, j)
    {
      assert Answered(attempts, active, j);
    }
  }

  lemma EnlistKeeps(attempts: seq<Attempt>, active: map<string, nat>, a: Attempt)
    requires Consistent(attempts, active) && |attempts| < MAX_ATTEMPTS && a.name !in active
    requires Sound(a) && a.cleanup.None? && a.status.Starting?
    ensures Consistent(attempts + [a], active[a.name := |attempts|])
  {
    var next, more := attempts + [a], active[a.name := |attempts|];
    forall i | 0 <= i < |next|
      ensures Answered(next, more, i)
    {
      if i < |attempts| {
        assert Answered(attempts, active, i) && next[i] == attempts[i];
      }
    }
  }

  /** A row of machine width, of a new group, leaves an admitting ledger readable and with room for
      the closure. */
  lemma GrownReadable(rows: seq<Row>, rest: Bytes, e: Entry)
    requires Admits(rows, rest) && Words(e) && !Names(rows, e.group)
    ensures ReadLedger(Written(rows + [Group(e)])) == Some(rows + [Group(e)])
    ensures Total(Width, rows + [Group(e)]) + Width(Closed) <= MAX_LEDGER_BYTES
  {
    WordWidth(e);
    ClosureWidth();
    ShapeMore(rows, Group(e));
    TotalMore(Width, rows, Group(e));
    ReadWritten(rows + [Group(e)], []);
    assert Written(rows + [Group(e)]) + [] == Written(rows + [Group(e)]);
  }
}
