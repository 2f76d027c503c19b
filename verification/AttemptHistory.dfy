/** Whole histories: any lock-serialised sequence of completed calls, with running attempts free to
    do anything inside their own outputs in between. */
module AttemptHistory {
  import opened Basics
  import opened Json
  import opened AttemptRows
  import opened AttemptIndex
  import opened AttemptReplay
  import opened AttemptFrame
  import opened AttemptCalls
  import opened AttemptRuns

  /** `Works` is a running attempt changing files; the rest are the journal's own calls. */
  datatype Call =
    | Creates(identity: Identity)
    | Begins(admission: Admission)
    | Finishes(id: string, receipt: Value)
    | Works(worker: string, tree: Tree)

  /** Only paths inside the admitted output differ, but for missing directories made on the way to it. */
  ghost predicate Confined(before: Tree, after: Tree, output: Path) {
    && (forall p :: p in before && !(output <= p) ==> p in after && after[p] == before[p])
    && (forall p :: p in after && !(output <= p) && p !in before ==> p <= output && after[p].Dir?)
  }

  /** The call goes through, with its receipt within the JSON limit and read back as written. */
  ghost predicate Completes(env: Env, disk: Disk, call: Call) {
    match call
    case Creates(identity) => Create(env, disk, identity).row.Some?
    case Begins(a) => Begin(env, disk, a).row.Some?
    case Finishes(id, receipt) =>
      && Finish(env, disk, id, receipt).row.Some?
      && |Canonical(receipt)| <= MAX_JSON_BYTES && env.loads(Canonical(receipt)) == Some(receipt)
    case Works(id, tree) =>
      && Open(env, disk).Some?
      && var entries := Open(env, disk).value.entries;
         && id in entries && entries[id].terminal.None? && entries[id].begin.BeginRow?
         && Confined(disk.tree, tree, OutputParts(entries[id].begin))
  }

  function DiskAfter(env: Env, disk: Disk, call: Call): Disk {
    match call
    case Creates(identity) => Create(env, disk, identity).disk
    case Begins(a) => Begin(env, disk, a).disk
    case Finishes(id, receipt) => Finish(env, disk, id, receipt).disk
    case Works(_, tree) => disk.(tree := tree)
  }

  /** What the call adds to the journal, told without any disk. */
  function Builds(env: Env, j: Option<Journal>, call: Call): Option<Journal> {
    match call
    case Creates(identity) => if j.None? then Some(Founded(env, identity)) else j
    case Begins(a) => if j.None? then None else Some(Admitted(env, j.value, BeginRowFor(j.value, a)))
    case Finishes(id, receipt) =>
      if j.None? || id !in j.value.entries then None
      else Some(Finished(env, j.value, TerminalRowFor(env, j.value, id, Canonical(receipt))))
    case Works(_, _) => j
  }

  function DiskAfterAll(env: Env, disk: Disk, calls: seq<Call>): Disk {
    if calls == [] then disk
    else DiskAfter(env, DiskAfterAll(env, disk, calls[..|calls| - 1]), calls[|calls| - 1])
  }

  function BuildsAll(env: Env, calls: seq<Call>): Option<Journal> {
    if calls == [] then None
    else Builds(env, BuildsAll(env, calls[..|calls| - 1]), calls[|calls| - 1])
  }

  ghost predicate CompletesAll(env: Env, disk: Disk, calls: seq<Call>) {
    calls != [] ==>
      && CompletesAll(env, disk, calls[..|calls| - 1])
      && Completes(env, DiskAfterAll(env, disk, calls[..|calls| - 1]), calls[|calls| - 1])
  }

  lemma PrefixesOfOne(a: Path, b: Path, p: Path)
    requires a <= p && b <= p
    ensures a <= b || b <= a
  {
    assert |a| <= |b| ==> a == b[..|a|];
    assert |b| <= |a| ==> b == a[..|b|];
  }

  /** No file of another output is on the way to, or below, an output apart from it. */
  lemma ApartUntouched(before: Tree, after: Tree, mine: Path, other: Path)
    requires Confined(before, after, mine) && Apart(mine, other)
    ensures Retained(before, after, other)
  {
    forall p | p in before && (p <= other || other <= p)
      ensures p in after && after[p] == before[p]
    {
      if mine <= p && other <= p {
        PrefixesOfOne(mine, other, p);
      }
    }
  }

  /** Because outputs stay apart, whatever a running attempt does in its own output leaves every
      finished attempt, and so the replayed journal, as it was. */
  lemma WorkKeepsJournal(env: Env, disk: Disk, id: string, tree: Tree)
    requires Completes(env, disk, Works(id, tree))
    ensures Open(env, disk.(tree := tree)) == Open(env, disk)
  {
    var j, after := Open(env, disk).value, disk.(tree := tree);
    OpenSound(env, disk);
    OpenCensus(env, disk);
    forall other | other in j.entries && j.entries[other].terminal.Some?
      ensures j.entries[other].begin.BeginRow? && Kept(disk, after, other, j.entries[other].begin)
    {
      assert SoundEntry(other, j.entries[other]);
      assert ApartEntries(j.entries[id], j.entries[other]);
      ApartUntouched(disk.tree, tree, OutputParts(j.entries[id].begin), OutputParts(j.entries[other].begin));
    }
    KeptReplays(env, disk, after);
    OpenProgress(env, disk);
    OpenIs(env, after, j);
  }

  /** Before any journal: nothing in the namespace. */
  predicate Fresh(disk: Disk) {
    disk.slots == map[]
  }

  predicate State(env: Env, disk: Disk, j: Option<Journal>) {
    && Open(env, disk) == j && Rooted(disk.slots)
    && (j.None? ==> Fresh(disk))
  }

  lemma StepKeeps(env: Env, disk: Disk, j: Option<Journal>, call: Call)
    requires State(env, disk, j) && Completes(env, disk, call)
    ensures State(env, DiskAfter(env, disk, call), Builds(env, j, call))
  {
    match call
    case Creates(identity) => CreateStep(env, disk, identity);
    case Begins(a) =>
      BeginCompletes(env, disk, a);
    case Finishes(id, receipt) =>
      FinishCompletes(env, disk, id, receipt);
      OpenCensus(env, disk);
    case Works(id, tree) =>
      WorkKeepsJournal(env, disk, id, tree);
  }

  lemma CreateStep(env: Env, disk: Disk, identity: Identity)
    requires State(env, disk, Open(env, disk)) && Create(env, disk, identity).row.Some?
    ensures State(env, Create(env, disk, identity).disk,
                  if Open(env, disk).None? then Some(Founded(env, identity)) else Open(env, disk))
  {
    if Index !in disk.slots {
      CreateCompletes(env, disk, identity);
    }
  }

  /** Replay of the disk any completed history leaves gives exactly the journal it built: identity,
      entries, sequence and chain digest. */
  lemma {:induction false} HistoryReplays(env: Env, disk: Disk, calls: seq<Call>)
    requires Fresh(disk) && CompletesAll(env, disk, calls)
    ensures State(env, DiskAfterAll(env, disk, calls), BuildsAll(env, calls))
    decreases |calls|
  {
    if calls != [] {
      var prior := calls[..|calls| - 1];
      HistoryReplays(env, disk, prior);
      StepKeeps(env, DiskAfterAll(env, disk, prior), BuildsAll(env, prior), calls[|calls| - 1]);
    }
  }
}
