/** `replay` against an anchor, and `replay_journals` over several hosts. */
module AttemptMerge {
  import opened Basics
  import opened AttemptRows
  import opened AttemptIndex
  import opened HistoryMerge
  import opened AttemptEntries
  import opened AttemptLaw
  import opened AttemptLengths

  datatype Head = Head(identity: Identity, sequence: nat, sha256: string)

  /** A resolved custody root and the head an operator anchored for it. */
  datatype Supplied = Supplied(root: Path, anchor: Head)

  datatype Host = Host(env: Env, disk: Disk)

  /** The custody roots there are: a root outside this map is absent or aliased. */
  type Hosts = map<Path, Host>

  predicate ValidHead(env: Env, head: Head) {
    ValidIdentity(env, head.identity) && head.sequence >= 1 && Digest(head.sha256)
  }

  function HeadOf(j: Journal): Head {
    Head(j.identity, j.sequence, j.sha256)
  }

  predicate Finished(entries: Entries) {
    entries != map[] && forall id :: id in entries ==> entries[id].terminal.Some?
  }

  function Replay(hosts: Hosts, complete: bool, s: Supplied): (r: Option<Entries>) {
    if s.root !in hosts || !ValidHead(hosts[s.root].env, s.anchor) then None
    else
      var j :- Open(hosts[s.root].env, hosts[s.root].disk);
      if HeadOf(j) == s.anchor && (complete ==> Finished(j.entries)) then Some(j.entries) else None
  }

  /** Rows that keep the journal's law on this host, end at the anchored head and, if the journal has to be
      complete, admit something and end all they admit. */
  ghost predicate Anchored(host: Host, complete: bool, anchor: Head, rows: seq<Row>) {
    && KeepsLaw(host.env, host.disk, rows) && rows[0].IdentityRow?
    && anchor == Head(rows[0].identity, |rows|, host.env.hash(RowBytes(rows[|rows| - 1])))
    && (complete ==> AllEnded(rows))
  }

  /** Something was admitted, and all that was admitted has ended. */
  ghost predicate AllEnded(rows: seq<Row>) {
    (exists id :: Begun(rows, id)) && (forall id :: Begun(rows, id) ==> Ended(rows, id))
  }

  /** A journal is accepted against its anchor exactly when such rows are there, and it gives their
      entries. */
  lemma AnchoredExactly(hosts: Hosts, complete: bool, s: Supplied, entries: Entries)
    requires s.root in hosts ==> Standard(hosts[s.root].env)
    ensures Replay(hosts, complete, s) == Some(entries) <==>
              && s.root in hosts
              && exists rows: seq<Row> ::
                   Anchored(hosts[s.root], complete, s.anchor, rows) && entries == EntriesOf(rows)
  {
    if s.root in hosts {
      HostExactly(hosts[s.root], complete, s.anchor, entries);
    }
  }

  /** What `replay` asks of one host. */
  predicate Accepts(host: Host, complete: bool, anchor: Head, entries: Entries) {
    && ValidHead(host.env, anchor) && Open(host.env, host.disk).Some?
    && HeadOf(Open(host.env, host.disk).value) == anchor && Open(host.env, host.disk).value.entries == entries
    && (complete ==> Finished(entries))
  }

  lemma HostExactly(host: Host, complete: bool, anchor: Head, entries: Entries)
    requires Standard(host.env)
    ensures Accepts(host, complete, anchor, entries) <==>
              exists rows: seq<Row> :: Anchored(host, complete, anchor, rows) && entries == EntriesOf(rows)
  {
    if Accepts(host, complete, anchor, entries) {
      var rows := OpensAnchored(host, complete, anchor);
    }
    if rows: seq<Row> :| Anchored(host, complete, anchor, rows) && entries == EntriesOf(rows) {
      AnchorReplays(host, complete, anchor, rows);
      AnchorValid(host, complete, anchor, rows);
    }
  }

  lemma OpensAnchored(host: Host, complete: bool, anchor: Head) returns (rows: seq<Row>)
    requires Open(host.env, host.disk).Some? && HeadOf(Open(host.env, host.disk).value) == anchor
    requires complete ==> Finished(Open(host.env, host.disk).value.entries)
    ensures Anchored(host, complete, anchor, rows) && EntriesOf(rows) == Open(host.env, host.disk).value.entries
  {
    rows := OpenLaw(host.env, host.disk);
    LawOpens(host.env, host.disk, rows);
    LawFinished(host.env, host.disk, rows);
  }

  lemma FinishedExactly(entries: Entries, rows: seq<Row>)
    requires AttemptEntries.Tracks(entries, rows)
    ensures Finished(entries) <==> AllEnded(rows)
  {
    forall id
      ensures id in entries <==> Begun(rows, id)
      ensures id in entries ==> (entries[id].terminal.Some? <==> Ended(rows, id))
    {
      BegunExactly(entries, rows, id);
    }
    if entries != map[] {
      var id :| id in entries;
      assert Begun(rows, id);
    }
  }

  lemma LawFinished(env: Env, disk: Disk, rows: seq<Row>)
    requires AllLawful(env, disk, rows)
    ensures Finished(EntriesOf(rows)) <==> AllEnded(rows)
  {
    LawfulTracks(env, disk, rows);
    FinishedExactly(EntriesOf(rows), rows);
  }

  lemma AnchorReplays(host: Host, complete: bool, anchor: Head, rows: seq<Row>)
    requires Anchored(host, complete, anchor, rows)
    ensures Open(host.env, host.disk).Some? && HeadOf(Open(host.env, host.disk).value) == anchor
    ensures Open(host.env, host.disk).value.entries == EntriesOf(rows) && (complete ==> Finished(EntriesOf(rows)))
  {
    LawOpens(host.env, host.disk, rows);
    LawFinished(host.env, host.disk, rows);
  }

  lemma AnchorValid(host: Host, complete: bool, anchor: Head, rows: seq<Row>)
    requires Standard(host.env) && Anchored(host, complete, anchor, rows)
    ensures ValidHead(host.env, anchor)
  {
    FirstFounds(host.env, host.disk, rows);
    NameText(anchor.identity.journal);
    NameText(anchor.identity.host);
  }

  lemma FirstFounds(env: Env, disk: Disk, rows: seq<Row>)
    requires KeepsLaw(env, disk, rows)
    ensures Founds(env, rows[0])
  {
    assert Lawful(env, disk, rows[..0], rows[0]);
  }

  function Look(hosts: Hosts, complete: bool, s: Supplied): Found<Entry> {
    Found(s.root, s.anchor.identity.journal, Replay(hosts, complete, s))
  }

  function LookAll(hosts: Hosts, complete: bool, list: seq<Supplied>): (found: seq<Found<Entry>>)
    ensures |found| == |list|
  {
    Each(s => Look(hosts, complete, s), list)
  }

  method ReplayJournals(hosts: Hosts, complete: bool, list: seq<Supplied>)
    returns (r: Option<map<string, Owned<Entry>>>)
    ensures r.Some? <==> OneHistory(LookAll(hosts, complete, list))
    ensures r.Some? ==> Merges(LookAll(hosts, complete, list), r.value)
  {
    r := Merge(LookAll(hosts, complete, list));
  }

  /** The order in which journals are supplied changes neither acceptance nor the history. */
  lemma SuppliedOrderFree(hosts: Hosts, complete: bool, list: seq<Supplied>, other: seq<Supplied>,
                          m: map<string, Owned<Entry>>)
    requires multiset(list) == multiset(other)
    ensures OneHistory(LookAll(hosts, complete, list)) <==> OneHistory(LookAll(hosts, complete, other))
    ensures Merges(LookAll(hosts, complete, list), m) <==> Merges(LookAll(hosts, complete, other), m)
  {
    EachPermuted(s => Look(hosts, complete, s), list, other);
    PermutationSame(LookAll(hosts, complete, list), LookAll(hosts, complete, other), m);
  }
}
