/** Replay reads only the receipts of finished attempts and the trees of their outputs. */
module AttemptFrame {
  import opened Basics
  import opened Json
  import opened Text
  import opened AttemptRows
  import opened AttemptIndex
  import opened AttemptReplay

  /** Everything on the way to `o` and below it is still there, unchanged. */
  predicate Retained(before: Tree, after: Tree, o: Path) {
    forall p :: p in before && (p <= o || o <= p) ==> p in after && after[p] == before[p]
  }

  /** What a finished attempt is read back from. */
  predicate Kept(before: Disk, after: Disk, id: string, begin: Row)
    requires begin.BeginRow?
  {
    && Retained(before.tree, after.tree, OutputParts(begin))
    && (Attempt(id) in before.slots ==>
        Attempt(id) in after.slots && after.slots[Attempt(id)] == before.slots[Attempt(id)])
    && (Receipt(id) in before.slots ==>
        Receipt(id) in after.slots && after.slots[Receipt(id)] == before.slots[Receipt(id)])
  }

  lemma OwnedFrame(before: Tree, after: Tree, o: Path, p: Path)
    requires Retained(before, after, o) && o <= p && OwnedFile(before, p)
    ensures OwnedFile(after, p) && after[p] == before[p]
  {
    forall k | 0 < k < |p|
      ensures p[..k] in after && after[p[..k]].Dir?
    {
      assert p[..k] <= o || o <= p[..k];
    }
  }

  lemma RefFrame(env: Env, before: Tree, after: Tree, o: Path, at: Path, r: Ref)
    requires Retained(before, after, o) && RefHolds(env, before, at, r)
    requires o <= at + Relative(r.path).value
    ensures RefHolds(env, after, at, r)
    ensures RefData(after, at, r) == RefData(before, at, r)
    ensures JsonRef(env, after, at, r) == JsonRef(env, before, at, r)
  {
    OwnedFrame(before, after, o, at + Relative(r.path).value);
  }

  /** A reference kept relative to the output itself. */
  lemma ValueRefFrame(env: Env, before: Tree, after: Tree, o: Path, v: Value)
    requires Retained(before, after, o) && ValueRefHolds(env, before, o, v)
    ensures ValueRefHolds(env, after, o, v)
  {
    RefFrame(env, before, after, o, o, RefOf(v).value);
  }

  lemma ProductsFrame(env: Env, before: Tree, after: Tree, o: Path, roster: set<string>, products: seq<Value>,
                      passed: bool)
    requires Retained(before, after, o) && ProductsHold(env, before, o, roster, products, passed)
    ensures ProductsHold(env, after, o, roster, products, passed)
  {
    forall i | 0 <= i < |products|
      ensures ProductHolds(env, after, o, roster, products[i])
    {
      assert ProductHolds(env, before, o, roster, products[i]);
      ValueRefFrame(env, before, after, o, products[i].fields[0].value);
    }
  }

  lemma DomainOutputFrame(env: Env, before: Tree, after: Tree, o: Path, id: string, target: string, v: Value)
    requires Retained(before, after, o) && DomainOutputHolds(env, before, o, id, target, v)
    ensures DomainOutputHolds(env, after, o, id, target, v)
  {
    ValueRefFrame(env, before, after, o, v.fields[0].value);
    ValueRefFrame(env, before, after, o, v.fields[3].value);
  }

  lemma DomainFrame(env: Env, before: Tree, after: Tree, identity: Identity, begin: Row, receipt: Value, evidence: Ref,
                    observed: Value)
    requires begin.BeginRow? && Retained(before, after, OutputParts(begin))
    requires DomainHolds(env, before, identity, begin, receipt, evidence, observed)
    ensures DomainHolds(env, after, identity, begin, receipt, evidence, observed)
  {
    var o := OutputParts(begin);
    RefFrame(env, before, after, o, o, Ref("launcher.json", evidence.sha256, evidence.bytes));
    ValueRefFrame(env, before, after, o, Get(observed, "report").value);
    var outputs := Get(observed, "outputs").value.items;
    DomainOutputFrame(env, before, after, o, "package", identity.target, outputs[0]);
    DomainOutputFrame(env, before, after, o, "source", identity.target, outputs[1]);
  }

  lemma BelowOutput(begin: Row, name: string, r: Ref)
    requires begin.BeginRow? && r.path == begin.output + "/" + name
    ensures OutputParts(begin) <= Split(r.path, '/')
  {
    SplitConcat(begin.output, name, '/');
  }

  /** A record below an output, referenced from the root. */
  lemma JsonFrame(env: Env, before: Tree, after: Tree, o: Path, r: Ref)
    requires Retained(before, after, o) && JsonRef(env, before, [], r).Some? && o <= Split(r.path, '/')
    ensures JsonRef(env, after, [], r) == JsonRef(env, before, [], r)
  {
    assert [] + Relative(r.path).value == Split(r.path, '/');
    RefFrame(env, before, after, o, [], r);
  }

  lemma ObservationFrame(env: Env, before: Tree, after: Tree, identity: Identity, begin: Row, receipt: Value,
                         evidence: Ref)
    requires begin.BeginRow? && Retained(before, after, OutputParts(begin))
    requires ObservationHolds(env, before, identity, begin, receipt, evidence)
    ensures ObservationHolds(env, after, identity, begin, receipt, evidence)
  {
    if Passed(receipt) {
      var r := RefOf(Get(receipt, "domain_observation").value).value;
      BelowOutput(begin, "domain-observation.json", r);
      JsonFrame(env, before, after, OutputParts(begin), r);
      DomainFrame(env, before, after, identity, begin, receipt, evidence, JsonRef(env, before, [], r).value);
    }
  }

  lemma OutcomeFrame(env: Env, before: Tree, after: Tree, identity: Identity, begin: Row, receipt: Value, evidence: Ref,
                     outcome: Value)
    requires begin.BeginRow? && Retained(before, after, OutputParts(begin))
    requires OutcomeHolds(env, before, identity, begin, receipt, evidence, outcome)
    ensures OutcomeHolds(env, after, identity, begin, receipt, evidence, outcome)
  {
    match env.kinds[begin.kind].roster
    case Some(roster) =>
      ProductsFrame(env, before, after, OutputParts(begin), roster, Get(outcome, "products").value.items,
                    Passed(receipt));
    case None => ObservationFrame(env, before, after, identity, begin, receipt, evidence);
  }

  lemma ReceiptFrame(env: Env, before: Tree, after: Tree, identity: Identity, begin: Row, receipt: Value)
    requires begin.BeginRow? && Retained(before, after, OutputParts(begin))
    requires ReceiptHolds(env, before, identity, begin, receipt)
    ensures ReceiptHolds(env, after, identity, begin, receipt)
  {
    var evidence := RefOf(Get(receipt, "evidence").value).value;
    RefFrame(env, before, after, OutputParts(begin), [], evidence);
    OutcomeFrame(env, before, after, identity, begin, receipt, evidence, JsonRef(env, before, [], evidence).value);
  }

  lemma NextEntriesFrame(env: Env, before: Disk, after: Disk, st: Progress, row: Row)
    requires NextEntries(env, before, st, row).Some?
    requires row.TerminalRow? ==>
               && row.id in st.entries && st.entries[row.id].begin.BeginRow?
               && Kept(before, after, row.id, st.entries[row.id].begin)
    ensures NextEntries(env, after, st, row) == NextEntries(env, before, st, row)
  {
    if row.TerminalRow? {
      var begin := st.entries[row.id].begin;
      ReceiptFrame(env, before.tree, after.tree, st.identity.value, begin,
                   ReceiptRef(env, before.slots, row.id, row.receipt).value);
    }
  }

  /** The attempt a terminal row ends is open before it and finished after it. */
  lemma TerminalApplied(env: Env, disk: Disk, st: Progress, row: Row, digest: string)
    requires row.TerminalRow? && ApplyRow(env, disk, st, row, digest).Some?
    ensures var next := ApplyRow(env, disk, st, row, digest).value;
            && row.id in st.entries && row.id in next.entries && next.entries[row.id].terminal == Some(row)
            && next.entries[row.id].begin == st.entries[row.id].begin && st.entries[row.id].begin.BeginRow?
  {
  }

  lemma ApplyFrame(env: Env, before: Disk, after: Disk, st: Progress, row: Row, digest: string)
    requires ApplyRow(env, before, st, row, digest).Some?
    requires row.TerminalRow? ==>
               && row.id in st.entries && st.entries[row.id].begin.BeginRow?
               && Kept(before, after, row.id, st.entries[row.id].begin)
    ensures ApplyRow(env, after, st, row, digest) == ApplyRow(env, before, st, row, digest)
  {
    NextEntriesFrame(env, before, after, st, row);
    SameEntries(env, before, after, st, row, digest);
  }

  lemma SameEntries(env: Env, a: Disk, b: Disk, st: Progress, row: Row, digest: string)
    requires NextEntries(env, a, st, row) == NextEntries(env, b, st, row)
    ensures ApplyRow(env, a, st, row, digest) == ApplyRow(env, b, st, row, digest)
  {
  }

  /** Replay gives the same result as long as finished attempts keep their receipts and outputs. */
  lemma {:induction false} ReplayFrame(env: Env, before: Disk, after: Disk, data: Bytes, st: Progress)
    requires Sound(st.entries) && ReplayData(env, before, data, st).Some?
    requires var end := ReplayData(env, before, data, st).value.entries;
             forall id :: id in end && end[id].terminal.Some? ==>
               end[id].begin.BeginRow? && Kept(before, after, id, end[id].begin)
    ensures ReplayData(env, after, data, st) == ReplayData(env, before, data, st)
    decreases |data|
  {
    if data != [] {
      var next := Apply(env, before, st, FirstLine(data)).value;
      ApplyKeeps(env, before, st, FirstLine(data));
      ReplayKeeps(env, before, AfterLine(data), next);
      var row, digest := DecodeRow(FirstLine(data)).value, env.hash(FirstLine(data));
      if row.TerminalRow? {
        TerminalApplied(env, before, st, row, digest);
      }
      ApplyFrame(env, before, after, st, row, digest);
      ReplayFrame(env, before, after, AfterLine(data), next);
    }
  }

  // ------------------------------------------ what the rows alone determine

  lemma ApplyDetermined(env: Env, a: Disk, b: Disk, st: Progress, line: Bytes)
    requires Apply(env, a, st, line).Some? && Apply(env, b, st, line).Some?
    ensures Apply(env, a, st, line) == Apply(env, b, st, line)
  {
  }

  /** Two accepting replays of the same bytes agree, whatever files they were checked against. */
  lemma {:induction false} ReplayDetermined(env: Env, a: Disk, b: Disk, data: Bytes, st: Progress)
    requires ReplayData(env, a, data, st).Some? && ReplayData(env, b, data, st).Some?
    ensures ReplayData(env, a, data, st) == ReplayData(env, b, data, st)
    decreases |data|
  {
    if data != [] {
      ApplyDetermined(env, a, b, st, FirstLine(data));
      ReplayDetermined(env, a, b, AfterLine(data), Apply(env, a, st, FirstLine(data)).value);
    }
  }

  /** Lines accepted on one disk come out one by one on another, so a longer file that is accepted
      there has them accepted first, and one more line after them. */
  lemma {:induction false} ReplayLast(env: Env, a: Disk, b: Disk, data: Bytes, line: Bytes, st: Progress)
    requires ReplayData(env, a, data, st).Some? && OneLine(line)
    requires ReplayData(env, b, data + line, st).Some?
    ensures Apply(env, b, ReplayData(env, a, data, st).value, line).Some?
    decreases |data|
  {
    if data == [] {
      assert data + line == line;
      LineLengthWhole(line, 0);
      assert FirstLine(line) == line;
    } else {
      AppliedLine(env, a, st, FirstLine(data));
      FirstLineAppend(data, line);
      ApplyDetermined(env, a, b, st, FirstLine(data));
      ReplayLast(env, a, b, AfterLine(data), line, Apply(env, a, st, FirstLine(data)).value);
    }
  }
}
