/** The head of a journal determines its whole history: rows, receipts, outcomes and products. */
module AttemptTamper {
  import opened Basics
  import opened Json
  import opened AttemptRows
  import opened AttemptIndex
  import opened AttemptReplay
  import opened AttemptCalls
  import opened AttemptRuns

  function Lines(data: Bytes): seq<Bytes>
    decreases |data|
  {
    if data == [] then [] else [FirstLine(data)] + Lines(AfterLine(data))
  }

  /** Bytes some digest in this custody was taken of: a row, or a whole file. */
  ghost predicate Hashed(disk: Disk, x: Bytes) {
    || (Indexed(disk) && x in Lines(IndexData(disk)))
    || (exists slot :: slot in disk.slots && disk.slots[slot] == File(x))
    || (exists p :: p in disk.tree && disk.tree[p] == File(x))
  }

  /** The digest does not confuse the bytes of one custody with those of the other. */
  ghost predicate CollisionFree(env: Env, a: Disk, b: Disk) {
    forall x, y :: Hashed(a, x) && Hashed(b, y) && env.hash(x) == env.hash(y) ==> x == y
  }

  // -------------------------------------------------------------------- rows

  lemma ConsLines(first: Bytes, rest: Bytes)
    requires OneLine(first)
    ensures FirstLine(first + rest) == first && AfterLine(first + rest) == rest
    ensures Lines(first + rest) == [first] + Lines(rest)
  {
    LineLengthWhole(first, 0);
    assert FirstLine(first) == first && AfterLine(first) == [];
    FirstLineAppend(first, rest);
    assert [] + rest == rest;
  }

  lemma ConsReplays(env: Env, disk: Disk, first: Bytes, rest: Bytes, st: Progress)
    requires OneLine(first) && Apply(env, disk, st, first).Some?
    ensures ReplayData(env, disk, first + rest, st) == ReplayData(env, disk, rest, Apply(env, disk, st, first).value)
  {
    ConsLines(first, rest);
  }

  /** `data` is `init` and one more row. */
  ghost predicate EndsIn(env: Env, disk: Disk, st: Progress, data: Bytes, init: Bytes, line: Bytes) {
    && data == init + line && OneLine(line)
    && ReplayData(env, disk, init, st).Some?
    && Apply(env, disk, ReplayData(env, disk, init, st).value, line) == ReplayData(env, disk, data, st)
  }

  lemma EndsInCons(env: Env, disk: Disk, st: Progress, next: Progress, first: Bytes, data: Bytes, init: Bytes,
                   line: Bytes)
    requires EndsIn(env, disk, next, data, init, line)
    requires ReplayData(env, disk, first + init, st) == ReplayData(env, disk, init, next)
    requires ReplayData(env, disk, first + data, st) == ReplayData(env, disk, data, next)
    ensures EndsIn(env, disk, st, first + data, first + init, line)
  {
    Associative(first, init, line);
  }

  predicate WholeLines(data: Bytes)
    decreases |data|
  {
    data == [] || (OneLine(FirstLine(data)) && WholeLines(AfterLine(data)))
  }

  lemma {:induction false} AcceptedLines(env: Env, disk: Disk, data: Bytes, st: Progress)
    requires ReplayData(env, disk, data, st).Some?
    ensures WholeLines(data)
    decreases |data|
  {
    if data != [] {
      AppliedLine(env, disk, st, FirstLine(data));
      AcceptedLines(env, disk, AfterLine(data), Apply(env, disk, st, FirstLine(data)).value);
    }
  }

  lemma {:induction false} LinesAppend(data: Bytes, line: Bytes)
    requires WholeLines(data) && OneLine(line)
    ensures Lines(data + line) == Lines(data) + [line]
    decreases |data|
  {
    if data == [] {
      assert data + line == line + [];
      ConsLines(line, []);
    } else {
      LinesAppend(AfterLine(data), line);
      FirstLineAppend(data, line);
      assert data + line != [];
    }
  }

  /** An accepted file that is not empty ends in one more row after an accepted file. */
  lemma {:induction false} LastRow(env: Env, disk: Disk, data: Bytes, st: Progress) returns (init: Bytes, line: Bytes)
    requires data != [] && ReplayData(env, disk, data, st).Some?
    ensures EndsIn(env, disk, st, data, init, line)
    decreases |data|
  {
    var first, rest := FirstLine(data), AfterLine(data);
    AppliedLine(env, disk, st, first);
    FirstAndRest(data);
    if rest == [] {
      init, line := [], first;
      OnlyRow(env, disk, data, st);
    } else {
      var next := Apply(env, disk, st, first).value;
      init, line := LastRow(env, disk, rest, next);
      OneMoreRow(env, disk, st, first, rest, init, line);
      init := first + init;
    }
  }

  lemma FirstAndRest(data: Bytes)
    ensures data == FirstLine(data) + AfterLine(data)
  {
  }

  lemma OnlyRow(env: Env, disk: Disk, data: Bytes, st: Progress)
    requires data != [] && AfterLine(data) == [] && ReplayData(env, disk, data, st).Some?
    ensures EndsIn(env, disk, st, data, [], FirstLine(data))
  {
    AppliedLine(env, disk, st, FirstLine(data));
    FirstAndRest(data);
    assert [] + FirstLine(data) == FirstLine(data) + [];
  }

  lemma OneMoreRow(env: Env, disk: Disk, st: Progress, first: Bytes, rest: Bytes, init: Bytes, line: Bytes)
    requires OneLine(first) && Apply(env, disk, st, first).Some?
    requires EndsIn(env, disk, Apply(env, disk, st, first).value, rest, init, line)
    ensures EndsIn(env, disk, st, first + rest, first + init, line)
  {
    var next := Apply(env, disk, st, first).value;
    ConsReplays(env, disk, first, init, st);
    ConsReplays(env, disk, first, rest, st);
    EndsInCons(env, disk, st, next, first, rest, init, line);
  }

  /** What one row fixes of the journal before it. */
  lemma AppliedHead(env: Env, disk: Disk, st: Progress, line: Bytes)
    requires Apply(env, disk, st, line).Some?
    ensures var row, next := DecodeRow(line).value, Apply(env, disk, st, line).value;
            && next.sequence == st.sequence + 1 && next.previous == env.hash(line)
            && row.previous == st.previous
  {
  }

  lemma {:induction false} SequenceCounts(env: Env, disk: Disk, data: Bytes, st: Progress)
    requires ReplayData(env, disk, data, st).Some?
    ensures ReplayData(env, disk, data, st).value.sequence >= st.sequence
    ensures data != [] ==> ReplayData(env, disk, data, st).value.sequence > st.sequence
    decreases |data|
  {
    if data != [] {
      AppliedHead(env, disk, st, FirstLine(data));
      SequenceCounts(env, disk, AfterLine(data), Apply(env, disk, st, FirstLine(data)).value);
    }
  }

  /** Two accepted files with the same length in rows and the same chain digest are equal. */
  lemma {:induction false} ChainDetermines(env: Env, a: Disk, b: Disk, da: Bytes, db: Bytes)
    requires ReplayData(env, a, da, START).Some? && ReplayData(env, b, db, START).Some?
    requires ReplayData(env, a, da, START).value.sequence == ReplayData(env, b, db, START).value.sequence
    requires ReplayData(env, a, da, START).value.previous == ReplayData(env, b, db, START).value.previous
    requires forall x, y :: x in Lines(da) && y in Lines(db) && env.hash(x) == env.hash(y) ==> x == y
    ensures da == db
    decreases |da|
  {
    SequenceCounts(env, a, da, START);
    SequenceCounts(env, b, db, START);
    if da != [] && db != [] {
      var ia, la := LastRow(env, a, da, START);
      var ib, lb := LastRow(env, b, db, START);
      AppliedHead(env, a, ReplayData(env, a, ia, START).value, la);
      AppliedHead(env, b, ReplayData(env, b, ib, START).value, lb);
      AcceptedLines(env, a, ia, START);
      AcceptedLines(env, b, ib, START);
      LinesAppend(ia, la);
      LinesAppend(ib, lb);
      assert la == lb;
      assert forall x :: x in Lines(ia) ==> x in Lines(da);
      assert forall y :: y in Lines(ib) ==> y in Lines(db);
      ChainDetermines(env, a, b, ia, ib);
    }
  }

  // ------------------------------------------------------- receipts and files

  /** The same regular file, byte for byte, on both sides. */
  predicate SameFile(a: Tree, b: Tree, p: Path) {
    p in a && p in b && a[p].File? && a[p] == b[p]
  }

  predicate SameRef(a: Tree, b: Tree, at: Path, r: Ref) {
    Relative(r.path).Some? && SameFile(a, b, at + Relative(r.path).value)
  }

  lemma RefSame(env: Env, a: Disk, b: Disk, at: Path, r: Ref)
    requires CollisionFree(env, a, b)
    requires RefHolds(env, a.tree, at, r) && RefHolds(env, b.tree, at, r)
    ensures SameRef(a.tree, b.tree, at, r)
    ensures JsonRef(env, a.tree, at, r) == JsonRef(env, b.tree, at, r)
  {
    var p := at + Relative(r.path).value;
    assert Hashed(a, a.tree[p].data) && Hashed(b, b.tree[p].data);
  }

  function RefIn(v: Value): Ref {
    if RefOf(v).Some? then RefOf(v).value else Ref("", "", 0)
  }

  predicate SameProducts(a: Tree, b: Tree, out: Path, products: seq<Value>) {
    forall i :: 0 <= i < |products| && products[i].Obj? && |products[i].fields| == 2 ==>
      SameRef(a, b, out, RefIn(products[i].fields[0].value))
  }

  lemma ProductsSame(env: Env, a: Disk, b: Disk, out: Path, roster: set<string>, products: seq<Value>, passed: bool)
    requires CollisionFree(env, a, b)
    requires ProductsHold(env, a.tree, out, roster, products, passed)
    requires ProductsHold(env, b.tree, out, roster, products, passed)
    ensures SameProducts(a.tree, b.tree, out, products)
  {
    forall i | 0 <= i < |products|
      ensures SameRef(a.tree, b.tree, out, RefIn(products[i].fields[0].value))
    {
      assert ProductHolds(env, a.tree, out, roster, products[i]);
      assert ProductHolds(env, b.tree, out, roster, products[i]);
      RefSame(env, a, b, out, RefIn(products[i].fields[0].value));
    }
  }

  /** The files a domain observation retains: launcher, report, and both copies of both archives. */
  predicate SameObservation(a: Tree, b: Tree, out: Path, evidence: Ref, observed: Value) {
    && SameRef(a, b, out, Ref("launcher.json", evidence.sha256, evidence.bytes))
    && Get(observed, "report").Some? && SameRef(a, b, out, RefIn(Get(observed, "report").value))
    && Get(observed, "outputs").Some? && Get(observed, "outputs").value.Arr?
    && var outputs := Get(observed, "outputs").value.items;
       |outputs| == 2 && SameArchive(a, b, out, outputs[0]) && SameArchive(a, b, out, outputs[1])
  }

  predicate SameArchive(a: Tree, b: Tree, out: Path, v: Value) {
    && v.Obj? && |v.fields| == 4
    && SameRef(a, b, out, RefIn(v.fields[0].value)) && SameRef(a, b, out, RefIn(v.fields[3].value))
  }

  lemma ArchiveSame(env: Env, a: Disk, b: Disk, out: Path, id: string, target: string, target': string, v: Value)
    requires CollisionFree(env, a, b)
    requires DomainOutputHolds(env, a.tree, out, id, target, v) && DomainOutputHolds(env, b.tree, out, id, target', v)
    ensures SameArchive(a.tree, b.tree, out, v)
  {
    RefSame(env, a, b, out, RefIn(v.fields[0].value));
    RefSame(env, a, b, out, RefIn(v.fields[3].value));
  }

  lemma ObservationSame(env: Env, a: Disk, b: Disk, identity: Identity, begin: Row, receipt: Value, evidence: Ref,
                        observed: Value)
    requires CollisionFree(env, a, b) && begin.BeginRow?
    requires DomainHolds(env, a.tree, identity, begin, receipt, evidence, observed)
    requires DomainHolds(env, b.tree, identity, begin, receipt, evidence, observed)
    ensures SameObservation(a.tree, b.tree, OutputParts(begin), evidence, observed)
  {
    var out := OutputParts(begin);
    RefSame(env, a, b, out, Ref("launcher.json", evidence.sha256, evidence.bytes));
    RefSame(env, a, b, out, RefIn(Get(observed, "report").value));
    var outputs := Get(observed, "outputs").value.items;
    ArchiveSame(env, a, b, out, "package", identity.target, identity.target, outputs[0]);
    ArchiveSame(env, a, b, out, "source", identity.target, identity.target, outputs[1]);
  }

  function EvidenceOf(receipt: Value): Ref {
    if Get(receipt, "evidence").Some? then RefIn(Get(receipt, "evidence").value) else Ref("", "", 0)
  }

  /** Outcome record and every file it, or the domain observation, retains. */
  predicate SameRecords(env: Env, a: Tree, b: Tree, begin: Row, receipt: Value)
    requires begin.BeginRow?
  {
    var evidence, out := EvidenceOf(receipt), OutputParts(begin);
    && SameRef(a, b, [], evidence)
    && JsonRef(env, a, [], evidence).Some?
    && begin.kind in env.kinds
    && if env.kinds[begin.kind].roster.Some?
       then
         var products := Get(JsonRef(env, a, [], evidence).value, "products");
         products.Some? && products.value.Arr? && SameProducts(a, b, out, products.value.items)
       else Passed(receipt) ==>
         && Get(receipt, "domain_observation").Some?
         && var r := RefIn(Get(receipt, "domain_observation").value);
            SameRef(a, b, [], r) && JsonRef(env, a, [], r).Some?
            && SameObservation(a, b, out, evidence, JsonRef(env, a, [], r).value)
  }

  lemma ReceiptSame(env: Env, a: Disk, b: Disk, identity: Identity, begin: Row, receipt: Value)
    requires CollisionFree(env, a, b) && begin.BeginRow?
    requires ReceiptHolds(env, a.tree, identity, begin, receipt)
    requires ReceiptHolds(env, b.tree, identity, begin, receipt)
    ensures SameRecords(env, a.tree, b.tree, begin, receipt)
  {
    var evidence := EvidenceOf(receipt);
    RefSame(env, a, b, [], evidence);
    OutcomeSame(env, a, b, identity, begin, receipt, evidence, JsonRef(env, a.tree, [], evidence).value);
  }

  lemma OutcomeSame(env: Env, a: Disk, b: Disk, identity: Identity, begin: Row, receipt: Value, evidence: Ref,
                    outcome: Value)
    requires CollisionFree(env, a, b) && begin.BeginRow? && evidence == EvidenceOf(receipt)
    requires SameRef(a.tree, b.tree, [], evidence) && JsonRef(env, a.tree, [], evidence) == Some(outcome)
    requires OutcomeHolds(env, a.tree, identity, begin, receipt, evidence, outcome)
    requires OutcomeHolds(env, b.tree, identity, begin, receipt, evidence, outcome)
    ensures SameRecords(env, a.tree, b.tree, begin, receipt)
  {
    match env.kinds[begin.kind].roster
    case Some(roster) =>
      ProductsSame(env, a, b, OutputParts(begin), roster, Get(outcome, "products").value.items, Passed(receipt));
    case None =>
      if Passed(receipt) {
        var r := RefIn(Get(receipt, "domain_observation").value);
        RefSame(env, a, b, [], r);
        ObservationSame(env, a, b, identity, begin, receipt, evidence, JsonRef(env, a.tree, [], r).value);
      }
  }

  // --------------------------------------------------------------- the anchor

  /** A finished attempt was read back: its receipt is there and holds. */
  ghost predicate ReadBack(env: Env, disk: Disk, identity: Identity, id: string, entry: Entry) {
    && entry.begin.BeginRow? && entry.terminal.Some? && entry.terminal.value.TerminalRow?
    && var r := entry.terminal.value.receipt;
       && ReceiptRef(env, disk.slots, id, r).Some?
       && ReceiptHolds(env, disk.tree, identity, entry.begin, ReceiptRef(env, disk.slots, id, r).value)
  }

  ghost predicate AllReadBack(env: Env, disk: Disk, st: Progress) {
    forall id :: id in st.entries && st.entries[id].terminal.Some? ==>
      st.identity.Some? && ReadBack(env, disk, st.identity.value, id, st.entries[id])
  }

  lemma ApplyReadsBack(env: Env, disk: Disk, st: Progress, row: Row, digest: string)
    requires ApplyRow(env, disk, st, row, digest).Some? && AllReadBack(env, disk, st)
    requires st.identity.Some? <==> st.sequence > 0
    ensures var next := ApplyRow(env, disk, st, row, digest).value;
            AllReadBack(env, disk, next) && next.identity.Some? && next.sequence > 0
  {
    var next := ApplyRow(env, disk, st, row, digest).value;
    forall id | id in next.entries && next.entries[id].terminal.Some?
      ensures next.identity.Some? && ReadBack(env, disk, next.identity.value, id, next.entries[id])
    {
      if row.TerminalRow? && id == row.id {
        assert next.entries[id].terminal == Some(row);
      } else {
        assert id in st.entries && next.entries[id] == st.entries[id];
      }
    }
  }

  lemma {:induction false} ReplayReadsBack(env: Env, disk: Disk, data: Bytes, st: Progress)
    requires ReplayData(env, disk, data, st).Some? && AllReadBack(env, disk, st)
    requires st.identity.Some? <==> st.sequence > 0
    ensures AllReadBack(env, disk, ReplayData(env, disk, data, st).value)
    decreases |data|
  {
    if data != [] {
      var line := FirstLine(data);
      ApplyReadsBack(env, disk, st, DecodeRow(line).value, env.hash(line));
      ReplayReadsBack(env, disk, AfterLine(data), Apply(env, disk, st, line).value);
    }
  }

  /** Two accepted journals with the same head hold the same rows byte for byte; every finished
      attempt has the same receipt bytes, the same outcome record, and the same retained files. */
  lemma HeadDetermines(env: Env, a: Disk, b: Disk)
    requires Open(env, a).Some? && Open(env, b).Some?
    requires Open(env, a).value.sequence == Open(env, b).value.sequence
    requires Open(env, a).value.sha256 == Open(env, b).value.sha256
    requires CollisionFree(env, a, b)
    ensures IndexData(a) == IndexData(b)
    ensures Open(env, a) == Open(env, b)
    ensures forall id :: id in Open(env, a).value.entries && Open(env, a).value.entries[id].terminal.Some? ==>
              SameAttempt(env, a, b, id, Open(env, a).value.entries[id])
  {
    OpenProgress(env, a);
    OpenProgress(env, b);
    ChainDetermines(env, a, b, IndexData(a), IndexData(b));
    SameRowsSameJournal(env, a, b);
    ReplayReadsBack(env, a, IndexData(a), START);
    ReplayReadsBack(env, b, IndexData(b), START);
    var j := Open(env, a).value;
    forall id | id in j.entries && j.entries[id].terminal.Some?
      ensures SameAttempt(env, a, b, id, j.entries[id])
    {
      AttemptSame(env, a, b, j.identity, id, j.entries[id]);
    }
  }

  predicate SameAttempt(env: Env, a: Disk, b: Disk, id: string, entry: Entry) {
    && Receipt(id) in a.slots && Receipt(id) in b.slots
    && a.slots[Receipt(id)].File? && a.slots[Receipt(id)] == b.slots[Receipt(id)]
    && entry.begin.BeginRow? && env.loads(a.slots[Receipt(id)].data).Some?
    && SameRecords(env, a.tree, b.tree, entry.begin, env.loads(a.slots[Receipt(id)].data).value)
  }

  lemma AttemptSame(env: Env, a: Disk, b: Disk, identity: Identity, id: string, entry: Entry)
    requires CollisionFree(env, a, b)
    requires ReadBack(env, a, identity, id, entry) && ReadBack(env, b, identity, id, entry)
    ensures SameAttempt(env, a, b, id, entry)
  {
    assert Hashed(a, a.slots[Receipt(id)].data) && Hashed(b, b.slots[Receipt(id)].data);
    ReceiptSame(env, a, b, identity, entry.begin, env.loads(a.slots[Receipt(id)].data).value);
  }
}
