/** The native attempt journal of scripts/attempt_index.py: an append-only, hash-chained
    file `attempts/index.jsonl` beside one directory for each admitted attempt. */
module AttemptIndex {
  import opened Basics
  import opened Json
  import opened Text
  import opened AttemptRows

  // ------------------------------------------------------------- custody disk

  /** Components of a path beneath the custody root. */
  type Path = seq<string>

  /** `Other` is a symlink or a special file. */
  datatype Node = File(data: Bytes) | Dir | Other

  type Tree = map<Path, Node>

  /** Places inside `attempts/`: `index.jsonl`, `<name>` for any other name,
      `<name>/attempt.json`, and `<name>/<leaf>` for any other leaf. */
  datatype Slot = Index | Attempt(name: string) | Receipt(name: string) | Stray(name: string, leaf: string)

  type Slots = map<Slot, Node>

  /** The custody root: the node `attempts`, what it holds, and every other path. */
  datatype Disk = Disk(attempts: Option<Node>, slots: Slots, tree: Tree)

  const INDEX_NAME := "index.jsonl"

  predicate SafePart(part: string) {
    part != "" && part != "." && part != ".." && '\\' !in part
  }

  /** A relative path in normal form, as its components. */
  function Relative(text: string): Option<Path> {
    var parts := Split(text, '/');
    if forall i :: 0 <= i < |parts| ==> SafePart(parts[i]) then Some(parts) else None
  }

  /** A regular file reached through real directories only. */
  predicate OwnedFile(tree: Tree, p: Path) {
    && p in tree && tree[p].File?
    && forall k :: 0 < k < |p| ==> p[..k] in tree && tree[p[..k]].Dir?
  }

  // ----------------------------------------------------- what the code trusts

  datatype Kind = Kind(schema: string, roster: Option<set<string>>, targets: set<string>)

  /** What the journal takes from its surroundings: the digest, the JSON reader for records it
      did not write, the timestamp reader, the tables of kinds and targets, and the root's text. */
  datatype Env = Env(
    hash: Bytes -> string,
    loads: Bytes -> Option<Value>,
    time: string -> Option<int>,
    kinds: map<string, Kind>,
    targets: set<string>,
    root: string)

  // -------------------------------------------------------- names and outputs

  predicate NameChar(c: char) {
    'A' <= c <= 'Z' || 'a' <= c <= 'z' || '0' <= c <= '9' || c == '.' || c == '_' || c == '-'
  }

  predicate Name(id: string) {
    && 1 <= |id| <= 128
    && NameChar(id[0]) && id[0] !in "._-"
    && forall i :: 0 <= i < |id| ==> NameChar(id[i])
  }

  function ReceiptPath(id: string): string {
    "attempts/" + id + "/attempt.json"
  }

  /** Neither path lies inside the other. */
  predicate Apart(a: Path, b: Path) {
    !(a <= b) && !(b <= a)
  }

  function OutputParts(begin: Row): Path
    requires begin.BeginRow?
  {
    Split(begin.output, '/')
  }

  // ---------------------------------------------------------------- journals

  /** One attempt: its admission and, once finished, its terminal row. */
  datatype Entry = Entry(begin: Row, terminal: Option<Row>)

  type Entries = map<string, Entry>

  datatype Journal = Journal(identity: Identity, entries: Entries, sequence: nat, sha256: string)

  predicate ValidIdentity(env: Env, identity: Identity) {
    Name(identity.journal) && Name(identity.host) && identity.target in env.targets
  }

  predicate Admissible(env: Env, identity: Identity, entries: Entries, row: Row)
    requires row.BeginRow?
  {
    && Relative(row.output).Some?
    && row.kind in env.kinds && identity.target in env.kinds[row.kind].targets
    && OutputParts(row)[0] != "attempts"
    && (forall id :: id in entries && entries[id].begin.BeginRow? ==>
          Apart(OutputParts(row), OutputParts(entries[id].begin)))
    && row.id !in entries
    && env.time(row.started).Some?
  }

  // ------------------------------------------------------- terminal contracts

  /** The referenced file, below `at`, has exactly the recorded bytes. */
  predicate RefHolds(env: Env, tree: Tree, at: Path, r: Ref) {
    && Relative(r.path).Some?
    && var p := at + Relative(r.path).value;
       OwnedFile(tree, p) && env.hash(tree[p].data) == r.sha256 && |tree[p].data| == r.bytes
  }

  predicate ValueRefHolds(env: Env, tree: Tree, at: Path, v: Value) {
    RefOf(v).Some? && RefHolds(env, tree, at, RefOf(v).value)
  }

  function RefData(tree: Tree, at: Path, r: Ref): Bytes {
    if Relative(r.path).Some? && at + Relative(r.path).value in tree && tree[at + Relative(r.path).value].File?
    then tree[at + Relative(r.path).value].data
    else []
  }

  /** The record in a referenced file no larger than the JSON limit. */
  function JsonRef(env: Env, tree: Tree, at: Path, r: Ref): Option<Value> {
    if RefHolds(env, tree, at, r) && r.bytes <= MAX_JSON_BYTES then env.loads(RefData(tree, at, r)) else None
  }

  /** Exactly these members, given in sorted order. */
  predicate Exact(v: Value, keys: seq<string>) {
    v.Obj? && |v.fields| == |keys| && forall i :: 0 <= i < |keys| ==> v.fields[i].key == keys[i]
  }

  predicate Has(v: Value, key: string, s: string) {
    Get(v, key) == Some(Str(s))
  }

  function MemberText(v: Value, key: string): string {
    match Get(v, key)
    case Some(Str(s)) => s
    case _ => ""
  }

  predicate ProductHolds(env: Env, tree: Tree, out: Path, roster: set<string>, v: Value) {
    && Exact(v, ["file", "id"])
    && v.fields[1].value.Str? && v.fields[1].value.s in roster
    && ValueRefHolds(env, tree, out, v.fields[0].value)
  }

  function ProductId(v: Value): string {
    if v.Obj? && |v.fields| == 2 && v.fields[1].value.Str? then v.fields[1].value.s else ""
  }

  function ProductPath(v: Value): string {
    if v.Obj? && |v.fields| == 2 && RefOf(v.fields[0].value).Some? then RefOf(v.fields[0].value).value.path else ""
  }

  predicate ProductsHold(env: Env, tree: Tree, out: Path, roster: set<string>, products: seq<Value>, passed: bool) {
    && (forall i :: 0 <= i < |products| ==> ProductHolds(env, tree, out, roster, products[i]))
    && (forall i, j :: 0 <= i < j < |products| ==> ProductPath(products[i]) != ProductPath(products[j]))
    && (forall i :: 0 <= i < |products| - 1 ==> Less(ProductId(products[i]), ProductId(products[i + 1])))
    && (passed ==> forall id :: id in roster ==> exists i :: 0 <= i < |products| && ProductId(products[i]) == id)
  }

  /** `str(root / output)`. */
  function Located(env: Env, begin: Row): string
    requires begin.BeginRow?
  {
    env.root + "/" + begin.output
  }

  const DOMAIN_SCHEMA := "kasumi-owned-repeatable-assembly-domain-observation-v1"

  const OBSERVATION_KEYS := ["attempt_id", "custody_root", "finished_at", "launcher", "outputs", "report",
                             "schema", "started_at", "status", "target"]

  predicate OutputName(id: string, name: string, target: string) {
    && '/' !in name && '\\' !in name && Prefix("kasumi-", name)
    && Suffix(if id == "source" then "-source.tar.gz" else "-" + target + ".tar.gz", name)
  }

  /** One archive built twice: two files of equal bytes under the two assemblies. */
  predicate DomainOutputHolds(env: Env, tree: Tree, out: Path, id: string, target: string, v: Value) {
    && Exact(v, ["first", "id", "name", "second"])
    && v.fields[1].value == Str(id) && v.fields[2].value.Str?
    && var name := v.fields[2].value.s;
       && OutputName(id, name, target)
       && ValueRefHolds(env, tree, out, v.fields[0].value)
       && ValueRefHolds(env, tree, out, v.fields[3].value)
       && var a, b := RefOf(v.fields[0].value).value, RefOf(v.fields[3].value).value;
          && a.path == "assembly/assembly-a-output/" + name
          && b.path == "assembly/assembly-b-output/" + name
          && a.sha256 == b.sha256 && a.bytes == b.bytes
  }

  /** The observation's launcher, report and archives, each a file below the output. */
  predicate DomainFiles(env: Env, tree: Tree, out: Path, target: string, evidence: Ref, launcher: Value, report: Value,
                        outputs: Value)
  {
    && launcher == RefValue(Ref("launcher.json", evidence.sha256, evidence.bytes))
    && RefHolds(env, tree, out, Ref("launcher.json", evidence.sha256, evidence.bytes))
    && ValueRefHolds(env, tree, out, report) && RefOf(report).value.path == "assembly/attempt.json"
    && outputs.Arr? && |outputs.items| == 2
    && DomainOutputHolds(env, tree, out, "package", target, outputs.items[0])
    && DomainOutputHolds(env, tree, out, "source", target, outputs.items[1])
  }

  /** The observation names this attempt and this receipt's times. */
  predicate DomainNamed(env: Env, identity: Identity, begin: Row, receipt: Value, observed: Value)
    requires begin.BeginRow?
  {
    && Has(observed, "schema", DOMAIN_SCHEMA) && Has(observed, "status", "unqualified")
    && Has(observed, "attempt_id", begin.id) && Has(observed, "custody_root", Located(env, begin))
    && Get(observed, "started_at") == Get(receipt, "started_at")
    && Get(observed, "finished_at") == Get(receipt, "finished_at")
    && Has(observed, "target", identity.target)
  }

  predicate DomainHolds(env: Env, tree: Tree, identity: Identity, begin: Row, receipt: Value, evidence: Ref,
                        observed: Value)
    requires begin.BeginRow?
  {
    && Exact(observed, OBSERVATION_KEYS) && DomainNamed(env, identity, begin, receipt, observed)
    && Get(observed, "launcher").Some? && Get(observed, "report").Some? && Get(observed, "outputs").Some?
    && DomainFiles(env, tree, OutputParts(begin), identity.target, evidence, Get(observed, "launcher").value,
                   Get(observed, "report").value, Get(observed, "outputs").value)
  }

  /** The outcome record names this attempt, this receipt's status and its times. */
  predicate OutcomeNamed(env: Env, begin: Row, receipt: Value, outcome: Value)
    requires begin.BeginRow?
  {
    && begin.kind in env.kinds
    && Has(outcome, "schema", env.kinds[begin.kind].schema) && Has(outcome, "custody_root", Located(env, begin))
    && Has(outcome, "attempt_id", begin.id)
    && Get(outcome, "status") == Get(receipt, "status")
    && Get(outcome, "started_at") == Get(receipt, "started_at")
    && Get(outcome, "finished_at") == Get(receipt, "finished_at")
  }

  predicate Passed(receipt: Value) {
    Has(receipt, "status", "passed")
  }

  /** Every kind with a product roster retains it by exact bytes. */
  predicate RosterHolds(env: Env, tree: Tree, identity: Identity, begin: Row, receipt: Value, outcome: Value,
                        roster: set<string>)
    requires begin.BeginRow?
  {
    && Get(receipt, "domain_observation") == Some(Null)
    && Has(outcome, "target", identity.target)
    && Get(outcome, "products").Some? && Get(outcome, "products").value.Arr?
    && ProductsHold(env, tree, OutputParts(begin), roster, Get(outcome, "products").value.items, Passed(receipt))
  }

  /** The repeatable assembly retains its products through its domain observation. */
  predicate ObservationHolds(env: Env, tree: Tree, identity: Identity, begin: Row, receipt: Value, evidence: Ref)
    requires begin.BeginRow?
  {
    var observed := Get(receipt, "domain_observation");
    if !Passed(receipt) then observed == Some(Null)
    else
      && observed.Some? && RefOf(observed.value).Some?
      && Observes(env, tree, identity, begin, receipt, evidence, RefOf(observed.value).value)
  }

  predicate Observes(env: Env, tree: Tree, identity: Identity, begin: Row, receipt: Value, evidence: Ref, r: Ref)
    requires begin.BeginRow?
  {
    && r.path == begin.output + "/" + "domain-observation.json" && JsonRef(env, tree, [], r).Some?
    && DomainHolds(env, tree, identity, begin, receipt, evidence, JsonRef(env, tree, [], r).value)
  }

  predicate OutcomeHolds(env: Env, tree: Tree, identity: Identity, begin: Row, receipt: Value, evidence: Ref,
                         outcome: Value)
    requires begin.BeginRow?
  {
    && OutcomeNamed(env, begin, receipt, outcome)
    && match env.kinds[begin.kind].roster
       case Some(roster) => RosterHolds(env, tree, identity, begin, receipt, outcome, roster)
       case None => ObservationHolds(env, tree, identity, begin, receipt, evidence)
  }

  const ACCEPTANCE_SCHEMA := "kasumi-release-acceptance-v1"

  const RECEIPT_KEYS := ["domain_observation", "evidence", "finished_at", "id", "processes", "schema",
                         "started_at", "status"]

  /** The receipt's own members against the admission: finished no earlier than it started. */
  predicate ReceiptNamed(env: Env, begin: Row, receipt: Value)
    requires begin.BeginRow?
  {
    && Exact(receipt, RECEIPT_KEYS)
    && Has(receipt, "schema", ACCEPTANCE_SCHEMA) && Has(receipt, "id", begin.id)
    && MemberText(receipt, "status") in {"passed", "failed", "interrupted"}
    && Has(receipt, "started_at", begin.started)
    && Get(receipt, "processes").Some? && Get(receipt, "processes").value.Arr?
    && env.time(begin.started).Some? && env.time(MemberText(receipt, "finished_at")).Some?
    && Get(receipt, "finished_at") == Some(Str(MemberText(receipt, "finished_at")))
    && env.time(MemberText(receipt, "finished_at")).value >= env.time(begin.started).value
  }

  /** The outcome record below the output that the receipt selects. */
  predicate EvidenceHolds(env: Env, tree: Tree, identity: Identity, begin: Row, receipt: Value, evidence: Ref)
    requires begin.BeginRow?
  {
    && Relative(evidence.path).Some? && OutputParts(begin) <= Relative(evidence.path).value
    && JsonRef(env, tree, [], evidence).Some?
    && OutcomeHolds(env, tree, identity, begin, receipt, evidence, JsonRef(env, tree, [], evidence).value)
  }

  predicate ReceiptHolds(env: Env, tree: Tree, identity: Identity, begin: Row, receipt: Value)
    requires begin.BeginRow?
  {
    && ReceiptNamed(env, begin, receipt)
    && Get(receipt, "evidence").Some? && RefOf(Get(receipt, "evidence").value).Some?
    && EvidenceHolds(env, tree, identity, begin, receipt, RefOf(Get(receipt, "evidence").value).value)
  }

  /** The record a terminal row names: the receipt in the attempt's own directory. */
  function ReceiptRef(env: Env, slots: Slots, id: string, r: Ref): Option<Value> {
    if && Attempt(id) in slots && slots[Attempt(id)].Dir?
       && Receipt(id) in slots && slots[Receipt(id)].File?
       && env.hash(slots[Receipt(id)].data) == r.sha256 && |slots[Receipt(id)].data| == r.bytes
       && r.bytes <= MAX_JSON_BYTES
    then env.loads(slots[Receipt(id)].data)
    else None
  }

  // ------------------------------------------------------------------- replay

  datatype Progress = Progress(identity: Option<Identity>, entries: Entries, sequence: nat, previous: string)

  const START: Progress := Progress(None, map[], 0, Zeros(64))

  function Apply(env: Env, disk: Disk, st: Progress, line: Bytes): (r: Option<Progress>) {
    var row :- DecodeRow(line);
    ApplyRow(env, disk, st, row, env.hash(line))
  }

  /** The contract of one row against the rows before it. */
  function ApplyRow(env: Env, disk: Disk, st: Progress, row: Row, digest: string): (r: Option<Progress>) {
    if row.sequence != st.sequence + 1 || row.previous != st.previous then None
    else
      var entries :- NextEntries(env, disk, st, row);
      Some(Progress(if row.IdentityRow? then Some(row.identity) else st.identity,
                    entries, st.sequence + 1, digest))
  }

  function NextEntries(env: Env, disk: Disk, st: Progress, row: Row): (r: Option<Entries>) {
    match row
    case IdentityRow(_, _, identity) =>
      if st.sequence == 0 && ValidIdentity(env, identity) then Some(st.entries) else None
    case BeginRow(_, _, id, _, _, _) =>
      if st.identity.Some? && Name(id) && Admissible(env, st.identity.value, st.entries, row)
      then Some(st.entries[id := Entry(row, None)])
      else None
    case TerminalRow(_, _, id, receipt) =>
      if && st.identity.Some? && Name(id)
         && id in st.entries && st.entries[id].terminal.None? && st.entries[id].begin.BeginRow?
         && receipt.path == ReceiptPath(id)
         && ReceiptRef(env, disk.slots, id, receipt).Some?
         && ReceiptHolds(env, disk.tree, st.identity.value, st.entries[id].begin,
                         ReceiptRef(env, disk.slots, id, receipt).value)
      then Some(st.entries[id := Entry(st.entries[id].begin, Some(row))])
      else None
  }

  /** Length of the next line: up to a newline, cut one byte past the row limit. */
  function LineLength(data: Bytes, from: nat): (n: nat)
    requires from <= |data| && from <= MAX_ROW_BYTES + 1
    ensures from <= n <= |data| && n <= MAX_ROW_BYTES + 1
    ensures forall i :: from <= i < n - 1 ==> data[i] != '\n'
    ensures n > from && data[n - 1] != '\n' ==> n == |data| || n == MAX_ROW_BYTES + 1
    ensures from < |data| && from < MAX_ROW_BYTES + 1 ==> from < n
    decreases |data| - from
  {
    if from == |data| || from == MAX_ROW_BYTES + 1 then from
    else if data[from] == '\n' then from + 1
    else LineLength(data, from + 1)
  }

  function FirstLine(data: Bytes): Bytes {
    data[..LineLength(data, 0)]
  }

  function AfterLine(data: Bytes): (rest: Bytes)
    ensures data != [] ==> |rest| < |data|
  {
    data[LineLength(data, 0)..]
  }

  function ReplayData(env: Env, disk: Disk, data: Bytes, st: Progress): (r: Option<Progress>)
    decreases |data|
  {
    if data == [] then Some(st)
    else
      var next :- Apply(env, disk, st, FirstLine(data));
      ReplayData(env, disk, AfterLine(data), next)
  }

  /** What the census allows at one place. */
  predicate SlotHolds(slot: Slot, node: Node, entries: Entries) {
    match slot
    case Index => node.File?
    case Attempt(name) => Name(name) && node.Dir? && name in entries
    case Receipt(name) => name in entries ==> node.File? && entries[name].terminal.Some?
    case Stray(name, _) => name !in entries
  }

  /** The namespace holds the index, one directory for each admission, and a receipt in exactly
      the finished ones. */
  predicate Census(slots: Slots, entries: Entries) {
    && (forall slot :: slot in slots ==> SlotHolds(slot, slots[slot], entries))
    && (forall id :: id in entries ==> Attempt(id) in slots)
    && (forall id :: id in entries && entries[id].terminal.Some? ==> Receipt(id) in slots)
  }

  predicate Indexed(disk: Disk) {
    disk.attempts == Some(Dir) && Index in disk.slots && disk.slots[Index].File?
  }

  function IndexData(disk: Disk): Bytes
    requires Indexed(disk)
  {
    disk.slots[Index].data
  }

  /** `locked_index`: the journal every operation starts from, or a rejection. */
  function Open(env: Env, disk: Disk): (r: Option<Journal>) {
    if !Indexed(disk) then None
    else
      match ReplayData(env, disk, IndexData(disk), START)
      case None => None
      case Some(st) =>
        if st.identity.Some? && Census(disk.slots, st.entries)
        then Some(Journal(st.identity.value, st.entries, st.sequence, st.previous))
        else None
  }
}
