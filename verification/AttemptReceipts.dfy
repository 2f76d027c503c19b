/** What `finish` and replay accept of a receipt, told from its members and the files of the tree. */
module AttemptReceipts {
  import opened Basics
  import opened Json
  import opened Text
  import opened AttemptRows
  import opened AttemptIndex
  import opened AttemptLengths

  // ---------------------------------------------------------- retained files

  /** The parts of a relative path in normal form. */
  predicate Clean(parts: Path) {
    forall i :: 0 <= i < |parts| ==>
      parts[i] != "" && parts[i] != "." && parts[i] != ".." && '\\' !in parts[i]
  }

  /** A regular file below `at`, reached through directories. */
  predicate Stored(tree: Tree, at: Path, path: string, data: Bytes) {
    var p := at + Split(path, '/');
    && Clean(Split(path, '/')) && p in tree && tree[p] == File(data)
    && forall k :: 0 < k < |p| ==> p[..k] in tree && tree[p[..k]] == Dir
  }

  /** The reference of these bytes under a path, as records hold it. */
  function Reference(env: Env, path: string, data: Bytes): Value {
    Obj([Field("bytes", Num(|data|)), Field("path", Str(path)), Field("sha256", Str(env.hash(data)))])
  }

  lemma RefExactly(env: Env, tree: Tree, at: Path, v: Value)
    ensures ValueRefHolds(env, tree, at, v) <==>
              exists path, data :: Stored(tree, at, path, data) && v == Reference(env, path, data)
  {
    if ValueRefHolds(env, tree, at, v) {
      var r := RefOf(v).value;
      var data := tree[at + Split(r.path, '/')].data;
      assert v.fields == Reference(env, r.path, data).fields;
      assert Stored(tree, at, r.path, data) && v == Reference(env, r.path, data);
    }
    if path, data :| Stored(tree, at, path, data) && v == Reference(env, path, data) {
      ReferenceHolds(env, tree, at, path, data);
    }
  }

  lemma ReferenceHolds(env: Env, tree: Tree, at: Path, path: string, data: Bytes)
    requires Stored(tree, at, path, data)
    ensures RefOf(Reference(env, path, data)) == Some(Ref(path, env.hash(data), |data|))
    ensures RefHolds(env, tree, at, Ref(path, env.hash(data), |data|))
    ensures RefData(tree, at, Ref(path, env.hash(data), |data|)) == data
    ensures ValueRefHolds(env, tree, at, Reference(env, path, data))
  {
  }

  // ------------------------------------------------------------------ members

  predicate DistinctKeys(keys: seq<string>) {
    forall i, j :: 0 <= i < j < |keys| ==> keys[i] != keys[j]
  }

  lemma ExactGets(v: Value, keys: seq<string>, i: nat)
    requires Exact(v, keys) && DistinctKeys(keys) && i < |keys|
    ensures Get(v, keys[i]) == Some(v.fields[i].value)
  {
    FindFirst(v.fields, i);
  }

  lemma ReceiptKeys()
    ensures DistinctKeys(RECEIPT_KEYS)
  {
  }

  lemma ReceiptGets(v: Value)
    requires Exact(v, RECEIPT_KEYS)
    ensures Get(v, "domain_observation") == Some(v.fields[0].value) && Get(v, "evidence") == Some(v.fields[1].value)
    ensures Get(v, "finished_at") == Some(v.fields[2].value) && Get(v, "id") == Some(v.fields[3].value)
    ensures Get(v, "processes") == Some(v.fields[4].value) && Get(v, "schema") == Some(v.fields[5].value)
    ensures Get(v, "started_at") == Some(v.fields[6].value) && Get(v, "status") == Some(v.fields[7].value)
  {
    ReceiptKeys();
    forall i | 0 <= i < 8
      ensures Get(v, RECEIPT_KEYS[i]) == Some(v.fields[i].value)
    {
      ExactGets(v, RECEIPT_KEYS, i);
    }
    assert RECEIPT_KEYS[0] == "domain_observation" && RECEIPT_KEYS[1] == "evidence";
    assert RECEIPT_KEYS[2] == "finished_at" && RECEIPT_KEYS[3] == "id" && RECEIPT_KEYS[4] == "processes";
    assert RECEIPT_KEYS[5] == "schema" && RECEIPT_KEYS[6] == "started_at" && RECEIPT_KEYS[7] == "status";
  }

  // ----------------------------------------------------------------- products

  datatype Product = Product(id: string, path: string, data: Bytes)

  function ProductValue(env: Env, p: Product): Value {
    Obj([Field("file", Reference(env, p.path, p.data)), Field("id", Str(p.id))])
  }

  function ProductValues(env: Env, products: seq<Product>): (r: seq<Value>)
    ensures |r| == |products| && forall i :: 0 <= i < |products| ==> r[i] == ProductValue(env, products[i])
  {
    seq(|products|, i requires 0 <= i < |products| => ProductValue(env, products[i]))
  }

  /** Products of the roster with files of their own below the output, in the order of their ids and
      each id once; all of the roster when passed. */
  predicate Produced(tree: Tree, out: Path, roster: set<string>, products: seq<Product>, passed: bool) {
    && (forall i :: 0 <= i < |products| ==>
          products[i].id in roster && Stored(tree, out, products[i].path, products[i].data))
    && (forall i, j :: 0 <= i < j < |products| ==>
          products[i].path != products[j].path && Less(products[i].id, products[j].id))
    && (passed ==> forall id :: id in roster ==> exists i :: 0 <= i < |products| && products[i].id == id)
  }

  lemma {:induction false} LessTransitive(a: string, b: string, c: string)
    requires Less(a, b) && Less(b, c)
    ensures Less(a, c)
  {
    if a != [] && a[0] == b[0] && b[0] == c[0] {
      LessTransitive(a[1..], b[1..], c[1..]);
    }
  }

  lemma {:induction false} InOrder(ids: seq<string>, i: nat, j: nat)
    requires i < j < |ids| && forall k :: 0 <= k < |ids| - 1 ==> Less(ids[k], ids[k + 1])
    ensures Less(ids[i], ids[j])
    decreases j - i
  {
    if i + 1 < j {
      InOrder(ids, i, j - 1);
      LessTransitive(ids[i], ids[j - 1], ids[j]);
    }
  }

  function Ids(products: seq<Product>): (r: seq<string>)
    ensures |r| == |products| && forall i :: 0 <= i < |products| ==> r[i] == products[i].id
  {
    seq(|products|, i requires 0 <= i < |products| => products[i].id)
  }

  lemma ProducedHolds(env: Env, tree: Tree, out: Path, roster: set<string>, products: seq<Product>, passed: bool)
    requires Produced(tree, out, roster, products, passed)
    ensures ProductsHold(env, tree, out, roster, ProductValues(env, products), passed)
  {
    var items := ProductValues(env, products);
    forall i | 0 <= i < |products|
      ensures ProductHolds(env, tree, out, roster, items[i])
      ensures ProductId(items[i]) == products[i].id && ProductPath(items[i]) == products[i].path
    {
      ReferenceHolds(env, tree, out, products[i].path, products[i].data);
    }
    if passed {
      forall id | id in roster
        ensures exists i :: 0 <= i < |items| && ProductId(items[i]) == id
      {
        var i :| 0 <= i < |products| && products[i].id == id;
        assert ProductId(items[i]) == id;
      }
    }
  }

  function ProductOf(tree: Tree, out: Path, v: Value): Product {
    var path := ProductPath(v);
    var p := out + Split(path, '/');
    Product(ProductId(v), path, if p in tree && tree[p].File? then tree[p].data else [])
  }

  lemma ProductBack(env: Env, tree: Tree, out: Path, roster: set<string>, v: Value)
    requires ProductHolds(env, tree, out, roster, v)
    ensures var p := ProductOf(tree, out, v);
            p.id in roster && Stored(tree, out, p.path, p.data) && v == ProductValue(env, p)
  {
    var p := ProductOf(tree, out, v);
    RefExactly(env, tree, out, v.fields[0].value);
    var path, data :| Stored(tree, out, path, data) && v.fields[0].value == Reference(env, path, data);
    ReferenceHolds(env, tree, out, path, data);
    assert v.fields == ProductValue(env, p).fields;
  }

  lemma HeldProduced(env: Env, tree: Tree, out: Path, roster: set<string>, items: seq<Value>, passed: bool)
      returns (products: seq<Product>)
    requires ProductsHold(env, tree, out, roster, items, passed)
    ensures Produced(tree, out, roster, products, passed) && items == ProductValues(env, products)
  {
    products := seq(|items|, i requires 0 <= i < |items| => ProductOf(tree, out, items[i]));
    forall i | 0 <= i < |items|
      ensures products[i].id in roster && Stored(tree, out, products[i].path, products[i].data)
      ensures items[i] == ProductValue(env, products[i])
      ensures products[i].id == ProductId(items[i]) && products[i].path == ProductPath(items[i])
    {
      ProductBack(env, tree, out, roster, items[i]);
    }
    forall i, j | 0 <= i < j < |products|
      ensures products[i].path != products[j].path && Less(products[i].id, products[j].id)
    {
      InOrder(Ids(products), i, j);
    }
    if passed {
      forall id | id in roster
        ensures exists i :: 0 <= i < |products| && products[i].id == id
      {
        var i :| 0 <= i < |items| && ProductId(items[i]) == id;
        assert products[i].id == id;
      }
    }
  }

  // --------------------------------------------------------- domain observation

  /** One archive and the two files it was built into. */
  datatype Built = Built(name: string, first: Bytes, second: Bytes)

  datatype Observation = Observation(launcher: Bytes, report: Bytes, package: Built, source: Built)

  function BuiltValue(env: Env, id: string, a: Built): Value {
    Obj([Field("first", Reference(env, "assembly/assembly-a-output/" + a.name, a.first)), Field("id", Str(id)),
         Field("name", Str(a.name)),
         Field("second", Reference(env, "assembly/assembly-b-output/" + a.name, a.second))])
  }

  predicate BuiltTwice(env: Env, tree: Tree, out: Path, a: Built, ending: string) {
    && '/' !in a.name && '\\' !in a.name && "kasumi-" <= a.name
    && |ending| <= |a.name| && a.name[|a.name| - |ending|..] == ending
    && Stored(tree, out, "assembly/assembly-a-output/" + a.name, a.first)
    && Stored(tree, out, "assembly/assembly-b-output/" + a.name, a.second)
    && env.hash(a.first) == env.hash(a.second) && |a.first| == |a.second|
  }

  function ObservationValue(env: Env, identity: Identity, begin: Row, finished: string, o: Observation): Value
    requires begin.BeginRow?
  {
    Obj([Field("attempt_id", Str(begin.id)), Field("custody_root", Str(env.root + "/" + begin.output)),
         Field("finished_at", Str(finished)), Field("launcher", Reference(env, "launcher.json", o.launcher)),
         Field("outputs", Arr([BuiltValue(env, "package", o.package), BuiltValue(env, "source", o.source)])),
         Field("report", Reference(env, "assembly/attempt.json", o.report)),
         Field("schema", Str("kasumi-owned-repeatable-assembly-domain-observation-v1")),
         Field("started_at", Str(begin.started)), Field("status", Str("unqualified")),
         Field("target", Str(identity.target))])
  }

  /** The launcher's record is the evidence, byte for byte as far as a digest tells, and the report and
      both archives are retained. */
  predicate Observed(env: Env, tree: Tree, identity: Identity, out: Path, evidence: Bytes, o: Observation) {
    && Stored(tree, out, "launcher.json", o.launcher) && Stored(tree, out, "assembly/attempt.json", o.report)
    && env.hash(o.launcher) == env.hash(evidence) && |o.launcher| == |evidence|
    && BuiltTwice(env, tree, out, o.package, "-" + identity.target + ".tar.gz")
    && BuiltTwice(env, tree, out, o.source, "-source.tar.gz")
  }

  lemma BuiltHolds(env: Env, tree: Tree, out: Path, id: string, target: string, a: Built)
    requires BuiltTwice(env, tree, out, a, if id == "source" then "-source.tar.gz" else "-" + target + ".tar.gz")
    ensures DomainOutputHolds(env, tree, out, id, target, BuiltValue(env, id, a))
  {
    ReferenceHolds(env, tree, out, "assembly/assembly-a-output/" + a.name, a.first);
    ReferenceHolds(env, tree, out, "assembly/assembly-b-output/" + a.name, a.second);
  }

  lemma HeldBuilt(env: Env, tree: Tree, out: Path, id: string, target: string, v: Value) returns (a: Built)
    requires DomainOutputHolds(env, tree, out, id, target, v)
    ensures BuiltTwice(env, tree, out, a, if id == "source" then "-source.tar.gz" else "-" + target + ".tar.gz")
    ensures v == BuiltValue(env, id, a)
  {
    var name := v.fields[2].value.s;
    RefExactly(env, tree, out, v.fields[0].value);
    RefExactly(env, tree, out, v.fields[3].value);
    var p, first :| Stored(tree, out, p, first) && v.fields[0].value == Reference(env, p, first);
    var q, second :| Stored(tree, out, q, second) && v.fields[3].value == Reference(env, q, second);
    ReferenceHolds(env, tree, out, p, first);
    ReferenceHolds(env, tree, out, q, second);
    a := Built(name, first, second);
    assert v.fields == BuiltValue(env, id, a).fields;
  }

  lemma ObservationKeys()
    ensures DistinctKeys(OBSERVATION_KEYS)
  {
  }

  lemma ObservationGets(v: Value)
    requires Exact(v, OBSERVATION_KEYS)
    ensures Get(v, "attempt_id") == Some(v.fields[0].value) && Get(v, "custody_root") == Some(v.fields[1].value)
    ensures Get(v, "finished_at") == Some(v.fields[2].value) && Get(v, "launcher") == Some(v.fields[3].value)
    ensures Get(v, "outputs") == Some(v.fields[4].value) && Get(v, "report") == Some(v.fields[5].value)
    ensures Get(v, "schema") == Some(v.fields[6].value) && Get(v, "started_at") == Some(v.fields[7].value)
    ensures Get(v, "status") == Some(v.fields[8].value) && Get(v, "target") == Some(v.fields[9].value)
  {
    ObservationKeys();
    forall i | 0 <= i < 10
      ensures Get(v, OBSERVATION_KEYS[i]) == Some(v.fields[i].value)
    {
      ExactGets(v, OBSERVATION_KEYS, i);
    }
    var keys := OBSERVATION_KEYS;
    assert keys[0] == "attempt_id" && keys[1] == "custody_root" && keys[2] == "finished_at" && keys[3] == "launcher";
    assert keys[4] == "outputs" && keys[5] == "report" && keys[6] == "schema" && keys[7] == "started_at";
    assert keys[8] == "status" && keys[9] == "target";
  }

  /** The plain members of an observation. */
  predicate Labelled(env: Env, identity: Identity, begin: Row, finished: string, v: Value)
    requires begin.BeginRow? && Exact(v, OBSERVATION_KEYS)
  {
    var f := v.fields;
    && f[0].value == Str(begin.id) && f[1].value == Str(env.root + "/" + begin.output)
    && f[2].value == Str(finished) && f[6].value == Str(DOMAIN_SCHEMA) && f[7].value == Str(begin.started)
    && f[8].value == Str("unqualified") && f[9].value == Str(identity.target)
  }

  lemma NamedExactly(env: Env, identity: Identity, begin: Row, receipt: Value, finished: string, v: Value)
    requires begin.BeginRow? && Exact(v, OBSERVATION_KEYS)
    requires Get(receipt, "started_at") == Some(Str(begin.started))
    requires Get(receipt, "finished_at") == Some(Str(finished))
    ensures DomainNamed(env, identity, begin, receipt, v) <==> Labelled(env, identity, begin, finished, v)
  {
    ObservationGets(v);
  }

  lemma DomainExactly(env: Env, tree: Tree, identity: Identity, begin: Row, receipt: Value, finished: string,
                      evidence: Ref, v: Value)
    requires begin.BeginRow? && Exact(v, OBSERVATION_KEYS)
    requires Get(receipt, "started_at") == Some(Str(begin.started))
    requires Get(receipt, "finished_at") == Some(Str(finished))
    ensures DomainHolds(env, tree, identity, begin, receipt, evidence, v) <==>
              && Labelled(env, identity, begin, finished, v)
              && DomainFiles(env, tree, OutputParts(begin), identity.target, evidence, v.fields[3].value,
                             v.fields[5].value, v.fields[4].value)
  {
    NamedExactly(env, identity, begin, receipt, finished, v);
    ObservationGets(v);
  }

  function OutputsValue(env: Env, o: Observation): Value {
    Arr([BuiltValue(env, "package", o.package), BuiltValue(env, "source", o.source)])
  }

  lemma ObservedFiles(env: Env, tree: Tree, identity: Identity, out: Path, evidence: Ref, data: Bytes, o: Observation)
    requires Observed(env, tree, identity, out, data, o)
    requires evidence.sha256 == env.hash(data) && evidence.bytes == |data|
    ensures DomainFiles(env, tree, out, identity.target, evidence, Reference(env, "launcher.json", o.launcher),
                        Reference(env, "assembly/attempt.json", o.report), OutputsValue(env, o))
  {
    ReferenceHolds(env, tree, out, "launcher.json", o.launcher);
    ReferenceHolds(env, tree, out, "assembly/attempt.json", o.report);
    BuiltHolds(env, tree, out, "package", identity.target, o.package);
    BuiltHolds(env, tree, out, "source", identity.target, o.source);
    SameReference(env, "launcher.json", o.launcher, evidence);
    FilesTogether(env, tree, out, identity.target, evidence, Reference(env, "launcher.json", o.launcher),
                  Reference(env, "assembly/attempt.json", o.report), BuiltValue(env, "package", o.package),
                  BuiltValue(env, "source", o.source));
  }

  lemma SameReference(env: Env, path: string, data: Bytes, evidence: Ref)
    requires env.hash(data) == evidence.sha256 && |data| == evidence.bytes
    ensures Reference(env, path, data) == RefValue(Ref(path, evidence.sha256, evidence.bytes))
  {
  }

  lemma FilesTogether(env: Env, tree: Tree, out: Path, target: string, evidence: Ref, launcher: Value, report: Value,
                      package: Value, source: Value)
    requires launcher == RefValue(Ref("launcher.json", evidence.sha256, evidence.bytes))
    requires RefHolds(env, tree, out, Ref("launcher.json", evidence.sha256, evidence.bytes))
    requires ValueRefHolds(env, tree, out, report) && RefOf(report).value.path == "assembly/attempt.json"
    requires DomainOutputHolds(env, tree, out, "package", target, package)
    requires DomainOutputHolds(env, tree, out, "source", target, source)
    ensures DomainFiles(env, tree, out, target, evidence, launcher, report, Arr([package, source]))
  {
  }

  lemma ObservedHolds(env: Env, tree: Tree, identity: Identity, begin: Row, receipt: Value, finished: string,
                      evidence: Ref, data: Bytes, o: Observation)
    requires begin.BeginRow? && Observed(env, tree, identity, OutputParts(begin), data, o)
    requires evidence.sha256 == env.hash(data) && evidence.bytes == |data|
    requires Get(receipt, "started_at") == Some(Str(begin.started))
    requires Get(receipt, "finished_at") == Some(Str(finished))
    ensures DomainHolds(env, tree, identity, begin, receipt, evidence,
                        ObservationValue(env, identity, begin, finished, o))
  {
    var v := ObservationValue(env, identity, begin, finished, o);
    ObservationMembers(env, identity, begin, finished, o, v);
    ObservedFiles(env, tree, identity, OutputParts(begin), evidence, data, o);
    DomainExactly(env, tree, identity, begin, receipt, finished, evidence, v);
  }

  lemma ObservationFields(env: Env, identity: Identity, begin: Row, finished: string, o: Observation)
    requires begin.BeginRow?
    ensures var w := ObservationValue(env, identity, begin, finished, o);
            && Exact(w, OBSERVATION_KEYS) && Labelled(env, identity, begin, finished, w)
            && w.fields[3].value == Reference(env, "launcher.json", o.launcher)
            && w.fields[4].value == OutputsValue(env, o)
            && w.fields[5].value == Reference(env, "assembly/attempt.json", o.report)
  {
  }

  lemma ObservationMembers(env: Env, identity: Identity, begin: Row, finished: string, o: Observation, v: Value)
    requires begin.BeginRow?
    ensures ObservationValue(env, identity, begin, finished, o) == v <==>
              && Exact(v, OBSERVATION_KEYS) && Labelled(env, identity, begin, finished, v)
              && v.fields[3].value == Reference(env, "launcher.json", o.launcher)
              && v.fields[4].value == OutputsValue(env, o)
              && v.fields[5].value == Reference(env, "assembly/attempt.json", o.report)
  {
    var w := ObservationValue(env, identity, begin, finished, o);
    ObservationFields(env, identity, begin, finished, o);
    if (&& Exact(v, OBSERVATION_KEYS) && Labelled(env, identity, begin, finished, v)
        && v.fields[3].value == w.fields[3].value && v.fields[4].value == w.fields[4].value
        && v.fields[5].value == w.fields[5].value) {
      SameObservation(v, w);
    }
  }

  lemma FilesObserved(env: Env, tree: Tree, identity: Identity, out: Path, evidence: Ref, data: Bytes, launcher: Value,
                      report: Value, outputs: Value) returns (o: Observation)
    requires DomainFiles(env, tree, out, identity.target, evidence, launcher, report, outputs)
    requires evidence.sha256 == env.hash(data) && evidence.bytes == |data|
    ensures Observed(env, tree, identity, out, data, o)
    ensures launcher == Reference(env, "launcher.json", o.launcher) && outputs == OutputsValue(env, o)
    ensures report == Reference(env, "assembly/attempt.json", o.report)
  {
    var first := HeldLauncher(env, tree, out, evidence, launcher, data);
    var second := HeldAt(env, tree, out, report, "assembly/attempt.json");
    var package, source := HeldOutputs(env, tree, out, identity.target, outputs.items);
    o := Observation(first, second, package, source);
  }

  lemma HeldLauncher(env: Env, tree: Tree, out: Path, evidence: Ref, launcher: Value, data: Bytes) returns (d: Bytes)
    requires launcher == RefValue(Ref("launcher.json", evidence.sha256, evidence.bytes))
    requires RefHolds(env, tree, out, Ref("launcher.json", evidence.sha256, evidence.bytes))
    requires evidence.sha256 == env.hash(data) && evidence.bytes == |data|
    ensures Stored(tree, out, "launcher.json", d) && launcher == Reference(env, "launcher.json", d)
    ensures env.hash(d) == env.hash(data) && |d| == |data|
  {
    ReadReference(Ref("launcher.json", evidence.sha256, evidence.bytes));
    d := HeldAt(env, tree, out, launcher, "launcher.json");
    ReadReference(Ref("launcher.json", env.hash(d), |d|));
  }

  lemma ReadReference(r: Ref)
    requires r.bytes >= 0
    ensures RefOf(RefValue(r)) == Some(r)
  {
  }

  lemma HeldOutputs(env: Env, tree: Tree, out: Path, target: string, items: seq<Value>)
      returns (package: Built, source: Built)
    requires |items| == 2 && DomainOutputHolds(env, tree, out, "package", target, items[0])
    requires DomainOutputHolds(env, tree, out, "source", target, items[1])
    ensures BuiltTwice(env, tree, out, package, "-" + target + ".tar.gz")
    ensures BuiltTwice(env, tree, out, source, "-source.tar.gz")
    ensures items == [BuiltValue(env, "package", package), BuiltValue(env, "source", source)]
  {
    package := HeldBuilt(env, tree, out, "package", target, items[0]);
    source := HeldBuilt(env, tree, out, "source", target, items[1]);
    TwoItems(items);
  }

  lemma TwoItems(items: seq<Value>)
    requires |items| == 2
    ensures items == [items[0], items[1]]
  {
  }

  lemma HeldObserved(env: Env, tree: Tree, identity: Identity, begin: Row, receipt: Value, finished: string,
                     evidence: Ref, data: Bytes, v: Value) returns (o: Observation)
    requires begin.BeginRow? && DomainHolds(env, tree, identity, begin, receipt, evidence, v)
    requires evidence.sha256 == env.hash(data) && evidence.bytes == |data|
    requires Get(receipt, "started_at") == Some(Str(begin.started))
    requires Get(receipt, "finished_at") == Some(Str(finished))
    ensures Observed(env, tree, identity, OutputParts(begin), data, o)
    ensures v == ObservationValue(env, identity, begin, finished, o)
  {
    DomainExactly(env, tree, identity, begin, receipt, finished, evidence, v);
    o := FilesObserved(env, tree, identity, OutputParts(begin), evidence, data, v.fields[3].value, v.fields[5].value,
                       v.fields[4].value);
    ObservationMembers(env, identity, begin, finished, o, v);
  }

  lemma SameObservation(v: Value, w: Value)
    requires Exact(v, OBSERVATION_KEYS) && Exact(w, OBSERVATION_KEYS)
    requires forall i :: 0 <= i < 10 ==> v.fields[i].value == w.fields[i].value
    ensures v == w
  {
    assert v.fields == w.fields;
  }

  lemma HeldAt(env: Env, tree: Tree, at: Path, v: Value, path: string) returns (data: Bytes)
    requires ValueRefHolds(env, tree, at, v) && RefOf(v).value.path == path
    ensures Stored(tree, at, path, data) && v == Reference(env, path, data)
  {
    RefExactly(env, tree, at, v);
    var p, d :| Stored(tree, at, p, d) && v == Reference(env, p, d);
    data := d;
  }

  // ------------------------------------------------------------------ receipts

  /** What a receipt leaves to its writer. */
  datatype Report = Report(status: string, finished: string, evidence: string, data: Bytes, processes: seq<Value>,
                           observation: Value)

  function ReceiptValue(env: Env, begin: Row, r: Report): Value
    requires begin.BeginRow?
  {
    Obj([Field("domain_observation", r.observation), Field("evidence", Reference(env, r.evidence, r.data)),
         Field("finished_at", Str(r.finished)), Field("id", Str(begin.id)), Field("processes", Arr(r.processes)),
         Field("schema", Str("kasumi-release-acceptance-v1")), Field("started_at", Str(begin.started)),
         Field("status", Str(r.status))])
  }

  /** A record within the JSON limit, loaded from a stored file. */
  predicate Loads(env: Env, data: Bytes, v: Value) {
    |data| <= 16777216 && env.loads(data) == Some(v)
  }

  /** The outcome names the attempt, its output, its target and the report's own status and times. */
  predicate Names(env: Env, begin: Row, r: Report, outcome: Value)
    requires begin.BeginRow?
  {
    && begin.kind in env.kinds && Get(outcome, "schema") == Some(Str(env.kinds[begin.kind].schema))
    && Get(outcome, "custody_root") == Some(Str(env.root + "/" + begin.output))
    && Get(outcome, "attempt_id") == Some(Str(begin.id)) && Get(outcome, "status") == Some(Str(r.status))
    && Get(outcome, "started_at") == Some(Str(begin.started)) && Get(outcome, "finished_at") == Some(Str(r.finished))
  }

  /** What was produced: the roster's files, or what a passed assembly's observation tells. */
  ghost predicate Produces(env: Env, tree: Tree, identity: Identity, begin: Row, r: Report, outcome: Value)
    requires begin.BeginRow? && begin.kind in env.kinds
  {
    var out := Split(begin.output, '/');
    match env.kinds[begin.kind].roster
    case Some(roster) =>
      && r.observation == Null && Get(outcome, "target") == Some(Str(identity.target))
      && exists products ::
           && Get(outcome, "products") == Some(Arr(ProductValues(env, products)))
           && Produced(tree, out, roster, products, r.status == "passed")
    case None =>
      if r.status != "passed" then r.observation == Null
      else
        exists data, o :: ObservedIn(env, tree, identity, begin, r, data, o)
  }

  /** The observation a passed assembly's receipt selects, in the file that holds it. */
  predicate ObservedIn(env: Env, tree: Tree, identity: Identity, begin: Row, r: Report, data: Bytes, o: Observation)
    requires begin.BeginRow?
  {
    && Stored(tree, [], begin.output + "/domain-observation.json", data)
    && r.observation == Reference(env, begin.output + "/domain-observation.json", data)
    && Loads(env, data, ObservationValue(env, identity, begin, r.finished, o))
    && Observed(env, tree, identity, Split(begin.output, '/'), r.data, o)
  }

  /** A report the tree bears out: finished no earlier than it started, with evidence below its output
      that names it, and its products. */
  ghost predicate BorneOut(env: Env, tree: Tree, identity: Identity, begin: Row, r: Report)
    requires begin.BeginRow?
  {
    && (r.status == "passed" || r.status == "failed" || r.status == "interrupted")
    && env.time(begin.started).Some? && env.time(r.finished).Some?
    && env.time(begin.started).value <= env.time(r.finished).value
    && Stored(tree, [], r.evidence, r.data) && Split(begin.output, '/') <= Split(r.evidence, '/')
    && Evidenced(env, tree, identity, begin, r)
  }

  ghost predicate Evidenced(env: Env, tree: Tree, identity: Identity, begin: Row, r: Report)
    requires begin.BeginRow?
  {
    exists outcome :: OutcomeOf(env, tree, identity, begin, r, outcome)
  }

  ghost predicate OutcomeOf(env: Env, tree: Tree, identity: Identity, begin: Row, r: Report, outcome: Value)
    requires begin.BeginRow?
  {
    && Loads(env, r.data, outcome) && Names(env, begin, r, outcome)
    && Produces(env, tree, identity, begin, r, outcome)
  }

  lemma StoredLoads(env: Env, tree: Tree, path: string, data: Bytes, v: Value)
    requires Stored(tree, [], path, data)
    ensures JsonRef(env, tree, [], Ref(path, env.hash(data), |data|)) == Some(v) <==> Loads(env, data, v)
  {
    ReferenceHolds(env, tree, [], path, data);
  }

  lemma RosterExactly(env: Env, tree: Tree, identity: Identity, begin: Row, receipt: Value, r: Report, outcome: Value,
                      roster: set<string>)
    requires begin.BeginRow? && begin.kind in env.kinds && env.kinds[begin.kind].roster == Some(roster)
    requires Get(receipt, "domain_observation") == Some(r.observation) && Get(receipt, "status") == Some(Str(r.status))
    ensures RosterHolds(env, tree, identity, begin, receipt, outcome, roster)
            <==> Produces(env, tree, identity, begin, r, outcome)
  {
    var out, passed := OutputParts(begin), r.status == "passed";
    if RosterHolds(env, tree, identity, begin, receipt, outcome, roster) {
      var items := Get(outcome, "products").value.items;
      var products := HeldProduced(env, tree, out, roster, items, passed);
      assert Get(outcome, "products") == Some(Arr(ProductValues(env, products)));
    }
    if Produces(env, tree, identity, begin, r, outcome) {
      var products :| && Get(outcome, "products") == Some(Arr(ProductValues(env, products)))
                      && Produced(tree, out, roster, products, passed);
      ProducedHolds(env, tree, out, roster, products, passed);
    }
  }

  lemma ObservationExactly(env: Env, tree: Tree, identity: Identity, begin: Row, receipt: Value, r: Report,
                           outcome: Value)
    requires begin.BeginRow? && begin.kind in env.kinds && env.kinds[begin.kind].roster.None?
    requires Get(receipt, "domain_observation") == Some(r.observation) && Get(receipt, "status") == Some(Str(r.status))
    requires Get(receipt, "started_at") == Some(Str(begin.started))
    requires Get(receipt, "finished_at") == Some(Str(r.finished))
    ensures ObservationHolds(env, tree, identity, begin, receipt, Ref(r.evidence, env.hash(r.data), |r.data|))
            <==> Produces(env, tree, identity, begin, r, outcome)
  {
    var evidence := Ref(r.evidence, env.hash(r.data), |r.data|);
    if r.status == "passed" {
      PassedExactly(env, tree, identity, begin, receipt, r, evidence);
    }
  }

  lemma PassedExactly(env: Env, tree: Tree, identity: Identity, begin: Row, receipt: Value, r: Report, evidence: Ref)
    requires begin.BeginRow? && evidence == Ref(r.evidence, env.hash(r.data), |r.data|)
    requires Get(receipt, "started_at") == Some(Str(begin.started))
    requires Get(receipt, "finished_at") == Some(Str(r.finished))
    ensures (&& RefOf(r.observation).Some?
             && Observes(env, tree, identity, begin, receipt, evidence, RefOf(r.observation).value))
            <==> exists data, o :: ObservedIn(env, tree, identity, begin, r, data, o)
  {
    if (&& RefOf(r.observation).Some?
        && Observes(env, tree, identity, begin, receipt, evidence, RefOf(r.observation).value)) {
      var data, o := PassedObserved(env, tree, identity, begin, receipt, r, evidence);
    }
    if data, o :| ObservedIn(env, tree, identity, begin, r, data, o) {
      ObservedPassed(env, tree, identity, begin, receipt, r, evidence, data, o);
    }
  }

  lemma ObservationPath(begin: Row)
    requires begin.BeginRow?
    ensures begin.output + "/" + "domain-observation.json" == begin.output + "/domain-observation.json"
  {
  }

  lemma PassedObserved(env: Env, tree: Tree, identity: Identity, begin: Row, receipt: Value, r: Report, evidence: Ref)
      returns (data: Bytes, o: Observation)
    requires begin.BeginRow? && evidence == Ref(r.evidence, env.hash(r.data), |r.data|)
    requires Get(receipt, "started_at") == Some(Str(begin.started))
    requires Get(receipt, "finished_at") == Some(Str(r.finished)) && RefOf(r.observation).Some?
    requires Observes(env, tree, identity, begin, receipt, evidence, RefOf(r.observation).value)
    ensures ObservedIn(env, tree, identity, begin, r, data, o)
  {
    var path := begin.output + "/domain-observation.json";
    ObservationPath(begin);
    var observed := RefOf(r.observation).value;
    data := HeldAt(env, tree, [], r.observation, path);
    ReferenceHolds(env, tree, [], path, data);
    var v := JsonRef(env, tree, [], observed).value;
    StoredLoads(env, tree, path, data, v);
    o := HeldObserved(env, tree, identity, begin, receipt, r.finished, evidence, r.data, v);
  }

  lemma ObservedPassed(env: Env, tree: Tree, identity: Identity, begin: Row, receipt: Value, r: Report, evidence: Ref,
                       data: Bytes, o: Observation)
    requires begin.BeginRow? && evidence == Ref(r.evidence, env.hash(r.data), |r.data|)
    requires Get(receipt, "started_at") == Some(Str(begin.started))
    requires Get(receipt, "finished_at") == Some(Str(r.finished))
    requires ObservedIn(env, tree, identity, begin, r, data, o)
    ensures RefOf(r.observation).Some?
    ensures Observes(env, tree, identity, begin, receipt, evidence, RefOf(r.observation).value)
  {
    var path := begin.output + "/domain-observation.json";
    ObservationPath(begin);
    ReferenceHolds(env, tree, [], path, data);
    StoredLoads(env, tree, path, data, ObservationValue(env, identity, begin, r.finished, o));
    ObservedHolds(env, tree, identity, begin, receipt, r.finished, evidence, r.data, o);
  }

  lemma OutcomeExactly(env: Env, tree: Tree, identity: Identity, begin: Row, receipt: Value, r: Report, outcome: Value)
    requires begin.BeginRow?
    requires Get(receipt, "domain_observation") == Some(r.observation) && Get(receipt, "status") == Some(Str(r.status))
    requires Get(receipt, "started_at") == Some(Str(begin.started))
    requires Get(receipt, "finished_at") == Some(Str(r.finished))
    ensures OutcomeHolds(env, tree, identity, begin, receipt, Ref(r.evidence, env.hash(r.data), |r.data|), outcome)
            <==> Names(env, begin, r, outcome) && Produces(env, tree, identity, begin, r, outcome)
  {
    if begin.kind in env.kinds {
      match env.kinds[begin.kind].roster
      case Some(roster) => RosterExactly(env, tree, identity, begin, receipt, r, outcome, roster);
      case None => ObservationExactly(env, tree, identity, begin, receipt, r, outcome);
    }
  }

  lemma NamedReceipt(env: Env, begin: Row, r: Report)
    requires begin.BeginRow?
    ensures var v := ReceiptValue(env, begin, r);
            && Get(v, "domain_observation") == Some(r.observation) && Get(v, "status") == Some(Str(r.status))
            && Get(v, "started_at") == Some(Str(begin.started)) && Get(v, "finished_at") == Some(Str(r.finished))
            && Get(v, "evidence") == Some(Reference(env, r.evidence, r.data))
    ensures ReceiptNamed(env, begin, ReceiptValue(env, begin, r)) <==>
              && (r.status == "passed" || r.status == "failed" || r.status == "interrupted")
              && env.time(begin.started).Some? && env.time(r.finished).Some?
              && env.time(begin.started).value <= env.time(r.finished).value
  {
    ReceiptGets(ReceiptValue(env, begin, r));
  }

  lemma EvidenceExactly(env: Env, tree: Tree, identity: Identity, begin: Row, receipt: Value, r: Report)
    requires begin.BeginRow? && Stored(tree, [], r.evidence, r.data)
    requires Get(receipt, "domain_observation") == Some(r.observation) && Get(receipt, "status") == Some(Str(r.status))
    requires Get(receipt, "started_at") == Some(Str(begin.started))
    requires Get(receipt, "finished_at") == Some(Str(r.finished))
    ensures EvidenceHolds(env, tree, identity, begin, receipt, Ref(r.evidence, env.hash(r.data), |r.data|)) <==>
              Split(begin.output, '/') <= Split(r.evidence, '/') && Evidenced(env, tree, identity, begin, r)
  {
    var evidence := Ref(r.evidence, env.hash(r.data), |r.data|);
    ReferenceHolds(env, tree, [], r.evidence, r.data);
    if EvidenceHolds(env, tree, identity, begin, receipt, evidence) {
      var outcome := JsonRef(env, tree, [], evidence).value;
      StoredLoads(env, tree, r.evidence, r.data, outcome);
      OutcomeExactly(env, tree, identity, begin, receipt, r, outcome);
      assert OutcomeOf(env, tree, identity, begin, r, outcome);
    }
    if Evidenced(env, tree, identity, begin, r) {
      var outcome :| OutcomeOf(env, tree, identity, begin, r, outcome);
      StoredLoads(env, tree, r.evidence, r.data, outcome);
      OutcomeExactly(env, tree, identity, begin, receipt, r, outcome);
    }
  }

  /** Every report the tree bears out makes a receipt that is accepted. */
  lemma BorneOutHolds(env: Env, tree: Tree, identity: Identity, begin: Row, r: Report)
    requires begin.BeginRow? && BorneOut(env, tree, identity, begin, r)
    ensures ReceiptHolds(env, tree, identity, begin, ReceiptValue(env, begin, r))
  {
    var v := ReceiptValue(env, begin, r);
    NamedReceipt(env, begin, r);
    ReferenceHolds(env, tree, [], r.evidence, r.data);
    EvidenceExactly(env, tree, identity, begin, v, r);
  }

  lemma NamedReport(env: Env, tree: Tree, begin: Row, receipt: Value) returns (r: Report)
    requires begin.BeginRow? && ReceiptNamed(env, begin, receipt)
    requires Get(receipt, "evidence").Some? && ValueRefHolds(env, tree, [], Get(receipt, "evidence").value)
    ensures receipt == ReceiptValue(env, begin, r) && Stored(tree, [], r.evidence, r.data)
    ensures RefOf(Get(receipt, "evidence").value) == Some(Ref(r.evidence, env.hash(r.data), |r.data|))
  {
    ReceiptGets(receipt);
    var f := receipt.fields;
    var evidence := RefOf(f[1].value).value;
    var data := HeldAt(env, tree, [], f[1].value, evidence.path);
    ReferenceHolds(env, tree, [], evidence.path, data);
    r := Report(f[7].value.s, f[2].value.s, evidence.path, data, f[4].value.items, f[0].value);
    assert f == ReceiptValue(env, begin, r).fields;
  }

  /** And every accepted receipt is one of those. */
  lemma HoldsBorneOut(env: Env, tree: Tree, identity: Identity, begin: Row, receipt: Value) returns (r: Report)
    requires begin.BeginRow? && ReceiptHolds(env, tree, identity, begin, receipt)
    ensures BorneOut(env, tree, identity, begin, r) && receipt == ReceiptValue(env, begin, r)
  {
    r := NamedReport(env, tree, begin, receipt);
    NamedReceipt(env, begin, r);
    EvidenceExactly(env, tree, identity, begin, receipt, r);
  }
}
