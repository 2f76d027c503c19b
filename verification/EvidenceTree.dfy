/** The source side of a preservation run: a checkout as the run finds it, and the place a cited
    path leads to. */
module EvidenceTree {
  import opened Basics
  import opened EvidenceStore

  datatype Child = Child(name: string, node: Node)

  /** `cache` says that a directory carries the cache directory tag. */
  datatype Node =
    | File(data: Bytes)
    | Dir(children: seq<Child>, cache: bool)
    | Link
    | Special

  /** What the operating system refuses at a path: to open it, or to read what was opened. A file
      that vanishes or changes under the run counts as not read. */
  datatype Fault = Fine | Unopened | Unread

  type Faults = Path -> Fault

  /** Where a path leads: to a node, nowhere, or through something that is not an open directory. */
  datatype Place = At(node: Node) | Gone | Barred

  function Find(children: seq<Child>, name: string): Option<Node> {
    if children == [] then None
    else if children[0].name == name then Some(children[0].node)
    else Find(children[1..], name)
  }

  /** `open_parent` and the look at the last name: no step through a link or a file. */
  function Walk(faults: Faults, node: Node, done: Path, parts: Path): Place
    decreases |parts|
  {
    if parts == [] then At(node)
    else if !node.Dir? then Barred
    else
      match Find(node.children, parts[0])
      case None => Gone
      case Some(child) =>
        if |parts| > 1 && faults(done + [parts[0]]).Unopened? then Barred
        else Walk(faults, child, done + [parts[0]], parts[1..])
  }

  /** Every name in a directory once, all the way down. */
  predicate Proper(node: Node) {
    node.Dir? ==>
      && (forall i, j :: 0 <= i < j < |node.children| ==> node.children[i].name != node.children[j].name)
      && (forall c :: c in node.children ==> Proper(c.node))
  }

  lemma {:induction false} FindAt(children: seq<Child>, i: nat)
    requires i < |children| && forall j :: 0 <= j < i ==> children[j].name != children[i].name
    ensures Find(children, children[i].name) == Some(children[i].node)
  {
    if i > 0 {
      FindAt(children[1..], i - 1);
    }
  }

  /** One name further down from a directory that could be opened. */
  lemma {:induction false} WalkMore(faults: Faults, node: Node, done: Path, parts: Path, name: string, dir: Node,
                                    child: Node)
    requires Walk(faults, node, done, parts) == At(dir) && dir.Dir? && Find(dir.children, name) == Some(child)
    requires parts != [] ==> !faults(done + parts).Unopened?
    ensures Walk(faults, node, done, parts + [name]) == At(child)
    decreases |parts|
  {
    if parts == [] {
      assert [] + [name] == [name];
      assert [name][1..] == [];
    } else {
      var first, next := parts[0], Find(node.children, parts[0]).value;
      assert (parts + [name])[1..] == parts[1..] + [name] && (parts + [name])[0] == first;
      assert done + [first] + parts[1..] == done + parts;
      assert |parts| == 1 ==> done + [first] == done + parts;
      WalkMore(faults, next, done + [first], parts[1..], name, dir, child);
    }
  }

  /** The root, what the system refuses in it, and the digest and binary cap of the run. */
  datatype Source = Source(root: Node, faults: Faults, hash: Bytes -> string, cap: nat)

  function Look(s: Source, path: Path): Place {
    Walk(s.faults, s.root, [], path)
  }

  lemma ChildPlace(s: Source, path: Path, dir: Node, i: nat)
    requires Look(s, path) == At(dir) && dir.Dir? && Proper(dir) && i < |dir.children| && path != []
    requires !s.faults(path).Unopened?
    ensures Look(s, path + [dir.children[i].name]) == At(dir.children[i].node) && Proper(dir.children[i].node)
  {
    FindAt(dir.children, i);
    assert [] + path == path;
    assert dir.children[i] in dir.children;
    WalkMore(s.faults, s.root, [], path, dir.children[i].name, dir, dir.children[i].node);
  }

  lemma {:induction false} PlaceProper(faults: Faults, node: Node, done: Path, parts: Path)
    requires Proper(node) && Walk(faults, node, done, parts).At?
    ensures Proper(Walk(faults, node, done, parts).node)
    decreases |parts|
  {
    if parts != [] {
      FindIn(node.children, parts[0]);
      PlaceProper(faults, Find(node.children, parts[0]).value, done + [parts[0]], parts[1..]);
    }
  }

  lemma {:induction false} FindIn(children: seq<Child>, name: string)
    requires Find(children, name).Some?
    ensures Child(name, Find(children, name).value) in children
  {
    if children[0].name != name {
      FindIn(children[1..], name);
    }
  }
}
