/** `Preservation`: cited files and directories, each file preserved once in a run, and one shared
    list of what was refused. */
module Preservation {
  import opened Basics
  import opened EvidenceStore
  import opened EvidenceTree

  /** A preserved file, copied or recorded by its digest only. */
  datatype Kept = Kept(path: Path, record: Record, copied: bool)

  /** Why a path is in the list: a ledger document, an unsafe token, a cited path itself, or something
      met inside a cited directory. */
  datatype Cause = Ledger | Unsafe | Cited | Via(directory: Path)

  datatype Refusal = Refusal(path: Path, cause: Cause)

  datatype Inventory = Inventory(path: Path, items: seq<Kept>, pruned: seq<Path>)

  type Files = map<Path, Option<Kept>>

  // ------------------------------------------------------------- one file

  /** What there is to say of a path: the record of the file there, with the destination's bytes
      behind a copy; or nothing, because there is no readable file or other bytes are in its place. */
  function Verdict(s: Source, store: Store, path: Path): Option<Kept> {
    match Look(s, path)
    case At(File(data)) =>
      if !s.faults(path).Fine? || (path in store && !Matches(s.hash, store[path], data)) then None
      else Some(Kept(path, RecordOf(s.hash, path, data), path in store))
    case _ => None
  }

  /** Nothing at a path is left to copy. */
  predicate AtRest(s: Source, store: Store, path: Path) {
    match Look(s, path)
    case At(File(data)) => s.faults(path).Fine? && Copyable(data, s.cap) ==> path in store
    case _ => true
  }

  /** Everything a run said so far is still what there is to say. */
  predicate AllRecorded(s: Source, store: Store, files: Files) {
    forall p :: p in files ==> files[p] == Verdict(s, store, p) && AtRest(s, store, p)
  }

  /** Cited paths and all below them lie under `target`; what a run generates lies elsewhere. */
  predicate UnderTarget(files: Files) {
    forall p :: p in files ==> InTarget(p)
  }

  predicate InTarget(p: Path) {
    p != [] && p[0] == "target"
  }

  /** What was said of a path once is said again. */
  predicate Grown(before: Files, after: Files) {
    forall p :: p in before ==> p in after && after[p] == before[p]
  }

  lemma RecordedElsewhere(s: Source, before: Store, after: Store, files: Files, changed: Path)
    requires AllRecorded(s, before, files) && changed !in files
    requires forall p :: p != changed ==> (p in before <==> p in after) && (p in before ==> after[p] == before[p])
    ensures AllRecorded(s, after, files)
  {
    forall p | p in files
      ensures files[p] == Verdict(s, after, p) && AtRest(s, after, p)
    {
      assert p != changed;
    }
  }

  /** `copy` of a file as the destination sees it. */
  function KeptOf(path: Path, r: Result): Option<Kept> {
    match r
    case Copied(record) => Some(Kept(path, record, true))
    case HashOnly(record) => Some(Kept(path, record, false))
    case _ => None
  }

  lemma CopyRecorded(s: Source, store: Store, path: Path, data: Bytes)
    requires Look(s, path) == At(File(data)) && s.faults(path).Fine?
    ensures var after := After(s.cap, store, Copy(path, data));
            && KeptOf(path, Outcome(s.hash, s.cap, store, Copy(path, data))) == Verdict(s, after, path)
            && AtRest(s, after, path) && (AtRest(s, store, path) ==> after == store)
  {
  }

  // ------------------------------------------------------- below a directory

  /** What a walk finds: preserved files, cache directories left out, and refusals. */
  datatype Yield = Yield(items: seq<Kept>, pruned: seq<Path>, refused: seq<Refusal>)

  const NOTHING := Yield([], [], [])

  function Then(a: Yield, b: Yield): Yield {
    Yield(a.items + b.items, a.pruned + b.pruned, a.refused + b.refused)
  }

  function Refused(path: Path, via: Path): Yield {
    Yield([], [], [Refusal(path, Via(via))])
  }

  /** One name in a directory. */
  function VisitYield(s: Source, store: Store, node: Node, path: Path, via: Path): Yield
    decreases node, 2, 0
  {
    match node
    case Link => Refused(path, via)
    case Dir(_, _) => if s.faults(path).Unopened? then Refused(path, via) else DirYield(s, store, node, path, via)
    case _ =>
      match Verdict(s, store, path)
      case Some(k) => Yield([k], [], [])
      case None => Refused(path, via)
  }

  function DirYield(s: Source, store: Store, dir: Node, path: Path, via: Path): Yield
    requires dir.Dir?
    decreases dir, 1, 0
  {
    if s.faults(path).Unread? then Refused(path, via)
    else if dir.cache then Yield([], [path], [])
    else ChildrenYield(s, store, dir, |dir.children|, path, via)
  }

  function ChildrenYield(s: Source, store: Store, dir: Node, n: nat, path: Path, via: Path): Yield
    requires dir.Dir? && n <= |dir.children|
    decreases dir, 0, n
  {
    if n == 0 then NOTHING
    else
      var child := dir.children[n - 1];
      Then(ChildrenYield(s, store, dir, n - 1, path, via), VisitYield(s, store, child.node, path + [child.name], via))
  }

  lemma VisitDir(s: Source, store: Store, dir: Node, path: Path, via: Path)
    requires dir.Dir?
    ensures VisitYield(s, store, dir, path, via) ==
              if !s.faults(path).Fine? then Refused(path, via)
              else if dir.cache then Yield([], [path], [])
              else ChildrenYield(s, store, dir, |dir.children|, path, via)
  {
    if !s.faults(path).Unopened? {
      assert VisitYield(s, store, dir, path, via) == DirYield(s, store, dir, path, via);
    }
  }

  /** The files below a node that a walk reaches are all in the run's records. */
  predicate Reached(s: Source, files: Files, node: Node, path: Path)
    decreases node
  {
    match node
    case Link => true
    case Dir(children, cache) =>
      s.faults(path).Fine? && !cache ==>
        forall i :: 0 <= i < |children| ==> Reached(s, files, children[i].node, path + [children[i].name])
    case _ => path in files
  }

  predicate ReachedUpTo(s: Source, files: Files, dir: Node, n: nat, path: Path)
    requires dir.Dir? && n <= |dir.children|
  {
    forall i :: 0 <= i < n ==> Reached(s, files, dir.children[i].node, path + [dir.children[i].name])
  }

  lemma {:induction false} ReachedLater(s: Source, a: Files, b: Files, node: Node, path: Path)
    requires Reached(s, a, node, path) && Grown(a, b)
    ensures Reached(s, b, node, path)
    decreases node
  {
    if node.Dir? && s.faults(path).Fine? && !node.cache {
      forall i | 0 <= i < |node.children|
        ensures Reached(s, b, node.children[i].node, path + [node.children[i].name])
      {
        ReachedLater(s, a, b, node.children[i].node, path + [node.children[i].name]);
      }
    }
  }

  /** Two destinations that bear out the same records give the same walk. */
  lemma {:induction false} SameVisit(s: Source, a: Store, b: Store, files: Files, node: Node, path: Path, via: Path)
    requires AllRecorded(s, a, files) && AllRecorded(s, b, files) && Reached(s, files, node, path)
    ensures VisitYield(s, a, node, path, via) == VisitYield(s, b, node, path, via)
    decreases node, 1, 0
  {
    if node.Dir? && s.faults(path).Fine? && !node.cache {
      SameChildren(s, a, b, files, node, |node.children|, path, via);
    }
  }

  lemma {:induction false} SameChildren(s: Source, a: Store, b: Store, files: Files, dir: Node, n: nat, path: Path,
                                        via: Path)
    requires AllRecorded(s, a, files) && AllRecorded(s, b, files)
    requires dir.Dir? && n <= |dir.children| && ReachedUpTo(s, files, dir, n, path)
    ensures ChildrenYield(s, a, dir, n, path, via) == ChildrenYield(s, b, dir, n, path, via)
    decreases dir, 0, n
  {
    if n > 0 {
      var child := dir.children[n - 1];
      SameChildren(s, a, b, files, dir, n - 1, path, via);
      SameVisit(s, a, b, files, child.node, path + [child.name], via);
    }
  }

  /** Nothing below a node is left to copy. */
  predicate AllAtRest(s: Source, store: Store, node: Node, path: Path)
    decreases node
  {
    match node
    case Link => true
    case Dir(children, cache) =>
      s.faults(path).Fine? && !cache ==>
        forall i :: 0 <= i < |children| ==> AllAtRest(s, store, children[i].node, path + [children[i].name])
    case _ => AtRest(s, store, path)
  }

  lemma {:induction false} ReachedAtRest(s: Source, store: Store, files: Files, node: Node, path: Path)
    requires AllRecorded(s, store, files) && Reached(s, files, node, path)
    ensures AllAtRest(s, store, node, path)
    decreases node
  {
    if node.Dir? && s.faults(path).Fine? && !node.cache {
      forall i | 0 <= i < |node.children|
        ensures AllAtRest(s, store, node.children[i].node, path + [node.children[i].name])
      {
        ReachedAtRest(s, store, files, node.children[i].node, path + [node.children[i].name]);
      }
    }
  }

  // ------------------------------------------------ what a walk accounts for

  /** Everything below a node is in the inventory, refused, or under a pruned cache directory. */
  predicate Covered(s: Source, store: Store, y: Yield, node: Node, path: Path, via: Path)
    decreases node
  {
    match node
    case Link => Refusal(path, Via(via)) in y.refused
    case Dir(children, cache) =>
      if !s.faults(path).Fine? then Refusal(path, Via(via)) in y.refused
      else if cache then path in y.pruned
      else
        forall i :: 0 <= i < |children| ==>
          Covered(s, store, y, children[i].node, path + [children[i].name], via)
    case _ =>
      match Verdict(s, store, path)
      case Some(k) => k in y.items
      case None => Refusal(path, Via(via)) in y.refused
  }

  /** Every item is the record of its path, and every refusal names the cited directory. */
  predicate Truthful(s: Source, store: Store, y: Yield, via: Path) {
    && (forall i :: 0 <= i < |y.items| ==> Verdict(s, store, y.items[i].path) == Some(y.items[i]))
    && (forall i :: 0 <= i < |y.refused| ==> y.refused[i].cause == Via(via))
  }

  predicate Within(a: Yield, b: Yield) {
    && (forall k :: k in a.items ==> k in b.items) && (forall p :: p in a.pruned ==> p in b.pruned)
    && (forall r :: r in a.refused ==> r in b.refused)
  }

  lemma {:induction false} CoveredMore(s: Source, store: Store, a: Yield, b: Yield, node: Node, path: Path, via: Path)
    requires Covered(s, store, a, node, path, via) && Within(a, b)
    ensures Covered(s, store, b, node, path, via)
    decreases node
  {
    if node.Dir? && s.faults(path).Fine? && !node.cache {
      forall i | 0 <= i < |node.children|
        ensures Covered(s, store, b, node.children[i].node, path + [node.children[i].name], via)
      {
        CoveredMore(s, store, a, b, node.children[i].node, path + [node.children[i].name], via);
      }
    }
  }

  lemma {:induction false} VisitCovers(s: Source, store: Store, y: Yield, node: Node, path: Path, via: Path)
    requires Within(VisitYield(s, store, node, path, via), y)
    ensures Covered(s, store, y, node, path, via)
    decreases node, 1, 0
  {
    assert Refusal(path, Via(via)) in Refused(path, via).refused;
    if node.Dir? {
      VisitDir(s, store, node, path, via);
      assert path in Yield([], [path], []).pruned;
      if s.faults(path).Fine? && !node.cache {
        ChildrenCover(s, store, y, node, |node.children|, path, via);
      }
    } else if Verdict(s, store, path).Some? {
      var k := Verdict(s, store, path).value;
      assert k in Yield([k], [], []).items;
    }
  }

  lemma {:induction false} ChildrenCover(s: Source, store: Store, y: Yield, dir: Node, n: nat, path: Path, via: Path)
    requires dir.Dir? && n <= |dir.children| && Within(ChildrenYield(s, store, dir, n, path, via), y)
    ensures forall i :: 0 <= i < n ==>
              Covered(s, store, y, dir.children[i].node, path + [dir.children[i].name], via)
    decreases dir, 0, n
  {
    if n > 0 {
      var child := dir.children[n - 1];
      ChildrenCover(s, store, y, dir, n - 1, path, via);
      VisitCovers(s, store, y, child.node, path + [child.name], via);
    }
  }

  lemma {:induction false} VisitTruthful(s: Source, store: Store, node: Node, path: Path, via: Path)
    ensures Truthful(s, store, VisitYield(s, store, node, path, via), via)
    decreases node, 1, 0
  {
    if node.Dir? {
      VisitDir(s, store, node, path, via);
      if s.faults(path).Fine? && !node.cache {
        ChildrenTruthful(s, store, node, |node.children|, path, via);
      }
    } else {
      VerdictPath(s, store, path);
    }
  }

  lemma VerdictPath(s: Source, store: Store, path: Path)
    ensures Verdict(s, store, path).Some? ==> Verdict(s, store, path).value.path == path
  {
  }

  lemma {:induction false} ChildrenTruthful(s: Source, store: Store, dir: Node, n: nat, path: Path, via: Path)
    requires dir.Dir? && n <= |dir.children|
    ensures Truthful(s, store, ChildrenYield(s, store, dir, n, path, via), via)
    decreases dir, 0, n
  {
    if n > 0 {
      var child := dir.children[n - 1];
      ChildrenTruthful(s, store, dir, n - 1, path, via);
      VisitTruthful(s, store, child.node, path + [child.name], via);
      ThenTruthful(s, store, ChildrenYield(s, store, dir, n - 1, path, via),
                   VisitYield(s, store, child.node, path + [child.name], via), via);
    }
  }

  lemma ThenTruthful(s: Source, store: Store, a: Yield, b: Yield, via: Path)
    requires Truthful(s, store, a, via) && Truthful(s, store, b, via)
    ensures Truthful(s, store, Then(a, b), via)
  {
  }

  // ---------------------------------------------------------- cited paths

  datatype Entry = FileEntry(kept: Kept) | DirEntry(inventory: Inventory)

  datatype Found = Entered(entry: Entry) | Denied | Absent

  /** What `reference` returns for a path, and the refusals it adds. */
  datatype Answer = Answer(found: Found, refused: seq<Refusal>)

  function EntryPath(e: Entry): Path {
    match e
    case FileEntry(kept) => kept.path
    case DirEntry(inventory) => inventory.path
  }

  function Added(inventory: Inventory, y: Yield): Inventory {
    Inventory(inventory.path, inventory.items + y.items, inventory.pruned + y.pruned)
  }

  /** Where the inventory of a cited directory is written. */
  function Location(s: Source, data: Bytes): Path {
    ["inventories", s.hash(data) + ".json"]
  }

  function InventoryData(s: Source, store: Store, dir: Node, path: Path, encode: Inventory -> Bytes): Bytes
    requires dir.Dir?
  {
    encode(Added(Inventory(path, [], []), DirYield(s, store, dir, path, path)))
  }

  function DirAnswer(s: Source, store: Store, dir: Node, path: Path, encode: Inventory -> Bytes): Answer
    requires dir.Dir?
  {
    var y := DirYield(s, store, dir, path, path);
    var data := InventoryData(s, store, dir, path, encode);
    var location := Location(s, data);
    Answer(Entered(DirEntry(Added(Inventory(path, [], []), y))),
           y.refused + if location in store && !Matches(s.hash, store[location], data)
                       then [Refusal(location, Via(path))] else [])
  }

  function CitedAnswer(s: Source, store: Store, path: Path, encode: Inventory -> Bytes): Answer {
    match Look(s, path)
    case Gone => Answer(Absent, [])
    case Barred => Answer(Denied, [Refusal(path, Cited)])
    case At(node) =>
      if node.Dir? && !s.faults(path).Unopened? then DirAnswer(s, store, node, path, encode)
      else
        match Verdict(s, store, path)
        case Some(k) => Answer(Entered(FileEntry(k)), [])
        case None => Answer(Denied, [Refusal(path, Cited)])
  }

  /** Nothing that a cited path leads to is left to write. */
  predicate CitedAtRest(s: Source, store: Store, path: Path, encode: Inventory -> Bytes) {
    var place := Look(s, path);
    place.At? ==>
      if place.node.Dir? then
        !s.faults(path).Unopened? ==>
          && AllAtRest(s, store, place.node, path)
          && Location(s, InventoryData(s, store, place.node, path, encode)) in store
      else AtRest(s, store, path)
  }

  predicate CitedReached(s: Source, files: Files, path: Path) {
    var place := Look(s, path);
    place.At? ==>
      if place.node.Dir? then !s.faults(path).Unopened? ==> Reached(s, files, place.node, path) else path in files
  }

  lemma CitedReachedLater(s: Source, a: Files, b: Files, path: Path)
    requires CitedReached(s, a, path) && Grown(a, b)
    ensures CitedReached(s, b, path)
  {
    var place := Look(s, path);
    if place.At? && place.node.Dir? && !s.faults(path).Unopened? {
      ReachedLater(s, a, b, place.node, path);
    }
  }

  lemma SameDir(s: Source, a: Store, b: Store, files: Files, dir: Node, path: Path)
    requires AllRecorded(s, a, files) && AllRecorded(s, b, files) && dir.Dir? && Reached(s, files, dir, path)
    requires !s.faults(path).Unopened?
    ensures DirYield(s, a, dir, path, path) == DirYield(s, b, dir, path, path)
  {
    SameVisit(s, a, b, files, dir, path, path);
    assert VisitYield(s, a, dir, path, path) == DirYield(s, a, dir, path, path);
    assert VisitYield(s, b, dir, path, path) == DirYield(s, b, dir, path, path);
  }

  /** What was answered once is answered again, however the destination has grown since. */
  lemma SameAnswer(s: Source, a: Store, b: Store, files: Files, path: Path, encode: Inventory -> Bytes)
    requires AllRecorded(s, a, files) && AllRecorded(s, b, files) && Keeps(a, b)
    requires CitedReached(s, files, path) && CitedAtRest(s, a, path, encode)
    ensures CitedAnswer(s, b, path, encode) == CitedAnswer(s, a, path, encode) && CitedAtRest(s, b, path, encode)
  {
    var place := Look(s, path);
    if place.At? && place.node.Dir? && !s.faults(path).Unopened? {
      SameDir(s, a, b, files, place.node, path);
      ReachedAtRest(s, b, files, place.node, path);
    }
  }

  /** What the answer means: absent exactly when nothing is there; denied when the way is barred, the
      directory does not open or there is no record of the file; and else an entry, a directory's with
      everything below accounted for. */
  predicate Told(s: Source, store: Store, path: Path, a: Answer) {
    && (a.found.Entered? ==> EntryPath(a.found.entry) == path)
    && (a.found.Denied? ==> a.refused == [Refusal(path, Cited)])
    && (!a.found.Denied? ==> forall i :: 0 <= i < |a.refused| ==> a.refused[i].cause == Via(path))
    && match Look(s, path)
       case Gone => a.found.Absent?
       case Barred => a.found.Denied?
       case At(node) =>
         if node.Dir? then
           if s.faults(path).Unopened? then a.found.Denied?
           else
             && a.found.Entered? && a.found.entry.DirEntry?
             && Accounted(s, store, node, a.found.entry.inventory, a.refused)
         else
           match Verdict(s, store, path)
           case Some(k) => a.found == Entered(FileEntry(k))
           case None => a.found.Denied?
  }

  predicate Accounted(s: Source, store: Store, dir: Node, inventory: Inventory, refused: seq<Refusal>) {
    var y := Yield(inventory.items, inventory.pruned, refused);
    Covered(s, store, y, dir, inventory.path, inventory.path) && Truthful(s, store, y, inventory.path)
  }

  lemma DirTold(s: Source, store: Store, dir: Node, path: Path, encode: Inventory -> Bytes)
    requires dir.Dir? && !s.faults(path).Unopened?
    ensures var a := DirAnswer(s, store, dir, path, encode);
            Accounted(s, store, dir, a.found.entry.inventory, a.refused)
  {
    var a := DirAnswer(s, store, dir, path, encode);
    var own := DirYield(s, store, dir, path, path);
    assert VisitYield(s, store, dir, path, path) == own;
    var y := Yield(own.items, own.pruned, a.refused);
    assert [] + own.items == own.items && [] + own.pruned == own.pruned;
    VisitCovers(s, store, y, dir, path, path);
    VisitTruthful(s, store, dir, path, path);
  }

  lemma AnswerTold(s: Source, store: Store, path: Path, encode: Inventory -> Bytes)
    ensures Told(s, store, path, CitedAnswer(s, store, path, encode))
  {
    VerdictPath(s, store, path);
    var place := Look(s, path);
    if place.At? && place.node.Dir? && !s.faults(path).Unopened? {
      DirTold(s, store, place.node, path, encode);
    }
  }
}
