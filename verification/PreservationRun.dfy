/** The run of `Preservation` as it goes: files copied, refusals collected, inventories written. */
module PreservationRun {
  import opened Basics
  import opened EvidenceStore
  import opened EvidenceTree
  import opened Preservation

  class Run {
    const source: Source
    const destination: Destination
    var files: Files
    var refused: seq<Refusal>

    ghost predicate Valid()
      reads this, destination
    {
      Proper(source.root) && UnderTarget(files) && AllRecorded(source, destination.files, files)
    }

    constructor (source: Source, destination: Destination, refused: seq<Refusal>)
      requires Proper(source.root)
      ensures Valid() && this.source == source && this.destination == destination
      ensures files == map[] && this.refused == refused
    {
      this.source, this.destination, this.refused, files := source, destination, refused, map[];
    }

    /** What every step keeps: published files, and what was said of each path. */
    twostate predicate Kept()
      reads this, destination
    {
      Valid() && Keeps(old(destination.files), destination.files) && Grown(old(files), files)
    }

    /** `file`: once for each path. */
    method File(path: Path, node: Node) returns (r: Option<Preservation.Kept>)
      requires Valid() && Look(source, path) == At(node) && !node.Dir? && InTarget(path)
      modifies this`files, destination
      ensures Kept() && path in files && r == Verdict(source, destination.files, path)
      ensures AtRest(source, old(destination.files), path) ==> destination.files == old(destination.files)
    {
      if path in files {
        return files[path];
      }
      r := None;
      if node.File? && source.faults(path).Fine? {
        CopyRecorded(source, destination.files, path, node.data);
        OpKeeps(source.hash, source.cap, destination.files, Copy(path, node.data));
        var out := destination.CopyFile(source.hash, source.cap, path, node.data);
        r := KeptOf(path, out);
        RecordedElsewhere(source, old(destination.files), destination.files, files, path);
      }
      files := files[path := r];
    }

    method Refuse(path: Path, cause: Cause)
      modifies this`refused
      ensures refused == old(refused) + [Refusal(path, cause)]
    {
      refused := refused + [Refusal(path, cause)];
    }

    /** One name in a directory. */
    method Visit(path: Path, node: Node, inventory: Inventory) returns (next: Inventory)
      requires Valid() && Look(source, path) == At(node) && Proper(node) && InTarget(path)
      modifies this`files, this`refused, destination
      ensures Kept() && Reached(source, files, node, path)
      ensures next == Added(inventory, VisitYield(source, destination.files, node, path, inventory.path))
      ensures refused == old(refused) + VisitYield(source, destination.files, node, path, inventory.path).refused
      ensures AllAtRest(source, old(destination.files), node, path) ==> destination.files == old(destination.files)
      decreases node, 2, 0
    {
      next := Added(inventory, NOTHING);
      if node.Link? {
        Refuse(path, Via(inventory.path));
      } else if node.Dir? {
        if source.faults(path).Unopened? {
          Refuse(path, Via(inventory.path));
        } else {
          next := Directory(path, node, inventory);
        }
      } else {
        var r := File(path, node);
        if r.None? {
          Refuse(path, Via(inventory.path));
        } else {
          next := inventory.(items := inventory.items + [r.value]);
        }
      }
    }

    /** `directory`: the names below, with cache directories left out whole. */
    method Directory(path: Path, dir: Node, inventory: Inventory) returns (next: Inventory)
      requires Valid() && Look(source, path) == At(dir) && dir.Dir? && Proper(dir) && InTarget(path)
      requires !source.faults(path).Unopened?
      modifies this`files, this`refused, destination
      ensures Kept() && Reached(source, files, dir, path)
      ensures next == Added(inventory, DirYield(source, destination.files, dir, path, inventory.path))
      ensures refused == old(refused) + DirYield(source, destination.files, dir, path, inventory.path).refused
      ensures AllAtRest(source, old(destination.files), dir, path) ==> destination.files == old(destination.files)
      decreases dir, 1, 0
    {
      next := Added(inventory, NOTHING);
      if source.faults(path).Unread? {
        Refuse(path, Via(inventory.path));
        return;
      }
      if dir.cache {
        next := inventory.(pruned := inventory.pruned + [path]);
        return;
      }
      next := Children(path, dir, inventory);
    }

    method Children(path: Path, dir: Node, inventory: Inventory) returns (next: Inventory)
      requires Valid() && Look(source, path) == At(dir) && dir.Dir? && Proper(dir) && InTarget(path)
      requires source.faults(path).Fine? && !dir.cache
      modifies this`files, this`refused, destination
      ensures Kept() && ReachedUpTo(source, files, dir, |dir.children|, path)
      ensures var y := ChildrenYield(source, destination.files, dir, |dir.children|, path, inventory.path);
              next == Added(inventory, y) && refused == old(refused) + y.refused
      ensures AllAtRest(source, old(destination.files), dir, path) ==> destination.files == old(destination.files)
      decreases dir, 0, 1
    {
      next := Added(inventory, NOTHING);
      var i := 0;
      while i < |dir.children|
        invariant 0 <= i <= |dir.children| && Kept() && ReachedUpTo(source, files, dir, i, path)
        invariant var y := ChildrenYield(source, destination.files, dir, i, path, inventory.path);
                  next == Added(inventory, y) && refused == old(refused) + y.refused
        invariant AllAtRest(source, old(destination.files), dir, path) ==> destination.files == old(destination.files)
      {
        ghost var a := ChildrenYield(source, destination.files, dir, i, path, inventory.path);
        next := Child(path, dir, i, next);
        AddedThen(inventory, old(refused), a, ChildYield(source, destination.files, dir, i, path, inventory.path));
        i := i + 1;
      }
    }

    /** The next name of a directory. */
    method Child(path: Path, dir: Node, i: nat, inventory: Inventory) returns (next: Inventory)
      requires Valid() && Look(source, path) == At(dir) && dir.Dir? && Proper(dir) && InTarget(path)
      requires source.faults(path).Fine? && i < |dir.children| && ReachedUpTo(source, files, dir, i, path)
      modifies this`files, this`refused, destination
      ensures Kept() && ReachedUpTo(source, files, dir, i + 1, path)
      ensures ChildrenYield(source, destination.files, dir, i, path, inventory.path)
              == old(ChildrenYield(source, destination.files, dir, i, path, inventory.path))
      ensures var y := ChildYield(source, destination.files, dir, i, path, inventory.path);
              next == Added(inventory, y) && refused == old(refused) + y.refused
      ensures AllAtRest(source, old(destination.files), dir.children[i].node, path + [dir.children[i].name]) ==>
                destination.files == old(destination.files)
      decreases dir, 0, 0
    {
      var child := dir.children[i];
      ChildPlace(source, path, dir, i);
      ghost var before, was := destination.files, files;
      next := Visit(path + [child.name], child.node, inventory);
      WalkOn(source, before, destination.files, was, files, dir, i, path, inventory.path);
    }

    /** `cited_directory`, with its inventory written beside the preserved files. */
    method CitedDirectory(path: Path, dir: Node, encode: Inventory -> Bytes) returns (found: Found)
      requires Valid() && Look(source, path) == At(dir) && dir.Dir? && Proper(dir) && InTarget(path)
      requires !source.faults(path).Unopened?
      modifies this`files, this`refused, destination
      ensures Kept() && Reached(source, files, dir, path)
      ensures var a := DirAnswer(source, destination.files, dir, path, encode);
              found == a.found && refused == old(refused) + a.refused
      ensures AllAtRest(source, destination.files, dir, path)
      ensures Location(source, InventoryData(source, destination.files, dir, path, encode)) in destination.files
      ensures (&& AllAtRest(source, old(destination.files), dir, path)
               && Location(source, old(InventoryData(source, destination.files, dir, path, encode)))
                  in old(destination.files)) ==>
                destination.files == old(destination.files)
    {
      var inventory := Directory(path, dir, Inventory(path, [], []));
      ghost var walked := destination.files;
      var data := encode(inventory);
      var location := Location(source, data);
      OpKeeps(source.hash, 0, destination.files, Put(location, data));
      var out := destination.Write(source.hash, location, data);
      RecordedElsewhere(source, walked, destination.files, files, location);
      SameDir(source, walked, destination.files, files, dir, path);
      ReachedAtRest(source, destination.files, files, dir, path);
      if out.Differs? {
        Refuse(location, Via(path));
      }
      found := Entered(DirEntry(inventory));
    }

    /** `reference`: the entry of a cited path, its refusal, or nothing there. */
    method Reference(path: Path, encode: Inventory -> Bytes) returns (found: Found)
      requires Valid() && InTarget(path)
      modifies this`files, this`refused, destination
      ensures Kept() && CitedReached(source, files, path) && CitedAtRest(source, destination.files, path, encode)
      ensures var a := CitedAnswer(source, destination.files, path, encode);
              && found == a.found && refused == old(refused) + a.refused
              && Told(source, destination.files, path, a)
      ensures CitedAtRest(source, old(destination.files), path, encode) ==>
                destination.files == old(destination.files)
    {
      var place := Look(source, path);
      if place.At? && place.node.Dir? && !source.faults(path).Unopened? {
        PlaceProper(source.faults, source.root, [], path);
        found := CitedDirectory(path, place.node, encode);
      } else if place.Gone? {
        found := Absent;
      } else {
        var kept := None;
        if place.At? && !place.node.Dir? {
          kept := File(path, place.node);
        }
        if kept.Some? {
          found := Entered(FileEntry(kept.value));
        } else {
          Refuse(path, Cited);
          found := Denied;
        }
      }
      AnswerTold(source, destination.files, path, encode);
    }
  }

  function ChildYield(s: Source, store: Store, dir: Node, i: nat, path: Path, via: Path): Yield
    requires dir.Dir? && i < |dir.children|
  {
    VisitYield(s, store, dir.children[i].node, path + [dir.children[i].name], via)
  }

  lemma AddedThen(inventory: Inventory, refused: seq<Refusal>, a: Yield, b: Yield)
    ensures Added(Added(inventory, a), b) == Added(inventory, Then(a, b))
    ensures refused + a.refused + b.refused == refused + Then(a, b).refused
  {
  }

  /** One more name: the names before it give what they gave. */
  lemma WalkOn(s: Source, a: Store, b: Store, was: Files, files: Files, dir: Node, i: nat, path: Path, via: Path)
    requires AllRecorded(s, a, was) && AllRecorded(s, b, files) && Grown(was, files)
    requires dir.Dir? && i < |dir.children| && ReachedUpTo(s, was, dir, i, path)
    requires Reached(s, files, dir.children[i].node, path + [dir.children[i].name])
    ensures ChildrenYield(s, b, dir, i, path, via) == ChildrenYield(s, a, dir, i, path, via)
    ensures ReachedUpTo(s, files, dir, i + 1, path)
  {
    forall j | 0 <= j < i
      ensures Reached(s, files, dir.children[j].node, path + [dir.children[j].name])
    {
      ReachedLater(s, was, files, dir.children[j].node, path + [dir.children[j].name]);
    }
    assert AllRecorded(s, b, was);
    SameChildren(s, a, b, was, dir, i, path, via);
  }
}
