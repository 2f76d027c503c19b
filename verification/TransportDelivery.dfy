/** A tree carried from one host to another: `produce` on the native side, `check_archive` with an
    output directory on the other. */
module TransportDelivery {
  import opened Basics
  import opened TransportTree
  import opened TransportManifest
  import opened TransportArchive
  import opened TransportRead
  import opened TransportWrite
  import opened TransportPack
  import TransportCensus
  import TransportRestore

  /** The manifest `produce` writes for a tree. */
  ghost function ManifestOf(t: Tools, rootMode: nat, tree: Tree, max: nat, success: bool): Manifest {
    CensusManifest(t.hash, rootMode, tree, Total(FilesIn(t.hash, tree, tree.Keys)), max, success)
  }

  ghost function DataOf(t: Tools, rootMode: nat, tree: Tree, max: nat, success: bool): Bytes {
    t.encode(ManifestOf(t, rootMode, tree, max, success))
  }

  /** Within the limits of the census and of the manifest. */
  ghost predicate Carried(t: Tools, rootMode: nat, tree: Tree, max: nat, success: bool) {
    && Within(t.hash, rootMode, tree, max, success)
    && var length := |DataOf(t, rootMode, tree, max, success)|;
       length <= MAX_JSON_BYTES && Total(FilesIn(t.hash, tree, tree.Keys)) + length <= max
  }

  /** The least whole number of records that holds the tree's archive. */
  ghost function SizeOf(t: Tools, rootMode: nat, tree: Tree, max: nat, success: bool): nat
    requires Faithful(t) && IsTree(tree) && Carried(t, rootMode, tree, max, success)
  {
    var m := ManifestOf(t, rootMode, tree, max, success);
    FaithfulLists(t, m);
    RecordSize(End(t, AllMembers(t, DataOf(t, rootMode, tree, max, success), m, tree)))
  }

  /** Python's `sorted` with the depth first in the key. */
  ghost predicate Sorts(byDepth: set<Path> -> seq<Path>) {
    forall s :: TransportRestore.Lists(byDepth(s), s) && TransportRestore.ByDepth(byDepth(s))
  }

  lemma ReadsAll(hash: Bytes -> string, m: Manifest, tree: Tree)
    requires m.inventory.files == FilesIn(hash, tree, tree.Keys)
    ensures HasFiles(m, tree) && Read(m, tree) == ContentsOf(tree)
  {
  }

  lemma CarriedPublishable(t: Tools, rootMode: nat, tree: Tree, max: nat, success: bool)
    requires Faithful(t) && IsTree(tree) && Carried(t, rootMode, tree, max, success)
    ensures var m := ManifestOf(t, rootMode, tree, max, success);
            && Publishable(t, tree, DataOf(t, rootMode, tree, max, success), max, m)
            && Read(m, tree) == ContentsOf(tree) && TreeOf(m, ContentsOf(tree)) == tree
  {
    var m := ManifestOf(t, rootMode, tree, max, success);
    var data := DataOf(t, rootMode, tree, max, success);
    CensusValid(t.hash, rootMode, tree, max, Total(FilesIn(t.hash, tree, tree.Keys)), success, |data|);
    ReadsAll(t.hash, m, tree);
  }

  /** `produce` up to the archive. */
  method Produce(t: Tools, rootMode: nat, tree: Tree, max: nat, success: bool) returns (r: Packed, data: Bytes)
    requires Faithful(t) && IsTree(tree)
    ensures r.Refused? <==> !Carried(t, rootMode, tree, max, success)
    ensures Carried(t, rootMode, tree, max, success) ==> data == DataOf(t, rootMode, tree, max, success)
    ensures Carried(t, rootMode, tree, max, success) ==>
              && (r.TooLarge? ==> SizeOf(t, rootMode, tree, max, success) > max)
              && (SizeOf(t, rootMode, tree, max, success) > max ==> !r.Done?)
    ensures r.Done? ==>
              Accepted(t, r.archive, t.hash(data), max, ManifestOf(t, rootMode, tree, max, success), ContentsOf(tree))
  {
    data := [];
    var observed := TransportCensus.Census(t.hash, rootMode, tree, max, success);
    if observed.None? {
      return Refused, data;
    }
    var m := Manifest(success, observed.value, max);
    data := t.encode(m);
    if |data| > MAX_JSON_BYTES {
      return Refused, data;
    }
    var valid := Validate(m, |data|);
    if !valid {
      if Carried(t, rootMode, tree, max, success) {
        CarriedPublishable(t, rootMode, tree, max, success);
      }
      return Refused, data;
    }
    CarriedPublishable(t, rootMode, tree, max, success);
    var output;
    r, output := ArchiveWrite(t, tree, data, max);
  }

  /** The whole way: a tree within the limits arrives exactly as it was, unless its archive is over
      the byte cap or a write fails. */
  method Deliver(t: Tools, rootMode: nat, tree: Tree, max: nat, success: bool, byDepth: set<Path> -> seq<Path>)
      returns (r: Packed, restored: Option<Tree>)
    requires Faithful(t) && IsTree(tree) && Sorts(byDepth)
    ensures r.Refused? <==> !Carried(t, rootMode, tree, max, success)
    ensures Carried(t, rootMode, tree, max, success) ==>
              && (r.TooLarge? ==> SizeOf(t, rootMode, tree, max, success) > max)
              && (SizeOf(t, rootMode, tree, max, success) > max ==> !r.Done?)
    ensures restored == if r.Done? then Some(tree) else None
  {
    var data;
    r, data := Produce(t, rootMode, tree, max, success);
    restored := None;
    if r.Done? {
      CarriedPublishable(t, rootMode, tree, max, success);
      var found := CheckArchive(t, r.archive, t.hash(data), max);
      var m, contents := found.value.0, found.value.1;
      AcceptedOnce(t, r.archive, t.hash(data), max, m, contents,
                   ManifestOf(t, rootMode, tree, max, success), ContentsOf(tree));
      restored := TransportRestore.Restore(m, |data|, contents, byDepth(m.inventory.directories.Keys), Files(t, m));
    }
  }
}
