/** The transport manifest: what `validate_manifest` accepts, and the tree it describes. */
module TransportManifest {
  import opened Basics
  import opened TransportTree

  /** A passed assembly, or the inventory of a failed or interrupted one. */
  datatype Manifest = Manifest(success: bool, inventory: Inventory, max: nat)

  /** Every directory on the way to a path is in the roster. */
  predicate Housed(directories: map<Path, nat>, p: Path) {
    forall k :: 0 < k < |p| ==> p[..k] in directories
  }

  predicate GoodDirectory(directories: map<Path, nat>, p: Path, mode: nat) {
    GoodPath(p) && DirMode(mode) && Housed(directories, p)
  }

  predicate GoodFile(directories: map<Path, nat>, p: Path, id: FileId) {
    GoodPath(p) && FileMode(id.mode) && Digest(id.sha256) && id.bytes < WORD && Housed(directories, p)
  }

  predicate GoodDirectories(directories: map<Path, nat>) {
    forall p :: p in directories ==> GoodDirectory(directories, p, directories[p])
  }

  predicate GoodFiles(inv: Inventory) {
    forall p :: p in inv.files ==> GoodFile(inv.directories, p, inv.files[p])
  }

  predicate Rosters(inv: Inventory) {
    GoodDirectories(inv.directories) && GoodFiles(inv) && inv.directories.Keys !! inv.files.Keys
  }

  predicate Counted(m: Manifest) {
    var inv := m.inventory;
    && |inv.files| <= MAX_FILES && |inv.directories| <= MAX_DIRECTORIES
    && inv.fileCount == |inv.files| && inv.directoryCount == |inv.directories|
    && (inv.files != map[] || !m.success)
    && (m.success ==> Receipts(inv.files) && ["assembly"] in inv.directories)
  }

  /** `validate_manifest` on the decoded manifest, whose bytes had this length. */
  ghost predicate Valid(m: Manifest, length: nat) {
    && 1 <= m.max < WORD && DirMode(m.inventory.rootMode)
    && Rosters(m.inventory) && Counted(m)
    && m.inventory.total == Total(m.inventory.files) && m.inventory.total + length <= m.max
  }

  method ParentsListed(directories: map<Path, nat>, p: Path) returns (ok: bool)
    ensures ok <==> Housed(directories, p)
  {
    var k := |p| - 1;
    while k > 0
      invariant forall j :: k < j < |p| && 0 < j ==> p[..j] in directories
    {
      if p[..k] !in directories {
        return false;
      }
      k := k - 1;
    }
    ok := true;
  }

  /** The loops of `validate_manifest`, each roster in any order. */
  method Validate(m: Manifest, length: nat) returns (ok: bool)
    ensures ok <==> Valid(m, length)
  {
    var inv := m.inventory;
    NoneShared(inv.directories.Keys, inv.files.Keys);
    if !(1 <= m.max < WORD && DirMode(inv.rootMode)) || inv.directories.Keys * inv.files.Keys != {} || !Counted(m) {
      return false;
    }
    var named := NamedDirectories(inv.directories);
    if !named {
      return false;
    }
    var total := SumFiles(m);
    if total.None? || inv.total != total.value || total.value + length > m.max {
      return false;
    }
    ok := true;
  }

  lemma NoneShared(a: set<Path>, b: set<Path>)
    ensures a * b == {} <==> a !! b
  {
    if a !! b {
      assert a * b == {};
    } else {
      var p :| p in a && p in b;
      assert p in a * b;
    }
  }

  method NamedDirectories(directories: map<Path, nat>) returns (ok: bool)
    ensures ok <==> GoodDirectories(directories)
  {
    var left := directories.Keys;
    while left != {}
      invariant left <= directories.Keys
      invariant forall p :: p in directories && p !in left ==> GoodDirectory(directories, p, directories[p])
    {
      var p :| p in left;
      var housed := ParentsListed(directories, p);
      if !GoodPath(p) || !DirMode(directories[p]) || !housed {
        return false;
      }
      left := left - {p};
    }
    ok := true;
  }

  /** The running total may stop early, and then the whole total is over the limit too. */
  method SumFiles(m: Manifest) returns (total: Option<nat>)
    ensures total.Some? ==> total.value == Total(m.inventory.files) <= m.max
    ensures total.Some? <==> GoodFiles(m.inventory) && Total(m.inventory.files) <= m.max
  {
    var files := m.inventory.files;
    var left := files.Keys;
    var sum := 0;
    assert files - left == map[];
    while left != {}
      invariant left <= files.Keys && sum == Total(files - left) <= m.max
      invariant forall p :: p in files && p !in left ==> GoodFile(m.inventory.directories, p, files[p])
    {
      var p :| p in left;
      var id := files[p];
      TakeFile(files, left, p);
      var housed := ParentsListed(m.inventory.directories, p);
      if !GoodPath(p) || !FileMode(id.mode) || !Digest(id.sha256) || id.bytes >= WORD || !housed {
        return None;
      }
      sum := sum + id.bytes;
      left := left - {p};
      if sum > m.max {
        TotalGrows(files - left, files);
        return None;
      }
    }
    assert files - left == files;
    total := Some(sum);
  }

  lemma TakeFile(files: map<Path, FileId>, left: set<Path>, p: Path)
    requires p in left && left <= files.Keys
    ensures Total(files - (left - {p})) == Total(files - left) + files[p].bytes
  {
    assert files - (left - {p}) == (files - left)[p := files[p]];
    TotalAdd(files - left, p, files[p]);
  }

  // -------------------------------------------------------------------- tree

  lemma HousedPrefix(directories: map<Path, nat>, p: Path, q: Path)
    requires Housed(directories, p) && q != []
    ensures q < p ==> q in directories
  {
    if q < p {
      assert p[..|q|] == q;
    }
  }

  /** No file stands where a directory must. */
  lemma NoFileAbove(m: Manifest, length: nat, f: Path, p: Path)
    requires Valid(m, length) && f in m.inventory.files
    requires p in m.inventory.files || p in m.inventory.directories
    ensures !(f < p)
  {
    var inv := m.inventory;
    assert GoodFile(inv.directories, f, inv.files[f]);
    assert if p in inv.directories then GoodDirectory(inv.directories, p, inv.directories[p])
           else GoodFile(inv.directories, p, inv.files[p]);
    HousedPrefix(inv.directories, p, f);
  }

  type Contents = map<Path, Bytes>

  /** Bytes for exactly the listed files, each as long as listed and with the listed digest. */
  predicate Matches(hash: Bytes -> string, m: Manifest, contents: Contents) {
    && contents.Keys == m.inventory.files.Keys
    && forall p :: p in contents ==>
         |contents[p]| == m.inventory.files[p].bytes && hash(contents[p]) == m.inventory.files[p].sha256
  }

  /** The tree a manifest and its files' bytes make. */
  function TreeOf(m: Manifest, contents: Contents): (tree: Tree)
    requires contents.Keys == m.inventory.files.Keys
  {
    var inv := m.inventory;
    map p | p in inv.directories.Keys + inv.files.Keys ::
      if p in inv.directories then Dir(inv.directories[p]) else File(contents[p], inv.files[p].mode)
  }

  /** An accepted manifest describes a tree, and the tree's census gives the manifest back. */
  lemma DescribesTree(hash: Bytes -> string, m: Manifest, length: nat, contents: Contents)
    requires Valid(m, length) && Matches(hash, m, contents)
    ensures IsTree(TreeOf(m, contents))
    ensures InventoryOf(hash, m.inventory.rootMode, TreeOf(m, contents), m.inventory.total) == m.inventory
    ensures forall max :: m.inventory.total <= max < WORD && max > 0 ==>
              Within(hash, m.inventory.rootMode, TreeOf(m, contents), max, m.success)
  {
    var tree := TreeOf(m, contents);
    TreeParents(m, length, contents);
    RostersBack(hash, m, length, contents);
    forall p | p in tree
      ensures Allowed(p, tree[p])
    {
      if p in m.inventory.directories {
        assert GoodDirectory(m.inventory.directories, p, m.inventory.directories[p]);
      } else {
        assert GoodFile(m.inventory.directories, p, m.inventory.files[p]);
      }
    }
  }

  lemma TreeParents(m: Manifest, length: nat, contents: Contents)
    requires Valid(m, length) && contents.Keys == m.inventory.files.Keys
    ensures IsTree(TreeOf(m, contents))
  {
    var inv := m.inventory;
    var tree := TreeOf(m, contents);
    forall p | p in tree
      ensures p != [] && (Parent(p) == [] || (Parent(p) in tree && tree[Parent(p)].Dir?))
    {
      assert if p in inv.directories then GoodDirectory(inv.directories, p, inv.directories[p])
             else GoodFile(inv.directories, p, inv.files[p]);
      if |p| > 1 {
        assert p[..|p| - 1] in inv.directories;
      }
    }
  }

  lemma DirsBack(m: Manifest, contents: Contents)
    requires contents.Keys == m.inventory.files.Keys
    ensures DirsIn(TreeOf(m, contents), TreeOf(m, contents).Keys) == m.inventory.directories
  {
    var tree := TreeOf(m, contents);
    assert DirsIn(tree, tree.Keys).Keys == m.inventory.directories.Keys;
  }

  lemma FilesBack(hash: Bytes -> string, m: Manifest, contents: Contents)
    requires m.inventory.directories.Keys !! m.inventory.files.Keys && Matches(hash, m, contents)
    ensures FilesIn(hash, TreeOf(m, contents), TreeOf(m, contents).Keys) == m.inventory.files
  {
    var tree, inv := TreeOf(m, contents), m.inventory;
    var files := FilesIn(hash, tree, tree.Keys);
    assert files.Keys == inv.files.Keys;
    forall p | p in inv.files
      ensures files[p] == inv.files[p]
    {
      assert tree[p] == File(contents[p], inv.files[p].mode);
    }
  }

  lemma RostersBack(hash: Bytes -> string, m: Manifest, length: nat, contents: Contents)
    requires Valid(m, length) && Matches(hash, m, contents)
    ensures DirsIn(TreeOf(m, contents), TreeOf(m, contents).Keys) == m.inventory.directories
    ensures FilesIn(hash, TreeOf(m, contents), TreeOf(m, contents).Keys) == m.inventory.files
  {
    DirsBack(m, contents);
    FilesBack(hash, m, contents);
  }

  // --------------------------------------------------------- from a census

  function ContentsOf(tree: Tree): Contents {
    map p | p in tree && tree[p].File? :: tree[p].data
  }

  /** Every node of a tree is housed by the directories above it. */
  lemma {:induction false} TreeHoused(tree: Tree, p: Path)
    requires IsTree(tree) && p in tree
    ensures Housed(DirsIn(tree, tree.Keys), p)
    decreases |p|
  {
    if |p| > 1 {
      var q := Parent(p);
      TreeHoused(tree, q);
      forall k | 0 < k < |p|
        ensures p[..k] in DirsIn(tree, tree.Keys)
      {
        if k < |q| {
          assert p[..k] == q[..k];
        } else {
          assert p[..k] == q;
        }
      }
    }
  }

  lemma FileWithin(files: map<Path, FileId>, p: Path)
    requires p in files
    ensures files[p].bytes <= Total(files)
  {
    TotalRemove(files, p);
  }

  function CensusManifest(hash: Bytes -> string, rootMode: nat, tree: Tree, total: nat, max: nat,
                          success: bool): Manifest {
    Manifest(success, InventoryOf(hash, rootMode, tree, total), max)
  }

  lemma CensusRosters(hash: Bytes -> string, rootMode: nat, tree: Tree, max: nat, total: nat)
    requires IsTree(tree) && max < WORD && Fits(hash, tree, max) && forall d: Bytes :: Digest(hash(d))
    ensures Rosters(InventoryOf(hash, rootMode, tree, total))
  {
    var inv := InventoryOf(hash, rootMode, tree, total);
    forall p | p in inv.directories
      ensures GoodDirectory(inv.directories, p, inv.directories[p])
    {
      TreeHoused(tree, p);
      assert Allowed(p, tree[p]);
    }
    forall p | p in inv.files
      ensures GoodFile(inv.directories, p, inv.files[p])
    {
      TreeHoused(tree, p);
      assert Allowed(p, tree[p]);
      FileWithin(inv.files, p);
    }
  }

  lemma ReceiptsHoused(inv: Inventory)
    requires Rosters(inv) && Receipts(inv.files)
    ensures ["assembly"] in inv.directories
  {
    var p := ["assembly", "attempt.json"];
    assert GoodFile(inv.directories, p, inv.files[p]);
    assert p[..1] == ["assembly"];
  }

  lemma CensusMatches(hash: Bytes -> string, m: Manifest, tree: Tree)
    requires m.inventory.files == FilesIn(hash, tree, tree.Keys)
    ensures Matches(hash, m, ContentsOf(tree))
  {
  }

  lemma CensusTree(hash: Bytes -> string, m: Manifest, tree: Tree)
    requires m.inventory.files == FilesIn(hash, tree, tree.Keys) && m.inventory.directories == DirsIn(tree, tree.Keys)
    requires ContentsOf(tree).Keys == m.inventory.files.Keys
    requires forall p :: p in tree ==> Allowed(p, tree[p])
    ensures TreeOf(m, ContentsOf(tree)) == tree
  {
    var made := TreeOf(m, ContentsOf(tree));
    forall p | p in tree
      ensures p in made && made[p] == tree[p]
    {
      assert Allowed(p, tree[p]);
    }
    assert made.Keys == tree.Keys;
  }

  lemma CensusDescribes(hash: Bytes -> string, rootMode: nat, tree: Tree, max: nat, total: nat, success: bool)
    requires Fits(hash, tree, max)
    ensures var m := CensusManifest(hash, rootMode, tree, total, max, success);
            Matches(hash, m, ContentsOf(tree)) && TreeOf(m, ContentsOf(tree)) == tree
  {
    var m := CensusManifest(hash, rootMode, tree, total, max, success);
    CensusMatches(hash, m, tree);
    CensusTree(hash, m, tree);
  }

  /** The census of a tree is a manifest that validation accepts, and that describes that tree. */
  lemma CensusValid(hash: Bytes -> string, rootMode: nat, tree: Tree, max: nat, total: nat, success: bool, length: nat)
    requires IsTree(tree) && Within(hash, rootMode, tree, max, success)
    requires forall d: Bytes :: Digest(hash(d))
    requires total == Total(FilesIn(hash, tree, tree.Keys)) && total + length <= max
    ensures var m := CensusManifest(hash, rootMode, tree, total, max, success);
            Valid(m, length) && Matches(hash, m, ContentsOf(tree)) && TreeOf(m, ContentsOf(tree)) == tree
  {
    CensusRosters(hash, rootMode, tree, max, total);
    CensusDescribes(hash, rootMode, tree, max, total, success);
    var inv := InventoryOf(hash, rootMode, tree, total);
    if success {
      ReceiptsHoused(inv);
    }
  }
}
