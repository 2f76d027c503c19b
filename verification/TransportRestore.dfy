/** Restoring an accepted archive: directories by depth, then files, then modes. */
module TransportRestore {
  import opened Basics
  import opened TransportTree
  import opened TransportManifest

  const PRIVATE := 0x1C0

  /** `mkdir`: fails when the path is there or its directory is not. */
  function Mkdir(tree: Tree, p: Path): Option<Tree> {
    if p == [] || p in tree || !(Parent(p) == [] || (Parent(p) in tree && tree[Parent(p)].Dir?)) then None
    else Some(tree[p := Dir(PRIVATE)])
  }

  /** Exclusive creation of a file, likewise. */
  function Create(tree: Tree, p: Path, data: Bytes, mode: nat): Option<Tree> {
    if p == [] || p in tree || !(Parent(p) == [] || (Parent(p) in tree && tree[Parent(p)].Dir?)) then None
    else Some(tree[p := File(data, mode)])
  }

  /** Sorted by depth, then by anything. */
  predicate ByDepth(list: seq<Path>) {
    forall i, j :: 0 <= i < j < |list| ==> |list[i]| <= |list[j]|
  }

  ghost predicate Lists(list: seq<Path>, keys: set<Path>) {
    && (forall p :: p in list <==> p in keys)
    && (forall i, j :: 0 <= i < j < |list| ==> list[i] != list[j])
  }

  function MadeDirs(list: seq<Path>): Tree {
    map p | p in list :: Dir(PRIVATE)
  }

  /** In depth order every parent has been made by its turn. */
  lemma ParentMade(m: Manifest, length: nat, list: seq<Path>, i: nat)
    requires Valid(m, length) && Lists(list, m.inventory.directories.Keys) && ByDepth(list) && i < |list|
    ensures Mkdir(MadeDirs(list[..i]), list[i]) == Some(MadeDirs(list[..i + 1]))
  {
    var p := list[i];
    assert p in list;
    assert GoodDirectory(m.inventory.directories, p, m.inventory.directories[p]);
    if |p| > 1 {
      assert p[..|p| - 1] in m.inventory.directories;
      Earlier(list, i, Parent(p));
    }
    MadeMore(list, i);
  }

  lemma Earlier(list: seq<Path>, i: nat, q: Path)
    requires ByDepth(list) && i < |list| && q in list && |q| < |list[i]|
    ensures q in MadeDirs(list[..i])
  {
    var j :| 0 <= j < |list| && list[j] == q;
    assert j < i;
    assert list[..i][j] == q;
  }

  lemma MadeMore(list: seq<Path>, i: nat)
    requires i < |list| && forall i, j :: 0 <= i < j < |list| ==> list[i] != list[j]
    ensures list[i] !in MadeDirs(list[..i])
    ensures MadeDirs(list[..i + 1]) == MadeDirs(list[..i])[list[i] := Dir(PRIVATE)]
  {
    assert list[..i + 1] == list[..i] + [list[i]];
  }

  method MakeDirectories(m: Manifest, ghost length: nat, list: seq<Path>) returns (r: Option<Tree>)
    requires Valid(m, length) && Lists(list, m.inventory.directories.Keys) && ByDepth(list)
    ensures r == Some(MadeDirs(list))
  {
    var tree: Tree := map[];
    for i := 0 to |list|
      invariant tree == MadeDirs(list[..i])
    {
      ParentMade(m, length, list, i);
      var next := Mkdir(tree, list[i]);
      if next.None? {
        return None;
      }
      tree := next.value;
    }
    assert list[..|list|] == list;
    r := Some(tree);
  }

  /** The directories, and the first files of a list. */
  function MadeFiles(m: Manifest, contents: Contents, dirs: set<Path>, list: seq<Path>): Tree
    requires forall p :: p in list ==> p in m.inventory.files && p in contents
  {
    map p | p in dirs + (set q | q in list) ::
      if p in dirs then Dir(PRIVATE) else File(contents[p], m.inventory.files[p].mode)
  }

  lemma FileMade(m: Manifest, length: nat, contents: Contents, list: seq<Path>, i: nat)
    requires Valid(m, length) && contents.Keys == m.inventory.files.Keys
    requires Lists(list, m.inventory.files.Keys) && i < |list|
    ensures var dirs := m.inventory.directories.Keys;
            Create(MadeFiles(m, contents, dirs, list[..i]), list[i], contents[list[i]], m.inventory.files[list[i]].mode)
            == Some(MadeFiles(m, contents, dirs, list[..i + 1]))
  {
    var p, dirs := list[i], m.inventory.directories.Keys;
    assert p in list;
    assert GoodFile(m.inventory.directories, p, m.inventory.files[p]);
    if |p| > 1 {
      assert p[..|p| - 1] in m.inventory.directories;
    }
    FilesMore(m, contents, dirs, list, i);
  }

  lemma FilesMore(m: Manifest, contents: Contents, dirs: set<Path>, list: seq<Path>, i: nat)
    requires forall p :: p in list ==> p in m.inventory.files && p in contents
    requires i < |list| && list[i] !in dirs && forall i, j :: 0 <= i < j < |list| ==> list[i] != list[j]
    ensures list[i] !in MadeFiles(m, contents, dirs, list[..i])
    ensures MadeFiles(m, contents, dirs, list[..i + 1])
         == MadeFiles(m, contents, dirs, list[..i])[list[i] := File(contents[list[i]], m.inventory.files[list[i]].mode)]
  {
    assert list[..i + 1] == list[..i] + [list[i]];
  }

  method WriteFiles(m: Manifest, ghost length: nat, contents: Contents, list: seq<Path>, start: Tree)
      returns (r: Option<Tree>)
    requires Valid(m, length) && contents.Keys == m.inventory.files.Keys && Lists(list, m.inventory.files.Keys)
    requires start == MadeFiles(m, contents, m.inventory.directories.Keys, [])
    ensures r == Some(MadeFiles(m, contents, m.inventory.directories.Keys, list))
  {
    var tree := start;
    assert list[..0] == [];
    for i := 0 to |list|
      invariant tree == MadeFiles(m, contents, m.inventory.directories.Keys, list[..i])
    {
      FileMade(m, length, contents, list, i);
      var next := Create(tree, list[i], contents[list[i]], m.inventory.files[list[i]].mode);
      if next.None? {
        return None;
      }
      tree := next.value;
    }
    assert list[..|list|] == list;
    r := Some(tree);
  }

  /** The last pass gives every directory its own mode, deepest first or in any order. */
  method Chmod(m: Manifest, list: seq<Path>, start: Tree) returns (tree: Tree)
    requires Lists(list, m.inventory.directories.Keys)
    requires forall p :: p in list ==> p in start && start[p].Dir?
    ensures tree == map p | p in start ::
              if p in m.inventory.directories then Dir(m.inventory.directories[p]) else start[p]
  {
    tree := start;
    for i := 0 to |list|
      invariant tree.Keys == start.Keys
      invariant forall p :: p in start ==>
                  tree[p] == if p in list[..i] then Dir(m.inventory.directories[p]) else start[p]
    {
      assert list[..i + 1] == list[..i] + [list[i]];
      assert list[i] in list;
      tree := tree[list[i] := Dir(m.inventory.directories[list[i]])];
    }
    assert list[..|list|] == list;
  }

  /** Restoring an accepted archive never finds a parent missing or a path taken, and leaves exactly
      the tree its manifest describes. */
  method Restore(m: Manifest, ghost length: nat, contents: Contents, deep: seq<Path>, list: seq<Path>)
      returns (r: Option<Tree>)
    requires Valid(m, length) && contents.Keys == m.inventory.files.Keys
    requires Lists(deep, m.inventory.directories.Keys) && ByDepth(deep) && Lists(list, m.inventory.files.Keys)
    ensures r == Some(TreeOf(m, contents))
  {
    var made := MakeDirectories(m, length, deep);
    NoFilesYet(m, contents, deep);
    var filled := WriteFiles(m, length, contents, list, made.value);
    var tree := Chmod(m, deep, filled.value);
    Finished(m, contents, list);
    r := Some(tree);
  }

  lemma NoFilesYet(m: Manifest, contents: Contents, deep: seq<Path>)
    requires Lists(deep, m.inventory.directories.Keys)
    ensures MadeDirs(deep) == MadeFiles(m, contents, m.inventory.directories.Keys, [])
  {
  }

  lemma Finished(m: Manifest, contents: Contents, list: seq<Path>)
    requires contents.Keys == m.inventory.files.Keys && Lists(list, m.inventory.files.Keys)
    ensures var start := MadeFiles(m, contents, m.inventory.directories.Keys, list);
            TreeOf(m, contents) == map p | p in start ::
                if p in m.inventory.directories then Dir(m.inventory.directories[p]) else start[p]
  {
    assert (set q | q in list) == m.inventory.files.Keys;
  }
}
