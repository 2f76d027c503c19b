/** The assembly tree and its inventory, as `census` takes it with a stack and any scan order. */
module TransportTree {
  import opened Basics
  import Text

  /** Names from the root down. The root itself is the empty path. */
  type Path = seq<string>

  datatype Node =
    | Dir(mode: nat)
    | File(data: Bytes, mode: nat)
    | Special

  type Tree = map<Path, Node>

  datatype FileId = FileId(sha256: string, bytes: nat, mode: nat)

  datatype Inventory = Inventory(rootMode: nat, directories: map<Path, nat>, files: map<Path, FileId>,
                                 fileCount: nat, directoryCount: nat, total: nat)

  const MAX_FILES := 200000
  const MAX_DIRECTORIES := 200000
  const MAX_PATH_BYTES := 4096
  const MAX_DEPTH := 64

  function Parent(p: Path): Path
    requires p != []
  {
    p[..|p| - 1]
  }

  /** What a file system holds: nothing without its directory. */
  predicate IsTree(tree: Tree) {
    forall p :: p in tree ==> p != [] && (Parent(p) == [] || (Parent(p) in tree && tree[Parent(p)].Dir?))
  }

  function Name(p: Path): string
    requires p != []
  {
    Text.Join(p, '/')
  }

  /** Length in UTF-8. */
  function Utf8(s: string): nat {
    if s == [] then 0
    else
      var c := s[0] as int;
      Utf8(s[1..]) + (if c < 0x80 then 1 else if c < 0x800 then 2 else if c < 0x10000 then 3 else 4)
  }

  /** One byte for seven bits, two for eleven, three for sixteen, four for the rest. */
  lemma Utf8Exactly(c: char)
    ensures Utf8([c]) <= 1 <==> c as int <= 0x7F
    ensures Utf8([c]) <= 2 <==> c as int <= 0x7FF
    ensures Utf8([c]) <= 3 <==> c as int <= 0xFFFF
    ensures 1 <= Utf8([c]) <= 4
  {
    assert Utf8([c][1..]) == 0;
  }

  /** Bytes and characters agree exactly on ASCII. */
  lemma {:induction false} Utf8Ascii(s: string)
    ensures Utf8(s) >= |s|
    ensures Utf8(s) == |s| <==> forall i :: 0 <= i < |s| ==> s[i] as int <= 0x7F
  {
    if s != [] {
      Utf8Ascii(s[1..]);
      assert forall i :: 1 <= i < |s| ==> s[1..][i - 1] == s[i];
    }
  }

  predicate Part(name: string) {
    name != [] && name != "." && name != ".." && '/' !in name && '\\' !in name
  }

  predicate GoodPath(p: Path) {
    && p != [] && |p| <= MAX_DEPTH
    && (forall i :: 0 <= i < |p| ==> Part(p[i]))
    && Utf8(Name(p)) <= MAX_PATH_BYTES
  }

  /** A directory's owner may do everything, a file's may read. */
  lemma ModesExactly(mode: nat)
    ensures DirMode(mode) <==> mode / 0x40 == 7
    ensures FileMode(mode) <==> mode / 0x100 == 1
  {
  }

  lemma {:induction false} JoinedHas(parts: seq<string>, c: char, x: char)
    requires parts != [] && x != c
    ensures x in Text.Join(parts, c) <==> exists i :: 0 <= i < |parts| && x in parts[i]
  {
    if |parts| > 1 {
      JoinedHas(parts[1..], c, x);
      if x in Text.Join(parts[1..], c) {
        var i :| 0 <= i < |parts[1..]| && x in parts[1..][i];
        assert x in parts[i + 1];
      }
      if i :| 0 <= i < |parts| && x in parts[i] {
        assert i > 0 ==> x in parts[1..][i - 1];
      }
    }
  }

  /** A good path, told by its name: relative, normalised, split at its slashes into at most 64 parts, without a
      backslash and at most 4096 bytes long. */
  lemma GoodPathExactly(p: Path)
    requires p != []
    ensures GoodPath(p) <==>
              && Text.Split(Name(p), '/') == p && |p| <= 64 && Utf8(Name(p)) <= 4096 && '\\' !in Name(p)
              && forall i :: 0 <= i < |p| ==> |p[i]| > 0 && p[i] != "." && p[i] != ".."
  {
    JoinedHas(p, '/', '\\');
    if forall i :: 0 <= i < |p| ==> '/' !in p[i] {
      Text.SplitJoin(p, '/');
    }
    if Text.Split(Name(p), '/') == p {
      Text.SplitParts(Name(p), '/');
    }
  }

  /** Permission bits only, and all of the owner's. */
  predicate DirMode(mode: nat) {
    0x1C0 <= mode <= 0x1FF
  }

  /** Permission bits only, and readable by the owner. */
  predicate FileMode(mode: nat) {
    0x100 <= mode <= 0x1FF
  }

  predicate Allowed(p: Path, node: Node) {
    && GoodPath(p)
    && match node
       case Dir(mode) => DirMode(mode)
       case File(_, mode) => FileMode(mode)
       case Special => false
  }

  function DirsIn(tree: Tree, seen: set<Path>): map<Path, nat> {
    map p | p in seen && p in tree && tree[p].Dir? :: tree[p].mode
  }

  function FilesIn(hash: Bytes -> string, tree: Tree, seen: set<Path>): map<Path, FileId> {
    map p | p in seen && p in tree && tree[p].File? :: FileId(hash(tree[p].data), |tree[p].data|, tree[p].mode)
  }

  ghost function Total(files: map<Path, FileId>): nat
    decreases |files|
  {
    if files == map[] then 0
    else
      var p :| p in files;
      Total(files - {p}) + files[p].bytes
  }

  lemma {:induction false} TotalRemove(files: map<Path, FileId>, p: Path)
    requires p in files
    ensures Total(files) == Total(files - {p}) + files[p].bytes
    decreases |files|
  {
    var q :| q in files && Total(files) == Total(files - {q}) + files[q].bytes;
    if q != p {
      TotalRemove(files - {q}, p);
      TotalRemove(files - {p}, q);
      assert files - {q} - {p} == files - {p} - {q};
    }
  }

  lemma TotalAdd(files: map<Path, FileId>, p: Path, id: FileId)
    requires p !in files
    ensures Total(files[p := id]) == Total(files) + id.bytes
  {
    TotalRemove(files[p := id], p);
    assert files[p := id] - {p} == files;
  }

  /** Totals and counts only grow with what they count. */
  lemma {:induction false} TotalGrows(less: map<Path, FileId>, more: map<Path, FileId>)
    requires forall p :: p in less ==> p in more && more[p] == less[p]
    ensures Total(less) <= Total(more) && |less| <= |more|
    decreases |less|
  {
    if less != map[] {
      var p :| p in less;
      TotalRemove(less, p);
      TotalRemove(more, p);
      TotalGrows(less - {p}, more - {p});
    }
  }

  lemma {:induction false} CountGrows(less: map<Path, nat>, more: map<Path, nat>)
    requires forall p :: p in less ==> p in more && more[p] == less[p]
    ensures |less| <= |more|
    decreases |less|
  {
    if less != map[] {
      var p :| p in less;
      CountGrows(less - {p}, more - {p});
    }
  }

  /** The same total, added up along a list. */
  function Sum(files: map<Path, FileId>, paths: seq<Path>): nat
    requires forall p :: p in paths ==> p in files
  {
    if paths == [] then 0 else Sum(files, paths[..|paths| - 1]) + files[paths[|paths| - 1]].bytes
  }

  function Only(files: map<Path, FileId>, paths: seq<Path>): map<Path, FileId> {
    map p | p in files && p in paths :: files[p]
  }

  lemma {:induction false} SumOnly(files: map<Path, FileId>, paths: seq<Path>)
    requires forall p :: p in paths ==> p in files
    requires forall i, j :: 0 <= i < j < |paths| ==> paths[i] != paths[j]
    ensures Sum(files, paths) == Total(Only(files, paths))
  {
    if paths == [] {
      assert Only(files, paths) == map[];
    } else {
      var n := |paths| - 1;
      SumOnly(files, paths[..n]);
      assert paths == paths[..n] + [paths[n]];
      assert Only(files, paths) == Only(files, paths[..n])[paths[n] := files[paths[n]]];
      TotalAdd(Only(files, paths[..n]), paths[n], files[paths[n]]);
    }
  }

  lemma SumAll(files: map<Path, FileId>, paths: seq<Path>)
    requires forall p :: p in paths <==> p in files
    requires forall i, j :: 0 <= i < j < |paths| ==> paths[i] != paths[j]
    ensures Sum(files, paths) == Total(files)
  {
    SumOnly(files, paths);
    assert Only(files, paths) == files;
  }

  function InventoryOf(hash: Bytes -> string, rootMode: nat, tree: Tree, total: nat): Inventory {
    var directories := DirsIn(tree, tree.Keys);
    var files := FilesIn(hash, tree, tree.Keys);
    Inventory(rootMode, directories, files, |files|, |directories|, total)
  }

  predicate Receipts(files: map<Path, FileId>) {
    ["launcher.json"] in files && ["assembly", "attempt.json"] in files
  }

  /** What the limits say of the entries of a tree. */
  ghost predicate Fits(hash: Bytes -> string, tree: Tree, max: nat) {
    && (forall p :: p in tree ==> Allowed(p, tree[p]))
    && |DirsIn(tree, tree.Keys)| <= MAX_DIRECTORIES
    && |FilesIn(hash, tree, tree.Keys)| <= MAX_FILES
    && Total(FilesIn(hash, tree, tree.Keys)) <= max
  }

  /** A tree the transport takes. */
  ghost predicate Within(hash: Bytes -> string, rootMode: nat, tree: Tree, max: nat, receipts: bool) {
    && 1 <= max < WORD && DirMode(rootMode) && Fits(hash, tree, max)
    && (receipts ==> Receipts(FilesIn(hash, tree, tree.Keys)))
  }
}
