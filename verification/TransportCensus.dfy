/** `census`: an explicit stack over a tree, each directory scanned in any order. */
module TransportCensus {
  import opened Basics
  import opened TransportTree

  function Children(tree: Tree, d: Path): set<Path> {
    set p | p in tree && p != [] && Parent(p) == d
  }

  /** What has been recorded is exactly what has been seen, and all of it is allowed. */
  ghost predicate Recorded(hash: Bytes -> string, tree: Tree, seen: set<Path>, directories: map<Path, nat>,
                           files: map<Path, FileId>, total: nat)
  {
    && seen <= tree.Keys
    && (forall p :: p in seen ==> Allowed(p, tree[p]))
    && directories == DirsIn(tree, seen) && |directories| <= MAX_DIRECTORIES
    && files == FilesIn(hash, tree, seen) && |files| <= MAX_FILES
    && total == Total(files)
  }

  lemma SeeDir(hash: Bytes -> string, tree: Tree, seen: set<Path>, p: Path)
    requires p in tree && p !in seen && tree[p].Dir?
    ensures DirsIn(tree, seen + {p}) == DirsIn(tree, seen)[p := tree[p].mode]
    ensures FilesIn(hash, tree, seen + {p}) == FilesIn(hash, tree, seen)
  {
  }

  lemma SeeFile(hash: Bytes -> string, tree: Tree, seen: set<Path>, p: Path)
    requires p in tree && p !in seen && tree[p].File?
    ensures DirsIn(tree, seen + {p}) == DirsIn(tree, seen)
    ensures FilesIn(hash, tree, seen + {p})
         == FilesIn(hash, tree, seen)[p := FileId(hash(tree[p].data), |tree[p].data|, tree[p].mode)]
    ensures Total(FilesIn(hash, tree, seen + {p})) == Total(FilesIn(hash, tree, seen)) + |tree[p].data|
  {
    var id := FileId(hash(tree[p].data), |tree[p].data|, tree[p].mode);
    assert FilesIn(hash, tree, seen + {p}) == FilesIn(hash, tree, seen)[p := id];
    TotalAdd(FilesIn(hash, tree, seen), p, id);
  }

  /** Parts of a tree within the limits are within them too. */
  lemma PartFits(hash: Bytes -> string, tree: Tree, max: nat, seen: set<Path>)
    requires Fits(hash, tree, max) && seen <= tree.Keys
    ensures |DirsIn(tree, seen)| <= MAX_DIRECTORIES && |FilesIn(hash, tree, seen)| <= MAX_FILES
    ensures Total(FilesIn(hash, tree, seen)) <= max
  {
    CountGrows(DirsIn(tree, seen), DirsIn(tree, tree.Keys));
    TotalGrows(FilesIn(hash, tree, seen), FilesIn(hash, tree, tree.Keys));
  }

  /** Directories found and not yet scanned. */
  function Frontier(tree: Tree, seen: set<Path>, scanned: set<Path>): set<Path> {
    set p | p in seen + {[]} && p !in scanned && (p == [] || (p in tree && tree[p].Dir?))
  }

  datatype Pass = Pass(directories: map<Path, nat>, files: map<Path, FileId>, total: nat, stack: seq<Path>)

  ghost predicate Holds(hash: Bytes -> string, tree: Tree, max: nat, seen: set<Path>, scanned: set<Path>, pass: Pass) {
    && Recorded(hash, tree, seen, pass.directories, pass.files, pass.total) && pass.total <= max
    && scanned <= seen + {[]} && multiset(pass.stack) == multiset(Frontier(tree, seen, scanned))
  }

  lemma FrontierDir(tree: Tree, seen: set<Path>, scanned: set<Path>, stack: seq<Path>, p: Path)
    requires p in tree && p !in seen && p != [] && tree[p].Dir? && scanned <= seen + {[]}
    requires multiset(stack) == multiset(Frontier(tree, seen, scanned))
    ensures multiset(stack + [p]) == multiset(Frontier(tree, seen + {p}, scanned))
  {
    assert Frontier(tree, seen + {p}, scanned) == Frontier(tree, seen, scanned) + {p};
    assert p !in Frontier(tree, seen, scanned);
  }

  lemma FrontierFile(tree: Tree, seen: set<Path>, scanned: set<Path>, p: Path)
    requires p in tree && p !in seen && p != [] && !tree[p].Dir?
    ensures Frontier(tree, seen + {p}, scanned) == Frontier(tree, seen, scanned)
  {
  }

  lemma OverLimit(hash: Bytes -> string, tree: Tree, max: nat, seen: set<Path>, p: Path)
    requires seen + {p} <= tree.Keys
    requires || !Allowed(p, tree[p]) || |DirsIn(tree, seen + {p})| > MAX_DIRECTORIES
             || |FilesIn(hash, tree, seen + {p})| > MAX_FILES || Total(FilesIn(hash, tree, seen + {p})) > max
    ensures !Fits(hash, tree, max)
  {
    if Fits(hash, tree, max) {
      PartFits(hash, tree, max, seen + {p});
    }
  }

  lemma RecordedMore(hash: Bytes -> string, tree: Tree, seen: set<Path>, p: Path, directories: map<Path, nat>,
                     files: map<Path, FileId>, total: nat)
    requires seen <= tree.Keys && (forall q :: q in seen ==> Allowed(q, tree[q]))
    requires p in tree && Allowed(p, tree[p])
    requires directories == DirsIn(tree, seen + {p}) && |directories| <= MAX_DIRECTORIES
    requires files == FilesIn(hash, tree, seen + {p}) && |files| <= MAX_FILES && total == Total(files)
    ensures Recorded(hash, tree, seen + {p}, directories, files, total)
  {
  }

  /** A directory entry: recorded and stacked. */
  method VisitDir(hash: Bytes -> string, tree: Tree, max: nat, ghost seen: set<Path>, ghost scanned: set<Path>,
                  pass: Pass, p: Path)
    returns (r: Option<Pass>)
    requires p in tree && p !in seen && p != [] && tree[p].Dir? && GoodPath(p)
    requires Holds(hash, tree, max, seen, scanned, pass)
    ensures r.Some? ==> Holds(hash, tree, max, seen + {p}, scanned, r.value)
    ensures r.None? ==> !Fits(hash, tree, max)
  {
    SeeDir(hash, tree, seen, p);
    var directories := pass.directories[p := tree[p].mode];
    if !DirMode(tree[p].mode) || |directories| > MAX_DIRECTORIES {
      OverLimit(hash, tree, max, seen, p);
      return None;
    }
    FrontierDir(tree, seen, scanned, pass.stack, p);
    RecordedMore(hash, tree, seen, p, directories, pass.files, pass.total);
    r := Some(pass.(directories := directories, stack := pass.stack + [p]));
  }

  method VisitFile(hash: Bytes -> string, tree: Tree, max: nat, ghost seen: set<Path>, ghost scanned: set<Path>,
                   pass: Pass, p: Path)
    returns (r: Option<Pass>)
    requires p in tree && p !in seen && p != [] && tree[p].File? && GoodPath(p)
    requires Holds(hash, tree, max, seen, scanned, pass)
    ensures r.Some? ==> Holds(hash, tree, max, seen + {p}, scanned, r.value)
    ensures r.None? ==> !Fits(hash, tree, max)
  {
    SeeFile(hash, tree, seen, p);
    var data, mode := tree[p].data, tree[p].mode;
    var total := pass.total + |data|;
    if !FileMode(mode) || |pass.files| >= MAX_FILES || total > max {
      OverLimit(hash, tree, max, seen, p);
      return None;
    }
    var files := pass.files[p := FileId(hash(data), |data|, mode)];
    FrontierFile(tree, seen, scanned, p);
    RecordedMore(hash, tree, seen, p, pass.directories, files, total);
    r := Some(pass.(files := files, total := total));
  }

  method Visit(hash: Bytes -> string, tree: Tree, max: nat, ghost seen: set<Path>, ghost scanned: set<Path>, pass: Pass,
               p: Path)
    returns (r: Option<Pass>)
    requires p in tree && p !in seen && p != [] && Holds(hash, tree, max, seen, scanned, pass)
    ensures r.Some? ==> Holds(hash, tree, max, seen + {p}, scanned, r.value)
    ensures r.None? ==> !Fits(hash, tree, max)
  {
    if !GoodPath(p) || tree[p].Special? {
      OverLimit(hash, tree, max, seen, p);
      return None;
    }
    if tree[p].Dir? {
      r := VisitDir(hash, tree, max, seen, scanned, pass, p);
    } else {
      r := VisitFile(hash, tree, max, seen, scanned, pass, p);
    }
  }

  /** One directory, its entries in any order. */
  method Scan(hash: Bytes -> string, tree: Tree, max: nat, ghost seen: set<Path>, ghost scanned: set<Path>,
              before: Pass, entries: set<Path>)
      returns (r: Option<Pass>)
    requires [] !in entries && entries <= tree.Keys && seen !! entries && Holds(hash, tree, max, seen, scanned, before)
    ensures r.Some? ==> Holds(hash, tree, max, seen + entries, scanned, r.value)
    ensures r.None? ==> !Fits(hash, tree, max)
  {
    var pass := before;
    var left := entries;
    ghost var done := seen;
    SetsStart(seen, entries);
    while left != {}
      invariant Partition(seen, entries, done, left)
      invariant Holds(hash, tree, max, done, scanned, pass)
    {
      var p :| p in left;
      PartitionMove(tree, seen, entries, done, left, p);
      var next := Visit(hash, tree, max, done, scanned, pass, p);
      if next.None? {
        return None;
      }
      pass := next.value;
      left, done := left - {p}, done + {p};
    }
    r := Some(pass);
  }

  ghost predicate Partition(seen: set<Path>, entries: set<Path>, done: set<Path>, left: set<Path>) {
    && left <= entries && left !! done && done + left == seen + entries
    && (left == {} ==> done == seen + entries)
  }

  lemma SetsStart(seen: set<Path>, entries: set<Path>)
    requires seen !! entries
    ensures Partition(seen, entries, seen, entries)
  {
  }

  lemma PartitionMove(tree: Tree, seen: set<Path>, entries: set<Path>, done: set<Path>, left: set<Path>, p: Path)
    requires Partition(seen, entries, done, left) && p in left && entries <= tree.Keys && [] !in entries
    ensures p in tree && p !in done && p != []
    ensures Partition(seen, entries, done + {p}, left - {p})
  {
  }

  /** Scanned directories are those whose entries have all been seen. */
  ghost predicate Explored(tree: Tree, seen: set<Path>, scanned: set<Path>) {
    forall p :: p in tree && p != [] ==> (p in seen <==> Parent(p) in scanned)
  }

  lemma ScanExplores(tree: Tree, seen: set<Path>, scanned: set<Path>, d: Path)
    requires IsTree(tree) && Explored(tree, seen, scanned) && d !in scanned && seen <= tree.Keys
    ensures seen !! Children(tree, d) && Children(tree, d) <= tree.Keys && [] !in Children(tree, d)
    ensures Explored(tree, seen + Children(tree, d), scanned + {d})
  {
  }

  /** With no directory left to scan, everything has been seen. */
  lemma {:induction false} AllSeen(tree: Tree, seen: set<Path>, scanned: set<Path>, p: Path)
    requires IsTree(tree) && Explored(tree, seen, scanned) && Frontier(tree, seen, scanned) == {} && p in tree
    ensures p in seen
    decreases |p|
  {
    var q := Parent(p);
    if q != [] {
      AllSeen(tree, seen, scanned, q);
    }
    assert q !in Frontier(tree, seen, scanned);
  }

  lemma PopFrontier(tree: Tree, seen: set<Path>, scanned: set<Path>, stack: seq<Path>)
    requires stack != [] && scanned <= seen + {[]} && multiset(stack) == multiset(Frontier(tree, seen, scanned))
    ensures var d := stack[|stack| - 1];
            && d !in scanned && d in seen + {[]} && (d == [] || (d in tree && tree[d].Dir?))
            && multiset(stack[..|stack| - 1]) == multiset(Frontier(tree, seen, scanned + {d}))
  {
    var n := |stack| - 1;
    var d := stack[n];
    assert stack == stack[..n] + [d];
    assert d in multiset(stack);
    var was, now := Frontier(tree, seen, scanned), Frontier(tree, seen, scanned + {d});
    assert now == was - {d};
    assert multiset(now) == multiset(was) - multiset{d};
    assert multiset(stack[..n]) == multiset(stack) - multiset{d};
  }

  /** Taking the top directory off the stack, before its scan. */
  lemma Popped(hash: Bytes -> string, tree: Tree, max: nat, seen: set<Path>, scanned: set<Path>, pass: Pass, d: Path,
               rest: Pass)
    requires IsTree(tree) && Holds(hash, tree, max, seen, scanned, pass) && Explored(tree, seen, scanned)
    requires pass.stack != [] && d == pass.stack[|pass.stack| - 1]
    requires rest == pass.(stack := pass.stack[..|pass.stack| - 1])
    ensures Holds(hash, tree, max, seen, scanned + {d}, rest) && d !in scanned && d in tree.Keys + {[]}
  {
    PopFrontier(tree, seen, scanned, pass.stack);
  }

  /** Directories still to be scanned. */
  function Unscanned(tree: Tree, scanned: set<Path>): set<Path> {
    tree.Keys + {[]} - scanned
  }

  lemma FewerUnscanned(tree: Tree, scanned: set<Path>, d: Path)
    requires d !in scanned && d in tree.Keys + {[]}
    ensures |Unscanned(tree, scanned + {d})| < |Unscanned(tree, scanned)|
  {
    assert Unscanned(tree, scanned + {d}) == Unscanned(tree, scanned) - {d};
  }

  lemma Started(hash: Bytes -> string, tree: Tree, max: nat)
    requires IsTree(tree)
    ensures Holds(hash, tree, max, {}, {}, Pass(map[], map[], 0, [[]])) && Explored(tree, {}, {})
  {
    assert Frontier(tree, {}, {}) == {[]};
  }

  lemma Everything(hash: Bytes -> string, tree: Tree, max: nat, seen: set<Path>, scanned: set<Path>, pass: Pass)
    requires IsTree(tree) && Explored(tree, seen, scanned) && Holds(hash, tree, max, seen, scanned, pass)
    requires pass.stack == []
    ensures Recorded(hash, tree, tree.Keys, pass.directories, pass.files, pass.total) && Fits(hash, tree, max)
  {
    assert |multiset(Frontier(tree, seen, scanned))| == 0;
    forall p | p in tree
      ensures p in seen
    {
      AllSeen(tree, seen, scanned, p);
    }
    assert seen == tree.Keys;
  }

  /** `census`. It accepts exactly the trees within the limits, records every node of them once and
      the sum of all lengths, and nothing of that depends on the order of any scan. */
  method Census(hash: Bytes -> string, rootMode: nat, tree: Tree, max: nat, receipts: bool)
      returns (r: Option<Inventory>)
    requires IsTree(tree)
    ensures r.Some? <==> Within(hash, rootMode, tree, max, receipts)
    ensures r.Some? ==> r.value == InventoryOf(hash, rootMode, tree, Total(FilesIn(hash, tree, tree.Keys)))
  {
    if !(1 <= max < WORD) || !DirMode(rootMode) {
      return None;
    }
    var pass := Pass(map[], map[], 0, [[]]);
    ghost var seen: set<Path>, scanned: set<Path> := {}, {};
    Started(hash, tree, max);
    while pass.stack != []
      invariant Holds(hash, tree, max, seen, scanned, pass) && Explored(tree, seen, scanned)
      decreases |Unscanned(tree, scanned)|
    {
      var d := pass.stack[|pass.stack| - 1];
      var rest := pass.(stack := pass.stack[..|pass.stack| - 1]);
      Popped(hash, tree, max, seen, scanned, pass, d, rest);
      ScanExplores(tree, seen, scanned, d);
      FewerUnscanned(tree, scanned, d);
      scanned := scanned + {d};
      var next := Scan(hash, tree, max, seen, scanned, rest, Children(tree, d));
      if next.None? {
        return None;
      }
      seen := seen + Children(tree, d);
      pass := next.value;
    }
    Everything(hash, tree, max, seen, scanned, pass);
    if receipts && !Receipts(pass.files) {
      return None;
    }
    r := Some(Inventory(rootMode, pass.directories, pass.files, |pass.files|, |pass.directories|, pass.total));
  }
}
