/** The classification loop of `preserve` and the count its summary states. */
module LedgerSummary {
  import opened Basics
  import Text
  import opened EvidenceStore
  import opened EvidenceTree
  import opened Preservation
  import opened PreservationRun

  /** A cited path: how often it is cited at all, and in prose alone. */
  datatype Citation = Citation(path: Path, cited: nat, prose: nat)

  const PROSE_PHRASES: set<Path> := {["target", "archive"], ["target", "issuer"], ["target", "local"],
                                     ["target", "scratch"], ["target", "signing"], ["target", "source", "custody"]}

  predicate InCode(c: Citation) {
    c.prose < c.cited
  }

  /** Several components after the first, or a dotted leaf. */
  predicate PathShaped(path: Path) {
    |path| > 2 || (|path| == 2 && '.' in path[1])
  }

  /** Words that read like a path: the build directory itself, or a known phrase. */
  datatype NotCitation = BuildDirectory | Phrase(path: Path)

  function Token(item: NotCitation): string {
    match item
    case BuildDirectory => "target/"
    case Phrase(path) => if path == [] then "" else Text.Join(path, '/')
  }

  /** The lists of a manifest. */
  datatype Lists = Lists(entries: seq<Entry>, missing: seq<Path>, refused: seq<Refusal>, notCitations: seq<NotCitation>)

  function EntryPaths(entries: seq<Entry>): seq<Path> {
    seq(|entries|, i requires 0 <= i < |entries| => EntryPath(entries[i]))
  }

  function CitedPaths(cited: seq<Citation>): seq<Path> {
    seq(|cited|, i requires 0 <= i < |cited| => cited[i].path)
  }

  /** The refusals of cited paths themselves, among all that the list holds. */
  function CitedRefusals(refused: seq<Refusal>): seq<Path> {
    if refused == [] then []
    else
      var last := refused[|refused| - 1];
      CitedRefusals(refused[..|refused| - 1]) + (if last.cause.Cited? then [last.path] else [])
  }

  function Phrases(items: seq<NotCitation>): seq<Path> {
    if items == [] then []
    else
      var last := items[|items| - 1];
      Phrases(items[..|items| - 1]) + (if last.Phrase? then [last.path] else [])
  }

  /** How the summary counts phrases: by what the token is not. */
  function CountTokens(items: seq<NotCitation>): nat {
    if items == [] then 0
    else CountTokens(items[..|items| - 1]) + (if Token(items[|items| - 1]) != "target/" then 1 else 0)
  }

  lemma PhraseToken(path: Path)
    requires path in PROSE_PHRASES
    ensures path != [] && Token(Phrase(path)) != "target/"
  {
    assert Text.Join(["source", "custody"], '/') == "source/custody";
    assert Text.Join(["target", "source", "custody"], '/') == "target/" + "source/custody";
  }

  // ---------------------------------------------------- each path in one list

  /** What the four places of a cited path hold together. */
  function Held(l: Lists): multiset<Path> {
    multiset(EntryPaths(l.entries)) + multiset(l.missing) + multiset(Phrases(l.notCitations))
    + multiset(CitedRefusals(l.refused))
  }

  /** Exactly these paths, each as often as here. */
  predicate Parted(l: Lists, paths: seq<Path>) {
    Held(l) == multiset(paths)
  }

  lemma EntryMore(entries: seq<Entry>, e: Entry)
    ensures EntryPaths(entries + [e]) == EntryPaths(entries) + [EntryPath(e)]
  {
  }

  lemma RefusedMore(refused: seq<Refusal>, x: Refusal)
    ensures CitedRefusals(refused + [x]) == CitedRefusals(refused) + (if x.cause.Cited? then [x.path] else [])
  {
    assert (refused + [x])[..|refused|] == refused;
  }

  lemma ItemMore(items: seq<NotCitation>, x: NotCitation)
    ensures Phrases(items + [x]) == Phrases(items) + (if x.Phrase? then [x.path] else [])
    ensures CountTokens(items + [x]) == CountTokens(items) + (if Token(x) != "target/" then 1 else 0)
  {
    assert (items + [x])[..|items|] == items;
  }

  /** Refusals met on the way through a directory are none of the cited paths' own. */
  lemma {:induction false} ViaUncounted(refused: seq<Refusal>, more: seq<Refusal>, path: Path)
    requires forall i :: 0 <= i < |more| ==> more[i].cause == Via(path)
    ensures CitedRefusals(refused + more) == CitedRefusals(refused)
    decreases |more|
  {
    if more == [] {
      assert refused + more == refused;
    } else {
      var most := more[..|more| - 1];
      ViaUncounted(refused, most, path);
      RefusedMore(refused + most, more[|more| - 1]);
      assert refused + more == refused + most + [more[|more| - 1]];
    }
  }

  lemma PathMore(cited: seq<Citation>, i: nat)
    requires i < |cited|
    ensures CitedPaths(cited[..i + 1]) == CitedPaths(cited[..i]) + [cited[i].path]
  {
  }

  /** One more cited path, filed where its result says. */
  function Filed(c: Citation, l: Lists, r: Found): Lists {
    match r
    case Entered(e) => l.(entries := l.entries + [e])
    case Denied => l
    case Absent =>
      if !InCode(c) && c.path in PROSE_PHRASES then l.(notCitations := l.notCitations + [Phrase(c.path)])
      else if InCode(c) || PathShaped(c.path) then l.(missing := l.missing + [c.path])
      else l.(refused := l.refused + [Refusal(c.path, Cited)])
  }

  lemma EntryHeld(l: Lists, e: Entry)
    ensures Held(l.(entries := l.entries + [e])) == Held(l) + multiset{EntryPath(e)}
  {
    EntryMore(l.entries, e);
  }

  lemma MissingHeld(l: Lists, path: Path)
    ensures Held(l.(missing := l.missing + [path])) == Held(l) + multiset{path}
  {
  }

  lemma PhraseHeld(l: Lists, path: Path)
    ensures Held(l.(notCitations := l.notCitations + [Phrase(path)])) == Held(l) + multiset{path}
  {
    ItemMore(l.notCitations, Phrase(path));
  }

  lemma RefusedHeld(l: Lists, path: Path)
    ensures Held(l.(refused := l.refused + [Refusal(path, Cited)])) == Held(l) + multiset{path}
  {
    RefusedMore(l.refused, Refusal(path, Cited));
  }

  lemma FiledHeld(c: Citation, l: Lists, r: Found)
    requires r.Absent? || (r.Entered? && EntryPath(r.entry) == c.path)
    ensures Held(Filed(c, l, r)) == Held(l) + multiset{c.path}
  {
    if r.Entered? {
      EntryHeld(l, r.entry);
    } else if !InCode(c) && c.path in PROSE_PHRASES {
      PhraseHeld(l, c.path);
    } else if InCode(c) || PathShaped(c.path) {
      MissingHeld(l, c.path);
    } else {
      RefusedHeld(l, c.path);
    }
  }

  /** The path alone: one refusal of its own when denied, and else only refusals on the way through it. */
  predicate Owned(path: Path, a: Answer) {
    && (a.found.Entered? ==> EntryPath(a.found.entry) == path)
    && (a.found.Denied? ==> a.refused == [Refusal(path, Cited)])
    && (!a.found.Denied? ==> forall i :: 0 <= i < |a.refused| ==> a.refused[i].cause == Via(path))
  }

  function Step(c: Citation, l: Lists, a: Answer): Lists {
    Filed(c, l.(refused := l.refused + a.refused), a.found)
  }

  lemma FiledParted(c: Citation, l: Lists, a: Answer, paths: seq<Path>)
    requires Parted(l, paths) && Owned(c.path, a)
    ensures Parted(Step(c, l, a), paths + [c.path])
  {
    if a.found.Denied? {
      RefusedHeld(l, c.path);
    } else {
      ViaUncounted(l.refused, a.refused, c.path);
      FiledHeld(c, l.(refused := l.refused + a.refused), a.found);
    }
  }

  lemma FiledCounted(c: Citation, l: Lists, r: Found)
    requires Counted(l)
    ensures Counted(Filed(c, l, r))
  {
    if c.path in PROSE_PHRASES {
      PhraseToken(c.path);
      ItemMore(l.notCitations, Phrase(c.path));
    }
  }

  predicate Distinct(cited: seq<Citation>) {
    forall i, j :: 0 <= i < j < |cited| ==> cited[i].path != cited[j].path
  }

  /** With the cited paths distinct, each is in exactly one of the four places, and once. */
  lemma ExactlyOnce(l: Lists, cited: seq<Citation>, i: nat)
    requires Parted(l, CitedPaths(cited)) && Distinct(cited) && i < |cited|
    ensures var p := cited[i].path;
            multiset(EntryPaths(l.entries))[p] + multiset(l.missing)[p] + multiset(Phrases(l.notCitations))[p]
            + multiset(CitedRefusals(l.refused))[p] == 1
  {
    var paths, p := CitedPaths(cited), cited[i].path;
    Repeats(paths, p);
    assert paths[i] == p;
    assert p in multiset(paths);
  }

  // ----------------------------------------------------------- the whole run

  function Start(refused: seq<Refusal>, named: bool): Lists {
    Lists([], [], refused, if named then [BuildDirectory] else [])
  }

  /** The lists of a run, as the checkout and the destination it leaves decide them. */
  function ListsOf(s: Source, store: Store, start: Lists, cited: seq<Citation>, encode: Inventory -> Bytes): Lists {
    if cited == [] then start
    else
      var c := cited[|cited| - 1];
      Step(c, ListsOf(s, store, start, cited[..|cited| - 1], encode), CitedAnswer(s, store, c.path, encode))
  }

  predicate Counted(l: Lists) {
    CountTokens(l.notCitations) == |Phrases(l.notCitations)|
  }

  lemma StepParted(s: Source, store: Store, l: Lists, c: Citation, paths: seq<Path>, encode: Inventory -> Bytes)
    requires Parted(l, paths) && Counted(l)
    ensures var next := Step(c, l, CitedAnswer(s, store, c.path, encode));
            Parted(next, paths + [c.path]) && Counted(next)
  {
    var a := CitedAnswer(s, store, c.path, encode);
    AnswerTold(s, store, c.path, encode);
    FiledParted(c, l, a, paths);
    FiledCounted(c, l.(refused := l.refused + a.refused), a.found);
  }

  lemma {:induction false} ListsParted(s: Source, store: Store, start: Lists, cited: seq<Citation>,
                                       encode: Inventory -> Bytes)
    requires Parted(start, []) && Counted(start)
    ensures var l := ListsOf(s, store, start, cited, encode); Parted(l, CitedPaths(cited)) && Counted(l)
  {
    if cited == [] {
      assert CitedPaths(cited) == [];
    } else {
      var n := |cited| - 1;
      ListsParted(s, store, start, cited[..n], encode);
      StepParted(s, store, ListsOf(s, store, start, cited[..n], encode), cited[n], CitedPaths(cited[..n]), encode);
      assert cited[..n + 1] == cited;
      PathMore(cited, n);
    }
  }

  // ----------------------------------------------------- which list, and why

  /** Where a cited path ends up, as the checkout and the destination decide it. */
  predicate Judged(s: Source, store: Store, l: Lists, c: Citation) {
    match Look(s, c.path)
    case Gone =>
      if !InCode(c) && c.path in PROSE_PHRASES then Phrase(c.path) in l.notCitations
      else if InCode(c) || PathShaped(c.path) then c.path in l.missing
      else Refusal(c.path, Cited) in l.refused
    case Barred => Refusal(c.path, Cited) in l.refused
    case At(node) =>
      if node.Dir? then
        if s.faults(c.path).Unopened? then Refusal(c.path, Cited) in l.refused
        else exists e :: e in l.entries && Inventoried(s, store, l.refused, node, c.path, e)
      else
        match Verdict(s, store, c.path)
        case Some(kept) => FileEntry(kept) in l.entries
        case None => Refusal(c.path, Cited) in l.refused
  }

  /** The entry of a cited directory accounts for everything below it, with true records. */
  predicate Inventoried(s: Source, store: Store, refused: seq<Refusal>, node: Node, path: Path, e: Entry) {
    && e.DirEntry? && e.inventory.path == path
    && Covered(s, store, Yield(e.inventory.items, e.inventory.pruned, refused), node, path, path)
    && forall i :: 0 <= i < |e.inventory.items| ==>
         Verdict(s, store, e.inventory.items[i].path) == Some(e.inventory.items[i])
  }

  predicate Longer(a: Lists, b: Lists) {
    a.entries <= b.entries && a.missing <= b.missing && a.refused <= b.refused && a.notCitations <= b.notCitations
  }

  lemma InventoriedLater(s: Source, store: Store, a: seq<Refusal>, b: seq<Refusal>, node: Node, path: Path, e: Entry)
    requires Inventoried(s, store, a, node, path, e) && forall r :: r in a ==> r in b
    ensures Inventoried(s, store, b, node, path, e)
  {
    CoveredMore(s, store, Yield(e.inventory.items, e.inventory.pruned, a),
                Yield(e.inventory.items, e.inventory.pruned, b), node, path, path);
  }

  lemma JudgedLater(s: Source, store: Store, a: Lists, b: Lists, c: Citation)
    requires Judged(s, store, a, c) && Longer(a, b)
    ensures Judged(s, store, b, c)
  {
    match Look(s, c.path)
    case At(node) =>
      if node.Dir? && !s.faults(c.path).Unopened? {
        var e :| e in a.entries && Inventoried(s, store, a.refused, node, c.path, e);
        InventoriedLater(s, store, a.refused, b.refused, node, c.path, e);
      }
    case _ =>
  }

  lemma StepJudged(s: Source, store: Store, l: Lists, c: Citation, encode: Inventory -> Bytes)
    ensures var next := Step(c, l, CitedAnswer(s, store, c.path, encode));
            Judged(s, store, next, c) && Longer(l, next)
  {
    var a := CitedAnswer(s, store, c.path, encode);
    var next := Step(c, l, a);
    AnswerTold(s, store, c.path, encode);
    if a.found.Denied? {
      assert next.refused[|l.refused|] == Refusal(c.path, Cited);
    } else if a.found.Entered? {
      assert next.entries[|l.entries|] == a.found.entry;
      if a.found.entry.DirEntry? {
        InventoriedLater(s, store, a.refused, next.refused, Look(s, c.path).node, c.path, a.found.entry);
      }
    }
  }

  lemma {:induction false} AllJudged(s: Source, store: Store, start: Lists, cited: seq<Citation>,
                                     encode: Inventory -> Bytes, i: nat)
    requires i < |cited|
    ensures Judged(s, store, ListsOf(s, store, start, cited, encode), cited[i])
  {
    var n := |cited| - 1;
    var l, next := ListsOf(s, store, start, cited[..n], encode), ListsOf(s, store, start, cited, encode);
    assert next == Step(cited[n], l, CitedAnswer(s, store, cited[n].path, encode));
    StepJudged(s, store, l, cited[n], encode);
    if i < n {
      AllJudged(s, store, start, cited[..n], encode, i);
      JudgedLater(s, store, l, next, cited[i]);
    }
  }

  // ------------------------------------------------------------- as it runs

  predicate AllCitedAtRest(s: Source, store: Store, cited: seq<Citation>, encode: Inventory -> Bytes) {
    forall i :: 0 <= i < |cited| ==> CitedAtRest(s, store, cited[i].path, encode)
  }

  predicate AllCitedReached(s: Source, files: Files, cited: seq<Citation>) {
    forall i :: 0 <= i < |cited| ==> CitedReached(s, files, cited[i].path)
  }

  /** What earlier citations came to does not change while later ones are preserved. */
  lemma {:induction false} SameLists(s: Source, a: Store, b: Store, files: Files, start: Lists, cited: seq<Citation>,
                                     encode: Inventory -> Bytes)
    requires AllRecorded(s, a, files) && AllRecorded(s, b, files) && Keeps(a, b)
    requires AllCitedReached(s, files, cited) && AllCitedAtRest(s, a, cited, encode)
    ensures ListsOf(s, b, start, cited, encode) == ListsOf(s, a, start, cited, encode)
    ensures AllCitedAtRest(s, b, cited, encode)
  {
    if cited != [] {
      var n := |cited| - 1;
      SameLists(s, a, b, files, start, cited[..n], encode);
      SameAnswer(s, a, b, files, cited[n].path, encode);
      forall i | 0 <= i < |cited|
        ensures CitedAtRest(s, b, cited[i].path, encode)
      {
        assert i < n ==> cited[i] == cited[..n][i];
      }
    }
  }

  lemma ReachedStill(s: Source, a: Files, b: Files, cited: seq<Citation>)
    requires AllCitedReached(s, a, cited) && Grown(a, b)
    ensures AllCitedReached(s, b, cited)
  {
    forall i | 0 <= i < |cited|
      ensures CitedReached(s, b, cited[i].path)
    {
      CitedReachedLater(s, a, b, cited[i].path);
    }
  }

  /** One cited path: preserved if it is there, and filed. */
  method FileCitation(run: Run, encode: Inventory -> Bytes, c: Citation, l: Lists) returns (next: Lists)
    requires run.Valid() && InTarget(c.path) && l.refused == run.refused
    modifies run`files, run`refused, run.destination
    ensures run.Kept() && CitedReached(run.source, run.files, c.path)
    ensures CitedAtRest(run.source, run.destination.files, c.path, encode)
    ensures next == Step(c, l, CitedAnswer(run.source, run.destination.files, c.path, encode))
    ensures next.refused == run.refused
    ensures CitedAtRest(run.source, old(run.destination.files), c.path, encode) ==>
              run.destination.files == old(run.destination.files)
  {
    var r := run.Reference(c.path, encode);
    next := l;
    match r {
      case Entered(e) => next := next.(entries := next.entries + [e]);
      case Denied =>
      case Absent =>
        if !InCode(c) && c.path in PROSE_PHRASES {
          next := next.(notCitations := next.notCitations + [Phrase(c.path)]);
        } else if InCode(c) || PathShaped(c.path) {
          next := next.(missing := next.missing + [c.path]);
        } else {
          run.Refuse(c.path, Cited);
        }
    }
    next := next.(refused := run.refused);
  }

  predicate AllInTarget(cited: seq<Citation>) {
    forall i :: 0 <= i < |cited| ==> InTarget(cited[i].path)
  }

  /** The loop of `preserve` over its cited paths. Its lists are what the checkout and the destination
      it leaves decide; a destination that already holds all of it stays as it is. */
  method PreserveAll(run: Run, encode: Inventory -> Bytes, cited: seq<Citation>, named: bool) returns (l: Lists)
    requires run.Valid() && AllInTarget(cited)
    modifies run`files, run`refused, run.destination
    ensures run.Kept() && l.refused == run.refused
    ensures l == ListsOf(run.source, run.destination.files, Start(old(run.refused), named), cited, encode)
    ensures AllCitedAtRest(run.source, run.destination.files, cited, encode)
    ensures AllCitedAtRest(run.source, old(run.destination.files), cited, encode) ==>
              run.destination.files == old(run.destination.files)
  {
    l := Start(run.refused, named);
    for i := 0 to |cited|
      invariant run.Kept() && l.refused == run.refused && AllCitedReached(run.source, run.files, cited[..i])
      invariant l == ListsOf(run.source, run.destination.files, Start(old(run.refused), named), cited[..i], encode)
      invariant AllCitedAtRest(run.source, run.destination.files, cited[..i], encode)
      invariant AllCitedAtRest(run.source, old(run.destination.files), cited, encode) ==>
                  run.destination.files == old(run.destination.files)
    {
      ghost var before, was := run.destination.files, run.files;
      l := FileCitation(run, encode, cited[i], l);
      ListsOn(run.source, before, run.destination.files, was, run.files, Start(old(run.refused), named), cited, i,
              encode);
    }
    assert cited[..|cited|] == cited;
  }

  lemma ListsOn(s: Source, a: Store, b: Store, was: Files, files: Files, start: Lists, cited: seq<Citation>, i: nat,
                encode: Inventory -> Bytes)
    requires AllRecorded(s, a, was) && AllRecorded(s, b, files) && Keeps(a, b) && Grown(was, files) && i < |cited|
    requires AllCitedReached(s, was, cited[..i]) && AllCitedAtRest(s, a, cited[..i], encode)
    requires CitedReached(s, files, cited[i].path) && CitedAtRest(s, b, cited[i].path, encode)
    ensures AllCitedReached(s, files, cited[..i + 1]) && AllCitedAtRest(s, b, cited[..i + 1], encode)
    ensures ListsOf(s, b, start, cited[..i + 1], encode)
            == Step(cited[i], ListsOf(s, a, start, cited[..i], encode), CitedAnswer(s, b, cited[i].path, encode))
  {
    assert AllRecorded(s, b, was);
    SameLists(s, a, b, was, start, cited[..i], encode);
    ReachedStill(s, was, files, cited[..i]);
    assert cited[..i + 1][..i] == cited[..i];
    forall j | 0 <= j < i
      ensures cited[..i + 1][j] == cited[..i][j]
    {
    }
  }

  /** One run: every cited path filed once and where the checkout says, and the count its summary
      states. The list of refusals already holds ledger documents and unsafe tokens when it starts. */
  method Preserve(run: Run, encode: Inventory -> Bytes, cited: seq<Citation>, named: bool)
      returns (l: Lists, references: int)
    requires run.Valid() && AllInTarget(cited) && CitedRefusals(run.refused) == []
    modifies run`files, run`refused, run.destination
    ensures run.Kept() && l.refused == run.refused && Parted(l, CitedPaths(cited))
    ensures forall i :: 0 <= i < |cited| ==> Judged(run.source, run.destination.files, l, cited[i])
    ensures references == |l.entries| + |l.missing| + |CitedRefusals(l.refused)|
  {
    ghost var start := Start(run.refused, named);
    StartParted(start);
    l := PreserveAll(run, encode, cited, named);
    ListsParted(run.source, run.destination.files, start, cited, encode);
    forall i | 0 <= i < |cited|
      ensures Judged(run.source, run.destination.files, l, cited[i])
    {
      AllJudged(run.source, run.destination.files, start, cited, encode, i);
    }
    references := |cited| - CountTokens(l.notCitations);
    PartedLength(l, CitedPaths(cited));
  }

  /** A second run over the same checkout, on the destination the first one left: the same lists, and
      not one file more. */
  method PreserveTwice(source: Source, destination: Destination, refused: seq<Refusal>, encode: Inventory -> Bytes,
                       cited: seq<Citation>, named: bool)
      returns (first: Lists, second: Lists, ghost between: Store)
    requires Proper(source.root) && AllInTarget(cited)
    modifies destination
    ensures second == first && destination.files == between && Keeps(old(destination.files), between)
  {
    var run := new Run(source, destination, refused);
    first := PreserveAll(run, encode, cited, named);
    between := destination.files;
    var again := new Run(source, destination, refused);
    second := PreserveAll(again, encode, cited, named);
  }

  lemma StartParted(l: Lists)
    requires l.entries == [] && l.missing == [] && CitedRefusals(l.refused) == []
    requires l.notCitations == [] || l.notCitations == [BuildDirectory]
    ensures Parted(l, []) && Counted(l)
  {
    ItemMore([], BuildDirectory);
    assert [] + [BuildDirectory] == [BuildDirectory];
  }

  lemma PartedLength(l: Lists, paths: seq<Path>)
    requires Parted(l, paths)
    ensures |paths| == |l.entries| + |l.missing| + |Phrases(l.notCitations)| + |CitedRefusals(l.refused)|
  {
    assert |multiset(paths)| == |paths|;
    assert |Held(l)| == |EntryPaths(l.entries)| + |l.missing| + |Phrases(l.notCitations)| + |CitedRefusals(l.refused)|;
  }
}
