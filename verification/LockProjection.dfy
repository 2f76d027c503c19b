/** The lock-file projection: two lines added to each vendor package, and nothing else. */
module LockProjection {
  import opened Basics
  import opened Text

  /** A newline-terminated text as its lines. */
  type Lines = seq<string>

  /** A package table as the TOML reader gives it. */
  type Row = map<string, string>

  const HEADER := "[[package]]"

  predicate Blank(s: string) {
    forall i :: 0 <= i < |s| ==> s[i] == ' ' || '\t' <= s[i] <= '\r'
  }

  predicate IsHeader(line: string) {
    HEADER <= line && Blank(line[|HEADER|..])
  }

  /** The text before the first header, then one block from each header to the next. */
  function Cut(lines: Lines): (blocks: seq<Lines>)
    ensures blocks != []
  {
    if lines == [] then [[]]
    else
      var rest := Cut(lines[1..]);
      var first := [lines[0]] + rest[0];
      if IsHeader(lines[0]) then [[], first] + rest[1..] else [first] + rest[1..]
  }

  function Concat(blocks: seq<Lines>): Lines {
    if blocks == [] then [] else blocks[0] + Concat(blocks[1..])
  }

  predicate NoHeaders(lines: Lines) {
    forall i :: 0 <= i < |lines| ==> !IsHeader(lines[i])
  }

  predicate IsBlock(lines: Lines) {
    lines != [] && IsHeader(lines[0]) && NoHeaders(lines[1..])
  }

  predicate IsCut(blocks: seq<Lines>) {
    blocks != [] && NoHeaders(blocks[0]) && forall k :: 1 <= k < |blocks| ==> IsBlock(blocks[k])
  }

  lemma {:induction false} CutIs(lines: Lines)
    ensures IsCut(Cut(lines)) && Concat(Cut(lines)) == lines
  {
    if lines != [] {
      CutIs(lines[1..]);
      var rest := Cut(lines[1..]);
      var first := [lines[0]] + rest[0];
      assert first[1..] == rest[0];
      assert lines == [lines[0]] + lines[1..];
      assert Concat(rest) == rest[0] + Concat(rest[1..]);
      if IsHeader(lines[0]) {
        assert ([[], first] + rest[1..])[1..] == [first] + rest[1..];
      }
      assert ([first] + rest[1..])[1..] == rest[1..];
      assert [lines[0]] + (rest[0] + Concat(rest[1..])) == first + Concat(rest[1..]);
    }
  }

  lemma CutCons(x: string, rest: Lines, cut: seq<Lines>)
    requires Cut(rest) == cut
    ensures Cut([x] + rest) == if IsHeader(x) then [[], [x] + cut[0]] + cut[1..] else [[x] + cut[0]] + cut[1..]
  {
    assert ([x] + rest)[1..] == rest;
  }

  /** A first line moved out of the first block. */
  lemma ConcatCons(x: string, first: Lines, others: seq<Lines>)
    ensures Concat([[x] + first] + others) == [x] + Concat([first] + others)
  {
    assert ([[x] + first] + others)[1..] == others && ([first] + others)[1..] == others;
    assert [x] + first + Concat(others) == [x] + (first + Concat(others));
  }

  /** Blocks in shape are cut apart again where they were joined. */
  lemma {:induction false} CutConcat(blocks: seq<Lines>)
    requires IsCut(blocks)
    ensures Cut(Concat(blocks)) == blocks
    decreases |blocks|, |blocks[0]|
  {
    if blocks[0] == [] {
      if |blocks| > 1 {
        CutBlock(blocks[1], blocks[2..]);
        assert blocks == [[], blocks[1]] + blocks[2..] && blocks[1..] == [blocks[1]] + blocks[2..];
        assert Concat(blocks) == Concat(blocks[1..]);
      }
    } else {
      var x, first, others := blocks[0][0], blocks[0][1..], blocks[1..];
      CutConcat([first] + others);
      ConcatCons(x, first, others);
      CutCons(x, Concat([first] + others), [first] + others);
      assert blocks[0] == [x] + first && blocks == [[x] + first] + others;
    }
  }

  lemma {:induction false} CutBlock(block: Lines, others: seq<Lines>)
    requires IsBlock(block) && forall k :: 0 <= k < |others| ==> IsBlock(others[k])
    ensures Cut(Concat([block] + others)) == [[], block] + others
    decreases |others| + 1, |block|
  {
    var x, first := block[0], block[1..];
    CutConcat([first] + others);
    ConcatCons(x, first, others);
    CutCons(x, Concat([first] + others), [first] + others);
    assert block == [x] + first;
  }

  // ------------------------------------------------------------ the two lines

  /** Lines that end in the package's version. */
  predicate HasVersion(line: string, version: string) {
    Suffix("version = \"" + version + "\"", line)
  }

  /** The first such line, or the length. */
  function Find(block: Lines, version: string): (k: nat)
    ensures k <= |block|
  {
    if block == [] || HasVersion(block[0], version) then 0 else 1 + Find(block[1..], version)
  }

  /** How many lines end so. */
  function Versions(block: Lines, version: string): nat {
    if block == [] then 0 else (if HasVersion(block[0], version) then 1 else 0) + Versions(block[1..], version)
  }

  lemma {:induction false} FindOne(block: Lines, version: string)
    requires Versions(block, version) > 0
    ensures Find(block, version) < |block|
  {
    if !HasVersion(block[0], version) {
      FindOne(block[1..], version);
    }
  }

  function Pair(registry: string, checksum: string): Lines {
    ["source = \"" + registry + "\"", "checksum = \"" + checksum + "\""]
  }

  function Insert(block: Lines, version: string, pair: Lines): Lines {
    var k := Find(block, version);
    if k == |block| then block else block[..k + 1] + pair + block[k + 1..]
  }

  /** Take out the pair that follows the version, if it is there. */
  function Remove(block: Lines, version: string, pair: Lines): Lines {
    var k := Find(block, version);
    if k < |block| && pair <= block[k + 1..] then block[..k + 1] + block[k + 1 + |pair|..] else block
  }

  /** The search looks no further than what it finds. */
  lemma {:induction false} FindSame(block: Lines, next: Lines, version: string)
    requires Find(block, version) < |block| && Find(block, version) < |next|
    requires next[..Find(block, version) + 1] == block[..Find(block, version) + 1]
    ensures Find(next, version) == Find(block, version)
  {
    var k := Find(block, version);
    assert next[0] == next[..k + 1][0] == block[..k + 1][0] == block[0];
    if k > 0 {
      assert next[1..][..k] == next[..k + 1][1..] && block[1..][..k] == block[..k + 1][1..];
      FindSame(block[1..], next[1..], version);
    }
  }

  lemma Spliced(a: Lines, p: Lines, b: Lines)
    ensures (a + p + b)[..|a|] == a && (a + p + b)[|a| + |p|..] == b && p <= (a + p + b)[|a|..]
  {
    assert (a + p + b)[|a|..][..|p|] == p;
  }

  /** What was inserted is what is removed. */
  lemma RemoveInsert(block: Lines, version: string, pair: Lines)
    requires Find(block, version) < |block|
    ensures Remove(Insert(block, version, pair), version, pair) == block
  {
    var k := Find(block, version);
    var before, after := block[..k + 1], block[k + 1..];
    var next := before + pair + after;
    Spliced(before, pair, after);
    FindSame(block, next, version);
    RemoveAt(next, version, pair, k);
    Halves(block, k + 1);
  }

  lemma RemoveAt(next: Lines, version: string, pair: Lines, k: nat)
    requires k < |next| && Find(next, version) == k && pair <= next[k + 1..]
    ensures Remove(next, version, pair) == next[..k + 1] + next[k + 1 + |pair|..]
  {
  }

  lemma Halves(block: Lines, n: nat)
    requires n <= |block|
    ensures block == block[..n] + block[n..]
  {
  }

  /** A block stays a block: the added lines open no package. */
  lemma InsertBlock(block: Lines, version: string, pair: Lines)
    requires IsBlock(block) && NoHeaders(pair)
    ensures IsBlock(Insert(block, version, pair))
  {
    var k := Find(block, version);
    if k < |block| {
      var next := Insert(block, version, pair);
      forall i | 0 <= i < |next| - 1
        ensures !IsHeader(next[1..][i])
      {
        if i + 1 <= k {
          assert next[i + 1] == block[1..][i];
        } else if i + 1 <= k + |pair| {
          assert next[i + 1] == pair[i - k];
        } else {
          assert next[i + 1] == block[1..][i - |pair|];
        }
      }
    }
  }

  lemma PairPlain(registry: string, checksum: string)
    ensures NoHeaders(Pair(registry, checksum))
  {
    assert HEADER[0] == '[';
    var pair := Pair(registry, checksum);
    assert pair[0][0] == 's' && pair[1][0] == 'c';
  }

  // ------------------------------------------------------------ the whole lock

  /** What the projection goes by: the reviewed vendor packages with their synthetic checksums, and
      how a block reads. */
  datatype Review = Review(registry: string, vendor: map<(string, string), string>, parse: Lines -> Option<Row>)

  function Key(row: Row): Option<(string, string)> {
    if "name" in row && "version" in row then Some((row["name"], row["version"])) else None
  }

  function KeyOf(r: Review, block: Lines): Option<(string, string)> {
    var row :- r.parse(block);
    Key(row)
  }

  predicate IsVendor(r: Review, block: Lines) {
    KeyOf(r, block).Some? && KeyOf(r, block).value in r.vendor
  }

  function PairOf(r: Review, key: (string, string)): Lines
    requires key in r.vendor
  {
    Pair(r.registry, r.vendor[key])
  }

  function ProjectBlock(r: Review, block: Lines): Lines {
    if IsVendor(r, block) then Insert(block, KeyOf(r, block).value.1, PairOf(r, KeyOf(r, block).value)) else block
  }

  function EraseBlock(r: Review, block: Lines): Lines {
    if IsVendor(r, block) then Remove(block, KeyOf(r, block).value.1, PairOf(r, KeyOf(r, block).value)) else block
  }

  /** Erase the pairs of the vendor packages from any lock. */
  function Erase(r: Review, lines: Lines): Lines {
    var blocks := Cut(lines);
    Concat([blocks[0]] + EraseAll(r, blocks[1..]))
  }

  function EraseAll(r: Review, blocks: seq<Lines>): (out: seq<Lines>)
    ensures |out| == |blocks| && forall k :: 0 <= k < |blocks| ==> out[k] == EraseBlock(r, blocks[k])
  {
    seq(|blocks|, k requires 0 <= k < |blocks| => EraseBlock(r, blocks[k]))
  }

  /** How a projected row must read: as before, but for the two fields of a vendor row. */
  function Expected(r: Review, row: Row): Row {
    if Key(row).Some? && Key(row).value in r.vendor
    then row["source" := r.registry]["checksum" := r.vendor[Key(row).value]]
    else row
  }

  /** One block of an accepted lock: it reads, a vendor block states its version exactly once, and
      the projected block reads as expected. */
  predicate Accepted(r: Review, block: Lines) {
    && r.parse(block).Some? && KeyOf(r, block).Some?
    && (IsVendor(r, block) ==> Versions(block, KeyOf(r, block).value.1) == 1)
    && r.parse(ProjectBlock(r, block)) == Some(Expected(r, r.parse(block).value))
  }

  predicate AllAccepted(r: Review, blocks: seq<Lines>) {
    forall k :: 0 <= k < |blocks| ==> Accepted(r, blocks[k])
  }

  /** The loops of `project`: every block projected, then every row compared. */
  method Project(r: Review, lines: Lines) returns (projected: Option<Lines>)
    ensures projected.Some? <==> AllAccepted(r, Cut(lines)[1..])
    ensures projected.Some? ==> Erase(r, projected.value) == lines
    ensures projected.Some? ==> |Cut(projected.value)| == |Cut(lines)|
    ensures projected.Some? ==> forall k :: 1 <= k < |Cut(lines)| ==>
              r.parse(Cut(projected.value)[k]) == Some(Expected(r, r.parse(Cut(lines)[k]).value))
  {
    var blocks := Cut(lines);
    var pieces := [blocks[0]];
    for k := 1 to |blocks|
      invariant |pieces| == k && pieces[0] == blocks[0]
      invariant forall i :: 1 <= i < k ==> Accepted(r, blocks[i]) && pieces[i] == ProjectBlock(r, blocks[i])
    {
      assert blocks[k] == blocks[1..][k - 1];
      if !Accepted(r, blocks[k]) {
        return None;
      }
      pieces := pieces + [ProjectBlock(r, blocks[k])];
    }
    forall i | 0 <= i < |blocks[1..]|
      ensures Accepted(r, blocks[1..][i])
    {
      assert blocks[1..][i] == blocks[i + 1];
    }
    ProjectionUndone(r, lines, pieces);
    projected := Some(Concat(pieces));
  }

  /** The inserted pairs, erased, leave the original, line for line; and the blocks are still cut
      where they were. */
  lemma ProjectionUndone(r: Review, lines: Lines, pieces: seq<Lines>)
    requires |pieces| == |Cut(lines)| && pieces[0] == Cut(lines)[0]
    requires forall k :: 1 <= k < |pieces| ==> Accepted(r, Cut(lines)[k]) && pieces[k] == ProjectBlock(r, Cut(lines)[k])
    ensures Cut(Concat(pieces)) == pieces && Erase(r, Concat(pieces)) == lines
  {
    var blocks := Cut(lines);
    CutIs(lines);
    forall k | 1 <= k < |pieces|
      ensures IsBlock(pieces[k]) && EraseBlock(r, pieces[k]) == blocks[k]
    {
      BlockUndone(r, blocks[k]);
    }
    CutConcat(pieces);
    assert [pieces[0]] + EraseAll(r, pieces[1..]) == blocks;
  }

  lemma BlockUndone(r: Review, block: Lines)
    requires IsBlock(block) && Accepted(r, block)
    ensures IsBlock(ProjectBlock(r, block)) && EraseBlock(r, ProjectBlock(r, block)) == block
  {
    var key := KeyOf(r, block).value;
    assert KeyOf(r, ProjectBlock(r, block)) == Some(key);
    if IsVendor(r, block) {
      FindOne(block, key.1);
      PairPlain(r.registry, r.vendor[key]);
      InsertBlock(block, key.1, PairOf(r, key));
      RemoveInsert(block, key.1, PairOf(r, key));
    }
  }
}
