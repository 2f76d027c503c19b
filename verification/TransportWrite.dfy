/** The limited writer, and what an accepted archive determines. */
module TransportWrite {
  import opened Basics
  import opened TransportTree
  import opened TransportManifest
  import opened TransportArchive
  import opened TransportRead

  /** How a write ended: in full, refused for passing the limit, or stopped by another error. */
  datatype Wrote = Whole | Over | Broken

  /** `LimitedWriter`: a write that would pass the limit, or comes up short, is an error. */
  class LimitedWriter {
    var output: Bytes
    var count: nat
    const limit: nat

    ghost predicate Valid()
      reads this
    {
      count == |output| <= limit
    }

    constructor (limit: nat)
      ensures Valid() && output == [] && this.limit == limit
    {
      this.limit := limit;
      output, count := [], 0;
    }

    /** Nothing is written past the limit; what a failed write leaves is a part of its bytes. */
    method Write(value: Bytes) returns (r: Wrote)
      requires Valid()
      modifies this
      ensures |output| <= limit && old(output) <= output <= old(output) + value
      ensures r.Whole? ==> Valid() && output == old(output) + value
      ensures r.Over? <==> |old(output)| + |value| > limit
      ensures r.Over? ==> output == old(output)
    {
      if count + |value| > limit {
        return Over;
      }
      var written: nat :| written <= |value|;
      output := output + value[..written];
      assert old(output) + value[..written] <= old(output) + value;
      if written != |value| {
        return Broken;
      }
      assert value[..written] == value;
      count := count + written;
      r := Whole;
    }

    /** However a stream is cut into writes, it is over the limit only if its whole length is. */
    method WriteAll(pieces: seq<Bytes>) returns (r: Wrote)
      requires Valid()
      modifies this
      ensures |output| <= limit
      ensures r.Whole? ==> Valid() && output == old(output) + Concat(pieces)
      ensures r.Over? ==> |old(output)| + |Concat(pieces)| > limit
    {
      var i := 0;
      while i < |pieces|
        invariant 0 <= i <= |pieces| && Valid()
        invariant output == old(output) + Concat(pieces[..i])
      {
        assert pieces[..i + 1][..i] == pieces[..i];
        ConcatGrows(pieces, i + 1);
        r := Write(pieces[i]);
        if !r.Whole? {
          return;
        }
        i := i + 1;
      }
      assert pieces[..i] == pieces;
      r := Whole;
    }
  }

  function Concat(pieces: seq<Bytes>): Bytes {
    if pieces == [] then [] else Concat(pieces[..|pieces| - 1]) + pieces[|pieces| - 1]
  }

  lemma {:induction false} ConcatGrows(pieces: seq<Bytes>, i: nat)
    requires i <= |pieces|
    ensures |Concat(pieces[..i])| <= |Concat(pieces)|
  {
    if i == |pieces| {
      assert pieces[..i] == pieces;
    } else {
      ConcatGrows(pieces[..|pieces| - 1], i);
      assert pieces[..|pieces| - 1][..i] == pieces[..i];
    }
  }

  // ------------------------------------------------- one tree for an archive

  lemma ExpectedFile(t: Tools, data: Bytes, m: Manifest, contents: Contents, i: nat)
    requires Listed(t, m) && contents.Keys == m.inventory.files.Keys && i < |Files(t, m)|
    ensures var k := 2 + |Dirs(t, m)| + i;
            k < |Expected(t, data, m, contents)| && Expected(t, data, m, contents)[k].data == contents[Files(t, m)[i]]
  {
    var files := FileMembers(Files(t, m), m.inventory.files, contents);
    assert files[i].data == contents[Files(t, m)[i]];
    Third(Head(data, m), DirMembers(Dirs(t, m), m.inventory.directories), files, i);
  }

  lemma Third(a: seq<Member>, b: seq<Member>, c: seq<Member>, i: nat)
    requires i < |c|
    ensures (a + b + c)[|a| + |b| + i] == c[i]
  {
  }

  lemma SameContents(t: Tools, data: Bytes, m: Manifest, contents: Contents, other: Contents, p: Path)
    requires Listed(t, m) && contents.Keys == m.inventory.files.Keys == other.Keys && p in contents
    requires Expected(t, data, m, contents) == Expected(t, data, m, other)
    ensures contents[p] == other[p]
  {
    assert p in Files(t, m);
    var i :| 0 <= i < |Files(t, m)| && Files(t, m)[i] == p;
    ExpectedFile(t, data, m, contents, i);
    ExpectedFile(t, data, m, other, i);
  }

  /** An archive is accepted for one manifest and one set of files only. */
  lemma AcceptedOnce(t: Tools, a: Archive, sha256: string, max: nat, m: Manifest, contents: Contents, n: Manifest,
                     other: Contents)
    requires Accepted(t, a, sha256, max, m, contents) && Accepted(t, a, sha256, max, n, other)
    ensures m == n && contents == other
  {
    ContentsOnce(t, a.members[0].data, m, contents, other);
  }

  lemma ContentsOnce(t: Tools, data: Bytes, m: Manifest, contents: Contents, other: Contents)
    requires Listed(t, m) && contents.Keys == m.inventory.files.Keys == other.Keys
    requires Expected(t, data, m, contents) == Expected(t, data, m, other)
    ensures contents == other
  {
    forall p | p in contents
      ensures contents[p] == other[p]
    {
      SameContents(t, data, m, contents, other, p);
    }
  }

  // ----------------------------------------------------- the restored census

  function Payload(members: seq<Member>): nat {
    if members == [] then 0 else Payload(members[..|members| - 1]) + |members[|members| - 1].data|
  }

  lemma {:induction false} PayloadWithin(t: Tools, members: seq<Member>)
    ensures Payload(members) <= End(t, members)
  {
    if members != [] {
      var n := |members| - 1;
      PayloadWithin(t, members[..n]);
      assert Padded(|members[n].data|) >= |members[n].data|;
    }
  }

  lemma {:induction false} PayloadTail(a: seq<Member>, b: seq<Member>)
    ensures Payload(b) <= Payload(a + b)
  {
    if b != [] {
      var n := |b| - 1;
      PayloadTail(a, b[..n]);
      assert (a + b)[..|a| + n] == a + b[..n];
    }
  }

  lemma {:induction false} PayloadSum(paths: seq<Path>, files: map<Path, FileId>, contents: Contents)
    requires forall p :: p in paths ==> p in files && p in contents && |contents[p]| == files[p].bytes
    ensures Payload(FileMembers(paths, files, contents)) == Sum(files, paths)
  {
    if paths != [] {
      var n := |paths| - 1;
      PayloadSum(paths[..n], files, contents);
      assert FileMembers(paths, files, contents)[..n] == FileMembers(paths[..n], files, contents);
    }
  }

  lemma TotalInSize(t: Tools, data: Bytes, m: Manifest, contents: Contents)
    requires Listed(t, m) && Matches(t.hash, m, contents)
    ensures Total(m.inventory.files) <= RecordSize(End(t, Expected(t, data, m, contents)))
  {
    var members := Expected(t, data, m, contents);
    var files := FileMembers(Files(t, m), m.inventory.files, contents);
    PayloadSum(Files(t, m), m.inventory.files, contents);
    SumAll(m.inventory.files, Files(t, m));
    PayloadTail(Head(data, m) + DirMembers(Dirs(t, m), m.inventory.directories), files);
    PayloadWithin(t, members);
    RecordSizeLeast(End(t, members));
  }

  /** The census of what an accepted archive restores is the manifest's inventory, so the final
      comparison of the reader never fails. */
  lemma RestoredCensus(t: Tools, a: Archive, sha256: string, max: nat, m: Manifest, contents: Contents)
    requires Accepted(t, a, sha256, max, m, contents)
    ensures IsTree(TreeOf(m, contents))
    ensures Within(t.hash, m.inventory.rootMode, TreeOf(m, contents), max, m.success)
    ensures InventoryOf(t.hash, m.inventory.rootMode, TreeOf(m, contents), m.inventory.total) == m.inventory
  {
    var data := a.members[0].data;
    TotalInSize(t, data, m, contents);
    DescribesTree(t.hash, m, |data|, contents);
  }
}
