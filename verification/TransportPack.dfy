/** `archive_write`: the tar stream member by member through the limited writer, and the check of
    what was written before it is published. */
module TransportPack {
  import opened Basics
  import opened TransportTree
  import opened TransportManifest
  import opened TransportArchive
  import opened TransportRead
  import opened TransportWrite

  function Nul(n: nat): (zeros: Bytes)
    ensures |zeros| == n && forall i :: 0 <= i < n ==> zeros[i] == 0 as char
  {
    seq(n, _ => 0 as char)
  }

  /** A member in the stream: its headers, its bytes, and zeros up to the next block. */
  function Blocks(t: Tools, m: Member): seq<Bytes> {
    [t.header(m), m.data, Nul(Padded(|m.data|) - |m.data|)]
  }

  function Stream(t: Tools, members: seq<Member>): Bytes {
    if members == [] then []
    else Stream(t, members[..|members| - 1]) + Concat(Blocks(t, members[|members| - 1]))
  }

  lemma BlocksLength(t: Tools, m: Member)
    ensures |Concat(Blocks(t, m))| == |t.header(m)| + Padded(|m.data|)
  {
    var p := Blocks(t, m);
    assert p[..2][..1] == p[..1] && p[..1][..0] == [];
    assert Concat(p[..1]) == p[0] && Concat(p[..2]) == p[0] + p[1];
  }

  lemma {:induction false} StreamLength(t: Tools, members: seq<Member>)
    ensures |Stream(t, members)| == End(t, members)
  {
    if members != [] {
      StreamLength(t, members[..|members| - 1]);
      BlocksLength(t, members[|members| - 1]);
    }
  }

  lemma StreamMore(t: Tools, members: seq<Member>, m: Member)
    ensures Stream(t, members + [m]) == Stream(t, members) + Concat(Blocks(t, m))
  {
    assert (members + [m])[..|members|] == members;
  }

  lemma {:induction false} EndGrows(t: Tools, members: seq<Member>, i: nat)
    requires i <= |members|
    ensures End(t, members[..i]) <= End(t, members)
  {
    if i == |members| {
      assert members[..i] == members;
    } else {
      EndGrows(t, members[..|members| - 1], i);
      assert members[..|members| - 1][..i] == members[..i];
    }
  }

  // ----------------------------------------------------------------- trailer

  /** How tar closes: two zero blocks, then zeros up to a whole record only if one is begun. */
  function Trailer(offset: nat): Bytes {
    var rest := (offset + 2 * BLOCK) % RECORD;
    Nul(2 * BLOCK) + (if rest > 0 then Nul(RECORD - rest) else [])
  }

  /** The closed archive has the size the reader computes for it. */
  lemma TrailerExact(end: nat)
    ensures end + |Trailer(end)| == RecordSize(end)
    ensures forall i :: 0 <= i < |Trailer(end)| ==> Trailer(end)[i] == 0 as char
  {
    var n := end + 2 * BLOCK;
    assert n == n / RECORD * RECORD + n % RECORD;
    if n % RECORD > 0 {
      assert (n + RECORD - 1) / RECORD == n / RECORD + 1;
    } else {
      assert (n + RECORD - 1) / RECORD == n / RECORD;
    }
  }

  // ------------------------------------------------------------------ writing

  /** The bytes are these members one after the other, then this trailer. */
  ghost predicate Spells(t: Tools, bytes: Bytes, a: Archive) {
    var members := Stream(t, a.members);
    && members <= bytes && a.size == |bytes|
    && (a.zeros <==> forall i :: |members| <= i < |bytes| ==> bytes[i] == 0 as char)
  }

  /** A tar file open for writing on a limited writer. */
  class TarStream {
    const t: Tools
    const writer: LimitedWriter
    var members: seq<Member>
    var offset: nat

    ghost predicate Valid()
      reads this, writer
    {
      writer.Valid() && writer.output == Stream(t, members) && offset == |writer.output|
    }

    constructor (t: Tools, writer: LimitedWriter)
      requires writer.Valid() && writer.output == []
      ensures Valid() && this.t == t && this.writer == writer && members == []
    {
      this.t, this.writer, members, offset := t, writer, [], 0;
    }

    /** `addfile`. */
    method Add(m: Member) returns (r: Wrote)
      requires Valid()
      modifies this, writer
      ensures r.Whole? ==> Valid() && members == old(members) + [m]
      ensures r.Over? ==> End(t, old(members) + [m]) > writer.limit
    {
      r := writer.WriteAll(Blocks(t, m));
      StreamMore(t, members, m);
      StreamLength(t, members + [m]);
      members, offset := members + [m], |writer.output|;
    }

    method AddAll(list: seq<Member>) returns (r: Wrote)
      requires Valid()
      modifies this, writer
      ensures r.Whole? ==> Valid() && members == old(members) + list
      ensures r.Over? ==> End(t, old(members) + list) > writer.limit
    {
      for i := 0 to |list|
        invariant Valid() && members == old(members) + list[..i]
      {
        NextFits(t, old(members), list, i);
        r := Add(list[i]);
        if !r.Whole? {
          return;
        }
      }
      assert list[..|list|] == list;
      r := Whole;
    }

    /** One file, opened in the tree. */
    method AddFile(tree: Tree, p: Path, mode: nat) returns (r: Wrote)
      requires Valid()
      modifies this, writer
      ensures !r.Broken? ==> p in tree && tree[p].File?
      ensures r.Whole? ==> Valid() && members == old(members) + [FileMember(MemberName(p), tree[p].data, mode)]
      ensures r.Over? ==> End(t, old(members) + [FileMember(MemberName(p), tree[p].data, mode)]) > writer.limit
    {
      if p !in tree || !tree[p].File? {
        return Broken;
      }
      r := Add(FileMember(MemberName(p), tree[p].data, mode));
    }

    /** The files of a manifest, each opened in the tree when its turn comes. */
    method AddFiles(m: Manifest, tree: Tree, ghost files: seq<Member>) returns (r: Wrote)
      requires Valid() && Listed(t, m) && (HasFiles(m, tree) ==> files == TreeMembers(t, m, tree))
      modifies this, writer
      ensures r.Whole? ==> HasFiles(m, tree) && Valid() && members == old(members) + files
      ensures r.Over? && HasFiles(m, tree) ==> End(t, old(members) + files) > writer.limit
    {
      AllFound(t, m, tree);
      r := AddPaths(Files(t, m), m.inventory.files, tree, files);
    }

    method AddPaths(paths: seq<Path>, ids: map<Path, FileId>, tree: Tree, ghost files: seq<Member>) returns (r: Wrote)
      requires Valid() && (forall i :: 0 <= i < |paths| ==> paths[i] in ids)
      requires Found(tree, paths) ==> files == PathMembers(paths, ids, tree)
      modifies this, writer
      ensures r.Whole? ==> Found(tree, paths) && Valid() && members == old(members) + files
      ensures r.Over? && Found(tree, paths) ==> End(t, old(members) + files) > writer.limit
    {
      var i := 0;
      while i < |paths|
        invariant 0 <= i <= |paths| && Valid() && Found(tree, paths[..i])
        invariant Found(tree, paths) ==> |files| == |paths| && members == old(members) + files[..i]
      {
        if Found(tree, paths) {
          NextFits(t, old(members), files, i);
        }
        r := AddFile(tree, paths[i], ids[paths[i]].mode);
        if !r.Whole? {
          return;
        }
        FoundMore(tree, paths, i);
        i := i + 1;
      }
      assert paths[..i] == paths && files[..i] == files;
      r := Whole;
    }

    /** `close`. */
    method Close() returns (r: Wrote)
      requires Valid()
      modifies writer
      ensures r.Whole? ==> |writer.output| == RecordSize(End(t, members)) <= writer.limit
      ensures r.Whole? ==> Spells(t, writer.output, Archive(members, |writer.output|, true))
      ensures r.Over? ==> RecordSize(End(t, members)) > writer.limit
    {
      StreamLength(t, members);
      TrailerExact(offset);
      r := writer.Write(Trailer(offset));
    }
  }

  /** Every file of the manifest is in the tree. */
  ghost predicate HasFiles(m: Manifest, tree: Tree) {
    forall p :: p in m.inventory.files ==> p in tree && tree[p].File?
  }

  /** What the tree holds for the files of a manifest. */
  function Read(m: Manifest, tree: Tree): Contents {
    map p | p in m.inventory.files && p in tree && tree[p].File? :: tree[p].data
  }

  predicate Found(tree: Tree, paths: seq<Path>) {
    forall i :: 0 <= i < |paths| ==> paths[i] in tree && tree[paths[i]].File?
  }

  lemma FoundMore(tree: Tree, paths: seq<Path>, i: nat)
    requires i < |paths| && Found(tree, paths[..i]) && paths[i] in tree && tree[paths[i]].File?
    ensures Found(tree, paths[..i + 1])
  {
  }

  function PathMembers(paths: seq<Path>, ids: map<Path, FileId>, tree: Tree): (r: seq<Member>)
    requires Found(tree, paths) && forall i :: 0 <= i < |paths| ==> paths[i] in ids
    ensures |r| == |paths|
  {
    seq(|paths|, i requires 0 <= i < |paths| =>
        FileMember(MemberName(paths[i]), tree[paths[i]].data, ids[paths[i]].mode))
  }

  lemma AllFound(t: Tools, m: Manifest, tree: Tree)
    requires Listed(t, m)
    ensures Found(tree, Files(t, m)) <==> HasFiles(m, tree)
    ensures HasFiles(m, tree) ==> TreeMembers(t, m, tree) == PathMembers(Files(t, m), m.inventory.files, tree)
  {
    if Found(tree, Files(t, m)) {
      forall p | p in m.inventory.files
        ensures p in tree && tree[p].File?
      {
        assert p in Files(t, m);
      }
    }
  }

  ghost function TreeMembers(t: Tools, m: Manifest, tree: Tree): (r: seq<Member>)
    requires Listed(t, m) && HasFiles(m, tree)
    ensures |r| == |Files(t, m)|
  {
    FileMembers(Files(t, m), m.inventory.files, Read(m, tree))
  }

  lemma NextFits(t: Tools, before: seq<Member>, list: seq<Member>, i: nat)
    requires i < |list|
    ensures before + list[..i + 1] == before + list[..i] + [list[i]]
    ensures End(t, before + list[..i] + [list[i]]) <= End(t, before + list)
  {
    EndGrows(t, before + list, |before| + i + 1);
    assert (before + list)[..|before| + i + 1] == before + list[..i] + [list[i]];
  }

  // --------------------------------------------------------- archive_write

  /** Written and accepted, over the byte cap, refused by the check, or stopped by another error. */
  datatype Packed = Done(archive: Archive) | TooLarge | Refused | Stopped

  function ManifestMember(data: Bytes): Member {
    FileMember("manifest.json", data, MANIFEST_MODE)
  }

  /** The root, then every directory of the manifest. */
  function AllDirs(t: Tools, m: Manifest): seq<Member>
    requires Listed(t, m)
  {
    [DirMember("assembly", m.inventory.rootMode)] + DirMembers(Dirs(t, m), m.inventory.directories)
  }

  /** Every member `archive_write` adds, in its order. */
  ghost function AllMembers(t: Tools, data: Bytes, m: Manifest, tree: Tree): seq<Member>
    requires Listed(t, m) && HasFiles(m, tree)
  {
    [ManifestMember(data)] + AllDirs(t, m) + TreeMembers(t, m, tree)
  }

  lemma Regroup(a: Member, b: Member, x: seq<Member>, y: seq<Member>)
    ensures [a, b] + x + y == [a] + ([b] + x) + y
  {
  }

  lemma AllExpected(t: Tools, data: Bytes, m: Manifest, tree: Tree)
    requires Listed(t, m) && HasFiles(m, tree)
    ensures Read(m, tree).Keys == m.inventory.files.Keys
    ensures AllMembers(t, data, m, tree) == Expected(t, data, m, Read(m, tree))
  {
    Regroup(ManifestMember(data), DirMember("assembly", m.inventory.rootMode),
            DirMembers(Dirs(t, m), m.inventory.directories), TreeMembers(t, m, tree));
  }

  lemma PartFits(t: Tools, a: seq<Member>, b: seq<Member>)
    ensures End(t, a) <= RecordSize(End(t, a + b))
  {
    EndGrows(t, a + b, |a|);
    assert (a + b)[..|a|] == a;
    RecordSizeLeast(End(t, a + b));
  }

  /** The directories, the files and the trailer, after the manifest. */
  method PackRest(tar: TarStream, m: Manifest, tree: Tree, dirs: seq<Member>, ghost files: seq<Member>)
      returns (r: Wrote)
    requires tar.Valid() && Listed(tar.t, m) && (HasFiles(m, tree) ==> files == TreeMembers(tar.t, m, tree))
    modifies tar, tar.writer
    ensures r.Whole? ==> HasFiles(m, tree) && tar.members == old(tar.members) + dirs + files
    ensures r.Whole? ==> Spells(tar.t, tar.writer.output, Archive(tar.members, |tar.writer.output|, true))
    ensures r.Whole? ==> |tar.writer.output| == RecordSize(End(tar.t, tar.members)) <= tar.writer.limit
    ensures r.Over? && HasFiles(m, tree) ==>
              RecordSize(End(tar.t, old(tar.members) + dirs + files)) > tar.writer.limit
  {
    PartFits(tar.t, tar.members + dirs, files);
    r := tar.AddAll(dirs);
    if r.Whole? {
      PartFits(tar.t, tar.members + files, []);
      assert tar.members + files + [] == tar.members + files;
      r := tar.AddFiles(m, tree, files);
      if r.Whole? {
        r := tar.Close();
      }
    }
  }

  /** The tar file before the check. */
  method Pack(t: Tools, tree: Tree, data: Bytes, max: nat) returns (r: Packed, output: Bytes)
    requires Faithful(t)
    ensures !r.Refused? && (r.Done? ==> t.decode(data).Some?)
    ensures t.decode(data).Some? ==> Listed(t, t.decode(data).value)
    ensures r.Done? ==>
              && HasFiles(t.decode(data).value, tree)
              && r.archive.members == AllMembers(t, data, t.decode(data).value, tree)
              && r.archive.size == RecordSize(End(t, r.archive.members)) <= max && r.archive.zeros
              && Spells(t, output, r.archive)
    ensures r.TooLarge? && t.decode(data).Some? && HasFiles(t.decode(data).value, tree) ==>
              RecordSize(End(t, AllMembers(t, data, t.decode(data).value, tree))) > max
  {
    output := [];
    var writer := new LimitedWriter(max);
    var tar := new TarStream(t, writer);
    var found := t.decode(data);
    ghost var files := [];
    if found.Some? {
      FaithfulLists(t, found.value);
      if HasFiles(found.value, tree) {
        files := TreeMembers(t, found.value, tree);
      }
      ManifestFits(t, ManifestMember(data), AllDirs(t, found.value), files);
    }
    var wrote := tar.Add(ManifestMember(data));
    if wrote.Whole? {
      if found.None? {
        return Stopped, output;
      }
      wrote := PackRest(tar, found.value, tree, AllDirs(t, found.value), files);
    }
    output := writer.output;
    r := match wrote
         case Whole => Done(Archive(tar.members, |output|, true))
         case Over => TooLarge
         case Broken => Stopped;
  }

  lemma ManifestFits(t: Tools, first: Member, dirs: seq<Member>, files: seq<Member>)
    ensures [] + [first] == [first]
    ensures End(t, [first]) <= RecordSize(End(t, [first] + dirs + files))
  {
    PartFits(t, [first], dirs + files);
    assert [first] + (dirs + files) == [first] + dirs + files;
  }

  /** What the check wants of a manifest and of the files the tree holds for it. */
  ghost predicate Publishable(t: Tools, tree: Tree, data: Bytes, max: nat, m: Manifest) {
    && t.decode(data) == Some(m) && 1 <= max < WORD && |data| <= MAX_JSON_BYTES && Valid(m, |data|) && m.max >= max
    && HasFiles(m, tree) && Matches(t.hash, m, Read(m, tree))
  }

  lemma PublishableAccepted(t: Tools, tree: Tree, data: Bytes, max: nat, m: Manifest, a: Archive)
    requires Publishable(t, tree, data, max, m) && Listed(t, m)
    requires a.members == AllMembers(t, data, m, tree)
    requires a.size == RecordSize(End(t, a.members)) <= max && a.zeros
    ensures Accepted(t, a, t.hash(data), max, m, Read(m, tree))
  {
    AllExpected(t, data, m, tree);
    assert a.members[0] == ManifestMember(data);
  }

  lemma AcceptedRead(t: Tools, tree: Tree, data: Bytes, max: nat, m: Manifest, a: Archive, n: Manifest,
                     contents: Contents)
    requires t.decode(data) == Some(m) && Listed(t, m) && HasFiles(m, tree)
    requires a.members == AllMembers(t, data, m, tree) && Accepted(t, a, t.hash(data), max, n, contents)
    ensures Accepted(t, a, t.hash(data), max, m, Read(m, tree))
  {
    AllExpected(t, data, m, tree);
    assert a.members[0] == ManifestMember(data) && n == m;
    ContentsOnce(t, data, m, contents, Read(m, tree));
  }

  /** `archive_write`. What it publishes is accepted, for the manifest given and the files the tree
      held; it fails for size only when the least number of whole records is over the cap, and never
      succeeds then; and the check refuses nothing that matches its manifest. */
  method ArchiveWrite(t: Tools, tree: Tree, data: Bytes, max: nat) returns (r: Packed, output: Bytes)
    requires Faithful(t)
    ensures t.decode(data).Some? ==> Listed(t, t.decode(data).value)
    ensures r.Done? ==>
              && t.decode(data).Some? && HasFiles(t.decode(data).value, tree) && Spells(t, output, r.archive)
              && Accepted(t, r.archive, t.hash(data), max, t.decode(data).value, Read(t.decode(data).value, tree))
    ensures t.decode(data).Some? && HasFiles(t.decode(data).value, tree) ==>
              var size := RecordSize(End(t, AllMembers(t, data, t.decode(data).value, tree)));
              (r.TooLarge? ==> size > max) && (size > max ==> r.TooLarge? || r.Stopped?)
    ensures forall m :: Publishable(t, tree, data, max, m) ==> !r.Refused?
  {
    r, output := Pack(t, tree, data, max);
    if r.Done? {
      ghost var m, a := t.decode(data).value, r.archive;
      var found := CheckArchive(t, r.archive, t.hash(data), max);
      if found.None? {
        if Publishable(t, tree, data, max, m) {
          PublishableAccepted(t, tree, data, max, m, a);
        }
        r := Refused;
      } else {
        AcceptedRead(t, tree, data, max, m, a, found.value.0, found.value.1);
      }
    }
  }
}
