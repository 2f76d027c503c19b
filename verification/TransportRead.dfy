/** `check_archive` as it streams through the members. */
module TransportRead {
  import opened Basics
  import opened TransportTree
  import opened TransportManifest
  import opened TransportArchive

  function Dirs(t: Tools, m: Manifest): seq<Path> {
    t.order(m.inventory.directories.Keys)
  }

  function Files(t: Tools, m: Manifest): seq<Path> {
    t.order(m.inventory.files.Keys)
  }

  method OpenArchive(t: Tools, a: Archive, sha256: string, max: nat) returns (r: Option<Manifest>)
    ensures r.Some? ==> Opens(t, a, sha256, max, r.value)
    ensures r.None? ==> forall m :: !Opens(t, a, sha256, max, m)
  {
    if !(1 <= max < WORD) || a.size > max || a.members == [] {
      return None;
    }
    var first := a.members[0];
    ChecksExact(first, "manifest.json", MANIFEST_MODE);
    if |first.data| > MAX_JSON_BYTES || !CheckFile(first, "manifest.json", |first.data|, MANIFEST_MODE) {
      return None;
    }
    r := t.decode(first.data);
    if t.hash(first.data) != sha256 || r.None? {
      return None;
    }
    var valid := Validate(r.value, |first.data|);
    if !valid || r.value.max < a.size {
      return None;
    }
  }

  /** The directory members after the root's, in manifest order. */
  ghost predicate DirsMatch(t: Tools, m: Manifest, rest: seq<Member>)
    requires Listed(t, m)
  {
    && |rest| == |Dirs(t, m)|
    && forall i :: 0 <= i < |rest| ==>
        rest[i] == DirMember(MemberName(Dirs(t, m)[i]), m.inventory.directories[Dirs(t, m)[i]])
  }

  method CheckDirs(t: Tools, m: Manifest, rest: seq<Member>) returns (ok: bool)
    requires Listed(t, m) && |rest| == |Dirs(t, m)|
    ensures ok <==> DirsMatch(t, m, rest)
  {
    var paths := Dirs(t, m);
    for i := 0 to |paths|
      invariant forall j :: 0 <= j < i ==> rest[j] == DirMember(MemberName(paths[j]), m.inventory.directories[paths[j]])
    {
      ChecksExact(rest[i], MemberName(paths[i]), m.inventory.directories[paths[i]]);
      if !CheckDir(rest[i], MemberName(paths[i]), m.inventory.directories[paths[i]]) {
        return false;
      }
    }
    ok := true;
  }

  predicate FileMatches(t: Tools, member: Member, p: Path, id: FileId) {
    && member == FileMember(MemberName(p), member.data, id.mode)
    && |member.data| == id.bytes && t.hash(member.data) == id.sha256
  }

  /** The file members, in manifest order, and nothing after them. */
  ghost predicate FilesMatch(t: Tools, m: Manifest, rest: seq<Member>)
    requires Listed(t, m)
  {
    && |rest| == |Files(t, m)|
    && forall i :: 0 <= i < |rest| ==> FileMatches(t, rest[i], Files(t, m)[i], m.inventory.files[Files(t, m)[i]])
  }

  /** Bytes of the listed files, by path. */
  function Gather(paths: seq<Path>, rest: seq<Member>): Contents
    requires |paths| == |rest|
  {
    if paths == [] then map[]
    else
      var n := |paths| - 1;
      Gather(paths[..n], rest[..n])[paths[n] := rest[n].data]
  }

  lemma {:induction false} GatherKeys(paths: seq<Path>, rest: seq<Member>)
    requires |paths| == |rest|
    ensures forall p :: p in Gather(paths, rest) <==> p in paths
  {
    if paths != [] {
      GatherKeys(paths[..|paths| - 1], rest[..|rest| - 1]);
    }
  }

  lemma {:induction false} GatherAt(paths: seq<Path>, rest: seq<Member>, i: nat)
    requires |paths| == |rest| && i < |paths|
    requires forall i, j :: 0 <= i < j < |paths| ==> paths[i] != paths[j]
    ensures paths[i] in Gather(paths, rest) && Gather(paths, rest)[paths[i]] == rest[i].data
  {
    var n := |paths| - 1;
    if i < n {
      GatherAt(paths[..n], rest[..n], i);
    }
  }

  method CheckFiles(t: Tools, m: Manifest, rest: seq<Member>) returns (ok: bool)
    requires Listed(t, m)
    ensures ok <==> FilesMatch(t, m, rest)
  {
    var expected := Files(t, m);
    var count := 0;
    while count < |rest|
      invariant 0 <= count <= |rest| && count <= |expected|
      invariant forall i :: 0 <= i < count ==> FileMatches(t, rest[i], expected[i], m.inventory.files[expected[i]])
    {
      if count >= |expected| {
        return false;
      }
      var p, id, member := expected[count], m.inventory.files[expected[count]], rest[count];
      ChecksExact(member, MemberName(p), id.mode);
      if !CheckFile(member, MemberName(p), id.bytes, id.mode) || t.hash(member.data) != id.sha256 {
        return false;
      }
      count := count + 1;
    }
    ok := count == |expected|;
  }

  /** How an archive's members divide. */
  lemma Divided(t: Tools, a: Archive, m: Manifest, contents: Contents)
    requires a.members != [] && Listed(t, m) && Matches(t.hash, m, contents)
    ensures var n := 2 + |Dirs(t, m)|;
            a.members == Expected(t, a.members[0].data, m, contents) ==>
              && |a.members| >= n && a.members[0] == FileMember("manifest.json", a.members[0].data, MANIFEST_MODE)
              && a.members[1] == DirMember("assembly", m.inventory.rootMode)
              && DirsMatch(t, m, a.members[2..n]) && FilesMatch(t, m, a.members[n..])
  {
    var data := a.members[0].data;
    var n := 2 + |Dirs(t, m)|;
    if a.members == Expected(t, data, m, contents) {
      var head := [FileMember("manifest.json", data, MANIFEST_MODE), DirMember("assembly", m.inventory.rootMode)];
      var dirs := DirMembers(Dirs(t, m), m.inventory.directories);
      var files := FileMembers(Files(t, m), m.inventory.files, contents);
      assert a.members == head + dirs + files;
      assert a.members[0] == head[0] && a.members[1] == head[1];
      assert a.members[2..n] == dirs && a.members[n..] == files;
    }
  }

  /** Members that divide so are the expected ones, for the bytes they carry. */
  lemma Joined(t: Tools, a: Archive, m: Manifest)
    requires Listed(t, m) && |a.members| >= 2 + |Dirs(t, m)|
    requires a.members[0] == FileMember("manifest.json", a.members[0].data, MANIFEST_MODE)
    requires a.members[1] == DirMember("assembly", m.inventory.rootMode)
    requires DirsMatch(t, m, a.members[2..2 + |Dirs(t, m)|]) && FilesMatch(t, m, a.members[2 + |Dirs(t, m)|..])
    ensures var contents := Gather(Files(t, m), a.members[2 + |Dirs(t, m)|..]);
            Matches(t.hash, m, contents) && a.members == Expected(t, a.members[0].data, m, contents)
  {
    var n := 2 + |Dirs(t, m)|;
    GatheredMatch(t, m, a.members[n..]);
    assert a.members[2..n] == DirMembers(Dirs(t, m), m.inventory.directories);
    Pieces(a.members, n);
  }

  lemma Pieces(members: seq<Member>, n: nat)
    requires 2 <= n <= |members|
    ensures members == [members[0], members[1]] + members[2..n] + members[n..]
  {
  }

  lemma GatheredMatch(t: Tools, m: Manifest, rest: seq<Member>)
    requires Listed(t, m) && FilesMatch(t, m, rest)
    ensures var contents := Gather(Files(t, m), rest);
            && Matches(t.hash, m, contents)
            && rest == FileMembers(Files(t, m), m.inventory.files, contents)
  {
    var paths := Files(t, m);
    GatherKeys(paths, rest);
    forall i | 0 <= i < |paths|
      ensures Gather(paths, rest)[paths[i]] == rest[i].data && paths[i] in m.inventory.files
    {
      GatherAt(paths, rest, i);
    }
  }

  /** The reader accepts exactly the archives that are their manifest's, and says which files. */
  method CheckArchive(t: Tools, a: Archive, sha256: string, max: nat) returns (r: Option<(Manifest, Contents)>)
    requires Faithful(t)
    ensures r.Some? ==> Accepted(t, a, sha256, max, r.value.0, r.value.1)
    ensures r.None? ==> forall m, contents :: !Accepted(t, a, sha256, max, m, contents)
  {
    var found := OpenArchive(t, a, sha256, max);
    if found.None? {
      return None;
    }
    var m := found.value;
    FaithfulLists(t, m);
    var n := 2 + |Dirs(t, m)|;
    forall contents | Accepted(t, a, sha256, max, m, contents)
      ensures |a.members| >= n && a.members[1] == DirMember("assembly", m.inventory.rootMode)
      ensures DirsMatch(t, m, a.members[2..n]) && FilesMatch(t, m, a.members[n..])
    {
      Divided(t, a, m, contents);
    }
    if |a.members| < n {
      return None;
    }
    ChecksExact(a.members[1], "assembly", m.inventory.rootMode);
    if !CheckDir(a.members[1], "assembly", m.inventory.rootMode) {
      return None;
    }
    var ok := CheckDirs(t, m, a.members[2..n]);
    if !ok {
      return None;
    }
    ok := CheckFiles(t, m, a.members[n..]);
    if !ok || a.size != RecordSize(End(t, a.members)) || !a.zeros {
      return None;
    }
    Joined(t, a, m);
    r := Some((m, Gather(Files(t, m), a.members[n..])));
  }
}
