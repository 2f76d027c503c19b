/** The transport archive at the level of its members: the writer, and the strict reader. */
module TransportArchive {
  import opened Basics
  import opened TransportTree
  import opened TransportManifest

  /** A member as the tar reader presents it. `plain` says that owner, times, names, link and sparse
      fields are all empty; a directory's name has lost its final slash. */
  datatype Member = Member(name: string, directory: bool, data: Bytes, mode: nat,
                           paxPath: Option<string>, paxSize: Option<nat>, plain: bool)

  /** `zeros` says that every byte after the last member is zero. */
  datatype Archive = Archive(members: seq<Member>, size: nat, zeros: bool)

  /** What the transport builds on: a digest, canonical JSON, the order of its keys, and the headers
      the tar library puts before a member. */
  datatype Tools = Tools(hash: Bytes -> string, encode: Manifest -> Bytes, decode: Bytes -> Option<Manifest>,
                         order: set<Path> -> seq<Path>, header: Member -> Bytes)

  /** Digests are digests, a valid manifest is read back from its bytes, and an order lists each key. */
  ghost predicate Faithful(t: Tools) {
    && (forall d :: Digest(t.hash(d)))
    && (forall m :: Valid(m, |t.encode(m)|) ==> t.decode(t.encode(m)) == Some(m))
    && (forall s :: multiset(t.order(s)) == multiset(s))
  }

  const LENGTH_NAME := 100
  const OCTAL_LIMIT := 8589934592
  const BLOCK := 512
  const RECORD := 10240
  const MANIFEST_MODE := 0x180

  /** Names that need an extended header: long ones and those outside ASCII. */
  predicate Long(name: string) {
    |name| > LENGTH_NAME || exists i :: 0 <= i < |name| && name[i] as int >= 0x80
  }

  /** A name is long when it has more than a hundred characters, or more bytes than characters. */
  lemma LongExactly(name: string)
    ensures Long(name) <==> |name| > 100 || Utf8(name) != |name|
  {
    Utf8Ascii(name);
  }

  function FileMember(name: string, data: Bytes, mode: nat): Member {
    Member(name, false, data, mode, if Long(name) then Some(name) else None,
           if |data| >= OCTAL_LIMIT then Some(|data|) else None, true)
  }

  /** A directory is written under its name and a slash. */
  function DirMember(name: string, mode: nat): Member {
    Member(name, true, [], mode, if Long(name + "/") then Some(name + "/") else None, None, true)
  }

  /** `check_transport_member`. */
  predicate CheckFile(m: Member, name: string, length: nat, mode: nat) {
    && (m.paxPath.Some? <==> Long(name)) && (m.paxSize.Some? <==> length >= OCTAL_LIMIT)
    && (m.paxPath.Some? ==> m.paxPath.value == name) && (m.paxSize.Some? ==> m.paxSize.value == length)
    && m.name == name && !m.directory && |m.data| == length && m.mode == mode && m.plain
  }

  /** `check_directory_member`, for a name and a slash. */
  predicate CheckDir(m: Member, name: string, mode: nat) {
    && m.paxSize.None? && (m.paxPath.Some? <==> Long(name + "/")) && (m.paxPath.Some? ==> m.paxPath.value == name + "/")
    && m.name == name && m.directory && m.data == [] && m.mode == mode && m.plain
  }

  /** The checks leave no choice: each passes exactly the member the writer makes. */
  lemma ChecksExact(m: Member, name: string, mode: nat)
    ensures CheckFile(m, name, |m.data|, mode) <==> m == FileMember(name, m.data, mode)
    ensures CheckDir(m, name, mode) <==> m == DirMember(name, mode)
  {
  }

  function Label(p: Path): string {
    if p == [] then [] else Name(p)
  }

  function MemberName(p: Path): string {
    "assembly/" + Label(p)
  }

  function DirMembers(paths: seq<Path>, directories: map<Path, nat>): (r: seq<Member>)
    requires forall p :: p in paths ==> p in directories
    ensures |r| == |paths|
    ensures forall i :: 0 <= i < |paths| ==> r[i] == DirMember(MemberName(paths[i]), directories[paths[i]])
  {
    seq(|paths|, i requires 0 <= i < |paths| => DirMember(MemberName(paths[i]), directories[paths[i]]))
  }

  function FileMembers(paths: seq<Path>, files: map<Path, FileId>, contents: Contents): (r: seq<Member>)
    requires forall p :: p in paths ==> p in files && p in contents
    ensures |r| == |paths|
    ensures forall i :: 0 <= i < |paths| ==>
              r[i] == FileMember(MemberName(paths[i]), contents[paths[i]], files[paths[i]].mode)
  {
    seq(|paths|, i requires 0 <= i < |paths| =>
        FileMember(MemberName(paths[i]), contents[paths[i]], files[paths[i]].mode))
  }

  lemma OrderKeys(t: Tools, s: set<Path>)
    requires Faithful(t)
    ensures forall p :: p in t.order(s) <==> p in s
    ensures forall i, j :: 0 <= i < j < |t.order(s)| ==> t.order(s)[i] != t.order(s)[j]
  {
    forall p
      ensures p in t.order(s) <==> p in s
    {
      assert p in t.order(s) <==> p in multiset(t.order(s));
    }
    forall i, j | 0 <= i < j < |t.order(s)|
      ensures t.order(s)[i] != t.order(s)[j]
    {
      Repeats(t.order(s), t.order(s)[i]);
    }
  }

  function Head(data: Bytes, m: Manifest): (r: seq<Member>)
    ensures |r| == 2
  {
    [FileMember("manifest.json", data, MANIFEST_MODE), DirMember("assembly", m.inventory.rootMode)]
  }

  /** The member sequence a manifest fixes, but for the bytes of its files. */
  function Expected(t: Tools, data: Bytes, m: Manifest, contents: Contents): seq<Member>
    requires contents.Keys == m.inventory.files.Keys
    requires forall p :: p in t.order(m.inventory.directories.Keys) ==> p in m.inventory.directories
    requires forall p :: p in t.order(m.inventory.files.Keys) ==> p in m.inventory.files
  {
    Head(data, m) + DirMembers(t.order(m.inventory.directories.Keys), m.inventory.directories)
    + FileMembers(t.order(m.inventory.files.Keys), m.inventory.files, contents)
  }

  // -------------------------------------------------------------------- size

  function Padded(n: nat): (r: nat)
    ensures n <= r < n + 512 && r % 512 == 0
  {
    (n + BLOCK - 1) / BLOCK * BLOCK
  }

  /** Where the last member ends. */
  function End(t: Tools, members: seq<Member>): nat {
    if members == [] then 0
    else
      var last := members[|members| - 1];
      End(t, members[..|members| - 1]) + |t.header(last)| + Padded(|last.data|)
  }

  function RecordSize(end: nat): nat {
    (end + 2 * BLOCK + RECORD - 1) / RECORD * RECORD
  }

  /** The least whole number of records that holds the members and two zero blocks. */
  lemma RecordSizeLeast(end: nat)
    ensures var s := RecordSize(end);
            && s % RECORD == 0 && s >= end + 2 * BLOCK
            && forall k: nat :: k * RECORD >= end + 2 * BLOCK ==> s <= k * RECORD
  {
    var q := (end + 2 * BLOCK + RECORD - 1) / RECORD;
    forall k: nat | k * RECORD >= end + 2 * BLOCK
      ensures q * RECORD <= k * RECORD
    {
      assert k >= q;
    }
  }

  // ------------------------------------------------------------------ reading

  /** Orders that list exactly the keys of the two rosters, none twice. */
  ghost predicate Listed(t: Tools, m: Manifest) {
    && (forall p :: p in t.order(m.inventory.directories.Keys) <==> p in m.inventory.directories)
    && (forall p :: p in t.order(m.inventory.files.Keys) <==> p in m.inventory.files)
    && (forall i, j :: 0 <= i < j < |t.order(m.inventory.files.Keys)| ==>
          t.order(m.inventory.files.Keys)[i] != t.order(m.inventory.files.Keys)[j])
  }

  lemma FaithfulLists(t: Tools, m: Manifest)
    requires Faithful(t)
    ensures Listed(t, m)
  {
    OrderKeys(t, m.inventory.directories.Keys);
    OrderKeys(t, m.inventory.files.Keys);
  }

  /** The first member carries this manifest, and the archive keeps to every limit. */
  ghost predicate Opens(t: Tools, a: Archive, sha256: string, max: nat, m: Manifest) {
    && 1 <= max < WORD && a.size <= max && a.members != []
    && var data := a.members[0].data;
       && a.members[0] == FileMember("manifest.json", data, MANIFEST_MODE)
       && |data| <= MAX_JSON_BYTES && t.hash(data) == sha256 && t.decode(data) == Some(m)
       && Valid(m, |data|) && m.max >= a.size
  }

  /** What an accepted archive is: exactly the members its manifest fixes, with bytes that match it,
      and the canonical size and trailer. */
  ghost predicate Accepted(t: Tools, a: Archive, sha256: string, max: nat, m: Manifest, contents: Contents) {
    && Opens(t, a, sha256, max, m) && Listed(t, m) && Matches(t.hash, m, contents)
    && a.members == Expected(t, a.members[0].data, m, contents)
    && a.size == RecordSize(End(t, a.members)) && a.zeros
  }
}
