/** Recovery-set manifests of src/markweave/recovery_manifest.py. The hash is any
    function to hexadecimal digests: what two directories with the same identifier
    could disagree on are two of their own contents with the same digest. JSON
    text is any coding that parsing takes back. */
module Manifest {
  import opened Basics

  datatype Member = Member(path: string, size: int, sha256: string)
  datatype Identity = Identity(database: string, objects: string, proof: string, source: string)

  /** Everything a manifest says but its own identifier. */
  datatype Base = Base(profile: string, created: string, identity: Identity, members: seq<Member>)

  /** The JSON document of a manifest, with or without its identifier. */
  datatype Document = Document(id: Option<string>, base: Base)
  datatype Manifest = Manifest(id: string, base: Base)

  const MAX_MANIFEST_BYTES := 8 * 1024 * 1024
  const MAX_IDENTITY_CHARACTERS := 1024
  const MAX_MEMBERS := 1_000_000
  const SHA256_CHARACTERS := 64
  const PROFILES: seq<string> := ["standalone", "distributed"]
  const MANIFEST_FILE := "manifest.json"
  const CHECKSUM_FILE := "manifest.sha256"
  const NEWLINE: Bytes := [10]

  /** `canonical_json`, `json.loads`, SHA-256 and the UTC text of a time. */
  datatype Codec = Codec(dump: Document -> Bytes, parse: Bytes -> Option<Document>, hash: Bytes -> string,
                         utc: string -> Option<string>)
  {
    ghost predicate Valid() {
      && (forall document :: parse(dump(document)) == Some(document))
      && (forall document :: parse(dump(document) + NEWLINE) == Some(document))
      && (forall content :: IsDigest(hash(content)))
      && (forall time :: utc(time).Some? ==> utc(utc(time).value) == utc(time))
    }

    /** Two different contents with the same digest. */
    predicate Collide(one: Bytes, other: Bytes) {
      one != other && hash(one) == hash(other)
    }
  }

  predicate IsDigest(text: string) {
    |text| == SHA256_CHARACTERS && forall i :: 0 <= i < |text| ==> '0' <= text[i] <= '9' || 'a' <= text[i] <= 'f'
  }

  // ---------------------------------------------------------------------
  // Order of members

  /** Code point order of strings. */
  predicate AtMost(left: string, right: string) {
    left == [] || (right != [] && (left[0] < right[0] || (left[0] == right[0] && AtMost(left[1..], right[1..]))))
  }

  lemma {:induction false} Total(left: string, right: string)
    ensures AtMost(left, right) || AtMost(right, left)
  {
    if left != [] && right != [] && left[0] == right[0] {
      Total(left[1..], right[1..]);
    }
  }

  lemma {:induction false} Antisymmetric(left: string, right: string)
    requires AtMost(left, right) && AtMost(right, left)
    ensures left == right
  {
    if left != [] {
      Antisymmetric(left[1..], right[1..]);
      assert left == [left[0]] + left[1..] && right == [right[0]] + right[1..];
    }
  }

  lemma {:induction false} Transitive(left: string, middle: string, right: string)
    requires AtMost(left, middle) && AtMost(middle, right)
    ensures AtMost(left, right)
  {
    if left != [] && left[0] == middle[0] == right[0] {
      Transitive(left[1..], middle[1..], right[1..]);
    }
  }

  /** A member put behind those with no greater path. */
  function Insert(sorted: seq<Member>, member: Member): seq<Member> {
    if sorted == [] then [member]
    else
      var last := sorted[|sorted| - 1];
      if AtMost(last.path, member.path) then sorted + [member] else Insert(sorted[..|sorted| - 1], member) + [last]
  }

  /** `sorted(members, key=path)`. */
  function SortedMembers(members: seq<Member>): seq<Member> {
    if members == [] then [] else Insert(SortedMembers(members[..|members| - 1]), members[|members| - 1])
  }

  predicate IsSorted(members: seq<Member>) {
    forall i, j :: 0 <= i < j < |members| ==> AtMost(members[i].path, members[j].path)
  }

  predicate UniquePaths(members: seq<Member>) {
    forall i, j :: 0 <= i < j < |members| ==> members[i].path != members[j].path
  }

  lemma AllButLast(members: seq<Member>)
    requires members != []
    ensures members == members[..|members| - 1] + [members[|members| - 1]]
    ensures multiset(members) == multiset(members[..|members| - 1]) + multiset{members[|members| - 1]}
    ensures |members| == |multiset(members)|
  {
    assert members == members[..|members| - 1] + [members[|members| - 1]];
  }

  lemma {:induction false} InsertMembers(sorted: seq<Member>, member: Member)
    ensures multiset(Insert(sorted, member)) == multiset(sorted) + multiset{member}
  {
    if sorted != [] {
      AllButLast(sorted);
      if !AtMost(sorted[|sorted| - 1].path, member.path) {
        InsertMembers(sorted[..|sorted| - 1], member);
      }
    }
  }

  /** A member that belongs at the end of a sorted list. */
  lemma AppendSorted(sorted: seq<Member>, member: Member)
    requires IsSorted(sorted)
    requires sorted != [] ==> AtMost(sorted[|sorted| - 1].path, member.path)
    ensures IsSorted(sorted + [member])
  {
    forall i | 0 <= i < |sorted|
      ensures AtMost(sorted[i].path, member.path)
    {
      if i < |sorted| - 1 {
        Transitive(sorted[i].path, sorted[|sorted| - 1].path, member.path);
      }
    }
  }

  lemma {:induction false} InsertSorted(sorted: seq<Member>, member: Member)
    requires IsSorted(sorted)
    ensures IsSorted(Insert(sorted, member))
  {
    if sorted == [] {
    } else if AtMost(sorted[|sorted| - 1].path, member.path) {
      AppendSorted(sorted, member);
    } else {
      var shorter, last := sorted[..|sorted| - 1], sorted[|sorted| - 1];
      Total(last.path, member.path);
      InsertSorted(shorter, member);
      InsertMembers(shorter, member);
      var inner := Insert(shorter, member);
      forall i | 0 <= i < |inner|
        ensures AtMost(inner[i].path, last.path)
      {
        assert inner[i] in multiset(inner);
      }
      if inner != [] {
        AppendSorted(inner, last);
      }
    }
  }

  lemma {:induction false} SortKeeps(members: seq<Member>)
    ensures IsSorted(SortedMembers(members)) && multiset(SortedMembers(members)) == multiset(members)
  {
    if members != [] {
      var shorter, last := members[..|members| - 1], members[|members| - 1];
      SortKeeps(shorter);
      InsertSorted(SortedMembers(shorter), last);
      InsertMembers(SortedMembers(shorter), last);
      AllButLast(members);
    }
  }

  lemma SameButLast(one: seq<Member>, other: seq<Member>)
    requires one != [] && other != [] && multiset(one) == multiset(other)
    requires one[|one| - 1] == other[|other| - 1]
    ensures multiset(one[..|one| - 1]) == multiset(other[..|other| - 1])
    ensures one[..|one| - 1] == other[..|other| - 1] ==> one == other
  {
    AllButLast(one);
    AllButLast(other);
    assert multiset(one[..|one| - 1]) == multiset(one) - multiset{one[|one| - 1]};
    assert multiset(other[..|other| - 1]) == multiset(other) - multiset{other[|other| - 1]};
  }

  /** Sorted lists of the same members with different paths are the same. */
  lemma {:induction false} SortedIsUnique(one: seq<Member>, other: seq<Member>)
    requires IsSorted(one) && IsSorted(other) && multiset(one) == multiset(other) && UniquePaths(one)
    ensures one == other
  {
    if one == [] {
      assert |multiset(other)| == 0;
    } else {
      assert |other| == |multiset(other)| == |multiset(one)|;
      LastIsSame(one, other);
      SameButLast(one, other);
      SortedIsUnique(one[..|one| - 1], other[..|other| - 1]);
    }
  }

  lemma LastIsSame(one: seq<Member>, other: seq<Member>)
    requires IsSorted(one) && IsSorted(other) && multiset(one) == multiset(other) && UniquePaths(one)
    requires |one| == |other| > 0
    ensures one[|one| - 1] == other[|other| - 1]
  {
    var last, greatest := one[|one| - 1], other[|other| - 1];
    assert last in multiset(other) && greatest in multiset(one);
    var i :| 0 <= i < |one| && one[i] == greatest;
    var j :| 0 <= j < |other| && other[j] == last;
    if i < |one| - 1 {
      assert AtMost(greatest.path, last.path);
      if j < |other| - 1 {
        assert AtMost(last.path, greatest.path);
      }
      Antisymmetric(greatest.path, last.path);
    }
  }

  // ---------------------------------------------------------------------
  // Building

  /** The parts of a relative path. */
  function Parts(path: string): seq<string> {
    if path == "" then [""]
    else if path[0] == '/' then [""] + Parts(path[1..])
    else var rest := Parts(path[1..]); [[path[0]] + rest[0]] + rest[1..]
  }

  /** `PurePosixPath` drops "." parts, so only ".." and a leading "/" matter. */
  predicate IsMemberPath(path: string) {
    path != "" && path[0] != '/' && ".." !in Parts(path)
  }

  predicate IsMember(member: Member) {
    IsMemberPath(member.path) && 0 <= member.size && IsDigest(member.sha256)
  }

  predicate MembersValid(members: seq<Member>) {
    0 < |members| <= MAX_MEMBERS && (forall member :: member in members ==> IsMember(member)) && UniquePaths(members)
  }

  /** `_validate_members`: the loop keeps the set of paths it has seen. */
  method ValidateMembers(members: seq<Member>) returns (ok: bool)
    ensures ok <==> MembersValid(members)
  {
    if |members| == 0 || MAX_MEMBERS < |members| {
      return false;
    }
    var paths: set<string> := {};
    for i := 0 to |members|
      invariant forall path :: path in paths <==> exists k :: 0 <= k < i && members[k].path == path
      invariant forall k :: 0 <= k < i ==> IsMember(members[k])
      invariant forall k, j :: 0 <= k < j < i ==> members[k].path != members[j].path
    {
      if !IsMember(members[i]) || members[i].path in paths {
        return false;
      }
      paths := paths + {members[i].path};
    }
    ok := true;
  }

  predicate IsSpace(c: char) {
    c == ' ' || '\t' <= c <= '\r'
  }

  predicate IsIdentity(text: string) {
    |text| <= MAX_IDENTITY_CHARACTERS && exists i :: 0 <= i < |text| && !IsSpace(text[i])
  }

  predicate Buildable(codec: Codec, profile: string, created: string, identity: Identity, members: seq<Member>) {
    && profile in PROFILES && codec.utc(created).Some?
    && IsIdentity(identity.database) && IsIdentity(identity.objects) && IsIdentity(identity.proof)
       && IsIdentity(identity.source)
    && MembersValid(members)
  }

  /** `build_manifest`: the identifier covers everything else. */
  function Build(codec: Codec, profile: string, created: string, identity: Identity,
                 members: seq<Member>): Option<Manifest> {
    if !Buildable(codec, profile, created, identity, members) then None
    else
      var base := Base(profile, codec.utc(created).value, identity, SortedMembers(members));
      Some(Manifest(codec.hash(codec.dump(Document(None, base))), base))
  }

  lemma PermutedValid(one: seq<Member>, other: seq<Member>)
    requires multiset(one) == multiset(other) && MembersValid(one)
    ensures MembersValid(other)
  {
    assert |other| == |multiset(other)| == |multiset(one)|;
    forall member | member in other
      ensures IsMember(member)
    {
      assert member in multiset(one);
    }
    SortKeeps(one);
    SortKeeps(other);
    PermutedUnique(one, other);
  }

  lemma {:induction false} PermutedUnique(one: seq<Member>, other: seq<Member>)
    requires multiset(one) == multiset(other) && UniquePaths(one)
    ensures UniquePaths(other)
  {
    forall i, j | 0 <= i < j < |other|
      ensures other[i].path != other[j].path
    {
      if other[i].path == other[j].path {
        assert other[i] in multiset(one) && other[j] in multiset(one);
        var a :| 0 <= a < |one| && one[a] == other[i];
        var b :| 0 <= b < |one| && one[b] == other[j];
        assert a == b;
        TwiceCounted(other, i, j);
        OnceCounted(one, a);
      }
    }
  }

  lemma TwiceCounted(members: seq<Member>, i: nat, j: nat)
    requires i < j < |members| && members[i] == members[j]
    ensures multiset(members)[members[i]] >= 2
  {
    assert members == members[..j] + [members[j]] + members[j + 1..];
    assert members[..j][i] in multiset(members[..j]);
  }

  lemma OnceCounted(members: seq<Member>, i: nat)
    requires i < |members| && UniquePaths(members)
    ensures multiset(members)[members[i]] == 1
  {
    assert members == members[..i] + [members[i]] + members[i + 1..];
    assert members[i] !in members[..i] && members[i] !in members[i + 1..];
  }

  /** The order in which members are given does not matter. */
  lemma BuildIgnoresOrder(codec: Codec, profile: string, created: string, identity: Identity, one: seq<Member>,
                          other: seq<Member>)
    requires multiset(one) == multiset(other)
    ensures Build(codec, profile, created, identity, one) == Build(codec, profile, created, identity, other)
  {
    if MembersValid(one) {
      PermutedValid(one, other);
      SortKeeps(one);
      SortKeeps(other);
      PermutedUnique(one, SortedMembers(one));
      SortedIsUnique(SortedMembers(one), SortedMembers(other));
    } else if MembersValid(other) {
      PermutedValid(other, one);
    }
  }

  // ---------------------------------------------------------------------
  // Recovery sets on disk

  /** A symbolic link or a special file is never read. */
  datatype Node = Regular(content: Bytes) | Unsafe

  /** A directory by relative paths; it is unsafe when its own path or one of its
      subdirectories is a link. */
  datatype Directory = Directory(nodes: map<string, Node>, safe: bool) {
    predicate Holds(path: string) {
      path in nodes && nodes[path].Regular?
    }
  }

  function Ascii(text: string): (content: Bytes)
    requires IsDigest(text)
    ensures |content| == |text|
  {
    seq(|text|, i requires 0 <= i < |text| => text[i] as int as Byte)
  }

  predicate IsBlank(byte: Byte) {
    byte == 32 || 9 <= byte <= 13
  }

  function StripLeft(content: Bytes): Bytes {
    if content != [] && IsBlank(content[0]) then StripLeft(content[1..]) else content
  }

  function StripRight(content: Bytes): Bytes {
    if content != [] && IsBlank(content[|content| - 1]) then StripRight(content[..|content| - 1]) else content
  }

  /** `read_text(encoding="ascii").strip()`. */
  function ReadText(content: Bytes): Option<string> {
    if exists i :: 0 <= i < |content| && 128 <= content[i] then None
    else
      var stripped := StripRight(StripLeft(content));
      Some(seq(|stripped|, i requires 0 <= i < |stripped| => (stripped[i] as int % 128) as char))
  }

  /** Exactly the manifest, its checksum and the members, each as the manifest says. */
  predicate ExactMembers(codec: Codec, directory: Directory, members: seq<Member>) {
    && directory.safe
    && directory.nodes.Keys == {MANIFEST_FILE, CHECKSUM_FILE} + (set member | member in members :: member.path)
    && forall member :: member in members ==> MemberMatches(codec, directory, member)
  }

  predicate MemberMatches(codec: Codec, directory: Directory, member: Member) {
    && directory.Holds(member.path)
    && |directory.nodes[member.path].content| == member.size
    && codec.hash(directory.nodes[member.path].content) == member.sha256
  }

  /** `_verify_exact_members`: the walk collects what is there, then each member
      is hashed. */
  method VerifyExactMembers(codec: Codec, directory: Directory, members: seq<Member>) returns (ok: bool)
    ensures ok <==> ExactMembers(codec, directory, members)
  {
    var expected: set<string> := {MANIFEST_FILE, CHECKSUM_FILE};
    for i := 0 to |members|
      invariant expected == {MANIFEST_FILE, CHECKSUM_FILE} + set member | member in members[..i] :: member.path
    {
      assert members[..i + 1] == members[..i] + [members[i]];
      expected := expected + {members[i].path};
    }
    assert members[..|members|] == members;
    if !directory.safe || directory.nodes.Keys != expected {
      return false;
    }
    for i := 0 to |members|
      invariant forall k :: 0 <= k < i ==> MemberMatches(codec, directory, members[k])
    {
      if !MemberMatches(codec, directory, members[i]) {
        return false;
      }
    }
    ok := true;
  }

  /** The checks of the manifest file and its detached checksum. */
  predicate Authentic(codec: Codec, directory: Directory) {
    && directory.safe && directory.Holds(MANIFEST_FILE) && directory.Holds(CHECKSUM_FILE)
    && 0 < |directory.nodes[MANIFEST_FILE].content| <= MAX_MANIFEST_BYTES
    && var checksum := ReadText(directory.nodes[CHECKSUM_FILE].content);
       checksum.Some? && IsDigest(checksum.value)
         && codec.hash(directory.nodes[MANIFEST_FILE].content) == checksum.value
  }

  /** `load_and_verify_manifest`. */
  function Load(codec: Codec, directory: Directory): Option<Manifest> {
    if !Authentic(codec, directory) then None
    else
      var document := codec.parse(directory.nodes[MANIFEST_FILE].content);
      if document.None? || document.value.id.None? then None
      else
        var manifest := Manifest(document.value.id.value, document.value.base);
        var rebuilt := Build(codec, manifest.base.profile, manifest.base.created, manifest.base.identity,
                             manifest.base.members);
        if rebuilt.None? || rebuilt.value.id != manifest.id
          || !ExactMembers(codec, directory, manifest.base.members) then None
        else Some(manifest)
  }

  /** The bytes of the manifest file. */
  function Payload(codec: Codec, manifest: Manifest): Bytes {
    codec.dump(Document(Some(manifest.id), manifest.base)) + NEWLINE
  }

  /** `write_manifest`: neither file may be there yet. */
  function Write(codec: Codec, directory: Directory, manifest: Manifest): Option<Directory>
    requires IsDigest(codec.hash(Payload(codec, manifest)))
  {
    if MANIFEST_FILE in directory.nodes || CHECKSUM_FILE in directory.nodes then None
    else
      var payload := Payload(codec, manifest);
      Some(directory.(nodes := directory.nodes[MANIFEST_FILE := Regular(payload)]
                                              [CHECKSUM_FILE := Regular(Ascii(codec.hash(payload)) + NEWLINE)]))
  }

  // ---------------------------------------------------------------------
  // Writing, then loading

  lemma StripDigest(text: string)
    requires IsDigest(text)
    ensures ReadText(Ascii(text) + NEWLINE) == Some(text)
  {
    var content := Ascii(text) + NEWLINE;
    assert StripLeft(content) == content;
    assert content[..|content| - 1] == Ascii(text);
    assert StripRight(Ascii(text)) == Ascii(text);
    assert StripRight(content) == Ascii(text);
    var stripped := Ascii(text);
    assert seq(|stripped|, i requires 0 <= i < |stripped| => (stripped[i] as int % 128) as char) == text;
  }

  /** Once sorted, a manifest is rebuilt as it is. */
  lemma RebuildsItself(codec: Codec, profile: string, created: string, identity: Identity, members: seq<Member>)
    requires codec.Valid() && Build(codec, profile, created, identity, members).Some?
    ensures var manifest := Build(codec, profile, created, identity, members).value;
            Build(codec, profile, manifest.base.created, identity, manifest.base.members) == Some(manifest)
  {
    SortKeeps(members);
    PermutedValid(members, SortedMembers(members));
    SortKeeps(SortedMembers(members));
    SortedIsUnique(SortedMembers(members), SortedMembers(SortedMembers(members)));
  }

  lemma WrittenIsAuthentic(codec: Codec, staged: Directory, manifest: Manifest)
    requires codec.Valid() && staged.safe && MANIFEST_FILE !in staged.nodes && CHECKSUM_FILE !in staged.nodes
    ensures Write(codec, staged, manifest).Some?
    ensures Authentic(codec, Write(codec, staged, manifest).value) <==> |Payload(codec, manifest)| <= MAX_MANIFEST_BYTES
  {
    assert MANIFEST_FILE != CHECKSUM_FILE;
    StripDigest(codec.hash(Payload(codec, manifest)));
  }

  lemma WrittenIsExact(codec: Codec, staged: Directory, manifest: Manifest, members: seq<Member>)
    requires codec.Valid() && staged.safe && MANIFEST_FILE !in staged.nodes && CHECKSUM_FILE !in staged.nodes
    requires staged.nodes.Keys == (set member | member in members :: member.path)
    requires forall member :: member in members ==> MemberMatches(codec, staged, member)
    requires multiset(manifest.base.members) == multiset(members)
    ensures Write(codec, staged, manifest).Some?
    ensures ExactMembers(codec, Write(codec, staged, manifest).value, manifest.base.members)
  {
    var written := Write(codec, staged, manifest).value;
    assert forall member :: member in manifest.base.members ==> member in multiset(members);
    assert forall member :: member in members ==> member in multiset(manifest.base.members);
    assert (set member | member in manifest.base.members :: member.path)
           == (set member | member in members :: member.path);
    forall member | member in manifest.base.members
      ensures MemberMatches(codec, written, member)
    {
      assert member in members && MemberMatches(codec, staged, member);
      assert member.path != MANIFEST_FILE && member.path != CHECKSUM_FILE;
      assert written.nodes[member.path] == staged.nodes[member.path];
    }
  }

  /** What was written loads as it was built, exactly when it fits the bound. */
  lemma WriteThenLoad(codec: Codec, staged: Directory, profile: string, created: string, identity: Identity,
                      members: seq<Member>)
    requires codec.Valid() && staged.safe && Build(codec, profile, created, identity, members).Some?
    requires staged.nodes.Keys == (set member | member in members :: member.path)
    requires forall member :: member in members ==> MemberMatches(codec, staged, member)
    requires MANIFEST_FILE !in staged.nodes && CHECKSUM_FILE !in staged.nodes
    ensures var manifest := Build(codec, profile, created, identity, members).value;
            var written := Write(codec, staged, manifest);
            && written.Some?
            && Load(codec, written.value) == if |Payload(codec, manifest)| <= MAX_MANIFEST_BYTES then Some(manifest)
               else None
  {
    var manifest := Build(codec, profile, created, identity, members).value;
    SortKeeps(members);
    WrittenIsAuthentic(codec, staged, manifest);
    WrittenIsExact(codec, staged, manifest, members);
    RebuildsItself(codec, profile, created, identity, members);
    assert codec.parse(Payload(codec, manifest)) == Some(Document(Some(manifest.id), manifest.base));
    assert Write(codec, staged, manifest).value.nodes[MANIFEST_FILE] == Regular(Payload(codec, manifest));
  }

  // ---------------------------------------------------------------------
  // What an identifier binds

  /** The document that the identifier of a loaded manifest is the hash of. */
  function Identified(codec: Codec, manifest: Manifest): Bytes
    requires codec.utc(manifest.base.created).Some?
  {
    var base := manifest.base;
    codec.dump(Document(None, base.(created := codec.utc(base.created).value, members := SortedMembers(base.members))))
  }

  lemma LoadedIsRebuilt(codec: Codec, directory: Directory)
    requires Load(codec, directory).Some?
    ensures var manifest := Load(codec, directory).value;
            && codec.utc(manifest.base.created).Some? && manifest.id == codec.hash(Identified(codec, manifest))
            && ExactMembers(codec, directory, manifest.base.members)
  {
  }

  /** Two directories that load with the same identifier hold the same members
      byte for byte and nothing else, unless two of the contents that were hashed
      differ and have the same digest. */
  lemma IdentifierBinds(codec: Codec, one: Directory, other: Directory)
    requires codec.Valid() && Load(codec, one).Some? && Load(codec, other).Some?
    requires Load(codec, one).value.id == Load(codec, other).value.id
    ensures var first, second := Load(codec, one).value, Load(codec, other).value;
            || codec.Collide(Identified(codec, first), Identified(codec, second))
            || (multiset(first.base.members) == multiset(second.base.members)
                && one.nodes.Keys == other.nodes.Keys
                && forall path :: path in one.nodes && path !in {MANIFEST_FILE, CHECKSUM_FILE} ==>
                     SameNode(codec, one, other, path))
  {
    var first, second := Load(codec, one).value, Load(codec, other).value;
    LoadedIsRebuilt(codec, one);
    LoadedIsRebuilt(codec, other);
    if !codec.Collide(Identified(codec, first), Identified(codec, second)) {
      SameDocument(codec, first, second);
      SameMembers(codec, one, other, first.base.members, second.base.members);
    }
  }

  /** The same bytes in both, or a collision of those bytes. */
  predicate SameNode(codec: Codec, one: Directory, other: Directory, path: string) {
    one.Holds(path) && other.Holds(path) &&
    (one.nodes[path] == other.nodes[path] || codec.Collide(one.nodes[path].content, other.nodes[path].content))
  }

  lemma SameMembers(codec: Codec, one: Directory, other: Directory, first: seq<Member>, second: seq<Member>)
    requires ExactMembers(codec, one, first) && ExactMembers(codec, other, second)
             && multiset(first) == multiset(second)
    ensures one.nodes.Keys == other.nodes.Keys
    ensures forall path :: path in one.nodes && path !in {MANIFEST_FILE, CHECKSUM_FILE} ==>
              SameNode(codec, one, other, path)
  {
    SamePaths(first, second);
    forall path | path in one.nodes && path !in {MANIFEST_FILE, CHECKSUM_FILE}
      ensures SameNode(codec, one, other, path)
    {
      var member :| member in first && member.path == path;
      assert member in multiset(second);
      assert MemberMatches(codec, one, member) && MemberMatches(codec, other, member);
    }
  }

  lemma SamePaths(one: seq<Member>, other: seq<Member>)
    requires multiset(one) == multiset(other)
    ensures (set member | member in one :: member.path) == (set member | member in other :: member.path)
  {
    assert forall member :: member in one ==> member in multiset(other);
    assert forall member :: member in other ==> member in multiset(one);
  }

  lemma SameDocument(codec: Codec, first: Manifest, second: Manifest)
    requires codec.Valid() && codec.utc(first.base.created).Some? && codec.utc(second.base.created).Some?
    requires Identified(codec, first) == Identified(codec, second)
    ensures multiset(first.base.members) == multiset(second.base.members)
    ensures codec.utc(first.base.created) == codec.utc(second.base.created) && first.base.profile == second.base.profile
    ensures first.base.identity == second.base.identity
  {
    var one := Document(None,
                        first.base.(created := codec.utc(first.base.created).value,
                                    members := SortedMembers(first.base.members)));
    var other := Document(None,
                          second.base.(created := codec.utc(second.base.created).value,
                                       members := SortedMembers(second.base.members)));
    assert codec.parse(codec.dump(one)) == Some(one) && codec.parse(codec.dump(other)) == Some(other);
    SortKeeps(first.base.members);
    SortKeeps(second.base.members);
  }
}
