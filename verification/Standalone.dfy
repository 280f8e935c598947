/** `StandaloneRecoveryAdapter.backup` and `restore`: from a data directory to a
    recovery set, its manifest, and back to a new data directory. SQLite and the
    migrations are whatever functions they are. */
module Standalone {
  import opened Basics
  import opened Manifest
  import opened Publication

  /** The path of an object below the object tree. */
  datatype Key = Key(path: string)

  /** A data directory: its database file and its object tree. */
  datatype Instance = Instance(database: Bytes, objects: map<Key, Bytes>)

  const SQLITE_PAYLOAD := "database/metadata.sqlite3"
  const OBJECTS := "objects/"

  /** What SQLite and the migrations make of a database file: an online snapshot,
      the integrity check, a known and complete schema at its own revision, the
      same at the head, the keys it refers to, and the migration to the head. */
  datatype Engine = Engine(
    snapshot: Bytes -> Bytes, intact: Bytes -> bool, restorable: Bytes -> bool, complete: Bytes -> bool,
      atHead: Bytes -> bool,
    references: Bytes -> set<Key>, migrate: Bytes -> Option<Bytes>, validKey: Key -> bool)
  {
    /** The checks of `_verify_stable_references_sqlite`. */
    predicate Closed(database: Bytes, objects: map<Key, Bytes>) {
      complete(database) && references(database) <= objects.Keys
    }
  }

  function ObjectPath(key: Key): string {
    OBJECTS + key.path
  }

  predicate IsObjectPath(path: string) {
    |OBJECTS| <= |path| && path[..|OBJECTS|] == OBJECTS
  }

  function KeyOf(path: string): Key
    requires IsObjectPath(path)
  {
    Key(path[|OBJECTS|..])
  }

  lemma ObjectPathKey(key: Key)
    ensures IsObjectPath(ObjectPath(key)) && KeyOf(ObjectPath(key)) == key && ObjectPath(key) != SQLITE_PAYLOAD
  {
    assert ObjectPath(key)[..|OBJECTS|] == OBJECTS;
    assert SQLITE_PAYLOAD[0] == 'd' && ObjectPath(key)[0] == 'o';
  }

  lemma KeyObjectPath(path: string)
    requires IsObjectPath(path)
    ensures ObjectPath(KeyOf(path)) == path && path != SQLITE_PAYLOAD
  {
    assert SQLITE_PAYLOAD[0] == 'd' && path[0] == OBJECTS[0] == 'o';
  }

  function MemberOf(codec: Codec, path: string, content: Bytes): Member {
    Member(path, |content|, codec.hash(content))
  }

  /** A recovery set holds exactly the snapshot and the objects. */
  ghost predicate Staged(engine: Engine, source: Instance, nodes: map<string, Node>) {
    && (forall path :: path in nodes <==>
        path == SQLITE_PAYLOAD || (IsObjectPath(path) && KeyOf(path) in source.objects))
    && (forall path :: path in nodes ==>
          nodes[path] == Regular(if path == SQLITE_PAYLOAD then engine.snapshot(source.database)
                                 else if IsObjectPath(path) && KeyOf(path) in source.objects
                                      then source.objects[KeyOf(path)] else []))
  }

  function PathsOf(members: seq<Member>): set<string> {
    if members == [] then {} else PathsOf(members[..|members| - 1]) + {members[|members| - 1].path}
  }

  lemma {:induction false} PathsOfMembers(members: seq<Member>)
    ensures PathsOf(members) == (set member | member in members :: member.path)
  {
    if members != [] {
      PathsOfMembers(members[..|members| - 1]);
      assert members == members[..|members| - 1] + [members[|members| - 1]];
    }
  }

  /** The members describe exactly the staged files. */
  ghost predicate Described(codec: Codec, staged: Directory, members: seq<Member>) {
    && staged.safe && UniquePaths(members) && staged.nodes.Keys == PathsOf(members)
    && forall member :: member in members ==> MemberMatches(codec, staged, member)
  }

  lemma DescribedMore(codec: Codec, staged: Directory, members: seq<Member>, path: string, content: Bytes)
    requires Described(codec, staged, members) && path !in staged.nodes
    ensures Described(codec, staged.(nodes := staged.nodes[path := Regular(content)]),
                      members + [MemberOf(codec, path, content)])
  {
    var now, more := staged.(nodes := staged.nodes[path := Regular(content)]),
      members + [MemberOf(codec, path, content)];
    assert forall member :: member in members ==> member.path in staged.nodes;
    assert more[..|more| - 1] == members;
    forall member | member in more
      ensures MemberMatches(codec, now, member)
    {
      assert member in members || member == MemberOf(codec, path, content);
    }
  }

  lemma StagedMore(engine: Engine, source: Instance, nodes: map<string, Node>, key: Key, content: Bytes)
    requires Staged(engine, source, nodes) && key !in source.objects
    ensures ObjectPath(key) !in nodes
    ensures Staged(engine, source.(objects := source.objects[key := content]),
                   nodes[ObjectPath(key) := Regular(content)])
  {
    ObjectPathKey(key);
    forall path | IsObjectPath(path) {
      KeyObjectPath(path);
    }
  }

  /** A staging directory with the members that describe it. */
  datatype Copy = Copy(staged: Directory, members: seq<Member>)

  ghost predicate IsCopy(engine: Engine, codec: Codec, source: Instance, copy: Copy) {
    Staged(engine, source, copy.staged.nodes) && Described(codec, copy.staged, copy.members)
  }

  function Snapshot(engine: Engine, codec: Codec, database: Bytes): Copy {
    var content := engine.snapshot(database);
    Copy(Directory(map[SQLITE_PAYLOAD := Regular(content)], true), [MemberOf(codec, SQLITE_PAYLOAD, content)])
  }

  function WithObject(codec: Codec, copy: Copy, key: Key, content: Bytes): Copy {
    Copy(copy.staged.(nodes := copy.staged.nodes[ObjectPath(key) := Regular(content)]),
         copy.members + [MemberOf(codec, ObjectPath(key), content)])
  }

  lemma SnapshotCopies(engine: Engine, codec: Codec, database: Bytes)
    ensures IsCopy(engine, codec, Instance(database, map[]), Snapshot(engine, codec, database))
  {
    var content := engine.snapshot(database);
    DescribedMore(codec, Directory(map[], true), [], SQLITE_PAYLOAD, content);
    assert [] + [MemberOf(codec, SQLITE_PAYLOAD, content)] == [MemberOf(codec, SQLITE_PAYLOAD, content)];
    assert map[][SQLITE_PAYLOAD := Regular(content)] == map[SQLITE_PAYLOAD := Regular(content)];
  }

  lemma ObjectCopies(engine: Engine, codec: Codec, source: Instance, copy: Copy, key: Key, content: Bytes)
    requires IsCopy(engine, codec, source, copy) && key !in source.objects
    ensures IsCopy(engine, codec, source.(objects := source.objects[key := content]),
                   WithObject(codec, copy, key, content))
  {
    StagedMore(engine, source, copy.staged.nodes, key, content);
    DescribedMore(codec, copy.staged, copy.members, ObjectPath(key), content);
  }

  /** The object tree of a running instance. */
  class ObjectTree {
    var objects: map<Key, Bytes>
    /** Whether anything changed since the backup began. */
    ghost var disturbed: bool

    constructor (objects: map<Key, Bytes>)
      ensures this.objects == objects && !disturbed
    {
      this.objects, disturbed := objects, false;
    }

    /** Others may add, replace or remove objects. */
    method Others()
      modifies this
      ensures old(disturbed) ==> disturbed
      ensures !disturbed ==> objects == old(objects)
    {
      var quiet: bool := *;
      if !quiet {
        var now: map<Key, Bytes> := *;
        objects, disturbed := now, true;
      }
    }
  }

  predicate SameDigest(codec: Codec, one: Bytes, other: Bytes) {
    |one| == |other| && codec.hash(one) == codec.hash(other)
  }

  predicate SameDigests(codec: Codec, one: map<Key, Bytes>, other: map<Key, Bytes>) {
    one.Keys == other.Keys && forall key :: key in one ==> SameDigest(codec, one[key], other[key])
  }

  /** Copies one object and compares the copy with what was listed before. */
  method CopyObject(engine: Engine, codec: Codec, listed: map<Key, Bytes>, tree: ObjectTree, copied: Instance,
                    copy: Copy, key: Key)
    returns (ok: bool, more: Instance, moreCopy: Copy)
    requires key in listed && key !in copied.objects && IsCopy(engine, codec, copied, copy)
    modifies tree
    ensures old(tree.disturbed) ==> tree.disturbed
    ensures !tree.disturbed ==> tree.objects == old(tree.objects)
    ensures ok ==>
              engine.validKey(key) && key in more.objects
                && more == copied.(objects := copied.objects[key := more.objects[key]])
    ensures ok ==> SameDigest(codec, listed[key], more.objects[key])
    ensures ok && !tree.disturbed ==> key in tree.objects && more.objects[key] == tree.objects[key]
    ensures ok ==> IsCopy(engine, codec, more, moreCopy)
  {
    ok := *;
    more, moreCopy := copied, copy;
    tree.Others();
    if !engine.validKey(key) || key !in tree.objects || !SameDigest(codec, listed[key], tree.objects[key]) {
      ok := false;
    }
    if ok {
      ObjectCopies(engine, codec, copied, copy, key, tree.objects[key]);
      more := copied.(objects := copied.objects[key := tree.objects[key]]);
      moreCopy := WithObject(codec, copy, key, tree.objects[key]);
    }
  }

  /** Part of the listed objects has been copied. */
  ghost predicate Copying(engine: Engine, codec: Codec, listed: map<Key, Bytes>, todo: set<Key>, copied: Instance,
                          copy: Copy, exactly: bool) {
    && IsCopy(engine, codec, copied, copy) && copied.objects.Keys == listed.Keys - todo
    && (forall key :: key in copied.objects && key in listed ==>
          engine.validKey(key) && SameDigest(codec, listed[key], copied.objects[key])
          && (exactly ==> copied.objects[key] == listed[key]))
  }

  lemma CopyingMore(engine: Engine, codec: Codec, listed: map<Key, Bytes>, todo: set<Key>, copied: Instance, copy: Copy,
                    exactly: bool, key: Key, more: Instance, moreCopy: Copy, still: bool)
    requires Copying(engine, codec, listed, todo, copied, copy, exactly) && key in todo && key in listed
             && (still ==> exactly)
    requires engine.validKey(key) && key in more.objects
             && more == copied.(objects := copied.objects[key := more.objects[key]])
    requires SameDigest(codec, listed[key], more.objects[key]) && (still ==> more.objects[key] == listed[key])
    requires IsCopy(engine, codec, more, moreCopy)
    ensures Copying(engine, codec, listed, todo - {key}, more, moreCopy, still)
  {
    assert more.objects.Keys == copied.objects.Keys + {key};
  }

  /** Copies every object that was listed. */
  method CopyObjects(engine: Engine, codec: Codec, tree: ObjectTree, started: Instance, start: Copy)
    returns (ok: bool, copied: Instance, copy: Copy)
    requires !tree.disturbed && started.objects == map[] && IsCopy(engine, codec, started, start)
    modifies tree
    ensures !tree.disturbed ==> tree.objects == old(tree.objects)
    ensures ok ==>
              Copying(engine, codec, old(tree.objects), {}, copied, copy, !tree.disturbed)
                && copied.database == started.database
  {
    ok, copied, copy := true, started, start;
    var listed := tree.objects;
    var todo := listed.Keys;
    while todo != {}
      invariant todo <= listed.Keys && (!tree.disturbed ==> tree.objects == listed)
      invariant Copying(engine, codec, listed, todo, copied, copy, !tree.disturbed)
                && copied.database == started.database
      decreases |todo|
    {
      var key :| key in todo;
      ghost var still, was, wasCopy := !tree.disturbed, copied, copy;
      ok, copied, copy := CopyObject(engine, codec, listed, tree, copied, copy, key);
      if !ok {
        return;
      }
      CopyingMore(engine, codec, listed, todo, was, wasCopy, still, key, copied, copy, !tree.disturbed);
      todo := todo - {key};
    }
    ok := true;
  }

  /** Copies the snapshot and every object into the staging directory. What was
      copied has the digests of what was there before and of what is there after;
      an undisturbed tree is copied as it is. */
  method Backup(engine: Engine, codec: Codec, database: Bytes, tree: ObjectTree)
    returns (ok: bool, copy: Copy, ghost source: Instance)
    requires !tree.disturbed
    modifies tree
    ensures ok ==> IsCopy(engine, codec, source, copy) && source.database == database
    ensures ok ==>
              SameDigests(codec, old(tree.objects), source.objects) && SameDigests(codec, source.objects, tree.objects)
    ensures ok && !tree.disturbed ==> source.objects == old(tree.objects)
    ensures ok ==> engine.intact(engine.snapshot(database)) && forall key :: key in source.objects ==>
              engine.validKey(key)
  {
    var started := Instance(database, map[]);
    copy, source := Snapshot(engine, codec, database), started;
    SnapshotCopies(engine, codec, database);
    ok := engine.intact(engine.snapshot(database));
    if ok {
      var copied;
      ok, copied, copy := CopyObjects(engine, codec, tree, started, copy);
      source := copied;
      if ok {
        tree.Others();
        ok := SameDigests(codec, copied.objects, tree.objects);
      }
    }
  }

  // ---------------------------------------------------------------------
  // Restoring

  datatype Outcome = Restored | Rejected | Failed

  /** What the members of a verified set unpack to. */
  ghost predicate Unpacks(nodes: map<string, Node>, members: seq<Member>, instance: Instance) {
    && (forall key :: key in instance.objects <==> HasPath(members, ObjectPath(key)))
    && (forall key :: key in instance.objects ==>
          ObjectPath(key) in nodes && nodes[ObjectPath(key)] == Regular(instance.objects[key]))
    && (HasPath(members, SQLITE_PAYLOAD) ==>
          SQLITE_PAYLOAD in nodes && nodes[SQLITE_PAYLOAD] == Regular(instance.database))
  }

  predicate HasPath(members: seq<Member>, path: string) {
    exists member :: member in members && member.path == path
  }

  /** The database and objects pass every check before and after migration. */
  predicate Restorable(engine: Engine, instance: Instance) {
    && engine.restorable(instance.database) && engine.intact(instance.database)
    && engine.Closed(instance.database, instance.objects)
    && engine.migrate(instance.database).Some?
    && var migrated := engine.migrate(instance.database).value;
       engine.atHead(migrated) && engine.Closed(migrated, instance.objects)
  }

  /** What a restore of an unpacked set ends with. */
  function Migrated(engine: Engine, instance: Instance): Instance
    requires engine.migrate(instance.database).Some?
  {
    Instance(engine.migrate(instance.database).value, instance.objects)
  }

  /** A complete target: at the head, with every reference in place. */
  predicate IsComplete(engine: Engine, instance: Instance) {
    engine.atHead(instance.database) && engine.Closed(instance.database, instance.objects)
  }

  lemma NothingUnpacked(nodes: map<string, Node>, database: Bytes)
    ensures Unpacks(nodes, [], Instance(database, map[]))
  {
  }

  /** One more member copied into the stage. */
  function UnpackedMember(instance: Instance, path: string, content: Bytes): Instance {
    if path == SQLITE_PAYLOAD then instance.(database := content)
    else if IsObjectPath(path) then instance.(objects := instance.objects[KeyOf(path) := content])
    else instance
  }

  lemma UnpacksMore(nodes: map<string, Node>, members: seq<Member>, instance: Instance, member: Member, content: Bytes)
    requires Unpacks(nodes, members, instance) && member.path in nodes && nodes[member.path] == Regular(content)
    ensures Unpacks(nodes, members + [member], UnpackedMember(instance, member.path, content))
  {
    var more, now := members + [member], UnpackedMember(instance, member.path, content);
    assert forall path :: HasPath(more, path) <==> HasPath(members, path) || path == member.path by {
      assert more[|members|] == member;
    }
    if IsObjectPath(member.path) {
      KeyObjectPath(member.path);
    }
    forall key: Key
      ensures key in now.objects <==> HasPath(more, ObjectPath(key))
    {
      ObjectPathKey(key);
    }
    forall key | key in now.objects
      ensures ObjectPath(key) in nodes && nodes[ObjectPath(key)] == Regular(now.objects[key])
    {
      ObjectPathKey(key);
    }
  }

  class Destination {
    var target: Option<Instance>
    /** The target after every step, as a crash would leave it. */
    ghost var seen: seq<Option<Instance>>

    constructor ()
      ensures target == None && seen == []
    {
      target, seen := None, [];
    }

    /** Copies the members into a stage beside the target. */
    method Unpack(directory: Directory, members: seq<Member>) returns (ok: bool, stage: Instance)
      modifies this`seen
      ensures ok ==> Unpacks(directory.nodes, members, stage)
      ensures forall state :: state in seen ==> state in old(seen) || state == target
    {
      stage := Instance([], map[]);
      NothingUnpacked(directory.nodes, []);
      for i := 0 to |members|
        invariant Unpacks(directory.nodes, members[..i], stage)
        invariant forall state :: state in seen ==> state in old(seen) || state == target
      {
        var works: bool := *;
        if !works || !directory.Holds(members[i].path) {
          return false, stage;
        }
        assert members[..i + 1] == members[..i] + [members[i]];
        UnpacksMore(directory.nodes, members[..i], stage, members[i], directory.nodes[members[i].path].content);
        stage := UnpackedMember(stage, members[i].path, directory.nodes[members[i].path].content);
        seen := seen + [target];
      }
      assert members[..|members|] == members;
      ok := true;
    }

    /** Restores a verified set into an absent target. In every state on the way
        the target is absent or complete; it is rejected only when a check fails. */
    method Restore(engine: Engine, directory: Directory, members: seq<Member>)
      returns (outcome: Outcome, ghost unpacked: Instance)
      requires target == None && seen == []
      modifies this
      ensures outcome.Restored? ==>
                && Unpacks(directory.nodes, members, unpacked) && Restorable(engine, unpacked)
                && target == Some(Migrated(engine, unpacked))
      ensures !outcome.Restored? ==> target == None
      ensures outcome.Rejected? && HasPath(members, SQLITE_PAYLOAD) ==>
                Unpacks(directory.nodes, members, unpacked) && !Restorable(engine, unpacked)
      ensures forall state :: state in seen ==> state == None || (state.Some? && IsComplete(engine, state.value))
    {
      unpacked := Instance([], map[]);
      if !HasPath(members, SQLITE_PAYLOAD) {
        return Rejected, unpacked;
      }
      var ok, stage := Unpack(directory, members);
      unpacked := stage;
      if !ok {
        return Failed, unpacked;
      }
      if !engine.restorable(stage.database) || !engine.intact(stage.database)
        || !engine.Closed(stage.database, stage.objects) {
        return Rejected, unpacked;
      }
      var migrated := engine.migrate(stage.database);
      if migrated.None? {
        return Rejected, unpacked;
      }
      stage := stage.(database := migrated.value);
      seen := seen + [target];
      if !engine.atHead(stage.database) || !engine.Closed(stage.database, stage.objects) {
        return Rejected, unpacked;
      }
      target := Some(stage);
      seen := seen + [target];
      outcome := Restored;
    }
  }

  // ---------------------------------------------------------------------
  // There and back

  lemma PathsFound(one: seq<Member>, other: seq<Member>, path: string)
    requires multiset(one) == multiset(other)
    ensures HasPath(one, path) <==> path in PathsOf(other)
  {
    PathsOfMembers(other);
    assert forall member :: member in one <==> member in multiset(other);
  }

  lemma ObjectBack(engine: Engine, codec: Codec, source: Instance, copy: Copy, nodes: map<string, Node>,
                   members: seq<Member>, unpacked: Instance, key: Key)
    requires IsCopy(engine, codec, source, copy) && multiset(members) == multiset(copy.members)
    requires forall path :: path in copy.staged.nodes ==> path in nodes && nodes[path] == copy.staged.nodes[path]
    requires Unpacks(nodes, members, unpacked)
    ensures key in unpacked.objects <==> key in source.objects
    ensures key in source.objects ==> unpacked.objects[key] == source.objects[key]
  {
    ObjectPathKey(key);
    PathsFound(members, copy.members, ObjectPath(key));
  }

  lemma UnpacksSource(engine: Engine, codec: Codec, source: Instance, copy: Copy, nodes: map<string, Node>,
                      members: seq<Member>, unpacked: Instance)
    requires IsCopy(engine, codec, source, copy) && multiset(members) == multiset(copy.members)
    requires forall path :: path in copy.staged.nodes ==> path in nodes && nodes[path] == copy.staged.nodes[path]
    requires Unpacks(nodes, members, unpacked)
    ensures unpacked == Instance(engine.snapshot(source.database), source.objects)
  {
    PathsFound(members, copy.members, SQLITE_PAYLOAD);
    forall key: Key
      ensures key in unpacked.objects <==> key in source.objects
      ensures key in source.objects ==> unpacked.objects[key] == source.objects[key]
    {
      ObjectBack(engine, codec, source, copy, nodes, members, unpacked, key);
    }
    assert unpacked.objects == source.objects;
  }

  /** The paths of a copy are no manifest files. */
  lemma CopyHasNoManifest(engine: Engine, codec: Codec, source: Instance, copy: Copy)
    requires IsCopy(engine, codec, source, copy)
    ensures MANIFEST_FILE !in copy.staged.nodes && CHECKSUM_FILE !in copy.staged.nodes
  {
    assert MANIFEST_FILE[0] == 'm' && CHECKSUM_FILE[0] == 'm' && SQLITE_PAYLOAD[0] == 'd' && OBJECTS[0] == 'o';
    forall path | IsObjectPath(path)
      ensures path[0] == 'o'
    {
      KeyObjectPath(path);
    }
  }

  /** A published set holds the copy, byte for byte. */
  predicate SameFiles(staged: Directory, published: Directory) {
    forall path :: path in staged.nodes ==> path in published.nodes && published.nodes[path] == staged.nodes[path]
  }

  /** The same, but for files that differ and share a digest. */
  predicate SameUpToDigest(codec: Codec, staged: Directory, published: Directory) {
    forall path :: path in staged.nodes ==> SameNode(codec, published, staged, path)
  }

  lemma WrittenHoldsCopy(engine: Engine, codec: Codec, source: Instance, copy: Copy, manifest: Manifest)
    requires codec.Valid() && IsCopy(engine, codec, source, copy) && HoldsMembers(codec, copy.staged, manifest)
    ensures Write(codec, copy.staged, manifest).Some?
            && SameFiles(copy.staged, Write(codec, copy.staged, manifest).value)
  {
    CopyHasNoManifest(engine, codec, source, copy);
  }

  lemma CopyHolds(engine: Engine, codec: Codec, source: Instance, copy: Copy)
    requires IsCopy(engine, codec, source, copy)
    ensures SameUpToDigest(codec, copy.staged, copy.staged)
  {
  }

  /** What was published, by this backup or before, is the copy up to digests. */
  lemma PublishedHoldsCopy(codec: Codec, staged: Directory, published: Directory, manifest: Manifest)
    requires codec.Valid() && Canonical(codec, manifest) && HoldsMembers(codec, staged, manifest)
    requires Load(codec, published) == Some(manifest)
    ensures SameUpToDigest(codec, staged, published)
  {
    LoadedIsRebuilt(codec, published);
    forall path | path in staged.nodes
      ensures SameNode(codec, published, staged, path)
    {
      var member :| member in manifest.base.members && member.path == path;
      assert MemberMatches(codec, published, member) && MemberMatches(codec, staged, member);
    }
  }
  lemma CopyIsStaged(engine: Engine, codec: Codec, source: Instance, copy: Copy, created: string, identity: Identity)
    requires codec.Valid() && IsCopy(engine, codec, source, copy)
    ensures var manifest := Build(codec, "standalone", created, identity, copy.members);
            manifest.Some? ==>
              && Canonical(codec, manifest.value) && HoldsMembers(codec, copy.staged, manifest.value)
              && multiset(manifest.value.base.members) == multiset(copy.members)
  {
    var manifest := Build(codec, "standalone", created, identity, copy.members);
    if manifest.Some? {
      RebuildsItself(codec, "standalone", created, identity, copy.members);
      CopyHasNoManifest(engine, codec, source, copy);
      PathsOfMembers(copy.members);
      SortKeeps(copy.members);
      SamePaths(manifest.value.base.members, copy.members);
      assert forall member :: member in manifest.value.base.members ==> member in multiset(copy.members);
    }
  }

  /** A loaded set of the copy: the one that was there, or the copy itself. */
  ghost predicate Found(codec: Codec, copy: Copy, before: Entries, now: Entries, loaded: Manifest) {
    && loaded.id in now && multiset(loaded.base.members) == multiset(copy.members)
    && SameUpToDigest(codec, copy.staged, now[loaded.id])
    && if loaded.id in before then now[loaded.id] == before[loaded.id] else SameFiles(copy.staged, now[loaded.id])
  }

  lemma PublishedIsFound(engine: Engine, codec: Codec, source: Instance, copy: Copy, before: Entries, now: Entries,
                         manifest: Manifest)
    requires codec.Valid() && IsCopy(engine, codec, source, copy)
    requires Canonical(codec, manifest) && HoldsMembers(codec, copy.staged, manifest)
    requires multiset(manifest.base.members) == multiset(copy.members)
    requires manifest.id in now && Load(codec, now[manifest.id]) == Some(manifest)
    requires if manifest.id in before then now[manifest.id] == before[manifest.id]
             else Some(now[manifest.id]) == Write(codec, copy.staged, manifest)
    ensures Found(codec, copy, before, now, manifest)
  {
    PublishedHoldsCopy(codec, copy.staged, now[manifest.id], manifest);
    WrittenHoldsCopy(engine, codec, source, copy, manifest);
  }

  /** Publishes the set of a copy and loads what is there then. */
  method PublishCopy(archive: Archive, pending: string, engine: Engine, ghost source: Instance, copy: Copy,
                     manifest: Manifest)
    returns (outcome: Outcome, loaded: Option<Manifest>)
    requires archive.codec.Valid() && IsCopy(engine, archive.codec, source, copy)
    requires Canonical(archive.codec, manifest) && HoldsMembers(archive.codec, copy.staged, manifest)
    requires multiset(manifest.base.members) == multiset(copy.members)
    requires !IsDigest(pending) && archive.Undisturbed(archive.entries, pending)
    modifies archive
    ensures loaded.None? ==> !outcome.Restored?
    ensures outcome.Rejected? ==> !Fits(archive.codec, manifest)
    ensures loaded.Some? ==>
              outcome.Failed? && Found(archive.codec, copy, old(archive.entries), archive.entries, loaded.value)
    ensures Sound(archive.codec, old(archive.entries)) && Fits(archive.codec, manifest) ==> archive.SoundSoFar()
  {
    outcome, loaded := Failed, None;
    ghost var before := archive.entries;
    var filled := archive.Fill(before, pending, copy.staged);
    if !filled {
      outcome := Abandon(archive, before, pending);
      return;
    }
    var ended := archive.Publish(before, pending, manifest);
    if ended.Published? {
      loaded := Load(archive.codec, archive.entries[manifest.id]);
      if loaded.None? {
        outcome := Rejected;
      } else {
        PublishedIsFound(engine, archive.codec, source, copy, before, archive.entries, manifest);
      }
    }
  }

  /** Restores a set that holds a copy. */
  method RestoreFound(destination: Destination, engine: Engine, codec: Codec, ghost source: Instance, ghost copy: Copy,
                      found: Directory, members: seq<Member>)
    returns (outcome: Outcome)
    requires destination.target == None && destination.seen == []
    requires IsCopy(engine, codec, source, copy) && multiset(members) == multiset(copy.members)
    modifies destination
    ensures outcome.Restored? && SameFiles(copy.staged, found) ==>
              && engine.migrate(engine.snapshot(source.database)).Some?
              && destination.target
                 == Some(Instance(engine.migrate(engine.snapshot(source.database)).value, source.objects))
    ensures !outcome.Restored? ==> destination.target == None
    ensures outcome.Rejected? && SameFiles(copy.staged, found) ==>
              !Restorable(engine, Instance(engine.snapshot(source.database), source.objects))
    ensures forall state :: state in destination.seen ==>
              state == None || (state.Some? && IsComplete(engine, state.value))
  {
    PathsFound(members, copy.members, SQLITE_PAYLOAD);
    ghost var unpacked;
    outcome, unpacked := destination.Restore(engine, found, members);
    if (outcome.Restored? || outcome.Rejected?) && SameFiles(copy.staged, found) {
      UnpacksSource(engine, codec, source, copy, found.nodes, members, unpacked);
    }
  }

  /** Backup, publication, load and restore into a new data directory: the same
      objects and the migrated snapshot come back, whether the set was published
      now or before, unless two different files share a digest. A set is rejected
      only when the source fails a check, is no valid set of members, or its
      manifest does not fit. At every moment each identifier in the archive is
      absent or loads as its manifest. */
  method BackupAndRestore(engine: Engine, archive: Archive, pending: string, database: Bytes, tree: ObjectTree,
                          created: string, identity: Identity)
    returns (outcome: Outcome, destination: Destination, ghost source: Instance, ghost copy: Copy,
             ghost published: Directory)
    requires archive.codec.Valid() && !tree.disturbed
    requires !IsDigest(pending) && archive.Undisturbed(archive.entries, pending)
    modifies tree, archive
    ensures !outcome.Failed? ==>
              && source.database == database && SameDigests(archive.codec, old(tree.objects), source.objects)
              && IsCopy(engine, archive.codec, source, copy) && SameUpToDigest(archive.codec, copy.staged, published)
    ensures !outcome.Failed? && !tree.disturbed ==> source.objects == old(tree.objects)
    ensures !outcome.Failed? ==>
              SameFiles(copy.staged, published)
                || (exists id :: id in old(archive.entries) && published == old(archive.entries)[id])
    ensures outcome.Restored? && SameFiles(copy.staged, published) ==>
              && engine.migrate(engine.snapshot(source.database)).Some?
              && destination.target
                 == Some(Instance(engine.migrate(engine.snapshot(source.database)).value, source.objects))
    ensures !outcome.Restored? ==> destination.target == None
    ensures forall state :: state in destination.seen ==>
              state == None || (state.Some? && IsComplete(engine, state.value))
    ensures outcome.Rejected? && SameFiles(copy.staged, published)
            && Restorable(engine, Instance(engine.snapshot(source.database), source.objects)) ==>
              !Publishable(archive.codec, copy, created, identity)
    ensures Sound(archive.codec, old(archive.entries)) && !Oversized(archive.codec, copy, created, identity) ==>
              archive.SoundSoFar()
  {
    destination := new Destination();
    var ok, copied;
    ok, copied, source := Backup(engine, archive.codec, database, tree);
    copy, published := copied, copied.staged;
    if !ok {
      outcome := Abandon(archive, archive.entries, pending);
      return;
    }
    CopyHolds(engine, archive.codec, source, copied);
    var manifest := Build(archive.codec, "standalone", created, identity, copied.members);
    if manifest.None? {
      var _ := Abandon(archive, archive.entries, pending);
      outcome := Rejected;
      return;
    }
    CopyIsStaged(engine, archive.codec, source, copied, created, identity);
    var loaded;
    outcome, loaded := PublishCopy(archive, pending, engine, source, copied, manifest.value);
    if loaded.Some? {
      published := archive.entries[loaded.value.id];
      outcome := RestoreFound(destination, engine, archive.codec, source, copied, archive.entries[loaded.value.id],
                              loaded.value.base.members);
    }
  }

  /** A failed backup: the staging directory goes, if it can be removed. */
  method Abandon(archive: Archive, ghost before: Entries, pending: string) returns (outcome: Outcome)
    requires !IsDigest(pending) && archive.Undisturbed(before, pending)
    modifies archive
    ensures outcome.Failed? && archive.Undisturbed(before, pending)
    ensures Sound(archive.codec, before) ==> archive.SoundSoFar()
  {
    var _ := archive.Discard(before, pending);
    if Sound(archive.codec, before) {
      archive.UndisturbedIsSound(before, pending);
    }
    outcome := Failed;
  }

  /** The copy makes a manifest that fits its bound. */
  predicate Publishable(codec: Codec, copy: Copy, created: string, identity: Identity) {
    var manifest := Build(codec, "standalone", created, identity, copy.members);
    manifest.Some? && Fits(codec, manifest.value)
  }

  /** The copy makes a manifest that does not fit. */
  predicate Oversized(codec: Codec, copy: Copy, created: string, identity: Identity) {
    var manifest := Build(codec, "standalone", created, identity, copy.members);
    manifest.Some? && !Fits(codec, manifest.value)
  }
}
