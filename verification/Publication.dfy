/** How `RecoveryService` publishes a recovery set: a staging directory inside the
    backup directory is filled, gets its manifest and is renamed to the identifier
    of the manifest, unless a set of that identifier is there already. The lock on
    the backup directory keeps other backups away. */
module Publication {
  import opened Basics
  import opened Manifest

  /** After a call that failed the set may be published or not. */
  datatype Outcome = Published | OtherContent | Unreadable | CallFailed

  /** The recovery sets of a backup directory, finished or not, by name. */
  type Entries = map<string, Directory>

  function At(entries: Entries, name: string): Option<Directory> {
    if name in entries then Some(entries[name]) else None
  }

  function Without(entries: Entries, name: string): Entries {
    map each | each in entries && each != name :: entries[each]
  }

  ghost predicate Same(before: Entries, now: Entries, pending: string) {
    forall name :: name != pending ==> At(now, name) == At(before, name)
  }

  lemma SameAt(before: Entries, now: Entries, pending: string, name: string)
    requires Same(before, now, pending) && name != pending
    ensures name in now <==> name in before
    ensures name in now ==> now[name] == before[name]
  {
    assert At(now, name) == At(before, name);
  }

  /** A manifest as `build_manifest` makes it. */
  predicate Canonical(codec: Codec, manifest: Manifest) {
    var base := manifest.base;
    Build(codec, base.profile, base.created, base.identity, base.members) == Some(manifest)
  }

  /** The staged files are exactly the members of the manifest. */
  predicate HoldsMembers(codec: Codec, staged: Directory, manifest: Manifest) {
    && staged.safe && MANIFEST_FILE !in staged.nodes && CHECKSUM_FILE !in staged.nodes
    && staged.nodes.Keys == (set member | member in manifest.base.members :: member.path)
    && forall member :: member in manifest.base.members ==> MemberMatches(codec, staged, member)
  }

  predicate Fits(codec: Codec, manifest: Manifest) {
    |Payload(codec, manifest)| <= MAX_MANIFEST_BYTES
  }

  /** What a backup may have done to the directory by some moment: only its staging
      directory differs, and where nothing was published under the identifier the
      whole set may be by now. */
  ghost predicate Midway(before: Entries, now: Entries, pending: string, id: string, published: Directory) {
    forall name :: name != pending ==>
      At(now, name) == At(before, name) || (name == id && At(before, name) == None && At(now, name) == Some(published))
  }

  /** Whatever is published loads as the manifest it is named after. */
  ghost predicate Sound(codec: Codec, entries: Entries) {
    forall name :: name in entries && IsDigest(name) ==> Loads(codec, entries[name], name)
  }

  predicate Loads(codec: Codec, directory: Directory, id: string) {
    var manifest := Load(codec, directory);
    manifest.Some? && manifest.value.id == id && Canonical(codec, manifest.value)
  }

  lemma IdIsDigest(codec: Codec, manifest: Manifest)
    requires codec.Valid() && Canonical(codec, manifest)
    ensures IsDigest(manifest.id)
  {
  }

  lemma WrittenLoads(codec: Codec, staged: Directory, manifest: Manifest)
    requires codec.Valid() && Canonical(codec, manifest) && HoldsMembers(codec, staged, manifest)
    ensures Write(codec, staged, manifest).Some?
    ensures Load(codec, Write(codec, staged, manifest).value) == if Fits(codec, manifest) then Some(manifest) else None
  {
    var base := manifest.base;
    WriteThenLoad(codec, staged, base.profile, base.created, base.identity, base.members);
  }

  /** At every moment of a backup each identifier is absent or loads as its
      manifest, if it was so before and the new manifest fits its bound. */
  lemma SoundMidway(codec: Codec, before: Entries, now: Entries, pending: string, manifest: Manifest,
                    published: Directory)
    requires Sound(codec, before) && !IsDigest(pending) && Canonical(codec, manifest)
    requires Midway(before, now, pending, manifest.id, published) && Load(codec, published) == Some(manifest)
    ensures Sound(codec, now)
  {
    forall name | name in now && IsDigest(name)
      ensures Loads(codec, now[name], name)
    {
      assert At(now, name) == Some(now[name]);
    }
  }

  lemma UndisturbedEntriesSound(codec: Codec, before: Entries, now: Entries, pending: string)
    requires Same(before, now, pending) && Sound(codec, before) && !IsDigest(pending)
    ensures Sound(codec, now)
  {
    forall name | name in now && IsDigest(name) {
      SameAt(before, now, pending, name);
    }
  }

  /** A set is refused for other content only when two documents share a digest. */
  lemma OtherContentCollides(codec: Codec, entries: Entries, manifest: Manifest)
    requires codec.Valid() && Sound(codec, entries) && Canonical(codec, manifest) && manifest.id in entries
    requires Load(codec, entries[manifest.id]) != Some(manifest)
    ensures Loads(codec, entries[manifest.id], manifest.id)
    ensures codec.Collide(Identified(codec, Load(codec, entries[manifest.id]).value), Identified(codec, manifest))
  {
    IdIsDigest(codec, manifest);
    var existing := Load(codec, entries[manifest.id]).value;
    CanonicalIsIdentified(codec, existing);
    CanonicalIsIdentified(codec, manifest);
    if Identified(codec, existing) == Identified(codec, manifest) {
      SameDocument(codec, existing, manifest);
      SortKeeps(existing.base.members);
      SortKeeps(manifest.base.members);
      SortedIsUnique(existing.base.members, manifest.base.members);
    }
  }

  lemma CanonicalIsIdentified(codec: Codec, manifest: Manifest)
    requires codec.Valid() && Canonical(codec, manifest)
    ensures codec.utc(manifest.base.created) == Some(manifest.base.created)
    ensures manifest.base.members == SortedMembers(manifest.base.members) && UniquePaths(manifest.base.members)
    ensures manifest.id == codec.hash(Identified(codec, manifest))
  {
  }

  /** Two sets that load as the same manifest hold the same files, or two of their
      files share a digest. */
  lemma SameSet(codec: Codec, one: Directory, other: Directory, manifest: Manifest)
    requires Load(codec, one) == Some(manifest) == Load(codec, other)
    ensures one.nodes.Keys == other.nodes.Keys
    ensures forall path :: path in one.nodes && path !in {MANIFEST_FILE, CHECKSUM_FILE} ==>
              SameNode(codec, one, other, path)
  {
    LoadedIsRebuilt(codec, one);
    LoadedIsRebuilt(codec, other);
    SameMembers(codec, one, other, manifest.base.members, manifest.base.members);
  }

  class Archive {
    const codec: Codec
    var entries: Entries
    /** The directory after every call, as a kill would leave it. */
    ghost var seen: seq<Entries>

    constructor (codec: Codec, entries: Entries)
      ensures this.codec == codec && this.entries == entries && seen == []
    {
      this.codec, this.entries, seen := codec, entries, [];
    }

    /** Only the staging directory has changed since the backup began. */
    ghost predicate Undisturbed(before: Entries, pending: string)
      reads this
    {
      && Same(before, entries, pending)
      && forall state :: state in seen ==> Same(before, state, pending)
    }

    /** What a backup that began with `before` may have done at every moment. */
    ghost predicate Steps(before: Entries, pending: string, id: string, published: Directory)
      reads this
    {
      && Midway(before, entries, pending, id, published)
      && forall state :: state in seen ==> Midway(before, state, pending, id, published)
    }

    lemma UndisturbedSteps(before: Entries, pending: string, id: string, published: Directory)
      requires Undisturbed(before, pending)
      ensures Steps(before, pending, id, published)
    {
    }

    /** File after file: in between the staging directory may hold anything. */
    method Fill(ghost before: Entries, pending: string, staged: Directory) returns (ok: bool)
      requires Undisturbed(before, pending)
      modifies this
      ensures Undisturbed(before, pending)
      ensures pending in entries && (ok ==> entries[pending] == staged)
    {
      var calls: int := *;
      var partly: Directory := *;
      entries := entries[pending := partly];
      seen := seen + [entries];
      while 0 < calls
        invariant Undisturbed(before, pending) && pending in entries
      {
        partly := *;
        entries := entries[pending := partly];
        seen := seen + [entries];
        calls := calls - 1;
      }
      ok := *;
      if ok {
        entries := entries[pending := staged];
        seen := seen + [entries];
      }
    }

    /** `rmtree` of the staging directory. */
    method Discard(ghost before: Entries, pending: string) returns (gone: bool)
      requires Undisturbed(before, pending)
      modifies this
      ensures Undisturbed(before, pending)
      ensures gone ==> pending !in entries
    {
      var _ := Fill(before, pending, Directory(map[], true));
      gone := *;
      if gone {
        entries := Without(entries, pending);
        seen := seen + [entries];
      }
    }

    /** A set of the same identifier is there: it must be the same. */
    method Compare(ghost before: Entries, pending: string, manifest: Manifest) returns (outcome: Outcome)
      requires Undisturbed(before, pending) && manifest.id != pending && manifest.id in before
      modifies this
      ensures Undisturbed(before, pending) && manifest.id in entries
      ensures outcome.Published? ==> pending !in entries && Load(codec, entries[manifest.id]) == Some(manifest)
      ensures outcome.Unreadable? ==> Load(codec, before[manifest.id]) == None
      ensures outcome.OtherContent? ==> Load(codec, before[manifest.id]) !in {None, Some(manifest)}
    {
      SameAt(before, entries, pending, manifest.id);
      var existing := Load(codec, entries[manifest.id]);
      var answers: bool := *;
      var gone := Discard(before, pending);
      SameAt(before, entries, pending, manifest.id);
      outcome := if !answers then CallFailed
                 else if existing.None? then Unreadable
                 else if existing != Some(manifest) then OtherContent
                 else if gone then Published else CallFailed;
    }

    /** `os.replace`, then the entry is synced. */
    method Rename(ghost before: Entries, pending: string, id: string, written: Directory) returns (outcome: Outcome)
      requires Undisturbed(before, pending) && id != pending && id !in before
      modifies this
      ensures Steps(before, pending, id, written)
      ensures outcome.Published? ==> At(entries, id) == Some(written) && pending !in entries
      ensures outcome.Published? || outcome.CallFailed?
    {
      UndisturbedSteps(before, pending, id, written);
      var moves: bool := *;
      if !moves {
        var _ := Discard(before, pending);
        UndisturbedSteps(before, pending, id, written);
        return CallFailed;
      }
      entries := Without(entries, pending)[id := written];
      seen := seen + [entries];
      var syncs: bool := *;
      outcome := if syncs then Published else CallFailed;
    }

    lemma SoundThroughout(before: Entries, pending: string, manifest: Manifest, published: Directory)
      requires Steps(before, pending, manifest.id, published) && Sound(codec, before) && !IsDigest(pending)
      requires Canonical(codec, manifest) && Load(codec, published) == Some(manifest)
      ensures SoundSoFar()
    {
      SoundMidway(codec, before, entries, pending, manifest, published);
      forall state | state in seen
        ensures Sound(codec, state)
      {
        SoundMidway(codec, before, state, pending, manifest, published);
      }
    }

    lemma UndisturbedIsSound(before: Entries, pending: string)
      requires Undisturbed(before, pending) && Sound(codec, before) && !IsDigest(pending)
      ensures SoundSoFar()
    {
      UndisturbedEntriesSound(codec, before, entries, pending);
      forall state | state in seen
        ensures Sound(codec, state)
      {
        UndisturbedEntriesSound(codec, before, state, pending);
      }
    }

    /** At every moment so far each identifier is absent or loads as its manifest. */
    ghost predicate SoundSoFar()
      reads this
    {
      Sound(codec, entries) && forall state :: state in seen ==> Sound(codec, state)
    }

    /** From the staged files on. At every moment the identifier is as it was, or
        the whole set is published where nothing was; nobody else's set changes.
        What is published loads exactly when its manifest fits. */
    method Publish(ghost before: Entries, pending: string, manifest: Manifest) returns (outcome: Outcome)
      requires codec.Valid() && Canonical(codec, manifest) && pending in entries && !IsDigest(pending)
      requires HoldsMembers(codec, entries[pending], manifest) && Undisturbed(before, pending)
      modifies this
      ensures Write(codec, old(entries[pending]), manifest).Some?
      ensures Steps(before, pending, manifest.id, Write(codec, old(entries[pending]), manifest).value)
      ensures outcome.Published? ==> manifest.id in entries && pending !in entries
      ensures outcome.Published? && manifest.id in before ==>
                entries[manifest.id] == before[manifest.id] && Load(codec, entries[manifest.id]) == Some(manifest)
      ensures outcome.Published? && manifest.id !in before ==>
                && entries[manifest.id] == Write(codec, old(entries[pending]), manifest).value
                && Load(codec, entries[manifest.id]) == if Fits(codec, manifest) then Some(manifest) else None
      ensures outcome.Unreadable? ==> manifest.id in before && Load(codec, before[manifest.id]) == None
      ensures outcome.OtherContent? ==>
                manifest.id in before && Load(codec, before[manifest.id]) !in {None, Some(manifest)}
      ensures Sound(codec, before) && Fits(codec, manifest) ==> SoundSoFar()
    {
      WrittenLoads(codec, entries[pending], manifest);
      IdIsDigest(codec, manifest);
      var written := Write(codec, entries[pending], manifest).value;
      var ok := Fill(before, pending, written);
      SameAt(before, entries, pending, manifest.id);
      if ok && manifest.id !in entries {
        outcome := Rename(before, pending, manifest.id, written);
      } else {
        if ok {
          outcome := Compare(before, pending, manifest);
        } else {
          var _ := Discard(before, pending);
          outcome := CallFailed;
        }
        SameAt(before, entries, pending, manifest.id);
        UndisturbedSteps(before, pending, manifest.id, written);
      }
      if Sound(codec, before) && Fits(codec, manifest) {
        SoundThroughout(before, pending, manifest, written);
      }
    }
  }
}
