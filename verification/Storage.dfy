/** `FilesystemObjectStore` of src/markweave/storage.py over the file system
    model. Every call to the file system may fail; every state in between is
    recorded, since a crash may fall into any of them. */
module Storage {
  import opened Basics
  import opened FileSystem
  import opened ObjectLayout
  import opened ObjectSteps

  /** Every power crash leaves the object with this content. */
  ghost predicate Survives(disk: Disk, path: Path, content: Bytes) {
    forall after :: Crash(disk, after) ==> after.Read(path) == Some(content)
  }

  /** No power crash brings the object back. */
  ghost predicate GoneForGood(disk: Disk, path: Path) {
    forall after :: Crash(disk, after) ==> after.Read(path) == None
  }

  /** No directory on the way that exists already can be lost in a crash. */
  ghost predicate ExistingLast(disk: Disk, path: Path) {
    forall n :: 0 < n < |path| && disk.IsDir(path[..n]) ==> (path[..n], None) !in disk.older
  }

  /** No directory of the layout can be lost in a crash. */
  ghost predicate Anchored(disk: Disk, root: Path) {
    forall place :: IsPlace(root, place) && place != [] && disk.IsDir(place) ==> (place, None) !in disk.older
  }

  /** Every state since then is sound and gives readers nothing but what they
      could get at the start, and the result at the target. */
  ghost predicate Safe(start: Disk, before: seq<Disk>, disk: Disk, trail: seq<Disk>, root: Path, target: Path,
                       result: Option<Bytes>) {
    && Sound(disk, root) && Atomic(start, disk, root, target, result)
    && |before| <= |trail|
    && forall i :: |before| <= i < |trail| ==> Sound(trail[i], root) && Atomic(start, trail[i], root, target, result)
  }

  lemma SafeTwice(start: Disk, before: seq<Disk>, middle: Disk, between: seq<Disk>, disk: Disk, trail: seq<Disk>,
                  root: Path, target: Path, result: Option<Bytes>)
    requires Safe(start, before, middle, between, root, target, result)
    requires Safe(middle, between, disk, trail, root, target, result) && between <= trail
    ensures Safe(start, before, disk, trail, root, target, result)
  {
    AtomicTwice(start, middle, disk, root, target, result);
    forall i | |before| <= i < |trail|
      ensures Sound(trail[i], root) && Atomic(start, trail[i], root, target, result)
    {
      if i < |between| {
        assert trail[i] == between[i];
      } else {
        AtomicTwice(start, middle, trail[i], root, target, result);
      }
    }
  }

  // ---------------------------------------------------------------------
  // Durability

  /** An object whose own entry is synced lasts exactly when all its directories do. */
  lemma LastingObject(disk: Disk, root: Path, path: Path, content: Bytes)
    requires Sound(disk, root) && IsObject(root, path) && disk.Read(path) == Some(content)
    requires forall entry :: disk.MayBe(path, entry) ==> entry == disk.Lookup(path)
    ensures Survives(disk, path, content) <==> ExistingLast(disk, path)
  {
    if ExistingLast(disk, path) {
      forall after | Crash(disk, after)
        ensures after.Read(path) == Some(content)
      {
        CrashedRead(disk, after, root, path);
        assert path[..|path|] == path;
        forall n | 0 < n < |path|
          ensures !disk.MayBe(path[..n], None)
        {
          AncestorsExist(disk, path, n);
        }
      }
    } else {
      var n :| 0 < n < |path| && disk.IsDir(path[..n]) && (path[..n], None) in disk.older;
      CrashMayLose(disk, root, path, n);
    }
  }

  /** Operations on other objects keep a lasting object lasting. */
  lemma SurvivesOthers(start: Disk, now: Disk, root: Path, target: Path, result: Option<Bytes>, path: Path,
                       content: Bytes)
    requires Sound(start, root) && Sound(now, root) && Atomic(start, now, root, target, result)
    requires IsObject(root, path) && path != target && Survives(start, path, content)
    ensures Survives(now, path, content)
  {
    forall after | Crash(now, after)
      ensures after.Read(path) == Some(content)
    {
      CrashedRead(now, after, root, path);
      CrashReadsExactly(start, root, path, after.Read(path));
    }
  }

  /** A lasting object survives a crash and every crash after it. */
  lemma SurvivesCrashes(disk: Disk, after: Disk, root: Path, path: Path, content: Bytes)
    requires Sound(disk, root) && IsObject(root, path) && Survives(disk, path, content) && Crash(disk, after)
    ensures Sound(after, root) && Anchored(after, root) && Survives(after, path, content)
  {
    CrashSound(disk, after, root);
    forall again | Crash(after, again)
      ensures again.Read(path) == Some(content)
    {
      CrashedRead(after, again, root, path);
      CrashNarrows(disk, after, root, path, again.Read(path));
    }
  }

  /** An anchored disk lets every completed `put` last. */
  lemma AnchoredLasts(disk: Disk, root: Path, path: Path)
    requires Anchored(disk, root) && IsObject(root, path)
    ensures ExistingLast(disk, path)
  {
    forall n | 0 < n < |path| && disk.IsDir(path[..n])
      ensures (path[..n], None) !in disk.older
    {
      AncestorIsPlace(root, path, n);
    }
  }

  lemma LevelsExist(disk: Disk, root: Path, target: Path, existing: nat)
    requires Sound(disk, root) && IsObject(root, target) && existing < |target|
    requires disk.Lookup(Parent(target)[..existing]).Some?
    ensures forall n :: 0 <= n <= existing ==> disk.IsDir(Parent(target)[..n])
  {
    var place := Parent(target)[..existing];
    assert place == target[..existing];
    AncestorIsPlace(root, target, existing);
    assert disk.MayBe(place, disk.Lookup(place));
    forall n | 0 <= n < existing
      ensures disk.IsDir(Parent(target)[..n])
    {
      AncestorsExist(disk, place, n);
      assert place[..n] == Parent(target)[..n];
    }
  }

  lemma NextLevel(root: Path, target: Path, level: nat)
    requires IsObject(root, target) && level + 1 < |target|
    ensures var place := Parent(target)[..level + 1];
            IsPlace(root, place) && Parent(place) == Parent(target)[..level]
  {
    AncestorIsPlace(root, target, level + 1);
    assert Parent(target)[..level + 1] == target[..level + 1];
  }

  /** What `_ensure_directory` promises of one level: it is there, and a crash
      can lose it only if it could before the call. */
  ghost predicate Ensured(start: Disk, now: Disk, directory: Path, n: nat)
    requires n <= |directory|
  {
    && now.IsDir(directory[..n])
    && ((directory[..n], None) in now.older <==> start.IsDir(directory[..n]) && (directory[..n], None) in start.older)
  }

  ghost predicate LevelsEnsured(start: Disk, now: Disk, directory: Path, levels: nat)
    requires levels <= |directory|
  {
    forall n :: 0 < n <= levels ==> Ensured(start, now, directory, n)
  }

  ghost predicate LevelsThere(disk: Disk, directory: Path, levels: nat)
    requires levels <= |directory|
  {
    forall n :: 0 <= n <= levels ==> disk.IsDir(directory[..n])
  }

  ghost predicate LevelsMissing(disk: Disk, directory: Path, levels: nat)
    requires levels <= |directory|
  {
    forall n :: levels < n <= |directory| ==> disk.Lookup(directory[..n]).None?
  }

  /** Paths that are not on the way are untouched, and a crash can do no more to them. */
  ghost predicate Beside(start: Disk, now: Disk, directory: Path) {
    forall path :: !Below(path, directory) ==>
      now.Lookup(path) == start.Lookup(path) && forall change :: change in now.older && change.0 == path ==>
        change in start.older
  }

  lemma BesideTwice(start: Disk, between: Disk, now: Disk, directory: Path)
    requires Beside(start, between, directory) && Beside(between, now, directory)
    ensures Beside(start, now, directory)
  {
  }

  lemma LevelMade(start: Disk, disk: Disk, directory: Path, existing: nat, level: nat)
    requires existing <= level < |directory|
    requires LevelsEnsured(start, disk, directory, existing) && LevelsThere(disk, directory, level)
    requires LevelsMissing(disk, directory, level)
    ensures var now := disk.Set(directory[..level + 1], Some(Dir));
            && LevelsEnsured(start, now, directory, existing) && LevelsThere(now, directory, level + 1)
            && LevelsMissing(now, directory, level + 1) && Beside(disk, now, directory)
  {
    var made := directory[..level + 1];
    var now := disk.Set(made, Some(Dir));
    forall n | 0 <= n <= |directory| && n != level + 1
      ensures now.Lookup(directory[..n]) == disk.Lookup(directory[..n])
      ensures (directory[..n], None) in now.older <==> (directory[..n], None) in disk.older
    {
      assert |directory[..n]| == n;
    }
    forall n | 0 < n <= existing
      ensures Ensured(start, now, directory, n)
    {
      assert Ensured(start, disk, directory, n);
    }
  }

  lemma LevelSynced(start: Disk, disk: Disk, directory: Path, existing: nat, level: nat)
    requires existing <= level < |directory|
    requires LevelsEnsured(start, disk, directory, level) && LevelsThere(disk, directory, |directory|)
    requires LevelsMissing(start, directory, existing)
    ensures var now := disk.DirectorySynced(directory[..level]);
            && LevelsEnsured(start, now, directory, level + 1) && LevelsThere(now, directory, |directory|)
            && Beside(disk, now, directory)
  {
    var now := disk.DirectorySynced(directory[..level]);
    assert Parent(directory[..level + 1]) == directory[..level];
    assert forall path :: now.Lookup(path) == disk.Lookup(path);
    forall n | 0 < n <= level
      ensures Ensured(start, now, directory, n)
    {
      assert Ensured(start, disk, directory, n);
      assert |Parent(directory[..n])| == n - 1;
    }
    assert now.IsDir(directory[..level + 1]);
    assert Ensured(start, now, directory, level + 1);
  }

  lemma EnsuredSame(start: Disk, between: Disk, now: Disk, root: Path, target: Path)
    requires IsObject(root, target) && SamePlaces(between, now, root)
    requires LevelsEnsured(start, between, Parent(target), |Parent(target)|)
    ensures LevelsEnsured(start, now, Parent(target), |Parent(target)|) && now.IsDir(Parent(target))
  {
    var directory := Parent(target);
    forall n | 0 < n <= |directory|
      ensures Ensured(start, now, directory, n)
    {
      assert Ensured(start, between, directory, n);
      AncestorIsPlace(root, target, n);
      assert directory[..n] == target[..n];
    }
    assert directory[..|directory|] == directory;
    assert Ensured(start, now, directory, |directory|);
  }

  lemma EnsuredLast(start: Disk, now: Disk, target: Path)
    requires target != [] && LevelsEnsured(start, now, Parent(target), |Parent(target)|)
    ensures ExistingLast(now, target) <==> ExistingLast(start, target)
  {
    forall n | 0 < n < |target|
      ensures now.IsDir(target[..n])
      ensures (target[..n], None) in now.older <==> start.IsDir(target[..n]) && (target[..n], None) in start.older
    {
      assert Ensured(start, now, Parent(target), n);
      assert Parent(target)[..n] == target[..n];
    }
  }

  lemma EnsuredAnchored(start: Disk, now: Disk, root: Path, directory: Path)
    requires LevelsEnsured(start, now, directory, |directory|) && Beside(start, now, directory) && Anchored(start, root)
    ensures Anchored(now, root)
  {
    forall place | IsPlace(root, place) && place != [] && now.IsDir(place)
      ensures (place, None) !in now.older
    {
      if Below(place, directory) {
        assert Ensured(start, now, directory, |place|);
      }
    }
  }

  lemma PathIsObject(root: Path, key: ObjectKey)
    requires key.Valid()
    ensures IsObject(root, PathOf(root, key))
  {
    var path := PathOf(root, key);
    assert path[..|root|] == root;
  }

  /** A completed `put` has synced the target's own entry. */
  lemma PutLasts(renamed: Disk, root: Path, target: Path, inode: nat, content: Bytes)
    requires Sound(renamed, root) && IsObject(root, target) && renamed.Lookup(target) == Some(File(inode))
    requires inode in renamed.data && renamed.data[inode] == content
    ensures var now := renamed.DirectorySynced(Parent(target));
            Sound(now, root) && (Survives(now, target, content) <==> ExistingLast(now, target))
  {
    var now := renamed.DirectorySynced(Parent(target));
    SyncedStep(renamed, root, Parent(target), target, Some(content));
    LastingObject(now, root, target, content);
  }

  /** What a `put` that has returned leaves behind: the content, lasting exactly
      when the directories that were there at the start do. */
  ghost predicate PutReturned(start: Disk, now: Disk, root: Path, target: Path, content: Bytes) {
    && PutStopped(start, now, root, target, content)
    && now.Read(target) == Some(content)
    && (Survives(now, target, content) <==> ExistingLast(start, target))
    && (Anchored(start, root) ==> Anchored(now, root))
  }

  /** What one that was killed or has failed may leave behind. */
  ghost predicate PutStopped(start: Disk, now: Disk, root: Path, target: Path, content: Bytes) {
    Sound(now, root) && Atomic(start, now, root, target, Some(content))
  }

  ghost predicate DeleteReturned(start: Disk, now: Disk, root: Path, target: Path) {
    DeleteStopped(start, now, root, target) && now.Read(target) == None
  }

  ghost predicate DeleteStopped(start: Disk, now: Disk, root: Path, target: Path) {
    Sound(now, root) && Atomic(start, now, root, target, None) && SamePlaces(start, now, root)
  }

  /** A removed object whose directory is synced is gone for good. */
  lemma RemovedLasts(removed: Disk, root: Path, target: Path)
    requires Sound(removed, root) && IsObject(root, target) && removed.Lookup(target).None?
    ensures Sound(removed.DirectorySynced(Parent(target)), root)
    ensures GoneForGood(removed.DirectorySynced(Parent(target)), target)
  {
    var now := removed.DirectorySynced(Parent(target));
    SyncedStep(removed, root, Parent(target), target, None);
    forall after | Crash(now, after)
      ensures after.Read(target) == None
    {
      assert CrashEntry(now, after, target);
    }
  }

  /** An object that is gone can come back exactly when its removal was never
      synced: then `delete` finds no file and returns at once. */
  lemma MissingMayReturn(disk: Disk, root: Path, target: Path)
    requires Sound(disk, root) && IsObject(root, target) && disk.Lookup(target).None?
    ensures GoneForGood(disk, target) <==> forall inode :: (target, Some(File(inode))) !in disk.older
  {
    if inode :| (target, Some(File(inode))) in disk.older {
      CrashMayKeep(disk, root, target, inode);
    } else {
      forall after | Crash(disk, after)
        ensures after.Read(target) == None
      {
        assert CrashEntry(disk, after, target);
      }
    }
  }

  predicate Stored(disk: Disk, root: Path, scope: Name, key: ObjectKey) {
    key.scope == scope && key.Valid() && disk.Read(PathOf(root, key)).Some?
  }

  lemma StoredBelow(disk: Disk, root: Path, scope: Name, key: ObjectKey)
    requires Sound(disk, root) && Stored(disk, root, scope, key)
    ensures disk.IsDir(root + [scope]) && root + [scope] + [key.owner] in disk.entries
    ensures disk.IsDir(root + [scope, key.owner])
    ensures PathOf(root, key) == root + [scope, key.owner] + [key.id] && PathOf(root, key) in disk.entries
  {
    var path := PathOf(root, key);
    assert path[..|root| + 1] == root + [scope];
    assert path[..|root| + 2] == root + [scope, key.owner];
    AncestorsExist(disk, path, |root| + 1);
    AncestorsExist(disk, path, |root| + 2);
    assert root + [scope] + [key.owner] == root + [scope, key.owner];
  }

  // ---------------------------------------------------------------------

  datatype ReadResult = Found(content: Bytes) | NotFound | TooLarge | BadBound | ReadFailed
  datatype DeleteResult = Deleted | AlreadyGone | DeleteFailed

  class FilesystemObjectStore {
    const root: Path
    var disk: Disk
    ghost var trail: seq<Disk>

    ghost predicate Valid()
      reads this
    {
      Sound(disk, root)
    }

    /** The store below a data directory on a disk that it alone uses. */
    constructor (data: Path, found: Disk)
      requires Sound(found, data + ["objects"])
      ensures Valid() && disk == found && root == data + ["objects"] && trail == []
    {
      root, disk, trail := data + ["objects"], found, [];
    }

    method Record(next: Disk)
      modifies this
      ensures disk == next && trail == old(trail) + [next]
    {
      disk := next;
      trail := trail + [next];
    }

    // -------------------------------------------------------------------
    // Directories

    /** `mkdir` of one missing level. */
    method MakeDirectory(place: Path, target: Path, ghost result: Option<Bytes>) returns (ok: bool)
      requires Valid() && IsObject(root, target) && IsPlace(root, place) && place != []
      requires disk.Lookup(place).None? && disk.IsDir(Parent(place))
      modifies this
      ensures old(trail) <= trail && Safe(old(disk), old(trail), disk, trail, root, target, result)
      ensures disk == if ok then old(disk).Set(place, Some(Dir)) else old(disk)
    {
      ok := *;
      if ok {
        MadeStep(disk, root, place, target, result);
        Record(disk.Set(place, Some(Dir)));
      }
    }

    method SyncDirectory(directory: Path, target: Path, ghost result: Option<Bytes>) returns (ok: bool)
      requires Valid() && IsObject(root, target)
      modifies this
      ensures old(trail) <= trail && Safe(old(disk), old(trail), disk, trail, root, target, result)
      ensures disk == if ok then old(disk).DirectorySynced(directory) else old(disk)
    {
      ok := *;
      if ok {
        SyncedStep(disk, root, directory, target, result);
        Record(disk.DirectorySynced(directory));
      }
    }

    /** How many levels of a directory are there already. */
    method ExistingLevels(directory: Path) returns (existing: nat)
      ensures existing <= |directory| && disk.Lookup(directory[..existing]).Some?
      ensures LevelsMissing(disk, directory, existing)
    {
      existing := |directory|;
      while disk.Lookup(directory[..existing]).None?
        invariant existing <= |directory| && LevelsMissing(disk, directory, existing)
        decreases existing
      {
        existing := existing - 1;
      }
    }

    /** `mkdir` with its parents, from the top. */
    method MakeLevels(directory: Path, existing: nat, target: Path, ghost result: Option<Bytes>) returns (ok: bool)
      requires Valid() && IsObject(root, target) && directory == Parent(target) && existing <= |directory|
      requires disk.Lookup(directory[..existing]).Some? && LevelsMissing(disk, directory, existing)
      modifies this
      ensures old(trail) <= trail && Safe(old(disk), old(trail), disk, trail, root, target, result)
      ensures LevelsEnsured(old(disk), disk, directory, existing)
      ensures ok ==> LevelsThere(disk, directory, |directory|)
      ensures Beside(old(disk), disk, directory)
    {
      ghost var start := disk;
      LevelsExist(disk, root, target, existing);
      var made := existing;
      while made < |directory|
        invariant existing <= made <= |directory|
        invariant old(trail) <= trail && Safe(start, old(trail), disk, trail, root, target, result)
        invariant Beside(start, disk, directory)
        invariant LevelsEnsured(start, disk, directory, existing)
        invariant LevelsThere(disk, directory, made) && LevelsMissing(disk, directory, made)
      {
        ghost var before, past := disk, trail;
        NextLevel(root, target, made);
        ok := MakeDirectory(directory[..made + 1], target, result);
        SafeTwice(start, old(trail), before, past, disk, trail, root, target, result);
        if !ok {
          return;
        }
        LevelMade(start, before, directory, existing, made);
        BesideTwice(start, before, disk, directory);
        made := made + 1;
      }
      ok := true;
    }

    /** Syncs the parent of every level that was made, from the top. */
    method SyncLevels(directory: Path, existing: nat, target: Path, ghost start: Disk, ghost result: Option<Bytes>)
      returns (ok: bool)
      requires Valid() && IsObject(root, target) && directory == Parent(target) && existing <= |directory|
      requires LevelsEnsured(start, disk, directory, existing) && LevelsMissing(start, directory, existing)
      requires LevelsThere(disk, directory, |directory|)
      modifies this
      ensures old(trail) <= trail && Safe(old(disk), old(trail), disk, trail, root, target, result)
      ensures ok ==> LevelsEnsured(start, disk, directory, |directory|)
      ensures Beside(old(disk), disk, directory)
    {
      var synced := existing;
      while synced < |directory|
        invariant existing <= synced <= |directory|
        invariant old(trail) <= trail && Safe(old(disk), old(trail), disk, trail, root, target, result)
        invariant Beside(old(disk), disk, directory)
        invariant LevelsEnsured(start, disk, directory, synced) && LevelsThere(disk, directory, |directory|)
      {
        ghost var before, past := disk, trail;
        ok := SyncDirectory(directory[..synced], target, result);
        SafeTwice(old(disk), old(trail), before, past, disk, trail, root, target, result);
        if !ok {
          return;
        }
        LevelSynced(start, before, directory, existing, synced);
        BesideTwice(old(disk), before, disk, directory);
        synced := synced + 1;
      }
      ok := true;
    }

    /** Makes the missing levels of a directory and syncs the parent of each. */
    method EnsureDirectory(directory: Path, target: Path, ghost result: Option<Bytes>) returns (ok: bool)
      requires Valid() && IsObject(root, target) && directory == Parent(target)
      modifies this
      ensures old(trail) <= trail && Safe(old(disk), old(trail), disk, trail, root, target, result)
      ensures ok ==> LevelsEnsured(old(disk), disk, directory, |directory|)
      ensures Beside(old(disk), disk, directory)
    {
      var existing := ExistingLevels(directory);
      ok := MakeLevels(directory, existing, target, result);
      if ok {
        ghost var before, past := disk, trail;
        ok := SyncLevels(directory, existing, target, old(disk), result);
        SafeTwice(old(disk), old(trail), before, past, disk, trail, root, target, result);
        BesideTwice(old(disk), before, disk, directory);
      }
    }

    // -------------------------------------------------------------------
    // Objects

    /** `mkstemp`: a new empty file under a name no object has. */
    method MakeTemporary(directory: Path, target: Path, ghost result: Option<Bytes>)
      returns (ok: bool, temporary: Path, inode: nat)
      requires Valid() && IsObject(root, target) && directory == Parent(target) && disk.IsDir(directory)
      modifies this
      ensures old(trail) <= trail && Safe(old(disk), old(trail), disk, trail, root, target, result)
      ensures SamePlaces(old(disk), disk, root)
      ensures ok ==> IsTemporary(root, temporary) && disk.Lookup(temporary) == Some(File(inode))
      ensures ok ==> Private(disk, root, inode) && inode in disk.data && disk.data[inode] == []
    {
      var suffix: string := *;
      temporary := directory + [".pending-" + suffix];
      inode := *;
      ok := *;
      if inode < 0 || inode in disk.data || temporary in disk.entries {
        ok := false;
      }
      if ok {
        assert Parent(temporary) == directory;
        CreatedStep(disk, root, temporary, inode, target, result);
        Record(disk.Created(temporary, inode));
      }
    }

    /** Writes in chunks of any size and syncs the contents. */
    method WriteOut(inode: nat, content: Bytes, target: Path) returns (ok: bool)
      requires Valid() && IsObject(root, target) && Private(disk, root, inode)
      requires inode in disk.data && disk.data[inode] == []
      modifies this
      ensures old(trail) <= trail && Safe(old(disk), old(trail), disk, trail, root, target, Some(content))
      ensures SamePlaces(old(disk), disk, root) && disk.entries == old(disk.entries)
      ensures ok ==>
                Private(disk, root, inode) && inode in disk.synced && inode in disk.data && disk.data[inode] == content
    {
      var written := 0;
      while written < |content|
        invariant written <= |content|
        invariant old(trail) <= trail && Safe(old(disk), old(trail), disk, trail, root, target, Some(content))
        invariant SamePlaces(old(disk), disk, root) && disk.entries == old(disk.entries) && Private(disk, root, inode)
        invariant inode in disk.data && disk.data[inode] == content[..written]
      {
        ok := *;
        var size: int := *;
        if !ok || size <= 0 || |content| - written < size {
          return false;
        }
        ghost var before, past := disk, trail;
        var chunk := content[written..written + size];
        PrivateFile(disk, root, disk.Appended(inode, chunk), inode, target, Some(content));
        Record(disk.Appended(inode, chunk));
        SafeTwice(old(disk), old(trail), before, past, disk, trail, root, target, Some(content));
        assert content[..written + size] == content[..written] + chunk;
        written := written + size;
      }
      assert content[..written] == content;
      ok := *;
      if ok {
        ghost var before, past := disk, trail;
        PrivateFile(disk, root, disk.FileSynced(inode), inode, target, Some(content));
        Record(disk.FileSynced(inode));
        SafeTwice(old(disk), old(trail), before, past, disk, trail, root, target, Some(content));
      }
    }

    /** The rest of a `put`, with the directory in place. */
    method Replace(temporary: Path, inode: nat, target: Path, content: Bytes) returns (ok: bool)
      requires Valid() && IsObject(root, target) && IsTemporary(root, temporary) && disk.IsDir(Parent(target))
      requires disk.Lookup(temporary) == Some(File(inode)) && inode in disk.synced && inode in disk.data
      requires disk.data[inode] == content && Private(disk, root, inode)
      modifies this
      ensures old(trail) <= trail && Safe(old(disk), old(trail), disk, trail, root, target, Some(content))
      ensures disk == if ok then old(disk).Renamed(temporary, target) else old(disk)
      ensures SamePlaces(old(disk), disk, root)
    {
      ok := *;
      if ok {
        RenamedStep(disk, root, temporary, inode, target);
        Record(disk.Renamed(temporary, target));
      }
    }

    /** `temporary.unlink(missing_ok=True)`, which may fail as well. */
    method RemoveTemporary(temporary: Path, target: Path, ghost result: Option<Bytes>)
      requires Valid() && IsObject(root, target) && IsTemporary(root, temporary)
      requires disk.Lookup(temporary).Some? ==> disk.Lookup(temporary).value.File?
      modifies this
      ensures old(trail) <= trail && Safe(old(disk), old(trail), disk, trail, root, target, result)
    {
      var works: bool := *;
      if works && temporary in disk.entries {
        TemporaryIsNoObject(root, temporary);
        TemporarySet(disk, root, temporary, None, target, result);
        Record(disk.Set(temporary, None));
      }
    }

    /** Stores an object. In every state on the way, and after a crash in any of
        them, a read gives what it could give before or the new content, and
        other objects what they could give before. Once it returns, the content
        survives every crash exactly when the directories that were there at the
        start do. */
    method Put(key: ObjectKey, content: Bytes) returns (ok: bool)
      requires Valid() && key.Valid()
      modifies this
      ensures Valid() && old(trail) <= trail
      ensures Safe(old(disk), old(trail), disk, trail, root, PathOf(root, key), Some(content))
      ensures ok ==> PutReturned(old(disk), disk, root, PathOf(root, key), content)
    {
      var target := PathOf(root, key);
      PathIsObject(root, key);
      ok := EnsureDirectory(Parent(target), target, Some(content));
      if !ok {
        return;
      }
      ghost var ensured, before, past := disk, disk, trail;
      EnsuredSame(old(disk), ensured, disk, root, target);
      var temporary, inode;
      ok, temporary, inode := MakeTemporary(Parent(target), target, Some(content));
      SafeTwice(old(disk), old(trail), before, past, disk, trail, root, target, Some(content));
      if !ok {
        return;
      }
      before, past := disk, trail;
      ok := Fill(temporary, inode, target, content);
      SafeTwice(old(disk), old(trail), before, past, disk, trail, root, target, Some(content));
      if ok {
        EnsuredSame(old(disk), ensured, disk, root, target);
        EnsuredLast(old(disk), disk, target);
        if Anchored(old(disk), root) {
          EnsuredAnchored(old(disk), ensured, root, Parent(target));
        }
      }
    }

    /** Fills the temporary file, gives it the object's name and syncs that. */
    method Fill(temporary: Path, inode: nat, target: Path, content: Bytes) returns (ok: bool)
      requires Valid() && IsObject(root, target) && IsTemporary(root, temporary) && disk.IsDir(Parent(target))
      requires disk.Lookup(temporary) == Some(File(inode))
      requires Private(disk, root, inode) && inode in disk.data && disk.data[inode] == []
      modifies this
      ensures old(trail) <= trail && Safe(old(disk), old(trail), disk, trail, root, target, Some(content))
      ensures ok ==> SamePlaces(old(disk), disk, root) && disk.Read(target) == Some(content)
      ensures ok ==> (Survives(disk, target, content) <==> ExistingLast(disk, target))
    {
      ok := WriteOut(inode, content, target);
      ghost var before, past := disk, trail;
      if ok {
        ok := Replace(temporary, inode, target, content);
        SafeTwice(old(disk), old(trail), before, past, disk, trail, root, target, Some(content));
      }
      if ok {
        before, past := disk, trail;
        PutLasts(disk, root, target, inode, content);
        SyncedStep(disk, root, Parent(target), target, Some(content));
        ok := SyncDirectory(Parent(target), target, Some(content));
        SafeTwice(old(disk), old(trail), before, past, disk, trail, root, target, Some(content));
      }
      if !ok {
        before, past := disk, trail;
        TemporaryIsNoObject(root, temporary);
        RemoveTemporary(temporary, target, Some(content));
        SafeTwice(old(disk), old(trail), before, past, disk, trail, root, target, Some(content));
      }
    }

    /** A missing object is told apart from a failure. */
    method Get(key: ObjectKey) returns (result: ReadResult)
      requires Valid() && key.Valid()
      ensures result.ReadFailed? || result == match disk.Read(PathOf(root, key))
                                              case Some(content) => Found(content)
                                              case None => NotFound
    {
      var fails: bool := *;
      var target := PathOf(root, key);
      if fails {
        return ReadFailed;
      }
      if disk.Lookup(target).None? {
        return NotFound;
      }
      PathIsObject(root, key);
      assert disk.MayBe(target, disk.Lookup(target));
      assert disk.MayBe(target, Some(File(disk.entries[target].inode)));
      result := Found(disk.data[disk.entries[target].inode]);
    }

    /** Reads at most one byte past the bound and still rejects exactly the
        objects that exceed it. */
    method GetBounded(key: ObjectKey, maxBytes: int) returns (result: ReadResult)
      requires Valid() && key.Valid()
      ensures maxBytes <= 0 <==> result.BadBound?
      ensures maxBytes <= 0 || result.ReadFailed? || result == match disk.Read(PathOf(root, key))
                                              case Some(content) => if |content| <= maxBytes then Found(content)
                                                else TooLarge
                                              case None => NotFound
    {
      if maxBytes <= 0 {
        return BadBound;
      }
      result := Get(key);
      if result.Found? {
        var content := if maxBytes + 1 < |result.content| then result.content[..maxBytes + 1] else result.content;
        result := if maxBytes < |content| then TooLarge else Found(content);
      }
    }

    /** Removes an object. A deletion that found the object is final once it
        returns; other objects are as before in every state on the way. */
    method Delete(key: ObjectKey) returns (result: DeleteResult)
      requires Valid() && key.Valid()
      modifies this
      ensures Valid() && old(trail) <= trail
      ensures Safe(old(disk), old(trail), disk, trail, root, PathOf(root, key), None)
      ensures SamePlaces(old(disk), disk, root)
      ensures !result.DeleteFailed? ==> DeleteReturned(old(disk), disk, root, PathOf(root, key))
      ensures result.Deleted? ==> GoneForGood(disk, PathOf(root, key))
      ensures result.AlreadyGone? ==> disk == old(disk)
    {
      var target := PathOf(root, key);
      PathIsObject(root, key);
      var fails: bool := *;
      if fails {
        return DeleteFailed;
      }
      if disk.Lookup(target).None? {
        return AlreadyGone;
      }
      assert disk.MayBe(target, disk.Lookup(target));
      TargetSet(disk, root, target, None, None);
      Record(disk.Set(target, None));
      ghost var before, past := disk, trail;
      RemovedLasts(disk, root, target);
      SyncedStep(disk, root, Parent(target), target, None);
      var ok := SyncDirectory(Parent(target), target, None);
      SafeTwice(old(disk), old(trail), before, past, disk, trail, root, target, None);
      result := if ok then Deleted else DeleteFailed;
    }

    /** The names in a directory. */
    function Names(directory: Path): (names: set<Name>)
      reads this
      ensures forall name :: name in names <==> directory + [name] in disk.entries
    {
      var paths := set path | path in disk.entries && path != [] && Parent(path) == directory;
      var names := set path | path in paths :: path[|path| - 1];
      assert forall path :: path in paths ==> path == directory + [path[|path| - 1]];
      assert forall name :: directory + [name] in disk.entries ==> directory + [name] in paths by {
        forall name | directory + [name] in disk.entries
          ensures directory + [name] in paths
        {
          assert Parent(directory + [name]) == directory;
        }
      }
      assert forall name :: directory + [name] in paths ==> (directory + [name])[|directory|] == name;
      names
    }

    /** The objects of one owner directory; temporaries and other names are skipped. */
    method ListOwner(scope: Name, owner: Name) returns (keys: set<ObjectKey>)
      requires Valid() && scope in SCOPES
      ensures forall key: ObjectKey :: key in keys <==> key.owner == owner && Stored(disk, root, scope, key)
    {
      var directory := root + [scope, owner];
      if !disk.IsDir(directory) {
        keys := {};
      } else {
        var names := Names(directory);
        keys := set name | name in names && ScopedKey(scope, owner, name).Some?
          && disk.Read(directory + [name]).Some? ::
                  ObjectKey(scope, owner, name);
      }
      forall key: ObjectKey | key.owner == owner && Stored(disk, root, scope, key)
        ensures key in keys
      {
        StoredBelow(disk, root, scope, key);
        assert key == ObjectKey(scope, owner, key.id);
      }
      forall key | key in keys
        ensures Stored(disk, root, scope, key)
      {
        assert PathOf(root, key) == directory + [key.id];
      }
    }

    /** Every complete object of a scope and nothing else. */
    method ListKeys(scope: Name) returns (keys: set<ObjectKey>)
      requires Valid() && scope in SCOPES
      ensures forall key :: key in keys <==> Stored(disk, root, scope, key)
    {
      keys := {};
      var directory := root + [scope];
      var owners := if disk.IsDir(directory) then Names(directory) else {};
      ghost var all := owners;
      while owners != {}
        invariant owners <= all
        invariant forall key :: key in keys <==> key.owner in all - owners && Stored(disk, root, scope, key)
        decreases |owners|
      {
        var owner :| owner in owners;
        owners := owners - {owner};
        var more := ListOwner(scope, owner);
        keys := keys + more;
      }
      forall key | Stored(disk, root, scope, key)
        ensures key.owner in all
      {
        StoredBelow(disk, root, scope, key);
      }
    }
  }
}
