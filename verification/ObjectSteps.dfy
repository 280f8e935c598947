/** What each file system call of the object store may change for a reader, now
    or after a crash. */
module ObjectSteps {
  import opened Basics
  import opened FileSystem
  import opened ObjectLayout

  /** Whatever a read of an object may give from now on, it could give at the
      start too, except that the target may have the new result. */
  ghost predicate Atomic(start: Disk, now: Disk, root: Path, target: Path, result: Option<Bytes>) {
    && (forall path, each :: IsObject(root, path) && MayRead(now, path, each) ==>
          MayRead(start, path, each) || (path == target && each == result))
    && (forall path :: IsObject(root, path) ==>
          now.Read(path) == start.Read(path) || (path == target && now.Read(path) == result))
  }

  /** The directories of the layout and what a crash may do to them are the same. */
  ghost predicate SamePlaces(start: Disk, now: Disk, root: Path) {
    && (forall path :: IsPlace(root, path) ==> now.Lookup(path) == start.Lookup(path))
    && (forall path, entry :: IsPlace(root, path) ==> ((path, entry) in now.older <==> (path, entry) in start.older))
  }

  /** Nor can it do more to them. */
  ghost predicate NarrowPlaces(start: Disk, now: Disk, root: Path) {
    && (forall path :: IsPlace(root, path) ==> now.Lookup(path) == start.Lookup(path))
    && (forall path, entry :: IsPlace(root, path) && (path, entry) in now.older ==> (path, entry) in start.older)
  }

  /** The same for one object. */
  predicate SameObject(start: Disk, now: Disk, path: Path) {
    && now.Lookup(path) == start.Lookup(path)
    && forall change :: change in now.older && change.0 == path ==> change in start.older
  }

  /** No object can turn out to be this file. */
  ghost predicate Private(disk: Disk, root: Path, inode: nat) {
    forall path :: IsObject(root, path) ==> !disk.MayBe(path, Some(File(inode)))
  }

  /** A name that is neither a place nor an object. */
  predicate IsTemporary(root: Path, path: Path) {
    |path| == |root| + 3 && root <= path && path[|root| + 2] != "" && path[|root| + 2][0] == '.'
  }

  lemma TemporaryIsNoObject(root: Path, path: Path)
    requires IsTemporary(root, path)
    ensures !IsObject(root, path) && !IsPlace(root, path)
  {
  }

  lemma AtomicTwice(start: Disk, between: Disk, now: Disk, root: Path, target: Path, result: Option<Bytes>)
    requires Atomic(start, between, root, target, result) && Atomic(between, now, root, target, result)
    ensures Atomic(start, now, root, target, result)
  {
  }

  /** One object read the same way as before cannot give anything new. */
  lemma ReadsNothingNew(start: Disk, now: Disk, root: Path, path: Path, result: Option<Bytes>)
    requires Sound(start, root) && IsObject(root, path) && MayRead(now, path, result)
    requires NarrowPlaces(start, now, root) && SameObject(start, now, path)
    requires forall inode :: inode in now.data && start.MayBe(path, Some(File(inode))) ==>
               inode in start.data && now.data[inode] == start.data[inode]
    ensures MayRead(start, path, result)
  {
    if result.None? {
      var n :| 0 < n <= |path| && now.MayBe(path[..n], None);
      if n < |path| {
        AncestorIsPlace(root, path, n);
      } else {
        assert path[..n] == path;
      }
      assert start.MayBe(path[..n], None);
    } else {
      forall n | 0 <= n < |path|
        ensures start.IsDir(path[..n])
      {
        AncestorIsPlace(root, path, n);
        assert now.IsDir(path[..n]);
      }
    }
  }

  /** The contents that objects may have are the same. */
  ghost predicate SameContents(start: Disk, now: Disk, root: Path) {
    forall path, inode :: IsObject(root, path) && start.MayBe(path, Some(File(inode))) && inode in now.data ==>
      inode in start.data && now.data[inode] == start.data[inode]
  }

  /** A step that leaves all objects but the target as they were. */
  ghost predicate OnlyTarget(start: Disk, now: Disk, root: Path, target: Path) {
    && NarrowPlaces(start, now, root) && SameContents(start, now, root)
    && forall path :: IsObject(root, path) && path != target ==> SameObject(start, now, path)
  }

  lemma OnlyTargetIsAtomic(start: Disk, now: Disk, root: Path, target: Path, result: Option<Bytes>)
    requires Sound(start, root) && TreeSound(now) && IsObject(root, target) && OnlyTarget(start, now, root, target)
    requires SameObject(start, now, target)
             || (TargetMayOnlyBe(start, now, target, result) && now.Read(target) == result)
    ensures Atomic(start, now, root, target, result)
  {
    forall path, each | IsObject(root, path) && MayRead(now, path, each)
      ensures MayRead(start, path, each) || (path == target && each == result)
    {
      ObjectReads(start, now, root, target, result, path, each);
    }
    forall path | IsObject(root, path)
      ensures now.Read(path) == start.Read(path) || (path == target && now.Read(path) == result)
    {
      if path != target || SameObject(start, now, target) {
        ReadsTheSame(start, now, root, path);
      }
    }
  }

  lemma ObjectReads(start: Disk, now: Disk, root: Path, target: Path, result: Option<Bytes>, path: Path,
                    each: Option<Bytes>)
    requires Sound(start, root) && IsObject(root, target) && OnlyTarget(start, now, root, target)
    requires SameObject(start, now, target) || TargetMayOnlyBe(start, now, target, result)
    requires IsObject(root, path) && MayRead(now, path, each)
    ensures MayRead(start, path, each) || (path == target && each == result)
  {
    if path != target || SameObject(start, now, target) {
      ReadsNothingNew(start, now, root, path, each);
    } else {
      TargetReads(start, now, root, target, each, result);
    }
  }

  lemma ReadsTheSame(start: Disk, now: Disk, root: Path, path: Path)
    requires Sound(start, root) && TreeSound(now) && IsObject(root, path)
    requires SameContents(start, now, root) && now.Lookup(path) == start.Lookup(path)
    ensures now.Read(path) == start.Read(path)
  {
    var entry := start.Lookup(path);
    assert start.MayBe(path, entry) && now.MayBe(path, entry);
    if entry.Some? {
      assert start.MayBe(path, Some(File(entry.value.inode)));
    }
  }

  /** After a step the target is what it was, or one file with the new content,
      or gone when that is the result. */
  ghost predicate TargetMayOnlyBe(start: Disk, now: Disk, target: Path, result: Option<Bytes>) {
    forall entry :: now.MayBe(target, entry) && !start.MayBe(target, entry) ==>
      match result
      case None => entry.None?
      case Some(content) =>
        entry.Some? && entry.value.File? && entry.value.inode in now.data && now.data[entry.value.inode] == content
  }

  lemma TargetReads(start: Disk, now: Disk, root: Path, target: Path, each: Option<Bytes>, result: Option<Bytes>)
    requires Sound(start, root) && IsObject(root, target) && MayRead(now, target, each)
    requires NarrowPlaces(start, now, root) && SameContents(start, now, root)
    requires TargetMayOnlyBe(start, now, target, result)
    ensures MayRead(start, target, each) || each == result
  {
    if each.None? {
      var n :| 0 < n <= |target| && now.MayBe(target[..n], None);
      if n < |target| {
        AncestorIsPlace(root, target, n);
        assert start.MayBe(target[..n], None);
      } else {
        assert target[..n] == target;
        assert now.MayBe(target, None);
        if start.MayBe(target, None) {
          assert start.MayBe(target[..n], None);
        }
      }
    } else {
      forall n | 0 <= n < |target|
        ensures start.IsDir(target[..n])
      {
        AncestorIsPlace(root, target, n);
        assert now.IsDir(target[..n]);
      }
      var inode :| inode in now.data && now.data[inode] == each.value && now.MayBe(target, Some(File(inode)));
      if start.MayBe(target, Some(File(inode))) {
        assert inode in start.data && start.data[inode] == each.value;
      }
    }
  }

  // ---------------------------------------------------------------------
  // The calls

  lemma SetMayBe(disk: Disk, path: Path, entry: Option<Entry>)
    requires path != []
    ensures forall each, was :: disk.Set(path, entry).MayBe(each, was) <==>
              disk.MayBe(each, was) || (each == path && was == entry)
    ensures forall each :: disk.Set(path, entry).Lookup(each) == if each == path then entry else disk.Lookup(each)
  {
  }

  /** What may be put at a path: a directory at a place, a synced file at an
      object, anything but a directory elsewhere. */
  predicate MayPut(disk: Disk, root: Path, path: Path, entry: Option<Entry>) {
    && path != [] && !disk.IsDir(path)
    && (entry.Some? ==> disk.IsDir(Parent(path)))
    && (IsPlace(root, path) ==> entry == Some(Dir))
    && (entry.Some? && entry.value.File? ==> entry.value.inode in disk.data)
    && (IsObject(root, path) && entry.Some? ==> entry.value.File? && entry.value.inode in disk.synced)
  }

  lemma SetTreeSound(disk: Disk, root: Path, path: Path, entry: Option<Entry>)
    requires Sound(disk, root) && MayPut(disk, root, path, entry)
    ensures TreeSound(disk.Set(path, entry))
  {
    SetMayBe(disk, path, entry);
    var now := disk.Set(path, entry);
    forall each | each in now.entries
      ensures each != [] && now.IsDir(Parent(each))
    {
      assert each == path || each in disk.entries;
    }
  }

  lemma SetPlacesSound(disk: Disk, root: Path, path: Path, entry: Option<Entry>)
    requires Sound(disk, root) && MayPut(disk, root, path, entry)
    ensures PlacesSound(disk.Set(path, entry), root)
  {
    SetMayBe(disk, path, entry);
  }

  lemma SetObjectsSound(disk: Disk, root: Path, path: Path, entry: Option<Entry>)
    requires Sound(disk, root) && MayPut(disk, root, path, entry)
    ensures ObjectsSound(disk.Set(path, entry), root)
  {
    SetMayBe(disk, path, entry);
    var now := disk.Set(path, entry);
    forall each, was | IsObject(root, each) && now.MayBe(each, was) && was.Some?
      ensures now.IsDir(Parent(each)) && was.value.File? && was.value.inode in now.synced
    {
      assert disk.MayBe(each, was) || (each == path && was == entry);
    }
  }

  lemma SetSound(disk: Disk, root: Path, path: Path, entry: Option<Entry>)
    requires Sound(disk, root) && MayPut(disk, root, path, entry)
    ensures Sound(disk.Set(path, entry), root)
  {
    SetTreeSound(disk, root, path, entry);
    SetPlacesSound(disk, root, path, entry);
    SetObjectsSound(disk, root, path, entry);
  }

  // ---------------------------------------------------------------------
  // The calls

  /** A new name that is neither a place nor an object. */
  lemma TemporarySet(disk: Disk, root: Path, path: Path, entry: Option<Entry>, target: Path, result: Option<Bytes>)
    requires Sound(disk, root) && IsObject(root, target) && IsTemporary(root, path) && MayPut(disk, root, path, entry)
    ensures var now := disk.Set(path, entry);
            && Sound(now, root) && SamePlaces(disk, now, root) && SameObject(disk, now, target)
            && Atomic(disk, now, root, target, result)
  {
    var now := disk.Set(path, entry);
    TemporaryIsNoObject(root, path);
    SetSound(disk, root, path, entry);
    SetMayBe(disk, path, entry);
    OnlyTargetIsAtomic(disk, now, root, target, result);
  }

  /** Writing or syncing a file that is no object. */
  lemma PrivateFile(disk: Disk, root: Path, now: Disk, inode: nat, target: Path, result: Option<Bytes>)
    requires Sound(disk, root) && IsObject(root, target) && Private(disk, root, inode)
    requires now.entries == disk.entries && now.older == disk.older
    requires disk.data.Keys <= now.data.Keys && disk.synced - {inode} <= now.synced
    requires forall each :: each in disk.data && each != inode ==> now.data[each] == disk.data[each]
    ensures Sound(now, root) && Private(now, root, inode) && SamePlaces(disk, now, root)
            && SameObject(disk, now, target)
    ensures Atomic(disk, now, root, target, result)
  {
    assert forall path, entry :: now.MayBe(path, entry) <==> disk.MayBe(path, entry);
    assert Private(now, root, inode);
    assert ObjectsSound(now, root) by {
      forall path, entry | IsObject(root, path) && now.MayBe(path, entry) && entry.Some?
        ensures now.IsDir(Parent(path)) && entry.value.File? && entry.value.inode in now.synced
      {
        assert disk.MayBe(path, entry) && disk.MayBe(path, Some(File(entry.value.inode)));
      }
    }
    OnlyTargetIsAtomic(disk, now, root, target, result);
  }

  lemma CreatedStep(disk: Disk, root: Path, temporary: Path, inode: nat, target: Path, result: Option<Bytes>)
    requires Sound(disk, root) && IsObject(root, target) && IsTemporary(root, temporary)
    requires disk.Lookup(temporary).None? && disk.IsDir(Parent(temporary)) && inode !in disk.data
    ensures var now := disk.Created(temporary, inode);
            && Sound(now, root) && Private(now, root, inode) && SamePlaces(disk, now, root)
            && Atomic(disk, now, root, target, result)
  {
    var between := disk.(data := disk.data[inode := []], synced := disk.synced - {inode});
    PrivateFile(disk, root, between, inode, target, result);
    TemporarySet(between, root, temporary, Some(File(inode)), target, result);
    AtomicTwice(disk, between, disk.Created(temporary, inode), root, target, result);
    TemporaryIsNoObject(root, temporary);
    SetMayBe(between, temporary, Some(File(inode)));
  }

  lemma TargetSet(disk: Disk, root: Path, target: Path, entry: Option<Entry>, result: Option<Bytes>)
    requires Sound(disk, root) && IsObject(root, target) && MayPut(disk, root, target, entry)
    requires result == if entry.Some? then Some(disk.data[entry.value.inode]) else None
    ensures var now := disk.Set(target, entry);
            && Sound(now, root) && SamePlaces(disk, now, root) && now.Read(target) == result
            && Atomic(disk, now, root, target, result)
  {
    var now := disk.Set(target, entry);
    SetSound(disk, root, target, entry);
    SetMayBe(disk, target, entry);
    OnlyTargetIsAtomic(disk, now, root, target, result);
  }

  lemma RenamedStep(disk: Disk, root: Path, temporary: Path, inode: nat, target: Path)
    requires Sound(disk, root) && IsObject(root, target) && IsTemporary(root, temporary)
    requires disk.Lookup(temporary) == Some(File(inode)) && inode in disk.synced && inode in disk.data
    requires disk.IsDir(Parent(target))
    ensures var now := disk.Renamed(temporary, target);
            && Sound(now, root) && SamePlaces(disk, now, root)
            && now.Read(target) == Some(disk.data[inode])
            && Atomic(disk, now, root, target, Some(disk.data[inode]))
  {
    var between := disk.Set(target, Some(File(inode)));
    TemporaryIsNoObject(root, temporary);
    assert disk.MayBe(target, disk.Lookup(target));
    TargetSet(disk, root, target, Some(File(inode)), Some(disk.data[inode]));
    TemporarySet(between, root, temporary, None, target, Some(disk.data[inode]));
    AtomicTwice(disk, between, disk.Renamed(temporary, target), root, target, Some(disk.data[inode]));
  }

  lemma SyncedStep(disk: Disk, root: Path, directory: Path, target: Path, result: Option<Bytes>)
    requires Sound(disk, root) && IsObject(root, target)
    ensures var now := disk.DirectorySynced(directory);
            && Sound(now, root) && Atomic(disk, now, root, target, result) && now.Read(target) == disk.Read(target)
            && (|directory| == |root| + 2 ==> SamePlaces(disk, now, root))
  {
    var now := disk.DirectorySynced(directory);
    assert forall path, entry :: now.MayBe(path, entry) ==> disk.MayBe(path, entry);
    OnlyTargetIsAtomic(disk, now, root, target, result);
    assert forall path :: now.Lookup(path) == disk.Lookup(path);
  }

  /** Making a missing directory of the layout. */
  lemma MadeStep(disk: Disk, root: Path, place: Path, target: Path, result: Option<Bytes>)
    requires Sound(disk, root) && IsObject(root, target) && IsPlace(root, place) && place != []
    requires disk.Lookup(place).None? && disk.IsDir(Parent(place))
    ensures var now := disk.Set(place, Some(Dir));
            Sound(now, root) && Atomic(disk, now, root, target, result) && now.Read(target) == disk.Read(target)
  {
    var now := disk.Set(place, Some(Dir));
    SetSound(disk, root, place, Some(Dir));
    SetMayBe(disk, place, Some(Dir));
    forall path, each | IsObject(root, path) && MayRead(now, path, each)
      ensures MayRead(disk, path, each)
    {
      MadeReads(disk, root, place, path, each);
    }
  }

  lemma MadeReads(disk: Disk, root: Path, place: Path, path: Path, each: Option<Bytes>)
    requires Sound(disk, root) && IsPlace(root, place) && place != []
    requires disk.Lookup(place).None? && disk.IsDir(Parent(place))
    requires IsObject(root, path) && MayRead(disk.Set(place, Some(Dir)), path, each)
    ensures MayRead(disk, path, each)
  {
    var now := disk.Set(place, Some(Dir));
    SetMayBe(disk, place, Some(Dir));
    if each.None? {
      var n :| 0 < n <= |path| && now.MayBe(path[..n], None);
      assert disk.MayBe(path[..n], None);
    } else {
      var inode :| inode in now.data && now.data[inode] == each.value && now.MayBe(path, Some(File(inode)));
      assert disk.MayBe(path, Some(File(inode)));
      forall n | 0 <= n < |path|
        ensures disk.IsDir(path[..n])
      {
        ParentsExist(disk, path, n);
      }
    }
  }
}
