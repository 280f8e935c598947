/** Where objects live on the disk, and what a crash can do to them. */
module ObjectLayout {
  import opened Basics
  import opened FileSystem

  const SCOPES: seq<Name> := ["uploads", "results", "result-manifests", "reversion-uploads", "reversion-results",
                              "template-versions", "composer-artifacts", "composer-sources", "typed-templates",
                              "composer-library"]

  /** The canonical text of a UUID: 32 lower-case hexadecimal digits in groups of
      8, 4, 4, 4 and 12. A UUID is identified with this text. */
  predicate IsUuid(name: Name) {
    && |name| == 36
    && forall i :: 0 <= i < 36 ==>
         if i in {8, 13, 18, 23} then name[i] == '-' else '0' <= name[i] <= '9' || 'a' <= name[i] <= 'f'
  }

  datatype ObjectKey = ObjectKey(scope: Name, owner: Name, id: Name) {
    predicate Valid() {
      scope in SCOPES && IsUuid(owner) && IsUuid(id)
    }
  }

  function PathOf(root: Path, key: ObjectKey): Path {
    root + [key.scope, key.owner, key.id]
  }

  /** `_scoped_key`: only names this adapter writes. */
  function ScopedKey(scope: Name, owner: Name, name: Name): Option<ObjectKey> {
    if IsUuid(owner) && IsUuid(name) then Some(ObjectKey(scope, owner, name)) else None
  }

  predicate IsObject(root: Path, path: Path) {
    && |path| == |root| + 3 && root <= path
    && path[|root|] in SCOPES && IsUuid(path[|root| + 1]) && IsUuid(path[|root| + 2])
  }

  /** The root, what is above it and the two levels of directories below. */
  predicate IsPlace(root: Path, path: Path) {
    |path| <= |root| + 2 && (path <= root || root <= path)
  }

  /** Every entry hangs in a directory, every file has contents. */
  ghost predicate TreeSound(disk: Disk) {
    && (forall path :: path in disk.entries ==> path != [] && disk.IsDir(Parent(path)))
    && (forall path, inode :: disk.MayBe(path, Some(File(inode))) ==> inode in disk.data)
  }

  /** Places are directories that never go away. */
  ghost predicate PlacesSound(disk: Disk, root: Path) {
    && (forall path, entry :: IsPlace(root, path) && disk.MayBe(path, entry) ==> entry == None || entry == Some(Dir))
    && (forall path :: IsPlace(root, path) ==> (path, Some(Dir)) !in disk.older)
  }

  /** Objects are files whose contents were synced before they got their name. */
  ghost predicate ObjectsSound(disk: Disk, root: Path) {
    forall path, entry :: IsObject(root, path) && disk.MayBe(path, entry) && entry.Some? ==>
      disk.IsDir(Parent(path)) && entry.value.File? && entry.value.inode in disk.synced
  }

  ghost predicate Sound(disk: Disk, root: Path) {
    TreeSound(disk) && PlacesSound(disk, root) && ObjectsSound(disk, root)
  }

  /** Some directory on the way, or the object itself, may be missing. */
  ghost predicate MayMiss(disk: Disk, path: Path) {
    exists n :: 0 < n <= |path| && disk.MayBe(path[..n], None)
  }

  ghost predicate MayFind(disk: Disk, path: Path, content: Bytes) {
    && (forall n :: 0 <= n < |path| ==> disk.IsDir(path[..n]))
    && exists inode :: inode in disk.data && disk.data[inode] == content && disk.MayBe(path, Some(File(inode)))
  }

  /** What a read after a crash may give. */
  ghost predicate MayRead(disk: Disk, path: Path, result: Option<Bytes>) {
    match result
    case None => MayMiss(disk, path)
    case Some(content) => MayFind(disk, path, content)
  }

  lemma AncestorIsPlace(root: Path, path: Path, n: nat)
    requires IsObject(root, path) && n < |path|
    ensures IsPlace(root, path[..n])
  {
    if n <= |root| {
      assert path[..n] == root[..n];
    } else {
      assert path[..n][..|root|] == root;
    }
  }

  lemma {:induction false} AncestorsExist(disk: Disk, path: Path, n: nat)
    requires n < |path| && disk.Lookup(path).Some?
    requires forall each :: each in disk.entries ==> each != [] && disk.IsDir(Parent(each))
    ensures disk.IsDir(path[..n])
    decreases |path|
  {
    if n + 1 < |path| {
      AncestorsExist(disk, Parent(path), n);
      assert Parent(path)[..n] == path[..n];
    }
  }

  // ---------------------------------------------------------------------
  // The two descriptions agree

  lemma {:induction false} LostDirectory(disk: Disk, after: Disk, root: Path, path: Path, n: nat)
    requires Sound(disk, root) && IsObject(root, path) && Crash(disk, after)
    requires n < |path| && !after.IsDir(path[..n])
    ensures MayMiss(disk, path)
  {
    var place := path[..n];
    AncestorIsPlace(root, path, n);
    assert CrashEntry(disk, after, place);
    assert Parent(place) == path[..n - 1];
    if after.IsDir(Parent(place)) {
      assert disk.MayBe(path[..n], None);
    } else {
      LostDirectory(disk, after, root, path, n - 1);
    }
  }

  lemma CrashedRead(disk: Disk, after: Disk, root: Path, path: Path)
    requires Sound(disk, root) && IsObject(root, path) && Crash(disk, after)
    ensures MayRead(disk, path, after.Read(path))
  {
    if !after.IsDir(Parent(path)) {
      LostDirectory(disk, after, root, path, |path| - 1);
      assert CrashEntry(disk, after, path);
    } else {
      assert CrashEntry(disk, after, path);
      if after.Lookup(path).None? {
        assert path[..|path|] == path;
      } else {
        var entry := after.Lookup(path);
        assert disk.MayBe(path, entry);
        forall n | 0 <= n < |path|
          ensures disk.IsDir(path[..n])
        {
          ParentsExist(disk, path, n);
        }
        assert disk.MayBe(path, Some(File(entry.value.inode)));
      }
    }
  }

  lemma ParentsExist(disk: Disk, path: Path, n: nat)
    requires n < |path| && disk.IsDir(Parent(path))
    requires forall each :: each in disk.entries ==> each != [] && disk.IsDir(Parent(each))
    ensures disk.IsDir(path[..n])
  {
    if n + 1 < |path| {
      AncestorsExist(disk, Parent(path), n);
      assert Parent(path)[..n] == path[..n];
    }
  }

  /** The disk a crash leaves when it keeps these entries. */
  function Remains(disk: Disk, entries: map<Path, Entry>): Disk {
    Disk(entries, {}, disk.data, disk.data.Keys)
  }

  predicate Below(place: Path, path: Path) {
    |place| <= |path| && path[..|place|] == place
  }

  lemma ParentBelow(place: Path, path: Path)
    requires path != []
    ensures Below(place, Parent(path)) ==> Below(place, path)
    ensures Below(place, path) && path != place ==> Below(place, Parent(path))
  {
    if |place| < |path| {
      assert Parent(path)[..|place|] == path[..|place|];
    }
  }

  lemma CrashMayLose(disk: Disk, root: Path, path: Path, n: nat)
    requires Sound(disk, root) && 0 < n <= |path| && disk.MayBe(path[..n], None)
    ensures ReadAfterCrash(disk, path, None)
  {
    var lost := path[..n];
    var after := Remains(disk, map each | each in disk.entries && !Below(lost, each) :: disk.entries[each]);
    forall each: Path | each != []
      ensures CrashEntry(disk, after, each)
    {
      ParentBelow(lost, each);
    }
    FilesHaveData(disk, root);
    assert Crash(disk, after);
  }

  lemma FilesHaveData(disk: Disk, root: Path)
    requires Sound(disk, root)
    ensures forall path :: path in disk.entries && disk.entries[path].File? ==> disk.entries[path].inode in disk.data
  {
    forall path | path in disk.entries && disk.entries[path].File?
      ensures disk.entries[path].inode in disk.data
    {
      assert disk.MayBe(path, Some(File(disk.entries[path].inode)));
    }
  }

  lemma CrashMayKeep(disk: Disk, root: Path, path: Path, inode: nat)
    requires Sound(disk, root) && IsObject(root, path) && disk.MayBe(path, Some(File(inode)))
    ensures ReadAfterCrash(disk, path, Some(disk.data[inode]))
  {
    var after := Remains(disk, disk.entries[path := File(inode)]);
    assert !disk.IsDir(path) by {
      assert disk.MayBe(path, disk.Lookup(path));
    }
    forall each: Path | each != []
      ensures CrashEntry(disk, after, each)
    {
    }
    FilesHaveData(disk, root);
    assert Crash(disk, after);
  }

  /** For every object: a crash can make a read give exactly these results. */
  lemma CrashReadsExactly(disk: Disk, root: Path, path: Path, result: Option<Bytes>)
    requires Sound(disk, root) && IsObject(root, path)
    ensures ReadAfterCrash(disk, path, result) <==> MayRead(disk, path, result)
  {
    if ReadAfterCrash(disk, path, result) {
      var after :| Crash(disk, after) && after.Read(path) == result;
      CrashedRead(disk, after, root, path);
    }
    if MayRead(disk, path, result) {
      if result.None? {
        var n :| 0 < n <= |path| && disk.MayBe(path[..n], None);
        CrashMayLose(disk, root, path, n);
      } else {
        var inode :| inode in disk.data && disk.data[inode] == result.value && disk.MayBe(path, Some(File(inode)));
        CrashMayKeep(disk, root, path, inode);
      }
    }
  }

  /** A crash leaves a sound disk, where another crash changes nothing more. */
  lemma CrashSound(disk: Disk, after: Disk, root: Path)
    requires Sound(disk, root) && Crash(disk, after)
    ensures Sound(after, root)
  {
    forall path | path in after.entries
      ensures path != [] && after.IsDir(Parent(path))
    {
      assert CrashEntry(disk, after, path);
    }
    forall path, entry | IsPlace(root, path) && after.MayBe(path, entry)
      ensures entry == None || entry == Some(Dir)
    {
      assert path != [] ==> CrashEntry(disk, after, path);
    }
    forall path, entry | IsObject(root, path) && after.MayBe(path, entry) && entry.Some?
      ensures after.IsDir(Parent(path)) && entry.value.File? && entry.value.inode in after.synced
    {
      assert CrashEntry(disk, after, path);
    }
  }

  /** Reads after a crash of a crashed disk were possible before it too. */
  lemma CrashNarrows(disk: Disk, after: Disk, root: Path, path: Path, result: Option<Bytes>)
    requires Sound(disk, root) && IsObject(root, path) && Crash(disk, after) && MayRead(after, path, result)
    ensures MayRead(disk, path, result) && after.Read(path) == result
  {
    CrashSound(disk, after, root);
    if result.None? {
      var n :| 0 < n <= |path| && after.MayBe(path[..n], None);
      assert path[..|path|] == path;
      if n < |path| && after.Lookup(path).Some? {
        AncestorsExist(after, path, n);
      }
    }
    CrashedRead(disk, after, root, path);
  }
}
