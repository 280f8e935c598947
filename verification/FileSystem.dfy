/** A POSIX file system with volatile and durable state, as far as the object
    store uses it: directories, regular files, `rename` within one directory and
    `fsync` of files and directories (IEEE Std 1003.1-2017). A power crash may
    undo every change of a directory entry that has not been synced. */
module FileSystem {
  import opened Basics

  type Name = string
  type Path = seq<Name>

  datatype Entry = Dir | File(inode: nat)

  function Parent(path: Path): Path
    requires path != []
  {
    path[..|path| - 1]
  }

  /** The directory entries now; the values a crash may still bring back, which
      are those an entry had since its directory was last synced; the contents
      of files, and the files whose contents are synced. */
  datatype Disk = Disk(entries: map<Path, Entry>, older: set<(Path, Option<Entry>)>, data: map<nat, Bytes>,
                       synced: set<nat>)
  {
    function Lookup(path: Path): Option<Entry> {
      if path == [] then Some(Dir) else if path in entries then Some(entries[path]) else None
    }

    predicate IsDir(path: Path) {
      Lookup(path) == Some(Dir)
    }

    /** What a crash may leave at a path whose directory survives. */
    predicate MayBe(path: Path, entry: Option<Entry>) {
      entry == Lookup(path) || (path, entry) in older
    }

    function Set(path: Path, entry: Option<Entry>): Disk {
      this.(entries := if entry.Some? then entries[path := entry.value] else entries - {path},
            older := older + {(path, Lookup(path))})
    }

    function Created(path: Path, inode: nat): Disk {
      Set(path, Some(File(inode))).(data := data[inode := []], synced := synced - {inode})
    }

    function Appended(inode: nat, chunk: Bytes): Disk
      requires inode in data
    {
      this.(data := data[inode := data[inode] + chunk], synced := synced - {inode})
    }

    function FileSynced(inode: nat): Disk {
      this.(synced := synced + {inode})
    }

    function Renamed(source: Path, target: Path): Disk
      requires source in entries
    {
      Set(target, Some(entries[source])).Set(source, None)
    }

    function DirectorySynced(directory: Path): Disk {
      this.(older := set change | change in older && !(change.0 != [] && Parent(change.0) == directory))
    }

    /** What reading a path gives now. */
    function Read(path: Path): Option<Bytes> {
      if Lookup(path).Some? && Lookup(path).value.File? && Lookup(path).value.inode in data
      then Some(data[Lookup(path).value.inode]) else None
    }
  }

  /** A power crash: entries below a lost directory are lost, every other entry
      is one of the values it may be, synced contents survive, contents that
      were not synced may be anything. */
  ghost predicate Crash(disk: Disk, after: Disk) {
    && after.older == {} && after.synced == after.data.Keys
    && (forall path :: path != [] ==> CrashEntry(disk, after, path))
    && (forall inode :: inode in disk.synced && inode in disk.data ==>
          inode in after.data && after.data[inode] == disk.data[inode])
    && (forall path :: path in after.entries && after.entries[path].File? ==> after.entries[path].inode in after.data)
    && [] !in after.entries
  }

  predicate CrashEntry(disk: Disk, after: Disk, path: Path)
    requires path != []
  {
    if after.IsDir(Parent(path)) then disk.MayBe(path, after.Lookup(path)) else after.Lookup(path).None?
  }

  ghost predicate ReadAfterCrash(disk: Disk, path: Path, result: Option<Bytes>) {
    exists after :: Crash(disk, after) && after.Read(path) == result
  }
}
