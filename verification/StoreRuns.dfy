/** The object store over whole runs: completed operations, operations that fail
    or are killed anywhere, and power crashes. */
module StoreRuns {
  import opened Basics
  import opened FileSystem
  import opened ObjectLayout
  import opened ObjectSteps
  import opened Storage

  /** A put or deletion is cut when it fails or its process is killed. */
  datatype Event =
    | PutDone(path: Path, content: Bytes)
    | PutCut(path: Path, content: Bytes)
    | DeleteDone(path: Path)
    | DeleteCut(path: Path)
    | PowerLoss

  /** What an event does to the disk: what the operations promise, and a crash. */
  ghost predicate Happens(start: Disk, event: Event, now: Disk, root: Path) {
    match event
    case PutDone(path, content) => IsObject(root, path) && PutReturned(start, now, root, path, content)
    case PutCut(path, content) => IsObject(root, path) && PutStopped(start, now, root, path, content)
    case DeleteDone(path) => IsObject(root, path) && DeleteReturned(start, now, root, path)
    case DeleteCut(path) => IsObject(root, path) && DeleteStopped(start, now, root, path)
    case PowerLoss => Crash(start, now)
  }

  ghost predicate Run(disks: seq<Disk>, events: seq<Event>, root: Path) {
    && |disks| == |events| + 1 && Sound(disks[0], root)
    && forall i :: 0 <= i < |events| ==> Happens(disks[i], events[i], disks[i + 1], root)
  }

  lemma HappensAt(disks: seq<Disk>, events: seq<Event>, root: Path, i: nat)
    requires Run(disks, events, root) && i < |events|
    ensures Happens(disks[i], events[i], disks[i + 1], root)
  {
  }

  predicate Touches(event: Event, path: Path) {
    !event.PowerLoss? && event.path == path
  }

  lemma {:induction false} SoundThroughout(disks: seq<Disk>, events: seq<Event>, root: Path, i: nat)
    requires Run(disks, events, root) && i < |disks|
    ensures Sound(disks[i], root)
  {
    if i > 0 {
      SoundThroughout(disks, events, root, i - 1);
      HappensAt(disks, events, root, i - 1);
      if events[i - 1].PowerLoss? {
        CrashSound(disks[i - 1], disks[i], root);
      }
    }
  }

  lemma SamePlacesAnchored(start: Disk, now: Disk, root: Path)
    requires SamePlaces(start, now, root) && Anchored(start, root)
    ensures Anchored(now, root)
  {
  }

  lemma CrashAnchors(disk: Disk, after: Disk, root: Path)
    requires Crash(disk, after)
    ensures Anchored(after, root)
  {
  }

  /** A crash anchors the store, and it stays so until a `put` is cut. */
  lemma {:induction false} AnchoredThroughout(disks: seq<Disk>, events: seq<Event>, root: Path, i: nat, j: nat)
    requires Run(disks, events, root) && i <= j < |disks|
    requires Anchored(disks[i], root) || (0 < i && events[i - 1].PowerLoss?)
    requires forall k :: i <= k < j ==> !events[k].PutCut?
    ensures Anchored(disks[j], root)
    decreases j
  {
    if i == j {
      if 0 < i && events[i - 1].PowerLoss? {
        HappensAt(disks, events, root, i - 1);
        CrashAnchors(disks[i - 1], disks[i], root);
      }
    } else {
      AnchoredThroughout(disks, events, root, i, j - 1);
      HappensAt(disks, events, root, j - 1);
      match events[j - 1]
      case PutDone(_, _) =>
      case DeleteDone(_) => SamePlacesAnchored(disks[j - 1], disks[j], root);
      case DeleteCut(_) => SamePlacesAnchored(disks[j - 1], disks[j], root);
      case PowerLoss => CrashAnchors(disks[j - 1], disks[j], root);
    }
  }

  /** An event that does not touch a lasting object leaves it readable and lasting. */
  lemma LastsThrough(start: Disk, event: Event, now: Disk, root: Path, path: Path, content: Bytes)
    requires Sound(start, root) && Sound(now, root) && Happens(start, event, now, root) && IsObject(root, path)
    requires !Touches(event, path) && start.Read(path) == Some(content) && Survives(start, path, content)
    ensures now.Read(path) == Some(content) && Survives(now, path, content)
  {
    match event
    case PutDone(target, written) => SurvivesOthers(start, now, root, target, Some(written), path, content);
    case PutCut(target, written) => SurvivesOthers(start, now, root, target, Some(written), path, content);
    case DeleteDone(target) => SurvivesOthers(start, now, root, target, None, path, content);
    case DeleteCut(target) => SurvivesOthers(start, now, root, target, None, path, content);
    case PowerLoss => SurvivesCrashes(start, now, root, path, content);
  }

  /** Once a `put` has returned, its content is read in every later state of the
      run, crashes included, until the object is put or deleted again, provided
      that the directories that were there at its start cannot be lost. */
  lemma {:induction false} ReturnedPutLasts(disks: seq<Disk>, events: seq<Event>, root: Path, i: nat, j: nat)
    requires Run(disks, events, root) && i < j < |disks| && events[i].PutDone?
    requires ExistingLast(disks[i], events[i].path)
    requires forall k :: i < k < j ==> !Touches(events[k], events[i].path)
    ensures disks[j].Read(events[i].path) == Some(events[i].content)
    ensures Survives(disks[j], events[i].path, events[i].content)
    decreases j
  {
    HappensAt(disks, events, root, i);
    if i + 1 < j {
      ReturnedPutLasts(disks, events, root, i, j - 1);
      SoundThroughout(disks, events, root, j - 1);
      SoundThroughout(disks, events, root, j);
      HappensAt(disks, events, root, j - 1);
      LastsThrough(disks[j - 1], events[j - 1], disks[j], root, events[i].path, events[i].content);
    }
  }

  /** A store that is anchored and whose puts all return never loses an object. */
  lemma UncutStoreLasts(disks: seq<Disk>, events: seq<Event>, root: Path, i: nat, j: nat)
    requires Run(disks, events, root) && Anchored(disks[0], root) && i < j < |disks| && events[i].PutDone?
    requires forall k :: 0 <= k < i ==> !events[k].PutCut?
    requires forall k :: i < k < j ==> !Touches(events[k], events[i].path)
    ensures disks[j].Read(events[i].path) == Some(events[i].content)
  {
    AnchoredThroughout(disks, events, root, 0, i);
    HappensAt(disks, events, root, i);
    AnchoredLasts(disks[i], root, events[i].path);
    ReturnedPutLasts(disks, events, root, i, j);
  }

  /** Where a directory can be lost, a crash after the `put` has returned may lose
      the content. */
  lemma ReturnedPutMayBeLost(start: Disk, now: Disk, root: Path, path: Path, content: Bytes)
    requires IsObject(root, path) && PutReturned(start, now, root, path, content)
    ensures !ExistingLast(start, path) <==> exists after :: Crash(now, after) && after.Read(path) != Some(content)
  {
  }

  /** A longer run whose further events leave an object alone. */
  ghost predicate Continues(disks: seq<Disk>, events: seq<Event>, longer: seq<Disk>, further: seq<Event>, root: Path,
                            path: Path) {
    && Run(longer, further, root) && disks <= longer && events <= further
    && forall k :: |events| <= k < |further| ==> !Touches(further[k], path)
  }

  lemma ContinuesByCrash(disks: seq<Disk>, events: seq<Event>, after: Disk, root: Path, path: Path)
    requires Run(disks, events, root) && Crash(disks[|events|], after)
    ensures Continues(disks, events, disks + [after], events + [PowerLoss], root, path)
  {
    var longer, further := disks + [after], events + [PowerLoss];
    forall i | 0 <= i < |further|
      ensures Happens(longer[i], further[i], longer[i + 1], root)
    {
      if i < |events| {
        HappensAt(disks, events, root, i);
      }
    }
  }

  /** The condition of `ReturnedPutLasts` is exact: the directories a `put` found
      cannot be lost iff no continuation of the run loses what it stored. */
  lemma ReturnedPutLastsExactly(disks: seq<Disk>, events: seq<Event>, root: Path)
    requires Run(disks, events, root) && events != [] && events[|events| - 1].PutDone?
    ensures var put := events[|events| - 1];
            ExistingLast(disks[|events| - 1], put.path) <==>
            forall longer: seq<Disk>, further ::
              Continues(disks, events, longer, further, root, put.path) ==>
                longer[|further|].Read(put.path) == Some(put.content)
  {
    var last := |events| - 1;
    var put := events[last];
    HappensAt(disks, events, root, last);
    if ExistingLast(disks[last], put.path) {
      forall longer: seq<Disk>, further | Continues(disks, events, longer, further, root, put.path)
        ensures longer[|further|].Read(put.path) == Some(put.content)
      {
        ReturnedPutLasts(longer, further, root, last, |further|);
      }
    } else {
      ReturnedPutMayBeLost(disks[last], disks[last + 1], root, put.path, put.content);
      var after :| Crash(disks[last + 1], after) && after.Read(put.path) != Some(put.content);
      ContinuesByCrash(disks, events, after, root, put.path);
    }
  }

  /** A `put` killed between making a directory and syncing its parent is such a
      case: the next `put` below that directory returns, and a crash loses it. */
  lemma KilledPutUndermines(disk: Disk, root: Path, path: Path, n: nat, killed: Bytes, now: Disk, content: Bytes)
    requires Sound(disk, root) && IsObject(root, path) && 0 < n < |path|
    requires disk.Lookup(path[..n]).None? && disk.IsDir(path[..n - 1])
    requires Happens(disk.Set(path[..n], Some(Dir)), PutDone(path, content), now, root)
    ensures Happens(disk, PutCut(path, killed), disk.Set(path[..n], Some(Dir)), root)
    ensures exists after :: Happens(now, PowerLoss, after, root) && after.Read(path) == None
  {
    var place, made := path[..n], disk.Set(path[..n], Some(Dir));
    AncestorIsPlace(root, path, n);
    assert Parent(place) == path[..n - 1];
    MadeStep(disk, root, place, path, Some(killed));
    assert made.IsDir(place) && (place, None) in made.older;
    ReturnedPutMayBeLost(made, now, root, path, content);
    var after :| Crash(now, after) && after.Read(path) != Some(content);
    CrashedRead(now, after, root, path);
    NeverThere(disk, root, path, n, after.Read(path));
  }

  /** An object below a missing directory has never been there. */
  lemma NeverThere(disk: Disk, root: Path, path: Path, n: nat, result: Option<Bytes>)
    requires Sound(disk, root) && IsObject(root, path) && 0 < n < |path|
    requires disk.Lookup(path[..n]).None? && disk.IsDir(path[..n - 1])
    requires MayRead(disk.Set(path[..n], Some(Dir)), path, result)
    ensures result == None
  {
    var made := disk.Set(path[..n], Some(Dir));
    SetMayBe(disk, path[..n], Some(Dir));
    ParentMissing(disk, path, n);
    forall inode
      ensures !made.MayBe(path, Some(File(inode)))
    {
      if disk.MayBe(path, Some(File(inode))) {
        assert false;
      }
    }
  }

  lemma ParentMissing(disk: Disk, path: Path, n: nat)
    requires TreeSound(disk) && 0 < n < |path| && disk.Lookup(path[..n]).None?
    ensures !disk.IsDir(Parent(path))
  {
    assert Parent(path)[..n] == path[..n];
    if n == |path| - 1 {
      assert path[..n] == Parent(path);
    } else if disk.IsDir(Parent(path)) {
      AncestorsExist(disk, Parent(path), n);
    }
  }
}
