/** What holds in every run of the ownership protocol. */
module OwnershipSafety {
  import opened Ownership

  lemma {:induction false} InvariantThroughout(states: seq<State>, steps: seq<Step>, i: nat)
    requires Run(states, steps) && i < |states|
    ensures Invariant(states[i])
  {
    if i > 0 {
      InvariantThroughout(states, steps, i - 1);
      InvariantKept(states[i - 1], steps[i - 1]);
    }
  }

  // ---------------------------------------------------------------------
  // Releasing an owner lock

  /** No group a session started is alive. */
  ghost predicate AllGroupsDead(s: State, pid: Pid) {
    forall group :: s.LiveGroup(group) ==> s.groups[group].starter != pid
  }

  /** The stack is over for good: nothing can create it any more and the engine
      has none of its resources. */
  ghost predicate Over(s: State, project: Project) {
    && project in s.owner && !s.Holds(s.owner[project], project)
    && s.Quiet(project) && s.Absent(project)
  }

  lemma AllKinds(seen: set<Kind>, kind: Kind)
    requires seen == KINDS
    ensures kind in seen
  {
    match kind
    case Container =>
    case Volume =>
    case Network =>
  }

  /** What the code has proved when it releases: nobody is left to create the
      stack, and the three listings, taken one after the other, add up. */
  lemma ReleasedIsOver(s: State, pid: Pid)
    requires Invariant(s) && CanFinishRelease(s, pid)
    ensures AllGroupsDead(s, pid)
    ensures s.Absent(s.sessions[pid].activity.project) && s.Quiet(s.sessions[pid].activity.project)
    ensures s.sessions[pid].activity.project in s.owner && s.owner[s.sessions[pid].activity.project] == pid
  {
    var project := s.sessions[pid].activity.project;
    assert SessionValid(s, pid) && ReleaseValid(s, pid);
    assert ProjectValid(s, project);
    forall group | s.LiveGroup(group)
      ensures s.groups[group].starter != pid && !s.Creates(group, project)
    {
      assert GroupValid(s, group);
    }
    forall kind: Kind
      ensures (project, kind) !in s.resources
    {
      if (project, kind) in s.resources {
        assert (project, kind).0 in s.listed;
        AllKinds(s.sessions[pid].activity.seen, kind);
      }
    }
  }

  /** The ownership invariant: a process drops an owner lock only when all the
      command groups it started are dead and the stack has no container, volume
      or network. */
  lemma ReleaseIsSafe(states: seq<State>, steps: seq<Step>, i: nat)
    requires Run(states, steps) && i < |steps| && steps[i].FinishRelease?
    ensures var pid, project := steps[i].pid, states[i].sessions[steps[i].pid].activity.project;
            && AllGroupsDead(states[i], pid)
            && states[i].Absent(project)
            && Over(states[i + 1], project)
  {
    InvariantThroughout(states, steps, i);
    assert CanFinishRelease(states[i], steps[i].pid);
    ReleasedIsOver(states[i], steps[i].pid);
    var project := states[i].sessions[steps[i].pid].activity.project;
    assert states[i + 1].groups == states[i].groups && states[i + 1].resources == states[i].resources;
  }

  /** An owner lock leaves a living process's table in no other step. */
  lemma OnlyReleaseDropsLocks(s: State, step: Step, pid: Pid, project: Project)
    requires Enabled(s, step)
    requires s.Holds(pid, project) && !Apply(s, step).Holds(pid, project)
    ensures step == Kill(pid) || (step == FinishRelease(pid) && s.sessions[pid].activity.project == project)
  {
  }

  /** Its owner no longer holds the stack and no live group creates it. */
  ghost predicate Frozen(s: State, project: Project) {
    project in s.owner && !s.Holds(s.owner[project], project) && s.Quiet(project)
  }

  /** The resources of a frozen stack can only shrink. This is why listings that
      are no snapshot are proof enough. */
  lemma FrozenStays(s: State, step: Step, project: Project)
    requires Invariant(s) && Enabled(s, step) && Frozen(s, project)
    ensures Frozen(Apply(s, step), project)
    ensures forall kind :: (project, kind) in Apply(s, step).resources ==> (project, kind) in s.resources
  {
    ProgressMade(s, step);
    QuietStays(s, Apply(s, step), project);
  }

  lemma QuietStays(s: State, after: State, project: Project)
    requires Grows(s, after) && Restrained(s, after) && Frozen(s, project)
    ensures after.Quiet(project)
  {
    forall group | after.LiveGroup(group)
      ensures !after.Creates(group, project)
    {
      assert !s.Creates(group, project);
      if group !in s.groups {
        assert NewGroup(s, after, group);
      }
    }
  }

  /** A stack that was released never comes back. */
  lemma {:induction false} ReleasedForever(states: seq<State>, steps: seq<Step>, i: nat, j: nat)
    requires Run(states, steps) && i < j < |states| && steps[i].FinishRelease?
    ensures Over(states[j], states[i].sessions[steps[i].pid].activity.project)
    decreases j
  {
    if j == i + 1 {
      ReleaseIsSafe(states, steps, i);
    } else {
      ReleasedForever(states, steps, i, j - 1);
      InvariantThroughout(states, steps, j - 1);
      FrozenStays(states[j - 1], steps[j - 1], states[i].sessions[steps[i].pid].activity.project);
    }
  }

  // ---------------------------------------------------------------------
  // Mutual exclusion

  /** No reaper gets past its claim on a stack whose owner lives and holds the
      `flock`, whatever other sessions do. */
  lemma LiveOwnerNeverReaped(states: seq<State>, steps: seq<Step>, i: nat, reaper: Pid)
    requires Run(states, steps) && i < |states| && states[i].Alive(reaper)
    requires states[i].sessions[reaper].activity.Locked? || states[i].sessions[reaper].activity.Reaping?
    ensures !states[i].Protected(states[i].sessions[reaper].activity.project)
  {
    InvariantThroughout(states, steps, i);
    var s, project := states[i], states[i].sessions[reaper].activity.project;
    assert ClaimValid(s, reaper) && SessionValid(s, reaper);
    assert ProjectValid(s, project) && SessionValid(s, s.owner[project]);
  }

  /** No two sessions hold a claimed or owned lock at the same time. */
  lemma OneHolder(states: seq<State>, steps: seq<Step>, i: nat, one: Pid, other: Pid, project: Project)
    requires Run(states, steps) && i < |states| && one in states[i].sessions && other in states[i].sessions
    requires forall pid :: pid in {one, other} ==>
               || project in states[i].sessions[pid].locked
               || (OwnsFlock(states[i].sessions[pid].activity) && states[i].sessions[pid].activity.project == project)
    ensures one == other
  {
    InvariantThroughout(states, steps, i);
    assert SessionValid(states[i], one) && ClaimValid(states[i], one);
    assert SessionValid(states[i], other) && ClaimValid(states[i], other);
  }

  // ---------------------------------------------------------------------
  // Lock files survive crashes

  /** No orphan command outlives the stale bound. */
  ghost predicate OrphansBounded(s: State) {
    forall project :: project in s.stale && project in s.owner && !s.Alive(s.owner[project]) ==> s.Quiet(project)
  }

  /** A stack without a lock file is over. */
  ghost predicate FileKept(s: State, project: Project) {
    project in s.owner && project !in s.files ==> Frozen(s, project) && s.Absent(project)
  }

  /** A claimed stack cannot grow, so what a listing did not see is not there. */
  ghost predicate ReapValid(s: State, pid: Pid) {
    pid in s.sessions && s.sessions[pid].activity.Reaping? ==>
      var Reaping(project, _, seen) := s.sessions[pid].activity;
      Frozen(s, project) && forall kind :: kind in seen ==> (project, kind) !in s.resources
  }

  ghost predicate FilesValid(s: State) {
    (forall project :: FileKept(s, project)) && (forall pid :: ReapValid(s, pid))
  }

  /** Past the claim nothing can create the stack: the recorded groups are dead,
      or the bound has passed and the orphans with it. */
  lemma ClaimedIsFrozen(s: State, pid: Pid)
    requires Invariant(s) && OrphansBounded(s) && CanMove(s, pid, Confirm)
    ensures Frozen(s, s.sessions[pid].activity.project)
  {
    var project := s.sessions[pid].activity.project;
    LockedOut(s, pid);
    assert ProjectValid(s, project);
    forall group | s.LiveGroup(group)
      ensures !s.Creates(group, project)
    {
      assert GroupValid(s, group);
    }
  }

  /** The only steps that unlink a lock file. */
  lemma FileDropped(s: State, step: Step, project: Project)
    requires Enabled(s, step) && project in s.files && project !in Apply(s, step).files
    ensures !step.Happen? && s.Alive(step.pid) && !s.sessions[step.pid].activity.Idle?
    ensures s.sessions[step.pid].activity.project == project
    ensures CanFinishRelease(s, step.pid) || CanFinishReap(s, step.pid)
    ensures Apply(s, step).groups == s.groups && Apply(s, step).resources == s.resources
  {
  }

  /** A stack is over when its lock file goes. */
  lemma DroppedIsOver(s: State, step: Step, project: Project)
    requires Invariant(s) && FilesValid(s) && Enabled(s, step)
    requires project in s.files && project !in Apply(s, step).files
    ensures s.Quiet(project) && s.Absent(project)
  {
    FileDropped(s, step, project);
    if CanFinishRelease(s, step.pid) {
      ReleasedIsOver(s, step.pid);
    } else {
      assert ReapValid(s, step.pid);
      forall kind: Kind
        ensures (project, kind) !in s.resources
      {
        AllKinds(s.sessions[step.pid].activity.seen, kind);
      }
    }
  }

  lemma QuietStill(s: State, after: State, project: Project)
    requires s.Quiet(project) && after.groups == s.groups
    ensures after.Quiet(project)
  {
    forall group | after.LiveGroup(group)
      ensures !after.Creates(group, project)
    {
      assert !s.Creates(group, project);
    }
  }

  lemma FileStays(s: State, step: Step, project: Project)
    requires Invariant(s) && FilesValid(s) && Enabled(s, step)
    ensures FileKept(Apply(s, step), project)
  {
    var after := Apply(s, step);
    ProgressMade(s, step);
    if project in after.owner && project !in after.files {
      if project in s.files {
        DroppedIsOver(s, step, project);
        FileDropped(s, step, project);
        QuietStill(s, after, project);
      } else {
        NewOwnerHasFile(s, step, project);
        assert FileKept(s, project);
        FrozenStays(s, step, project);
      }
    }
  }

  lemma NewOwnerHasFile(s: State, step: Step, project: Project)
    requires Enabled(s, step) && project in Apply(s, step).owner && project !in Apply(s, step).files
    ensures project in s.owner
  {
  }

  /** A session starts reaping only by confirming a claim, or on finding no
      lock file. */
  lemma ReapingBefore(s: State, step: Step, pid: Pid)
    requires Enabled(s, step) && pid in Apply(s, step).sessions && Apply(s, step).sessions[pid].activity.Reaping?
    requires !(step.MoveOn? && step.pid == pid)
    ensures pid in s.sessions && s.sessions[pid].activity == Apply(s, step).sessions[pid].activity
  {
  }

  lemma MoveFrozen(s: State, pid: Pid, move: Move)
    requires Invariant(s) && OrphansBounded(s) && FilesValid(s) && CanMove(s, pid, move)
    requires Moved(s, pid, move).Reaping?
    ensures Frozen(s, Moved(s, pid, move).project)
    ensures forall kind :: kind in Moved(s, pid, move).seen ==> (Moved(s, pid, move).project, kind) !in s.resources
  {
    if move.Confirm? {
      ClaimedIsFrozen(s, pid);
    } else if move.LookAt? {
      assert FileKept(s, move.project);
    } else {
      assert ReapValid(s, pid);
    }
  }

  lemma ReapStays(s: State, step: Step, pid: Pid)
    requires Invariant(s) && OrphansBounded(s) && FilesValid(s) && Enabled(s, step)
    ensures ReapValid(Apply(s, step), pid)
  {
    var after := Apply(s, step);
    if pid in after.sessions && after.sessions[pid].activity.Reaping? {
      if step.MoveOn? && step.pid == pid {
        MoveFrozen(s, pid, step.move);
      } else {
        ReapingBefore(s, step, pid);
        assert ReapValid(s, pid);
      }
      FrozenStays(s, step, after.sessions[pid].activity.project);
    }
  }

  lemma {:induction false} FilesThroughout(states: seq<State>, steps: seq<Step>, i: nat)
    requires Run(states, steps) && i < |states|
    requires forall j :: 0 <= j < i ==> OrphansBounded(states[j])
    ensures FilesValid(states[i])
  {
    if i > 0 {
      FilesThroughout(states, steps, i - 1);
      InvariantThroughout(states, steps, i - 1);
      forall project: Project
        ensures FileKept(states[i], project)
      {
        FileStays(states[i - 1], steps[i - 1], project);
      }
      forall pid: Pid
        ensures ReapValid(states[i], pid)
      {
        ReapStays(states[i - 1], steps[i - 1], pid);
      }
    }
  }

  /** As long as no orphan command outlives the stale bound, a stack that has
      any resource, or may still get one, keeps its lock file on disk through
      kills and reaping: some later session can find and remove it. */
  lemma StackKeepsLockFile(states: seq<State>, steps: seq<Step>, i: nat, project: Project)
    requires Run(states, steps) && i < |states|
    requires forall j :: 0 <= j < i ==> OrphansBounded(states[j])
    requires !states[i].Absent(project) || !states[i].Quiet(project)
    ensures project in states[i].files
  {
    FilesThroughout(states, steps, i);
    InvariantThroughout(states, steps, i);
    var s := states[i];
    assert FileKept(s, project);
    if !s.Absent(project) {
      var kind :| (project, kind) in s.resources;
      assert (project, kind).0 in s.listed;
    } else {
      var group :| s.Creates(group, project);
      assert GroupValid(s, group);
    }
  }

  // ---------------------------------------------------------------------
  // Why the stale bound must cover orphans

  /** Some run ends here. */
  ghost predicate Reachable(s: State) {
    exists states, steps :: Run(states, steps) && states[|steps|] == s
  }

  lemma ReachNext(s: State, step: Step)
    requires Reachable(s) && Enabled(s, step)
    ensures Reachable(Apply(s, step))
  {
    var states, steps :| Run(states, steps) && states[|steps|] == s;
    var more, next := states + [Apply(s, step)], steps + [step];
    assert Run(more, next) && more[|next|] == Apply(s, step);
  }

  /** Some run leads from one state to another. */
  ghost predicate Leads(s: State, after: State) {
    exists states, steps :: Connects(states, steps) && states[0] == s && states[|steps|] == after
  }

  ghost predicate Connects(states: seq<State>, steps: seq<Step>) {
    && |states| == |steps| + 1
    && forall i :: 0 <= i < |steps| ==> Enabled(states[i], steps[i]) && states[i + 1] == Apply(states[i], steps[i])
  }

  lemma LeadsHere(s: State)
    ensures Leads(s, s)
  {
    assert Connects([s], []) && [s][0] == s;
  }

  lemma LeadsOn(s: State, between: State, step: Step)
    requires Leads(s, between) && Enabled(between, step)
    ensures Leads(s, Apply(between, step))
  {
    var states, steps :| Connects(states, steps) && states[0] == s && states[|steps|] == between;
    var more, next := states + [Apply(between, step)], steps + [step];
    assert Connects(more, next) && more[0] == s && more[|next|] == Apply(between, step);
  }

  lemma {:induction false} ReachedThrough(states: seq<State>, steps: seq<Step>)
    requires Connects(states, steps) && Reachable(states[0])
    ensures Reachable(states[|steps|])
    decreases |steps|
  {
    if |steps| > 0 {
      var n := |steps| - 1;
      ReachedThrough(states[..n + 1], steps[..n]);
      ReachNext(states[n], steps[n]);
    }
  }

  lemma ReachLeads(s: State, after: State)
    requires Reachable(s) && Leads(s, after)
    ensures Reachable(after)
  {
    var states, steps :| Connects(states, steps) && states[0] == s && states[|steps|] == after;
    ReachedThrough(states, steps);
  }

  lemma {:induction false} Above(used: set<Pid>) returns (bound: Pid)
    ensures forall pid :: pid in used ==> pid < bound
  {
    if used == {} {
      bound := 0;
    } else {
      var pid :| pid in used;
      var others := Above(used - {pid});
      bound := if others <= pid then pid + 1 else others;
      assert forall each :: each in used ==> each == pid || each in used - {pid};
    }
  }

  /** The stack of a dead session is past the stale bound, and one of the
      commands that may create it still lives. */
  predicate Outlived(s: State, project: Project, group: Group) {
    && project in s.owner && s.owner[project] in s.sessions && !s.Alive(s.owner[project])
    && project in s.stale && s.Creates(group, project)
  }

  lemma OutlivedStays(s: State, step: Step, project: Project, group: Group)
    requires DomainsValid(s) && Enabled(s, step) && Outlived(s, project, group)
    requires step != Happen(Die(group))
    ensures Outlived(Apply(s, step), project, group)
  {
  }

  lemma ReachListed(s: State, project: Project, group: Group) returns (after: State)
    requires Invariant(s) && Outlived(s, project, group)
    ensures Leads(s, after) && Invariant(after) && Outlived(after, project, group)
    ensures after.files == s.files && after.holder == s.holder && project in after.listed
  {
    LeadsHere(s);
    LeadsOn(s, s, Happen(Create(group, Container)));
    InvariantKept(s, Happen(Create(group, Container)));
    after := Apply(s, Happen(Create(group, Container)));
  }

  /** Whoever has the `flock` of the stack is killed. */
  lemma ReachUnlocked(start: State, s: State, project: Project, group: Group) returns (after: State)
    requires Leads(start, s) && Invariant(s) && Outlived(s, project, group)
    ensures Leads(start, after) && Outlived(after, project, group) && project !in after.holder
    ensures after.files == s.files && after.listed == s.listed
  {
    after := s;
    if project in s.holder {
      var pid := s.holder[project];
      assert s.Alive(pid);
      LeadsOn(start, s, Kill(pid));
      OutlivedStays(s, Kill(pid), project, group);
      after := Apply(s, Kill(pid));
    }
  }

  /** A new session looks at the stack. */
  lemma ReachOpened(start: State, s: State, project: Project, group: Group) returns (after: State, pid: Pid)
    requires Leads(start, s) && Outlived(s, project, group) && project in s.files && project !in s.holder
             && project in s.listed
    ensures Leads(start, after) && Outlived(after, project, group) && project !in after.holder
    ensures after.Alive(pid) && after.sessions[pid].activity == Opened(project)
  {
    pid := Above(s.sessions.Keys);
    assert pid !in s.sessions;
    var s1 := Apply(s, Launch(pid));
    LeadsOn(start, s, Launch(pid));
    LeadsOn(start, s1, MoveOn(pid, LookAt(project)));
    after := Apply(s1, MoveOn(pid, LookAt(project)));
  }

  /** It claims the stack. */
  lemma ReachReaping(start: State, s: State, pid: Pid, project: Project, group: Group) returns (after: State)
    requires Leads(start, s) && Outlived(s, project, group) && project !in s.holder
    requires s.Alive(pid) && s.sessions[pid].activity == Opened(project)
    ensures Leads(start, after) && Reaps(after, pid, project, {}) && Outlived(after, project, group)
  {
    var s1 := Apply(s, TryLock(pid));
    LeadsOn(start, s, TryLock(pid));
    LeadsOn(start, s1, MoveOn(pid, Confirm));
    after := Apply(s1, MoveOn(pid, Confirm));
  }

  predicate Reaps(s: State, pid: Pid, project: Project, seen: set<Kind>) {
    s.Alive(pid) && s.sessions[pid].activity == Reaping(project, true, seen)
  }

  /** It sees none of a kind just after they were removed. */
  lemma ReachSeen(start: State, s: State, pid: Pid, project: Project, group: Group, seen: set<Kind>, kind: Kind)
    returns (after: State)
    requires Leads(start, s) && Reaps(s, pid, project, seen) && Outlived(s, project, group)
    ensures Leads(start, after) && Reaps(after, pid, project, seen + {kind}) && Outlived(after, project, group)
  {
    LeadsOn(start, s, Happen(Remove(project, kind)));
    var s1 := Apply(s, Happen(Remove(project, kind)));
    LeadsOn(start, s1, MoveOn(pid, SeeNone(kind)));
    after := Apply(s1, MoveOn(pid, SeeNone(kind)));
  }

  /** It removes the lock file, and then the old command creates a network. */
  lemma ReachLost(start: State, s: State, pid: Pid, project: Project, group: Group) returns (after: State)
    requires Leads(start, s) && Reaps(s, pid, project, {}) && Outlived(s, project, group)
    ensures Leads(start, after) && Lost(after, project)
  {
    var s1 := ReachSeen(start, s, pid, project, group, {}, Container);
    var s2 := ReachSeen(start, s1, pid, project, group, {} + {Container}, Volume);
    var s3 := ReachSeen(start, s2, pid, project, group, {} + {Container} + {Volume}, Network);
    LeadsOn(start, s3, FinishReap(pid));
    var s4 := Apply(s3, FinishReap(pid));
    LeadsOn(start, s4, Happen(Create(group, Network)));
    after := Apply(s4, Happen(Create(group, Network)));
    assert (project, Network) in after.resources;
  }

  /** The stack has a resource and no lock file. */
  predicate Lost(s: State, project: Project) {
    project in s.owner && !s.Absent(project) && project !in s.files
  }

  /** The stale bound is needed as stated: from every state in which a command
      that may create a stack has outlived it, some run leaves the stack with a
      resource and without its lock file. */
  lemma OutlivedLosesLockFile(s: State, project: Project, group: Group)
    requires Reachable(s) && Outlived(s, project, group)
    ensures exists after :: Leads(s, after) && Reachable(after) && Lost(after, project)
  {
    ReachableIsValid(s);
    var listed := ReachListed(s, project, group);
    if project !in s.files {
      LeadsOn(s, listed, Happen(Create(group, Network)));
      var after := Apply(listed, Happen(Create(group, Network)));
      assert (project, Network) in after.resources;
      ReachLeads(s, after);
    } else {
      var unlocked := ReachUnlocked(s, listed, project, group);
      var looked, pid := ReachOpened(s, unlocked, project, group);
      var reaping := ReachReaping(s, looked, pid, project, group);
      var after := ReachLost(s, reaping, pid, project, group);
      ReachLeads(s, after);
    }
  }

  /** So the bound is exact: it holds in a state exactly when no command that may
      create a stack has outlived it, and each that has can cost a lock file. */
  lemma UnboundedLosesLockFile(s: State)
    requires Reachable(s) && !OrphansBounded(s)
    ensures exists project, after :: Leads(s, after) && Reachable(after) && Lost(after, project)
  {
    var project :| project in s.stale && project in s.owner && !s.Alive(s.owner[project]) && !s.Quiet(project);
    var group :| s.Creates(group, project);
    ReachableIsValid(s);
    assert ProjectValid(s, project);
    OutlivedLosesLockFile(s, project, group);
  }

  lemma ReachableIsValid(s: State)
    requires Reachable(s)
    ensures Invariant(s)
  {
    var states, steps :| Run(states, steps) && states[|steps|] == s;
    InvariantThroughout(states, steps, |steps|);
  }
}
