/** The ownership protocol of scripts/testing/services.py, as a transition
    system over any number of test sessions, their lock files, the command
    groups they start and the engine resources those create.

    One step is one change another process could see. A session may be killed
    between any two steps; groups then live on as orphans. */
module Ownership {
  import opened Basics

  type Pid = nat
  type Project = nat
  type Group = nat

  datatype Kind = Container | Volume | Network

  const KINDS: set<Kind> := {Container, Volume, Network}

  /** What a session is in the middle of, inside a block that defers interrupts
      (releasing, reaping) or while it claims a stack. */
  datatype Activity =
    | Idle
    | Releasing(project: Project, seen: set<Kind>)
    | Opened(project: Project)
    | Locked(project: Project)
    | Reaping(project: Project, withLock: bool, seen: set<Kind>)

  /** The module tables of one process: `_HELD`, the held locks it has actually
      obtained, `_CREATION_ATTEMPTED` and `_UNSETTLED`. */
  datatype Session = Session(
    alive: bool, held: set<Project>, locked: set<Project>, attempted: set<Project>, unsettled: set<Group>,
      activity: Activity)

  /** A command group: who started it, the stack it may create, whether any of
      its processes is still alive. */
  datatype GroupInfo = GroupInfo(starter: Pid, target: Option<Project>, alive: bool)

  /** The lock file of a project is created once, so one `flock` holder per
      project also covers a file that is unlinked but still open. */
  datatype State = State(
    sessions: map<Pid, Session>,
    owner: map<Project, Pid>,
    files: set<Project>,
    holder: map<Project, Pid>,
    recorded: map<Project, set<Group>>,
    groups: map<Group, GroupInfo>,
    resources: set<(Project, Kind)>,
    listed: set<Project>,
    stale: set<Project>)
  {
    predicate Alive(pid: Pid) {
      pid in sessions && sessions[pid].alive
    }

    predicate Holds(pid: Pid, project: Project) {
      pid in sessions && project in sessions[pid].held
    }

    /** The session that owns the stack lives and has its `flock`. */
    predicate Protected(project: Project) {
      project in owner && Alive(owner[project]) && project in sessions[owner[project]].locked
    }

    predicate LiveGroup(group: Group) {
      group in groups && groups[group].alive
    }

    predicate Gone(group: Group) {
      group in groups && !groups[group].alive
    }

    predicate Creates(group: Group, project: Project) {
      LiveGroup(group) && groups[group].target == Some(project)
    }

    /** No live command group can still create this stack's resources. */
    ghost predicate Quiet(project: Project) {
      forall group :: !Creates(group, project)
    }

    predicate Absent(project: Project) {
      forall kind :: (project, kind) !in resources
    }

    /** Alive and in no release or claim. */
    predicate Free(pid: Pid) {
      Alive(pid) && sessions[pid].activity.Idle?
    }

    /** The stale bound has passed or every recorded group is gone. */
    predicate ClearToReap(project: Project) {
      project in stale || (project in recorded && forall group :: group in recorded[project] ==> !LiveGroup(group))
    }

    function SetActivity(pid: Pid, activity: Activity): State
      requires pid in sessions
    {
      Put(pid, sessions[pid].(activity := activity))
    }

    function Put(pid: Pid, session: Session): State {
      this.(sessions := sessions[pid := session])
    }
  }

  /** Steps that only change what one session is in the middle of. */
  datatype Move =
    | BeginRelease(project: Project)
    | SeeNone(kind: Kind)
    | AbortRelease
    | LookAt(project: Project)
    | Confirm
    | ListAgain
    | LoseClaim

  /** What groups, the engine and time do. */
  datatype Event =
    | Die(group: Group)
    | Create(group: Group, kind: Kind)
    | Remove(project: Project, kind: Kind)
    | Age(project: Project)

  datatype Step =
    | Launch(pid: Pid)
    | OpenLock(pid: Pid, project: Project)
    | TakeLock(pid: Pid, project: Project)
    | Attempt(pid: Pid, project: Project)
    | StartGroup(pid: Pid, group: Group, target: Option<Project>)
    | Settle(pid: Pid, group: Group)
    | MoveOn(pid: Pid, move: Move)
    | FinishRelease(pid: Pid)
    | TryLock(pid: Pid)
    | GiveUpClaim(pid: Pid)
    | FinishReap(pid: Pid)
    | Kill(pid: Pid)
    | Happen(event: Event)

  const DEAD := Session(false, {}, {}, {}, {}, Idle)
  const FRESH := Session(true, {}, {}, {}, {}, Idle)

  function KindsSeen(activity: Activity, kind: Kind): Activity {
    match activity
    case Releasing(project, seen) => Releasing(project, seen + {kind})
    case Reaping(project, withLock, seen) => Reaping(project, withLock, seen + {kind})
    case _ => activity
  }

  predicate Listing(activity: Activity) {
    activity.Releasing? || activity.Reaping?
  }

  predicate Claiming(activity: Activity) {
    activity.Opened? || activity.Locked? || activity.Reaping?
  }

  /** The claim's own descriptor has the `flock`. */
  predicate OwnsFlock(activity: Activity) {
    activity.Locked? || (activity.Reaping? && activity.withLock)
  }

  /** The `flock`s left when one process closes its descriptor for a project. */
  function Unlocked(holder: map<Project, Pid>, project: Project, pid: Pid): map<Project, Pid> {
    if project in holder && holder[project] == pid then holder - {project} else holder
  }

  /** The `flock`s left after the kernel closed everything a process had open. */
  function UnlockedAll(holder: map<Project, Pid>, pid: Pid): map<Project, Pid> {
    map project | project in holder && holder[project] != pid :: holder[project]
  }

  /** `_record_group` writes the group into every held lock. */
  function RecordedWith(recorded: map<Project, set<Group>>, held: set<Project>, group: Group)
    : map<Project, set<Group>>
  {
    map project | project in recorded :: if project in held then recorded[project] + {group} else recorded[project]
  }

  // Launch

  predicate CanLaunch(s: State, pid: Pid) {
    pid !in s.sessions
  }

  function LaunchState(s: State, pid: Pid): State
    requires CanLaunch(s, pid)
  {
    s.Put(pid, FRESH)
  }

  // OpenLock: The lock file of a fresh project is created and kept open.

  predicate CanOpenLock(s: State, pid: Pid, project: Project) {
    s.Free(pid) && project !in s.owner
  }

  function OpenLockState(s: State, pid: Pid, project: Project): State
    requires CanOpenLock(s, pid, project)
  {
    var session := s.sessions[pid];
    s.Put(pid, session.(held := session.held + {project})).(
      owner := s.owner[project := pid], files := s.files + {project}, recorded := s.recorded[project := {}])
  }

  // TakeLock

  predicate CanTakeLock(s: State, pid: Pid, project: Project) {
    s.Free(pid) && s.Holds(pid, project) && project !in s.holder
  }

  function TakeLockState(s: State, pid: Pid, project: Project): State
    requires CanTakeLock(s, pid, project)
  {
    var session := s.sessions[pid];
    s.Put(pid, session.(locked := session.locked + {project})).(holder := s.holder[project := pid])
  }

  // Attempt

  predicate CanAttempt(s: State, pid: Pid, project: Project) {
    s.Free(pid) && project in s.sessions[pid].locked
  }

  function AttemptState(s: State, pid: Pid, project: Project): State
    requires CanAttempt(s, pid, project)
  {
    var session := s.sessions[pid];
    s.Put(pid, session.(attempted := session.attempted + {project}))
  }

  // StartGroup: Starting a command group and recording it is one deferred step.

  predicate CanStartGroup(s: State, pid: Pid, group: Group, target: Option<Project>) {
    && s.Alive(pid) && group !in s.groups
    && (target.Some? ==> s.Free(pid) && target.value in s.sessions[pid].attempted)
  }

  function StartGroupState(s: State, pid: Pid, group: Group, target: Option<Project>): State
    requires CanStartGroup(s, pid, group, target)
  {
    var session := s.sessions[pid];
    s.Put(pid, session.(unsettled := session.unsettled + {group})).(
      groups := s.groups[group := GroupInfo(pid, target, true)],
        recorded := RecordedWith(s.recorded, session.held, group))
  }

  // Settle

  predicate CanSettle(s: State, pid: Pid, group: Group) {
    s.Alive(pid) && !s.LiveGroup(group)
  }

  function SettleState(s: State, pid: Pid, group: Group): State
    requires CanSettle(s, pid, group)
  {
    var session := s.sessions[pid];
    s.Put(pid, session.(unsettled := session.unsettled - {group}))
  }

  // FinishRelease: The only step that drops an owner lock.

  predicate CanFinishRelease(s: State, pid: Pid) {
    && s.Alive(pid) && s.sessions[pid].activity.Releasing? && s.sessions[pid].unsettled == {}
    && (s.sessions[pid].activity.project in s.sessions[pid].attempted ==> s.sessions[pid].activity.seen == KINDS)
  }

  function FinishReleaseState(s: State, pid: Pid): State
    requires CanFinishRelease(s, pid)
  {
    var session, project := s.sessions[pid], s.sessions[pid].activity.project;
    s.Put(pid, session.(held := session.held - {project}, locked := session.locked - {project},
                        attempted := session.attempted - {project}, activity := Idle)).(
      files := s.files - {project}, holder := Unlocked(s.holder, project, pid))
  }

  // TryLock

  predicate CanTryLock(s: State, pid: Pid) {
    s.Alive(pid) && s.sessions[pid].activity.Opened? && s.sessions[pid].activity.project !in s.holder
  }

  function TryLockState(s: State, pid: Pid): State
    requires CanTryLock(s, pid)
  {
    var project := s.sessions[pid].activity.project;
    s.SetActivity(pid, Locked(project)).(holder := s.holder[project := pid])
  }

  // GiveUpClaim

  predicate CanGiveUpClaim(s: State, pid: Pid) {
    s.Alive(pid) && Claiming(s.sessions[pid].activity)
  }

  function GiveUpClaimState(s: State, pid: Pid): State
    requires CanGiveUpClaim(s, pid)
  {
    var activity := s.sessions[pid].activity;
    s.SetActivity(pid, Idle).(holder := if OwnsFlock(activity) then Unlocked(s.holder, activity.project, pid)
                              else s.holder)
  }

  // FinishReap

  predicate CanFinishReap(s: State, pid: Pid) {
    s.Alive(pid) && s.sessions[pid].activity.Reaping? && s.sessions[pid].activity.seen == KINDS
  }

  function FinishReapState(s: State, pid: Pid): State
    requires CanFinishReap(s, pid)
  {
    var Reaping(project, withLock, _) := s.sessions[pid].activity;
    var done := s.SetActivity(pid, Idle);
    if withLock then done.(files := s.files - {project}, holder := Unlocked(s.holder, project, pid)) else done
  }

  // Kill: The kernel closes every descriptor; groups live on.

  predicate CanKill(s: State, pid: Pid) {
    s.Alive(pid)
  }

  function KillState(s: State, pid: Pid): State
    requires CanKill(s, pid)
  {
    s.Put(pid, DEAD).(holder := UnlockedAll(s.holder, pid))
  }

  // MoveOn

  predicate CanMove(s: State, pid: Pid, move: Move) {
    s.Alive(pid) &&
    var activity := s.sessions[pid].activity;
    match move
    case BeginRelease(project) => activity.Idle? && s.Holds(pid, project) && s.sessions[pid].unsettled == {}
    case SeeNone(kind) => Listing(activity) && (activity.project, kind) !in s.resources
    case AbortRelease => activity.Releasing?
    case LookAt(project) =>
      activity.Idle? && project in s.listed && !s.Holds(pid, project) && (project in s.files || project in s.stale)
    case Confirm => activity.Locked? && s.ClearToReap(activity.project)
    case ListAgain => activity.Reaping?
    case LoseClaim => Claiming(activity)
  }

  /** A reaper that finds no lock file goes on without one, once the stack is
      old; a claim interrupted before its use leaves the descriptor open. */
  function Moved(s: State, pid: Pid, move: Move): Activity
    requires CanMove(s, pid, move)
  {
    var activity := s.sessions[pid].activity;
    match move
    case BeginRelease(project) => Releasing(project, {})
    case SeeNone(kind) => KindsSeen(activity, kind)
    case AbortRelease => Idle
    case LookAt(project) => if project in s.files then Opened(project) else Reaping(project, false, {})
    case Confirm => Reaping(activity.project, true, {})
    case ListAgain => Reaping(activity.project, activity.withLock, {})
    case LoseClaim => Idle
  }

  // Happen

  predicate CanHappen(s: State, event: Event) {
    match event
    case Die(group) => s.LiveGroup(group)
    case Create(group, kind) => s.LiveGroup(group) && s.groups[group].target.Some?
    case Remove(project, kind) => true
    case Age(project) => true
  }

  /** Only a live command group creates the resources of its stack. */
  function HappenState(s: State, event: Event): State
    requires CanHappen(s, event)
  {
    match event
    case Die(group) => s.(groups := s.groups[group := s.groups[group].(alive := false)])
    case Create(group, kind) =>
      var project := s.groups[group].target.value;
      s.(resources := s.resources + {(project, kind)}, listed := s.listed + {project})
    case Remove(project, kind) => s.(resources := s.resources - {(project, kind)})
    case Age(project) => s.(stale := s.stale + {project})
  }

  predicate Enabled(s: State, step: Step) {
    match step
    case Launch(pid) => CanLaunch(s, pid)
    case OpenLock(pid, project) => CanOpenLock(s, pid, project)
    case TakeLock(pid, project) => CanTakeLock(s, pid, project)
    case Attempt(pid, project) => CanAttempt(s, pid, project)
    case StartGroup(pid, group, target) => CanStartGroup(s, pid, group, target)
    case Settle(pid, group) => CanSettle(s, pid, group)
    case MoveOn(pid, move) => CanMove(s, pid, move)
    case FinishRelease(pid) => CanFinishRelease(s, pid)
    case TryLock(pid) => CanTryLock(s, pid)
    case GiveUpClaim(pid) => CanGiveUpClaim(s, pid)
    case FinishReap(pid) => CanFinishReap(s, pid)
    case Kill(pid) => CanKill(s, pid)
    case Happen(event) => CanHappen(s, event)
  }

  function Apply(s: State, step: Step): State
    requires Enabled(s, step)
  {
    match step
    case Launch(pid) => LaunchState(s, pid)
    case OpenLock(pid, project) => OpenLockState(s, pid, project)
    case TakeLock(pid, project) => TakeLockState(s, pid, project)
    case Attempt(pid, project) => AttemptState(s, pid, project)
    case StartGroup(pid, group, target) => StartGroupState(s, pid, group, target)
    case Settle(pid, group) => SettleState(s, pid, group)
    case MoveOn(pid, move) => s.SetActivity(pid, Moved(s, pid, move))
    case FinishRelease(pid) => FinishReleaseState(s, pid)
    case TryLock(pid) => TryLockState(s, pid)
    case GiveUpClaim(pid) => GiveUpClaimState(s, pid)
    case FinishReap(pid) => FinishReapState(s, pid)
    case Kill(pid) => KillState(s, pid)
    case Happen(event) => HappenState(s, event)
  }

  const INITIAL := State(map[], map[], {}, map[], map[], map[], {}, {}, {})

  /** A run: states connected by enabled steps. */
  ghost predicate Run(states: seq<State>, steps: seq<Step>) {
    && |states| == |steps| + 1
    && states[0] == INITIAL
    && forall i :: 0 <= i < |steps| ==> Enabled(states[i], steps[i]) && states[i + 1] == Apply(states[i], steps[i])
  }

  // ---------------------------------------------------------------------
  // What every step keeps, whatever happens

  /** The tables of a session agree with the lock files. */
  ghost predicate SessionValid(s: State, pid: Pid)
    requires pid in s.sessions
  {
    var session := s.sessions[pid];
    && session.attempted <= session.locked <= session.held <= s.files
    && (forall project :: project in session.held ==> project in s.owner && s.owner[project] == pid)
    && (forall project :: project in session.locked ==> project in s.holder && s.holder[project] == pid)
    && (!session.alive ==> session == DEAD)
  }

  /** The kinds a releasing session has seen none of are still absent. */
  ghost predicate ReleaseValid(s: State, pid: Pid)
    requires pid in s.sessions
  {
    match s.sessions[pid].activity
    case Releasing(project, seen) =>
      project in s.sessions[pid].held && forall kind :: kind in seen ==> (project, kind) !in s.resources
    case _ => true
  }

  /** A claim is made on a listed stack; with the lock nobody else has it, and
      past the claim its owner holds nothing any more. */
  ghost predicate ClaimValid(s: State, pid: Pid)
    requires pid in s.sessions
  {
    MayClaim(s, pid, s.sessions[pid].activity)
  }

  ghost predicate MayClaim(s: State, pid: Pid, activity: Activity) {
    Claiming(activity) ==>
      && activity.project in s.listed && activity.project in s.owner
      && !s.Holds(pid, activity.project)
      && (OwnsFlock(activity) ==> activity.project in s.holder && s.holder[activity.project] == pid)
      && (activity.Reaping? ==> !s.Holds(s.owner[activity.project], activity.project))
  }

  /** A live group is recorded by its living starter, which is not releasing if
      the group may create a stack, and in that stack's lock file. */
  ghost predicate GroupValid(s: State, group: Group)
    requires group in s.groups
  {
    var GroupInfo(starter, target, alive) := s.groups[group];
    alive ==>
      && starter in s.sessions
      && (s.Alive(starter) ==> group in s.sessions[starter].unsettled)
      && (target.Some? ==>
            && target.value in s.owner && s.owner[target.value] == starter
            && target.value in s.recorded && group in s.recorded[target.value]
            && (s.Alive(starter) ==>
                target.value in s.sessions[starter].attempted && !s.sessions[starter].activity.Releasing?))
  }

  ghost predicate ProjectValid(s: State, project: Project)
    requires project in s.owner
  {
    && s.owner[project] in s.sessions
    && (project in s.listed && s.Holds(s.owner[project], project) ==> project in s.sessions[s.owner[project]].attempted)
  }

  predicate OwnedOnly(s: State) {
    && s.recorded.Keys == s.owner.Keys
    && s.files <= s.owner.Keys && s.listed <= s.owner.Keys && s.holder.Keys <= s.owner.Keys
  }

  predicate HoldersAlive(s: State) {
    forall project :: project in s.holder ==> s.Alive(s.holder[project])
  }

  predicate ResourcesListed(s: State) {
    forall resource :: resource in s.resources ==> resource.0 in s.listed
  }

  predicate DomainsValid(s: State) {
    OwnedOnly(s) && HoldersAlive(s) && ResourcesListed(s)
  }

  ghost predicate SessionsValid(s: State) {
    forall pid :: pid in s.sessions ==> SessionValid(s, pid) && ReleaseValid(s, pid) && ClaimValid(s, pid)
  }

  ghost predicate WorldValid(s: State) {
    && DomainsValid(s)
    && (forall group :: group in s.groups ==> GroupValid(s, group))
    && (forall project :: project in s.owner ==> ProjectValid(s, project))
  }

  ghost predicate Invariant(s: State) {
    SessionsValid(s) && WorldValid(s)
  }

  // ---------------------------------------------------------------------
  // What a step may change

  /** Nothing here is ever undone, and a dead group stays dead. */
  ghost predicate Grows(s: State, after: State) {
    OwnersKept(s, after) && RecordsKept(s, after)
  }

  ghost predicate OwnersKept(s: State, after: State) {
    && s.sessions.Keys <= after.sessions.Keys
    && s.listed <= after.listed
    && (forall project :: project in s.owner ==> project in after.owner && after.owner[project] == s.owner[project])
  }

  ghost predicate RecordsKept(s: State, after: State) {
    && (forall project :: project in s.recorded ==>
          project in after.recorded && s.recorded[project] <= after.recorded[project])
    && (forall group :: group in s.groups ==> group in after.groups && SameGroup(s.groups[group], after.groups[group]))
  }

  predicate SameGroup(was: GroupInfo, now: GroupInfo) {
    was.starter == now.starter && was.target == now.target && (now.alive ==> was.alive)
  }

  /** Sessions other than the acting ones keep their tables and their locks. */
  ghost predicate SparesOthers(s: State, after: State, actors: set<Pid>) {
    && (forall pid :: pid in after.sessions && pid !in actors ==>
        pid in s.sessions && after.sessions[pid] == s.sessions[pid])
    && (forall project :: project in s.holder && s.holder[project] !in actors ==>
          project in after.holder && after.holder[project] == s.holder[project])
  }

  ghost predicate HoldsNoMore(s: State, after: State) {
    forall project :: project in s.owner && after.Holds(s.owner[project], project) ==>
      s.Holds(s.owner[project], project)
  }

  /** No lock file disappears that the owner of the stack still holds. */
  ghost predicate SparesHeldFiles(s: State, after: State) {
    forall project :: project in s.files && project !in after.files ==>
      project in s.owner && !after.Holds(s.owner[project], project)
  }

  /** A stack gains resources only while a live group may create it. */
  ghost predicate GrowsOnlyUnquiet(s: State, after: State) {
    && (forall resource :: resource in after.resources && resource !in s.resources ==> !s.Quiet(resource.0))
    && (forall project :: project in after.listed && project !in s.listed ==> !s.Quiet(project))
  }

  ghost predicate NewGroupsValid(s: State, after: State) {
    forall group :: group in after.groups && group !in s.groups ==> NewGroup(s, after, group)
  }

  ghost predicate NewOwnersValid(s: State, after: State) {
    forall project :: project in after.owner && project !in s.owner ==>
      after.owner[project] in after.sessions && project !in after.listed
  }

  ghost predicate Restrained(s: State, after: State) {
    && HoldsNoMore(s, after) && SparesHeldFiles(s, after) && GrowsOnlyUnquiet(s, after)
    && NewGroupsValid(s, after) && NewOwnersValid(s, after)
  }

  /** A new group is valid, and its stack is held by the session it is for. */
  ghost predicate NewGroup(s: State, after: State, group: Group)
    requires group in after.groups
  {
    var target := after.groups[group].target;
    GroupValid(after, group)
      && (target.Some? ==> target.value in s.owner && s.Holds(s.owner[target.value], target.value))
  }

  /** An acting session keeps track of its live groups and its attempts. */
  ghost predicate Tracks(s: State, after: State, pid: Pid)
    requires pid in after.sessions
  {
    var now := after.sessions[pid];
    now.alive && pid in s.sessions ==>
      var was := s.sessions[pid];
      && was.alive
      && (forall group :: group in was.unsettled && after.LiveGroup(group) ==> group in now.unsettled)
      && (was.unsettled != {} ==>
          was.attempted <= now.attempted && (now.activity.Releasing? ==> was.activity.Releasing?))
      && (forall project :: project in was.attempted && project in now.held ==> project in now.attempted)
  }

  ghost predicate ActsWell(s: State, after: State, pid: Pid) {
    && pid in after.sessions
    && Tracks(s, after, pid) && SessionValid(after, pid) && ReleaseValid(after, pid) && ClaimValid(after, pid)
  }

  /** Everything a step may do to a valid state. */
  ghost predicate Progress(s: State, after: State, actors: set<Pid>) {
    && Grows(s, after) && SparesOthers(s, after, actors) && Restrained(s, after) && DomainsValid(after)
    && (forall pid :: pid in actors ==> ActsWell(s, after, pid))
  }

  lemma OthersKept(s: State, after: State, actors: set<Pid>, other: Pid)
    requires Invariant(s) && Progress(s, after, actors)
    requires other in after.sessions && other !in actors
    ensures SessionValid(after, other) && ReleaseValid(after, other) && ClaimValid(after, other)
  {
    assert SessionValid(s, other) && ReleaseValid(s, other) && ClaimValid(s, other);
    var activity := s.sessions[other].activity;
    if activity.Releasing? {
      forall group | s.LiveGroup(group)
        ensures !s.Creates(group, activity.project)
      {
        assert GroupValid(s, group);
      }
    }
  }

  lemma GroupsKept(s: State, after: State, actors: set<Pid>, group: Group)
    requires group in s.groups ==> GroupValid(s, group)
    requires Progress(s, after, actors) && group in after.groups
    ensures GroupValid(after, group)
  {
    if group in s.groups {
      var starter := s.groups[group].starter;
      assert starter in actors ==> ActsWell(s, after, starter);
    }
  }

  lemma ProjectsKept(s: State, after: State, actors: set<Pid>, project: Project)
    requires Invariant(s) && Progress(s, after, actors) && project in after.owner
    ensures ProjectValid(after, project)
  {
    if project in s.owner {
      assert ProjectValid(s, project);
      var owner := s.owner[project];
      assert owner in actors ==> ActsWell(s, after, owner);
      if !s.Quiet(project) {
        var group :| s.Creates(group, project);
        assert GroupValid(s, group);
      }
      assert SessionValid(s, owner);
    }
  }

  lemma ProgressKeeps(s: State, after: State, actors: set<Pid>)
    requires Invariant(s) && Progress(s, after, actors)
    ensures Invariant(after)
  {
    forall pid | pid in after.sessions
      ensures SessionValid(after, pid) && ReleaseValid(after, pid) && ClaimValid(after, pid)
    {
      if pid in actors {
        assert ActsWell(s, after, pid);
      } else {
        OthersKept(s, after, actors, pid);
      }
    }
    forall group | group in after.groups {
      GroupsKept(s, after, actors, group);
    }
    forall project | project in after.owner {
      ProjectsKept(s, after, actors, project);
    }
  }

  function Actors(step: Step): set<Pid> {
    match step
    case Happen(_) => {}
    case _ => {step.pid}
  }

  lemma OwnersStay(s: State, step: Step)
    requires Enabled(s, step)
    ensures OwnersKept(s, Apply(s, step))
  {
  }

  lemma RecordsStay(s: State, step: Step)
    requires OwnedOnly(s) && Enabled(s, step)
    ensures RecordsKept(s, Apply(s, step))
  {
  }

  lemma OthersSpared(s: State, step: Step)
    requires Enabled(s, step)
    ensures SparesOthers(s, Apply(s, step), Actors(step))
  {
  }

  ghost predicate ActorValid(s: State, step: Step) {
    step.Happen? || (step.pid in s.sessions ==>
      SessionValid(s, step.pid) && ReleaseValid(s, step.pid) && ClaimValid(s, step.pid))
  }

  lemma OwnedOnlyKept(s: State, step: Step)
    requires OwnedOnly(s) && ActorValid(s, step) && Enabled(s, step)
    requires step.Happen? && step.event.Create? ==> GroupValid(s, step.event.group)
    ensures OwnedOnly(Apply(s, step))
  {
  }

  lemma HoldersAliveKept(s: State, step: Step)
    requires HoldersAlive(s) && Enabled(s, step)
    ensures HoldersAlive(Apply(s, step))
  {
    forall project | project in Apply(s, step).holder {
      HolderStaysAlive(s, step, project);
    }
  }

  lemma HolderStaysAlive(s: State, step: Step, project: Project)
    requires HoldersAlive(s) && Enabled(s, step) && project in Apply(s, step).holder
    ensures Apply(s, step).Alive(Apply(s, step).holder[project])
  {
    HolderAlive(s, step, project);
    AliveKept(s, step, Apply(s, step).holder[project]);
  }

  lemma HolderAlive(s: State, step: Step, project: Project)
    requires HoldersAlive(s) && Enabled(s, step) && project in Apply(s, step).holder
    ensures s.Alive(Apply(s, step).holder[project]) && !(step.Kill? && step.pid == Apply(s, step).holder[project])
  {
  }

  lemma AliveKept(s: State, step: Step, pid: Pid)
    requires Enabled(s, step) && s.Alive(pid) && !(step.Kill? && step.pid == pid)
    ensures Apply(s, step).Alive(pid)
  {
  }

  lemma ResourcesListedKept(s: State, step: Step)
    requires ResourcesListed(s) && Enabled(s, step)
    ensures ResourcesListed(Apply(s, step))
  {
  }

  lemma NoNewHolds(s: State, step: Step)
    requires Enabled(s, step)
    ensures HoldsNoMore(s, Apply(s, step))
  {
  }

  lemma HeldFilesSpared(s: State, step: Step)
    requires DomainsValid(s) && ActorValid(s, step) && Enabled(s, step)
    ensures SparesHeldFiles(s, Apply(s, step))
  {
  }

  lemma OnlyUnquietGrow(s: State, step: Step)
    requires Enabled(s, step)
    ensures GrowsOnlyUnquiet(s, Apply(s, step))
  {
    if step.Happen? && step.event.Create? {
      assert s.Creates(step.event.group, s.groups[step.event.group].target.value);
    }
  }

  lemma NewGroupsAreValid(s: State, step: Step)
    requires DomainsValid(s) && ActorValid(s, step) && Enabled(s, step)
    ensures NewGroupsValid(s, Apply(s, step))
  {
  }

  lemma NewOwnersAreValid(s: State, step: Step)
    requires DomainsValid(s) && Enabled(s, step)
    ensures NewOwnersValid(s, Apply(s, step))
  {
  }

  lemma LaunchActsWell(s: State, pid: Pid)
    requires Invariant(s) && CanLaunch(s, pid)
    ensures ActsWell(s, LaunchState(s, pid), pid)
  {
  }

  lemma OpenLockActsWell(s: State, pid: Pid, project: Project)
    requires Invariant(s) && CanOpenLock(s, pid, project)
    ensures ActsWell(s, OpenLockState(s, pid, project), pid)
  {
    assert SessionValid(s, pid) && ReleaseValid(s, pid) && ClaimValid(s, pid);
  }

  lemma TakeLockActsWell(s: State, pid: Pid, project: Project)
    requires Invariant(s) && CanTakeLock(s, pid, project)
    ensures ActsWell(s, TakeLockState(s, pid, project), pid)
  {
    assert SessionValid(s, pid) && ReleaseValid(s, pid) && ClaimValid(s, pid);
  }

  lemma AttemptActsWell(s: State, pid: Pid, project: Project)
    requires Invariant(s) && CanAttempt(s, pid, project)
    ensures ActsWell(s, AttemptState(s, pid, project), pid)
  {
    assert SessionValid(s, pid) && ReleaseValid(s, pid) && ClaimValid(s, pid);
  }

  lemma StartGroupActsWell(s: State, pid: Pid, group: Group, target: Option<Project>)
    requires Invariant(s) && CanStartGroup(s, pid, group, target)
    ensures ActsWell(s, StartGroupState(s, pid, group, target), pid)
  {
    assert SessionValid(s, pid) && ReleaseValid(s, pid) && ClaimValid(s, pid);
  }

  lemma SettleActsWell(s: State, pid: Pid, group: Group)
    requires Invariant(s) && CanSettle(s, pid, group)
    ensures ActsWell(s, SettleState(s, pid, group), pid)
  {
    assert SessionValid(s, pid) && ReleaseValid(s, pid) && ClaimValid(s, pid);
  }

  lemma FinishReleaseActsWell(s: State, pid: Pid)
    requires Invariant(s) && CanFinishRelease(s, pid)
    ensures ActsWell(s, FinishReleaseState(s, pid), pid)
  {
    assert SessionValid(s, pid) && ReleaseValid(s, pid) && ClaimValid(s, pid);
  }

  lemma TryLockActsWell(s: State, pid: Pid)
    requires Invariant(s) && CanTryLock(s, pid)
    ensures ActsWell(s, TryLockState(s, pid), pid)
  {
    assert SessionValid(s, pid) && ReleaseValid(s, pid) && ClaimValid(s, pid);
  }

  lemma GiveUpClaimActsWell(s: State, pid: Pid)
    requires Invariant(s) && CanGiveUpClaim(s, pid)
    ensures ActsWell(s, GiveUpClaimState(s, pid), pid)
  {
    assert SessionValid(s, pid) && ReleaseValid(s, pid) && ClaimValid(s, pid);
  }

  lemma FinishReapActsWell(s: State, pid: Pid)
    requires Invariant(s) && CanFinishReap(s, pid)
    ensures ActsWell(s, FinishReapState(s, pid), pid)
  {
    assert SessionValid(s, pid) && ReleaseValid(s, pid) && ClaimValid(s, pid);
  }

  lemma KillActsWell(s: State, pid: Pid)
    requires Invariant(s) && CanKill(s, pid)
    ensures ActsWell(s, KillState(s, pid), pid)
  {
    assert SessionValid(s, pid) && ReleaseValid(s, pid) && ClaimValid(s, pid);
  }

  lemma NoFileNoHold(s: State, project: Project)
    requires Invariant(s) && project in s.owner && project !in s.files
    ensures !s.Holds(s.owner[project], project)
  {
    assert ProjectValid(s, project) && SessionValid(s, s.owner[project]);
  }

  /** With the `flock` of a listed stack in hand, its owner no longer holds it. */
  lemma LockedOut(s: State, pid: Pid)
    requires Invariant(s) && s.Alive(pid) && s.sessions[pid].activity.Locked?
    ensures s.sessions[pid].activity.project in s.owner
    ensures !s.Holds(s.owner[s.sessions[pid].activity.project], s.sessions[pid].activity.project)
  {
    var project := s.sessions[pid].activity.project;
    assert ClaimValid(s, pid);
    assert ProjectValid(s, project) && SessionValid(s, s.owner[project]);
  }

  lemma MoveOnClaims(s: State, pid: Pid, move: Move)
    requires Invariant(s) && CanMove(s, pid, move)
    ensures MayClaim(s, pid, Moved(s, pid, move))
  {
    assert ClaimValid(s, pid);
    if move.LookAt? {
      if move.project !in s.files {
        NoFileNoHold(s, move.project);
      }
    } else if move.Confirm? {
      LockedOut(s, pid);
    }
  }

  lemma MoveOnActsWell(s: State, pid: Pid, move: Move)
    requires Invariant(s) && CanMove(s, pid, move)
    ensures ActsWell(s, s.SetActivity(pid, Moved(s, pid, move)), pid)
  {
    assert SessionValid(s, pid) && ReleaseValid(s, pid);
    MoveOnClaims(s, pid, move);
  }

  lemma ActorsActWell(s: State, step: Step)
    requires Invariant(s) && Enabled(s, step)
    ensures step.Happen? || ActsWell(s, Apply(s, step), step.pid)
  {
    match step
    case Launch(pid) => LaunchActsWell(s, pid);
    case OpenLock(pid, project) => OpenLockActsWell(s, pid, project);
    case TakeLock(pid, project) => TakeLockActsWell(s, pid, project);
    case Attempt(pid, project) => AttemptActsWell(s, pid, project);
    case StartGroup(pid, group, target) => StartGroupActsWell(s, pid, group, target);
    case Settle(pid, group) => SettleActsWell(s, pid, group);
    case MoveOn(pid, move) => MoveOnActsWell(s, pid, move);
    case FinishRelease(pid) => FinishReleaseActsWell(s, pid);
    case TryLock(pid) => TryLockActsWell(s, pid);
    case GiveUpClaim(pid) => GiveUpClaimActsWell(s, pid);
    case FinishReap(pid) => FinishReapActsWell(s, pid);
    case Kill(pid) => KillActsWell(s, pid);
    case Happen(event) =>
  }

  lemma ProgressMade(s: State, step: Step)
    requires Invariant(s) && Enabled(s, step)
    ensures Progress(s, Apply(s, step), Actors(step))
  {
    assert ActorValid(s, step);
    OwnersStay(s, step);
    RecordsStay(s, step);
    OthersSpared(s, step);
    OwnedOnlyKept(s, step);
    HoldersAliveKept(s, step);
    ResourcesListedKept(s, step);
    NoNewHolds(s, step);
    HeldFilesSpared(s, step);
    OnlyUnquietGrow(s, step);
    NewGroupsAreValid(s, step);
    NewOwnersAreValid(s, step);
    ActorsActWell(s, step);
  }

  /** Every step keeps the invariant, whatever process takes it. */
  lemma InvariantKept(s: State, step: Step)
    requires Invariant(s) && Enabled(s, step)
    ensures Invariant(Apply(s, step))
  {
    ProgressMade(s, step);
    ProgressKeeps(s, Apply(s, step), Actors(step));
  }
}
