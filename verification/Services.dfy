/** The commands, releases, claims and exit fallback of
    scripts/testing/services.py as one process runs them. Every change to the
    shared world is an enabled step of the ownership protocol, so whatever holds
    in every run of the protocol holds while this code runs and after it is
    killed anywhere. Other processes act between any two of its looks at and
    changes of that world, except where one look decides the change (a group
    found dead is forgotten, a free lock is taken, a clear record is confirmed). */
module Services {
  import opened Basics
  import opened Ownership
  import opened OwnershipSafety

  const REMOVAL_ATTEMPTS := 3
  const LISTINGS: seq<Kind> := [Container, Volume, Network]

  datatype Outcome = Done | Failed | Unsettled | Interrupted
  datatype ClaimResult = Claimed | Refused | Stopped

  /** No live group can create the stack, and none can come to life elsewhere. */
  ghost predicate Barren(s: State, self: Pid, project: Project) {
    && project in s.owner && s.Quiet(project)
    && (s.owner[project] == self || !s.Holds(s.owner[project], project))
  }

  ghost predicate Shrinks(s: State, after: State, project: Project) {
    forall kind :: (project, kind) in after.resources ==> (project, kind) in s.resources
  }

  ghost predicate StaysBarren(s: State, after: State, self: Pid) {
    forall project :: Barren(s, self, project) ==> Barren(after, self, project) && Shrinks(s, after, project)
  }

  /** The process lives on and gains no lock; the world only moves forward. */
  ghost predicate Ordinary(s: State, after: State, self: Pid) {
    && s.Alive(self) && after.Alive(self) && after.sessions[self].held <= s.sessions[self].held
    && Grows(s, after) && HoldsNoMore(s, after)
  }

  ghost predicate Steady(s: State, after: State, self: Pid) {
    Ordinary(s, after, self) && StaysBarren(s, after, self)
  }

  predicate SameLocks(was: Session, now: Session) {
    was.held == now.held && was.locked == now.locked && was.attempted == now.attempted
  }

  /** Still in the middle of the same thing, whatever was listed meanwhile. */
  predicate SameTask(was: Activity, now: Activity) {
    match was
    case Releasing(project, _) => now.Releasing? && now.project == project
    case Reaping(project, withLock, _) => now.Reaping? && now.project == project && now.withLock == withLock
    case _ => now == was
  }

  ghost predicate Works(s: State, after: State, self: Pid) {
    && Steady(s, after, self)
    && SameLocks(s.sessions[self], after.sessions[self])
    && SameTask(s.sessions[self].activity, after.sessions[self].activity)
  }

  predicate KeepsSeen(was: Activity, now: Activity) {
    Listing(was) ==> Listing(now) && was.seen <= now.seen
  }

  /** What an empty listing of one kind means: it is noted for the stack being
      released or reaped, and a stack that cannot grow still has none. */
  ghost predicate Answered(s: State, after: State, self: Pid, project: Project, kind: Kind)
    requires self in s.sessions && self in after.sessions
  {
    var was, now := s.sessions[self].activity, after.sessions[self].activity;
    && (Listing(was) && was.project == project ==> Listing(now) && kind in now.seen)
    && (Barren(s, self, project) ==> (project, kind) !in after.resources)
  }

  /** Three empty listings have been noted. */
  predicate Concluded(was: Activity, now: Activity, project: Project) {
    Listing(was) && was.project == project ==> Listing(now) && now.seen == KINDS
  }

  // ---------------------------------------------------------------------
  // What the steps of the protocol mean for one process

  lemma {:induction false} ReachableInvariant(s: State)
    requires Reachable(s)
    ensures Invariant(s)
  {
    var states, steps :| Run(states, steps) && states[|steps|] == s;
    InvariantThroughout(states, steps, |steps|);
  }

  /** Steps of a process that keep its tables of locks and attempts. */
  predicate Minor(step: Step) {
    step.StartGroup? || step.Settle? || step.MoveOn? || step.TryLock? || step.GiveUpClaim? || step.FinishReap?
  }

  lemma OwnTables(s: State, step: Step, self: Pid)
    requires Enabled(s, step) && s.Alive(self)
    requires self !in Actors(step) || Minor(step)
    ensures Apply(s, step).Alive(self) && SameLocks(s.sessions[self], Apply(s, step).sessions[self])
    ensures self !in Actors(step) ==> Apply(s, step).sessions[self] == s.sessions[self]
  {
  }

  lemma OrdinaryStep(s: State, step: Step, self: Pid)
    requires OwnedOnly(s) && Enabled(s, step) && s.Alive(self)
    requires self !in Actors(step) || Minor(step)
    ensures Ordinary(s, Apply(s, step), self)
  {
    OwnersStay(s, step);
    RecordsStay(s, step);
    NoNewHolds(s, step);
    OwnTables(s, step, self);
  }

  lemma StarterKnown(s: State, step: Step, group: Group)
    requires Enabled(s, step) && group in Apply(s, step).groups && group !in s.groups
    ensures step.StartGroup? && step.group == group
    ensures Apply(s, step).groups[group] == GroupInfo(step.pid, step.target, true)
  {
  }

  lemma BarrenStep(s: State, step: Step, self: Pid, project: Project)
    requires Invariant(s) && Enabled(s, step) && s.Alive(self) && Barren(s, self, project)
    requires self !in Actors(step) || !step.StartGroup? || step.target.None?
    ensures Barren(Apply(s, step), self, project) && Shrinks(s, Apply(s, step), project)
  {
    var after := Apply(s, step);
    ProgressMade(s, step);
    forall group | after.LiveGroup(group)
      ensures !after.Creates(group, project)
    {
      assert !s.Creates(group, project);
      if group !in s.groups {
        StarterKnown(s, step, group);
        assert NewGroup(s, after, group);
      }
    }
  }

  lemma SteadyStep(s: State, step: Step, self: Pid)
    requires Reachable(s) && Enabled(s, step) && s.Alive(self)
    requires self !in Actors(step) || Minor(step)
    requires step.StartGroup? && step.pid == self ==> step.target.None?
    ensures Steady(s, Apply(s, step), self) && Reachable(Apply(s, step))
    ensures SameLocks(s.sessions[self], Apply(s, step).sessions[self])
    ensures self !in Actors(step) ==> Apply(s, step).sessions[self] == s.sessions[self]
  {
    ReachableInvariant(s);
    ReachNext(s, step);
    OrdinaryStep(s, step, self);
    OwnTables(s, step, self);
    forall project | Barren(s, self, project) {
      BarrenStep(s, step, self, project);
    }
  }

  lemma SteadyTwice(s: State, between: State, after: State, self: Pid)
    requires Steady(s, between, self) && Steady(between, after, self)
    ensures Steady(s, after, self)
  {
    forall project | Barren(s, self, project)
      ensures Barren(after, self, project) && Shrinks(s, after, project)
    {
      assert Barren(between, self, project);
    }
  }

  lemma SteadyHere(s: State, self: Pid)
    requires s.Alive(self)
    ensures Steady(s, s, self)
  {
  }

  /** The stacks a listing of one kind shows. */
  function ShownIn(s: State, kind: Kind): set<Project> {
    set resource | resource in s.resources && resource.1 == kind :: resource.0
  }

  /** What successive listings show together. */
  function ShownUpTo(moments: seq<State>): set<Project>
    requires |moments| <= |LISTINGS|
  {
    if moments == [] then {}
    else ShownUpTo(moments[..|moments| - 1]) + ShownIn(moments[|moments| - 1], LISTINGS[|moments| - 1])
  }

  ghost predicate AllBetween(start: State, moments: seq<State>, s: State, self: Pid) {
    forall moment :: moment in moments ==> Steady(start, moment, self) && Steady(moment, s, self)
  }

  lemma BetweenMore(start: State, moments: seq<State>, before: State, moment: State, s: State, self: Pid)
    requires AllBetween(start, moments, before, self) && Steady(start, before, self)
    requires Steady(before, moment, self) && Steady(moment, s, self)
    ensures AllBetween(start, moments + [moment], s, self)
  {
    SteadyTwice(start, before, moment, self);
    SteadyTwice(before, moment, s, self);
    forall each | each in moments
      ensures Steady(start, each, self) && Steady(each, s, self)
    {
      SteadyTwice(each, before, s, self);
    }
  }

  /** A stack that has resources of one kind while the listings are made is found. */
  lemma {:induction false} PresentIsShown(moments: seq<State>, project: Project, k: nat)
    requires |moments| <= |LISTINGS| && k < |moments| && (project, LISTINGS[k]) in moments[k].resources
    ensures project in ShownUpTo(moments)
  {
    if k < |moments| - 1 {
      PresentIsShown(moments[..|moments| - 1], project, k);
    }
  }

  /** What is known of a reaped stack. */
  ghost predicate Reaped(start: State, s: State, self: Pid, project: Project) {
    && self in s.sessions
    && project in s.owner && !s.Holds(s.owner[project], project) && project !in s.sessions[self].held
    && (Barren(start, self, project) ==> s.Absent(project))
  }

  lemma ReapedStays(start: State, s: State, after: State, self: Pid, project: Project)
    requires Steady(start, s, self) && Steady(s, after, self) && Reaped(start, s, self, project)
    ensures Reaped(start, after, self, project)
  {
  }

  /** With every group it started gone, a process's own stack cannot grow. */
  lemma SettledIsBarren(s: State, self: Pid, project: Project)
    requires Reachable(s) && s.Alive(self) && s.sessions[self].unsettled == {} && s.Holds(self, project)
    ensures Barren(s, self, project) && s.owner[project] == self
  {
    ReachableInvariant(s);
    assert SessionValid(s, self);
    forall group | s.LiveGroup(group)
      ensures !s.Creates(group, project)
    {
      assert GroupValid(s, group);
    }
  }

  lemma OverStays(s: State, after: State, self: Pid, project: Project)
    requires Over(s, project) && Steady(s, after, self)
    ensures Over(after, project)
  {
    assert Barren(s, self, project);
    assert Barren(after, self, project);
  }

  lemma EveryKindListed(kind: Kind)
    ensures kind == LISTINGS[0] || kind == LISTINGS[1] || kind == LISTINGS[2]
  {
    match kind
    case Container =>
    case Volume =>
    case Network =>
  }

  lemma AllListed(s: State, after: State, self: Pid, project: Project)
    requires self in s.sessions && self in after.sessions
    requires forall k :: 0 <= k < |LISTINGS| ==> Answered(s, after, self, project, LISTINGS[k])
    ensures Barren(s, self, project) ==> after.Absent(project)
    ensures Concluded(s.sessions[self].activity, after.sessions[self].activity, project)
  {
    forall kind: Kind
      ensures Answered(s, after, self, project, kind)
      ensures Barren(s, self, project) ==> (project, kind) !in after.resources
    {
      EveryKindListed(kind);
    }
    var was, now := s.sessions[self].activity, after.sessions[self].activity;
    if Listing(was) && was.project == project {
      assert Answered(s, after, self, project, Container);
      forall kind: Kind
        ensures kind in now.seen && kind in KINDS
      {
        assert Answered(s, after, self, project, kind);
        AllKinds(KINDS, kind);
      }
      assert now.seen == KINDS;
    }
  }

  lemma ClaimedIsLockedOut(s: State, self: Pid)
    requires Reachable(s) && s.Alive(self) && s.sessions[self].activity.Reaping?
    ensures s.sessions[self].activity.project in s.owner
    ensures !s.Holds(s.owner[s.sessions[self].activity.project], s.sessions[self].activity.project)
  {
    ReachableInvariant(s);
    assert ClaimValid(s, self);
  }

  lemma FreshIsNotHeld(s: State, self: Pid, project: Project)
    requires Reachable(s) && s.Alive(self) && project !in s.owner
    ensures !s.Holds(self, project)
  {
    ReachableInvariant(s);
    assert SessionValid(s, self);
  }

  /** Dropping the lock leaves a stack that is over for good. */
  lemma ReleaseStep(s: State, self: Pid)
    requires Reachable(s) && CanFinishRelease(s, self)
    ensures Steady(s, Apply(s, FinishRelease(self)), self)
    ensures Over(Apply(s, FinishRelease(self)), s.sessions[self].activity.project)
  {
    ReachableInvariant(s);
    ReleasedIsOver(s, self);
    var after := Apply(s, FinishRelease(self));
    OwnersStay(s, FinishRelease(self));
    RecordsStay(s, FinishRelease(self));
    NoNewHolds(s, FinishRelease(self));
    QuietStill(s, after, s.sessions[self].activity.project);
    forall project | Barren(s, self, project) {
      BarrenStep(s, FinishRelease(self), self, project);
    }
  }

  // ---------------------------------------------------------------------

  class Process {
    const self: Pid
    var state: State
    var owned: set<Project>

    ghost predicate Valid()
      reads this
    {
      Reachable(state) && state.Alive(self) && owned <= state.sessions[self].held
    }

    constructor (world: State, pid: Pid)
      requires Reachable(world) && pid !in world.sessions
      ensures Valid() && self == pid && state == Apply(world, Launch(pid)) && owned == {}
    {
      self := pid;
      ReachNext(world, Launch(pid));
      state := Apply(world, Launch(pid));
      owned := {};
    }

    /** Every change of the world is an enabled step of the protocol. */
    method Take(step: Step)
      requires Reachable(state) && Enabled(state, step)
      modifies this`state
      ensures Reachable(state) && state == Apply(old(state), step)
    {
      ReachNext(state, step);
      state := Apply(state, step);
    }

    /** Other processes, command groups, the engine and time do what they like. */
    method Elsewhere()
      requires Valid()
      modifies this`state
      ensures Valid() && Steady(old(state), state, self) && state.sessions[self] == old(state.sessions[self])
    {
      var steps: int := *;
      while 0 < steps
        invariant Valid() && Steady(old(state), state, self) && state.sessions[self] == old(state.sessions[self])
      {
        steps := steps - 1;
        var step: Step := *;
        if Enabled(state, step) && self !in Actors(step) {
          SteadyStep(state, step, self);
          SteadyTwice(old(state), state, Apply(state, step), self);
          Take(step);
        }
      }
    }

    /** A step of this process inside its current task. */
    method Note(step: Step)
      requires Valid() && Enabled(state, step) && Minor(step) && step.pid == self
      requires step.StartGroup? ==> step.target.None?
      modifies this`state
      ensures Valid() && Steady(old(state), state, self) && state == Apply(old(state), step)
      ensures SameLocks(old(state.sessions[self]), state.sessions[self])
    {
      SteadyStep(state, step, self);
      Take(step);
    }

    method StopProcessGroup(group: Group) returns (gone: bool)
      requires Valid()
      modifies this`state
      ensures Valid() && Steady(old(state), state, self) && state.sessions[self] == old(state.sessions[self])
      ensures gone ==> !state.LiveGroup(group)
    {
      var polls: int := *;
      while 0 < polls
        invariant Valid() && Steady(old(state), state, self) && state.sessions[self] == old(state.sessions[self])
      {
        polls := polls - 1;
        ghost var before := state;
        Elsewhere();
        SteadyTwice(old(state), before, state, self);
        if !state.LiveGroup(group) {
          return true;
        }
      }
      return false;
    }

    /** Forgets a command group only once it is gone. */
    method SettleGroup(group: Group)
      requires Valid()
      modifies this`state
      ensures Valid() && Works(old(state), state, self)
      ensures state.sessions[self].activity == old(state.sessions[self].activity)
      ensures var was, now := old(state.sessions[self].unsettled), state.sessions[self].unsettled;
              now == was || (now == was - {group} && !state.LiveGroup(group))
    {
      if state.LiveGroup(group) {
        var gone := StopProcessGroup(group);
        if !gone {
          return;
        }
      }
      ghost var before := state;
      Note(Settle(self, group));
      SteadyTwice(old(state), before, state, self);
    }

    /** Whether a recorded command group may still be alive. */
    method UnsettledCommands() returns (left: bool)
      requires Valid()
      modifies this`state
      ensures Valid() && Works(old(state), state, self)
      ensures state.sessions[self].activity == old(state.sessions[self].activity)
      ensures left == (state.sessions[self].unsettled != {})
      ensures state.sessions[self].unsettled <= old(state.sessions[self].unsettled)
      ensures forall group :: group in old(state.sessions[self].unsettled) && old(state).Gone(group) ==>
                group !in state.sessions[self].unsettled
    {
      ghost var was := state;
      var todo := state.sessions[self].unsettled;
      while todo != {}
        invariant Valid() && Works(was, state, self)
        invariant state.sessions[self].activity == was.sessions[self].activity
        invariant todo <= was.sessions[self].unsettled
        invariant state.sessions[self].unsettled <= was.sessions[self].unsettled
        invariant forall group :: group in was.sessions[self].unsettled - todo && was.Gone(group) ==>
                    group !in state.sessions[self].unsettled
        decreases |todo|
      {
        var group :| group in todo;
        todo := todo - {group};
        ghost var before := state;
        Elsewhere();
        SteadyTwice(was, before, state, self);
        ghost var between := state;
        if !state.LiveGroup(group) {
          Note(Settle(self, group));
          SteadyTwice(was, between, state, self);
        }
      }
      left := state.sessions[self].unsettled != {};
    }

    /** Stops every recorded group again. */
    method StopUnsettledCommands()
      requires Valid()
      modifies this`state
      ensures Valid() && Works(old(state), state, self)
      ensures state.sessions[self].activity == old(state.sessions[self].activity)
      ensures state.sessions[self].unsettled <= old(state.sessions[self].unsettled)
    {
      ghost var was := state;
      var todo := state.sessions[self].unsettled;
      while todo != {}
        invariant Valid() && Works(was, state, self)
        invariant state.sessions[self].activity == was.sessions[self].activity
        invariant state.sessions[self].unsettled <= was.sessions[self].unsettled
        decreases |todo|
      {
        var group :| group in todo;
        todo := todo - {group};
        ghost var before := state;
        var gone := StopProcessGroup(group);
        SteadyTwice(was, before, state, self);
        if gone {
          before := state;
          Note(Settle(self, group));
          SteadyTwice(was, before, state, self);
        }
      }
    }

    /** The engine's answer to one listing. */
    method Ask(project: Project, kind: Kind) returns (found: bool)
      requires Valid()
      modifies this`state
      ensures Valid() && Works(old(state), state, self)
      ensures state.sessions[self].unsettled == old(state.sessions[self].unsettled)
      ensures KeepsSeen(old(state.sessions[self].activity), state.sessions[self].activity)
      ensures !found ==> Answered(old(state), state, self, project, kind)
    {
      found := (project, kind) in state.resources;
      var activity := state.sessions[self].activity;
      if !found && Listing(activity) && activity.project == project {
        Note(MoveOn(self, SeeNone(kind)));
      }
    }

    /** The body of a command that has started: the engine answers while it runs,
        and its group is forgotten once it is gone. */
    method RunCommand(group: Group, question: Option<(Project, Kind)>) returns (found: bool)
      requires Valid()
      modifies this`state
      ensures Valid() && Works(old(state), state, self)
      ensures old(state.sessions[self].unsettled) - {group} <= state.sessions[self].unsettled
      ensures state.sessions[self].unsettled <= old(state.sessions[self].unsettled)
      ensures question.None? ==> state.sessions[self].activity == old(state.sessions[self].activity)
      ensures question.Some? && !found ==> Answered(old(state), state, self, question.value.0, question.value.1)
      ensures KeepsSeen(old(state.sessions[self].activity), state.sessions[self].activity)
    {
      found := false;
      Elsewhere();
      if question.Some? {
        ghost var before := state;
        found := Ask(question.value.0, question.value.1);
        SteadyTwice(old(state), before, state, self);
      }
      ghost var before := state;
      Elsewhere();
      SteadyTwice(old(state), before, state, self);
      before := state;
      SettleGroup(group);
      SteadyTwice(old(state), before, state, self);
      before := state;
      Elsewhere();
      SteadyTwice(old(state), before, state, self);
    }

    /** One Docker command in a process group of its own. A listing answers
        whether the engine has a kind of resource of a project; the answer is
        from some moment while the command ran. */
    method Docker(question: Option<(Project, Kind)>, deferred: bool) returns (outcome: Outcome, found: bool)
      requires Valid()
      modifies this`state
      ensures Valid() && Works(old(state), state, self)
      ensures deferred ==> !outcome.Interrupted?
      ensures old(state.sessions[self].unsettled) <= state.sessions[self].unsettled
      ensures outcome.Done? || outcome.Failed? ==> state.sessions[self].unsettled == old(state.sessions[self].unsettled)
      ensures question.None? ==> state.sessions[self].activity == old(state.sessions[self].activity)
      ensures question.Some? && outcome.Done? && !found ==>
                Answered(old(state), state, self, question.value.0, question.value.1)
      ensures KeepsSeen(old(state.sessions[self].activity), state.sessions[self].activity)
    {
      found := false;
      Elsewhere();
      var group: Group, starts: bool := *, *;
      if !starts || group in state.groups || group in state.sessions[self].unsettled {
        outcome := Failed;
        return;
      }
      ghost var before := state;
      Note(StartGroup(self, group, None));
      SteadyTwice(old(state), before, state, self);
      var stopped: bool := *;
      if !deferred && stopped {
        outcome := Interrupted;
        return;
      }
      before := state;
      found := RunCommand(group, question);
      SteadyTwice(old(state), before, state, self);
      var ended: Outcome := *;
      outcome := if group in state.sessions[self].unsettled then Unsettled
                 else if ended.Unsettled? || (deferred && ended.Interrupted?) then Failed
                 else ended;
    }

    /** Whether fresh listings, one after the other, show none of the stack's
        resources. A failed listing proves nothing. */
    method ProvenAbsent(project: Project) returns (absent: bool)
      requires Valid()
      modifies this`state
      ensures Valid() && Works(old(state), state, self)
      ensures old(state.sessions[self].unsettled) <= state.sessions[self].unsettled
      ensures absent ==> state.sessions[self].unsettled == old(state.sessions[self].unsettled)
      ensures absent && Barren(old(state), self, project) ==> state.Absent(project)
      ensures absent ==> Concluded(old(state.sessions[self].activity), state.sessions[self].activity, project)
      ensures !Listing(old(state.sessions[self].activity)) ==>
                state.sessions[self].activity == old(state.sessions[self].activity)
    {
      var next := 0;
      while next < |LISTINGS|
        invariant next <= |LISTINGS|
        invariant Valid() && Works(old(state), state, self)
        invariant state.sessions[self].unsettled == old(state.sessions[self].unsettled)
        invariant forall k :: 0 <= k < next ==> Answered(old(state), state, self, project, LISTINGS[k])
      {
        ghost var before := state;
        var outcome, found := Docker(Some((project, LISTINGS[next])), true);
        SteadyTwice(old(state), before, state, self);
        if !outcome.Done? || found {
          return false;
        }
        next := next + 1;
      }
      AllListed(old(state), state, self, project);
      return true;
    }

    /** The invariant of scripts/testing/services.py: the lock goes only when no
        started command group is alive and the engine lists none of the stack.
        Otherwise it stays held. */
    method ReleaseIfSettled(project: Project) returns (released: bool)
      requires Valid() && state.Free(self)
      modifies this
      ensures Valid() && state.Free(self)
      ensures state.sessions[self].held == if released then old(state.sessions[self].held) - {project}
              else old(state.sessions[self].held)
      ensures owned == if released then old(owned) - {project} else old(owned)
      ensures Steady(old(state), state, self)
      ensures released && old(state.Holds(self, project)) ==> Over(state, project)
      ensures !released ==> old(state.Holds(self, project))
    {
      if project !in state.sessions[self].held {
        return true;
      }
      Elsewhere();
      ghost var before := state;
      var left := UnsettledCommands();
      SteadyTwice(old(state), before, state, self);
      if left {
        return false;
      }
      before := state;
      Elsewhere();
      SteadyTwice(old(state), before, state, self);
      before := state;
      Note(MoveOn(self, BeginRelease(project)));
      SteadyTwice(old(state), before, state, self);
      if project in state.sessions[self].attempted {
        before := state;
        var absent := ProvenAbsent(project);
        SteadyTwice(old(state), before, state, self);
        if !absent {
          before := state;
          Note(MoveOn(self, AbortRelease));
          SteadyTwice(old(state), before, state, self);
          return false;
        }
      }
      before := state;
      Elsewhere();
      SteadyTwice(old(state), before, state, self);
      before := state;
      ReleaseStep(state, self);
      Take(FinishRelease(self));
      SteadyTwice(old(state), before, state, self);
      owned := owned - {project};
      return true;
    }

    /** Removes a stack and proves it gone, with a bounded number of attempts. */
    method RemoveAndProve(project: Project, ownGroups: bool) returns (proven: bool)
      requires Valid()
      requires if ownGroups then state.Free(self) && state.Holds(self, project)
               else state.sessions[self].activity.Reaping? && state.sessions[self].activity.project == project
      modifies this`state
      ensures Valid() && Works(old(state), state, self)
      ensures ownGroups ==> state.Free(self)
      ensures proven && ownGroups ==>
                state.sessions[self].unsettled == {} && state.Absent(project) && Barren(state, self, project)
      ensures proven && !ownGroups ==> state.sessions[self].activity.seen == KINDS
      ensures proven && Barren(old(state), self, project) ==> state.Absent(project)
    {
      var attempt := 0;
      while attempt < REMOVAL_ATTEMPTS
        invariant attempt <= REMOVAL_ATTEMPTS
        invariant Valid() && Works(old(state), state, self)
      {
        ghost var before := state;
        if ownGroups {
          StopUnsettledCommands();
          SteadyTwice(old(state), before, state, self);
          before := state;
        }
        var _, _ := Docker(None, true);
        SteadyTwice(old(state), before, state, self);
        var groupsGone := true;
        if ownGroups {
          before := state;
          var left := UnsettledCommands();
          SteadyTwice(old(state), before, state, self);
          groupsGone := !left;
        } else {
          before := state;
          Note(MoveOn(self, ListAgain));
          SteadyTwice(old(state), before, state, self);
        }
        if groupsGone {
          before := state;
          if ownGroups {
            SettledIsBarren(state, self, project);
          }
          var absent := ProvenAbsent(project);
          SteadyTwice(old(state), before, state, self);
          if absent {
            return true;
          }
        }
        attempt := attempt + 1;
      }
      return false;
    }

    /** A claim on an abandoned stack, unless it may be in use. */
    method Claim(project: Project) returns (result: ClaimResult)
      requires Valid() && state.Free(self) && project in state.listed && !state.Holds(self, project)
      modifies this`state
      ensures Valid() && Steady(old(state), state, self) && SameLocks(old(state.sessions[self]), state.sessions[self])
      ensures state.sessions[self].unsettled == old(state.sessions[self].unsettled)
      ensures result.Claimed? ==>
                && state.sessions[self].activity.Reaping? && state.sessions[self].activity.project == project
                && project in state.owner && !state.Holds(state.owner[project], project)
      ensures !result.Claimed? ==> state.Free(self)
    {
      var otherLabels: bool := *;
      if otherLabels {
        return Refused;
      }
      Elsewhere();
      if project !in state.files && project !in state.stale {
        return Refused;
      }
      ghost var before := state;
      Note(MoveOn(self, LookAt(project)));
      SteadyTwice(old(state), before, state, self);
      if state.sessions[self].activity.Reaping? {
        ClaimedIsLockedOut(state, self);
        return Claimed;
      }
      before := state;
      result := ClaimOpened(project);
      SteadyTwice(old(state), before, state, self);
    }

    /** A held `flock` refuses the claim; so does a recorded group that may
        still be creating a stack that is not old. An interrupt leaves the
        descriptor open. */
    method ClaimOpened(project: Project) returns (result: ClaimResult)
      requires Valid() && state.sessions[self].activity == Opened(project)
      modifies this`state
      ensures Valid() && Steady(old(state), state, self) && SameLocks(old(state.sessions[self]), state.sessions[self])
      ensures state.sessions[self].unsettled == old(state.sessions[self].unsettled)
      ensures result.Claimed? ==>
                && state.sessions[self].activity == Reaping(project, true, {})
                && project in state.owner && !state.Holds(state.owner[project], project)
      ensures !result.Claimed? ==> state.Free(self)
    {
      Elsewhere();
      var stopped: bool := *;
      ghost var before := state;
      if stopped {
        Note(MoveOn(self, LoseClaim));
        SteadyTwice(old(state), before, state, self);
        return Stopped;
      }
      if project in state.holder {
        Note(GiveUpClaim(self));
        SteadyTwice(old(state), before, state, self);
        return Refused;
      }
      Note(TryLock(self));
      SteadyTwice(old(state), before, state, self);
      before := state;
      Elsewhere();
      SteadyTwice(old(state), before, state, self);
      before := state;
      if !state.ClearToReap(project) {
        Note(GiveUpClaim(self));
        SteadyTwice(old(state), before, state, self);
        return Refused;
      }
      Note(MoveOn(self, Confirm));
      SteadyTwice(old(state), before, state, self);
      ClaimedIsLockedOut(state, self);
      return Claimed;
    }

    /** One listing shows the stacks with a resource of its kind at some moment
        while it ran. */
    method ListKind(kind: Kind) returns (outcome: Outcome, shown: set<Project>, ghost moment: State)
      requires Valid() && state.Free(self)
      modifies this`state
      ensures Valid() && Works(old(state), state, self)
      ensures Steady(old(state), moment, self) && Steady(moment, state, self)
      ensures shown == ShownIn(moment, kind) && shown <= state.listed
    {
      var before := state;
      var ended, _ := Docker(None, false);
      outcome := ended;
      var early: bool := *;
      var answered := if early then before else state;
      SteadyHere(before, self);
      SteadyHere(state, self);
      ReachableInvariant(before);
      ReachableInvariant(state);
      shown, moment := ShownIn(answered, kind), answered;
    }

    /** The projects that carry the stack label: exactly those that one of the
        listings shows and whose resources agree on their owner. */
    method LabelledStacks(disagreeing: set<Project>)
      returns (outcome: Outcome, labelled: set<Project>, ghost moments: seq<State>)
      requires Valid() && state.Free(self)
      modifies this`state
      ensures Valid() && Works(old(state), state, self)
      ensures labelled <= state.listed
      ensures AllBetween(old(state), moments, state, self)
      ensures outcome.Done? ==> |moments| == |LISTINGS| && labelled == ShownUpTo(moments) - disagreeing
    {
      labelled, moments := {}, [];
      var found: set<Project> := {};
      var next := 0;
      while next < |LISTINGS|
        invariant next == |moments| <= |LISTINGS|
        invariant Valid() && Works(old(state), state, self) && found <= state.listed
        invariant AllBetween(old(state), moments, state, self)
        invariant found == ShownUpTo(moments)
      {
        ghost var before := state;
        var shown;
        ghost var moment;
        outcome, shown, moment := ListKind(LISTINGS[next]);
        BetweenMore(old(state), moments, before, moment, state, self);
        SteadyTwice(old(state), before, state, self);
        moments := moments + [moment];
        if !outcome.Done? {
          return;
        }
        assert moments == moments[..next] + [moment];
        found := found + shown;
        next := next + 1;
      }
      outcome, labelled := Done, found - disagreeing;
    }

    /** Removes labelled stacks whose owner is provably gone: only stacks that no
        owner holds any more, and never one of this process's own. */
    method ReapStaleStacks() returns (outcome: Outcome, reaped: set<Project>)
      requires Valid() && state.Free(self)
      modifies this`state
      ensures Valid() && Works(old(state), state, self)
      ensures forall project :: project in reaped ==>
                && project in state.owner && !state.Holds(state.owner[project], project)
                && project !in state.sessions[self].held
                && (Barren(old(state), self, project) ==> state.Absent(project))
    {
      var todo;
      reaped := {};
      var disagreeing: set<Project> := *;
      ghost var moments;
      outcome, todo, moments := LabelledStacks(disagreeing);
      if !outcome.Done? {
        return;
      }
      while todo != {}
        invariant Valid() && Works(old(state), state, self) && todo <= state.listed
        invariant forall project :: project in reaped ==> Reaped(old(state), state, self, project)
        decreases |todo|
      {
        var project :| project in todo;
        todo := todo - {project};
        if project in owned || project in state.sessions[self].held {
          continue;
        }
        ghost var before := state;
        var removed;
        outcome, removed := Reap(project);
        SteadyTwice(old(state), before, state, self);
        forall each | each in reaped {
          ReapedStays(old(state), before, state, self, each);
        }
        if removed {
          reaped := reaped + {project};
        }
        if outcome.Interrupted? {
          return;
        }
      }
    }

    /** Without proof the lock file stays, so the next session retries. */
    method Reap(project: Project) returns (outcome: Outcome, removed: bool)
      requires Valid() && state.Free(self) && project in state.listed && !state.Holds(self, project)
      modifies this`state
      ensures Valid() && Works(old(state), state, self)
      ensures removed ==> project in state.owner && !state.Holds(state.owner[project], project)
      ensures removed && Barren(old(state), self, project) ==> state.Absent(project)
    {
      var claim := Claim(project);
      var stopped: bool := *;
      ghost var before := state;
      if !claim.Claimed? {
        return if claim.Stopped? then Interrupted else Done, false;
      }
      if stopped {
        Note(MoveOn(self, LoseClaim));
        SteadyTwice(old(state), before, state, self);
        return Interrupted, false;
      }
      removed := RemoveAndProve(project, false);
      SteadyTwice(old(state), before, state, self);
      before := state;
      Elsewhere();
      SteadyTwice(old(state), before, state, self);
      before := state;
      Note(if removed then FinishReap(self) else GiveUpClaim(self));
      SteadyTwice(old(state), before, state, self);
      stopped := *;
      outcome := if stopped then Interrupted else Done;
    }

    /** `compose up`: the one command that creates the stack's resources. */
    method ComposeUp(project: Project) returns (outcome: Outcome)
      requires Valid() && state.Free(self) && project in state.sessions[self].attempted
      modifies this`state
      ensures Valid() && state.Free(self) && SameLocks(old(state.sessions[self]), state.sessions[self])
    {
      Elsewhere();
      var group: Group, starts: bool := *, *;
      if !starts || group in state.groups || group in state.sessions[self].unsettled {
        return Failed;
      }
      Start(project, group);
      var stopped: bool := *;
      if stopped {
        return Interrupted;
      }
      Elsewhere();
      SettleGroup(group);
      outcome := *;
      if group in state.sessions[self].unsettled {
        outcome := Unsettled;
      }
    }

    method Start(project: Project, group: Group)
      requires Valid() && state.Free(self) && project in state.sessions[self].attempted && group !in state.groups
      modifies this`state
      ensures Valid() && state.Free(self) && SameLocks(old(state.sessions[self]), state.sessions[self])
    {
      OwnTables(state, StartGroup(self, group, Some(project)), self);
      Take(StartGroup(self, group, Some(project)));
    }

    /** Brings the stack up, reads its ports, prepares it and runs the tests. */
    method RunStack(project: Project) returns (outcome: Outcome)
      requires Valid() && state.Free(self) && project in state.sessions[self].attempted
      modifies this`state
      ensures Valid() && state.Free(self) && SameLocks(old(state.sessions[self]), state.sessions[self])
    {
      var port;
      outcome := ComposeUp(project);
      if outcome.Done? {
        outcome, port := Docker(None, false);
      }
      if outcome.Done? {
        outcome, port := Docker(None, false);
      }
      if outcome.Done? {
        Elsewhere();
        outcome := *;
      }
    }

    /** Takes the lock, reaps, runs the stack and removes it. Whatever stops it,
        the lock is still held; the stack is forgotten only once it is gone. */
    method UseStack(project: Project) returns (outcome: Outcome)
      requires Valid() && state.Free(self) && state.Holds(self, project)
      modifies this
      ensures Valid() && state.Free(self)
      ensures state.sessions[self].held == old(state.sessions[self].held)
      ensures old(owned) - {project} <= owned <= old(owned) + {project}
      ensures outcome.Done? ==> project !in owned && state.sessions[self].unsettled == {} && state.Absent(project)
    {
      Elsewhere();
      var stopped: bool := *;
      if stopped || project in state.holder {
        return Interrupted;
      }
      TakeLockHere(project);
      Elsewhere();
      var reaped;
      outcome, reaped := ReapStaleStacks();
      if !outcome.Done? {
        return;
      }
      Elsewhere();
      AttemptHere(project);
      Elsewhere();
      stopped := *;
      if stopped {
        return Interrupted;
      }
      owned := owned + {project};
      outcome := RunStack(project);
      Elsewhere();
      stopped := *;
      if stopped {
        return Interrupted;
      }
      var proven := RemoveAndProve(project, true);
      if !proven {
        return Failed;
      }
      owned := owned - {project};
    }

    method TakeLockHere(project: Project)
      requires Valid() && CanTakeLock(state, self, project)
      modifies this`state
      ensures Valid() && state.Free(self) && project in state.sessions[self].locked
      ensures state.sessions[self].held == old(state.sessions[self].held)
    {
      Take(TakeLock(self, project));
    }

    method AttemptHere(project: Project)
      requires Valid() && CanAttempt(state, self, project)
      modifies this`state
      ensures Valid() && state.Free(self) && project in state.sessions[self].attempted
      ensures state.sessions[self].held == old(state.sessions[self].held)
    {
      Take(Attempt(self, project));
    }

    /** A private test stack. Whatever interrupts or fails, the lock of a stack
        that may still exist is held, or the stack is over for good. */
    method DistributedServices(project: Project, configured: bool) returns (outcome: Outcome)
      requires Valid() && state.Free(self) && project !in state.owner
      modifies this
      ensures Valid() && state.Free(self)
      ensures configured ==> state == old(state) && owned == old(owned)
      ensures old(state.sessions[self].held) <= state.sessions[self].held <= old(state.sessions[self].held) + {project}
      ensures project in state.owner ==> state.Holds(self, project) || Over(state, project)
    {
      if configured {
        return Done;
      }
      FreshIsNotHeld(state, self, project);
      var opens: bool := *;
      if !opens {
        return Failed;
      }
      OpenLockHere(project);
      var stopped: bool := *;
      if stopped {
        return Interrupted;
      }
      outcome := UseStack(project);
      Elsewhere();
      stopped := *;
      if stopped {
        return Interrupted;
      }
      var _ := ReleaseIfSettled(project);
      stopped := *;
      if stopped {
        outcome := Interrupted;
      }
    }

    method OpenLockHere(project: Project)
      requires Valid() && CanOpenLock(state, self, project)
      modifies this`state
      ensures Valid() && state.Free(self)
      ensures state.sessions[self].held == old(state.sessions[self].held) + {project}
    {
      Take(OpenLock(self, project));
    }

    /** The exit fallback: every lock this process holds is released over a stack
        that is gone for good, or is still held. */
    method RemoveOwnedStacks()
      requires Valid() && state.Free(self)
      modifies this
      ensures Valid() && state.Free(self)
      ensures state.sessions[self].held <= old(state.sessions[self].held) && owned <= old(owned)
      ensures forall project :: project in old(state.sessions[self].held) ==>
                state.Holds(self, project) || Over(state, project)
    {
      StopUnsettledCommands();
      RemoveEveryOwned();
      var todo := state.sessions[self].held;
      while todo != {}
        invariant Valid() && state.Free(self) && owned <= old(owned)
        invariant state.sessions[self].held <= old(state.sessions[self].held)
        invariant forall project :: project in old(state.sessions[self].held) ==>
                    state.Holds(self, project) || Over(state, project)
        decreases |todo|
      {
        var project :| project in todo;
        todo := todo - {project};
        ghost var before := state;
        var _ := ReleaseIfSettled(project);
        forall each | Over(before, each) {
          OverStays(before, state, self, each);
        }
      }
    }

    method RemoveEveryOwned()
      requires Valid() && state.Free(self)
      modifies this
      ensures Valid() && state.Free(self) && owned <= old(owned)
      ensures state.sessions[self].held == old(state.sessions[self].held)
    {
      var todo := owned;
      while todo != {}
        invariant Valid() && state.Free(self) && todo <= owned <= old(owned)
        invariant state.sessions[self].held == old(state.sessions[self].held)
        decreases |todo|
      {
        var project :| project in todo;
        todo := todo - {project};
        var proven := RemoveAndProve(project, true);
        if proven {
          owned := owned - {project};
        }
      }
    }
  }
}
