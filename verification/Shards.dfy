/** The shard checker of scripts/ci/e2e_shards.py, from the parsed functions, call
    edges, shard lists and scenario sites on. */
module Shards {
  import opened Basics
  import opened Reachability

  /** A harness function by the kind its name gives it; a phase function carries
      the name of its phase. */
  datatype Name = Name(text: string)
  datatype Function = Phase(phase: Name) | Seed(name: string) | Diagnostic(name: string) | Primitive(name: string)
    | Helper(name: string)

  /** A scenario site, and whether it runs a `seed-*` workflow command. */
  datatype Scenario = Scenario(owner: Option<Function>, seeding: bool)

  datatype Error =
    | NotContiguous | WrongCount | AssignedTwice(phase: Name) | Unassigned(phase: Name) | NoSuchPhase(phase: Name)
    | NotSelectable | CalledDirectly(phase: Name) | SeedRunsScenario(scenario: Scenario)
    | OutsidePhases(scenario: Scenario) | InNoShard(scenario: Scenario) | InManyShards(scenario: Scenario)
      | SeedAtTopLevel(seed: Function)

  /** A phase in the array of a shard. */
  datatype Listed = Listed(shard: nat, phase: Name)

  /** `listing` holds the arrays of all shards one after the other; `selectable`
      says that the selection lines, the complete run and the dispatcher are there
      as text. */
  datatype Harness = Harness(
    functions: set<Function>, calls: map<Option<Function>, set<Function>>, shards: set<nat>, listing: seq<Listed>,
    scenarios: seq<Scenario>, selectable: bool)
  {
    /** The call pattern only matches function names. */
    predicate Valid() {
      forall caller :: caller in calls ==> calls[caller] <= functions
    }

    function CallsOf(caller: Option<Function>): set<Function> {
      if caller in calls then calls[caller] else {}
    }

    function Phases(): set<Name> {
      set each | each in functions && each.Phase? :: each.phase
    }
  }

  /** Calls out of primitives are not followed. */
  function Edges(h: Harness): Function -> set<Function> {
    (caller: Function) => if caller.Primitive? then {} else h.CallsOf(Some(caller))
  }

  /** Calls lead from the caller to the function, through no primitive. */
  ghost predicate Leads(h: Harness, caller: Option<Function>, callee: Function) {
    !callee.Primitive? && Reaches(Edges(h), h.CallsOf(caller), callee)
  }

  /** `_reach`: exactly the functions that calls lead to, in any order of popping. */
  method Reach(h: Harness, start: Option<Function>) returns (reached: set<Function>)
    requires h.Valid()
    ensures forall callee :: callee in reached <==> Leads(h, start, callee)
    ensures reached <= h.functions
  {
    ghost var next, roots := Edges(h), h.CallsOf(start);
    ghost var found: set<Function> := {};
    reached := {};
    var pending := InSomeOrder(h.CallsOf(start));
    SearchStart(next, roots, {}, pending);
    while pending != []
      invariant found <= h.functions && forall each :: each in pending ==> each in h.functions
      invariant forall each :: each in reached <==> each in found && !each.Primitive?
      invariant Searching(next, roots, {}, found, pending)
      decreases h.functions - found, |pending|
    {
      var name := pending[|pending| - 1];
      assert name in pending;
      if name in reached || name.Primitive? {
        if name in found {
          SearchSkip(next, roots, {}, found, pending);
        } else {
          SearchExpand(next, roots, {}, found, pending, []);
          assert pending[..|pending| - 1] + [] == pending[..|pending| - 1];
          found := found + {name};
        }
        pending := pending[..|pending| - 1];
      } else {
        var pushed := InSomeOrder(h.CallsOf(Some(name)));
        SearchExpand(next, roots, {}, found, pending, pushed);
        found := found + {name};
        reached, pending := reached + {name}, pending[..|pending| - 1] + pushed;
      }
    }
    SearchDone(next, roots, {}, found);
  }

  // ---------------------------------------------------------------------
  // The shards

  /** The shard runs the function in one of its phases. */
  ghost predicate RunsIn(h: Harness, shard: nat, callee: Function) {
    exists listed :: listed in h.listing && listed.shard == shard && PhaseRuns(h, listed.phase, callee)
  }

  ghost predicate PhaseRuns(h: Harness, phase: Name, callee: Function) {
    Phase(phase) in h.functions && (callee == Phase(phase) || Leads(h, Some(Phase(phase)), callee))
  }

  /** No phase is listed twice, in one shard or in two. */
  predicate ListedOnce(listing: seq<Listed>) {
    forall i, j :: 0 <= i < j < |listing| ==> listing[i].phase != listing[j].phase
  }

  predicate IsListed(listing: seq<Listed>, phase: Name) {
    exists listed :: listed in listing && listed.phase == phase
  }

  predicate Contiguous(shards: set<nat>) {
    forall number :: number in shards ==> 1 <= number <= |shards|
  }

  /** Shards are numbered from one, at least two, and share out the phases. */
  ghost predicate ShardsFine(h: Harness, expected: Option<nat>) {
    && Contiguous(h.shards) && 2 <= |h.shards| && (expected.Some? ==> |h.shards| == expected.value)
    && ListedOnce(h.listing) && (forall phase :: phase in h.Phases() <==> IsListed(h.listing, phase)) && h.selectable
  }

  /** What the checker demands of one scenario site. */
  ghost predicate ScenarioFine(h: Harness, scenario: Scenario) {
    if scenario.owner.Some? && scenario.owner.value.Diagnostic? then true
    else if scenario.owner.Some? && scenario.owner.value.Seed? then scenario.seeding
    else scenario.owner.Some? && !Leads(h, None, scenario.owner.value) && InOneShard(h, scenario.owner.value)
  }

  /** Scenarios of seeds and diagnostics belong to no shard. */
  predicate Exempt(scenario: Scenario) {
    scenario.owner.Some? && (scenario.owner.value.Seed? || scenario.owner.value.Diagnostic?)
  }

  ghost predicate InOneShard(h: Harness, callee: Function) {
    exists shard: nat :: RunsIn(h, shard, callee) && forall other: nat :: RunsIn(h, other, callee) ==> other == shard
  }

  ghost predicate PhaseNotCalled(h: Harness, phase: Name) {
    forall caller :: caller in h.calls ==> Phase(phase) !in h.calls[caller]
  }

  ghost predicate SeedsBelow(h: Harness) {
    forall each :: each in h.functions && each.Seed? ==> !Leads(h, None, each)
  }

  ghost predicate WellSharded(h: Harness, expected: Option<nat>) {
    && ShardsFine(h, expected) && SeedsBelow(h)
    && (forall phase :: phase in h.Phases() ==> PhaseNotCalled(h, phase))
    && (forall scenario :: scenario in h.scenarios ==> ScenarioFine(h, scenario))
  }

  // ---------------------------------------------------------------------
  // The checks

  /** The phases listed so far, and those listed again. */
  method ListPhases(listing: seq<Listed>) returns (twice: set<Name>, phases: set<Name>)
    ensures forall phase :: phase in phases <==> IsListed(listing, phase)
    ensures twice == {} <==> ListedOnce(listing)
  {
    twice, phases := {}, {};
    for i := 0 to |listing|
      invariant forall phase :: phase in phases <==> IsListed(listing[..i], phase)
      invariant twice == {} <==> ListedOnce(listing[..i])
    {
      OneMoreListed(listing, i);
      if listing[i].phase in phases {
        twice := twice + {listing[i].phase};
      }
      phases := phases + {listing[i].phase};
    }
    assert listing[..|listing|] == listing;
  }

  lemma OneMoreListed(listing: seq<Listed>, i: nat)
    requires i < |listing|
    ensures ListedOnce(listing[..i + 1]) <==> ListedOnce(listing[..i]) && !IsListed(listing[..i], listing[i].phase)
    ensures forall phase :: IsListed(listing[..i + 1], phase) <==>
              IsListed(listing[..i], phase) || phase == listing[i].phase
  {
    var shorter, longer := listing[..i], listing[..i + 1];
    assert longer == shorter + [listing[i]];
    if IsListed(shorter, listing[i].phase) {
      var listed :| listed in shorter && listed.phase == listing[i].phase;
      var k :| 0 <= k < i && shorter[k] == listed;
      assert longer[k].phase == longer[i].phase;
    }
  }

  /** One error for each phase, so none exactly when there is no such phase. */
  method Report(phases: set<Name>, report: Name -> Error) returns (errors: set<Error>)
    ensures errors == {} <==> phases == {}
    ensures forall phase :: phase in phases ==> report(phase) in errors
  {
    errors := set phase | phase in phases :: report(phase);
    assert forall phase :: phase in phases ==> report(phase) in errors;
  }

  method ShardErrors(h: Harness, expected: Option<nat>) returns (errors: set<Error>)
    ensures errors == {} <==> ShardsFine(h, expected)
  {
    var counted: set<Error> := {};
    if !Contiguous(h.shards) || |h.shards| < 2 {
      counted := counted + {NotContiguous};
    }
    if expected.Some? && |h.shards| != expected.value {
      counted := counted + {WrongCount};
    }
    if !h.selectable {
      counted := counted + {NotSelectable};
    }
    var twice, phases := ListPhases(h.listing);
    var doubled := Report(twice, phase => AssignedTwice(phase));
    var left := Report(h.Phases() - phases, phase => Unassigned(phase));
    var unknown := Report(phases - h.Phases(), phase => NoSuchPhase(phase));
    errors := counted + doubled + left + unknown;
  }

  // ---------------------------------------------------------------------
  // Who runs a function

  /** `shard_of`: the last listing of a phase wins. */
  method ShardOf(listing: seq<Listed>) returns (shardOf: map<Name, nat>)
    ensures forall phase :: phase in shardOf <==> IsListed(listing, phase)
    ensures forall phase :: phase in shardOf ==> Listed(shardOf[phase], phase) in listing
  {
    shardOf := map[];
    for i := 0 to |listing|
      invariant forall phase :: phase in shardOf <==> IsListed(listing[..i], phase)
      invariant forall phase :: phase in shardOf ==> Listed(shardOf[phase], phase) in listing[..i]
    {
      OneMoreListed(listing, i);
      assert listing[..i + 1] == listing[..i] + [listing[i]];
      shardOf := shardOf[listing[i].phase := listing[i].shard];
    }
    assert listing[..|listing|] == listing;
  }

  /** `reach`: what each phase function runs, itself included. */
  method ReachOf(h: Harness) returns (reach: map<Name, set<Function>>)
    requires h.Valid()
    ensures reach.Keys == h.Phases() && ReachIs(h, reach)
  {
    var todo := h.Phases();
    reach := map[];
    while todo != {}
      invariant todo <= h.Phases() && forall phase :: phase in reach <==> phase in h.Phases() && phase !in todo
      invariant ReachIs(h, reach)
      decreases |todo|
    {
      var phase :| phase in todo;
      var reached := Reach(h, Some(Phase(phase)));
      assert Phase(phase) in h.functions;
      todo, reach := todo - {phase}, reach[phase := reached + {Phase(phase)}];
    }
  }

  ghost predicate ReachIs(h: Harness, reach: map<Name, set<Function>>) {
    forall phase, callee :: phase in reach ==> (callee in reach[phase] <==> PhaseRuns(h, phase, callee))
  }

  /** The shards that some phases' functions give a function. */
  function Reaching(reach: map<Name, set<Function>>, shardOf: map<Name, nat>, callee: Function): set<nat> {
    set phase | phase in reach && callee in reach[phase] && phase in shardOf :: shardOf[phase]
  }

  /** When no phase is listed twice they are exactly the shards that run it. */
  lemma ReachingIsExact(h: Harness, reach: map<Name, set<Function>>, shardOf: map<Name, nat>, callee: Function)
    requires ListedOnce(h.listing) && reach.Keys == h.Phases() && ReachIs(h, reach)
    requires forall phase :: phase in shardOf <==> IsListed(h.listing, phase)
    requires forall phase :: phase in shardOf ==> Listed(shardOf[phase], phase) in h.listing
    ensures forall shard: nat :: shard in Reaching(reach, shardOf, callee) <==> RunsIn(h, shard, callee)
  {
    var shards := Reaching(reach, shardOf, callee);
    forall shard: nat | RunsIn(h, shard, callee)
      ensures shard in shards
    {
      var listed :| listed in h.listing && listed.shard == shard && PhaseRuns(h, listed.phase, callee);
      var phase := listed.phase;
      assert IsListed(h.listing, phase);
      assert phase in reach && callee in reach[phase];
      SameListing(h.listing, listed, Listed(shardOf[phase], phase));
    }
    forall shard: nat | shard in shards
      ensures RunsIn(h, shard, callee)
    {
      var phase :| phase in reach && callee in reach[phase] && phase in shardOf && shardOf[phase] == shard;
      assert Listed(shard, phase) in h.listing;
    }
  }

  lemma SameListing(listing: seq<Listed>, one: Listed, other: Listed)
    requires ListedOnce(listing) && one in listing && other in listing && one.phase == other.phase
    ensures one == other
  {
    var i :| 0 <= i < |listing| && listing[i] == one;
    var j :| 0 <= j < |listing| && listing[j] == other;
    assert i == j;
  }

  /** One shard runs the function exactly when there is one such shard. */
  lemma OneShard(h: Harness, shards: set<nat>, callee: Function)
    requires forall shard: nat :: shard in shards <==> RunsIn(h, shard, callee)
    ensures |shards| == 1 <==> InOneShard(h, callee)
  {
    if |shards| == 1 {
      var one :| one in shards;
      assert |shards - {one}| == 0;
      assert forall other: nat :: RunsIn(h, other, callee) ==> other in shards && other !in shards - {one};
      assert RunsIn(h, one, callee);
    }
    if InOneShard(h, callee) {
      var one: nat :| RunsIn(h, one, callee) && forall other: nat :: RunsIn(h, other, callee) ==> other == one;
      assert shards == {one};
    }
  }

  // ---------------------------------------------------------------------
  // The whole checker

  /** The error for one scenario site, if any. */
  method ScenarioError(h: Harness, scenario: Scenario, topLevel: set<Function>, reach: map<Name, set<Function>>,
                       shardOf: map<Name, nat>)
    returns (error: Option<Error>)
    requires forall callee :: callee in topLevel <==> Leads(h, None, callee)
    requires reach.Keys == h.Phases() && ReachIs(h, reach)
    requires forall phase :: phase in shardOf <==> IsListed(h.listing, phase)
    requires forall phase :: phase in shardOf ==> Listed(shardOf[phase], phase) in h.listing
    ensures ListedOnce(h.listing) ==> (error.None? <==> ScenarioFine(h, scenario))
  {
    if scenario.owner.Some? && scenario.owner.value.Diagnostic? {
      return None;
    }
    if scenario.owner.Some? && scenario.owner.value.Seed? {
      return if scenario.seeding then None else Some(SeedRunsScenario(scenario));
    }
    if scenario.owner.None? || scenario.owner.value in topLevel {
      return Some(OutsidePhases(scenario));
    }
    var callee := scenario.owner.value;
    var shards := Reaching(reach, shardOf, callee);
    if ListedOnce(h.listing) {
      ReachingIsExact(h, reach, shardOf, callee);
      OneShard(h, shards, callee);
    }
    if shards == {} {
      return Some(InNoShard(scenario));
    }
    assert |shards| != 0;
    if |shards| > 1 {
      return Some(InManyShards(scenario));
    }
    error := None;
  }

  method ScenarioErrors(h: Harness, topLevel: set<Function>, reach: map<Name, set<Function>>, shardOf: map<Name, nat>)
    returns (errors: set<Error>)
    requires forall callee :: callee in topLevel <==> Leads(h, None, callee)
    requires reach.Keys == h.Phases() && ReachIs(h, reach)
    requires forall phase :: phase in shardOf <==> IsListed(h.listing, phase)
    requires forall phase :: phase in shardOf ==> Listed(shardOf[phase], phase) in h.listing
    ensures ListedOnce(h.listing) ==>
              (errors == {} <==> forall scenario :: scenario in h.scenarios ==> ScenarioFine(h, scenario))
  {
    errors := {};
    for i := 0 to |h.scenarios|
      invariant ListedOnce(h.listing) ==> (errors == {} <==> forall k :: 0 <= k < i ==> ScenarioFine(h, h.scenarios[k]))
    {
      var error := ScenarioError(h, h.scenarios[i], topLevel, reach, shardOf);
      if error.Some? {
        errors := errors + {error.value};
      }
    }
  }

  /** Phase functions that something calls. */
  method CalledPhases(h: Harness) returns (called: set<Name>)
    ensures called == {} <==> forall phase :: phase in h.Phases() ==> PhaseNotCalled(h, phase)
  {
    called := set phase | phase in h.Phases() && exists caller :: caller in h.calls && Phase(phase) in h.calls[caller];
    forall phase | phase in h.Phases() && !PhaseNotCalled(h, phase)
      ensures phase in called
    {
      var caller :| caller in h.calls && Phase(phase) in h.calls[caller];
    }
  }

  /** `validate_harness`: no error is reported exactly when every scenario outside
      seeds and diagnostics is run by exactly one shard and never from top-level
      code, and the harness is otherwise as it must be. */
  method ValidateHarness(h: Harness, expected: Option<nat>) returns (errors: set<Error>)
    requires h.Valid()
    ensures errors == {} <==> WellSharded(h, expected)
    ensures errors == {} ==> forall scenario :: scenario in h.scenarios && !Exempt(scenario) ==>
              && scenario.owner.Some? && !Leads(h, None, scenario.owner.value)
              && exists shard: nat :: RunsIn(h, shard, scenario.owner.value)
                   && forall other: nat :: RunsIn(h, other, scenario.owner.value) ==> other == shard
  {
    var shardErrors := ShardErrors(h, expected);
    var called := CalledPhases(h);
    var calledErrors := Report(called, phase => CalledDirectly(phase));
    var shardOf := ShardOf(h.listing);
    var reach := ReachOf(h);
    var topLevel := Reach(h, None);
    var scenarioErrors := ScenarioErrors(h, topLevel, reach, shardOf);
    var seeds := set each | each in h.functions && each.Seed? && each in topLevel;
    var seedErrors := set each | each in seeds :: SeedAtTopLevel(each);
    assert seedErrors == {} <==> SeedsBelow(h) by {
      assert forall each :: each in seeds ==> SeedAtTopLevel(each) in seedErrors;
      assert forall each :: each in h.functions && each.Seed? && each in topLevel ==> each in seeds;
    }
    errors := shardErrors + calledErrors + scenarioErrors + seedErrors;
  }
}
