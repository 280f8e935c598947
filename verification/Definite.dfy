/** Where the meaning of a schema depends neither on how many references may be
    followed nor on the verdict once no more may be: schemas whose references come
    back to themselves only through a property or an item. */
module Definite {
  import opened Json
  import opened Schema
  import opened Meaning

  /** A number for every component. */
  datatype Ranking = Ranking(rank: string -> nat, top: nat)

  /** The references a schema follows on the value itself lead below `k`. */
  ghost predicate Below(schema: Json, ranking: Ranking, k: nat)
    decreases schema
  {
    && (forall name :: RefersTo(schema, name) ==> ranking.rank(name) < k)
    && forall keyword, branch :: IsBranch(schema, keyword, branch) ==> Below(branch, ranking, k)
  }

  predicate IsBranch(schema: Json, keyword: string, branch: Json) {
    keyword in LISTS && branch in Items(Member(schema, keyword))
  }

  /** Such references always lead to components with a smaller number. */
  ghost predicate Guarded(components: Object, ranking: Ranking) {
    forall name :: Ranked(components, ranking, name)
  }

  ghost predicate Ranked(components: Object, ranking: Ranking, name: string) {
    ranking.rank(name) <= ranking.top && Below(Get(components, name), ranking, ranking.rank(name))
  }

  /** Objects and arrays are nested at most so deep. */
  predicate Within(value: Json, depth: nat) {
    match value
    case JObject(members) => 0 < depth && forall name :: name in members ==> Within(members[name], depth - 1)
    case JArray(items) => 0 < depth && forall item :: item in items ==> Within(item, depth - 1)
    case _ => true
  }

  /** So many references are enough for a value of that depth. */
  function Enough(depth: nat, k: nat, top: nat): nat {
    depth * (top + 2) + k + 1
  }

  lemma EnoughForParts(depth: nat, k: nat, top: nat)
    requires 0 < depth
    ensures Enough(depth - 1, top + 1, top) <= Enough(depth, k, top)
  {
    assert depth * (top + 2) == (depth - 1) * (top + 2) + (top + 2);
  }

  lemma {:induction false} AnyIsBelow(schema: Json, components: Object, ranking: Ranking)
    requires Guarded(components, ranking)
    ensures Below(schema, ranking, ranking.top + 1)
    decreases schema
  {
    forall name | RefersTo(schema, name)
      ensures ranking.rank(name) < ranking.top + 1
    {
      assert Ranked(components, ranking, name);
    }
    forall keyword, branch | IsBranch(schema, keyword, branch)
      ensures Below(branch, ranking, ranking.top + 1)
    {
      AnyIsBelow(branch, components, ranking);
    }
  }

  // ---------------------------------------------------------------------
  // The verdict is always the same

  /** Two evaluations, both with enough references to follow. */
  datatype Pair = Pair(one: Side, fuel: nat, other: Side, otherFuel: nat, ranking: Ranking)
  {
    ghost predicate Alike() {
      other == one.(base := other.base)
    }

    ghost predicate Valid() {
      Alike() && Guarded(one.components, ranking)
    }

    predicate Suffices(depth: nat, k: nat) {
      k <= ranking.top + 1 && Enough(depth, k, ranking.top) <= fuel && Enough(depth, k, ranking.top) <= otherFuel
    }

    function Swapped(): Pair {
      Pair(other, otherFuel, one, fuel, ranking)
    }

    function InReading(): Pair {
      this.(one := one.(mode := Reading), other := other.(mode := Reading))
    }

    function Followed(): Pair
      requires 0 < fuel && 0 < otherFuel
    {
      this.(fuel := fuel - 1, otherFuel := otherFuel - 1)
    }
  }

  ghost predicate Carries(p: Pair, schema: Json, value: Json) {
    Admits(p.one, p.fuel, schema, value) ==> Admits(p.other, p.otherFuel, schema, value)
  }

  ghost predicate BranchCarries(p: Pair, schema: Json, keyword: string, branch: Json, value: Json) {
    IsBranch(schema, keyword, branch) ==> Carries(p, branch, value)
  }

  ghost predicate BranchesCarry(p: Pair, schema: Json, value: Json) {
    forall keyword, branch :: BranchCarries(p, schema, keyword, branch, value)
  }

  lemma BranchesCarried(p: Pair, schema: Json, value: Json)
    requires BranchesCarry(p, schema, value)
    ensures BranchesAdmit(p.one, p.fuel, schema, value) ==> BranchesAdmit(p.other, p.otherFuel, schema, value)
  {
    assert LISTS[0] == "allOf" && LISTS[1] == "anyOf";
    forall keyword, branch | keyword in LISTS && branch in Items(Member(schema, keyword))
      ensures Admits(p.one, p.fuel, branch, value) ==> Admits(p.other, p.otherFuel, branch, value)
    {
      assert BranchCarries(p, schema, keyword, branch, value);
    }
  }

  lemma OneCarried(p: Pair, schema: Json, value: Json)
    requires p.Alike() && 0 < p.fuel && 0 < p.otherFuel
    requires BranchesCarry(p, schema, value) && BranchesCarry(p.Swapped().InReading(), schema, value)
    ensures OneAdmits(p.one, p.fuel, schema, value) ==> OneAdmits(p.other, p.otherFuel, schema, value)
  {
    var branches := Items(Member(schema, "oneOf"));
    assert LISTS[2] == "oneOf";
    if Member(schema, "oneOf").JArray? && OneAdmits(p.one, p.fuel, schema, value) {
      var i :| 0 <= i < |branches| && Admits(p.one, p.fuel, branches[i], value)
        && NoOther(p.one, p.fuel, schema, value, i);
      assert BranchCarries(p, schema, "oneOf", branches[i], value);
      forall j | 0 <= j < |branches| && j != i
        ensures !Admits(p.other.(mode := Reading), p.otherFuel, branches[j], value)
      {
        assert BranchCarries(p.Swapped().InReading(), schema, "oneOf", branches[j], value);
      }
      assert NoOther(p.other, p.otherFuel, schema, value, i);
    }
  }

  lemma BranchBelow(schema: Json, ranking: Ranking, k: nat, keyword: string, branch: Json)
    requires Below(schema, ranking, k) && IsBranch(schema, keyword, branch)
    ensures Below(branch, ranking, k)
  {
  }

  /** What a value needs in references, each of its parts has. */
  lemma PartReady(p: Pair, depth: nat, k: nat, schema: Json)
    requires p.Valid() && p.Suffices(depth, k) && 0 < depth
    ensures p.Suffices(depth - 1, p.ranking.top + 1) && Below(schema, p.ranking, p.ranking.top + 1)
  {
    AnyIsBelow(schema, p.one.components, p.ranking);
    EnoughForParts(depth, k, p.ranking.top);
  }

  lemma FollowedReady(p: Pair, depth: nat, k: nat, schema: Json, name: string)
    requires p.Valid() && p.Suffices(depth, k) && Below(schema, p.ranking, k) && RefersTo(schema, name)
    ensures p.ranking.rank(name) < k && 0 < p.fuel && 0 < p.otherFuel
    ensures p.Followed().Valid() && p.Followed().Suffices(depth, p.ranking.rank(name))
    ensures Below(Get(p.one.components, name), p.ranking, p.ranking.rank(name))
  {
    assert Ranked(p.one.components, p.ranking, name);
  }

  lemma {:induction false} SameVerdict(p: Pair, depth: nat, k: nat, schema: Json, value: Json)
    requires p.Valid() && p.Suffices(depth, k) && Within(value, depth) && Below(schema, p.ranking, k)
    ensures Carries(p, schema, value)
    decreases depth, k, schema, 2
  {
    SameBranches(p, depth, k, schema, value);
    SameBranches(p.Swapped().InReading(), depth, k, schema, value);
    BranchesCarried(p, schema, value);
    OneCarried(p, schema, value);
    forall name {
      SameReference(p, depth, k, schema, name, value);
    }
    ReferencesCarry(p, schema, value);
    if value.JObject? {
      forall name | name in value.members
        ensures MemberCarries(p, schema, name, value.members[name])
      {
        SameMember(p, depth, k, schema, name, value.members[name]);
      }
    }
    if value.JArray? {
      SameItems(p, depth, k, schema, value.items);
    }
    PartsCarry(p, schema, value);
  }

  ghost predicate ReferenceCarries(p: Pair, schema: Json, name: string, value: Json) {
    RefersTo(schema, name) ==>
      0 < p.fuel && 0 < p.otherFuel && Carries(p.Followed(), Get(p.one.components, name), value)
  }

  ghost predicate MemberCarries(p: Pair, schema: Json, name: string, value: Json) {
    MemberAdmits(p.one, p.fuel, schema, name, value) ==> MemberAdmits(p.other, p.otherFuel, schema, name, value)
  }

  ghost predicate ItemsCarry(p: Pair, schema: Json, items: seq<Json>) {
    ItemsAdmit(p.one, p.fuel, schema, items) ==> ItemsAdmit(p.other, p.otherFuel, schema, items)
  }

  lemma MemberCarried(p: Pair, schema: Json, name: string, value: Json)
    requires p.Alike()
    requires name in Properties(schema) ==> Carries(p, Properties(schema)[name], value)
    requires Member(schema, "additionalProperties").JObject? ==>
              Carries(p, Member(schema, "additionalProperties"), value)
    ensures MemberCarries(p, schema, name, value)
  {
    assert ExtraAdmits(p.one, p.fuel, schema, value) ==> ExtraAdmits(p.other, p.otherFuel, schema, value);
  }

  ghost predicate ReferencesAdmit(side: Side, fuel: nat, schema: Json, value: Json) {
    forall name :: RefersTo(schema, name) ==>
      if fuel == 0 then side.base else Admits(side, fuel - 1, Get(side.components, name), value)
  }

  ghost predicate MembersAdmit(side: Side, fuel: nat, schema: Json, value: Json) {
    value.JObject? ==> forall name :: name in value.members ==>
      MemberAdmits(side, fuel, schema, name, value.members[name])
  }

  lemma AdmitsIs(side: Side, fuel: nat, schema: Json, value: Json)
    ensures Admits(side, fuel, schema, value) <==>
            && LocallyAdmits(side.oracle, schema, value)
            && BranchesAdmit(side, fuel, schema, value) && OneAdmits(side, fuel, schema, value)
            && ReferencesAdmit(side, fuel, schema, value) && MembersAdmit(side, fuel, schema, value)
            && (value.JArray? ==> ItemsAdmit(side, fuel, schema, value.items))
  {
  }

  lemma ReferencesCarry(p: Pair, schema: Json, value: Json)
    requires p.Alike() && forall name :: ReferenceCarries(p, schema, name, value)
    ensures ReferencesAdmit(p.one, p.fuel, schema, value) ==> ReferencesAdmit(p.other, p.otherFuel, schema, value)
  {
    forall name | RefersTo(schema, name) && ReferencesAdmit(p.one, p.fuel, schema, value)
      ensures if p.otherFuel == 0 then p.other.base
              else Admits(p.other, p.otherFuel - 1, Get(p.other.components, name), value)
    {
      assert ReferenceCarries(p, schema, name, value);
    }
  }

  lemma PartsCarry(p: Pair, schema: Json, value: Json)
    requires p.Alike()
    requires BranchesAdmit(p.one, p.fuel, schema, value) ==> BranchesAdmit(p.other, p.otherFuel, schema, value)
    requires OneAdmits(p.one, p.fuel, schema, value) ==> OneAdmits(p.other, p.otherFuel, schema, value)
    requires ReferencesAdmit(p.one, p.fuel, schema, value) ==> ReferencesAdmit(p.other, p.otherFuel, schema, value)
    requires MembersAdmit(p.one, p.fuel, schema, value) ==> MembersAdmit(p.other, p.otherFuel, schema, value)
    requires value.JArray? ==> ItemsCarry(p, schema, value.items)
    ensures Carries(p, schema, value)
  {
    AdmitsIs(p.one, p.fuel, schema, value);
    AdmitsIs(p.other, p.otherFuel, schema, value);
  }

  lemma {:induction false} SameReference(p: Pair, depth: nat, k: nat, schema: Json, name: string, value: Json)
    requires p.Valid() && p.Suffices(depth, k) && Within(value, depth) && Below(schema, p.ranking, k)
    ensures ReferenceCarries(p, schema, name, value)
    decreases depth, k, schema, 1
  {
    if RefersTo(schema, name) {
      FollowedReady(p, depth, k, schema, name);
      SameVerdict(p.Followed(), depth, p.ranking.rank(name), Get(p.one.components, name), value);
    }
  }

  lemma {:induction false} SameBranches(p: Pair, depth: nat, k: nat, schema: Json, value: Json)
    requires p.Valid() && p.Suffices(depth, k) && Within(value, depth) && Below(schema, p.ranking, k)
    ensures BranchesCarry(p, schema, value)
    decreases depth, k, schema, 1
  {
    forall keyword, branch
      ensures BranchCarries(p, schema, keyword, branch, value)
    {
      if IsBranch(schema, keyword, branch) {
        BranchBelow(schema, p.ranking, k, keyword, branch);
        SameVerdict(p, depth, k, branch, value);
      }
    }
  }

  /** A part of the value, judged by whatever schema. */
  lemma {:induction false} SamePart(p: Pair, depth: nat, k: nat, schema: Json, value: Json)
    requires p.Valid() && p.Suffices(depth + 1, k) && Within(value, depth)
    ensures Carries(p, schema, value)
    decreases depth, p.ranking.top + 2, schema, 0
  {
    PartReady(p, depth + 1, k, schema);
    SameVerdict(p, depth, p.ranking.top + 1, schema, value);
  }

  lemma {:induction false} SameMember(p: Pair, depth: nat, k: nat, schema: Json, name: string, value: Json)
    requires p.Valid() && p.Suffices(depth, k) && 0 < depth && Within(value, depth - 1)
    ensures MemberCarries(p, schema, name, value)
    decreases depth, k, schema, 1
  {
    if name in Properties(schema) {
      SamePart(p, depth - 1, k, Properties(schema)[name], value);
    }
    SamePart(p, depth - 1, k, Member(schema, "additionalProperties"), value);
    MemberCarried(p, schema, name, value);
  }

  lemma {:induction false} SameItems(p: Pair, depth: nat, k: nat, schema: Json, items: seq<Json>)
    requires p.Valid() && p.Suffices(depth, k) && 0 < depth && forall item :: item in items ==> Within(item, depth - 1)
    ensures ItemsCarry(p, schema, items)
    decreases depth, k, schema, 1
  {
    forall item | item in items
      ensures Carries(p, Member(schema, "items"), item)
    {
      SamePart(p, depth - 1, k, Member(schema, "items"), item);
    }
  }

  // ---------------------------------------------------------------------
  // Values and schemas as such

  lemma {:induction false} WithinMore(value: Json, depth: nat, more: nat)
    requires Within(value, depth) && depth <= more
    ensures Within(value, more)
    decreases value
  {
    match value
    case JObject(members) =>
      forall name | name in members
        ensures Within(members[name], more - 1)
      {
        WithinMore(members[name], depth - 1, more - 1);
      }
    case JArray(items) =>
      forall item | item in items
        ensures Within(item, more - 1)
      {
        WithinMore(item, depth - 1, more - 1);
      }
    case _ =>
  }

  lemma {:induction false} MembersWithin(value: Json, names: set<string>) returns (depth: nat)
    requires value.JObject? && names <= value.members.Keys
    ensures forall name :: name in names ==> Within(value.members[name], depth)
    decreases value, 0, names
  {
    depth := 0;
    if names != {} {
      var name :| name in names;
      var rest := MembersWithin(value, names - {name});
      var one := DepthOf(value.members[name]);
      depth := if rest < one then one else rest;
      WithinMore(value.members[name], one, depth);
      forall other | other in names - {name} {
        WithinMore(value.members[other], rest, depth);
      }
    }
  }

  lemma {:induction false} ItemsWithin(value: Json, k: nat) returns (depth: nat)
    requires value.JArray? && k <= |value.items|
    ensures forall i :: 0 <= i < k ==> Within(value.items[i], depth)
    decreases value, 0, k
  {
    depth := 0;
    if k > 0 {
      var rest := ItemsWithin(value, k - 1);
      var one := DepthOf(value.items[k - 1]);
      depth := if rest < one then one else rest;
      WithinMore(value.items[k - 1], one, depth);
      forall i | 0 <= i < k - 1 {
        WithinMore(value.items[i], rest, depth);
      }
    }
  }

  /** Every value is nested to some depth. */
  lemma {:induction false} DepthOf(value: Json) returns (depth: nat)
    ensures Within(value, depth)
    decreases value, 1
  {
    match value
    case JObject(members) =>
      var inner := MembersWithin(value, members.Keys);
      depth := inner + 1;
    case JArray(items) =>
      var inner := ItemsWithin(value, |items|);
      depth := inner + 1;
    case _ => depth := 0;
  }

  /** Where a value stands to a schema, whatever the verdict on references that
      are not followed, once enough of them may be. */
  datatype Place = Place(oracle: Oracle, components: Object, mode: Mode)

  ghost predicate Settled(place: Place, schema: Json, value: Json, admitted: bool, enough: nat) {
    forall fuel: nat, base: bool :: enough <= fuel ==>
      Admits(Side(place.oracle, place.components, place.mode, base), fuel, schema, value) == admitted
  }

  ghost predicate Verdict(place: Place, schema: Json, value: Json, admitted: bool) {
    exists enough: nat :: Settled(place, schema, value, admitted, enough)
  }

  /** With guarded components every schema either admits a value or rejects it. */
  lemma MeaningIsDefinite(place: Place, ranking: Ranking, schema: Json, value: Json)
    requires Guarded(place.components, ranking)
    ensures Verdict(place, schema, value, true) != Verdict(place, schema, value, false)
  {
    var depth := DepthOf(value);
    var k := ranking.top + 1;
    var enough := Enough(depth, k, ranking.top);
    AnyIsBelow(schema, place.components, ranking);
    var first := Side(place.oracle, place.components, place.mode, true);
    forall fuel: nat, base: bool | enough <= fuel
      ensures Admits(Side(place.oracle, place.components, place.mode, base), fuel, schema, value) ==
              Admits(first, enough, schema, value)
    {
      var p := Pair(first, enough, first.(base := base), fuel, ranking);
      SameVerdict(p, depth, k, schema, value);
      SameVerdict(p.Swapped(), depth, k, schema, value);
    }
    assert Settled(place, schema, value, Admits(first, enough, schema, value), enough);
    VerdictIsOne(place, schema, value);
  }

  lemma SettledAt(place: Place, schema: Json, value: Json, admitted: bool, enough: nat, fuel: nat, base: bool)
    requires Settled(place, schema, value, admitted, enough) && enough <= fuel
    ensures Admits(Side(place.oracle, place.components, place.mode, base), fuel, schema, value) == admitted
  {
  }

  lemma VerdictIsOne(place: Place, schema: Json, value: Json)
    ensures !(Verdict(place, schema, value, true) && Verdict(place, schema, value, false))
  {
    if Verdict(place, schema, value, true) && Verdict(place, schema, value, false) {
      var one: nat :| Settled(place, schema, value, true, one);
      var other: nat :| Settled(place, schema, value, false, other);
      SettledAt(place, schema, value, true, one, one + other, true);
      SettledAt(place, schema, value, false, other, one + other, true);
    }
  }
}
