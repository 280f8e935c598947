/** Soundness of the schema comparison: what a writer may send under one side,
    a reader of the other side accepts. */
module Soundness {
  import opened Json
  import opened Schema
  import opened Meaning
  import SchemaOrder

  /** The parameters of the meaning, the components of the two documents, the
      direction of the exchange, and the components it reaches. */
  datatype Setting = Setting(
    oracle: Oracle, base: bool, before: Object, after: Object, direction: Direction, roles: set<string>)
  {
    function Write(): Side {
      Side(oracle, Writer(direction, before, after), Writing, base)
    }

    function Read(): Side {
      Side(oracle, Reader(direction, before, after), Reading, base)
    }

    /** A pair of schemas that was compared and reported no incompatible change. */
    ghost predicate Related(baseline: Json, current: Json) {
      && WellFormed(before, baseline) && WellFormed(after, current)
      && SchemaCompatible(baseline, current, direction)
      && Comparable(baseline, current, direction)
      && References(baseline) <= roles
    }

    /** Every reached component was compared; references stay inside `roles`. */
    ghost predicate Valid() {
      forall name :: name in roles ==>
        name in before && name in after && Related(before[name], after[name])
    }
  }

  lemma LocallySound(s: Setting, baseline: Json, current: Json, value: Json)
    requires s.Related(baseline, current)
    requires LocallyAdmits(s.oracle, Writer(s.direction, baseline, current), value)
    ensures LocallyAdmits(s.oracle, Reader(s.direction, baseline, current), value)
  {
    var writer, reader := Writer(s.direction, baseline, current), Reader(s.direction, baseline, current);
    AllowedSound(s, baseline, current, value);
    forall keyword | keyword in OPAQUE_KEYWORDS && !Member(reader, keyword).JNull?
      ensures s.oracle(keyword, Member(reader, keyword), value)
    {
      OpaqueKept(s, baseline, current, keyword);
    }
    forall keyword | keyword in LOWER_BOUNDS + UPPER_BOUNDS
      ensures BoundHolds(keyword, Member(reader, keyword), value)
    {
      BoundSound(keyword, Member(writer, keyword), Member(reader, keyword), value);
    }
  }

  /** `type`, `const` and `enum`. */
  lemma AllowedSound(s: Setting, baseline: Json, current: Json, value: Json)
    requires s.Related(baseline, current)
    requires TypeHolds(Member(Writer(s.direction, baseline, current), "type"), value)
    requires Allows(Writer(s.direction, baseline, current), value)
    ensures TypeHolds(Member(Reader(s.direction, baseline, current), "type"), value)
    ensures Allows(Reader(s.direction, baseline, current), value)
  {
    assert EQUALITY_KEYWORDS[0] == "type" && UNCOMPARED_KEYWORDS[0] == "const";
  }

  lemma OpaqueKept(s: Setting, baseline: Json, current: Json, keyword: string)
    requires s.Related(baseline, current) && keyword in OPAQUE_KEYWORDS
    ensures KeptOrDropped(Member(Writer(s.direction, baseline, current), keyword),
                          Member(Reader(s.direction, baseline, current), keyword))
  {
    assert keyword in EQUALITY_KEYWORDS || keyword in COMBINATORS || keyword in UNCOMPARED_KEYWORDS;
  }

  lemma BoundSound(keyword: string, writer: Json, reader: Json, value: Json)
    requires keyword in LOWER_BOUNDS + UPPER_BOUNDS
    requires BoundKept(writer, reader, keyword in LOWER_BOUNDS)
    requires writer.JNull? || writer.JNumber?
    requires BoundHolds(keyword, writer, value)
    ensures BoundHolds(keyword, reader, value)
  {
  }

  // ---------------------------------------------------------------------
  // Branches of `oneOf`

  /** A schema without references means the same beside any components. */
  lemma {:induction false} SelfContained(one: Side, other: Side, fuel: nat, schema: Json, value: Json)
    requires References(schema) == {}
    requires other == one.(components := other.components)
    ensures Admits(one, fuel, schema, value) ==> Admits(other, fuel, schema, value)
    decreases schema, 2
  {
    if Admits(one, fuel, schema, value) {
      forall name
        ensures !RefersTo(schema, name)
      {
        assert name !in OwnReferences(schema);
      }
      BranchesSelfContained(one, other, fuel, schema, value);
      OneSelfContained(one, other, fuel, schema, value);
      if value.JObject? {
        forall name | name in value.members
          ensures MemberAdmits(other, fuel, schema, name, value.members[name])
        {
          MemberSelfContained(one, other, fuel, schema, name, value.members[name]);
        }
      }
      if value.JArray? {
        ItemsSelfContained(one, other, fuel, schema, value.items);
      }
    }
  }

  lemma {:induction false} BranchesSelfContained(one: Side, other: Side, fuel: nat, schema: Json, value: Json)
    requires References(schema) == {}
    requires other == one.(components := other.components)
    ensures BranchesAdmit(one, fuel, schema, value) ==> BranchesAdmit(other, fuel, schema, value)
    decreases schema, 1
  {
    forall keyword, branch | keyword in LISTS && branch in Items(Member(schema, keyword))
      ensures Admits(one, fuel, branch, value) ==> Admits(other, fuel, branch, value)
    {
      BranchSelfContained(one, other, fuel, schema, keyword, branch, value);
    }
    assert LISTS[0] == "allOf" && LISTS[1] == "anyOf";
  }

  lemma {:induction false} BranchSelfContained(one: Side, other: Side, fuel: nat, schema: Json, keyword: string,
                                               branch: Json, value: Json)
    requires References(schema) == {} && branch in Items(Member(schema, keyword))
    requires other == one.(components := other.components)
    ensures Admits(one, fuel, branch, value) ==> Admits(other, fuel, branch, value)
    decreases schema, 0
  {
    ReferencesOfMember(schema, keyword);
    ReferencesOfItem(Member(schema, keyword), branch);
    SelfContained(one, other, fuel, branch, value);
  }

  lemma {:induction false} OneSelfContained(one: Side, other: Side, fuel: nat, schema: Json, value: Json)
    requires References(schema) == {}
    requires other == one.(components := other.components)
    ensures OneAdmits(one, fuel, schema, value) ==> OneAdmits(other, fuel, schema, value)
    decreases schema, 1
  {
    var branches := Items(Member(schema, "oneOf"));
    if Member(schema, "oneOf").JArray? && fuel > 0 && OneAdmits(one, fuel, schema, value) {
      var i :| 0 <= i < |branches| && Admits(one, fuel, branches[i], value) && NoOther(one, fuel, schema, value, i);
      BranchSelfContained(one, other, fuel, schema, "oneOf", branches[i], value);
      forall j | 0 <= j < |branches| && j != i
        ensures !Admits(other.(mode := Reading), fuel, branches[j], value)
      {
        BranchSelfContained(other.(mode := Reading), one.(mode := Reading), fuel, schema, "oneOf", branches[j], value);
      }
      assert NoOther(other, fuel, schema, value, i);
    }
  }

  lemma {:induction false} MemberSelfContained(one: Side, other: Side, fuel: nat, schema: Json, name: string,
                                               value: Json)
    requires References(schema) == {}
    requires other == one.(components := other.components)
    ensures MemberAdmits(one, fuel, schema, name, value) ==> MemberAdmits(other, fuel, schema, name, value)
    decreases schema, 1
  {
    if name in Properties(schema) {
      ReferencesOfProperty(schema, name);
      SelfContained(one, other, fuel, Properties(schema)[name], value);
    } else {
      ExtraSelfContained(one, other, fuel, schema, value);
    }
  }

  lemma {:induction false} ExtraSelfContained(one: Side, other: Side, fuel: nat, schema: Json, value: Json)
    requires References(schema) == {}
    requires other == one.(components := other.components)
    ensures ExtraAdmits(one, fuel, schema, value) ==> ExtraAdmits(other, fuel, schema, value)
    decreases schema, 0
  {
    if Member(schema, "additionalProperties").JObject? {
      ReferencesOfMember(schema, "additionalProperties");
      SelfContained(one, other, fuel, Member(schema, "additionalProperties"), value);
    }
  }

  lemma {:induction false} ItemsSelfContained(one: Side, other: Side, fuel: nat, schema: Json, items: seq<Json>)
    requires References(schema) == {}
    requires other == one.(components := other.components)
    ensures ItemsAdmit(one, fuel, schema, items) ==> ItemsAdmit(other, fuel, schema, items)
    decreases schema, 1
  {
    var each := Member(schema, "items");
    if each.JObject? {
      ReferencesOfMember(schema, "items");
      forall item | item in items {
        SelfContained(one, other, fuel, each, item);
      }
    }
  }

  lemma AdmittedIsAllowed(side: Side, fuel: nat, schema: Json, value: Json)
    requires Admits(side, fuel, schema, value)
    ensures LocallyAdmits(side.oracle, schema, value) && Allows(schema, value)
  {
  }

  lemma TagHolds(side: Side, fuel: nat, schema: Json, name: string, value: Json)
    requires IsTag(schema, name) && Admits(side, fuel, schema, value)
    ensures value.JObject? && name in value.members && Allows(Properties(schema)[name], value.members[name])
  {
    AdmittedIsAllowed(side, fuel, schema, value);
    assert IsOfType("object", value);
    assert MemberAdmits(side, fuel, schema, name, value.members[name]);
    AdmittedIsAllowed(side, fuel, Properties(schema)[name], value.members[name]);
  }

  /** A branch admits only what the schema it stands for admits. */
  lemma ResolvedAdmits(side: Side, fuel: nat, branch: Json, value: Json) returns (left: nat)
    requires 0 < fuel && Admits(side, fuel, branch, value)
    ensures Admits(side, left, Resolved(side.components, branch), value)
  {
    left := fuel;
    var reference := Member(branch, "$ref");
    if reference.JString? && REFERENCE_PREFIX <= reference.text {
      assert RefersTo(branch, Target(reference.text));
      left := fuel - 1;
    }
  }

  /** Two branches with different tags take no common value. */
  lemma SeparatedExclude(side: Side, fuel: nat, one: Json, other: Json, value: Json)
    requires 0 < fuel && Separated(side.components, one, other) && Admits(side, fuel, one, value)
    ensures !Admits(side, fuel, other, value)
  {
    var left, right := Resolved(side.components, one), Resolved(side.components, other);
    var name :| IsTag(left, name) && IsTag(right, name) && Exclusive(Properties(left)[name], Properties(right)[name]);
    if Admits(side, fuel, other, value) {
      var leftFuel := ResolvedAdmits(side, fuel, one, value);
      var rightFuel := ResolvedAdmits(side, fuel, other, value);
      TagHolds(side, leftFuel, left, name, value);
      TagHolds(side, rightFuel, right, name, value);
    }
  }

  /** Whatever is writable on one side is readable on the other, for every
      value, every fuel and every pair of possibly cyclic component graphs. */
  lemma {:induction false} WritableIsReadable(s: Setting, fuel: nat, baseline: Json, current: Json, value: Json)
    requires s.Valid() && s.Related(baseline, current)
    requires Admits(s.Write(), fuel, Writer(s.direction, baseline, current), value)
    ensures Admits(s.Read(), fuel, Reader(s.direction, baseline, current), value)
    decreases fuel, baseline, 3
  {
    LocallySound(s, baseline, current, value);
    BranchesSound(s, fuel, baseline, current, value);
    OneSound(s, fuel, baseline, current, value);
    forall name | RefersTo(Reader(s.direction, baseline, current), name)
      ensures RefersTo(Writer(s.direction, baseline, current), name)
    {
      SharedReference(s, baseline, current, name);
    }
    if fuel > 0 {
      forall name | RefersTo(Reader(s.direction, baseline, current), name) {
        ReferenceSound(s, fuel - 1, baseline, current, value, name);
      }
    }
    if value.JObject? {
      forall name | name in value.members
        ensures MemberAdmits(s.Read(), fuel, Reader(s.direction, baseline, current), name, value.members[name])
      {
        MemberSound(s, fuel, baseline, current, name, value.members[name]);
      }
    }
    if value.JArray? {
      ItemsSound(s, fuel, baseline, current, value.items);
    }
  }

  /** Lists of branches are equal on both sides when the reader has them. */
  lemma SharedBranches(s: Setting, baseline: Json, current: Json, keyword: string, branch: Json)
    requires s.Related(baseline, current) && keyword in LISTS
    requires branch in Items(Member(Reader(s.direction, baseline, current), keyword))
    ensures Member(baseline, keyword) == Member(current, keyword)
    ensures s.Related(branch, branch)
  {
    assert keyword in COMBINATORS;
    ReferencesOfMember(baseline, keyword);
    ReferencesOfItem(Member(baseline, keyword), branch);
    SchemaOrder.Reflexive(branch, s.direction);
    ComparableWithItself(branch, s.direction);
  }

  lemma {:induction false} BranchSound(s: Setting, fuel: nat, baseline: Json, current: Json, keyword: string,
                                       branch: Json, value: Json)
    requires s.Valid() && s.Related(baseline, current) && keyword in LISTS
    requires branch in Items(Member(Reader(s.direction, baseline, current), keyword))
    ensures Member(baseline, keyword) == Member(current, keyword)
    ensures Admits(s.Write(), fuel, branch, value) ==> Admits(s.Read(), fuel, branch, value)
    decreases fuel, baseline, 0
  {
    SharedBranches(s, baseline, current, keyword, branch);
    if Admits(s.Write(), fuel, branch, value) {
      WritableIsReadable(s, fuel, branch, branch, value);
    }
  }

  lemma {:induction false} BranchesSound(s: Setting, fuel: nat, baseline: Json, current: Json, value: Json)
    requires s.Valid() && s.Related(baseline, current)
    requires BranchesAdmit(s.Write(), fuel, Writer(s.direction, baseline, current), value)
    ensures BranchesAdmit(s.Read(), fuel, Reader(s.direction, baseline, current), value)
    decreases fuel, baseline, 1
  {
    var reader := Reader(s.direction, baseline, current);
    forall branch | branch in Items(Member(reader, "allOf")) {
      BranchSound(s, fuel, baseline, current, "allOf", branch, value);
    }
    forall branch | branch in Items(Member(reader, "anyOf")) {
      BranchSound(s, fuel, baseline, current, "anyOf", branch, value);
    }
    if Member(reader, "anyOf").JArray? {
      assert "anyOf" in COMBINATORS;
      assert KeptOrDropped(Member(Writer(s.direction, baseline, current), "anyOf"), Member(reader, "anyOf"));
    }
  }

  lemma {:induction false} OneSound(s: Setting, fuel: nat, baseline: Json, current: Json, value: Json)
    requires s.Valid() && s.Related(baseline, current)
    requires OneAdmits(s.Write(), fuel, Writer(s.direction, baseline, current), value)
    ensures OneAdmits(s.Read(), fuel, Reader(s.direction, baseline, current), value)
    decreases fuel, baseline, 2
  {
    var writer, reader := Writer(s.direction, baseline, current), Reader(s.direction, baseline, current);
    if Member(reader, "oneOf").JArray? && fuel > 0 {
      assert LISTS[2] == "oneOf";
      OneOfKept(s, baseline, current);
      var branches := Items(Member(reader, "oneOf"));
      var i :| 0 <= i < |branches| && Admits(s.Write(), fuel, branches[i], value)
        && NoOther(s.Write(), fuel, writer, value, i);
      BranchSound(s, fuel, baseline, current, "oneOf", branches[i], value);
      NoOtherSound(s, fuel, baseline, current, value, i);
    } else if Member(reader, "oneOf").JArray? {
      OneOfKept(s, baseline, current);
    }
  }

  lemma OneOfKept(s: Setting, baseline: Json, current: Json)
    requires s.Related(baseline, current) && Member(Reader(s.direction, baseline, current), "oneOf").JArray?
    ensures Member(baseline, "oneOf") == Member(current, "oneOf")
  {
    assert COMBINATORS[3] == "oneOf";
  }

  /** No branch but the intended one takes the value, either because it means
      the same on both sides or because its tag is another one. */
  lemma NoOtherSound(s: Setting, fuel: nat, baseline: Json, current: Json, value: Json, i: int)
    requires s.Related(baseline, current) && Member(Reader(s.direction, baseline, current), "oneOf").JArray? && 0 < fuel
    requires NoOther(s.Write(), fuel, Writer(s.direction, baseline, current), value, i)
    requires 0 <= i < |Items(Member(baseline, "oneOf"))|
    requires Admits(s.Read(), fuel, Items(Member(Reader(s.direction, baseline, current), "oneOf"))[i], value)
    ensures NoOther(s.Read(), fuel, Reader(s.direction, baseline, current), value, i)
  {
    OneOfKept(s, baseline, current);
    var branches := Items(Member(Reader(s.direction, baseline, current), "oneOf"));
    DistinguishedForReader(s, baseline, current);
    forall j | 0 <= j < |branches| && j != i
      ensures !Admits(s.Read(), fuel, branches[j], value)
    {
      OtherExcluded(s.Write(), s.Read(), fuel, branches, i, j, value);
    }
  }

  lemma DistinguishedForReader(s: Setting, baseline: Json, current: Json)
    requires s.Related(baseline, current)
    ensures Distinguished(s.Read().components, Items(Member(Reader(s.direction, baseline, current), "oneOf")))
  {
  }

  lemma OtherExcluded(writer: Side, reader: Side, fuel: nat, branches: seq<Json>, i: int, j: int, value: Json)
    requires reader == writer.(components := reader.components, mode := Reading) && 0 < fuel
    requires 0 <= i < |branches| && 0 <= j < |branches| && i != j && Distinguished(reader.components, branches)
    requires Admits(reader, fuel, branches[i], value) && !Admits(writer.(mode := Reading), fuel, branches[j], value)
    ensures !Admits(reader, fuel, branches[j], value)
  {
    if References(branches[j]) == {} {
      SelfContained(reader, writer.(mode := Reading), fuel, branches[j], value);
    } else {
      SeparatedExclude(reader, fuel, branches[i], branches[j], value);
    }
  }

  /** A `$ref` the reader follows is the writer's own and was compared. */
  lemma SharedReference(s: Setting, baseline: Json, current: Json, name: string)
    requires s.Valid() && s.Related(baseline, current)
    requires RefersTo(Reader(s.direction, baseline, current), name)
    ensures RefersTo(Writer(s.direction, baseline, current), name)
    ensures name in s.roles && name in s.before && name in s.after
    ensures s.Related(s.before[name], s.after[name])
  {
    assert KeptOrDropped(Member(Writer(s.direction, baseline, current), "$ref"),
                         Member(Reader(s.direction, baseline, current), "$ref")) by {
      assert EQUALITY_KEYWORDS[2] == "$ref";
    }
    assert RefersTo(baseline, name);
    assert name in OwnReferences(baseline) && name in References(baseline);
  }

  /** One step through a `$ref`: the only place where fuel is spent. */
  lemma {:induction false} ReferenceSound(s: Setting, fuel: nat, baseline: Json, current: Json, value: Json,
                                          name: string)
    requires s.Valid() && s.Related(baseline, current)
    requires RefersTo(Reader(s.direction, baseline, current), name)
    ensures Admits(s.Write(), fuel, Get(s.Write().components, name), value) ==>
              Admits(s.Read(), fuel, Get(s.Read().components, name), value)
    decreases fuel + 1, baseline, 0
  {
    SharedReference(s, baseline, current, name);
    var before, after := s.before[name], s.after[name];
    assert Get(s.Write().components, name) == Writer(s.direction, before, after);
    assert Get(s.Read().components, name) == Reader(s.direction, before, after);
    if Admits(s.Write(), fuel, Writer(s.direction, before, after), value) {
      WritableIsReadable(s, fuel, before, after, value);
    }
  }

  lemma {:induction false} PropertySound(s: Setting, fuel: nat, baseline: Json, current: Json, name: string,
                                         value: Json)
    requires s.Valid() && s.Related(baseline, current)
    requires name in Properties(baseline) && name in Properties(current)
    ensures Admits(s.Write(), fuel, Writer(s.direction, Properties(baseline)[name], Properties(current)[name]),
                   value) ==>
              Admits(s.Read(), fuel, Reader(s.direction, Properties(baseline)[name], Properties(current)[name]), value)
    decreases fuel, baseline, 0
  {
    PropertyRelated(s, baseline, current, name);
    if Admits(s.Write(), fuel, Writer(s.direction, Properties(baseline)[name], Properties(current)[name]), value) {
      WritableIsReadable(s, fuel, Properties(baseline)[name], Properties(current)[name], value);
    }
  }

  /** The reader takes any extra member, or the writer sends none. */
  predicate LooseExtra(writer: Json, reader: Json) {
    reader.JNull? || reader == JBool(true) || writer == JBool(false)
  }

  lemma {:induction false} ExtraSound(s: Setting, fuel: nat, baseline: Json, current: Json, value: Json)
    requires s.Valid() && s.Related(baseline, current)
    requires ExtraAdmits(s.Write(), fuel, Writer(s.direction, baseline, current), value)
    ensures ExtraAdmits(s.Read(), fuel, Reader(s.direction, baseline, current), value)
    decreases fuel, baseline, 0
  {
    ExtraMember(s, baseline, current);
    var oldExtra, newExtra := Member(baseline, "additionalProperties"), Member(current, "additionalProperties");
    if oldExtra.JObject? && newExtra.JObject? {
      WritableIsReadable(s, fuel, oldExtra, newExtra, value);
    }
  }

  lemma {:induction false} SharedMemberSound(s: Setting, fuel: nat, baseline: Json, current: Json, name: string,
                                             value: Json)
    requires s.Valid() && s.Related(baseline, current)
    requires name in Properties(baseline) && name in Properties(current)
    ensures MemberAdmits(s.Write(), fuel, Writer(s.direction, baseline, current), name, value) ==>
              MemberAdmits(s.Read(), fuel, Reader(s.direction, baseline, current), name, value)
    decreases fuel, baseline, 1
  {
    PropertySound(s, fuel, baseline, current, name, value);
  }

  lemma {:induction false} UndeclaredMemberSound(s: Setting, fuel: nat, baseline: Json, current: Json, name: string,
                                                 value: Json)
    requires s.Valid() && s.Related(baseline, current)
    requires name !in Properties(baseline) && name !in Properties(current)
    ensures MemberAdmits(s.Write(), fuel, Writer(s.direction, baseline, current), name, value) ==>
              MemberAdmits(s.Read(), fuel, Reader(s.direction, baseline, current), name, value)
    decreases fuel, baseline, 1
  {
    if ExtraAdmits(s.Write(), fuel, Writer(s.direction, baseline, current), value) {
      ExtraSound(s, fuel, baseline, current, value);
    }
  }

  lemma {:induction false} MemberSound(s: Setting, fuel: nat, baseline: Json, current: Json, name: string, value: Json)
    requires s.Valid() && s.Related(baseline, current)
    ensures MemberAdmits(s.Write(), fuel, Writer(s.direction, baseline, current), name, value) ==>
              MemberAdmits(s.Read(), fuel, Reader(s.direction, baseline, current), name, value)
    decreases fuel, baseline, 2
  {
    if name in Properties(baseline) && name in Properties(current) {
      SharedMemberSound(s, fuel, baseline, current, name, value);
    } else if name in Properties(baseline) || name in Properties(current) {
      AddedSound(s, fuel, baseline, current, name, value);
    } else {
      UndeclaredMemberSound(s, fuel, baseline, current, name, value);
    }
  }

  lemma PropertyRelated(s: Setting, baseline: Json, current: Json, name: string)
    requires s.Related(baseline, current)
    requires name in Properties(baseline) && name in Properties(current)
    ensures s.Related(Properties(baseline)[name], Properties(current)[name])
  {
    ReferencesOfProperty(baseline, name);
  }

  /** A property on one side only was added where the old side cannot notice. */
  lemma OneSidedProperty(s: Setting, baseline: Json, current: Json, name: string)
    requires s.Related(baseline, current)
    requires (name in Properties(baseline)) != (name in Properties(current))
    ensures name in Properties(current) && name !in Properties(baseline)
    ensures MayAdd(baseline, Properties(current)[name], s.direction)
    ensures Member(baseline, "additionalProperties").JObject? ==>
              s.Related(Member(baseline, "additionalProperties"), Properties(current)[name])
  {
    if Member(baseline, "additionalProperties").JObject? {
      assert NESTED_KEYWORDS[1] == "additionalProperties";
      ReferencesOfMember(baseline, "additionalProperties");
    }
  }

  lemma NotSent(side: Side, fuel: nat, baseline: Json, added: Json, value: Json)
    requires side.mode.Writing? && !Member(baseline, "additionalProperties").JObject?
             && MayAdd(baseline, added, Request)
    ensures !ExtraAdmits(side, fuel, baseline, value)
  {
  }

  lemma Ignored(side: Side, fuel: nat, baseline: Json, added: Json, value: Json)
    requires side.mode.Reading? && !Member(baseline, "additionalProperties").JObject?
             && MayAdd(baseline, added, Response)
    ensures ExtraAdmits(side, fuel, baseline, value)
  {
  }

  lemma ExtraIs(side: Side, fuel: nat, schema: Json, value: Json)
    requires Member(schema, "additionalProperties").JObject?
    ensures ExtraAdmits(side, fuel, schema, value) <==>
              Admits(side, fuel, Member(schema, "additionalProperties"), value)
  {
  }

  lemma {:induction false} AddedBesideExtra(s: Setting, fuel: nat, baseline: Json, current: Json, name: string,
                                            value: Json)
    requires s.Valid() && s.Related(baseline, current) && Member(baseline, "additionalProperties").JObject?
    requires name in Properties(current) && name !in Properties(baseline)
    requires s.Related(Member(baseline, "additionalProperties"), Properties(current)[name])
    ensures s.direction.Request? && ExtraAdmits(s.Write(), fuel, baseline, value) ==>
              Admits(s.Read(), fuel, Properties(current)[name], value)
    ensures s.direction.Response? && Admits(s.Write(), fuel, Properties(current)[name], value) ==>
              ExtraAdmits(s.Read(), fuel, baseline, value)
    decreases fuel, baseline, 0
  {
    var extra, added := Member(baseline, "additionalProperties"), Properties(current)[name];
    ExtraIs(s.Write(), fuel, baseline, value);
    ExtraIs(s.Read(), fuel, baseline, value);
    if Admits(s.Write(), fuel, Writer(s.direction, extra, added), value) {
      WritableIsReadable(s, fuel, extra, added, value);
    }
  }

  /** Such a property is no trouble: an old client does not send it, or ignores
      it, or exchanged it as an additional property all along. */
  lemma {:induction false} AddedSound(s: Setting, fuel: nat, baseline: Json, current: Json, name: string, value: Json)
    requires s.Valid() && s.Related(baseline, current)
    requires (name in Properties(baseline)) != (name in Properties(current))
    ensures MemberAdmits(s.Write(), fuel, Writer(s.direction, baseline, current), name, value) ==>
              MemberAdmits(s.Read(), fuel, Reader(s.direction, baseline, current), name, value)
    decreases fuel, baseline, 1
  {
    OneSidedProperty(s, baseline, current, name);
    if Member(baseline, "additionalProperties").JObject? {
      AddedBesideExtra(s, fuel, baseline, current, name, value);
    } else if s.direction.Request? {
      NotSent(s.Write(), fuel, baseline, Properties(current)[name], value);
    } else {
      Ignored(s.Read(), fuel, baseline, Properties(current)[name], value);
    }
  }

  /** How the two sides of `items` and `additionalProperties` can differ. */
  ghost predicate ChildRelated(s: Setting, baseline: Json, current: Json) {
    && (baseline.JNull? || baseline.JBool? || baseline.JObject?)
    && (current.JNull? || current.JBool? || current.JObject?)
    && if baseline.JObject? && current.JObject? then s.Related(baseline, current)
       else LooseChildCompatible(baseline, current, s.direction) &&
            (s.direction.Request? || SafeResponseChild(baseline, current))
  }

  lemma NestedRelated(s: Setting, baseline: Json, current: Json, keyword: string)
    requires s.Related(baseline, current) && keyword in NESTED_KEYWORDS
    ensures ChildRelated(s, Member(baseline, keyword), Member(current, keyword))
  {
    ReferencesOfMember(baseline, keyword);
  }

  lemma ExtraMember(s: Setting, baseline: Json, current: Json)
    requires s.Related(baseline, current)
    ensures var oldExtra, newExtra := Member(baseline, "additionalProperties"), Member(current, "additionalProperties");
            if oldExtra.JObject? && newExtra.JObject? then s.Related(oldExtra, newExtra)
            else LooseExtra(Writer(s.direction, oldExtra, newExtra), Reader(s.direction, oldExtra, newExtra))
  {
    assert NESTED_KEYWORDS[1] == "additionalProperties";
    NestedRelated(s, baseline, current, "additionalProperties");
  }

  lemma {:induction false} ItemsSound(s: Setting, fuel: nat, baseline: Json, current: Json, items: seq<Json>)
    requires s.Valid() && s.Related(baseline, current)
    requires ItemsAdmit(s.Write(), fuel, Writer(s.direction, baseline, current), items)
    ensures ItemsAdmit(s.Read(), fuel, Reader(s.direction, baseline, current), items)
    decreases fuel, baseline, 0
  {
    assert NESTED_KEYWORDS[0] == "items";
    NestedRelated(s, baseline, current, "items");
    var oldEach, newEach := Member(baseline, "items"), Member(current, "items");
    if oldEach.JObject? && newEach.JObject? {
      forall item | item in items
        ensures Admits(s.Read(), fuel, Reader(s.direction, oldEach, newEach), item)
      {
        WritableIsReadable(s, fuel, oldEach, newEach, item);
      }
    }
  }
}
