/** Why the fragment of the soundness theorem is needed: outside it the
    comparison calls a change compatible that an old client notices. */
module SoundnessLimits {
  import opened Json
  import opened Schema
  import opened Meaning
  import opened SmallSchemas
  import opened SchemaOrder

  const ZERO := JNumber(0.0)
  const ONE := JNumber(1.0)

  // ---------------------------------------------------------------------
  // Added properties

  /** A schema with at most the two keywords that talk about object members. */
  function Members(extra: Json, properties: Object): Json {
    WithProperties(Only("additionalProperties", extra), properties)
  }

  function WithProperties(schema: Json, properties: Object): Json {
    With(schema, "properties", JObject(properties))
  }

  /** Adding an optional property is never called incompatible. */
  lemma AddedCompatible(schema: Json, name: string, added: Json, direction: Direction)
    requires Required(schema) == {}
    ensures SchemaCompatible(WithProperties(schema, map[]), WithProperties(schema, map[name := added]), direction)
  {
    var before, after := WithProperties(schema, map[]), WithProperties(schema, map[name := added]);
    WithMembers(schema, "properties", JObject(map[]));
    WithMembers(schema, "properties", JObject(map[name := added]));
    KeywordsOfVariants(schema, "properties", JObject(map[]), JObject(map[name := added]), direction);
    assert Properties(before) == map[] && Required(after) == {};
    forall keyword | keyword in NESTED_KEYWORDS
      ensures Member(before, keyword) == Member(after, keyword)
    {
    }
    SharedChildren(before, after, direction);
    Parts(before, after, direction);
  }

  lemma MembersSay(extra: Json, properties: Object)
    ensures Member(Members(extra, properties), "additionalProperties") == extra
    ensures Properties(Members(extra, properties)) == properties
  {
    WithMembers(Only("additionalProperties", extra), "properties", JObject(properties));
  }

  /** An optional request property is added next to `additionalProperties`: an
      old client may send what the new property rejects. */
  lemma AddedRequestPropertyBreaks(side: Side, fuel: nat, name: string)
    ensures var baseline, current := Members(OneOf([ZERO]), map[]), Members(OneOf([ZERO]), map[name := OneOf([ONE])]);
            && SchemaCompatible(baseline, current, Request)
            && MemberAdmits(side.(mode := Writing), fuel, baseline, name, ZERO)
            && !MemberAdmits(side.(mode := Reading), fuel, current, name, ZERO)
  {
    var extra := OneOf([ZERO]);
    MemberOfOnly("additionalProperties", extra);
    AddedCompatible(Only("additionalProperties", extra), name, OneOf([ONE]), Request);
    assert Admits(side.(mode := Writing), fuel, extra, ZERO) by {
      OneOfAdmits(side.(mode := Writing), fuel, [ZERO], ZERO);
      assert [ZERO][0] == ZERO;
    }
    assert !Admits(side.(mode := Reading), fuel, OneOf([ONE]), ZERO) by {
      OneOfAdmits(side.(mode := Reading), fuel, [ONE], ZERO);
    }
    MembersMean(side, fuel, extra, name, OneOf([ONE]), ZERO);
  }

  lemma MembersMean(side: Side, fuel: nat, extra: Json, name: string, added: Json, value: Json)
    requires extra.JObject?
    ensures MemberAdmits(side.(mode := Writing), fuel, Members(extra, map[]), name, value) <==>
            Admits(side.(mode := Writing), fuel, extra, value)
    ensures MemberAdmits(side.(mode := Reading), fuel, Members(extra, map[name := added]), name, value) <==>
            Admits(side.(mode := Reading), fuel, added, value)
  {
    MembersSay(extra, map[]);
    MembersSay(extra, map[name := added]);
  }

  /** A closed response gains a property: an old client that takes
      `additionalProperties: false` at its word refuses it. */
  lemma ClosedResponsePropertyBreaks(side: Side, fuel: nat, name: string, added: Json, value: Json)
    requires Admits(side.(mode := Writing), fuel, added, value)
    ensures var baseline, current := Members(JBool(false), map[]), Members(JBool(false), map[name := added]);
            && SchemaCompatible(baseline, current, Response)
            && MemberAdmits(side.(mode := Writing), fuel, current, name, value)
            && !MemberAdmits(side.(mode := Reading), fuel, baseline, name, value)
  {
    MemberOfOnly("additionalProperties", JBool(false));
    AddedCompatible(Only("additionalProperties", JBool(false)), name, added, Response);
    MembersSay(JBool(false), map[]);
    MembersSay(JBool(false), map[name := added]);
  }

  // ---------------------------------------------------------------------
  // Declarations in several places

  const VALUE := JObject(map["n" := ZERO])
  const BRANCHED := Only("anyOf", JArray([Holding(map["n" := ANYTHING])]))

  lemma BranchedSays(properties: Object)
    ensures forall keyword :: keyword != "properties" ==>
              Member(WithProperties(BRANCHED, properties), keyword) == Member(BRANCHED, keyword)
    ensures forall keyword :: Member(BRANCHED, keyword) == if keyword == "anyOf"
            then JArray([Holding(map["n" := ANYTHING])]) else JNull
    ensures Properties(WithProperties(BRANCHED, properties)) == properties
  {
    WithMembers(BRANCHED, "properties", JObject(properties));
    MemberOfOnly("anyOf", JArray([Holding(map["n" := ANYTHING])]));
  }

  lemma BranchAdmitsValue(side: Side, fuel: nat)
    ensures Admits(side, fuel, Holding(map["n" := ANYTHING]), VALUE)
  {
    AnythingAdmits(side, fuel, ZERO);
    assert MemberHeld(side, fuel, map["n" := ANYTHING], "n", ZERO);
    HoldingAdmits(side, fuel, map["n" := ANYTHING], VALUE);
  }

  lemma BranchedWritable(side: Side, fuel: nat)
    requires side.mode.Writing?
    ensures Admits(side, fuel, WithProperties(BRANCHED, map[]), VALUE)
  {
    var schema, branches := WithProperties(BRANCHED, map[]), [Holding(map["n" := ANYTHING])];
    BranchedSays(map[]);
    BranchAdmitsValue(side, fuel);
    assert NamesSchemas("anyOf") && NamesSchemas("properties") by {
      assert LISTS[1] == "anyOf";
    }
    LocallySilent(side.oracle, schema, VALUE);
    assert BranchesAdmit(side, fuel, schema, VALUE) by {
      assert branches[0] in branches;
    }
    assert ExtraAdmits(side, fuel, schema, ZERO);
    assert MemberAdmits(side, fuel, schema, "n", ZERO);
  }

  /** A request property is added beside a branch that declares it already. */
  lemma AddedPropertyBesideBranchBreaks(side: Side, fuel: nat)
    ensures var baseline, current := WithProperties(BRANCHED, map[]),
            WithProperties(BRANCHED, map["n" := OneOf([ONE])]);
            && SchemaCompatible(baseline, current, Request)
            && Admits(side.(mode := Writing), fuel, baseline, VALUE)
            && !Admits(side.(mode := Reading), fuel, current, VALUE)
  {
    var current := WithProperties(BRANCHED, map["n" := OneOf([ONE])]);
    BranchedSays(map["n" := OneOf([ONE])]);
    AddedCompatible(BRANCHED, "n", OneOf([ONE]), Request);
    BranchedWritable(side.(mode := Writing), fuel);
    OneOfAdmits(side.(mode := Reading), fuel, [ONE], ZERO);
    assert !MemberAdmits(side.(mode := Reading), fuel, current, "n", VALUE.members["n"]);
  }

  // ---------------------------------------------------------------------
  // Children, branches and keywords

  /** A response list that could hold nothing may now hold anything; the
      comparison calls the change compatible, and an old client breaks. */
  lemma BooleanResponseChildBreaks(side: Side, fuel: nat)
    ensures var baseline, current := OfItems(JBool(false)), OfItems(JBool(true));
            && SchemaCompatible(baseline, current, Response)
            && ItemsAdmit(side.(mode := Writing), fuel, current, [JNull])
            && !ItemsAdmit(side.(mode := Reading), fuel, baseline, [JNull])
  {
    OnlyItems(JBool(false), JBool(true), Response);
    assert Member(OfItems(JBool(false)), "items") == JBool(false)
           && Member(OfItems(JBool(true)), "items") == JBool(true);
  }

  /** The comparison never reads `const`: adding it is no incompatible change in
      either direction, whatever value it rules out. */
  lemma UncomparedKeywordBreaks(side: Side, fuel: nat, constant: Json, value: Json, direction: Direction)
    requires !constant.JNull? && !value.JObject? && value != constant
    ensures var current := Only("const", constant);
            && SchemaCompatible(ANYTHING, current, direction)
            && Admits(side, fuel, ANYTHING, value)
            && !Admits(side, fuel, current, value)
  {
    var current := Only("const", constant);
    MemberOfOnly("const", constant);
    ConstCompatible(constant, direction);
    AnythingAdmits(side, fuel, value);
    LocalKeywords("const");
    JudgedLocally(side, fuel, current, value);
    assert !Allows(current, value);
  }

  lemma ConstCompatible(constant: Json, direction: Direction)
    ensures SchemaCompatible(ANYTHING, Only("const", constant), direction)
  {
    var current := Only("const", constant);
    MemberOfOnly("const", constant);
    assert forall keyword :: Member(ANYTHING, keyword) == JNull;
    forall keyword | keyword in EQUALITY_KEYWORDS + LOWER_BOUNDS + UPPER_BOUNDS + COMBINATORS + ["required"]
      ensures Member(ANYTHING, keyword) == Member(current, keyword)
    {
      NotConst(keyword);
    }
    SameKeywords(ANYTHING, current, direction);
    SharedProperties(ANYTHING, current, direction);
    SharedChildren(ANYTHING, current, direction);
    Parts(ANYTHING, current, direction);
  }

  lemma NotConst(keyword: string)
    requires keyword in EQUALITY_KEYWORDS + LOWER_BOUNDS + UPPER_BOUNDS + COMBINATORS + ["required"]
    ensures keyword != "const"
  {
  }

  const BRANCHES: seq<Json> := [Link("A"), Link("B")]

  function Two(one: Json, other: Json): Object {
    map["A" := one, "B" := other]
  }

  lemma LinkedAdmits(side: Side, fuel: nat, name: string, values: seq<Json>, value: Json)
    requires 0 < fuel && !value.JObject? && Get(side.components, name) == OneOf(values)
    ensures Admits(side, fuel, Link(name), value) <==> value in values
    ensures Admits(side.(mode := Reading), fuel, Link(name), value) <==> value in values
  {
    LinkAdmits(side, fuel, name, value);
    LinkAdmits(side.(mode := Reading), fuel, name, value);
    OneOfAdmits(side, fuel - 1, values, value);
    OneOfAdmits(side.(mode := Reading), fuel - 1, values, value);
  }

  lemma OtherOfTwo(side: Side, fuel: nat, value: Json)
    ensures Items(Member(Choice(BRANCHES), "oneOf")) == BRANCHES && Member(Choice(BRANCHES), "oneOf").JArray?
    ensures NoOther(side, fuel, Choice(BRANCHES), value, 0) <==> !Admits(side.(mode := Reading), fuel, Link("B"), value)
    ensures NoOther(side, fuel, Choice(BRANCHES), value, 1) <==> !Admits(side.(mode := Reading), fuel, Link("A"), value)
  {
    MemberOfOnly("oneOf", JArray(BRANCHES));
    var branches := Items(Member(Choice(BRANCHES), "oneOf"));
    assert branches[0] == Link("A") && branches[1] == Link("B") && |branches| == 2;
  }

  /** A value of `oneOf` over two references: exactly one target admits it. */
  lemma TwoAdmit(side: Side, fuel: nat, one: seq<Json>, other: seq<Json>, value: Json)
    requires 0 < fuel && !value.JObject? && side.components == Two(OneOf(one), OneOf(other))
    ensures Admits(side, fuel, Choice(BRANCHES), value) <==> ((value in one) != (value in other))
  {
    ChoiceAdmits(side, fuel, BRANCHES, value);
    LinkedAdmits(side, fuel, "A", one, value);
    LinkedAdmits(side, fuel, "B", other, value);
    OtherOfTwo(side, fuel, value);
    assert BRANCHES[0] == Link("A") && BRANCHES[1] == Link("B");
    if (value in one) != (value in other) {
      var i := if value in one then 0 else 1;
      assert Admits(side, fuel, BRANCHES[i], value) && NoOther(side, fuel, Choice(BRANCHES), value, i);
    }
  }

  /** A `oneOf` over references does not change, but one of its targets is
      widened. Nothing incompatible is reported, and a request that meant the
      other branch is rejected, exactly when the two targets now overlap in it. */
  lemma WidenedBranchBreaks(side: Side, fuel: nat, before: seq<Json>, after: seq<Json>, other: seq<Json>, value: Json)
    requires 0 < fuel && !value.JObject? && Contained(before, after)
    requires Admits(side.(mode := Writing, components := Two(OneOf(before), OneOf(other))), fuel, Choice(BRANCHES),
                    value)
    ensures SchemaCompatible(OneOf(before), OneOf(after), Request)
            && SchemaCompatible(Choice(BRANCHES), Choice(BRANCHES), Request)
    ensures Admits(side.(mode := Reading, components := Two(OneOf(after), OneOf(other))), fuel, Choice(BRANCHES),
                   value) <==>
            !(value in after && value in other)
  {
    assert With(ANYTHING, "enum", JArray(before)) == OneOf(before)
           && With(ANYTHING, "enum", JArray(after)) == OneOf(after);
    OnlyEnum(ANYTHING, JArray(before), JArray(after), Request);
    Reflexive(Choice(BRANCHES), Request);
    TwoAdmit(side.(mode := Writing, components := Two(OneOf(before), OneOf(other))), fuel, before, other, value);
    TwoAdmit(side.(mode := Reading, components := Two(OneOf(after), OneOf(other))), fuel, after, other, value);
  }

  /** The input: a second value is added to the first of two enumerations. */
  lemma WidenedOneOfBreaks(side: Side, fuel: nat)
    requires 0 < fuel
    ensures SchemaCompatible(OneOf([ZERO]), OneOf([ZERO, ONE]), Request)
    ensures Admits(side.(mode := Writing, components := Two(OneOf([ZERO]), OneOf([ONE]))), fuel, Choice(BRANCHES), ONE)
    ensures !Admits(side.(mode := Reading, components := Two(OneOf([ZERO, ONE]), OneOf([ONE]))), fuel, Choice(BRANCHES),
                    ONE)
  {
    assert [ONE][0] == ONE && [ZERO, ONE][1] == ONE && [ZERO, ONE][0] == ZERO;
    TwoAdmit(side.(mode := Writing, components := Two(OneOf([ZERO]), OneOf([ONE]))), fuel, [ZERO], [ONE], ONE);
    WidenedBranchBreaks(side, fuel, [ZERO], [ZERO, ONE], [ONE], ONE);
  }
}
