/** Schemas with one or two keywords, and what they admit. */
module SmallSchemas {
  import opened Json
  import opened Schema
  import opened Meaning
  import opened SchemaOrder

  function Only(keyword: string, value: Json): Json {
    JObject(map[keyword := value])
  }

  const ANYTHING := JObject(map[])

  function Link(name: string): Json {
    Only("$ref", JString(REFERENCE_PREFIX + name))
  }

  function OneOf(values: seq<Json>): Json {
    Only("enum", JArray(values))
  }

  function Holding(properties: Object): Json {
    Only("properties", JObject(properties))
  }

  /** Keywords that only pass a value, or parts of it, to other schemas. */
  predicate NamesSchemas(keyword: string) {
    keyword in LISTS || keyword == "$ref" || keyword == "properties" || keyword == "items"
      || keyword == "additionalProperties"
  }

  lemma LocalKeywords(keyword: string)
    requires keyword in OPAQUE_KEYWORDS || keyword in LOWER_BOUNDS + UPPER_BOUNDS
             || keyword in ["type", "const", "enum", "required"]
    ensures !NamesSchemas(keyword)
  {
  }

  /** A schema that only names other schemas says nothing of the value itself. */
  lemma LocallySilent(oracle: Oracle, schema: Json, value: Json)
    requires forall keyword :: !NamesSchemas(keyword) ==> Member(schema, keyword) == JNull
    ensures LocallyAdmits(oracle, schema, value)
  {
    forall keyword | keyword in OPAQUE_KEYWORDS || keyword in LOWER_BOUNDS + UPPER_BOUNDS
      || keyword in ["type", "const", "enum", "required"]
      ensures Member(schema, keyword) == JNull
    {
      LocalKeywords(keyword);
    }
    assert forall keyword :: keyword == "type" || keyword == "const" || keyword == "enum" || keyword == "required" ==>
        keyword in ["type", "const", "enum", "required"];
  }

  /** Without such keywords a value that is no object or array is judged locally. */
  lemma JudgedLocally(side: Side, fuel: nat, schema: Json, value: Json)
    requires forall keyword :: NamesSchemas(keyword) ==> Member(schema, keyword) == JNull
    ensures Admits(side, fuel, schema, value) ==> LocallyAdmits(side.oracle, schema, value)
    ensures !value.JObject? && LocallyAdmits(side.oracle, schema, value) ==> Admits(side, fuel, schema, value)
  {
    assert LISTS[0] == "allOf" && LISTS[1] == "anyOf" && LISTS[2] == "oneOf";
    assert NamesSchemas("$ref") && NamesSchemas("items") && NamesSchemas("allOf") && NamesSchemas("anyOf")
           && NamesSchemas("oneOf");
  }

  lemma AnythingAdmits(side: Side, fuel: nat, value: Json)
    requires !value.JObject?
    ensures Admits(side, fuel, ANYTHING, value)
  {
    LocallySilent(side.oracle, ANYTHING, value);
    JudgedLocally(side, fuel, ANYTHING, value);
  }

  lemma MemberOfOnly(keyword: string, value: Json)
    ensures forall other :: Member(Only(keyword, value), other) == if other == keyword then value else JNull
  {
  }

  lemma OneOfAdmits(side: Side, fuel: nat, values: seq<Json>, value: Json)
    requires !value.JObject?
    ensures Admits(side, fuel, OneOf(values), value) <==> value in values
  {
    var schema := OneOf(values);
    MemberOfOnly("enum", JArray(values));
    forall keyword | keyword in OPAQUE_KEYWORDS || keyword in LOWER_BOUNDS + UPPER_BOUNDS
      ensures Member(schema, keyword) == JNull
    {
      NotEnum(keyword);
    }
    LocalKeywords("enum");
    JudgedLocally(side, fuel, schema, value);
  }

  lemma NotEnum(keyword: string)
    requires keyword in OPAQUE_KEYWORDS || keyword in LOWER_BOUNDS + UPPER_BOUNDS
    ensures keyword != "enum"
  {
  }

  lemma LinkRefers(name: string)
    ensures forall other :: RefersTo(Link(name), other) <==> other == name
    ensures OwnReferences(Link(name)) == {name} && References(Link(name)) == {name}
    ensures Defers(Link(name)) && Properties(Link(name)) == map[]
  {
    var link := Link(name);
    MemberOfOnly("$ref", JString(REFERENCE_PREFIX + name));
    assert Target(REFERENCE_PREFIX + name) == name;
    assert link.members.Keys == {"$ref"};
  }

  /** A link admits what its target admits, with one reference less to follow. */
  lemma LinkAdmits(side: Side, fuel: nat, name: string, value: Json)
    requires 0 < fuel
    ensures Admits(side, fuel, Link(name), value) <==> Admits(side, fuel - 1, Get(side.components, name), value)
  {
    var link := Link(name);
    MemberOfOnly("$ref", JString(REFERENCE_PREFIX + name));
    LinkRefers(name);
    assert NamesSchemas("$ref");
    LocallySilent(side.oracle, link, value);
    assert BranchesAdmit(side, fuel, link, value) && OneAdmits(side, fuel, link, value);
    assert value.JObject? ==> forall member :: member in value.members ==>
        MemberAdmits(side, fuel, link, member, value.members[member]);
  }

  ghost predicate MemberHeld(side: Side, fuel: nat, properties: Object, name: string, value: Json) {
    if name in properties then Admits(side, fuel, properties[name], value) else side.mode.Reading?
  }

  lemma HeldIs(side: Side, fuel: nat, properties: Object, name: string, value: Json)
    ensures MemberAdmits(side, fuel, Holding(properties), name, value) <==>
              MemberHeld(side, fuel, properties, name, value)
  {
    MemberOfOnly("properties", JObject(properties));
    assert Properties(Holding(properties)) == properties;
  }

  /** A schema that declares properties and nothing else. */
  lemma HoldingAdmits(side: Side, fuel: nat, properties: Object, value: Json)
    requires value.JObject?
    ensures Admits(side, fuel, Holding(properties), value) <==>
            forall name :: name in value.members ==> MemberHeld(side, fuel, properties, name, value.members[name])
  {
    var schema := Holding(properties);
    MemberOfOnly("properties", JObject(properties));
    assert NamesSchemas("properties");
    LocallySilent(side.oracle, schema, value);
    assert BranchesAdmit(side, fuel, schema, value) && OneAdmits(side, fuel, schema, value);
    assert forall name :: !RefersTo(schema, name);
    forall name | name in value.members
      ensures MemberAdmits(side, fuel, schema, name, value.members[name]) <==>
              MemberHeld(side, fuel, properties, name, value.members[name])
    {
      HeldIs(side, fuel, properties, name, value.members[name]);
    }
  }

  /** Objects inside each other, as deep as one likes. */
  function Chain(field: string, depth: nat): Json {
    JObject(if depth == 0 then map[] else map[field := Chain(field, depth - 1)])
  }

  ghost predicate ChainPasses(side: Side, name: string, field: string, depth: int, more: nat) {
    0 <= depth ==> Admits(side, depth + 1 + more, Link(name), Chain(field, depth))
  }

  ghost predicate TargetPasses(side: Side, name: string, field: string, depth: int, more: nat) {
    0 <= depth ==> Admits(side, depth + more, Get(side.components, name), Chain(field, depth))
  }

  lemma HoldsChain(side: Side, depth: nat, more: nat, field: string, name: string, properties: Object)
    requires field in properties && properties[field] == Link(name) && Get(side.components, name) == Holding(properties)
    requires forall links: int :: links < depth ==> ChainPasses(side, name, field, links, more)
    ensures forall links: int :: links == depth ==> TargetPasses(side, name, field, links, more)
  {
    var value, known := Chain(field, depth), ChainPasses(side, name, field, depth - 1, more);
    forall each | each in value.members
      ensures MemberHeld(side, depth + more, properties, each, value.members[each])
    {
      assert 0 < depth && each == field && value.members[each] == Chain(field, depth - 1);
    }
    HoldingAdmits(side, depth + more, properties, value);
  }

  lemma LinkFollowed(side: Side, depth: nat, more: nat, field: string, name: string)
    ensures TargetPasses(side, name, field, depth, more) ==> ChainPasses(side, name, field, depth, more)
  {
    LinkAdmits(side, depth + 1 + more, name, Chain(field, depth));
  }

  lemma ChainGrows(side: Side, depth: nat, more: nat, field: string, name: string, properties: Object)
    requires field in properties && properties[field] == Link(name) && Get(side.components, name) == Holding(properties)
    requires forall links: int :: links < depth ==> ChainPasses(side, name, field, links, more)
    ensures forall links: int :: links <= depth ==> ChainPasses(side, name, field, links, more)
  {
    HoldsChain(side, depth, more, field, name, properties);
    LinkFollowed(side, depth, more, field, name);
  }

  /** Such chains are admitted by a component that refers to itself, with one
      reference for each link or more. */
  lemma {:induction false} ChainAdmitted(side: Side, depth: nat, more: nat, field: string, name: string,
                                         properties: Object)
    requires field in properties && properties[field] == Link(name) && Get(side.components, name) == Holding(properties)
    ensures forall links: int :: links <= depth ==> ChainPasses(side, name, field, links, more)
  {
    if depth > 0 {
      ChainAdmitted(side, depth - 1, more, field, name, properties);
    }
    ChainGrows(side, depth, more, field, name, properties);
  }

  function Choice(branches: seq<Json>): Json {
    Only("oneOf", JArray(branches))
  }

  /** A schema that only offers a choice. */
  lemma ChoiceAdmits(side: Side, fuel: nat, branches: seq<Json>, value: Json)
    requires !value.JObject?
    ensures Admits(side, fuel, Choice(branches), value) <==> OneAdmits(side, fuel, Choice(branches), value)
  {
    var schema := Choice(branches);
    MemberOfOnly("oneOf", JArray(branches));
    assert LISTS[2] == "oneOf" && NamesSchemas("oneOf");
    LocallySilent(side.oracle, schema, value);
    assert BranchesAdmit(side, fuel, schema, value);
    assert forall name :: !RefersTo(schema, name);
  }

  // ---------------------------------------------------------------------
  // In the fragment

  /** What has to be looked at in a schema with one keyword that names schemas. */
  lemma OnlyWellFormed(components: Object, keyword: string, value: Json)
    requires keyword in OTHER_KEYWORDS && NamesSchemas(keyword) && !value.JNull?
    requires keyword == "$ref" ==> exists name :: RefersTo(Only(keyword, value), name) && name in components
    requires forall name :: name in Properties(Only(keyword, value)) ==>
              WellFormed(components, Properties(Only(keyword, value))[name])
    requires keyword in NESTED_KEYWORDS ==> value.JBool? || (value.JObject? && WellFormed(components, value))
    ensures WellFormed(components, Only(keyword, value))
  {
    MemberOfOnly(keyword, value);
    forall each | each in OPAQUE_KEYWORDS || each in LOWER_BOUNDS + UPPER_BOUNDS
      || each in LISTS + ["type", "enum", "prefixItems"]
      ensures each != keyword
    {
      NotOther(each);
    }
    assert LISTS[2] == "oneOf" && "oneOf" in LISTS + ["type", "enum", "prefixItems"];
    assert "enum" in LISTS + ["type", "enum", "prefixItems"]
           && "prefixItems" in LISTS + ["type", "enum", "prefixItems"];
    assert forall each :: each in LISTS ==> each in LISTS + ["type", "enum", "prefixItems"];
  }

  lemma NotOther(each: string)
    requires each in OPAQUE_KEYWORDS || each in LOWER_BOUNDS + UPPER_BOUNDS
             || each in LISTS + ["type", "enum", "prefixItems"]
    ensures !(each in OTHER_KEYWORDS && NamesSchemas(each))
  {
  }

  lemma LinkWellFormed(components: Object, name: string)
    requires name in components
    ensures WellFormed(components, Link(name))
  {
    LinkRefers(name);
    assert OTHER_KEYWORDS[0] == "$ref" && RefersTo(Link(name), name);
    OnlyWellFormed(components, "$ref", JString(REFERENCE_PREFIX + name));
  }

  lemma HoldingWellFormed(components: Object, properties: Object)
    requires forall name :: name in properties ==> WellFormed(components, properties[name])
    ensures WellFormed(components, Holding(properties))
  {
    assert OTHER_KEYWORDS[4] == "properties";
    MemberOfOnly("properties", JObject(properties));
    OnlyWellFormed(components, "properties", JObject(properties));
  }

  lemma HoldingRefers(properties: Object)
    ensures forall name :: name in References(Holding(properties)) ==>
              name in OwnReferences(JObject(properties))
                || exists key :: key in properties && name in References(properties[key])
  {
    MemberOfOnly("properties", JObject(properties));
    assert OwnReferences(Holding(properties)) == {};
  }

  predicate Extends(before: Object, after: Object) {
    before.Keys <= after.Keys && forall name :: name in before ==> after[name] == before[name]
  }

  lemma SilentHolding(properties: Object, keyword: string)
    requires keyword in NESTED_KEYWORDS || keyword in UNCOMPARED_KEYWORDS
    ensures Member(Holding(properties), keyword) == JNull
  {
    MemberOfOnly("properties", JObject(properties));
    NotProperties(keyword);
  }

  /** Declaring more properties is a compatible change ... */
  lemma HoldingMore(before: Object, after: Object, direction: Direction)
    requires Extends(before, after)
    ensures SchemaCompatible(Holding(before), Holding(after), direction)
  {
    MemberOfOnly("properties", JObject(before));
    MemberOfOnly("properties", JObject(after));
    assert With(ANYTHING, "properties", JObject(before)) == Holding(before);
    assert With(ANYTHING, "properties", JObject(after)) == Holding(after);
    KeywordsOfVariants(ANYTHING, "properties", JObject(before), JObject(after), direction);
    forall name | name in before
      ensures SchemaCompatible(before[name], after[name], direction)
    {
      Reflexive(before[name], direction);
    }
    forall keyword | keyword in NESTED_KEYWORDS
      ensures Member(Holding(before), keyword) == Member(Holding(after), keyword)
    {
      SilentHolding(before, keyword);
      SilentHolding(after, keyword);
    }
    SharedChildren(Holding(before), Holding(after), direction);
    Parts(Holding(before), Holding(after), direction);
  }

  /** ... within the fragment. */
  lemma HoldingMoreComparable(before: Object, after: Object, direction: Direction)
    requires Extends(before, after)
    ensures Comparable(Holding(before), Holding(after), direction)
  {
    MemberOfOnly("properties", JObject(before));
    MemberOfOnly("properties", JObject(after));
    assert Properties(Holding(before)) == before && Properties(Holding(after)) == after;
    forall name | name in before
      ensures Comparable(before[name], after[name], direction)
    {
      ComparableWithItself(before[name], direction);
    }
    forall keyword | keyword in NESTED_KEYWORDS || keyword in UNCOMPARED_KEYWORDS
      ensures Member(Holding(before), keyword) == Member(Holding(after), keyword) == JNull
    {
      SilentHolding(before, keyword);
      SilentHolding(after, keyword);
    }
    assert forall added :: MayAdd(Holding(before), added, direction);
  }

  lemma NotProperties(keyword: string)
    requires keyword in NESTED_KEYWORDS || keyword in UNCOMPARED_KEYWORDS
    ensures keyword != "properties"
  {
  }

  // ---------------------------------------------------------------------
  // Tagged branches

  /** An object schema with a required constant property. */
  function Tagged(name: string, tag: Json): Json {
    JObject(map["type" := JString("object"), "required" := JArray([JString(name)]),
                "properties" := JObject(map[name := Only("const", tag)])])
  }

  /** References to two schemas with different tags may stand side by side in `oneOf`. */
  lemma TaggedApart(components: Object, one: string, other: string, name: string, tag: Json, otherTag: Json)
    requires one in components && components[one] == Tagged(name, tag)
    requires other in components && components[other] == Tagged(name, otherTag)
    requires !tag.JNull? && !otherTag.JNull? && tag != otherTag
    ensures Separated(components, Link(one), Link(other))
  {
    LinkRefers(one);
    LinkRefers(other);
    TaggedTag(name, tag);
    TaggedTag(name, otherTag);
    assert Resolved(components, Link(one)) == Tagged(name, tag)
           && Resolved(components, Link(other)) == Tagged(name, otherTag);
    assert Exclusive(Only("const", tag), Only("const", otherTag)) by {
      MemberOfOnly("const", tag);
      MemberOfOnly("const", otherTag);
    }
  }

  lemma TaggedTag(name: string, tag: Json)
    ensures IsTag(Tagged(name, tag), name) && Properties(Tagged(name, tag))[name] == Only("const", tag)
  {
    var listed := [JString(name)];
    assert listed[0] in listed;
    assert Member(Tagged(name, tag), "required") == JArray(listed) && Items(JArray(listed)) == listed;
  }
}
