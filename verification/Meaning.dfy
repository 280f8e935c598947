/** What a schema means, and why a schema comparison without incompatible
    changes keeps old clients working.

    A schema has two meanings. A writer sends only properties the schema
    declares (or, where `additionalProperties` is given, extra members it
    admits; or, where it refers to other schemas, members those declare); a
    reader ignores members the schema says nothing about. Both are
    indexed by the number of `$ref`s that may still be followed, so cyclic
    schemas have a meaning; `base` is the verdict once that number is used up. */
module Meaning {
  import opened Json
  import opened Schema
  import SchemaOrder

  datatype Mode = Writing | Reading

  /** The meaning of a keyword the proof does not look into:
      keyword, its value in the schema, the checked value. */
  type Oracle = (string, Json, Json) -> bool

  /** Interpreted by the oracle, which sees no components. */
  const OPAQUE_KEYWORDS: seq<string> :=
    ["format", "not", "pattern", "multipleOf", "uniqueItems", "minProperties", "maxProperties", "propertyNames",
     "dependentRequired", "prefixItems"]

  /** Validation keywords the comparison never looks at. */
  const UNCOMPARED_KEYWORDS: seq<string> :=
    ["const", "multipleOf", "uniqueItems", "minProperties", "maxProperties", "propertyNames", "dependentRequired",
     "prefixItems"]

  /** Keywords whose values are lists of schemas. */
  const LISTS: seq<string> := ["allOf", "anyOf", "oneOf"]

  const OTHER_KEYWORDS: seq<string> := ["$ref", "type", "enum", "required", "properties", "items",
                                        "additionalProperties"]

  /** Keywords that say nothing about values. */
  const ANNOTATIONS: seq<string> :=
    ["title", "description", "default", "example", "examples", "deprecated", "readOnly", "writeOnly", "discriminator",
     "xml",
     "externalDocs", "contentMediaType", "contentEncoding", "$comment"]

  const REFERENCE_PREFIX := "#/components/schemas/"

  function Target(reference: string): string
    requires REFERENCE_PREFIX <= reference
  {
    reference[|REFERENCE_PREFIX|..]
  }

  /** The component a schema's own `$ref` names, if it names one. */
  predicate RefersTo(schema: Json, name: string) {
    var reference := Member(schema, "$ref");
    reference.JString? && REFERENCE_PREFIX <= reference.text && Target(reference.text) == name
  }

  /** Size constraints of section 6 of JSON Schema Validation 2020-12. */
  predicate BoundHolds(keyword: string, bound: Json, value: Json) {
    bound.JNumber? ==>
      match value
      case JNumber(number) =>
        && (keyword == "minimum" ==> bound.number <= number)
        && (keyword == "exclusiveMinimum" ==> bound.number < number)
        && (keyword == "maximum" ==> number <= bound.number)
        && (keyword == "exclusiveMaximum" ==> number < bound.number)
      case JString(text) =>
        && (keyword == "minLength" ==> bound.number <= |text| as real)
        && (keyword == "maxLength" ==> |text| as real <= bound.number)
      case JArray(items) =>
        && (keyword == "minItems" ==> bound.number <= |items| as real)
        && (keyword == "maxItems" ==> |items| as real <= bound.number)
      case _ => true
  }

  predicate IsOfType(text: string, value: Json) {
    match value
    case JNull => text == "null"
    case JBool(_) => text == "boolean"
    case JNumber(number) => text == "number" || (text == "integer" && number.Floor as real == number)
    case JString(_) => text == "string"
    case JArray(_) => text == "array"
    case JObject(_) => text == "object"
  }

  predicate TypeHolds(types: Json, value: Json) {
    match types
    case JString(text) => IsOfType(text, value)
    case JArray(items) => exists item :: item in items && item.JString? && IsOfType(item.text, value)
    case _ => true
  }

  /** `const` and `enum`. */
  predicate Allows(schema: Json, value: Json) {
    && (Member(schema, "const").JNull? || value == Member(schema, "const"))
    && (Member(schema, "enum").JArray? ==> value in Member(schema, "enum").items)
  }

  /** One side of an exchange: what the oracle says, which components its
      document defines, whether it writes or reads, and the verdict on a value
      once no `$ref` may be followed any more. */
  datatype Side = Side(oracle: Oracle, components: Object, mode: Mode, base: bool)

  /** The keywords that look at the value alone. */
  ghost predicate LocallyAdmits(oracle: Oracle, schema: Json, value: Json) {
    && TypeHolds(Member(schema, "type"), value) && Allows(schema, value)
    && (forall keyword :: keyword in OPAQUE_KEYWORDS && !Member(schema, keyword).JNull? ==>
          oracle(keyword, Member(schema, keyword), value))
    && (forall keyword :: keyword in LOWER_BOUNDS + UPPER_BOUNDS ==>
        BoundHolds(keyword, Member(schema, keyword), value))
    && (value.JObject? ==> Required(schema) <= value.members.Keys)
  }

  /** `value` is admitted by `schema`, following at most `fuel` references. */
  ghost predicate Admits(side: Side, fuel: nat, schema: Json, value: Json)
    decreases fuel, schema, 2
  {
    && LocallyAdmits(side.oracle, schema, value)
    && BranchesAdmit(side, fuel, schema, value)
    && OneAdmits(side, fuel, schema, value)
    && (forall name :: RefersTo(schema, name) ==>
          if fuel == 0 then side.base else Admits(side, fuel - 1, Get(side.components, name), value))
    && (value.JObject? ==> forall name :: name in value.members ==>
        MemberAdmits(side, fuel, schema, name, value.members[name]))
    && (value.JArray? ==> ItemsAdmit(side, fuel, schema, value.items))
  }

  ghost predicate BranchesAdmit(side: Side, fuel: nat, schema: Json, value: Json)
    decreases fuel, schema, 0
  {
    && (forall branch :: branch in Items(Member(schema, "allOf")) ==> Admits(side, fuel, branch, value))
    && (Member(schema, "anyOf").JArray? ==>
          exists branch :: branch in Items(Member(schema, "anyOf")) && Admits(side, fuel, branch, value))
  }

  /** `oneOf`: the writer means one branch, and no other branch accepts what it
      writes. Like a reference this is decided by `base` once no more references
      may be followed. */
  ghost predicate OneAdmits(side: Side, fuel: nat, schema: Json, value: Json)
    decreases fuel, schema, 1
  {
    var branches := Items(Member(schema, "oneOf"));
    Member(schema, "oneOf").JArray? ==>
      if fuel == 0 then side.base
      else exists i ::
        0 <= i < |branches| && Admits(side, fuel, branches[i], value) && NoOther(side, fuel, schema, value, i)
  }

  ghost predicate NoOther(side: Side, fuel: nat, schema: Json, value: Json, i: int)
    decreases fuel, schema, 0
  {
    var branches := Items(Member(schema, "oneOf"));
    forall j :: 0 <= j < |branches| && j != i ==> !Admits(side.(mode := Reading), fuel, branches[j], value)
  }

  /** The schema hands the value on to others, which say what they declare. */
  predicate Defers(schema: Json) {
    !Member(schema, "$ref").JNull? || !Member(schema, "allOf").JNull? || !Member(schema, "anyOf").JNull?
    || !Member(schema, "oneOf").JNull?
  }

  /** One member of an object. */
  ghost predicate MemberAdmits(side: Side, fuel: nat, schema: Json, name: string, value: Json)
    decreases fuel, schema, 1
  {
    if name in Properties(schema) then Admits(side, fuel, Properties(schema)[name], value)
    else ExtraAdmits(side, fuel, schema, value)
  }

  /** A member the schema does not declare goes by `additionalProperties`; without
      it, readers ignore what writers never send, unless the schemas it refers to
      declare it. */
  ghost predicate ExtraAdmits(side: Side, fuel: nat, schema: Json, value: Json)
    decreases fuel, schema, 0
  {
    var extra := Member(schema, "additionalProperties");
    match extra
    case JBool(allowed) => allowed
    case JObject(_) => Admits(side, fuel, extra, value)
    case _ => side.mode.Reading? || Defers(schema)
  }

  ghost predicate ItemsAdmit(side: Side, fuel: nat, schema: Json, items: seq<Json>)
    decreases fuel, schema, 0
  {
    var each := Member(schema, "items");
    match each
    case JBool(allowed) => allowed || items == []
    case JObject(_) => forall item :: item in items ==> Admits(side, fuel, each, item)
    case _ => true
  }

  // ---------------------------------------------------------------------
  // References

  /** `_schema_references`: the components named by any `$ref` inside a value. */
  function References(value: Json): set<string> {
    match value
    case JObject(members) =>
      OwnReferences(value) + (set key, name | key in members && name in References(members[key]) :: name)
    case JArray(items) => set item, name | item in items && name in References(item) :: name
    case _ => {}
  }

  function OwnReferences(value: Json): (names: set<string>)
    ensures forall name :: name in names <==> RefersTo(value, name)
  {
    var reference := Member(value, "$ref");
    if reference.JString? && REFERENCE_PREFIX <= reference.text then {Target(reference.text)} else {}
  }

  lemma ReferencesOfMember(value: Json, key: string)
    ensures References(Member(value, key)) <= References(value)
  {
    if value.JObject? && key in value.members {
      forall name | name in References(value.members[key])
        ensures name in References(value)
      {
      }
    }
  }

  lemma ReferencesOfItem(value: Json, item: Json)
    requires item in Items(value)
    ensures References(item) <= References(value)
  {
  }

  lemma ReferencesOfProperty(schema: Json, name: string)
    requires name in Properties(schema)
    ensures References(Properties(schema)[name]) <= References(schema)
  {
    ReferencesOfMember(schema, "properties");
    ReferencesOfMember(Member(schema, "properties"), name);
  }

  /** The traversal that collects references into one growing set. */
  method SchemaReferences(value: Json) returns (references: set<string>)
    ensures references == References(value)
    decreases value
  {
    references := {};
    if value.JObject? {
      references := OwnReferences(value);
      var keys := value.members.Keys;
      while keys != {}
        invariant keys <= value.members.Keys
        invariant forall name :: name in references <==>
                    || name in OwnReferences(value)
                    || exists key :: key in value.members.Keys - keys && name in References(value.members[key])
      {
        var key :| key in keys;
        var child := SchemaReferences(value.members[key]);
        references, keys := references + child, keys - {key};
      }
      assert forall name :: name in references <==> name in References(value);
    } else if value.JArray? {
      for i := 0 to |value.items|
        invariant forall name :: name in references <==> exists j :: 0 <= j < i && name in References(value.items[j])
      {
        var child := SchemaReferences(value.items[i]);
        references := references + child;
      }
      assert forall name :: name in references <==> name in References(value);
    }
  }

  // ---------------------------------------------------------------------
  // The fragment in which the comparison is a sound analysis

  predicate Interpreted(keyword: string) {
    || keyword in OPAQUE_KEYWORDS || keyword in UNCOMPARED_KEYWORDS || keyword in LISTS || keyword in OTHER_KEYWORDS
    || keyword in LOWER_BOUNDS || keyword in UPPER_BOUNDS
  }

  /** The schema a branch stands for. */
  function Resolved(components: Object, schema: Json): Json {
    var reference := Member(schema, "$ref");
    if reference.JString? && REFERENCE_PREFIX <= reference.text then Get(components, Target(reference.text)) else schema
  }

  /** Every admitted value is an object with this member. */
  predicate IsTag(schema: Json, name: string) {
    Member(schema, "type") == JString("object") && name in Required(schema) && name in Properties(schema)
  }

  /** No value is allowed by both. */
  ghost predicate Exclusive(one: Json, other: Json) {
    forall value :: !(Allows(one, value) && Allows(other, value))
  }

  /** A common property tells the branches apart. */
  ghost predicate Separated(components: Object, one: Json, other: Json) {
    exists name :: IsTag(Resolved(components, one), name) && IsTag(Resolved(components, other), name)
                   && Exclusive(Properties(Resolved(components, one))[name],
                                Properties(Resolved(components, other))[name])
  }

  /** Branches of `oneOf` that follow a `$ref` are told apart by a property. */
  ghost predicate Distinguished(components: Object, branches: seq<Json>) {
    forall i, j :: 0 <= i < |branches| && 0 <= j < |branches| && i != j ==>
      References(branches[j]) == {} || Separated(components, branches[i], branches[j])
  }

  /** A schema the meaning above covers, every `$ref` of which resolves. */
  ghost predicate WellFormed(components: Object, schema: Json)
    decreases schema
  {
    && schema.JObject?
    && (forall key :: key in schema.members ==> key in ANNOTATIONS || (Interpreted(key) && !schema.members[key].JNull?))
    && (forall keyword :: keyword in OPAQUE_KEYWORDS ==> References(Member(schema, keyword)) == {})
    && (Member(schema, "prefixItems").JNull? || Member(schema, "items").JNull?)
    && (forall keyword :: keyword in LOWER_BOUNDS + UPPER_BOUNDS ==>
          Member(schema, keyword).JNull? || Member(schema, keyword).JNumber?)
    && (Member(schema, "enum").JNull? || Member(schema, "enum").JArray?)
    && (Member(schema, "$ref").JNull? || exists name :: RefersTo(schema, name) && name in components)
    && (forall keyword :: keyword in LISTS ==>
          (Member(schema, keyword).JNull? || Member(schema, keyword).JArray?)
          && forall branch :: branch in Items(Member(schema, keyword)) ==> WellFormed(components, branch))
    && Distinguished(components, Items(Member(schema, "oneOf")))
    && (forall name :: name in Properties(schema) ==> WellFormed(components, Properties(schema)[name]))
    && (forall keyword :: keyword in NESTED_KEYWORDS ==>
          var child := Member(schema, keyword);
          child.JNull? || child.JBool? || (child.JObject? && WellFormed(components, child)))
  }

  /** Nobody on the old side has or misses the added property: an old client
      cannot send it, or ignores it, or it is what `additionalProperties` allowed. */
  ghost predicate MayAdd(baseline: Json, added: Json, direction: Direction)
    decreases baseline, 0
  {
    var extra := Member(baseline, "additionalProperties");
    if extra.JObject? then SchemaCompatible(extra, added, direction) && Comparable(extra, added, direction)
    else
      match direction
      case Request => extra == JBool(false) || (extra.JNull? && !Defers(baseline))
      case Response => extra == JBool(true) || extra.JNull?
  }

  /** Keywords the comparison never reads are unchanged, properties are added
      only where the old side cannot notice, and a response child that switches
      between a boolean and a schema goes from "anything" or to "nothing". */
  ghost predicate Comparable(baseline: Json, current: Json, direction: Direction)
    decreases baseline, 1
  {
    && (forall keyword :: keyword in UNCOMPARED_KEYWORDS ==> Member(baseline, keyword) == Member(current, keyword))
    && (forall name :: name in Properties(current) && name !in Properties(baseline) ==>
          MayAdd(baseline, Properties(current)[name], direction))
    && (forall name :: name in Properties(baseline) && name in Properties(current) ==>
          Comparable(Properties(baseline)[name], Properties(current)[name], direction))
    && (forall keyword :: keyword in NESTED_KEYWORDS ==>
          var oldChild, newChild := Member(baseline, keyword), Member(current, keyword);
          if oldChild.JObject? && newChild.JObject? then
            Comparable(oldChild, newChild, direction)
          else
            direction.Request? || SafeResponseChild(oldChild, newChild))
  }

  predicate SafeResponseChild(baseline: Json, current: Json) {
    baseline == current || baseline.JNull? || baseline == JBool(true) || current == JBool(false)
  }

  lemma {:induction false} ComparableWithItself(schema: Json, direction: Direction)
    ensures Comparable(schema, schema, direction)
    decreases schema
  {
    forall name | name in Properties(schema)
      ensures Comparable(Properties(schema)[name], Properties(schema)[name], direction)
    {
      ComparableWithItself(Properties(schema)[name], direction);
    }
    forall keyword | keyword in NESTED_KEYWORDS && Member(schema, keyword).JObject?
      ensures Comparable(Member(schema, keyword), Member(schema, keyword), direction)
    {
      ComparableWithItself(Member(schema, keyword), direction);
    }
  }
}
