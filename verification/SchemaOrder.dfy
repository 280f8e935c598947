/** "No incompatible change" in a fixed direction is a preorder. */
module SchemaOrder {
  import opened Json
  import opened Schema

  predicate ChildCompatible(baseline: Json, current: Json, direction: Direction) {
    if baseline.JObject? && current.JObject? then SchemaCompatible(baseline, current, direction)
    else LooseChildCompatible(baseline, current, direction)
  }

  predicate PropertiesCompatible(baseline: Json, current: Json, direction: Direction) {
    forall name :: name in Properties(baseline) && name in Properties(current) ==>
      SchemaCompatible(Properties(baseline)[name], Properties(current)[name], direction)
  }

  predicate ChildrenCompatible(baseline: Json, current: Json, direction: Direction) {
    forall keyword :: keyword in NESTED_KEYWORDS ==>
      ChildCompatible(Member(baseline, keyword), Member(current, keyword), direction)
  }

  /** The four parts of a comparison. */
  lemma Parts(baseline: Json, current: Json, direction: Direction)
    ensures SchemaCompatible(baseline, current, direction) <==>
              && KeywordsCompatible(baseline, current, direction)
                 && PropertyNamesCompatible(baseline, current, direction)
              && PropertiesCompatible(baseline, current, direction) && ChildrenCompatible(baseline, current, direction)
  {
  }

  lemma {:induction false} Reflexive(schema: Json, direction: Direction)
    ensures SchemaCompatible(schema, schema, direction)
    decreases schema
  {
    forall name | name in Properties(schema)
      ensures SchemaCompatible(Properties(schema)[name], Properties(schema)[name], direction)
    {
      Reflexive(Properties(schema)[name], direction);
    }
    forall keyword | keyword in NESTED_KEYWORDS
      ensures ChildCompatible(Member(schema, keyword), Member(schema, keyword), direction)
    {
      if Member(schema, keyword).JObject? {
        Reflexive(Member(schema, keyword), direction);
      }
    }
    Parts(schema, schema, direction);
  }

  // ---------------------------------------------------------------------
  // Steps compose: for requests always, for responses through plain schemas

  /** Neither a boolean schema nor a malformed `enum` anywhere inside. */
  predicate Plain(schema: Json)
    decreases schema
  {
    && (Member(schema, "enum").JNull? || Member(schema, "enum").JArray?)
    && (forall name :: name in Properties(schema) ==> Plain(Properties(schema)[name]))
    && (forall keyword :: keyword in NESTED_KEYWORDS ==>
          var child := Member(schema, keyword);
          child.JNull? || (child.JObject? && Plain(child)))
  }

  /** Where the middle schema stops being an obstacle. */
  predicate Passable(middle: Json, direction: Direction) {
    direction.Request? || Plain(middle)
  }

  lemma EnumTransitive(first: Json, middle: Json, last: Json, direction: Direction)
    requires direction.Request? || middle.JNull? || middle.JArray?
    requires EnumKept(first, middle, direction) && EnumKept(middle, last, direction)
    ensures EnumKept(first, last, direction)
  {
  }

  lemma BoundTransitive(first: Json, middle: Json, last: Json, lower: bool)
    requires BoundKept(first, middle, lower) && BoundKept(middle, last, lower)
    ensures BoundKept(first, last, lower)
  {
  }

  lemma KeywordsTransitive(first: Json, middle: Json, last: Json, direction: Direction)
    requires direction.Request? || Member(middle, "enum").JNull? || Member(middle, "enum").JArray?
    requires KeywordsCompatible(first, middle, direction) && KeywordsCompatible(middle, last, direction)
    ensures KeywordsCompatible(first, last, direction)
  {
    var writer, reader := Writer(direction, first, last), Reader(direction, first, last);
    EnumTransitive(Member(first, "enum"), Member(middle, "enum"), Member(last, "enum"), direction);
    forall keyword | keyword in LOWER_BOUNDS
      ensures BoundKept(Member(writer, keyword), Member(reader, keyword), true)
    {
      BoundTransitive(Member(writer, keyword), Member(middle, keyword), Member(reader, keyword), true);
    }
    forall keyword | keyword in UPPER_BOUNDS
      ensures BoundKept(Member(writer, keyword), Member(reader, keyword), false)
    {
      BoundTransitive(Member(writer, keyword), Member(middle, keyword), Member(reader, keyword), false);
    }
  }

  /** Two compatible steps make one compatible step: between requests through
      any schema, between responses through a plain one. */
  lemma {:induction false} Transitive(first: Json, middle: Json, last: Json, direction: Direction)
    requires Passable(middle, direction)
    requires SchemaCompatible(first, middle, direction) && SchemaCompatible(middle, last, direction)
    ensures SchemaCompatible(first, last, direction)
    decreases middle, 0
  {
    KeywordsTransitive(first, middle, last, direction);
    forall name | name in Properties(first) && name in Properties(last)
      ensures SchemaCompatible(Properties(first)[name], Properties(last)[name], direction)
    {
      Transitive(Properties(first)[name], Properties(middle)[name], Properties(last)[name], direction);
    }
    forall keyword | keyword in NESTED_KEYWORDS
      ensures ChildCompatible(Member(first, keyword), Member(last, keyword), direction)
    {
      if Member(middle, keyword).JObject? {
        ChildTransitive(Member(first, keyword), Member(middle, keyword), Member(last, keyword), direction);
      } else {
        LooseTransitive(Member(first, keyword), Member(middle, keyword), Member(last, keyword), direction);
      }
    }
  }

  lemma {:induction false} ChildTransitive(first: Json, middle: Json, last: Json, direction: Direction)
    requires middle.JObject? && Passable(middle, direction)
    requires ChildCompatible(first, middle, direction) && ChildCompatible(middle, last, direction)
    ensures ChildCompatible(first, last, direction)
    decreases middle, 1
  {
    if first.JObject? && last.JObject? {
      Transitive(first, middle, last, direction);
    }
  }

  lemma LooseTransitive(first: Json, middle: Json, last: Json, direction: Direction)
    requires !middle.JObject? && (direction.Request? || middle.JNull?)
    requires ChildCompatible(first, middle, direction) && ChildCompatible(middle, last, direction)
    ensures ChildCompatible(first, last, direction)
  {
  }

  /** Requests: no condition at all. */
  lemma RequestTransitive(first: Json, middle: Json, last: Json)
    requires SchemaCompatible(first, middle, Request) && SchemaCompatible(middle, last, Request)
    ensures SchemaCompatible(first, last, Request)
  {
    Transitive(first, middle, last, Request);
  }

  // ---------------------------------------------------------------------
  // Responses: any other schema hides an incompatible change

  function With(schema: Json, keyword: string, value: Json): Json {
    JObject(Mapping(schema)[keyword := value])
  }

  function WithProperty(schema: Json, name: string, value: Json): Json {
    With(schema, "properties", JObject(Properties(schema)[name := value]))
  }

  lemma WithMembers(schema: Json, keyword: string, value: Json)
    ensures forall other :: Member(With(schema, keyword, value), other) == if other == keyword
            then value else Member(schema, other)
  {
  }

  lemma SharedProperties(baseline: Json, current: Json, direction: Direction)
    requires Member(baseline, "properties") == Member(current, "properties")
    ensures PropertyNamesCompatible(baseline, current, direction) && PropertiesCompatible(baseline, current, direction)
  {
    forall name | name in Properties(baseline) {
      Reflexive(Properties(baseline)[name], direction);
    }
  }

  lemma SharedChildren(baseline: Json, current: Json, direction: Direction)
    requires forall keyword :: keyword in NESTED_KEYWORDS ==> Member(baseline, keyword) == Member(current, keyword)
    ensures ChildrenCompatible(baseline, current, direction)
  {
    forall keyword | keyword in NESTED_KEYWORDS {
      Reflexive(Member(baseline, keyword), direction);
    }
  }

  predicate KeepsKeywords(keyword: string) {
    keyword == "properties" || keyword in NESTED_KEYWORDS
  }

  lemma ComparedKeyword(keyword: string)
    requires keyword in EQUALITY_KEYWORDS + LOWER_BOUNDS + UPPER_BOUNDS + COMBINATORS + ["required"]
    ensures !KeepsKeywords(keyword) && keyword != "enum"
  {
  }

  lemma SameKeywordsButEnum(baseline: Json, current: Json, direction: Direction)
    requires forall keyword ::
             keyword in EQUALITY_KEYWORDS + LOWER_BOUNDS + UPPER_BOUNDS + COMBINATORS + ["required"] ==>
               Member(baseline, keyword) == Member(current, keyword)
    requires EnumKept(Member(baseline, "enum"), Member(current, "enum"), direction)
    ensures KeywordsCompatible(baseline, current, direction)
  {
    var all := EQUALITY_KEYWORDS + LOWER_BOUNDS + UPPER_BOUNDS + COMBINATORS + ["required"];
    assert forall keyword :: keyword in EQUALITY_KEYWORDS || keyword in LOWER_BOUNDS ==> keyword in all;
    assert forall keyword :: keyword in UPPER_BOUNDS || keyword in COMBINATORS ==> keyword in all;
    assert "required" in all;
  }

  /** Schemas that agree on every compared keyword pass the keyword checks. */
  lemma SameKeywords(baseline: Json, current: Json, direction: Direction)
    requires forall keyword ::
             keyword in EQUALITY_KEYWORDS + LOWER_BOUNDS + UPPER_BOUNDS + COMBINATORS + ["required"] ==>
               Member(baseline, keyword) == Member(current, keyword)
    requires Member(baseline, "enum") == Member(current, "enum")
    ensures KeywordsCompatible(baseline, current, direction)
  {
    SameKeywordsButEnum(baseline, current, direction);
  }

  /** The keywords of two variants that differ in another member. */
  lemma KeywordsOfVariants(schema: Json, keyword: string, one: Json, other: Json, direction: Direction)
    requires KeepsKeywords(keyword)
    ensures KeywordsCompatible(With(schema, keyword, one), With(schema, keyword, other), direction)
  {
    var before, after := With(schema, keyword, one), With(schema, keyword, other);
    WithMembers(schema, keyword, one);
    WithMembers(schema, keyword, other);
    forall each | each in EQUALITY_KEYWORDS + LOWER_BOUNDS + UPPER_BOUNDS + COMBINATORS + ["required"]
      ensures Member(before, each) == Member(after, each)
    {
      ComparedKeyword(each);
    }
    SameKeywords(before, after, direction);
  }

  lemma KeywordsOfEnums(schema: Json, one: Json, other: Json, direction: Direction)
    ensures KeywordsCompatible(With(schema, "enum", one), With(schema, "enum", other), direction) <==>
              EnumKept(one, other, direction)
  {
    var before, after := With(schema, "enum", one), With(schema, "enum", other);
    WithMembers(schema, "enum", one);
    WithMembers(schema, "enum", other);
    forall each | each in EQUALITY_KEYWORDS + LOWER_BOUNDS + UPPER_BOUNDS + COMBINATORS + ["required"]
      ensures Member(before, each) == Member(after, each)
    {
      ComparedKeyword(each);
    }
    if EnumKept(one, other, direction) {
      SameKeywordsButEnum(before, after, direction);
    }
  }

  /** Two variants of a schema that differ in `enum`. */
  lemma OnlyEnum(schema: Json, one: Json, other: Json, direction: Direction)
    ensures SchemaCompatible(With(schema, "enum", one), With(schema, "enum", other), direction) <==>
              EnumKept(one, other, direction)
  {
    var before, after := With(schema, "enum", one), With(schema, "enum", other);
    KeywordsOfEnums(schema, one, other, direction);
    assert Member(before, "properties") == Member(after, "properties") == Member(schema, "properties");
    SharedProperties(before, after, direction);
    SharedChildren(before, after, direction);
    Parts(before, after, direction);
  }

  lemma ChildrenOfVariants(schema: Json, keyword: string, one: Json, other: Json, direction: Direction)
    requires keyword in NESTED_KEYWORDS
    ensures ChildrenCompatible(With(schema, keyword, one), With(schema, keyword, other), direction) <==>
              ChildCompatible(one, other, direction)
  {
    var before, after := With(schema, keyword, one), With(schema, keyword, other);
    WithMembers(schema, keyword, one);
    WithMembers(schema, keyword, other);
    forall each | each in NESTED_KEYWORDS && each != keyword
      ensures ChildCompatible(Member(before, each), Member(after, each), direction)
    {
      Reflexive(Member(schema, each), direction);
    }
  }

  /** Two variants that differ in one child. */
  lemma OnlyChild(schema: Json, keyword: string, one: Json, other: Json, direction: Direction)
    requires keyword in NESTED_KEYWORDS
    ensures SchemaCompatible(With(schema, keyword, one), With(schema, keyword, other), direction) <==>
            ChildCompatible(one, other, direction)
  {
    var before, after := With(schema, keyword, one), With(schema, keyword, other);
    KeywordsOfVariants(schema, keyword, one, other, direction);
    assert Member(before, "properties") == Member(after, "properties") == Member(schema, "properties");
    SharedProperties(before, after, direction);
    ChildrenOfVariants(schema, keyword, one, other, direction);
    Parts(before, after, direction);
  }

  lemma PropertiesOfVariants(schema: Json, name: string, one: Json, other: Json, direction: Direction)
    ensures var before, after := WithProperty(schema, name, one), WithProperty(schema, name, other);
            && PropertyNamesCompatible(before, after, direction)
            && (PropertiesCompatible(before, after, direction) <==> SchemaCompatible(one, other, direction))
  {
    var before, after := WithProperty(schema, name, one), WithProperty(schema, name, other);
    assert Properties(before) == Properties(schema)[name := one]
           && Properties(after) == Properties(schema)[name := other];
    forall each | each in Properties(schema) && each != name
      ensures SchemaCompatible(Properties(before)[each], Properties(after)[each], direction)
    {
      Reflexive(Properties(schema)[each], direction);
    }
    assert Properties(before)[name] == one && Properties(after)[name] == other;
    if SchemaCompatible(one, other, direction) {
      forall each | each in Properties(before) && each in Properties(after)
        ensures SchemaCompatible(Properties(before)[each], Properties(after)[each], direction)
      {
      }
    }
  }

  /** Two variants that differ in one property they both have. */
  lemma OnlyProperty(schema: Json, name: string, one: Json, other: Json, direction: Direction)
    ensures SchemaCompatible(WithProperty(schema, name, one), WithProperty(schema, name, other), direction) <==>
            SchemaCompatible(one, other, direction)
  {
    var before, after := WithProperty(schema, name, one), WithProperty(schema, name, other);
    var properties, changed := JObject(Properties(schema)[name := one]), JObject(Properties(schema)[name := other]);
    KeywordsOfVariants(schema, "properties", properties, changed, direction);
    PropertiesOfVariants(schema, name, one, other, direction);
    forall keyword | keyword in NESTED_KEYWORDS
      ensures Member(before, keyword) == Member(after, keyword)
    {
    }
    SharedChildren(before, after, direction);
    Parts(before, after, direction);
  }

  const STRINGS := JObject(map["type" := JString("string")])
  const NUMBERS := JObject(map["type" := JString("number")])

  lemma StringsAreNoNumbers()
    ensures !SchemaCompatible(STRINGS, NUMBERS, Response)
  {
    assert EQUALITY_KEYWORDS[0] == "type";
    assert Member(STRINGS, "type") != Member(NUMBERS, "type");
  }

  /** Around a schema that is not plain two compatible response steps do not compose. */
  lemma {:induction false} Hidden(middle: Json) returns (first: Json, last: Json)
    requires !Plain(middle)
    ensures Between(first, middle, last)
    decreases middle
  {
    var written := Member(middle, "enum");
    if !written.JNull? && !written.JArray? {
      first, last := HiddenByEnum(middle);
    } else if name :| name in Properties(middle) && !Plain(Properties(middle)[name]) {
      var one, other := Hidden(Properties(middle)[name]);
      first, last := HiddenByProperty(middle, name, one, other);
    } else {
      var keyword :| keyword in NESTED_KEYWORDS && !Member(middle, keyword).JNull?
                     && !(Member(middle, keyword).JObject? && Plain(Member(middle, keyword)));
      var one, other := STRINGS, NUMBERS;
      StringsAreNoNumbers();
      if Member(middle, keyword).JObject? {
        one, other := Hidden(Member(middle, keyword));
      }
      first, last := HiddenByChild(middle, keyword, one, other);
    }
  }

  /** Two compatible steps that are not compatible as one. */
  predicate Between(first: Json, middle: Json, last: Json) {
    && middle.JObject? && first.JObject? && last.JObject?
    && SchemaCompatible(first, middle, Response) && SchemaCompatible(middle, last, Response)
    && !SchemaCompatible(first, last, Response)
  }

  lemma HiddenByProperty(middle: Json, name: string, one: Json, other: Json) returns (first: Json, last: Json)
    requires name in Properties(middle) && Between(one, Properties(middle)[name], other)
    ensures Between(first, middle, last)
  {
    var property := Properties(middle)[name];
    first, last := WithProperty(middle, name, one), WithProperty(middle, name, other);
    assert Properties(middle)[name := property] == Properties(middle);
    assert WithProperty(middle, name, property) == middle;
    OnlyProperty(middle, name, one, property, Response);
    OnlyProperty(middle, name, property, other, Response);
    OnlyProperty(middle, name, one, other, Response);
  }

  lemma HiddenByEnum(middle: Json) returns (first: Json, last: Json)
    requires !Member(middle, "enum").JNull? && !Member(middle, "enum").JArray?
    ensures Between(first, middle, last)
  {
    var written, one, other := Member(middle, "enum"), JArray([JNumber(0.0)]), JArray([JNumber(1.0)]);
    first, last := With(middle, "enum", one), With(middle, "enum", other);
    assert With(middle, "enum", written) == middle;
    OnlyEnum(middle, one, written, Response);
    OnlyEnum(middle, written, other, Response);
    OnlyEnum(middle, one, other, Response);
    assert other.items[0] in other.items && other.items[0] !in one.items;
  }

  lemma HiddenByChild(middle: Json, keyword: string, one: Json, other: Json) returns (first: Json, last: Json)
    requires keyword in NESTED_KEYWORDS && !Member(middle, keyword).JNull?
    requires one.JObject? && other.JObject? && !SchemaCompatible(one, other, Response)
    requires ChildCompatible(one, Member(middle, keyword), Response)
             && ChildCompatible(Member(middle, keyword), other, Response)
    ensures Between(first, middle, last)
  {
    var child := Member(middle, keyword);
    first, last := With(middle, keyword, one), With(middle, keyword, other);
    assert With(middle, keyword, child) == middle;
    OnlyChild(middle, keyword, one, child, Response);
    OnlyChild(middle, keyword, child, other, Response);
    OnlyChild(middle, keyword, one, other, Response);
  }

  ghost predicate Composes(middle: Json) {
    forall first, last ::
      SchemaCompatible(first, middle, Response) && SchemaCompatible(middle, last, Response) ==>
        SchemaCompatible(first, last, Response)
  }

  /** Response steps compose through exactly the plain schemas. */
  lemma ResponseTransitiveExactly(middle: Json)
    ensures Composes(middle) <==> Plain(middle)
  {
    if Plain(middle) {
      forall first, last | SchemaCompatible(first, middle, Response) && SchemaCompatible(middle, last, Response) {
        Transitive(first, middle, last, Response);
      }
    } else {
      var first, last := Hidden(middle);
    }
  }

  /** A schema that says nothing but `items`. */
  function OfItems(items: Json): Json {
    JObject(map["items" := items])
  }

  /** Between schemas that say nothing but `items`, only `items` is compared. */
  lemma OnlyItems(baseline: Json, current: Json, direction: Direction)
    ensures SchemaCompatible(OfItems(baseline), OfItems(current), direction) <==>
              ChildCompatible(baseline, current, direction)
  {
    assert "items" == NESTED_KEYWORDS[0];
    OnlyChild(JObject(map[]), "items", baseline, current, direction);
  }
}
