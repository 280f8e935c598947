/** Schema comparison of scripts/openapi_contract.py: which differences between
    two schemas break a client, and the traversal that reports them. */
module Schema {
  import opened Basics
  import opened Json

  datatype Direction = Request | Response
  datatype Severity = Compatible | Incompatible
  datatype Category = Security | Route | Method | Status | Header | RequiredField | SchemaPart
  datatype Change = Change(severity: Severity, category: Category, location: string)

  const EQUALITY_KEYWORDS: seq<string> := ["type", "format", "$ref"]
  const LOWER_BOUNDS: seq<string> := ["minimum", "exclusiveMinimum", "minLength", "minItems"]
  const UPPER_BOUNDS: seq<string> := ["maximum", "exclusiveMaximum", "maxLength", "maxItems"]
  const COMBINATORS: seq<string> := ["allOf", "anyOf", "not", "oneOf", "pattern"]
  const NESTED_KEYWORDS: seq<string> := ["items", "additionalProperties"]

  /** No change in the list breaks a client. */
  predicate Clean(changes: seq<Change>) {
    forall change :: change in changes ==> change.severity.Compatible?
  }

  lemma CleanConcat(left: seq<Change>, right: seq<Change>)
    ensures Clean(left + right) <==> Clean(left) && Clean(right)
  {
    if Clean(left + right) {
      forall change | change in left || change in right
        ensures change.severity.Compatible?
      {
        assert change in left + right;
      }
    }
  }

  function Elements<T(==)>(list: seq<T>): set<T> {
    set item | item in list
  }

  predicate Contained<T(==)>(left: seq<T>, right: seq<T>) {
    forall item :: item in left ==> item in right
  }

  lemma ElementsContained<T>(left: seq<T>, right: seq<T>)
    ensures Elements(left) <= Elements(right) <==> Contained(left, right)
  {
    assert forall item :: item in left <==> item in Elements(left);
    assert forall item :: item in right <==> item in Elements(right);
  }

  lemma DifferenceEmpty<T>(left: set<T>, right: set<T>)
    ensures left - right == {} <==> left <= right
  {
    assert left <= right <==> forall item :: item in left ==> item !in left - right;
  }

  // ---------------------------------------------------------------------
  // What compatibility means: one side writes values, the other reads them.

  /** The side whose clients or servers produce the value. */
  function Writer<T>(direction: Direction, baseline: T, current: T): T {
    if direction.Request? then baseline else current
  }

  /** The side that has to accept it. */
  function Reader<T>(direction: Direction, baseline: T, current: T): T {
    if direction.Request? then current else baseline
  }

  /** The reader dropped the keyword or kept the writer's value. */
  predicate KeptOrDropped(writer: Json, reader: Json) {
    reader.JNull? || reader == writer
  }

  /** The reader's bound is no stricter than the writer's. */
  predicate BoundKept(writer: Json, reader: Json, lower: bool) {
    || reader.JNull?
    || reader == writer
    || (Numeric(writer) && Numeric(reader) &&
        if lower then AsNumber(reader) <= AsNumber(writer) else AsNumber(writer) <= AsNumber(reader))
  }

  /** The writer's values are among the reader's. */
  predicate EnumKept(baseline: Json, current: Json, direction: Direction) {
    if baseline.JArray? && current.JArray? then
      Contained(Writer(direction, baseline, current).items, Reader(direction, baseline, current).items)
    else
      baseline == current || if direction.Request? then current.JNull? else !current.JNull?
  }

  function Properties(schema: Json): Object {
    Mapping(Member(schema, "properties"))
  }

  function Required(schema: Json): set<string> {
    Names(Member(schema, "required"))
  }

  /** The keywords of one schema object, without its nested schemas. */
  predicate KeywordsCompatible(baseline: Json, current: Json, direction: Direction) {
    var writer, reader := Writer(direction, baseline, current), Reader(direction, baseline, current);
    && (forall keyword :: keyword in EQUALITY_KEYWORDS ==>
        KeptOrDropped(Member(writer, keyword), Member(reader, keyword)))
    && (forall keyword :: keyword in LOWER_BOUNDS ==> BoundKept(Member(writer, keyword), Member(reader, keyword), true))
    && (forall keyword :: keyword in UPPER_BOUNDS ==>
        BoundKept(Member(writer, keyword), Member(reader, keyword), false))
    && (forall keyword :: keyword in COMBINATORS ==> KeptOrDropped(Member(writer, keyword), Member(reader, keyword)))
    && EnumKept(Member(baseline, "enum"), Member(current, "enum"), direction)
    && Required(reader) <= Required(writer)
  }

  /** No property disappears, and no added request property is required. */
  predicate PropertyNamesCompatible(baseline: Json, current: Json, direction: Direction) {
    && (forall name :: name in Properties(baseline) ==> name in Properties(current))
    && (direction.Request? ==>
          forall name :: name in Properties(current) && name !in Properties(baseline) ==> name !in Required(current))
  }

  /** "No incompatible change" between two schemas in one fixed direction. */
  predicate SchemaCompatible(baseline: Json, current: Json, direction: Direction)
    decreases baseline
  {
    && KeywordsCompatible(baseline, current, direction)
    && PropertyNamesCompatible(baseline, current, direction)
    && (forall name :: name in Properties(baseline) && name in Properties(current) ==>
          SchemaCompatible(Properties(baseline)[name], Properties(current)[name], direction))
    && (forall keyword :: keyword in NESTED_KEYWORDS ==>
          var oldChild, newChild := Member(baseline, keyword), Member(current, keyword);
          if oldChild.JObject? && newChild.JObject? then
            SchemaCompatible(oldChild, newChild, direction)
          else
            LooseChildCompatible(oldChild, newChild, direction))
  }

  /** A nested schema that is missing or a boolean on one side. */
  predicate LooseChildCompatible(baseline: Json, current: Json, direction: Direction) {
    baseline == current || if direction.Request? then current.JNull? else !current.JNull?
  }

  // ---------------------------------------------------------------------
  // The traversal

  function DirectionalSeverity(direction: Direction, requestIncompatible: bool): (severity: Severity)
    ensures direction.Request? ==> (severity.Incompatible? <==> requestIncompatible)
    ensures direction.Response? ==> (severity.Incompatible? <==> !requestIncompatible)
  {
    var incompatible := if direction.Request? then requestIncompatible else !requestIncompatible;
    if incompatible then Incompatible else Compatible
  }

  /** `_constraint_change`, as a list of at most one change. */
  function ConstraintChange(keyword: string, baseline: Json, current: Json, direction: Direction,
                            lowerBound: bool, location: string): (changes: seq<Change>)
    ensures Clean(changes) <==>
              BoundKept(Writer(direction, baseline, current), Reader(direction, baseline, current), lowerBound)
    ensures changes == [] ==>
              baseline == current || (Numeric(baseline) && Numeric(current) && AsNumber(baseline) == AsNumber(current))
    ensures baseline == current ==> changes == []
  {
    var place := location + "/" + keyword;
    if baseline == current || (Numeric(baseline) && Numeric(current) && AsNumber(baseline) == AsNumber(current)) then
      []
    else
      var severity :=
        if baseline.JNull? then DirectionalSeverity(direction, !current.JNull?)
        else if current.JNull? then DirectionalSeverity(direction, false)
        else if Numeric(baseline) && Numeric(current) then
          DirectionalSeverity(direction, if lowerBound then AsNumber(current) > AsNumber(baseline)
                              else AsNumber(current) < AsNumber(baseline))
        else Incompatible;
      var change := Change(severity, SchemaPart, place);
      assert change in [change];
      [change]
  }

  /** A keyword compared by equality: present on one side only is a matter of
      direction, two different values always break. */
  method EqualityChanges(baseline: Json, current: Json, keywords: seq<string>, direction: Direction,
                         location: string, nested: bool) returns (changes: seq<Change>)
    ensures Clean(changes) <==>
            forall keyword :: keyword in keywords ==>
              KeptOrDropped(Member(Writer(direction, baseline, current), keyword),
                            Member(Reader(direction, baseline, current), keyword))
    ensures changes == [] <==> forall keyword :: keyword in keywords ==>
              Member(baseline, keyword) == Member(current, keyword)
  {
    changes := [];
    for i := 0 to |keywords|
      invariant Clean(changes) <==>
                forall j :: 0 <= j < i ==>
                  KeptOrDropped(Member(Writer(direction, baseline, current), keywords[j]),
                                Member(Reader(direction, baseline, current), keywords[j]))
      invariant changes == [] <==> forall j :: 0 <= j < i ==>
                Member(baseline, keywords[j]) == Member(current, keywords[j])
    {
      var oldValue, newValue := Member(baseline, keywords[i]), Member(current, keywords[i]);
      if oldValue != newValue {
        var severity := if oldValue.JNull? || newValue.JNull?
                        then DirectionalSeverity(direction, !newValue.JNull?) else Incompatible;
        var change := Change(severity, SchemaPart, if nested then location + "/" + keywords[i] else location);
        CleanConcat(changes, [change]);
        assert change in [change];
        changes := changes + [change];
      }
    }
  }

  method BoundChanges(baseline: Json, current: Json, keywords: seq<string>, lowerBound: bool, direction: Direction,
                      location: string) returns (changes: seq<Change>)
    ensures Clean(changes) <==>
            forall keyword :: keyword in keywords ==>
              BoundKept(Member(Writer(direction, baseline, current), keyword),
                        Member(Reader(direction, baseline, current), keyword), lowerBound)
    ensures baseline == current ==> changes == []
  {
    changes := [];
    for i := 0 to |keywords|
      invariant Clean(changes) <==>
                forall j :: 0 <= j < i ==>
                  BoundKept(Member(Writer(direction, baseline, current), keywords[j]),
                            Member(Reader(direction, baseline, current), keywords[j]), lowerBound)
      invariant baseline == current ==> changes == []
    {
      var change := ConstraintChange(keywords[i], Member(baseline, keywords[i]), Member(current, keywords[i]),
                                     direction, lowerBound, location);
      CleanConcat(changes, change);
      changes := changes + change;
    }
  }

  method EnumChanges(baseline: Json, current: Json, direction: Direction, location: string)
    returns (changes: seq<Change>)
    ensures Clean(changes) <==> EnumKept(baseline, current, direction)
    ensures baseline == current ==> changes == []
  {
    changes := [];
    if baseline.JArray? && current.JArray? {
      var oldValues, newValues := Elements(baseline.items), Elements(current.items);
      DifferenceEmpty(oldValues, newValues);
      DifferenceEmpty(newValues, oldValues);
      ElementsContained(baseline.items, current.items);
      ElementsContained(current.items, baseline.items);
      var removal := Change(DirectionalSeverity(direction, true), SchemaPart, location);
      var addition := Change(DirectionalSeverity(direction, false), SchemaPart, location);
      assert removal in [removal] && addition in [addition];
      if oldValues - newValues != {} {
        changes := [removal];
      }
      if newValues - oldValues != {} {
        CleanConcat(changes, [addition]);
        changes := changes + [addition];
      }
    } else if baseline != current {
      var change := Change(DirectionalSeverity(direction, !current.JNull?), SchemaPart, location);
      assert change in [change];
      changes := [change];
    }
  }

  /** One change of fixed severity and category per name. */
  method NamedChanges(names: set<string>, severity: Severity, category: Category, prefix: string)
    returns (changes: seq<Change>)
    ensures Clean(changes) <==> severity.Compatible? || names == {}
    ensures changes == [] <==> names == {}
    ensures forall change :: change in changes <==>
              exists name :: name in names && change == Change(severity, category, prefix + "/" + name)
  {
    var order := InSomeOrder(names);
    changes := [];
    for i := 0 to |order|
      invariant |changes| == i
      invariant forall j :: 0 <= j < i ==> changes[j] == Change(severity, category, prefix + "/" + order[j])
    {
      changes := changes + [Change(severity, category, prefix + "/" + order[i])];
    }
    forall change
      ensures change in changes <==> exists name ::
              name in names && change == Change(severity, category, prefix + "/" + name)
    {
      if name :| name in names && change == Change(severity, category, prefix + "/" + name) {
        var j :| 0 <= j < |order| && order[j] == name;
        assert changes[j] == change;
      }
    }
    if order != [] {
      assert changes[0] in changes && order[0] in names;
    } else {
      assert forall name :: name !in names;
    }
  }

  method RequiredChanges(baseline: Json, current: Json, direction: Direction, location: string)
    returns (changes: seq<Change>)
    ensures Clean(changes) <==>
              Required(Reader(direction, baseline, current)) <= Required(Writer(direction, baseline, current))
    ensures baseline == current ==> changes == []
  {
    var gained, lost := Required(current) - Required(baseline), Required(baseline) - Required(current);
    var became := NamedChanges(gained, DirectionalSeverity(direction, true), RequiredField, location);
    var dropped := NamedChanges(lost, DirectionalSeverity(direction, false), RequiredField, location);
    CleanConcat(became, dropped);
    changes := became + dropped;
    DifferenceEmpty(Required(current), Required(baseline));
    DifferenceEmpty(Required(baseline), Required(current));
  }

  /** Properties present on one side only. */
  method PropertyNameChanges(baseline: Json, current: Json, direction: Direction, location: string)
    returns (changes: seq<Change>)
    ensures Clean(changes) <==> PropertyNamesCompatible(baseline, current, direction)
    ensures baseline == current ==> changes == []
  {
    var removed, added := Properties(baseline).Keys - Properties(current).Keys,
      Properties(current).Keys - Properties(baseline).Keys;
    changes := NamedChanges(removed, Incompatible, SchemaPart, location + "/properties");
    DifferenceEmpty(Properties(baseline).Keys, Properties(current).Keys);
    var order := InSomeOrder(added);
    ghost var removals := Clean(changes);
    for i := 0 to |order|
      invariant Clean(changes) <==>
                removals && (direction.Request? ==> forall name :: name in order[..i] ==> name !in Required(current))
      invariant baseline == current ==> changes == []
    {
      assert order[..i + 1] == order[..i] + [order[i]];
      var severity := DirectionalSeverity(direction, direction.Request? && order[i] in Required(current));
      if direction.Response? {
        severity := Compatible;
      }
      var change := Change(severity, SchemaPart, location + "/properties/" + order[i]);
      CleanConcat(changes, [change]);
      assert change in [change];
      assert order[i] in added;
      changes := changes + [change];
    }
    assert order[..|order|] == order;
    assert forall name :: name in order <==> name in Properties(current) && name !in Properties(baseline);
  }

  /** `_nested_schema_changes` for a child that is not an object on both sides. */
  function LooseChildChange(baseline: Json, current: Json, location: string,
                            direction: Direction): (changes: seq<Change>)
    ensures Clean(changes) <==> LooseChildCompatible(baseline, current, direction)
    ensures changes == [] <==> baseline == current
  {
    if baseline == current then
      []
    else
      var requestIncompatible := if baseline.JNull? then !current.JNull? else if current.JNull? then false else true;
      var change := Change(DirectionalSeverity(direction, requestIncompatible), SchemaPart, location);
      assert change in [change];
      [change]
  }

  lemma FourConcat(one: seq<Change>, two: seq<Change>, three: seq<Change>, four: seq<Change>)
    ensures Clean(one + two + three + four) <==> Clean(one) && Clean(two) && Clean(three) && Clean(four)
  {
    CleanConcat(one, two);
    CleanConcat(one + two, three);
    CleanConcat(one + two + three, four);
  }

  /** `_schema_changes`: what it reports is free of incompatible changes exactly
      when the two schemas are compatible, and nothing is reported between
      equal schemas. */
  method SchemaChanges(baseline: Json, current: Json, location: string, direction: Direction)
    returns (changes: seq<Change>)
    ensures Clean(changes) <==> SchemaCompatible(baseline, current, direction)
    ensures baseline == current ==> changes == []
    decreases baseline, 1
  {
    var keywords := KeywordChanges(baseline, current, location, direction);
    var names := PropertyNameChanges(baseline, current, direction, location);
    var properties := SharedPropertyChanges(baseline, current, location, direction);
    var nested := NestedChanges(baseline, current, location, direction);
    FourConcat(keywords, names, properties, nested);
    changes := keywords + names + properties + nested;
  }

  /** The keywords of the two schemas themselves. */
  method KeywordChanges(baseline: Json, current: Json, location: string, direction: Direction)
    returns (changes: seq<Change>)
    ensures Clean(changes) <==> KeywordsCompatible(baseline, current, direction)
    ensures baseline == current ==> changes == []
  {
    var equality := EqualityChanges(baseline, current, EQUALITY_KEYWORDS, direction, location, false);
    var lower := BoundChanges(baseline, current, LOWER_BOUNDS, true, direction, location);
    var upper := BoundChanges(baseline, current, UPPER_BOUNDS, false, direction, location);
    var combinators := EqualityChanges(baseline, current, COMBINATORS, direction, location, true);
    var values := EnumChanges(Member(baseline, "enum"), Member(current, "enum"), direction, location);
    var required := RequiredChanges(baseline, current, direction, location);
    CleanConcat(equality, lower);
    CleanConcat(equality + lower, upper);
    CleanConcat(equality + lower + upper, combinators);
    CleanConcat(equality + lower + upper + combinators, values);
    CleanConcat(equality + lower + upper + combinators + values, required);
    changes := equality + lower + upper + combinators + values + required;
  }

  method SharedPropertyChanges(baseline: Json, current: Json, location: string, direction: Direction)
    returns (changes: seq<Change>)
    ensures Clean(changes) <==>
            forall name :: name in Properties(baseline) && name in Properties(current) ==>
              SchemaCompatible(Properties(baseline)[name], Properties(current)[name], direction)
    ensures baseline == current ==> changes == []
    decreases baseline, 0
  {
    var oldProperties, newProperties := Properties(baseline), Properties(current);
    var names := oldProperties.Keys * newProperties.Keys;
    changes := [];
    ghost var done := {};
    while names != {}
      invariant names + done == oldProperties.Keys * newProperties.Keys
      invariant Clean(changes) <==>
                forall name :: name in done ==> SchemaCompatible(oldProperties[name], newProperties[name], direction)
      invariant baseline == current ==> changes == []
      decreases names
    {
      var name :| name in names;
      var child := SchemaChanges(oldProperties[name], newProperties[name], location + "/properties/" + name, direction);
      CleanConcat(changes, child);
      changes := changes + child;
      names, done := names - {name}, done + {name};
    }
  }

  method NestedChanges(baseline: Json, current: Json, location: string, direction: Direction)
    returns (changes: seq<Change>)
    ensures Clean(changes) <==>
            forall keyword :: keyword in NESTED_KEYWORDS ==>
              var oldChild, newChild := Member(baseline, keyword), Member(current, keyword);
              if oldChild.JObject? && newChild.JObject? then
                SchemaCompatible(oldChild, newChild, direction)
              else
                LooseChildCompatible(oldChild, newChild, direction)
    ensures baseline == current ==> changes == []
    decreases baseline, 0
  {
    changes := [];
    for i := 0 to |NESTED_KEYWORDS|
      invariant Clean(changes) <==>
                forall j :: 0 <= j < i ==>
                  var oldChild, newChild := Member(baseline, NESTED_KEYWORDS[j]), Member(current, NESTED_KEYWORDS[j]);
                  if oldChild.JObject? && newChild.JObject? then
                    SchemaCompatible(oldChild, newChild, direction)
                  else
                    LooseChildCompatible(oldChild, newChild, direction)
      invariant baseline == current ==> changes == []
    {
      var oldChild, newChild := Member(baseline, NESTED_KEYWORDS[i]), Member(current, NESTED_KEYWORDS[i]);
      var place := location + "/" + NESTED_KEYWORDS[i];
      var child := [];
      if oldChild.JObject? && newChild.JObject? {
        child := SchemaChanges(oldChild, newChild, place, direction);
      } else {
        child := LooseChildChange(oldChild, newChild, place, direction);
      }
      CleanConcat(changes, child);
      changes := changes + child;
    }
  }
}
