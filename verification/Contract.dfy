/** Comparison of operations and of whole OpenAPI documents. */
module Contract {
  import opened Basics
  import opened Json
  import opened Schema
  import opened Meaning
  import opened Roles

  type ParameterKey = (string, string)

  /** `_parameter_key`: only parameters with a textual place and name count. */
  predicate Keyed(parameter: Json) {
    Member(parameter, "in").JString? && Member(parameter, "name").JString?
  }

  function KeyOf(parameter: Json): ParameterKey
    requires Keyed(parameter)
  {
    (Member(parameter, "in").text, Member(parameter, "name").text)
  }

  /** The parameter dictionary: of two with one key, the later one wins. */
  function ParameterMap(parameters: seq<Json>): map<ParameterKey, Json> {
    if parameters == [] then map[]
    else
      var last := parameters[|parameters| - 1];
      var others := ParameterMap(parameters[..|parameters| - 1]);
      if Keyed(last) then others[KeyOf(last) := last] else others
  }

  function Parameters(operation: Json): map<ParameterKey, Json> {
    ParameterMap(Items(Member(operation, "parameters")))
  }

  function Body(operation: Json): Json {
    Member(operation, "requestBody")
  }

  function Content(holder: Json): Object {
    Mapping(Member(holder, "content"))
  }

  function Responses(operation: Json): Object {
    Mapping(Member(operation, "responses"))
  }

  function Headers(response: Json): Object {
    Mapping(Member(response, "headers"))
  }

  /** The schema of a parameter, a header or a media type. */
  function SchemaOf(holder: Json): Json {
    Member(holder, "schema")
  }

  predicate RequiredFlag(holder: Json) {
    Truthy(Member(holder, "required"))
  }

  predicate Empty(holder: Json) {
    Mapping(holder) == map[]
  }

  // ---------------------------------------------------------------------
  // What an operation has to keep

  predicate ParametersCompatible(baseline: map<ParameterKey, Json>, current: map<ParameterKey, Json>) {
    && (forall key :: key in baseline ==> key in current)
    && (forall key :: key in current && RequiredFlag(current[key]) ==> key in baseline && RequiredFlag(baseline[key]))
    && (forall key :: key in baseline && key in current ==>
          SchemaCompatible(SchemaOf(baseline[key]), SchemaOf(current[key]), Request))
  }

  predicate BodyCompatible(baseline: Json, current: Json) {
    if Empty(baseline) then
      Empty(current) || !RequiredFlag(current)
    else
      && !Empty(current)
      && (RequiredFlag(current) ==> RequiredFlag(baseline))
      && forall media :: media in Content(baseline) ==>
            MediaCompatible(Content(baseline)[media], Get(Content(current), media))
  }

  predicate MediaCompatible(baseline: Json, current: Json) {
    !Empty(current) && SchemaCompatible(SchemaOf(baseline), SchemaOf(current), Request)
  }

  /** Named response parts: none removed, shared ones compatible. */
  predicate PartsCompatible(baseline: Object, current: Object) {
    && (forall name :: name in baseline ==> name in current)
    && forall name :: name in baseline && name in current ==>
         SchemaCompatible(SchemaOf(baseline[name]), SchemaOf(current[name]), Response)
  }

  predicate ResponseCompatible(baseline: Json, current: Json) {
    && PartsCompatible(Headers(baseline), Headers(current))
    && PartsCompatible(Content(baseline), Content(current))
  }

  predicate OperationCompatible(baseline: Json, current: Json) {
    && Member(baseline, "security") == Member(current, "security")
    && ParametersCompatible(Parameters(baseline), Parameters(current))
    && BodyCompatible(Body(baseline), Body(current))
    && (forall status :: status in Responses(baseline) ==> status in Responses(current))
    && forall status :: status in Responses(baseline) && status in Responses(current) ==>
         ResponseCompatible(Responses(baseline)[status], Responses(current)[status])
  }

  // ---------------------------------------------------------------------
  // The traversal

  method Report(condition: bool, category: Category, location: string) returns (changes: seq<Change>)
    ensures Clean(changes) <==> !condition
  {
    if condition {
      var change := Change(Incompatible, category, location);
      assert change in [change];
      return [change];
    }
    return [];
  }

  method ParameterChanges(baseline: map<ParameterKey, Json>, current: map<ParameterKey, Json>, location: string)
    returns (changes: seq<Change>)
    ensures Clean(changes) <==> ParametersCompatible(baseline, current)
  {
    var keys := baseline.Keys + current.Keys;
    changes := [];
    ghost var done := {};
    while keys != {}
      invariant keys + done == baseline.Keys + current.Keys
      invariant Clean(changes) <==> forall key :: key in done ==> ParameterKept(baseline, current, key)
      decreases keys
    {
      var key :| key in keys;
      var change := ParameterChange(baseline, current, key, location + "/parameters/" + key.0 + "/" + key.1);
      CleanConcat(changes, change);
      changes := changes + change;
      keys, done := keys - {key}, done + {key};
    }
    ParametersKeptOneByOne(baseline, current);
  }

  lemma ParametersKeptOneByOne(baseline: map<ParameterKey, Json>, current: map<ParameterKey, Json>)
    ensures ParametersCompatible(baseline, current) <==>
            forall key :: key in baseline || key in current ==> ParameterKept(baseline, current, key)
  {
  }

  predicate ParameterKept(baseline: map<ParameterKey, Json>, current: map<ParameterKey, Json>, key: ParameterKey) {
    && (key in baseline ==> key in current)
    && (key in current && RequiredFlag(current[key]) ==> key in baseline && RequiredFlag(baseline[key]))
    && (key in baseline && key in current ==>
        SchemaCompatible(SchemaOf(baseline[key]), SchemaOf(current[key]), Request))
  }

  method ParameterChange(baseline: map<ParameterKey, Json>, current: map<ParameterKey, Json>, key: ParameterKey,
                         location: string)
    returns (changes: seq<Change>)
    requires key in baseline || key in current
    ensures Clean(changes) <==> ParameterKept(baseline, current, key)
  {
    if key !in current {
      changes := Report(true, SchemaPart, location);
    } else if key !in baseline {
      var change := Change(if RequiredFlag(current[key]) then Incompatible else Compatible, SchemaPart, location);
      assert change in [change];
      changes := [change];
    } else {
      changes := Report(!RequiredFlag(baseline[key]) && RequiredFlag(current[key]), RequiredField, location);
      var schema := SchemaChanges(SchemaOf(baseline[key]), SchemaOf(current[key]), location, Request);
      CleanConcat(changes, schema);
      changes := changes + schema;
    }
  }

  method BodyChanges(baseline: Json, current: Json, location: string) returns (changes: seq<Change>)
    ensures Clean(changes) <==> BodyCompatible(baseline, current)
  {
    var place := location + "/requestBody";
    if !Empty(baseline) && Empty(current) {
      changes := Report(true, SchemaPart, place);
    } else if !Empty(current) && Empty(baseline) {
      var change := Change(if RequiredFlag(current) then Incompatible else Compatible,
                           if RequiredFlag(current) then RequiredField else SchemaPart, place);
      assert change in [change];
      changes := [change];
    } else if !Empty(baseline) {
      changes := Report(!RequiredFlag(baseline) && RequiredFlag(current), RequiredField, place);
      var media := MediaChanges(Content(baseline), Content(current), place);
      CleanConcat(changes, media);
      changes := changes + media;
    } else {
      changes := [];
    }
  }

  method MediaChanges(baseline: Object, current: Object, location: string) returns (changes: seq<Change>)
    ensures Clean(changes) <==> forall media :: media in baseline ==>
              MediaCompatible(baseline[media], Get(current, media))
  {
    var names := baseline.Keys;
    changes := [];
    ghost var done := {};
    while names != {}
      invariant names + done == baseline.Keys
      invariant Clean(changes) <==> forall media :: media in done ==>
                MediaCompatible(baseline[media], Get(current, media))
      decreases names
    {
      var name :| name in names;
      var oldMedia, newMedia, place := baseline[name], Get(current, name), location + "/" + name;
      var change;
      if Empty(newMedia) {
        change := Report(true, SchemaPart, place);
      } else {
        change := SchemaChanges(SchemaOf(oldMedia), SchemaOf(newMedia), place, Request);
      }
      CleanConcat(changes, change);
      changes := changes + change;
      names, done := names - {name}, done + {name};
    }
  }

  /** Headers or media types of one response. An added header is reported as
      compatible, an added media type is not reported at all. */
  method PartChanges(baseline: Object, current: Object, category: Category, reportAdded: bool, location: string)
    returns (changes: seq<Change>)
    ensures Clean(changes) <==> PartsCompatible(baseline, current)
  {
    changes := NamedChanges(baseline.Keys - current.Keys, Incompatible, category, location);
    DifferenceEmpty(baseline.Keys, current.Keys);
    if reportAdded {
      var added := NamedChanges(current.Keys - baseline.Keys, Compatible, category, location);
      CleanConcat(changes, added);
      changes := changes + added;
    }
    var shared := SharedPartChanges(baseline, current, location);
    CleanConcat(changes, shared);
    changes := changes + shared;
  }

  method SharedPartChanges(baseline: Object, current: Object, location: string) returns (changes: seq<Change>)
    ensures Clean(changes) <==> forall name :: name in baseline && name in current ==>
              SchemaCompatible(SchemaOf(baseline[name]), SchemaOf(current[name]), Response)
  {
    var names := baseline.Keys * current.Keys;
    changes := [];
    ghost var done := {};
    while names != {}
      invariant names + done == baseline.Keys * current.Keys
      invariant Clean(changes) <==>
                forall name :: name in done ==>
                  SchemaCompatible(SchemaOf(baseline[name]), SchemaOf(current[name]), Response)
      decreases names
    {
      var name :| name in names;
      var change := SchemaChanges(SchemaOf(baseline[name]), SchemaOf(current[name]), location + "/" + name, Response);
      CleanConcat(changes, change);
      changes := changes + change;
      names, done := names - {name}, done + {name};
    }
  }

  method ResponseChanges(baseline: Object, current: Object, location: string) returns (changes: seq<Change>)
    ensures Clean(changes) <==>
            && (forall status :: status in baseline ==> status in current)
            && (forall status :: status in baseline && status in current ==>
                  ResponseCompatible(baseline[status], current[status]))
  {
    changes := NamedChanges(baseline.Keys - current.Keys, Incompatible, Status, location);
    DifferenceEmpty(baseline.Keys, current.Keys);
    var added := NamedChanges(current.Keys - baseline.Keys, Compatible, Status, location);
    CleanConcat(changes, added);
    changes := changes + added;
    ghost var names := Clean(changes);
    var order := InSomeOrder(baseline.Keys * current.Keys);
    assert forall j :: 0 <= j < |order| ==> order[j] in baseline.Keys * current.Keys;
    for i := 0 to |order|
      invariant Clean(changes) <==>
                names && forall j :: 0 <= j < i ==> ResponseCompatible(baseline[order[j]], current[order[j]])
    {
      var oldResponse, newResponse, place := baseline[order[i]], current[order[i]], location + "/" + order[i];
      var headers := PartChanges(Headers(oldResponse), Headers(newResponse), Header, true, place + "/headers");
      var content := PartChanges(Content(oldResponse), Content(newResponse), SchemaPart, false, place + "/content");
      CleanConcat(headers, content);
      CleanConcat(changes, headers + content);
      changes := changes + (headers + content);
    }
    assert forall status :: status in baseline && status in current <==> status in order;
  }

  /** `_operation_changes` */
  method OperationChanges(baseline: Json, current: Json, location: string) returns (changes: seq<Change>)
    ensures Clean(changes) <==> OperationCompatible(baseline, current)
  {
    var security := Report(Member(baseline, "security") != Member(current, "security"), Security, location);
    var parameters := ParameterChanges(Parameters(baseline), Parameters(current), location);
    var body := BodyChanges(Body(baseline), Body(current), location);
    var responses := ResponseChanges(Responses(baseline), Responses(current), location + "/responses");
    CleanConcat(security, parameters);
    CleanConcat(security + parameters, body);
    CleanConcat(security + parameters + body, responses);
    changes := security + parameters + body + responses;
  }

  // ---------------------------------------------------------------------
  // Documents

  function Verbs(document: Json, path: string): set<string> {
    Mapping(Get(Paths(document), path)).Keys * HTTP_METHODS
  }

  function SecuritySchemes(document: Json): Object {
    Mapping(Member(Member(document, "components"), "securitySchemes"))
  }

  predicate PathCompatible(baseline: Json, current: Json, path: string) {
    && (forall verb :: verb in Verbs(baseline, path) ==> verb in Verbs(current, path))
    && forall verb :: verb in Verbs(baseline, path) && verb in Verbs(current, path) ==>
         OperationCompatible(Operation(baseline, path, verb), Operation(current, path, verb))
  }

  predicate RoutesCompatible(baseline: Json, current: Json) {
    && (forall path :: path in Paths(baseline) ==> path in Paths(current))
    && forall path :: path in Paths(baseline) && path in Paths(current) ==> PathCompatible(baseline, current, path)
  }

  predicate SecurityCompatible(baseline: Json, current: Json) {
    && Member(baseline, "security") == Member(current, "security")
    && forall name :: name in SecuritySchemes(baseline) ==>
         name in SecuritySchemes(current) && SecuritySchemes(baseline)[name] == SecuritySchemes(current)[name]
  }

  ghost predicate TravelsEither(baseline: Json, current: Json, name: string, direction: Direction) {
    Travels(baseline, direction, name) || Travels(current, direction, name)
  }

  /** A component is compared in the directions it travels on either side, and
      in both when it travels nowhere. */
  ghost predicate ComparedIn(baseline: Json, current: Json, name: string, direction: Direction) {
    TravelsEither(baseline, current, name, direction)
    || (!TravelsEither(baseline, current, name, Request) && !TravelsEither(baseline, current, name, Response))
  }

  ghost predicate ComponentCompatible(baseline: Json, current: Json, name: string)
    requires name in Components(baseline)
  {
    && name in Components(current)
    && (ComparedIn(baseline, current, name, Request) ==>
          SchemaCompatible(Components(baseline)[name], Components(current)[name], Request))
    && (ComparedIn(baseline, current, name, Response) ==>
          SchemaCompatible(Components(baseline)[name], Components(current)[name], Response))
  }

  /** Nothing a client of `baseline` relies on is broken by `current`. */
  ghost predicate ContractCompatible(baseline: Json, current: Json) {
    && SecurityCompatible(baseline, current)
    && RoutesCompatible(baseline, current)
    && forall name :: name in Components(baseline) ==> ComponentCompatible(baseline, current, name)
  }

  method PathChanges(baseline: Json, current: Json, path: string) returns (changes: seq<Change>)
    requires path in Paths(baseline) && path in Paths(current)
    ensures Clean(changes) <==> PathCompatible(baseline, current, path)
  {
    var oldVerbs, newVerbs := Verbs(baseline, path), Verbs(current, path);
    changes := NamedChanges(oldVerbs - newVerbs, Incompatible, Method, path);
    DifferenceEmpty(oldVerbs, newVerbs);
    var added := NamedChanges(newVerbs - oldVerbs, Compatible, Method, path);
    CleanConcat(changes, added);
    changes := changes + added;
    ghost var names := Clean(changes);
    var order := InSomeOrder(oldVerbs * newVerbs);
    for i := 0 to |order|
      invariant Clean(changes) <==>
                names && forall j :: 0 <= j < i ==>
                  OperationCompatible(Operation(baseline, path, order[j]), Operation(current, path, order[j]))
    {
      var change := OperationChanges(Operation(baseline, path, order[i]), Operation(current, path, order[i]),
                                     order[i] + " " + path);
      CleanConcat(changes, change);
      changes := changes + change;
    }
    assert forall verb :: verb in oldVerbs && verb in newVerbs <==> verb in order;
  }

  method RouteChanges(baseline: Json, current: Json) returns (changes: seq<Change>)
    ensures Clean(changes) <==> RoutesCompatible(baseline, current)
  {
    var oldPaths, newPaths := Paths(baseline).Keys, Paths(current).Keys;
    changes := NamedChanges(oldPaths - newPaths, Incompatible, Route, "paths");
    DifferenceEmpty(oldPaths, newPaths);
    var added := NamedChanges(newPaths - oldPaths, Compatible, Route, "paths");
    CleanConcat(changes, added);
    changes := changes + added;
    ghost var names := Clean(changes);
    var order := InSomeOrder(oldPaths * newPaths);
    assert forall j :: 0 <= j < |order| ==> order[j] in oldPaths * newPaths;
    for i := 0 to |order|
      invariant Clean(changes) <==>
                names && forall j :: 0 <= j < i ==> PathCompatible(baseline, current, order[j])
    {
      var change := PathChanges(baseline, current, order[i]);
      CleanConcat(changes, change);
      changes := changes + change;
    }
    assert forall path :: path in oldPaths && path in newPaths <==> path in order;
  }

  method SecuritySchemeChanges(baseline: Object, current: Object) returns (changes: seq<Change>)
    ensures Clean(changes) <==>
            forall name :: name in baseline ==> name in current && baseline[name] == current[name]
  {
    changes := NamedChanges(baseline.Keys - current.Keys, Incompatible, Security, "components/securitySchemes");
    DifferenceEmpty(baseline.Keys, current.Keys);
    ghost var names := Clean(changes);
    var order := InSomeOrder(baseline.Keys * current.Keys);
    assert forall j :: 0 <= j < |order| ==> order[j] in baseline.Keys * current.Keys;
    for i := 0 to |order|
      invariant Clean(changes) <==> names && forall j :: 0 <= j < i ==> baseline[order[j]] == current[order[j]]
    {
      var change := Report(baseline[order[i]] != current[order[i]], Security, "components/securitySchemes/" + order[i]);
      CleanConcat(changes, change);
      changes := changes + change;
    }
    assert forall name :: name in baseline && name in current <==> name in order;
  }

  method ComponentChanges(baseline: Json, current: Json) returns (changes: seq<Change>)
    ensures Clean(changes) <==> forall name :: name in Components(baseline) ==>
              ComponentCompatible(baseline, current, name)
  {
    var oldNames, newNames := Components(baseline).Keys, Components(current).Keys;
    changes := NamedChanges(oldNames - newNames, Incompatible, SchemaPart, "components/schemas");
    DifferenceEmpty(oldNames, newNames);
    var added := NamedChanges(newNames - oldNames, Compatible, SchemaPart, "components/schemas");
    var oldRoles := ComponentSchemaRoles(baseline);
    var newRoles := ComponentSchemaRoles(current);
    var shared := SharedComponentChanges(baseline, current, oldRoles, newRoles);
    CleanConcat(changes, added);
    CleanConcat(changes + added, shared);
    changes := changes + added + shared;
  }

  method SharedComponentChanges(baseline: Json, current: Json, oldRoles: RoleTable, newRoles: RoleTable)
    returns (changes: seq<Change>)
    requires CorrectRoles(baseline, oldRoles) && CorrectRoles(current, newRoles)
    ensures Clean(changes) <==>
            forall name :: name in Components(baseline) && name in Components(current) ==>
              ComponentCompatible(baseline, current, name)
  {
    var names := Components(baseline).Keys * Components(current).Keys;
    changes := [];
    ghost var done := {};
    while names != {}
      invariant names + done == Components(baseline).Keys * Components(current).Keys
      invariant Clean(changes) <==> forall name :: name in done ==> ComponentCompatible(baseline, current, name)
      decreases names
    {
      var name :| name in names;
      var change := ComponentChange(baseline, current, oldRoles, newRoles, name);
      CleanConcat(changes, change);
      changes := changes + change;
      names, done := names - {name}, done + {name};
    }
  }

  method ComponentChange(baseline: Json, current: Json, oldRoles: RoleTable, newRoles: RoleTable, name: string)
    returns (changes: seq<Change>)
    requires name in Components(baseline) && name in Components(current)
    requires CorrectRoles(baseline, oldRoles) && CorrectRoles(current, newRoles)
    ensures Clean(changes) <==> ComponentCompatible(baseline, current, name)
  {
    var asRequest := name in oldRoles.Of(Request) || name in newRoles.Of(Request);
    var asResponse := name in oldRoles.Of(Response) || name in newRoles.Of(Response);
    RoleIsTravel(baseline, current, oldRoles, newRoles, name, Request);
    RoleIsTravel(baseline, current, oldRoles, newRoles, name, Response);
    ComparedByRoles(baseline, current, name, asRequest, asResponse);
    changes := RoleChanges(Components(baseline)[name], Components(current)[name], "components/schemas/" + name,
                           asRequest, asResponse);
  }

  lemma ComparedByRoles(baseline: Json, current: Json, name: string, asRequest: bool, asResponse: bool)
    requires name in Components(baseline) && name in Components(current)
    requires asRequest <==> TravelsEither(baseline, current, name, Request)
    requires asResponse <==> TravelsEither(baseline, current, name, Response)
    ensures ComponentCompatible(baseline, current, name) <==>
              && (asRequest || !asResponse ==>
                  SchemaCompatible(Components(baseline)[name], Components(current)[name], Request))
              && (asResponse || !asRequest ==>
                  SchemaCompatible(Components(baseline)[name], Components(current)[name], Response))
  {
  }

  lemma RoleIsTravel(baseline: Json, current: Json, oldRoles: RoleTable, newRoles: RoleTable, name: string,
                     direction: Direction)
    requires CorrectRoles(baseline, oldRoles) && CorrectRoles(current, newRoles)
    ensures name in oldRoles.Of(direction) || name in newRoles.Of(direction) <==>
              TravelsEither(baseline, current, name, direction)
  {
  }

  /** A schema nobody refers to is compared in both directions. */
  method RoleChanges(oldSchema: Json, newSchema: Json, place: string, asRequest: bool, asResponse: bool)
    returns (changes: seq<Change>)
    ensures Clean(changes) <==>
              && (asRequest || !asResponse ==> SchemaCompatible(oldSchema, newSchema, Request))
              && (asResponse || !asRequest ==> SchemaCompatible(oldSchema, newSchema, Response))
  {
    var requests, responses := [], [];
    if asRequest || !asResponse {
      requests := SchemaChanges(oldSchema, newSchema, place, Request);
    }
    if asResponse || !asRequest {
      responses := SchemaChanges(oldSchema, newSchema, place, Response);
    }
    CleanConcat(requests, responses);
    changes := requests + responses;
  }

  /** `classify_changes`: the set of reported changes contains no incompatible
      one exactly when the two contracts are compatible. */
  method ClassifyChanges(baseline: Json, current: Json) returns (changes: set<Change>)
    ensures (forall change :: change in changes ==> change.severity.Compatible?) <==>
              ContractCompatible(baseline, current)
  {
    var security := Report(Member(baseline, "security") != Member(current, "security"), Security, "security");
    var routes := RouteChanges(baseline, current);
    var schemes := SecuritySchemeChanges(SecuritySchemes(baseline), SecuritySchemes(current));
    var components := ComponentChanges(baseline, current);
    CleanConcat(security, routes);
    CleanConcat(security + routes, schemes);
    CleanConcat(security + routes + schemes, components);
    var all := security + routes + schemes + components;
    changes := Elements(all);
    assert forall change :: change in changes <==> change in all;
  }
}
