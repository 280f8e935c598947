/** `_component_schema_roles`: in which directions a component schema travels. */
module Roles {
  import opened Basics
  import opened Json
  import opened Schema
  import opened Meaning
  import opened Reachability

  const HTTP_METHODS: set<string> := {"delete", "get", "head", "options", "patch", "post", "put", "trace"}

  function Components(document: Json): Object {
    Mapping(Member(Member(document, "components"), "schemas"))
  }

  function Paths(document: Json): Object {
    Mapping(Member(document, "paths"))
  }

  /** The edges of the reference graph. */
  function Edges(document: Json): string -> set<string> {
    name => References(Get(Components(document), name))
  }

  /** The references an operation makes in one direction. */
  function OperationReferences(operation: Json, direction: Direction): set<string> {
    match direction
    case Request => References(Member(operation, "parameters")) + References(Member(operation, "requestBody"))
    case Response => References(Member(operation, "responses"))
  }

  predicate HasOperation(document: Json, path: string, verb: string) {
    path in Paths(document) && verb in Mapping(Paths(document)[path]) && verb in HTTP_METHODS
  }

  function Operation(document: Json, path: string, verb: string): Json {
    Member(Get(Paths(document), path), verb)
  }

  /** The operations of one path. */
  function PathOperations(document: Json, path: string): set<(string, string)> {
    set verb | verb in Mapping(Get(Paths(document), path)).Keys * HTTP_METHODS :: (path, verb)
  }

  function OperationsOf(document: Json, paths: set<string>): set<(string, string)> {
    set path, operation | path in paths && operation in PathOperations(document, path) :: operation
  }

  function Operations(document: Json): set<(string, string)> {
    OperationsOf(document, Paths(document).Keys)
  }

  /** The references made by a set of operations in one direction. */
  function OperationsReferences(document: Json, direction: Direction, operations: set<(string, string)>): set<string> {
    set operation, name |
      operation in operations &&
      name in OperationReferences(Operation(document, operation.0, operation.1), direction) :: name
  }

  /** Everything referenced directly from a position of one direction. */
  function DirectReferences(document: Json, direction: Direction): set<string> {
    OperationsReferences(document, direction, Operations(document))
  }

  /** The component is reachable by `$ref`s from a position of the direction. */
  ghost predicate Travels(document: Json, direction: Direction, name: string) {
    Reaches(Edges(document), DirectReferences(document, direction), name)
  }

  /** The roles as the code keeps them: one set of names per direction. */
  datatype RoleTable = RoleTable(requests: set<string>, responses: set<string>) {
    function Of(direction: Direction): set<string> {
      if direction.Request? then requests else responses
    }

    function With(direction: Direction, names: set<string>): RoleTable {
      if direction.Request? then this.(requests := names) else this.(responses := names)
    }
  }

  /** A name has a direction exactly when it travels in it. */
  ghost predicate CorrectRoles(document: Json, roles: RoleTable) {
    forall direction, name :: name in roles.Of(direction) <==> Travels(document, direction, name)
  }

  lemma ComponentReferencesInside(document: Json, name: string)
    ensures Edges(document)(name) <= References(document)
  {
    var components := Member(document, "components");
    ReferencesOfMember(document, "components");
    ReferencesOfMember(components, "schemas");
    ReferencesOfMember(Member(components, "schemas"), name);
  }

  /** `assign`: adds to `known` what is reachable from the references of
      `value`, whichever order names are popped in. */
  method Assign(document: Json, value: Json, known: set<string>) returns (names: set<string>)
    requires References(value) <= References(document)
    requires Closed(Edges(document), known) && known <= References(document)
    ensures Closed(Edges(document), names) && names <= References(document)
    ensures forall name :: name in names <==> name in known || Reaches(Edges(document), References(value), name)
  {
    ghost var next, roots := Edges(document), References(value);
    var references := SchemaReferences(value);
    var pending := InSomeOrder(references);
    names := known;
    SearchStart(next, roots, known, pending);
    while pending != []
      invariant names <= References(document) && forall name :: name in pending ==> name in References(document)
      invariant Searching(next, roots, known, names, pending)
      decreases References(document) - names, |pending|
    {
      var name := pending[|pending| - 1];
      assert name in pending;
      if name in names {
        SearchSkip(next, roots, known, names, pending);
        pending := pending[..|pending| - 1];
      } else {
        ComponentReferencesInside(document, name);
        var found := SchemaReferences(Get(Components(document), name));
        var pushed := InSomeOrder(found);
        SearchExpand(next, roots, known, names, pending, pushed);
        names, pending := names + {name}, pending[..|pending| - 1] + pushed;
      }
    }
    SearchDone(next, roots, known, names);
  }

  /** `names` is what is reachable from the references collected so far. */
  ghost predicate Exact(document: Json, names: set<string>, roots: set<string>) {
    && Closed(Edges(document), names) && names <= References(document)
    && forall name :: name in names <==> Reaches(Edges(document), roots, name)
  }

  lemma ExactExtended(document: Json, names: set<string>, roots: set<string>, more: set<string>, extended: set<string>)
    requires Exact(document, names, roots)
    requires Closed(Edges(document), extended) && extended <= References(document)
    requires forall name :: name in extended <==> name in names || Reaches(Edges(document), more, name)
    ensures Exact(document, extended, roots + more)
  {
    forall name
      ensures name in extended <==> Reaches(Edges(document), roots + more, name)
    {
      ReachedFromUnion(Edges(document), roots, more, name);
    }
  }

  lemma OperationReferencesInside(document: Json, path: string, verb: string, part: string)
    ensures References(Member(Operation(document, path, verb), part)) <= References(document)
  {
    var paths := Member(document, "paths");
    ReferencesOfMember(document, "paths");
    ReferencesOfMember(paths, path);
    ReferencesOfMember(Member(paths, path), verb);
    ReferencesOfMember(Operation(document, path, verb), part);
  }

  lemma OperationsGrow(document: Json, direction: Direction, operations: set<(string, string)>, path: string,
                       verb: string)
    ensures OperationsReferences(document, direction, operations + {(path, verb)}) ==
            OperationsReferences(document, direction, operations)
              + OperationReferences(Operation(document, path, verb), direction)
  {
  }

  /** `roles` is right for the operations visited so far. */
  ghost predicate ExactRoles(document: Json, roles: RoleTable, visited: set<(string, string)>) {
    && Exact(document, roles.requests, OperationsReferences(document, Request, visited))
    && Exact(document, roles.responses, OperationsReferences(document, Response, visited))
  }

  /** The three `assign` calls for one operation. */
  method AssignOperation(document: Json, path: string, verb: string, roles: RoleTable,
                         ghost visited: set<(string, string)>)
    returns (updated: RoleTable)
    requires ExactRoles(document, roles, visited)
    ensures ExactRoles(document, updated, visited + {(path, verb)})
  {
    var operation := Operation(document, path, verb);
    ghost var requestRoots := OperationsReferences(document, Request, visited);
    ghost var responseRoots := OperationsReferences(document, Response, visited);
    OperationReferencesInside(document, path, verb, "parameters");
    var withParameters := Assign(document, Member(operation, "parameters"), roles.requests);
    ExactExtended(document, roles.requests, requestRoots, References(Member(operation, "parameters")), withParameters);
    OperationReferencesInside(document, path, verb, "requestBody");
    var requests := Assign(document, Member(operation, "requestBody"), withParameters);
    ExactExtended(document, withParameters, requestRoots + References(Member(operation, "parameters")),
                  References(Member(operation, "requestBody")), requests);
    assert requestRoots + OperationReferences(operation, Request) ==
           requestRoots + References(Member(operation, "parameters")) + References(Member(operation, "requestBody"));
    OperationReferencesInside(document, path, verb, "responses");
    var responses := Assign(document, Member(operation, "responses"), roles.responses);
    ExactExtended(document, roles.responses, responseRoots, References(Member(operation, "responses")), responses);
    updated := RoleTable(requests, responses);
    OperationsGrow(document, Request, visited, path, verb);
    OperationsGrow(document, Response, visited, path, verb);
  }

  lemma NothingVisited(document: Json)
    ensures ExactRoles(document, RoleTable({}, {}), {})
  {
    assert OperationsReferences(document, Request, {}) == OperationsReferences(document, Response, {}) == {};
  }

  lemma PathsGrow(document: Json, paths: set<string>, path: string)
    ensures OperationsOf(document, paths + {path}) == OperationsOf(document, paths) + PathOperations(document, path)
  {
  }

  function Pairs(path: string, verbs: set<string>): set<(string, string)> {
    set verb | verb in verbs :: (path, verb)
  }

  lemma PairsGrow(visited: set<(string, string)>, path: string, verbs: set<string>, todo: set<string>, verb: string)
    requires verb in todo && todo <= verbs
    ensures visited + Pairs(path, verbs - todo) + {(path, verb)} == visited + Pairs(path, verbs - (todo - {verb}))
  {
    assert verbs - (todo - {verb}) == (verbs - todo) + {verb};
  }

  method AssignVerbs(document: Json, path: string, verbs: set<string>, roles: RoleTable,
                     ghost visited: set<(string, string)>)
    returns (updated: RoleTable)
    requires ExactRoles(document, roles, visited)
    ensures ExactRoles(document, updated, visited + Pairs(path, verbs))
  {
    updated := roles;
    var todo := verbs;
    assert visited + Pairs(path, verbs - todo) == visited;
    while todo != {}
      invariant todo <= verbs
      invariant ExactRoles(document, updated, visited + Pairs(path, verbs - todo))
      decreases |todo|
    {
      var verb :| verb in todo;
      updated := AssignOperation(document, path, verb, updated, visited + Pairs(path, verbs - todo));
      PairsGrow(visited, path, verbs, todo, verb);
      todo := todo - {verb};
    }
    assert verbs - todo == verbs;
  }

  /** Every operation of every path: at the end a name has a direction exactly
      when it is reachable from a position of that direction. */
  method ComponentSchemaRoles(document: Json) returns (roles: RoleTable)
    ensures CorrectRoles(document, roles)
  {
    roles := RoleTable({}, {});
    NothingVisited(document);
    var todo, done := Paths(document).Keys, {};
    assert OperationsOf(document, {}) == {};
    while todo != {}
      invariant todo + done == Paths(document).Keys
      invariant ExactRoles(document, roles, OperationsOf(document, done))
      decreases todo
    {
      var path :| path in todo;
      roles := AssignVerbs(document, path, Mapping(Get(Paths(document), path)).Keys * HTTP_METHODS, roles,
                           OperationsOf(document, done));
      PathsGrow(document, done, path);
      todo, done := todo - {path}, done + {path};
    }
    assert done == Paths(document).Keys;
    RolesComplete(document, roles);
  }

  lemma RolesOf(document: Json, roles: RoleTable, direction: Direction)
    requires ExactRoles(document, roles, Operations(document))
    ensures Exact(document, roles.Of(direction), DirectReferences(document, direction))
  {
    match direction
    case Request =>
    case Response =>
  }

  lemma RolesComplete(document: Json, roles: RoleTable)
    requires ExactRoles(document, roles, Operations(document))
    ensures CorrectRoles(document, roles)
  {
    forall direction, name
      ensures name in roles.Of(direction) <==> Travels(document, direction, name)
    {
      RolesOf(document, roles, direction);
    }
  }
}
