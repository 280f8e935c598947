/** Soundness of the whole classifier: with no incompatible change reported,
    requests of old clients are still accepted and responses of the new server
    are still understood. */
module ContractSoundness {
  import opened Basics
  import opened Json
  import opened Schema
  import opened Meaning
  import opened Soundness
  import SchemaOrder
  import opened Reachability
  import opened Roles
  import opened Contract

  datatype Payload = Payload(media: string, value: Json)
  datatype ClientRequest = ClientRequest(parameters: map<ParameterKey, Json>, body: Option<Payload>)
  datatype ServerResponse = ServerResponse(status: string, headers: map<string, Json>, body: Option<Payload>)

  /** Required parameters and a required body are there. */
  predicate RequiredPartsPresent(operation: Json, request: ClientRequest) {
    && (forall key :: key in Parameters(operation) && RequiredFlag(Parameters(operation)[key]) ==>
        key in request.parameters)
    && (!Empty(Body(operation)) && RequiredFlag(Body(operation)) ==> request.body.Some?)
  }

  ghost predicate PayloadAdmitted(side: Side, fuel: nat, content: Object, payload: Payload) {
    payload.media in content && Admits(side, fuel, SchemaOf(content[payload.media]), payload.value)
  }

  /** A request an old client may send: only parameters and bodies its contract declares. */
  ghost predicate RequestWritable(side: Side, fuel: nat, operation: Json, request: ClientRequest) {
    && RequiredPartsPresent(operation, request)
    && (forall key :: key in request.parameters ==>
          key in Parameters(operation)
            && Admits(side, fuel, SchemaOf(Parameters(operation)[key]), request.parameters[key]))
    && (request.body.Some? ==>
        !Empty(Body(operation)) && PayloadAdmitted(side, fuel, Content(Body(operation)), request.body.value))
  }

  /** A request a server accepts: parameters it does not know are ignored. */
  ghost predicate RequestReadable(side: Side, fuel: nat, operation: Json, request: ClientRequest) {
    && RequiredPartsPresent(operation, request)
    && (forall key :: key in request.parameters && key in Parameters(operation) ==>
          Admits(side, fuel, SchemaOf(Parameters(operation)[key]), request.parameters[key]))
    && (request.body.Some? && !Empty(Body(operation)) ==>
          PayloadAdmitted(side, fuel, Content(Body(operation)), request.body.value))
  }

  ghost predicate PartsWritten(side: Side, fuel: nat, declared: Json, response: ServerResponse) {
    && (forall name :: name in response.headers ==>
          name in Headers(declared) && Admits(side, fuel, SchemaOf(Headers(declared)[name]), response.headers[name]))
    && (response.body.Some? ==> PayloadAdmitted(side, fuel, Content(declared), response.body.value))
  }

  ghost predicate PartsRead(side: Side, fuel: nat, declared: Json, response: ServerResponse) {
    && (forall name :: name in response.headers && name in Headers(declared) ==>
          Admits(side, fuel, SchemaOf(Headers(declared)[name]), response.headers[name]))
    && (response.body.Some? ==> PayloadAdmitted(side, fuel, Content(declared), response.body.value))
  }

  /** A response the new server may send. */
  ghost predicate ResponseWritable(side: Side, fuel: nat, operation: Json, response: ServerResponse) {
    response.status in Responses(operation) && PartsWritten(side, fuel, Responses(operation)[response.status], response)
  }

  /** The status and media type are among those the old contract announced. */
  predicate Shared(operation: Json, response: ServerResponse) {
    && response.status in Responses(operation)
    && (response.body.Some? ==> response.body.value.media in Content(Responses(operation)[response.status]))
  }

  /** A response an old client understands: unknown headers are ignored. */
  ghost predicate ResponseReadable(side: Side, fuel: nat, operation: Json, response: ServerResponse)
    requires Shared(operation, response)
  {
    PartsRead(side, fuel, Responses(operation)[response.status], response)
  }

  // ---------------------------------------------------------------------
  // The fragment, for a pair of documents

  ghost predicate InFragment(baseline: Json, current: Json, direction: Direction, oldSchema: Json, newSchema: Json) {
    && WellFormed(Components(baseline), oldSchema) && WellFormed(Components(current), newSchema)
    && Comparable(oldSchema, newSchema, direction)
  }

  ghost predicate OperationInFragment(baseline: Json, current: Json, oldOperation: Json, newOperation: Json) {
    && (forall key :: key in Parameters(oldOperation) && key in Parameters(newOperation) ==>
          InFragment(baseline, current, Request, SchemaOf(Parameters(oldOperation)[key]),
                     SchemaOf(Parameters(newOperation)[key])))
    && (forall media :: media in Content(Body(oldOperation)) && media in Content(Body(newOperation)) ==>
          InFragment(baseline, current, Request, SchemaOf(Content(Body(oldOperation))[media]),
                     SchemaOf(Content(Body(newOperation))[media])))
    && forall status :: status in Responses(oldOperation) && status in Responses(newOperation) ==>
         && PartsInFragment(baseline, current, Headers(Responses(oldOperation)[status]),
                            Headers(Responses(newOperation)[status]))
         && PartsInFragment(baseline, current, Content(Responses(oldOperation)[status]),
                            Content(Responses(newOperation)[status]))
  }

  ghost predicate PartsInFragment(baseline: Json, current: Json, oldOperation: Object, newOperation: Object) {
    forall name :: name in oldOperation && name in newOperation ==>
      InFragment(baseline, current, Response, SchemaOf(oldOperation[name]), SchemaOf(newOperation[name]))
  }

  /** Every reference of the baseline resolves, and every schema either side
      looks at has the meaning given to it here. */
  ghost predicate Fragment(baseline: Json, current: Json) {
    && (forall direction, name :: Travels(baseline, direction, name) ==>
          && name in Components(baseline)
          && (name in Components(current) ==>
                InFragment(baseline, current, direction, Components(baseline)[name], Components(current)[name])))
    && forall path, verb :: HasOperation(baseline, path, verb) && HasOperation(current, path, verb) ==>
         OperationInFragment(baseline, current, Operation(baseline, path, verb), Operation(current, path, verb))
  }

  // ---------------------------------------------------------------------
  // From documents to the setting of the induction

  ghost function TravellingNames(document: Json, direction: Direction): (names: set<string>)
    ensures forall name :: name in names <==> name in Components(document) && Travels(document, direction, name)
  {
    set name | name in Components(document) && Travels(document, direction, name)
  }

  ghost function Exchange(oracle: Oracle, base: bool, baseline: Json, current: Json, direction: Direction): Setting {
    Setting(oracle, base, Components(baseline), Components(current), direction, TravellingNames(baseline, direction))
  }

  lemma ComponentReferencesTravel(document: Json, direction: Direction, name: string)
    requires name in Components(document) && Travels(document, direction, name)
    ensures forall other :: other in References(Components(document)[name]) ==> Travels(document, direction, other)
  {
    StepReached(Edges(document), DirectReferences(document, direction), name);
    assert Edges(document)(name) == References(Components(document)[name]);
  }

  /** The components of two compatible documents form a valid setting. */
  lemma ExchangeValid(oracle: Oracle, base: bool, baseline: Json, current: Json, direction: Direction)
    requires Fragment(baseline, current) && ContractCompatible(baseline, current)
    ensures Exchange(oracle, base, baseline, current, direction).Valid()
  {
    var s := Exchange(oracle, base, baseline, current, direction);
    forall name | name in s.roles
      ensures name in s.before && name in s.after && s.Related(s.before[name], s.after[name])
    {
      assert ComponentCompatible(baseline, current, name);
      assert TravelsEither(baseline, current, name, direction);
      ComponentReferencesTravel(baseline, direction, name);
    }
  }

  /** A schema at a position of the direction refers to travelling names only. */
  lemma PositionReferences(baseline: Json, current: Json, direction: Direction, path: string, verb: string,
                           schema: Json)
    requires Fragment(baseline, current) && HasOperation(baseline, path, verb)
    requires References(schema) <= OperationReferences(Operation(baseline, path, verb), direction)
    ensures References(schema) <= TravellingNames(baseline, direction)
  {
    RootsReached(Edges(baseline), DirectReferences(baseline, direction));
    forall name | name in References(schema)
      ensures Travels(baseline, direction, name)
    {
      assert (path, verb) in PathOperations(baseline, path);
      assert (path, verb) in Operations(baseline);
      assert name in DirectReferences(baseline, direction);
    }
  }

  /** One exchanged value, between two schemas at such a position. */
  lemma ValueSound(oracle: Oracle, base: bool, baseline: Json, current: Json, direction: Direction, path: string,
                   verb: string, fuel: nat, oldSchema: Json, newSchema: Json, value: Json)
    requires Fragment(baseline, current) && ContractCompatible(baseline, current) && HasOperation(baseline, path, verb)
    requires References(oldSchema) <= OperationReferences(Operation(baseline, path, verb), direction)
    requires InFragment(baseline, current, direction, oldSchema, newSchema)
    requires SchemaCompatible(oldSchema, newSchema, direction)
    ensures var s := Exchange(oracle, base, baseline, current, direction);
            Admits(s.Write(), fuel, Writer(direction, oldSchema, newSchema), value) ==>
              Admits(s.Read(), fuel, Reader(direction, oldSchema, newSchema), value)
  {
    var s := Exchange(oracle, base, baseline, current, direction);
    ExchangeValid(oracle, base, baseline, current, direction);
    PositionReferences(baseline, current, direction, path, verb, oldSchema);
    if Admits(s.Write(), fuel, Writer(direction, oldSchema, newSchema), value) {
      WritableIsReadable(s, fuel, oldSchema, newSchema, value);
    }
  }

  // ---------------------------------------------------------------------
  // Where the schemas of an operation sit

  lemma {:induction false} ParameterListed(parameters: seq<Json>, key: ParameterKey)
    requires key in ParameterMap(parameters)
    ensures ParameterMap(parameters)[key] in parameters
  {
    if Keyed(parameters[|parameters| - 1]) && KeyOf(parameters[|parameters| - 1]) == key {
    } else {
      ParameterListed(parameters[..|parameters| - 1], key);
    }
  }

  lemma ParameterReferences(operation: Json, key: ParameterKey)
    requires key in Parameters(operation)
    ensures References(SchemaOf(Parameters(operation)[key])) <= OperationReferences(operation, Request)
  {
    var parameter := Parameters(operation)[key];
    ParameterListed(Items(Member(operation, "parameters")), key);
    ReferencesOfItem(Member(operation, "parameters"), parameter);
    ReferencesOfMember(parameter, "schema");
  }

  lemma PartReferences(holder: Json, part: string, name: string)
    requires name in Mapping(Member(holder, part))
    ensures References(SchemaOf(Mapping(Member(holder, part))[name])) <= References(holder)
  {
    ReferencesOfMember(holder, part);
    ReferencesOfMember(Member(holder, part), name);
    ReferencesOfMember(Mapping(Member(holder, part))[name], "schema");
  }

  lemma ResponseReferences(operation: Json, status: string)
    requires status in Responses(operation)
    ensures References(Responses(operation)[status]) <= OperationReferences(operation, Response)
  {
    ReferencesOfMember(Member(operation, "responses"), status);
  }

  // ---------------------------------------------------------------------
  // The two theorems

  lemma OperationKept(baseline: Json, current: Json, path: string, verb: string)
    requires ContractCompatible(baseline, current) && HasOperation(baseline, path, verb)
    ensures HasOperation(current, path, verb)
    ensures OperationCompatible(Operation(baseline, path, verb), Operation(current, path, verb))
  {
    assert verb in Verbs(baseline, path);
    assert PathCompatible(baseline, current, path);
  }

  lemma ParameterSound(oracle: Oracle, base: bool, baseline: Json, current: Json, path: string, verb: string,
                       fuel: nat, key: ParameterKey, value: Json)
    requires Fragment(baseline, current) && ContractCompatible(baseline, current) && HasOperation(baseline, path, verb)
    requires HasOperation(current, path, verb)
    requires key in Parameters(Operation(baseline, path, verb)) && key in Parameters(Operation(current, path, verb))
    ensures Admits(Side(oracle, Components(baseline), Writing, base), fuel,
                   SchemaOf(Parameters(Operation(baseline, path, verb))[key]), value) ==>
              Admits(Side(oracle, Components(current), Reading, base), fuel,
                     SchemaOf(Parameters(Operation(current, path, verb))[key]), value)
  {
    OperationKept(baseline, current, path, verb);
    var oldOperation, newOperation := Operation(baseline, path, verb), Operation(current, path, verb);
    ParameterReferences(oldOperation, key);
    ValueSound(oracle, base, baseline, current, Request, path, verb, fuel,
               SchemaOf(Parameters(oldOperation)[key]), SchemaOf(Parameters(newOperation)[key]), value);
  }

  lemma BodyMatches(oldOperation: Json, newOperation: Json, media: string)
    requires OperationCompatible(oldOperation, newOperation) && media in Content(Body(oldOperation))
             && !Empty(Body(oldOperation))
    ensures media in Content(Body(newOperation))
    ensures SchemaCompatible(SchemaOf(Content(Body(oldOperation))[media]), SchemaOf(Content(Body(newOperation))[media]),
                             Request)
  {
    assert MediaCompatible(Content(Body(oldOperation))[media], Get(Content(Body(newOperation)), media));
  }

  lemma BodyInFragment(baseline: Json, current: Json, path: string, verb: string, media: string)
    requires Fragment(baseline, current) && HasOperation(baseline, path, verb) && HasOperation(current, path, verb)
    requires media in Content(Body(Operation(baseline, path, verb)))
             && media in Content(Body(Operation(current, path, verb)))
    ensures InFragment(baseline, current, Request, SchemaOf(Content(Body(Operation(baseline, path, verb)))[media]),
                       SchemaOf(Content(Body(Operation(current, path, verb)))[media]))
  {
    assert OperationInFragment(baseline, current, Operation(baseline, path, verb), Operation(current, path, verb));
  }

  lemma BodySound(oracle: Oracle, base: bool, baseline: Json, current: Json, path: string, verb: string, fuel: nat,
                  payload: Payload)
    requires Fragment(baseline, current) && ContractCompatible(baseline, current) && HasOperation(baseline, path, verb)
    requires !Empty(Body(Operation(baseline, path, verb)))
    requires PayloadAdmitted(Side(oracle, Components(baseline), Writing, base), fuel,
                             Content(Body(Operation(baseline, path, verb))), payload)
    ensures PayloadAdmitted(Side(oracle, Components(current), Reading, base), fuel,
                            Content(Body(Operation(current, path, verb))), payload)
  {
    OperationKept(baseline, current, path, verb);
    var oldOperation, newOperation := Operation(baseline, path, verb), Operation(current, path, verb);
    BodyMatches(oldOperation, newOperation, payload.media);
    BodyInFragment(baseline, current, path, verb, payload.media);
    PartReferences(Body(oldOperation), "content", payload.media);
    ValueSound(oracle, base, baseline, current, Request, path, verb, fuel,
               SchemaOf(Content(Body(oldOperation))[payload.media]),
               SchemaOf(Content(Body(newOperation))[payload.media]), payload.value);
  }

  lemma RequiredPartsKept(oldOperation: Json, newOperation: Json, request: ClientRequest)
    requires OperationCompatible(oldOperation, newOperation) && RequiredPartsPresent(oldOperation, request)
    requires forall key :: key in request.parameters ==> key in Parameters(oldOperation)
    requires request.body.Some? ==> !Empty(Body(oldOperation))
    ensures RequiredPartsPresent(newOperation, request)
  {
  }

  /** No incompatible change: whatever an old client may send to an operation of
      the baseline, the same operation of the current contract accepts. */
  lemma OldRequestsAccepted(oracle: Oracle, base: bool, baseline: Json, current: Json, path: string, verb: string,
                            fuel: nat, request: ClientRequest)
    requires Fragment(baseline, current) && ContractCompatible(baseline, current) && HasOperation(baseline, path, verb)
    requires RequestWritable(Side(oracle, Components(baseline), Writing, base), fuel, Operation(baseline, path, verb),
                             request)
    ensures HasOperation(current, path, verb)
    ensures RequestReadable(Side(oracle, Components(current), Reading, base), fuel, Operation(current, path, verb),
                            request)
  {
    OperationKept(baseline, current, path, verb);
    RequiredPartsKept(Operation(baseline, path, verb), Operation(current, path, verb), request);
    forall key | key in request.parameters && key in Parameters(Operation(current, path, verb)) {
      ParameterSound(oracle, base, baseline, current, path, verb, fuel, key, request.parameters[key]);
    }
    if request.body.Some? {
      BodySound(oracle, base, baseline, current, path, verb, fuel, request.body.value);
    }
  }

  /** The headers or the media types of a declared response. */
  function Parts(document: Json, path: string, verb: string, status: string, part: string): Object {
    Mapping(Member(Get(Responses(Operation(document, path, verb)), status), part))
  }

  lemma PartMatches(oldResponse: Json, newResponse: Json, part: string, name: string)
    requires ResponseCompatible(oldResponse, newResponse) && part in ["headers", "content"]
    requires name in Mapping(Member(oldResponse, part))
    ensures name in Mapping(Member(newResponse, part))
    ensures SchemaCompatible(SchemaOf(Mapping(Member(oldResponse, part))[name]),
                             SchemaOf(Mapping(Member(newResponse, part))[name]), Response)
  {
  }

  lemma PartInFragment(baseline: Json, current: Json, path: string, verb: string, status: string, part: string,
                       name: string)
    requires Fragment(baseline, current) && HasOperation(baseline, path, verb) && HasOperation(current, path, verb)
    requires status in Responses(Operation(baseline, path, verb)) && status in Responses(Operation(current, path, verb))
    requires part in ["headers", "content"]
    requires name in Parts(baseline, path, verb, status, part) && name in Parts(current, path, verb, status, part)
    ensures InFragment(baseline, current, Response, SchemaOf(Parts(baseline, path, verb, status, part)[name]),
                       SchemaOf(Parts(current, path, verb, status, part)[name]))
  {
    var oldOperation, newOperation := Operation(baseline, path, verb), Operation(current, path, verb);
    assert OperationInFragment(baseline, current, oldOperation, newOperation);
    if part == "headers" {
      assert PartsInFragment(baseline, current, Headers(Responses(oldOperation)[status]),
                             Headers(Responses(newOperation)[status]));
    } else {
      assert PartsInFragment(baseline, current, Content(Responses(oldOperation)[status]),
                             Content(Responses(newOperation)[status]));
    }
  }

  lemma PartKept(baseline: Json, current: Json, path: string, verb: string, status: string, part: string, name: string)
    requires Fragment(baseline, current) && ContractCompatible(baseline, current) && HasOperation(baseline, path, verb)
    requires status in Responses(Operation(baseline, path, verb)) && part in ["headers", "content"]
    requires name in Parts(baseline, path, verb, status, part)
    ensures HasOperation(current, path, verb)
    ensures status in Responses(Operation(current, path, verb)) && name in Parts(current, path, verb, status, part)
    ensures SchemaCompatible(SchemaOf(Parts(baseline, path, verb, status, part)[name]),
                             SchemaOf(Parts(current, path, verb, status, part)[name]), Response)
    ensures References(SchemaOf(Parts(baseline, path, verb, status, part)[name]))
            <= OperationReferences(Operation(baseline, path, verb), Response)
  {
    OperationKept(baseline, current, path, verb);
    var oldResponse := Responses(Operation(baseline, path, verb))[status];
    PartMatches(oldResponse, Responses(Operation(current, path, verb))[status], part, name);
    ResponseReferences(Operation(baseline, path, verb), status);
    PartReferences(oldResponse, part, name);
  }

  /** A header or the body of a response, described on both sides. */
  lemma PartSound(oracle: Oracle, base: bool, baseline: Json, current: Json, path: string, verb: string, status: string,
                  part: string, fuel: nat, name: string, value: Json)
    requires Fragment(baseline, current) && ContractCompatible(baseline, current) && HasOperation(baseline, path, verb)
    requires status in Responses(Operation(baseline, path, verb)) && part in ["headers", "content"]
    requires name in Parts(baseline, path, verb, status, part) && name in Parts(current, path, verb, status, part)
    requires Admits(Side(oracle, Components(current), Writing, base), fuel,
                    SchemaOf(Parts(current, path, verb, status, part)[name]), value)
    ensures Admits(Side(oracle, Components(baseline), Reading, base), fuel,
                   SchemaOf(Parts(baseline, path, verb, status, part)[name]), value)
  {
    PartKept(baseline, current, path, verb, status, part, name);
    PartInFragment(baseline, current, path, verb, status, part, name);
    ValueSound(oracle, base, baseline, current, Response, path, verb, fuel,
               SchemaOf(Parts(baseline, path, verb, status, part)[name]),
               SchemaOf(Parts(current, path, verb, status, part)[name]), value);
  }

  /** No incompatible change: whatever the current contract lets the server
      answer with a status and media type the baseline announced, a client of
      the baseline understands. */
  lemma NewResponsesUnderstood(oracle: Oracle, base: bool, baseline: Json, current: Json, path: string, verb: string,
                               fuel: nat, response: ServerResponse)
    requires Fragment(baseline, current) && ContractCompatible(baseline, current) && HasOperation(baseline, path, verb)
    requires Shared(Operation(baseline, path, verb), response)
    requires ResponseWritable(Side(oracle, Components(current), Writing, base), fuel, Operation(current, path, verb),
                              response)
    ensures ResponseReadable(Side(oracle, Components(baseline), Reading, base), fuel, Operation(baseline, path, verb),
                             response)
  {
    forall name | name in response.headers && name in Parts(baseline, path, verb, response.status, "headers") {
      HeaderUnderstood(oracle, base, baseline, current, path, verb, fuel, response, name);
    }
    if response.body.Some? {
      PayloadUnderstood(oracle, base, baseline, current, path, verb, fuel, response);
    }
  }

  lemma HeaderUnderstood(oracle: Oracle, base: bool, baseline: Json, current: Json, path: string, verb: string,
                         fuel: nat, response: ServerResponse, name: string)
    requires Fragment(baseline, current) && ContractCompatible(baseline, current) && HasOperation(baseline, path, verb)
    requires Shared(Operation(baseline, path, verb), response)
    requires ResponseWritable(Side(oracle, Components(current), Writing, base), fuel, Operation(current, path, verb),
                              response)
    requires name in response.headers && name in Parts(baseline, path, verb, response.status, "headers")
    ensures Admits(Side(oracle, Components(baseline), Reading, base), fuel,
                   SchemaOf(Parts(baseline, path, verb, response.status, "headers")[name]), response.headers[name])
  {
    PartSound(oracle, base, baseline, current, path, verb, response.status, "headers", fuel, name,
              response.headers[name]);
  }

  lemma PayloadUnderstood(oracle: Oracle, base: bool, baseline: Json, current: Json, path: string, verb: string,
                          fuel: nat, response: ServerResponse)
    requires Fragment(baseline, current) && ContractCompatible(baseline, current) && HasOperation(baseline, path, verb)
    requires Shared(Operation(baseline, path, verb), response) && response.body.Some?
    requires ResponseWritable(Side(oracle, Components(current), Writing, base), fuel, Operation(current, path, verb),
                              response)
    ensures PayloadAdmitted(Side(oracle, Components(baseline), Reading, base), fuel,
                            Content(Responses(Operation(baseline, path, verb))[response.status]), response.body.value)
  {
    PartSound(oracle, base, baseline, current, path, verb, response.status, "content", fuel,
              response.body.value.media, response.body.value.value);
  }

  // ---------------------------------------------------------------------
  // A contract compared with itself

  predicate MediaDescribed(operation: Json) {
    forall media :: media in Content(Body(operation)) ==> !Empty(Content(Body(operation))[media])
  }

  lemma PartsWithThemselves(parts: Object)
    ensures PartsCompatible(parts, parts)
  {
    forall name | name in parts {
      SchemaOrder.Reflexive(SchemaOf(parts[name]), Response);
    }
  }

  lemma OperationWithItself(operation: Json)
    ensures OperationCompatible(operation, operation) <==> MediaDescribed(operation)
  {
    forall key | key in Parameters(operation) {
      SchemaOrder.Reflexive(SchemaOf(Parameters(operation)[key]), Request);
    }
    forall media | media in Content(Body(operation)) {
      SchemaOrder.Reflexive(SchemaOf(Content(Body(operation))[media]), Request);
    }
    forall status | status in Responses(operation)
      ensures ResponseCompatible(Responses(operation)[status], Responses(operation)[status])
    {
      PartsWithThemselves(Headers(Responses(operation)[status]));
      PartsWithThemselves(Content(Responses(operation)[status]));
    }
    assert BodyCompatible(Body(operation), Body(operation)) <==> MediaDescribed(operation) by {
      assert forall media :: media in Content(Body(operation)) ==>
          (MediaCompatible(Content(Body(operation))[media], Get(Content(Body(operation)), media)) <==>
           !Empty(Content(Body(operation))[media]));
    }
  }

  /** A contract is compatible with itself exactly when no request body lists a
      media type without describing it. */
  lemma ContractWithItself(document: Json)
    ensures ContractCompatible(document, document) <==>
            forall path, verb :: HasOperation(document, path, verb) ==> MediaDescribed(Operation(document, path, verb))
  {
    forall name | name in Components(document)
      ensures ComponentCompatible(document, document, name)
    {
      SchemaOrder.Reflexive(Components(document)[name], Request);
      SchemaOrder.Reflexive(Components(document)[name], Response);
    }
    forall path, verb | HasOperation(document, path, verb)
      ensures OperationCompatible(Operation(document, path, verb), Operation(document, path, verb)) <==>
              MediaDescribed(Operation(document, path, verb))
    {
      OperationWithItself(Operation(document, path, verb));
    }
    RoutesWithThemselves(document);
  }

  lemma RoutesWithThemselves(document: Json)
    ensures RoutesCompatible(document, document) <==>
            forall path, verb :: HasOperation(document, path, verb) ==>
              OperationCompatible(Operation(document, path, verb), Operation(document, path, verb))
  {
    assert forall path, verb :: HasOperation(document, path, verb) <==>
      path in Paths(document) && verb in Verbs(document, path);
  }
}
