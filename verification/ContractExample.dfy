/** A contract inside the fragment of the soundness theorems: requests and
    responses with a component that refers to itself, which gains a property. */
module ContractExample {
  import opened Basics
  import opened Json
  import opened Schema
  import opened Meaning
  import opened SmallSchemas
  import SchemaOrder
  import opened Reachability
  import opened Roles
  import opened Contract
  import opened ContractSoundness
  import opened Definite
  import opened Unlimited

  const NODE := "Node"
  const LINK := Link(NODE)
  const MEDIA := Only("schema", LINK)
  const BODY := Only("content", JObject(map["json" := MEDIA]))
  const OPERATION := JObject(map["requestBody" := BODY, "responses" := JObject(map["200" := BODY])])

  /** The component before and after: `next` is the component again. */
  const OLD: Object := map["next" := LINK]
  const NEW: Object := map["next" := LINK, "note" := ANYTHING]

  predicate Variant(properties: Object) {
    properties == OLD || properties == NEW
  }

  function Document(properties: Object): Json {
    JObject(map["paths" := Only("/", Only("post", OPERATION)),
                "components" := Only("schemas", Only(NODE, Holding(properties)))])
  }

  lemma Shape(properties: Object)
    ensures Components(Document(properties)) == map[NODE := Holding(properties)]
    ensures Paths(Document(properties)) == map["/" := Only("post", OPERATION)]
    ensures Operation(Document(properties), "/", "post") == OPERATION
    ensures forall path, verb :: HasOperation(Document(properties), path, verb) <==> path == "/" && verb == "post"
  {
    assert Member(Document(properties), "components") == Only("schemas", Only(NODE, Holding(properties)));
    assert Member(Document(properties), "paths") == Only("/", Only("post", OPERATION));
  }

  lemma OnlyRefers(keyword: string, value: Json)
    requires keyword != "$ref"
    ensures References(Only(keyword, value)) == References(value)
  {
    assert OwnReferences(Only(keyword, value)) == {};
    assert Only(keyword, value).members[keyword] == value;
  }

  lemma BodyShape()
    ensures Content(BODY) == map["json" := MEDIA] && SchemaOf(MEDIA) == LINK && Headers(BODY) == map[]
    ensures References(BODY) == {NODE} && !Empty(BODY) && !Empty(MEDIA) && !RequiredFlag(BODY)
  {
    LinkRefers(NODE);
    OnlyRefers("schema", LINK);
    OnlyRefers("json", MEDIA);
    OnlyRefers("content", Only("json", MEDIA));
    assert "schema" in MEDIA.members && "content" in BODY.members;
  }

  lemma OperationShape()
    ensures Body(OPERATION) == BODY && Responses(OPERATION) == map["200" := BODY] && Parameters(OPERATION) == map[]
    ensures OperationReferences(OPERATION, Request) <= {NODE} && OperationReferences(OPERATION, Response) <= {NODE}
    ensures MediaDescribed(OPERATION)
  {
    BodyShape();
    OnlyRefers("200", BODY);
    assert Member(OPERATION, "parameters") == JNull;
  }

  lemma NodeRefers(properties: Object)
    requires Variant(properties)
    ensures References(Holding(properties)) <= {NODE}
  {
    LinkRefers(NODE);
    HoldingRefers(properties);
    assert OwnReferences(JObject(properties)) == {} && References(ANYTHING) == {};
  }

  /** Only the one component travels, in whatever direction. */
  lemma OnlyNodeTravels(properties: Object, direction: Direction)
    requires Variant(properties)
    ensures forall name :: Travels(Document(properties), direction, name) ==> name == NODE
  {
    var document := Document(properties);
    Shape(properties);
    OperationShape();
    NodeRefers(properties);
    assert Closed(Edges(document), {NODE});
    assert DirectReferences(document, direction) <= {NODE};
    ClosedHoldsReached(Edges(document), DirectReferences(document, direction), {NODE});
  }

  lemma AnythingWellFormed(components: Object)
    ensures WellFormed(components, ANYTHING)
  {
    assert forall keyword :: Member(ANYTHING, keyword) == JNull;
  }

  lemma VariantWellFormed(components: Object, properties: Object)
    requires Variant(properties) && NODE in components
    ensures WellFormed(components, Holding(properties)) && WellFormed(components, LINK)
  {
    LinkWellFormed(components, NODE);
    AnythingWellFormed(components);
    HoldingWellFormed(components, properties);
  }

  lemma NodeInFragment(direction: Direction)
    ensures InFragment(Document(OLD), Document(NEW), direction, Holding(OLD), Holding(NEW))
  {
    Shape(OLD);
    Shape(NEW);
    VariantWellFormed(Components(Document(OLD)), OLD);
    VariantWellFormed(Components(Document(NEW)), NEW);
    HoldingMoreComparable(OLD, NEW, direction);
  }

  lemma LinkInFragment(direction: Direction)
    ensures InFragment(Document(OLD), Document(NEW), direction, LINK, LINK)
  {
    Shape(OLD);
    Shape(NEW);
    LinkWellFormed(Components(Document(OLD)), NODE);
    LinkWellFormed(Components(Document(NEW)), NODE);
    ComparableWithItself(LINK, direction);
  }

  lemma PartsInside()
    ensures PartsInFragment(Document(OLD), Document(NEW), Headers(BODY), Headers(BODY))
    ensures PartsInFragment(Document(OLD), Document(NEW), Content(BODY), Content(BODY))
  {
    BodyShape();
    LinkInFragment(Response);
  }

  lemma OperationInside()
    ensures OperationInFragment(Document(OLD), Document(NEW), OPERATION, OPERATION)
  {
    OperationShape();
    BodyShape();
    assert forall media :: media in Content(BODY) ==> SchemaOf(Content(BODY)[media]) == LINK;
    LinkInFragment(Request);
    PartsInside();
    forall status | status in Responses(OPERATION)
      ensures PartsInFragment(Document(OLD), Document(NEW), Headers(Responses(OPERATION)[status]),
                              Headers(Responses(OPERATION)[status]))
      ensures PartsInFragment(Document(OLD), Document(NEW), Content(Responses(OPERATION)[status]),
                              Content(Responses(OPERATION)[status]))
    {
      assert Responses(OPERATION)[status] == BODY;
    }
  }

  lemma Inside()
    ensures Fragment(Document(OLD), Document(NEW))
  {
    Shape(OLD);
    Shape(NEW);
    forall direction, name | Travels(Document(OLD), direction, name)
      ensures name in Components(Document(OLD)) && name in Components(Document(NEW))
      ensures InFragment(Document(OLD), Document(NEW), direction, Components(Document(OLD))[name],
                         Components(Document(NEW))[name])
    {
      OnlyNodeTravels(OLD, direction);
      NodeInFragment(direction);
    }
    forall path, verb | HasOperation(Document(OLD), path, verb)
      ensures OperationInFragment(Document(OLD), Document(NEW), Operation(Document(OLD), path, verb),
                                  Operation(Document(NEW), path, verb))
    {
      OperationInside();
    }
  }

  lemma Routes()
    ensures RoutesCompatible(Document(OLD), Document(NEW))
  {
    Shape(OLD);
    Shape(NEW);
    OperationShape();
    OperationWithItself(OPERATION);
    assert Verbs(Document(OLD), "/") == Verbs(Document(NEW), "/") == {"post"} by {
      assert HasOperation(Document(OLD), "/", "post") && HasOperation(Document(NEW), "/", "post");
      assert forall properties, verb :: Variant(properties) && verb in Verbs(Document(properties), "/") ==>
          HasOperation(Document(properties), "/", verb);
    }
  }

  lemma Kept()
    ensures ContractCompatible(Document(OLD), Document(NEW))
  {
    Routes();
    Shape(OLD);
    Shape(NEW);
    assert Member(Document(OLD), "components").JObject?;
    assert SecurityCompatible(Document(OLD), Document(NEW));
    HoldingMore(OLD, NEW, Request);
    HoldingMore(OLD, NEW, Response);
    assert ComponentCompatible(Document(OLD), Document(NEW), NODE);
  }

  lemma DocumentsDiffer()
    ensures Document(OLD) != Document(NEW)
  {
    Shape(OLD);
    Shape(NEW);
    assert "note" in Properties(Components(Document(NEW))[NODE])
           && "note" !in Properties(Components(Document(OLD))[NODE]);
  }

  function Upload(depth: nat): ClientRequest {
    ClientRequest(map[], Some(Payload("json", Chain("next", depth))))
  }

  function Answer(depth: nat): ServerResponse {
    ServerResponse("200", map[], Some(Payload("json", Chain("next", depth))))
  }

  lemma ChainFollowed(side: Side, depth: nat, fuel: nat, properties: Object)
    requires side.components == map[NODE := Holding(properties)] && Variant(properties) && depth + 1 <= fuel
    ensures Admits(side, fuel, LINK, Chain("next", depth))
  {
    ChainAdmitted(side, depth, fuel - depth - 1, "next", NODE, properties);
    assert ChainPasses(side, NODE, "next", depth, fuel - depth - 1);
    assert depth + 1 + (fuel - depth - 1) == fuel;
  }

  lemma ChainInBody(side: Side, depth: nat, fuel: nat, properties: Object)
    requires side.components == map[NODE := Holding(properties)] && Variant(properties) && depth + 1 <= fuel
    ensures PayloadAdmitted(side, fuel, Content(BODY), Payload("json", Chain("next", depth)))
  {
    BodyShape();
    ChainFollowed(side, depth, fuel, properties);
  }

  lemma UploadPasses(side: Side, depth: nat, fuel: nat)
    requires side.components == map[NODE := Holding(OLD)] && depth + 1 <= fuel
    ensures RequestWritable(side, fuel, OPERATION, Upload(depth))
  {
    OperationShape();
    BodyShape();
    ChainInBody(side, depth, fuel, OLD);
  }

  lemma UploadWritable(oracle: Oracle, document: Json, depth: nat)
    requires Components(document) == map[NODE := Holding(OLD)]
    ensures WritableFrom(oracle, document, OPERATION, Upload(depth), depth + 1)
  {
    forall fuel: nat, base: bool | depth + 1 <= fuel {
      UploadPasses(Side(oracle, Components(document), Writing, base), depth, fuel);
    }
  }

  /** Old clients keep sending chains of any depth. */
  lemma DeepUploadsAccepted(oracle: Oracle, depth: nat)
    ensures WritableFrom(oracle, Document(OLD), OPERATION, Upload(depth), depth + 1)
    ensures ReadableFrom(oracle, Document(NEW), OPERATION, Upload(depth), depth + 1)
    ensures Document(OLD) != Document(NEW) && Fragment(Document(OLD), Document(NEW))
  {
    Shape(OLD);
    Shape(NEW);
    UploadWritable(oracle, Document(OLD), depth);
    Kept();
    Inside();
    OldRequestsStillAccepted(oracle, Document(OLD), Document(NEW), "/", "post", Upload(depth), depth + 1);
    DocumentsDiffer();
  }

  lemma AnswerShared(depth: nat)
    ensures Shared(OPERATION, Answer(depth))
  {
    OperationShape();
    BodyShape();
  }

  lemma AnswerPasses(side: Side, depth: nat, fuel: nat)
    requires side.components == map[NODE := Holding(NEW)] && depth + 1 <= fuel
    ensures ResponseWritable(side, fuel, OPERATION, Answer(depth))
  {
    OperationShape();
    BodyShape();
    ChainInBody(side, depth, fuel, NEW);
  }

  lemma AnswerWritable(oracle: Oracle, document: Json, depth: nat)
    requires Components(document) == map[NODE := Holding(NEW)]
    ensures AnswerableFrom(oracle, document, OPERATION, Answer(depth), depth + 1)
  {
    forall fuel: nat, base: bool | depth + 1 <= fuel {
      AnswerPasses(Side(oracle, Components(document), Writing, base), depth, fuel);
    }
  }

  /** And they understand the chains they are sent. */
  lemma DeepAnswersUnderstood(oracle: Oracle, depth: nat)
    ensures Shared(OPERATION, Answer(depth))
    ensures AnswerableFrom(oracle, Document(NEW), OPERATION, Answer(depth), depth + 1)
    ensures UnderstoodFrom(oracle, Document(OLD), OPERATION, Answer(depth), depth + 1)
  {
    Shape(OLD);
    Shape(NEW);
    AnswerShared(depth);
    AnswerWritable(oracle, Document(NEW), depth);
    Kept();
    Inside();
    NewResponsesStillUnderstood(oracle, Document(OLD), Document(NEW), "/", "post", Answer(depth), depth + 1);
  }

  /** The component comes back to itself only through a property. */
  lemma ExampleIsGuarded(properties: Object)
    requires Variant(properties)
    ensures Guarded(Components(Document(properties)), Ranking(_ => 0, 0))
  {
    Shape(properties);
    var components, ranking := Components(Document(properties)), Ranking(_ => 0, 0);
    MemberOfOnly("properties", JObject(properties));
    forall name
      ensures Ranked(components, ranking, name)
    {
      assert Get(components, name) == if name == NODE then Holding(properties) else JNull;
    }
  }
}
