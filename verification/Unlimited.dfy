/** The soundness theorems without a limit on references: what holds from some
    number of references on, whatever the verdict on those not followed. */
module Unlimited {
  import opened Json
  import opened Schema
  import opened Meaning
  import opened Soundness
  import opened SmallSchemas
  import opened Definite
  import opened Roles
  import opened Contract
  import opened ContractSoundness

  // ---------------------------------------------------------------------
  // Schemas

  function WriterAt(s: Setting): Place {
    Place(s.oracle, Writer(s.direction, s.before, s.after), Writing)
  }

  function ReaderAt(s: Setting): Place {
    Place(s.oracle, Reader(s.direction, s.before, s.after), Reading)
  }

  /** What one side may write the other side reads. */
  lemma WrittenIsRead(s: Setting, baseline: Json, current: Json, value: Json)
    requires s.Valid() && s.Related(baseline, current)
    requires Verdict(WriterAt(s), Writer(s.direction, baseline, current), value, true)
    ensures Verdict(ReaderAt(s), Reader(s.direction, baseline, current), value, true)
  {
    var enough: nat :| Settled(WriterAt(s), Writer(s.direction, baseline, current), value, true, enough);
    forall fuel: nat, base: bool | enough <= fuel
      ensures Carried(s, baseline, current, value, fuel, base)
    {
      CarriedWithBase(s, baseline, current, value, fuel, base);
    }
    SettledCarries(s, baseline, current, value, enough);
  }

  ghost predicate Carried(s: Setting, baseline: Json, current: Json, value: Json, fuel: nat, base: bool) {
    Admits(Side(s.oracle, WriterAt(s).components, Writing, base), fuel, Writer(s.direction, baseline, current),
           value) ==>
      Admits(Side(s.oracle, ReaderAt(s).components, Reading, base), fuel, Reader(s.direction, baseline, current), value)
  }

  lemma SettledCarries(s: Setting, baseline: Json, current: Json, value: Json, enough: nat)
    requires Settled(WriterAt(s), Writer(s.direction, baseline, current), value, true, enough)
    requires forall fuel: nat, base: bool :: enough <= fuel ==> Carried(s, baseline, current, value, fuel, base)
    ensures Settled(ReaderAt(s), Reader(s.direction, baseline, current), value, true, enough)
  {
    forall fuel: nat, base: bool | enough <= fuel
      ensures Admits(Side(s.oracle, ReaderAt(s).components, Reading, base), fuel,
                     Reader(s.direction, baseline, current), value)
    {
      SettledAt(WriterAt(s), Writer(s.direction, baseline, current), value, true, enough, fuel, base);
      assert Carried(s, baseline, current, value, fuel, base);
    }
  }

  lemma CarriedWithBase(s: Setting, baseline: Json, current: Json, value: Json, fuel: nat, base: bool)
    requires s.Valid() && s.Related(baseline, current)
    ensures Carried(s, baseline, current, value, fuel, base)
  {
    OtherBase(s, base, baseline, current);
    ReadWithBase(s.(base := base), fuel, baseline, current, value);
  }

  lemma ReadWithBase(s: Setting, fuel: nat, baseline: Json, current: Json, value: Json)
    requires s.Valid() && s.Related(baseline, current)
    ensures Admits(Side(s.oracle, WriterAt(s).components, Writing, s.base), fuel,
                   Writer(s.direction, baseline, current), value) ==>
              Admits(Side(s.oracle, ReaderAt(s).components, Reading, s.base), fuel,
                     Reader(s.direction, baseline, current), value)
  {
    if Admits(s.Write(), fuel, Writer(s.direction, baseline, current), value) {
      WritableIsReadable(s, fuel, baseline, current, value);
    }
  }

  lemma RelatedWithBase(s: Setting, base: bool, baseline: Json, current: Json)
    requires s.Related(baseline, current)
    ensures s.(base := base).Related(baseline, current)
  {
  }

  lemma OtherBase(s: Setting, base: bool, baseline: Json, current: Json)
    requires s.Valid() && s.Related(baseline, current)
    ensures s.(base := base).Valid() && s.(base := base).Related(baseline, current)
  {
    RelatedWithBase(s, base, baseline, current);
    forall name | name in s.roles
      ensures s.(base := base).Related(s.before[name], s.after[name])
    {
      RelatedWithBase(s, base, s.before[name], s.after[name]);
    }
  }

  lemma OnlyItself(side: Side, fuel: nat, name: string, value: Json)
    requires Get(side.components, name) == Link(name)
    ensures Admits(side, fuel, Link(name), value) <==> Admits(side, 0, Link(name), value)
  {
    ghost var passes := (left: nat) => Admits(side, left, Link(name), value);
    forall left: nat | 0 < left
      ensures passes(left) == passes(left - 1)
    {
      OneLinkLess(side, left, name, value);
    }
    StepByStep(passes, fuel);
  }

  lemma {:induction false} StepByStep(passes: nat -> bool, fuel: nat)
    requires forall left: nat :: 0 < left ==> passes(left) == passes(left - 1)
    ensures passes(fuel) == passes(0)
  {
    if fuel > 0 {
      StepByStep(passes, fuel - 1);
    }
  }

  lemma OneLinkLess(side: Side, fuel: nat, name: string, value: Json)
    requires Get(side.components, name) == Link(name) && 0 < fuel
    ensures Admits(side, fuel, Link(name), value) <==> Admits(side, fuel - 1, Link(name), value)
  {
    LinkAdmits(side, fuel, name, value);
  }

  lemma LinkAtLimit(side: Side, name: string, value: Json)
    ensures Admits(side, 0, Link(name), value) <==> side.base
  {
    MemberOfOnly("$ref", JString(REFERENCE_PREFIX + name));
    LinkRefers(name);
    assert NamesSchemas("$ref");
    LocallySilent(side.oracle, Link(name), value);
    assert RefersTo(Link(name), name);
    assert BranchesAdmit(side, 0, Link(name), value) && OneAdmits(side, 0, Link(name), value);
    assert value.JObject? ==> forall member :: member in value.members ==>
        MemberAdmits(side, 0, Link(name), member, value.members[member]);
  }

  /** Without the guard there is no such verdict: a component that is only itself. */
  lemma UnguardedIsUndecided(place: Place, name: string, value: Json, admitted: bool)
    requires Get(place.components, name) == Link(name)
    ensures !Verdict(place, Link(name), value, admitted)
  {
    if Verdict(place, Link(name), value, admitted) {
      var enough: nat :| Settled(place, Link(name), value, admitted, enough);
      var side := Side(place.oracle, place.components, place.mode, !admitted);
      OnlyItself(side, enough, name, value);
      LinkAtLimit(side, name, value);
    }
  }

  // ---------------------------------------------------------------------
  // Contracts

  ghost predicate WritableFrom(oracle: Oracle, document: Json, operation: Json, request: ClientRequest, enough: nat) {
    forall fuel: nat, base: bool :: enough <= fuel ==>
      RequestWritable(Side(oracle, Components(document), Writing, base), fuel, operation, request)
  }

  ghost predicate ReadableFrom(oracle: Oracle, document: Json, operation: Json, request: ClientRequest, enough: nat) {
    forall fuel: nat, base: bool :: enough <= fuel ==>
      RequestReadable(Side(oracle, Components(document), Reading, base), fuel, operation, request)
  }

  /** What is an old client's to send is the current server's to accept. */
  lemma OldRequestsStillAccepted(oracle: Oracle, baseline: Json, current: Json, path: string, verb: string,
                                 request: ClientRequest, enough: nat)
    requires Fragment(baseline, current) && ContractCompatible(baseline, current) && HasOperation(baseline, path, verb)
    requires WritableFrom(oracle, baseline, Operation(baseline, path, verb), request, enough)
    ensures HasOperation(current, path, verb)
    ensures ReadableFrom(oracle, current, Operation(current, path, verb), request, enough)
  {
    OperationKept(baseline, current, path, verb);
    forall fuel: nat, base: bool | enough <= fuel
      ensures RequestReadable(Side(oracle, Components(current), Reading, base), fuel, Operation(current, path, verb),
                              request)
    {
      OldRequestsAccepted(oracle, base, baseline, current, path, verb, fuel, request);
    }
  }

  ghost predicate AnswerableFrom(oracle: Oracle, document: Json, operation: Json, response: ServerResponse,
                                 enough: nat) {
    forall fuel: nat, base: bool :: enough <= fuel ==>
      ResponseWritable(Side(oracle, Components(document), Writing, base), fuel, operation, response)
  }

  ghost predicate UnderstoodFrom(oracle: Oracle, document: Json, operation: Json, response: ServerResponse, enough: nat)
    requires Shared(operation, response)
  {
    forall fuel: nat, base: bool :: enough <= fuel ==>
      ResponseReadable(Side(oracle, Components(document), Reading, base), fuel, operation, response)
  }

  /** And what is the current server's to answer is an old client's to understand. */
  lemma NewResponsesStillUnderstood(oracle: Oracle, baseline: Json, current: Json, path: string, verb: string,
                                    response: ServerResponse, enough: nat)
    requires Fragment(baseline, current) && ContractCompatible(baseline, current) && HasOperation(baseline, path, verb)
    requires Shared(Operation(baseline, path, verb), response)
    requires AnswerableFrom(oracle, current, Operation(current, path, verb), response, enough)
    ensures UnderstoodFrom(oracle, baseline, Operation(baseline, path, verb), response, enough)
  {
    forall fuel: nat, base: bool | enough <= fuel
      ensures ResponseReadable(Side(oracle, Components(baseline), Reading, base), fuel, Operation(baseline, path, verb),
                               response)
    {
      NewResponsesUnderstood(oracle, base, baseline, current, path, verb, fuel, response);
    }
  }
}
