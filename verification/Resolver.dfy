/** `DidDocumentBuilder` (`resolver/src/builder.rs`) in the form of the source: one loop over mutable maps. */
module Resolver {
  import opened Wrappers
  import opened Text
  import opened Codec
  import opened Did
  import opened Events
  import opened Messages
  import opened DidLog

  datatype DidDocument = DidDocument(
    context: seq<string>, id: string, controller: string,
    verificationMethod: seq<VerificationMethod>, service: Option<seq<Service>>,
    authentication: Option<seq<KeyCapabilityMethod>>, assertionMethod: Option<seq<KeyCapabilityMethod>>,
    keyAgreement: Option<seq<KeyCapabilityMethod>>, capabilityInvocation: Option<seq<KeyCapabilityMethod>>,
    capabilityDelegation: Option<seq<KeyCapabilityMethod>>)

  datatype DidResolution = DidResolution(
    document: DidDocument, created: Option<string>, updated: Option<string>, deactivated: Option<bool>)

  /** `keys` lists the keys of `m`, each once, and `values` the values in that order. */
  ghost predicate Enumerates<V>(keys: seq<string>, values: seq<V>, m: map<string, V>) {
    && |keys| == |values|
    && (forall i, j :: 0 <= i < j < |keys| ==> keys[i] != keys[j])
    && (forall k :: k in m <==> k in keys)
    && (forall i :: 0 <= i < |keys| ==> keys[i] in m && values[i] == m[keys[i]])
  }

  /** A list holds the values of a map, in some order. */
  ghost predicate Lists<V>(values: seq<V>, m: map<string, V>) {
    exists keys :: Enumerates(keys, values, m)
  }

  /** A list that is absent when the map is empty. */
  ghost predicate ListsUnlessEmpty<V>(values: Option<seq<V>>, m: map<string, V>) {
    if m == map[] then values.None? else values.Some? && Lists(values.value, m)
  }

  ghost predicate AlwaysLists<V>(values: Option<seq<V>>, m: map<string, V>) {
    values.Some? && Lists(values.value, m)
  }

  /** The document lists the maps of the view. */
  ghost predicate ShowsDocument(d: DidDocument, v: View) {
    && d.context == ["https://www.w3.org/ns/did/v1"] && d.id == v.id && d.controller == v.controller
    && Lists(d.verificationMethod, v.methods)
    && ListsUnlessEmpty(d.service, v.services)
    && (if v.deactivated then d.authentication.None? && d.assertionMethod.None?
        else AlwaysLists(d.authentication, v.authentication) && AlwaysLists(d.assertionMethod, v.assertionMethod))
    && ListsUnlessEmpty(d.keyAgreement, v.keyAgreement)
    && ListsUnlessEmpty(d.capabilityInvocation, v.capabilityInvocation)
    && ListsUnlessEmpty(d.capabilityDelegation, v.capabilityDelegation)
  }

  /** The returned resolution shows exactly the view. */
  ghost predicate Shows(r: DidResolution, v: View) {
    && r.created == v.created && r.updated == v.updated && r.deactivated == Some(v.deactivated)
    && ShowsDocument(r.document, v)
  }

  lemma EnumeratesSnoc<V>(keys: seq<string>, values: seq<V>, m: map<string, V>, k: string, v: V)
    requires Enumerates(keys, values, m) && k !in m
    ensures Enumerates(keys + [k], values + [v], m[k := v])
  {
    assert k !in keys;
    assert forall q :: q in keys + [k] <==> q in keys || q == k;
  }

  lemma MoveEntry<V>(left: map<string, V>, taken: map<string, V>, k: string)
    requires k in left && left.Keys !! taken.Keys
    ensures (left - {k}) + taken[k := left[k]] == left + taken
    ensures (left - {k}).Keys !! taken[k := left[k]].Keys
    ensures |left - {k}| < |left|
  {
    assert (left - {k}).Keys == left.Keys - {k};
  }

  /** `HashMap::into_values().collect()`: some order of the values. */
  method IntoValues<V>(m: map<string, V>) returns (values: seq<V>)
    ensures Lists(values, m)
  {
    values := [];
    ghost var keys: seq<string> := [];
    ghost var taken: map<string, V> := map[];
    var left := m;
    while left != map[]
      invariant left.Keys !! taken.Keys && left + taken == m
      invariant Enumerates(keys, values, taken)
      decreases |left|
    {
      var k :| k in left;
      EnumeratesSnoc(keys, values, taken, k, left[k]);
      MoveEntry(left, taken, k);
      keys, values, taken := keys + [k], values + [left[k]], taken[k := left[k]];
      left := left - {k};
    }
    assert taken == m;
  }

  method IntoOptionalValues<V>(m: map<string, V>) returns (values: Option<seq<V>>)
    ensures ListsUnlessEmpty(values, m)
  {
    if m == map[] { return None; }
    var list := IntoValues(m);
    return Some(list);
  }

  /** The mutable variables of `resolve`. */
  class ResolutionState {
    var current: Bytes
    var verificationMethods: MethodMap
    var services: ServiceMap
    var authentication: ReferenceMap
    var assertionMethod: ReferenceMap
    var keyAgreement: ReferenceMap
    var capabilityInvocation: ReferenceMap
    var capabilityDelegation: ReferenceMap
    var controller: Option<string>
    var createdAt: Option<string>
    var updatedAt: Option<string>
    var deactivated: bool
    var established: bool

    constructor (anchor: Bytes)
      ensures forall c, did :: Snapshot() == Initial(Subject(c, did, anchor))
    {
      current := anchor;
      verificationMethods, services := map[], map[];
      authentication, assertionMethod, keyAgreement := map[], map[], map[];
      capabilityInvocation, capabilityDelegation := map[], map[];
      controller, createdAt, updatedAt := None, None, None;
      deactivated, established := false, false;
    }

    function Snapshot(): FoldState
      reads this
    {
      FoldState(current, verificationMethods, services, authentication, assertionMethod, keyAgreement,
                capabilityInvocation, capabilityDelegation, controller, createdAt, updatedAt, deactivated, established)
    }

    method ApplyDidOwner(x: Subject, o: OwnerData, multibase: string)
      modifies this
      ensures Snapshot() == ApplyOwner(x, old(Snapshot()), o, multibase)
    {
      var id := x.did + DID_ROOT_KEY_ID;
      controller := Some(o.controller);
      verificationMethods := verificationMethods[id := VerificationMethod(id, KEY_TYPE, o.controller, multibase)];
    }

    method ApplyAddVerificationMethod(x: Subject, d: AddMethodData)
      modifies this
      ensures Snapshot() == ApplyAddMethod(x, old(Snapshot()), d)
    {
      if EndsWith(d.id, DID_ROOT_KEY_ID) || !StartsWith(d.id, x.did) {
        return;
      }
      if d.publicKeyMultibase != "" {
        verificationMethods :=
          verificationMethods[d.id := VerificationMethod(d.id, d.keyType, d.controller, d.publicKeyMultibase)];
      }
      var reference := Reference(d.id);
      match ParseRelationship(d.relationshipType) {
        case Some(Authentication) => authentication := authentication[d.id := reference];
        case Some(AssertionMethod) => assertionMethod := assertionMethod[d.id := reference];
        case Some(KeyAgreement) => keyAgreement := keyAgreement[d.id := reference];
        case Some(CapabilityInvocation) => capabilityInvocation := capabilityInvocation[d.id := reference];
        case Some(CapabilityDelegation) => capabilityDelegation := capabilityDelegation[d.id := reference];
        case None =>
      }
    }

    method ApplyRemoveVerificationMethod(x: Subject, id: string)
      modifies this
      ensures Snapshot() == ApplyRemoveMethod(x, old(Snapshot()), id)
    {
      if EndsWith(id, DID_ROOT_KEY_ID) || !StartsWith(id, x.did) {
        return;
      }
      verificationMethods := verificationMethods - {id};
      authentication := authentication - {id};
      assertionMethod := assertionMethod - {id};
      keyAgreement := keyAgreement - {id};
      capabilityInvocation := capabilityInvocation - {id};
      capabilityDelegation := capabilityDelegation - {id};
    }

    method ApplyAddService(x: Subject, d: AddServiceData)
      modifies this
      ensures Snapshot() == DidLog.ApplyAddService(x, old(Snapshot()), d)
    {
      if !StartsWith(d.id, x.did) {
        return;
      }
      services := services[d.id := Service(d.id, d.serviceType, d.serviceEndpoint)];
    }

    method ApplyRemoveService(x: Subject, id: string)
      modifies this
      ensures Snapshot() == DidLog.ApplyRemoveService(x, old(Snapshot()), id)
    {
      if !StartsWith(id, x.did) {
        return;
      }
      services := services - {id};
    }

    /** The `match event` of the loop body. */
    method ApplyEvent(x: Subject, event: DidEvent, timestamp: string) returns (exit: Exit)
      modifies this
      ensures (Snapshot(), exit) == StepEvent(x, old(Snapshot()), event, timestamp)
    {
      match event {
        case Owner(owner) =>
          if owner.id != x.did { return Continue; }
          var key := EffectiveKeyBytes(x.c, owner);
          if key.Err? { return Continue; }
          var claimed := key.value;
          if !established && claimed != x.anchor { return Continue; }
          established := true;
          if !ValidKey(x.c, claimed) { return Continue; }
          current := claimed;
          var multibase := EffectiveKeyMultibase(x.c, owner);
          if multibase.Err? { return Continue; }
          ApplyDidOwner(x, owner, multibase.value);
          if createdAt.None? {
            createdAt := Some(timestamp);
          }
        case AddVerificationMethod(d) => ApplyAddVerificationMethod(x, d);
        case RemoveVerificationMethod(id) => ApplyRemoveVerificationMethod(x, id);
        case AddService(d) => ApplyAddService(x, d);
        case RemoveService(id) => ApplyRemoveService(x, id);
        case Deactivate(_) =>
      }
      return EndOfBody;
    }

    /** The loop body up to its `continue`, its end or its `break`. */
    method Process(x: Subject, raw: string) returns (exit: Exit)
      modifies this
      ensures (Snapshot(), exit) == Step(x, old(Snapshot()), raw)
    {
      var parsed := ParseEnvelope(x.c, raw);
      if parsed.None? { return Continue; }
      var envelope := parsed.value;
      var message := envelope.message;
      if message.did != x.did { return Continue; }

      if message.operation == "delete" {
        if !SignedBy(x.c, current, envelope) { return Continue; }
        deactivated := true;
        return Break;
      }

      if message.event.None? { return Continue; }
      var event := ParseEvent(x.c, message.event.value);
      if event.None? { return Continue; }
      if !SignedBy(x.c, current, envelope) { return Continue; }

      exit := ApplyEvent(x, event.value, message.timestamp);
      if exit == EndOfBody {
        updatedAt := Some(message.timestamp);
      }
    }

    /** The loop over the log. */
    method ProcessAll(x: Subject, messages: seq<string>)
      requires Snapshot() == Initial(x)
      modifies this
      ensures Snapshot() == Fold(x, messages)
    {
      var i := 0;
      while i < |messages|
        invariant 0 <= i <= |messages|
        invariant Snapshot() == Fold(x, messages[..i])
        invariant !Snapshot().deactivated
      {
        StepIsNext(x, messages, i);
        var exit := Process(x, messages[i]);
        i := i + 1;
        if exit == Break {
          break;
        }
      }
      FoldFromPrefix(x, messages, i);
    }

    /** The document of the final state; `HashMap` order is arbitrary. */
    /** The branch of a DID that is not deactivated, once the root references are in. */
    method LiveDocument(x: Subject) returns (document: DidDocument)
      ensures forall v: View ::
        && v.id == x.did && v.controller == controller.UnwrapOr(x.did) && !v.deactivated
        && v.methods == verificationMethods && v.services == services
        && v.authentication == authentication && v.assertionMethod == assertionMethod
        && v.keyAgreement == keyAgreement && v.capabilityInvocation == capabilityInvocation
        && v.capabilityDelegation == capabilityDelegation
        ==> ShowsDocument(document, v)
    {
      var methodList := IntoValues(verificationMethods);
      var serviceList := IntoOptionalValues(services);
      var authenticationList := IntoValues(authentication);
      var assertionList := IntoValues(assertionMethod);
      var agreementList := IntoOptionalValues(keyAgreement);
      var invocationList := IntoOptionalValues(capabilityInvocation);
      var delegationList := IntoOptionalValues(capabilityDelegation);
      return DidDocument([DID_CONTEXT], x.did, controller.UnwrapOr(x.did), methodList, serviceList,
          Some(authenticationList), Some(assertionList), agreementList, invocationList, delegationList);
    }

    method IntoResolution(x: Subject) returns (r: Result<DidResolution, DidError>)
      modifies this
      ensures r.Ok? <==> ViewOf(x, old(Snapshot())).Ok?
      ensures r.Ok? ==> Shows(r.value, ViewOf(x, old(Snapshot())).value)
      ensures r.Err? ==> r.error == NotFound
    {
      if !established {
        return Err(NotFound);
      }
      var rootKeyId := x.RootId();
      if rootKeyId !in authentication {
        authentication := authentication[rootKeyId := Reference(rootKeyId)];
      }
      if rootKeyId !in assertionMethod {
        assertionMethod := assertionMethod[rootKeyId := Reference(rootKeyId)];
      }
      var document;
      if deactivated {
        assert Enumerates<VerificationMethod>([], [], map[]);
        document := DidDocument([DID_CONTEXT], x.did, controller.UnwrapOr(x.did), [], None, None, None, None, None,
          None);
      } else {
        document := LiveDocument(x);
      }
      return Ok(DidResolution(document, createdAt, updatedAt, Some(deactivated)));
    }
  }

  lemma StepIsNext(x: Subject, messages: seq<string>, i: nat)
    requires i < |messages| && !Fold(x, messages[..i]).deactivated
    ensures Step(x, Fold(x, messages[..i]), messages[i]).0 == Fold(x, messages[..i + 1])
    ensures Fold(x, messages[..i + 1]).deactivated <==> Step(x, Fold(x, messages[..i]), messages[i]).1 == Break
  {
    FoldPrefix(x, messages, i);
    StepBreaksOnDelete(x, Fold(x, messages[..i]), messages[i]);
  }

  /** A prefix that is the whole log, or that ends in the verified delete, decides the fold. */
  lemma FoldFromPrefix(x: Subject, messages: seq<string>, i: nat)
    requires i <= |messages| && (i == |messages| || Fold(x, messages[..i]).deactivated)
    ensures Fold(x, messages[..i]) == Fold(x, messages)
  {
    if i == |messages| {
      assert messages[..i] == messages;
    } else {
      assert messages == messages[..i] + messages[i..];
      DeactivationAbsorbs(x, messages[..i], messages[i..]);
    }
  }

  /** `DidDocumentBuilder::resolve`. */
  method Resolve(c: Codec, messages: seq<string>, did: HederaDid) returns (r: Result<DidResolution, DidError>)
    ensures r.Ok? <==> ResolveView(c, did, messages).Ok?
    ensures r.Ok? ==> Shows(r.value, ResolveView(c, did, messages).value)
    ensures r.Err? ==> r.error == ResolveView(c, did, messages).error
  {
    var anchor :- AnchorOf(c, did);
    var x := Subject(c, did.ToString(), anchor);
    var state := new ResolutionState(anchor);
    state.ProcessAll(x, messages);
    r := state.IntoResolution(x);
  }
}
