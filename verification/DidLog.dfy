/**
 The meaning of `DidDocumentBuilder::resolve` (`resolver/src/builder.rs`): one step per
 log message, folded over the log, and the document read off the final state.
 */
module DidLog {
  import opened Wrappers
  import opened Text
  import opened Codec
  import opened Did
  import opened Keys
  import opened Events
  import opened Messages

  const DID_CONTEXT := "https://www.w3.org/ns/did/v1"

  /** The `Multibase` form of a verification method, the only one the resolver builds. */
  datatype VerificationMethod =
    VerificationMethod(id: string, keyType: string, controller: string, publicKeyMultibase: string)

  datatype Service = Service(id: string, serviceType: string, serviceEndpoint: string)

  datatype KeyCapabilityMethod = Reference(id: string) | Embedded(method_: VerificationMethod)

  type MethodMap = map<string, VerificationMethod>
  type ServiceMap = map<string, Service>
  type ReferenceMap = map<string, KeyCapabilityMethod>

  datatype Relationship =
    | Authentication | AssertionMethod | KeyAgreement | CapabilityInvocation | CapabilityDelegation

  function ParseRelationship(s: string): Option<Relationship> {
    if s == "authentication" then Some(Authentication)
    else if s == "assertionMethod" then Some(AssertionMethod)
    else if s == "keyAgreement" then Some(KeyAgreement)
    else if s == "capabilityInvocation" then Some(CapabilityInvocation)
    else if s == "capabilityDelegation" then Some(CapabilityDelegation)
    else None
  }

  /** What a resolution is about: the DID text, its embedded key, and the libraries. */
  datatype Subject = Subject(c: Codec, did: string, anchor: Bytes) {
    function RootId(): string {
      did + DID_ROOT_KEY_ID
    }

    /** An id that method events may touch: it extends the DID text and is no root-key id. */
    predicate OwnsMethodId(id: string) {
      !EndsWith(id, DID_ROOT_KEY_ID) && StartsWith(id, did)
    }
  }

  /** The loop variables. */
  datatype FoldState = FoldState(
    current: Bytes,
    methods: MethodMap, services: ServiceMap,
    authentication: ReferenceMap, assertionMethod: ReferenceMap, keyAgreement: ReferenceMap,
    capabilityInvocation: ReferenceMap, capabilityDelegation: ReferenceMap,
    controller: Option<string>, created: Option<string>, updated: Option<string>,
    deactivated: bool, established: bool)
  {
    function Bucket(r: Relationship): ReferenceMap {
      match r
      case Authentication => authentication
      case AssertionMethod => assertionMethod
      case KeyAgreement => keyAgreement
      case CapabilityInvocation => capabilityInvocation
      case CapabilityDelegation => capabilityDelegation
    }

    function WithBucket(r: Relationship, m: ReferenceMap): (st: FoldState)
      ensures SameScalars(st, this) && st.services == services && st.methods == methods
      ensures st.Bucket(r) == m && forall q :: q != r ==> st.Bucket(q) == Bucket(q)
    {
      match r
      case Authentication => this.(authentication := m)
      case AssertionMethod => this.(assertionMethod := m)
      case KeyAgreement => this.(keyAgreement := m)
      case CapabilityInvocation => this.(capabilityInvocation := m)
      case CapabilityDelegation => this.(capabilityDelegation := m)
    }
  }

  /** The key in force, the flags and the metadata are as before; only maps may differ. */
  predicate SameScalars(a: FoldState, b: FoldState) {
    && a.current == b.current && a.controller == b.controller
    && a.created == b.created && a.updated == b.updated
    && a.deactivated == b.deactivated && a.established == b.established
  }

  /** The relationship maps are as before. */
  predicate SameBuckets(a: FoldState, b: FoldState) {
    && a.authentication == b.authentication && a.assertionMethod == b.assertionMethod
    && a.keyAgreement == b.keyAgreement && a.capabilityInvocation == b.capabilityInvocation
    && a.capabilityDelegation == b.capabilityDelegation
  }

  function Initial(x: Subject): FoldState {
    FoldState(x.anchor, map[], map[], map[], map[], map[], map[], map[], None, None, None, false, false)
  }

  function RootMethod(x: Subject, o: OwnerData, multibase: string): VerificationMethod {
    VerificationMethod(x.RootId(), KEY_TYPE, o.controller, multibase)
  }

  function ApplyOwner(x: Subject, st: FoldState, o: OwnerData, multibase: string): FoldState {
    st.(controller := Some(o.controller), methods := st.methods[x.RootId() := RootMethod(x, o, multibase)])
  }

  /** The method itself is upserted only when the event carries a key. */
  function AddKeyed(st: FoldState, d: AddMethodData): FoldState {
    if d.publicKeyMultibase == "" then st
    else st.(methods := st.methods[d.id := VerificationMethod(d.id, d.keyType, d.controller, d.publicKeyMultibase)])
  }

  /** A reference goes into the named relationship, if it is one of the five. */
  function AddReference(st: FoldState, id: string, r: Option<Relationship>): (st': FoldState)
    ensures SameScalars(st', st) && st'.services == st.services && st'.methods == st.methods
  {
    if r.None? then st else st.WithBucket(r.value, st.Bucket(r.value)[id := Reference(id)])
  }

  function ApplyAddMethod(x: Subject, st: FoldState, d: AddMethodData): (r: FoldState)
    ensures SameScalars(r, st) && r.services == st.services
  {
    if !x.OwnsMethodId(d.id) then st else AddReference(AddKeyed(st, d), d.id, ParseRelationship(d.relationshipType))
  }

  function ApplyRemoveMethod(x: Subject, st: FoldState, id: string): (r: FoldState)
    ensures SameScalars(r, st) && r.services == st.services
  {
    if !x.OwnsMethodId(id) then st
    else st.(methods := st.methods - {id},
             authentication := st.authentication - {id},
             assertionMethod := st.assertionMethod - {id},
             keyAgreement := st.keyAgreement - {id},
             capabilityInvocation := st.capabilityInvocation - {id},
             capabilityDelegation := st.capabilityDelegation - {id})
  }

  function ApplyAddService(x: Subject, st: FoldState, d: AddServiceData): (r: FoldState)
    ensures SameScalars(r, st) && SameBuckets(r, st) && r.methods == st.methods
  {
    if !StartsWith(d.id, x.did) then st
    else st.(services := st.services[d.id := Service(d.id, d.serviceType, d.serviceEndpoint)])
  }

  function ApplyRemoveService(x: Subject, st: FoldState, id: string): (r: FoldState)
    ensures SameScalars(r, st) && SameBuckets(r, st) && r.methods == st.methods
  {
    if !StartsWith(id, x.did) then st else st.(services := st.services - {id})
  }

  /** How an iteration of the loop ends. */
  datatype Exit = Continue | EndOfBody | Break

  /** An owner event in the order of the loop body, including its late `continue`s. */
  function StepOwner(x: Subject, st: FoldState, o: OwnerData, timestamp: string): (FoldState, Exit) {
    if o.id != x.did then (st, Continue)
    else
      match EffectiveKeyBytes(x.c, o)
      case Err(_) => (st, Continue)
      case Ok(claimed) =>
        if !st.established && claimed != x.anchor then (st, Continue)
        else
          var st1 := st.(established := true);
          if !ValidKey(x.c, claimed) then (st1, Continue)
          else
            var st2 := st1.(current := claimed);
            match EffectiveKeyMultibase(x.c, o)
            case Err(_) => (st2, Continue)
            case Ok(multibase) =>
              var st3 := ApplyOwner(x, st2, o, multibase);
              (st3.(created := if st3.created.None? then Some(timestamp) else st3.created), EndOfBody)
  }

  /** The events that change entries but not control. */
  function ApplyChange(x: Subject, st: FoldState, e: DidEvent): FoldState
    requires !e.Owner?
  {
    match e
    case AddVerificationMethod(d) => ApplyAddMethod(x, st, d)
    case RemoveVerificationMethod(id) => ApplyRemoveMethod(x, st, id)
    case AddService(d) => ApplyAddService(x, st, d)
    case RemoveService(id) => ApplyRemoveService(x, st, id)
    case Deactivate(_) => st
  }

  function StepEvent(x: Subject, st: FoldState, e: DidEvent, timestamp: string): (FoldState, Exit) {
    if e.Owner? then StepOwner(x, st, e.owner, timestamp) else (ApplyChange(x, st, e), EndOfBody)
  }

  /** The signature of an envelope verifies under a key. */
  predicate SignedBy(c: Codec, key: Bytes, e: HcsEnvelope) {
    match c.decode64(e.signature)
    case Some(signature) => Verifies(c, key, SignedBytes(c, e.message), signature)
    case None => false
  }

  /** What a raw message asks of the DID, whoever signed it. */
  datatype Request = Nothing | Delete(envelope: HcsEnvelope) | Change(envelope: HcsEnvelope, event: DidEvent)

  function RequestOf(x: Subject, raw: string): Request {
    match ParseEnvelope(x.c, raw)
    case None => Nothing
    case Some(e) =>
      if e.message.did != x.did then Nothing
      else if e.message.operation == "delete" then Delete(e)
      else if e.message.event.None? then Nothing
      else
        match ParseEvent(x.c, e.message.event.value)
        case None => Nothing
        case Some(event) => Change(e, event)
  }

  /** One iteration of the loop. */
  function Step(x: Subject, st: FoldState, raw: string): (FoldState, Exit) {
    match RequestOf(x, raw)
    case Nothing => (st, Continue)
    case Delete(e) => if SignedBy(x.c, st.current, e) then (st.(deactivated := true), Break) else (st, Continue)
    case Change(e, event) =>
      if !SignedBy(x.c, st.current, e) then (st, Continue)
      else
        var (st', exit) := StepEvent(x, st, event, e.message.timestamp);
        (if exit == EndOfBody then st'.(updated := Some(e.message.timestamp)) else st', exit)
  }

  /** One message after another; nothing is read after the `break`. */
  function Next(x: Subject, st: FoldState, raw: string): FoldState {
    if st.deactivated then st else Step(x, st, raw).0
  }

  function Fold(x: Subject, log: seq<string>): FoldState {
    if log == [] then Initial(x) else Next(x, Fold(x, log[..|log| - 1]), log[|log| - 1])
  }

  lemma OwnerNeverDeactivates(x: Subject, st: FoldState, o: OwnerData, timestamp: string)
    ensures StepOwner(x, st, o, timestamp).0.deactivated == st.deactivated
    ensures StepOwner(x, st, o, timestamp).1 != Break
  {
    if EffectiveKeyBytes(x.c, o).Ok? && EffectiveKeyMultibase(x.c, o).Ok? {
      var multibase := EffectiveKeyMultibase(x.c, o).value;
      var st2 := st.(established := true, current := EffectiveKeyBytes(x.c, o).value);
      assert ApplyOwner(x, st2, o, multibase).deactivated == st.deactivated;
    }
  }

  lemma ChangeNeverDeactivates(x: Subject, st: FoldState, e: DidEvent)
    requires !e.Owner?
    ensures ApplyChange(x, st, e).deactivated == st.deactivated
  {
    match e {
      case AddVerificationMethod(d) => assert SameScalars(ApplyAddMethod(x, st, d), st);
      case RemoveVerificationMethod(id) => assert SameScalars(ApplyRemoveMethod(x, st, id), st);
      case AddService(d) => assert SameScalars(ApplyAddService(x, st, d), st);
      case RemoveService(id) => assert SameScalars(ApplyRemoveService(x, st, id), st);
      case Deactivate(_) =>
    }
  }

  lemma EventNeverDeactivates(x: Subject, st: FoldState, e: DidEvent, timestamp: string)
    ensures StepEvent(x, st, e, timestamp).0.deactivated == st.deactivated
    ensures StepEvent(x, st, e, timestamp).1 != Break
  {
    if e.Owner? { OwnerNeverDeactivates(x, st, e.owner, timestamp); } else { ChangeNeverDeactivates(x, st, e); }
  }

  /** Only a `break` sets the tombstone. */
  lemma StepBreaksOnDelete(x: Subject, st: FoldState, raw: string)
    requires !st.deactivated
    ensures Step(x, st, raw).0.deactivated <==> Step(x, st, raw).1 == Break
  {
    match RequestOf(x, raw) {
      case Change(e, event) => EventNeverDeactivates(x, st, event, e.message.timestamp);
      case _ =>
    }
  }

  /** The resolution as maps; the lists of the returned document enumerate them. */
  datatype View = View(
    id: string, controller: string,
    methods: MethodMap, services: ServiceMap,
    authentication: ReferenceMap, assertionMethod: ReferenceMap, keyAgreement: ReferenceMap,
    capabilityInvocation: ReferenceMap, capabilityDelegation: ReferenceMap,
    created: Option<string>, updated: Option<string>, deactivated: bool)

  function InjectRoot(x: Subject, m: ReferenceMap): ReferenceMap {
    if x.RootId() in m then m else m[x.RootId() := Reference(x.RootId())]
  }

  function ViewOf(x: Subject, st: FoldState): Result<View, DidError> {
    if !st.established then Err(NotFound)
    else
      var controller := st.controller.UnwrapOr(x.did);
      if st.deactivated then
        Ok(View(x.did, controller, map[], map[], map[], map[], map[], map[], map[], st.created, st.updated, true))
      else
        Ok(View(x.did, controller, st.methods, st.services,
                InjectRoot(x, st.authentication), InjectRoot(x, st.assertionMethod), st.keyAgreement,
                st.capabilityInvocation, st.capabilityDelegation, st.created, st.updated, false))
  }

  /** The trust anchor: the key inside the DID itself. */
  function AnchorOf(c: Codec, did: HederaDid): Result<Bytes, DidError> {
    match FromBase58(c, did.base58Key)
    case Err(_) => Err(InvalidDid)
    case Ok(bytes) =>
      if |bytes| != 32 then Err(InvalidDid)
      else if !ValidKey(c, bytes) then Err(InvalidArgument)
      else Ok(bytes)
  }

  /** The whole of `resolve`. */
  function ResolveView(c: Codec, did: HederaDid, log: seq<string>): Result<View, DidError> {
    var anchor :- AnchorOf(c, did);
    var x := Subject(c, did.ToString(), anchor);
    ViewOf(x, Fold(x, log))
  }

  /** A resolution without the time of its last update. */
  function Content(r: Result<View, DidError>): Result<View, DidError> {
    match r
    case Ok(v) => Ok(v.(updated := None))
    case Err(e) => Err(e)
  }

  lemma FoldSnoc(x: Subject, log: seq<string>, raw: string)
    ensures Fold(x, log + [raw]) == Next(x, Fold(x, log), raw)
  {
    assert (log + [raw])[..|log|] == log;
  }

  /** A prefix of a log, extended by one message. */
  lemma FoldPrefix(x: Subject, log: seq<string>, i: nat)
    requires i < |log|
    ensures Fold(x, log[..i + 1]) == Next(x, Fold(x, log[..i]), log[i])
  {
    assert log[..i + 1] == log[..i] + [log[i]];
    FoldSnoc(x, log[..i], log[i]);
  }

  /** Once a delete has verified, every continuation folds to the same state. */
  lemma {:induction false} DeactivationAbsorbs(x: Subject, log: seq<string>, suffix: seq<string>)
    requires Fold(x, log).deactivated
    ensures Fold(x, log + suffix) == Fold(x, log)
    decreases |suffix|
  {
    if suffix == [] {
      assert log + suffix == log;
    } else {
      var init := suffix[..|suffix| - 1];
      DeactivationAbsorbs(x, log, init);
      assert log + suffix == (log + init) + [suffix[|suffix| - 1]];
      FoldSnoc(x, log + init, suffix[|suffix| - 1]);
    }
  }
}
