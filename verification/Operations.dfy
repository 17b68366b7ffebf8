/**
 Update operations (`registrar/src/update.rs`): the messages they become, what they mean for
 a document that nobody has to replay, and the proof that what is written is what is read.
 */
module Operations {
  import opened Wrappers
  import opened Text
  import opened Codec
  import opened Did
  import opened Keys
  import opened Events
  import opened Messages
  import opened DidLog
  import opened LogSafety
  import opened LogMeaning

  /** `VerificationMethodProperty`: a plain method, or one of the five relationships. */
  datatype MethodProperty = PlainMethod | Relates(relationship: Relationship) {
    function AsString(): string {
      match this
      case PlainMethod => "verificationMethod"
      case Relates(Authentication) => "authentication"
      case Relates(AssertionMethod) => "assertionMethod"
      case Relates(KeyAgreement) => "keyAgreement"
      case Relates(CapabilityInvocation) => "capabilityInvocation"
      case Relates(CapabilityDelegation) => "capabilityDelegation"
    }
  }

  datatype UpdateOperation =
    | PutMethod(id: string, property: MethodProperty, controller: Option<string>, publicKeyMultibase: Option<string>)
    | DropMethod(id: string)
    | PutService(id: string, serviceType: string, serviceEndpoint: string)
    | DropService(id: string)

  /** `DIDUpdateMessageExt::from_operation`, with the time it would read off the clock. */
  function FromOperation(did: string, op: UpdateOperation, timestamp: string): Result<WriterMessage, DidError> {
    match op
    case PutMethod(id, property, controller, key) =>
      if property.PlainMethod? && key.None? then Err(InvalidArgument)
      else Ok(AddMethod(did, id, property.AsString(), controller.UnwrapOr(did), key.UnwrapOr(""), timestamp))
    case DropMethod(id) => Ok(RemoveMethod(did, id, timestamp))
    case PutService(id, serviceType, serviceEndpoint) =>
      Ok(AddServiceTo(did, id, serviceType, serviceEndpoint, timestamp))
    case DropService(id) => Ok(RemoveServiceFrom(did, id, timestamp))
  }

  // ---------------------------------------------------------------- the document without a log

  datatype Document = Document(methods: MethodMap, services: ServiceMap, references: set<(Relationship, string)>)

  /** The document of a new DID: its root method, for authentication and assertion. */
  function NewDocument(c: Codec, did: HederaDid, key: Bytes, controller: string): Document {
    Document(map[did.RootKeyId() := VerificationMethod(did.RootKeyId(), KEY_TYPE, controller, ToMultibase(c, key))],
      map[],
             {(Authentication, did.RootKeyId()), (AssertionMethod, did.RootKeyId())})
  }

  /** Ids under the DID are its own to manage, but not the root key's. */
  predicate Manages(did: string, id: string) {
    StartsWith(id, did) && !EndsWith(id, DID_ROOT_KEY_ID)
  }

  function Perform(did: string, doc: Document, op: UpdateOperation): Document {
    match op
    case PutMethod(id, property, controller, key) =>
      if !Manages(did, id) then doc
      else Document(
        if key.UnwrapOr("") == "" then doc.methods
        else doc.methods[id := VerificationMethod(id, KEY_TYPE, controller.UnwrapOr(did), key.value)],
        doc.services,
        doc.references + if property.Relates? then {(property.relationship, id)} else {})
    case DropMethod(id) =>
      if !Manages(did, id) then doc
      else Document(doc.methods - {id}, doc.services, set p | p in doc.references && p.1 != id)
    case PutService(id, serviceType, serviceEndpoint) =>
      if !StartsWith(id, did) then doc
      else doc.(services := doc.services[id := Service(id, serviceType, serviceEndpoint)])
    case DropService(id) =>
      if !StartsWith(id, did) then doc else doc.(services := doc.services - {id})
  }

  function PerformAll(did: string, doc: Document, ops: seq<UpdateOperation>): Document {
    if ops == [] then doc else Perform(did, PerformAll(did, doc, ops[..|ops| - 1]), ops[|ops| - 1])
  }

  /** The operations that can make a difference: a managed id and, for a put, either a
      relationship or a key that is not the empty text; for services, any id under the DID. */
  predicate TakesHold(did: string, op: UpdateOperation) {
    match op
    case PutMethod(id, property, _, key) => Manages(did, id) && (property.Relates? || key.UnwrapOr("") != "")
    case DropMethod(id) => Manages(did, id)
    case PutService(id, _, _) => StartsWith(id, did)
    case DropService(id) => StartsWith(id, did)
  }

  /** A put shows when the id was dropped before, a drop when it was put there. */
  function Preparation(op: UpdateOperation): UpdateOperation {
    match op
    case PutMethod(id, _, _, _) => DropMethod(id)
    case DropMethod(id) => PutMethod(id, PlainMethod, None, Some("z"))
    case PutService(id, _, _) => DropService(id)
    case DropService(id) => PutService(id, "", "")
  }

  lemma PerformOne(did: string, doc: Document, op: UpdateOperation)
    ensures PerformAll(did, doc, [op]) == Perform(did, doc, op)
  {
    assert [op][..0] == [];
  }

  /** On any document, prepared so, an operation that can make a difference makes one. */
  lemma PreparedDocumentShows(did: string, doc: Document, op: UpdateOperation)
    requires TakesHold(did, op)
    ensures var before := Perform(did, doc, Preparation(op)); Perform(did, before, op) != before
  {
    var before := Perform(did, doc, Preparation(op));
    match op {
      case PutMethod(id, property, controller, key) =>
        if property.Relates? {
          assert (property.relationship, id) in Perform(did, before, op).references;
          assert (property.relationship, id) !in before.references;
        } else {
          assert id in Perform(did, before, op).methods && id !in before.methods;
        }
      case DropMethod(id) => assert id in before.methods && id !in Perform(did, before, op).methods;
      case PutService(id, serviceType, serviceEndpoint) =>
        assert id in Perform(did, before, op).services && id !in before.services;
      case DropService(id) => assert id in before.services && id !in Perform(did, before, op).services;
    }
  }

  /** These are exactly the operations that change some document. */
  lemma TakesHoldIff(did: string, op: UpdateOperation)
    ensures (exists doc :: Perform(did, doc, op) != doc) <==> TakesHold(did, op)
  {
    if TakesHold(did, op) {
      PreparedDocumentShows(did, Document(map[], map[], {}), op);
    }
  }

  /** The one operation that cannot be written is adding a plain method without a key. */
  lemma WritableIff(did: string, op: UpdateOperation, timestamp: string)
    ensures FromOperation(did, op, timestamp).Err? <==>
      op.PutMethod? && op.property == PlainMethod && op.publicKeyMultibase == None
    ensures FromOperation(did, op, timestamp).Err? ==> FromOperation(did, op, timestamp) == Err(InvalidArgument)
    ensures FromOperation(did, op, timestamp).Ok? ==>
      var w := FromOperation(did, op, timestamp).value;
      w.DidText() == did && w.timestamp == timestamp && w.Operation() == "update"
  {
  }

  /** Every operation that can make a difference can be written, but not the other way round: an
      operation on a bare fragment such as `#key-1`, because ids are compared with the whole DID
      text, and one that adds a plain method with an empty key, even on an id of the DID's own. */
  lemma WritableButIdle(did: HederaDid, op: UpdateOperation, timestamp: string)
    ensures TakesHold(did.ToString(), op) ==> FromOperation(did.ToString(), op, timestamp).Ok?
    ensures StartsWith(op.id, "#") ==> !TakesHold(did.ToString(), op)
    ensures op.PutMethod? && op.property.PlainMethod? && op.publicKeyMultibase == Some("") ==>
      FromOperation(did.ToString(), op, timestamp).Ok? && !TakesHold(did.ToString(), op)
  {
    if StartsWith(op.id, "#") { assert op.id[0] == '#' && did.ToString()[0] == 'd'; }
  }

  /** No method operation on the root key takes hold. */
  lemma RootIdDoesNothing(did: HederaDid, doc: Document, op: UpdateOperation)
    requires op.PutMethod? || op.DropMethod?
    requires op.id == did.RootKeyId()
    ensures !TakesHold(did.ToString(), op) && Perform(did.ToString(), doc, op) == doc
  {
    assert op.id[|op.id| - |DID_ROOT_KEY_ID|..] == DID_ROOT_KEY_ID;
  }

  // ---------------------------------------------------------------- the fold follows the document

  predicate IsInjectedRoot(x: Subject, r: Relationship, id: string) {
    id == x.RootId() && (r == Authentication || r == AssertionMethod)
  }

  /** The references of one relationship, the injected root aside. */
  ghost predicate BucketDepicts(x: Subject, m: ReferenceMap, r: Relationship, references: set<(Relationship, string)>) {
    && x.RootId() !in m
    && (forall id :: (r, id) in references <==> id in m || IsInjectedRoot(x, r, id))
    && (forall id :: id in m ==> m[id] == Reference(id))
  }

  ghost predicate Depicts(x: Subject, st: FoldState, doc: Document) {
    && st.methods == doc.methods && st.services == doc.services
    && forall r :: BucketDepicts(x, st.Bucket(r), r, doc.references)
  }

  lemma PropertyRoundTrip(p: MethodProperty)
    ensures ParseRelationship(p.AsString()) == if p.Relates? then Some(p.relationship) else None
  {
  }

  lemma PutMethodDepicts(x: Subject, st: FoldState, doc: Document, op: UpdateOperation, d: AddMethodData)
    requires Depicts(x, st, doc) && op.PutMethod?
    requires d == AddMethodData(op.id, KEY_TYPE, op.controller.UnwrapOr(x.did), op.publicKeyMultibase.UnwrapOr(""),
      op.property.AsString())
    ensures Depicts(x, ApplyAddMethod(x, st, d), Perform(x.did, doc, op))
  {
    PropertyRoundTrip(op.property);
    AddOnMethods(x, st, d);
    RootIsNotOwned(x);
    forall r ensures BucketDepicts(x, ApplyAddMethod(x, st, d).Bucket(r), r, Perform(x.did, doc, op).references) {
      AddOnReferences(x, st, d, r);
      assert BucketDepicts(x, st.Bucket(r), r, doc.references);
    }
  }

  lemma DropMethodDepicts(x: Subject, st: FoldState, doc: Document, id: string)
    requires Depicts(x, st, doc)
    ensures Depicts(x, ApplyRemoveMethod(x, st, id), Perform(x.did, doc, DropMethod(id)))
  {
    RemoveOnMethods(x, st, id);
    RootIsNotOwned(x);
    var references := Perform(x.did, doc, DropMethod(id)).references;
    forall r ensures BucketDepicts(x, ApplyRemoveMethod(x, st, id).Bucket(r), r, references) {
      RemoveOnReferences(x, st, id, r);
      assert BucketDepicts(x, st.Bucket(r), r, doc.references);
    }
  }

  lemma SameReferencesDepict(x: Subject, a: FoldState, b: FoldState, da: Document, db: Document)
    requires Depicts(x, a, da) && SameBuckets(a, b) && da.references == db.references
    requires b.methods == db.methods && b.services == db.services
    ensures Depicts(x, b, db)
  {
    forall r ensures BucketDepicts(x, b.Bucket(r), r, db.references) {
      assert BucketDepicts(x, a.Bucket(r), r, da.references) && a.Bucket(r) == b.Bucket(r);
    }
  }

  /** Applying the event of an operation to the fold is performing the operation on the document. */
  lemma OperationDepicts(x: Subject, st: FoldState, doc: Document, op: UpdateOperation, timestamp: string)
    requires Depicts(x, st, doc) && FromOperation(x.did, op, timestamp).Ok?
    ensures FromOperation(x.did, op, timestamp).value.Event(x.c).Some?
    ensures var e := FromOperation(x.did, op, timestamp).value.Event(x.c).value;
      !e.Owner? && Depicts(x, ApplyChange(x, st, e), Perform(x.did, doc, op))
  {
    var e := FromOperation(x.did, op, timestamp).value.Event(x.c).value;
    match op {
      case PutMethod(id, property, controller, key) => PutMethodDepicts(x, st, doc, op, e.method_);
      case DropMethod(id) => DropMethodDepicts(x, st, doc, id);
      case PutService(id, serviceType, serviceEndpoint) =>
        SameReferencesDepict(x, st, ApplyAddService(x, st, e.service), doc, Perform(x.did, doc, op));
      case DropService(id) =>
        SameReferencesDepict(x, st, ApplyRemoveService(x, st, id), doc, Perform(x.did, doc, op));
    }
  }

  // ---------------------------------------------------------------- signed by the DID's own key

  function SignedPayload(c: Codec, w: WriterMessage, privateKey: Bytes): string {
    w.ToPayload(c, c.sign(privateKey, w.MessageBytes(c)))
  }

  /** What `create_did` puts into a DID: the base58 text of the signing key. */
  predicate OwnKey(c: Codec, did: HederaDid, privateKey: Bytes) {
    did.base58Key == c.encode58(c.publicKey(privateKey))
  }

  /** A reader takes a payload for the event and time that were written, and checks the very bytes
      that were signed, whatever the signature. */
  lemma PayloadIsRead(x: Subject, w: WriterMessage, signature: Bytes)
    requires TextLaws(x.c) && w.DidText() == x.did && w.Event(x.c).Some?
    ensures RequestOf(x, w.ToPayload(x.c, signature)).Change?
    ensures var q := RequestOf(x, w.ToPayload(x.c, signature));
      && q.event == w.Event(x.c).value && q.envelope.message.timestamp == w.timestamp
      && forall key :: SignedBy(x.c, key, q.envelope) <==> Verifies(x.c, key, w.MessageBytes(x.c), signature)
  {
    PayloadRoundTrip(x.c, w, signature);
    var raw := w.ToPayload(x.c, signature);
    RequestOfChange(x, raw, ParseEnvelope(x.c, raw).value, w.Event(x.c).value);
  }

  /** Signed by a proper key, it verifies under that key. */
  lemma SignedPayloadIsRead(x: Subject, w: WriterMessage, privateKey: Bytes)
    requires TextLaws(x.c) && SignsFor(x.c, privateKey)
    requires w.DidText() == x.did && w.Event(x.c).Some?
    ensures RequestOf(x, SignedPayload(x.c, w, privateKey)).Change?
    ensures var q := RequestOf(x, SignedPayload(x.c, w, privateKey));
      && q.event == w.Event(x.c).value && q.envelope.message.timestamp == w.timestamp
      && SignedBy(x.c, x.c.publicKey(privateKey), q.envelope)
  {
    PayloadIsRead(x, w, x.c.sign(privateKey, w.MessageBytes(x.c)));
  }

  lemma RequestOfChange(x: Subject, raw: string, e: HcsEnvelope, event: DidEvent)
    requires ParseEnvelope(x.c, raw) == Some(e) && e.message.did == x.did && e.message.operation != "delete"
    requires e.message.event.Some? && ParseEvent(x.c, e.message.event.value) == Some(event)
    ensures RequestOf(x, raw) == Change(e, event)
  {
  }

  lemma OwnSignature(c: Codec, privateKey: Bytes, e: HcsEnvelope, signed: Bytes)
    requires SignsFor(c, privateKey) && SignedBytes(c, e.message) == signed
    requires c.decode64(e.signature) == Some(c.sign(privateKey, signed))
    ensures SignedBy(c, c.publicKey(privateKey), e)
  {
  }

  lemma OwnAnchor(c: Codec, did: HederaDid, privateKey: Bytes)
    requires Base58Law(c) && SignsFor(c, privateKey) && OwnKey(c, did, privateKey)
    ensures AnchorOf(c, did) == Ok(c.publicKey(privateKey))
  {
  }

  /** What a DID's owner has on record: the key in force, the document and its metadata. */
  datatype Record = Record(key: Bytes, doc: Document, controller: string, created: string, updated: string)

  function NewRecord(c: Codec, did: HederaDid, key: Bytes, controller: Option<string>, created: string): Record {
    var ctrl := controller.UnwrapOr(did.ToString());
    Record(key, NewDocument(c, did, key, ctrl), ctrl, created, created)
  }

  /** The time of the last of `k` operations, or the time before them. */
  function LastTime(before: string, clock: nat -> string, k: nat): string {
    if k == 0 then before else clock(k - 1)
  }

  /** The record after operations, the `k`-th of them at `clock(k)`. */
  function Updated(did: string, a: Record, ops: seq<UpdateOperation>, clock: nat -> string): Record {
    a.(doc := PerformAll(did, a.doc, ops), updated := LastTime(a.updated, clock, |ops|))
  }

  /** The record after an owner message that names `key` and shows it as `multibase`. */
  function Reowned(did: HederaDid, a: Record, key: Bytes, multibase: string, controller: string, time: string): Record {
    var root := VerificationMethod(did.RootKeyId(), KEY_TYPE, controller, multibase);
    Record(key, a.doc.(methods := a.doc.methods[did.RootKeyId() := root]), controller, a.created, time)
  }

  /** The fold has arrived at a record. */
  ghost predicate Follows(x: Subject, st: FoldState, a: Record) {
    && st.current == a.key && st.established && !st.deactivated
    && st.controller == Some(a.controller) && st.created == Some(a.created) && st.updated == Some(a.updated)
    && Depicts(x, st, a.doc)
  }

  function CreateMessage(did: HederaDid, key: Bytes, controller: Option<string>, timestamp: string): WriterMessage {
    DidOwner(did, key, timestamp, controller)
  }

  /** An owner event as the writers print it claims the key it shows. */
  lemma WrittenOwnerEvent(x: Subject, key: Bytes, controller: string)
    requires Base58Law(x.c) && ValidKey(x.c, key)
    ensures var o := OwnerData(x.did, KEY_TYPE, controller, Some(ToMultibase(x.c, key)), None);
      EffectiveKeyBytes(x.c, o) == Ok(key) && SpellingOf(x, o) == ToMultibase(x.c, key)
  {
    MultibaseRoundTrip(x.c, key);
  }

  lemma CreateDepicts(x: Subject, did: HederaDid, o: OwnerData, created: string)
    requires x.did == did.ToString()
    requires SpellingOf(x, o) == ToMultibase(x.c, x.anchor)
    ensures Depicts(x, AfterOwner(x, Initial(x), o, x.anchor, created), NewDocument(x.c, did, x.anchor, o.controller))
  {
    var st := AfterOwner(x, Initial(x), o, x.anchor, created);
    var references := NewDocument(x.c, did, x.anchor, o.controller).references;
    assert x.RootId() == did.RootKeyId();
    forall r ensures BucketDepicts(x, st.Bucket(r), r, references) {
      assert st.Bucket(r) == map[];
    }
  }

  /** The state after the create message alone. */
  lemma CreateIsRead(x: Subject, did: HederaDid, privateKey: Bytes, controller: Option<string>, created: string)
    requires TextLaws(x.c) && Base58Law(x.c) && SignsFor(x.c, privateKey)
    requires x.did == did.ToString() && x.anchor == x.c.publicKey(privateKey)
    ensures Follows(x, Fold(x, [SignedPayload(x.c, CreateMessage(did, x.anchor, controller, created), privateKey)]),
                    NewRecord(x.c, did, x.anchor, controller, created))
  {
    var w := CreateMessage(did, x.anchor, controller, created);
    var raw := SignedPayload(x.c, w, privateKey);
    var o := w.Event(x.c).value.owner;
    SignedPayloadIsRead(x, w, privateKey);
    WrittenOwnerEvent(x, x.anchor, o.controller);
    AcceptedEndsBody(x, Initial(x), Owner(o), created);
    CreateDepicts(x, did, o, created);
    var none: seq<string> := [];
    assert none + [raw] == [raw];
    FoldSnoc(x, none, raw);
    CreateFollows(x, did, o, created);
  }

  lemma CreateFollows(x: Subject, did: HederaDid, o: OwnerData, created: string)
    requires Depicts(x, AfterOwner(x, Initial(x), o, x.anchor, created), NewDocument(x.c, did, x.anchor, o.controller))
    ensures Follows(x, AfterOwner(x, Initial(x), o, x.anchor, created).(updated := Some(created)),
                    Record(x.anchor, NewDocument(x.c, did, x.anchor, o.controller), o.controller, created, created))
  {
    UpdatedDepicts(x, AfterOwner(x, Initial(x), o, x.anchor, created), NewDocument(x.c, did, x.anchor, o.controller),
      Some(created));
  }

  lemma UpdatedDepicts(x: Subject, st: FoldState, doc: Document, updated: Option<string>)
    requires Depicts(x, st, doc)
    ensures Depicts(x, st.(updated := updated), doc)
  {
    SameReferencesDepict(x, st, st.(updated := updated), doc, doc);
  }

  /** One more operation, under any signature: performed when that verifies under the key in force,
      and otherwise skipped. */
  lemma OperationIsRead(x: Subject, st: FoldState, a: Record, op: UpdateOperation, timestamp: string, signature: Bytes)
    requires TextLaws(x.c) && Follows(x, st, a)
    requires FromOperation(x.did, op, timestamp).Ok?
    ensures var w := FromOperation(x.did, op, timestamp).value;
      var st' := Next(x, st, w.ToPayload(x.c, signature));
      if Verifies(x.c, a.key, w.MessageBytes(x.c), signature)
      then Follows(x, st', a.(doc := Perform(x.did, a.doc, op), updated := timestamp))
      else st' == st
  {
    var w := FromOperation(x.did, op, timestamp).value;
    OperationDepicts(x, st, a.doc, op, timestamp);
    PayloadIsRead(x, w, signature);
    var e := w.Event(x.c).value;
    OnlyOwnersTouchScalars(x, st, e, timestamp);
    UpdatedDepicts(x, ApplyChange(x, st, e), Perform(x.did, a.doc, op), Some(timestamp));
  }

  // ---------------------------------------------------------------- rotation

  lemma ReownedDepicts(x: Subject, did: HederaDid, st: FoldState, a: Record, o: OwnerData, key: Bytes, time: string)
    requires x.did == did.ToString() && Follows(x, st, a)
    ensures Follows(x, AfterOwner(x, st, o, key, time).(updated := Some(time)),
                    Reowned(did, a, key, SpellingOf(x, o), o.controller, time))
  {
    var st' := AfterOwner(x, st, o, key, time);
    var doc := Reowned(did, a, key, SpellingOf(x, o), o.controller, time).doc;
    assert x.RootId() == did.RootKeyId();
    SameReferencesDepict(x, st, st', a.doc, doc);
    UpdatedDepicts(x, st', doc, Some(time));
  }

  /** An owner event signed by the key in force hands control to the key it claims, and shows the
      spelling it carries, whether or not the two agree. */
  lemma OwnerEventIsRead(x: Subject, did: HederaDid, st: FoldState, a: Record, raw: string, o: OwnerData)
    requires ValidKey(x.c, x.anchor) && x.did == did.ToString() && Follows(x, st, a)
    requires RequestOf(x, raw).Change? && RequestOf(x, raw).event == Owner(o)
    requires SignedBy(x.c, a.key, RequestOf(x, raw).envelope)
    requires o.id == x.did && EffectiveKeyBytes(x.c, o).Ok? && ValidKey(x.c, EffectiveKeyBytes(x.c, o).value)
    ensures Follows(x, Next(x, st, raw),
                    Reowned(did, a, EffectiveKeyBytes(x.c, o).value, SpellingOf(x, o), o.controller,
                            RequestOf(x, raw).envelope.message.timestamp))
  {
    var time := RequestOf(x, raw).envelope.message.timestamp;
    AcceptedEndsBody(x, st, Owner(o), time);
    ReownedDepicts(x, did, st, a, o, EffectiveKeyBytes(x.c, o).value, time);
  }

  /** Rotation as the writers print it: the next key is in force and is the one shown. */
  lemma RotationIsRead(x: Subject, did: HederaDid, st: FoldState, a: Record, privateKey: Bytes, next: Bytes,
                       controller: Option<string>, time: string)
    requires TextLaws(x.c) && Base58Law(x.c) && SignsFor(x.c, privateKey) && a.key == x.c.publicKey(privateKey)
    requires ValidKey(x.c, x.anchor) && ValidKey(x.c, next) && x.did == did.ToString() && Follows(x, st, a)
    ensures Follows(x, Next(x, st, SignedPayload(x.c, CreateMessage(did, next, controller, time), privateKey)),
                    Reowned(did, a, next, ToMultibase(x.c, next), controller.UnwrapOr(x.did), time))
  {
    var w := CreateMessage(did, next, controller, time);
    var o := w.Event(x.c).value.owner;
    SignedPayloadIsRead(x, w, privateKey);
    WrittenOwnerEvent(x, next, o.controller);
    OwnerEventIsRead(x, did, st, a, SignedPayload(x.c, w, privateKey), o);
  }
}
