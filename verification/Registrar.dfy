/**
 `update_did` and `update_did_with_signer` (`registrar/src/update.rs`): operations signed and
 submitted one by one, and what any reader of the topic then sees.
 */
module Registrar {
  import opened Wrappers
  import opened Codec
  import opened Did
  import opened Messages
  import opened DidLog
  import opened Keys
  import opened LogMeaning
  import opened LogShape
  import opened Operations
  import opened Lifecycle

  const SIGN_STEP := "sign"

  // ---------------------------------------------------------------- signing

  /** `InternalSigner::sign_bytes`. */
  function InternalSigner(c: Codec, privateKey: Bytes): Signer {
    m => Ok(c.sign(privateKey, m))
  }

  /** Update messages do not store a signature; attaching one is a no-op. */
  function UpdateTrait(c: Codec): MessageTrait<WriterMessage> {
    MessageTrait((w: WriterMessage) => Ok(w.MessageBytes(c)), (w: WriterMessage, s: Bytes) => (w, None))
  }

  function UpdateBuilder(): Builder<WriterMessage, Unit, Unit> {
    EmptyBuilder<WriterMessage, Unit, Unit>().AddSignWithSigner(SIGN_STEP).Extract()
  }

  function UpdateRunner(c: Codec): Runner<WriterMessage, Unit, Unit> {
    Runner(UpdateBuilder(), map[], UpdateTrait(c))
  }

  /** Sign, run the one-step lifecycle (which signs again), and print. */
  function SignAndPrint(c: Codec, w: WriterMessage, signer: Signer): Result<string, DidError> {
    var signature :- signer(w.MessageBytes(c));
    var finished :- Lifecycle.Process(UpdateRunner(c), w, Unit, Segment(Some(signer), Some(signature)), Unit).0;
    Ok(w.ToPayload(c, signature))
  }

  /** The lifecycle adds one thing to signing: it refuses signatures that are not 64 bytes long. */
  lemma LifecycleChecksLength(c: Codec, w: WriterMessage, signer: Signer)
    ensures SignAndPrint(c, w, signer) ==
      match signer(w.MessageBytes(c))
      case Err(e) => Err(e)
      case Ok(signature) => if |signature| == 64 then Ok(w.ToPayload(c, signature)) else Err(InvalidArgument)
  {
    var r := UpdateRunner(c);
    assert r.builder.steps == [Step(SIGN_STEP, SignWithSigner, None)];
    if signer(w.MessageBytes(c)).Ok? {
      var s := Machine(w, Unit, Some(signer(w.MessageBytes(c)).value), Unit);
      assert r.traitOf.messageBytes(w) == Ok(w.MessageBytes(c));
      assert ExecuteSteps(r, 1, Some(signer), s) == (s, Ended);
      SignStep(c, w, signer, s);
    }
  }

  lemma SignStep(c: Codec, w: WriterMessage, signer: Signer, s: Machine<WriterMessage, Unit, Unit>)
    requires s.message == w && signer(w.MessageBytes(c)).Ok?
    ensures RunStep(UpdateRunner(c), Step(SIGN_STEP, SignWithSigner, None), Some(signer), s)
      == (s, if |signer(w.MessageBytes(c)).value| == 64 then None else Some(InvalidArgument))
  {
  }

  /** What one operation puts on the topic. */
  function OperationPayload(c: Codec, did: string, op: UpdateOperation, timestamp: string, signer: Signer)
    : Result<string, DidError>
  {
    var w :- FromOperation(did, op, timestamp);
    SignAndPrint(c, w, signer)
  }

  /** The payloads of a list of operations, up to the first that cannot be written. */
  function Payloads(c: Codec, did: string, ops: seq<UpdateOperation>, clock: nat -> string, signer: Signer)
    : (p: seq<string>)
    ensures |p| <= |ops|
  {
    if ops == [] then []
    else
      var n := |ops| - 1;
      var before := Payloads(c, did, ops[..n], clock, signer);
      if |before| < n then before
      else
        match OperationPayload(c, did, ops[n], clock(n), signer)
        case Ok(payload) => before + [payload]
        case Err(_) => before
  }

  lemma PayloadsStep(c: Codec, did: string, ops: seq<UpdateOperation>, clock: nat -> string, signer: Signer)
    requires ops != []
    ensures var before, all := Payloads(c, did, ops[..|ops| - 1], clock, signer), Payloads(c, did, ops, clock, signer);
      && before <= all
      && (|before| < |ops| - 1 ==> all == before)
  {
  }

  lemma PayloadsSnoc(c: Codec, did: string, ops: seq<UpdateOperation>, clock: nat -> string, signer: Signer)
    requires ops != [] && |Payloads(c, did, ops[..|ops| - 1], clock, signer)| == |ops| - 1
    requires OperationPayload(c, did, ops[|ops| - 1], clock(|ops| - 1), signer).Ok?
    ensures Payloads(c, did, ops, clock, signer) == Payloads(c, did, ops[..|ops| - 1], clock, signer)
      + [OperationPayload(c, did, ops[|ops| - 1], clock(|ops| - 1), signer).value]
  {
  }

  /** The payloads of fewer operations are an initial part of the payloads of all. */
  lemma {:induction false} PayloadsOfPrefix(c: Codec, did: string, ops: seq<UpdateOperation>, clock: nat -> string,
                                            signer: Signer, k: nat)
    requires k <= |ops|
    ensures Payloads(c, did, ops[..k], clock, signer) <= Payloads(c, did, ops, clock, signer)
    ensures k <= |Payloads(c, did, ops, clock, signer)| ==> |Payloads(c, did, ops[..k], clock, signer)| == k
    ensures |Payloads(c, did, ops[..k], clock, signer)| < k ==>
      Payloads(c, did, ops, clock, signer) == Payloads(c, did, ops[..k], clock, signer)
    decreases |ops|
  {
    if k == |ops| {
      assert ops[..k] == ops;
    } else {
      var n := |ops| - 1;
      PayloadsOfPrefix(c, did, ops[..n], clock, signer, k);
      PayloadsStep(c, did, ops, clock, signer);
      assert ops[..n][..k] == ops[..k];
    }
  }

  // ---------------------------------------------------------------- what is written is what is read

  /** The references of a view, by relationship. */
  function ReferencesOf(v: View, r: Relationship): ReferenceMap {
    match r
    case Authentication => v.authentication
    case AssertionMethod => v.assertionMethod
    case KeyAgreement => v.keyAgreement
    case CapabilityInvocation => v.capabilityInvocation
    case CapabilityDelegation => v.capabilityDelegation
  }

  /** A resolution is exactly the live document and metadata on record. */
  ghost predicate IsDocument(r: Result<View, DidError>, did: HederaDid, a: Record) {
    && r.Ok? && !r.value.deactivated && r.value.id == did.ToString() && r.value.controller == a.controller
    && r.value.created == Some(a.created) && r.value.updated == Some(a.updated)
    && r.value.methods == a.doc.methods && r.value.services == a.doc.services
    && forall q: Relationship, id ::
         Lookup(ReferencesOf(r.value, q), id) == if (q, id) in a.doc.references then Some(Reference(id)) else None
  }

  lemma FollowsIsDocument(x: Subject, did: HederaDid, st: FoldState, a: Record)
    requires x.did == did.ToString() && Follows(x, st, a)
    ensures IsDocument(ViewOf(x, st), did, a)
  {
    var v := ViewOf(x, st).value;
    forall q: Relationship, id
      ensures Lookup(ReferencesOf(v, q), id) == if (q, id) in a.doc.references then Some(Reference(id)) else None
    {
      assert BucketDepicts(x, st.Bucket(q), q, a.doc.references);
      ViewReference(x, st, v, q, id);
    }
  }

  lemma ViewReference(x: Subject, st: FoldState, v: View, q: Relationship, id: string)
    requires ViewOf(x, st) == Ok(v) && !st.deactivated
    requires x.RootId() !in st.Bucket(q)
    ensures Lookup(ReferencesOf(v, q), id)
      == if IsInjectedRoot(x, q, id) then Some(Reference(id)) else Lookup(st.Bucket(q), id)
  {
  }

  /** A log, whatever is in it, that has brought the DID to a record. */
  ghost predicate OnRecord(c: Codec, did: HederaDid, log: seq<string>, a: Record) {
    && AnchorOf(c, did).Ok?
    && var x := Subject(c, did.ToString(), AnchorOf(c, did).value);
    Follows(x, Fold(x, log), a)
  }

  /** Its resolution is that record. */
  lemma RecordIsRead(c: Codec, did: HederaDid, log: seq<string>, a: Record)
    requires OnRecord(c, did, log, a)
    ensures IsDocument(ResolveView(c, did, log), did, a)
  {
    var x := Subject(c, did.ToString(), AnchorOf(c, did).value);
    FollowsIsDocument(x, did, Fold(x, log), a);
  }

  lemma OwnPayload(c: Codec, did: string, op: UpdateOperation, timestamp: string, privateKey: Bytes)
    requires SignsFor(c, privateKey)
    ensures OperationPayload(c, did, op, timestamp, InternalSigner(c, privateKey)) ==
      match FromOperation(did, op, timestamp)
      case Ok(w) => Ok(SignedPayload(c, w, privateKey))
      case Err(e) => Err(e)
  {
    if FromOperation(did, op, timestamp).Ok? {
      LifecycleChecksLength(c, FromOperation(did, op, timestamp).value, InternalSigner(c, privateKey));
    }
  }

  lemma OwnPayloadsSnoc(c: Codec, did: string, ops: seq<UpdateOperation>, clock: nat -> string, privateKey: Bytes)
    requires SignsFor(c, privateKey) && ops != []
    ensures var before := Payloads(c, did, ops[..|ops| - 1], clock, InternalSigner(c, privateKey));
      var w := FromOperation(did, ops[|ops| - 1], clock(|ops| - 1));
      Payloads(c, did, ops, clock, InternalSigner(c, privateKey))
        == if |before| == |ops| - 1 && w.Ok? then before + [SignedPayload(c, w.value, privateKey)] else before
  {
    OwnPayload(c, did, ops[|ops| - 1], clock(|ops| - 1), privateKey);
  }

  /** After the payloads `p` the fold is at the record with the first `|p|` operations performed. */
  ghost predicate Arrives(x: Subject, log: seq<string>, p: seq<string>, a: Record, ops: seq<UpdateOperation>,
                          clock: nat -> string)
  {
    |p| <= |ops| && Follows(x, Fold(x, log + p), Updated(x.did, a, ops[..|p|], clock))
  }

  lemma NothingWritten(x: Subject, log: seq<string>, a: Record, clock: nat -> string)
    requires Follows(x, Fold(x, log), a)
    ensures Arrives(x, log, [], a, [], clock)
  {
    assert log + [] == log;
    assert Updated(x.did, a, [], clock) == a;
  }

  lemma LaterOperations(x: Subject, log: seq<string>, p: seq<string>, a: Record, ops: seq<UpdateOperation>,
                        clock: nat -> string)
    requires ops != [] && Arrives(x, log, p, a, ops[..|ops| - 1], clock)
    ensures Arrives(x, log, p, a, ops, clock)
  {
    assert ops[..|ops| - 1][..|p|] == ops[..|p|];
  }

  lemma OneMoreOperation(x: Subject, log: seq<string>, p: seq<string>, a: Record, privateKey: Bytes,
                         ops: seq<UpdateOperation>, clock: nat -> string)
    requires TextLaws(x.c) && SignsFor(x.c, privateKey) && a.key == x.c.publicKey(privateKey)
    requires |p| < |ops| && FromOperation(x.did, ops[|p|], clock(|p|)).Ok?
    requires Arrives(x, log, p, a, ops, clock)
    ensures var payload := SignedPayload(x.c, FromOperation(x.did, ops[|p|], clock(|p|)).value, privateKey);
      Arrives(x, log, p + [payload], a, ops, clock)
  {
    var n := |p|;
    var payload := SignedPayload(x.c, FromOperation(x.did, ops[n], clock(n)).value, privateKey);
    assert log + (p + [payload]) == (log + p) + [payload];
    FoldSnoc(x, log + p, payload);
    var bytes := FromOperation(x.did, ops[n], clock(n)).value.MessageBytes(x.c);
    OperationIsRead(x, Fold(x, log + p), Updated(x.did, a, ops[..n], clock), ops[n], clock(n),
      x.c.sign(privateKey, bytes));
    assert ops[..n + 1][..n] == ops[..n];
  }

  /** The fold over payloads signed by the key in force follows the operations written. */
  lemma {:induction false} PayloadsAreRead(x: Subject, log: seq<string>, a: Record, privateKey: Bytes,
                                           ops: seq<UpdateOperation>, clock: nat -> string)
    requires TextLaws(x.c) && SignsFor(x.c, privateKey) && a.key == x.c.publicKey(privateKey)
    requires Follows(x, Fold(x, log), a)
    ensures Arrives(x, log, Payloads(x.c, x.did, ops, clock, InternalSigner(x.c, privateKey)), a, ops, clock)
    decreases |ops|
  {
    if ops == [] {
      NothingWritten(x, log, a, clock);
    } else {
      var n := |ops| - 1;
      var before := Payloads(x.c, x.did, ops[..n], clock, InternalSigner(x.c, privateKey));
      PayloadsAreRead(x, log, a, privateKey, ops[..n], clock);
      LaterOperations(x, log, before, a, ops, clock);
      OwnPayloadsSnoc(x.c, x.did, ops, clock, privateKey);
      if |before| == n && FromOperation(x.did, ops[n], clock(n)).Ok? {
        OneMoreOperation(x, log, before, a, privateKey, ops, clock);
      }
    }
  }

  // ---------------------------------------------------------------- main results

  /** What is written is what is read. From any log on record, payloads signed by the key in force
      lead to the record with the operations performed, up to the first that could not be written. */
  lemma UpdateIsRead(c: Codec, did: HederaDid, log: seq<string>, a: Record, privateKey: Bytes,
                     ops: seq<UpdateOperation>, clock: nat -> string)
    requires TextLaws(c) && SignsFor(c, privateKey) && a.key == c.publicKey(privateKey)
    requires OnRecord(c, did, log, a)
    ensures var p := Payloads(c, did.ToString(), ops, clock, InternalSigner(c, privateKey));
      OnRecord(c, did, log + p, Updated(did.ToString(), a, ops[..|p|], clock))
  {
    PayloadsAreRead(Subject(c, did.ToString(), AnchorOf(c, did).value), log, a, privateKey, ops, clock);
  }

  /** A new DID's topic: the create message. */
  function CreateLog(c: Codec, did: HederaDid, privateKey: Bytes, controller: Option<string>, created: string)
    : seq<string>
  {
    [SignedPayload(c, CreateMessage(did, c.publicKey(privateKey), controller, created), privateKey)]
  }

  /** It brings the DID to the record of a new document. */
  lemma NewDidIsOnRecord(c: Codec, did: HederaDid, privateKey: Bytes, controller: Option<string>, created: string)
    requires TextLaws(c) && Base58Law(c) && SignsFor(c, privateKey) && OwnKey(c, did, privateKey)
    ensures OnRecord(c, did, CreateLog(c, did, privateKey, controller, created),
                     NewRecord(c, did, c.publicKey(privateKey), controller, created))
  {
    OwnAnchor(c, did, privateKey);
    CreateIsRead(Subject(c, did.ToString(), c.publicKey(privateKey)), did, privateKey, controller, created);
  }

  /** The create message, then update payloads, all under the DID's own key. */
  function OwnLog(c: Codec, did: HederaDid, privateKey: Bytes, controller: Option<string>, created: string,
                  ops: seq<UpdateOperation>, clock: nat -> string): seq<string>
  {
    CreateLog(c, did, privateKey, controller, created)
    + Payloads(c, did.ToString(), ops, clock, InternalSigner(c, privateKey))
  }

  /** The whole life of a DID under its own key: the resolution is the document obtained by
      performing the operations on a new document. */
  lemma WrittenIsRead(c: Codec, did: HederaDid, privateKey: Bytes, controller: Option<string>, created: string,
                      ops: seq<UpdateOperation>, clock: nat -> string)
    requires TextLaws(c) && Base58Law(c) && SignsFor(c, privateKey) && OwnKey(c, did, privateKey)
    ensures var k := |Payloads(c, did.ToString(), ops, clock, InternalSigner(c, privateKey))|;
      var a0 := NewRecord(c, did, c.publicKey(privateKey), controller, created);
      var a := Updated(did.ToString(), a0, ops[..k], clock);
      && OnRecord(c, did, OwnLog(c, did, privateKey, controller, created, ops, clock), a)
      && IsDocument(ResolveView(c, did, OwnLog(c, did, privateKey, controller, created, ops, clock)), did, a)
  {
    var k := |Payloads(c, did.ToString(), ops, clock, InternalSigner(c, privateKey))|;
    var a := NewRecord(c, did, c.publicKey(privateKey), controller, created);
    NewDidIsOnRecord(c, did, privateKey, controller, created);
    UpdateIsRead(c, did, CreateLog(c, did, privateKey, controller, created), a, privateKey, ops, clock);
    RecordIsRead(c, did, OwnLog(c, did, privateKey, controller, created, ops, clock),
      Updated(did.ToString(), a, ops[..k], clock));
  }

  /** Rotation: an owner message for the next key, signed by the one in force, moves the record to it. */
  lemma RotationMovesRecord(c: Codec, did: HederaDid, log: seq<string>, a: Record, privateKey: Bytes, next: Bytes,
                            controller: Option<string>, time: string)
    requires TextLaws(c) && Base58Law(c) && SignsFor(c, privateKey) && a.key == c.publicKey(privateKey)
    requires OnRecord(c, did, log, a) && ValidKey(c, next)
    ensures OnRecord(c, did, log + [SignedPayload(c, CreateMessage(did, next, controller, time), privateKey)],
                     Reowned(did, a, next, ToMultibase(c, next), controller.UnwrapOr(did.ToString()), time))
  {
    var x := Subject(c, did.ToString(), AnchorOf(c, did).value);
    FoldSnoc(x, log, SignedPayload(c, CreateMessage(did, next, controller, time), privateKey));
    RotationIsRead(x, did, Fold(x, log), a, privateKey, next, controller, time);
  }

  // ---------------------------------------------------------------- which operations show

  lemma SameReferences(v: View, w: View)
    requires forall q: Relationship, id :: Lookup(ReferencesOf(v, q), id) == Lookup(ReferencesOf(w, q), id)
    ensures v.authentication == w.authentication && v.assertionMethod == w.assertionMethod
    ensures v.keyAgreement == w.keyAgreement && v.capabilityInvocation == w.capabilityInvocation
    ensures v.capabilityDelegation == w.capabilityDelegation
  {
    forall q: Relationship ensures ReferencesOf(v, q) == ReferencesOf(w, q) {
      SameByLookup(ReferencesOf(v, q), ReferencesOf(w, q));
    }
    assert ReferencesOf(v, Authentication) == ReferencesOf(w, Authentication);
    assert ReferencesOf(v, AssertionMethod) == ReferencesOf(w, AssertionMethod);
    assert ReferencesOf(v, KeyAgreement) == ReferencesOf(w, KeyAgreement);
    assert ReferencesOf(v, CapabilityInvocation) == ReferencesOf(w, CapabilityInvocation);
    assert ReferencesOf(v, CapabilityDelegation) == ReferencesOf(w, CapabilityDelegation);
  }

  lemma TimelessReferences(v: View, q: Relationship)
    ensures ReferencesOf(v.(updated := None), q) == ReferencesOf(v, q)
  {
  }

  /** Two resolutions on record have the same content exactly when the documents are the same. */
  lemma ContentIsDocument(r: Result<View, DidError>, s: Result<View, DidError>, did: HederaDid, a: Record, b: Record)
    requires IsDocument(r, did, a) && IsDocument(s, did, b) && a.controller == b.controller && a.created == b.created
    ensures Content(r) == Content(s) <==> a.doc == b.doc
  {
    var v, w := r.value, s.value;
    if a.doc == b.doc {
      forall q: Relationship, id ensures Lookup(ReferencesOf(v, q), id) == Lookup(ReferencesOf(w, q), id) {
        assert Lookup(ReferencesOf(v, q), id) == if (q, id) in a.doc.references then Some(Reference(id)) else None;
      }
      SameReferences(v, w);
    }
    if Content(r) == Content(s) {
      assert v.(updated := None) == w.(updated := None);
      forall p: (Relationship, string) ensures p in a.doc.references <==> p in b.doc.references {
        var (q, id) := p;
        TimelessReferences(v, q);
        TimelessReferences(w, q);
        assert Lookup(ReferencesOf(v, q), id) == if (q, id) in a.doc.references then Some(Reference(id)) else None;
        assert Lookup(ReferencesOf(w, q), id) == if (q, id) in b.doc.references then Some(Reference(id)) else None;
      }
      assert a.doc.references == b.doc.references;
    }
  }

  /** Appending the payload changes what readers see, the update time aside. */
  ghost predicate ChangesContent(c: Codec, did: HederaDid, log: seq<string>, payload: string) {
    Content(ResolveView(c, did, log + [payload])) != Content(ResolveView(c, did, log))
  }

  /** On any log on record, an operation under any signature shows exactly when the signature verifies
      under the key in force and the operation changes the document. */
  lemma ShowsOnRecordIff(c: Codec, did: HederaDid, log: seq<string>, a: Record, op: UpdateOperation,
                         timestamp: string, signature: Bytes)
    requires TextLaws(c) && OnRecord(c, did, log, a)
    requires FromOperation(did.ToString(), op, timestamp).Ok?
    ensures var w := FromOperation(did.ToString(), op, timestamp).value;
      ChangesContent(c, did, log, w.ToPayload(c, signature))
      <==> Verifies(c, a.key, w.MessageBytes(c), signature) && Perform(did.ToString(), a.doc, op) != a.doc
  {
    var x := Subject(c, did.ToString(), AnchorOf(c, did).value);
    var w := FromOperation(x.did, op, timestamp).value;
    var raw := w.ToPayload(c, signature);
    FoldSnoc(x, log, raw);
    OperationIsRead(x, Fold(x, log), a, op, timestamp, signature);
    if Verifies(c, a.key, w.MessageBytes(c), signature) {
      var a' := a.(doc := Perform(x.did, a.doc, op), updated := timestamp);
      RecordIsRead(c, did, log, a);
      RecordIsRead(c, did, log + [raw], a');
      ContentIsDocument(ResolveView(c, did, log + [raw]), ResolveView(c, did, log), did, a', a);
    }
  }

  /** Updating with one operation more changes what readers see, the update time aside. */
  ghost predicate ChangesUpdate(c: Codec, did: HederaDid, log: seq<string>, privateKey: Bytes,
                                clock: nat -> string, ops: seq<UpdateOperation>, op: UpdateOperation)
  {
    Content(ResolveView(c, did, log + Payloads(c, did.ToString(), ops + [op], clock, InternalSigner(c, privateKey))))
      != Content(ResolveView(c, did, log + Payloads(c, did.ToString(), ops, clock, InternalSigner(c, privateKey))))
  }

  /** How many payloads the operations come to, with and without the last one. */
  lemma PayloadCounts(c: Codec, did: string, ops: seq<UpdateOperation>, op: UpdateOperation, clock: nat -> string,
                      privateKey: Bytes)
    requires SignsFor(c, privateKey)
    ensures var k := |Payloads(c, did, ops, clock, InternalSigner(c, privateKey))|;
      |Payloads(c, did, ops + [op], clock, InternalSigner(c, privateKey))|
        == if k == |ops| && FromOperation(did, op, clock(|ops|)).Ok? then k + 1 else k
  {
    assert (ops + [op])[..|ops|] == ops;
    OwnPayloadsSnoc(c, did, ops + [op], clock, privateKey);
  }

  /** Within an update, from any log on record: the last operation shows exactly when all before it
      were written, it can be written too, and it changes the document they lead to. */
  lemma ShowsIffDocumentChanges(c: Codec, did: HederaDid, log: seq<string>, a: Record, privateKey: Bytes,
                                clock: nat -> string, ops: seq<UpdateOperation>, op: UpdateOperation)
    requires TextLaws(c) && SignsFor(c, privateKey) && a.key == c.publicKey(privateKey)
    requires OnRecord(c, did, log, a)
    ensures var doc := PerformAll(did.ToString(), a.doc, ops);
      ChangesUpdate(c, did, log, privateKey, clock, ops, op)
      <==> |Payloads(c, did.ToString(), ops, clock, InternalSigner(c, privateKey))| == |ops|
           && FromOperation(did.ToString(), op, clock(|ops|)).Ok? && Perform(did.ToString(), doc, op) != doc
  {
    var did' := did.ToString();
    var p := Payloads(c, did', ops, clock, InternalSigner(c, privateKey));
    var p' := Payloads(c, did', ops + [op], clock, InternalSigner(c, privateKey));
    PayloadCounts(c, did', ops, op, clock, privateKey);
    UpdateIsRead(c, did, log, a, privateKey, ops, clock);
    UpdateIsRead(c, did, log, a, privateKey, ops + [op], clock);
    RecordIsRead(c, did, log + p, Updated(did', a, ops[..|p|], clock));
    RecordIsRead(c, did, log + p', Updated(did', a, (ops + [op])[..|p'|], clock));
    ContentIsDocument(ResolveView(c, did, log + p'), ResolveView(c, did, log + p), did,
      Updated(did', a, (ops + [op])[..|p'|], clock), Updated(did', a, ops[..|p|], clock));
    PrefixOfSnoc(ops, op, |p|);
    if |p'| == |p| + 1 { PerformSnoc(did', a.doc, ops, op); }
  }

  lemma PrefixOfSnoc(ops: seq<UpdateOperation>, op: UpdateOperation, k: nat)
    requires k <= |ops|
    ensures (ops + [op])[..k] == ops[..k]
    ensures ops[..|ops|] == ops && (ops + [op])[..|ops| + 1] == ops + [op]
  {
  }

  lemma PerformSnoc(did: string, doc: Document, ops: seq<UpdateOperation>, op: UpdateOperation)
    ensures PerformAll(did, doc, ops + [op]) == Perform(did, PerformAll(did, doc, ops), op)
  {
    assert (ops + [op])[..|ops|] == ops;
  }

  lemma PreparationIsWritten(c: Codec, did: string, op: UpdateOperation, clock: nat -> string, privateKey: Bytes)
    requires SignsFor(c, privateKey)
    ensures |Payloads(c, did, [Preparation(op)], clock, InternalSigner(c, privateKey))| == 1
  {
    assert [Preparation(op)][..0] == [];
    OwnPayloadsSnoc(c, did, [Preparation(op)], clock, privateKey);
  }

  /** After an update by the key in force, the payload of `op` under the signature shows. */
  ghost predicate ShowsAfter(c: Codec, did: HederaDid, log: seq<string>, privateKey: Bytes, clock: nat -> string,
                             ops: seq<UpdateOperation>, payload: string)
  {
    ChangesContent(c, did, log + Payloads(c, did.ToString(), ops, clock, InternalSigner(c, privateKey)), payload)
  }

  lemma ShowsAfterIff(c: Codec, did: HederaDid, log: seq<string>, a: Record, privateKey: Bytes, clock: nat -> string,
                      ops: seq<UpdateOperation>, op: UpdateOperation, timestamp: string, signature: Bytes)
    requires TextLaws(c) && SignsFor(c, privateKey) && a.key == c.publicKey(privateKey)
    requires OnRecord(c, did, log, a)
    requires FromOperation(did.ToString(), op, timestamp).Ok?
    ensures var w := FromOperation(did.ToString(), op, timestamp).value;
      var k := |Payloads(c, did.ToString(), ops, clock, InternalSigner(c, privateKey))|;
      var doc := PerformAll(did.ToString(), a.doc, ops[..k]);
      ShowsAfter(c, did, log, privateKey, clock, ops, w.ToPayload(c, signature))
      <==> Verifies(c, a.key, w.MessageBytes(c), signature) && Perform(did.ToString(), doc, op) != doc
  {
    var p := Payloads(c, did.ToString(), ops, clock, InternalSigner(c, privateKey));
    UpdateIsRead(c, did, log, a, privateKey, ops, clock);
    ShowsOnRecordIff(c, did, log + p, Updated(did.ToString(), a, ops[..|p|], clock), op, timestamp, signature);
  }

  /** An operation that takes hold shows after its preparation. */
  lemma TakesHoldShows(c: Codec, did: HederaDid, log: seq<string>, a: Record, privateKey: Bytes,
                       clock: nat -> string, op: UpdateOperation, timestamp: string, signature: Bytes)
    requires TextLaws(c) && SignsFor(c, privateKey) && a.key == c.publicKey(privateKey)
    requires OnRecord(c, did, log, a)
    requires FromOperation(did.ToString(), op, timestamp).Ok? && TakesHold(did.ToString(), op)
    ensures var w := FromOperation(did.ToString(), op, timestamp).value;
      ShowsAfter(c, did, log, privateKey, clock, [Preparation(op)], w.ToPayload(c, signature))
      <==> Verifies(c, a.key, w.MessageBytes(c), signature)
  {
    PreparedDocumentShows(did.ToString(), a.doc, op);
    PreparationIsWritten(c, did.ToString(), op, clock, privateKey);
    PerformOne(did.ToString(), a.doc, Preparation(op));
    assert [Preparation(op)][..1] == [Preparation(op)];
    ShowsAfterIff(c, did, log, a, privateKey, clock, [Preparation(op)], op, timestamp, signature);
  }

  /** Signed by whomever, submitted and counted or not: after some update by the key in force of any
      log on record, an operation changes a resolution exactly when its signature verifies under that
      key and the operation takes hold, which the caller can see from it and the DID's text. */
  lemma ShowsIffTakesHold(c: Codec, did: HederaDid, log: seq<string>, a: Record, privateKey: Bytes,
                          clock: nat -> string, op: UpdateOperation, timestamp: string, signature: Bytes)
    requires TextLaws(c) && SignsFor(c, privateKey) && a.key == c.publicKey(privateKey)
    requires OnRecord(c, did, log, a)
    requires FromOperation(did.ToString(), op, timestamp).Ok?
    ensures var w := FromOperation(did.ToString(), op, timestamp).value;
      (exists ops :: ShowsAfter(c, did, log, privateKey, clock, ops, w.ToPayload(c, signature)))
      <==> Verifies(c, a.key, w.MessageBytes(c), signature) && TakesHold(did.ToString(), op)
  {
    var payload := FromOperation(did.ToString(), op, timestamp).value.ToPayload(c, signature);
    if ops :| ShowsAfter(c, did, log, privateKey, clock, ops, payload) {
      ShowsAfterIff(c, did, log, a, privateKey, clock, ops, op, timestamp, signature);
      TakesHoldIff(did.ToString(), op);
    }
    if TakesHold(did.ToString(), op) {
      TakesHoldShows(c, did, log, a, privateKey, clock, op, timestamp, signature);
    }
  }
}
