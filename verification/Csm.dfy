/**
 Client-managed signing (`registrar/src/csm.rs` and its three callers): operation states that
 leave the process to be signed elsewhere, and the checks they meet when they come back.
 */
module Csm {
  import opened Wrappers
  import opened Codec
  import opened Did
  import opened Keys
  import opened Events
  import opened Messages
  import opened DidLog
  import opened Operations
  import opened Lifecycle
  import opened Registrar

  const CSM_STATE_VERSION := 1
  const PAUSE_FOR_SIGNATURE_LABEL := "pause-for-signature"

  /** The serialisable form of a message: the DID of owner and delete messages is a text again. */
  datatype CsmMessageState =
    | OwnerState(did: string, publicKeyBytes: Bytes, timestamp: string, ownerController: Option<string>)
    | AddMethodState(did: string, id: string, property: string, controller: string, publicKeyMultibase: string,
      timestamp: string)
    | RemoveMethodState(did: string, id: string, timestamp: string)
    | AddServiceState(did: string, id: string, serviceType: string, serviceEndpoint: string, timestamp: string)
    | RemoveServiceState(did: string, id: string, timestamp: string)
    | DeactivateState(did: string, timestamp: string)
  {
    /** The message the state stands for; a DID text may fail to parse. */
    function Rebuild(): Result<WriterMessage, DidError> {
      match this
      case OwnerState(text, key, time, ctrl) =>
        var d :- ParseDid(text);
        Ok(DidOwner(d, key, time, ctrl))
      case AddMethodState(d, i, prop, ctrl, mb, time) => Ok(AddMethod(d, i, prop, ctrl, mb, time))
      case RemoveMethodState(d, i, time) => Ok(RemoveMethod(d, i, time))
      case AddServiceState(d, i, st, se, time) => Ok(AddServiceTo(d, i, st, se, time))
      case RemoveServiceState(d, i, time) => Ok(RemoveServiceFrom(d, i, time))
      case DeactivateState(text, time) =>
        var d :- ParseDid(text);
        Ok(DidDeactivate(d, time))
    }
  }

  datatype CsmOperationState = CsmOperationState(
    version: nat, requestId: string, did: string, topicId: string, operation: string, lifecycleLabel: string,
    expiresAtUnix: Option<int>, expectedPublicKeyBytes: Bytes, messageBytes: Bytes, message: CsmMessageState)
  {
    function RebuildMessageBytes(c: Codec): Result<Bytes, DidError> {
      var w :- message.Rebuild();
      Ok(w.MessageBytes(c))
    }

    function ValidateState(c: Codec): Result<Unit, DidError> {
      if version != CSM_STATE_VERSION then Err(InvalidArgument)
      else if requestId != BuildRequestId(c, did, topicId, operation, messageBytes) then Err(InvalidArgument)
      else if |expectedPublicKeyBytes| != 32 then Err(InvalidArgument)
      else Ok(Unit)
    }

    function RequireMatchingMessageBytes(c: Codec): Result<Unit, DidError> {
      var rebuilt :- RebuildMessageBytes(c);
      if rebuilt != messageBytes then Err(InvalidArgument) else Ok(Unit)
    }

    function RequireNotExpired(now: int): Result<Unit, DidError> {
      if expiresAtUnix.Some? && now > expiresAtUnix.value then Err(InvalidArgument) else Ok(Unit)
    }

    function VerifySignature(c: Codec, signature: Bytes): Result<Unit, DidError> {
      if !ValidKey(c, expectedPublicKeyBytes) then Err(InvalidArgument)
      else if !Verifies(c, expectedPublicKeyBytes, messageBytes, signature) then Err(InvalidSignature)
      else Ok(Unit)
    }

    /** `now` is what reading the system clock gives. */
    function ValidateForSubmit(c: Codec, signature: Bytes, now: Result<int, DidError>): Result<Unit, DidError> {
      var valid :- ValidateState(c);
      var signed :- RequireSignature(signature);
      var matching :- RequireMatchingMessageBytes(c);
      var time :- now;
      var live :- RequireNotExpired(time);
      VerifySignature(c, signature)
    }

    function ToPayload(c: Codec, signature: Bytes, now: Result<int, DidError>): Result<string, DidError> {
      var valid :- ValidateForSubmit(c, signature, now);
      var w :- message.Rebuild();
      Ok(w.ToPayload(c, signature))
    }

    function SigningRequest(c: Codec): Result<CsmSigningRequest, DidError> {
      var valid :- ValidateState(c);
      var rebuilt :- RebuildMessageBytes(c);
      if rebuilt != messageBytes then Err(InvalidArgument)
      else Ok(CsmSigningRequest(version, requestId, did, topicId, operation, lifecycleLabel, rebuilt, this))
    }
  }

  function RequireSignature(signature: Bytes): Result<Unit, DidError> {
    if |signature| != 64 then Err(InvalidArgument) else Ok(Unit)
  }

  datatype CsmSigningRequest = CsmSigningRequest(
    version: nat, requestId: string, did: string, topicId: string, operation: string, lifecycleLabel: string,
    messageBytes: Bytes, state: CsmOperationState)
  {
    function IntoSubmitRequest(c: Codec, signature: Bytes, now: Result<int, DidError>)
      : Result<CsmSubmitRequest, DidError>
    {
      var signed :- RequireSignature(signature);
      var valid :- state.ValidateForSubmit(c, signature, now);
      Ok(CsmSubmitRequest(state, signature))
    }
  }

  datatype CsmSubmitRequest = CsmSubmitRequest(state: CsmOperationState, signature: Bytes)

  // ---------------------------------------------------------------- request ids

  /** The hashed bytes: three fields, each closed by a zero byte, and the message. */
  function RequestPreimage(did: Bytes, topicId: Bytes, operation: Bytes, message: Bytes): Bytes {
    did + [0] + topicId + [0] + operation + [0] + message
  }

  function BuildRequestId(c: Codec, did: string, topicId: string, operation: string, message: Bytes): string {
    c.sha256Hex(RequestPreimage(c.toUtf8(did), c.toUtf8(topicId), c.toUtf8(operation), message))
  }

  lemma ZeroEndsField(a: Bytes, x: Bytes, b: Bytes, y: Bytes)
    requires 0 !in a && 0 !in b && a + [0] + x == b + [0] + y
    ensures a == b && x == y
  {
    var s, t := a + [0] + x, b + [0] + y;
    assert s[|a|] == 0 && t[|b|] == 0;
    assert forall i :: 0 <= i < |a| ==> s[i] == a[i];
    assert forall i :: 0 <= i < |b| ==> t[i] == b[i];
    assert |a| == |b|;
    assert a == s[..|a|] == t[..|b|] == b;
    assert x == s[|a| + 1..] == t[|b| + 1..] == y;
  }

  lemma PreimageFields(did: Bytes, topicId: Bytes, operation: Bytes, message: Bytes)
    ensures RequestPreimage(did, topicId, operation, message)
      == did + [0] + (topicId + [0] + (operation + [0] + message))
  {
    assert RequestPreimage(did, topicId, operation, message)
      == did + ([0] + (topicId + ([0] + (operation + ([0] + message)))));
    assert did + [0] + (topicId + [0] + (operation + [0] + message))
      == did + ([0] + (topicId + ([0] + (operation + ([0] + message)))));
  }

  /** Without zero bytes in the three fields, different requests are hashed from different bytes. */
  lemma RequestPreimageIsInjective(did: Bytes, topicId: Bytes, operation: Bytes, message: Bytes,
                                   did': Bytes, topicId': Bytes, operation': Bytes, message': Bytes)
    requires 0 !in did && 0 !in topicId && 0 !in operation && 0 !in did' && 0 !in topicId' && 0 !in operation'
    requires RequestPreimage(did, topicId, operation, message) == RequestPreimage(did', topicId', operation', message')
    ensures did == did' && topicId == topicId' && operation == operation' && message == message'
  {
    PreimageFields(did, topicId, operation, message);
    PreimageFields(did', topicId', operation', message');
    ZeroEndsField(did, topicId + [0] + (operation + [0] + message), did',
      topicId' + [0] + (operation' + [0] + message'));
    ZeroEndsField(topicId, operation + [0] + message, topicId', operation' + [0] + message');
    ZeroEndsField(operation, message, operation', message');
  }

  /** With zero bytes they need not be: the field boundary can move. */
  lemma ZeroBytesCollide()
    ensures RequestPreimage([0], [], [], []) == RequestPreimage([], [0], [], [])
  {
  }

  // ---------------------------------------------------------------- what acceptance guarantees

  lemma ValidatedMeans(c: Codec, st: CsmOperationState, signature: Bytes, now: Result<int, DidError>)
    requires st.ValidateForSubmit(c, signature, now).Ok?
    ensures st.message.Rebuild().Ok? && st.messageBytes == st.message.Rebuild().value.MessageBytes(c)
    ensures ValidKey(c, st.expectedPublicKeyBytes) && Verifies(c, st.expectedPublicKeyBytes, st.messageBytes, signature)
  {
    assert st.RequireMatchingMessageBytes(c).Ok? && st.VerifySignature(c, signature).Ok?;
  }

  /** All that is asked of a state apart from its signature: the version, the request id over the
      zero-closed fields, and message bytes that are the UTF-8 text of the printed message. */
  ghost predicate Intact(c: Codec, st: CsmOperationState) {
    && st.version == 1 && |st.expectedPublicKeyBytes| == 32
    && st.requestId == c.sha256Hex(
      c.toUtf8(st.did) + [0] + c.toUtf8(st.topicId) + [0] + c.toUtf8(st.operation) + [0] + st.messageBytes)
    && match st.message.Rebuild()
       case Ok(w) => st.messageBytes == c.toUtf8(c.printJson(MessageJson(w.ToHcsMessage(c))))
       case Err(_) => false
  }

  /** The clock can be read, and shows no later second than the expiry. */
  predicate Unexpired(expiresAt: Option<int>, now: Result<int, DidError>) {
    now.Ok? && (expiresAt.Some? ==> now.value <= expiresAt.value)
  }

  /** 64 bytes that verify under a proper expected key over the message bytes. */
  predicate SignedAsExpected(c: Codec, st: CsmOperationState, signature: Bytes) {
    && |signature| == 64 && c.isCurvePoint(st.expectedPublicKeyBytes)
    && c.edVerify(st.expectedPublicKeyBytes, st.messageBytes, signature)
  }

  /** A state with a signature is valid for submission exactly when it is intact, in time and signed as
      expected. Being late, and nothing else, is an invalid argument; a signature that does not verify,
      and nothing else, is an invalid signature. */
  lemma ValidForSubmitIff(c: Codec, st: CsmOperationState, signature: Bytes, now: Result<int, DidError>)
    ensures st.ValidateForSubmit(c, signature, now).Ok?
      <==> Intact(c, st) && Unexpired(st.expiresAtUnix, now) && SignedAsExpected(c, st, signature)
    ensures Intact(c, st) && |signature| == 64 && now.Ok? && !Unexpired(st.expiresAtUnix, now) ==>
      st.ValidateForSubmit(c, signature, now) == Err(InvalidArgument)
    ensures (&& Intact(c, st) && |signature| == 64 && Unexpired(st.expiresAtUnix, now)
             && c.isCurvePoint(st.expectedPublicKeyBytes) && !SignedAsExpected(c, st, signature))
      ==> st.ValidateForSubmit(c, signature, now) == Err(InvalidSignature)
    ensures (|| (!Intact(c, st) && st.message.Rebuild().Ok?) || (Intact(c, st) && |signature| != 64)
             || (&& Intact(c, st) && |signature| == 64 && Unexpired(st.expiresAtUnix, now)
                 && !c.isCurvePoint(st.expectedPublicKeyBytes)))
      ==> st.ValidateForSubmit(c, signature, now) == Err(InvalidArgument)
  {
    IntactIff(c, st);
    VerifiedIff(c, st, signature);
    if st.ValidateForSubmit(c, signature, now).Ok? {
      assert st.ValidateState(c).Ok? && st.RequireMatchingMessageBytes(c).Ok?;
      assert st.RequireNotExpired(now.value).Ok? && st.VerifySignature(c, signature).Ok?;
    }
  }

  lemma IntactIff(c: Codec, st: CsmOperationState)
    ensures Intact(c, st) <==> st.ValidateState(c).Ok? && st.RequireMatchingMessageBytes(c).Ok?
  {
  }

  lemma VerifiedIff(c: Codec, st: CsmOperationState, signature: Bytes)
    ensures |st.expectedPublicKeyBytes| == 32 ==>
      (st.VerifySignature(c, signature).Ok? <==> SignedAsExpected(c, st, signature))
  {
  }

  /** The payload is printed, and a batch item is taken back, under exactly that condition. */
  lemma AcceptedIff(c: Codec, r: CsmSigningRequest, signature: Bytes, now: Result<int, DidError>)
    ensures r.state.ToPayload(c, signature, now).Ok?
      <==> Intact(c, r.state) && Unexpired(r.state.expiresAtUnix, now) && SignedAsExpected(c, r.state, signature)
    ensures r.IntoSubmitRequest(c, signature, now).Ok? <==> r.state.ToPayload(c, signature, now).Ok?
    ensures r.IntoSubmitRequest(c, signature, now).Ok? ==>
      r.IntoSubmitRequest(c, signature, now).value == CsmSubmitRequest(r.state, signature)
  {
    ValidForSubmitIff(c, r.state, signature, now);
  }

  /** What acceptance checks. */
  lemma AcceptedMeans(c: Codec, st: CsmOperationState, signature: Bytes, now: Result<int, DidError>)
    requires st.ToPayload(c, signature, now).Ok?
    ensures st.message.Rebuild().Ok? && st.messageBytes == st.message.Rebuild().value.MessageBytes(c)
    ensures st.ToPayload(c, signature, now).value == st.message.Rebuild().value.ToPayload(c, signature)
    ensures ValidKey(c, st.expectedPublicKeyBytes) && Verifies(c, st.expectedPublicKeyBytes, st.messageBytes, signature)
  {
    ValidatedMeans(c, st, signature, now);
  }

  /** An accepted payload is an envelope whose message serialises to the very bytes that were
      signed, and its signature verifies under the expected key. */
  lemma AcceptedPayloadIsRead(c: Codec, st: CsmOperationState, signature: Bytes, now: Result<int, DidError>)
    requires TextLaws(c) && st.ToPayload(c, signature, now).Ok?
    ensures ParseEnvelope(c, st.ToPayload(c, signature, now).value).Some?
    ensures var e := ParseEnvelope(c, st.ToPayload(c, signature, now).value).value;
      && SignedBytes(c, e.message) == st.messageBytes
      && c.decode64(e.signature) == Some(signature)
      && ValidKey(c, st.expectedPublicKeyBytes) && SignedBy(c, st.expectedPublicKeyBytes, e)
      && e.message.did == st.message.Rebuild().value.DidText()
  {
    AcceptedMeans(c, st, signature, now);
    PayloadRoundTrip(c, st.message.Rebuild().value, signature);
  }

  // ---------------------------------------------------------------- preparing

  function BuildState(c: Codec, did: string, topicId: string, operation: string, message: CsmMessageState,
                      expectedKey: Bytes, expiresAt: Option<int>): Result<CsmOperationState, DidError>
  {
    var state := CsmOperationState(CSM_STATE_VERSION, "", did, topicId, operation, PAUSE_FOR_SIGNATURE_LABEL,
                                   expiresAt, expectedKey, [], message);
    var bytes :- state.RebuildMessageBytes(c);
    Ok(state.(messageBytes := bytes, requestId := BuildRequestId(c, did, topicId, operation, bytes)))
  }

  function PublicKeyFromDid(c: Codec, did: HederaDid): Result<Bytes, DidError> {
    var bytes :- FromBase58(c, did.base58Key);
    To32(bytes)
  }

  /** The lifecycle of all three preparations: a single pause. */
  function PauseBuilder(): Builder<WriterMessage, CsmOperationState, Unit> {
    EmptyBuilder<WriterMessage, CsmOperationState, Unit>().AddPause(PAUSE_FOR_SIGNATURE_LABEL).Extract()
  }

  function PauseRunner(c: Codec): Runner<WriterMessage, CsmOperationState, Unit> {
    Runner(PauseBuilder(), map[], UpdateTrait(c))
  }

  /** Run up to the pause and turn the context handed back there into a signing request. */
  function PauseForSignature(c: Codec, w: WriterMessage, state: CsmOperationState)
    : Result<CsmSigningRequest, DidError>
  {
    var paused :- Lifecycle.Process(PauseRunner(c), w, state, Segment(None, None), Unit).0;
    if paused.status != Paused then Err(InternalError) else paused.context.SigningRequest(c)
  }

  /** The lifecycle stops at its pause with the context untouched. */
  lemma PauseHandsBackContext(c: Codec, w: WriterMessage, state: CsmOperationState)
    ensures PauseForSignature(c, w, state) == state.SigningRequest(c)
  {
    assert PauseBuilder().steps == [Step(PAUSE_FOR_SIGNATURE_LABEL, Pause, None)];
  }

  /** `prepare_create_did_csm_with_options`, given the outcome of creating the topic. */
  function PrepareCreate(c: Codec, network: Network, key: Bytes, controller: Option<string>,
                         topic: Result<string, DidError>, timestamp: string, expiresAt: Option<int>)
    : Result<CsmSigningRequest, DidError>
  {
    var topicId :- topic;
    var did := HederaDid(network, c.encode58(key), topicId);
    var state :- BuildState(c, did.ToString(), topicId, "create",
                            OwnerState(did.ToString(), key, timestamp, controller), key, expiresAt);
    PauseForSignature(c, DidOwner(did, key, timestamp, controller), state)
  }

  /** `prepare_deactivate_did_csm_with_options`. */
  function PrepareDeactivate(c: Codec, did: HederaDid, timestamp: string, expiresAt: Option<int>)
    : Result<CsmSigningRequest, DidError>
  {
    var key :- PublicKeyFromDid(c, did);
    var message := DeactivateState(did.ToString(), timestamp);
    var state :- BuildState(c, did.ToString(), did.topicId, "delete", message, key, expiresAt);
    PauseForSignature(c, DidDeactivate(did, timestamp), state)
  }

  /** The serialisable state of an update message. */
  function UpdateState(w: WriterMessage): CsmMessageState
    requires !w.DidOwner? && !w.DidDeactivate?
  {
    match w
    case AddMethod(d, i, prop, ctrl, mb, time) => AddMethodState(d, i, prop, ctrl, mb, time)
    case RemoveMethod(d, i, time) => RemoveMethodState(d, i, time)
    case AddServiceTo(d, i, st, se, time) => AddServiceState(d, i, st, se, time)
    case RemoveServiceFrom(d, i, time) => RemoveServiceState(d, i, time)
  }

  /** Each field of the state holds the field of that name of the message, so rebuilding gives it back. */
  lemma StateMirrorsMessage(w: WriterMessage)
    requires !w.DidOwner? && !w.DidDeactivate?
    ensures var st := UpdateState(w);
      && st.Rebuild() == Ok(w) && st.did == w.did && st.id == w.id && st.timestamp == w.timestamp
      && (st.AddMethodState? <==> w.AddMethod?) && (st.RemoveMethodState? <==> w.RemoveMethod?)
      && (st.AddServiceState? <==> w.AddServiceTo?) && (st.RemoveServiceState? <==> w.RemoveServiceFrom?)
      && (w.AddMethod? ==> st.property == w.property && st.controller == w.controller
                           && st.publicKeyMultibase == w.publicKeyMultibase)
      && (w.AddServiceTo? ==> st.serviceType == w.serviceType && st.serviceEndpoint == w.serviceEndpoint)
  {
  }

  /** `prepare_update_operation_csm`. */
  function PrepareOperation(c: Codec, did: string, topicId: string, op: UpdateOperation, timestamp: string,
                            key: Bytes, expiresAt: Option<int>): Result<CsmSigningRequest, DidError>
  {
    var w :- FromOperation(did, op, timestamp);
    var state :- BuildState(c, did, topicId, "update", UpdateState(w), key, expiresAt);
    PauseForSignature(c, w, state)
  }

  /** A signing request for message `w` under `key`: its state validates, carries exactly the
      bytes the direct signer path would sign, and stands for that very message. */
  ghost predicate Prepares(c: Codec, r: CsmSigningRequest, w: WriterMessage, topicId: string, key: Bytes,
                           operation: string, expiresAt: Option<int>)
  {
    && r.state.ValidateState(c).Ok? && r.state.RequireMatchingMessageBytes(c).Ok?
    && r.state.message.Rebuild() == Ok(w)
    && r.messageBytes == w.MessageBytes(c) && r.state.messageBytes == w.MessageBytes(c)
    && r == CsmSigningRequest(1, r.state.requestId, r.state.did, r.state.topicId, r.state.operation,
                              "pause-for-signature", r.state.messageBytes, r.state)
    && r.state.lifecycleLabel == "pause-for-signature"
    && r.state.topicId == topicId && r.state.expectedPublicKeyBytes == key
    && r.state.operation == operation && r.state.expiresAtUnix == expiresAt
  }

  lemma BuiltStatePrepares(c: Codec, did: string, topicId: string, operation: string, message: CsmMessageState,
                           key: Bytes, expiresAt: Option<int>, w: WriterMessage)
    requires message.Rebuild() == Ok(w)
    ensures BuildState(c, did, topicId, operation, message, key, expiresAt).Ok?
    ensures BuildState(c, did, topicId, operation, message, key, expiresAt).value.did == did
    ensures var r := BuildState(c, did, topicId, operation, message, key, expiresAt).value.SigningRequest(c);
      if |key| == 32 then r.Ok? && Prepares(c, r.value, w, topicId, key, operation, expiresAt) else r.Err?
  {
    var st := BuildState(c, did, topicId, operation, message, key, expiresAt).value;
    assert st.requestId == BuildRequestId(c, did, topicId, operation, w.MessageBytes(c));
    StateIsRequested(c, st, w);
  }

  /** The state is paused for and handed back as a request. */
  lemma PreparedFrom(c: Codec, did: string, topicId: string, operation: string, message: CsmMessageState, key: Bytes,
                     expiresAt: Option<int>, w: WriterMessage)
    requires message.Rebuild() == Ok(w)
    ensures BuildState(c, did, topicId, operation, message, key, expiresAt).Ok?
    ensures var st := BuildState(c, did, topicId, operation, message, key, expiresAt).value;
      var r := PauseForSignature(c, w, st);
      && (r.Ok? <==> |key| == 32)
      && (r.Ok? ==> Prepares(c, r.value, w, topicId, key, operation, expiresAt) && r.value.state.did == did)
  {
    BuiltStatePrepares(c, did, topicId, operation, message, key, expiresAt, w);
    PauseHandsBackContext(c, w, BuildState(c, did, topicId, operation, message, key, expiresAt).value);
  }

  lemma StateIsRequested(c: Codec, st: CsmOperationState, w: WriterMessage)
    requires st.lifecycleLabel == PAUSE_FOR_SIGNATURE_LABEL
    requires st.message.Rebuild() == Ok(w) && st.messageBytes == w.MessageBytes(c) && st.version == CSM_STATE_VERSION
    requires st.requestId == BuildRequestId(c, st.did, st.topicId, st.operation, st.messageBytes)
    ensures var r := st.SigningRequest(c);
      if |st.expectedPublicKeyBytes| == 32
      then r.Ok? && Prepares(c, r.value, w, st.topicId, st.expectedPublicKeyBytes, st.operation, st.expiresAtUnix)
      else r.Err?
  {
  }

  /** Preparing an update succeeds exactly for writable operations and 32-byte keys. */
  lemma PreparedOperation(c: Codec, did: string, topicId: string, op: UpdateOperation, timestamp: string, key: Bytes,
                          expiresAt: Option<int>)
    ensures PrepareOperation(c, did, topicId, op, timestamp, key, expiresAt).Ok?
      <==> FromOperation(did, op, timestamp).Ok? && |key| == 32
    ensures PrepareOperation(c, did, topicId, op, timestamp, key, expiresAt).Ok? ==>
      && Prepares(c, PrepareOperation(c, did, topicId, op, timestamp, key, expiresAt).value,
                  FromOperation(did, op, timestamp).value, topicId, key, "update", expiresAt)
      && PrepareOperation(c, did, topicId, op, timestamp, key, expiresAt).value.state.did == did
  {
    if FromOperation(did, op, timestamp).Ok? {
      var w := FromOperation(did, op, timestamp).value;
      StateMirrorsMessage(w);
      PreparedFrom(c, did, topicId, "update", UpdateState(w), key, expiresAt, w);
    }
  }

  lemma DeactivateStateRebuilds(text: string, did: HederaDid, timestamp: string)
    requires ParseDid(text) == Ok(did)
    ensures DeactivateState(text, timestamp).Rebuild() == Ok(DidDeactivate(did, timestamp))
  {
    var parsed := ParseDid(text);
    assert !parsed.IsFailure() && parsed.Extract() == did;
  }

  /** Preparing a deactivation succeeds exactly when the DID holds a 32-byte key and survives printing. */
  lemma PreparedDeactivate(c: Codec, did: HederaDid, timestamp: string, expiresAt: Option<int>)
    ensures PrepareDeactivate(c, did, timestamp, expiresAt).Ok? <==> PublicKeyFromDid(c, did).Ok? && Printable(did)
    ensures PrepareDeactivate(c, did, timestamp, expiresAt).Ok? ==>
      && Prepares(c, PrepareDeactivate(c, did, timestamp, expiresAt).value, DidDeactivate(did, timestamp),
                  did.topicId, PublicKeyFromDid(c, did).value, "delete", expiresAt)
      && PrepareDeactivate(c, did, timestamp, expiresAt).value.state.did == did.ToString()
  {
    PrintedTextAcceptedIff(did);
    ParseOfPrint(did);
    if PublicKeyFromDid(c, did).Ok? && Printable(did) {
      var w, state := DidDeactivate(did, timestamp), DeactivateState(did.ToString(), timestamp);
      PreparedFrom(c, did.ToString(), did.topicId, "delete", state, PublicKeyFromDid(c, did).value, expiresAt, w);
    }
  }

  lemma RebuildFails(text: string, timestamp: string)
    requires ParseDid(text).Err?
    ensures DeactivateState(text, timestamp).Rebuild() == Err(InvalidDid)
  {
    var parsed := ParseDid(text);
    DidErrors(text);
    assert parsed.IsFailure() && parsed.PropagateFailure<WriterMessage>() == Err(InvalidDid);
  }

  lemma KeyErrors(c: Codec, did: HederaDid)
    ensures PublicKeyFromDid(c, did).Err? ==> PublicKeyFromDid(c, did) == Err(InvalidArgument)
  {
  }

  /** A deactivation that cannot be prepared fails for the DID's key first, and then for its text. */
  lemma UnpreparedDeactivate(c: Codec, did: HederaDid, timestamp: string, expiresAt: Option<int>)
    ensures PublicKeyFromDid(c, did).Err? ==> PrepareDeactivate(c, did, timestamp, expiresAt) == Err(InvalidArgument)
    ensures PublicKeyFromDid(c, did).Ok? && !Printable(did) ==>
      PrepareDeactivate(c, did, timestamp, expiresAt) == Err(InvalidDid)
  {
    KeyErrors(c, did);
    PrintedTextAcceptedIff(did);
    if !Printable(did) { RebuildFails(did.ToString(), timestamp); }
  }

  /** Preparing a creation succeeds exactly when the topic exists, the key has 32 bytes and the new DID
      survives printing. */
  lemma PreparedCreate(c: Codec, network: Network, key: Bytes, controller: Option<string>,
                       topic: Result<string, DidError>, timestamp: string, expiresAt: Option<int>)
    ensures PrepareCreate(c, network, key, controller, topic, timestamp, expiresAt).Ok?
      <==> topic.Ok? && |key| == 32 && Printable(HederaDid(network, c.encode58(key), topic.value))
    ensures PrepareCreate(c, network, key, controller, topic, timestamp, expiresAt).Ok? ==>
      && Prepares(c, PrepareCreate(c, network, key, controller, topic, timestamp, expiresAt).value,
                  DidOwner(HederaDid(network, c.encode58(key), topic.value), key, timestamp, controller),
                  topic.value, key, "create", expiresAt)
      && PrepareCreate(c, network, key, controller, topic, timestamp, expiresAt).value.state.did
           == HederaDid(network, c.encode58(key), topic.value).ToString()
  {
    if topic.Ok? {
      var did := HederaDid(network, c.encode58(key), topic.value);
      PrintedTextAcceptedIff(did);
      ParseOfPrint(did);
      if Printable(did) {
        var w := DidOwner(did, key, timestamp, controller);
        var state := OwnerState(did.ToString(), key, timestamp, controller);
        PreparedFrom(c, did.ToString(), topic.value, "create", state, key, expiresAt, w);
      }
    }
  }

  /** A prepared request, signed elsewhere by the key's owner and returned in time, is accepted
      and prints the same payload as the direct signer path. */
  lemma SignedElsewhere(c: Codec, r: CsmSigningRequest, w: WriterMessage, topicId: string, privateKey: Bytes,
                        operation: string, expiresAt: Option<int>, now: int)
    requires SignsFor(c, privateKey) && Prepares(c, r, w, topicId, c.publicKey(privateKey), operation, expiresAt)
    requires expiresAt.None? || now <= expiresAt.value
    ensures var signature := c.sign(privateKey, r.messageBytes);
      && r.IntoSubmitRequest(c, signature, Ok(now)) == Ok(CsmSubmitRequest(r.state, signature))
      && r.state.ToPayload(c, signature, Ok(now)) == Ok(SignedPayload(c, w, privateKey))
  {
  }
}
