/** The `messages` crate: signed envelopes and the six kinds of message that writers put in them. */
module Messages {
  import opened Wrappers
  import opened Codec
  import opened Did
  import opened Events
  import opened Keys

  const KEY_TYPE := "Ed25519VerificationKey2020"

  /** What is signed. */
  datatype HcsMessage = HcsMessage(timestamp: string, operation: string, did: string, event: Option<string>)

  datatype HcsEnvelope = HcsEnvelope(message: HcsMessage, signature: string)

  function MessageJson(m: HcsMessage): Json {
    JObject(map["timestamp" := JString(m.timestamp), "operation" := JString(m.operation), "did" := JString(m.did),
                "event" := if m.event.Some? then JString(m.event.value) else JNull])
  }

  function EnvelopeJson(e: HcsEnvelope): Json {
    JObject(map["message" := MessageJson(e.message), "signature" := JString(e.signature)])
  }

  function DecodeMessage(j: Json): Option<HcsMessage> {
    if !j.JObject? then None
    else
      match (StringField(j, "timestamp"), StringField(j, "operation"), StringField(j, "did"),
        OptionalStringField(j, "event"))
      case (Some(timestamp), Some(operation), Some(did), Some(event)) =>
        Some(HcsMessage(timestamp, operation, did, event))
      case _ => None
  }

  function DecodeEnvelope(j: Json): Option<HcsEnvelope> {
    match (Wrapped(j, "message"), StringField(j, "signature"))
    case (Some(message), Some(signature)) =>
      (match DecodeMessage(message)
       case Some(m) => Some(HcsEnvelope(m, signature))
       case None => None)
    case _ => None
  }

  /** What an envelope is on the wire: a signature text, and a message of three texts and perhaps an event. */
  lemma EnvelopeIff(j: Json, e: HcsEnvelope)
    ensures DecodeEnvelope(j) == Some(e) <==>
      && Has(j, "signature", e.signature) && "message" in j.fields
      && var m := j.fields["message"];
      && Has(m, "timestamp", e.message.timestamp) && Has(m, "operation", e.message.operation)
      && Has(m, "did", e.message.did) && MayHave(m, "event", e.message.event)
  {
  }

  /** `serde_json::from_str::<HcsEnvelope>`. */
  function ParseEnvelope(c: Codec, raw: string): Option<HcsEnvelope> {
    match c.parseJson(raw)
    case Some(j) => DecodeEnvelope(j)
    case None => None
  }

  function PrintEnvelope(c: Codec, e: HcsEnvelope): string {
    c.printJson(EnvelopeJson(e))
  }

  /** The bytes that are signed: the message serialised on its own. */
  function SignedBytes(c: Codec, m: HcsMessage): Bytes {
    c.toUtf8(c.printJson(MessageJson(m)))
  }

  /** Different messages are never signed as the same bytes. */
  lemma SignedBytesAreInjective(c: Codec, a: HcsMessage, b: HcsMessage)
    requires TextLaws(c) && SignedBytes(c, a) == SignedBytes(c, b)
    ensures a == b
  {
    assert c.fromUtf8(SignedBytes(c, a)) == c.fromUtf8(SignedBytes(c, b));
    assert MessageJson(a) == MessageJson(b);
    MessageRoundTrip(a);
    MessageRoundTrip(b);
  }

  lemma MessageRoundTrip(m: HcsMessage)
    ensures DecodeMessage(MessageJson(m)) == Some(m)
  {
    assert OptionalStringField(MessageJson(m), "event") == Some(m.event);
  }

  /** Decoding of the base64 event text, in the four steps of the resolver. */
  function ParseEvent(c: Codec, encoded: string): Option<DidEvent> {
    match c.decode64(encoded)
    case None => None
    case Some(bytes) =>
      match c.fromUtf8(bytes)
      case None => None
      case Some(text) =>
        match c.parseJson(text)
        case None => None
        case Some(j) => DecodeEvent(j)
  }

  function PrintEvent(c: Codec, e: DidEvent): string {
    c.encode64(c.toUtf8(c.printJson(EncodeEvent(e))))
  }

  lemma EnvelopeRoundTrip(c: Codec, e: HcsEnvelope)
    requires TextLaws(c)
    ensures ParseEnvelope(c, PrintEnvelope(c, e)) == Some(e)
  {
    MessageRoundTrip(e.message);
  }

  lemma PrintedEventRoundTrip(c: Codec, e: DidEvent)
    requires TextLaws(c)
    ensures ParseEvent(c, PrintEvent(c, e)) == Some(e)
  {
    EventRoundTrip(e);
  }

  // ---------------------------------------------------------------- writers

  /** The message structs of the crate, timestamps already taken. */
  datatype WriterMessage =
    | DidOwner(ownerDid: HederaDid, publicKeyBytes: Bytes, timestamp: string, ownerController: Option<string>)
    | AddMethod(did: string, id: string, property: string, controller: string, publicKeyMultibase: string,
      timestamp: string)
    | RemoveMethod(did: string, id: string, timestamp: string)
    | AddServiceTo(did: string, id: string, serviceType: string, serviceEndpoint: string, timestamp: string)
    | RemoveServiceFrom(did: string, id: string, timestamp: string)
    | DidDeactivate(ownerDid: HederaDid, timestamp: string)
  {
    function DidText(): string {
      if DidOwner? || DidDeactivate? then ownerDid.ToString() else did
    }

    function Operation(): string {
      if DidOwner? then "create" else if DidDeactivate? then "delete" else "update"
    }

    /** The event carried by the message; a deactivation carries none. */
    function Event(c: Codec): Option<DidEvent> {
      match this
      case DidOwner(d, key, _, ctrl) =>
        Some(Owner(OwnerData(d.ToString(), KEY_TYPE, ctrl.UnwrapOr(d.ToString()), Some(ToMultibase(c, key)), None)))
      case AddMethod(_, i, prop, ctrl, mb, _) => Some(AddVerificationMethod(AddMethodData(i, KEY_TYPE, ctrl, mb, prop)))
      case RemoveMethod(_, i, _) => Some(RemoveVerificationMethod(i))
      case AddServiceTo(_, i, st, se, _) => Some(AddService(AddServiceData(i, st, se)))
      case RemoveServiceFrom(_, i, _) => Some(RemoveService(i))
      case DidDeactivate(_, _) => None
    }

    function ToHcsMessage(c: Codec): HcsMessage {
      HcsMessage(timestamp, Operation(), DidText(),
        match Event(c)
        case Some(e) => Some(PrintEvent(c, e))
        case None => None)
    }

    function MessageBytes(c: Codec): Bytes {
      SignedBytes(c, ToHcsMessage(c))
    }

    function ToPayload(c: Codec, signature: Bytes): string {
      PrintEnvelope(c, HcsEnvelope(ToHcsMessage(c), c.encode64(signature)))
    }
  }

  /** What a reader recovers from a payload: the message that was signed, byte for byte,
      the signature, and the event. */
  lemma PayloadRoundTrip(c: Codec, w: WriterMessage, signature: Bytes)
    requires TextLaws(c)
    ensures ParseEnvelope(c, w.ToPayload(c, signature)).Some?
    ensures var e := ParseEnvelope(c, w.ToPayload(c, signature)).value;
      && SignedBytes(c, e.message) == w.MessageBytes(c)
      && c.decode64(e.signature) == Some(signature)
      && e.message.did == w.DidText() && e.message.operation == w.Operation()
      && e.message.timestamp == w.timestamp
      && (w.Event(c).Some? <==> e.message.event.Some?)
      && (w.Event(c).Some? ==> ParseEvent(c, e.message.event.value) == w.Event(c))
  {
    EnvelopeRoundTrip(c, HcsEnvelope(w.ToHcsMessage(c), c.encode64(signature)));
    if w.Event(c).Some? { PrintedEventRoundTrip(c, w.Event(c).value); }
  }
}
