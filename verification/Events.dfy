/** `messages/src/events.rs`: the event payloads, and serde's untagged choice among them. */
module Events {
  import opened Wrappers
  import opened Codec
  import opened Keys

  datatype OwnerData = OwnerData(
    id: string, keyType: string, controller: string,
    publicKeyMultibase: Option<string>, publicKeyBase58: Option<string>)

  datatype AddMethodData = AddMethodData(
    id: string, keyType: string, controller: string, publicKeyMultibase: string, relationshipType: string)

  datatype AddServiceData = AddServiceData(id: string, serviceType: string, serviceEndpoint: string)

  datatype DidEvent =
    | Owner(owner: OwnerData)
    | AddVerificationMethod(method_: AddMethodData)
    | RemoveVerificationMethod(methodId: string)
    | AddService(service: AddServiceData)
    | RemoveService(serviceId: string)
    | Deactivate(did: string)

  /** A required string field. */
  function StringField(j: Json, name: string): Option<string> {
    if j.JObject? && name in j.fields && j.fields[name].JString? then Some(j.fields[name].text) else None
  }

  /** An optional string field: absent and `null` both read as nothing; another type is an error. */
  function OptionalStringField(j: Json, name: string): Option<Option<string>>
    requires j.JObject?
  {
    if name !in j.fields || j.fields[name].JNull? then Some(None)
    else if j.fields[name].JString? then Some(Some(j.fields[name].text))
    else None
  }

  /** The object behind a wrapper key such as `DIDOwner`. */
  function Wrapped(j: Json, name: string): Option<Json> {
    if j.JObject? && name in j.fields && j.fields[name].JObject? then Some(j.fields[name]) else None
  }

  function DecodeOwner(j: Json): Option<DidEvent> {
    match Wrapped(j, "DIDOwner")
    case None => None
    case Some(d) =>
      match (StringField(d, "id"), StringField(d, "type"), StringField(d, "controller"),
             OptionalStringField(d, "publicKeyMultibase"), OptionalStringField(d, "publicKeyBase58"))
      case (Some(id), Some(keyType), Some(controller), Some(mb), Some(b58)) =>
        Some(Owner(OwnerData(id, keyType, controller, mb, b58)))
      case _ => None
  }

  function DecodeAddMethod(j: Json): Option<DidEvent> {
    match Wrapped(j, "VerificationMethod")
    case None => None
    case Some(d) =>
      match (StringField(d, "id"), StringField(d, "type"), StringField(d, "controller"),
             StringField(d, "publicKeyMultibase"), StringField(d, "relationshipType"))
      case (Some(id), Some(keyType), Some(controller), Some(mb), Some(relationship)) =>
        Some(AddVerificationMethod(AddMethodData(id, keyType, controller, mb, relationship)))
      case _ => None
  }

  /** The three variants whose payload is a lone id. */
  function DecodeId(j: Json, name: string): Option<string> {
    match Wrapped(j, name)
    case None => None
    case Some(d) => StringField(d, "id")
  }

  function DecodeAddService(j: Json): Option<DidEvent> {
    match Wrapped(j, "Service")
    case None => None
    case Some(d) =>
      match (StringField(d, "id"), StringField(d, "type"), StringField(d, "serviceEndpoint"))
      case (Some(id), Some(serviceType), Some(endpoint)) => Some(AddService(AddServiceData(id, serviceType, endpoint)))
      case _ => None
  }

  /** The first variant that accepts the object wins; unknown fields are ignored by all of them. */
  function DecodeEvent(j: Json): Option<DidEvent> {
    if DecodeOwner(j).Some? then DecodeOwner(j)
    else if DecodeAddMethod(j).Some? then DecodeAddMethod(j)
    else if DecodeId(j, "VerificationMethod").Some? then
      Some(RemoveVerificationMethod(DecodeId(j, "VerificationMethod").value))
    else if DecodeAddService(j).Some? then DecodeAddService(j)
    else if DecodeId(j, "Service").Some? then Some(RemoveService(DecodeId(j, "Service").value))
    else if DecodeId(j, "DIDOwner").Some? then Some(Deactivate(DecodeId(j, "DIDOwner").value))
    else None
  }

  // ---------------------------------------------------------------- what is on the wire

  /** The object has the text under the name. */
  predicate Has(j: Json, name: string, text: string) {
    j.JObject? && name in j.fields && j.fields[name] == JString(text)
  }

  /** The object has the text under the name, or, for none, has nothing or `null` there. */
  predicate MayHave(j: Json, name: string, text: Option<string>) {
    j.JObject? && if text.Some? then Has(j, name, text.value) else name in j.fields ==> j.fields[name] == JNull
  }

  /** Under its one wrapper key, the object has all that the variant asks for. */
  predicate Reads(j: Json, e: DidEvent) {
    var wrapper := match e
      case Owner(_) => "DIDOwner"
      case AddVerificationMethod(_) => "VerificationMethod"
      case RemoveVerificationMethod(_) => "VerificationMethod"
      case AddService(_) => "Service"
      case RemoveService(_) => "Service"
      case Deactivate(_) => "DIDOwner";
    && j.JObject? && wrapper in j.fields && j.fields[wrapper].JObject?
    && var d := j.fields[wrapper];
    match e
    case Owner(o) =>
      && Has(d, "id", o.id) && Has(d, "type", o.keyType) && Has(d, "controller", o.controller)
      && MayHave(d, "publicKeyMultibase", o.publicKeyMultibase) && MayHave(d, "publicKeyBase58", o.publicKeyBase58)
    case AddVerificationMethod(m) =>
      && Has(d, "id", m.id) && Has(d, "type", m.keyType) && Has(d, "controller", m.controller)
      && Has(d, "publicKeyMultibase", m.publicKeyMultibase) && Has(d, "relationshipType", m.relationshipType)
    case RemoveVerificationMethod(id) => Has(d, "id", id)
    case AddService(s) =>
      Has(d, "id", s.id) && Has(d, "type", s.serviceType) && Has(d, "serviceEndpoint", s.serviceEndpoint)
    case RemoveService(id) => Has(d, "id", id)
    case Deactivate(id) => Has(d, "id", id)
  }

  /** The order in which the variants are tried. */
  function Rank(e: DidEvent): nat {
    match e
    case Owner(_) => 0
    case AddVerificationMethod(_) => 1
    case RemoveVerificationMethod(_) => 2
    case AddService(_) => 3
    case RemoveService(_) => 4
    case Deactivate(_) => 5
  }

  lemma VariantsRead(j: Json, e: DidEvent)
    ensures e.Owner? ==> (Reads(j, e) <==> DecodeOwner(j) == Some(e))
    ensures e.AddVerificationMethod? ==> (Reads(j, e) <==> DecodeAddMethod(j) == Some(e))
    ensures e.RemoveVerificationMethod? ==> (Reads(j, e) <==> DecodeId(j, "VerificationMethod") == Some(e.methodId))
    ensures e.AddService? ==> (Reads(j, e) <==> DecodeAddService(j) == Some(e))
    ensures e.RemoveService? ==> (Reads(j, e) <==> DecodeId(j, "Service") == Some(e.serviceId))
    ensures e.Deactivate? ==> (Reads(j, e) <==> DecodeId(j, "DIDOwner") == Some(e.did))
  {
  }

  /** An object is decoded as the first variant that reads it. */
  lemma DecodedIff(j: Json, e: DidEvent)
    ensures DecodeEvent(j) == Some(e) <==> Reads(j, e) && forall f: DidEvent :: Rank(f) < Rank(e) ==> !Reads(j, f)
  {
    VariantsRead(j, e);
    forall f: DidEvent ensures Reads(j, f) ==> DecodeEvent(j).Some? && Rank(DecodeEvent(j).value) <= Rank(f) {
      VariantsRead(j, f);
    }
    if DecodeEvent(j).Some? { VariantsRead(j, DecodeEvent(j).value); }
  }

  function OptionalEntry(name: string, value: Option<string>): map<string, Json> {
    if value.Some? then map[name := JString(value.value)] else map[]
  }

  function EncodeOwner(o: OwnerData): Json {
    JObject(map["DIDOwner" := JObject(
      map["id" := JString(o.id), "type" := JString(o.keyType), "controller" := JString(o.controller)]
      + OptionalEntry("publicKeyMultibase", o.publicKeyMultibase)
      + OptionalEntry("publicKeyBase58", o.publicKeyBase58))])
  }

  function EncodeEvent(e: DidEvent): Json {
    match e
    case Owner(o) => EncodeOwner(o)
    case AddVerificationMethod(m) => JObject(map["VerificationMethod" := JObject(
      map["id" := JString(m.id), "type" := JString(m.keyType), "controller" := JString(m.controller),
          "publicKeyMultibase" := JString(m.publicKeyMultibase), "relationshipType" := JString(m.relationshipType)])])
    case RemoveVerificationMethod(id) => JObject(map["VerificationMethod" := JObject(map["id" := JString(id)])])
    case AddService(s) => JObject(map["Service" := JObject(
      map["id" := JString(s.id), "type" := JString(s.serviceType), "serviceEndpoint" := JString(s.serviceEndpoint)])])
    case RemoveService(id) => JObject(map["Service" := JObject(map["id" := JString(id)])])
    case Deactivate(id) => JObject(map["DIDOwner" := JObject(map["id" := JString(id)])])
  }

  /** The untagged decoder returns the very variant that was encoded, whichever it was. */
  lemma EventRoundTrip(e: DidEvent)
    ensures DecodeEvent(EncodeEvent(e)) == Some(e)
  {
    var j := EncodeEvent(e);
    match e {
      case Owner(o) => OwnerRoundTrip(o);
      case Deactivate(id) => assert DecodeOwner(j).None?;
      case _ =>
    }
  }

  lemma OwnerRoundTrip(o: OwnerData)
    ensures DecodeOwner(EncodeOwner(o)) == Some(Owner(o))
  {
    var d := EncodeOwner(o).fields["DIDOwner"];
    assert OptionalStringField(d, "publicKeyMultibase") == Some(o.publicKeyMultibase);
    assert OptionalStringField(d, "publicKeyBase58") == Some(o.publicKeyBase58);
  }

  function To32(bytes: Bytes): Result<Bytes, DidError> {
    if |bytes| == 32 then Ok(bytes) else Err(InvalidArgument)
  }

  /** The owner key an event claims; base58 wins when both spellings are present. */
  function EffectiveKeyBytes(c: Codec, o: OwnerData): Result<Bytes, DidError> {
    match (o.publicKeyMultibase, o.publicKeyBase58)
    case (_, Some(b58)) =>
      var bytes :- FromBase58(c, b58);
      To32(bytes)
    case (Some(mb), None) =>
      var bytes :- FromMultibase(c, mb);
      To32(bytes)
    case (None, None) => Err(InvalidMultibase)
  }

  /** The spelling of the owner key that is written into the document. */
  function EffectiveKeyMultibase(c: Codec, o: OwnerData): Result<string, DidError> {
    if o.publicKeyMultibase.Some? then Ok(o.publicKeyMultibase.value)
    else
      var bytes :- EffectiveKeyBytes(c, o);
      Ok(ToMultibase(c, bytes))
  }

  /** Both spellings are present and the multibase one does not read as the base58 one. */
  predicate Disagrees(c: Codec, o: OwnerData) {
    && o.publicKeyMultibase.Some? && o.publicKeyBase58.Some?
    && FromMultibase(c, o.publicKeyMultibase.value) != FromBase58(c, o.publicKeyBase58.value)
  }

  /** Once the key bytes are known the document spelling is too, and it reads back as those
      bytes exactly when the event does not carry two disagreeing spellings. */
  lemma DocumentSpellingOfClaimedKey(c: Codec, o: OwnerData)
    requires Base58Law(c) && EffectiveKeyBytes(c, o).Ok?
    ensures EffectiveKeyMultibase(c, o).Ok?
    ensures FromMultibase(c, EffectiveKeyMultibase(c, o).value) == EffectiveKeyBytes(c, o) <==> !Disagrees(c, o)
  {
    if o.publicKeyMultibase.None? { MultibaseRoundTrip(c, EffectiveKeyBytes(c, o).value); }
  }
}
