/** Owner events as other writers may send them (`messages/src/events.rs`), in signed messages that a
    resolver receives: with one spelling of the key, with the other, or with two that disagree. */
module Disagreement {
  import opened Wrappers
  import opened Codec
  import opened Did
  import opened Events
  import opened Keys
  import opened Messages
  import opened DidLog
  import opened LogMeaning
  import opened Operations
  import opened Registrar

  /** A signed envelope with any owner event at all; the SDK's own writers never fill in both spellings. */
  function OwnerPayload(c: Codec, did: string, o: OwnerData, time: string, privateKey: Bytes): string {
    var message := HcsMessage(time, "update", did, Some(PrintEvent(c, Owner(o))));
    PrintEnvelope(c, HcsEnvelope(message, c.encode64(c.sign(privateKey, SignedBytes(c, message)))))
  }

  lemma OwnerPayloadIsRead(x: Subject, o: OwnerData, time: string, privateKey: Bytes)
    requires TextLaws(x.c) && SignsFor(x.c, privateKey)
    ensures var q := RequestOf(x, OwnerPayload(x.c, x.did, o, time, privateKey));
      q.Change? && q.event == Owner(o) && q.envelope.message.timestamp == time
      && SignedBy(x.c, x.c.publicKey(privateKey), q.envelope)
  {
    var message := HcsMessage(time, "update", x.did, Some(PrintEvent(x.c, Owner(o))));
    var e := HcsEnvelope(message, x.c.encode64(x.c.sign(privateKey, SignedBytes(x.c, message))));
    EnvelopeRoundTrip(x.c, e);
    PrintedEventRoundTrip(x.c, Owner(o));
    RequestOfChange(x, OwnerPayload(x.c, x.did, o, time, privateKey), e, Owner(o));
    OwnSignature(x.c, privateKey, e, SignedBytes(x.c, message));
  }

  /** An owner event with only the base58 spelling of its key. */
  function Base58Only(c: Codec, did: string, next: Bytes, controller: string): OwnerData {
    OwnerData(did, KEY_TYPE, controller, None, Some(c.encode58(next)))
  }

  /** An owner event with only the multibase spelling, with or without the multicodec prefix. */
  function MultibaseOnly(c: Codec, did: string, next: Bytes, prefixed: bool, controller: string): OwnerData {
    OwnerData(did, KEY_TYPE, controller,
      Some("z" + c.encode58(if prefixed then ED25519_MULTICODEC_PREFIX + next else next)), None)
  }

  lemma OneSpelling(x: Subject, next: Bytes, prefixed: bool, controller: string)
    requires Base58Law(x.c) && ValidKey(x.c, next)
    ensures var o := Base58Only(x.c, x.did, next, controller);
      EffectiveKeyBytes(x.c, o) == Ok(next) && SpellingOf(x, o) == "z" + x.c.encode58(ED25519_MULTICODEC_PREFIX + next)
    ensures var o := MultibaseOnly(x.c, x.did, next, prefixed, controller);
      (prefixed || next[..2] != ED25519_MULTICODEC_PREFIX) ==>
        EffectiveKeyBytes(x.c, o) == Ok(next) && Some(SpellingOf(x, o)) == o.publicKeyMultibase
  {
    var spelled := if prefixed then ED25519_MULTICODEC_PREFIX + next else next;
    assert ("z" + x.c.encode58(spelled))[1..] == x.c.encode58(spelled);
    assert (ED25519_MULTICODEC_PREFIX + next)[2..] == next;
    assert (ED25519_MULTICODEC_PREFIX + next)[..2] == ED25519_MULTICODEC_PREFIX;
  }

  /** Either spelling alone, signed by the key in force, hands any log on record to the key it spells. The
      document shows the multibase spelling sent, and otherwise the one with the prefix. */
  lemma OneSpellingIsAccepted(c: Codec, did: HederaDid, log: seq<string>, a: Record, privateKey: Bytes,
                              next: Bytes, prefixed: bool, controller: string, time: string)
    requires TextLaws(c) && Base58Law(c) && SignsFor(c, privateKey) && a.key == c.publicKey(privateKey)
    requires OnRecord(c, did, log, a) && ValidKey(c, next)
    ensures var o := Base58Only(c, did.ToString(), next, controller);
      var raw := OwnerPayload(c, did.ToString(), o, time, privateKey);
      OnRecord(c, did, log + [raw],
               Reowned(did, a, next, "z" + c.encode58(ED25519_MULTICODEC_PREFIX + next), controller, time))
    ensures (prefixed || next[..2] != ED25519_MULTICODEC_PREFIX) ==>
      var o := MultibaseOnly(c, did.ToString(), next, prefixed, controller);
      OnRecord(c, did, log + [OwnerPayload(c, did.ToString(), o, time, privateKey)],
               Reowned(did, a, next, o.publicKeyMultibase.value, controller, time))
  {
    var x := Subject(c, did.ToString(), AnchorOf(c, did).value);
    OneSpelling(x, next, prefixed, controller);
    OwnerIsAccepted(x, did, log, a, Base58Only(c, x.did, next, controller), time, privateKey);
    if prefixed || next[..2] != ED25519_MULTICODEC_PREFIX {
      OwnerIsAccepted(x, did, log, a, MultibaseOnly(c, x.did, next, prefixed, controller), time, privateKey);
    }
  }

  lemma OwnerIsAccepted(x: Subject, did: HederaDid, log: seq<string>, a: Record, o: OwnerData, time: string,
                        privateKey: Bytes)
    requires TextLaws(x.c) && SignsFor(x.c, privateKey) && a.key == x.c.publicKey(privateKey)
    requires x.did == did.ToString() && ValidKey(x.c, x.anchor) && Follows(x, Fold(x, log), a)
    requires o.id == x.did && EffectiveKeyBytes(x.c, o).Ok? && ValidKey(x.c, EffectiveKeyBytes(x.c, o).value)
    ensures Follows(x, Fold(x, log + [OwnerPayload(x.c, x.did, o, time, privateKey)]),
                    Reowned(did, a, EffectiveKeyBytes(x.c, o).value, SpellingOf(x, o), o.controller, time))
  {
    var raw := OwnerPayload(x.c, x.did, o, time, privateKey);
    OwnerPayloadIsRead(x, o, time, privateKey);
    FoldSnoc(x, log, raw);
    OwnerEventIsRead(x, did, Fold(x, log), a, raw, o);
  }

  /** An owner event naming `next` in base58 and `other` in multibase. */
  function TwoKeys(c: Codec, did: string, next: Bytes, other: Bytes, controller: string): OwnerData {
    OwnerData(did, KEY_TYPE, controller, Some(ToMultibase(c, other)), Some(c.encode58(next)))
  }

  lemma TwoKeysDisagree(x: Subject, next: Bytes, other: Bytes, controller: string)
    requires Base58Law(x.c) && ValidKey(x.c, next) && other != [] && other != next
    ensures var o := TwoKeys(x.c, x.did, next, other, controller);
      EffectiveKeyBytes(x.c, o) == Ok(next) && SpellingOf(x, o) == ToMultibase(x.c, other) && Disagrees(x.c, o)
  {
    MultibaseRoundTrip(x.c, other);
  }

  /** Signed by the key in force, such an event is accepted on any log on record: control moves to
      the base58 key, while the root method readers see is the other one. */
  lemma DisagreementIsAccepted(c: Codec, did: HederaDid, log: seq<string>, a: Record, privateKey: Bytes,
                               next: Bytes, other: Bytes, controller: string, time: string)
    requires TextLaws(c) && Base58Law(c) && SignsFor(c, privateKey) && a.key == c.publicKey(privateKey)
    requires OnRecord(c, did, log, a)
    requires ValidKey(c, next) && other != [] && other != next
    ensures var o := TwoKeys(c, did.ToString(), next, other, controller);
      var raw := OwnerPayload(c, did.ToString(), o, time, privateKey);
      var a' := Reowned(did, a, next, ToMultibase(c, other), controller, time);
      && OnRecord(c, did, log + [raw], a') && a'.key == next
      && IsDocument(ResolveView(c, did, log + [raw]), did, a')
      && did.RootKeyId() in a'.doc.methods
      && FromMultibase(c, a'.doc.methods[did.RootKeyId()].publicKeyMultibase) == Ok(other)
  {
    var x := Subject(c, did.ToString(), AnchorOf(c, did).value);
    var o := TwoKeys(c, x.did, next, other, controller);
    var raw := OwnerPayload(c, x.did, o, time, privateKey);
    TwoKeysDisagree(x, next, other, controller);
    MultibaseRoundTrip(c, other);
    OwnerIsAccepted(x, did, log, a, o, time, privateKey);
    RecordIsRead(c, did, log + [raw], Reowned(did, a, next, ToMultibase(c, other), controller, time));
  }

  /** A whole log that shows it: a DID is created, then handed to `next` by a message its own key
      signs. Readers are shown `other`, and it is the operations that `next` signs that they follow. */
  lemma DisagreeingRotation(c: Codec, did: HederaDid, privateKey: Bytes, nextKey: Bytes, other: Bytes,
                            created: string, time: string, ops: seq<UpdateOperation>, clock: nat -> string)
    requires TextLaws(c) && Base58Law(c) && SignsFor(c, privateKey) && OwnKey(c, did, privateKey)
    requires SignsFor(c, nextKey) && other != [] && other != c.publicKey(nextKey)
    ensures var text := did.ToString();
      var raw := OwnerPayload(c, text, TwoKeys(c, text, c.publicKey(nextKey), other, text), time, privateKey);
      var log := CreateLog(c, did, privateKey, None, created) + [raw];
      var a0 := NewRecord(c, did, c.publicKey(privateKey), None, created);
      var a := Reowned(did, a0, c.publicKey(nextKey), ToMultibase(c, other), text, time);
      var p := Payloads(c, text, ops, clock, InternalSigner(c, nextKey));
      && IsDocument(ResolveView(c, did, log), did, a)
      && did.RootKeyId() in a.doc.methods
      && FromMultibase(c, a.doc.methods[did.RootKeyId()].publicKeyMultibase) == Ok(other)
      && OnRecord(c, did, log + p, Updated(text, a, ops[..|p|], clock))
  {
    var text := did.ToString();
    var log := CreateLog(c, did, privateKey, None, created);
    var a0 := NewRecord(c, did, c.publicKey(privateKey), None, created);
    var raw := OwnerPayload(c, text, TwoKeys(c, text, c.publicKey(nextKey), other, text), time, privateKey);
    NewDidIsOnRecord(c, did, privateKey, None, created);
    DisagreementIsAccepted(c, did, log, a0, privateKey, c.publicKey(nextKey), other, text, time);
    UpdateIsRead(c, did, log + [raw], Reowned(did, a0, c.publicKey(nextKey), ToMultibase(c, other), text, time),
      nextKey, ops, clock);
  }
}
