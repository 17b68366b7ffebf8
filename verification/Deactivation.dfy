/** `registrar/src/deactivate.rs`: signing and submitting the tombstone, and what readers see from then on. */
module Deactivation {
  import opened Wrappers
  import opened Codec
  import opened Did
  import opened Messages
  import opened DidLog
  import opened Operations
  import opened Ledger
  import opened Lifecycle
  import opened Registrar
  import Runners = LifecycleRunner

  /** `DeactivatedDIDDocument`: its list of methods is always empty. */
  datatype DeactivatedDocument = DeactivatedDocument(id: string, controller: string)

  /** The document that the call answers with: the DID is its own controller. */
  function Answered(did: HederaDid): DeactivatedDocument {
    DeactivatedDocument(did.ToString(), did.ToString())
  }

  datatype DeactivateResult = DeactivateResult(did: string, document: DeactivatedDocument)

  /** `deactivate_did_with_signer`, with the network's behaviour as `outcome`. */
  method DeactivateDidWithSigner(c: Codec, topic: Topic<string>, did: HederaDid, signer: Signer,
                                 parsesTopicId: string -> bool, timestamp: string, outcome: SubmitOutcome)
    returns (r: Result<DeactivateResult, DidError>)
    modifies topic
    ensures !parsesTopicId(did.topicId) ==> r == Err(InvalidDid) && topic.log == old(topic.log)
    ensures parsesTopicId(did.topicId) ==>
      var p := SignAndPrint(c, DidDeactivate(did, timestamp), signer);
      if p.Err? then r == Err(p.error) && topic.log == old(topic.log)
      else && topic.log == old(topic.log) + (if outcome.Lands() then [p.value] else [])
           && r == if outcome.Acknowledged?
                   then Ok(DeactivateResult(did.ToString(), Answered(did)))
                   else Err(InternalError)
  {
    var didText := did.ToString();
    if !parsesTopicId(did.topicId) {
      return Err(InvalidDid);
    }
    var message := DidDeactivate(did, timestamp);
    var signature :- signer(message.MessageBytes(c));
    var runner := new Runners.LifecycleRunner(UpdateBuilder(), UpdateTrait(c));
    var state, world := runner.Process(message, Unit, Segment(Some(signer), Some(signature)), Unit);
    if state.Err? {
      return Err(state.error);
    }
    var submitted := topic.Submit(message.ToPayload(c, signature), outcome);
    if submitted.Err? {
      return Err(submitted.error);
    }
    return Ok(DeactivateResult(didText, DeactivatedDocument(didText, didText)));
  }

  /** `deactivate_did`: here the key's length is checked before the topic id. */
  method DeactivateDid(c: Codec, topic: Topic<string>, did: HederaDid, privateKey: Bytes,
                       parsesTopicId: string -> bool, timestamp: string, outcome: SubmitOutcome)
    returns (r: Result<DeactivateResult, DidError>)
    modifies topic
    ensures |privateKey| != 32 ==> r == Err(InvalidArgument) && topic.log == old(topic.log)
    ensures |privateKey| == 32 && !parsesTopicId(did.topicId) ==> r == Err(InvalidDid) && topic.log == old(topic.log)
    ensures |privateKey| == 32 && parsesTopicId(did.topicId) ==>
      var p := SignAndPrint(c, DidDeactivate(did, timestamp), InternalSigner(c, privateKey));
      if p.Err? then r == Err(p.error) && topic.log == old(topic.log)
      else && topic.log == old(topic.log) + (if outcome.Lands() then [p.value] else [])
           && r == if outcome.Acknowledged?
                   then Ok(DeactivateResult(did.ToString(), Answered(did)))
                   else Err(InternalError)
  {
    if |privateKey| != 32 {
      return Err(InvalidArgument);
    }
    r := DeactivateDidWithSigner(c, topic, did, InternalSigner(c, privateKey), parsesTopicId, timestamp, outcome);
  }

  /** A proper key always gets as far as submitting its own signed payload. */
  lemma OwnDelete(c: Codec, did: HederaDid, privateKey: Bytes, timestamp: string)
    requires SignsFor(c, privateKey)
    ensures SignAndPrint(c, DidDeactivate(did, timestamp), InternalSigner(c, privateKey))
      == Ok(SignedPayload(c, DidDeactivate(did, timestamp), privateKey))
  {
    LifecycleChecksLength(c, DidDeactivate(did, timestamp), InternalSigner(c, privateKey));
  }

  /** A reader takes a delete payload for a delete, and checks the very bytes that were signed. */
  lemma DeleteIsRead(x: Subject, did: HederaDid, timestamp: string, signature: Bytes)
    requires TextLaws(x.c) && x.did == did.ToString()
    ensures var w := DidDeactivate(did, timestamp);
      var q := RequestOf(x, w.ToPayload(x.c, signature));
      q.Delete? && forall key :: SignedBy(x.c, key, q.envelope) <==> Verifies(x.c, key, w.MessageBytes(x.c), signature)
  {
    var w := DidDeactivate(did, timestamp);
    PayloadRoundTrip(x.c, w, signature);
    var e := ParseEnvelope(x.c, w.ToPayload(x.c, signature)).value;
    assert RequestOf(x, w.ToPayload(x.c, signature)) == Delete(e);
  }

  lemma DeleteStep(x: Subject, log: seq<string>, raw: string)
    requires !Fold(x, log).deactivated
    requires RequestOf(x, raw).Delete? && SignedBy(x.c, Fold(x, log).current, RequestOf(x, raw).envelope)
    ensures Fold(x, log + [raw]) == Fold(x, log).(deactivated := true)
  {
    FoldSnoc(x, log, raw);
  }

  /** The empty document of a deactivated DID, with the metadata on record. */
  function Tombstone(did: HederaDid, a: Record): View {
    View(did.ToString(), a.controller, map[], map[], map[], map[], map[], map[], map[],
         Some(a.created), Some(a.updated), true)
  }

  /** Once a delete signed by the key in force has landed on a log on record, readers see the
      tombstone, whatever is appended later. */
  lemma DeactivatedForGood(c: Codec, did: HederaDid, log: seq<string>, a: Record, privateKey: Bytes,
                           timestamp: string, suffix: seq<string>)
    requires TextLaws(c) && SignsFor(c, privateKey) && a.key == c.publicKey(privateKey)
    requires OnRecord(c, did, log, a)
    ensures ResolveView(c, did, log + [SignedPayload(c, DidDeactivate(did, timestamp), privateKey)] + suffix)
      == Ok(Tombstone(did, a))
  {
    var x := Subject(c, did.ToString(), AnchorOf(c, did).value);
    var raw := SignedPayload(c, DidDeactivate(did, timestamp), privateKey);
    DeleteIsRead(x, did, timestamp, c.sign(privateKey, DidDeactivate(did, timestamp).MessageBytes(c)));
    DeleteStep(x, log, raw);
    DeactivationAbsorbs(x, log + [raw], suffix);
  }

  /** A delete under any signature, landed on a log on record: the tombstone when the signature
      verifies under the key in force, and otherwise nothing. */
  lemma DeleteIsReadIff(c: Codec, did: HederaDid, log: seq<string>, a: Record, timestamp: string, signature: Bytes)
    requires TextLaws(c) && OnRecord(c, did, log, a)
    ensures var w := DidDeactivate(did, timestamp);
      ResolveView(c, did, log + [w.ToPayload(c, signature)])
      == if Verifies(c, a.key, w.MessageBytes(c), signature) then Ok(Tombstone(did, a)) else ResolveView(c, did, log)
  {
    var x := Subject(c, did.ToString(), AnchorOf(c, did).value);
    DeleteIsRead(x, did, timestamp, signature);
    FoldSnoc(x, log, DidDeactivate(did, timestamp).ToPayload(c, signature));
  }

  /** The document that readers see once the delete has landed is the one that `deactivate_did`
      answers with exactly when no other controller was on record. */
  lemma AnsweredDocumentIsReadIff(c: Codec, did: HederaDid, log: seq<string>, a: Record, privateKey: Bytes,
                                  timestamp: string)
    requires TextLaws(c) && SignsFor(c, privateKey) && a.key == c.publicKey(privateKey)
    requires OnRecord(c, did, log, a)
    ensures var r := ResolveView(c, did, log + [SignedPayload(c, DidDeactivate(did, timestamp), privateKey)]);
      && r.Ok? && r.value.deactivated
      && (DeactivatedDocument(r.value.id, r.value.controller) == Answered(did) <==> a.controller == did.ToString())
  {
    DeleteIsReadIff(c, did, log, a, timestamp, c.sign(privateKey, DidDeactivate(did, timestamp).MessageBytes(c)));
  }

  /** One for which it is not: a DID created with another controller and then deactivated by its own key. */
  lemma AnsweredDocumentDiffers(c: Codec, did: HederaDid, privateKey: Bytes, controller: string, created: string,
                                timestamp: string)
    requires TextLaws(c) && Base58Law(c) && SignsFor(c, privateKey) && OwnKey(c, did, privateKey)
    requires controller != did.ToString()
    ensures var log := CreateLog(c, did, privateKey, Some(controller), created);
      var r := ResolveView(c, did, log + [SignedPayload(c, DidDeactivate(did, timestamp), privateKey)]);
      && r.Ok? && r.value.deactivated && r.value.controller == controller
      && DeactivatedDocument(r.value.id, r.value.controller) != Answered(did)
  {
    var log := CreateLog(c, did, privateKey, Some(controller), created);
    var a := NewRecord(c, did, c.publicKey(privateKey), Some(controller), created);
    NewDidIsOnRecord(c, did, privateKey, Some(controller), created);
    DeleteIsReadIff(c, did, log, a, timestamp, c.sign(privateKey, DidDeactivate(did, timestamp).MessageBytes(c)));
  }
}
