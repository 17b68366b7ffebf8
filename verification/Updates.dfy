/** The entry points of `registrar/src/update.rs`, and the reader's view of an interrupted update. */
module Updates {
  import opened Wrappers
  import opened Codec
  import opened Did
  import opened Messages
  import opened DidLog
  import opened LogSafety
  import opened Operations
  import opened Ledger
  import opened Lifecycle
  import opened Registrar
  import Runners = LifecycleRunner

  datatype UpdateResult = UpdateResult(did: string, operationsApplied: nat)

  /** What lands on the topic, and the answer to the caller. */
  function UpdateOutcome(c: Codec, did: string, ops: seq<UpdateOperation>, clock: nat -> string, signer: Signer,
                         outcomes: nat -> SubmitOutcome): (res: (seq<string>, Result<UpdateResult, DidError>))
    ensures |res.0| <= |ops|
  {
    var payloads := Payloads(c, did, ops, clock, signer);
    LandedIsPrefix(payloads, outcomes, 0);
    var (landed, acknowledged) := SubmitAll(payloads, outcomes, 0);
    (landed,
     if acknowledged < |payloads| then Err(InternalError)
     else if |payloads| == |ops| then Ok(UpdateResult(did, |ops|))
     else match OperationPayload(c, did, ops[|payloads|], clock(|payloads|), signer)
          case Err(e) => Err(e)
          case Ok(_) => Err(InternalError))
  }

  /** `sign_and_submit`. */
  method SignAndSubmit(c: Codec, topic: Topic<string>, signer: Signer, message: WriterMessage, outcome: SubmitOutcome)
    returns (r: Result<Unit, DidError>)
    modifies topic
    ensures SignAndPrint(c, message, signer).Err? ==>
      r == Err(SignAndPrint(c, message, signer).error) && topic.log == old(topic.log)
    ensures SignAndPrint(c, message, signer).Ok? ==>
      && topic.log == old(topic.log) + (if outcome.Lands() then [SignAndPrint(c, message, signer).value] else [])
      && r == if outcome.Acknowledged? then Ok(Unit) else Err(InternalError)
  {
    var signature :- signer(message.MessageBytes(c));
    var runner := new Runners.LifecycleRunner(UpdateBuilder(), UpdateTrait(c));
    var state, world := runner.Process(message, Unit, Segment(Some(signer), Some(signature)), Unit);
    if state.Err? {
      return Err(state.error);
    }
    var submitted := topic.Submit(message.ToPayload(c, signature), outcome);
    return if submitted.Ok? then Ok(Unit) else Err(submitted.error);
  }

  /** `apply_operation`. */
  method ApplyOperation(c: Codec, topic: Topic<string>, did: string, signer: Signer, op: UpdateOperation,
                        timestamp: string, outcome: SubmitOutcome)
    returns (r: Result<Unit, DidError>)
    modifies topic
    ensures var p := OperationPayload(c, did, op, timestamp, signer);
      if p.Err? then r == Err(p.error) && topic.log == old(topic.log)
      else && topic.log == old(topic.log) + (if outcome.Lands() then [p.value] else [])
           && r == if outcome.Acknowledged? then Ok(Unit) else Err(InternalError)
  {
    var message :- FromOperation(did, op, timestamp);
    r := SignAndSubmit(c, topic, signer, message, outcome);
  }

  /** The first `i` operations all landed and were acknowledged. */
  ghost predicate AllLanded(c: Codec, did: string, ops: seq<UpdateOperation>, clock: nat -> string, signer: Signer,
                            outcomes: nat -> SubmitOutcome, i: nat)
    requires i <= |ops|
  {
    var p := Payloads(c, did, ops[..i], clock, signer);
    |p| == i && SubmitAll(p, outcomes, 0) == (p, i)
  }

  /** An operation that cannot be written ends the update. */
  lemma UpdateStopsUnwritten(c: Codec, did: string, ops: seq<UpdateOperation>, clock: nat -> string, signer: Signer,
                             outcomes: nat -> SubmitOutcome, i: nat)
    requires i < |ops| && AllLanded(c, did, ops, clock, signer, outcomes, i)
    requires OperationPayload(c, did, ops[i], clock(i), signer).Err?
    ensures UpdateOutcome(c, did, ops, clock, signer, outcomes)
      == (Payloads(c, did, ops[..i], clock, signer), Err(OperationPayload(c, did, ops[i], clock(i), signer).error))
  {
    assert ops[..i + 1][..i] == ops[..i];
    assert Payloads(c, did, ops[..i + 1], clock, signer) == Payloads(c, did, ops[..i], clock, signer);
    PayloadsOfPrefix(c, did, ops, clock, signer, i + 1);
  }

  lemma PayloadsNext(c: Codec, did: string, ops: seq<UpdateOperation>, clock: nat -> string, signer: Signer, i: nat)
    requires i < |ops| && |Payloads(c, did, ops[..i], clock, signer)| == i
    requires OperationPayload(c, did, ops[i], clock(i), signer).Ok?
    ensures Payloads(c, did, ops[..i + 1], clock, signer)
      == Payloads(c, did, ops[..i], clock, signer) + [OperationPayload(c, did, ops[i], clock(i), signer).value]
  {
    assert ops[..i + 1][..i] == ops[..i];
  }

  /** An unacknowledged submission ends the update, whether or not it landed. */
  lemma UpdateStopsUnacknowledged(c: Codec, did: string, ops: seq<UpdateOperation>, clock: nat -> string,
                                  signer: Signer, outcomes: nat -> SubmitOutcome, i: nat)
    requires i < |ops| && AllLanded(c, did, ops, clock, signer, outcomes, i)
    requires OperationPayload(c, did, ops[i], clock(i), signer).Ok? && !outcomes(i).Acknowledged?
    ensures UpdateOutcome(c, did, ops, clock, signer, outcomes)
      == (Payloads(c, did, ops[..i], clock, signer)
          + (if outcomes(i).Lands() then [OperationPayload(c, did, ops[i], clock(i), signer).value] else []),
          Err(InternalError))
  {
    var p := Payloads(c, did, ops[..i], clock, signer);
    var payload := OperationPayload(c, did, ops[i], clock(i), signer).value;
    PayloadsNext(c, did, ops, clock, signer, i);
    PayloadsOfPrefix(c, did, ops, clock, signer, i + 1);
    UnacknowledgedOutcome(c, did, ops, clock, signer, outcomes, p, payload);
  }

  lemma UnacknowledgedOutcome(c: Codec, did: string, ops: seq<UpdateOperation>, clock: nat -> string, signer: Signer,
                              outcomes: nat -> SubmitOutcome, p: seq<string>, payload: string)
    requires p + [payload] <= Payloads(c, did, ops, clock, signer)
    requires SubmitAll(p, outcomes, 0) == (p, |p|) && !outcomes(|p|).Acknowledged?
    ensures UpdateOutcome(c, did, ops, clock, signer, outcomes)
      == (p + (if outcomes(|p|).Lands() then [payload] else []), Err(InternalError))
  {
    var rest := Remainder(Payloads(c, did, ops, clock, signer), p + [payload]);
    StopAfter(p, payload, rest, outcomes);
  }

  lemma Remainder(all: seq<string>, front: seq<string>) returns (rest: seq<string>)
    requires front <= all
    ensures all == front + rest
  {
    rest := all[|front|..];
  }

  /** Either way the failed operation decides what has landed and how the call answers. */
  lemma UpdateStops(c: Codec, did: string, ops: seq<UpdateOperation>, clock: nat -> string, signer: Signer,
                    outcomes: nat -> SubmitOutcome, i: nat)
    requires i < |ops| && AllLanded(c, did, ops, clock, signer, outcomes, i)
    requires OperationPayload(c, did, ops[i], clock(i), signer).Err? || !outcomes(i).Acknowledged?
    ensures var p := OperationPayload(c, did, ops[i], clock(i), signer);
      UpdateOutcome(c, did, ops, clock, signer, outcomes)
      == (Payloads(c, did, ops[..i], clock, signer) + (if p.Ok? && outcomes(i).Lands() then [p.value] else []),
          Err(if p.Err? then p.error else InternalError))
  {
    if OperationPayload(c, did, ops[i], clock(i), signer).Err? {
      UpdateStopsUnwritten(c, did, ops, clock, signer, outcomes, i);
      assert Payloads(c, did, ops[..i], clock, signer) + [] == Payloads(c, did, ops[..i], clock, signer);
    } else {
      UpdateStopsUnacknowledged(c, did, ops, clock, signer, outcomes, i);
    }
  }

  lemma UpdateGoesOn(c: Codec, did: string, ops: seq<UpdateOperation>, clock: nat -> string, signer: Signer,
                     outcomes: nat -> SubmitOutcome, i: nat)
    requires i < |ops| && AllLanded(c, did, ops, clock, signer, outcomes, i)
    requires OperationPayload(c, did, ops[i], clock(i), signer).Ok? && outcomes(i).Acknowledged?
    ensures AllLanded(c, did, ops, clock, signer, outcomes, i + 1)
  {
    PayloadsNext(c, did, ops, clock, signer, i);
    AcknowledgedSnoc(Payloads(c, did, ops[..i], clock, signer),
      OperationPayload(c, did, ops[i], clock(i), signer).value, outcomes);
  }

  /** `update_did_with_signer`. The `k`-th operation is stamped `clock(k)` and its submission ends as `outcomes(k)`. */
  method UpdateDidWithSigner(c: Codec, topic: Topic<string>, did: HederaDid, signer: Signer,
                             updates: seq<UpdateOperation>, parsesTopicId: string -> bool, clock: nat -> string,
                             outcomes: nat -> SubmitOutcome)
    returns (r: Result<UpdateResult, DidError>)
    modifies topic
    ensures updates == [] ==> r == Ok(UpdateResult(did.ToString(), 0)) && topic.log == old(topic.log)
    ensures updates != [] && !parsesTopicId(did.topicId) ==> r == Err(InvalidDid) && topic.log == old(topic.log)
    ensures updates != [] && parsesTopicId(did.topicId) ==>
      && topic.log == old(topic.log) + UpdateOutcome(c, did.ToString(), updates, clock, signer, outcomes).0
      && r == UpdateOutcome(c, did.ToString(), updates, clock, signer, outcomes).1
  {
    var didText := did.ToString();
    if updates == [] {
      return Ok(UpdateResult(didText, 0));
    }
    if !parsesTopicId(did.topicId) {
      return Err(InvalidDid);
    }
    var applied := 0;
    while applied < |updates|
      invariant 0 <= applied <= |updates|
      invariant AllLanded(c, didText, updates, clock, signer, outcomes, applied)
      invariant topic.log == old(topic.log) + Payloads(c, didText, updates[..applied], clock, signer)
    {
      var submitted := ApplyOperation(c, topic, didText, signer, updates[applied], clock(applied), outcomes(applied));
      if submitted.Err? {
        UpdateStops(c, didText, updates, clock, signer, outcomes, applied);
        return Err(submitted.error);
      }
      UpdateGoesOn(c, didText, updates, clock, signer, outcomes, applied);
      PayloadsNext(c, didText, updates, clock, signer, applied);
      applied := applied + 1;
    }
    assert updates[..applied] == updates;
    return Ok(UpdateResult(didText, applied));
  }

  /** `update_did`: the same with a private key, whose length is checked after the topic id. */
  method UpdateDid(c: Codec, topic: Topic<string>, did: HederaDid, privateKey: Bytes, updates: seq<UpdateOperation>,
                   parsesTopicId: string -> bool, clock: nat -> string, outcomes: nat -> SubmitOutcome)
    returns (r: Result<UpdateResult, DidError>)
    modifies topic
    ensures updates == [] ==> r == Ok(UpdateResult(did.ToString(), 0)) && topic.log == old(topic.log)
    ensures updates != [] && (!parsesTopicId(did.topicId) || |privateKey| != 32) ==>
      && r == Err(if !parsesTopicId(did.topicId) then InvalidDid else InvalidArgument)
      && topic.log == old(topic.log)
    ensures updates != [] && parsesTopicId(did.topicId) && |privateKey| == 32 ==>
      var outcome := UpdateOutcome(c, did.ToString(), updates, clock, InternalSigner(c, privateKey), outcomes);
      && topic.log == old(topic.log) + outcome.0
      && r == outcome.1
  {
    if updates != [] {
      if !parsesTopicId(did.topicId) {
        return Err(InvalidDid);
      }
      if |privateKey| != 32 {
        return Err(InvalidArgument);
      }
    }
    r := UpdateDidWithSigner(c, topic, did, InternalSigner(c, privateKey), updates, parsesTopicId, clock, outcomes);
  }

  /** However submission goes: what lands is an initial part of the payloads, at most one longer
      than what was acknowledged, and success means every operation landed and was counted. */
  lemma UpdateLandsPrefix(c: Codec, did: string, ops: seq<UpdateOperation>, clock: nat -> string, signer: Signer,
                          outcomes: nat -> SubmitOutcome)
    ensures var (landed, answer) := UpdateOutcome(c, did, ops, clock, signer, outcomes);
      && landed == Payloads(c, did, ops[..|landed|], clock, signer)
      && SubmitAll(Payloads(c, did, ops, clock, signer), outcomes, 0).1 <= |landed|
           <= SubmitAll(Payloads(c, did, ops, clock, signer), outcomes, 0).1 + 1
      && (answer.Ok? <==> SubmitAll(Payloads(c, did, ops, clock, signer), outcomes, 0).1 == |ops|)
      && (answer.Ok? ==> |landed| == |ops| && answer.value.operationsApplied == |ops|)
  {
    var payloads := Payloads(c, did, ops, clock, signer);
    LandedIsPrefix(payloads, outcomes, 0);
    var landed := SubmitAll(payloads, outcomes, 0).0;
    PayloadsOfPrefix(c, did, ops, clock, signer, |landed|);
  }

  lemma LastPayload(c: Codec, did: string, ops: seq<UpdateOperation>, clock: nat -> string, signer: Signer)
    requires ops != []
    ensures var n := |ops| - 1;
      var before, last := Payloads(c, did, ops[..n], clock, signer), OperationPayload(c, did, ops[n], clock(n), signer);
      Payloads(c, did, ops, clock, signer) == if |before| == n && last.Ok? then before + [last.value] else before
  {
  }

  /** What has a payload could be written, and its payload is where its operation was. */
  lemma {:induction false} PayloadAt(c: Codec, did: string, ops: seq<UpdateOperation>, clock: nat -> string,
                                     signer: Signer, k: nat)
    requires k < |Payloads(c, did, ops, clock, signer)|
    ensures OperationPayload(c, did, ops[k], clock(k), signer) == Ok(Payloads(c, did, ops, clock, signer)[k])
    decreases |ops|
  {
    var n := |ops| - 1;
    LastPayload(c, did, ops, clock, signer);
    if k < |Payloads(c, did, ops[..n], clock, signer)| { PayloadAt(c, did, ops[..n], clock, signer, k); }
  }

  /** The answer, by the first operation that was not acknowledged: its own error if it could not be written,
      an internal error if it could, and success if there is none. */
  lemma UpdateAnswers(c: Codec, did: string, ops: seq<UpdateOperation>, clock: nat -> string, signer: Signer,
                      outcomes: nat -> SubmitOutcome) returns (k: nat)
    ensures k <= |ops|
    ensures forall j :: 0 <= j < k ==>
      OperationPayload(c, did, ops[j], clock(j), signer).Ok? && outcomes(j).Acknowledged?
    ensures var answer := UpdateOutcome(c, did, ops, clock, signer, outcomes).1;
      if k == |ops| then answer == Ok(UpdateResult(did, |ops|))
      else
        match OperationPayload(c, did, ops[k], clock(k), signer)
        case Err(e) => answer == Err(e)
        case Ok(_) => answer == Err(InternalError) && !outcomes(k).Acknowledged?
  {
    var p := Payloads(c, did, ops, clock, signer);
    k := SubmitAll(p, outcomes, 0).1;
    AcknowledgedAre(p, outcomes, 0);
    WrittenOnes(c, did, ops, clock, signer);
    if k < |p| {
      assert OperationPayload(c, did, ops[k], clock(k), signer).Ok?;
    } else if k < |ops| {
      FirstUnwritten(c, did, ops, clock, signer);
    }
    AnswerOf(c, did, ops, clock, signer, outcomes, p, k);
  }

  lemma AnswerOf(c: Codec, did: string, ops: seq<UpdateOperation>, clock: nat -> string, signer: Signer,
                 outcomes: nat -> SubmitOutcome, p: seq<string>, k: nat)
    requires p == Payloads(c, did, ops, clock, signer) && k == SubmitAll(p, outcomes, 0).1 <= |p|
    ensures var answer := UpdateOutcome(c, did, ops, clock, signer, outcomes).1;
      && (k < |p| ==> answer == Err(InternalError))
      && (k == |p| == |ops| ==> answer == Ok(UpdateResult(did, |ops|)))
      && (k == |p| < |ops| && OperationPayload(c, did, ops[k], clock(k), signer).Err? ==>
            answer == Err(OperationPayload(c, did, ops[k], clock(k), signer).error))
  {
  }

  lemma WrittenOnes(c: Codec, did: string, ops: seq<UpdateOperation>, clock: nat -> string, signer: Signer)
    ensures forall j :: 0 <= j < |Payloads(c, did, ops, clock, signer)| ==>
      OperationPayload(c, did, ops[j], clock(j), signer).Ok?
  {
    forall j | 0 <= j < |Payloads(c, did, ops, clock, signer)|
      ensures OperationPayload(c, did, ops[j], clock(j), signer).Ok?
    {
      PayloadAt(c, did, ops, clock, signer, j);
    }
  }

  lemma {:induction false} FirstUnwritten(c: Codec, did: string, ops: seq<UpdateOperation>, clock: nat -> string,
                                          signer: Signer)
    requires |Payloads(c, did, ops, clock, signer)| < |ops|
    ensures var k := |Payloads(c, did, ops, clock, signer)|;
      OperationPayload(c, did, ops[k], clock(k), signer).Err?
    decreases |ops|
  {
    var n := |ops| - 1;
    LastPayload(c, did, ops, clock, signer);
    if |Payloads(c, did, ops[..n], clock, signer)| < n { FirstUnwritten(c, did, ops[..n], clock, signer); }
  }

  /** From any log on record, after an update run with the key in force, however it is interrupted,
      a reader sees the record with exactly the operations that landed. */
  lemma ReaderSeesPrefix(c: Codec, did: HederaDid, log: seq<string>, a: Record, privateKey: Bytes,
                         ops: seq<UpdateOperation>, clock: nat -> string, outcomes: nat -> SubmitOutcome)
    requires TextLaws(c) && SignsFor(c, privateKey) && a.key == c.publicKey(privateKey)
    requires OnRecord(c, did, log, a)
    ensures var landed := UpdateOutcome(c, did.ToString(), ops, clock, InternalSigner(c, privateKey), outcomes).0;
      && |landed| <= |ops|
      && OnRecord(c, did, log + landed, Updated(did.ToString(), a, ops[..|landed|], clock))
      && IsDocument(ResolveView(c, did, log + landed), did, Updated(did.ToString(), a, ops[..|landed|], clock))
  {
    UpdateLandsPrefix(c, did.ToString(), ops, clock, InternalSigner(c, privateKey), outcomes);
    var landed := UpdateOutcome(c, did.ToString(), ops, clock, InternalSigner(c, privateKey), outcomes).0;
    UpdateIsRead(c, did, log, a, privateKey, ops[..|landed|], clock);
    assert ops[..|landed|][..|landed|] == ops[..|landed|];
    RecordIsRead(c, did, log + landed, Updated(did.ToString(), a, ops[..|landed|], clock));
  }

  // ---------------------------------------------------------------- strangers on the topic

  lemma {:induction false} KeptPrefix(full: seq<string>, keep: seq<bool>, i: nat)
    requires |full| == |keep| && i <= |full|
    ensures Kept(full[..i], keep[..i]) <= Kept(full, keep)
    decreases |full|
  {
    if i == |full| {
      assert full[..i] == full && keep[..i] == keep;
    } else {
      var n := |full| - 1;
      assert full[..n][..i] == full[..i] && keep[..n][..i] == keep[..i];
      KeptPrefix(full[..n], keep[..n], i);
    }
  }

  /** On its own log the DID's own key is in force from beginning to end. */
  lemma OwnKeyStaysInForce(x: Subject, did: HederaDid, privateKey: Bytes, controller: Option<string>, created: string,
                           ops: seq<UpdateOperation>, clock: nat -> string, part: seq<string>)
    requires TextLaws(x.c) && Base58Law(x.c) && SignsFor(x.c, privateKey)
    requires x.did == did.ToString() && x.anchor == x.c.publicKey(privateKey)
    requires part <= OwnLog(x.c, did, privateKey, controller, created, ops, clock)
    ensures Fold(x, part).current == x.anchor
  {
    if part != [] {
      var k := |part| - 1;
      var create := CreateLog(x.c, did, privateKey, controller, created);
      CreateIsRead(x, did, privateKey, controller, created);
      PayloadsOfPrefix(x.c, x.did, ops, clock, InternalSigner(x.c, privateKey), k);
      PayloadsAreRead(x, create, NewRecord(x.c, did, x.anchor, controller, created), privateKey, ops[..k], clock);
      assert part == create + Payloads(x.c, x.did, ops[..k], clock, InternalSigner(x.c, privateKey));
    }
  }

  /** The messages left out do not verify under the DID's own key. */
  ghost predicate OthersCannotSign(x: Subject, full: seq<string>, keep: seq<bool>)
    requires |full| == |keep|
  {
    forall i :: 0 <= i < |full| && !keep[i] ==> Foreign(x, x.anchor, full[i])
  }

  lemma StrangersStayForeign(x: Subject, did: HederaDid, privateKey: Bytes, controller: Option<string>, created: string,
                             ops: seq<UpdateOperation>, clock: nat -> string, full: seq<string>, keep: seq<bool>)
    requires TextLaws(x.c) && Base58Law(x.c) && SignsFor(x.c, privateKey)
    requires x.did == did.ToString() && x.anchor == x.c.publicKey(privateKey)
    requires |full| == |keep| && Kept(full, keep) == OwnLog(x.c, did, privateKey, controller, created, ops, clock)
    requires OthersCannotSign(x, full, keep)
    ensures RestIsForeign(x, full, keep)
  {
    forall i | 0 <= i < |full| && !keep[i] ensures Foreign(x, Fold(x, Kept(full[..i], keep[..i])).current, full[i]) {
      KeptPrefix(full, keep, i);
      OwnKeyStaysInForce(x, did, privateKey, controller, created, ops, clock, Kept(full[..i], keep[..i]));
    }
  }

  /** Among strangers the owner's log resolves as it does alone. */
  lemma StrangersAreIgnored(c: Codec, did: HederaDid, privateKey: Bytes, controller: Option<string>, created: string,
                            ops: seq<UpdateOperation>, clock: nat -> string, full: seq<string>, keep: seq<bool>)
    requires TextLaws(c) && Base58Law(c) && SignsFor(c, privateKey) && OwnKey(c, did, privateKey)
    requires |full| == |keep| && Kept(full, keep) == OwnLog(c, did, privateKey, controller, created, ops, clock)
    requires OthersCannotSign(Subject(c, did.ToString(), c.publicKey(privateKey)), full, keep)
    ensures ResolveView(c, did, full)
      == ResolveView(c, did, OwnLog(c, did, privateKey, controller, created, ops, clock))
  {
    OwnAnchor(c, did, privateKey);
    var x := Subject(c, did.ToString(), c.publicKey(privateKey));
    StrangersStayForeign(x, did, privateKey, controller, created, ops, clock, full, keep);
    NonInterference(c, did, full, keep);
  }

  /** Strangers may append anything, anywhere: as long as they cannot sign with the DID's own
      key, every reader still sees exactly what the owner wrote. */
  lemma WrittenIsReadAmongStrangers(c: Codec, did: HederaDid, privateKey: Bytes, controller: Option<string>,
                                    created: string, ops: seq<UpdateOperation>, clock: nat -> string,
                                    full: seq<string>, keep: seq<bool>)
    requires TextLaws(c) && Base58Law(c) && SignsFor(c, privateKey) && OwnKey(c, did, privateKey)
    requires |full| == |keep| && Kept(full, keep) == OwnLog(c, did, privateKey, controller, created, ops, clock)
    requires OthersCannotSign(Subject(c, did.ToString(), c.publicKey(privateKey)), full, keep)
    ensures var k := |Payloads(c, did.ToString(), ops, clock, InternalSigner(c, privateKey))|;
      IsDocument(ResolveView(c, did, full), did,
                 Updated(did.ToString(), NewRecord(c, did, c.publicKey(privateKey), controller, created),
                         ops[..k], clock))
  {
    StrangersAreIgnored(c, did, privateKey, controller, created, ops, clock, full, keep);
    WrittenIsRead(c, did, privateKey, controller, created, ops, clock);
  }
}
