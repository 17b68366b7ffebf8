/** Client-managed batches: preparing them (`registrar/src/update_csm.rs`), taking signatures back,
    submitting them (`registrar/src/csm.rs`). */
module CsmSubmit {
  import opened Wrappers
  import opened Codec
  import opened Did
  import opened Messages
  import opened DidLog
  import opened Operations
  import opened Ledger
  import opened Registrar
  import opened Deactivation
  import opened Csm

  const PAUSE_BEFORE_PUBLISH_LABEL := "pause-before-publish"

  datatype CsmBatchSigningRequest = CsmBatchSigningRequest(
    version: nat, did: string, topicId: string, operation: string, lifecycleLabel: string,
    requests: seq<CsmSigningRequest>)

  datatype CsmSubmitResult = CsmSubmitResult(
    did: string, topicId: string, operation: string, sequenceNumber: nat, lifecycleLabel: string)

  datatype CsmBatchSubmitResult = CsmBatchSubmitResult(
    did: string, topicId: string, operation: string, operationsApplied: nat, results: seq<CsmSubmitResult>)

  // ---------------------------------------------------------------- preparing and signing a batch

  /** Request `k` of a batch under `key`. */
  ghost predicate PreparesAt(c: Codec, r: CsmSigningRequest, did: HederaDid, op: UpdateOperation, timestamp: string,
                             key: Bytes, expiresAt: Option<int>)
  {
    && FromOperation(did.ToString(), op, timestamp).Ok?
    && Prepares(c, r, FromOperation(did.ToString(), op, timestamp).value, did.topicId, key, "update", expiresAt)
    && r.state.did == did.ToString()
  }

  /** A batch of requests, one for each operation. */
  ghost predicate BatchPrepared(c: Codec, requests: seq<CsmSigningRequest>, did: HederaDid, ops: seq<UpdateOperation>,
                                stamps: nat -> string, key: Bytes, expiresAt: Option<int>)
  {
    |requests| == |ops| && forall k :: 0 <= k < |ops| ==>
      PreparesAt(c, requests[k], did, ops[k], stamps(k), key, expiresAt)
  }

  /** `prepare_update_did_csm_with_options`: one signing request per operation, or an error. */
  method PrepareUpdateDidCsm(c: Codec, did: HederaDid, updates: seq<UpdateOperation>, clock: nat -> string,
                             expiresAt: Option<int>)
    returns (r: Result<CsmBatchSigningRequest, DidError>)
    ensures r.Ok? <==> (updates != [] && PublicKeyFromDid(c, did).Ok?
      && forall k :: 0 <= k < |updates| ==> FromOperation(did.ToString(), updates[k], clock(k)).Ok?)
    ensures r.Err? ==> r.error == InvalidArgument
    ensures r.Ok? ==>
      && r.value == CsmBatchSigningRequest(1, did.ToString(), did.topicId, "update", "pause-for-signature",
                                           r.value.requests)
      && BatchPrepared(c, r.value.requests, did, updates, clock, PublicKeyFromDid(c, did).value, expiresAt)
  {
    if updates == [] {
      return Err(InvalidArgument);
    }
    var didText := did.ToString();
    var key :- PublicKeyFromDid(c, did);
    var requests: seq<CsmSigningRequest> := [];
    var i := 0;
    while i < |updates|
      invariant 0 <= i <= |updates|
      invariant forall k :: 0 <= k < i ==> FromOperation(didText, updates[k], clock(k)).Ok?
      invariant BatchPrepared(c, requests, did, updates[..i], clock, key, expiresAt)
    {
      PreparedAt(c, did, updates[i], clock(i), key, expiresAt);
      var prepared := PrepareOperation(c, didText, did.topicId, updates[i], clock(i), key, expiresAt);
      if prepared.Err? {
        return Err(prepared.error);
      }
      BatchGrows(c, requests, did, updates, i, clock, key, expiresAt, prepared.value);
      requests := requests + [prepared.value];
      i := i + 1;
    }
    assert updates[..i] == updates;
    return Ok(CsmBatchSigningRequest(CSM_STATE_VERSION, didText, did.topicId, "update", PAUSE_FOR_SIGNATURE_LABEL,
      requests));
  }

  lemma BatchGrows(c: Codec, requests: seq<CsmSigningRequest>, did: HederaDid, ops: seq<UpdateOperation>, i: nat,
                   stamps: nat -> string, key: Bytes, expiresAt: Option<int>, r: CsmSigningRequest)
    requires i < |ops| && BatchPrepared(c, requests, did, ops[..i], stamps, key, expiresAt)
    requires PreparesAt(c, r, did, ops[i], stamps(i), key, expiresAt)
    ensures BatchPrepared(c, requests + [r], did, ops[..i + 1], stamps, key, expiresAt)
  {
    forall k | 0 <= k < i + 1
      ensures PreparesAt(c, (requests + [r])[k], did, ops[..i + 1][k], stamps(k), key, expiresAt)
    {
      if k < i { assert PreparesAt(c, requests[k], did, ops[..i][k], stamps(k), key, expiresAt); }
    }
  }

  lemma PreparedAt(c: Codec, did: HederaDid, op: UpdateOperation, timestamp: string, key: Bytes, expiresAt: Option<int>)
    requires |key| == 32
    ensures match PrepareOperation(c, did.ToString(), did.topicId, op, timestamp, key, expiresAt)
      case Ok(r) => PreparesAt(c, r, did, op, timestamp, key, expiresAt)
      case Err(e) => e == InvalidArgument && FromOperation(did.ToString(), op, timestamp).Err?
  {
    PreparedOperation(c, did.ToString(), did.topicId, op, timestamp, key, expiresAt);
  }

  /** `collect` of results: all the values, or the first error. */
  function AllOk<T>(items: seq<Result<T, DidError>>): Result<seq<T>, DidError> {
    if items == [] then Ok([])
    else
      var n := |items| - 1;
      var before :- AllOk(items[..n]);
      var last :- items[n];
      Ok(before + [last])
  }

  /** The values in order when there is no error, and otherwise the earliest error. */
  lemma {:induction false} AllOkMeans<T>(items: seq<Result<T, DidError>>) returns (first: nat)
    ensures match AllOk(items)
      case Ok(values) => |values| == |items| && forall k :: 0 <= k < |items| ==> items[k] == Ok(values[k])
      case Err(e) => first < |items| && items[first] == Err(e) && forall k :: 0 <= k < first ==> items[k].Ok?
    decreases |items|
  {
    first := 0;
    if items != [] {
      var n := |items| - 1;
      var init := items[..n];
      first := AllOkMeans(init);
      assert forall k :: 0 <= k < n ==> items[k] == init[k];
      if AllOk(init).Ok? { first := n; }
    }
  }

  /** `CsmBatchSigningRequest::into_submit_request`; request `k` is checked at the time `clock(k)`. */
  function IntoBatch(c: Codec, r: CsmBatchSigningRequest, signatures: seq<Bytes>, clock: nat -> Result<int, DidError>)
    : Result<seq<CsmSubmitRequest>, DidError>
  {
    if |r.requests| != |signatures| then Err(InvalidArgument)
    else
      AllOk(seq(|signatures|, k requires 0 <= k < |signatures| =>
        r.requests[k].IntoSubmitRequest(c, signatures[k], clock(k))))
  }

  /** The batch call refuses a wrong number of signatures, then answers with all the submit
      requests in order, or with the refusal of the earliest request that is refused. */
  lemma IntoBatchMeans(c: Codec, r: CsmBatchSigningRequest, signatures: seq<Bytes>, clock: nat -> Result<int, DidError>)
    returns (first: nat)
    ensures |r.requests| != |signatures| ==> IntoBatch(c, r, signatures, clock) == Err(InvalidArgument)
    ensures |r.requests| == |signatures| ==>
      match IntoBatch(c, r, signatures, clock)
      case Ok(submits) => (
        && |submits| == |signatures|
        && forall k :: 0 <= k < |signatures| ==>
             r.requests[k].IntoSubmitRequest(c, signatures[k], clock(k)) == Ok(submits[k]))
      case Err(e) => (
        && first < |signatures| && r.requests[first].IntoSubmitRequest(c, signatures[first], clock(first)) == Err(e)
        && forall k :: 0 <= k < first ==> r.requests[k].IntoSubmitRequest(c, signatures[k], clock(k)).Ok?)
  {
    first := 0;
    if |r.requests| == |signatures| {
      var items := seq(|signatures|, k requires 0 <= k < |signatures| =>
        r.requests[k].IntoSubmitRequest(c, signatures[k], clock(k)));
      first := AllOkMeans(items);
      assert forall k :: 0 <= k < |items| ==> items[k] == r.requests[k].IntoSubmitRequest(c, signatures[k], clock(k));
    }
  }

  // ---------------------------------------------------------------- submitting

  /** The SDK's reading of a topic id, printed again. */
  type TopicIds = string -> Option<string>

  /** What a request puts on the ledger. The clock is read twice: for the check and for the payload. */
  function Attempt(c: Codec, request: CsmSubmitRequest, topics: TopicIds, first: Result<int, DidError>,
                   second: Result<int, DidError>)
    : Result<(string, string), DidError>
  {
    var valid :- request.state.ValidateForSubmit(c, request.signature, first);
    match topics(request.state.topicId)
    case None => Err(InvalidDid)
    case Some(topicId) =>
      var payload :- request.state.ToPayload(c, request.signature, second);
      Ok((topicId, payload))
  }

  function AttemptAt(c: Codec, requests: seq<CsmSubmitRequest>, topics: TopicIds, clock: nat -> Result<int, DidError>,
                     k: nat)
    : Result<(string, string), DidError>
    requires k < |requests|
  {
    Attempt(c, requests[k], topics, clock(2 * k), clock(2 * k + 1))
  }

  function Attempts(c: Codec, requests: seq<CsmSubmitRequest>, topics: TopicIds, clock: nat -> Result<int, DidError>)
    : (a: seq<Result<(string, string), DidError>>)
    ensures |a| == |requests|
    ensures forall k :: 0 <= k < |requests| ==> a[k] == AttemptAt(c, requests, topics, clock, k)
  {
    seq(|requests|, k requires 0 <= k < |requests| => AttemptAt(c, requests, topics, clock, k))
  }

  /** How many entries of the ledger are on a topic. */
  function CountOn(log: seq<(string, string)>, topicId: string): nat {
    if log == [] then 0 else CountOn(log[..|log| - 1], topicId) + if log[|log| - 1].0 == topicId then 1 else 0
  }

  /** The positions of a topic's entries. */
  function PositionsOn(log: seq<(string, string)>, topicId: string): set<int> {
    set i | 0 <= i < |log| && log[i].0 == topicId
  }

  /** The number of a topic's last entry is how many entries the topic has; other topics do not matter. */
  lemma {:induction false} CountIsEntriesOn(log: seq<(string, string)>, topicId: string)
    ensures CountOn(log, topicId) == |PositionsOn(log, topicId)|
  {
    if log != [] {
      var n := |log| - 1;
      CountIsEntriesOn(log[..n], topicId);
      var before := PositionsOn(log[..n], topicId);
      assert PositionsOn(log, topicId) == before + if log[n].0 == topicId then {n} else {};
    }
  }

  /** The result for an item that landed as the last entry of `log`. */
  function ResultOf(request: CsmSubmitRequest, item: (string, string), log: seq<(string, string)>): CsmSubmitResult {
    CsmSubmitResult(request.state.did, item.0, request.state.operation, CountOn(log, item.0),
      PAUSE_BEFORE_PUBLISH_LABEL)
  }

  /** `submit_csm_request`. */
  method SubmitCsmRequest(c: Codec, ledger: Topic<(string, string)>, request: CsmSubmitRequest, topics: TopicIds,
                          first: Result<int, DidError>, second: Result<int, DidError>, outcome: SubmitOutcome)
    returns (r: Result<CsmSubmitResult, DidError>)
    modifies ledger
    ensures var a := Attempt(c, request, topics, first, second);
      if a.Err? then r == Err(a.error) && ledger.log == old(ledger.log)
      else && ledger.log == old(ledger.log) + (if outcome.Lands() then [a.value] else [])
           && (if outcome.Acknowledged? then r == Ok(ResultOf(request, a.value, ledger.log))
               else r == Err(InternalError))
    ensures r.Ok? ==>
      && r.value.did == request.state.did && r.value.operation == request.state.operation
      && topics(request.state.topicId) == Some(r.value.topicId) && r.value.lifecycleLabel == "pause-before-publish"
      && r.value.sequenceNumber == CountOn(ledger.log, r.value.topicId)
  {
    var valid :- request.state.ValidateForSubmit(c, request.signature, first);
    var topicId := topics(request.state.topicId);
    if topicId.None? {
      return Err(InvalidDid);
    }
    var payload :- request.state.ToPayload(c, request.signature, second);
    var submitted := ledger.Submit((topicId.value, payload), outcome);
    if submitted.Err? {
      return Err(submitted.error);
    }
    return Ok(CsmSubmitResult(request.state.did, topicId.value, request.state.operation,
      CountOn(ledger.log, topicId.value), PAUSE_BEFORE_PUBLISH_LABEL));
  }

  /** The results of a fully acknowledged batch. */
  ghost predicate ResultsOf(results: seq<CsmSubmitResult>, requests: seq<CsmSubmitRequest>,
                            before: seq<(string, string)>, landed: seq<(string, string)>)
  {
    && |results| == |landed| <= |requests|
    && forall k :: 0 <= k < |landed| ==> results[k] == ResultOf(requests[k], landed[k], before + landed[..k + 1])
  }

  lemma ResultsSnoc(results: seq<CsmSubmitResult>, requests: seq<CsmSubmitRequest>, before: seq<(string, string)>,
                    landed: seq<(string, string)>, item: (string, string))
    requires ResultsOf(results, requests, before, landed) && |landed| < |requests|
    ensures ResultsOf(results + [ResultOf(requests[|landed|], item, before + landed + [item])], requests, before,
      landed + [item])
  {
    var all := landed + [item];
    var more := results + [ResultOf(requests[|landed|], item, before + landed + [item])];
    assert all[..|landed| + 1] == all && before + landed + [item] == before + all;
    forall k | 0 <= k < |all| ensures more[k] == ResultOf(requests[k], all[k], before + all[..k + 1]) {
      if k < |landed| { assert all[..k + 1] == landed[..k + 1]; }
    }
  }

  /** The batch after `i` acknowledged items. */
  ghost predicate BatchSoFar(requests: seq<CsmSubmitRequest>, attempts: seq<Result<(string, string), DidError>>,
                             outcomes: nat -> SubmitOutcome, i: nat, before: seq<(string, string)>,
                             landed: seq<(string, string)>, results: seq<CsmSubmitResult>)
  {
    && i <= |attempts| == |requests|
    && SubmitEach(attempts[..i], outcomes) == (landed, i, None)
    && |landed| == i && ResultsOf(results, requests, before, landed)
  }

  /** What the caller of a batch learns, and what it left on the ledger. */
  ghost predicate BatchAnswer(requests: seq<CsmSubmitRequest>, attempts: seq<Result<(string, string), DidError>>,
                              outcomes: nat -> SubmitOutcome, before: seq<(string, string)>,
                              after: seq<(string, string)>, r: Result<CsmBatchSubmitResult, DidError>)
  {
    var (landed, acknowledged, error) := SubmitEach(attempts, outcomes);
    && after == before + landed
    && (r.Ok? <==> error.None? && requests != [])
    && (r.Err? ==> r.error == error.UnwrapOr(InvalidArgument))
    && (r.Ok? ==>
          && ResultsOf(r.value.results, requests, before, landed)
          && r.value.operationsApplied == |requests| == |landed|
          && r.value.did == requests[0].state.did && r.value.operation == requests[0].state.operation
          && r.value.topicId == landed[0].0)
  }

  lemma BatchGoesOn(requests: seq<CsmSubmitRequest>, attempts: seq<Result<(string, string), DidError>>,
                    outcomes: nat -> SubmitOutcome, i: nat, before: seq<(string, string)>,
                    landed: seq<(string, string)>, results: seq<CsmSubmitResult>)
    requires BatchSoFar(requests, attempts, outcomes, i, before, landed, results)
    requires i < |requests| && attempts[i].Ok? && outcomes(i).Acknowledged?
    ensures BatchSoFar(requests, attempts, outcomes, i + 1, before, landed + [attempts[i].value],
                       results + [ResultOf(requests[i], attempts[i].value, before + landed + [attempts[i].value])])
  {
    assert attempts[..i + 1][..i] == attempts[..i];
    ResultsSnoc(results, requests, before, landed, attempts[i].value);
  }

  lemma BatchStops(requests: seq<CsmSubmitRequest>, attempts: seq<Result<(string, string), DidError>>,
                   outcomes: nat -> SubmitOutcome, i: nat, before: seq<(string, string)>,
                   landed: seq<(string, string)>, results: seq<CsmSubmitResult>, after: seq<(string, string)>,
                   error: DidError)
    requires BatchSoFar(requests, attempts, outcomes, i, before, landed, results)
    requires i < |requests| && (attempts[i].Err? || !outcomes(i).Acknowledged?)
    requires error == (if attempts[i].Err? then attempts[i].error else InternalError)
    requires after == before + landed + (if attempts[i].Ok? && outcomes(i).Lands() then [attempts[i].value] else [])
    ensures BatchAnswer(requests, attempts, outcomes, before, after, Err(error))
  {
    assert attempts[..i + 1][..i] == attempts[..i];
    ErrorEnds(attempts, outcomes, i + 1);
  }

  lemma BatchDone(requests: seq<CsmSubmitRequest>, attempts: seq<Result<(string, string), DidError>>,
                  outcomes: nat -> SubmitOutcome, before: seq<(string, string)>, landed: seq<(string, string)>,
                  results: seq<CsmSubmitResult>)
    requires BatchSoFar(requests, attempts, outcomes, |requests|, before, landed, results)
    ensures BatchAnswer(requests, attempts, outcomes, before, before + landed,
      if results == [] then Err(InvalidArgument)
      else Ok(CsmBatchSubmitResult(results[0].did, results[0].topicId, results[0].operation, |results|, results)))
  {
    assert attempts[..|requests|] == attempts;
    if results != [] { assert results[0] == ResultOf(requests[0], landed[0], before + landed[..1]); }
  }

  /** `submit_csm_batch`: stops at the first failure; an empty batch is refused at the end. */
  method SubmitCsmBatch(c: Codec, ledger: Topic<(string, string)>, requests: seq<CsmSubmitRequest>, topics: TopicIds,
                        clock: nat -> Result<int, DidError>, outcomes: nat -> SubmitOutcome)
    returns (r: Result<CsmBatchSubmitResult, DidError>)
    modifies ledger
    ensures BatchAnswer(requests, Attempts(c, requests, topics, clock), outcomes, old(ledger.log), ledger.log, r)
  {
    ghost var attempts := Attempts(c, requests, topics, clock);
    ghost var before, landed: seq<(string, string)> := ledger.log, [];
    var results: seq<CsmSubmitResult> := [];
    var i := 0;
    while i < |requests|
      invariant 0 <= i <= |requests|
      invariant BatchSoFar(requests, attempts, outcomes, i, before, landed, results)
      invariant ledger.log == before + landed
    {
      var submitted := SubmitCsmRequest(c, ledger, requests[i], topics, clock(2 * i), clock(2 * i + 1), outcomes(i));
      if submitted.Err? {
        BatchStops(requests, attempts, outcomes, i, before, landed, results, ledger.log, submitted.error);
        return Err(submitted.error);
      }
      BatchGoesOn(requests, attempts, outcomes, i, before, landed, results);
      results, landed := results + [submitted.value], landed + [attempts[i].value];
      i := i + 1;
    }
    BatchDone(requests, attempts, outcomes, before, landed, results);
    if results == [] {
      return Err(InvalidArgument);
    }
    var first := results[0];
    return Ok(CsmBatchSubmitResult(first.did, first.topicId, first.operation, |results|, results));
  }

  /** `submit_update_did_csm`: nothing is submitted unless every item is labelled as an update. */
  method SubmitUpdateDidCsm(c: Codec, ledger: Topic<(string, string)>, requests: seq<CsmSubmitRequest>,
                            topics: TopicIds, clock: nat -> Result<int, DidError>, outcomes: nat -> SubmitOutcome)
    returns (r: Result<CsmBatchSubmitResult, DidError>)
    modifies ledger
    ensures requests == [] || (exists k :: 0 <= k < |requests| && requests[k].state.operation != "update") ==>
      r == Err(InvalidArgument) && ledger.log == old(ledger.log)
    ensures requests != [] && (forall k :: 0 <= k < |requests| ==> requests[k].state.operation == "update") ==>
      BatchAnswer(requests, Attempts(c, requests, topics, clock), outcomes, old(ledger.log), ledger.log, r)
  {
    if requests == [] {
      return Err(InvalidArgument);
    }
    var i := 0;
    while i < |requests|
      invariant 0 <= i <= |requests|
      invariant forall k :: 0 <= k < i ==> requests[k].state.operation == "update"
    {
      if requests[i].state.operation != "update" {
        return Err(InvalidArgument);
      }
      i := i + 1;
    }
    r := SubmitCsmBatch(c, ledger, requests, topics, clock, outcomes);
  }

  /** What an accepted request submits is the payload of its state's message. */
  lemma AttemptIsPayload(c: Codec, request: CsmSubmitRequest, topics: TopicIds, first: Result<int, DidError>,
                         second: Result<int, DidError>)
    requires Attempt(c, request, topics, first, second).Ok?
    ensures request.state.message.Rebuild().Ok?
    ensures var (topicId, payload) := Attempt(c, request, topics, first, second).value;
      && topics(request.state.topicId) == Some(topicId)
      && payload == request.state.message.Rebuild().value.ToPayload(c, request.signature)
      && Verifies(c, request.state.expectedPublicKeyBytes, request.state.messageBytes, request.signature)
  {
    AcceptedMeans(c, request.state, request.signature, second);
  }

  /** A request reaches the ledger exactly when its state is intact and signed as expected, the clock
      shows it in time both when it is checked and when its payload is printed, and its topic id can be
      read. So an expired request, or one with another request id, never lands anything. */
  lemma AttemptIff(c: Codec, request: CsmSubmitRequest, topics: TopicIds, first: Result<int, DidError>,
                   second: Result<int, DidError>)
    ensures var st := request.state;
      Attempt(c, request, topics, first, second).Ok? <==>
      && Intact(c, st) && SignedAsExpected(c, st, request.signature)
      && Unexpired(st.expiresAtUnix, first) && Unexpired(st.expiresAtUnix, second)
      && topics(st.topicId).Some?
    ensures request.state.ValidateForSubmit(c, request.signature, first).Ok? && topics(request.state.topicId).None? ==>
      Attempt(c, request, topics, first, second) == Err(InvalidDid)
  {
    ValidForSubmitIff(c, request.state, request.signature, first);
    ValidForSubmitIff(c, request.state, request.signature, second);
  }

  /** Over a whole batch: whatever landed was intact, signed as expected and in time at both readings. */
  lemma LandedWasInTime(c: Codec, requests: seq<CsmSubmitRequest>, topics: TopicIds,
                        clock: nat -> Result<int, DidError>, outcomes: nat -> SubmitOutcome)
    ensures var landed := SubmitEach(Attempts(c, requests, topics, clock), outcomes).0;
      && |landed| <= |requests|
      && forall k :: 0 <= k < |landed| ==>
           && Intact(c, requests[k].state) && SignedAsExpected(c, requests[k].state, requests[k].signature)
           && Unexpired(requests[k].state.expiresAtUnix, clock(2 * k))
           && Unexpired(requests[k].state.expiresAtUnix, clock(2 * k + 1))
           && topics(requests[k].state.topicId) == Some(landed[k].0)
  {
    var attempts := Attempts(c, requests, topics, clock);
    var landed := SubmitEach(attempts, outcomes).0;
    EachLandsInOrder(attempts, outcomes);
    forall k | 0 <= k < |landed|
      ensures Intact(c, requests[k].state) && SignedAsExpected(c, requests[k].state, requests[k].signature)
      ensures Unexpired(requests[k].state.expiresAtUnix, clock(2 * k))
      ensures Unexpired(requests[k].state.expiresAtUnix, clock(2 * k + 1))
      ensures topics(requests[k].state.topicId) == Some(landed[k].0)
    {
      assert attempts[k] == AttemptAt(c, requests, topics, clock, k);
      AttemptIff(c, requests[k], topics, clock(2 * k), clock(2 * k + 1));
      AttemptIsPayload(c, requests[k], topics, clock(2 * k), clock(2 * k + 1));
    }
  }

  lemma RebuiltOperation(m: CsmMessageState)
    requires m.Rebuild().Ok?
    ensures m.Rebuild().value.Operation()
      == if m.OwnerState? then "create" else if m.DeactivateState? then "delete" else "update"
  {
  }

  /** The label does not say what is submitted: the envelope that an accepted request puts on the
      topic, and the DID it names, are those of the state's message. */
  lemma SubmittedAsUpdateIff(c: Codec, request: CsmSubmitRequest, topics: TopicIds, first: Result<int, DidError>,
                             second: Result<int, DidError>)
    requires TextLaws(c) && Attempt(c, request, topics, first, second).Ok?
    ensures request.state.message.Rebuild().Ok?
    ensures ParseEnvelope(c, Attempt(c, request, topics, first, second).value.1).Some?
    ensures var m := request.state.message;
      var e := ParseEnvelope(c, Attempt(c, request, topics, first, second).value.1).value;
      && e.message.did == m.Rebuild().value.DidText()
      && (e.message.operation == "update" <==> !m.OwnerState? && !m.DeactivateState?)
      && (e.message.operation == "delete" <==> m.DeactivateState?)
  {
    AttemptIsPayload(c, request, topics, first, second);
    RebuiltOperation(request.state.message);
    PayloadRoundTrip(c, request.state.message.Rebuild().value, request.signature);
  }

  lemma StateIsAccepted(c: Codec, st: CsmOperationState, w: WriterMessage, topicId: string, privateKey: Bytes,
                        topics: TopicIds, first: int, second: int)
    requires SignsFor(c, privateKey) && topics(topicId).Some? && st.SigningRequest(c).Ok?
    requires Prepares(c, st.SigningRequest(c).value, w, topicId, c.publicKey(privateKey), st.operation, None)
    ensures Attempt(c, CsmSubmitRequest(st, c.sign(privateKey, st.messageBytes)), topics, Ok(first), Ok(second))
      == Ok((topics(topicId).value, SignedPayload(c, w, privateKey)))
  {
    PreparedAttempt(c, st.SigningRequest(c).value, w, topicId, privateKey, st.operation, None, topics, first, second);
  }

  /** A deactivation under the label of an update, for any DID text and topic. */
  function LabelledState(c: Codec, named: string, topicId: string, did: HederaDid, timestamp: string, key: Bytes)
    : Result<CsmOperationState, DidError>
  {
    BuildState(c, named, topicId, "update", DeactivateState(did.ToString(), timestamp), key, None)
  }

  lemma LabelledAttempt(c: Codec, did: HederaDid, privateKey: Bytes, named: string, topicId: string,
                        timestamp: string, topics: TopicIds, first: int, second: int)
    requires SignsFor(c, privateKey) && Printable(did) && topics(topicId).Some?
    ensures var built := LabelledState(c, named, topicId, did, timestamp, c.publicKey(privateKey));
      && built.Ok? && built.value.operation == "update" && built.value.did == named
      && Attempt(c, CsmSubmitRequest(built.value, c.sign(privateKey, built.value.messageBytes)), topics, Ok(first),
                 Ok(second)) == Ok((topics(topicId).value, SignedPayload(c, DidDeactivate(did, timestamp), privateKey)))
  {
    var w, m := DidDeactivate(did, timestamp), DeactivateState(did.ToString(), timestamp);
    ParseOfPrint(did);
    DeactivateStateRebuilds(did.ToString(), did, timestamp);
    BuiltStatePrepares(c, named, topicId, "update", m, c.publicKey(privateKey), None, w);
    var st := LabelledState(c, named, topicId, did, timestamp, c.publicKey(privateKey)).value;
    StateIsAccepted(c, st, w, topicId, privateKey, topics, first, second);
  }

  /** A state labelled as an update that carries a deactivation, under any DID text and for any topic.
      Its request passes every check, and the delete it lands on the DID's log takes effect. */
  lemma LabelledUpdateDeactivates(c: Codec, did: HederaDid, log: seq<string>, a: Record, privateKey: Bytes,
                                  named: string, topicId: string, timestamp: string, topics: TopicIds, first: int,
                                  second: int)
    requires TextLaws(c) && SignsFor(c, privateKey) && a.key == c.publicKey(privateKey) && OnRecord(c, did, log, a)
    requires Printable(did) && topics(topicId).Some?
    ensures LabelledState(c, named, topicId, did, timestamp, a.key).Ok?
    ensures var st := LabelledState(c, named, topicId, did, timestamp, a.key).value;
      var attempt := Attempt(c, CsmSubmitRequest(st, c.sign(privateKey, st.messageBytes)), topics, Ok(first),
                             Ok(second));
      && st.operation == "update" && st.did == named
      && attempt.Ok? && attempt.value.0 == topics(topicId).value
      && ResolveView(c, did, log + [attempt.value.1]) == Ok(Tombstone(did, a))
  {
    LabelledAttempt(c, did, privateKey, named, topicId, timestamp, topics, first, second);
    DeleteIsReadIff(c, did, log, a, timestamp, c.sign(privateKey, DidDeactivate(did, timestamp).MessageBytes(c)));
  }

  // ---------------------------------------------------------------- the same log as the direct path

  /** The owner signs each request over the bytes it was handed. */
  function OwnSignatures(c: Codec, requests: seq<CsmSigningRequest>, privateKey: Bytes): (s: seq<Bytes>)
    ensures |s| == |requests| && forall k :: 0 <= k < |s| ==> s[k] == c.sign(privateKey, requests[k].messageBytes)
  {
    seq(|requests|, k requires 0 <= k < |requests| => c.sign(privateKey, requests[k].messageBytes))
  }

  /** The submit requests that come of it. */
  function SignedBatch(c: Codec, requests: seq<CsmSigningRequest>, privateKey: Bytes): (s: seq<CsmSubmitRequest>)
    ensures |s| == |requests|
    ensures forall k :: 0 <= k < |s| ==>
      s[k] == CsmSubmitRequest(requests[k].state, c.sign(privateKey, requests[k].messageBytes))
  {
    seq(|requests|, k requires 0 <= k < |requests| =>
      CsmSubmitRequest(requests[k].state, c.sign(privateKey, requests[k].messageBytes)))
  }

  /** Every reading of the clock succeeds and is not past the expiry. */
  ghost predicate InTime(clock: nat -> Result<int, DidError>, expiresAt: Option<int>) {
    forall k: nat :: clock(k).Ok? && (expiresAt.None? || clock(k).value <= expiresAt.value)
  }

  /** A prepared request, signed in time, puts the payload of its message on its topic. */
  lemma PreparedAttempt(c: Codec, r: CsmSigningRequest, w: WriterMessage, topicId: string, privateKey: Bytes,
                        operation: string, expiresAt: Option<int>, topics: TopicIds, first: int, second: int)
    requires SignsFor(c, privateKey) && topics(topicId).Some?
    requires Prepares(c, r, w, topicId, c.publicKey(privateKey), operation, expiresAt)
    requires expiresAt.None? || (first <= expiresAt.value && second <= expiresAt.value)
    ensures Attempt(c, CsmSubmitRequest(r.state, c.sign(privateKey, r.messageBytes)), topics, Ok(first), Ok(second))
      == Ok((topics(topicId).value, SignedPayload(c, w, privateKey)))
  {
    SignedElsewhere(c, r, w, topicId, privateKey, operation, expiresAt, first);
    SignedElsewhere(c, r, w, topicId, privateKey, operation, expiresAt, second);
  }

  /** One signed request of a prepared batch. */
  lemma SignedAttempt(c: Codec, r: CsmSigningRequest, did: HederaDid, op: UpdateOperation, timestamp: string,
                      privateKey: Bytes, expiresAt: Option<int>, topics: TopicIds, first: int, second: int)
    requires SignsFor(c, privateKey) && topics(did.topicId).Some?
    requires PreparesAt(c, r, did, op, timestamp, c.publicKey(privateKey), expiresAt)
    requires expiresAt.None? || (first <= expiresAt.value && second <= expiresAt.value)
    ensures Attempt(c, CsmSubmitRequest(r.state, c.sign(privateKey, r.messageBytes)), topics, Ok(first), Ok(second))
      == Ok((topics(did.topicId).value,
             SignedPayload(c, FromOperation(did.ToString(), op, timestamp).value, privateKey)))
  {
    var w := FromOperation(did.ToString(), op, timestamp).value;
    PreparedAttempt(c, r, w, did.topicId, privateKey, "update", expiresAt, topics, first, second);
  }

  lemma OwnPayloadSnoc(c: Codec, did: string, ops: seq<UpdateOperation>, stamps: nat -> string, privateKey: Bytes)
    requires SignsFor(c, privateKey) && ops != []
    requires |Payloads(c, did, ops[..|ops| - 1], stamps, InternalSigner(c, privateKey))| == |ops| - 1
    requires FromOperation(did, ops[|ops| - 1], stamps(|ops| - 1)).Ok?
    ensures Payloads(c, did, ops, stamps, InternalSigner(c, privateKey))
      == Payloads(c, did, ops[..|ops| - 1], stamps, InternalSigner(c, privateKey))
         + [SignedPayload(c, FromOperation(did, ops[|ops| - 1], stamps(|ops| - 1)).value, privateKey)]
  {
    OwnPayload(c, did, ops[|ops| - 1], stamps(|ops| - 1), privateKey);
    PayloadsSnoc(c, did, ops, stamps, InternalSigner(c, privateKey));
  }

  /** `p` is the signed payload of each operation, one by one. */
  ghost predicate ArePayloads(c: Codec, did: string, ops: seq<UpdateOperation>, stamps: nat -> string,
                              privateKey: Bytes, p: seq<string>)
  {
    && |p| == |ops|
    && forall k :: 0 <= k < |ops| ==>
         && FromOperation(did, ops[k], stamps(k)).Ok?
         && p[k] == SignedPayload(c, FromOperation(did, ops[k], stamps(k)).value, privateKey)
  }

  lemma ArePayloadsSnoc(c: Codec, did: string, ops: seq<UpdateOperation>, stamps: nat -> string, privateKey: Bytes,
                        p: seq<string>, last: string)
    requires ops != [] && ArePayloads(c, did, ops[..|ops| - 1], stamps, privateKey, p)
    requires FromOperation(did, ops[|ops| - 1], stamps(|ops| - 1)).Ok?
    requires last == SignedPayload(c, FromOperation(did, ops[|ops| - 1], stamps(|ops| - 1)).value, privateKey)
    ensures ArePayloads(c, did, ops, stamps, privateKey, p + [last])
  {
    assert forall k :: 0 <= k < |ops| - 1 ==> ops[..|ops| - 1][k] == ops[k];
  }

  lemma {:induction false} OwnPayloadAt(c: Codec, did: string, ops: seq<UpdateOperation>, stamps: nat -> string,
                                        privateKey: Bytes)
    requires SignsFor(c, privateKey)
    requires forall k :: 0 <= k < |ops| ==> FromOperation(did, ops[k], stamps(k)).Ok?
    ensures ArePayloads(c, did, ops, stamps, privateKey, Payloads(c, did, ops, stamps, InternalSigner(c, privateKey)))
    decreases |ops|
  {
    if ops != [] {
      var n := |ops| - 1;
      var init := ops[..n];
      assert forall k :: 0 <= k < n ==> init[k] == ops[k];
      OwnPayloadAt(c, did, init, stamps, privateKey);
      OwnPayloadSnoc(c, did, ops, stamps, privateKey);
      ArePayloadsSnoc(c, did, ops, stamps, privateKey, Payloads(c, did, init, stamps, InternalSigner(c, privateKey)),
        SignedPayload(c, FromOperation(did, ops[n], stamps(n)).value, privateKey));
    }
  }

  /** A prepared batch takes its owner's signatures back in time, all of them. */
  lemma PreparedBatchIsAccepted(c: Codec, r: CsmBatchSigningRequest, did: HederaDid, privateKey: Bytes,
                                ops: seq<UpdateOperation>, stamps: nat -> string, expiresAt: Option<int>,
                                clock: nat -> Result<int, DidError>)
    requires SignsFor(c, privateKey) && InTime(clock, expiresAt)
    requires BatchPrepared(c, r.requests, did, ops, stamps, c.publicKey(privateKey), expiresAt)
    ensures IntoBatch(c, r, OwnSignatures(c, r.requests, privateKey), clock)
      == Ok(SignedBatch(c, r.requests, privateKey))
  {
    var signatures := OwnSignatures(c, r.requests, privateKey);
    var batch := SignedBatch(c, r.requests, privateKey);
    var first := IntoBatchMeans(c, r, signatures, clock);
    forall k | 0 <= k < |r.requests|
      ensures r.requests[k].IntoSubmitRequest(c, signatures[k], clock(k)) == Ok(batch[k])
    {
      var w := FromOperation(did.ToString(), ops[k], stamps(k)).value;
      SignedElsewhere(c, r.requests[k], w, did.topicId, privateKey, "update", expiresAt, clock(k).value);
    }
    assert IntoBatch(c, r, signatures, clock).Ok?;
    assert IntoBatch(c, r, signatures, clock).value == batch;
  }

  /** Client-managed signing writes what the direct path writes: each request of a prepared batch,
      signed in time by the DID's own key, puts the payload of `update_did` on the same topic. */
  lemma CsmWritesWhatSignerWrites(c: Codec, did: HederaDid, privateKey: Bytes, ops: seq<UpdateOperation>,
                                  stamps: nat -> string, requests: seq<CsmSigningRequest>, expiresAt: Option<int>,
                                  topics: TopicIds, clock: nat -> Result<int, DidError>)
    requires SignsFor(c, privateKey) && topics(did.topicId).Some? && InTime(clock, expiresAt)
    requires BatchPrepared(c, requests, did, ops, stamps, c.publicKey(privateKey), expiresAt)
    ensures var p := Payloads(c, did.ToString(), ops, stamps, InternalSigner(c, privateKey));
      && |p| == |ops|
      && forall k :: 0 <= k < |ops| ==>
           Attempts(c, SignedBatch(c, requests, privateKey), topics, clock)[k] == Ok((topics(did.topicId).value, p[k]))
  {
    OwnPayloadAt(c, did.ToString(), ops, stamps, privateKey);
    forall k | 0 <= k < |ops|
      ensures Attempts(c, SignedBatch(c, requests, privateKey), topics, clock)[k]
        == Ok((topics(did.topicId).value, Payloads(c, did.ToString(), ops, stamps, InternalSigner(c, privateKey))[k]))
    {
      SignedAttempt(c, requests[k], did, ops[k], stamps(k), privateKey, expiresAt, topics, clock(2 * k).value,
        clock(2 * k + 1).value);
    }
  }

  /** The texts of ledger entries. */
  function Texts(entries: seq<(string, string)>): (t: seq<string>)
    ensures |t| == |entries| && forall k :: 0 <= k < |t| ==> t[k] == entries[k].1
  {
    seq(|entries|, k requires 0 <= k < |entries| => entries[k].1)
  }

  /** From any log on record whose key in force is the owner's: prepare, sign elsewhere, take the
      signatures back and submit; however the submission ends, a reader sees the record with
      exactly the operations that landed, as with the direct path. */
  lemma CsmReaderSeesPrefix(c: Codec, did: HederaDid, log: seq<string>, a: Record, privateKey: Bytes,
                            ops: seq<UpdateOperation>, stamps: nat -> string, r: CsmBatchSigningRequest,
                            expiresAt: Option<int>, signClock: nat -> Result<int, DidError>, topics: TopicIds,
                            clock: nat -> Result<int, DidError>, outcomes: nat -> SubmitOutcome)
    requires TextLaws(c) && SignsFor(c, privateKey) && a.key == c.publicKey(privateKey)
    requires OnRecord(c, did, log, a)
    requires topics(did.topicId).Some? && InTime(signClock, expiresAt) && InTime(clock, expiresAt)
    requires BatchPrepared(c, r.requests, did, ops, stamps, c.publicKey(privateKey), expiresAt)
    ensures IntoBatch(c, r, OwnSignatures(c, r.requests, privateKey), signClock).Ok?
    ensures var submits := IntoBatch(c, r, OwnSignatures(c, r.requests, privateKey), signClock).value;
      var landed := SubmitEach(Attempts(c, submits, topics, clock), outcomes).0;
      && |landed| <= |ops|
      && OnRecord(c, did, log + Texts(landed), Updated(did.ToString(), a, ops[..|landed|], stamps))
      && IsDocument(ResolveView(c, did, log + Texts(landed)), did, Updated(did.ToString(), a, ops[..|landed|], stamps))
  {
    PreparedBatchIsAccepted(c, r, did, privateKey, ops, stamps, expiresAt, signClock);
    CsmLandsPayloads(c, did, privateKey, ops, stamps, r.requests, expiresAt, topics, clock, outcomes);
    var landed := SubmitEach(Attempts(c, SignedBatch(c, r.requests, privateKey), topics, clock), outcomes).0;
    UpdateIsRead(c, did, log, a, privateKey, ops[..|landed|], stamps);
    assert ops[..|landed|][..|landed|] == ops[..|landed|];
    RecordIsRead(c, did, log + Texts(landed), Updated(did.ToString(), a, ops[..|landed|], stamps));
  }

  /** What lands of a prepared batch are the payloads of the first operations. */
  lemma CsmLandsPayloads(c: Codec, did: HederaDid, privateKey: Bytes, ops: seq<UpdateOperation>, stamps: nat -> string,
                         requests: seq<CsmSigningRequest>, expiresAt: Option<int>, topics: TopicIds,
                         clock: nat -> Result<int, DidError>, outcomes: nat -> SubmitOutcome)
    requires SignsFor(c, privateKey) && topics(did.topicId).Some? && InTime(clock, expiresAt)
    requires BatchPrepared(c, requests, did, ops, stamps, c.publicKey(privateKey), expiresAt)
    ensures var landed := SubmitEach(Attempts(c, SignedBatch(c, requests, privateKey), topics, clock), outcomes).0;
      && |landed| <= |ops|
      && Texts(landed) == Payloads(c, did.ToString(), ops[..|landed|], stamps, InternalSigner(c, privateKey))
      && |Texts(landed)| == |landed|
  {
    var attempts := Attempts(c, SignedBatch(c, requests, privateKey), topics, clock);
    var landed := SubmitEach(attempts, outcomes).0;
    EachLandsInOrder(attempts, outcomes);
    CsmWritesWhatSignerWrites(c, did, privateKey, ops, stamps, requests, expiresAt, topics, clock);
    PayloadsOfPrefix(c, did.ToString(), ops, stamps, InternalSigner(c, privateKey), |landed|);
    LandedTexts(attempts, landed, topics(did.topicId).value,
      Payloads(c, did.ToString(), ops, stamps, InternalSigner(c, privateKey)));
  }

  lemma LandedTexts(attempts: seq<Result<(string, string), DidError>>, landed: seq<(string, string)>, topicId: string,
                    p: seq<string>)
    requires |landed| <= |attempts| == |p|
    requires forall k :: 0 <= k < |landed| ==> attempts[k] == Ok(landed[k])
    requires forall k :: 0 <= k < |p| ==> attempts[k] == Ok((topicId, p[k]))
    ensures Texts(landed) == p[..|landed|]
  {
  }
}
