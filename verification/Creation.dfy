/**
 `create_did_with_signer` (`registrar/src/create.rs`) once its topic exists: the create message is signed
 by the lifecycle, which stores the signature in it, and submitted with retries.
 */
module Creation {
  import opened Wrappers
  import opened Codec
  import opened Did
  import opened Messages
  import opened DidLog
  import opened LogShape
  import opened Operations
  import opened Ledger
  import opened Lifecycle
  import opened Registrar
  import Runners = LifecycleRunner

  const MAX_RETRIES: nat := 3

  // ---------------------------------------------------------------- signing

  /** `DIDOwnerMessage` with the signature that the lifecycle puts into it. */
  datatype SignedMessage = SignedMessage(message: WriterMessage, signature: Option<Bytes>)

  function CreateTrait(c: Codec): MessageTrait<SignedMessage> {
    MessageTrait((m: SignedMessage) => Ok(m.message.MessageBytes(c)),
      (m: SignedMessage, signature: Bytes) => (m.(signature := Some(signature)), None))
  }

  function CreateBuilder(): Builder<SignedMessage, Unit, Unit> {
    EmptyBuilder<SignedMessage, Unit, Unit>().AddSignWithSigner(SIGN_STEP).Extract()
  }

  /** `sign_message`: the payload carries the signature found in the message the lifecycle hands back. */
  method SignMessage(c: Codec, w: WriterMessage, signer: Signer) returns (r: Result<string, DidError>)
    ensures r == match signer(w.MessageBytes(c))
                 case Err(e) => Err(e)
                 case Ok(signature) =>
                   if |signature| == 64 then Ok(w.ToPayload(c, signature)) else Err(InvalidArgument)
  {
    var runner := new Runners.LifecycleRunner(CreateBuilder(), CreateTrait(c));
    SignedByLifecycle(c, w, signer);
    var state, world := runner.Process(SignedMessage(w, None), Unit, Segment(Some(signer), None), Unit);
    if state.Err? {
      return Err(state.error);
    }
    var signed := state.value.message;
    if signed.signature.None? {
      return Err(InternalError);
    }
    return Ok(signed.message.ToPayload(c, signed.signature.value));
  }

  /** The lifecycle succeeds with the message signed by the signer, or fails as the signer does. */
  lemma SignedByLifecycle(c: Codec, w: WriterMessage, signer: Signer)
    ensures Lifecycle.Process(Runner(CreateBuilder(), map[], CreateTrait(c)), SignedMessage(w, None), Unit,
                              Segment(Some(signer), None), Unit).0
      == match signer(w.MessageBytes(c))
         case Err(e) => Err(e)
         case Ok(signature) =>
           if |signature| == 64
           then Ok(RunnerState(SignedMessage(w, Some(signature)), Unit, Success, -1, "", None))
           else Err(InvalidArgument)
  {
    var r := Runner(CreateBuilder(), map[], CreateTrait(c));
    var s := Machine(SignedMessage(w, None), Unit, None, Unit);
    assert r.builder.steps == [Step(SIGN_STEP, SignWithSigner, None)];
    var (s', error) := RunStep(r, r.builder.steps[0], Some(signer), s);
    assert ExecuteSteps(r, 1, Some(signer), s') == (s', Ended);
  }

  // ---------------------------------------------------------------- submitting

  /** How one attempt ends. A failed execution is retried although it may have landed after all; a lost
      receipt is not. */
  datatype AttemptOutcome = Received | ReceiptFailed(landed: bool) | ExecuteFailed(landed: bool) {
    function AsSubmission(): SubmitOutcome {
      match this
      case Received => Acknowledged
      case ReceiptFailed(landed) => ReceiptLost(landed)
      case ExecuteFailed(landed) => if landed then ReceiptLost(true) else NotSent
    }
  }

  /** Attempt `k` is made: all before it failed to execute. */
  predicate IsMade(outcomes: nat -> AttemptOutcome, k: nat) {
    k < 3 && forall j :: 0 <= j < k ==> outcomes(j).ExecuteFailed?
  }

  /** How many of the first `n` attempts were made and landed. */
  function Landings(outcomes: nat -> AttemptOutcome, n: nat): (k: nat)
    ensures k <= n
  {
    if n == 0 then 0
    else Landings(outcomes, n - 1)
         + if IsMade(outcomes, n - 1) && (outcomes(n - 1).Received? || outcomes(n - 1).landed) then 1 else 0
  }

  function Copies(payload: string, k: nat): (log: seq<string>)
    ensures |log| == k && forall i :: 0 <= i < k ==> log[i] == payload
  {
    seq(k, _ => payload)
  }

  lemma {:induction false} NotMadeAfter(outcomes: nat -> AttemptOutcome, n: nat, m: nat)
    requires n <= m && !IsMade(outcomes, n)
    ensures Landings(outcomes, m) == Landings(outcomes, n)
    decreases m
  {
    if n < m { NotMadeAfter(outcomes, n, m - 1); }
  }

  /** `submit_with_retry`. */
  method SubmitWithRetry(topic: Topic<string>, payload: string, outcomes: nat -> AttemptOutcome)
    returns (r: Result<Unit, DidError>)
    modifies topic
    ensures topic.log == old(topic.log) + Copies(payload, Landings(outcomes, 3))
    ensures r == if exists k :: IsMade(outcomes, k) && outcomes(k).Received? then Ok(Unit) else Err(InternalError)
  {
    var attempt := 0;
    while attempt < MAX_RETRIES
      invariant 0 <= attempt <= MAX_RETRIES
      invariant forall j :: 0 <= j < attempt ==> outcomes(j).ExecuteFailed?
      invariant topic.log == old(topic.log) + Copies(payload, Landings(outcomes, attempt))
    {
      var submitted := topic.Submit(payload, outcomes(attempt).AsSubmission());
      ghost var k := Landings(outcomes, attempt);
      assert Copies(payload, k + 1) == Copies(payload, k) + [payload];
      assert IsMade(outcomes, attempt);
      if !outcomes(attempt).ExecuteFailed? {
        assert !IsMade(outcomes, attempt + 1);
        NotMadeAfter(outcomes, attempt + 1, 3);
        return if submitted.Ok? then Ok(Unit) else Err(InternalError);
      }
      attempt := attempt + 1;
    }
    return Err(InternalError);
  }

  /** `create_did_with_signer`, given the outcome of creating the topic. */
  method CreateDidWithSigner(c: Codec, topic: Topic<string>, network: Network, controller: Option<string>, key: Bytes,
                             signer: Signer, created: Result<string, DidError>, timestamp: string,
                             outcomes: nat -> AttemptOutcome)
    returns (r: Result<HederaDid, DidError>)
    modifies topic
    ensures created.Err? ==> r == Err(created.error) && topic.log == old(topic.log)
    ensures created.Ok? ==>
      var did := HederaDid(network, c.encode58(key), created.value);
      var w := CreateMessage(did, key, controller, timestamp);
      var signed := signer(w.MessageBytes(c));
      if signed.Err? || |signed.value| != 64 then
        r == Err(if signed.Err? then signed.error else InvalidArgument) && topic.log == old(topic.log)
      else
        && topic.log == old(topic.log) + Copies(w.ToPayload(c, signed.value), Landings(outcomes, 3))
        && r == if exists k :: IsMade(outcomes, k) && outcomes(k).Received? then Ok(did) else Err(InternalError)
  {
    var topicId :- created;
    var did := HederaDid(network, c.encode58(key), topicId);
    var message := CreateMessage(did, key, controller, timestamp);
    var payload :- SignMessage(c, message, signer);
    var submitted :- SubmitWithRetry(topic, payload, outcomes);
    return Ok(did);
  }

  // ---------------------------------------------------------------- what readers see

  /** No failed execution landed after all. */
  ghost predicate NoStrays(outcomes: nat -> AttemptOutcome) {
    forall k :: outcomes(k).ExecuteFailed? ==> !outcomes(k).landed
  }

  lemma {:induction false} NothingBefore(outcomes: nat -> AttemptOutcome, n: nat)
    requires NoStrays(outcomes) && forall j :: 0 <= j < n ==> outcomes(j).ExecuteFailed?
    ensures Landings(outcomes, n) == 0
  {
    if n > 0 { NothingBefore(outcomes, n - 1); }
  }

  /** A success has landed at least once; without strays nothing lands twice. */
  lemma {:induction false} HowOftenItLands(outcomes: nat -> AttemptOutcome, n: nat)
    ensures (exists k :: 0 <= k < n && IsMade(outcomes, k) && outcomes(k).Received?) ==> Landings(outcomes, n) >= 1
    ensures NoStrays(outcomes) ==> Landings(outcomes, n) <= 1
  {
    if n > 0 {
      HowOftenItLands(outcomes, n - 1);
      if NoStrays(outcomes) && IsMade(outcomes, n - 1) { NothingBefore(outcomes, n - 1); }
    }
  }

  lemma OneMoreCopy(x: Subject, payload: string, k: nat)
    ensures Fold(x, Copies(payload, k + 1)) == Next(x, Fold(x, Copies(payload, k)), payload)
  {
    assert Copies(payload, k + 1) == Copies(payload, k) + [payload];
    FoldSnoc(x, Copies(payload, k), payload);
  }

  /** However often a message was repeated, it reads as one. */
  lemma {:induction false} CopiesReadAsOne(x: Subject, payload: string, k: nat)
    requires ValidKey(x.c, x.anchor)
    ensures Fold(x, Copies(payload, k + 1)) == Fold(x, Copies(payload, 1))
  {
    if k > 0 {
      CopiesReadAsOne(x, payload, k - 1);
      OneMoreCopy(x, payload, k);
      OneMoreCopy(x, payload, 0);
      StepTwice(x, Fold(x, Copies(payload, 0)), payload);
    }
  }

  /** The new document, letter by letter: one method, in two relationships, and no service. */
  lemma NewDocumentIs(c: Codec, did: HederaDid, key: Bytes, controller: Option<string>, created: string)
    ensures var a := NewRecord(c, did, key, controller, created);
      var root := did.ToString() + "#did-root-key";
      && a.key == key && a.created == created && a.updated == created
      && a.controller == (if controller.Some? then controller.value else did.ToString())
      && a.doc.services == map[] && a.doc.references == {(Authentication, root), (AssertionMethod, root)}
      && a.doc.methods == map[root := VerificationMethod(root, "Ed25519VerificationKey2020", a.controller,
                                                         "z" + c.encode58([0xed, 0x01] + key))]
  {
  }

  /** What readers see of a creation signed by a proper key, however its attempts end: nothing, or the
      new document, even if it landed more than once; the document for certain if the call succeeded. */
  lemma CreatedIsRead(c: Codec, did: HederaDid, privateKey: Bytes, controller: Option<string>, created: string,
                      outcomes: nat -> AttemptOutcome)
    requires TextLaws(c) && Base58Law(c) && SignsFor(c, privateKey) && OwnKey(c, did, privateKey)
    ensures var k := Landings(outcomes, 3);
      var w := CreateMessage(did, c.publicKey(privateKey), controller, created);
      var log := Copies(SignedPayload(c, w, privateKey), k);
      && ((exists j :: IsMade(outcomes, j) && outcomes(j).Received?) ==> k >= 1)
      && (NoStrays(outcomes) ==> k <= 1)
      && if k == 0 then ResolveView(c, did, log) == Err(NotFound)
         else
           var a := NewRecord(c, did, c.publicKey(privateKey), controller, created);
           OnRecord(c, did, log, a) && IsDocument(ResolveView(c, did, log), did, a)
  {
    HowOftenItLands(outcomes, 3);
    OwnAnchor(c, did, privateKey);
    if Landings(outcomes, 3) > 0 {
      CopiesAreOnRecord(c, did, privateKey, controller, created, Landings(outcomes, 3) - 1);
    } else {
      NothingIsNotFound(c, did,
        Copies(SignedPayload(c, CreateMessage(did, c.publicKey(privateKey), controller, created), privateKey), 0));
    }
  }

  lemma NothingIsNotFound(c: Codec, did: HederaDid, log: seq<string>)
    requires AnchorOf(c, did).Ok? && log == []
    ensures ResolveView(c, did, log) == Err(NotFound)
  {
  }

  lemma CopiesAreOnRecord(c: Codec, did: HederaDid, privateKey: Bytes, controller: Option<string>, created: string,
                          more: nat)
    requires TextLaws(c) && Base58Law(c) && SignsFor(c, privateKey) && OwnKey(c, did, privateKey)
    ensures var w := CreateMessage(did, c.publicKey(privateKey), controller, created);
      var log := Copies(SignedPayload(c, w, privateKey), more + 1);
      var a := NewRecord(c, did, c.publicKey(privateKey), controller, created);
      OnRecord(c, did, log, a) && IsDocument(ResolveView(c, did, log), did, a)
  {
    var payload := SignedPayload(c, CreateMessage(did, c.publicKey(privateKey), controller, created), privateKey);
    OwnAnchor(c, did, privateKey);
    NewDidIsOnRecord(c, did, privateKey, controller, created);
    assert Copies(payload, 1) == CreateLog(c, did, privateKey, controller, created);
    CopiesReadAsOne(Subject(c, did.ToString(), c.publicKey(privateKey)), payload, more);
    RecordIsRead(c, did, Copies(payload, more + 1),
      NewRecord(c, did, c.publicKey(privateKey), controller, created));
  }
}
