/**
 What readers make of messages that some other key signed: one rotated out (`registrar/src/update.rs`,
 `registrar/src/deactivate.rs`), or the one inside the DID, which client-managed signing expects for ever
 (`registrar/src/update_csm.rs`, `registrar/src/deactivate_csm.rs`).
 */
module RotatedOut {
  import opened Wrappers
  import opened Codec
  import opened Did
  import opened Keys
  import opened Messages
  import opened DidLog
  import opened LogSafety
  import opened Operations
  import opened Ledger
  import opened Registrar
  import opened Updates
  import opened Deactivation
  import opened Csm
  import opened CsmSubmit

  // ---------------------------------------------------------------- any signer

  /** What `privateKey` signs of an operation verifies under `key`. */
  predicate Counts(c: Codec, did: string, key: Bytes, privateKey: Bytes, op: UpdateOperation, timestamp: string) {
    match FromOperation(did, op, timestamp)
    case Ok(w) => Verifies(c, key, w.MessageBytes(c), c.sign(privateKey, w.MessageBytes(c)))
    case Err(_) => false
  }

  /** The record after one operation, which takes effect when it counts under the record's key. */
  function CountedOne(c: Codec, did: string, a: Record, privateKey: Bytes, op: UpdateOperation, timestamp: string)
    : (r: Record)
    ensures r.key == a.key
  {
    if Counts(c, did, a.key, privateKey, op, timestamp)
    then a.(doc := Perform(did, a.doc, op), updated := timestamp)
    else a
  }

  /** The record after those operations that count. */
  function Counted(c: Codec, did: string, a: Record, privateKey: Bytes, ops: seq<UpdateOperation>,
                   clock: nat -> string): (r: Record)
    ensures r.key == a.key
  {
    if ops == [] then a
    else
      var n := |ops| - 1;
      CountedOne(c, did, Counted(c, did, a, privateKey, ops[..n], clock), privateKey, ops[n], clock(n))
  }

  lemma CountedOneIsFollowed(x: Subject, log: seq<string>, p: seq<string>, a: Record, privateKey: Bytes,
                             op: UpdateOperation, timestamp: string)
    requires TextLaws(x.c) && Follows(x, Fold(x, log + p), a) && FromOperation(x.did, op, timestamp).Ok?
    ensures var payload := SignedPayload(x.c, FromOperation(x.did, op, timestamp).value, privateKey);
      Follows(x, Fold(x, log + (p + [payload])), CountedOne(x.c, x.did, a, privateKey, op, timestamp))
  {
    var w := FromOperation(x.did, op, timestamp).value;
    var payload := SignedPayload(x.c, w, privateKey);
    assert log + (p + [payload]) == (log + p) + [payload];
    FoldSnoc(x, log + p, payload);
    OperationIsRead(x, Fold(x, log + p), a, op, timestamp, x.c.sign(privateKey, w.MessageBytes(x.c)));
  }

  lemma {:induction false} CountedIsFollowed(x: Subject, log: seq<string>, a: Record, privateKey: Bytes,
                                             ops: seq<UpdateOperation>, clock: nat -> string)
    requires TextLaws(x.c) && SignsFor(x.c, privateKey) && Follows(x, Fold(x, log), a)
    requires |Payloads(x.c, x.did, ops, clock, InternalSigner(x.c, privateKey))| == |ops|
    ensures Follows(x, Fold(x, log + Payloads(x.c, x.did, ops, clock, InternalSigner(x.c, privateKey))),
                    Counted(x.c, x.did, a, privateKey, ops, clock))
    decreases |ops|
  {
    if ops == [] {
      assert log + [] == log;
    } else {
      var n := |ops| - 1;
      var before := Payloads(x.c, x.did, ops[..n], clock, InternalSigner(x.c, privateKey));
      PayloadsStep(x.c, x.did, ops, clock, InternalSigner(x.c, privateKey));
      OwnPayloadsSnoc(x.c, x.did, ops, clock, privateKey);
      CountedIsFollowed(x, log, a, privateKey, ops[..n], clock);
      CountedOneIsFollowed(x, log, before, Counted(x.c, x.did, a, privateKey, ops[..n], clock), privateKey, ops[n],
        clock(n));
    }
  }

  /** What any signer writes, whatever key is in force: from any log on record, an update signed by
      `privateKey`, however interrupted, leads readers to the record with exactly those operations
      performed that landed and verify under the key in force. */
  lemma AnySignerIsRead(c: Codec, did: HederaDid, log: seq<string>, a: Record, privateKey: Bytes,
                        ops: seq<UpdateOperation>, clock: nat -> string, outcomes: nat -> SubmitOutcome)
    requires TextLaws(c) && SignsFor(c, privateKey) && OnRecord(c, did, log, a)
    ensures var landed := UpdateOutcome(c, did.ToString(), ops, clock, InternalSigner(c, privateKey), outcomes).0;
      && |landed| <= |ops|
      && OnRecord(c, did, log + landed, Counted(c, did.ToString(), a, privateKey, ops[..|landed|], clock))
      && IsDocument(ResolveView(c, did, log + landed), did,
                    Counted(c, did.ToString(), a, privateKey, ops[..|landed|], clock))
  {
    var x := Subject(c, did.ToString(), AnchorOf(c, did).value);
    UpdateLandsPrefix(c, x.did, ops, clock, InternalSigner(c, privateKey), outcomes);
    var landed := UpdateOutcome(c, x.did, ops, clock, InternalSigner(c, privateKey), outcomes).0;
    CountedIsFollowed(x, log, a, privateKey, ops[..|landed|], clock);
    RecordIsRead(c, did, log + landed, Counted(c, x.did, a, privateKey, ops[..|landed|], clock));
  }

  /** Client-managed or direct, there is no difference: a prepared batch, signed elsewhere with
      `privateKey` and taken back in time, is accepted and submitted whatever key is in force, and
      leads readers to the record with those operations performed that landed and count. */
  lemma CsmAnySignerIsRead(c: Codec, did: HederaDid, log: seq<string>, a: Record, privateKey: Bytes,
                           ops: seq<UpdateOperation>, stamps: nat -> string, r: CsmBatchSigningRequest,
                           expiresAt: Option<int>, signClock: nat -> Result<int, DidError>, topics: TopicIds,
                           clock: nat -> Result<int, DidError>, outcomes: nat -> SubmitOutcome)
    requires TextLaws(c) && SignsFor(c, privateKey) && OnRecord(c, did, log, a)
    requires topics(did.topicId).Some? && InTime(signClock, expiresAt) && InTime(clock, expiresAt)
    requires BatchPrepared(c, r.requests, did, ops, stamps, c.publicKey(privateKey), expiresAt)
    ensures IntoBatch(c, r, OwnSignatures(c, r.requests, privateKey), signClock).Ok?
    ensures var submits := IntoBatch(c, r, OwnSignatures(c, r.requests, privateKey), signClock).value;
      var landed := SubmitEach(Attempts(c, submits, topics, clock), outcomes).0;
      && |landed| <= |ops|
      && OnRecord(c, did, log + Texts(landed), Counted(c, did.ToString(), a, privateKey, ops[..|landed|], stamps))
      && IsDocument(ResolveView(c, did, log + Texts(landed)), did,
                    Counted(c, did.ToString(), a, privateKey, ops[..|landed|], stamps))
  {
    var x := Subject(c, did.ToString(), AnchorOf(c, did).value);
    PreparedBatchIsAccepted(c, r, did, privateKey, ops, stamps, expiresAt, signClock);
    CsmLandsPayloads(c, did, privateKey, ops, stamps, r.requests, expiresAt, topics, clock, outcomes);
    var landed := SubmitEach(Attempts(c, SignedBatch(c, r.requests, privateKey), topics, clock), outcomes).0;
    CountedIsFollowed(x, log, a, privateKey, ops[..|landed|], stamps);
    RecordIsRead(c, did, log + Texts(landed), Counted(c, x.did, a, privateKey, ops[..|landed|], stamps));
  }

  // ---------------------------------------------------------------- a signer that no longer counts

  /** None of the operations, signed by `privateKey`, verifies under `key`. */
  ghost predicate NoneCounts(c: Codec, did: string, key: Bytes, privateKey: Bytes, ops: seq<UpdateOperation>,
                             clock: nat -> string)
  {
    forall k :: 0 <= k < |ops| ==> !Counts(c, did, key, privateKey, ops[k], clock(k))
  }

  lemma {:induction false} NothingCounted(c: Codec, did: string, a: Record, privateKey: Bytes,
                                          ops: seq<UpdateOperation>, clock: nat -> string)
    requires NoneCounts(c, did, a.key, privateKey, ops, clock)
    ensures Counted(c, did, a, privateKey, ops, clock) == a
    decreases |ops|
  {
    if ops != [] { NothingCounted(c, did, a, privateKey, ops[..|ops| - 1], clock); }
  }

  /** Two resolutions with the same record are the same. */
  lemma SameRecordSameResolution(r: Result<View, DidError>, s: Result<View, DidError>, did: HederaDid, a: Record)
    requires IsDocument(r, did, a) && IsDocument(s, did, a)
    ensures r == s
  {
    ContentIsDocument(r, s, did, a, a);
  }

  lemma PayloadsAreIgnored(c: Codec, did: HederaDid, log: seq<string>, a: Record, privateKey: Bytes,
                           ops: seq<UpdateOperation>, clock: nat -> string, k: nat)
    requires TextLaws(c) && SignsFor(c, privateKey) && OnRecord(c, did, log, a) && k <= |ops|
    requires NoneCounts(c, did.ToString(), a.key, privateKey, ops, clock)
    requires |Payloads(c, did.ToString(), ops[..k], clock, InternalSigner(c, privateKey))| == k
    ensures ResolveView(c, did, log + Payloads(c, did.ToString(), ops[..k], clock, InternalSigner(c, privateKey)))
      == ResolveView(c, did, log)
  {
    var x := Subject(c, did.ToString(), AnchorOf(c, did).value);
    var p := Payloads(c, x.did, ops[..k], clock, InternalSigner(c, privateKey));
    CountedIsFollowed(x, log, a, privateKey, ops[..k], clock);
    NothingCounted(c, x.did, a, privateKey, ops[..k], clock);
    RecordIsRead(c, did, log, a);
    RecordIsRead(c, did, log + p, a);
    SameRecordSameResolution(ResolveView(c, did, log + p), ResolveView(c, did, log), did, a);
  }

  /** Updating with such a key is acknowledged and counted, and no reader ever notices. */
  lemma UpdateIsIgnored(c: Codec, did: HederaDid, log: seq<string>, a: Record, privateKey: Bytes,
                        ops: seq<UpdateOperation>, clock: nat -> string, outcomes: nat -> SubmitOutcome)
    requires TextLaws(c) && SignsFor(c, privateKey) && OnRecord(c, did, log, a)
    requires NoneCounts(c, did.ToString(), a.key, privateKey, ops, clock)
    ensures var (landed, answer) :=
        UpdateOutcome(c, did.ToString(), ops, clock, InternalSigner(c, privateKey), outcomes);
      && ResolveView(c, did, log + landed) == ResolveView(c, did, log)
      && (answer.Ok? ==> |landed| == |ops| == answer.value.operationsApplied)
  {
    UpdateLandsPrefix(c, did.ToString(), ops, clock, InternalSigner(c, privateKey), outcomes);
    var landed := UpdateOutcome(c, did.ToString(), ops, clock, InternalSigner(c, privateKey), outcomes).0;
    PayloadsAreIgnored(c, did, log, a, privateKey, ops, clock, |landed|);
  }

  /** So is submitting a batch that such a key signed: every request of it is accepted and can land. */
  lemma CsmAfterRotation(c: Codec, did: HederaDid, log: seq<string>, a: Record, privateKey: Bytes,
                         ops: seq<UpdateOperation>, stamps: nat -> string, r: CsmBatchSigningRequest,
                         expiresAt: Option<int>, signClock: nat -> Result<int, DidError>, topics: TopicIds,
                         clock: nat -> Result<int, DidError>, outcomes: nat -> SubmitOutcome)
    requires TextLaws(c) && SignsFor(c, privateKey) && OnRecord(c, did, log, a)
    requires topics(did.topicId).Some? && InTime(signClock, expiresAt) && InTime(clock, expiresAt)
    requires BatchPrepared(c, r.requests, did, ops, stamps, c.publicKey(privateKey), expiresAt)
    requires NoneCounts(c, did.ToString(), a.key, privateKey, ops, stamps)
    ensures IntoBatch(c, r, OwnSignatures(c, r.requests, privateKey), signClock).Ok?
    ensures var submits := IntoBatch(c, r, OwnSignatures(c, r.requests, privateKey), signClock).value;
      var attempts := Attempts(c, submits, topics, clock);
      var (landed, acknowledged, error) := SubmitEach(attempts, outcomes);
      && |attempts| == |ops| && (forall k :: 0 <= k < |ops| ==> attempts[k].Ok?)
      && (error.None? ==> |landed| == |ops| == acknowledged)
      && ResolveView(c, did, log + Texts(landed)) == ResolveView(c, did, log)
  {
    var batch := SignedBatch(c, r.requests, privateKey);
    PreparedBatchIsAccepted(c, r, did, privateKey, ops, stamps, expiresAt, signClock);
    CsmWritesWhatSignerWrites(c, did, privateKey, ops, stamps, r.requests, expiresAt, topics, clock);
    CsmLandsPayloads(c, did, privateKey, ops, stamps, r.requests, expiresAt, topics, clock, outcomes);
    EachLandsInOrder(Attempts(c, batch, topics, clock), outcomes);
    var landed := SubmitEach(Attempts(c, batch, topics, clock), outcomes).0;
    PayloadsAreIgnored(c, did, log, a, privateKey, ops, stamps, |landed|);
  }

  // ---------------------------------------------------------------- the DID's own key, rotated out

  /** A DID that was created under `privateKey` and then handed to `next`. */
  function RotatedLog(c: Codec, did: HederaDid, privateKey: Bytes, next: Bytes, created: string, time: string)
    : seq<string>
  {
    CreateLog(c, did, privateKey, None, created)
    + [SignedPayload(c, CreateMessage(did, next, None, time), privateKey)]
  }

  function RotatedRecord(c: Codec, did: HederaDid, privateKey: Bytes, next: Bytes, created: string, time: string)
    : (a: Record)
    ensures a.key == next
  {
    Reowned(did, NewRecord(c, did, c.publicKey(privateKey), None, created), next, ToMultibase(c, next),
      did.ToString(), time)
  }

  lemma RotatedIsOnRecord(c: Codec, did: HederaDid, privateKey: Bytes, next: Bytes, created: string, time: string)
    requires TextLaws(c) && Base58Law(c) && SignsFor(c, privateKey) && OwnKey(c, did, privateKey)
    requires ValidKey(c, next)
    ensures OnRecord(c, did, RotatedLog(c, did, privateKey, next, created, time),
                     RotatedRecord(c, did, privateKey, next, created, time))
    ensures IsDocument(ResolveView(c, did, RotatedLog(c, did, privateKey, next, created, time)), did,
                       RotatedRecord(c, did, privateKey, next, created, time))
  {
    NewDidIsOnRecord(c, did, privateKey, None, created);
    RotationMovesRecord(c, did, CreateLog(c, did, privateKey, None, created),
      NewRecord(c, did, c.publicKey(privateKey), None, created), privateKey, next, None, time);
    RecordIsRead(c, did, RotatedLog(c, did, privateKey, next, created, time),
      RotatedRecord(c, did, privateKey, next, created, time));
  }

  /** Client-managed preparation asks for a signature of the key in the DID, rotated out or not. */
  lemma PreparationExpectsDidKey(c: Codec, did: HederaDid, privateKey: Bytes)
    requires Base58Law(c) && SignsFor(c, privateKey) && OwnKey(c, did, privateKey)
    ensures PublicKeyFromDid(c, did) == Ok(c.publicKey(privateKey))
  {
  }

  /** No signature of `privateKey` verifies under `next`. */
  ghost predicate NeverVerifies(c: Codec, next: Bytes, privateKey: Bytes) {
    forall m: Bytes :: !Verifies(c, next, m, c.sign(privateKey, m))
  }

  lemma NeverCounts(c: Codec, did: string, next: Bytes, privateKey: Bytes, ops: seq<UpdateOperation>,
                    clock: nat -> string)
    requires NeverVerifies(c, next, privateKey)
    ensures NoneCounts(c, did, next, privateKey, ops, clock)
  {
  }

  /** A prepared batch, signed in time, lands in full on a ledger that acknowledges everything. */
  lemma SignedBatchLands(c: Codec, did: HederaDid, privateKey: Bytes, ops: seq<UpdateOperation>, stamps: nat -> string,
                         r: CsmBatchSigningRequest, expiresAt: Option<int>, topics: TopicIds,
                         clock: nat -> Result<int, DidError>, outcomes: nat -> SubmitOutcome)
    requires SignsFor(c, privateKey) && topics(did.topicId).Some? && InTime(clock, expiresAt)
    requires BatchPrepared(c, r.requests, did, ops, stamps, c.publicKey(privateKey), expiresAt)
    requires forall k :: outcomes(k).Acknowledged?
    ensures IntoBatch(c, r, OwnSignatures(c, r.requests, privateKey), clock).Ok?
    ensures var submits := IntoBatch(c, r, OwnSignatures(c, r.requests, privateKey), clock).value;
      var (landed, acknowledged, error) := SubmitEach(Attempts(c, submits, topics, clock), outcomes);
      error.None? && |landed| == |ops| == acknowledged
  {
    var attempts := Attempts(c, SignedBatch(c, r.requests, privateKey), topics, clock);
    PreparedBatchIsAccepted(c, r, did, privateKey, ops, stamps, expiresAt, clock);
    CsmWritesWhatSignerWrites(c, did, privateKey, ops, stamps, r.requests, expiresAt, topics, clock);
    assert forall k :: 0 <= k < |attempts| ==> attempts[k].Ok?;
    AllAcknowledged(attempts, outcomes);
  }

  /** An input for it all: a DID is created and rotated, a batch is prepared as `PrepareUpdateDidCsm`
      prepares it, signed by the key asked for, accepted, submitted and acknowledged. Readers go on
      seeing the document as it was right after the rotation. */
  lemma RotatedBatchIsIgnored(c: Codec, did: HederaDid, privateKey: Bytes, next: Bytes, created: string, time: string,
                              ops: seq<UpdateOperation>, stamps: nat -> string, r: CsmBatchSigningRequest,
                              expiresAt: Option<int>, topics: TopicIds, clock: nat -> Result<int, DidError>,
                              outcomes: nat -> SubmitOutcome)
    requires TextLaws(c) && Base58Law(c) && SignsFor(c, privateKey) && OwnKey(c, did, privateKey)
    requires ValidKey(c, next) && NeverVerifies(c, next, privateKey)
    requires topics(did.topicId).Some? && InTime(clock, expiresAt) && forall k :: outcomes(k).Acknowledged?
    requires PublicKeyFromDid(c, did).Ok?
    requires BatchPrepared(c, r.requests, did, ops, stamps, PublicKeyFromDid(c, did).value, expiresAt)
    ensures IntoBatch(c, r, OwnSignatures(c, r.requests, privateKey), clock).Ok?
    ensures var submits := IntoBatch(c, r, OwnSignatures(c, r.requests, privateKey), clock).value;
      var (landed, acknowledged, error) := SubmitEach(Attempts(c, submits, topics, clock), outcomes);
      && error.None? && |landed| == |ops| == acknowledged
      && IsDocument(ResolveView(c, did, RotatedLog(c, did, privateKey, next, created, time) + Texts(landed)), did,
                    RotatedRecord(c, did, privateKey, next, created, time))
  {
    var log := RotatedLog(c, did, privateKey, next, created, time);
    var a := RotatedRecord(c, did, privateKey, next, created, time);
    RotatedIsOnRecord(c, did, privateKey, next, created, time);
    PreparationExpectsDidKey(c, did, privateKey);
    NeverCounts(c, did.ToString(), next, privateKey, ops, stamps);
    CsmAfterRotation(c, did, log, a, privateKey, ops, stamps, r, expiresAt, clock, topics, clock, outcomes);
    SignedBatchLands(c, did, privateKey, ops, stamps, r, expiresAt, topics, clock, outcomes);
  }

  // ---------------------------------------------------------------- client-managed deletes

  /** A client-managed delete asks for the DID's key too. What the caller may submit is accepted on
      that key's word alone; readers see the tombstone exactly when the signature also verifies under
      the key in force. */
  lemma CsmDeleteIsReadIff(c: Codec, did: HederaDid, log: seq<string>, a: Record, timestamp: string,
                           expiresAt: Option<int>, signature: Bytes, topics: TopicIds, first: Result<int, DidError>,
                           second: Result<int, DidError>)
    requires TextLaws(c) && OnRecord(c, did, log, a)
    requires PrepareDeactivate(c, did, timestamp, expiresAt).Ok?
    requires Attempt(c, CsmSubmitRequest(PrepareDeactivate(c, did, timestamp, expiresAt).value.state, signature),
                     topics, first, second).Ok?
    ensures var r := PrepareDeactivate(c, did, timestamp, expiresAt).value;
      var item := Attempt(c, CsmSubmitRequest(r.state, signature), topics, first, second).value;
      && Verifies(c, PublicKeyFromDid(c, did).value, r.messageBytes, signature)
      && topics(did.topicId) == Some(item.0)
      && ResolveView(c, did, log + [item.1])
           == if Verifies(c, a.key, r.messageBytes, signature) then Ok(Tombstone(did, a)) else ResolveView(c, did, log)
  {
    PreparedDeactivate(c, did, timestamp, expiresAt);
    var r := PrepareDeactivate(c, did, timestamp, expiresAt).value;
    AttemptIsPayload(c, CsmSubmitRequest(r.state, signature), topics, first, second);
    DeleteIsReadIff(c, did, log, a, timestamp, signature);
  }

  /** After the rotation a delete signed by the key asked for is accepted, and the document lives on. */
  lemma RotatedDeleteIsIgnored(c: Codec, did: HederaDid, privateKey: Bytes, next: Bytes, created: string, time: string,
                               timestamp: string, expiresAt: Option<int>, topics: TopicIds, now: int)
    requires TextLaws(c) && Base58Law(c) && SignsFor(c, privateKey) && OwnKey(c, did, privateKey)
    requires ValidKey(c, next) && NeverVerifies(c, next, privateKey)
    requires Printable(did) && topics(did.topicId).Some? && (expiresAt.None? || now <= expiresAt.value)
    ensures PrepareDeactivate(c, did, timestamp, expiresAt).Ok?
    ensures var r := PrepareDeactivate(c, did, timestamp, expiresAt).value;
      var signature := c.sign(privateKey, r.messageBytes);
      var submit := r.IntoSubmitRequest(c, signature, Ok(now));
      && submit.Ok? && Attempt(c, submit.value, topics, Ok(now), Ok(now)).Ok?
      && IsDocument(ResolveView(c, did, RotatedLog(c, did, privateKey, next, created, time)
                                        + [Attempt(c, submit.value, topics, Ok(now), Ok(now)).value.1]),
                    did, RotatedRecord(c, did, privateKey, next, created, time))
  {
    var log := RotatedLog(c, did, privateKey, next, created, time);
    var a := RotatedRecord(c, did, privateKey, next, created, time);
    RotatedIsOnRecord(c, did, privateKey, next, created, time);
    PreparationExpectsDidKey(c, did, privateKey);
    PreparedDeactivate(c, did, timestamp, expiresAt);
    var r := PrepareDeactivate(c, did, timestamp, expiresAt).value;
    var w := DidDeactivate(did, timestamp);
    SignedElsewhere(c, r, w, did.topicId, privateKey, "delete", expiresAt, now);
    PreparedAttempt(c, r, w, did.topicId, privateKey, "delete", expiresAt, topics, now, now);
    DeleteIsReadIff(c, did, log, a, timestamp, c.sign(privateKey, r.messageBytes));
  }

  /** Any request at all that client-managed signing accepts, on any log on record: its message is
      skipped exactly unless the signature verifies under the key in force, and then nothing changes. */
  lemma AcceptedPayloadOnRecord(c: Codec, did: HederaDid, log: seq<string>, a: Record, st: CsmOperationState,
                                signature: Bytes, now: Result<int, DidError>)
    requires TextLaws(c) && OnRecord(c, did, log, a) && st.ToPayload(c, signature, now).Ok?
    requires st.message.Rebuild().value.DidText() == did.ToString()
    ensures var raw := st.ToPayload(c, signature, now).value;
      var x := Subject(c, did.ToString(), AnchorOf(c, did).value);
      && (Foreign(x, a.key, raw) <==> !Verifies(c, a.key, st.messageBytes, signature))
      && (!Verifies(c, a.key, st.messageBytes, signature) ==>
            ResolveView(c, did, log + [raw]) == ResolveView(c, did, log))
  {
    var x := Subject(c, did.ToString(), AnchorOf(c, did).value);
    var raw := st.ToPayload(c, signature, now).value;
    FoldSnoc(x, log, raw);
    AcceptedPayloadIsRead(c, st, signature, now);
    if Foreign(x, a.key, raw) { ForeignIsSkipped(x, Fold(x, log), raw); }
  }
}
