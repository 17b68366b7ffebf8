# Verified model of the Hiero DID SDK for Rust

`did:hedera` is an event-sourced identity system. Writers append signed JSON messages to an
append-only Hedera topic; readers rebuild a DID document by folding the topic's log, trusting
only the key that is spelled inside the DID itself. The same topics carry AnonCreds objects:
files cut into chunks, and revocation lists kept as a log of differences.

This project models the parts of the SDK in which that design is decided, and proves what the
design promises: that strangers cannot change a resolution, that a reader sees exactly what the
owner wrote, that the past can be read back at any time, that caches and pauses are invisible.

`dafny verify dfyconfig.toml` checks the whole project (Dafny 4.11).

## How it is built

Where the Rust code changes variables step by step, the model has a class or a method with
loops, proved equal to a function of its inputs or of the old state; the theorems are lemmas
about those functions. Where the Rust code is matches and calls, the model is functions.

| module | models |
|---|---|
| `DidLog`, `Resolver` | the resolution fold, as one function per branch and as the loop over mutable maps |
| `LogSafety`, `LogMeaning`, `LogShape` | what the fold guarantees over every log |
| `Creation` | the create message: signed by the lifecycle, submitted with retries |
| `Operations`, `Registrar`, `Updates`, `Deactivation`, `Ledger` | update operations, rotation, deactivation, signing, submission, and the reader's view of them |
| `Disagreement` | owner events with either spelling of the key or with two different keys, as signed messages |
| `Csm`, `CsmSubmit` | client-managed signing: states that leave the process and come back signed |
| `RotatedOut` | what readers make of messages that another key than the one in force signed |
| `Revocation`, `TimeTravel`, `StaleReads` | the revocation registry as a log of differences |
| `TopicMessages`, `TopicReader`, `Cache`, `SharedCache`, `Sorting` | cached topic reads, the cache itself, and one cache shared by all topics |
| `HcsFile`, `FileCache` | files as chunks on a topic, and reading them through the cache |
| `Lifecycle`, `LifecycleRunner`, `LifecycleTraces` | the labelled step runner with pauses, hooks and a catch step, and its runs told as traces of states |
| `Did`, `DidUrl`, `Dereference`, `Identifiers`, `Keys` | identifiers, DID URLs and dereferencing |
| `Events`, `Messages`, `Codec` | event payloads, envelopes, and the external libraries |
| `Polling` | waiting for a mirror node to settle |
| `Text`, `Wrappers` | string operations of the standard library; `Option` and `Result` |

External libraries (serde_json, base64, bs58, zstd, SHA-256, Ed25519) are the fields of the
record `Codec.Codec`. What a theorem needs of them is a law it takes as a hypothesis:
`TextLaws` (JSON, UTF-8 and base64 read back what they wrote), `Base58Law`, `CompressionLaw`,
`HashLaw` (64 hexadecimal digits), `AsciiLaws` (base64 text is ASCII, one byte a character), and
`SignsFor` (a private key signs for its public key with
64-byte signatures, section 5.1 of RFC 8032). No theorem assumes that signatures cannot be
forged: "a stranger" is a message that does not verify. Decoded JSON is a field map, so the
ordered choice among event variants is the model's own.

The network, the clock and user callbacks are parameters: how each submission ends
(acknowledged, receipt lost with or without landing, not sent), what each clock reading says,
what a stream delivers and when it falls silent.

## Main results

* **Non-interference.** Messages that do not parse, name another DID, or do not verify under the
  key in force where they stand can be inserted anywhere without changing a resolution; every
  `continue` of the loop, the late ones included, leaves all state unchanged. What does change it is
  vouched for by Ed25519, byte by byte (`LogSafety.OnlyVouchedMatters`).
* **Chain of custody, last writer wins, document shape, tombstone, duplicates, reordering**, over
  all logs and without replaying them.
* **What is written is what is read.** From any log that has brought a DID to a record (key in
  force, document, metadata), for every list of update operations signed by that key and however
  their submission is interrupted, the resolution is the record with the operations that landed
  performed on it. Creation, however often its message landed, starts a record, rotation hands it to the next key, a delete closes it
  for good; all this also among strangers and through client-managed signing. Whatever key signs,
  readers see exactly the operations that landed and verify under the key in force, and such an
  operation can ever show exactly when a condition on the operation and the DID's text holds.
* **Revocation time travel** at every 64-bit timestamp, and, for every registration that is accepted,
  on any topic, with any timestamp and however its own read ended, the exact condition under which
  its list and accumulator are read back.
* **Cache transparency** for streams that end at their end time or limit, over every run of reads,
  growth and evictions, also through one cache shared by all topics; and one exact condition for any
  read, wherever its stream started and however it ended.
* **Pauses do not matter**: a lifecycle run cut at its pauses equals the uninterrupted fold, and every
  run is a trace of completed steps with their hooks that explains its answer.
* **Exact acceptance**: when a DID, a URL, an identifier, an event, an envelope, a revocation entry, a
  file or a client-managed request is accepted, as what, and with which error it is refused otherwise.
* **File round trip** under any reordering and mixed with junk; over every run of the cache, what is
  answered has the hash in the topic's memo.
* **Identifier round trips**, each with the exact set of values for which it holds.

Six findings are results rather than omissions. Each comes with its exact condition.

* Operations that are signed, submitted, acknowledged and counted may do nothing. The doc comments
  at `registrar/src/update.rs:47` and `:61` give bare fragments such as `#key-1` as ids, but the
  resolver compares ids with the whole DID text; and `from_operation` accepts a plain method with an
  empty key, which the resolver skips. `Operations.WritableButIdle` gives both inputs, and
  `Registrar.ShowsIffTakesHold` says which operations can ever change a resolution.
* An owner event may carry two spellings of its key that disagree. Signed by the key in force it is
  accepted: control moves to the base58 key while the document shows the other
  (`Disagreement.DisagreeingRotation`). The document shows the key in force exactly when the last owner
  event does not disagree (`LogShape.RootMethodShowsKeyInForce`).
* A status list is compared with what the registration itself reads at its own timestamp, or with zeros
  when that read fails or shows nothing. An early timestamp, one in milliseconds, and a read that
  falls silent each lose a change (`StaleReads.EarlyTimestampLosesRelease`,
  `StaleReads.MillisecondTimestampLosesRelease`, `StaleReads.SilentReadLosesRelease`). An empty
  accumulator and a first list of the wrong length are accepted and never read back
  (`StaleReads.EmptyAccumulatorIsSkipped`, `StaleReads.WrongLengthIsAccepted`). `StaleReads.ReadBackIff`
  and `StaleReads.RegistrationReadBackIff` say, for all that is accepted, when it is read back.
* Client-managed updates and deletes always expect the key inside the DID
  (`registrar/src/update_csm.rs:59`, `registrar/src/deactivate_csm.rs:44`), and `update_did` signs with
  whatever key it is given. After a rotation the old key's messages are still accepted, submitted and
  counted, and readers go on seeing the document without them (`RotatedOut.RotatedBatchIsIgnored`,
  `RotatedOut.RotatedDeleteIsIgnored`, `RotatedOut.UpdateIsIgnored`). `RotatedOut.CsmAnySignerIsRead`,
  `RotatedOut.AnySignerIsRead` and `RotatedOut.CsmDeleteIsReadIff` give the exact outcome: those that
  verify under the key in force take effect and no others.
* `submit_update_did_csm` looks at the label of a state, not at its message. A state labelled as an update
  that carries a deactivation passes every check and deactivates the DID
  (`CsmSubmit.LabelledUpdateDeactivates`). What lands is an update exactly when the message is one
  (`CsmSubmit.SubmittedAsUpdateIff`).
* `deactivate_did` answers with a document whose controller is the DID; readers see the controller on
  record. The two documents are the same exactly when no other was named
  (`Deactivation.AnsweredDocumentIsReadIff`, `Deactivation.AnsweredDocumentDiffers`).

Names are compared by text prefix, as in the code: an id belongs to a DID when it starts with the
DID's text (`resolver/src/builder.rs:338`, `:412`).

## Model

| member | source | states |
|---|---|---|
| `Resolver.ResolutionState.ApplyEvent` | resolver/src/builder.rs:140-221 | each arm of the event match leaves the maps, key, flags and metadata that its branch prescribes, and says whether the message was skipped |
| `Resolver.ResolutionState.Process` | resolver/src/builder.rs:74-224 | one message, through every skip branch, verified delete or event, has exactly the effect and the exit of the step function |
| `Resolver.ResolutionState.ProcessAll` | resolver/src/builder.rs:74-224 | the loop leaves the state of the fold over the whole log, stopping at a verified delete |
| `Resolver.ResolutionState.IntoResolution` | resolver/src/builder.rs:226-297 | the returned lists enumerate the final maps without repetition, empty optional lists are absent, a deactivated document is empty, and an unestablished DID is not found |
| `Resolver.Resolve` | resolver/src/builder.rs:38-297 | resolution succeeds, fails and answers exactly as the fold over the log under the key in the DID, in whatever order hash maps are listed |
| `LogSafety.ContinueLeavesState` | resolver/src/builder.rs:74-183 | no `continue`, including those after `exists` and `current` are assigned, leaves any variable changed |
| `LogSafety.SkippedMessagesDoNotMatter` | resolver/src/builder.rs:74-183 | interleaving a log with messages its own run would skip folds to the same state |
| `LogSafety.NonInterference` | resolver/src/builder.rs:74-139 | any interleaving with messages that are malformed, for another DID, or unsigned by the key in force leaves the resolution identical |
| `LogSafety.ForeignIff` | resolver/src/builder.rs:88-139 | a message is not foreign exactly when it is an envelope for the DID whose signature is base64 of 64 bytes that Ed25519 verifies over the UTF-8 text of its printed message |
| `LogSafety.OnlyVouchedMatters` | resolver/src/builder.rs:74-139 | a message that changes the outcome of any log at all is vouched for in just that way under the key in force |
| `LogSafety.DeactivatesIff` | resolver/src/builder.rs:88-105 | a message deactivates a live DID exactly when it is a delete vouched for in that way |
| `LogSafety.ChainOfCustody` | resolver/src/builder.rs:141-168 | every reachable key has a chain of owner messages at increasing positions, the first claiming the anchor and signed by it, each next signed by the key claimed before |
| `LogSafety.DeactivatedIff` | resolver/src/builder.rs:88-105 | the tombstone is set exactly when some delete verified under the key in force at its position |
| `LogSafety.TombstoneIsFinal` | resolver/src/builder.rs:88-105 | after a verified delete every continuation resolves alike, to an empty document or to not found |
| `DidLog.DeactivationAbsorbs` | resolver/src/builder.rs:99-102 | nothing after a verified delete is folded |
| `LogMeaning.EffectiveStep` | resolver/src/builder.rs:74-224 | a message either takes effect as one combined update or changes nothing but the tombstone |
| `LogMeaning.MethodsAreLastWrites` | resolver/src/builder.rs:323-402 | a method is listed with given data exactly when the last effective event on its id put that data there; keyless adds never count |
| `LogMeaning.ReferencesAreLastWrites` | resolver/src/builder.rs:353-402 | an id is in a relationship exactly when it was added there after its last removal |
| `LogMeaning.ServicesAreLastWrites` | resolver/src/builder.rs:404-436 | a service is listed with given data exactly when the last effective event on its id adds it with that data |
| `LogMeaning.CreatedIsFirstOwner` | resolver/src/builder.rs:180-182 | `created` is the timestamp of the first accepted owner event |
| `LogMeaning.UpdatedIsLastEffective` | resolver/src/builder.rs:223 | `updated` is the timestamp of the last message to reach the end of the loop body |
| `LogMeaning.ControlIsLastOwner` | resolver/src/builder.rs:141-179 | the last accepted owner event decides key and controller; before one, the anchor is in force |
| `LogMeaning.RootMethodIsLastOwner` | resolver/src/builder.rs:304-321 | the last accepted owner event writes the root method, and without one there is none |
| `LogMeaning.ResolutionFailsIff` | resolver/src/builder.rs:38-72 | resolution fails exactly when the key in the DID is not base58 of 32 bytes, is no curve point, or no owner event of the log is accepted, each with its own error |
| `LogShape.ReachableIsWellFormed` | resolver/src/builder.rs:74-224 | in every reachable state `exists`, `created`, `controller` and the root method go together, and every entry is filed under its own, owned id |
| `LogShape.ChangesSpareRoot` | resolver/src/builder.rs:335-340 | adds and removes never touch the root method |
| `LogShape.LiveDocumentHasRoot` | resolver/src/builder.rs:230-239 | a live document lists the root method, refers to it for authentication and assertion, and nowhere else |
| `LogShape.RootMethodShowsKeyInForce` | messages/src/events.rs:54-81 | the root method's multibase reads as the key in force exactly when the last owner event has no disagreeing spellings |
| `Disagreement.DisagreementIsAccepted` | messages/src/events.rs:54-81 | on any log on record, a message signed by the key in force with two different keys moves control to the base58 one and shows readers the other |
| `Disagreement.DisagreeingRotation` | resolver/src/builder.rs:141-182 | a whole log that shows it: created, handed over with two keys, and from then on following what the base58 key signs |
| `Disagreement.OneSpellingIsAccepted` | messages/src/events.rs:54-81 | an owner event with only a base58 key, or only a multibase one with or without the prefix, hands any log on record to the key it spells |
| `LogShape.ReferencesListedIffKeyed` | resolver/src/builder.rs:342-374 | every relationship reference names a listed method exactly when every id with a surviving reference was also added with a key since its removal |
| `LogShape.MethodPresence` | resolver/src/builder.rs:323-402 | a non-root method is listed exactly when a keyed add of it survives |
| `LogShape.ReferencePresence` | resolver/src/builder.rs:353-402 | an id is in a relationship exactly when an add to it survives |
| `LogShape.StepTwice` | resolver/src/builder.rs:74-224 | one fold step is idempotent for every message, rotations included |
| `LogShape.DuplicateDoesNotMatter` | resolver/src/builder.rs:74-224 | repeating a message next to itself does not change the resolution |
| `LogShape.SwapDoesNotMatter` | resolver/src/builder.rs:185-217 | exchanging adjacent method or service messages about different entries, anywhere in a log, leaves the resolution as it is but for `updated` |
| `Events.EventRoundTrip` | messages/src/events.rs:9-18 | the untagged ordered choice decodes every encoded event to the variant it was |
| `Events.DecodedIff` | messages/src/events.rs:9-18 | a JSON object is decoded as an event exactly when the event is the first variant, in order, all of whose fields it has by name |
| `Events.DocumentSpellingOfClaimedKey` | messages/src/events.rs:54-81 | when the key bytes can be read so can the document spelling, and it reads back as those bytes exactly without disagreement |
| `Messages.PayloadRoundTrip` | messages/src/did_owner.rs:25-62 | what a reader parses from a payload re-serialises to the signed bytes and carries the signature, DID, operation, time and event that were written |
| `Messages.EnvelopeIff` | messages/src/did_owner.rs:52-62 | which JSON objects are envelopes, and of which message, field by field |
| `Messages.SignedBytesAreInjective` | resolver/src/builder.rs:125-134 | messages that are signed as the same bytes are the same in every field, the event included |
| `Keys.MultibaseRoundTrip` | core/src/keys.rs:23-64 | the multibase spelling reads back as its key exactly for non-empty keys |
| `Did.PrintOfParse` | core/src/did.rs:53-107 | printing an accepted DID gives back the parsed text |
| `Did.ParseOfPrint` | core/src/did.rs:53-107 | parsing a printed DID gives it back exactly when the key has no underscore and the topic is three u64 parts |
| `Did.PrintedTextAcceptedIff` | core/src/did.rs:53-107 | the text of a DID is accepted under that same condition, so it never reads as another DID |
| `Did.AcceptedTextIff` | core/src/did.rs:53-107 | a text is accepted as a DID exactly when it is the prefix, one of the four network names, a key without underscores, and a topic id |
| `Did.PrintIsInjective` | core/src/did.rs:53-107 | DIDs that survive printing and print alike are the same |
| `Did.TopicIdIff` | core/src/did.rs:100-105 | a topic id is accepted exactly when it is three u64 numerals with dots between them |
| `Text.NumeralIff` | core/src/did.rs:100-105 | the decimal text of a number, with or without a plus sign, is accepted as a part exactly below two to the power of 64 |
| `DidUrl.FromStr` | core/src/did_url.rs:17-63 | the parser with its query loop computes the parse function, errors included |
| `DidUrl.ParseQuery` | core/src/did_url.rs:41-57 | pairs are inserted in order, later duplicates win, one malformed pair fails the query |
| `DidUrl.QueryIsItsPairs` | core/src/did_url.rs:41-57 | a query is its pairs joined by ampersands |
| `DidUrl.ParamsAreLastPairs` | core/src/did_url.rs:41-57 | a key has the value of the last pair that names it and there are no other keys; a query fails exactly when some pair has no equals sign |
| `DidUrl.AcceptedUrlIsItsParts` | core/src/did_url.rs:17-63 | an accepted URL is its DID, path, query and fragment printed in that order |
| `DidUrl.UrlRoundTrip` | core/src/did_url.rs:17-63 | every URL put together from a DID, a path, a query of proper pairs and a fragment is accepted as just those parts |
| `DidUrl.UrlErrors` | core/src/did_url.rs:17-63 | whatever is refused is refused as an invalid DID |
| `DidUrl.FragmentUrlText` | core/src/did_url.rs:17-63 | with a fragment but neither path nor parameters the text is the DID, a hash and the fragment |
| `DidUrl.FragmentUrlRoundTrip` | core/src/did_url.rs:17-63 | a DID with a fragment parses back exactly when it survives printing, its key has no URL delimiter and the fragment is not empty |
| `Dereference.DereferenceDid` | resolver/src/dereference.rs:28-71 | searching the document's lists finds what the maps of the resolution hold, methods before services, with the same errors |
| `Dereference.FindIsLookup` | resolver/src/dereference.rs:56-66 | in whatever order a map was listed, the search by id is a lookup |
| `Dereference.DereferencedIdIsUrl` | resolver/src/dereference.rs:55-67 | a method, service or document reached through an accepted URL has that URL as its id |
| `Dereference.RootFragmentIsRootMethod` | resolver/src/dereference.rs:55-61 | on every live DID the root fragment leads to the root method |
| `Dereference.FragmentLeadsToMethodIff` | resolver/src/dereference.rs:55-61 | any other fragment leads to a method exactly when a keyed add of it survives in the log |
| `Dereference.FragmentLeadsToThatMethodIff` | resolver/src/dereference.rs:55-61 | a fragment leads to a given method exactly when the DID is live and the last effective event on the id wrote that method |
| `Dereference.FragmentLeadsToServiceIff` | resolver/src/dereference.rs:63-67 | a fragment leads to a given service exactly when the DID is live, the last effective event on the id added that service, no keyed add of a method survives there and the id is not the root key |
| `Dereference.OtherwiseDereferenced` | resolver/src/dereference.rs:34-71 | a URL of nothing but the DID leads to the whole resolution, a path or parameter is an invalid argument, and what is not there, or no longer, is not found |
| `Operations.OperationDepicts` | registrar/src/update.rs:177-214 | folding the event of an operation is performing the operation on the abstract document |
| `Operations.PayloadIsRead` | messages/src/did_owner.rs:25-62 | under any signature, a reader takes a payload for exactly the event and time that were written, and it is signed by a key exactly when the signature verifies over the written bytes |
| `Operations.OperationIsRead` | resolver/src/builder.rs:125-224 | from any state on record, an operation under any signature is performed when that verifies under the key in force, and otherwise leaves the state as it is |
| `Operations.CreateIsRead` | registrar/src/create.rs:53-65 | the create message alone yields a document with its root method for authentication and assertion |
| `Operations.TakesHoldIff` | resolver/src/builder.rs:335-436 | an operation changes some document exactly when its id is managed and, for a put, it names a relationship or a non-empty key; for services, when the id extends the DID |
| `Operations.WritableButIdle` | registrar/src/update.rs:177-189 | every operation that takes hold can be written, but so can ones that do not: bare fragment ids, and plain methods with an empty key |
| `Operations.WritableIff` | registrar/src/update.rs:177-189 | the one operation that cannot be written is adding a plain method without a key |
| `Registrar.ShowsOnRecordIff` | resolver/src/builder.rs:125-139 | on any log on record, an operation under any signature changes what readers see exactly when the signature verifies under the key in force and the operation changes the document |
| `Registrar.ShowsIffDocumentChanges` | registrar/src/update.rs:177-214 | within an update of any log on record, the last operation changes what readers see exactly when all before it were written, it can be written, and it changes the document they lead to |
| `Registrar.ShowsIffTakesHold` | registrar/src/update.rs:177-214 | after some update of any log on record, an operation under any signature changes the resolution exactly when the signature verifies under the key in force and the operation takes hold |
| `Operations.RootIdDoesNothing` | resolver/src/builder.rs:335-340 | method operations on the root key id have no effect |
| `Registrar.LifecycleChecksLength` | registrar/src/update.rs:141-163 | signing, running the one-step lifecycle and printing amounts to signing, refusing signatures that are not 64 bytes, and printing |
| `Registrar.UpdateIsRead` | registrar/src/update.rs:176-214 | from any log on record, payloads signed by the key in force lead to the record with the operations performed, up to the first that cannot be written |
| `Registrar.RecordIsRead` | resolver/src/builder.rs:226-297 | the resolution of a log on record is exactly that document with its metadata |
| `Registrar.NewDidIsOnRecord` | registrar/src/create.rs:53-65 | the create message brings a DID to the record of a new document |
| `Creation.SignMessage` | registrar/src/create.rs:139-151 | the payload carries the signature that the lifecycle put into the message; a failing signer or a signature that is not 64 bytes fails the call |
| `Creation.SubmitWithRetry` | registrar/src/create.rs:158-205 | up to three attempts, only failed executions being retried: how many copies land and how the call ends, for every way the attempts end |
| `Creation.CreateDidWithSigner` | registrar/src/create.rs:88-124 | the DID is made of the key and the topic; what lands on the topic and how the call answers |
| `Creation.CreatedIsRead` | registrar/src/create.rs:158-205 | readers see nothing or the new document, even when the message landed more than once; the document for certain after a success, and never twice without strays |
| `Creation.NewDocumentIs` | resolver/src/builder.rs:304-321 | the new document, letter by letter |
| `Operations.OwnerEventIsRead` | resolver/src/builder.rs:141-183 | an owner event signed by the key in force hands control to the key it claims and shows the spelling it carries |
| `Registrar.RotationMovesRecord` | resolver/src/builder.rs:161-182 | an owner message for the next key, signed by the one in force, moves the record to it with the root method and controller replaced |
| `Registrar.WrittenIsRead` | registrar/src/update.rs:176-214 | the resolution of a DID's own messages is the new document with the operations performed, up to the first that cannot be written |
| `Updates.SignAndSubmit` | registrar/src/update.rs:141-164 | nothing lands unless signing and the lifecycle succeed; then the payload lands as the network decides |
| `Updates.UpdateDidWithSigner` | registrar/src/update.rs:226-250 | what lands, how the call answers and how many operations it reports, for every sequence of submission outcomes |
| `Updates.UpdateDid` | registrar/src/update.rs:95-122 | the same with a private key, after the empty-list, topic and key-length checks in that order |
| `Updates.UpdateLandsPrefix` | registrar/src/update.rs:116-121 | what lands is an initial part of the payloads, at most one longer than acknowledged; success means all landed and were counted |
| `Updates.UpdateAnswers` | registrar/src/update.rs:116-121 | the call answers by the first operation that was not acknowledged: with its own error if it could not be written, an internal error if it could, and the full count if there is none |
| `Updates.ReaderSeesPrefix` | registrar/src/update.rs:116-121 | from any log on record, after any interrupted update a reader sees the record with exactly the operations that landed |
| `Updates.WrittenIsReadAmongStrangers` | resolver/src/builder.rs:125-139 | the same among arbitrary messages that do not verify under the DID's own key |
| `Deactivation.DeactivateDidWithSigner` | registrar/src/deactivate.rs:46-83 | nothing lands unless the topic id parses and signing and the lifecycle succeed; then the tombstone lands as the network decides, and the answer follows |
| `Deactivation.DeactivateDid` | registrar/src/deactivate.rs:37-44 | the same with a private key, whose length is checked first |
| `Deactivation.OwnDelete` | registrar/src/deactivate.rs:46-83 | a proper key always gets as far as submitting its own signed payload |
| `Deactivation.DeactivatedForGood` | resolver/src/builder.rs:88-105 | once a delete signed by the key in force has landed on a log on record, readers see an empty document with the metadata on record, whatever follows |
| `Deactivation.DeleteIsReadIff` | resolver/src/builder.rs:88-105 | a delete under any signature on a log on record leads to the tombstone when the signature verifies under the key in force, and otherwise changes nothing |
| `Deactivation.AnsweredDocumentIsReadIff` | registrar/src/deactivate.rs:75-82 | the document the call answers with is the one readers see exactly when the controller on record is the DID |
| `Deactivation.AnsweredDocumentDiffers` | registrar/src/deactivate.rs:75-82 | it is not for a DID created with another controller: readers see that controller |
| `Ledger.LandedIsPrefix` | registrar/src/update.rs:116-121 | submissions that stop at the first failure land a prefix, one ambiguous item at most, whole exactly when all are acknowledged |
| `Ledger.EachLandsInOrder` | registrar/src/csm.rs:446-450 | attempts that may fail before or during submission land in order, at most one unacknowledged |
| `Csm.AcceptedPayloadIsRead` | registrar/src/csm.rs:286-363 | an accepted payload decodes to an envelope whose re-serialised message is byte-equal to the signed bytes and verifies under the expected key |
| `Csm.ValidForSubmitIff` | registrar/src/csm.rs:357-416 | a state with a signature is valid exactly when version, request id, key length, message bytes, expiry and signature are all in order; being late is an invalid argument, a signature that does not verify an invalid signature |
| `Csm.AcceptedIff` | registrar/src/csm.rs:71-77 | a signed request is taken back, and its payload printed, under exactly that condition |
| `CsmSubmit.AttemptIff` | registrar/src/csm.rs:420-440 | a request reaches the ledger exactly when it is in order, in time at both readings of the clock, and its topic id can be read |
| `CsmSubmit.LandedWasInTime` | registrar/src/csm.rs:442-463 | everything that landed of a batch was in order and in time at both readings |
| `RotatedOut.AnySignerIsRead` | registrar/src/update.rs:116-121 | an update signed by any key, however interrupted, leads readers of any log on record to the record with exactly those operations performed that landed and verify under the key in force |
| `RotatedOut.CsmAnySignerIsRead` | registrar/src/update_csm.rs:46-83 | a prepared batch signed by any key that it was prepared for is accepted whatever key is in force, with the same outcome |
| `RotatedOut.UpdateIsIgnored` | registrar/src/update.rs:95-122 | when none of its operations verifies under the key in force, an update that is acknowledged and counted in full leaves the resolution as it was |
| `RotatedOut.CsmAfterRotation` | registrar/src/update_csm.rs:46-83 | the same for a client-managed batch: every request is accepted and can land, and the resolution stays as it was |
| `RotatedOut.RotatedBatchIsIgnored` | registrar/src/update_csm.rs:57-60 | a whole log that shows it: created, rotated, a batch prepared, signed by the key asked for and acknowledged in full, and readers see the document as it was after the rotation |
| `RotatedOut.CsmDeleteIsReadIff` | registrar/src/deactivate_csm.rs:38-64 | an accepted client-managed delete was signed by the DID's key and leads to the tombstone exactly when it verifies under the key in force; otherwise nothing changes |
| `RotatedOut.RotatedDeleteIsIgnored` | registrar/src/deactivate_csm.rs:44 | after a rotation a prepared delete, signed by the key asked for, is accepted, and the document lives on |
| `RotatedOut.AcceptedPayloadOnRecord` | registrar/src/csm.rs:286-363 | any accepted payload on any log on record is skipped exactly unless its signature verifies under the key in force, and then the resolution stays as it was |
| `Csm.RequestPreimageIsInjective` | registrar/src/csm.rs:507-517 | without zero bytes in DID, topic and operation, different requests hash different bytes |
| `Csm.ZeroBytesCollide` | registrar/src/csm.rs:507-517 | with zero bytes two requests can hash the same bytes |
| `Csm.PreparedOperation` | registrar/src/update_csm.rs:107-166 | preparing an update succeeds exactly for writable operations and 32-byte keys, and yields a validating state with the bytes of the direct path |
| `Csm.PreparedCreate` | registrar/src/create_csm.rs:51-87 | preparing a creation succeeds exactly when the topic exists, the key has 32 bytes and the DID survives printing; its state validates |
| `Csm.PreparedDeactivate` | registrar/src/deactivate_csm.rs:38-64 | preparing a deactivation succeeds exactly for a 32-byte DID key and a DID that survives printing; its state validates |
| `Csm.UnpreparedDeactivate` | registrar/src/deactivate_csm.rs:38-64 | a deactivation that cannot be prepared fails for the key first, as an invalid argument, and then for the text, as an invalid DID |
| `Csm.StateMirrorsMessage` | registrar/src/update_csm.rs:107-166 | the state holds each field of the message under its own name, and rebuilding gives the message back |
| `Csm.SignedElsewhere` | registrar/src/csm.rs:71-77 | a prepared request signed by the key's owner and returned in time is accepted and prints the payload of the direct path |
| `CsmSubmit.PrepareUpdateDidCsm` | registrar/src/update_csm.rs:46-83 | a batch is prepared exactly when there are operations, the DID holds a 32-byte key and all operations can be written; each request validates |
| `CsmSubmit.IntoBatchMeans` | registrar/src/csm.rs:90-111 | a wrong number of signatures is refused; otherwise the answer is all submit requests in order or the refusal of the earliest request refused |
| `CsmSubmit.PreparedBatchIsAccepted` | registrar/src/csm.rs:90-111 | a prepared batch takes its owner's signatures back in time, all of them |
| `CsmSubmit.SubmitCsmRequest` | registrar/src/csm.rs:420-440 | a request lands only after both validations and the topic check, and reports its topic and number |
| `CsmSubmit.CountIsEntriesOn` | registrar/src/csm.rs:420-440 | the number reported for an entry is how many entries its topic has, whatever is on others |
| `CsmSubmit.SubmitCsmBatch` | registrar/src/csm.rs:442-463 | a batch lands in order up to its first failure, the results describe what landed, and `operations_applied` is the batch's length |
| `CsmSubmit.SubmitUpdateDidCsm` | registrar/src/update_csm.rs:85-105 | nothing is submitted unless the batch is non-empty and all of it is labelled as updates |
| `CsmSubmit.SubmittedAsUpdateIff` | registrar/src/csm.rs:286-363 | what an accepted request submits is an update exactly when its message is one, and a delete exactly when its message is one, for the DID of the message, whatever the label says |
| `CsmSubmit.LabelledUpdateDeactivates` | registrar/src/update_csm.rs:95-102 | a state labelled as an update, under any DID text and topic, that carries a deactivation passes every check and leads to the tombstone |
| `CsmSubmit.CsmWritesWhatSignerWrites` | registrar/src/update_csm.rs:107-166 | a prepared batch signed in time by the DID's own key puts the payloads of `update_did` on the same topic |
| `CsmSubmit.CsmReaderSeesPrefix` | registrar/src/csm.rs:442-463 | from any log on record: prepare, sign elsewhere, take back, submit; however it ends a reader sees the record with exactly the operations that landed |
| `Revocation.ComputeStatusListDiff` | anoncreds/src/utils.rs:120-139 | the loop lists the positions that went from one to zero and from zero to one, or refuses lists of different length |
| `Revocation.ReplayEntries` | anoncreds/src/registry.rs:293-305 | the nested loops overwrite the array in place to the replay of all entries |
| `Revocation.WriteAll` | anoncreds/src/registry.rs:295-304 | each index inside the list is written, the others are ignored |
| `Revocation.ResolveRevocationStatusList` | anoncreds/src/registry.rs:278-316 | the messages of the window amount to the replayed list with the last accumulator, or to nothing |
| `Revocation.EntryIff` | anoncreds/src/utils.rs:76-92 | which JSON objects are revocation entries, and of what, field by field |
| `Revocation.UnpackIff` | anoncreds/src/utils.rs:112-118 | a message is an entry exactly when every layer around it reads |
| `Revocation.RegisterRevocationStatusList` | anoncreds/src/registry.rs:188-218 | what is submitted is the packed difference against the list read back, a failed read counting as no past |
| `TimeTravel.FreshDifference` | anoncreds/src/registry.rs:199-204 | a difference against the present replays to the new list exactly when that is 0/1-valued |
| `StaleReads.ReadBackIff` | anoncreds/src/registry.rs:188-218 | for every accepted registration, on any topic, with any timestamp and whatever its own read came to: its list and accumulator are read back exactly when there is an accumulator, the list has the registry's length, and each position was right already or is a bit that the compared list did not have; without an accumulator readers see what they saw before |
| `StaleReads.RegistrationReadBackIff` | anoncreds/src/registry.rs:188-218 | after a sound history the same for every accepted registration, in terms of the lists registered by now and by the timestamp, or zeros when that time cannot be read |
| `StaleReads.EarlyTimestampLosesRelease` | anoncreds/src/registry.rs:188-204 | two registrations, the second with an early timestamp, through submission and resolution: a credential it released is read as revoked |
| `StaleReads.MillisecondTimestampLosesRelease` | anoncreds/src/registry.rs:196-204 | the same with a timestamp in milliseconds, at which the read fails and counts as no past |
| `StaleReads.SilentReadLosesRelease` | anoncreds/src/registry.rs:255-280 | the same with a timestamp in order and a read that falls silent before its first message |
| `StaleReads.EmptyAccumulatorIsSkipped` | anoncreds/src/registry.rs:283-287 | a registration with an empty accumulator is accepted, and readers go on seeing the list before it |
| `StaleReads.WrongLengthIsAccepted` | anoncreds/src/registry.rs:199-204 | a first list of any wrong length is accepted and never read back |
| `TimeTravel.PackRoundTrip` | anoncreds/src/utils.rs:98-118 | a packed entry unpacks to itself |
| `TimeTravel.WindowHolds` | anoncreds/src/registry.rs:257-276 | the registry reads what is on the topic from the epoch up to the time asked for, both included |
| `TimeTravel.EntriesShowHistory` | anoncreds/src/registry.rs:283-305 | at every time the entries in the window replay to the last list registered by then |
| `TimeTravel.ResolvingAtAnyTime` | anoncreds/src/registry.rs:242-316 | at every u64 timestamp: the last list and accumulator registered by then, nothing before the first, an error for times the time library rejects |
| `TimeTravel.AccumulatorsAreChained` | anoncreds/src/registry.rs:206-213 | each entry carries its own accumulator and its predecessor's |
| `TimeTravel.CachedRegistryRead` | anoncreds/src/registry.rs:255-276 | the registry's read is the window, whatever was cached, with a stream that ends at the time asked for on a topic that has grown since |
| `TopicReader.CollectStream` | hcs/src/hcs/message.rs:137-169 | the stream loop collects until the stop conditions, a benign end, or an error |
| `TopicMessages.AnswerFailsIff` | hcs/src/hcs/message.rs:137-169 | whatever the stream does, the read fails exactly when the stream breaks before anything else ends it, and otherwise answers with what was delivered by then |
| `TopicReader.MergeDedupTopicMessages` | hcs/src/hcs/message.rs:209-223 | the map loop computes the merge: one message per sequence number, the streamed one winning, in order |
| `TopicMessages.MergePrefersStreamed` | hcs/src/hcs/message.rs:209-223 | of any two lists, a merge holds per sequence number the last streamed message, or the last cached one where none was streamed |
| `TopicReader.ApplyTopicMessageFilters` | hcs/src/hcs/message.rs:186-207 | sort, retain and truncate in place compute the filtered window |
| `TopicMessages.FiltersMean` | hcs/src/hcs/message.rs:186-207 | of any list, the messages of the window sorted by time with equal times left in order, cut off at the limit |
| `Sorting.SortIsStable` | hcs/src/hcs/message.rs:186-207 | sorting leaves elements with equal keys in order |
| `TopicReader.GetTopicMessagesWithCache` | hcs/src/hcs/message.rs:105-183 | the read answers from cache and stream together and stores its result exactly when it was unrestricted |
| `TopicReader.ReadStoresIff` | hcs/src/hcs/message.rs:158-180 | a read leaves the cache alone exactly when its stream broke or it was restricted, and otherwise stores its answer and drops the file |
| `TopicMessages.MergeOfParts` | hcs/src/hcs/message.rs:209-223 | merging two parts of a topic is the topic restricted to their union |
| `TopicMessages.CacheTransparency` | hcs/src/hcs/message.rs:105-183 | with any part of the topic cached and a stream from `from_time` that ends where nothing more is in the window or the limit is reached, the answer is the first `limit` messages of the inclusive window |
| `TopicMessages.EndedReadIff` | hcs/src/hcs/message.rs:121-137 | a read without a limit whose stream ends too soon still answers with the window exactly when all that is missing was cached |
| `TopicMessages.EarlySilence` | hcs/src/hcs/message.rs:167 | when the stream falls silent early, the uncached answer is a prefix of the cached one |
| `TopicMessages.UnanchoredRead` | hcs/src/hcs/message.rs:121-127 | an unrestricted read without `from_time` returns the topic exactly when everything before the stream's start was cached |
| `TopicMessages.ReadIff` | hcs/src/hcs/message.rs:105-183 | any read, with or without `from_time`, end time and limit and however its stream ended, answers with the truncated window exactly when every message of that was cached or streamed |
| `TopicMessages.EventKeepsInvariant` | hcs/src/hcs/message.rs:174-180 | growth, reads and evictions keep the cache a part of the topic |
| `TopicMessages.EveryRunIsTransparent` | hcs/src/hcs/message.rs:105-183 | after any run of growth, reads and evictions a read is transparent |
| `SharedCache.EveryRunIsSound` | hcs/src/service.rs:131-149 | over any interleaving of reads of any topics, cache operations, expiries and growth, what one shared cache holds under each topic is part of that topic |
| `SharedCache.SharedReadIsTransparent` | hcs/src/service.rs:131-149 | after any such run a read of any topic through the shared cache answers with its window |
| `SharedCache.TransparentFromTheStart` | hcs/src/service.rs:131-149 | in particular after any run from an empty cache over any topics |
| `SharedCache.GetTopicMessages` | hcs/src/service.rs:131-149 | the service call answers with the window of the topic and keeps the shared cache sound for every topic |
| `Cache.HcsCacheService.SetTopicMessages` | hcs/src/cache/mod.rs:61-72 | storing messages drops the cached file of that topic and touches nothing else |
| `Cache.HcsCacheService.RemoveTopicInfo` | hcs/src/cache/mod.rs:46-49 | removing the info cascades to messages and file |
| `Cache.RemovalsCascade` | hcs/src/cache/mod.rs:46-92 | which entries of a topic are left after each removal |
| `Cache.StoredIsThere` | hcs/src/cache/mod.rs:33-92 | what was stored is there, and only storing messages drops another entry |
| `Cache.BuildKeyIsInjective` | hcs/src/cache/mod.rs:94-96 | keys are unambiguous when topic ids hold no dash, whatever the network names |
| `Cache.DashedTopicsCollide` | hcs/src/cache/mod.rs:94-96 | with a dash in a topic id two entries share a key |
| `Cache.OperationsAreIsolated` | hcs/src/cache/mod.rs:33-92 | operations on one network and topic leave all other entries alone |
| `Cache.CachedFileIsNewest` | hcs/src/cache/mod.rs:61-92 | in every reachable state, evictions included, a cached file was stored after the cached messages |
| `HcsFile.BuildPayloadFromChunks` | hcs/src/hcs/file.rs:215-233 | sorting and concatenating computes the rebuilt payload, decode errors included |
| `HcsFile.SubmitChunks` | hcs/src/hcs/file.rs:81-98 | chunks land in order up to the first failure |
| `HcsFile.ChunkShape` | hcs/src/hcs/file.rs:198-213 | indices 0..n-1, contents adding up, in characters |
| `HcsFile.ChunksAreByteStretches` | hcs/src/hcs/file.rs:204-210 | chunk i is the text of the i-th stretch of 960 bytes of the encoded content, the last being what is left; n is the ceiling of the byte length over 960 |
| `HcsFile.AnyArrangementRebuilds` | hcs/src/hcs/file.rs:215-233 | any permutation of the chunks rebuilds the payload |
| `HcsFile.MemoMatches` | hcs/src/hcs/file.rs:242-252 | the memo written at submission passes the memo test, and the checksum test for its payload |
| `HcsFile.FileRoundTrip` | hcs/src/hcs/file.rs:145-252 | submitted chunks, in any order among messages that are no chunks, resolve to the payload |
| `HcsFile.ResolvedPayloadHasMemoHash` | hcs/src/hcs/file.rs:189-196 | on any topic contents a resolved payload has the hash its memo names |
| `HcsFile.ResolvedIff` | hcs/src/hcs/file.rs:145-233 | for which memo and contents a file resolves, to what, and with which error it fails otherwise |
| `HcsFile.ChunkIff` | hcs/src/hcs/file.rs:178-187 | which JSON objects are chunks, and of what |
| `FileCache.ResolveFileWithCache` | hcs/src/hcs/file.rs:128-143 | a cached file is the answer; otherwise the topic is read and a success is stored |
| `FileCache.CachedFileWasRead` | hcs/src/hcs/file.rs:128-143 | over any run of resolutions, other cache operations and expiries, a cached file is what an earlier resolution read from that very topic |
| `FileCache.AnsweredAgain` | hcs/src/hcs/file.rs:128-143 | once answered, a file is answered alike until its entry goes; a failure stores nothing |
| `FileCache.AnswerHasMemoHash` | hcs/src/hcs/file.rs:128-143 | after any such run whatever is answered, cached or not, has the hash the topic's memo names, and so the hash of what reading the topic would give |
| `Lifecycle.BuildableIsValid` | lifecycle/src/builder.rs:52-114 | whatever the building methods produce has unique labels and callbacks where needed |
| `Lifecycle.BuildersAdd` | lifecycle/src/builder.rs:52-114 | each building method adds one step of its kind at the end, or refuses a label that is taken |
| `Lifecycle.LabelFindsStep` | lifecycle/src/builder.rs:44-46 | a label leads back to the step that carries it |
| `Lifecycle.ResumeAdvances` | lifecycle/src/runner.rs:62-107 | resuming a pause always stops at a later step or ends |
| `Lifecycle.PausesDoNotMatter` | lifecycle/src/runner.rs:54-157 | a run driven through its pauses has the answer, message, context and world of the uninterrupted fold, failures included |
| `Lifecycle.SegmentsUsed` | lifecycle/src/runner.rs:109-157 | a run takes at most one segment more than there are pauses, and exactly that many when it completes |
| `Lifecycle.OneAttachPerSegment` | lifecycle/src/runner.rs:140-149 | a segment's signature serves one attach step only |
| `LifecycleTraces.ProcessIsExplained` | lifecycle/src/runner.rs:54-157 | every run is a trace of completed steps: callbacks with what they changed, signing with the signature of the bytes of the message, attaching with the pending one, each followed by its hooks in order; the answer is that of the state, pause, failure or catch step where it stops |
| `LifecycleTraces.ResumeIsExplained` | lifecycle/src/runner.rs:62-107 | the same from the step after the label of a paused state, once the hooks of that label have run |
| `LifecycleRunner.LifecycleRunner.OnComplete` | lifecycle/src/runner.rs:47-52 | hooks accumulate per label in registration order |
| `LifecycleRunner.LifecycleRunner.ExecuteSteps` | lifecycle/src/runner.rs:109-157 | the loop with its mutable message and options computes the stretch of steps up to a pause, a failure or the end |
| `LifecycleRunner.LifecycleRunner.Process` | lifecycle/src/runner.rs:54-60 | starting from the first step |
| `LifecycleRunner.LifecycleRunner.Resume` | lifecycle/src/runner.rs:62-74 | continuing after the pause named by the state; a failing hook of that pause is returned directly |
| `LifecycleRunner.LifecycleRunner.ProcessFrom` | lifecycle/src/runner.rs:76-107 | the answer of a stretch, with step failures going to the catch step |
| `Identifiers.AcceptedIdentifierIsItsParts` | anoncreds/src/utils.rs:49-70 | an accepted identifier is its five parts joined by slashes, issued by an accepted DID |
| `Identifiers.IdentifierRoundTrip` | anoncreds/src/utils.rs:40-70 | a built identifier parses back exactly when the publisher is an accepted DID without a slash |
| `Identifiers.IdentifierIff` | anoncreds/src/utils.rs:49-70 | any five parts of which the first is an accepted DID and only the last may hold a slash are accepted, as those parts; the rest is an invalid argument |
| `Identifiers.BuiltText` | anoncreds/src/utils.rs:40-47 | the built text, letter by letter, for each kind of object |
| `Polling.MirrorWatch.Check` | resolver/src/mirror.rs:115-137 | one poll changes count and stable time, and answers, as the polling closure does |
| `Polling.ElapsedIff` | resolver/src/mirror.rs:126-136 | the window has passed exactly when that many milliseconds have, within 64 bits of milliseconds |
| `Polling.StableIffSteady` | resolver/src/mirror.rs:126-136 | a poll reports stability exactly when every poll over at least the last window saw the same count |
| `Polling.SteadyMeansSameMessages` | resolver/src/mirror.rs:126-136 | on an append-only topic those polls saw the same messages |
| `Polling.WaitForMirrorStable` | utils/src/polling.rs:11-26 | success exactly at the first steady poll before the deadline, failure only on a failed fetch or past the deadline, within the ceiling of timeout over interval plus one polls |

## Left out

- Updates.UpdateDidWithSigner: the signer is a deterministic function, so the two signatures taken per operation agree.
- Polling.WaitForMirrorStable: assumes that each sleep advances the clock by the polling interval, without which the loop need not end, and that the wait fits in 64 bits of milliseconds; the simpler `wait_for_mirror` is not modelled.
- TimeTravel.ResolvingAtAnyTime: assumes that the registry definition was found and that the entries topic was read to its end, as did every registration before; `StaleReads.ReadBackIff` drops the latter. A failed lookup is an error before any of this.
- HcsFile.FileRoundTrip: waiting for visibility after submission is not modelled.
- FileCache.AnswerHasMemoHash: a topic's memo stays as it is during a run, which the ledger grants to topics without an admin key, the only ones accepted; topic ids hold no dash.
- Csm.RequestPreimageIsInjective: states the bytes that are hashed; that SHA-256 does not collide is not assumed.
- CsmSubmit.SubmitCsmRequest: topic ids are read and reprinted by a function parameter in place of the Hedera library.
- Resolver.Resolve: the constant content type of the resolution metadata is not part of the result.
- Texts of error messages: errors are their variants only.
- `submit_create_did_csm` and `submit_deactivate_did_csm`: one check of the operation name in front of `submit_csm_request`.
- `represent` and the `Accept` table, so dereferencing always answers with the JSON-LD document.
- serde accepts a struct given as a JSON array and rejects repeated fields; decoded JSON here is a map from field names.
- The order of JSON fields, which serialisation fixes: a message prints to one text as a function of its fields.
- Memos with characters outside ASCII, on which splitting at byte 64 can fail; texts are sequences of characters.
- Creation.CreateDidWithSigner: the outcome of creating the topic is a parameter; key generation, backoff times and the texts that tag orphaned topics are left out.
- Transport: Hedera transactions, mirror-node REST pages, gRPC streams, Vault, environment variables.
- Concurrency: callbacks, hooks and signers are functions of their arguments and of an explicit world, run one at a time.
- Cache expiry times and sizes: any entries may vanish at any moment instead.
- Schema, credential definition and registry definition objects: files whose contents the registry passes through.
