/**
 Registering a status list takes the difference against the list read at the request's own timestamp,
 or against zeros when that read fails or shows nothing (`anoncreds/src/registry.rs`). When is the
 registered list the one that is read back?
 */
module StaleReads {
  import opened Wrappers
  import opened Codec
  import opened TopicMessages
  import opened Revocation
  import opened TimeTravel

  /** The bits that reading a topic at a time comes to; zeros while there is no entry. */
  function BitsAt(c: Codec, d: Definition, topic: seq<TopicMessage>, nanos: int): (r: StatusBits)
    ensures |r| == d.maxCredNum
  {
    Replay(d.maxCredNum, Entries(c, WindowAt(topic, nanos)))
  }

  lemma SetAllIsBinary(list: StatusBits, indices: seq<nat>, v: byte)
    requires Binary(list) && v <= 1
    ensures Binary(SetAll(list, indices, v))
  {
    SetAllAt(list, indices, v);
  }

  /** Whatever the entries hold, replaying them gives bits. */
  lemma {:induction false} ReplayIsBinary(n: nat, entries: seq<RevocationEntry>)
    ensures Binary(Replay(n, entries))
    decreases |entries|
  {
    if entries != [] {
      var e := entries[|entries| - 1];
      var before := Replay(n, entries[..|entries| - 1]);
      ReplayIsBinary(n, entries[..|entries| - 1]);
      SetAllIsBinary(before, e.issued.UnwrapOr([]), 0);
      SetAllIsBinary(SetAll(before, e.issued.UnwrapOr([]), 0), e.revoked.UnwrapOr([]), 1);
    }
  }

  // ---------------------------------------------------------------- one registration

  /** What the registration's own read of the topic came to: an error, or messages, which may be
      fewer than its window holds, as the read gives up after five idle seconds. */
  type OwnRead = Result<seq<TopicMessage>, DidError>

  /** The read that runs to the end of the window. */
  function CompleteRead(topic: seq<TopicMessage>, timestamp: nat): OwnRead
    requires timestamp < 0x1_0000_0000_0000_0000
  {
    match FromUnixTimestamp(AsI64(timestamp))
    case Ok(nanos) => Ok(WindowAt(topic, nanos))
    case Err(e) => Err(e)
  }

  /** The entry a registration makes of its read. */
  function NewEntryFrom(c: Codec, d: Definition, seen: OwnRead, r: StatusList): Result<RevocationEntry, DidError> {
    match seen
    case Ok(messages) => NewEntry(Ok(StatusOf(c, d, r.revRegDefId, messages, r.timestamp)), r)
    case Err(e) => NewEntry(Err(e), r)
  }

  /** The list it is compared with: zeros of its own length when the read shows nothing. */
  function Compared(c: Codec, d: Definition, seen: OwnRead, n: nat): StatusBits {
    if seen.Ok? && Entries(c, seen.value) != [] then Replay(d.maxCredNum, Entries(c, seen.value)) else Zeros(n)
  }

  /** The accumulator it is chained to. */
  function ComparedAccum(c: Codec, seen: OwnRead): Option<string> {
    if seen.Ok? && Entries(c, seen.value) != [] then
      Some(Entries(c, seen.value)[|Entries(c, seen.value)| - 1].accum)
    else None
  }

  /** A registration is accepted exactly when its list is as long as the one it is compared with, and
      then makes an entry of their difference, chained to the last accumulator it saw. */
  lemma AcceptedIff(c: Codec, d: Definition, seen: OwnRead, r: StatusList)
    ensures var compared := Compared(c, d, seen, |r.revocationList|);
      NewEntryFrom(c, d, seen, r).Ok? <==> |compared| == |r.revocationList|
    ensures NewEntryFrom(c, d, seen, r).Err? ==> NewEntryFrom(c, d, seen, r) == Err(InvalidArgument)
    ensures NewEntryFrom(c, d, seen, r).Ok? ==>
      var compared := Compared(c, d, seen, |r.revocationList|);
      NewEntryFrom(c, d, seen, r).value
        == DiffEntry(compared, r.revocationList, r.currentAccumulator, ComparedAccum(c, seen))
  {
  }

  lemma ComparedIsBinary(c: Codec, d: Definition, seen: OwnRead, n: nat)
    ensures Binary(Compared(c, d, seen, n))
  {
    if seen.Ok? { ReplayIsBinary(d.maxCredNum, Entries(c, seen.value)); }
  }

  /** The topic after a registration that landed at `at`. */
  function Registering(c: Codec, d: Definition, topic: seq<TopicMessage>, seen: OwnRead, r: StatusList, at: int)
    : seq<TopicMessage>
    requires NewEntryFrom(c, d, seen, r).Ok?
  {
    topic + [TopicMessage(at, Pack(c, NewEntryFrom(c, d, seen, r).value), |topic|)]
  }

  /** What readers find from then on: one entry more, or, without an accumulator, nothing more. */
  lemma EntriesAfter(c: Codec, d: Definition, topic: seq<TopicMessage>, seen: OwnRead, r: StatusList, at: int,
                     nanos: int)
    requires TextLaws(c) && CompressionLaw(c) && NewEntryFrom(c, d, seen, r).Ok? && 0 <= at <= nanos
    ensures Entries(c, WindowAt(Registering(c, d, topic, seen, r, at), nanos)) == Entries(c, WindowAt(topic, nanos))
      + (if r.currentAccumulator != "" then [NewEntryFrom(c, d, seen, r).value] else [])
  {
    var e := NewEntryFrom(c, d, seen, r).value;
    var m := TopicMessage(at, Pack(c, e), |topic|);
    AcceptedIff(c, d, seen, r);
    PositionsSmall(Compared(c, d, seen, |r.revocationList|), r.revocationList, 1, 0);
    PositionsSmall(Compared(c, d, seen, |r.revocationList|), r.revocationList, 0, 1);
    PackRoundTrip(c, e);
    WindowSnoc(topic, m, nanos);
    EntriesSnoc(c, WindowAt(topic, nanos), m);
  }

  /** Each position of `m` is as it should be already, or is a bit that the compared list did not have. */
  predicate Recovers(now: StatusBits, compared: StatusBits, m: StatusBits)
    requires |now| == |compared| == |m|
  {
    forall i :: 0 <= i < |m| ==> now[i] == m[i] || (m[i] <= 1 && compared[i] != m[i])
  }

  /** The request has an accumulator and a full list, and its list is recovered. */
  predicate CanBeReadBack(d: Definition, now: StatusBits, compared: StatusBits, r: StatusList)
    requires |now| == |compared| == d.maxCredNum
  {
    r.currentAccumulator != "" && |r.revocationList| == d.maxCredNum && Recovers(now, compared, r.revocationList)
  }

  lemma RecoversIff(now: StatusBits, compared: StatusBits, m: StatusBits, accum: string, prev: Option<string>)
    requires |now| == |compared| == |m| <= U32_LIMIT && Binary(now) && Binary(compared)
    ensures ApplyEntry(now, DiffEntry(compared, m, accum, prev)) == m <==> Recovers(now, compared, m)
  {
    StaleDifference(now, compared, m, accum, prev);
  }

  /** The bits of a list that reads as the registered one, on one condition. */
  lemma BitsAfterIff(c: Codec, d: Definition, seen: OwnRead, r: StatusList, before: seq<RevocationEntry>)
    requires NewEntryFrom(c, d, seen, r).Ok? && d.maxCredNum < U32_LIMIT
    ensures Replay(d.maxCredNum, before + [NewEntryFrom(c, d, seen, r).value]) == r.revocationList
      <==> |r.revocationList| == d.maxCredNum
           && Recovers(Replay(d.maxCredNum, before), Compared(c, d, seen, |r.revocationList|), r.revocationList)
  {
    var m, compared := r.revocationList, Compared(c, d, seen, |r.revocationList|);
    var now := Replay(d.maxCredNum, before);
    AcceptedIff(c, d, seen, r);
    ReplaySnoc(d.maxCredNum, before, NewEntryFrom(c, d, seen, r).value);
    if |m| == d.maxCredNum {
      ReplayIsBinary(d.maxCredNum, before);
      ComparedIsBinary(c, d, seen, |m|);
      RecoversIff(now, compared, m, r.currentAccumulator, ComparedAccum(c, seen));
    }
  }

  /** A reading that shows the registered list and its accumulator. */
  predicate ShowsRequest(read: Result<Option<StatusList>, DidError>, r: StatusList) {
    && read.Ok? && read.value.Some?
    && read.value.value.currentAccumulator == r.currentAccumulator
    && read.value.value.revocationList == r.revocationList
  }

  lemma {:induction false} EntriesHaveAccumulators(c: Codec, messages: seq<TopicMessage>)
    ensures forall k :: 0 <= k < |Entries(c, messages)| ==> Entries(c, messages)[k].accum != ""
  {
    if messages != [] { EntriesHaveAccumulators(c, messages[..|messages| - 1]); }
  }

  /** What the entries of a window come to. */
  function StatusFrom(d: Definition, id: string, entries: seq<RevocationEntry>, t: nat): Option<StatusList> {
    if entries == [] then None
    else Some(StatusList(d.issuerId, id, Replay(d.maxCredNum, entries), entries[|entries| - 1].accum, t))
  }

  lemma ReadIs(c: Codec, d: Definition, id: string, topic: seq<TopicMessage>, t: nat)
    requires t <= 253402300799
    ensures ResolveStatusList(c, d, id, topic, t) == Ok(StatusFrom(d, id, Entries(c, WindowAt(topic, t * NANOS)), t))
  {
  }

  /** An entry with an accumulator shows what was registered on one condition. */
  lemma NewEntryShowsIff(c: Codec, d: Definition, id: string, seen: OwnRead, r: StatusList,
                         before: seq<RevocationEntry>, t: nat)
    requires NewEntryFrom(c, d, seen, r).Ok? && d.maxCredNum < U32_LIMIT && r.currentAccumulator != ""
    ensures var read := StatusFrom(d, id, before + [NewEntryFrom(c, d, seen, r).value], t);
      && read.Some? && read.value.currentAccumulator == r.currentAccumulator
      && (ShowsRequest(Ok(read), r)
          <==> CanBeReadBack(d, Replay(d.maxCredNum, before), Compared(c, d, seen, d.maxCredNum), r))
  {
    AcceptedIff(c, d, seen, r);
    BitsAfterIff(c, d, seen, r, before);
  }

  /** Readers never show an empty accumulator. */
  lemma EmptyAccumulatorNeverShows(c: Codec, d: Definition, id: string, messages: seq<TopicMessage>, r: StatusList,
                                   t: nat)
    requires r.currentAccumulator == ""
    ensures !ShowsRequest(Ok(StatusFrom(d, id, Entries(c, messages), t)), r)
  {
    EntriesHaveAccumulators(c, messages);
  }

  /** Every registration that is accepted, whatever is on the topic, whatever its timestamp and whatever
      its own read came to: a reader after it sees its list and accumulator exactly when there is an
      accumulator, the list has the registry's length, and the list read then is recovered from. */
  lemma ReadBackIff(c: Codec, d: Definition, id: string, topic: seq<TopicMessage>, seen: OwnRead, r: StatusList,
                    at: int, t: nat)
    requires TextLaws(c) && CompressionLaw(c) && d.maxCredNum < U32_LIMIT && NewEntryFrom(c, d, seen, r).Ok?
    requires 0 <= at <= t * NANOS && t <= 253402300799
    ensures var read := ResolveStatusList(c, d, id, Registering(c, d, topic, seen, r, at), t);
      && (ShowsRequest(read, r)
          <==> CanBeReadBack(d, BitsAt(c, d, topic, t * NANOS), Compared(c, d, seen, d.maxCredNum), r))
      && (r.currentAccumulator == "" ==> read == ResolveStatusList(c, d, id, topic, t))
      && (r.currentAccumulator != "" ==>
            read.Ok? && read.value.Some? && read.value.value.currentAccumulator == r.currentAccumulator)
  {
    var before := Entries(c, WindowAt(topic, t * NANOS));
    EntriesAfter(c, d, topic, seen, r, at, t * NANOS);
    ReadIs(c, d, id, topic, t);
    ReadIs(c, d, id, Registering(c, d, topic, seen, r, at), t);
    if r.currentAccumulator == "" {
      assert before + [] == before;
      EmptyAccumulatorNeverShows(c, d, id, WindowAt(topic, t * NANOS), r, t);
    } else {
      NewEntryShowsIff(c, d, id, seen, r, before, t);
    }
  }

  // ---------------------------------------------------------------- over histories

  /** Over a sound history the bits are those of the last list registered by then. */
  lemma HistoryBits(c: Codec, d: Definition, postings: seq<Posting>, nanos: int)
    requires TextLaws(c) && CompressionLaw(c) && SoundHistory(c, d, postings)
    requires forall k :: 0 <= k < |postings| ==> Representable(postings[k])
    ensures BitsAt(c, d, TopicOf(c, d, postings), nanos) == Past(d, LastAt(postings, nanos))
  {
    EntriesShowHistory(c, d, postings, nanos);
  }

  /** The registration that a request with this timestamp is compared with: the last one by then, or
      none when the timestamp cannot be read at. */
  function ComparedLast(postings: seq<Posting>, timestamp: nat): Option<StatusList>
    requires timestamp < 0x1_0000_0000_0000_0000
  {
    match FromUnixTimestamp(AsI64(timestamp))
    case Ok(nanos) => LastAt(postings, nanos)
    case Err(_) => None
  }

  /** After a sound history a complete read compares with that registration. */
  lemma ComparedIsPast(c: Codec, d: Definition, postings: seq<Posting>, timestamp: nat, n: nat)
    requires TextLaws(c) && CompressionLaw(c) && SoundHistory(c, d, postings) && timestamp < 0x1_0000_0000_0000_0000
    requires forall k :: 0 <= k < |postings| ==> Representable(postings[k])
    ensures Compared(c, d, CompleteRead(TopicOf(c, d, postings), timestamp), n)
      == match ComparedLast(postings, timestamp) case Some(last) => last.revocationList case None => Zeros(n)
  {
    var nanos := FromUnixTimestamp(AsI64(timestamp));
    if nanos.Ok? { EntriesShowHistory(c, d, postings, nanos.value); }
  }

  lemma ComparedLastIsSound(c: Codec, d: Definition, postings: seq<Posting>, timestamp: nat)
    requires SoundHistory(c, d, postings) && timestamp < 0x1_0000_0000_0000_0000
    ensures var last := ComparedLast(postings, timestamp);
      last.Some? ==> |last.value.revocationList| == d.maxCredNum
  {
    var nanos := FromUnixTimestamp(AsI64(timestamp));
    if nanos.Ok? { LastIsSound(c, d, postings, nanos.value); }
  }

  lemma TopicOfRegistration(c: Codec, d: Definition, postings: seq<Posting>, r: StatusList, at: int)
    requires forall k :: 0 <= k < |postings| ==> Representable(postings[k])
    requires r.timestamp < 0x1_0000_0000_0000_0000
    requires NewEntryFrom(c, d, CompleteRead(TopicOf(c, d, postings), r.timestamp), r).Ok?
    ensures TopicOf(c, d, postings + [Registered(r, at)])
      == Registering(c, d, TopicOf(c, d, postings), CompleteRead(TopicOf(c, d, postings), r.timestamp), r, at)
  {
    var all := postings + [Registered(r, at)];
    assert all[..|postings|] == postings;
  }

  /** After a sound history, every registration that is accepted, with any timestamp at all: it is read
      back exactly when it has an accumulator and the registry's length, and each position is as it
      should be already or is a bit that the list of that timestamp did not have. */
  lemma RegistrationReadBackIff(c: Codec, d: Definition, id: string, postings: seq<Posting>, r: StatusList, at: int,
                                t: nat)
    requires TextLaws(c) && CompressionLaw(c) && SoundHistory(c, d, postings)
    requires r.timestamp < 0x1_0000_0000_0000_0000
    requires ComparedLast(postings, r.timestamp).Some? ==> |r.revocationList| == d.maxCredNum
    requires forall k :: 0 <= k < |postings| ==> Representable(postings[k]) && postings[k].at < at
    requires 0 <= at <= t * NANOS && t <= 253402300799
    ensures var now, compared := Past(d, LastAt(postings, at)), Past(d, ComparedLast(postings, r.timestamp));
      && |now| == |compared| == d.maxCredNum
      && NewEntryFrom(c, d, CompleteRead(TopicOf(c, d, postings), r.timestamp), r).Ok?
      && (ShowsRequest(ResolveStatusList(c, d, id, TopicOf(c, d, postings + [Registered(r, at)]), t), r)
          <==> CanBeReadBack(d, now, compared, r))
  {
    var topic := TopicOf(c, d, postings);
    var seen := CompleteRead(topic, r.timestamp);
    ComparedIsPast(c, d, postings, r.timestamp, |r.revocationList|);
    ComparedIsPast(c, d, postings, r.timestamp, d.maxCredNum);
    ComparedLastIsSound(c, d, postings, r.timestamp);
    AcceptedIff(c, d, seen, r);
    HistoryBits(c, d, postings, t * NANOS);
    LastAtLate(postings, at, t * NANOS);
    ReadBackIff(c, d, id, topic, seen, r, at, t);
    TopicOfRegistration(c, d, postings, r, at);
  }

  // ---------------------------------------------------------------- requests that are not read back

  /** Two credentials, the first of them revoked at ten seconds. */
  function FirstRegistration(id: string, accum: string): Posting {
    Registered(StatusList("issuer", id, [1, 0], accum, 10), 10 * NANOS)
  }

  lemma FirstIsSound(c: Codec, id: string, accum: string)
    requires accum != ""
    ensures SoundHistory(c, Definition("issuer", 2), [FirstRegistration(id, accum)])
  {
    var postings := [FirstRegistration(id, accum)];
    assert postings[..0] == [];
  }

  lemma FirstIsLast(id: string, accum: string, nanos: int)
    ensures LastAt([FirstRegistration(id, accum)], nanos)
      == if nanos < 10 * NANOS then None else Some(StatusList("issuer", id, [1, 0], accum, 10))
  {
    var postings := [FirstRegistration(id, accum)];
    assert postings[..0] == [];
    assert LastAt(postings[..0], nanos) == None;
  }

  lemma LostBit(accum: string, prev: Option<string>)
    ensures ApplyEntry([1, 0], DiffEntry([0, 0], [0, 1], accum, prev)) == [1, 1]
  {
    DiffReplayAt([1, 0], [0, 0], [0, 1], accum, prev);
  }

  lemma BitsOfFirst(c: Codec, id: string, accum: string)
    requires TextLaws(c) && CompressionLaw(c) && accum != ""
    ensures var topic := TopicOf(c, Definition("issuer", 2), [FirstRegistration(id, accum)]);
      BitsAt(c, Definition("issuer", 2), topic, 20 * NANOS) == [1, 0]
  {
    FirstIsSound(c, id, accum);
    FirstIsLast(id, accum, 20 * NANOS);
    HistoryBits(c, Definition("issuer", 2), [FirstRegistration(id, accum)], 20 * NANOS);
  }

  /** The second registration revokes the other credential in place of the first. When its own read
      shows nothing it is compared with zeros, and the first stays revoked. */
  lemma SecondIsLost(c: Codec, id: string, accum: string, accum': string, timestamp: nat, seen: OwnRead)
    requires TextLaws(c) && CompressionLaw(c) && accum != "" && accum' != ""
    requires seen.Ok? ==> Entries(c, seen.value) == []
    ensures var d, r := Definition("issuer", 2), StatusList("issuer", id, [0, 1], accum', timestamp);
      var before := TopicOf(c, d, [FirstRegistration(id, accum)]);
      && NewEntryFrom(c, d, seen, r).Ok?
      && ResolveStatusList(c, d, id, Registering(c, d, before, seen, r, 20 * NANOS), 20)
           == Ok(Some(StatusList("issuer", id, [1, 1], accum', 20)))
  {
    var d, r := Definition("issuer", 2), StatusList("issuer", id, [0, 1], accum', timestamp);
    var before := TopicOf(c, d, [FirstRegistration(id, accum)]);
    assert Zeros(2) == [0, 0];
    AcceptedIff(c, d, seen, r);
    EntriesAfter(c, d, before, seen, r, 20 * NANOS, 20 * NANOS);
    ReadIs(c, d, id, Registering(c, d, before, seen, r, 20 * NANOS), 20);
    ReplaySnoc(2, Entries(c, WindowAt(before, 20 * NANOS)), NewEntryFrom(c, d, seen, r).value);
    BitsOfFirst(c, id, accum);
    LostBit(accum', ComparedAccum(c, seen));
  }

  lemma CompleteReadShowsNothing(c: Codec, id: string, accum: string, timestamp: nat)
    requires TextLaws(c) && CompressionLaw(c) && accum != ""
    requires timestamp < 10 || 253402300799 < timestamp < 0x8000_0000_0000_0000
    ensures var seen := CompleteRead(TopicOf(c, Definition("issuer", 2), [FirstRegistration(id, accum)]), timestamp);
      seen.Ok? ==> Entries(c, seen.value) == []
  {
    var d, postings := Definition("issuer", 2), [FirstRegistration(id, accum)];
    if timestamp < 10 {
      FirstIsSound(c, id, accum);
      FirstIsLast(id, accum, timestamp * NANOS);
      EntriesShowHistory(c, d, postings, timestamp * NANOS);
    }
  }

  lemma TopicOfTwo(c: Codec, d: Definition, first: Posting, r: StatusList, at: int)
    requires Representable(first) && r.timestamp < 0x1_0000_0000_0000_0000
    requires NewEntryFrom(c, d, CompleteRead(TopicOf(c, d, [first]), r.timestamp), r).Ok?
    ensures TopicOf(c, d, [first, Registered(r, at)])
      == Registering(c, d, TopicOf(c, d, [first]), CompleteRead(TopicOf(c, d, [first]), r.timestamp), r, at)
  {
    assert [first] + [Registered(r, at)] == [first, Registered(r, at)];
    TopicOfRegistration(c, d, [first], r, at);
  }

  /** The same, where the read is the complete one at the registration's timestamp. */
  lemma CompleteReadLosesRelease(c: Codec, id: string, accum: string, accum': string, timestamp: nat)
    requires TextLaws(c) && CompressionLaw(c) && accum != "" && accum' != ""
    requires timestamp < 10 || 253402300799 < timestamp < 0x8000_0000_0000_0000
    ensures var second := Registered(StatusList("issuer", id, [0, 1], accum', timestamp), 20 * NANOS);
      var topic := TopicOf(c, Definition("issuer", 2), [FirstRegistration(id, accum), second]);
      ResolveStatusList(c, Definition("issuer", 2), id, topic, 20)
        == Ok(Some(StatusList("issuer", id, [1, 1], accum', 20)))
  {
    var d, first := Definition("issuer", 2), FirstRegistration(id, accum);
    var r := StatusList("issuer", id, [0, 1], accum', timestamp);
    CompleteReadShowsNothing(c, id, accum, timestamp);
    SecondIsLost(c, id, accum, accum', timestamp, CompleteRead(TopicOf(c, d, [first]), timestamp));
    TopicOfTwo(c, d, first, r, 20 * NANOS);
  }

  /** A timestamp before the entry that is to be changed: the first credential stays revoked. */
  lemma EarlyTimestampLosesRelease(c: Codec, id: string, accum: string, accum': string)
    requires TextLaws(c) && CompressionLaw(c) && accum != "" && accum' != ""
    ensures var second := Registered(StatusList("issuer", id, [0, 1], accum', 5), 20 * NANOS);
      var topic := TopicOf(c, Definition("issuer", 2), [FirstRegistration(id, accum), second]);
      ResolveStatusList(c, Definition("issuer", 2), id, topic, 20)
        == Ok(Some(StatusList("issuer", id, [1, 1], accum', 20)))
  {
    CompleteReadLosesRelease(c, id, accum, accum', 5);
  }

  /** A timestamp in milliseconds, at which the registry cannot be read: the same. */
  lemma MillisecondTimestampLosesRelease(c: Codec, id: string, accum: string, accum': string)
    requires TextLaws(c) && CompressionLaw(c) && accum != "" && accum' != ""
    ensures var second := Registered(StatusList("issuer", id, [0, 1], accum', 1_700_000_000_000), 20 * NANOS);
      var topic := TopicOf(c, Definition("issuer", 2), [FirstRegistration(id, accum), second]);
      ResolveStatusList(c, Definition("issuer", 2), id, topic, 20)
        == Ok(Some(StatusList("issuer", id, [1, 1], accum', 20)))
  {
    CompleteReadLosesRelease(c, id, accum, accum', 1_700_000_000_000);
  }

  /** A timestamp in order, but a read that fell silent before its first message: the same. */
  lemma SilentReadLosesRelease(c: Codec, id: string, accum: string, accum': string)
    requires TextLaws(c) && CompressionLaw(c) && accum != "" && accum' != ""
    ensures var d, r := Definition("issuer", 2), StatusList("issuer", id, [0, 1], accum', 20);
      var before := TopicOf(c, d, [FirstRegistration(id, accum)]);
      && NewEntryFrom(c, d, Ok([]), r).Ok?
      && ResolveStatusList(c, d, id, Registering(c, d, before, Ok([]), r, 20 * NANOS), 20)
           == Ok(Some(StatusList("issuer", id, [1, 1], accum', 20)))
  {
    SecondIsLost(c, id, accum, accum', 20, Ok([]));
  }

  /** A registration without an accumulator is accepted and submitted, and readers skip it. */
  lemma EmptyAccumulatorIsSkipped(c: Codec, id: string, accum: string)
    requires TextLaws(c) && CompressionLaw(c) && accum != ""
    ensures var d, r := Definition("issuer", 2), StatusList("issuer", id, [0, 1], "", 15);
      var before := TopicOf(c, d, [FirstRegistration(id, accum)]);
      var seen := CompleteRead(before, 15);
      && NewEntryFrom(c, d, seen, r).Ok?
      && ResolveStatusList(c, d, id, Registering(c, d, before, seen, r, 20 * NANOS), 20)
           == Ok(Some(StatusList("issuer", id, [1, 0], accum, 20)))
  {
    var d, postings := Definition("issuer", 2), [FirstRegistration(id, accum)];
    var r := StatusList("issuer", id, [0, 1], "", 15);
    var before := TopicOf(c, d, postings);
    var seen := CompleteRead(before, 15);
    FirstIsSound(c, id, accum);
    FirstIsLast(id, accum, 15 * NANOS);
    FirstIsLast(id, accum, 20 * NANOS);
    ComparedIsPast(c, d, postings, 15, 2);
    AcceptedIff(c, d, seen, r);
    ReadBackIff(c, d, id, before, seen, r, 20 * NANOS, 20);
    EntriesShowHistory(c, d, postings, 20 * NANOS);
    ReadIs(c, d, id, before, 20);
  }

  /** A first list of any wrong length is accepted and submitted, and never read back. */
  lemma WrongLengthIsAccepted(c: Codec, d: Definition, id: string, r: StatusList, at: int, t: nat)
    requires TextLaws(c) && CompressionLaw(c) && d.maxCredNum < U32_LIMIT && |r.revocationList| != d.maxCredNum
    requires r.timestamp < 0x1_0000_0000_0000_0000 && 0 <= at <= t * NANOS && t <= 253402300799
    ensures NewEntryFrom(c, d, CompleteRead([], r.timestamp), r).Ok?
    ensures !ShowsRequest(ResolveStatusList(c, d, id,
      Registering(c, d, [], CompleteRead([], r.timestamp), r, at), t), r)
  {
    var seen := CompleteRead([], r.timestamp);
    AcceptedIff(c, d, seen, r);
    ReadBackIff(c, d, id, [], seen, r, at, t);
  }
}
