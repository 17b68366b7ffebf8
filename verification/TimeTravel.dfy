/** The log of differences reads, at every time, as the plain history of registered lists. */
module TimeTravel {
  import opened Wrappers
  import opened Codec
  import opened Events
  import opened TopicMessages
  import opened Revocation

  // ---------------------------------------------------------------- one difference

  lemma {:induction false} PositionsMembers(o: StatusBits, m: StatusBits, a: byte, b: byte)
    requires |o| == |m| <= U32_LIMIT
    ensures forall i: nat :: i in Positions(o, m, a, b) <==> i < |o| && o[i] == a && m[i] == b
  {
    if o != [] { PositionsMembers(o[..|o| - 1], m[..|m| - 1], a, b); }
  }

  lemma {:induction false} SetAllAt(list: StatusBits, indices: seq<nat>, v: byte)
    ensures forall i :: 0 <= i < |list| ==> SetAll(list, indices, v)[i] == if i in indices then v else list[i]
  {
    if indices != [] {
      var n := |indices| - 1;
      SetAllAt(list, indices[..n], v);
      assert forall i: nat :: i in indices <==> i in indices[..n] || i == indices[n];
    }
  }

  function DiffEntry(o: StatusBits, m: StatusBits, accum: string, prev: Option<string>): RevocationEntry
    requires |o| == |m|
  {
    var issued, revoked := Positions(o, m, 1, 0), Positions(o, m, 0, 1);
    RevocationEntry(accum, prev, if issued == [] then None else Some(issued),
      if revoked == [] then None else Some(revoked))
  }

  /** What replaying the difference of `o` and `m` does to any list. */
  lemma DiffReplayAt(cur: StatusBits, o: StatusBits, m: StatusBits, accum: string, prev: Option<string>)
    requires |cur| == |o| == |m| <= U32_LIMIT
    ensures forall i :: 0 <= i < |cur| ==>
      ApplyEntry(cur, DiffEntry(o, m, accum, prev))[i]
        == if o[i] == 0 && m[i] == 1 then 1 else if o[i] == 1 && m[i] == 0 then 0 else cur[i]
  {
    var issued, revoked := Positions(o, m, 1, 0), Positions(o, m, 0, 1);
    PositionsMembers(o, m, 1, 0);
    PositionsMembers(o, m, 0, 1);
    SetAllAt(cur, issued, 0);
    SetAllAt(SetAll(cur, issued, 0), revoked, 1);
  }

  predicate Binary(s: StatusBits) {
    forall i :: 0 <= i < |s| ==> s[i] == 0 || s[i] == 1
  }

  /** A difference against the present turns it into the new list exactly when that is 0/1-valued. */
  lemma FreshDifference(o: StatusBits, m: StatusBits, accum: string, prev: Option<string>)
    requires |o| == |m| <= U32_LIMIT && Binary(o)
    ensures ApplyEntry(o, DiffEntry(o, m, accum, prev)) == m <==> Binary(m)
  {
    var r := ApplyEntry(o, DiffEntry(o, m, accum, prev));
    DiffReplayAt(o, o, m, accum, prev);
    if Binary(m) { assert forall i :: 0 <= i < |m| ==> r[i] == m[i]; }
    if r == m { assert forall i :: 0 <= i < |m| ==> m[i] == r[i]; }
  }

  /** A difference against an outdated list `o` is right exactly when each position that still
      has to change differs from that outdated list too, and is to become a bit. */
  lemma StaleDifference(cur: StatusBits, o: StatusBits, m: StatusBits, accum: string, prev: Option<string>)
    requires |cur| == |o| == |m| <= U32_LIMIT && Binary(cur) && Binary(o)
    ensures ApplyEntry(cur, DiffEntry(o, m, accum, prev)) == m
      <==> forall i :: 0 <= i < |m| ==> cur[i] == m[i] || (m[i] <= 1 && o[i] != m[i])
  {
    var r := ApplyEntry(cur, DiffEntry(o, m, accum, prev));
    DiffReplayAt(cur, o, m, accum, prev);
    if forall i :: 0 <= i < |m| ==> cur[i] == m[i] || (m[i] <= 1 && o[i] != m[i]) {
      assert forall i :: 0 <= i < |m| ==> r[i] == m[i];
    }
    if r == m {
      assert forall i :: 0 <= i < |m| ==> r[i] == m[i];
    }
  }

  // ---------------------------------------------------------------- wire round trip

  ghost predicate SmallIndices(e: RevocationEntry) {
    && (e.issued.Some? ==> forall i :: 0 <= i < |e.issued.value| ==> e.issued.value[i] < U32_LIMIT)
    && (e.revoked.Some? ==> forall i :: 0 <= i < |e.revoked.value| ==> e.revoked.value[i] < U32_LIMIT)
  }

  lemma {:induction false} IndicesRoundTrip(list: seq<nat>)
    requires forall i :: 0 <= i < |list| ==> list[i] < U32_LIMIT
    ensures DecodeIndices(seq(|list|, i requires 0 <= i < |list| => JNumber(list[i]))) == Some(list)
  {
    var items := seq(|list|, i requires 0 <= i < |list| => JNumber(list[i]));
    if list != [] {
      var n := |list| - 1;
      IndicesRoundTrip(list[..n]);
      assert items[..n] == seq(n, i requires 0 <= i < n => JNumber(list[..n][i]));
      assert list == list[..n] + [list[n]];
    }
  }

  lemma IndicesFieldRoundTrip(j: Json, name: string, value: Option<seq<nat>>)
    requires j.JObject? && (name in j.fields <==> value.Some?)
    requires value.Some? ==> j.fields[name] == OptionalIndices(name, value)[name]
    requires value.Some? ==> forall i :: 0 <= i < |value.value| ==> value.value[i] < U32_LIMIT
    ensures IndicesField(j, name) == Some(value)
  {
    if value.Some? { IndicesRoundTrip(value.value); }
  }

  lemma EntryRoundTrip(e: RevocationEntry)
    requires SmallIndices(e)
    ensures DecodeEntry(EntryJson(e)) == Some(e)
  {
    var v := EntryJson(e).fields["value"];
    assert OptionalStringField(v, "prev_accum") == Some(e.prevAccum);
    IndicesFieldRoundTrip(v, "issued", e.issued);
    IndicesFieldRoundTrip(v, "revoked", e.revoked);
  }

  /** A packed entry unpacks to itself. */
  lemma PackRoundTrip(c: Codec, e: RevocationEntry)
    requires TextLaws(c) && CompressionLaw(c) && SmallIndices(e)
    ensures Unpack(c, Pack(c, e)) == Some(e)
  {
    EntryRoundTrip(e);
  }

  lemma {:induction false} PositionsSmall(o: StatusBits, m: StatusBits, a: byte, b: byte)
    requires |o| == |m|
    ensures forall i :: 0 <= i < |Positions(o, m, a, b)| ==> Positions(o, m, a, b)[i] < U32_LIMIT
  {
    if o != [] { PositionsSmall(o[..|o| - 1], m[..|m| - 1], a, b); }
  }

  // ---------------------------------------------------------------- histories

  /** What was posted to the entries topic: a registration, or anything that is no entry. */
  datatype Posting = Registered(request: StatusList, at: int) | Other(contents: Bytes, at: int)

  /** What a registration submits when its reads see `topic`; nothing when it fails. */
  function Submission(c: Codec, d: Definition, topic: seq<TopicMessage>, request: StatusList): Bytes
    requires request.timestamp < 0x1_0000_0000_0000_0000
  {
    match NewEntry(ResolveStatusList(c, d, request.revRegDefId, topic, request.timestamp), request)
    case Ok(e) => Pack(c, e)
    case Err(_) => []
  }

  predicate Representable(p: Posting) {
    p.Registered? ==> p.request.timestamp < 0x1_0000_0000_0000_0000
  }

  /** The topic that results when each posting reads what is there and appends its message. */
  function TopicOf(c: Codec, d: Definition, postings: seq<Posting>): (topic: seq<TopicMessage>)
    requires forall k :: 0 <= k < |postings| ==> Representable(postings[k])
    ensures |topic| == |postings|
  {
    if postings == [] then []
    else
      var n := |postings| - 1;
      assert Representable(postings[n]);
      var before := TopicOf(c, d, postings[..n]);
      var contents :=
        if postings[n].Other? then postings[n].contents else Submission(c, d, before, postings[n].request);
      before + [TopicMessage(postings[n].at, contents, n)]
  }

  /** A registration as the registry expects it: a 0/1 list of full length, an accumulator, and
      a usable timestamp that is not before the consensus time of any earlier registration. */
  predicate SoundRequest(d: Definition, earlier: seq<Posting>, r: StatusList) {
    && |r.revocationList| == d.maxCredNum && Binary(r.revocationList) && r.currentAccumulator != ""
    && r.timestamp <= 253402300799
    && forall k :: 0 <= k < |earlier| && earlier[k].Registered? ==> earlier[k].at <= r.timestamp * NANOS
  }

  ghost predicate SoundHistory(c: Codec, d: Definition, postings: seq<Posting>) {
    && d.maxCredNum < U32_LIMIT
    && (forall k :: 0 <= k < |postings| ==> postings[k].at >= 0)
    && (forall j, k :: 0 <= j < k < |postings| ==> postings[j].at < postings[k].at)
    && (forall k :: 0 <= k < |postings| && postings[k].Registered? ==>
          SoundRequest(d, postings[..k], postings[k].request))
    && (forall k :: 0 <= k < |postings| && postings[k].Other? ==>
          Unpack(c, postings[k].contents).None? || Unpack(c, postings[k].contents).value.accum == "")
  }

  lemma SoundIsRepresentable(c: Codec, d: Definition, postings: seq<Posting>)
    requires SoundHistory(c, d, postings)
    ensures forall k :: 0 <= k < |postings| ==> Representable(postings[k])
  {
  }

  lemma SoundPrefix(c: Codec, d: Definition, postings: seq<Posting>)
    requires SoundHistory(c, d, postings) && postings != []
    ensures SoundHistory(c, d, postings[..|postings| - 1])
  {
    var init := postings[..|postings| - 1];
    forall k | 0 <= k < |init| && init[k].Registered? ensures SoundRequest(d, init[..k], init[k].request) {
      assert init[..k] == postings[..k];
    }
  }

  /** The plain meaning: the last registration at or before a time. */
  function LastAt(postings: seq<Posting>, nanos: int): Option<StatusList> {
    if postings == [] then None
    else
      var p := postings[|postings| - 1];
      if p.Registered? && p.at <= nanos then Some(p.request) else LastAt(postings[..|postings| - 1], nanos)
  }

  /** The list and the accumulator that a reader should see. */
  predicate EntriesShow(d: Definition, entries: seq<RevocationEntry>, last: Option<StatusList>) {
    match last
    case None => entries == []
    case Some(r) =>
      && entries != [] && Replay(d.maxCredNum, entries) == r.revocationList
      && entries[|entries| - 1].accum == r.currentAccumulator
  }

  lemma {:induction false} TopicTimes(c: Codec, d: Definition, postings: seq<Posting>)
    requires forall k :: 0 <= k < |postings| ==> Representable(postings[k])
    ensures forall k :: 0 <= k < |postings| ==>
      TopicOf(c, d, postings)[k].consensusTime == postings[k].at && TopicOf(c, d, postings)[k].sequenceNumber == k
  {
    if postings != [] { TopicTimes(c, d, postings[..|postings| - 1]); }
  }

  /** The window holds what is on the topic from the epoch up to the time, both included. */
  lemma WindowHolds(topic: seq<TopicMessage>, nanos: int, m: TopicMessage)
    ensures m in WindowAt(topic, nanos) <==> m in topic && 0 <= m.consensusTime <= nanos
  {
    FilterMembers(topic, WindowOf(Query(Some(0), Some(nanos), None)));
  }

  /** The window at a time, one message later. */
  lemma WindowSnoc(topic: seq<TopicMessage>, m: TopicMessage, nanos: int)
    requires m.consensusTime >= 0
    ensures WindowAt(topic + [m], nanos) == WindowAt(topic, nanos) + (if m.consensusTime <= nanos then [m] else [])
  {
    assert (topic + [m])[..|topic|] == topic;
  }

  lemma EntriesSnoc(c: Codec, messages: seq<TopicMessage>, m: TopicMessage)
    ensures Entries(c, messages + [m]) == Entries(c, messages)
      + (if Unpack(c, m.contents).Some? && Unpack(c, m.contents).value.accum != ""
         then [Unpack(c, m.contents).value] else [])
  {
    assert (messages + [m])[..|messages|] == messages;
  }

  lemma ReplaySnoc(n: nat, entries: seq<RevocationEntry>, e: RevocationEntry)
    ensures Replay(n, entries + [e]) == ApplyEntry(Replay(n, entries), e)
  {
    assert (entries + [e])[..|entries|] == entries;
  }

  lemma {:induction false} LastIsSound(c: Codec, d: Definition, postings: seq<Posting>, nanos: int)
    requires SoundHistory(c, d, postings)
    ensures LastAt(postings, nanos).Some? ==>
      && Binary(LastAt(postings, nanos).value.revocationList)
      && |LastAt(postings, nanos).value.revocationList| == d.maxCredNum
  {
    if postings != [] {
      SoundPrefix(c, d, postings);
      LastIsSound(c, d, postings[..|postings| - 1], nanos);
    }
  }

  /** Reading late enough sees the last registration there is. */
  lemma {:induction false} LastAtLate(postings: seq<Posting>, early: int, late: int)
    requires forall k :: 0 <= k < |postings| && postings[k].Registered? ==> postings[k].at <= early <= late
    ensures LastAt(postings, early) == LastAt(postings, late)
  {
    if postings != [] { LastAtLate(postings[..|postings| - 1], early, late); }
  }

  /** The list that the next difference is computed against. */
  function Past(d: Definition, last: Option<StatusList>): StatusBits {
    if last.Some? then last.value.revocationList else Zeros(d.maxCredNum)
  }

  function PastAccum(last: Option<StatusList>): Option<string> {
    if last.Some? then Some(last.value.currentAccumulator) else None
  }

  /** The entry of a sound registration is the difference against the last registered list, and
      it names that registration's accumulator as its predecessor. */
  lemma SubmittedEntry(c: Codec, d: Definition, topic: seq<TopicMessage>, r: StatusList, earlier: seq<Posting>,
                       last: Option<StatusList>)
    requires TextLaws(c) && CompressionLaw(c)
    requires SoundRequest(d, earlier, r) && d.maxCredNum < U32_LIMIT
    requires EntriesShow(d, Entries(c, WindowAt(topic, r.timestamp * NANOS)), last)
    requires last.Some? ==> |last.value.revocationList| == d.maxCredNum
    ensures Unpack(c, Submission(c, d, topic, r))
      == Some(DiffEntry(Past(d, last), r.revocationList, r.currentAccumulator, PastAccum(last)))
  {
    var current := ResolveStatusList(c, d, r.revRegDefId, topic, r.timestamp);
    var e := DiffEntry(Past(d, last), r.revocationList, r.currentAccumulator, PastAccum(last));
    assert NewEntry(current, r) == Ok(e);
    PositionsSmall(Past(d, last), r.revocationList, 1, 0);
    PositionsSmall(Past(d, last), r.revocationList, 0, 1);
    PackRoundTrip(c, e);
  }

  lemma ShowsNext(d: Definition, entries: seq<RevocationEntry>, last: Option<StatusList>, r: StatusList,
                  prev: Option<string>)
    requires EntriesShow(d, entries, last) && d.maxCredNum < U32_LIMIT
    requires last.Some? ==> Binary(last.value.revocationList) && |last.value.revocationList| == d.maxCredNum
    requires Binary(r.revocationList) && |r.revocationList| == d.maxCredNum
    ensures EntriesShow(d, entries + [DiffEntry(Past(d, last), r.revocationList, r.currentAccumulator, prev)], Some(r))
  {
    var e := DiffEntry(Past(d, last), r.revocationList, r.currentAccumulator, prev);
    ReplaySnoc(d.maxCredNum, entries, e);
    FreshDifference(Past(d, last), r.revocationList, r.currentAccumulator, prev);
    assert Replay(d.maxCredNum, entries) == Past(d, last);
  }

  /** A message outside the window, or one that is no entry, changes nothing. */
  lemma MessageIgnored(c: Codec, before: seq<TopicMessage>, m: TopicMessage, nanos: int)
    requires m.consensusTime >= 0
    requires m.consensusTime > nanos || Unpack(c, m.contents).None? || Unpack(c, m.contents).value.accum == ""
    ensures Entries(c, WindowAt(before + [m], nanos)) == Entries(c, WindowAt(before, nanos))
  {
    WindowSnoc(before, m, nanos);
    var window := WindowAt(before, nanos);
    if m.consensusTime <= nanos {
      EntriesSnoc(c, window, m);
      assert Entries(c, window) + [] == Entries(c, window);
    } else {
      assert window + [] == window;
    }
  }

  /** A registration inside the window is what the reader sees next. */
  lemma MessageCounts(c: Codec, d: Definition, before: seq<TopicMessage>, m: TopicMessage, nanos: int,
                      last: Option<StatusList>, r: StatusList)
    requires 0 <= m.consensusTime <= nanos && d.maxCredNum < U32_LIMIT
    requires EntriesShow(d, Entries(c, WindowAt(before, nanos)), last)
    requires last.Some? ==> Binary(last.value.revocationList) && |last.value.revocationList| == d.maxCredNum
    requires Binary(r.revocationList) && |r.revocationList| == d.maxCredNum && r.currentAccumulator != ""
    requires Unpack(c, m.contents)
      == Some(DiffEntry(Past(d, last), r.revocationList, r.currentAccumulator, PastAccum(last)))
    ensures EntriesShow(d, Entries(c, WindowAt(before + [m], nanos)), Some(r))
  {
    WindowSnoc(before, m, nanos);
    EntriesSnoc(c, WindowAt(before, nanos), m);
    ShowsNext(d, Entries(c, WindowAt(before, nanos)), last, r, PastAccum(last));
  }

  lemma TopicSnoc(c: Codec, d: Definition, postings: seq<Posting>) returns (m: TopicMessage)
    requires postings != [] && forall k :: 0 <= k < |postings| ==> Representable(postings[k])
    ensures TopicOf(c, d, postings) == TopicOf(c, d, postings[..|postings| - 1]) + [m]
    ensures m.consensusTime == postings[|postings| - 1].at && m == TopicOf(c, d, postings)[|postings| - 1]
    ensures postings[|postings| - 1].Other? ==> m.contents == postings[|postings| - 1].contents
  {
    m := TopicOf(c, d, postings)[|postings| - 1];
  }

  /** At every time the entries in the window replay to the last list registered by then. */
  lemma {:induction false} EntriesShowHistory(c: Codec, d: Definition, postings: seq<Posting>, nanos: int)
    requires TextLaws(c) && CompressionLaw(c) && SoundHistory(c, d, postings)
    ensures EntriesShow(d, Entries(c, WindowAt(TopicOf(c, d, postings), nanos)), LastAt(postings, nanos))
    decreases |postings|
  {
    SoundIsRepresentable(c, d, postings);
    if postings != [] {
      var n := |postings| - 1;
      var init, p := postings[..n], postings[n];
      SoundPrefix(c, d, postings);
      EntriesShowHistory(c, d, init, nanos);
      var m := TopicSnoc(c, d, postings);
      if p.Registered? && p.at <= nanos {
        PostedEntry(c, d, postings);
        assert SoundRequest(d, init, p.request);
        LastAtRegistration(d, postings, nanos);
        LastIsSound(c, d, init, nanos);
        MessageCounts(c, d, TopicOf(c, d, init), m, nanos, LastAt(init, nanos), p.request);
      } else {
        MessageIgnored(c, TopicOf(c, d, init), m, nanos);
      }
    }
  }

  /** The read of the last registration sees all earlier ones. */
  lemma LastAtRegistration(d: Definition, postings: seq<Posting>, nanos: int)
    requires postings != [] && postings[|postings| - 1].Registered? && postings[|postings| - 1].at <= nanos
    requires SoundRequest(d, postings[..|postings| - 1], postings[|postings| - 1].request)
    requires forall j, k :: 0 <= j < k < |postings| ==> postings[j].at < postings[k].at
    ensures LastAt(postings[..|postings| - 1], postings[|postings| - 1].request.timestamp * NANOS)
      == LastAt(postings[..|postings| - 1], nanos)
  {
    var init := postings[..|postings| - 1];
    var ts := postings[|postings| - 1].request.timestamp * NANOS;
    if ts <= nanos { LastAtLate(init, ts, nanos); } else { LastAtLate(init, nanos, ts); }
  }

  /** The entry that the last posting, a registration, put on the topic. */
  lemma PostedEntry(c: Codec, d: Definition, postings: seq<Posting>)
    requires TextLaws(c) && CompressionLaw(c) && SoundHistory(c, d, postings)
    requires postings != [] && postings[|postings| - 1].Registered?
    requires forall k :: 0 <= k < |postings| ==> Representable(postings[k])
    ensures var n := |postings| - 1;
      var r := postings[n].request;
      var last := LastAt(postings[..n], r.timestamp * NANOS);
      (last.Some? ==> |last.value.revocationList| == d.maxCredNum)
      && |r.revocationList| == d.maxCredNum
      && Unpack(c, TopicOf(c, d, postings)[n].contents)
           == Some(DiffEntry(Past(d, last), r.revocationList, r.currentAccumulator, PastAccum(last)))
    decreases |postings|, 0
  {
    var n := |postings| - 1;
    var r := postings[n].request;
    SoundPrefix(c, d, postings);
    EntriesShowHistory(c, d, postings[..n], r.timestamp * NANOS);
    LastIsSound(c, d, postings[..n], r.timestamp * NANOS);
    assert SoundRequest(d, postings[..n], r);
    SubmittedEntry(c, d, TopicOf(c, d, postings[..n]), r, postings[..n], LastAt(postings[..n], r.timestamp * NANOS));
  }

  // ---------------------------------------------------------------- main results

  /** Revocation time travel, at every `u64` timestamp: within the years the time library can
      express, the answer is the last list registered by then with its accumulator, or nothing
      before the first one; timestamps that wrap to a representable negative time find nothing;
      all others are rejected. */
  lemma ResolvingAtAnyTime(c: Codec, d: Definition, id: string, postings: seq<Posting>, t: nat)
    requires TextLaws(c) && CompressionLaw(c) && SoundHistory(c, d, postings)
    requires t < 0x1_0000_0000_0000_0000
    requires forall k :: 0 <= k < |postings| ==> Representable(postings[k])
    ensures ResolveStatusList(c, d, id, TopicOf(c, d, postings), t) ==
      if t <= 253402300799 then
        Ok(match LastAt(postings, t * NANOS)
           case Some(r) => Some(StatusList(d.issuerId, id, r.revocationList, r.currentAccumulator, t))
           case None => None)
      else if t >= 0x1_0000_0000_0000_0000 - 377705116800 then Ok(None)
      else Err(InvalidArgument)
  {
    if t <= 253402300799 {
      EntriesShowHistory(c, d, postings, t * NANOS);
    } else if t >= 0x1_0000_0000_0000_0000 - 377705116800 {
      EntriesShowHistory(c, d, postings, AsI64(t) * NANOS);
      NothingBeforeEpoch(postings, AsI64(t) * NANOS);
    }
  }

  lemma {:induction false} NothingBeforeEpoch(postings: seq<Posting>, nanos: int)
    requires nanos < 0 && forall k :: 0 <= k < |postings| ==> postings[k].at >= 0
    ensures LastAt(postings, nanos).None?
  {
    if postings != [] { NothingBeforeEpoch(postings[..|postings| - 1], nanos); }
  }

  function LastRegistered(postings: seq<Posting>): Option<StatusList> {
    if postings == [] then None
    else if postings[|postings| - 1].Registered? then Some(postings[|postings| - 1].request)
    else LastRegistered(postings[..|postings| - 1])
  }

  lemma {:induction false} LastAtIsLastRegistered(postings: seq<Posting>, nanos: int)
    requires forall k :: 0 <= k < |postings| && postings[k].Registered? ==> postings[k].at <= nanos
    ensures LastAt(postings, nanos) == LastRegistered(postings)
  {
    if postings != [] { LastAtIsLastRegistered(postings[..|postings| - 1], nanos); }
  }

  lemma {:induction false} SoundPrefixes(c: Codec, d: Definition, postings: seq<Posting>, n: nat)
    requires SoundHistory(c, d, postings) && n <= |postings|
    ensures SoundHistory(c, d, postings[..n])
    decreases |postings|
  {
    if n < |postings| {
      SoundPrefix(c, d, postings);
      SoundPrefixes(c, d, postings[..|postings| - 1], n);
      assert postings[..|postings| - 1][..n] == postings[..n];
    } else {
      assert postings[..n] == postings;
    }
  }

  lemma {:induction false} TopicOfPrefix(c: Codec, d: Definition, postings: seq<Posting>, n: nat)
    requires n <= |postings| && forall k :: 0 <= k < |postings| ==> Representable(postings[k])
    ensures TopicOf(c, d, postings[..n]) == TopicOf(c, d, postings)[..n]
    decreases |postings|
  {
    if n < |postings| {
      var init := postings[..|postings| - 1];
      TopicOfPrefix(c, d, init, n);
      assert init[..n] == postings[..n];
      var m := TopicSnoc(c, d, postings);
    } else {
      assert postings[..n] == postings;
    }
  }

  /** Every registered entry carries its own accumulator and names its predecessor's. */
  lemma AccumulatorsAreChained(c: Codec, d: Definition, postings: seq<Posting>, k: nat)
    requires TextLaws(c) && CompressionLaw(c) && SoundHistory(c, d, postings)
    requires k < |postings| && postings[k].Registered?
    requires forall i :: 0 <= i < |postings| ==> Representable(postings[i])
    ensures Unpack(c, TopicOf(c, d, postings)[k].contents).Some?
    ensures var e := Unpack(c, TopicOf(c, d, postings)[k].contents).value;
      && e.accum == postings[k].request.currentAccumulator
      && e.prevAccum == PastAccum(LastRegistered(postings[..k]))
  {
    var upTo := postings[..k + 1];
    assert upTo[..k] == postings[..k];
    SoundPrefixes(c, d, postings, k + 1);
    TopicOfPrefix(c, d, postings, k + 1);
    PostedEntry(c, d, upTo);
    assert SoundRequest(d, postings[..k], postings[k].request);
    LastAtIsLastRegistered(postings[..k], postings[k].request.timestamp * NANOS);
  }

  /** The registry may read through any cache and a stream that ends at the time asked for, on a
      topic that has grown since: over a history the cached read is the window. */
  lemma CachedRegistryRead(c: Codec, d: Definition, postings: seq<Posting>, cached: Option<seq<TopicMessage>>,
                           items: seq<StreamItem>, nanos: int, e: nat)
    requires SoundHistory(c, d, postings)
    requires forall i :: 0 <= i < |postings| ==> Representable(postings[i])
    requires Within(cached.UnwrapOr([]), TopicOf(c, d, postings))
    requires e <= |postings| && forall i :: e <= i < |postings| ==> postings[i].at > nanos
    requires Delivers(items, TopicOf(c, d, postings)[..e])
    ensures Answer(cached, items, Query(Some(0), Some(nanos), None)) == Ok(WindowAt(TopicOf(c, d, postings), nanos))
  {
    var topic := TopicOf(c, d, postings);
    TopicTimes(c, d, postings);
    assert ValidTopic(topic);
    assert topic[0..e] == topic[..e];
    CacheTransparency(topic, cached, items, Query(Some(0), Some(nanos), None), 0, e);
  }
}
