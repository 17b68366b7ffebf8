/**
 Reading a topic (`hcs/src/hcs/message.rs`): cached and freshly streamed messages are merged
 by sequence number, sorted by time, cut to a window and truncated.
 */
module TopicMessages {
  import opened Wrappers
  import opened Codec
  import opened Sorting

  datatype TopicMessage = TopicMessage(consensusTime: int, contents: Bytes, sequenceNumber: nat)

  /** The time window and the limit of a read, bounds inclusive. */
  datatype Query = Query(fromTime: Option<int>, toTime: Option<int>, limit: Option<nat>)

  const TIME: TopicMessage -> int := (m: TopicMessage) => m.consensusTime
  const SEQUENCE: TopicMessage -> int := (m: TopicMessage) => m.sequenceNumber

  // ---------------------------------------------------------------- meaning of the source

  function Filter(s: seq<TopicMessage>, p: TopicMessage -> bool): seq<TopicMessage> {
    if s == [] then []
    else Filter(s[..|s| - 1], p) + (if p(s[|s| - 1]) then [s[|s| - 1]] else [])
  }

  predicate InWindow(q: Query, m: TopicMessage) {
    (q.fromTime.Some? ==> m.consensusTime >= q.fromTime.value) && (q.toTime.Some? ==> m.consensusTime <= q.toTime.value)
  }

  /** The window as a filter. */
  function WindowOf(q: Query): TopicMessage -> bool {
    m => InWindow(q, m)
  }

  /** The window over what is in one of two lists. */
  function WindowOver(a: seq<TopicMessage>, b: seq<TopicMessage>, q: Query): TopicMessage -> bool {
    m => (m in a || m in b) && InWindow(q, m)
  }

  function Truncate(s: seq<TopicMessage>, limit: Option<nat>): seq<TopicMessage> {
    if limit.Some? && |s| > limit.value then s[..limit.value] else s
  }

  /** `apply_topic_message_filters`. */
  function ApplyFilters(s: seq<TopicMessage>, q: Query): seq<TopicMessage> {
    var sorted := SortByKey(s, TIME);
    var kept := if q.fromTime.Some? || q.toTime.Some? then Filter(sorted, WindowOf(q)) else sorted;
    Truncate(kept, q.limit)
  }

  function InsertAll(bySequence: map<nat, TopicMessage>, s: seq<TopicMessage>): map<nat, TopicMessage> {
    if s == [] then bySequence
    else InsertAll(bySequence, s[..|s| - 1])[s[|s| - 1].sequenceNumber := s[|s| - 1]]
  }

  /** `merge_dedup_topic_messages`: a fresh message replaces a cached one of the same number. */
  function Merge(cached: seq<TopicMessage>, streamed: seq<TopicMessage>): seq<TopicMessage> {
    ValuesByKey(InsertAll(InsertAll(map[], cached), streamed))
  }

  /** What the subscription stream answers when it is polled. */
  datatype StreamItem = Delivered(message: TopicMessage) | NotFoundStatus | StreamError | IdleTimeout | EndOfStream

  /** The loop stops by itself after this message. */
  predicate StopsAfter(streamed: seq<TopicMessage>, q: Query)
    requires streamed != []
  {
    || (q.toTime.Some? && streamed[|streamed| - 1].consensusTime >= q.toTime.value)
    || (q.limit.Some? && |streamed| >= q.limit.value)
  }

  /** The messages the stream loop collects; a stream that has nothing more to say has ended. */
  function Collect(items: seq<StreamItem>, streamed: seq<TopicMessage>, q: Query): Result<seq<TopicMessage>, DidError> {
    if items == [] then Ok(streamed)
    else
      match items[0]
      case Delivered(m) =>
        if StopsAfter(streamed + [m], q) then Ok(streamed + [m]) else Collect(items[1..], streamed + [m], q)
      case StreamError => Err(InternalError)
      case _ => Ok(streamed)
  }

  /** The answer of a read, given what was cached and what the stream said. */
  function Answer(cached: Option<seq<TopicMessage>>, items: seq<StreamItem>, q: Query)
    : Result<seq<TopicMessage>, DidError>
  {
    var streamed :- Collect(items, [], q);
    Ok(ApplyFilters(Merge(cached.UnwrapOr([]), streamed), q))
  }

  /** Only unrestricted reads are stored. */
  predicate IsStored(q: Query) {
    q.fromTime.None? && q.toTime.None? && q.limit.None?
  }

  // ---------------------------------------------------------------- the topic

  /** Consensus numbers and times strictly increase along a topic. */
  ghost predicate ValidTopic(topic: seq<TopicMessage>) {
    StrictlySortedBy(topic, SEQUENCE) && StrictlySortedBy(topic, TIME)
  }

  ghost predicate Within(s: seq<TopicMessage>, topic: seq<TopicMessage>) {
    forall m :: m in s ==> m in topic
  }

  /** The plain meaning of a query: the first `limit` messages of the inclusive window. */
  function Window(topic: seq<TopicMessage>, q: Query): seq<TopicMessage> {
    Truncate(Filter(topic, WindowOf(q)), q.limit)
  }

  // ---------------------------------------------------------------- filtering

  lemma {:induction false} FilterMembers(s: seq<TopicMessage>, p: TopicMessage -> bool)
    ensures forall m :: m in Filter(s, p) <==> m in s && p(m)
  {
    if s != [] {
      FilterMembers(s[..|s| - 1], p);
      assert s == s[..|s| - 1] + [s[|s| - 1]];
    }
  }

  lemma {:induction false} FilterKeepsOrder(s: seq<TopicMessage>, p: TopicMessage -> bool, key: TopicMessage -> int)
    requires StrictlySortedBy(s, key)
    ensures StrictlySortedBy(Filter(s, p), key)
  {
    if s != [] {
      var n := |s| - 1;
      var init := Filter(s[..n], p);
      FilterKeepsOrder(s[..n], p, key);
      FilterMembers(s[..n], p);
      forall i | 0 <= i < |init| ensures key(init[i]) < key(s[n]) {
        assert init[i] in init;
        var j :| 0 <= j < n && s[..n][j] == init[i];
      }
    }
  }

  lemma {:induction false} FilterConcat(a: seq<TopicMessage>, b: seq<TopicMessage>, p: TopicMessage -> bool)
    ensures Filter(a + b, p) == Filter(a, p) + Filter(b, p)
    decreases |b|
  {
    if b == [] {
      assert a + b == a;
    } else {
      var n := |b| - 1;
      FilterConcat(a, b[..n], p);
      assert (a + b)[..|a + b| - 1] == a + b[..n];
    }
  }

  lemma {:induction false} FilterAll(s: seq<TopicMessage>, p: TopicMessage -> bool)
    requires forall m :: m in s ==> p(m)
    ensures Filter(s, p) == s
  {
    if s != [] {
      FilterAll(s[..|s| - 1], p);
      assert s == s[..|s| - 1] + [s[|s| - 1]];
      assert s[|s| - 1] in s;
    }
  }

  lemma {:induction false} FilterNone(s: seq<TopicMessage>, p: TopicMessage -> bool)
    requires forall m :: m in s ==> !p(m)
    ensures Filter(s, p) == []
  {
    if s != [] {
      FilterNone(s[..|s| - 1], p);
      assert s[|s| - 1] in s;
    }
  }

  lemma {:induction false} FilterSame(s: seq<TopicMessage>, p: TopicMessage -> bool, q: TopicMessage -> bool)
    requires forall m :: m in s ==> p(m) == q(m)
    ensures Filter(s, p) == Filter(s, q)
  {
    if s != [] {
      FilterSame(s[..|s| - 1], p, q);
      assert s[|s| - 1] in s;
    }
  }

  lemma {:induction false} FilterTwice(s: seq<TopicMessage>, p: TopicMessage -> bool, q: TopicMessage -> bool)
    ensures Filter(Filter(s, p), q) == Filter(s, m => p(m) && q(m))
  {
    if s != [] {
      var n := |s| - 1;
      FilterTwice(s[..n], p, q);
      FilterConcat(Filter(s[..n], p), if p(s[n]) then [s[n]] else [], q);
    }
  }

  // ---------------------------------------------------------------- merging parts of a topic

  /** Only messages of the two lists are in the map, under their own numbers. */
  lemma {:induction false} InsertAllEntries(bySequence: map<nat, TopicMessage>, s: seq<TopicMessage>)
    requires forall k :: k in bySequence ==> bySequence[k].sequenceNumber == k
    ensures forall k :: k in InsertAll(bySequence, s) ==> InsertAll(bySequence, s)[k].sequenceNumber == k
    ensures forall k :: k in InsertAll(bySequence, s) ==>
      InsertAll(bySequence, s)[k] in s || (k in bySequence && InsertAll(bySequence, s)[k] == bySequence[k])
    ensures forall k :: k in bySequence ==> k in InsertAll(bySequence, s)
    ensures forall m :: m in s ==> m.sequenceNumber in InsertAll(bySequence, s)
  {
    if s != [] {
      InsertAllEntries(bySequence, s[..|s| - 1]);
      assert s == s[..|s| - 1] + [s[|s| - 1]];
    }
  }

  /** Every message of the answer was cached or streamed. */
  lemma MergeMembers(cached: seq<TopicMessage>, streamed: seq<TopicMessage>)
    ensures forall m :: m in Merge(cached, streamed) ==> m in cached || m in streamed
    ensures StrictlySortedBy(Merge(cached, streamed), SEQUENCE)
  {
    var first := InsertAll(map[], cached);
    var all := InsertAll(first, streamed);
    InsertAllEntries(map[], cached);
    InsertAllEntries(first, streamed);
    ValuesByKeyListing(all, SEQUENCE);
    ListedIsValue(all);
    forall m | m in Merge(cached, streamed) ensures m in cached || m in streamed {
      var i :| 0 <= i < |Merge(cached, streamed)| && Merge(cached, streamed)[i] == m;
      assert HasValue(all, m);
      var k :| k in all && all[k] == m;
    }
  }

  /** The last message of the list with this one's number is this one. */
  ghost predicate IsLast(s: seq<TopicMessage>, m: TopicMessage) {
    exists i :: 0 <= i < |s| && s[i] == m && forall j :: i < j < |s| ==> s[j].sequenceNumber != m.sequenceNumber
  }

  predicate HasNumber(s: seq<TopicMessage>, number: nat) {
    exists i :: 0 <= i < |s| && s[i].sequenceNumber == number
  }

  lemma {:induction false} InsertAllIsLast(bySequence: map<nat, TopicMessage>, s: seq<TopicMessage>, m: TopicMessage)
    ensures var all, n := InsertAll(bySequence, s), m.sequenceNumber;
      (n in all && all[n] == m)
      <==> if HasNumber(s, n) then IsLast(s, m) else n in bySequence && bySequence[n] == m
  {
    if s != [] {
      var init, last := s[..|s| - 1], s[|s| - 1];
      InsertAllIsLast(bySequence, init, m);
      assert s == init + [last];
      LastSnoc(init, last, m);
    }
  }

  lemma LastSnoc(init: seq<TopicMessage>, last: TopicMessage, m: TopicMessage)
    ensures HasNumber(init + [last], m.sequenceNumber)
      <==> HasNumber(init, m.sequenceNumber) || last.sequenceNumber == m.sequenceNumber
    ensures IsLast(init + [last], m)
      <==> if last.sequenceNumber == m.sequenceNumber then last == m else IsLast(init, m)
  {
    var s := init + [last];
    assert s[|init|] == last && forall j :: 0 <= j < |init| ==> s[j] == init[j];
    if last.sequenceNumber != m.sequenceNumber && IsLast(init, m) {
      var i :| 0 <= i < |init| && init[i] == m
               && forall j :: i < j < |init| ==> init[j].sequenceNumber != m.sequenceNumber;
      assert s[i] == m;
    }
  }

  /** What a merge holds, whatever the lists: per sequence number, the last streamed message, or the last
      cached one when none was streamed. */
  lemma MergePrefersStreamed(cached: seq<TopicMessage>, streamed: seq<TopicMessage>, m: TopicMessage)
    ensures m in Merge(cached, streamed)
      <==> if HasNumber(streamed, m.sequenceNumber) then IsLast(streamed, m) else IsLast(cached, m)
  {
    var first := InsertAll(map[], cached);
    var all := InsertAll(first, streamed);
    InsertAllIsLast(map[], cached, m);
    InsertAllIsLast(first, streamed, m);
    InsertAllEntries(map[], cached);
    InsertAllEntries(first, streamed);
    ValuesByKeyListing(all, SEQUENCE);
    ListedIsValue(all);
    if m in Merge(cached, streamed) {
      var i :| 0 <= i < |Merge(cached, streamed)| && Merge(cached, streamed)[i] == m;
      assert HasValue(all, m);
    }
  }

  /** Within a topic a number identifies its message. */
  lemma NumberIdentifies(topic: seq<TopicMessage>, a: TopicMessage, b: TopicMessage)
    requires ValidTopic(topic) && a in topic && b in topic && a.sequenceNumber == b.sequenceNumber
    ensures a == b
  {
    var i :| 0 <= i < |topic| && topic[i] == a;
    var j :| 0 <= j < |topic| && topic[j] == b;
    assert SEQUENCE(topic[i]) == SEQUENCE(topic[j]);
  }

  /** Merging two parts of a topic gives the messages of either part, in topic order. */
  lemma MergeOfParts(topic: seq<TopicMessage>, cached: seq<TopicMessage>, streamed: seq<TopicMessage>)
    requires ValidTopic(topic) && Within(cached, topic) && Within(streamed, topic)
    ensures Merge(cached, streamed) == Filter(topic, m => m in cached || m in streamed)
  {
    var p := (m: TopicMessage) => m in cached || m in streamed;
    var first := InsertAll(map[], cached);
    var all := InsertAll(first, streamed);
    MergeMembers(cached, streamed);
    FilterMembers(topic, p);
    FilterKeepsOrder(topic, p, SEQUENCE);
    InsertAllEntries(map[], cached);
    InsertAllEntries(first, streamed);
    ValuesByKeyListing(all, SEQUENCE);
    forall m | m in topic && p(m) ensures m in Merge(cached, streamed) {
      var k := m.sequenceNumber;
      assert k in all;
      assert all[k] in cached || all[k] in streamed;
      NumberIdentifies(topic, m, all[k]);
    }
    SameElementsSameOrder(Merge(cached, streamed), Filter(topic, p), SEQUENCE);
  }

  /** A read that merges two parts of a topic answers with the window over either part. */
  lemma AnswerOfParts(topic: seq<TopicMessage>, cached: seq<TopicMessage>, streamed: seq<TopicMessage>, q: Query)
    requires ValidTopic(topic) && Within(cached, topic) && Within(streamed, topic)
    ensures ApplyFilters(Merge(cached, streamed), q)
      == Truncate(Filter(topic, WindowOver(cached, streamed, q)), q.limit)
  {
    var p := (m: TopicMessage) => m in cached || m in streamed;
    var w := WindowOf(q);
    MergeOfParts(topic, cached, streamed);
    FilterKeepsOrder(topic, p, TIME);
    SortOfSorted(Filter(topic, p), TIME);
    FilterTwice(topic, p, w);
    FilterSame(topic, m => p(m) && w(m), WindowOver(cached, streamed, q));
    if q.fromTime.None? && q.toTime.None? {
      FilterSame(topic, p, WindowOver(cached, streamed, q));
    }
  }

  // ---------------------------------------------------------------- cache transparency

  /** Where in the topic a query's subscription starts: at the first message not before
      `fromTime`. Without a `fromTime` the stream may start anywhere. */
  ghost predicate StartsAt(topic: seq<TopicMessage>, q: Query, s: nat) {
    && s <= |topic|
    && (q.fromTime.Some? ==>
          && (forall i :: 0 <= i < s ==> topic[i].consensusTime < q.fromTime.value)
          && (forall i :: s <= i < |topic| ==> topic[i].consensusTime >= q.fromTime.value))
  }

  /** The stream delivers exactly these messages, in order, and then falls silent. */
  predicate Delivers(items: seq<StreamItem>, messages: seq<TopicMessage>) {
    if messages == [] then items == [] || !(items[0].Delivered? || items[0].StreamError?)
    else items != [] && items[0] == Delivered(messages[0]) && Delivers(items[1..], messages[1..])
  }

  /** The loop collects the delivered messages up to the one after which it stops. */
  lemma {:induction false} CollectPrefix(items: seq<StreamItem>, before: seq<TopicMessage>,
                                         messages: seq<TopicMessage>, q: Query)
    returns (k: nat)
    requires Delivers(items, messages)
    ensures k <= |messages| && Collect(items, before, q) == Ok(before + messages[..k])
    ensures k == |messages| || (before + messages[..k] != [] && StopsAfter(before + messages[..k], q))
    decreases |messages|
  {
    if messages == [] {
      k := 0;
      assert before + messages[..0] == before;
    } else if StopsAfter(before + [messages[0]], q) {
      k := 1;
      assert messages[..1] == [messages[0]];
    } else {
      k := CollectPrefix(items[1..], before + [messages[0]], messages[1..], q);
      assert before + [messages[0]] + messages[1..][..k] == before + messages[..k + 1];
      k := k + 1;
    }
  }

  lemma FilterThree(a: seq<TopicMessage>, b: seq<TopicMessage>, c: seq<TopicMessage>, p: TopicMessage -> bool)
    ensures Filter(a + b + c, p) == Filter(a, p) + Filter(b, p) + Filter(c, p)
  {
    FilterConcat(a + b, c, p);
    FilterConcat(a, b, p);
  }

  /** Different stretches of a topic share no message. */
  lemma StretchesAreDisjoint(before: seq<TopicMessage>, a: seq<TopicMessage>, b: seq<TopicMessage>)
    requires ValidTopic(before + a + b)
    ensures forall m :: m in b ==> m !in a
  {
    forall m | m in b ensures m !in a {
      var topic := before + a + b;
      var i :| 0 <= i < |b| && b[i] == m;
      forall j | 0 <= j < |a| ensures a[j] != m {
        assert SEQUENCE(topic[|before| + j]) < SEQUENCE(topic[|before| + |a| + i]);
      }
    }
  }

  /** A topic cut where the stream started and where it stopped. */
  ghost predicate Cut(topic: seq<TopicMessage>, q: Query, before: seq<TopicMessage>, middle: seq<TopicMessage>,
                      rest: seq<TopicMessage>)
  {
    && topic == before + middle + rest
    && (forall m :: m in before ==> !InWindow(q, m))
  }

  lemma MiddleAndRest(before: seq<TopicMessage>, middle: seq<TopicMessage>, rest: seq<TopicMessage>,
                      cached: seq<TopicMessage>, q: Query)
    requires forall m :: m in before ==> !InWindow(q, m)
    requires forall m :: m in rest ==> m !in middle
    ensures Filter(before, WindowOver(cached, middle, q)) == []
    ensures Filter(middle, WindowOver(cached, middle, q)) == Filter(middle, WindowOf(q))
    ensures Filter(rest, WindowOver(cached, middle, q)) == Filter(rest, WindowOver(cached, [], q))
  {
    FilterNone(before, WindowOver(cached, middle, q));
    FilterSame(middle, WindowOver(cached, middle, q), WindowOf(q));
    FilterSame(rest, WindowOver(cached, middle, q), WindowOver(cached, [], q));
  }

  /** The answer after the stream delivered the middle: nothing from before it, all of the
      window inside it, and of the rest only what was cached. */
  lemma AnswerShape(topic: seq<TopicMessage>, cached: seq<TopicMessage>, q: Query,
                    before: seq<TopicMessage>, middle: seq<TopicMessage>, rest: seq<TopicMessage>)
    requires ValidTopic(topic) && Within(cached, topic) && Cut(topic, q, before, middle, rest)
    ensures ApplyFilters(Merge(cached, middle), q)
      == Truncate(Filter(middle, WindowOf(q)) + Filter(rest, WindowOver(cached, [], q)), q.limit)
  {
    AnswerOfParts(topic, cached, middle, q);
    FilterThree(before, middle, rest, WindowOver(cached, middle, q));
    StretchesAreDisjoint(before, middle, rest);
    MiddleAndRest(before, middle, rest, cached, q);
    EmptyFront(Filter(middle, WindowOf(q)), Filter(rest, WindowOver(cached, [], q)));
  }

  lemma EmptyFront(a: seq<TopicMessage>, b: seq<TopicMessage>)
    ensures [] + a + b == a + b
  {
  }

  /** The window, cut at the same places. */
  lemma WindowShape(topic: seq<TopicMessage>, q: Query, before: seq<TopicMessage>, middle: seq<TopicMessage>,
                    rest: seq<TopicMessage>)
    requires Cut(topic, q, before, middle, rest)
    ensures Window(topic, q) == Truncate(Filter(middle, WindowOf(q)) + Filter(rest, WindowOf(q)), q.limit)
  {
    FilterThree(before, middle, rest, WindowOf(q));
    FilterNone(before, WindowOf(q));
    EmptyFront(Filter(middle, WindowOf(q)), Filter(rest, WindowOf(q)));
  }

  /** The middle begins no earlier than `fromTime`. */
  ghost predicate NotBefore(middle: seq<TopicMessage>, q: Query) {
    q.fromTime.Some? ==> forall m :: m in middle ==> m.consensusTime >= q.fromTime.value
  }

  /** Once the loop has stopped by itself, or everything was delivered, the rest of the topic
      does not matter to the truncated window. */
  lemma RestIsIrrelevant(middle: seq<TopicMessage>, rest: seq<TopicMessage>, q: Query, p: TopicMessage -> bool)
    requires StrictlySortedBy(middle + rest, TIME) && NotBefore(middle, q)
    requires rest == [] || (middle != [] && StopsAfter(middle, q))
    requires forall m :: p(m) ==> InWindow(q, m)
    ensures Truncate(Filter(middle, WindowOf(q)) + Filter(rest, p), q.limit)
      == Truncate(Filter(middle, WindowOf(q)), q.limit)
  {
    var n := |middle| - 1;
    if rest != [] {
      if q.toTime.Some? && middle[n].consensusTime >= q.toTime.value {
        forall m | m in rest ensures !p(m) {
          var i :| 0 <= i < |rest| && rest[i] == m;
          assert TIME((middle + rest)[n]) < TIME((middle + rest)[|middle| + i]);
        }
        FilterNone(rest, p);
      } else {
        forall m | m in middle ensures WindowOf(q)(m) {
          var i :| 0 <= i < |middle| && middle[i] == m;
          if i < n { assert TIME((middle + rest)[i]) < TIME((middle + rest)[n]); }
        }
        FilterAll(middle, WindowOf(q));
      }
    }
  }

  /** The three stretches of a topic after the stream started at `s` and `k` messages were taken. */
  lemma CutAt(topic: seq<TopicMessage>, q: Query, s: nat, k: nat)
    requires ValidTopic(topic) && q.fromTime.Some? && StartsAt(topic, q, s) && s + k <= |topic|
    ensures Cut(topic, q, topic[..s], topic[s..s + k], topic[s + k..])
    ensures topic[s..] == topic[s..s + k] + topic[s + k..]
    ensures StrictlySortedBy(topic[s..], TIME) && NotBefore(topic[s..s + k], q)
  {
    assert topic == topic[..s] + topic[s..s + k] + topic[s + k..];
    forall i, j | 0 <= i < j < |topic[s..]| ensures TIME(topic[s..][i]) < TIME(topic[s..][j]) {
      assert TIME(topic[s + i]) < TIME(topic[s + j]);
    }
  }

  lemma TransparentCut(topic: seq<TopicMessage>, cached: seq<TopicMessage>, q: Query,
                       before: seq<TopicMessage>, middle: seq<TopicMessage>, rest: seq<TopicMessage>)
    requires ValidTopic(topic) && Within(cached, topic) && Cut(topic, q, before, middle, rest)
    requires StrictlySortedBy(middle + rest, TIME) && NotBefore(middle, q)
    requires rest == [] || (middle != [] && StopsAfter(middle, q))
    ensures ApplyFilters(Merge(cached, middle), q) == Window(topic, q)
  {
    AnswerShape(topic, cached, q, before, middle, rest);
    WindowShape(topic, q, before, middle, rest);
    RestIsIrrelevant(middle, rest, q, WindowOver(cached, [], q));
    RestIsIrrelevant(middle, rest, q, WindowOf(q));
  }

  lemma SliceOfSlice(topic: seq<TopicMessage>, s: nat, e: nat, k: nat)
    requires s <= e <= |topic| && k <= e - s
    ensures [] + topic[s..e][..k] == topic[s..s + k]
  {
  }

  lemma AnswerOfCollected(cached: seq<TopicMessage>, items: seq<StreamItem>, q: Query, streamed: seq<TopicMessage>)
    requires Collect(items, [], q) == Ok(streamed)
    ensures Answer(None, items, q) == Ok(ApplyFilters(Merge([], streamed), q))
    ensures Answer(Some(cached), items, q) == Ok(ApplyFilters(Merge(cached, streamed), q))
  {
  }

  /** A stream that ends at `e` has left nothing out: what follows is outside the window, as after
      an end time on a topic that has grown since, or `limit` messages were delivered. */
  ghost predicate EndsAt(topic: seq<TopicMessage>, q: Query, s: nat, e: nat) {
    && s <= e <= |topic|
    && ((forall i :: e <= i < |topic| ==> !InWindow(q, topic[i])) || (q.limit.Some? && q.limit.value <= e - s))
  }

  /** The messages after the cut do not matter when none of them is in the window. */
  lemma OutsideCut(topic: seq<TopicMessage>, cached: seq<TopicMessage>, q: Query,
                   before: seq<TopicMessage>, middle: seq<TopicMessage>, rest: seq<TopicMessage>)
    requires ValidTopic(topic) && Within(cached, topic) && Cut(topic, q, before, middle, rest)
    requires forall m :: m in rest ==> !InWindow(q, m)
    ensures ApplyFilters(Merge(cached, middle), q) == Window(topic, q)
  {
    AnswerShape(topic, cached, q, before, middle, rest);
    WindowShape(topic, q, before, middle, rest);
    FilterNone(rest, WindowOver(cached, [], q));
    FilterNone(rest, WindowOf(q));
  }

  /** Nor does anything when the limit is zero. */
  lemma ZeroLimitCut(topic: seq<TopicMessage>, cached: seq<TopicMessage>, q: Query,
                     before: seq<TopicMessage>, middle: seq<TopicMessage>, rest: seq<TopicMessage>)
    requires ValidTopic(topic) && Within(cached, topic) && Cut(topic, q, before, middle, rest)
    requires q.limit == Some(0)
    ensures ApplyFilters(Merge(cached, middle), q) == Window(topic, q)
  {
    AnswerShape(topic, cached, q, before, middle, rest);
    WindowShape(topic, q, before, middle, rest);
  }

  lemma AfterEnd(topic: seq<TopicMessage>, q: Query, e: nat)
    requires e <= |topic| && forall i :: e <= i < |topic| ==> !InWindow(q, topic[i])
    ensures forall m :: m in topic[e..] ==> !InWindow(q, m)
  {
  }

  /** The loop stopped by itself, or wanted nothing, or what follows is outside the window. */
  ghost predicate Decided(q: Query, middle: seq<TopicMessage>, rest: seq<TopicMessage>) {
    || (middle != [] && StopsAfter(middle, q))
    || q.limit == Some(0)
    || forall m :: m in rest ==> !InWindow(q, m)
  }

  /** For any of these reasons the collected stretch decides the answer. */
  lemma DecidedRead(topic: seq<TopicMessage>, cached: seq<TopicMessage>, q: Query,
                    before: seq<TopicMessage>, middle: seq<TopicMessage>, rest: seq<TopicMessage>)
    requires ValidTopic(topic) && Within(cached, topic) && Cut(topic, q, before, middle, rest)
    requires StrictlySortedBy(middle + rest, TIME) && NotBefore(middle, q) && Decided(q, middle, rest)
    ensures ApplyFilters(Merge(cached, middle), q) == Window(topic, q)
  {
    if middle != [] && StopsAfter(middle, q) {
      TransparentCut(topic, cached, q, before, middle, rest);
    } else if q.limit == Some(0) {
      ZeroLimitCut(topic, cached, q, before, middle, rest);
    } else {
      OutsideCut(topic, cached, q, before, middle, rest);
    }
  }

  lemma EndDecides(topic: seq<TopicMessage>, q: Query, s: nat, e: nat, k: nat)
    requires EndsAt(topic, q, s, e) && k <= e - s
    requires k == e - s || (topic[s..s + k] != [] && StopsAfter(topic[s..s + k], q))
    ensures Decided(q, topic[s..s + k], topic[s + k..])
  {
    if k == e - s && !(q.limit.Some? && q.limit.value <= e - s) { AfterEnd(topic, q, e); }
  }

  /** Cache transparency: whatever part of the topic is cached, a read whose stream delivers the
      topic from `fromTime` up to where it may end answers with the first `limit` messages of the window. */
  lemma CacheTransparency(topic: seq<TopicMessage>, cached: Option<seq<TopicMessage>>, items: seq<StreamItem>,
                          q: Query, s: nat, e: nat)
    requires ValidTopic(topic) && Within(cached.UnwrapOr([]), topic)
    requires q.fromTime.Some? && StartsAt(topic, q, s) && EndsAt(topic, q, s, e) && Delivers(items, topic[s..e])
    ensures Answer(cached, items, q) == Ok(Window(topic, q))
  {
    var k := CollectPrefix(items, [], topic[s..e], q);
    SliceOfSlice(topic, s, e, k);
    AnswerOfCollected(cached.UnwrapOr([]), items, q, topic[s..s + k]);
    CutAt(topic, q, s, k);
    EndDecides(topic, q, s, e, k);
    DecidedRead(topic, cached.UnwrapOr([]), q, topic[..s], topic[s..s + k], topic[s + k..]);
  }

  /** Filtering by the window and by the cached part of it agree exactly when all of it is cached. */
  lemma RestAgreesIff(cached: seq<TopicMessage>, rest: seq<TopicMessage>, q: Query)
    ensures Filter(rest, WindowOver(cached, [], q)) == Filter(rest, WindowOf(q))
      <==> forall m :: m in rest && InWindow(q, m) ==> m in cached
  {
    FilterMembers(rest, WindowOver(cached, [], q));
    FilterMembers(rest, WindowOf(q));
    if forall m :: m in rest && InWindow(q, m) ==> m in cached {
      FilterSame(rest, WindowOver(cached, [], q), WindowOf(q));
    } else {
      var m :| m in rest && InWindow(q, m) && m !in cached;
      assert m in Filter(rest, WindowOf(q)) && m !in Filter(rest, WindowOver(cached, [], q));
    }
  }

  /** The same for the whole answer, when there is no limit. */
  lemma EndedCutIff(topic: seq<TopicMessage>, cached: seq<TopicMessage>, q: Query,
                    before: seq<TopicMessage>, middle: seq<TopicMessage>, rest: seq<TopicMessage>)
    requires ValidTopic(topic) && Within(cached, topic) && Cut(topic, q, before, middle, rest) && q.limit.None?
    ensures ApplyFilters(Merge(cached, middle), q) == Window(topic, q)
      <==> forall m :: m in rest && InWindow(q, m) ==> m in cached
  {
    AnswerShape(topic, cached, q, before, middle, rest);
    WindowShape(topic, q, before, middle, rest);
    RestAgreesIff(cached, rest, q);
    SameTail(Filter(middle, WindowOf(q)), Filter(rest, WindowOver(cached, [], q)), Filter(rest, WindowOf(q)));
  }

  lemma SameTail(a: seq<TopicMessage>, b: seq<TopicMessage>, c: seq<TopicMessage>)
    ensures a + b == a + c <==> b == c
  {
    if a + b == a + c {
      assert b == (a + b)[|a|..] && c == (a + c)[|a|..];
    }
  }

  /** Once the loop has stopped at the end time, nothing later is in the window. */
  lemma StoppedOutside(middle: seq<TopicMessage>, rest: seq<TopicMessage>, q: Query)
    requires StrictlySortedBy(middle + rest, TIME) && middle != [] && StopsAfter(middle, q) && q.limit.None?
    ensures forall m :: m in rest ==> !InWindow(q, m)
  {
    var n := |middle| - 1;
    forall m | m in rest ensures !InWindow(q, m) {
      var i :| 0 <= i < |rest| && rest[i] == m;
      assert TIME((middle + rest)[n]) < TIME((middle + rest)[|middle| + i]);
    }
  }

  lemma AfterMembers(topic: seq<TopicMessage>, q: Query, cached: seq<TopicMessage>, e: nat)
    requires e <= |topic|
    ensures (forall m :: m in topic[e..] && InWindow(q, m) ==> m in cached)
      <==> forall i :: e <= i < |topic| && InWindow(q, topic[i]) ==> topic[i] in cached
  {
    if forall m :: m in topic[e..] && InWindow(q, m) ==> m in cached {
      forall i | e <= i < |topic| && InWindow(q, topic[i]) ensures topic[i] in cached {
        assert topic[i] == topic[e..][i - e];
      }
    }
  }

  /** A stream may also end too soon, for instance just before a message at the end time itself: a
      read without a limit still answers with the window exactly when all that is missing was cached. */
  lemma EndedReadIff(topic: seq<TopicMessage>, cached: seq<TopicMessage>, items: seq<StreamItem>, q: Query, s: nat,
                     e: nat)
    requires ValidTopic(topic) && Within(cached, topic) && q.limit.None?
    requires q.fromTime.Some? && StartsAt(topic, q, s) && s <= e <= |topic| && Delivers(items, topic[s..e])
    ensures Answer(Some(cached), items, q) == Ok(Window(topic, q))
      <==> forall i :: e <= i < |topic| && InWindow(q, topic[i]) ==> topic[i] in cached
  {
    var k := CollectPrefix(items, [], topic[s..e], q);
    SliceOfSlice(topic, s, e, k);
    AnswerOfCollected(cached, items, q, topic[s..s + k]);
    CutAt(topic, q, s, k);
    EndedCutIff(topic, cached, q, topic[..s], topic[s..s + k], topic[s + k..]);
    AfterMembers(topic, q, cached, s + k);
    if k < e - s { StoppedOutside(topic[s..s + k], topic[s + k..], q); }
  }

  lemma TruncateKeepsPrefix(a: seq<TopicMessage>, b: seq<TopicMessage>, limit: Option<nat>)
    requires a <= b
    ensures Truncate(a, limit) <= Truncate(b, limit)
  {
  }

  lemma EarlySilenceCut(topic: seq<TopicMessage>, cached: seq<TopicMessage>, q: Query,
                        before: seq<TopicMessage>, middle: seq<TopicMessage>, rest: seq<TopicMessage>)
    requires ValidTopic(topic) && Within(cached, topic) && Cut(topic, q, before, middle, rest)
    ensures ApplyFilters(Merge([], middle), q) <= ApplyFilters(Merge(cached, middle), q)
  {
    AnswerShape(topic, cached, q, before, middle, rest);
    AnswerShape(topic, [], q, before, middle, rest);
    FilterNone(rest, WindowOver([], [], q));
    var inside := Filter(middle, WindowOf(q));
    TruncateKeepsPrefix(inside + [], inside + Filter(rest, WindowOver(cached, [], q)), q.limit);
  }

  /** When the stream falls silent too early, the cache can only add to the answer: what an
      uncached read returns is a prefix of what the cached one does. */
  lemma EarlySilence(topic: seq<TopicMessage>, cached: seq<TopicMessage>, items: seq<StreamItem>, q: Query, s: nat,
                     e: nat)
    requires ValidTopic(topic) && Within(cached, topic)
    requires q.fromTime.Some? && StartsAt(topic, q, s) && s <= e <= |topic| && Delivers(items, topic[s..e])
    ensures Answer(None, items, q).Ok? && Answer(Some(cached), items, q).Ok?
    ensures Answer(None, items, q).value <= Answer(Some(cached), items, q).value
  {
    var k := CollectPrefix(items, [], topic[s..e], q);
    SliceOfSlice(topic, s, e, k);
    AnswerOfCollected(cached, items, q, topic[s..s + k]);
    CutAt(topic, q, s, k);
    EarlySilenceCut(topic, cached, q, topic[..s], topic[s..s + k], topic[s + k..]);
  }

  /** A filter changes nothing exactly when everything passes it. */
  lemma FilterKeepsAllIff(s: seq<TopicMessage>, p: TopicMessage -> bool)
    ensures Filter(s, p) == s <==> forall m :: m in s ==> p(m)
  {
    FilterMembers(s, p);
    if forall m :: m in s ==> p(m) { FilterAll(s, p); }
  }

  /** Everything passes exactly when what the stream does not deliver was cached. */
  lemma NothingMissedIff(before: seq<TopicMessage>, delivered: seq<TopicMessage>, cached: seq<TopicMessage>)
    requires ValidTopic(before + delivered)
    ensures (forall m :: m in before + delivered ==> WindowOver(cached, delivered, Query(None, None, None))(m))
      <==> Within(before, cached)
  {
    var p := WindowOver(cached, delivered, Query(None, None, None));
    assert before + delivered == [] + before + delivered;
    StretchesAreDisjoint([], before, delivered);
    if !Within(before, cached) {
      var m :| m in before && m !in cached;
      assert m in before + delivered && !p(m);
    }
  }

  /** What an unrestricted read answers. */
  lemma UnrestrictedAnswer(topic: seq<TopicMessage>, delivered: seq<TopicMessage>, cached: seq<TopicMessage>,
                           items: seq<StreamItem>)
    requires ValidTopic(topic) && Within(cached, topic) && Within(delivered, topic) && Delivers(items, delivered)
    ensures Answer(Some(cached), items, Query(None, None, None))
      == Ok(Filter(topic, WindowOver(cached, delivered, Query(None, None, None))))
  {
    var k := CollectPrefix(items, [], delivered, Query(None, None, None));
    assert [] + delivered[..k] == delivered;
    AnswerOfParts(topic, cached, delivered, Query(None, None, None));
  }

  /** Without a `fromTime` the stream starts at an arbitrary position; the unrestricted read
      then returns the whole topic exactly when everything before that position was cached. */
  lemma UnanchoredRead(before: seq<TopicMessage>, delivered: seq<TopicMessage>, cached: seq<TopicMessage>,
                       items: seq<StreamItem>)
    requires ValidTopic(before + delivered) && Within(cached, before + delivered) && Delivers(items, delivered)
    ensures Answer(Some(cached), items, Query(None, None, None)) == Ok(before + delivered) <==> Within(before, cached)
  {
    UnrestrictedAnswer(before + delivered, delivered, cached, items);
    NothingMissedIff(before, delivered, cached);
    FilterKeepsAllIff(before + delivered, WindowOver(cached, delivered, Query(None, None, None)));
  }

  /** What filtering does to any list at all, in whatever order: the messages of the window, sorted by time
      with equal times left in order, cut off at the limit. */
  lemma FiltersMean(s: seq<TopicMessage>, q: Query) returns (sorted: seq<TopicMessage>)
    ensures SortedBy(sorted, TIME) && multiset(sorted) == multiset(s)
    ensures forall time :: WithKey(sorted, TIME, time) == WithKey(s, TIME, time)
    ensures var kept := Filter(sorted, m => InWindow(q, m));
      ApplyFilters(s, q) == if q.limit.Some? && |kept| > q.limit.value then kept[..q.limit.value] else kept
  {
    sorted := SortByKey(s, TIME);
    SortIsSorted(s, TIME);
    SortKeepsElements(s, TIME);
    forall time ensures WithKey(sorted, TIME, time) == WithKey(s, TIME, time) { SortIsStable(s, TIME, time); }
    FilterSame(sorted, m => InWindow(q, m), WindowOf(q));
    if q.fromTime.None? && q.toTime.None? { FilterAll(sorted, WindowOf(q)); }
  }

  // ---------------------------------------------------------------- any stream at all

  /** The delivery at position `k` is enough: it is at or past the end time, or brings as many as wanted. */
  predicate Enough(items: seq<StreamItem>, q: Query, k: nat)
    requires k < |items| && items[k].Delivered?
  {
    || (q.toTime.Some? && items[k].message.consensusTime >= q.toTime.value)
    || (q.limit.Some? && k + 1 >= q.limit.value)
  }

  /** The first `n` items are deliveries, and none before the last of them was enough. */
  predicate Reaches(items: seq<StreamItem>, q: Query, n: nat) {
    && n <= |items| && (forall j :: 0 <= j < n ==> items[j].Delivered?)
    && forall j :: 0 <= j < n - 1 ==> !Enough(items, q, j)
  }

  /** After `n` deliveries, none of them enough, the stream breaks. */
  predicate BreaksAt(items: seq<StreamItem>, q: Query, n: nat) {
    && n < |items| && items[n].StreamError?
    && Reaches(items, q, n) && (n > 0 ==> !Enough(items, q, n - 1))
  }

  /** After `n` deliveries there was enough, or the stream ended, fell silent or found no topic. */
  predicate RestsAt(items: seq<StreamItem>, q: Query, n: nat) {
    && Reaches(items, q, n)
    && ((n > 0 && Enough(items, q, n - 1)) || n == |items| || items[n] in {NotFoundStatus, IdleTimeout, EndOfStream})
  }

  /** The messages that the first `n` items delivered. */
  function DeliveredBy(items: seq<StreamItem>, n: nat): (m: seq<TopicMessage>)
    requires n <= |items| && forall j :: 0 <= j < n ==> items[j].Delivered?
    ensures |m| == n && forall j :: 0 <= j < n ==> m[j] == items[j].message
  {
    seq(n, j requires 0 <= j < n => items[j].message)
  }

  /** Whatever the stream does, the loop ends in one place: where it rests, with what was delivered by
      then, or where it breaks, with an error. */
  lemma {:induction false} CollectEnds(items: seq<StreamItem>, q: Query, i: nat) returns (n: nat)
    requires Reaches(items, q, i) && (i > 0 ==> !Enough(items, q, i - 1))
    ensures i <= n && (RestsAt(items, q, n) || BreaksAt(items, q, n))
    ensures Collect(items[i..], DeliveredBy(items, i), q)
      == if BreaksAt(items, q, n) then Err(InternalError) else Ok(DeliveredBy(items, n))
    decreases |items| - i
  {
    n := i;
    if i < |items| && items[i].Delivered? {
      var before := DeliveredBy(items, i);
      assert before + [items[i].message] == DeliveredBy(items, i + 1);
      assert items[i..][1..] == items[i + 1..];
      if Enough(items, q, i) { n := i + 1; } else { n := CollectEnds(items, q, i + 1); }
    }
  }

  /** There is no other place where it could end. */
  lemma EndIsUnique(items: seq<StreamItem>, q: Query, n: nat, k: nat)
    requires RestsAt(items, q, n) || BreaksAt(items, q, n)
    requires RestsAt(items, q, k) || BreaksAt(items, q, k)
    ensures n == k && !(RestsAt(items, q, n) && BreaksAt(items, q, n))
  {
  }

  /** A read fails exactly when its stream breaks before it rests; otherwise it goes by what was delivered. */
  lemma AnswerFailsIff(cached: Option<seq<TopicMessage>>, items: seq<StreamItem>, q: Query) returns (n: nat)
    ensures Answer(cached, items, q).Err? <==> exists k :: BreaksAt(items, q, k)
    ensures Answer(cached, items, q).Err? ==> Answer(cached, items, q) == Err(InternalError) && BreaksAt(items, q, n)
    ensures Answer(cached, items, q).Ok? ==> RestsAt(items, q, n)
    ensures Answer(cached, items, q).Ok? ==>
      Answer(cached, items, q) == Ok(ApplyFilters(Merge(cached.UnwrapOr([]), DeliveredBy(items, n)), q))
  {
    assert items[0..] == items && DeliveredBy(items, 0) == [];
    n := CollectEnds(items, q, 0);
    if k :| BreaksAt(items, q, k) { EndIsUnique(items, q, n, k); }
  }

  // ---------------------------------------------------------------- any read at all

  /** Filtering first changes a truncated list exactly when something of that list is filtered out. */
  lemma TruncatedFilterIff(s: seq<TopicMessage>, p: TopicMessage -> bool, limit: Option<nat>)
    ensures Truncate(Filter(s, p), limit) == Truncate(s, limit) <==> forall m :: m in Truncate(s, limit) ==> p(m)
  {
    var front := Truncate(s, limit);
    FilterMembers(s, p);
    if forall m :: m in front ==> p(m) {
      assert s == front + s[|front|..];
      FilterConcat(front, s[|front|..], p);
      FilterAll(front, p);
    } else {
      var m :| m in front && !p(m);
      assert m !in Truncate(Filter(s, p), limit);
    }
  }

  /** The exact condition for any read, anchored or not, with any end time and limit, and however its
      stream ended: the answer is the window exactly when all that the window holds was cached or streamed. */
  lemma ReadIff(topic: seq<TopicMessage>, cached: seq<TopicMessage>, items: seq<StreamItem>, q: Query,
                streamed: seq<TopicMessage>)
    requires ValidTopic(topic) && Within(cached, topic) && Within(streamed, topic)
    requires Collect(items, [], q) == Ok(streamed)
    ensures Answer(Some(cached), items, q) == Ok(Window(topic, q))
      <==> forall m :: m in Window(topic, q) ==> m in cached || m in streamed
  {
    var have := (m: TopicMessage) => m in cached || m in streamed;
    AnswerOfParts(topic, cached, streamed, q);
    FilterTwice(topic, WindowOf(q), have);
    FilterSame(topic, m => WindowOf(q)(m) && have(m), WindowOver(cached, streamed, q));
    TruncatedFilterIff(Filter(topic, WindowOf(q)), have, q.limit);
  }

  // ---------------------------------------------------------------- whole runs

  /** One topic and what is cached of it. */
  datatype Reader = Reader(topic: seq<TopicMessage>, cached: Option<seq<TopicMessage>>)

  datatype ReaderEvent = Grow(messages: seq<TopicMessage>) | Read(items: seq<StreamItem>, q: Query) | Evict

  /** The topic only grows, and the stream delivers nothing but messages of the topic. */
  ghost predicate Legal(r: Reader, e: ReaderEvent) {
    match e
    case Grow(messages) => ValidTopic(r.topic + messages)
    case Read(items, _) => forall i :: 0 <= i < |items| && items[i].Delivered? ==> items[i].message in r.topic
    case Evict => true
  }

  function After(r: Reader, e: ReaderEvent): Reader {
    match e
    case Grow(messages) => r.(topic := r.topic + messages)
    case Read(items, q) =>
      (match Answer(r.cached, items, q)
       case Ok(messages) => if IsStored(q) then r.(cached := Some(messages)) else r
       case Err(_) => r)
    case Evict => r.(cached := None)
  }

  function AfterAll(r: Reader, events: seq<ReaderEvent>): Reader
    decreases |events|
  {
    if events == [] then r else AfterAll(After(r, events[0]), events[1..])
  }

  ghost predicate LegalRun(r: Reader, events: seq<ReaderEvent>)
    decreases |events|
  {
    events != [] ==> Legal(r, events[0]) && LegalRun(After(r, events[0]), events[1..])
  }

  ghost predicate ReaderInvariant(r: Reader) {
    ValidTopic(r.topic) && Within(r.cached.UnwrapOr([]), r.topic)
  }

  lemma {:induction false} CollectWithin(items: seq<StreamItem>, before: seq<TopicMessage>, q: Query,
                                         topic: seq<TopicMessage>)
    requires Within(before, topic)
    requires forall i :: 0 <= i < |items| && items[i].Delivered? ==> items[i].message in topic
    ensures Collect(items, before, q).Ok? ==> Within(Collect(items, before, q).value, topic)
    decreases |items|
  {
    if items != [] && items[0].Delivered? {
      CollectWithin(items[1..], before + [items[0].message], q, topic);
    }
  }

  /** Growth, reads and evictions keep the cache a part of the topic. */
  lemma EventKeepsInvariant(r: Reader, e: ReaderEvent)
    requires ReaderInvariant(r) && Legal(r, e)
    ensures ReaderInvariant(After(r, e))
  {
    match e {
      case Read(items, q) =>
        CollectWithin(items, [], q, r.topic);
        if Collect(items, [], q).Ok? {
          var cached, streamed := r.cached.UnwrapOr([]), Collect(items, [], q).value;
          AnswerOfParts(r.topic, cached, streamed, q);
          FilterMembers(r.topic, WindowOver(cached, streamed, q));
        }
      case _ =>
    }
  }

  /** In every run, with failed, interrupted and windowed reads and evictions at any point, what
      is cached is part of the topic; so a fully delivered read afterwards is transparent. */
  lemma {:induction false} EveryRunIsTransparent(r: Reader, events: seq<ReaderEvent>, items: seq<StreamItem>,
                                                q: Query, s: nat, e: nat)
    requires ReaderInvariant(r) && LegalRun(r, events)
    requires q.fromTime.Some? && StartsAt(AfterAll(r, events).topic, q, s) && EndsAt(AfterAll(r, events).topic, q, s, e)
    requires Delivers(items, AfterAll(r, events).topic[s..e])
    ensures ReaderInvariant(AfterAll(r, events))
    ensures Answer(AfterAll(r, events).cached, items, q) == Ok(Window(AfterAll(r, events).topic, q))
    decreases |events|
  {
    if events == [] {
      CacheTransparency(r.topic, r.cached, items, q, s, e);
    } else {
      EventKeepsInvariant(r, events[0]);
      EveryRunIsTransparent(After(r, events[0]), events[1..], items, q, s, e);
    }
  }
}
