/**
 One cache in front of every topic of every network (`hcs/src/service.rs`): reads, cache operations
 and expiries in any order never put a message under a topic that does not have it.
 */
module SharedCache {
  import opened Wrappers
  import opened TopicMessages
  import opened Cache
  import opened TopicReader

  /** The topics there are, by network and id, and the entries of the one cache. */
  datatype World = World(topics: map<(string, string), seq<TopicMessage>>, entries: Entries) {
    function TopicAt(network: string, topicId: string): seq<TopicMessage> {
      if (network, topicId) in topics then topics[(network, topicId)] else []
    }
  }

  datatype WorldEvent =
    | Grows(network: string, topicId: string, messages: seq<TopicMessage>)
    | Reads(network: string, topicId: string, items: seq<StreamItem>, q: Query)
    | Other(op: Operation)

  /** Topics only grow, streams deliver only what is on their topic, topic ids hold no dash, and
      messages are stored by reads alone. */
  ghost predicate Allowed(w: World, e: WorldEvent) {
    match e
    case Grows(n, t, messages) => ValidTopic(w.TopicAt(n, t) + messages)
    case Reads(n, t, items, _) =>
      '-' !in t && forall i :: 0 <= i < |items| && items[i].Delivered? ==> items[i].message in w.TopicAt(n, t)
    case Other(op) => !op.SetMessages? && Dashless(op)
  }

  function Then(codec: EntryCodec, w: World, e: WorldEvent): World {
    match e
    case Grows(n, t, messages) => w.(topics := w.topics[(n, t) := w.TopicAt(n, t) + messages])
    case Reads(n, t, items, q) => w.(entries := AfterRead(codec, w.entries, n, t, items, q))
    case Other(op) => w.(entries := Apply(w.entries, op))
  }

  function ThenAll(codec: EntryCodec, w: World, events: seq<WorldEvent>): World
    decreases |events|
  {
    if events == [] then w else ThenAll(codec, Then(codec, w, events[0]), events[1..])
  }

  ghost predicate AllowedRun(codec: EntryCodec, w: World, events: seq<WorldEvent>)
    decreases |events|
  {
    events != [] ==> Allowed(w, events[0]) && AllowedRun(codec, Then(codec, w, events[0]), events[1..])
  }

  /** What is cached under a topic is part of that topic. */
  ghost predicate SoundAt(codec: EntryCodec, w: World, network: string, topicId: string) {
    && ValidTopic(w.TopicAt(network, topicId))
    && Within(CachedMessages(codec, w.entries, network, topicId).UnwrapOr([]), w.TopicAt(network, topicId))
  }

  ghost predicate Sound(codec: EntryCodec, w: World) {
    forall network, topicId :: '-' !in topicId ==> SoundAt(codec, w, network, topicId)
  }

  /** An empty cache is sound. */
  lemma EmptyCacheIsSound(codec: EntryCodec, topics: map<(string, string), seq<TopicMessage>>)
    requires forall k :: k in topics ==> ValidTopic(topics[k])
    ensures Sound(codec, World(topics, map[]))
  {
  }

  /** Operations other than storing messages leave a topic's cached messages as they are, or drop them. */
  lemma OtherKeepsMessages(codec: EntryCodec, m: Entries, op: Operation, network: string, topicId: string)
    requires !op.SetMessages? && Dashless(op) && '-' !in topicId
    ensures CachedMessages(codec, Apply(m, op), network, topicId).None?
      || CachedMessages(codec, Apply(m, op), network, topicId) == CachedMessages(codec, m, network, topicId)
  {
    if !op.Expire? {
      if op.network == network && op.topicId == topicId {
        DistinctTargets(network, topicId);
      } else {
        OperationsAreIsolated(m, op, network, Messages, topicId);
      }
    }
  }

  /** Storing messages changes what is cached under that topic only. */
  lemma StoredMessages(codec: EntryCodec, m: Entries, n: string, t: string, messages: seq<TopicMessage>,
                       network: string, topicId: string)
    requires EntryLaws(codec) && '-' !in t && '-' !in topicId
    ensures CachedMessages(codec, Apply(m, SetMessages(n, t, codec.writeMessages(messages))), network, topicId)
      == if n == network && t == topicId then Some(messages) else CachedMessages(codec, m, network, topicId)
  {
    var op := SetMessages(n, t, codec.writeMessages(messages));
    if n == network && t == topicId {
      DistinctTargets(network, topicId);
    } else {
      OperationsAreIsolated(m, op, network, Messages, topicId);
    }
  }

  /** A read answers with messages of its topic. */
  lemma AnswerWithin(topic: seq<TopicMessage>, cached: Option<seq<TopicMessage>>, items: seq<StreamItem>, q: Query)
    requires ValidTopic(topic) && Within(cached.UnwrapOr([]), topic)
    requires forall i :: 0 <= i < |items| && items[i].Delivered? ==> items[i].message in topic
    requires IsStored(q)
    ensures Answer(cached, items, q).Ok? ==> Within(Answer(cached, items, q).value, topic)
  {
    var r := Reader(topic, cached);
    EventKeepsInvariant(r, Read(items, q));
    assert Answer(cached, items, q).Ok? ==> After(r, Read(items, q)).cached == Some(Answer(cached, items, q).value);
  }

  lemma EventKeepsSoundAt(codec: EntryCodec, w: World, e: WorldEvent, network: string, topicId: string)
    requires EntryLaws(codec) && Sound(codec, w) && Allowed(w, e) && '-' !in topicId
    ensures SoundAt(codec, Then(codec, w, e), network, topicId)
  {
    assert SoundAt(codec, w, network, topicId);
    match e {
      case Grows(n, t, messages) =>
      case Other(op) => OtherKeepsMessages(codec, w.entries, op, network, topicId);
      case Reads(n, t, items, q) =>
        assert SoundAt(codec, w, n, t);
        var answer := Answer(CachedMessages(codec, w.entries, n, t), items, q);
        if answer.Ok? && IsStored(q) {
          AnswerWithin(w.TopicAt(n, t), CachedMessages(codec, w.entries, n, t), items, q);
          StoredMessages(codec, w.entries, n, t, answer.value, network, topicId);
        }
    }
  }

  /** Every run over all topics at once keeps every topic's cached messages part of that topic. */
  lemma {:induction false} EveryRunIsSound(codec: EntryCodec, w: World, events: seq<WorldEvent>)
    requires EntryLaws(codec) && Sound(codec, w) && AllowedRun(codec, w, events)
    ensures Sound(codec, ThenAll(codec, w, events))
    decreases |events|
  {
    if events != [] {
      forall network, topicId | '-' !in topicId ensures SoundAt(codec, Then(codec, w, events[0]), network, topicId) {
        EventKeepsSoundAt(codec, w, events[0], network, topicId);
      }
      EveryRunIsSound(codec, Then(codec, w, events[0]), events[1..]);
    }
  }

  /** So after any such run a read of any topic through the shared cache is transparent. */
  lemma SharedReadIsTransparent(codec: EntryCodec, w: World, events: seq<WorldEvent>, network: string, topicId: string,
                                items: seq<StreamItem>, q: Query, s: nat, e: nat)
    requires EntryLaws(codec) && Sound(codec, w) && AllowedRun(codec, w, events) && '-' !in topicId
    requires q.fromTime.Some? && StartsAt(ThenAll(codec, w, events).TopicAt(network, topicId), q, s)
    requires EndsAt(ThenAll(codec, w, events).TopicAt(network, topicId), q, s, e)
    requires Delivers(items, ThenAll(codec, w, events).TopicAt(network, topicId)[s..e])
    ensures Answer(CachedMessages(codec, ThenAll(codec, w, events).entries, network, topicId), items, q)
      == Ok(Window(ThenAll(codec, w, events).TopicAt(network, topicId), q))
  {
    EveryRunIsSound(codec, w, events);
    var after := ThenAll(codec, w, events);
    assert SoundAt(codec, after, network, topicId);
    CacheTransparency(after.TopicAt(network, topicId), CachedMessages(codec, after.entries, network, topicId), items,
      q, s, e);
  }

  /** In particular from the empty cache that a process starts with, whatever topics there are. */
  lemma TransparentFromTheStart(codec: EntryCodec, topics: map<(string, string), seq<TopicMessage>>,
                                events: seq<WorldEvent>, network: string, topicId: string, items: seq<StreamItem>,
                                q: Query, s: nat, e: nat)
    requires EntryLaws(codec) && (forall k :: k in topics ==> ValidTopic(topics[k])) && '-' !in topicId
    requires AllowedRun(codec, World(topics, map[]), events) && q.fromTime.Some?
    requires var topic := ThenAll(codec, World(topics, map[]), events).TopicAt(network, topicId);
      StartsAt(topic, q, s) && EndsAt(topic, q, s, e) && Delivers(items, topic[s..e])
    ensures var after := ThenAll(codec, World(topics, map[]), events);
      Answer(CachedMessages(codec, after.entries, network, topicId), items, q)
        == Ok(Window(after.TopicAt(network, topicId), q))
  {
    EmptyCacheIsSound(codec, topics);
    SharedReadIsTransparent(codec, World(topics, map[]), events, network, topicId, items, q, s, e);
  }

  /** The cache is sound, and the stream delivers the topic from `fromTime` to where it may end. */
  ghost predicate Readable(codec: EntryCodec, w: World, network: string, topicId: string, items: seq<StreamItem>,
                           q: Query, s: nat, e: nat)
  {
    && EntryLaws(codec) && Sound(codec, w) && '-' !in topicId && q.fromTime.Some?
    && StartsAt(w.TopicAt(network, topicId), q, s) && EndsAt(w.TopicAt(network, topicId), q, s, e)
    && Delivers(items, w.TopicAt(network, topicId)[s..e])
  }

  lemma ReadKeepsSound(codec: EntryCodec, w: World, network: string, topicId: string, items: seq<StreamItem>, q: Query)
    requires EntryLaws(codec) && Sound(codec, w) && Allowed(w, Reads(network, topicId, items, q))
    ensures Sound(codec, w.(entries := AfterRead(codec, w.entries, network, topicId, items, q)))
  {
    var e := Reads(network, topicId, items, q);
    var w' := w.(entries := AfterRead(codec, w.entries, network, topicId, items, q));
    assert Then(codec, w, e) == w';
    forall n, t | '-' !in t ensures SoundAt(codec, w', n, t) {
      EventKeepsSoundAt(codec, w, e, n, t);
    }
  }

  /** `HederaHcsService::get_topic_messages`. Without a network name, which the client accepts only
      when it knows one network, entries are filed under `default`. */
  method GetTopicMessages(cache: HcsCacheService, knowsNetwork: Option<string> -> bool, networkName: Option<string>,
                          topicId: string, items: seq<StreamItem>, q: Query, ghost w: World, ghost s: nat, ghost e: nat)
    returns (r: Result<seq<TopicMessage>, DidError>)
    modifies cache
    ensures !knowsNetwork(networkName) ==> r == Err(InvalidArgument) && cache.inner == old(cache.inner)
    ensures knowsNetwork(networkName) ==>
      var network := networkName.UnwrapOr("default");
      && r == Answer(CachedMessages(cache.entryCodec, old(cache.inner), network, topicId), items, q)
      && cache.inner == AfterRead(cache.entryCodec, old(cache.inner), network, topicId, items, q)
    ensures (&& knowsNetwork(networkName) && w.entries == old(cache.inner)
             && Readable(cache.entryCodec, w, networkName.UnwrapOr("default"), topicId, items, q, s, e))
      ==> r == Ok(Window(w.TopicAt(networkName.UnwrapOr("default"), topicId), q))
    ensures (&& EntryLaws(cache.entryCodec) && Sound(cache.entryCodec, w) && w.entries == old(cache.inner)
             && Allowed(w, Reads(networkName.UnwrapOr("default"), topicId, items, q)))
      ==> Sound(cache.entryCodec, w.(entries := cache.inner))
  {
    var network := networkName.UnwrapOr("default");
    if Readable(cache.entryCodec, w, network, topicId, items, q, s, e) {
      assert SoundAt(cache.entryCodec, w, network, topicId);
      var cached := CachedMessages(cache.entryCodec, w.entries, network, topicId);
      CacheTransparency(w.TopicAt(network, topicId), cached, items, q, s, e);
    }
    if EntryLaws(cache.entryCodec) && Sound(cache.entryCodec, w) && Allowed(w, Reads(network, topicId, items, q)) {
      ReadKeepsSound(cache.entryCodec, w, network, topicId, items, q);
    }
    if !knowsNetwork(networkName) {
      assert w.(entries := w.entries) == w;
      return Err(InvalidArgument);
    }
    r := GetTopicMessagesWithCache(cache, network, topicId, items, q);
  }
}
