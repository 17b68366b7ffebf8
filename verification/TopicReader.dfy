/** The reading loop of `hcs/src/hcs/message.rs` in the form of the source. */
module TopicReader {
  import opened Wrappers
  import opened Sorting
  import opened TopicMessages
  import opened Cache

  /** `apply_topic_message_filters`: sort by time, keep the window, truncate. */
  method ApplyTopicMessageFilters(messages: seq<TopicMessage>, q: Query) returns (r: seq<TopicMessage>)
    ensures r == ApplyFilters(messages, q)
  {
    r := SortByKey(messages, TIME);
    if q.fromTime.Some? || q.toTime.Some? {
      var sorted := r;
      r := [];
      var i := 0;
      while i < |sorted|
        invariant 0 <= i <= |sorted|
        invariant r == Filter(sorted[..i], WindowOf(q))
      {
        assert sorted[..i + 1][..i] == sorted[..i];
        if InWindow(q, sorted[i]) {
          r := r + [sorted[i]];
        }
        i := i + 1;
      }
      assert sorted[..i] == sorted;
    }
    if q.limit.Some? && |r| > q.limit.value {
      r := r[..q.limit.value];
    }
  }

  /** `merge_dedup_topic_messages`: insert both lists by sequence number, the streamed one last. */
  method MergeDedupTopicMessages(cached: seq<TopicMessage>, streamed: seq<TopicMessage>) returns (r: seq<TopicMessage>)
    ensures r == Merge(cached, streamed)
  {
    var bySequence: map<nat, TopicMessage> := map[];
    var i := 0;
    while i < |cached|
      invariant 0 <= i <= |cached| && bySequence == InsertAll(map[], cached[..i])
    {
      assert cached[..i + 1][..i] == cached[..i];
      bySequence := bySequence[cached[i].sequenceNumber := cached[i]];
      i := i + 1;
    }
    assert cached[..i] == cached;
    ghost var first := bySequence;
    i := 0;
    while i < |streamed|
      invariant 0 <= i <= |streamed| && bySequence == InsertAll(first, streamed[..i])
    {
      assert streamed[..i + 1][..i] == streamed[..i];
      bySequence := bySequence[streamed[i].sequenceNumber := streamed[i]];
      i := i + 1;
    }
    assert streamed[..i] == streamed;
    r := ValuesByKey(bySequence);
  }

  /** The stream loop: pushes until the stream ends, falls silent, fails, or enough was read. */
  method CollectStream(items: seq<StreamItem>, q: Query) returns (r: Result<seq<TopicMessage>, DidError>)
    ensures r == Collect(items, [], q)
  {
    var streamed: seq<TopicMessage> := [];
    var i := 0;
    while i < |items|
      invariant 0 <= i <= |items|
      invariant Collect(items, [], q) == Collect(items[i..], streamed, q)
    {
      assert items[i..][1..] == items[i + 1..];
      match items[i] {
        case Delivered(m) =>
          streamed := streamed + [m];
          if q.toTime.Some? && m.consensusTime >= q.toTime.value {
            return Ok(streamed);
          }
          if q.limit.Some? && |streamed| >= q.limit.value {
            return Ok(streamed);
          }
        case StreamError => return Err(InternalError);
        case _ => return Ok(streamed);
      }
      i := i + 1;
    }
    return Ok(streamed);
  }

  /** What the cache answers for a topic. */
  function CachedMessages(codec: EntryCodec, m: Entries, network: string, topicId: string): Option<seq<TopicMessage>> {
    var key := BuildKey(network, Messages, topicId);
    if key in m then codec.readMessages(m[key]) else None
  }

  /** The cache after a read: the answer replaces the topic's messages, when it is unrestricted. */
  function AfterRead(codec: EntryCodec, m: Entries, network: string, topicId: string, items: seq<StreamItem>,
                     q: Query)
    : Entries
  {
    match Answer(CachedMessages(codec, m, network, topicId), items, q)
    case Ok(messages) =>
      if IsStored(q) then Apply(m, SetMessages(network, topicId, codec.writeMessages(messages))) else m
    case Err(_) => m
  }

  /** A read leaves the cache alone when its stream breaks or it was restricted; otherwise it stores its
      answer under the topic and drops the topic's file. */
  lemma ReadStoresIff(codec: EntryCodec, m: Entries, network: string, topicId: string, items: seq<StreamItem>,
                      q: Query)
    ensures (exists k :: BreaksAt(items, q, k)) || q.fromTime.Some? || q.toTime.Some? || q.limit.Some? ==>
      AfterRead(codec, m, network, topicId, items, q) == m
    ensures !(exists k :: BreaksAt(items, q, k)) && q.fromTime.None? && q.toTime.None? && q.limit.None? ==>
      var answer := Answer(CachedMessages(codec, m, network, topicId), items, q);
      answer.Ok? && AfterRead(codec, m, network, topicId, items, q)
        == m[BuildKey(network, Messages, topicId) := codec.writeMessages(answer.value)]
           - {BuildKey(network, File, topicId)}
  {
    var n := AnswerFailsIff(CachedMessages(codec, m, network, topicId), items, q);
  }

  /** `get_topic_messages_with_cache`. */
  method GetTopicMessagesWithCache(cache: HcsCacheService?, network: string, topicId: string, items: seq<StreamItem>,
                                   q: Query)
    returns (r: Result<seq<TopicMessage>, DidError>)
    modifies cache
    ensures r == Answer(
      if cache == null then None else CachedMessages(cache.entryCodec, old(cache.inner), network, topicId), items, q)
    ensures cache != null ==> cache.inner == AfterRead(cache.entryCodec, old(cache.inner), network, topicId, items, q)
  {
    var cached: Option<seq<TopicMessage>> := None;
    if cache != null {
      cached := cache.GetTopicMessages(network, topicId);
    }
    var streamed :- CollectStream(items, q);
    var results := MergeDedupTopicMessages(cached.UnwrapOr([]), streamed);
    results := ApplyTopicMessageFilters(results, q);
    if cache != null && q.fromTime.None? && q.toTime.None? && q.limit.None? {
      cache.SetTopicMessages(network, topicId, results);
    }
    return Ok(results);
  }
}
