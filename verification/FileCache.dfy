/**
 `resolve_file` (`hcs/src/hcs/file.rs`) in front of the shared cache: what it answers from there was
 once read from the topic, and has the hash that the topic's memo names.
 */
module FileCache {
  import opened Wrappers
  import opened Codec
  import opened Cache
  import opened HcsFile

  /** What a read of a file topic finds beside its memo. */
  datatype Found = Found(hasAdminKey: bool, contents: seq<Bytes>)

  /** Memos by network and topic id. They stay as they are: only an admin key could change one. */
  type Memos = (string, string) -> string

  /** `resolve_file_without_cache`; `found` is an error when the topic cannot be read. */
  function ResolveUncached(c: Codec, memo: string, found: Result<Found, DidError>): Result<Bytes, DidError> {
    match found
    case Ok(f) => ResolveContents(c, memo, f.hasAdminKey, f.contents)
    case Err(e) => Err(e)
  }

  /** `resolve_file`: its answer, and the cache it leaves behind. */
  function ResolveFile(c: Codec, m: Entries, memos: Memos, network: string, topicId: string,
                       found: Result<Found, DidError>): (Result<Bytes, DidError>, Entries)
  {
    var key := BuildKey(network, File, topicId);
    if key in m then (Ok(m[key]), m)
    else
      match ResolveUncached(c, memos(network, topicId), found)
      case Ok(payload) => (Ok(payload), Apply(m, SetFile(network, topicId, payload)))
      case Err(e) => (Err(e), m)
  }

  /** The method itself. Without a cache every call reads the topic. */
  method ResolveFileWithCache(c: Codec, cache: HcsCacheService?, memos: Memos, network: string, topicId: string,
                              found: Result<Found, DidError>)
    returns (r: Result<Bytes, DidError>)
    modifies cache
    ensures cache == null ==> r == ResolveUncached(c, memos(network, topicId), found)
    ensures cache != null ==> (r, cache.inner) == ResolveFile(c, old(cache.inner), memos, network, topicId, found)
  {
    if cache != null {
      var cached := cache.GetTopicFile(network, topicId);
      if cached.Some? {
        return Ok(cached.value);
      }
    }
    var payload :- ResolveUncached(c, memos(network, topicId), found);
    if cache != null {
      cache.SetTopicFile(network, topicId, payload);
    }
    return Ok(payload);
  }

  /** Once answered, a file is answered alike whatever the topic then holds, until its entry goes; a
      failure leaves nothing behind. */
  lemma AnsweredAgain(c: Codec, m: Entries, memos: Memos, network: string, topicId: string,
                      found: Result<Found, DidError>, later: Result<Found, DidError>)
    ensures var (answer, after) := ResolveFile(c, m, memos, network, topicId, found);
      if answer.Ok? then ResolveFile(c, after, memos, network, topicId, later) == (answer, after) else after == m
  {
  }

  // ---------------------------------------------------------------- whole runs

  datatype FileEvent =
    | Resolves(network: string, topicId: string, found: Result<Found, DidError>)
    | Other(op: Operation)

  /** Topic ids hold no dash, and files are stored by `resolve_file` alone. */
  predicate Allowed(e: FileEvent) {
    match e
    case Resolves(_, topicId, _) => '-' !in topicId
    case Other(op) => !op.SetFile? && Dashless(op)
  }

  /** The cache after a run that began with an empty one. */
  function EntriesAfter(c: Codec, memos: Memos, events: seq<FileEvent>): Entries {
    if events == [] then map[]
    else
      var before := EntriesAfter(c, memos, events[..|events| - 1]);
      match events[|events| - 1]
      case Resolves(network, topicId, found) => ResolveFile(c, before, memos, network, topicId, found).1
      case Other(op) => Apply(before, op)
  }

  lemma EventAndFile(c: Codec, m: Entries, memos: Memos, e: FileEvent, network: string, topicId: string)
    requires Allowed(e) && '-' !in topicId
    ensures var after := match e
        case Resolves(n, t, found) => ResolveFile(c, m, memos, n, t, found).1
        case Other(op) => Apply(m, op);
      var key := BuildKey(network, File, topicId);
      key in after ==>
        || (key in m && after[key] == m[key])
        || (e.Resolves? && e.network == network && e.topicId == topicId
            && ResolveUncached(c, memos(network, topicId), e.found) == Ok(after[key]))
  {
    var key := BuildKey(network, File, topicId);
    match e {
      case Other(op) => if key in Apply(m, op) { ApplyAndFile(m, op, network, topicId); }
      case Resolves(n, t, found) =>
        var payload := ResolveUncached(c, memos(n, t), found);
        if payload.Ok? && BuildKey(n, File, t) !in m && key in Apply(m, SetFile(n, t, payload.value)) {
          ApplyAndFile(m, SetFile(n, t, payload.value), network, topicId);
        }
    }
  }

  /** Over any run of resolutions, other cache operations and expiries: a cached file is what an
      earlier resolution read from that very topic. */
  lemma {:induction false} CachedFileWasRead(c: Codec, memos: Memos, events: seq<FileEvent>, network: string,
                                             topicId: string) returns (j: nat)
    requires (forall i :: 0 <= i < |events| ==> Allowed(events[i])) && '-' !in topicId
    requires BuildKey(network, File, topicId) in EntriesAfter(c, memos, events)
    ensures j < |events| && events[j].Resolves? && events[j].network == network && events[j].topicId == topicId
    ensures ResolveUncached(c, memos(network, topicId), events[j].found)
      == Ok(EntriesAfter(c, memos, events)[BuildKey(network, File, topicId)])
    decreases |events|
  {
    var n := |events| - 1;
    var before := EntriesAfter(c, memos, events[..n]);
    EventAndFile(c, before, memos, events[n], network, topicId);
    if BuildKey(network, File, topicId) in before
       && before[BuildKey(network, File, topicId)]
          == EntriesAfter(c, memos, events)[BuildKey(network, File, topicId)] {
      j := CachedFileWasRead(c, memos, events[..n], network, topicId);
    } else {
      j := n;
    }
  }

  /** After any such run, whatever `resolve_file` answers, cached or not, has the hash that the topic's
      memo names; so it has the hash of what reading the topic would give. */
  lemma AnswerHasMemoHash(c: Codec, memos: Memos, events: seq<FileEvent>, network: string, topicId: string,
                          found: Result<Found, DidError>)
    requires (forall i :: 0 <= i < |events| ==> Allowed(events[i])) && '-' !in topicId
    ensures var answer := ResolveFile(c, EntriesAfter(c, memos, events), memos, network, topicId, found).0;
      var uncached := ResolveUncached(c, memos(network, topicId), found);
      && (answer.Ok? ==> IsValidMemo(memos(network, topicId))
                         && c.sha256Hex(answer.value) == memos(network, topicId)[..64])
      && (uncached.Ok? ==> answer.Ok? && c.sha256Hex(answer.value) == c.sha256Hex(uncached.value))
  {
    if found.Ok? {
      ResolvedPayloadHasMemoHash(c, memos(network, topicId), found.value.hasAdminKey, found.value.contents);
    }
    if BuildKey(network, File, topicId) in EntriesAfter(c, memos, events) {
      var j := CachedFileWasRead(c, memos, events, network, topicId);
      var earlier := events[j].found.value;
      ResolvedPayloadHasMemoHash(c, memos(network, topicId), earlier.hasAdminKey, earlier.contents);
    }
  }
}
