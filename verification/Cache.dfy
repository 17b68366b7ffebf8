/** `HcsCacheService` (`hcs/src/cache/mod.rs`): one flat map of serialised entries, keyed by network, kind and topic. */
module Cache {
  import opened Wrappers
  import opened Codec
  import opened TopicMessages

  datatype TopicInfo = TopicInfo(topicId: string, topicMemo: string, adminKey: Option<string>)

  /** How entries are serialised. */
  datatype EntryCodec = EntryCodec(
    writeInfo: TopicInfo -> Bytes, readInfo: Bytes -> Option<TopicInfo>,
    writeMessages: seq<TopicMessage> -> Bytes, readMessages: Bytes -> Option<seq<TopicMessage>>)

  ghost predicate EntryLaws(e: EntryCodec) {
    && (forall i: TopicInfo :: e.readInfo(e.writeInfo(i)) == Some(i))
    && (forall s: seq<TopicMessage> :: e.readMessages(e.writeMessages(s)) == Some(s))
  }

  type Entries = map<string, Bytes>

  datatype Target = Info | Messages | File {
    function ToString(): string {
      match this
      case Info => "info"
      case Messages => "messages"
      case File => "file"
    }
  }

  function BuildKey(network: string, target: Target, topicId: string): string {
    network + "-" + target.ToString() + "-" + topicId
  }

  // ---------------------------------------------------------------- operations

  datatype Operation =
    | SetInfo(network: string, topicId: string, bytes: Bytes)
    | RemoveInfo(network: string, topicId: string)
    | SetMessages(network: string, topicId: string, bytes: Bytes)
    | RemoveMessages(network: string, topicId: string)
    | SetFile(network: string, topicId: string, bytes: Bytes)
    | RemoveFile(network: string, topicId: string)
    | Expire(keys: set<string>)

  /** What an operation leaves in the map; storing messages drops the file, and removals cascade. */
  function Apply(m: Entries, op: Operation): Entries {
    match op
    case SetInfo(n, t, b) => m[BuildKey(n, Info, t) := b]
    case RemoveInfo(n, t) => m - {BuildKey(n, Info, t), BuildKey(n, Messages, t), BuildKey(n, File, t)}
    case SetMessages(n, t, b) => m[BuildKey(n, Messages, t) := b] - {BuildKey(n, File, t)}
    case RemoveMessages(n, t) => m - {BuildKey(n, Messages, t), BuildKey(n, File, t)}
    case SetFile(n, t, b) => m[BuildKey(n, File, t) := b]
    case RemoveFile(n, t) => m - {BuildKey(n, File, t)}
    case Expire(keys) => m - keys
  }

  class HcsCacheService {
    const entryCodec: EntryCodec
    var inner: Entries

    constructor (entryCodec: EntryCodec)
      ensures inner == map[] && this.entryCodec == entryCodec
    {
      this.entryCodec := entryCodec;
      inner := map[];
    }

    function Get(key: string): Option<Bytes>
      reads this
    {
      if key in inner then Some(inner[key]) else None
    }

    method GetTopicInfo(network: string, topicId: string) returns (r: Option<TopicInfo>)
      ensures r == match Get(BuildKey(network, Info, topicId)) case Some(b) => entryCodec.readInfo(b) case None => None
    {
      var bytes := Get(BuildKey(network, Info, topicId));
      match bytes {
        case Some(b) => return entryCodec.readInfo(b);
        case None => return None;
      }
    }

    method SetTopicInfo(network: string, topicId: string, info: TopicInfo)
      modifies this
      ensures inner == Apply(old(inner), SetInfo(network, topicId, entryCodec.writeInfo(info)))
    {
      inner := inner[BuildKey(network, Info, topicId) := entryCodec.writeInfo(info)];
    }

    method RemoveTopicInfo(network: string, topicId: string)
      modifies this
      ensures inner == Apply(old(inner), RemoveInfo(network, topicId))
    {
      inner := inner - {BuildKey(network, Info, topicId)};
      RemoveTopicMessages(network, topicId);
    }

    method GetTopicMessages(network: string, topicId: string) returns (r: Option<seq<TopicMessage>>)
      ensures r ==
        match Get(BuildKey(network, Messages, topicId))
        case Some(b) => entryCodec.readMessages(b)
        case None => None
    {
      var bytes := Get(BuildKey(network, Messages, topicId));
      match bytes {
        case Some(b) => return entryCodec.readMessages(b);
        case None => return None;
      }
    }

    method SetTopicMessages(network: string, topicId: string, messages: seq<TopicMessage>)
      modifies this
      ensures inner == Apply(old(inner), SetMessages(network, topicId, entryCodec.writeMessages(messages)))
    {
      inner := inner[BuildKey(network, Messages, topicId) := entryCodec.writeMessages(messages)];
      RemoveTopicFile(network, topicId);
    }

    method RemoveTopicMessages(network: string, topicId: string)
      modifies this
      ensures inner == Apply(old(inner), RemoveMessages(network, topicId))
    {
      inner := inner - {BuildKey(network, Messages, topicId)};
      RemoveTopicFile(network, topicId);
    }

    method GetTopicFile(network: string, topicId: string) returns (r: Option<Bytes>)
      ensures r == Get(BuildKey(network, File, topicId))
    {
      return Get(BuildKey(network, File, topicId));
    }

    method SetTopicFile(network: string, topicId: string, file: Bytes)
      modifies this
      ensures inner == Apply(old(inner), SetFile(network, topicId, file))
    {
      inner := inner[BuildKey(network, File, topicId) := file];
    }

    method RemoveTopicFile(network: string, topicId: string)
      modifies this
      ensures inner == Apply(old(inner), RemoveFile(network, topicId))
    {
      inner := inner - {BuildKey(network, File, topicId)};
    }

    /** Capacity and time-to-live: any entries may vanish at any time. */
    method ExpireEntries(keys: set<string>)
      modifies this
      ensures inner == Apply(old(inner), Expire(keys))
    {
      inner := inner - keys;
    }
  }

  // ---------------------------------------------------------------- keys

  lemma NoLaterDash(a: string, x: string)
    requires '-' !in x
    ensures forall i :: |a| < i < |a + "-" + x| ==> (a + "-" + x)[i] != '-'
  {
    forall i | |a| < i < |a + "-" + x| ensures (a + "-" + x)[i] != '-' {
      assert (a + "-" + x)[i] == x[i - |a| - 1];
    }
  }

  /** A text ending in a dash and something without dashes splits only there. */
  lemma LastDash(a: string, x: string, b: string, y: string)
    requires a + "-" + x == b + "-" + y && '-' !in x && '-' !in y
    ensures a == b && x == y
  {
    var s := a + "-" + x;
    NoLaterDash(a, x);
    NoLaterDash(b, y);
    assert s[|a|] == '-' && (b + "-" + y)[|b|] == '-';
    assert |a| == |b|;
    assert a == s[..|a|] && x == s[|a| + 1..];
    assert b == (b + "-" + y)[..|b|] && y == (b + "-" + y)[|b| + 1..];
  }

  lemma TargetNames(a: Target, b: Target)
    ensures '-' !in a.ToString()
    ensures a.ToString() == b.ToString() ==> a == b
  {
    assert |"info"| == 4 && |"messages"| == 8;
    if a.ToString() == b.ToString() { assert a.ToString()[0] == b.ToString()[0]; }
  }

  /** Keys are unambiguous as long as topic ids hold no dash; network names may hold any. */
  lemma BuildKeyIsInjective(n1: string, g1: Target, t1: string, n2: string, g2: Target, t2: string)
    requires '-' !in t1 && '-' !in t2
    requires BuildKey(n1, g1, t1) == BuildKey(n2, g2, t2)
    ensures n1 == n2 && g1 == g2 && t1 == t2
  {
    TargetNames(g1, g2);
    TargetNames(g2, g1);
    LastDash(n1 + "-" + g1.ToString(), t1, n2 + "-" + g2.ToString(), t2);
    LastDash(n1, g1.ToString(), n2, g2.ToString());
  }

  /** With a dash in a topic id two different topics can share a key. */
  lemma DashedTopicsCollide(network: string, topicId: string)
    ensures BuildKey(network, Info, "x-file-" + topicId) == BuildKey(network + "-info-x", File, topicId)
  {
    calc {
      network + "-" + "info" + "-" + ("x-file-" + topicId);
      { assert "-info-x" == "-" + "info" + "-" + "x" && "x-file-" == "x" + "-" + "file" + "-"; }
      (network + "-info-x") + "-" + "file" + "-" + topicId;
    }
  }

  predicate Holds(m: Entries, network: string, target: Target, topicId: string) {
    BuildKey(network, target, topicId) in m
  }

  /** What goes: removing the info takes messages and file with it, removing the messages takes the file,
      and what expires is gone. */
  lemma RemovalsCascade(m: Entries, network: string, topicId: string, g: Target, keys: set<string>)
    requires '-' !in topicId
    ensures !Holds(Apply(m, RemoveInfo(network, topicId)), network, g, topicId)
    ensures Holds(Apply(m, RemoveMessages(network, topicId)), network, g, topicId)
      <==> g == Info && Holds(m, network, g, topicId)
    ensures Holds(Apply(m, RemoveFile(network, topicId)), network, g, topicId)
      <==> g != File && Holds(m, network, g, topicId)
    ensures Holds(Apply(m, Expire(keys)), network, g, topicId)
      <==> Holds(m, network, g, topicId) && BuildKey(network, g, topicId) !in keys
  {
    DistinctTargets(network, topicId);
  }

  /** What comes: the bytes stored are the bytes there are; only storing messages drops something, the file. */
  lemma StoredIsThere(m: Entries, network: string, topicId: string, b: Bytes, g: Target)
    requires '-' !in topicId
    ensures var key, after := BuildKey(network, g, topicId), Apply(m, SetInfo(network, topicId, b));
      if g == Info then key in after && after[key] == b else key in after <==> key in m
    ensures var key, after := BuildKey(network, g, topicId), Apply(m, SetMessages(network, topicId, b));
      if g == Messages then key in after && after[key] == b else key in after <==> g == Info && key in m
    ensures var key, after := BuildKey(network, g, topicId), Apply(m, SetFile(network, topicId, b));
      if g == File then key in after && after[key] == b else key in after <==> key in m
  {
    DistinctTargets(network, topicId);
  }

  // ---------------------------------------------------------------- runs

  predicate Dashless(op: Operation) {
    op.Expire? || '-' !in op.topicId
  }

  function Run(ops: seq<Operation>): Entries {
    if ops == [] then map[] else Apply(Run(ops[..|ops| - 1]), ops[|ops| - 1])
  }

  /** Operations on one network and topic leave every other entry alone. */
  lemma OperationsAreIsolated(m: Entries, op: Operation, network: string, target: Target, topicId: string)
    requires !op.Expire? && Dashless(op) && '-' !in topicId
    requires op.network != network || op.topicId != topicId
    ensures BuildKey(network, target, topicId) in Apply(m, op) <==> BuildKey(network, target, topicId) in m
    ensures BuildKey(network, target, topicId) in m ==>
      Apply(m, op)[BuildKey(network, target, topicId)] == m[BuildKey(network, target, topicId)]
  {
    forall g: Target ensures BuildKey(op.network, g, op.topicId) != BuildKey(network, target, topicId) {
      if BuildKey(op.network, g, op.topicId) == BuildKey(network, target, topicId) {
        BuildKeyIsInjective(op.network, g, op.topicId, network, target, topicId);
      }
    }
  }

  /** Position `j` stores the file of the topic, and nothing after it stores the topic's messages. */
  ghost predicate FileStoredLast(ops: seq<Operation>, network: string, topicId: string, j: nat, file: Bytes) {
    && j < |ops| && ops[j] == SetFile(network, topicId, file)
    && (forall i :: j < i < |ops| ==> !(ops[i].SetMessages? && ops[i].network == network && ops[i].topicId == topicId))
  }

  lemma ApplyAndFile(m: Entries, op: Operation, network: string, topicId: string)
    requires Dashless(op) && '-' !in topicId && BuildKey(network, File, topicId) in Apply(m, op)
    ensures !(op.SetMessages? && op.network == network && op.topicId == topicId)
    ensures (op.SetFile? && op.network == network && op.topicId == topicId)
      || (BuildKey(network, File, topicId) in m
          && Apply(m, op)[BuildKey(network, File, topicId)] == m[BuildKey(network, File, topicId)])
  {
    if !op.Expire? {
      if op.network == network && op.topicId == topicId {
        DistinctTargets(network, topicId);
      } else {
        OperationsAreIsolated(m, op, network, File, topicId);
      }
    }
  }

  lemma DistinctTargets(network: string, topicId: string)
    requires '-' !in topicId
    ensures BuildKey(network, Info, topicId) != BuildKey(network, File, topicId)
    ensures BuildKey(network, Messages, topicId) != BuildKey(network, File, topicId)
    ensures BuildKey(network, Info, topicId) != BuildKey(network, Messages, topicId)
  {
    if BuildKey(network, Info, topicId) == BuildKey(network, File, topicId) {
      BuildKeyIsInjective(network, Info, topicId, network, File, topicId);
    }
    if BuildKey(network, Messages, topicId) == BuildKey(network, File, topicId) {
      BuildKeyIsInjective(network, Messages, topicId, network, File, topicId);
    }
    if BuildKey(network, Info, topicId) == BuildKey(network, Messages, topicId) {
      BuildKeyIsInjective(network, Info, topicId, network, Messages, topicId);
    }
  }

  /** In every reachable state a cached file was stored after the topic's messages were, and it
      is the file that was stored. */
  lemma {:induction false} CachedFileIsNewest(ops: seq<Operation>, network: string, topicId: string) returns (j: nat)
    requires forall i :: 0 <= i < |ops| ==> Dashless(ops[i])
    requires '-' !in topicId && BuildKey(network, File, topicId) in Run(ops)
    ensures FileStoredLast(ops, network, topicId, j, Run(ops)[BuildKey(network, File, topicId)])
    decreases |ops|
  {
    var n := |ops| - 1;
    var op := ops[n];
    ApplyAndFile(Run(ops[..n]), op, network, topicId);
    if op.SetFile? && op.network == network && op.topicId == topicId {
      j := n;
    } else {
      j := CachedFileIsNewest(ops[..n], network, topicId);
    }
  }
}
