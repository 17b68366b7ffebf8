/**
 The revocation registry (`anoncreds/src/registry.rs`, `anoncreds/src/utils.rs`): a topic
 of differences, each computed against the replayed past.
 */
module Revocation {
  import opened Wrappers
  import opened Codec
  import opened Events
  import opened TopicMessages

  const U32_LIMIT: nat := 0x1_0000_0000
  const NANOS: int := 1_000_000_000

  type StatusBits = seq<byte>

  datatype RevocationEntry = RevocationEntry(
    accum: string, prevAccum: Option<string>, issued: Option<seq<nat>>, revoked: Option<seq<nat>>)

  datatype StatusList = StatusList(
    issuerId: string, revRegDefId: string, revocationList: StatusBits, currentAccumulator: string, timestamp: nat)

  /** What a lookup of the registry definition yields. */
  datatype Definition = Definition(issuerId: string, maxCredNum: nat)

  // ---------------------------------------------------------------- wire form

  function OptionalIndices(name: string, value: Option<seq<nat>>): map<string, Json> {
    if value.None? then map[]
    else map[name := JArray(seq(|value.value|, i requires 0 <= i < |value.value| => JNumber(value.value[i])))]
  }

  function EntryJson(e: RevocationEntry): Json {
    JObject(map["value" := JObject(
      map["accum" := JString(e.accum)]
      + OptionalEntry("prev_accum", e.prevAccum)
      + OptionalIndices("issued", e.issued)
      + OptionalIndices("revoked", e.revoked))])
  }

  function DecodeIndices(items: seq<Json>): Option<seq<nat>> {
    if items == [] then Some([])
    else
      var n := |items| - 1;
      match DecodeIndices(items[..n])
      case None => None
      case Some(before) =>
        if items[n].JNumber? && 0 <= items[n].number < U32_LIMIT then Some(before + [items[n].number]) else None
  }

  function IndicesField(j: Json, name: string): Option<Option<seq<nat>>>
    requires j.JObject?
  {
    if name !in j.fields || j.fields[name].JNull? then Some(None)
    else if j.fields[name].JArray? then
      match DecodeIndices(j.fields[name].items)
      case Some(list) => Some(Some(list))
      case None => None
    else None
  }

  function DecodeEntry(j: Json): Option<RevocationEntry> {
    match Wrapped(j, "value")
    case None => None
    case Some(v) =>
      match (StringField(v, "accum"), OptionalStringField(v, "prev_accum"), IndicesField(v, "issued"),
        IndicesField(v, "revoked"))
      case (Some(accum), Some(prev), Some(issued), Some(revoked)) => Some(RevocationEntry(accum, prev, issued, revoked))
      case _ => None
  }

  /** `pack_revocation_entry`, as the bytes that are submitted. */
  function Pack(c: Codec, e: RevocationEntry): Bytes {
    var payload := c.encode64(c.compress(c.toUtf8(c.printJson(EntryJson(e)))));
    c.toUtf8(c.printJson(JObject(map["payload" := JString(payload)])))
  }

  function ParseJsonBytes(c: Codec, bytes: Bytes): Option<Json> {
    match c.fromUtf8(bytes)
    case Some(text) => c.parseJson(text)
    case None => None
  }

  /** `unpack_revocation_entry`: anything malformed at any layer reads as nothing. */
  function Unpack(c: Codec, contents: Bytes): Option<RevocationEntry> {
    match ParseJsonBytes(c, contents)
    case None => None
    case Some(wrapper) =>
      match StringField(wrapper, "payload")
      case None => None
      case Some(payload) =>
        match c.decode64(payload)
        case None => None
        case Some(compressed) =>
          match c.decompress(compressed)
          case None => None
          case Some(json) =>
            match ParseJsonBytes(c, json)
            case None => None
            case Some(j) => DecodeEntry(j)
  }

  /** The object has the numbers under the name, all below two to the power of 32, or nothing there. */
  ghost predicate MayHaveIndices(j: Json, name: string, value: Option<seq<nat>>) {
    && j.JObject?
    && if value.None? then name in j.fields ==> j.fields[name] == JNull
       else
         && name in j.fields && j.fields[name].JArray? && |j.fields[name].items| == |value.value|
         && forall i :: 0 <= i < |value.value| ==>
              j.fields[name].items[i] == JNumber(value.value[i]) && value.value[i] < 0x1_0000_0000
  }

  lemma {:induction false} IndicesDecode(items: seq<Json>, value: seq<nat>)
    ensures DecodeIndices(items) == Some(value)
      <==> |items| == |value| && forall i :: 0 <= i < |value| ==> items[i] == JNumber(value[i]) && value[i] < U32_LIMIT
  {
    if items != [] && value != [] {
      var n, k := |items| - 1, |value| - 1;
      IndicesDecode(items[..n], value[..k]);
      assert value == value[..k] + [value[k]];
      if |items| == |value| && forall i :: 0 <= i < |value| ==> items[i] == JNumber(value[i]) && value[i] < U32_LIMIT {
        assert DecodeIndices(items[..n]) == Some(value[..k]);
      }
    }
  }

  /** What a revocation entry is on the wire, under its one key `value`. */
  lemma EntryIff(j: Json, e: RevocationEntry)
    ensures DecodeEntry(j) == Some(e) <==>
      && j.JObject? && "value" in j.fields
      && var v := j.fields["value"];
      && Has(v, "accum", e.accum) && MayHave(v, "prev_accum", e.prevAccum)
      && MayHaveIndices(v, "issued", e.issued) && MayHaveIndices(v, "revoked", e.revoked)
  {
    if j.JObject? && "value" in j.fields && j.fields["value"].JObject? {
      var v := j.fields["value"];
      IndicesFieldIff(v, "issued", e.issued);
      IndicesFieldIff(v, "revoked", e.revoked);
    }
  }

  lemma IndicesFieldIff(j: Json, name: string, value: Option<seq<nat>>)
    requires j.JObject?
    ensures IndicesField(j, name) == Some(value) <==> MayHaveIndices(j, name, value)
  {
    if name in j.fields && j.fields[name].JArray? && value.Some? { IndicesDecode(j.fields[name].items, value.value); }
  }

  /** The bytes are UTF-8 text of this JSON value. */
  predicate IsTextOf(c: Codec, bytes: Bytes, j: Json) {
    c.fromUtf8(bytes).Some? && c.parseJson(c.fromUtf8(bytes).value) == Some(j)
  }

  /** A message is an entry when it is the text of an object whose `payload` is base64 of something that
      decompresses to the text of the entry. */
  ghost predicate Wraps(c: Codec, contents: Bytes, wrapper: Json, payload: string, inner: Json) {
    && IsTextOf(c, contents, wrapper) && Has(wrapper, "payload", payload)
    && c.decode64(payload).Some? && c.decompress(c.decode64(payload).value).Some?
    && IsTextOf(c, c.decompress(c.decode64(payload).value).value, inner)
  }

  lemma UnpackIff(c: Codec, contents: Bytes, e: RevocationEntry)
    ensures Unpack(c, contents) == Some(e)
      <==> exists wrapper, payload, inner ::
             Wraps(c, contents, wrapper, payload, inner) && DecodeEntry(inner) == Some(e)
  {
    if Unpack(c, contents) == Some(e) {
      var wrapper := ParseJsonBytes(c, contents).value;
      var payload := StringField(wrapper, "payload").value;
      var inner := ParseJsonBytes(c, c.decompress(c.decode64(payload).value).value).value;
      assert Wraps(c, contents, wrapper, payload, inner);
    }
    if wrapper, payload, inner :| Wraps(c, contents, wrapper, payload, inner) && DecodeEntry(inner) == Some(e) {
      assert ParseJsonBytes(c, contents) == Some(wrapper) && StringField(wrapper, "payload") == Some(payload);
    }
  }

  // ---------------------------------------------------------------- differences

  /** The positions where the old list holds `a` and the new one `b`, as `u32`. */
  function Positions(o: StatusBits, m: StatusBits, a: byte, b: byte): seq<nat>
    requires |o| == |m|
  {
    if o == [] then []
    else
      var n := |o| - 1;
      Positions(o[..n], m[..n], a, b) + (if o[n] == a && m[n] == b then [n % U32_LIMIT] else [])
  }

  /** Issued (1 to 0) and revoked (0 to 1) positions. */
  function Diff(o: StatusBits, m: StatusBits): Result<(seq<nat>, seq<nat>), DidError> {
    if |o| != |m| then Err(InvalidArgument) else Ok((Positions(o, m, 1, 0), Positions(o, m, 0, 1)))
  }

  /** `compute_status_list_diff`. */
  method ComputeStatusListDiff(original: StatusBits, modified: StatusBits)
    returns (r: Result<(seq<nat>, seq<nat>), DidError>)
    ensures r == Diff(original, modified)
  {
    if |original| != |modified| {
      return Err(InvalidArgument);
    }
    var issued, revoked := [], [];
    var i := 0;
    while i < |original|
      invariant 0 <= i <= |original|
      invariant issued == Positions(original[..i], modified[..i], 1, 0)
      invariant revoked == Positions(original[..i], modified[..i], 0, 1)
    {
      assert original[..i + 1][..i] == original[..i] && modified[..i + 1][..i] == modified[..i];
      if original[i] == 1 && modified[i] == 0 {
        issued := issued + [i % U32_LIMIT];
      } else if original[i] == 0 && modified[i] == 1 {
        revoked := revoked + [i % U32_LIMIT];
      }
      i := i + 1;
    }
    assert original[..i] == original && modified[..i] == modified;
    return Ok((issued, revoked));
  }

  // ---------------------------------------------------------------- replay

  /** Writes `v` at each index that is inside the list. */
  function SetAll(list: StatusBits, indices: seq<nat>, v: byte): (r: StatusBits)
    ensures |r| == |list|
  {
    if indices == [] then list
    else
      var before := SetAll(list, indices[..|indices| - 1], v);
      var i := indices[|indices| - 1];
      if i < |before| then before[i := v] else before
  }

  function ApplyEntry(list: StatusBits, e: RevocationEntry): (r: StatusBits)
    ensures |r| == |list|
  {
    SetAll(SetAll(list, e.issued.UnwrapOr([]), 0), e.revoked.UnwrapOr([]), 1)
  }

  function Zeros(n: nat): StatusBits {
    seq(n, _ => 0)
  }

  function Replay(n: nat, entries: seq<RevocationEntry>): (r: StatusBits)
    ensures |r| == n
  {
    if entries == [] then Zeros(n) else ApplyEntry(Replay(n, entries[..|entries| - 1]), entries[|entries| - 1])
  }

  /** The entries of a topic: messages that unpack and have an accumulator. */
  function Entries(c: Codec, messages: seq<TopicMessage>): seq<RevocationEntry> {
    if messages == [] then []
    else
      var last := Unpack(c, messages[|messages| - 1].contents);
      Entries(c, messages[..|messages| - 1]) + (if last.Some? && last.value.accum != "" then [last.value] else [])
  }

  /** The status list that a window of messages amounts to. */
  function StatusOf(c: Codec, d: Definition, id: string, messages: seq<TopicMessage>, timestamp: nat)
    : Option<StatusList>
  {
    var entries := Entries(c, messages);
    if entries == [] then None
    else Some(StatusList(d.issuerId, id, Replay(d.maxCredNum, entries), entries[|entries| - 1].accum, timestamp))
  }

  /** `timestamp as i64`. */
  function AsI64(t: nat): int
    requires t < 0x1_0000_0000_0000_0000
  {
    if t < 0x8000_0000_0000_0000 then t else t - 0x1_0000_0000_0000_0000
  }

  /** `OffsetDateTime::from_unix_timestamp`, in nanoseconds: years -9999 to 9999. */
  function FromUnixTimestamp(seconds: int): Result<int, DidError> {
    if -377705116800 <= seconds <= 253402300799 then Ok(seconds * NANOS) else Err(InvalidArgument)
  }

  /** The read of the entries topic at a time: the inclusive window from the epoch on. */
  function WindowAt(topic: seq<TopicMessage>, nanos: int): seq<TopicMessage> {
    Window(topic, Query(Some(0), Some(nanos), None))
  }

  /** `resolve_revocation_status_list` over a fully read topic. */
  function ResolveStatusList(c: Codec, d: Definition, id: string, topic: seq<TopicMessage>, timestamp: nat)
    : Result<Option<StatusList>, DidError>
    requires timestamp < 0x1_0000_0000_0000_0000
  {
    var toTime :- FromUnixTimestamp(AsI64(timestamp));
    Ok(StatusOf(c, d, id, WindowAt(topic, toTime), timestamp))
  }

  /** `register_revocation_status_list` after its reads: a failed read counts as no past at all. */
  function NewEntry(current: Result<Option<StatusList>, DidError>, request: StatusList)
    : Result<RevocationEntry, DidError>
  {
    var past := if current.Ok? then current.value else None;
    var original := if past.Some? then past.value.revocationList else Zeros(|request.revocationList|);
    var diff :- Diff(original, request.revocationList);
    Ok(RevocationEntry(
      request.currentAccumulator,
      if past.Some? then Some(past.value.currentAccumulator) else None,
      if diff.0 == [] then None else Some(diff.0),
      if diff.1 == [] then None else Some(diff.1)))
  }

  /** The nested loops that overwrite the status list in place. */
  method ReplayEntries(entries: seq<RevocationEntry>, maxCredNum: nat) returns (list: array<byte>)
    ensures fresh(list) && list[..] == Replay(maxCredNum, entries)
  {
    list := new byte[maxCredNum](_ => 0);
    assert list[..] == Zeros(maxCredNum);
    var k := 0;
    while k < |entries|
      invariant 0 <= k <= |entries| && list[..] == Replay(maxCredNum, entries[..k])
    {
      ghost var before := list[..];
      WriteAll(list, entries[k].issued.UnwrapOr([]), 0);
      WriteAll(list, entries[k].revoked.UnwrapOr([]), 1);
      assert list[..] == ApplyEntry(before, entries[k]);
      assert entries[..k + 1][..k] == entries[..k];
      k := k + 1;
    }
    assert entries[..k] == entries;
  }

  method WriteAll(list: array<byte>, indices: seq<nat>, v: byte)
    modifies list
    ensures list[..] == SetAll(old(list[..]), indices, v)
  {
    var k := 0;
    while k < |indices|
      invariant 0 <= k <= |indices| && list[..] == SetAll(old(list[..]), indices[..k], v)
    {
      assert indices[..k + 1][..k] == indices[..k];
      if indices[k] < list.Length {
        list[indices[k]] := v;
      }
      k := k + 1;
    }
    assert indices[..k] == indices;
  }

  /** `resolve_revocation_status_list`, given the messages of its window. */
  method ResolveRevocationStatusList(c: Codec, d: Definition, id: string, messages: seq<TopicMessage>, timestamp: nat)
    returns (r: Option<StatusList>)
    ensures r == StatusOf(c, d, id, messages, timestamp)
  {
    if messages == [] {
      return None;
    }
    var entries := Entries(c, messages);
    if entries == [] {
      return None;
    }
    var list := ReplayEntries(entries, d.maxCredNum);
    return Some(StatusList(d.issuerId, id, list[..], entries[|entries| - 1].accum, timestamp));
  }

  /** `register_revocation_status_list` up to its submission. */
  method RegisterRevocationStatusList(c: Codec, current: Result<Option<StatusList>, DidError>, request: StatusList)
    returns (r: Result<Bytes, DidError>)
    ensures r.Ok? <==> NewEntry(current, request).Ok?
    ensures r.Ok? ==> r.value == Pack(c, NewEntry(current, request).value)
  {
    var past := match current case Ok(p) => p case Err(_) => None;
    var original := match past case Some(s) => s.revocationList case None => Zeros(|request.revocationList|);
    var diff :- ComputeStatusListDiff(original, request.revocationList);
    var (issued, revoked) := diff;
    var entry := RevocationEntry(
      request.currentAccumulator,
      match past case Some(s) => Some(s.currentAccumulator) case None => None,
      if issued == [] then None else Some(issued),
      if revoked == [] then None else Some(revoked));
    return Ok(Pack(c, entry));
  }
}
