/** Files on a topic (`hcs/src/hcs/file.rs`): compressed, base64-coded, cut into numbered chunks. */
module HcsFile {
  import opened Wrappers
  import opened Text
  import opened Codec
  import opened Events
  import opened Ledger
  import opened Sorting

  const MEMO_PATTERN := ":zstd:base64"
  const CONTENT_PREFIX := "data:application/json;base64,"
  const MAX_CHUNK: nat := 960

  datatype ChunkMessage = ChunkMessage(o: nat, c: string)

  const ORDER: ChunkMessage -> int := (m: ChunkMessage) => m.o

  // ---------------------------------------------------------------- wire form

  function ChunkJson(m: ChunkMessage): Json {
    JObject(map["o" := JNumber(m.o), "c" := JString(m.c)])
  }

  function PrintChunk(c: Codec, m: ChunkMessage): Bytes {
    c.toUtf8(c.printJson(ChunkJson(m)))
  }

  function DecodeChunk(j: Json): Option<ChunkMessage> {
    if j.JObject? && "o" in j.fields && j.fields["o"].JNumber? && 0 <= j.fields["o"].number < U64_LIMIT
       && StringField(j, "c").Some?
    then Some(ChunkMessage(j.fields["o"].number, StringField(j, "c").value))
    else None
  }

  /** Contents that are not UTF-8, not JSON or not a chunk are skipped. */
  function ParseChunk(c: Codec, contents: Bytes): Option<ChunkMessage> {
    match c.fromUtf8(contents)
    case None => None
    case Some(text) =>
      match c.parseJson(text)
      case None => None
      case Some(j) => DecodeChunk(j)
  }

  // ---------------------------------------------------------------- cutting and rebuilding

  function Pieces(s: string): seq<string> {
    if s == "" then []
    else if |s| <= MAX_CHUNK then [s]
    else [s[..MAX_CHUNK]] + Pieces(s[MAX_CHUNK..])
  }

  /** The pieces numbered from `first` on. */
  function Number(pieces: seq<string>, first: nat): seq<ChunkMessage> {
    seq(|pieces|, i requires 0 <= i < |pieces| => ChunkMessage(first + i, pieces[i]))
  }

  function Content(c: Codec, payload: Bytes): string {
    CONTENT_PREFIX + c.encode64(c.compress(payload))
  }

  function BuildChunks(c: Codec, payload: Bytes): seq<ChunkMessage> {
    Number(Pieces(Content(c, payload)), 0)
  }

  function Concat(chunks: seq<ChunkMessage>): string {
    if chunks == [] then "" else Concat(chunks[..|chunks| - 1]) + chunks[|chunks| - 1].c
  }

  /** The text after the prefix, or all of it when the prefix is missing. */
  function StripContentPrefix(s: string): string {
    if StartsWith(s, CONTENT_PREFIX) then s[|CONTENT_PREFIX|..] else s
  }

  function DecodeContent(c: Codec, content: string): Result<Bytes, DidError> {
    match c.decode64(StripContentPrefix(content))
    case None => Err(InvalidArgument)
    case Some(compressed) =>
      match c.decompress(compressed)
      case None => Err(InternalError)
      case Some(payload) => Ok(payload)
  }

  /** `build_payload_from_chunks`. */
  function RebuildPayload(c: Codec, chunks: seq<ChunkMessage>): Result<Bytes, DidError> {
    DecodeContent(c, Concat(SortByKey(chunks, ORDER)))
  }

  // ---------------------------------------------------------------- memo and checksum

  function Memo(c: Codec, payload: Bytes): string {
    c.sha256Hex(payload) + MEMO_PATTERN
  }

  predicate IsValidMemo(memo: string) {
    && |memo| == 64 + |MEMO_PATTERN|
    && memo[64..] == MEMO_PATTERN
    && forall i :: 0 <= i < 64 ==> IsHexDigit(memo[i])
  }

  predicate IsValidChecksum(memo: string, checksum: string) {
    Split(memo, ':')[0] == checksum
  }

  function ParsedChunks(c: Codec, contents: seq<Bytes>): seq<ChunkMessage> {
    if contents == [] then []
    else
      var last := ParseChunk(c, contents[|contents| - 1]);
      ParsedChunks(c, contents[..|contents| - 1]) + (if last.Some? then [last.value] else [])
  }

  /** `resolve_file_without_cache` once the topic's info and messages are there. */
  function ResolveContents(c: Codec, memo: string, hasAdminKey: bool, contents: seq<Bytes>): Result<Bytes, DidError> {
    if !IsValidMemo(memo) then Err(InvalidArgument)
    else if hasAdminKey then Err(InvalidArgument)
    else
      var payload :- RebuildPayload(c, ParsedChunks(c, contents));
      if IsValidChecksum(memo, c.sha256Hex(payload)) then Ok(payload) else Err(InvalidArgument)
  }

  // ---------------------------------------------------------------- the loops of the source

  /** `build_payload_from_chunks`: sort in place, join, decode. */
  method BuildPayloadFromChunks(c: Codec, chunks: seq<ChunkMessage>) returns (r: Result<Bytes, DidError>)
    ensures r == RebuildPayload(c, chunks)
  {
    var sorted := SortByKey(chunks, ORDER);
    var content := "";
    var i := 0;
    while i < |sorted|
      invariant 0 <= i <= |sorted| && content == Concat(sorted[..i])
    {
      assert sorted[..i + 1][..i] == sorted[..i];
      content := content + sorted[i].c;
      i := i + 1;
    }
    assert sorted[..i] == sorted;
    return DecodeContent(c, content);
  }

  function Printed(c: Codec, chunks: seq<ChunkMessage>): seq<Bytes> {
    seq(|chunks|, i requires 0 <= i < |chunks| => PrintChunk(c, chunks[i]))
  }

  /** The submission loop of `submit_file`: chunks go out in order until one fails. */
  method SubmitChunks(c: Codec, topic: Topic<Bytes>, payload: Bytes, outcomes: nat -> SubmitOutcome)
    returns (r: Result<Unit, DidError>)
    modifies topic
    ensures topic.log == old(topic.log) + SubmitAll(Printed(c, BuildChunks(c, payload)), outcomes, 0).0
    ensures r.Ok? <==> SubmitAll(Printed(c, BuildChunks(c, payload)), outcomes, 0).1 == |BuildChunks(c, payload)|
  {
    var chunks := BuildChunks(c, payload);
    ghost var printed := Printed(c, chunks);
    var i := 0;
    while i < |chunks|
      invariant 0 <= i <= |chunks|
      invariant SubmitAll(printed[..i], outcomes, 0) == (printed[..i], i)
      invariant topic.log == old(topic.log) + printed[..i]
    {
      assert printed[..i + 1] == printed[..i] + [printed[i]];
      SubmitSnoc(printed[..i], printed[i], outcomes, 0);
      var submitted := topic.Submit(PrintChunk(c, chunks[i]), outcomes(i));
      if submitted.Err? {
        assert printed == printed[..i + 1] + printed[i + 1..];
        FailureStops(printed[..i + 1], printed[i + 1..], outcomes, 0);
        return Err(submitted.error);
      }
      i := i + 1;
    }
    assert printed[..i] == printed;
    return Ok(Unit);
  }

  // ---------------------------------------------------------------- shape of the chunks

  lemma {:induction false} PiecesShape(s: string)
    ensures |Pieces(s)| == (|s| + MAX_CHUNK - 1) / MAX_CHUNK
    ensures forall i :: 0 <= i < |Pieces(s)| - 1 ==> |Pieces(s)[i]| == MAX_CHUNK
    ensures Pieces(s) != [] ==> 0 < |Pieces(s)[|Pieces(s)| - 1]| <= MAX_CHUNK
    decreases |s|
  {
    if |s| > MAX_CHUNK {
      var rest := Pieces(s[MAX_CHUNK..]);
      PiecesShape(s[MAX_CHUNK..]);
      assert (|s| - MAX_CHUNK + MAX_CHUNK - 1) / MAX_CHUNK + 1 == (|s| + MAX_CHUNK - 1) / MAX_CHUNK;
      forall i | 0 <= i < |Pieces(s)| - 1 ensures |Pieces(s)[i]| == MAX_CHUNK {
        if i > 0 { assert Pieces(s)[i] == rest[i - 1]; }
      }
    }
  }

  lemma {:induction false} ConcatAppend(a: seq<ChunkMessage>, b: seq<ChunkMessage>)
    ensures Concat(a + b) == Concat(a) + Concat(b)
    decreases |b|
  {
    if b == [] {
      assert a + b == a;
    } else {
      var n := |b| - 1;
      ConcatAppend(a, b[..n]);
      assert (a + b)[..|a + b| - 1] == a + b[..n] && (a + b)[|a + b| - 1] == b[n];
      assert Concat(a + b) == Concat(a + b[..n]) + b[n].c;
    }
  }

  /** The pieces in order are the text. */
  lemma {:induction false} ConcatOfPieces(s: string, first: nat)
    ensures Concat(Number(Pieces(s), first)) == s
    decreases |s|
  {
    var chunks := Number(Pieces(s), first);
    if |s| > MAX_CHUNK {
      var head := [ChunkMessage(first, s[..MAX_CHUNK])];
      ConcatOfPieces(s[MAX_CHUNK..], first + 1);
      assert chunks == head + Number(Pieces(s[MAX_CHUNK..]), first + 1);
      ConcatAppend(head, Number(Pieces(s[MAX_CHUNK..]), first + 1));
      assert Concat(head) == s[..MAX_CHUNK] by { assert head[..0] == []; }
      assert s == s[..MAX_CHUNK] + s[MAX_CHUNK..];
    } else if s != "" {
      assert chunks == [ChunkMessage(first, s)] && chunks[..0] == [];
    }
  }

  /** Chunks are numbered from zero, all but the last are full, and there are as many as the length demands. */
  lemma ChunkShape(c: Codec, payload: Bytes)
    ensures var chunks := BuildChunks(c, payload);
      && |chunks| == (|Content(c, payload)| + MAX_CHUNK - 1) / MAX_CHUNK
      && |chunks| > 0
      && (forall i :: 0 <= i < |chunks| ==> chunks[i].o == i)
      && (forall i :: 0 <= i < |chunks| - 1 ==> |chunks[i].c| == MAX_CHUNK)
      && 0 < |chunks[|chunks| - 1].c| <= MAX_CHUNK
      && Concat(chunks) == Content(c, payload)
  {
    PiecesShape(Content(c, payload));
    ConcatOfPieces(Content(c, payload), 0);
    assert |CONTENT_PREFIX| == 29;
  }

  /** Where stretch `i` of a text of length `n` begins and ends. */
  function From(n: nat, i: nat): nat {
    if MAX_CHUNK * i < n then MAX_CHUNK * i else n
  }

  lemma StretchOfRest(s: string, k: nat, i: nat, j: nat)
    requires i <= j && k + j <= |s|
    ensures s[k..][i..j] == s[k + i..k + j]
  {
  }

  lemma {:induction false} PieceAt(s: string, i: nat)
    requires i < |Pieces(s)|
    ensures Pieces(s)[i] == s[From(|s|, i)..From(|s|, i + 1)]
    decreases |s|
  {
    if |s| > MAX_CHUNK {
      if i > 0 {
        var rest := s[MAX_CHUNK..];
        PieceAt(rest, i - 1);
        assert From(|s|, i) == MAX_CHUNK + From(|rest|, i - 1) && From(|s|, i + 1) == MAX_CHUNK + From(|rest|, i);
        StretchOfRest(s, MAX_CHUNK, From(|rest|, i - 1), From(|rest|, i));
      }
    } else {
      assert s[0..|s|] == s;
    }
  }

  lemma ContentIsAscii(c: Codec, payload: Bytes)
    requires AsciiLaws(c)
    ensures IsAscii(Content(c, payload))
  {
    assert IsAscii(CONTENT_PREFIX);
    var text := c.encode64(c.compress(payload));
    forall i | 0 <= i < |Content(c, payload)| ensures Content(c, payload)[i] as int < 128 {
      if i >= |CONTENT_PREFIX| { assert Content(c, payload)[i] == text[i - |CONTENT_PREFIX|]; }
    }
  }

  lemma AsciiStretch(c: Codec, s: string, i: nat, j: nat)
    requires AsciiLaws(c) && IsAscii(s) && i <= j <= |s|
    ensures c.toUtf8(s[i..j]) == c.toUtf8(s)[i..j] && |c.toUtf8(s)| == |s|
  {
    assert IsAscii(s[i..j]);
    assert AsciiBytes(s[i..j]) == AsciiBytes(s)[i..j];
  }

  /** In bytes, which the source cuts and decodes: chunk `i` is the text of the `i`-th stretch of
      960 bytes, the last stretch being what is left. */
  lemma ChunksAreByteStretches(c: Codec, payload: Bytes, i: nat)
    requires AsciiLaws(c) && TextLaws(c) && i < |BuildChunks(c, payload)|
    ensures var bytes := c.toUtf8(Content(c, payload));
      var stretch := bytes[From(|bytes|, i)..From(|bytes|, i + 1)];
      && |BuildChunks(c, payload)| == (|bytes| + 959) / 960
      && c.fromUtf8(stretch) == Some(BuildChunks(c, payload)[i].c)
      && (i + 1 < |BuildChunks(c, payload)| ==> |stretch| == 960)
  {
    var text := Content(c, payload);
    ContentIsAscii(c, payload);
    ChunkShape(c, payload);
    PieceAt(text, i);
    AsciiStretch(c, text, From(|text|, i), From(|text|, i + 1));
    assert BuildChunks(c, payload)[i].c == Pieces(text)[i];
    assert c.fromUtf8(c.toUtf8(Pieces(text)[i])) == Some(Pieces(text)[i]);
  }

  // ---------------------------------------------------------------- round trip

  lemma ChunkRoundTrip(c: Codec, m: ChunkMessage)
    requires TextLaws(c) && m.o < U64_LIMIT
    ensures ParseChunk(c, PrintChunk(c, m)) == Some(m)
  {
  }

  lemma StripsItsPrefix(text: string)
    ensures StripContentPrefix(CONTENT_PREFIX + text) == text
  {
  }

  /** Any arrangement of the chunks rebuilds the payload. */
  lemma AnyArrangementRebuilds(c: Codec, payload: Bytes, arranged: seq<ChunkMessage>)
    requires TextLaws(c) && CompressionLaw(c)
    requires multiset(arranged) == multiset(BuildChunks(c, payload))
    ensures RebuildPayload(c, arranged) == Ok(payload)
  {
    var chunks := BuildChunks(c, payload);
    ChunkShape(c, payload);
    assert StrictlySortedBy(chunks, ORDER);
    SortOfArrangement(arranged, chunks, ORDER);
    StripsItsPrefix(c.encode64(c.compress(payload)));
  }

  /** The hash part of a valid memo is its first 64 characters. */
  lemma HashPart(memo: string)
    requires IsValidMemo(memo)
    ensures Split(memo, ':')[0] == memo[..64]
  {
    assert memo[64] == memo[64..][0] == ':';
    forall i | 0 <= i < 64 ensures memo[..64][i] != ':' { assert IsHexDigit(memo[i]); }
    FindIs(memo, ':', 64);
  }

  /** The memo written at submission is valid and carries the payload's hash. */
  lemma MemoMatches(c: Codec, payload: Bytes)
    requires HashLaw(c)
    ensures IsValidMemo(Memo(c, payload)) && IsValidChecksum(Memo(c, payload), c.sha256Hex(payload))
  {
    var memo := Memo(c, payload);
    assert memo[64..] == MEMO_PATTERN && memo[..64] == c.sha256Hex(payload);
    HashPart(memo);
  }

  lemma {:induction false} ParsedConcat(c: Codec, a: seq<Bytes>, b: seq<Bytes>)
    ensures ParsedChunks(c, a + b) == ParsedChunks(c, a) + ParsedChunks(c, b)
    decreases |b|
  {
    if b == [] {
      assert a + b == a;
    } else {
      ParsedConcat(c, a, b[..|b| - 1]);
      assert (a + b)[..|a + b| - 1] == a + b[..|b| - 1];
    }
  }

  lemma TakeOut<T>(s: seq<T>, i: nat)
    requires i < |s|
    ensures s == s[..i] + [s[i]] + s[i + 1..]
    ensures multiset(s) == multiset(s[..i] + s[i + 1..]) + multiset{s[i]}
  {
    assert s == s[..i] + [s[i]] + s[i + 1..];
  }

  lemma ParsedWithout(c: Codec, b: seq<Bytes>, i: nat)
    requires i < |b|
    ensures multiset(ParsedChunks(c, b))
      == multiset(ParsedChunks(c, b[..i] + b[i + 1..])) + multiset(ParsedChunks(c, [b[i]]))
  {
    TakeOut(b, i);
    ParsedConcat(c, b[..i], b[i + 1..]);
    ParsedConcat(c, b[..i] + [b[i]], b[i + 1..]);
    ParsedConcat(c, b[..i], [b[i]]);
  }

  /** Of two arrangements, the last element of one is somewhere in the other, and the rest agree. */
  lemma WhereLastIs<T>(a: seq<T>, b: seq<T>) returns (i: nat)
    requires multiset(a) == multiset(b) && a != []
    ensures i < |b| && b[i] == a[|a| - 1]
    ensures multiset(a[..|a| - 1]) == multiset(b[..i] + b[i + 1..])
  {
    var n := |a| - 1;
    assert a[n] in multiset(b);
    i :| 0 <= i < |b| && b[i] == a[n];
    TakeOut(a, n);
    TakeOut(b, i);
    assert a[..n] + a[n + 1..] == a[..n];
    assert multiset(a[..n]) == multiset(a) - multiset{a[n]};
    assert multiset(b[..i] + b[i + 1..]) == multiset(b) - multiset{b[i]};
  }

  /** What is parsed does not depend, but for its order, on the order of the messages. */
  lemma {:induction false} ParsedArrangement(c: Codec, a: seq<Bytes>, b: seq<Bytes>)
    requires multiset(a) == multiset(b)
    ensures multiset(ParsedChunks(c, a)) == multiset(ParsedChunks(c, b))
    decreases |a|
  {
    if a == [] {
      assert |multiset(b)| == |b|;
    } else {
      var n := |a| - 1;
      var i := WhereLastIs(a, b);
      ParsedArrangement(c, a[..n], b[..i] + b[i + 1..]);
      ParsedWithout(c, a, n);
      ParsedWithout(c, b, i);
      assert a[..n] + a[n + 1..] == a[..n];
    }
  }

  lemma {:induction false} JunkParsesToNothing(c: Codec, junk: seq<Bytes>)
    requires forall b :: b in junk ==> ParseChunk(c, b).None?
    ensures ParsedChunks(c, junk) == []
  {
    if junk != [] {
      JunkParsesToNothing(c, junk[..|junk| - 1]);
      assert junk[|junk| - 1] in junk;
    }
  }

  lemma {:induction false} PrintedParsesBack(c: Codec, chunks: seq<ChunkMessage>)
    requires TextLaws(c) && forall m :: m in chunks ==> m.o < U64_LIMIT
    ensures ParsedChunks(c, Printed(c, chunks)) == chunks
  {
    if chunks != [] {
      var n := |chunks| - 1;
      PrintedParsesBack(c, chunks[..n]);
      assert Printed(c, chunks)[..n] == Printed(c, chunks[..n]);
      assert chunks[n] in chunks;
      ChunkRoundTrip(c, chunks[n]);
    }
  }

  /** File round trip: the submitted chunks, in any order and mixed with messages that are no
      chunks, resolve to the payload under the memo written at submission. */
  lemma FileRoundTrip(c: Codec, payload: Bytes, junk: seq<Bytes>, contents: seq<Bytes>)
    requires TextLaws(c) && CompressionLaw(c) && HashLaw(c)
    requires |BuildChunks(c, payload)| <= U64_LIMIT
    requires forall b :: b in junk ==> ParseChunk(c, b).None?
    requires multiset(contents) == multiset(Printed(c, BuildChunks(c, payload)) + junk)
    ensures ResolveContents(c, Memo(c, payload), false, contents) == Ok(payload)
  {
    var chunks := BuildChunks(c, payload);
    ChunkShape(c, payload);
    ParsedArrangement(c, contents, Printed(c, chunks) + junk);
    ParsedConcat(c, Printed(c, chunks), junk);
    JunkParsesToNothing(c, junk);
    PrintedParsesBack(c, chunks);
    AnyArrangementRebuilds(c, payload, ParsedChunks(c, contents));
    MemoMatches(c, payload);
  }

  /** A chunk on the wire: a number below two to the power of 64 as `o`, a text as `c`. */
  lemma ChunkIff(j: Json, m: ChunkMessage)
    ensures DecodeChunk(j) == Some(m) <==>
      Has(j, "c", m.c) && "o" in j.fields && j.fields["o"] == JNumber(m.o) && m.o < 0x1_0000_0000_0000_0000
  {
  }

  /** The text that is decoded: what follows the content prefix, or all of it where there is none. */
  predicate IsEncoded(content: string, text: string) {
    if "data:application/json;base64," <= content then content == "data:application/json;base64," + text
    else content == text
  }

  /** When a file resolves, to what, and how it fails otherwise. */
  lemma ResolvedIff(c: Codec, memo: string, hasAdminKey: bool, contents: seq<Bytes>, text: string)
    requires IsEncoded(Concat(SortByKey(ParsedChunks(c, contents), ORDER)), text)
    ensures IsValidMemo(memo) <==>
      |memo| == 76 && memo[64..] == ":zstd:base64" && forall i :: 0 <= i < 64 ==> IsHexDigit(memo[i])
    ensures var r := ResolveContents(c, memo, hasAdminKey, contents);
      if !IsValidMemo(memo) || hasAdminKey then r == Err(InvalidArgument)
      else
        match c.decode64(text)
        case None => r == Err(InvalidArgument)
        case Some(compressed) =>
          match c.decompress(compressed)
          case None => r == Err(InternalError)
          case Some(payload) =>
            r == if c.sha256Hex(payload) == memo[..64] then Ok(payload) else Err(InvalidArgument)
  {
    var content := Concat(SortByKey(ParsedChunks(c, contents), ORDER));
    if CONTENT_PREFIX <= content { assert content[|CONTENT_PREFIX|..] == text; }
    if IsValidMemo(memo) { HashPart(memo); }
  }

  /** Whatever is on the topic, a resolved payload has the hash that the topic's memo names. */
  lemma ResolvedPayloadHasMemoHash(c: Codec, memo: string, hasAdminKey: bool, contents: seq<Bytes>)
    ensures ResolveContents(c, memo, hasAdminKey, contents).Ok? ==>
      && IsValidMemo(memo) && !hasAdminKey
      && c.sha256Hex(ResolveContents(c, memo, hasAdminKey, contents).value) == memo[..64]
  {
    if IsValidMemo(memo) { HashPart(memo); }
  }
}
