/** `core/src/did.rs`: the `did:hedera` identifier, its printer and its parser. */
module Did {
  import opened Wrappers
  import opened Text

  const DID_ROOT_KEY_ID := "#did-root-key"

  datatype Network = Mainnet | Testnet | Previewnet | Local {
    function ToString(): string {
      match this
      case Mainnet => "mainnet"
      case Testnet => "testnet"
      case Previewnet => "previewnet"
      case Local => "local"
    }
  }

  function ParseNetwork(s: string): Result<Network, DidError> {
    if s == "mainnet" then Ok(Mainnet)
    else if s == "testnet" then Ok(Testnet)
    else if s == "previewnet" then Ok(Previewnet)
    else if s == "local" then Ok(Local)
    else Err(InvalidDid)
  }

  datatype HederaDid = HederaDid(network: Network, base58Key: string, topicId: string) {
    function ToString(): string {
      "did:hedera:" + network.ToString() + ":" + base58Key + "_" + topicId
    }

    function RootKeyId(): string {
      ToString() + DID_ROOT_KEY_ID
    }
  }

  /** `shard.realm.num`, each part accepted by `parse::<u64>`. */
  predicate IsTopicId(s: string) {
    var parts := Split(s, '.');
    |parts| == 3 && forall k :: 0 <= k < |parts| ==> IsU64(parts[k])
  }

  lemma JoinThree(a: string, b: string, c: string, sep: char)
    ensures Join([a, b, c], sep) == a + [sep] + b + [sep] + c
  {
    JoinCons(b, [c], sep);
    JoinCons(a, [b] + [c], sep);
    assert [b] + [c] == [b, c] && [a] + [b, c] == [a, b, c];
  }

  lemma JoinedIsTopicId(a: string, b: string, c: string)
    requires IsU64(a) && IsU64(b) && IsU64(c)
    ensures IsTopicId(a + "." + b + "." + c)
  {
    U64HasNo(a, '.');
    U64HasNo(b, '.');
    U64HasNo(c, '.');
    JoinThree(a, b, c, '.');
    SplitOfJoin([a, b, c], '.');
  }

  lemma TopicIdParts(s: string) returns (a: string, b: string, c: string)
    requires IsTopicId(s)
    ensures IsU64(a) && IsU64(b) && IsU64(c) && s == a + "." + b + "." + c
  {
    var parts := Split(s, '.');
    a, b, c := parts[0], parts[1], parts[2];
    JoinOfSplitN(s, |s| + 1, '.');
    JoinThree(a, b, c, '.');
    assert parts == [a, b, c];
  }

  /** Topic ids are three numerals with dots between them. */
  lemma TopicIdIff(s: string)
    ensures IsTopicId(s) <==> exists a, b, c :: IsU64(a) && IsU64(b) && IsU64(c) && s == a + "." + b + "." + c
  {
    if IsTopicId(s) { var a, b, c := TopicIdParts(s); }
    if a, b, c :| IsU64(a) && IsU64(b) && IsU64(c) && s == a + "." + b + "." + c { JoinedIsTopicId(a, b, c); }
  }

  /** The method-specific id `<base58key>_<topicId>`. */
  function ParseKeyAndTopic(s: string): Result<(string, string), DidError> {
    var at := SplitOnce(s, '_');
    if at.None? then Err(InvalidDid)
    else if !IsTopicId(at.value.1) then Err(InvalidDid)
    else Ok(at.value)
  }

  function ParseDid(s: string): Result<HederaDid, DidError> {
    var parts := SplitN(s, 4, ':');
    if |parts| != 4 then Err(InvalidDid)
    else if parts[0] != "did" || parts[1] != "hedera" then Err(InvalidDid)
    else
      var network :- ParseNetwork(parts[2]);
      var id :- ParseKeyAndTopic(parts[3]);
      Ok(HederaDid(network, id.0, id.1))
  }

  /** A numeral has only digits and perhaps a plus sign. */
  lemma U64HasNo(s: string, c: char)
    requires IsU64(s) && !IsDigit(c) && c != '+'
    ensures c !in s
  {
    forall i | 0 <= i < |s| ensures s[i] != c {
      if |s| > 1 && s[0] == '+' && i > 0 { assert s[1..][i - 1] == s[i]; }
    }
  }

  lemma TopicIdHasNo(topicId: string, c: char)
    requires IsTopicId(topicId) && !IsDigit(c) && c != '+' && c != '.'
    ensures c !in topicId
  {
    var parts := Split(topicId, '.');
    JoinOfSplitN(topicId, |topicId| + 1, '.');
    forall k | 0 <= k < |parts| ensures c !in parts[k] { U64HasNo(parts[k], c); }
    JoinHasNo(parts, '.', c);
  }

  /** The four colon-separated pieces of a printed DID. */
  function Pieces(d: HederaDid): seq<string> {
    ["did", "hedera", d.network.ToString(), d.base58Key + "_" + d.topicId]
  }

  lemma JoinFour(a: string, b: string, c: string, d: string, sep: char)
    ensures Join([a, b, c, d], sep) == a + [sep] + b + [sep] + c + [sep] + d
  {
    var parts := [a, b, c, d];
    assert parts[1..] == [b, c, d] && parts[1..][1..] == [c, d] && parts[1..][1..][1..] == [d];
    assert Join([d], sep) == d;
    assert Join([c, d], sep) == c + [sep] + d;
    assert Join([b, c, d], sep) == b + [sep] + (c + [sep] + d);
    assert Join(parts, sep) == a + [sep] + (b + [sep] + (c + [sep] + d));
  }

  lemma PrintIsJoin(d: HederaDid)
    ensures d.ToString() == Join(Pieces(d), ':')
  {
    JoinFour("did", "hedera", d.network.ToString(), d.base58Key + "_" + d.topicId, ':');
    assert "did:hedera:" == "did" + [':'] + "hedera" + [':'];
  }

  lemma PiecesOfPrint(d: HederaDid)
    ensures SplitN(d.ToString(), 4, ':') == Pieces(d)
  {
    PrintIsJoin(d);
    var last := [d.base58Key + "_" + d.topicId];
    assert ["hedera"] + ([d.network.ToString()] + last) == ["hedera", d.network.ToString()] + last;
    assert Pieces(d) == ["did"] + (["hedera"] + ([d.network.ToString()] + last));
    CleanCons(d.network.ToString(), last, 2, ':');
    CleanCons("hedera", [d.network.ToString()] + last, 3, ':');
    CleanCons("did", ["hedera"] + ([d.network.ToString()] + last), 4, ':');
    SplitNOfJoin(Pieces(d), 4, ':');
  }

  lemma NetworkRoundTrip(network: Network)
    ensures ParseNetwork(network.ToString()) == Ok(network)
  {
  }

  lemma NetworkPrintOfParse(s: string)
    requires ParseNetwork(s).Ok?
    ensures ParseNetwork(s).value.ToString() == s
  {
  }

  lemma KeyAndTopicOfParse(s: string)
    requires ParseKeyAndTopic(s).Ok?
    ensures var id := ParseKeyAndTopic(s).value;
      s == id.0 + "_" + id.1 && '_' !in id.0 && IsTopicId(id.1)
  {
    var i := Find(s, '_');
    assert s == s[..i] + "_" + s[i + 1..];
  }

  lemma KeyAndTopicOfPrint(key: string, topicId: string)
    requires '_' !in key && IsTopicId(topicId)
    ensures ParseKeyAndTopic(key + "_" + topicId) == Ok((key, topicId))
  {
    SplitOnceOfConcat(key, topicId, '_');
  }

  lemma PartsOfParse(s: string)
    requires ParseDid(s).Ok?
    ensures var parts, d := SplitN(s, 4, ':'), ParseDid(s).value;
      && |parts| == 4 && parts[0] == "did" && parts[1] == "hedera"
      && ParseNetwork(parts[2]) == Ok(d.network) && ParseKeyAndTopic(parts[3]) == Ok((d.base58Key, d.topicId))
  {
  }

  lemma FourParts(parts: seq<string>, network: string, last: string)
    requires |parts| == 4 && parts[0] == "did" && parts[1] == "hedera" && parts[2] == network && parts[3] == last
    ensures parts == ["did", "hedera", network, last]
  {
  }

  /** An accepted text is the join of the pieces its DID is printed from. */
  lemma PiecesOfParse(s: string)
    requires ParseDid(s).Ok?
    ensures SplitN(s, 4, ':') == Pieces(ParseDid(s).value)
    ensures Printable(ParseDid(s).value)
  {
    var parts, d := SplitN(s, 4, ':'), ParseDid(s).value;
    PartsOfParse(s);
    KeyAndTopicOfParse(parts[3]);
    NetworkPrintOfParse(parts[2]);
    FourParts(parts, parts[2], parts[3]);
  }

  lemma DidErrors(s: string)
    ensures ParseDid(s).Err? ==> ParseDid(s) == Err(InvalidDid)
  {
  }

  /** Printing an accepted DID gives back the very text that was parsed. */
  lemma PrintOfParse(s: string)
    requires ParseDid(s).Ok?
    ensures ParseDid(s).value.ToString() == s
    ensures Printable(ParseDid(s).value)
  {
    PiecesOfParse(s);
    JoinOfSplitN(s, 4, ':');
    PrintIsJoin(ParseDid(s).value);
  }

  /** A DID that was built rather than parsed survives printing exactly in this case. */
  predicate Printable(d: HederaDid) {
    '_' !in d.base58Key && IsTopicId(d.topicId)
  }

  lemma ParseOfPieces(d: HederaDid)
    requires Printable(d)
    ensures ParseDid(d.ToString()) == Ok(d)
  {
    PiecesOfPrint(d);
    NetworkRoundTrip(d.network);
    KeyAndTopicOfPrint(d.base58Key, d.topicId);
  }

  /** Parsing a printed DID gives it back exactly when it survives printing. */
  lemma ParseOfPrint(d: HederaDid)
    ensures ParseDid(d.ToString()) == Ok(d) <==> Printable(d)
  {
    if Printable(d) {
      ParseOfPieces(d);
    } else if ParseDid(d.ToString()).Ok? {
      PrintOfParse(d.ToString());
    }
  }

  /** A text with one underscore splits there in one way only. */
  lemma OnlyUnderscore(key: string, topicId: string, key': string, topicId': string)
    requires key + "_" + topicId == key' + "_" + topicId'
    requires '_' !in key' && '_' !in topicId'
    ensures key == key' && topicId == topicId'
  {
    var s := key' + "_" + topicId';
    assert (key + "_" + topicId)[|key|] == '_';
    assert forall i :: |key'| < i < |s| ==> s[i] == topicId'[i - |key'| - 1];
    assert forall i :: 0 <= i < |key'| ==> s[i] == key'[i];
    assert |key| == |key'|;
    assert key == s[..|key|] == key';
    assert topicId == s[|key| + 1..] == topicId';
  }

  /** The text of a DID is accepted at all only if the DID survives printing; it never reads as another DID. */
  lemma PrintedTextAcceptedIff(d: HederaDid)
    ensures ParseDid(d.ToString()).Ok? <==> Printable(d)
  {
    ParseOfPrint(d);
    if ParseDid(d.ToString()).Ok? {
      var d' := ParseDid(d.ToString()).value;
      PiecesOfParse(d.ToString());
      PiecesOfPrint(d);
      assert Pieces(d)[3] == Pieces(d')[3];
      TopicIdHasNo(d'.topicId, '_');
      OnlyUnderscore(d.base58Key, d.topicId, d'.base58Key, d'.topicId);
    }
  }

  /** Two DIDs that print alike are the same DID, when both survive printing. */
  lemma PrintIsInjective(a: HederaDid, b: HederaDid)
    requires Printable(a) && Printable(b) && a.ToString() == b.ToString()
    ensures a == b
  {
    ParseOfPrint(a);
    ParseOfPrint(b);
  }

  /** What is accepted, letter by letter: `did:hedera:`, one of four network names, a colon, a key without
      underscores (any text, colons included), an underscore and a topic id. */
  lemma AcceptedTextIff(s: string, d: HederaDid)
    ensures ParseDid(s) == Ok(d) <==> IsNamed(s, d) && '_' !in d.base58Key && IsTopicId(d.topicId)
  {
    NamedIsPrinted(d);
    if ParseDid(s) == Ok(d) { PrintOfParse(s); }
    if IsNamed(s, d) && '_' !in d.base58Key && IsTopicId(d.topicId) { ParseOfPrint(d); }
  }

  predicate IsNamed(s: string, d: HederaDid) {
    match d.network
    case Mainnet => s == "did:hedera:mainnet:" + d.base58Key + "_" + d.topicId
    case Testnet => s == "did:hedera:testnet:" + d.base58Key + "_" + d.topicId
    case Previewnet => s == "did:hedera:previewnet:" + d.base58Key + "_" + d.topicId
    case Local => s == "did:hedera:local:" + d.base58Key + "_" + d.topicId
  }

  lemma NamedIsPrinted(d: HederaDid)
    ensures IsNamed(d.ToString(), d)
  {
    assert "did:hedera:" + d.network.ToString() + ":" ==
      match d.network
      case Mainnet => "did:hedera:mainnet:"
      case Testnet => "did:hedera:testnet:"
      case Previewnet => "did:hedera:previewnet:"
      case Local => "did:hedera:local:";
  }
}
