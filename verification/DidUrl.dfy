/** `core/src/did_url.rs`: DID URLs, split right to left into fragment, query, path and DID. */
module DidUrl {
  import opened Wrappers
  import opened Text
  import opened Did

  datatype HederaDidUrl = HederaDidUrl(
    did: HederaDid, path: Option<string>, params: map<string, string>, fragment: Option<string>)

  /** Text before the first `c`, and the text after it when there is one. */
  function Cut(s: string, c: char): (string, Option<string>) {
    match SplitOnce(s, c)
    case Some((left, right)) => (left, Some(right))
    case None => (s, None)
  }

  /** The parameters of a list of `key=value` pairs; a later duplicate wins. */
  function PairsToMap(pairs: seq<string>): Result<map<string, string>, DidError> {
    if pairs == [] then Ok(map[])
    else
      var before :- PairsToMap(pairs[..|pairs| - 1]);
      match SplitOnce(pairs[|pairs| - 1], '=')
      case Some((key, value)) => Ok(before[key := value])
      case None => Err(InvalidDid)
  }

  function QueryParams(query: Option<string>): Result<map<string, string>, DidError> {
    match query
    case Some(text) => PairsToMap(Split(text, '&'))
    case None => Ok(map[])
  }

  /** The DID, path and query parts of a URL without its fragment. */
  function ParseResource(s: string, fragment: Option<string>): Result<HederaDidUrl, DidError> {
    var (beforeQuery, query) := Cut(s, '?');
    var (didText, path) := Cut(beforeQuery, '/');
    var params :- QueryParams(query);
    var did :- ParseDid(didText);
    Ok(HederaDidUrl(did, if path.Some? then Some("/" + path.value) else None, params, fragment))
  }

  function ParseDidUrl(s: string): Result<HederaDidUrl, DidError> {
    var (beforeFragment, fragment) := Cut(s, '#');
    if fragment == Some("") then Err(InvalidDid) else ParseResource(beforeFragment, fragment)
  }

  /** The query loop: pairs are inserted into the map one by one. */
  method ParseQuery(query: string) returns (r: Result<map<string, string>, DidError>)
    ensures r == QueryParams(Some(query))
  {
    var pairs := Split(query, '&');
    var params: map<string, string> := map[];
    var i := 0;
    while i < |pairs|
      invariant 0 <= i <= |pairs|
      invariant PairsToMap(pairs[..i]) == Ok(params)
    {
      assert pairs[..i + 1][..i] == pairs[..i];
      match SplitOnce(pairs[i], '=') {
        case Some((key, value)) => params := params[key := value];
        case None =>
          PairsErrPersists(pairs, i);
          return Err(InvalidDid);
      }
      i := i + 1;
    }
    assert pairs[..|pairs|] == pairs;
    return Ok(params);
  }

  /** One malformed pair fails the whole query. */
  lemma {:induction false} PairsErrPersists(pairs: seq<string>, i: nat)
    requires i < |pairs| && SplitOnce(pairs[i], '=').None?
    ensures PairsToMap(pairs) == Err(InvalidDid)
    decreases |pairs|
  {
    var init := pairs[..|pairs| - 1];
    if i < |init| {
      PairsErrPersists(init, i);
    } else {
      PairsErrKind(init);
    }
  }

  /** The pair names the key: the text before its first equals sign. */
  predicate Names(pair: string, key: string) {
    '=' !in key && key + "=" <= pair
  }

  /** The last pair that names the key gives it this value. */
  predicate LastPair(pairs: seq<string>, i: nat, key: string, value: string) {
    && i < |pairs| && Names(pairs[i], key) && pairs[i] == key + "=" + value
    && forall j :: i < j < |pairs| ==> !Names(pairs[j], key)
  }

  lemma SplitIsNamed(pair: string, key: string)
    ensures SplitOnce(pair, '=').Some? <==> '=' in pair
    ensures SplitOnce(pair, '=').Some? ==>
      var (left, right) := SplitOnce(pair, '=').value;
      pair == left + "=" + right && (Names(pair, key) <==> left == key)
    ensures SplitOnce(pair, '=').None? ==> !Names(pair, key)
  {
    var i := Find(pair, '=');
    if i < |pair| { assert pair == pair[..i] + "=" + pair[i + 1..]; }
    if Names(pair, key) {
      NamedHasEquals(pair, key);
      SameStretch(pair, i, |key|);
    }
  }

  lemma NamedHasEquals(pair: string, key: string)
    requires Names(pair, key)
    ensures |key| < |pair| && pair[|key|] == '=' && pair[..|key|] == key
  {
    var named := key + "=";
    assert pair[|key|] == named[|key|] && pair[..|key|] == named[..|key|];
  }

  /** There is only one first equals sign. */
  lemma SameStretch(pair: string, i: nat, k: nat)
    requires i < |pair| && pair[i] == '=' && '=' !in pair[..i]
    requires k < |pair| && pair[k] == '=' && '=' !in pair[..k]
    ensures i == k
  {
    assert forall j :: 0 <= j < i ==> pair[..i][j] == pair[j];
    assert forall j :: 0 <= j < k ==> pair[..k][j] == pair[j];
  }

  /** What the parameters are: a key has the value of the last pair that names it, and there are no other
      keys. A query fails exactly when some pair has no equals sign. */
  lemma {:induction false} ParamsAreLastPairs(pairs: seq<string>, key: string, value: string)
    ensures PairsToMap(pairs).Ok? <==> forall i :: 0 <= i < |pairs| ==> '=' in pairs[i]
    ensures PairsToMap(pairs).Ok? ==>
      ((key in PairsToMap(pairs).value && PairsToMap(pairs).value[key] == value)
       <==> exists i :: LastPair(pairs, i, key, value))
    decreases |pairs|
  {
    if pairs != [] {
      var n := |pairs| - 1;
      var init := pairs[..n];
      ParamsAreLastPairs(init, key, value);
      SplitIsNamed(pairs[n], key);
      assert forall i :: 0 <= i < n ==> init[i] == pairs[i];
      LastPairSnoc(init, pairs[n], key, value);
      assert pairs == init + [pairs[n]];
    }
  }

  lemma LastPairSnoc(init: seq<string>, last: string, key: string, value: string)
    ensures (exists i :: LastPair(init + [last], i, key, value))
      <==> (if Names(last, key) then last == key + "=" + value else exists i :: LastPair(init, i, key, value))
  {
    forall i: nat ensures LastPair(init + [last], i, key, value)
      <==> (if Names(last, key) then i == |init| && last == key + "=" + value else LastPair(init, i, key, value))
    {
      if i < |init| { EarlierPair(init, last, i, key, value); }
    }
    if Names(last, key) && last == key + "=" + value { assert LastPair(init + [last], |init|, key, value); }
  }

  lemma EarlierPair(init: seq<string>, last: string, i: nat, key: string, value: string)
    requires i < |init|
    ensures LastPair(init + [last], i, key, value) <==> LastPair(init, i, key, value) && !Names(last, key)
  {
    var pairs := init + [last];
    assert pairs[|init|] == last && forall j :: 0 <= j < |init| ==> pairs[j] == init[j];
  }

  lemma PairsErrKind(pairs: seq<string>)
    ensures PairsToMap(pairs).Err? ==> PairsToMap(pairs) == Err(InvalidDid)
  {
  }

  /** `HederaDidUrl::from_str`. */
  method FromStr(s: string) returns (r: Result<HederaDidUrl, DidError>)
    ensures r == ParseDidUrl(s)
  {
    var (beforeFragment, fragment) := Cut(s, '#');
    if fragment == Some("") {
      return Err(InvalidDid);
    }
    var (beforeQuery, query) := Cut(beforeFragment, '?');
    var (didText, path) := Cut(beforeQuery, '/');
    var params: map<string, string> := map[];
    if query.Some? {
      params :- ParseQuery(query.value);
    }
    var did :- ParseDid(didText);
    return Ok(HederaDidUrl(did, if path.Some? then Some("/" + path.value) else None, params, fragment));
  }

  /** An accepted query string leaves at least one parameter behind. */
  lemma QueryLeavesParams(query: string)
    requires QueryParams(Some(query)).Ok?
    ensures QueryParams(Some(query)).value != map[]
  {
    var pairs := Split(query, '&');
    match SplitOnce(pairs[|pairs| - 1], '=') {
      case Some((key, value)) => assert key in PairsToMap(pairs).value;
    }
  }

  lemma CutRejoins(s: string, c: char)
    ensures c !in Cut(s, c).0
    ensures Cut(s, c).1.None? ==> Cut(s, c).0 == s
    ensures Cut(s, c).1.Some? ==> s == Cut(s, c).0 + [c] + Cut(s, c).1.value
  {
    var i := Find(s, c);
    if i < |s| { assert s == s[..i] + [c] + s[i + 1..]; }
  }

  /** The parts of a URL in the order in which its text lists them. */
  function Rebuild(url: HederaDidUrl, query: Option<string>): string {
    url.did.ToString() + url.path.UnwrapOr("") + Tail('?', query) + Tail('#', url.fragment)
  }

  /** The separator and what follows it, when there is something. */
  function Tail(c: char, after: Option<string>): string {
    if after.Some? then [c] + after.value else ""
  }

  lemma CutIsConcat(s: string, c: char)
    ensures s == Cut(s, c).0 + Tail(c, Cut(s, c).1)
  {
    CutRejoins(s, c);
    if Cut(s, c).1.Some? {
      assert Cut(s, c).0 + [c] + Cut(s, c).1.value == Cut(s, c).0 + ([c] + Cut(s, c).1.value);
    }
  }

  lemma ResourceText(s: string, fragment: Option<string>) returns (query: Option<string>)
    requires ParseResource(s, fragment).Ok?
    ensures s == ParseResource(s, fragment).value.did.ToString()
              + ParseResource(s, fragment).value.path.UnwrapOr("") + Tail('?', query)
    ensures ParseResource(s, fragment).value.fragment == fragment
    ensures QueryParams(query) == Ok(ParseResource(s, fragment).value.params)
    ensures query.Some? <==> ParseResource(s, fragment).value.params != map[]
    ensures ParseResource(s, fragment).value.path.Some? ==> StartsWith(ParseResource(s, fragment).value.path.value, "/")
  {
    var beforeQuery := Cut(s, '?').0;
    query := Cut(s, '?').1;
    CutIsConcat(s, '?');
    CutIsConcat(beforeQuery, '/');
    PrintOfParse(Cut(beforeQuery, '/').0);
    assert ['/'] == "/";
    if query.Some? { QueryLeavesParams(query.value); }
  }

  /** Every accepted URL is exactly its printed DID, path, query and fragment, in that order. */
  lemma AcceptedUrlIsItsParts(s: string) returns (query: Option<string>)
    requires ParseDidUrl(s).Ok?
    ensures s == Rebuild(ParseDidUrl(s).value, query)
    ensures QueryParams(query) == Ok(ParseDidUrl(s).value.params)
    ensures query.Some? <==> ParseDidUrl(s).value.params != map[]
    ensures ParseDidUrl(s).value.fragment != Some("")
    ensures ParseDidUrl(s).value.path.Some? ==> StartsWith(ParseDidUrl(s).value.path.value, "/")
  {
    var (beforeFragment, fragment) := Cut(s, '#');
    CutIsConcat(s, '#');
    query := ResourceText(beforeFragment, fragment);
  }

  /** The parameters of a query text: it is its pairs joined by ampersands, none of which holds one. */
  lemma QueryIsItsPairs(query: string) returns (pairs: seq<string>)
    ensures pairs != [] && Join(pairs, '&') == query && (forall i :: 0 <= i < |pairs| ==> '&' !in pairs[i])
    ensures QueryParams(Some(query)) == PairsToMap(pairs)
  {
    pairs := Split(query, '&');
    JoinOfSplitN(query, |query| + 1, '&');
    SplitHasNo(query, |query| + 1, '&');
  }

  /** Nothing fails but with one error. */
  lemma UrlErrors(s: string)
    ensures ParseDidUrl(s).Err? ==> ParseDidUrl(s) == Err(InvalidDid)
  {
    var beforeFragment := Cut(s, '#').0;
    var query := Cut(beforeFragment, '?').1;
    if query.Some? { PairsErrKind(Split(query.value, '&')); }
    DidErrors(Cut(Cut(beforeFragment, '?').0, '/').0);
  }

  lemma CutOfConcat(left: string, c: char, after: Option<string>)
    requires c !in left
    ensures Cut(left + Tail(c, after), c) == (left, after)
  {
    if after.Some? {
      SplitOnceOfConcat(left, after.value, c);
      assert left + ([c] + after.value) == left + [c] + after.value;
    } else {
      NothingToCut(left, c);
      assert left + "" == left;
    }
  }

  lemma NothingToCut(s: string, c: char)
    requires c !in s
    ensures Cut(s, c) == (s, None)
  {
  }

  /** Every URL that is put together from proper parts is accepted as just those parts: a DID that survives
      printing and holds no delimiter, a path of any further text, any query whose pairs are in order, and
      a fragment that is not empty. */
  lemma UrlRoundTrip(did: HederaDid, path: Option<string>, query: Option<string>, fragment: Option<string>)
    requires Printable(did) && !HasUrlDelimiter(did.base58Key) && QueryParams(query).Ok?
    requires path.Some? ==> '?' !in path.value && '#' !in path.value
    requires query.Some? ==> '#' !in query.value
    requires fragment != Some("")
    ensures ParseDidUrl(did.ToString() + Tail('/', path) + Tail('?', query) + Tail('#', fragment))
      == Ok(HederaDidUrl(did, if path.Some? then Some("/" + path.value) else None, QueryParams(query).value, fragment))
  {
    var text := did.ToString();
    PrintedDelimiters(did);
    ParseOfPrint(did);
    ConcatHas(text, Tail('/', path), '?');
    ConcatHas(text, Tail('/', path), '#');
    ConcatHas(text + Tail('/', path), Tail('?', query), '#');
    CutOfConcat(text + Tail('/', path) + Tail('?', query), '#', fragment);
    CutOfConcat(text + Tail('/', path), '?', query);
    CutOfConcat(text, '/', path);
  }

  /** With a fragment but neither path nor parameters, the URL is the DID, a hash and the fragment. */
  lemma FragmentUrlText(s: string)
    requires ParseDidUrl(s).Ok?
    requires ParseDidUrl(s).value.fragment.Some?
    requires ParseDidUrl(s).value.path.None? && ParseDidUrl(s).value.params == map[]
    ensures s == ParseDidUrl(s).value.did.ToString() + "#" + ParseDidUrl(s).value.fragment.value
    ensures ParseDidUrl(s).value.fragment.value != ""
  {
    var query := AcceptedUrlIsItsParts(s);
    EmptyMiddle(ParseDidUrl(s).value.did.ToString(), "#" + ParseDidUrl(s).value.fragment.value);
    HashJoin(ParseDidUrl(s).value.did.ToString(), ParseDidUrl(s).value.fragment.value);
  }

  lemma EmptyMiddle(a: string, b: string)
    ensures a + "" + "" + b == a + b
  {
  }

  lemma HashJoin(a: string, b: string)
    ensures a + ("#" + b) == a + "#" + b
  {
  }

  /** Characters that end the DID part of a URL. */
  predicate HasUrlDelimiter(text: string) {
    '#' in text || '?' in text || '/' in text
  }

  /** A DID followed by a fragment parses back to both exactly when it survives printing,
      its key holds no URL delimiter, and the fragment is not empty. */
  lemma FragmentUrlRoundTrip(did: HederaDid, fragment: string)
    ensures ParseDidUrl(did.ToString() + "#" + fragment) == Ok(HederaDidUrl(did, None, map[], Some(fragment)))
      <==> Printable(did) && !HasUrlDelimiter(did.base58Key) && fragment != ""
  {
    if Printable(did) && !HasUrlDelimiter(did.base58Key) && fragment != "" {
      NoTail(did.ToString());
      HashJoin(did.ToString(), fragment);
      UrlRoundTrip(did, None, None, Some(fragment));
    }
    if ParseDidUrl(did.ToString() + "#" + fragment) == Ok(HederaDidUrl(did, None, map[], Some(fragment))) {
      FragmentUrlIsPrinted(did, fragment);
    }
  }

  lemma NoTail(text: string)
    ensures text + Tail('/', None) + Tail('?', None) == text
  {
  }

  lemma FragmentUrlIsPrinted(did: HederaDid, fragment: string)
    requires ParseDidUrl(did.ToString() + "#" + fragment) == Ok(HederaDidUrl(did, None, map[], Some(fragment)))
    ensures Printable(did) && !HasUrlDelimiter(did.base58Key) && fragment != ""
  {
    var before := Cut(did.ToString() + "#" + fragment, '#').0;
    var beforeQuery := Cut(before, '?').0;
    CutRejoins(did.ToString() + "#" + fragment, '#');
    CutRejoins(before, '?');
    if Cut(before, '?').1.Some? { QueryLeavesParams(Cut(before, '?').1.value); }
    CutRejoins(beforeQuery, '/');
    PrintOfParse(before);
    PrintedDelimiters(did);
  }

  /** The key is the only part of a printable DID that can hold a URL delimiter. */
  lemma PrintedDelimiters(did: HederaDid)
    requires Printable(did)
    ensures HasUrlDelimiter(did.ToString()) <==> HasUrlDelimiter(did.base58Key)
    ensures forall c | c in "#?/" :: c in did.ToString() <==> c in did.base58Key
  {
    forall c | c in "#?/" ensures c in did.ToString() <==> c in did.base58Key {
      TopicIdHasNo(did.topicId, c);
      assert c !in "did:hedera:" && c !in did.network.ToString() && c !in ":" && c !in "_";
      var left := "did:hedera:" + did.network.ToString() + ":";
      assert c !in left;
      assert did.ToString() == left + did.base58Key + "_" + did.topicId;
      var middle := left + did.base58Key;
      assert c in middle <==> c in did.base58Key by { ConcatHas(left, did.base58Key, c); }
      ConcatHas(middle, "_", c);
      ConcatHas(middle + "_", did.topicId, c);
    }
    assert '#' in "#?/" && '?' in "#?/" && '/' in "#?/";
  }

  lemma ConcatHas(a: string, b: string, c: char)
    ensures c in a + b <==> c in a || c in b
  {
  }
}
