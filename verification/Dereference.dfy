/** `resolver/src/dereference.rs`: from a DID URL to the method, service or document it names. */
module Dereference {
  import opened Wrappers
  import opened Codec
  import opened Did
  import opened DidUrl
  import opened DidLog
  import opened Resolver
  import opened LogMeaning
  import opened LogShape

  /** What a URL leads to; `D` is the kind of document, a view or the real thing. */
  datatype Resource<D> =
    | MethodResource(method_: VerificationMethod)
    | ServiceResource(service: Service)
    | Whole(document: D)

  /** The id a fragment stands for. */
  function FullId(url: HederaDidUrl): string
    requires url.fragment.Some?
  {
    url.did.ToString() + "#" + url.fragment.value
  }

  /** Dereferencing over the maps of the resolution. */
  function DereferenceView(c: Codec, url: HederaDidUrl, log: seq<string>): Result<Resource<View>, DidError> {
    var v :- ResolveView(c, url.did, log);
    if url.path.Some? || url.params != map[] then Err(InvalidArgument)
    else if url.fragment.None? then Ok(Whole(v))
    else if FullId(url) in v.methods then Ok(MethodResource(v.methods[FullId(url)]))
    else if FullId(url) in v.services then Ok(ServiceResource(v.services[FullId(url)]))
    else Err(NotFound)
  }

  /** `iter().find(|v| v.id == id)`. */
  function FindById<V>(values: seq<V>, idOf: V -> string, id: string): Option<V> {
    if values == [] then None
    else if idOf(values[0]) == id then Some(values[0])
    else FindById(values[1..], idOf, id)
  }

  function MethodId(m: VerificationMethod): string {
    m.id
  }

  function ServiceId(s: Service): string {
    s.id
  }

  lemma {:induction false} FindByIdFinds<V>(values: seq<V>, idOf: V -> string, id: string)
    ensures FindById(values, idOf, id).None? <==> forall i :: 0 <= i < |values| ==> idOf(values[i]) != id
    ensures FindById(values, idOf, id).Some? ==>
      exists i :: 0 <= i < |values| && FindById(values, idOf, id) == Some(values[i]) && idOf(values[i]) == id
    decreases |values|
  {
    if values != [] {
      FindByIdFinds(values[1..], idOf, id);
      if idOf(values[0]) != id {
        assert forall i :: 1 <= i < |values| ==> values[i] == values[1..][i - 1];
        if FindById(values[1..], idOf, id).Some? {
          var rest := values[1..];
          var i :| 0 <= i < |rest| && FindById(rest, idOf, id) == Some(rest[i]) && idOf(rest[i]) == id;
          assert values[i + 1] == rest[i];
        }
      }
    }
  }

  /** In whatever order a well-keyed map was listed, a search by id is a lookup. */
  lemma FindIsLookup<V>(values: seq<V>, m: map<string, V>, idOf: V -> string, id: string)
    requires Lists(values, m) && forall k :: k in m ==> idOf(m[k]) == k
    ensures FindById(values, idOf, id) == Lookup(m, id)
  {
    var keys :| Enumerates(keys, values, m);
    FindByIdFinds(values, idOf, id);
    if id in m {
      var i :| 0 <= i < |keys| && keys[i] == id;
      assert idOf(values[i]) == id;
    }
  }

  /** Every entry of a resolution is filed under its own id. */
  lemma EntriesCarryTheirIds(c: Codec, did: HederaDid, log: seq<string>)
    requires ResolveView(c, did, log).Ok?
    ensures var v := ResolveView(c, did, log).value;
      && (forall id :: id in v.methods ==> v.methods[id].id == id)
      && (forall id :: id in v.services ==> v.services[id].id == id)
  {
    ReachableIsWellFormed(Subject(c, did.ToString(), AnchorOf(c, did).value), log);
  }

  /** The same resource, read from the document that shows the view. */
  ghost predicate Matches(r: Resource<DidDocument>, v: Resource<View>) {
    match (r, v)
    case (MethodResource(a), MethodResource(b)) => a == b
    case (ServiceResource(a), ServiceResource(b)) => a == b
    case (Whole(d), Whole(view)) =>
      exists created, updated, deactivated :: Shows(DidResolution(d, created, updated, deactivated), view)
    case _ => false
  }

  /** `dereference_did`: resolve, then search the lists of the document. */
  method DereferenceDid(c: Codec, url: HederaDidUrl, messages: seq<string>)
    returns (r: Result<Resource<DidDocument>, DidError>)
    ensures r.Ok? <==> DereferenceView(c, url, messages).Ok?
    ensures r.Ok? ==> Matches(r.value, DereferenceView(c, url, messages).value)
    ensures r.Err? ==> r.error == DereferenceView(c, url, messages).error
  {
    var resolved := Resolve(c, messages, url.did);
    if resolved.Err? {
      return Err(resolved.error);
    }
    var resolution := resolved.value;
    if url.path.Some? || url.params != map[] {
      return Err(InvalidArgument);
    }
    var document := resolution.document;
    if url.fragment.None? {
      assert Shows(DidResolution(document, resolution.created, resolution.updated, resolution.deactivated),
                   ResolveView(c, url.did, messages).value);
      return Ok(Whole(document));
    }
    var fullId := FullId(url);
    ghost var v := ResolveView(c, url.did, messages).value;
    EntriesCarryTheirIds(c, url.did, messages);

    FindIsLookup(document.verificationMethod, v.methods, MethodId, fullId);
    var vm := FindById(document.verificationMethod, MethodId, fullId);
    if vm.Some? {
      return Ok(MethodResource(vm.value));
    }
    if document.service.Some? {
      FindIsLookup(document.service.value, v.services, ServiceId, fullId);
      var svc := FindById(document.service.value, ServiceId, fullId);
      if svc.Some? {
        return Ok(ServiceResource(svc.value));
      }
    }
    return Err(NotFound);
  }

  /** A method or service reached through an accepted URL has that very URL as its id. */
  lemma DereferencedIdIsUrl(c: Codec, s: string, log: seq<string>)
    requires ParseDidUrl(s).Ok? && DereferenceView(c, ParseDidUrl(s).value, log).Ok?
    ensures match DereferenceView(c, ParseDidUrl(s).value, log).value
      case MethodResource(m) => m.id == s
      case ServiceResource(svc) => svc.id == s
      case Whole(v) => v.id == s
  {
    var url := ParseDidUrl(s).value;
    if url.fragment.Some? {
      FragmentUrlText(s);
      EntriesCarryTheirIds(c, url.did, log);
    } else {
      var query := AcceptedUrlIsItsParts(s);
      PlainUrl(url, query);
    }
  }

  lemma PlainUrl(url: HederaDidUrl, query: Option<string>)
    requires url.path.None? && query.None? && url.fragment.None?
    ensures Rebuild(url, query) == url.did.ToString()
  {
  }

  /** The root fragment leads to the root method on every live DID. */
  lemma RootFragmentIsRootMethod(c: Codec, did: HederaDid, log: seq<string>)
    requires ResolveView(c, did, log).Ok? && !ResolveView(c, did, log).value.deactivated
    ensures did.RootKeyId() in ResolveView(c, did, log).value.methods
    ensures DereferenceView(c, HederaDidUrl(did, None, map[], Some("did-root-key")), log)
      == Ok(MethodResource(ResolveView(c, did, log).value.methods[did.RootKeyId()]))
  {
    LiveDocumentHasRoot(c, did, log);
    RootFullId(did);
  }

  lemma RootFullId(did: HederaDid)
    ensures FullId(HederaDidUrl(did, None, map[], Some("did-root-key"))) == did.RootKeyId()
  {
    HashJoin(did.ToString(), "did-root-key");
    assert "#" + "did-root-key" == DID_ROOT_KEY_ID;
  }

  /** Any other fragment leads to a method exactly when some accepted event added it with a
      key and no accepted event has removed it since. */
  lemma FragmentLeadsToMethodIff(c: Codec, url: HederaDidUrl, log: seq<string>)
    requires ResolveView(c, url.did, log).Ok? && !ResolveView(c, url.did, log).value.deactivated
    requires url.path.None? && url.params == map[] && url.fragment.Some? && FullId(url) != url.did.RootKeyId()
    ensures (DereferenceView(c, url, log).Ok? && DereferenceView(c, url, log).value.MethodResource?)
      <==> exists i :: KeyedAdd(Subject(c, url.did.ToString(), AnchorOf(c, url.did).value), log, i, FullId(url))
  {
    MethodPresence(Subject(c, url.did.ToString(), AnchorOf(c, url.did).value), log, FullId(url));
  }

  /** The method it leads to is that of the last effective event on the id. */
  lemma FragmentLeadsToThatMethodIff(c: Codec, url: HederaDidUrl, log: seq<string>, m: VerificationMethod)
    requires ResolveView(c, url.did, log).Ok?
    requires url.path.None? && url.params == map[] && url.fragment.Some?
    ensures var x := Subject(c, url.did.ToString(), AnchorOf(c, url.did).value);
      DereferenceView(c, url, log) == Ok(MethodResource(m))
      <==> !Fold(x, log).deactivated && exists i :: LastWrite(MethodEffects(x, log, FullId(url)), i, m)
  {
    var x := Subject(c, url.did.ToString(), AnchorOf(c, url.did).value);
    MethodsAreLastWrites(x, log, FullId(url), m);
  }

  /** A fragment leads to a service exactly when the DID is live, the last effective event on the id adds
      that service, and no method stands in front of it: the id is not the root's, and no add of it with
      a key survives. */
  lemma FragmentLeadsToServiceIff(c: Codec, url: HederaDidUrl, log: seq<string>, s: Service)
    requires ResolveView(c, url.did, log).Ok?
    requires url.path.None? && url.params == map[] && url.fragment.Some?
    ensures var x := Subject(c, url.did.ToString(), AnchorOf(c, url.did).value);
      DereferenceView(c, url, log) == Ok(ServiceResource(s))
      <==> (&& !Fold(x, log).deactivated && FullId(url) != url.did.RootKeyId()
            && (forall i :: !KeyedAdd(x, log, i, FullId(url)))
            && exists i :: LastWrite(ServiceEffects(x, log, FullId(url)), i, s))
  {
    var x := Subject(c, url.did.ToString(), AnchorOf(c, url.did).value);
    if !Fold(x, log).deactivated { LiveDocumentHasRoot(c, url.did, log); }
    ServicesAreLastWrites(x, log, FullId(url), s);
    if FullId(url) != url.did.RootKeyId() { MethodPresence(x, log, FullId(url)); }
  }

  /** The rest: a URL of nothing but the DID leads to the whole resolution, deactivated or not; any path or
      parameter is refused, a DID that does not resolve fails likewise, and what is not there is not found. */
  lemma OtherwiseDereferenced(c: Codec, url: HederaDidUrl, log: seq<string>)
    ensures ResolveView(c, url.did, log).Err? ==>
      DereferenceView(c, url, log) == Err(ResolveView(c, url.did, log).error)
    ensures ResolveView(c, url.did, log).Ok? && (url.path.Some? || url.params != map[]) ==>
      DereferenceView(c, url, log) == Err(InvalidArgument)
    ensures ResolveView(c, url.did, log).Ok? && url.path.None? && url.params == map[] && url.fragment.None? ==>
      DereferenceView(c, url, log) == Ok(Whole(ResolveView(c, url.did, log).value))
    ensures ResolveView(c, url.did, log).Ok? && url.path.None? && url.params == map[] && url.fragment.Some? ==>
      var v := ResolveView(c, url.did, log).value;
      && (FullId(url) !in v.methods && FullId(url) !in v.services ==> DereferenceView(c, url, log) == Err(NotFound))
      && (v.deactivated ==> DereferenceView(c, url, log) == Err(NotFound))
  {
  }
}
