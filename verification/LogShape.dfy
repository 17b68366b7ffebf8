/** The shape every resolved document has, and how repeated and reordered messages affect it. */
module LogShape {
  import opened Wrappers
  import opened Text
  import opened Codec
  import opened Did
  import opened Keys
  import opened Events
  import opened Messages
  import opened DidLog
  import opened LogSafety
  import opened LogMeaning

  // ---------------------------------------------------------------- well-formed documents

  /** Each key is its value's id; only the root id and owned ids occur. */
  ghost predicate MethodsWellFormed(x: Subject, m: MethodMap) {
    forall id :: id in m ==> m[id].id == id && (id == x.RootId() || x.OwnsMethodId(id))
  }

  ghost predicate ReferencesWellFormed(x: Subject, m: ReferenceMap) {
    forall id :: id in m ==> m[id] == Reference(id) && x.OwnsMethodId(id)
  }

  ghost predicate ServicesWellFormed(x: Subject, m: ServiceMap) {
    forall id :: id in m ==> m[id].id == id && StartsWith(id, x.did)
  }

  /** The four signs that the DID is established agree. */
  predicate EstablishedSigns(x: Subject, st: FoldState) {
    && (st.established <==> st.created.Some?)
    && (st.established <==> st.controller.Some?)
    && (st.established <==> x.RootId() in st.methods)
  }

  ghost predicate WellFormed(x: Subject, st: FoldState) {
    && EstablishedSigns(x, st)
    && MethodsWellFormed(x, st.methods)
    && ServicesWellFormed(x, st.services)
    && forall r :: ReferencesWellFormed(x, st.Bucket(r))
  }

  lemma HappenKeepsMaps(x: Subject, st: FoldState, h: Happening)
    requires Accepted(x, st, h.event) && WellFormed(x, st)
    ensures MethodsWellFormed(x, Happen(x, st, h).methods)
    ensures ServicesWellFormed(x, Happen(x, st, h).services)
    ensures forall r :: ReferencesWellFormed(x, Happen(x, st, h).Bucket(r))
  {
    HappenKeepsMethods(x, st, h);
    HappenKeepsServices(x, st, h);
    forall r ensures ReferencesWellFormed(x, Happen(x, st, h).Bucket(r)) {
      assert ReferencesWellFormed(x, st.Bucket(r));
      HappenKeepsBucket(x, st, h, r);
    }
  }

  lemma HappenKeepsMethods(x: Subject, st: FoldState, h: Happening)
    requires Accepted(x, st, h.event) && MethodsWellFormed(x, st.methods)
    ensures MethodsWellFormed(x, Happen(x, st, h).methods)
  {
    var m := Happen(x, st, h).methods;
    forall id | id in m ensures m[id].id == id && (id == x.RootId() || x.OwnsMethodId(id)) {
      HappenOnMethods(x, st, h, id);
    }
  }

  lemma HappenKeepsServices(x: Subject, st: FoldState, h: Happening)
    requires Accepted(x, st, h.event) && ServicesWellFormed(x, st.services)
    ensures ServicesWellFormed(x, Happen(x, st, h).services)
  {
    var m := Happen(x, st, h).services;
    forall id | id in m ensures m[id].id == id && StartsWith(id, x.did) {
      HappenOnServices(x, st, h, id);
    }
  }

  lemma HappenKeepsBucket(x: Subject, st: FoldState, h: Happening, r: Relationship)
    requires Accepted(x, st, h.event) && ReferencesWellFormed(x, st.Bucket(r))
    ensures ReferencesWellFormed(x, Happen(x, st, h).Bucket(r))
  {
    var m := Happen(x, st, h).Bucket(r);
    forall id | id in m ensures m[id] == Reference(id) && x.OwnsMethodId(id) {
      HappenOnReferences(x, st, h, r, id);
    }
  }

  lemma HappenKeepsSigns(x: Subject, st: FoldState, h: Happening)
    requires Accepted(x, st, h.event) && EstablishedSigns(x, st)
    ensures EstablishedSigns(x, Happen(x, st, h))
  {
    OwnerHappens(x, st, h);
    HappenOnMethods(x, st, h, x.RootId());
    RootIsNotOwned(x);
  }

  lemma UntouchedIsWellFormed(x: Subject, a: FoldState, b: FoldState)
    requires WellFormed(x, a) && a.(deactivated := false) == b.(deactivated := false)
    ensures WellFormed(x, b)
  {
    assert b == a.(deactivated := b.deactivated);
    forall r ensures ReferencesWellFormed(x, b.Bucket(r)) {
      assert b.Bucket(r) == a.Bucket(r) && ReferencesWellFormed(x, a.Bucket(r));
    }
  }

  /** Every reachable state is well formed. */
  lemma {:induction false} ReachableIsWellFormed(x: Subject, log: seq<string>)
    requires ValidKey(x.c, x.anchor)
    ensures WellFormed(x, Fold(x, log))
    decreases |log|
  {
    if log != [] {
      var n := |log| - 1;
      assert log[..n + 1] == log;
      ReachableIsWellFormed(x, log[..n]);
      EffectiveStep(x, log, n);
      var st := Fold(x, log[..n]);
      if Effective(x, log, n).Some? {
        HappenKeepsMaps(x, st, Effective(x, log, n).value);
        HappenKeepsSigns(x, st, Effective(x, log, n).value);
      } else {
        UntouchedIsWellFormed(x, st, Fold(x, log));
      }
    }
  }

  /** Adds and removes never touch the root method. */
  lemma ChangesSpareRoot(x: Subject, st: FoldState, e: DidEvent)
    requires !e.Owner?
    ensures Lookup(ApplyChange(x, st, e).methods, x.RootId()) == Lookup(st.methods, x.RootId())
  {
    RootIsNotOwned(x);
    var h := Happening(e, "");
    HappenOnMethods(x, st, h, x.RootId());
    assert Happen(x, st, h).methods == ApplyChange(x, st, e).methods;
  }

  lemma RootInView(x: Subject, st: FoldState)
    requires WellFormed(x, st) && ViewOf(x, st).Ok? && !st.deactivated
    ensures var v := ViewOf(x, st).value;
      && x.RootId() in v.methods && v.methods[x.RootId()].id == x.RootId()
      && Lookup(v.authentication, x.RootId()) == Some(Reference(x.RootId()))
      && Lookup(v.assertionMethod, x.RootId()) == Some(Reference(x.RootId()))
      && x.RootId() !in v.keyAgreement
      && x.RootId() !in v.capabilityInvocation && x.RootId() !in v.capabilityDelegation
  {
    RootInNoBucket(x, st, Authentication);
    RootInNoBucket(x, st, AssertionMethod);
    RootInNoBucket(x, st, KeyAgreement);
    RootInNoBucket(x, st, CapabilityInvocation);
    RootInNoBucket(x, st, CapabilityDelegation);
  }

  /** A live document lists the root method; the injected root reference is its only entry for
      the root id in authentication and assertionMethod, and in no other relationship. */
  lemma LiveDocumentHasRoot(c: Codec, did: HederaDid, log: seq<string>)
    requires ResolveView(c, did, log).Ok? && !ResolveView(c, did, log).value.deactivated
    ensures var v := ResolveView(c, did, log).value;
      && did.RootKeyId() in v.methods && v.methods[did.RootKeyId()].id == did.RootKeyId()
      && Lookup(v.authentication, did.RootKeyId()) == Some(Reference(did.RootKeyId()))
      && Lookup(v.assertionMethod, did.RootKeyId()) == Some(Reference(did.RootKeyId()))
      && did.RootKeyId() !in v.keyAgreement
      && did.RootKeyId() !in v.capabilityInvocation && did.RootKeyId() !in v.capabilityDelegation
  {
    var x := Subject(c, did.ToString(), AnchorOf(c, did).value);
    ReachableIsWellFormed(x, log);
    RootInView(x, Fold(x, log));
  }

  lemma RootInNoBucket(x: Subject, st: FoldState, r: Relationship)
    requires WellFormed(x, st)
    ensures x.RootId() !in st.Bucket(r)
  {
    RootIsNotOwned(x);
    assert ReferencesWellFormed(x, st.Bucket(r));
  }

  /** The root method of an established DID reads back as the key in force exactly when the
      last effective owner event does not carry two disagreeing spellings of its key. */
  lemma RootMethodShowsKeyInForce(x: Subject, log: seq<string>) returns (i: nat)
    requires Base58Law(x.c) && ValidKey(x.c, x.anchor) && Fold(x, log).established
    ensures LastOwner(x, log, i) && x.RootId() in Fold(x, log).methods
    ensures FromMultibase(x.c, Fold(x, log).methods[x.RootId()].publicKeyMultibase) == Ok(Fold(x, log).current)
      <==> !Disagrees(x.c, Effective(x, log, i).value.event.owner)
  {
    i := ControlIsLastOwner(x, log);
    RootMethodIsLastOwner(x, log, i);
    DocumentSpellingOfClaimedKey(x.c, Effective(x, log, i).value.event.owner);
  }

  // ---------------------------------------------------------------- relationship references

  /** An entry is present at the end exactly when some effect put it and no later one dropped it. */
  ghost predicate PutAndKept<V>(effects: seq<Effect<V>>, i: nat) {
    i < |effects| && effects[i].Put? && forall j :: i < j < |effects| ==> !effects[j].Drop?
  }

  lemma {:induction false} PresentIffPutAndKept<V>(history: seq<Option<V>>, effects: seq<Effect<V>>)
    requires |history| == |effects| + 1 && history[0] == None
    requires forall i :: 0 <= i < |effects| ==> history[i + 1] == Act(effects[i], history[i])
    ensures history[|effects|].Some? <==> exists i :: PutAndKept(effects, i)
    decreases |effects|
  {
    if |effects| > 0 {
      var n := |effects| - 1;
      PresentIffPutAndKept(history[..n + 1], effects[..n]);
      if effects[n].Keep? {
        if i: nat :| PutAndKept(effects[..n], i) { assert PutAndKept(effects, i); }
        if i: nat :| PutAndKept(effects, i) { assert PutAndKept(effects[..n], i); }
      } else if effects[n].Put? {
        assert PutAndKept(effects, n);
      }
    }
  }

  /** Message `i` takes effect as an add of `id`. */
  predicate AddsAt(x: Subject, log: seq<string>, i: nat, id: string)
    requires i < |log|
  {
    match Effective(x, log, i)
    case Some(Happening(AddVerificationMethod(d), _)) => d.id == id && x.OwnsMethodId(id)
    case _ => false
  }

  predicate RemovesAt(x: Subject, log: seq<string>, i: nat, id: string)
    requires i < |log|
  {
    match Effective(x, log, i)
    case Some(Happening(RemoveVerificationMethod(gone), _)) => gone == id && x.OwnsMethodId(id)
    case _ => false
  }

  function AddAt(x: Subject, log: seq<string>, i: nat, id: string): AddMethodData
    requires i < |log| && AddsAt(x, log, i, id)
  {
    Effective(x, log, i).value.event.method_
  }

  /** `id` is not removed after position `i`. */
  ghost predicate KeptAfter(x: Subject, log: seq<string>, i: nat, id: string) {
    forall j :: i < j < |log| ==> !RemovesAt(x, log, j, id)
  }

  /** A surviving add of `id` that brings a key. */
  ghost predicate KeyedAdd(x: Subject, log: seq<string>, i: nat, id: string) {
    i < |log| && AddsAt(x, log, i, id) && AddAt(x, log, i, id).publicKeyMultibase != "" && KeptAfter(x, log, i, id)
  }

  /** A surviving add of `id` to relationship `r`, with or without a key. */
  ghost predicate ReferenceAdd(x: Subject, log: seq<string>, i: nat, r: Relationship, id: string) {
    i < |log| && AddsAt(x, log, i, id) && ParseRelationship(AddAt(x, log, i, id).relationshipType) == Some(r)
    && KeptAfter(x, log, i, id)
  }

  lemma KeyedAddIsPut(x: Subject, log: seq<string>, id: string)
    requires id != x.RootId()
    ensures forall i: nat :: KeyedAdd(x, log, i, id) <==> PutAndKept(MethodEffects(x, log, id), i)
  {
    var effects := MethodEffects(x, log, id);
    forall i | 0 <= i < |log|
      ensures effects[i].Drop? <==> RemovesAt(x, log, i, id)
      ensures effects[i].Put? <==> AddsAt(x, log, i, id) && AddAt(x, log, i, id).publicKeyMultibase != ""
    {
      MethodEffectKinds(x, Effective(x, log, i), id);
    }
  }

  /** Apart from the root, a method is listed exactly when an add with a key survives. */
  lemma MethodPresence(x: Subject, log: seq<string>, id: string)
    requires ValidKey(x.c, x.anchor) && id != x.RootId()
    ensures id in Fold(x, log).methods <==> exists i :: KeyedAdd(x, log, i, id)
  {
    var history := seq(|log| + 1, i requires 0 <= i <= |log| => Lookup(Fold(x, log[..i]).methods, id));
    var effects := MethodEffects(x, log, id);
    forall i | 0 <= i < |log| ensures history[i + 1] == Act(effects[i], history[i]) {
      MethodStep(x, log, i, id);
    }
    assert log[..|log|] == log;
    PresentIffPutAndKept(history, effects);
    KeyedAddIsPut(x, log, id);
  }

  lemma MethodEffectKinds(x: Subject, h: Option<Happening>, id: string)
    requires id != x.RootId()
    ensures MethodEffect(x, h, id).Drop?
      <==> h.Some? && h.value.event.RemoveVerificationMethod? && h.value.event.methodId == id && x.OwnsMethodId(id)
    ensures MethodEffect(x, h, id).Put?
      <==> h.Some? && h.value.event.AddVerificationMethod? && h.value.event.method_.id == id && x.OwnsMethodId(id)
           && h.value.event.method_.publicKeyMultibase != ""
  {
  }

  lemma ReferenceEffectKinds(x: Subject, h: Option<Happening>, r: Relationship, id: string)
    ensures ReferenceEffect(x, h, r, id).Drop?
      <==> h.Some? && h.value.event.RemoveVerificationMethod? && h.value.event.methodId == id && x.OwnsMethodId(id)
    ensures ReferenceEffect(x, h, r, id).Put?
      <==> h.Some? && h.value.event.AddVerificationMethod? && h.value.event.method_.id == id && x.OwnsMethodId(id)
           && ParseRelationship(h.value.event.method_.relationshipType) == Some(r)
  {
  }

  lemma ReferenceEffectAt(x: Subject, log: seq<string>, i: nat, r: Relationship, id: string)
    requires i < |log|
    ensures ReferenceEffects(x, log, r, id)[i].Drop? <==> RemovesAt(x, log, i, id)
    ensures ReferenceEffects(x, log, r, id)[i].Put?
      <==> AddsAt(x, log, i, id) && ParseRelationship(AddAt(x, log, i, id).relationshipType) == Some(r)
  {
    ReferenceEffectKinds(x, Effective(x, log, i), r, id);
  }

  /** An id is in a relationship exactly when an add to it survives, with or without a key. */
  lemma ReferencePresence(x: Subject, log: seq<string>, r: Relationship, id: string)
    requires ValidKey(x.c, x.anchor)
    ensures id in Fold(x, log).Bucket(r) <==> exists i :: ReferenceAdd(x, log, i, r, id)
  {
    var history := seq(|log| + 1, i requires 0 <= i <= |log| => Lookup(Fold(x, log[..i]).Bucket(r), id));
    var effects := ReferenceEffects(x, log, r, id);
    forall i | 0 <= i < |log| ensures history[i + 1] == Act(effects[i], history[i]) {
      ReferenceStep(x, log, i, r, id);
    }
    assert log[..|log|] == log;
    PresentIffPutAndKept(history, effects);
    forall i: nat ensures PutAndKept(effects, i) <==> ReferenceAdd(x, log, i, r, id) {
      PutAndKeptIsReferenceAdd(x, log, r, id, i);
    }
  }

  lemma PutAndKeptIsReferenceAdd(x: Subject, log: seq<string>, r: Relationship, id: string, i: nat)
    ensures PutAndKept(ReferenceEffects(x, log, r, id), i) <==> ReferenceAdd(x, log, i, r, id)
  {
    var effects := ReferenceEffects(x, log, r, id);
    forall j | 0 <= j < |log|
      ensures effects[j].Drop? <==> RemovesAt(x, log, j, id)
      ensures effects[j].Put?
        <==> AddsAt(x, log, j, id) && ParseRelationship(AddAt(x, log, j, id).relationshipType) == Some(r)
    {
      ReferenceEffectAt(x, log, j, r, id);
    }
  }

  /** Every relationship reference names a listed method. */
  ghost predicate ReferencesAreListed(st: FoldState) {
    forall r: Relationship, id :: id in st.Bucket(r) ==> id in st.methods
  }

  /** Every id with a surviving reference also has a surviving add with a key. */
  ghost predicate ReferencesAreKeyed(x: Subject, log: seq<string>) {
    forall i, r, id :: ReferenceAdd(x, log, i, r, id) ==> exists j :: KeyedAdd(x, log, j, id)
  }

  /** References dangle exactly when some id was only ever added without a key since its last removal. */
  lemma ReferencesListedIffKeyed(x: Subject, log: seq<string>)
    requires ValidKey(x.c, x.anchor)
    ensures ReferencesAreListed(Fold(x, log)) <==> ReferencesAreKeyed(x, log)
  {
    RootIsNotOwned(x);
    if ReferencesAreListed(Fold(x, log)) {
      forall i, r, id | ReferenceAdd(x, log, i, r, id) ensures exists j :: KeyedAdd(x, log, j, id) {
        ReferencePresence(x, log, r, id);
        MethodPresence(x, log, id);
      }
    }
    if ReferencesAreKeyed(x, log) {
      forall r: Relationship, id | id in Fold(x, log).Bucket(r) ensures id in Fold(x, log).methods {
        ReferencePresence(x, log, r, id);
        var i: nat :| ReferenceAdd(x, log, i, r, id);
        MethodPresence(x, log, id);
      }
    }
  }

  // ---------------------------------------------------------------- duplicates and reordering

  /** A second effective run of the same event changes nothing. */
  lemma HappenTwice(x: Subject, st: FoldState, h: Happening)
    requires Accepted(x, st, h.event)
    ensures Accepted(x, Happen(x, st, h), h.event)
    ensures Happen(x, Happen(x, st, h), h) == Happen(x, st, h)
  {
    var once := Happen(x, st, h);
    OwnerHappens(x, st, h);
    var twice := Happen(x, once, h);
    OwnerHappens(x, once, h);
    SameByLookup(once.methods, twice.methods) by {
      forall id ensures Lookup(once.methods, id) == Lookup(twice.methods, id) {
        HappenOnMethods(x, st, h, id);
        HappenOnMethods(x, once, h, id);
      }
    }
    SameByLookup(once.services, twice.services) by {
      forall id ensures Lookup(once.services, id) == Lookup(twice.services, id) {
        HappenOnServices(x, st, h, id);
        HappenOnServices(x, once, h, id);
      }
    }
    forall r ensures once.Bucket(r) == twice.Bucket(r) {
      forall id ensures Lookup(once.Bucket(r), id) == Lookup(twice.Bucket(r), id) {
        HappenOnReferences(x, st, h, r, id);
        HappenOnReferences(x, once, h, r, id);
      }
      SameByLookup(once.Bucket(r), twice.Bucket(r));
    }
    SameBuckets5(once, twice);
  }

  lemma SameByLookup<V>(a: map<string, V>, b: map<string, V>)
    requires forall id :: Lookup(a, id) == Lookup(b, id)
    ensures a == b
  {
    forall id ensures id in a <==> id in b { assert Lookup(a, id) == Lookup(b, id); }
    forall id | id in a ensures a[id] == b[id] { assert Lookup(a, id) == Lookup(b, id); }
  }

  lemma SameBuckets5(a: FoldState, b: FoldState)
    requires forall r :: a.Bucket(r) == b.Bucket(r)
    ensures SameBuckets(a, b)
  {
    assert a.Bucket(Authentication) == b.Bucket(Authentication);
    assert a.Bucket(AssertionMethod) == b.Bucket(AssertionMethod);
    assert a.Bucket(KeyAgreement) == b.Bucket(KeyAgreement);
    assert a.Bucket(CapabilityInvocation) == b.Bucket(CapabilityInvocation);
    assert a.Bucket(CapabilityDelegation) == b.Bucket(CapabilityDelegation);
  }

  /** One message processed twice in a row is the same as once, whatever it is. */
  lemma StepTwice(x: Subject, st: FoldState, raw: string)
    requires ValidKey(x.c, x.anchor)
    ensures Next(x, Next(x, st, raw), raw) == Next(x, st, raw)
  {
    var once := Next(x, st, raw);
    if !st.deactivated && Step(x, st, raw).1 == EndOfBody {
      var e := RequestOf(x, raw).envelope;
      var event := RequestOf(x, raw).event;
      var h := Happening(event, e.message.timestamp);
      AcceptedEndsBody(x, st, event, h.timestamp);
      HappenTwice(x, st, h);
      EventNeverDeactivates(x, st, event, h.timestamp);
      AcceptedEndsBody(x, once, event, h.timestamp);
    } else {
      ContinueLeavesState(x, st, raw);
    }
  }

  /** Logs that fold alike still do after the same continuation. */
  lemma {:induction false} SameContinuation(x: Subject, a: seq<string>, b: seq<string>, rest: seq<string>)
    requires Fold(x, a) == Fold(x, b)
    ensures Fold(x, a + rest) == Fold(x, b + rest)
    decreases |rest|
  {
    if rest == [] {
      assert a + rest == a && b + rest == b;
    } else {
      var n := |rest| - 1;
      SameContinuation(x, a, b, rest[..n]);
      assert a + rest == (a + rest[..n]) + [rest[n]] && b + rest == (b + rest[..n]) + [rest[n]];
      FoldSnoc(x, a + rest[..n], rest[n]);
      FoldSnoc(x, b + rest[..n], rest[n]);
    }
  }

  /** Repeating any message next to itself, rotations included, leaves the resolution as it is. */
  lemma DuplicateDoesNotMatter(c: Codec, did: HederaDid, before: seq<string>, raw: string, after: seq<string>)
    ensures ResolveView(c, did, before + [raw] + [raw] + after) == ResolveView(c, did, before + [raw] + after)
  {
    if AnchorOf(c, did).Ok? {
      var x := Subject(c, did.ToString(), AnchorOf(c, did).value);
      FoldSnoc(x, before, raw);
      FoldSnoc(x, before + [raw], raw);
      StepTwice(x, Fold(x, before), raw);
      SameContinuation(x, before + [raw] + [raw], before + [raw], after);
    }
  }

  /** No entry is touched by both events. */
  ghost predicate Disjoint(x: Subject, a: Happening, b: Happening) {
    && (forall id :: MethodEffect(x, Some(a), id).Keep? || MethodEffect(x, Some(b), id).Keep?)
    && (forall id :: ServiceEffect(x, Some(a), id).Keep? || ServiceEffect(x, Some(b), id).Keep?)
    && (forall r: Relationship, id ::
          ReferenceEffect(x, Some(a), r, id).Keep? || ReferenceEffect(x, Some(b), r, id).Keep?)
  }

  /** The id a method or service event is about. */
  function Target(e: DidEvent): Option<string> {
    match e
    case AddVerificationMethod(d) => Some(d.id)
    case RemoveVerificationMethod(id) => Some(id)
    case AddService(d) => Some(d.id)
    case RemoveService(id) => Some(id)
    case _ => None
  }

  predicate IsMethodEvent(e: DidEvent) {
    e.AddVerificationMethod? || e.RemoveVerificationMethod?
  }

  /** Neither event touches control, and they are about different ids or different kinds of entry. */
  predicate Independent(a: DidEvent, b: DidEvent) {
    !a.Owner? && !b.Owner? && (Target(a) != Target(b) || IsMethodEvent(a) != IsMethodEvent(b))
  }

  lemma IndependentIsDisjoint(x: Subject, a: Happening, b: Happening)
    requires Independent(a.event, b.event)
    ensures Disjoint(x, a, b)
  {
  }

  /** Independent events commute on everything but the update time. */
  lemma HappenSwap(x: Subject, st: FoldState, a: Happening, b: Happening)
    requires Independent(a.event, b.event)
    ensures Happen(x, Happen(x, st, a), b).(updated := None) == Happen(x, Happen(x, st, b), a).(updated := None)
  {
    var sa, sb := Happen(x, st, a), Happen(x, st, b);
    var ab, ba := Happen(x, sa, b), Happen(x, sb, a);
    IndependentIsDisjoint(x, a, b);
    OwnerHappens(x, st, a);
    OwnerHappens(x, st, b);
    OwnerHappens(x, sa, b);
    OwnerHappens(x, sb, a);
    SameByLookup(ab.methods, ba.methods) by {
      forall id ensures Lookup(ab.methods, id) == Lookup(ba.methods, id) {
        HappenOnMethods(x, st, a, id);
        HappenOnMethods(x, sa, b, id);
        HappenOnMethods(x, st, b, id);
        HappenOnMethods(x, sb, a, id);
      }
    }
    SameByLookup(ab.services, ba.services) by {
      forall id ensures Lookup(ab.services, id) == Lookup(ba.services, id) {
        HappenOnServices(x, st, a, id);
        HappenOnServices(x, sa, b, id);
        HappenOnServices(x, st, b, id);
        HappenOnServices(x, sb, a, id);
      }
    }
    forall r ensures ab.Bucket(r) == ba.Bucket(r) {
      forall id ensures Lookup(ab.Bucket(r), id) == Lookup(ba.Bucket(r), id) {
        HappenOnReferences(x, st, a, r, id);
        HappenOnReferences(x, sa, b, r, id);
        HappenOnReferences(x, st, b, r, id);
        HappenOnReferences(x, sb, a, r, id);
      }
      SameByLookup(ab.Bucket(r), ba.Bucket(r));
    }
    SameBuckets5(ab, ba);
  }

  /** The messages ask for independent changes of this DID. */
  predicate IndependentMessages(x: Subject, a: string, b: string) {
    && RequestOf(x, a).Change? && RequestOf(x, b).Change?
    && Independent(RequestOf(x, a).event, RequestOf(x, b).event)
  }

  /** One step of a message that does not touch control. */
  lemma ChangeStep(x: Subject, st: FoldState, raw: string)
    requires RequestOf(x, raw).Change? && !RequestOf(x, raw).event.Owner? && !st.deactivated
    ensures var e := RequestOf(x, raw).envelope;
      Next(x, st, raw) == (if SignedBy(x.c, st.current, e)
                           then Happen(x, st, Happening(RequestOf(x, raw).event, e.message.timestamp)) else st)
    ensures Next(x, st, raw).current == st.current && !Next(x, st, raw).deactivated
  {
    var e := RequestOf(x, raw).envelope;
    OnlyOwnersTouchScalars(x, st, RequestOf(x, raw).event, e.message.timestamp);
  }

  lemma StepSwap(x: Subject, st: FoldState, a: string, b: string)
    requires IndependentMessages(x, a, b)
    ensures Next(x, Next(x, st, a), b).(updated := None) == Next(x, Next(x, st, b), a).(updated := None)
  {
    if !st.deactivated {
      var ea, eb := RequestOf(x, a).envelope, RequestOf(x, b).envelope;
      ChangeStep(x, st, a);
      ChangeStep(x, st, b);
      ChangeStep(x, Next(x, st, a), b);
      ChangeStep(x, Next(x, st, b), a);
      HappenSwap(x, st, Happening(RequestOf(x, a).event, ea.message.timestamp),
        Happening(RequestOf(x, b).event, eb.message.timestamp));
    }
  }

  // ---------------------------------------------------------------- the update time steers nothing

  lemma BucketIgnoresUpdated(st: FoldState, r: Relationship, m: ReferenceMap, u: Option<string>)
    ensures st.(updated := u).Bucket(r) == st.Bucket(r)
    ensures st.(updated := u).WithBucket(r, m) == st.WithBucket(r, m).(updated := u)
  {
    match r {
      case Authentication => assert st.WithBucket(r, m) == st.(authentication := m);
      case AssertionMethod => assert st.WithBucket(r, m) == st.(assertionMethod := m);
      case KeyAgreement => assert st.WithBucket(r, m) == st.(keyAgreement := m);
      case CapabilityInvocation => assert st.WithBucket(r, m) == st.(capabilityInvocation := m);
      case CapabilityDelegation => assert st.WithBucket(r, m) == st.(capabilityDelegation := m);
    }
  }

  lemma ReferenceIgnoresUpdated(st: FoldState, id: string, r: Option<Relationship>, u: Option<string>)
    ensures AddReference(st.(updated := u), id, r) == AddReference(st, id, r).(updated := u)
  {
    if r.Some? { BucketIgnoresUpdated(st, r.value, st.Bucket(r.value)[id := Reference(id)], u); }
  }

  lemma AddIgnoresUpdated(x: Subject, st: FoldState, d: AddMethodData, u: Option<string>)
    ensures ApplyAddMethod(x, st.(updated := u), d) == ApplyAddMethod(x, st, d).(updated := u)
  {
    if x.OwnsMethodId(d.id) {
      var keyed, r := AddKeyed(st, d), ParseRelationship(d.relationshipType);
      KeyedIgnoresUpdated(st, d, u);
      ReferenceIgnoresUpdated(keyed, d.id, r, u);
      assert ApplyAddMethod(x, st, d) == AddReference(keyed, d.id, r);
      assert ApplyAddMethod(x, st.(updated := u), d) == AddReference(keyed.(updated := u), d.id, r);
    }
  }

  lemma KeyedIgnoresUpdated(st: FoldState, d: AddMethodData, u: Option<string>)
    ensures AddKeyed(st.(updated := u), d) == AddKeyed(st, d).(updated := u)
  {
    if d.publicKeyMultibase != "" {
      var m := st.methods[d.id := VerificationMethod(d.id, d.keyType, d.controller, d.publicKeyMultibase)];
      assert AddKeyed(st, d) == st.(methods := m);
      assert AddKeyed(st.(updated := u), d) == st.(updated := u, methods := m);
    }
  }

  lemma RemoveIgnoresUpdated(x: Subject, st: FoldState, id: string, u: Option<string>)
    ensures ApplyRemoveMethod(x, st.(updated := u), id) == ApplyRemoveMethod(x, st, id).(updated := u)
  {
  }

  lemma ServicesIgnoreUpdated(x: Subject, st: FoldState, d: AddServiceData, id: string, u: Option<string>)
    ensures ApplyAddService(x, st.(updated := u), d) == ApplyAddService(x, st, d).(updated := u)
    ensures ApplyRemoveService(x, st.(updated := u), id) == ApplyRemoveService(x, st, id).(updated := u)
  {
  }

  lemma ChangeIgnoresUpdated(x: Subject, st: FoldState, e: DidEvent, u: Option<string>)
    requires !e.Owner?
    ensures ApplyChange(x, st.(updated := u), e) == ApplyChange(x, st, e).(updated := u)
  {
    match e {
      case AddVerificationMethod(d) => AddIgnoresUpdated(x, st, d, u);
      case RemoveVerificationMethod(id) => RemoveIgnoresUpdated(x, st, id, u);
      case AddService(d) => ServicesIgnoreUpdated(x, st, d, "", u);
      case RemoveService(id) => ServicesIgnoreUpdated(x, st, AddServiceData("", "", ""), id, u);
      case Deactivate(_) =>
    }
  }

  lemma AfterOwnerIgnoresUpdated(x: Subject, st: FoldState, o: OwnerData, key: Bytes, timestamp: string,
                                 u: Option<string>)
    ensures AfterOwner(x, st.(updated := u), o, key, timestamp) == AfterOwner(x, st, o, key, timestamp).(updated := u)
  {
  }

  /** An event that takes effect leaves the same state behind, whatever the update time was. */
  lemma HappenIgnoresUpdated(x: Subject, st: FoldState, h: Happening, u: Option<string>)
    requires Accepted(x, st, h.event)
    ensures Accepted(x, st.(updated := u), h.event) && Happen(x, st.(updated := u), h) == Happen(x, st, h)
  {
    if h.event.Owner? {
      AfterOwnerIgnoresUpdated(x, st, h.event.owner, EffectiveKeyBytes(x.c, h.event.owner).value, h.timestamp, u);
    } else {
      ChangeIgnoresUpdated(x, st, h.event, u);
    }
  }

  lemma EventIgnoresUpdated(x: Subject, st: FoldState, e: HcsEnvelope, event: DidEvent, raw: string, u: Option<string>)
    requires ValidKey(x.c, x.anchor) && RequestOf(x, raw) == Change(e, event)
    ensures Next(x, st.(updated := u), raw).(updated := None) == Next(x, st, raw).(updated := None)
  {
    var st' := st.(updated := u);
    AcceptedEndsBody(x, st, event, e.message.timestamp);
    AcceptedEndsBody(x, st', event, e.message.timestamp);
    if Accepted(x, st, event) {
      HappenIgnoresUpdated(x, st, Happening(event, e.message.timestamp), u);
    } else {
      ContinueLeavesState(x, st, raw);
      ContinueLeavesState(x, st', raw);
      EventNeverDeactivates(x, st, event, e.message.timestamp);
      EventNeverDeactivates(x, st', event, e.message.timestamp);
    }
  }

  lemma DeleteSetsTombstone(x: Subject, st: FoldState, raw: string)
    requires RequestOf(x, raw).Delete?
    ensures Next(x, st, raw)
      == st.(deactivated := st.deactivated || SignedBy(x.c, st.current, RequestOf(x, raw).envelope))
  {
  }

  /** The next state up to the update time is decided by the state up to the update time. */
  lemma NextIgnoresUpdated(x: Subject, st: FoldState, raw: string, u: Option<string>)
    requires ValidKey(x.c, x.anchor)
    ensures Next(x, st.(updated := u), raw).(updated := None) == Next(x, st, raw).(updated := None)
  {
    if RequestOf(x, raw).Change? {
      EventIgnoresUpdated(x, st, RequestOf(x, raw).envelope, RequestOf(x, raw).event, raw, u);
    } else if RequestOf(x, raw).Delete? {
      DeleteSetsTombstone(x, st, raw);
      DeleteSetsTombstone(x, st.(updated := u), raw);
    }
  }

  /** Logs that fold alike up to the update time go on doing so. */
  lemma {:induction false} SameTimelessContinuation(x: Subject, a: seq<string>, b: seq<string>, rest: seq<string>)
    requires ValidKey(x.c, x.anchor) && Fold(x, a).(updated := None) == Fold(x, b).(updated := None)
    ensures Fold(x, a + rest).(updated := None) == Fold(x, b + rest).(updated := None)
    decreases |rest|
  {
    if rest == [] {
      assert a + rest == a && b + rest == b;
    } else {
      var n := |rest| - 1;
      var la, lb := a + rest[..n], b + rest[..n];
      SameTimelessContinuation(x, a, b, rest[..n]);
      assert a + rest == la + [rest[n]] && b + rest == lb + [rest[n]];
      FoldSnoc(x, la, rest[n]);
      FoldSnoc(x, lb, rest[n]);
      assert Fold(x, lb) == Fold(x, la).(updated := Fold(x, lb).updated);
      NextIgnoresUpdated(x, Fold(x, la), rest[n], Fold(x, lb).updated);
    }
  }

  lemma SwapInFold(x: Subject, log: seq<string>, a: string, b: string)
    requires IndependentMessages(x, a, b)
    ensures Fold(x, log + [a] + [b]).(updated := None) == Fold(x, log + [b] + [a]).(updated := None)
  {
    FoldSnoc(x, log, a);
    FoldSnoc(x, log, b);
    FoldSnoc(x, log + [a], b);
    FoldSnoc(x, log + [b], a);
    StepSwap(x, Fold(x, log), a, b);
  }

  /** Two adjacent independent messages may be exchanged anywhere in a log; only `updated` can tell
      the difference. */
  lemma SwapDoesNotMatter(c: Codec, did: HederaDid, log: seq<string>, a: string, b: string, rest: seq<string>)
    requires AnchorOf(c, did).Ok? ==> IndependentMessages(Subject(c, did.ToString(), AnchorOf(c, did).value), a, b)
    ensures Content(ResolveView(c, did, log + [a] + [b] + rest)) == Content(ResolveView(c, did, log + [b] + [a] + rest))
  {
    if AnchorOf(c, did).Ok? {
      var x := Subject(c, did.ToString(), AnchorOf(c, did).value);
      SwapInFold(x, log, a, b);
      SameTimelessContinuation(x, log + [a] + [b], log + [b] + [a], rest);
      TimelessView(x, Fold(x, log + [a] + [b] + rest), Fold(x, log + [b] + [a] + rest));
    }
  }

  lemma TimelessView(x: Subject, s: FoldState, t: FoldState)
    requires s.(updated := None) == t.(updated := None)
    ensures Content(ViewOf(x, s)) == Content(ViewOf(x, t))
  {
    assert t == s.(updated := t.updated);
  }
}
