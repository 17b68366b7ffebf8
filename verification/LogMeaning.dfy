/**
 What a log means, entry by entry: which messages take effect, and which of them decides
 each entry of the document. Nothing here replays the maps.
 */
module LogMeaning {
  import opened Wrappers
  import opened Text
  import opened Codec
  import opened Did
  import opened Events
  import opened DidLog
  import opened LogSafety

  // ---------------------------------------------------------------- last writer, in general

  /** What one message does to one entry of one map. */
  datatype Effect<+V> = Keep | Put(value: V) | Drop

  function Act<V>(e: Effect<V>, entry: Option<V>): Option<V> {
    match e
    case Keep => entry
    case Put(v) => Some(v)
    case Drop => None
  }

  /** Position `i` puts `v`, and nothing after it touches the entry. */
  ghost predicate LastWrite<V>(effects: seq<Effect<V>>, i: nat, v: V) {
    i < |effects| && effects[i] == Put(v) && forall j :: i < j < |effects| ==> effects[j] == Keep
  }

  /** An entry that starts absent holds what the last effect on it put there. */
  lemma {:induction false} LastWriterWins<V>(history: seq<Option<V>>, effects: seq<Effect<V>>, v: V)
    requires |history| == |effects| + 1 && history[0] == None
    requires forall i :: 0 <= i < |effects| ==> history[i + 1] == Act(effects[i], history[i])
    ensures history[|effects|] == Some(v) <==> exists i :: LastWrite(effects, i, v)
    decreases |effects|
  {
    if |effects| > 0 {
      var n := |effects| - 1;
      LastWriterWins(history[..n + 1], effects[..n], v);
      if effects[n] == Keep {
        if i: nat :| LastWrite(effects[..n], i, v) { assert LastWrite(effects, i, v); }
        if i: nat :| LastWrite(effects, i, v) { assert LastWrite(effects[..n], i, v); }
      } else if effects[n] == Put(v) {
        assert LastWrite(effects, n, v);
      }
    }
  }

  // ---------------------------------------------------------------- messages that take effect

  /** An event that reaches the end of the loop body, and the time its message carries. */
  datatype Happening = Happening(event: DidEvent, timestamp: string)

  /** The resolver acts on the event: always, except for owner events with an unusable claim. */
  predicate Accepted(x: Subject, st: FoldState, e: DidEvent) {
    e.Owner? ==>
      && e.owner.id == x.did
      && EffectiveKeyBytes(x.c, e.owner).Ok?
      && (st.established || EffectiveKeyBytes(x.c, e.owner).value == x.anchor)
      && ValidKey(x.c, EffectiveKeyBytes(x.c, e.owner).value)
  }

  /** The event of message `i`, if it is signed by the key in force there, accepted, and not
      preceded by a verified delete. */
  function Effective(x: Subject, log: seq<string>, i: nat): Option<Happening>
    requires i < |log|
  {
    var st := Fold(x, log[..i]);
    match RequestOf(x, log[i])
    case Change(e, event) =>
      if !st.deactivated && SignedBy(x.c, st.current, e) && Accepted(x, st, event)
      then Some(Happening(event, e.message.timestamp)) else None
    case _ => None
  }

  /** The state after an accepted owner event, all at once. */
  function AfterOwner(x: Subject, st: FoldState, o: OwnerData, key: Bytes, timestamp: string): (r: FoldState)
    ensures SameBuckets(r, st) && r.services == st.services
  {
    st.(established := true, current := key, controller := Some(o.controller),
        methods := st.methods[x.RootId() := RootMethod(x, o, SpellingOf(x, o))],
        created := if st.created.None? then Some(timestamp) else st.created)
  }

  /** The state after an event that takes effect. */
  function Happen(x: Subject, st: FoldState, h: Happening): FoldState
    requires Accepted(x, st, h.event)
  {
    var st' := if h.event.Owner?
               then AfterOwner(x, st, h.event.owner, EffectiveKeyBytes(x.c, h.event.owner).value, h.timestamp)
               else ApplyChange(x, st, h.event);
    st'.(updated := Some(h.timestamp))
  }

  lemma AcceptedOwner(x: Subject, st: FoldState, o: OwnerData, timestamp: string)
    requires Accepted(x, st, Owner(o))
    ensures StepOwner(x, st, o, timestamp)
      == (AfterOwner(x, st, o, EffectiveKeyBytes(x.c, o).value, timestamp), EndOfBody)
  {
    SpellingExists(x.c, o);
  }

  lemma AcceptedEndsBody(x: Subject, st: FoldState, e: DidEvent, timestamp: string)
    requires ValidKey(x.c, x.anchor)
    ensures Accepted(x, st, e) <==> StepEvent(x, st, e, timestamp).1 == EndOfBody
    ensures Accepted(x, st, e) ==>
      StepEvent(x, st, e, timestamp).0.(updated := Some(timestamp)) == Happen(x, st, Happening(e, timestamp))
  {
    if e.Owner? {
      if EffectiveKeyBytes(x.c, e.owner).Ok? { SpellingExists(x.c, e.owner); }
      if Accepted(x, st, e) { AcceptedOwner(x, st, e.owner, timestamp); }
    }
  }

  /** A message either takes effect or leaves everything but the tombstone alone. */
  lemma EffectiveStep(x: Subject, log: seq<string>, i: nat)
    requires ValidKey(x.c, x.anchor) && i < |log|
    ensures Effective(x, log, i).Some? ==>
      && Accepted(x, Fold(x, log[..i]), Effective(x, log, i).value.event)
      && Fold(x, log[..i + 1]) == Happen(x, Fold(x, log[..i]), Effective(x, log, i).value)
    ensures Effective(x, log, i).None? ==>
      Fold(x, log[..i + 1]).(deactivated := false) == Fold(x, log[..i]).(deactivated := false)
  {
    var st := Fold(x, log[..i]);
    FoldPrefix(x, log, i);
    ContinueLeavesState(x, st, log[i]);
    match RequestOf(x, log[i]) {
      case Change(e, event) => AcceptedEndsBody(x, st, event, e.message.timestamp);
      case _ =>
    }
  }

  /** Without replaying a shorter log: the messages before `i` alone decide whether `i` takes effect. */
  lemma EffectiveInPrefix(x: Subject, log: seq<string>, n: nat, i: nat)
    requires i < n <= |log|
    ensures Effective(x, log[..n], i) == Effective(x, log, i)
  {
    assert log[..n][..i] == log[..i];
  }

  // ---------------------------------------------------------------- effects on single entries

  function Lookup<V>(m: map<string, V>, id: string): Option<V> {
    if id in m then Some(m[id]) else None
  }

  function MethodOf(d: AddMethodData): VerificationMethod {
    VerificationMethod(d.id, d.keyType, d.controller, d.publicKeyMultibase)
  }

  /** The spelling an accepted owner event leaves in the document. */
  function SpellingOf(x: Subject, o: OwnerData): string {
    match EffectiveKeyMultibase(x.c, o)
    case Ok(s) => s
    case Err(_) => ""
  }

  /** An add with a key puts the method, a remove drops it, an owner event puts the root method. */
  function MethodEffect(x: Subject, h: Option<Happening>, id: string): Effect<VerificationMethod> {
    if h.None? then Keep
    else
      match h.value.event
      case Owner(o) => if id == x.RootId() then Put(RootMethod(x, o, SpellingOf(x, o))) else Keep
      case AddVerificationMethod(d) =>
        if d.id == id && x.OwnsMethodId(id) && d.publicKeyMultibase != "" then Put(MethodOf(d)) else Keep
      case RemoveVerificationMethod(gone) => if gone == id && x.OwnsMethodId(id) then Drop else Keep
      case _ => Keep
  }

  function ReferenceEffect(x: Subject, h: Option<Happening>, r: Relationship, id: string): Effect<KeyCapabilityMethod> {
    if h.None? then Keep
    else
      match h.value.event
      case AddVerificationMethod(d) =>
        if d.id == id && x.OwnsMethodId(id) && ParseRelationship(d.relationshipType) == Some(r)
        then Put(Reference(id)) else Keep
      case RemoveVerificationMethod(gone) => if gone == id && x.OwnsMethodId(id) then Drop else Keep
      case _ => Keep
  }

  function ServiceEffect(x: Subject, h: Option<Happening>, id: string): Effect<Service> {
    if h.None? then Keep
    else
      match h.value.event
      case AddService(d) =>
        if d.id == id && StartsWith(id, x.did) then Put(Service(id, d.serviceType, d.serviceEndpoint)) else Keep
      case RemoveService(gone) => if gone == id && StartsWith(id, x.did) then Drop else Keep
      case _ => Keep
  }

  function MethodEffects(x: Subject, log: seq<string>, id: string): seq<Effect<VerificationMethod>> {
    seq(|log|, i requires 0 <= i < |log| => MethodEffect(x, Effective(x, log, i), id))
  }

  function ReferenceEffects(x: Subject, log: seq<string>, r: Relationship, id: string)
    : seq<Effect<KeyCapabilityMethod>>
  {
    seq(|log|, i requires 0 <= i < |log| => ReferenceEffect(x, Effective(x, log, i), r, id))
  }

  function ServiceEffects(x: Subject, log: seq<string>, id: string): seq<Effect<Service>> {
    seq(|log|, i requires 0 <= i < |log| => ServiceEffect(x, Effective(x, log, i), id))
  }

  lemma MethodStep(x: Subject, log: seq<string>, i: nat, id: string)
    requires ValidKey(x.c, x.anchor) && i < |log|
    ensures Lookup(Fold(x, log[..i + 1]).methods, id)
      == Act(MethodEffect(x, Effective(x, log, i), id), Lookup(Fold(x, log[..i]).methods, id))
  {
    EffectiveStep(x, log, i);
    var st := Fold(x, log[..i]);
    if Effective(x, log, i).Some? { HappenOnMethods(x, st, Effective(x, log, i).value, id); }
  }

  lemma HappenOnMethods(x: Subject, st: FoldState, h: Happening, id: string)
    requires Accepted(x, st, h.event)
    ensures Lookup(Happen(x, st, h).methods, id) == Act(MethodEffect(x, Some(h), id), Lookup(st.methods, id))
  {
    if h.event.Owner? {
      OwnerOnMethods(x, st, h);
    } else if h.event.AddVerificationMethod? {
      AddOnMethods(x, st, h.event.method_);
    } else if h.event.RemoveVerificationMethod? {
      RemoveOnMethods(x, st, h.event.methodId);
    } else {
      assert Happen(x, st, h).methods == st.methods;
    }
  }

  lemma RemoveOnMethods(x: Subject, st: FoldState, id: string)
    ensures ApplyRemoveMethod(x, st, id).methods == if x.OwnsMethodId(id) then st.methods - {id} else st.methods
  {
  }

  lemma OwnerOnMethods(x: Subject, st: FoldState, h: Happening)
    requires h.event.Owner? && Accepted(x, st, h.event)
    ensures Happen(x, st, h).methods
      == st.methods[x.RootId() := RootMethod(x, h.event.owner, SpellingOf(x, h.event.owner))]
  {
  }

  lemma AddOnMethods(x: Subject, st: FoldState, d: AddMethodData)
    ensures ApplyAddMethod(x, st, d).methods
      == if x.OwnsMethodId(d.id) && d.publicKeyMultibase != "" then st.methods[d.id := MethodOf(d)] else st.methods
  {
  }

  lemma HappenOnReferences(x: Subject, st: FoldState, h: Happening, r: Relationship, id: string)
    requires Accepted(x, st, h.event)
    ensures Lookup(Happen(x, st, h).Bucket(r), id) == Act(ReferenceEffect(x, Some(h), r, id), Lookup(st.Bucket(r), id))
  {
    if h.event.AddVerificationMethod? {
      AddOnReferences(x, st, h.event.method_, r);
    } else if h.event.RemoveVerificationMethod? {
      RemoveOnReferences(x, st, h.event.methodId, r);
    } else {
      OthersKeepReferences(x, st, h, r);
    }
  }

  lemma OthersKeepReferences(x: Subject, st: FoldState, h: Happening, r: Relationship)
    requires Accepted(x, st, h.event) && !h.event.AddVerificationMethod? && !h.event.RemoveVerificationMethod?
    ensures Happen(x, st, h).Bucket(r) == st.Bucket(r)
  {
    assert SameBuckets(Happen(x, st, h), st);
  }

  lemma AddOnReferences(x: Subject, st: FoldState, d: AddMethodData, r: Relationship)
    ensures ApplyAddMethod(x, st, d).Bucket(r)
      == if x.OwnsMethodId(d.id) && ParseRelationship(d.relationshipType) == Some(r)
         then st.Bucket(r)[d.id := Reference(d.id)] else st.Bucket(r)
  {
    assert AddKeyed(st, d).Bucket(r) == st.Bucket(r);
    ReferenceInBucket(AddKeyed(st, d), d.id, ParseRelationship(d.relationshipType), r);
  }

  lemma ReferenceInBucket(st: FoldState, id: string, q: Option<Relationship>, r: Relationship)
    ensures AddReference(st, id, q).Bucket(r)
      == if q == Some(r) then st.Bucket(r)[id := Reference(id)] else st.Bucket(r)
  {
  }

  lemma RemoveOnReferences(x: Subject, st: FoldState, id: string, r: Relationship)
    ensures ApplyRemoveMethod(x, st, id).Bucket(r) == if x.OwnsMethodId(id) then st.Bucket(r) - {id} else st.Bucket(r)
  {
  }

  lemma HappenOnServices(x: Subject, st: FoldState, h: Happening, id: string)
    requires Accepted(x, st, h.event)
    ensures Lookup(Happen(x, st, h).services, id) == Act(ServiceEffect(x, Some(h), id), Lookup(st.services, id))
  {
    if h.event.AddService? {
      assert Happen(x, st, h).services == ApplyAddService(x, st, h.event.service).services;
    } else if h.event.RemoveService? {
      assert Happen(x, st, h).services == ApplyRemoveService(x, st, h.event.serviceId).services;
    } else {
      OthersKeepServices(x, st, h);
    }
  }

  lemma OthersKeepServices(x: Subject, st: FoldState, h: Happening)
    requires Accepted(x, st, h.event) && !h.event.AddService? && !h.event.RemoveService?
    ensures Happen(x, st, h).services == st.services
  {
  }

  lemma ReferenceStep(x: Subject, log: seq<string>, i: nat, r: Relationship, id: string)
    requires ValidKey(x.c, x.anchor) && i < |log|
    ensures Lookup(Fold(x, log[..i + 1]).Bucket(r), id)
      == Act(ReferenceEffect(x, Effective(x, log, i), r, id), Lookup(Fold(x, log[..i]).Bucket(r), id))
  {
    EffectiveStep(x, log, i);
    var st := Fold(x, log[..i]);
    if Effective(x, log, i).Some? { HappenOnReferences(x, st, Effective(x, log, i).value, r, id); }
  }

  lemma ServiceStep(x: Subject, log: seq<string>, i: nat, id: string)
    requires ValidKey(x.c, x.anchor) && i < |log|
    ensures Lookup(Fold(x, log[..i + 1]).services, id)
      == Act(ServiceEffect(x, Effective(x, log, i), id), Lookup(Fold(x, log[..i]).services, id))
  {
    EffectiveStep(x, log, i);
    var st := Fold(x, log[..i]);
    if Effective(x, log, i).Some? { HappenOnServices(x, st, Effective(x, log, i).value, id); }
  }

  // ---------------------------------------------------------------- last writer, per entry

  /** A verification method is listed with given data exactly when the last effective event on
      its id is an add with a key (or, for the root id, an owner event) carrying that data. */
  lemma MethodsAreLastWrites(x: Subject, log: seq<string>, id: string, m: VerificationMethod)
    requires ValidKey(x.c, x.anchor)
    ensures Lookup(Fold(x, log).methods, id) == Some(m)
      <==> exists i :: LastWrite(MethodEffects(x, log, id), i, m)
  {
    var history := seq(|log| + 1, i requires 0 <= i <= |log| => Lookup(Fold(x, log[..i]).methods, id));
    forall i | 0 <= i < |log| ensures history[i + 1] == Act(MethodEffects(x, log, id)[i], history[i]) {
      MethodStep(x, log, i, id);
    }
    assert log[..|log|] == log;
    LastWriterWins(history, MethodEffects(x, log, id), m);
  }

  /** An id is in a relationship exactly when it was added there after its last removal. */
  lemma ReferencesAreLastWrites(x: Subject, log: seq<string>, r: Relationship, id: string)
    requires ValidKey(x.c, x.anchor)
    ensures Lookup(Fold(x, log).Bucket(r), id) == Some(Reference(id))
      <==> exists i :: LastWrite(ReferenceEffects(x, log, r, id), i, Reference(id))
  {
    var history := seq(|log| + 1, i requires 0 <= i <= |log| => Lookup(Fold(x, log[..i]).Bucket(r), id));
    var effects := ReferenceEffects(x, log, r, id);
    forall i | 0 <= i < |log| ensures history[i + 1] == Act(effects[i], history[i]) {
      ReferenceStep(x, log, i, r, id);
    }
    assert log[..|log|] == log;
    LastWriterWins(history, effects, Reference(id));
  }

  /** A service is listed with given data exactly when the last effective event on its id adds it with that data. */
  lemma ServicesAreLastWrites(x: Subject, log: seq<string>, id: string, s: Service)
    requires ValidKey(x.c, x.anchor)
    ensures Lookup(Fold(x, log).services, id) == Some(s)
      <==> exists i :: LastWrite(ServiceEffects(x, log, id), i, s)
  {
    var history := seq(|log| + 1, i requires 0 <= i <= |log| => Lookup(Fold(x, log[..i]).services, id));
    forall i | 0 <= i < |log| ensures history[i + 1] == Act(ServiceEffects(x, log, id)[i], history[i]) {
      ServiceStep(x, log, i, id);
    }
    assert log[..|log|] == log;
    LastWriterWins(history, ServiceEffects(x, log, id), s);
  }

  // ---------------------------------------------------------------- timestamps and control

  predicate OwnerAt(x: Subject, log: seq<string>, i: nat)
    requires i < |log|
  {
    Effective(x, log, i).Some? && Effective(x, log, i).value.event.Owner?
  }

  /** Message `i` is the first effective owner event. */
  ghost predicate FirstOwner(x: Subject, log: seq<string>, i: nat) {
    i < |log| && OwnerAt(x, log, i) && forall j :: 0 <= j < i ==> !OwnerAt(x, log, j)
  }

  /** Message `i` is the last effective owner event. */
  ghost predicate LastOwner(x: Subject, log: seq<string>, i: nat) {
    i < |log| && OwnerAt(x, log, i) && forall j :: i < j < |log| ==> !OwnerAt(x, log, j)
  }

  /** Message `i` is the last effective one of any kind. */
  ghost predicate LastEffective(x: Subject, log: seq<string>, i: nat) {
    i < |log| && Effective(x, log, i).Some? && forall j :: i < j < |log| ==> Effective(x, log, j).None?
  }

  lemma EffectiveBefore(x: Subject, init: seq<string>, raw: string)
    ensures forall j {:trigger Effective(x, init, j)} {:trigger Effective(x, init + [raw], j)} ::
      0 <= j < |init| ==> Effective(x, init, j) == Effective(x, init + [raw], j)
    ensures forall j {:trigger OwnerAt(x, init, j)} {:trigger OwnerAt(x, init + [raw], j)} ::
      0 <= j < |init| ==> OwnerAt(x, init, j) == OwnerAt(x, init + [raw], j)
  {
    assert (init + [raw])[..|init|] == init;
    forall j | 0 <= j < |init| ensures Effective(x, init, j) == Effective(x, init + [raw], j) {
      EffectiveInPrefix(x, init + [raw], |init|, j);
    }
  }

  /** What the last message changes about being the last effective one. */
  lemma LastEffectiveSnoc(x: Subject, init: seq<string>, raw: string, i: nat)
    ensures LastEffective(x, init + [raw], i)
      <==> (if Effective(x, init + [raw], |init|).Some? then i == |init| else LastEffective(x, init, i))
  {
    EffectiveBefore(x, init, raw);
  }

  lemma LastOwnerSnoc(x: Subject, init: seq<string>, raw: string, i: nat)
    ensures LastOwner(x, init + [raw], i)
      <==> (if OwnerAt(x, init + [raw], |init|) then i == |init| else LastOwner(x, init, i))
  {
    EffectiveBefore(x, init, raw);
  }

  lemma FirstOwnerSnoc(x: Subject, init: seq<string>, raw: string, i: nat)
    ensures FirstOwner(x, init, i) ==> FirstOwner(x, init + [raw], i)
    ensures FirstOwner(x, init + [raw], i) && i < |init| ==> FirstOwner(x, init, i)
    ensures FirstOwner(x, init + [raw], |init|)
      <==> OwnerAt(x, init + [raw], |init|) && forall j :: 0 <= j < |init| ==> !OwnerAt(x, init, j)
  {
    EffectiveBefore(x, init, raw);
  }

  lemma UpdatedStep(x: Subject, log: seq<string>, n: nat)
    requires ValidKey(x.c, x.anchor) && n < |log|
    ensures Fold(x, log[..n + 1]).updated
      == if Effective(x, log, n).Some? then Some(Effective(x, log, n).value.timestamp) else Fold(x, log[..n]).updated
  {
    EffectiveStep(x, log, n);
  }

  /** `updated` is the timestamp of the last message to take effect, and absent if none did. */
  lemma {:induction false} UpdatedIsLastEffective(x: Subject, log: seq<string>) returns (i: nat)
    requires ValidKey(x.c, x.anchor)
    ensures LastEffective(x, log, i) <==> exists j :: 0 <= j < |log| && Effective(x, log, j).Some?
    ensures Fold(x, log).updated
      == if LastEffective(x, log, i) then Some(Effective(x, log, i).value.timestamp) else None
    decreases |log|
  {
    i := 0;
    if log != [] {
      var n := |log| - 1;
      var init := log[..n];
      i := UpdatedIsLastEffective(x, init);
      assert log[..n + 1] == log && log == init + [log[n]];
      UpdatedStep(x, log, n);
      if Effective(x, log, n).Some? { i := n; }
      LastEffectiveSnoc(x, init, log[n], i);
      EffectiveBefore(x, init, log[n]);
    }
  }

  lemma OwnerHappens(x: Subject, st: FoldState, h: Happening)
    requires Accepted(x, st, h.event)
    ensures h.event.Owner? ==>
      Happen(x, st, h) == AfterOwner(x, st, h.event.owner, EffectiveKeyBytes(x.c, h.event.owner).value, h.timestamp)
                            .(updated := Some(h.timestamp))
    ensures !h.event.Owner? ==> SameScalars(Happen(x, st, h).(updated := st.updated), st)
  {
    if !h.event.Owner? { OnlyOwnersTouchScalars(x, st, h.event, h.timestamp); }
  }

  lemma CreatedStep(x: Subject, log: seq<string>, n: nat)
    requires ValidKey(x.c, x.anchor) && n < |log|
    ensures Fold(x, log[..n + 1]).created
      == if OwnerAt(x, log, n) && Fold(x, log[..n]).created.None? then Some(Effective(x, log, n).value.timestamp)
         else Fold(x, log[..n]).created
  {
    EffectiveStep(x, log, n);
    if Effective(x, log, n).Some? { OwnerHappens(x, Fold(x, log[..n]), Effective(x, log, n).value); }
  }

  /** `created` is the timestamp of the first effective owner event, and absent if there is none. */
  lemma {:induction false} CreatedIsFirstOwner(x: Subject, log: seq<string>) returns (i: nat)
    requires ValidKey(x.c, x.anchor)
    ensures FirstOwner(x, log, i) <==> exists j :: 0 <= j < |log| && OwnerAt(x, log, j)
    ensures Fold(x, log).created == if FirstOwner(x, log, i) then Some(Effective(x, log, i).value.timestamp) else None
    decreases |log|
  {
    i := 0;
    if log != [] {
      var n := |log| - 1;
      var init := log[..n];
      i := CreatedIsFirstOwner(x, init);
      assert log[..n + 1] == log && log == init + [log[n]];
      CreatedStep(x, log, n);
      if !FirstOwner(x, init, i) && OwnerAt(x, log, n) { i := n; }
      FirstOwnerSnoc(x, init, log[n], i);
      EffectiveBefore(x, init, log[n]);
    }
  }

  /** Owner event `o` decides the key in force and the controller. */
  predicate DecidedBy(x: Subject, st: FoldState, o: OwnerData) {
    st.established && EffectiveKeyBytes(x.c, o) == Ok(st.current) && st.controller == Some(o.controller)
  }

  predicate Undecided(x: Subject, st: FoldState) {
    !st.established && st.current == x.anchor && st.controller.None?
  }

  lemma ControlStep(x: Subject, log: seq<string>, n: nat)
    requires ValidKey(x.c, x.anchor) && n < |log|
    ensures OwnerAt(x, log, n) ==> DecidedBy(x, Fold(x, log[..n + 1]), Effective(x, log, n).value.event.owner)
    ensures !OwnerAt(x, log, n) ==>
      SameScalars(Fold(x, log[..n + 1]).(updated := None, deactivated := false),
        Fold(x, log[..n]).(updated := None, deactivated := false))
  {
    EffectiveStep(x, log, n);
    if Effective(x, log, n).Some? { OwnerHappens(x, Fold(x, log[..n]), Effective(x, log, n).value); }
  }

  /** The last effective owner event decides the key in force and the controller; until there
      is one, the key is the one in the DID. */
  lemma {:induction false} ControlIsLastOwner(x: Subject, log: seq<string>) returns (i: nat)
    requires ValidKey(x.c, x.anchor)
    ensures if LastOwner(x, log, i) then DecidedBy(x, Fold(x, log), Effective(x, log, i).value.event.owner)
            else Undecided(x, Fold(x, log)) && forall j :: 0 <= j < |log| ==> !OwnerAt(x, log, j)
    decreases |log|
  {
    i := 0;
    if log != [] {
      var n := |log| - 1;
      var init := log[..n];
      i := ControlIsLastOwner(x, init);
      assert log[..n + 1] == log && log == init + [log[n]];
      ControlStep(x, log, n);
      EffectiveBefore(x, init, log[n]);
      if OwnerAt(x, log, n) { i := n; }
      LastOwnerSnoc(x, init, log[n], i);
    }
  }

  lemma RootMethodStep(x: Subject, log: seq<string>, n: nat)
    requires ValidKey(x.c, x.anchor) && n < |log|
    ensures Lookup(Fold(x, log[..n + 1]).methods, x.RootId()) ==
      if OwnerAt(x, log, n)
      then Some(RootMethod(x, Effective(x, log, n).value.event.owner,
        SpellingOf(x, Effective(x, log, n).value.event.owner)))
      else Lookup(Fold(x, log[..n]).methods, x.RootId())
  {
    MethodStep(x, log, n, x.RootId());
    RootIsNotOwned(x);
  }

  /** The last effective owner event also writes the root method; without one there is none. */
  lemma {:induction false} RootMethodIsLastOwner(x: Subject, log: seq<string>, i: nat)
    requires ValidKey(x.c, x.anchor)
    requires if LastOwner(x, log, i) then true else forall j :: 0 <= j < |log| ==> !OwnerAt(x, log, j)
    ensures Lookup(Fold(x, log).methods, x.RootId()) ==
      if LastOwner(x, log, i)
      then Some(RootMethod(x, Effective(x, log, i).value.event.owner,
        SpellingOf(x, Effective(x, log, i).value.event.owner)))
      else None
    decreases |log|
  {
    if log != [] {
      var n := |log| - 1;
      var init := log[..n];
      assert log == init + [log[n]] && log[..n + 1] == log;
      RootMethodStep(x, log, n);
      EffectiveBefore(x, init, log[n]);
      if !OwnerAt(x, log, n) {
        LastOwnerSnoc(x, init, log[n], i);
        RootMethodIsLastOwner(x, init, i);
      }
    }
  }

  lemma RootIsNotOwned(x: Subject)
    ensures !x.OwnsMethodId(x.RootId())
  {
    assert x.RootId()[|x.RootId()| - |DID_ROOT_KEY_ID|..] == DID_ROOT_KEY_ID;
  }

  /** When a resolution fails, and how: the DID's key is not base58 of 32 bytes, or no curve point, or no
      owner event of the log was accepted. */
  lemma ResolutionFailsIff(c: Codec, did: HederaDid, log: seq<string>)
    ensures match c.decode58(did.base58Key)
      case None => ResolveView(c, did, log) == Err(InvalidDid)
      case Some(key) =>
        if |key| != 32 then ResolveView(c, did, log) == Err(InvalidDid)
        else if !c.isCurvePoint(key) then ResolveView(c, did, log) == Err(InvalidArgument)
        else
          var x := Subject(c, did.ToString(), key);
          if forall j :: 0 <= j < |log| ==> !OwnerAt(x, log, j) then ResolveView(c, did, log) == Err(NotFound)
          else ResolveView(c, did, log).Ok?
  {
    if AnchorOf(c, did).Ok? {
      var i := ControlIsLastOwner(Subject(c, did.ToString(), AnchorOf(c, did).value), log);
    }
  }
}
