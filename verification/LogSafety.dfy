/** What no message can do to a resolution unless the key in force signed it. */
module LogSafety {
  import opened Wrappers
  import opened Codec
  import opened Did
  import opened Events
  import opened Messages
  import opened DidLog

  lemma SpellingExists(c: Codec, o: OwnerData)
    requires EffectiveKeyBytes(c, o).Ok?
    ensures EffectiveKeyMultibase(c, o).Ok?
  {
  }

  /** Every `continue`, the late ones of an owner event included, leaves all variables as they were. */
  lemma ContinueLeavesState(x: Subject, st: FoldState, raw: string)
    requires ValidKey(x.c, x.anchor)
    ensures Step(x, st, raw).1 == Continue ==> Step(x, st, raw).0 == st
  {
    match RequestOf(x, raw) {
      case Change(e, event) =>
        match event {
          case Owner(o) => if EffectiveKeyBytes(x.c, o).Ok? { SpellingExists(x.c, o); }
          case _ =>
        }
      case _ =>
    }
  }

  /** A message that does not parse, names another DID, or is not signed by `key`. */
  predicate Foreign(x: Subject, key: Bytes, raw: string) {
    match ParseEnvelope(x.c, raw)
    case None => true
    case Some(e) => e.message.did != x.did || !SignedBy(x.c, key, e)
  }

  /** The loop skips every foreign message. */
  lemma ForeignIsSkipped(x: Subject, st: FoldState, raw: string)
    requires Foreign(x, st.current, raw)
    ensures Step(x, st, raw) == (st, Continue)
  {
  }

  /** A message that Ed25519 vouches for: an envelope for the DID whose signature is base64 of 64 bytes
      that verify, under `key`, over the UTF-8 bytes of its printed message. */
  ghost predicate Vouched(x: Subject, key: Bytes, raw: string, e: HcsEnvelope, signature: Bytes) {
    && ParseEnvelope(x.c, raw) == Some(e) && e.message.did == x.did
    && x.c.decode64(e.signature) == Some(signature) && |signature| == 64
    && x.c.edVerify(key, x.c.toUtf8(x.c.printJson(MessageJson(e.message))), signature)
  }

  /** The messages that are not foreign are exactly those. */
  lemma ForeignIff(x: Subject, key: Bytes, raw: string)
    ensures !Foreign(x, key, raw) <==> exists e, signature :: Vouched(x, key, raw, e, signature)
  {
    if !Foreign(x, key, raw) {
      var e := ParseEnvelope(x.c, raw).value;
      assert Vouched(x, key, raw, e, x.c.decode64(e.signature).value);
    }
  }

  /** Whatever the log, a message changes the outcome of the loop only if it is vouched for under
      the key in force. */
  lemma OnlyVouchedMatters(x: Subject, log: seq<string>, raw: string)
    requires Fold(x, log + [raw]) != Fold(x, log)
    ensures exists e, signature :: Vouched(x, Fold(x, log).current, raw, e, signature)
  {
    FoldSnoc(x, log, raw);
    ForeignIff(x, Fold(x, log).current, raw);
    if Foreign(x, Fold(x, log).current, raw) { ForeignIsSkipped(x, Fold(x, log), raw); }
  }

  /** A message deactivates a DID exactly if it is a vouched delete. */
  lemma DeactivatesIff(x: Subject, log: seq<string>, raw: string)
    requires !Fold(x, log).deactivated
    ensures Fold(x, log + [raw]).deactivated <==>
      exists e, signature :: Vouched(x, Fold(x, log).current, raw, e, signature) && e.message.operation == "delete"
  {
    FoldSnoc(x, log, raw);
    StepBreaksOnDelete(x, Fold(x, log), raw);
    StepBreaksIff(x, Fold(x, log), raw);
    VouchedDelete(x, Fold(x, log).current, raw);
  }

  lemma VouchedDelete(x: Subject, key: Bytes, raw: string)
    ensures RequestOf(x, raw).Delete? && SignedBy(x.c, key, RequestOf(x, raw).envelope) <==>
      exists e, signature :: Vouched(x, key, raw, e, signature) && e.message.operation == "delete"
  {
    if RequestOf(x, raw).Delete? && SignedBy(x.c, key, RequestOf(x, raw).envelope) {
      var e := RequestOf(x, raw).envelope;
      assert Vouched(x, key, raw, e, x.c.decode64(e.signature).value);
    }
  }

  /** The messages of `full` marked in `keep`. */
  function Kept(full: seq<string>, keep: seq<bool>): seq<string>
    requires |full| == |keep|
  {
    if full == [] then []
    else
      var n := |full| - 1;
      Kept(full[..n], keep[..n]) + (if keep[n] then [full[n]] else [])
  }

  /** Each message left out would be skipped by the run over the kept messages before it. */
  ghost predicate RestIsSkipped(x: Subject, full: seq<string>, keep: seq<bool>)
    requires |full| == |keep|
  {
    forall i :: 0 <= i < |full| && !keep[i] ==>
      Step(x, Fold(x, Kept(full[..i], keep[..i])), full[i]).1 == Continue
  }

  /** Interleaving a log with messages that its own run would skip changes nothing. */
  lemma {:induction false} SkippedMessagesDoNotMatter(x: Subject, full: seq<string>, keep: seq<bool>)
    requires ValidKey(x.c, x.anchor)
    requires |full| == |keep| && RestIsSkipped(x, full, keep)
    ensures Fold(x, full) == Fold(x, Kept(full, keep))
    decreases |full|
  {
    if full != [] {
      var n := |full| - 1;
      var before := Kept(full[..n], keep[..n]);
      assert forall i :: 0 <= i < n ==> full[..n][..i] == full[..i] && keep[..n][..i] == keep[..i];
      SkippedMessagesDoNotMatter(x, full[..n], keep[..n]);
      if keep[n] {
        FoldSnoc(x, before, full[n]);
      } else {
        assert Kept(full, keep) == before;
        ContinueLeavesState(x, Fold(x, before), full[n]);
      }
    }
  }

  /** Each message left out is foreign under the key in force at that point of the original run. */
  ghost predicate RestIsForeign(x: Subject, full: seq<string>, keep: seq<bool>)
    requires |full| == |keep|
  {
    forall i :: 0 <= i < |full| && !keep[i] ==>
      Foreign(x, Fold(x, Kept(full[..i], keep[..i])).current, full[i])
  }

  /** Non-interference: whatever strangers append, anywhere, the resolution is the same. */
  lemma NonInterference(c: Codec, did: HederaDid, full: seq<string>, keep: seq<bool>)
    requires |full| == |keep|
    requires AnchorOf(c, did).Ok? ==> RestIsForeign(Subject(c, did.ToString(), AnchorOf(c, did).value), full, keep)
    ensures ResolveView(c, did, full) == ResolveView(c, did, Kept(full, keep))
  {
    if AnchorOf(c, did).Ok? {
      var x := Subject(c, did.ToString(), AnchorOf(c, did).value);
      forall i | 0 <= i < |full| && !keep[i]
        ensures Step(x, Fold(x, Kept(full[..i], keep[..i])), full[i]).1 == Continue
      {
        ForeignIsSkipped(x, Fold(x, Kept(full[..i], keep[..i])), full[i]);
      }
      SkippedMessagesDoNotMatter(x, full, keep);
    }
  }

  // ---------------------------------------------------------------- deactivation

  /** Position `i` holds a delete signed by the key in force there. */
  predicate DeletesAt(x: Subject, log: seq<string>, i: nat)
    requires i < |log|
  {
    RequestOf(x, log[i]).Delete? && SignedBy(x.c, Fold(x, log[..i]).current, RequestOf(x, log[i]).envelope)
  }

  /** The tombstone is set exactly when some delete verified. */
  lemma {:induction false} DeactivatedIff(x: Subject, log: seq<string>)
    ensures Fold(x, log).deactivated <==> exists i :: 0 <= i < |log| && DeletesAt(x, log, i)
    decreases |log|
  {
    if log != [] {
      var n := |log| - 1;
      var init := log[..n];
      DeactivatedIff(x, init);
      assert forall i :: 0 <= i < n ==> init[..i] == log[..i] && init[i] == log[i];
      assert forall i :: 0 <= i < n ==> DeletesAt(x, init, i) == DeletesAt(x, log, i);
      if !Fold(x, init).deactivated {
        StepBreaksOnDelete(x, Fold(x, init), log[n]);
        StepBreaksIff(x, Fold(x, init), log[n]);
        assert DeletesAt(x, log, n) <==> Fold(x, log).deactivated;
      } else {
        var i :| 0 <= i < n && DeletesAt(x, init, i);
        assert DeletesAt(x, log, i);
      }
    }
  }

  lemma StepBreaksIff(x: Subject, st: FoldState, raw: string)
    ensures Step(x, st, raw).1 == Break
      <==> RequestOf(x, raw).Delete? && SignedBy(x.c, st.current, RequestOf(x, raw).envelope)
  {
    match RequestOf(x, raw) {
      case Change(e, event) => EventNeverDeactivates(x, st, event, e.message.timestamp);
      case _ =>
    }
  }

  /** A verified delete fixes the resolution for every continuation of the log: an empty
      document if the DID had been established, and otherwise not found. */
  lemma TombstoneIsFinal(c: Codec, did: HederaDid, log: seq<string>, suffix: seq<string>)
    requires AnchorOf(c, did).Ok?
    requires Fold(Subject(c, did.ToString(), AnchorOf(c, did).value), log).deactivated
    ensures ResolveView(c, did, log + suffix) == ResolveView(c, did, log)
    ensures match ResolveView(c, did, log)
      case Err(e) => e == NotFound
      case Ok(v) => && v.deactivated && v.methods == map[] && v.services == map[]
                    && v.authentication == map[] && v.assertionMethod == map[] && v.keyAgreement == map[]
                    && v.capabilityInvocation == map[] && v.capabilityDelegation == map[]
  {
    DeactivationAbsorbs(Subject(c, did.ToString(), AnchorOf(c, did).value), log, suffix);
  }

  // ---------------------------------------------------------------- chain of custody

  /** The key an owner event for this DID claims, when it is usable as a key. */
  function Claim(x: Subject, raw: string): Option<Bytes> {
    match RequestOf(x, raw)
    case Change(_, Owner(o)) =>
      (match EffectiveKeyBytes(x.c, o)
       case Ok(key) => if o.id == x.did && ValidKey(x.c, key) then Some(key) else None
       case Err(_) => None)
    case _ => None
  }

  /** A parseable message for this DID whose signature verifies under `key`. */
  predicate SignedUnder(x: Subject, key: Bytes, raw: string) {
    match ParseEnvelope(x.c, raw)
    case Some(e) => e.message.did == x.did && SignedBy(x.c, key, e)
    case None => false
  }

  /** `chain` lists positions of owner messages, each signed under the key claimed by the
      one before (the first under the anchor, which it also claims); `key` is the last claim. */
  ghost predicate Custody(x: Subject, log: seq<string>, chain: seq<nat>, key: Bytes)
    decreases |chain|
  {
    if chain == [] then key == x.anchor
    else
      var last := chain[|chain| - 1];
      && last < |log| && Claim(x, log[last]) == Some(key)
      && (|chain| == 1 ==> key == x.anchor)
      && (|chain| > 1 ==> chain[|chain| - 2] < last)
      && exists before: Bytes :: SignedUnder(x, before, log[last]) && Custody(x, log, chain[..|chain| - 1], before)
  }

  lemma {:induction false} CustodyOfLongerLog(x: Subject, log: seq<string>, raw: string, chain: seq<nat>, key: Bytes)
    requires Custody(x, log, chain, key)
    ensures Custody(x, log + [raw], chain, key)
    decreases |chain|
  {
    if chain != [] {
      var last := chain[|chain| - 1];
      var before: Bytes :| SignedUnder(x, before, log[last]) && Custody(x, log, chain[..|chain| - 1], before);
      CustodyOfLongerLog(x, log, raw, chain[..|chain| - 1], before);
      assert (log + [raw])[last] == log[last];
    }
  }

  lemma {:induction false} CustodyPositions(x: Subject, log: seq<string>, chain: seq<nat>, key: Bytes)
    requires Custody(x, log, chain, key)
    ensures forall i :: 0 <= i < |chain| ==> chain[i] < |log|
    decreases |chain|
  {
    if chain != [] {
      var last := chain[|chain| - 1];
      var before: Bytes :| SignedUnder(x, before, log[last]) && Custody(x, log, chain[..|chain| - 1], before);
      CustodyPositions(x, log, chain[..|chain| - 1], before);
      assert forall i :: 0 <= i < |chain| - 1 ==> chain[i] == chain[..|chain| - 1][i];
    }
  }

  /** Only owner events touch the key, the flags and the metadata. */
  lemma OnlyOwnersTouchScalars(x: Subject, st: FoldState, e: DidEvent, timestamp: string)
    requires !e.Owner?
    ensures SameScalars(StepEvent(x, st, e, timestamp).0, st) && StepEvent(x, st, e, timestamp).1 == EndOfBody
  {
  }

  /** An owner event is either skipped or moves control to the key it claims. */
  lemma OwnerMovesKey(x: Subject, st: FoldState, o: OwnerData, timestamp: string)
    requires ValidKey(x.c, x.anchor)
    ensures StepOwner(x, st, o, timestamp).1 == Continue ==> StepOwner(x, st, o, timestamp).0 == st
    ensures StepOwner(x, st, o, timestamp).1 == EndOfBody ==>
      && StepOwner(x, st, o, timestamp).0.established
      && o.id == x.did && ValidKey(x.c, StepOwner(x, st, o, timestamp).0.current)
      && EffectiveKeyBytes(x.c, o) == Ok(StepOwner(x, st, o, timestamp).0.current)
      && (!st.established ==> StepOwner(x, st, o, timestamp).0.current == x.anchor)
  {
    if EffectiveKeyBytes(x.c, o).Ok? { SpellingExists(x.c, o); }
  }

  /** The key stays, or the message was signed by it and claims the new one. */
  predicate KeyStepIsSigned(x: Subject, st: FoldState, raw: string, st': FoldState) {
    || (st'.current == st.current && st'.established == st.established)
    || (&& st'.established && Claim(x, raw) == Some(st'.current) && SignedUnder(x, st.current, raw)
        && (!st.established ==> st'.current == x.anchor))
  }

  lemma RequestNamesDid(x: Subject, raw: string)
    ensures RequestOf(x, raw).Change? ==>
      ParseEnvelope(x.c, raw) == Some(RequestOf(x, raw).envelope) && RequestOf(x, raw).envelope.message.did == x.did
  {
  }

  lemma ChangeAndKey(x: Subject, st: FoldState, raw: string, e: HcsEnvelope, event: DidEvent)
    requires ValidKey(x.c, x.anchor)
    requires RequestOf(x, raw) == Change(e, event) && SignedBy(x.c, st.current, e)
    ensures KeyStepIsSigned(x, st, raw, StepEvent(x, st, event, e.message.timestamp).0)
  {
    if event.Owner? {
      OwnerMovesKey(x, st, event.owner, e.message.timestamp);
      RequestNamesDid(x, raw);
      EventNeverDeactivates(x, st, event, e.message.timestamp);
    } else {
      OnlyOwnersTouchScalars(x, st, event, e.message.timestamp);
    }
  }

  /** What a step does to the key in force. */
  lemma StepAndKey(x: Subject, st: FoldState, raw: string)
    requires ValidKey(x.c, x.anchor)
    ensures KeyStepIsSigned(x, st, raw, Next(x, st, raw))
  {
    var request := RequestOf(x, raw);
    if request.Change? && SignedBy(x.c, st.current, request.envelope) {
      ChangeAndKey(x, st, raw, request.envelope, request.event);
    }
  }

  /** Every reachable key has a chain of custody back to the key in the DID, and the chain
      is empty exactly while the DID is not established. */
  lemma {:induction false} ChainOfCustody(x: Subject, log: seq<string>) returns (chain: seq<nat>)
    requires ValidKey(x.c, x.anchor)
    ensures Custody(x, log, chain, Fold(x, log).current)
    ensures chain == [] <==> !Fold(x, log).established
    decreases |log|
  {
    if log == [] {
      chain := [];
    } else {
      var init := log[..|log| - 1];
      chain := ChainOfCustody(x, init);
      assert init + [log[|log| - 1]] == log;
      StepAndKey(x, Fold(x, init), log[|log| - 1]);
      chain := CustodySnoc(x, init, log[|log| - 1], chain, Fold(x, init), Fold(x, log));
    }
  }

  lemma CustodySnoc(x: Subject, init: seq<string>, raw: string, before: seq<nat>, st: FoldState, st': FoldState)
    returns (chain: seq<nat>)
    requires Custody(x, init, before, st.current) && (before == [] <==> !st.established)
    requires KeyStepIsSigned(x, st, raw, st')
    ensures Custody(x, init + [raw], chain, st'.current) && (chain == [] <==> !st'.established)
  {
    CustodyPositions(x, init, before, st.current);
    CustodyOfLongerLog(x, init, raw, before, st.current);
    if st'.current == st.current && st'.established == st.established {
      chain := before;
    } else {
      ExtendCustody(x, init + [raw], before, st.current, |init|, st'.current);
      chain := before + [|init|];
    }
  }

  lemma ExtendCustody(x: Subject, log: seq<string>, chain: seq<nat>, before: Bytes, n: nat, key: Bytes)
    requires Custody(x, log, chain, before) && n < |log|
    requires forall i :: 0 <= i < |chain| ==> chain[i] < n
    requires Claim(x, log[n]) == Some(key) && SignedUnder(x, before, log[n])
    requires chain == [] ==> key == x.anchor
    ensures Custody(x, log, chain + [n], key)
  {
    assert (chain + [n])[..|chain|] == chain;
  }
}
