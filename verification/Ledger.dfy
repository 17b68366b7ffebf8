/** An append-only topic and what a writer learns from submitting to it. */
module Ledger {
  import opened Wrappers

  /** How one submission ends. When the receipt is lost the message may have landed or not. */
  datatype SubmitOutcome = Acknowledged | ReceiptLost(landed: bool) | NotSent {
    predicate Lands() {
      Acknowledged? || (ReceiptLost? && landed)
    }
  }

  class Topic<T> {
    var log: seq<T>

    constructor ()
      ensures log == []
    {
      log := [];
    }

    /** `HcsTopic::submit`, with the network's behaviour as a parameter. */
    method Submit(message: T, outcome: SubmitOutcome) returns (r: Result<nat, DidError>)
      modifies this
      ensures log == old(log) + (if outcome.Lands() then [message] else [])
      ensures outcome.Lands() <==> outcome == Acknowledged || outcome == ReceiptLost(true)
      ensures r == if outcome.Acknowledged? then Ok(|log|) else Err(InternalError)
    {
      if outcome.Lands() {
        log := log + [message];
      }
      return if outcome.Acknowledged? then Ok(|log|) else Err(InternalError);
    }
  }

  /** What lands of a list submitted in order, stopping at the first failure, and how many
      submissions were acknowledged. Submission `k` ends as `outcomes(k)`. */
  function SubmitAll<T>(items: seq<T>, outcomes: nat -> SubmitOutcome, first: nat): (seq<T>, nat) {
    if items == [] then ([], 0)
    else if outcomes(first).Acknowledged? then
      var (landed, acknowledged) := SubmitAll(items[1..], outcomes, first + 1);
      ([items[0]] + landed, acknowledged + 1)
    else (if outcomes(first).Lands() then [items[0]] else [], 0)
  }

  /** What lands is a prefix, at most one longer than what was acknowledged; an acknowledged
      batch landed whole. */
  lemma {:induction false} LandedIsPrefix<T>(items: seq<T>, outcomes: nat -> SubmitOutcome, first: nat)
    ensures var (landed, acknowledged) := SubmitAll(items, outcomes, first);
      && landed <= items
      && acknowledged <= |landed| <= acknowledged + 1
      && (acknowledged == |items| <==> forall k :: first <= k < first + |items| ==> outcomes(k).Acknowledged?)
    decreases |items|
  {
    if items != [] {
      LandedIsPrefix(items[1..], outcomes, first + 1);
      assert items == [items[0]] + items[1..];
    }
  }

  /** The acknowledged ones are the first, and the next was not. */
  lemma {:induction false} AcknowledgedAre<T>(items: seq<T>, outcomes: nat -> SubmitOutcome, first: nat)
    ensures var k := SubmitAll(items, outcomes, first).1;
      && k <= |items| && (forall j :: first <= j < first + k ==> outcomes(j).Acknowledged?)
      && (k < |items| ==> !outcomes(first + k).Acknowledged?)
    decreases |items|
  {
    if items != [] && outcomes(first).Acknowledged? { AcknowledgedAre(items[1..], outcomes, first + 1); }
  }

  /** One more submission after an acknowledged beginning. */
  lemma {:induction false} SubmitSnoc<T>(items: seq<T>, item: T, outcomes: nat -> SubmitOutcome, first: nat)
    requires SubmitAll(items, outcomes, first) == (items, |items|)
    ensures SubmitAll(items + [item], outcomes, first)
      == (items + (if outcomes(first + |items|).Lands() then [item] else []),
          |items| + (if outcomes(first + |items|).Acknowledged? then 1 else 0))
    decreases |items|
  {
    var all := items + [item];
    if items == [] {
      assert all[1..] == [] && all[0] == item;
      assert SubmitAll(all[1..], outcomes, first + 1) == ([], 0);
      var none: seq<T> := [];
      assert [item] + none == items + [item] && items + none == none;
      assert all == [item] && SubmitAll(all[1..], outcomes, first + 1).0 == none;
    } else {
      assert all[1..] == items[1..] + [item] && all[0] == items[0];
      LandedIsPrefix(items[1..], outcomes, first + 1);
      assert SubmitAll(items[1..], outcomes, first + 1) == (items[1..], |items[1..]|);
      SubmitSnoc(items[1..], item, outcomes, first + 1);
      var extra := if outcomes(first + |items|).Lands() then [item] else [];
      assert [items[0]] + (items[1..] + extra) == items + extra;
    }
  }

  /** Once a submission has failed, what was to follow it does not matter. */
  lemma {:induction false} FailureStops<T>(items: seq<T>, rest: seq<T>, outcomes: nat -> SubmitOutcome, first: nat)
    requires SubmitAll(items, outcomes, first).1 < |items|
    ensures SubmitAll(items + rest, outcomes, first) == SubmitAll(items, outcomes, first)
    decreases |items|
  {
    if outcomes(first).Acknowledged? {
      assert (items + rest)[1..] == items[1..] + rest;
      FailureStops(items[1..], rest, outcomes, first + 1);
    }
  }

  /** The first submission that is not acknowledged ends the list. */
  lemma StopAfter<T>(items: seq<T>, item: T, rest: seq<T>, outcomes: nat -> SubmitOutcome)
    requires SubmitAll(items, outcomes, 0) == (items, |items|) && !outcomes(|items|).Acknowledged?
    ensures SubmitAll(items + [item] + rest, outcomes, 0)
      == (items + (if outcomes(|items|).Lands() then [item] else []), |items|)
  {
    SubmitSnoc(items, item, outcomes, 0);
    FailureStops(items + [item], rest, outcomes, 0);
  }

  lemma AcknowledgedSnoc<T>(items: seq<T>, item: T, outcomes: nat -> SubmitOutcome)
    requires SubmitAll(items, outcomes, 0) == (items, |items|) && outcomes(|items|).Acknowledged?
    ensures SubmitAll(items + [item], outcomes, 0) == (items + [item], |items| + 1)
  {
    SubmitSnoc(items, item, outcomes, 0);
  }

  // ---------------------------------------------------------------- attempts that may fail before submission

  /** Items prepared and submitted in order, up to the first that cannot be prepared or is not
      acknowledged: what lands, how many were acknowledged, and the error that ended it. */
  function SubmitEach<T>(attempts: seq<Result<T, DidError>>, outcomes: nat -> SubmitOutcome)
    : (seq<T>, nat, Option<DidError>)
  {
    if attempts == [] then ([], 0, None)
    else
      var n := |attempts| - 1;
      var (landed, acknowledged, error) := SubmitEach(attempts[..n], outcomes);
      if error.Some? then (landed, acknowledged, error)
      else
        match attempts[n]
        case Err(e) => (landed, acknowledged, Some(e))
        case Ok(item) =>
          if outcomes(n).Acknowledged? then (landed + [item], acknowledged + 1, None)
          else (landed + (if outcomes(n).Lands() then [item] else []), acknowledged, Some(InternalError))
  }

  /** The landed items are the first attempts, in order and at most one more than were
      acknowledged; there is no error exactly when all were acknowledged. */
  lemma {:induction false} EachLandsInOrder<T>(attempts: seq<Result<T, DidError>>, outcomes: nat -> SubmitOutcome)
    ensures var (landed, acknowledged, error) := SubmitEach(attempts, outcomes);
      && acknowledged <= |landed| <= acknowledged + 1 && |landed| <= |attempts|
      && (forall k :: 0 <= k < |landed| ==> attempts[k] == Ok(landed[k]))
      && (error.None? <==> acknowledged == |attempts|)
      && (error.None? ==> |landed| == |attempts|)
    decreases |attempts|
  {
    if attempts != [] {
      EachLandsInOrder(attempts[..|attempts| - 1], outcomes);
    }
  }

  /** Attempts that can all be submitted land in full when all are acknowledged. */
  lemma {:induction false} AllAcknowledged<T>(attempts: seq<Result<T, DidError>>, outcomes: nat -> SubmitOutcome)
    requires forall k :: 0 <= k < |attempts| ==> attempts[k].Ok? && outcomes(k).Acknowledged?
    ensures var (landed, acknowledged, error) := SubmitEach(attempts, outcomes);
      error.None? && |landed| == |attempts| == acknowledged
    decreases |attempts|
  {
    if attempts != [] {
      AllAcknowledged(attempts[..|attempts| - 1], outcomes);
    }
  }

  /** After an error the rest does not matter. */
  lemma {:induction false} ErrorEnds<T>(attempts: seq<Result<T, DidError>>, outcomes: nat -> SubmitOutcome, i: nat)
    requires i <= |attempts| && SubmitEach(attempts[..i], outcomes).2.Some?
    ensures SubmitEach(attempts, outcomes) == SubmitEach(attempts[..i], outcomes)
    decreases |attempts|
  {
    if i == |attempts| {
      assert attempts[..i] == attempts;
    } else {
      var n := |attempts| - 1;
      assert attempts[..n][..i] == attempts[..i];
      ErrorEnds(attempts[..n], outcomes, i);
    }
  }
}
