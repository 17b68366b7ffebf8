/**
 Waiting for a mirror node to settle: `wait_for_mirror_stable` (`resolver/src/mirror.rs`) run by
 `poll_until` (`utils/src/polling.rs`). Times are nanoseconds of a clock that only moves forward.
 */
module Polling {
  import opened Wrappers

  const POLL_INTERVAL_MS: nat := 300
  const NANOS_PER_MS: nat := 1_000_000
  const U64_LIMIT: nat := 0x1_0000_0000_0000_0000

  type Replies = nat -> Result<seq<string>, DidError>

  /** `since.elapsed().as_millis() as u64`; an `Instant` in the future has not elapsed. */
  function ElapsedMs(since: int, now: int): nat {
    if now < since then 0 else ((now - since) / NANOS_PER_MS) % U64_LIMIT
  }

  /** The window has passed when that many milliseconds have, as long as the time since fits in 64 bits of
      milliseconds; after exactly that long the count starts again from nothing. */
  lemma ElapsedIff(since: int, now: int, windowMs: nat)
    ensures 0 <= now - since < 0x1_0000_0000_0000_0000 * 1_000_000 ==>
      (ElapsedMs(since, now) >= windowMs <==> now - since >= windowMs * 1_000_000)
    ensures now < since ==> ElapsedMs(since, now) == 0
    ensures ElapsedMs(since, since + 0x1_0000_0000_0000_0000 * 1_000_000) == 0
  {
  }

  /** What the polling closure keeps between polls. */
  datatype PollState = PollState(lastCount: nat, stableSince: Option<int>)

  /** One poll that got `count` messages at `now`; the flag says that the window has passed. */
  function Poll(st: PollState, count: nat, now: int, windowMs: nat): (PollState, bool) {
    if count != st.lastCount then (PollState(count, Some(now)), false)
    else if st.stableSince.None? then (st.(stableSince := Some(now)), false)
    else (st, ElapsedMs(st.stableSince.value, now) >= windowMs)
  }

  function CountOf(r: Result<seq<string>, DidError>): nat {
    if r.Ok? then |r.value| else 0
  }

  /** The state before poll `k`. */
  function StateBefore(replies: Replies, seen: nat -> int, k: nat): PollState {
    if k == 0 then PollState(0, None)
    else Poll(StateBefore(replies, seen, k - 1), CountOf(replies(k - 1)), seen(k - 1), 0).0
  }

  /** From poll `j` to poll `k` every poll saw the same number of messages, over the whole window. */
  ghost predicate SteadyFrom(replies: Replies, seen: nat -> int, windowMs: nat, j: nat, k: nat) {
    && j < k && ElapsedMs(seen(j), seen(k)) >= windowMs
    && forall i :: j <= i <= k ==> CountOf(replies(i)) == CountOf(replies(k))
  }

  ghost predicate Steady(replies: Replies, seen: nat -> int, windowMs: nat, k: nat) {
    exists j :: SteadyFrom(replies, seen, windowMs, j, k)
  }

  /** The state remembers the beginning of the current run of equal counts. */
  lemma {:induction false} RunOfEqualCounts(replies: Replies, seen: nat -> int, k: nat) returns (j: nat)
    requires k > 0
    ensures j < k && StateBefore(replies, seen, k).stableSince == Some(seen(j))
    ensures forall i :: j <= i < k ==> CountOf(replies(i)) == StateBefore(replies, seen, k).lastCount
    ensures j > 0 ==> CountOf(replies(j - 1)) != StateBefore(replies, seen, k).lastCount
    decreases k
  {
    if k == 1 {
      j := 0;
      assert StateBefore(replies, seen, 0) == PollState(0, None);
    } else {
      j := RunOfEqualCounts(replies, seen, k - 1);
      if CountOf(replies(k - 1)) != StateBefore(replies, seen, k - 1).lastCount {
        j := k - 1;
        assert CountOf(replies(k - 2)) == StateBefore(replies, seen, k - 1).lastCount;
      }
    }
  }

  /** The clock never runs backwards, and the whole wait fits in 64 bits of milliseconds. */
  ghost predicate Forward(seen: nat -> int) {
    && (forall i: nat, j: nat :: i <= j ==> seen(i) <= seen(j))
    && (forall k: nat :: (seen(k) - seen(0)) / NANOS_PER_MS < U64_LIMIT)
  }

  lemma EarlierElapsedMore(seen: nat -> int, i: nat, j: nat, k: nat)
    requires Forward(seen) && i <= j <= k
    ensures ElapsedMs(seen(i), seen(k)) >= ElapsedMs(seen(j), seen(k))
  {
    assert seen(0) <= seen(i) <= seen(j) <= seen(k);
    assert (seen(k) - seen(i)) / NANOS_PER_MS <= (seen(k) - seen(0)) / NANOS_PER_MS < U64_LIMIT;
  }

  /** A poll reports stability exactly when it closes a steady stretch of polls. */
  lemma StableIffSteady(replies: Replies, seen: nat -> int, windowMs: nat, k: nat)
    requires Forward(seen)
    ensures Poll(StateBefore(replies, seen, k), CountOf(replies(k)), seen(k), windowMs).1
      <==> Steady(replies, seen, windowMs, k)
  {
    if k > 0 {
      var j := RunOfEqualCounts(replies, seen, k);
      if Poll(StateBefore(replies, seen, k), CountOf(replies(k)), seen(k), windowMs).1 {
        assert SteadyFrom(replies, seen, windowMs, j, k);
      }
      if i :| SteadyFrom(replies, seen, windowMs, i, k) {
        RunStartsBefore(replies, seen, windowMs, j, i, k);
        EarlierElapsedMore(seen, j, i, k);
      }
    }
  }

  lemma RunStartsBefore(replies: Replies, seen: nat -> int, windowMs: nat, j: nat, i: nat, k: nat)
    requires SteadyFrom(replies, seen, windowMs, i, k) && j < k
    requires forall n :: j <= n < k ==> CountOf(replies(n)) == StateBefore(replies, seen, k).lastCount
    requires j > 0 ==> CountOf(replies(j - 1)) != StateBefore(replies, seen, k).lastCount
    ensures j <= i && CountOf(replies(k)) == StateBefore(replies, seen, k).lastCount
  {
    assert CountOf(replies(k - 1)) == StateBefore(replies, seen, k).lastCount;
    assert CountOf(replies(k - 1)) == CountOf(replies(k));
  }

  /** On an append-only topic equal counts mean equal messages. */
  lemma {:induction false} SteadyMeansSameMessages(replies: Replies, seen: nat -> int, windowMs: nat, j: nat, k: nat,
                                                   i: nat)
    requires SteadyFrom(replies, seen, windowMs, j, k) && j <= i <= k
    requires forall n :: j <= n <= k ==> replies(n).Ok?
    requires forall n :: j <= n < k ==> replies(n).value <= replies(n + 1).value
    ensures replies(i).value == replies(k).value
    decreases k - i
  {
    if i < k {
      SteadyMeansSameMessages(replies, seen, windowMs, j, k, i + 1);
      assert CountOf(replies(i)) == CountOf(replies(i + 1));
    }
  }

  /** Each sleep moves the clock on by the polling interval at least. */
  ghost predicate SleepsAdvance(start: int, checked: nat -> int) {
    start <= checked(0) && forall k: nat :: checked(k) + POLL_INTERVAL_MS * NANOS_PER_MS <= checked(k + 1)
  }

  lemma {:induction false} ClockAfter(start: int, checked: nat -> int, k: nat)
    requires SleepsAdvance(start, checked)
    ensures start + k * (POLL_INTERVAL_MS * NANOS_PER_MS) <= checked(k)
  {
    if k > 0 { ClockAfter(start, checked, k - 1); }
  }

  function Deadline(start: int, timeoutSecs: nat): int {
    start + timeoutSecs * 1000 * NANOS_PER_MS
  }

  /** The most polls a timeout leaves room for: its length in intervals, rounded up, and one more. */
  function MostPolls(timeoutSecs: nat): nat {
    (timeoutSecs * 1000 + POLL_INTERVAL_MS - 1) / POLL_INTERVAL_MS + 1
  }

  lemma DeadlinePasses(start: int, checked: nat -> int, timeoutSecs: nat, k: nat)
    requires SleepsAdvance(start, checked) && checked(k) < Deadline(start, timeoutSecs)
    ensures k + 1 < MostPolls(timeoutSecs)
  {
    ClockAfter(start, checked, k);
  }

  /** The closure's two variables, shared between polls. */
  class MirrorWatch {
    var lastCount: nat
    var stableSince: Option<int>

    constructor ()
      ensures Snapshot() == PollState(0, None)
    {
      lastCount, stableSince := 0, None;
    }

    function Snapshot(): PollState
      reads this
    {
      PollState(lastCount, stableSince)
    }

    /** One call of the closure. */
    method Check(reply: Result<seq<string>, DidError>, now: int, windowMs: nat)
      returns (r: Option<Result<seq<string>, DidError>>)
      modifies this
      ensures reply.Err? ==> r == Some(reply)
      ensures reply.Ok? ==>
        && Snapshot() == Poll(old(Snapshot()), |reply.value|, now, windowMs).0
        && r == if Poll(old(Snapshot()), |reply.value|, now, windowMs).1 then Some(reply) else None
    {
      if reply.Err? {
        return Some(reply);
      }
      var messages := reply.value;
      if |messages| != lastCount {
        lastCount, stableSince := |messages|, Some(now);
      } else if stableSince.Some? {
        if ElapsedMs(stableSince.value, now) >= windowMs {
          return Some(Ok(messages));
        }
      } else {
        stableSince := Some(now);
      }
      return None;
    }
  }

  /** `wait_for_mirror_stable` inside the loop of `poll_until`. Poll `k` reads the clock as `seen(k)`
      and the deadline check after it as `checked(k)`; `polls` counts the polls made. */
  method WaitForMirrorStable(replies: Replies, windowMs: nat, timeoutSecs: nat, start: int, seen: nat -> int,
                             checked: nat -> int)
    returns (r: Result<seq<string>, DidError>, polls: nat)
    requires Forward(seen) && SleepsAdvance(start, checked)
    ensures 0 < polls <= MostPolls(timeoutSecs)
    ensures forall k :: 0 <= k < polls - 1 ==>
      replies(k).Ok? && !Steady(replies, seen, windowMs, k) && checked(k) < start + timeoutSecs * 1_000_000_000
    ensures r.Ok? <==> replies(polls - 1).Ok? && Steady(replies, seen, windowMs, polls - 1)
    ensures r.Ok? ==> r == replies(polls - 1)
    ensures r.Err? ==>
      || r == replies(polls - 1)
      || (r.error == InternalError && start + timeoutSecs * 1_000_000_000 <= checked(polls - 1))
  {
    var watch := new MirrorWatch();
    polls := 0;
    while true
      invariant forall k :: 0 <= k < polls ==>
        replies(k).Ok? && !Steady(replies, seen, windowMs, k) && checked(k) < Deadline(start, timeoutSecs)
      invariant watch.Snapshot() == StateBefore(replies, seen, polls)
      invariant polls < MostPolls(timeoutSecs)
      decreases MostPolls(timeoutSecs) - polls
    {
      StableIffSteady(replies, seen, windowMs, polls);
      var answer := watch.Check(replies(polls), seen(polls), windowMs);
      polls := polls + 1;
      if answer.Some? {
        return answer.value, polls;
      }
      if checked(polls - 1) >= Deadline(start, timeoutSecs) {
        return Err(InternalError), polls;
      }
      DeadlinePasses(start, checked, timeoutSecs, polls - 1);
    }
  }
}
