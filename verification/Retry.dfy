/**
  Retrying an operation with two interleaved backoff ladders (crates/catalyrst-conformance/src/retry.rs,
  `retry_with_backoff`). Durations are whole milliseconds; `replies[i]` is what call `i` would answer.
 */
module Retry {
  import opened Wrappers
  import Bits

  const RATE_LIMIT_ATTEMPTS := 5
  const RATE_LIMIT_BASE_MS := 2000
  const MAX_SLEEP_MS := 30_000
  const U64_MAX := 0xFFFF_FFFF_FFFF_FFFF

  datatype Reply<T> =
    | Done(value: T)
    | Again(after: Option<nat>, rateLimited: bool)
    | Broken

  datatype Outcome<T> = Succeeded(value: T) | GaveUp | Error

  datatype Wait = Wait(ms: nat, rateLimited: bool)

  function Max(a: nat, b: nat): nat { if a < b then b else a }

  function Min(a: nat, b: nat): nat { if a < b then a else b }

  /** The `k`-th rung of a ladder that starts at `base` and doubles. */
  function Rung(base: nat, k: nat): nat {
    if k == 0 then base else 2 * Rung(base, k - 1)
  }

  /** How many of the first `n` replies asked to retry, of the given kind. */
  function CountKind<T>(replies: seq<Reply<T>>, n: nat, rateLimited: bool): nat
    requires n <= |replies|
  {
    if n == 0 then 0 else
      CountKind(replies, n - 1, rateLimited)
      + if replies[n - 1].Again? && replies[n - 1].rateLimited == rateLimited then 1 else 0
  }

  /** The hint if there is one, else the rung, at most 30 s. */
  function Waited(after: Option<nat>, rung: nat): nat {
    Min(if after.Some? then after.value else rung, MAX_SLEEP_MS)
  }

  /** The wait after reply `i`: the hint if there is one, else the rung its own kind has reached, at most 30 s. */
  function WaitAfter<T>(replies: seq<Reply<T>>, baseMs: nat, i: nat): Wait
    requires i < |replies| && replies[i].Again?
  {
    var r := replies[i];
    var base := if r.rateLimited then RATE_LIMIT_BASE_MS else baseMs;
    var rung := Rung(base, CountKind(replies, i, r.rateLimited));
    Wait(Waited(r.after, rung), r.rateLimited)
  }

  predicate IsWait<T>(replies: seq<Reply<T>>, baseMs: nat, i: nat, wait: Wait) {
    i < |replies| && replies[i].Again? && wait == WaitAfter(replies, baseMs, i)
  }

  /** Reply `i` (from 0) is the last one asked for. */
  predicate StopsAt<T>(replies: seq<Reply<T>>, attempts: nat, i: nat)
    requires i < |replies|
  {
    match replies[i]
    case Again(_, rateLimited) =>
      (!rateLimited && CountKind(replies, i + 1, false) >= attempts) || i + 1 == Max(attempts, RATE_LIMIT_ATTEMPTS)
    case _ => true
  }

  function SaturatingDouble(x: nat): nat {
    Min(2 * x, U64_MAX)
  }

  /** The loop's counters after `n` replies that asked to retry. */
  predicate OnRungs<T>(replies: seq<Reply<T>>, baseMs: nat, n: nat, plain: nat, backoffMs: nat, rlBackoffMs: nat)
    requires n <= |replies|
  {
    && plain == CountKind(replies, n, false)
    && backoffMs == Min(Rung(baseMs, CountKind(replies, n, false)), U64_MAX)
    && rlBackoffMs == Min(Rung(RATE_LIMIT_BASE_MS, CountKind(replies, n, true)), U64_MAX)
  }

  /** A saturated ladder gives the same waits, and only the ladder of the reply's kind climbs. */
  lemma NextRung<T>(replies: seq<Reply<T>>, baseMs: nat, n: nat, plain: nat, backoffMs: nat, rlBackoffMs: nat)
    requires n < |replies| && replies[n].Again? && OnRungs(replies, baseMs, n, plain, backoffMs, rlBackoffMs)
    ensures var r := replies[n];
      if r.rateLimited then
        && OnRungs(replies, baseMs, n + 1, plain, backoffMs, SaturatingDouble(rlBackoffMs))
        && WaitAfter(replies, baseMs, n) == Wait(Waited(r.after, rlBackoffMs), true)
      else
        && OnRungs(replies, baseMs, n + 1, plain + 1, SaturatingDouble(backoffMs), rlBackoffMs)
        && WaitAfter(replies, baseMs, n) == Wait(Waited(r.after, backoffMs), false)
  {
  }

  /** The wait after a reply that asked to retry, and the ladders from then on. */
  method Climb<T>(ghost replies: seq<Reply<T>>, ghost baseMs: nat, ghost n: nat, ghost plain: nat,
                  after: Option<nat>, rateLimited: bool, backoffMs: nat, rlBackoffMs: nat)
    returns (wait: nat, nextBackoffMs: nat, nextRlBackoffMs: nat)
    requires n < |replies| && replies[n] == Again(after, rateLimited)
    requires plain == CountKind(replies, n + 1, false)
    requires OnRungs(replies, baseMs, n, CountKind(replies, n, false), backoffMs, rlBackoffMs)
    ensures Wait(wait, rateLimited) == WaitAfter(replies, baseMs, n)
    ensures OnRungs(replies, baseMs, n + 1, plain, nextBackoffMs, nextRlBackoffMs)
  {
    NextRung(replies, baseMs, n, CountKind(replies, n, false), backoffMs, rlBackoffMs);
    nextBackoffMs, nextRlBackoffMs := backoffMs, rlBackoffMs;
    var ladder;
    if rateLimited {
      ladder := rlBackoffMs;
      nextRlBackoffMs := SaturatingDouble(rlBackoffMs);
    } else {
      ladder := backoffMs;
      nextBackoffMs := SaturatingDouble(backoffMs);
    }
    wait := Min(if after.Some? then after.value else ladder, MAX_SLEEP_MS);
  }

  method RetryWithBackoff<T>(attempts: nat, baseMs: nat, replies: seq<Reply<T>>)
    returns (outcome: Outcome<T>, calls: nat, waits: seq<Wait>)
    requires baseMs <= U64_MAX && |replies| >= Max(attempts, RATE_LIMIT_ATTEMPTS)
    ensures 1 <= calls <= Max(attempts, RATE_LIMIT_ATTEMPTS)
    ensures StopsAt(replies, attempts, calls - 1)
    ensures forall i {:trigger StopsAt(replies, attempts, i)} | 0 <= i < calls - 1 :: !StopsAt(replies, attempts, i)
    ensures match replies[calls - 1]
            case Done(v) => outcome == Succeeded(v)
            case Again(_, _) => outcome == GaveUp
            case Broken => outcome == Error
    ensures |waits| == calls - 1
    ensures forall i | 0 <= i < |waits| :: IsWait(replies, baseMs, i, waits[i])
  {
    var maxAttempts := Max(attempts, RATE_LIMIT_ATTEMPTS);
    var backoffMs := baseMs;
    var rlBackoffMs: nat := RATE_LIMIT_BASE_MS;
    var plainFailures: nat := 0;
    outcome, calls, waits := GaveUp, 0, [];
    for attempt := 1 to maxAttempts + 1
      invariant calls == attempt - 1 == |waits|
      invariant forall i {:trigger StopsAt(replies, attempts, i)} | 0 <= i < calls :: !StopsAt(replies, attempts, i)
      invariant forall i | 0 <= i < |waits| :: IsWait(replies, baseMs, i, waits[i])
      invariant OnRungs(replies, baseMs, calls, plainFailures, backoffMs, rlBackoffMs)
      invariant calls == maxAttempts ==> StopsAt(replies, attempts, calls - 1)
    {
      var reply := replies[calls];
      calls := calls + 1;
      match reply {
        case Done(v) => return Succeeded(v), calls, waits;
        case Broken => return Error, calls, waits;
        case Again(after, rateLimited) =>
          if !rateLimited {
            plainFailures := plainFailures + 1;
            if plainFailures >= attempts {
              return GaveUp, calls, waits;
            }
          }
          if attempt == maxAttempts {
            return GaveUp, calls, waits;
          }
          var wait;
          wait, backoffMs, rlBackoffMs :=
            Climb(replies, baseMs, attempt - 1, plainFailures, after, rateLimited, backoffMs, rlBackoffMs);
          waits := waits + [Wait(wait, rateLimited)];
      }
    }
    assert false;
  }

  /** The unhinted `k`-th wait of a kind, however the kinds interleave, is min(base * 2^k, 30 s). */
  lemma {:induction false} RungIsPower(base: nat, k: nat)
    ensures Rung(base, k) == base * Bits.Pow2(k)
  {
    if k > 0 {
      RungIsPower(base, k - 1);
      assert base * Bits.Pow2(k) == 2 * (base * Bits.Pow2(k - 1));
    }
  }

  lemma {:induction false} CountsAddUp<T>(replies: seq<Reply<T>>, n: nat)
    requires n <= |replies| && forall i | 0 <= i < n :: replies[i].Again?
    ensures CountKind(replies, n, false) + CountKind(replies, n, true) == n
  {
    if n > 0 {
      CountsAddUp(replies, n - 1);
    }
  }

  lemma {:induction false} PlainBelow<T>(replies: seq<Reply<T>>, attempts: nat, n: nat)
    requires n <= |replies| && forall i | 0 <= i < n :: replies[i].Again? && !StopsAt(replies, attempts, i)
    ensures CountKind(replies, n, false) == 0 || CountKind(replies, n, false) < attempts
  {
    if n > 0 {
      PlainBelow(replies, attempts, n - 1);
      assert !StopsAt(replies, attempts, n - 1);
    }
  }

  lemma {:induction false} CountGrows<T>(replies: seq<Reply<T>>, m: nat, n: nat)
    requires m <= n <= |replies|
    ensures CountKind(replies, m, false) <= CountKind(replies, n, false)
  {
    if m < n {
      CountGrows(replies, m, n - 1);
    }
  }

  /**
    While every reply asks to retry, a next call follows exactly if fewer than max(attempts, 5) were made and no
    plain failure used up the caller's attempts.
   */
  lemma {:induction false} GoesOnIff<T>(replies: seq<Reply<T>>, attempts: nat, n: nat)
    requires n <= |replies| && forall i | 0 <= i < n :: replies[i].Again?
    ensures (forall i | 0 <= i < n :: !StopsAt(replies, attempts, i)) <==>
            && (n < attempts || n < 5)
            && (CountKind(replies, n, false) == 0 || CountKind(replies, n, false) < attempts)
  {
    if n > 0 {
      GoesOnIff(replies, attempts, n - 1);
      CountGrows(replies, n - 1, n);
      assert StopsAt(replies, attempts, n - 1) <==>
        (CountKind(replies, n - 1, false) < CountKind(replies, n, false) && CountKind(replies, n, false) >= attempts)
        || n == Max(attempts, RATE_LIMIT_ATTEMPTS);
    }
  }

  /** A reply that does not ask to retry always ends the loop. */
  lemma AnswerEnds<T>(replies: seq<Reply<T>>, attempts: nat, i: nat)
    requires i < |replies|
    ensures !replies[i].Again? ==> StopsAt(replies, attempts, i)
  {
  }

  /** How long the loop waits after a reply: its hint, or the base of its kind doubled for each earlier reply of that
      kind, and never more than 30 s. */
  lemma WaitIs<T>(replies: seq<Reply<T>>, baseMs: nat, i: nat)
    requires i < |replies| && replies[i].Again?
    ensures var r, wait := replies[i], WaitAfter(replies, baseMs, i);
      var k := CountKind(replies, i, r.rateLimited);
      var full := if r.after.Some? then r.after.value
                  else (if r.rateLimited then 2000 else baseMs) * Bits.Pow2(k);
      wait.rateLimited == r.rateLimited && wait.ms == if full < 30_000 then full else 30_000
  {
    var r := replies[i];
    RungIsPower(if r.rateLimited then RATE_LIMIT_BASE_MS else baseMs, CountKind(replies, i, r.rateLimited));
  }

  /**
    What the stopping rule means when every reply asks to retry: plain failures never outnumber the
    caller's attempts (but one is always allowed), so only rate-limited replies buy further calls.
   */
  lemma PlainFailuresBounded<T>(replies: seq<Reply<T>>, attempts: nat, calls: nat)
    requires 1 <= calls <= |replies| && forall i | 0 <= i < calls :: replies[i].Again?
    requires forall i | 0 <= i < calls - 1 :: !StopsAt(replies, attempts, i)
    ensures CountKind(replies, calls, false) <= Max(attempts, 1)
    ensures calls - CountKind(replies, calls, true) <= Max(attempts, 1)
  {
    CountsAddUp(replies, calls);
    PlainBelow(replies, attempts, calls - 1);
  }

  lemma {:induction false} RungGrows(base: nat, j: nat, k: nat)
    requires j <= k
    ensures Rung(base, j) <= Rung(base, k)
  {
    if j < k {
      RungGrows(base, j, k - 1);
    }
  }

  /** Rate-limited rungs without a hint are 2, 4, 8 and 16 seconds, then 30 for good. */
  lemma RateLimitedLadder<T>(replies: seq<Reply<T>>, baseMs: nat, i: nat)
    requires i < |replies| && replies[i].Again? && replies[i].rateLimited && replies[i].after.None?
    ensures var k := CountKind(replies, i, true);
            WaitAfter(replies, baseMs, i).ms == if k < 4 then RATE_LIMIT_BASE_MS * Bits.Pow2(k) else MAX_SLEEP_MS
  {
    var k := CountKind(replies, i, true);
    var base := RATE_LIMIT_BASE_MS;
    RungIsPower(base, k);
    assert Rung(base, 1) == 4000 && Rung(base, 2) == 8000 && Rung(base, 3) == 16000 && Rung(base, 4) == 32000;
    if k < 4 {
      RungGrows(base, k, 3);
    } else {
      RungGrows(base, 4, k);
    }
  }
}
