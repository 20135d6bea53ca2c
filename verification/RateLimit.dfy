/** The sliding-window failure limiter (src/routes/totp.rs, `rate_limit_check` and
    `rate_limit_record`): a per-account list of failure times, pruned on every check. */
module RateLimit {
  const RATE_LIMIT_FAILURES := 5
  const RATE_LIMIT_WINDOW_SECS := 15 * 60

  /** HashMap<i64, Vec<u64>> */
  type FailureMap = map<int, seq<nat>>

  function TimesOf(m: FailureMap, user: int): seq<nat> {
    if user in m then m[user] else []
  }

  function SaturatingSub(a: nat, b: nat): nat {
    if a < b then 0 else a - b
  }

  /** Vec::retain(|t| t >= cutoff) */
  function Retain(times: seq<nat>, cutoff: nat): seq<nat> {
    if times == [] then []
    else
      var last := times[|times| - 1];
      Retain(times[..|times| - 1], cutoff) + if last >= cutoff then [last] else []
  }

  /** What one check leaves in the map and answers. */
  function Checked(m: FailureMap, user: int, now: nat): FailureMap {
    m[user := Retain(TimesOf(m, user), SaturatingSub(now, RATE_LIMIT_WINDOW_SECS))]
  }

  predicate Admitted(m: FailureMap, user: int, now: nat) {
    |Retain(TimesOf(m, user), SaturatingSub(now, RATE_LIMIT_WINDOW_SECS))| < RATE_LIMIT_FAILURES
  }

  function Recorded(m: FailureMap, user: int, now: nat): FailureMap {
    m[user := TimesOf(m, user) + [now]]
  }

  // ---------- counting over the full history ----------

  /** How many of the times lie in [lo, hi]. */
  function CountIn(times: seq<nat>, lo: int, hi: int): nat {
    if times == [] then 0
    else CountIn(times[..|times| - 1], lo, hi) + if lo <= times[|times| - 1] <= hi then 1 else 0
  }

  predicate Sorted(times: seq<nat>) {
    forall i, j | 0 <= i < j < |times| :: times[i] <= times[j]
  }

  predicate UpTo(times: seq<nat>, clock: nat) {
    forall i | 0 <= i < |times| :: times[i] <= clock
  }

  /** The stored list counts like the never-pruned one in every window a check can still ask about. */
  ghost predicate Lossless(stored: seq<nat>, full: seq<nat>, clock: nat) {
    && Sorted(stored) && Sorted(full) && UpTo(stored, clock) && UpTo(full, clock)
    && forall lo: int, hi: int | lo + RATE_LIMIT_WINDOW_SECS >= clock ::
        CountIn(stored, lo, hi) == CountIn(full, lo, hi)
  }

  lemma CountAppend(times: seq<nat>, t: nat, lo: int, hi: int)
    ensures CountIn(times + [t], lo, hi) == CountIn(times, lo, hi) + if lo <= t <= hi then 1 else 0
  {
    assert (times + [t])[..|times|] == times;
  }

  lemma {:induction false} CountMonotone(times: seq<nat>, lo: int, hi: int, lo': int, hi': int)
    requires forall i | 0 <= i < |times| :: lo <= times[i] <= hi ==> lo' <= times[i] <= hi'
    ensures CountIn(times, lo, hi) <= CountIn(times, lo', hi')
  {
    if times == [] {
    } else {
      CountMonotone(times[..|times| - 1], lo, hi, lo', hi');
    }
  }

  lemma {:induction false} RetainCounts(times: seq<nat>, cutoff: nat, lo: int, hi: int)
    requires lo >= cutoff
    ensures CountIn(Retain(times, cutoff), lo, hi) == CountIn(times, lo, hi)
  {
    if times == [] {
    } else {
      var init, last := times[..|times| - 1], times[|times| - 1];
      RetainCounts(init, cutoff, lo, hi);
      CountAppend(Retain(init, cutoff), last, lo, hi);
      assert Retain(init, cutoff) + [] == Retain(init, cutoff);
    }
  }

  lemma {:induction false} RetainLength(times: seq<nat>, cutoff: nat, hi: nat)
    requires UpTo(times, hi)
    ensures |Retain(times, cutoff)| == CountIn(times, cutoff, hi)
  {
    if times == [] {
    } else {
      RetainLength(times[..|times| - 1], cutoff, hi);
    }
  }

  /** Pruning keeps a sorted sublist. */
  lemma {:induction false} RetainSorted(times: seq<nat>, cutoff: nat, clock: nat)
    requires Sorted(times) && UpTo(times, clock)
    ensures Sorted(Retain(times, cutoff)) && UpTo(Retain(times, cutoff), clock)
  {
    if times == [] {
    } else {
      var last := times[|times| - 1];
      assert UpTo(times[..|times| - 1], last);
      RetainSorted(times[..|times| - 1], cutoff, last);
    }
  }

  /** Pruning a sorted list drops exactly the times before the cutoff: the last k are left. */
  lemma {:induction false} RetainIsSuffix(times: seq<nat>, cutoff: nat) returns (k: nat)
    requires Sorted(times)
    ensures k <= |times| && Retain(times, cutoff) == times[k..]
    ensures forall i | 0 <= i < |times| :: times[i] >= cutoff <==> i >= k
  {
    if times == [] {
      k := 0;
    } else {
      var init, last := times[..|times| - 1], times[|times| - 1];
      k := RetainIsSuffix(init, cutoff);
      k := SuffixNext(init, last, cutoff, k);
      assert init + [last] == times;
    }
  }

  lemma SuffixNext(init: seq<nat>, last: nat, cutoff: nat, k: nat) returns (k': nat)
    requires Sorted(init + [last]) && k <= |init|
    requires forall i | 0 <= i < |init| :: init[i] >= cutoff <==> i >= k
    ensures var times := init + [last];
            && k' <= |times| && init[k..] + (if last >= cutoff then [last] else []) == times[k'..]
            && forall i | 0 <= i < |times| :: times[i] >= cutoff <==> i >= k'
  {
    var times := init + [last];
    if last >= cutoff {
      k' := k;
      assert times[k..] == init[k..] + [last];
    } else {
      k' := |times|;
      assert times[|init|] == last;
      forall i | 0 <= i < |init|
        ensures init[i] < cutoff
      {
        assert times[i] <= times[|init|];
      }
      assert |init| > 0 ==> init[|init| - 1] < cutoff;
      assert init[k..] == [] == times[k'..];
    }
  }

  /** A check leaves of the account's sorted list exactly the times of the last 900 seconds, and every
      other account's list as it is. */
  lemma CheckPrunes(m: FailureMap, user: int, now: nat) returns (k: nat)
    requires Sorted(TimesOf(m, user))
    ensures var times := TimesOf(m, user);
            && k <= |times| && TimesOf(Checked(m, user, now), user) == times[k..]
            && forall i | 0 <= i < |times| :: times[i] + 900 >= now <==> i >= k
    ensures forall u: int | u != user :: TimesOf(Checked(m, user, now), u) == TimesOf(m, u)
  {
    hide Retain;
    k := RetainIsSuffix(TimesOf(m, user), SaturatingSub(now, 900));
  }

  lemma {:induction false} CountBelow(times: seq<nat>, lo: int, hi: int, clock: nat)
    requires UpTo(times, clock) && clock < lo
    ensures CountIn(times, lo, hi) == 0
  {
    if times == [] {
    } else {
      CountBelow(times[..|times| - 1], lo, hi, clock);
    }
  }

  // ---------- refinement, one operation at a time ----------

  /** Time passing keeps the stored list lossless. */
  lemma LosslessLater(stored: seq<nat>, full: seq<nat>, clock: nat, now: nat)
    requires Lossless(stored, full, clock) && clock <= now
    ensures Lossless(stored, full, now)
  {
  }

  /** A check answers exactly as counting the never-pruned history in [now-900, now] would,
      and prunes nothing that any later check could count. */
  lemma CheckRefines(m: FailureMap, user: int, full: seq<nat>, now: nat)
    requires Lossless(TimesOf(m, user), full, now)
    ensures Admitted(m, user, now) <==> CountIn(full, now - RATE_LIMIT_WINDOW_SECS, now) < RATE_LIMIT_FAILURES
    ensures Lossless(TimesOf(Checked(m, user, now), user), full, now)
  {
    var stored := TimesOf(m, user);
    var cutoff := SaturatingSub(now, RATE_LIMIT_WINDOW_SECS);
    RetainLength(stored, cutoff, now);
    CountMonotone(stored, cutoff, now, now - RATE_LIMIT_WINDOW_SECS, now);
    CountMonotone(stored, now - RATE_LIMIT_WINDOW_SECS, now, cutoff, now);
    RetainSorted(stored, cutoff, now);
    forall lo: int, hi: int | lo + RATE_LIMIT_WINDOW_SECS >= now
      ensures CountIn(Retain(stored, cutoff), lo, hi) == CountIn(full, lo, hi)
    {
      if lo >= cutoff {
        RetainCounts(stored, cutoff, lo, hi);
      } else {
        var kept := Retain(stored, cutoff);
        CountMonotone(kept, lo, hi, 0, hi);
        CountMonotone(kept, 0, hi, lo, hi);
        CountMonotone(stored, lo, hi, 0, hi);
        CountMonotone(stored, 0, hi, lo, hi);
        RetainCounts(stored, cutoff, 0, hi);
      }
    }
  }

  lemma RecordRefines(stored: seq<nat>, full: seq<nat>, now: nat)
    requires Lossless(stored, full, now)
    ensures Lossless(stored + [now], full + [now], now)
  {
    forall lo: int, hi: int | lo + RATE_LIMIT_WINDOW_SECS >= now
      ensures CountIn(stored + [now], lo, hi) == CountIn(full + [now], lo, hi)
    {
      CountAppend(stored, now, lo, hi);
      CountAppend(full, now, lo, hi);
    }
  }

  // ---------- the limiter itself ----------

  /** `AppState.totp_failures`. The ghost history is never pruned. */
  class Limiter {
    var failures: FailureMap
    ghost var history: FailureMap
    ghost var clock: nat

    ghost predicate Valid()
      reads this
    {
      forall u: int :: Lossless(TimesOf(failures, u), TimesOf(history, u), clock)
    }

    constructor ()
      ensures Valid() && failures == map[] && history == map[] && clock == 0
    {
      failures, history, clock := map[], map[], 0;
    }

    /** Answers by the full history, whatever was pruned before. */
    method Check(user: int, now: nat) returns (ok: bool)
      requires Valid() && clock <= now
      modifies this
      ensures Valid() && clock == now && history == old(history)
      ensures failures == Checked(old(failures), user, now)
      ensures ok == Admitted(old(failures), user, now)
      ensures ok <==> CountIn(TimesOf(history, user), now - 900, now) < 5
    {
      var cutoff := SaturatingSub(now, RATE_LIMIT_WINDOW_SECS);
      if user !in failures {
        failures := failures[user := []];
      }
      var times := failures[user];
      var kept: seq<nat> := [];
      for i := 0 to |times|
        invariant kept == Retain(times[..i], cutoff)
      {
        assert times[..i + 1][..i] == times[..i];
        if times[i] >= cutoff {
          kept := kept + [times[i]];
        }
      }
      assert times[..|times|] == times;
      failures := failures[user := kept];
      ok := |kept| < RATE_LIMIT_FAILURES;
      clock := now;
      assert failures == Checked(old(failures), user, now);
      CheckedKeepsValid(old(failures), history, old(clock), user, now);
    }

    method Record(user: int, now: nat)
      requires Valid() && clock <= now
      modifies this
      ensures Valid() && clock == now
      ensures failures == Recorded(old(failures), user, now)
      ensures history == Recorded(old(history), user, now)
    {
      if user !in failures {
        failures := failures[user := []];
      }
      failures := failures[user := failures[user] + [now]];
      history := Recorded(history, user, now);
      clock := now;
      assert failures == Recorded(old(failures), user, now);
      RecordedKeepsValid(old(failures), old(history), old(clock), user, now);
    }
  }

  lemma CheckedKeepsValid(m: FailureMap, history: FailureMap, clock: nat, user: int, now: nat)
    requires clock <= now && forall u: int :: Lossless(TimesOf(m, u), TimesOf(history, u), clock)
    ensures forall u: int :: Lossless(TimesOf(Checked(m, user, now), u), TimesOf(history, u), now)
    ensures Admitted(m, user, now)
       <==> CountIn(TimesOf(history, user), now - RATE_LIMIT_WINDOW_SECS, now) < RATE_LIMIT_FAILURES
  {
    forall u: int
      ensures Lossless(TimesOf(Checked(m, user, now), u), TimesOf(history, u), now)
    {
      LosslessLater(TimesOf(m, u), TimesOf(history, u), clock, now);
      if u == user {
        CheckRefines(m, user, TimesOf(history, u), now);
      }
    }
    LosslessLater(TimesOf(m, user), TimesOf(history, user), clock, now);
    CheckRefines(m, user, TimesOf(history, user), now);
  }

  lemma RecordedKeepsValid(m: FailureMap, history: FailureMap, clock: nat, user: int, now: nat)
    requires clock <= now && forall u: int :: Lossless(TimesOf(m, u), TimesOf(history, u), clock)
    ensures forall u: int :: Lossless(TimesOf(Recorded(m, user, now), u), TimesOf(Recorded(history, user, now), u), now)
  {
    forall u: int
      ensures Lossless(TimesOf(Recorded(m, user, now), u), TimesOf(Recorded(history, user, now), u), now)
    {
      LosslessLater(TimesOf(m, u), TimesOf(history, u), clock, now);
      if u == user {
        RecordRefines(TimesOf(m, u), TimesOf(history, u), now);
      }
    }
  }
}
