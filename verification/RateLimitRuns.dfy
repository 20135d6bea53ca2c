/** Second-factor requests in flight. `rate_limit_check` and `rate_limit_record` lock the map
    separately, so between a request's check and its record any other request may run. */
module RateLimitRuns {
  import opened RateLimit

  /** One atomic step: the clock moves on, a request is checked, or a request that passed its
      check ends in a recorded failure or in success. */
  datatype Event = Tick(secs: nat) | Check(user: int) | Fail(user: int) | Succeed(user: int)

  /** `passed` counts the requests of each account that are past their check and not finished;
      `history` is what has ever been recorded. */
  datatype State = State(now: nat, failures: FailureMap, history: FailureMap, passed: map<int, nat>)

  const START := State(0, map[], map[], map[])

  function Passed(s: State, user: int): nat {
    if user in s.passed then s.passed[user] else 0
  }

  function Exec(s: State, e: Event): State {
    match e
    case Tick(secs) => s.(now := s.now + secs)
    case Check(u) =>
      var s' := s.(failures := Checked(s.failures, u, s.now));
      if Admitted(s.failures, u, s.now) then s'.(passed := s.passed[u := Passed(s, u) + 1]) else s'
    case Fail(u) =>
      if Passed(s, u) == 0 then s
      else s.(failures := Recorded(s.failures, u, s.now),
              history := Recorded(s.history, u, s.now),
              passed := s.passed[u := Passed(s, u) - 1])
    case Succeed(u) =>
      if Passed(s, u) == 0 then s else s.(passed := s.passed[u := Passed(s, u) - 1])
  }

  function Run(events: seq<Event>): State {
    if events == [] then START else Exec(Run(events[..|events| - 1]), events[|events| - 1])
  }

  /** At no point of the run are more than `k` requests of `user` past their check. */
  ghost predicate InFlightAtMost(events: seq<Event>, user: int, k: nat) {
    forall i | 0 <= i <= |events| :: Passed(Run(events[..i]), user) <= k
  }

  // ---------- every run: pruning is lossless ----------

  ghost predicate Consistent(s: State) {
    forall u: int :: Lossless(TimesOf(s.failures, u), TimesOf(s.history, u), s.now)
  }

  lemma {:induction false} RunConsistent(events: seq<Event>)
    ensures Consistent(Run(events))
  {
    if events == [] {
    } else {
      var s := Run(events[..|events| - 1]);
      RunConsistent(events[..|events| - 1]);
      match events[|events| - 1]
      case Tick(secs) =>
        forall u: int ensures Lossless(TimesOf(s.failures, u), TimesOf(s.history, u), s.now + secs) {
          LosslessLater(TimesOf(s.failures, u), TimesOf(s.history, u), s.now, s.now + secs);
        }
      case Check(u) => CheckedKeepsValid(s.failures, s.history, s.now, u, s.now);
      case Fail(u) => RecordedKeepsValid(s.failures, s.history, s.now, u, s.now);
      case Succeed(u) =>
    }
  }

  /** After any run, of any number of concurrent requests of any accounts, a check answers as if
      it counted every failure ever recorded for the account in [now-900, now]. */
  lemma CheckAnswersByHistory(events: seq<Event>, user: int)
    ensures var s := Run(events);
            Admitted(s.failures, user, s.now) <==>
            CountIn(TimesOf(s.history, user), s.now - 900, s.now) < 5
  {
    RunConsistent(events);
    ConsistentAnswer(Run(events), user);
  }

  lemma ConsistentAnswer(s: State, user: int)
    requires Consistent(s)
    ensures Admitted(s.failures, user, s.now) <==>
            CountIn(TimesOf(s.history, user), s.now - 900, s.now) < 5
  {
    CheckedKeepsValid(s.failures, s.history, s.now, user, s.now);
  }

  // ---------- every run: the window bound ----------

  /** Recorded failures in the closed 900-second window that starts at `a`. */
  function InWindow(times: seq<nat>, a: int): nat {
    CountIn(times, a, a + 900)
  }

  /** Failures in a window that is still open, plus requests that may yet fail in it, stay within
      the limit; closed windows cannot grow. */
  ghost predicate WindowsBounded(times: seq<nat>, now: nat, passed: nat, bound: nat) {
    forall a: int :: InWindow(times, a) + (if a + RATE_LIMIT_WINDOW_SECS >= now then passed else 0) <= bound
  }

  ghost predicate Bounded(s: State, user: int, bound: nat) {
    WindowsBounded(TimesOf(s.history, user), s.now, Passed(s, user), bound)
  }

  lemma AdmitKeepsWindows(times: seq<nat>, now: nat, passed: nat, k: nat)
    requires WindowsBounded(times, now, passed, RATE_LIMIT_FAILURES - 1 + k) && passed + 1 <= k
    requires CountIn(times, now - RATE_LIMIT_WINDOW_SECS, now) < RATE_LIMIT_FAILURES && UpTo(times, now)
    ensures WindowsBounded(times, now, passed + 1, RATE_LIMIT_FAILURES - 1 + k)
  {
    forall a: int
      ensures InWindow(times, a) + (if a + RATE_LIMIT_WINDOW_SECS >= now then passed + 1 else 0) <=
          RATE_LIMIT_FAILURES - 1 + k
    {
      if a + RATE_LIMIT_WINDOW_SECS >= now {
        CountMonotone(times, a, a + RATE_LIMIT_WINDOW_SECS, now - RATE_LIMIT_WINDOW_SECS, now);
      } else {
        assert InWindow(times, a) <= RATE_LIMIT_FAILURES - 1 + k;
      }
    }
  }

  lemma CheckKeepsWindows(s: State, user: int, k: nat)
    requires Consistent(s) && Bounded(s, user, RATE_LIMIT_FAILURES - 1 + k)
    requires Passed(Exec(s, Check(user)), user) <= k
    ensures Bounded(Exec(s, Check(user)), user, RATE_LIMIT_FAILURES - 1 + k)
  {
    ConsistentAnswer(s, user);
    assert Lossless(TimesOf(s.failures, user), TimesOf(s.history, user), s.now);
    hide Consistent, Retain, CountIn, WindowsBounded;
    if Admitted(s.failures, user, s.now) {
      AdmitKeepsWindows(TimesOf(s.history, user), s.now, Passed(s, user), k);
    }
  }

  lemma RecordKeepsWindows(times: seq<nat>, now: nat, passed: nat, bound: nat)
    requires passed > 0 && WindowsBounded(times, now, passed, bound)
    ensures WindowsBounded(times + [now], now, passed - 1, bound)
  {
    forall a: int
      ensures InWindow(times + [now], a) + (if a + RATE_LIMIT_WINDOW_SECS >= now then passed - 1 else 0) <= bound
    {
      CountAppend(times, now, a, a + RATE_LIMIT_WINDOW_SECS);
      assert InWindow(times, a) + (if a + RATE_LIMIT_WINDOW_SECS >= now then passed else 0) <= bound;
    }
  }

  /** Neither time nor another account's request makes more room necessary. */
  lemma QuietKeepsWindows(times: seq<nat>, now: nat, passed: nat, now': nat, passed': nat, bound: nat)
    requires WindowsBounded(times, now, passed, bound) && now <= now' && passed' <= passed
    ensures WindowsBounded(times, now', passed', bound)
  {
    hide InWindow;
    forall a: int
      ensures InWindow(times, a) + (if a + RATE_LIMIT_WINDOW_SECS >= now' then passed' else 0) <= bound
    {
      assert InWindow(times, a) + (if a + RATE_LIMIT_WINDOW_SECS >= now then passed else 0) <= bound;
    }
  }

  lemma ExecKeepsWindows(s: State, e: Event, user: int, k: nat)
    requires Consistent(s) && Bounded(s, user, RATE_LIMIT_FAILURES - 1 + k) && Passed(Exec(s, e), user) <= k
    ensures Bounded(Exec(s, e), user, RATE_LIMIT_FAILURES - 1 + k)
  {
    hide WindowsBounded, Consistent, Admitted, Retain;
    var s' := Exec(s, e);
    if e == Check(user) {
      CheckKeepsWindows(s, user, k);
    } else if e == Fail(user) && Passed(s, user) > 0 {
      RecordKeepsWindows(TimesOf(s.history, user), s.now, Passed(s, user), RATE_LIMIT_FAILURES - 1 + k);
    } else {
      QuietKeepsWindows(TimesOf(s.history, user), s.now, Passed(s, user), s'.now, Passed(s', user),
                        RATE_LIMIT_FAILURES - 1 + k);
    }
  }

  lemma {:induction false} RunKeepsWindows(events: seq<Event>, user: int, k: nat)
    requires InFlightAtMost(events, user, k)
    ensures Bounded(Run(events), user, RATE_LIMIT_FAILURES - 1 + k)
  {
    if events == [] {
    } else {
      var init, e := events[..|events| - 1], events[|events| - 1];
      assert events[..|events|] == events;
      assert forall i | 0 <= i <= |init| :: init[..i] == events[..i];
      hide Exec, Passed, Bounded, Consistent;
      RunKeepsWindows(init, user, k);
      RunConsistent(init);
      ExecKeepsWindows(Run(init), e, user, k);
    }
  }

  /** With at most k requests of the account past their check at any time, every closed 900-second
      window of every run holds at most 4 + k recorded failures. */
  lemma {:induction false} WindowBound(events: seq<Event>, user: int, k: nat, a: int)
    requires InFlightAtMost(events, user, k)
    ensures InWindow(TimesOf(Run(events).history, user), a) <= 4 + k
  {
    RunKeepsWindows(events, user, k);
    assert Bounded(Run(events), user, RATE_LIMIT_FAILURES - 1 + k);
  }

  // ---------- the bound is reached ----------

  function Times<T>(n: nat, e: T): seq<T> {
    seq(n, _ => e)
  }

  /** Four failures one after another, then k requests checked together that all fail. */
  function Burst(user: int, k: nat): seq<Event> {
    Singles(user, RATE_LIMIT_FAILURES - 1) + Times(k, Check(user)) + Times(k, Fail(user))
  }

  function Singles(user: int, n: nat): seq<Event> {
    if n == 0 then [] else Singles(user, n - 1) + [Check(user), Fail(user)]
  }

  lemma RunAppend(events: seq<Event>, e: Event)
    ensures Run(events + [e]) == Exec(Run(events), e)
  {
    assert (events + [e])[..|events|] == events;
  }

  lemma InFlightAppend(events: seq<Event>, e: Event, user: int, k: nat)
    requires InFlightAtMost(events, user, k) && Passed(Run(events + [e]), user) <= k
    ensures InFlightAtMost(events + [e], user, k)
  {
    forall i | 0 <= i <= |events + [e]|
      ensures Passed(Run((events + [e])[..i]), user) <= k
    {
      if i <= |events| {
        assert (events + [e])[..i] == events[..i];
      } else {
        assert (events + [e])[..i] == events + [e];
      }
    }
  }

  /** A state at time 0 with `n` failures of the account and `p` requests past their check. */
  ghost predicate AtZero(s: State, user: int, n: nat, p: nat) {
    && s.now == 0 && Passed(s, user) == p
    && CountIn(TimesOf(s.history, user), 0, RATE_LIMIT_WINDOW_SECS) == n
    && CountIn(TimesOf(s.history, user), -RATE_LIMIT_WINDOW_SECS, 0) == n
  }

  lemma CheckAtZero(events: seq<Event>, user: int, n: nat, p: nat, k: nat)
    requires AtZero(Run(events), user, n, p) && n < RATE_LIMIT_FAILURES && p < k && InFlightAtMost(events, user, k)
    ensures AtZero(Run(events + [Check(user)]), user, n, p + 1)
    ensures InFlightAtMost(events + [Check(user)], user, k)
  {
    CheckAnswersByHistory(events, user);
    RunAppend(events, Check(user));
    InFlightAppend(events, Check(user), user, k);
  }

  lemma FailAtZero(events: seq<Event>, user: int, n: nat, p: nat, k: nat)
    requires AtZero(Run(events), user, n, p) && p > 0 && InFlightAtMost(events, user, k)
    ensures AtZero(Run(events + [Fail(user)]), user, n + 1, p - 1)
    ensures InFlightAtMost(events + [Fail(user)], user, k)
  {
    var s := Run(events);
    assert Passed(Run(events[..|events|]), user) <= k && events[..|events|] == events;
    RunAppend(events, Fail(user));
    CountAppend(TimesOf(s.history, user), s.now, 0, RATE_LIMIT_WINDOW_SECS);
    CountAppend(TimesOf(s.history, user), s.now, -RATE_LIMIT_WINDOW_SECS, 0);
    InFlightAppend(events, Fail(user), user, k);
  }

  lemma {:induction false} ChecksAtZero(events: seq<Event>, user: int, j: nat, k: nat) returns (after: seq<Event>)
    requires AtZero(Run(events), user, RATE_LIMIT_FAILURES - 1, 0) && j <= k && InFlightAtMost(events, user, k)
    ensures after == events + Times(j, Check(user))
    ensures AtZero(Run(after), user, RATE_LIMIT_FAILURES - 1, j)
    ensures InFlightAtMost(after, user, k)
  {
    hide AtZero, Run, InFlightAtMost;
    after := events;
    if j == 0 {
    } else {
      var before := ChecksAtZero(events, user, j - 1, k);
      CheckAtZero(before, user, RATE_LIMIT_FAILURES - 1, j - 1, k);
      after := before + [Check(user)];
    }
  }

  lemma {:induction false} FailsAtZero(events: seq<Event>, user: int, j: nat, k: nat) returns (after: seq<Event>)
    requires AtZero(Run(events), user, RATE_LIMIT_FAILURES - 1, k) && j <= k && InFlightAtMost(events, user, k)
    ensures after == events + Times(j, Fail(user))
    ensures AtZero(Run(after), user, RATE_LIMIT_FAILURES - 1 + j, k - j)
    ensures InFlightAtMost(after, user, k)
  {
    hide AtZero, Run, InFlightAtMost;
    after := events;
    if j == 0 {
    } else {
      var before := FailsAtZero(events, user, j - 1, k);
      FailAtZero(before, user, RATE_LIMIT_FAILURES - 1 + (j - 1), k - (j - 1), k);
      after := before + [Fail(user)];
    }
  }

  /** One failed request on its own. */
  lemma OneAtZero(events: seq<Event>, user: int, n: nat, k: nat) returns (after: seq<Event>)
    requires AtZero(Run(events), user, n, 0) && n < RATE_LIMIT_FAILURES && k >= 1 && InFlightAtMost(events, user, k)
    ensures after == events + [Check(user), Fail(user)]
    ensures AtZero(Run(after), user, n + 1, 0) && InFlightAtMost(after, user, k)
  {
    CheckAtZero(events, user, n, 0, k);
    FailAtZero(events + [Check(user)], user, n, 1, k);
    after := events + [Check(user)] + [Fail(user)];
    assert after == events + [Check(user), Fail(user)];
  }

  lemma NothingAtZero(user: int, k: nat)
    ensures AtZero(Run([]), user, 0, 0) && InFlightAtMost([], user, k)
  {
  }

  lemma {:induction false} SinglesAtZero(user: int, n: nat, k: nat)
    requires n <= RATE_LIMIT_FAILURES - 1 && k >= 1
    ensures AtZero(Run(Singles(user, n)), user, n, 0) && InFlightAtMost(Singles(user, n), user, k)
  {
    hide AtZero, Run, InFlightAtMost;
    if n == 0 {
      NothingAtZero(user, k);
    } else {
      SinglesAtZero(user, n - 1, k);
      var after := OneAtZero(Singles(user, n - 1), user, n - 1, k);
      assert after == Singles(user, n);
    }
  }

  /** The bound of `WindowBound` is exact: for every k >= 1 some run reaches it. */
  lemma WindowBoundReached(user: int, k: nat)
    requires k >= 1
    ensures InFlightAtMost(Burst(user, k), user, k)
    ensures InWindow(TimesOf(Run(Burst(user, k)).history, user), 0) == 4 + k
  {
    hide AtZero, Run;
    SinglesAtZero(user, RATE_LIMIT_FAILURES - 1, k);
    var run := Singles(user, RATE_LIMIT_FAILURES - 1);
    run := ChecksAtZero(run, user, k, k);
    run := FailsAtZero(run, user, k, k);
    assert run == Burst(user, k);
    AtZeroCount(Run(run), user, RATE_LIMIT_FAILURES - 1 + k, 0);
  }

  lemma AtZeroCount(s: State, user: int, n: nat, p: nat)
    requires AtZero(s, user, n, p)
    ensures InWindow(TimesOf(s.history, user), 0) == n
  {
  }

  // ---------- what does not matter ----------

  ghost predicate Matters(s: State, e: Event, user: int) {
    match e
    case Tick(_) => true
    case Check(u) => u == user && Admitted(s.failures, user, s.now)
    case Fail(u) => u == user
    case Succeed(u) => u == user
  }

  /** The run without other accounts' requests and without the account's own refused checks. */
  ghost function Relevant(events: seq<Event>, user: int): seq<Event> {
    if events == [] then []
    else
      var init, e := events[..|events| - 1], events[|events| - 1];
      if Matters(Run(init), e, user) then Relevant(init, user) + [e] else Relevant(init, user)
  }

  /** What the limiter knows about one account. */
  ghost predicate SameFor(s: State, r: State, user: int) {
    s.now == r.now && TimesOf(s.history, user) == TimesOf(r.history, user) && Passed(s, user) == Passed(r, user)
  }

  lemma ExecSame(s: State, r: State, e: Event, user: int)
    requires Consistent(s) && Consistent(r) && SameFor(s, r, user)
    ensures if Matters(s, e, user) then SameFor(Exec(s, e), Exec(r, e), user) else SameFor(Exec(s, e), r, user)
  {
    if e == Check(user) {
      ConsistentAnswer(s, user);
      ConsistentAnswer(r, user);
    }
    hide Consistent, Retain, CountIn;
  }

  lemma {:induction false} RelevantSame(events: seq<Event>, user: int)
    ensures SameFor(Run(events), Run(Relevant(events, user)), user)
  {
    if events == [] {
    } else {
      var init, e := events[..|events| - 1], events[|events| - 1];
      RelevantSame(init, user);
      RunAppend(Relevant(init, user), e);
      RunConsistent(init);
      RunConsistent(Relevant(init, user));
      ExecSame(Run(init), Run(Relevant(init, user)), e, user);
    }
  }

  /** Refused attempts never extend a lockout and other accounts' requests never matter: leaving
      them all out of the run changes no answer. */
  lemma OnlyOwnFailuresMatter(events: seq<Event>, user: int)
    ensures var s := Run(events); var r := Run(Relevant(events, user));
            Admitted(s.failures, user, s.now) == Admitted(r.failures, user, r.now)
  {
    hide Run, Relevant, Admitted, Retain, CountIn;
    RelevantSame(events, user);
    CheckAnswersByHistory(events, user);
    CheckAnswersByHistory(Relevant(events, user), user);
  }
}
