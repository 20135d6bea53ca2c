/** The failure limiter in whole runs of account requests: every such run drives the limiter as a run
    of `RateLimitRuns` with at most one request past its check. */
module LimiterRuns {
  import opened Wrappers
  import opened MachineInts
  import opened RateLimit
  import opened AuthTables
  import opened AuthEffects
  import opened AuthRuns
  import R = RateLimitRuns

  // ---------- what one request does to the limiter ----------

  /** A request does not reach the limiter, is refused by it, passes it, or passes it and then
      presents a wrong code, which is recorded. */
  datatype Use = Unused | Refused(user: nat) | Passed(user: nat) | Wrong(user: nat)

  ghost function CheckedUse(db: Db, user: nat, now: nat, wrong: bool): Use {
    if !Admitted(db.failures, user, now) then Refused(user) else if wrong then Wrong(user) else Passed(user)
  }

  ghost function UseOf(env: Env, db: Db, req: Request, now: u64): Use {
    var t := now as nat;
    match req
    case Verify(bearer, code) =>
      var caller := AuthedUser(env, db, bearer, t);
      if caller.None? then Unused
      else
        var user := caller.value;
        CheckedUse(db, user, t,
                   && StatusOf(db, user).Pending?
                   && env.decrypt(db.secrets[user].ciphertext, db.secrets[user].nonce).Some?
                   && !CodeFits(env, db.secrets[user], code, now))
    case LoginStep2(challenge, code, _) =>
      var found := FindChallenge(db, env.hashToken(challenge), 0);
      if challenge == "" || code == "" || found.None? || db.challenges[found.value].expiresAt <= t then Unused
      else
        var user := db.challenges[found.value].user;
        CheckedUse(db, user, t, !FactorAccepted(env, db, user, code, now))
    case Disable(bearer, password, code) =>
      var caller := AuthedUser(env, db, bearer, t);
      if caller.None? || !env.verifyPassword(password, db.users[caller.value].passwordHash) then Unused
      else CheckedUse(db, caller.value, t, !FactorAccepted(env, db, caller.value, code, now))
    case Register(_, _, _) => Unused
    case Login(_, _, _) => Unused
    case Enroll(_, _) => Unused
  }

  function FailuresAfter(m: FailureMap, use: Use, now: nat): FailureMap {
    match use
    case Unused => m
    case Refused(user) => Checked(m, user, now)
    case Passed(user) => Checked(m, user, now)
    case Wrong(user) => Recorded(Checked(m, user, now), user, now)
  }

  /** What the limiter holds after a request, and what the request's answer says about it. */
  ghost predicate Reflects(db: Db, now: nat, use: Use, after: (Db, Response)) {
    && after.0.failures == FailuresAfter(db.failures, use, now)
    && (after.1 == RateLimited <==> use.Refused?)
    && (use.Wrong? ==> after.1 == Unauthorized)
  }

  lemma VerifyReflects(env: Env, db: Db, req: Request, now: u64)
    requires req.Verify?
    ensures Reflects(db, now as nat, UseOf(env, db, req, now), VerifyStep(env, db, req.bearer, req.code, now))
  {
    hide Admitted, Checked, Recorded, AuthedUser, CodeFits;
  }

  lemma AfterFactorFailures(env: Env, db: Db, user: nat, code: string, now: nat)
    ensures AfterFactor(env, db, user, code, now).failures == db.failures
  {
  }

  lemma Step2Reflects(env: Env, db: Db, req: Request, now: u64)
    requires req.LoginStep2?
    ensures Reflects(db, now as nat, UseOf(env, db, req, now),
                     Step2Step(env, db, req.challenge, req.code, req.token, now))
  {
    hide Admitted, Checked, Recorded, FindChallenge, FactorAccepted, AfterFactor;
    var found := FindChallenge(db, env.hashToken(req.challenge), 0);
    if found.Some? {
      var user := db.challenges[found.value].user;
      AfterFactorFailures(env, Pruned(db, user, now as nat), user, req.code, now as nat);
    }
  }

  lemma DisableReflects(env: Env, db: Db, req: Request, now: u64)
    requires req.Disable?
    ensures Reflects(db, now as nat, UseOf(env, db, req, now),
        DisableStep(env, db, req.bearer, req.password, req.code, now))
  {
    hide Admitted, Checked, Recorded, AuthedUser, FactorAccepted, AfterFactor;
    var caller := AuthedUser(env, db, req.bearer, now as nat);
    if caller.Some? {
      AfterFactorFailures(env, Pruned(db, caller.value, now as nat), caller.value, req.code, now as nat);
    }
  }

  lemma ExecReflects(env: Env, db: Db, req: Request, now: u64)
    ensures Reflects(db, now as nat, UseOf(env, db, req, now), Exec(env, db, req, now))
  {
    hide Admitted, AuthedUser, PasswordOwner, FindUser, HashesOf, VerifyStep, Step2Step, DisableStep;
    match req
    case Register(_, _, _) =>
    case Login(_, _, _) =>
    case Enroll(_, _) =>
    case Verify(_, _) => VerifyReflects(env, db, req, now);
    case LoginStep2(_, _, _) => Step2Reflects(env, db, req, now);
    case Disable(_, _, _) => DisableReflects(env, db, req, now);
  }

  /** An accepted code has passed the limiter. */
  lemma AcceptedPassed(env: Env, db: Db, req: Request, now: u64, e: Effect)
    requires e == EffectOf(env, db, req, now) && (e.Activation? || e.FactorLogin? || e.TurnedOff?)
    ensures UseOf(env, db, req, now) == Passed(e.user)
  {
    hide Admitted, AuthedUser, FindChallenge, FactorAccepted, CodeFits, FactorRow;
  }

  /** The limiter's own answer. */
  lemma UseAdmitted(env: Env, db: Db, req: Request, now: u64)
    ensures var use := UseOf(env, db, req, now);
            !use.Unused? ==> (Admitted(db.failures, use.user, now as nat) <==> !use.Refused?)
  {
    hide Admitted, AuthedUser, FindChallenge, FactorAccepted, CodeFits;
  }

  // ---------- account runs as runs of the limiter ----------

  function EventsOf(use: Use): seq<R.Event> {
    match use
    case Unused => []
    case Refused(user) => [R.Check(user)]
    case Passed(user) => [R.Check(user), R.Succeed(user)]
    case Wrong(user) => [R.Check(user), R.Fail(user)]
  }

  ghost function UseAt(env: Env, evs: seq<Event>, k: nat): Use
    requires k < |evs|
  {
    UseOf(env, StateAt(env, evs, k), evs[k].req, evs[k].now)
  }

  /** The clock after the first n requests. */
  function ClockAt(evs: seq<Event>, n: nat): nat
    requires n <= |evs|
  {
    if n == 0 then 0 else evs[n - 1].now as nat
  }

  /** The clock never goes back. */
  ghost predicate NonDecreasing(evs: seq<Event>) {
    forall i, j | 0 <= i <= j < |evs| :: evs[i].now <= evs[j].now
  }

  ghost function LimiterEvents(env: Env, evs: seq<Event>, n: nat): seq<R.Event>
    requires n <= |evs|
  {
    if n == 0 then []
    else
      LimiterEvents(env, evs, n - 1) + [R.Tick(SaturatingSub(ClockAt(evs, n), ClockAt(evs, n - 1)))]
      + EventsOf(UseAt(env, evs, n - 1))
  }

  /** The times at which one of the first n requests recorded a failure for the account. */
  ghost function FailureTimes(env: Env, evs: seq<Event>, n: nat, user: int): seq<nat>
    requires n <= |evs|
  {
    if n == 0 then []
    else
      var use := UseAt(env, evs, n - 1);
      FailureTimes(env, evs, n - 1, user) + if use.Wrong? && use.user == user then [ClockAt(evs, n)] else []
  }

  /** Nobody is past a check, and never was more than one. */
  ghost predicate Idle(events: seq<R.Event>) {
    && (forall u: int :: R.Passed(R.Run(events), u) == 0)
    && forall u: int :: R.InFlightAtMost(events, u, 1)
  }

  lemma Append(events: seq<R.Event>, e: R.Event)
    requires forall u: int :: R.InFlightAtMost(events, u, 1)
    requires forall u: int :: R.Passed(R.Exec(R.Run(events), e), u) <= 1
    ensures R.Run(events + [e]) == R.Exec(R.Run(events), e)
    ensures forall u: int :: R.InFlightAtMost(events + [e], u, 1)
  {
    hide R.Run, R.Exec, R.Passed, R.InFlightAtMost;
    R.RunAppend(events, e);
    forall u: int
      ensures R.InFlightAtMost(events + [e], u, 1)
    {
      R.InFlightAppend(events, e, u, 1);
    }
  }

  /** How one event moves the count of requests past their check. */
  lemma PassedAfter(s: R.State, e: R.Event, u: int)
    ensures R.Passed(R.Exec(s, e), u) ==
            match e
            case Tick(_) => R.Passed(s, u)
            case Check(v) => R.Passed(s, u) + if u == v && Admitted(s.failures, v, s.now) then 1 else 0
            case Fail(v) => R.Passed(s, u) - if u == v && R.Passed(s, u) > 0 then 1 else 0
            case Succeed(v) => R.Passed(s, u) - if u == v && R.Passed(s, u) > 0 then 1 else 0
  {
    hide Admitted, Checked, Recorded;
  }

  lemma TickIdle(events: seq<R.Event>, secs: nat)
    requires Idle(events)
    ensures Idle(events + [R.Tick(secs)])
    ensures var s := R.Run(events); R.Run(events + [R.Tick(secs)]) == s.(now := s.now + secs)
  {
    hide R.Run, R.InFlightAtMost, R.Passed;
    forall u: int
      ensures R.Passed(R.Exec(R.Run(events), R.Tick(secs)), u) == 0
    {
      PassedAfter(R.Run(events), R.Tick(secs), u);
    }
    Append(events, R.Tick(secs));
  }

  /** One check: the account's request is past it if it was admitted. */
  lemma CheckStep(events: seq<R.Event>, user: int)
    requires Idle(events)
    ensures var s, s' := R.Run(events), R.Run(events + [R.Check(user)]);
            && s'.now == s.now && s'.failures == Checked(s.failures, user, s.now) && s'.history == s.history
            && forall u: int :: R.Passed(s', u) == if u == user && Admitted(s.failures, user, s.now) then 1 else 0
    ensures forall u: int :: R.InFlightAtMost(events + [R.Check(user)], u, 1)
  {
    hide R.Run, R.InFlightAtMost, R.Passed, Admitted, Checked;
    var s := R.Run(events);
    forall u: int
      ensures R.Passed(R.Exec(s, R.Check(user)), u) == if u == user && Admitted(s.failures, user, s.now) then 1 else 0
    {
      PassedAfter(s, R.Check(user), u);
    }
    Append(events, R.Check(user));
  }

  /** The end of the one request past its check. */
  lemma EndStep(events: seq<R.Event>, e: R.Event, user: int)
    requires e == R.Succeed(user) || e == R.Fail(user)
    requires forall u: int :: R.Passed(R.Run(events), u) == if u == user then 1 else 0
    requires forall u: int :: R.InFlightAtMost(events, u, 1)
    ensures Idle(events + [e])
    ensures var s, s' := R.Run(events), R.Run(events + [e]);
            && s'.now == s.now
            && s'.failures == (if e.Fail? then Recorded(s.failures, user, s.now) else s.failures)
            && s'.history == if e.Fail? then Recorded(s.history, user, s.now) else s.history
  {
    hide R.Run, R.InFlightAtMost, R.Passed, Recorded;
    forall u: int
      ensures R.Passed(R.Exec(R.Run(events), e), u) == 0
    {
      PassedAfter(R.Run(events), e, u);
    }
    assert R.Passed(R.Run(events), user) == 1;
    Append(events, e);
  }

  lemma UseIdle(events: seq<R.Event>, use: Use)
    requires Idle(events)
    requires var s := R.Run(events); !use.Unused? ==> (Admitted(s.failures, use.user, s.now) <==> !use.Refused?)
    ensures Idle(events + EventsOf(use))
    ensures var s, s' := R.Run(events), R.Run(events + EventsOf(use));
            && s'.now == s.now && s'.failures == FailuresAfter(s.failures, use, s.now)
            && s'.history == if use.Wrong? then Recorded(s.history, use.user, s.now) else s.history
  {
    hide R.Run, R.InFlightAtMost, R.Passed, Admitted, Checked, Recorded;
    if use.Unused? {
      assert events + [] == events;
    } else {
      CheckStep(events, use.user);
      if !use.Refused? {
        var last := EventsOf(use)[1];
        EndStep(events + [R.Check(use.user)], last, use.user);
        assert events + EventsOf(use) == events + [R.Check(use.user)] + [last];
      }
    }
  }

  /** The limiter after n requests is the limiter after their events, and its full history is the
      failures recorded. */
  ghost predicate Driven(env: Env, evs: seq<Event>, n: nat)
    requires n <= |evs|
  {
    var s := R.Run(LimiterEvents(env, evs, n));
    && s.failures == StateAt(env, evs, n).failures && s.now == ClockAt(evs, n)
    && forall u: int :: TimesOf(s.history, u) == FailureTimes(env, evs, n, u)
  }

  /** One more request, as events of the limiter. */
  lemma OneMoreUse(env: Env, evs: seq<Event>, m: nat)
    requires m < |evs| && NonDecreasing(evs) && Idle(LimiterEvents(env, evs, m))
    requires var s := R.Run(LimiterEvents(env, evs, m));
        s.failures == StateAt(env, evs, m).failures && s.now == ClockAt(evs, m)
    ensures Idle(LimiterEvents(env, evs, m + 1))
    ensures var s, s', use := R.Run(LimiterEvents(env, evs, m)), R.Run(LimiterEvents(env, evs, m + 1)),
        UseAt(env, evs, m);
            && s'.now == ClockAt(evs, m + 1) && s'.failures == FailuresAfter(s.failures, use, s'.now)
            && s'.history == if use.Wrong? then Recorded(s.history, use.user, s'.now) else s.history
  {
    hide UseOf, StateAt, R.Run, Idle, FailuresAfter, EventsOf, Admitted, Recorded;
    var events, use := LimiterEvents(env, evs, m), UseAt(env, evs, m);
    var secs := SaturatingSub(ClockAt(evs, m + 1), ClockAt(evs, m));
    assert m > 0 ==> evs[m - 1].now <= evs[m].now;
    TickIdle(events, secs);
    UseAdmitted(env, StateAt(env, evs, m), evs[m].req, evs[m].now);
    UseIdle(events + [R.Tick(secs)], use);
  }

  lemma {:induction false} RunDrivesLimiter(env: Env, evs: seq<Event>, n: nat)
    requires n <= |evs| && NonDecreasing(evs)
    ensures Driven(env, evs, n) && Idle(LimiterEvents(env, evs, n))
  {
    hide Exec, UseOf, R.Run, FailuresAfter, Idle, LimiterEvents, FailureTimes, NonDecreasing, Recorded;
    if n == 0 {
      NothingDriven(env, evs);
    } else {
      var m := n - 1;
      RunDrivesLimiter(env, evs, m);
      OneMoreUse(env, evs, m);
      ExecReflects(env, StateAt(env, evs, m), evs[m].req, evs[m].now);
      HistoryStep(env, evs, m, R.Run(LimiterEvents(env, evs, m)).history, R.Run(LimiterEvents(env, evs, n)).history);
    }
  }

  lemma NothingDriven(env: Env, evs: seq<Event>)
    ensures Driven(env, evs, 0) && Idle(LimiterEvents(env, evs, 0))
  {
  }

  lemma HistoryStep(env: Env, evs: seq<Event>, m: nat, history: FailureMap, history': FailureMap)
    requires m < |evs| && forall u: int :: TimesOf(history, u) == FailureTimes(env, evs, m, u)
    requires history' ==
        (if UseAt(env, evs, m).Wrong? then Recorded(history, UseAt(env, evs, m).user, ClockAt(evs, m + 1))
                          else history)
    ensures forall u: int :: TimesOf(history', u) == FailureTimes(env, evs, m + 1, u)
  {
    hide UseAt, StateAt;
    forall u: int
      ensures TimesOf(history', u) == FailureTimes(env, evs, m + 1, u)
    {
      assert TimesOf(history, u) + [] == TimesOf(history, u);
    }
  }

  // ---------- the results ----------

  /** In every run with a clock that does not go back, every closed 900-second window holds at most
      five recorded failures of an account. */
  lemma {:induction false} FiveFailuresPerWindow(env: Env, evs: seq<Event>, n: nat, user: nat, a: int)
    requires n <= |evs| && NonDecreasing(evs)
    ensures CountIn(FailureTimes(env, evs, n, user), a, a + 900) <= 5
  {
    hide R.Run, R.InFlightAtMost, R.Passed, LimiterEvents, FailureTimes, StateAt, CountIn;
    RunDrivesLimiter(env, evs, n);
    R.WindowBound(LimiterEvents(env, evs, n), user, 1, a);
  }

  /** The failures that count against a request: those recorded for the account in the 900 seconds
      up to the request's clock. */
  ghost function Recent(env: Env, evs: seq<Event>, k: nat, user: nat): nat
    requires k < |evs|
  {
    var now := evs[k].now as int;
    CountIn(FailureTimes(env, evs, k, user), now - 900, now)
  }

  lemma {:induction false} AdmittedByRecord(env: Env, evs: seq<Event>, k: nat, user: nat)
    requires k < |evs| && NonDecreasing(evs)
    ensures Admitted(StateAt(env, evs, k).failures, user, evs[k].now as nat) <==>
        Recent(env, evs, k, user) < 5
  {
    hide R.Run, R.Exec, LimiterEvents, FailureTimes, StateAt, CountIn, Admitted;
    var events := LimiterEvents(env, evs, k);
    var secs := SaturatingSub(evs[k].now as nat, ClockAt(evs, k));
    assert k > 0 ==> evs[k - 1].now <= evs[k].now;
    RunDrivesLimiter(env, evs, k);
    TickIdle(events, secs);
    R.CheckAnswersByHistory(events + [R.Tick(secs)], user);
  }

  /** No second factor, no activation and no disable succeeds while five failures of the account lie
      in the 900 seconds up to it. */
  lemma {:induction false} NoSuccessWhileLocked(env: Env, evs: seq<Event>, k: nat)
    requires k < |evs| && NonDecreasing(evs)
    requires var e := EffectAt(env, evs, k); e.Activation? || e.FactorLogin? || e.TurnedOff?
    ensures Recent(env, evs, k, EffectAt(env, evs, k).user) < 5
  {
    hide EffectOf, UseOf, StateAt, Recent, Admitted;
    var db, ev, user := StateAt(env, evs, k), evs[k], EffectAt(env, evs, k).user;
    AcceptedPassed(env, db, ev.req, ev.now, EffectAt(env, evs, k));
    UseAdmitted(env, db, ev.req, ev.now);
    AdmittedByRecord(env, evs, k, user);
  }

  /** A request that reaches the limiter for an account is answered `RateLimited` exactly when five
      failures lie in the 900 seconds up to it; no other request is. */
  lemma {:induction false} LimitedExactly(env: Env, evs: seq<Event>, k: nat)
    requires k < |evs| && NonDecreasing(evs)
    ensures AnswerAt(env, evs, k) == RateLimited <==>
            !UseAt(env, evs, k).Unused? && Recent(env, evs, k, UseAt(env, evs, k).user) >= 5
  {
    hide Exec, UseOf, StateAt, Recent, Admitted;
    var db, ev, use := StateAt(env, evs, k), evs[k], UseAt(env, evs, k);
    ExecReflects(env, db, ev.req, ev.now);
    UseAdmitted(env, db, ev.req, ev.now);
    if !use.Unused? {
      AdmittedByRecord(env, evs, k, use.user);
    }
  }
}
