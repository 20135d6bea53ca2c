/** What an account holder may rely on in every run: the password registered logs in, and the code the
    authenticator shows is accepted, for exactly as long as it is timely. */
module FactorRuns {
  import opened Wrappers
  import opened MachineInts
  import opened RateLimit
  import opened AuthTables
  import opened AuthInvariants
  import opened AuthAnswers
  import opened AuthRuns
  import opened LimiterRuns
  import opened AuthEffects
  import L = LoginRuns
  import S = SessionRuns
  import Totp

  // ---------- accounts ----------

  lemma {:induction false} AccountStays(env: Env, evs: seq<Event>, m: nat, n: nat, user: nat)
    requires m <= n <= |evs| && user in StateAt(env, evs, m).users
    ensures user in StateAt(env, evs, n).users && StateAt(env, evs, n).users[user] == StateAt(env, evs, m).users[user]
    decreases n
  {
    hide Exec, Linked, EmailsUnique, FindUser;
    if m == n {
    } else {
      AccountStays(env, evs, m, n - 1, user);
      StateInv(env, evs, n - 1);
      UsersAfter(env, StateAt(env, evs, n - 1), evs[n - 1].req, evs[n - 1].now);
    }
  }

  /** Request e registered the account, with this address and password hash. */
  ghost predicate RegisteredBy(env: Env, evs: seq<Event>, e: nat, user: nat)
    requires e < |evs|
  {
    && evs[e].req.Register? && AnswerAt(env, evs, e) == Created && StateAt(env, evs, e).nextUser == user
  }

  lemma RegisteredNow(env: Env, evs: seq<Event>, e: nat, user: nat)
    requires e < |evs| && RegisteredBy(env, evs, e, user)
    ensures var req, db := evs[e].req, StateAt(env, evs, e + 1);
            req.hash.Some? && user in db.users && db.users[user] == User(env.lower(req.email), req.hash.value)
  {
    hide Inv, Exec, AddressFree;
    var req := evs[e].req;
    StateInv(env, evs, e);
    RegisterAnswers(env, StateAt(env, evs, e), req.email, req.password, req.hash, evs[e].now);
  }

  /** A new account row comes with a registration answered `Created`. */
  lemma AccountAppears(env: Env, db: Db, req: Request, now: u64, user: nat)
    requires Inv(db) && user !in db.users && user in Exec(env, db, req, now).0.users
    ensures req.Register? && Exec(env, db, req, now).1 == Created && db.nextUser == user
  {
    hide Inv, Exec, FindUser, AddressFree;
    UsersAfter(env, db, req, now);
    RegisterAnswers(env, db, req.email, req.password, req.hash, now);
  }

  lemma {:induction false} AccountOrigin(env: Env, evs: seq<Event>, n: nat, user: nat) returns (e: nat)
    requires n <= |evs| && user in StateAt(env, evs, n).users
    ensures e < n && RegisteredBy(env, evs, e, user)
  {
    hide Inv, Exec;
    var m := n - 1;
    if user in StateAt(env, evs, m).users {
      e := AccountOrigin(env, evs, m, user);
    } else {
      StateInv(env, evs, m);
      AccountAppears(env, StateAt(env, evs, m), evs[m].req, evs[m].now, user);
      e := m;
    }
  }

  /** An earlier registration answered `Created` made the account, with this address up to case, and the
      password verifies against the hash it stored. */
  ghost predicate Holder(env: Env, evs: seq<Event>, n: nat, email: string, password: string, user: nat)
    requires n <= |evs|
  {
    exists e :: 0 <= e < n && RegisteredBy(env, evs, e, user) && evs[e].req.hash.Some?
                && SameAddress(env.lower(evs[e].req.email), env.lower(email))
                && env.verifyPassword(password, evs[e].req.hash.value)
  }

  lemma {:induction false} NamedIsHolder(env: Env, evs: seq<Event>, n: nat, email: string, password: string, user: nat)
    requires n <= |evs|
    ensures Named(env, StateAt(env, evs, n), email, password, user) <==> Holder(env, evs, n, email, password, user)
  {
    hide Inv, Exec, StateAt, AnswerAt, SameAddress;
    if Named(env, StateAt(env, evs, n), email, password, user) {
      var e := AccountOrigin(env, evs, n, user);
      RegisteredNow(env, evs, e, user);
      AccountStays(env, evs, e + 1, n, user);
    }
    if Holder(env, evs, n, email, password, user) {
      var e :| 0 <= e < n && RegisteredBy(env, evs, e, user) && evs[e].req.hash.Some?
               && SameAddress(env.lower(evs[e].req.email), env.lower(email))
               && env.verifyPassword(password, evs[e].req.hash.value);
      RegisteredNow(env, evs, e, user);
      AccountStays(env, evs, e + 1, n, user);
    }
  }

  /** A login is refused exactly if no earlier registration made the address and password an account's.
      The account's holder gets a session, or a challenge if its second factor is active. */
  lemma {:induction false} RegisteredLogsIn(env: Env, evs: seq<Event>, n: nat, user: nat)
    requires n < |evs| && evs[n].req.Login?
    ensures var req := evs[n].req;
            && (AnswerAt(env, evs, n) == Unauthorized <==>
                  forall u: nat :: !Holder(env, evs, n, req.email, req.password, u))
            && (Holder(env, evs, n, req.email, req.password, user) ==>
                  AnswerAt(env, evs, n) ==
                    if req.token.None? then ServerError
                    else if StatusOf(StateAt(env, evs, n), user).Active? then ChallengeIssued(req.token.value)
                    else SessionIssued(req.token.value))
  {
    hide Inv, Exec, StateAt, Named, Holder;
    var req, db := evs[n].req, StateAt(env, evs, n);
    StateInv(env, evs, n);
    LoginAnswers(env, db, req.email, req.password, req.token, evs[n].now, user);
    forall u: nat
      ensures Named(env, db, req.email, req.password, u) <==> Holder(env, evs, n, req.email, req.password, u)
    {
      NamedIsHolder(env, evs, n, req.email, req.password, u);
    }
  }

  // ---------- challenges ----------

  /** The second login step presents a challenge of the account that is stored and has not expired. */
  ghost predicate LiveChallenge(env: Env, db: Db, challenge: string, user: nat, now: u64) {
    exists id :: challenge != "" && Stored(env, db, challenge, id)
                 && db.challenges[id].user == user && (now as nat) < db.challenges[id].expiresAt
  }

  lemma RedemptionAnswer(env: Env, db: Db, req: Request, now: u64)
    requires req.LoginStep2? && EffectOf(env, db, req, now).FactorLogin?
    ensures Exec(env, db, req, now).1 == if req.token.None? then ServerError else SessionIssued(req.token.value)
  {
    hide FactorAccepted, FactorRow, Admitted, Checked, Recorded, AfterFactor, FindChallenge;
  }

  /** Request k redeemed a challenge of this hash, or turned the account's second factor off. */
  ghost predicate EndsChallenge(env: Env, evs: seq<Event>, k: nat, challenge: string, user: nat)
    requires k < |evs|
  {
    var req, answer := evs[k].req, AnswerAt(env, evs, k);
    || (req.LoginStep2? && env.hashToken(req.challenge) == env.hashToken(challenge)
        && (answer.SessionIssued? || answer == ServerError))
    || (req.Disable? && answer == NoContent
        && AuthedUser(env, StateAt(env, evs, k), req.bearer, evs[k].now as nat) == Some(user))
  }

  /** Request m answered this challenge to a correct password of the account. */
  ghost predicate Challenges(env: Env, evs: seq<Event>, m: nat, challenge: string, user: nat)
    requires m < |evs|
  {
    AnswerAt(env, evs, m) == ChallengeIssued(challenge) && L.CorrectPassword(env, evs, m, user)
  }

  lemma ChallengeMinted(env: Env, evs: seq<Event>, m: nat, challenge: string, user: nat)
    requires m < |evs| && Challenges(env, evs, m, challenge, user)
    ensures TokenOf(evs[m].req) == Some(challenge)
    ensures var db', id := StateAt(env, evs, m + 1), StateAt(env, evs, m).nextChallenge;
            && id in db'.challenges
            && db'.challenges[id] == Challenge(user, env.hashToken(challenge), evs[m].now as nat + 300)
  {
    hide Inv, Exec, PasswordOwner, FindUser, Enabled, HasEffect;
    var req, db := evs[m].req, StateAt(env, evs, m);
    StateInv(env, evs, m);
    LoginAnswers(env, db, req.email, req.password, req.token, evs[m].now, user);
    assert Named(env, db, req.email, req.password, user);
  }

  /** A request that does not end it leaves an unexpired challenge where it is. */
  lemma ChallengeKept(env: Env, evs: seq<Event>, k: nat, id: nat, challenge: string, user: nat, expiresAt: nat)
    requires k < |evs| && !EndsChallenge(env, evs, k, challenge, user) && (evs[k].now as nat) < expiresAt
    requires var db := StateAt(env, evs, k);
        id in db.challenges && db.challenges[id] == Challenge(user, env.hashToken(challenge), expiresAt)
    ensures var db' := StateAt(env, evs, k + 1);
        id in db'.challenges && db'.challenges[id] == Challenge(user, env.hashToken(challenge), expiresAt)
  {
    hide Exec, EffectOf, SecretsAfter, RecoveryAfter, SessionsAfter, Linked, EmailsUnique, FactorAccepted, FactorRow,
         AuthedUser, Admitted, CodeFits;
    StepAt(env, evs, k);
    if EffectAt(env, evs, k).FactorLogin? {
      RedemptionAnswer(env, StateAt(env, evs, k), evs[k].req, evs[k].now);
    }
  }

  lemma {:induction false} ChallengeStands(env: Env, evs: seq<Event>, m: nat, n: nat, challenge: string, user: nat)
    requires m < n <= |evs| && Challenges(env, evs, m, challenge, user)
    requires forall k | m < k < n ::
               !EndsChallenge(env, evs, k, challenge, user) && (evs[k].now as nat) < evs[m].now as nat + 300
    ensures var db, id := StateAt(env, evs, n), StateAt(env, evs, m).nextChallenge;
            id in db.challenges
            && db.challenges[id] == Challenge(user, env.hashToken(challenge), evs[m].now as nat + 300)
    decreases n
  {
    hide StateAt, AnswerAt, EndsChallenge, Challenges;
    if n == m + 1 {
      ChallengeMinted(env, evs, m, challenge, user);
    } else {
      ChallengeStands(env, evs, m, n - 1, challenge, user);
      ChallengeKept(env, evs, n - 1, StateAt(env, evs, m).nextChallenge, challenge, user, evs[m].now as nat + 300);
    }
  }

  lemma {:induction false} ChallengeAlone(env: Env, evs: seq<Event>, m: nat, n: nat, challenge: string, id: nat)
    requires m < n <= |evs| && S.FreshTokens(evs) && S.Injective(env, evs) && TokenOf(evs[m].req) == Some(challenge)
    requires id in StateAt(env, evs, n).challenges
    requires StateAt(env, evs, n).challenges[id].hash == env.hashToken(challenge)
    ensures id == StateAt(env, evs, m).nextChallenge
  {
    hide StateAt, EffectAt;
    var j := L.ChallengeOrigin(env, evs, n, id);
    assert S.NoCollision(env, evs, challenge);
    assert j == m;
  }

  /** A challenge answered to a correct password is live for 300 seconds, until it is redeemed or the
      second factor is turned off, whatever else the run holds. */
  lemma {:induction false} ChallengeIsLive(env: Env, evs: seq<Event>, m: nat, n: nat, challenge: string, user: nat,
                                           now: u64)
    requires m < n <= |evs| && S.FreshTokens(evs) && S.Injective(env, evs) && NonDecreasing(evs)
    requires Challenges(env, evs, m, challenge, user) && evs[n - 1].now <= now
    requires (now as nat) < evs[m].now as nat + 300
    requires forall k | m < k < n :: !EndsChallenge(env, evs, k, challenge, user)
    ensures LiveChallenge(env, StateAt(env, evs, n), challenge, user, now)
  {
    hide StateAt, AnswerAt, EndsChallenge, Challenges, S.Injective;
    ChallengeMinted(env, evs, m, challenge, user);
    assert forall k | m < k < n :: evs[k].now <= evs[n - 1].now;
    ChallengeStands(env, evs, m, n, challenge, user);
    var db, id := StateAt(env, evs, n), StateAt(env, evs, m).nextChallenge;
    forall j | j in db.challenges && db.challenges[j].hash == env.hashToken(challenge)
      ensures j == id
    {
      ChallengeAlone(env, evs, m, n, challenge, j);
    }
    assert Stored(env, db, challenge, id);
  }

  // ---------- six-digit codes ----------

  /** With a live challenge, fewer than five recent failures and a token to hand out, the second login
      step answers a session exactly if the factor holds. */
  lemma {:induction false} FactorDecidesLogin(env: Env, evs: seq<Event>, n: nat, user: nat)
    requires n < |evs| && NonDecreasing(evs) && evs[n].req.LoginStep2? && evs[n].req.token.Some?
    requires evs[n].req.code != "" && LiveChallenge(env, StateAt(env, evs, n), evs[n].req.challenge, user, evs[n].now)
    requires Recent(env, evs, n, user) < 5
    ensures var req, db, db' := evs[n].req, StateAt(env, evs, n), StateAt(env, evs, n + 1);
            var held := Holds(env, db, user, req.code, evs[n].now);
            && AnswerAt(env, evs, n) == (if held then SessionIssued(req.token.value) else Unauthorized)
            && (if held then RowsAfter(env, db, user, req.code, evs[n].now as nat, db'.recovery)
                else db'.recovery == db.recovery)
            && StatusOf(db, user).Active? && StatusOf(db', user).Active?
  {
    hide Inv, Exec, Unknown, Holds, RowsAfter, Recent, Admitted, NonDecreasing;
    var req, db := evs[n].req, StateAt(env, evs, n);
    StateInv(env, evs, n);
    AdmittedByRecord(env, evs, n, user);
    var id :| req.challenge != "" && Stored(env, db, req.challenge, id)
              && db.challenges[id].user == user && (evs[n].now as nat) < db.challenges[id].expiresAt;
    Step2Answers(env, db, req.challenge, req.code, req.token, evs[n].now, id);
    ChallengedIsActive(db, id);
  }

  lemma ChallengedIsActive(db: Db, id: nat)
    requires Inv(db) && id in db.challenges
    ensures StatusOf(db, db.challenges[id].user).Active?
  {
    hide IdsBelow, EmailsUnique;
  }

  /** The authenticator's code: such a step answers a session if and only if the six digits are the code
      of a step at most one away from the clock's, and consumes no recovery row either way. */
  lemma {:induction false} TotpLogsIn(env: Env, evs: seq<Event>, n: nat, user: nat, seed: seq<byte>)
    requires n < |evs| && NonDecreasing(evs) && evs[n].req.LoginStep2? && evs[n].req.token.Some?
    requires SixDigits(evs[n].req.code)
    requires LiveChallenge(env, StateAt(env, evs, n), evs[n].req.challenge, user, evs[n].now)
    requires Recent(env, evs, n, user) < 5 && SeedOf(env, StateAt(env, evs, n), user) == Some(seed)
    ensures AnswerAt(env, evs, n) == SessionIssued(evs[n].req.token.value) <==>
            exists s: u64 :: evs[n].now as int / 30 - 1 <= s as int <= evs[n].now as int / 30 + 1
                             && Totp.CodeAtStep(env.mac, seed, s) == Some(evs[n].req.code)
    ensures StateAt(env, evs, n + 1).recovery == StateAt(env, evs, n).recovery
  {
    hide StateAt, LiveChallenge, Recent, NonDecreasing, SeedOf, Totp.CodeAtStep;
    FactorDecidesLogin(env, evs, n, user);
  }

  /** Password and authenticator: a challenge answered to a correct password less than 300 seconds ago,
      not redeemed since, gives a session for exactly the timely codes. */
  lemma {:induction false} TwoStepLogin(env: Env, evs: seq<Event>, m: nat, n: nat, user: nat, seed: seq<byte>)
    requires m < n < |evs| && S.FreshTokens(evs) && S.Injective(env, evs) && NonDecreasing(evs)
    requires evs[n].req.LoginStep2? && evs[n].req.token.Some? && SixDigits(evs[n].req.code)
    requires Challenges(env, evs, m, evs[n].req.challenge, user)
    requires (evs[n].now as nat) < evs[m].now as nat + 300
    requires forall k | m < k < n :: !EndsChallenge(env, evs, k, evs[n].req.challenge, user)
    requires Recent(env, evs, n, user) < 5 && SeedOf(env, StateAt(env, evs, n), user) == Some(seed)
    ensures AnswerAt(env, evs, n) == SessionIssued(evs[n].req.token.value) <==>
            exists s: u64 :: evs[n].now as int / 30 - 1 <= s as int <= evs[n].now as int / 30 + 1
                             && Totp.CodeAtStep(env.mac, seed, s) == Some(evs[n].req.code)
  {
    hide StateAt, LiveChallenge, Recent, SeedOf, Totp.CodeAtStep, EndsChallenge, Challenges, SixDigits;
    ChallengeIsLive(env, evs, m, n, evs[n].req.challenge, user, evs[n].now);
    TotpLogsIn(env, evs, n, user, seed);
  }

  /** An authenticated disable with the right password and fewer than five recent failures succeeds
      exactly if the factor holds, and turns the second factor off exactly if it succeeds. */
  lemma {:induction false} FactorDecidesDisable(env: Env, evs: seq<Event>, n: nat, user: nat)
    requires n < |evs| && NonDecreasing(evs) && evs[n].req.Disable?
    requires var db := StateAt(env, evs, n);
             AuthedUser(env, db, evs[n].req.bearer, evs[n].now as nat) == Some(user) && user in db.users
             && env.verifyPassword(evs[n].req.password, db.users[user].passwordHash)
    requires Recent(env, evs, n, user) < 5
    ensures var db, db' := StateAt(env, evs, n), StateAt(env, evs, n + 1);
            var held := Holds(env, db, user, evs[n].req.code, evs[n].now);
            && AnswerAt(env, evs, n) == (if held then NoContent else Unauthorized)
            && StatusOf(db', user) == (if held then Off else StatusOf(db, user))
            && (held ==> (forall id | id in db'.recovery :: db'.recovery[id].user != user)
                         && forall id | id in db'.challenges :: db'.challenges[id].user != user)
  {
    hide Inv, Exec, Holds, Recent, Admitted, NonDecreasing, AuthedUser;
    var req, db := evs[n].req, StateAt(env, evs, n);
    StateInv(env, evs, n);
    AdmittedByRecord(env, evs, n, user);
    DisableAnswers(env, db, req.bearer, req.password, req.code, evs[n].now);
  }

  /** The authenticator's code turns an active second factor off under the same condition. */
  lemma {:induction false} TotpDisables(env: Env, evs: seq<Event>, n: nat, user: nat, seed: seq<byte>)
    requires n < |evs| && NonDecreasing(evs) && evs[n].req.Disable? && SixDigits(evs[n].req.code)
    requires var db := StateAt(env, evs, n);
             AuthedUser(env, db, evs[n].req.bearer, evs[n].now as nat) == Some(user) && user in db.users
             && env.verifyPassword(evs[n].req.password, db.users[user].passwordHash)
    requires Recent(env, evs, n, user) < 5 && SeedOf(env, StateAt(env, evs, n), user) == Some(seed)
    ensures AnswerAt(env, evs, n) == NoContent <==>
            && StatusOf(StateAt(env, evs, n), user).Active?
            && exists s: u64 :: evs[n].now as int / 30 - 1 <= s as int <= evs[n].now as int / 30 + 1
                                && Totp.CodeAtStep(env.mac, seed, s) == Some(evs[n].req.code)
    ensures AnswerAt(env, evs, n) == NoContent <==> StatusOf(StateAt(env, evs, n + 1), user).Off?
  {
    hide StateAt, Recent, NonDecreasing, Totp.CodeAtStep, AuthedUser;
    FactorDecidesDisable(env, evs, n, user);
  }

  /** The first code confirms a pending enrollment: exactly a timely one activates it. */
  lemma {:induction false} TotpActivates(env: Env, evs: seq<Event>, n: nat, user: nat, seed: seq<byte>)
    requires n < |evs| && NonDecreasing(evs) && evs[n].req.Verify?
    requires AuthedUser(env, StateAt(env, evs, n), evs[n].req.bearer, evs[n].now as nat) == Some(user)
    requires StatusOf(StateAt(env, evs, n), user).Pending?
    requires Recent(env, evs, n, user) < 5 && SeedOf(env, StateAt(env, evs, n), user) == Some(seed)
    ensures AnswerAt(env, evs, n) == NoContent <==>
            exists s: u64 :: evs[n].now as int / 30 - 1 <= s as int <= evs[n].now as int / 30 + 1
                             && Totp.CodeAtStep(env.mac, seed, s) == Some(evs[n].req.code)
    ensures AnswerAt(env, evs, n) == NoContent <==> StatusOf(StateAt(env, evs, n + 1), user).Active?
  {
    hide Inv, Exec, Recent, Admitted, NonDecreasing, AuthedUser, Totp.CodeAtStep, Checked, Recorded;
    var req, db := evs[n].req, StateAt(env, evs, n);
    StateInv(env, evs, n);
    AdmittedByRecord(env, evs, n, user);
    VerifyAnswers(env, db, req.bearer, req.code, evs[n].now);
  }
}
