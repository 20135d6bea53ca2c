/** The interleaved machine refines the handlers run alone: an undisturbed request leaves the tables its
    handler leaves, so every sequential run of `AuthTables` is a run of `EnrollMachine`. */
module EnrollSequential {
  import opened Wrappers
  import opened MachineInts
  import opened RecoveryCodes
  import opened EnrollMachine
  import opened EnrollExtremes
  import opened EnrollAtomic
  import A = AuthTables
  import AuthEffects
  import AuthInvariants
  import AuthRuns
  import RateLimit
  import Totp

  // ---------- the account tables, as the machine has them ----------

  /** A number for each sealed seed. */
  type Seal = (string, string) -> nat

  function SeenSecrets(secrets: map<nat, A.Secret>, seal: Seal): map<nat, Secret> {
    map u | u in secrets :: Secret(seal(secrets[u].ciphertext, secrets[u].nonce), secrets[u].enrolledAt.Some?)
  }

  function SeenRows(rows: map<nat, A.RecoveryRow>): map<nat, Row> {
    map id | id in rows :: Row(rows[id].user, rows[id].consumedAt.Some?)
  }

  function SeenChallenges(challenges: map<nat, A.Challenge>): map<nat, nat> {
    map id | id in challenges :: challenges[id].user
  }

  function Seen(db: A.Db, seal: Seal): Tables {
    Tables(SeenSecrets(db.secrets, seal), SeenRows(db.recovery), db.nextRecovery, SeenChallenges(db.challenges),
           db.nextChallenge)
  }

  /** The recovery row a second factor will match, if the limiter lets it be checked. */
  ghost function RowInput(env: A.Env, db: A.Db, user: nat, code: string, now: u64): Option<nat> {
    if RateLimit.Admitted(db.failures, user, now as nat) then A.FactorRow(env, db, user, code) else None
  }

  ghost predicate GoodInput(env: A.Env, db: A.Db, user: nat, code: string, now: u64) {
    && RateLimit.Admitted(db.failures, user, now as nat) && Totp.LooksLikeTotpCode(code)
    && user in db.secrets && A.CodeFits(env, db.secrets[user], code, now)
  }

  /** What reaches the statements of the machine: a request past the checks of its session, password and
      draws, with what its code will match. */
  ghost function CallOf(env: A.Env, seal: Seal, db: A.Db, req: A.Request, now: u64): Option<Call> {
    match req
    case Register(_, _, _) => None
    case Login(email, password, token) =>
      var owner := A.PasswordOwner(env, db, email, password);
      if owner.None? || token.None? then None else Some(Call(Login(owner.value), None, false, false))
    case Enroll(bearer, m) =>
      var caller := A.AuthedUser(env, db, bearer, now as nat);
      if caller.None? || !A.MaterialComplete(m) then None
      else Some(Call(Enroll(caller.value, seal(m.sealed.value.0, m.sealed.value.1)), None, false, false))
    case Verify(bearer, code) =>
      var caller := A.AuthedUser(env, db, bearer, now as nat);
      if caller.None? then None
      else
        var good := RateLimit.Admitted(db.failures, caller.value, now as nat)
                    && caller.value in db.secrets && A.CodeFits(env, db.secrets[caller.value], code, now);
        Some(Call(Activate(caller.value), None, good, false))
    case LoginStep2(challenge, code, _) =>
      var found := A.FindChallenge(db, env.hashToken(challenge), 0);
      if challenge == "" || code == "" || found.None? then None
      else
        var c := db.challenges[found.value];
        Some(Call(Factor(c.user, SignIn(found.value)), RowInput(env, db, c.user, code, now),
                  GoodInput(env, db, c.user, code, now), (now as nat) < c.expiresAt))
    case Disable(bearer, password, code) =>
      var caller := A.AuthedUser(env, db, bearer, now as nat);
      if caller.None? || !env.verifyPassword(password, db.users[caller.value].passwordHash) then None
      else
        Some(Call(Factor(caller.value, Disable), RowInput(env, db, caller.value, code, now),
                  GoodInput(env, db, caller.value, code, now), false))
  }

  /** What an effect is to the machine's tables. */
  function AfterEffect(t: Tables, e: AuthEffects.Effect, seed: nat): Tables {
    match e
    case Quiet => t
    case PasswordLogin(_) => t
    case NewChallenge(user) => InsertChallenge(t, user)
    case NewEnrollment(user) => Enrolled(t, user, seed)
    case Activation(user) => ActivateSecret(t, user)
    case DropExpired(id) => DropChallenge(t, id)
    case FactorLogin(_, id, row, _) => DropChallenge(Marked(t, row), id)
    case TurnedOff(user, row) => Wiped(Marked(t, row), user)
  }

  function SeedOf(req: A.Request, seal: Seal): nat {
    if req.Enroll? && req.material.sealed.Some? then seal(req.material.sealed.value.0, req.material.sealed.value.1)
    else 0
  }

  lemma {:induction false} RowsExactly(t: Tables, user: nat, n: nat)
    requires forall id | id in t.recovery :: id < t.nextRow
    ensures var t' := InsertRows(t, user, n);
            && t' == t.(recovery := t'.recovery, nextRow := t.nextRow + n)
            && (forall id: nat :: id in t'.recovery <==> id in t.recovery || t.nextRow <= id < t.nextRow + n)
            && forall id: nat | id in t'.recovery ::
                 t'.recovery[id] == if id < t.nextRow then t.recovery[id] else Row(user, false)
  {
    if n == 0 {
    } else {
      RowsExactly(t, user, n - 1);
    }
  }

  lemma JoinedRowsSeen(t: Tables, user: nat, rows: map<nat, A.RecoveryRow>, hashes: seq<string>)
    requires forall id | id in rows :: id < t.nextRow
    requires t.recovery == SeenRows(rows)
    ensures InsertRows(t, user, |hashes|) ==
            t.(recovery := SeenRows(rows + A.CodeRows(user, hashes, t.nextRow)), nextRow := t.nextRow + |hashes|)
  {
    hide InsertRows, A.CodeRows;
    RowsExactly(t, user, |hashes|);
    var all := rows + A.CodeRows(user, hashes, t.nextRow);
    assert InsertRows(t, user, |hashes|).recovery == SeenRows(all);
  }

  /** Of an enrollment the machine sees only the tables. */
  lemma NewEnrollmentSeen(env: A.Env, seal: Seal, db: A.Db, req: A.Request, now: u64, user: nat, db': A.Db)
    requires AuthInvariants.IdsBelow(db) && req.Enroll? && A.MaterialComplete(req.material)
    requires AuthEffects.HasEffect(env, db, req, now, AuthEffects.NewEnrollment(user), db')
    ensures Seen(db', seal) == Enrolled(Seen(db, seal), user, SeedOf(req, seal))
  {
    hide InsertRows, A.CodeRows, A.HashesOf, SeenRows, SeenSecrets, SeenChallenges;
    var t := Seen(db, seal);
    var secret := A.Secret(req.material.sealed.value.0, req.material.sealed.value.1, Some(now as nat + A.PENDING_SECS),
                           None);
    SecretSeen(db.secrets, seal, user, secret);
    var tx := t.(secrets := t.secrets[user := Secret(SeedOf(req, seal), false)]);
    JoinedRowsSeen(tx, user, db.recovery, A.HashesOf(req.material));
  }

  lemma SecretSeen(secrets: map<nat, A.Secret>, seal: Seal, user: nat, secret: A.Secret)
    ensures SeenSecrets(secrets[user := secret], seal) ==
            SeenSecrets(secrets, seal)[user := Secret(seal(secret.ciphertext, secret.nonce), secret.enrolledAt.Some?)]
  {
  }

  lemma NewChallengeSeen(t: Tables, challenges: map<nat, A.Challenge>, c: A.Challenge)
    requires t.challenges == SeenChallenges(challenges)
    ensures InsertChallenge(t, c.user) ==
            t.(challenges := SeenChallenges(challenges[t.nextChallenge := c]), nextChallenge := t.nextChallenge + 1)
  {
    assert SeenChallenges(challenges[t.nextChallenge := c]) == t.challenges[t.nextChallenge := c.user];
  }

  lemma DroppedSeen(challenges: map<nat, A.Challenge>, id: nat)
    ensures SeenChallenges(challenges - {id}) == SeenChallenges(challenges) - {id}
  {
  }

  lemma MarkedSeen(t: Tables, rows: map<nat, A.RecoveryRow>, row: Option<nat>, now: nat)
    requires t.recovery == SeenRows(rows)
    ensures Marked(t, row) == t.(recovery := SeenRows(AuthEffects.Marked(rows, row, now)))
  {
    assert Marked(t, row).recovery == SeenRows(AuthEffects.Marked(rows, row, now));
  }

  lemma ActivationSeen(t: Tables, secrets: map<nat, A.Secret>, seal: Seal, user: nat, now: nat)
    requires t.secrets == SeenSecrets(secrets, seal) && user in secrets
    ensures ActivateSecret(t, user) ==
            t.(secrets := SeenSecrets(secrets[user := secrets[user].(enrolledAt := Some(now), pendingUntil := None)],
                                      seal))
  {
    SecretSeen(secrets, seal, user, secrets[user].(enrolledAt := Some(now), pendingUntil := None));
  }

  lemma WipedSeen(t: Tables, secrets: map<nat, A.Secret>, rows: map<nat, A.RecoveryRow>,
                  challenges: map<nat, A.Challenge>, seal: Seal, user: nat)
    requires t.secrets == SeenSecrets(secrets, seal) && t.recovery == SeenRows(rows)
    requires t.challenges == SeenChallenges(challenges)
    ensures Wiped(t, user) ==
            t.(secrets := SeenSecrets(secrets - {user}, seal),
               recovery := SeenRows(map id | id in rows && rows[id].user != user :: rows[id]),
               challenges := SeenChallenges(map id | id in challenges && challenges[id].user != user :: challenges[id]))
  {
    var t' := Wiped(t, user);
    assert t'.secrets == SeenSecrets(secrets - {user}, seal);
    assert t'.recovery == SeenRows(map id | id in rows && rows[id].user != user :: rows[id]);
    assert t'.challenges == SeenChallenges(map id | id in challenges && challenges[id].user != user :: challenges[id]);
  }

  /** Every effect on the account tables is that effect on the machine's. */
  lemma EffectSeen(env: A.Env, seal: Seal, db: A.Db, req: A.Request, now: u64, e: AuthEffects.Effect, db': A.Db)
    requires AuthInvariants.IdsBelow(db) && AuthInvariants.Enabled(env, db, req, now, e)
    requires AuthEffects.HasEffect(env, db, req, now, e, db')
    ensures Seen(db', seal) == AfterEffect(Seen(db, seal), e, SeedOf(req, seal))
  {
    hide A.AuthedUser, A.FactorAccepted, A.CodeFits, A.PasswordOwner, RateLimit.Admitted, A.FactorRow, A.CodeRows,
         Enrolled, A.HashesOf, SeenRows, SeenSecrets, SeenChallenges, InsertChallenge, ActivateSecret, Marked,
         AuthEffects.Marked, Wiped, AuthInvariants.IdsBelow, AuthEffects.SessionsAfter;
    var t, at := Seen(db, seal), now as nat;
    match e
    case NewEnrollment(user) => NewEnrollmentSeen(env, seal, db, req, now, user, db');
    case Quiet =>
    case PasswordLogin(_) =>
    case NewChallenge(user) =>
      NewChallengeSeen(t, db.challenges, A.Challenge(user, env.hashToken(AuthEffects.TokenOf(req).value), at + 300));
    case Activation(user) => ActivationSeen(t, db.secrets, seal, user, at);
    case DropExpired(id) => DroppedSeen(db.challenges, id);
    case FactorLogin(_, id, row, _) =>
      DroppedSeen(db.challenges, id);
      MarkedSeen(t, db.recovery, row, at);
    case TurnedOff(user, row) =>
      MarkedSeen(t, db.recovery, row, at);
      WipedSeen(Marked(t, row), db.secrets, AuthEffects.Marked(db.recovery, row, at), db.challenges, seal, user);
  }

  lemma PassesIfAccepted(env: A.Env, seal: Seal, db: A.Db, user: nat, code: string, now: u64)
    ensures var row := RowInput(env, db, user, code, now);
            var admitted := RateLimit.Admitted(db.failures, user, now as nat);
            && (Passes(Seen(db, seal), user, row, GoodInput(env, db, user, code, now)) <==>
                  admitted && A.FactorAccepted(env, db, user, code, now))
            && (admitted ==> row == A.FactorRow(env, db, user, code))
  {
    hide RateLimit.Admitted, A.CodeFits, Totp.LooksLikeTotpCode;
    AuthInvariants.RowFacts(env, db, user, code);
  }

  predicate Succeeds(e: AuthEffects.Effect) {
    !e.Quiet? && !e.DropExpired?
  }

  /** The effect of a handler is what its machine request does alone. */
  ghost predicate Matched(env: A.Env, seal: Seal, db: A.Db, req: A.Request, now: u64) {
    var c, e := CallOf(env, seal, db, req, now), AuthEffects.EffectOf(env, db, req, now);
    && (c.None? ==> e.Quiet?)
    && (c.Some? ==>
          Alone(Seen(db, seal), c.value) == (AfterEffect(Seen(db, seal), e, SeedOf(req, seal)), Succeeds(e)))
  }

  lemma LoginMatched(env: A.Env, seal: Seal, db: A.Db, req: A.Request, now: u64)
    requires req.Login?
    ensures Matched(env, seal, db, req, now)
  {
    hide A.PasswordOwner;
  }

  lemma EnrollMatched(env: A.Env, seal: Seal, db: A.Db, req: A.Request, now: u64)
    requires req.Enroll?
    ensures Matched(env, seal, db, req, now)
  {
    hide A.AuthedUser, Enrolled;
  }

  lemma VerifyMatched(env: A.Env, seal: Seal, db: A.Db, req: A.Request, now: u64)
    requires req.Verify?
    ensures Matched(env, seal, db, req, now)
  {
    hide A.AuthedUser, RateLimit.Admitted, A.CodeFits;
  }

  lemma Step2Matched(env: A.Env, seal: Seal, db: A.Db, req: A.Request, now: u64)
    requires req.LoginStep2?
    ensures Matched(env, seal, db, req, now)
  {
    hide A.FindChallenge, RateLimit.Admitted, A.FactorAccepted, A.FactorRow, Passes, RowInput, GoodInput, DropChallenge,
         Consume;
    var found := A.FindChallenge(db, env.hashToken(req.challenge), 0);
    if found.Some? {
      PassesIfAccepted(env, seal, db, db.challenges[found.value].user, req.code, now);
    }
  }

  lemma DisableMatched(env: A.Env, seal: Seal, db: A.Db, req: A.Request, now: u64)
    requires req.Disable?
    ensures Matched(env, seal, db, req, now)
  {
    hide A.AuthedUser, RateLimit.Admitted, A.FactorAccepted, A.FactorRow, Passes, RowInput, GoodInput, Wiped, Consume;
    var caller := A.AuthedUser(env, db, req.bearer, now as nat);
    if caller.Some? {
      PassesIfAccepted(env, seal, db, caller.value, req.code, now);
    }
  }

  lemma AllMatched(env: A.Env, seal: Seal, db: A.Db, req: A.Request, now: u64)
    ensures Matched(env, seal, db, req, now)
  {
    match req
    case Register(_, _, _) =>
    case Login(_, _, _) => LoginMatched(env, seal, db, req, now);
    case Enroll(_, _) => EnrollMatched(env, seal, db, req, now);
    case Verify(_, _) => VerifyMatched(env, seal, db, req, now);
    case LoginStep2(_, _, _) => Step2Matched(env, seal, db, req, now);
    case Disable(_, _, _) => DisableMatched(env, seal, db, req, now);
  }

  predicate Succeeded(answer: A.Response) {
    answer.SessionIssued? || answer.ChallengeIssued? || answer.Enrolled? || answer == A.NoContent
  }

  lemma Step2Tells(env: A.Env, db: A.Db, req: A.Request, now: u64)
    requires req.LoginStep2?
    ensures var e, answer := AuthEffects.EffectOf(env, db, req, now), A.Exec(env, db, req, now).1;
            e.FactorLogin? <==> answer.SessionIssued? || answer == A.ServerError
  {
    hide A.FactorAccepted, A.FactorRow, A.AfterFactor, RateLimit.Admitted, RateLimit.Checked, RateLimit.Recorded,
         A.FindChallenge;
  }

  lemma AnswerSucceeds(env: A.Env, db: A.Db, req: A.Request, now: u64)
    ensures var e, answer := AuthEffects.EffectOf(env, db, req, now), A.Exec(env, db, req, now).1;
            Succeeds(e) <==> Succeeded(answer) || (req.LoginStep2? && answer == A.ServerError)
  {
    hide A.Exec, AuthEffects.EffectOf, AuthEffects.HasEffect, A.FactorAccepted, A.CodeFits, RateLimit.Admitted;
    AuthEffects.ExecHasEffect(env, db, req, now);
    AuthInvariants.EffectEnabled(env, db, req, now);
    if req.LoginStep2? {
      Step2Tells(env, db, req, now);
    }
  }

  lemma NoCall(env: A.Env, seal: Seal, db: A.Db, req: A.Request, now: u64)
    requires CallOf(env, seal, db, req, now).None?
    ensures var e := AuthEffects.EffectOf(env, db, req, now);
            !Succeeds(e) && AfterEffect(Seen(db, seal), e, SeedOf(req, seal)) == Seen(db, seal)
  {
    hide CallOf, AuthEffects.EffectOf;
    AllMatched(env, seal, db, req, now);
  }

  /** One handler run alone is one undisturbed request of the machine: the same tables, and success for
      success. (A second login step whose token cannot be drawn has by then redeemed its challenge; the
      machine's fault for that is at the session's INSERT.) A request that reaches no statement of the
      machine changes none of its tables. */
  lemma HandlerIsUndisturbed(env: A.Env, seal: Seal, db: A.Db, req: A.Request, now: u64, s: State, r: nat)
    requires AuthInvariants.Inv(db) && s.tables == Seen(db, seal) && r !in s.procs
    ensures var c, after := CallOf(env, seal, db, req, now), A.Exec(env, db, req, now);
            && (c.None? ==> Seen(after.0, seal) == s.tables && !Succeeded(after.1))
            && (c.Some? ==>
                  var s' := Undisturbed(s, r, c.value);
                  && s'.tables == Seen(after.0, seal)
                  && r in s'.procs && s'.procs[r].pc.Done?
                  && (s'.procs[r].pc.ok <==> Succeeded(after.1) || (req.LoginStep2? && after.1 == A.ServerError)))
  {
    hide A.Exec, CallOf, Alone, AfterEffect, Undisturbed, AuthEffects.HasEffect, AuthInvariants.Enabled, Seen;
    var e, after := AuthEffects.EffectOf(env, db, req, now), A.Exec(env, db, req, now);
    AuthEffects.ExecHasEffect(env, db, req, now);
    AuthInvariants.EffectEnabled(env, db, req, now);
    EffectSeen(env, seal, db, req, now, e, after.0);
    AllMatched(env, seal, db, req, now);
    AnswerSucceeds(env, db, req, now);
    var c := CallOf(env, seal, db, req, now);
    if c.Some? {
      UndisturbedIsAlone(s, r, c.value);
    } else {
      NoCall(env, seal, db, req, now);
    }
  }

  // ---------- runs ----------

  lemma {:induction false} RunMore(events: seq<Event>, e: Event, n: nat)
    ensures Run(events + Times(n, e)) == Repeat(Run(events), e, n)
    decreases n
  {
    hide Exec;
    if n == 0 {
      assert events + Times(0, e) == events;
    } else {
      assert (events + [e])[..|events|] == events;
      RunMore(events + [e], e, n - 1);
      assert events + Times(n, e) == events + [e] + Times(n - 1, e);
    }
  }

  lemma UndisturbedRun(events: seq<Event>, r: nat, c: Call) returns (after: seq<Event>)
    ensures Run(after) == Undisturbed(Run(events), r, c)
  {
    hide Exec;
    RunMore(events, Arrive(r, c.req), 1);
    var first := events + Times(1, Arrive(r, c.req));
    RunMore(first, First(c, r), 1);
    after := first + Times(1, First(c, r));
    RunMore(after, Rest(c, r), 12);
    after := after + Times(12, Rest(c, r));
  }

  lemma {:induction false} SomeUnused(ids: set<nat>) returns (r: nat)
    ensures forall id | id in ids :: id < r
  {
    if ids == {} {
      r := 0;
    } else {
      var id :| id in ids;
      var bound := SomeUnused(ids - {id});
      r := if bound <= id then id + 1 else bound;
      assert forall j | j in ids :: j == id || j in ids - {id};
    }
  }

  /** Every sequential run of the account handlers is, on these tables, a run of the machine. */
  lemma {:induction false} SequentialIsARun(env: A.Env, seal: Seal, evs: seq<AuthRuns.Event>, n: nat)
      returns (events: seq<Event>)
    requires n <= |evs|
    ensures Run(events).tables == Seen(AuthRuns.StateAt(env, evs, n), seal)
  {
    hide A.Exec, CallOf, Undisturbed, Exec;
    events := [];
    if n == 0 {
    } else {
      events := SequentialIsARun(env, seal, evs, n - 1);
      var db, ev := AuthRuns.StateAt(env, evs, n - 1), evs[n - 1];
      var r := SomeUnused(Run(events).procs.Keys);
      AuthRuns.StateInv(env, evs, n - 1);
      HandlerIsUndisturbed(env, seal, db, ev.req, ev.now, Run(events), r);
      var c := CallOf(env, seal, db, ev.req, ev.now);
      if c.Some? {
        events := UndisturbedRun(events, r, c.value);
      }
    }
  }
}
