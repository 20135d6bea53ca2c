/** What one request can do to sessions, secrets, recovery rows and challenges, and what every
    request keeps. */
module AuthEffects {
  import opened Wrappers
  import opened MachineInts
  import opened RateLimit
  import opened AuthTables
  import opened RecoveryCodes
  import Totp

  datatype Effect =
    | Quiet
    | PasswordLogin(user: nat)
    | NewChallenge(user: nat)
    | NewEnrollment(user: nat)
    | Activation(user: nat)
    | DropExpired(id: nat)
    | FactorLogin(user: nat, id: nat, row: Option<nat>, minted: bool)
    | TurnedOff(user: nat, row: Option<nat>)

  /** The account whose password, limiter and second factor a disable request passes. */
  ghost predicate MayDisable(env: Env, db: Db, bearer: string, password: string, code: string, now: u64) {
    var caller := AuthedUser(env, db, bearer, now as nat);
    && caller.Some?
    && env.verifyPassword(password, db.users[caller.value].passwordHash)
    && Admitted(db.failures, caller.value, now as nat)
    && FactorAccepted(env, db, caller.value, code, now)
  }

  ghost predicate MayActivate(env: Env, db: Db, bearer: string, code: string, now: u64) {
    var caller := AuthedUser(env, db, bearer, now as nat);
    && caller.Some?
    && Admitted(db.failures, caller.value, now as nat)
    && StatusOf(db, caller.value).Pending?
    && CodeFits(env, db.secrets[caller.value], code, now)
  }

  ghost function Step2Effect(env: Env, db: Db, challenge: string, code: string, token: Option<string>, now: u64)
      : Effect {
    var found := FindChallenge(db, env.hashToken(challenge), 0);
    if challenge == "" || code == "" || found.None? then Quiet
    else
      var c := db.challenges[found.value];
      if c.expiresAt <= now as nat then DropExpired(found.value)
      else if !Admitted(db.failures, c.user, now as nat) || !FactorAccepted(env, db, c.user, code, now) then Quiet
      else FactorLogin(c.user, found.value, FactorRow(env, db, c.user, code), token.Some?)
  }

  ghost function EffectOf(env: Env, db: Db, req: Request, now: u64): Effect {
    match req
    case Register(_, _, _) => Quiet
    case Login(email, password, token) =>
      var owner := PasswordOwner(env, db, email, password);
      if owner.None? || token.None? then Quiet
      else if StatusOf(db, owner.value).Active? then NewChallenge(owner.value)
      else PasswordLogin(owner.value)
    case Enroll(bearer, m) =>
      var caller := AuthedUser(env, db, bearer, now as nat);
      if caller.None? || caller.value in db.secrets || !MaterialComplete(m) then Quiet else NewEnrollment(caller.value)
    case Verify(bearer, code) =>
      if MayActivate(env, db, bearer, code, now) then Activation(AuthedUser(env, db, bearer, now as nat).value)
          else Quiet
    case LoginStep2(challenge, code, token) => Step2Effect(env, db, challenge, code, token, now)
    case Disable(bearer, password, code) =>
      if MayDisable(env, db, bearer, password, code, now)
      then var user := AuthedUser(env, db, bearer, now as nat).value; TurnedOff(user, FactorRow(env, db, user, code))
      else Quiet
  }

  function Marked(recovery: map<nat, RecoveryRow>, row: Option<nat>, now: nat): map<nat, RecoveryRow> {
    if row.Some? && row.value in recovery then recovery[row.value := recovery[row.value].(consumedAt := Some(now))]
        else recovery
  }

  function TokenOf(req: Request): Option<string> {
    match req
    case Login(_, _, token) => token
    case LoginStep2(_, _, token) => token
    case Register(_, _, _) => None
    case Enroll(_, _) => None
    case Verify(_, _) => None
    case Disable(_, _, _) => None
  }

  predicate MintsSession(e: Effect) {
    e.PasswordLogin? || (e.FactorLogin? && e.minted)
  }

  function SessionsAfter(env: Env, db: Db, req: Request, now: u64, e: Effect): map<nat, Session> {
    if MintsSession(e) && TokenOf(req).Some?
    then db.sessions[db.nextSession :=
        Session(e.user, env.hashToken(TokenOf(req).value), now as nat + SESSION_TTL_SECS)]
    else db.sessions
  }

  function SecretsAfter(db: Db, req: Request, now: u64, e: Effect): map<nat, Secret> {
    match e
    case NewEnrollment(user) =>
      if req.Enroll? && req.material.sealed.Some?
      then db.secrets[user :=
          Secret(req.material.sealed.value.0, req.material.sealed.value.1, Some(now as nat + PENDING_SECS), None)]
      else db.secrets
    case Activation(user) =>
      if user in db.secrets
          then db.secrets[user := db.secrets[user].(enrolledAt := Some(now as nat), pendingUntil := None)]
      else db.secrets
    case TurnedOff(user, _) => db.secrets - {user}
    case Quiet => db.secrets
    case PasswordLogin(_) => db.secrets
    case NewChallenge(_) => db.secrets
    case DropExpired(_) => db.secrets
    case FactorLogin(_, _, _, _) => db.secrets
  }

  function RecoveryAfter(db: Db, req: Request, now: u64, e: Effect): map<nat, RecoveryRow> {
    match e
    case NewEnrollment(user) =>
      if req.Enroll? && MaterialComplete(req.material)
          then db.recovery + CodeRows(user, HashesOf(req.material), db.nextRecovery)
      else db.recovery
    case FactorLogin(_, _, row, _) => Marked(db.recovery, row, now as nat)
    case TurnedOff(user, row) =>
      var marked := Marked(db.recovery, row, now as nat);
      map id | id in marked && marked[id].user != user :: marked[id]
    case Quiet => db.recovery
    case PasswordLogin(_) => db.recovery
    case NewChallenge(_) => db.recovery
    case DropExpired(_) => db.recovery
    case Activation(_) => db.recovery
  }

  function ChallengesAfter(env: Env, db: Db, req: Request, now: u64, e: Effect): map<nat, Challenge> {
    match e
    case NewChallenge(user) =>
      if TokenOf(req).Some?
      then db.challenges[db.nextChallenge :=
          Challenge(user, env.hashToken(TokenOf(req).value), now as nat + TOTP_CHALLENGE_TTL_SECS)]
      else db.challenges
    case DropExpired(id) => db.challenges - {id}
    case FactorLogin(_, id, _, _) => db.challenges - {id}
    case TurnedOff(user, _) => map id | id in db.challenges && db.challenges[id].user != user :: db.challenges[id]
    case Quiet => db.challenges
    case PasswordLogin(_) => db.challenges
    case NewEnrollment(_) => db.challenges
    case Activation(_) => db.challenges
  }

  /** The tables after a request are its effect on the tables before. */
  ghost predicate HasEffect(env: Env, db: Db, req: Request, now: u64, e: Effect, db': Db) {
    && (forall id | id in db.users :: id in db'.users)
    && db'.sessions == SessionsAfter(env, db, req, now, e)
    && db'.nextSession == db.nextSession + (if MintsSession(e) then 1 else 0)
    && db'.secrets == SecretsAfter(db, req, now, e)
    && db'.recovery == RecoveryAfter(db, req, now, e)
    && db'.nextRecovery == db.nextRecovery + (if e.NewEnrollment? then CODE_COUNT else 0)
    && db'.challenges == ChallengesAfter(env, db, req, now, e)
    && db'.nextChallenge == db.nextChallenge + (if e.NewChallenge? then 1 else 0)
  }

  lemma FactorRowInTable(env: Env, db: Db, user: nat, code: string, now: nat)
    ensures AfterFactor(env, db, user, code, now).recovery == Marked(db.recovery, FactorRow(env, db, user, code), now)
    ensures AfterFactor(env, db, user, code, now) == db.(recovery := AfterFactor(env, db, user, code, now).recovery)
  {
  }

  lemma RowsIgnoreFailures(env: Env, a: Db, b: Db, user: nat, code: string)
    requires b == a.(failures := b.failures)
    ensures FactorRow(env, a, user, code) == FactorRow(env, b, user, code)
  {
    UnconsumedSame(a, b, user, 0);
    FirstMatchSame(env, a, b, Unconsumed(a, user, 0), code);
  }

  lemma {:induction false} UnconsumedSame(a: Db, b: Db, user: nat, from: nat)
    requires a.recovery == b.recovery && a.nextRecovery == b.nextRecovery
    ensures Unconsumed(a, user, from) == Unconsumed(b, user, from)
    decreases a.nextRecovery - from
  {
    if from >= a.nextRecovery {
    } else {
      UnconsumedSame(a, b, user, from + 1);
    }
  }

  lemma {:induction false} FirstMatchSame(env: Env, a: Db, b: Db, ids: seq<nat>, code: string)
    requires a.recovery == b.recovery && forall id | id in ids :: id in a.recovery
    requires forall i, j | 0 <= i < j < |ids| :: ids[i] < ids[j]
    ensures FirstMatch(env, a, ids, code) == FirstMatch(env, b, ids, code)
  {
    if ids == [] {
    } else {
      FirstMatchSame(env, a, b, ids[1..], code);
    }
  }

  /** The second factor does not read the failure times. */
  lemma FactorIgnoresFailures(env: Env, a: Db, b: Db, user: nat, code: string, now: u64)
    requires b == a.(failures := b.failures)
    ensures FactorAccepted(env, a, user, code, now) <==> FactorAccepted(env, b, user, code, now)
    ensures RecoveryTarget(env, a, user, code) == RecoveryTarget(env, b, user, code)
  {
    UnconsumedSame(a, b, user, 0);
    FirstMatchSame(env, a, b, Unconsumed(a, user, 0), code);
  }

  /** The answer tells the effect apart, and carries the minted token. */
  predicate Tells(req: Request, e: Effect, resp: Response) {
    && (resp.SessionIssued? <==> MintsSession(e)) && (MintsSession(e) ==> TokenOf(req) == Some(resp.session))
    && (resp.ChallengeIssued? <==> e.NewChallenge?) && (e.NewChallenge? ==> TokenOf(req) == Some(resp.challenge))
    && (resp.Enrolled? <==> e.NewEnrollment?)
    && (resp == NoContent <==> e.Activation? || e.TurnedOff?)
  }

  lemma FactorLoginHasEffect(env: Env, db: Db, id: nat, req: Request, now: u64)
    requires req.LoginStep2? && id in db.challenges
    ensures var user := db.challenges[id].user; var t := now as nat;
            var r := MintSession(env, DropChallenge(AfterFactor(env, Pruned(db, user, t), user, req.code, t), id),
                user, req.token, t);
            var e := FactorLogin(user, id, FactorRow(env, db, user, req.code), req.token.Some?);
            HasEffect(env, db, req, now, e, r.0) && Tells(req, e, r.1)
  {
    hide FactorRow, Checked, AfterFactor;
    var user := db.challenges[id].user;
    var db1 := Pruned(db, user, now as nat);
    RowsIgnoreFailures(env, db, db1, user, req.code);
    FactorRowInTable(env, db1, user, req.code, now as nat);
  }

  lemma QuietHasEffect(env: Env, db: Db, req: Request, now: u64, failures: FailureMap, resp: Response)
    requires resp == Invalid || resp == Unauthorized || resp == RateLimited || resp == Conflict || resp == ServerError
    ensures HasEffect(env, db, req, now, Quiet, db.(failures := failures)) && Tells(req, Quiet, resp)
  {
  }

  lemma ExpiredHasEffect(env: Env, db: Db, req: Request, now: u64, id: nat)
    ensures HasEffect(env, db, req, now, DropExpired(id), DropChallenge(db, id))
        && Tells(req, DropExpired(id), Unauthorized)
  {
  }

  lemma Step2HasEffect(env: Env, db: Db, req: Request, now: u64)
    requires req.LoginStep2?
    ensures var r := Step2Step(env, db, req.challenge, req.code, req.token, now);
            var e := Step2Effect(env, db, req.challenge, req.code, req.token, now);
            HasEffect(env, db, req, now, e, r.0) && Tells(req, e, r.1)
  {
    hide FactorAccepted, FactorRow, Admitted, Checked, Recorded, AfterFactor, MintSession, HasEffect, Tells,
         FindChallenge;
    var t := now as nat;
    QuietHasEffect(env, db, req, now, db.failures, Invalid);
    QuietHasEffect(env, db, req, now, db.failures, Unauthorized);
    var found := FindChallenge(db, env.hashToken(req.challenge), 0);
    if found.Some? {
      var user := db.challenges[found.value].user;
      ExpiredHasEffect(env, db, req, now, found.value);
      QuietHasEffect(env, db, req, now, Pruned(db, user, t).failures, RateLimited);
      QuietHasEffect(env, db, req, now, Failed(Pruned(db, user, t), user, t).failures, Unauthorized);
      FactorLoginHasEffect(env, db, found.value, req, now);
    }
  }

  lemma WipeHasEffect(env: Env, db: Db, user: nat, req: Request, now: u64)
    requires req.Disable?
    ensures var e := TurnedOff(user, FactorRow(env, db, user, req.code));
            var db' := AfterFactor(env, Pruned(db, user, now as nat), user, req.code, now as nat);
            && HasEffect(env, db, req, now, e, Wipe(db', user))
            && Tells(req, e, NoContent)
  {
    hide FactorRow, Checked, AfterFactor;
    var db1 := Pruned(db, user, now as nat);
    RowsIgnoreFailures(env, db, db1, user, req.code);
    FactorRowInTable(env, db1, user, req.code, now as nat);
  }

  lemma DisableHasEffect(env: Env, db: Db, req: Request, now: u64)
    requires req.Disable?
    ensures var r := DisableStep(env, db, req.bearer, req.password, req.code, now);
            var e := EffectOf(env, db, req, now);
            HasEffect(env, db, req, now, e, r.0) && Tells(req, e, r.1)
  {
    hide FactorAccepted, FactorRow, Admitted, Checked, Recorded, AfterFactor, AuthedUser, HasEffect, Tells, Wipe;
    var t := now as nat;
    QuietHasEffect(env, db, req, now, db.failures, Unauthorized);
    var caller := AuthedUser(env, db, req.bearer, t);
    if caller.Some? {
      var user := caller.value;
      QuietHasEffect(env, db, req, now, Pruned(db, user, t).failures, RateLimited);
      QuietHasEffect(env, db, req, now, Failed(Pruned(db, user, t), user, t).failures, Unauthorized);
      WipeHasEffect(env, db, user, req, now);
    }
  }

  lemma ActivationHasEffect(env: Env, db: Db, req: Request, now: u64, user: nat, failures: FailureMap)
    requires req.Verify? && user in db.secrets
    ensures var secret := db.secrets[user].(enrolledAt := Some(now as nat), pendingUntil := None);
            var db' := db.(failures := failures, secrets := db.secrets[user := secret]);
            HasEffect(env, db, req, now, Activation(user), db') && Tells(req, Activation(user), NoContent)
  {
  }

  lemma VerifyHasEffect(env: Env, db: Db, req: Request, now: u64)
    requires req.Verify?
    ensures var r := VerifyStep(env, db, req.bearer, req.code, now); var e := EffectOf(env, db, req, now);
            HasEffect(env, db, req, now, e, r.0) && Tells(req, e, r.1)
  {
    hide Admitted, Checked, Recorded, AuthedUser, Totp.Accepts, HasEffect, Tells;
    var t := now as nat;
    QuietHasEffect(env, db, req, now, db.failures, Unauthorized);
    var caller := AuthedUser(env, db, req.bearer, t);
    if caller.Some? {
      var user := caller.value;
      var failures := Checked(db.failures, user, t);
      QuietHasEffect(env, db, req, now, failures, RateLimited);
      QuietHasEffect(env, db, req, now, failures, Invalid);
      QuietHasEffect(env, db, req, now, failures, ServerError);
      QuietHasEffect(env, db, req, now, Recorded(failures, user, t), Unauthorized);
      if StatusOf(db, user).Pending? {
        ActivationHasEffect(env, db, req, now, user, failures);
      }
    }
  }

  lemma LoggedInHasEffect(env: Env, db: Db, req: Request, now: u64, user: nat)
    requires req.Login? && req.token.Some?
    ensures var r := MintSession(env, db, user, req.token, now as nat); var e := PasswordLogin(user);
            HasEffect(env, db, req, now, e, r.0) && Tells(req, e, r.1)
  {
  }

  lemma ChallengedHasEffect(env: Env, db: Db, req: Request, now: u64, user: nat)
    requires req.Login? && req.token.Some?
    ensures var r := MintChallenge(env, db, user, req.token, now as nat); var e := NewChallenge(user);
            HasEffect(env, db, req, now, e, r.0) && Tells(req, e, r.1)
  {
  }

  lemma LoginHasEffect(env: Env, db: Db, req: Request, now: u64)
    requires req.Login?
    ensures var r := LoginStep(env, db, req.email, req.password, req.token, now as nat);
            var e := EffectOf(env, db, req, now);
            HasEffect(env, db, req, now, e, r.0) && Tells(req, e, r.1)
  {
    hide PasswordOwner, HasEffect, Tells;
    QuietHasEffect(env, db, req, now, db.failures, Unauthorized);
    QuietHasEffect(env, db, req, now, db.failures, ServerError);
    var owner := PasswordOwner(env, db, req.email, req.password);
    if owner.Some? && req.token.Some? {
      LoggedInHasEffect(env, db, req, now, owner.value);
      ChallengedHasEffect(env, db, req, now, owner.value);
    }
  }

  lemma EnrolledHasEffect(env: Env, db: Db, req: Request, now: u64, user: nat)
    requires req.Enroll? && MaterialComplete(req.material)
    ensures var db' := WithEnrollment(db, user, req.material, now as nat + PENDING_SECS); var e := NewEnrollment(user);
            HasEffect(env, db, req, now, e, db') && Tells(req, e, Enrolled(req.material.codes.value))
  {
    hide HashesOf, CodeRows;
  }

  lemma EnrollHasEffect(env: Env, db: Db, req: Request, now: u64)
    requires req.Enroll?
    ensures var r := EnrollStep(env, db, req.bearer, req.material, now as nat); var e := EffectOf(env, db, req, now);
            HasEffect(env, db, req, now, e, r.0) && Tells(req, e, r.1)
  {
    hide AuthedUser, HasEffect, Tells, WithEnrollment, MaterialComplete;
    QuietHasEffect(env, db, req, now, db.failures, Unauthorized);
    QuietHasEffect(env, db, req, now, db.failures, Conflict);
    QuietHasEffect(env, db, req, now, db.failures, ServerError);
    var caller := AuthedUser(env, db, req.bearer, now as nat);
    if caller.Some? && MaterialComplete(req.material) {
      EnrolledHasEffect(env, db, req, now, caller.value);
    }
  }

  lemma RegisteredHasEffect(env: Env, db: Db, req: Request, now: u64, user: User)
    requires req.Register?
    ensures var db' := db.(users := db.users[db.nextUser := user], nextUser := db.nextUser + 1);
            HasEffect(env, db, req, now, Quiet, db') && Tells(req, Quiet, Created)
  {
  }

  lemma RegisterHasEffect(env: Env, db: Db, req: Request, now: u64)
    requires req.Register?
    ensures var r := RegisterStep(env, db, req.email, req.password, req.hash);
            HasEffect(env, db, req, now, Quiet, r.0) && Tells(req, Quiet, r.1)
  {
    hide FindUser, HasEffect, Tells;
    QuietHasEffect(env, db, req, now, db.failures, Invalid);
    QuietHasEffect(env, db, req, now, db.failures, ServerError);
    QuietHasEffect(env, db, req, now, db.failures, Conflict);
    if req.hash.Some? {
      RegisteredHasEffect(env, db, req, now, User(env.lower(req.email), req.hash.value));
    }
  }

  /** Every request has its effect, and its answer tells the effect apart. */
  lemma {:induction false} ExecHasEffect(env: Env, db: Db, req: Request, now: u64)
    ensures var r := Exec(env, db, req, now); var e := EffectOf(env, db, req, now);
            HasEffect(env, db, req, now, e, r.0) && Tells(req, e, r.1)
  {
    hide HasEffect, Tells, Step2Step, Step2Effect, DisableStep, VerifyStep, EnrollStep, LoginStep, RegisterStep,
         MayActivate, MayDisable;
    match req
    case LoginStep2(_, _, _) => Step2HasEffect(env, db, req, now);
    case Disable(_, _, _) => DisableHasEffect(env, db, req, now);
    case Register(_, _, _) => RegisterHasEffect(env, db, req, now);
    case Login(_, _, _) => LoginHasEffect(env, db, req, now);
    case Enroll(_, _) => EnrollHasEffect(env, db, req, now);
    case Verify(_, _) => VerifyHasEffect(env, db, req, now);
  }
}
