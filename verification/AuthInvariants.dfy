/** What holds of the account tables after every request. */
module AuthInvariants {
  import opened Wrappers
  import opened MachineInts
  import opened RateLimit
  import opened AuthTables
  import opened AuthEffects
  import ProfileTable

  // ---------- when each effect can happen ----------

  ghost predicate Enabled(env: Env, db: Db, req: Request, now: u64, e: Effect) {
    match e
    case Quiet => true
    case PasswordLogin(user) =>
      req.Login? && PasswordOwner(env, db, req.email, req.password) == Some(user) && !StatusOf(db, user).Active?
          && req.token.Some?
    case NewChallenge(user) =>
      req.Login? && PasswordOwner(env, db, req.email, req.password) == Some(user) && StatusOf(db, user).Active?
          && req.token.Some?
    case NewEnrollment(user) =>
      req.Enroll? && AuthedUser(env, db, req.bearer, now as nat) == Some(user) && user !in db.secrets
          && MaterialComplete(req.material)
    case Activation(user) =>
      && req.Verify? && AuthedUser(env, db, req.bearer, now as nat) == Some(user)
      && Admitted(db.failures, user, now as nat)
      && StatusOf(db, user).Pending? && CodeFits(env, db.secrets[user], req.code, now)
    case DropExpired(id) => id in db.challenges && db.challenges[id].expiresAt <= now as nat
    case FactorLogin(user, id, row, minted) =>
      && req.LoginStep2? && id in db.challenges && db.challenges[id].user == user
      && db.challenges[id].hash == env.hashToken(req.challenge) && (now as nat) < db.challenges[id].expiresAt
      && Admitted(db.failures, user, now as nat) && FactorAccepted(env, db, user, req.code, now)
      && row == FactorRow(env, db, user, req.code) && minted == req.token.Some?
    case TurnedOff(user, row) =>
      && req.Disable? && AuthedUser(env, db, req.bearer, now as nat) == Some(user)
      && user in db.users && env.verifyPassword(req.password, db.users[user].passwordHash)
      && Admitted(db.failures, user, now as nat) && FactorAccepted(env, db, user, req.code, now)
      && row == FactorRow(env, db, user, req.code)
  }

  lemma EffectEnabled(env: Env, db: Db, req: Request, now: u64)
    ensures Enabled(env, db, req, now, EffectOf(env, db, req, now))
  {
    hide FactorAccepted, FactorRow, Admitted, AuthedUser, CodeFits, PasswordOwner, FindChallenge;
    match req
    case Register(_, _, _) =>
    case Login(_, _, _) =>
    case Enroll(_, _) =>
    case Verify(_, _) =>
    case Disable(_, _, _) => AuthedInUsers(env, db, req.bearer, now as nat);
    case LoginStep2(_, _, _) => Step2Enabled(env, db, req, now);
  }

  lemma AuthedInUsers(env: Env, db: Db, bearer: string, now: nat)
    ensures AuthedUser(env, db, bearer, now).Some? ==> AuthedUser(env, db, bearer, now).value in db.users
  {
  }

  lemma Step2Enabled(env: Env, db: Db, req: Request, now: u64)
    requires req.LoginStep2?
    ensures Enabled(env, db, req, now, Step2Effect(env, db, req.challenge, req.code, req.token, now))
  {
    hide FactorAccepted, FactorRow, Admitted;
  }

  /** A recovery code that is accepted names an unconsumed row of the account. */
  lemma RowFacts(env: Env, db: Db, user: nat, code: string)
    ensures var row := FactorRow(env, db, user, code);
            row.Some? ==>
              && row.value in db.recovery && db.recovery[row.value].user == user
              && db.recovery[row.value].consumedAt.None? && env.verifyCode(code, db.recovery[row.value].codeHash)
  {
    hide FirstMatch, Unconsumed;
    var target := RecoveryTarget(env, db, user, code);
  }

  // ---------- the invariant ----------

  /** Row ids are below their counters. */
  ghost predicate IdsBelow(db: Db) {
    && (forall id | id in db.users :: id < db.nextUser)
    && (forall id | id in db.sessions :: id < db.nextSession)
    && (forall id | id in db.recovery :: id < db.nextRecovery)
    && (forall id | id in db.challenges :: id < db.nextChallenge)
  }

  /** Every row belongs to an account; recovery rows to an enrolled one, challenges to an active one. */
  ghost predicate Linked(db: Db) {
    && (forall u | u in db.secrets :: u in db.users)
    && (forall id | id in db.sessions :: db.sessions[id].user in db.users)
    && (forall id | id in db.recovery :: db.recovery[id].user in db.secrets)
    && (forall id | id in db.challenges :: StatusOf(db, db.challenges[id].user).Active?)
  }

  /** E-mail addresses are unique up to case. */
  ghost predicate EmailsUnique(db: Db) {
    forall i, j | i in db.users && j in db.users
                  && ProfileTable.Fold(db.users[i].email) == ProfileTable.Fold(db.users[j].email) :: i == j
  }

  ghost predicate Inv(db: Db) {
    IdsBelow(db) && Linked(db) && EmailsUnique(db)
  }

  ghost predicate Registers(env: Env, db: Db, req: Request, db': Db) {
    && req.Register? && FindUser(db, env.lower(req.email), 0).None?
    && |req.password| >= 16 && req.hash.Some?
    && db'.users == db.users[db.nextUser := User(env.lower(req.email), req.hash.value)]
    && db'.nextUser == db.nextUser + 1
  }

  lemma AfterFactorUsers(env: Env, db: Db, user: nat, code: string, now: nat)
    ensures AfterFactor(env, db, user, code, now).users == db.users
    ensures AfterFactor(env, db, user, code, now).nextUser == db.nextUser
  {
  }

  predicate SameUsers(db: Db, db': Db) {
    db'.users == db.users && db'.nextUser == db.nextUser
  }

  lemma VerifyUsers(env: Env, db: Db, bearer: string, code: string, now: u64)
    ensures SameUsers(db, VerifyStep(env, db, bearer, code, now).0)
  {
    hide Admitted, Checked, Recorded, AuthedUser, CodeFits;
  }

  lemma Step2Users(env: Env, db: Db, challenge: string, code: string, token: Option<string>, now: u64)
    ensures SameUsers(db, Step2Step(env, db, challenge, code, token, now).0)
  {
    hide FactorAccepted, Admitted, Checked, Recorded, FindChallenge, AfterFactor;
    var t := now as nat;
    var found := FindChallenge(db, env.hashToken(challenge), 0);
    if found.Some? {
      var user := db.challenges[found.value].user;
      AfterFactorUsers(env, Pruned(db, user, t), user, code, t);
    }
  }

  lemma DisableUsers(env: Env, db: Db, bearer: string, password: string, code: string, now: u64)
    ensures SameUsers(db, DisableStep(env, db, bearer, password, code, now).0)
  {
    hide FactorAccepted, Admitted, Checked, Recorded, AuthedUser, AfterFactor;
    var t := now as nat;
    var caller := AuthedUser(env, db, bearer, t);
    if caller.Some? {
      AfterFactorUsers(env, Pruned(db, caller.value, t), caller.value, code, t);
    }
  }

  /** Only a registration changes the accounts: it adds one with a new address. */
  lemma {:induction false} UsersAfter(env: Env, db: Db, req: Request, now: u64)
    ensures var db' := Exec(env, db, req, now).0;
            (db'.users == db.users && db'.nextUser == db.nextUser) || Registers(env, db, req, db')
  {
    hide AuthedUser, PasswordOwner, FindUser, HashesOf, VerifyStep, Step2Step, DisableStep;
    match req
    case Register(_, _, _) =>
    case Login(_, _, _) =>
    case Enroll(_, _) =>
    case Verify(bearer, code) => VerifyUsers(env, db, bearer, code, now);
    case LoginStep2(challenge, code, token) => Step2Users(env, db, challenge, code, token, now);
    case Disable(bearer, password, code) => DisableUsers(env, db, bearer, password, code, now);
  }

  lemma RegistrationUnique(env: Env, db: Db, req: Request, db': Db)
    requires EmailsUnique(db) && IdsBelow(db) && Registers(env, db, req, db')
    ensures EmailsUnique(db') && forall id | id in db'.users :: id < db'.nextUser
  {
  }

  // ---------- each effect keeps the invariant ----------

  lemma SessionsKept(env: Env, db: Db, req: Request, now: u64, e: Effect, db': Db)
    requires IdsBelow(db) && Linked(db) && Enabled(env, db, req, now, e) && HasEffect(env, db, req, now, e, db')
    ensures forall id | id in db'.sessions :: id < db'.nextSession && db'.sessions[id].user in db'.users
  {
    hide FactorAccepted, CodeFits, RecoveryTarget, AuthedUser, PasswordOwner, FactorRow, RecoveryAfter,
         ChallengesAfter, SecretsAfter;
    if e.PasswordLogin? {
      OwnerInUsers(env, db, req.email, req.password);
    }
  }

  lemma SecretsKept(env: Env, db: Db, req: Request, now: u64, e: Effect, db': Db)
    requires IdsBelow(db) && Linked(db) && Enabled(env, db, req, now, e) && HasEffect(env, db, req, now, e, db')
    ensures forall u | u in db'.secrets :: u in db'.users
  {
    hide FactorAccepted, CodeFits, RecoveryTarget, AuthedUser, PasswordOwner, FactorRow, RecoveryAfter,
         ChallengesAfter, SessionsAfter;
    if e.NewEnrollment? {
      AuthedInUsers(env, db, req.bearer, now as nat);
    }
  }

  lemma RecoveryKept(env: Env, db: Db, req: Request, now: u64, e: Effect, db': Db)
    requires IdsBelow(db) && Linked(db) && Enabled(env, db, req, now, e) && HasEffect(env, db, req, now, e, db')
    ensures forall id | id in db'.recovery :: id < db'.nextRecovery && db'.recovery[id].user in db'.secrets
  {
    hide FactorAccepted, CodeFits, RecoveryTarget, AuthedUser, PasswordOwner, FactorRow, ChallengesAfter, SessionsAfter;
  }

  lemma ChallengesKept(env: Env, db: Db, req: Request, now: u64, e: Effect, db': Db)
    requires IdsBelow(db) && Linked(db) && Enabled(env, db, req, now, e) && HasEffect(env, db, req, now, e, db')
    ensures forall id | id in db'.challenges :: id < db'.nextChallenge && StatusOf(db', db'.challenges[id].user).Active?
  {
    hide FactorAccepted, CodeFits, RecoveryTarget, AuthedUser, PasswordOwner, FactorRow, RecoveryAfter, SessionsAfter;
  }

  lemma LinkedKept(env: Env, db: Db, req: Request, now: u64, e: Effect, db': Db)
    requires IdsBelow(db) && Linked(db) && Enabled(env, db, req, now, e) && HasEffect(env, db, req, now, e, db')
    ensures Linked(db')
    ensures forall id | id in db'.sessions :: id < db'.nextSession
    ensures forall id | id in db'.recovery :: id < db'.nextRecovery
    ensures forall id | id in db'.challenges :: id < db'.nextChallenge
  {
    hide IdsBelow, Enabled, HasEffect;
    SessionsKept(env, db, req, now, e, db');
    SecretsKept(env, db, req, now, e, db');
    RecoveryKept(env, db, req, now, e, db');
    ChallengesKept(env, db, req, now, e, db');
  }

  lemma OwnerInUsers(env: Env, db: Db, email: string, password: string)
    ensures PasswordOwner(env, db, email, password).Some? ==> PasswordOwner(env, db, email, password).value in db.users
  {
  }

  /** The password check names exactly the account with that address, up to case, whose hash the
      password verifies against. */
  lemma PasswordOwnerExact(env: Env, db: Db, email: string, password: string, user: nat)
    requires Inv(db)
    ensures PasswordOwner(env, db, email, password) == Some(user) <==>
            && user in db.users
            && ProfileTable.Fold(db.users[user].email) == ProfileTable.Fold(env.lower(email))
            && env.verifyPassword(password, db.users[user].passwordHash)
  {
    hide Linked, ProfileTable.Fold;
  }

  /** Every request keeps the invariant. */
  lemma {:induction false} InvKept(env: Env, db: Db, req: Request, now: u64)
    requires Inv(db)
    ensures Inv(Exec(env, db, req, now).0)
  {
    hide Exec, EffectOf, Enabled, HasEffect, Linked, FindUser, EmailsUnique;
    var db' := Exec(env, db, req, now).0;
    var e := EffectOf(env, db, req, now);
    ExecHasEffect(env, db, req, now);
    EffectEnabled(env, db, req, now);
    LinkedKept(env, db, req, now, e, db');
    UsersAfter(env, db, req, now);
    if Registers(env, db, req, db') {
      RegistrationUnique(env, db, req, db');
    } else {
      EmailsSame(db, db');
    }
  }

  lemma EmailsSame(db: Db, db': Db)
    requires EmailsUnique(db) && db'.users == db.users
    ensures EmailsUnique(db')
  {
  }

  // ---------- status ----------

  /** The status an effect leaves. */
  lemma StatusAfter(env: Env, db: Db, req: Request, now: u64, e: Effect, db': Db, user: nat)
    requires Enabled(env, db, req, now, e) && HasEffect(env, db, req, now, e, db')
    ensures StatusOf(db', user) ==
            if e == NewEnrollment(user) then Pending
            else if e == Activation(user) then Active
            else if e.TurnedOff? && e.user == user then Off
            else StatusOf(db, user)
  {
    hide FactorAccepted, CodeFits, AuthedUser, PasswordOwner, FactorRow, RecoveryAfter, ChallengesAfter, SessionsAfter,
         HashesOf, Admitted;
  }

  /** The second-factor status of an account moves only Off -> Pending by an enrollment its owner
      was answered, Pending -> Active by a code that fits its seed, and back to Off by a disable that
      passed the password and a second factor. */
  lemma {:induction false} StatusMoves(env: Env, db: Db, req: Request, now: u64, user: nat)
    requires Inv(db)
    ensures var r := Exec(env, db, req, now); var before, after := StatusOf(db, user), StatusOf(r.0, user);
            && (before == after
                || (before.Off? && after.Pending?) || (before.Pending? && after.Active?)
                    || (!before.Off? && after.Off?))
            && (before.Off? && after.Pending? <==>
                  req.Enroll? && r.1.Enrolled? && AuthedUser(env, db, req.bearer, now as nat) == Some(user))
            && (before.Pending? && after.Active? <==>
                  req.Verify? && r.1 == NoContent && AuthedUser(env, db, req.bearer, now as nat) == Some(user))
            && (before.Pending? && after.Active? ==> CodeFits(env, db.secrets[user], req.code, now))
            && (!before.Off? && after.Off? ==>
                  && req.Disable? && r.1 == NoContent && AuthedUser(env, db, req.bearer, now as nat) == Some(user)
                  && env.verifyPassword(req.password, db.users[user].passwordHash)
                  && FactorAccepted(env, db, user, req.code, now))
  {
    hide Exec, FactorAccepted, CodeFits, AuthedUser, PasswordOwner, FactorRow, RecoveryTarget, FindUser, HasEffect,
         Admitted;
    var e := EffectOf(env, db, req, now);
    ExecHasEffect(env, db, req, now);
    EffectEnabled(env, db, req, now);
    StatusAfter(env, db, req, now, e, Exec(env, db, req, now).0, user);
    hide EffectOf;
  }
}
