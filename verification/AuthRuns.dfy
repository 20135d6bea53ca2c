/** Whole runs of account requests, one request at a time from the empty tables. */
module AuthRuns {
  import opened Wrappers
  import opened MachineInts
  import opened AuthTables
  import opened AuthEffects
  import opened AuthInvariants
  import opened RecoveryCodes
  import opened Intervals
  import Totp

  datatype Event = Event(now: u64, req: Request)

  /** The tables after the first k requests. */
  ghost function StateAt(env: Env, evs: seq<Event>, k: nat): Db
    requires k <= |evs|
  {
    if k == 0 then EMPTY else Exec(env, StateAt(env, evs, k - 1), evs[k - 1].req, evs[k - 1].now).0
  }

  ghost function AnswerAt(env: Env, evs: seq<Event>, k: nat): Response
    requires k < |evs|
  {
    Exec(env, StateAt(env, evs, k), evs[k].req, evs[k].now).1
  }

  ghost function EffectAt(env: Env, evs: seq<Event>, k: nat): Effect
    requires k < |evs|
  {
    EffectOf(env, StateAt(env, evs, k), evs[k].req, evs[k].now)
  }

  lemma {:induction false} StateInv(env: Env, evs: seq<Event>, k: nat)
    requires k <= |evs|
    ensures Inv(StateAt(env, evs, k))
  {
    hide Exec;
    if k == 0 {
    } else {
      StateInv(env, evs, k - 1);
      InvKept(env, StateAt(env, evs, k - 1), evs[k - 1].req, evs[k - 1].now);
    }
  }

  /** Everything known about request k. */
  ghost predicate Stepped(env: Env, evs: seq<Event>, k: nat)
    requires k < |evs|
  {
    var db, db', ev, e := StateAt(env, evs, k), StateAt(env, evs, k + 1), evs[k], EffectAt(env, evs, k);
    && Inv(db) && Inv(db')
    && Enabled(env, db, ev.req, ev.now, e)
    && HasEffect(env, db, ev.req, ev.now, e, db')
    && Tells(ev.req, e, AnswerAt(env, evs, k))
  }

  lemma {:induction false} StepAt(env: Env, evs: seq<Event>, k: nat)
    requires k < |evs|
    ensures Stepped(env, evs, k)
  {
    hide Exec, EffectOf, Enabled, HasEffect, Tells, Inv;
    StateInv(env, evs, k);
    StateInv(env, evs, k + 1);
    ExecHasEffect(env, StateAt(env, evs, k), evs[k].req, evs[k].now);
    EffectEnabled(env, StateAt(env, evs, k), evs[k].req, evs[k].now);
  }

  // ---------- enrollments and activations ----------

  function RecoveryIds(db: Db, user: nat): set<nat> {
    set id | id in db.recovery && db.recovery[id].user == user
  }

  predicate SameSeed(a: Db, b: Db, user: nat) {
    && user in a.secrets && user in b.secrets
    && a.secrets[user].ciphertext == b.secrets[user].ciphertext && a.secrets[user].nonce == b.secrets[user].nonce
  }

  /** Request e enrolled the account, and up to request n that enrollment is still in place, with
      its ten recovery rows. */
  ghost predicate EnrolledBy(env: Env, evs: seq<Event>, n: nat, user: nat, e: nat)
    requires n <= |evs|
  {
    && e < n && EffectAt(env, evs, e) == NewEnrollment(user)
    && (forall k | e < k <= n :: SameSeed(StateAt(env, evs, k), StateAt(env, evs, e + 1), user))
    && RecoveryIds(StateAt(env, evs, n), user) == Range(StateAt(env, evs, e).nextRecovery, CODE_COUNT)
  }

  lemma SeedStays(env: Env, db: Db, req: Request, now: u64, e: Effect, db': Db, user: nat)
    requires Enabled(env, db, req, now, e) && HasEffect(env, db, req, now, e, db')
    requires user in db.secrets && user in db'.secrets
    ensures SameSeed(db', db, user)
  {
    hide FactorAccepted, CodeFits, RecoveryTarget, AuthedUser, PasswordOwner, FactorRow, RecoveryAfter,
         ChallengesAfter, SessionsAfter;
  }

  /** The rows of one account, before and after a request of any. */
  lemma RowOwnersStay(env: Env, db: Db, req: Request, now: u64, e: Effect, db': Db, user: nat, id: nat)
    requires IdsBelow(db) && Enabled(env, db, req, now, e) && HasEffect(env, db, req, now, e, db')
    requires user in db.secrets && user in db'.secrets
    ensures id in db'.recovery && db'.recovery[id].user == user <==> id in db.recovery && db.recovery[id].user == user
  {
    hide FactorAccepted, CodeFits, RecoveryTarget, AuthedUser, PasswordOwner, FactorRow, ChallengesAfter,
         SessionsAfter, HashesOf;
    match e
    case Quiet =>
    case PasswordLogin(_) =>
    case NewChallenge(_) =>
    case NewEnrollment(_) =>
    case Activation(_) =>
    case DropExpired(_) =>
    case FactorLogin(_, _, _, _) =>
    case TurnedOff(_, _) =>
  }

  /** One request leaves an enrolled account's seed and recovery row ids alone, unless it turns it off. */
  lemma EnrollmentStays(env: Env, db: Db, req: Request, now: u64, e: Effect, db': Db, user: nat)
    requires Inv(db) && Enabled(env, db, req, now, e) && HasEffect(env, db, req, now, e, db')
    requires user in db.secrets && user in db'.secrets
    ensures SameSeed(db', db, user) && RecoveryIds(db', user) == RecoveryIds(db, user)
  {
    hide Enabled, HasEffect, SameSeed, Linked, EmailsUnique, IdsBelow;
    SeedStays(env, db, req, now, e, db', user);
    forall id: nat
      ensures id in RecoveryIds(db', user) <==> id in RecoveryIds(db, user)
    {
      RowOwnersStay(env, db, req, now, e, db', user, id);
    }
  }

  lemma EnrolledOneMore(env: Env, evs: seq<Event>, n: nat, user: nat, e: nat)
    requires n < |evs| && EnrolledBy(env, evs, n, user, e)
    requires SameSeed(StateAt(env, evs, n + 1), StateAt(env, evs, n), user)
    requires RecoveryIds(StateAt(env, evs, n + 1), user) == RecoveryIds(StateAt(env, evs, n), user)
    ensures EnrolledBy(env, evs, n + 1, user, e)
  {
    hide Exec, EffectOf, StateAt, RecoveryIds;
  }

  lemma EnrolledNow(env: Env, evs: seq<Event>, e: nat, user: nat)
    requires e < |evs| && EffectAt(env, evs, e) == NewEnrollment(user) && user in StateAt(env, evs, e + 1).secrets
    requires RecoveryIds(StateAt(env, evs, e + 1), user) == Range(StateAt(env, evs, e).nextRecovery, CODE_COUNT)
    ensures EnrolledBy(env, evs, e + 1, user, e)
  {
    hide Exec, EffectOf, StateAt, RecoveryIds;
  }

  lemma RowsInserted(db: Db, db': Db, user: nat, hashes: seq<string>)
    requires |hashes| == CODE_COUNT && db'.recovery == db.recovery + CodeRows(user, hashes, db.nextRecovery)
    requires forall id | id in db.recovery :: db.recovery[id].user != user
    ensures RecoveryIds(db', user) == Range(db.nextRecovery, CODE_COUNT)
  {
  }

  /** A fresh enrollment has exactly the ten rows inserted with it. */
  lemma EnrollmentStarts(env: Env, db: Db, req: Request, now: u64, db': Db, user: nat)
    requires Inv(db) && Enabled(env, db, req, now, NewEnrollment(user))
        && HasEffect(env, db, req, now, NewEnrollment(user), db')
    ensures user in db'.secrets && RecoveryIds(db', user) == Range(db.nextRecovery, CODE_COUNT)
    ensures StatusOf(db', user).Pending?
    ensures db'.secrets[user].ciphertext == req.material.sealed.value.0
        && db'.secrets[user].nonce == req.material.sealed.value.1
  {
    hide AuthedUser, HashesOf, RecoveryIds, Range, EmailsUnique, IdsBelow;
    assert forall id | id in db.recovery :: db.recovery[id].user != user;
    RowsInserted(db, db', user, HashesOf(req.material));
  }

  lemma SecretAppears(env: Env, db: Db, req: Request, now: u64, e: Effect, db': Db, user: nat)
    requires HasEffect(env, db, req, now, e, db') && user !in db.secrets && user in db'.secrets
    ensures e == NewEnrollment(user)
  {
  }

  lemma EmptyIsOff(user: nat)
    ensures StatusOf(EMPTY, user).Off? && user !in EMPTY.secrets
  {
  }

  /** Every enrolled account was enrolled by some earlier request, still in place. */
  lemma {:induction false} EnrollmentOrigin(env: Env, evs: seq<Event>, n: nat, user: nat) returns (e: nat)
    requires n <= |evs| && user in StateAt(env, evs, n).secrets
    ensures EnrolledBy(env, evs, n, user, e)
  {
    hide Exec, EffectOf, Enabled, HasEffect, Tells, Inv, RecoveryIds, SameSeed, EnrolledBy;
    EmptyIsOff(user);
    var m := n - 1;
    StepAt(env, evs, m);
    var db, db', ev := StateAt(env, evs, m), StateAt(env, evs, n), evs[m];
    if user in db.secrets {
      e := EnrollmentOrigin(env, evs, m, user);
      EnrollmentStays(env, db, ev.req, ev.now, EffectAt(env, evs, m), db', user);
      EnrolledOneMore(env, evs, m, user, e);
    } else {
      SecretAppears(env, db, ev.req, ev.now, EffectAt(env, evs, m), db', user);
      EnrollmentStarts(env, db, ev.req, ev.now, db', user);
      e := m;
      EnrolledNow(env, evs, e, user);
    }
  }

  /** In every run an account has exactly ten recovery rows if it is enrolled or pending, else none. */
  lemma EnrollmentShape(env: Env, evs: seq<Event>, n: nat, user: nat)
    requires n <= |evs|
    ensures |RecoveryIds(StateAt(env, evs, n), user)| == if user in StateAt(env, evs, n).secrets then 10 else 0
  {
    hide Exec, EffectAt;
    StateInv(env, evs, n);
    if user in StateAt(env, evs, n).secrets {
      var e := EnrollmentOrigin(env, evs, n, user);
    } else {
      assert RecoveryIds(StateAt(env, evs, n), user) == {};
    }
  }

  /** Request v activated the account, which has stayed active with the same secret row up to n. */
  ghost predicate ActivatedBy(env: Env, evs: seq<Event>, n: nat, user: nat, v: nat)
    requires n <= |evs|
  {
    && v < n && EffectAt(env, evs, v) == Activation(user)
    && forall k | v < k <= n :: StatusOf(StateAt(env, evs, k), user).Active?
  }

  lemma BecomesActive(env: Env, db: Db, req: Request, now: u64, e: Effect, db': Db, user: nat)
    requires HasEffect(env, db, req, now, e, db') && !StatusOf(db, user).Active? && StatusOf(db', user).Active?
    ensures e == Activation(user)
  {
  }

  lemma {:induction false} ActivationOrigin(env: Env, evs: seq<Event>, n: nat, user: nat) returns (v: nat)
    requires n <= |evs| && StatusOf(StateAt(env, evs, n), user).Active?
    ensures ActivatedBy(env, evs, n, user, v)
  {
    hide Exec, EffectOf, Enabled, HasEffect, Tells, Inv, StatusOf;
    EmptyIsOff(user);
    var m := n - 1;
    StepAt(env, evs, m);
    if StatusOf(StateAt(env, evs, m), user).Active? {
      v := ActivationOrigin(env, evs, m, user);
    } else {
      BecomesActive(env, StateAt(env, evs, m), evs[m].req, evs[m].now, EffectAt(env, evs, m), StateAt(env, evs, n),
          user);
      v := m;
    }
  }

  /** An active account's seed has been verified since it was enrolled: request e stored the seed it
      still has, and a later request v presented a code of a step within one of its clock. */
  lemma {:induction false} ActiveSeedVerified(env: Env, evs: seq<Event>, n: nat, user: nat) returns (e: nat, v: nat)
    requires n <= |evs| && StatusOf(StateAt(env, evs, n), user).Active?
    ensures e < v < n && EnrolledBy(env, evs, n, user, e) && ActivatedBy(env, evs, n, user, v)
    ensures evs[e].req.Enroll? && AnswerAt(env, evs, e).Enrolled? && evs[v].req.Verify?
        && AnswerAt(env, evs, v) == NoContent
    ensures AuthedUser(env, StateAt(env, evs, e), evs[e].req.bearer, evs[e].now as nat) == Some(user)
    ensures AuthedUser(env, StateAt(env, evs, v), evs[v].req.bearer, evs[v].now as nat) == Some(user)
    ensures var secret := StateAt(env, evs, n).secrets[user];
            && evs[e].req.material.sealed == Some((secret.ciphertext, secret.nonce))
            && (var seed := env.decrypt(secret.ciphertext, secret.nonce);
                seed.Some? && Totp.Accepts(env.mac, seed.value, evs[v].now, evs[v].req.code))
  {
    hide Exec, EffectOf, HasEffect, Inv, AuthedUser, RecoveryIds, Totp.Accepts;
    v := ActivationOrigin(env, evs, n, user);
    e := EnrollmentOrigin(env, evs, n, user);
    StepAt(env, evs, e);
    StepAt(env, evs, v);
    EnrollmentStarts(env, StateAt(env, evs, e), evs[e].req, evs[e].now, StateAt(env, evs, e + 1), user);
    EnrolledBeforeActive(env, evs, n, user, e, v);
  }

  lemma EnrolledBeforeActive(env: Env, evs: seq<Event>, n: nat, user: nat, e: nat, v: nat)
    requires n <= |evs| && EnrolledBy(env, evs, n, user, e) && ActivatedBy(env, evs, n, user, v)
    ensures e < v && SameSeed(StateAt(env, evs, v), StateAt(env, evs, e + 1), user)
    ensures SameSeed(StateAt(env, evs, n), StateAt(env, evs, e + 1), user)
  {
    hide Exec, EffectOf, HasEffect, Inv, AuthedUser, RecoveryIds, CodeFits;
    StepAt(env, evs, e);
    if v < e {
      StillActive(env, evs, n, user, v, e);
      assert false;
    }
  }

  lemma StillActive(env: Env, evs: seq<Event>, n: nat, user: nat, v: nat, k: nat)
    requires n <= |evs| && ActivatedBy(env, evs, n, user, v) && v < k <= n
    ensures user in StateAt(env, evs, k).secrets
  {
    hide Exec, EffectOf;
    assert StatusOf(StateAt(env, evs, k), user).Active?;
  }
}
