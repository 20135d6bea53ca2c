/** What an account holder may rely on: every recovery code shown at an enrollment is accepted until it
    is used or the second factor is turned off. */
module RecoveryRuns {
  import opened Wrappers
  import opened MachineInts
  import opened AuthTables
  import opened AuthEffects
  import opened AuthInvariants
  import opened AuthRuns
  import opened LimiterRuns
  import opened LoginRuns
  import opened AuthAnswers
  import opened FactorRuns
  import opened Intervals
  import RecoveryCodes
  import Totp

  lemma MarkedIdentity(recovery: map<nat, RecoveryRow>, mark: Option<nat>, now: nat, id: nat)
    requires id in Marked(recovery, mark, now)
    ensures id in recovery && Marked(recovery, mark, now)[id].user == recovery[id].user
    ensures Marked(recovery, mark, now)[id].codeHash == recovery[id].codeHash
  {
  }

  /** One request leaves account and hash of a row as they are, and uses no old id for a new row. */
  lemma RowIdentity(env: Env, db: Db, req: Request, now: u64, e: Effect, db': Db, id: nat)
    requires Enabled(env, db, req, now, e) && HasEffect(env, db, req, now, e, db')
    requires id < db.nextRecovery && id in db'.recovery
    ensures id in db.recovery && db'.recovery[id].user == db.recovery[id].user
    ensures db'.recovery[id].codeHash == db.recovery[id].codeHash
  {
    hide Enabled, ChallengesAfter, SessionsAfter, SecretsAfter, HashesOf, Marked;
    match e
    case FactorLogin(_, _, mark, _) => MarkedIdentity(db.recovery, mark, now as nat, id);
    case TurnedOff(_, mark) => MarkedIdentity(db.recovery, mark, now as nat, id);
    case NewEnrollment(_) =>
    case Quiet =>
    case PasswordLogin(_) =>
    case NewChallenge(_) =>
    case Activation(_) =>
    case DropExpired(_) =>
  }

  lemma RowIdsGrow(env: Env, db: Db, req: Request, now: u64, e: Effect, db': Db)
    requires HasEffect(env, db, req, now, e, db')
    ensures db.nextRecovery <= db'.nextRecovery
  {
    hide ChallengesAfter, SessionsAfter, SecretsAfter, RecoveryAfter;
  }

  /** Between any two points of a run a row keeps its account and its hash. */
  lemma {:induction false} RowKeepsHash(env: Env, evs: seq<Event>, m: nat, n: nat, id: nat)
    requires m <= n <= |evs| && id < StateAt(env, evs, m).nextRecovery && id in StateAt(env, evs, n).recovery
    ensures id in StateAt(env, evs, m).recovery
    ensures StateAt(env, evs, n).recovery[id].user == StateAt(env, evs, m).recovery[id].user
    ensures StateAt(env, evs, n).recovery[id].codeHash == StateAt(env, evs, m).recovery[id].codeHash
    decreases n
  {
    hide Exec, EffectOf, Enabled, HasEffect, Tells, Inv;
    if m == n {
    } else {
      RowIdsReach(env, evs, m, n - 1);
      StepAt(env, evs, n - 1);
      RowIdentity(env, StateAt(env, evs, n - 1), evs[n - 1].req, evs[n - 1].now, EffectAt(env, evs, n - 1),
          StateAt(env, evs, n), id);
      RowKeepsHash(env, evs, m, n - 1, id);
    }
  }

  lemma {:induction false} RowIdsReach(env: Env, evs: seq<Event>, m: nat, n: nat)
    requires m <= n <= |evs|
    ensures StateAt(env, evs, m).nextRecovery <= StateAt(env, evs, n).nextRecovery
    decreases n
  {
    hide Exec, EffectOf, Enabled, HasEffect, Tells, Inv;
    if m == n {
    } else {
      RowIdsReach(env, evs, m, n - 1);
      StepAt(env, evs, n - 1);
      RowIdsGrow(env, StateAt(env, evs, n - 1), evs[n - 1].req, evs[n - 1].now, EffectAt(env, evs, n - 1),
          StateAt(env, evs, n));
    }
  }

  // ---------- the rows of one enrollment ----------

  /** Each code drawn verifies against its own hash and has the shape `generate_code` gives. */
  ghost predicate HonestMaterial(env: Env, m: Material) {
    && MaterialComplete(m) && |m.codes.value| == RecoveryCodes.CODE_COUNT
    && forall i | 0 <= i < RecoveryCodes.CODE_COUNT ::
         && env.verifyCode(m.codes.value[i], m.hashes[i].value)
         && exists bytes: seq<byte> :: |bytes| == RecoveryCodes.CODE_LEN
             && m.codes.value[i] == RecoveryCodes.CodeOf(bytes)
  }

  /** The row inserted for code i of enrollment e. */
  ghost function RowFor(env: Env, evs: seq<Event>, e: nat, i: nat): nat
    requires e < |evs|
  {
    StateAt(env, evs, e).nextRecovery + i
  }

  lemma InsertedHash(env: Env, db: Db, req: Request, now: u64, db': Db, user: nat, i: nat)
    requires Enabled(env, db, req, now, NewEnrollment(user)) && HasEffect(env, db, req, now, NewEnrollment(user), db')
    requires i < RecoveryCodes.CODE_COUNT
    ensures var id := db.nextRecovery + i;
            && id < db'.nextRecovery && id in db'.recovery
            && db'.recovery[id] == RecoveryRow(user, req.material.hashes[i].value, None)
  {
    hide AuthedUser, FactorAccepted, ChallengesAfter, SessionsAfter, SecretsAfter;
  }

  lemma RowOwned(env: Env, evs: seq<Event>, n: nat, user: nat, e: nat, i: nat)
    requires n <= |evs| && EnrolledBy(env, evs, n, user, e) && i < RecoveryCodes.CODE_COUNT
    ensures var db, id := StateAt(env, evs, n), RowFor(env, evs, e, i);
        id in db.recovery && db.recovery[id].user == user
  {
    hide StateAt, EffectAt, SameSeed, Range;
    assert RowFor(env, evs, e, i) in RecoveryIds(StateAt(env, evs, n), user);
  }

  lemma RowInserted(env: Env, evs: seq<Event>, user: nat, e: nat, i: nat)
    requires e < |evs| && EffectAt(env, evs, e) == NewEnrollment(user) && i < RecoveryCodes.CODE_COUNT
    ensures evs[e].req.Enroll? && MaterialComplete(evs[e].req.material)
    ensures var db, id := StateAt(env, evs, e + 1), RowFor(env, evs, e, i);
            id < db.nextRecovery && id in db.recovery && db.recovery[id].codeHash == evs[e].req.material.hashes[i].value
  {
    hide Exec, EffectOf, HasEffect, Inv, AuthedUser, StateAt, MaterialComplete;
    StepAt(env, evs, e);
    InsertedHash(env, StateAt(env, evs, e), evs[e].req, evs[e].now, StateAt(env, evs, e + 1), user, i);
  }

  /** While the enrollment stands, its row i is there with hash i. */
  lemma {:induction false} RowStands(env: Env, evs: seq<Event>, n: nat, user: nat, e: nat, i: nat)
    requires n <= |evs| && EnrolledBy(env, evs, n, user, e) && i < RecoveryCodes.CODE_COUNT
    ensures evs[e].req.Enroll? && MaterialComplete(evs[e].req.material)
    ensures var db, id := StateAt(env, evs, n), RowFor(env, evs, e, i);
            id in db.recovery && db.recovery[id].user == user
                && db.recovery[id].codeHash == evs[e].req.material.hashes[i].value
  {
    hide EffectOf, StateAt, SameSeed, RecoveryIds, RowFor, MaterialComplete;
    RowInserted(env, evs, user, e, i);
    RowOwned(env, evs, n, user, e, i);
    RowKeepsHash(env, evs, e + 1, n, RowFor(env, evs, e, i));
  }

  // ---------- what the holder sees of an enrollment ----------

  /** Request e answered recovery codes to the account, which has not turned its second factor off
      before request n. */
  ghost predicate EnrollmentStands(env: Env, evs: seq<Event>, e: nat, n: nat, user: nat)
    requires e < n <= |evs|
  {
    && evs[e].req.Enroll? && AnswerAt(env, evs, e).Enrolled?
    && AuthedUser(env, StateAt(env, evs, e), evs[e].req.bearer, evs[e].now as nat) == Some(user)
    && forall k | e < k < n && evs[k].req.Disable? && AnswerAt(env, evs, k) == NoContent ::
         AuthedUser(env, StateAt(env, evs, k), evs[k].req.bearer, evs[k].now as nat) != Some(user)
  }

  lemma EnrollsCaller(env: Env, evs: seq<Event>, e: nat, user: nat)
    requires e < |evs| && EnrollmentStands(env, evs, e, e + 1, user)
    ensures EffectAt(env, evs, e) == NewEnrollment(user)
  {
    hide Exec, EffectOf, HasEffect, Inv, StateAt, AuthedUser, AnswerAt;
    StepAt(env, evs, e);
  }

  lemma StaysEnrolled(env: Env, evs: seq<Event>, m: nat, user: nat)
    requires m < |evs| && user in StateAt(env, evs, m).secrets
    requires !(evs[m].req.Disable? && AnswerAt(env, evs, m) == NoContent
               && AuthedUser(env, StateAt(env, evs, m), evs[m].req.bearer, evs[m].now as nat) == Some(user))
    ensures user in StateAt(env, evs, m + 1).secrets
  {
    hide Exec, Inv, AuthedUser, FactorAccepted, CodeFits;
    StateInv(env, evs, m);
    StatusMoves(env, StateAt(env, evs, m), evs[m].req, evs[m].now, user);
  }

  lemma {:induction false} StandingIsEnrolled(env: Env, evs: seq<Event>, e: nat, n: nat, user: nat)
    requires e < n <= |evs| && EnrollmentStands(env, evs, e, n, user)
    ensures EnrolledBy(env, evs, n, user, e)
    decreases n
  {
    hide Exec, EffectOf, Enabled, HasEffect, Tells, Inv, StateAt, AnswerAt, AuthedUser, RecoveryIds, SameSeed, Range;
    var m := n - 1;
    StepAt(env, evs, m);
    var db, db', ev := StateAt(env, evs, m), StateAt(env, evs, n), evs[m];
    if m == e {
      EnrollsCaller(env, evs, e, user);
      EnrollmentStarts(env, db, ev.req, ev.now, db', user);
      EnrolledNow(env, evs, e, user);
    } else {
      StandingIsEnrolled(env, evs, e, m, user);
      EnrolledHasSecret(env, evs, m, user, e);
      StaysEnrolled(env, evs, m, user);
      EnrollmentStays(env, db, ev.req, ev.now, EffectAt(env, evs, m), db', user);
      EnrolledOneMore(env, evs, m, user, e);
    }
  }

  lemma EnrolledHasSecret(env: Env, evs: seq<Event>, n: nat, user: nat, e: nat)
    requires n <= |evs| && EnrolledBy(env, evs, n, user, e)
    ensures user in StateAt(env, evs, n).secrets
  {
    hide StateAt, EffectAt, RecoveryIds, Range;
    assert SameSeed(StateAt(env, evs, n), StateAt(env, evs, e + 1), user);
  }

  /** An enrollment answers the codes drawn, and stores in order one unconsumed row with the hash of each. */
  lemma {:induction false} CodesShown(env: Env, evs: seq<Event>, e: nat)
    requires e < |evs| && AnswerAt(env, evs, e).Enrolled?
    ensures evs[e].req.Enroll? && MaterialComplete(evs[e].req.material)
    ensures AnswerAt(env, evs, e).recoveryCodes == evs[e].req.material.codes.value
    ensures var db, db' := StateAt(env, evs, e), StateAt(env, evs, e + 1);
            var caller := AuthedUser(env, db, evs[e].req.bearer, evs[e].now as nat);
            caller.Some? && forall i: nat | i < 10 ::
              InsertedRow(db, db', RowFor(env, evs, e, i), caller.value, evs[e].req.material.hashes[i])
  {
    hide Inv, EffectOf, HasEffect, Exec, EnrolledTables, AuthedUser, InsertedRow;
    StepAt(env, evs, e);
    var req, db, db' := evs[e].req, StateAt(env, evs, e), StateAt(env, evs, e + 1);
    EnrollAnswers(env, db, req.bearer, req.material, evs[e].now);
    var caller := AuthedUser(env, db, req.bearer, evs[e].now as nat);
    forall i: nat | i < 10
      ensures InsertedRow(db, db', RowFor(env, evs, e, i), caller.value, req.material.hashes[i])
    {
      TableRow(db, db', caller.value, req.material, evs[e].now as nat, i);
    }
  }

  /** Row `id` is new, the account's, with this hash, and unconsumed. */
  ghost predicate InsertedRow(db: Db, db': Db, id: nat, user: nat, hash: Option<string>) {
    && id !in db.recovery && id in db'.recovery && hash.Some?
    && db'.recovery[id] == RecoveryRow(user, hash.value, None)
  }

  lemma TableRow(db: Db, db': Db, user: nat, m: Material, now: nat, i: nat)
    requires Inv(db) && m.sealed.Some? && (forall j | 0 <= j < 10 :: m.hashes[j].Some?) && i < 10
    requires EnrolledTables(db, db', user, m, now)
    ensures InsertedRow(db, db', db.nextRecovery + i, user, m.hashes[i])
  {
    hide Linked, EmailsUnique;
  }

  // ---------- consumption, from the requests alone ----------

  lemma MarkedOnly(recovery: map<nat, RecoveryRow>, mark: Option<nat>, now: nat, id: nat)
    requires id in recovery && mark != Some(id)
    ensures id in Marked(recovery, mark, now) && Marked(recovery, mark, now)[id] == recovery[id]
  {
  }

  /** A row that a request neither consumes nor deletes stays as it is. */
  lemma RowUntouched(env: Env, evs: seq<Event>, k: nat, id: nat)
    requires k < |evs| && RowUsed(env, evs, k) != Some(id)
    requires id in StateAt(env, evs, k).recovery && id in StateAt(env, evs, k + 1).recovery
    ensures StateAt(env, evs, k + 1).recovery[id] == StateAt(env, evs, k).recovery[id]
  {
    hide Exec, EffectOf, Enabled, SecretsAfter, ChallengesAfter, SessionsAfter, Tells, Linked, EmailsUnique, Marked,
         HashesOf, AnswerAt;
    StepAt(env, evs, k);
    var db, t := StateAt(env, evs, k), evs[k].now as nat;
    match EffectAt(env, evs, k)
    case FactorLogin(_, _, mark, _) => MarkedOnly(db.recovery, mark, t, id);
    case TurnedOff(_, mark) => MarkedOnly(db.recovery, mark, t, id);
    case NewEnrollment(_) =>
    case Quiet =>
    case PasswordLogin(_) =>
    case NewChallenge(_) =>
    case Activation(_) =>
    case DropExpired(_) =>
  }

  /** While an enrollment stands, row i is consumed if and only if a request since has consumed it. */
  lemma {:induction false} UnconsumedIffUnused(env: Env, evs: seq<Event>, e: nat, n: nat, user: nat, i: nat)
    requires e < n <= |evs| && EnrollmentStands(env, evs, e, n, user) && i < 10
    ensures var rows, id := StateAt(env, evs, n).recovery, RowFor(env, evs, e, i);
            && id in rows && rows[id].user == user
            && rows[id].codeHash == evs[e].req.material.hashes[i].value
            && (rows[id].consumedAt.None? <==> forall k | e < k < n :: RowUsed(env, evs, k) != Some(id))
    decreases n
  {
    hide Exec, StateAt, AnswerAt, AuthedUser, EnrolledBy, RowUsed, RowFor, MaterialComplete;
    var id, m := RowFor(env, evs, e, i), n - 1;
    StandingIsEnrolled(env, evs, e, n, user);
    RowStands(env, evs, n, user, e, i);
    if m == e {
      CodesShown(env, evs, e);
    } else {
      UnconsumedIffUnused(env, evs, e, m, user, i);
      if RowUsed(env, evs, m) == Some(id) {
        RowUsedFacts(env, evs, m);
        SpentHere(StateAt(env, evs, n), id);
      } else {
        RowUntouched(env, evs, m, id);
      }
    }
  }

  lemma SpentHere(db: Db, id: nat)
    requires Spent(db, id) && id in db.recovery
    ensures db.recovery[id].consumedAt.Some?
  {
  }

  // ---------- the codes shown ----------

  /** No request after e has consumed the row of code i. */
  ghost predicate NotYetUsed(env: Env, evs: seq<Event>, e: nat, n: nat, i: nat)
    requires e < n <= |evs|
  {
    forall k | e < k < n :: RowUsed(env, evs, k) != Some(RowFor(env, evs, e, i))
  }

  /** Of the account's unconsumed rows the code verifies against row `id` only. */
  ghost predicate OpensOnly(env: Env, db: Db, user: nat, code: string, id: nat) {
    forall j | Opens(env, db, user, code, j) :: j == id
  }

  /** Each code shown is accepted as a second factor while the enrollment stands, active or pending,
      exactly until its row is used: it opens its own row. */
  lemma {:induction false} IssuedCodeAccepted(env: Env, evs: seq<Event>, e: nat, n: nat, user: nat, i: nat, now: u64)
    requires e < n <= |evs| && EnrollmentStands(env, evs, e, n, user) && i < 10
    requires HonestMaterial(env, evs[e].req.material)
    ensures |AnswerAt(env, evs, e).recoveryCodes| == 10
    ensures var db, code := StateAt(env, evs, n), AnswerAt(env, evs, e).recoveryCodes[i];
            && code != "" && !SixDigits(code)
            && (Opens(env, db, user, code, RowFor(env, evs, e, i)) <==> NotYetUsed(env, evs, e, n, i))
            && (NotYetUsed(env, evs, e, n, i) ==> Holds(env, db, user, code, now))
  {
    hide StateAt, AuthedUser, RowFor, RowUsed, Totp.CodeAtStep;
    UnconsumedIffUnused(env, evs, e, n, user, i);
    CodesShown(env, evs, e);
    IssuedShape(env, evs[e].req.material, i);
  }

  lemma IssuedShape(env: Env, m: Material, i: nat)
    requires HonestMaterial(env, m) && i < 10
    ensures m.codes.value[i] != "" && !SixDigits(m.codes.value[i])
    ensures env.verifyCode(m.codes.value[i], m.hashes[i].value)
  {
    var bytes: seq<byte> :| |bytes| == RecoveryCodes.CODE_LEN && m.codes.value[i] == RecoveryCodes.CodeOf(bytes);
    RecoveryCodes.GeneratedShape(bytes);
    DigitsAre(m.codes.value[i]);
  }

  lemma SoleRow(env: Env, db: Db, user: nat, code: string, id: nat, now: nat, recovery: map<nat, RecoveryRow>)
    requires !SixDigits(code) && RowsAfter(env, db, user, code, now, recovery)
    requires Opens(env, db, user, code, id) && OpensOnly(env, db, user, code, id)
    ensures recovery == db.recovery[id := db.recovery[id].(consumedAt := Some(now))]
  {
  }

  /** With a code shown and not yet used, a live challenge, fewer than five recent failures and a token
      to hand out, the second login step answers a session, and marks that code's row if it opens no
      other. */
  lemma {:induction false} IssuedCodeLogsIn(env: Env, evs: seq<Event>, e: nat, n: nat, user: nat, i: nat)
    requires e < n < |evs| && EnrollmentStands(env, evs, e, n, user) && i < 10
    requires HonestMaterial(env, evs[e].req.material) && NotYetUsed(env, evs, e, n, i)
    requires NonDecreasing(evs) && evs[n].req.LoginStep2? && evs[n].req.token.Some?
    requires i < |AnswerAt(env, evs, e).recoveryCodes| && evs[n].req.code == AnswerAt(env, evs, e).recoveryCodes[i]
    requires LiveChallenge(env, StateAt(env, evs, n), evs[n].req.challenge, user, evs[n].now)
    requires Recent(env, evs, n, user) < 5
    ensures AnswerAt(env, evs, n) == SessionIssued(evs[n].req.token.value)
    ensures var db, db', id := StateAt(env, evs, n), StateAt(env, evs, n + 1), RowFor(env, evs, e, i);
            && id in db.recovery && db.recovery[id].user == user
            && (OpensOnly(env, db, user, evs[n].req.code, id) ==>
                  db'.recovery == db.recovery[id := db.recovery[id].(consumedAt := Some(evs[n].now as nat))])
  {
    hide StateAt, LiveChallenge, HonestMaterial, Recent, RowFor, NonDecreasing, AuthedUser, NotYetUsed, Holds,
         OpensOnly,
         RowsAfter, SixDigits, EnrollmentStands;
    IssuedCodeAccepted(env, evs, e, n, user, i, evs[n].now);
    FactorDecidesLogin(env, evs, n, user);
    var db, id := StateAt(env, evs, n), RowFor(env, evs, e, i);
    if OpensOnly(env, db, user, evs[n].req.code, id) {
      SoleRow(env, db, user, evs[n].req.code, id, evs[n].now as nat, StateAt(env, evs, n + 1).recovery);
    }
  }

  /** A code shown and not yet used turns the second factor off, with the session, the password and
      fewer than five recent failures. */
  lemma {:induction false} IssuedCodeDisables(env: Env, evs: seq<Event>, e: nat, n: nat, user: nat, i: nat)
    requires e < n < |evs| && EnrollmentStands(env, evs, e, n, user) && i < 10
    requires HonestMaterial(env, evs[e].req.material) && NotYetUsed(env, evs, e, n, i)
    requires NonDecreasing(evs) && evs[n].req.Disable?
    requires i < |AnswerAt(env, evs, e).recoveryCodes| && evs[n].req.code == AnswerAt(env, evs, e).recoveryCodes[i]
    requires var db := StateAt(env, evs, n);
             AuthedUser(env, db, evs[n].req.bearer, evs[n].now as nat) == Some(user) && user in db.users
             && env.verifyPassword(evs[n].req.password, db.users[user].passwordHash)
    requires Recent(env, evs, n, user) < 5
    ensures AnswerAt(env, evs, n) == NoContent && StatusOf(StateAt(env, evs, n + 1), user).Off?
  {
    hide StateAt, HonestMaterial, Recent, RowFor, NonDecreasing, AuthedUser, NotYetUsed, Holds, SixDigits,
         EnrollmentStands;
    IssuedCodeAccepted(env, evs, e, n, user, i, evs[n].now);
    FactorDecidesDisable(env, evs, n, user);
  }
}
