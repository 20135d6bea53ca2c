/** Which sessions, challenges and recovery codes a whole run can produce and accept. */
module LoginRuns {
  import opened Wrappers
  import opened MachineInts
  import opened AuthTables
  import opened AuthEffects
  import opened AuthInvariants
  import opened AuthRuns
  import opened RecoveryCodes
  import opened Intervals
  import ProfileTable

  // ---------- challenges ----------

  /** Request j, a correct password for an active account, minted challenge `id`, and up to request
      n the account has kept the secret row it had then. */
  ghost predicate ChallengeBy(env: Env, evs: seq<Event>, n: nat, id: nat, c: Challenge, j: nat)
    requires n <= |evs|
  {
    && j < n && EffectAt(env, evs, j) == NewChallenge(c.user) && StateAt(env, evs, j).nextChallenge == id
    && TokenOf(evs[j].req).Some? && c.hash == env.hashToken(TokenOf(evs[j].req).value)
    && c.expiresAt == evs[j].now as nat + 300
    && forall k | j <= k <= n :: SameSecret(StateAt(env, evs, k), StateAt(env, evs, j), c.user)
  }

  predicate SameSecret(a: Db, b: Db, user: nat) {
    user in a.secrets && user in b.secrets && a.secrets[user] == b.secrets[user] && a.secrets[user].enrolledAt.Some?
  }

  /** A challenge that survives a request keeps its row, and its account keeps its secret row. */
  lemma ChallengeStays(env: Env, db: Db, req: Request, now: u64, e: Effect, db': Db, id: nat)
    requires Inv(db) && Enabled(env, db, req, now, e) && HasEffect(env, db, req, now, e, db')
    requires id in db.challenges && id in db'.challenges
    ensures db'.challenges[id] == db.challenges[id] && SameSecret(db', db, db.challenges[id].user)
  {
    hide FactorAccepted, CodeFits, RecoveryTarget, AuthedUser, PasswordOwner, FactorRow, RecoveryAfter, SessionsAfter,
         EmailsUnique;
  }

  lemma ChallengeAppears(env: Env, db: Db, req: Request, now: u64, e: Effect, db': Db, id: nat)
    requires Inv(db) && Enabled(env, db, req, now, e) && HasEffect(env, db, req, now, e, db')
    requires id !in db.challenges && id in db'.challenges
    ensures id == db.nextChallenge && e == NewChallenge(db'.challenges[id].user) && TokenOf(req).Some?
    ensures db'.challenges[id] ==
            Challenge(e.user, env.hashToken(TokenOf(req).value), now as nat + 300)
    ensures SameSecret(db, db, e.user) && SameSecret(db', db, e.user)
  {
    hide FactorAccepted, CodeFits, RecoveryTarget, AuthedUser, PasswordOwner, FactorRow, RecoveryAfter, SessionsAfter,
         EmailsUnique;
  }

  lemma ChallengeOneMore(env: Env, evs: seq<Event>, n: nat, id: nat, c: Challenge, j: nat)
    requires n < |evs| && ChallengeBy(env, evs, n, id, c, j)
    requires SameSecret(StateAt(env, evs, n + 1), StateAt(env, evs, n), c.user)
    ensures ChallengeBy(env, evs, n + 1, id, c, j)
  {
    hide Exec, EffectOf, StateAt;
    assert SameSecret(StateAt(env, evs, n), StateAt(env, evs, j), c.user);
  }

  /** Every stored challenge was minted by an earlier correct-password login of its account, within
      the enrollment the account still has. */
  lemma {:induction false} ChallengeOrigin(env: Env, evs: seq<Event>, n: nat, id: nat) returns (j: nat)
    requires n <= |evs| && id in StateAt(env, evs, n).challenges
    ensures ChallengeBy(env, evs, n, id, StateAt(env, evs, n).challenges[id], j)
  {
    hide Exec, EffectOf, Enabled, HasEffect, Tells, Inv, SameSecret;
    NoChallenges(id);
    var m := n - 1;
    StepAt(env, evs, m);
    var db, db', ev, e := StateAt(env, evs, m), StateAt(env, evs, n), evs[m], EffectAt(env, evs, m);
    if id in db.challenges {
      j := ChallengeOrigin(env, evs, m, id);
      ChallengeStays(env, db, ev.req, ev.now, e, db', id);
      ChallengeOneMore(env, evs, m, id, db.challenges[id], j);
    } else {
      ChallengeAppears(env, db, ev.req, ev.now, e, db', id);
      j := m;
    }
  }

  lemma NoChallenges(id: nat)
    ensures id !in EMPTY.challenges && id !in EMPTY.sessions
  {
  }

  /** A challenge that is gone never comes back. */
  lemma {:induction false} ChallengeGone(env: Env, evs: seq<Event>, m: nat, n: nat, id: nat)
    requires m <= n <= |evs| && id < StateAt(env, evs, m).nextChallenge && id !in StateAt(env, evs, m).challenges
    ensures id < StateAt(env, evs, n).nextChallenge && id !in StateAt(env, evs, n).challenges
    decreases n
  {
    hide Exec, EffectOf, Enabled, Tells, Inv;
    if m == n {
    } else {
      ChallengeGone(env, evs, m, n - 1, id);
      StepAt(env, evs, n - 1);
      var db, db', ev, e := StateAt(env, evs, n - 1), StateAt(env, evs, n), evs[n - 1], EffectAt(env, evs, n - 1);
      if id in db'.challenges {
        ChallengeAppears(env, db, ev.req, ev.now, e, db', id);
        assert false;
      }
    }
  }

  // ---------- login correspondence ----------

  /** Request i stored and answered a session for the account. */
  ghost predicate SessionFor(env: Env, evs: seq<Event>, i: nat, user: nat)
    requires i < |evs|
  {
    var db, db', answer := StateAt(env, evs, i), StateAt(env, evs, i + 1), AnswerAt(env, evs, i);
    && answer.SessionIssued?
    && db'.nextSession == db.nextSession + 1
    && db'.sessions == db.sessions[db.nextSession :=
         Session(user, env.hashToken(answer.session), evs[i].now as nat + 604_800)]
  }

  /** Request k is a login whose e-mail and password are the account's. */
  ghost predicate CorrectPassword(env: Env, evs: seq<Event>, k: nat, user: nat)
    requires k < |evs|
  {
    var db, req := StateAt(env, evs, k), evs[k].req;
    && req.Login? && user in db.users
    && ProfileTable.Fold(db.users[user].email) == ProfileTable.Fold(env.lower(req.email))
    && env.verifyPassword(req.password, db.users[user].passwordHash)
  }

  /** Request i redeemed, with a second factor accepted there and then, the challenge that the
      correct-password login j was answered less than 300 seconds before, within one enrollment. */
  ghost predicate Redeems(env: Env, evs: seq<Event>, i: nat, j: nat, user: nat)
    requires i < |evs|
  {
    && j < i && CorrectPassword(env, evs, j, user) && AnswerAt(env, evs, j).ChallengeIssued?
    && (forall k | j <= k <= i :: SameSecret(StateAt(env, evs, k), StateAt(env, evs, j), user))
    && evs[i].req.LoginStep2?
    && env.hashToken(evs[i].req.challenge) == env.hashToken(AnswerAt(env, evs, j).challenge)
    && (evs[i].now as nat) < evs[j].now as nat + 300
    && FactorAccepted(env, StateAt(env, evs, i), user, evs[i].req.code, evs[i].now)
    && StateAt(env, evs, j).nextChallenge in StateAt(env, evs, i).challenges
    && StateAt(env, evs, j).nextChallenge !in StateAt(env, evs, i + 1).challenges
  }

  lemma OwnerHasPassword(env: Env, db: Db, email: string, password: string, user: nat)
    requires PasswordOwner(env, db, email, password) == Some(user)
    ensures user in db.users && env.verifyPassword(password, db.users[user].passwordHash)
    ensures ProfileTable.Fold(db.users[user].email) == ProfileTable.Fold(env.lower(email))
  {
  }

  lemma MintedSession(env: Env, evs: seq<Event>, i: nat)
    requires i < |evs| && AnswerAt(env, evs, i).SessionIssued?
    ensures MintsSession(EffectAt(env, evs, i)) && SessionFor(env, evs, i, EffectAt(env, evs, i).user)
  {
    hide Exec, EffectOf, Enabled, Inv, SecretsAfter, RecoveryAfter, ChallengesAfter;
    StepAt(env, evs, i);
  }

  lemma FactorLoginRedeems(env: Env, evs: seq<Event>, i: nat) returns (j: nat)
    requires i < |evs| && EffectAt(env, evs, i).FactorLogin?
    ensures Redeems(env, evs, i, j, EffectAt(env, evs, i).user)
  {
    hide Exec, EffectOf, Inv, FactorAccepted, FactorRow, SameSecret, PasswordOwner, StateAt;
    StepAt(env, evs, i);
    var e := EffectAt(env, evs, i);
    j := ChallengeOrigin(env, evs, i, e.id);
    StepAt(env, evs, j);
    OwnerHasPassword(env, StateAt(env, evs, j), evs[j].req.email, evs[j].req.password, e.user);
  }

  /** In every run each session belongs to an account for which it was issued either to a correct
      password while the account's second factor was not active, or to a second factor that redeemed
      the challenge of a correct-password login. */
  lemma {:induction false} LoginCorrespondence(env: Env, evs: seq<Event>, i: nat) returns (user: nat, j: nat)
    requires i < |evs| && AnswerAt(env, evs, i).SessionIssued?
    ensures SessionFor(env, evs, i, user)
    ensures (CorrectPassword(env, evs, i, user) && !StatusOf(StateAt(env, evs, i), user).Active?)
            || Redeems(env, evs, i, j, user)
  {
    hide Exec, EffectOf, HasEffect, Inv, FactorAccepted, FactorRow, PasswordOwner, Redeems, StatusOf, StateAt,
         SessionFor;
    MintedSession(env, evs, i);
    StepAt(env, evs, i);
    var e := EffectAt(env, evs, i);
    user, j := e.user, 0;
    if e.PasswordLogin? {
      OwnerHasPassword(env, StateAt(env, evs, i), evs[i].req.email, evs[i].req.password, user);
    } else {
      j := FactorLoginRedeems(env, evs, i);
    }
  }

  /** No two requests redeem the challenge of the same login. */
  lemma {:induction false} OneSessionPerChallenge(env: Env, evs: seq<Event>, i: nat, i': nat, j: nat, user: nat,
      user': nat)
    requires i < |evs| && i' < |evs|
    requires Redeems(env, evs, i, j, user) && Redeems(env, evs, i', j, user')
    ensures i == i'
  {
    hide Exec, StateAt, FactorAccepted, CorrectPassword, SameSecret, Inv;
    if i < i' {
      Redeemed(env, evs, i, j, user, i');
    } else if i' < i {
      Redeemed(env, evs, i', j, user', i);
    }
  }

  lemma Redeemed(env: Env, evs: seq<Event>, i: nat, j: nat, user: nat, n: nat)
    requires i < n <= |evs| && Redeems(env, evs, i, j, user)
    ensures StateAt(env, evs, j).nextChallenge !in StateAt(env, evs, n).challenges
  {
    hide Exec, StateAt, FactorAccepted, CorrectPassword, SameSecret, EffectOf, Enabled, Linked, EmailsUnique;
    var id := StateAt(env, evs, j).nextChallenge;
    StepAt(env, evs, i);
    assert id < StateAt(env, evs, i + 1).nextChallenge;
    ChallengeGone(env, evs, i + 1, n, id);
  }

  // ---------- recovery codes ----------

  /** The recovery row request i consumed, if any. */
  ghost function RowUsed(env: Env, evs: seq<Event>, i: nat): Option<nat>
    requires i < |evs|
  {
    match EffectAt(env, evs, i)
    case FactorLogin(_, _, row, _) => row
    case TurnedOff(_, row) => row
    case Quiet => None
    case PasswordLogin(_) => None
    case NewChallenge(_) => None
    case NewEnrollment(_) => None
    case Activation(_) => None
    case DropExpired(_) => None
  }

  /** A row no request can consume any more: consumed, or deleted. */
  predicate Spent(db: Db, row: nat) {
    row < db.nextRecovery && (row in db.recovery ==> db.recovery[row].consumedAt.Some?)
  }

  /** Marking a row that is not yet consumed leaves a spent row as it is. */
  lemma MarkedSpent(recovery: map<nat, RecoveryRow>, mark: Option<nat>, now: nat, row: nat)
    requires row in recovery ==> recovery[row].consumedAt.Some?
    requires mark.Some? && mark.value in recovery ==> recovery[mark.value].consumedAt.None?
    ensures var after := Marked(recovery, mark, now);
            && (row in after ==> row in recovery && after[row] == recovery[row])
            && (forall id | id in after :: id in recovery && after[id].user == recovery[id].user)
  {
  }

  lemma SpentStays(env: Env, db: Db, req: Request, now: u64, e: Effect, db': Db, row: nat)
    requires Inv(db) && Enabled(env, db, req, now, e) && HasEffect(env, db, req, now, e, db') && Spent(db, row)
    ensures Spent(db', row)
    ensures row in db'.recovery ==> row in db.recovery && db'.recovery[row] == db.recovery[row]
  {
    hide FactorAccepted, CodeFits, RecoveryTarget, AuthedUser, PasswordOwner, ChallengesAfter, SessionsAfter,
         SecretsAfter,
         HashesOf, FactorRow, Marked, Inv;
    match e
    case FactorLogin(user, _, mark, _) =>
      RowFacts(env, db, user, req.code);
      MarkedSpent(db.recovery, mark, now as nat, row);
    case TurnedOff(user, mark) =>
      RowFacts(env, db, user, req.code);
      MarkedSpent(db.recovery, mark, now as nat, row);
    case NewEnrollment(_) =>
    case Quiet =>
    case PasswordLogin(_) =>
    case NewChallenge(_) =>
    case Activation(_) =>
    case DropExpired(_) =>
  }

  /** Once consumed or deleted, a recovery row stays so, with the time it was consumed at. */
  lemma {:induction false} SpentForever(env: Env, evs: seq<Event>, m: nat, n: nat, row: nat)
    requires m <= n <= |evs| && Spent(StateAt(env, evs, m), row)
    ensures Spent(StateAt(env, evs, n), row)
    ensures row in StateAt(env, evs, n).recovery ==>
              row in StateAt(env, evs, m).recovery
                  && StateAt(env, evs, n).recovery[row] == StateAt(env, evs, m).recovery[row]
    decreases n
  {
    hide Exec, EffectOf, Enabled, HasEffect, Inv, Spent, Tells;
    if m == n {
    } else {
      SpentForever(env, evs, m, n - 1, row);
      StepAt(env, evs, n - 1);
      SpentStays(env, StateAt(env, evs, n - 1), evs[n - 1].req, evs[n - 1].now, EffectAt(env, evs, n - 1),
                 StateAt(env, evs, n), row);
    }
  }

  /** A consumed row was the account's own, unconsumed until then, and matched the code; afterwards
      it is spent. */
  lemma RowUsedFacts(env: Env, evs: seq<Event>, i: nat)
    requires i < |evs| && RowUsed(env, evs, i).Some?
    ensures var db, row := StateAt(env, evs, i), RowUsed(env, evs, i).value;
            && row in db.recovery && db.recovery[row].consumedAt.None?
            && db.recovery[row].user == EffectAt(env, evs, i).user
            && (evs[i].req.LoginStep2? || evs[i].req.Disable?)
            && env.verifyCode(evs[i].req.code, db.recovery[row].codeHash)
    ensures Spent(StateAt(env, evs, i + 1), RowUsed(env, evs, i).value)
  {
    hide Exec, EffectOf, FactorAccepted, FactorRow, AuthedUser, SecretsAfter, ChallengesAfter, SessionsAfter, Tells,
         Linked, EmailsUnique;
    StepAt(env, evs, i);
    RowFacts(env, StateAt(env, evs, i), EffectAt(env, evs, i).user, evs[i].req.code);
  }

  /** No recovery row is consumed twice in any run, by logins or disables. */
  lemma RecoveryRowsUsedOnce(env: Env, evs: seq<Event>, i: nat, i': nat)
    requires i < i' < |evs| && RowUsed(env, evs, i).Some? && RowUsed(env, evs, i').Some?
    ensures RowUsed(env, evs, i) != RowUsed(env, evs, i')
  {
    hide Exec, EffectOf, StateAt, RowUsed;
    RowUsedFacts(env, evs, i);
    RowUsedFacts(env, evs, i');
    SpentForever(env, evs, i + 1, i', RowUsed(env, evs, i).value);
  }

  /** The requests that consumed a recovery code of the enrollment made by request e. */
  ghost function UsesOf(env: Env, evs: seq<Event>, user: nat, e: nat): set<nat> {
    set i | 0 <= i < |evs| && RowUsed(env, evs, i).Some? && EffectAt(env, evs, i).user == user
        && EnrolledBy(env, evs, i, user, e)
  }

  /** Every consumption belongs to the enrollment its account then has. */
  lemma UseBelongs(env: Env, evs: seq<Event>, i: nat) returns (e: nat)
    requires i < |evs| && RowUsed(env, evs, i).Some?
    ensures i in UsesOf(env, evs, EffectAt(env, evs, i).user, e)
  {
    hide Exec, EffectOf, EnrolledBy;
    RowUsedFacts(env, evs, i);
    StateInv(env, evs, i);
    e := EnrollmentOrigin(env, evs, i, EffectAt(env, evs, i).user);
  }

  lemma UsedRowInBatch(env: Env, evs: seq<Event>, user: nat, e: nat, i: nat)
    requires i in UsesOf(env, evs, user, e) && e < |evs|
    ensures RowUsed(env, evs, i).Some?
    ensures RowUsed(env, evs, i).value in Range(StateAt(env, evs, e).nextRecovery, CODE_COUNT)
  {
    hide Exec, EffectOf;
    RowUsedFacts(env, evs, i);
    assert RowUsed(env, evs, i).value in RecoveryIds(StateAt(env, evs, i), user);
  }

  /** Requests that consumed rows of a batch are no more than its rows. */
  lemma {:induction false} UsesWithinBatch(env: Env, evs: seq<Event>, uses: set<nat>, batch: set<nat>)
    requires forall i | i in uses :: i < |evs| && RowUsed(env, evs, i).Some? && RowUsed(env, evs, i).value in batch
    ensures |uses| <= |batch|
  {
    hide Exec, EffectOf, RowUsed, StateAt;
    if uses == {} {
    } else {
      var i :| i in uses;
      var row := RowUsed(env, evs, i).value;
      forall i' | i' in uses - {i}
        ensures RowUsed(env, evs, i').value in batch - {row}
      {
        RecoveryRowsUsedOnce(env, evs, if i < i' then i else i', if i < i' then i' else i);
      }
      UsesWithinBatch(env, evs, uses - {i}, batch - {row});
    }
  }

  /** One enrollment admits at most ten recovery-code successes, across logins and disables together. */
  lemma TenCodesPerEnrollment(env: Env, evs: seq<Event>, user: nat, e: nat)
    requires e < |evs|
    ensures |UsesOf(env, evs, user, e)| <= 10
  {
    hide Exec, EffectOf, RowUsed, EnrolledBy, StateAt;
    var batch := Range(StateAt(env, evs, e).nextRecovery, CODE_COUNT);
    forall i | i in UsesOf(env, evs, user, e)
      ensures RowUsed(env, evs, i).Some? && RowUsed(env, evs, i).value in batch
    {
      UsedRowInBatch(env, evs, user, e, i);
    }
    UsesWithinBatch(env, evs, UsesOf(env, evs, user, e), batch);
  }
}
