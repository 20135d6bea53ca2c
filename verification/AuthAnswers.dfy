/** What each account handler answers and does, case by case and in both directions, in terms of the
    tables and the request alone. */
module AuthAnswers {
  import opened Wrappers
  import opened MachineInts
  import opened RateLimit
  import opened AuthTables
  import opened AuthInvariants
  import AuthEffects
  import ProfileTable
  import Totp

  // ---------- the conditions ----------

  predicate SameAddress(a: string, b: string) {
    ProfileTable.Fold(a) == ProfileTable.Fold(b)
  }

  /** The account has the address, up to case, and the password is its own. */
  predicate Named(env: Env, db: Db, email: string, password: string, user: nat) {
    && user in db.users && SameAddress(db.users[user].email, env.lower(email))
    && env.verifyPassword(password, db.users[user].passwordHash)
  }

  predicate Activated(db: Db, user: nat) {
    user in db.secrets && db.secrets[user].enrolledAt.Some?
  }

  predicate Unactivated(db: Db, user: nat) {
    user in db.secrets && db.secrets[user].enrolledAt.None?
  }

  predicate SixDigits(code: string) {
    |code| == 6 && forall i | 0 <= i < 6 :: '0' <= code[i] <= '9'
  }

  function SeedOf(env: Env, db: Db, user: nat): Option<seq<byte>> {
    if user in db.secrets then env.decrypt(db.secrets[user].ciphertext, db.secrets[user].nonce) else None
  }

  /** The code of a 30-second step at most one away from the clock's. */
  ghost predicate Timely(env: Env, seed: seq<byte>, code: string, now: u64) {
    exists s: u64 :: now as int / 30 - 1 <= s as int <= now as int / 30 + 1
                     && Totp.CodeAtStep(env.mac, seed, s) == Some(code)
  }

  /** The row is an unconsumed one of the account and the code verifies against its hash. */
  predicate Opens(env: Env, db: Db, user: nat, code: string, id: nat) {
    && id in db.recovery && db.recovery[id].user == user && db.recovery[id].consumedAt.None?
    && env.verifyCode(code, db.recovery[id].codeHash)
  }

  /** A second factor that holds: six digits must be timely for the seed of an activated account,
      anything else must open a recovery row. */
  ghost predicate Holds(env: Env, db: Db, user: nat, code: string, now: u64) {
    if SixDigits(code) then
      Activated(db, user) && SeedOf(env, db, user).Some? && Timely(env, SeedOf(env, db, user).value, code, now)
    else exists id :: Opens(env, db, user, code, id)
  }

  lemma DigitsAre(code: string)
    ensures Totp.LooksLikeTotpCode(code) <==> SixDigits(code)
  {
  }

  lemma FactorHolds(env: Env, db: Db, user: nat, code: string, now: u64)
    requires Inv(db)
    ensures FactorAccepted(env, db, user, code, now) <==> Holds(env, db, user, code, now)
  {
    DigitsAre(code);
    hide Totp.LooksLikeTotpCode, SixDigits, Totp.CodeAtStep, Linked, EmailsUnique;
    assert forall id: nat :: Opens(env, db, user, code, id) <==> Matches(env, db, user, code, id);
    var target := RecoveryTarget(env, db, user, code);
    if target.Some? {
      assert Opens(env, db, user, code, target.value);
    }
  }

  /** What a held factor leaves of the recovery rows: six digits none, any other code exactly the row
      with the lowest id that it opens, marked with the time. */
  ghost predicate RowsAfter(env: Env, db: Db, user: nat, code: string, now: nat, recovery: map<nat, RecoveryRow>) {
    if SixDigits(code) then recovery == db.recovery
    else exists id ::
      && Opens(env, db, user, code, id) && (forall j | Opens(env, db, user, code, j) :: id <= j)
      && recovery == db.recovery[id := db.recovery[id].(consumedAt := Some(now))]
  }

  lemma HeldRows(env: Env, db: Db, user: nat, code: string, now: nat)
    requires Inv(db) && (!SixDigits(code) ==> exists id :: Opens(env, db, user, code, id))
    ensures RowsAfter(env, db, user, code, now, AfterFactor(env, db, user, code, now).recovery)
    ensures AfterFactor(env, db, user, code, now) == db.(recovery := AfterFactor(env, db, user, code, now).recovery)
  {
    DigitsAre(code);
    hide Totp.LooksLikeTotpCode, SixDigits, Linked, EmailsUnique;
    assert forall id: nat :: Opens(env, db, user, code, id) <==> Matches(env, db, user, code, id);
    var target := RecoveryTarget(env, db, user, code);
    if target.Some? {
      assert Opens(env, db, user, code, target.value);
    }
  }

  // ---------- registration ----------

  /** No account has the address, up to case. */
  predicate AddressFree(env: Env, db: Db, email: string) {
    forall id | id in db.users :: !SameAddress(db.users[id].email, env.lower(email))
  }

  /** The checks in their order, and one new account exactly if all pass. A password needs 16 bytes. */
  lemma RegisterAnswers(env: Env, db: Db, email: string, password: string, hash: Option<string>, now: u64)
    requires Inv(db)
    ensures var r := Exec(env, db, Register(email, password, hash), now);
            var wellFormed := env.plausibleEmail(email) && |password| >= 16;
            && (r.1 == Invalid <==> !wellFormed)
            && (r.1 == ServerError <==> wellFormed && hash.None?)
            && (r.1 == Conflict <==> wellFormed && hash.Some? && !AddressFree(env, db, email))
            && (r.1 == Created <==> wellFormed && hash.Some? && AddressFree(env, db, email))
            && (r.1 == Created ==>
                  && db.nextUser !in db.users
                  && r.0 == db.(users := db.users[db.nextUser := User(env.lower(email), hash.value)],
                                nextUser := db.nextUser + 1))
            && (r.1 != Created ==> r.0 == db)
  {
    hide Linked, EmailsUnique, ProfileTable.Fold;
  }

  // ---------- login ----------

  lemma NobodyNamed(env: Env, db: Db, email: string, password: string)
    requires Inv(db)
    ensures PasswordOwner(env, db, email, password).None? <==>
            forall user: nat :: !Named(env, db, email, password, user)
  {
    hide PasswordOwner, Inv, ProfileTable.Fold;
    forall user: nat
      ensures PasswordOwner(env, db, email, password) == Some(user) <==> Named(env, db, email, password, user)
    {
      PasswordOwnerExact(env, db, email, password, user);
    }
    var owner := PasswordOwner(env, db, email, password);
    if owner.Some? {
      assert Named(env, db, email, password, owner.value);
    }
  }

  /** Refused exactly if the pair names nobody; the named account gets a session for 604800 seconds, or
      a challenge for 300 seconds if it is activated. */
  lemma LoginAnswers(env: Env, db: Db, email: string, password: string, token: Option<string>, now: u64, user: nat)
    requires Inv(db)
    ensures var r := Exec(env, db, Login(email, password, token), now); var t := now as nat;
            && (r.1 == Unauthorized <==> forall u: nat :: !Named(env, db, email, password, u))
            && (r.1 == Unauthorized || r.1 == ServerError ==> r.0 == db)
            && (Named(env, db, email, password, user) ==>
                  if token.None? then r.1 == ServerError
                  else if Activated(db, user) then
                    && r.1 == ChallengeIssued(token.value)
                    && r.0 == db.(challenges := db.challenges[db.nextChallenge :=
                                    Challenge(user, env.hashToken(token.value), t + 300)],
                                  nextChallenge := db.nextChallenge + 1)
                  else
                    && r.1 == SessionIssued(token.value)
                    && r.0 == db.(sessions := db.sessions[db.nextSession :=
                                    Session(user, env.hashToken(token.value), t + 604_800)],
                                  nextSession := db.nextSession + 1))
  {
    hide Inv, PasswordOwner, ProfileTable.Fold;
    NobodyNamed(env, db, email, password);
    PasswordOwnerExact(env, db, email, password, user);
  }

  // ---------- enrollment ----------

  /** Unauthorized without a session, a conflict while the account has a secret row of any status, a
      server error if anything drawn failed; else the ten codes drawn are shown, and stored with them are
      their ten hashes, in order, and the sealed seed, pending. */
  lemma EnrollAnswers(env: Env, db: Db, bearer: string, m: Material, now: u64)
    requires Inv(db)
    ensures var r := Exec(env, db, Enroll(bearer, m), now); var caller := AuthedUser(env, db, bearer, now as nat);
            var drawn := m.sealed.Some? && m.codes.Some? && forall i | 0 <= i < 10 :: m.hashes[i].Some?;
            && (r.1 == Unauthorized <==> caller.None?)
            && (r.1 == Conflict <==> caller.Some? && caller.value in db.secrets)
            && (r.1 == ServerError <==> caller.Some? && caller.value !in db.secrets && !drawn)
            && (r.1.Enrolled? <==> caller.Some? && caller.value !in db.secrets && drawn)
            && (!r.1.Enrolled? ==> r.0 == db)
            && (r.1.Enrolled? ==>
                  && r.1.recoveryCodes == m.codes.value
                  && EnrolledTables(db, r.0, caller.value, m, now as nat))
  {
    hide AuthedUser, Linked, EmailsUnique;
    var caller := AuthedUser(env, db, bearer, now as nat);
    if caller.Some? && MaterialComplete(m) {
      EnrolledTablesAre(db, caller.value, m, now as nat);
    }
  }

  ghost predicate EnrolledTables(db: Db, db': Db, user: nat, m: Material, now: nat)
    requires m.sealed.Some? && forall i | 0 <= i < 10 :: m.hashes[i].Some?
  {
    && db' == db.(secrets := db'.secrets, recovery := db'.recovery, nextRecovery := db.nextRecovery + 10)
    && db'.secrets == db.secrets[user := Secret(m.sealed.value.0, m.sealed.value.1, Some(now + 86_400), None)]
    && (forall id :: id in db'.recovery <==> id in db.recovery || db.nextRecovery <= id < db.nextRecovery + 10)
    && (forall id | id in db.recovery :: db'.recovery[id] == db.recovery[id])
    && forall id: nat | db.nextRecovery <= id < db.nextRecovery + 10 ::
         db'.recovery[id] == RecoveryRow(user, m.hashes[id - db.nextRecovery].value, None)
  }

  lemma EnrolledTablesAre(db: Db, user: nat, m: Material, now: nat)
    requires Inv(db) && MaterialComplete(m)
    ensures EnrolledTables(db, WithEnrollment(db, user, m, now + PENDING_SECS), user, m, now)
  {
    hide Linked, EmailsUnique, CodeRows, HashesOf, MaterialComplete;
    HashAt(m);
    JoinedRows(db.recovery, user, HashesOf(m), db.nextRecovery);
  }

  lemma HashAt(m: Material)
    requires MaterialComplete(m)
    ensures m.sealed.Some? && forall i | 0 <= i < 10 :: m.hashes[i].Some? && HashesOf(m)[i] == m.hashes[i].value
  {
  }

  /** The rows of an enrollment join the old ones, all of which have lower ids. */
  lemma JoinedRows(before: map<nat, RecoveryRow>, user: nat, hashes: seq<string>, from: nat)
    requires forall id | id in before :: id < from
    ensures var all := before + CodeRows(user, hashes, from);
            && (forall id :: id in all <==> id in before || from <= id < from + |hashes|)
            && (forall id | id in before :: all[id] == before[id])
            && forall id: nat | from <= id < from + |hashes| :: all[id] == RecoveryRow(user, hashes[id - from], None)
  {
    hide CodeRows;
  }

  // ---------- activation ----------

  /** The checks of an activation in their order; a wrong code is recorded as a failure, and a timely one
      activates the pending secret and changes nothing else. */
  lemma VerifyAnswers(env: Env, db: Db, bearer: string, code: string, now: u64)
    requires Inv(db)
    ensures var r := Exec(env, db, Verify(bearer, code), now); var t := now as nat;
            var caller := AuthedUser(env, db, bearer, t);
            && (caller.None? ==> r == (db, Unauthorized))
            && (caller.Some? ==>
                  var user := caller.value; var pruned := db.(failures := Checked(db.failures, user, t));
                  var wrong := db.(failures := Recorded(pruned.failures, user, t));
                  var seed := SeedOf(env, db, user);
                  if !Admitted(db.failures, user, t) then r == (pruned, RateLimited)
                  else if !Unactivated(db, user) then r == (pruned, Invalid)
                  else if seed.None? then r == (pruned, ServerError)
                  else if Timely(env, seed.value, code, now) then
                    var secret := db.secrets[user].(enrolledAt := Some(t), pendingUntil := None);
                    r == (pruned.(secrets := db.secrets[user := secret]), NoContent)
                  else r == (wrong, Unauthorized))
  {
    hide AuthedUser, Linked, EmailsUnique, Admitted, Checked, Recorded, Totp.CodeAtStep;
  }

  // ---------- the second login step ----------

  /** No challenge of that hash is stored. */
  predicate Unknown(env: Env, db: Db, challenge: string) {
    forall id | id in db.challenges :: db.challenges[id].hash != env.hashToken(challenge)
  }

  /** Challenge `id` is stored, the lowest with that hash. */
  predicate Stored(env: Env, db: Db, challenge: string, id: nat) {
    && id in db.challenges && db.challenges[id].hash == env.hashToken(challenge)
    && forall j | j in db.challenges && db.challenges[j].hash == env.hashToken(challenge) :: id <= j
  }

  lemma LookupChallenge(env: Env, db: Db, challenge: string, id: nat)
    requires Inv(db)
    ensures Unknown(env, db, challenge) ==> FindChallenge(db, env.hashToken(challenge), 0).None?
    ensures Stored(env, db, challenge, id) ==> FindChallenge(db, env.hashToken(challenge), 0) == Some(id)
  {
    hide Linked, EmailsUnique;
  }

  /** A session for 604800 seconds, once the challenge is dropped and the factor has left the rows so. */
  ghost predicate SignedIn(env: Env, db: Db, db': Db, id: nat, user: nat, code: string, token: Option<string>,
      now: nat) {
    && RowsAfter(env, db, user, code, now, db'.recovery)
    && db' == db.(recovery := db'.recovery, challenges := db.challenges - {id},
                  failures := Checked(db.failures, user, now),
                  sessions := if token.None? then db.sessions
                              else db.sessions[db.nextSession :=
                                     Session(user, env.hashToken(token.value), now + 604_800)],
                  nextSession := db.nextSession + if token.None? then 0 else 1)
  }

  /** A request the limiter has already answered for, with `wrong` deciding a recorded failure. */
  function Limited(db: Db, user: nat, now: nat, wrong: bool): Db {
    var pruned := Checked(db.failures, user, now);
    db.(failures := if wrong then Recorded(pruned, user, now) else pruned)
  }

  /** The checks of the second login step in their order: both fields, a stored challenge, its expiry,
      the limiter, the factor. An expired challenge is deleted, a refused or wrong factor leaves it. */
  lemma Step2Answers(env: Env, db: Db, challenge: string, code: string, token: Option<string>, now: u64, id: nat)
    requires Inv(db)
    ensures var r := Exec(env, db, LoginStep2(challenge, code, token), now); var given := challenge != "" && code != "";
            && (!given ==> r == (db, Invalid))
            && (given && Unknown(env, db, challenge) ==> r == (db, Unauthorized))
            && (given && Stored(env, db, challenge, id) ==> Redemption(env, db, r.0, r.1, id, code, token, now))
  {
    hide Inv, FindChallenge, Admitted, FactorAccepted, AfterFactor, Unknown, Stored, Redemption, MintSession,
         DropChallenge;
    LookupChallenge(env, db, challenge, id);
    if Stored(env, db, challenge, id) {
      StoredIn(env, db, challenge, id);
      RedeemAnswers(env, db, id, code, token, now);
    }
  }

  ghost predicate Redemption(env: Env, db: Db, db': Db, resp: Response, id: nat, code: string, token: Option<string>,
                           now: u64)
    requires id in db.challenges
  {
    var t, user := now as nat, db.challenges[id].user;
    if db.challenges[id].expiresAt <= t then
      db' == db.(challenges := db.challenges - {id}) && resp == Unauthorized
    else if !Admitted(db.failures, user, t) then db' == Limited(db, user, t, false) && resp == RateLimited
    else if !Holds(env, db, user, code, now) then db' == Limited(db, user, t, true) && resp == Unauthorized
    else
      && resp == (if token.None? then ServerError else SessionIssued(token.value))
      && SignedIn(env, db, db', id, user, code, token, t)
  }

  /** The handler from its expiry check on. */
  lemma RedeemAnswers(env: Env, db: Db, id: nat, code: string, token: Option<string>, now: u64)
    requires Inv(db) && id in db.challenges
    ensures var t, user := now as nat, db.challenges[id].user;
            var r := if db.challenges[id].expiresAt <= t then (DropChallenge(db, id), Unauthorized)
                     else if !Admitted(db.failures, user, t) then (Pruned(db, user, t), RateLimited)
                     else if !FactorAccepted(env, db, user, code, now)
                       then (Failed(Pruned(db, user, t), user, t), Unauthorized)
                     else MintSession(env, DropChallenge(AfterFactor(env, Pruned(db, user, t), user, code, t), id),
                                      user, token, t);
            Redemption(env, db, r.0, r.1, id, code, token, now)
  {
    hide Inv, Admitted, Checked, Recorded, Holds, FactorAccepted, AfterFactor, RowsAfter, SixDigits;
    var user := db.challenges[id].user;
    FactorHolds(env, db, user, code, now);
    if Holds(env, db, user, code, now) {
      HeldAfterLimiter(env, db, user, code, now);
    }
  }

  lemma StoredIn(env: Env, db: Db, challenge: string, id: nat)
    requires Stored(env, db, challenge, id)
    ensures id in db.challenges
  {
  }

  /** A held factor, applied after the limiter has pruned. */
  lemma HeldAfterLimiter(env: Env, db: Db, user: nat, code: string, now: u64)
    requires Inv(db) && Holds(env, db, user, code, now)
    ensures var t := now as nat; var after := AfterFactor(env, Pruned(db, user, t), user, code, t);
            && RowsAfter(env, db, user, code, t, after.recovery)
            && after == db.(failures := Checked(db.failures, user, t), recovery := after.recovery)
  {
    var t := now as nat;
    HeldRows(env, db, user, code, t);
    AfterPruned(env, db, user, code, t);
  }

  lemma AfterPruned(env: Env, db: Db, user: nat, code: string, now: nat)
    ensures AfterFactor(env, Pruned(db, user, now), user, code, now) ==
            db.(failures := Checked(db.failures, user, now), recovery := AfterFactor(env, db, user, code, now).recovery)
  {
    hide Checked;
    AuthEffects.RowsIgnoreFailures(env, db, Pruned(db, user, now), user, code);
    AuthEffects.FactorRowInTable(env, db, user, code, now);
    AuthEffects.FactorRowInTable(env, Pruned(db, user, now), user, code, now);
  }

  // ---------- disabling ----------

  /** The checks of a disable in their order; one that passes removes the secret, the recovery rows and
      the challenges of that account and of no other. */
  lemma DisableAnswers(env: Env, db: Db, bearer: string, password: string, code: string, now: u64)
    requires Inv(db)
    ensures var r := Exec(env, db, Disable(bearer, password, code), now); var t := now as nat;
            var caller := AuthedUser(env, db, bearer, t);
            && (caller.None? ==> r == (db, Unauthorized))
            && (caller.Some? ==>
                  var user := caller.value;
                  if !env.verifyPassword(password, db.users[user].passwordHash) then r == (db, Unauthorized)
                  else if !Admitted(db.failures, user, t) then r == (Limited(db, user, t, false), RateLimited)
                  else if !Holds(env, db, user, code, now) then r == (Limited(db, user, t, true), Unauthorized)
                  else r.1 == NoContent && Wiped(db, r.0, user, t))
  {
    hide Inv, AuthedUser, Admitted, Checked, Recorded, Holds, FactorAccepted, AfterFactor, RowsAfter, Wipe, Wiped,
         SixDigits;
    var caller := AuthedUser(env, db, bearer, now as nat);
    if caller.Some? {
      FactorHolds(env, db, caller.value, code, now);
      if Holds(env, db, caller.value, code, now) {
        WipedAfter(env, db, caller.value, code, now);
      }
    }
  }

  /** The account's second factor is gone, and nothing else. */
  ghost predicate Wiped(db: Db, db': Db, user: nat, now: nat) {
    && db' == db.(secrets := db'.secrets, recovery := db'.recovery, challenges := db'.challenges,
                  failures := Checked(db.failures, user, now))
    && user !in db'.secrets && (forall u | u != user ::
         (u in db'.secrets <==> u in db.secrets) && (u in db.secrets ==> db'.secrets[u] == db.secrets[u]))
    && (forall id :: id in db'.recovery <==> id in db.recovery && db.recovery[id].user != user)
    && (forall id | id in db'.recovery :: db'.recovery[id] == db.recovery[id])
    && (forall id :: id in db'.challenges <==> id in db.challenges && db.challenges[id].user != user)
    && forall id | id in db'.challenges :: db'.challenges[id] == db.challenges[id]
  }

  lemma WipedAfter(env: Env, db: Db, user: nat, code: string, now: u64)
    requires Inv(db) && Holds(env, db, user, code, now)
    ensures Wiped(db, Wipe(AfterFactor(env, Pruned(db, user, now as nat), user, code, now as nat), user), user,
        now as nat)
  {
    hide Inv, Checked, AfterFactor, Holds, SixDigits;
    HeldAfterLimiter(env, db, user, code, now);
  }
}
