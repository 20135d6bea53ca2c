/** The account and second-factor handlers (src/routes/auth.rs, src/routes/totp.rs), statement by
    statement on mutable tables, each proved to do and answer what `AuthTables` says. */
module AuthServer {
  import opened Wrappers
  import opened MachineInts
  import opened RateLimit
  import opened AuthTables
  import opened RecoveryCodes
  import AuthEffects
  import Totp

  class Server {
    const env: Env
    const limiter: Limiter
    var users: map<nat, User>
    var nextUser: nat
    var sessions: map<nat, Session>
    var nextSession: nat
    var secrets: map<nat, Secret>
    var recovery: map<nat, RecoveryRow>
    var nextRecovery: nat
    var challenges: map<nat, Challenge>
    var nextChallenge: nat

    function State(): Db
      reads this, limiter
    {
      Db(users, nextUser, sessions, nextSession, secrets, recovery, nextRecovery, challenges, nextChallenge,
          limiter.failures)
    }

    /** The limiter is consistent and has not seen a later time. */
    ghost predicate Ready(now: nat)
      reads this, limiter
    {
      limiter.Valid() && limiter.clock <= now
    }

    constructor (env: Env)
      ensures State() == EMPTY && Ready(0) && this.env == env && fresh(limiter)
    {
      this.env := env;
      limiter := new Limiter();
      users, nextUser, sessions, nextSession := map[], 0, map[], 0;
      secrets, recovery, nextRecovery, challenges, nextChallenge := map[], map[], 0, map[], 0;
    }

    method Register(email: string, password: string, hash: Option<string>) returns (resp: Response)
      modifies this
      ensures (State(), resp) == RegisterStep(env, old(State()), email, password, hash)
    {
      if !env.plausibleEmail(email) {
        return Invalid;
      }
      if |password| < MIN_PASSWORD_LEN {
        return Invalid;
      }
      if hash.None? {
        return ServerError;
      }
      var stored := env.lower(email);
      var taken := FindUser(State(), stored, 0);
      if taken.Some? {
        return Conflict;
      }
      users := users[nextUser := User(stored, hash.value)];
      nextUser := nextUser + 1;
      return Created;
    }

    method Login(email: string, password: string, token: Option<string>, now: nat) returns (resp: Response)
      modifies this
      ensures (State(), resp) == LoginStep(env, old(State()), email, password, token, now)
    {
      var row := FindUser(State(), env.lower(email), 0);
      if row.None? {
        return Unauthorized;
      }
      var user := row.value;
      if !env.verifyPassword(password, users[user].passwordHash) {
        return Unauthorized;
      }
      var active := user in secrets && secrets[user].enrolledAt.Some?;
      if !active {
        resp := MintSessionResponse(user, token, now);
        return;
      }
      if token.None? {
        return ServerError;
      }
      challenges := challenges[nextChallenge :=
          Challenge(user, env.hashToken(token.value), now + TOTP_CHALLENGE_TTL_SECS)];
      nextChallenge := nextChallenge + 1;
      return ChallengeIssued(token.value);
    }

    method MintSessionResponse(user: nat, token: Option<string>, now: nat) returns (resp: Response)
      modifies this
      ensures (State(), resp) == MintSession(env, old(State()), user, token, now)
    {
      if token.None? {
        return ServerError;
      }
      sessions := sessions[nextSession := Session(user, env.hashToken(token.value), now + SESSION_TTL_SECS)];
      nextSession := nextSession + 1;
      return SessionIssued(token.value);
    }

    /** The ten inserts run in one transaction: a failed hash leaves nothing behind. */
    method Enroll(bearer: string, m: Material, now: nat) returns (resp: Response)
      modifies this
      ensures (State(), resp) == EnrollStep(env, old(State()), bearer, m, now)
    {
      hide AuthedUser;
      var caller := AuthedUser(env, State(), bearer, now);
      if caller.None? {
        return Unauthorized;
      }
      var user := caller.value;
      if user in secrets {
        return Conflict;
      }
      if m.sealed.None? || m.codes.None? {
        return ServerError;
      }
      var ok := InsertEnrollment(user, m, now + PENDING_SECS);
      if !ok {
        return ServerError;
      }
      return Enrolled(m.codes.value);
    }

    /** One transaction: the secret row and ten recovery rows, or nothing. */
    method InsertEnrollment(user: nat, m: Material, pendingUntil: nat) returns (ok: bool)
      requires m.sealed.Some? && m.codes.Some?
      modifies this`secrets, this`recovery, this`nextRecovery
      ensures ok <==> MaterialComplete(m)
      ensures State() == if ok then WithEnrollment(old(State()), user, m, pendingUntil) else old(State())
    {
      hide CodeRows, HashedSoFar, MaterialComplete, HashesOf;
      var txSecrets := secrets[user := Secret(m.sealed.value.0, m.sealed.value.1, Some(pendingUntil), None)];
      var txRecovery, txNext := recovery, nextRecovery;
      ghost var before, from := recovery, nextRecovery;
      ghost var done: seq<string> := [];
      NoneHashed(before, user, m, from);
      for i := 0 to CODE_COUNT
        invariant recovery == before && nextRecovery == from && secrets == old(secrets) && State() == old(State())
        invariant |done| == i && HashedSoFar(m, done)
        invariant txRecovery == before + CodeRows(user, done, from) && txNext == from + i
      {
        if m.hashes[i].None? {
          HashFailed(m, i);
          return false;
        }
        OneHashed(before, user, m, done, from);
        txRecovery := txRecovery[txNext := RecoveryRow(user, m.hashes[i].value, None)];
        txNext := txNext + 1;
        done := done + [m.hashes[i].value];
      }
      AllHashed(m, done);
      secrets, recovery, nextRecovery := txSecrets, txRecovery, txNext;
      return true;
    }

    method Verify(bearer: string, code: string, now: u64) returns (resp: Response)
      requires Ready(now as nat)
      modifies this, limiter
      ensures Ready(now as nat)
      ensures (State(), resp) == VerifyStep(env, old(State()), bearer, code, now)
    {
      hide AuthedUser, Totp.Accepts, Lossless, Checked, Recorded, Admitted, CountIn;
      var caller := AuthedUser(env, State(), bearer, now as nat);
      if caller.None? {
        return Unauthorized;
      }
      var user := caller.value;
      var admitted := limiter.Check(user, now as nat);
      if !admitted {
        return RateLimited;
      }
      if user !in secrets || secrets[user].enrolledAt.Some? {
        return Invalid;
      }
      var seed := env.decrypt(secrets[user].ciphertext, secrets[user].nonce);
      if seed.None? {
        return ServerError;
      }
      var ok := Totp.Verify(env.mac, seed.value, now, code);
      if !ok {
        limiter.Record(user, now as nat);
        return Unauthorized;
      }
      secrets := secrets[user := secrets[user].(enrolledAt := Some(now as nat), pendingUntil := None)];
      return NoContent;
    }

    method VerifyTotpForUser(user: nat, code: string, now: u64) returns (ok: bool)
      ensures ok <==> StatusOf(State(), user).Active? && CodeFits(env, State().secrets[user], code, now)
    {
      if user !in secrets || secrets[user].enrolledAt.None? {
        return false;
      }
      var seed := env.decrypt(secrets[user].ciphertext, secrets[user].nonce);
      if seed.None? {
        return false;
      }
      ok := Totp.Verify(env.mac, seed.value, now, code);
    }

    /** Consumes the first unconsumed row of the account that the code verifies against. */
    method ConsumeRecoveryCode(user: nat, code: string, now: nat) returns (ok: bool)
      modifies this`recovery
      ensures ok <==> RecoveryTarget(env, old(State()), user, code).Some?
      ensures State() == if ok then MarkConsumed(old(State()), RecoveryTarget(env, old(State()), user, code).value, now)
                         else old(State())
    {
      hide FirstMatch, Unconsumed, Matches, RecoveryTarget, Usable;
      ghost var db := State();
      var rows := Unconsumed(State(), user, 0);
      TargetIsFirst(env, db, user, code);
      UsableInTable(db, user, rows);
      assert rows[0..] == rows;
      for i := 0 to |rows|
        invariant recovery == old(recovery) && State() == db
        invariant RecoveryTarget(env, db, user, code) == FirstMatch(env, db, rows[i..], code)
      {
        var id := rows[i];
        FirstMatchNext(env, db, rows, i, code);
        if env.verifyCode(code, recovery[id].codeHash) {
          recovery := recovery[id := recovery[id].(consumedAt := Some(now))];
          return true;
        }
      }
      NoMatchLeft(env, db, rows, code);
      return false;
    }

    method SecondFactor(user: nat, code: string, now: u64) returns (ok: bool)
      modifies this`recovery
      ensures ok <==> FactorAccepted(env, old(State()), user, code, now)
      ensures State() == if ok then AfterFactor(env, old(State()), user, code, now as nat) else old(State())
    {
      if Totp.LooksLikeTotpCode(code) {
        ok := VerifyTotpForUser(user, code, now);
      } else {
        ok := ConsumeRecoveryCode(user, code, now as nat);
      }
    }

    method LoginStep2(challenge: string, code: string, token: Option<string>, now: u64) returns (resp: Response)
      requires Ready(now as nat)
      modifies this, limiter
      ensures Ready(now as nat)
      ensures (State(), resp) == Step2Step(env, old(State()), challenge, code, token, now)
    {
      if challenge == "" || code == "" {
        return Invalid;
      }
      var row := FindChallenge(State(), env.hashToken(challenge), 0);
      if row.None? {
        return Unauthorized;
      }
      var id := row.value;
      var user := challenges[id].user;
      if challenges[id].expiresAt <= now as nat {
        challenges := challenges - {id};
        return Unauthorized;
      }
      var admitted := limiter.Check(user, now as nat);
      if !admitted {
        return RateLimited;
      }
      ghost var checked := State();
      AuthEffects.FactorIgnoresFailures(env, old(State()), checked, user, code, now);
      var ok := SecondFactor(user, code, now);
      if !ok {
        limiter.Record(user, now as nat);
        return Unauthorized;
      }
      challenges := challenges - {id};
      resp := MintSessionResponse(user, token, now as nat);
    }

    method Disable(bearer: string, password: string, code: string, now: u64) returns (resp: Response)
      requires Ready(now as nat)
      modifies this, limiter
      ensures Ready(now as nat)
      ensures (State(), resp) == DisableStep(env, old(State()), bearer, password, code, now)
    {
      hide FactorAccepted, AfterFactor, AuthedUser, Lossless, Checked, Recorded, Admitted, Wipe, CountIn;
      var caller := AuthedUser(env, State(), bearer, now as nat);
      if caller.None? {
        return Unauthorized;
      }
      var user := caller.value;
      if !env.verifyPassword(password, users[user].passwordHash) {
        return Unauthorized;
      }
      var admitted := limiter.Check(user, now as nat);
      if !admitted {
        return RateLimited;
      }
      ghost var checked := State();
      AuthEffects.FactorIgnoresFailures(env, old(State()), checked, user, code, now);
      var ok := SecondFactor(user, code, now);
      if !ok {
        limiter.Record(user, now as nat);
        return Unauthorized;
      }
      WipeTotp(user);
      return NoContent;
    }

    /** The three deletes of one transaction. */
    method WipeTotp(user: nat)
      modifies this`secrets, this`recovery, this`challenges
      ensures State() == Wipe(old(State()), user)
    {
      secrets := secrets - {user};
      recovery := map id | id in recovery && recovery[id].user != user :: recovery[id];
      challenges := map id | id in challenges && challenges[id].user != user :: challenges[id];
    }
  }

  /** The next row of the search is the one found, or the search goes on after it. */
  lemma FirstMatchNext(env: Env, db: Db, rows: seq<nat>, i: nat, code: string)
    requires i < |rows| && forall id | id in rows :: id in db.recovery
    requires forall a, b | 0 <= a < b < |rows| :: rows[a] < rows[b]
    ensures FirstMatch(env, db, rows[i..], code) ==
            if env.verifyCode(code, db.recovery[rows[i]].codeHash) then Some(rows[i])
            else FirstMatch(env, db, rows[i + 1..], code)
  {
    assert rows[i..][0] == rows[i] && rows[i..][1..] == rows[i + 1..];
  }

  lemma TargetIsFirst(env: Env, db: Db, user: nat, code: string)
    ensures RecoveryTarget(env, db, user, code) == FirstMatch(env, db, Unconsumed(db, user, 0), code)
  {
  }

  lemma UsableInTable(db: Db, user: nat, rows: seq<nat>)
    requires forall i | 0 <= i < |rows| :: Usable(db, user, rows[i])
    ensures forall id | id in rows :: id in db.recovery
  {
  }

  lemma NoMatchLeft(env: Env, db: Db, rows: seq<nat>, code: string)
    ensures FirstMatch(env, db, rows[|rows|..], code) == None
  {
  }

  /** The hashes computed before the loop's next round. */
  ghost predicate HashedSoFar(m: Material, done: seq<string>) {
    |done| <= CODE_COUNT && forall j | 0 <= j < |done| :: m.hashes[j] == Some(done[j])
  }

  lemma NoneHashed(before: map<nat, RecoveryRow>, user: nat, m: Material, from: nat)
    ensures HashedSoFar(m, []) && before + CodeRows(user, [], from) == before
  {
  }

  lemma OneHashed(before: map<nat, RecoveryRow>, user: nat, m: Material, done: seq<string>, from: nat)
    requires HashedSoFar(m, done) && |done| < CODE_COUNT && m.hashes[|done|].Some?
    ensures var h := m.hashes[|done|].value;
            && HashedSoFar(m, done + [h])
            && before + CodeRows(user, done + [h], from)
               == (before + CodeRows(user, done, from))[from + |done| := RecoveryRow(user, h, None)]
  {
    var h := m.hashes[|done|].value;
    CodeRowsNext(user, done, h, from);
    MapAddUpdate(before, CodeRows(user, done, from), from + |done|, RecoveryRow(user, h, None));
    hide CodeRows;
  }

  lemma CodeRowsNext(user: nat, hashes: seq<string>, h: string, from: nat)
    ensures CodeRows(user, hashes + [h], from) ==
        CodeRows(user, hashes, from)[from + |hashes| := RecoveryRow(user, h, None)]
  {
    assert (hashes + [h])[..|hashes|] == hashes;
  }

  lemma MapAddUpdate<V>(a: map<nat, V>, b: map<nat, V>, k: nat, v: V)
    ensures a + b[k := v] == (a + b)[k := v]
  {
  }

  lemma HashFailed(m: Material, i: nat)
    requires i < CODE_COUNT && m.hashes[i].None?
    ensures !MaterialComplete(m)
  {
    assert !m.hashes[i].Some?;
  }

  lemma AllHashed(m: Material, done: seq<string>)
    requires HashedSoFar(m, done) && |done| == CODE_COUNT && m.sealed.Some? && m.codes.Some?
    ensures MaterialComplete(m) && HashesOf(m) == done
  {
  }
}
