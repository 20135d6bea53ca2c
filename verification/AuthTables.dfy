/** The account tables (migrations 0001, 0002, 0004) and what each handler of src/routes/auth.rs
    and src/routes/totp.rs does to them when it runs alone. Strings stand for their UTF-8 bytes. */
module AuthTables {
  import opened Wrappers
  import opened MachineInts
  import opened RateLimit
  import opened RecoveryCodes
  import ProfileTable
  import Totp

  const SESSION_TTL_SECS := 7 * 24 * 60 * 60
  const TOTP_CHALLENGE_TTL_SECS := 5 * 60
  const PENDING_SECS := 24 * 60 * 60
  const MIN_PASSWORD_LEN := 16

  datatype User = User(email: string, passwordHash: string)
  datatype Session = Session(user: nat, tokenHash: string, expiresAt: nat)
  datatype Secret = Secret(ciphertext: string, nonce: string, pendingUntil: Option<nat>, enrolledAt: Option<nat>)
  datatype RecoveryRow = RecoveryRow(user: nat, codeHash: string, consumedAt: Option<nat>)
  datatype Challenge = Challenge(user: nat, hash: string, expiresAt: nat)

  /** All tables, with their AUTOINCREMENT counters, and the in-memory failure times. */
  datatype Db = Db(
    users: map<nat, User>, nextUser: nat,
    sessions: map<nat, Session>, nextSession: nat,
    secrets: map<nat, Secret>,
    recovery: map<nat, RecoveryRow>, nextRecovery: nat,
    challenges: map<nat, Challenge>, nextChallenge: nat,
    failures: FailureMap)

  const EMPTY := Db(map[], 0, map[], 0, map[], map[], 0, map[], 0, map[])

  /** Library code outside this repository. `verifyPassword` and `verifyCode` take the plain text
      and the stored hash; `decrypt` takes ciphertext and nonce. */
  datatype Env = Env(
    plausibleEmail: string -> bool, lower: string -> string,
    hashToken: string -> string,
    verifyPassword: (string, string) -> bool, verifyCode: (string, string) -> bool,
    decrypt: (string, string) -> Option<seq<byte>>, mac: Totp.Mac)

  /** One hash, or its failure, for each of the ten recovery codes. */
  type TenHashes = s: seq<Option<string>> | |s| == CODE_COUNT witness seq(CODE_COUNT, _ => None)

  /** What one enrollment draws from the random source and the hashers; None is a failure. */
  datatype Material = Material(sealed: Option<(string, string)>, codes: Option<seq<string>>, hashes: TenHashes)

  /** A request with the random values its handler would draw: a password hash, a fresh token. */
  datatype Request =
    | Register(email: string, password: string, hash: Option<string>)
    | Login(email: string, password: string, token: Option<string>)
    | Enroll(bearer: string, material: Material)
    | Verify(bearer: string, code: string)
    | LoginStep2(challenge: string, code: string, token: Option<string>)
    | Disable(bearer: string, password: string, code: string)

  datatype Response =
    | Created | Invalid | Unauthorized | Conflict | ServerError | RateLimited | NoContent
    | SessionIssued(session: string)
    | ChallengeIssued(challenge: string)
    | Enrolled(recoveryCodes: seq<string>)

  // ---------- lookups: the matching row with the lowest id ----------

  function FindUser(db: Db, email: string, from: nat): (r: Option<nat>)
    ensures r.Some? ==> r.value in db.users && ProfileTable.Fold(db.users[r.value].email) == ProfileTable.Fold(email)
    ensures r.None? ==>
      forall id | id in db.users && from <= id < db.nextUser ::
          ProfileTable.Fold(db.users[id].email) != ProfileTable.Fold(email)
    decreases db.nextUser - from
  {
    if from >= db.nextUser then None
    else if from in db.users && ProfileTable.Fold(db.users[from].email) == ProfileTable.Fold(email) then Some(from)
    else FindUser(db, email, from + 1)
  }

  /** sessions JOIN users */
  function FindSession(db: Db, hash: string, from: nat): (r: Option<nat>)
    ensures r.Some? ==>
         r.value in db.sessions && db.sessions[r.value].tokenHash == hash && db.sessions[r.value].user in db.users
    ensures r.None? ==>
      forall id | id in db.sessions && from <= id < db.nextSession ::
        !(db.sessions[id].tokenHash == hash && db.sessions[id].user in db.users)
    decreases db.nextSession - from
  {
    if from >= db.nextSession then None
    else if from in db.sessions && db.sessions[from].tokenHash == hash && db.sessions[from].user in db.users
        then Some(from)
    else FindSession(db, hash, from + 1)
  }

  function FindChallenge(db: Db, hash: string, from: nat): (r: Option<nat>)
    ensures r.Some? ==>
        && r.value in db.challenges && db.challenges[r.value].hash == hash
        && forall id | id in db.challenges && from <= id < r.value :: db.challenges[id].hash != hash
    ensures r.None? ==> forall id | id in db.challenges && from <= id < db.nextChallenge ::
        db.challenges[id].hash != hash
    decreases db.nextChallenge - from
  {
    if from >= db.nextChallenge then None
    else if from in db.challenges && db.challenges[from].hash == hash then Some(from)
    else FindChallenge(db, hash, from + 1)
  }

  predicate Usable(db: Db, user: nat, id: nat) {
    id in db.recovery && db.recovery[id].user == user && db.recovery[id].consumedAt.None?
  }

  /** The account's unconsumed recovery rows from id `from` on: those and no others, by growing id. */
  function Unconsumed(db: Db, user: nat, from: nat): (ids: seq<nat>)
    ensures forall i | 0 <= i < |ids| :: from <= ids[i] < db.nextRecovery && Usable(db, user, ids[i])
    ensures forall id: nat | from <= id < db.nextRecovery && Usable(db, user, id) :: id in ids
    ensures forall i, j | 0 <= i < j < |ids| :: ids[i] < ids[j]
    decreases db.nextRecovery - from
  {
    if from >= db.nextRecovery then []
    else if Usable(db, user, from)
    then [from] + Unconsumed(db, user, from + 1)
    else Unconsumed(db, user, from + 1)
  }

  /** The first of the rows, listed by growing id, whose hash the code verifies against. */
  function FirstMatch(env: Env, db: Db, ids: seq<nat>, code: string): (r: Option<nat>)
    requires forall id | id in ids :: id in db.recovery
    requires forall i, j | 0 <= i < j < |ids| :: ids[i] < ids[j]
    ensures r.Some? ==> r.value in ids && env.verifyCode(code, db.recovery[r.value].codeHash)
    ensures forall id | id in ids && (r.None? || id < r.value) :: !env.verifyCode(code, db.recovery[id].codeHash)
  {
    if ids == [] then None
    else if env.verifyCode(code, db.recovery[ids[0]].codeHash) then Some(ids[0])
    else
      assert forall id | id in ids :: id == ids[0] || id in ids[1..];
      FirstMatch(env, db, ids[1..], code)
  }

  // ---------- status of an account ----------

  datatype Status = Off | Pending | Active

  function StatusOf(db: Db, user: nat): Status {
    if user !in db.secrets then Off
    else if db.secrets[user].enrolledAt.None? then Pending
    else Active
  }

  // ---------- single writes ----------

  function MintSession(env: Env, db: Db, user: nat, token: Option<string>, now: nat): (Db, Response) {
    if token.None? then (db, ServerError)
    else
      (db.(sessions := db.sessions[db.nextSession := Session(user, env.hashToken(token.value), now + SESSION_TTL_SECS)],
           nextSession := db.nextSession + 1),
       SessionIssued(token.value))
  }

  function MintChallenge(env: Env, db: Db, user: nat, token: Option<string>, now: nat): (Db, Response) {
    if token.None? then (db, ServerError)
    else
      (db.(challenges := db.challenges[db.nextChallenge :=
          Challenge(user, env.hashToken(token.value), now + TOTP_CHALLENGE_TTL_SECS)],
           nextChallenge := db.nextChallenge + 1),
       ChallengeIssued(token.value))
  }

  function DropChallenge(db: Db, id: nat): Db {
    db.(challenges := db.challenges - {id})
  }

  function MarkConsumed(db: Db, id: nat, now: nat): Db {
    if id !in db.recovery then db
    else db.(recovery := db.recovery[id := db.recovery[id].(consumedAt := Some(now))])
  }

  /** The rows of one enrollment, from id `from` on. */
  function CodeRows(user: nat, hashes: seq<string>, from: nat): (r: map<nat, RecoveryRow>)
    ensures forall id: nat :: id in r <==> from <= id < from + |hashes|
    ensures forall id | id in r :: r[id] == RecoveryRow(user, hashes[id - from], None)
  {
    if hashes == [] then map[]
    else
      var n := |hashes| - 1;
      CodeRows(user, hashes[..n], from)[from + n := RecoveryRow(user, hashes[n], None)]
  }

  /** DELETE FROM the three TOTP tables WHERE user_id = ?1 */
  function Wipe(db: Db, user: nat): Db {
    db.(secrets := db.secrets - {user},
        recovery := map id | id in db.recovery && db.recovery[id].user != user :: db.recovery[id],
        challenges := map id | id in db.challenges && db.challenges[id].user != user :: db.challenges[id])
  }

  // ---------- the handlers ----------

  function RegisterStep(env: Env, db: Db, email: string, password: string, hash: Option<string>): (Db, Response) {
    if !env.plausibleEmail(email) || |password| < MIN_PASSWORD_LEN then (db, Invalid)
    else if hash.None? then (db, ServerError)
    else if FindUser(db, env.lower(email), 0).Some? then (db, Conflict)
    else (db.(users := db.users[db.nextUser := User(env.lower(email), hash.value)], nextUser := db.nextUser + 1),
        Created)
  }

  /** The account a correct email and password name. */
  function PasswordOwner(env: Env, db: Db, email: string, password: string): (r: Option<nat>)
    ensures r.Some? ==> r.value in db.users && env.verifyPassword(password, db.users[r.value].passwordHash)
  {
    var found := FindUser(db, env.lower(email), 0);
    if found.Some? && env.verifyPassword(password, db.users[found.value].passwordHash) then found else None
  }

  function LoginStep(env: Env, db: Db, email: string, password: string, token: Option<string>, now: nat)
      : (Db, Response) {
    var owner := PasswordOwner(env, db, email, password);
    if owner.None? then (db, Unauthorized)
    else if StatusOf(db, owner.value).Active? then MintChallenge(env, db, owner.value, token, now)
    else MintSession(env, db, owner.value, token, now)
  }

  /** The account a bearer token stands for now. */
  function AuthedUser(env: Env, db: Db, bearer: string, now: nat): (r: Option<nat>)
    ensures r.Some? ==> r.value in db.users
  {
    if bearer == "" then None
    else
      var found := FindSession(db, env.hashToken(bearer), 0);
      if found.None? || db.sessions[found.value].expiresAt <= now then None
      else Some(db.sessions[found.value].user)
  }

  predicate MaterialComplete(m: Material) {
    m.sealed.Some? && m.codes.Some? && forall i | 0 <= i < |m.hashes| :: m.hashes[i].Some?
  }

  function HashesOf(m: Material): (r: seq<string>)
    requires MaterialComplete(m)
    ensures |r| == CODE_COUNT
  {
    seq(CODE_COUNT, i requires 0 <= i < CODE_COUNT => m.hashes[i].value)
  }

  /** The rows an enrollment inserts. */
  function WithEnrollment(db: Db, user: nat, m: Material, pendingUntil: nat): Db
    requires MaterialComplete(m)
  {
    db.(secrets := db.secrets[user := Secret(m.sealed.value.0, m.sealed.value.1, Some(pendingUntil), None)],
        recovery := db.recovery + CodeRows(user, HashesOf(m), db.nextRecovery),
        nextRecovery := db.nextRecovery + CODE_COUNT)
  }

  function EnrollStep(env: Env, db: Db, bearer: string, m: Material, now: nat): (Db, Response) {
    var caller := AuthedUser(env, db, bearer, now);
    if caller.None? then (db, Unauthorized)
    else if caller.value in db.secrets then (db, Conflict)
    else if !MaterialComplete(m) then (db, ServerError)
    else (WithEnrollment(db, caller.value, m, now + PENDING_SECS), Enrolled(m.codes.value))
  }

  /** The code fits the seed of the secret, if it decrypts. */
  ghost predicate CodeFits(env: Env, secret: Secret, code: string, now: u64) {
    var seed := env.decrypt(secret.ciphertext, secret.nonce);
    seed.Some? && Totp.Accepts(env.mac, seed.value, now, code)
  }

  function Pruned(db: Db, user: nat, now: nat): Db {
    db.(failures := Checked(db.failures, user, now))
  }

  function Failed(db: Db, user: nat, now: nat): Db {
    db.(failures := Recorded(db.failures, user, now))
  }

  ghost function VerifyStep(env: Env, db: Db, bearer: string, code: string, now: u64): (Db, Response) {
    var t := now as nat;
    var caller := AuthedUser(env, db, bearer, t);
    if caller.None? then (db, Unauthorized)
    else
      var user := caller.value;
      var db1 := Pruned(db, user, t);
      if !Admitted(db.failures, user, t) then (db1, RateLimited)
      else if !StatusOf(db, user).Pending? then (db1, Invalid)
      else if env.decrypt(db.secrets[user].ciphertext, db.secrets[user].nonce).None? then (db1, ServerError)
      else if !CodeFits(env, db.secrets[user], code, now) then (Failed(db1, user, t), Unauthorized)
      else (db1.(secrets := db.secrets[user := db.secrets[user].(enrolledAt := Some(t), pendingUntil := None)]),
          NoContent)
  }

  predicate Matches(env: Env, db: Db, user: nat, code: string, id: nat) {
    Usable(db, user, id) && env.verifyCode(code, db.recovery[id].codeHash)
  }

  /** The recovery row a code would consume: the first of the account's unconsumed rows that it
      matches, and none only if it matches none. */
  function RecoveryTarget(env: Env, db: Db, user: nat, code: string): (r: Option<nat>)
    ensures r.Some? ==> Matches(env, db, user, code, r.value)
    ensures r.Some? ==> forall id: nat | id < r.value :: !Matches(env, db, user, code, id)
    ensures r.None? ==> forall id: nat | id < db.nextRecovery :: !Matches(env, db, user, code, id)
  {
    FirstMatch(env, db, Unconsumed(db, user, 0), code)
  }

  /** A second factor: six digits go to the TOTP check, anything else to the recovery codes. */
  ghost predicate FactorAccepted(env: Env, db: Db, user: nat, code: string, now: u64) {
    if Totp.LooksLikeTotpCode(code) then StatusOf(db, user).Active? && CodeFits(env, db.secrets[user], code, now)
    else RecoveryTarget(env, db, user, code).Some?
  }

  /** The row an accepted second factor consumes, if it is a recovery code. */
  function FactorRow(env: Env, db: Db, user: nat, code: string): Option<nat> {
    if Totp.LooksLikeTotpCode(code) then None else RecoveryTarget(env, db, user, code)
  }

  function AfterFactor(env: Env, db: Db, user: nat, code: string, now: nat): Db {
    var row := FactorRow(env, db, user, code);
    if row.Some? then MarkConsumed(db, row.value, now) else db
  }

  ghost function Step2Step(env: Env, db: Db, challenge: string, code: string, token: Option<string>, now: u64)
      : (Db, Response) {
    var t := now as nat;
    if challenge == "" || code == "" then (db, Invalid)
    else
      var found := FindChallenge(db, env.hashToken(challenge), 0);
      if found.None? then (db, Unauthorized)
      else
        var cid := found.value;
        var user := db.challenges[cid].user;
        if db.challenges[cid].expiresAt <= t then (DropChallenge(db, cid), Unauthorized)
        else
          var db1 := Pruned(db, user, t);
          if !Admitted(db.failures, user, t) then (db1, RateLimited)
          else if !FactorAccepted(env, db, user, code, now) then (Failed(db1, user, t), Unauthorized)
          else MintSession(env, DropChallenge(AfterFactor(env, db1, user, code, t), cid), user, token, t)
  }

  ghost function DisableStep(env: Env, db: Db, bearer: string, password: string, code: string, now: u64)
      : (Db, Response) {
    var t := now as nat;
    var caller := AuthedUser(env, db, bearer, t);
    if caller.None? then (db, Unauthorized)
    else
      var user := caller.value;
      if !env.verifyPassword(password, db.users[user].passwordHash) then (db, Unauthorized)
      else
        var db1 := Pruned(db, user, t);
        if !Admitted(db.failures, user, t) then (db1, RateLimited)
        else if !FactorAccepted(env, db, user, code, now) then (Failed(db1, user, t), Unauthorized)
        else (Wipe(AfterFactor(env, db1, user, code, t), user), NoContent)
  }

  ghost function Exec(env: Env, db: Db, req: Request, now: u64): (Db, Response) {
    match req
    case Register(email, password, hash) => RegisterStep(env, db, email, password, hash)
    case Login(email, password, token) => LoginStep(env, db, email, password, token, now as nat)
    case Enroll(bearer, material) => EnrollStep(env, db, bearer, material, now as nat)
    case Verify(bearer, code) => VerifyStep(env, db, bearer, code, now)
    case LoginStep2(challenge, code, token) => Step2Step(env, db, challenge, code, token, now)
    case Disable(bearer, password, code) => DisableStep(env, db, bearer, password, code, now)
  }
}
