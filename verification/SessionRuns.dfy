/** Which bearer tokens a whole run accepts, and until when. */
module SessionRuns {
  import opened Wrappers
  import opened MachineInts
  import opened AuthTables
  import opened AuthEffects
  import opened AuthInvariants
  import opened AuthRuns
  import opened LoginRuns

  /** Every minted token is fresh and not empty. */
  ghost predicate FreshTokens(evs: seq<Event>) {
    && (forall i | 0 <= i < |evs| :: TokenOf(evs[i].req) != Some(""))
    && (forall i, j | 0 <= i < |evs| && 0 <= j < |evs| && i != j && TokenOf(evs[i].req).Some? ::
          TokenOf(evs[i].req) != TokenOf(evs[j].req))
  }

  /** The hash of a bearer token is not that of a different minted token. */
  ghost predicate NoCollision(env: Env, evs: seq<Event>, bearer: string) {
    forall i | 0 <= i < |evs| && TokenOf(evs[i].req).Some? ::
      env.hashToken(TokenOf(evs[i].req).value) == env.hashToken(bearer) ==> TokenOf(evs[i].req).value == bearer
  }

  /** The hash does not collide on the minted tokens. */
  ghost predicate Injective(env: Env, evs: seq<Event>) {
    forall i | 0 <= i < |evs| && TokenOf(evs[i].req).Some? :: NoCollision(env, evs, TokenOf(evs[i].req).value)
  }

  /** Session row `id` was minted by request i, which answered `token`. */
  ghost predicate SessionBy(env: Env, evs: seq<Event>, id: nat, s: Session, i: nat)
    requires i < |evs|
  {
    && AnswerAt(env, evs, i).SessionIssued? && StateAt(env, evs, i).nextSession == id
    && SessionFor(env, evs, i, s.user)
    && s == Session(s.user, env.hashToken(AnswerAt(env, evs, i).session), evs[i].now as nat + 604_800)
  }

  lemma SessionsGrow(env: Env, db: Db, req: Request, now: u64, e: Effect, db': Db)
    requires Inv(db) && Enabled(env, db, req, now, e) && HasEffect(env, db, req, now, e, db')
    ensures forall id | id in db.sessions :: id in db'.sessions && db'.sessions[id] == db.sessions[id]
    ensures forall id | id in db'.sessions && id !in db.sessions :: id == db.nextSession && MintsSession(e)
    ensures db.nextSession <= db'.nextSession
  {
    hide RecoveryAfter, ChallengesAfter, SecretsAfter, FactorAccepted, PasswordOwner, AuthedUser;
  }

  /** Every session row was minted by an earlier request. */
  lemma {:induction false} SessionOrigin(env: Env, evs: seq<Event>, n: nat, id: nat) returns (i: nat)
    requires n <= |evs| && id in StateAt(env, evs, n).sessions
    ensures i < n && SessionBy(env, evs, id, StateAt(env, evs, n).sessions[id], i)
  {
    hide Exec, EffectOf, Enabled, HasEffect, Inv;
    NoChallenges(id);
    var m := n - 1;
    StepAt(env, evs, m);
    SessionsGrow(env, StateAt(env, evs, m), evs[m].req, evs[m].now, EffectAt(env, evs, m), StateAt(env, evs, n));
    if id in StateAt(env, evs, m).sessions {
      i := SessionOrigin(env, evs, m, id);
    } else {
      MintedSession(env, evs, m);
      i := m;
    }
  }

  /** A session row is never changed or removed. */
  lemma {:induction false} SessionStays(env: Env, evs: seq<Event>, m: nat, n: nat, id: nat)
    requires m <= n <= |evs| && id in StateAt(env, evs, m).sessions
    ensures id in StateAt(env, evs, n).sessions
        && StateAt(env, evs, n).sessions[id] == StateAt(env, evs, m).sessions[id]
    decreases n
  {
    hide Exec, EffectOf, Enabled, HasEffect, Inv, Tells;
    if m == n {
    } else {
      SessionStays(env, evs, m, n - 1, id);
      StepAt(env, evs, n - 1);
      SessionsGrow(env, StateAt(env, evs, n - 1), evs[n - 1].req, evs[n - 1].now, EffectAt(env, evs, n - 1),
          StateAt(env, evs, n));
    }
  }

  lemma IssuedTokenIsRequests(env: Env, evs: seq<Event>, i: nat)
    requires i < |evs| && AnswerAt(env, evs, i).SessionIssued?
    ensures TokenOf(evs[i].req) == Some(AnswerAt(env, evs, i).session)
  {
    hide Exec, EffectOf, Enabled, HasEffect, Inv;
    StepAt(env, evs, i);
  }

  /** The session row a token finds is the one minted with it. */
  lemma {:induction false} TokenFindsItsRow(env: Env, evs: seq<Event>, n: nat, i: nat, user: nat, id: nat)
    requires n <= |evs| && i < n && FreshTokens(evs) && Injective(env, evs) && SessionFor(env, evs, i, user)
    requires id in StateAt(env, evs, n).sessions
    requires StateAt(env, evs, n).sessions[id].tokenHash == env.hashToken(AnswerAt(env, evs, i).session)
    ensures id == StateAt(env, evs, i).nextSession
    ensures StateAt(env, evs, n).sessions[id].user == user
    ensures StateAt(env, evs, n).sessions[id].expiresAt == evs[i].now as nat + 604_800
  {
    hide Exec, EffectOf, StateAt, Inv;
    var i' := SessionOrigin(env, evs, n, id);
    assert env.hashToken(AnswerAt(env, evs, i').session) == env.hashToken(AnswerAt(env, evs, i).session);
    IssuedTokenIsRequests(env, evs, i);
    IssuedTokenIsRequests(env, evs, i');
    assert NoCollision(env, evs, AnswerAt(env, evs, i).session);
    assert i == i';
    var s := StateAt(env, evs, n).sessions[id];
    SessionForOne(env, evs, i, user, s.user);
  }

  lemma SessionForOne(env: Env, evs: seq<Event>, i: nat, a: nat, b: nat)
    requires i < |evs| && SessionFor(env, evs, i, a) && SessionFor(env, evs, i, b)
    ensures a == b
  {
    hide Exec, StateAt;
    var db, db' := StateAt(env, evs, i), StateAt(env, evs, i + 1);
    assert db'.sessions[db.nextSession].user == a;
  }

  /** What a lookup needs of the run: the row of request i is there, alone with its hash. */
  lemma IssuedRowFound(env: Env, evs: seq<Event>, n: nat, i: nat, user: nat)
    requires n <= |evs| && i < n && FreshTokens(evs) && Injective(env, evs) && SessionFor(env, evs, i, user)
    ensures FindSession(StateAt(env, evs, n), env.hashToken(AnswerAt(env, evs, i).session), 0) ==
        Some(StateAt(env, evs, i).nextSession)
  {
    hide Exec, EffectOf, StateAt, EmailsUnique;
    var id := StateAt(env, evs, i).nextSession;
    SessionStays(env, evs, i + 1, n, id);
    StateInv(env, evs, n);
    var db := StateAt(env, evs, n);
    var found := FindSession(db, env.hashToken(AnswerAt(env, evs, i).session), 0);
    if found.Some? {
      TokenFindsItsRow(env, evs, n, i, user, found.value);
    }
  }

  /** Some request answered this token to this account less than the lifetime ago. */
  ghost predicate HeldBy(env: Env, evs: seq<Event>, n: nat, bearer: string, user: nat, now: nat)
    requires n <= |evs|
  {
    exists i :: 0 <= i < n && AnswerAt(env, evs, i) == SessionIssued(bearer) && SessionFor(env, evs, i, user)
                && now < evs[i].now as nat + 604_800
  }

  lemma {:induction false} AuthedIsHeld(env: Env, evs: seq<Event>, n: nat, bearer: string, user: nat, now: nat)
    requires n <= |evs| && NoCollision(env, evs, bearer)
    requires AuthedUser(env, StateAt(env, evs, n), bearer, now) == Some(user)
    ensures HeldBy(env, evs, n, bearer, user, now)
  {
    hide Exec, EffectOf, StateAt;
    var id := FindSession(StateAt(env, evs, n), env.hashToken(bearer), 0).value;
    var i := SessionOrigin(env, evs, n, id);
    IssuedTokenIsRequests(env, evs, i);
    assert env.hashToken(AnswerAt(env, evs, i).session) == env.hashToken(bearer);
  }

  lemma HeldIsAuthed(env: Env, evs: seq<Event>, n: nat, bearer: string, user: nat, now: nat)
    requires n <= |evs| && FreshTokens(evs) && Injective(env, evs)
    requires HeldBy(env, evs, n, bearer, user, now)
    ensures AuthedUser(env, StateAt(env, evs, n), bearer, now) == Some(user)
  {
    hide Exec, EffectOf, StateAt, Injective;
    var i :| 0 <= i < n && AnswerAt(env, evs, i) == SessionIssued(bearer) && SessionFor(env, evs, i, user)
             && now < evs[i].now as nat + 604_800;
    IssuedTokenIsRequests(env, evs, i);
    IssuedRowFound(env, evs, n, i, user);
    TokenFindsItsRow(env, evs, n, i, user, StateAt(env, evs, i).nextSession);
  }

  /** A bearer token resolves to an account exactly when some request answered it to that account
      less than 604800 seconds ago, whatever other requests the run holds. */
  lemma {:induction false} SessionValidity(env: Env, evs: seq<Event>, n: nat, bearer: string, user: nat, now: nat)
    requires n <= |evs| && FreshTokens(evs) && Injective(env, evs) && NoCollision(env, evs, bearer)
    ensures AuthedUser(env, StateAt(env, evs, n), bearer, now) == Some(user) <==> HeldBy(env, evs, n, bearer, user, now)
  {
    hide AuthedUser, HeldBy, Injective, NoCollision, FreshTokens, StateAt;
    if AuthedUser(env, StateAt(env, evs, n), bearer, now) == Some(user) {
      AuthedIsHeld(env, evs, n, bearer, user, now);
    }
    if HeldBy(env, evs, n, bearer, user, now) {
      HeldIsAuthed(env, evs, n, bearer, user, now);
    }
  }

  /** Once an issued token is rejected it is rejected in every later state at every later time. */
  lemma {:induction false} RejectedForever(env: Env, evs: seq<Event>, i: nat, m: nat, n: nat, now: nat, later: nat)
    requires i < m <= n <= |evs| && FreshTokens(evs) && Injective(env, evs) && AnswerAt(env, evs, i).SessionIssued?
    requires now <= later && AuthedUser(env, StateAt(env, evs, m), AnswerAt(env, evs, i).session, now).None?
    ensures AuthedUser(env, StateAt(env, evs, n), AnswerAt(env, evs, i).session, later).None?
  {
    hide AuthedUser, NoCollision, StateAt, EffectOf, SessionFor;
    var bearer := AnswerAt(env, evs, i).session;
    IssuedTokenIsRequests(env, evs, i);
    assert NoCollision(env, evs, bearer);
    MintedSession(env, evs, i);
    var user := EffectAt(env, evs, i).user;
    SessionValidity(env, evs, m, bearer, user, now);
    var answer := AuthedUser(env, StateAt(env, evs, n), bearer, later);
    if answer.Some? {
      SessionValidity(env, evs, n, bearer, answer.value, later);
      var i' :| 0 <= i' < n && AnswerAt(env, evs, i') == SessionIssued(bearer) && SessionFor(env, evs, i', answer.value)
                && later < evs[i'].now as nat + 604_800;
      IssuedTokenIsRequests(env, evs, i');
      assert false;
    }
  }
}
