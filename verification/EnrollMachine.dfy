/** Enrollment, activation, logins, second factors and disabling, interleaved one SQL statement at a
    time. `enroll` and the wipe of `disable` are transactions on a private copy that commit only if
    nothing was committed since; everything else is autocommit. Any statement may fail: the request
    ends, leaving nothing of an open transaction behind, except that the results of the UPDATE that
    marks a recovery code consumed and of the DELETE of a challenge are ignored. */
module EnrollMachine {
  import opened Wrappers
  import opened RecoveryCodes

  datatype Row = Row(user: nat, consumed: bool)

  datatype Secret = Secret(seed: nat, active: bool)

  /** `totp_secrets`, and `totp_recovery_codes` and `totp_challenges` (the account of each challenge)
      with their AUTOINCREMENT counters. */
  datatype Tables = Tables(secrets: map<nat, Secret>, recovery: map<nat, Row>, nextRow: nat,
                           challenges: map<nat, nat>, nextChallenge: nat)

  const EMPTY := Tables(map[], map[], 0, map[], 0)

  /** What a second factor is presented for: to disable, or to redeem a challenge for a session. */
  datatype Goal = Disable | SignIn(challenge: nat)

  /** A login is past its password check; a second factor to disable is past its own. */
  datatype Request =
    | Enroll(user: nat, seed: nat)
    | Activate(user: nat)
    | Login(user: nat)
    | Factor(user: nat, goal: Goal)

  datatype Pc =
    | Ready
    | EnrollChecked
    | Inserting(at: nat, tx: Tables, k: nat)
    | ActivateChecked(seed: nat)
    | LoginChecked
    | ChallengeRead
    | FactorChecked(row: Option<nat>)
    | Dropping(accepted: bool)
    | Minting
    | WipeReady
    | SecretDeleted(at: nat, tx: Tables)
    | RowsDeleted(at: nat, tx: Tables)
    | ChallengesDeleted(at: nat, tx: Tables)
    | Done(ok: bool)

  datatype Proc = Proc(req: Request, pc: Pc)

  datatype State = State(tables: Tables, commits: nat, procs: map<nat, Proc>)

  const START := State(EMPTY, 0, map[])

  /** `row` is the recovery row the presented code matches, if it is a recovery code; `good` is
      whether a code that goes to the TOTP check fits, or a challenge has not expired. `fault` makes
      the statement fail. */
  datatype Event = Arrive(r: nat, req: Request) | Step(r: nat, row: Option<nat>, good: bool, fault: bool)

  function RowsOf(t: Tables, user: nat): set<nat> {
    set id | id in t.recovery && t.recovery[id].user == user
  }

  function InsertRow(t: Tables, user: nat): Tables {
    t.(recovery := t.recovery[t.nextRow := Row(user, false)], nextRow := t.nextRow + 1)
  }

  function DeleteRows(t: Tables, user: nat): Tables {
    t.(recovery := map id | id in t.recovery && t.recovery[id].user != user :: t.recovery[id])
  }

  function Consume(t: Tables, row: nat): Tables {
    if row in t.recovery then t.(recovery := t.recovery[row := t.recovery[row].(consumed := true)]) else t
  }

  function ActivateSecret(t: Tables, user: nat): Tables {
    if user in t.secrets then t.(secrets := t.secrets[user := t.secrets[user].(active := true)]) else t
  }

  function InsertChallenge(t: Tables, user: nat): Tables {
    t.(challenges := t.challenges[t.nextChallenge := user], nextChallenge := t.nextChallenge + 1)
  }

  function DropChallenge(t: Tables, id: nat): Tables {
    t.(challenges := t.challenges - {id})
  }

  function DeleteChallenges(t: Tables, user: nat): Tables {
    t.(challenges := map id | id in t.challenges && t.challenges[id] != user :: t.challenges[id])
  }

  function At(s: State, r: nat, req: Request, pc: Pc): State {
    s.(procs := s.procs[r := Proc(req, pc)])
  }

  /** An autocommit write. */
  function Write(s: State, t: Tables): State {
    s.(tables := t, commits := s.commits + 1)
  }

  /** COMMIT: the private copy becomes the tables, if nobody committed since it was taken. */
  function Commit(s: State, r: nat, req: Request, at: nat, tx: Tables): State {
    if s.commits == at then At(Write(s, tx), r, req, Done(true)) else At(s, r, req, Done(false))
  }

  function EnrollStep(s: State, r: nat, req: Request, pc: Pc): State
    requires req.Enroll? && (pc.Ready? || pc.EnrollChecked? || pc.Inserting?)
  {
    match pc
    case Ready => At(s, r, req, if req.user in s.tables.secrets then Done(false) else EnrollChecked)
    case EnrollChecked =>
      if req.user in s.tables.secrets then At(s, r, req, Done(false))
      else At(s, r, req, Inserting(s.commits,
          s.tables.(secrets := s.tables.secrets[req.user := Secret(req.seed, false)]), 0))
    case Inserting(at, tx, k) =>
      if k < CODE_COUNT then At(s, r, req, Inserting(at, InsertRow(tx, req.user), k + 1))
      else Commit(s, r, req, at, tx)
  }

  function ActivateStep(s: State, r: nat, req: Request, pc: Pc, good: bool): State
    requires pc.Ready? || pc.ActivateChecked?
  {
    match pc
    case Ready =>
      var pending := req.user in s.tables.secrets && !s.tables.secrets[req.user].active;
      At(s, r, req, if pending && good then ActivateChecked(s.tables.secrets[req.user].seed) else Done(false))
    case ActivateChecked(_) => At(Write(s, ActivateSecret(s.tables, req.user)), r, req, Done(true))
  }

  /** An inactive account gets its session at once, an active one a challenge. */
  function LoginStep(s: State, r: nat, req: Request, pc: Pc): State
    requires req.Login? && (pc.Ready? || pc.LoginChecked? || pc.Minting?)
  {
    match pc
    case Ready =>
      var active := req.user in s.tables.secrets && s.tables.secrets[req.user].active;
      At(s, r, req, if active then LoginChecked else Minting)
    case LoginChecked => At(Write(s, InsertChallenge(s.tables, req.user)), r, req, Done(true))
    case Minting => Mint(s, r, req)
  }

  /** INSERT INTO sessions, a table of its own. */
  function Mint(s: State, r: nat, req: Request): State {
    At(Write(s, s.tables), r, req, Done(true))
  }

  function AfterFactor(req: Request): Pc
    requires req.Factor?
  {
    if req.goal.Disable? then WipeReady else Dropping(true)
  }

  function AfterDrop(accepted: bool): Pc {
    if accepted then Minting else Done(false)
  }

  /** The SELECT of the challenge; an expired one is deleted and refused. */
  function ReadChallenge(s: State, r: nat, req: Request, live: bool): State
    requires req.Factor? && req.goal.SignIn?
  {
    var id := req.goal.challenge;
    At(s, r, req, if id !in s.tables.challenges || s.tables.challenges[id] != req.user then Done(false)
                  else if live then ChallengeRead
                  else Dropping(false))
  }

  /** The SELECT of the unconsumed rows, or the TOTP check. */
  function CheckCode(s: State, r: nat, req: Request, row: Option<nat>, good: bool): State {
    if row.Some? then
      var matches := row.value in s.tables.recovery && s.tables.recovery[row.value] == Row(req.user, false);
      At(s, r, req, if matches then FactorChecked(row) else Done(false))
    else
      var active := req.user in s.tables.secrets && s.tables.secrets[req.user].active;
      At(s, r, req, if active && good then FactorChecked(None) else Done(false))
  }

  predicate InFactor(pc: Pc) {
    || pc.Ready? || pc.ChallengeRead? || pc.FactorChecked? || pc.Dropping? || pc.Minting?
    || pc.WipeReady? || pc.SecretDeleted? || pc.RowsDeleted? || pc.ChallengesDeleted?
  }

  /** The check of a second factor and the UPDATE of a matched row; before and after them, to sign in,
      the SELECT and DELETE of the challenge and the new session, and to disable the three deletes of
      its transaction. */
  function FactorStep(s: State, r: nat, req: Request, pc: Pc, row: Option<nat>, good: bool): State
    requires req.Factor? && InFactor(pc)
  {
    match pc
    case Ready => if req.goal.Disable? then CheckCode(s, r, req, row, good) else ReadChallenge(s, r, req, good)
    case ChallengeRead => CheckCode(s, r, req, row, good)
    case FactorChecked(matched) =>
      var s' := if matched.Some? then Write(s, Consume(s.tables, matched.value)) else s;
      At(s', r, req, AfterFactor(req))
    case Dropping(accepted) =>
      var t := if req.goal.SignIn? then DropChallenge(s.tables, req.goal.challenge) else s.tables;
      At(Write(s, t), r, req, AfterDrop(accepted))
    case Minting => Mint(s, r, req)
    case WipeReady =>
      At(s, r, req, SecretDeleted(s.commits, s.tables.(secrets := s.tables.secrets - {req.user})))
    case SecretDeleted(at, tx) => At(s, r, req, RowsDeleted(at, DeleteRows(tx, req.user)))
    case RowsDeleted(at, tx) => At(s, r, req, ChallengesDeleted(at, DeleteChallenges(tx, req.user)))
    case ChallengesDeleted(at, tx) => Commit(s, r, req, at, tx)
  }

  /** Where a failed statement leaves its request. */
  function FaultPc(req: Request, pc: Pc): Pc {
    if req.Factor? && pc.FactorChecked? then AfterFactor(req)
    else if pc.Dropping? then AfterDrop(pc.accepted)
    else Done(false)
  }

  function Exec(s: State, e: Event): State {
    match e
    case Arrive(r, req) => if r in s.procs then s else At(s, r, req, Ready)
    case Step(r, row, good, fault) =>
      if r !in s.procs || s.procs[r].pc.Done? then s
      else
        var Proc(req, pc) := s.procs[r];
        if fault then At(s, r, req, FaultPc(req, pc))
        else if req.Enroll? && (pc.Ready? || pc.EnrollChecked? || pc.Inserting?) then EnrollStep(s, r, req, pc)
        else if req.Activate? && (pc.Ready? || pc.ActivateChecked?) then ActivateStep(s, r, req, pc, good)
        else if req.Login? && (pc.Ready? || pc.LoginChecked? || pc.Minting?) then LoginStep(s, r, req, pc)
        else if req.Factor? && InFactor(pc) then FactorStep(s, r, req, pc, row, good)
        else s
  }

  function Run(events: seq<Event>): State {
    if events == [] then START else Exec(Run(events[..|events| - 1]), events[|events| - 1])
  }

  // ---------- the shape ----------

  /** Accounts with a secret row have ten recovery rows, others none, except that `user` is
      mid-transaction with a secret row or not and `k` recovery rows. */
  ghost predicate ShapeBut(t: Tables, user: nat, enrolled: bool, k: nat) {
    && (forall id | id in t.recovery :: id < t.nextRow)
    && (forall u: nat | u != user :: |RowsOf(t, u)| == if u in t.secrets then CODE_COUNT else 0)
    && (user in t.secrets <==> enrolled) && |RowsOf(t, user)| == k
  }

  ghost predicate Shape(t: Tables) {
    && (forall id | id in t.recovery :: id < t.nextRow)
    && forall u: nat :: |RowsOf(t, u)| == if u in t.secrets then CODE_COUNT else 0
  }

  lemma ShapeOf(t: Tables, user: nat)
    ensures Shape(t) <==> ShapeBut(t, user, user in t.secrets, if user in t.secrets then CODE_COUNT else 0)
  {
  }

  /** Same secrets, and the same rows for every account. */
  lemma SameRowsSameShape(a: Tables, b: Tables)
    requires Shape(a) && b.secrets.Keys == a.secrets.Keys && b.nextRow == a.nextRow
    requires forall id | id in b.recovery :: id in a.recovery
    requires forall id | id in a.recovery :: id in b.recovery && b.recovery[id].user == a.recovery[id].user
    ensures Shape(b)
  {
    forall u: nat
      ensures |RowsOf(b, u)| == if u in b.secrets then CODE_COUNT else 0
    {
      assert RowsOf(b, u) == RowsOf(a, u);
      assert u in a.secrets.Keys <==> u in b.secrets.Keys;
    }
  }

  lemma InsertShape(t: Tables, user: nat, k: nat)
    requires ShapeBut(t, user, true, k)
    ensures ShapeBut(InsertRow(t, user), user, true, k + 1)
  {
    InsertedRows(t, user);
    hide RowsOf;
  }

  lemma InsertedRows(t: Tables, user: nat)
    requires forall id | id in t.recovery :: id < t.nextRow
    ensures |RowsOf(InsertRow(t, user), user)| == |RowsOf(t, user)| + 1
    ensures forall u: nat | u != user :: RowsOf(InsertRow(t, user), u) == RowsOf(t, u)
  {
    var t' := InsertRow(t, user);
    assert RowsOf(t', user) == RowsOf(t, user) + {t.nextRow};
    forall u: nat | u != user
      ensures RowsOf(t', u) == RowsOf(t, u)
    {
    }
  }

  lemma SecretShape(t: Tables, user: nat, t': Tables)
    requires Shape(t) && t'.recovery == t.recovery && t'.nextRow == t.nextRow
    requires forall u: nat | u != user :: u in t'.secrets <==> u in t.secrets
    ensures ShapeBut(t', user, user in t'.secrets, if user in t.secrets then CODE_COUNT else 0)
  {
    forall u: nat
      ensures RowsOf(t', u) == RowsOf(t, u)
    {
    }
  }

  lemma DeleteShape(t: Tables, user: nat, k: nat)
    requires ShapeBut(t, user, false, k)
    ensures ShapeBut(DeleteRows(t, user), user, false, 0)
  {
    var t' := DeleteRows(t, user);
    assert RowsOf(t', user) == {};
    forall u: nat | u != user
      ensures |RowsOf(t', u)| == if u in t'.secrets then CODE_COUNT else 0
    {
      assert RowsOf(t', u) == RowsOf(t, u);
    }
  }

  // ---------- what a transaction has done to other accounts: nothing ----------

  /** The two tables agree on every account but `user`. */
  ghost predicate AgreeBut(a: Tables, b: Tables, user: nat) {
    && (forall u: nat | u != user ::
         (u in a.secrets <==> u in b.secrets) && (u in a.secrets ==> a.secrets[u] == b.secrets[u]))
    && (forall id | id in a.recovery && a.recovery[id].user != user ::
         id in b.recovery && b.recovery[id] == a.recovery[id])
    && (forall id | id in b.recovery && b.recovery[id].user != user ::
         id in a.recovery && a.recovery[id] == b.recovery[id])
  }

  lemma InsertAgrees(a: Tables, t: Tables, user: nat)
    requires AgreeBut(a, t, user) && forall id | id in t.recovery :: id < t.nextRow
    ensures AgreeBut(a, InsertRow(t, user), user)
  {
  }

  lemma DeleteAgrees(a: Tables, t: Tables, user: nat)
    requires AgreeBut(a, t, user)
    ensures AgreeBut(a, DeleteRows(t, user), user)
  {
  }

  // ---------- challenges ----------

  /** Challenge ids are not used again: a challenge keeps its account. */
  ghost predicate ChallengesKeep(a: Tables, b: Tables) {
    && a.nextChallenge <= b.nextChallenge
    && forall id | id in b.challenges && id < a.nextChallenge ::
         id in a.challenges && b.challenges[id] == a.challenges[id]
  }

  /** The two tables have the same challenges of every account but `user`. */
  ghost predicate ChallengesAgree(a: Tables, b: Tables, user: nat) {
    && (forall id | id in a.challenges && a.challenges[id] != user ::
          id in b.challenges && b.challenges[id] == a.challenges[id])
    && (forall id | id in b.challenges && b.challenges[id] != user ::
          id in a.challenges && a.challenges[id] == b.challenges[id])
  }

  ghost predicate ChallengeIdsBelow(t: Tables) {
    forall id | id in t.challenges :: id < t.nextChallenge
  }

  /** What a private copy, or a statement for `user`, may have done to the challenges. */
  ghost predicate ChallengesLocal(t: Tables, tx: Tables, user: nat) {
    ChallengeIdsBelow(tx) && ChallengesKeep(t, tx) && ChallengesAgree(t, tx, user)
  }

  /** The challenge was the account's, and still is if it is there. */
  predicate Theirs(t: Tables, id: nat, user: nat) {
    id < t.nextChallenge && (id in t.challenges ==> t.challenges[id] == user)
  }

  lemma SameChallenges(t: Tables, tx: Tables, tx': Tables, user: nat)
    requires ChallengesLocal(t, tx, user) && tx'.challenges == tx.challenges && tx'.nextChallenge == tx.nextChallenge
    ensures ChallengesLocal(t, tx', user)
  {
  }

  lemma InsertChallengeLocal(t: Tables, user: nat)
    requires ChallengeIdsBelow(t)
    ensures ChallengesLocal(t, InsertChallenge(t, user), user)
  {
  }

  lemma DropChallengeLocal(t: Tables, id: nat, user: nat)
    requires ChallengeIdsBelow(t) && Theirs(t, id, user)
    ensures ChallengesLocal(t, DropChallenge(t, id), user)
  {
  }

  lemma DeleteChallengesLocal(t: Tables, tx: Tables, user: nat)
    requires ChallengesLocal(t, tx, user)
    ensures ChallengesLocal(t, DeleteChallenges(tx, user), user)
  {
  }

  // ---------- what every step keeps ----------

  /** Row ids are not used again: a row keeps its account, and once consumed stays consumed. */
  ghost predicate RowsKeep(a: Tables, b: Tables) {
    && a.nextRow <= b.nextRow
    && forall id | id in b.recovery && id < a.nextRow ::
         id in a.recovery && a.recovery[id].user == b.recovery[id].user
             && (a.recovery[id].consumed ==> b.recovery[id].consumed)
  }

  /** An enrollment that is in place before and after is the same one: the same seed and rows. */
  ghost predicate SameEnrollment(t: Tables, tx: Tables, user: nat) {
    user in t.secrets && user in tx.secrets ==>
      tx.secrets[user].seed == t.secrets[user].seed && RowsOf(tx, user) == RowsOf(t, user)
  }

  /** What a private copy may have done to the tables it was taken from. */
  ghost predicate Local(t: Tables, tx: Tables, user: nat) {
    AgreeBut(t, tx, user) && RowsKeep(t, tx) && SameEnrollment(t, tx, user) && ChallengesLocal(t, tx, user)
  }

  lemma LocalRefl(t: Tables, user: nat)
    requires ChallengeIdsBelow(t)
    ensures Local(t, t, user)
  {
  }

  lemma InsertLocal(a: Tables, t: Tables, user: nat)
    requires Local(a, t, user) && user !in a.secrets && forall id | id in t.recovery :: id < t.nextRow
    ensures Local(a, InsertRow(t, user), user)
  {
    hide AgreeBut, RowsOf, ChallengesLocal;
    SameChallenges(a, t, InsertRow(t, user), user);
    InsertAgrees(a, t, user);
  }

  lemma DeleteLocal(a: Tables, t: Tables, user: nat)
    requires Local(a, t, user) && user !in t.secrets
    ensures Local(a, DeleteRows(t, user), user)
  {
    hide AgreeBut, RowsOf, ChallengesLocal;
    SameChallenges(a, t, DeleteRows(t, user), user);
    DeleteAgrees(a, t, user);
  }

  /** If the row is still there, it is the user's. */
  predicate RowUsers(t: Tables, row: nat, user: nat) {
    row in t.recovery ==> t.recovery[row].user == user
  }

  /** A new enrollment: pending with its seed, and none of its recovery rows consumed. */
  ghost predicate Pending(t: Tables, user: nat, seed: nat) {
    && user in t.secrets && t.secrets[user] == Secret(seed, false)
    && forall id | id in t.recovery && t.recovery[id].user == user :: !t.recovery[id].consumed
  }

  /** An open transaction's copy has the shape its progress implies, and while nobody has committed
      since, differs from the tables only for its own account. */
  ghost predicate PcOk(t: Tables, commits: nat, req: Request, pc: Pc) {
    match pc
    case Inserting(at, tx, k) =>
      req.Enroll? && k <= CODE_COUNT && at <= commits && ShapeBut(tx, req.user, true, k)
          && Pending(tx, req.user, req.seed)
      && (at == commits ==> Local(t, tx, req.user) && req.user !in t.secrets)
    case SecretDeleted(at, tx) =>
      req.Factor? && req.goal.Disable? && at <= commits && ShapeBut(tx, req.user, false, |RowsOf(tx, req.user)|)
      && (at == commits ==> Local(t, tx, req.user))
    case RowsDeleted(at, tx) =>
      req.Factor? && req.goal.Disable? && at <= commits && ShapeBut(tx, req.user, false, 0)
      && (at == commits ==> Local(t, tx, req.user))
    case ChallengesDeleted(at, tx) =>
      && req.Factor? && req.goal.Disable? && at <= commits && ShapeBut(tx, req.user, false, 0)
      && (forall id | id in tx.challenges :: tx.challenges[id] != req.user)
      && (at == commits ==> Local(t, tx, req.user))
    case ChallengeRead => req.Factor? && req.goal.SignIn? && Theirs(t, req.goal.challenge, req.user)
    case FactorChecked(row) =>
      && req.Factor? && (row.Some? ==> row.value < t.nextRow && RowUsers(t, row.value, req.user))
      && (req.goal.SignIn? ==> Theirs(t, req.goal.challenge, req.user))
    case Dropping(_) => req.Factor? && req.goal.SignIn? && Theirs(t, req.goal.challenge, req.user)
    case Minting => req.Login? || (req.Factor? && req.goal.SignIn?)
    case LoginChecked => req.Login?
    case Ready => true
    case EnrollChecked => req.Enroll?
    case ActivateChecked(_) => req.Activate?
    case WipeReady => req.Factor? && req.goal.Disable?
    case Done(_) => true
  }

  ghost predicate Inv(s: State) {
    && Shape(s.tables) && ChallengeIdsBelow(s.tables)
    && forall r | r in s.procs :: PcOk(s.tables, s.commits, s.procs[r].req, s.procs[r].pc)
  }

  /** The step of one request: its own program counter is consistent again, the tables keep their
      shape, row ids their accounts, and other accounts everything. */
  ghost predicate StepOk(s: State, s': State, r: nat, req: Request) {
    && Shape(s'.tables) && Local(s.tables, s'.tables, req.user)
    && (s'.commits > s.commits || (s'.commits == s.commits && s'.tables == s.tables))
    && (forall q | q != r :: (q in s'.procs <==> q in s.procs) && (q in s.procs ==> s'.procs[q] == s.procs[q]))
    && r in s'.procs && s'.procs[r].req == req && PcOk(s'.tables, s'.commits, req, s'.procs[r].pc)
  }

  /** A step that only moves the program counter. */
  lemma MoveOk(s: State, r: nat, req: Request, pc: Pc)
    requires Shape(s.tables) && ChallengeIdsBelow(s.tables) && PcOk(s.tables, s.commits, req, pc)
    ensures StepOk(s, At(s, r, req, pc), r, req)
  {
    hide Shape, Local, PcOk;
    LocalRefl(s.tables, req.user);
  }

  /** A step that writes. */
  lemma WriteOk(s: State, t: Tables, r: nat, req: Request, pc: Pc)
    requires Shape(t) && Local(s.tables, t, req.user) && PcOk(t, s.commits + 1, req, pc)
    ensures StepOk(s, At(Write(s, t), r, req, pc), r, req)
  {
    hide Shape, Local, PcOk;
  }

  lemma CommitOk(s: State, r: nat, req: Request, at: nat, tx: Tables)
    requires Shape(s.tables) && ChallengeIdsBelow(s.tables) && Shape(tx)
    requires at == s.commits ==> Local(s.tables, tx, req.user)
    ensures StepOk(s, Commit(s, r, req, at, tx), r, req)
  {
    hide Shape, Local;
    if s.commits == at {
      WriteOk(s, tx, r, req, Done(true));
    } else {
      MoveOk(s, r, req, Done(false));
    }
  }

  lemma BeginEnroll(t: Tables, user: nat, seed: nat)
    requires Shape(t) && ChallengeIdsBelow(t) && user !in t.secrets
    ensures var tx := t.(secrets := t.secrets[user := Secret(seed, false)]);
            ShapeBut(tx, user, true, 0) && Local(t, tx, user) && Pending(tx, user, seed)
  {
    assert |RowsOf(t, user)| == 0;
    assert forall id | id in t.recovery && t.recovery[id].user == user :: id in RowsOf(t, user);
    SecretShape(t, user, t.(secrets := t.secrets[user := Secret(seed, false)]));
  }

  lemma BeginWipe(t: Tables, user: nat)
    requires Shape(t) && ChallengeIdsBelow(t)
    ensures var tx := t.(secrets := t.secrets - {user});
            ShapeBut(tx, user, false, |RowsOf(tx, user)|) && Local(t, tx, user)
  {
    SecretShape(t, user, t.(secrets := t.secrets - {user}));
  }

  lemma InsertedOk(t: Tables, commits: nat, req: Request, at: nat, tx: Tables, k: nat)
    requires PcOk(t, commits, req, Inserting(at, tx, k)) && k < CODE_COUNT
    ensures PcOk(t, commits, req, Inserting(at, InsertRow(tx, req.user), k + 1))
  {
    InsertShape(tx, req.user, k);
    if at == commits {
      InsertLocal(t, tx, req.user);
    }
  }

  lemma EnrollStepOk(s: State, r: nat, req: Request, pc: Pc)
    requires Shape(s.tables) && ChallengeIdsBelow(s.tables) && req.Enroll? && PcOk(s.tables, s.commits, req, pc)
    requires pc.Ready? || pc.EnrollChecked? || pc.Inserting?
    ensures StepOk(s, EnrollStep(s, r, req, pc), r, req)
  {
    hide Shape, ShapeBut, Local, StepOk, InsertRow, RowsOf, Pending;
    match pc
    case Ready => MoveOk(s, r, req, if req.user in s.tables.secrets then Done(false) else EnrollChecked);
    case EnrollChecked =>
      if req.user in s.tables.secrets {
        MoveOk(s, r, req, Done(false));
      } else {
        BeginEnroll(s.tables, req.user, req.seed);
        MoveOk(s, r, req, Inserting(s.commits,
            s.tables.(secrets := s.tables.secrets[req.user := Secret(req.seed, false)]), 0));
      }
    case Inserting(at, tx, k) =>
      if k < CODE_COUNT {
        InsertedOk(s.tables, s.commits, req, at, tx, k);
        MoveOk(s, r, req, Inserting(at, InsertRow(tx, req.user), k + 1));
      } else {
        FullShape(tx, req.user);
        CommitOk(s, r, req, at, tx);
      }
  }

  lemma FullShape(tx: Tables, user: nat)
    requires ShapeBut(tx, user, true, CODE_COUNT)
    ensures Shape(tx)
  {
    ShapeOf(tx, user);
  }

  lemma EmptyShape(tx: Tables, user: nat)
    requires ShapeBut(tx, user, false, 0)
    ensures Shape(tx)
  {
    ShapeOf(tx, user);
  }

  lemma ActivateLocal(t: Tables, user: nat)
    requires Shape(t) && ChallengeIdsBelow(t)
    ensures Shape(ActivateSecret(t, user)) && Local(t, ActivateSecret(t, user), user)
  {
    SameRowsSameShape(t, ActivateSecret(t, user));
  }

  lemma ConsumeLocal(t: Tables, row: nat, user: nat)
    requires Shape(t) && ChallengeIdsBelow(t) && RowUsers(t, row, user)
    ensures Shape(Consume(t, row)) && Local(t, Consume(t, row), user)
  {
    SameRowsSameShape(t, Consume(t, row));
  }

  lemma ActivateStepOk(s: State, r: nat, req: Request, pc: Pc, good: bool)
    requires Shape(s.tables) && ChallengeIdsBelow(s.tables) && req.Activate? && PcOk(s.tables, s.commits, req, pc)
    requires pc.Ready? || pc.ActivateChecked?
    ensures StepOk(s, ActivateStep(s, r, req, pc, good), r, req)
  {
    hide Shape, Local, StepOk, ActivateSecret;
    match pc
    case Ready =>
      var pending := req.user in s.tables.secrets && !s.tables.secrets[req.user].active;
      MoveOk(s, r, req, if pending && good then ActivateChecked(s.tables.secrets[req.user].seed) else Done(false));
    case ActivateChecked(_) =>
      ActivateLocal(s.tables, req.user);
      WriteOk(s, ActivateSecret(s.tables, req.user), r, req, Done(true));
  }

  lemma MintOk(s: State, r: nat, req: Request)
    requires Shape(s.tables) && ChallengeIdsBelow(s.tables)
    ensures StepOk(s, Mint(s, r, req), r, req)
  {
    hide Shape, Local, StepOk;
    LocalRefl(s.tables, req.user);
    WriteOk(s, s.tables, r, req, Done(true));
  }

  lemma ChallengeAdded(t: Tables, user: nat)
    requires Shape(t) && ChallengeIdsBelow(t)
    ensures Shape(InsertChallenge(t, user)) && Local(t, InsertChallenge(t, user), user)
  {
    SameRowsSameShape(t, InsertChallenge(t, user));
    InsertChallengeLocal(t, user);
  }

  lemma ChallengeDropped(t: Tables, id: nat, user: nat)
    requires Shape(t) && ChallengeIdsBelow(t) && Theirs(t, id, user)
    ensures Shape(DropChallenge(t, id)) && Local(t, DropChallenge(t, id), user)
  {
    SameRowsSameShape(t, DropChallenge(t, id));
    DropChallengeLocal(t, id, user);
  }

  lemma LoginStepOk(s: State, r: nat, req: Request, pc: Pc)
    requires Shape(s.tables) && ChallengeIdsBelow(s.tables) && req.Login? && PcOk(s.tables, s.commits, req, pc)
    requires pc.Ready? || pc.LoginChecked? || pc.Minting?
    ensures StepOk(s, LoginStep(s, r, req, pc), r, req)
  {
    hide Shape, Local, StepOk, InsertChallenge, Mint;
    match pc
    case Ready =>
      var active := req.user in s.tables.secrets && s.tables.secrets[req.user].active;
      MoveOk(s, r, req, if active then LoginChecked else Minting);
    case LoginChecked =>
      ChallengeAdded(s.tables, req.user);
      WriteOk(s, InsertChallenge(s.tables, req.user), r, req, Done(true));
    case Minting => MintOk(s, r, req);
  }

  lemma ReadOk(s: State, r: nat, req: Request, live: bool)
    requires Shape(s.tables) && ChallengeIdsBelow(s.tables) && req.Factor? && req.goal.SignIn?
    ensures StepOk(s, ReadChallenge(s, r, req, live), r, req)
  {
    hide StepOk, Shape;
    var id := req.goal.challenge;
    MoveOk(s, r, req, if id !in s.tables.challenges || s.tables.challenges[id] != req.user then Done(false)
                      else if live then ChallengeRead
                      else Dropping(false));
  }

  lemma FactorStepOk(s: State, r: nat, req: Request, pc: Pc, row: Option<nat>, good: bool)
    requires Shape(s.tables) && ChallengeIdsBelow(s.tables) && req.Factor? && PcOk(s.tables, s.commits, req, pc)
    requires InFactor(pc)
    ensures StepOk(s, FactorStep(s, r, req, pc, row, good), r, req)
  {
    hide Shape, ShapeBut, Local, StepOk, Consume, DeleteRows, DeleteChallenges, DropChallenge, RowsOf, CheckCode,
         ReadChallenge, Mint, ChallengeIdsBelow;
    match pc
    case Ready =>
      if req.goal.Disable? { CodeOk(s, r, req, row, good); } else { ReadOk(s, r, req, good); }
    case ChallengeRead => CodeOk(s, r, req, row, good);
    case FactorChecked(matched) => MarkOk(s, r, req, matched);
    case Dropping(accepted) => DropOk(s, r, req, accepted);
    case Minting => MintOk(s, r, req);
    case WipeReady =>
      BeginWipe(s.tables, req.user);
      MoveOk(s, r, req, SecretDeleted(s.commits, s.tables.(secrets := s.tables.secrets - {req.user})));
    case SecretDeleted(at, tx) =>
      DeletedOk(s.tables, s.commits, req, at, tx);
      MoveOk(s, r, req, RowsDeleted(at, DeleteRows(tx, req.user)));
    case RowsDeleted(at, tx) =>
      ClearedOk(s.tables, s.commits, req, at, tx);
      MoveOk(s, r, req, ChallengesDeleted(at, DeleteChallenges(tx, req.user)));
    case ChallengesDeleted(at, tx) =>
      EmptyShape(tx, req.user);
      CommitOk(s, r, req, at, tx);
  }

  lemma MarkOk(s: State, r: nat, req: Request, matched: Option<nat>)
    requires Shape(s.tables) && ChallengeIdsBelow(s.tables) && req.Factor?
    requires PcOk(s.tables, s.commits, req, FactorChecked(matched))
    ensures StepOk(s, FactorStep(s, r, req, FactorChecked(matched), None, false), r, req)
  {
    hide Shape, Local, StepOk;
    if matched.Some? {
      ConsumeLocal(s.tables, matched.value, req.user);
      WriteOk(s, Consume(s.tables, matched.value), r, req, AfterFactor(req));
    } else {
      MoveOk(s, r, req, AfterFactor(req));
    }
  }

  lemma DropOk(s: State, r: nat, req: Request, accepted: bool)
    requires Shape(s.tables) && ChallengeIdsBelow(s.tables) && req.Factor?
    requires PcOk(s.tables, s.commits, req, Dropping(accepted))
    ensures StepOk(s, FactorStep(s, r, req, Dropping(accepted), None, false), r, req)
  {
    hide Shape, Local, StepOk;
    ChallengeDropped(s.tables, req.goal.challenge, req.user);
    WriteOk(s, DropChallenge(s.tables, req.goal.challenge), r, req, AfterDrop(accepted));
  }

  lemma ClearedOk(t: Tables, commits: nat, req: Request, at: nat, tx: Tables)
    requires PcOk(t, commits, req, RowsDeleted(at, tx))
    ensures PcOk(t, commits, req, ChallengesDeleted(at, DeleteChallenges(tx, req.user)))
  {
    hide ChallengesLocal, AgreeBut, RowsKeep, RowsOf;
    ClearedShape(tx, req.user);
    if at == commits {
      ClearedLocal(t, tx, req.user);
    }
  }

  lemma ClearedShape(tx: Tables, user: nat)
    requires ShapeBut(tx, user, false, 0)
    ensures ShapeBut(DeleteChallenges(tx, user), user, false, 0)
  {
    assert forall u: nat :: RowsOf(DeleteChallenges(tx, user), u) == RowsOf(tx, u);
  }

  lemma ClearedLocal(t: Tables, tx: Tables, user: nat)
    requires Local(t, tx, user)
    ensures Local(t, DeleteChallenges(tx, user), user)
  {
    hide ChallengesLocal;
    DeleteChallengesLocal(t, tx, user);
    assert RowsOf(DeleteChallenges(tx, user), user) == RowsOf(tx, user);
  }

  lemma DeletedOk(t: Tables, commits: nat, req: Request, at: nat, tx: Tables)
    requires PcOk(t, commits, req, SecretDeleted(at, tx))
    ensures PcOk(t, commits, req, RowsDeleted(at, DeleteRows(tx, req.user)))
  {
    DeleteShape(tx, req.user, |RowsOf(tx, req.user)|);
    if at == commits {
      DeleteLocal(t, tx, req.user);
    }
  }

  lemma CodeOk(s: State, r: nat, req: Request, row: Option<nat>, good: bool)
    requires Shape(s.tables) && ChallengeIdsBelow(s.tables) && req.Factor?
    requires req.goal.SignIn? ==> Theirs(s.tables, req.goal.challenge, req.user)
    ensures StepOk(s, CheckCode(s, r, req, row, good), r, req)
  {
    hide StepOk, Local, RowsOf;
    if row.Some? {
      var matches := row.value in s.tables.recovery && s.tables.recovery[row.value] == Row(req.user, false);
      MoveOk(s, r, req, if matches then FactorChecked(row) else Done(false));
    } else {
      var active := req.user in s.tables.secrets && s.tables.secrets[req.user].active;
      MoveOk(s, r, req, if active && good then FactorChecked(None) else Done(false));
    }
  }

  /** Another request's program counter survives: a commit makes open snapshots stale, and
      otherwise nothing it speaks of has moved. */
  lemma PcKept(t: Tables, commits: nat, t': Tables, commits': nat, req: Request, pc: Pc)
    requires PcOk(t, commits, req, pc) && RowsKeep(t, t') && ChallengesKeep(t, t')
    requires commits' > commits || (commits' == commits && t' == t)
    ensures PcOk(t', commits', req, pc)
  {
    hide Local, ShapeBut;
  }

  lemma StepKeeps(s: State, s': State, r: nat, req: Request)
    requires Inv(s) && StepOk(s, s', r, req)
    ensures Inv(s')
  {
    hide Shape, PcOk, AgreeBut, RowsKeep;
    forall q | q in s'.procs
      ensures PcOk(s'.tables, s'.commits, s'.procs[q].req, s'.procs[q].pc)
    {
      if q != r {
        PcKept(s.tables, s.commits, s'.tables, s'.commits, s.procs[q].req, s.procs[q].pc);
      }
    }
  }

  /** The account an event works for. */
  function ActorOf(s: State, e: Event): nat {
    match e
    case Arrive(_, req) => req.user
    case Step(r, _, _, _) => if r in s.procs then s.procs[r].req.user else 0
  }

  lemma FaultOk(s: State, r: nat, req: Request, pc: Pc)
    requires Shape(s.tables) && ChallengeIdsBelow(s.tables) && PcOk(s.tables, s.commits, req, pc)
    ensures StepOk(s, At(s, r, req, FaultPc(req, pc)), r, req)
  {
    hide Shape, StepOk, Local, ShapeBut, ChallengeIdsBelow;
    MoveOk(s, r, req, FaultPc(req, pc));
  }

  lemma ExecOk(s: State, e: Event)
    requires Inv(s)
    ensures Exec(s, e) == s || (e.Step? && e.r in s.procs && StepOk(s, Exec(s, e), e.r, s.procs[e.r].req))
            || (e.Arrive? && e.r !in s.procs && StepOk(s, Exec(s, e), e.r, e.req))
  {
    hide Shape, StepOk, PcOk, EnrollStep, ActivateStep, LoginStep, FactorStep, FaultPc, InFactor, ChallengeIdsBelow;
    match e
    case Arrive(r, req) =>
      if r !in s.procs {
        ReadyOk(s, req);
        MoveOk(s, r, req, Ready);
      }
    case Step(r, row, good, fault) =>
      if r in s.procs && !s.procs[r].pc.Done? {
        var Proc(req, pc) := s.procs[r];
        if fault {
          FaultOk(s, r, req, pc);
        } else if req.Enroll? && (pc.Ready? || pc.EnrollChecked? || pc.Inserting?) {
          EnrollStepOk(s, r, req, pc);
        } else if req.Activate? && (pc.Ready? || pc.ActivateChecked?) {
          ActivateStepOk(s, r, req, pc, good);
        } else if req.Login? && (pc.Ready? || pc.LoginChecked? || pc.Minting?) {
          LoginStepOk(s, r, req, pc);
        } else if req.Factor? && InFactor(pc) {
          FactorStepOk(s, r, req, pc, row, good);
        }
      }
  }

  lemma ReadyOk(s: State, req: Request)
    ensures PcOk(s.tables, s.commits, req, Ready)
  {
  }

  lemma InvIds(s: State)
    requires Inv(s)
    ensures ChallengeIdsBelow(s.tables)
  {
  }

  lemma ExecKeeps(s: State, e: Event)
    requires Inv(s)
    ensures Inv(Exec(s, e)) && Local(s.tables, Exec(s, e).tables, ActorOf(s, e))
  {
    InvIds(s);
    hide Inv, Exec, Shape, PcOk, AgreeBut, RowsKeep, ChallengesLocal, ChallengeIdsBelow;
    ExecOk(s, e);
    if Exec(s, e) == s {
      LocalRefl(s.tables, ActorOf(s, e));
    } else {
      StepKeeps(s, Exec(s, e), e.r, if e.Arrive? then e.req else s.procs[e.r].req);
    }
  }

  lemma {:induction false} RunInv(events: seq<Event>)
    ensures Inv(Run(events))
  {
    if events == [] {
      forall u: nat
        ensures RowsOf(EMPTY, u) == {}
      {
      }
    } else {
      hide Inv, Exec;
      RunInv(events[..|events| - 1]);
      ExecKeeps(Run(events[..|events| - 1]), events[|events| - 1]);
    }
  }

  // ---------- the results ----------

  /** Every account has exactly ten recovery rows if it has a secret row, and none otherwise,
      whatever interleaving, failure and aborted transaction led here. */
  lemma ShapeInEveryRun(events: seq<Event>, user: nat)
    ensures var t := Run(events).tables;
            |RowsOf(t, user)| == if user in t.secrets then 10 else 0
  {
    hide Run, PcOk, RowsOf;
    RunInv(events);
  }

  ghost predicate Outcome(t: Tables, req: Request) {
    match req
    case Enroll(user, seed) => Pending(t, user, seed) && |RowsOf(t, user)| == 10
    case Activate(user) => user in t.secrets ==> t.secrets[user].active
    case Login(_) => true
    case Factor(user, goal) =>
      goal.Disable? ==>
        && user !in t.secrets && RowsOf(t, user) == {}
        && forall id | id in t.challenges :: t.challenges[id] != user
  }

  /** What a request that succeeds has achieved at that moment, in any interleaving. An activation
      whose enrollment was removed after its check still answers success. */
  lemma SuccessMeans(events: seq<Event>, e: Event)
    requires e.Step? && var s := Run(events); e.r in s.procs && !s.procs[e.r].pc.Done?
    requires Exec(Run(events), e).procs[e.r].pc == Done(true)
    ensures Outcome(Exec(Run(events), e).tables, Run(events).procs[e.r].req)
  {
    hide Run, ShapeBut, Local, Shape, Pending, InsertRow, DeleteRows;
    RunInv(events);
    var s := Run(events);
    var Proc(req, pc) := s.procs[e.r];
    if pc.Inserting? {
      WholeRows(pc.tx, req.user, true, pc.k);
    } else if pc.ChallengesDeleted? {
      WholeRows(pc.tx, req.user, false, 0);
    }
  }

  lemma WholeRows(tx: Tables, user: nat, enrolled: bool, k: nat)
    requires ShapeBut(tx, user, enrolled, k)
    ensures (user in tx.secrets <==> enrolled) && |RowsOf(tx, user)| == k && (k == 0 ==> RowsOf(tx, user) == {})
  {
  }

  /** A step taken for one account leaves the secret, the recovery rows and the challenges of every
      other alone. */
  lemma ForeignRowsUntouched(events: seq<Event>, e: Event, other: nat)
    requires other != ActorOf(Run(events), e)
    ensures var t := Run(events).tables; var t' := Exec(Run(events), e).tables;
            && (other in t'.secrets <==> other in t.secrets)
            && (other in t.secrets ==> t'.secrets[other] == t.secrets[other])
            && RowsOf(t', other) == RowsOf(t, other)
            && (forall id | id in RowsOf(t, other) :: t'.recovery[id] == t.recovery[id])
            && forall id: nat ::
                 id in t'.challenges && t'.challenges[id] == other <==> id in t.challenges && t.challenges[id] == other
  {
    hide Run, Exec, Inv;
    RunInv(events);
    ExecKeeps(Run(events), e);
  }

  lemma RowsKeepTrans(a: Tables, b: Tables, c: Tables)
    requires RowsKeep(a, b) && RowsKeep(b, c)
    ensures RowsKeep(a, c)
  {
  }

  /** Between any two points of a run: ids are not used again, a row that is still there belongs to
      the same account, and a consumed row never becomes usable. */
  lemma {:induction false} RowsKeepInRuns(events: seq<Event>, i: nat)
    requires i <= |events|
    ensures RowsKeep(Run(events[..i]).tables, Run(events).tables)
  {
    if i == |events| {
      assert events[..i] == events;
    } else {
      var shorter := events[..|events| - 1];
      assert shorter[..i] == events[..i];
      RowsKeepInRuns(shorter, i);
      RunInv(shorter);
      hide Inv, Exec, RowsKeep, AgreeBut;
      ExecKeeps(Run(shorter), events[|events| - 1]);
      RowsKeepTrans(Run(events[..i]).tables, Run(shorter).tables, Run(events).tables);
    }
  }

  /** The next statement of the request is the check of its code. */
  predicate ChecksCodeNext(p: Proc) {
    p.req.Factor? && (p.pc.ChallengeRead? || (p.pc.Ready? && p.req.goal.Disable?))
  }

  lemma SpentCheckFails(s: State, r: nat, row: nat, good: bool)
    requires r in s.procs && ChecksCodeNext(s.procs[r])
    requires row !in s.tables.recovery || s.tables.recovery[row].consumed
    ensures Exec(s, Step(r, Some(row), good, false)).procs[r].pc == Done(false)
  {
  }

  /** A recovery row found consumed or gone at any point of a run passes no check later in the run:
      two requests can only both be let in by one row if both checked it before either marked it. */
  lemma SpentRowsPassNoCheck(events: seq<Event>, i: nat, r: nat, row: nat, good: bool)
    requires i <= |events| && row < Run(events[..i]).tables.nextRow
    requires var t := Run(events[..i]).tables; row !in t.recovery || t.recovery[row].consumed
    requires r in Run(events).procs && ChecksCodeNext(Run(events).procs[r])
    ensures Exec(Run(events), Step(r, Some(row), good, false)).procs[r].pc == Done(false)
  {
    hide Run, Exec, ChecksCodeNext;
    RowsKeepInRuns(events, i);
    SpentCheckFails(Run(events), r, row, good);
  }
}
