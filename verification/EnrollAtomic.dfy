/** Requests of the interleaved machine whose statements follow one another: without a fault each does
    one whole thing, and the two writes whose results are ignored may fail unnoticed. */
module EnrollAtomic {
  import opened Wrappers
  import opened RecoveryCodes
  import opened EnrollMachine
  import opened EnrollExtremes

  // ---------- one whole request ----------

  /** A request with what its code will match: a recovery row, or the TOTP check; `live` says whether the
      challenge has not expired. */
  datatype Call = Call(req: Request, row: Option<nat>, good: bool, live: bool)

  predicate Passes(t: Tables, user: nat, row: Option<nat>, good: bool) {
    if row.Some? then row.value in t.recovery && t.recovery[row.value] == Row(user, false)
    else good && user in t.secrets && t.secrets[user].active
  }

  function Marked(t: Tables, row: Option<nat>): Tables {
    if row.Some? then Consume(t, row.value) else t
  }

  function Wiped(t: Tables, user: nat): Tables {
    DeleteChallenges(DeleteRows(t.(secrets := t.secrets - {user}), user), user)
  }

  /** The request run alone: the tables it leaves and whether it succeeds. */
  function Alone(t: Tables, c: Call): (Tables, bool) {
    match c.req
    case Enroll(user, seed) => if user in t.secrets then (t, false) else (Enrolled(t, user, seed), true)
    case Activate(user) =>
      if user in t.secrets && !t.secrets[user].active && c.good then (ActivateSecret(t, user), true) else (t, false)
    case Login(user) => (if user in t.secrets && t.secrets[user].active then InsertChallenge(t, user) else t, true)
    case Factor(user, Disable) =>
      if Passes(t, user, c.row, c.good) then (Wiped(Marked(t, c.row), user), true) else (t, false)
    case Factor(user, SignIn(id)) =>
      if id !in t.challenges || t.challenges[id] != user then (t, false)
      else if !c.live then (DropChallenge(t, id), false)
      else if !Passes(t, user, c.row, c.good) then (t, false)
      else (DropChallenge(Marked(t, c.row), id), true)
  }

  function Repeat(s: State, e: Event, n: nat): State
    decreases n
  {
    if n == 0 then s else Repeat(Exec(s, e), e, n - 1)
  }

  function First(c: Call, r: nat): Event {
    Step(r, c.row, if c.req.Factor? && c.req.goal.SignIn? then c.live else c.good, false)
  }

  function Rest(c: Call, r: nat): Event {
    Step(r, c.row, c.good, false)
  }

  /** The request arrives and takes its statements one after another; thirteen are enough for any. */
  function Undisturbed(s: State, r: nat, c: Call): State {
    Repeat(Exec(Exec(s, Arrive(r, c.req)), First(c, r)), Rest(c, r), 12)
  }

  /** The state after, but for the count of commits. */
  ghost predicate Left(s: State, r: nat, c: Call, s': State) {
    s'.tables == Alone(s.tables, c).0 && s'.procs == s.procs[r := Proc(c.req, Done(Alone(s.tables, c).1))]
  }

  lemma {:induction false} RepeatDone(s: State, r: nat, req: Request, ok: bool, e: Event, n: nat)
    requires e.Step? && e.r == r
    ensures Repeat(Put(s, r, req, Done(ok)), e, n) == Put(s, r, req, Done(ok))
  {
    if n == 0 {
    } else {
      RepeatDone(s, r, req, ok, e, n - 1);
    }
  }

  lemma ArriveExec(s: State, r: nat, req: Request)
    requires r !in s.procs
    ensures Exec(s, Arrive(r, req)) == Put(s, r, req, Ready)
  {
  }

  // ---------- enroll, activate, login ----------

  lemma {:induction false} RepeatInserts(s: State, r: nat, req: Request, tx: Tables, k: nat, e: Event, n: nat)
    requires req.Enroll? && k <= CODE_COUNT && n == CODE_COUNT - k + 1 && e.Step? && e.r == r && !e.fault
    ensures Repeat(Put(s, r, req, Inserting(s.commits, InsertRows(tx, req.user, k), k)), e, n) ==
            Put(Write(s, InsertRows(tx, req.user, CODE_COUNT)), r, req, Done(true))
    decreases n
  {
    hide Exec, InsertRow;
    var pc := Inserting(s.commits, InsertRows(tx, req.user, k), k);
    if k == CODE_COUNT {
      LastInsert(s, r, req, InsertRows(tx, req.user, k), e);
    } else {
      OneInsert(s, r, req, InsertRows(tx, req.user, k), k, e);
      RepeatInserts(s, r, req, tx, k + 1, e, n - 1);
    }
  }

  lemma OneInsert(s: State, r: nat, req: Request, tx: Tables, k: nat, e: Event)
    requires req.Enroll? && k < CODE_COUNT && e.Step? && e.r == r && !e.fault
    ensures Exec(Put(s, r, req, Inserting(s.commits, tx, k)), e) ==
            Put(s, r, req, Inserting(s.commits, InsertRow(tx, req.user), k + 1))
  {
    hide InsertRow;
    PutTwice(s, r, req, Inserting(s.commits, tx, k), Inserting(s.commits, InsertRow(tx, req.user), k + 1));
  }

  lemma LastInsert(s: State, r: nat, req: Request, tx: Tables, e: Event)
    requires req.Enroll? && e.Step? && e.r == r && !e.fault
    ensures Exec(Put(s, r, req, Inserting(s.commits, tx, CODE_COUNT)), e) == Put(Write(s, tx), r, req, Done(true))
  {
    PutTwice(Write(s, tx), r, req, Inserting(s.commits, tx, CODE_COUNT), Done(true));
  }

  lemma EnrollBegins(s: State, r: nat, req: Request, e: Event)
    requires req.Enroll? && e.Step? && e.r == r && !e.fault
    ensures req.user in s.tables.secrets ==> Exec(Put(s, r, req, Ready), e) == Put(s, r, req, Done(false))
    ensures req.user !in s.tables.secrets ==>
              && Exec(Put(s, r, req, Ready), e) == Put(s, r, req, EnrollChecked)
              && Exec(Put(s, r, req, EnrollChecked), e) ==
                 Put(s, r, req, Inserting(s.commits,
                       s.tables.(secrets := s.tables.secrets[req.user := Secret(req.seed, false)]), 0))
  {
    var tx := s.tables.(secrets := s.tables.secrets[req.user := Secret(req.seed, false)]);
    PutTwice(s, r, req, Ready, Done(false));
    PutTwice(s, r, req, Ready, EnrollChecked);
    PutTwice(s, r, req, EnrollChecked, Inserting(s.commits, tx, 0));
  }

  lemma EnrollUndisturbed(s: State, r: nat, c: Call)
    requires r !in s.procs && c.req.Enroll?
    ensures Left(s, r, c, Undisturbed(s, r, c))
  {
    hide Exec, InsertRow;
    var req, e := c.req, Rest(c, r);
    ArriveExec(s, r, req);
    EnrollBegins(s, r, req, e);
    if req.user in s.tables.secrets {
      RepeatDone(s, r, req, false, e, 12);
    } else {
      var tx := s.tables.(secrets := s.tables.secrets[req.user := Secret(req.seed, false)]);
      assert InsertRows(tx, req.user, 0) == tx;
      RepeatInserts(s, r, req, tx, 0, e, 11);
    }
  }

  lemma ActivateSteps(s: State, r: nat, req: Request, e: Event)
    requires req.Activate? && e.Step? && e.r == r && !e.fault
    ensures var t := s.tables;
            var pending := req.user in t.secrets && !t.secrets[req.user].active;
            && (!(pending && e.good) ==> Exec(Put(s, r, req, Ready), e) == Put(s, r, req, Done(false)))
            && (pending && e.good ==>
                  Exec(Put(s, r, req, Ready), e) == Put(s, r, req, ActivateChecked(t.secrets[req.user].seed)))
    ensures forall seed: nat ::
              Exec(Put(s, r, req, ActivateChecked(seed)), e) ==
              Put(Write(s, ActivateSecret(s.tables, req.user)), r, req, Done(true))
  {
    hide ActivateSecret;
    PutTwice(s, r, req, Ready, Done(false));
    if req.user in s.tables.secrets {
      PutTwice(s, r, req, Ready, ActivateChecked(s.tables.secrets[req.user].seed));
    }
    forall seed: nat
      ensures Exec(Put(s, r, req, ActivateChecked(seed)), e) ==
              Put(Write(s, ActivateSecret(s.tables, req.user)), r, req, Done(true))
    {
      PutTwice(Write(s, ActivateSecret(s.tables, req.user)), r, req, ActivateChecked(seed), Done(true));
    }
  }

  lemma ActivateUndisturbed(s: State, r: nat, c: Call)
    requires r !in s.procs && c.req.Activate?
    ensures Left(s, r, c, Undisturbed(s, r, c))
  {
    hide Exec, ActivateSecret;
    var req, e := c.req, Rest(c, r);
    ArriveExec(s, r, req);
    ActivateSteps(s, r, req, e);
    RepeatDone(s, r, req, false, e, 12);
    RepeatDone(Write(s, ActivateSecret(s.tables, req.user)), r, req, true, e, 11);
  }

  lemma LoginSteps(s: State, r: nat, req: Request, e: Event)
    requires req.Login? && e.Step? && e.r == r && !e.fault
    ensures var active := req.user in s.tables.secrets && s.tables.secrets[req.user].active;
            Exec(Put(s, r, req, Ready), e) == Put(s, r, req, if active then LoginChecked else Minting)
    ensures Exec(Put(s, r, req, LoginChecked), e) ==
            Put(Write(s, InsertChallenge(s.tables, req.user)), r, req, Done(true))
    ensures Exec(Put(s, r, req, Minting), e) == Put(Write(s, s.tables), r, req, Done(true))
  {
    hide InsertChallenge;
    PutTwice(s, r, req, Ready, LoginChecked);
    PutTwice(s, r, req, Ready, Minting);
    PutTwice(Write(s, InsertChallenge(s.tables, req.user)), r, req, LoginChecked, Done(true));
    PutTwice(Write(s, s.tables), r, req, Minting, Done(true));
  }

  lemma LoginUndisturbed(s: State, r: nat, c: Call)
    requires r !in s.procs && c.req.Login?
    ensures Left(s, r, c, Undisturbed(s, r, c))
  {
    hide Exec, InsertChallenge;
    var req, e := c.req, Rest(c, r);
    ArriveExec(s, r, req);
    LoginSteps(s, r, req, e);
    RepeatDone(Write(s, InsertChallenge(s.tables, req.user)), r, req, true, e, 11);
    RepeatDone(Write(s, s.tables), r, req, true, e, 11);
  }

  // ---------- second factors ----------

  function Mark(s: State, row: Option<nat>): State {
    if row.Some? then Write(s, Consume(s.tables, row.value)) else s
  }

  lemma CheckStep(s: State, r: nat, req: Request, pc: Pc, e: Event)
    requires req.Factor? && pc == (if req.goal.Disable? then Ready else ChallengeRead)
    requires e.Step? && e.r == r && !e.fault
    ensures Exec(Put(s, r, req, pc), e) ==
            Put(s, r, req, if Passes(s.tables, req.user, e.row, e.good) then FactorChecked(e.row) else Done(false))
  {
    PutTwice(s, r, req, pc, FactorChecked(e.row));
    PutTwice(s, r, req, pc, Done(false));
  }

  lemma MarkStep(s: State, r: nat, req: Request, row: Option<nat>, e: Event)
    requires req.Factor? && e.Step? && e.r == r && !e.fault
    ensures Exec(Put(s, r, req, FactorChecked(row)), e) == Put(Mark(s, row), r, req, AfterFactor(req))
  {
    hide Consume;
    PutTwice(Mark(s, row), r, req, FactorChecked(row), AfterFactor(req));
  }

  lemma WipeSteps(s: State, r: nat, req: Request, e: Event)
    requires req.Factor? && e.Step? && e.r == r && !e.fault
    ensures Repeat(Put(s, r, req, WipeReady), e, 4) == Put(Write(s, Wiped(s.tables, req.user)), r, req, Done(true))
  {
    hide Exec, DeleteRows, DeleteChallenges;
    var t1 := s.tables.(secrets := s.tables.secrets - {req.user});
    var t2 := DeleteRows(t1, req.user);
    var t3 := DeleteChallenges(t2, req.user);
    DeleteSecretStep(s, r, req, e);
    DeleteRowsStep(s, r, req, t1, e);
    DeleteChallengesStep(s, r, req, t2, e);
    CommitWipeStep(s, r, req, t3, e);
    assert Repeat(Put(s, r, req, WipeReady), e, 4) == Repeat(Put(s, r, req, RowsDeleted(s.commits, t2)), e, 2);
  }

  lemma DeleteSecretStep(s: State, r: nat, req: Request, e: Event)
    requires req.Factor? && e.Step? && e.r == r && !e.fault
    ensures Exec(Put(s, r, req, WipeReady), e) ==
        Put(s, r, req, SecretDeleted(s.commits, s.tables.(secrets := s.tables.secrets - {req.user})))
  {
    hide DeleteRows, DeleteChallenges;
    PutTwice(s, r, req, WipeReady, SecretDeleted(s.commits, s.tables.(secrets := s.tables.secrets - {req.user})));
  }

  lemma DeleteRowsStep(s: State, r: nat, req: Request, tx: Tables, e: Event)
    requires req.Factor? && e.Step? && e.r == r && !e.fault
    ensures Exec(Put(s, r, req, SecretDeleted(s.commits, tx)), e) ==
        Put(s, r, req, RowsDeleted(s.commits, DeleteRows(tx, req.user)))
  {
    hide DeleteRows, DeleteChallenges;
    PutTwice(s, r, req, SecretDeleted(s.commits, tx), RowsDeleted(s.commits, DeleteRows(tx, req.user)));
  }

  lemma DeleteChallengesStep(s: State, r: nat, req: Request, tx: Tables, e: Event)
    requires req.Factor? && e.Step? && e.r == r && !e.fault
    ensures Exec(Put(s, r, req, RowsDeleted(s.commits, tx)), e) ==
        Put(s, r, req, ChallengesDeleted(s.commits, DeleteChallenges(tx, req.user)))
  {
    hide DeleteRows, DeleteChallenges;
    PutTwice(s, r, req, RowsDeleted(s.commits, tx), ChallengesDeleted(s.commits, DeleteChallenges(tx, req.user)));
  }

  lemma CommitWipeStep(s: State, r: nat, req: Request, tx: Tables, e: Event)
    requires req.Factor? && e.Step? && e.r == r && !e.fault
    ensures Exec(Put(s, r, req, ChallengesDeleted(s.commits, tx)), e) == Put(Write(s, tx), r, req, Done(true))
  {
    hide DeleteRows, DeleteChallenges;
    PutTwice(Write(s, tx), r, req, ChallengesDeleted(s.commits, tx), Done(true));
  }

  lemma {:induction false} RepeatAdd(s: State, e: Event, m: nat, n: nat)
    ensures Repeat(s, e, m + n) == Repeat(Repeat(s, e, m), e, n)
    decreases m
  {
    hide Exec;
    if m == 0 {
    } else {
      RepeatAdd(Exec(s, e), e, m - 1, n);
    }
  }

  lemma DisableUndisturbed(s: State, r: nat, c: Call)
    requires r !in s.procs && c.req.Factor? && c.req.goal.Disable?
    ensures Left(s, r, c, Undisturbed(s, r, c))
  {
    hide Exec, Wiped, Consume, Passes;
    var req, e := c.req, Rest(c, r);
    var s1 := Mark(s, c.row);
    ArriveExec(s, r, req);
    CheckStep(s, r, req, Ready, e);
    if Passes(s.tables, req.user, c.row, c.good) {
      MarkStep(s, r, req, c.row, e);
      RepeatAdd(Put(s1, r, req, WipeReady), e, 4, 7);
      WipeSteps(s1, r, req, e);
      RepeatDone(Write(s1, Wiped(s1.tables, req.user)), r, req, true, e, 7);
      assert Repeat(Put(s, r, req, FactorChecked(c.row)), e, 12) == Repeat(Put(s1, r, req, WipeReady), e, 11);
    } else {
      RepeatDone(s, r, req, false, e, 12);
    }
  }

  lemma ReadStep(s: State, r: nat, req: Request, e: Event)
    requires req.Factor? && req.goal.SignIn? && e.Step? && e.r == r && !e.fault
    ensures var id, t := req.goal.challenge, s.tables;
            Exec(Put(s, r, req, Ready), e) ==
            Put(s, r, req, if id !in t.challenges || t.challenges[id] != req.user then Done(false)
                           else if e.good then ChallengeRead else Dropping(false))
  {
    PutTwice(s, r, req, Ready, Done(false));
    PutTwice(s, r, req, Ready, ChallengeRead);
    PutTwice(s, r, req, Ready, Dropping(false));
  }

  lemma DropSteps(s: State, r: nat, req: Request, accepted: bool, e: Event)
    requires req.Factor? && req.goal.SignIn? && e.Step? && e.r == r && !e.fault
    ensures Exec(Put(s, r, req, Dropping(accepted)), e) ==
            Put(Write(s, DropChallenge(s.tables, req.goal.challenge)), r, req, AfterDrop(accepted))
    ensures Exec(Put(s, r, req, Minting), e) == Put(Write(s, s.tables), r, req, Done(true))
  {
    hide DropChallenge;
    PutTwice(Write(s, DropChallenge(s.tables, req.goal.challenge)), r, req, Dropping(accepted), AfterDrop(accepted));
    PutTwice(Write(s, s.tables), r, req, Minting, Done(true));
  }

  lemma SignInUndisturbed(s: State, r: nat, c: Call)
    requires r !in s.procs && c.req.Factor? && c.req.goal.SignIn?
    ensures Left(s, r, c, Undisturbed(s, r, c))
  {
    hide Exec, DropChallenge, Consume, Passes;
    var req, e := c.req, Rest(c, r);
    var id, s1 := req.goal.challenge, Mark(s, c.row);
    ArriveExec(s, r, req);
    ReadStep(s, r, req, First(c, r));
    CheckStep(s, r, req, ChallengeRead, e);
    MarkStep(s, r, req, c.row, e);
    DropSteps(s, r, req, false, e);
    DropSteps(s1, r, req, true, e);
    var s2 := Write(s1, DropChallenge(s1.tables, id));
    DropSteps(s2, r, req, true, e);
    RepeatDone(s, r, req, false, e, 12);
    RepeatDone(s, r, req, false, e, 11);
    RepeatDone(Write(s, DropChallenge(s.tables, id)), r, req, false, e, 11);
    RepeatDone(Write(s2, s2.tables), r, req, true, e, 8);
    assert Repeat(Put(s, r, req, FactorChecked(c.row)), e, 11) == Repeat(Put(s2, r, req, Minting), e, 9);
  }

  /** From any state, whatever other requests are under way, a new request whose statements follow one
      another leaves and answers what it does alone on the tables. */
  lemma UndisturbedIsAlone(s: State, r: nat, c: Call)
    requires r !in s.procs
    ensures Left(s, r, c, Undisturbed(s, r, c))
  {
    hide Left, Undisturbed;
    match c.req
    case Enroll(_, _) => EnrollUndisturbed(s, r, c);
    case Activate(_) => ActivateUndisturbed(s, r, c);
    case Login(_) => LoginUndisturbed(s, r, c);
    case Factor(_, Disable) => DisableUndisturbed(s, r, c);
    case Factor(_, SignIn(_)) => SignInUndisturbed(s, r, c);
  }

  // ---------- faults ----------

  /** A statement that fails changes no table, and ends its request in an error unless it marks a
      recovery row or deletes a challenge. */
  lemma FaultEnds(s: State, e: Event)
    requires e.Step? && e.fault && e.r in s.procs && !s.procs[e.r].pc.Done?
    ensures var s', Proc(req, pc) := Exec(s, e), s.procs[e.r];
            && s'.tables == s.tables && s'.commits == s.commits && e.r in s'.procs
            && (s'.procs[e.r].pc != Done(false) ==> (req.Factor? && pc.FactorChecked?) || pc == Dropping(true))
  {
  }

  lemma FailedMark(s: State, r: nat, req: Request, row: Option<nat>, e: Event)
    requires req.Factor? && e.Step? && e.r == r && e.fault
    ensures Exec(Put(s, r, req, FactorChecked(row)), e) == Put(s, r, req, AfterFactor(req))
    ensures Exec(Put(s, r, req, Dropping(true)), e) == Put(s, r, req, Minting)
  {
    PutTwice(s, r, req, FactorChecked(row), AfterFactor(req));
    PutTwice(s, r, req, Dropping(true), Minting);
  }

  /** A sign-in whose UPDATE of the recovery row and DELETE of the challenge both fail still gets its
      session, and leaves row and challenge to be used again. */
  lemma FailedWritesIgnored(s: State, r: nat, user: nat, id: nat, row: Option<nat>, good: bool)
    requires r !in s.procs && id in s.tables.challenges && s.tables.challenges[id] == user
    requires Passes(s.tables, user, row, good)
    ensures var req := Factor(user, SignIn(id)); var fails := Step(r, row, good, true);
            var checked := Exec(Exec(Exec(s, Arrive(r, req)), Step(r, row, true, false)), Step(r, row, good, false));
            var s' := Exec(Exec(Exec(checked, fails), fails), Step(r, row, good, false));
            s'.tables == s.tables && s'.procs == s.procs[r := Proc(req, Done(true))]
  {
    hide Exec, Passes;
    var req := Factor(user, SignIn(id));
    ArriveExec(s, r, req);
    ReadStep(s, r, req, Step(r, row, true, false));
    CheckStep(s, r, req, ChallengeRead, Step(r, row, good, false));
    FailedMark(s, r, req, row, Step(r, row, good, true));
    DropSteps(s, r, req, true, Step(r, row, good, false));
  }
}
