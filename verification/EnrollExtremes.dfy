/** Runs that reach the bounds of `EnrollOverlap`: one recovery row and one challenge that let in as
    many requests as overlap, and an activation that reaches an enrollment nobody checked. */
module EnrollExtremes {
  import opened Wrappers
  import opened RecoveryCodes
  import opened EnrollMachine
  import opened EnrollOverlap
  import opened Intervals

  // ---------- growing a run one event at a time ----------

  /** What a run keeps to and has done so far: at most k requests waiting to mark row 0, at most n
      holding challenge 0, the requests let in by row 0, and how often its UPDATE failed. */
  datatype Ledger = Ledger(k: nat, n: nat, letIn: set<nat>, failed: nat)

  ghost predicate Reaches(events: seq<Event>, s: State, l: Ledger) {
    && Run(events) == s && WaitingAtMost(events, 0, l.k) && HoldingAtMost(events, 0, l.n)
    && LetIn(events, 0) == l.letIn && FailedMarks(events, 0) == l.failed && FailedDrops(events, 0) == 0
  }

  lemma Nothing(k: nat, n: nat)
    ensures Reaches([], START, Ledger(k, n, {}, 0))
  {
    assert Waiting(START, 0) == {} && Holding(START, 0) == {};
  }

  /** The ledger after one more event. */
  function Booked(l: Ledger, s: State, e: Event): Ledger {
    l.(letIn := l.letIn + if LetsIn(s, e, 0) then {e.r} else {},
       failed := l.failed + if FailsMark(s, e, 0) then 1 else 0)
  }

  lemma PrefixRun(events: seq<Event>, e: Event, i: nat)
    requires i <= |events| + 1
    ensures Run((events + [e])[..i]) == if i <= |events| then Run(events[..i]) else Exec(Run(events), e)
  {
    hide Exec;
    var all := events + [e];
    if i <= |events| {
      assert all[..i] == events[..i];
    } else {
      assert all[..i] == all && all[..|all| - 1] == events;
    }
  }

  lemma WaitingNext(events: seq<Event>, e: Event, k: nat)
    requires WaitingAtMost(events, 0, k) && |Waiting(Exec(Run(events), e), 0)| <= k
    ensures WaitingAtMost(events + [e], 0, k)
  {
    hide Exec, Waiting, Run;
    forall i | 0 <= i <= |events + [e]|
      ensures |Waiting(Run((events + [e])[..i]), 0)| <= k
    {
      PrefixRun(events, e, i);
    }
  }

  lemma HoldingNext(events: seq<Event>, e: Event, n: nat)
    requires HoldingAtMost(events, 0, n) && |Holding(Exec(Run(events), e), 0)| <= n
    ensures HoldingAtMost(events + [e], 0, n)
  {
    hide Exec, Holding, Run;
    forall i | 0 <= i <= |events + [e]|
      ensures |Holding(Run((events + [e])[..i]), 0)| <= n
    {
      PrefixRun(events, e, i);
    }
  }

  lemma Next(events: seq<Event>, s: State, e: Event, s': State, l: Ledger) returns (after: seq<Event>)
    requires Reaches(events, s, l) && s' == Exec(s, e) && !FailsDrop(s, e, 0)
    requires |Waiting(s', 0)| <= l.k && |Holding(s', 0)| <= l.n
    ensures events <= after && |after| == |events| + 1 && Reaches(after, s', Booked(l, s, e))
  {
    hide Exec, Waiting, Holding, LetsIn, FailsMark, FailsDrop, WaitingAtMost, HoldingAtMost;
    after := events + [e];
    WaitingNext(events, e, l.k);
    HoldingNext(events, e, l.n);
    assert after[..|events|] == events;
  }

  /** The request waits to mark row 0 or holds challenge 0. */
  predicate Busy(p: Proc) {
    p.pc.FactorChecked? || p.pc.ChallengeRead? || p.pc.Dropping?
  }

  /** An event without failure of a request that is not busy afterwards. */
  lemma Quietly(events: seq<Event>, s: State, e: Event, s': State, l: Ledger) returns (after: seq<Event>)
    requires Reaches(events, s, l) && s' == Exec(s, e) && (e.Step? ==> !e.fault)
    requires forall r | r in s'.procs && Busy(s'.procs[r]) :: r in s.procs && s.procs[r] == s'.procs[r]
    ensures events <= after && |after| == |events| + 1 && Reaches(after, s', l)
  {
    hide Exec;
    assert events[..|events|] == events;
    QuietBounds(s, e, s');
    SubsetSize(Waiting(s', 0), Waiting(s, 0));
    SubsetSize(Holding(s', 0), Holding(s, 0));
    hide Waiting, Holding, LetsIn, FailsMark, FailsDrop, Run, LetIn, FailedMarks, FailedDrops;
    after := Next(events, s, e, s', l);
    assert l.letIn + {} == l.letIn;
  }

  lemma QuietBounds(s: State, e: Event, s': State)
    requires s' == Exec(s, e) && (e.Step? ==> !e.fault)
    requires forall r | r in s'.procs && Busy(s'.procs[r]) :: r in s.procs && s.procs[r] == s'.procs[r]
    ensures Waiting(s', 0) <= Waiting(s, 0) && Holding(s', 0) <= Holding(s, 0)
    ensures !LetsIn(s, e, 0) && !FailsMark(s, e, 0) && !FailsDrop(s, e, 0)
  {
    hide Exec;
  }

  function Put(s: State, r: nat, req: Request, pc: Pc): State {
    s.(procs := s.procs[r := Proc(req, pc)])
  }

  lemma PutBusy(s: State, r: nat, req: Request, pc: Pc)
    requires !Busy(Proc(req, pc))
    ensures forall q | q in Put(s, r, req, pc).procs && Busy(Put(s, r, req, pc).procs[q]) ::
              q in s.procs && s.procs[q] == Put(s, r, req, pc).procs[q]
  {
  }

  function Do(r: nat): Event {
    Step(r, None, true, false)
  }

  /** An event of request r that leaves it at a place where it is not busy. */
  lemma Move(events: seq<Event>, s: State, e: Event, t: Tables, commits: nat, r: nat, req: Request, pc: Pc, l: Ledger)
      returns (after: seq<Event>, s': State)
    requires Reaches(events, s, l) && (e.Step? ==> !e.fault) && !Busy(Proc(req, pc))
    requires Exec(s, e) == Put(s.(tables := t, commits := commits), r, req, pc)
    ensures events <= after && |after| == |events| + 1 && Reaches(after, s', l)
    ensures s' == Put(s.(tables := t, commits := commits), r, req, pc)
  {
    hide Exec, Reaches, Busy;
    s' := Put(s.(tables := t, commits := commits), r, req, pc);
    PutBusy(s.(tables := t, commits := commits), r, req, pc);
    after := Quietly(events, s, e, s', l);
  }

  // ---------- enrolling ----------

  function InsertRows(t: Tables, user: nat, n: nat): Tables {
    if n == 0 then t else InsertRow(InsertRows(t, user, n - 1), user)
  }

  /** The tables with a new enrollment. */
  function Enrolled(t: Tables, user: nat, seed: nat): Tables {
    InsertRows(t.(secrets := t.secrets[user := Secret(seed, false)]), user, CODE_COUNT)
  }

  lemma InsertExec(s: State, r: nat)
    requires r in s.procs && s.procs[r].req.Enroll? && s.procs[r].pc.Inserting? && s.procs[r].pc.k < CODE_COUNT
    ensures var Proc(req, pc) := s.procs[r];
            Exec(s, Do(r)) == Put(s, r, req, Inserting(pc.at, InsertRow(pc.tx, req.user), pc.k + 1))
  {
  }

  lemma PutTwice(s: State, r: nat, req: Request, pc: Pc, pc': Pc)
    ensures Put(Put(s, r, req, pc), r, req, pc') == Put(s, r, req, pc')
  {
    assert s.procs[r := Proc(req, pc)][r := Proc(req, pc')] == s.procs[r := Proc(req, pc')];
  }

  /** The first m inserts of an enrollment that began in s. */
  lemma {:induction false} Inserts(events: seq<Event>, s: State, r: nat, req: Request, tx: Tables, m: nat, l: Ledger)
      returns (after: seq<Event>)
    requires req.Enroll? && m <= CODE_COUNT && Reaches(events, Put(s, r, req, Inserting(s.commits, tx, 0)), l)
    ensures events <= after
    ensures Reaches(after, Put(s, r, req, Inserting(s.commits, InsertRows(tx, req.user, m), m)), l)
  {
    hide Reaches, InsertRow, Exec;
    after := events;
    if m == 0 {
    } else {
      after := Inserts(events, s, r, req, tx, m - 1, l);
      var pc := Inserting(s.commits, InsertRows(tx, req.user, m - 1), m - 1);
      var pc' := Inserting(s.commits, InsertRows(tx, req.user, m), m);
      InsertExec(Put(s, r, req, pc), r);
      PutTwice(s, r, req, pc, pc');
      var s': State;
      after, s' := Move(after, Put(s, r, req, pc), Do(r), s.tables, s.commits, r, req, pc', l);
    }
  }

  lemma BeginExec(s: State, r: nat, user: nat, seed: nat)
    requires r !in s.procs && user !in s.tables.secrets
    ensures var req := Enroll(user, seed);
            && Exec(s, Arrive(r, req)) == Put(s, r, req, Ready)
            && Exec(Put(s, r, req, Ready), Do(r)) == Put(Put(s, r, req, Ready), r, req, EnrollChecked)
            && Exec(Put(s, r, req, EnrollChecked), Do(r)) ==
                 Put(Put(s, r, req, EnrollChecked), r, req,
                     Inserting(s.commits, s.tables.(secrets := s.tables.secrets[user := Secret(seed, false)]), 0))
  {
  }

  lemma CommitExec(s: State, r: nat, req: Request, tx: Tables)
    requires req.Enroll?
    ensures Exec(Put(s, r, req, Inserting(s.commits, tx, CODE_COUNT)), Do(r)) ==
              Put(Put(s, r, req, Inserting(s.commits, tx, CODE_COUNT)).(tables := tx, commits := s.commits + 1),
                  r, req, Done(true))
  {
  }

  /** An enrollment on its own. */
  lemma EnrollAlone(events: seq<Event>, s: State, r: nat, user: nat, seed: nat, l: Ledger)
      returns (after: seq<Event>, s': State)
    requires Reaches(events, s, l) && r !in s.procs && user !in s.tables.secrets
    ensures events <= after && Reaches(after, s', l)
    ensures s' == Put(Write(s, Enrolled(s.tables, user, seed)), r, Enroll(user, seed), Done(true))
  {
    hide Reaches, InsertRow, InsertRows, Exec;
    var req := Enroll(user, seed);
    var tx := s.tables.(secrets := s.tables.secrets[user := Secret(seed, false)]);
    BeginExec(s, r, user, seed);
    after, s' := Move(events, s, Arrive(r, req), s.tables, s.commits, r, req, Ready, l);
    PutTwice(s, r, req, Ready, EnrollChecked);
    after, s' := Move(after, s', Do(r), s.tables, s.commits, r, req, EnrollChecked, l);
    PutTwice(s, r, req, EnrollChecked, Inserting(s.commits, tx, 0));
    after, s' := Move(after, s', Do(r), s.tables, s.commits, r, req, Inserting(s.commits, tx, 0), l);
    after := Inserts(after, s, r, req, tx, CODE_COUNT, l);
    CommitLast(s, r, req, Enrolled(s.tables, user, seed));
    var full := Put(s, r, req, Inserting(s.commits, Enrolled(s.tables, user, seed), CODE_COUNT));
    after, s' := Move(after, full, Do(r), Enrolled(s.tables, user, seed), s.commits + 1, r, req, Done(true), l);
  }

  lemma CommitLast(s: State, r: nat, req: Request, tx: Tables)
    requires req.Enroll?
    ensures var full := Put(s, r, req, Inserting(s.commits, tx, CODE_COUNT));
            && Exec(full, Do(r)) == Put(full.(tables := tx, commits := s.commits + 1), r, req, Done(true))
            && Put(full.(tables := tx, commits := s.commits + 1), r, req, Done(true)) ==
                Put(Write(s, tx), r, req, Done(true))
  {
    CommitExec(s, r, req, tx);
    PutTwice(Write(s, tx), r, req, Inserting(s.commits, tx, CODE_COUNT), Done(true));
  }

  lemma {:induction false} RowsInserted(t: Tables, user: nat, n: nat)
    requires forall id | id in t.recovery :: id < t.nextRow
    ensures var t' := InsertRows(t, user, n);
            && t'.nextRow == t.nextRow + n && t'.secrets == t.secrets
            && t'.challenges == t.challenges && t'.nextChallenge == t.nextChallenge
            && (forall id: nat | t.nextRow <= id < t.nextRow + n ::
                 id in t'.recovery && t'.recovery[id] == Row(user, false))
            && forall id | id in t'.recovery :: id < t'.nextRow
  {
    if n == 0 {
    } else {
      RowsInserted(t, user, n - 1);
    }
  }

  lemma EnrolledTables(t: Tables, user: nat, seed: nat)
    requires forall id | id in t.recovery :: id < t.nextRow
    ensures var t' := Enrolled(t, user, seed);
            && user in t'.secrets && t'.secrets[user] == Secret(seed, false)
            && t'.challenges == t.challenges && t'.nextChallenge == t.nextChallenge
            && t.nextRow in t'.recovery && t'.recovery[t.nextRow] == Row(user, false)
            && forall id | id in t'.recovery :: id < t'.nextRow
  {
    hide InsertRows;
    RowsInserted(t.(secrets := t.secrets[user := Secret(seed, false)]), user, CODE_COUNT);
  }

  // ---------- an active account with one challenge ----------

  /** Requests 0, 1 and 2 enrolled, activated and logged in: row 0 is unconsumed, challenge 0 stored. */
  ghost predicate Based(s: State, user: nat) {
    && s.procs.Keys == {0, 1, 2} && (forall r | r in s.procs :: s.procs[r].pc.Done? && !s.procs[r].req.Factor?)
    && 0 in s.tables.recovery && s.tables.recovery[0] == Row(user, false)
    && 0 in s.tables.challenges && s.tables.challenges[0] == user
  }

  lemma ActivateExec(s: State, r: nat, user: nat, seed: nat)
    requires r !in s.procs && user in s.tables.secrets && s.tables.secrets[user] == Secret(seed, false)
    ensures var req := Activate(user);
            && Exec(s, Arrive(r, req)) == Put(s, r, req, Ready)
            && Exec(Put(s, r, req, Ready), Do(r)) == Put(s, r, req, ActivateChecked(seed))
            && Exec(Put(s, r, req, ActivateChecked(seed)), Do(r)) ==
                 Put(Write(s, ActivateSecret(s.tables, user)), r, req, Done(true))
  {
    var req := Activate(user);
    PutTwice(s, r, req, Ready, ActivateChecked(seed));
    PutTwice(Write(s, ActivateSecret(s.tables, user)), r, req, ActivateChecked(seed), Done(true));
  }

  lemma LoginExec(s: State, r: nat, user: nat)
    requires r !in s.procs && user in s.tables.secrets && s.tables.secrets[user].active
    ensures var req := Login(user);
            && Exec(s, Arrive(r, req)) == Put(s, r, req, Ready)
            && Exec(Put(s, r, req, Ready), Do(r)) == Put(s, r, req, LoginChecked)
            && Exec(Put(s, r, req, LoginChecked), Do(r)) ==
                 Put(Write(s, InsertChallenge(s.tables, user)), r, req, Done(true))
  {
    var req := Login(user);
    PutTwice(s, r, req, Ready, LoginChecked);
    PutTwice(Write(s, InsertChallenge(s.tables, user)), r, req, LoginChecked, Done(true));
  }

  /** An event of request r from one place to another, as a change of s. */
  lemma Onward(events: seq<Event>, s: State, e: Event, r: nat, req: Request, pc: Pc, s': State, pc': Pc, l: Ledger)
      returns (after: seq<Event>)
    requires Reaches(events, Put(s, r, req, pc), l) && (e.Step? ==> !e.fault) && !Busy(Proc(req, pc'))
    requires s'.procs == s.procs && Exec(Put(s, r, req, pc), e) == Put(s', r, req, pc')
    ensures events <= after && |after| == |events| + 1 && Reaches(after, Put(s', r, req, pc'), l)
  {
    hide Exec, Reaches, Busy;
    var from := Put(s, r, req, pc);
    PutTwice(s', r, req, pc, pc');
    assert Put(s', r, req, pc') == Put(from.(tables := s'.tables, commits := s'.commits), r, req, pc');
    var t: State;
    after, t := Move(events, from, e, s'.tables, s'.commits, r, req, pc', l);
  }

  lemma ActivateAlone(events: seq<Event>, s: State, r: nat, user: nat, seed: nat, l: Ledger)
      returns (after: seq<Event>, s': State)
    requires Reaches(events, s, l) && r !in s.procs
    requires user in s.tables.secrets && s.tables.secrets[user] == Secret(seed, false)
    ensures events <= after && Reaches(after, s', l)
    ensures s' == Put(Write(s, ActivateSecret(s.tables, user)), r, Activate(user), Done(true))
  {
    hide Reaches, Exec, ActivateSecret;
    var req, s1 := Activate(user), Write(s, ActivateSecret(s.tables, user));
    ActivateExec(s, r, user, seed);
    after, s' := Move(events, s, Arrive(r, req), s.tables, s.commits, r, req, Ready, l);
    after := Onward(after, s, Do(r), r, req, Ready, s, ActivateChecked(seed), l);
    after := Onward(after, s, Do(r), r, req, ActivateChecked(seed), s1, Done(true), l);
    s' := Put(s1, r, req, Done(true));
  }

  lemma LoginAlone(events: seq<Event>, s: State, r: nat, user: nat, l: Ledger) returns (after: seq<Event>, s': State)
    requires Reaches(events, s, l) && r !in s.procs && user in s.tables.secrets && s.tables.secrets[user].active
    ensures events <= after && Reaches(after, s', l)
    ensures s' == Put(Write(s, InsertChallenge(s.tables, user)), r, Login(user), Done(true))
  {
    hide Reaches, Exec, InsertChallenge;
    var req, s1 := Login(user), Write(s, InsertChallenge(s.tables, user));
    LoginExec(s, r, user);
    after, s' := Move(events, s, Arrive(r, req), s.tables, s.commits, r, req, Ready, l);
    after := Onward(after, s, Do(r), r, req, Ready, s, LoginChecked, l);
    after := Onward(after, s, Do(r), r, req, LoginChecked, s1, Done(true), l);
    s' := Put(s1, r, req, Done(true));
  }

  lemma BaseRun(user: nat, l: Ledger) returns (events: seq<Event>, s: State)
    requires l.letIn == {} && l.failed == 0
    ensures Reaches(events, s, l) && Based(s, user)
  {
    hide Reaches, Exec, InsertRows, Enrolled;
    Nothing(l.k, l.n);
    assert l == Ledger(l.k, l.n, {}, 0);
    events, s := EnrollAlone([], START, 0, user, 0, l);
    EnrolledTables(EMPTY, user, 0);
    events, s := ActivateAlone(events, s, 1, user, 0, l);
    events, s := LoginAlone(events, s, 2, user, l);
  }

  // ---------- requests in a line, moved one at a time ----------

  function Times<T>(m: nat, x: T): seq<T> {
    seq(m, _ => x)
  }

  /** Requests 3, 4, ... redeem challenge 0 and stand at pcs[0], pcs[1], ... */
  ghost predicate Lined(s: State, user: nat, pcs: seq<Pc>, live: bool, there: bool) {
    && 0 in s.tables.recovery && s.tables.recovery[0].user == user && (live ==> !s.tables.recovery[0].consumed)
    && (there ==> 0 in s.tables.challenges && s.tables.challenges[0] == user)
    && (forall r: nat :: r in s.procs <==> r < 3 + |pcs|)
    && (forall r: nat | r < 3 :: s.procs[r].pc.Done? && !s.procs[r].req.Factor?)
    && forall r: nat | 3 <= r < 3 + |pcs| :: s.procs[r] == Proc(Factor(user, SignIn(0)), pcs[r - 3])
  }

  datatype Act = Read | Match | Mark | FailMark | Drop | Collect

  function From(a: Act): Pc {
    match a
    case Read => Ready
    case Match => ChallengeRead
    case Mark => FactorChecked(Some(0))
    case FailMark => FactorChecked(Some(0))
    case Drop => Dropping(true)
    case Collect => Minting
  }

  function To(a: Act): Pc {
    match a
    case Read => ChallengeRead
    case Match => FactorChecked(Some(0))
    case Mark => Dropping(true)
    case FailMark => Dropping(true)
    case Drop => Minting
    case Collect => Done(true)
  }

  function EventFor(a: Act, r: nat): Event {
    Step(r, if a.Match? then Some(0) else None, true, a.FailMark?)
  }

  /** What one act changes outside its request. */
  lemma ActExec(s: State, r: nat, user: nat, a: Act)
    requires r in s.procs && s.procs[r] == Proc(Factor(user, SignIn(0)), From(a))
    requires 0 in s.tables.recovery && s.tables.recovery[0].user == user
    requires a.Match? ==> !s.tables.recovery[0].consumed
    requires a.Read? ==> 0 in s.tables.challenges && s.tables.challenges[0] == user
    ensures var t := if a.Mark? then Consume(s.tables, 0) else if a.Drop? then DropChallenge(s.tables, 0) else s.tables;
            && Exec(s, EventFor(a, r)).tables == t
            && Exec(s, EventFor(a, r)).procs == s.procs[r := Proc(Factor(user, SignIn(0)), To(a))]
    ensures LetsIn(s, EventFor(a, r), 0) <==> a.Match?
    ensures FailsMark(s, EventFor(a, r), 0) <==> a.FailMark?
    ensures !FailsDrop(s, EventFor(a, r), 0)
  {
    hide Consume, DropChallenge;
  }

  lemma ActLined(s: State, user: nat, pcs: seq<Pc>, live: bool, there: bool, j: nat, a: Act, s': State)
    requires Lined(s, user, pcs, live, there) && j < |pcs| && pcs[j] == From(a)
    requires (a.Match? ==> live) && (a.Read? ==> there) && s' == Exec(s, EventFor(a, 3 + j))
    ensures Lined(s', user, pcs[j := To(a)], live && !a.Mark?, there && !a.Drop?)
    ensures LetsIn(s, EventFor(a, 3 + j), 0) <==> a.Match?
    ensures FailsMark(s, EventFor(a, 3 + j), 0) <==> a.FailMark?
    ensures !FailsDrop(s, EventFor(a, 3 + j), 0)
  {
    hide Exec, LetsIn, FailsMark, FailsDrop;
    ActExec(s, 3 + j, user, a);
  }

  /** Only requests lo, lo + 1, ..., lo + m - 1 of the line wait to mark the row. */
  ghost predicate WaitersIn(pcs: seq<Pc>, lo: nat, m: nat) {
    forall j | 0 <= j < |pcs| && pcs[j] == FactorChecked(Some(0)) :: lo <= j < lo + m
  }

  lemma LineBounds(s: State, user: nat, pcs: seq<Pc>, lo: nat, m: nat)
    requires Lined(s, user, pcs, false, false) && WaitersIn(pcs, lo, m)
    ensures |Waiting(s, 0)| <= m && |Holding(s, 0)| <= |pcs|
  {
    hide Range;
    forall r | r in Waiting(s, 0)
      ensures r in Range(3 + lo, m)
    {
      assert pcs[r - 3] == FactorChecked(Some(0));
    }
    assert Waiting(s, 0) <= Range(3 + lo, m) && Holding(s, 0) <= Range(3, |pcs|);
    SubsetSize(Waiting(s, 0), Range(3 + lo, m));
    SubsetSize(Holding(s, 0), Range(3, |pcs|));
  }

  lemma Weaken(s: State, user: nat, pcs: seq<Pc>, live: bool, there: bool)
    requires Lined(s, user, pcs, live, there)
    ensures Lined(s, user, pcs, false, false)
  {
  }

  /** One act of request j of the line. */
  lemma ActNext(events: seq<Event>, s: State, l: Ledger, user: nat, pcs: seq<Pc>, live: bool, there: bool, j: nat,
                a: Act, lo: nat, m: nat)
      returns (after: seq<Event>, s': State)
    requires Reaches(events, s, l) && Lined(s, user, pcs, live, there) && j < |pcs| <= l.n && pcs[j] == From(a)
    requires (a.Match? ==> live) && (a.Read? ==> there)
    requires WaitersIn(pcs[j := To(a)], lo, m) && m <= l.k
    ensures Lined(s', user, pcs[j := To(a)], live && !a.Mark?, there && !a.Drop?)
    ensures Reaches(after, s', l.(letIn := l.letIn + (if a.Match? then {3 + j} else {}),
                                  failed := l.failed + if a.FailMark? then 1 else 0))
  {
    hide Reaches, Exec, Lined, LetsIn, FailsMark, FailsDrop, Waiting, Holding, WaitersIn;
    var e := EventFor(a, 3 + j);
    s' := Exec(s, e);
    ActLined(s, user, pcs, live, there, j, a, s');
    Weaken(s', user, pcs[j := To(a)], live && !a.Mark?, there && !a.Drop?);
    LineBounds(s', user, pcs[j := To(a)], lo, m);
    after := Next(events, s, e, s', l);
  }

  /** The first i of a stretch of m have moved on. */
  function Stretch(pre: seq<Pc>, a: Act, m: nat, i: nat, post: seq<Pc>): seq<Pc>
    requires i <= m
  {
    pre + Times(i, To(a)) + Times(m - i, From(a)) + post
  }

  lemma StretchNext(pre: seq<Pc>, a: Act, m: nat, i: nat, post: seq<Pc>)
    requires 1 <= i <= m
    ensures var pcs := Stretch(pre, a, m, i - 1, post); var j := |pre| + i - 1;
            && |pcs| == |pre| + m + |post| && pcs[j] == From(a) && pcs[j := To(a)] == Stretch(pre, a, m, i, post)
  {
  }

  lemma StretchWaiters(pre: seq<Pc>, a: Act, m: nat, i: nat, post: seq<Pc>)
    requires i <= m && WaitersIn(pre, 0, 0) && WaitersIn(post, 0, 0)
    ensures WaitersIn(Stretch(pre, a, m, i, post), |pre|, if a.Match? || a.Mark? || a.FailMark? then m else 0)
  {
    var pcs := Stretch(pre, a, m, i, post);
    assert forall j | 0 <= j < |pre| :: pcs[j] == pre[j];
    assert forall j | |pre| <= j < |pre| + m :: pcs[j] == From(a) || pcs[j] == To(a);
    assert forall j | |pre| + m <= j < |pcs| :: pcs[j] == post[j - |pre| - m];
  }

  lemma RangeNext(from: nat, i: nat)
    requires i >= 1
    ensures Range(from, i) == Range(from, i - 1) + {from + i - 1}
  {
  }

  /** The ledger after i matches of a stretch. */
  function Matched(l: Ledger, a: Act, from: nat, i: nat): Ledger {
    l.(letIn := l.letIn + if a.Match? then Range(from, i) else {})
  }

  lemma MatchedNext(l: Ledger, a: Act, from: nat, i: nat)
    requires i >= 1 && !a.FailMark?
    ensures var l1 := Matched(l, a, from, i - 1);
            && l1.(letIn := l1.letIn + (if a.Match? then {from + i - 1} else {}),
                   failed := l1.failed + if a.FailMark? then 1 else 0) == Matched(l, a, from, i)
            && l1.k == l.k && l1.n == l.n
    ensures Matched(l, a, from, 0) == l
  {
    RangeNext(from, i);
  }

  lemma MatchedNone(l: Ledger, a: Act, from: nat)
    ensures Matched(l, a, from, 0) == l
  {
    assert l.letIn + {} == l.letIn;
  }

  /** Request i of the stretch moves. */
  lemma SweepStep(events: seq<Event>, s: State, l: Ledger, user: nat, pre: seq<Pc>, a: Act, m: nat, i: nat,
                  post: seq<Pc>, live: bool, there: bool)
      returns (after: seq<Event>, s': State)
    requires 1 <= i <= m && !a.FailMark? && Reaches(events, s, Matched(l, a, 3 + |pre|, i - 1))
    requires Lined(s, user, Stretch(pre, a, m, i - 1, post), live, there)
    requires (a.Match? ==> live) && (a.Read? ==> there) && (a.Match? || a.Mark? ==> m <= l.k)
    requires WaitersIn(pre, 0, 0) && WaitersIn(post, 0, 0) && |pre| + m + |post| <= l.n
    ensures Lined(s', user, Stretch(pre, a, m, i, post), live && !a.Mark?, there && !a.Drop?)
    ensures Reaches(after, s', Matched(l, a, 3 + |pre|, i))
  {
    hide Reaches, Lined, WaitersIn, Stretch, Matched;
    StretchNext(pre, a, m, i, post);
    StretchWaiters(pre, a, m, i, post);
    MatchedNext(l, a, 3 + |pre|, i);
    after, s' := ActNext(events, s, Matched(l, a, 3 + |pre|, i - 1), user, Stretch(pre, a, m, i - 1, post), live, there,
                         |pre| + i - 1, a, |pre|, if a.Match? || a.Mark? then m else 0);
    assert 3 + (|pre| + i - 1) == 3 + |pre| + i - 1;
  }

  lemma KeepsFlags(s: State, user: nat, pcs: seq<Pc>, live: bool, there: bool, a: Act)
    requires Lined(s, user, pcs, live, there)
    ensures Lined(s, user, pcs, live && !a.Mark?, there && !a.Drop?)
  {
  }

  /** Moves the first i of a stretch of requests, one after another. */
  lemma {:induction false} Sweep(events: seq<Event>, s: State, l: Ledger, user: nat, pre: seq<Pc>, a: Act, m: nat,
                                 i: nat, post: seq<Pc>, live: bool, there: bool)
      returns (after: seq<Event>, s': State)
    requires i <= m && !a.FailMark? && Reaches(events, s, l) && Lined(s, user, Stretch(pre, a, m, 0, post), live, there)
    requires (a.Match? ==> live) && (a.Read? ==> there) && (a.Match? || a.Mark? ==> m <= l.k)
    requires WaitersIn(pre, 0, 0) && WaitersIn(post, 0, 0) && |pre| + m + |post| <= l.n
    ensures Lined(s', user, Stretch(pre, a, m, i, post), live && !a.Mark?, there && !a.Drop?)
    ensures Reaches(after, s', Matched(l, a, 3 + |pre|, i))
  {
    hide Reaches, Lined, WaitersIn, Stretch, Matched;
    after, s' := events, s;
    if i == 0 {
      MatchedNone(l, a, 3 + |pre|);
      KeepsFlags(s, user, Stretch(pre, a, m, 0, post), live, there, a);
    } else {
      after, s' := Sweep(events, s, l, user, pre, a, m, i - 1, post, live, there);
      after, s' := SweepStep(after, s', l, user, pre, a, m, i, post, live && !a.Mark?, there && !a.Drop?);
    }
  }

  // ---------- both bounds are reached ----------

  lemma LineBase(s: State, user: nat)
    requires Based(s, user)
    ensures Lined(s, user, [], true, true)
  {
  }

  lemma ArriveExec(s: State, user: nat, c: nat) returns (s': State)
    requires Lined(s, user, Times(c, Ready), true, true)
    ensures var req := Factor(user, SignIn(0));
            && s' == Exec(s, Arrive(3 + c, req)) == Put(s.(tables := s.tables, commits := s.commits), 3 + c, req, Ready)
            && Lined(s', user, Times(c + 1, Ready), true, true)
  {
    s' := Exec(s, Arrive(3 + c, Factor(user, SignIn(0))));
  }

  lemma {:induction false} ArriveAll(events: seq<Event>, s: State, l: Ledger, user: nat, c: nat)
      returns (after: seq<Event>, s': State)
    requires Reaches(events, s, l) && Lined(s, user, [], true, true)
    ensures Reaches(after, s', l) && Lined(s', user, Times(c, Ready), true, true)
  {
    hide Reaches, Lined, Exec;
    after, s' := events, s;
    if c == 0 {
      assert Times<Pc>(0, Ready) == [];
    } else {
      var t: State;
      after, t := ArriveAll(events, s, l, user, c - 1);
      s' := ArriveExec(t, user, c - 1);
      var req := Factor(user, SignIn(0));
      after, s' := Move(after, t, Arrive(3 + (c - 1), req), t.tables, t.commits, 3 + (c - 1), req, Ready, l);
    }
  }

  /** The first f requests of the line match the row and fail to mark it, one after another. */
  lemma {:induction false} FailAll(events: seq<Event>, s: State, l: Ledger, user: nat, n: nat, f: nat)
      returns (after: seq<Event>, s': State)
    requires f <= n <= l.n && (f > 0 ==> l.k >= 1) && l.letIn == {} && l.failed == 0
    requires Reaches(events, s, l) && Lined(s, user, Times(n, ChallengeRead), true, true)
    ensures Lined(s', user, Times(f, Dropping(true)) + Times(n - f, ChallengeRead), true, true)
    ensures Reaches(after, s', l.(letIn := Range(3, f), failed := f))
  {
    hide Reaches, Lined, Exec, Range, Times;
    after, s' := events, s;
    if f == 0 {
      NoneFailed(l, n);
    } else {
      after, s' := FailAll(events, s, l, user, n, f - 1);
      after, s' := FailOne(after, s', l, user, n, f);
    }
  }

  lemma NoneFailed(l: Ledger, n: nat)
    requires l.letIn == {} && l.failed == 0
    ensures Times<Pc>(0, Dropping(true)) + Times(n, ChallengeRead) == Times(n, ChallengeRead)
    ensures l.(letIn := Range(3, 0), failed := 0) == l
  {
  }

  lemma FailSeqs(n: nat, f: nat)
    requires 1 <= f <= n
    ensures var pcs := Times(f - 1, Dropping(true)) + Times(n - (f - 1), ChallengeRead); var j := f - 1;
            && |pcs| == n && pcs[j] == ChallengeRead
            && WaitersIn(pcs[j := FactorChecked(Some(0))], j, 1)
            && WaitersIn(pcs[j := FactorChecked(Some(0))][j := Dropping(true)], j, 1)
            && pcs[j := FactorChecked(Some(0))][j := Dropping(true)] ==
                 Times(f, Dropping(true)) + Times(n - f, ChallengeRead)
  {
  }

  lemma FailOne(events: seq<Event>, s: State, l: Ledger, user: nat, n: nat, f: nat)
      returns (after: seq<Event>, s': State)
    requires 1 <= f <= n <= l.n && l.k >= 1
    requires Reaches(events, s, l.(letIn := Range(3, f - 1), failed := f - 1))
    requires Lined(s, user, Times(f - 1, Dropping(true)) + Times(n - (f - 1), ChallengeRead), true, true)
    ensures Lined(s', user, Times(f, Dropping(true)) + Times(n - f, ChallengeRead), true, true)
    ensures Reaches(after, s', l.(letIn := Range(3, f), failed := f))
  {
    hide Reaches, Lined, Exec, WaitersIn, Times;
    FailSeqs(n, f);
    RangeNext(3, f);
    var pcs := Times(f - 1, Dropping(true)) + Times(n - (f - 1), ChallengeRead);
    var l1 := l.(letIn := Range(3, f - 1), failed := f - 1);
    after, s' := ActNext(events, s, l1, user, pcs, true, true, f - 1, Match, f - 1, 1);
    var l2 := l.(letIn := Range(3, f), failed := f - 1);
    assert 3 + (f - 1) == 3 + f - 1;
    after, s' := ActNext(after, s', l2, user, pcs[f - 1 := FactorChecked(Some(0))], true, true, f - 1, FailMark,
        f - 1, 1);
    assert l2.letIn + {} == l2.letIn;
  }

  lemma SweepSeqs(k: nat, f: nat)
    ensures var n, dropping := k + f, Times(f, Dropping(true));
            && Stretch([], Read, n, 0, []) == Times(n, Ready) && Stretch([], Read, n, n, []) == Times(n, ChallengeRead)
            && Stretch(dropping, Match, k, 0, []) == dropping + Times(k, ChallengeRead)
            && Stretch(dropping, Match, k, k, []) == Stretch(dropping, Mark, k, 0, [])
            && Stretch(dropping, Mark, k, k, []) == Stretch([], Drop, n, 0, [])
            && Stretch([], Drop, n, n, []) == Stretch([], Collect, n, 0, [])
            && Stretch([], Collect, n, n, []) == Times(n, Done(true))
            && WaitersIn(dropping, 0, 0) && WaitersIn([], 0, 0) && |dropping| == f
  {
  }

  /** All requests read the challenge, the first f of them let in by row 0 with a failed UPDATE; the
      other k are let in together. */
  lemma LetAllIn(user: nat, k: nat, f: nat) returns (events: seq<Event>, s: State)
    requires k >= 1 || f == 0
    ensures Lined(s, user, Stretch([], Drop, k + f, 0, []), false, true)
    ensures Reaches(events, s, Ledger(k, k + f, Range(3, k + f), f))
  {
    hide Reaches, Lined, Stretch, WaitersIn, Range, Times, Matched;
    var n := k + f;
    SweepSeqs(k, f);
    var l := Ledger(k, n, {}, 0);
    events, s := AllRead(user, k, f);
    events, s := FailAll(events, s, l, user, n, f);
    var l1 := l.(letIn := Range(3, f), failed := f);
    events, s := Sweep(events, s, l1, user, Times(f, Dropping(true)), Match, k, k, [], true, true);
    MatchedSum(l, f, k);
    var l2 := l.(letIn := Range(3, n), failed := f);
    events, s := Sweep(events, s, l2, user, Times(f, Dropping(true)), Mark, k, k, [], true, true);
    MatchedSame(l2, Mark, 3 + f, k);
  }

  /** All requests have read the challenge. */
  lemma AllRead(user: nat, k: nat, f: nat) returns (events: seq<Event>, s: State)
    ensures Lined(s, user, Times(k + f, ChallengeRead), true, true)
    ensures Reaches(events, s, Ledger(k, k + f, {}, 0))
  {
    hide Reaches, Lined, Based, Stretch, WaitersIn, Times, Matched;
    var n := k + f;
    SweepSeqs(k, f);
    var l := Ledger(k, n, {}, 0);
    events, s := BaseRun(user, l);
    LineBase(s, user);
    events, s := ArriveAll(events, s, l, user, n);
    events, s := Sweep(events, s, l, user, [], Read, n, n, [], true, true);
    MatchedSame(l, Read, 3, n);
  }

  lemma MatchedSum(l: Ledger, f: nat, k: nat)
    ensures Matched(l.(letIn := Range(3, f), failed := f), Match, 3 + f, k) == l.(letIn := Range(3, k + f), failed := f)
  {
    RangeSum(3, f, k);
  }

  lemma MatchedSame(l: Ledger, a: Act, from: nat, i: nat)
    requires !a.Match?
    ensures Matched(l, a, from, i) == l
  {
    assert l.letIn + {} == l.letIn;
  }

  lemma RangeSum(from: nat, a: nat, b: nat)
    ensures Range(from, a) + Range(from + a, b) == Range(from, b + a)
  {
    hide Range;
  }

  lemma AllRedeemed(s: State, user: nat, n: nat)
    requires Lined(s, user, Times(n, Done(true)), false, false)
    ensures Redeemed(s, 0) == Range(3, n)
    ensures forall r | r in Range(3, n) :: r in s.procs && s.procs[r].pc == Done(true)
  {
    hide Range;
    assert forall r: nat :: r in Redeemed(s, 0) <==> 3 <= r < 3 + n;
  }

  /** k + f requests that all end in success: let in by one row with at most k of them waiting at a time
      and f failed UPDATEs, and by one challenge that all of them held. */
  lemma AllLetIn(user: nat, k: nat, f: nat) returns (events: seq<Event>)
    requires k >= 1 || f == 0
    ensures WaitingAtMost(events, 0, k) && FailedMarks(events, 0) == f && |LetIn(events, 0)| == k + f
    ensures HoldingAtMost(events, 0, k + f) && FailedDrops(events, 0) == 0
        && Redeemed(Run(events), 0) == LetIn(events, 0)
    ensures forall r | r in LetIn(events, 0) :: r in Run(events).procs && Run(events).procs[r].pc == Done(true)
  {
    hide Lined, Stretch, WaitersIn, Range, Run, WaitingAtMost, HoldingAtMost, FailedMarks, FailedDrops, LetIn, Redeemed;
    var n := k + f;
    var l := Ledger(k, n, Range(3, n), f);
    SweepSeqs(k, f);
    var s: State;
    events, s := LetAllIn(user, k, f);
    events, s := Sweep(events, s, l, user, [], Drop, n, n, [], false, true);
    MatchedSame(l, Drop, 3, n);
    events, s := Sweep(events, s, l, user, [], Collect, n, n, [], false, false);
    MatchedSame(l, Collect, 3, n);
    AllRedeemed(s, user, n);
  }

  /** The bound of `RowSlack` is exact: for every k >= 1 and every f some run with f failed UPDATEs of a
      row lets in k + f requests by it, and all of them succeed. */
  lemma RowSlackReached(user: nat, k: nat, f: nat) returns (events: seq<Event>)
    requires k >= 1
    ensures WaitingAtMost(events, 0, k) && FailedMarks(events, 0) == f && |LetIn(events, 0)| == k + f
    ensures forall r | r in LetIn(events, 0) :: r in Run(events).procs && Run(events).procs[r].pc == Done(true)
  {
    hide Run, WaitingAtMost, HoldingAtMost, FailedMarks, FailedDrops, LetIn, Redeemed;
    events := AllLetIn(user, k, f);
  }

  /** The bound of `ChallengeSlack` is exact: for every k some run in which at most k requests hold one
      challenge at a time, and no DELETE of it fails, gives k sessions for it. */
  lemma ChallengeSlackReached(user: nat, k: nat) returns (events: seq<Event>)
    ensures HoldingAtMost(events, 0, k) && FailedDrops(events, 0) == 0 && |Redeemed(Run(events), 0)| == k
    ensures forall r | r in Redeemed(Run(events), 0) :: Run(events).procs[r].pc == Done(true)
  {
    hide Run, WaitingAtMost, HoldingAtMost, FailedMarks, FailedDrops, LetIn, Redeemed;
    events := AllLetIn(user, k, 0);
  }

  // ---------- an activation that reaches a later enrollment ----------

  lemma PrefixState(events: seq<Event>, all: seq<Event>, s: State, l: Ledger)
    requires events <= all && Reaches(events, s, l)
    ensures Run(all[..|events|]) == s
  {
    assert all[..|events|] == events;
  }

  /** The account has enrolled with seed 1, and request 1 is about to check its activation. */
  ghost predicate AboutToCheck(s: State, user: nat) {
    && s.procs.Keys == {0, 1} && s.procs[0].pc.Done? && s.procs[1] == Proc(Activate(user), Ready)
    && user in s.tables.secrets && s.tables.secrets[user] == Secret(1, false)
    && 0 in s.tables.recovery && s.tables.recovery[0] == Row(user, false)
  }

  lemma ArrivesAs(s: State, r: nat, req: Request)
    requires r !in s.procs
    ensures Exec(s, Arrive(r, req)) == Put(s.(tables := s.tables, commits := s.commits), r, req, Ready)
  {
  }

  lemma ToCheck(user: nat, l: Ledger) returns (events: seq<Event>, s: State)
    requires l.letIn == {} && l.failed == 0
    ensures AboutToCheck(s, user) && Reaches(events, s, l)
  {
    hide InsertRows, Enrolled, Reaches, Exec;
    Nothing(l.k, l.n);
    assert l == Ledger(l.k, l.n, {}, 0);
    events, s := EnrollAlone([], START, 0, user, 1, l);
    EnrolledTables(EMPTY, user, 1);
    ArrivesAs(s, 1, Activate(user));
    events, s := Move(events, s, Arrive(1, Activate(user)), s.tables, s.commits, 1, Activate(user), Ready, l);
  }

  lemma MatchExec(s: State, r: nat, user: nat)
    requires 0 in s.tables.recovery && s.tables.recovery[0] == Row(user, false)
    ensures var req := Factor(user, Disable); var s1 := Put(s, r, req, Ready); var e := Step(r, Some(0), true, false);
            && Exec(s1, e) == Put(s1, r, req, FactorChecked(Some(0))) == Put(s, r, req, FactorChecked(Some(0)))
            && LetsIn(s1, e, 0) && !FailsMark(s1, e, 0) && !FailsDrop(s1, e, 0)
  {
    PutTwice(s, r, Factor(user, Disable), Ready, FactorChecked(Some(0)));
  }

  lemma MatchBounds(s: State, r: nat, user: nat)
    requires forall q | q in s.procs :: !Busy(s.procs[q]) || q == 1
    requires r != 1 && (1 in s.procs ==> s.procs[1].req.Activate? && !s.procs[1].pc.FactorChecked?)
    ensures var s' := Put(s, r, Factor(user, Disable), FactorChecked(Some(0)));
        Waiting(s', 0) == {r} && Holding(s', 0) == {}
  {
  }

  /** A disable by recovery row 0, up to the beginning of its transaction. */
  lemma DisableBegun(events: seq<Event>, s: State, r: nat, user: nat, l: Ledger) returns (after: seq<Event>, l': Ledger)
    requires Reaches(events, s, l) && r !in s.procs && r != 1 && l.k >= 1
    requires 0 in s.tables.recovery && s.tables.recovery[0] == Row(user, false)
    requires forall q | q in s.procs :: !Busy(s.procs[q]) || q == 1
    requires 1 in s.procs ==> s.procs[1].req.Activate? && !s.procs[1].pc.FactorChecked?
    ensures events <= after && l'.failed == l.failed
    ensures Reaches(after, Put(Write(s, Consume(s.tables, 0)), r, Factor(user, Disable), WipeReady), l')
  {
    hide Reaches, Exec, Waiting, Holding, LetsIn, FailsMark, FailsDrop, Consume;
    var req := Factor(user, Disable);
    var s1: State;
    ArrivesAs(s, r, req);
    after, s1 := Move(events, s, Arrive(r, req), s.tables, s.commits, r, req, Ready, l);
    MatchExec(s, r, user);
    MatchBounds(s, r, user);
    var matched := Put(s, r, req, FactorChecked(Some(0)));
    l' := Booked(l, s1, Step(r, Some(0), true, false));
    after := Next(after, s1, Step(r, Some(0), true, false), matched, l);
    MarkExec(s, r, user);
    after := Onward(after, s, Do(r), r, req, FactorChecked(Some(0)), Write(s, Consume(s.tables, 0)), WipeReady, l');
  }

  lemma MarkExec(s: State, r: nat, user: nat)
    ensures var req := Factor(user, Disable);
            Exec(Put(s, r, req, FactorChecked(Some(0))), Do(r)) ==
                Put(Write(s, Consume(s.tables, 0)), r, req, WipeReady)
  {
    PutTwice(Write(s, Consume(s.tables, 0)), r, Factor(user, Disable), FactorChecked(Some(0)), WipeReady);
  }

  lemma WipeExec(s: State, r: nat, user: nat)
    ensures var req := Factor(user, Disable); var at := s.commits;
            var t1 := s.tables.(secrets := s.tables.secrets - {user});
            && Exec(Put(s, r, req, WipeReady), Do(r)) == Put(s, r, req, SecretDeleted(at, t1))
            && Exec(Put(s, r, req, SecretDeleted(at, t1)), Do(r)) ==
                Put(s, r, req, RowsDeleted(at, DeleteRows(t1, user)))
  {
    hide DeleteRows;
    var req, t1 := Factor(user, Disable), s.tables.(secrets := s.tables.secrets - {user});
    PutTwice(s, r, req, WipeReady, SecretDeleted(s.commits, t1));
    PutTwice(s, r, req, SecretDeleted(s.commits, t1), RowsDeleted(s.commits, DeleteRows(t1, user)));
  }

  lemma ClearExec(s: State, r: nat, user: nat, t2: Tables)
    ensures var req := Factor(user, Disable); var at := s.commits; var t3 := DeleteChallenges(t2, user);
            && Exec(Put(s, r, req, RowsDeleted(at, t2)), Do(r)) == Put(s, r, req, ChallengesDeleted(at, t3))
            && Exec(Put(s, r, req, ChallengesDeleted(at, t3)), Do(r)) == Put(Write(s, t3), r, req, Done(true))
  {
    hide DeleteChallenges;
    var req, t3 := Factor(user, Disable), DeleteChallenges(t2, user);
    PutTwice(s, r, req, RowsDeleted(s.commits, t2), ChallengesDeleted(s.commits, t3));
    PutTwice(Write(s, t3), r, req, ChallengesDeleted(s.commits, t3), Done(true));
  }

  lemma WipeAlone(events: seq<Event>, s: State, r: nat, user: nat, l: Ledger) returns (after: seq<Event>, s': State)
    requires Reaches(events, Put(s, r, Factor(user, Disable), WipeReady), l)
    ensures events <= after && Reaches(after, s', l)
    ensures s'.procs == s.procs[r := Proc(Factor(user, Disable), Done(true))] && user !in s'.tables.secrets
  {
    hide Reaches, Exec, DeleteRows, DeleteChallenges;
    var req, at := Factor(user, Disable), s.commits;
    var t1 := s.tables.(secrets := s.tables.secrets - {user});
    var t2 := DeleteRows(t1, user);
    var t3 := DeleteChallenges(t2, user);
    WipeExec(s, r, user);
    ClearExec(s, r, user, t2);
    after := Onward(events, s, Do(r), r, req, WipeReady, s, SecretDeleted(at, t1), l);
    after := Onward(after, s, Do(r), r, req, SecretDeleted(at, t1), s, RowsDeleted(at, t2), l);
    after := Onward(after, s, Do(r), r, req, RowsDeleted(at, t2), s, ChallengesDeleted(at, t3), l);
    after := Onward(after, s, Do(r), r, req, ChallengesDeleted(at, t3), Write(s, t3), Done(true), l);
    s' := Put(Write(s, t3), r, req, Done(true));
    WipedSecret(t1, user);
  }

  lemma WipedSecret(tx: Tables, user: nat)
    requires user !in tx.secrets
    ensures user !in DeleteChallenges(DeleteRows(tx, user), user).secrets
  {
  }

  lemma IdsBelow(events: seq<Event>, s: State, l: Ledger)
    requires Reaches(events, s, l)
    ensures forall id | id in s.tables.recovery :: id < s.tables.nextRow
  {
    hide Run, PcOk;
    RunInv(events);
  }

  lemma LastUpdate(s: State, user: nat, seed: nat)
    requires 1 in s.procs && s.procs[1].req == Activate(user) && s.procs[1].pc.ActivateChecked?
    requires user in s.tables.secrets && s.tables.secrets[user].seed == seed
    ensures var t := Exec(s, Do(1)).tables; user in t.secrets && t.secrets[user] == Secret(seed, true)
  {
  }

  lemma ChecksSeedOne(s: State, user: nat)
    requires AboutToCheck(s, user)
    ensures Exec(s, Do(1)) == Put(s.(tables := s.tables, commits := s.commits), 1, Activate(user), ActivateChecked(1))
  {
  }

  /** Between the check and the UPDATE of an activation the account is disabled by a recovery code and
      enrolled again: seed 1 was checked, and seed 2, which nobody checked, becomes active. */
  lemma ActivationReachesLater(user: nat) returns (events: seq<Event>, i: nat)
    ensures i < |events| && CheckedAt(events, i, 1) && Run(events).procs[1] == Proc(Activate(user), ActivateChecked(1))
    ensures var t := Exec(Run(events), Do(1)).tables; user in t.secrets && t.secrets[user] == Secret(2, true)
    ensures FailedMarks(events, 0) == 0 && FailedDrops(events, 0) == 0
  {
    hide Run, WaitingAtMost, HoldingAtMost, LetIn, FailedMarks, FailedDrops, InsertRows, Enrolled, Exec, Consume;
    var l := Ledger(1, 0, {}, 0);
    var mid, s := ToCheck(user, l);
    i := |mid|;
    ChecksSeedOne(s, user);
    var checked, s1 := Move(mid, s, Do(1), s.tables, s.commits, 1, Activate(user), ActivateChecked(1), l);
    var begun, l1 := DisableBegun(checked, s1, 2, user, l);
    var wiped, s2 := WipeAlone(begun, Write(s1, Consume(s1.tables, 0)), 2, user, l1);
    var s3: State;
    events, s3 := EnrollAlone(wiped, s2, 3, user, 2, l1);
    PrefixState(mid, events, s, l);
    PrefixState(checked, events, s1, l);
    IdsBelow(wiped, s2, l1);
    EnrolledTables(s2.tables, user, 2);
    LastUpdate(s3, user, 2);
  }
}
