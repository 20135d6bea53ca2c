/** More overlap than `ProfileSerial` allows is too much: runs that no order of whole requests explains,
    and with them the exact conditions. */
module ProfileOverlap {
  import opened Wrappers
  import opened MachineInts
  import opened ProfileTable
  import opened ProfileMachine
  import opened ProfileSerial
  import opened Intervals
  import ProfileQuota

  const USER := 7
  const CREATE_A := Create(USER, "a")
  const CREATE_B := Create(USER, "b")
  const DELETE_A := ProfileMachine.Request.Delete(USER, "a")

  /** The tables with the alias "a", and with "a" and "b", created at time 0. */
  const WITH_A := Table(map[0 := Row(USER, "a", None, 0, 0, 0, 0)], 1)
  const WITH_BOTH := Table(map[0 := Row(USER, "a", None, 0, 0, 0, 0), 1 := Row(USER, "b", None, 0, 0, 0, 0)], 2)
  const WITHOUT_A := Table(map[], 1)

  function Step0(r: nat): Event {
    Step(r, 0, false)
  }

  // ---------- runs with at most two open requests ----------

  /** Only requests a and b are open. */
  predicate OnlyOpen(s: State, a: nat, b: nat) {
    forall r | r in s.procs && !s.procs[r].pc.Done? :: r == a || r == b
  }

  lemma TwoOpen(s: State, a: nat, b: nat)
    requires OnlyOpen(s, a, b)
    ensures FewBetween(s, 2)
  {
    forall user: int
      ensures |Between(s, user)| <= 2
    {
      assert Between(s, user) <= {a, b};
      SubsetSize(Between(s, user), {a, b});
    }
  }

  /** The run so far: its first n events end in `s`. */
  ghost predicate Reaches(events: seq<Event>, max: u32, n: nat, s: State)
    requires n <= |events|
  {
    Run(events[..n], max) == s && BetweenAtMost(events[..n], max, 2)
  }

  /** One more event of it. */
  lemma Next(events: seq<Event>, max: u32, n: nat, s: State, s': State, a: nat, b: nat)
    requires n < |events| && Reaches(events, max, n, s)
    requires s' == Exec(s, events[n], max) && OnlyOpen(s', a, b)
    ensures Reaches(events, max, n + 1, s')
  {
    TwoOpen(s', a, b);
    var all := events[..n + 1];
    hide Exec, FewBetween;
    assert all[..n] == events[..n] && all[..n + 1] == all;
    forall i | 0 <= i <= |all|
      ensures FewBetween(Run(all[..i], max), 2)
    {
      if i <= n {
        assert all[..i] == events[..n][..i];
      }
    }
  }

  lemma Nothing(events: seq<Event>, max: u32)
    ensures Reaches(events, max, 0, START)
  {
    TwoOpen(START, 0, 0);
  }

  // ---------- statements on the small tables ----------

  lemma OnEmpty(t: Table, alias: string)
    requires t.rows == map[]
    ensures CountOwned(t, USER) == 0 && Find(t, alias).None?
  {
    assert OwnedIds(t, USER) == {};
  }

  lemma OnWithA()
    ensures CountOwned(WITH_A, USER) == 1 && Find(WITH_A, "a") == Some(0) && Find(WITH_A, "b").None?
    ensures ProfileTable.Delete(WITH_A, "a", USER) == WITHOUT_A
  {
    assert OwnedIds(WITH_A, USER) == {0};
    assert Fold("a")[0] == 'a' && Fold("b")[0] == 'b';
  }

  // ---------- two creates ----------

  /** With a limit of one: both checked before either inserts, and both answered Created. */
  const TWO_CREATES := [Arrive(0, CREATE_A), Arrive(1, CREATE_B), Step0(0), Step0(1), Step0(0), Step0(1)]

  const A_CHECKED := Proc(CREATE_A, CreateChecked)
  const B_CHECKED := Proc(CREATE_B, CreateChecked)
  const A_CREATED := Proc(CREATE_A, Done(Created(0)))
  const B_CREATED := Proc(CREATE_B, Done(Created(0)))

  /** The states once both creates have arrived, and once both have been checked. */
  const TWO_READY := State(EMPTY, 0, map[0 := Proc(CREATE_A, Ready), 1 := Proc(CREATE_B, Ready)], [])
  const TWO_CHECKED := State(EMPTY, 0, map[0 := A_CHECKED, 1 := B_CHECKED], [Counted(0, USER, 0), Counted(1, USER, 0)])

  lemma CreatesArrived()
    ensures Reaches(TWO_CREATES, 1, 2, TWO_READY)
  {
    hide Reaches;
    var s1 := State(EMPTY, 0, map[0 := Proc(CREATE_A, Ready)], []);
    Nothing(TWO_CREATES, 1);
    Next(TWO_CREATES, 1, 0, START, s1, 0, 1);
    Next(TWO_CREATES, 1, 1, s1, TWO_READY, 0, 1);
  }

  lemma CreatesChecked()
    requires Reaches(TWO_CREATES, 1, 2, TWO_READY)
    ensures Reaches(TWO_CREATES, 1, 4, TWO_CHECKED)
  {
    hide Reaches, CountOwned;
    OnEmpty(EMPTY, "a");
    var s3 := State(EMPTY, 0, map[0 := A_CHECKED, 1 := Proc(CREATE_B, Ready)], [Counted(0, USER, 0)]);
    Next(TWO_CREATES, 1, 2, TWO_READY, s3, 0, 1);
    Next(TWO_CREATES, 1, 3, s3, TWO_CHECKED, 0, 1);
  }

  lemma TwoCreatesRun() returns (s: State)
    ensures Run(TWO_CREATES, 1) == s && BetweenAtMost(TWO_CREATES, 1, 2)
    ensures s.procs == map[0 := A_CREATED, 1 := B_CREATED] && s.table == WITH_BOTH
  {
    hide Reaches, Find, CountOwned;
    CreatesArrived();
    CreatesChecked();
    OnEmpty(EMPTY, "a");
    OnWithA();
    var s5 := State(WITH_A, 1, map[0 := A_CREATED, 1 := B_CHECKED],
        TWO_CHECKED.log + [Inserted(0, USER, "a", 0, true)]);
    s := Exec(s5, TWO_CREATES[5], 1);
    Next(TWO_CREATES, 1, 4, TWO_CHECKED, s5, 0, 1);
    Next(TWO_CREATES, 1, 5, s5, s, 0, 1);
    Reached(TWO_CREATES, 1, s);
  }

  lemma Reached(events: seq<Event>, max: u32, s: State)
    requires Reaches(events, max, |events|, s)
    ensures Run(events, max) == s && BetweenAtMost(events, max, 2)
  {
    assert events[..|events|] == events;
  }

  /** No order of the two creates, run whole, lets both be answered Created. */
  lemma TwoCreatesNotSerial()
    ensures BetweenAtMost(TWO_CREATES, 1, 2) && !RequestSerial(Run(TWO_CREATES, 1), 1)
  {
    hide Run, BetweenAtMost;
    var s := TwoCreatesRun();
    forall calls: seq<Call>
      ensures !SerialAs(s, calls, 1)
    {
      SecondCreateRefused(s, calls);
    }
  }

  lemma SecondCreateRefused(s: State, calls: seq<Call>)
    requires s.procs == map[0 := A_CREATED, 1 := B_CREATED]
    ensures !SerialAs(s, calls, 1)
  {
    hide Alone, AnswersSerially;
    if SerialAs(s, calls, 1) {
      TwoCalls(s, calls);
      CallAt(calls, 1, 0);
      CallAt(calls, 1, 1);
      AfterCreate(calls[0].req.alias, calls[0].now, 1);
      FullForOne(Alone(EMPTY, calls[0].req, calls[0].now, 1).0, calls[1].req, calls[1].now);
      assert false;
    }
  }

  lemma TwoCalls(s: State, calls: seq<Call>)
    requires s.procs == map[0 := A_CREATED, 1 := B_CREATED]
    requires CallsOf(s, calls)
    ensures |calls| >= 2 && forall i | 0 <= i < 2 ::
         calls[i].req.Create? && calls[i].req.user == USER && calls[i].resp.Created?
  {
    assert Finished(s, 0) && Finished(s, 1);
  }

  /** What call i answered, and the table it leaves. */
  lemma CallAt(calls: seq<Call>, max: u32, i: nat)
    requires AnswersSerially(calls, max) && i < |calls|
    ensures Alone(Serially(calls[..i], max), calls[i].req, calls[i].now, max).1 == calls[i].resp
    ensures Serially(calls[..i + 1], max) == Alone(Serially(calls[..i], max), calls[i].req, calls[i].now, max).0
    ensures Serially(calls[..0], max) == EMPTY
  {
    assert calls[..i + 1][..i] == calls[..i];
  }

  lemma AfterCreate(alias: string, now: i64, max: u32)
    requires max >= 1
    ensures Alone(EMPTY, Create(USER, alias), now, max).0 == Table(map[0 := Row(USER, alias, None, 0, 0, now, now)], 1)
  {
    OnEmpty(EMPTY, alias);
  }

  lemma FullForOne(t: Table, req: Request, now: i64)
    requires req.Create? && t.rows.Keys == {0} && t.rows[0].owner == req.user
    ensures Alone(t, req, now, 1).1 == QuotaExceeded
  {
    assert OwnedIds(t, req.user) == {0};
  }

  // ---------- two deletes ----------

  /** Of one alias, both checked before either deletes: both are answered Deleted. */
  const TWO_DELETES := [Arrive(0, CREATE_A), Step0(0), Step0(0), Arrive(1, DELETE_A), Arrive(2, DELETE_A),
                        Step0(1), Step0(2), Step0(1), Step0(2)]

  const CREATED := Proc(CREATE_A, Done(Created(0)))
  const ASKED := Proc(DELETE_A, Ready)
  const CHECKED := Proc(DELETE_A, DeleteChecked)
  const DELETED := Proc(DELETE_A, Done(Deleted))

  /** The states after the create, once both deletes have arrived, and once both have been checked. */
  const MADE := State(WITH_A, 1, map[0 := CREATED], [Counted(0, USER, 0), Inserted(0, USER, "a", 0, true)])
  const ARRIVED := MADE.(procs := map[0 := CREATED, 1 := ASKED, 2 := ASKED])
  const BOTH_CHECKED := ARRIVED.(procs := map[0 := CREATED, 1 := CHECKED, 2 := CHECKED],
                                 log := ARRIVED.log + [OwnerRead(1, "a", Some(USER)), OwnerRead(2, "a", Some(USER))])

  lemma AliasCreated(max: u32)
    requires max >= 1
    ensures Reaches(TWO_DELETES, max, 3, MADE)
  {
    hide Reaches, Find, CountOwned;
    OnEmpty(EMPTY, "a");
    var s1 := State(EMPTY, 0, map[0 := Proc(CREATE_A, Ready)], []);
    var s2 := State(EMPTY, 0, map[0 := Proc(CREATE_A, CreateChecked)], [Counted(0, USER, 0)]);
    Nothing(TWO_DELETES, max);
    Next(TWO_DELETES, max, 0, START, s1, 0, 0);
    Next(TWO_DELETES, max, 1, s1, s2, 0, 0);
    Next(TWO_DELETES, max, 2, s2, MADE, 0, 0);
  }

  lemma DeletesArrived(max: u32)
    requires Reaches(TWO_DELETES, max, 3, MADE)
    ensures Reaches(TWO_DELETES, max, 5, ARRIVED)
  {
    hide Reaches, Find, CountOwned;
    var s4 := MADE.(procs := map[0 := CREATED, 1 := ASKED]);
    Next(TWO_DELETES, max, 3, MADE, s4, 1, 2);
    Next(TWO_DELETES, max, 4, s4, ARRIVED, 1, 2);
  }

  lemma DeletesChecked(max: u32)
    requires Reaches(TWO_DELETES, max, 5, ARRIVED)
    ensures Reaches(TWO_DELETES, max, 7, BOTH_CHECKED)
  {
    hide Reaches, Find, CountOwned;
    OnWithA();
    var s6 := ARRIVED.(procs := map[0 := CREATED, 1 := CHECKED, 2 := ASKED],
                       log := ARRIVED.log + [OwnerRead(1, "a", Some(USER))]);
    Next(TWO_DELETES, max, 5, ARRIVED, s6, 1, 2);
    Next(TWO_DELETES, max, 6, s6, BOTH_CHECKED, 1, 2);
  }

  lemma TwoDeletesRun(max: u32) returns (s: State)
    requires max >= 1
    ensures Run(TWO_DELETES, max) == s && BetweenAtMost(TWO_DELETES, max, 2)
    ensures s.procs == map[0 := CREATED, 1 := DELETED, 2 := DELETED]
  {
    hide Reaches, Find, CountOwned;
    AliasCreated(max);
    DeletesArrived(max);
    DeletesChecked(max);
    OnWithA();
    var s8 := State(WITHOUT_A, 2, map[0 := CREATED, 1 := DELETED, 2 := CHECKED],
                    BOTH_CHECKED.log + [Removed(1, USER, "a")]);
    s := Exec(s8, TWO_DELETES[8], max);
    Next(TWO_DELETES, max, 7, BOTH_CHECKED, s8, 1, 2);
    Next(TWO_DELETES, max, 8, s8, s, 1, 2);
    Reached(TWO_DELETES, max, s);
  }

  /** No order of the create and the two deletes, run whole, lets both deletes be answered Deleted. */
  lemma TwoDeletesNotSerial(max: u32)
    requires max >= 1
    ensures BetweenAtMost(TWO_DELETES, max, 2) && !RequestSerial(Run(TWO_DELETES, max), max)
  {
    hide Run, BetweenAtMost;
    var s := TwoDeletesRun(max);
    forall calls: seq<Call>
      ensures !SerialAs(s, calls, max)
    {
      SecondDeleteRefused(s, calls, max);
    }
  }

  lemma SecondDeleteRefused(s: State, calls: seq<Call>, max: u32)
    requires max >= 1
    requires s.procs == map[0 := CREATED, 1 := DELETED, 2 := DELETED]
    ensures !SerialAs(s, calls, max)
  {
    hide Alone, AnswersSerially;
    if SerialAs(s, calls, max) {
      ThreeCalls(s, calls);
      CallAt(calls, max, 0);
      NothingToDelete(EMPTY, calls[0].now, max);
      CallAt(calls, max, 1);
      CallAt(calls, max, 2);
      AfterCreate("a", calls[0].now, max);
      var t := Alone(EMPTY, CREATE_A, calls[0].now, max).0;
      AfterDelete(t, calls[1].now, max);
      NothingToDelete(Alone(t, DELETE_A, calls[1].now, max).0, calls[2].now, max);
      assert false;
    }
  }

  lemma ThreeCalls(s: State, calls: seq<Call>)
    requires s.procs == map[0 := CREATED, 1 := DELETED, 2 := DELETED]
    requires CallsOf(s, calls)
    ensures |calls| >= 3
    ensures calls[0].req == CREATE_A || (calls[0].req == DELETE_A && calls[0].resp == Deleted)
    ensures calls[0].req == CREATE_A ==> forall i | 1 <= i < 3 :: calls[i].req == DELETE_A && calls[i].resp == Deleted
  {
    assert Finished(s, 0) && Finished(s, 1) && Finished(s, 2);
  }

  lemma NothingToDelete(t: Table, now: i64, max: u32)
    requires t.rows == map[]
    ensures Alone(t, DELETE_A, now, max).1 == DeleteNotFound
  {
    OnEmpty(t, "a");
  }

  lemma AfterDelete(t: Table, now: i64, max: u32)
    requires t.rows.Keys == {0} && t.nextId == 1 && t.rows[0].alias == "a" && t.rows[0].owner == USER
    ensures Alone(t, DELETE_A, now, max).0.rows == map[]
  {
  }

  // ---------- exactly when ----------

  /** Every run with at most k requests of an account between their statements is request-serial. */
  ghost predicate AllSerial(max: u32, k: nat) {
    forall events: seq<Event> | BetweenAtMost(events, max, k) :: RequestSerial(Run(events, max), max)
  }

  lemma BetweenMonotone(events: seq<Event>, max: u32, j: nat, k: nat)
    requires BetweenAtMost(events, max, j) && j <= k
    ensures BetweenAtMost(events, max, k)
  {
    hide Run, Between;
  }

  lemma OneBetweenIsSerial(events: seq<Event>, max: u32)
    requires BetweenAtMost(events, max, 1)
    ensures RequestSerial(Run(events, max), max)
  {
    hide Run, InOrder, SerialAs, FewBetween, Separate;
    forall i | 0 <= i <= |events|
      ensures Separate(Run(events[..i], max), 1, 1)
    {
      FewIsSeparate(Run(events[..i], max), 1);
    }
    CompletionOrderIsSerial(events, max);
  }

  /** With a limit of at least one, all runs with at most k requests of an account between their
      statements are runs of whole requests if and only if k <= 1. */
  lemma {:induction false} SerialExactly(max: u32, k: nat)
    requires max >= 1
    ensures AllSerial(max, k) <==> k <= 1
  {
    hide Run, RequestSerial, BetweenAtMost;
    if k <= 1 {
      forall events: seq<Event> | BetweenAtMost(events, max, k)
        ensures RequestSerial(Run(events, max), max)
      {
        BetweenMonotone(events, max, k, 1);
        OneBetweenIsSerial(events, max);
      }
    } else {
      TwoDeletesNotSerial(max);
      BetweenMonotone(TWO_DELETES, max, 2, k);
    }
  }

  // ---------- a limit of zero ----------

  ghost predicate Barren(s: State) {
    s.table.rows == map[] && forall r | r in s.procs :: !s.procs[r].pc.CreateChecked? && !s.procs[r].pc.DeleteChecked?
  }

  lemma BarrenStep(s: State, e: Event)
    requires Barren(s) && Inv(s)
    ensures Barren(Exec(s, e, 0))
  {
    hide Replay, Faithful, WellFormed, CountOwned, Fold;
    if e.Step? && e.r in s.procs {
      assert PutOk(s, s.procs[e.r].req, s.procs[e.r].pc);
    }
  }

  lemma {:induction false} BarrenRun(events: seq<Event>)
    ensures Barren(Run(events, 0))
  {
    hide Exec, Inv;
    if events == [] {
    } else {
      var init := events[..|events| - 1];
      BarrenRun(init);
      RunInv(init, 0);
      BarrenStep(Run(init, 0), events[|events| - 1]);
    }
  }

  /** With a limit of zero nothing is ever between its statements, so every run is. */
  lemma {:induction false} ZeroLimitSerial(events: seq<Event>)
    ensures RequestSerial(Run(events, 0), 0)
  {
    hide Run;
    forall i | 0 <= i <= |events|
      ensures FewBetween(Run(events[..i], 0), 1)
    {
      BarrenRun(events[..i]);
      forall user: int
        ensures Between(Run(events[..i], 0), user) == {}
      {
      }
    }
    OneBetweenIsSerial(events, 0);
  }

  // ---------- creates and deletes apart ----------

  lemma OneStepReqs(s: State, e: Event, max: u32, r: nat)
    requires r in s.procs
    ensures r in Exec(s, e, max).procs && Exec(s, e, max).procs[r].req == s.procs[r].req
  {
  }

  /** What a request asks never changes. */
  lemma {:induction false} ReqsStay(events: seq<Event>, max: u32, i: nat, r: nat)
    requires i <= |events| && r in Run(events[..i], max).procs
    ensures r in Run(events, max).procs && Run(events, max).procs[r].req == Run(events[..i], max).procs[r].req
  {
    if i == |events| {
      assert events[..i] == events;
    } else {
      var init := events[..|events| - 1];
      assert init[..i] == events[..i];
      ReqsStay(init, max, i, r);
      hide Exec;
      OneStepReqs(Run(init, max), events[|events| - 1], max, r);
    }
  }

  lemma CheckedKinds(s: State, r: nat)
    requires Inv(s) && r in s.procs
    ensures s.procs[r].pc.CreateChecked? ==> s.procs[r].req.Create?
    ensures s.procs[r].pc.DeleteChecked? ==> s.procs[r].req.Delete?
  {
    hide Replay, Faithful, WellFormed;
    assert PutOk(s, s.procs[r].req, s.procs[r].pc);
  }

  /** A run of whole requests keeps the limit. */
  lemma AloneWithinQuota(t: Table, req: Request, now: i64, max: u32, user: int)
    requires WellFormed(t) && CountOwned(t, user) <= max as int
    ensures WellFormed(Alone(t, req, now, max).0) && CountOwned(Alone(t, req, now, max).0, user) <= max as int
  {
    hide CountOwned, WellFormed, Find, Fold;
    match req
    case Create(u, alias) =>
      InsertKeeps(t, u, alias, now);
      if Insert(t, u, alias, now).Some? { CountInsert(t, u, alias, now, user); }
    case Put(u, alias, expected, body) =>
      PutAloneKeeps(t, u, alias, expected, body, now);
      PutCount(t, u, alias, expected, body, now, user);
    case Delete(u, alias) =>
      DeleteKeeps(t, alias, u);
      CountDelete(t, alias, u, user);
    case Get(_, _) =>
  }

  lemma PutCount(t: Table, u: int, alias: string, expected: nat, body: Bytes, now: i64, user: int)
    ensures CountOwned(PutAlone(t, u, alias, expected, body, now).0, user) == CountOwned(t, user)
  {
    hide CountOwned, Find;
    var found := PutLookup(t, u, alias, expected);
    if found.Write? {
      CountUpdate(t, found.id, body, found.version, now, user);
    }
  }

  lemma {:induction false} SeriallyWithinQuota(calls: seq<Call>, max: u32, user: int)
    ensures WellFormed(Serially(calls, max)) && CountOwned(Serially(calls, max), user) <= max as int
  {
    if calls == [] {
      assert OwnedIds(EMPTY, user) == {};
    } else {
      hide Alone, WellFormed, CountOwned;
      var init, last := calls[..|calls| - 1], calls[|calls| - 1];
      SeriallyWithinQuota(init, max, user);
      AloneWithinQuota(Serially(init, max), last.req, last.now, max, user);
    }
  }

  /** For every limit: two creates at a time, and no delete, can pass it, which no order of whole
      requests does. */
  lemma CreatesNotSerial(max: u32) returns (events: seq<Event>)
    requires max >= 1
    ensures SeparateAtMost(events, max, 2, 0) && !RequestSerial(Run(events, max), max)
  {
    hide Run, Separate, CountOwned, SerialAs, ProfileQuota.InFlight, ProfileQuota.InFlightAtMost;
    events := ProfileQuota.QuotaBoundReached(max, USER, 2);
    forall i | 0 <= i <= |events|
      ensures Separate(Run(events[..i], max), 2, 0)
    {
      CreatesSeparate(events, max, i);
    }
    forall calls: seq<Call>
      ensures !SerialAs(Run(events, max), calls, max)
    {
      SeriallyWithinQuota(calls, max, USER);
      WrongTable(Run(events, max), calls, max);
    }
  }

  lemma WrongTable(s: State, calls: seq<Call>, max: u32)
    requires CountOwned(Serially(calls, max), USER) < CountOwned(s.table, USER)
    ensures !SerialAs(s, calls, max)
  {
  }

  lemma CreatesSeparate(events: seq<Event>, max: u32, i: nat)
    requires i <= |events| && ProfileQuota.InFlightAtMost(events, max, USER, 2)
    requires var procs := Run(events, max).procs;
        forall r | r in procs :: procs[r].req.Create? && procs[r].req.user == USER
    ensures Separate(Run(events[..i], max), 2, 0)
  {
    var s := Run(events[..i], max);
    RunInv(events[..i], max);
    hide Run, Inv;
    forall r | r in s.procs
      ensures s.procs[r].req.Create? && s.procs[r].req.user == USER && !s.procs[r].pc.DeleteChecked?
    {
      ReqsStay(events, max, i, r);
      CheckedKinds(s, r);
    }
    OnlyCreates(s);
  }

  lemma OnlyCreates(s: State)
    requires forall r | r in s.procs ::
         s.procs[r].req.Create? && s.procs[r].req.user == USER && !s.procs[r].pc.DeleteChecked?
    requires |ProfileQuota.InFlight(s, USER)| <= 2
    ensures Separate(s, 2, 0)
  {
    forall user: int
      ensures |Creating(s, user)| <= 2
    {
      if user == USER {
        SubsetSize(Creating(s, user), ProfileQuota.InFlight(s, user));
      } else {
        assert Creating(s, user) == {};
      }
    }
    assert forall user: int, alias: string :: Deleting(s, user, alias) == {};
  }

  /** For every limit: one create at a time, and two deletes of one alias. */
  lemma DeletesNotSerial(max: u32)
    requires max >= 1
    ensures SeparateAtMost(TWO_DELETES, max, 1, 2) && !RequestSerial(Run(TWO_DELETES, max), max)
  {
    TwoDeletesNotSerial(max);
    var s := TwoDeletesRun(max);
    hide Run, Separate, RequestSerial, BetweenAtMost, TWO_DELETES;
    forall i | 0 <= i <= |TWO_DELETES|
      ensures Separate(Run(TWO_DELETES[..i], max), 1, 2)
    {
      DeletesSeparate(max, i, s);
    }
  }

  lemma DeletesSeparate(max: u32, i: nat, s: State)
    requires i <= |TWO_DELETES| && s == Run(TWO_DELETES, max)
    requires s.procs == map[0 := CREATED, 1 := DELETED, 2 := DELETED]
    ensures Separate(Run(TWO_DELETES[..i], max), 1, 2)
  {
    var t := Run(TWO_DELETES[..i], max);
    RunInv(TWO_DELETES[..i], max);
    hide Run, Inv, Fold;
    forall r | r in t.procs
      ensures (t.procs[r].pc.CreateChecked? ==> r == 0) && (t.procs[r].pc.DeleteChecked? ==> r == 1 || r == 2)
    {
      ReqsStay(TWO_DELETES, max, i, r);
      CheckedKinds(t, r);
    }
    OneAndTwo(t);
  }

  lemma OneAndTwo(s: State)
    requires forall r | r in s.procs ::
               (s.procs[r].pc.CreateChecked? ==> r == 0) && (s.procs[r].pc.DeleteChecked? ==> r == 1 || r == 2)
    ensures Separate(s, 1, 2)
  {
    hide Fold;
    forall user: int
      ensures |Creating(s, user)| <= 1
    {
      SubsetSize(Creating(s, user), {0});
    }
    forall user: int, alias: string
      ensures |Deleting(s, user, alias)| <= 2
    {
      SubsetSize(Deleting(s, user, alias), {1, 2});
    }
  }

  // ---------- no creates at all ----------

  lemma {:induction false} NoCreatesBarren(events: seq<Event>, max: u32, d: nat)
    requires SeparateAtMost(events, max, 0, d)
    ensures Barren(Run(events, max))
  {
    hide Exec, Inv, Separate;
    if events == [] {
    } else {
      var init := events[..|events| - 1];
      SeparatePrefix(events, max, 0, d);
      NoCreatesBarren(init, max, d);
      RunInv(init, max);
      assert events[..|events|] == events;
      NoCreateStep(Run(init, max), events[|events| - 1], max, d);
    }
  }

  lemma NoneCreating(s: State, d: nat)
    requires Separate(s, 0, d)
    ensures forall r | r in s.procs :: !s.procs[r].pc.CreateChecked?
  {
    hide Deleting;
    forall r | r in s.procs
      ensures !s.procs[r].pc.CreateChecked?
    {
      assert |Creating(s, s.procs[r].req.user)| == 0;
      assert r !in Creating(s, s.procs[r].req.user);
    }
  }

  lemma NoCreateStep(s: State, e: Event, max: u32, d: nat)
    requires Barren(s) && Inv(s) && Separate(Exec(s, e, max), 0, d)
    ensures Barren(Exec(s, e, max))
  {
    hide Replay, Faithful, WellFormed, CountOwned, Fold;
    NoneCreating(Exec(s, e, max), d);
    if e.Step? && e.r in s.procs {
      assert PutOk(s, s.procs[e.r].req, s.procs[e.r].pc);
    }
  }

  lemma BarrenSeparate(s: State)
    requires Barren(s)
    ensures Separate(s, 1, 1)
  {
    assert forall user: int :: Creating(s, user) == {};
    assert forall user: int, alias: string :: Deleting(s, user, alias) == {};
  }

  /** Every run with at most c creates of any account and d deletes of any of its aliases between their
      statements is request-serial. */
  ghost predicate AllSeparateSerial(max: u32, c: nat, d: nat) {
    forall events: seq<Event> | SeparateAtMost(events, max, c, d) :: RequestSerial(Run(events, max), max)
  }

  lemma SeparateMonotone(events: seq<Event>, max: u32, c: nat, d: nat, c': nat, d': nat)
    requires SeparateAtMost(events, max, c, d) && c <= c' && d <= d'
    ensures SeparateAtMost(events, max, c', d')
  {
    hide Run, Creating, Deleting;
  }

  lemma SeparateIsSerial(events: seq<Event>, max: u32, c: nat, d: nat)
    requires SeparateAtMost(events, max, c, d) && (c == 0 || (c <= 1 && d <= 1))
    ensures RequestSerial(Run(events, max), max)
  {
    hide Run, InOrder, SerialAs, Separate, Barren;
    if c == 0 {
      forall i | 0 <= i <= |events|
        ensures Separate(Run(events[..i], max), 1, 1)
      {
        assert forall j | 0 <= j <= i :: events[..i][..j] == events[..j];
        NoCreatesBarren(events[..i], max, d);
        BarrenSeparate(Run(events[..i], max));
      }
    } else {
      SeparateMonotone(events, max, c, d, 1, 1);
    }
    CompletionOrderIsSerial(events, max);
  }

  /** With a limit of at least one: all runs with at most c creates of an account and d deletes of one of
      its aliases between their statements are request-serial if and only if both are at most one, or
      nothing is ever created. */
  lemma {:induction false} SeparateExactly(max: u32, c: nat, d: nat)
    requires max >= 1
    ensures AllSeparateSerial(max, c, d) <==> c == 0 || (c <= 1 && d <= 1)
  {
    hide Run, RequestSerial, SeparateAtMost, TWO_DELETES;
    if c == 0 || (c <= 1 && d <= 1) {
      forall events: seq<Event> | SeparateAtMost(events, max, c, d)
        ensures RequestSerial(Run(events, max), max)
      {
        SeparateIsSerial(events, max, c, d);
      }
    } else if c >= 2 {
      var events := CreatesNotSerial(max);
      SeparateMonotone(events, max, 2, 0, c, d);
    } else {
      DeletesNotSerial(max);
      SeparateMonotone(TWO_DELETES, max, 1, 2, c, d);
    }
  }
}
