/** When interleaved requests behave like whole requests run one after another. `create` and `delete`
    are two autocommit statements each; it is enough that no two creates of one account, and no two
    deletes of one alias by one account, are between their statements at once. */
module ProfileSerial {
  import opened Wrappers
  import opened MachineInts
  import opened ProfileTable
  import opened ProfileMachine
  import opened Intervals
  import ProfileQuota

  // ---------- whole requests ----------

  /** A whole request run alone. */
  function Alone(t: Table, req: Request, now: i64, max: u32): (Table, Response) {
    match req
    case Create(user, alias) =>
      if OverQuota(CountOwned(t, user), max) then (t, QuotaExceeded)
      else
        var r := Insert(t, user, alias, now);
        if r.None? then (t, AliasTaken) else (r.value, Created(now))
    case Put(user, alias, expected, body) =>
      var (t', answer) := PutAlone(t, user, alias, expected, body, now);
      (t', PutAnswer(answer))
    case Delete(user, alias) =>
      var owner := OwnerOf(t, alias);
      if owner.None? then (t, DeleteNotFound)
      else if owner.value != user then (t, DeleteForbidden)
      else (ProfileTable.Delete(t, alias, user), Deleted)
    case Get(user, alias) => (t, GetAnswer(BlobOf(t, user, alias)))
  }

  /** A finished request: its id, what it asked, the clock it wrote and what it answered. */
  datatype Call = Call(r: nat, req: Request, now: i64, resp: Response)

  /** The calls, whole and in this order, from the empty table. */
  function Serially(calls: seq<Call>, max: u32): Table {
    if calls == [] then EMPTY
    else
      var last := calls[|calls| - 1];
      Alone(Serially(calls[..|calls| - 1], max), last.req, last.now, max).0
  }

  ghost predicate AnswersSerially(calls: seq<Call>, max: u32) {
    forall i | 0 <= i < |calls| :: Alone(Serially(calls[..i], max), calls[i].req, calls[i].now, max).1 == calls[i].resp
  }

  /** The request ended because a statement failed or its transaction was aborted. */
  predicate Failed(pc: Pc) {
    pc.Done? && (pc.resp == ServerError || pc.resp == PutAnswer(PutFailed))
  }

  predicate Finished(s: State, r: nat) {
    r in s.procs && s.procs[r].pc.Done? && !Failed(s.procs[r].pc)
  }

  /** The calls are the finished requests, each once, with their answers. */
  ghost predicate CallsOf(s: State, calls: seq<Call>) {
    && (forall i | 0 <= i < |calls| ::
          Finished(s, calls[i].r) && s.procs[calls[i].r] == Proc(calls[i].req, Done(calls[i].resp)))
    && (forall i, j | 0 <= i < j < |calls| :: calls[i].r != calls[j].r)
    && (forall r | Finished(s, r) :: exists i :: 0 <= i < |calls| && calls[i].r == r)
  }

  /** The finished requests, whole and in this order, give the committed table and every answer. */
  ghost predicate SerialAs(s: State, calls: seq<Call>, max: u32) {
    CallsOf(s, calls) && Serially(calls, max) == s.table && AnswersSerially(calls, max)
  }

  ghost predicate RequestSerial(s: State, max: u32) {
    exists calls: seq<Call> :: SerialAs(s, calls, max)
  }

  /** The creates of an account that have run their first statement and not their second. */
  function Creating(s: State, user: int): set<nat> {
    set r | r in s.procs && s.procs[r].req.user == user && s.procs[r].pc.CreateChecked?
  }

  /** Its deletes of an alias, up to case, that have. */
  function Deleting(s: State, user: int, alias: string): set<nat> {
    set r | r in s.procs && s.procs[r].req.user == user && s.procs[r].pc.DeleteChecked?
            && Fold(s.procs[r].req.alias) == Fold(alias)
  }

  /** At most c creates of any account and d deletes of any alias by it are between their statements. */
  ghost predicate Separate(s: State, c: nat, d: nat) {
    && (forall user: int :: |Creating(s, user)| <= c)
    && forall user: int, alias: string :: |Deleting(s, user, alias)| <= d
  }

  ghost predicate SeparateAtMost(events: seq<Event>, max: u32, c: nat, d: nat) {
    forall i | 0 <= i <= |events| :: Separate(Run(events[..i], max), c, d)
  }

  /** All the requests of an account that are between their statements. */
  function Between(s: State, user: int): set<nat> {
    set r | r in s.procs && s.procs[r].req.user == user
        && (s.procs[r].pc.CreateChecked? || s.procs[r].pc.DeleteChecked?)
  }

  ghost predicate FewBetween(s: State, k: nat) {
    forall user: int :: |Between(s, user)| <= k
  }

  /** At no point of the run are more than `k` requests of one account between their statements. */
  ghost predicate BetweenAtMost(events: seq<Event>, max: u32, k: nat) {
    forall i | 0 <= i <= |events| :: FewBetween(Run(events[..i], max), k)
  }

  lemma FewIsSeparate(s: State, k: nat)
    requires FewBetween(s, k)
    ensures Separate(s, k, k)
  {
    forall user: int
      ensures |Creating(s, user)| <= k
    {
      SubsetSize(Creating(s, user), Between(s, user));
    }
    forall user: int, alias: string
      ensures |Deleting(s, user, alias)| <= k
    {
      SubsetSize(Deleting(s, user, alias), Between(s, user));
    }
  }

  // ---------- the serial order: the order of the answers ----------

  /** The clock a finishing step has written. */
  function TimeOf(pc: Pc, now: i64): i64 {
    if pc.PutWritten? then pc.time else now
  }

  /** What the step of an event adds to the finished requests. */
  function Finishes(s: State, e: Event, max: u32): seq<Call> {
    var s' := Exec(s, e, max);
    if e.Step? && e.r in s.procs && !s.procs[e.r].pc.Done? && Finished(s', e.r)
    then [Call(e.r, s.procs[e.r].req, TimeOf(s.procs[e.r].pc, e.now), s'.procs[e.r].pc.resp)]
    else []
  }

  function InOrder(events: seq<Event>, max: u32): seq<Call> {
    if events == [] then []
    else
      var init := events[..|events| - 1];
      InOrder(init, max) + Finishes(Run(init, max), events[|events| - 1], max)
  }

  // ---------- what an account owns ----------

  /** The account owns the same rows under the same aliases. */
  ghost predicate SameOwned(t: Table, t': Table, user: int) {
    && (forall id | id in t.rows && t.rows[id].owner == user ::
          id in t'.rows && t'.rows[id].owner == user && t'.rows[id].alias == t.rows[id].alias)
    && (forall id | id in t'.rows && t'.rows[id].owner == user :: id in t.rows && t.rows[id].owner == user)
  }

  lemma SameOwnedCounts(t: Table, t': Table, user: int)
    requires SameOwned(t, t', user)
    ensures CountOwned(t', user) == CountOwned(t, user)
  {
    assert OwnedIds(t', user) == OwnedIds(t, user);
  }

  lemma OwnerNamed(t: Table, alias: string, user: int)
    requires WellFormed(t)
    ensures OwnerOf(t, alias) == Some(user) <==>
            exists id :: id in t.rows && t.rows[id].owner == user && Fold(t.rows[id].alias) == Fold(alias)
  {
    if id :| id in t.rows && t.rows[id].owner == user && Fold(t.rows[id].alias) == Fold(alias) {
      FindUnique(t, alias, id);
    }
  }

  lemma SameOwnedOwner(t: Table, t': Table, user: int, alias: string)
    requires WellFormed(t) && WellFormed(t') && SameOwned(t, t', user) && OwnerOf(t, alias) == Some(user)
    ensures OwnerOf(t', alias) == Some(user)
  {
    hide WellFormed;
    OwnerNamed(t, alias, user);
    OwnerNamed(t', alias, user);
  }

  /** Only the second statement of one of its own requests changes what an account owns. */
  lemma ExecOwned(s: State, e: Event, max: u32, user: int)
    requires Inv(s) && e.r !in Between(s, user)
    ensures SameOwned(s.table, Exec(s, e, max).table, user)
  {
    hide Replay, Faithful, Find, Fold;
    if e.Step? && e.r in s.procs && !s.procs[e.r].pc.Done? && !e.fault {
      var Proc(req, pc) := s.procs[e.r];
      assert PutOk(s, req, pc);
    }
  }

  // ---------- what a request between its statements may rely on ----------

  /** Its check still holds. */
  predicate CheckHolds(t: Table, req: Request, pc: Pc, max: u32) {
    && (pc.CreateChecked? ==> req.Create? && !OverQuota(CountOwned(t, req.user), max))
    && (pc.DeleteChecked? ==> req.Delete? && OwnerOf(t, req.alias) == Some(req.user))
  }

  ghost predicate ChecksHold(s: State, max: u32) {
    forall r | r in s.procs :: CheckHolds(s.table, s.procs[r].req, s.procs[r].pc, max)
  }

  lemma CheckStays(t: Table, t': Table, req: Request, pc: Pc, max: u32)
    requires WellFormed(t) && WellFormed(t') && SameOwned(t, t', req.user) && CheckHolds(t, req, pc, max)
    ensures CheckHolds(t', req, pc, max)
  {
    hide WellFormed, SameOwned, CountOwned, OwnerOf;
    SameOwnedCounts(t, t', req.user);
    if pc.DeleteChecked? {
      SameOwnedOwner(t, t', req.user, req.alias);
    }
  }

  /** A request's own step: if it stops between its statements, its check holds. */
  lemma OwnCheck(s: State, e: Event, max: u32)
    requires e.r in Exec(s, e, max).procs
    requires e.r in s.procs ==> CheckHolds(s.table, s.procs[e.r].req, s.procs[e.r].pc, max)
    ensures var p := Exec(s, e, max).procs[e.r]; CheckHolds(Exec(s, e, max).table, p.req, p.pc, max)
  {
    hide CountOwned, Find, Insert;
  }

  lemma OthersStay(s: State, e: Event, max: u32, q: nat)
    requires q != e.r
    ensures var s' := Exec(s, e, max); (q in s'.procs <==> q in s.procs) && (q in s.procs ==> s'.procs[q] == s.procs[q])
  {
  }

  lemma OnlyOne(ids: set<nat>, a: nat, b: nat)
    requires a in ids && b in ids && |ids| <= 1
    ensures a == b
  {
    if a != b {
      SubsetSize({a, b}, ids);
    }
  }

  /** What the second statement of one of its requests does to what an account owns. */
  datatype Second = NoChange | Inserts(alias: string, now: i64) | Removes(alias: string)

  ghost predicate Does(t: Table, t': Table, user: int, what: Second) {
    match what
    case NoChange => t' == t
    case Inserts(alias, now) => Insert(t, user, alias, now) == Some(t')
    case Removes(alias) => t' == ProfileTable.Delete(t, alias, user)
  }

  lemma SecondStatement(s: State, e: Event, max: u32, user: int) returns (what: Second)
    requires Inv(s) && e.r in Between(s, user)
    ensures Does(s.table, Exec(s, e, max).table, user, what)
    ensures what.Inserts? ==> e.r in Creating(s, user)
    ensures what.Removes? ==> e.r in Deleting(s, user, what.alias)
  {
    hide Replay, Faithful, WellFormed, Find, Fold;
    var Proc(req, pc) := s.procs[e.r];
    assert PutOk(s, req, pc);
    what := if e.Arrive? || e.fault then NoChange
            else if pc.DeleteChecked? then Removes(req.alias)
            else if Insert(s.table, user, req.alias, e.now).Some? then Inserts(req.alias, e.now)
            else NoChange;
  }

  /** A delete's check survives the account's insert, and its delete of another alias. */
  lemma OwnerSurvives(t: Table, t': Table, user: int, alias: string, what: Second)
    requires WellFormed(t) && WellFormed(t') && Does(t, t', user, what) && OwnerOf(t, alias) == Some(user)
    requires what.Removes? ==> Fold(what.alias) != Fold(alias)
    ensures OwnerOf(t', alias) == Some(user)
  {
    OwnerNamed(t, alias, user);
    OwnerNamed(t', alias, user);
    hide Fold, Find, OwnerOf;
    var id :| id in t.rows && t.rows[id].owner == user && Fold(t.rows[id].alias) == Fold(alias);
    assert id in t'.rows && t'.rows[id] == t.rows[id];
  }

  /** A create's check survives the account's delete, while its count is within the limit. */
  lemma QuotaSurvives(t: Table, t': Table, user: int, what: Second, max: u32)
    requires Does(t, t', user, what) && !what.Inserts? && CountOwned(t, user) <= max as int
    requires !OverQuota(CountOwned(t, user), max)
    ensures !OverQuota(CountOwned(t', user), max)
  {
    hide CountOwned;
    if what.Removes? {
      CountDelete(t, what.alias, user, user);
    }
  }

  ghost predicate WithinQuota(t: Table, max: u32) {
    forall user: int :: CountOwned(t, user) <= max as int
  }

  lemma ChecksKept(s: State, e: Event, max: u32)
    requires Inv(s) && ChecksHold(s, max) && Separate(s, 1, 1) && WithinQuota(s.table, max)
    ensures ChecksHold(Exec(s, e, max), max)
  {
    var s' := Exec(s, e, max);
    ExecKeeps(s, e, max);
    hide Exec, SameOwned, WellFormed, Replay, Faithful, PutOk, OwnerOf, CountOwned, Separate;
    forall q | q in s'.procs
      ensures CheckHolds(s'.table, s'.procs[q].req, s'.procs[q].pc, max)
    {
      if q == e.r {
        OwnCheck(s, e, max);
      } else {
        OthersStay(s, e, max, q);
        CheckKept(s, e, max, q);
      }
    }
  }

  lemma CheckKept(s: State, e: Event, max: u32, q: nat)
    requires Inv(s) && q in s.procs && q != e.r && Separate(s, 1, 1) && WithinQuota(s.table, max)
    requires CheckHolds(s.table, s.procs[q].req, s.procs[q].pc, max) && WellFormed(Exec(s, e, max).table)
    ensures CheckHolds(Exec(s, e, max).table, s.procs[q].req, s.procs[q].pc, max)
  {
    hide Exec, SameOwned, WellFormed, Replay, Faithful, PutOk, OwnerOf, CountOwned, OverQuota, Fold;
    var Proc(req, pc) := s.procs[q];
    if pc.CreateChecked? || pc.DeleteChecked? {
      if e.r in Between(s, req.user) {
        OverlapKept(s, e, max, q);
      } else {
        ExecOwned(s, e, max, req.user);
        CheckStays(s.table, Exec(s, e, max).table, req, pc, max);
      }
    }
  }

  /** Another request of the account, of the kinds that may overlap, takes its second statement. */
  lemma OverlapKept(s: State, e: Event, max: u32, q: nat)
    requires Inv(s) && q in s.procs && q != e.r && Separate(s, 1, 1) && WithinQuota(s.table, max)
    requires CheckHolds(s.table, s.procs[q].req, s.procs[q].pc, max) && WellFormed(Exec(s, e, max).table)
    requires s.procs[q].pc.CreateChecked? || s.procs[q].pc.DeleteChecked?
    requires e.r in Between(s, s.procs[q].req.user)
    ensures CheckHolds(Exec(s, e, max).table, s.procs[q].req, s.procs[q].pc, max)
  {
    hide Exec, WellFormed, Replay, Faithful, PutOk, OwnerOf, CountOwned, OverQuota, Fold, Does;
    var Proc(req, pc) := s.procs[q];
    var what := SecondStatement(s, e, max, req.user);
    if pc.CreateChecked? {
      if what.Inserts? {
        OnlyOne(Creating(s, req.user), q, e.r);
      }
      QuotaSurvives(s.table, Exec(s, e, max).table, req.user, what, max);
    } else {
      if what.Removes? && Fold(what.alias) == Fold(req.alias) {
        SameDeleting(s, req.user, what.alias, req.alias, e.r);
        OnlyOne(Deleting(s, req.user, req.alias), q, e.r);
      }
      OwnerSurvives(s.table, Exec(s, e, max).table, req.user, req.alias, what);
    }
  }

  lemma SameDeleting(s: State, user: int, a: string, b: string, r: nat)
    requires r in Deleting(s, user, a) && Fold(a) == Fold(b)
    ensures r in Deleting(s, user, b)
  {
  }

  lemma InserterChecked(s: State, e: Event, max: u32, user: int)
    requires Inv(s) && ChecksHold(s, max) && ProfileQuota.InsertsFor(s, e, user)
    ensures !OverQuota(CountOwned(s.table, user), max)
  {
    hide Inv, CountOwned, OverQuota, Insert;
    assert CheckHolds(s.table, s.procs[e.r].req, s.procs[e.r].pc, max);
  }

  /** The limit is kept: a create whose check still holds adds at most the last alias. */
  lemma QuotaKept(s: State, e: Event, max: u32)
    requires Inv(s) && ChecksHold(s, max) && WithinQuota(s.table, max)
    ensures WithinQuota(Exec(s, e, max).table, max)
  {
    hide Exec, Inv, CountOwned, ChecksHold, ProfileQuota.InsertsFor;
    forall user: int
      ensures CountOwned(Exec(s, e, max).table, user) <= max as int
    {
      ProfileQuota.CountStep(s, e, max, user);
      if ProfileQuota.InsertsFor(s, e, user) {
        InserterChecked(s, e, max, user);
      }
    }
  }

  // ---------- one step against whole requests ----------

  /** A finishing step does and answers what the whole request does alone on the committed table. */
  lemma FinishIsAlone(s: State, e: Event, max: u32)
    requires Inv(s) && e.Step? && e.r in s.procs && !s.procs[e.r].pc.Done? && Finished(Exec(s, e, max), e.r)
    requires CheckHolds(s.table, s.procs[e.r].req, s.procs[e.r].pc, max)
    ensures var Proc(req, pc) := s.procs[e.r]; var s' := Exec(s, e, max);
            (s'.table, s'.procs[e.r].pc.resp) == Alone(s.table, req, TimeOf(pc, e.now), max)
  {
    hide Replay, Faithful, WellFormed, Find, CountOwned, OverQuota;
    var Proc(req, pc) := s.procs[e.r];
    assert PutOk(s, req, pc);
  }

  /** Every other step leaves the table alone. */
  lemma OtherStepIsQuiet(s: State, e: Event, max: u32)
    requires Inv(s) && Finishes(s, e, max) == []
    ensures Exec(s, e, max).table == s.table
  {
    hide Replay, Faithful, WellFormed, Find, CountOwned, OverQuota;
  }

  lemma SeriallyAppend(calls: seq<Call>, c: Call, max: u32)
    requires AnswersSerially(calls, max)
    ensures Serially(calls + [c], max) == Alone(Serially(calls, max), c.req, c.now, max).0
    ensures Alone(Serially(calls, max), c.req, c.now, max).1 == c.resp ==> AnswersSerially(calls + [c], max)
  {
    hide Alone;
    var calls' := calls + [c];
    assert calls'[..|calls|] == calls;
    assert forall i | 0 <= i < |calls| :: calls'[..i] == calls[..i];
  }

  /** One more event: at most its own request finishes. */
  lemma CallsStep(s: State, e: Event, max: u32, calls: seq<Call>)
    requires CallsOf(s, calls)
    ensures CallsOf(Exec(s, e, max), calls + Finishes(s, e, max))
  {
    var s', more := Exec(s, e, max), Finishes(s, e, max);
    forall q | q != e.r
      ensures Finished(s', q) <==> Finished(s, q)
      ensures Finished(s, q) ==> s'.procs[q] == s.procs[q]
    {
      OthersStay(s, e, max, q);
    }
    OwnFinish(s, e, max);
    hide Exec;
    forall r | Finished(s', r)
      ensures exists i :: 0 <= i < |calls + more| && (calls + more)[i].r == r
    {
      if Finished(s, r) {
        var i :| 0 <= i < |calls| && calls[i].r == r;
        assert (calls + more)[i].r == r;
      } else {
        assert (calls + more)[|calls|].r == r;
      }
    }
  }

  lemma OwnFinish(s: State, e: Event, max: u32)
    ensures var s' := Exec(s, e, max);
            && (Finished(s, e.r) ==> Finishes(s, e, max) == [] && Finished(s', e.r) && s'.procs[e.r] == s.procs[e.r])
            && (!Finished(s, e.r) && Finished(s', e.r) ==>
                  |Finishes(s, e, max)| == 1
                  && var c := Finishes(s, e, max)[0]; c.r == e.r && s'.procs[e.r] == Proc(c.req, Done(c.resp)))
            && (!Finished(s', e.r) ==> Finishes(s, e, max) == [])
  {
  }

  // ---------- runs ----------

  lemma SeparatePrefix(events: seq<Event>, max: u32, c: nat, d: nat)
    requires SeparateAtMost(events, max, c, d) && events != []
    ensures SeparateAtMost(events[..|events| - 1], max, c, d)
    ensures Separate(Run(events[..|events| - 1], max), c, d)
  {
    hide Run, Separate;
    var init := events[..|events| - 1];
    assert forall i | 0 <= i <= |init| :: init[..i] == events[..i];
    assert init[..|init|] == init;
  }

  lemma NothingChecked(max: u32)
    ensures ChecksHold(START, max) && WithinQuota(START.table, max)
  {
    assert forall user: int :: OwnedIds(START.table, user) == {};
  }

  lemma {:induction false} RunChecksHold(events: seq<Event>, max: u32)
    requires SeparateAtMost(events, max, 1, 1)
    ensures ChecksHold(Run(events, max), max) && WithinQuota(Run(events, max).table, max)
  {
    hide Exec, SeparateAtMost, CheckHolds, WithinQuota, Separate;
    if events == [] {
      NothingChecked(max);
    } else {
      var init := events[..|events| - 1];
      SeparatePrefix(events, max, 1, 1);
      RunChecksHold(init, max);
      RunInv(init, max);
      ChecksKept(Run(init, max), events[|events| - 1], max);
      QuotaKept(Run(init, max), events[|events| - 1], max);
    }
  }

  /** If no two creates of one account, and no two deletes of one alias by one account, are ever between
      their statements at once, then the finished requests, whole and one at a time in the order of
      their answers, give the committed table and every answer. A failed request leaves nothing. */
  lemma {:induction false} CompletionOrderIsSerial(events: seq<Event>, max: u32)
    requires SeparateAtMost(events, max, 1, 1)
    ensures SerialAs(Run(events, max), InOrder(events, max), max)
  {
    hide Exec, SeparateAtMost, Separate, CheckHolds, Finishes, Alone, CallsOf;
    if events == [] {
      NothingSerial(max);
    } else {
      var init, e := events[..|events| - 1], events[|events| - 1];
      var s, calls := Run(init, max), InOrder(init, max);
      SeparatePrefix(events, max, 1, 1);
      CompletionOrderIsSerial(init, max);
      RunInv(init, max);
      RunChecksHold(init, max);
      CallsStep(s, e, max, calls);
      StepSerial(s, e, max, calls);
    }
  }

  lemma NothingSerial(max: u32)
    ensures SerialAs(START, [], max)
  {
  }

  lemma StepSerial(s: State, e: Event, max: u32, calls: seq<Call>)
    requires Inv(s) && ChecksHold(s, max) && Serially(calls, max) == s.table && AnswersSerially(calls, max)
    ensures Serially(calls + Finishes(s, e, max), max) == Exec(s, e, max).table
    ensures AnswersSerially(calls + Finishes(s, e, max), max)
  {
    hide Exec, Alone, CheckHolds, Inv, AnswersSerially, Serially, Finished;
    if Finishes(s, e, max) == [] {
      OtherStepIsQuiet(s, e, max);
      assert calls + [] == calls;
    } else {
      FinishIsAlone(s, e, max);
      SeriallyAppend(calls, Finishes(s, e, max)[0], max);
    }
  }
}
