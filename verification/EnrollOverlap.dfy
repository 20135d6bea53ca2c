/** What overlapping requests can and cannot do to one enrollment: which enrollment an activation
    reaches, how many requests one recovery row lets in, and how many sessions one challenge gives. */
module EnrollOverlap {
  import opened Wrappers
  import opened EnrollMachine
  import opened Intervals
  import opened RecoveryCodes

  // ---------- which enrollment an activation reaches ----------

  /** The account has a secret row from the first i events of the run to all of them. */
  ghost predicate Stands(events: seq<Event>, i: nat, user: nat)
    requires i <= |events|
  {
    forall j | i <= j <= |events| :: user in Run(events[..j]).tables.secrets
  }

  lemma ExecSame(s: State, e: Event, user: nat)
    requires Inv(s)
    ensures SameEnrollment(s.tables, Exec(s, e).tables, user)
  {
    hide Inv, Exec, RowsKeep, RowsOf;
    ExecKeeps(s, e);
    if user != ActorOf(s, e) {
      OthersRows(s.tables, Exec(s, e).tables, ActorOf(s, e), user);
    }
  }

  lemma OthersRows(a: Tables, b: Tables, user: nat, other: nat)
    requires AgreeBut(a, b, user) && other != user
    ensures RowsOf(b, other) == RowsOf(a, other)
  {
  }

  /** An enrollment that is never absent is the same one. */
  lemma {:induction false} StandingIsSame(events: seq<Event>, i: nat, user: nat)
    requires i <= |events| && Stands(events, i, user)
    ensures user in Run(events[..i]).tables.secrets && user in Run(events).tables.secrets
    ensures SameEnrollment(Run(events[..i]).tables, Run(events).tables, user)
  {
    hide Exec, Inv, RowsOf;
    assert events[..|events|] == events;
    if i == |events| {
    } else {
      var init := events[..|events| - 1];
      assert forall j | i <= j <= |init| :: init[..j] == events[..j];
      assert init[..|init|] == init;
      StandingIsSame(init, i, user);
      RunInv(init);
      ExecSame(Run(init), events[|events| - 1], user);
    }
  }

  /** An account without a secret row at some point has only newer rows later. */
  lemma NewerRows(events: seq<Event>, j: nat, user: nat, id: nat)
    requires j <= |events| && user !in Run(events[..j]).tables.secrets && id in RowsOf(Run(events).tables, user)
    ensures id >= Run(events[..j]).tables.nextRow
  {
    RowsKeepInRuns(events, j);
    ShapeInEveryRun(events[..j], user);
    hide Run, RowsKeep;
    var t := Run(events[..j]).tables;
    assert RowsOf(t, user) == {};
    if id < t.nextRow {
      KeptRow(t, Run(events).tables, user, id);
      assert false;
    }
  }

  lemma KeptRow(t: Tables, t': Tables, user: nat, id: nat)
    requires RowsKeep(t, t') && id < t.nextRow && id in RowsOf(t', user)
    ensures id in RowsOf(t, user)
  {
  }

  lemma OldRowsBelow(events: seq<Event>, i: nat, j: nat, user: nat, id: nat)
    requires i <= j <= |events| && id in RowsOf(Run(events[..i]).tables, user)
    ensures id < Run(events[..j]).tables.nextRow
  {
    assert events[..j][..i] == events[..i];
    RowsKeepInRuns(events[..j], i);
    RunInv(events[..i]);
    hide Run, PcOk;
  }

  lemma SomeRow(t: Tables, user: nat) returns (id: nat)
    requires |RowsOf(t, user)| == CODE_COUNT
    ensures id in RowsOf(t, user)
  {
    id :| id in RowsOf(t, user);
  }

  /** The rows an account has at two points of a run are the same ones exactly if it had a secret row
      all the time between them. */
  lemma {:induction false} SameRowsIffStands(events: seq<Event>, i: nat, user: nat)
    requires i <= |events|
    requires user in Run(events[..i]).tables.secrets && user in Run(events).tables.secrets
    ensures RowsOf(Run(events).tables, user) == RowsOf(Run(events[..i]).tables, user) <==> Stands(events, i, user)
  {
    hide Run, RowsOf;
    if Stands(events, i, user) {
      StandingIsSame(events, i, user);
    } else {
      var j :| i <= j <= |events| && user !in Run(events[..j]).tables.secrets;
      ShapeInEveryRun(events, user);
      var id := SomeRow(Run(events).tables, user);
      NewerRows(events, j, user, id);
      if id in RowsOf(Run(events[..i]).tables, user) {
        OldRowsBelow(events, i, j, user, id);
      }
    }
  }

  /** The check of an activation reads the seed of the enrollment it finds. */
  lemma CheckReadsSeed(s: State, e: Event, r: nat)
    requires r in s.procs && s.procs[r].pc.Ready? && Exec(s, e).procs[r].pc.ActivateChecked?
    ensures var user := s.procs[r].req.user;
            user in s.tables.secrets && s.tables.secrets[user].seed == Exec(s, e).procs[r].pc.seed
    ensures Exec(s, e).procs[r].req == s.procs[r].req
  {
  }

  /** Event i was the check of activation r, which still stands before its UPDATE. */
  ghost predicate CheckedAt(events: seq<Event>, i: nat, r: nat)
    requires i < |events|
  {
    var before, after, now := Run(events[..i]), Run(events[..i + 1]), Run(events);
    && r in before.procs && before.procs[r].pc.Ready?
    && r in after.procs && after.procs[r].pc.ActivateChecked?
    && r in now.procs && now.procs[r] == after.procs[r]
  }

  /** The UPDATE of an activation activates whatever enrollment is there: the one whose seed was
      checked exactly if the account has had a secret row ever since the check. */
  lemma {:induction false} ActivatesTheChecked(events: seq<Event>, i: nat, r: nat, row: Option<nat>, good: bool)
    requires i < |events| && CheckedAt(events, i, r) && Run(events).procs[r].req.Activate?
    ensures var user, seed := Run(events).procs[r].req.user, Run(events).procs[r].pc.seed;
            var t, t' := Run(events[..i]).tables, Exec(Run(events), Step(r, row, good, false)).tables;
            && (user in t'.secrets ==> t'.secrets[user].active)
            && (user in t'.secrets ==> (RowsOf(t', user) == RowsOf(t, user) <==> Stands(events, i, user)))
            && (Stands(events, i, user) ==> user in t'.secrets && t'.secrets[user] == Secret(seed, true))
  {
    hide Run, RowsOf;
    var user := Run(events).procs[r].req.user;
    RunPrefix(events, i);
    CheckReadsSeed(Run(events[..i]), events[i], r);
    ActivateRows(Run(events).tables, user);
    assert events[..|events|] == events;
    if user in Run(events).tables.secrets {
      SameRowsIffStands(events, i, user);
      if Stands(events, i, user) {
        StandingIsSame(events, i, user);
      }
    }
  }

  lemma RunPrefix(events: seq<Event>, i: nat)
    requires i < |events|
    ensures Run(events[..i + 1]) == Exec(Run(events[..i]), events[i])
  {
    assert events[..i + 1][..i] == events[..i];
  }

  lemma ActivateRows(t: Tables, user: nat)
    ensures RowsOf(ActivateSecret(t, user), user) == RowsOf(t, user)
  {
  }

  // ---------- how many requests one recovery row lets in ----------

  /** The requests that have matched the row and not yet marked it. */
  function Waiting(s: State, row: nat): set<nat> {
    set r | r in s.procs && s.procs[r].pc == FactorChecked(Some(row))
  }

  /** At no point of the run are more than `k` of them. */
  ghost predicate WaitingAtMost(events: seq<Event>, row: nat, k: nat) {
    forall i | 0 <= i <= |events| :: |Waiting(Run(events[..i]), row)| <= k
  }

  /** The event is the SELECT by which the row lets a request in. */
  predicate LetsIn(s: State, e: Event, row: nat) {
    && e.Step? && e.r in s.procs && ChecksCodeNext(s.procs[e.r])
    && e.r in Exec(s, e).procs && Exec(s, e).procs[e.r].pc == FactorChecked(Some(row))
  }

  /** The requests the row has let in. */
  function LetIn(events: seq<Event>, row: nat): set<nat> {
    if events == [] then {}
    else
      var init, e := events[..|events| - 1], events[|events| - 1];
      LetIn(init, row) + if LetsIn(Run(init), e, row) then {e.r} else {}
  }

  /** The event is an UPDATE of the row, and fails. */
  predicate FailsMark(s: State, e: Event, row: nat) {
    e.Step? && e.fault && e.r in Waiting(s, row)
  }

  function FailedMarks(events: seq<Event>, row: nat): nat {
    if events == [] then 0
    else
      var init, e := events[..|events| - 1], events[|events| - 1];
      FailedMarks(init, row) + if FailsMark(Run(init), e, row) then 1 else 0
  }

  predicate Live(t: Tables, row: nat) {
    row in t.recovery && !t.recovery[row].consumed
  }

  /** While the row is live everybody it let in is waiting or had a failed UPDATE; before it exists
      there is nobody. */
  ghost predicate SlackOk(s: State, letIn: set<nat>, row: nat, k: nat, failed: nat) {
    && |letIn| <= k + failed && Waiting(s, row) <= letIn
    && (Live(s.tables, row) ==> |letIn| <= |Waiting(s, row)| + failed)
    && (row >= s.tables.nextRow ==> letIn == {})
  }

  lemma OthersStay(s: State, e: Event)
    ensures var s' := Exec(s, e);
            forall q | q != e.r :: (q in s'.procs <==> q in s.procs) && (q in s.procs ==> s'.procs[q] == s.procs[q])
  {
    hide InsertRow, DeleteRows, DeleteChallenges, InsertChallenge;
  }

  lemma LetInStep(s: State, e: Event, row: nat)
    requires LetsIn(s, e, row)
    ensures Live(s.tables, row) && Exec(s, e).tables == s.tables
    ensures e.r !in Waiting(s, row) && Waiting(Exec(s, e), row) == Waiting(s, row) + {e.r}
  {
    OthersStay(s, e);
  }

  lemma FailedMarkStep(s: State, e: Event, row: nat)
    requires FailsMark(s, e, row) && s.procs[e.r].req.Factor?
    ensures Exec(s, e).tables == s.tables && Waiting(Exec(s, e), row) == Waiting(s, row) - {e.r}
  {
    OthersStay(s, e);
  }

  lemma MarkStep(s: State, e: Event, row: nat)
    requires e.Step? && !e.fault && e.r in Waiting(s, row) && s.procs[e.r].req.Factor?
    ensures !Live(Exec(s, e).tables, row) && Waiting(Exec(s, e), row) == Waiting(s, row) - {e.r}
  {
    OthersStay(s, e);
  }

  lemma OtherStep(s: State, e: Event, row: nat)
    requires !LetsIn(s, e, row) && (e.Arrive? || e.r !in Waiting(s, row))
    ensures Waiting(Exec(s, e), row) == Waiting(s, row)
  {
    OthersStay(s, e);
    OwnWait(s, e, row);
    hide Exec;
  }

  lemma OwnWait(s: State, e: Event, row: nat)
    requires !LetsIn(s, e, row) && (e.Arrive? || e.r !in Waiting(s, row))
    ensures e.r in Exec(s, e).procs && Exec(s, e).procs[e.r].pc == FactorChecked(Some(row)) ==>
              e.r in s.procs && s.procs[e.r].pc == FactorChecked(Some(row))
    ensures e.Arrive? && e.r in s.procs ==> Exec(s, e) == s
  {
    hide InsertRow, DeleteRows, DeleteChallenges, InsertChallenge;
  }

  lemma WaitersAreFactors(s: State, row: nat, r: nat)
    requires Inv(s) && r in Waiting(s, row)
    ensures s.procs[r].req.Factor?
  {
    hide Shape, ShapeBut;
    assert PcOk(s.tables, s.commits, s.procs[r].req, s.procs[r].pc);
  }

  lemma IdsGrow(t: Tables, t': Tables, row: nat)
    requires RowsKeep(t, t') && forall id | id in t.recovery :: id < t.nextRow
    ensures t.nextRow <= t'.nextRow && (Live(t, row) ==> row < t.nextRow)
    ensures Live(t', row) ==> Live(t, row) || row >= t.nextRow
  {
  }

  /** What any event leaves of the counters and of the row's life. */
  ghost predicate Ages(t: Tables, t': Tables, row: nat) {
    && t.nextRow <= t'.nextRow && (Live(t, row) ==> row < t.nextRow)
    && (Live(t', row) ==> Live(t, row) || row >= t.nextRow)
  }

  lemma SlackLetIn(s: State, e: Event, letIn: set<nat>, row: nat, k: nat, failed: nat)
    requires SlackOk(s, letIn, row, k, failed) && |Waiting(Exec(s, e), row)| <= k && LetsIn(s, e, row)
    requires Ages(s.tables, Exec(s, e).tables, row)
    ensures SlackOk(Exec(s, e), letIn + {e.r}, row, k, failed)
  {
    LetInStep(s, e, row);
    hide Exec, Live, LetsIn, Waiting;
    AddedSize(letIn, e.r);
  }

  lemma AddedSize(s: set<nat>, r: nat)
    ensures |s + {r}| <= |s| + 1
  {
    if r in s {
      assert s + {r} == s;
    }
  }

  lemma SlackMark(s: State, e: Event, letIn: set<nat>, row: nat, k: nat, failed: nat)
    requires Inv(s) && SlackOk(s, letIn, row, k, failed) && e.Step? && e.r in Waiting(s, row)
    requires Ages(s.tables, Exec(s, e).tables, row)
    ensures SlackOk(Exec(s, e), letIn, row, k, failed + if FailsMark(s, e, row) then 1 else 0)
  {
    WaitersAreFactors(s, row, e.r);
    MarkOrFail(s, e, row);
    hide Exec, Live, FailsMark, Waiting, Inv;
  }

  lemma SlackOther(s: State, e: Event, letIn: set<nat>, row: nat, k: nat, failed: nat)
    requires SlackOk(s, letIn, row, k, failed) && |Waiting(Exec(s, e), row)| <= k
    requires !LetsIn(s, e, row) && (e.Arrive? || e.r !in Waiting(s, row))
    requires Ages(s.tables, Exec(s, e).tables, row)
    ensures SlackOk(Exec(s, e), letIn, row, k, failed)
  {
    OtherStep(s, e, row);
    hide Exec, Live, LetsIn, Waiting;
  }

  lemma SlackStep(s: State, e: Event, letIn: set<nat>, row: nat, k: nat, failed: nat)
    requires Inv(s) && SlackOk(s, letIn, row, k, failed) && |Waiting(Exec(s, e), row)| <= k
    ensures SlackOk(Exec(s, e), letIn + (if LetsIn(s, e, row) then {e.r} else {}), row, k,
                failed + if FailsMark(s, e, row) then 1 else 0)
  {
    hide Exec, Live, FailsMark, Waiting, SlackOk;
    AgesInExec(s, e, row);
    assert letIn + {} == letIn;
    if LetsIn(s, e, row) {
      NotWaitingYet(s, e, row);
      SlackLetIn(s, e, letIn, row, k, failed);
    } else if e.Step? && e.r in Waiting(s, row) {
      SlackMark(s, e, letIn, row, k, failed);
    } else {
      NotWaiting(s, e, row);
      SlackOther(s, e, letIn, row, k, failed);
    }
  }

  lemma AgesInExec(s: State, e: Event, row: nat)
    requires Inv(s)
    ensures Ages(s.tables, Exec(s, e).tables, row)
  {
    hide Exec, PcOk;
    ExecKeeps(s, e);
    IdsGrow(s.tables, Exec(s, e).tables, row);
  }

  lemma NotWaitingYet(s: State, e: Event, row: nat)
    requires LetsIn(s, e, row)
    ensures !FailsMark(s, e, row)
  {
    LetInStep(s, e, row);
    NotWaiting(s, e, row);
  }

  lemma NotWaiting(s: State, e: Event, row: nat)
    requires e.Arrive? || e.r !in Waiting(s, row)
    ensures !FailsMark(s, e, row)
  {
  }

  lemma MarkOrFail(s: State, e: Event, row: nat)
    requires e.Step? && e.r in Waiting(s, row) && s.procs[e.r].req.Factor?
    ensures Waiting(Exec(s, e), row) == Waiting(s, row) - {e.r}
    ensures |Waiting(Exec(s, e), row)| == |Waiting(s, row)| - 1
    ensures FailsMark(s, e, row) <==> e.fault
    ensures e.fault ==> Exec(s, e).tables == s.tables
    ensures !e.fault ==> !Live(Exec(s, e).tables, row)
  {
    hide Exec, Live;
    if e.fault {
      FailedMarkStep(s, e, row);
    } else {
      MarkStep(s, e, row);
    }
  }

  lemma NothingWaits(row: nat, k: nat)
    ensures SlackOk(START, {}, row, k, 0)
  {
    assert Waiting(START, row) == {};
  }

  lemma {:induction false} RunSlack(events: seq<Event>, row: nat, k: nat)
    requires WaitingAtMost(events, row, k)
    ensures SlackOk(Run(events), LetIn(events, row), row, k, FailedMarks(events, row))
  {
    hide Exec, Inv, Waiting, LetsIn, SlackOk, FailsMark;
    if events == [] {
      NothingWaits(row, k);
    } else {
      var init, e := events[..|events| - 1], events[|events| - 1];
      assert events[..|events|] == events;
      assert forall i | 0 <= i <= |init| :: init[..i] == events[..i];
      RunSlack(init, row, k);
      RunInv(init);
      SlackStep(Run(init), e, LetIn(init, row), row, k, FailedMarks(init, row));
    }
  }

  /** With at most k requests at a time that have matched a recovery row and not yet marked it, the row
      lets in, in any run, at most k requests and one more for each of its UPDATEs that failed. */
  lemma {:induction false} RowSlack(events: seq<Event>, row: nat, k: nat)
    requires WaitingAtMost(events, row, k)
    ensures |LetIn(events, row)| <= k + FailedMarks(events, row)
  {
    hide Run, Waiting, LetIn, WaitingAtMost, FailedMarks;
    RunSlack(events, row, k);
  }

  // ---------- how many sessions one challenge gives ----------

  predicate SignsIn(p: Proc, id: nat) {
    p.req.Factor? && p.req.goal == SignIn(id)
  }

  /** The requests that have read the challenge and may still be given a session, but have not yet
      deleted it. */
  function Holding(s: State, id: nat): set<nat> {
    set r | r in s.procs && SignsIn(s.procs[r], id)
            && (s.procs[r].pc.ChallengeRead? || s.procs[r].pc.FactorChecked? || s.procs[r].pc == Dropping(true))
  }

  /** The requests that are past the DELETE with an accepted code: they have a session or are about to. */
  function Redeemed(s: State, id: nat): set<nat> {
    set r | r in s.procs && SignsIn(s.procs[r], id) && (s.procs[r].pc.Minting? || s.procs[r].pc == Done(true))
  }

  ghost predicate HoldingAtMost(events: seq<Event>, id: nat, k: nat) {
    forall i | 0 <= i <= |events| :: |Holding(Run(events[..i]), id)| <= k
  }

  /** The event is a DELETE of the challenge after an accepted code, and fails. */
  predicate FailsDrop(s: State, e: Event, id: nat) {
    e.Step? && e.fault && e.r in s.procs && SignsIn(s.procs[e.r], id) && s.procs[e.r].pc == Dropping(true)
  }

  function FailedDrops(events: seq<Event>, id: nat): nat {
    if events == [] then 0
    else
      var init, e := events[..|events| - 1], events[|events| - 1];
      FailedDrops(init, id) + if FailsDrop(Run(init), e, id) then 1 else 0
  }

  /** While the challenge is there only failed DELETEs have redeemed it; before it exists nobody has. */
  ghost predicate ChallengeOk(s: State, id: nat, k: nat, failed: nat) {
    && |Redeemed(s, id)| + |Holding(s, id)| <= k + failed
    && (id in s.tables.challenges ==> |Redeemed(s, id)| <= failed)
    && (id >= s.tables.nextChallenge ==> Redeemed(s, id) == {} && Holding(s, id) == {})
  }

  predicate Reads(s: State, e: Event, id: nat) {
    && e.Step? && e.r in s.procs && SignsIn(s.procs[e.r], id) && s.procs[e.r].pc.Ready?
    && e.r in Exec(s, e).procs && Exec(s, e).procs[e.r].pc.ChallengeRead?
  }

  predicate Drops(s: State, e: Event, id: nat) {
    e.Step? && e.r in s.procs && SignsIn(s.procs[e.r], id) && s.procs[e.r].pc == Dropping(true)
  }

  lemma ReadsStep(s: State, e: Event, id: nat)
    requires Reads(s, e, id)
    ensures id in s.tables.challenges && Exec(s, e).tables == s.tables
    ensures Holding(Exec(s, e), id) == Holding(s, id) + {e.r} && Redeemed(Exec(s, e), id) == Redeemed(s, id)
  {
    OthersStay(s, e);
  }

  lemma DropsStep(s: State, e: Event, id: nat)
    requires Drops(s, e, id)
    ensures e.r in Holding(s, id) && Holding(Exec(s, e), id) == Holding(s, id) - {e.r}
    ensures Redeemed(Exec(s, e), id) == Redeemed(s, id) + {e.r}
    ensures if e.fault then Exec(s, e).tables == s.tables else id !in Exec(s, e).tables.challenges
  {
    OthersStay(s, e);
  }

  lemma HoldsOnly(s: State, e: Event, id: nat)
    requires Inv(s) && !Reads(s, e, id) && !Drops(s, e, id)
    ensures var s' := Exec(s, e); Holding(s', id) <= Holding(s, id) && Redeemed(s', id) <= Redeemed(s, id)
  {
    OthersStay(s, e);
    OwnHold(s, e, id);
    hide Exec, Reads, Drops, Inv;
  }

  lemma OwnHold(s: State, e: Event, id: nat)
    requires Inv(s) && !Reads(s, e, id) && !Drops(s, e, id)
    ensures e.r in Holding(Exec(s, e), id) ==> e.r in Holding(s, id)
    ensures e.r in Redeemed(Exec(s, e), id) ==> e.r in Redeemed(s, id)
  {
    hide InsertRow, DeleteRows, DeleteChallenges, InsertChallenge, Consume, DropChallenge, ActivateSecret, Shape,
         ShapeBut, Local, ChallengeIdsBelow;
    if e.r in s.procs {
      assert PcOk(s.tables, s.commits, s.procs[e.r].req, s.procs[e.r].pc);
    }
  }

  lemma ChallengeIdsGrow(t: Tables, t': Tables, id: nat)
    requires ChallengesKeep(t, t') && ChallengeIdsBelow(t)
    ensures t.nextChallenge <= t'.nextChallenge && (id in t.challenges ==> id < t.nextChallenge)
    ensures id in t'.challenges ==> id in t.challenges || id >= t.nextChallenge
  {
  }

  lemma AddOne(s: set<nat>, r: nat)
    ensures |s + {r}| <= |s| + 1 && (r in s ==> |s - {r}| == |s| - 1)
  {
    if r in s {
      assert s + {r} == s;
    }
  }

  lemma ChallengeStep(s: State, e: Event, id: nat, k: nat, failed: nat)
    requires Inv(s) && ChallengeOk(s, id, k, failed) && |Holding(Exec(s, e), id)| <= k
    ensures ChallengeOk(Exec(s, e), id, k, failed + if FailsDrop(s, e, id) then 1 else 0)
  {
    ExecKeeps(s, e);
    ChallengeIdsGrow(s.tables, Exec(s, e).tables, id);
    assert FailsDrop(s, e, id) <==> Drops(s, e, id) && e.fault;
    hide Exec, Inv, RowsKeep, AgreeBut, Local, ChallengesLocal, FailsDrop, Holding, Redeemed;
    if Reads(s, e, id) {
      ReadsStep(s, e, id);
    } else if Drops(s, e, id) {
      DropsStep(s, e, id);
      AddOne(Holding(s, id), e.r);
      AddOne(Redeemed(s, id), e.r);
    } else {
      HoldsOnly(s, e, id);
      SubsetSize(Holding(Exec(s, e), id), Holding(s, id));
      SubsetSize(Redeemed(Exec(s, e), id), Redeemed(s, id));
    }
  }

  lemma NothingHeld(id: nat, k: nat)
    ensures ChallengeOk(START, id, k, 0)
  {
    assert Holding(START, id) == {} && Redeemed(START, id) == {};
  }

  lemma {:induction false} RunChallenge(events: seq<Event>, id: nat, k: nat)
    requires HoldingAtMost(events, id, k)
    ensures ChallengeOk(Run(events), id, k, FailedDrops(events, id))
  {
    hide Exec, Inv, Holding, ChallengeOk, FailsDrop;
    if events == [] {
      NothingHeld(id, k);
    } else {
      var init, e := events[..|events| - 1], events[|events| - 1];
      assert events[..|events|] == events;
      assert forall i | 0 <= i <= |init| :: init[..i] == events[..i];
      RunChallenge(init, id, k);
      RunInv(init);
      ChallengeStep(Run(init), e, id, k, FailedDrops(init, id));
    }
  }

  /** With at most k requests at a time that have read a challenge and not yet deleted it, the challenge
      gives, in any run, at most k sessions and one more for each of its DELETEs that failed. */
  lemma {:induction false} ChallengeSlack(events: seq<Event>, id: nat, k: nat)
    requires HoldingAtMost(events, id, k)
    ensures |Redeemed(Run(events), id)| <= k + FailedDrops(events, id)
  {
    hide Run, Holding, Redeemed, HoldingAtMost, FailedDrops;
    RunChallenge(events, id, k);
  }
}
