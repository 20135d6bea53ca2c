/** Whole-run properties of the interleaved profile store. */
module ProfileRuns {
  import opened Wrappers
  import opened MachineInts
  import opened ProfileTable
  import opened ProfileMachine

  // ---------- every run is a serial run of its statements and whole PUTs ----------

  function EntriesOf(log: seq<Entry>, r: nat): seq<Entry> {
    if log == [] then []
    else EntriesOf(log[..|log| - 1], r) + if log[|log| - 1].r == r then [log[|log| - 1]] else []
  }

  predicate TookEffect(e: Entry) {
    (e.Inserted? && e.ok) || e.Removed? || (e.PutDone? && e.result.PutStored?)
  }

  /** The statements a handler runs one after another on its own, and what it answers from their results. */
  function AnswerOf(req: Request, es: seq<Entry>, max: u32): Option<Response> {
    match req
    case Create(user, alias) =>
      if |es| == 1 && es[0].Counted? && es[0].user == user && OverQuota(es[0].n, max) then Some(QuotaExceeded)
      else if |es| == 2 && es[0].Counted? && es[0].user == user && !OverQuota(es[0].n, max)
              && es[1].Inserted? && es[1].user == user && es[1].alias == alias
      then Some(if es[1].ok then Created(es[1].now) else AliasTaken)
      else None
    case Delete(user, alias) =>
      if |es| == 1 && es[0].OwnerRead? && es[0].alias == alias && es[0].owner != Some(user)
      then Some(if es[0].owner.None? then DeleteNotFound else DeleteForbidden)
      else if |es| == 2 && es[0].OwnerRead? && es[0].alias == alias && es[0].owner == Some(user)
              && es[1].Removed? && es[1].user == user && es[1].alias == alias
      then Some(Deleted)
      else None
    case Put(user, alias, expected, body) =>
      if |es| == 1 && es[0].PutDone? && es[0].user == user && es[0].alias == alias
         && es[0].expected == expected && es[0].body == body
      then Some(PutAnswer(es[0].result))
      else None
    case Get(user, alias) =>
      if |es| == 1 && es[0].BlobRead? && es[0].user == user && es[0].alias == alias
      then Some(GetAnswer(es[0].get))
      else None
  }

  ghost predicate Explained(req: Request, pc: Pc, es: seq<Entry>, max: u32) {
    match pc
    case Ready => es == []
    case PutRead(_, _, _, _) => es == []
    case PutWritten(_, _, _, _, _, _) => es == []
    case CreateChecked => |es| == 1 && es[0].Counted? && es[0].user == req.user && !OverQuota(es[0].n, max)
    case DeleteChecked => |es| == 1 && es[0].OwnerRead? && req.Delete? && es[0].alias == req.alias
        && es[0].owner == Some(req.user)
    case Done(resp) =>
      if resp == ServerError || resp == PutAnswer(PutFailed) then forall e | e in es :: !TookEffect(e)
      else AnswerOf(req, es, max) == Some(resp)
  }

  ghost predicate AllExplained(s: State, max: u32) {
    && (forall r | r in s.procs :: Explained(s.procs[r].req, s.procs[r].pc, EntriesOf(s.log, r), max))
    && (forall r: nat | r !in s.procs :: EntriesOf(s.log, r) == [])
  }

  lemma EntriesAppend(log: seq<Entry>, e: Entry, r: nat)
    ensures EntriesOf(log + [e], r) == EntriesOf(log, r) + if e.r == r then [e] else []
  {
    assert (log + [e])[..|log|] == log;
  }

  /** One step moves one request and logs at most one entry, under its name. */
  lemma StepShape(s: State, e: Event, max: u32)
    ensures var s' := Exec(s, e, max);
            && (forall q | q != e.r ::
                 (q in s'.procs <==> q in s.procs) && (q in s.procs ==> s'.procs[q] == s.procs[q]))
            && (s'.log == s.log || (|s'.log| == |s.log| + 1 && s'.log == s.log + [s'.log[|s.log|]]
                && s'.log[|s.log|].r == e.r))
            && (s'.log != s.log ==> e.r in s.procs && e.r in s'.procs)
  {
  }

  /** What one step adds to the log. */
  function Added(s: State, s': State): seq<Entry> {
    if |s'.log| > |s.log| then [s'.log[|s.log|]] else []
  }

  lemma CreateExplained(s: State, r: nat, req: Request, pc: Pc, now: i64, es: seq<Entry>, max: u32)
    requires req.Create? && (pc.Ready? || pc.CreateChecked?) && Explained(req, pc, es, max)
    ensures var s' := CreateStep(s, r, req, pc, now, max); Explained(req, s'.procs[r].pc, es + Added(s, s'), max)
  {
  }

  lemma DeleteExplained(s: State, r: nat, req: Request, pc: Pc, es: seq<Entry>, max: u32)
    requires req.Delete? && (pc.Ready? || pc.DeleteChecked?) && Explained(req, pc, es, max)
    ensures var s' := DeleteStep(s, r, req, pc); Explained(req, s'.procs[r].pc, es + Added(s, s'), max)
  {
  }

  lemma PutExplained(s: State, r: nat, req: Request, pc: Pc, now: i64, es: seq<Entry>, max: u32)
    requires req.Put? && (pc.Ready? || pc.PutRead? || pc.PutWritten?) && Explained(req, pc, es, max)
    ensures var s' := PutStep(s, r, req, pc, now); Explained(req, s'.procs[r].pc, es + Added(s, s'), max)
  {
    assert es == [];
  }

  lemma GetExplained(s: State, r: nat, req: Request, es: seq<Entry>, max: u32)
    requires req.Get? && es == []
    ensures var s' := GetStep(s, r, req); Explained(req, s'.procs[r].pc, es + Added(s, s'), max)
  {
  }

  lemma FaultExplained(req: Request, pc: Pc, es: seq<Entry>, max: u32)
    requires Explained(req, pc, es, max) && !pc.Done?
    ensures Explained(req, Done(FaultResponse(req)), es, max)
  {
  }

  lemma OwnExplained(s: State, e: Event, es: seq<Entry>, max: u32)
    requires e.r in s.procs ==> Explained(s.procs[e.r].req, s.procs[e.r].pc, es, max)
    requires e.r !in s.procs ==> es == []
    ensures var s' := Exec(s, e, max);
            e.r in s'.procs ==> Explained(s'.procs[e.r].req, s'.procs[e.r].pc, es + Added(s, s'), max)
  {
    assert es + [] == es;
    match e
    case Arrive(r, req) =>
    case Step(r, now, fault) =>
      if r in s.procs && !s.procs[r].pc.Done? {
        var Proc(req, pc) := s.procs[r];
        if fault { FaultExplained(req, pc, es, max); }
        else {
          match req
          case Create(_, _) => if pc.Ready? || pc.CreateChecked? { CreateExplained(s, r, req, pc, now, es, max); }
          case Delete(_, _) => if pc.Ready? || pc.DeleteChecked? { DeleteExplained(s, r, req, pc, es, max); }
          case Put(_, _, _, _) =>
            if pc.Ready? || pc.PutRead? || pc.PutWritten? { PutExplained(s, r, req, pc, now, es, max); }
          case Get(_, _) => if pc.Ready? { GetExplained(s, r, req, es, max); }
        }
      }
  }

  /** Requests stay known, and only a known one logs. */
  lemma LoggedKnown(s: State, e: Event, max: u32)
    ensures var s' := Exec(s, e, max);
            (forall q | q in s.procs :: q in s'.procs) && (e.r !in s'.procs ==> s'.log == s.log)
  {
  }

  lemma ExecExplained(s: State, e: Event, max: u32)
    requires AllExplained(s, max)
    ensures AllExplained(Exec(s, e, max), max)
  {
    hide Explained, EntriesOf;
    var s' := Exec(s, e, max);
    StepShape(s, e, max);
    OwnExplained(s, e, EntriesOf(s.log, e.r), max);
    LoggedKnown(s, e, max);
    hide Exec;
    forall q: nat
      ensures EntriesOf(s'.log, q) == EntriesOf(s.log, q) + if q == e.r then Added(s, s') else []
    {
      assert EntriesOf(s.log, q) + [] == EntriesOf(s.log, q);
      if s'.log != s.log {
        EntriesAppend(s.log, s'.log[|s.log|], q);
      }
    }
    forall q | q in s'.procs
      ensures Explained(s'.procs[q].req, s'.procs[q].pc, EntriesOf(s'.log, q), max)
    {
      if q != e.r {
        assert EntriesOf(s'.log, q) == EntriesOf(s.log, q);
      }
    }
  }

  lemma {:induction false} RunExplained(events: seq<Event>, max: u32)
    ensures AllExplained(Run(events, max), max)
  {
    if events == [] {
    } else {
      var init := events[..|events| - 1];
      RunExplained(init, max);
      ExecExplained(Run(init, max), events[|events| - 1], max);
    }
  }

  /** Every interleaved run has the effect and the answers of the serial run written in its log:
      executing the logged statements and whole PUTs one at a time from the empty table ends in the
      committed table and gives each logged result, every finished request answered exactly what
      its own results imply, and a request that ended in an error stored nothing. */
  lemma {:induction false} SerialEquivalence(events: seq<Event>, max: u32)
    ensures var s := Run(events, max);
            && Replay(s.log) == s.table
            && (forall i | 0 <= i < |s.log| :: Answers(Replay(s.log[..i]), s.log[i]))
            && (forall r | r in s.procs && s.procs[r].pc.Done? ::
                  if s.procs[r].pc.resp == ServerError || s.procs[r].pc.resp == PutAnswer(PutFailed)
                  then forall e | e in EntriesOf(s.log, r) :: !TookEffect(e)
                  else AnswerOf(s.procs[r].req, EntriesOf(s.log, r), max) == Some(s.procs[r].pc.resp))
  {
    RunInv(events, max);
    RunExplained(events, max);
    var s := Run(events, max);
    forall r | r in s.procs && s.procs[r].pc.Done?
      ensures Explained(s.procs[r].req, s.procs[r].pc, EntriesOf(s.log, r), max)
    {
    }
  }

  // ---------- lost-update freedom ----------

  /** A stored PUT: who, what it expected, the version it answered, the blob it replaced and its own. */
  datatype PutRecord = PutRecord(r: nat, expected: nat, version: nat, overwritten: Option<Bytes>, body: Bytes)

  /** The stored PUTs on row `id`, in order of their commits. */
  ghost function WritesOf(log: seq<Entry>, id: nat): seq<PutRecord> {
    if log == [] then []
    else
      var init, e := log[..|log| - 1], log[|log| - 1];
      var t := Replay(init);
      if e.PutDone? && e.result.PutStored? && Find(t, e.alias) == Some(id) && id in t.rows
      then WritesOf(init, id) + [PutRecord(e.r, e.expected, e.result.version, t.rows[id].blob, e.body)]
      else WritesOf(init, id)
  }

  /** The k-th stored PUT answered version k + 1, expected k and replaced exactly the blob before it. */
  ghost predicate Link(ws: seq<PutRecord>, k: nat)
    requires k < |ws|
  {
    && ws[k].expected == k
    && ws[k].version == k + 1
    && ws[k].overwritten == if k == 0 then None else Some(ws[k - 1].body)
  }

  /** Versions 1, 2, ..., n with no gap. */
  ghost predicate Chain(ws: seq<PutRecord>) {
    forall k | 0 <= k < |ws| :: Link(ws, k)
  }

  ghost predicate ChainOk(log: seq<Entry>, id: nat) {
    var t, ws := Replay(log), WritesOf(log, id);
    && Chain(ws)
    && (id >= t.nextId ==> ws == [])
    && (id in t.rows ==> t.rows[id].version == |ws| && t.rows[id].blob == if ws == [] then None
        else Some(ws[|ws| - 1].body))
  }

  lemma ApplyKeeps(t: Table, e: Entry)
    requires WellFormed(t)
    ensures WellFormed(Apply(t, e)) && Apply(t, e).nextId >= t.nextId
    ensures forall id | id in Apply(t, e).rows && id !in t.rows :: id == t.nextId
  {
    match e
    case Inserted(_, user, alias, now, _) => InsertKeeps(t, user, alias, now);
    case Removed(_, user, alias) => DeleteKeeps(t, alias, user);
    case PutDone(_, user, alias, expected, body, now, _) => PutAloneKeeps(t, user, alias, expected, body, now);
    case Counted(_, _, _) =>
    case OwnerRead(_, _, _) =>
    case BlobRead(_, _, _, _) =>
  }

  lemma {:induction false} ReplayWellFormed(log: seq<Entry>)
    ensures WellFormed(Replay(log))
  {
    if log == [] {
    } else {
      ReplayWellFormed(log[..|log| - 1]);
      ApplyKeeps(Replay(log[..|log| - 1]), log[|log| - 1]);
    }
  }

  lemma FaithfulPrefix(log: seq<Entry>)
    requires Faithful(log) && log != []
    ensures Faithful(log[..|log| - 1]) && Answers(Replay(log[..|log| - 1]), log[|log| - 1])
  {
    var init := log[..|log| - 1];
    forall i | 0 <= i < |init|
      ensures Answers(Replay(init[..i]), init[i])
    {
      assert init[..i] == log[..i];
    }
  }

  /** A logged PUT that stored wrote the row it found, one version on. */
  lemma StoredPut(t: Table, e: Entry)
    requires Answers(t, e) && e.PutDone? && e.result.PutStored?
    ensures Find(t, e.alias).Some?
    ensures var id := Find(t, e.alias).value;
            && id in t.rows && t.rows[id].version == e.expected && e.result.version == e.expected + 1
            && Apply(t, e).nextId == t.nextId
            && Apply(t, e).rows == t.rows[id := t.rows[id].(blob := Some(e.body), blobSize := |e.body|,
                                                            version := e.result.version, updatedAt := e.now)]
  {
  }

  /** Any other entry keeps every row it does not remove. */
  lemma OtherEntry(t: Table, e: Entry, id: nat)
    requires WellFormed(t) && Answers(t, e) && !(e.PutDone? && e.result.PutStored?)
    ensures id in Apply(t, e).rows && id in t.rows ==> Apply(t, e).rows[id] == t.rows[id]
    ensures id in Apply(t, e).rows && id !in t.rows ==>
              id == t.nextId && Apply(t, e).rows[id].version == 0 && Apply(t, e).rows[id].blob.None?
  {
  }

  lemma ChainExtend(ws: seq<PutRecord>, w: PutRecord)
    requires Chain(ws) && w.expected == |ws| && w.version == |ws| + 1
    requires w.overwritten == if ws == [] then None else Some(ws[|ws| - 1].body)
    ensures Chain(ws + [w])
  {
    forall k | 0 <= k < |ws + [w]|
      ensures Link(ws + [w], k)
    {
      assert k < |ws| ==> Link(ws, k);
    }
  }

  lemma ChainStep(init: seq<Entry>, e: Entry, id: nat)
    requires Answers(Replay(init), e) && WellFormed(Replay(init)) && ChainOk(init, id)
    ensures ChainOk(init + [e], id)
  {
    hide Find, Answers, Apply, WellFormed;
    var t, ws := Replay(init), WritesOf(init, id);
    var log := init + [e];
    assert log[..|init|] == init;
    ApplyKeeps(t, e);
    if e.PutDone? && e.result.PutStored? {
      StoredPut(t, e);
      if Find(t, e.alias) == Some(id) {
        ChainExtend(ws, PutRecord(e.r, e.expected, e.result.version, t.rows[id].blob, e.body));
        assert WritesOf(log, id) == ws + [PutRecord(e.r, e.expected, e.result.version, t.rows[id].blob, e.body)];
      }
    } else {
      OtherEntry(t, e, id);
      assert WritesOf(log, id) == ws;
    }
  }

  lemma {:induction false} LogChain(log: seq<Entry>, id: nat)
    requires Faithful(log)
    ensures ChainOk(log, id)
  {
    if log == [] {
    } else {
      var init, e := log[..|log| - 1], log[|log| - 1];
      FaithfulPrefix(log);
      LogChain(init, id);
      ReplayWellFormed(init);
      assert log == init + [e];
      ChainStep(init, e, id);
    }
  }

  /** In every interleaved run the stored PUTs on each row form one gapless chain, at most one of
      them expected any given version, each replaced exactly the blob of the one before, and the
      row holds the last. */
  lemma {:induction false} LostUpdateFreedom(events: seq<Event>, max: u32, id: nat)
    ensures var s := Run(events, max); var ws := WritesOf(s.log, id);
            && Chain(ws)
            && (forall j, k | 0 <= j < |ws| && 0 <= k < |ws| && ws[j].expected == ws[k].expected :: j == k)
            && (id in s.table.rows ==>
                  && s.table.rows[id].version == |ws|
                  && s.table.rows[id].blob == if ws == [] then None else Some(ws[|ws| - 1].body))
  {
    hide Run, Replay, Faithful, WellFormed, WritesOf, Chain;
    RunInv(events, max);
    LogChain(Run(events, max).log, id);
    ChainExpectations(WritesOf(Run(events, max).log, id));
  }

  lemma ChainExpectations(ws: seq<PutRecord>)
    requires Chain(ws)
    ensures forall j, k | 0 <= j < |ws| && 0 <= k < |ws| && ws[j].expected == ws[k].expected :: j == k
  {
    forall j, k | 0 <= j < |ws| && 0 <= k < |ws| && ws[j].expected == ws[k].expected
      ensures j == k
    {
      assert Link(ws, j) && Link(ws, k);
    }
  }

  lemma {:induction false} StoredIsInChain(log: seq<Entry>, e: Entry) returns (id: nat, k: nat)
    requires Faithful(log) && e in log && e.PutDone? && e.result.PutStored?
    ensures k < |WritesOf(log, id)|
    ensures var w := WritesOf(log, id)[k];
            w.r == e.r && w.expected == e.expected && w.version == e.result.version && w.body == e.body
  {
    var init, last := log[..|log| - 1], log[|log| - 1];
    FaithfulPrefix(log);
    if e == last {
      id := Find(Replay(init), e.alias).value;
      k := |WritesOf(init, id)|;
    } else {
      id, k := StoredIsInChain(init, e);
    }
  }

  lemma {:induction false} EntriesInLog(log: seq<Entry>, r: nat, e: Entry)
    requires e in EntriesOf(log, r)
    ensures e in log && e.r == r
  {
    var last := log[|log| - 1];
    if e !in EntriesOf(log[..|log| - 1], r) {
      assert e == last;
    } else {
      EntriesInLog(log[..|log| - 1], r, e);
    }
  }

  /** Every PUT a client was told is stored is a link of a chain: its version follows the one it
      expected and its body is what the next one replaces. */
  lemma AcknowledgedPutIsInChain(events: seq<Event>, max: u32, r: nat) returns (id: nat, k: nat)
    requires var s := Run(events, max);
             r in s.procs && s.procs[r].pc.Done? && s.procs[r].pc.resp.PutAnswer? && s.procs[r].pc.resp.put.PutStored?
    ensures var s := Run(events, max); var req := s.procs[r].req;
            && k < |WritesOf(s.log, id)| && req.Put?
            && WritesOf(s.log, id)[k].r == r
            && WritesOf(s.log, id)[k].expected == req.expected
            && WritesOf(s.log, id)[k].version == s.procs[r].pc.resp.put.version
            && WritesOf(s.log, id)[k].body == req.body
  {
    RunInv(events, max);
    RunExplained(events, max);
    var s := Run(events, max);
    var es := EntriesOf(s.log, r);
    assert Explained(s.procs[r].req, s.procs[r].pc, es, max);
    EntriesInLog(s.log, r, es[0]);
    id, k := StoredIsInChain(s.log, es[0]);
  }

  // ---------- ownership ----------

  /** No step of a request of one account changes or removes a row of another account, and no step
      changes a row's owner, alias or creation time. */
  lemma OwnershipIsolation(events: seq<Event>, max: u32, e: Event, id: nat)
    requires e.Step?
    requires id in Run(events, max).table.rows
    ensures var s := Run(events, max); var s' := Exec(s, e, max); var row := s.table.rows[id];
            && (s'.table != s.table ==> e.r in s.procs)
            && (e.r in s.procs && s.procs[e.r].req.user != row.owner ==>
                id in s'.table.rows && s'.table.rows[id] == row)
            && (id in s'.table.rows ==>
                  var row' := s'.table.rows[id];
                  row'.owner == row.owner && row'.alias == row.alias && row'.createdAt == row.createdAt)
  {
    hide Run;
    RunInv(events, max);
    var s := Run(events, max);
    hide Replay, Faithful;
    if e.r in s.procs {
      assert PutOk(s, s.procs[e.r].req, s.procs[e.r].pc);
    }
  }

  /** Aliases stay unique up to case in every run. */
  lemma AliasesUnique(events: seq<Event>, max: u32, i: nat, j: nat)
    requires var t := Run(events, max).table;
        i in t.rows && j in t.rows && Fold(t.rows[i].alias) == Fold(t.rows[j].alias)
    ensures i == j
  {
    RunInv(events, max);
  }
}
