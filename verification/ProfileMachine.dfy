/** Requests on the profile store running interleaved, one SQL statement at a time.
    `create` and `delete` are two autocommit statements each; `put_blob` is a transaction that
    reads a snapshot, writes a private copy and commits only if nothing was committed since
    (SQLite's first-committer-wins rule, assumed here). Any statement may fail. */
module ProfileMachine {
  import opened Wrappers
  import opened MachineInts
  import opened ProfileTable

  /** A request past authentication, alias parsing and the body size limit. The alias of a create
      is already lower-cased. */
  datatype Request =
    | Create(user: int, alias: string)
    | Put(user: int, alias: string, expected: nat, body: Bytes)
    | Delete(user: int, alias: string)
    | Get(user: int, alias: string)

  datatype Response =
    | Created(at: i64) | QuotaExceeded | AliasTaken
    | PutAnswer(put: PutResult)
    | Deleted | DeleteNotFound | DeleteForbidden
    | GetAnswer(get: GetResult)
    | ServerError

  /** Where a request stands. */
  datatype Pc =
    | Ready
    | CreateChecked
    | DeleteChecked
    | PutRead(snapshot: Table, at: nat, id: nat, version: nat)
    | PutWritten(snapshot: Table, at: nat, id: nat, version: nat, written: Table, time: i64)
    | Done(resp: Response)

  datatype Proc = Proc(req: Request, pc: Pc)

  /** The statements that took effect or answered, in order, each with its result. A PUT is one
      entry: at its commit if it stored, at its SELECT if it was refused. */
  datatype Entry =
    | Counted(r: nat, user: int, n: nat)
    | Inserted(r: nat, user: int, alias: string, now: i64, ok: bool)
    | OwnerRead(r: nat, alias: string, owner: Option<int>)
    | Removed(r: nat, user: int, alias: string)
    | PutDone(r: nat, user: int, alias: string, expected: nat, body: Bytes, now: i64, result: PutResult)
    | BlobRead(r: nat, user: int, alias: string, get: GetResult)

  datatype State = State(table: Table, commits: nat, procs: map<nat, Proc>, log: seq<Entry>)

  const START := State(EMPTY, 0, map[], [])

  datatype Event = Arrive(r: nat, req: Request) | Step(r: nat, now: i64, fault: bool)

  /** `(count as u32) >= max_aliases_free` */
  predicate OverQuota(n: nat, max: u32) {
    n % 0x1_0000_0000 >= max as int
  }

  function At(s: State, r: nat, req: Request, pc: Pc): State {
    s.(procs := s.procs[r := Proc(req, pc)])
  }

  function CreateStep(s: State, r: nat, req: Request, pc: Pc, now: i64, max: u32): State
    requires req.Create? && (pc.Ready? || pc.CreateChecked?)
  {
    if pc.Ready? then
      var n := CountOwned(s.table, req.user);
      At(s, r, req, if OverQuota(n, max) then Done(QuotaExceeded) else CreateChecked)
        .(log := s.log + [Counted(r, req.user, n)])
    else
      match Insert(s.table, req.user, req.alias, now)
      case None => At(s, r, req, Done(AliasTaken)).(log := s.log + [Inserted(r, req.user, req.alias, now, false)])
      case Some(t) =>
        At(s, r, req, Done(Created(now)))
          .(table := t, commits := s.commits + 1, log := s.log + [Inserted(r, req.user, req.alias, now, true)])
  }

  function OwnerOf(t: Table, alias: string): Option<int> {
    var found := Find(t, alias);
    if found.Some? then Some(t.rows[found.value].owner) else None
  }

  function DeleteStep(s: State, r: nat, req: Request, pc: Pc): State
    requires req.Delete? && (pc.Ready? || pc.DeleteChecked?)
  {
    if pc.Ready? then
      var owner := OwnerOf(s.table, req.alias);
      var next := if owner.None? then Done(DeleteNotFound)
                  else if owner.value != req.user then Done(DeleteForbidden)
                  else DeleteChecked;
      At(s, r, req, next).(log := s.log + [OwnerRead(r, req.alias, owner)])
    else
      At(s, r, req, Done(Deleted))
        .(table := ProfileTable.Delete(s.table, req.alias, req.user), commits := s.commits + 1,
          log := s.log + [Removed(r, req.user, req.alias)])
  }

  function PutStep(s: State, r: nat, req: Request, pc: Pc, now: i64): State
    requires req.Put? && (pc.Ready? || pc.PutRead? || pc.PutWritten?)
  {
    match pc
    case Ready =>
      (match PutLookup(s.table, req.user, req.alias, req.expected)
       case Refuse(why) =>
         At(s, r, req, Done(PutAnswer(why)))
           .(log := s.log + [PutDone(r, req.user, req.alias, req.expected, req.body, now, why)])
       case Write(id, version) => At(s, r, req, PutRead(s.table, s.commits, id, version)))
    case PutRead(snapshot, at, id, version) =>
      At(s, r, req, PutWritten(snapshot, at, id, version, Update(snapshot, id, req.body, version, now), now))
    case PutWritten(_, at, id, version, written, time) =>
      if s.commits != at || id !in written.rows then At(s, r, req, Done(PutAnswer(PutFailed)))
      else
        var result := PutStored(|req.body|, version, written.rows[id].createdAt, time);
        At(s, r, req, Done(PutAnswer(result)))
          .(table := written, commits := s.commits + 1,
            log := s.log + [PutDone(r, req.user, req.alias, req.expected, req.body, time, result)])
  }

  function GetStep(s: State, r: nat, req: Request): State
    requires req.Get?
  {
    var get := BlobOf(s.table, req.user, req.alias);
    At(s, r, req, Done(GetAnswer(get))).(log := s.log + [BlobRead(r, req.user, req.alias, get)])
  }

  function FaultResponse(req: Request): Response {
    if req.Put? then PutAnswer(PutFailed) else ServerError
  }

  function Exec(s: State, e: Event, max: u32): State {
    match e
    case Arrive(r, req) => if r in s.procs then s else At(s, r, req, Ready)
    case Step(r, now, fault) =>
      if r !in s.procs || s.procs[r].pc.Done? then s
      else
        var Proc(req, pc) := s.procs[r];
        if fault then At(s, r, req, Done(FaultResponse(req)))
        else if req.Create? && (pc.Ready? || pc.CreateChecked?) then CreateStep(s, r, req, pc, now, max)
        else if req.Delete? && (pc.Ready? || pc.DeleteChecked?) then DeleteStep(s, r, req, pc)
        else if req.Put? && (pc.Ready? || pc.PutRead? || pc.PutWritten?) then PutStep(s, r, req, pc, now)
        else if req.Get? && pc.Ready? then GetStep(s, r, req)
        else s
  }

  function Run(events: seq<Event>, max: u32): State {
    if events == [] then START else Exec(Run(events[..|events| - 1], max), events[|events| - 1], max)
  }

  // ---------- the log as a serial run ----------

  /** Executes one logged statement, or one whole PUT, alone. */
  function Apply(t: Table, e: Entry): Table {
    match e
    case Inserted(_, user, alias, now, _) => var r := Insert(t, user, alias, now); if r.Some? then r.value else t
    case Removed(_, user, alias) => ProfileTable.Delete(t, alias, user)
    case PutDone(_, user, alias, expected, body, now, _) => PutAlone(t, user, alias, expected, body, now).0
    case Counted(_, _, _) => t
    case OwnerRead(_, _, _) => t
    case BlobRead(_, _, _, _) => t
  }

  /** The logged result is what the statement gives when executed alone on `t`. */
  predicate Answers(t: Table, e: Entry) {
    match e
    case Counted(_, user, n) => n == CountOwned(t, user)
    case Inserted(_, user, alias, now, ok) => ok == Insert(t, user, alias, now).Some?
    case OwnerRead(_, alias, owner) => owner == OwnerOf(t, alias)
    case Removed(_, _, _) => true
    case PutDone(_, user, alias, expected, body, now, result) =>
      result == PutAlone(t, user, alias, expected, body, now).1
    case BlobRead(_, user, alias, get) => get == BlobOf(t, user, alias)
  }

  function Replay(log: seq<Entry>): Table {
    if log == [] then EMPTY else Apply(Replay(log[..|log| - 1]), log[|log| - 1])
  }

  ghost predicate Faithful(log: seq<Entry>) {
    forall i | 0 <= i < |log| :: Answers(Replay(log[..i]), log[i])
  }

  lemma {:induction false} ReplayAppend(log: seq<Entry>, e: Entry)
    requires Faithful(log) && Answers(Replay(log), e)
    ensures Replay(log + [e]) == Apply(Replay(log), e) && Faithful(log + [e])
  {
    var log' := log + [e];
    assert log'[..|log|] == log;
    forall i | 0 <= i < |log'|
      ensures Answers(Replay(log'[..i]), log'[i])
    {
      assert log'[..i] == log[..i];
    }
  }

  // ---------- what every step keeps ----------

  /** A transaction whose snapshot is still current sees the committed table, and has read and
      written what a PUT running alone would. */
  ghost predicate PutOk(s: State, req: Request, pc: Pc) {
    match pc
    case PutRead(snapshot, at, id, version) =>
      && req.Put? && at <= s.commits && (at == s.commits ==> snapshot == s.table)
      && PutLookup(snapshot, req.user, req.alias, req.expected) == Write(id, version)
    case PutWritten(snapshot, at, id, version, written, time) =>
      && req.Put? && at <= s.commits && (at == s.commits ==> snapshot == s.table)
      && PutLookup(snapshot, req.user, req.alias, req.expected) == Write(id, version)
      && written == Update(snapshot, id, req.body, version, time)
    case CreateChecked => req.Create?
    case DeleteChecked => req.Delete?
    case Ready => true
    case Done(_) => true
  }

  ghost predicate Inv(s: State) {
    && WellFormed(s.table)
    && Faithful(s.log) && Replay(s.log) == s.table
    && forall r | r in s.procs :: PutOk(s, s.procs[r].req, s.procs[r].pc)
  }

  /** A step that commits invalidates every open snapshot, one that does not changes nothing. */
  lemma ProcsKept(s: State, s': State, r: nat)
    requires forall q | q in s.procs :: PutOk(s, s.procs[q].req, s.procs[q].pc)
    requires s'.procs.Keys <= s.procs.Keys + {r}
    requires forall q | q in s'.procs && q != r :: q in s.procs && s'.procs[q] == s.procs[q]
    requires s'.commits > s.commits || (s'.commits == s.commits && s'.table == s.table)
    requires r in s'.procs ==> PutOk(s', s'.procs[r].req, s'.procs[r].pc)
    ensures forall q | q in s'.procs :: PutOk(s', s'.procs[q].req, s'.procs[q].pc)
  {
    forall q | q in s'.procs && q != r
      ensures PutOk(s', s'.procs[q].req, s'.procs[q].pc)
    {
      assert PutOk(s, s.procs[q].req, s.procs[q].pc);
    }
  }

  lemma CreateStepKeeps(s: State, r: nat, now: i64, max: u32)
    requires Inv(s) && r in s.procs && s.procs[r].req.Create? && (s.procs[r].pc.Ready? || s.procs[r].pc.CreateChecked?)
    ensures Inv(CreateStep(s, r, s.procs[r].req, s.procs[r].pc, now, max))
  {
    hide Replay, Faithful, WellFormed, CountOwned, OverQuota, Fold, Find;
    if s.procs[r].pc.Ready? {
      CountStepKeeps(s, r, max);
    } else {
      InsertStepKeeps(s, r, now);
    }
  }

  lemma CountStepKeeps(s: State, r: nat, max: u32)
    requires Inv(s) && r in s.procs && s.procs[r].req.Create? && s.procs[r].pc.Ready?
    ensures Inv(CreateStep(s, r, s.procs[r].req, s.procs[r].pc, 0, max))
  {
    hide Replay, Faithful, WellFormed, CountOwned, OverQuota;
    var s' := CreateStep(s, r, s.procs[r].req, s.procs[r].pc, 0, max);
    ReplayAppend(s.log, s'.log[|s.log|]);
    ProcsKept(s, s', r);
  }

  lemma InsertStepKeeps(s: State, r: nat, now: i64)
    requires Inv(s) && r in s.procs && s.procs[r].req.Create? && s.procs[r].pc.CreateChecked?
    ensures Inv(CreateStep(s, r, s.procs[r].req, s.procs[r].pc, now, 0))
  {
    hide Replay, Faithful, WellFormed, Find;
    var s' := CreateStep(s, r, s.procs[r].req, s.procs[r].pc, now, 0);
    InsertKeeps(s.table, s.procs[r].req.user, s.procs[r].req.alias, now);
    ReplayAppend(s.log, s'.log[|s.log|]);
    ProcsKept(s, s', r);
  }

  lemma DeleteStepKeeps(s: State, r: nat)
    requires Inv(s) && r in s.procs && s.procs[r].req.Delete? && (s.procs[r].pc.Ready? || s.procs[r].pc.DeleteChecked?)
    ensures Inv(DeleteStep(s, r, s.procs[r].req, s.procs[r].pc))
  {
    hide Replay, Faithful, WellFormed, Find, Fold;
    var s' := DeleteStep(s, r, s.procs[r].req, s.procs[r].pc);
    DeleteKeeps(s.table, s.procs[r].req.alias, s.procs[r].req.user);
    ReplayAppend(s.log, s'.log[|s.log|]);
    ProcsKept(s, s', r);
  }

  lemma PutStepKeeps(s: State, r: nat, now: i64)
    requires Inv(s) && r in s.procs && s.procs[r].req.Put?
    requires s.procs[r].pc.Ready? || s.procs[r].pc.PutRead? || s.procs[r].pc.PutWritten?
    ensures Inv(PutStep(s, r, s.procs[r].req, s.procs[r].pc, now))
  {
    hide Replay, Faithful, WellFormed, Find;
    var Proc(req, pc) := s.procs[r];
    var s' := PutStep(s, r, req, pc, now);
    assert PutOk(s, req, pc);
    if s'.log != s.log {
      if pc.PutWritten? {
        PutAloneKeeps(s.table, req.user, req.alias, req.expected, req.body, pc.time);
      }
      ReplayAppend(s.log, s'.log[|s.log|]);
    }
    ProcsKept(s, s', r);
  }

  lemma GetStepKeeps(s: State, r: nat)
    requires Inv(s) && r in s.procs && s.procs[r].req.Get?
    ensures Inv(GetStep(s, r, s.procs[r].req))
  {
    var s' := GetStep(s, r, s.procs[r].req);
    ReplayAppend(s.log, s'.log[|s.log|]);
    ProcsKept(s, s', r);
  }

  lemma ExecKeeps(s: State, e: Event, max: u32)
    requires Inv(s)
    ensures Inv(Exec(s, e, max))
  {
    hide WellFormed, Faithful, Replay, CreateStep, DeleteStep, PutStep, GetStep;
    match e
    case Arrive(r, req) => ProcsKept(s, Exec(s, e, max), r);
    case Step(r, now, fault) =>
      if r in s.procs && !s.procs[r].pc.Done? {
        var Proc(req, pc) := s.procs[r];
        if fault { ProcsKept(s, Exec(s, e, max), r); }
        else {
          match req
          case Create(_, _) => if pc.Ready? || pc.CreateChecked? { CreateStepKeeps(s, r, now, max); }
          case Delete(_, _) => if pc.Ready? || pc.DeleteChecked? { DeleteStepKeeps(s, r); }
          case Put(_, _, _, _) => if pc.Ready? || pc.PutRead? || pc.PutWritten? { PutStepKeeps(s, r, now); }
          case Get(_, _) => if pc.Ready? { GetStepKeeps(s, r); }
        }
      }
  }

  lemma {:induction false} RunInv(events: seq<Event>, max: u32)
    ensures Inv(Run(events, max))
  {
    if events == [] {
    } else {
      RunInv(events[..|events| - 1], max);
      ExecKeeps(Run(events[..|events| - 1], max), events[|events| - 1], max);
    }
  }
}
