/** When interleaved requests succeed: undisturbed, a request answers what it answers alone; and a PUT
    that found its row and version fails to commit exactly if something was committed since it looked. */
module ProfileProgress {
  import opened MachineInts
  import opened ProfileTable
  import opened ProfileMachine
  import opened ProfileRuns
  import opened ProfileSerial

  // ---------- undisturbed ----------

  /** The request arrives and takes its statements one after another; three are enough for any. */
  function Undisturbed(s: State, r: nat, req: Request, t1: i64, t2: i64, t3: i64, max: u32): State {
    var s0 := Exec(s, Arrive(r, req), max);
    var s1 := Exec(s0, Step(r, t1, false), max);
    var s2 := Exec(s1, Step(r, t2, false), max);
    Exec(s2, Step(r, t3, false), max)
  }

  lemma PutUndisturbed(s: State, r: nat, req: Request, t1: i64, t2: i64, t3: i64, max: u32)
    requires r !in s.procs && req.Put?
    ensures var s' := Undisturbed(s, r, req, t1, t2, t3, max); var alone := Alone(s.table, req, t2, max);
            r in s'.procs && s'.procs[r] == Proc(req, Done(alone.1)) && s'.table == alone.0
  {
    hide Find;
  }

  lemma CreateUndisturbed(s: State, r: nat, req: Request, t1: i64, t2: i64, t3: i64, max: u32)
    requires r !in s.procs && req.Create?
    ensures var s' := Undisturbed(s, r, req, t1, t2, t3, max); var alone := Alone(s.table, req, t2, max);
            r in s'.procs && s'.procs[r] == Proc(req, Done(alone.1)) && s'.table == alone.0
  {
    hide Find, CountOwned, OverQuota;
  }

  lemma DeleteUndisturbed(s: State, r: nat, req: Request, t1: i64, t2: i64, t3: i64, max: u32)
    requires r !in s.procs && req.Delete?
    ensures var s' := Undisturbed(s, r, req, t1, t2, t3, max); var alone := Alone(s.table, req, t2, max);
            r in s'.procs && s'.procs[r] == Proc(req, Done(alone.1)) && s'.table == alone.0
  {
    hide Find, CountOwned, OverQuota;
  }

  lemma GetUndisturbed(s: State, r: nat, req: Request, t1: i64, t2: i64, t3: i64, max: u32)
    requires r !in s.procs && req.Get?
    ensures var s' := Undisturbed(s, r, req, t1, t2, t3, max); var alone := Alone(s.table, req, t2, max);
            r in s'.procs && s'.procs[r] == Proc(req, Done(alone.1)) && s'.table == alone.0
  {
    hide Find, CountOwned, OverQuota;
  }

  /** At any point of any run, whatever other requests are under way, a new request whose statements
      follow one another without a fault leaves and answers what it does alone on the committed table,
      with the clock of its second statement. */
  lemma UndisturbedIsAlone(events: seq<Event>, max: u32, r: nat, req: Request, t1: i64, t2: i64, t3: i64)
    requires r !in Run(events, max).procs
    ensures var s' := Run(events + [Arrive(r, req), Step(r, t1, false), Step(r, t2, false), Step(r, t3, false)], max);
            var alone := Alone(Run(events, max).table, req, t2, max);
            r in s'.procs && s'.procs[r] == Proc(req, Done(alone.1)) && s'.table == alone.0
  {
    hide Exec, Alone;
    var a, b, c, d := Arrive(r, req), Step(r, t1, false), Step(r, t2, false), Step(r, t3, false);
    RunAppend(events, a, max);
    RunAppend(events + [a], b, max);
    RunAppend(events + [a] + [b], c, max);
    RunAppend(events + [a] + [b] + [c], d, max);
    assert events + [a, b, c, d] == events + [a] + [b] + [c] + [d];
    var s := Run(events, max);
    match req
    case Put(_, _, _, _) => PutUndisturbed(s, r, req, t1, t2, t3, max);
    case Create(_, _) => CreateUndisturbed(s, r, req, t1, t2, t3, max);
    case Delete(_, _) => DeleteUndisturbed(s, r, req, t1, t2, t3, max);
    case Get(_, _) => GetUndisturbed(s, r, req, t1, t2, t3, max);
  }

  lemma RunAppend(events: seq<Event>, e: Event, max: u32)
    ensures Run(events + [e], max) == Exec(Run(events, max), e, max)
  {
    hide Exec;
    assert (events + [e])[..|events|] == events;
  }

  // ---------- first committer wins ----------

  /** How many entries of the log committed a change. */
  function Stored(log: seq<Entry>): nat {
    if log == [] then 0 else Stored(log[..|log| - 1]) + if TookEffect(log[|log| - 1]) then 1 else 0
  }

  lemma StoredAppend(log: seq<Entry>, e: Entry)
    ensures Stored(log + [e]) == Stored(log) + if TookEffect(e) then 1 else 0
  {
    hide TookEffect;
    assert (log + [e])[..|log|] == log;
  }

  /** A step commits exactly if it logs an entry that took effect. */
  lemma CommitLogs(s: State, e: Event, max: u32)
    ensures var s' := Exec(s, e, max); var more := Added(s, s');
            && s'.log == s.log + more
            && s'.commits == s.commits + if more != [] && TookEffect(more[0]) then 1 else 0
  {
    hide Find, Insert, CountOwned, Update, ProfileTable.Delete;
  }

  lemma {:induction false} CommitsAreStored(events: seq<Event>, max: u32)
    ensures Run(events, max).commits == Stored(Run(events, max).log)
  {
    hide Exec, TookEffect;
    if events == [] {
    } else {
      var init, e := events[..|events| - 1], events[|events| - 1];
      var s := Run(init, max);
      CommitsAreStored(init, max);
      CommitLogs(s, e, max);
      var more := Added(s, Exec(s, e, max));
      if more == [] {
        assert s.log + more == s.log;
      } else {
        StoredAppend(s.log, more[0]);
        assert more == [more[0]];
      }
    }
  }

  /** The snapshot of a transaction that has looked and not ended is the one it took when it looked. */
  predicate LookedAt(pc: Pc, at: nat) {
    (pc.PutRead? || pc.PutWritten?) && pc.at == at
  }

  lemma LookStays(s: State, e: Event, max: u32, r: nat, at: nat)
    requires r in s.procs && (LookedAt(s.procs[r].pc, at) || s.procs[r].pc.Done?)
    ensures var s' := Exec(s, e, max); r in s'.procs && (LookedAt(s'.procs[r].pc, at) || s'.procs[r].pc.Done?)
  {
    hide Find, Insert, CountOwned, Update, ProfileTable.Delete;
  }

  lemma {:induction false} LookKept(events: seq<Event>, max: u32, i: nat, r: nat, at: nat)
    requires i <= |events| && r in Run(events[..i], max).procs && LookedAt(Run(events[..i], max).procs[r].pc, at)
    ensures var s := Run(events, max); r in s.procs && (LookedAt(s.procs[r].pc, at) || s.procs[r].pc.Done?)
  {
    hide Exec;
    if i == |events| {
      assert events[..i] == events;
    } else {
      var init := events[..|events| - 1];
      assert init[..i] == events[..i];
      LookKept(init, max, i, r, at);
      LookStays(Run(init, max), events[|events| - 1], max, r, at);
    }
  }

  /** Request r looked its row up at event i: its SELECT, after which it holds a snapshot. */
  predicate LooksUp(events: seq<Event>, max: u32, i: nat, r: nat) {
    && i < |events| && r in Run(events[..i], max).procs && r in Run(events[..i + 1], max).procs
    && Run(events[..i], max).procs[r].pc.Ready? && Run(events[..i + 1], max).procs[r].pc.PutRead?
  }

  lemma LookIsCurrent(s: State, e: Event, max: u32, r: nat)
    requires r in s.procs && s.procs[r].pc.Ready?
    ensures var s' := Exec(s, e, max); r in s'.procs && (s'.procs[r].pc.PutRead? ==> s'.procs[r].pc.at == s'.commits)
  {
    hide Find, Insert, CountOwned, Update, ProfileTable.Delete;
  }

  lemma SnapshotAt(events: seq<Event>, max: u32, i: nat, r: nat)
    requires LooksUp(events, max, i, r)
    ensures LookedAt(Run(events[..i + 1], max).procs[r].pc, Run(events[..i + 1], max).commits)
  {
    hide Exec;
    assert events[..i + 1][..i] == events[..i];
    LookIsCurrent(Run(events[..i], max), events[i], max, r);
  }

  lemma CommitAnswers(s: State, r: nat, now: i64, max: u32)
    requires Inv(s) && r in s.procs && s.procs[r].pc.PutWritten?
    ensures var s' := Exec(s, Step(r, now, false), max); var Proc(req, pc) := s.procs[r];
            && r in s'.procs && s'.procs[r].pc.Done? && s'.procs[r].pc.resp.PutAnswer?
            && (s'.procs[r].pc.resp.put == PutFailed <==> s.commits != pc.at)
            && (s.commits == pc.at ==> s'.procs[r].pc.resp.put.PutStored? && s'.table.rows == pc.written.rows)
  {
    hide Replay, Faithful, Find;
    assert PutOk(s, s.procs[r].req, s.procs[r].pc);
  }

  /** First committer wins: a PUT that found its row at the expected version, and whose COMMIT is then
      reached without a fault, fails if and only if some request committed between the two; else it is
      stored. */
  lemma {:induction false} PutFailsExactly(events: seq<Event>, max: u32, i: nat, r: nat, now: i64)
    requires LooksUp(events, max, i, r) && r in Run(events, max).procs && Run(events, max).procs[r].pc.PutWritten?
    ensures var s' := Run(events + [Step(r, now, false)], max);
            && r in s'.procs && s'.procs[r].pc.Done? && s'.procs[r].pc.resp.PutAnswer?
            && (s'.procs[r].pc.resp.put == PutFailed <==>
                  Stored(Run(events, max).log) != Stored(Run(events[..i + 1], max).log))
            && (s'.procs[r].pc.resp.put != PutFailed <==> s'.procs[r].pc.resp.put.PutStored?)
  {
    hide Exec, Run, Stored, Inv;
    var at := Run(events[..i + 1], max).commits;
    SnapshotAt(events, max, i, r);
    LookKept(events, max, i + 1, r, at);
    CommitsAreStored(events, max);
    CommitsAreStored(events[..i + 1], max);
    RunInv(events, max);
    CommitAnswers(Run(events, max), r, now, max);
    RunAppend(events, Step(r, now, false), max);
  }
}
