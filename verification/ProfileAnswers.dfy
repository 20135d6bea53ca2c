/** What each profile request answers and stores, case by case and in both directions: run whole, in
    terms of the rows alone, and in interleaved runs, in terms of the stored PUTs. */
module ProfileAnswers {
  import opened Wrappers
  import opened MachineInts
  import opened ProfileTable
  import opened ProfileMachine
  import opened ProfileRuns
  import opened ProfileSerial

  // ---------- whole requests ----------

  /** Row `id` has the alias, up to case. */
  predicate Has(t: Table, id: nat, alias: string) {
    id in t.rows && Fold(t.rows[id].alias) == Fold(alias)
  }

  predicate Free(t: Table, alias: string) {
    forall id | id in t.rows :: !Has(t, id, alias)
  }

  lemma FindExact(t: Table, alias: string)
    requires WellFormed(t)
    ensures Find(t, alias).None? <==> Free(t, alias)
    ensures forall id: nat :: Has(t, id, alias) <==> Find(t, alias) == Some(id)
  {
    hide Fold;
    forall id: nat | Has(t, id, alias)
      ensures Find(t, alias) == Some(id)
    {
      FindUnique(t, alias, id);
    }
  }

  /** The quota first, then the alias; a create adds one empty row under a new id, and only if both pass.
      The quota compares the account's rows, modulo 2^32. */
  lemma CreateAnswers(t: Table, user: int, alias: string, now: i64, max: u32)
    requires WellFormed(t)
    ensures var r := Alone(t, Create(user, alias), now, max);
            var full := |set id | id in t.rows && t.rows[id].owner == user| % 0x1_0000_0000 >= max as int;
            && (r.1 == QuotaExceeded <==> full)
            && (r.1 == AliasTaken <==> !full && !Free(t, alias))
            && (r.1 == Created(now) <==> !full && Free(t, alias))
            && r.0 == (if full || !Free(t, alias) then t
                       else Table(t.rows[t.nextId := Row(user, alias, None, 0, 0, now, now)], t.nextId + 1))
  {
    hide WellFormed, Free;
    FindExact(t, alias);
    assert OwnedIds(t, user) == set id | id in t.rows && t.rows[id].owner == user;
  }

  /** Not found exactly if no row has the alias; the row that has it refuses another account, then another
      version, and else takes the body, the next version and the clock, and keeps the rest. */
  lemma PutAnswers(t: Table, user: int, alias: string, expected: nat, body: Bytes, now: i64, max: u32, id: nat)
    requires WellFormed(t)
    ensures var r := Alone(t, Put(user, alias, expected, body), now, max);
            && (Free(t, alias) ==> r == (t, PutAnswer(PutNotFound)))
            && (Has(t, id, alias) ==>
                  var row := t.rows[id];
                  r == if row.owner != user then (t, PutAnswer(PutForbidden))
                       else if row.version != expected then (t, PutAnswer(PutConflict))
                       else
                         (t.(rows := t.rows[id := Row(user, row.alias, Some(body), |body|, expected + 1, row.createdAt,
                                                      now)]),
                          PutAnswer(PutStored(|body|, expected + 1, row.createdAt, now))))
  {
    hide WellFormed, Find, Fold;
    FindExact(t, alias);
  }

  /** Not found, forbidden, or the row and that row alone goes. */
  lemma DeleteAnswers(t: Table, user: int, alias: string, now: i64, max: u32, id: nat)
    requires WellFormed(t)
    ensures var r := Alone(t, ProfileMachine.Delete(user, alias), now, max);
            && (Free(t, alias) ==> r == (t, DeleteNotFound))
            && (Has(t, id, alias) ==>
                  if t.rows[id].owner != user then r == (t, DeleteForbidden)
                  else r == (t.(rows := t.rows - {id}), Deleted))
  {
    hide WellFormed, Find, Fold;
    FindExact(t, alias);
    if Has(t, id, alias) && t.rows[id].owner == user {
      OnlyRowGoes(t, alias, user, id);
    }
  }

  lemma OnlyRowGoes(t: Table, alias: string, user: int, id: nat)
    requires Has(t, id, alias) && t.rows[id].owner == user && forall j: nat | Has(t, j, alias) :: j == id
    ensures ProfileTable.Delete(t, alias, user) == t.(rows := t.rows - {id})
  {
    hide Fold;
    var rows := ProfileTable.Delete(t, alias, user).rows;
    assert forall j: nat :: j in rows <==> j in t.rows && !(Has(t, j, alias) && t.rows[j].owner == user);
    assert rows == t.rows - {id};
  }

  /** A GET changes nothing and gives the bytes to their owner alone. */
  lemma GetAnswers(t: Table, user: int, alias: string, now: i64, max: u32, id: nat)
    requires WellFormed(t)
    ensures var r := Alone(t, Get(user, alias), now, max);
            && (Free(t, alias) ==> r == (t, GetAnswer(GetNotFound)))
            && (Has(t, id, alias) ==>
                  var row := t.rows[id];
                  r == (t, GetAnswer(if row.owner != user then GetForbidden
                                     else if row.blob.None? || |row.blob.value| == 0 then NoBlobYet
                                     else Blob(row.blob.value))))
  {
    hide WellFormed, Find, Fold;
    FindExact(t, alias);
  }

  // ---------- a GET in an interleaved run ----------

  /** The body of the last stored PUT on row `id`, if there was one. */
  ghost function LastBody(log: seq<Entry>, id: nat): Option<Bytes> {
    var ws := WritesOf(log, id);
    if ws == [] then None else Some(ws[|ws| - 1].body)
  }

  lemma EntryAnswers(events: seq<Event>, max: u32, i: nat)
    requires i < |Run(events, max).log|
    ensures var log := Run(events, max).log;
            WellFormed(Replay(log[..i])) && Faithful(log[..i]) && Answers(Replay(log[..i]), log[i])
            && Replay(log[..i + 1]) == Apply(Replay(log[..i]), log[i])
  {
    hide Run, WellFormed, Replay, Answers;
    RunInv(events, max);
    var log := Run(events, max).log;
    PrefixFaithful(log, i);
    ReplayWellFormed(log[..i]);
    LastReplayed(log, i);
  }

  lemma PrefixFaithful(log: seq<Entry>, i: nat)
    requires i < |log| && Faithful(log)
    ensures Faithful(log[..i]) && Answers(Replay(log[..i]), log[i])
  {
    hide Replay, Answers;
    assert forall j | 0 <= j < i :: log[..i][..j] == log[..j];
  }

  lemma LastReplayed(log: seq<Entry>, i: nat)
    requires i < |log|
    ensures Replay(log[..i + 1]) == Apply(Replay(log[..i]), log[i])
  {
    assert log[..i + 1][..i] == log[..i];
  }

  lemma FinishedEntry(events: seq<Event>, max: u32, r: nat) returns (i: nat)
    requires var s := Run(events, max); Finished(s, r) && (s.procs[r].req.Get? || s.procs[r].req.Put?)
    ensures var s := Run(events, max); var req := s.procs[r].req;
            && i < |s.log|
            && (req.Get? ==> exists get :: s.log[i] == BlobRead(r, req.user, req.alias, get)
                                           && s.procs[r].pc.resp == GetAnswer(get))
            && (req.Put? ==> exists now, put ::
                s.log[i] == PutDone(r, req.user, req.alias, req.expected, req.body, now, put)
                                                && s.procs[r].pc.resp == PutAnswer(put))
  {
    hide Run, Replay, Faithful;
    RunExplained(events, max);
    var s := Run(events, max);
    var es := EntriesOf(s.log, r);
    assert Explained(s.procs[r].req, s.procs[r].pc, es, max);
    EntriesInLog(s.log, r, es[0]);
    i :| 0 <= i < |s.log| && s.log[i] == es[0];
  }

  /** A finished GET read, at one point of the log, a table in which its answer is exact: not found if and
      only if no row has the alias, forbidden if and only if the row is another account's, and bytes if and
      only if they are the body, not empty, of the last stored PUT on a row of its own. */
  lemma {:induction false} GetReadsOwnLastPut(events: seq<Event>, max: u32, r: nat) returns (i: nat)
    requires Finished(Run(events, max), r) && Run(events, max).procs[r].req.Get?
    ensures var s := Run(events, max); var req := s.procs[r].req; var answer := s.procs[r].pc.resp;
            && i < |s.log| && s.log[i].BlobRead? && s.log[i].r == r
            && var before := s.log[..i]; var t := Replay(before);
               && (answer == GetAnswer(GetNotFound) <==> Free(t, req.alias))
               && forall id: nat | Has(t, id, req.alias) ::
                    var body := LastBody(before, id);
                    && (answer == GetAnswer(GetForbidden) <==> t.rows[id].owner != req.user)
                    && (answer == GetAnswer(NoBlobYet) <==>
                          t.rows[id].owner == req.user && (body == None || body == Some([])))
                    && forall b :: answer == GetAnswer(Blob(b)) <==>
                                   t.rows[id].owner == req.user && body == Some(b) && b != []
  {
    hide Run, Replay, Faithful, WellFormed, WritesOf, Free, Has;
    i := FinishedEntry(events, max, r);
    EntryAnswers(events, max, i);
    var s := Run(events, max);
    var req := s.procs[r].req;
    var before := s.log[..i];
    ReadExactly(before, req.user, req.alias);
  }

  lemma ReadExactly(before: seq<Entry>, user: int, alias: string)
    requires Faithful(before) && WellFormed(Replay(before))
    ensures var t := Replay(before); var get := BlobOf(t, user, alias);
            && (get == GetNotFound <==> Free(t, alias))
            && forall id: nat | Has(t, id, alias) ::
                 var body := LastBody(before, id);
                 && (get == GetForbidden <==> t.rows[id].owner != user)
                 && (get == NoBlobYet <==> t.rows[id].owner == user && (body == None || body == Some([])))
                 && forall b :: get == Blob(b) <==> t.rows[id].owner == user && body == Some(b) && b != []
  {
    hide Replay, Faithful, WellFormed, WritesOf, Find, Fold;
    var t := Replay(before);
    FindExact(t, alias);
    forall id: nat | Has(t, id, alias)
      ensures t.rows[id].blob == LastBody(before, id)
    {
      LogChain(before, id);
    }
  }

  // ---------- a PUT in an interleaved run ----------

  /** A stored PUT wrote its own account's row with that alias at the version it expected, and answered
      the size, version and times the row then held; the creation time was the row's before. */
  lemma {:induction false} StoredPutFields(events: seq<Event>, max: u32, r: nat) returns (i: nat, id: nat)
    requires var s := Run(events, max);
             Finished(s, r) && s.procs[r].pc.resp.PutAnswer? && s.procs[r].pc.resp.put.PutStored?
    ensures var s := Run(events, max); var Proc(req, pc) := s.procs[r];
            && req.Put? && i < |s.log| && s.log[i].PutDone? && s.log[i].r == r
            && var t, t' := Replay(s.log[..i]), Replay(s.log[..i + 1]);
               && Has(t, id, req.alias) && id in t'.rows
               && t.rows[id].owner == req.user && t.rows[id].version == req.expected
               && pc.resp.put == PutStored(|req.body|, req.expected + 1, t.rows[id].createdAt, t'.rows[id].updatedAt)
               && t' == t.(rows := t.rows[id := Row(req.user, t.rows[id].alias, Some(req.body), |req.body|,
                                                    req.expected + 1, t.rows[id].createdAt, pc.resp.put.updatedAt)])
  {
    hide Run, Replay, Faithful, WellFormed, Has, Find;
    PutIsPut(events, max, r);
    i := FinishedEntry(events, max, r);
    EntryAnswers(events, max, i);
    var s := Run(events, max);
    var req := s.procs[r].req;
    var t := Replay(s.log[..i]);
    FindExact(t, req.alias);
    id := Find(t, req.alias).value;
  }

  lemma PutIsPut(events: seq<Event>, max: u32, r: nat)
    requires var s := Run(events, max);
             Finished(s, r) && s.procs[r].pc.resp.PutAnswer? && s.procs[r].pc.resp.put.PutStored?
    ensures Run(events, max).procs[r].req.Put?
  {
    hide Run;
    RunExplained(events, max);
    var s := Run(events, max);
    assert Explained(s.procs[r].req, s.procs[r].pc, EntriesOf(s.log, r), max);
  }

  /** Every row was inserted by a logged create of its owner, at its creation time. */
  lemma {:induction false} RowOrigin(log: seq<Entry>, id: nat) returns (i: nat)
    requires Faithful(log) && id in Replay(log).rows
    ensures i < |log| && log[i].Inserted? && log[i].ok && Replay(log[..i]).nextId == id
    ensures var row := Replay(log).rows[id];
            row.owner == log[i].user && row.alias == log[i].alias && row.createdAt == log[i].now
  {
    var init, e := log[..|log| - 1], log[|log| - 1];
    FaithfulPrefix(log);
    ReplayWellFormed(init);
    var t := Replay(init);
    assert Replay(log) == Apply(t, e);
    hide Replay, Faithful, WellFormed, Find;
    if id in t.rows {
      i := RowOrigin(init, id);
      assert init[..i] == log[..i];
      EntryKeepsOrigin(t, e, id);
    } else {
      i := |log| - 1;
      EntryInserts(t, e, id);
    }
  }

  lemma EntryKeepsOrigin(t: Table, e: Entry, id: nat)
    requires WellFormed(t) && id in t.rows && id in Apply(t, e).rows
    ensures var row, row' := t.rows[id], Apply(t, e).rows[id];
            row'.owner == row.owner && row'.alias == row.alias && row'.createdAt == row.createdAt
  {
    hide Find, Fold;
  }

  lemma EntryInserts(t: Table, e: Entry, id: nat)
    requires Answers(t, e) && id !in t.rows && id in Apply(t, e).rows
    ensures e.Inserted? && e.ok && t.nextId == id
    ensures Apply(t, e).rows[id].owner == e.user && Apply(t, e).rows[id].alias == e.alias
            && Apply(t, e).rows[id].createdAt == e.now
  {
    hide Find, Fold;
  }

  // ---------- times ----------

  /** A time held or answered is the clock of one of the request's own steps. */
  predicate Stamped(events: seq<Event>, r: nat, pc: Pc) {
    && (pc.PutWritten? ==> Step(r, pc.time, false) in events)
    && (pc.Done? && pc.resp.Created? ==> Step(r, pc.resp.at, false) in events)
    && (pc.Done? && pc.resp.PutAnswer? && pc.resp.put.PutStored? ==>
          Step(r, pc.resp.put.updatedAt, false) in events)
  }

  lemma StampStep(events: seq<Event>, s: State, e: Event, max: u32)
    requires e in events && (e.r in s.procs ==> Stamped(events, e.r, s.procs[e.r].pc))
    ensures e.r in Exec(s, e, max).procs ==> Stamped(events, e.r, Exec(s, e, max).procs[e.r].pc)
  {
    hide Find, Insert, CountOwned, Update, ProfileTable.Delete;
  }

  lemma OneMoreStamp(init: seq<Event>, e: Event, max: u32, r: nat)
    requires r in Exec(Run(init, max), e, max).procs
    requires r in Run(init, max).procs ==> Stamped(init, r, Run(init, max).procs[r].pc)
    ensures Stamped(init + [e], r, Exec(Run(init, max), e, max).procs[r].pc)
  {
    hide Exec, Run;
    assert forall x | x in init :: x in init + [e];
    if r == e.r {
      StampStep(init + [e], Run(init, max), e, max);
    } else {
      OthersStay(Run(init, max), e, max, r);
    }
  }

  /** In every interleaved run the time a create answers, and the update time a stored PUT answers, are
      clocks its own statements read. */
  lemma {:induction false} TimesAreOwnClocks(events: seq<Event>, max: u32)
    ensures var s := Run(events, max); forall r | r in s.procs :: Stamped(events, r, s.procs[r].pc)
  {
    hide Exec, Stamped;
    if events == [] {
    } else {
      var init, e := events[..|events| - 1], events[|events| - 1];
      TimesAreOwnClocks(init, max);
      assert events == init + [e];
      forall r | r in Run(events, max).procs
        ensures Stamped(events, r, Run(events, max).procs[r].pc)
      {
        OneMoreStamp(init, e, max, r);
      }
    }
  }
}
