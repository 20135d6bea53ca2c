/** The per-account alias quota when `create` requests of one account run interleaved:
    the count and the insert are separate statements. */
module ProfileQuota {
  import opened MachineInts
  import opened ProfileTable
  import opened ProfileMachine
  import opened Intervals

  /** Create requests of the account that have arrived and not yet answered. */
  function InFlight(s: State, user: int): set<nat> {
    set r | r in s.procs && s.procs[r].req.Create? && s.procs[r].req.user == user && !s.procs[r].pc.Done?
  }

  /** Those of them that are past the quota check and have not inserted yet. */
  function PastCheck(s: State, user: int): set<nat> {
    set r | r in s.procs && s.procs[r].req.Create? && s.procs[r].req.user == user && s.procs[r].pc.CreateChecked?
  }

  ghost predicate InFlightAtMost(events: seq<Event>, max: u32, user: int, k: nat) {
    forall i | 0 <= i <= |events| :: |InFlight(Run(events[..i], max), user)| <= k
  }

  // ---------- the bound ----------

  /** The event is the INSERT of a create of the account, and it succeeds. */
  predicate InsertsFor(s: State, e: Event, user: int) {
    && e.Step? && !e.fault && e.r in PastCheck(s, user)
    && Insert(s.table, user, s.procs[e.r].req.alias, e.now).Some?
  }

  /** Only such an event adds a row of the account. */
  lemma CountStep(s: State, e: Event, max: u32, user: int)
    requires Inv(s)
    ensures CountOwned(Exec(s, e, max).table, user) <= CountOwned(s.table, user) + if InsertsFor(s, e, user) then 1
        else 0
  {
    if e.Step? && e.r in s.procs && !s.procs[e.r].pc.Done? && !e.fault {
      var Proc(req, pc) := s.procs[e.r];
      assert PutOk(s, req, pc);
      match req
      case Create(u, alias) =>
        if pc.CreateChecked? && Insert(s.table, u, alias, e.now).Some? { CountInsert(s.table, u, alias, e.now, user); }
      case Delete(u, alias) => CountDelete(s.table, alias, u, user);
      case Put(_, _, _, body) =>
        if pc.PutWritten? { CountUpdate(s.table, pc.id, body, pc.version, pc.time, user); }
      case Get(_, _) =>
    }
  }

  /** A step changes who is past the check only for its own request. */
  lemma PastCheckStep(s: State, e: Event, max: u32, user: int)
    ensures var s' := Exec(s, e, max);
            && PastCheck(s', user) <= InFlight(s', user)
            && PastCheck(s', user) <= PastCheck(s, user) + {e.r}
            && (InsertsFor(s, e, user) ==> e.r !in PastCheck(s', user))
            && (e.r in PastCheck(s', user) && e.r !in PastCheck(s, user) ==>
                  !OverQuota(CountOwned(s.table, user), max) && s'.table == s.table)
  {
  }

  lemma InserterPasses(s: State, e: Event, user: int)
    ensures InsertsFor(s, e, user) ==> e.r in PastCheck(s, user)
  {
  }

  ghost predicate QuotaOk(s: State, user: int, bound: int) {
    CountOwned(s.table, user) + |PastCheck(s, user)| <= bound
  }

  lemma ExecQuota(s: State, e: Event, max: u32, user: int, k: nat)
    requires Inv(s) && QuotaOk(s, user, max as int - 1 + k)
    requires 1 <= max && max as int - 1 + k < 0x1_0000_0000
    requires |InFlight(Exec(s, e, max), user)| <= k
    ensures QuotaOk(Exec(s, e, max), user, max as int - 1 + k)
  {
    hide Exec, Inv, PastCheck, InFlight, CountOwned, InsertsFor;
    var s' := Exec(s, e, max);
    CountStep(s, e, max, user);
    PastCheckStep(s, e, max, user);
    InserterPasses(s, e, user);
    var before, after := PastCheck(s, user), PastCheck(s', user);
    SubsetSize(after, InFlight(s', user));
    if e.r in after && e.r !in before {
      assert CountOwned(s'.table, user) == CountOwned(s.table, user) < max as int;
    } else if InsertsFor(s, e, user) {
      SubsetSize(after, before - {e.r});
    } else {
      SubsetSize(after, before);
    }
  }

  lemma {:induction false} RunQuota(events: seq<Event>, max: u32, user: int, k: nat)
    requires 1 <= max && max as int - 1 + k < 0x1_0000_0000
    requires InFlightAtMost(events, max, user, k)
    ensures QuotaOk(Run(events, max), user, max as int - 1 + k)
  {
    if events == [] {
    } else {
      var init := events[..|events| - 1];
      assert events[..|events|] == events;
      assert forall i | 0 <= i <= |init| :: init[..i] == events[..i];
      RunQuota(init, max, user, k);
      RunInv(init, max);
      ExecQuota(Run(init, max), events[|events| - 1], max, user, k);
    }
  }

  /** With limit M >= 1 and at most k creates of the account in flight, the account never owns more
      than M + k - 1 aliases; with k = 1 (one create at a time) that is exactly the limit. */
  lemma {:induction false} QuotaBound(events: seq<Event>, max: u32, user: int, k: nat)
    requires 1 <= max && max as int - 1 + k < 0x1_0000_0000
    requires InFlightAtMost(events, max, user, k)
    ensures CountOwned(Run(events, max).table, user) <= max as int - 1 + k
  {
    RunQuota(events, max, user, k);
  }

  // ---------- the bound is reached, and passed once the u32 cast wraps ----------

  function Alias(n: nat): string {
    seq(n, _ => 'a')
  }

  lemma AliasesDiffer(m: nat, n: nat)
    requires m != n
    ensures Fold(Alias(m)) != Fold(Alias(n))
  {
    assert |Fold(Alias(m))| == m && |Fold(Alias(n))| == n;
  }

  /** n aliases owned by the account, made by requests 0..n-1, and requests n..n+c-1 past their check. */
  ghost predicate Grown(s: State, user: int, n: nat, c: nat) {
    && s.table.nextId == n
    && (forall id: nat :: id in s.table.rows <==> id < n)
    && (forall id: nat | id < n :: s.table.rows[id].owner == user && s.table.rows[id].alias == Alias(id))
    && (forall r: nat :: r in s.procs <==> r < n + c)
    && (forall r: nat | r < n :: s.procs[r].pc.Done? && s.procs[r].req == Create(user, Alias(r)))
    && (forall r: nat | n <= r < n + c :: s.procs[r] == Proc(Create(user, Alias(r)), CreateChecked))
  }

  lemma GrownOwns(s: State, user: int, n: nat, c: nat)
    requires Grown(s, user, n, c)
    ensures CountOwned(s.table, user) == n
  {
    assert OwnedIds(s.table, user) == Range(0, n);
  }

  lemma GrownInFlight(s: State, user: int, n: nat, c: nat)
    requires Grown(s, user, n, c)
    ensures |InFlight(s, user)| == c
  {
    hide Range;
    forall r: nat
      ensures r in InFlight(s, user) <==> r in Range(n, c)
    {
      GrownProc(s, user, n, c, r);
    }
    assert InFlight(s, user) == Range(n, c);
  }

  lemma GrownProc(s: State, user: int, n: nat, c: nat, r: nat)
    requires Grown(s, user, n, c)
    ensures r in InFlight(s, user) <==> n <= r < n + c
  {
  }

  lemma GrownCreates(s: State, user: int, n: nat)
    requires Grown(s, user, n, 0)
    ensures forall r | r in s.procs :: s.procs[r].req.Create? && s.procs[r].req.user == user
  {
  }

  lemma RunAppend(events: seq<Event>, e: Event, max: u32)
    ensures Run(events + [e], max) == Exec(Run(events, max), e, max)
  {
    assert (events + [e])[..|events|] == events;
  }

  lemma InFlightAppend(events: seq<Event>, e: Event, max: u32, user: int, k: nat)
    requires InFlightAtMost(events, max, user, k) && |InFlight(Run(events + [e], max), user)| <= k
    ensures InFlightAtMost(events + [e], max, user, k)
  {
    var events' := events + [e];
    forall i | 0 <= i <= |events'|
      ensures |InFlight(Run(events'[..i], max), user)| <= k
    {
      assert i <= |events| ==> events'[..i] == events[..i];
      assert i == |events'| ==> events'[..i] == events';
    }
  }

  lemma ArriveExec(s: State, max: u32, user: int, n: nat, c: nat) returns (s': State)
    requires Grown(s, user, n, c)
    ensures s' == Exec(s, Arrive(n + c, Create(user, Alias(n + c))), max)
    ensures s' == s.(procs := s.procs[n + c := Proc(Create(user, Alias(n + c)), Ready)])
    ensures |InFlight(s', user)| == c + 1
  {
    s' := Exec(s, Arrive(n + c, Create(user, Alias(n + c))), max);
    GrownInFlight(s, user, n, c);
    assert InFlight(s', user) == InFlight(s, user) + {n + c};
  }

  lemma CheckExec(s: State, s1: State, max: u32, user: int, n: nat, c: nat)
    requires Grown(s, user, n, c) && !OverQuota(n, max)
    requires s1 == s.(procs := s.procs[n + c := Proc(Create(user, Alias(n + c)), Ready)])
    ensures Grown(Exec(s1, Step(n + c, 0, false), max), user, n, c + 1)
  {
    hide CountOwned, Insert, Alias, OverQuota;
    GrownOwns(s, user, n, c);
  }

  /** One more create arrives and passes its check. */
  lemma CheckOne(events: seq<Event>, max: u32, user: int, n: nat, c: nat, k: nat) returns (after: seq<Event>)
    requires Grown(Run(events, max), user, n, c) && InFlightAtMost(events, max, user, k)
    requires c < k && !OverQuota(n, max)
    ensures Grown(Run(after, max), user, n, c + 1) && InFlightAtMost(after, max, user, k)
  {
    hide Grown, InFlight, Exec;
    var arrive, step := Arrive(n + c, Create(user, Alias(n + c))), Step(n + c, 0, false);
    RunAppend(events, arrive, max);
    var s1 := ArriveExec(Run(events, max), max, user, n, c);
    InFlightAppend(events, arrive, max, user, k);
    after := events + [arrive] + [step];
    RunAppend(events + [arrive], step, max);
    CheckExec(Run(events, max), s1, max, user, n, c);
    GrownInFlight(Run(after, max), user, n, c + 1);
    InFlightAppend(events + [arrive], step, max, user, k);
  }

  lemma InsertExec(s: State, max: u32, user: int, n: nat, c: nat)
    requires Grown(s, user, n, c) && c > 0
    ensures Grown(Exec(s, Step(n, 0, false), max), user, n + 1, c - 1)
  {
    var found := Find(s.table, Alias(n));
    if found.Some? {
      AliasesDiffer(found.value, n);
    }
  }

  /** The first request past its check inserts. */
  lemma InsertOne(events: seq<Event>, max: u32, user: int, n: nat, c: nat, k: nat) returns (after: seq<Event>)
    requires Grown(Run(events, max), user, n, c) && InFlightAtMost(events, max, user, k) && c > 0
    ensures Grown(Run(after, max), user, n + 1, c - 1) && InFlightAtMost(after, max, user, k)
  {
    hide Grown, InFlight, Exec;
    GrownInFlight(Run(events, max), user, n, c);
    assert |InFlight(Run(events[..|events|], max), user)| <= k && events[..|events|] == events;
    after := events + [Step(n, 0, false)];
    RunAppend(events, Step(n, 0, false), max);
    InsertExec(Run(events, max), max, user, n, c);
    GrownInFlight(Run(after, max), user, n + 1, c - 1);
    InFlightAppend(events, Step(n, 0, false), max, user, k);
  }

  lemma {:induction false} CheckMany(events: seq<Event>, max: u32, user: int, n: nat, c: nat, k: nat)
      returns (after: seq<Event>)
    requires Grown(Run(events, max), user, n, 0) && InFlightAtMost(events, max, user, k)
    requires c <= k && !OverQuota(n, max)
    ensures Grown(Run(after, max), user, n, c) && InFlightAtMost(after, max, user, k)
  {
    after := events;
    if c == 0 {
    } else {
      after := CheckMany(events, max, user, n, c - 1, k);
      after := CheckOne(after, max, user, n, c - 1, k);
    }
  }

  lemma {:induction false} InsertMany(events: seq<Event>, max: u32, user: int, n: nat, c: nat, k: nat)
      returns (after: seq<Event>)
    requires Grown(Run(events, max), user, n, c) && InFlightAtMost(events, max, user, k)
    ensures Grown(Run(after, max), user, n + c, 0) && InFlightAtMost(after, max, user, k)
    decreases c
  {
    after := events;
    if c == 0 {
    } else {
      after := InsertOne(events, max, user, n, c, k);
      after := InsertMany(after, max, user, n + 1, c - 1, k);
    }
  }

  /** From n aliases, c <= k creates at once lead to n + c, if a count of n passes the check. */
  lemma Burst(events: seq<Event>, max: u32, user: int, n: nat, c: nat, k: nat) returns (after: seq<Event>)
    requires Grown(Run(events, max), user, n, 0) && InFlightAtMost(events, max, user, k)
    requires c <= k && !OverQuota(n, max)
    ensures Grown(Run(after, max), user, n + c, 0) && InFlightAtMost(after, max, user, k)
  {
    after := CheckMany(events, max, user, n, c, k);
    after := InsertMany(after, max, user, n, c, k);
  }

  /** One create after another, while the counts n, ..., n+m-1 pass the check. */
  lemma {:induction false} OneByOne(events: seq<Event>, max: u32, user: int, n: nat, m: nat, k: nat)
      returns (after: seq<Event>)
    requires Grown(Run(events, max), user, n, 0) && InFlightAtMost(events, max, user, k) && k >= 1
    requires n % 0x1_0000_0000 + m <= max as int
    ensures Grown(Run(after, max), user, n + m, 0) && InFlightAtMost(after, max, user, k)
  {
    hide Grown, Run, InFlightAtMost;
    after := events;
    if m == 0 {
    } else {
      after := OneByOne(events, max, user, n, m - 1, k);
      after := Burst(after, max, user, n + (m - 1), 1, k);
    }
  }

  lemma StartGrown(max: u32, user: int, k: nat)
    ensures Grown(Run([], max), user, 0, 0) && InFlightAtMost([], max, user, k)
  {
  }

  /** For every M, k >= 1 some run with at most k creates in flight ends with M + k - 1 aliases. */
  lemma {:induction false} QuotaBoundReached(max: u32, user: int, k: nat) returns (events: seq<Event>)
    requires 1 <= max && k >= 1
    ensures InFlightAtMost(events, max, user, k)
    ensures CountOwned(Run(events, max).table, user) == max as int - 1 + k
    ensures var procs := Run(events, max).procs;
        forall r | r in procs :: procs[r].req.Create? && procs[r].req.user == user
  {
    StartGrown(max, user, k);
    hide Run, InFlightAtMost, CountOwned, Grown;
    events := OneByOne([], max, user, 0, max as int - 1, k);
    events := Burst(events, max, user, max as int - 1, k, k);
    GrownOwns(Run(events, max), user, max as int - 1 + k, 0);
    GrownCreates(Run(events, max), user, max as int - 1 + k);
  }

  /** Once M + k - 1 does not fit in 32 bits the cast of the count wraps to zero and the bound fails. */
  lemma {:induction false} QuotaBoundPassed(max: u32, user: int, k: nat) returns (events: seq<Event>)
    requires 1 <= max && max as int - 1 + k >= 0x1_0000_0000
    ensures InFlightAtMost(events, max, user, k)
    ensures CountOwned(Run(events, max).table, user) > max as int - 1 + k
  {
    StartGrown(max, user, k);
    hide Run, InFlightAtMost, CountOwned, Grown;
    var m := max as int;
    events := OneByOne([], max, user, 0, m - 1, k);
    events := Burst(events, max, user, m - 1, 0x1_0000_0000 - (m - 1), k);
    events := OneByOne(events, max, user, 0x1_0000_0000, m - 1, k);
    events := Burst(events, max, user, 0x1_0000_0000 + m - 1, k, k);
    GrownOwns(Run(events, max), user, 0x1_0000_0000 + m - 1 + k, 0);
  }

  ghost predicate BoundHolds(max: u32, user: int, k: nat) {
    forall events: seq<Event> | InFlightAtMost(events, max, user, k) ::
      CountOwned(Run(events, max).table, user) <= max as int - 1 + k
  }

  /** The quota bound holds of all runs exactly when M + k - 1 fits in the u32 the count is cast to.
      Handlers that run one at a time (k = 1) always meet it. */
  lemma {:induction false} QuotaExact(max: u32, user: int, k: nat)
    requires 1 <= max && 1 <= k
    ensures BoundHolds(max, user, k) <==> max as int - 1 + k < 0x1_0000_0000
    ensures BoundHolds(max, user, 1)
  {
    forall j: nat, events: seq<Event> | max as int - 1 + j < 0x1_0000_0000 && InFlightAtMost(events, max, user, j)
      ensures CountOwned(Run(events, max).table, user) <= max as int - 1 + j
    {
      QuotaBound(events, max, user, j);
    }
    if max as int - 1 + k >= 0x1_0000_0000 {
      var events := QuotaBoundPassed(max, user, k);
    }
  }

  /** A limit of zero admits nothing. */
  lemma {:induction false} ZeroLimit(events: seq<Event>, user: int)
    ensures CountOwned(Run(events, 0).table, user) == 0 && PastCheck(Run(events, 0), user) == {}
  {
    if events == [] {
    } else {
      var init, e := events[..|events| - 1], events[|events| - 1];
      ZeroLimit(init, user);
      RunInv(init, 0);
      CountStep(Run(init, 0), e, 0, user);
      PastCheckStep(Run(init, 0), e, 0, user);
    }
  }
}
