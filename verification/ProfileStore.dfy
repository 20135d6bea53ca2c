/** The handlers of src/routes/profiles.rs, each run alone, against an abstract book of aliases:
    who owns each alias and every blob ever put on it, in order of creation. */
module ProfileStore {
  import opened Wrappers
  import opened MachineInts
  import opened ProfileTable
  import opened IsoFormat
  import ProfileMachine

  /** `Alias::new` and `str::to_lowercase`, which come from outside this repository. */
  datatype AliasRules = AliasRules(valid: string -> bool, lower: string -> string)

  /** Lower-casing a well-formed alias gives a well-formed alias. */
  ghost predicate Lawful(rules: AliasRules) {
    forall a: string :: rules.valid(a) ==> rules.valid(rules.lower(a))
  }

  datatype Summary = Summary(alias: string, blobSize: nat, blobVersion: nat, createdAt: string, updatedAt: string)

  datatype Response =
    | Unauthorized | Malformed | TooLarge | NotFound | Forbidden | VersionConflict
    | QuotaExceeded | AliasTaken | ServerError
    | Listed(profiles: seq<Summary>) | Created(created: Summary) | Stored(stored: Summary)
    | Content(bytes: Bytes) | NoBlob | Deleted

  // ---------- the abstract book ----------

  /** One alias: its owner and every blob put on it. */
  datatype Entry = Entry(alias: string, owner: int, puts: seq<Bytes>, createdAt: i64, updatedAt: i64)

  type Book = seq<Entry>

  function LastPut(e: Entry): Option<Bytes> {
    if e.puts == [] then None else Some(e.puts[|e.puts| - 1])
  }

  /** What clients see of an alias: size of the last blob, number of PUTs, creation and last change. */
  function SummaryOf(e: Entry): Summary {
    Summary(e.alias, if e.puts == [] then 0
        else |e.puts[|e.puts| - 1]|, |e.puts|, FormatIso(e.createdAt), FormatIso(e.updatedAt))
  }

  /** The account's entries, in order of creation. */
  function Mine(book: Book, user: int): Book {
    if book == [] then []
    else if book[0].owner == user then [book[0]] + Mine(book[1..], user)
    else Mine(book[1..], user)
  }

  function Summaries(book: Book): seq<Summary> {
    seq(|book|, i requires 0 <= i < |book| => SummaryOf(book[i]))
  }

  /** Entry `i` is the one an alias names, compared up to case. */
  predicate Names(book: Book, i: int, alias: string) {
    0 <= i < |book| && Fold(book[i].alias) == Fold(alias)
  }

  predicate Free(book: Book, alias: string) {
    forall i | 0 <= i < |book| :: Fold(book[i].alias) != Fold(alias)
  }

  // ---------- how the table holds the book ----------

  ghost predicate Holds(t: Table, id: nat, e: Entry) {
    && id in t.rows
    && t.rows[id] == Row(e.owner, e.alias, LastPut(e), if e.puts == [] then 0 else |e.puts[|e.puts| - 1]|, |e.puts|,
                         e.createdAt, e.updatedAt)
  }

  /** Row ids[i] holds entry i; ids grow with creation. */
  ghost predicate Represents(t: Table, ids: seq<nat>, book: Book) {
    && WellFormed(t)
    && |ids| == |book|
    && (forall i, j | 0 <= i < j < |ids| :: ids[i] < ids[j])
    && (forall id | id in t.rows :: id in ids)
    && (forall i | 0 <= i < |ids| :: Holds(t, ids[i], book[i]))
  }

  /** An alias the table finds names exactly one entry; one it does not find is free. */
  lemma FoundIsNamed(t: Table, ids: seq<nat>, book: Book, alias: string) returns (i: nat)
    requires Represents(t, ids, book)
    ensures Find(t, alias).None? <==> Free(book, alias)
    ensures Find(t, alias).Some? ==> Names(book, i, alias) && ids[i] == Find(t, alias).value
    ensures forall j | Names(book, j, alias) :: Find(t, alias).Some? && i == j
  {
    var found := Find(t, alias);
    i := 0;
    if found.Some? {
      i :| 0 <= i < |ids| && ids[i] == found.value;
      assert Holds(t, ids[i], book[i]);
    }
    forall j | Names(book, j, alias)
      ensures found.Some? && i == j
    {
      assert Holds(t, ids[j], book[j]);
      FindUnique(t, alias, ids[j]);
    }
    assert found.None? ==> Free(book, alias) by {
      if found.None? && !Free(book, alias) {
        var j :| 0 <= j < |book| && Fold(book[j].alias) == Fold(alias);
        assert Names(book, j, alias);
      }
    }
    assert found.Some? ==> Names(book, i, alias);
  }

  /** SELECT id ... WHERE user_id = ?1 ORDER BY id, from row `from` on. */
  function SelectOwned(t: Table, user: int, from: nat): (ids: seq<nat>)
    ensures forall i | 0 <= i < |ids| :: ids[i] in t.rows && t.rows[ids[i]].owner == user && from <= ids[i]
    decreases t.nextId - from
  {
    if from >= t.nextId then []
    else if from in t.rows && t.rows[from].owner == user then [from] + SelectOwned(t, user, from + 1)
    else SelectOwned(t, user, from + 1)
  }

  /** ids[..j] are below `from`, ids[j..] are not. */
  ghost predicate SplitAt(ids: seq<nat>, from: nat, j: nat) {
    j <= |ids| && (forall i | 0 <= i < j :: ids[i] < from) && (forall i | j <= i < |ids| :: from <= ids[i])
  }

  lemma NextSplit(t: Table, ids: seq<nat>, book: Book, from: nat, j: nat)
    requires Represents(t, ids, book) && SplitAt(ids, from, j)
    ensures j <= |ids| == |book|
    ensures from >= t.nextId ==> j == |ids|
    ensures from in t.rows ==> j < |ids| && Holds(t, from, book[j]) && SplitAt(ids, from + 1, j + 1)
    ensures from !in t.rows ==> SplitAt(ids, from + 1, j)
  {
    hide Represents, Holds;
    RowsAt(t, ids, book);
    if j < |ids| {
      assert ids[j] < t.nextId;
    }
    if from in t.rows {
      var i := IndexOf(t, ids, book, from);
      SplitHere(ids, from, i, j);
    } else {
      forall i | j <= i < |ids|
        ensures from + 1 <= ids[i]
      {
        assert ids[i] in t.rows;
      }
    }
  }

  /** Every listed row is there, below the counter, with its entry; ids grow. */
  lemma RowsAt(t: Table, ids: seq<nat>, book: Book)
    requires Represents(t, ids, book)
    ensures |ids| == |book|
    ensures forall i | 0 <= i < |ids| :: ids[i] in t.rows && ids[i] < t.nextId && Holds(t, ids[i], book[i])
    ensures forall i, j | 0 <= i < j < |ids| :: ids[i] < ids[j]
  {
    forall i | 0 <= i < |ids|
      ensures ids[i] in t.rows && ids[i] < t.nextId && Holds(t, ids[i], book[i])
    {
      assert Holds(t, ids[i], book[i]);
    }
  }

  /** Every row is listed. */
  lemma IndexOf(t: Table, ids: seq<nat>, book: Book, id: nat) returns (i: nat)
    requires Represents(t, ids, book) && id in t.rows
    ensures i < |ids| && ids[i] == id
  {
    hide Holds, WellFormed;
    i :| 0 <= i < |ids| && ids[i] == id;
  }

  lemma SplitHere(ids: seq<nat>, from: nat, i: nat, j: nat)
    requires SplitAt(ids, from, j) && i < |ids| && ids[i] == from
    requires forall a, b | 0 <= a < b < |ids| :: ids[a] < ids[b]
    ensures i == j && SplitAt(ids, from + 1, j + 1)
  {
  }

  ghost predicate AllHold(t: Table, sel: seq<nat>, es: Book) {
    |sel| == |es| && forall i | 0 <= i < |sel| :: Holds(t, sel[i], es[i])
  }

  lemma NoneHold(t: Table)
    ensures AllHold(t, [], [])
  {
  }

  lemma HoldsOwner(t: Table, id: nat, e: Entry)
    requires Holds(t, id, e)
    ensures id in t.rows && t.rows[id].owner == e.owner
  {
  }

  lemma ConsHolds(t: Table, id: nat, sel: seq<nat>, e: Entry, es: Book)
    requires Holds(t, id, e) && AllHold(t, sel, es)
    ensures AllHold(t, [id] + sel, [e] + es)
  {
    hide Holds;
  }

  /** The rows selected for an account are its entries, in order of creation. */
  lemma {:induction false} SelectedAreMine(t: Table, ids: seq<nat>, book: Book, user: int, from: nat, j: nat)
    requires Represents(t, ids, book) && SplitAt(ids, from, j) && from <= t.nextId && j <= |book|
    ensures AllHold(t, SelectOwned(t, user, from), Mine(book[j..], user))
    decreases t.nextId - from
  {
    hide Represents, SplitAt, Holds, AllHold, WellFormed;
    NextSplit(t, ids, book, from, j);
    if from == t.nextId {
      assert book[j..] == [];
      NoneHold(t);
    } else if from in t.rows {
      var rest := book[j + 1..];
      assert book[j..] == [book[j]] + rest;
      SelectedAreMine(t, ids, book, user, from + 1, j + 1);
      HoldsOwner(t, from, book[j]);
      MineCons(book[j], rest, user);
      ConsHolds(t, from, SelectOwned(t, user, from + 1), book[j], Mine(rest, user));
    } else {
      SelectedAreMine(t, ids, book, user, from + 1, j);
    }
  }

  lemma MineCons(e: Entry, rest: Book, user: int)
    ensures Mine([e] + rest, user) == if e.owner == user then [e] + Mine(rest, user) else Mine(rest, user)
  {
    assert ([e] + rest)[1..] == rest;
  }

  lemma {:induction false} SelectionIsMine(t: Table, ids: seq<nat>, book: Book, user: int)
    requires Represents(t, ids, book)
    ensures AllHold(t, SelectOwned(t, user, 0), Mine(book, user))
  {
    SelectedAreMine(t, ids, book, user, 0, 0);
    assert book[0..] == book;
  }

  function OwnedFrom(t: Table, user: int, from: nat): set<nat> {
    set id | id in OwnedIds(t, user) && id >= from
  }

  lemma {:induction false} SelectedCount(t: Table, user: int, from: nat)
    requires WellFormed(t)
    ensures |SelectOwned(t, user, from)| == |OwnedFrom(t, user, from)|
    decreases t.nextId - from
  {
    hide WellFormed, OwnedFrom;
    if from >= t.nextId {
      NoneFrom(t, user, from);
    } else {
      SelectedCount(t, user, from + 1);
      OwnedNext(t, user, from);
    }
  }

  lemma NoneFrom(t: Table, user: int, from: nat)
    requires WellFormed(t) && from >= t.nextId
    ensures OwnedFrom(t, user, from) == {}
  {
  }

  lemma OwnedNext(t: Table, user: int, from: nat)
    ensures |OwnedFrom(t, user, from)| ==
            |OwnedFrom(t, user, from + 1)| + if from in t.rows && t.rows[from].owner == user then 1 else 0
  {
    if from in OwnedIds(t, user) {
      assert OwnedFrom(t, user, from) == OwnedFrom(t, user, from + 1) + {from};
    } else {
      assert OwnedFrom(t, user, from) == OwnedFrom(t, user, from + 1);
    }
  }

  /** COUNT(*) is the number of the account's entries. */
  lemma CountIsMine(t: Table, ids: seq<nat>, book: Book, user: int)
    requires Represents(t, ids, book)
    ensures CountOwned(t, user) == |Mine(book, user)|
  {
    SelectedCount(t, user, 0);
    assert OwnedIds(t, user) == OwnedFrom(t, user, 0);
    SelectionIsMine(t, ids, book, user);
  }

  // ---------- the book's own laws ----------

  lemma {:induction false} MineAppend(book: Book, e: Entry, user: int)
    ensures Mine(book + [e], user) == Mine(book, user) + if e.owner == user then [e] else []
  {
    if book == [] {
      assert Mine([e][1..], user) == [];
    } else {
      assert (book + [e])[1..] == book[1..] + [e];
      MineAppend(book[1..], e, user);
    }
  }

  lemma {:induction false} MineUpdate(book: Book, i: nat, e: Entry, user: int)
    requires i < |book| && e.owner == book[i].owner
    ensures |Mine(book[i := e], user)| == |Mine(book, user)|
  {
    if i == 0 {
      assert book[i := e][1..] == book[1..];
    } else {
      assert book[i := e][1..] == book[1..][i - 1 := e];
      MineUpdate(book[1..], i - 1, e, user);
    }
  }

  lemma {:induction false} MineRemove(book: Book, i: nat, user: int)
    requires i < |book|
    ensures |Mine(book[..i] + book[i + 1..], user)| == |Mine(book, user)| - if book[i].owner == user then 1 else 0
  {
    if i == 0 {
      assert book[..0] + book[1..] == book[1..];
    } else {
      assert (book[..i] + book[i + 1..])[1..] == book[1..][..i - 1] + book[1..][i..];
      MineRemove(book[1..], i - 1, user);
    }
  }

  lemma InsertRepresents(t: Table, ids: seq<nat>, book: Book, user: int, alias: string, now: i64)
    requires Represents(t, ids, book) && Insert(t, user, alias, now).Some?
    ensures Represents(Insert(t, user, alias, now).value, ids + [t.nextId], book + [Entry(alias, user, [], now, now)])
  {
    InsertKeeps(t, user, alias, now);
    var t' := Insert(t, user, alias, now).value;
    var ids', book' := ids + [t.nextId], book + [Entry(alias, user, [], now, now)];
    forall i | 0 <= i < |ids'|
      ensures Holds(t', ids'[i], book'[i])
      ensures i < |ids| ==> ids'[i] < t.nextId
    {
      if i < |ids| {
        assert Holds(t, ids[i], book[i]);
      }
    }
    assert ids'[|ids|] == t.nextId;
  }

  lemma UpdateRepresents(t: Table, ids: seq<nat>, book: Book, i: nat, body: Bytes, now: i64)
    requires Represents(t, ids, book) && i < |book|
    ensures Represents(Update(t, ids[i], body, |book[i].puts| + 1, now), ids,
                       book[i := book[i].(puts := book[i].puts + [body], updatedAt := now)])
  {
    UpdateKeeps(t, ids[i], body, |book[i].puts| + 1, now);
    var t' := Update(t, ids[i], body, |book[i].puts| + 1, now);
    var book' := book[i := book[i].(puts := book[i].puts + [body], updatedAt := now)];
    assert Holds(t, ids[i], book[i]);
    forall j | 0 <= j < |ids|
      ensures Holds(t', ids[j], book'[j])
    {
      assert Holds(t, ids[j], book[j]);
    }
  }

  lemma DeleteHolds(t: Table, id: nat, e: Entry, alias: string, user: int)
    requires Holds(t, id, e) && !(Fold(e.alias) == Fold(alias) && e.owner == user)
    ensures Holds(ProfileTable.Delete(t, alias, user), id, e)
  {
  }

  lemma DeleteCovers(t: Table, ids: seq<nat>, book: Book, i: nat, alias: string)
    requires Represents(t, ids, book) && Names(book, i, alias)
    ensures forall id | id in ProfileTable.Delete(t, alias, book[i].owner).rows :: id in ids[..i] + ids[i + 1..]
  {
    hide Represents;
    RowsAt(t, ids, book);
    forall id | id in ProfileTable.Delete(t, alias, book[i].owner).rows
      ensures id in ids[..i] + ids[i + 1..]
    {
      var k := IndexOf(t, ids, book, id);
      assert Holds(t, ids[i], book[i]);
      RemainsListed(ids, i, k);
    }
  }

  lemma RemainsListed(ids: seq<nat>, i: nat, k: nat)
    requires i < |ids| && k < |ids| && k != i
    ensures ids[k] in ids[..i] + ids[i + 1..]
  {
    assert (ids[..i] + ids[i + 1..])[if k < i then k else k - 1] == ids[k];
  }

  lemma DeleteAllHold(t: Table, ids: seq<nat>, book: Book, i: nat, alias: string)
    requires Represents(t, ids, book) && Names(book, i, alias)
    ensures AllHold(ProfileTable.Delete(t, alias, book[i].owner), ids[..i] + ids[i + 1..], book[..i] + book[i + 1..])
  {
    var user := book[i].owner;
    var t' := ProfileTable.Delete(t, alias, user);
    var ids', book' := ids[..i] + ids[i + 1..], book[..i] + book[i + 1..];
    assert Holds(t, ids[i], book[i]);
    forall j | 0 <= j < |ids'|
      ensures Holds(t', ids'[j], book'[j])
    {
      var k := if j < i then j else j + 1;
      assert Holds(t, ids[k], book[k]) && ids'[j] == ids[k] && book'[j] == book[k];
      assert Fold(book[k].alias) != Fold(alias);
      DeleteHolds(t, ids[k], book[k], alias, user);
    }
  }

  lemma RepresentsParts(t: Table, ids: seq<nat>, book: Book)
    ensures Represents(t, ids, book) <==>
            && WellFormed(t) && AllHold(t, ids, book) && (forall id | id in t.rows :: id in ids)
            && (forall i, j | 0 <= i < j < |ids| :: ids[i] < ids[j])
  {
  }

  lemma DeleteRepresents(t: Table, ids: seq<nat>, book: Book, i: nat, alias: string)
    requires Represents(t, ids, book) && Names(book, i, alias)
    ensures |ids| == |book|
    ensures Represents(ProfileTable.Delete(t, alias, book[i].owner), ids[..i] + ids[i + 1..], book[..i] + book[i + 1..])
  {
    hide WellFormed, Holds, ProfileTable.Delete, Fold, Represents;
    var t' := ProfileTable.Delete(t, alias, book[i].owner);
    RepresentsParts(t, ids, book);
    var ids', book' := ids[..i] + ids[i + 1..], book[..i] + book[i + 1..];
    DeleteKeeps(t, alias, book[i].owner);
    DeleteCovers(t, ids, book, i, alias);
    DeleteAllHold(t, ids, book, i, alias);
    RepresentsParts(t', ids', book');
  }

  lemma {:induction false} MineValid(book: Book, user: int, rules: AliasRules, k: nat)
    requires AliasesValid(book, rules)
    requires k < |Mine(book, user)|
    ensures rules.valid(Mine(book, user)[k].alias)
  {
    if book[0].owner != user {
      MineValid(book[1..], user, rules, k);
    } else if k > 0 {
      MineValid(book[1..], user, rules, k - 1);
    }
  }

  // ---------- what the store keeps ----------

  ghost predicate WithinQuota(book: Book, max: u32) {
    forall u: int :: |Mine(book, u)| <= max as int
  }

  ghost predicate AliasesValid(book: Book, rules: AliasRules) {
    forall i | 0 <= i < |book| :: rules.valid(book[i].alias)
  }

  ghost predicate Kept(t: Table, ids: seq<nat>, book: Book, rules: AliasRules, max: u32) {
    Represents(t, ids, book) && WithinQuota(book, max) && AliasesValid(book, rules)
  }

  function Add(book: Book, alias: string, user: int, now: i64): Book {
    book + [Entry(alias, user, [], now, now)]
  }

  function PutOn(book: Book, i: nat, body: Bytes, now: i64): Book
    requires i < |book|
  {
    book[i := book[i].(puts := book[i].puts + [body], updatedAt := now)]
  }

  function RemoveAt(book: Book, i: nat): Book
    requires i < |book|
  {
    book[..i] + book[i + 1..]
  }

  lemma CreateKeeps(t: Table, ids: seq<nat>, book: Book, rules: AliasRules, max: u32, user: int, alias: string,
      now: i64)
    requires Kept(t, ids, book, rules, max) && Insert(t, user, alias, now).Some?
    requires |Mine(book, user)| < max as int && rules.valid(alias)
    ensures Kept(Insert(t, user, alias, now).value, ids + [t.nextId], Add(book, alias, user, now), rules, max)
  {
    InsertRepresents(t, ids, book, user, alias, now);
    forall u: int ensures |Mine(Add(book, alias, user, now), u)| <= max as int {
      MineAppend(book, Entry(alias, user, [], now, now), u);
    }
  }

  lemma {:induction false} PutKeeps(t: Table, ids: seq<nat>, book: Book, rules: AliasRules, max: u32, i: nat,
      body: Bytes, now: i64)
    requires Kept(t, ids, book, rules, max) && i < |book|
    ensures Kept(Update(t, ids[i], body, |book[i].puts| + 1, now), ids, PutOn(book, i, body, now), rules, max)
  {
    UpdateRepresents(t, ids, book, i, body, now);
    var e := book[i].(puts := book[i].puts + [body], updatedAt := now);
    forall u: int ensures |Mine(PutOn(book, i, body, now), u)| <= max as int {
      MineUpdate(book, i, e, u);
    }
  }

  lemma RemoveKeeps(t: Table, ids: seq<nat>, book: Book, rules: AliasRules, max: u32, i: nat, alias: string)
    requires Kept(t, ids, book, rules, max) && Names(book, i, alias)
    ensures Kept(ProfileTable.Delete(t, alias, book[i].owner), ids[..i] + ids[i + 1..], RemoveAt(book, i), rules, max)
  {
    hide Represents, ProfileTable.Delete, Fold, Mine;
    DeleteRepresents(t, ids, book, i, alias);
    forall u: int ensures |Mine(RemoveAt(book, i), u)| <= max as int {
      MineRemove(book, i, u);
    }
  }

  /** What a lookup by alias finds, in terms of the book. */
  lemma FindEntry(t: Table, ids: seq<nat>, book: Book, alias: string) returns (i: nat)
    requires Represents(t, ids, book)
    ensures Find(t, alias).None? <==> Free(book, alias)
    ensures Find(t, alias).Some? ==>
              Names(book, i, alias) && |ids| == |book| && ids[i] == Find(t, alias).value && Holds(t, ids[i], book[i])
  {
    i := FoundIsNamed(t, ids, book, alias);
    if Find(t, alias).Some? {
      assert Holds(t, ids[i], book[i]);
    }
  }

  // ---------- answers in terms of the book ----------

  /** A PUT that names entry i. */
  ghost predicate PutAnswer(before: Book, after: Book, i: nat, user: int, path: string, expected: nat, body: Bytes,
                            now: i64, resp: Response)
    requires i < |before|
  {
    var e := before[i];
    if e.owner != user then resp == Forbidden && after == before
    else if |e.puts| != expected then resp == VersionConflict && after == before
    else && after == PutOn(before, i, body, now)
         && resp == Stored(Summary(path, |body|, expected + 1, FormatIso(e.createdAt), FormatIso(now)))
  }

  /** A GET that names entry i: its last blob, exactly when there is one and it is not empty. */
  ghost predicate GetAnswer(book: Book, i: nat, user: int, resp: Response)
    requires i < |book|
  {
    if book[i].owner != user then resp == Forbidden
    else if LastPut(book[i]) == None || LastPut(book[i]) == Some([]) then resp == NoBlob
    else resp == Content(LastPut(book[i]).value)
  }

  ghost predicate DeleteAnswer(before: Book, after: Book, i: nat, user: int, resp: Response)
    requires i < |before|
  {
    if before[i].owner != user then resp == Forbidden && after == before
    else resp == Deleted && after == RemoveAt(before, i)
  }

  // ---------- the store ----------

  class Store {
    var rows: map<nat, Row>
    var nextId: nat
    const rules: AliasRules
    const maxAliases: u32
    const blobMaxBytes: u64
    /** The abstract value, and the row id of each entry. */
    ghost var book: Book
    ghost var ids: seq<nat>

    function T(): Table
      reads this
    {
      Table(rows, nextId)
    }

    /** The table holds the book, the quota holds for every account, every stored alias is well formed. */
    ghost predicate Valid()
      reads this
    {
      Lawful(rules) && Kept(T(), ids, book, rules, maxAliases)
    }

    constructor (rules: AliasRules, maxAliases: u32, blobMaxBytes: u64)
      requires Lawful(rules)
      ensures Valid() && book == []
      ensures this.rules == rules && this.maxAliases == maxAliases && this.blobMaxBytes == blobMaxBytes
    {
      this.rules, this.maxAliases, this.blobMaxBytes := rules, maxAliases, blobMaxBytes;
      rows, nextId, book, ids := map[], 0, [], [];
    }

    /** POST /profiles. The `Alias` type of the request admits only well-formed aliases. */
    method Create(caller: Option<int>, alias: string, now: i64) returns (resp: Response)
      requires Valid() && rules.valid(alias)
      modifies this
      ensures Valid()
      ensures caller.None? ==> resp == Unauthorized && book == old(book)
      ensures caller.Some? ==>
        if |Mine(old(book), caller.value)| >= maxAliases as int then resp == QuotaExceeded && book == old(book)
        else if !Free(old(book), rules.lower(alias)) then resp == AliasTaken && book == old(book)
        else && book == Add(old(book), rules.lower(alias), caller.value, now)
             && resp == Created(Summary(alias, 0, 0, FormatIso(now), FormatIso(now)))
    {
      hide Lawful, Represents, WithinQuota, AliasesValid, Mine, FindFrom, Free, CountOwned, FormatIso;
      if caller.None? {
        return Unauthorized;
      }
      var user := caller.value;
      var count := CountOwned(T(), user);
      CountIsMine(T(), ids, book, user);
      QuotaAt(book, maxAliases, user);
      if ProfileMachine.OverQuota(count, maxAliases) {
        return QuotaExceeded;
      }
      var stored := rules.lower(alias);
      ghost var i := FindEntry(T(), ids, book, stored);
      var inserted := Insert(T(), user, stored, now);
      if inserted.None? {
        return AliasTaken;
      }
      LawfulAt(rules, alias);
      CreateKeeps(T(), ids, book, rules, maxAliases, user, stored, now);
      ids, book := ids + [nextId], Add(book, stored, user, now);
      rows, nextId := inserted.value.rows, inserted.value.nextId;
      assert T() == inserted.value;
      resp := Created(Summary(alias, 0, 0, FormatIso(now), FormatIso(now)));
    }

    /** PUT /profiles/{alias}/blob?expected_version=N */
    method PutBlob(caller: Option<int>, path: string, expected: nat, body: Bytes, now: i64) returns (resp: Response)
      requires Valid()
      modifies this
      ensures Valid()
      ensures !resp.Stored? ==> book == old(book)
      ensures caller.None? ==> resp == Unauthorized
      ensures caller.Some? ==>
        if !rules.valid(path) then resp == Malformed
        else if |body| > blobMaxBytes as int then resp == TooLarge
        else if Free(old(book), path) then resp == NotFound
        else (exists i: nat :: Names(old(book), i, path)
                            && PutAnswer(old(book), book, i, caller.value, path, expected, body, now, resp))
      ensures caller.Some? && rules.valid(path) && |body| <= blobMaxBytes as int ==>
        T() == PutAlone(old(T()), caller.value, path, expected, body, now).0
    {
      hide Lawful, Represents, WithinQuota, AliasesValid, FindFrom, Free, FormatIso;
      if caller.None? {
        return Unauthorized;
      }
      if !rules.valid(path) {
        return Malformed;
      }
      if |body| > blobMaxBytes as int {
        return TooLarge;
      }
      ghost var i := FindEntry(T(), ids, book, path);
      var found := Find(T(), path);
      if found.None? {
        return NotFound;
      }
      var pid := found.value;
      if rows[pid].owner != caller.value {
        assert PutAnswer(book, book, i, caller.value, path, expected, body, now, Forbidden);
        return Forbidden;
      }
      var current := rows[pid].version;
      if current != expected {
        assert PutAnswer(book, book, i, caller.value, path, expected, body, now, VersionConflict);
        return VersionConflict;
      }
      var newVersion := current + 1;
      PutKeeps(T(), ids, book, rules, maxAliases, i, body, now);
      var updated := Update(T(), pid, body, newVersion, now);
      rows := updated.rows;
      assert T() == updated;
      book := PutOn(book, i, body, now);
      resp := Stored(Summary(path, |body|, newVersion, FormatIso(rows[pid].createdAt), FormatIso(now)));
      assert PutAnswer(old(book), book, i, caller.value, path, expected, body, now, resp);
    }

    /** GET /profiles/{alias}/blob */
    method GetBlob(caller: Option<int>, path: string) returns (resp: Response)
      requires Valid()
      ensures caller.None? ==> resp == Unauthorized
      ensures caller.Some? ==>
        if !rules.valid(path) then resp == Malformed
        else if Free(book, path) then resp == NotFound
        else (exists i: nat :: Names(book, i, path) && GetAnswer(book, i, caller.value, resp))
    {
      hide Lawful, Represents, WithinQuota, AliasesValid, FindFrom, Free;
      if caller.None? {
        return Unauthorized;
      }
      if !rules.valid(path) {
        return Malformed;
      }
      ghost var i := FindEntry(T(), ids, book, path);
      var found := Find(T(), path);
      if found.None? {
        return NotFound;
      }
      var row := rows[found.value];
      if row.owner != caller.value {
        resp := Forbidden;
      } else if row.blob.Some? && row.blob.value != [] {
        resp := Content(row.blob.value);
      } else {
        resp := NoBlob;
      }
      assert GetAnswer(book, i, caller.value, resp);
    }

    /** DELETE /profiles/{alias} */
    method Delete(caller: Option<int>, path: string) returns (resp: Response)
      requires Valid()
      modifies this
      ensures Valid()
      ensures resp != Deleted ==> book == old(book)
      ensures caller.None? ==> resp == Unauthorized
      ensures caller.Some? ==>
        if !rules.valid(path) then resp == Malformed
        else if Free(old(book), path) then resp == NotFound
        else (exists i: nat :: Names(old(book), i, path) && DeleteAnswer(old(book), book, i, caller.value, resp))
    {
      hide Lawful, Represents, WithinQuota, AliasesValid, FindFrom, Free;
      if caller.None? {
        return Unauthorized;
      }
      if !rules.valid(path) {
        return Malformed;
      }
      ghost var i := FindEntry(T(), ids, book, path);
      var found := Find(T(), path);
      if found.None? {
        return NotFound;
      }
      if rows[found.value].owner != caller.value {
        assert DeleteAnswer(book, book, i, caller.value, Forbidden);
        return Forbidden;
      }
      RemoveKeeps(T(), ids, book, rules, maxAliases, i, path);
      var remaining := ProfileTable.Delete(T(), path, caller.value);
      rows := remaining.rows;
      assert T() == remaining;
      ids, book := ids[..i] + ids[i + 1..], RemoveAt(book, i);
      resp := Deleted;
      assert DeleteAnswer(old(book), book, i, caller.value, resp);
    }

    /** GET /profiles: the caller's aliases in order of creation; never a server error. */
    method List(caller: Option<int>) returns (resp: Response)
      requires Valid()
      ensures caller.None? ==> resp == Unauthorized
      ensures caller.Some? ==> resp == Listed(Summaries(Mine(book, caller.value)))
    {
      if caller.None? {
        return Unauthorized;
      }
      var selected := SelectOwned(T(), caller.value, 0);
      ghost var mine := Mine(book, caller.value);
      SelectionIsMine(T(), ids, book, caller.value);
      var profiles: seq<Summary> := [];
      hide Lawful, Represents, WithinQuota, AliasesValid, FormatIso, Mine, SelectOwned, Holds, SummaryOf, Summaries;
      for k := 0 to |selected|
        invariant profiles == Summaries(mine[..k])
      {
        SelectedRow(T(), selected, mine, k);
        SummariesNext(mine, k);
        var row := rows[selected[k]];
        MineValid(book, caller.value, rules, k);
        if !rules.valid(row.alias) {
          return ServerError;
        }
        profiles := profiles
            + [Summary(row.alias, row.blobSize, row.version, FormatIso(row.createdAt), FormatIso(row.updatedAt))];
      }
      assert mine[..|mine|] == mine;
      resp := Listed(profiles);
    }
  }

  lemma SummariesNext(mine: Book, k: nat)
    requires k < |mine|
    ensures Summaries(mine[..k + 1]) == Summaries(mine[..k]) + [SummaryOf(mine[k])]
  {
    hide SummaryOf;
  }

  lemma SelectedRow(t: Table, sel: seq<nat>, mine: Book, k: nat)
    requires AllHold(t, sel, mine) && k < |sel|
    ensures sel[k] in t.rows
    ensures var row := t.rows[sel[k]];
            Summary(row.alias, row.blobSize, row.version, FormatIso(row.createdAt), FormatIso(row.updatedAt)) ==
                SummaryOf(mine[k])
            && row.alias == mine[k].alias
  {
    HoldsRow(t, sel[k], mine[k]);
  }

  lemma HoldsRow(t: Table, id: nat, e: Entry)
    requires Holds(t, id, e)
    ensures id in t.rows
    ensures var row := t.rows[id];
            Summary(row.alias, row.blobSize, row.version, FormatIso(row.createdAt), FormatIso(row.updatedAt)) ==
                SummaryOf(e)
            && row.alias == e.alias
  {
  }

  lemma LawfulAt(rules: AliasRules, alias: string)
    requires Lawful(rules) && rules.valid(alias)
    ensures rules.valid(rules.lower(alias))
  {
  }

  lemma QuotaAt(book: Book, max: u32, user: int)
    requires WithinQuota(book, max)
    ensures |Mine(book, user)| <= max as int
  {
  }
}
