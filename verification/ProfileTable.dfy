/** The `profiles` table (migrations/0003_profiles.sql) and the SQL statements the handlers of
    src/routes/profiles.rs run on it. */
module ProfileTable {
  import opened Wrappers
  import opened MachineInts
  import opened Intervals

  type Bytes = seq<byte>

  /** One row; `blob` is NULL until the first PUT. */
  datatype Row = Row(owner: int, alias: string, blob: Option<Bytes>, blobSize: nat, version: nat,
                     createdAt: i64, updatedAt: i64)

  /** The rows by id, and the AUTOINCREMENT counter: ids are never used again. */
  datatype Table = Table(rows: map<nat, Row>, nextId: nat)

  const EMPTY := Table(map[], 0)

  /** COLLATE NOCASE: comparison after folding the ASCII letters. */
  function FoldChar(c: char): char {
    if 'A' <= c <= 'Z' then (c as int + 32) as char else c
  }

  function Fold(s: string): string {
    seq(|s|, i requires 0 <= i < |s| => FoldChar(s[i]))
  }

  // ---------- statements ----------

  /** SELECT ... WHERE alias = ?1, looking from row `from` on. */
  function FindFrom(t: Table, alias: string, from: nat): (r: Option<nat>)
    ensures r.Some? ==> r.value in t.rows && Fold(t.rows[r.value].alias) == Fold(alias)
    ensures r.None? ==> forall id | id in t.rows && from <= id < t.nextId :: Fold(t.rows[id].alias) != Fold(alias)
    decreases t.nextId - from
  {
    if from >= t.nextId then None
    else if from in t.rows && Fold(t.rows[from].alias) == Fold(alias) then Some(from)
    else FindFrom(t, alias, from + 1)
  }

  function Find(t: Table, alias: string): Option<nat> {
    FindFrom(t, alias, 0)
  }

  function OwnedIds(t: Table, user: int): set<nat> {
    set id | id in t.rows && t.rows[id].owner == user
  }

  /** SELECT COUNT(*) ... WHERE user_id = ?1 */
  function CountOwned(t: Table, user: int): nat {
    |OwnedIds(t, user)|
  }

  /** INSERT; None is a violation of the UNIQUE alias. */
  function Insert(t: Table, user: int, alias: string, now: i64): Option<Table> {
    if Find(t, alias).Some? then None
    else Some(Table(t.rows[t.nextId := Row(user, alias, None, 0, 0, now, now)], t.nextId + 1))
  }

  /** UPDATE ... WHERE id = ?5; no row, no effect. */
  function Update(t: Table, id: nat, body: Bytes, version: nat, now: i64): Table {
    if id !in t.rows then t
    else t.(rows := t.rows[id :=
        t.rows[id].(blob := Some(body), blobSize := |body|, version := version, updatedAt := now)])
  }

  /** DELETE ... WHERE alias = ?1 AND user_id = ?2 */
  function Delete(t: Table, alias: string, user: int): Table {
    t.(rows := map id | id in t.rows && !(Fold(t.rows[id].alias) == Fold(alias) && t.rows[id].owner == user) ::
        t.rows[id])
  }

  // ---------- one whole PUT ----------

  datatype PutResult =
    | PutNotFound | PutForbidden | PutConflict | PutFailed
    | PutStored(size: nat, version: nat, createdAt: i64, updatedAt: i64)

  datatype Lookup = Refuse(why: PutResult) | Write(id: nat, version: nat)

  /** What the SELECT of a PUT decides: the row and version to write, or the refusal. */
  function PutLookup(t: Table, user: int, alias: string, expected: nat): (r: Lookup)
    ensures r.Write? ==>
            && r.id in t.rows && t.rows[r.id].owner == user && Fold(t.rows[r.id].alias) == Fold(alias)
            && t.rows[r.id].version == expected && r.version == expected + 1
  {
    var found := Find(t, alias);
    if found.None? then Refuse(PutNotFound)
    else
      var row := t.rows[found.value];
      if row.owner != user then Refuse(PutForbidden)
      else if row.version != expected then Refuse(PutConflict)
      else Write(found.value, row.version + 1)
  }

  /** A PUT that runs alone: SELECT, UPDATE, SELECT created_at, commit. */
  function PutAlone(t: Table, user: int, alias: string, expected: nat, body: Bytes, now: i64): (Table, PutResult) {
    match PutLookup(t, user, alias, expected)
    case Refuse(why) => (t, why)
    case Write(id, version) =>
      (Update(t, id, body, version, now),
       PutStored(|body|, version, t.rows[id].createdAt, now))
  }

  // ---------- one whole GET ----------

  datatype GetResult = GetNotFound | GetForbidden | NoBlobYet | Blob(bytes: Bytes)

  function BlobOf(t: Table, user: int, alias: string): GetResult {
    var found := Find(t, alias);
    if found.None? then GetNotFound
    else
      var row := t.rows[found.value];
      if row.owner != user then GetForbidden
      else if row.blob.Some? && row.blob.value != [] then Blob(row.blob.value)
      else NoBlobYet
  }

  // ---------- what every statement keeps ----------

  /** Ids below the counter, aliases unique up to case, size and version consistent with the blob. */
  ghost predicate WellFormed(t: Table) {
    && (forall id | id in t.rows :: id < t.nextId)
    && (forall i, j | i in t.rows && j in t.rows && Fold(t.rows[i].alias) == Fold(t.rows[j].alias) :: i == j)
    && (forall id | id in t.rows ::
          var row := t.rows[id];
          (row.blob.None? <==> row.version == 0) && row.blobSize == (if row.blob.None? then 0 else |row.blob.value|))
  }

  /** Lookup finds the one row whose alias agrees up to case, whatever its id. */
  lemma FindUnique(t: Table, alias: string, id: nat)
    requires WellFormed(t) && id in t.rows && Fold(t.rows[id].alias) == Fold(alias)
    ensures Find(t, alias) == Some(id)
  {
  }

  /** The SELECT of a PUT decides by the one row with that alias: absent, another's, at another
      version, or the one to write. */
  lemma PutLookupExact(t: Table, user: int, alias: string, expected: nat)
    requires WellFormed(t)
    ensures var r := PutLookup(t, user, alias, expected);
            && (r == Refuse(PutNotFound) <==> forall id | id in t.rows :: Fold(t.rows[id].alias) != Fold(alias))
            && forall id | id in t.rows && Fold(t.rows[id].alias) == Fold(alias) ::
                 var row := t.rows[id];
                 && (r == Refuse(PutForbidden) <==> row.owner != user)
                 && (r == Refuse(PutConflict) <==> row.owner == user && row.version != expected)
                 && (r == Write(id, expected + 1) <==> row.owner == user && row.version == expected)
  {
    hide Fold;
    forall id | id in t.rows && Fold(t.rows[id].alias) == Fold(alias)
      ensures Find(t, alias) == Some(id)
    {
      FindUnique(t, alias, id);
    }
  }

  lemma InsertKeeps(t: Table, user: int, alias: string, now: i64)
    requires WellFormed(t)
    ensures Insert(t, user, alias, now).None? <==> exists id :: id in t.rows && Fold(t.rows[id].alias) == Fold(alias)
    ensures var r := Insert(t, user, alias, now); r.Some? ==> WellFormed(r.value)
  {
  }

  lemma UpdateKeeps(t: Table, id: nat, body: Bytes, version: nat, now: i64)
    requires WellFormed(t) && version > 0
    ensures WellFormed(Update(t, id, body, version, now))
  {
  }

  lemma DeleteKeeps(t: Table, alias: string, user: int)
    requires WellFormed(t)
    ensures WellFormed(Delete(t, alias, user))
  {
  }

  lemma PutAloneKeeps(t: Table, user: int, alias: string, expected: nat, body: Bytes, now: i64)
    requires WellFormed(t)
    ensures WellFormed(PutAlone(t, user, alias, expected, body, now).0)
  {
    var found := Find(t, alias);
    if found.Some? {
      UpdateKeeps(t, found.value, body, t.rows[found.value].version + 1, now);
    }
  }

  lemma CountAdd(t: Table, row: Row, u: int)
    requires t.nextId !in t.rows
    ensures CountOwned(Table(t.rows[t.nextId := row], t.nextId + 1), u) == CountOwned(t, u) + if u == row.owner then 1
        else 0
  {
    var t' := Table(t.rows[t.nextId := row], t.nextId + 1);
    if u == row.owner {
      assert OwnedIds(t', u) == OwnedIds(t, u) + {t.nextId};
    } else {
      assert OwnedIds(t', u) == OwnedIds(t, u);
    }
  }

  lemma CountInsert(t: Table, user: int, alias: string, now: i64, u: int)
    requires WellFormed(t) && Insert(t, user, alias, now).Some?
    ensures CountOwned(Insert(t, user, alias, now).value, u) == CountOwned(t, u) + if u == user then 1 else 0
  {
    CountAdd(t, Row(user, alias, None, 0, 0, now, now), u);
  }

  lemma CountDelete(t: Table, alias: string, user: int, u: int)
    ensures CountOwned(Delete(t, alias, user), u) <= CountOwned(t, u)
  {
    SubsetSize(OwnedIds(Delete(t, alias, user), u), OwnedIds(t, u));
  }

  lemma CountUpdate(t: Table, id: nat, body: Bytes, version: nat, now: i64, u: int)
    ensures CountOwned(Update(t, id, body, version, now), u) == CountOwned(t, u)
  {
    assert OwnedIds(Update(t, id, body, version, now), u) == OwnedIds(t, u);
  }
}
