/** The tables `core_characters` and `races` with the statements and functions that write them. */
module CharacterTable {
  import opened Basics
  import opened CharacterDomain
  import opened Convert

  datatype Row = Row(cols: Columns, version: int, token: Option<string>, createdAt: int, updatedAt: int,
                     confirmedAt: Option<int>, deletedAt: Option<int>)

  predicate Pending(r: Row) {
    r.confirmedAt.None?
  }

  /** Confirmed and not deleted: what reads, updates and deletes see. */
  predicate Visible(r: Row) {
    r.confirmedAt.Some? && r.deletedAt.None?
  }

  predicate PositiveOrNull(x: Option<Int16>) {
    x.Some? ==> x.value > 0
  }

  /** The column types and CHECK constraints. */
  predicate ChecksPass(c: Columns) {
    && |c.name| <= 100
    && ValidGender(c.gender)
    && (c.birthPlace.Some? ==> |c.birthPlace.value| <= 150)
    && PositiveOrNull(c.heightCm) && PositiveOrNull(c.weightKg)
    && (c.bodyFat.Some? ==> 0 <= c.bodyFat.value <= 1000)
    && PositiveOrNull(c.sizeTop) && PositiveOrNull(c.sizeMiddle) && PositiveOrNull(c.sizeBottom)
  }

  /** Which accepted inputs the constraints refuse, in terms of the request; body fat counts as rounded to a tenth. */
  lemma ConstraintsOfTheRequest(c: Columns, f: Profile, name: string)
    requires Carries(c, f, name) && |name| <= 100 && KnownGender(f.gender)
    ensures ChecksPass(c) <==>
              && |f.birthPlace| <= 150
              && (forall n :: n in {f.heightCm, f.weightKg, f.sizeTop, f.sizeMiddle, f.sizeBottom} && n.Some? ==>
                    n.value > 0)
              && (f.bodyFat.Some? ==> -0.05 < f.bodyFat.value < 100.05)
  {
    assert ALL_GENDERS == ["male", "female", "other", "unknown"];
  }

  /** CH404, CH412, 23503, 23505, and the remaining type and CHECK violations. */
  datatype SqlError = NoSuchCharacter | WrongVersion | ForeignKey | Unique | Rejected

  // ---------------------------------------------------------------- the state and its history

  datatype InsertEvent = InsertEvent(id: Uuid, token: Option<string>, cols: Columns)

  /** `version` is the version the update found. */
  datatype CommitEvent = CommitEvent(id: Uuid, version: int, cols: Columns)

  /** Table contents, followed by what happened so far: inserts and updates in order, and the reclaimed ids. */
  datatype Db = Db(rows: map<Uuid, Row>, races: map<Uuid, string>,
                   inserts: seq<InsertEvent>, commits: seq<CommitEvent>, reclaimed: set<Uuid>)

  const EMPTY_DB := Db(map[], map[], [], [], {})

  ghost predicate HoldsToken(db: Db, id: Uuid, token: string) {
    id in db.rows && db.rows[id].token == Some(token)
  }

  ghost predicate LiveHolder(db: Db, id: Uuid, token: string) {
    HoldsToken(db, id, token) && db.rows[id].deletedAt.None?
  }

  ghost predicate TokenTaken(db: Db, token: Option<string>) {
    token.Some? && exists id :: HoldsToken(db, id, token.value)
  }

  predicate Reclaimable(r: Row, secs: int, now: int) {
    Pending(r) && r.createdAt < now - secs * 1_000_000
  }

  datatype InsertResult = Inserted | Conflict | Failed(error: SqlError)

  /** INSERT ... ON CONFLICT (creation_token) DO NOTHING: checks, then the token, then the keys. */
  ghost function InsertOutcome(db: Db, id: Uuid, cols: Columns, token: Option<string>): InsertResult {
    if !ChecksPass(cols) then Failed(Rejected)
    else if TokenTaken(db, token) then Conflict
    else if id in db.rows then Failed(Unique)
    else if cols.raceId !in db.races then Failed(ForeignKey)
    else Inserted
  }

  ghost function AfterInsert(db: Db, id: Uuid, cols: Columns, version: int, token: Option<string>,
                             createdAt: int, updatedAt: int): Db
  {
    if InsertOutcome(db, id, cols, token) != Inserted then db
    else db.(rows := db.rows[id := Row(cols, version, token, createdAt, updatedAt, None, None)],
             inserts := db.inserts + [InsertEvent(id, token, cols)])
  }

  /** Races, reclaimed ids and every row but this one are the same. */
  ghost predicate SameElsewhere(a: Db, b: Db, id: Uuid) {
    && b.races == a.races && b.reclaimed == a.reclaimed
    && (forall other :: other != id ==> (other in b.rows <==> other in a.rows))
    && (forall other :: other != id && other in a.rows && other in b.rows ==> b.rows[other] == a.rows[other])
  }

  /** The guard update_character and soft_delete_character share. */
  function WriteError(db: Db, id: Uuid, expected: Option<int>): Option<SqlError> {
    if id !in db.rows || !Visible(db.rows[id]) then Some(NoSuchCharacter)
    else if expected.Some? && db.rows[id].version != expected.value then Some(WrongVersion)
    else None
  }

  function UpdateError(db: Db, id: Uuid, expected: Option<int>, cols: Columns): Option<SqlError> {
    if WriteError(db, id, expected).Some? then WriteError(db, id, expected)
    else if !ChecksPass(cols) || db.rows[id].version >= INT64_MAX then Some(Rejected)
    else if cols.raceId !in db.races then Some(ForeignKey)
    else None
  }

  function AfterUpdate(db: Db, id: Uuid, expected: Option<int>, cols: Columns, now: int): Db {
    if UpdateError(db, id, expected, cols).Some? then db
    else
      var r := db.rows[id];
      db.(rows := db.rows[id := r.(cols := cols, version := r.version + 1, updatedAt := now)],
          commits := db.commits + [CommitEvent(id, r.version, cols)])
  }

  function AfterSoftDelete(db: Db, id: Uuid, expected: Option<int>, now: int): Db {
    if WriteError(db, id, expected).Some? then db
    else db.(rows := db.rows[id := db.rows[id].(deletedAt := Some(now), updatedAt := now)])
  }

  predicate Confirmable(db: Db, id: Uuid) {
    id in db.rows && Pending(db.rows[id]) && db.rows[id].deletedAt.None?
  }

  /** The UPDATE of confirm_character. */
  function AfterConfirm(db: Db, id: Uuid, now: int): Db {
    if !Confirmable(db, id) then db
    else db.(rows := db.rows[id := db.rows[id].(confirmedAt := Some(now), updatedAt := now)])
  }

  function Expired(rows: map<Uuid, Row>, secs: int, now: int): set<Uuid> {
    set id | id in rows && Reclaimable(rows[id], secs, now)
  }

  function AfterGc(db: Db, secs: int, now: int): Db {
    db.(rows := db.rows - Expired(db.rows, secs, now), reclaimed := db.reclaimed + Expired(db.rows, secs, now))
  }

  /**
   * GC exactness: it removes precisely the unconfirmed rows strictly older than `secs` seconds, the row count
   * drops by their number, every other row stays as it is, and no row it would remove is left.
   */
  lemma GcIsExact(db: Db, secs: int, now: int)
    ensures var after := AfterGc(db, secs, now);
            && (forall id :: id in db.rows ==>
                  (id !in after.rows <==>
                   db.rows[id].confirmedAt.None? && db.rows[id].createdAt < now - secs * 1_000_000))
            && (forall id :: id in after.rows ==> id in db.rows && after.rows[id] == db.rows[id])
            && |Expired(db.rows, secs, now)| == |db.rows| - |after.rows|
            && Expired(after.rows, secs, now) == {}
            && after.races == db.races && after.inserts == db.inserts && after.commits == db.commits
            && after.reclaimed == db.reclaimed + (db.rows.Keys - after.rows.Keys)
  {
  }

  /** The DELETE of gc_unconfirmed_characters over a table: what it keeps, and how many rows go. */
  method DeleteExpired(rows: map<Uuid, Row>, secs: int, now: int) returns (kept: map<Uuid, Row>, count: nat)
    ensures kept == rows - Expired(rows, secs, now)
    ensures count == |Expired(rows, secs, now)|
  {
    ghost var gone: set<Uuid> := {};
    var todo := rows.Keys;
    kept, count := rows, 0;
    while todo != {}
      invariant todo <= rows.Keys && count == |gone|
      invariant kept == rows - gone
      invariant forall id :: id in gone <==> id in rows && id !in todo && Reclaimable(rows[id], secs, now)
      decreases todo
    {
      var id :| id in todo;
      todo := todo - {id};
      if rows[id].confirmedAt.None? && rows[id].createdAt < now - secs * 1_000_000 {
        kept := kept - {id};
        gone := gone + {id};
        count := count + 1;
      }
    }
    assert gone == Expired(rows, secs, now);
  }

  predicate RaceInUse(db: Db, race: Uuid) {
    exists id :: id in db.rows && db.rows[id].cols.raceId == race
  }

  // ---------------------------------------------------------------- the tables as an object

  class Table {
    var rows: map<Uuid, Row>
    var races: map<Uuid, string>
    ghost var inserts: seq<InsertEvent>
    ghost var commits: seq<CommitEvent>
    ghost var reclaimed: set<Uuid>

    ghost function View(): Db
      reads this
    {
      Db(rows, races, inserts, commits, reclaimed)
    }

    constructor ()
      ensures View() == EMPTY_DB
    {
      rows, races, inserts, commits, reclaimed := map[], map[], [], [], {};
    }

    /** Finds a row by its token: any row, as the unique index does, or only a row that is not deleted. */
    method FindByToken(token: string, liveOnly: bool) returns (holder: Option<Uuid>)
      ensures holder.Some? ==> HoldsToken(View(), holder.value, token)
      ensures holder.Some? && liveOnly ==> LiveHolder(View(), holder.value, token)
      ensures holder.None? && liveOnly ==> forall id :: !LiveHolder(View(), id, token)
      ensures holder.None? && !liveOnly ==> !TokenTaken(View(), Some(token))
    {
      var todo := rows.Keys;
      while todo != {}
        invariant todo <= rows.Keys
        invariant forall id :: id in rows && id !in todo && rows[id].token == Some(token) ==>
                    liveOnly && rows[id].deletedAt.Some?
        decreases todo
      {
        var id :| id in todo;
        if rows[id].token == Some(token) && (!liveOnly || rows[id].deletedAt.None?) {
          return Some(id);
        }
        todo := todo - {id};
      }
      return None;
    }

    /** CreateCharacter: inserts one pending row, or none when the token is taken. */
    method CreateCharacter(id: Uuid, cols: Columns, version: int, token: Option<string>,
                           createdAt: int, updatedAt: int)
      returns (result: InsertResult)
      modifies this
      ensures result == InsertOutcome(old(View()), id, cols, token)
      ensures View() == AfterInsert(old(View()), id, cols, version, token, createdAt, updatedAt)
    {
      if !ChecksPass(cols) {
        return Failed(Rejected);
      }
      if token.Some? {
        var holder := FindByToken(token.value, false);
        if holder.Some? {
          return Conflict;
        }
      }
      if id in rows {
        return Failed(Unique);
      }
      if cols.raceId !in races {
        return Failed(ForeignKey);
      }
      rows := rows[id := Row(cols, version, token, createdAt, updatedAt, None, None)];
      inserts := inserts + [InsertEvent(id, token, cols)];
      return Inserted;
    }

    /** update_character. */
    method UpdateCharacter(id: Uuid, expected: Option<int>, cols: Columns, now: int)
      returns (result: Result<Row, SqlError>)
      modifies this
      ensures View() == AfterUpdate(old(View()), id, expected, cols, now)
      ensures result == match UpdateError(old(View()), id, expected, cols)
                        case Some(e) => Err(e)
                        case None => Ok(View().rows[id])
    {
      if id !in rows || !Visible(rows[id]) {
        return Err(NoSuchCharacter);
      }
      var current := rows[id];
      if expected.Some? && current.version != expected.value {
        return Err(WrongVersion);
      }
      if !ChecksPass(cols) || current.version >= INT64_MAX {
        return Err(Rejected);
      }
      if cols.raceId !in races {
        return Err(ForeignKey);
      }
      var updated := current.(cols := cols, version := current.version + 1, updatedAt := now);
      rows := rows[id := updated];
      commits := commits + [CommitEvent(id, current.version, cols)];
      return Ok(updated);
    }

    /** soft_delete_character. */
    method SoftDeleteCharacter(id: Uuid, expected: Option<int>, now: int) returns (result: Result<Row, SqlError>)
      modifies this
      ensures View() == AfterSoftDelete(old(View()), id, expected, now)
      ensures result == match WriteError(old(View()), id, expected)
                        case Some(e) => Err(e)
                        case None => Ok(View().rows[id])
      ensures result.Ok? ==>
                && id in old(rows) && id in rows
                && result.value == rows[id] == old(rows)[id].(deletedAt := Some(now), updatedAt := now)
                && SameElsewhere(old(View()), View(), id)
      ensures result.Err? ==> View() == old(View())
    {
      if id !in rows || !Visible(rows[id]) {
        return Err(NoSuchCharacter);
      }
      if expected.Some? && rows[id].version != expected.value {
        return Err(WrongVersion);
      }
      rows := rows[id := rows[id].(deletedAt := Some(now), updatedAt := now)];
      return Ok(rows[id]);
    }

    /** confirm_character with nothing in between its two statements. */
    method ConfirmCharacter(id: Uuid, now: int) returns (result: Result<Row, SqlError>)
      modifies this
      ensures View() == AfterConfirm(old(View()), id, now)
      ensures result.Ok? <==> id in old(rows) && old(rows[id]).deletedAt.None?
      ensures result.Ok? ==> result.value == rows[id] && Visible(rows[id])
      ensures result.Err? ==> result.error == NoSuchCharacter && rows == old(rows)
      ensures id in old(rows) && Visible(old(rows[id])) ==> rows == old(rows)
    {
      if id in rows && rows[id].deletedAt.None? && rows[id].confirmedAt.None? {
        rows := rows[id := rows[id].(confirmedAt := Some(now), updatedAt := now)];
        return Ok(rows[id]);
      }
      if id in rows && rows[id].deletedAt.None? && rows[id].confirmedAt.Some? {
        return Ok(rows[id]);
      }
      return Err(NoSuchCharacter);
    }

    /** gc_unconfirmed_characters: removes the expired reservations and counts them. */
    method GcUnconfirmedCharacters(secs: int, now: int) returns (count: nat)
      modifies this
      ensures View() == AfterGc(old(View()), secs, now)
      ensures count == |Expired(old(rows), secs, now)|
    {
      ghost var gone := Expired(rows, secs, now);
      rows, count := DeleteExpired(rows, secs, now);
      reclaimed := reclaimed + gone;
    }
  }
}
