/** The character repository: domain records on one side, SQL statements on the other. */
module Repository {
  import opened Basics
  import opened CharacterDomain
  import opened Convert
  import opened CharacterTable

  /** The record is the row as `characterFromRow` reads it, race name joined in. */
  predicate Shows(c: Character, db: Db, id: Uuid)
    reads c
  {
    && id in db.rows
    && c.id == id
    && c.business == FromColumns(db.rows[id].cols)
    && c.raceName == (if db.rows[id].cols.raceId in db.races then db.races[db.rows[id].cols.raceId] else "")
    && c.version == db.rows[id].version
    && c.createdAt == db.rows[id].createdAt
    && c.updatedAt == db.rows[id].updatedAt
    && c.creationToken.None?
  }

  function DomainErrorOf(e: SqlError): DomainError {
    match e
    case NoSuchCharacter => NotFound
    case WrongVersion => VersionConflict
    case ForeignKey => RaceNotFound
    case Unique => Internal
    case Rejected => Internal
  }

  // ---------------------------------------------------------------- the age clamp of GC

  const NANOS_PER_SECOND := 1_000_000_000

  /** `maxAge.Seconds()` clamped to 1..2^31-1 and truncated to an int32. */
  function ClampSeconds(maxAge: Int64): (secs: int)
    ensures 1 <= secs <= INT32_MAX
  {
    var seconds := maxAge as real / NANOS_PER_SECOND as real;
    if seconds < 1.0 then 1 else if seconds > INT32_MAX as real then INT32_MAX else seconds.Floor
  }

  /** The clamp is whole seconds wherever they fit, never more than the age asked for but for the one-second floor. */
  lemma ClampIsWholeSeconds(maxAge: Int64)
    ensures ClampSeconds(maxAge) * NANOS_PER_SECOND <= maxAge < (ClampSeconds(maxAge) + 1) * NANOS_PER_SECOND
         || (ClampSeconds(maxAge) == 1 && maxAge < NANOS_PER_SECOND)
         || (ClampSeconds(maxAge) == INT32_MAX && maxAge > INT32_MAX * NANOS_PER_SECOND)
  {
    var n := NANOS_PER_SECOND as real;
    var seconds := maxAge as real / n;
    assert seconds * n == maxAge as real;
    var f := seconds.Floor as real;
    assert f <= seconds < f + 1.0;
    assert f * n <= seconds * n < (f + 1.0) * n;
  }

  // ---------------------------------------------------------------- the repository

  class CharacterRepository {
    const db: Table

    constructor (db: Table)
      ensures this.db == db
    {
      this.db := db;
    }

    method FromRow(id: Uuid, row: Row) returns (c: Character)
      requires id in db.rows && db.rows[id] == row
      ensures fresh(c) && Shows(c, db.View(), id) && !c.replayed
    {
      var raceName := if row.cols.raceId in db.races then db.races[row.cols.raceId] else "";
      c := new Character(id, FromColumns(row.cols), raceName, row.version, row.createdAt, row.updatedAt, None);
    }

    /** Inserts a pending row, or turns the record into the live row that already holds its token. */
    method Save(c: Character) returns (err: Option<DomainError>)
      modifies db, c
      ensures db.View() == AfterInsert(old(db.View()), old(c.id), ToColumns(old(c.business)), old(c.version),
                                       old(c.creationToken), old(c.createdAt), old(c.updatedAt))
      ensures match InsertOutcome(old(db.View()), old(c.id), ToColumns(old(c.business)), old(c.creationToken))
              case Inserted => err.None? && unchanged(c)
              case Failed(e) => err == Some(DomainErrorOf(e)) && unchanged(c)
              case Conflict =>
                if err.None? then c.replayed && Shows(c, db.View(), c.id)
                                  && LiveHolder(db.View(), c.id, old(c.creationToken).value)
                else err == Some(CreationTokenConsumed) && unchanged(c)
                     && forall id :: !LiveHolder(db.View(), id, old(c.creationToken).value)
    {
      var outcome := db.CreateCharacter(c.id, ToColumns(c.business), c.version, c.creationToken,
                                        c.createdAt, c.updatedAt);
      match outcome {
        case Inserted => return None;
        case Failed(e) => return Some(DomainErrorOf(e));
        case Conflict =>
      }
      var holder := db.FindByToken(c.creationToken.value, true);
      if holder.None? {
        return Some(CreationTokenConsumed);
      }
      var row := db.rows[holder.value];
      var found := FromRow(holder.value, row);
      c.id, c.business, c.raceName, c.version := found.id, found.business, found.raceName, found.version;
      c.createdAt, c.updatedAt, c.creationToken := found.createdAt, found.updatedAt, None;
      c.replayed := true;
      return None;
    }

    method FindByID(id: Uuid) returns (result: Result<Character, DomainError>)
      ensures result.Ok? <==> id in db.rows && Visible(db.rows[id])
      ensures result.Ok? ==> fresh(result.value) && Shows(result.value, db.View(), id)
      ensures result.Ok? && db.rows[id].cols.raceId in db.races ==>
                result.value.raceName == db.races[db.rows[id].cols.raceId]
      ensures result.Err? ==> result.error == NotFound
    {
      if id !in db.rows || !Visible(db.rows[id]) {
        return Err(NotFound);
      }
      var c := FromRow(id, db.rows[id]);
      return Ok(c);
    }

    /** Writes every column of the record, guarded by the expected version, and returns the stored row. */
    method Update(c: Character, expected: Option<int>, now: int) returns (result: Result<Character, DomainError>)
      modifies db
      ensures db.View() == AfterUpdate(old(db.View()), c.id, expected, ToColumns(c.business), now)
      ensures match UpdateError(old(db.View()), c.id, expected, ToColumns(c.business))
              case Some(e) => result == Err(DomainErrorOf(e))
              case None => result.Ok? && fresh(result.value) && Shows(result.value, db.View(), c.id)
    {
      var row := db.UpdateCharacter(c.id, expected, ToColumns(c.business), now);
      if row.Err? {
        return Err(DomainErrorOf(row.error));
      }
      var updated := FromRow(c.id, row.value);
      return Ok(updated);
    }

    method Delete(id: Uuid, now: int) returns (err: Option<DomainError>)
      modifies db
      ensures db.View() == AfterSoftDelete(old(db.View()), id, None, now)
      ensures err == if id in old(db.rows) && Visible(old(db.rows)[id]) then None else Some(NotFound)
      ensures err.None? ==>
                && id in db.rows && db.rows[id] == old(db.rows)[id].(deletedAt := Some(now), updatedAt := now)
                && SameElsewhere(old(db.View()), db.View(), id)
      ensures err.Some? ==> db.View() == old(db.View())
    {
      var row := db.SoftDeleteCharacter(id, None, now);
      return if row.Ok? then None else Some(DomainErrorOf(row.error));
    }

    method Confirm(id: Uuid, now: int) returns (result: Result<Character, DomainError>)
      modifies db
      ensures db.View() == AfterConfirm(old(db.View()), id, now)
      ensures result.Ok? <==> id in db.rows && Visible(db.rows[id])
      ensures result.Ok? ==> fresh(result.value) && Shows(result.value, db.View(), id)
      ensures result.Err? ==> result.error == NotFound && db.View() == old(db.View())
      ensures result.Ok? ==>
                && id in old(db.rows) && old(db.rows)[id].deletedAt.None?
                && SameElsewhere(old(db.View()), db.View(), id)
                && db.rows[id] == if old(db.rows)[id].confirmedAt.Some? then old(db.rows)[id]
                                  else old(db.rows)[id].(confirmedAt := Some(now), updatedAt := now)
    {
      var row := db.ConfirmCharacter(id, now);
      if row.Err? {
        return Err(NotFound);
      }
      var c := FromRow(id, row.value);
      return Ok(c);
    }

    method GC(maxAge: Int64, now: int) returns (count: nat)
      modifies db
      ensures db.View() == AfterGc(old(db.View()), ClampSeconds(maxAge), now)
      ensures count == |old(db.rows)| - |db.rows|
    {
      var secs := ClampSeconds(maxAge);
      GcIsExact(db.View(), secs, now);
      count := db.GcUnconfirmedCharacters(secs, now);
    }
  }
}
