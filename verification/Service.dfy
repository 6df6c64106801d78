/** The character use cases. */
module Service {
  import opened Basics
  import opened Text
  import opened CharacterDomain
  import opened Convert
  import opened CharacterTable
  import opened Lifecycle
  import opened TableRuns
  import opened Repository

  /** The version a PUT or PATCH insists on: the one supplied, else the one it read. */
  function Expected(ifMatch: Option<int>, read: int): int {
    if ifMatch.Some? then ifMatch.value else read
  }

  /** What a PUT or PATCH answers when nothing runs between its read and its write. */
  function WriteAnswer(db: Db, id: Uuid, op: Op, ifMatch: Option<int>): Option<DomainError> {
    if id !in db.rows || !Visible(db.rows[id]) then Some(NotFound)
    else if OpError(op).Some? then OpError(op)
    else
      var row := db.rows[id];
      match UpdateError(db, id, Some(Expected(ifMatch, row.version)), Rewritten(row.cols, op))
      case Some(e) => Some(DomainErrorOf(e))
      case None => None
  }

  /** The tables after it: one commit of the rewritten columns, or nothing at all. */
  function AfterWrite(db: Db, id: Uuid, op: Op, ifMatch: Option<int>, now: int): Db {
    if WriteAnswer(db, id, op, ifMatch).Some? then db
    else AfterUpdate(db, id, Some(db.rows[id].version), Rewritten(db.rows[id].cols, op), now)
  }

  /**
   * Which error a PUT or PATCH ends with, if any: not found, then the input's own, then a supplied version that is not
   * the row's, then the constraints or an exhausted version, then the race. Any error leaves the tables alone.
   */
  lemma WriteIsDecided(db: Db, id: Uuid, op: Op, ifMatch: Option<int>, now: int)
    ensures var answer := WriteAnswer(db, id, op, ifMatch);
            && (answer.Some? ==> AfterWrite(db, id, op, ifMatch, now) == db)
            && if !(id in db.rows && db.rows[id].confirmedAt.Some? && db.rows[id].deletedAt.None?)
               then answer == Some(NotFound)
               else if OpError(op).Some? then answer == OpError(op)
               else
                 var row, cols := db.rows[id], Rewritten(db.rows[id].cols, op);
                 if ifMatch.Some? && ifMatch.value != row.version then answer == Some(VersionConflict)
                 else if !ChecksPass(cols) || row.version >= 0x7FFF_FFFF_FFFF_FFFF then answer == Some(Internal)
                 else if cols.raceId !in db.races then answer == Some(RaceNotFound)
                 else answer.None?
  {
  }

  /** One that ends without error raises the version by one and stamps the time on that row, and nothing else moves. */
  lemma WriteChangesOneRow(db: Db, id: Uuid, op: Op, ifMatch: Option<int>, now: int)
    requires WriteAnswer(db, id, op, ifMatch).None?
    ensures var after := AfterWrite(db, id, op, ifMatch, now);
            && OpError(op).None? && id in db.rows && id in after.rows
            && after.rows[id] == db.rows[id].(cols := Rewritten(db.rows[id].cols, op),
                                              version := db.rows[id].version + 1, updatedAt := now)
            && SameElsewhere(db, after, id) && after.inserts == db.inserts
            && after.commits == db.commits + [CommitEvent(id, db.rows[id].version, after.rows[id].cols)]
  {
  }

  /** After an accepted PUT the row in the table carries the request column by column, its name trimmed. */
  lemma PutStoresTheRequest(db: Db, id: Uuid, f: Profile, ifMatch: Option<int>, now: int,
                            left: string, core: string, right: string)
    requires WriteAnswer(db, id, Put(f), ifMatch).None?
    requires Padded(f.name, left, core, right) && Tight(core)
    ensures var after := AfterWrite(db, id, Put(f), ifMatch, now);
            id in after.rows && Carries(after.rows[id].cols, f, core)
  {
    WriteChangesOneRow(db, id, Put(f), ifMatch, now);
    PutWritesTheRequest(db.rows[id].cols, f, left, core, right);
  }

  /** What POST answers: the new row, the row an earlier POST made under the token, or an error. */
  datatype CreateAnswer = Fresh(id: Uuid) | Replay(id: Uuid) | Declined(error: DomainError)

  /** The tables after a POST: at most one new pending row, of an input that was accepted. */
  ghost function AfterCreate(db: Db, f: Profile, token: Option<string>, id: Uuid, now: int): Db {
    if ReplaceError(f).Some? then db else AfterInsert(db, id, ToColumns(Accepted(f)), 1, token, now, now)
  }

  ghost predicate CreateAnswers(db: Db, f: Profile, token: Option<string>, id: Uuid, answer: CreateAnswer) {
    if ReplaceError(f).Some? then answer == Declined(ReplaceError(f).value)
    else
      match InsertOutcome(db, id, ToColumns(Accepted(f)), token)
      case Inserted => answer == Fresh(id)
      case Failed(e) => answer == Declined(DomainErrorOf(e))
      case Conflict =>
        if exists h :: LiveHolder(db, h, token.value)
        then answer.Replay? && LiveHolder(db, answer.id, token.value)
        else answer == Declined(CreationTokenConsumed)
  }

  /** Some row holds the token, or one that is not deleted does. */
  ghost predicate Held(db: Db, token: Option<string>, live: bool) {
    token.Some? && exists h :: h in db.rows && db.rows[h].token == token && (live ==> db.rows[h].deletedAt.None?)
  }

  /**
   * How a POST ends: refused for its name, its gender or the constraints, answered by the live row of its token,
   * refused because only a deleted row has it, or else inserted unless the id is taken or the race is missing.
   */
  lemma CreateIsDecided(db: Db, f: Profile, token: Option<string>, id: Uuid, now: int, answer: CreateAnswer,
                        cols: Columns, left: string, core: string, right: string)
    requires CreateAnswers(db, f, token, id, answer)
    requires Padded(f.name, left, core, right) && Tight(core)
    requires cols == ToColumns(f.(name := core))
    ensures !answer.Fresh? ==> AfterCreate(db, f, token, id, now) == db
    ensures if !(1 <= |core| <= 100) then answer == Declined(InvalidName)
            else if !KnownGender(f.gender) then answer == Declined(InvalidGender)
            else if !ChecksPass(cols) then answer == Declined(Internal)
            else if Held(db, token, true)
            then answer.Replay? && answer.id in db.rows && db.rows[answer.id].token == token
                 && db.rows[answer.id].deletedAt.None?
            else if Held(db, token, false) then answer == Declined(CreationTokenConsumed)
            else if id in db.rows then answer == Declined(Internal)
            else if cols.raceId !in db.races then answer == Declined(RaceNotFound)
            else answer == Fresh(id)
  {
    PutIsRefusedIff(f, left, core, right);
    NamesCountByTheirCore(f.name, left, core, right);
    assert ReplaceError(f).None? ==> Accepted(f) == f.(name := core);
    assert TokenTaken(db, token) <==> Held(db, token, false) by {
      if TokenTaken(db, token) {
        var h :| HoldsToken(db, h, token.value);
      }
      if Held(db, token, false) {
        var h :| h in db.rows && db.rows[h].token == token;
        assert HoldsToken(db, h, token.value);
      }
    }
    if token.Some? {
      assert (exists h :: LiveHolder(db, h, token.value)) <==> Held(db, token, true) by {
        if Held(db, token, true) {
          var h :| h in db.rows && db.rows[h].token == token && db.rows[h].deletedAt.None?;
          assert LiveHolder(db, h, token.value);
        }
      }
    }
  }

  /** A fresh POST adds one pending row, at version 1 and under its token, that carries the request column by column. */
  lemma PostStoresTheRequest(db: Db, f: Profile, token: Option<string>, id: Uuid, now: int,
                             left: string, core: string, right: string)
    requires CreateAnswers(db, f, token, id, Fresh(id))
    requires Padded(f.name, left, core, right) && Tight(core)
    ensures var after := AfterCreate(db, f, token, id, now);
            && id !in db.rows && id in after.rows && SameElsewhere(db, after, id)
            && after.rows[id] == Row(after.rows[id].cols, 1, token, now, now, None, None)
            && Carries(after.rows[id].cols, f, core)
            && after.inserts == db.inserts + [InsertEvent(id, token, after.rows[id].cols)]
            && after.commits == db.commits
  {
    PutWritesTheRequest(ToColumns(f), f, left, core, right);
  }

  /** What an answer of `Save` makes POST answer. */
  function AnswerOf(saved: SaveResult, id: Uuid): CreateAnswer {
    match saved
    case Created => Fresh(id)
    case Replayed(holder, _) => Replay(holder)
    case TokenConsumed => Declined(CreationTokenConsumed)
    case SaveFailed(e) => Declined(DomainErrorOf(e))
  }

  /** With nothing between its two statements, `Save` under POST answers what POST may answer, and nothing else. */
  lemma SaveAloneIsCreate(db: Db, f: Profile, token: Option<string>, id: Uuid, now: int, answer: CreateAnswer)
    requires ReplaceError(f).None?
    ensures CreateAnswers(db, f, token, id, answer) <==>
              exists saved :: AnswerOf(saved, id) == answer
                && SaveAnswers(db, AfterCreate(db, f, token, id, now), id, ToColumns(Accepted(f)), token, saved)
  {
    var after, cols := AfterCreate(db, f, token, id, now), ToColumns(Accepted(f));
    if CreateAnswers(db, f, token, id, answer) {
      var saved :=
        match InsertOutcome(db, id, cols, token)
        case Inserted => Created
        case Failed(e) => SaveFailed(e)
        case Conflict => if answer.Replay? then Replayed(answer.id, db.rows[answer.id]) else TokenConsumed;
      assert SaveAnswers(db, after, id, cols, token, saved) && AnswerOf(saved, id) == answer;
    }
  }

  class CharacterService {
    const repo: CharacterRepository

    constructor (repo: CharacterRepository)
      ensures this.repo == repo
    {
      this.repo := repo;
    }

    /** POST: validates, then saves under a fresh id. The stored name is normal and the row is pending. */
    method Create(f: Profile, token: Option<string>, id: Uuid, now: int)
      returns (result: Result<Character, DomainError>)
      modifies repo.db
      ensures repo.db.View() == AfterCreate(old(repo.db.View()), f, token, id, now)
      ensures CreateAnswers(old(repo.db.View()), f, token, id,
                            if result.Err? then Declined(result.error)
                            else if result.value.replayed then Replay(result.value.id) else Fresh(result.value.id))
      ensures result.Ok? && !result.value.replayed ==>
                && result.value.business == f.(name := TrimSpace(f.name)) && result.value.raceName == ""
                && id in repo.db.rows && Carries(repo.db.rows[id].cols, f, TrimSpace(f.name))
      ensures result.Ok? && result.value.replayed ==> Shows(result.value, repo.db.View(), result.value.id)
    {
      var name := NormalizeName(f.name);
      if name.Err? {
        return Err(name.error);
      }
      if !ValidGender(f.gender) {
        return Err(InvalidGender);
      }
      var c := new Character(id, f.(name := name.value), "", 1, now, now, token);
      var err := repo.Save(c);
      if err.Some? {
        return Err(err.value);
      }
      return Ok(c);
    }

    /** PUT. */
    method Replace(id: Uuid, f: Profile, ifMatch: Option<int>, now: int)
      returns (result: Result<Character, DomainError>)
      modifies repo.db
      ensures repo.db.View() == AfterWrite(old(repo.db.View()), id, Put(f), ifMatch, now)
      ensures match WriteAnswer(old(repo.db.View()), id, Put(f), ifMatch)
              case Some(e) => result == Err(e)
              case None => result.Ok? && Shows(result.value, repo.db.View(), id)
      ensures result.Ok? ==>
                && id in old(repo.db.rows) && id in repo.db.rows && Carries(repo.db.rows[id].cols, f, TrimSpace(f.name))
                && (ifMatch.Some? ==> ifMatch.value == old(repo.db.rows)[id].version)
                && result.value.version == old(repo.db.rows)[id].version + 1 && result.value.updatedAt == now
                && result.value.business == f.(name := TrimSpace(f.name), birthDate := DatePtr(PgDate(f.birthDate)),
                                               bodyFat := NumericPtr(PgNumeric(f.bodyFat)))
    {
      var found := repo.FindByID(id);
      if found.Err? {
        return Err(found.error);
      }
      var c := found.value;
      var expected := if ifMatch.Some? then ifMatch.value else c.version;
      var err := c.Replace(f);
      if err.Some? {
        return Err(err.value);
      }
      result := repo.Update(c, Some(expected), now);
    }

    /** PATCH. A refusal leaves the stored row alone even where the record in memory is half merged. */
    method Update(id: Uuid, p: UpdateFields, ifMatch: Option<int>, now: int)
      returns (result: Result<Character, DomainError>)
      modifies repo.db
      ensures repo.db.View() == AfterWrite(old(repo.db.View()), id, Patch(p), ifMatch, now)
      ensures match WriteAnswer(old(repo.db.View()), id, Patch(p), ifMatch)
              case Some(e) => result == Err(e)
              case None => result.Ok? && Shows(result.value, repo.db.View(), id)
      ensures result.Ok? ==>
                && id in old(repo.db.rows)
                && (ifMatch.Some? ==> ifMatch.value == old(repo.db.rows)[id].version)
                && result.value.version == old(repo.db.rows)[id].version + 1 && result.value.updatedAt == now
    {
      var found := repo.FindByID(id);
      if found.Err? {
        return Err(found.error);
      }
      var c := found.value;
      var expected := if ifMatch.Some? then ifMatch.value else c.version;
      var err := c.Update(p);
      if err.Some? {
        return Err(err.value);
      }
      result := repo.Update(c, Some(expected), now);
    }

    method Delete(id: Uuid, now: int) returns (err: Option<DomainError>)
      modifies repo.db
      ensures repo.db.View() == AfterSoftDelete(old(repo.db.View()), id, None, now)
      ensures err == if id in old(repo.db.rows) && Visible(old(repo.db.rows)[id]) then None else Some(NotFound)
      ensures err.None? ==>
                && id in repo.db.rows
                && repo.db.rows[id] == old(repo.db.rows)[id].(deletedAt := Some(now), updatedAt := now)
                && SameElsewhere(old(repo.db.View()), repo.db.View(), id)
                && (Valid(old(repo.db.View())) ==> NeverVisibleAgain(repo.db.View(), id))
      ensures err.Some? ==> repo.db.View() == old(repo.db.View())
    {
      ghost var before := repo.db.View();
      err := repo.Delete(id, now);
      if err.None? && Valid(before) {
        DeleteIsFinal(before, id, None, now);
      }
    }
  }
}
