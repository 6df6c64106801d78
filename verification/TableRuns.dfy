/** Properties of whole runs: version accounting, token use, and operations split into two statements. */
module TableRuns {
  import opened Basics
  import opened CharacterDomain
  import opened Convert
  import opened CharacterTable
  import opened Lifecycle

  lemma {:induction false} RunConcat(db: Db, xs: seq<Step>, ys: seq<Step>)
    ensures Run(db, xs + ys) == Run(Run(db, xs), ys)
    ensures LegalRun(db, xs + ys) <==> LegalRun(db, xs) && LegalRun(Run(db, xs), ys)
  {
    if ys == [] {
      assert xs + ys == xs;
    } else {
      assert (xs + ys)[..|xs + ys| - 1] == xs + ys[..|ys| - 1];
      RunConcat(db, xs, ys[..|ys| - 1]);
    }
  }

  lemma RunOne(db: Db, step: Step)
    ensures Run(db, [step]) == Apply(db, step)
    ensures LegalRun(db, [step]) <==> Legal(db, step)
  {
  }

  /** Every state of every run from empty tables is valid, and later than every state before it. */
  lemma EveryRunIsValid(before: seq<Step>, after: seq<Step>)
    requires LegalRun(EMPTY_DB, before + after)
    ensures Valid(Run(EMPTY_DB, before)) && Valid(Run(EMPTY_DB, before + after))
    ensures Later(Run(EMPTY_DB, before), Run(EMPTY_DB, before + after))
  {
    RunConcat(EMPTY_DB, before, after);
    RunKeeps(EMPTY_DB, before);
    RunKeeps(Run(EMPTY_DB, before), after);
  }

  lemma StepThenRun(db: Db, step: Step, steps: seq<Step>)
    requires Valid(db) && Legal(db, step) && LegalRun(Apply(db, step), steps)
    ensures Later(db, Apply(db, step)) && Later(Apply(db, step), Run(Apply(db, step), steps))
    ensures Valid(Run(Apply(db, step), steps))
  {
    StepKeeps(db, step);
    RunKeeps(Apply(db, step), steps);
  }

  // ---------------------------------------------------------------- versions

  lemma {:induction false} CountGrows(commits: seq<CommitEvent>, i: nat, j: nat, id: Uuid)
    requires i <= j <= |commits|
    ensures CountFor(commits[..i], id) <= CountFor(commits[..j], id)
    ensures i < j && commits[i].id == id ==> CountFor(commits[..i], id) < CountFor(commits[..j], id)
  {
    if i < j {
      assert commits[..j][..j - 1] == commits[..j - 1];
      CountGrows(commits, i, j - 1, id);
    }
  }

  /** For each id and version at most one update ever commits against that version. */
  lemma OneCommitPerVersion(db: Db, i: nat, j: nat)
    requires Valid(db) && i < |db.commits| && j < |db.commits|
    requires db.commits[i].id == db.commits[j].id && db.commits[i].version == db.commits[j].version
    ensures i == j
  {
    var id := db.commits[i].id;
    if i < j {
      CountGrows(db.commits, i, j, id);
    } else if j < i {
      CountGrows(db.commits, j, i, id);
    }
  }

  /** A row's version is one more than its commits, and every commit of it found a lower one. */
  lemma VersionCountsCommits(db: Db, id: Uuid)
    requires Valid(db) && id in db.rows
    ensures db.rows[id].version == 1 + CountFor(db.commits, id)
    ensures forall k :: 0 <= k < |db.commits| && db.commits[k].id == id ==>
              1 <= db.commits[k].version < db.rows[id].version
  {
    assert db.commits[..|db.commits|] == db.commits;
    forall k | 0 <= k < |db.commits| && db.commits[k].id == id
      ensures 1 <= db.commits[k].version < db.rows[id].version
    {
      CountGrows(db.commits, k, |db.commits|, id);
    }
  }

  /** At any two moments of a run the same id at the same version carries the same columns. */
  lemma VersionDeterminesColumns(db: Db, steps: seq<Step>, id: Uuid)
    requires Valid(db) && LegalRun(db, steps)
    requires id in db.rows && id in Run(db, steps).rows
    ensures db.rows[id].version <= Run(db, steps).rows[id].version
    ensures db.rows[id].version == Run(db, steps).rows[id].version ==>
              db.rows[id].cols == Run(db, steps).rows[id].cols
  {
    RunKeeps(db, steps);
  }

  /** Confirming, deleting, reclaiming and race changes move neither a version nor a business column. */
  lemma OnlyUpdatesMoveVersions(db: Db, step: Step, id: Uuid)
    requires Legal(db, step) && id in db.rows && id in Apply(db, step).rows
    ensures Apply(db, step).rows[id].version ==
              db.rows[id].version + (if step.Update? && step.id == id && Apply(db, step) != db then 1 else 0)
    ensures step.Update? || Apply(db, step).rows[id].cols == db.rows[id].cols
  {
  }

  // ---------------------------------------------------------------- creation tokens

  /** Once a row is confirmed under a token, no insert under that token succeeds again, deleted or not. */
  lemma ConfirmedTokenIsClosed(db: Db, steps: seq<Step>, holder: Uuid, id: Uuid, cols: Columns, token: string)
    requires Valid(db) && LegalRun(db, steps)
    requires HoldsToken(db, holder, token) && !Pending(db.rows[holder])
    ensures InsertOutcome(Run(db, steps), id, cols, Some(token)) in {Conflict, Failed(Rejected)}
  {
    RunKeeps(db, steps);
    assert HoldsToken(Run(db, steps), holder, token);
  }

  /** At most one row per token is ever confirmed in a whole run. */
  lemma OneConfirmedRowPerToken(db: Db, steps: seq<Step>, a: Uuid, b: Uuid, token: string)
    requires Valid(db) && LegalRun(db, steps)
    requires HoldsToken(db, a, token) && !Pending(db.rows[a])
    requires HoldsToken(Run(db, steps), b, token) && !Pending(Run(db, steps).rows[b])
    ensures a == b
  {
    RunKeeps(db, steps);
    assert SameToken(Run(db, steps).rows[a].token, Run(db, steps).rows[b].token);
  }

  /** Two ids inserted under one token: the earlier row was reclaimed while pending. */
  lemma SecondInsertMeansReclaimed(db: Db, i: nat, j: nat, token: string)
    requires Valid(db) && i < j < |db.inserts|
    requires db.inserts[i].token == db.inserts[j].token == Some(token)
    ensures db.inserts[i].id in db.reclaimed && db.inserts[i].id !in db.rows
  {
  }

  // ---------------------------------------------------------------- Save in two statements

  datatype SaveResult = Created | Replayed(id: Uuid, row: Row) | TokenConsumed | SaveFailed(error: SqlError)

  /** What `Save` answers when its INSERT ran on `db1` and its lookup, if it came to one, on `db2`. */
  ghost predicate SaveAnswers(db1: Db, db2: Db, id: Uuid, cols: Columns, token: Option<string>, answer: SaveResult) {
    match InsertOutcome(db1, id, cols, token)
    case Failed(e) => answer == SaveFailed(e)
    case Inserted => answer == Created
    case Conflict =>
      if exists h :: LiveHolder(db2, h, token.value)
      then answer.Replayed? && LiveHolder(db2, answer.id, token.value) && answer.row == db2.rows[answer.id]
      else answer == TokenConsumed
  }

  /**
   * `Save` inserts exactly one pending row, or leaves the tables alone and returns the one live row holding the
   * token; it calls the token consumed only when each row that was in its way is deleted or reclaimed by then.
   */
  ghost predicate SaveKeepsItsWord(db1: Db, mid: Db, db2: Db, id: Uuid, token: Option<string>, answer: SaveResult) {
    && (answer.Created? ==> id in mid.rows && Pending(mid.rows[id]) && mid.rows - {id} == db1.rows)
    && (!answer.Created? ==> mid == db1)
    && (answer.Replayed? ==>
          token.Some? && forall h :: LiveHolder(db2, h, token.value) <==> h == answer.id)
    && (answer.TokenConsumed? ==>
          TokenTaken(db1, token) && forall h :: HoldsToken(db1, h, token.value) ==>
            h in db2.reclaimed || (h in db2.rows && db2.rows[h].deletedAt.Some?))
  }

  lemma SaveAnswersFit(db1: Db, mid: Db, db2: Db, id: Uuid, cols: Columns, token: Option<string>, at: int,
                       answer: SaveResult)
    requires mid == AfterInsert(db1, id, cols, 1, token, at, at) && !Issued(db1, id)
    requires Later(mid, db2) && TokensOk(db2)
    requires SaveAnswers(db1, db2, id, cols, token, answer)
    ensures SaveKeepsItsWord(db1, mid, db2, id, token, answer)
  {
    if answer.Replayed? {
      forall h | LiveHolder(db2, h, token.value) ensures h == answer.id {
        assert SameToken(db2.rows[h].token, db2.rows[answer.id].token);
      }
    }
    if answer.TokenConsumed? {
      forall h | HoldsToken(db1, h, token.value)
        ensures h in db2.reclaimed || (h in db2.rows && db2.rows[h].deletedAt.Some?)
      {
        assert !LiveHolder(db2, h, token.value);
      }
    }
  }

  lemma SaveSplit(db1: Db, id: Uuid, cols: Columns, token: Option<string>, at: int,
                  between: seq<Step>, answer: SaveResult)
    requires Valid(db1) && !Issued(db1, id)
    requires LegalRun(AfterInsert(db1, id, cols, 1, token, at, at), between)
    requires SaveAnswers(db1, Run(AfterInsert(db1, id, cols, 1, token, at, at), between), id, cols, token, answer)
    ensures SaveKeepsItsWord(db1, AfterInsert(db1, id, cols, 1, token, at, at),
                             Run(AfterInsert(db1, id, cols, 1, token, at, at), between), id, token, answer)
  {
    var mid := AfterInsert(db1, id, cols, 1, token, at, at);
    StepThenRun(db1, Insert(id, cols, token, at), between);
    SaveAnswersFit(db1, mid, Run(mid, between), id, cols, token, at, answer);
  }

  /** A concrete run in which the token is reported consumed although no row holding it was ever deleted. */
  lemma ConsumedMayMeanReclaimed(cols: Columns)
    requires ChecksPass(cols)
    ensures var before := [AddRace(cols.raceId, "elf"), Insert(1, cols, Some("key"), 0)];
            var db1 := Run(EMPTY_DB, before);
            var db2 := Run(db1, [Gc(1, 2_000_000)]);
            && LegalRun(EMPTY_DB, before) && LegalRun(db1, [Gc(1, 2_000_000)])
            && InsertOutcome(db1, 2, cols, Some("key")) == Conflict
            && SaveAnswers(db1, db2, 2, cols, Some("key"), TokenConsumed)
            && db2.rows == map[]
  {
    var race, first := AddRace(cols.raceId, "elf"), Insert(1, cols, Some("key"), 0);
    RunOne(EMPTY_DB, race);
    RunConcat(EMPTY_DB, [race], [first]);
    assert [race] + [first] == [race, first];
    var db0 := Apply(EMPTY_DB, race);
    RunOne(db0, first);
    var db1 := Apply(db0, first);
    assert HoldsToken(db1, 1, "key");
    RunOne(db1, Gc(1, 2_000_000));
  }

  /** However the statements of others come in between, "consumed" means that the row holding the token is deleted. */
  ghost predicate ConsumedMeansDeleted(db1: Db, id: Uuid, cols: Columns, token: string, holder: Uuid) {
    forall between ::
      LegalRun(db1, between) && SaveAnswers(db1, Run(db1, between), id, cols, Some(token), TokenConsumed) ==>
        holder in Run(db1, between).rows && Run(db1, between).rows[holder].deletedAt.Some?
  }

  lemma ConfirmedHolderIsDeleted(db1: Db, id: Uuid, cols: Columns, token: string, holder: Uuid)
    requires Valid(db1) && HoldsToken(db1, holder, token) && !Pending(db1.rows[holder])
    requires InsertOutcome(db1, id, cols, Some(token)) == Conflict
    ensures ConsumedMeansDeleted(db1, id, cols, token, holder)
  {
    forall between | LegalRun(db1, between)
                     && SaveAnswers(db1, Run(db1, between), id, cols, Some(token), TokenConsumed)
      ensures holder in Run(db1, between).rows && Run(db1, between).rows[holder].deletedAt.Some?
    {
      RunKeeps(db1, between);
      assert !LiveHolder(Run(db1, between), holder, token);
    }
  }

  lemma PendingHolderMayBeReclaimed(db1: Db, id: Uuid, cols: Columns, token: string, holder: Uuid)
    requires Valid(db1) && HoldsToken(db1, holder, token) && Pending(db1.rows[holder])
    requires InsertOutcome(db1, id, cols, Some(token)) == Conflict
    ensures !ConsumedMeansDeleted(db1, id, cols, token, holder)
  {
    var gc := Gc(1, db1.rows[holder].createdAt + 1_000_001);
    RunOne(db1, gc);
    var db2 := Run(db1, [gc]);
    forall h | HoldsToken(db1, h, token)
      ensures h == holder
    {
      assert SameToken(db1.rows[h].token, db1.rows[holder].token);
    }
    assert holder !in db2.rows;
    assert SaveAnswers(db1, db2, id, cols, Some(token), TokenConsumed);
  }

  /**
   * "Consumed" is sure to mean that the row in the way is deleted exactly when that row was confirmed as the INSERT
   * met it; a reservation may be reclaimed before the lookup.
   */
  lemma ConsumedMeansDeletedIff(db1: Db, id: Uuid, cols: Columns, token: string, holder: Uuid)
    requires Valid(db1) && HoldsToken(db1, holder, token)
    requires InsertOutcome(db1, id, cols, Some(token)) == Conflict
    ensures ConsumedMeansDeleted(db1, id, cols, token, holder) <==> !Pending(db1.rows[holder])
  {
    if Pending(db1.rows[holder]) {
      PendingHolderMayBeReclaimed(db1, id, cols, token, holder);
    } else {
      ConfirmedHolderIsDeleted(db1, id, cols, token, holder);
    }
  }

  // ---------------------------------------------------------------- Confirm in two statements

  /** confirm_character as one indivisible step. */
  function AtomicConfirm(db: Db, id: Uuid, now: int): Result<Row, SqlError> {
    if id in db.rows && db.rows[id].deletedAt.None? then Ok(AfterConfirm(db, id, now).rows[id])
    else Err(NoSuchCharacter)
  }

  /** Its answer when the UPDATE ran on `db1` and the fallback SELECT, if needed, on `db2`. */
  function SplitConfirm(db1: Db, db2: Db, id: Uuid, now: int): Result<Row, SqlError> {
    if Confirmable(db1, id) then Ok(AfterConfirm(db1, id, now).rows[id])
    else if id in db2.rows && Visible(db2.rows[id]) then Ok(db2.rows[id])
    else Err(NoSuchCharacter)
  }

  /** The call acts as the indivisible one at its UPDATE, or changes nothing and acts as the one at its SELECT. */
  ghost predicate ConfirmIsAtomic(db1: Db, db2: Db, id: Uuid, now: int) {
    var answer := SplitConfirm(db1, db2, id, now);
    || answer == AtomicConfirm(db1, id, now)
    || (AfterConfirm(db1, id, now) == db1 && AfterConfirm(db2, id, now) == db2
        && answer == AtomicConfirm(db2, id, now))
  }

  lemma ConfirmAnswersFit(db1: Db, db2: Db, id: Uuid, now: int)
    requires Later(AfterConfirm(db1, id, now), db2) && RowsOk(db1)
    ensures ConfirmIsAtomic(db1, db2, id, now)
  {
  }

  lemma ConfirmSplitIsAtomic(db1: Db, id: Uuid, now: int, between: seq<Step>)
    requires Valid(db1) && LegalRun(AfterConfirm(db1, id, now), between)
    ensures ConfirmIsAtomic(db1, Run(AfterConfirm(db1, id, now), between), id, now)
  {
    assert ConfirmIsAtomic(db1, Run(AfterConfirm(db1, id, now), between), id, now) by {
      StepThenRun(db1, Confirm(id, now), between);
      ConfirmAnswersFit(db1, Run(AfterConfirm(db1, id, now), between), id, now);
    }
  }

  ghost predicate NeverVisibleAgain(db: Db, id: Uuid) {
    forall more :: LegalRun(db, more) ==> !(id in Run(db, more).rows && Visible(Run(db, more).rows[id]))
  }

  lemma GoneForGood(db: Db, id: Uuid)
    requires Valid(db) && Issued(db, id)
    requires id in db.rows ==> db.rows[id].deletedAt.Some?
    ensures NeverVisibleAgain(db, id)
  {
    forall more | LegalRun(db, more)
      ensures !(id in Run(db, more).rows && Visible(Run(db, more).rows[id]))
    {
      RunKeeps(db, more);
    }
  }

  predicate PassesGuards(db: Db, id: Uuid, expected: Option<int>) {
    && id in db.rows && db.rows[id].confirmedAt.Some? && db.rows[id].deletedAt.None?
    && (expected.Some? ==> expected.value == db.rows[id].version)
  }

  /** A delete of a visible row of the expected version stamps that row; any other changes nothing at all. */
  lemma DeleteOnlyStamps(db: Db, id: Uuid, expected: Option<int>, now: int)
    ensures var after := Apply(db, SoftDelete(id, expected, now));
            if PassesGuards(db, id, expected)
            then
              && id in after.rows
              && after.rows[id] == db.rows[id].(deletedAt := Some(now), updatedAt := now)
              && SameElsewhere(db, after, id) && after.inserts == db.inserts && after.commits == db.commits
            else after == db
  {
  }

  /** A row once deleted is never visible again, whatever runs afterwards. */
  lemma DeleteIsFinal(db: Db, id: Uuid, expected: Option<int>, now: int)
    requires Valid(db) && PassesGuards(db, id, expected)
    ensures NeverVisibleAgain(Apply(db, SoftDelete(id, expected, now)), id)
  {
    StepKeeps(db, SoftDelete(id, expected, now));
    DeleteOnlyStamps(db, id, expected, now);
    GoneForGood(Apply(db, SoftDelete(id, expected, now)), id);
  }

  /** A confirm stamps a pending row and touches nothing else; of any other id it changes nothing at all. */
  lemma ConfirmOnlyStamps(db: Db, id: Uuid, now: int)
    ensures var after := Apply(db, Confirm(id, now));
            if id in db.rows && db.rows[id].confirmedAt.None? && db.rows[id].deletedAt.None?
            then
              && id in after.rows
              && after.rows[id] == db.rows[id].(confirmedAt := Some(now), updatedAt := now)
              && SameElsewhere(db, after, id) && after.inserts == db.inserts && after.commits == db.commits
            else after == db
  {
  }

  /** From any tables, a fresh id can be inserted and confirmed. */
  lemma FreshIdCanBecomeVisible(db: Db, id: Uuid) returns (more: seq<Step>)
    requires Valid(db) && !Issued(db, id)
    ensures LegalRun(db, more) && id in Run(db, more).rows && Visible(Run(db, more).rows[id])
  {
    var race: Uuid, withRace: Db := 0, db;
    more := [];
    if db.races == map[] {
      RunOne(db, AddRace(0, "elf"));
      more, withRace := [AddRace(0, "elf")], Apply(db, AddRace(0, "elf"));
    } else {
      race :| race in db.races;
    }
    var cols := Columns("n", None, race, "other", None, None, None, None, None, None, None, None);
    assert "other" == ALL_GENDERS[2];
    var insert, confirm := Insert(id, cols, None, 0), Confirm(id, 0);
    var inserted := Apply(withRace, insert);
    RunOne(withRace, insert);
    RunOne(inserted, confirm);
    RunConcat(db, more, [insert]);
    RunConcat(db, more + [insert], [confirm]);
    more := more + [insert] + [confirm];
  }

  lemma MissedConfirmOfIssuedId(db1: Db, db2: Db, id: Uuid, now: int)
    requires Later(AfterConfirm(db1, id, now), db2) && RowsOk(db1)
    requires SplitConfirm(db1, db2, id, now).Err? && Issued(db1, id)
    requires db2.rows.Keys !! db2.reclaimed
    ensures Issued(db2, id) && !Confirmable(db2, id)
  {
  }

  /**
   * A 404 of confirm is final for every id issued before the call. In general it is final exactly when, at the
   * SELECT, the id has been issued and is not a reservation waiting to be confirmed.
   */
  lemma Confirm404IsFinalIff(db1: Db, id: Uuid, now: int, between: seq<Step>)
    requires Valid(db1) && LegalRun(AfterConfirm(db1, id, now), between)
    requires SplitConfirm(db1, Run(AfterConfirm(db1, id, now), between), id, now).Err?
    ensures var db2 := Run(AfterConfirm(db1, id, now), between);
            && (Issued(db1, id) ==> NeverVisibleAgain(db2, id))
            && (NeverVisibleAgain(db2, id) <==> Issued(db2, id) && !Confirmable(db2, id))
  {
    var mid := AfterConfirm(db1, id, now);
    var db2 := Run(mid, between);
    assert Valid(db2) && (Issued(db1, id) ==> Issued(db2, id) && !Confirmable(db2, id)) by {
      StepThenRun(db1, Confirm(id, now), between);
      if Issued(db1, id) {
        MissedConfirmOfIssuedId(db1, db2, id, now);
      }
    }
    if !Issued(db2, id) {
      var more := FreshIdCanBecomeVisible(db2, id);
    } else if Confirmable(db2, id) {
      RunOne(db2, Confirm(id, now));
      assert Visible(Run(db2, [Confirm(id, now)]).rows[id]);
    } else {
      GoneForGood(db2, id);
    }
  }
}
