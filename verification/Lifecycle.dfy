/** Whole runs of the tables: what every state satisfies and what later states keep. */
module Lifecycle {
  import opened Basics
  import opened Convert
  import opened CharacterTable

  // ---------------------------------------------------------------- steps and runs

  /** One atomic statement or function call against the tables. */
  datatype Step =
    | Insert(id: Uuid, cols: Columns, token: Option<string>, at: int)
    | Update(id: Uuid, expected: Option<int>, cols: Columns, now: int)
    | SoftDelete(id: Uuid, expected: Option<int>, now: int)
    | Confirm(id: Uuid, now: int)
    | Gc(secs: int, now: int)
    | AddRace(race: Uuid, name: string)
    | DeleteRace(race: Uuid)

  ghost function Apply(db: Db, step: Step): Db {
    match step
    case Insert(id, cols, token, at) => AfterInsert(db, id, cols, 1, token, at, at)
    case Update(id, expected, cols, now) => AfterUpdate(db, id, expected, cols, now)
    case SoftDelete(id, expected, now) => AfterSoftDelete(db, id, expected, now)
    case Confirm(id, now) => AfterConfirm(db, id, now)
    case Gc(secs, now) => AfterGc(db, secs, now)
    case AddRace(race, name) =>
      if race in db.races || name in db.races.Values then db else db.(races := db.races[race := name])
    case DeleteRace(race) =>
      if RaceInUse(db, race) then db else db.(races := db.races - {race})
  }

  /** A race is added if its id and its name are new, and deleted if no row refers to it; rows are never touched. */
  lemma RacesChangeOnlySo(db: Db, race: Uuid, name: string)
    ensures var added, deleted := Apply(db, AddRace(race, name)), Apply(db, DeleteRace(race));
            && added == db.(races := added.races) && deleted == db.(races := deleted.races)
            && (added.races != db.races <==> race !in db.races && forall r :: r in db.races ==> db.races[r] != name)
            && (added.races != db.races ==> added.races == db.races[race := name])
            && (deleted.races != db.races ==> deleted.races == db.races - {race})
            && (race in deleted.races <==>
                  race in db.races && exists id :: id in db.rows && db.rows[id].cols.raceId == race)
  {
  }

  /** The id was inserted at some time. */
  predicate Issued(db: Db, id: Uuid) {
    id in db.rows || id in db.reclaimed
  }

  /** New ids are fresh. */
  predicate Legal(db: Db, step: Step) {
    step.Insert? ==> !Issued(db, step.id)
  }

  ghost function Run(db: Db, steps: seq<Step>): Db {
    if steps == [] then db else Apply(Run(db, steps[..|steps| - 1]), steps[|steps| - 1])
  }

  ghost predicate LegalRun(db: Db, steps: seq<Step>) {
    steps != [] ==>
      LegalRun(db, steps[..|steps| - 1]) && Legal(Run(db, steps[..|steps| - 1]), steps[|steps| - 1])
  }

  // ---------------------------------------------------------------- what every state satisfies

  /** Updates of `id` among the commits. */
  function CountFor(commits: seq<CommitEvent>, id: Uuid): nat {
    if commits == [] then 0
    else CountFor(commits[..|commits| - 1], id) + (if commits[|commits| - 1].id == id then 1 else 0)
  }

  /** The columns the last commit for `id` wrote, or `initial` before any. */
  function LastCols(commits: seq<CommitEvent>, id: Uuid, initial: Columns): Columns {
    if commits == [] then initial
    else
      var last := commits[|commits| - 1];
      if last.id == id then last.cols else LastCols(commits[..|commits| - 1], id, initial)
  }

  /** Deleted rows were confirmed, pending rows are at version 1, races exist, the constraints hold. */
  ghost predicate RowsOk(db: Db) {
    forall id :: id in db.rows ==>
      var r := db.rows[id];
      && (r.deletedAt.Some? ==> r.confirmedAt.Some?)
      && (Pending(r) ==> r.version == 1)
      && 1 <= r.version <= INT64_MAX
      && r.cols.raceId in db.races
      && ChecksPass(r.cols)
  }

  predicate WasInserted(inserts: seq<InsertEvent>, id: Uuid) {
    exists e :: e in inserts && e.id == id
  }

  /** Every issued id was inserted exactly once, and rows keep the token they were inserted with. */
  ghost predicate InsertsOk(db: Db) {
    && db.rows.Keys !! db.reclaimed
    && (forall i :: 0 <= i < |db.inserts| ==> Issued(db, db.inserts[i].id))
    && (forall i, j :: 0 <= i < j < |db.inserts| ==> db.inserts[i].id != db.inserts[j].id)
    && (forall i :: 0 <= i < |db.inserts| && db.inserts[i].id in db.rows ==>
          db.rows[db.inserts[i].id].token == db.inserts[i].token)
    && (forall id :: Issued(db, id) ==> WasInserted(db.inserts, id))
  }

  predicate SameToken(s: Option<string>, t: Option<string>) {
    s.Some? && s == t
  }

  /** Of two inserts under one token the earlier row is gone; so live tokens are unique. */
  ghost predicate TokensOk(db: Db) {
    && (forall i, j :: 0 <= i < j < |db.inserts| && SameToken(db.inserts[i].token, db.inserts[j].token) ==>
          db.inserts[i].id in db.reclaimed)
    && (forall a, b :: a in db.rows && b in db.rows && SameToken(db.rows[a].token, db.rows[b].token) ==> a == b)
  }

  /** Version accounting: a row's version and columns are those its commits add up to. */
  ghost predicate CommitsOk(db: Db) {
    && (forall k :: 0 <= k < |db.commits| ==>
          && db.commits[k].version == 1 + CountFor(db.commits[..k], db.commits[k].id)
          && db.commits[k].id in db.rows && !Pending(db.rows[db.commits[k].id]))
    && (forall id :: id in db.rows ==> db.rows[id].version == 1 + CountFor(db.commits, id))
    && (forall i :: 0 <= i < |db.inserts| && db.inserts[i].id in db.rows ==>
          db.rows[db.inserts[i].id].cols == LastCols(db.commits, db.inserts[i].id, db.inserts[i].cols))
  }

  ghost predicate Valid(db: Db) {
    RowsOk(db) && InsertsOk(db) && TokensOk(db) && CommitsOk(db)
  }

  // ---------------------------------------------------------------- what later states keep

  ghost predicate RowLater(r: Row, s: Row) {
    && s.token == r.token && s.createdAt == r.createdAt
    && (r.confirmedAt.Some? ==> s.confirmedAt == r.confirmedAt)
    && (r.deletedAt.Some? ==> s == r)
    && r.version <= s.version
    && (r.version == s.version ==> r.cols == s.cols)
  }

  /** Rows evolve or, while pending, are reclaimed for good; new rows have new ids; history grows. */
  ghost predicate Later(a: Db, b: Db) {
    && a.inserts <= b.inserts && a.commits <= b.commits && a.reclaimed <= b.reclaimed
    && (forall id :: id in a.rows ==>
          if id in b.rows then RowLater(a.rows[id], b.rows[id])
          else Pending(a.rows[id]) && id in b.reclaimed)
    && (forall id :: id in b.rows && id !in a.rows ==> !Issued(a, id))
  }

  lemma LaterIsTransitive(a: Db, b: Db, c: Db)
    requires Later(a, b) && Later(b, c)
    ensures Later(a, c)
  {
  }

  // ---------------------------------------------------------------- one step

  lemma CountForAbsent(commits: seq<CommitEvent>, id: Uuid)
    requires forall k :: 0 <= k < |commits| ==> commits[k].id != id
    ensures CountFor(commits, id) == 0
    ensures forall c :: LastCols(commits, id, c) == c
  {
  }

  /** Nothing is inserted, tokens stay, and removed rows count as reclaimed. */
  ghost predicate SameIdentities(a: Db, b: Db) {
    && b.inserts == a.inserts && a.reclaimed <= b.reclaimed
    && (a.rows.Keys !! a.reclaimed ==> b.rows.Keys !! b.reclaimed)
    && b.rows.Keys + b.reclaimed == a.rows.Keys + a.reclaimed
    && (forall id :: id in b.rows ==> id in a.rows && b.rows[id].token == a.rows[id].token)
  }

  /** Nothing is committed, versions and columns stay, and only pending rows are removed. */
  ghost predicate SameVersions(a: Db, b: Db) {
    && b.inserts == a.inserts && b.commits == a.commits
    && (forall id :: id in b.rows ==>
          id in a.rows && b.rows[id].version == a.rows[id].version && b.rows[id].cols == a.rows[id].cols)
    && (forall id :: id in a.rows && !Pending(a.rows[id]) ==> id in b.rows && !Pending(b.rows[id]))
  }

  lemma StepFrames(db: Db, step: Step)
    requires !step.Insert?
    ensures SameIdentities(db, Apply(db, step))
    ensures !step.Update? ==> SameVersions(db, Apply(db, step))
  {
  }

  lemma IdentityFrame(a: Db, b: Db)
    requires InsertsOk(a) && TokensOk(a) && SameIdentities(a, b)
    ensures InsertsOk(b) && TokensOk(b)
  {
  }

  lemma CommitsFrame(a: Db, b: Db)
    requires CommitsOk(a) && SameVersions(a, b)
    ensures CommitsOk(b)
  {
  }

  lemma InsertKeepsInserts(db: Db, step: Step)
    requires InsertsOk(db) && step.Insert? && Legal(db, step)
    ensures InsertsOk(Apply(db, step))
  {
    var after := Apply(db, step);
    if after != db {
      var event := InsertEvent(step.id, step.token, step.cols);
      assert after.inserts == db.inserts + [event];
      forall id | Issued(after, id)
        ensures WasInserted(after.inserts, id)
      {
        if id == step.id {
          assert event in after.inserts;
        } else {
          assert Issued(db, id);
          var e :| e in db.inserts && e.id == id;
          assert e in after.inserts;
        }
      }
    }
  }

  lemma InsertKeepsTokens(db: Db, step: Step)
    requires InsertsOk(db) && TokensOk(db) && step.Insert? && Legal(db, step)
    ensures TokensOk(Apply(db, step))
  {
    var after := Apply(db, step);
    if after != db && step.token.Some? {
      forall id | id in db.rows
        ensures db.rows[id].token != step.token
      {
        assert !HoldsToken(db, id, step.token.value);
      }
    }
  }

  lemma InsertKeepsCommits(db: Db, step: Step)
    requires CommitsOk(db) && InsertsOk(db) && step.Insert? && Legal(db, step)
    ensures CommitsOk(Apply(db, step))
  {
    CountForAbsent(db.commits, step.id);
  }

  lemma AppendCommit(commits: seq<CommitEvent>, event: CommitEvent, id: Uuid, initial: Columns)
    ensures CountFor(commits + [event], id) == CountFor(commits, id) + (if event.id == id then 1 else 0)
    ensures LastCols(commits + [event], id, initial) ==
              if event.id == id then event.cols else LastCols(commits, id, initial)
  {
  }

  lemma UpdateKeepsCommits(db: Db, step: Step)
    requires CommitsOk(db) && step.Update?
    ensures CommitsOk(Apply(db, step))
  {
    var after := Apply(db, step);
    if after != db {
      var event := CommitEvent(step.id, db.rows[step.id].version, step.cols);
      assert after.commits == db.commits + [event];
      forall k | 0 <= k < |after.commits|
        ensures after.commits[k].version == 1 + CountFor(after.commits[..k], after.commits[k].id)
        ensures after.commits[k].id in after.rows && !Pending(after.rows[after.commits[k].id])
      {
        assert after.commits[..k] == db.commits[..k];
        assert db.commits[..|db.commits|] == db.commits;
      }
      forall id | id in after.rows
        ensures after.rows[id].version == 1 + CountFor(after.commits, id)
      {
        AppendCommit(db.commits, event, id, step.cols);
      }
      forall i | 0 <= i < |after.inserts| && after.inserts[i].id in after.rows
        ensures after.rows[after.inserts[i].id].cols ==
                  LastCols(after.commits, after.inserts[i].id, after.inserts[i].cols)
      {
        AppendCommit(db.commits, event, after.inserts[i].id, after.inserts[i].cols);
      }
    }
  }

  lemma StepKeepsRows(db: Db, step: Step)
    requires RowsOk(db)
    ensures RowsOk(Apply(db, step))
  {
  }

  lemma StepIsLater(db: Db, step: Step)
    requires Legal(db, step)
    ensures Later(db, Apply(db, step))
  {
  }

  lemma StepKeepsHistory(db: Db, step: Step)
    requires InsertsOk(db) && TokensOk(db) && CommitsOk(db) && Legal(db, step)
    ensures InsertsOk(Apply(db, step)) && TokensOk(Apply(db, step)) && CommitsOk(Apply(db, step))
  {
    if step.Insert? {
      InsertKeepsInserts(db, step);
      InsertKeepsTokens(db, step);
      InsertKeepsCommits(db, step);
    } else {
      var after := Apply(db, step);
      StepFrames(db, step);
      IdentityFrame(db, after);
      if step.Update? {
        UpdateKeepsCommits(db, step);
      } else {
        CommitsFrame(db, after);
      }
    }
  }

  lemma StepKeeps(db: Db, step: Step)
    requires Valid(db) && Legal(db, step)
    ensures Valid(Apply(db, step)) && Later(db, Apply(db, step))
  {
    StepKeepsRows(db, step);
    StepKeepsHistory(db, step);
    StepIsLater(db, step);
  }

  // ---------------------------------------------------------------- whole runs

  /** The lifecycle invariant holds after every run, and every state is later than every state before it. */
  lemma {:induction false} RunKeeps(db: Db, steps: seq<Step>)
    requires Valid(db) && LegalRun(db, steps)
    ensures Valid(Run(db, steps)) && Later(db, Run(db, steps))
  {
    if steps != [] {
      var front := steps[..|steps| - 1];
      RunKeeps(db, front);
      StepKeeps(Run(db, front), steps[|steps| - 1]);
      LaterIsTransitive(db, Run(db, front), Run(db, steps));
    }
  }

}
