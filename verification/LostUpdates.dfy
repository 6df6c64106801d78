/** PUT and PATCH as two database steps with a merge in memory between them, interleaved with everything else. */
module LostUpdates {
  import opened Basics
  import opened CharacterDomain
  import opened Convert
  import opened CharacterTable
  import opened Lifecycle
  import opened TableRuns
  import opened Service

  type RequestId = nat

  /** A request between its read and its write, or answered. */
  datatype Call =
    | Loaded(id: Uuid, op: Op, ifMatch: Option<int>, expected: int, snapshot: Columns, readVersion: int)
    | Answered(committed: bool, id: Uuid, op: Op, ifMatch: Option<int>)

  datatype Logged = Logged(request: RequestId, id: Uuid, op: Op, ifMatch: Option<int>)

  /** `log`: the successful writes in commit order; `shown`: the versions responses have carried, by id. */
  datatype Sys = Sys(db: Db, calls: map<RequestId, Call>, log: seq<Logged>, shown: set<(Uuid, int)>)

  const START := Sys(EMPTY_DB, map[], [], {})

  datatype Action =
    | Begin(request: RequestId, id: Uuid, op: Op, ifMatch: Option<int>)
    | Commit(request: RequestId, now: int)
    | Respond(id: Uuid)
    | Other(step: Step)

  predicate NamesAll(p: UpdateFields) {
    && p.name.Some? && p.description.Some? && p.raceId.Some? && p.gender.Some?
    && p.birthDate.Some? && p.birthPlace.Some? && p.heightCm.Some? && p.weightKg.Some?
    && p.bodyFat.Some? && p.sizeTop.Some? && p.sizeMiddle.Some? && p.sizeBottom.Some?
  }

  /** The write sets every column: a PUT, or a PATCH that names all twelve fields. */
  predicate SetsEverything(op: Op) {
    op.Put? || NamesAll(op.p)
  }

  /** What a caller can tell from the row as read: the supplied version cannot make the merge out of date. */
  predicate SafeToExpect(version: int, cols: Columns, op: Op, v: int)
    requires OpError(op).None?
  {
    v <= version || v == INT64_MAX || SetsEverything(op) || !ChecksPass(Rewritten(cols, op))
  }

  /**
   * If-Match is omitted, repeats a version some earlier response showed for that id, or is safe to expect of the row
   * as it is.
   */
  ghost predicate Allowed(s: Sys, a: Action) {
    match a
    case Begin(request, id, op, ifMatch) =>
      && request !in s.calls
      && (ifMatch.Some? && id in s.db.rows && OpError(op).None? ==>
            || (id, ifMatch.value) in s.shown
            || SafeToExpect(s.db.rows[id].version, s.db.rows[id].cols, op, ifMatch.value))
    case Commit(request, _) => request in s.calls && s.calls[request].Loaded?
    case Respond(id) => id in s.db.rows
    case Other(step) => Legal(s.db, step) && !step.Update?
  }

  /** The read, the merge and its refusals; the merged columns are a function of what is remembered here. */
  function AfterBegin(s: Sys, request: RequestId, id: Uuid, op: Op, ifMatch: Option<int>): Sys {
    if id !in s.db.rows || !Visible(s.db.rows[id]) || OpError(op).Some?
    then s.(calls := s.calls[request := Answered(false, id, op, ifMatch)])
    else
      var row := s.db.rows[id];
      var expected := Expected(ifMatch, row.version);
      s.(calls := s.calls[request := Loaded(id, op, ifMatch, expected, row.cols, row.version)])
  }

  function AfterCommit(s: Sys, request: RequestId, now: int): Sys
    requires request in s.calls && s.calls[request].Loaded? && OpError(s.calls[request].op).None?
  {
    var c := s.calls[request];
    var cols := Rewritten(c.snapshot, c.op);
    if UpdateError(s.db, c.id, Some(c.expected), cols).Some?
    then s.(calls := s.calls[request := Answered(false, c.id, c.op, c.ifMatch)])
    else
      Sys(AfterUpdate(s.db, c.id, Some(c.expected), cols, now),
          s.calls[request := Answered(true, c.id, c.op, c.ifMatch)],
          s.log + [Logged(request, c.id, c.op, c.ifMatch)], s.shown + {(c.id, s.db.rows[c.id].version + 1)})
  }

  /** A loaded request's write was accepted when it was merged, so the guard in the commit case never acts. */
  ghost function Next(s: Sys, a: Action): Sys
    requires Allowed(s, a)
  {
    match a
    case Begin(request, id, op, ifMatch) => AfterBegin(s, request, id, op, ifMatch)
    case Commit(request, now) => if OpError(s.calls[request].op).Some? then s else AfterCommit(s, request, now)
    case Respond(id) => s.(shown := s.shown + {(id, s.db.rows[id].version)})
    case Other(step) => s.(db := Apply(s.db, step))
  }

  ghost predicate Reaches(s: Sys, actions: seq<Action>, t: Sys)
    decreases |actions|
  {
    if actions == [] then s == t
    else Allowed(s, actions[0]) && Reaches(Next(s, actions[0]), actions[1..], t)
  }

  // ---------------------------------------------------------------- the fold

  predicate LogOk(log: seq<Logged>) {
    forall k :: 0 <= k < |log| ==> OpError(log[k].op).None?
  }

  /** The columns of `id` after the logged writes to it, applied one after the other to `initial`. */
  function FoldLog(initial: Columns, log: seq<Logged>, id: Uuid): Columns
    requires LogOk(log)
  {
    if log == [] then initial
    else
      var before := FoldLog(initial, log[..|log| - 1], id);
      var last := log[|log| - 1];
      if last.id == id then Rewritten(before, last.op) else before
  }

  lemma FoldAppend(initial: Columns, log: seq<Logged>, last: Logged, id: Uuid)
    requires LogOk(log + [last])
    ensures LogOk(log)
    ensures FoldLog(initial, log + [last], id) ==
              if last.id == id then Rewritten(FoldLog(initial, log, id), last.op) else FoldLog(initial, log, id)
  {
    assert (log + [last])[..|log|] == log;
    assert forall k :: 0 <= k < |log| ==> log[k] == (log + [last])[k];
  }

  lemma {:induction false} FoldAbsent(initial: Columns, log: seq<Logged>, id: Uuid)
    requires LogOk(log) && forall k :: 0 <= k < |log| ==> log[k].id != id
    ensures FoldLog(initial, log, id) == initial
  {
    if log != [] {
      FoldAbsent(initial, log[..|log| - 1], id);
    }
  }

  // ---------------------------------------------------------------- the invariant

  /** A version once shown is never above the row's. */
  ghost predicate ShownOk(s: Sys) {
    forall p :: p in s.shown ==> Issued(s.db, p.0) && (p.0 in s.db.rows ==> p.1 <= s.db.rows[p.0].version)
  }

  /**
   * A loaded request read a confirmed row and expects what was supplied or else read, which is safe as of its read;
   * what it read is current or out of date by version.
   */
  ghost predicate CallOk(db: Db, c: Call) {
    c.Loaded? ==>
      && c.expected == (if c.ifMatch.Some? then c.ifMatch.value else c.readVersion)
      && OpError(c.op).None? && SafeToExpect(c.readVersion, c.snapshot, c.op, c.expected)
      && c.id in db.rows && !Pending(db.rows[c.id])
      && c.readVersion <= db.rows[c.id].version
      && (c.readVersion == db.rows[c.id].version ==> c.snapshot == db.rows[c.id].cols)
  }

  ghost predicate CallsOk(s: Sys) {
    forall r :: r in s.calls ==> CallOk(s.db, s.calls[r])
  }

  ghost predicate FoldOk(s: Sys) {
    && LogOk(s.log)
    && (forall k :: 0 <= k < |s.log| ==> Issued(s.db, s.log[k].id))
    && (forall i :: 0 <= i < |s.db.inserts| && s.db.inserts[i].id in s.db.rows ==>
          s.db.rows[s.db.inserts[i].id].cols == FoldLog(s.db.inserts[i].cols, s.log, s.db.inserts[i].id))
  }

  predicate Committed(c: Call) {
    c.Answered? && c.committed
  }

  /** The acknowledged writes are exactly the logged ones, with their row and what they asked for, each logged once. */
  ghost predicate AcknowledgedOk(s: Sys) {
    && (forall k :: 0 <= k < |s.log| ==>
          var e := s.log[k]; e.request in s.calls && s.calls[e.request] == Answered(true, e.id, e.op, e.ifMatch))
    && (forall r :: r in s.calls && Committed(s.calls[r]) ==> exists e :: e in s.log && e.request == r)
    && (forall j, k :: 0 <= j < k < |s.log| ==> s.log[j].request != s.log[k].request)
  }

  /**
   * The update committed k-th is that of the k-th entry; it found the version the request supplied, if it supplied
   * one, and it wrote what the log up to there adds up to.
   */
  ghost predicate HistoryOk(s: Sys)
    requires LogOk(s.log)
  {
    && |s.log| == |s.db.commits|
    && (forall k :: 0 <= k < |s.log| ==> s.log[k].id == s.db.commits[k].id)
    && (forall k :: 0 <= k < |s.log| && s.log[k].ifMatch.Some? ==> s.log[k].ifMatch.value == s.db.commits[k].version)
    && (forall i, k :: 0 <= i < |s.db.inserts| && 0 <= k < |s.log| && s.db.inserts[i].id == s.log[k].id ==>
          s.db.commits[k].cols == FoldLog(s.db.inserts[i].cols, s.log[..k + 1], s.log[k].id))
  }

  ghost predicate Inv(s: Sys) {
    Valid(s.db) && ShownOk(s) && CallsOk(s) && FoldOk(s) && HistoryOk(s) && AcknowledgedOk(s)
  }

  lemma LaterKeepsCalls(s: Sys, db: Db)
    requires Later(s.db, db) && ShownOk(s) && CallsOk(s)
    ensures ShownOk(s.(db := db)) && CallsOk(s.(db := db))
  {
  }

  lemma OtherKeepsFold(s: Sys, step: Step)
    requires FoldOk(s) && InsertsOk(s.db) && Legal(s.db, step) && !step.Update?
    ensures FoldOk(s.(db := Apply(s.db, step)))
  {
    var after := Apply(s.db, step);
    forall id | id in s.db.rows && id in after.rows
      ensures after.rows[id].cols == s.db.rows[id].cols
    {
      OnlyUpdatesMoveVersions(s.db, step, id);
    }
    if step.Insert? && after != s.db {
      FoldAbsent(step.cols, s.log, step.id);
    }
  }

  lemma OtherKeepsHistory(s: Sys, step: Step)
    requires FoldOk(s) && HistoryOk(s) && Legal(s.db, step) && !step.Update?
    ensures LogOk(s.log) && HistoryOk(s.(db := Apply(s.db, step)))
  {
  }

  lemma OtherKeeps(s: Sys, step: Step)
    requires Inv(s) && Legal(s.db, step) && !step.Update?
    ensures Inv(s.(db := Apply(s.db, step)))
  {
    StepKeeps(s.db, step);
    LaterKeepsCalls(s, Apply(s.db, step));
    OtherKeepsFold(s, step);
    OtherKeepsHistory(s, step);
  }

  lemma SetsEverythingAlike(c: Columns, d: Columns, op: Op)
    requires OpError(op).None? && SetsEverything(op)
    ensures Rewritten(c, op) == Rewritten(d, op)
  {
  }

  /** A loaded write that passes its guards writes what it would have merged from the row as it is now. */
  lemma PassingWriteIsCurrent(db: Db, c: Call)
    requires c.Loaded? && CallOk(db, c) && UpdateError(db, c.id, Some(c.expected), Rewritten(c.snapshot, c.op)).None?
    ensures Rewritten(c.snapshot, c.op) == Rewritten(db.rows[c.id].cols, c.op)
  {
    if SetsEverything(c.op) {
      SetsEverythingAlike(c.snapshot, db.rows[c.id].cols, c.op);
    }
  }

  lemma CommitKeepsFold(s: Sys, request: RequestId, now: int)
    requires FoldOk(s) && CallsOk(s) && request in s.calls && s.calls[request].Loaded?
    ensures FoldOk(AfterCommit(s, request, now))
  {
    var c := s.calls[request];
    var t := AfterCommit(s, request, now);
    if t.db != s.db {
      var last := Logged(request, c.id, c.op, c.ifMatch);
      assert t.log == s.log + [last];
      PassingWriteIsCurrent(s.db, c);
      forall i | 0 <= i < |t.db.inserts| && t.db.inserts[i].id in t.db.rows
        ensures t.db.rows[t.db.inserts[i].id].cols == FoldLog(t.db.inserts[i].cols, t.log, t.db.inserts[i].id)
      {
        FoldAppend(t.db.inserts[i].cols, s.log, last, t.db.inserts[i].id);
      }
    }
  }

  lemma CommitKeepsHistory(s: Sys, request: RequestId, now: int)
    requires FoldOk(s) && HistoryOk(s) && CallsOk(s) && request in s.calls && s.calls[request].Loaded?
    ensures LogOk(AfterCommit(s, request, now).log) && HistoryOk(AfterCommit(s, request, now))
  {
    var c := s.calls[request];
    var t := AfterCommit(s, request, now);
    if t.db != s.db {
      var last := Logged(request, c.id, c.op, c.ifMatch);
      assert t.log == s.log + [last];
      PassingWriteIsCurrent(s.db, c);
      forall i, k | 0 <= i < |t.db.inserts| && 0 <= k < |t.log| && t.db.inserts[i].id == t.log[k].id
        ensures t.db.commits[k].cols == FoldLog(t.db.inserts[i].cols, t.log[..k + 1], t.log[k].id)
      {
        if k < |s.log| {
          assert t.log[..k + 1] == s.log[..k + 1];
        } else {
          assert t.log[..k + 1] == t.log;
          FoldAppend(t.db.inserts[i].cols, s.log, last, c.id);
        }
      }
    }
  }

  lemma CommitKeepsAcknowledged(s: Sys, request: RequestId, now: int)
    requires AcknowledgedOk(s) && CallsOk(s) && request in s.calls && s.calls[request].Loaded?
    ensures AcknowledgedOk(AfterCommit(s, request, now))
  {
    var c := s.calls[request];
    var t := AfterCommit(s, request, now);
    if t.db != s.db {
      var last := Logged(request, c.id, c.op, c.ifMatch);
      assert t.log == s.log + [last];
      forall r | r in t.calls && Committed(t.calls[r])
        ensures exists e :: e in t.log && e.request == r
      {
        if r == request {
          assert last in t.log;
        } else {
          var e :| e in s.log && e.request == r;
          assert e in t.log;
        }
      }
    }
  }

  lemma CommitKeepsCalls(s: Sys, request: RequestId, now: int)
    requires ShownOk(s) && CallsOk(s) && request in s.calls && s.calls[request].Loaded?
    ensures ShownOk(AfterCommit(s, request, now)) && CallsOk(AfterCommit(s, request, now))
  {
  }

  lemma CommitKeepsTables(s: Sys, request: RequestId, now: int)
    requires Valid(s.db) && CallsOk(s) && request in s.calls && s.calls[request].Loaded?
    ensures Valid(AfterCommit(s, request, now).db)
  {
    var c := s.calls[request];
    StepKeeps(s.db, Update(c.id, Some(c.expected), Rewritten(c.snapshot, c.op), now));
  }

  lemma BeginKeepsCalls(s: Sys, request: RequestId, id: Uuid, op: Op, ifMatch: Option<int>)
    requires ShownOk(s) && CallsOk(s) && AcknowledgedOk(s) && Allowed(s, Begin(request, id, op, ifMatch))
    ensures CallsOk(AfterBegin(s, request, id, op, ifMatch))
    ensures AcknowledgedOk(AfterBegin(s, request, id, op, ifMatch))
  {
  }

  lemma BeginKeeps(s: Sys, request: RequestId, id: Uuid, op: Op, ifMatch: Option<int>)
    requires Inv(s) && Allowed(s, Begin(request, id, op, ifMatch))
    ensures Inv(AfterBegin(s, request, id, op, ifMatch))
  {
    BeginKeepsCalls(s, request, id, op, ifMatch);
  }

  lemma RespondKeeps(s: Sys, id: Uuid)
    requires Inv(s) && id in s.db.rows
    ensures Inv(s.(shown := s.shown + {(id, s.db.rows[id].version)}))
  {
  }

  lemma CommitKeeps(s: Sys, request: RequestId, now: int)
    requires Inv(s) && request in s.calls && s.calls[request].Loaded?
    ensures Inv(AfterCommit(s, request, now))
  {
    CommitKeepsTables(s, request, now);
    CommitKeepsCalls(s, request, now);
    CommitKeepsFold(s, request, now);
    CommitKeepsHistory(s, request, now);
    CommitKeepsAcknowledged(s, request, now);
  }

  lemma NextKeeps(s: Sys, a: Action)
    requires Inv(s) && Allowed(s, a)
    ensures Inv(Next(s, a))
  {
    match a
    case Begin(request, id, op, ifMatch) => BeginKeeps(s, request, id, op, ifMatch);
    case Commit(request, now) => CommitKeeps(s, request, now);
    case Respond(id) => RespondKeeps(s, id);
    case Other(step) => OtherKeeps(s, step);
  }

  lemma {:induction false} ReachableKeeps(s: Sys, actions: seq<Action>, t: Sys)
    requires Inv(s) && Reaches(s, actions, t)
    ensures Inv(t)
    decreases |actions|
  {
    if actions != [] {
      NextKeeps(s, actions[0]);
      ReachableKeeps(Next(s, actions[0]), actions[1..], t);
    }
  }

  /**
   * No lost updates: in every interleaving of PUTs and PATCHes with confirms, deletes, GC, creations and reads, the
   * columns of every row are the inserted ones with the acknowledged writes applied in commit order, each once;
   * each commit wrote what the writes acknowledged up to it add up to, and found the version its request supplied.
   */
  lemma NoLostUpdates(actions: seq<Action>, t: Sys)
    requires Reaches(START, actions, t)
    ensures FoldOk(t) && HistoryOk(t) && AcknowledgedOk(t) && CallsOk(t)
  {
    ReachableKeeps(START, actions, t);
  }

  /** A read that finds no visible row, or input that is refused, ends the request; else the row is kept as read. */
  lemma ReadIsDecided(s: Sys, request: RequestId, id: Uuid, op: Op, ifMatch: Option<int>)
    ensures var t := AfterBegin(s, request, id, op, ifMatch);
            && t == s.(calls := t.calls) && request in t.calls
            && if id in s.db.rows && s.db.rows[id].confirmedAt.Some? && s.db.rows[id].deletedAt.None?
                  && OpError(op).None?
               then t.calls[request].Loaded? && t.calls[request].snapshot == s.db.rows[id].cols
                    && t.calls[request].readVersion == s.db.rows[id].version
                    && t.calls[request].op == op && t.calls[request].ifMatch == ifMatch
               else t.calls[request] == Answered(false, id, op, ifMatch)
  {
  }

  /** With nothing in between, the two steps are the use case of the service: same tables, same verdict. */
  lemma AloneIsTheUseCase(s: Sys, request: RequestId, id: Uuid, op: Op, ifMatch: Option<int>, now: int)
    requires Allowed(s, Begin(request, id, op, ifMatch))
    ensures var loaded := AfterBegin(s, request, id, op, ifMatch);
            var done := if loaded.calls[request].Loaded? then AfterCommit(loaded, request, now) else loaded;
            && done.db == AfterWrite(s.db, id, op, ifMatch, now)
            && done.calls[request] == Answered(WriteAnswer(s.db, id, op, ifMatch).None?, id, op, ifMatch)
  {
  }

  /** A normalized name, a known gender, and NULL for every optional text that is not set. */
  predicate NormalColumns(c: Columns) {
    NormalName(c.name) && ValidGender(c.gender) && NormalText(c)
  }

  /** What POST inserts is normal. */
  lemma CreatedColumnsAreNormal(f: Profile)
    requires ReplaceError(f).None?
    ensures NormalColumns(ToColumns(Accepted(f)))
  {
    NormalizedNamesAreFixed(f.name);
  }

  lemma {:induction false} FoldStaysNormal(initial: Columns, log: seq<Logged>, id: Uuid)
    requires LogOk(log) && NormalColumns(initial)
    ensures NormalColumns(FoldLog(initial, log, id))
  {
    if log != [] {
      FoldStaysNormal(initial, log[..|log| - 1], id);
      RewrittenIsNormal(FoldLog(initial, log[..|log| - 1], id), log[|log| - 1].op);
    }
  }

  /** In every run a row inserted in normal form is still in normal form, so a read and write-back changes nothing. */
  lemma RowsStayNormal(actions: seq<Action>, t: Sys, i: nat)
    requires Reaches(START, actions, t)
    requires i < |t.db.inserts| && NormalColumns(t.db.inserts[i].cols) && t.db.inserts[i].id in t.db.rows
    ensures NormalColumns(t.db.rows[t.db.inserts[i].id].cols)
    ensures var c := t.db.rows[t.db.inserts[i].id].cols; ToColumns(FromColumns(c)) == c
  {
    NoLostUpdates(actions, t);
    FoldStaysNormal(t.db.inserts[i].cols, t.log, t.db.inserts[i].id);
    RowRoundTripIff(t.db.rows[t.db.inserts[i].id].cols);
  }

  // ---------------------------------------------------------------- supplied versions

  /**
   * Whatever runs between the read of a row and a write merged from it that expects version `v`: if the write passes
   * its guards, it writes what it would have merged from the row as it is by then, so nothing is lost.
   */
  ghost predicate SureToKeepFold(db: Db, id: Uuid, op: Op, v: Int64)
    requires id in db.rows && OpError(op).None?
  {
    var written := Rewritten(db.rows[id].cols, op);
    forall more :: LegalRun(db, more) && UpdateError(Run(db, more), id, Some(v), written).None? ==>
      written == Rewritten(Run(db, more).rows[id].cols, op)
  }

  /** Any columns the constraints allow can become current at any higher version. */
  lemma {:induction false} VersionCanReach(db: Db, id: Uuid, v: Int64, cols: Columns) returns (more: seq<Step>)
    requires Valid(db) && id in db.rows && Visible(db.rows[id]) && db.rows[id].version < v
    requires ChecksPass(cols) && cols.raceId in db.races
    ensures LegalRun(db, more) && id in Run(db, more).rows && Visible(Run(db, more).rows[id])
    ensures Run(db, more).rows[id].version == v && Run(db, more).rows[id].cols == cols
    ensures Run(db, more).races == db.races
    decreases v
  {
    var step := Update(id, None, cols, 0);
    if db.rows[id].version == v - 1 {
      RunOne(db, step);
      more := [step];
    } else {
      var front := VersionCanReach(db, id, v - 1, cols);
      RunConcat(db, front, [step]);
      RunOne(Run(db, front), step);
      more := front + [step];
    }
  }

  lemma SafeVersionsKeepFold(db: Db, id: Uuid, op: Op, v: Int64)
    requires Valid(db) && id in db.rows && OpError(op).None?
    requires SafeToExpect(db.rows[id].version, db.rows[id].cols, op, v)
    ensures SureToKeepFold(db, id, op, v)
  {
    var written := Rewritten(db.rows[id].cols, op);
    forall more | LegalRun(db, more) && UpdateError(Run(db, more), id, Some(v), written).None?
      ensures written == Rewritten(Run(db, more).rows[id].cols, op)
    {
      VersionDeterminesColumns(db, more, id);
      if SetsEverything(op) {
        SetsEverythingAlike(db.rows[id].cols, Run(db, more).rows[id].cols, op);
      }
    }
  }

  lemma LongerThanAll(names: set<string>) returns (name: string)
    ensures forall x :: x in names ==> |x| < |name|
    decreases names
  {
    name := "x";
    if x :| x in names {
      name := LongerThanAll(names - {x});
      name := if |name| <= |x| then x + "x" else name;
    }
  }

  /** Any race can be made to exist without touching a row. */
  lemma RaceCanExist(db: Db, race: Uuid) returns (more: seq<Step>)
    ensures LegalRun(db, more) && Run(db, more) == db.(races := Run(db, more).races)
    ensures Run(db, more).races.Keys == db.races.Keys + {race}
  {
    more := [];
    if race !in db.races {
      var name := LongerThanAll(db.races.Values);
      more := [AddRace(race, name)];
      RunOne(db, more[0]);
    }
  }

  function OtherText(t: Option<string>): Option<string> {
    if t.Some? && t.value != "" then None else Some("x")
  }

  function Other<T>(x: Option<T>, some: T): Option<T> {
    if x.None? then Some(some) else None
  }

  /** The row with every column changed that the PATCH does not name. */
  function Disturbed(c: Columns, p: UpdateFields, race: Uuid): Columns {
    Columns(
      if p.name.Some? then c.name else if c.name == "a" then "b" else "a",
      if p.description.Some? then c.description else OtherText(c.description),
      if p.raceId.Some? then c.raceId else race,
      if p.gender.Some? then c.gender else if c.gender == ALL_GENDERS[0] then ALL_GENDERS[1] else ALL_GENDERS[0],
      if p.birthDate.Some? then c.birthDate else Other(c.birthDate, 0),
      if p.birthPlace.Some? then c.birthPlace else OtherText(c.birthPlace),
      if p.heightCm.Some? then c.heightCm else Other(c.heightCm, 1),
      if p.weightKg.Some? then c.weightKg else Other(c.weightKg, 1),
      if p.bodyFat.Some? then c.bodyFat else Other(c.bodyFat, 0),
      if p.sizeTop.Some? then c.sizeTop else Other(c.sizeTop, 1),
      if p.sizeMiddle.Some? then c.sizeMiddle else Other(c.sizeMiddle, 1),
      if p.sizeBottom.Some? then c.sizeBottom else Other(c.sizeBottom, 1))
  }

  lemma DisturbedIsAllowed(c: Columns, p: UpdateFields, race: Uuid)
    requires ChecksPass(c)
    ensures ChecksPass(Disturbed(c, p, race))
  {
  }

  /** A PATCH that leaves some column alone writes a different row from a disturbed one. */
  lemma DisturbedMergesOtherwise(c: Columns, p: UpdateFields, race: Uuid)
    requires PatchError(p).None? && !SetsEverything(Patch(p)) && race != c.raceId
    ensures Rewritten(Disturbed(c, p, race), Patch(p)) != Rewritten(c, Patch(p))
  {
  }

  lemma RacesCanExist(db: Db, a: Uuid, b: Uuid) returns (more: seq<Step>)
    ensures LegalRun(db, more) && Run(db, more) == db.(races := Run(db, more).races)
    ensures Run(db, more).races.Keys == db.races.Keys + {a, b}
  {
    var first := RaceCanExist(db, a);
    var second := RaceCanExist(Run(db, first), b);
    RunConcat(db, first, second);
    more := first + second;
  }

  /** The same with columns of a race, and beside a race, that need not exist yet. */
  lemma AnyVersionCanReach(db: Db, id: Uuid, v: Int64, cols: Columns, race: Uuid) returns (more: seq<Step>)
    requires Valid(db) && id in db.rows && Visible(db.rows[id]) && db.rows[id].version < v && ChecksPass(cols)
    ensures LegalRun(db, more) && id in Run(db, more).rows && Visible(Run(db, more).rows[id])
    ensures Run(db, more).rows[id].version == v && Run(db, more).rows[id].cols == cols
    ensures race in Run(db, more).races
  {
    var first := RacesCanExist(db, cols.raceId, race);
    RunKeeps(db, first);
    var second := VersionCanReach(Run(db, first), id, v, cols);
    RunConcat(db, first, second);
    more := first + second;
  }

  lemma UnsafeVersionsLoseWrites(db: Db, id: Uuid, op: Op, v: Int64)
    requires Valid(db) && id in db.rows && Visible(db.rows[id]) && OpError(op).None?
    requires !SafeToExpect(db.rows[id].version, db.rows[id].cols, op, v)
    ensures !SureToKeepFold(db, id, op, v)
  {
    var cols := db.rows[id].cols;
    var written, disturbed := Rewritten(cols, op), Disturbed(cols, op.p, cols.raceId + 1);
    DisturbedIsAllowed(cols, op.p, cols.raceId + 1);
    DisturbedMergesOtherwise(cols, op.p, cols.raceId + 1);
    var more := AnyVersionCanReach(db, id, v, disturbed, written.raceId);
    assert UpdateError(Run(db, more), id, Some(v), written).None?;
  }

  /**
   * The code never compares a supplied If-Match with the version it read. A write is sure to lose nothing exactly when
   * the supplied version is no higher than the one read, or the write sets every column, or it cannot pass at all:
   * because the constraints refuse its columns, or because no update succeeds at the last int64.
   */
  lemma SureToKeepFoldIff(db: Db, id: Uuid, op: Op, v: Int64)
    requires Valid(db) && id in db.rows && Visible(db.rows[id]) && OpError(op).None?
    ensures SureToKeepFold(db, id, op, v) <==>
              || v <= db.rows[id].version || v == INT64_MAX
              || SetsEverything(op) || !ChecksPass(Rewritten(db.rows[id].cols, op))
  {
    if SafeToExpect(db.rows[id].version, db.rows[id].cols, op, v) {
      SafeVersionsKeepFold(db, id, op, v);
    } else {
      UnsafeVersionsLoseWrites(db, id, op, v);
    }
  }
}
