/** Creation with an idempotency key through both layers: a store that may lose anything, above the unique token. */
module ExactlyOnce {
  import opened Basics
  import opened Text
  import opened CharacterDomain
  import opened Convert
  import opened CharacterTable
  import opened Lifecycle
  import opened Repository
  import opened Service
  import opened IdempotencyStore
  import Middleware

  type RequestId = nat

  /** A POST to the create endpoint; `cached`: a store is configured and the key is one the middleware takes. */
  datatype Request = Request(key: string, bodyHash: string, input: Profile, cached: bool)

  datatype Phase =
    | Probed                             // SETNX failed, GET is due
    | Handling                           // reserved, or no store: INSERT is due
    | NeedsLookup                        // the token was taken: lookup by token is due
    | Answering(id: Uuid, replayed: bool)
    | Saving(id: Uuid)                   // 201 sent, result to be stored
    | Releasing
    | Ended

  datatype Call = Call(request: Request, phase: Phase)

  /** `origin`: who inserted a row; `created`, `mismatched`: 201s with their id and 422s with the cached id. */
  datatype Sys = Sys(db: Db, store: map<string, Value<Uuid>>, calls: map<RequestId, Call>,
                     origin: map<Uuid, RequestId>, created: set<(RequestId, Uuid)>, mismatched: set<(RequestId, Uuid)>)

  const START := Sys(EMPTY_DB, map[], map[], map[], {}, {})

  /** The creation token of a request: its key, trimmed; none if nothing is left. */
  function TokenOf(key: string): Option<string> {
    PgTextOrNull(TrimSpace(key))
  }

  /** The token is what is left of the key between its surrounding spaces, if that is anything. */
  lemma TokenIsTheCore(key: string, token: string)
    ensures TokenOf(key) == Some(token) <==>
              token != "" && Tight(token) && exists left, right :: Padded(key, left, token, right)
    ensures TokenOf(key).None? <==> AllSpace(key)
  {
    TrimSpaceIsTheCore(key, token);
    TrimSpaceIsTheCore(key, []);
    if AllSpace(key) {
      assert Padded(key, key, [], []);
    } else {
      var left, right := TrimSpaceIsACore(key);
      assert TrimSpace(key) == [] ==> key == left + right;
    }
  }

  datatype Action =
    | Arrive(r: RequestId, request: Request)
    | Fetch(r: RequestId)
    | InsertRow(r: RequestId, id: Uuid, at: int)
    | LookUp(r: RequestId, holder: Uuid)
    | Consumed(r: RequestId)
    | Answer(r: RequestId)
    | HandlerFails(r: RequestId)
    | Save(r: RequestId, applied: bool, acknowledged: bool)
    | Release(r: RequestId, applied: bool)
    | Lose(key: string)
    | Other(step: Step)

  predicate InPhase(s: Sys, r: RequestId, phase: Phase) {
    r in s.calls && s.calls[r].phase == phase
  }

  ghost predicate Allowed(s: Sys, a: Action) {
    match a
    case Arrive(r, _) => r !in s.calls
    case Fetch(r) => InPhase(s, r, Probed)
    case InsertRow(r, id, _) => InPhase(s, r, Handling) && !Issued(s.db, id)
    case LookUp(r, holder) =>
      InPhase(s, r, NeedsLookup) && TokenOf(s.calls[r].request.key).Some?
      && LiveHolder(s.db, holder, TokenOf(s.calls[r].request.key).value)
    case Consumed(r) =>
      InPhase(s, r, NeedsLookup) && TokenOf(s.calls[r].request.key).Some?
      && forall id :: !LiveHolder(s.db, id, TokenOf(s.calls[r].request.key).value)
    case Answer(r) => r in s.calls && s.calls[r].phase.Answering?
    case HandlerFails(r) =>
      r in s.calls && (s.calls[r].phase in {Handling, NeedsLookup} || s.calls[r].phase.Answering?)
    case Save(r, applied, acknowledged) => r in s.calls && s.calls[r].phase.Saving? && (acknowledged ==> applied)
    case Release(r, _) => InPhase(s, r, Releasing)
    case Lose(_) => true
    case Other(step) => Legal(s.db, step) && (step.Insert? ==> step.token.None?)
  }

  function Move(s: Sys, r: RequestId, phase: Phase): Sys
    requires r in s.calls
  {
    s.(calls := s.calls[r := s.calls[r].(phase := phase)])
  }

  ghost function AfterInsertOf(s: Sys, r: RequestId, id: Uuid, cols: Columns, token: Option<string>, at: int): Sys
    requires r in s.calls
  {
    match InsertOutcome(s.db, id, cols, token)
    case Inserted =>
      Move(s, r, Answering(id, false)).(db := AfterInsert(s.db, id, cols, 1, token, at, at),
                                        origin := s.origin[id := r])
    case Conflict => Move(s, r, NeedsLookup)
    case Failed(_) => Move(s, r, Releasing)
  }

  ghost function AfterInsertRow(s: Sys, r: RequestId, id: Uuid, at: int): Sys
    requires r in s.calls
  {
    var request := s.calls[r].request;
    if ReplaceError(request.input).Some? then Move(s, r, Releasing)
    else AfterInsertOf(s, r, id, ToColumns(Accepted(request.input)), TokenOf(request.key), at)
  }

  function AfterFetch(s: Sys, r: RequestId): Sys
    requires r in s.calls
  {
    var c := s.calls[r];
    var ended := Move(s, r, Ended);
    if c.request.key !in s.store || s.store[c.request.key].PendingMarker? then ended
    else
      var result := s.store[c.request.key].result;
      if result.bodyHash == c.request.bodyHash then ended.(created := s.created + {(r, result.body)})
      else ended.(mismatched := s.mismatched + {(r, result.body)})
  }

  function ResultFor(request: Request, id: Uuid): StoredResult<Uuid> {
    StoredResult(201, id, request.bodyHash, map[])
  }

  ghost function Next(s: Sys, a: Action): Sys
    requires Allowed(s, a)
  {
    match a
    case Arrive(r, request) =>
      if request.cached && request.key in s.store then s.(calls := s.calls[r := Call(request, Probed)])
      else s.(store := if request.cached then s.store[request.key := PendingMarker] else s.store,
              calls := s.calls[r := Call(request, Handling)])
    case Fetch(r) => AfterFetch(s, r)
    case InsertRow(r, id, at) => AfterInsertRow(s, r, id, at)
    case LookUp(r, holder) => Move(s, r, Answering(holder, true))
    case Consumed(r) => Move(s, r, Releasing)
    case Answer(r) =>
      var id, replayed := s.calls[r].phase.id, s.calls[r].phase.replayed;
      Move(s, r, if replayed || !s.calls[r].request.cached then Releasing else Saving(id))
        .(created := s.created + {(r, id)})
    case HandlerFails(r) => Move(s, r, Releasing)
    case Save(r, applied, acknowledged) =>
      var request := s.calls[r].request;
      Move(s, r, if acknowledged then Ended else Releasing)
        .(store := if applied then s.store[request.key := Encoded(ResultFor(request, s.calls[r].phase.id))]
                   else s.store)
    case Release(r, applied) =>
      var request := s.calls[r].request;
      Move(s, r, Ended).(store := if applied && request.cached then s.store - {request.key} else s.store)
    case Lose(key) => s.(store := s.store - {key})
    case Other(step) => s.(db := Apply(s.db, step))
  }

  ghost predicate Reaches(s: Sys, actions: seq<Action>, t: Sys)
    decreases |actions|
  {
    if actions == [] then s == t
    else Allowed(s, actions[0]) && Reaches(Next(s, actions[0]), actions[1..], t)
  }

  // ---------------------------------------------------------------- one request alone

  /** Steps of this request, with every command of the store getting through and the handler running to its end. */
  predicate Own(a: Action, r: RequestId) {
    && !a.Lose? && !a.Other? && !a.HandlerFails? && a.r == r
    && (a.Save? ==> a.acknowledged)
    && (a.Release? ==> a.applied)
  }

  /** From `s` to `t` by steps of this request alone, until it has ended. */
  ghost predicate Alone(s: Sys, actions: seq<Action>, t: Sys, r: RequestId) {
    Reaches(s, actions, t) && (forall a :: a in actions ==> Own(a, r)) && InPhase(t, r, Ended)
  }

  lemma AloneSteps(s: Sys, actions: seq<Action>, t: Sys, r: RequestId)
    requires Alone(s, actions, t, r)
    ensures InPhase(s, r, Ended) ==> s == t
    ensures !InPhase(s, r, Ended) ==>
              && |actions| > 0 && Own(actions[0], r) && Allowed(s, actions[0])
              && Alone(Next(s, actions[0]), actions[1..], t, r)
  {
    if actions != [] {
      assert Own(actions[0], r);
      assert !InPhase(s, r, Ended);
    }
  }

  lemma SettlesAlone(s: Sys, actions: seq<Action>, t: Sys, r: RequestId)
    requires Alone(s, actions, t, r) && r in s.calls && (s.calls[r].phase.Saving? || s.calls[r].phase.Releasing?)
    ensures t.db == s.db && t.created == s.created && t.mismatched == s.mismatched
    ensures var request, phase := s.calls[r].request, s.calls[r].phase;
            t.store == if phase.Saving? then s.store[request.key := Encoded(ResultFor(request, phase.id))]
                       else if request.cached then s.store - {request.key} else s.store
  {
    AloneSteps(s, actions, t, r);
    AloneSteps(Next(s, actions[0]), actions[1..], t, r);
  }

  /** The store after a request that had reserved its key, if it uses the store at all. */
  function StoreAfter(store: map<string, Value<Uuid>>, request: Request, answer: CreateAnswer)
    : map<string, Value<Uuid>>
  {
    if !request.cached then store
    else if answer.Fresh? then store[request.key := Encoded(ResultFor(request, answer.id))]
    else store - {request.key}
  }

  /** The 201 that goes with an answer, if it is one. */
  function Sent(r: RequestId, answer: CreateAnswer): set<(RequestId, Uuid)> {
    if answer.Declined? then {} else {(r, answer.id)}
  }

  /** The request ends with this answer. */
  ghost predicate EndsWith(s: Sys, t: Sys, r: RequestId, answer: CreateAnswer)
    requires r in s.calls
  {
    && t.db == s.db && t.mismatched == s.mismatched
    && t.created == s.created + Sent(r, answer)
    && t.store == StoreAfter(s.store, s.calls[r].request, answer)
  }

  lemma AnswersAlone(s: Sys, actions: seq<Action>, t: Sys, r: RequestId)
    requires Alone(s, actions, t, r) && r in s.calls && s.calls[r].phase.Answering?
    ensures var id := s.calls[r].phase.id;
            EndsWith(s, t, r, if s.calls[r].phase.replayed then Replay(id) else Fresh(id))
  {
    AloneSteps(s, actions, t, r);
    SettlesAlone(Next(s, actions[0]), actions[1..], t, r);
  }

  lemma LooksUpAlone(s: Sys, actions: seq<Action>, t: Sys, r: RequestId) returns (answer: CreateAnswer)
    requires Alone(s, actions, t, r) && InPhase(s, r, NeedsLookup)
    ensures EndsWith(s, t, r, answer) && TokenOf(s.calls[r].request.key).Some?
    ensures var token := TokenOf(s.calls[r].request.key).value;
            if exists h :: LiveHolder(s.db, h, token) then answer.Replay? && LiveHolder(s.db, answer.id, token)
            else answer == Declined(CreationTokenConsumed)
  {
    AloneSteps(s, actions, t, r);
    var next := Next(s, actions[0]);
    if actions[0].LookUp? {
      answer := Replay(actions[0].holder);
      AnswersAlone(next, actions[1..], t, r);
    } else {
      answer := Declined(CreationTokenConsumed);
      SettlesAlone(next, actions[1..], t, r);
    }
  }

  lemma HandlesAlone(s: Sys, actions: seq<Action>, t: Sys, r: RequestId)
    returns (id: Uuid, at: int, answer: CreateAnswer)
    requires Alone(s, actions, t, r) && InPhase(s, r, Handling)
    ensures var request := s.calls[r].request;
            && !Issued(s.db, id)
            && t.db == AfterCreate(s.db, request.input, TokenOf(request.key), id, at)
            && CreateAnswers(s.db, request.input, TokenOf(request.key), id, answer)
            && EndsWith(s.(db := t.db), t, r, answer)
  {
    AloneSteps(s, actions, t, r);
    id, at := actions[0].id, actions[0].at;
    var next := Next(s, actions[0]);
    var request := s.calls[r].request;
    if ReplaceError(request.input).Some? {
      answer := Declined(ReplaceError(request.input).value);
      SettlesAlone(next, actions[1..], t, r);
    } else {
      match InsertOutcome(s.db, id, ToColumns(Accepted(request.input)), TokenOf(request.key)) {
        case Inserted =>
          answer := Fresh(id);
          AnswersAlone(next, actions[1..], t, r);
        case Conflict => answer := LooksUpAlone(next, actions[1..], t, r);
        case Failed(e) =>
          answer := Declined(DomainErrorOf(e));
          SettlesAlone(next, actions[1..], t, r);
      }
    }
  }

  /** The store as the middleware sees it, for whatever response body a character is shown by. */
  function Rendered(store: map<string, Value<Uuid>>, body: Uuid -> string): Middleware.Entries {
    map key | key in store ::
      match store[key]
      case PendingMarker => None
      case Encoded(result) => Some(StoredResult(result.status, body(result.body), result.bodyHash, result.header))
  }

  /** How the create handler ends: 201 with the character, marked when replayed, or an error. */
  function OutcomeOf(answer: CreateAnswer, body: Uuid -> string): Middleware.Outcome {
    match answer
    case Fresh(id) => Middleware.Written(Middleware.Response(201, body(id), map[]))
    case Replay(id) => Middleware.Written(Middleware.Response(201, body(id), map[Middleware.REPLAYED := "true"]))
    case Declined(_) => Middleware.Failed
  }

  lemma StoreAfterIsServe(store: map<string, Value<Uuid>>, request: Request, answer: CreateAnswer,
                          body: Uuid -> string)
    requires request.cached && request.key !in store
    ensures Rendered(StoreAfter(store[request.key := PendingMarker], request, answer), body) ==
              Middleware.AfterRequest(Rendered(store, body), request.key, request.bodyHash,
                                      OutcomeOf(answer, body), Middleware.RELIABLE)
  {
    var saved := Middleware.Saved(OutcomeOf(answer, body), request.bodyHash);
    if answer.Fresh? {
      assert saved == Some(StoredResult(201, body(answer.id), request.bodyHash, map[]));
    }
  }

  /**
   * Alone, a request whose key is free, or that has no store, does to the tables what `Create` of the service does,
   * sends what it answers, and leaves the store as `Serve` does around that answer.
   */
  lemma AloneIsCreate(s: Sys, actions: seq<Action>, t: Sys, r: RequestId, request: Request, body: Uuid -> string)
    returns (id: Uuid, at: int, answer: CreateAnswer)
    requires r !in s.calls && (request.cached ==> request.key !in s.store)
    requires actions != [] && actions[0] == Arrive(r, request) && Alone(s, actions, t, r)
    ensures t.db == AfterCreate(s.db, request.input, TokenOf(request.key), id, at)
    ensures CreateAnswers(s.db, request.input, TokenOf(request.key), id, answer)
    ensures t.created == s.created + Sent(r, answer) && t.mismatched == s.mismatched
    ensures Rendered(t.store, body) ==
              if !request.cached then Rendered(s.store, body)
              else Middleware.AfterRequest(Rendered(s.store, body), request.key, request.bodyHash,
                                           OutcomeOf(answer, body), Middleware.RELIABLE)
  {
    AloneSteps(s, actions, t, r);
    id, at, answer := HandlesAlone(Next(s, actions[0]), actions[1..], t, r);
    if request.cached {
      StoreAfterIsServe(s.store, request, answer, body);
    }
  }

  /**
   * After the store has lost its entry, a resend alone of a key whose row is not deleted gets that row's id again and
   * inserts nothing, whatever usable body it carries and whatever space surrounds the key.
   */
  lemma ResendAfterLoss(s: Sys, actions: seq<Action>, t: Sys, r: RequestId, request: Request, holder: Uuid,
                        left: string, token: string, right: string)
    requires Valid(s.db) && holder in s.db.rows
    requires s.db.rows[holder].token == Some(token) && s.db.rows[holder].deletedAt.None?
    requires Padded(request.key, left, token, right) && Tight(token) && token != ""
    requires ReplaceError(request.input).None? && ChecksPass(ToColumns(Accepted(request.input)))
    requires r !in s.calls && actions != [] && actions[0] == Arrive(r, request)
    requires Alone(Next(s, Lose(request.key)), actions, t, r)
    ensures t.db == s.db && t.created == s.created + {(r, holder)} && t.mismatched == s.mismatched
  {
    var lost := Next(s, Lose(request.key));
    TokenIsTheCore(request.key, token);
    assert LiveHolder(s.db, holder, token);
    var id, at, answer := AloneIsCreate(lost, actions, t, r, request, (id: Uuid) => "");
    assert SameToken(s.db.rows[answer.id].token, s.db.rows[holder].token);
  }

  /** Alone, a request whose key is taken changes neither tables nor store and gets the answer `Serve` gives. */
  lemma AloneIsReplayed(s: Sys, actions: seq<Action>, t: Sys, r: RequestId, request: Request, body: Uuid -> string,
                        outcome: Middleware.Outcome)
    requires r !in s.calls && request.cached && request.key in s.store
    requires actions != [] && actions[0] == Arrive(r, request) && Alone(s, actions, t, r)
    ensures t.db == s.db && t.store == s.store
    ensures match Middleware.ReplyTo(Rendered(s.store, body), request.key, request.bodyHash, outcome,
                                     Middleware.RELIABLE)
            case Refused(status) =>
              && t.created == s.created
              && ((status == 409 && t.mismatched == s.mismatched && s.store[request.key].PendingMarker?)
                  || (status == 422 && s.store[request.key].Encoded?
                      && t.mismatched == s.mismatched + {(r, s.store[request.key].result.body)}))
            case Resent(response) =>
              && s.store[request.key].Encoded? && t.mismatched == s.mismatched
              && t.created == s.created + {(r, s.store[request.key].result.body)}
              && response.body == body(s.store[request.key].result.body)
            case Handled(_) => false
  {
    AloneSteps(s, actions, t, r);
    var probed := Next(s, actions[0]);
    AloneSteps(probed, actions[1..], t, r);
    AloneSteps(Next(probed, actions[1]), actions[1..][1..], t, r);
  }

  // ---------------------------------------------------------------- one handler per key

  /** The request passed the store and is not yet done with it. */
  predicate Active(s: Sys, r: RequestId, key: string) {
    && r in s.calls && s.calls[r].request.cached && s.calls[r].request.key == key
    && !s.calls[r].phase.Probed? && !s.calls[r].phase.Ended?
  }

  ghost predicate Exclusive(s: Sys) {
    && (forall r, key :: Active(s, r, key) ==> key in s.store)
    && (forall q, r, key :: Active(s, q, key) && Active(s, r, key) ==> q == r)
  }

  lemma ActiveWasActive(s: Sys, a: Action, r: RequestId, key: string)
    requires Allowed(s, a) && Active(Next(s, a), r, key)
    ensures Active(s, r, key) || (a.Arrive? && a.r == r && key !in s.store && key == a.request.key)
  {
  }

  lemma StoreKeepsActive(s: Sys, a: Action, r: RequestId, key: string)
    requires Allowed(s, a) && !a.Lose? && Active(Next(s, a), r, key) && Exclusive(s)
    ensures key in Next(s, a).store
  {
    ActiveWasActive(s, a, r, key);
    if a.Release? && s.calls[a.r].request.cached {
      assert Active(s, a.r, s.calls[a.r].request.key);
    }
  }

  lemma NextKeepsExclusive(s: Sys, a: Action)
    requires Exclusive(s) && Allowed(s, a) && !a.Lose?
    ensures Exclusive(Next(s, a))
  {
    var t := Next(s, a);
    forall r, key | Active(t, r, key)
      ensures key in t.store
    {
      StoreKeepsActive(s, a, r, key);
    }
    forall q, r, key | Active(t, q, key) && Active(t, r, key)
      ensures q == r
    {
      ActiveWasActive(s, a, q, key);
      ActiveWasActive(s, a, r, key);
    }
  }

  /** As long as the store loses no entry by itself, at most one request per key is in the handler at any time. */
  lemma {:induction false} OneHandlerWithoutLoss(s: Sys, actions: seq<Action>, t: Sys)
    requires Exclusive(s) && Reaches(s, actions, t) && forall a :: a in actions ==> !a.Lose?
    ensures Exclusive(t)
    decreases |actions|
  {
    if actions != [] {
      assert actions[0] in actions;
      NextKeepsExclusive(s, actions[0]);
      OneHandlerWithoutLoss(Next(s, actions[0]), actions[1..], t);
    }
  }

  // ---------------------------------------------------------------- the invariant

  predicate InsertedUnder(db: Db, id: Uuid, token: Option<string>) {
    exists e :: e in db.inserts && e.id == id && e.token == token
  }

  /** A row's origin is a request whose key trims to the row's token. */
  ghost predicate OriginOk(s: Sys) {
    forall id :: id in s.origin ==>
      && Issued(s.db, id)
      && s.origin[id] in s.calls
      && InsertedUnder(s.db, id, TokenOf(s.calls[s.origin[id]].request.key))
  }

  predicate FromInserter(s: Sys, key: string, result: StoredResult<Uuid>) {
    && result.body in s.origin
    && s.origin[result.body] in s.calls
    && s.calls[s.origin[result.body]].request.key == key
    && s.calls[s.origin[result.body]].request.bodyHash == result.bodyHash
  }

  /** Every stored result is the one of the very request that inserted the row, under its own key and body. */
  ghost predicate StoreOk(s: Sys) {
    forall key :: key in s.store && s.store[key].Encoded? ==> FromInserter(s, key, s.store[key].result)
  }

  predicate PhaseOk(s: Sys, r: RequestId)
    requires r in s.calls
  {
    match s.calls[r].phase
    case Answering(id, replayed) =>
      if replayed then InsertedUnder(s.db, id, TokenOf(s.calls[r].request.key))
      else id in s.origin && s.origin[id] == r
    case Saving(id) => id in s.origin && s.origin[id] == r
    case _ => true
  }

  ghost predicate PhasesOk(s: Sys) {
    forall r :: r in s.calls ==> PhaseOk(s, r)
  }

  predicate CreatedOk(s: Sys, r: RequestId, id: Uuid) {
    r in s.calls && InsertedUnder(s.db, id, TokenOf(s.calls[r].request.key))
  }

  predicate MismatchedOk(s: Sys, r: RequestId, id: Uuid) {
    && r in s.calls && id in s.origin && s.origin[id] in s.calls
    && s.calls[s.origin[id]].request.key == s.calls[r].request.key
    && s.calls[s.origin[id]].request.bodyHash != s.calls[r].request.bodyHash
  }

  ghost predicate RepliesOk(s: Sys) {
    && (forall r, id :: (r, id) in s.created ==> CreatedOk(s, r, id))
    && (forall r, id :: (r, id) in s.mismatched ==> MismatchedOk(s, r, id))
  }

  ghost predicate Inv(s: Sys) {
    Valid(s.db) && OriginOk(s) && StoreOk(s) && PhasesOk(s) && RepliesOk(s)
  }

  /** What steps keep: requests and origins never change, and the tables only evolve. */
  ghost predicate Evolves(s: Sys, t: Sys) {
    && Later(s.db, t.db)
    && (forall r :: r in s.calls ==> r in t.calls && t.calls[r].request == s.calls[r].request)
    && (forall id :: id in s.origin ==> id in t.origin && t.origin[id] == s.origin[id])
  }

  /** Steps that touch neither the tables nor the origins. */
  predicate Quiet(a: Action) {
    !a.InsertRow? && !a.Other?
  }

  lemma QuietEvolves(s: Sys, a: Action)
    requires Quiet(a) && Allowed(s, a)
    ensures Next(s, a).db == s.db && Next(s, a).origin == s.origin
    ensures Evolves(s, Next(s, a))
  {
  }

  lemma InsertEvolves(s: Sys, r: RequestId, id: Uuid, cols: Columns, token: Option<string>, at: int)
    requires r in s.calls && !Issued(s.db, id) && id !in s.origin
    ensures Evolves(s, AfterInsertOf(s, r, id, cols, token, at))
  {
    StepIsLater(s.db, Insert(id, cols, token, at));
  }

  lemma InsertRowEvolves(s: Sys, r: RequestId, id: Uuid, at: int)
    requires OriginOk(s) && r in s.calls && !Issued(s.db, id)
    ensures Evolves(s, AfterInsertRow(s, r, id, at))
  {
    var request := s.calls[r].request;
    if ReplaceError(request.input).None? {
      InsertEvolves(s, r, id, ToColumns(Accepted(request.input)), TokenOf(request.key), at);
    }
  }

  lemma NextEvolves(s: Sys, a: Action)
    requires OriginOk(s) && Allowed(s, a)
    ensures Evolves(s, Next(s, a))
  {
    if a.InsertRow? {
      InsertRowEvolves(s, a.r, a.id, a.at);
    } else if a.Other? {
      StepIsLater(s.db, a.step);
    } else {
      QuietEvolves(s, a);
    }
  }

  lemma InsertRowKeepsTables(s: Sys, r: RequestId, id: Uuid, at: int)
    requires Valid(s.db) && r in s.calls && !Issued(s.db, id)
    ensures Valid(AfterInsertRow(s, r, id, at).db)
  {
    var request := s.calls[r].request;
    if ReplaceError(request.input).None? {
      StepKeeps(s.db, Insert(id, ToColumns(Accepted(request.input)), TokenOf(request.key), at));
    }
  }

  lemma NextKeepsTables(s: Sys, a: Action)
    requires Valid(s.db) && Allowed(s, a)
    ensures Valid(Next(s, a).db)
  {
    if a.InsertRow? {
      InsertRowKeepsTables(s, a.r, a.id, a.at);
    } else if a.Other? {
      StepKeeps(s.db, a.step);
    } else {
      QuietEvolves(s, a);
    }
  }

  /** What holds of old facts in a new state. */
  lemma OldFactsStay(s: Sys, t: Sys)
    requires Evolves(s, t)
    ensures forall id, token :: InsertedUnder(s.db, id, token) ==> InsertedUnder(t.db, id, token)
    ensures forall key, result :: FromInserter(s, key, result) ==> FromInserter(t, key, result)
    ensures forall id :: Issued(s.db, id) ==> Issued(t.db, id)
  {
  }

  lemma InsertKeepsOrigin(s: Sys, r: RequestId, id: Uuid, cols: Columns, token: Option<string>, at: int)
    requires OriginOk(s) && r in s.calls && !Issued(s.db, id) && token == TokenOf(s.calls[r].request.key)
    ensures OriginOk(AfterInsertOf(s, r, id, cols, token, at))
  {
  }

  lemma NextKeepsOrigin(s: Sys, a: Action)
    requires OriginOk(s) && Allowed(s, a)
    ensures OriginOk(Next(s, a))
  {
    if a.InsertRow? {
      var request := s.calls[a.r].request;
      if ReplaceError(request.input).None? {
        InsertKeepsOrigin(s, a.r, a.id, ToColumns(Accepted(request.input)), TokenOf(request.key), a.at);
      }
    } else if a.Other? {
      StepIsLater(s.db, a.step);
      OldFactsStay(s, Next(s, a));
    } else {
      QuietEvolves(s, a);
    }
  }

  lemma SaveKeepsStore(s: Sys, a: Action)
    requires OriginOk(s) && StoreOk(s) && PhasesOk(s) && a.Save? && Allowed(s, a)
    ensures StoreOk(Next(s, a))
  {
    QuietEvolves(s, a);
    OldFactsStay(s, Next(s, a));
    assert PhaseOk(s, a.r);
  }

  lemma NextKeepsStore(s: Sys, a: Action)
    requires OriginOk(s) && StoreOk(s) && PhasesOk(s) && Allowed(s, a)
    ensures StoreOk(Next(s, a))
  {
    if a.Save? {
      SaveKeepsStore(s, a);
    } else {
      NextEvolves(s, a);
      OldFactsStay(s, Next(s, a));
    }
  }

  lemma HolderWasInserted(db: Db, holder: Uuid, token: string)
    requires InsertsOk(db) && HoldsToken(db, holder, token)
    ensures InsertedUnder(db, holder, Some(token))
  {
    assert Issued(db, holder);
    var e :| e in db.inserts && e.id == holder;
    var i := IndexOf(db.inserts, e);
  }

  /** A request that did not move keeps what its phase claims. */
  lemma OldPhaseStays(s: Sys, t: Sys, r: RequestId)
    requires Evolves(s, t) && r in s.calls && t.calls[r] == s.calls[r] && PhaseOk(s, r)
    ensures PhaseOk(t, r)
  {
  }

  lemma LookUpIsOk(s: Sys, a: Action)
    requires InsertsOk(s.db) && a.LookUp? && Allowed(s, a)
    ensures PhaseOk(Next(s, a), a.r)
  {
    HolderWasInserted(s.db, a.holder, TokenOf(s.calls[a.r].request.key).value);
  }

  lemma AnswerIsOk(s: Sys, a: Action)
    requires PhasesOk(s) && a.Answer? && Allowed(s, a)
    ensures PhaseOk(Next(s, a), a.r)
  {
  }

  lemma InsertRowIsOk(s: Sys, a: Action)
    requires a.InsertRow? && Allowed(s, a)
    ensures PhaseOk(Next(s, a), a.r)
  {
  }

  lemma MovedPhaseIsOk(s: Sys, a: Action, r: RequestId)
    requires !a.LookUp? && !a.Answer? && !a.InsertRow? && Allowed(s, a)
    requires r in Next(s, a).calls && !(r in s.calls && Next(s, a).calls[r] == s.calls[r])
    ensures PhaseOk(Next(s, a), r)
  {
  }

  lemma OnlyTheActorMoves(s: Sys, a: Action, r: RequestId)
    requires Allowed(s, a) && r in Next(s, a).calls
    ensures (r in s.calls && Next(s, a).calls[r] == s.calls[r]) || (!a.Lose? && !a.Other? && r == a.r)
  {
  }

  lemma PhaseStays(s: Sys, a: Action, r: RequestId)
    requires InsertsOk(s.db) && OriginOk(s) && PhasesOk(s) && Allowed(s, a) && r in Next(s, a).calls
    ensures PhaseOk(Next(s, a), r)
  {
    OnlyTheActorMoves(s, a, r);
    if r in s.calls && Next(s, a).calls[r] == s.calls[r] {
      NextEvolves(s, a);
      OldPhaseStays(s, Next(s, a), r);
    } else if a.LookUp? {
      LookUpIsOk(s, a);
    } else if a.Answer? {
      AnswerIsOk(s, a);
    } else if a.InsertRow? {
      InsertRowIsOk(s, a);
    } else {
      MovedPhaseIsOk(s, a, r);
    }
  }

  lemma NextKeepsPhases(s: Sys, a: Action)
    requires InsertsOk(s.db) && OriginOk(s) && PhasesOk(s) && Allowed(s, a)
    ensures PhasesOk(Next(s, a))
  {
    forall r | r in Next(s, a).calls
      ensures PhaseOk(Next(s, a), r)
    {
      PhaseStays(s, a, r);
    }
  }

  lemma OldRepliesStay(s: Sys, t: Sys)
    requires Evolves(s, t) && RepliesOk(s) && t.created == s.created && t.mismatched == s.mismatched
    ensures RepliesOk(t)
  {
  }

  lemma OldReplyStays(s: Sys, t: Sys, r: RequestId, id: Uuid)
    requires Evolves(s, t)
    ensures CreatedOk(s, r, id) ==> CreatedOk(t, r, id)
    ensures MismatchedOk(s, r, id) ==> MismatchedOk(t, r, id)
  {
    OldFactsStay(s, t);
  }

  /** What a finished entry answers is right for the request that fetched it. */
  lemma CacheHitIsOk(s: Sys, r: RequestId)
    requires OriginOk(s) && StoreOk(s) && r in s.calls
    requires s.calls[r].request.key in s.store && s.store[s.calls[r].request.key].Encoded?
    ensures var result := s.store[s.calls[r].request.key].result;
            && CreatedOk(s, r, result.body)
            && (result.bodyHash != s.calls[r].request.bodyHash ==> MismatchedOk(s, r, result.body))
  {
    assert FromInserter(s, s.calls[r].request.key, s.store[s.calls[r].request.key].result);
  }

  lemma FetchKeepsReplies(s: Sys, a: Action)
    requires OriginOk(s) && StoreOk(s) && RepliesOk(s) && a.Fetch? && Allowed(s, a)
    ensures RepliesOk(Next(s, a))
  {
    var t, key := Next(s, a), s.calls[a.r].request.key;
    QuietEvolves(s, a);
    if key in s.store && s.store[key].Encoded? {
      CacheHitIsOk(s, a.r);
    }
    forall q, id | (q, id) in t.created
      ensures CreatedOk(t, q, id)
    {
      OldReplyStays(s, t, q, id);
    }
    forall q, id | (q, id) in t.mismatched
      ensures MismatchedOk(t, q, id)
    {
      OldReplyStays(s, t, q, id);
    }
  }

  lemma AnswerKeepsReplies(s: Sys, a: Action)
    requires OriginOk(s) && PhasesOk(s) && RepliesOk(s) && a.Answer? && Allowed(s, a)
    ensures RepliesOk(Next(s, a))
  {
  }

  lemma OthersReplyNothing(s: Sys, a: Action)
    requires Allowed(s, a) && !a.Fetch? && !a.Answer?
    ensures Next(s, a).created == s.created && Next(s, a).mismatched == s.mismatched
  {
  }

  lemma NextKeepsReplies(s: Sys, a: Action)
    requires OriginOk(s) && StoreOk(s) && PhasesOk(s) && RepliesOk(s) && Allowed(s, a)
    ensures RepliesOk(Next(s, a))
  {
    if a.Fetch? {
      FetchKeepsReplies(s, a);
    } else if a.Answer? {
      AnswerKeepsReplies(s, a);
    } else {
      OthersReplyNothing(s, a);
      NextEvolves(s, a);
      OldRepliesStay(s, Next(s, a));
    }
  }

  lemma {:induction false} RunKeeps(s: Sys, actions: seq<Action>, t: Sys)
    requires Inv(s) && Reaches(s, actions, t)
    ensures Inv(t) && Later(s.db, t.db)
    decreases |actions|
  {
    if actions != [] {
      var a := actions[0];
      NextKeepsTables(s, a);
      NextKeepsOrigin(s, a);
      NextKeepsStore(s, a);
      NextKeepsPhases(s, a);
      NextKeepsReplies(s, a);
      NextEvolves(s, a);
      RunKeeps(Next(s, a), actions[1..], t);
      LaterIsTransitive(s.db, Next(s, a).db, t.db);
    }
  }

  // ---------------------------------------------------------------- the promises

  /** Both ids were inserted, and the one inserted first was reclaimed, which happens to pending rows only. */
  ghost predicate FirstOfTwoReclaimed(db: Db, a: Uuid, b: Uuid) {
    exists i, j :: 0 <= i < j < |db.inserts| && db.inserts[i].id in db.reclaimed
                   && (   (db.inserts[i].id == a && db.inserts[j].id == b)
                       || (db.inserts[i].id == b && db.inserts[j].id == a))
  }

  /** Two rows inserted under one token: one was reclaimed, the one inserted first. */
  lemma OneOfTwoWasReclaimed(db: Db, a: Uuid, b: Uuid, token: string)
    requires Valid(db) && InsertedUnder(db, a, Some(token)) && InsertedUnder(db, b, Some(token)) && a != b
    ensures FirstOfTwoReclaimed(db, a, b)
  {
  }

  lemma ReclaimedOfTwo(db: Db, a: Uuid, b: Uuid, token: string)
    requires Valid(db) && InsertedUnder(db, a, Some(token)) && InsertedUnder(db, b, Some(token)) && a != b
    ensures exists gone :: gone in db.reclaimed && InsertedUnder(db, gone, Some(token))
  {
  }

  /** The request's key is this text with only space around it. */
  ghost predicate Under(s: Sys, r: RequestId, token: string) {
    && r in s.calls && token != "" && Tight(token)
    && exists left, right :: Padded(s.calls[r].request.key, left, token, right)
  }

  /**
   * Exactly once: whatever the store loses, every 201 for a key that is not blank carries the id of a row inserted
   * under just that key without the space around it, and two 201s for keys that differ in such space only carry the
   * same id, unless the row inserted first was reclaimed while pending.
   */
  lemma CreatedExactlyOnce(actions: seq<Action>, t: Sys, p: (RequestId, Uuid), q: (RequestId, Uuid), token: string,
                           left1: string, right1: string, left2: string, right2: string)
    requires Reaches(START, actions, t) && p in t.created && q in t.created && p.0 in t.calls && q.0 in t.calls
    requires token != "" && Tight(token)
    requires Padded(t.calls[p.0].request.key, left1, token, right1)
    requires Padded(t.calls[q.0].request.key, left2, token, right2)
    ensures exists e :: e in t.db.inserts && e.id == p.1 && e.token == Some(token)
    ensures p.1 != q.1 ==> FirstOfTwoReclaimed(t.db, p.1, q.1)
  {
    RunKeeps(START, actions, t);
    TokenIsTheCore(t.calls[p.0].request.key, token);
    TokenIsTheCore(t.calls[q.0].request.key, token);
    assert CreatedOk(t, p.0, p.1) && CreatedOk(t, q.0, q.1);
    if p.1 != q.1 {
      OneOfTwoWasReclaimed(t.db, p.1, q.1, token);
    }
  }

  /** Over a whole run at most one row per token is ever confirmed. */
  lemma ConfirmedAtMostOnce(before: seq<Action>, s: Sys, after: seq<Action>, t: Sys, a: Uuid, b: Uuid, token: string)
    requires Reaches(START, before, s) && Reaches(s, after, t)
    requires HoldsToken(s.db, a, token) && !Pending(s.db.rows[a])
    requires HoldsToken(t.db, b, token) && !Pending(t.db.rows[b])
    ensures a == b
  {
    RunKeeps(START, before, s);
    RunKeeps(s, after, t);
    assert SameToken(t.db.rows[a].token, t.db.rows[b].token);
  }

  /** The cache agrees with the tables: an entry holds the id and the body hash of the request that inserted the row. */
  lemma CacheAgrees(actions: seq<Action>, t: Sys, key: string)
    requires Reaches(START, actions, t) && key in t.store && t.store[key].Encoded?
    ensures FromInserter(t, key, t.store[key].result)
    ensures InsertedUnder(t.db, t.store[key].result.body, TokenOf(key))
  {
    RunKeeps(START, actions, t);
  }

  /** A resend of the body that inserted a row gets the 422 for a different body only if a row of the token is gone. */
  lemma InserterIsNotMismatched(actions: seq<Action>, t: Sys, p: (RequestId, Uuid), id: Uuid, token: string)
    requires Reaches(START, actions, t) && p in t.mismatched && id in t.origin
    requires Under(t, p.0, token) && Under(t, t.origin[id], token)
    requires t.calls[t.origin[id]].request.bodyHash == t.calls[p.0].request.bodyHash
    ensures exists gone :: gone in t.db.reclaimed && InsertedUnder(t.db, gone, Some(token))
  {
    RunKeeps(START, actions, t);
    TokenIsTheCore(t.calls[p.0].request.key, token);
    TokenIsTheCore(t.calls[t.origin[id]].request.key, token);
    assert MismatchedOk(t, p.0, p.1);
    ReclaimedOfTwo(t.db, id, p.1, token);
  }
}
