/** Any number of interleaved requests through the middleware over the in-memory store. */
module MiddlewareRuns {
  import opened Basics
  import opened IdempotencyStore
  import opened Middleware

  type RequestId = nat

  /** Where a request is: its handler runs, its outcome waits to be saved or released, or it is answered. */
  datatype Phase = Running | Finishing(outcome: Outcome) | Ended(reply: Reply)

  datatype Call = Call(key: string, bodyHash: string, phase: Phase)

  datatype Sys = Sys(store: map<string, Option<HttpResult>>, calls: map<RequestId, Call>)

  const START := Sys(map[], map[])

  datatype Action =
    | Arrive(request: RequestId, key: string, bodyHash: string)
    | HandlerEnds(request: RequestId, outcome: Outcome)
    | Finish(request: RequestId)

  predicate Allowed(s: Sys, a: Action) {
    match a
    case Arrive(request, _, _) => request !in s.calls
    case HandlerEnds(request, _) => request in s.calls && s.calls[request].phase.Running?
    case Finish(request) => request in s.calls && s.calls[request].phase.Finishing?
  }

  function Next(s: Sys, a: Action): Sys
    requires Allowed(s, a)
  {
    match a
    case Arrive(request, key, bodyHash) =>
      (match MemoryBegin(s.store, key)
       case New => Sys(s.store[key := None], s.calls[request := Call(key, bodyHash, Running)])
       case InProgress => s.(calls := s.calls[request := Call(key, bodyHash, Ended(Refused(409)))])
       case Done(prev) => s.(calls := s.calls[request := Call(key, bodyHash, Ended(AnswerFrom(prev, bodyHash)))]))
    case HandlerEnds(request, outcome) =>
      s.(calls := s.calls[request := s.calls[request].(phase := Finishing(outcome))])
    case Finish(request) =>
      var c := s.calls[request];
      var saved := Saved(c.phase.outcome, c.bodyHash);
      Sys(Settled(s.store, c.key, saved, RELIABLE),
          s.calls[request := c.(phase := Ended(Handled(c.phase.outcome)))])
  }

  ghost predicate Reaches(s: Sys, actions: seq<Action>, t: Sys)
    decreases |actions|
  {
    if actions == [] then s == t
    else Allowed(s, actions[0]) && Reaches(Next(s, actions[0]), actions[1..], t)
  }

  /** One request from arrival to its answer, with nothing in between. */
  function Alone(s: Sys, r: RequestId, key: string, bodyHash: string, outcome: Outcome): Sys
    requires r !in s.calls
  {
    var arrived := Next(s, Arrive(r, key, bodyHash));
    if arrived.calls[r].phase.Ended? then arrived
    else Next(Next(arrived, HandlerEnds(r, outcome)), Finish(r))
  }

  /** Whatever the state of the key, a request alone leaves the store as `Serve` does and gets the same answer. */
  lemma AloneIsServe(s: Sys, r: RequestId, key: string, bodyHash: string, outcome: Outcome)
    requires r !in s.calls
    ensures Alone(s, r, key, bodyHash, outcome).store == AfterRequest(s.store, key, bodyHash, outcome, RELIABLE)
    ensures Alone(s, r, key, bodyHash, outcome).calls[r].phase ==
              Ended(ReplyTo(s.store, key, bodyHash, outcome, RELIABLE))
  {
  }

  predicate Holds(s: Sys, r: RequestId, key: string) {
    r in s.calls && s.calls[r].key == key && !s.calls[r].phase.Ended?
  }

  predicate Reserved(s: Sys, key: string) {
    key in s.store && s.store[key].None?
  }

  predicate Finished(s: Sys, key: string) {
    key in s.store && s.store[key].Some?
  }

  /** The result is what a request with this key and the result's body hash got from its handler. */
  predicate Produced(c: Call, key: string, result: HttpResult) {
    && c.key == key && c.bodyHash == result.bodyHash
    && c.phase.Ended? && c.phase.reply.Handled?
    && Saved(c.phase.reply.outcome, c.bodyHash) == Some(result)
  }

  ghost predicate Inv(s: Sys) {
    && (forall r, key :: Holds(s, r, key) ==> Reserved(s, key))
    && (forall q, r, key :: Holds(s, q, key) && Holds(s, r, key) ==> q == r)
    && (forall key :: Reserved(s, key) ==> exists r :: Holds(s, r, key))
    && (forall key :: Finished(s, key) ==> exists r :: r in s.calls && Produced(s.calls[r], key, s.store[key].value))
  }

  /** Results stay, answers stay, and a request that arrives after a key is finished is answered from its result. */
  ghost predicate Later(s: Sys, t: Sys) {
    && (forall key :: Finished(s, key) ==> Finished(t, key) && t.store[key] == s.store[key])
    && (forall r :: r in s.calls ==>
          && r in t.calls && t.calls[r].key == s.calls[r].key && t.calls[r].bodyHash == s.calls[r].bodyHash
          && (s.calls[r].phase.Ended? ==> t.calls[r] == s.calls[r]))
    && (forall r :: r in t.calls && r !in s.calls && Finished(s, t.calls[r].key) ==>
          t.calls[r].phase == Ended(AnswerFrom(s.store[t.calls[r].key].value, t.calls[r].bodyHash)))
  }

  lemma ArriveKeeps(s: Sys, a: Action)
    requires Inv(s) && a.Arrive? && Allowed(s, a)
    ensures Inv(Next(s, a))
  {
    var t := Next(s, a);
    var begun := a.key !in s.store;
    forall r, key
      ensures Holds(t, r, key) <==> Holds(s, r, key) || (begun && r == a.request && key == a.key)
    {
    }
    forall key | Reserved(t, key)
      ensures exists r :: Holds(t, r, key)
    {
      if Reserved(s, key) {
        var r :| Holds(s, r, key);
        assert Holds(t, r, key);
      } else {
        assert Holds(t, a.request, key);
      }
    }
    forall key | Finished(t, key)
      ensures exists r :: r in t.calls && Produced(t.calls[r], key, t.store[key].value)
    {
      var r :| r in s.calls && Produced(s.calls[r], key, s.store[key].value);
      assert r in t.calls && Produced(t.calls[r], key, t.store[key].value);
    }
  }

  lemma HandlerEndsKeeps(s: Sys, a: Action)
    requires Inv(s) && a.HandlerEnds? && Allowed(s, a)
    ensures Inv(Next(s, a))
  {
    var t := Next(s, a);
    forall r, key
      ensures Holds(t, r, key) == Holds(s, r, key)
    {
    }
    forall key | Reserved(t, key)
      ensures exists r :: Holds(t, r, key)
    {
      assert Reserved(s, key);
      var r :| Holds(s, r, key);
      assert Holds(t, r, key);
    }
    forall key | Finished(t, key)
      ensures exists r :: r in t.calls && Produced(t.calls[r], key, t.store[key].value)
    {
      var r :| r in s.calls && Produced(s.calls[r], key, s.store[key].value);
      assert Produced(t.calls[r], key, t.store[key].value);
    }
  }

  lemma FinishKeeps(s: Sys, a: Action)
    requires Inv(s) && a.Finish? && Allowed(s, a)
    ensures Inv(Next(s, a))
  {
    var t := Next(s, a);
    var k := s.calls[a.request].key;
    assert Holds(s, a.request, k);
    forall r, key
      ensures Holds(t, r, key) <==> Holds(s, r, key) && r != a.request
    {
    }
    forall key | Reserved(t, key)
      ensures exists r :: Holds(t, r, key)
    {
      assert Reserved(s, key) && key != k;
      var r :| Holds(s, r, key);
      assert Holds(t, r, key);
    }
    forall key | Finished(t, key)
      ensures exists r :: r in t.calls && Produced(t.calls[r], key, t.store[key].value)
    {
      if key == k {
        assert Produced(t.calls[a.request], key, t.store[key].value);
      } else {
        var r :| r in s.calls && Produced(s.calls[r], key, s.store[key].value);
        assert Produced(t.calls[r], key, t.store[key].value);
      }
    }
  }

  lemma NextIsLater(s: Sys, a: Action)
    requires Inv(s) && Allowed(s, a)
    ensures Later(s, Next(s, a))
  {
    if a.Finish? {
      assert Holds(s, a.request, s.calls[a.request].key);
    }
  }

  lemma LaterIsTransitive(s: Sys, t: Sys, u: Sys)
    requires Later(s, t) && Later(t, u)
    ensures Later(s, u)
  {
  }

  lemma {:induction false} RunKeeps(s: Sys, actions: seq<Action>, t: Sys)
    requires Inv(s) && Reaches(s, actions, t)
    ensures Inv(t) && Later(s, t)
    decreases |actions|
  {
    if actions != [] {
      var next := Next(s, actions[0]);
      match actions[0] {
        case Arrive(_, _, _) => ArriveKeeps(s, actions[0]);
        case HandlerEnds(_, _) => HandlerEndsKeeps(s, actions[0]);
        case Finish(_) => FinishKeeps(s, actions[0]);
      }
      NextIsLater(s, actions[0]);
      RunKeeps(next, actions[1..], t);
      LaterIsTransitive(s, next, t);
    }
  }

  /** In every run a key is reserved iff exactly one request holds it, and with none in flight none is reserved. */
  lemma ReservedIffOneHolder(actions: seq<Action>, s: Sys, key: string)
    requires Reaches(START, actions, s)
    ensures Reserved(s, key) <==> exists r :: Holds(s, r, key) && forall q :: Holds(s, q, key) ==> q == r
    ensures Finished(s, key) ==> forall r :: !Holds(s, r, key)
    ensures (forall r :: r in s.calls ==> s.calls[r].phase.Ended?) ==> !Reserved(s, key)
  {
    RunKeeps(START, actions, s);
    if Reserved(s, key) {
      var r :| Holds(s, r, key);
    }
  }

  /**
   * Once a key is finished its handler never runs again: the entry is the saved outcome of one request, and every
   * request that arrives afterwards gets that response for the same body and 422 for any other.
   */
  lemma FinishedKeyIsSettled(before: seq<Action>, s: Sys, after: seq<Action>, t: Sys, key: string, r: RequestId)
    requires Reaches(START, before, s) && Reaches(s, after, t)
    requires Finished(s, key) && r in t.calls && r !in s.calls && t.calls[r].key == key
    ensures exists first :: first in s.calls && Produced(s.calls[first], key, s.store[key].value)
    ensures t.calls[r].phase ==
              Ended(if t.calls[r].bodyHash == s.store[key].value.bodyHash
                    then Resent(ReplayOf(s.store[key].value)) else Refused(422))
  {
    RunKeeps(START, before, s);
    RunKeeps(s, after, t);
  }
}
