/** Interleaved requests over Redis commands and a clock: reservations, their expiry, and `Begin` in two commands. */
module RedisRuns {
  import opened Basics
  import opened IdempotencyStore

  type RequestId = nat
  type Entries = map<string, Slot<string>>

  /** A request whose SETNX failed and whose GET is due, one that holds a reservation, or one that is done. */
  datatype Call =
    | Probed(key: string)
    | Holding(key: string, since: int)
    | Ended(key: string, answer: Began<string>)

  /** Calls carry the server's key. */
  datatype Sys = Sys(ttl: nat, now: int, kv: Entries, calls: map<RequestId, Call>)

  function Start(ttl: nat): Sys {
    Sys(ttl, 0, map[], map[])
  }

  datatype Action =
    | Tick(to: int)
    | SetNX(request: RequestId, key: string)
    | Get(request: RequestId)
    | Complete(request: RequestId, result: StoredResult<string>)
    | Release(request: RequestId)
    | Abandon(request: RequestId)

  predicate Allowed(s: Sys, a: Action) {
    match a
    case Tick(to) => s.now <= to
    case SetNX(request, _) => request !in s.calls
    case Get(request) => request in s.calls && s.calls[request].Probed?
    case Complete(request, _) => request in s.calls && s.calls[request].Holding?
    case Release(request) => request in s.calls && s.calls[request].Holding?
    case Abandon(request) => request in s.calls && s.calls[request].Holding?
  }

  /** Each step is one command of the store, or a holder gone without one: its process died or its command was lost. */
  function Next(s: Sys, a: Action): Sys
    requires Allowed(s, a)
  {
    match a
    case Tick(to) => s.(now := to)
    case SetNX(request, key) =>
      var k := RedisKey(key);
      s.(kv := AfterProbe(s.kv, k, s.ttl, s.now),
         calls := s.calls[request := if Lookup(s.kv, k, s.now).Some? then Probed(k) else Holding(k, s.now)])
    case Get(request) =>
      var k := s.calls[request].key;
      s.(calls := s.calls[request := Ended(k, FetchAnswer(Lookup(s.kv, k, s.now)))])
    case Complete(request, result) =>
      var k := s.calls[request].key;
      s.(kv := AfterComplete(s.kv, k, result, s.ttl, s.now), calls := s.calls[request := Ended(k, New)])
    case Release(request) =>
      var k := s.calls[request].key;
      s.(kv := AfterRelease(s.kv, k), calls := s.calls[request := Ended(k, New)])
    case Abandon(request) => s.(calls := s.calls[request := Ended(s.calls[request].key, New)])
  }

  predicate Holds(s: Sys, r: RequestId, k: string) {
    r in s.calls && s.calls[r].Holding? && s.calls[r].key == k
  }

  /** What a newcomer's `Begin` answers with nothing between its commands. */
  function BeginNow(s: Sys, r: RequestId, key: string): Began<string>
    requires r !in s.calls
  {
    var probed := Next(s, SetNX(r, key));
    if probed.calls[r].Holding? then New else Next(probed, Get(r)).calls[r].answer
  }

  /** With nothing in between, SETNX and GET leave the server and the answer as `Begin` of the store does. */
  lemma AloneIsBegin(s: Sys, r: RequestId, key: string, later: int)
    requires r !in s.calls && s.now <= later
    ensures var probed := Next(s, SetNX(r, key));
            var ticked := Next(probed, Tick(later));
            && probed.kv == AfterProbe(s.kv, RedisKey(key), s.ttl, s.now)
            && (Holds(probed, r, RedisKey(key)) <==> ContractBegin(s.kv, RedisKey(key), s.now) == New)
            && BeginNow(s, r, key) == ContractBegin(s.kv, RedisKey(key), s.now)
            && (probed.calls[r].Probed? ==>
                  && Next(ticked, Get(r)).kv == s.kv
                  && Next(ticked, Get(r)).calls[r] ==
                       Ended(RedisKey(key), FetchAnswer(Lookup(s.kv, RedisKey(key), later))))
  {
  }

  // ---------------------------------------------------------------- mutual exclusion

  /** No holder has outlived its reservation. */
  ghost predicate Timely(s: Sys) {
    TimelyBy(s, s.now)
  }

  /** No holder will have outlived its reservation by then. */
  ghost predicate TimelyBy(s: Sys, time: int) {
    forall r :: r in s.calls && s.calls[r].Holding? ==> time < s.calls[r].since + PendingTtl(s.ttl)
  }

  /** Every holder's reservation is the value stored under its key, and no key has two holders. */
  ghost predicate Covered(s: Sys) {
    && (forall r :: r in s.calls && s.calls[r].Holding? ==>
          s.calls[r].key in s.kv
          && s.kv[s.calls[r].key] == Slot(PendingMarker, s.calls[r].since + PendingTtl(s.ttl)))
    && (forall q, r, k :: Holds(s, q, k) && Holds(s, r, k) ==> q == r)
  }

  /** Runs in which requests finish before their reservations expire. */
  ghost predicate TimelyRun(s: Sys, actions: seq<Action>, t: Sys)
    decreases |actions|
  {
    Timely(s) &&
    if actions == [] then s == t
    else Allowed(s, actions[0]) && TimelyRun(Next(s, actions[0]), actions[1..], t)
  }

  lemma ActingKeepsCovered(s: Sys, a: Action)
    requires Covered(s) && Allowed(s, a) && (Timely(s) || !a.SetNX?) && !a.Tick?
    ensures Covered(Next(s, a))
  {
    var t := Next(s, a);
    forall r, k | Holds(t, r, k) && r != a.request
      ensures Holds(s, r, k) && (a.SetNX? ==> Lookup(s.kv, k, s.now).Some?)
    {
    }
    if !a.SetNX? && !a.Get? {
      assert Holds(s, a.request, s.calls[a.request].key);
    }
    forall r | r in t.calls && t.calls[r].Holding?
      ensures t.calls[r].key in t.kv
      ensures t.kv[t.calls[r].key] == Slot(PendingMarker, t.calls[r].since + PendingTtl(t.ttl))
    {
      assert Holds(t, r, t.calls[r].key);
    }
  }

  lemma NextKeepsCovered(s: Sys, a: Action)
    requires Covered(s) && Allowed(s, a) && (Timely(s) || a.Tick?)
    ensures Covered(Next(s, a))
  {
    if a.Tick? {
      forall r, k
        ensures Holds(Next(s, a), r, k) == Holds(s, r, k)
      {
      }
    } else {
      ActingKeepsCovered(s, a);
    }
  }

  /** Mutual exclusion: while no held reservation expires, a key has one holder and the store still says so. */
  lemma {:induction false} OneHolderWhileTimely(s: Sys, actions: seq<Action>, t: Sys)
    requires Covered(s) && TimelyRun(s, actions, t)
    ensures Covered(t)
    ensures forall q, r, k :: Holds(t, q, k) && Holds(t, r, k) ==> q == r
    ensures forall r, k :: Holds(t, r, k) ==> Lookup(t.kv, k, t.now) == Some(PendingMarker)
    decreases |actions|
  {
    if actions != [] {
      NextKeepsCovered(s, actions[0]);
      OneHolderWhileTimely(Next(s, actions[0]), actions[1..], t);
    }
  }

  /** Exactly when a holder has outlived its reservation does a newcomer get the same key as well. */
  lemma SecondHolderIffOverrun(s: Sys, holder: RequestId, newcomer: RequestId, key: string)
    requires Covered(s) && Holds(s, holder, RedisKey(key)) && newcomer !in s.calls
    ensures var t := Next(s, SetNX(newcomer, key));
            && Holds(t, holder, RedisKey(key))
            && (Holds(t, newcomer, RedisKey(key)) <==> s.now >= s.calls[holder].since + PendingTtl(s.ttl))
  {
  }

  /** From an empty store, a request that takes the pending time or longer ends up sharing its key. */
  lemma OverrunIsReachable(ttl: nat, key: string, late: nat)
    requires late >= PendingTtl(ttl)
    ensures var held := Next(Start(ttl), SetNX(1, key));
            var overrun := Next(held, Tick(late));
            var t := Next(overrun, SetNX(2, key));
            Holds(t, 1, RedisKey(key)) && Holds(t, 2, RedisKey(key))
  {
  }

  // ---------------------------------------------------------------- one `Begin` among others

  lemma {:induction false} ClockNeverGoesBack(s: Sys, actions: seq<Action>, t: Sys)
    requires TimelyRun(s, actions, t)
    ensures s.now <= t.now
    decreases |actions|
  {
    if actions != [] {
      ClockNeverGoesBack(Next(s, actions[0]), actions[1..], t);
    }
  }

  /** Nobody who may act holds the key. */
  ghost predicate OnlyIdleHold(s: Sys, k: string, idle: set<RequestId>) {
    forall r :: Holds(s, r, k) ==> r in idle
  }

  /** The idle neither complete nor release. */
  predicate StayIdle(actions: seq<Action>, idle: set<RequestId>) {
    forall a :: a in actions && (a.Complete? || a.Release?) ==> a.request !in idle
  }

  predicate NobodyBegins(actions: seq<Action>, k: string) {
    forall a :: a in actions && a.SetNX? ==> RedisKey(a.key) != k
  }

  lemma NextKeepsEntry(s: Sys, a: Action, k: string, idle: set<RequestId>)
    requires Allowed(s, a) && k in s.kv && OnlyIdleHold(s, k, idle)
    requires StayIdle([a], idle) && (s.now < s.kv[k].deadline || NobodyBegins([a], k))
    ensures k in Next(s, a).kv && Next(s, a).kv[k] == s.kv[k] && OnlyIdleHold(Next(s, a), k, idle)
  {
    assert a in [a];
    if a.Complete? || a.Release? {
      assert !Holds(s, a.request, k);
    }
    forall r | Holds(Next(s, a), r, k)
      ensures Holds(s, r, k)
    {
    }
  }

  /** An entry stays as it is while its holder is idle, until its deadline, and beyond if nobody begins its key. */
  lemma {:induction false} EntryStays(s: Sys, actions: seq<Action>, t: Sys, k: string, idle: set<RequestId>)
    requires TimelyRun(s, actions, t) && k in s.kv && OnlyIdleHold(s, k, idle) && StayIdle(actions, idle)
    requires t.now < s.kv[k].deadline || NobodyBegins(actions, k)
    ensures s.now <= t.now && k in t.kv && t.kv[k] == s.kv[k]
    decreases |actions|
  {
    ClockNeverGoesBack(s, actions, t);
    if actions != [] {
      assert actions[0] in actions;
      NextKeepsEntry(s, actions[0], k, idle);
      EntryStays(Next(s, actions[0]), actions[1..], t, k, idle);
    }
  }

  /** A finished entry stays as it is until its own deadline: releases only ever hit reservations. */
  lemma FinishedEntryStays(s: Sys, actions: seq<Action>, t: Sys, k: string)
    requires Covered(s) && TimelyRun(s, actions, t)
    requires k in s.kv && s.kv[k].value.Encoded? && t.now < s.kv[k].deadline
    ensures s.now <= t.now && k in t.kv && t.kv[k] == s.kv[k]
  {
    EntryStays(s, actions, t, k, {});
  }

  predicate NeverBegun(actions: seq<Action>, key: string) {
    forall a :: a in actions && a.SetNX? ==> a.key != key
  }

  lemma NeverBegunIsNobody(actions: seq<Action>, key: string)
    requires NeverBegun(actions, key)
    ensures NobodyBegins(actions, RedisKey(key))
  {
    forall a | a in actions && a.SetNX?
      ensures RedisKey(a.key) != RedisKey(key)
    {
      RedisKeyScopes(a.key, key);
    }
  }

  /**
   * A result once stored is what every newcomer is answered with, whatever happens in between, for the whole time
   * results are kept; from then on the key is new again, unless somebody has begun it anew.
   */
  lemma ResultAnswersUntil(s: Sys, r: RequestId, key: string, result: StoredResult<string>,
                           actions: seq<Action>, t: Sys, newcomer: RequestId)
    requires Covered(s) && Holds(s, r, RedisKey(key))
    requires TimelyRun(Next(s, Complete(r, result)), actions, t) && newcomer !in t.calls
    ensures t.now < s.now + s.ttl ==> BeginNow(t, newcomer, key) == Done(result)
    ensures t.now >= s.now + s.ttl && NeverBegun(actions, key) ==> BeginNow(t, newcomer, key) == New
  {
    var stored := Next(s, Complete(r, result));
    assert OnlyIdleHold(stored, RedisKey(key), {}) by {
      forall q
        ensures !Holds(stored, q, RedisKey(key))
      {
        assert Holds(stored, q, RedisKey(key)) ==> Holds(s, q, RedisKey(key));
      }
    }
    if t.now < stored.kv[RedisKey(key)].deadline {
      EntryStays(stored, actions, t, RedisKey(key), {});
    } else if NeverBegun(actions, key) {
      NeverBegunIsNobody(actions, key);
      EntryStays(stored, actions, t, RedisKey(key), {});
    }
  }

  /**
   * A reservation whose request neither completes nor releases answers every newcomer with "in progress" for five
   * minutes, or for the time results are kept if that is shorter; from then on the key is new again.
   */
  lemma ReservationAnswersUntil(s: Sys, r: RequestId, key: string, actions: seq<Action>, t: Sys, newcomer: RequestId)
    requires Covered(s) && Timely(s) && r !in s.calls && BeginNow(s, r, key) == New
    requires TimelyRun(Next(s, SetNX(r, key)), actions, t) && StayIdle(actions, {r}) && newcomer !in t.calls
    ensures t.now < s.now + 300 && t.now < s.now + s.ttl ==> BeginNow(t, newcomer, key) == InProgress
    ensures (t.now >= s.now + 300 || t.now >= s.now + s.ttl) && NeverBegun(actions, key) ==>
              BeginNow(t, newcomer, key) == New
  {
    var held := Next(s, SetNX(r, key));
    NextKeepsCovered(s, SetNX(r, key));
    assert Holds(held, r, RedisKey(key));
    assert OnlyIdleHold(held, RedisKey(key), {r});
    if t.now < held.kv[RedisKey(key)].deadline {
      EntryStays(held, actions, t, RedisKey(key), {r});
    } else if NeverBegun(actions, key) {
      NeverBegunIsNobody(actions, key);
      EntryStays(held, actions, t, RedisKey(key), {r});
    }
  }

  /** The answer of a `Begin` whose SETNX failed on `s` and whose GET ran on `t`. */
  function FetchedOn(t: Sys, k: string): Began<string> {
    FetchAnswer(Lookup(t.kv, k, t.now))
  }

  /** The answer is the one an indivisible `Begin` gives at the SETNX or at the GET. */
  predicate AtOneInstant(s: Sys, t: Sys, k: string) {
    FetchedOn(t, k) == ContractBegin(s.kv, k, s.now) || FetchedOn(t, k) == ContractBegin(t.kv, k, t.now)
  }

  /** Whatever the requests do, a `Begin` whose SETNX failed on `s` acts at one instant if its GET comes by `time`. */
  ghost predicate AlwaysAtOneInstant(s: Sys, k: string, time: int) {
    forall actions, t :: TimelyRun(s, actions, t) && t.now <= time ==> AtOneInstant(s, t, k)
  }

  /** What the endpoints of a call decide: never "new", a result only if stored at the GET, one mismatch possible. */
  lemma EndpointCases(s: Sys, t: Sys, k: string)
    requires Lookup(s.kv, k, s.now).Some?
    ensures AtOneInstant(s, t, k) <==> !(ContractBegin(s.kv, k, s.now).Done? && Lookup(t.kv, k, t.now).None?)
    ensures FetchedOn(t, k) != New
    ensures FetchedOn(t, k).Done? ==> Lookup(t.kv, k, t.now) == Some(Encoded(FetchedOn(t, k).result))
  {
  }

  /** Under the middleware's discipline `Begin` is linearizable unless a finished entry expires within the call. */
  lemma BeginIsLinearizable(s: Sys, actions: seq<Action>, t: Sys, k: string)
    requires Covered(s) && TimelyRun(s, actions, t)
    requires Lookup(s.kv, k, s.now).Some?
    requires s.kv[k].value.Encoded? ==> t.now < s.kv[k].deadline
    ensures AtOneInstant(s, t, k)
  {
    if s.kv[k].value.Encoded? {
      FinishedEntryStays(s, actions, t, k);
    }
  }

  lemma ExpiredWithinTheCall(s: Sys, k: string, time: int)
    requires Covered(s) && TimelyBy(s, time)
    requires Lookup(s.kv, k, s.now).Some? && s.kv[k].value.Encoded? && s.kv[k].deadline <= time
    ensures !AlwaysAtOneInstant(s, k, time)
  {
    var tick := Tick(s.kv[k].deadline);
    var t := Next(s, tick);
    assert TimelyRun(t, [], t);
    assert [tick][1..] == [];
    assert TimelyRun(s, [tick], t);
    assert !AtOneInstant(s, t, k);
  }

  /**
   * A `Begin` that finds its key present acts at one instant, whatever the other requests do until its GET, exactly
   * when it found a reservation or its GET is sure to come before the finished entry's deadline.
   */
  lemma BeginIsAtomicIff(s: Sys, k: string, time: int)
    requires Covered(s) && TimelyBy(s, time) && s.now <= time
    requires Lookup(s.kv, k, s.now).Some?
    ensures AlwaysAtOneInstant(s, k, time) <==> s.kv[k].value.PendingMarker? || time < s.kv[k].deadline
  {
    if s.kv[k].value.PendingMarker? || time < s.kv[k].deadline {
      forall actions, t | TimelyRun(s, actions, t) && t.now <= time
        ensures AtOneInstant(s, t, k)
      {
        BeginIsLinearizable(s, actions, t, k);
      }
    } else {
      ExpiredWithinTheCall(s, k, time);
    }
  }

  /** From an empty store: a finished entry seen by the SETNX has expired by the GET, which answers "in progress". */
  lemma MismatchIsReachable(ttl: nat, key: string, result: StoredResult<string>)
    requires ttl > 0
    ensures var finished := Next(Next(Start(ttl), SetNX(1, key)), Complete(1, result));
            var probed := Next(finished, SetNX(2, key));
            var t := Next(probed, Tick(ttl));
            && probed.calls[2] == Probed(RedisKey(key))
            && FetchedOn(t, RedisKey(key)) == InProgress
            && !AtOneInstant(probed, t, RedisKey(key))
  {
  }

  // ---------------------------------------------------------------- whole runs against the in-memory store

  /** An operation of the in-memory store, with the answer of a `Begin`. */
  datatype MemoryOp =
    | BeginOp(request: RequestId, key: string, answer: Began<string>)
    | CompleteOp(key: string, result: StoredResult<string>)
    | ReleaseOp(key: string)

  type Memory = map<string, Option<StoredResult<string>>>

  function AfterOp(data: Memory, op: MemoryOp): Memory {
    match op
    case BeginOp(_, key, _) => if key in data then data else data[key := None]
    case CompleteOp(key, result) => data[key := Some(result)]
    case ReleaseOp(key) => data - {key}
  }

  /** The operations, one after the other on the in-memory store, give their answers and leave `after`. */
  predicate MemoryRun(data: Memory, ops: seq<MemoryOp>, after: Memory)
    decreases |ops|
  {
    if ops == [] then data == after
    else
      && (ops[0].BeginOp? ==> ops[0].answer == MemoryBegin(data, ops[0].key))
      && MemoryRun(AfterOp(data, ops[0]), ops[1..], after)
  }

  /** No entry has expired. */
  ghost predicate Unexpired(s: Sys) {
    forall k :: k in s.kv ==> s.now < s.kv[k].deadline
  }

  ghost predicate UnexpiredRun(s: Sys, actions: seq<Action>, t: Sys)
    decreases |actions|
  {
    Unexpired(s) &&
    if actions == [] then s == t
    else Allowed(s, actions[0]) && UnexpiredRun(Next(s, actions[0]), actions[1..], t)
  }

  ghost predicate Runs(s: Sys, actions: seq<Action>)
    decreases |actions|
  {
    actions != [] ==> Allowed(s, actions[0]) && Runs(Next(s, actions[0]), actions[1..])
  }

  /**
   * Where a step takes effect on the in-memory store, given how the calls end. A `Begin` that ends up "in progress"
   * acts at its SETNX, one that fetches a result at its GET.
   */
  function OpOf(s: Sys, a: Action, end: map<RequestId, Call>): seq<MemoryOp>
    requires Allowed(s, a)
  {
    match a
    case Tick(_) => []
    case SetNX(request, key) =>
      var k := RedisKey(key);
      if Lookup(s.kv, k, s.now).None? then [BeginOp(request, k, New)]
      else if request in end && end[request] == Ended(k, InProgress) then [BeginOp(request, k, InProgress)]
      else []
    case Get(request) =>
      var answer := FetchedOn(s, s.calls[request].key);
      if answer.Done? then [BeginOp(request, s.calls[request].key, answer)] else []
    case Complete(request, result) => [CompleteOp(s.calls[request].key, result)]
    case Release(request) => [ReleaseOp(s.calls[request].key)]
    case Abandon(_) => []
  }

  ghost function Linearized(s: Sys, actions: seq<Action>, end: map<RequestId, Call>): seq<MemoryOp>
    requires Runs(s, actions)
    decreases |actions|
  {
    if actions == [] then []
    else OpOf(s, actions[0], end) + Linearized(Next(s, actions[0]), actions[1..], end)
  }

  lemma {:induction false} UnexpiredRuns(s: Sys, actions: seq<Action>, t: Sys)
    requires UnexpiredRun(s, actions, t)
    ensures Runs(s, actions) && Unexpired(t)
    decreases |actions|
  {
    if actions != [] {
      UnexpiredRuns(Next(s, actions[0]), actions[1..], t);
    }
  }

  lemma UnexpiredIsTimely(s: Sys)
    requires Covered(s) && Unexpired(s)
    ensures Timely(s)
  {
  }

  /** While a finished entry is there, a call that failed its SETNX on it can only end with a result. */
  lemma {:induction false} FinishedIsFetched(s: Sys, actions: seq<Action>, t: Sys, r: RequestId, k: string)
    requires Covered(s) && UnexpiredRun(s, actions, t)
    requires k in s.kv && s.kv[k].value.Encoded?
    requires r in s.calls && (s.calls[r] == Probed(k) || (s.calls[r].Ended? && s.calls[r].answer.Done?))
    ensures r in t.calls && t.calls[r] != Ended(k, InProgress)
    decreases |actions|
  {
    if actions != [] {
      UnexpiredIsTimely(s);
      NextKeepsCovered(s, actions[0]);
      NextKeepsEntry(s, actions[0], k, {});
      FinishedIsFetched(Next(s, actions[0]), actions[1..], t, r, k);
    }
  }

  /** A call that ends "in progress" found a reservation. */
  lemma PendingWasSeen(s: Sys, a: Action, rest: seq<Action>, t: Sys)
    requires Covered(s) && Unexpired(s) && Allowed(s, a) && UnexpiredRun(Next(s, a), rest, t)
    requires a.SetNX? && Lookup(s.kv, RedisKey(a.key), s.now).Some?
    requires a.request in t.calls && t.calls[a.request] == Ended(RedisKey(a.key), InProgress)
    ensures s.kv[RedisKey(a.key)].value.PendingMarker?
  {
    if s.kv[RedisKey(a.key)].value.Encoded? {
      UnexpiredIsTimely(s);
      NextKeepsCovered(s, a);
      FinishedIsFetched(Next(s, a), rest, t, a.request, RedisKey(a.key));
    }
  }

  /** The entry a step writes, as the in-memory store would hold it. */
  function MemoryAfter(s: Sys, a: Action): Memory
    requires Allowed(s, a)
  {
    var data := AsMemory(s.kv, s.now);
    match a
    case SetNX(_, key) => if Lookup(s.kv, RedisKey(key), s.now).Some? then data else data[RedisKey(key) := None]
    case Complete(request, result) => data[s.calls[request].key := Some(result)]
    case Release(request) => data - {s.calls[request].key}
    case _ => data
  }

  lemma StoringIs(kv: Entries, now: int, k: string, slot: Slot<string>)
    requires now < slot.deadline
    ensures AsMemory(kv[k := slot], now) ==
            AsMemory(kv, now)[k := if slot.value.PendingMarker? then None else Some(slot.value.result)]
  {
    assert AsMemory(kv[k := slot], now).Keys == AsMemory(kv, now).Keys + {k};
  }

  lemma UnexpiredStep(s: Sys, a: Action)
    requires Unexpired(s) && Allowed(s, a) && Unexpired(Next(s, a))
    ensures AsMemory(Next(s, a).kv, Next(s, a).now) == MemoryAfter(s, a)
  {
    var next := Next(s, a);
    match a {
      case Tick(_) => assert AsMemory(next.kv, next.now) == AsMemory(s.kv, s.now);
      case SetNX(_, key) =>
        if Lookup(s.kv, RedisKey(key), s.now).None? {
          StoringIs(s.kv, s.now, RedisKey(key), next.kv[RedisKey(key)]);
        }
      case Complete(request, _) =>
        var k := s.calls[request].key;
        StoringIs(s.kv, s.now, k, next.kv[k]);
      case Release(request) => assert AsMemory(next.kv, next.now).Keys == MemoryAfter(s, a).Keys;
      case _ =>
    }
  }

  lemma OpsAreTheStep(s: Sys, a: Action, end: map<RequestId, Call>)
    requires Allowed(s, a)
    requires a.SetNX? && Lookup(s.kv, RedisKey(a.key), s.now).Some? && OpOf(s, a, end) != [] ==>
               s.kv[RedisKey(a.key)].value.PendingMarker?
    ensures MemoryRun(AsMemory(s.kv, s.now), OpOf(s, a, end), MemoryAfter(s, a))
  {
  }

  /** Each step does to the unexpired entries what its operation does to the in-memory store. */
  lemma StepSimulates(s: Sys, a: Action, rest: seq<Action>, t: Sys)
    requires Covered(s) && Unexpired(s) && Allowed(s, a) && UnexpiredRun(Next(s, a), rest, t)
    ensures MemoryRun(AsMemory(s.kv, s.now), OpOf(s, a, t.calls), AsMemory(Next(s, a).kv, Next(s, a).now))
  {
    if a.SetNX? && Lookup(s.kv, RedisKey(a.key), s.now).Some? && OpOf(s, a, t.calls) != [] {
      PendingWasSeen(s, a, rest, t);
    }
    UnexpiredStep(s, a);
    OpsAreTheStep(s, a, t.calls);
  }

  lemma MemoryRunJoins(a: Memory, ops: seq<MemoryOp>, b: Memory, more: seq<MemoryOp>, c: Memory)
    requires MemoryRun(a, ops, b) && MemoryRun(b, more, c)
    ensures MemoryRun(a, ops + more, c)
    decreases |ops|
  {
    if ops == [] {
      assert ops + more == more;
    } else {
      assert (ops + more)[1..] == ops[1..] + more;
      MemoryRunJoins(AfterOp(a, ops[0]), ops[1..], b, more, c);
    }
  }

  lemma {:induction false} RunSimulates(s: Sys, actions: seq<Action>, m: Sys, more: seq<Action>, t: Sys)
    requires Covered(s) && UnexpiredRun(s, actions, m) && UnexpiredRun(m, more, t)
    ensures Runs(s, actions) && Covered(m)
    ensures MemoryRun(AsMemory(s.kv, s.now), Linearized(s, actions, t.calls), AsMemory(m.kv, m.now))
    decreases |actions|
  {
    UnexpiredRuns(s, actions, m);
    if actions != [] {
      var next := Next(s, actions[0]);
      UnexpiredIsTimely(s);
      NextKeepsCovered(s, actions[0]);
      UnexpiredRunsJoin(next, actions[1..], m, more, t);
      StepSimulates(s, actions[0], actions[1..] + more, t);
      RunSimulates(next, actions[1..], m, more, t);
      MemoryRunJoins(AsMemory(s.kv, s.now), OpOf(s, actions[0], t.calls), AsMemory(next.kv, next.now),
                     Linearized(next, actions[1..], t.calls), AsMemory(m.kv, m.now));
    }
  }

  lemma {:induction false} UnexpiredRunsJoin(s: Sys, actions: seq<Action>, m: Sys, more: seq<Action>, t: Sys)
    requires UnexpiredRun(s, actions, m) && UnexpiredRun(m, more, t)
    ensures UnexpiredRun(s, actions + more, t)
    decreases |actions|
  {
    if actions == [] {
      assert actions + more == more;
    } else {
      assert (actions + more)[1..] == actions[1..] + more;
      UnexpiredRunsJoin(Next(s, actions[0]), actions[1..], m, more, t);
    }
  }

  lemma UnexpiredRunsRun(s: Sys, actions: seq<Action>, m: Sys, more: seq<Action>, t: Sys)
    requires UnexpiredRun(s, actions, m) && UnexpiredRun(m, more, t)
    ensures Runs(s, actions) && Runs(m, more) && Runs(s, actions + more)
  {
    UnexpiredRuns(s, actions, m);
    UnexpiredRuns(m, more, t);
    UnexpiredRunsJoin(s, actions, m, more, t);
    UnexpiredRuns(s, actions + more, t);
  }

  lemma Associates(first: seq<MemoryOp>, rest: seq<MemoryOp>, last: seq<MemoryOp>)
    ensures first + (rest + last) == (first + rest) + last
  {
  }

  lemma {:induction false} LinearizedJoins(
    s: Sys, actions: seq<Action>, m: Sys, more: seq<Action>, all: seq<Action>, end: map<RequestId, Call>)
    requires UnexpiredRun(s, actions, m)
    requires Runs(s, actions) && Runs(m, more) && Runs(s, all) && all == actions + more
    ensures Linearized(s, all, end) == Linearized(s, actions, end) + Linearized(m, more, end)
    decreases |actions|
  {
    if actions == [] {
      assert all == more;
    } else {
      assert all[0] == actions[0] && all[1..] == actions[1..] + more;
      var next := Next(s, actions[0]);
      LinearizedJoins(next, actions[1..], m, more, all[1..], end);
      Associates(OpOf(s, all[0], end), Linearized(next, actions[1..], end), Linearized(m, more, end));
    }
  }

  /** How often `r` begins among the operations. */
  function Begins(ops: seq<MemoryOp>, r: RequestId): nat {
    if ops == [] then 0
    else (if ops[0].BeginOp? && ops[0].request == r then 1 else 0) + Begins(ops[1..], r)
  }

  lemma BeginsJoin(ops: seq<MemoryOp>, more: seq<MemoryOp>, r: RequestId)
    ensures Begins(ops + more, r) == Begins(ops, r) + Begins(more, r)
  {
    if ops == [] {
      assert ops + more == more;
    } else {
      assert (ops + more)[1..] == ops[1..] + more;
      BeginsJoin(ops[1..], more, r);
    }
  }

  /** Whether the `Begin` of `r` has taken effect by the time its call stands as in `calls`. */
  function Effective(calls: map<RequestId, Call>, end: map<RequestId, Call>, r: RequestId): nat {
    if r !in calls then 0
    else if calls[r].Probed? then (if r in end && end[r] == Ended(calls[r].key, InProgress) then 1 else 0)
    else 1
  }

  /** What `Begin` answered, for a call that got its answer. */
  function AnswerOf(c: Call): Option<Began<string>> {
    match c
    case Probed(_) => None
    case Holding(_, _) => Some(New)
    case Ended(_, answer) => Some(answer)
  }

  /** Calls keep their key and, once given, their answer. */
  ghost predicate Progress(calls: map<RequestId, Call>, later: map<RequestId, Call>) {
    forall r :: r in calls ==>
      && r in later && later[r].key == calls[r].key
      && (!calls[r].Probed? ==> AnswerOf(later[r]) == AnswerOf(calls[r]))
  }

  lemma {:induction false} RunProgresses(s: Sys, actions: seq<Action>, t: Sys)
    requires UnexpiredRun(s, actions, t)
    ensures Progress(s.calls, t.calls)
    decreases |actions|
  {
    if actions != [] {
      RunProgresses(Next(s, actions[0]), actions[1..], t);
    }
  }

  lemma StepBegins(s: Sys, a: Action, end: map<RequestId, Call>, r: RequestId)
    requires Allowed(s, a) && Progress(Next(s, a).calls, end)
    ensures Effective(s.calls, end, r) + Begins(OpOf(s, a, end), r) == Effective(Next(s, a).calls, end, r)
    ensures forall op :: op in OpOf(s, a, end) && op.BeginOp? ==>
              op.request in end && end[op.request].key == op.key && AnswerOf(end[op.request]) == Some(op.answer)
  {
  }

  lemma {:induction false} RunBegins(s: Sys, actions: seq<Action>, m: Sys, end: map<RequestId, Call>, r: RequestId)
    requires UnexpiredRun(s, actions, m) && Progress(m.calls, end)
    ensures Runs(s, actions)
    ensures Effective(s.calls, end, r) + Begins(Linearized(s, actions, end), r) == Effective(m.calls, end, r)
    ensures forall op :: op in Linearized(s, actions, end) && op.BeginOp? ==>
              op.request in end && end[op.request].key == op.key && AnswerOf(end[op.request]) == Some(op.answer)
    decreases |actions|
  {
    UnexpiredRuns(s, actions, m);
    if actions != [] {
      var next := Next(s, actions[0]);
      RunProgresses(next, actions[1..], m);
      assert Progress(next.calls, end);
      StepBegins(s, actions[0], end, r);
      RunBegins(next, actions[1..], m, end, r);
      BeginsJoin(OpOf(s, actions[0], end), Linearized(next, actions[1..], end), r);
    }
  }

  /**
   * Without expiry every run over Redis is a run of the in-memory store with the same answers: each call that got an
   * answer begins exactly once with that answer, and, wherever the run is cut, calls answered before the cut begin
   * before it while calls that arrive after the cut begin after it.
   */
  lemma RedisRefinesMemory(ttl: nat, before: seq<Action>, m: Sys, after: seq<Action>, t: Sys, r: RequestId)
    requires UnexpiredRun(Start(ttl), before, m) && UnexpiredRun(m, after, t)
    ensures Runs(Start(ttl), before) && Runs(m, after) && Runs(Start(ttl), before + after)
    ensures var first, second := Linearized(Start(ttl), before, t.calls), Linearized(m, after, t.calls);
            && Linearized(Start(ttl), before + after, t.calls) == first + second
            && MemoryRun(map[], first + second, AsMemory(t.kv, t.now))
            && Begins(first + second, r) == (if r in t.calls && AnswerOf(t.calls[r]).Some? then 1 else 0)
            && (r in m.calls && AnswerOf(m.calls[r]).Some? ==> Begins(first, r) == 1)
            && (r !in m.calls ==> Begins(first, r) == 0)
            && (forall op :: op in first + second && op.BeginOp? ==>
                  op.request in t.calls && t.calls[op.request].key == op.key
                  && AnswerOf(t.calls[op.request]) == Some(op.answer))
  {
    var s := Start(ttl);
    assert UnexpiredRun(t, [], t) by { UnexpiredRuns(m, after, t); }
    RunSimulates(s, before, m, after, t);
    RunSimulates(m, after, t, [], t);
    RunProgresses(m, after, t);
    UnexpiredRunsRun(s, before, m, after, t);
    LinearizedJoins(s, before, m, after, before + after, t.calls);
    RunBegins(s, before, m, t.calls, r);
    RunBegins(m, after, t, t.calls, r);
    var first, second := Linearized(s, before, t.calls), Linearized(m, after, t.calls);
    assert AsMemory(s.kv, s.now) == map[];
    MemoryRunJoins(map[], first, AsMemory(m.kv, m.now), second, AsMemory(t.kv, t.now));
    BeginsJoin(first, second, r);
  }
}
