/** Stores of idempotency keys: the atomic one in memory and the one made of Redis commands. */
module IdempotencyStore {
  import opened Basics

  /** A finished response: what a resend is answered with, and the hash of the body it belongs to. */
  datatype StoredResult<+B> = StoredResult(status: int, body: B, bodyHash: string, header: map<string, string>)

  /** The three answers of `Begin`. */
  datatype Began<+B> = New | InProgress | Done(result: StoredResult<B>)

  // ---------------------------------------------------------------- in memory

  /** A key with no result is reserved. */
  function MemoryBegin<B>(data: map<string, Option<StoredResult<B>>>, key: string): Began<B> {
    if key !in data then New else if data[key].None? then InProgress else Done(data[key].value)
  }

  class MemoryStore<B> {
    var data: map<string, Option<StoredResult<B>>>

    constructor ()
      ensures data == map[]
    {
      data := map[];
    }

    method Begin(key: string) returns (prev: Option<StoredResult<B>>, isNew: bool)
      modifies this
      ensures data == if isNew then old(data)[key := None] else old(data)
      ensures match MemoryBegin(old(data), key)
              case New => isNew && prev.None?
              case InProgress => !isNew && prev.None?
              case Done(result) => !isNew && prev == Some(result)
    {
      if key !in data {
        data := data[key := None];
        return None, true;
      }
      return data[key], false;
    }

    method Complete(key: string, result: StoredResult<B>)
      modifies this
      ensures data == old(data)[key := Some(result)]
    {
      data := data[key := Some(result)];
    }

    method Release(key: string)
      modifies this
      ensures data == old(data) - {key}
    {
      data := data - {key};
    }
  }

  // ---------------------------------------------------------------- on Redis

  /** The pending marker, or an encoded result; the two encodings differ. */
  datatype Value<+B> = PendingMarker | Encoded(result: StoredResult<B>)

  datatype Slot<+B> = Slot(value: Value<B>, deadline: int)

  const KEY_PREFIX := "idem:"
  const PENDING_TTL := 300

  /** Seconds a reservation lives: five minutes, or the result's time if that is shorter. */
  function PendingTtl(ttl: nat): nat {
    if ttl < PENDING_TTL then ttl else PENDING_TTL
  }

  /** What the server holds for a key at a time; expired values are gone. */
  function Lookup<B>(kv: map<string, Slot<B>>, key: string, now: int): Option<Value<B>> {
    if key in kv && now < kv[key].deadline then Some(kv[key].value) else None
  }

  /** What the fetch of `Begin` answers for the value it finds. */
  function FetchAnswer<B>(value: Option<Value<B>>): Began<B> {
    match value
    case None => InProgress
    case Some(PendingMarker) => InProgress
    case Some(Encoded(result)) => Done(result)
  }

  /** What one indivisible `Begin` would answer at that time: the contract of the store. */
  function ContractBegin<B>(kv: map<string, Slot<B>>, key: string, now: int): Began<B> {
    match Lookup(kv, key, now)
    case None => New
    case Some(PendingMarker) => InProgress
    case Some(Encoded(result)) => Done(result)
  }

  /** The unexpired values as an in-memory store would hold them. */
  function AsMemory<B>(kv: map<string, Slot<B>>, now: int): map<string, Option<StoredResult<B>>> {
    map key | key in kv && now < kv[key].deadline ::
      match kv[key].value
      case PendingMarker => None
      case Encoded(result) => Some(result)
  }

  /** At any instant the contract over Redis, with its reservation, is that of the in-memory store. */
  lemma ContractIsMemoryBegin<B>(kv: map<string, Slot<B>>, key: string, life: nat, now: int)
    requires life > 0
    ensures ContractBegin(kv, key, now) == MemoryBegin(AsMemory(kv, now), key)
    ensures AsMemory(kv[key := Slot(PendingMarker, now + life)], now) == AsMemory(kv, now)[key := None]
  {
    var reserved := kv[key := Slot(PendingMarker, now + life)];
    assert AsMemory(reserved, now).Keys == AsMemory(kv, now)[key := None].Keys;
  }

  /** The server's key for a store key. */
  function RedisKey(key: string): string {
    KEY_PREFIX + key
  }

  /** Two store keys share a server's key only if they are the same, and all of them are under one prefix. */
  lemma RedisKeyScopes(a: string, b: string)
    ensures RedisKey(a) == RedisKey(b) <==> a == b
    ensures "idem:" <= RedisKey(a)
  {
    assert RedisKey(a)[|KEY_PREFIX|..] == a && RedisKey(b)[|KEY_PREFIX|..] == b;
  }

  /** SET NX with the pending marker: only an absent or expired key is taken. */
  function AfterProbe<B>(kv: map<string, Slot<B>>, k: string, ttl: nat, now: int): map<string, Slot<B>> {
    if Lookup(kv, k, now).Some? then kv else kv[k := Slot(PendingMarker, now + PendingTtl(ttl))]
  }

  function AfterComplete<B>(kv: map<string, Slot<B>>, k: string, result: StoredResult<B>, ttl: nat, now: int)
    : map<string, Slot<B>>
  {
    kv[k := Slot(Encoded(result), now + ttl)]
  }

  function AfterRelease<B>(kv: map<string, Slot<B>>, k: string): map<string, Slot<B>> {
    kv - {k}
  }

  /** How a command fares: it works, it never reaches the server, or only its answer is lost. */
  datatype Fate = Works | NotSent | AnswerLost

  class RedisStore<B> {
    var kv: map<string, Slot<B>>
    const ttl: nat

    constructor (ttl: nat)
      ensures kv == map[] && this.ttl == ttl
    {
      kv := map[];
      this.ttl := ttl;
    }

    method SetNX(k: string, value: Value<B>, life: nat, now: int) returns (ok: bool)
      modifies this
      ensures ok <==> Lookup(old(kv), k, now).None?
      ensures kv == if ok then old(kv)[k := Slot(value, now + life)] else old(kv)
    {
      ok := k !in kv || now >= kv[k].deadline;
      if ok {
        kv := kv[k := Slot(value, now + life)];
      }
    }

    /**
     * `Begin`, its SETNX at `now` and its GET, if it comes to one, at `later`. It fails exactly when a command it sends
     * fails; a reservation whose answer is lost stays. Otherwise it keeps the contract as of the two instants.
     */
    method Begin(key: string, now: int, later: int, probe: Fate, fetch: Fate)
      returns (prev: Option<StoredResult<B>>, isNew: bool, failed: bool)
      requires now <= later
      modifies this
      ensures kv == if probe.NotSent? then old(kv) else AfterProbe(old(kv), RedisKey(key), ttl, now)
      ensures failed <==> !probe.Works? || (Lookup(old(kv), RedisKey(key), now).Some? && !fetch.Works?)
      ensures failed ==> prev.None? && !isNew
      ensures !failed ==> (isNew <==> ContractBegin(old(kv), RedisKey(key), now) == New)
      ensures !failed ==> prev == match FetchAnswer(Lookup(old(kv), RedisKey(key), later))
                                  case Done(result) => if isNew then None else Some(result)
                                  case _ => None
    {
      var k := RedisKey(key);
      if probe.NotSent? {
        return None, false, true;
      }
      var ok := SetNX(k, PendingMarker, PendingTtl(ttl), now);
      if probe.AnswerLost? {
        return None, false, true;
      }
      if ok {
        return None, true, false;
      }
      if !fetch.Works? {
        return None, false, true;
      }
      if k !in kv || later >= kv[k].deadline {
        return None, false, false;
      }
      match kv[k].value {
        case PendingMarker => return None, false, false;
        case Encoded(result) => return Some(result), false, false;
      }
    }

    method Complete(key: string, result: StoredResult<B>, now: int, fate: Fate) returns (failed: bool)
      modifies this
      ensures failed <==> !fate.Works?
      ensures kv == if fate.NotSent? then old(kv) else AfterComplete(old(kv), RedisKey(key), result, ttl, now)
    {
      if !fate.NotSent? {
        kv := kv[RedisKey(key) := Slot(Encoded(result), now + ttl)];
      }
      failed := !fate.Works?;
    }

    /** Deletes whatever is under the key, whoever reserved it. */
    method Release(key: string, fate: Fate) returns (failed: bool)
      modifies this
      ensures failed <==> !fate.Works?
      ensures kv == if fate.NotSent? then old(kv) else AfterRelease(old(kv), RedisKey(key))
    {
      if !fate.NotSent? {
        kv := kv - {RedisKey(key)};
      }
      failed := !fate.Works?;
    }
  }
}
