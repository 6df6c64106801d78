/** The idempotency middleware for POST requests. */
module Middleware {
  import opened Basics
  import opened IdempotencyStore

  type HttpResult = StoredResult<string>
  type Headers = map<string, string>

  const MAX_KEY_LEN := 200
  const CONTENT_TYPE := "Content-Type"
  const REPLAYED := "Idempotent-Replayed"
  const JSON := "application/json; charset=UTF-8"
  const REPLAY_HEADERS := [CONTENT_TYPE, "ETag", "Location"]

  datatype Response = Response(status: int, body: string, headers: Headers)

  /** How the handler ends: with an error or a panic, or having written a response. */
  datatype Outcome = Failed | Written(response: Response)

  /** What the client sees: a refusal of the middleware, a stored response again, or the handler's own doing. */
  datatype Reply = Refused(status: int) | Resent(response: Response) | Handled(outcome: Outcome)

  function Header(h: Headers, name: string): string {
    if name in h then h[name] else ""
  }

  /** Bytes of a string in UTF-8, in which Go measures the key. */
  function Utf8Len(s: string): nat {
    if s == [] then 0
    else
      var c := s[0] as int;
      (if c < 0x80 then 1 else if c < 0x800 then 2 else if c < 0x1_0000 then 3 else 4) + Utf8Len(s[1..])
  }

  /** No character takes more than four bytes, and ASCII takes one. */
  lemma {:induction false} Utf8Bounds(s: string)
    ensures |s| <= Utf8Len(s) <= 4 * |s|
    ensures Utf8Len(s) == |s| <==> forall i :: 0 <= i < |s| ==> s[i] < '\U{80}'
  {
    if s != [] {
      Utf8Bounds(s[1..]);
      assert s == [s[0]] + s[1..];
    }
  }

  /** The ranges of one to four bytes (section 3 of RFC 3629). */
  lemma Utf8OfOne(c: char)
    ensures Utf8Len([c]) == 1 <==> c as int <= 0x7F
    ensures Utf8Len([c]) == 2 <==> 0x80 <= c as int <= 0x7FF
    ensures Utf8Len([c]) == 3 <==> 0x800 <= c as int <= 0xFFFF
    ensures Utf8Len([c]) == 4 <==> 0x1_0000 <= c as int <= 0x10_FFFF
  {
    assert [c][1..] == [];
  }

  lemma {:induction false} Utf8Concat(s: string, t: string)
    ensures Utf8Len(s + t) == Utf8Len(s) + Utf8Len(t)
  {
    if s == [] {
      assert s + t == t;
    } else {
      assert (s + t)[1..] == s[1..] + t;
      Utf8Concat(s[1..], t);
    }
  }

  // ---------------------------------------------------------------- the scope of a key

  function StoreKey(httpMethod: string, path: string, key: string): string {
    httpMethod + " " + path + " " + key
  }

  predicate NoSpace(s: string) {
    ' ' !in s
  }

  function FirstWord(s: string): string {
    if s == [] || s[0] == ' ' then [] else [s[0]] + FirstWord(s[1..])
  }

  lemma {:induction false} FirstWordOf(word: string, rest: string)
    requires NoSpace(word)
    ensures FirstWord(word + " " + rest) == word
  {
    if word != [] {
      assert (word + " " + rest)[1..] == word[1..] + " " + rest;
      FirstWordOf(word[1..], rest);
    }
  }

  lemma FirstWordIsUnique(a: string, x: string, b: string, y: string)
    requires NoSpace(a) && NoSpace(b) && a + " " + x == b + " " + y
    ensures a == b && x == y
  {
    FirstWordOf(a, x);
    FirstWordOf(b, y);
    assert x == (a + " " + x)[|a| + 1..] && y == (b + " " + y)[|b| + 1..];
  }

  /** Entries are scoped by method and route template, and by nothing else: one key at one route is one entry. */
  lemma StoreKeyScopes(m1: string, p1: string, k1: string, m2: string, p2: string, k2: string)
    requires NoSpace(m1) && NoSpace(p1) && NoSpace(m2) && NoSpace(p2)
    ensures StoreKey(m1, p1, k1) == StoreKey(m2, p2, k2) <==> m1 == m2 && p1 == p2 && k1 == k2
  {
    if StoreKey(m1, p1, k1) == StoreKey(m2, p2, k2) {
      assert StoreKey(m1, p1, k1) == m1 + " " + (p1 + " " + k1);
      assert StoreKey(m2, p2, k2) == m2 + " " + (p2 + " " + k2);
      FirstWordIsUnique(m1, p1 + " " + k1, m2, p2 + " " + k2);
      FirstWordIsUnique(p1, k1, p2, k2);
    }
  }

  // ---------------------------------------------------------------- saving and replaying a response

  /** The headers worth restoring: those of the list that were set. */
  function Restorable(h: Headers): Headers {
    map name | name in h && name in REPLAY_HEADERS && h[name] != "" :: h[name]
  }

  /** What is saved of a handler's outcome: nothing of errors, 5xx and answers replayed from the database. */
  function Saved(outcome: Outcome, bodyHash: string): Option<HttpResult> {
    match outcome
    case Failed => None
    case Written(r) =>
      if r.status >= 500 || Header(r.headers, REPLAYED) == "true" then None
      else Some(StoredResult(r.status, r.body, bodyHash, Restorable(r.headers)))
  }

  /** A handler's outcome is kept exactly when it wrote a response below 500 that is no replay itself. */
  lemma SavedIff(outcome: Outcome, bodyHash: string)
    ensures Saved(outcome, bodyHash).Some? <==>
              outcome.Written? && outcome.response.status < 500
              && !("Idempotent-Replayed" in outcome.response.headers
                   && outcome.response.headers["Idempotent-Replayed"] == "true")
    ensures Saved(outcome, bodyHash).Some? ==> Saved(outcome, bodyHash).value.bodyHash == bodyHash
  {
  }

  method CopyHeaders(h: Headers) returns (stored: Headers)
    ensures stored == Restorable(h)
  {
    stored := map[];
    for i := 0 to |REPLAY_HEADERS|
      invariant forall name :: name in stored <==> name in h && name in REPLAY_HEADERS[..i] && h[name] != ""
      invariant forall name :: name in stored ==> stored[name] == h[name]
    {
      var name := REPLAY_HEADERS[i];
      assert REPLAY_HEADERS[..i + 1] == REPLAY_HEADERS[..i] + [name];
      var value := Header(h, name);
      if value != "" {
        stored := stored[name := value];
      }
    }
    assert REPLAY_HEADERS[..|REPLAY_HEADERS|] == REPLAY_HEADERS;
  }

  /** The stored response again, its headers restored and marked as replayed. */
  function ReplayOf(prev: HttpResult): Response {
    var contentType := Header(prev.header, CONTENT_TYPE);
    Response(prev.status, prev.body,
             prev.header[REPLAYED := "true"][CONTENT_TYPE := if contentType == "" then JSON else contentType])
  }

  /**
   * Body and status come back unchanged, and so does each of the three headers that the first response set. A JSON
   * content type is supplied if there was none, the replay is marked, and no other header appears.
   */
  lemma ReplayRestores(outcome: Outcome, bodyHash: string, name: string)
    requires Saved(outcome, bodyHash).Some?
    ensures var first, again := outcome.response, ReplayOf(Saved(outcome, bodyHash).value);
            && again.status == first.status && again.body == first.body
            && Header(again.headers, "Idempotent-Replayed") == "true"
            && (name in {"Content-Type", "ETag", "Location"} && Header(first.headers, name) != "" ==>
                  Header(again.headers, name) == Header(first.headers, name))
            && (Header(first.headers, "Content-Type") == "" ==>
                  Header(again.headers, "Content-Type") == "application/json; charset=UTF-8")
            && (name in {"ETag", "Location"} && Header(first.headers, name) == "" ==> name !in again.headers)
            && (name !in {"Content-Type", "ETag", "Location", "Idempotent-Replayed"} ==> name !in again.headers)
  {
    assert REPLAY_HEADERS[0] == "Content-Type" && REPLAY_HEADERS[1] == "ETag" && REPLAY_HEADERS[2] == "Location";
  }

  /** The answer to a request that finds a finished entry: the stored response, or 422 for another body. */
  function AnswerFrom(prev: HttpResult, bodyHash: string): Reply {
    if prev.bodyHash != bodyHash then Refused(422) else Resent(ReplayOf(prev))
  }

  // ---------------------------------------------------------------- one request alone

  type Entries = map<string, Option<HttpResult>>

  /** How the three store operations of a request fare. */
  datatype Network = Network(begin: Fate, complete: Fate, release: Fate)

  const RELIABLE := Network(Works, Works, Works)

  /** The answer to a request that has a usable key. */
  function ReplyTo(data: Entries, k: string, bodyHash: string, outcome: Outcome, net: Network): Reply {
    if !net.begin.Works? then Refused(503)
    else
      match MemoryBegin(data, k)
      case New => Handled(outcome)
      case InProgress => Refused(409)
      case Done(prev) => AnswerFrom(prev, bodyHash)
  }

  /**
   * Which answer a request with a usable key gets. It fails closed: without an answer of the store no handler runs.
   * The handler runs exactly for a key that is new; a reserved key gives 409, a finished one 422 for another body and
   * the stored status and body for the same.
   */
  lemma ReplyIsDecided(data: Entries, k: string, bodyHash: string, outcome: Outcome, net: Network)
    ensures var reply := ReplyTo(data, k, bodyHash, outcome, net);
            if !net.begin.Works? then reply == Refused(503)
            else if k !in data then reply == Handled(outcome)
            else if data[k].None? then reply == Refused(409)
            else if data[k].value.bodyHash != bodyHash then reply == Refused(422)
            else reply.Resent? && reply.response.status == data[k].value.status
                 && reply.response.body == data[k].value.body
  {
  }

  /** The entries once the handler has ended: a result that is not known to be stored is released again. */
  function Settled(data: Entries, k: string, saved: Option<HttpResult>, net: Network): Entries {
    var stored := if saved.Some? && !net.complete.NotSent? then data[k := saved] else data;
    if (saved.Some? && net.complete.Works?) || net.release.NotSent? then stored else stored - {k}
  }

  /** The entries after the whole request. */
  function AfterRequest(data: Entries, k: string, bodyHash: string, outcome: Outcome, net: Network): Entries {
    if k in data || net.begin.NotSent? then data
    else if net.begin.AnswerLost? then data[k := None]
    else Settled(data[k := None], k, Saved(outcome, bodyHash), net)
  }

  /**
   * What a request leaves behind. Entries found are never touched, nor are those of other keys. A new key stays
   * reserved, so that resends get 409, exactly when the answer to Begin was lost or neither a save nor the release
   * got through; it is finished exactly when a result was saved and not released again, and that is the result.
   */
  lemma LeftBehind(data: Entries, k: string, bodyHash: string, outcome: Outcome, net: Network)
    ensures var after, saved := AfterRequest(data, k, bodyHash, outcome, net), Saved(outcome, bodyHash);
            && (forall other :: other != k || k in data ==>
                  (other in after <==> other in data) && (other in data ==> after[other] == data[other]))
            && (k !in data ==>
                  && (MemoryBegin(after, k) == InProgress <==>
                        || net.begin.AnswerLost?
                        || (net.begin.Works? && net.release.NotSent? && (saved.None? || net.complete.NotSent?)))
                  && (MemoryBegin(after, k).Done? <==>
                        && net.begin.Works? && saved.Some?
                        && (net.complete.Works? || (net.complete.AnswerLost? && net.release.NotSent?)))
                  && (MemoryBegin(after, k).Done? ==> MemoryBegin(after, k).result == saved.value))
  {
  }

  /**
   * A request from start to end with no other in between. `bodyHash` is None when the body cannot be read, and
   * `outcome` is how the handler ends if it runs.
   */
  method Serve(store: MemoryStore<string>, httpMethod: string, path: string, key: string, bodyHash: Option<string>,
               outcome: Outcome, net: Network)
    returns (reply: Reply)
    modifies store
    ensures var k := StoreKey(httpMethod, path, key);
            if httpMethod != "POST" || key == "" then
              reply == Handled(outcome) && store.data == old(store.data)
            else if Utf8Len(key) > 200 || bodyHash.None? then
              reply == Refused(400) && store.data == old(store.data)
            else
              && reply == ReplyTo(old(store.data), k, bodyHash.value, outcome, net)
              && store.data == AfterRequest(old(store.data), k, bodyHash.value, outcome, net)
  {
    if httpMethod != "POST" || key == "" {
      return Handled(outcome);
    }
    if Utf8Len(key) > MAX_KEY_LEN || bodyHash.None? {
      return Refused(400);
    }
    var k := StoreKey(httpMethod, path, key);
    if net.begin.NotSent? {
      return Refused(503);
    }
    var prev, isNew := store.Begin(k);
    if net.begin.AnswerLost? {
      return Refused(503);
    }
    if !isNew {
      if prev.None? {
        return Refused(409);
      }
      if prev.value.bodyHash != bodyHash.value {
        return Refused(422);
      }
      return Resent(ReplayOf(prev.value));
    }
    var completed := false;
    if outcome.Written? {
      var r := outcome.response;
      if r.status < 500 && Header(r.headers, REPLAYED) != "true" {
        var headers := CopyHeaders(r.headers);
        if !net.complete.NotSent? {
          store.Complete(k, StoredResult(r.status, r.body, bodyHash.value, headers));
        }
        completed := net.complete.Works?;
      }
    }
    if !completed && !net.release.NotSent? {
      store.Release(k);
    }
    return Handled(outcome);
  }
}
