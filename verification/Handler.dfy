/** What the HTTP handlers read from and write to headers and query parameters. */
module Handler {
  import opened Basics
  import opened Text
  import opened Paging

  /** HTTP status of a refused request. */
  type Status = int

  // ---------------------------------------------------------------- ETag and If-Match

  const QUOTE: char := '"'

  function ETag(version: Int64): string {
    [QUOTE] + FormatInt(version) + [QUOTE]
  }

  predicate HasPrefix(s: string, prefix: string) {
    prefix <= s
  }

  /** The expected version in an If-Match header; none if it is missing or `*`. */
  function ParseIfMatch(header: string): Result<Option<Int64>, Status> {
    var raw := TrimSpace(header);
    if raw == "" || raw == "*" then Ok(None)
    else if HasPrefix(raw, "W/") then Err(412)
    else if |raw| < 2 || raw[0] != QUOTE || raw[|raw| - 1] != QUOTE then Err(400)
    else
      var inner := raw[1..|raw| - 1];
      if QUOTE in inner then Err(400)
      else match ParseInt(inner)
           case None => Err(400)
           case Some(v) => Ok(Some(v))
  }

  ghost predicate Quoted(raw: string, inner: string) {
    raw == [QUOTE] + inner + [QUOTE] && QUOTE !in inner
  }

  /** A header is accepted with a version exactly when it is one strong tag around a 64-bit decimal integer. */
  lemma IfMatchAcceptsIff(header: string, v: Int64)
    ensures ParseIfMatch(header) == Ok(Some(v)) <==>
              exists inner :: Quoted(TrimSpace(header), inner) && ParseInt(inner) == Some(v)
  {
    var raw := TrimSpace(header);
    if ParseIfMatch(header) == Ok(Some(v)) {
      assert Quoted(raw, raw[1..|raw| - 1]);
    }
    forall inner | Quoted(raw, inner) && ParseInt(inner) == Some(v)
      ensures ParseIfMatch(header) == Ok(Some(v))
    {
      assert raw[0] == QUOTE && raw[1..|raw| - 1] == inner;
    }
  }

  /** What becomes of any If-Match header, whatever space surrounds its core. */
  lemma IfMatchIsDecided(header: string, left: string, core: string, right: string, v: Int64)
    requires Padded(header, left, core, right) && Tight(core)
    ensures var weak := |core| >= 2 && core[0] == 'W' && core[1] == '/';
            && (ParseIfMatch(header) == Ok(None) <==> core in {"", "*"})
            && (ParseIfMatch(header) == Err(412) <==> weak)
            && (ParseIfMatch(header) == Ok(Some(v)) <==>
                  exists inner :: Quoted(core, inner) && ParseInt(inner) == Some(v))
            && (ParseIfMatch(header).Err? ==> ParseIfMatch(header).error in {400, 412})
  {
    TrimSpaceIsTheCore(header, core);
    IfMatchAcceptsIff(header, v);
    if |core| >= 2 {
      assert HasPrefix(core, "W/") <==> core[0] == 'W' && core[1] == '/';
    }
  }

  /** Every version a response shows, both 64-bit extremes included, comes back from If-Match as itself. */
  lemma ETagRoundTrip(version: Int64)
    ensures ParseIfMatch(ETag(version)) == Ok(Some(version)) && Quoted(ETag(version), FormatInt(version))
  {
    var inner := FormatInt(version);
    var magnitude: int := if version < 0 then 0 - version else version;
    FormatNatDigits(magnitude);
    assert Padded(ETag(version), [], ETag(version), []);
    TrimSpaceIsTheCore(ETag(version), ETag(version));
    ParseFormatInt(version);
    assert Quoted(TrimSpace(ETag(version)), inner);
    IfMatchAcceptsIff(ETag(version), version);
  }

  /** A weak tag never matches, whatever follows and whatever space surrounds it (section 13.1.1 of RFC 9110). */
  lemma WeakTagsAreRefused(tag: string, left: string, right: string)
    requires AllSpace(left) && AllSpace(right) && Tight("W/" + tag)
    ensures ParseIfMatch(left + ("W/" + tag) + right) == Err(412)
  {
    var core := "W/" + tag;
    assert Padded(left + core + right, left, core, right);
    TrimSpaceIsTheCore(left + core + right, core);
    assert core[0] == 'W';
  }

  // ---------------------------------------------------------------- list parameters

  const MAX_LIST_LIMIT := 500
  const DEFAULT_LIST_LIMIT := 100

  /** The ids in the parts of a comma-separated list, blanks skipped; None if a part is no id. */
  function IdsOf(parts: seq<string>, parseUuid: string -> Option<Uuid>): Option<seq<Uuid>> {
    if parts == [] then Some([])
    else
      var front := IdsOf(parts[..|parts| - 1], parseUuid);
      var part := TrimSpace(parts[|parts| - 1]);
      if front.None? || part == "" then front
      else
        var id := parseUuid(part);
        if id.None? then None else Some(front.value + [id.value])
  }

  /** A blank part adds no id, and a part that is no id spoils the list. */
  lemma IdsOfOnePart(part: string, parseUuid: string -> Option<Uuid>)
    ensures IdsOf([part], parseUuid) ==
              if AllSpace(part) then Some([])
              else if parseUuid(TrimSpace(part)).None? then None
              else Some([parseUuid(TrimSpace(part)).value])
  {
    assert [part][..0] == [];
    if AllSpace(part) {
      assert Padded(part, part, [], []);
      TrimSpaceIsTheCore(part, []);
    } else {
      var left, right := TrimSpaceIsACore(part);
      assert TrimSpace(part) == [] ==> part == left + right;
      assert IdsOf([], parseUuid) == Some([]);
      var id := parseUuid(TrimSpace(part));
      assert id.Some? ==> [] + [id.value] == [id.value];
    }
  }

  /** Ids are read part by part, in order. */
  lemma {:induction false} IdsPartByPart(xs: seq<string>, ys: seq<string>, parseUuid: string -> Option<Uuid>)
    ensures var a, b := IdsOf(xs, parseUuid), IdsOf(ys, parseUuid);
            IdsOf(xs + ys, parseUuid) == if a.None? || b.None? then None else Some(a.value + b.value)
  {
    if ys == [] {
      assert xs + ys == xs;
      assert IdsOf(xs, parseUuid).Some? ==> IdsOf(xs, parseUuid).value + [] == IdsOf(xs, parseUuid).value;
    } else {
      var front := ys[..|ys| - 1];
      assert (xs + ys)[..|xs + ys| - 1] == xs + front;
      IdsPartByPart(xs, front, parseUuid);
      var a, b, id := IdsOf(xs, parseUuid), IdsOf(front, parseUuid), parseUuid(TrimSpace(ys[|ys| - 1]));
      if a.Some? && b.Some? && id.Some? {
        assert (a.value + b.value) + [id.value] == a.value + (b.value + [id.value]);
      }
    }
  }

  /** A missing id list is None; one that was supplied is Some, even if it names nothing. */
  function SuppliedIds(ids: string, parseUuid: string -> Option<Uuid>): Result<Option<seq<Uuid>>, Status> {
    var raw := TrimSpace(ids);
    if raw == "" then Ok(None)
    else
      var parsed := IdsOf(Split(raw, ','), parseUuid);
      if parsed.None? || |parsed.value| > MAX_LIST_LIMIT then Err(400) else Ok(parsed)
  }

  /** How a comma-separated list of ids is read, whatever space surrounds it. */
  lemma SuppliedIdsAreRead(ids: string, left: string, core: string, right: string,
                           parseUuid: string -> Option<Uuid>)
    requires Padded(ids, left, core, right) && Tight(core)
    ensures var parts := Split(core, ',');
            SuppliedIds(ids, parseUuid) ==
              if core == "" then Ok(None)
              else if IdsOf(parts, parseUuid).Some? && |IdsOf(parts, parseUuid).value| <= 500
              then Ok(IdsOf(parts, parseUuid))
              else Err(400)
  {
    TrimSpaceIsTheCore(ids, core);
  }

  /** Whether the parameters describe what the client asked for. */
  predicate Describes(p: ListParams, ids: Option<seq<Uuid>>, limit: string, offset: string) {
    && p.ids == ids
    && (limit != "" ==> ParseInt(limit) == Some(p.limit) && 1 <= p.limit <= 500)
    && (limit == "" ==> p.limit == if ids.None? then 100 else 0)
    && (offset != "" ==> ParseInt(offset) == Some(p.offset))
    && (offset == "" ==> p.offset == 0)
  }

  method ParseListParams(ids: string, limit: string, offset: string, parseUuid: string -> Option<Uuid>)
    returns (result: Result<ListParams, Status>)
    ensures result.Ok? ==> SuppliedIds(ids, parseUuid).Ok?
                           && Describes(result.value, SuppliedIds(ids, parseUuid).value, limit, offset)
    ensures result.Err? ==>
              && result.error == 400
              && (SuppliedIds(ids, parseUuid).Err?
                  || forall p :: !Describes(p, SuppliedIds(ids, parseUuid).value, limit, offset))
  {
    var p := ListParams(None, 0, 0);
    var raw := TrimSpace(ids);
    if raw != "" {
      var parts := Split(raw, ',');
      var given: seq<Uuid> := [];
      for i := 0 to |parts|
        invariant IdsOf(parts[..i], parseUuid) == Some(given)
      {
        assert parts[..i + 1][..i] == parts[..i];
        var part := TrimSpace(parts[i]);
        if part != "" {
          var id := parseUuid(part);
          if id.None? {
            BadPartSpoilsAll(parts, i + 1, parseUuid);
            return Err(400);
          }
          given := given + [id.value];
        }
      }
      assert parts[..|parts|] == parts;
      if |given| > MAX_LIST_LIMIT {
        return Err(400);
      }
      p := p.(ids := Some(given));
    }
    if limit != "" {
      var n := ParseInt(limit);
      if n.None? || n.value < 1 || n.value > MAX_LIST_LIMIT {
        return Err(400);
      }
      p := p.(limit := n.value);
    } else if p.ids.None? {
      p := p.(limit := DEFAULT_LIST_LIMIT);
    }
    if offset != "" {
      var n := ParseInt(offset);
      if n.None? || n.value < 0 {
        return Err(400);
      }
      p := p.(offset := n.value);
    }
    return Ok(p);
  }

  lemma {:induction false} BadPartSpoilsAll(parts: seq<string>, i: nat, parseUuid: string -> Option<Uuid>)
    requires i <= |parts| && IdsOf(parts[..i], parseUuid).None?
    ensures IdsOf(parts, parseUuid).None?
    decreases |parts|
  {
    if i == |parts| {
      assert parts[..i] == parts;
    } else {
      var front := parts[..|parts| - 1];
      assert front[..i] == parts[..i];
      BadPartSpoilsAll(front, i, parseUuid);
    }
  }

  /** Every accepted list query returns at most 500 rows; a supplied list that names nothing returns none. */
  lemma AcceptedListsAreBounded(rows: Rows, p: ListParams, ids: string, limit: string, offset: string,
                                parseUuid: string -> Option<Uuid>)
    requires SuppliedIds(ids, parseUuid).Ok?
    requires Describes(p, SuppliedIds(ids, parseUuid).value, limit, offset)
    ensures |ListedIds(rows, p)| <= 500
    ensures p.ids == None && limit == "" ==> |ListedIds(rows, p)| <= 100
    ensures p.ids == Some([]) ==> ListedIds(rows, p) == []
    ensures forall i, j :: 0 <= i < j < |ListedIds(rows, p)| ==> ListedIds(rows, p)[i] != ListedIds(rows, p)[j]
  {
    if p.ids.Some? {
      ListingByIdsIsBounded(rows, p.ids.value);
    }
    var all := Listing(rows, p.ids);
    forall i, j | 0 <= i < j < |ListedIds(rows, p)|
      ensures ListedIds(rows, p)[i] != ListedIds(rows, p)[j]
    {
      assert Before(rows, all[p.offset + i], all[p.offset + j]);
    }
  }
}
