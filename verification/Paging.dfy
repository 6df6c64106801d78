/** The list and count queries, and paging through a fixed table. */
module Paging {
  import opened Basics
  import opened CharacterDomain
  import opened CharacterTable
  import opened Repository

  type Rows = map<Uuid, Row>

  /** `ids`: None lists everything, Some restricts. A limit of 0 means none. */
  datatype ListParams = ListParams(ids: Option<seq<Uuid>>, limit: nat, offset: nat)

  predicate Listed(rows: Rows, ids: Option<seq<Uuid>>, id: Uuid) {
    id in rows && Visible(rows[id]) && (ids.Some? ==> id in ids.value)
  }

  /** ORDER BY created_at, id. */
  predicate Before(rows: Rows, a: Uuid, b: Uuid)
    requires a in rows && b in rows
  {
    rows[a].createdAt < rows[b].createdAt || (rows[a].createdAt == rows[b].createdAt && a < b)
  }

  predicate Ordered(rows: Rows, s: seq<Uuid>) {
    && (forall i :: 0 <= i < |s| ==> s[i] in rows)
    && (forall i, j :: 0 <= i < j < |s| ==> Before(rows, s[i], s[j]))
  }

  /** The strictly ordered sequence of exactly the listed ids among `among`. */
  ghost predicate IsListing(rows: Rows, ids: Option<seq<Uuid>>, among: set<Uuid>, s: seq<Uuid>) {
    Ordered(rows, s) && forall id :: id in s <==> id in among && Listed(rows, ids, id)
  }

  lemma HeadIsLeast(rows: Rows, ids: Option<seq<Uuid>>, among: set<Uuid>, s: seq<Uuid>, t: seq<Uuid>)
    requires IsListing(rows, ids, among, s) && IsListing(rows, ids, among, t) && s != [] && t != []
    ensures s[0] == t[0]
  {
    assert s[0] in t && t[0] in s;
    var i := IndexOf(t, s[0]);
    var j := IndexOf(s, t[0]);
  }

  lemma {:induction false} ListingIsUnique(rows: Rows, ids: Option<seq<Uuid>>, among: set<Uuid>,
                                           s: seq<Uuid>, t: seq<Uuid>)
    requires IsListing(rows, ids, among, s) && IsListing(rows, ids, among, t)
    ensures s == t
    decreases |s|
  {
    assert s != [] ==> s[0] in s;
    assert t != [] ==> t[0] in t;
    if s != [] && t != [] {
      HeadIsLeast(rows, ids, among, s, t);
      TailIsListing(rows, ids, among, s);
      TailIsListing(rows, ids, among, t);
      ListingIsUnique(rows, ids, among - {s[0]}, s[1..], t[1..]);
    }
  }

  lemma TailIsListing(rows: Rows, ids: Option<seq<Uuid>>, among: set<Uuid>, s: seq<Uuid>)
    requires IsListing(rows, ids, among, s) && s != []
    ensures IsListing(rows, ids, among - {s[0]}, s[1..])
  {
  }

  function InsertSorted(rows: Rows, s: seq<Uuid>, id: Uuid): seq<Uuid>
    requires Ordered(rows, s) && id in rows
  {
    if s == [] || Before(rows, id, s[0]) then [id] + s
    else [s[0]] + InsertSorted(rows, s[1..], id)
  }

  lemma {:induction false} InsertSortedKeepsOrder(rows: Rows, s: seq<Uuid>, id: Uuid)
    requires Ordered(rows, s) && id in rows && id !in s
    ensures Ordered(rows, InsertSorted(rows, s, id))
    ensures forall x :: x in InsertSorted(rows, s, id) <==> x in s || x == id
  {
    if s != [] && !Before(rows, id, s[0]) {
      var rest := InsertSorted(rows, s[1..], id);
      InsertSortedKeepsOrder(rows, s[1..], id);
      forall i | 0 <= i < |rest|
        ensures Before(rows, s[0], rest[i])
      {
        assert rest[i] in rest;
        if rest[i] != id {
          var k := IndexOf(s[1..], rest[i]);
        }
      }
      assert s == [s[0]] + s[1..];
    }
  }

  lemma ListingGrows(rows: Rows, ids: Option<seq<Uuid>>, among: set<Uuid>, s: seq<Uuid>, id: Uuid)
    requires IsListing(rows, ids, among, s) && id !in among
    ensures if Listed(rows, ids, id) then id !in s && IsListing(rows, ids, among + {id}, InsertSorted(rows, s, id))
            else IsListing(rows, ids, among + {id}, s)
  {
    if Listed(rows, ids, id) {
      InsertSortedKeepsOrder(rows, s, id);
    }
  }

  lemma {:induction false} ListingExists(rows: Rows, ids: Option<seq<Uuid>>, among: set<Uuid>)
    ensures exists s :: IsListing(rows, ids, among, s)
  {
    if among == {} {
      assert IsListing(rows, ids, among, []);
    } else {
      var id :| id in among;
      ListingExists(rows, ids, among - {id});
      var s :| IsListing(rows, ids, among - {id}, s);
      ListingGrows(rows, ids, among - {id}, s, id);
      assert among - {id} + {id} == among;
      if !Listed(rows, ids, id) {
        assert IsListing(rows, ids, among, s);
      }
    }
  }

  /** All listed ids in order: the query without LIMIT and OFFSET. */
  ghost function Listing(rows: Rows, ids: Option<seq<Uuid>>): (s: seq<Uuid>)
    ensures IsListing(rows, ids, rows.Keys, s)
  {
    ListingExists(rows, ids, rows.Keys);
    var s :| IsListing(rows, ids, rows.Keys, s);
    s
  }

  function Cut(s: seq<Uuid>, limit: nat, offset: nat): seq<Uuid> {
    var rest := if offset <= |s| then s[offset..] else [];
    if limit == 0 || |rest| <= limit then rest else rest[..limit]
  }

  /** A page starts at the offset and runs to the limit or the end; a limit of 0 is no limit. */
  lemma PageOfListing(s: seq<Uuid>, limit: nat, offset: nat)
    ensures var page, rest := Cut(s, limit, offset), if offset <= |s| then |s| - offset else 0;
            && |page| == (if limit == 0 || rest <= limit then rest else limit)
            && forall i :: 0 <= i < |page| ==> page[i] == s[offset + i]
  {
  }

  /** ListCharacters. */
  method ListCharacters(rows: Rows, ids: Option<seq<Uuid>>, limit: nat, offset: nat) returns (page: seq<Uuid>)
    ensures page == Cut(Listing(rows, ids), limit, offset)
  {
    var todo, sorted := rows.Keys, [];
    while todo != {}
      invariant todo <= rows.Keys
      invariant IsListing(rows, ids, rows.Keys - todo, sorted)
      decreases todo
    {
      var id :| id in todo;
      ListingGrows(rows, ids, rows.Keys - todo, sorted, id);
      assert rows.Keys - todo + {id} == rows.Keys - (todo - {id});
      if Listed(rows, ids, id) {
        sorted := InsertSorted(rows, sorted, id);
      }
      todo := todo - {id};
    }
    assert rows.Keys - todo == rows.Keys;
    ListingIsUnique(rows, ids, rows.Keys, sorted, Listing(rows, ids));
    page := Cut(sorted, limit, offset);
  }

  function Elements(s: seq<Uuid>): set<Uuid> {
    set id | id in s
  }

  /** CountCharacters. */
  function CountCharacters(rows: Rows, ids: Option<seq<Uuid>>): nat {
    |set id | id in rows && Listed(rows, ids, id)|
  }

  // ---------------------------------------------------------------- the repository's List and Count

  /** A restriction to no ids lists nothing; the query is not even sent. */
  ghost function ListedIds(rows: Rows, p: ListParams): seq<Uuid> {
    if p.ids == Some([]) then [] else Cut(Listing(rows, p.ids), p.limit, p.offset)
  }

  method List(repo: CharacterRepository, p: ListParams) returns (out: seq<Character>)
    ensures |out| == |ListedIds(repo.db.rows, p)|
    ensures forall i :: 0 <= i < |out| ==>
              fresh(out[i]) && Shows(out[i], repo.db.View(), ListedIds(repo.db.rows, p)[i])
    ensures forall i, j :: 0 <= i < j < |out| ==>
              out[i].createdAt < out[j].createdAt || (out[i].createdAt == out[j].createdAt && out[i].id < out[j].id)
  {
    if p.ids == Some([]) {
      return [];
    }
    var page := ListCharacters(repo.db.rows, p.ids, p.limit, p.offset);
    PageIsVisible(repo.db.rows, p.ids, p.limit, p.offset);
    out := [];
    for k := 0 to |page|
      invariant |out| == k
      invariant forall i :: 0 <= i < k ==> fresh(out[i]) && Shows(out[i], repo.db.View(), page[i])
    {
      var c := repo.FromRow(page[k], repo.db.rows[page[k]]);
      out := out + [c];
    }
    PageIsOrdered(repo.db.rows, p.ids, p.limit, p.offset);
  }

  method Count(repo: CharacterRepository, p: ListParams) returns (total: nat)
    ensures total == |Listing(repo.db.rows, p.ids)|
  {
    CountIsLength(repo.db.rows, p.ids);
    if p.ids == Some([]) {
      NothingListed(repo.db.rows);
      return 0;
    }
    total := CountCharacters(repo.db.rows, p.ids);
  }

  // ---------------------------------------------------------------- properties

  lemma PageIsVisible(rows: Rows, ids: Option<seq<Uuid>>, limit: nat, offset: nat)
    ensures forall i :: 0 <= i < |Cut(Listing(rows, ids), limit, offset)| ==>
              Listed(rows, ids, Cut(Listing(rows, ids), limit, offset)[i])
  {
  }

  lemma PageIsOrdered(rows: Rows, ids: Option<seq<Uuid>>, limit: nat, offset: nat)
    ensures Ordered(rows, Cut(Listing(rows, ids), limit, offset))
  {
  }

  /** Fetching by ids without a limit gives exactly the visible rows among them. */
  lemma BatchFetchIsComplete(rows: Rows, ids: seq<Uuid>, id: Uuid)
    ensures id in ListedIds(rows, ListParams(Some(ids), 0, 0)) <==> id in rows && Visible(rows[id]) && id in ids
  {
    var s := Listing(rows, Some(ids));
    assert s[0..] == s;
  }

  lemma NothingListed(rows: Rows)
    ensures Listing(rows, Some([])) == []
  {
    ListingByIdsIsBounded(rows, []);
  }

  lemma HeadIsNotInTail(rows: Rows, s: seq<Uuid>)
    requires Ordered(rows, s) && s != []
    ensures s[0] !in s[1..]
  {
    forall k | 0 <= k < |s[1..]|
      ensures s[1..][k] != s[0]
    {
      assert Before(rows, s[0], s[k + 1]);
    }
  }

  /** Strictly ordered sequences repeat nothing, so they are as long as the set of their elements. */
  lemma {:induction false} OrderedSize(rows: Rows, s: seq<Uuid>)
    requires Ordered(rows, s)
    ensures |Elements(s)| == |s|
  {
    if s != [] {
      HeadIsNotInTail(rows, s);
      OrderedSize(rows, s[1..]);
      assert Elements(s) == Elements(s[1..]) + {s[0]};
    }
  }

  /** `Count` is the length of the full listing, whatever the page asked for. */
  lemma CountIsLength(rows: Rows, ids: Option<seq<Uuid>>)
    ensures CountCharacters(rows, ids) == |Listing(rows, ids)|
  {
    var s := Listing(rows, ids);
    OrderedSize(rows, s);
    assert Elements(s) == (set id | id in rows && Listed(rows, ids, id));
  }

  lemma {:induction false} DistinctAtMost(ids: seq<Uuid>)
    ensures |Elements(ids)| <= |ids|
  {
    if ids != [] {
      DistinctAtMost(ids[1..]);
      assert Elements(ids) == Elements(ids[1..]) + {ids[0]};
    }
  }

  lemma SubsetSize(a: set<Uuid>, b: set<Uuid>)
    requires a <= b
    ensures |a| <= |b|
  {
    assert b == a + (b - a);
  }

  /** Listing by ids never returns more rows than ids were given, however often they repeat. */
  lemma ListingByIdsIsBounded(rows: Rows, ids: seq<Uuid>)
    ensures |Listing(rows, Some(ids))| <= |ids|
  {
    var s := Listing(rows, Some(ids));
    OrderedSize(rows, s);
    DistinctAtMost(ids);
    SubsetSize(Elements(s), Elements(ids));
  }

  /** `n` pages of size `size` read one after the other from `offset`. */
  function Pages(s: seq<Uuid>, size: nat, offset: nat, n: nat): seq<Uuid>
    decreases n
  {
    if n == 0 then [] else Cut(s, size, offset) + Pages(s, size, offset + size, n - 1)
  }

  function Clip(s: seq<Uuid>, i: nat): nat {
    if i <= |s| then i else |s|
  }

  /** Rows `n` pages of size `size` have room for. */
  function Room(size: nat, n: nat): nat {
    if n == 0 then 0 else size + Room(size, n - 1)
  }

  lemma {:induction false} RoomIsProduct(size: nat, n: nat)
    ensures Room(size, n) == size * n
  {
    if n > 0 {
      RoomIsProduct(size, n - 1);
      assert size * n == size + size * (n - 1);
    }
  }

  lemma SlicesJoin(s: seq<Uuid>, i: nat, j: nat, k: nat)
    requires i <= j <= k <= |s|
    ensures s[i..j] + s[j..k] == s[i..k]
  {
  }

  lemma CutIsASlice(s: seq<Uuid>, size: nat, offset: nat)
    requires size >= 1
    ensures Cut(s, size, offset) == s[Clip(s, offset)..Clip(s, offset + size)]
  {
  }

  lemma {:induction false} PagesAreASlice(s: seq<Uuid>, size: nat, offset: nat, n: nat)
    requires size >= 1
    ensures Pages(s, size, offset, n) == s[Clip(s, offset)..Clip(s, offset + Room(size, n))]
    decreases n
  {
    if n > 0 {
      CutIsASlice(s, size, offset);
      PagesAreASlice(s, size, offset + size, n - 1);
      SlicesJoin(s, Clip(s, offset), Clip(s, offset + size), Clip(s, offset + Room(size, n)));
    }
  }

  /**
   * Paging partitions: reading a fixed table page by page gives, once enough pages are read, exactly the visible
   * rows asked for, strictly ordered by creation time and id; so none is repeated or missed.
   */
  lemma PagingPartitions(rows: Rows, ids: Option<seq<Uuid>>, size: nat, n: nat)
    requires size >= 1 && size * n >= CountCharacters(rows, ids)
    ensures var all := Pages(Listing(rows, ids), size, 0, n);
            && |all| == CountCharacters(rows, ids)
            && (forall id :: id in all <==> id in rows && Visible(rows[id]) && (ids.Some? ==> id in ids.value))
            && (forall i, j :: 0 <= i < j < |all| ==>
                  && rows[all[i]].createdAt <= rows[all[j]].createdAt
                  && (rows[all[i]].createdAt == rows[all[j]].createdAt ==> all[i] < all[j]))
  {
    var s := Listing(rows, ids);
    CountIsLength(rows, ids);
    PagesAreASlice(s, size, 0, n);
    RoomIsProduct(size, n);
    assert s[0..|s|] == s;
  }
}
