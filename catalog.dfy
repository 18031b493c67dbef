/**
  The REST handlers of the music API (api/index.js): `GET /api/music`, which
  pages through the collection newest first, and `POST /api/music`, which
  validates a body and stores one new document.

  The document store is a sequence of entries in insertion order. The query
  `Music.find().sort({ createdAt: -1 }).skip(skip).limit(limit)` becomes a
  window on `NewestFirst(entries)`, and `Date.now` at creation is the `now`
  parameter of the POST handler.
 */
module Catalog {
  import opened Wrappers
  import opened JsStrings

  /** A document of the `Music` model; `createdAt` is the creation time in milliseconds. */
  datatype Entry = Entry(url: string, title: string, createdAt: int)

  function Min(a: int, b: int): int {
    if a <= b then a else b
  }

  // ----- The order of `sort({ createdAt: -1 })` -----

  predicate NewestFirstSorted(s: seq<Entry>) {
    forall i, j :: 0 <= i < j < |s| ==> s[i].createdAt >= s[j].createdAt
  }

  /** Insert `e` in front of the first entry that is not newer than it. */
  function Insert(e: Entry, s: seq<Entry>): (r: seq<Entry>)
    requires NewestFirstSorted(s)
    ensures |r| == |s| + 1
    ensures NewestFirstSorted(r)
    ensures multiset(r) == multiset(s) + multiset{e}
    ensures r[0] == e || (s != [] && r[0] == s[0])
  {
    if s == [] || e.createdAt >= s[0].createdAt then
      ConsSorted(e, s);
      [e] + s
    else
      var t := Insert(e, s[1..]);
      assert s == [s[0]] + s[1..];
      ConsSorted(s[0], t);
      [s[0]] + t
  }

  /** An entry no older than the first of a sorted sequence can go in front of it. */
  lemma ConsSorted(x: Entry, t: seq<Entry>)
    requires NewestFirstSorted(t)
    requires t != [] ==> t[0].createdAt <= x.createdAt
    ensures NewestFirstSorted([x] + t)
  {
    var r := [x] + t;
    forall i, j | 0 <= i < j < |r| ensures r[i].createdAt >= r[j].createdAt {
      if i == 0 {
        assert r[j] == t[j - 1] && t[j - 1].createdAt <= t[0].createdAt;
      } else {
        assert r[i] == t[i - 1] && r[j] == t[j - 1];
      }
    }
  }

  /** The entries ordered by `createdAt`, newest first; among equal times the later-inserted comes first. */
  function NewestFirst(s: seq<Entry>): (r: seq<Entry>)
    ensures |r| == |s|
    ensures NewestFirstSorted(r)
    ensures multiset(r) == multiset(s)
  {
    if s == [] then []
    else
      assert s == s[..|s| - 1] + [s[|s| - 1]];
      Insert(s[|s| - 1], NewestFirst(s[..|s| - 1]))
  }

  /** Every entry was created strictly later than the ones inserted before it. */
  predicate StrictlyChronological(s: seq<Entry>) {
    forall i, j :: 0 <= i < j < |s| ==> s[i].createdAt < s[j].createdAt
  }

  function Reversed(s: seq<Entry>): (r: seq<Entry>)
    ensures |r| == |s|
  {
    if s == [] then [] else [s[|s| - 1]] + Reversed(s[..|s| - 1])
  }

  /** When creation times grow with insertion, newest first is simply the reverse insertion order. */
  lemma {:induction false} ChronologicalNewestFirst(s: seq<Entry>)
    requires StrictlyChronological(s)
    ensures NewestFirst(s) == Reversed(s)
  {
    if s != [] {
      var init := s[..|s| - 1];
      ChronologicalNewestFirst(init);
      assert NewestFirst(init) == Reversed(init);
      if init != [] {
        ReversedHead(init);
      }
    }
  }

  lemma ReversedHead(s: seq<Entry>)
    requires s != []
    ensures Reversed(s)[0] == s[|s| - 1]
  {
  }

  /** The first entry newest first was created no earlier than any entry of the collection. */
  lemma NewestFirstHead(s: seq<Entry>)
    requires s != []
    ensures |NewestFirst(s)| == |s|
    ensures forall i :: 0 <= i < |s| ==> NewestFirst(s)[0].createdAt >= s[i].createdAt
  {
    var r := NewestFirst(s);
    forall i | 0 <= i < |s| ensures r[0].createdAt >= s[i].createdAt {
      assert s[i] in multiset(r);
      var k :| 0 <= k < |r| && r[k] == s[i];
    }
  }

  // ----- GET /api/music -----

  const DEFAULT_PAGE := 1
  const DEFAULT_LIMIT := 10

  /**
    `parseInt(field) || fallback`, where `parsed` is what `parseInt` made of the
    query field (`None` for NaN, which is also what a missing field gives).
   */
  function OrDefault(parsed: Option<int>, fallback: int): (v: int)
    ensures parsed.None? || parsed == Some(0) ==> v == fallback
    ensures parsed.Some? && parsed.value != 0 ==> v == parsed.value
    ensures fallback != 0 ==> v != 0
  {
    if parsed.Some? && parsed.value != 0 then parsed.value else fallback
  }

  /**
    `Math.ceil(total / limit)` for a non-zero `limit`: the least integer not
    below the quotient, written for both signs of `limit`.
   */
  function TotalPages(total: nat, limit: int): (pages: int)
    requires limit != 0
    ensures limit > 0 ==> pages * limit >= total && (pages - 1) * limit < total
    ensures limit > 0 ==> pages >= 0 && (pages == 0 <==> total == 0)
    ensures limit < 0 ==> pages * limit <= total < (pages - 1) * limit
  {
    if limit > 0 then
      var q := (total + limit - 1) / limit;
      CeilBounds(total, limit, q);
      q
    else
      var m := -limit;
      var q := total / m;
      assert total == q * m + total % m;
      -q
  }

  lemma CeilBounds(total: nat, limit: int, q: int)
    requires limit > 0 && q == (total + limit - 1) / limit
    ensures q * limit >= total && (q - 1) * limit < total && q >= 0
  {
    var rem := (total + limit - 1) % limit;
    assert total + limit - 1 == q * limit + rem;
    assert (q - 1) * limit == q * limit - limit;
  }

  /** `.skip(skip).limit(limit)` on a sequence, for the values the store is given here. */
  function Window(s: seq<Entry>, skip: nat, limit: int): (w: seq<Entry>)
    requires limit >= 1
    ensures |w| <= limit
    ensures |w| == if skip >= |s| then 0 else Min(limit, |s| - skip)
    ensures forall k :: 0 <= k < |w| ==> w[k] == s[skip + k]
  {
    if skip >= |s| then [] else s[skip..Min(skip + limit, |s|)]
  }

  /**
    What the store answers to `Music.find().sort({ createdAt: -1 }).skip(skip).limit(limit)`;
    `None` when `skip` or `limit` is negative, where the store's behaviour is
    not part of the model (`limit` is never 0 here).
   */
  function Query(entries: seq<Entry>, skip: int, limit: int): (found: Option<seq<Entry>>)
    ensures found.Some? <==> skip >= 0 && limit > 0
    ensures found.Some? ==> |found.value| <= limit
    ensures found.Some? ==> |found.value| == if skip >= |entries| then 0 else Min(limit, |entries| - skip)
    ensures found.Some? ==> forall k :: 0 <= k < |found.value| ==> found.value[k] == NewestFirst(entries)[skip + k]
  {
    if skip >= 0 && limit > 0 then Some(Window(NewestFirst(entries), skip, limit)) else None
  }

  /**
    The JSON body of a GET answer. `music` is `None` when `skip` or `limit` is
    negative, where what the store does is not part of the model.
   */
  datatype PageResponse = PageResponse(music: Option<seq<Entry>>, currentPage: int, totalPages: int, totalItems: nat)

  /** `GET /api/music?page=…&limit=…`; the two parameters are what `parseInt` made of the query fields. */
  function GetMusic(entries: seq<Entry>, pageParam: Option<int>, limitParam: Option<int>): (resp: PageResponse)
    ensures var page, limit := OrDefault(pageParam, DEFAULT_PAGE), OrDefault(limitParam, DEFAULT_LIMIT);
      && resp.currentPage == page
      && resp.totalItems == |entries|
      && resp.totalPages == TotalPages(|entries|, limit)
      && resp.music == Query(entries, (page - 1) * limit, limit)
      && (resp.music.Some? <==> page >= 1 && limit >= 1)
  {
    var page := OrDefault(pageParam, DEFAULT_PAGE);
    var limit := OrDefault(limitParam, DEFAULT_LIMIT);
    var skip := (page - 1) * limit;
    SignOfProduct(page - 1, limit);
    PageResponse(Query(entries, skip, limit), page, TotalPages(|entries|, limit), |entries|)
  }

  lemma SignOfProduct(a: int, b: int)
    ensures b > 0 ==> (a * b >= 0 <==> a >= 0)
  {
    if a < 0 && b > 0 {
      assert a * b == -((-a) * b);
    }
  }

  /** A page in range holds at least one entry and a page past `totalPages` holds none. */
  lemma PageNonEmptyInRange(entries: seq<Entry>, page: int, limit: int)
    requires page >= 1 && limit >= 1
    ensures var resp := GetMusic(entries, Some(page), Some(limit));
      resp.music.Some? && (|resp.music.value| > 0 <==> page <= resp.totalPages)
  {
    var n := |entries|;
    var t := TotalPages(n, limit);
    if page <= t {
      MulMonotone(page - 1, t - 1, limit);
    } else {
      MulMonotone(t, page - 1, limit);
    }
  }

  lemma MulMonotone(a: int, b: int, c: int)
    requires a <= b && c >= 0
    ensures a * c <= b * c
  {
    assert b * c - a * c == (b - a) * c;
  }

  /** Pages 1 to `n` of `s` at `limit` entries per page, concatenated. */
  function PagesUpTo(s: seq<Entry>, n: nat, limit: int): seq<Entry>
    requires limit >= 1
  {
    if n == 0 then [] else PagesUpTo(s, n - 1, limit) + Window(s, (n - 1) * limit, limit)
  }

  lemma {:induction false} PagesUpToPrefix(s: seq<Entry>, n: nat, limit: int)
    requires limit >= 1
    ensures PagesUpTo(s, n, limit) == s[..Min(n * limit, |s|)]
  {
    if n > 0 {
      var lo := (n - 1) * limit;
      PagesUpToPrefix(s, n - 1, limit);
      PrefixExtend(s, lo, limit, Window(s, lo, limit));
      NextPageStart(n, limit);
    }
  }

  lemma NextPageStart(n: int, limit: int)
    ensures n * limit == (n - 1) * limit + limit
  {
  }

  /** Page `p` at `limit` per page, as the handler returns it, is the window at `(p - 1) * limit`. */
  lemma PageIsWindow(entries: seq<Entry>, p: int, limit: int)
    requires p >= 1 && limit >= 1
    ensures (p - 1) * limit >= 0
    ensures GetMusic(entries, Some(p), Some(limit)).music == Some(Window(NewestFirst(entries), (p - 1) * limit, limit))
  {
    SignOfProduct(p - 1, limit);
    var skip := (p - 1) * limit;
    assert OrDefault(Some(p), DEFAULT_PAGE) == p && OrDefault(Some(limit), DEFAULT_LIMIT) == limit;
    assert GetMusic(entries, Some(p), Some(limit)).music == Query(entries, skip, limit);
  }

  lemma PrefixExtend(s: seq<Entry>, lo: nat, limit: int, page: seq<Entry>)
    requires limit >= 1 && page == Window(s, lo, limit)
    ensures s[..Min(lo, |s|)] + page == s[..Min(lo + limit, |s|)]
  {
    if lo < |s| {
      assert s[..Min(lo + limit, |s|)] == s[..lo] + s[lo..Min(lo + limit, |s|)];
    }
  }

  /**
    The windows of pages 1 to `totalPages`, which `PageIsWindow` shows are the
    pages the handler returns, concatenated, are the whole collection newest first.
   */
  lemma AllPagesCoverCollection(entries: seq<Entry>, limit: int)
    requires limit >= 1
    ensures PagesUpTo(NewestFirst(entries), TotalPages(|entries|, limit), limit) == NewestFirst(entries)
  {
    var s := NewestFirst(entries);
    var t := TotalPages(|entries|, limit);
    PagesUpToPrefix(s, t, limit);
    CoverAll(|s|, limit, t);
    assert s[..|s|] == s;
  }

  lemma CoverAll(n: nat, limit: int, t: int)
    requires limit >= 1 && t == TotalPages(n, limit)
    ensures Min(t * limit, n) == n
  {
  }

  /**
    Position `i` of the newest-first collection is on exactly one page,
    `i / limit + 1`, which lies within `1..totalPages`; so distinct pages share
    no position.
   */
  lemma PageOfPosition(entries: seq<Entry>, limit: int, i: nat, q: int)
    requires limit >= 1 && i < |entries|
    requires q >= 1 && (q - 1) * limit <= i < q * limit
    ensures q == i / limit + 1
    ensures q <= TotalPages(|entries|, limit)
    ensures var page := GetMusic(entries, Some(q), Some(limit)).music.value;
      i - (q - 1) * limit < |page| && page[i - (q - 1) * limit] == NewestFirst(entries)[i]
  {
    UniquePage(i, limit, q);
    PageIsWindow(entries, q, limit);
    var lo := (q - 1) * limit;
    assert q * limit == lo + limit;
    PageNonEmptyInRange(entries, q, limit);
  }

  /** The only page `q` whose positions `(q - 1) * limit .. q * limit` hold `i` is `i / limit + 1`. */
  lemma UniquePage(i: nat, limit: int, q: int)
    requires limit >= 1 && q >= 1 && (q - 1) * limit <= i < q * limit
    ensures q == i / limit + 1
  {
    var p := i / limit + 1;
    assert i == (p - 1) * limit + i % limit;
    assert p * limit == (p - 1) * limit + limit;
    if q < p {
      MulMonotone(q, p - 1, limit);
    } else if q > p {
      MulMonotone(p, q - 1, limit);
    }
  }

  /** The first page, at the default parameters, starts with an entry no older than any other. */
  lemma FirstPageStartsNewest(entries: seq<Entry>)
    requires entries != []
    ensures var first := GetMusic(entries, None, None).music;
      && first.Some? && first.value != []
      && forall i :: 0 <= i < |entries| ==> first.value[0].createdAt >= entries[i].createdAt
  {
    NewestFirstHead(entries);
  }

  // ----- POST /api/music -----

  const MISSING_FIELDS := "URL and title are required"

  /** The outcome of a POST: status 201 with the saved document, or status 400 with an error message. */
  datatype PostResult = Created(saved: Entry) | BadRequest(error: string)

  function Status(res: PostResult): int {
    match res
    case Created(_) => 201
    case BadRequest(_) => 400
  }

  /** Validation of `{ url, title }` and the document `new Music({ url, title })` would save at time `now`. */
  function Create(url: Option<string>, title: Option<string>, now: int): (res: PostResult)
    ensures res.Created? <==> Truthy(url) && Truthy(title)
    ensures res.Created? ==> res.saved == Entry(url.value, title.value, now) && Status(res) == 201
    ensures res.BadRequest? ==> res.error == MISSING_FIELDS && Status(res) == 400
  {
    if !Truthy(url) || !Truthy(title) then BadRequest(MISSING_FIELDS)
    else Created(Entry(url.value, title.value, now))
  }

  /** After a POST that stores an entry created later than every other, the default first page starts with it. */
  lemma CreatedEntryLeadsFirstPage(entries: seq<Entry>, url: Option<string>, title: Option<string>, now: int)
    requires Create(url, title, now).Created?
    requires forall i :: 0 <= i < |entries| ==> entries[i].createdAt < now
    ensures var first := GetMusic(entries + [Create(url, title, now).saved], None, None).music;
      first.Some? && first.value != [] && first.value[0] == Create(url, title, now).saved
  {
    var e := Create(url, title, now).saved;
    var after := entries + [e];
    assert after[..|after| - 1] == entries;
    var prior := NewestFirst(entries);
    if prior != [] {
      assert prior[0] in multiset(entries);
    }
    assert NewestFirst(after) == [e] + prior;
  }

  /** The collection: every stored document has the url and title the schema requires. */
  class Collection {
    var entries: seq<Entry>

    ghost predicate Valid()
      reads this
    {
      forall i :: 0 <= i < |entries| ==> entries[i].url != "" && entries[i].title != ""
    }

    constructor ()
      ensures Valid() && entries == []
    {
      entries := [];
    }

    /** `POST /api/music` with body fields `url` and `title`, handled at time `now`. */
    method Post(url: Option<string>, title: Option<string>, now: int) returns (res: PostResult)
      requires Valid()
      modifies this
      ensures Valid()
      ensures res == Create(url, title, now)
      ensures res.BadRequest? ==> entries == old(entries)
      ensures res.Created? ==> entries == old(entries) + [res.saved]
    {
      res := Create(url, title, now);
      if res.Created? {
        entries := entries + [res.saved];
      }
    }
  }
}
