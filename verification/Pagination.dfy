/** Keyset pagination of event lists: pages of a snapshot against the full ordered list. */
module Pagination {
  import opened Options
  import Sets

  /** The columns pagination looks at; identifiers are unique. */
  datatype Row = Row(start: int, id: int)

  datatype Order = Ascending | Descending | ById

  predicate Precedes(order: Order, a: Row, b: Row) {
    match order
    case Ascending => a.start < b.start || (a.start == b.start && a.id < b.id)
    case Descending => a.start > b.start || (a.start == b.start && a.id > b.id)
    case ById => a.id < b.id
  }

  /** The visible rows of one snapshot: unique positive identifiers. */
  ghost predicate Snapshot(rows: set<Row>) {
    && (forall a, b :: a in rows && b in rows && a.id == b.id ==> a == b)
    && (forall a :: a in rows ==> a.id > 0)
  }

  // ----- The full list: ORDER BY -----

  ghost predicate Increasing(order: Order, s: seq<Row>) {
    forall i, j :: 0 <= i < j < |s| ==> Precedes(order, s[i], s[j])
  }

  ghost function First(order: Order, rows: set<Row>): (r: Row)
    requires rows != {} && Snapshot(rows)
    ensures r in rows && forall x :: x in rows && x != r ==> Precedes(order, r, x)
    decreases rows
  {
    var some := Sets.Pick(rows);
    if rows == {some} then some
    else
      var rest := rows - {some};
      assert rest != {} by { assert rest == {} ==> rows == {some}; }
      var r := First(order, rest);
      assert forall x :: x in rows ==> x == some || x in rest;
      if Precedes(order, some, r) then some else r
  }

  ghost function Listing(order: Order, rows: set<Row>): seq<Row>
    requires Snapshot(rows)
    decreases rows
  {
    if rows == {} then []
    else
      var first := First(order, rows);
      [first] + Listing(order, rows - {first})
  }

  lemma {:induction false} ListingSorts(order: Order, rows: set<Row>)
    requires Snapshot(rows)
    ensures |Listing(order, rows)| == |rows|
    ensures forall x :: x in Listing(order, rows) <==> x in rows
    ensures Increasing(order, Listing(order, rows))
    decreases rows
  {
    if rows != {} {
      var first := First(order, rows);
      var tail := Listing(order, rows - {first});
      ListingSorts(order, rows - {first});
      forall i, j | 0 <= i < j < |tail| + 1 ensures Precedes(order, ([first] + tail)[i], ([first] + tail)[j]) {
        assert tail[j - 1] in tail;
      }
    }
  }

  /** There is only one way to order a set of rows. */
  lemma {:induction false} OrderIsUnique(order: Order, s: seq<Row>, t: seq<Row>)
    requires Increasing(order, s) && Increasing(order, t)
    requires forall x :: x in s <==> x in t
    ensures s == t
  {
    assert t != [] ==> t[0] in s;
    if s != [] {
      assert s[0] in t;
      assert t[0] in s;
      assert s[0] == t[0] by {
        var i :| 0 <= i < |t| && t[i] == s[0];
        var j :| 0 <= j < |s| && s[j] == t[0];
        assert i > 0 && j > 0 ==> Precedes(order, t[0], s[0]) && Precedes(order, s[0], t[0]);
      }
      forall x ensures x in s[1..] <==> x in t[1..] {
        assert forall i :: 1 <= i < |s| ==> s[i] != s[0];
        assert forall i :: 1 <= i < |t| ==> t[i] != t[0];
        assert x in s[1..] <==> x in s && x != s[0];
        assert x in t[1..] <==> x in t && x != t[0];
      }
      OrderIsUnique(order, s[1..], t[1..]);
    }
  }

  // ----- One page -----

  /** The WHERE clause on the cursor. Without a cursor the chronological query does not filter, and
      the query by identifier asks for identifiers above 0. */
  predicate Beyond(order: Order, cursor: Option<Row>, row: Row) {
    match cursor
    case None => order.ById? ==> row.id > 0
    case Some(c) => Precedes(order, c, row)
  }

  function Rest(order: Order, rows: set<Row>, cursor: Option<Row>): set<Row> {
    set r | r in rows && Beyond(order, cursor, r)
  }

  datatype Page<T> = Page(items: seq<T>, next: Option<T>)

  /** `json_page`: one row more than the limit says that there is a next page. */
  function PageOf<T>(items: seq<T>, limit: nat): Page<T>
    requires limit >= 1
  {
    if |items| > limit then Page(items[..limit], Some(items[limit - 1])) else Page(items, None)
  }

  method JsonPage<T>(fetched: seq<T>, limit: nat) returns (items: seq<T>, next: Option<T>)
    requires limit >= 1
    ensures items <= fetched && |items| == (if |fetched| > limit then limit else |fetched|)
    ensures next.Some? <==> |fetched| > limit
    ensures next.Some? ==> items != [] && next.value == items[|items| - 1]
  {
    items, next := fetched, None;
    var hasMore := |items| > limit;
    if hasMore {
      items := items[..limit];
      next := Some(items[|items| - 1]);
    }
  }

  function Take<T>(s: seq<T>, n: nat): seq<T> { if |s| <= n then s else s[..n] }

  /** ORDER BY and LIMIT over the rows beyond the cursor. */
  ghost function Fetch(order: Order, rows: set<Row>, cursor: Option<Row>, limit: nat): Page<Row>
    requires limit >= 1 && Snapshot(rows)
  {
    PageOf(Take(Listing(order, Rest(order, rows, cursor)), limit + 1), limit)
  }

  /** In an ordered list, what stands from `n` on is what comes after the row before it. */
  lemma {:induction false} SuffixIsBeyond(order: Order, all: seq<Row>, n: nat, x: Row)
    requires Increasing(order, all) && 1 <= n <= |all|
    ensures x in all[n..] <==> x in all && Precedes(order, all[n - 1], x)
  {
    if x in all[n..] {
      var i :| 0 <= i < |all[n..]| && all[n..][i] == x;
      assert all[n + i] == x;
    }
    var last := all[n - 1];
    if x in all && Precedes(order, last, x) {
      var i :| 0 <= i < |all| && all[i] == x;
      assert i >= n || Precedes(order, x, last) || x == last;
      assert all[n..][i - n] == x;
    }
  }

  lemma {:induction false} RestShrinks(order: Order, rows: set<Row>, cursor: Option<Row>, last: Row)
    requires Snapshot(rows) && last in Rest(order, rows, cursor)
    ensures Rest(order, rows, Some(last)) < Rest(order, rows, cursor)
    ensures forall x :: x in Rest(order, rows, Some(last)) <==> x in Rest(order, rows, cursor) && Precedes(order, last, x)
  {
    forall x | x in rows && Precedes(order, last, x) ensures Beyond(order, cursor, x) {
      assert Beyond(order, cursor, last);
    }
    assert last !in Rest(order, rows, Some(last));
  }

  /** What comes after a row of the list, in the same order. */
  lemma {:induction false} SuffixListing(order: Order, rows: set<Row>, cursor: Option<Row>, n: nat, all: seq<Row>)
    requires Snapshot(rows) && all == Listing(order, Rest(order, rows, cursor)) && 1 <= n <= |all|
    requires Increasing(order, all) && (forall x :: x in all <==> x in Rest(order, rows, cursor))
    ensures Listing(order, Rest(order, rows, Some(all[n - 1]))) == all[n..]
  {
    var last := all[n - 1];
    assert last in all;
    RestShrinks(order, rows, cursor, last);
    var beyond := Rest(order, rows, Some(last));
    ListingSorts(order, beyond);
    forall x ensures x in Listing(order, beyond) <==> x in all[n..] { SuffixIsBeyond(order, all, n, x); }
    OrderIsUnique(order, Listing(order, beyond), all[n..]);
  }

  /** The rows beyond the last row of a page are the ones the page left out, in the same order. */
  lemma {:induction false} NextRest(order: Order, rows: set<Row>, cursor: Option<Row>, n: nat)
    requires Snapshot(rows)
    requires 1 <= n <= |Listing(order, Rest(order, rows, cursor))|
    ensures var all := Listing(order, Rest(order, rows, cursor));
            && all[n - 1] in Rest(order, rows, cursor)
            && Listing(order, Rest(order, rows, Some(all[n - 1]))) == all[n..]
            && Rest(order, rows, Some(all[n - 1])) < Rest(order, rows, cursor)
  {
    var all := Listing(order, Rest(order, rows, cursor));
    ListingSorts(order, Rest(order, rows, cursor));
    assert all[n - 1] in all;
    RestShrinks(order, rows, cursor, all[n - 1]);
    SuffixListing(order, rows, cursor, n, all);
  }

  // ----- Following the cursors -----

  ghost function Walk(order: Order, rows: set<Row>, cursor: Option<Row>, limit: nat): seq<seq<Row>>
    requires limit >= 1 && Snapshot(rows)
    decreases Rest(order, rows, cursor)
  {
    var page := Fetch(order, rows, cursor, limit);
    if page.next.None? then [page.items]
    else
      assert Rest(order, rows, page.next) < Rest(order, rows, cursor) by { NextRest(order, rows, cursor, limit); }
      [page.items] + Walk(order, rows, page.next, limit)
  }

  ghost function Concat(pages: seq<seq<Row>>): seq<Row> {
    if pages == [] then [] else pages[0] + Concat(pages[1..])
  }

  /** How many pages `n` rows take. */
  function PageCount(n: nat, limit: nat): nat
    requires limit >= 1
  {
    if n <= limit then 1 else 1 + PageCount(n - limit, limit)
  }

  /** A page is the start of the rows beyond its cursor, and says whether there are more. */
  lemma {:induction false} FetchTakes(order: Order, rows: set<Row>, cursor: Option<Row>, limit: nat)
    requires limit >= 1 && Snapshot(rows)
    ensures var all, page := Listing(order, Rest(order, rows, cursor)), Fetch(order, rows, cursor, limit);
            && page.items == Take(all, limit)
            && (page.next.None? <==> |all| <= limit)
            && (page.next.Some? ==> page.next.value == all[limit - 1])
  {
  }

  /** The full list cut into pages. */
  function Chunks<T>(all: seq<T>, limit: nat): seq<seq<T>>
    requires limit >= 1
  {
    if |all| <= limit then [all] else [all[..limit]] + Chunks(all[limit..], limit)
  }

  /** The walk is the full list cut into pages. */
  lemma {:induction false} WalkIsChunks(order: Order, rows: set<Row>, cursor: Option<Row>, limit: nat)
    requires limit >= 1 && Snapshot(rows)
    ensures Walk(order, rows, cursor, limit) == Chunks(Listing(order, Rest(order, rows, cursor)), limit)
    decreases Rest(order, rows, cursor)
  {
    FetchTakes(order, rows, cursor, limit);
    var page := Fetch(order, rows, cursor, limit);
    if page.next.Some? {
      NextRest(order, rows, cursor, limit);
      WalkIsChunks(order, rows, page.next, limit);
    }
  }

  ghost predicate AllFull(pages: seq<seq<Row>>, limit: nat) {
    forall i :: 0 <= i < |pages| - 1 ==> |pages[i]| == limit
  }

  lemma {:induction false} ChunksCover(all: seq<Row>, limit: nat)
    requires limit >= 1
    ensures Concat(Chunks(all, limit)) == all
    ensures |Chunks(all, limit)| == PageCount(|all|, limit)
    ensures AllFull(Chunks(all, limit), limit)
  {
    if |all| <= limit {
      assert Concat([all]) == all;
    } else {
      ChunksCover(all[limit..], limit);
      assert Chunks(all, limit)[1..] == Chunks(all[limit..], limit);
      assert all == all[..limit] + all[limit..];
    }
  }

  /** Rounding the quotient up. */
  function Ceiling(n: nat, limit: nat): nat
    requires limit >= 1
  {
    (n + limit - 1) / limit
  }

  lemma {:induction false} CeilingStep(n: nat, limit: nat)
    requires limit >= 1
    ensures Ceiling(n + limit, limit) == Ceiling(n, limit) + 1
  {
    var m := n + limit - 1;
    var q, p := m / limit, (m + limit) / limit;
    assert n + limit + limit - 1 == m + limit;
    assert (p - q - 1) * limit == m % limit - (m + limit) % limit;
    NoMultipleBetween(p - q - 1, limit);
  }

  lemma {:induction false} NoMultipleBetween(k: int, d: int)
    requires 0 < d && 0 - d < k * d < d
    ensures k == 0
  {
    assert k >= 1 ==> k * d >= d;
    assert k <= -1 ==> (0 - k) * d >= d;
  }

  lemma {:induction false} PageCountIsCeiling(n: nat, limit: nat)
    requires limit >= 1
    ensures PageCount(n, limit) == if n == 0 then 1 else Ceiling(n, limit)
  {
    if n > limit {
      PageCountIsCeiling(n - limit, limit);
      CeilingStep(n - limit, limit);
    } else if n > 0 {
      CeilingOne(n, limit);
    }
  }

  lemma {:induction false} CeilingOne(n: nat, limit: nat)
    requires 1 <= n <= limit
    ensures Ceiling(n, limit) == 1
  {
    var m := n + limit - 1;
    var q := m / limit;
    assert (q - 1) * limit == n - 1 - m % limit;
    NoMultipleBetween(q - 1, limit);
  }

  /** Following the cursors from the first page gives exactly the full ordered list, with no gap and
      no repeat, in the fewest pages, for both directions and for identifiers. */
  lemma {:induction false} WalkIsComplete(order: Order, rows: set<Row>, limit: nat)
    requires limit >= 1 && Snapshot(rows)
    ensures var pages := Walk(order, rows, None, limit);
            && Concat(pages) == Listing(order, rows)
            && |pages| == (if rows == {} then 1 else Ceiling(|rows|, limit))
            && AllFull(pages, limit)
  {
    assert Rest(order, rows, None) == rows;
    ListingSorts(order, rows);
    WalkIsChunks(order, rows, None, limit);
    ChunksCover(Listing(order, rows), limit);
    PageCountIsCeiling(|rows|, limit);
  }

  // ----- Cursors as text -----

  /** What the digest in a cursor stands for. */
  datatype Criteria = Criteria(q: string, view: string, sort: string)

  datatype EventCursor = EventCursor(version: int, start: int, id: int, criteria: Criteria)

  /** A cursor as received: undecodable text, a number, or a decoded record. */
  datatype Text = Garbage | Number(value: int) | Json(cursor: EventCursor)

  datatype EventListQuery = EventListQuery(
    limit: Option<int>, cursor: Option<Text>, q: Option<string>, view: Option<string>, sort: Option<string>)

  datatype EventSearch = EventSearch(criteria: Criteria, limit: nat, cursor: Option<EventCursor>)

  datatype Error = InvalidQuery | InvalidCursor | InvalidPagination

  function OrElse<T>(o: Option<T>, default_: T): T { if o.Some? then o.value else default_ }

  /** `fold` is trimming and lower-casing. */
  function CriteriaOf(query: EventListQuery, fold: string -> string): Criteria {
    var view := OrElse(query.view, "upcoming");
    Criteria(fold(OrElse(query.q, "")), view, OrElse(query.sort, if view == "past" then "start_desc" else "start_asc"))
  }

  function Parse(query: EventListQuery, fold: string -> string): Result<Option<EventSearch>, Error> {
    if query.q.None? && query.view.None? && query.sort.None? then Ok(None)
    else
      var criteria, limit := CriteriaOf(query, fold), OrElse(query.limit, 50);
      if criteria.view !in ["upcoming", "invitations", "owned", "past", "all"] ||
         criteria.sort !in ["start_asc", "start_desc"] || !(1 <= limit <= 100) || |criteria.q| > 200
      then Err(InvalidQuery)
      else match query.cursor
        case None => Ok(Some(EventSearch(criteria, limit, None)))
        case Some(Json(c)) =>
          if c.version != 1 || c.id <= 0 || c.criteria != criteria then Err(InvalidCursor)
          else Ok(Some(EventSearch(criteria, limit, Some(c))))
        case Some(_) => Err(InvalidCursor)
  }

  function OrderOf(search: EventSearch): Order {
    if search.criteria.sort == "start_desc" then Descending else Ascending
  }

  function Position(cursor: Option<EventCursor>): Option<Row> {
    if cursor.Some? then Some(Row(cursor.value.start, cursor.value.id)) else None
  }

  function Encode(search: EventSearch, row: Row): Text {
    Json(EventCursor(1, row.start, row.id, search.criteria))
  }

  /** The reply to a parsed search: its rows and the text of the next cursor. */
  ghost function Reply(search: EventSearch, rows: set<Row>): (seq<Row>, Option<Text>)
    requires search.limit >= 1 && Snapshot(rows)
  {
    var page := Fetch(OrderOf(search), rows, Position(search.cursor), search.limit);
    (page.items, if page.next.Some? then Some(Encode(search, page.next.value)) else None)
  }

  lemma {:induction false} ReplyNext(search: EventSearch, rows: set<Row>)
    requires search.limit >= 1 && Snapshot(rows) && Reply(search, rows).1.Some?
    ensures var order, cursor := OrderOf(search), Position(search.cursor);
            var next := Fetch(order, rows, cursor, search.limit).next;
            && next.Some? && next.value in rows && next.value.id > 0
            && Rest(order, rows, next) < Rest(order, rows, cursor)
  {
    var rest := Rest(OrderOf(search), rows, Position(search.cursor));
    ListingSorts(OrderOf(search), rest);
    NextRest(OrderOf(search), rows, Position(search.cursor), search.limit);
    assert Listing(OrderOf(search), rest)[search.limit - 1] in rest;
  }

  /** A cursor the server hands out is accepted with the query it came from, and resumes there. */
  lemma {:induction false} OwnCursorAccepted(query: EventListQuery, fold: string -> string, row: Row)
    requires Parse(query, fold).Ok? && Parse(query, fold).value.Some? && row.id > 0
    ensures var search := Parse(query, fold).value.value;
            Parse(query.(cursor := Some(Encode(search, row))), fold) ==
            Ok(Some(search.(cursor := Some(Encode(search, row).cursor))))
  {
  }

  /** It is accepted with exactly the queries that agree in text, view and sort. */
  lemma {:induction false} ForeignCursorRefused(query: EventListQuery, other: EventListQuery, fold: string -> string, row: Row)
    requires Parse(query, fold).Ok? && Parse(query, fold).value.Some? && row.id > 0
    requires Parse(other, fold).Ok? && Parse(other, fold).value.Some?
    ensures var parsed := Parse(other.(cursor := Some(Encode(Parse(query, fold).value.value, row))), fold);
            && (parsed.Ok? <==> CriteriaOf(other, fold) == CriteriaOf(query, fold))
            && (parsed.Err? ==> parsed == Err(InvalidCursor))
  {
  }

  /** What a client collects by sending the same query with each next cursor. */
  ghost function Follow(query: EventListQuery, fold: string -> string, rows: set<Row>): seq<seq<Row>>
    requires Snapshot(rows)
    decreases match Parse(query, fold)
              case Ok(Some(search)) => Rest(OrderOf(search), rows, Position(search.cursor))
              case _ => {}
  {
    match Parse(query, fold)
    case Ok(Some(search)) =>
      var (items, next) := Reply(search, rows);
      if next.None? then [items]
      else
        ReplyNext(search, rows);
        [items] + Follow(query.(cursor := next), fold, rows)
    case _ => []
  }

  lemma {:induction false} FollowIsWalk(query: EventListQuery, fold: string -> string, rows: set<Row>)
    requires Snapshot(rows) && Parse(query, fold).Ok? && Parse(query, fold).value.Some?
    ensures var search := Parse(query, fold).value.value;
            Follow(query, fold, rows) == Walk(OrderOf(search), rows, Position(search.cursor), search.limit)
    decreases var search := Parse(query, fold).value.value; Rest(OrderOf(search), rows, Position(search.cursor))
  {
    var search := Parse(query, fold).value.value;
    var (items, next) := Reply(search, rows);
    if next.Some? {
      ReplyNext(search, rows);
      FollowIsWalk(query.(cursor := next), fold, rows);
    }
  }

  /** A client that sends an accepted query without cursor, and then the same query with each cursor
      it is given, receives the full list in the requested order. */
  lemma {:induction false} FollowIsComplete(query: EventListQuery, fold: string -> string, rows: set<Row>)
    requires Snapshot(rows) && query.cursor == None && Parse(query, fold).Ok? && Parse(query, fold).value.Some?
    ensures var search := Parse(query, fold).value.value;
            Concat(Follow(query, fold, rows)) == Listing(OrderOf(search), rows)
  {
    var search := Parse(query, fold).value.value;
    FollowIsWalk(query, fold, rows);
    WalkIsComplete(OrderOf(search), rows, search.limit);
  }

  // ----- What the client sees -----

  /** The list is asked for backwards: by the sort it names, or else by the view of past events. */
  predicate Backwards(query: EventListQuery) {
    match query.sort
    case Some(sort) => sort == "start_desc"
    case None => query.view == Some("past")
  }

  /** The client receives every row once, ordered by start and then by identifier, backwards or forwards
      as it asked, in full pages of its limit, or of 50, and a last one. */
  lemma {:induction false} FollowedList(query: EventListQuery, fold: string -> string, rows: set<Row>, i: nat, j: nat)
    requires Snapshot(rows) && query.cursor == None && Parse(query, fold).Ok? && Parse(query, fold).value.Some?
    ensures var pages := Follow(query, fold, rows);
            var all, limit := Concat(pages), if query.limit.Some? then query.limit.value else 50;
            && |all| == |rows| && (forall x :: x in all <==> x in rows)
            && (i < j < |all| ==>
                  var a, b := all[i], all[j];
                  if Backwards(query) then b.start < a.start || (b.start == a.start && b.id < a.id)
                  else a.start < b.start || (a.start == b.start && a.id < b.id))
            && 1 <= limit <= 100 && (forall k :: 0 <= k < |pages| - 1 ==> |pages[k]| == limit)
  {
    var search := Parse(query, fold).value.value;
    FollowIsComplete(query, fold, rows);
    FollowIsWalk(query, fold, rows);
    WalkIsComplete(OrderOf(search), rows, search.limit);
    ListingSorts(OrderOf(search), rows);
    var all := Concat(Follow(query, fold, rows));
    if i < j < |all| { assert Precedes(OrderOf(search), all[i], all[j]); }
  }

  /** A query without text, view and sort is not a search. Any other is accepted without a cursor exactly
      when its view and sort are known, its limit is from 1 to 100 and its folded text has at most 200
      characters; what it leaves out is upcoming events, 50 to a page. */
  lemma {:induction false} ParsedIff(query: EventListQuery, fold: string -> string)
    requires query.cursor.None?
    ensures var plain := query.q.None? && query.view.None? && query.sort.None?;
            var view := if query.view.Some? then query.view.value else "upcoming";
            && (Parse(query, fold) == Ok(None) <==> plain)
            && (!plain ==>
                  (Parse(query, fold).Ok? <==>
                    (&& (view == "upcoming" || view == "invitations" || view == "owned" || view == "past" || view == "all")
                     && (query.sort.Some? ==> query.sort.value == "start_asc" || query.sort.value == "start_desc")
                     && (query.limit.Some? ==> 1 <= query.limit.value <= 100)
                     && |fold(if query.q.Some? then query.q.value else "")| <= 200)))
            && (Parse(query, fold).Err? ==> Parse(query, fold) == Err(InvalidQuery))
            && (Parse(query, fold).Ok? && !plain ==>
                  var search := Parse(query, fold).value.value;
                  && search.criteria == Criteria(fold(if query.q.Some? then query.q.value else ""), view,
                                                 if Backwards(query) then "start_desc" else "start_asc")
                  && search.limit == (if query.limit.Some? then query.limit.value else 50) && search.cursor.None?)
  {
  }

  /** An accepted query takes a cursor exactly when it is a record of version 1 with a positive
      identifier, made for the same text, view and sort; it then starts there. */
  lemma {:induction false} CursorIff(query: EventListQuery, fold: string -> string, text: Text)
    requires query.cursor.None? && Parse(query, fold).Ok? && Parse(query, fold).value.Some?
    ensures var search := Parse(query, fold).value.value;
            var r := Parse(query.(cursor := Some(text)), fold);
            && (r.Ok? <==> text.Json? && text.cursor.version == 1 && 1 <= text.cursor.id && text.cursor.criteria == search.criteria)
            && (r.Ok? ==> r == Ok(Some(search.(cursor := Some(text.cursor))))) && (r.Err? ==> r == Err(InvalidCursor))
  {
  }

  // ----- Requests by identifier -----

  datatype PageRequest = PageRequest(limit: nat, afterId: Option<int>)

  function ParsePage(limit: Option<int>, cursor: Option<Text>, enforceDefaults: bool): Result<Option<PageRequest>, Error> {
    if limit.None? && cursor.None? && !enforceDefaults then Ok(None)
    else
      var size := OrElse(limit, 50);
      if !(1 <= size <= 100) then Err(InvalidPagination)
      else match cursor
        case None => Ok(Some(PageRequest(size, None)))
        case Some(Number(id)) => Ok(Some(PageRequest(size, Some(id))))
        case Some(_) => Err(InvalidCursor)
  }

  /** The query by identifier: `event_id > after_id.unwrap_or(0)`, in order of identifier. */
  ghost function FetchById(page: PageRequest, rows: set<Row>): Page<Row>
    requires page.limit >= 1 && Snapshot(rows)
  {
    var beyond := set r | r in rows && r.id > OrElse(page.afterId, 0);
    PageOf(Take(Listing(ById, beyond), page.limit + 1), page.limit)
  }

  ghost function FollowIds(limit: Option<int>, cursor: Option<Text>, rows: set<Row>): seq<seq<Row>>
    requires Snapshot(rows)
    decreases match ParsePage(limit, cursor, true)
              case Ok(Some(page)) => (set r | r in rows && r.id > OrElse(page.afterId, 0))
              case _ => {}
  {
    match ParsePage(limit, cursor, true)
    case Ok(Some(request)) =>
      var page := FetchById(request, rows);
      if page.next.None? then [page.items]
      else
        ByIdNext(request, rows);
        [page.items] + FollowIds(limit, Some(Number(page.next.value.id)), rows)
    case _ => []
  }

  function RowAt(afterId: Option<int>): Option<Row> {
    if afterId.Some? then Some(Row(0, afterId.value)) else None
  }

  lemma {:induction false} ByIdRest(page: PageRequest, rows: set<Row>)
    ensures (set r | r in rows && r.id > OrElse(page.afterId, 0)) == Rest(ById, rows, RowAt(page.afterId))
  {
  }

  lemma {:induction false} ByIdNext(page: PageRequest, rows: set<Row>)
    requires page.limit >= 1 && Snapshot(rows) && FetchById(page, rows).next.Some?
    ensures var next := FetchById(page, rows).next.value;
            && next in rows
            && Rest(ById, rows, Some(next)) == (set r | r in rows && r.id > next.id)
            && (set r | r in rows && r.id > next.id) < (set r | r in rows && r.id > OrElse(page.afterId, 0))
  {
    var cursor := RowAt(page.afterId);
    ByIdRest(page, rows);
    var rest := Rest(ById, rows, cursor);
    ListingSorts(ById, rest);
    NextRest(ById, rows, cursor, page.limit);
    assert Listing(ById, rest)[page.limit - 1] in rest;
  }

  lemma {:induction false} FollowIdsIsWalk(limit: Option<int>, cursor: Option<Text>, rows: set<Row>, from: Option<Row>)
    requires Snapshot(rows) && ParsePage(limit, cursor, true).Ok?
    requires var page := ParsePage(limit, cursor, true).value.value;
             Rest(ById, rows, from) == (set r | r in rows && r.id > OrElse(page.afterId, 0))
    ensures FollowIds(limit, cursor, rows) == Walk(ById, rows, from, OrElse(limit, 50))
    decreases Rest(ById, rows, from)
  {
    var page := ParsePage(limit, cursor, true).value.value;
    var next := FetchById(page, rows).next;
    if next.Some? {
      ByIdNext(page, rows);
      FollowIdsIsWalk(limit, Some(Number(next.value.id)), rows, next);
    }
  }

  /** The same for the list by identifier, whose first page asks for identifiers above 0. */
  lemma {:induction false} FollowIdsIsComplete(limit: Option<int>, rows: set<Row>)
    requires Snapshot(rows) && ParsePage(limit, None, true).Ok?
    ensures Concat(FollowIds(limit, None, rows)) == Listing(ById, rows)
  {
    FollowIdsIsWalk(limit, None, rows, None);
    WalkIsComplete(ById, rows, OrElse(limit, 50));
  }

  /** The client receives every row once, by ascending identifier, in full pages of its limit, or of 50,
      and a last one. */
  lemma {:induction false} FollowedIds(limit: Option<int>, rows: set<Row>, i: nat, j: nat)
    requires Snapshot(rows) && ParsePage(limit, None, true).Ok?
    ensures var pages := FollowIds(limit, None, rows);
            var all, size := Concat(pages), if limit.Some? then limit.value else 50;
            && |all| == |rows| && (forall x :: x in all <==> x in rows)
            && (i < j < |all| ==> all[i].id < all[j].id)
            && 1 <= size <= 100 && (forall k :: 0 <= k < |pages| - 1 ==> |pages[k]| == size)
  {
    FollowIdsIsComplete(limit, rows);
    FollowIdsIsWalk(limit, None, rows, None);
    WalkIsComplete(ById, rows, OrElse(limit, 50));
    ListingSorts(ById, rows);
    var all := Concat(FollowIds(limit, None, rows));
    if i < j < |all| { assert Precedes(ById, all[i], all[j]); }
  }

  /** Page parameters: without any there are no pages unless they are enforced; a limit is from 1 to 100;
      a cursor is a number. */
  lemma {:induction false} PageParsedIff(limit: Option<int>, cursor: Option<Text>, enforceDefaults: bool)
    ensures var r := ParsePage(limit, cursor, enforceDefaults);
            var sized := limit.None? || 1 <= limit.value <= 100;
            && (r == Ok(None) <==> limit.None? && cursor.None? && !enforceDefaults)
            && (r == Err(InvalidPagination) <==> !sized)
            && (r == Err(InvalidCursor) <==> sized && cursor.Some? && !cursor.value.Number?)
            && (r.Ok? && r.value.Some? ==> r.value.value.limit == if limit.Some? then limit.value else 50)
            && (r.Ok? && r.value.Some? ==> r.value.value.afterId == if cursor.Some? then Some(cursor.value.value) else None)
  {
  }
}
