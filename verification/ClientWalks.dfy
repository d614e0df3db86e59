/**
 What a client sees that follows the cursors of `findAllCursor` from response to response
 (src/ai-triggers/ai-triggers.service.ts, src/pagination/helpers/pagination.helper.ts).
 */
module ClientWalks {
  import opened Common
  import opened Json
  import opened CursorCodec
  import opened CursorPagination
  import opened PaginationTheorems
  import opened PaginationNulls

  /* ---------- One response ---------- */

  // The first sort value, or id, is to be listed before the second one.
  predicate SortFirst(c: Collation, d: Direction, x: Value, y: Value) {
    match d
    case Asc => c.sortLess(x, y)
    case Desc => c.sortLess(y, x)
  }

  predicate IdFirst(c: Collation, d: Direction, x: Value, y: Value) {
    match d
    case Asc => c.idLess(x, y)
    case Desc => c.idLess(y, x)
  }

  // The row comes after the position that the cursor names; a comparison with null is never true.
  predicate Follows(c: Collation, d: Direction, k: CursorData, r: Row) {
    && k.sortValue != Null && r.sort != Null
    && (|| SortFirst(c, d, k.sortValue, r.sort)
        || (r.sort == k.sortValue && k.id != Null && r.id != Null && IdFirst(c, d, k.id, r.id)))
  }

  // The first row is to be listed before the second: by sort value, then by id.
  predicate Ahead(c: Collation, d: Direction, a: Row, b: Row) {
    SortFirst(c, d, a.sort, b.sort) || (a.sort == b.sort && IdFirst(c, d, a.id, b.id))
  }

  ghost function Following(c: Collation, d: Direction, k: CursorData, table: set<Row>): set<Row> {
    set r | r in table && Follows(c, d, k, r)
  }

  // What the caller of `FindAllCursor` has to supply and what the method promises.
  ghost predicate Answered(c: Collation, request: Request, table: set<Row>, answer: seq<Row>, response: Response) {
    && (QueryOf(request).Some? ==> Answers(c, table, QueryOf(request).value, answer))
    && response == ResponseOf(request, answer)
  }

  // A page out of these rows: as many as fit, and a cursor at the last one exactly when there are more.
  predicate FullPage(request: Request, rows: set<Row>, response: Response) {
    && response.Found?
    && Distinct(response.items)
    && (forall r :: r in response.items ==> r in rows)
    && |response.items| == Min(request.limit, |rows|)
    && (response.hasNext <==> |rows| > request.limit)
    && (response.nextCursor.Some? <==> response.hasNext && request.limit > 0)
    && (response.nextCursor.Some? ==>
          var last := response.items[|response.items| - 1];
          DecodeCursor(response.nextCursor.value) == Ok(CursorData(last.sort, last.id)))
  }

  lemma MatchingCount(c: Collation, table: set<Row>, q: Query, answer: seq<Row>, rows: set<Row>, limit: nat)
    requires Answers(c, table, q, answer) && q.take == Some(limit + 1) && rows == Matching(c, table, q)
    ensures |answer| == Min(limit + 1, |rows|)
    ensures Distinct(answer) && forall r :: r in answer ==> r in rows
  {
  }

  lemma {:induction false} ResponseIsPage(request: Request, answer: seq<Row>, rows: set<Row>)
    requires QueryOf(request).Some?
    requires |answer| == Min(request.limit + 1, |rows|)
    requires Distinct(answer) && forall r :: r in answer ==> r in rows
    ensures FullPage(request, rows, ResponseOf(request, answer))
    ensures ResponseOf(request, answer).items == answer[..Min(request.limit, |rows|)]
  {
    var response := ResponseOf(request, answer);
    assert forall r :: r in response.items ==> r in answer;
    if response.hasNext && request.limit > 0 {
      var last := response.items[|response.items| - 1];
      CursorRoundTrip(CursorData(last.sort, last.id));
      hide EncodeCursor, DecodeCursor;
    }
  }

  /** The first page: the rows of the table in the order of their sort values, as many as fit. */
  lemma {:induction false} FirstResponseExact(c: Collation, request: Request, table: set<Row>, answer: seq<Row>,
                                              response: Response)
    requires Answered(c, request, table, answer, response)
    requires request.cursor == None || request.cursor == Some([])
    ensures FullPage(request, table, response)
    ensures forall i, j :: 0 <= i < j < |response.items| ==>
      !SortFirst(c, request.direction, response.items[j].sort, response.items[i].sort)
    ensures forall r, i :: r in table && r !in response.items && 0 <= i < |response.items| ==>
      !SortFirst(c, request.direction, r.sort, response.items[i].sort)
  {
    var d, limit := request.direction, request.limit;
    var q := FirstQuery(d, limit);
    assert Matching(c, table, q) == table;
    MatchingCount(c, table, q, answer, table, limit);
    ResponseIsPage(request, answer, table);
    forall a: Row, b: Row
      ensures Precedes(c, q.orders, a, b) <==> SortFirst(c, d, a.sort, b.sort)
    {
      KeysetOrder(c, d, a, b);
    }
    LeftOut(c, table, q, answer, |response.items|);
  }

  // What an answer leaves out of its beginning does not come before it.
  lemma {:induction false} LeftOut(c: Collation, table: set<Row>, q: Query, answer: seq<Row>, n: nat)
    requires Answers(c, table, q, answer) && n <= |answer|
    ensures forall i, j :: 0 <= i < j < n ==> !Precedes(c, q.orders, answer[..n][j], answer[..n][i])
    ensures forall r, i :: r in Matching(c, table, q) && r !in answer[..n] && 0 <= i < n ==>
      !Precedes(c, q.orders, r, answer[..n][i])
  {
    assert forall j :: 0 <= j < n ==> answer[j] in answer[..n];
    forall r, i | r in Matching(c, table, q) && r !in answer[..n] && 0 <= i < n
      ensures !Precedes(c, q.orders, r, answer[..n][i])
    {
      if r in answer {
        var j :| 0 <= j < |answer| && answer[j] == r;
        assert j >= n;
      }
    }
  }

  /** A later page: the rows after the position of the cursor by sort value, then id, as many as fit. */
  lemma {:induction false} LaterResponseExact(c: Collation, request: Request, table: set<Row>, answer: seq<Row>,
                                              response: Response)
    requires Answered(c, request, table, answer, response)
    requires request.cursor.Some? && request.cursor.value != [] && DecodeCursor(request.cursor.value).Ok?
    ensures
      var k := DecodeCursor(request.cursor.value).data;
      && FullPage(request, Following(c, request.direction, k, table), response)
      && (forall i, j :: 0 <= i < j < |response.items| ==>
            !Ahead(c, request.direction, response.items[j], response.items[i]))
      && (forall r, i ::
            r in Following(c, request.direction, k, table) && r !in response.items && 0 <= i < |response.items| ==>
              !Ahead(c, request.direction, r, response.items[i]))
  {
    var d, limit, k := request.direction, request.limit, DecodeCursor(request.cursor.value).data;
    hide DecodeCursor;
    var q := QueryOf(request).value;
    assert q == Query([AfterCursor(d, k)], Keyset(d), Some(limit + 1));
    forall r: Row
      ensures Matches(c, q, r) <==> Follows(c, d, k, r)
    {
      assert Matches(c, q, r) <==> Holds(c, q.wheres[0], r);
    }
    var rows := Following(c, d, k, table);
    assert Matching(c, table, q) == rows;
    MatchingCount(c, table, q, answer, rows, limit);
    ResponseIsPage(request, answer, rows);
    forall a: Row, b: Row
      ensures Precedes(c, q.orders, a, b) <==> Ahead(c, d, a, b)
    {
      KeysetOrder(c, d, a, b);
    }
    LeftOut(c, table, q, answer, |response.items|);
  }

  /** An unreadable cursor, and nothing else, is refused, with the reason for which it cannot be read. */
  lemma RefusedIff(request: Request, answer: seq<Row>)
    ensures ResponseOf(request, answer).BadRequest? <==>
      request.cursor.Some? && request.cursor.value != [] && DecodeCursor(request.cursor.value).Err?
    ensures ResponseOf(request, answer).BadRequest? ==>
      ResponseOf(request, answer).error == DecodeCursor(request.cursor.value).error
  {
    hide DecodeCursor, NextCursor;
  }

  /* ---------- A walk over responses ---------- */

  // One call: the table at that moment, what the database answered, and what the client got.
  datatype Call = Call(table: set<Row>, answer: seq<Row>, response: Response)

  // The next request carries the cursor of the last response.
  function RequestAfter(d: Direction, limit: nat, calls: seq<Call>): Request {
    var cursor :=
      if calls != [] && calls[|calls| - 1].response.Found? then calls[|calls| - 1].response.nextCursor else None;
    Request(cursor, d, limit)
  }

  // The client goes on for as long as the responses say that there is a next page.
  ghost predicate IsClientWalk(c: Collation, d: Direction, limit: nat, calls: seq<Call>) {
    calls != [] ==>
      var n := |calls| - 1;
      && IsClientWalk(c, d, limit, calls[..n])
      && (n > 0 ==> calls[n - 1].response.Found? && calls[n - 1].response.hasNext)
      && Answered(c, RequestAfter(d, limit, calls[..n]), calls[n].table, calls[n].answer, calls[n].response)
  }

  predicate AtEnd(calls: seq<Call>) {
    calls != [] && calls[|calls| - 1].response.Found? && !calls[|calls| - 1].response.hasNext
  }

  // Everything that the client was shown.
  function ShownItems(calls: seq<Call>): seq<Row> {
    if calls == [] then []
    else
      var response := calls[|calls| - 1].response;
      ShownItems(calls[..|calls| - 1]) + if response.Found? then response.items else []
  }

  predicate AlwaysThere(r: Row, calls: seq<Call>) {
    forall k :: 0 <= k < |calls| ==> r in calls[k].table
  }

  predicate NeverNull(calls: seq<Call>) {
    forall k, r :: 0 <= k < |calls| && r in calls[k].table ==> r.sort != Null && r.id != Null
  }

  // If there is a second page, no row ever has the sort value of the last row of the first, but that row.
  predicate FirstResponseTieFree(calls: seq<Call>) {
    calls != [] && calls[0].response.Found? && calls[0].response.hasNext && calls[0].response.items != [] ==>
      var last := calls[0].response.items[|calls[0].response.items| - 1];
      forall k, r :: 0 <= k < |calls| && r in calls[k].table && r.sort == last.sort ==> r == last
  }

  // Ids are unique and sort values never change.
  predicate NeverEdited(calls: seq<Call>) {
    forall j, k, r, s ::
      0 <= j < |calls| && 0 <= k < |calls| && r in calls[j].table && s in calls[k].table && r.id == s.id ==> r == s
  }

  ghost predicate RegularCalls(c: Collation, d: Direction, limit: nat, calls: seq<Call>) {
    && StrictTotal(c) && limit >= 1 && IsClientWalk(c, d, limit, calls)
    && NeverNull(calls) && FirstResponseTieFree(calls)
  }

  function Visits(calls: seq<Call>): seq<Visit> {
    seq(|calls|, i requires 0 <= i < |calls| => Visit(calls[i].table, calls[i].answer))
  }

  /** No call of a walk is refused, and the responses are the pages of the database's answers. */
  lemma {:induction false} ClientWalkIsWalk(c: Collation, d: Direction, limit: nat, calls: seq<Call>)
    requires IsClientWalk(c, d, limit, calls)
    ensures IsWalk(c, d, limit, Visits(calls)) && ShownItems(calls) == Shown(limit, Visits(calls))
    ensures forall k :: 0 <= k < |calls| ==> PageResponse(limit, calls[k])
  {
    hide StrictTotal, Answers, ResponseOf, QueryOf, QueryAfter, PageResponse, Items;
    if calls != [] {
      var n := |calls| - 1;
      ClientWalkIsWalk(c, d, limit, calls[..n]);
      assert Visits(calls)[..n] == Visits(calls[..n]);
      assert forall k :: 0 <= k < n ==> calls[..n][k] == calls[k];
      LastCall(c, d, limit, calls);
      PagesAreWalk(c, d, limit, calls);
    }
  }

  lemma {:induction false} PagesAreWalk(c: Collation, d: Direction, limit: nat, calls: seq<Call>)
    requires IsClientWalk(c, d, limit, calls) && calls != []
    requires var n := |calls| - 1;
      && IsWalk(c, d, limit, Visits(calls)[..n])
      && ShownItems(calls[..n]) == Shown(limit, Visits(calls)[..n])
      && QueryAfter(d, limit, Visits(calls)[..n]) == QueryOf(RequestAfter(d, limit, calls[..n]))
      && QueryAfter(d, limit, Visits(calls)[..n]).Some?
      && PageResponse(limit, calls[n])
      && (n > 0 ==> PageResponse(limit, calls[n - 1]))
    ensures IsWalk(c, d, limit, Visits(calls)) && ShownItems(calls) == Shown(limit, Visits(calls))
  {
    hide StrictTotal, Answers, ResponseOf, QueryOf, QueryAfter, RequestAfter, NextCursor;
  }

  predicate PageResponse(limit: nat, call: Call) {
    var page := PageOf(limit, call.answer);
    call.response == Found(page.items, NextCursor(page), page.hasMore)
  }

  lemma {:induction false} LastCall(c: Collation, d: Direction, limit: nat, calls: seq<Call>)
    requires IsClientWalk(c, d, limit, calls) && calls != []
    requires forall k :: 0 <= k < |calls| - 1 ==> PageResponse(limit, calls[k])
    ensures PageResponse(limit, calls[|calls| - 1])
    ensures
      var n := |calls| - 1;
      QueryAfter(d, limit, Visits(calls[..n])) == QueryOf(RequestAfter(d, limit, calls[..n])) &&
      QueryAfter(d, limit, Visits(calls[..n])).Some?
  {
    hide Answers, StrictTotal, DecodeCursor, EncodeCursor;
    var n := |calls| - 1;
    if n > 0 {
      assert calls[..n][n - 1] == calls[n - 1];
      assert PageResponse(limit, calls[n - 1]);
      var page := PageOf(limit, calls[n - 1].answer);
      if page.hasMore && page.items != [] {
        CursorNamesLastRow(d, limit, page);
      }
    }
  }

  lemma {:induction false} RegularVisits(c: Collation, d: Direction, limit: nat, calls: seq<Call>)
    requires RegularCalls(c, d, limit, calls)
    ensures Regular(c, d, limit, Visits(calls)) && ShownItems(calls) == Shown(limit, Visits(calls))
    ensures AtEnd(calls) <==> Ended(limit, Visits(calls))
  {
    hide StrictTotal, IsClientWalk, IsWalk, ShownItems, Shown, NextCursor;
    ClientWalkIsWalk(c, d, limit, calls);
    if calls != [] {
      assert PageResponse(limit, calls[0]) && PageResponse(limit, calls[|calls| - 1]);
      if HasMore(limit, calls[0].answer) {
        LastIsLast(limit, calls[0].answer);
      }
    }
  }

  /* ---------- The theorems ---------- */

  /** No row is shown twice and sort values never go back, whatever happens to the table between the calls. */
  lemma {:induction false} NoItemTwice(c: Collation, d: Direction, limit: nat, calls: seq<Call>)
    requires RegularCalls(c, d, limit, calls) && NeverEdited(calls)
    ensures
      var rs := ShownItems(calls);
      forall i, j :: 0 <= i < j < |rs| ==> rs[i].id != rs[j].id && !SortFirst(c, d, rs[j].sort, rs[i].sort)
  {
    RegularVisits(c, d, limit, calls);
    VisitsNeverEdited(calls);
    hide RegularCalls, Regular, NeverEdited, OneVersion, ShownItems, Shown, AtEnd, Ended;
    var rs := ShownItems(calls);
    NoRowTwice(c, d, limit, Visits(calls));
    forall i, j | 0 <= i < j < |rs|
      ensures rs[i].id != rs[j].id && !SortFirst(c, d, rs[j].sort, rs[i].sort)
    {
      assert !SortsBefore(c, d, rs[j], rs[i]);
    }
  }

  lemma {:induction false} VisitsNeverEdited(calls: seq<Call>)
    requires NeverEdited(calls)
    ensures OneVersion(Visits(calls))
  {
  }

  /** A row that is there at every call of a walk that came to its end was shown exactly once. */
  lemma {:induction false} PresentItemShownOnce(c: Collation, d: Direction, limit: nat, calls: seq<Call>, r: Row)
    requires RegularCalls(c, d, limit, calls) && AtEnd(calls) && AlwaysThere(r, calls)
    ensures multiset(ShownItems(calls))[r] == 1
  {
    RegularVisits(c, d, limit, calls);
    hide RegularCalls, Regular, Ended;
    PresentRowShownOnce(c, d, limit, Visits(calls), r);
  }

  /** On a table that does not change, a walk that came to its end showed every row, each once. */
  lemma {:induction false} FixedTableShownToClient(c: Collation, d: Direction, limit: nat, calls: seq<Call>,
                                                   table: set<Row>)
    requires RegularCalls(c, d, limit, calls) && AtEnd(calls)
    requires forall k :: 0 <= k < |calls| ==> calls[k].table == table
    ensures |ShownItems(calls)| == |table|
    ensures forall r :: multiset(ShownItems(calls))[r] == if r in table then 1 else 0
  {
    RegularVisits(c, d, limit, calls);
    assert Fixed(table, Visits(calls));
    hide RegularCalls, Regular, Ended, ShownItems, Shown;
    FixedTableShownWhole(c, d, limit, Visits(calls), table);
    forall r
      ensures multiset(ShownItems(calls))[r] == if r in table then 1 else 0
    {
      if r in table {
        PresentItemShownOnce(c, d, limit, calls, r);
      }
    }
  }

  /** A client makes at most one call more than there are full pages of rows, and then is at the end. */
  lemma {:induction false} ClientWalkIsShort(c: Collation, d: Direction, limit: nat, calls: seq<Call>, all: set<Row>)
    requires RegularCalls(c, d, limit, calls) && calls != []
    requires forall k :: 0 <= k < |calls| ==> calls[k].table <= all
    ensures (|calls| - 1) * limit <= |all|
    ensures AtEnd(calls) || |calls| * limit <= |all|
  {
    RegularVisits(c, d, limit, calls);
    hide RegularCalls, Regular, Ended;
    WalkIsShort(c, d, limit, Visits(calls), all);
  }

  // A walk over a table that does not change, in which sort values may be null.
  ghost predicate CallsOver(c: Collation, d: Direction, limit: nat, calls: seq<Call>, table: set<Row>) {
    && StrictTotal(c) && limit >= 1 && calls != [] && IsClientWalk(c, d, limit, calls)
    && (forall k :: 0 <= k < |calls| ==> calls[k].table == table)
    && (forall r :: r in table ==> r.id != Null)
    && (var first := calls[0].response;
        first.Found? && first.hasNext && first.items != [] && first.items[|first.items| - 1].sort != Null ==>
          var last := first.items[|first.items| - 1];
          forall r :: r in table && r.sort == last.sort ==> r == last)
  }

  /**
   With null sort values a walk that came to its end showed, each once, the rows of the first page and, if
   there was a second page and the first stopped at a row with a sort value, all the rows with one.
   */
  lemma {:induction false} NullsShownToClient(c: Collation, d: Direction, limit: nat, calls: seq<Call>,
                                              table: set<Row>, r: Row)
    requires CallsOver(c, d, limit, calls, table) && AtEnd(calls)
    ensures calls[0].response.Found? && Distinct(ShownItems(calls))
    ensures
      var first := calls[0].response;
      r in ShownItems(calls) <==>
        || r in first.items
        || (first.hasNext && first.items != [] && first.items[|first.items| - 1].sort != Null &&
            r in table && r.sort != Null)
  {
    CallsVisited(c, d, limit, calls, table);
    FirstItems(c, d, limit, calls, table, r);
    hide FixedWalk, CallsOver, AtEnd, Ended, ShownItems, Shown;
    FixedTableShownExactly(c, d, limit, Visits(calls), table);
  }

  lemma {:induction false} CallsVisited(c: Collation, d: Direction, limit: nat, calls: seq<Call>, table: set<Row>)
    requires CallsOver(c, d, limit, calls, table)
    ensures FixedWalk(c, d, limit, Visits(calls), table) && ShownItems(calls) == Shown(limit, Visits(calls))
    ensures AtEnd(calls) <==> Ended(limit, Visits(calls))
  {
    hide StrictTotal, IsClientWalk, IsWalk, ShownItems, Shown, NextCursor;
    ClientWalkIsWalk(c, d, limit, calls);
    assert PageResponse(limit, calls[0]) && PageResponse(limit, calls[|calls| - 1]);
    if HasMore(limit, calls[0].answer) {
      LastIsLast(limit, calls[0].answer);
    }
  }

  lemma {:induction false} FirstItems(c: Collation, d: Direction, limit: nat, calls: seq<Call>, table: set<Row>,
                                      r: Row)
    requires CallsOver(c, d, limit, calls, table)
    ensures calls[0].response.Found?
    ensures
      var first := calls[0].response;
      Reachable(limit, table, calls[0].answer, r) <==>
        || r in first.items
        || (first.hasNext && first.items != [] && first.items[|first.items| - 1].sort != Null &&
            r in table && r.sort != Null)
  {
    var answer := calls[0].answer;
    FirstCall(c, d, limit, calls, table, r);
    hide StrictTotal, IsClientWalk, CallsOver, NextCursor;
    if HasMore(limit, answer) {
      LastIsLast(limit, answer);
    }
  }

  lemma {:induction false} FirstCall(c: Collation, d: Direction, limit: nat, calls: seq<Call>, table: set<Row>,
                                     r: Row)
    requires CallsOver(c, d, limit, calls, table)
    ensures PageResponse(limit, calls[0])
    ensures r in Items(limit, calls[0].answer) ==> r in table
    ensures r in table && !HasMore(limit, calls[0].answer) ==> r in Items(limit, calls[0].answer)
  {
    hide IsWalk, IsClientWalk, StrictTotal, Answers, ShownItems, Shown, PageResponse;
    ClientWalkIsWalk(c, d, limit, calls);
    FirstVisit(c, d, limit, Visits(calls));
    AnswerRow(c, d, limit, table, calls[0].answer, r);
  }

  lemma {:induction false} AnswerRow(c: Collation, d: Direction, limit: nat, table: set<Row>, answer: seq<Row>, r: Row)
    requires Answers(c, table, FirstQuery(d, limit), answer)
    ensures r in Items(limit, answer) ==> r in table
    ensures r in table && !HasMore(limit, answer) ==> r in Items(limit, answer)
  {
    assert r in Items(limit, answer) ==> r in answer;
    if r in table && !HasMore(limit, answer) {
      LastPageShowsAll(c, table, FirstQuery(d, limit), limit, answer, r);
    }
  }

  lemma {:induction false} FirstVisit(c: Collation, d: Direction, limit: nat, visits: seq<Visit>)
    requires IsWalk(c, d, limit, visits) && visits != []
    ensures Answers(c, visits[0].table, FirstQuery(d, limit), visits[0].answer)
  {
    hide Answers, StrictTotal;
    var n := |visits| - 1;
    if n > 0 {
      FirstVisit(c, d, limit, visits[..n]);
    } else {
      assert visits[..0] == [] && QueryAfter(d, limit, []) == Some(FirstQuery(d, limit));
    }
  }
}
