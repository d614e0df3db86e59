/** A walk over the pages of `findAllCursor`, while the table may change between the pages. */
module PaginationTheorems {
  import opened Common
  import opened Json
  import opened CursorCodec
  import opened CursorPagination

  /* ---------- Sets and sequences of rows ---------- */

  lemma {:induction false} DistinctCount(rs: seq<Row>)
    requires Distinct(rs)
    ensures |set r | r in rs| == |rs|
  {
    if rs != [] {
      var n := |rs| - 1;
      DistinctCount(rs[..n]);
      assert (set r | r in rs) == (set r | r in rs[..n]) + {rs[n]};
    }
  }

  lemma {:induction false} SubsetCount(a: set<Row>, b: set<Row>)
    requires a <= b
    ensures |a| <= |b|
    ensures |a| == |b| ==> a == b
  {
    if a != {} {
      var r :| r in a;
      SubsetCount(a - {r}, b - {r});
    }
  }

  // Distinct rows out of a set are at most as many, and just as many only if they are all of it.
  lemma DistinctWithin(rs: seq<Row>, all: set<Row>)
    requires Distinct(rs) && forall r :: r in rs ==> r in all
    ensures |rs| <= |all|
    ensures |rs| == |all| ==> forall r :: r in all ==> r in rs
  {
    DistinctCount(rs);
    SubsetCount((set r | r in rs), all);
  }

  /* ---------- The order of rows ---------- */

  function Keyset(d: Direction): seq<OrderBy> {
    [OrderBy(SortColumn, d), OrderBy(IdColumn, d)]
  }

  // Before in the order of the later pages: by sort value, then by id.
  predicate Before(c: Collation, d: Direction, a: Row, b: Row) {
    || Comes(c, OrderBy(SortColumn, d), a.sort, b.sort)
    || (a.sort == b.sort && Comes(c, OrderBy(IdColumn, d), a.id, b.id))
  }

  predicate SortsBefore(c: Collation, d: Direction, a: Row, b: Row) {
    Comes(c, OrderBy(SortColumn, d), a.sort, b.sort)
  }

  lemma KeysetOrder(c: Collation, d: Direction, a: Row, b: Row)
    ensures Precedes(c, Keyset(d), a, b) <==> Before(c, d, a, b)
    ensures Precedes(c, [OrderBy(SortColumn, d)], a, b) <==> SortsBefore(c, d, a, b)
  {
    var byId := [OrderBy(IdColumn, d)];
    assert Keyset(d)[1..] == byId && byId[1..] == [];
    assert Precedes(c, byId, a, b) <==> Comes(c, OrderBy(IdColumn, d), a.id, b.id);
    assert [OrderBy(SortColumn, d)][1..] == [];
  }

  lemma ComesStrict(c: Collation, o: OrderBy, x: Value, y: Value, z: Value)
    requires StrictTotal(c)
    ensures !Comes(c, o, x, x)
    ensures x != y ==> Comes(c, o, x, y) || Comes(c, o, y, x)
    ensures Comes(c, o, x, y) && Comes(c, o, y, z) ==> Comes(c, o, x, z)
  {
  }

  lemma BeforeStrict(c: Collation, d: Direction, a: Row, b: Row, e: Row)
    requires StrictTotal(c)
    ensures !Before(c, d, a, a)
    ensures a != b ==> Before(c, d, a, b) || Before(c, d, b, a)
    ensures Before(c, d, a, b) && Before(c, d, b, e) ==> Before(c, d, a, e)
    ensures Before(c, d, a, b) ==> !SortsBefore(c, d, b, a)
  {
    hide StrictTotal;
    ComesStrict(c, OrderBy(SortColumn, d), a.sort, b.sort, e.sort);
    ComesStrict(c, OrderBy(IdColumn, d), a.id, b.id, e.id);
    ComesStrict(c, OrderBy(SortColumn, d), a.sort, b.sort, a.sort);
  }

  predicate NoNulls(table: set<Row>) {
    forall r :: r in table ==> !r.sort.Null? && !r.id.Null?
  }

  /* ---------- One page ---------- */

  function FirstQuery(d: Direction, limit: nat): Query {
    Query([], [OrderBy(SortColumn, d)], Some(limit + 1))
  }

  function NextQuery(d: Direction, limit: nat, last: Row): Query {
    Query([AfterCursor(d, CursorOf(last))], Keyset(d), Some(limit + 1))
  }

  lemma MatchesAfter(c: Collation, d: Direction, limit: nat, last: Row, r: Row)
    requires !r.sort.Null? && !r.id.Null? && !last.sort.Null? && !last.id.Null?
    ensures Matches(c, NextQuery(d, limit, last), r) <==> Before(c, d, last, r)
  {
    assert Matches(c, NextQuery(d, limit, last), r) <==> Holds(c, NextQuery(d, limit, last).wheres[0], r);
  }

  /** The request with the cursor of a page asks for the rows after the last row of that page. */
  lemma {:induction false} CursorNamesLastRow(direction: Direction, limit: nat, page: Page)
    requires page.hasMore && page.items != []
    ensures
      QueryOf(Request(NextCursor(page), direction, limit)) ==
      Some(NextQuery(direction, limit, page.items[|page.items| - 1]))
  {
    var last := page.items[|page.items| - 1];
    CursorRoundTrip(CursorOf(last));
    assert EncodeCursor(CursorOf(last))[0] == VERSION[0];
    hide EncodeCursor, DecodeCursor;
    assert [] + [AfterCursor(direction, CursorOf(last))] == [AfterCursor(direction, CursorOf(last))];
  }

  // The rows of an answer that are shown, and the last of them.
  function Items(limit: nat, answer: seq<Row>): seq<Row> {
    PageOf(limit, answer).items
  }

  predicate HasMore(limit: nat, answer: seq<Row>) {
    |answer| > limit
  }

  function LastOf(limit: nat, answer: seq<Row>): Row
    requires limit >= 1 && HasMore(limit, answer)
  {
    answer[|answer| - 2]
  }

  lemma LastIsLast(limit: nat, answer: seq<Row>)
    requires limit >= 1 && HasMore(limit, answer)
    ensures Items(limit, answer) != [] && Items(limit, answer)[|Items(limit, answer)| - 1] == LastOf(limit, answer)
    ensures PageOf(limit, answer).hasMore
  {
  }

  // With no further page, all the matching rows are shown.
  lemma LastPageShowsAll(c: Collation, table: set<Row>, q: Query, limit: nat, answer: seq<Row>, r: Row)
    requires Answers(c, table, q, answer) && q.take == Some(limit + 1) && !HasMore(limit, answer)
    requires r in table && Matches(c, q, r)
    ensures r in Items(limit, answer)
  {
    DistinctWithin(answer, Matching(c, table, q));
  }

  // A matching row that is not shown does not have to come before the last row shown.
  lemma LeftOutIsLater(c: Collation, table: set<Row>, q: Query, limit: nat, answer: seq<Row>, r: Row)
    requires limit >= 1 && Answers(c, table, q, answer) && q.take == Some(limit + 1) && HasMore(limit, answer)
    requires r in table && Matches(c, q, r) && r !in Items(limit, answer)
    ensures !Precedes(c, q.orders, r, LastOf(limit, answer)) && r != LastOf(limit, answer)
  {
    LastIsLast(limit, answer);
    if r in answer {
      forall i | 0 <= i < |answer| - 1
        ensures answer[i] != r
      {
        assert Items(limit, answer)[i] == answer[i];
      }
    }
  }

  /* ---------- A walk ---------- */

  // One page of a walk: the table at that moment and what the database answered.
  datatype Visit = Visit(table: set<Row>, answer: seq<Row>)

  // The query of the page after the visits so far.
  function QueryAfter(d: Direction, limit: nat, visits: seq<Visit>): Option<Query> {
    var cursor := if visits == [] then None else NextCursor(PageOf(limit, visits[|visits| - 1].answer));
    QueryOf(Request(cursor, d, limit))
  }

  // Each page is asked for with the cursor of the page before it.
  ghost predicate IsWalk(c: Collation, d: Direction, limit: nat, visits: seq<Visit>) {
    visits != [] ==>
      var n := |visits| - 1;
      && IsWalk(c, d, limit, visits[..n])
      && (n > 0 ==> HasMore(limit, visits[n - 1].answer))
      && QueryAfter(d, limit, visits[..n]).Some?
      && Answers(c, visits[n].table, QueryAfter(d, limit, visits[..n]).value, visits[n].answer)
  }

  predicate Ended(limit: nat, visits: seq<Visit>) {
    visits != [] && !HasMore(limit, visits[|visits| - 1].answer)
  }

  function Shown(limit: nat, visits: seq<Visit>): seq<Row> {
    if visits == [] then []
    else Shown(limit, visits[..|visits| - 1]) + Items(limit, visits[|visits| - 1].answer)
  }

  predicate Throughout(r: Row, visits: seq<Visit>) {
    forall k :: 0 <= k < |visits| ==> r in visits[k].table
  }

  predicate WithoutNulls(visits: seq<Visit>) {
    forall k :: 0 <= k < |visits| ==> NoNulls(visits[k].table)
  }

  // No row ever has the sort value of the last row of the first page, but that row.
  predicate FirstPageTieFree(limit: nat, visits: seq<Visit>)
    requires limit >= 1
  {
    visits != [] && HasMore(limit, visits[0].answer) ==>
      forall k, r ::
        0 <= k < |visits| && r in visits[k].table && r.sort == LastOf(limit, visits[0].answer).sort ==>
          r == LastOf(limit, visits[0].answer)
  }

  // Ids are unique and sort values never change.
  predicate OneVersion(visits: seq<Visit>) {
    forall j, k, r, s ::
      0 <= j < |visits| && 0 <= k < |visits| && r in visits[j].table && s in visits[k].table && r.id == s.id ==>
        r == s
  }

  ghost predicate Regular(c: Collation, d: Direction, limit: nat, visits: seq<Visit>) {
    && StrictTotal(c) && limit >= 1 && IsWalk(c, d, limit, visits)
    && WithoutNulls(visits) && FirstPageTieFree(limit, visits)
  }

  lemma {:induction false} RegularPrefix(c: Collation, d: Direction, limit: nat, visits: seq<Visit>)
    requires Regular(c, d, limit, visits) && visits != []
    ensures Regular(c, d, limit, visits[..|visits| - 1])
  {
    hide StrictTotal, Answers;
    var n := |visits| - 1;
    assert forall k :: 0 <= k < n ==> visits[..n][k] == visits[k];
  }

  // The query of a later page is about the rows after the last one shown.
  lemma {:induction false} LaterQuery(c: Collation, d: Direction, limit: nat, visits: seq<Visit>)
    requires Regular(c, d, limit, visits) && |visits| >= 2
    ensures
      var n := |visits| - 1;
      && HasMore(limit, visits[n - 1].answer)
      && QueryAfter(d, limit, visits[..n]) == Some(NextQuery(d, limit, LastOf(limit, visits[n - 1].answer)))
  {
    hide StrictTotal, Answers, QueryOf, NextCursor, NextQuery, WithoutNulls, FirstPageTieFree;
    var n := |visits| - 1;
    assert visits[..n][n - 1] == visits[n - 1];
    QueryAfterPage(d, limit, visits[..n]);
  }

  lemma {:induction false} QueryAfterPage(d: Direction, limit: nat, visits: seq<Visit>)
    requires limit >= 1 && visits != [] && HasMore(limit, visits[|visits| - 1].answer)
    ensures QueryAfter(d, limit, visits) == Some(NextQuery(d, limit, LastOf(limit, visits[|visits| - 1].answer)))
  {
    hide QueryOf, NextCursor, NextQuery;
    var answer := visits[|visits| - 1].answer;
    LastIsLast(limit, answer);
    CursorNamesLastRow(d, limit, PageOf(limit, answer));
  }

  /* ---------- What holds after each page ---------- */

  predicate SortedUp(c: Collation, d: Direction, rs: seq<Row>) {
    forall i, j :: 0 <= i < j < |rs| ==> !SortsBefore(c, d, rs[j], rs[i])
  }

  // All rows but the last are before the last.
  predicate Topped(c: Collation, d: Direction, rs: seq<Row>, last: Row) {
    && rs != [] && rs[|rs| - 1] == last
    && forall i :: 0 <= i < |rs| - 1 ==> Before(c, d, rs[i], last)
  }

  ghost predicate Covered(c: Collation, d: Direction, limit: nat, visits: seq<Visit>, rs: seq<Row>)
    requires limit >= 1 && visits != []
  {
    var answer := visits[|visits| - 1].answer;
    forall r :: Throughout(r, visits) && r !in rs ==>
      HasMore(limit, answer) && Before(c, d, LastOf(limit, answer), r)
  }

  ghost predicate Kept(c: Collation, d: Direction, limit: nat, visits: seq<Visit>)
    requires limit >= 1 && visits != []
  {
    var rs := Shown(limit, visits);
    var answer := visits[|visits| - 1].answer;
    && Distinct(rs)
    && SortedUp(c, d, rs)
    && (HasMore(limit, answer) ==> Topped(c, d, rs, LastOf(limit, answer)))
    && Covered(c, d, limit, visits, rs)
  }

  lemma FirstPageSorted(c: Collation, d: Direction, limit: nat, v: Visit)
    requires Regular(c, d, limit, [v])
    ensures Answers(c, v.table, FirstQuery(d, limit), v.answer)
    ensures Distinct(Items(limit, v.answer)) && SortedUp(c, d, Items(limit, v.answer))
    ensures HasMore(limit, v.answer) ==> Topped(c, d, Items(limit, v.answer), LastOf(limit, v.answer))
  {
    assert [v][..0] == [] && QueryAfter(d, limit, []) == Some(FirstQuery(d, limit));
    var rs := Items(limit, v.answer);
    assert forall i :: 0 <= i < |v.answer| ==> v.answer[i] in v.table;
    forall i, j | 0 <= i < j < |rs|
      ensures !SortsBefore(c, d, rs[j], rs[i])
    {
      KeysetOrder(c, d, rs[j], rs[i]);
    }
    if HasMore(limit, v.answer) {
      LastIsLast(limit, v.answer);
      var last := LastOf(limit, v.answer);
      forall i | 0 <= i < |rs| - 1
        ensures Before(c, d, rs[i], last)
      {
        assert [v][0] == v && rs[i] in v.table && rs[i] != last;
        assert rs[i].sort != last.sort;
        assert !SortsBefore(c, d, last, rs[i]);
        BeforeStrict(c, d, rs[i], last, last);
      }
    }
  }

  lemma FirstPageCovers(c: Collation, d: Direction, limit: nat, v: Visit)
    requires Regular(c, d, limit, [v])
    requires Answers(c, v.table, FirstQuery(d, limit), v.answer)
    ensures Covered(c, d, limit, [v], Items(limit, v.answer))
  {
    forall r | Throughout(r, [v]) && r !in Items(limit, v.answer)
      ensures HasMore(limit, v.answer) && Before(c, d, LastOf(limit, v.answer), r)
    {
      assert r in [v][0].table;
      if !HasMore(limit, v.answer) {
        LastPageShowsAll(c, v.table, FirstQuery(d, limit), limit, v.answer, r);
      } else {
        var last := LastOf(limit, v.answer);
        LeftOutIsLater(c, v.table, FirstQuery(d, limit), limit, v.answer, r);
        KeysetOrder(c, d, r, last);
        assert [v][0] == v && r.sort != last.sort;
        BeforeStrict(c, d, r, last, r);
      }
    }
  }

  lemma {:induction false} NextPageSorted(c: Collation, d: Direction, limit: nat, v: Visit, last: Row)
    requires StrictTotal(c) && limit >= 1 && NoNulls(v.table) && !last.sort.Null? && !last.id.Null?
    requires Answers(c, v.table, NextQuery(d, limit, last), v.answer)
    ensures
      var rs := Items(limit, v.answer);
      && (forall i :: 0 <= i < |rs| ==> Before(c, d, last, rs[i]))
      && (forall i, j :: 0 <= i < j < |rs| ==> Before(c, d, rs[i], rs[j]))
  {
    var rs := Items(limit, v.answer);
    forall i | 0 <= i < |rs|
      ensures Before(c, d, last, rs[i])
    {
      assert rs[i] == v.answer[i];
      MatchesAfter(c, d, limit, last, rs[i]);
    }
    forall i, j | 0 <= i < j < |rs|
      ensures Before(c, d, rs[i], rs[j])
    {
      assert rs[i] == v.answer[i] && rs[j] == v.answer[j];
      KeysetOrder(c, d, rs[j], rs[i]);
      BeforeStrict(c, d, rs[i], rs[j], rs[i]);
    }
  }

  lemma NextPageCovers(c: Collation, d: Direction, limit: nat, v: Visit, last: Row, r: Row)
    requires StrictTotal(c) && limit >= 1 && NoNulls(v.table) && !last.sort.Null? && !last.id.Null?
    requires Answers(c, v.table, NextQuery(d, limit, last), v.answer)
    requires r in v.table && Before(c, d, last, r) && r !in Items(limit, v.answer)
    ensures HasMore(limit, v.answer) && Before(c, d, LastOf(limit, v.answer), r)
  {
    MatchesAfter(c, d, limit, last, r);
    if !HasMore(limit, v.answer) {
      LastPageShowsAll(c, v.table, NextQuery(d, limit, last), limit, v.answer, r);
    } else {
      LeftOutIsLater(c, v.table, NextQuery(d, limit, last), limit, v.answer, r);
      KeysetOrder(c, d, r, LastOf(limit, v.answer));
      BeforeStrict(c, d, r, LastOf(limit, v.answer), r);
    }
  }

  // Rows after the last one so far can be put behind the rows so far.
  lemma {:induction false} Appended(c: Collation, d: Direction, rs: seq<Row>, last: Row, more: seq<Row>)
    requires StrictTotal(c) && Distinct(rs) && SortedUp(c, d, rs) && Topped(c, d, rs, last)
    requires forall i :: 0 <= i < |more| ==> Before(c, d, last, more[i])
    requires forall i, j :: 0 <= i < j < |more| ==> Before(c, d, more[i], more[j])
    ensures Distinct(rs + more) && SortedUp(c, d, rs + more)
    ensures more != [] ==> Topped(c, d, rs + more, more[|more| - 1])
  {
    hide StrictTotal;
    var all := rs + more;
    forall i, j | 0 <= i < j < |all|
      ensures all[i] != all[j] && !SortsBefore(c, d, all[j], all[i])
      ensures j >= |rs| ==> Before(c, d, all[i], all[j])
    {
      BeforeStrict(c, d, all[i], last, all[j]);
      BeforeStrict(c, d, all[i], all[j], all[i]);
    }
  }

  // What a later page answers.
  lemma {:induction false} LaterAnswers(c: Collation, d: Direction, limit: nat, visits: seq<Visit>)
    requires Regular(c, d, limit, visits) && |visits| >= 2
    ensures
      var n := |visits| - 1;
      var last := LastOf(limit, visits[n - 1].answer);
      && StrictTotal(c) && limit >= 1 && HasMore(limit, visits[n - 1].answer)
      && !last.sort.Null? && !last.id.Null? && NoNulls(visits[n].table)
      && Answers(c, visits[n].table, NextQuery(d, limit, last), visits[n].answer)
  {
    hide Answers, StrictTotal, QueryAfter, NextQuery, FirstPageTieFree, HasMore, LastOf, NoNulls;
    var n := |visits| - 1;
    RegularPrefix(c, d, limit, visits);
    LaterQuery(c, d, limit, visits);
    assert visits[..n][n - 1] == visits[n - 1];
    LastIsReal(c, d, limit, visits[..n]);
  }

  lemma {:induction false} WalkKept(c: Collation, d: Direction, limit: nat, visits: seq<Visit>)
    requires Regular(c, d, limit, visits) && visits != []
    ensures Kept(c, d, limit, visits)
  {
    var n := |visits| - 1;
    var v := visits[n];
    if n == 0 {
      assert visits == [v];
      FirstKept(c, d, limit, v);
    } else {
      RegularPrefix(c, d, limit, visits);
      LaterAnswers(c, d, limit, visits);
      hide Kept, Answers, StrictTotal, Regular, NoNulls, HasMore, LastOf;
      WalkKept(c, d, limit, visits[..n]);
      NextPageKept(c, d, limit, visits, LastOf(limit, visits[n - 1].answer));
    }
  }

  lemma {:induction false} FirstKept(c: Collation, d: Direction, limit: nat, v: Visit)
    requires Regular(c, d, limit, [v])
    ensures Kept(c, d, limit, [v])
  {
    FirstPageSorted(c, d, limit, v);
    FirstPageCovers(c, d, limit, v);
    hide Answers, StrictTotal, IsWalk, Covered, Topped, SortedUp, FirstPageTieFree;
    assert [v][..0] == [] && Shown(limit, []) == [];
    assert Shown(limit, [v]) == Items(limit, v.answer);
  }

  lemma {:induction false} NextPageKept(c: Collation, d: Direction, limit: nat, visits: seq<Visit>, last: Row)
    requires StrictTotal(c) && limit >= 1 && |visits| >= 2 && !last.sort.Null? && !last.id.Null?
    requires HasMore(limit, visits[|visits| - 2].answer) && last == LastOf(limit, visits[|visits| - 2].answer)
    requires NoNulls(visits[|visits| - 1].table)
    requires Answers(c, visits[|visits| - 1].table, NextQuery(d, limit, last), visits[|visits| - 1].answer)
    requires Kept(c, d, limit, visits[..|visits| - 1])
    ensures Kept(c, d, limit, visits)
  {
    var n := |visits| - 1;
    var pre, v := visits[..n], visits[n];
    var rs, more := Shown(limit, pre), Items(limit, v.answer);
    assert Shown(limit, visits) == rs + more;
    hide StrictTotal, Answers, Before, NoNulls, Shown;
    NextPageCoversAll(c, d, limit, visits, last);
    hide Covered;
    NextPageSorted(c, d, limit, v, last);
    Appended(c, d, rs, last, more);
    if HasMore(limit, v.answer) {
      LastIsLast(limit, v.answer);
    }
  }

  lemma {:induction false} NextPageCoversAll(c: Collation, d: Direction, limit: nat, visits: seq<Visit>, last: Row)
    requires StrictTotal(c) && limit >= 1 && |visits| >= 2 && !last.sort.Null? && !last.id.Null?
    requires HasMore(limit, visits[|visits| - 2].answer) && last == LastOf(limit, visits[|visits| - 2].answer)
    requires NoNulls(visits[|visits| - 1].table)
    requires Answers(c, visits[|visits| - 1].table, NextQuery(d, limit, last), visits[|visits| - 1].answer)
    requires Covered(c, d, limit, visits[..|visits| - 1], Shown(limit, visits[..|visits| - 1]))
    ensures Covered(c, d, limit, visits, Shown(limit, visits))
  {
    hide StrictTotal, Answers, Before;
    var n := |visits| - 1;
    var pre, v := visits[..n], visits[n];
    forall r | Throughout(r, visits) && r !in Shown(limit, visits)
      ensures HasMore(limit, v.answer) && Before(c, d, LastOf(limit, v.answer), r)
    {
      assert Throughout(r, pre);
      NextPageCovers(c, d, limit, v, last, r);
    }
  }

  // The rows shown are rows of the tables, so they hold no null.
  lemma {:induction false} LastIsReal(c: Collation, d: Direction, limit: nat, visits: seq<Visit>)
    requires limit >= 1 && IsWalk(c, d, limit, visits) && WithoutNulls(visits) && visits != []
    requires HasMore(limit, visits[|visits| - 1].answer)
    ensures
      var last := LastOf(limit, visits[|visits| - 1].answer);
      last in visits[|visits| - 1].table && !last.sort.Null? && !last.id.Null?
  {
    var v := visits[|visits| - 1];
    assert v.answer[|v.answer| - 2] in v.table;
  }

  lemma {:induction false} ShownAreRows(c: Collation, d: Direction, limit: nat, visits: seq<Visit>, r: Row)
    requires IsWalk(c, d, limit, visits) && r in Shown(limit, visits)
    ensures exists k :: 0 <= k < |visits| && r in visits[k].table
  {
    var n := |visits| - 1;
    if r in Shown(limit, visits[..n]) {
      ShownAreRows(c, d, limit, visits[..n], r);
      var k :| 0 <= k < n && r in visits[..n][k].table;
      assert r in visits[k].table;
    } else {
      var i :| 0 <= i < |Items(limit, visits[n].answer)| && Items(limit, visits[n].answer)[i] == r;
      assert visits[n].answer[i] == r;
      assert r in visits[n].table;
    }
  }

  /* ---------- The theorems ---------- */

  /** No row is shown twice and the pages follow the order, whatever happens to the table in between. */
  lemma {:induction false} NoRowTwice(c: Collation, d: Direction, limit: nat, visits: seq<Visit>)
    requires Regular(c, d, limit, visits) && OneVersion(visits)
    ensures
      var rs := Shown(limit, visits);
      forall i, j :: 0 <= i < j < |rs| ==> rs[i].id != rs[j].id && !SortsBefore(c, d, rs[j], rs[i])
  {
    if visits != [] {
      WalkKept(c, d, limit, visits);
      var rs := Shown(limit, visits);
      forall i, j | 0 <= i < j < |rs|
        ensures rs[i].id != rs[j].id && !SortsBefore(c, d, rs[j], rs[i])
      {
        ShownAreRows(c, d, limit, visits, rs[i]);
        ShownAreRows(c, d, limit, visits, rs[j]);
      }
    }
  }

  /** A row that is there throughout a walk that has ended was shown exactly once. */
  lemma PresentRowShownOnce(c: Collation, d: Direction, limit: nat, visits: seq<Visit>, r: Row)
    requires Regular(c, d, limit, visits) && Ended(limit, visits) && Throughout(r, visits)
    ensures multiset(Shown(limit, visits))[r] == 1
  {
    WalkKept(c, d, limit, visits);
    var rs := Shown(limit, visits);
    assert r in rs;
    OnceInDistinct(rs, r);
  }

  lemma {:induction false} OnceInDistinct(rs: seq<Row>, r: Row)
    requires Distinct(rs) && r in rs
    ensures multiset(rs)[r] == 1
  {
    var n := |rs| - 1;
    assert rs == rs[..n] + [rs[n]];
    if rs[n] == r {
      assert r !in rs[..n];
    } else {
      OnceInDistinct(rs[..n], r);
    }
  }

  lemma FullPages(c: Collation, d: Direction, limit: nat, visits: seq<Visit>)
    requires IsWalk(c, d, limit, visits)
    ensures visits != [] ==> |Shown(limit, visits)| >= (|visits| - 1) * limit
  {
    if |visits| > 1 {
      var n := |visits| - 1;
      ShownLast(c, d, limit, visits[..n]);
    }
  }

  lemma {:induction false} FullItems(c: Collation, d: Direction, limit: nat, visits: seq<Visit>)
    requires IsWalk(c, d, limit, visits) && visits != [] && HasMore(limit, visits[|visits| - 1].answer)
    ensures |Items(limit, visits[|visits| - 1].answer)| == limit
  {
    hide StrictTotal, DecodeCursor, NextCursor;
  }

  // Every page that is not the last is full.
  lemma {:induction false} ShownLast(c: Collation, d: Direction, limit: nat, visits: seq<Visit>)
    requires IsWalk(c, d, limit, visits) && visits != [] && HasMore(limit, visits[|visits| - 1].answer)
    ensures |Shown(limit, visits)| >= |visits| * limit
  {
    var n := |visits| - 1;
    FullItems(c, d, limit, visits);
    hide Answers, QueryAfter, Items, StrictTotal;
    if n > 0 {
      ShownLast(c, d, limit, visits[..n]);
      hide IsWalk;
      PageMore(n, limit, |Shown(limit, visits[..n])|);
    }
  }

  lemma PageMore(n: nat, limit: nat, before: nat)
    requires before >= n * limit
    ensures before + limit >= (n + 1) * limit
  {
  }

  /** The walk ends: there are never more full pages than rows to fill them. */
  lemma {:induction false} WalkIsShort(c: Collation, d: Direction, limit: nat, visits: seq<Visit>, all: set<Row>)
    requires Regular(c, d, limit, visits) && visits != []
    requires forall k :: 0 <= k < |visits| ==> visits[k].table <= all
    ensures (|visits| - 1) * limit <= |all|
    ensures Ended(limit, visits) || |visits| * limit <= |all|
  {
    WalkKept(c, d, limit, visits);
    FullPages(c, d, limit, visits);
    if !Ended(limit, visits) {
      ShownLast(c, d, limit, visits);
    }
    var rs := Shown(limit, visits);
    forall r | r in rs
      ensures r in all
    {
      ShownAreRows(c, d, limit, visits, r);
    }
    DistinctWithin(rs, all);
  }

  predicate Fixed(table: set<Row>, visits: seq<Visit>) {
    forall k :: 0 <= k < |visits| ==> visits[k].table == table
  }

  /** On a table that does not change, a walk that has ended showed every row, each once. */
  lemma FixedTableShownWhole(c: Collation, d: Direction, limit: nat, visits: seq<Visit>, table: set<Row>)
    requires Regular(c, d, limit, visits) && Ended(limit, visits) && Fixed(table, visits)
    ensures forall r :: r in Shown(limit, visits) <==> r in table
    ensures |Shown(limit, visits)| == |table|
  {
    WalkKept(c, d, limit, visits);
    var rs := Shown(limit, visits);
    forall r | r in rs
      ensures r in table
    {
      ShownAreRows(c, d, limit, visits, r);
    }
    forall r | r in table
      ensures r in rs
    {
      assert Throughout(r, visits);
    }
    DistinctCount(rs);
    assert (set r | r in rs) == table;
  }

  /* ---------- Ties at the end of the first page ---------- */

  // The next page is asked for exactly the rows that the page did not show.
  ghost predicate Continues(c: Collation, d: Direction, limit: nat, table: set<Row>, answer: seq<Row>)
    requires limit >= 1
  {
    && HasMore(limit, answer)
    && forall r :: r in table ==>
         (Matches(c, NextQuery(d, limit, LastOf(limit, answer)), r) <==> r !in Items(limit, answer))
  }

  predicate UniqueIds(table: set<Row>) {
    forall r, s :: r in table && s in table && r.id == s.id ==> r == s
  }

  ghost predicate FirstPage(c: Collation, d: Direction, limit: nat, table: set<Row>, answer: seq<Row>) {
    && StrictTotal(c) && limit >= 1 && NoNulls(table) && UniqueIds(table)
    && Answers(c, table, FirstQuery(d, limit), answer) && HasMore(limit, answer)
  }

  lemma {:induction false} FirstPageFacts(c: Collation, d: Direction, limit: nat, table: set<Row>, answer: seq<Row>)
    requires FirstPage(c, d, limit, table, answer)
    ensures |answer| == limit + 1 && Distinct(answer)
    ensures forall i :: 0 <= i < |answer| ==> answer[i] in table
    ensures forall i, j :: 0 <= i < j < |answer| ==> !SortsBefore(c, d, answer[j], answer[i])
    ensures
      forall r, i :: r in table && r !in answer && 0 <= i < |answer| ==> !SortsBefore(c, d, r, answer[i])
  {
    hide StrictTotal;
    forall r | r in table
      ensures Matches(c, FirstQuery(d, limit), r)
    {
    }
    forall i, j | 0 <= i < j < |answer|
      ensures !SortsBefore(c, d, answer[j], answer[i])
    {
      KeysetOrder(c, d, answer[j], answer[i]);
    }
    forall r, i | r in table && r !in answer && 0 <= i < |answer|
      ensures !SortsBefore(c, d, r, answer[i])
    {
      KeysetOrder(c, d, r, answer[i]);
    }
  }

  lemma SameMembers(rows: seq<Row>, i: nat, j: nat)
    requires i < j < |rows|
    ensures forall r :: r in rows[i := rows[j]][j := rows[i]] <==> r in rows
  {
    var other := rows[i := rows[j]][j := rows[i]];
    assert other[i] == rows[j] && other[j] == rows[i];
    assert forall k :: 0 <= k < |rows| && k != i && k != j ==> other[k] == rows[k];
  }

  // Two rows of an answer that tie can as well be answered the other way round.
  lemma {:induction false} TiesSwap(c: Collation, d: Direction, limit: nat, table: set<Row>, answer: seq<Row>,
                                    i: nat, j: nat)
    requires FirstPage(c, d, limit, table, answer)
    requires i < j < |answer| && answer[i].sort == answer[j].sort
    ensures FirstPage(c, d, limit, table, answer[i := answer[j]][j := answer[i]])
  {
    hide StrictTotal;
    var other := answer[i := answer[j]][j := answer[i]];
    FirstPageFacts(c, d, limit, table, answer);
    SameMembers(answer, i, j);
    assert forall k :: 0 <= k < |answer| ==> other[k].sort == answer[k].sort;
    forall a, b | 0 <= a < b < |other|
      ensures !Precedes(c, FirstQuery(d, limit).orders, other[b], other[a])
    {
      KeysetOrder(c, d, other[b], other[a]);
      assert !SortsBefore(c, d, answer[b], answer[a]);
    }
    forall r, a | r in table && r !in other && 0 <= a < |other|
      ensures !Precedes(c, FirstQuery(d, limit).orders, r, other[a])
    {
      KeysetOrder(c, d, r, other[a]);
      assert !SortsBefore(c, d, r, answer[a]);
    }
  }

  // Of two rows that tie, the later id belongs after a page end with the earlier one, not the reverse.
  lemma TieGoesWrong(c: Collation, d: Direction, limit: nat, table: set<Row>, answer: seq<Row>, r: Row)
    requires FirstPage(c, d, limit, table, answer) && r in table
    requires r.sort == LastOf(limit, answer).sort && r != LastOf(limit, answer)
    requires Before(c, d, LastOf(limit, answer), r) <==> r in Items(limit, answer)
    ensures !Continues(c, d, limit, table, answer)
  {
    FirstPageFacts(c, d, limit, table, answer);
    MatchesAfter(c, d, limit, LastOf(limit, answer), r);
  }

  lemma {:induction false} TieIsNear(c: Collation, d: Direction, limit: nat, table: set<Row>, answer: seq<Row>, r: Row)
      returns (k: nat)
    requires FirstPage(c, d, limit, table, answer) && r in table
    requires r.sort == LastOf(limit, answer).sort && r != LastOf(limit, answer)
    ensures k <= limit && k != limit - 1 && k < |answer| && answer[k].sort == LastOf(limit, answer).sort
  {
    FirstPageFacts(c, d, limit, table, answer);
    if r in answer {
      k :| 0 <= k < |answer| && answer[k] == r;
    } else {
      k := limit;
      assert !SortsBefore(c, d, r, answer[limit]);
      BeforeStrict(c, d, answer[limit], r, r);
      ComesStrict(c, OrderBy(SortColumn, d), r.sort, answer[limit].sort, r.sort);
    }
  }

  lemma {:induction false} TieIsPossible(c: Collation, d: Direction, limit: nat, table: set<Row>, answer: seq<Row>,
                                         r: Row)
      returns (other: seq<Row>)
    requires FirstPage(c, d, limit, table, answer) && r in table
    requires r.sort == LastOf(limit, answer).sort && r != LastOf(limit, answer)
    ensures FirstPage(c, d, limit, table, other) && !Continues(c, d, limit, table, other)
  {
    FirstPageFacts(c, d, limit, table, answer);
    var k := TieIsNear(c, d, limit, table, answer, r);
    var x, last := answer[k], LastOf(limit, answer);
    var onPage := k < limit - 1;
    assert x in Items(limit, answer) <==> onPage by {
      assert onPage ==> Items(limit, answer)[k] == x;
    }
    BeforeStrict(c, d, last, x, last);
    if Before(c, d, last, x) == onPage {
      TieGoesWrong(c, d, limit, table, answer, x);
      other := answer;
    } else {
      var i, j := if onPage then k else limit - 1, if onPage then limit - 1 else k;
      TiesSwap(c, d, limit, table, answer, i, j);
      other := answer[i := answer[j]][j := answer[i]];
      assert other[limit - 1] == x && other[k] == last;
      assert last in Items(limit, other) <==> onPage by {
        FirstPageFacts(c, d, limit, table, other);
        assert onPage ==> Items(limit, other)[k] == last;
      }
      TieGoesWrong(c, d, limit, table, other, last);
    }
  }

  // A row that is shown on one of two first pages and sorts before the end of the other is shown there too.
  lemma {:induction false} ShownEarly(c: Collation, d: Direction, limit: nat, table: set<Row>,
                                      answer: seq<Row>, other: seq<Row>, r: Row) returns (k: nat)
    requires FirstPage(c, d, limit, table, answer) && FirstPage(c, d, limit, table, other)
    requires SortsBefore(c, d, LastOf(limit, other), LastOf(limit, answer)) && r in other[..limit]
    ensures k < limit - 1 && answer[k] == r
  {
    FirstPageFacts(c, d, limit, table, answer);
    FirstPageFacts(c, d, limit, table, other);
    var last, stop := LastOf(limit, answer), LastOf(limit, other);
    ComesStrict(c, OrderBy(SortColumn, d), r.sort, stop.sort, last.sort);
    ComesStrict(c, OrderBy(SortColumn, d), last.sort, stop.sort, last.sort);
    assert SortsBefore(c, d, r, last);
    k :| 0 <= k < |answer| && answer[k] == r;
  }

  // All first pages of a table end at the same sort value.
  lemma {:induction false} LastNotEarlier(c: Collation, d: Direction, limit: nat, table: set<Row>,
                                          answer: seq<Row>, other: seq<Row>)
    requires FirstPage(c, d, limit, table, answer) && FirstPage(c, d, limit, table, other)
    ensures !SortsBefore(c, d, LastOf(limit, other), LastOf(limit, answer))
  {
    FirstPageFacts(c, d, limit, table, answer);
    FirstPageFacts(c, d, limit, table, other);
    var last, stop := LastOf(limit, answer), LastOf(limit, other);
    if SortsBefore(c, d, stop, last) {
      var shown := other[..limit];
      var early := answer[..limit - 1];
      forall r | r in shown
        ensures r in early
      {
        var k := ShownEarly(c, d, limit, table, answer, other, r);
        assert early[k] == r;
      }
      hide StrictTotal, SortsBefore, FirstPage;
      DistinctCount(early);
      DistinctWithin(shown, set r | r in early);
    }
  }

  lemma UniqueLastContinues(c: Collation, d: Direction, limit: nat, table: set<Row>, answer: seq<Row>)
    requires FirstPage(c, d, limit, table, answer)
    requires forall r :: r in table && r.sort == LastOf(limit, answer).sort ==> r == LastOf(limit, answer)
    ensures Continues(c, d, limit, table, answer)
  {
    var last := LastOf(limit, answer);
    FirstPageFacts(c, d, limit, table, answer);
    LastIsLast(limit, answer);
    forall r | r in table
      ensures Matches(c, NextQuery(d, limit, last), r) <==> r !in Items(limit, answer)
    {
      MatchesAfter(c, d, limit, last, r);
      BeforeStrict(c, d, last, r, last);
      if r !in Items(limit, answer) {
        LeftOutIsLater(c, table, FirstQuery(d, limit), limit, answer, r);
        KeysetOrder(c, d, r, last);
      } else {
        var i :| 0 <= i < |Items(limit, answer)| && Items(limit, answer)[i] == r;
        assert answer[i] == r;
      }
    }
  }

  /**
   The first page sorts without the id. Whatever order the database gives to ties, the second page goes
   on where the first stopped, if and only if no other row has the sort value at which the first stopped.
   */
  lemma {:induction false} FirstPageContinuesIff(c: Collation, d: Direction, limit: nat, table: set<Row>,
                                                 answer: seq<Row>)
    requires FirstPage(c, d, limit, table, answer)
    ensures
      (forall other :: FirstPage(c, d, limit, table, other) ==> Continues(c, d, limit, table, other)) <==>
      (forall r :: r in table && r.sort == LastOf(limit, answer).sort ==> r == LastOf(limit, answer))
  {
    var last := LastOf(limit, answer);
    if r :| r in table && r.sort == last.sort && r != last {
      var other := TieIsPossible(c, d, limit, table, answer, r);
    } else {
      forall other | FirstPage(c, d, limit, table, other)
        ensures Continues(c, d, limit, table, other)
      {
        LastNotEarlier(c, d, limit, table, answer, other);
        LastNotEarlier(c, d, limit, table, other, answer);
        ComesStrict(c, OrderBy(SortColumn, d), last.sort, LastOf(limit, other).sort, last.sort);
        FirstPageFacts(c, d, limit, table, other);
        assert LastOf(limit, other) in table;
        UniqueLastContinues(c, d, limit, table, other);
      }
    }
  }

  /** Rows without a sort value are on no later page, and after such a row the walk finds nothing. */
  lemma NullsNeverFollow(c: Collation, d: Direction, limit: nat, last: Row, r: Row)
    requires last.sort.Null? || r.sort.Null?
    ensures !Matches(c, NextQuery(d, limit, last), r)
  {
    assert !Holds(c, NextQuery(d, limit, last).wheres[0], r);
  }
}
