/** What a walk over a fixed table shows when sort values may be null (src/pagination/helpers). */
module PaginationNulls {
  import opened Common
  import opened CursorPagination
  import opened PaginationTheorems

  predicate NoNullIds(table: set<Row>) {
    forall r :: r in table ==> !r.id.Null?
  }

  // If the first page is not the last and stops at a row with a sort value, no other row has this value.
  predicate TieFree(limit: nat, table: set<Row>, first: seq<Row>)
    requires limit >= 1
  {
    HasMore(limit, first) && !LastOf(limit, first).sort.Null? ==>
      forall r :: r in table && r.sort == LastOf(limit, first).sort ==> r == LastOf(limit, first)
  }

  ghost predicate FixedWalk(c: Collation, d: Direction, limit: nat, visits: seq<Visit>, table: set<Row>) {
    && StrictTotal(c) && limit >= 1 && visits != [] && IsWalk(c, d, limit, visits) && Fixed(table, visits)
    && NoNullIds(table) && TieFree(limit, table, visits[0].answer)
  }

  // What a walk that starts with this answer comes to: the rows of the first page, and the rows with a sort
  // value if the page stops at one.
  predicate Reachable(limit: nat, table: set<Row>, first: seq<Row>, r: Row)
    requires limit >= 1
  {
    && r in table
    && (|| !HasMore(limit, first) || r in Items(limit, first)
        || (!LastOf(limit, first).sort.Null? && !r.sort.Null?))
  }

  // The row is still to come after a page with this answer.
  predicate StillToCome(c: Collation, d: Direction, limit: nat, answer: seq<Row>, r: Row)
    requires limit >= 1
  {
    && HasMore(limit, answer) && !LastOf(limit, answer).sort.Null? && !r.sort.Null?
    && Before(c, d, LastOf(limit, answer), r)
  }

  /* ---------- The first page ---------- */

  lemma {:induction false} FirstPageExact(c: Collation, d: Direction, limit: nat, table: set<Row>, first: seq<Row>)
    requires StrictTotal(c) && limit >= 1 && NoNullIds(table) && TieFree(limit, table, first)
    requires Answers(c, table, FirstQuery(d, limit), first)
    ensures Distinct(Items(limit, first))
    ensures forall r :: r in Items(limit, first) <==>
      Reachable(limit, table, first, r) && !StillToCome(c, d, limit, first, r)
  {
    forall r
      ensures r in Items(limit, first) <==>
        Reachable(limit, table, first, r) && !StillToCome(c, d, limit, first, r)
    {
      FirstPageRow(c, d, limit, table, first, r);
    }
  }

  lemma {:induction false} FirstPageRow(c: Collation, d: Direction, limit: nat, table: set<Row>, first: seq<Row>,
                                        r: Row)
    requires StrictTotal(c) && limit >= 1 && TieFree(limit, table, first)
    requires Answers(c, table, FirstQuery(d, limit), first)
    ensures r in Items(limit, first) <==>
      Reachable(limit, table, first, r) && !StillToCome(c, d, limit, first, r)
  {
    var rs := Items(limit, first);
    if r in rs {
      var i :| 0 <= i < |rs| && rs[i] == r;
      assert first[i] == r && r in table;
      if HasMore(limit, first) {
        var last := LastOf(limit, first);
        KeysetOrder(c, d, last, r);
        BeforeStrict(c, d, last, r, last);
        assert i < |first| - 2 ==> !SortsBefore(c, d, last, r);
      }
    } else if r in table {
      assert Matches(c, FirstQuery(d, limit), r);
      if !HasMore(limit, first) {
        LastPageShowsAll(c, table, FirstQuery(d, limit), limit, first, r);
      } else {
        var last := LastOf(limit, first);
        LeftOutIsLater(c, table, FirstQuery(d, limit), limit, first, r);
        KeysetOrder(c, d, r, last);
        BeforeStrict(c, d, r, last, r);
      }
    }
  }

  /* ---------- A later page ---------- */

  function WithValue(table: set<Row>): set<Row> {
    set r | r in table && !r.sort.Null?
  }

  // A row without a sort value matches no later page, so it need not be in the table.
  lemma {:induction false} ValuesAnswer(c: Collation, d: Direction, limit: nat, table: set<Row>, last: Row,
                                        answer: seq<Row>)
    requires Answers(c, table, NextQuery(d, limit, last), answer)
    ensures Answers(c, WithValue(table), NextQuery(d, limit, last), answer)
  {
    var q := NextQuery(d, limit, last);
    forall r | r in table && Matches(c, q, r)
      ensures !r.sort.Null?
    {
      if r.sort.Null? {
        NullsNeverFollow(c, d, limit, last, r);
      }
    }
    assert Matching(c, WithValue(table), q) == Matching(c, table, q);
  }

  // After a row without a sort value nothing follows.
  lemma {:induction false} NothingAnswers(c: Collation, d: Direction, limit: nat, table: set<Row>, last: Row,
                                          answer: seq<Row>)
    requires Answers(c, table, NextQuery(d, limit, last), answer) && last.sort.Null?
    ensures answer == []
  {
    var q := NextQuery(d, limit, last);
    forall r | r in table
      ensures !Matches(c, q, r)
    {
      NullsNeverFollow(c, d, limit, last, r);
    }
    assert Matching(c, table, q) == {};
  }

  // A later page shows exactly the next rows with a sort value.
  lemma {:induction false} NextPageExact(c: Collation, d: Direction, limit: nat, table: set<Row>, last: Row,
                                         answer: seq<Row>)
    requires StrictTotal(c) && limit >= 1 && NoNullIds(table) && !last.sort.Null? && !last.id.Null?
    requires Answers(c, table, NextQuery(d, limit, last), answer)
    ensures Distinct(Items(limit, answer))
    ensures HasMore(limit, answer) ==> var next := LastOf(limit, answer);
      next in table && !next.sort.Null? && Before(c, d, last, next)
    ensures forall r :: r in Items(limit, answer) <==>
      r in table && !r.sort.Null? && Before(c, d, last, r) && !StillToCome(c, d, limit, answer, r)
  {
    var v := Visit(WithValue(table), answer);
    var rs := Items(limit, answer);
    ValuesAnswer(c, d, limit, table, last, answer);
    NextPageSorted(c, d, limit, v, last);
    if HasMore(limit, answer) {
      LastIsLast(limit, answer);
    }
    assert forall i :: 0 <= i < |rs| ==> rs[i] == answer[i];
    hide StrictTotal;
    forall r
      ensures r in rs <==>
        r in table && !r.sort.Null? && Before(c, d, last, r) && !StillToCome(c, d, limit, answer, r)
    {
      if r in rs {
        var i :| 0 <= i < |rs| && rs[i] == r;
        if HasMore(limit, answer) {
          BeforeStrict(c, d, r, LastOf(limit, answer), r);
        }
      } else if r in v.table && Before(c, d, last, r) {
        NextPageCovers(c, d, limit, v, last, r);
        if HasMore(limit, answer) {
          assert rs[|rs| - 1] == LastOf(limit, answer);
        }
      }
    }
  }

  /* ---------- The walk ---------- */

  // What has been shown after each page of a walk.
  ghost predicate ShownSoFar(c: Collation, d: Direction, limit: nat, visits: seq<Visit>, table: set<Row>)
    requires limit >= 1 && visits != []
  {
    var rs, first, answer := Shown(limit, visits), visits[0].answer, visits[|visits| - 1].answer;
    && Distinct(rs)
    && (forall r :: r in rs <==> Reachable(limit, table, first, r) && !StillToCome(c, d, limit, answer, r))
    && (HasMore(limit, answer) ==> LastOf(limit, answer) in table)
    && (HasMore(limit, answer) && !LastOf(limit, answer).sort.Null? ==>
          HasMore(limit, first) && !LastOf(limit, first).sort.Null?)
  }

  lemma {:induction false} ShownNext(c: Collation, d: Direction, limit: nat, visits: seq<Visit>, table: set<Row>)
    requires StrictTotal(c) && limit >= 1 && |visits| >= 2 && NoNullIds(table)
    requires ShownSoFar(c, d, limit, visits[..|visits| - 1], table)
    requires HasMore(limit, visits[|visits| - 2].answer)
    requires Answers(c, table, NextQuery(d, limit, LastOf(limit, visits[|visits| - 2].answer)),
                     visits[|visits| - 1].answer)
    ensures ShownSoFar(c, d, limit, visits, table)
  {
    var n := |visits| - 1;
    var pre, answer := visits[..n], visits[n].answer;
    var first, before := visits[0].answer, visits[n - 1].answer;
    var last := LastOf(limit, before);
    var rs, more := Shown(limit, pre), Items(limit, answer);
    assert pre[0] == visits[0] && pre[n - 1] == visits[n - 1];
    assert Shown(limit, visits) == rs + more;
    if last.sort.Null? {
      NothingAnswers(c, d, limit, table, last, answer);
      assert rs + more == rs;
    } else {
      NextPageExact(c, d, limit, table, last, answer);
      hide StrictTotal, Answers, Shown, Items, NextQuery;
      forall r
        ensures r in rs + more <==> Reachable(limit, table, first, r) && !StillToCome(c, d, limit, answer, r)
      {
        NextPageRow(c, d, limit, table, first, last, answer, r);
      }
    }
  }

  // One row, before and after a further page.
  lemma {:induction false} NextPageRow(c: Collation, d: Direction, limit: nat, table: set<Row>, first: seq<Row>,
                                       last: Row, answer: seq<Row>, r: Row)
    requires StrictTotal(c) && limit >= 1 && !last.sort.Null?
    requires HasMore(limit, first) && !LastOf(limit, first).sort.Null?
    requires HasMore(limit, answer) ==> Before(c, d, last, LastOf(limit, answer))
    ensures
      Reachable(limit, table, first, r) && !StillToCome(c, d, limit, answer, r) <==>
        || (Reachable(limit, table, first, r) && !(!r.sort.Null? && Before(c, d, last, r)))
        || (r in table && !r.sort.Null? && Before(c, d, last, r) && !StillToCome(c, d, limit, answer, r))
  {
    if HasMore(limit, answer) {
      BeforeStrict(c, d, last, LastOf(limit, answer), r);
    }
  }

  lemma {:induction false} WalkShows(c: Collation, d: Direction, limit: nat, visits: seq<Visit>, table: set<Row>)
    requires FixedWalk(c, d, limit, visits, table)
    ensures ShownSoFar(c, d, limit, visits, table)
  {
    var n := |visits| - 1;
    if n == 0 {
      assert visits[..0] == [] && QueryAfter(d, limit, []) == Some(FirstQuery(d, limit));
      FirstPageExact(c, d, limit, table, visits[0].answer);
      assert visits[0].table == table;
      assert Shown(limit, visits) == [] + Items(limit, visits[0].answer);
    } else {
      var pre := visits[..n];
      assert pre[0] == visits[0] && pre[n - 1] == visits[n - 1];
      assert Fixed(table, pre);
      hide StrictTotal, Answers, TieFree;
      WalkShows(c, d, limit, pre, table);
      QueryAfterPage(d, limit, pre);
      assert visits[n].table == table;
      ShownNext(c, d, limit, visits, table);
    }
  }

  /**
   What an ended walk over a fixed table shows, sort values being null or not: everything if the first page
   is the last; else the first page and, if it stops at a row with a sort value, all rows with a sort value.
   No row is shown twice.
   */
  lemma {:induction false} FixedTableShownExactly(c: Collation, d: Direction, limit: nat, visits: seq<Visit>,
                                                  table: set<Row>)
    requires FixedWalk(c, d, limit, visits, table) && Ended(limit, visits)
    ensures Distinct(Shown(limit, visits))
    ensures forall r :: r in Shown(limit, visits) <==> Reachable(limit, table, visits[0].answer, r)
  {
    WalkShows(c, d, limit, visits, table);
    hide StrictTotal, Answers, IsWalk, Shown, Reachable;
  }
}
