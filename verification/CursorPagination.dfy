/**
 Keyset pagination: the query builder, the helpers that change it, and `findAllCursor`
 (src/pagination/helpers, src/ai-triggers/ai-triggers.service.ts). The table is a set of rows; what the
 database answers to a query is a parameter, bound only by the query.
 */
module CursorPagination {
  import opened Common
  import opened Json
  import opened CursorCodec

  datatype RowData = RowData(sort: Value, id: Value)

  // A row with the value of its sort column; the values are proper JSON values.
  type Row = r: RowData | PayloadOf(CursorData(r.sort, r.id)).Valid() witness RowData(Null, Null)

  datatype Column = SortColumn | IdColumn

  datatype Direction = Asc | Desc

  datatype OrderBy = OrderBy(column: Column, direction: Direction)

  // `(sort > :s) OR (sort = :s AND id > :i)`, with `<` for descending order.
  datatype Condition = AfterCursor(direction: Direction, cursor: CursorData)

  datatype Query = Query(wheres: seq<Condition>, orders: seq<OrderBy>, take: Option<nat>)

  // How the database compares the values of the two columns.
  datatype Collation = Collation(sortLess: (Value, Value) -> bool, idLess: (Value, Value) -> bool)

  predicate Less(c: Collation, column: Column, a: Value, b: Value) {
    if column.SortColumn? then c.sortLess(a, b) else c.idLess(a, b)
  }

  predicate Comes(c: Collation, o: OrderBy, a: Value, b: Value) {
    if o.direction.Asc? then Less(c, o.column, a, b) else Less(c, o.column, b, a)
  }

  ghost predicate StrictTotal(c: Collation) {
    && (forall col, x: Value :: !Less(c, col, x, x))
    && (forall col, x: Value, y: Value :: x != y ==> Less(c, col, x, y) || Less(c, col, y, x))
    && (forall col, x: Value, y: Value, z: Value :: Less(c, col, x, y) && Less(c, col, y, z) ==> Less(c, col, x, z))
  }

  function ValueIn(r: Row, column: Column): Value {
    if column.SortColumn? then r.sort else r.id
  }

  // `a` must come before `b` in the given order.
  predicate Precedes(c: Collation, orders: seq<OrderBy>, a: Row, b: Row) {
    if orders == [] then false
    else
      var x, y := ValueIn(a, orders[0].column), ValueIn(b, orders[0].column);
      Comes(c, orders[0], x, y) || (x == y && Precedes(c, orders[1..], a, b))
  }

  // A comparison with null is never true.
  predicate Holds(c: Collation, w: Condition, r: Row) {
    var k := w.cursor;
    && !r.sort.Null? && !k.sortValue.Null?
    && (|| Comes(c, OrderBy(SortColumn, w.direction), k.sortValue, r.sort)
        || (&& r.sort == k.sortValue && !r.id.Null? && !k.id.Null?
            && Comes(c, OrderBy(IdColumn, w.direction), k.id, r.id)))
  }

  predicate Matches(c: Collation, q: Query, r: Row) {
    forall i :: 0 <= i < |q.wheres| ==> Holds(c, q.wheres[i], r)
  }

  ghost function Matching(c: Collation, table: set<Row>, q: Query): set<Row> {
    set r | r in table && Matches(c, q, r)
  }

  predicate Distinct(rs: seq<Row>) {
    forall i, j :: 0 <= i < j < |rs| ==> rs[i] != rs[j]
  }

  predicate InOrder(c: Collation, orders: seq<OrderBy>, rs: seq<Row>) {
    forall i, j :: 0 <= i < j < |rs| ==> !Precedes(c, orders, rs[j], rs[i])
  }

  // No row left out had to come before a row of the answer.
  ghost predicate Foremost(c: Collation, table: set<Row>, q: Query, rs: seq<Row>) {
    forall r, i :: r in table && Matches(c, q, r) && r !in rs && 0 <= i < |rs| ==> !Precedes(c, q.orders, r, rs[i])
  }

  // The rows a database may answer: the first matching ones, rows that tie in any order.
  ghost predicate Answers(c: Collation, table: set<Row>, q: Query, rs: seq<Row>) {
    && (forall i :: 0 <= i < |rs| ==> rs[i] in Matching(c, table, q))
    && Distinct(rs)
    && InOrder(c, q.orders, rs)
    && Foremost(c, table, q, rs)
    && |rs| == if q.take.Some? then Min(q.take.value, |Matching(c, table, q)|) else |Matching(c, table, q)|
  }

  /* ---------- The query builder ---------- */

  class QueryBuilder {
    var wheres: seq<Condition>
    var orders: seq<OrderBy>
    var limit: Option<nat>

    constructor ()
      ensures Built() == Query([], [], None)
    {
      wheres, orders, limit := [], [], None;
    }

    function Built(): Query
      reads this
    {
      Query(wheres, orders, limit)
    }

    method AndWhere(w: Condition)
      modifies this
      ensures Built() == old(Built()).(wheres := old(wheres) + [w])
    {
      wheres := wheres + [w];
    }

    /** `orderBy` drops the order set before, `addOrderBy` keeps it. */
    method SetOrder(o: OrderBy)
      modifies this
      ensures Built() == old(Built()).(orders := [o])
    {
      orders := [o];
    }

    method AddOrder(o: OrderBy)
      modifies this
      ensures Built() == old(Built()).(orders := old(orders) + [o])
    {
      orders := orders + [o];
    }

    method Take(n: nat)
      modifies this
      ensures Built() == old(Built()).(take := Some(n))
    {
      limit := Some(n);
    }

    /** The database's answer to the query built so far. */
    method GetMany(c: Collation, table: set<Row>, answer: seq<Row>) returns (results: seq<Row>)
      requires Answers(c, table, Built(), answer)
      ensures results == answer
    {
      results := answer;
    }
  }

  method ApplySorting(qb: QueryBuilder, direction: Direction)
    modifies qb
    ensures qb.Built() == old(qb.Built()).(orders := [OrderBy(SortColumn, direction)])
  {
    qb.SetOrder(OrderBy(SortColumn, direction));
  }

  // What the helper makes of a builder when the cursor can be read.
  function WithCursor(q: Query, direction: Direction, limit: nat, cursor: CursorData): Query {
    Query(
      q.wheres + [AfterCursor(direction, cursor)],
      [OrderBy(SortColumn, direction), OrderBy(IdColumn, direction)],
      Some(limit + 1))
  }

  method ApplyCursorPagination(qb: QueryBuilder, cursor: Text, direction: Direction, limit: nat)
    returns (r: Decoded)
    modifies qb
    ensures r == DecodeCursor(cursor)
    ensures r.Err? ==> qb.Built() == old(qb.Built())
    ensures r.Ok? ==> qb.Built() == WithCursor(old(qb.Built()), direction, limit, r.data)
  {
    r := DecodeCursor(cursor);
    if r.Err? {
      return;
    }
    qb.AndWhere(AfterCursor(direction, r.data));
    qb.SetOrder(OrderBy(SortColumn, direction));
    qb.AddOrder(OrderBy(IdColumn, direction));
    qb.Take(limit + 1);
  }

  datatype Page = Page(items: seq<Row>, hasMore: bool)

  // One row more than the page tells that there are more.
  function PageOf(limit: nat, results: seq<Row>): Page {
    if |results| > limit then Page(results[..|results| - 1], true) else Page(results, false)
  }

  method ExecuteCursorQuery(qb: QueryBuilder, cursor: Text, direction: Direction, limit: nat,
                            c: Collation, table: set<Row>, answer: seq<Row>)
    returns (r: Decoded, page: Page)
    requires
      DecodeCursor(cursor).Ok? ==>
        Answers(c, table, WithCursor(qb.Built(), direction, limit, DecodeCursor(cursor).data), answer)
    modifies qb
    ensures r == DecodeCursor(cursor)
    ensures r.Ok? ==> page == PageOf(limit, answer)
  {
    page := Page([], false);
    r := ApplyCursorPagination(qb, cursor, direction, limit);
    if r.Err? {
      return;
    }
    var results := qb.GetMany(c, table, answer);
    var hasMore := |results| > limit;
    if hasMore {
      results := results[..|results| - 1];
    }
    page := Page(results, hasMore);
  }

  /* ---------- findAllCursor ---------- */

  datatype Request = Request(cursor: Option<Text>, direction: Direction, limit: nat)
  {
    // An absent or empty cursor asks for the first page.
    predicate First() {
      cursor.None? || cursor.value == []
    }
  }

  datatype Response = Found(items: seq<Row>, nextCursor: Option<Text>, hasNext: bool) | BadRequest(error: CursorError)

  function CursorOf(r: Row): CursorData {
    CursorData(r.sort, r.id)
  }

  // The query of a request, if its cursor can be read.
  function QueryOf(request: Request): Option<Query> {
    if request.First() then Some(Query([], [OrderBy(SortColumn, request.direction)], Some(request.limit + 1)))
    else match DecodeCursor(request.cursor.value)
      case Ok(d) => Some(WithCursor(Query([], [], None), request.direction, request.limit, d))
      case Err(_) => None
  }

  function NextCursor(page: Page): Option<Text> {
    if page.hasMore && page.items != [] then Some(EncodeCursor(CursorOf(page.items[|page.items| - 1]))) else None
  }

  function ResponseOf(request: Request, answer: seq<Row>): Response {
    var page := PageOf(request.limit, answer);
    if QueryOf(request).None? then BadRequest(DecodeCursor(request.cursor.value).error)
    else Found(page.items, NextCursor(page), page.hasMore)
  }

  method FindAllCursor(request: Request, c: Collation, table: set<Row>, answer: seq<Row>)
    returns (response: Response)
    requires QueryOf(request).Some? ==> Answers(c, table, QueryOf(request).value, answer)
    ensures response == ResponseOf(request, answer)
  {
    hide Answers, DecodeCursor, NextCursor;
    var qb := new QueryBuilder();
    if request.cursor.Some? && request.cursor.value != [] {
      var r := ApplyCursorPagination(qb, request.cursor.value, request.direction, request.limit);
      if r.Err? {
        return BadRequest(r.error);
      }
    } else {
      ApplySorting(qb, request.direction);
      qb.Take(request.limit + 1);
    }
    var results := qb.GetMany(c, table, answer);
    var hasMore := |results| > request.limit;
    if hasMore {
      results := results[..|results| - 1];
    }
    var page := Page(results, hasMore);
    response := Found(results, NextCursor(page), hasMore);
  }
}
