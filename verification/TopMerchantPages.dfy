/**
 * Keyset pages of top merchants (src/admin/admin.service.ts:853-966). A row is
 * one merchant group of the query; volumes are exact, in millionths.
 */
module TopMerchantPages {
  import opened Wrappers

  datatype Row = Row(merchantId: int, totalVolume: int)

  datatype Cursor = Cursor(id: int, volume: int)

  datatype Page = Page(data: seq<Row>, nextCursor: Option<Cursor>)

  /** ORDER BY volume DESC, merchantId ASC. */
  predicate Before(a: Row, b: Row) {
    a.totalVolume > b.totalVolume || (a.totalVolume == b.totalVolume && a.merchantId < b.merchantId)
  }

  function Insert(rows: seq<Row>, row: Row): seq<Row> {
    if rows == [] || Before(row, rows[0]) then [row] + rows else [rows[0]] + Insert(rows[1..], row)
  }

  function OrderBy(rows: seq<Row>): seq<Row> {
    if rows == [] then [] else Insert(OrderBy(rows[..|rows| - 1]), rows[|rows| - 1])
  }

  /** The HAVING clause of a request with a cursor. */
  predicate Passes(row: Row, cursor: Option<Cursor>) {
    cursor.Some? ==>
      row.totalVolume < cursor.value.volume
      || (row.totalVolume == cursor.value.volume && row.merchantId > cursor.value.id)
  }

  function Having(rows: seq<Row>, cursor: Option<Cursor>): seq<Row> {
    if rows == [] then []
    else
      Having(rows[..|rows| - 1], cursor)
        + if Passes(rows[|rows| - 1], cursor) then [rows[|rows| - 1]] else []
  }

  function Take(rows: seq<Row>, n: nat): seq<Row> {
    if |rows| > n then rows[..n] else rows
  }

  /** One request: `limit + 1` rows are fetched and the last one only tells that there are more. */
  function FetchTopMerchants(table: seq<Row>, limit: nat, cursor: Option<Cursor>): Page {
    var rows := Take(OrderBy(Having(table, cursor)), limit + 1);
    var hasMore := |rows| > limit;
    var pageRows := if hasMore then rows[..limit] else rows;
    Page(pageRows,
         if hasMore && pageRows != []
         then Some(Cursor(pageRows[|pageRows| - 1].merchantId, pageRows[|pageRows| - 1].totalVolume))
         else None)
  }

  predicate Distinct(table: seq<Row>) {
    forall i, j | 0 <= i < j < |table| :: table[i].merchantId != table[j].merchantId
  }

  predicate Ordered(rows: seq<Row>) {
    forall i, j | 0 <= i < j < |rows| :: Before(rows[i], rows[j])
  }

  lemma {:induction false} InsertAdds(rows: seq<Row>, row: Row)
    ensures multiset(Insert(rows, row)) == multiset(rows) + multiset{row}
    ensures |Insert(rows, row)| == |rows| + 1
    ensures forall i | 0 <= i < |Insert(rows, row)| :: Insert(rows, row)[i] == row || Insert(rows, row)[i] in rows
  {
    if rows != [] && !Before(row, rows[0]) {
      InsertAdds(rows[1..], row);
      assert rows == [rows[0]] + rows[1..];
    }
  }

  lemma Prepend(row: Row, rows: seq<Row>)
    requires Ordered(rows) && forall j | 0 <= j < |rows| :: Before(row, rows[j])
    ensures Ordered([row] + rows)
  {
  }

  lemma {:induction false} InsertOrders(rows: seq<Row>, row: Row)
    requires Ordered(rows) && forall i | 0 <= i < |rows| :: rows[i].merchantId != row.merchantId
    ensures Ordered(Insert(rows, row))
  {
    if rows == [] {
      assert Insert(rows, row) == [row];
    } else if Before(row, rows[0]) {
      assert forall j | 0 < j < |rows| :: Before(rows[0], rows[j]);
      Prepend(row, rows);
    } else {
      InsertOrders(rows[1..], row);
      InsertAdds(rows[1..], row);
      assert forall j | 0 <= j < |rows[1..]| :: rows[1..][j] == rows[j + 1];
      Prepend(rows[0], Insert(rows[1..], row));
    }
  }

  /** The whole table in order: each group once. */
  lemma {:induction false} OrderByOrders(table: seq<Row>)
    requires Distinct(table)
    ensures Ordered(OrderBy(table)) && multiset(OrderBy(table)) == multiset(table)
    ensures |OrderBy(table)| == |table|
  {
    if table != [] {
      var front, last := table[..|table| - 1], table[|table| - 1];
      OrderByOrders(front);
      assert table == front + [last];
      forall i | 0 <= i < |front| ensures OrderBy(front)[i].merchantId != last.merchantId {
        assert OrderBy(front)[i] in multiset(front);
      }
      InsertOrders(OrderBy(front), last);
      InsertAdds(OrderBy(front), last);
    }
  }

  lemma HavingAppend(rows: seq<Row>, row: Row, cursor: Option<Cursor>)
    ensures Having(rows + [row], cursor) == Having(rows, cursor) + if Passes(row, cursor) then [row] else []
  {
    assert (rows + [row])[..|rows|] == rows;
  }

  lemma {:induction false} HavingConcat(a: seq<Row>, b: seq<Row>, cursor: Option<Cursor>)
    ensures Having(a + b, cursor) == Having(a, cursor) + Having(b, cursor)
  {
    if b == [] {
      assert a + b == a;
    } else {
      var front, last := b[..|b| - 1], b[|b| - 1];
      HavingConcat(a, front, cursor);
      HavingAppend(front, last, cursor);
      HavingAppend(a + front, last, cursor);
      hide Having, Passes;
      assert a + b == (a + front) + [last] && b == front + [last];
    }
  }

  lemma InsertBehind(head: Row, rows: seq<Row>, row: Row)
    requires !Before(row, head)
    ensures Insert([head] + rows, row) == [head] + Insert(rows, row)
  {
    assert ([head] + rows)[1..] == rows;
  }

  lemma NothingBefore(rows: seq<Row>)
    ensures [] + rows == rows
  {
  }

  lemma {:induction false} HavingInsert(rows: seq<Row>, row: Row, cursor: Option<Cursor>)
    requires Ordered(rows)
    ensures Having(Insert(rows, row), cursor)
      == if Passes(row, cursor) then Insert(Having(rows, cursor), row) else Having(rows, cursor)
  {
    if rows == [] || Before(row, rows[0]) {
      assert Insert(rows, row) == [row] + rows;
      HavingConcat([row], rows, cursor);
      FrontFirst(rows, row, cursor);
      hide Having, Insert, Passes, Before;
    } else {
      var head, tail := rows[0], rows[1..];
      HavingInsert(tail, row, cursor);
      assert rows == [head] + tail;
      InsertBehind(head, tail, row);
      HavingConcat([head], tail, cursor);
      HavingConcat([head], Insert(tail, row), cursor);
      OneHaving(head, cursor);
      InsertBehind(head, Having(tail, cursor), row);
      assert Having(Insert(rows, row), cursor) == Having([head], cursor) + Having(Insert(tail, row), cursor);
      assert Having(rows, cursor) == Having([head], cursor) + Having(tail, cursor);
      hide Having, Insert, Passes, Before;
      if !Passes(head, cursor) {
        NothingBefore(Having(tail, cursor));
        NothingBefore(Having(Insert(tail, row), cursor));
      }
    }
  }

  lemma OneHaving(row: Row, cursor: Option<Cursor>)
    ensures Having([row], cursor) == if Passes(row, cursor) then [row] else []
  {
    assert [row][..0] == [];
  }

  /** A row before all others stays before what the clause lets through. */
  lemma {:induction false} FrontFirst(rows: seq<Row>, row: Row, cursor: Option<Cursor>)
    requires Ordered(rows) && (rows == [] || Before(row, rows[0]))
    ensures Insert(Having(rows, cursor), row) == [row] + Having(rows, cursor)
    ensures Having([row], cursor) == if Passes(row, cursor) then [row] else []
  {
    OneHaving(row, cursor);
    HavingIsPart(rows, cursor);
  }

  lemma {:induction false} HavingIsPart(rows: seq<Row>, cursor: Option<Cursor>)
    ensures forall i | 0 <= i < |Having(rows, cursor)| :: Having(rows, cursor)[i] in rows
  {
    if rows != [] {
      HavingIsPart(rows[..|rows| - 1], cursor);
    }
  }

  lemma OrderByAppend(rows: seq<Row>, row: Row)
    ensures OrderBy(rows + [row]) == Insert(OrderBy(rows), row)
  {
    assert (rows + [row])[..|rows|] == rows;
  }

  lemma OrderStep(front: seq<Row>, last: Row, cursor: Option<Cursor>)
    requires Ordered(OrderBy(front)) && OrderBy(Having(front, cursor)) == Having(OrderBy(front), cursor)
    ensures OrderBy(Having(front + [last], cursor)) == Having(OrderBy(front + [last]), cursor)
  {
    hide Having, OrderBy, Insert, Passes, Ordered;
    HavingInsert(OrderBy(front), last, cursor);
    OrderByAppend(front, last);
    HavingAppend(front, last, cursor);
    if Passes(last, cursor) {
      OrderByAppend(Having(front, cursor), last);
    } else {
      assert Having(front, cursor) + [] == Having(front, cursor);
    }
  }

  /** Filtering and ordering can be exchanged. */
  lemma {:induction false} OrderOfHaving(table: seq<Row>, cursor: Option<Cursor>)
    requires Distinct(table)
    ensures OrderBy(Having(table, cursor)) == Having(OrderBy(table), cursor)
  {
    if table != [] {
      var front, last := table[..|table| - 1], table[|table| - 1];
      OrderOfHaving(front, cursor);
      OrderByOrders(front);
      hide Having, OrderBy, Ordered;
      OrderStep(front, last, cursor);
      assert table == front + [last];
    }
  }

  function CursorOf(row: Row): Cursor {
    Cursor(row.merchantId, row.totalVolume)
  }

  lemma {:induction false} NonePass(rows: seq<Row>, cursor: Option<Cursor>)
    requires forall i | 0 <= i < |rows| :: !Passes(rows[i], cursor)
    ensures Having(rows, cursor) == []
  {
    if rows != [] {
      NonePass(rows[..|rows| - 1], cursor);
    }
  }

  lemma {:induction false} AllPass(rows: seq<Row>, cursor: Option<Cursor>)
    requires forall i | 0 <= i < |rows| :: Passes(rows[i], cursor)
    ensures Having(rows, cursor) == rows
  {
    if rows != [] {
      AllPass(rows[..|rows| - 1], cursor);
      assert rows == rows[..|rows| - 1] + [rows[|rows| - 1]];
    }
  }

  lemma RestOfOrdered(rows: seq<Row>, i: nat)
    requires Ordered(rows) && i < |rows|
    ensures Having(rows, Some(CursorOf(rows[i]))) == rows[i + 1..]
  {
    hide Having;
    var cursor := Some(CursorOf(rows[i]));
    forall j | 0 <= j < |rows| ensures Passes(rows[j], cursor) <==> j > i {
      assert j < i ==> Before(rows[j], rows[i]);
      assert j > i ==> Before(rows[i], rows[j]);
    }
    assert rows == rows[..i + 1] + rows[i + 1..];
    HavingConcat(rows[..i + 1], rows[i + 1..], cursor);
    hide Passes;
    NonePass(rows[..i + 1], cursor);
    AllPass(rows[i + 1..], cursor);
  }

  /** The rows after a cursor are the rest of the ordered table. */
  lemma RestOfTable(table: seq<Row>, i: nat)
    requires Distinct(table) && i < |OrderBy(table)|
    ensures OrderBy(Having(table, Some(CursorOf(OrderBy(table)[i])))) == OrderBy(table)[i + 1..]
  {
    hide Having, OrderBy, Passes, Ordered;
    OrderByOrders(table);
    OrderOfHaving(table, Some(CursorOf(OrderBy(table)[i])));
    RestOfOrdered(OrderBy(table), i);
  }

  lemma {:induction false} WholeTable(table: seq<Row>)
    ensures Having(table, None) == table
  {
    AllPass(table, None);
  }

  /** The groups a cursor has still to give. */
  function Remaining(table: seq<Row>, cursor: Option<Cursor>): nat {
    |OrderBy(Having(table, cursor))|
  }

  /** A cursor of this table: none yet, or one a request has returned. */
  predicate FromTable(table: seq<Row>, cursor: Option<Cursor>) {
    cursor.Some? ==> exists i | 0 <= i < |OrderBy(table)| :: CursorOf(OrderBy(table)[i]) == cursor.value
  }

  /** Where a cursor stands in the ordered table. */
  lemma Position(table: seq<Row>, cursor: Option<Cursor>) returns (from: nat)
    requires Distinct(table) && FromTable(table, cursor)
    ensures from <= |OrderBy(table)| && OrderBy(Having(table, cursor)) == OrderBy(table)[from..]
    ensures cursor == None ==> from == 0
  {
    if cursor.None? {
      WholeTable(table);
      from := 0;
    } else {
      var i :| 0 <= i < |OrderBy(table)| && CursorOf(OrderBy(table)[i]) == cursor.value;
      RestOfTable(table, i);
      from := i + 1;
    }
  }

  lemma FirstRows(rows: seq<Row>, from: nat, limit: nat)
    requires from + limit < |rows|
    ensures Take(rows[from..], limit + 1)[..limit] == rows[from..from + limit]
  {
  }

  lemma NextPage(table: seq<Row>, limit: nat, cursor: Option<Cursor>, from: nat)
    requires Distinct(table) && limit >= 1
    requires from <= |OrderBy(table)| && OrderBy(Having(table, cursor)) == OrderBy(table)[from..]
    ensures var page, rows := FetchTopMerchants(table, limit, cursor), OrderBy(table);
      if from + limit < |rows| then
        && page == Page(rows[from..from + limit], Some(CursorOf(rows[from + limit - 1])))
        && FromTable(table, page.nextCursor)
        && OrderBy(Having(table, page.nextCursor)) == rows[from + limit..]
      else page == Page(rows[from..], None)
  {
    var rows := OrderBy(table);
    hide OrderBy, Having, Passes;
    if from + limit < |rows| {
      FirstRows(rows, from, limit);
      RestOfTable(table, from + limit - 1);
    }
  }

  lemma FewerRemain(table: seq<Row>, limit: nat, cursor: Option<Cursor>)
    requires Distinct(table) && limit >= 1 && FromTable(table, cursor)
    requires FetchTopMerchants(table, limit, cursor).nextCursor.Some?
    ensures FromTable(table, FetchTopMerchants(table, limit, cursor).nextCursor)
    ensures Remaining(table, FetchTopMerchants(table, limit, cursor).nextCursor) == Remaining(table, cursor) - limit
  {
    var from := Position(table, cursor);
    hide FetchTopMerchants, FromTable;
    NextPage(table, limit, cursor, from);
  }

  /** All the pages a client gets that follows `nextCursor` until there is none. */
  function Follow(table: seq<Row>, limit: nat, cursor: Option<Cursor>): seq<seq<Row>>
    requires Distinct(table) && limit >= 1 && FromTable(table, cursor)
    decreases Remaining(table, cursor)
  {
    var page := FetchTopMerchants(table, limit, cursor);
    if page.nextCursor.None? then [page.data]
    else
      FewerRemain(table, limit, cursor);
      [page.data] + Follow(table, limit, page.nextCursor)
  }

  function Concat(pages: seq<seq<Row>>): seq<Row> {
    if pages == [] then [] else pages[0] + Concat(pages[1..])
  }

  lemma FollowStep(table: seq<Row>, limit: nat, cursor: Option<Cursor>)
    requires Distinct(table) && limit >= 1 && FromTable(table, cursor)
    ensures var page := FetchTopMerchants(table, limit, cursor);
      && (page.nextCursor.Some? ==> FromTable(table, page.nextCursor))
      && Follow(table, limit, cursor)
           == [page.data] + if page.nextCursor.None? then [] else Follow(table, limit, page.nextCursor)
  {
    hide FetchTopMerchants, FromTable, Distinct, Remaining;
    var page := FetchTopMerchants(table, limit, cursor);
    if page.nextCursor.Some? {
      FewerRemain(table, limit, cursor);
    } else {
      assert [page.data] + [] == [page.data];
    }
  }

  lemma ConcatCons(page: seq<Row>, pages: seq<seq<Row>>)
    ensures Concat([page] + pages) == page + Concat(pages)
  {
    assert ([page] + pages)[1..] == pages;
  }

  /** Pages of `limit` rows, except that the last may be shorter. */
  predicate FullPages(pages: seq<seq<Row>>, limit: nat) {
    forall k | 0 <= k < |pages| :: |pages[k]| <= limit && (k < |pages| - 1 ==> |pages[k]| == limit)
  }

  lemma FullCons(page: seq<Row>, pages: seq<seq<Row>>, limit: nat)
    requires FullPages(pages, limit)
    requires |page| <= limit && (pages != [] ==> |page| == limit)
    ensures FullPages([page] + pages, limit)
  {
  }

  lemma FollowMore(rows: seq<Row>, from: nat, limit: nat, pages: seq<seq<Row>>)
    requires from + limit < |rows| && Concat(pages) == rows[from + limit..] && FullPages(pages, limit)
    ensures Concat([rows[from..from + limit]] + pages) == rows[from..]
    ensures FullPages([rows[from..from + limit]] + pages, limit)
  {
    ConcatCons(rows[from..from + limit], pages);
    FullCons(rows[from..from + limit], pages, limit);
    hide Concat, FullPages;
    assert rows[from..] == rows[from..from + limit] + rows[from + limit..];
  }

  lemma FollowLast(page: seq<Row>, limit: nat)
    requires |page| <= limit
    ensures Concat([page] + []) == page && FullPages([page] + [], limit)
  {
    ConcatCons(page, []);
  }

  lemma {:induction false} FollowGivesRest(table: seq<Row>, limit: nat, cursor: Option<Cursor>, from: nat)
    requires Distinct(table) && limit >= 1 && FromTable(table, cursor)
    requires from <= |OrderBy(table)| && OrderBy(Having(table, cursor)) == OrderBy(table)[from..]
    ensures Concat(Follow(table, limit, cursor)) == OrderBy(table)[from..]
    ensures FullPages(Follow(table, limit, cursor), limit)
    decreases |OrderBy(table)| - from
  {
    hide *;
    var next := FetchTopMerchants(table, limit, cursor).nextCursor;
    NextPage(table, limit, cursor, from);
    FollowStep(table, limit, cursor);
    if from + limit < |OrderBy(table)| {
      FollowGivesRest(table, limit, next, from + limit);
      FollowMore(OrderBy(table), from, limit, Follow(table, limit, next));
    } else {
      FollowLast(OrderBy(table)[from..], limit);
    }
  }

  /**
   * On an unchanged table, following the cursors from the first page gives every
   * merchant group exactly once, by volume descending and then by identifier,
   * in full pages up to the last.
   */
  lemma FollowingGivesEverything(table: seq<Row>, limit: nat)
    requires Distinct(table) && limit >= 1
    ensures var all := Concat(Follow(table, limit, None));
      && multiset(all) == multiset(table) && |all| == |table|
      && forall i, j | 0 <= i < j < |all| ::
           || all[i].totalVolume > all[j].totalVolume
           || (all[i].totalVolume == all[j].totalVolume && all[i].merchantId < all[j].merchantId)
    ensures FullPages(Follow(table, limit, None), limit)
  {
    OrderByOrders(table);
    WholeTable(table);
    FollowGivesRest(table, limit, None, 0);
    assert OrderBy(table)[0..] == OrderBy(table);
  }
}
