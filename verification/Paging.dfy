/** Keyset paging as the list endpoints do it: newest first, a cursor that names the last row
    returned, one row more than the page to see whether there is a next page. */
module Paging {
  import opened Options

  /** The sort key of a row: its time and its id, both compared descending. */
  datatype Key = Key(time: int, id: nat)

  predicate Before(a: Key, b: Key) {
    a.time > b.time || (a.time == b.time && a.id > b.id)
  }

  predicate Sorted(rows: seq<Key>) {
    forall i, j :: 0 <= i < j < |rows| ==> Before(rows[i], rows[j])
  }

  datatype Page = Page(items: seq<Key>, next: Option<Key>)

  /** The rows after the cursor, as the query's WHERE clause says it. */
  function After(rows: seq<Key>, cursor: Option<Key>): (r: seq<Key>)
    ensures |r| <= |rows|
  {
    if cursor.None? || rows == [] then rows
    else
      var c := cursor.value;
      if rows[0].time < c.time || (rows[0].time == c.time && rows[0].id < c.id)
      then [rows[0]] + After(rows[1..], cursor)
      else After(rows[1..], cursor)
  }

  /** One request against the rows that match the filter, in the order of the query. */
  method ListPage(rows: seq<Key>, cursor: Option<Key>, limit: nat) returns (page: Page)
    requires limit >= 1
    ensures page == PageOf(rows, cursor, limit)
  {
    var q := After(rows, cursor);
    if |q| > limit + 1 {
      q := q[..limit + 1];
    }
    var next := None;
    if |q| > limit {
      q := q[..limit];
      var last := q[|q| - 1];
      next := Some(last);
    }
    page := Page(q, next);
  }

  function PageOf(rows: seq<Key>, cursor: Option<Key>, limit: nat): Page
    requires limit >= 1
  {
    var q := After(rows, cursor);
    if |q| > limit then Page(q[..limit], Some(q[limit - 1])) else Page(q, None)
  }

  // ---------------------------------------------------------------------------
  // What a cursor selects.
  // ---------------------------------------------------------------------------

  /** Relative to sorted rows, the cursor selects exactly the rows that come after it. */
  lemma {:induction false} AfterSelects(rows: seq<Key>, c: Key)
    requires Sorted(rows)
    ensures Sorted(After(rows, Some(c)))
    ensures forall r :: r in After(rows, Some(c)) <==> r in rows && Before(c, r)
  {
    if rows != [] {
      AfterSelects(rows[1..], c);
      var rest := After(rows[1..], Some(c));
      assert rows == [rows[0]] + rows[1..];
      forall i | 0 <= i < |rest| ensures Before(rows[0], rest[i]) {
        assert rest[i] in rest;
        var j :| 0 <= j < |rows[1..]| && rows[1..][j] == rest[i];
        assert rows[j + 1] == rest[i];
      }
    }
  }

  /** Sorted rows with the same members are the same rows. */
  lemma {:induction false} SortedUnique(a: seq<Key>, b: seq<Key>)
    requires Sorted(a) && Sorted(b) && forall r :: r in a <==> r in b
    ensures a == b
  {
    assert b != [] ==> b[0] in b;
    if a != [] {
      assert a[0] in b && b != [] && b[0] in a;
      var i :| 0 <= i < |b| && b[i] == a[0];
      var j :| 0 <= j < |a| && a[j] == b[0];
      assert i == 0;
      forall r ensures r in a[1..] <==> r in b[1..] { TailMember(a, r); TailMember(b, r); }
      SortedUnique(a[1..], b[1..]);
    }
  }

  lemma TailMember(a: seq<Key>, r: Key)
    requires Sorted(a) && a != []
    ensures r in a[1..] <==> r in a && r != a[0]
  {
    assert a == [a[0]] + a[1..];
    if r in a[1..] {
      var i :| 0 <= i < |a[1..]| && a[1..][i] == r;
      assert a[i + 1] == r;
    }
  }

  // ---------------------------------------------------------------------------
  // Following the cursor.
  // ---------------------------------------------------------------------------

  /** The pages of a client that follows `next` until it is null, when request `k` sees the table
      `tables[k]`, at most as many requests as there are tables. */
  function Follow(tables: seq<seq<Key>>, cursor: Option<Key>, limit: nat): seq<Page>
    requires limit >= 1
  {
    if tables == [] then []
    else
      var page := PageOf(tables[0], cursor, limit);
      [page] + if page.next.None? then [] else Follow(tables[1..], page.next, limit)
  }

  function Items(pages: seq<Page>): seq<Key> {
    if pages == [] then [] else pages[0].items + Items(pages[1..])
  }

  /** The walk has come to a null cursor. */
  predicate Finished(pages: seq<Page>) {
    pages != [] && pages[|pages| - 1].next.None?
  }

  /** How many pages `n` rows take. */
  function PageCount(n: nat, limit: nat): nat
    requires limit >= 1
    decreases n
  {
    if n <= limit then 1 else 1 + PageCount(n - limit, limit)
  }

  lemma {:induction false} PageCountIsCeiling(n: nat, limit: nat)
    requires limit >= 1
    ensures var p := PageCount(n, limit);
            p >= 1 && n <= p * limit && (n > 0 ==> (p - 1) * limit < n) && (n == 0 ==> p == 1)
    decreases n
  {
    if n > limit {
      PageCountIsCeiling(n - limit, limit);
      var q := PageCount(n - limit, limit);
      assert (q + 1) * limit == q * limit + limit && (q + 1 - 1) * limit == (q - 1) * limit + limit;
    }
  }

  /** Every row of `was` that comes after the cursor is still there, and every row that is new does
      not come after it. */
  ghost predicate ChangesAbove(was: seq<Key>, rows: seq<Key>, c: Key) {
    && (forall r :: r in was && Before(c, r) ==> r in rows)
    && (forall r :: r in rows && r !in was ==> !Before(c, r))
  }

  /** Rows that come, or go, at or above the cursor leave what comes after it alone. */
  lemma InsertAbove(was: seq<Key>, rows: seq<Key>, c: Key)
    requires Sorted(was) && Sorted(rows) && ChangesAbove(was, rows, c)
    ensures After(rows, Some(c)) == After(was, Some(c))
  {
    AfterSelects(was, c);
    AfterSelects(rows, c);
    SortedUnique(After(rows, Some(c)), After(was, Some(c)));
  }

  /** From each request to the next, the table changes only at or above the cursor that the next
      request sends. */
  ghost predicate GrowsAbove(tables: seq<seq<Key>>, cursor: Option<Key>, limit: nat)
    requires limit >= 1
  {
    |tables| <= 1 ||
    var page := PageOf(tables[0], cursor, limit);
    page.next.None? || (ChangesAbove(tables[0], tables[1], page.next.value) && GrowsAbove(tables[1..], page.next, limit))
  }

  /** The rows after the last one of a page are those the page left out. */
  lemma AfterPage(rows: seq<Key>, cursor: Option<Key>, limit: nat)
    requires limit >= 1 && Sorted(rows) && |After(rows, cursor)| > limit
    ensures After(rows, PageOf(rows, cursor, limit).next) == After(rows, cursor)[limit..]
  {
    var q := After(rows, cursor);
    var last := q[limit - 1];
    if cursor.Some? { AfterSelects(rows, cursor.value); }
    AfterSelects(rows, last);
    forall r ensures r in After(rows, Some(last)) <==> r in q[limit..] {
      if cursor.Some? && r in rows && Before(last, r) {
        assert last in q && Before(cursor.value, last);
      }
    }
    SortedUnique(After(rows, Some(last)), q[limit..]);
  }

  /** The pages hold exactly these rows, in as many pages as they need, and end at null. */
  predicate Lists(pages: seq<Page>, rows: seq<Key>, limit: nat)
    requires limit >= 1
  {
    Items(pages) == rows && |pages| == PageCount(|rows|, limit) && Finished(pages)
  }

  lemma OnePage(page: Page, rows: seq<Key>, limit: nat)
    requires limit >= 1 && |rows| <= limit && page == Page(rows, None)
    ensures Lists([page], rows, limit)
  {
    assert Items([page]) == rows + Items([page][1..]);
  }

  lemma PageThenRest(page: Page, rest: seq<Page>, rows: seq<Key>, limit: nat)
    requires limit >= 1 && |rows| > limit && page.items == rows[..limit] && Lists(rest, rows[limit..], limit)
    ensures Lists([page] + rest, rows, limit)
  {
    assert ([page] + rest)[1..] == rest;
    assert rows[..limit] + rows[limit..] == rows;
  }

  /** The next request finds exactly the rows that this page left out. */
  lemma NextRequest(rows: seq<Key>, later: seq<Key>, cursor: Option<Key>, limit: nat)
    requires limit >= 1 && Sorted(rows) && Sorted(later) && |After(rows, cursor)| > limit
    requires ChangesAbove(rows, later, PageOf(rows, cursor, limit).next.value)
    ensures After(later, PageOf(rows, cursor, limit).next) == After(rows, cursor)[limit..]
  {
    AfterPage(rows, cursor, limit);
    InsertAbove(rows, later, PageOf(rows, cursor, limit).next.value);
  }

  /** With enough requests, the pages list the rows after the cursor, each once and in order,
      although rows may come and go at or above the cursor between requests. */
  lemma {:induction false} FollowLists(tables: seq<seq<Key>>, cursor: Option<Key>, limit: nat)
    requires limit >= 1 && tables != [] && (forall k :: 0 <= k < |tables| ==> Sorted(tables[k]))
    requires GrowsAbove(tables, cursor, limit)
    requires |tables| >= PageCount(|After(tables[0], cursor)|, limit)
    ensures Lists(Follow(tables, cursor, limit), After(tables[0], cursor), limit)
    decreases |tables|
  {
    var q, page := After(tables[0], cursor), PageOf(tables[0], cursor, limit);
    if page.next.None? {
      OnePage(page, q, limit);
    } else {
      NextRequest(tables[0], tables[1], cursor, limit);
      assert tables[1..][0] == tables[1];
      FollowLists(tables[1..], page.next, limit);
      PageThenRest(page, Follow(tables[1..], page.next, limit), q, limit);
    }
  }

  /** From the first page of a fixed filter: every matching row exactly once, newest first. */
  lemma PagingComplete(tables: seq<seq<Key>>, limit: nat)
    requires limit >= 1 && tables != [] && (forall k :: 0 <= k < |tables| ==> Sorted(tables[k]))
    requires GrowsAbove(tables, None, limit)
    requires |tables| >= PageCount(|tables[0]|, limit)
    ensures Lists(Follow(tables, None, limit), tables[0], limit)
  {
    FollowLists(tables, None, limit);
  }
}
