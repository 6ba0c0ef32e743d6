/** Paging of the list endpoints: the clamping of the `page` and `limit`
    query parameters, the page count, and the filter-then-page shape that
    every list endpoint shares. */
module Pagination {
  import opened Schema

  datatype Page = Page(page: int, limit: int, offset: int)

  /** What `GetPagination` guarantees of every page it returns. */
  predicate PageInBounds(p: Page) {
    p.page >= 1 && 1 <= p.limit <= MAX_PAGE_SIZE && p.offset == (p.page - 1) * p.limit
  }

  /** `page` and `limit` as `parseInt` read them: None when absent or not a
      number. A result of 0 is falsy and takes the default too. */
  method GetPagination(pageParam: Option<int>, limitParam: Option<int>) returns (p: Page)
    ensures PageInBounds(p) && p.offset >= 0
    ensures p.page == if pageParam.Some? && pageParam.value >= 1 then pageParam.value else 1
    ensures p.limit == if limitParam.Some? && limitParam.value > MAX_PAGE_SIZE then MAX_PAGE_SIZE
                       else if limitParam.Some? && limitParam.value >= 1 then limitParam.value
                       else DEFAULT_PAGE_SIZE
  {
    var page := if pageParam.Some? && pageParam.value != 0 then pageParam.value else 1;
    var limit := if limitParam.Some? && limitParam.value != 0 then limitParam.value else DEFAULT_PAGE_SIZE;
    if page < 1 {
      page := 1;
    }
    if limit < 1 {
      limit := DEFAULT_PAGE_SIZE;
    }
    if limit > MAX_PAGE_SIZE {
      limit := MAX_PAGE_SIZE;
    }
    var offset := (page - 1) * limit;
    return Page(page, limit, offset);
  }

  /** The page count, `total / limit` rounded up: the fewest pages of
      `limit` rows that hold `total` rows. */
  function PageCount(total: nat, limit: nat): (pages: nat)
    requires limit >= 1
    ensures pages * limit >= total
    ensures pages == 0 || (pages - 1) * limit < total
  {
    var q := (total + limit - 1) / limit;
    assert q * limit + (total + limit - 1) % limit == total + limit - 1;
    assert (q - 1) * limit == q * limit - limit;
    q
  }

  /** The rows of `rows` that `keep` accepts, in table order. Like the
      aggregates, it recurses from the last row. */
  function Filter<T>(rows: seq<T>, keep: T -> bool): (r: seq<T>)
    ensures |r| <= |rows|
    ensures forall i :: 0 <= i < |r| ==> r[i] in rows && keep(r[i])
    ensures forall i :: 0 <= i < |rows| && keep(rows[i]) ==> rows[i] in r
  {
    if rows == [] then []
    else
      var n := |rows| - 1;
      Filter(rows[..n], keep) + (if keep(rows[n]) then [rows[n]] else [])
  }

  /** Filtering distributes over concatenation. With `FilterOne` this
      determines `Filter` completely: every accepted row appears once, in
      table order, and nothing else appears. */
  lemma {:induction false} FilterConcat<T>(a: seq<T>, b: seq<T>, keep: T -> bool)
    ensures Filter(a + b, keep) == Filter(a, keep) + Filter(b, keep)
  {
    if b == [] {
      assert a + b == a;
    } else {
      var n := |b| - 1;
      assert (a + b)[..|a + b| - 1] == a + b[..n];
      FilterConcat(a, b[..n], keep);
    }
  }

  /** A single row is kept exactly when `keep` accepts it. */
  lemma FilterOne<T>(x: T, keep: T -> bool)
    ensures Filter([x], keep) == if keep(x) then [x] else []
  {
    assert [x][..0] == [];
  }

  /** Each accepted row is kept as often as the table holds it, and no other
      row is kept. */
  lemma {:induction false} FilterMultiset<T>(rows: seq<T>, keep: T -> bool)
    ensures forall x :: multiset(Filter(rows, keep))[x] == if keep(x) then multiset(rows)[x] else 0
  {
    if rows != [] {
      var n := |rows| - 1;
      assert rows == rows[..n] + [rows[n]];
      FilterMultiset(rows[..n], keep);
    }
  }

  /** A filter that accepts every row keeps the rows as they are. */
  lemma {:induction false} FilterAll<T>(rows: seq<T>, keep: T -> bool)
    ensures (forall i :: 0 <= i < |rows| ==> keep(rows[i])) ==> Filter(rows, keep) == rows
  {
    if rows != [] {
      var n := |rows| - 1;
      FilterAll(rows[..n], keep);
      assert rows[..n] + [rows[n]] == rows;
    }
  }

  /** The response of a list endpoint. */
  datatype Listing<T> = Listing(items: seq<T>, page: int, limit: int, total: nat, pages: nat)

  /** How many of `total` matching rows land on page `p`: a full page while
      rows remain beyond it, the remainder on the last page, none past the end. */
  function WindowSize(total: nat, p: Page): nat
    requires p.limit >= 1
  {
    if p.offset >= total then 0
    else if p.offset + p.limit <= total then p.limit
    else total - p.offset
  }

  /** `LIMIT limit OFFSET offset` over the matching rows, with the count and
      page count of all matching rows beside it. */
  function PageOf<T>(rows: seq<T>, p: Page): (r: Listing<T>)
    requires p.limit >= 1 && p.offset >= 0
    ensures r.total == |rows| && r.pages == PageCount(|rows|, p.limit)
    ensures r.page == p.page && r.limit == p.limit
    ensures |r.items| <= p.limit && |r.items| == WindowSize(|rows|, p)
    ensures forall i :: 0 <= i < |r.items| ==> p.offset + i < |rows| && r.items[i] == rows[p.offset + i]
  {
    var start := if p.offset <= |rows| then p.offset else |rows|;
    var end := if p.offset + p.limit <= |rows| then p.offset + p.limit else |rows|;
    Listing(rows[start..end], p.page, p.limit, |rows|, PageCount(|rows|, p.limit))
  }
}
