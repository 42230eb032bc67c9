/** Offset/limit pagination: `PaginationParams`, `calculate_offset` and
    `paginate_query`. A query is the sequence of rows it yields, in the
    order the database returns them; its count is the sequence's length. */
module Pagination {
  import opened Outcomes

  function Min(a: int, b: int): int {
    if a <= b then a else b
  }

  function Max(a: int, b: int): int {
    if a <= b then b else a
  }

  datatype PaginationParams = PaginationParams(page: int, pageSize: int)

  /** The field defaults: page 1, 10 rows per page. */
  const DefaultParams: PaginationParams := PaginationParams(1, 10)

  /** `page >= 1` and `1 <= page_size <= 100`. */
  predicate ValidParams(p: PaginationParams) {
    p.page >= 1 && 1 <= p.pageSize <= 100
  }

  /** Building `PaginationParams(page=..., page_size=...)`: pydantic refuses
      out-of-range values with a validation error (422 at the API). */
  function MakeParams(page: int, pageSize: int): (r: Result<PaginationParams>)
    ensures r.Ok? <==> ValidParams(PaginationParams(page, pageSize))
    ensures r.Ok? ==> r.value.page == page && r.value.pageSize == pageSize
    ensures r.Err? ==> r.error.status == UnprocessableEntity
  {
    if page < 1 then Err(HttpError(UnprocessableEntity, "Input should be greater than or equal to 1"))
    else if pageSize < 1 then Err(HttpError(UnprocessableEntity, "Input should be greater than or equal to 1"))
    else if pageSize > 100 then Err(HttpError(UnprocessableEntity, "Input should be less than or equal to 100"))
    else Ok(PaginationParams(page, pageSize))
  }

  /** `params.calculate_offset()`: the number of rows on the pages before
      `page`, so a multiple of the page size. */
  function CalculateOffset(p: PaginationParams): (offset: int)
    ensures ValidParams(p) ==> 0 <= offset && offset % p.pageSize == 0
    ensures ValidParams(p) ==> offset / p.pageSize == p.page - 1
    ensures p.page == 1 ==> offset == 0
  {
    var k := p.page - 1;
    assert ValidParams(p) ==> (k * p.pageSize) / p.pageSize == k by {
      if ValidParams(p) { MulDiv(k, p.pageSize); }
    }
    k * p.pageSize
  }

  lemma {:induction false} MulDiv(k: nat, n: nat)
    requires n > 0
    ensures (k * n) % n == 0 && (k * n) / n == k
  {
    if k > 0 {
      MulDiv(k - 1, n);
      var a := (k - 1) * n;
      assert k * n == a + n;
      DivAddDivisor(a, n);
    }
  }

  /** Adding the divisor once adds one to the quotient and keeps the remainder. */
  lemma DivAddDivisor(a: nat, n: nat)
    requires n > 0
    ensures (a + n) / n == a / n + 1 && (a + n) % n == a % n
  {
    var q, r := a / n, a % n;
    assert a == q * n + r && 0 <= r < n;
    assert a + n == (q + 1) * n + r;
    DivUnique(a + n, n, q + 1, r);
  }

  /** Euclidean division is determined by `a == q * n + r` with `0 <= r < n`. */
  lemma DivUnique(a: int, n: int, q: int, r: int)
    requires n > 0 && 0 <= r < n && a == q * n + r
    ensures a / n == q && a % n == r
  {
    var q', r' := a / n, a % n;
    assert (q - q') * n == r' - r;
    assert (q' - q) * n == r - r';
    MulStep(q - q', n);
    MulStep(q' - q, n);
  }

  lemma MulStep(d: int, n: nat)
    ensures d >= 1 ==> d * n >= n
  {
    if d >= 1 {
      MulNonNegative(d - 1, n);
      assert d * n == (d - 1) * n + n;
    }
  }

  lemma OffsetExamples()
    ensures CalculateOffset(PaginationParams(1, 10)) == 0
    ensures CalculateOffset(PaginationParams(2, 10)) == 10
    ensures CalculateOffset(PaginationParams(3, 20)) == 40
    ensures ValidParams(DefaultParams) && ValidParams(PaginationParams(2, 20))
    ensures !ValidParams(PaginationParams(0, 10)) && !ValidParams(PaginationParams(1, 0))
    ensures !ValidParams(PaginationParams(1, 101))
  {
  }

  /** `PaginationResult`. */
  datatype PaginationResult<T> = PaginationResult(items: seq<T>, total: int, page: int, pageSize: int)

  /** The range of a SQLite INTEGER. The driver refuses to bind a Python
      int outside it (it raises OverflowError), so a query whose offset or
      limit falls outside this range fails before SQLite sees it. */
  const SqlIntegerMin: int := -0x8000_0000_0000_0000
  const SqlIntegerMax: int := 0x7FFF_FFFF_FFFF_FFFF

  predicate Binds(x: int) {
    SqlIntegerMin <= x <= SqlIntegerMax
  }

  /** Whether `query.offset(offset).limit(limit)` can be sent to SQLite. */
  predicate WindowBinds(offset: int, limit: int) {
    Binds(offset) && Binds(limit)
  }

  /** `query.offset(offset).limit(limit)` as SQLite evaluates arguments it
      accepts: a negative offset skips nothing, a negative limit means no
      limit, and an offset past the end leaves nothing. For non-negative
      arguments the window is the contiguous run of at most `limit` rows
      starting at `offset`. */
  function Window<T>(rows: seq<T>, offset: int, limit: int): (w: seq<T>)
    ensures |w| <= |rows| && forall i :: 0 <= i < |w| ==> w[i] in rows
    ensures offset >= 0 && limit >= 0 ==>
      |w| == Min(limit, Max(0, |rows| - offset))
      && forall i :: 0 <= i < |w| ==> w[i] == rows[offset + i]
    ensures offset >= |rows| ==> w == []
    ensures offset <= 0 && limit < 0 ==> w == rows
  {
    var start := if offset <= 0 then 0 else Min(offset, |rows|);
    var rest := rows[start..];
    if 0 <= limit < |rest| then rest[..limit] else rest
  }

  /** The rows of page `page`: the window at `(page - 1) * page_size`. */
  function PageItems<T>(rows: seq<T>, page: int, pageSize: int): seq<T> {
    Window(rows, (page - 1) * pageSize, pageSize)
  }

  /** `paginate_query(session, query, page, page_size)`: the count, then the
      page; an offset or page size outside SQLite's integer range makes the
      page query raise, which the application answers with 500. */
  function Paginate<T>(rows: seq<T>, page: int, pageSize: int): (r: Result<PaginationResult<T>>)
    ensures r.Ok? <==> WindowBinds((page - 1) * pageSize, pageSize)
    ensures r.Err? ==> r.error == HttpError(InternalServerError, InternalServerErrorDetail)
    ensures r.Ok? ==> r.value.total == |rows| && r.value.page == page && r.value.pageSize == pageSize
    ensures r.Ok? ==> r.value.items == PageItems(rows, page, pageSize)
    ensures r.Ok? && page >= 1 && pageSize >= 0 ==>
      var offset := (page - 1) * pageSize;
      |r.value.items| == Min(pageSize, Max(0, |rows| - offset))
      && forall i :: 0 <= i < |r.value.items| ==> r.value.items[i] == rows[offset + i]
    ensures r.Ok? && page >= 1 && pageSize >= 0 && (page - 1) * pageSize >= |rows| ==> r.value.items == []
  {
    var total := |rows|;
    var offset := (page - 1) * pageSize;
    assert page >= 1 && pageSize >= 0 ==> offset >= 0 by {
      if page >= 1 && pageSize >= 0 { MulNonNegative(page - 1, pageSize); }
    }
    if !WindowBinds(offset, pageSize) then Err(HttpError(InternalServerError, InternalServerErrorDetail))
    else Ok(PaginationResult(Window(rows, offset, pageSize), total, page, pageSize))
  }

  lemma MulNonNegative(a: nat, b: nat)
    ensures a * b >= 0
  {
  }

  /** The rows of a page are exactly the slice of the query at the page's
      offset, and `paginate_query` returns that slice whenever it can bind
      the offset and the page size. */
  lemma PaginateIsSlice<T>(rows: seq<T>, page: int, pageSize: int)
    requires page >= 1 && pageSize >= 0
    ensures var offset := (page - 1) * pageSize;
      var slice := rows[Min(offset, |rows|)..Min(offset + pageSize, |rows|)];
      && PageItems(rows, page, pageSize) == slice
      && (WindowBinds(offset, pageSize) ==>
            Paginate(rows, page, pageSize) == Ok(PaginationResult(slice, |rows|, page, pageSize)))
  {
    var offset := (page - 1) * pageSize;
    MulNonNegative(page - 1, pageSize);
    var items := PageItems(rows, page, pageSize);
    var slice := rows[Min(offset, |rows|)..Min(offset + pageSize, |rows|)];
    assert |items| == |slice|;
    forall i | 0 <= i < |items| ensures items[i] == slice[i] {
    }
  }

  /** The rows of pages 1 through `n`, one after the other. */
  function Pages<T>(rows: seq<T>, pageSize: int, n: nat): seq<T> {
    if n == 0 then [] else Pages(rows, pageSize, n - 1) + PageItems(rows, n, pageSize)
  }

  /** The first `n` pages hand out the first `n * page_size` rows, in order. */
  lemma {:induction false} PagesArePrefix<T>(rows: seq<T>, pageSize: int, n: nat)
    requires pageSize >= 1
    ensures Pages(rows, pageSize, n) == rows[..Min(n * pageSize, |rows|)]
  {
    if n > 0 {
      PagesArePrefix(rows, pageSize, n - 1);
      NextOffset(n, pageSize);
      PaginateIsSlice(rows, n, pageSize);
      SliceJoin(rows, Min((n - 1) * pageSize, |rows|), Min(n * pageSize, |rows|));
    }
  }

  /** Page `n` starts where page `n - 1` of the same size ends. */
  lemma NextOffset(n: nat, pageSize: nat)
    requires n > 0
    ensures (n - 1) * pageSize >= 0 && n * pageSize == (n - 1) * pageSize + pageSize
  {
    MulNonNegative(n - 1, pageSize);
  }

  lemma SliceJoin<T>(rows: seq<T>, a: nat, b: nat)
    requires a <= b <= |rows|
    ensures rows[..a] + rows[a..b] == rows[..b]
  {
  }

  lemma MulMonotone(a: nat, b: nat, c: nat)
    requires a <= b
    ensures a * c <= b * c
  {
    MulNonNegative(b - a, c);
    assert b * c == a * c + (b - a) * c;
  }

  /** ⌈total / page_size⌉: the number of pages needed to show every row. */
  function PageCount(total: nat, pageSize: nat): (n: nat)
    requires pageSize >= 1
    ensures n * pageSize >= total
    ensures n == 0 || (n - 1) * pageSize < total
  {
    var n := (total + pageSize - 1) / pageSize;
    CeilingDivision(total, pageSize);
    n
  }

  lemma CeilingDivision(total: nat, pageSize: nat)
    requires pageSize >= 1
    ensures var n := (total + pageSize - 1) / pageSize;
      n * pageSize >= total && (n == 0 || (n - 1) * pageSize < total)
  {
    var n := (total + pageSize - 1) / pageSize;
    var rem := (total + pageSize - 1) % pageSize;
    assert n * pageSize + rem == total + pageSize - 1;
    assert n * pageSize >= total;
    if n > 0 {
      assert (n - 1) * pageSize == n * pageSize - pageSize;
    }
  }

  /** Walking pages 1 through ⌈total / page_size⌉ hands out every row of the
      query exactly once and in order; their lengths add up to `total`. */
  lemma PagesCoverQuery<T>(rows: seq<T>, pageSize: int)
    requires pageSize >= 1
    ensures Pages(rows, pageSize, PageCount(|rows|, pageSize)) == rows
    ensures pageSize <= SqlIntegerMax ==>
      Paginate(rows, 1, pageSize).Ok?
      && |Pages(rows, pageSize, PageCount(|rows|, pageSize))| == Paginate(rows, 1, pageSize).value.total
  {
    var n := PageCount(|rows|, pageSize);
    PagesArePrefix(rows, pageSize, n);
    assert rows[..|rows|] == rows;
  }

  /** With a page size and a table within SQLite's integer range, every page of
      that walk is answered by `paginate_query`, with the rows `Pages` counts. */
  lemma WalkBinds<T>(rows: seq<T>, pageSize: int, n: nat)
    requires 1 <= pageSize <= SqlIntegerMax && |rows| <= SqlIntegerMax
    requires 1 <= n <= PageCount(|rows|, pageSize)
    ensures Paginate(rows, n, pageSize) == Ok(PaginationResult(PageItems(rows, n, pageSize), |rows|, n, pageSize))
  {
    var last := PageCount(|rows|, pageSize);
    MulMonotone(n - 1, last - 1, pageSize);
    MulNonNegative(n - 1, pageSize);
  }
}
