/** The stock endpoints as the router writes them. They do not use the
    lookup helpers: create checks the submitted ticker by exact match, get,
    update and delete look up `ticker.upper()` without stripping, update
    leaves a rename collision to the unique index, and the list takes
    `page` and `page_size` as plain integers. A request body is checked
    against its schema before a handler runs; a body that fails is answered
    with 422 and the table is not touched. */
module StockRouter {
  import opened Outcomes
  import opened AsciiText
  import opened Schema
  import opened Database
  import opened Pagination
  import opened SeedData

  /** `StockResponse.model_validate(stock)`. */
  function ToResponse(s: Stock): StockResponse {
    StockResponse(s.id, s.ticker, s.name, s.sector, s.currentPrice, s.description)
  }

  function Responses(rows: seq<Stock>): (rs: seq<StockResponse>)
    ensures |rs| == |rows| && forall i :: 0 <= i < |rows| ==> rs[i] == ToResponse(rows[i])
  {
    seq(|rows|, i requires 0 <= i < |rows| => ToResponse(rows[i]))
  }

  /** `if sector:` in Python: present and not the empty string. */
  predicate Truthy(sector: Option<string>) {
    sector.Some? && sector.value != ""
  }

  /** `query.where(Stocks.sector == sector)`: the rows of that sector, in order. */
  function FilterSector(rows: seq<Stock>, sector: string): (r: seq<Stock>)
    ensures |r| <= |rows|
    ensures forall s :: s in r <==> s in rows && s.sector == Some(sector)
  {
    if rows == [] then []
    else (if rows[0].sector == Some(sector) then [rows[0]] else []) + FilterSector(rows[1..], sector)
  }

  /** Filtering a concatenation filters each part and keeps their order. */
  lemma {:induction false} FilterSectorConcat(a: seq<Stock>, b: seq<Stock>, sector: string)
    ensures FilterSector(a + b, sector) == FilterSector(a, sector) + FilterSector(b, sector)
  {
    if a == [] {
      assert a + b == b;
    } else {
      assert (a + b)[0] == a[0] && (a + b)[1..] == a[1..] + b;
      FilterSectorConcat(a[1..], b, sector);
    }
  }

  /** The query `get_stocks` runs: filtered only when `sector` is truthy. */
  function SectorFilter(rows: seq<Stock>, sector: Option<string>): (r: seq<Stock>)
    ensures !Truthy(sector) ==> r == rows
    ensures Truthy(sector) ==> forall s :: s in r <==> s in rows && s.sector == sector
  {
    if Truthy(sector) then FilterSector(rows, sector.value) else rows
  }

  /** The list answered for a query whose window binds: the responses of
      the window at `(page - 1) * page_size`, with the query's length as the
      total. */
  function ListPage(query: seq<Stock>, page: int, pageSize: int): (l: StockList)
    ensures l.total == |query| && l.page == page && l.pageSize == pageSize && |l.stocks| <= l.total
    ensures forall i :: 0 <= i < |l.stocks| ==> exists s :: s in query && l.stocks[i] == ToResponse(s)
    ensures page >= 1 && pageSize >= 0 ==>
      var offset := (page - 1) * pageSize;
      |l.stocks| == Min(pageSize, Max(0, |query| - offset))
      && forall i :: 0 <= i < |l.stocks| ==> l.stocks[i] == ToResponse(query[offset + i])
  {
    var offset := (page - 1) * pageSize;
    assert page >= 1 && pageSize >= 0 ==> offset >= 0 by {
      if page >= 1 && pageSize >= 0 { MulNonNegative(page - 1, pageSize); }
    }
    var window := Window(query, offset, pageSize);
    var l := StockList(Responses(window), |query|, page, pageSize);
    assert forall i :: 0 <= i < |l.stocks| ==> window[i] in query && l.stocks[i] == ToResponse(window[i]);
    l
  }

  /** `get_stocks(page, page_size, sector)`: the total is the length of the
      whole query, the page the window at `(page - 1) * page_size`. Nothing
      bounds `page` or `page_size`, so an offset or page size outside
      SQLite's integer range makes the page query raise: 500. */
  function GetStocks(rows: seq<Stock>, page: int, pageSize: int, sector: Option<string>): (r: Result<StockList>)
    ensures r.Ok? <==> WindowBinds((page - 1) * pageSize, pageSize)
    ensures r.Err? ==> r.error == HttpError(InternalServerError, InternalServerErrorDetail)
    ensures r.Ok? ==>
      r.value.total == |SectorFilter(rows, sector)| && r.value.page == page && r.value.pageSize == pageSize
      && |r.value.stocks| <= r.value.total
    ensures r.Ok? && page >= 1 && pageSize >= 0 ==>
      var query, offset := SectorFilter(rows, sector), (page - 1) * pageSize;
      |r.value.stocks| == Min(pageSize, Max(0, |query| - offset))
      && forall i :: 0 <= i < |r.value.stocks| ==> r.value.stocks[i] == ToResponse(query[offset + i])
    ensures r.Ok? && Truthy(sector) ==> forall i :: 0 <= i < |r.value.stocks| ==> r.value.stocks[i].sector == sector
    ensures r.Ok? && rows == [] ==> r.value.stocks == [] && r.value.total == 0
  {
    if !WindowBinds((page - 1) * pageSize, pageSize) then Err(HttpError(InternalServerError, InternalServerErrorDetail))
    else Ok(ListPage(SectorFilter(rows, sector), page, pageSize))
  }

  /** Counting by loading every row gives the same list, and the same
      failure, as `paginate_query` on the same query. */
  lemma GetStocksIsPaginate(rows: seq<Stock>, page: int, pageSize: int, sector: Option<string>)
    ensures GetStocks(rows, page, pageSize, sector) ==
      match Paginate(SectorFilter(rows, sector), page, pageSize)
      case Err(e) => Err(e)
      case Ok(p) => Ok(StockList(Responses(p.items), p.total, p.page, p.pageSize))
  {
  }

  /** Every listed response carries the bounds of a stored row, which is what
      `StockResponse.model_validate` checks. */
  lemma GetStocksResponsesValid(rows: seq<Stock>, page: int, pageSize: int, sector: Option<string>)
    requires AllConform(rows)
    ensures var r := GetStocks(rows, page, pageSize, sector);
      r.Ok? ==> forall i :: 0 <= i < |r.value.stocks| ==> ValidResponse(r.value.stocks[i])
  {
    var query := SectorFilter(rows, sector);
    var r := GetStocks(rows, page, pageSize, sector);
    if r.Ok? {
      var window := Window(query, (page - 1) * pageSize, pageSize);
      forall i | 0 <= i < |r.value.stocks| ensures ValidResponse(r.value.stocks[i]) {
        assert r.value.stocks[i] == ToResponse(window[i]);
        assert window[i] in rows;
      }
    }
  }

  /** With the default query parameters an empty table lists `[]`, 0, 1, 10. */
  lemma GetStocksEmpty()
    ensures GetStocks([], 1, 10, None) == Ok(StockList([], 0, 1, 10))
  {
  }

  /** `page=0` is answered, not refused: SQLite reads the offset `-page_size`
      as 0, so page 0 shows what page 1 shows, and reports page 0. */
  lemma PageZeroAccepted(rows: seq<Stock>, pageSize: int, sector: Option<string>)
    requires 0 <= pageSize <= SqlIntegerMax
    ensures GetStocks(rows, 0, pageSize, sector).Ok? && GetStocks(rows, 1, pageSize, sector).Ok?
    ensures GetStocks(rows, 0, pageSize, sector).value.page == 0
    ensures GetStocks(rows, 0, pageSize, sector).value.stocks == GetStocks(rows, 1, pageSize, sector).value.stocks
  {
    var query := SectorFilter(rows, sector);
    assert Window(query, -pageSize, pageSize) == Window(query, 0, pageSize);
  }

  /** `page_size=1000` is answered, with up to 1000 rows on one page. */
  lemma LargePageSizeAccepted(rows: seq<Stock>)
    requires |rows| <= 1000
    ensures GetStocks(rows, 1, 1000, None) == Ok(StockList(Responses(rows), |rows|, 1, 1000))
  {
    assert Window(rows, 0, 1000) == rows;
  }

  /** A page whose offset passes SQLite's integer range is a 500, and so is a
      page size past it. */
  lemma HugePageFails(rows: seq<Stock>, sector: Option<string>)
    ensures GetStocks(rows, 0x4000_0000_0000_0000, 4, sector) == Err(HttpError(InternalServerError, InternalServerErrorDetail))
    ensures GetStocks(rows, 1, 0x8000_0000_0000_0000, sector).Err?
  {
  }

  /** `get_stock(ticker)`: the first row whose ticker is `ticker.upper()`, or
      a 404 naming the ticker as the client sent it. */
  function GetStock(rows: seq<Stock>, ticker: string): (r: Result<Stock>)
    ensures r.Ok? <==> HasTicker(rows, Upper(ticker))
    ensures r.Ok? ==> r.value in rows && r.value.ticker == Upper(ticker)
    ensures r.Err? ==> r.error == HttpError(NotFound, NotFoundDetail(ticker))
  {
    match FindFirst(rows, Upper(ticker))
    case None => Err(HttpError(NotFound, NotFoundDetail(ticker)))
    case Some(i) => Ok(rows[i])
  }

  /** Under the unique index `get_stock` finds the one row holding the
      upper-cased ticker. */
  lemma GetStockUnique(rows: seq<Stock>, ticker: string, i: nat)
    requires UniqueTickers(rows) && i < |rows| && rows[i].ticker == Upper(ticker)
    ensures GetStock(rows, ticker) == Ok(rows[i])
  {
    FindFirstUnique(rows, i);
  }

  /** A row stored as "BBCA" is found through "bbca" and "BbCa". */
  lemma GetStockCaseInsensitive(rows: seq<Stock>, i: nat)
    requires UniqueTickers(rows) && i < |rows| && rows[i].ticker == "BBCA"
    ensures GetStock(rows, "bbca") == Ok(rows[i])
    ensures GetStock(rows, "BbCa") == Ok(rows[i])
  {
    assert Upper("bbca") == "BBCA" by {
      var u := Upper("bbca");
      assert u[0] == UpperChar('b') && u[1] == UpperChar('b') && u[2] == UpperChar('c') && u[3] == UpperChar('a');
    }
    assert Upper("BbCa") == "BBCA" by {
      var u := Upper("BbCa");
      assert u[0] == UpperChar('B') && u[1] == UpperChar('b') && u[2] == UpperChar('C') && u[3] == UpperChar('a');
    }
    GetStockUnique(rows, "bbca", i);
    GetStockUnique(rows, "BbCa", i);
  }

  /** The loop of `update_stock` over `update_data.items()`, calling
      `setattr(stock, key, value)` on the loaded row. */
  method ApplyUpdate(stock: PendingStock, u: StockUpdate) returns (q: PendingStock)
    ensures q == Merge(stock, u)
  {
    var updateData := UpdateData(u);
    q := stock;
    for k := 0 to |updateData|
      invariant SetAll(q, updateData[k..]) == SetAll(stock, updateData)
    {
      assert updateData[k..][0] == updateData[k] && updateData[k..][1..] == updateData[k + 1..];
      q := SetAttr(q, updateData[k]);
    }
    assert updateData[|updateData|..] == [];
    SetAllIsMerge(stock, u);
  }

  /** `create_stock(stock)`: 400 when a row holds exactly the submitted
      ticker, otherwise one new row with the submitted fields and a fresh id. */
  method CreateStock(db: StockTable, stock: StockCreate) returns (r: Result<Stock>)
    requires db.Valid() && AllConform(db.rows)
    modifies db
    ensures db.Valid() && AllConform(db.rows)
    ensures !ValidCreate(stock) ==>
      r == Err(HttpError(UnprocessableEntity, RequestValidationDetail))
    ensures ValidCreate(stock) && HasTicker(old(db.rows), stock.ticker) ==>
      r == Err(HttpError(BadRequest, AlreadyExistsDetail(stock.ticker)))
    ensures ValidCreate(stock) && !HasTicker(old(db.rows), stock.ticker) ==>
      r == Ok(FromCreate(old(db.nextId), stock))
    ensures r.Ok? ==>
      db.rows == old(db.rows) + [r.value] && db.nextId == old(db.nextId) + 1
      && forall i :: 0 <= i < |old(db.rows)| ==> old(db.rows)[i].id != r.value.id
    ensures r.Err? ==> db.rows == old(db.rows) && db.nextId == old(db.nextId)
  {
    if !ValidCreate(stock) {
      return Err(HttpError(UnprocessableEntity, RequestValidationDetail));
    }
    var existing := FindFirst(db.rows, stock.ticker);
    if existing.Some? {
      return Err(HttpError(BadRequest, AlreadyExistsDetail(stock.ticker)));
    }
    var dbStock := db.NewStock(stock);
    FromCreateConforms(dbStock.id, stock);
    var ok := db.Insert(dbStock);
    assert ok;
    r := Ok(dbStock);
  }

  /** `update_stock(ticker, stock_update)`: 404 unless a row holds
      `ticker.upper()`; otherwise the given fields are set on that row and
      the commit either stores the merged row or fails (a null ticker or
      name, or a ticker another row holds), which reaches the client as a
      500 and leaves the table as it was. */
  method UpdateStock(db: StockTable, ticker: string, u: StockUpdate) returns (r: Result<Stock>)
    requires db.Valid() && AllConform(db.rows)
    modifies db
    ensures db.Valid() && AllConform(db.rows) && db.nextId == old(db.nextId)
    ensures !ValidUpdate(u) ==>
      r == Err(HttpError(UnprocessableEntity, RequestValidationDetail)) && db.rows == old(db.rows)
    ensures ValidUpdate(u) && !HasTicker(old(db.rows), Upper(ticker)) ==>
      r == Err(HttpError(NotFound, NotFoundDetail(ticker))) && db.rows == old(db.rows)
    ensures ValidUpdate(u) && HasTicker(old(db.rows), Upper(ticker)) ==>
      var i := FindFirst(old(db.rows), Upper(ticker)).value;
      var merged := Merge(Pending(old(db.rows)[i]), u);
      if Commits(old(db.rows), i, merged) then
        r == Ok(Settle(merged)) && db.rows == old(db.rows)[i := Settle(merged)]
      else
        r == Err(HttpError(InternalServerError, InternalServerErrorDetail)) && db.rows == old(db.rows)
  {
    if !ValidUpdate(u) {
      return Err(HttpError(UnprocessableEntity, RequestValidationDetail));
    }
    var found := FindFirst(db.rows, Upper(ticker));
    if found.None? {
      return Err(HttpError(NotFound, NotFoundDetail(ticker)));
    }
    var i := found.value;
    var stock := db.rows[i];
    var pending := ApplyUpdate(Pending(stock), u);
    ghost var before := db.rows;
    var committed := db.CommitUpdate(i, pending);
    if committed.None? {
      return Err(HttpError(InternalServerError, InternalServerErrorDetail));
    }
    MergeConforms(stock, u);
    assert forall j :: 0 <= j < |db.rows| ==> db.rows[j] == if j == i then Settle(pending) else before[j];
    r := Ok(committed.value);
  }

  /** `delete_stock(ticker)`: 404 unless a row holds `ticker.upper()`;
      otherwise that row, and no other, is removed, and a later get of the
      same ticker is a 404. */
  method DeleteStock(db: StockTable, ticker: string) returns (r: Result<()>)
    requires db.Valid() && AllConform(db.rows)
    modifies db
    ensures db.Valid() && AllConform(db.rows) && db.nextId == old(db.nextId)
    ensures !HasTicker(old(db.rows), Upper(ticker)) ==>
      r == Err(HttpError(NotFound, NotFoundDetail(ticker))) && db.rows == old(db.rows)
    ensures HasTicker(old(db.rows), Upper(ticker)) ==>
      var i := FindFirst(old(db.rows), Upper(ticker)).value;
      r == Ok(()) && db.rows == old(db.rows)[..i] + old(db.rows)[i + 1..]
    ensures GetStock(db.rows, ticker).Err?
  {
    var found := FindFirst(db.rows, Upper(ticker));
    if found.None? {
      return Err(HttpError(NotFound, NotFoundDetail(ticker)));
    }
    var i := found.value;
    RemoveDropsTicker(db.rows, i);
    RemoveKeepsConform(db.rows, i);
    db.Delete(i);
    r := Ok(());
  }

  /** `seed_stocks()` (POST /stocks/seed): runs `seed_dummy_stocks`, the
      router's copy of the seeding loop, and answers with a message. */
  method SeedStocksEndpoint(db: StockTable) returns (r: Result<string>)
    requires db.Valid() && AllConform(db.rows)
    modifies db
    ensures db.Valid() && AllConform(db.rows)
    ensures Store(db.rows, db.nextId) == SeedFrom(Store(old(db.rows), old(db.nextId)), DummyStocks)
    ensures r == Ok("Dummy stocks seeded successfully")
  {
    SeedStocks(db);
    r := Ok("Dummy stocks seeded successfully");
  }

  /** Create "BBCA", then "bbca": the exact-match check lets the second one
      through, so the table holds both tickers. */
  method CaseVariantAccepted() returns (first: Result<Stock>, second: Result<Stock>)
    ensures first.Ok? && first.value.ticker == "BBCA"
    ensures second.Ok? && second.value.ticker == "bbca"
  {
    var db := new StockTable();
    first := CreateStock(db, MinimalCreate("BBCA", "PT Bank Central Asia Tbk"));
    assert "BBCA"[0] != "bbca"[0];
    second := CreateStock(db, MinimalCreate("bbca", "PT Bank Central Asia Tbk"));
  }

  /** Create "BBCA" and "BMRI", then rename BMRI to BBCA: nothing checks
      beforehand, so the unique index refuses the commit and the client
      gets a 500 instead of a 400 "already exists". */
  method RenameCollisionFailsAtCommit() returns (r: Result<Stock>)
    ensures r == Err(HttpError(InternalServerError, InternalServerErrorDetail))
  {
    var db := new StockTable();
    var a := CreateStock(db, MinimalCreate("BBCA", "PT Bank Central Asia Tbk"));
    assert "BBCA"[1] != "BMRI"[1];
    var b := CreateStock(db, MinimalCreate("BMRI", "PT Bank Mandiri (Persero) Tbk"));
    UpperOfNoLower("BMRI");
    assert db.rows[1].ticker == "BMRI" && db.rows[0].ticker == "BBCA";
    assert FindFirst(db.rows, "BMRI") == Some(1);
    r := UpdateStock(db, "BMRI", StockUpdate(Given(Some("BBCA")), Unset, Unset, Unset, Unset));
  }

  /** A PATCH body may send `"name": null`: the schema lets it through,
      `setattr` stores it, and the NOT NULL constraint refuses the commit. */
  method NullNameFailsAtCommit() returns (r: Result<Stock>)
    ensures r == Err(HttpError(InternalServerError, InternalServerErrorDetail))
  {
    var db := new StockTable();
    var a := CreateStock(db, MinimalCreate("BBCA", "PT Bank Central Asia Tbk"));
    UpperOfNoLower("BBCA");
    assert FindFirst(db.rows, "BBCA") == Some(0);
    var u := StockUpdate(Unset, Given(None), Unset, Unset, Unset);
    assert ValidUpdate(u) && Merge(Pending(db.rows[0]), u).name.None?;
    r := UpdateStock(db, "BBCA", u);
  }
}
