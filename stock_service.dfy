/** The stock endpoints rebuilt on the lookup helpers, as the test suite
    expects them to behave: every ticker is normalised before it is stored
    or looked up, a rename onto a ticker another row holds is a 400, a null
    ticker or name is refused like any other invalid body, and the list
    takes its paging through `PaginationParams` and `paginate_query`. The
    tickers stored through these operations are all in normal form, so the
    unique index makes them unique up to case and outer whitespace. */
module StockService {
  import opened Outcomes
  import opened AsciiText
  import opened Schema
  import opened Database
  import opened Pagination
  import opened StockHelpers
  import opened StockRouter

  /** Every stored ticker is in normal form. */
  predicate Canonical(rows: seq<Stock>) {
    forall i :: 0 <= i < |rows| ==> IsNormal(rows[i].ticker)
  }

  /** In a canonical table two rows never hold variants of one ticker. */
  lemma CanonicalUniqueUpToNormalization(rows: seq<Stock>, i: nat, j: nat)
    requires Canonical(rows) && UniqueTickers(rows) && i < j < |rows|
    ensures NormalizeTicker(rows[i].ticker) != NormalizeTicker(rows[j].ticker)
  {
    NormalFormFixed(rows[i].ticker);
    NormalFormFixed(rows[j].ticker);
  }

  /** In a canonical table with the unique index, no two rows hold tickers
      that differ only in letter case or in outer whitespace. */
  lemma CanonicalNoVariants(rows: seq<Stock>, i: nat, j: nat, p: string, q: string)
    requires Canonical(rows) && UniqueTickers(rows) && i < j < |rows|
    requires AllSpace(p) && AllSpace(q)
    ensures !SameUpToCase(rows[i].ticker, rows[j].ticker)
    ensures rows[i].ticker != p + rows[j].ticker + q
  {
    CanonicalUniqueUpToNormalization(rows, i, j);
    if SameUpToCase(rows[i].ticker, rows[j].ticker) {
      CaseVariantsNormaliseAlike(rows[i].ticker, rows[j].ticker);
    }
    NormalizeIgnoresPadding(p, rows[j].ticker, q);
  }

  /** A create body with its ticker normalised. */
  function NormalizedCreate(c: StockCreate): StockCreate {
    c.(ticker := NormalizeTicker(c.ticker))
  }

  /** A PATCH body with its ticker, when one is given, normalised. */
  function NormalizedUpdate(u: StockUpdate): StockUpdate {
    if u.ticker.Given? && u.ticker.value.Some? then u.(ticker := Given(Some(NormalizeTicker(u.ticker.value.value))))
    else u
  }

  /** The bodies refused with 422: invalid under the schema, a null for a
      required column, or a ticker that is only whitespace. */
  predicate RefusedUpdate(u: StockUpdate) {
    || !ValidUpdate(u)
    || u.ticker == Given(None)
    || u.name == Given(None)
    || (u.ticker.Given? && u.ticker.value.Some? && NormalizeTicker(u.ticker.value.value) == "")
  }

  /** Normalising the ticker of an accepted body keeps it within the bounds. */
  lemma NormalizedUpdateValid(u: StockUpdate)
    requires !RefusedUpdate(u)
    ensures ValidUpdate(NormalizedUpdate(u))
    ensures NormalizedUpdate(u).ticker != Given(None) && NormalizedUpdate(u).name == u.name
  {
    if u.ticker.Given? {
      var t := u.ticker.value.value;
      assert 1 <= |NormalizeTicker(t)| <= |t| <= 10;
    }
  }

  /** Renaming row `i` onto a ticker some other row holds. */
  predicate RenameConflict(rows: seq<Stock>, i: nat, u: StockUpdate) {
    && i < |rows|
    && u.ticker.Given? && u.ticker.value.Some?
    && NormalizeTicker(u.ticker.value.value) != rows[i].ticker
    && CheckTickerExists(rows, u.ticker.value.value)
  }

  /** Create through `check_ticker_exists`: the ticker is normalised; a
      ticker that any stored row holds after normalisation is a 400, and
      the new row stores the normalised ticker. */
  method CreateStockNormalized(db: StockTable, stock: StockCreate) returns (r: Result<Stock>)
    requires db.Valid() && AllConform(db.rows) && Canonical(db.rows)
    modifies db
    ensures db.Valid() && AllConform(db.rows) && Canonical(db.rows)
    ensures !ValidCreate(stock) || NormalizeTicker(stock.ticker) == "" ==>
      r == Err(HttpError(UnprocessableEntity, RequestValidationDetail))
    ensures ValidCreate(stock) && NormalizeTicker(stock.ticker) != "" && CheckTickerExists(old(db.rows), stock.ticker) ==>
      r == Err(HttpError(BadRequest, AlreadyExistsDetail(NormalizeTicker(stock.ticker))))
    ensures ValidCreate(stock) && NormalizeTicker(stock.ticker) != "" && !CheckTickerExists(old(db.rows), stock.ticker) ==>
      r == Ok(FromCreate(old(db.nextId), NormalizedCreate(stock)))
    ensures r.Ok? ==>
      db.rows == old(db.rows) + [r.value] && db.nextId == old(db.nextId) + 1
      && forall i :: 0 <= i < |old(db.rows)| ==> old(db.rows)[i].id != r.value.id
    ensures r.Err? ==> db.rows == old(db.rows) && db.nextId == old(db.nextId)
  {
    var normalized := NormalizeTicker(stock.ticker);
    if !ValidCreate(stock) || normalized == "" {
      return Err(HttpError(UnprocessableEntity, RequestValidationDetail));
    }
    if CheckTickerExists(db.rows, stock.ticker) {
      return Err(HttpError(BadRequest, AlreadyExistsDetail(normalized)));
    }
    NormalizedCreateValid(stock);
    var dbStock := db.NewStock(NormalizedCreate(stock));
    FromCreateConforms(dbStock.id, NormalizedCreate(stock));
    AppendKeepsCanonical(db.rows, dbStock);
    var ok := db.Insert(dbStock);
    assert ok;
    r := Ok(dbStock);
  }

  /** A valid create body whose ticker is not only whitespace stays valid
      with its ticker normalised. */
  lemma NormalizedCreateValid(c: StockCreate)
    requires ValidCreate(c) && NormalizeTicker(c.ticker) != ""
    ensures ValidCreate(NormalizedCreate(c)) && IsNormal(NormalizedCreate(c).ticker)
  {
  }

  lemma AppendKeepsCanonical(rows: seq<Stock>, s: Stock)
    requires AllConform(rows) && Canonical(rows) && Conforms(s) && IsNormal(s.ticker)
    ensures AllConform(rows + [s]) && Canonical(rows + [s])
  {
  }

  lemma RemoveKeepsCanonical(rows: seq<Stock>, i: nat)
    requires AllConform(rows) && Canonical(rows) && i < |rows|
    ensures AllConform(rows[..i] + rows[i + 1..]) && Canonical(rows[..i] + rows[i + 1..])
  {
    var r := rows[..i] + rows[i + 1..];
    assert forall j :: 0 <= j < |r| ==> r[j] == rows[if j < i then j else j + 1];
  }

  /** Update through `get_stock_or_404`: a 404 names the normalised ticker;
      a rename onto a ticker another row holds is a 400 before anything is
      written; otherwise the merged row with the normalised new ticker is
      committed, and that commit cannot fail. */
  method UpdateStockChecked(db: StockTable, ticker: string, u: StockUpdate) returns (r: Result<Stock>)
    requires db.Valid() && AllConform(db.rows) && Canonical(db.rows)
    modifies db
    ensures db.Valid() && AllConform(db.rows) && Canonical(db.rows) && db.nextId == old(db.nextId)
    ensures RefusedUpdate(u) ==>
      r == Err(HttpError(UnprocessableEntity, RequestValidationDetail)) && db.rows == old(db.rows)
    ensures !RefusedUpdate(u) && !CheckTickerExists(old(db.rows), ticker) ==>
      r == Err(HttpError(NotFound, NotFoundDetail(NormalizeTicker(ticker)))) && db.rows == old(db.rows)
    ensures !RefusedUpdate(u) && CheckTickerExists(old(db.rows), ticker) ==>
      var i := FindFirst(old(db.rows), NormalizeTicker(ticker)).value;
      if RenameConflict(old(db.rows), i, u) then
        r == Err(HttpError(BadRequest, AlreadyExistsDetail(NormalizeTicker(u.ticker.value.value))))
        && db.rows == old(db.rows)
      else
        r == Ok(Settle(Merge(Pending(old(db.rows)[i]), NormalizedUpdate(u))))
        && db.rows == old(db.rows)[i := r.value]
  {
    if RefusedUpdate(u) {
      return Err(HttpError(UnprocessableEntity, RequestValidationDetail));
    }
    var found := GetStockOr404(db.rows, ticker);
    if found.Err? {
      return Err(found.error);
    }
    var i := FindFirst(db.rows, NormalizeTicker(ticker)).value;
    r := RenameOrCommit(db, i, u);
  }

  /** A rename that passes the conflict check, on a canonical table, always
      commits, and keeps the table canonical. */
  lemma CheckedUpdateCommits(rows: seq<Stock>, i: nat, u: StockUpdate)
    requires UniqueTickers(rows) && Canonical(rows) && i < |rows|
    requires !RefusedUpdate(u) && !RenameConflict(rows, i, u)
    ensures var merged := Merge(Pending(rows[i]), NormalizedUpdate(u));
      Commits(rows, i, merged) && IsNormal(merged.ticker.value)
  {
    var merged := Merge(Pending(rows[i]), NormalizedUpdate(u));
    if u.ticker.Given? {
      var newTicker := NormalizeTicker(u.ticker.value.value);
      assert merged.ticker == Some(newTicker);
      if newTicker != rows[i].ticker {
        assert !HasTicker(rows, newTicker);
      }
    }
  }

  /** Replacing a row by a conforming row in normal form keeps the table
      conforming and canonical. */
  lemma ReplaceKeepsCanonical(rows: seq<Stock>, i: nat, s: Stock)
    requires AllConform(rows) && Canonical(rows) && i < |rows|
    requires Conforms(s) && IsNormal(s.ticker)
    ensures AllConform(rows[i := s]) && Canonical(rows[i := s])
  {
  }

  /** The part of the checked update after the row is found: the conflict
      check, then the merge and its commit. */
  method RenameOrCommit(db: StockTable, i: nat, u: StockUpdate) returns (r: Result<Stock>)
    requires db.Valid() && AllConform(db.rows) && Canonical(db.rows)
    requires i < |db.rows| && !RefusedUpdate(u)
    modifies db
    ensures db.Valid() && AllConform(db.rows) && Canonical(db.rows) && db.nextId == old(db.nextId)
    ensures RenameConflict(old(db.rows), i, u) ==>
      r == Err(HttpError(BadRequest, AlreadyExistsDetail(NormalizeTicker(u.ticker.value.value))))
      && db.rows == old(db.rows)
    ensures !RenameConflict(old(db.rows), i, u) ==>
      r == Ok(Settle(Merge(Pending(old(db.rows)[i]), NormalizedUpdate(u))))
      && db.rows == old(db.rows)[i := r.value]
  {
    if RenameConflict(db.rows, i, u) {
      return Err(HttpError(BadRequest, AlreadyExistsDetail(NormalizeTicker(u.ticker.value.value))));
    }
    r := CommitChecked(db, i, u);
  }

  /** Merge and commit an update that passed every check. */
  method CommitChecked(db: StockTable, i: nat, u: StockUpdate) returns (r: Result<Stock>)
    requires db.Valid() && AllConform(db.rows) && Canonical(db.rows)
    requires i < |db.rows| && !RefusedUpdate(u) && !RenameConflict(db.rows, i, u)
    modifies db
    ensures db.Valid() && AllConform(db.rows) && Canonical(db.rows) && db.nextId == old(db.nextId)
    ensures r == Ok(Settle(Merge(Pending(old(db.rows)[i]), NormalizedUpdate(u))))
    ensures db.rows == old(db.rows)[i := r.value]
  {
    var stock := db.rows[i];
    var update := NormalizedUpdate(u);
    CheckedUpdateCommits(db.rows, i, u);
    NormalizedUpdateValid(u);
    MergeConforms(stock, update);
    var pending := ApplyUpdate(Pending(stock), update);
    ReplaceKeepsCanonical(db.rows, i, Settle(pending));
    var committed := db.CommitUpdate(i, pending);
    r := Ok(committed.value);
  }

  /** Delete through `get_stock_or_404`: the row holding the normalised
      ticker, and no other, is removed; a later lookup is a 404. */
  method DeleteStockNormalized(db: StockTable, ticker: string) returns (r: Result<()>)
    requires db.Valid() && AllConform(db.rows) && Canonical(db.rows)
    modifies db
    ensures db.Valid() && AllConform(db.rows) && Canonical(db.rows) && db.nextId == old(db.nextId)
    ensures !CheckTickerExists(old(db.rows), ticker) ==>
      r == Err(HttpError(NotFound, NotFoundDetail(NormalizeTicker(ticker)))) && db.rows == old(db.rows)
    ensures CheckTickerExists(old(db.rows), ticker) ==>
      var i := FindFirst(old(db.rows), NormalizeTicker(ticker)).value;
      r == Ok(()) && db.rows == old(db.rows)[..i] + old(db.rows)[i + 1..]
    ensures GetStockOr404(db.rows, ticker).Err?
  {
    r := DeleteByKey(db, NormalizeTicker(ticker));
  }

  /** The delete once the ticker is normalised to `key`. */
  method DeleteByKey(db: StockTable, key: string) returns (r: Result<()>)
    requires db.Valid() && AllConform(db.rows) && Canonical(db.rows)
    modifies db
    ensures db.Valid() && AllConform(db.rows) && Canonical(db.rows) && db.nextId == old(db.nextId)
    ensures !HasTicker(old(db.rows), key) ==>
      r == Err(HttpError(NotFound, NotFoundDetail(key))) && db.rows == old(db.rows)
    ensures HasTicker(old(db.rows), key) ==>
      var i := FindFirst(old(db.rows), key).value;
      r == Ok(()) && db.rows == old(db.rows)[..i] + old(db.rows)[i + 1..]
    ensures !HasTicker(db.rows, key)
  {
    var found := FindFirst(db.rows, key);
    if found.None? {
      return Err(HttpError(NotFound, NotFoundDetail(key)));
    }
    var i := found.value;
    RemoveKeepsCanonical(db.rows, i);
    RemoveDropsTicker(db.rows, i);
    db.Delete(i);
    r := Ok(());
  }

  /** The list through `PaginationParams`: out-of-range paging is a 422;
      in range, the page is `paginate_query` over the sector query, and it
      is what the router's list gives. `PaginationParams` puts no upper
      bound on `page`, so a huge page still ends in the 500 of the query. */
  function GetStocksBounded(rows: seq<Stock>, page: int, pageSize: int, sector: Option<string>): (r: Result<StockList>)
    ensures !ValidParams(PaginationParams(page, pageSize)) ==> r.Err? && r.error.status == UnprocessableEntity
    ensures ValidParams(PaginationParams(page, pageSize)) ==> r == GetStocks(rows, page, pageSize, sector)
    ensures ValidParams(PaginationParams(page, pageSize)) && (page - 1) * 100 <= SqlIntegerMax ==> r.Ok?
  {
    match MakeParams(page, pageSize)
    case Err(e) => Err(e)
    case Ok(params) =>
      GetStocksIsPaginate(rows, page, pageSize, sector);
      assert (page - 1) * 100 <= SqlIntegerMax ==> WindowBinds((page - 1) * pageSize, pageSize) by {
        MulMonotone(pageSize, 100, page - 1);
        MulNonNegative(page - 1, pageSize);
      }
      match Paginate(SectorFilter(rows, sector), params.page, params.pageSize)
      case Err(e) => Err(e)
      case Ok(result) => Ok(StockList(Responses(result.items), result.total, result.page, result.pageSize))
  }

  /** `page=0` and `page_size=1000` are refused; the defaults are answered. */
  lemma OutOfRangePagingRefused(rows: seq<Stock>, sector: Option<string>)
    ensures GetStocksBounded(rows, 0, 10, sector).Err?
    ensures GetStocksBounded(rows, 1, 1000, sector).Err?
    ensures GetStocksBounded(rows, 1, 10, sector) == GetStocks(rows, 1, 10, sector)
    ensures GetStocksBounded(rows, 1, 10, sector).Ok?
  {
  }

  /** A page within `PaginationParams` whose offset passes SQLite's integer
      range still fails with 500. */
  lemma HugeValidPageFails(rows: seq<Stock>, sector: Option<string>)
    ensures GetStocksBounded(rows, 0x4000_0000_0000_0000, 4, sector) == Err(HttpError(InternalServerError, InternalServerErrorDetail))
  {
  }

  /** The router's get misses a padded ticker that `get_stock_or_404` finds. */
  lemma PaddedLookupDiffers(rows: seq<Stock>, i: nat)
    requires UniqueTickers(rows) && Canonical(rows) && i < |rows| && rows[i].ticker == "BBCA"
    ensures GetStockOr404(rows, "  bbca  ") == Ok(rows[i])
    ensures GetStock(rows, "  bbca  ").Err?
  {
    VariantsFindTheSameRow(rows, i);
    FirstCharOfPadded();
  }

  lemma FirstCharOfPadded()
    ensures Upper("  bbca  ")[0] == ' '
  {
  }

  /** Create "BBCA", then "bbca": the second is a 400 "already exists". */
  method CaseVariantRejected() returns (first: Result<Stock>, second: Result<Stock>)
    ensures first.Ok? && first.value.ticker == "BBCA"
    ensures second == Err(HttpError(BadRequest, AlreadyExistsDetail("BBCA")))
    ensures Contains(second.error.detail, "already exists")
  {
    var db := new StockTable();
    NormalizeCaseExamples();
    first := CreateStockNormalized(db, MinimalCreate("BBCA", "PT Bank Central Asia Tbk"));
    second := CreateStockNormalized(db, MinimalCreate("bbca", "PT Bank Central Asia Tbk"));
    AlreadyExistsDetailNames("BBCA");
  }

  /** A canonical table of two rows: BBCA, then BMRI. */
  function TwoBanks(): seq<Stock> {
    [Stock(0, "BBCA", "PT Bank Central Asia Tbk", None, None, None),
     Stock(1, "BMRI", "PT Bank Mandiri (Persero) Tbk", None, None, None)]
  }

  lemma TwoBanksValid()
    ensures UniqueTickers(TwoBanks()) && UniqueIds(TwoBanks()) && IdsBelow(TwoBanks(), 2)
    ensures AllConform(TwoBanks())
  {
    assert "BBCA"[1] != "BMRI"[1];
  }

  lemma TwoBanksCanonical()
    ensures Canonical(TwoBanks())
  {
    assert IsNormal("BBCA") && IsNormal("BMRI");
  }

  lemma TwoBanksNormalized()
    ensures NormalizeTicker("BBCA") == "BBCA" && NormalizeTicker("BMRI") == "BMRI"
  {
    assert IsNormal("BMRI");
    NormalFormFixed("BMRI");
    NormalizeCaseExamples();
  }

  lemma TwoBanksLookup()
    ensures FindFirst(TwoBanks(), "BMRI") == Some(1)
    ensures CheckTickerExists(TwoBanks(), "BBCA")
  {
    TwoBanksValid();
    TwoBanksNormalized();
    FindFirstUnique(TwoBanks(), 1);
    assert TwoBanks()[0].ticker == NormalizeTicker("BBCA");
  }

  /** A table holding BBCA and BMRI; renaming BMRI to BBCA is a 400
      "already exists", and both rows stay as they were. */
  method RenameCollisionConflict() returns (r: Result<Stock>)
    ensures r == Err(HttpError(BadRequest, AlreadyExistsDetail("BBCA")))
  {
    var db := new StockTable();
    db.rows, db.nextId := TwoBanks(), 2;
    TwoBanksValid();
    TwoBanksCanonical();
    RenameOntoBbca();
    var u := StockUpdate(Given(Some("BBCA")), Unset, Unset, Unset, Unset);
    ghost var before := db.rows;
    r := UpdateStockChecked(db, "BMRI", u);
    assert FindFirst(before, NormalizeTicker("BMRI")).value == 1 && RenameConflict(before, 1, u);
  }

  /** On the two-bank table, the PATCH `{"ticker": "BBCA"}` sent to BMRI is
      accepted by the schema, finds row 1, and conflicts with row 0. */
  lemma RenameOntoBbca()
    ensures var u := StockUpdate(Given(Some("BBCA")), Unset, Unset, Unset, Unset);
      && !RefusedUpdate(u)
      && CheckTickerExists(TwoBanks(), "BMRI")
      && FindFirst(TwoBanks(), NormalizeTicker("BMRI")) == Some(1)
      && RenameConflict(TwoBanks(), 1, u)
      && NormalizeTicker(u.ticker.value.value) == "BBCA"
  {
    TwoBanksNormalized();
    TwoBanksLookup();
  }

  /** A PATCH body sending `"name": null` is refused with 422 before the
      table is touched. */
  method NullNameRefused() returns (r: Result<Stock>)
    ensures r == Err(HttpError(UnprocessableEntity, RequestValidationDetail))
  {
    var db := new StockTable();
    db.rows, db.nextId := TwoBanks(), 2;
    TwoBanksValid();
    TwoBanksCanonical();
    r := UpdateStockChecked(db, "BBCA", StockUpdate(Unset, Given(None), Unset, Unset, Unset));
  }
}
