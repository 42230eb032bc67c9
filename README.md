# Stock catalogue API, modelled in Dafny

This project models the core of a small FastAPI/SQLModel service that keeps a
catalogue of Indonesian stocks. It covers:

- the `stocks` table;
- the request and response schemas;
- the ticker helpers (`normalize_ticker`, `get_stock_or_404`, `check_ticker_exists`);
- offset/limit pagination;
- the five stock endpoints and the seed endpoint;
- the dummy-stock seeder;
- the fixed-credential `/login` check.

A `StockTable` object stands for the database session. Each handler that
writes becomes a module-level method that takes the table and names it in its
`modifies` clause. The read-only handlers (`get_stock`, `get_stocks`) are
functions of the table's rows. The object holds two things:

- the committed rows, in insertion order;
- the next id to hand out. A counter stands in for `uuid4()`, so ids are fresh
  by construction.

The table's commit primitives enforce what the schema declares: a unique index
on `ticker`, NOT NULL on `ticker` and `name`, and a unique primary key. A
request body is checked against its pydantic schema before a handler runs. A
body that fails is answered with 422 and never touches the table.

There are two versions of the stock endpoints:

- `StockRouter` models `app/router/stocks.py` as written:
  - create checks the submitted ticker by exact match;
  - get, update and delete look up `ticker.upper()` without stripping, and their
    404 detail echoes the raw path ticker;
  - update leaves a rename collision, or a `null` name or ticker, to the
    database, whose commit then fails with 500;
  - the list takes `page` and `page_size` as unbounded integers. The SQL
    `OFFSET`/`LIMIT` is modelled as SQLite evaluates arguments within its
    64-bit integer range: a negative offset skips nothing, and a negative limit
    means no limit. Outside that range the driver raises before the query
    runs, and the answer is 500.
- `StockService` builds the same endpoints on the helpers
  (`normalize_ticker`, `check_ticker_exists`, `get_stock_or_404`,
  `PaginationParams`, `paginate_query`). This is the behaviour the test suite
  expects (`tests/test_stocks.py`, `tests/test_utils.py`). It serves as the
  corrected half of every finding below. Its tables keep one more invariant,
  `Canonical`: every stored ticker is upper-case with no outer whitespace. With
  the unique index, this makes tickers unique up to case and padding.

`str.upper` and `str.strip` are modelled over ASCII; `str.isspace` counts HT, LF, VT, FF, CR, the four separators
28-31 and the space. Prices are `real`s, because only their sign is inspected.

## Model

| member | source | states |
|---|---|---|
| Outcomes.AlreadyExistsDetailNames | app/router/stocks.py:66-70 | the 400 detail contains the ticker it names and the words "already exists" |
| Outcomes.NotFoundDetailNames | app/utils/stock_helpers.py:16-20 | the 404 detail contains the ticker it names and the words "not found" |
| Outcomes.AlreadyExistsDetail | app/router/stocks.py:69 | the 400 detail `Stock with ticker {ticker} already exists` |
| Outcomes.NotFoundDetail | app/utils/stock_helpers.py:19 | the 404 detail `Stock with ticker {ticker} not found`, shared with the router's 404s |
| AsciiText.UpperChar | app/utils/stock_helpers.py:8 | one character upper-cased: a lower-case letter becomes its capital (32 code points lower, in A-Z), every other character is kept, and whitespace stays whitespace |
| AsciiText.Upper | app/utils/stock_helpers.py:8 | `upper()` keeps the length, replaces each lower-case letter by its capital, keeps every other character in place, and keeps exactly the whitespace positions |
| AsciiText.TrimStart | app/utils/stock_helpers.py:8 | the result is a suffix of the input, everything removed was whitespace, and it does not start with whitespace |
| AsciiText.TrimEnd | app/utils/stock_helpers.py:8 | the result is a prefix of the input, everything removed was whitespace, and it does not end with whitespace |
| AsciiText.Strip | app/utils/stock_helpers.py:8 | `strip()` is no longer than its input and leaves no outer whitespace; it introduces no lower-case letter, and it is the identity on strings already without outer whitespace |
| AsciiText.UpperOfNoLower | app/utils/stock_helpers.py:8 | upper-casing a string without lower-case letters changes nothing |
| AsciiText.UpperConcat | app/utils/stock_helpers.py:8 | upper-casing distributes over concatenation |
| AsciiText.StripAround | app/utils/stock_helpers.py:8 | whitespace added on either side of any string does not change its strip |
| AsciiText.TrimStartKeepsTail | app/utils/stock_helpers.py:8 | once a non-space character is reached, stripping the front keeps everything after it |
| AsciiText.IsSpace | app/utils/stock_helpers.py:8 | the ASCII characters `str.isspace` accepts, which `strip()` removes: HT, LF, VT, FF, CR, 28-31 and the space |
| AsciiText.UpperOfSpaces | app/utils/stock_helpers.py:8 | upper-casing whitespace changes nothing |
| AsciiText.TrimStartAfterSpaces | app/utils/stock_helpers.py:8 | whitespace in front of a string does not change how its front is stripped |
| AsciiText.TrimEndBeforeSpaces | app/utils/stock_helpers.py:8 | whitespace after a string does not change how its end is stripped |
| AsciiText.TrimStartOfSpaces | app/utils/stock_helpers.py:8 | a string of whitespace strips to nothing |
| Schema.MinimalCreateValid | app/schema/stocks.py:6-17 | a create body with only ticker and name is valid exactly when the ticker has 1-10 characters and the name 1-255 |
| Schema.ValidFields | app/schema/stocks.py:8-12 | the `StockBase` bounds: ticker 1-10 characters, name 1-255, sector at most 100, description at most 1000, a price above 0 when there is one |
| Schema.ValidCreate | app/schema/stocks.py:15-17 | a create body is valid when its fields obey the `StockBase` bounds |
| Schema.ValidResponse | app/schema/stocks.py:29-31 | a response obeys the same `StockBase` bounds as a create body |
| Schema.ValidUpdate | app/schema/stocks.py:20-26 | a PATCH body is valid when each field that is set and not null obeys its `StockBase` bound; null and unset fields pass |
| Schema.NonPositivePriceRejected | app/schema/stocks.py:11 | a price of zero or below makes a create body invalid, whatever the other fields are |
| Schema.EmptyUpdateValid | app/schema/stocks.py:20-26 | the empty PATCH body is valid and dumps to no assignments |
| Schema.UpdateData | app/router/stocks.py:143 | `model_dump(exclude_unset=True)` holds one assignment per set field and no other: a field's assignment with a value is in the dump exactly when the body sets that field to that value |
| Database.FindFrom | app/router/stocks.py:112-114 | the first row at or after `from` holding the key; None exactly when no such row exists |
| Database.FindFirst | app/router/stocks.py:112-114 | `.where(ticker == key).first()`: the first matching row, with none before it; None exactly when no row holds the key |
| Database.FindFirstUnique | app/models/database.py:7 | under the unique index, the lookup finds exactly the row holding the key |
| Database.FromCreate | app/router/stocks.py:72 | `Stocks(**stock.model_dump())`: the row with the given id and the body's fields |
| Database.SetAttr | app/router/stocks.py:145 | one `setattr(stock, key, value)`: the named field takes the value, null included, and every other field is kept |
| Database.SetAll | app/router/stocks.py:144-145 | the `setattr` calls of one update, applied in the dump's order |
| Database.Merge | app/router/stocks.py:143-145 | what a PATCH body means for a row: each field the body sets takes the body's value, every other field and the id stay |
| Database.Settle | app/models/database.py:5-11 | the row a loaded object becomes when it is flushed, once ticker and name are not null |
| Database.Commits | app/models/database.py:7-8 | a flush of row `i` passes exactly when ticker and name are not null and no other row holds the ticker |
| Database.SetAllConcat | app/router/stocks.py:144-145 | applying two runs of `setattr` one after the other is applying their concatenation |
| Database.SetAllIsMerge | app/router/stocks.py:143-145 | the `setattr` loop over the dump sets every field the body carries (null included) and keeps every other field and the id |
| Database.FromCreateConforms | app/models/database.py:5-11 | a row made from a valid create body obeys the field bounds, fits the 10-character ticker column, and has the id it was given |
| Database.MergeConforms | app/router/stocks.py:143-148 | a valid PATCH body merged into a conforming row gives a conforming row once ticker and name are not null; the id never changes |
| Database.RemovePreservesUnique | app/router/stocks.py:167-168 | deleting a row keeps tickers and ids unique and shifts the later rows down by one |
| Database.RemoveDropsTicker | app/models/database.py:7 | under the unique index, deleting the row holding a ticker leaves no row holding it |
| Database.AppendKeepsConform | app/models/database.py:5-11 | appending a conforming row keeps the whole table conforming |
| Database.RemoveKeepsConform | app/models/database.py:5-11 | removing a row keeps the remaining rows conforming |
| Database.StockTable.constructor | app/models/database.py:5-11 | a new table is empty and valid |
| Database.StockTable.Valid | app/models/database.py:6-7 | the table's invariant: tickers are unique, ids are unique, and every id is below the next id to hand out |
| Database.StockTable.NewStock | app/models/database.py:6 | `Stocks(**fields)` gets an id no stored row has, and nothing is stored |
| Database.StockTable.Insert | app/models/database.py:7 | add and commit succeed exactly when no row holds the ticker; then the row is appended, otherwise nothing changes |
| Database.StockTable.CommitUpdate | app/models/database.py:7-8 | a flush succeeds exactly when ticker and name are not null and no other row holds the ticker; then only row `i` changes, otherwise nothing does |
| Database.StockTable.Delete | app/router/stocks.py:167-168 | delete and commit remove exactly row `i` and keep the table valid |
| Pagination.MakeParams | app/utils/pagination.py:8-10 | `PaginationParams` is built exactly when `page >= 1` and `1 <= page_size <= 100`, and otherwise refused with 422 |
| Pagination.CalculateOffset | app/utils/pagination.py:12-13 | for valid params the offset is a non-negative multiple of the page size whose quotient is `page - 1`; page 1 starts at 0 |
| Pagination.OffsetExamples | app/utils/pagination.py:9-13 | offsets 0, 10 and 40 for (1,10), (2,10) and (3,20); the defaults are valid, and page 0, size 0 and size 101 are not |
| Pagination.Binds | app/router/stocks.py:97-98 | a Python int the SQLite driver can bind: within the signed 64-bit range |
| Pagination.WindowBinds | app/router/stocks.py:97-98 | `query.offset(offset).limit(limit)` can be sent to SQLite exactly when both arguments bind |
| Pagination.Window | app/utils/pagination.py:33 | SQLite `OFFSET`/`LIMIT` on arguments it accepts: every item comes from the query; for non-negative arguments it is the run of at most `limit` rows starting at `offset`; past the end it is empty; a negative limit with offset at most 0 returns everything |
| Pagination.PageItems | app/utils/pagination.py:32-33 | the rows of page `page`: the window at `(page - 1) * page_size` |
| Pagination.Paginate | app/utils/pagination.py:23-35 | succeeds exactly when the offset and page size fit SQLite's integer range, and otherwise is a 500; then the total is the query's length, the paging is echoed, and the items are the rows at `(page-1)*page_size` onward, no more than `page_size` of them; a page past the end is empty |
| Pagination.PaginateIsSlice | app/utils/pagination.py:32-33 | a page's rows are exactly the clamped slice of the query at its offset, and `paginate_query` returns that slice whenever the offset and page size bind |
| Pagination.PagesArePrefix | app/utils/pagination.py:32-33 | pages 1 to n together hand out the first `n * page_size` rows, in order |
| Pagination.Pages | app/utils/pagination.py:28-35 | the rows of pages 1 to `n`, one after the other |
| Pagination.PageCount | app/utils/pagination.py:28-35 | ⌈total / page_size⌉ is the least page count that covers the total |
| Pagination.PagesCoverQuery | app/utils/pagination.py:28-35 | walking pages 1 to ⌈total / page_size⌉ returns every row exactly once, in order, and their lengths add up to the total the first page reports |
| Pagination.WalkBinds | app/utils/pagination.py:23-35 | on a table of bindable size, every page from 1 to ⌈total / page_size⌉ is answered with its rows: the walk never hits the 500 |
| StockHelpers.NormalizeTicker | app/utils/stock_helpers.py:6-8 | the normalised ticker has no lower-case letter and no outer whitespace, and is no longer than the input |
| StockHelpers.NormalFormFixed | app/utils/stock_helpers.py:6-8 | normalisation leaves a ticker unchanged exactly when it is already in normal form |
| StockHelpers.NormalizeIdempotent | app/utils/stock_helpers.py:6-8 | normalising twice is normalising once |
| StockHelpers.NormalizeIgnoresPadding | app/utils/stock_helpers.py:8 | whitespace around a ticker does not change its normal form |
| StockHelpers.NormalizeKeepsInside | app/utils/stock_helpers.py:8 | a ticker without outer whitespace is only upper-cased: inner spaces and digits stay |
| StockHelpers.SameUpToCase | app/utils/stock_helpers.py:8 | two strings of one length that differ at most in the case of their letters |
| StockHelpers.CaseVariantsNormaliseAlike | app/utils/stock_helpers.py:6-8 | tickers that differ only in the case of their letters have the same normal form |
| StockHelpers.NormalizeCaseExamples | app/utils/stock_helpers.py:6-8 | "bbca", "BbCa" and "BBCA" all normalise to "BBCA" |
| StockHelpers.NormalizePaddedExample | app/utils/stock_helpers.py:8 | "  bbca  " normalises to "BBCA" |
| StockHelpers.NormalizeInnerSpaceExample | app/utils/stock_helpers.py:8 | "bb ca" normalises to "BB CA" |
| StockHelpers.NormalizeDigitsExample | app/utils/stock_helpers.py:8 | "test123" normalises to "TEST123", and "" stays "" |
| StockHelpers.CheckTickerExists | app/utils/stock_helpers.py:25-31 | true exactly when some row holds the normalised ticker |
| StockHelpers.GetStockOr404 | app/utils/stock_helpers.py:11-22 | Ok exactly when the ticker exists; then it is the first row holding the normalised ticker; otherwise a 404 naming the normalised ticker |
| StockHelpers.NotFoundNamesNormalizedTicker | app/utils/stock_helpers.py:16-20 | a 404 from the helper names the normalised ticker and says "not found" |
| StockHelpers.GetStockOr404Unique | app/utils/stock_helpers.py:13-14 | under the unique index, the helper finds the one row holding the normalised ticker |
| StockHelpers.VariantsFindTheSameRow | app/utils/stock_helpers.py:11-22 | a row stored as "BBCA" is found through "bbca", "BbCa" and "  bbca  " |
| StockRouter.Responses | app/router/stocks.py:99 | one response per row, each the row's fields, in order |
| StockRouter.ToResponse | app/router/stocks.py:99 | `StockResponse.model_validate(stock)`: the row's id and fields |
| StockRouter.Truthy | app/router/stocks.py:90 | `if sector:`: the sector is given and not the empty string |
| StockRouter.FilterSector | app/router/stocks.py:90-91 | keeps no more rows than it is given; a row is kept exactly when it is in the table and has that sector |
| StockRouter.FilterSectorConcat | app/router/stocks.py:90-91 | the filter keeps the order of the rows |
| StockRouter.SectorFilter | app/router/stocks.py:90-91 | no filter unless `sector` is truthy (present and non-empty); otherwise exactly the rows of that sector |
| StockRouter.ListPage | app/router/stocks.py:94-106 | the list for a query whose window binds: the total is the query's length, the paging is echoed, each listed stock is a response of a query row, and for `page >= 1` they are the rows at the page's offset, no more than `page_size` |
| StockRouter.GetStocks | app/router/stocks.py:80-106 | answered exactly when the offset and page size fit SQLite's integer range, otherwise 500; the total counts the filtered query and the paging is echoed; for `page >= 1` the stocks are the filtered rows at the page's offset, no more than `page_size`; with a sector every listed stock has it; an empty table lists nothing |
| StockRouter.GetStocksIsPaginate | app/router/stocks.py:93-98 | the router's count-then-window answer is the one `paginate_query` gives on the same query, failure included |
| StockRouter.GetStocksResponsesValid | app/router/stocks.py:99 | from a table of conforming rows, every listed stock satisfies the `StockResponse` bounds |
| StockRouter.GetStocksEmpty | app/router/stocks.py:80-106 | with default parameters an empty table answers `[]`, total 0, page 1, page_size 10 |
| StockRouter.PageZeroAccepted | app/router/stocks.py:82-83 | `page=0` is answered, not refused: it echoes page 0 and lists what page 1 lists |
| StockRouter.LargePageSizeAccepted | app/router/stocks.py:82-83 | `page_size=1000` is answered, and lists a whole table of up to 1000 rows on one page |
| StockRouter.HugePageFails | app/router/stocks.py:97-98 | `page=2^62` with `page_size=4`, or a `page_size` of 2^63, overflows SQLite's integer range and is a 500 |
| StockRouter.GetStock | app/router/stocks.py:109-122 | found exactly when some row holds `ticker.upper()`; the 404 detail names the ticker as sent |
| StockRouter.GetStockUnique | app/router/stocks.py:112-114 | under the unique index, `get_stock` finds the row holding the upper-cased ticker |
| StockRouter.GetStockCaseInsensitive | app/router/stocks.py:113 | a row stored as "BBCA" is found through "bbca" and "BbCa" |
| StockRouter.ApplyUpdate | app/router/stocks.py:143-145 | the `setattr` loop turns the loaded row into the field-by-field merge of the body |
| StockRouter.CreateStock | app/router/stocks.py:58-77 | invalid body: 422; a row holding exactly the submitted ticker: 400 "already exists" naming it; otherwise the body is stored with a fresh id and returned; on an error nothing changes |
| StockRouter.UpdateStock | app/router/stocks.py:125-151 | invalid body: 422; no row holding `ticker.upper()`: 404 naming the raw ticker; otherwise the merged row replaces that row if the commit passes, and the answer is 500 with no change if it does not |
| StockRouter.DeleteStock | app/router/stocks.py:154-168 | 404 naming the raw ticker when no row holds `ticker.upper()`; otherwise exactly that row is removed, and the ticker is no longer found |
| StockRouter.SeedStocksEndpoint | app/router/stocks.py:171-176 | runs the seeder and answers "Dummy stocks seeded successfully" |
| StockRouter.CaseVariantAccepted | app/router/stocks.py:62-70 | creating "BBCA" and then "bbca" stores both |
| StockRouter.RenameCollisionFailsAtCommit | app/router/stocks.py:143-148 | renaming BMRI onto an existing BBCA is a 500, not a 400 |
| StockRouter.NullNameFailsAtCommit | app/router/stocks.py:143-148 | a PATCH body with `"name": null` passes validation and then fails at commit with 500 |
| StockService.CanonicalUniqueUpToNormalization | app/utils/stock_helpers.py:25-31 | in a canonical table with the unique index, no two rows hold variants of one ticker |
| StockService.Canonical | app/utils/stock_helpers.py:6-8 | the invariant of tables written through the helpers: every stored ticker is in normal form |
| StockService.CanonicalNoVariants | app/utils/stock_helpers.py:25-31 | in a canonical table with the unique index, no two rows hold tickers that differ only in case, or only by padding |
| StockService.AppendKeepsCanonical | app/utils/stock_helpers.py:6-8 | appending a conforming row with a normal ticker keeps the table conforming and canonical |
| StockService.RemoveKeepsCanonical | app/router/stocks.py:167-168 | removing a row keeps the table conforming and canonical |
| StockService.ReplaceKeepsCanonical | app/router/stocks.py:143-148 | replacing a row by a conforming row with a normal ticker keeps the table conforming and canonical |
| StockService.NormalizedUpdateValid | app/schema/stocks.py:20-26 | normalising the ticker of an accepted PATCH body keeps it valid, non-null, and leaves the name alone |
| StockService.NormalizedCreateValid | app/schema/stocks.py:6-17 | a valid create body whose ticker is not only whitespace stays valid once normalised, and its ticker is in normal form |
| StockService.NormalizedCreate | app/utils/stock_helpers.py:6-8 | the create body with its ticker normalised |
| StockService.NormalizedUpdate | app/utils/stock_helpers.py:6-8 | the PATCH body with its ticker normalised when it sets a non-null ticker; otherwise the body unchanged |
| StockService.RefusedUpdate | app/schema/stocks.py:20-26 | a PATCH body is refused with 422 when it breaks a bound, sets ticker or name to null, or sets a ticker that is only whitespace |
| StockService.CreateStockNormalized | app/utils/stock_helpers.py:25-31 | invalid body or an all-whitespace ticker: 422; a ticker whose normal form exists: 400 naming the normal form; otherwise the body is stored with the ticker normalised; the table stays canonical |
| StockService.UpdateStockChecked | app/utils/stock_helpers.py:11-22 | refused body: 422; the normalised ticker absent: 404 naming it; a rename onto another row's ticker: 400; otherwise the merged row with its ticker normalised replaces the found row; the table stays canonical |
| StockService.RenameConflict | app/utils/stock_helpers.py:25-31 | a PATCH body renames row `i` onto a ticker another row holds: the new ticker normalises to something other than the row's own, and `check_ticker_exists` finds it |
| StockService.CheckedUpdateCommits | app/router/stocks.py:143-148 | an update that passes the checks always passes the database constraints |
| StockService.RenameOrCommit | app/router/stocks.py:143-148 | a rename onto a ticker another row holds is a 400 naming it and changes nothing; otherwise the update is committed |
| StockService.CommitChecked | app/router/stocks.py:143-149 | the merged row with its ticker normalised replaces row `i`, and nothing else changes |
| StockService.DeleteStockNormalized | app/utils/stock_helpers.py:11-22 | 404 naming the normalised ticker when it is absent; otherwise that row is removed, and the helper no longer finds the ticker |
| StockService.DeleteByKey | app/router/stocks.py:157-168 | removes the row holding the key, or answers 404 when there is none; afterwards no row holds the key |
| StockService.GetStocksBounded | app/utils/pagination.py:8-10 | out-of-range paging is a 422; in-range paging gives the router's list, which always succeeds for page numbers whose offset binds |
| StockService.OutOfRangePagingRefused | app/utils/pagination.py:9-10 | `page=0` and `page_size=1000` are refused; the defaults are answered with the router's list |
| StockService.HugeValidPageFails | app/utils/pagination.py:32-33 | even with `PaginationParams` checked, `page=2^62` overflows the offset and is a 500 |
| StockService.PaddedLookupDiffers | app/router/stocks.py:112-114 | "  bbca  " finds the BBCA row through the helper but not through the router's `get_stock` |
| StockService.CaseVariantRejected | app/utils/stock_helpers.py:25-31 | creating "BBCA" and then "bbca" is a 400 whose detail says "already exists" |
| StockService.RenameCollisionConflict | app/utils/stock_helpers.py:25-31 | renaming BMRI onto an existing BBCA is a 400 "already exists" naming BBCA |
| StockService.RenameOntoBbca | app/utils/stock_helpers.py:25-31 | on a table holding BBCA and BMRI, the body `{"ticker": "BBCA"}` passes validation, BMRI is found at row 1, and the normalised new ticker is held by another row |
| StockService.NullNameRefused | app/schema/stocks.py:23 | a PATCH body with `"name": null` is refused with 422 before the table is touched |
| SeedData.CountAbsent | app/models/seed_data.py:43-51 | the number of entries whose ticker no row holds, at most the list's length |
| SeedData.SeedFrom | app/models/seed_data.py:43-51 | the store after seeding a list: an entry whose ticker a row already holds is skipped, any other is appended with the next id, and entries added earlier in the run count as present |
| SeedData.SeedStocks | app/models/seed_data.py:42-56 | the table after seeding is the fold of the dummy list over the old table, and it stays valid |
| SeedData.SeedList | app/models/seed_data.py:43-51 | the loop over any list of valid entries ends in the fold of that list over the old table |
| SeedData.SeedStep | app/models/seed_data.py:45-51 | one turn of the loop skips an entry whose ticker is held, and otherwise appends it with the next id |
| SeedData.DummyStocksValid | app/models/seed_data.py:11-40 | every entry of the dummy list (BBCA, BMRI, BBRI, BUMI) passes the create bounds, and no two share a ticker |
| SeedData.SeedKeepsExisting | app/models/seed_data.py:43-51 | seeding keeps the existing rows in place and unchanged; each added row gets a fresh id and comes from an entry of the list |
| SeedData.HasTickerPrefix | app/models/seed_data.py:45-47 | a ticker held by the existing rows is still held after rows are appended |
| SeedData.SeedAllPresent | app/models/seed_data.py:43-51 | after seeding, every ticker of the list is held by some row |
| SeedData.SeedWhenAllPresent | app/models/seed_data.py:49-54 | when every ticker is already held, seeding changes nothing |
| SeedData.SeedIdempotent | app/models/seed_data.py:42-56 | seeding twice leaves the table as seeding once does |
| SeedData.HasTickerAppend | app/models/seed_data.py:45-51 | after one append, a ticker is held exactly when it was held before or is the appended row's |
| SeedData.CountAbsentAppend | app/models/seed_data.py:45-51 | appending a row whose ticker the list does not mention leaves the absent count unchanged |
| SeedData.SeedAddsAbsent | app/models/seed_data.py:43-51 | with distinct tickers, seeding adds exactly one row, and uses one id, per absent ticker |
| SeedData.DummyTickersPresent | app/models/seed_data.py:11-40 | after seeding, BBCA, BMRI, BBRI and BUMI are all held |
| SeedData.LowercaseStoreLacksDummies | app/models/seed_data.py:45-47 | a stored "bbca" matches none of the dummy tickers |
| SeedData.LowercaseDoesNotBlockSeeding | app/models/seed_data.py:45-47 | the exact-match check lets "BBCA" be seeded beside a stored "bbca", giving five rows |
| Auth.Login | app/router/auth.py:7-23 | "Good!" exactly for the admin email and password; any other email is a 400 "Email not found"; the admin email with another password is a 401 "Invalid Password" |
| Auth.EmailCheckedFirst | app/router/auth.py:13-16 | with a wrong email the password is never consulted: the answer is the same 400 for every password |
| Auth.LoginExamples | app/router/auth.py:13-23 | the success, wrong-email, wrong-password and both-wrong cases give "Good!", 400, 401 and 400 |

## Left out

- HTTP wiring is not modelled: FastAPI routing, dependency injection of the session, response-model serialisation and status codes on success (201, 204).
- The engine, settings, `app/main.py`, `app/models/init_db.py` and `app/utils/query_params.py` are not part of this model.
- `app/modules/auth/router.py` is not part of this model.
- `app/schema/auth.py` is not part of this model. So the 422 for a login body with a missing field is left out, and `LoginRequest` is just two strings.
- A 422 response carries `RequestValidationDetail` in place of pydantic's list of field errors.
- `Pagination.Window`: stands for SQLite's `OFFSET`/`LIMIT` only on arguments within SQLite's integer range; `Pagination.Paginate` and `StockRouter.GetStocks` answer 500 before calling it on any other argument, as the driver's `OverflowError` does.
- `Pagination.Paginate`: the count runs as a `COUNT(*)` subquery in the source; the model takes the length of the same query, which gives the same number.
- The query has no `ORDER BY`. The model assumes rows come back in insertion order.
- `session.refresh` has no modelled effect. It reloads what was just committed.
- `StockRouter.SeedStocksEndpoint`: the `except` branch wrapping a seeding failure in a 500 is left out, because the modelled seeder cannot fail.
- The seeder's `print` calls are I/O and are left out.
- Ids are natural numbers from a counter, not random `uuid4()` values.
- Prices are reals, not IEEE floats.
- Text is modelled over ASCII for `upper()` and `strip()`. Unicode case mapping and Unicode whitespace are left out.
- Concurrent requests and transaction isolation are left out. Each handler runs alone against the table.
- The ORM's in-place mutation of the loaded object is modelled on values: the loaded row is a `PendingStock` value that is settled into the table on commit.

## Findings

| source | as written | input that shows it | evidently intended | confidence | as-written member | corrected member |
|---|---|---|---|---|---|---|
| app/router/stocks.py:62-64 | create looks up the submitted ticker by exact match | create "BBCA", then create "bbca": both are stored | case variants are refused with 400 "already exists" (tests/test_stocks.py:33-42), as `check_ticker_exists` does | not executed | StockRouter.CaseVariantAccepted | StockService.CaseVariantRejected |
| app/router/stocks.py:143-148 | update writes a new ticker without checking whether another row holds it | create BBCA and BMRI, then PATCH /stocks/BMRI with `{"ticker": "BBCA"}`: the unique index fails at commit, giving 500 | a 400 "already exists" (tests/test_stocks.py:204-216) | not executed | StockRouter.RenameCollisionFailsAtCommit | StockService.RenameCollisionConflict |
| app/router/stocks.py:82-83 | `page` and `page_size` are plain integers with no bounds | GET /stocks/?page=0 lists page 1 with `page: 0`; GET /stocks/?page_size=1000 lists up to 1000 rows | 422 for out-of-range paging, as `PaginationParams` enforces (tests/test_stocks.py:126-134) | not executed | StockRouter.PageZeroAccepted | StockService.OutOfRangePagingRefused |
| app/router/stocks.py:143-148 | a `null` for ticker or name is set on the row, because `StockUpdate` marks both Optional | PATCH /stocks/BBCA with `{"name": null}`: NOT NULL fails at commit, giving 500 | the body is refused like any other invalid one, with 422 | not executed | StockRouter.NullNameFailsAtCommit | StockService.NullNameRefused |
