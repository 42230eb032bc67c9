/** `seed_stocks`: the four dummy stocks are added one by one, each only if
    no row holds its ticker exactly, and committed together. The router's
    `seed_dummy_stocks` is a copy of the same list and loop. */
module SeedData {
  import opened Outcomes
  import opened Schema
  import opened Database

  /** The dummy list, in the order the loop visits it. */
  const DummyStocks: seq<StockCreate> := [
    StockCreate("BBCA", "PT Bank Central Asia Tbk", Some("Banking"), Some(9800.0),
                Some("Largest private bank in Indonesia by market capitalization")),
    StockCreate("BMRI", "PT Bank Mandiri (Persero) Tbk", Some("Banking"), Some(6250.0),
                Some("Indonesia's largest bank by assets")),
    StockCreate("BBRI", "PT Bank Rakyat Indonesia (Persero) Tbk", Some("Banking"), Some(5100.0),
                Some("State-owned bank focusing on micro and small enterprises")),
    StockCreate("BUMI", "PT Bumi Resources Tbk", Some("Mining"), Some(142.0),
                Some("Coal mining company operating in Kalimantan"))
  ]

  /** The table's rows and its next id, as a value. */
  datatype Store = Store(rows: seq<Stock>, nextId: nat)

  /** What seeding the list `ds` makes of a store: an entry whose ticker some
      row already holds is skipped, any other is appended with the next id.
      Entries added earlier in the same run count as present. */
  function SeedFrom(st: Store, ds: seq<StockCreate>): Store
    decreases |ds|
  {
    if ds == [] then st
    else if HasTicker(st.rows, ds[0].ticker) then SeedFrom(st, ds[1..])
    else SeedFrom(Store(st.rows + [FromCreate(st.nextId, ds[0])], st.nextId + 1), ds[1..])
  }

  predicate DistinctTickers(ds: seq<StockCreate>) {
    forall i, j :: 0 <= i < j < |ds| ==> ds[i].ticker != ds[j].ticker
  }

  /** How many entries of `ds` have a ticker no row holds. */
  function CountAbsent(rows: seq<Stock>, ds: seq<StockCreate>): (n: nat)
    ensures n <= |ds|
  {
    if ds == [] then 0
    else (if HasTicker(rows, ds[0].ticker) then 0 else 1) + CountAbsent(rows, ds[1..])
  }

  /** `seed_stocks()` over the table. */
  method SeedStocks(db: StockTable)
    requires db.Valid() && AllConform(db.rows)
    modifies db
    ensures db.Valid() && AllConform(db.rows)
    ensures Store(db.rows, db.nextId) == SeedFrom(Store(old(db.rows), old(db.nextId)), DummyStocks)
  {
    DummyStocksValid();
    SeedList(db, DummyStocks);
  }

  /** The loop of `seed_stocks` over a list of valid entries: look the
      ticker up, and add the entry only when nothing holds it. */
  method SeedList(db: StockTable, ds: seq<StockCreate>)
    requires db.Valid() && AllConform(db.rows)
    requires forall k :: 0 <= k < |ds| ==> ValidCreate(ds[k])
    modifies db
    ensures db.Valid() && AllConform(db.rows)
    ensures Store(db.rows, db.nextId) == SeedFrom(Store(old(db.rows), old(db.nextId)), ds)
  {
    for k := 0 to |ds|
      invariant db.Valid() && AllConform(db.rows)
      invariant SeedFrom(Store(db.rows, db.nextId), ds[k..]) == SeedFrom(Store(old(db.rows), old(db.nextId)), ds)
    {
      var stockData := ds[k];
      SeedStep(Store(db.rows, db.nextId), ds, k);
      var existing := FindFirst(db.rows, stockData.ticker);
      if existing.None? {
        var stock := db.NewStock(stockData);
        FromCreateConforms(stock.id, stockData);
        AppendKeepsConform(db.rows, stock);
        var ok := db.Insert(stock);
      }
    }
    assert ds[|ds|..] == [];
  }

  /** One turn of the loop: entry `k` is skipped or appended. */
  lemma SeedStep(st: Store, ds: seq<StockCreate>, k: nat)
    requires k < |ds|
    ensures SeedFrom(st, ds[k..]) ==
      if HasTicker(st.rows, ds[k].ticker) then SeedFrom(st, ds[k + 1..])
      else SeedFrom(Store(st.rows + [FromCreate(st.nextId, ds[k])], st.nextId + 1), ds[k + 1..])
  {
    assert ds[k..][0] == ds[k] && ds[k..][1..] == ds[k + 1..];
  }

  /** Every dummy entry passes the `StockCreate` bounds, and no two share a ticker. */
  lemma DummyStocksValid()
    ensures forall k :: 0 <= k < |DummyStocks| ==> ValidCreate(DummyStocks[k])
    ensures DistinctTickers(DummyStocks)
  {
    assert DummyStocks[0].ticker[1] != DummyStocks[1].ticker[1];
    assert DummyStocks[0].ticker[2] != DummyStocks[2].ticker[2];
    assert DummyStocks[0].ticker[1] != DummyStocks[3].ticker[1];
    assert DummyStocks[1].ticker[1] != DummyStocks[2].ticker[1];
    assert DummyStocks[1].ticker[2] != DummyStocks[3].ticker[2];
    assert DummyStocks[2].ticker[1] != DummyStocks[3].ticker[1];
  }

  /** The rows already stored stay where they are and as they are; each
      added row carries a ticker of the list and a fresh id. */
  lemma {:induction false} SeedKeepsExisting(st: Store, ds: seq<StockCreate>)
    ensures var r := SeedFrom(st, ds);
      |st.rows| <= |r.rows| && r.rows[..|st.rows|] == st.rows && st.nextId <= r.nextId
      && forall j :: |st.rows| <= j < |r.rows| ==>
           st.nextId <= r.rows[j].id < r.nextId
           && exists k :: 0 <= k < |ds| && r.rows[j] == FromCreate(r.rows[j].id, ds[k])
    decreases |ds|
  {
    if ds != [] {
      var next := if HasTicker(st.rows, ds[0].ticker) then st
                  else Store(st.rows + [FromCreate(st.nextId, ds[0])], st.nextId + 1);
      SeedKeepsExisting(next, ds[1..]);
      var r := SeedFrom(st, ds);
      assert r == SeedFrom(next, ds[1..]);
      assert r.rows[..|next.rows|] == next.rows;
      assert r.rows[..|st.rows|] == next.rows[..|st.rows|];
      forall j | |st.rows| <= j < |r.rows|
        ensures exists k :: 0 <= k < |ds| && r.rows[j] == FromCreate(r.rows[j].id, ds[k])
      {
        if j < |next.rows| {
          assert r.rows[j] == next.rows[j] == FromCreate(st.nextId, ds[0]);
        } else {
          var k :| 0 <= k < |ds[1..]| && r.rows[j] == FromCreate(r.rows[j].id, ds[1..][k]);
          assert ds[1..][k] == ds[k + 1];
        }
      }
    }
  }

  /** A ticker some row holds is still held after more rows are appended. */
  lemma HasTickerPrefix(rows: seq<Stock>, longer: seq<Stock>, t: string)
    requires |rows| <= |longer| && longer[..|rows|] == rows && HasTicker(rows, t)
    ensures HasTicker(longer, t)
  {
    var i :| 0 <= i < |rows| && rows[i].ticker == t;
    assert longer[i] == rows[i];
  }

  /** After seeding, every ticker of the list is held by some row. */
  lemma {:induction false} SeedAllPresent(st: Store, ds: seq<StockCreate>)
    ensures forall k :: 0 <= k < |ds| ==> HasTicker(SeedFrom(st, ds).rows, ds[k].ticker)
    decreases |ds|
  {
    if ds != [] {
      var r := SeedFrom(st, ds);
      var next := if HasTicker(st.rows, ds[0].ticker) then st
                  else Store(st.rows + [FromCreate(st.nextId, ds[0])], st.nextId + 1);
      assert r == SeedFrom(next, ds[1..]);
      SeedAllPresent(next, ds[1..]);
      SeedKeepsExisting(next, ds[1..]);
      assert HasTicker(next.rows, ds[0].ticker) by {
        if !HasTicker(st.rows, ds[0].ticker) {
          assert next.rows[|st.rows|].ticker == ds[0].ticker;
        }
      }
      HasTickerPrefix(next.rows, r.rows, ds[0].ticker);
      forall k | 1 <= k < |ds| ensures HasTicker(r.rows, ds[k].ticker) {
        assert ds[1..][k - 1] == ds[k];
      }
    }
  }

  /** When every ticker of the list is already held, seeding changes nothing. */
  lemma {:induction false} SeedWhenAllPresent(st: Store, ds: seq<StockCreate>)
    requires forall k :: 0 <= k < |ds| ==> HasTicker(st.rows, ds[k].ticker)
    ensures SeedFrom(st, ds) == st
    decreases |ds|
  {
    if ds != [] {
      assert HasTicker(st.rows, ds[0].ticker);
      forall k | 0 <= k < |ds[1..]| ensures HasTicker(st.rows, ds[1..][k].ticker) {
        assert ds[1..][k] == ds[k + 1];
      }
      SeedWhenAllPresent(st, ds[1..]);
    }
  }

  /** Seeding twice leaves the store as seeding once does. */
  lemma SeedIdempotent(st: Store, ds: seq<StockCreate>)
    ensures SeedFrom(SeedFrom(st, ds), ds) == SeedFrom(st, ds)
  {
    SeedAllPresent(st, ds);
    SeedWhenAllPresent(SeedFrom(st, ds), ds);
  }

  lemma HasTickerAppend(rows: seq<Stock>, s: Stock, t: string)
    ensures HasTicker(rows + [s], t) <==> HasTicker(rows, t) || s.ticker == t
  {
    if HasTicker(rows, t) {
      var i :| 0 <= i < |rows| && rows[i].ticker == t;
      assert (rows + [s])[i] == rows[i];
    }
    if HasTicker(rows + [s], t) && !HasTicker(rows, t) {
      var i :| 0 <= i < |rows + [s]| && (rows + [s])[i].ticker == t;
      assert i == |rows|;
    }
    if s.ticker == t {
      assert (rows + [s])[|rows|] == s;
    }
  }

  /** Appending a row whose ticker the list does not mention does not change
      how many of the list's tickers are absent. */
  lemma {:induction false} CountAbsentAppend(rows: seq<Stock>, s: Stock, ds: seq<StockCreate>)
    requires forall k :: 0 <= k < |ds| ==> ds[k].ticker != s.ticker
    ensures CountAbsent(rows + [s], ds) == CountAbsent(rows, ds)
    decreases |ds|
  {
    if ds != [] {
      HasTickerAppend(rows, s, ds[0].ticker);
      forall k | 0 <= k < |ds[1..]| ensures ds[1..][k].ticker != s.ticker {
        assert ds[1..][k] == ds[k + 1];
      }
      CountAbsentAppend(rows, s, ds[1..]);
    }
  }

  /** With distinct tickers in the list, seeding adds exactly one row per
      ticker that was absent beforehand, and hands out that many ids. */
  lemma {:induction false} SeedAddsAbsent(st: Store, ds: seq<StockCreate>)
    requires DistinctTickers(ds)
    ensures |SeedFrom(st, ds).rows| == |st.rows| + CountAbsent(st.rows, ds)
    ensures SeedFrom(st, ds).nextId == st.nextId + CountAbsent(st.rows, ds)
    decreases |ds|
  {
    if ds != [] {
      var rest := ds[1..];
      assert DistinctTickers(rest) by {
        forall i, j | 0 <= i < j < |rest| ensures rest[i].ticker != rest[j].ticker {
          assert rest[i] == ds[i + 1] && rest[j] == ds[j + 1];
        }
      }
      if HasTicker(st.rows, ds[0].ticker) {
        SeedAddsAbsent(st, rest);
      } else {
        var s := FromCreate(st.nextId, ds[0]);
        forall k | 0 <= k < |rest| ensures rest[k].ticker != s.ticker {
          assert rest[k] == ds[k + 1];
        }
        CountAbsentAppend(st.rows, s, rest);
        SeedAddsAbsent(Store(st.rows + [s], st.nextId + 1), rest);
      }
    }
  }

  /** After `seed_stocks`, BBCA, BMRI, BBRI and BUMI are all present. */
  lemma DummyTickersPresent(st: Store)
    ensures var r := SeedFrom(st, DummyStocks).rows;
      HasTicker(r, "BBCA") && HasTicker(r, "BMRI") && HasTicker(r, "BBRI") && HasTicker(r, "BUMI")
  {
    SeedAllPresent(st, DummyStocks);
    assert DummyStocks[0].ticker == "BBCA" && DummyStocks[1].ticker == "BMRI";
    assert DummyStocks[2].ticker == "BBRI" && DummyStocks[3].ticker == "BUMI";
  }

  /** A store holding only a lower-case "bbca" row. */
  function LowercaseStore(): Store {
    Store([Stock(0, "bbca", "PT Bank Central Asia Tbk", None, None, None)], 1)
  }

  /** None of the four dummy tickers is held by the lower-case row. */
  lemma LowercaseStoreLacksDummies()
    ensures CountAbsent(LowercaseStore().rows, DummyStocks) == 4
  {
    var rows := LowercaseStore().rows;
    assert "bbca"[0] != "BBCA"[0] && "bbca"[0] != "BMRI"[0] && "bbca"[0] != "BBRI"[0] && "bbca"[0] != "BUMI"[0];
    assert !HasTicker(rows, "BBCA") && !HasTicker(rows, "BMRI");
    assert !HasTicker(rows, "BBRI") && !HasTicker(rows, "BUMI");
  }

  /** The existence check is exact: a stored "bbca" does not stop "BBCA" from
      being added, so all four dummy rows are appended. */
  lemma LowercaseDoesNotBlockSeeding()
    ensures var r := SeedFrom(LowercaseStore(), DummyStocks);
      |r.rows| == 5 && r.rows[0] == LowercaseStore().rows[0] && HasTicker(r.rows, "BBCA")
  {
    var st := LowercaseStore();
    DummyStocksValid();
    SeedAddsAbsent(st, DummyStocks);
    SeedKeepsExisting(st, DummyStocks);
    DummyTickersPresent(st);
    LowercaseStoreLacksDummies();
  }
}
