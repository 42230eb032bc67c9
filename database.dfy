/** The `stocks` table: the row record, the exact-match `first()` query on
    ticker, and a table object whose commits enforce what the database
    enforces (primary key on id, unique index on ticker, NOT NULL on ticker
    and name). Ids come from a counter where the source draws `uuid4()`. */
module Database {
  import opened Outcomes
  import opened Schema

  /** A committed row. */
  datatype Stock = Stock(
    id: nat,
    ticker: string,
    name: string,
    sector: Option<string>,
    currentPrice: Option<real>,
    description: Option<string>)

  /** `Stocks(**stock.model_dump())` with a given id. */
  function FromCreate(id: nat, c: StockCreate): Stock {
    Stock(id, c.ticker, c.name, c.sector, c.currentPrice, c.description)
  }

  /** A loaded row between `setattr` and commit: nothing stops Python from
      putting None into ticker or name there. */
  datatype PendingStock = PendingStock(
    id: nat,
    ticker: Option<string>,
    name: Option<string>,
    sector: Option<string>,
    currentPrice: Option<real>,
    description: Option<string>)

  function Pending(s: Stock): PendingStock {
    PendingStock(s.id, Some(s.ticker), Some(s.name), s.sector, s.currentPrice, s.description)
  }

  /** `setattr(stock, key, value)`. */
  function SetAttr(p: PendingStock, a: Assignment): PendingStock {
    match a
    case SetTicker(t) => p.(ticker := t)
    case SetName(n) => p.(name := n)
    case SetSector(s) => p.(sector := s)
    case SetCurrentPrice(c) => p.(currentPrice := c)
    case SetDescription(d) => p.(description := d)
  }

  /** The row a pending object becomes once it is flushed. */
  function Settle(p: PendingStock): Stock
    requires p.ticker.Some? && p.name.Some?
  {
    Stock(p.id, p.ticker.value, p.name.value, p.sector, p.currentPrice, p.description)
  }

  /** The `setattr` calls of one update, applied in order. */
  function SetAll(p: PendingStock, data: seq<Assignment>): PendingStock
    decreases |data|
  {
    if data == [] then p else SetAll(SetAttr(p, data[0]), data[1..])
  }

  /** The update a PATCH body means: every field the body carries takes the
      body's value (null included), every other field and the id keep theirs. */
  function Merge(p: PendingStock, u: StockUpdate): PendingStock {
    PendingStock(p.id, u.ticker.Or(p.ticker), u.name.Or(p.name), u.sector.Or(p.sector),
                 u.currentPrice.Or(p.currentPrice), u.description.Or(p.description))
  }

  lemma {:induction false} SetAllConcat(p: PendingStock, a: seq<Assignment>, b: seq<Assignment>)
    ensures SetAll(p, a + b) == SetAll(SetAll(p, a), b)
    decreases |a|
  {
    if a == [] {
      assert a + b == b;
    } else {
      assert (a + b)[0] == a[0] && (a + b)[1..] == a[1..] + b;
      SetAllConcat(SetAttr(p, a[0]), a[1..], b);
    }
  }

  /** Setting the dumped fields one by one is the field-by-field merge. */
  lemma SetAllIsMerge(p: PendingStock, u: StockUpdate)
    ensures SetAll(p, UpdateData(u)) == Merge(p, u)
  {
    var d1 := if u.ticker.Given? then [SetTicker(u.ticker.value)] else [];
    var d2 := if u.name.Given? then [SetName(u.name.value)] else [];
    var d3 := if u.sector.Given? then [SetSector(u.sector.value)] else [];
    var d4 := if u.currentPrice.Given? then [SetCurrentPrice(u.currentPrice.value)] else [];
    var d5 := if u.description.Given? then [SetDescription(u.description.value)] else [];
    assert UpdateData(u) == d1 + d2 + d3 + d4 + d5;
    SetAllConcat(p, d1 + d2 + d3 + d4, d5);
    SetAllConcat(p, d1 + d2 + d3, d4);
    SetAllConcat(p, d1 + d2, d3);
    SetAllConcat(p, d1, d2);
  }

  /** A stored row within the `StockBase` bounds (the ticker column is also
      declared with at most 10 characters). */
  predicate Conforms(s: Stock) {
    ValidFields(s.ticker, s.name, s.sector, s.currentPrice, s.description)
  }

  predicate AllConform(rows: seq<Stock>) {
    forall i :: 0 <= i < |rows| ==> Conforms(rows[i])
  }

  /** A valid create body makes a conforming row, whatever its id. */
  lemma FromCreateConforms(id: nat, c: StockCreate)
    requires ValidCreate(c)
    ensures Conforms(FromCreate(id, c)) && FromCreate(id, c).id == id
    ensures |FromCreate(id, c).ticker| <= 10
  {
  }

  /** A valid PATCH body applied to a conforming row gives a conforming row,
      once ticker and name are not null; the id never changes. */
  lemma MergeConforms(s: Stock, u: StockUpdate)
    requires Conforms(s) && ValidUpdate(u)
    requires Merge(Pending(s), u).ticker.Some? && Merge(Pending(s), u).name.Some?
    ensures Conforms(Settle(Merge(Pending(s), u)))
    ensures Settle(Merge(Pending(s), u)).id == s.id
  {
  }

  predicate UniqueTickers(rows: seq<Stock>) {
    forall i, j :: 0 <= i < j < |rows| ==> rows[i].ticker != rows[j].ticker
  }

  predicate UniqueIds(rows: seq<Stock>) {
    forall i, j :: 0 <= i < j < |rows| ==> rows[i].id != rows[j].id
  }

  predicate IdsBelow(rows: seq<Stock>, bound: nat) {
    forall i :: 0 <= i < |rows| ==> rows[i].id < bound
  }

  predicate HasTicker(rows: seq<Stock>, key: string) {
    exists i | 0 <= i < |rows| :: rows[i].ticker == key
  }

  /** Some row other than row `i` has ticker `key`. */
  predicate TickerTakenElsewhere(rows: seq<Stock>, key: string, i: nat) {
    exists j | 0 <= j < |rows| && j != i :: rows[j].ticker == key
  }

  function FindFrom(rows: seq<Stock>, key: string, from: nat): (r: Option<nat>)
    requires from <= |rows|
    ensures r.Some? ==> from <= r.value < |rows| && rows[r.value].ticker == key
    ensures r.Some? ==> forall j :: from <= j < r.value ==> rows[j].ticker != key
    ensures r.None? <==> forall j :: from <= j < |rows| ==> rows[j].ticker != key
    decreases |rows| - from
  {
    if from == |rows| then None
    else if rows[from].ticker == key then Some(from)
    else FindFrom(rows, key, from + 1)
  }

  /** `select(Stocks).where(Stocks.ticker == key).first()`, as an index into
      the rows in insertion order: the first row whose ticker is exactly `key`. */
  function FindFirst(rows: seq<Stock>, key: string): (r: Option<nat>)
    ensures r.Some? ==> r.value < |rows| && rows[r.value].ticker == key
    ensures r.Some? ==> forall j :: 0 <= j < r.value ==> rows[j].ticker != key
    ensures r.None? <==> !HasTicker(rows, key)
  {
    FindFrom(rows, key, 0)
  }

  /** Under the unique index the query finds exactly the row holding the key. */
  lemma FindFirstUnique(rows: seq<Stock>, i: nat)
    requires UniqueTickers(rows) && i < |rows|
    ensures FindFirst(rows, rows[i].ticker) == Some(i)
  {
    assert HasTicker(rows, rows[i].ticker);
  }

  /** Whether flushing `p` in place of row `i` passes NOT NULL on ticker and
      name and the unique index on ticker. */
  predicate Commits(rows: seq<Stock>, i: nat, p: PendingStock) {
    p.ticker.Some? && p.name.Some? && !TickerTakenElsewhere(rows, p.ticker.value, i)
  }

  lemma {:induction false} RemovePreservesUnique(rows: seq<Stock>, i: nat)
    requires i < |rows| && UniqueTickers(rows) && UniqueIds(rows)
    ensures var r := rows[..i] + rows[i + 1..];
      UniqueTickers(r) && UniqueIds(r) && |r| == |rows| - 1
      && forall j :: 0 <= j < |r| ==> r[j] == rows[if j < i then j else j + 1]
  {
    var r := rows[..i] + rows[i + 1..];
    assert forall j :: 0 <= j < |r| ==> r[j] == rows[if j < i then j else j + 1];
  }

  /** Under the unique index, removing the row that holds a ticker leaves no
      row holding it. */
  lemma RemoveDropsTicker(rows: seq<Stock>, i: nat)
    requires UniqueTickers(rows) && i < |rows|
    ensures !HasTicker(rows[..i] + rows[i + 1..], rows[i].ticker)
  {
    var r := rows[..i] + rows[i + 1..];
    forall j | 0 <= j < |r| ensures r[j].ticker != rows[i].ticker {
      assert r[j] == rows[if j < i then j else j + 1];
    }
  }

  /** Appending a conforming row keeps the table conforming. */
  lemma AppendKeepsConform(rows: seq<Stock>, s: Stock)
    requires AllConform(rows) && Conforms(s)
    ensures AllConform(rows + [s])
  {
  }

  /** Removing a row keeps the others conforming. */
  lemma RemoveKeepsConform(rows: seq<Stock>, i: nat)
    requires AllConform(rows) && i < |rows|
    ensures AllConform(rows[..i] + rows[i + 1..])
  {
    var r := rows[..i] + rows[i + 1..];
    assert forall j :: 0 <= j < |r| ==> r[j] == rows[if j < i then j else j + 1];
  }

  /** The table as the session sees it: the committed rows in insertion order
      and the next id to hand out. */
  class StockTable {
    var rows: seq<Stock>
    var nextId: nat

    ghost predicate Valid()
      reads this
    {
      UniqueTickers(rows) && UniqueIds(rows) && IdsBelow(rows, nextId)
    }

    constructor ()
      ensures Valid() && rows == [] && nextId == 0
    {
      rows := [];
      nextId := 0;
    }

    /** `Stocks(**fields)`: a new object whose id the default factory fills in;
        nothing is stored yet. */
    method NewStock(c: StockCreate) returns (s: Stock)
      requires Valid()
      modifies this`nextId
      ensures Valid() && nextId == old(nextId) + 1
      ensures s == FromCreate(old(nextId), c)
      ensures s.id < nextId && forall i :: 0 <= i < |rows| ==> rows[i].id != s.id
    {
      s := FromCreate(nextId, c);
      nextId := nextId + 1;
    }

    /** `session.add(s)` then commit: the unique index refuses a second row
        with the same ticker, and then nothing is stored. */
    method Insert(s: Stock) returns (ok: bool)
      requires Valid()
      requires s.id < nextId && forall i :: 0 <= i < |rows| ==> rows[i].id != s.id
      modifies this`rows
      ensures Valid()
      ensures ok <==> !HasTicker(old(rows), s.ticker)
      ensures rows == if ok then old(rows) + [s] else old(rows)
    {
      ok := FindFirst(rows, s.ticker).None?;
      if ok {
        rows := rows + [s];
      }
    }

    /** Commit of row `i` after `setattr`: either every constraint holds and
        the row becomes `Settle(p)`, or the commit raises and nothing changes. */
    method CommitUpdate(i: nat, p: PendingStock) returns (r: Option<Stock>)
      requires Valid() && i < |rows| && p.id == rows[i].id
      modifies this`rows
      ensures Valid()
      ensures r.Some? <==> Commits(old(rows), i, p)
      ensures r.Some? ==> r.value == Settle(p) && rows == old(rows)[i := r.value]
      ensures r.None? ==> rows == old(rows)
    {
      if p.ticker.None? || p.name.None? || TickerTakenElsewhere(rows, p.ticker.value, i) {
        return None;
      }
      var s := Settle(p);
      rows := rows[i := s];
      r := Some(s);
    }

    /** `session.delete(row i)` then commit. */
    method Delete(i: nat)
      requires Valid() && i < |rows|
      modifies this`rows
      ensures Valid()
      ensures rows == old(rows)[..i] + old(rows)[i + 1..]
    {
      RemovePreservesUnique(rows, i);
      rows := rows[..i] + rows[i + 1..];
    }
  }
}
