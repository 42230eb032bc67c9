/** The request and response shapes of the stock API and the field bounds
    the schema layer enforces before a handler runs (a body that breaks a
    bound is answered with 422 and never reaches the handler). Prices are
    `real`s: only their sign is ever inspected. */
module Schema {
  import opened Outcomes

  /** `StockCreate` (= `StockBase`): ticker and name are required, the other
      fields default to None. */
  datatype StockCreate = StockCreate(
    ticker: string,
    name: string,
    sector: Option<string>,
    currentPrice: Option<real>,
    description: Option<string>)

  /** A create body carrying only the required fields. */
  function MinimalCreate(ticker: string, name: string): StockCreate {
    StockCreate(ticker, name, None, None, None)
  }

  /** A field of a PATCH body: absent from the JSON, or given (possibly as null). */
  datatype Field<+T> = Unset | Given(value: T) {
    function Or(current: T): T {
      if Given? then value else current
    }
  }

  /** `StockUpdate`: every field optional, and each may be sent as null. */
  datatype StockUpdate = StockUpdate(
    ticker: Field<Option<string>>,
    name: Field<Option<string>>,
    sector: Field<Option<string>>,
    currentPrice: Field<Option<real>>,
    description: Field<Option<string>>)

  /** `StockResponse`: the `StockBase` fields plus the id. */
  datatype StockResponse = StockResponse(
    id: nat,
    ticker: string,
    name: string,
    sector: Option<string>,
    currentPrice: Option<real>,
    description: Option<string>)

  /** `StockList`: one page of responses with the paging echo. */
  datatype StockList = StockList(stocks: seq<StockResponse>, total: int, page: int, pageSize: int)

  predicate LengthWithin(s: string, lo: nat, hi: nat) {
    lo <= |s| <= hi
  }

  /** `Optional[str] = Field(None, max_length=hi)`: None, or at most `hi` characters. */
  predicate OptionalMaxLength(s: Option<string>, hi: nat) {
    s.None? || |s.value| <= hi
  }

  /** `Optional[float] = Field(None, gt=0)`. */
  predicate OptionalPositive(p: Option<real>) {
    p.None? || p.value > 0.0
  }

  /** The `StockBase` bounds on one set of field values. */
  predicate ValidFields(ticker: string, name: string, sector: Option<string>,
                        currentPrice: Option<real>, description: Option<string>) {
    && LengthWithin(ticker, 1, 10)
    && LengthWithin(name, 1, 255)
    && OptionalMaxLength(sector, 100)
    && OptionalPositive(currentPrice)
    && OptionalMaxLength(description, 1000)
  }

  predicate ValidCreate(c: StockCreate) {
    ValidFields(c.ticker, c.name, c.sector, c.currentPrice, c.description)
  }

  predicate ValidResponse(r: StockResponse) {
    ValidFields(r.ticker, r.name, r.sector, r.currentPrice, r.description)
  }

  /** A given, non-null string field obeys the `StockBase` length bounds. */
  predicate GivenStringWithin(f: Field<Option<string>>, lo: nat, hi: nat) {
    f.Given? && f.value.Some? ==> LengthWithin(f.value.value, lo, hi)
  }

  /** `StockUpdate` bounds: each field that is given and not null obeys the
      bound `StockBase` puts on it; null passes, as `Optional` lets it. */
  predicate ValidUpdate(u: StockUpdate) {
    && GivenStringWithin(u.ticker, 1, 10)
    && GivenStringWithin(u.name, 1, 255)
    && GivenStringWithin(u.sector, 0, 100)
    && (u.currentPrice.Given? ==> OptionalPositive(u.currentPrice.value))
    && GivenStringWithin(u.description, 0, 1000)
  }

  /** One `(key, value)` pair of `stock_update.model_dump(exclude_unset=True)`. */
  datatype Assignment =
    | SetTicker(ticker: Option<string>)
    | SetName(name: Option<string>)
    | SetSector(sector: Option<string>)
    | SetCurrentPrice(currentPrice: Option<real>)
    | SetDescription(description: Option<string>)

  /** How many fields of the body are set. */
  function GivenCount(u: StockUpdate): nat {
    (if u.ticker.Given? then 1 else 0) + (if u.name.Given? then 1 else 0)
    + (if u.sector.Given? then 1 else 0) + (if u.currentPrice.Given? then 1 else 0)
    + (if u.description.Given? then 1 else 0)
  }

  /** `model_dump(exclude_unset=True)`: the given fields, in declaration order. */
  function UpdateData(u: StockUpdate): (data: seq<Assignment>)
    ensures |data| == GivenCount(u)
    ensures forall t :: SetTicker(t) in data <==> u.ticker == Given(t)
    ensures forall n :: SetName(n) in data <==> u.name == Given(n)
    ensures forall t :: SetSector(t) in data <==> u.sector == Given(t)
    ensures forall p :: SetCurrentPrice(p) in data <==> u.currentPrice == Given(p)
    ensures forall t :: SetDescription(t) in data <==> u.description == Given(t)
  {
    var d1 := if u.ticker.Given? then [SetTicker(u.ticker.value)] else [];
    var d2 := if u.name.Given? then [SetName(u.name.value)] else [];
    var d3 := if u.sector.Given? then [SetSector(u.sector.value)] else [];
    var d4 := if u.currentPrice.Given? then [SetCurrentPrice(u.currentPrice.value)] else [];
    var d5 := if u.description.Given? then [SetDescription(u.description.value)] else [];
    assert forall a :: a in d1 + d2 + d3 + d4 + d5 <==> a in d1 || a in d2 || a in d3 || a in d4 || a in d5;
    d1 + d2 + d3 + d4 + d5
  }

  /** A create body with only ticker and name is valid exactly when those two are. */
  lemma MinimalCreateValid(ticker: string, name: string)
    ensures ValidCreate(MinimalCreate(ticker, name))
            <==> 1 <= |ticker| <= 10 && 1 <= |name| <= 255
  {
  }

  /** A price that is zero or negative is refused, whatever the other fields are. */
  lemma NonPositivePriceRejected(c: StockCreate)
    requires c.currentPrice.Some? && c.currentPrice.value <= 0.0
    ensures !ValidCreate(c)
  {
  }

  /** The empty PATCH body is valid and dumps to no assignments. */
  lemma EmptyUpdateValid()
    ensures ValidUpdate(StockUpdate(Unset, Unset, Unset, Unset, Unset))
    ensures UpdateData(StockUpdate(Unset, Unset, Unset, Unset, Unset)) == []
  {
  }
}
