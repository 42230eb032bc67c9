/** `normalize_ticker`, `check_ticker_exists` and `get_stock_or_404`: the
    lookups by normalised ticker, as functions over the table's rows. */
module StockHelpers {
  import opened Outcomes
  import opened AsciiText
  import opened Database

  /** `ticker.upper().strip()`. */
  function NormalizeTicker(ticker: string): (r: string)
    ensures NoLower(r) && NoOuterSpace(r)
    ensures |r| <= |ticker|
  {
    Strip(Upper(ticker))
  }

  /** A ticker already in normal form: no lower-case letter, no outer whitespace. */
  predicate IsNormal(ticker: string) {
    NoLower(ticker) && NoOuterSpace(ticker)
  }

  /** The normal forms are exactly the tickers normalisation leaves alone. */
  lemma NormalFormFixed(ticker: string)
    ensures IsNormal(ticker) <==> NormalizeTicker(ticker) == ticker
  {
    if IsNormal(ticker) {
      UpperOfNoLower(ticker);
    }
  }

  /** Normalising twice gives what normalising once gives. */
  lemma NormalizeIdempotent(ticker: string)
    ensures NormalizeTicker(NormalizeTicker(ticker)) == NormalizeTicker(ticker)
  {
    UpperOfNoLower(NormalizeTicker(ticker));
  }

  /** Whitespace around a ticker is ignored. */
  lemma NormalizeIgnoresPadding(p: string, ticker: string, q: string)
    requires AllSpace(p) && AllSpace(q)
    ensures NormalizeTicker(p + ticker + q) == NormalizeTicker(ticker)
  {
    UpperConcat(p + ticker, q);
    UpperConcat(p, ticker);
    UpperOfSpaces(p);
    UpperOfSpaces(q);
    StripAround(p, Upper(ticker), q);
  }

  /** A ticker without outer whitespace is only upper-cased: inner spaces,
      digits and other characters stay where they are. */
  lemma NormalizeKeepsInside(ticker: string)
    requires NoOuterSpace(ticker)
    ensures NormalizeTicker(ticker) == Upper(ticker)
  {
    var u := Upper(ticker);
    assert NoOuterSpace(u) by {
      if u != [] {
        assert IsSpace(u[0]) <==> IsSpace(ticker[0]);
        assert IsSpace(u[|u| - 1]) <==> IsSpace(ticker[|ticker| - 1]);
      }
    }
  }

  /** `b` is the capital of the lower-case letter `a`. */
  predicate CapitalOf(a: char, b: char) {
    IsLower(a) && b as int == a as int - 32
  }

  /** `s` and `t` differ at most in the case of their letters. */
  predicate SameUpToCase(s: string, t: string) {
    |s| == |t|
    && forall i :: 0 <= i < |s| ==> s[i] == t[i] || CapitalOf(s[i], t[i]) || CapitalOf(t[i], s[i])
  }

  /** Tickers that differ only in the case of their letters normalise alike. */
  lemma CaseVariantsNormaliseAlike(s: string, t: string)
    requires SameUpToCase(s, t)
    ensures NormalizeTicker(s) == NormalizeTicker(t)
  {
    var us, ut := Upper(s), Upper(t);
    forall i | 0 <= i < |s| ensures us[i] == ut[i] {
      assert us[i] == UpperChar(s[i]) && ut[i] == UpperChar(t[i]);
    }
    assert us == ut;
  }

  /** Case variants of one ticker normalise to the same upper-case form. */
  lemma NormalizeCaseExamples()
    ensures NormalizeTicker("bbca") == "BBCA"
    ensures NormalizeTicker("BbCa") == "BBCA"
    ensures NormalizeTicker("BBCA") == "BBCA"
  {
    assert Upper("bbca") == "BBCA" by {
      var u := Upper("bbca");
      assert u[0] == UpperChar('b') && u[1] == UpperChar('b') && u[2] == UpperChar('c') && u[3] == UpperChar('a');
    }
    assert Upper("BbCa") == "BBCA" by {
      var u := Upper("BbCa");
      assert u[0] == UpperChar('B') && u[1] == UpperChar('b') && u[2] == UpperChar('C') && u[3] == UpperChar('a');
    }
    UpperOfNoLower("BBCA");
    assert NoOuterSpace("BBCA");
  }

  /** Outer whitespace goes. */
  lemma NormalizePaddedExample()
    ensures NormalizeTicker("  bbca  ") == "BBCA"
  {
    NormalizeCaseExamples();
    assert "  bbca  " == "  " + "bbca" + "  ";
    NormalizeIgnoresPadding("  ", "bbca", "  ");
  }

  /** Inner whitespace stays. */
  lemma NormalizeInnerSpaceExample()
    ensures NormalizeTicker("bb ca") == "BB CA"
  {
    assert Upper("bb ca") == "BB CA" by {
      var u := Upper("bb ca");
      assert u[0] == UpperChar('b') && u[1] == UpperChar('b') && u[2] == UpperChar(' ')
          && u[3] == UpperChar('c') && u[4] == UpperChar('a');
    }
    assert NoOuterSpace("BB CA");
  }

  /** Digits stay, and "" stays "". */
  lemma NormalizeDigitsExample()
    ensures NormalizeTicker("test123") == "TEST123"
    ensures NormalizeTicker("") == ""
  {
    assert Upper("test123") == "TEST123" by {
      var u := Upper("test123");
      assert u[0] == UpperChar('t') && u[1] == UpperChar('e') && u[2] == UpperChar('s')
          && u[3] == UpperChar('t') && u[4] == UpperChar('1') && u[5] == UpperChar('2')
          && u[6] == UpperChar('3');
    }
    assert NoOuterSpace("TEST123");
  }

  /** `check_ticker_exists(session, ticker)`. */
  function CheckTickerExists(rows: seq<Stock>, ticker: string): (b: bool)
    ensures b <==> exists i :: 0 <= i < |rows| && rows[i].ticker == NormalizeTicker(ticker)
  {
    FindFirst(rows, NormalizeTicker(ticker)).Some?
  }

  /** `get_stock_or_404(session, ticker)`: the first row whose ticker is the
      normalised one, or a 404 naming the normalised ticker. */
  function GetStockOr404(rows: seq<Stock>, ticker: string): (r: Result<Stock>)
    ensures r.Ok? <==> CheckTickerExists(rows, ticker)
    ensures r.Ok? ==> r.value in rows && r.value.ticker == NormalizeTicker(ticker)
    ensures r.Ok? ==> r.value == rows[FindFirst(rows, NormalizeTicker(ticker)).value]
    ensures r.Err? ==> r.error == HttpError(NotFound, NotFoundDetail(NormalizeTicker(ticker)))
  {
    var normalized := NormalizeTicker(ticker);
    match FindFirst(rows, normalized)
    case None => Err(HttpError(NotFound, NotFoundDetail(normalized)))
    case Some(i) => Ok(rows[i])
  }

  /** The 404 of `get_stock_or_404` names the normalised ticker and says "not found". */
  lemma NotFoundNamesNormalizedTicker(rows: seq<Stock>, ticker: string)
    requires GetStockOr404(rows, ticker).Err?
    ensures GetStockOr404(rows, ticker).error.status == NotFound
    ensures Contains(GetStockOr404(rows, ticker).error.detail, NormalizeTicker(ticker))
    ensures Contains(GetStockOr404(rows, ticker).error.detail, "not found")
  {
    NotFoundDetailNames(NormalizeTicker(ticker));
  }

  /** Under the unique index, the row found is the one row holding the
      normalised ticker. */
  lemma GetStockOr404Unique(rows: seq<Stock>, ticker: string, i: nat)
    requires UniqueTickers(rows) && i < |rows| && rows[i].ticker == NormalizeTicker(ticker)
    ensures GetStockOr404(rows, ticker) == Ok(rows[i])
  {
    FindFirstUnique(rows, i);
  }

  /** A row stored as "BBCA" is found through every case and padding variant. */
  lemma VariantsFindTheSameRow(rows: seq<Stock>, i: nat)
    requires UniqueTickers(rows) && i < |rows| && rows[i].ticker == "BBCA"
    ensures GetStockOr404(rows, "bbca") == Ok(rows[i])
    ensures GetStockOr404(rows, "BbCa") == Ok(rows[i])
    ensures GetStockOr404(rows, "  bbca  ") == Ok(rows[i])
  {
    NormalizeCaseExamples();
    NormalizePaddedExample();
    GetStockOr404Unique(rows, "bbca", i);
    GetStockOr404Unique(rows, "BbCa", i);
    GetStockOr404Unique(rows, "  bbca  ", i);
  }
}
