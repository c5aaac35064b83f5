/**
 * The shared back half of both scripts, once a holdings table and a shares
 * outstanding value are in hand: clean the table in place, re-coerce Market
 * Value, pick the top 10 equities, fetch the FX rates, value every row and
 * decide between a published NAV and `ERROR`.
 */
module Pipeline {
  import opened Wrappers
  import opened Normalizer
  import opened Holdings
  import opened TopHoldings
  import opened Valuation
  import opened Nav

  /** The rows the valuation loop walks: the cleaned rows with Market Value coerced once more. */
  function ValuationRows(t: Table): seq<Row>
    requires KeyColumns <= t.columns
  {
    var cleaned := CleanRows(t);
    if MarketValue in t.columns then MapColumn(cleaned, MarketValue, ToNumeric) else cleaned
  }

  /** The decision taken on the valued rows. */
  function Outcome(rows: seq<Row>, shares: Option<real>, rates: Rates, quotes: map<string, Quote>): NavOutcome {
    var acc := ValueAll(rows, rates, quotes);
    Decide(acc.total, shares, acc.missing)
  }

  /**
   * The outcome for a table: a table without the four key columns fails in
   * `dropna`, which is fatal (`ERROR`); otherwise the valued rows decide.
   */
  function NavFor(t: Table, shares: Option<real>, rates: Rates, quotes: map<string, Quote>): NavOutcome {
    if KeyColumns <= t.columns then Outcome(ValuationRows(t), shares, rates, quotes) else Error
  }

  /** The top-10 list the run computes; empty when cleaning failed. */
  function TopTenFor(t: Table): seq<Value> {
    if KeyColumns <= t.columns then TopTen(t.columns, ValuationRows(t)) else []
  }

  /** What a run reports: the result file's content, the exit status and the top-10 list. */
  datatype Report = Report(result: NavOutcome, exitCode: int, topTen: seq<Value>)

  /** The report of a run that stopped at a fatal error: `ERROR`, exit status 1, no top 10. */
  const Fatal := Report(Error, 1, [])

  /**
   * Cleaning, top 10, FX rates, valuation and decision, in the order the
   * scripts run them, on a frame that is cleaned in place.
   */
  method Evaluate(t: Table, shares: Option<real>, eur: FxFetch, gbp: FxFetch, quotes: map<string, Quote>)
    returns (report: Report)
    ensures report.result == NavFor(t, shares, FetchRates(eur, gbp), quotes)
    ensures report.exitCode == ExitCode(report.result)
    ensures report.topTen == TopTenFor(t)
    ensures !(KeyColumns <= t.columns) ==> report == Fatal
  {
    var frame := new HoldingsFrame(t);
    var ok := frame.Clean();
    if !ok {
      return Fatal;
    }
    if MarketValue in frame.columns {
      frame.CoerceColumn(MarketValue);
    }
    var top := TopTen(frame.columns, frame.rows);
    var rates := FetchRates(eur, gbp);
    var total, missing := Valuate(frame.rows, rates, quotes);
    var result := Decide(total, shares, missing);
    report := Report(result, ExitCode(result), top);
  }

  /** The second coercion of Market Value finds only numbers and nulls, so it changes nothing. */
  lemma MarketValueRecoercionIsNoOp(t: Table)
    requires KeyColumns <= t.columns
    ensures ValuationRows(t) == CleanRows(t)
  {
    if MarketValue in t.columns {
      var cleaned := CleanRows(t);
      var r := MapColumn(cleaned, MarketValue, ToNumeric);
      CleanRowsExactly(t);
      assert MarketValue in NumericColumns by {
        assert NumericColumns[0] == MarketValue;
      }
      NormalizedHasNoText(t.rows, NumericColumns, t.columns, MarketValue);
      forall i | 0 <= i < |cleaned|
        ensures r[i] == cleaned[i]
      {
        assert cleaned[i] in cleaned;
        if MarketValue in cleaned[i] {
          assert !cleaned[i][MarketValue].Str?;
          assert r[i] == cleaned[i][MarketValue := cleaned[i][MarketValue]];
        }
      }
    }
  }

  /**
   * All or nothing: a NAV is published exactly when the key columns exist,
   * shares outstanding is positive and no row was left unvalued; the published
   * NAV times the shares is the total value of the holdings.
   */
  lemma NavAllOrNothing(t: Table, shares: Option<real>, rates: Rates, quotes: map<string, Quote>)
    ensures NavFor(t, shares, rates, quotes).Published? <==>
      && KeyColumns <= t.columns
      && shares.Some? && shares.value > 0.0
      && forall i :: 0 <= i < |CleanRows(t)| ==> !ValueRow(CleanRows(t)[i], rates, quotes).Unvalued?
    ensures NavFor(t, shares, rates, quotes).Published? ==>
      NavFor(t, shares, rates, quotes).nav * shares.value == ValueAll(CleanRows(t), rates, quotes).total
  {
    if KeyColumns <= t.columns {
      MarketValueRecoercionIsNoOp(t);
      NoMissingIffAllValued(CleanRows(t), rates, quotes);
    }
  }

  /** The decision does not depend on the order in which the valued rows come. */
  lemma OutcomeIgnoresRowOrder(a: seq<Row>, b: seq<Row>, shares: Option<real>, rates: Rates, quotes: map<string, Quote>)
    requires multiset(a) == multiset(b)
    ensures Outcome(a, shares, rates, quotes) == Outcome(b, shares, rates, quotes)
  {
    ValueAllReorder(a, b, rates, quotes);
    var ma, mb := ValueAll(a, rates, quotes).missing, ValueAll(b, rates, quotes).missing;
    assert |ma| == |multiset(ma)| == |multiset(mb)| == |mb|;
  }

  /** The NAV does not depend on the order of the holdings rows in the file. */
  lemma NavIgnoresRowOrder(t: Table, u: Table, shares: Option<real>, rates: Rates, quotes: map<string, Quote>)
    requires t.columns == u.columns && multiset(t.rows) == multiset(u.rows)
    ensures NavFor(t, shares, rates, quotes) == NavFor(u, shares, rates, quotes)
  {
    if KeyColumns <= t.columns {
      CleanRowsReorder(t, u);
      MarketValueRecoercionIsNoOp(t);
      MarketValueRecoercionIsNoOp(u);
      OutcomeIgnoresRowOrder(CleanRows(t), CleanRows(u), shares, rates, quotes);
    }
  }

  // Worked examples over cleaned rows.

  const AppleEquity: Row := map[Ticker := Str("AAPL"), Shares := Num(100.0), MarketCurrency := Str("USD"), AssetClass := Str("Equity")]
  const UsdCash: Row := map[Ticker := Str("USD"), Shares := Num(500.0), MarketCurrency := Str("USD"), AssetClass := Str("Cash"), MarketValue := Num(500.0)]
  const YenCash: Row := map[Ticker := Str("JPY"), Shares := Num(800.0), MarketCurrency := Str("JPY"), AssetClass := Str("Cash"), MarketValue := Num(800.0)]
  const ApplePriced: map<string, Quote> := map["AAPL" := Quote(Some(150.0), None, None)]

  /** 100 shares at 150.00 plus 500 USD of cash over 1000 shares outstanding publishes 15.5. */
  lemma PricedEquityAndUsdCashPublish(rates: Rates)
    ensures Outcome([AppleEquity, UsdCash], Some(1000.0), rates, ApplePriced) == Published(15.5)
  {
    assert ValueAll([], rates, ApplePriced) == Acc(0.0, []);
    ValueAllSnoc([], AppleEquity, rates, ApplePriced);
    assert [] + [AppleEquity] == [AppleEquity];
    assert ValueRow(AppleEquity, rates, ApplePriced) == Valued(15000.0);
    ValueAllSnoc([AppleEquity], UsdCash, rates, ApplePriced);
    assert [AppleEquity] + [UsdCash] == [AppleEquity, UsdCash];
    assert ValueRow(UsdCash, rates, ApplePriced) == Valued(500.0);
  }

  /** When the AAPL lookup fails the run is `ERROR`, although the cash alone is worth 500. */
  lemma UnpricedEquityIsError(rates: Rates)
    ensures ValueAll([AppleEquity, UsdCash], rates, map[]) == Acc(500.0, [MissingTicker(Str("AAPL"))])
    ensures Outcome([AppleEquity, UsdCash], Some(1000.0), rates, map[]) == Error
  {
    assert ValueAll([], rates, map[]) == Acc(0.0, []);
    ValueAllSnoc([], AppleEquity, rates, map[]);
    assert [] + [AppleEquity] == [AppleEquity];
    assert ValueRow(AppleEquity, rates, map[]) == Unvalued(MissingTicker(Str("AAPL")));
    ValueAllSnoc([AppleEquity], UsdCash, rates, map[]);
    assert [AppleEquity] + [UsdCash] == [AppleEquity, UsdCash];
    assert ValueRow(UsdCash, rates, map[]) == Valued(500.0);
  }

  /** Cash in an unsupported currency is always missing and adds nothing, whatever the FX rates. */
  lemma UnsupportedCurrencyAlwaysMissing(rates: Rates, quotes: map<string, Quote>)
    ensures ValueAll([YenCash], rates, quotes) == Acc(0.0, [MissingCash(Str("JPY"))])
    ensures Outcome([YenCash], Some(1000.0), rates, quotes) == Error
  {
    ValueAllSnoc([], YenCash, rates, quotes);
    assert [] + [YenCash] == [YenCash];
  }
}
