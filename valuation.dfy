/**
 * The valuation pass shared by both scripts: every cleaned row, in table order,
 * is valued in USD (equities at a live price, cash through an FX rate) or
 * recorded as missing. Price and FX lookups are given as inputs.
 */
module Valuation {
  import opened Wrappers
  import opened Normalizer
  import opened Holdings
  import opened Permutations

  /** What the market-data lookup yields for one ticker, or that it raised. */
  datatype Quote =
    | Quote(currentPrice: Option<real>, regularMarketPrice: Option<real>, lastClose: Option<real>)
    | LookupFails

  /** One FX history lookup: it raised, it came back empty, or it gave a last close. */
  datatype FxFetch = FxFails | NoHistory | Close(rate: real)

  datatype Rates = Rates(eur: Option<real>, gbp: Option<real>)

  /**
   * Both FX lookups sit in one `try`: when the EUR lookup raises, the GBP rate is
   * never fetched and stays unset.
   */
  function FetchRates(eur: FxFetch, gbp: FxFetch): (r: Rates)
    ensures r.eur.Some? <==> eur.Close?
    ensures r.eur.Some? ==> r.eur.value == eur.rate
    ensures r.gbp.Some? <==> !eur.FxFails? && gbp.Close?
    ensures r.gbp.Some? ==> r.gbp.value == gbp.rate
  {
    if eur.FxFails? then Rates(None, None)
    else
      Rates(if eur.Close? then Some(eur.rate) else None,
            if gbp.Close? then Some(gbp.rate) else None)
  }

  /**
   * `info.get('currentPrice') or info.get('regularMarketPrice')`, then the last
   * daily close when that is still None. A current price of 0 is falsy and
   * gives way to the regular market price.
   */
  function QuotedPrice(q: Quote): (p: Option<real>)
    ensures q.LookupFails? ==> p.None?
    ensures q.Quote? && q.currentPrice.Some? && q.currentPrice.value != 0.0 ==> p == q.currentPrice
    ensures q.Quote? && p.Some? ==> p == q.currentPrice || p == q.regularMarketPrice || p == q.lastClose
    ensures q.Quote? && p.None? ==> q.regularMarketPrice.None? && q.lastClose.None?
    ensures q.Quote? && !(q.currentPrice.Some? && q.currentPrice.value != 0.0) ==>
      p == (if q.regularMarketPrice.Some? then q.regularMarketPrice else q.lastClose)
  {
    match q
    case LookupFails => None
    case Quote(current, regular, close) =>
      var first := if current.Some? && current.value != 0.0 then current else regular;
      if first.Some? then first else close
  }

  /** The lookup for a ticker; a ticker the provider does not know raises. */
  function QuoteFor(quotes: map<string, Quote>, ticker: string): Quote {
    if ticker in quotes then quotes[ticker] else LookupFails
  }

  /** An entry of the missing list: `str(ticker)` or `"{currency} Cash"`. */
  datatype Missing = MissingTicker(ticker: Value) | MissingCash(currency: Value)

  /** What one row contributes. */
  datatype RowValue = Skipped | Valued(usd: real) | Unvalued(item: Missing)

  /** The default `row.get` gives for a column the row lacks. */
  const NotAvailable: Value := Str("N/A")

  /** A ticker that may be looked up: a string of at most 10 characters with no space. */
  predicate ValidTicker(t: Value) {
    t.Str? && |t.s| <= 10 && ' ' !in t.s
  }

  /** The case analysis of the loop body for one row. */
  function ValueRow(row: Row, rates: Rates, quotes: map<string, Quote>): (r: RowValue)
    // a row is passed over exactly in the cases the loop skips
    ensures r.Skipped? <==>
      var assetClass := Lookup(row, AssetClass, NotAvailable);
      || !Lookup(row, Shares, Null).Num?
      || Lookup(row, Ticker, NotAvailable) == NotAvailable
      || Lookup(row, MarketCurrency, NotAvailable) == NotAvailable
      || assetClass == NotAvailable
      || (assetClass == Str("Equity") && !ValidTicker(Lookup(row, Ticker, NotAvailable)))
      || (assetClass == Str("Cash") && !Lookup(row, MarketValue, Null).Num?)
      || (assetClass != Str("Equity") && assetClass != Str("Cash"))
    // only a row with shares, ticker, currency and asset class set, of class Equity or Cash, counts
    ensures !r.Skipped? ==>
      && Lookup(row, Shares, Null).Num?
      && Lookup(row, Ticker, NotAvailable) != NotAvailable
      && Lookup(row, MarketCurrency, NotAvailable) != NotAvailable
      && Lookup(row, AssetClass, NotAvailable) in {Str("Equity"), Str("Cash")}
    // an equity counts at shares times its quoted price, or is missing under its ticker
    ensures !r.Skipped? && Lookup(row, AssetClass, NotAvailable) == Str("Equity") ==>
      var ticker := Lookup(row, Ticker, NotAvailable);
      && ValidTicker(ticker)
      && (r.Valued? <==> QuotedPrice(QuoteFor(quotes, ticker.s)).Some?)
      && (r.Valued? ==> r.usd == Lookup(row, Shares, Null).x * QuotedPrice(QuoteFor(quotes, ticker.s)).value)
      && (r.Unvalued? ==> r.item == MissingTicker(ticker))
    // cash counts at its market value converted to USD, or is missing under its currency
    ensures !r.Skipped? && Lookup(row, AssetClass, NotAvailable) == Str("Cash") ==>
      var currency := Lookup(row, MarketCurrency, NotAvailable);
      var rate := if currency == Str("USD") then Some(1.0)
                  else if currency == Str("EUR") then rates.eur
                  else if currency == Str("GBP") then rates.gbp
                  else None;
      && Lookup(row, MarketValue, Null).Num?
      && (r.Valued? <==> rate.Some?)
      && (r.Valued? ==> r.usd == Lookup(row, MarketValue, Null).x * rate.value)
      && (r.Unvalued? ==> r.item == MissingCash(currency))
  {
    var ticker := Lookup(row, Ticker, NotAvailable);
    var shares := Lookup(row, Shares, Null);
    var currency := Lookup(row, MarketCurrency, NotAvailable);
    var assetClass := Lookup(row, AssetClass, NotAvailable);
    if !shares.Num? || ticker == NotAvailable || currency == NotAvailable || assetClass == NotAvailable then Skipped
    else if assetClass == Str("Equity") then
      if !ValidTicker(ticker) then Skipped
      else
        var price := QuotedPrice(QuoteFor(quotes, ticker.s));
        if price.Some? then Valued(shares.x * price.value) else Unvalued(MissingTicker(ticker))
    else if assetClass == Str("Cash") then
      var amount := Lookup(row, MarketValue, Null);
      if !amount.Num? then Skipped
      else if currency == Str("USD") then Valued(amount.x)
      else if currency == Str("EUR") then
        if rates.eur.Some? then Valued(amount.x * rates.eur.value) else Unvalued(MissingCash(currency))
      else if currency == Str("GBP") then
        if rates.gbp.Some? then Valued(amount.x * rates.gbp.value) else Unvalued(MissingCash(currency))
      else Unvalued(MissingCash(currency))
    else Skipped
  }

  /** The running total in USD and the missing list. */
  datatype Acc = Acc(total: real, missing: seq<Missing>)

  function Apply(acc: Acc, v: RowValue): Acc {
    match v
    case Skipped => acc
    case Valued(usd) => Acc(acc.total + usd, acc.missing)
    case Unvalued(item) => Acc(acc.total, acc.missing + [item])
  }

  /** What each row contributes, in table order. */
  function Contributions(rows: seq<Row>, rates: Rates, quotes: map<string, Quote>): (r: seq<RowValue>)
    ensures |r| == |rows|
    ensures forall i :: 0 <= i < |rows| ==> r[i] == ValueRow(rows[i], rates, quotes)
  {
    seq(|rows|, i requires 0 <= i < |rows| => ValueRow(rows[i], rates, quotes))
  }

  /** The accumulator after the contributions, folded left to right from a zero total and no missing entries. */
  function Fold(vs: seq<RowValue>): Acc {
    if vs == [] then Acc(0.0, []) else Apply(Fold(vs[..|vs| - 1]), vs[|vs| - 1])
  }

  /** The total and the missing list after valuing every row. */
  function ValueAll(rows: seq<Row>, rates: Rates, quotes: map<string, Quote>): Acc {
    Fold(Contributions(rows, rates, quotes))
  }

  /** Valuing one more row applies its contribution to the state reached so far. */
  lemma ValueAllSnoc(rows: seq<Row>, row: Row, rates: Rates, quotes: map<string, Quote>)
    ensures ValueAll(rows + [row], rates, quotes) == Apply(ValueAll(rows, rates, quotes), ValueRow(row, rates, quotes))
  {
    var vs := Contributions(rows + [row], rates, quotes);
    assert vs[..|vs| - 1] == Contributions(rows, rates, quotes);
  }

  /**
   * A row the loop passes over with `continue` (a null share count, a ticker,
   * currency or asset class left `N/A`, an invalid equity ticker, cash without
   * a market value) or that is neither Equity nor Cash changes neither the
   * total nor the missing list.
   */
  lemma SkippedRowKeepsState(rows: seq<Row>, row: Row, rates: Rates, quotes: map<string, Quote>)
    requires
      var assetClass := Lookup(row, AssetClass, NotAvailable);
      || !Lookup(row, Shares, Null).Num?
      || Lookup(row, Ticker, NotAvailable) == NotAvailable
      || Lookup(row, MarketCurrency, NotAvailable) == NotAvailable
      || assetClass == NotAvailable
      || (assetClass == Str("Equity") && !ValidTicker(Lookup(row, Ticker, NotAvailable)))
      || (assetClass == Str("Cash") && !Lookup(row, MarketValue, Null).Num?)
      || (assetClass != Str("Equity") && assetClass != Str("Cash"))
    ensures ValueAll(rows + [row], rates, quotes) == ValueAll(rows, rates, quotes)
  {
    ValueAllSnoc(rows, row, rates, quotes);
  }

  /** The valuation loop over the holdings, updating the total and the missing list row by row. */
  method Valuate(rows: seq<Row>, rates: Rates, quotes: map<string, Quote>) returns (total: real, missing: seq<Missing>)
    ensures Acc(total, missing) == ValueAll(rows, rates, quotes)
  {
    total, missing := 0.0, [];
    var i := 0;
    while i < |rows|
      invariant 0 <= i <= |rows|
      invariant Acc(total, missing) == ValueAll(rows[..i], rates, quotes)
    {
      var row := rows[i];
      ValueAllSnoc(rows[..i], row, rates, quotes);
      assert rows[..i] + [row] == rows[..i + 1];
      i := i + 1;
      var ticker := Lookup(row, Ticker, NotAvailable);
      var shares := Lookup(row, Shares, Null);
      var currency := Lookup(row, MarketCurrency, NotAvailable);
      var assetClass := Lookup(row, AssetClass, NotAvailable);
      if !shares.Num? || ticker == NotAvailable || currency == NotAvailable || assetClass == NotAvailable {
        continue;
      }
      if assetClass == Str("Equity") {
        if !ticker.Str? || |ticker.s| > 10 || ' ' in ticker.s {
          continue;
        }
        var price := QuotedPrice(QuoteFor(quotes, ticker.s));
        if price.Some? {
          total := total + shares.x * price.value;
        } else {
          missing := missing + [MissingTicker(ticker)];
        }
      } else if assetClass == Str("Cash") {
        var amount := Lookup(row, MarketValue, Null);
        if !amount.Num? {
          continue;
        }
        if currency == Str("USD") {
          total := total + amount.x;
        } else if currency == Str("EUR") {
          if rates.eur.Some? {
            total := total + amount.x * rates.eur.value;
          } else {
            missing := missing + [MissingCash(currency)];
          }
        } else if currency == Str("GBP") {
          if rates.gbp.Some? {
            total := total + amount.x * rates.gbp.value;
          } else {
            missing := missing + [MissingCash(currency)];
          }
        } else {
          missing := missing + [MissingCash(currency)];
        }
      }
    }
    assert rows[..|rows|] == rows;
  }

  /** Folding two runs of contributions one after the other adds their totals and concatenates their missing lists. */
  lemma {:induction false} FoldAppend(a: seq<RowValue>, b: seq<RowValue>)
    ensures Fold(a + b).total == Fold(a).total + Fold(b).total
    ensures Fold(a + b).missing == Fold(a).missing + Fold(b).missing
    decreases |b|
  {
    if b == [] {
      assert a + b == a;
    } else {
      var init := b[..|b| - 1];
      assert (a + b)[..|a + b| - 1] == a + init;
      assert (a + b)[|a + b| - 1] == b[|b| - 1];
      FoldAppend(a, init);
    }
  }

  /** Folding a reordering of the same contributions gives the same total and the same missing entries. */
  lemma {:induction false} FoldReorder(a: seq<RowValue>, b: seq<RowValue>)
    requires multiset(a) == multiset(b)
    ensures Fold(a).total == Fold(b).total
    ensures multiset(Fold(a).missing) == multiset(Fold(b).missing)
    decreases |a|
  {
    if a == [] {
      EmptyReorder(a, b);
    } else {
      var x, init := a[|a| - 1], a[..|a| - 1];
      assert a == init + [x];
      var front, back := TakeOut(a, b);
      FoldReorder(init, front + back);
      FoldAppend(front + [x], back);
      FoldAppend(front, [x]);
      FoldAppend(front, back);
      FoldAppend(init, [x]);
    }
  }

  /** Reordering the rows reorders their contributions. */
  lemma ContributionsReorder(a: seq<Row>, b: seq<Row>, rates: Rates, quotes: map<string, Quote>)
    requires multiset(a) == multiset(b)
    ensures multiset(Contributions(a, rates, quotes)) == multiset(Contributions(b, rates, quotes))
    decreases |a|
  {
    if a == [] {
      EmptyReorder(a, b);
    } else {
      var x, init := a[|a| - 1], a[..|a| - 1];
      assert a == init + [x];
      var front, back := TakeOut(a, b);
      ContributionsReorder(init, front + back, rates, quotes);
      ContributionsAppend(front + [x], back, rates, quotes);
      ContributionsAppend(front, [x], rates, quotes);
      ContributionsAppend(front, back, rates, quotes);
      ContributionsAppend(init, [x], rates, quotes);
    }
  }

  /** The contributions of two runs of rows are the two runs of contributions. */
  lemma ContributionsAppend(a: seq<Row>, b: seq<Row>, rates: Rates, quotes: map<string, Quote>)
    ensures Contributions(a + b, rates, quotes) == Contributions(a, rates, quotes) + Contributions(b, rates, quotes)
  {
  }

  /**
   * The order of the rows does not matter: a reordering of the same rows gives
   * the same total and the same missing entries (as a multiset).
   */
  lemma ValueAllReorder(a: seq<Row>, b: seq<Row>, rates: Rates, quotes: map<string, Quote>)
    requires multiset(a) == multiset(b)
    ensures ValueAll(a, rates, quotes).total == ValueAll(b, rates, quotes).total
    ensures multiset(ValueAll(a, rates, quotes).missing) == multiset(ValueAll(b, rates, quotes).missing)
  {
    ContributionsReorder(a, b, rates, quotes);
    FoldReorder(Contributions(a, rates, quotes), Contributions(b, rates, quotes));
  }

  /** The folded missing list is empty exactly when no contribution is an unvalued row. */
  lemma {:induction false} FoldNoMissing(vs: seq<RowValue>)
    ensures Fold(vs).missing == [] <==> forall i :: 0 <= i < |vs| ==> !vs[i].Unvalued?
  {
    if vs != [] {
      var init := vs[..|vs| - 1];
      FoldNoMissing(init);
      assert forall i :: 0 <= i < |init| ==> init[i] == vs[i];
    }
  }

  /** The missing list is empty exactly when no row was left unvalued. */
  lemma NoMissingIffAllValued(rows: seq<Row>, rates: Rates, quotes: map<string, Quote>)
    ensures ValueAll(rows, rates, quotes).missing == [] <==>
            forall i :: 0 <= i < |rows| ==> !ValueRow(rows[i], rates, quotes).Unvalued?
  {
    FoldNoMissing(Contributions(rows, rates, quotes));
  }

  /**
   * What a last Equity row does to the running state: an invalid ticker changes
   * nothing, a priced ticker adds shares times price, an unpriced one is recorded.
   */
  lemma LastEquityRow(rows: seq<Row>, row: Row, rates: Rates, quotes: map<string, Quote>)
    requires Lookup(row, Shares, Null).Num?
    requires Lookup(row, Ticker, NotAvailable) != NotAvailable
    requires Lookup(row, MarketCurrency, NotAvailable) != NotAvailable
    requires Lookup(row, AssetClass, Null) == Str("Equity")
    ensures var before, after := ValueAll(rows, rates, quotes), ValueAll(rows + [row], rates, quotes);
      var ticker, shares := Lookup(row, Ticker, Null), Lookup(row, Shares, Null).x;
      && (!ValidTicker(ticker) ==> after == before)
      && (ValidTicker(ticker) && QuotedPrice(QuoteFor(quotes, ticker.s)).Some? ==>
            after == Acc(before.total + shares * QuotedPrice(QuoteFor(quotes, ticker.s)).value, before.missing))
      && (ValidTicker(ticker) && QuotedPrice(QuoteFor(quotes, ticker.s)).None? ==>
            after == Acc(before.total, before.missing + [MissingTicker(ticker)]))
  {
    ValueAllSnoc(rows, row, rates, quotes);
  }

  /**
   * What a last Cash row does: a null amount changes nothing, USD adds the
   * amount, EUR and GBP add the converted amount or are recorded when the rate is
   * missing, and any other currency is always recorded.
   */
  lemma LastCashRow(rows: seq<Row>, row: Row, rates: Rates, quotes: map<string, Quote>)
    requires Lookup(row, Shares, Null).Num?
    requires Lookup(row, Ticker, NotAvailable) != NotAvailable
    requires Lookup(row, MarketCurrency, NotAvailable) != NotAvailable
    requires Lookup(row, AssetClass, Null) == Str("Cash")
    ensures var before, after := ValueAll(rows, rates, quotes), ValueAll(rows + [row], rates, quotes);
      var currency, amount := Lookup(row, MarketCurrency, Null), Lookup(row, MarketValue, Null);
      var rate := if currency == Str("EUR") then rates.eur else if currency == Str("GBP") then rates.gbp else None;
      && (amount.Null? ==> after == before)
      && (amount.Num? && currency == Str("USD") ==> after == Acc(before.total + amount.x, before.missing))
      && (amount.Num? && currency != Str("USD") && rate.Some? ==>
            after == Acc(before.total + amount.x * rate.value, before.missing))
      && (amount.Num? && currency != Str("USD") && rate.None? ==>
            after == Acc(before.total, before.missing + [MissingCash(currency)]))
  {
    ValueAllSnoc(rows, row, rates, quotes);
  }
}
