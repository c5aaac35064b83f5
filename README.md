# ISUS NAV estimate — a Dafny model

Two Python scripts estimate the net asset value per share of the iShares MSCI
USA Islamic UCITS ETF (ISUS):

- `calculate_isus_nav_online_fallback.py` scrapes shares outstanding from the
  product page. It downloads the holdings CSV, and falls back to a local CSV
  file when that fails.
- `calculate_isus_nav_xls.py` reads shares outstanding from cell C6 of a
  spreadsheet, and the holdings table from the same sheet.

Both then run the same pipeline:

- clean the holdings table in place;
- pick the ten largest equities by Market Value;
- fetch EUR/USD and GBP/USD rates;
- value every row in USD, recording what cannot be valued;
- publish `total / shares` only when shares outstanding is positive and nothing is missing. Otherwise they write `ERROR` and exit with status 1.

The model covers that pipeline once, plus the two front ends:

| file | module | what it models |
|---|---|---|
| `text.dfy` | `Text` | `str.replace`, `str.isdigit`, `"\n".join`, digit strings and thousands grouping |
| `normalizer.dfy` | `Normalizer` | cell values, `pd.to_numeric(errors='coerce')` on decimal text, the comma/percent clean-up |
| `holdings.dfy` | `Holdings` | the holdings table, the column clean-up and `dropna`; the in-place frame `HoldingsFrame` |
| `topten.dfy` | `TopHoldings` | `nlargest(10, 'Market Value')` over the Equity rows |
| `valuation.dfy` | `Valuation` | FX rates, price choice, the per-row case analysis, and the valuation loop `Valuate`, proved against the fold `ValueAll` |
| `nav.dfy` | `Nav` | the NAV / `ERROR` decision and the exit status |
| `pipeline.dfy` | `Pipeline` | the shared sequence: clean, re-coerce, top 10, FX, valuation, decision |
| `online.dfy` | `OnlineFallback` | shares text scrape, the two-line CSV skip, URL → local file fallback with its source tag, the whole run |
| `xls.dfy` | `ExcelSource` | the file check, the C6 parse (corrected and as written), the whole run |
| `permutations.dfy`, `wrappers.dfy` | `Permutations`, `Wrappers` | reordering lemma; `Option` / `Result` |

A cell is a `Value`:

- `Str` is text;
- `Num` is a number, as a `real`;
- `Null` is NaN or None.

A row is a `map<Column, Value>`, and a column the table lacks is a key the row
lacks. `row.get(c, d)` is `Lookup(row, c, d)`. Every collaborator is an input:
the page scrape, the download, the CSV parser, the local file, the spreadsheet
reads, the price lookups (`map<string, Quote>`) and the FX lookups (`FxFetch`).

## Model

| member | source | states |
|---|---|---|
| Text.RemoveAll | calculate_isus_nav_online_fallback.py:59 | `s.replace(c, '')`: the result has no `c`, is no longer than `s` and holds only characters of `s` |
| Text.ReplaceFirst | calculate_isus_nav_xls.py:68 | `s.replace('.', '', 1)`: one character shorter when `c` occurs, unchanged otherwise |
| Text.ReplaceFirstRemovesFirst | calculate_isus_nav_xls.py:68 | the character removed is the first `c`: the text before it and the text after it are kept, in order |
| Normalizer.ParseNumber | calculate_isus_nav_online_fallback.py:159 | text is accepted exactly when it is decimal text (digits with at most one `.`, at least one digit), optionally after one leading sign; anything else (empty text, a lone sign or dot, two dots, other characters) is none; accepted text consists of digits and `.` with an optional leading sign, and has its decimal value, after `-` negated and after `+` unchanged |
| Normalizer.TwoDotsNotDecimal | calculate_isus_nav_xls.py:68 | text with two dots is not decimal text: one remains after the first is removed |
| Normalizer.FractionParse | calculate_isus_nav_online_fallback.py:159 | digits, a dot and digits (either side may be empty, not both) parse to the whole part plus the fraction digits over 10 to the number of fraction digits |
| Normalizer.SignedParse | calculate_isus_nav_online_fallback.py:159 | a leading `-` negates the value of unsigned numeric text, a leading `+` keeps it |
| Normalizer.SecondSignRejected | calculate_isus_nav_online_fallback.py:159 | a second sign in front makes the text unparsable |
| Normalizer.ToNumeric | calculate_isus_nav_online_fallback.py:159 | coercion never yields text and never raises: numbers are kept, nulls stay null, text becomes null exactly when it does not parse and otherwise its parsed value |
| Normalizer.Strip | calculate_isus_nav_online_fallback.py:156-158 | no `,` remains, and no `%` remains in a percentage column |
| Normalizer.Normalize | calculate_isus_nav_online_fallback.py:156-159 | a cleaned cell is a number or null: text becomes null exactly when its stripped form does not parse, and otherwise the value that form parses to; numbers and nulls pass through |
| Normalizer.StripIdempotent | calculate_isus_nav_online_fallback.py:156-159 | cleaning twice is cleaning once, for the text and for the value |
| Normalizer.CommaIgnored | calculate_isus_nav_online_fallback.py:156 | a `,` anywhere does not change the cleaned value |
| Normalizer.PercentStripped | calculate_isus_nav_online_fallback.py:157-158 | a `%` anywhere does not change the value in a column whose name has `%` |
| Normalizer.PercentElsewhereIsNull | calculate_isus_nav_online_fallback.py:157-159 | a `%` in any other column makes the cell null |
| Normalizer.GroupedNumberCleans | calculate_isus_nav_xls.py:120-123 | a comma-grouped whole number cleans to its value, in every column |
| Normalizer.GroupedDecimalCleans | calculate_isus_nav_xls.py:120-123 | a comma-grouped number with decimals such as `1,234.50` cleans to its value (1234 + 50/100), in every column |
| Holdings.MapColumn | calculate_isus_nav_online_fallback.py:156 | column assignment keeps the row count and keys, maps column `c`, and leaves every other cell alone |
| Holdings.KeepComplete | calculate_isus_nav_online_fallback.py:161 | `dropna(subset)` keeps exactly the rows with every subset cell present and non-null |
| Holdings.CleanRowsExactly | calculate_isus_nav_online_fallback.py:153-163 | a row survives cleaning iff, once normalised, it has the four key fields non-null and numeric Shares |
| Holdings.CleanRowsAreClean | calculate_isus_nav_xls.py:125-127 | every retained row has non-null Ticker, Shares, Market Currency and Asset Class, with Shares numeric |
| Holdings.CleanRowsReorder | calculate_isus_nav_xls.py:117-127 | cleaning a reordering of the rows gives a reordering of the same cleaned rows |
| Holdings.HoldingsFrame.NormalizeNumericColumn | calculate_isus_nav_online_fallback.py:155-159 | a present column is normalised in place, an absent one is left alone |
| Holdings.HoldingsFrame.CoerceColumn | calculate_isus_nav_online_fallback.py:162 | the column is coerced in place, other columns unchanged |
| Holdings.HoldingsFrame.DropIncomplete | calculate_isus_nav_online_fallback.py:161 | fails exactly when a subset column is absent (a KeyError); otherwise keeps the complete rows |
| Holdings.HoldingsFrame.Clean | calculate_isus_nav_online_fallback.py:153-169 | succeeds iff the key columns exist; then the rows are the cleaned rows and all satisfy the row invariant |
| TopHoldings.SortDesc | calculate_isus_nav_online_fallback.py:180 | a permutation of the candidates in descending Market Value |
| TopHoldings.TopTen | calculate_isus_nav_online_fallback.py:176-180 | at most 10 tickers, and none when the table has no Market Value column or no equity has a numeric Market Value |
| TopHoldings.TopTenRankedFirst | calculate_isus_nav_online_fallback.py:180 | a non-empty list is the ranked selection in its order, then the tickers of equities with a null Market Value in table order, min(10, both counts) in all |
| TopHoldings.TopEntriesLargest | calculate_isus_nav_online_fallback.py:178-180 | min(10, candidates) entries, descending, drawn from the candidates, none left out larger than one chosen |
| TopHoldings.TopTenFromEquities | calculate_isus_nav_xls.py:140-144 | every top-10 ticker is the ticker of an Equity row, and every ticker in a ranked position that of an Equity row with a numeric Market Value |
| Valuation.FetchRates | calculate_isus_nav_online_fallback.py:192-213 | a rate is set iff its lookup gave a close; when the EUR lookup raises, GBP is never set |
| Valuation.QuotedPrice | calculate_isus_nav_online_fallback.py:251-257 | the current price unless it is missing or 0, then the regular market price, then the last close; none when the lookup raises |
| Valuation.ValueRow | calculate_isus_nav_online_fallback.py:230-302 | a row is skipped exactly when its Shares is null, its ticker, currency or asset class is `N/A`, it is an equity with an invalid ticker, cash without a Market Value, or of another class; only a row with shares, ticker, currency and asset class set, of class Equity or Cash, contributes; an equity with a valid ticker contributes shares × quoted price, or its ticker as missing when there is no price; cash contributes its Market Value times 1 (USD), the EUR or GBP rate, or `{currency} Cash` as missing when that rate is unset or the currency is another |
| Valuation.SkippedRowKeepsState | calculate_isus_nav_online_fallback.py:236-278 | a row with null Shares, an `N/A` ticker, currency or asset class, an invalid equity ticker, cash without a Market Value, or a class other than Equity and Cash changes neither the total nor the missing list |
| Valuation.Valuate | calculate_isus_nav_online_fallback.py:218-303 | the loop's total and missing list equal the left fold `ValueAll` of the per-row contributions |
| Valuation.LastEquityRow | calculate_isus_nav_online_fallback.py:243-272 | an invalid ticker changes nothing; a priced equity adds shares × price; an unpriced one appends the ticker |
| Valuation.LastCashRow | calculate_isus_nav_xls.py:238-266 | null amount skipped; USD adds the amount; EUR/GBP add amount × rate or append "{cur} Cash"; other currencies always append |
| Valuation.NoMissingIffAllValued | calculate_isus_nav_online_fallback.py:265-302 | the missing list is empty iff no row was left unvalued |
| Valuation.ValueAllReorder | calculate_isus_nav_xls.py:194-267 | the same rows in another order give the same total and the same missing entries |
| Nav.Decide | calculate_isus_nav_online_fallback.py:312-327 | published iff shares is set and positive and nothing is missing; then NAV × shares = total |
| Nav.ExitCode | calculate_isus_nav_online_fallback.py:339-341 | exit status 0 exactly when the NAV is published, 1 on `ERROR` |
| Pipeline.Evaluate | calculate_isus_nav_online_fallback.py:146-341 | the in-place run's result, exit status and top 10 equal `NavFor` / `TopTenFor` of the table; a table without the key columns is fatal |
| Pipeline.MarketValueRecoercionIsNoOp | calculate_isus_nav_online_fallback.py:176-177 | the second Market Value coercion changes no row |
| Pipeline.NavAllOrNothing | calculate_isus_nav_xls.py:276-290 | published iff key columns exist, shares > 0 and no cleaned row is unvalued; NAV × shares = total |
| Pipeline.OutcomeIgnoresRowOrder | calculate_isus_nav_online_fallback.py:230-327 | the decision depends only on the multiset of valued rows |
| Pipeline.NavIgnoresRowOrder | calculate_isus_nav_online_fallback.py:146-327 | reordering the rows of the holdings file does not change the outcome |
| Pipeline.PricedEquityAndUsdCashPublish | calculate_isus_nav_online_fallback.py:259-283 | 100 AAPL at 150 plus 500 USD over 1000 shares publishes 15.5 |
| Pipeline.UnpricedEquityIsError | calculate_isus_nav_online_fallback.py:264-265 | a failed AAPL lookup leaves total 500 and missing ["AAPL"], so `ERROR` |
| Pipeline.UnsupportedCurrencyAlwaysMissing | calculate_isus_nav_online_fallback.py:300-302 | JPY cash adds nothing and is always missing, whatever the FX rates |
| OnlineFallback.ParseSharesText | calculate_isus_nav_online_fallback.py:59-62 | accepted iff the text without commas is all digits, and then it is the value of those digits (never negative) |
| OnlineFallback.ScrapeShares | calculate_isus_nav_online_fallback.py:53-73 | shares are set iff the data div was found and its text parses, and then they are the parsed value |
| OnlineFallback.SharesTextRoundTrip | calculate_isus_nav_online_fallback.py:59-62 | a count printed with or without thousands commas reads back as that count |
| OnlineFallback.SharesTextRejectsOtherCharacters | calculate_isus_nav_online_fallback.py:61-65 | a sign, dot, space or any other non-digit non-comma rejects the text |
| OnlineFallback.CsvBody | calculate_isus_nav_online_fallback.py:105-113 | a body exists iff there are more than 2 lines; it is the lines from index 2 joined by newlines |
| OnlineFallback.UrlHoldings | calculate_isus_nav_online_fallback.py:95-120 | no table when the request failed or no line follows the two metadata lines; otherwise what the CSV parser makes of the lines from index 2 joined by newlines |
| OnlineFallback.MetadataIgnored | calculate_isus_nav_online_fallback.py:106-107 | the two metadata lines' content never matters, and a body exists iff a line follows them |
| OnlineFallback.ResolveHoldings | calculate_isus_nav_online_fallback.py:91-139 | tag `URL` iff the download parsed; `Local File` iff it did not and the local file read; `Error` iff no table; never `Unknown` |
| OnlineFallback.RunOnline | calculate_isus_nav_online_fallback.py:41-341 | a failed scrape is fatal with no source file written; a table from either source runs the pipeline with `URL` or `Local File` written as the source; neither is fatal with `Error` written |
| ExcelSource.ParseC6 | calculate_isus_nav_xls.py:58-80 | floats and integers taken at their value; text accepted iff decimal once commas are removed, and then read as the number that comma-free text parses to; NaN, missing, other types and a bad read fatal |
| ExcelSource.C6DecimalText | calculate_isus_nav_xls.py:66-69 | comma-grouped text with decimals, such as `12,500,000.50`, reads as the whole part plus the fraction digits over 10 to their count |
| ExcelSource.C6TextRoundTrip | calculate_isus_nav_xls.py:66-69 | comma-grouped text of a count reads back as that count |
| ExcelSource.C6RejectsOtherCharacters | calculate_isus_nav_xls.py:66-71 | text holding a sign or another non-digit character is rejected |
| ExcelSource.C6RejectsSecondDot | calculate_isus_nav_xls.py:68-71 | text with two dots is rejected, wherever the commas are |
| ExcelSource.RunXls | calculate_isus_nav_xls.py:38-104 | missing file, rejected C6 or unreadable sheet is fatal; otherwise the pipeline runs with the C6 shares |
| ExcelSource.ParseC6AsWritten | calculate_isus_nav_xls.py:64-76 | as written, a NaN cell is accepted as a NaN float and an integer cell raises the unexpected-type error; every other cell parses as in `ParseC6` |
| ExcelSource.DecideAsWritten | calculate_isus_nav_xls.py:283-290 | a NaN share count with nothing missing publishes `nan`; finite shares decide as `Decide` does |
| ExcelSource.ExitCodeAsWritten | calculate_isus_nav_xls.py:300-304 | exit status 0 exactly when a NAV text (even `nan`) is written, 1 exactly on `ERROR` |
| ExcelSource.NanCellPublishesNan | calculate_isus_nav_xls.py:64-76 | an empty (NaN) C6 publishes `nan` with exit status 0 as written; the corrected parse rejects it |
| ExcelSource.IntegerCellRejected | calculate_isus_nav_xls.py:64-76 | a whole-number C6 is fatal with the unexpected-type error as written; the corrected parse takes its value |

## Left out

- HTTP requests, HTML parsing, UTF-8/Latin-1 decoding, the pandas CSV and Excel readers and `os.path.exists` are inputs. Reading the spreadsheet header row (index 7) is part of the given sheet table.
- yfinance prices and FX closes are inputs, and so are the `time.sleep(0.2)` pacing and the clock.
- Console output, the `processed_count` progress counter, the sorted de-duplicated listing of the missing items, and the writing of the two status files are left out. The outcome and the source tag are returned instead. A failed status-file write is only a warning.
- Floating point is modelled as exact `real` arithmetic. The `:.4f` formatting of the NAV is not modelled.
- Normalizer.ParseNumber: `pd.to_numeric` also accepts exponents, surrounding whitespace, `inf`/`nan` literals and non-ASCII digits. The model accepts only an optional sign, ASCII digits and at most one `.`, with at least one digit. Any other text becomes null.
- OnlineFallback.CsvBody: the `strip()` of the decoded download (line 105) is taken as already applied; the lines are the input.
- Holdings.Table: a row's keys are not tied to the table's column set. A key a row lacks reads as a missing value, which is what a blank cell of that column gives after reading.
- OnlineFallback.ParseSharesText: `get_text(strip=True)` and `splitlines()` are taken as already applied (the text and the lines are inputs). `isdigit` is taken on ASCII digits.
- ExcelSource.ParseC6: a boolean C6 reads as a numpy boolean, which passes none of the script's type tests and is not NaN. It is an `OtherCell` here, fatal with the unexpected-type error both as written and in the corrected parse. Non-ASCII digits are not modelled.
- Valuation.ValueRow: a Cash row whose Market Value is text, or an equity whose Shares is text, cannot reach the loop after cleaning. Both columns are coerced, and `MarketValueRecoercionIsNoOp` shows that. So such a cell is treated like a null one.
- TopHoldings.TopTen: among equal Market Values, the order `nlargest` keeps (first occurrence) is not stated. Only the descending order, the bound and the "none left out is larger" property are proved.
- Multiplying shares by a price can in Python raise on a non-numeric price. Prices are numbers here, so the `except` path of the equity branch is the `LookupFails` quote.

## Findings

| source | as written | input that shows it | evidently intended | confidence | as-written member | corrected member |
|---|---|---|---|---|---|---|
| calculate_isus_nav_xls.py:64-76 | a float NaN passes `isinstance(shares_val, (int, float))` before the `pd.isna` check, so the check is dead for NaN. Then `nan <= 0` is false at line 283, so `nan` is written as the NAV and the run exits with 0 | C6 empty, which the reader gives as NaN, and every holding valued | an empty or NaN C6 is fatal ("Cell C6 (Shares Outstanding) is empty or NaN."): `ERROR`, exit status 1 | not executed | ExcelSource.NanCellPublishesNan | ExcelSource.ParseC6 |
| calculate_isus_nav_xls.py:64-76 | a whole-number C6 read into the one-row frame is a numpy integer. That is not a Python `int`, so `isinstance(shares_val, (int, float))` is false. It is not text and not NaN, so the script raises "Unexpected data type" | C6 holding the number 12500000 | an integer cell is accepted as shares outstanding, as the `int` in the type test says | plausible (relies on the reader giving a numpy integer), not executed | ExcelSource.IntegerCellRejected | ExcelSource.ParseC6 |
