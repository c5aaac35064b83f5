/**
 * The front end of the scrape-and-download script: shares outstanding come
 * from the text of the product page, the holdings from the downloadable CSV
 * with the local CSV file as fallback, and the source used is recorded as a
 * tag. Page, download, CSV parser and local file are given as inputs.
 */
module OnlineFallback {
  import opened Wrappers
  import opened Text
  import opened Normalizer
  import opened Holdings
  import opened Valuation
  import opened Nav
  import opened Pipeline

  // Shares outstanding from the product page

  /**
   * What the scrape finds: the page request failed, the `col-sharesOutstanding`
   * container or its `data` div is absent, or the (stripped) text of that div.
   */
  datatype PageFetch = PageUnreachable | ContainerMissing | DataDivMissing | SharesText(text: string)

  /** The scraped text with its thousands commas removed is accepted only when it is all digits. */
  function ParseSharesText(text: string): (r: Option<real>)
    ensures r.Some? <==> AllDigits(RemoveAll(text, ','))
    ensures r.Some? ==> r.value >= 0.0
    ensures r.Some? ==> r.value == DigitsValue(RemoveAll(text, ',')) as real
  {
    var cleaned := RemoveAll(text, ',');
    if AllDigits(cleaned) then Some(DigitsValue(cleaned) as real) else None
  }

  /** Shares outstanding, or none when any step of the scrape failed. */
  function ScrapeShares(page: PageFetch): (r: Option<real>)
    ensures r.Some? <==> page.SharesText? && ParseSharesText(page.text).Some?
    ensures page.SharesText? ==> r == ParseSharesText(page.text)
  {
    if page.SharesText? then ParseSharesText(page.text) else None
  }

  /** A count printed with thousands separators reads back as that count, and so does the bare count. */
  lemma SharesTextRoundTrip(n: nat)
    ensures ParseSharesText(Grouped(Digits(n))) == Some(n as real)
    ensures ParseSharesText(Digits(n)) == Some(n as real)
  {
    var ds := Digits(n);
    assert ',' !in ds by {
      forall k | 0 <= k < |ds|
        ensures ds[k] != ','
      {
        assert IsDigit(ds[k]);
      }
    }
    UngroupRoundTrip(ds);
    RemoveAllAbsent(ds, ',');
    DigitsRoundTrip(n);
  }

  /** Text holding any character other than a digit or a comma (a sign, a dot, a space) is rejected. */
  lemma SharesTextRejectsOtherCharacters(text: string, d: char)
    requires d in text && d != ',' && !IsDigit(d)
    ensures ParseSharesText(text) == None
  {
    RemoveAllKeeps(text, ',', d);
  }

  // Holdings from the download, or from the local file

  /** The holdings download: a request error, or the decoded body split into lines. */
  datatype CsvFetch = FetchFails | Downloaded(lines: seq<string>)

  /** Lines of fund metadata that precede the CSV header in the download. */
  const MetadataLines: nat := 2

  /** The CSV text handed to the parser: the lines after the metadata, when there are any. */
  function CsvBody(lines: seq<string>): (r: Option<string>)
    ensures r.Some? <==> |lines| > MetadataLines
    ensures r.Some? ==> r.value == Join(lines[MetadataLines..], "\n")
  {
    if |lines| > MetadataLines then Some(Join(lines[MetadataLines..], "\n")) else None
  }

  /** The content of the two metadata lines never matters. */
  lemma MetadataIgnored(m: seq<string>, n: seq<string>, rest: seq<string>)
    requires |m| == |n| == MetadataLines
    ensures CsvBody(m + rest) == CsvBody(n + rest)
    ensures CsvBody(m + rest).Some? <==> rest != []
  {
    assert (m + rest)[MetadataLines..] == rest;
    assert (n + rest)[MetadataLines..] == rest;
  }

  /**
   * The holdings read from the download, or none when the request failed, the
   * body has no line after the metadata, or the CSV parser raised (`readCsv`
   * gives none).
   */
  function UrlHoldings(csv: CsvFetch, readCsv: string -> Option<Table>): (r: Option<Table>)
    ensures csv.FetchFails? ==> r.None?
    ensures csv.Downloaded? && |csv.lines| <= MetadataLines ==> r.None?
    ensures csv.Downloaded? && |csv.lines| > MetadataLines ==>
      r == readCsv(Join(csv.lines[MetadataLines..], "\n"))
  {
    if csv.FetchFails? then None
    else
      var body := CsvBody(csv.lines);
      if body.Some? then readCsv(body.value) else None
  }

  /** The local fallback file: it does not exist, or reading it gives a table or raises. */
  datatype LocalFile = Absent | Present(read: Option<Table>)

  /** The provenance tag written to the source file. */
  datatype SourceTag = Unknown | Url | LocalFileTag | ErrorTag

  /** The text the tag is written as. */
  function TagText(tag: SourceTag): string {
    match tag
    case Unknown => "Unknown"
    case Url => "URL"
    case LocalFileTag => "Local File"
    case ErrorTag => "Error"
  }

  /**
   * The download first; the local file only when the download gave no table.
   * The tag says which source gave the table, or `Error` when neither did.
   */
  method ResolveHoldings(csv: CsvFetch, readCsv: string -> Option<Table>, local: LocalFile)
    returns (holdings: Option<Table>, tag: SourceTag)
    ensures tag == Url <==> UrlHoldings(csv, readCsv).Some?
    ensures tag == Url ==> holdings == UrlHoldings(csv, readCsv)
    ensures tag == LocalFileTag <==> UrlHoldings(csv, readCsv).None? && local.Present? && local.read.Some?
    ensures tag == LocalFileTag ==> holdings == local.read
    ensures tag == ErrorTag <==> holdings.None?
    ensures tag != Unknown
  {
    holdings, tag := None, Unknown;
    if csv.Downloaded? {
      var lines := csv.lines;
      if |lines| > MetadataLines {
        var body := Join(lines[MetadataLines..], "\n");
        holdings := readCsv(body);
        if holdings.Some? {
          tag := Url;
        }
      }
    }
    if holdings.None? {
      if local.Present? && local.read.Some? {
        holdings, tag := local.read, LocalFileTag;
      } else {
        tag := ErrorTag;
      }
    }
  }

  // The whole run

  /** What a run leaves behind: its report and the text of the source file (none when it was never written). */
  datatype Run = Run(report: Report, source: Option<string>)

  /**
   * Scrape, resolve the holdings, then the shared pipeline. A failed scrape is
   * fatal before any source is tried; no table from either source is fatal
   * with the `Error` tag.
   */
  method RunOnline(page: PageFetch, csv: CsvFetch, readCsv: string -> Option<Table>, local: LocalFile,
                   eur: FxFetch, gbp: FxFetch, quotes: map<string, Quote>)
    returns (run: Run)
    ensures run.report.exitCode == ExitCode(run.report.result)
    ensures ScrapeShares(page).None? ==> run == Run(Fatal, None)
    ensures ScrapeShares(page).Some? && UrlHoldings(csv, readCsv).Some? ==>
      var t := UrlHoldings(csv, readCsv).value;
      run.source == Some(TagText(Url)) &&
      run.report.result == NavFor(t, ScrapeShares(page), FetchRates(eur, gbp), quotes) &&
      run.report.topTen == TopTenFor(t)
    ensures ScrapeShares(page).Some? && UrlHoldings(csv, readCsv).None? && local.Present? && local.read.Some? ==>
      var t := local.read.value;
      run.source == Some(TagText(LocalFileTag)) &&
      run.report.result == NavFor(t, ScrapeShares(page), FetchRates(eur, gbp), quotes) &&
      run.report.topTen == TopTenFor(t)
    ensures ScrapeShares(page).Some? && UrlHoldings(csv, readCsv).None? && !(local.Present? && local.read.Some?) ==>
      run == Run(Fatal, Some(TagText(ErrorTag)))
  {
    var shares := ScrapeShares(page);
    if shares.None? {
      return Run(Fatal, None);
    }
    var holdings, tag := ResolveHoldings(csv, readCsv, local);
    if holdings.None? {
      return Run(Fatal, Some(TagText(tag)));
    }
    var report := Evaluate(holdings.value, shares, eur, gbp, quotes);
    run := Run(report, Some(TagText(tag)));
  }
}
