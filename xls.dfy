/**
 * The front end of the spreadsheet script: shares outstanding come from cell
 * C6 of the `Holdings` sheet, the holdings table from the same sheet below its
 * header row. The file check, the cell read and the sheet read are inputs.
 */
module ExcelSource {
  import opened Wrappers
  import opened Text
  import opened Normalizer
  import opened Holdings
  import opened Valuation
  import opened Nav
  import opened Pipeline

  /**
   * The cell value as the spreadsheet reader yields it: a finite float, an
   * integer (a whole-number cell, which the one-row frame holds as a numpy
   * integer), a float NaN (what an empty cell reads as), text, a missing value
   * of another kind (None, NA), or a value of any other type (a date, say).
   */
  datatype CellValue = FloatCell(x: real) | IntCell(n: int) | NanCell | TextCell(s: string) | NaCell | OtherCell

  /** The read of row 6, columns A to C: it raised, came back empty or narrower than three columns, or gave C6. */
  datatype C6Read = RowUnreadable | Cell(value: CellValue)

  /** Why the cell was rejected; each is fatal. */
  datatype C6Error = ShapeMismatch | NonNumericText | EmptyOrNaN | UnexpectedType

  /** Cell text is accepted when, with its commas removed, it is digits with at most one `.`. */
  predicate IsSharesText(s: string) {
    IsDecimal(RemoveAll(s, ','))
  }

  /**
   * Shares outstanding from C6: a number is taken as it is; text is taken when
   * it is a plain decimal once its commas are removed; NaN, other missing
   * values and other types are rejected.
   */
  function ParseC6(read: C6Read): (r: Result<real, C6Error>)
    ensures read.RowUnreadable? ==> r == Failure(ShapeMismatch)
    ensures read.Cell? && read.value.FloatCell? ==> r == Success(read.value.x)
    ensures read.Cell? && read.value.IntCell? ==> r == Success(read.value.n as real)
    ensures read.Cell? && read.value.TextCell? ==>
      (r.Success? <==> IsSharesText(read.value.s)) && (r.Failure? ==> r.error == NonNumericText)
    ensures read.Cell? && (read.value.NanCell? || read.value.NaCell?) ==> r == Failure(EmptyOrNaN)
    ensures read.Cell? && read.value.OtherCell? ==> r == Failure(UnexpectedType)
    ensures read.Cell? && read.value.TextCell? && r.Success? ==> r.value >= 0.0
    ensures read.Cell? && read.value.TextCell? && r.Success? ==> ParseNumber(RemoveAll(read.value.s, ',')) == Some(r.value)
  {
    match read
    case RowUnreadable => Failure(ShapeMismatch)
    case Cell(v) =>
      match v
      case FloatCell(x) => Success(x)
      case IntCell(n) => Success(n as real)
      case TextCell(s) =>
        var cleaned := RemoveAll(s, ',');
        if IsDecimal(cleaned) then Success(DecimalValue(cleaned)) else Failure(NonNumericText)
      case NanCell => Failure(EmptyOrNaN)
      case NaCell => Failure(EmptyOrNaN)
      case OtherCell => Failure(UnexpectedType)
  }

  /** A count written with thousands separators in C6 reads back as that count. */
  lemma C6TextRoundTrip(n: nat)
    ensures ParseC6(Cell(TextCell(Grouped(Digits(n))))) == Success(n as real)
  {
    var ds := Digits(n);
    assert ',' !in ds by {
      forall k | 0 <= k < |ds|
        ensures ds[k] != ','
      {
        assert IsDigit(ds[k]);
      }
    }
    UngroupRoundTrip(ds);
    DigitsParse(n);
  }

  /** Comma-grouped text with decimals, such as `12,500,000.50`, reads as its value. */
  lemma C6DecimalText(n: nat, fraction: string)
    requires DigitsOnly(fraction)
    ensures ParseC6(Cell(TextCell(Grouped(Digits(n)) + "." + fraction))) ==
      Success(Scaled(n, DigitsValue(fraction), |fraction|))
  {
    GroupedDecimalStrips(Digits(n), fraction, false);
    DigitsRoundTrip(n);
    FractionDecimal(Digits(n), fraction);
  }

  /** Text with a sign (or any character other than digits, commas and one dot) is rejected. */
  lemma C6RejectsOtherCharacters(s: string, d: char)
    requires d in s && d != ',' && d != '.' && !IsDigit(d)
    ensures ParseC6(Cell(TextCell(s))) == Failure(NonNumericText)
  {
    RemoveAllKeeps(s, ',', d);
    ReplaceFirstKeeps(RemoveAll(s, ','), '.', d);
  }

  /** Text with a second `.` is rejected, wherever the commas are. */
  lemma C6RejectsSecondDot(a: string, b: string, c: string)
    ensures ParseC6(Cell(TextCell(a + "." + b + "." + c))) == Failure(NonNumericText)
  {
    var s := a + "." + b + "." + c;
    RemoveAllAroundTwo(a, '.', b, '.', c, ',');
    var ra, rb, rc := RemoveAll(a, ','), RemoveAll(b, ','), RemoveAll(c, ',');
    var cleaned := ra + "." + rb + "." + rc;
    assert cleaned[|ra|] == '.' && cleaned[|ra| + 1 + |rb|] == '.';
    TwoDotsNotDecimal(cleaned, |ra|, |ra| + 1 + |rb|);
  }

  // The run

  /**
   * A missing file is fatal before anything is read; a rejected C6 or an
   * unreadable holdings sheet is fatal too; otherwise the shared pipeline runs
   * with the shares from C6.
   */
  method RunXls(fileExists: bool, c6: C6Read, sheet: Option<Table>,
                eur: FxFetch, gbp: FxFetch, quotes: map<string, Quote>)
    returns (report: Report)
    ensures report.exitCode == ExitCode(report.result)
    ensures !fileExists || ParseC6(c6).Failure? || sheet.None? ==> report == Fatal
    ensures fileExists && ParseC6(c6).Success? && sheet.Some? ==>
      report.result == NavFor(sheet.value, Some(ParseC6(c6).value), FetchRates(eur, gbp), quotes) &&
      report.topTen == TopTenFor(sheet.value)
  {
    if !fileExists {
      return Fatal;
    }
    var shares := ParseC6(c6);
    if shares.Failure? {
      return Fatal;
    }
    if sheet.None? {
      return Fatal;
    }
    report := Evaluate(sheet.value, Some(shares.value), eur, gbp, quotes);
  }

  // The cell as the script reads it, NaN included

  /** A Python float: finite, or NaN. */
  datatype PyFloat = Finite(x: real) | NaN

  /** A cell the script's type tests see differently from what they were meant to catch. */
  predicate Mistyped(read: C6Read) {
    read == Cell(NanCell) || (read.Cell? && read.value.IntCell?)
  }

  /**
   * C6 as the script parses it: a float NaN passes the `isinstance(..., float)`
   * test before the NaN check is ever reached, so it is accepted; a numpy
   * integer is not a Python `int`, is not text and is not NaN, so it falls
   * through to the unexpected-type error.
   */
  function ParseC6AsWritten(read: C6Read): (r: Result<PyFloat, C6Error>)
    ensures read == Cell(NanCell) ==> r == Success(NaN)
    ensures read.Cell? && read.value.IntCell? ==> r == Failure(UnexpectedType)
    ensures !Mistyped(read) ==>
      (r.Success? <==> ParseC6(read).Success?) &&
      (r.Success? ==> r.value == Finite(ParseC6(read).value)) &&
      (r.Failure? ==> r.error == ParseC6(read).error)
  {
    if read == Cell(NanCell) then Success(NaN)
    else if read.Cell? && read.value.IntCell? then Failure(UnexpectedType)
    else
      match ParseC6(read)
      case Success(x) => Success(Finite(x))
      case Failure(e) => Failure(e)
  }

  /** The result string as written: the formatted NAV (possibly `nan`) or `ERROR`. */
  datatype Status = NavText(nav: PyFloat) | ErrorText

  /**
   * The decision as the script takes it on a Python float: `nan <= 0` is false,
   * so a NaN share count gets past the guard and yields a NaN NAV.
   */
  function DecideAsWritten(total: real, shares: Option<PyFloat>, missing: seq<Missing>): (r: Status)
    ensures shares == Some(NaN) && missing == [] ==> r == NavText(NaN)
    ensures forall x :: shares == Some(Finite(x)) ==>
      (r.NavText? <==> Decide(total, Some(x), missing).Published?) &&
      (r.NavText? ==> r.nav == Finite(Decide(total, Some(x), missing).nav))
  {
    match shares
    case None => ErrorText
    case Some(NaN) => if missing == [] then NavText(NaN) else ErrorText
    case Some(Finite(x)) =>
      if x <= 0.0 then ErrorText
      else if missing == [] then NavText(Finite(total / x)) else ErrorText
  }

  /** The exit status as written: 1 only for `ERROR`, so a `nan` result exits with 0. */
  function ExitCodeAsWritten(r: Status): (code: int)
    ensures code == 0 <==> r.NavText?
    ensures code == 1 <==> r.ErrorText?
  {
    if r.ErrorText? then 1 else 0
  }

  /**
   * An empty C6 cell, read as a float NaN, publishes `nan` with exit status 0
   * whenever every holding was valued; the corrected parse makes it fatal.
   */
  lemma NanCellPublishesNan(total: real)
    ensures ParseC6AsWritten(Cell(NanCell)) == Success(NaN)
    ensures DecideAsWritten(total, Some(NaN), []) == NavText(NaN)
    ensures ExitCodeAsWritten(DecideAsWritten(total, Some(NaN), [])) == 0
    ensures ParseC6(Cell(NanCell)) == Failure(EmptyOrNaN)
  {
  }

  /**
   * A whole-number C6 makes the run fatal with an unexpected-type error
   * although the script lists `int` among the accepted types; the corrected
   * parse takes it as its value.
   */
  lemma IntegerCellRejected(n: int)
    ensures ParseC6AsWritten(Cell(IntCell(n))) == Failure(UnexpectedType)
    ensures ParseC6(Cell(IntCell(n))) == Success(n as real)
  {
  }
}
