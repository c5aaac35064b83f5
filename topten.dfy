/**
 * Selection of the ten largest equity positions by the market value printed in
 * the holdings file (`nlargest(10, 'Market Value')`), made before any price is fetched.
 */
module TopHoldings {
  import opened Normalizer
  import opened Holdings

  /** A candidate: its market value from the file and its ticker. */
  type Entry = (real, Value)

  const TopCount: nat := 10

  function Min(a: nat, b: nat): nat {
    if a <= b then a else b
  }

  predicate IsEquity(row: Row) {
    Lookup(row, AssetClass, Null) == Str("Equity")
  }

  /** Equity rows ranked by value: those with a numeric Market Value. */
  predicate IsCandidate(row: Row) {
    IsEquity(row) && Lookup(row, MarketValue, Null).Num?
  }

  function EntryOf(row: Row): Entry
    requires IsCandidate(row)
  {
    (Lookup(row, MarketValue, Null).x, Lookup(row, Ticker, Null))
  }

  /** The candidates, in table order. */
  function Candidates(rows: seq<Row>): (r: seq<Entry>)
    ensures forall e :: e in r ==> exists i :: 0 <= i < |rows| && IsCandidate(rows[i]) && EntryOf(rows[i]) == e
    ensures forall i :: 0 <= i < |rows| && IsCandidate(rows[i]) ==> EntryOf(rows[i]) in r
  {
    if rows == [] then []
    else
      var rest := Candidates(rows[1..]);
      assert forall i :: 1 <= i < |rows| ==> rows[i] == rows[1..][i - 1];
      (if IsCandidate(rows[0]) then [EntryOf(rows[0])] else []) + rest
  }

  /**
   * Equity rows whose Market Value is null: `nlargest` does not rank them but
   * appends them, in table order, after the ranked rows when those are fewer
   * than ten.
   */
  predicate IsUnranked(row: Row) {
    IsEquity(row) && !Lookup(row, MarketValue, Null).Num?
  }

  /** The tickers of the unranked rows, in table order. */
  function UnrankedTickers(rows: seq<Row>): (r: seq<Value>)
    ensures forall t :: t in r ==> exists i :: 0 <= i < |rows| && IsUnranked(rows[i]) && Lookup(rows[i], Ticker, Null) == t
  {
    if rows == [] then []
    else
      var rest := UnrankedTickers(rows[1..]);
      assert forall i :: 1 <= i < |rows| ==> rows[i] == rows[1..][i - 1];
      (if IsUnranked(rows[0]) then [Lookup(rows[0], Ticker, Null)] else []) + rest
  }

  predicate SortedDesc(s: seq<Entry>) {
    forall i, j :: 0 <= i < j < |s| ==> s[i].0 >= s[j].0
  }

  /** Insert before the first entry that is not larger, so earlier rows win ties. */
  function Insert(x: Entry, s: seq<Entry>): (r: seq<Entry>)
    ensures multiset(r) == multiset(s) + multiset{x}
  {
    if s == [] || s[0].0 <= x.0 then [x] + s
    else
      assert s == [s[0]] + s[1..];
      [s[0]] + Insert(x, s[1..])
  }

  lemma {:induction false} InsertSorted(x: Entry, s: seq<Entry>)
    requires SortedDesc(s)
    ensures SortedDesc(Insert(x, s))
  {
    if s != [] && s[0].0 > x.0 {
      var tail := Insert(x, s[1..]);
      InsertSorted(x, s[1..]);
      var r := Insert(x, s);
      assert r == [s[0]] + tail;
      forall j | 0 < j < |r|
        ensures r[0].0 >= r[j].0
      {
        assert r[j] == tail[j - 1];
        assert tail[j - 1] in multiset(tail);
        if tail[j - 1] != x {
          assert tail[j - 1] in multiset(s[1..]);
          var k :| 0 <= k < |s[1..]| && s[1..][k] == tail[j - 1];
          assert s[k + 1] == tail[j - 1];
        }
      }
    }
  }

  /** A stable sort by descending market value. */
  function SortDesc(s: seq<Entry>): (r: seq<Entry>)
    ensures multiset(r) == multiset(s)
    ensures SortedDesc(r)
  {
    if s == [] then []
    else
      assert s == [s[0]] + s[1..];
      InsertSorted(s[0], SortDesc(s[1..]));
      Insert(s[0], SortDesc(s[1..]))
  }

  /** The ranked selection: the largest candidates, at most ten, largest first. */
  function TopEntries(rows: seq<Row>): seq<Entry> {
    var sorted := SortDesc(Candidates(rows));
    sorted[..Min(TopCount, |sorted|)]
  }

  /** The tickers of a selection, in its order. */
  function TickersOf(top: seq<Entry>): (r: seq<Value>)
    ensures |r| == |top|
    ensures forall k :: 0 <= k < |top| ==> r[k] == top[k].1
  {
    seq(|top|, k requires 0 <= k < |top| => top[k].1)
  }

  /** The ranked tickers, then the unranked ones, cut at ten. */
  function Listing(top: seq<Entry>, unranked: seq<Value>): (r: seq<Value>)
    ensures |r| == Min(TopCount, |top| + |unranked|)
    ensures forall k :: 0 <= k < |r| && k < |top| ==> r[k] == top[k].1
    ensures forall k :: |top| <= k < |r| ==> r[k] == unranked[k - |top|]
  {
    var listed := TickersOf(top) + unranked;
    listed[..Min(TopCount, |listed|)]
  }

  /**
   * The top-10 tickers: none when the table has no Market Value column or no
   * equity has a numeric Market Value; otherwise the tickers of the largest
   * candidates, largest first, followed by the unranked equities while fewer
   * than ten are listed.
   */
  function TopTen(columns: set<Column>, rows: seq<Row>): (r: seq<Value>)
    ensures |r| <= TopCount
    ensures MarketValue !in columns || Candidates(rows) == [] ==> r == []
  {
    if MarketValue !in columns then []
    else
      var top := TopEntries(rows);
      if top == [] then [] else Listing(top, UnrankedTickers(rows))
  }

  /** In a descending sequence, everything after position `m` is at most everything before it. */
  lemma PrefixDominates(sorted: seq<Entry>, m: nat, x: Entry)
    requires SortedDesc(sorted) && m <= |sorted|
    requires x in sorted && x !in sorted[..m]
    ensures forall k :: 0 <= k < m ==> sorted[k].0 >= x.0
  {
    var j :| 0 <= j < |sorted| && sorted[j] == x;
    assert j >= m;
  }

  /** A prefix of a sequence is drawn from it. */
  lemma PrefixDrawn(sorted: seq<Entry>, m: nat)
    requires m <= |sorted|
    ensures multiset(sorted[..m]) <= multiset(sorted)
  {
    assert sorted == sorted[..m] + sorted[m..];
  }

  /**
   * The selected entries are as many as possible up to ten, ordered by
   * descending market value, drawn from the candidates, and no candidate left
   * out is larger than any selected one.
   */
  lemma TopEntriesLargest(rows: seq<Row>)
    ensures |TopEntries(rows)| == Min(TopCount, |Candidates(rows)|)
    ensures SortedDesc(TopEntries(rows))
    ensures multiset(TopEntries(rows)) <= multiset(Candidates(rows))
    ensures forall x :: x in Candidates(rows) && x !in TopEntries(rows) ==>
              forall k :: 0 <= k < |TopEntries(rows)| ==> TopEntries(rows)[k].0 >= x.0
  {
    TopEntriesCount(rows);
    var sorted := SortDesc(Candidates(rows));
    PrefixDrawn(sorted, Min(TopCount, |sorted|));
    TopEntriesDominate(rows);
  }

  /** No candidate left out of the selection is larger than a selected entry. */
  lemma TopEntriesDominate(rows: seq<Row>)
    ensures forall x :: x in Candidates(rows) && x !in TopEntries(rows) ==>
              forall k :: 0 <= k < |TopEntries(rows)| ==> TopEntries(rows)[k].0 >= x.0
  {
    var cands := Candidates(rows);
    var sorted := SortDesc(cands);
    var m := Min(TopCount, |sorted|);
    var top := sorted[..m];
    forall x | x in cands && x !in top
      ensures forall k :: 0 <= k < |top| ==> top[k].0 >= x.0
    {
      assert x in multiset(sorted);
      PrefixDominates(sorted, m, x);
    }
  }

  /** As many entries are selected as there are candidates, up to ten. */
  lemma TopEntriesCount(rows: seq<Row>)
    ensures |TopEntries(rows)| == Min(TopCount, |Candidates(rows)|)
  {
    var cands := Candidates(rows);
    assert |SortDesc(cands)| == |cands| by {
      assert |multiset(SortDesc(cands))| == |multiset(cands)|;
    }
  }

  /** Every selected entry is the entry of a candidate row. */
  lemma TopEntryFromRow(rows: seq<Row>, k: nat)
    requires k < |TopEntries(rows)|
    ensures exists i :: 0 <= i < |rows| && IsCandidate(rows[i]) && EntryOf(rows[i]) == TopEntries(rows)[k]
  {
    var cands := Candidates(rows);
    var sorted := SortDesc(cands);
    var m := Min(TopCount, |sorted|);
    var e := sorted[..m][k];
    assert e == TopEntries(rows)[k];
    assert e in multiset(sorted[..m]);
    PrefixDrawn(sorted, m);
    assert e in multiset(cands);
    assert e in cands;
  }

  /**
   * Where a non-empty top-10 list comes from: the ranked selection first, in
   * its order, then the unranked equities in table order, up to ten in all.
   */
  lemma TopTenRankedFirst(columns: set<Column>, rows: seq<Row>)
    requires MarketValue in columns && Candidates(rows) != []
    ensures TopTen(columns, rows) == Listing(TopEntries(rows), UnrankedTickers(rows))
    ensures |TopTen(columns, rows)| == Min(TopCount, |TopEntries(rows)| + |UnrankedTickers(rows)|)
    ensures forall k :: 0 <= k < |TopEntries(rows)| ==> TopTen(columns, rows)[k] == TopEntries(rows)[k].1
    ensures forall k :: |TopEntries(rows)| <= k < |TopTen(columns, rows)| ==>
              TopTen(columns, rows)[k] == UnrankedTickers(rows)[k - |TopEntries(rows)|]
  {
    TopEntriesCount(rows);
    var top := TopEntries(rows);
    assert top != [];
    assert TopTen(columns, rows) == Listing(top, UnrankedTickers(rows));
  }

  /**
   * Each top-10 ticker is the ticker of an Equity row, and each one among the
   * ranked positions that of an Equity row with a numeric Market Value.
   */
  lemma TopTenFromEquities(columns: set<Column>, rows: seq<Row>)
    ensures forall k :: 0 <= k < |TopTen(columns, rows)| ==>
              exists i :: 0 <= i < |rows| && IsEquity(rows[i]) && Lookup(rows[i], Ticker, Null) == TopTen(columns, rows)[k]
    ensures forall k :: 0 <= k < |TopTen(columns, rows)| && k < |TopEntries(rows)| ==>
              exists i :: 0 <= i < |rows| && IsCandidate(rows[i]) && Lookup(rows[i], Ticker, Null) == TopTen(columns, rows)[k]
  {
    var r := TopTen(columns, rows);
    if MarketValue in columns && Candidates(rows) != [] {
      var top := TopEntries(rows);
      var unranked := UnrankedTickers(rows);
      TopTenRankedFirst(columns, rows);
      forall k | 0 <= k < |r|
        ensures exists i :: 0 <= i < |rows| && IsEquity(rows[i]) && Lookup(rows[i], Ticker, Null) == r[k]
        ensures k < |top| ==> exists i :: 0 <= i < |rows| && IsCandidate(rows[i]) && Lookup(rows[i], Ticker, Null) == r[k]
      {
        if k < |top| {
          TopEntryFromRow(rows, k);
          var i :| 0 <= i < |rows| && IsCandidate(rows[i]) && EntryOf(rows[i]) == top[k];
          assert Lookup(rows[i], Ticker, Null) == EntryOf(rows[i]).1;
        } else {
          assert r[k] in unranked by {
            assert r[k] == unranked[k - |top|];
          }
        }
      }
    }
  }
}
