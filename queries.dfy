/** The read-only query layer of the API (main.py): the company list, the
    recent-data window, the 52-week summary and the two-symbol comparison.
    The table of daily rows is a parameter, and so is `now`, in seconds. */
module Queries {
  import opened Records
  import opened Symbols
  import opened Sequences
  import opened Stats

  const RecentLimit: nat := 30
  const SummaryDays: int := 365
  const CompareDays: int := 90

  // ---------------------------------------------------------------- /companies

  /** All companies, or NotFound when the table is empty. SQL gives no order,
      so the answer is the set of stored companies. */
  function GetCompanies(companies: map<string, Company>): (r: Answer<set<Company>>)
    ensures r.NotFound? <==> companies == map[]
    ensures r.Found? ==> forall sym :: sym in companies ==> companies[sym] in r.value
    ensures r.Found? ==> forall c :: c in r.value ==> exists sym :: sym in companies && companies[sym] == c
  {
    if companies == map[] then NotFound else Found(companies.Values)
  }

  // ---------------------------------------------------------- /data/{symbol}

  /** `WHERE symbol = sym`. */
  function MatchingRows(rows: seq<DailyRecord>, sym: string): (m: seq<DailyRecord>)
    ensures forall x :: multiset(m)[x] == if x.symbol == sym then multiset(rows)[x] else 0
    ensures forall x :: x in m ==> x in rows && x.symbol == sym
    ensures m == [] <==> forall i :: 0 <= i < |rows| ==> rows[i].symbol != sym
  {
    var p := (r: DailyRecord) => r.symbol == sym;
    FilterMembers(rows, p);
    Filter(rows, p)
  }

  /** Every acceptable answer of `WHERE symbol = sym ORDER BY date DESC
      LIMIT 30`: the database may return rows with equal dates in any order,
      so this says which rows and in what date order, not how ties fall. */
  ghost predicate IsRecentWindow(rows: seq<DailyRecord>, sym: string, out: seq<DailyRecord>) {
    var m := multiset(MatchingRows(rows, sym));
    && |out| == Min(RecentLimit, |m|)
    && multiset(out) <= m
    && Ordered(out, DateOf, true)
    && forall x, k :: x in m - multiset(out) && 0 <= k < |out| ==> x.date <= out[k].date
  }

  function GetStockData(rows: seq<DailyRecord>, symbol: string): (r: Answer<seq<DailyRecord>>)
    ensures r.NotFound? <==> forall i :: 0 <= i < |rows| ==> rows[i].symbol != Normalize(symbol)
    ensures r.Found? ==> IsRecentWindow(rows, Normalize(symbol), r.value)
    ensures r.Found? ==> forall i :: 0 <= i < |r.value| ==> r.value[i].symbol == Normalize(symbol)
  {
    var sym := Normalize(symbol);
    var data := NewestFirst(rows, sym);
    NewestFirstIsRecentWindow(rows, sym);
    NewestFirstSymbols(rows, sym);
    if data == [] then NotFound else Found(data)
  }

  /** The query's row list: matching rows sorted newest first, cut at the limit. */
  function NewestFirst(rows: seq<DailyRecord>, sym: string): seq<DailyRecord> {
    var sorted := SortBy(MatchingRows(rows, sym), DateOf, true);
    sorted[..Min(RecentLimit, |sorted|)]
  }

  lemma NewestFirstIsRecentWindow(rows: seq<DailyRecord>, sym: string)
    ensures IsRecentWindow(rows, sym, NewestFirst(rows, sym))
  {
    var matching := MatchingRows(rows, sym);
    var sorted := SortBy(matching, DateOf, true);
    assert |sorted| == |multiset(matching)|;
    TakeOrdered(sorted, Min(RecentLimit, |sorted|), DateOf, true);
  }

  lemma NewestFirstSymbols(rows: seq<DailyRecord>, sym: string)
    ensures forall i :: 0 <= i < |NewestFirst(rows, sym)| ==> NewestFirst(rows, sym)[i].symbol == sym
    ensures NewestFirst(rows, sym) == [] <==> forall i :: 0 <= i < |rows| ==> rows[i].symbol != sym
  {
    var matching := MatchingRows(rows, sym);
    var sorted := SortBy(matching, DateOf, true);
    var data := NewestFirst(rows, sym);
    assert data == sorted[..Min(RecentLimit, |sorted|)];
    assert |sorted| == |matching| by {
      assert |multiset(sorted)| == |multiset(matching)|;
    }
    forall i | 0 <= i < |data| ensures data[i].symbol == sym {
      assert data[i] == sorted[i];
      assert sorted[i] in multiset(sorted);
      assert sorted[i] in matching;
    }
  }

  // ------------------------------------------------------- /summary/{symbol}

  function YearCutoff(now: int): int { now - SummaryDays * SecondsPerDay }

  /** The summary's WHERE clause; the cut-off is inclusive. */
  predicate InYear(r: DailyRecord, sym: string, now: int) {
    r.symbol == sym && r.date >= YearCutoff(now)
  }

  function YearRows(rows: seq<DailyRecord>, sym: string, now: int): (inc: seq<DailyRecord>)
    ensures forall x :: multiset(inc)[x] == if InYear(x, sym, now) then multiset(rows)[x] else 0
    ensures forall x :: x in inc ==> x in rows && InYear(x, sym, now)
    ensures forall i :: 0 <= i < |rows| && InYear(rows[i], sym, now) ==> rows[i] in inc
    ensures inc == [] <==> forall i :: 0 <= i < |rows| ==> !InYear(rows[i], sym, now)
  {
    var p := (r: DailyRecord) => InYear(r, sym, now);
    FilterMembers(rows, p);
    Filter(rows, p)
  }

  datatype Summary = Summary(high: real, low: real, avgClose: real)

  function Highs(rs: seq<DailyRecord>): (xs: seq<real>)
    ensures |xs| == |rs| && forall i :: 0 <= i < |rs| ==> xs[i] == rs[i].high
  {
    seq(|rs|, i requires 0 <= i < |rs| => rs[i].high)
  }

  function Lows(rs: seq<DailyRecord>): (xs: seq<real>)
    ensures |xs| == |rs| && forall i :: 0 <= i < |rs| ==> xs[i] == rs[i].low
  {
    seq(|rs|, i requires 0 <= i < |rs| => rs[i].low)
  }

  function CloseValues(rs: seq<DailyRecord>): (xs: seq<real>)
    ensures |xs| == |rs| && forall i :: 0 <= i < |rs| ==> xs[i] == rs[i].close
  {
    seq(|rs|, i requires 0 <= i < |rs| => rs[i].close)
  }

  /** MAX(high), MIN(low) and AVG(close) over the trailing 365 days, the
      average rounded to two decimals; NotFound when no row qualifies. */
  function GetStockSummary(rows: seq<DailyRecord>, symbol: string, now: int): (r: Answer<Summary>)
    ensures r.NotFound? <==> forall i :: 0 <= i < |rows| ==> !InYear(rows[i], Normalize(symbol), now)
    ensures r.Found? ==> forall i :: 0 <= i < |rows| && InYear(rows[i], Normalize(symbol), now) ==>
              r.value.low <= rows[i].low && rows[i].high <= r.value.high
    ensures r.Found? ==> exists i :: 0 <= i < |rows| && InYear(rows[i], Normalize(symbol), now) && rows[i].high == r.value.high
    ensures r.Found? ==> exists i :: 0 <= i < |rows| && InYear(rows[i], Normalize(symbol), now) && rows[i].low == r.value.low
    ensures r.Found? ==> (|YearRows(rows, Normalize(symbol), now)| > 0 &&
              r.value.avgClose == Round2(Mean(CloseValues(YearRows(rows, Normalize(symbol), now)))))
  {
    var sym := Normalize(symbol);
    var included := YearRows(rows, sym, now);
    if included == [] then NotFound
    else
      var high := Maximum(Highs(included));
      var low := Minimum(Lows(included));
      SummaryBoundsHold(rows, sym, now, high, low);
      Found(Summary(high, low, Round2(Mean(CloseValues(included)))))
  }

  /** The maximum and minimum taken over the filtered rows bound, and are
      attained by, the qualifying rows of the whole table. */
  lemma SummaryBoundsHold(rows: seq<DailyRecord>, sym: string, now: int, high: real, low: real)
    requires YearRows(rows, sym, now) != []
    requires high == Maximum(Highs(YearRows(rows, sym, now)))
    requires low == Minimum(Lows(YearRows(rows, sym, now)))
    ensures forall i :: 0 <= i < |rows| && InYear(rows[i], sym, now) ==> low <= rows[i].low && rows[i].high <= high
    ensures exists i :: 0 <= i < |rows| && InYear(rows[i], sym, now) && rows[i].high == high
    ensures exists i :: 0 <= i < |rows| && InYear(rows[i], sym, now) && rows[i].low == low
  {
    var inc := YearRows(rows, sym, now);
    forall i | 0 <= i < |rows| && InYear(rows[i], sym, now)
      ensures low <= rows[i].low && rows[i].high <= high
    {
      var j :| 0 <= j < |inc| && inc[j] == rows[i];
      assert Highs(inc)[j] == rows[i].high && Lows(inc)[j] == rows[i].low;
    }
    var jh :| 0 <= jh < |inc| && Highs(inc)[jh] == high;
    assert inc[jh] in inc;
    var ih :| 0 <= ih < |rows| && rows[ih] == inc[jh];
    var jl :| 0 <= jl < |inc| && Lows(inc)[jl] == low;
    assert inc[jl] in inc;
    var il :| 0 <= il < |rows| && rows[il] == inc[jl];
  }

  /** The reported average lies within half a cent of the range of the
      closes it averages. */
  lemma SummaryAverageWithinCloses(rows: seq<DailyRecord>, symbol: string, now: int, lo: real, hi: real)
    requires GetStockSummary(rows, symbol, now).Found?
    requires forall i :: 0 <= i < |rows| && InYear(rows[i], Normalize(symbol), now) ==> lo <= rows[i].close <= hi
    ensures lo - 0.005 < GetStockSummary(rows, symbol, now).value.avgClose <= hi + 0.005
  {
    var sym := Normalize(symbol);
    var inc := YearRows(rows, sym, now);
    var closes := CloseValues(inc);
    forall j | 0 <= j < |closes| ensures lo <= closes[j] <= hi {
      assert inc[j] in inc;
    }
    MeanBounds(closes, lo, hi);
  }

  /** A row exactly 365 days old counts and a row 366 days old does not: over
      those two rows the summary is that of the newer one alone. */
  lemma SummaryCutoffExample(old365: DailyRecord, old366: DailyRecord, now: int)
    requires old365.symbol == "TCS.NS" && old366.symbol == "TCS.NS"
    requires old365.date == now - 365 * SecondsPerDay
    requires old366.date == now - 366 * SecondsPerDay
    ensures GetStockSummary([old366, old365], "tcs", now)
            == Found(Summary(old365.high, old365.low, Round2(old365.close)))
  {
    NormalizeExampleTcs();
    var rows := [old366, old365];
    var inc := YearRows(rows, "TCS.NS", now);
    assert multiset(rows) == multiset{old366, old365};
    assert multiset(inc) == multiset{old365};
    assert |inc| == 1;
    assert inc[0] in multiset(inc);
    assert inc == [old365];
    assert Highs([old365]) == [old365.high];
    assert Lows([old365]) == [old365.low];
    assert CloseValues([old365]) == [old365.close];
    assert Sum([old365.close]) == old365.close + Sum([]) by {
      assert [old365.close][1..] == [];
    }
  }

  /** Stored dates are midnights while `now` carries the time of day, so the
      row of the calendar day 365 days back is left out whenever the query
      runs after midnight. */
  lemma CutoffDayExcludedAfterMidnight(rows: seq<DailyRecord>, sym: string, now: int)
    requires now % SecondsPerDay != 0
    ensures forall r: DailyRecord :: r.date == (now / SecondsPerDay - SummaryDays) * SecondsPerDay ==> !InYear(r, sym, now)
    ensures forall i :: 0 <= i < |rows| && rows[i].date == (now / SecondsPerDay - SummaryDays) * SecondsPerDay ==>
      rows[i] !in YearRows(rows, sym, now)
  {
  }

  // ----------------------------------------------------------------- /compare

  function QuarterCutoff(now: int): int { now - CompareDays * SecondsPerDay }

  predicate InQuarter(r: DailyRecord, sym: string, now: int) {
    r.symbol == sym && r.date >= QuarterCutoff(now)
  }

  function QuarterRows(rows: seq<DailyRecord>, sym: string, now: int): (inc: seq<DailyRecord>)
    ensures forall x :: multiset(inc)[x] == if InQuarter(x, sym, now) then multiset(rows)[x] else 0
    ensures forall x :: x in inc ==> x in rows && InQuarter(x, sym, now)
    ensures forall i :: 0 <= i < |rows| && InQuarter(rows[i], sym, now) ==> rows[i] in inc
    ensures inc == [] <==> forall i :: 0 <= i < |rows| ==> !InQuarter(rows[i], sym, now)
  {
    var p := (r: DailyRecord) => InQuarter(r, sym, now);
    FilterMembers(rows, p);
    Filter(rows, p)
  }

  /** The `(date, close)` columns the comparison selects. */
  function Points(rs: seq<DailyRecord>): (ps: seq<(int, real)>)
    ensures |ps| == |rs| && forall i :: 0 <= i < |rs| ==> ps[i] == (rs[i].date, rs[i].close)
  {
    seq(|rs|, i requires 0 <= i < |rs| => (rs[i].date, rs[i].close))
  }

  function PointDate(p: (int, real)): int { p.0 }

  function Dates(ps: seq<(int, real)>): (ds: seq<int>)
    ensures |ds| == |ps| && forall i :: 0 <= i < |ps| ==> ds[i] == ps[i].0
  {
    seq(|ps|, i requires 0 <= i < |ps| => ps[i].0)
  }

  function Closes(ps: seq<(int, real)>): (cs: seq<real>)
    ensures |cs| == |ps| && forall i :: 0 <= i < |ps| ==> cs[i] == ps[i].1
  {
    seq(|ps|, i requires 0 <= i < |ps| => ps[i].1)
  }

  function Zip(ds: seq<int>, cs: seq<real>): (ps: seq<(int, real)>)
    requires |ds| == |cs|
    ensures |ps| == |ds| && forall i :: 0 <= i < |ds| ==> ps[i] == (ds[i], cs[i])
  {
    seq(|ds|, i requires 0 <= i < |ds| => (ds[i], cs[i]))
  }

  /** One value of the comparison's response: parallel date and close lists
      for charting, or the "No data found" marker. */
  datatype CompareEntry = Series(dates: seq<int>, closes: seq<real>) | NoData

  /** The query's pairs: (date, close) of the window's rows, oldest first. */
  function OldestFirst(rows: seq<DailyRecord>, sym: string, now: int): seq<(int, real)> {
    SortBy(Points(QuarterRows(rows, sym, now)), PointDate, false)
  }

  lemma OldestFirstFacts(rows: seq<DailyRecord>, sym: string, now: int)
    ensures var data := OldestFirst(rows, sym, now);
      && (data == [] <==> forall i :: 0 <= i < |rows| ==> !InQuarter(rows[i], sym, now))
      && Zip(Dates(data), Closes(data)) == data
      && multiset(data) == multiset(Points(QuarterRows(rows, sym, now)))
      && (forall i, j :: 0 <= i < j < |data| ==> data[i].0 <= data[j].0)
      && (forall i :: 0 <= i < |data| ==> data[i].0 >= QuarterCutoff(now))
  {
    var q := QuarterRows(rows, sym, now);
    var points := Points(q);
    var data := OldestFirst(rows, sym, now);
    assert |data| == |multiset(points)|;
    assert Zip(Dates(data), Closes(data)) == data;
    forall i | 0 <= i < |data| ensures data[i].0 >= QuarterCutoff(now) {
      assert data[i] in multiset(points);
      var j :| 0 <= j < |points| && points[j] == data[i];
      assert q[j] in q;
    }
    forall i, j | 0 <= i < j < |data| ensures data[i].0 <= data[j].0 {
      assert InOrder(PointDate(data[i]), PointDate(data[j]), false);
    }
  }

  /** The entry for one raw input: the window's pairs oldest first, or
      NoData when there is none. */
  function CompareEntryFor(rows: seq<DailyRecord>, symbol: string, now: int): CompareEntry {
    var data := OldestFirst(rows, Normalize(symbol), now);
    if data == [] then NoData else Series(Dates(data), Closes(data))
  }

  /** What an entry for the stored symbol `sym` holds, whatever order the
      database returns rows with equal dates in: NoData exactly when `sym`
      has no row in the trailing 90 days; otherwise parallel lists of equal
      length, dates ascending and inside the window, each (date, close) pair
      taken from one row and every such row represented once. */
  ghost predicate IsCompareEntry(rows: seq<DailyRecord>, sym: string, now: int, e: CompareEntry) {
    && (e.NoData? <==> forall i :: 0 <= i < |rows| ==> !InQuarter(rows[i], sym, now))
    && (e.Series? ==> |e.dates| == |e.closes|)
    && (e.Series? ==> forall i, j :: 0 <= i < j < |e.dates| ==> e.dates[i] <= e.dates[j])
    && (e.Series? ==> forall i :: 0 <= i < |e.dates| ==> e.dates[i] >= QuarterCutoff(now))
    && (e.Series? ==> multiset(Zip(e.dates, e.closes)) == multiset(Points(QuarterRows(rows, sym, now))))
  }

  /** The entry computed for a raw input meets that description for the
      normalised symbol. */
  lemma CompareEntrySpec(rows: seq<DailyRecord>, symbol: string, now: int)
    ensures IsCompareEntry(rows, Normalize(symbol), now, CompareEntryFor(rows, symbol, now))
  {
    OldestFirstFacts(rows, Normalize(symbol), now);
  }

  /** Inputs that differ only in case or in an omitted ".NS" get the same
      entry (under their own keys). */
  lemma CompareEntryCaseInsensitive(rows: seq<DailyRecord>, a: string, b: string, now: int)
    requires Normalize(a) == Normalize(b)
    ensures CompareEntryFor(rows, a, now) == CompareEntryFor(rows, b, now)
  {
  }

  /** The /compare endpoint: one entry per raw input string, filled in
      input order; an input without data gets NoData without affecting the
      other entry, and two equal inputs share one key. */
  method CompareStocks(rows: seq<DailyRecord>, symbol1: string, symbol2: string, now: int)
    returns (response: map<string, CompareEntry>)
    ensures response.Keys == {symbol1, symbol2}
    ensures |response| == if symbol1 == symbol2 then 1 else 2
    ensures forall s :: s in response ==> response[s] == CompareEntryFor(rows, s, now)
    ensures forall s :: s in response ==> IsCompareEntry(rows, Normalize(s), now, response[s])
  {
    var symbols := [symbol1, symbol2];
    response := map[];
    for i := 0 to |symbols|
      invariant forall s :: s in response <==> s in symbols[..i]
      invariant forall s :: s in response ==> response[s] == CompareEntryFor(rows, s, now)
    {
      var symbol := symbols[i];
      var symbolUpper := Upper(symbol);
      if !HasMarketSuffix(symbolUpper) {
        symbolUpper := symbolUpper + ".NS";
      }
      assert symbolUpper == Normalize(symbol);
      var data := OldestFirst(rows, symbolUpper, now);
      var entry: CompareEntry;
      if data != [] {
        entry := Series(Dates(data), Closes(data));
      } else {
        entry := NoData;
      }
      assert entry == CompareEntryFor(rows, symbol, now);
      response := response[symbol := entry];
      assert symbols[..i + 1] == symbols[..i] + [symbol];
    }
    assert symbols[..2] == [symbol1, symbol2];
    assert response.Keys == {symbol1, symbol2};
    KeysOfPair(response, symbol1, symbol2);
    EntriesMeetSpec(rows, response, now);
  }

  lemma EntriesMeetSpec(rows: seq<DailyRecord>, response: map<string, CompareEntry>, now: int)
    requires forall s :: s in response ==> response[s] == CompareEntryFor(rows, s, now)
    ensures forall s :: s in response ==> IsCompareEntry(rows, Normalize(s), now, response[s])
  {
    forall s | s in response
      ensures IsCompareEntry(rows, Normalize(s), now, response[s])
    {
      CompareEntrySpec(rows, s, now);
    }
  }

  lemma KeysOfPair<V>(m: map<string, V>, a: string, b: string)
    requires m.Keys == {a, b}
    ensures |m| == if a == b then 1 else 2
  {
    assert |m| == |m.Keys|;
    if a == b {
      assert m.Keys == {a};
    }
  }
}
