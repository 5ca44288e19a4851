/** The loader (seed.py): for each configured ticker, skip it when its
    company is already stored or when the download is empty; otherwise
    transform the bars, name the company and store the company together with
    one daily row per transformed bar. The market-data service is a
    parameter; the session becomes a `Store` object whose two tables are
    fields. */
module Ingestion {
  import opened Records
  import opened Symbols
  import opened Stats
  import opened Features

  /** The fifteen tickers the loader processes, in order. */
  const Tickers: seq<string> := [
    "RELIANCE.NS", "TCS.NS", "INFY.NS", "HDFCBANK.NS", "ICICIBANK.NS",
    "LT.NS", "SBIN.NS", "AXISBANK.NS", "WIPRO.NS", "TECHM.NS",
    "MARUTI.NS", "HINDUNILVR.NS", "ITC.NS", "BHARTIARTL.NS", "ASIANPAINT.NS"
  ]

  /** The outcome of asking the service for a ticker's profile: the value
      of its `longName` key (`None` when the key is absent), or an
      exception. */
  datatype NameLookup = Info(longName: Option<string>) | Raised

  /** What the loader depends on outside itself: the market-data service's
      two calls (a ticker's five-year daily history and its profile) and the
      numeric library's square root, which pandas' `std()` uses. */
  datatype Environment = Environment(
    download: string -> seq<RawBar>,
    info: string -> NameLookup,
    sqrt: real -> real)

  /** The ticker's clean history has no zero opening price, so every daily
      return is a real number. */
  predicate Plausible(env: Environment, ticker: string) {
    OpensNonZero(DropIncomplete(env.download(ticker)))
  }

  /** The stored company name: the profile's long name, else the part of the
      ticker before its first '.'. */
  function CompanyName(ticker: string, lookup: NameLookup): (name: string)
    ensures lookup.Info? && lookup.longName.Some? ==> name == lookup.longName.value
    ensures lookup.Raised? || lookup.longName.None? ==> name == BaseName(ticker) && name <= ticker && '.' !in name
  {
    match lookup
    case Info(Some(n)) => n
    case _ => BaseName(ticker)
  }

  /** One stored daily row from one transformed frame row. */
  function ToRecord(ticker: string, row: FrameRow): (r: DailyRecord)
    requires HasWindows(row)
    ensures r.symbol == ticker && r.date == row.bar.date
  {
    DailyRecord(ticker, row.bar.date, row.bar.open, row.bar.high, row.bar.low, row.bar.close,
      row.bar.volume, row.dailyReturn, row.sevenDayMa.value, row.volatility30d.value)
  }

  predicate AllWindows(frame: seq<FrameRow>) {
    forall i :: 0 <= i < |frame| ==> HasWindows(frame[i])
  }

  /** The rows built from a frame, one per frame row in frame order. */
  function ToRecords(ticker: string, frame: seq<FrameRow>): (records: seq<DailyRecord>)
    requires AllWindows(frame)
    ensures |records| == |frame|
    ensures forall i :: 0 <= i < |frame| ==> records[i] == ToRecord(ticker, frame[i])
  {
    seq(|frame|, i requires 0 <= i < |frame| => ToRecord(ticker, frame[i]))
  }

  /** The `data_to_insert` loop over the frame's rows. */
  method BuildRecords(ticker: string, frame: seq<FrameRow>) returns (records: seq<DailyRecord>)
    requires AllWindows(frame)
    ensures records == ToRecords(ticker, frame)
  {
    records := [];
    var i := 0;
    while i < |frame|
      invariant 0 <= i <= |frame|
      invariant records == ToRecords(ticker, frame[..i])
    {
      assert frame[..i + 1] == frame[..i] + [frame[i]];
      records := records + [ToRecord(ticker, frame[i])];
      i := i + 1;
    }
    assert frame[..i] == frame;
  }

  /** The rows the loader stores for a ticker whose download is `raw`. */
  function TickerRecords(ticker: string, raw: seq<RawBar>, sqrt: real -> real): (records: seq<DailyRecord>)
    requires OpensNonZero(DropIncomplete(raw))
    ensures forall i :: 0 <= i < |records| ==> records[i].symbol == ticker
  {
    ToRecords(ticker, Transform(raw, sqrt))
  }

  /** Stored row k of a loaded ticker is clean bar k + 29 with its three
      derived values: the bar's own return, the mean of clean closes
      k + 23 .. k + 29 and the standard deviation of clean returns
      k .. k + 29; there are max(0, n - 29) rows for n clean bars. */
  lemma TickerRecordsSpec(ticker: string, raw: seq<RawBar>, sqrt: real -> real)
    requires OpensNonZero(DropIncomplete(raw))
    ensures var n := |DropIncomplete(raw)|;
      |TickerRecords(ticker, raw, sqrt)| == if n < 30 then 0 else n - 29
    ensures forall k :: 0 <= k < |TickerRecords(ticker, raw, sqrt)| ==>
      var c := DropIncomplete(raw);
      var r := TickerRecords(ticker, raw, sqrt)[k];
      && k + 30 <= |c|
      && r.symbol == ticker
      && r.date == c[k + 29].date
      && r.open == c[k + 29].open && r.high == c[k + 29].high
      && r.low == c[k + 29].low && r.close == c[k + 29].close
      && r.volume == c[k + 29].volume
      && r.dailyReturn == DailyReturn(c[k + 29])
      && r.sevenDayMa == Mean(CloseSeries(c)[k + 23..k + 30])
      && r.volatility30d == sqrt(SampleVariance(ReturnSeries(c)[k..k + 30]))
  {
    TransformShape(raw, sqrt);
    forall k | 0 <= k < |TickerRecords(ticker, raw, sqrt)|
      ensures var c := DropIncomplete(raw);
        var r := TickerRecords(ticker, raw, sqrt)[k];
        && k + 30 <= |c|
        && r.sevenDayMa == Mean(CloseSeries(c)[k + 23..k + 30])
        && r.volatility30d == sqrt(SampleVariance(ReturnSeries(c)[k..k + 30]))
    {
      TransformRow(raw, sqrt, k);
    }
  }

  /** The two tables. */
  datatype StoreState = StoreState(companies: map<string, Company>, rows: seq<DailyRecord>)

  /** The primary key on `companies.symbol`: each company is stored under
      its own symbol. */
  predicate KeyedBySymbol(companies: map<string, Company>) {
    forall s :: s in companies ==> companies[s].symbol == s
  }

  /** Under the primary key, membership of the key set is the loader's
      `filter_by(symbol=ticker)` query finding a company. */
  lemma StoredIffQueried(companies: map<string, Company>, ticker: string)
    requires KeyedBySymbol(companies)
    ensures ticker in companies <==> exists s :: s in companies && companies[s].symbol == ticker
  {
    if exists s :: s in companies && companies[s].symbol == ticker {
      var s :| s in companies && companies[s].symbol == ticker;
      assert s == ticker;
    }
  }

  /** Each company is stored under its own symbol and every daily row's
      symbol refers to a stored company (the foreign key). */
  predicate ValidState(st: StoreState) {
    && KeyedBySymbol(st.companies)
    && (forall i :: 0 <= i < |st.rows| ==> st.rows[i].symbol in st.companies)
  }

  datatype Outcome = SkippedExisting | SkippedEmpty | Loaded(count: nat)

  /** What the loop body reports for one ticker. */
  function StepOutcome(st: StoreState, env: Environment, ticker: string): (o: Outcome)
    requires Plausible(env, ticker)
    ensures o.SkippedExisting? <==> ticker in st.companies
    ensures o.SkippedEmpty? <==> ticker !in st.companies && env.download(ticker) == []
    ensures o.Loaded? ==> o.count == |TickerRecords(ticker, env.download(ticker), env.sqrt)|
  {
    if ticker in st.companies then SkippedExisting
    else if env.download(ticker) == [] then SkippedEmpty
    else Loaded(|TickerRecords(ticker, env.download(ticker), env.sqrt)|)
  }

  /** Adds one company and appends its rows. */
  function Load(st: StoreState, company: Company, records: seq<DailyRecord>): (next: StoreState)
    ensures next.companies.Keys == st.companies.Keys + {company.symbol}
    ensures next.companies[company.symbol] == company
    ensures forall s :: s in st.companies && s != company.symbol ==> next.companies[s] == st.companies[s]
    ensures next.rows == st.rows + records
  {
    StoreState(st.companies[company.symbol := company], st.rows + records)
  }

  /** Loading a company with rows that all refer to it keeps the tables
      consistent. */
  lemma LoadKeepsValid(st: StoreState, company: Company, records: seq<DailyRecord>)
    requires ValidState(st)
    requires forall i :: 0 <= i < |records| ==> records[i].symbol == company.symbol
    ensures ValidState(Load(st, company, records))
  {
    var next := Load(st, company, records);
    forall i | 0 <= i < |next.rows| ensures next.rows[i].symbol in next.companies {
      if i >= |st.rows| {
        assert next.rows[i] == records[i - |st.rows|];
      }
    }
  }

  /** The loop body for one ticker, as a change of the two tables. */
  function Step(st: StoreState, env: Environment, ticker: string): StoreState
    requires Plausible(env, ticker)
  {
    if ticker in st.companies then st
    else
      var raw := env.download(ticker);
      if raw == [] then st
      else
        Load(st, Company(ticker, CompanyName(ticker, env.info(ticker))), TickerRecords(ticker, raw, env.sqrt))
  }

  /** One step either leaves the tables alone (the ticker is stored, or
      nothing was downloaded) or adds exactly the ticker's company and
      appends exactly its rows; stored companies and rows are never
      changed. */
  lemma StepEffect(st: StoreState, env: Environment, ticker: string)
    requires Plausible(env, ticker)
    ensures ticker in st.companies || env.download(ticker) == [] ==> Step(st, env, ticker) == st
    ensures ticker !in st.companies && env.download(ticker) != [] ==>
      && Step(st, env, ticker).companies ==
           st.companies[ticker := Company(ticker, CompanyName(ticker, env.info(ticker)))]
      && Step(st, env, ticker).rows == st.rows + TickerRecords(ticker, env.download(ticker), env.sqrt)
    ensures st.companies.Keys <= Step(st, env, ticker).companies.Keys
    ensures forall s :: s in st.companies ==> Step(st, env, ticker).companies[s] == st.companies[s]
    ensures st.rows <= Step(st, env, ticker).rows
    ensures ticker in Step(st, env, ticker).companies || env.download(ticker) == []
  {
  }

  /** A download too short to fill a volatility window still stores the
      company, with no daily rows. */
  lemma ShortHistoryStoresCompanyOnly(st: StoreState, env: Environment, ticker: string)
    requires Plausible(env, ticker)
    requires ticker !in st.companies
    requires env.download(ticker) != []
    requires |DropIncomplete(env.download(ticker))| < 30
    ensures ticker in Step(st, env, ticker).companies
    ensures Step(st, env, ticker).rows == st.rows
    ensures StepOutcome(st, env, ticker) == Loaded(0)
  {
    TickerRecordsSpec(ticker, env.download(ticker), env.sqrt);
  }

  lemma StepKeepsValid(st: StoreState, env: Environment, ticker: string)
    requires Plausible(env, ticker)
    requires ValidState(st)
    ensures ValidState(Step(st, env, ticker))
  {
    if ticker !in st.companies && env.download(ticker) != [] {
      var company := Company(ticker, CompanyName(ticker, env.info(ticker)));
      LoadKeepsValid(st, company, TickerRecords(ticker, env.download(ticker), env.sqrt));
    }
  }

  predicate AllPlausible(env: Environment, tickers: seq<string>) {
    forall t :: t in tickers ==> Plausible(env, t)
  }

  /** The loop over the ticker list, in list order. */
  function SeedAll(st: StoreState, env: Environment, tickers: seq<string>): StoreState
    requires AllPlausible(env, tickers)
    decreases |tickers|
  {
    if tickers == [] then st
    else SeedAll(Step(st, env, tickers[0]), env, tickers[1..])
  }

  /** Running the loop over a + b is running it over a, then over b. */
  lemma {:induction false} SeedAllAppend(st: StoreState, env: Environment, a: seq<string>, b: seq<string>)
    requires AllPlausible(env, a) && AllPlausible(env, b)
    ensures AllPlausible(env, a + b)
    ensures SeedAll(st, env, a + b) == SeedAll(SeedAll(st, env, a), env, b)
    decreases |a|
  {
    if a == [] {
      assert a + b == b;
    } else {
      var ab := a + b;
      assert ab[0] == a[0];
      assert ab[1..] == a[1..] + b;
      SeedAllAppend(Step(st, env, a[0]), env, a[1..], b);
    }
  }

  /** One more ticker at the end of the list is one more step. */
  lemma SeedAllSnoc(st: StoreState, env: Environment, tickers: seq<string>, t: string)
    requires AllPlausible(env, tickers) && Plausible(env, t)
    ensures AllPlausible(env, tickers + [t])
    ensures SeedAll(st, env, tickers + [t]) == Step(SeedAll(st, env, tickers), env, t)
  {
    SeedAllAppend(st, env, tickers, [t]);
    assert [t][1..] == [];
  }

  /** The loop keeps the tables consistent. */
  lemma {:induction false} SeedAllKeepsValid(st: StoreState, env: Environment, tickers: seq<string>)
    requires AllPlausible(env, tickers)
    requires ValidState(st)
    ensures ValidState(SeedAll(st, env, tickers))
    decreases |tickers|
  {
    if tickers != [] {
      StepKeepsValid(st, env, tickers[0]);
      assert AllPlausible(env, tickers[1..]);
      SeedAllKeepsValid(Step(st, env, tickers[0]), env, tickers[1..]);
    }
  }

  /** The loop only adds: stored companies and rows stay as they were. */
  lemma {:induction false} SeedAllGrows(st: StoreState, env: Environment, tickers: seq<string>)
    requires AllPlausible(env, tickers)
    ensures st.companies.Keys <= SeedAll(st, env, tickers).companies.Keys
    ensures forall s :: s in st.companies ==> SeedAll(st, env, tickers).companies[s] == st.companies[s]
    ensures st.rows <= SeedAll(st, env, tickers).rows
    decreases |tickers|
  {
    if tickers != [] {
      StepEffect(st, env, tickers[0]);
      assert AllPlausible(env, tickers[1..]);
      SeedAllGrows(Step(st, env, tickers[0]), env, tickers[1..]);
    }
  }

  /** Every ticker of the list is stored afterwards unless its download was
      empty. */
  lemma {:induction false} SeedAllCovers(st: StoreState, env: Environment, tickers: seq<string>)
    requires AllPlausible(env, tickers)
    ensures forall i :: 0 <= i < |tickers| ==>
      tickers[i] in SeedAll(st, env, tickers).companies || env.download(tickers[i]) == []
    decreases |tickers|
  {
    if tickers != [] {
      var next := Step(st, env, tickers[0]);
      StepEffect(st, env, tickers[0]);
      assert AllPlausible(env, tickers[1..]);
      SeedAllCovers(next, env, tickers[1..]);
      SeedAllGrows(next, env, tickers[1..]);
      forall i | 0 <= i < |tickers|
        ensures tickers[i] in SeedAll(st, env, tickers).companies || env.download(tickers[i]) == []
      {
        if i > 0 {
          assert tickers[i] == tickers[1..][i - 1];
        }
      }
    }
  }

  /** On tables that already hold every ticker with a non-empty download,
      the loop changes nothing. */
  lemma {:induction false} SeedAllIdle(st: StoreState, env: Environment, tickers: seq<string>)
    requires AllPlausible(env, tickers)
    requires forall i :: 0 <= i < |tickers| ==> tickers[i] in st.companies || env.download(tickers[i]) == []
    ensures SeedAll(st, env, tickers) == st
    decreases |tickers|
  {
    if tickers != [] {
      StepEffect(st, env, tickers[0]);
      assert AllPlausible(env, tickers[1..]);
      assert forall i :: 0 <= i < |tickers[1..]| ==> tickers[1..][i] == tickers[i + 1];
      SeedAllIdle(st, env, tickers[1..]);
    }
  }

  /** Running the loader a second time against the same service leaves the
      tables as the first run left them. */
  lemma SeedIdempotent(st: StoreState, env: Environment, tickers: seq<string>)
    requires AllPlausible(env, tickers)
    ensures SeedAll(SeedAll(st, env, tickers), env, tickers) == SeedAll(st, env, tickers)
  {
    SeedAllCovers(st, env, tickers);
    SeedAllIdle(SeedAll(st, env, tickers), env, tickers);
  }

  /** Every configured ticker carries the ".NS" market suffix. */
  lemma TickersHaveSuffix()
    ensures |Tickers| == 15
    ensures forall i :: 0 <= i < |Tickers| ==> EndsWith(Tickers[i], ".NS")
  {
  }

  /** The configured tickers are already in normal form, so the API's
      normaliser maps each to itself. */
  lemma TickersAreNormal()
    ensures forall i :: 0 <= i < |Tickers| ==> Normalize(Tickers[i]) == Tickers[i]
  {
    TickersInNormalForm();
    forall i | 0 <= i < |Tickers| ensures Normalize(Tickers[i]) == Tickers[i] {
      NormalFormFixed(Tickers[i]);
    }
  }

  /** Each listed ticker is upper case with a market suffix; the literals
      are checked in small groups to keep each unfolding cheap. */
  lemma TickersInNormalForm()
    ensures forall i :: 0 <= i < |Tickers| ==> IsNormal(Tickers[i])
  {
    TickersInNormalForm0();
    TickersInNormalForm1();
    TickersInNormalForm2();
    TickersInNormalForm3();
    TickersInNormalForm4();
    TickersInNormalForm5();
    TickersInNormalForm6();
    TickersInNormalForm7();
  }

  lemma TickersInNormalForm0()
    ensures IsNormal("RELIANCE.NS")
    ensures IsNormal("TCS.NS")
    ensures IsNormal("INFY.NS")
  {
  }

  lemma TickersInNormalForm1()
    ensures IsNormal("HDFCBANK.NS")
    ensures IsNormal("ICICIBANK.NS")
  {
  }

  lemma TickersInNormalForm2()
    ensures IsNormal("LT.NS")
    ensures IsNormal("SBIN.NS")
  {
  }

  lemma TickersInNormalForm3()
    ensures IsNormal("AXISBANK.NS")
    ensures IsNormal("WIPRO.NS")
  {
  }

  lemma TickersInNormalForm4()
    ensures IsNormal("TECHM.NS")
    ensures IsNormal("MARUTI.NS")
  {
  }

  lemma TickersInNormalForm5()
    ensures IsNormal("HINDUNILVR.NS")
  {
  }

  lemma TickersInNormalForm6()
    ensures IsNormal("ITC.NS")
    ensures IsNormal("BHARTIARTL.NS")
  {
  }

  lemma TickersInNormalForm7()
    ensures IsNormal("ASIANPAINT.NS")
  {
  }

  /** The database session: the companies table keyed by symbol and the
      daily table as a list of rows in insertion order. */
  class Store {
    var companies: map<string, Company>
    var rows: seq<DailyRecord>

    function State(): StoreState
      reads this
    {
      StoreState(companies, rows)
    }

    predicate Valid()
      reads this
    {
      ValidState(State())
    }

    /** Opening a session on the database file: the tables hold whatever
        earlier runs stored (creating the tables keeps existing ones). */
    constructor (companies0: map<string, Company>, rows0: seq<DailyRecord>)
      requires KeyedBySymbol(companies0)
      ensures State() == StoreState(companies0, rows0)
      ensures KeyedBySymbol(companies)
    {
      companies := companies0;
      rows := rows0;
    }

    /** One pass of the loop body for `ticker`, committed as one unit. */
    method ProcessTicker(env: Environment, ticker: string) returns (outcome: Outcome)
      requires Plausible(env, ticker)
      modifies this
      ensures State() == Step(old(State()), env, ticker)
      ensures outcome == StepOutcome(old(State()), env, ticker)
      ensures old(Valid()) ==> Valid()
      ensures old(KeyedBySymbol(companies)) ==> KeyedBySymbol(companies)
    {
      StepKeepsValidIf(State(), env, ticker);
      if ticker in companies {
        return SkippedExisting;
      }
      var raw := env.download(ticker);
      if raw == [] {
        return SkippedEmpty;
      }
      var frame := AddColumns(DropIncomplete(raw), env.sqrt);
      frame := DropNa(frame);
      var name := CompanyName(ticker, env.info(ticker));
      var dataToInsert := BuildRecords(ticker, frame);
      companies := companies[ticker := Company(ticker, name)];
      rows := rows + dataToInsert;
      outcome := Loaded(|dataToInsert|);
    }

    /** The loader's main loop over `tickers`. */
    method Seed(env: Environment, tickers: seq<string>)
      requires AllPlausible(env, tickers)
      modifies this
      ensures State() == SeedAll(old(State()), env, tickers)
      ensures old(Valid()) ==> Valid()
      ensures old(KeyedBySymbol(companies)) ==> KeyedBySymbol(companies)
    {
      ghost var start := State();
      SeedAllKeepsValidIf(start, env, tickers);
      for i := 0 to |tickers|
        invariant AllPlausible(env, tickers[..i])
        invariant State() == SeedAll(start, env, tickers[..i])
        invariant KeyedBySymbol(start.companies) ==> KeyedBySymbol(companies)
      {
        var ticker := tickers[i];
        assert tickers[..i + 1] == tickers[..i] + [ticker];
        SeedAllSnoc(start, env, tickers[..i], ticker);
        var _ := ProcessTicker(env, ticker);
      }
      assert tickers[..|tickers|] == tickers;
    }
  }

  lemma StepKeepsValidIf(st: StoreState, env: Environment, ticker: string)
    requires Plausible(env, ticker)
    ensures ValidState(st) ==> ValidState(Step(st, env, ticker))
  {
    if ValidState(st) {
      StepKeepsValid(st, env, ticker);
    }
  }

  lemma SeedAllKeepsValidIf(st: StoreState, env: Environment, tickers: seq<string>)
    requires AllPlausible(env, tickers)
    ensures ValidState(st) ==> ValidState(SeedAll(st, env, tickers))
  {
    if ValidState(st) {
      SeedAllKeepsValid(st, env, tickers);
    }
  }
}
