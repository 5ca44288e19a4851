# stocksight in Dafny

A verified model of the two deterministic pieces of stocksight, a small
FastAPI and pandas application that serves daily prices of Indian
(NSE/BSE) stocks:

- **The query layer of the API** (`main.py`). It has a symbol normaliser
  and four read endpoints:
  - the company list;
  - the last 30 trading rows of a symbol, newest first;
  - the 52-week high, low and average close;
  - a two-symbol comparison of the last 90 days of closes.

  The daily table is a sequence of `DailyRecord` values. The time of the
  request, `now`, is a parameter. Dates are integers counting seconds.
- **The loader** (`seed.py`). For each configured ticker it skips tickers
  already stored and tickers whose download is empty. It then:
  - drops incomplete bars;
  - adds the daily return, the 7-row moving average of the close and the
    30-row sample standard deviation of the return;
  - drops rows whose windows are not full;
  - stores the company and its rows in one commit.

  What the loader depends on outside itself is one parameter,
  `Ingestion.Environment`: the market-data service's two calls (the bars and
  the company profile) and the numeric library's square root, which the
  standard deviation uses. The database session is
  the class `Ingestion.Store`, whose two tables are fields.

Modules:

| file | module | contents |
|---|---|---|
| `records.dfy` | `Records` | `Company` and `DailyRecord`, the two tables of `models.py` |
| `symbols.dfy` | `Symbols` | the normaliser, and the base-name fallback for company names |
| `sequences.dfy` | `Sequences` | order-preserving filter, and sort by date with ties left open |
| `stats.dfy` | `Stats` | sum, mean, sample variance, max, min, two-decimal rounding |
| `queries.dfy` | `Queries` | the four endpoints |
| `features.dfy` | `Features` | the per-ticker transform of the bars |
| `ingestion.dfy` | `Ingestion` | the loader loop, its specification and the `Store` class |

A ticker whose download is non-empty but leaves no row with full windows
still gets its company, with no daily rows (`seed.py:69-79`);
`Ingestion.ShortHistoryStoresCompanyOnly` states this.

## Model

| member | source | states |
|---|---|---|
| Queries.GetCompanies | main.py:76-79 | NotFound exactly when no company is stored; otherwise the answer is exactly the set of stored companies |
| Symbols.Normalize | main.py:89-91 | the result ends in ".NS" or ".BO" and begins with the uppercased input |
| Symbols.Upper | main.py:89 | same length; each lowercase ASCII letter becomes its capital, every other character is kept, and no lowercase letter is left |
| Symbols.NormalizeKeepsOrAppends | main.py:109-111 | an uppercased input that already ends in ".NS"/".BO" is returned unchanged, and otherwise exactly ".NS" is appended (both directions) |
| Symbols.NormalizeIdempotent | main.py:146-148 | normalising a normalised symbol changes nothing |
| Symbols.NormalizeCaseInsensitive | main.py:89-91 | inputs with the same uppercased form normalise alike |
| Symbols.NormalizeExampleTcs | main.py:89-91 | "tcs" and "TCS" both become "TCS.NS" |
| Symbols.NormalizeExampleTcsNs | main.py:89-91 | "tcs.ns" becomes "TCS.NS" |
| Symbols.NormalizeExampleBo | main.py:89-91 | "x.bo" becomes "X.BO" |
| Symbols.NormalizeExampleOtherSuffix | main.py:90-91 | "x.bse" becomes "X.BSE.NS": another dotted suffix still gets ".NS" |
| Queries.MatchingRows | main.py:93-94 | the rows whose symbol matches, with their multiplicities; empty exactly when none matches |
| Queries.GetStockData | main.py:89-100 | NotFound exactly when no row has the normalised symbol; otherwise the answer is a valid recent window whose rows all have that symbol |
| Queries.NewestFirstIsRecentWindow | main.py:93-97 | sorting descending and taking the first min(30, m) rows gives m' = min(30, m) matching rows in non-increasing date order, and no matching row left out is newer than any returned row (ties unconstrained) |
| Queries.NewestFirst | main.py:93-97 | the descending sort and `LIMIT 30` of the matching rows; its behaviour is given by NewestFirstIsRecentWindow and NewestFirstSymbols |
| Queries.NewestFirstSymbols | main.py:93-97 | every returned row has the queried symbol; the list is empty exactly when no row matches |
| Queries.YearRows | main.py:113-121 | exactly the rows with the symbol dated at or after now minus 365 days, with their multiplicities |
| Queries.GetStockSummary | main.py:109-131 | NotFound exactly when no row qualifies; otherwise high and low bound every qualifying row's high and low and are attained by qualifying rows, and the average is the two-decimal rounding of the mean close of the qualifying rows |
| Queries.SummaryBoundsHold | main.py:115-122 | MAX(high) and MIN(low) over the filtered rows bound and are attained by the qualifying rows of the whole table |
| Queries.SummaryAverageWithinCloses | main.py:118-130 | the rounded average lies within half a cent of any range holding all qualifying closes |
| Queries.SummaryCutoffExample | main.py:113-121 | a row dated exactly 365 days back counts and one 366 days back does not |
| Queries.CutoffDayExcludedAfterMidnight | main.py:113 | because the cut-off keeps now's time of day, a row dated at the midnight of the day 365 days back is not in the summary's rows whenever now is not midnight |
| Queries.QuarterRows | main.py:150-152 | exactly the rows with the symbol dated at or after now minus 90 days, with their multiplicities |
| Queries.OldestFirstFacts | main.py:150-154 | the query's (date, close) pairs are those of the qualifying rows, as a multiset, in non-decreasing date order, all at or after the cut-off, and empty exactly when no row qualifies |
| Queries.OldestFirst | main.py:150-154 | the ascending sort of the window's (date, close) pairs; its behaviour is given by OldestFirstFacts |
| Sequences.SortBy | main.py:95 | `ORDER BY date`: the result is ordered by the key in the requested direction and is a permutation of the input |
| Queries.CompareEntrySpec | main.py:150-163 | the entry computed for a raw input is NoData exactly when its normalised symbol has no row in the last 90 days; otherwise dates and closes have equal length, pair up the qualifying rows exactly, and are ascending and inside the window (`IsCompareEntry`, which holds for every tie order) |
| Queries.CompareEntryFor | main.py:146-163 | the per-input entry of /compare; its behaviour is given by CompareEntrySpec and CompareEntryCaseInsensitive |
| Queries.EntriesMeetSpec | main.py:150-163 | every entry of a response filled by the per-input computation meets that description for its key's normalised symbol |
| Queries.CompareEntryCaseInsensitive | main.py:146-148 | two inputs with the same normal form get the same entry |
| Queries.CompareStocks | main.py:140-165 | the response keys are exactly the two raw inputs (one key when they are equal); each key's entry is the one computed from its own input alone, and it meets `IsCompareEntry` for the normalised input |
| Features.DropIncomplete | seed.py:57 | the first dropna never lengthens the download |
| Features.DropIncompleteAppend | seed.py:57 | the first dropna works bar by bar and keeps the order of the kept bars |
| Features.DropIncompleteSingle | seed.py:57 | a single bar is kept, with its fields, exactly when it is complete |
| Features.DropIncompleteKeepsComplete | seed.py:57 | a download without gaps comes through unchanged |
| Features.ReturnSeries | seed.py:65 | the daily return of each row is (close - open) / open of that row alone |
| Features.DailyReturn | seed.py:65 | the return applied to the open gives the close: open + open * r == close |
| Features.RollingMean | seed.py:66 | the rolling mean has a value exactly once the window is full |
| Features.RollingStd | seed.py:67 | the rolling standard deviation has a value exactly once the window is full |
| Features.AddColumns | seed.py:65-67 | each row keeps its bar and its own daily return; the moving average is present from the 7th row and the volatility from the 30th |
| Features.AddColumnsWindows | seed.py:66-67 | at row i the moving average is the mean of closes i-6..i and the volatility the square root of the sample variance of returns i-29..i (row positions, not calendar days) |
| Features.DropNa | seed.py:69 | every row left by the second dropna has both rolling values |
| Features.DropNaPrefix | seed.py:69 | on a frame whose rows are full exactly from index d, the second dropna removes exactly the first d rows |
| Features.TransformShape | seed.py:57-69 | for n clean bars the transform yields max(0, n-29) rows and output row k is clean row k+29 with its columns |
| Features.Transform | seed.py:57-69 | every output row has both rolling windows; its shape and rows are given by TransformShape and TransformRow |
| Features.TransformRow | seed.py:65-69 | output row k carries clean bar k+29, its own return, the mean close of clean rows k+23..k+29 and the standard deviation of the returns of clean rows k..k+29 |
| Features.TransformShortHistory | seed.py:66-69 | fewer than 30 clean bars give no rows; exactly 30 give one |
| Features.MovingAverageOfConstantCloses | seed.py:66 | seven equal closes give that close as the moving average |
| Features.MovingAverageWithinWindow | seed.py:66 | the moving average lies within the range of its seven closes |
| Features.VolatilityIsStd | seed.py:67 | the volatility is non-negative and its square is the sample variance (divisor n-1) of its thirty returns |
| Features.VolatilityOfConstantReturns | seed.py:67 | thirty equal returns give zero volatility |
| Stats.SqrtOfVariance | seed.py:67 | the square root of a sample variance is a standard deviation, zero exactly when the variance is |
| Stats.VarianceOfConstant | seed.py:67 | constant data has zero sample variance |
| Stats.MeanBounds | main.py:118 | a mean lies between any bounds of its data |
| Stats.Maximum | main.py:116 | the maximum bounds every element and is one of them |
| Stats.Minimum | main.py:117 | the minimum is below every element and is one of them |
| Stats.Round2 | main.py:130 | the rounded value is within half a cent of its argument and has at most two decimals |
| Symbols.BaseName | seed.py:74-76 | the result is the ticker's prefix up to, not including, its first '.', or the whole ticker when it has none |
| Symbols.BaseNameBeforeDot | seed.py:76 | the base name of stem + "." + rest is stem when stem has no '.' |
| Symbols.BaseNameExample | seed.py:76 | "RELIANCE.NS" gives "RELIANCE" |
| Ingestion.CompanyName | seed.py:72-76 | the profile's long name when present; otherwise, or when the lookup raises, the ticker's base name |
| Ingestion.ToRecords | seed.py:83-95 | one row per frame row, in frame order, each carrying the ticker as its symbol |
| Ingestion.ToRecord | seed.py:84-95 | the stored row carries the ticker as its symbol and the bar's date |
| Ingestion.BuildRecords | seed.py:81-96 | the append loop produces exactly the rows of the frame, in order |
| Ingestion.TickerRecords | seed.py:84-85 | every row stored for a ticker has that ticker as its symbol |
| Ingestion.TickerRecordsSpec | seed.py:57-95 | a loaded ticker gets max(0, n-29) rows, and row k holds clean bar k+29's date, prices and volume with its return, moving average and volatility |
| Ingestion.StepOutcome | seed.py:23-35 | the body reports a skip for a stored ticker, a skip for an empty download, and otherwise a load, carrying the number of rows loaded (a count the model adds; the message at seed.py:100 prints none) |
| Ingestion.Step | seed.py:23-99 | one pass of the loop body on the tables; its effect is given by StepEffect, ShortHistoryStoresCompanyOnly and StepKeepsValid |
| Ingestion.StoredIffQueried | seed.py:23 | under the primary key on `companies.symbol`, the key-set membership test is the `filter_by(symbol=ticker)` query finding a company |
| Ingestion.Load | seed.py:78-99 | loading stores the company under its symbol, leaves every other company as it was, and appends the rows |
| Ingestion.LoadKeepsValid | models.py:14 | loading rows that all name the added company keeps every row's foreign key valid |
| Ingestion.StepEffect | seed.py:21-99 | a stored ticker or an empty download leaves both tables untouched; otherwise exactly the company and the ticker's rows are added; existing companies and rows never change |
| Ingestion.ShortHistoryStoresCompanyOnly | seed.py:69-79 | a non-empty download with fewer than 30 clean bars still stores the company, with no rows |
| Ingestion.StepKeepsValid | seed.py:78-99 | one step keeps companies keyed by their symbol and every row's symbol stored |
| Ingestion.SeedAllAppend | seed.py:21 | tickers are processed in list order: the loop over a + b is the loop over a, then over b |
| Ingestion.SeedAll | seed.py:21-99 | the loop over the ticker list; its behaviour is given by SeedAllAppend, SeedAllSnoc, SeedAllGrows, SeedAllCovers, SeedAllIdle and SeedIdempotent |
| Ingestion.SeedAllSnoc | seed.py:21 | one more ticker at the end of the list is one more step |
| Ingestion.SeedAllKeepsValid | seed.py:21-99 | the whole loop keeps the tables consistent |
| Ingestion.SeedAllGrows | seed.py:21-99 | the loop never changes or removes a stored company or row |
| Ingestion.SeedAllCovers | seed.py:21-35 | afterwards every listed ticker is stored unless its download was empty |
| Ingestion.SeedAllIdle | seed.py:23-26 | when every listed ticker is stored or has an empty download, the loop changes nothing |
| Ingestion.SeedIdempotent | seed.py:21-35 | a second run against the same service leaves the tables as the first run left them |
| Ingestion.TickersHaveSuffix | seed.py:7-11 | the fifteen configured tickers all end in ".NS" |
| Symbols.NormalFormFixed | main.py:89-91 | a symbol with no lowercase letter and a market suffix is left unchanged by the normaliser |
| Ingestion.TickersAreNormal | seed.py:7-11 | the normaliser maps each of the fifteen configured tickers to itself, so the API finds the stored rows under the symbol a client types |
| Ingestion.Store.constructor | seed.py:14-17 | opening a session sees the tables already in the database, whatever earlier runs stored, each company under its own symbol as the primary key guarantees |
| Ingestion.Store.ProcessTicker | seed.py:23-100 | the loop body changes the tables exactly as the step specification says and reports its outcome |
| Ingestion.Store.Seed | seed.py:21-102 | the loop leaves the tables as the specification of the whole run says, and keeps them consistent |

## Left out

- The company name when the profile has a `longName` key whose value is null is not modelled. A `NameLookup` has the name or no key; the null case would store a null name.
- Stats.Round2: rounds exact halves up, whereas Python's `round` rounds to even on the binary value of the float, so ties and representation effects are not captured.
- Prices, means and variances are reals, not IEEE doubles: float rounding in the averages, the rolling windows and the returns is not modelled. The square root is a parameter, characterised by `Stats.IsSqrt`.
- Ingestion.Step: requires every clean bar to have a non-zero opening price (`Ingestion.Plausible`), and so do `StepOutcome`, `Store.ProcessTicker` and `Store.Seed`; the requirement also covers tickers already stored, whose bars the loader never downloads, so it is stronger than the code needs. The inf/NaN that pandas produces for a zero open, and how `dropna` treats it, are not modelled.
- Symbols.Upper: uppercases ASCII letters only; Python's `str.upper` also maps other letters.
- The `id` primary-key column of the daily table is not modelled: rows are kept in insertion order in a sequence.
- Dates are integer seconds with no time zone; `datetime.now()` is the parameter `now`, and `to_pydatetime` is the identity.
- The `date`/`datetime` column choice, `reset_index`, MultiIndex flattening and lowercasing of column labels (`seed.py:40-62`) only rearrange the frame and are not modelled.
- The relative order of rows with equal dates in the `ORDER BY ... LIMIT` queries is left open: `Queries.IsRecentWindow` accepts every tie order, and `Queries.IsCompareEntry` describes a compare entry up to pairing, order by date and multiplicity. `Queries.CompareStocks` additionally fixes one tie order, the one `Sequences.SortBy` produces; the database may return equal dates in another order, and only the `IsCompareEntry` clause holds for all of them.
- Printing is not modelled, except that the three outcome messages ("Skipping", "No data found", "Successfully loaded") become the `Outcome` that `Ingestion.Store.ProcessTicker` returns, and the "Processing" message printed before each download is not modelled; the row count in `Loaded` is the model's addition, since the success message prints no count. Exceptions raised by the download or the database, rollback, and closing the session are not modelled. Each ticker's company and rows are committed together or not at all.
- HTTP plumbing, Pydantic response models, the shared cached session, status codes and the health endpoint are not modelled. A 404 is the `NotFound` answer.
- The Streamlit dashboard (`dashboard.py`) and the engine and session set-up (`database.py`) are not part of this model.
