/** The stored entities of the stock store (models.py) and the small
    wrapper types the queries and the loader return. */
module Records {

  datatype Option<T> = None | Some(value: T)

  /** What an endpoint answers: a value, or the 404 "not found" condition. */
  datatype Answer<T> = Found(value: T) | NotFound

  /** One row of the `companies` table; `symbol` is its primary key. */
  datatype Company = Company(symbol: string, name: string)

  /** One row of the `daily_stock_data` table. Prices are idealised as reals;
      `date` is a timestamp in seconds (the loader stores midnights). The
      auto-increment `id` column carries no behaviour and is not modelled. */
  datatype DailyRecord = DailyRecord(
    symbol: string,
    date: int,
    open: real,
    high: real,
    low: real,
    close: real,
    volume: int,
    dailyReturn: real,
    sevenDayMa: real,
    volatility30d: real)

  const SecondsPerDay: int := 86400

  function DateOf(r: DailyRecord): int { r.date }

  function Min(a: int, b: int): int { if a <= b then a else b }
}
