/**
 * The record types of the backtest engine (backend/app/models/schemas.py) and
 * the two settings it reads (backend/app/config.py).
 *
 * Dates are day numbers (days since 1970-01-01); closes, market caps and ratios
 * are exact reals.
 */
module Schemas {
  import opened Wrappers

  /** When an announcement was made relative to the trading session.
      An unknown timing is `None : Option<Timing>`. */
  datatype Timing = BMO | AMC

  /** The identity of an earnings event, (symbol, day); the source spells it
      as the string "SYMBOL_YYYY-MM-DD". */
  type EventKey = (string, int)

  /** One daily bar (StockPrice). */
  datatype PriceBar = PriceBar(
    symbol: string, date: int,
    open: real, high: real, low: real, close: real, volume: int)

  datatype EarningsEvent = EarningsEvent(
    symbol: string,
    companyName: string,
    date: int,
    fiscalQuarter: Option<string>,
    fiscalYear: Option<int>,
    epsEstimate: Option<real>,
    epsActual: Option<real>,
    revenueEstimate: Option<real>,
    revenueActual: Option<real>)

  datatype CompanyProfile = CompanyProfile(
    symbol: string,
    companyName: string,
    marketCap: real,
    sector: Option<string>,
    industry: Option<string>)

  /** One price-reaction record. */
  datatype BacktestResult = BacktestResult(
    symbol: string,
    companyName: string,
    marketCap: real,
    earningsDate: int,
    earningsTime: Option<Timing>,
    priceBefore: real,
    priceAfter: real,
    priceChangePct: real,
    dateBefore: int,
    dateAfter: int)

  /** The result of a computation that Python would abort with
      ZeroDivisionError (a zero close used as the base of a change). */
  datatype Outcome<T> = Done(value: T) | DivisionByZero

  function Key(e: EarningsEvent): EventKey
  {
    (e.symbol, e.date)
  }

  function ResultKey(r: BacktestResult): EventKey
  {
    (r.symbol, r.earningsDate)
  }

  /** Sort keys for `Sorting.SortDesc`, which puts larger keys first. */
  function NewestFirst(b: PriceBar): real
  {
    b.date as real
  }

  function OldestFirst(b: PriceBar): real
  {
    -(b.date as real)
  }

  /** Default minimum market capitalisation: 1B. */
  const DefaultMinMarketCap: real := 1000000000.0

  /** Default significance threshold for |change|: 10%. */
  const DefaultPriceChangeThreshold: real := 0.10
}
