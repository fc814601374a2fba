/** The quote record the watchlist consumes, restricted to the fields the
    position calculator and the watchlist read. Prices and amounts are float64
    in the program and exact reals here. */
module Quotes {

  datatype Quote = Quote(
    symbol: string,
    shortName: string,
    price: real,
    change: real,
    changePercent: real,
    regularMarketPreviousClose: real,
    regularMarketOpen: real,
    regularMarketDayRange: string,
    currency: string,
    exchangeName: string,
    exchangeDelay: real,
    isActive: bool,
    isRegularTradingSession: bool
  )
}
