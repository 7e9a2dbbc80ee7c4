/**
 * The records the trading engine exchanges: a trade as produced by the
 * trade source, and the per-pair summary ("analytics") the engine keeps.
 * Prices and amounts are exact reals; timestamps and counts are unbounded
 * naturals.
 */
module Models {

  datatype Side = Buy | Sell

  /** One executed trade; produced once, never mutated. */
  datatype Trade = Trade(
    timestamp: nat,
    pair: string,
    price: real,
    amount: real,
    side: Side)

  /**
   * The running summary of one pair. `high` and `low` use 0.0 as their
   * "not yet set" value, as the default record does.
   */
  datatype Analytics = Analytics(
    pair: string,
    last_price: real,
    total_volume: real,
    buy_volume: real,
    sell_volume: real,
    high: real,
    low: real,
    trade_count: nat)

  /** The all-zero record a missing store entry is created as. */
  function DefaultAnalytics(): Analytics {
    Analytics("", 0.0, 0.0, 0.0, 0.0, 0.0, 0.0, 0)
  }
}
