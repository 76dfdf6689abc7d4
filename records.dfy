/** The entities the synchroniser reads and produces. */
module Records {
  import opened Types

  /** A calendar date as the report hands it over (year, month, day). Full calendar
      validation (days per month, leap years) is outside the model; only the ranges
      that fix the width of the ISO rendering are kept. */
  datatype RawDate = RawDate(year: int, month: int, day: int)

  predicate ValidDate(d: RawDate) {
    1 <= d.year <= 9999 && 1 <= d.month <= 12 && 1 <= d.day <= 31
  }

  type Date = d: RawDate | ValidDate(d) witness RawDate(1970, 1, 1)

  /** The report's buy/sell flag: anything other than BUY and SELL is `OtherSide`. */
  datatype Side = Buy | Sell | OtherSide

  /** The report's open/close indicator values. */
  datatype OpenClose = Open | Close | CloseOpen | UnknownIndicator

  /** One trade record of the first flex statement. */
  datatype Trade = Trade(
    symbol: string,
    currency: Option<string>,
    quantity: real,
    tradePrice: real,
    tradeDate: Date,
    buySell: Side,
    openCloseIndicator: Option<OpenClose>,
    assetCategory: string)

  /** One cash report entry; `currency` is `None` when the entry has no currency field. */
  datatype CashEntry = CashEntry(currency: Option<string>, endingCash: real)

  /** The parsed report, reduced to its first statement. */
  datatype Report = Report(cashReport: seq<CashEntry>, trades: seq<Trade>)

  type AccountId = string

  /** A destination account as the platform lists it. */
  datatype AccountRecord = AccountRecord(id: AccountId, name: string, currency: string)

  /** The activity dictionary the synchroniser builds for the bulk import.
      `activityType` is the dictionary's "type" key. */
  datatype Activity = Activity(
    accountId: AccountId,
    comment: Option<string>,
    currency: string,
    dataSource: string,
    date: string,
    fee: real,
    quantity: real,
    symbol: string,
    activityType: string,
    unitPrice: real)

  /** An activity as the platform lists it: its own id plus the activity fields. */
  datatype StoredAct = StoredAct(id: string, body: Activity)

  /** The account body of the full-replace balance update. */
  datatype AccountUpdate = AccountUpdate(
    balance: real,
    id: AccountId,
    currency: string,
    isExcluded: bool,
    name: string,
    platformId: string)

  /** The account label every synchronised account carries. */
  const IbkrName: string := "IBKR"
}
