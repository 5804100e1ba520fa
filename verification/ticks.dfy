/**
  The tick table of the large-trade page: the raw table as the market-data
  fetch returns it, and the table after numeric coercion.

  A pandas DataFrame is modelled as a set of present columns plus a sequence
  of row records. A cell of a column the table does not have is never read:
  every operation checks the column set first, as the page does with
  `col in df.columns`.
 */
module Ticks {

  /** A value that may be missing; `None` stands for pandas' NaN. */
  datatype Option<+T> = None | Some(value: T) {

    /** The value, or `default` when missing (how `nansum` treats NaN). */
    function GetOr(default: T): T {
      match this
      case Some(v) => v
      case None => default
    }
  }

  /** The columns the page reads: 成交价格, 成交量, 成交金额 and 性质. */
  datatype Column = Price | Volume | Amount | Side

  /** A computation that either yields a value or raises pandas' KeyError
      because it indexed a column the table does not have. */
  datatype Outcome<+T> = Ok(value: T) | KeyError(column: Column)

  /** A loosely typed cell of a numeric column before coercion. */
  datatype Cell = Num(x: real) | Text(s: string) | Blank

  /** One raw row: price, volume and amount cells, and the trade side label
      (`None` when the label is NaN). */
  datatype RawRow = RawRow(price: Cell, volume: Cell, amount: Cell, side: Option<string>)

  datatype RawFrame = RawFrame(columns: set<Column>, rows: seq<RawRow>)

  /** One coerced row: each numeric field is a real or missing. */
  datatype Tick = Tick(price: Option<real>, volume: Option<real>, amount: Option<real>, side: Option<string>)

  datatype Frame = Frame(columns: set<Column>, rows: seq<Tick>)

  /** The side labels of buyer- and seller-initiated trades. */
  const BuySide: string := "买盘"
  const SellSide: string := "卖盘"

  /** The amount a row contributes to a NaN-skipping sum. */
  function AmountOf(t: Tick): real {
    t.amount.GetOr(0.0)
  }
}
