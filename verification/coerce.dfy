/**
  The protective conversion in `load_ticks`: each of the price, volume and
  amount columns that the table has is converted with
  `pd.to_numeric(errors="coerce")`. A cell without a numeric reading becomes
  NaN; no row is ever dropped and the side column is left as it is.
 */
module Coerce {
  import opened Ticks
  import opened NumericParse

  /** The numeric reading of a cell: a number is kept, text is parsed and
      anything else has none. */
  function CoerceCell(c: Cell): (r: Option<real>)
    ensures r.Some? <==> (c.Num? || (c.Text? && ParseNumber(c.s).Some?))
    ensures c.Num? ==> r == Some(c.x)
  {
    match c
    case Num(x) => Some(x)
    case Text(s) => ParseNumber(s)
    case Blank => None
  }

  /** A numeric column the table has is coerced; one it lacks reads as NaN. */
  function CoerceColumn(columns: set<Column>, col: Column, c: Cell): Option<real> {
    if col in columns then CoerceCell(c) else None
  }

  function CoerceRow(columns: set<Column>, row: RawRow): (t: Tick)
    ensures t.price.Some? <==> Price in columns && CoerceCell(row.price).Some?
    ensures t.volume.Some? <==> Volume in columns && CoerceCell(row.volume).Some?
    ensures t.amount.Some? <==> Amount in columns && CoerceCell(row.amount).Some?
    ensures Price in columns ==> t.price == CoerceCell(row.price)
    ensures Volume in columns ==> t.volume == CoerceCell(row.volume)
    ensures Amount in columns ==> t.amount == CoerceCell(row.amount)
    ensures t.side == (if Side in columns then row.side else None)
  {
    Tick(CoerceColumn(columns, Price, row.price),
         CoerceColumn(columns, Volume, row.volume),
         CoerceColumn(columns, Amount, row.amount),
         if Side in columns then row.side else None)
  }

  /** A coerced table in which the fields of absent columns are NaN, as
      `CoerceFrame` leaves them. */
  predicate WellFormed(g: Frame) {
    forall t :: t in g.rows ==>
      && (Price !in g.columns ==> t.price.None?)
      && (Volume !in g.columns ==> t.volume.None?)
      && (Amount !in g.columns ==> t.amount.None?)
      && (Side !in g.columns ==> t.side.None?)
  }

  /** The coerced table: same columns, same number of rows, and row `i`
      is the coercion of raw row `i`. */
  function CoerceFrame(f: RawFrame): (g: Frame)
    ensures g.columns == f.columns
    ensures |g.rows| == |f.rows|
    ensures forall i :: 0 <= i < |f.rows| ==> g.rows[i] == CoerceRow(f.columns, f.rows[i])
    ensures WellFormed(g)
  {
    Frame(f.columns, seq(|f.rows|, i requires 0 <= i < |f.rows| => CoerceRow(f.columns, f.rows[i])))
  }

  function EmbedCell(v: Option<real>): Cell {
    match v
    case Some(x) => Num(x)
    case None => Blank
  }

  /** The raw table a purely numeric provider would return for `g`. */
  function Embed(g: Frame): RawFrame {
    RawFrame(g.columns, seq(|g.rows|, i requires 0 <= i < |g.rows| =>
      RawRow(EmbedCell(g.rows[i].price), EmbedCell(g.rows[i].volume),
             EmbedCell(g.rows[i].amount), g.rows[i].side)))
  }

  /** Coercing a table that is already numeric changes nothing. */
  lemma CoercionOfNumericTable(g: Frame)
    requires WellFormed(g)
    ensures CoerceFrame(Embed(g)) == g
  {
    var h := CoerceFrame(Embed(g));
    assert |h.rows| == |g.rows|;
    forall i | 0 <= i < |g.rows|
      ensures h.rows[i] == g.rows[i]
    {
      var t := g.rows[i];
      assert t in g.rows;
    }
  }

  /** A number the provider sends as decimal text coerces to its value. */
  lemma CoerceRenderedCell(a: nat, k: nat)
    ensures CoerceCell(Text(RenderDecimal(a, k))) == Some(a as real / Pow10(k) as real)
  {
    RenderDecimalRoundTrip(a, k);
  }
}
