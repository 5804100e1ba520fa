/**
  NaN-skipping sums of the amount column, and the three headline figures
  of the page: the total amount, the buy amount and the sell amount.
 */
module Sums {
  import opened Ticks

  /** The `nansum` of the amounts of `rows`. */
  function AmountSum(rows: seq<Tick>): real {
    if |rows| == 0 then 0.0 else AmountOf(rows[0]) + AmountSum(rows[1..])
  }

  /** The `nansum` of the amounts of the rows whose side equals `key`. */
  function SideSum(rows: seq<Tick>, key: Option<string>): real {
    if |rows| == 0 then 0.0
    else (if rows[0].side == key then AmountOf(rows[0]) else 0.0) + SideSum(rows[1..], key)
  }

  /** The `nansum` of the amounts of the rows whose side is one of `keys`. */
  function KeyedSum(rows: seq<Tick>, keys: seq<Option<string>>): real {
    if |rows| == 0 then 0.0
    else (if rows[0].side in keys then AmountOf(rows[0]) else 0.0) + KeyedSum(rows[1..], keys)
  }

  /** The `nansum` of the amounts of the rows whose side is none of `keys`. */
  function OutsideSum(rows: seq<Tick>, keys: seq<Option<string>>): real {
    if |rows| == 0 then 0.0
    else (if rows[0].side !in keys then AmountOf(rows[0]) else 0.0) + OutsideSum(rows[1..], keys)
  }

  predicate AmountsNonNegative(rows: seq<Tick>) {
    forall t :: t in rows ==> AmountOf(t) >= 0.0
  }

  /** Total amount: the sum of the defined amounts, and 0 when the table
      has no amount column. */
  function TotalAmount(f: Frame): (r: real)
    ensures Amount !in f.columns ==> r == 0.0
    ensures AmountsNonNegative(f.rows) ==> r >= 0.0
  {
    if Amount !in f.columns then 0.0
    else
      AmountSumNonNegative(f.rows);
      AmountSum(f.rows)
  }

  /** The amount traded on the side labelled `tag`: NaN (`None`) when the
      table has no side column, a KeyError when it has a side column but no
      amount column, and otherwise the sum of the defined amounts of the rows
      labelled exactly `tag`. */
  function SideAmount(f: Frame, tag: string): (r: Outcome<Option<real>>)
    ensures r.KeyError? <==> Side in f.columns && Amount !in f.columns
    ensures r.KeyError? ==> r.column == Amount
    ensures r.Ok? ==> (r.value.Some? <==> Side in f.columns)
    ensures r.Ok? && r.value.Some? ==> r.value.value == SideSum(f.rows, Some(tag))
  {
    if Side !in f.columns then Ok(None)
    else if Amount !in f.columns then KeyError(Amount)
    else Ok(Some(SideSum(f.rows, Some(tag))))
  }

  /** The buy figure (买盘): NaN without a side column, a KeyError with a
      side column but no amount column, else the buy rows' amount sum. */
  function BuyAmount(f: Frame): (r: Outcome<Option<real>>)
    ensures r.KeyError? <==> Side in f.columns && Amount !in f.columns
    ensures r.Ok? ==> (r.value.Some? <==> Side in f.columns)
    ensures r.Ok? && r.value.Some? ==> r.value.value == SideSum(f.rows, Some(BuySide))
  {
    SideAmount(f, BuySide)
  }

  /** The sell figure (卖盘), in the same way as the buy figure. */
  function SellAmount(f: Frame): (r: Outcome<Option<real>>)
    ensures r.KeyError? <==> Side in f.columns && Amount !in f.columns
    ensures r.Ok? ==> (r.value.Some? <==> Side in f.columns)
    ensures r.Ok? && r.value.Some? ==> r.value.value == SideSum(f.rows, Some(SellSide))
  {
    SideAmount(f, SellSide)
  }

  lemma {:induction false} AmountSumAppend(a: seq<Tick>, b: seq<Tick>)
    ensures AmountSum(a + b) == AmountSum(a) + AmountSum(b)
  {
    if |a| == 0 {
      assert a + b == b;
    } else {
      assert (a + b)[1..] == a[1..] + b;
      AmountSumAppend(a[1..], b);
    }
  }

  /** A sum of amounts none of which is negative is not negative. */
  lemma {:induction false} AmountSumNonNegative(rows: seq<Tick>)
    ensures AmountsNonNegative(rows) ==> AmountSum(rows) >= 0.0
  {
    if |rows| > 0 {
      assert rows[0] in rows;
      AmountSumNonNegative(rows[1..]);
    }
  }

  /** The total amount is determined row by row: a row adds its amount
      when the amount column exists and the amount is defined, and nothing
      otherwise; the figures of two tables joined end to end add up. */
  lemma TotalAmountByRows(columns: set<Column>, a: seq<Tick>, b: seq<Tick>, t: Tick)
    ensures TotalAmount(Frame(columns, [])) == 0.0
    ensures TotalAmount(Frame(columns, [t]))
            == (if Amount in columns && t.amount.Some? then t.amount.value else 0.0)
    ensures TotalAmount(Frame(columns, a + b))
            == TotalAmount(Frame(columns, a)) + TotalAmount(Frame(columns, b))
  {
    assert [t][1..] == [];
    AmountSumAppend(a, b);
  }

  /** Every row's amount lands in exactly one of: the buy sum, the sell sum,
      or the sum over the rows of any other side. */
  lemma {:induction false} SidesPartitionTotal(rows: seq<Tick>, b: string, s: string)
    requires b != s
    ensures SideSum(rows, Some(b)) + SideSum(rows, Some(s)) + OutsideSum(rows, [Some(b), Some(s)])
            == AmountSum(rows)
  {
    if |rows| > 0 {
      SidesPartitionTotal(rows[1..], b, s);
    }
  }

  lemma {:induction false} OutsideSumNonNegative(rows: seq<Tick>, keys: seq<Option<string>>)
    requires AmountsNonNegative(rows)
    ensures OutsideSum(rows, keys) >= 0.0
  {
    if |rows| > 0 {
      assert rows[0] in rows;
      OutsideSumNonNegative(rows[1..], keys);
    }
  }

  /** The headline buy and sell figures never exceed the total amount when
      amounts are non-negative: rows of any other side count towards
      neither. */
  lemma BuySellWithinTotal(f: Frame)
    requires Side in f.columns && Amount in f.columns
    requires AmountsNonNegative(f.rows)
    ensures BuyAmount(f).Ok? && BuyAmount(f).value.Some?
    ensures SellAmount(f).Ok? && SellAmount(f).value.Some?
    ensures BuyAmount(f).value.value + SellAmount(f).value.value <= TotalAmount(f)
    ensures BuyAmount(f).value.value + SellAmount(f).value.value
            + OutsideSum(f.rows, [Some(BuySide), Some(SellSide)]) == TotalAmount(f)
  {
    assert BuySide != SellSide by {
      assert BuySide[0] != SellSide[0];
    }
    SidesPartitionTotal(f.rows, BuySide, SellSide);
    OutsideSumNonNegative(f.rows, [Some(BuySide), Some(SellSide)]);
  }
}
