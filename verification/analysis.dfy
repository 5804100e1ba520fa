/**
  The large-trade page as a whole, for one fetched table and one threshold:
  coerce the numeric columns, stop when there is no data, show the row
  count and the total, buy and sell amounts, filter the large trades and,
  when there are any, summarise them per side.
 */
module Analysis {
  import opened Ticks
  import opened NumericParse
  import opened Coerce
  import opened Sums
  import opened LargeTrades
  import opened Grouping
  import opened Summary

  /** The figures and tables the page shows. `summary` is `None` when no
      trade is large, where the page shows a notice instead of a table. */
  datatype Report = Report(
    rowCount: nat,
    totalAmount: real,
    buyAmount: Option<real>,
    sellAmount: Option<real>,
    bigger: Frame,
    summary: Option<seq<SummaryRow>>)

  /** The page: the report, the no-data warning, or an uncaught KeyError
      for the column the page indexed without checking for it. */
  datatype Page = Shown(report: Report) | NoData | Crashed(column: Column)

  /** Some raw row has a side label and an amount cell whose numeric reading
      exceeds the threshold, so the averaging grouping has a group. */
  predicate HasLabelledLargeTrade(raw: RawFrame, threshold: real) {
    exists i :: 0 <= i < |raw.rows| && raw.rows[i].side.Some?
      && CoerceCell(raw.rows[i].amount).Some? && CoerceCell(raw.rows[i].amount).value > threshold
  }

  /** The page for the fetched table `raw` and the threshold entered in the
      sidebar, a whole number of yuan that is at least 0. */
  function Analyze(raw: RawFrame, threshold: nat): (p: Page)
    ensures p.NoData? <==> |raw.rows| == 0
    ensures p.Shown? ==> p.report.rowCount == |raw.rows|
    ensures p.Crashed? ==> p.column == Amount || p.column == Price
  {
    var df := CoerceFrame(raw);
    if |df.rows| == 0 then NoData
    else
      match (BuyAmount(df), SellAmount(df))
      case (KeyError(c), _) => Crashed(c)
      case (_, KeyError(c)) => Crashed(c)
      case (Ok(buy), Ok(sell)) =>
        var big := Bigger(df, threshold as real);
        if |big.rows| == 0 then Shown(Report(|df.rows|, TotalAmount(df), buy, sell, big, None))
        else
          LargeRowsPositive(df, threshold);
          match Summarize(big)
          case KeyError(c) => Crashed(c)
          case Ok(s) => Shown(Report(|df.rows|, TotalAmount(df), buy, sell, big, Some(s)))
  }

  /** The page crashes on the amount column exactly when there is data, a
      side column and no amount column: the buy figure indexes the amount
      column unchecked. */
  lemma AnalyzeCrashesOnAmount(raw: RawFrame, threshold: nat)
    ensures Analyze(raw, threshold) == Crashed(Amount) <==>
      |raw.rows| > 0 && Side in raw.columns && Amount !in raw.columns
  {
  }

  /** The page crashes on the price column exactly when the averaging
      grouping has a group but the table has no price column. */
  lemma AnalyzeCrashesOnPrice(raw: RawFrame, threshold: nat)
    ensures Analyze(raw, threshold) == Crashed(Price) <==>
      && |raw.rows| > 0 && Side in raw.columns && Amount in raw.columns && Price !in raw.columns
      && HasLabelledLargeTrade(raw, threshold as real)
  {
    if |raw.rows| > 0 && Side in raw.columns && Amount in raw.columns {
      LabelledLargeTrade(raw, threshold);
    }
  }

  /** A table with rows that meets neither crash condition is shown, as
      long as the averaging grouping has a group whenever it runs: with side
      and amount columns, some large trade carries a side label. */
  lemma AnalyzeShown(raw: RawFrame, threshold: nat)
    requires |raw.rows| > 0
    requires !(Side in raw.columns && Amount !in raw.columns)
    requires !(Side in raw.columns && Amount in raw.columns && Price !in raw.columns
      && HasLabelledLargeTrade(raw, threshold as real))
    requires (Side in raw.columns && Amount in raw.columns && |Bigger(CoerceFrame(raw), threshold as real).rows| > 0)
      ==> HasLabelledLargeTrade(raw, threshold as real)
    ensures Analyze(raw, threshold).Shown?
  {
    if Side in raw.columns && Amount in raw.columns {
      LabelledLargeTrade(raw, threshold);
    }
  }

  /** The headline figures of a shown page: the total, and the buy and sell
      sums, which are NaN exactly when the table has no side column. */
  lemma AnalyzeHeadline(raw: RawFrame, threshold: nat)
    requires Analyze(raw, threshold).Shown?
    ensures
      var rep := Analyze(raw, threshold).report;
      var df := CoerceFrame(raw);
      && rep.totalAmount == TotalAmount(df)
      && (rep.buyAmount.Some? <==> Side in raw.columns)
      && (rep.sellAmount.Some? <==> Side in raw.columns)
      && (rep.buyAmount.Some? ==> rep.buyAmount.value == SideSum(df.rows, Some(BuySide)))
      && (rep.sellAmount.Some? ==> rep.sellAmount.value == SideSum(df.rows, Some(SellSide)))
  {
  }

  /** The large-trade table of a shown page holds exactly the coerced rows
      with a defined amount above the threshold, and the summary is absent
      exactly when that table is empty. */
  lemma AnalyzeLargeTrades(raw: RawFrame, threshold: nat)
    requires Analyze(raw, threshold).Shown?
    ensures
      var rep := Analyze(raw, threshold).report;
      var df := CoerceFrame(raw);
      && rep.bigger == Bigger(df, threshold as real)
      && (forall t :: t in rep.bigger.rows <==>
            Amount in raw.columns && t in df.rows && t.amount.Some? && t.amount.value > threshold as real)
      && (rep.summary.None? <==> |rep.bigger.rows| == 0)
  {
  }

  /** The summary of a shown page: sums largest first, every row faithful
      to its group, and one row per side label of the large trades; empty
      when the table has no side column. */
  lemma AnalyzeSummary(raw: RawFrame, threshold: nat)
    requires Analyze(raw, threshold).Shown? && Analyze(raw, threshold).report.summary.Some?
    ensures
      var big := Analyze(raw, threshold).report.bigger;
      var s := Analyze(raw, threshold).report.summary.value;
      && NonIncreasing(s)
      && (forall x :: x in s ==> FaithfulRow(big.rows, x))
      && Distinct(SidesOf(s))
      && (Side in raw.columns ==> |s| == |GroupKeys(big.rows)|)
      && (Side in raw.columns ==> forall k :: k in SidesOf(s) <==> exists t :: t in big.rows && t.side == k)
      && (Side !in raw.columns ==> s == [])
  {
  }

  /** The filtered rows all have positive amounts, because the threshold is
      at least 0: the weighted average never divides by zero. */
  lemma LargeRowsPositive(df: Frame, threshold: nat)
    ensures AmountsPositive(Bigger(df, threshold as real).rows)
  {
    forall t | t in Bigger(df, threshold as real).rows
      ensures t.amount.Some? && t.amount.value > 0.0
    {
      assert IsLarge(t, threshold as real);
    }
  }

  /** The raw-table condition for a KeyError on the price column matches
      the filtered table having a row with a side label. */
  lemma LabelledLargeTrade(raw: RawFrame, threshold: nat)
    requires Amount in raw.columns && Side in raw.columns
    ensures HasLabelledLargeTrade(raw, threshold as real) <==>
      exists t :: t in Bigger(CoerceFrame(raw), threshold as real).rows && t.side.Some?
  {
    var df := CoerceFrame(raw);
    var big := LargeRows(df.rows, threshold as real);
    assert Bigger(df, threshold as real).rows == big;
    if HasLabelledLargeTrade(raw, threshold as real) {
      var i :| 0 <= i < |raw.rows| && raw.rows[i].side.Some?
        && CoerceCell(raw.rows[i].amount).Some? && CoerceCell(raw.rows[i].amount).value > threshold as real;
      LabelledRowIsLarge(raw, threshold as real, i);
    }
    if t :| t in big && t.side.Some? {
      LargeRowIsLabelled(raw, threshold as real, t);
    }
  }

  lemma LabelledRowIsLarge(raw: RawFrame, threshold: real, i: nat)
    requires Amount in raw.columns && Side in raw.columns
    requires i < |raw.rows| && raw.rows[i].side.Some?
    requires CoerceCell(raw.rows[i].amount).Some? && CoerceCell(raw.rows[i].amount).value > threshold
    ensures var t := CoerceFrame(raw).rows[i]; t in LargeRows(CoerceFrame(raw).rows, threshold) && t.side.Some?
  {
    var t := CoerceFrame(raw).rows[i];
    assert t == CoerceRow(raw.columns, raw.rows[i]);
    assert t in CoerceFrame(raw).rows;
  }

  lemma LargeRowIsLabelled(raw: RawFrame, threshold: real, t: Tick)
    requires Amount in raw.columns && Side in raw.columns
    requires t in LargeRows(CoerceFrame(raw).rows, threshold) && t.side.Some?
    ensures HasLabelledLargeTrade(raw, threshold)
  {
    var rows := CoerceFrame(raw).rows;
    assert t in rows;
    var i :| 0 <= i < |rows| && rows[i] == t;
    assert t == CoerceRow(raw.columns, raw.rows[i]);
  }

  /** Every averaged group of the filtered table has a positive amount sum,
      so the weighted average of every group the page shows is defined. */
  lemma AverageDenominatorsPositive(raw: RawFrame, threshold: nat, k: Option<string>)
    requires exists t :: t in Bigger(CoerceFrame(raw), threshold as real).rows && t.side == k
    ensures SideSum(Bigger(CoerceFrame(raw), threshold as real).rows, k) > 0.0
  {
    LargeRowsPositive(CoerceFrame(raw), threshold);
    GroupSumPositive(Bigger(CoerceFrame(raw), threshold as real).rows, k);
  }

  /** A fetched table: a buy trade of 500000 yuan, a buy trade of 1000 yuan
      whose amount arrives as text, and a trade of 450000 yuan without a
      side label. */
  function ExampleTable(): RawFrame {
    RawFrame({Price, Volume, Amount, Side}, [
      RawRow(Num(10.0), Num(50000.0), Num(500000.0), Some(BuySide)),
      RawRow(Num(10.0), Num(100.0), Text("1000"), Some(BuySide)),
      RawRow(Num(9.0), Num(50000.0), Num(450000.0), None)])
  }

  /** At a threshold of 400000 yuan the first and third trades are large.
      The summary lists the buy group first, with its average price, then
      the unlabelled group, which has no average. */
  lemma WorkedExample()
    ensures Analyze(ExampleTable(), 400000) == Shown(Report(
      3, 951000.0, Some(501000.0), Some(0.0),
      Frame({Price, Volume, Amount, Side}, [
        Tick(Some(10.0), Some(50000.0), Some(500000.0), Some(BuySide)),
        Tick(Some(9.0), Some(50000.0), Some(450000.0), None)]),
      Some([SummaryRow(Some(BuySide), 500000.0, Some(10.0)), SummaryRow(None, 450000.0, None)])))
  {
    var t1 := Tick(Some(10.0), Some(50000.0), Some(500000.0), Some(BuySide));
    var t2 := Tick(Some(10.0), Some(100.0), Some(1000.0), Some(BuySide));
    var t3 := Tick(Some(9.0), Some(50000.0), Some(450000.0), None);
    ExampleCoerced();
    ExampleHeadline(t1, t2, t3);
    ExampleBigger(t1, t2, t3);
    ExampleSummary(t1, t3);
  }

  lemma ExampleBigger(t1: Tick, t2: Tick, t3: Tick)
    requires t1 == Tick(Some(10.0), Some(50000.0), Some(500000.0), Some(BuySide))
    requires t2 == Tick(Some(10.0), Some(100.0), Some(1000.0), Some(BuySide))
    requires t3 == Tick(Some(9.0), Some(50000.0), Some(450000.0), None)
    ensures Bigger(Frame({Price, Volume, Amount, Side}, [t1, t2, t3]), 400000.0)
            == Frame({Price, Volume, Amount, Side}, [t1, t3])
  {
    assert [t1, t2, t3][1..] == [t2, t3];
    assert [t2, t3][1..] == [t3];
    assert LargeRows([t3], 400000.0) == [t3];
    assert LargeRows([t2, t3], 400000.0) == [t3];
  }

  lemma ExampleCoerced()
    ensures CoerceFrame(ExampleTable()) == Frame({Price, Volume, Amount, Side}, [
      Tick(Some(10.0), Some(50000.0), Some(500000.0), Some(BuySide)),
      Tick(Some(10.0), Some(100.0), Some(1000.0), Some(BuySide)),
      Tick(Some(9.0), Some(50000.0), Some(450000.0), None)])
  {
    assert ParseNumber("1000") == Some(1000.0) by {
      assert DigitsValue("1000"[..3]) == 100 by {
        assert "1000"[..3][..2] == "10";
        assert "10"[..1] == "1";
      }
      ParseWhole("1000");
    }
  }

  lemma ExampleHeadline(t1: Tick, t2: Tick, t3: Tick)
    requires t1 == Tick(Some(10.0), Some(50000.0), Some(500000.0), Some(BuySide))
    requires t2 == Tick(Some(10.0), Some(100.0), Some(1000.0), Some(BuySide))
    requires t3 == Tick(Some(9.0), Some(50000.0), Some(450000.0), None)
    ensures BuyAmount(Frame({Price, Volume, Amount, Side}, [t1, t2, t3])) == Ok(Some(501000.0))
    ensures SellAmount(Frame({Price, Volume, Amount, Side}, [t1, t2, t3])) == Ok(Some(0.0))
    ensures TotalAmount(Frame({Price, Volume, Amount, Side}, [t1, t2, t3])) == 951000.0
  {
    assert BuySide != SellSide by {
      assert BuySide[0] != SellSide[0];
    }
    var rows := [t1, t2, t3];
    assert rows[1..] == [t2, t3];
    assert [t2, t3][1..] == [t3];
    assert [t3][1..] == [];
    assert SideSum([t3], Some(BuySide)) == 0.0;
    assert SideSum([t2, t3], Some(BuySide)) == 1000.0;
    assert SideSum(rows, Some(BuySide)) == 501000.0;
    assert SideSum([t3], Some(SellSide)) == 0.0;
    assert SideSum([t2, t3], Some(SellSide)) == 0.0;
    assert SideSum(rows, Some(SellSide)) == 0.0;
    assert AmountSum([t3]) == 450000.0;
    assert AmountSum([t2, t3]) == 451000.0;
    assert AmountSum(rows) == 951000.0;
  }

  lemma ExampleSummary(t1: Tick, t3: Tick)
    requires t1 == Tick(Some(10.0), Some(50000.0), Some(500000.0), Some(BuySide))
    requires t3 == Tick(Some(9.0), Some(50000.0), Some(450000.0), None)
    ensures AmountsPositive([t1, t3])
    ensures Summarize(Frame({Price, Volume, Amount, Side}, [t1, t3]))
            == Ok([SummaryRow(Some(BuySide), 500000.0, Some(10.0)), SummaryRow(None, 450000.0, None)])
  {
    var b := SummaryRow(Some(BuySide), 500000.0, Some(10.0));
    var n := SummaryRow(None, 450000.0, None);
    ExampleGroupKeys(t1, t3);
    ExampleGroupRows(t1, t3);
    assert SortByAmountDesc([b, n]) == [b, n] by {
      assert [b, n][1..] == [n];
      assert SortByAmountDesc([n]) == [n];
    }
  }

  lemma ExampleGroupKeys(t1: Tick, t3: Tick)
    requires t1 == Tick(Some(10.0), Some(50000.0), Some(500000.0), Some(BuySide))
    requires t3 == Tick(Some(9.0), Some(50000.0), Some(450000.0), None)
    ensures GroupKeys([t1, t3]) == [Some(BuySide), None]
  {
    assert [t1, t3][..1] == [t1];
    assert GroupKeys([t1]) == [Some(BuySide)] by {
      assert [t1][..0] == [];
    }
  }

  lemma ExampleGroupRows(t1: Tick, t3: Tick)
    requires t1 == Tick(Some(10.0), Some(50000.0), Some(500000.0), Some(BuySide))
    requires t3 == Tick(Some(9.0), Some(50000.0), Some(450000.0), None)
    ensures AmountsPositive([t1, t3])
    ensures GroupRows([t1, t3], [Some(BuySide), None])
            == [SummaryRow(Some(BuySide), 500000.0, Some(10.0)), SummaryRow(None, 450000.0, None)]
  {
    var rows := [t1, t3];
    assert rows[1..] == [t3];
    assert [t3][1..] == [];
    assert SideSum([t3], Some(BuySide)) == 0.0;
    assert SideSum(rows, Some(BuySide)) == 500000.0;
    assert PriceAmountSum([t3], Some(BuySide)) == 0.0;
    assert PriceAmountSum(rows, Some(BuySide)) == 5000000.0;
    assert SideSum([t3], None) == 450000.0;
    assert SideSum(rows, None) == 450000.0;
    assert [Some(BuySide), None][1..] == [None];
    assert GroupRows(rows, [None]) == [SummaryRow(None, 450000.0, None)];
  }
}
