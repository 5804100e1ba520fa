/**
  The large-trade filter: the rows whose amount is defined and strictly
  greater than the threshold, in their original order. A table without an
  amount column gives an empty table with no columns.
 */
module LargeTrades {
  import opened Ticks
  import opened Sums

  /** A NaN amount compares false, so only a defined amount can qualify. */
  predicate IsLarge(t: Tick, threshold: real) {
    t.amount.Some? && t.amount.value > threshold
  }

  /** `a` is `b` with some elements removed and the rest in their order. */
  predicate IsSubsequence<T(==)>(a: seq<T>, b: seq<T>)
    decreases |b|
  {
    if |a| == 0 then true
    else if |b| == 0 then false
    else if a[0] == b[0] then IsSubsequence(a[1..], b[1..])
    else IsSubsequence(a, b[1..])
  }

  /** The rows of `rows` that are large, in order. */
  function LargeRows(rows: seq<Tick>, threshold: real): (r: seq<Tick>)
    ensures forall t :: t in r <==> t in rows && IsLarge(t, threshold)
    ensures forall t :: multiset(r)[t] == if IsLarge(t, threshold) then multiset(rows)[t] else 0
    ensures IsSubsequence(r, rows)
    ensures |r| <= |rows|
  {
    if |rows| == 0 then []
    else
      assert rows == [rows[0]] + rows[1..];
      var rest := LargeRows(rows[1..], threshold);
      if IsLarge(rows[0], threshold) then [rows[0]] + rest else rest
  }

  /** The filtered table of line 62 of the page. */
  function Bigger(f: Frame, threshold: real): (g: Frame)
    ensures Amount !in f.columns ==> g.columns == {} && g.rows == []
    ensures Amount in f.columns ==> g.columns == f.columns
    ensures Amount in f.columns ==> IsSubsequence(g.rows, f.rows)
    ensures Amount in f.columns ==>
      forall t :: multiset(g.rows)[t] == if IsLarge(t, threshold) then multiset(f.rows)[t] else 0
    ensures forall t :: t in g.rows <==> Amount in f.columns && t in f.rows && IsLarge(t, threshold)
  {
    if Amount in f.columns then Frame(f.columns, LargeRows(f.rows, threshold)) else Frame({}, [])
  }

  /** Filtering twice with the same threshold is filtering once. */
  lemma {:induction false} LargeRowsIdempotent(rows: seq<Tick>, threshold: real)
    ensures LargeRows(LargeRows(rows, threshold), threshold) == LargeRows(rows, threshold)
  {
    if |rows| > 0 {
      LargeRowsIdempotent(rows[1..], threshold);
    }
  }

  /** Raising the threshold narrows the result: filtering at the lower
      threshold first changes nothing. */
  lemma {:induction false} LargeRowsMonotone(rows: seq<Tick>, low: real, high: real)
    requires low <= high
    ensures LargeRows(LargeRows(rows, low), high) == LargeRows(rows, high)
  {
    if |rows| > 0 {
      LargeRowsMonotone(rows[1..], low, high);
    }
  }

  /** Rows that each carry more than `threshold`, as every row `LargeRows`
      keeps does, total more than `threshold` times their number. */
  lemma {:induction false} SumAboveThreshold(r: seq<Tick>, threshold: real)
    requires forall t :: t in r ==> IsLarge(t, threshold)
    ensures AmountSum(r) >= |r| as real * threshold
    ensures |r| > 0 ==> AmountSum(r) > |r| as real * threshold
  {
    if |r| > 0 {
      assert r[0] in r;
      SumAboveThreshold(r[1..], threshold);
      assert AmountSum(r) == r[0].amount.value + AmountSum(r[1..]);
      StepAbove(r[0].amount.value, AmountSum(r[1..]), |r|, threshold);
    } else {
      assert |r| as real * threshold == 0.0;
    }
  }

  /** One more row above the threshold raises the bound by one threshold. */
  lemma StepAbove(x: real, s: real, m: nat, threshold: real)
    requires m > 0 && x > threshold && s >= (m - 1) as real * threshold
    ensures x + s > m as real * threshold
    ensures x + s >= m as real * threshold
  {
    assert m as real * threshold == (m - 1) as real * threshold + threshold;
  }

  /** With non-negative amounts, the large trades account for at most the
      total amount of the table. */
  lemma {:induction false} LargeRowsSumWithinTotal(rows: seq<Tick>, threshold: real)
    requires AmountsNonNegative(rows)
    ensures AmountSum(LargeRows(rows, threshold)) <= AmountSum(rows)
  {
    if |rows| > 0 {
      assert rows[0] in rows;
      LargeRowsSumWithinTotal(rows[1..], threshold);
    }
  }
}
