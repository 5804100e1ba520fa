/**
  The per-side aggregation of the large trades. The amount sums group by
  side label with missing labels kept, so a missing label forms a group of
  its own. The amount-weighted average price, Σ(price·amount) / Σ(amount),
  is computed per group of a second grouping that uses the default and so
  leaves rows without a side label out.
 */
module Grouping {
  import opened Ticks
  import opened Sums

  predicate Distinct<T(==)>(s: seq<T>) {
    forall i, j :: 0 <= i < j < |s| ==> s[i] != s[j]
  }

  /** The side labels occurring in `rows`, each once, in order of first
      appearance; a missing label is a key like any other. */
  function GroupKeys(rows: seq<Tick>): (keys: seq<Option<string>>)
    ensures Distinct(keys)
    ensures forall k :: k in keys <==> exists t :: t in rows && t.side == k
  {
    if |rows| == 0 then []
    else
      var init := rows[..|rows| - 1];
      var last := rows[|rows| - 1];
      assert rows == init + [last];
      var keys := GroupKeys(init);
      if last.side in keys then keys else keys + [last.side]
  }

  /** The per-group sums added up over `keys`. */
  function SumOverKeys(rows: seq<Tick>, keys: seq<Option<string>>): real {
    if |keys| == 0 then 0.0 else SideSum(rows, keys[0]) + SumOverKeys(rows, keys[1..])
  }

  lemma {:induction false} KeyedSumCons(rows: seq<Tick>, k: Option<string>, keys: seq<Option<string>>)
    requires k !in keys
    ensures KeyedSum(rows, [k] + keys) == SideSum(rows, k) + KeyedSum(rows, keys)
  {
    if |rows| > 0 {
      KeyedSumCons(rows[1..], k, keys);
    }
  }

  lemma {:induction false} SumOverKeysIsKeyedSum(rows: seq<Tick>, keys: seq<Option<string>>)
    requires Distinct(keys)
    ensures SumOverKeys(rows, keys) == KeyedSum(rows, keys)
  {
    if |keys| == 0 {
      KeyedSumEmpty(rows, keys);
    } else {
      assert keys == [keys[0]] + keys[1..];
      assert keys[0] !in keys[1..];
      SumOverKeysIsKeyedSum(rows, keys[1..]);
      KeyedSumCons(rows, keys[0], keys[1..]);
    }
  }

  lemma {:induction false} KeyedSumEmpty(rows: seq<Tick>, keys: seq<Option<string>>)
    requires |keys| == 0
    ensures KeyedSum(rows, keys) == 0.0
  {
    if |rows| > 0 {
      KeyedSumEmpty(rows[1..], keys);
    }
  }

  lemma {:induction false} KeyedSumCovering(rows: seq<Tick>, keys: seq<Option<string>>)
    requires forall t :: t in rows ==> t.side in keys
    ensures KeyedSum(rows, keys) == AmountSum(rows)
  {
    if |rows| > 0 {
      assert rows[0] in rows;
      KeyedSumCovering(rows[1..], keys);
    }
  }

  /** Conservation: the group sums add up to the total amount of the rows
      grouped, since every row falls in exactly one group. */
  lemma GroupSumsConserveTotal(rows: seq<Tick>)
    ensures SumOverKeys(rows, GroupKeys(rows)) == AmountSum(rows)
  {
    var keys := GroupKeys(rows);
    SumOverKeysIsKeyedSum(rows, keys);
    forall t | t in rows
      ensures t.side in keys
    {
    }
    KeyedSumCovering(rows, keys);
  }

  predicate AmountsPositive(rows: seq<Tick>) {
    forall t :: t in rows ==> t.amount.Some? && t.amount.value > 0.0
  }

  /** In a table of positive amounts every group that has a row has a
      positive sum. */
  lemma {:induction false} GroupSumPositive(rows: seq<Tick>, k: Option<string>)
    requires AmountsPositive(rows)
    requires exists t :: t in rows && t.side == k
    ensures SideSum(rows, k) > 0.0
  {
    assert rows[0] in rows;
    if rows[0].side == k {
      SideSumNonNegative(rows[1..], k);
    } else {
      var t :| t in rows && t.side == k;
      assert t in rows[1..];
      GroupSumPositive(rows[1..], k);
    }
  }

  lemma {:induction false} SideSumNonNegative(rows: seq<Tick>, k: Option<string>)
    requires AmountsPositive(rows)
    ensures SideSum(rows, k) >= 0.0
  {
    if |rows| > 0 {
      assert rows[0] in rows;
      SideSumNonNegative(rows[1..], k);
    }
  }

  /** The `price·amount` term a row adds to group `k`'s numerator: NaN, and
      so skipped, when the row is outside the group or either factor is NaN. */
  function RowPriceAmount(t: Tick, k: Option<string>): real {
    if t.side == k && t.price.Some? && t.amount.Some? then t.price.value * t.amount.value else 0.0
  }

  /** `Σ(price·amount)` over the rows of group `k`. */
  function PriceAmountSum(rows: seq<Tick>, k: Option<string>): real {
    if |rows| == 0 then 0.0 else RowPriceAmount(rows[0], k) + PriceAmountSum(rows[1..], k)
  }

  /** The amount-weighted average price of group `k`; the caller shows the
      group's amount sum is positive, so the division is defined. */
  function WeightedAverage(rows: seq<Tick>, k: Option<string>): (r: real)
    requires SideSum(rows, k) > 0.0
    ensures r * SideSum(rows, k) == PriceAmountSum(rows, k)
  {
    PriceAmountSum(rows, k) / SideSum(rows, k)
  }

  /** Every row of group `k` has a defined price within `[lo, hi]` and a
      defined non-negative amount. */
  predicate GroupPricedWithin(rows: seq<Tick>, k: Option<string>, lo: real, hi: real) {
    forall t :: t in rows && t.side == k ==> RowPricedWithin(t, lo, hi)
  }

  predicate RowPricedWithin(t: Tick, lo: real, hi: real) {
    t.price.Some? && lo <= t.price.value <= hi && t.amount.Some? && t.amount.value >= 0.0
  }

  /** The term `x·amount` a row adds to group `k`'s sum scaled by `x`. */
  function RowScaled(t: Tick, k: Option<string>, x: real): real {
    if t.side == k then x * AmountOf(t) else 0.0
  }

  /** `Σ(x·amount)` over the rows of group `k`. */
  function ScaledSum(rows: seq<Tick>, k: Option<string>, x: real): real {
    if |rows| == 0 then 0.0 else RowScaled(rows[0], k, x) + ScaledSum(rows[1..], k, x)
  }

  lemma {:induction false} ScaledSumIsProduct(rows: seq<Tick>, k: Option<string>, x: real)
    ensures ScaledSum(rows, k, x) == x * SideSum(rows, k)
  {
    if |rows| > 0 {
      ScaledSumIsProduct(rows[1..], k, x);
      var a := if rows[0].side == k then AmountOf(rows[0]) else 0.0;
      assert x * (a + SideSum(rows[1..], k)) == x * a + x * SideSum(rows[1..], k);
    }
  }

  lemma ScaleBounds(lo: real, p: real, hi: real, a: real)
    requires lo <= p <= hi && a >= 0.0
    ensures lo * a <= p * a <= hi * a
  {
  }

  /** One row's numerator term lies between its terms scaled by the bounds. */
  lemma RowBounds(t: Tick, k: Option<string>, lo: real, hi: real)
    requires t.side == k ==> RowPricedWithin(t, lo, hi)
    ensures RowScaled(t, k, lo) <= RowPriceAmount(t, k) <= RowScaled(t, k, hi)
  {
    if t.side == k {
      ScaleBounds(lo, t.price.value, hi, t.amount.value);
    }
  }

  lemma GroupPricedWithinTail(rows: seq<Tick>, k: Option<string>, lo: real, hi: real)
    requires |rows| > 0 && GroupPricedWithin(rows, k, lo, hi)
    ensures rows[0].side == k ==> RowPricedWithin(rows[0], lo, hi)
    ensures GroupPricedWithin(rows[1..], k, lo, hi)
  {
    assert rows[0] in rows;
    forall u | u in rows[1..] && u.side == k
      ensures RowPricedWithin(u, lo, hi)
    {
      assert u in rows;
    }
  }

  lemma {:induction false} ScaledSumBounds(rows: seq<Tick>, k: Option<string>, lo: real, hi: real)
    requires GroupPricedWithin(rows, k, lo, hi)
    ensures ScaledSum(rows, k, lo) <= PriceAmountSum(rows, k) <= ScaledSum(rows, k, hi)
  {
    if |rows| > 0 {
      GroupPricedWithinTail(rows, k, lo, hi);
      RowBounds(rows[0], k, lo, hi);
      ScaledSumBounds(rows[1..], k, lo, hi);
    }
  }

  lemma QuotientAtLeast(lo: real, n: real, d: real)
    requires d > 0.0 && lo * d <= n
    ensures lo <= n / d
  {
    var q := n / d;
    assert q * d == n;
    assert (q - lo) * d >= 0.0;
  }

  lemma QuotientAtMost(hi: real, n: real, d: real)
    requires d > 0.0 && n <= hi * d
    ensures n / d <= hi
  {
    var q := n / d;
    assert q * d == n;
    assert (hi - q) * d >= 0.0;
  }

  /** A weighted average never leaves the range of the prices it averages. */
  lemma WeightedAverageWithin(rows: seq<Tick>, k: Option<string>, lo: real, hi: real)
    requires GroupPricedWithin(rows, k, lo, hi)
    requires SideSum(rows, k) > 0.0
    ensures lo <= WeightedAverage(rows, k) <= hi
  {
    ScaledSumBounds(rows, k, lo, hi);
    AverageAtLeast(rows, k, lo);
    AverageAtMost(rows, k, hi);
  }

  lemma AverageAtLeast(rows: seq<Tick>, k: Option<string>, lo: real)
    requires SideSum(rows, k) > 0.0 && ScaledSum(rows, k, lo) <= PriceAmountSum(rows, k)
    ensures lo <= WeightedAverage(rows, k)
  {
    ScaledSumIsProduct(rows, k, lo);
    QuotientAtLeast(lo, PriceAmountSum(rows, k), SideSum(rows, k));
  }

  lemma AverageAtMost(rows: seq<Tick>, k: Option<string>, hi: real)
    requires SideSum(rows, k) > 0.0 && PriceAmountSum(rows, k) <= ScaledSum(rows, k, hi)
    ensures WeightedAverage(rows, k) <= hi
  {
    ScaledSumIsProduct(rows, k, hi);
    QuotientAtMost(hi, PriceAmountSum(rows, k), SideSum(rows, k));
  }

  lemma PriceAmountSumBounds(rows: seq<Tick>, k: Option<string>, lo: real, hi: real)
    requires GroupPricedWithin(rows, k, lo, hi)
    ensures lo * SideSum(rows, k) <= PriceAmountSum(rows, k) <= hi * SideSum(rows, k)
  {
    ScaledSumBounds(rows, k, lo, hi);
    ScaledSumIsProduct(rows, k, lo);
    ScaledSumIsProduct(rows, k, hi);
  }

  /** The defined prices of the rows of group `k`, in row order. */
  function GroupPrices(rows: seq<Tick>, k: Option<string>): (ps: seq<real>)
    ensures forall t :: t in rows && t.side == k && t.price.Some? ==> t.price.value in ps
    ensures forall p :: p in ps ==> exists t :: t in rows && t.side == k && t.price == Some(p)
  {
    if |rows| == 0 then []
    else
      var t := rows[0];
      assert forall u :: u in rows <==> u == t || u in rows[1..];
      var rest := GroupPrices(rows[1..], k);
      if t.side == k && t.price.Some? then [t.price.value] + rest else rest
  }

  function MinOf(s: seq<real>): (m: real)
    requires |s| > 0
    ensures m in s && forall x :: x in s ==> m <= x
  {
    if |s| == 1 then s[0]
    else
      assert forall x :: x in s <==> x == s[0] || x in s[1..];
      var m := MinOf(s[1..]);
      if s[0] <= m then s[0] else m
  }

  function MaxOf(s: seq<real>): (m: real)
    requires |s| > 0
    ensures m in s && forall x :: x in s ==> x <= m
  {
    if |s| == 1 then s[0]
    else
      assert forall x :: x in s <==> x == s[0] || x in s[1..];
      var m := MaxOf(s[1..]);
      if s[0] >= m then s[0] else m
  }

  /** When every row of a group has a price and a positive amount, the
      group's weighted average lies between its lowest and highest price. */
  lemma WeightedAverageWithinPriceRange(rows: seq<Tick>, k: Option<string>)
    requires exists t :: t in rows && t.side == k
    requires forall t :: t in rows && t.side == k ==> t.price.Some? && t.amount.Some? && t.amount.value > 0.0
    ensures |GroupPrices(rows, k)| > 0
    ensures SideSum(rows, k) > 0.0
    ensures MinOf(GroupPrices(rows, k)) <= WeightedAverage(rows, k) <= MaxOf(GroupPrices(rows, k))
  {
    var t :| t in rows && t.side == k;
    var ps := GroupPrices(rows, k);
    assert t.price.value in ps;
    var lo := MinOf(ps);
    var hi := MaxOf(ps);
    assert GroupPricedWithin(rows, k, lo, hi);
    GroupSumPositiveWithin(rows, k);
    WeightedAverageWithin(rows, k, lo, hi);
  }

  lemma {:induction false} GroupSumPositiveWithin(rows: seq<Tick>, k: Option<string>)
    requires exists t :: t in rows && t.side == k
    requires forall t :: t in rows && t.side == k ==> t.amount.Some? && t.amount.value > 0.0
    ensures SideSum(rows, k) > 0.0
  {
    assert rows[0] in rows;
    if rows[0].side == k {
      SideSumGroupNonNegative(rows[1..], k);
    } else {
      var t :| t in rows && t.side == k;
      assert t in rows[1..];
      GroupSumPositiveWithin(rows[1..], k);
    }
  }

  lemma {:induction false} SideSumGroupNonNegative(rows: seq<Tick>, k: Option<string>)
    requires forall t :: t in rows && t.side == k ==> t.amount.Some? && t.amount.value > 0.0
    ensures SideSum(rows, k) >= 0.0
  {
    if |rows| > 0 {
      assert rows[0] in rows;
      SideSumGroupNonNegative(rows[1..], k);
    }
  }
}
