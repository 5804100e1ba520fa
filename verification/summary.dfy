/**
  The summary table of the large trades: the per-side amount sums joined
  with the per-side weighted average prices, sorted by amount sum, largest
  first. There is one row per side group of the filtered table. Each row
  carries the group's amount sum and, for a group with a defined side
  label, its amount-weighted average price.
 */
module Summary {
  import opened Ticks
  import opened Sums
  import opened Grouping

  /** One summary row: the side label it is indexed by, the amount sum
      (金额合计) and the weighted average price (金额加权均价), NaN for the
      group without a side label, which the averaging grouping drops. */
  datatype SummaryRow = SummaryRow(side: Option<string>, amountSum: real, averagePrice: Option<real>)

  /** Each row's sum is at least the next row's. */
  predicate NonIncreasing(rs: seq<SummaryRow>) {
    forall i :: 0 < i < |rs| ==> rs[i - 1].amountSum >= rs[i].amountSum
  }

  /** Insert `x` in front of the first row whose sum does not exceed its own. */
  function Insert(x: SummaryRow, rs: seq<SummaryRow>): (r: seq<SummaryRow>)
    requires NonIncreasing(rs)
    ensures NonIncreasing(r)
    ensures multiset(r) == multiset(rs) + multiset{x}
    ensures r[0] == x || (|rs| > 0 && r[0] == rs[0])
  {
    if |rs| == 0 then [x]
    else if x.amountSum >= rs[0].amountSum then [x] + rs
    else
      assert rs == [rs[0]] + rs[1..];
      [rs[0]] + Insert(x, rs[1..])
  }

  /** Summary rows ordered by amount sum, largest first: a permutation of
      its input with non-increasing sums. */
  function SortByAmountDesc(rs: seq<SummaryRow>): (r: seq<SummaryRow>)
    ensures NonIncreasing(r)
    ensures multiset(r) == multiset(rs)
    ensures |r| == |rs|
  {
    if |rs| == 0 then []
    else
      assert rs == [rs[0]] + rs[1..];
      Insert(rs[0], SortByAmountDesc(rs[1..]))
  }

  /** What a summary row must hold for the rows it summarises: its sum is
      the sum of its group, and its average is defined exactly for a side
      label and then is the group's weighted average. */
  predicate FaithfulRow(rows: seq<Tick>, x: SummaryRow) {
    && x.amountSum == SideSum(rows, x.side)
    && x.amountSum > 0.0
    && (x.averagePrice.Some? <==> x.side.Some?)
    && (x.averagePrice.Some? ==> x.averagePrice.value == WeightedAverage(rows, x.side))
  }

  /** The summary rows of `keys`, before sorting. */
  function GroupRows(rows: seq<Tick>, keys: seq<Option<string>>): (r: seq<SummaryRow>)
    requires AmountsPositive(rows)
    requires forall k :: k in keys ==> exists t :: t in rows && t.side == k
    ensures |r| == |keys|
    ensures forall i :: 0 <= i < |r| ==> r[i].side == keys[i] && FaithfulRow(rows, r[i])
  {
    if |keys| == 0 then []
    else
      var k := keys[0];
      assert k in keys;
      assert forall k' :: k' in keys[1..] ==> k' in keys;
      GroupSumPositive(rows, k);
      var average := if k.Some? then Some(WeightedAverage(rows, k)) else None;
      [SummaryRow(k, SideSum(rows, k), average)] + GroupRows(rows, keys[1..])
  }

  function SidesOf(rs: seq<SummaryRow>): (ks: seq<Option<string>>)
    ensures |ks| == |rs|
    ensures forall i :: 0 <= i < |rs| ==> ks[i] == rs[i].side
  {
    seq(|rs|, i requires 0 <= i < |rs| => rs[i].side)
  }

  function TotalOf(rs: seq<SummaryRow>): real {
    if |rs| == 0 then 0.0 else rs[0].amountSum + TotalOf(rs[1..])
  }

  /** The summary of the filtered table. It is empty without a side column;
      indexing the price column raises a KeyError when the table lacks it
      and some row has a side label, since only then does the averaging
      grouping have a group to apply to. */
  function Summarize(big: Frame): (r: Outcome<seq<SummaryRow>>)
    requires AmountsPositive(big.rows)
    ensures Side !in big.columns ==> r == Ok([])
    ensures r.KeyError? <==>
      Side in big.columns && Price !in big.columns && exists t :: t in big.rows && t.side.Some?
    ensures r.KeyError? ==> r.column == Price
    ensures r.Ok? ==> NonIncreasing(r.value)
    ensures r.Ok? ==> forall x :: x in r.value ==> FaithfulRow(big.rows, x)
    ensures r.Ok? && Side in big.columns ==>
      && |r.value| == |GroupKeys(big.rows)|
      && forall k :: k in SidesOf(r.value) <==> exists t :: t in big.rows && t.side == k
    ensures r.Ok? ==> Distinct(SidesOf(r.value))
  {
    if Side !in big.columns then Ok([])
    else if Price !in big.columns && exists t :: t in big.rows && t.side.Some? then KeyError(Price)
    else
      var keys := GroupKeys(big.rows);
      var unsorted := GroupRows(big.rows, keys);
      var sorted := SortByAmountDesc(unsorted);
      SortedFaithful(big.rows, unsorted, sorted);
      SortedSides(keys, unsorted, sorted);
      SortedDistinctSides(big.rows, keys, unsorted, sorted);
      Ok(sorted)
  }

  /** Two faithful rows with the same side label are the same row. */
  lemma FaithfulRowsAgree(rows: seq<Tick>, x: SummaryRow, y: SummaryRow)
    requires FaithfulRow(rows, x) && FaithfulRow(rows, y) && x.side == y.side
    ensures x == y
  {
    if x.averagePrice.Some? {
      assert x.averagePrice.value == y.averagePrice.value;
    }
  }

  /** A sequence without repeats holds every value at most once. */
  lemma {:induction false} DistinctCount<T>(a: seq<T>, x: T)
    requires Distinct(a)
    ensures multiset(a)[x] <= 1
  {
    if |a| > 0 {
      assert a == [a[0]] + a[1..];
      DistinctCount(a[1..], x);
      if a[0] == x {
        assert x !in a[1..];
      }
    }
  }

  /** A value at two positions is held at least twice. */
  lemma RepeatCount<T>(b: seq<T>, i: nat, j: nat)
    requires i < j < |b| && b[i] == b[j]
    ensures multiset(b)[b[i]] >= 2
  {
    assert b == b[..j] + b[j..];
    assert b[i] in b[..j];
    assert b[j] == b[j..][0];
  }

  /** A reordering of distinct values has no repeats. */
  lemma PermutationDistinct<T>(a: seq<T>, b: seq<T>)
    requires Distinct(a) && multiset(a) == multiset(b)
    ensures Distinct(b)
  {
    forall i, j | 0 <= i < j < |b|
      ensures b[i] != b[j]
    {
      if b[i] == b[j] {
        RepeatCount(b, i, j);
        DistinctCount(a, b[i]);
      }
    }
  }

  /** Sorting the rows of distinct keys keeps the side labels distinct. */
  lemma SortedDistinctSides(rows: seq<Tick>, keys: seq<Option<string>>, unsorted: seq<SummaryRow>, sorted: seq<SummaryRow>)
    requires Distinct(keys)
    requires |unsorted| == |keys|
    requires forall i :: 0 <= i < |unsorted| ==> unsorted[i].side == keys[i]
    requires forall x :: x in sorted ==> FaithfulRow(rows, x)
    requires multiset(sorted) == multiset(unsorted)
    ensures Distinct(SidesOf(sorted))
  {
    assert Distinct(unsorted) by {
      forall i, j | 0 <= i < j < |unsorted|
        ensures unsorted[i] != unsorted[j]
      {
        assert keys[i] != keys[j];
      }
    }
    PermutationDistinct(unsorted, sorted);
    forall i, j | 0 <= i < j < |sorted|
      ensures SidesOf(sorted)[i] != SidesOf(sorted)[j]
    {
      if sorted[i].side == sorted[j].side {
        FaithfulRowsAgree(rows, sorted[i], sorted[j]);
      }
    }
  }

  /** Reordering keeps every row faithful to the rows it summarises. */
  lemma SortedFaithful(rows: seq<Tick>, unsorted: seq<SummaryRow>, sorted: seq<SummaryRow>)
    requires forall i :: 0 <= i < |unsorted| ==> FaithfulRow(rows, unsorted[i])
    requires multiset(sorted) == multiset(unsorted)
    ensures forall x :: x in sorted ==> FaithfulRow(rows, x)
  {
    forall x | x in sorted
      ensures FaithfulRow(rows, x)
    {
      assert x in multiset(unsorted);
      var j :| 0 <= j < |unsorted| && unsorted[j] == x;
    }
  }

  /** Reordering keeps the set of side labels of the rows. */
  lemma SortedSides(keys: seq<Option<string>>, unsorted: seq<SummaryRow>, sorted: seq<SummaryRow>)
    requires |unsorted| == |keys|
    requires forall i :: 0 <= i < |unsorted| ==> unsorted[i].side == keys[i]
    requires multiset(sorted) == multiset(unsorted)
    ensures forall k :: k in SidesOf(sorted) <==> k in keys
  {
    forall k
      ensures k in SidesOf(sorted) <==> k in keys
    {
      if k in SidesOf(sorted) {
        var i :| 0 <= i < |sorted| && SidesOf(sorted)[i] == k;
        assert sorted[i] in multiset(unsorted);
        var j :| 0 <= j < |unsorted| && unsorted[j] == sorted[i];
        assert keys[j] == k;
      }
      if k in keys {
        var j :| 0 <= j < |keys| && keys[j] == k;
        assert unsorted[j] in multiset(sorted);
        var i :| 0 <= i < |sorted| && sorted[i] == unsorted[j];
        assert SidesOf(sorted)[i] == k;
      }
    }
  }

  lemma {:induction false} TotalOfInsert(x: SummaryRow, rs: seq<SummaryRow>)
    requires NonIncreasing(rs)
    ensures TotalOf(Insert(x, rs)) == x.amountSum + TotalOf(rs)
  {
    if |rs| > 0 && x.amountSum < rs[0].amountSum {
      TotalOfInsert(x, rs[1..]);
      assert ([rs[0]] + Insert(x, rs[1..]))[1..] == Insert(x, rs[1..]);
    } else if |rs| > 0 {
      assert ([x] + rs)[1..] == rs;
    }
  }

  /** In a non-increasing table every row's sum is at least that of every
      later row, not only the next one. */
  lemma {:induction false} NonIncreasingOrdersAllPairs(rs: seq<SummaryRow>, i: nat, j: nat)
    requires NonIncreasing(rs)
    requires i <= j < |rs|
    ensures rs[i].amountSum >= rs[j].amountSum
    decreases j - i
  {
    if i < j {
      NonIncreasingOrdersAllPairs(rs, i + 1, j);
    }
  }

  /** Sorting reorders rows and so keeps their total. */
  lemma {:induction false} TotalOfSorted(rs: seq<SummaryRow>)
    ensures TotalOf(SortByAmountDesc(rs)) == TotalOf(rs)
  {
    if |rs| > 0 {
      TotalOfSorted(rs[1..]);
      TotalOfInsert(rs[0], SortByAmountDesc(rs[1..]));
    }
  }

  lemma {:induction false} TotalOfGroupRows(rows: seq<Tick>, keys: seq<Option<string>>)
    requires AmountsPositive(rows)
    requires forall k :: k in keys ==> exists t :: t in rows && t.side == k
    ensures TotalOf(GroupRows(rows, keys)) == SumOverKeys(rows, keys)
  {
    if |keys| > 0 {
      assert forall k :: k in keys[1..] ==> k in keys;
      TotalOfGroupRows(rows, keys[1..]);
      assert GroupRows(rows, keys)[1..] == GroupRows(rows, keys[1..]);
    }
  }

  /** Conservation across the summary: the amount sums of the summary rows
      add up to the total amount of the filtered table. */
  lemma SummaryConservesTotal(big: Frame)
    requires AmountsPositive(big.rows)
    requires Summarize(big).Ok? && Side in big.columns
    ensures TotalOf(Summarize(big).value) == AmountSum(big.rows)
  {
    var keys := GroupKeys(big.rows);
    TotalOfSorted(GroupRows(big.rows, keys));
    TotalOfGroupRows(big.rows, keys);
    GroupSumsConserveTotal(big.rows);
  }
}
