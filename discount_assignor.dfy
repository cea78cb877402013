/**
 * The fallback discount rule of main.py, lines 24-33: when the clustered
 * customer table has no `descuento_%` column, the median avance/compra ratio
 * of cluster 1 is computed once and every row gets a discount from its
 * cluster, its ratio and that median.
 */
module DiscountAssignor {
  import opened Wrappers
  import opened Seqs
  import opened Floats
  import opened RecordCleaner

  /** A row of the clustered table: the customer, its k-means label and its ratio. */
  datatype LabeledRow = LabeledRow(client: ClientId, cluster: int, ratio: Value)

  // ---------------------------------------------------------------------------
  // Series.median()

  predicate NoNaN(s: seq<Value>)
  {
    forall i :: 0 <= i < |s| ==> s[i] != NaN
  }

  /** Non-decreasing in the extended order of the reals. */
  predicate Sorted(s: seq<Value>)
  {
    forall i, j :: 0 <= i < j < |s| ==> !Below(s[j], s[i])
  }

  /** A value no greater than every element may be put in front of a sorted sequence. */
  lemma ConsSorted(y: Value, rest: seq<Value>)
    requires Sorted(rest) && forall j :: 0 <= j < |rest| ==> !Below(rest[j], y)
    ensures Sorted([y] + rest)
  {
    var out := [y] + rest;
    forall i, j | 0 <= i < j < |out|
      ensures !Below(out[j], out[i])
    {
      if i > 0 {
        assert out[i] == rest[i - 1] && out[j] == rest[j - 1];
      } else {
        assert out[j] == rest[j - 1];
      }
    }
  }

  /** In a sorted sequence nothing is below its first element. */
  lemma NotBelowHead(x: Value, r: seq<Value>)
    requires x != NaN && NoNaN(r) && Sorted(r) && |r| > 0 && !Below(r[0], x)
    ensures forall j :: 0 <= j < |r| ==> !Below(r[j], x)
  {
    forall j | 0 < j < |r|
      ensures !Below(r[j], x)
    {
      AtMost(x, r[0], r[j]);
    }
  }

  /** Inserting a value above `h` into a tail that is not below `h` keeps it so. */
  lemma NotBelowAfterInsert(h: Value, x: Value, tail: seq<Value>, rest: seq<Value>)
    requires Below(h, x) && multiset(rest) == multiset(tail) + multiset{x}
    requires forall j :: 0 <= j < |tail| ==> !Below(tail[j], h)
    ensures forall j :: 0 <= j < |rest| ==> !Below(rest[j], h)
  {
    forall j | 0 <= j < |rest|
      ensures !Below(rest[j], h)
    {
      var y := rest[j];
      assert y in multiset(rest);
      if y == x {
        BelowOrder(h, x, h);
      } else {
        assert y in multiset(tail);
        var k :| 0 <= k < |tail| && tail[k] == y;
      }
    }
  }

  /** The tail of a sorted sequence is sorted and not below its head. */
  lemma SortedTail(r: seq<Value>)
    requires NoNaN(r) && Sorted(r) && |r| > 0
    ensures NoNaN(r[1..]) && Sorted(r[1..])
    ensures forall j :: 0 <= j < |r| - 1 ==> !Below(r[1..][j], r[0])
    ensures multiset(r) == multiset{r[0]} + multiset(r[1..])
  {
    assert r == [r[0]] + r[1..];
    assert forall j :: 0 <= j < |r| - 1 ==> r[1..][j] == r[j + 1];
  }

  function InsertValue(x: Value, r: seq<Value>): (out: seq<Value>)
    requires x != NaN && NoNaN(r) && Sorted(r)
    ensures multiset(out) == multiset(r) + multiset{x} && |out| == |r| + 1
    ensures NoNaN(out) && Sorted(out)
  {
    if r == [] then [x]
    else if !Below(r[0], x) then
      NotBelowHead(x, r);
      ConsSorted(x, r);
      [x] + r
    else
      var tail := r[1..];
      SortedTail(r);
      var rest := InsertValue(x, tail);
      NotBelowAfterInsert(r[0], x, tail, rest);
      ConsSorted(r[0], rest);
      [r[0]] + rest
  }

  /** Insertion sort on values without NaN. */
  function SortValues(s: seq<Value>): (r: seq<Value>)
    requires NoNaN(s)
    ensures multiset(r) == multiset(s) && |r| == |s| && NoNaN(r) && Sorted(r)
  {
    if s == [] then [] else
      assert s == s[..|s| - 1] + [s[|s| - 1]];
      InsertValue(s[|s| - 1], SortValues(s[..|s| - 1]))
  }

  function SkipNaN(v: Value): Option<Value>
  {
    if v == NaN then None else Some(v)
  }

  /** `skipna=True`: the non-NaN values in order. */
  function NonNaN(vals: seq<Value>): (ns: seq<Value>)
    ensures NoNaN(ns)
  {
    var ns := FilterMap(vals, SkipNaN);
    assert forall i :: 0 <= i < |ns| ==> ns[i] != NaN by {
      forall i | 0 <= i < |ns|
        ensures ns[i] != NaN
      {
        assert ns[i] in ns;
        FilterMapSound(vals, SkipNaN, ns[i]);
      }
    }
    ns
  }

  /** The middle value of a sorted sequence, or the mean of the two middle ones; NaN when it is empty. */
  function Middle(r: seq<Value>): Value
  {
    var n := |r|;
    if n == 0 then NaN
    else if n % 2 == 1 then r[n / 2]
    else Divide(Add(r[n / 2 - 1], r[n / 2]), Num(2.0))
  }

  /** `Series.median()`: the middle of the sorted non-NaN values. */
  function Median(vals: seq<Value>): Value
  {
    Middle(SortValues(NonNaN(vals)))
  }

  /** `lower` is a sub-multiset of `all` holding at least half of it, each element at most m. */
  predicate LowerHalf(lower: multiset<Value>, all: multiset<Value>, m: Value)
  {
    lower <= all && 2 * |lower| >= |all| && forall v :: v in lower ==> !Below(m, v)
  }

  /** `upper` is a sub-multiset of `all` holding at least half of it, each element at least m. */
  predicate UpperHalf(upper: multiset<Value>, all: multiset<Value>, m: Value)
  {
    upper <= all && 2 * |upper| >= |all| && forall v :: v in upper ==> !Below(v, m)
  }

  lemma AtMost(x: Value, y: Value, z: Value)
    requires x != NaN && y != NaN && z != NaN
    requires !Below(y, x) && !Below(z, y)
    ensures !Below(z, x)
  {
    BelowOrder(z, y, x);
    BelowOrder(x, y, z);
  }

  /** The mean of two ordered values lies between them, unless it is NaN. */
  lemma MeanBetween(a: Value, b: Value)
    requires a != NaN && b != NaN && !Below(b, a)
    ensures var m := Divide(Add(a, b), Num(2.0));
      m != NaN ==> !Below(m, a) && !Below(b, m)
  {
  }

  /** The middle lies between the last element of the lower half and the first of the upper half. */
  lemma MiddleBetween(r: seq<Value>)
    requires NoNaN(r) && Sorted(r) && Middle(r) != NaN
    ensures !Below(Middle(r), r[(|r| + 1) / 2 - 1]) && !Below(r[|r| / 2], Middle(r))
  {
    var n := |r|;
    if n % 2 == 0 {
      MeanBetween(r[n / 2 - 1], r[n / 2]);
    } else {
      BelowOrder(r[n / 2], r[n / 2], r[n / 2]);
    }
  }

  /** At least half the elements of a sorted sequence are at most its middle. */
  lemma MiddleLowerHalf(r: seq<Value>)
    requires NoNaN(r) && Sorted(r) && Middle(r) != NaN
    ensures LowerHalf(multiset(r[..(|r| + 1) / 2]), multiset(r), Middle(r))
  {
    var m := Middle(r);
    var lo := (|r| + 1) / 2;
    assert r == r[..lo] + r[lo..];
    MiddleBetween(r);
    var a := r[lo - 1];
    forall v | v in multiset(r[..lo])
      ensures !Below(m, v)
    {
      var j :| 0 <= j < lo && r[..lo][j] == v;
      assert r[j] == v;
      if j < lo - 1 {
        AtMost(v, a, m);
      }
    }
  }

  /** At least half the elements of a sorted sequence are at least its middle. */
  lemma MiddleUpperHalf(r: seq<Value>)
    requires NoNaN(r) && Sorted(r) && Middle(r) != NaN
    ensures UpperHalf(multiset(r[|r| / 2..]), multiset(r), Middle(r))
  {
    var m := Middle(r);
    var hi := |r| / 2;
    assert r == r[..hi] + r[hi..];
    MiddleBetween(r);
    var b := r[hi];
    forall v | v in multiset(r[hi..])
      ensures !Below(v, m)
    {
      var j :| 0 <= j < |r| - hi && r[hi..][j] == v;
      assert r[hi + j] == v;
      if j > 0 {
        AtMost(m, b, v);
      }
    }
  }

  /**
   * The median of a series with a non-NaN value is a true median of those
   * values: some half of them (a sub-multiset) are at most it and some half at
   * least it. It is NaN when every value is.
   */
  lemma MedianSpec(vals: seq<Value>)
    ensures NonNaN(vals) == [] ==> Median(vals) == NaN
    ensures Median(vals) != NaN ==>
      (exists lower :: LowerHalf(lower, multiset(NonNaN(vals)), Median(vals))) &&
      (exists upper :: UpperHalf(upper, multiset(NonNaN(vals)), Median(vals)))
  {
    var r := SortValues(NonNaN(vals));
    if Median(vals) != NaN {
      MiddleLowerHalf(r);
      MiddleUpperHalf(r);
      assert LowerHalf(multiset(r[..(|r| + 1) / 2]), multiset(NonNaN(vals)), Median(vals));
      assert UpperHalf(multiset(r[|r| / 2..]), multiset(NonNaN(vals)), Median(vals));
    }
  }

  /** The median of a single present value is that value; NaN values are ignored. */
  lemma MedianExamples()
    ensures Median([NaN, Num(0.3)]) == Num(0.3)
    ensures Median([]) == NaN
  {
    assert NonNaN([NaN, Num(0.3)]) == [Num(0.3)] by {
      assert [NaN, Num(0.3)][..1] == [NaN];
      assert [NaN][..0] == [];
    }
    assert SortValues([Num(0.3)]) == [Num(0.3)] by {
      assert [Num(0.3)][..0] == [];
    }
  }

  // ---------------------------------------------------------------------------
  // asignar_descuento

  /** The discount, in percent, of one row given the cluster-1 median. */
  function AssignDiscount(row: LabeledRow, median: Value): (d: int)
    ensures d in {0, 5, 20, 25}
  {
    if row.cluster == 0 then 0
    else if row.cluster == 2 then 25
    else if GreaterThan(row.ratio, median) then 20
    else 5
  }

  /**
   * Cluster 0 gets 0, cluster 2 gets 25, and any other cluster 20 exactly when
   * its ratio is strictly above the median, so a ratio equal to the median, or
   * a NaN on either side, gets 5.
   */
  lemma AssignDiscountSpec(row: LabeledRow, median: Value)
    ensures row.cluster == 0 ==> AssignDiscount(row, median) == 0
    ensures row.cluster == 2 ==> AssignDiscount(row, median) == 25
    ensures row.cluster != 0 && row.cluster != 2 ==>
      (AssignDiscount(row, median) == 20 <==> GreaterThan(row.ratio, median)) &&
      (AssignDiscount(row, median) == 5 <==> !GreaterThan(row.ratio, median))
    ensures row.cluster != 0 && row.cluster != 2 && (row.ratio == median || row.ratio == NaN || median == NaN) ==>
      AssignDiscount(row, median) == 5
  {
    GreaterThanSpec(row.ratio, median);
    BelowOrder(median, median, median);
  }

  /** Within one cluster, a larger ratio never gets a smaller discount. */
  lemma AssignDiscountMonotone(r1: LabeledRow, r2: LabeledRow, median: Value)
    requires r1.cluster == r2.cluster && r1.ratio != NaN && r2.ratio != NaN
    requires !Below(r2.ratio, r1.ratio)
    ensures AssignDiscount(r1, median) <= AssignDiscount(r2, median)
  {
    if GreaterThan(r1.ratio, median) {
      AtMostBelow(median, r1.ratio, r2.ratio);
    }
  }

  lemma AtMostBelow(x: Value, y: Value, z: Value)
    requires Below(x, y) && z != NaN && !Below(z, y)
    ensures Below(x, z)
  {
    BelowOrder(x, y, z);
  }

  /**
   * Against a median of 0.3: cluster 1 with ratio 0.4 gets 20 and with ratio 0.3 gets 5;
   * cluster 0 gets 0 and cluster 2 gets 25, whatever the ratio.
   */
  lemma DiscountExamples()
    ensures AssignDiscount(LabeledRow(1, 1, Num(0.4)), Num(0.3)) == 20
    ensures AssignDiscount(LabeledRow(2, 0, Num(0.4)), Num(0.3)) == 0
    ensures AssignDiscount(LabeledRow(3, 1, Num(0.3)), Num(0.3)) == 5
    ensures AssignDiscount(LabeledRow(4, 2, NaN), Num(0.3)) == 25
  {
  }

  // ---------------------------------------------------------------------------
  // the block at lines 25-33

  function Cluster1Ratio(r: LabeledRow): Option<Value>
  {
    if r.cluster == 1 then Some(r.ratio) else None
  }

  /** `df[df['cluster']==1]['ratio_avance_compra'].median()`. */
  function ClusterMedian(rows: seq<LabeledRow>): Value
  {
    Median(FilterMap(rows, Cluster1Ratio))
  }

  /** Rows outside cluster 1 do not influence the median: replacing one by another such row keeps it. */
  lemma ClusterMedianIgnoresOthers(rows: seq<LabeledRow>, i: int, x: LabeledRow)
    requires 0 <= i < |rows| && rows[i].cluster != 1 && x.cluster != 1
    ensures ClusterMedian(rows[i := x]) == ClusterMedian(rows)
  {
    var rows' := rows[i := x];
    assert rows == rows[..i] + [rows[i]] + rows[i + 1..];
    assert rows' == rows[..i] + [x] + rows[i + 1..];
    FilterMapAppend(rows[..i] + [rows[i]], rows[i + 1..], Cluster1Ratio);
    FilterMapAppend(rows[..i] + [x], rows[i + 1..], Cluster1Ratio);
    FilterMapSnoc(rows[..i], rows[i], Cluster1Ratio);
    FilterMapSnoc(rows[..i], x, Cluster1Ratio);
  }

  /** `df.apply(asignar_descuento, axis=1)` with the median fixed beforehand. */
  method DiscountColumn(rows: seq<LabeledRow>, median: Value) returns (col: seq<int>)
    ensures |col| == |rows|
    ensures forall i :: 0 <= i < |rows| ==> col[i] == AssignDiscount(rows[i], median)
  {
    col := [];
    var i := 0;
    while i < |rows|
      invariant 0 <= i <= |rows|
      invariant |col| == i
      invariant forall j :: 0 <= j < i ==> col[j] == AssignDiscount(rows[j], median)
    {
      col := col + [AssignDiscount(rows[i], median)];
      i := i + 1;
    }
  }

  /** The discount column after the block: kept when present, else computed from the cluster-1 median. */
  function WithDiscount(rows: seq<LabeledRow>, discount: Option<seq<int>>): Option<seq<int>>
  {
    if discount.Some? then discount
    else Some(seq(|rows|, i requires 0 <= i < |rows| => AssignDiscount(rows[i], ClusterMedian(rows))))
  }

  /**
   * The block always leaves a discount column, of one entry per row, with
   * every computed entry in {0, 5, 20, 25}; running it a second time changes
   * nothing.
   */
  lemma WithDiscountSpec(rows: seq<LabeledRow>, discount: Option<seq<int>>)
    ensures WithDiscount(rows, discount).Some?
    ensures discount.Some? ==> WithDiscount(rows, discount) == discount
    ensures discount.None? ==>
      |WithDiscount(rows, discount).value| == |rows| &&
      forall i :: 0 <= i < |rows| ==> WithDiscount(rows, discount).value[i] in {0, 5, 20, 25}
    ensures WithDiscount(rows, WithDiscount(rows, discount)) == WithDiscount(rows, discount)
  {
  }

  /**
   * Each computed entry follows the rule with the one median of cluster 1:
   * 0 for cluster 0, 25 for cluster 2, otherwise 20 exactly when the ratio is
   * strictly above that median and 5 otherwise.
   */
  lemma WithDiscountRows(rows: seq<LabeledRow>, i: int)
    requires 0 <= i < |rows|
    ensures var d, m := WithDiscount(rows, None).value[i], ClusterMedian(rows);
      && (rows[i].cluster == 0 ==> d == 0)
      && (rows[i].cluster == 2 ==> d == 25)
      && (rows[i].cluster != 0 && rows[i].cluster != 2 ==>
            (d == 20 <==> GreaterThan(rows[i].ratio, m)) && (d == 5 <==> !GreaterThan(rows[i].ratio, m)))
  {
    AssignDiscountSpec(rows[i], ClusterMedian(rows));
  }

  /** The clustered customer table of main.py, whose discount column is added in place. */
  class ClusteredData {
    var rows: seq<LabeledRow>
    var discount: Option<seq<int>>

    constructor (rows: seq<LabeledRow>, discount: Option<seq<int>>)
      ensures this.rows == rows && this.discount == discount
    {
      this.rows := rows;
      this.discount := discount;
    }

    /** Lines 25-33: nothing happens when the column exists; the rows are never changed. */
    method EnsureDiscount()
      modifies this
      ensures rows == old(rows)
      ensures discount == WithDiscount(old(rows), old(discount))
    {
      if discount.None? {
        var mediana := ClusterMedian(rows);
        var rs := rows;
        var col := DiscountColumn(rs, mediana);
        assert col == seq(|rs|, i requires 0 <= i < |rs| => AssignDiscount(rs[i], ClusterMedian(rs)));
        discount := Some(col);
      }
    }
  }
}
