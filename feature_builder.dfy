/**
 * The feature builder of scripts/data_gold.py: per (customer, class) counts and
 * sums of the unified transaction table, their pivot to one row per customer,
 * and the three derived columns (avance/compra ratio, recency in days, total
 * number of transactions), composed in the order of `main`.
 */
module FeatureBuilder {
  import opened Wrappers
  import opened Seqs
  import opened Text
  import opened Floats
  import opened RecordCleaner
  import opened DataClean

  // ---------------------------------------------------------------------------
  // generate_aggregates

  /** One row of the long-form aggregate: the group key, `num_tx` and `total_valor`. */
  datatype AggRow = AggRow(client: ClientId, clase: string, numTx: nat, totalValor: real)

  function Sum(s: seq<real>): real
  {
    if s == [] then 0.0 else Sum(s[..|s| - 1]) + s[|s| - 1]
  }

  /** `count` skips a missing value and `sum` adds only present ones. */
  function AddValor(a: AggRow, v: Option<real>): AggRow
  {
    match v
    case None => a
    case Some(x) => a.(numTx := a.numTx + 1, totalValor := a.totalValor + x)
  }

  /** Folds one row of group (c, k) into the aggregate, opening the group if it is new. */
  function Accumulate(rows: seq<AggRow>, c: ClientId, k: string, v: Option<real>): seq<AggRow>
  {
    if rows == [] then [AddValor(AggRow(c, k, 0, 0.0), v)]
    else if rows[0].client == c && rows[0].clase == k then [AddValor(rows[0], v)] + rows[1..]
    else [rows[0]] + Accumulate(rows[1..], c, k, v)
  }

  /**
   * Grouping on `Id_cliente` and `clase`: rows whose class is missing belong to
   * no group; a group whose values are all missing has count 0 and sum 0.
   */
  function Aggregate(t: seq<MasterRow>): seq<AggRow>
  {
    if t == [] then [] else
      var r := t[|t| - 1];
      match r.clase
      case None => Aggregate(t[..|t| - 1])
      case Some(k) => Accumulate(Aggregate(t[..|t| - 1]), r.client, k, r.valor)
  }

  /** The aggregate row of group (c, k), if there is one. */
  function Lookup(rows: seq<AggRow>, c: ClientId, k: string): Option<AggRow>
  {
    if rows == [] then None
    else if rows[0].client == c && rows[0].clase == k then Some(rows[0])
    else Lookup(rows[1..], c, k)
  }

  /** No two aggregate rows share a group key. */
  predicate DistinctKeys(rows: seq<AggRow>)
  {
    forall i, j :: 0 <= i < j < |rows| ==> (rows[i].client, rows[i].clase) != (rows[j].client, rows[j].clase)
  }

  lemma {:induction false} LookupFound(rows: seq<AggRow>, c: ClientId, k: string)
    ensures Lookup(rows, c, k).Some? <==> exists i :: 0 <= i < |rows| && rows[i].client == c && rows[i].clase == k
    ensures Lookup(rows, c, k).Some? ==>
      Lookup(rows, c, k).value in rows && Lookup(rows, c, k).value.client == c && Lookup(rows, c, k).value.clase == k
  {
    if rows != [] {
      LookupFound(rows[1..], c, k);
      if exists i :: 0 <= i < |rows| && rows[i].client == c && rows[i].clase == k {
        var i :| 0 <= i < |rows| && rows[i].client == c && rows[i].clase == k;
        if i > 0 {
          assert rows[1..][i - 1] == rows[i];
        }
      }
      if exists i :: 0 <= i < |rows| - 1 && rows[1..][i].client == c && rows[1..][i].clase == k {
        var i :| 0 <= i < |rows| - 1 && rows[1..][i].client == c && rows[1..][i].clase == k;
        assert rows[i + 1] == rows[1..][i];
      }
    }
  }

  /** Accumulating into group (c, k) changes that group only and keeps the keys distinct. */
  lemma {:induction false} AccumulateSpec(rows: seq<AggRow>, c: ClientId, k: string, v: Option<real>, c': ClientId, k': string)
    requires DistinctKeys(rows)
    ensures DistinctKeys(Accumulate(rows, c, k, v))
    ensures Lookup(Accumulate(rows, c, k, v), c', k') ==
      if c' == c && k' == k then
        Some(AddValor(match Lookup(rows, c, k) case Some(a) => a case None => AggRow(c, k, 0, 0.0), v))
      else Lookup(rows, c', k')
  {
    if rows != [] {
      var tail := rows[1..];
      assert DistinctKeys(tail) by {
        forall i, j | 0 <= i < j < |tail|
          ensures (tail[i].client, tail[i].clase) != (tail[j].client, tail[j].clase)
        {
          assert tail[i] == rows[i + 1] && tail[j] == rows[j + 1];
        }
      }
      var out := Accumulate(rows, c, k, v);
      if rows[0].client == c && rows[0].clase == k {
        assert out == [AddValor(rows[0], v)] + tail;
        assert forall i :: 0 <= i < |out| ==> (out[i].client, out[i].clase) == (rows[i].client, rows[i].clase);
        if !(c' == c && k' == k) {
          assert out[1..] == tail;
        }
      } else {
        AccumulateSpec(tail, c, k, v, c', k');
        var rest := Accumulate(tail, c, k, v);
        assert out == [rows[0]] + rest && out[1..] == rest;
        assert DistinctKeys(out) by {
          LookupFound(tail, rows[0].client, rows[0].clase);
          forall i | 0 <= i < |tail|
            ensures (tail[i].client, tail[i].clase) != (rows[0].client, rows[0].clase)
          {
            assert tail[i] == rows[i + 1];
          }
          AccumulateSpec(tail, c, k, v, rows[0].client, rows[0].clase);
          LookupFound(rest, rows[0].client, rows[0].clase);
          forall i, j | 0 <= i < j < |out|
            ensures (out[i].client, out[i].clase) != (out[j].client, out[j].clase)
          {
            if i > 0 {
              assert out[i] == rest[i - 1] && out[j] == rest[j - 1];
            } else {
              assert out[j] == rest[j - 1];
            }
          }
        }
      }
    }
  }

  /** The present `valor` of a row of group (c, k). */
  function InGroup(c: ClientId, k: string): MasterRow -> Option<real>
  {
    (r: MasterRow) => if r.client == c && r.clase == Some(k) then r.valor else None
  }

  /** The non-missing values of group (c, k), in table order. */
  function GroupValues(t: seq<MasterRow>, c: ClientId, k: string): seq<real>
  {
    FilterMap(t, InGroup(c, k))
  }

  predicate HasGroup(t: seq<MasterRow>, c: ClientId, k: string)
  {
    exists i :: 0 <= i < |t| && t[i].client == c && t[i].clase == Some(k)
  }

  lemma SumSnoc(s: seq<real>, x: real)
    ensures Sum(s + [x]) == Sum(s) + x
  {
    assert (s + [x])[..|s|] == s;
  }

  lemma NoGroupNoValues(t: seq<MasterRow>, c: ClientId, k: string)
    requires !HasGroup(t, c, k)
    ensures GroupValues(t, c, k) == []
  {
    if GroupValues(t, c, k) != [] {
      FilterMapSound(t, InGroup(c, k), GroupValues(t, c, k)[0]);
      assert false;
    }
  }

  lemma HasGroupSnoc(t: seq<MasterRow>, c: ClientId, k: string)
    requires t != []
    ensures HasGroup(t, c, k) <==>
      HasGroup(t[..|t| - 1], c, k) || (t[|t| - 1].client == c && t[|t| - 1].clase == Some(k))
  {
    var n := |t| - 1;
    if HasGroup(t, c, k) {
      var i :| 0 <= i < |t| && t[i].client == c && t[i].clase == Some(k);
      if i < n {
        assert t[..n][i] == t[i];
      }
    }
    if HasGroup(t[..n], c, k) {
      var i :| 0 <= i < n && t[..n][i].client == c && t[..n][i].clase == Some(k);
      assert t[i] == t[..n][i];
    }
  }

  /**
   * The aggregate has exactly one row per (customer, class) pair occurring with
   * a present class, holding the number and the sum of the group's present values.
   */
  lemma {:induction false} AggregateSpec(t: seq<MasterRow>, c: ClientId, k: string)
    ensures DistinctKeys(Aggregate(t))
    ensures Lookup(Aggregate(t), c, k) ==
      if HasGroup(t, c, k) then Some(AggRow(c, k, |GroupValues(t, c, k)|, Sum(GroupValues(t, c, k)))) else None
  {
    if t != [] {
      var n := |t| - 1;
      var p, r := t[..n], t[n];
      assert t == p + [r];
      AggregateSpec(p, c, k);
      AggregateStep(p, r, c, k);
    }
  }

  /** One more master row keeps the aggregate in agreement with its groups. */
  lemma AggregateStep(p: seq<MasterRow>, r: MasterRow, c: ClientId, k: string)
    requires DistinctKeys(Aggregate(p))
    requires Lookup(Aggregate(p), c, k) ==
      if HasGroup(p, c, k) then Some(AggRow(c, k, |GroupValues(p, c, k)|, Sum(GroupValues(p, c, k)))) else None
    ensures DistinctKeys(Aggregate(p + [r]))
    ensures Lookup(Aggregate(p + [r]), c, k) ==
      if HasGroup(p + [r], c, k) then Some(AggRow(c, k, |GroupValues(p + [r], c, k)|, Sum(GroupValues(p + [r], c, k)))) else None
  {
    var t := p + [r];
    assert t[..|t| - 1] == p && t[|t| - 1] == r;
    FilterMapSnoc(p, r, InGroup(c, k));
    HasGroupSnoc(t, c, k);
    match r.clase
    case None =>
      assert Aggregate(t) == Aggregate(p);
      assert InGroup(c, k)(r) == None;
      assert GroupValues(t, c, k) == GroupValues(p, c, k);
    case Some(k0) =>
      assert Aggregate(t) == Accumulate(Aggregate(p), r.client, k0, r.valor);
      AccumulateSpec(Aggregate(p), r.client, k0, r.valor, c, k);
      if r.client == c && k0 == k {
        GroupStep(p, r, c, k);
      } else {
        assert InGroup(c, k)(r) == None;
        assert GroupValues(t, c, k) == GroupValues(p, c, k);
      }
  }

  /** A row of group (c, k) adds one to its count and its present value to its sum. */
  lemma GroupStep(p: seq<MasterRow>, r: MasterRow, c: ClientId, k: string)
    requires r.client == c && r.clase == Some(k)
    requires GroupValues(p + [r], c, k) == GroupValues(p, c, k) + (match r.valor case Some(x) => [x] case None => [])
    ensures AddValor(if HasGroup(p, c, k) then AggRow(c, k, |GroupValues(p, c, k)|, Sum(GroupValues(p, c, k))) else AggRow(c, k, 0, 0.0), r.valor)
         == AggRow(c, k, |GroupValues(p + [r], c, k)|, Sum(GroupValues(p + [r], c, k)))
  {
    if !HasGroup(p, c, k) {
      NoGroupNoValues(p, c, k);
    }
    match r.valor
    case None =>
      assert GroupValues(p + [r], c, k) == GroupValues(p, c, k);
    case Some(x) =>
      SumSnoc(GroupValues(p, c, k), x);
  }

  // ---------------------------------------------------------------------------
  // pivot_features

  /** Inserts an id into a strictly increasing sequence unless it is already there. */
  function Insert(x: int, r: seq<int>): (out: seq<int>)
    requires StrictlyIncreasing(r)
    ensures StrictlyIncreasing(out)
    ensures forall y :: y in out <==> y == x || y in r
  {
    if r == [] then [x]
    else if x < r[0] then [x] + r
    else if x == r[0] then r
    else
      var rest := Insert(x, r[1..]);
      assert forall y :: y in rest ==> r[0] < y by {
        forall y | y in rest
          ensures r[0] < y
        {
          if y != x {
            var j :| 0 <= j < |r[1..]| && r[1..][j] == y;
            assert r[j + 1] == y;
          }
        }
      }
      var out := [r[0]] + rest;
      forall i, j | 0 <= i < j < |out|
        ensures out[i] < out[j]
      {
        assert out[j] == rest[j - 1] && out[j] in rest;
        if i > 0 {
          assert out[i] == rest[i - 1];
        }
      }
      out
  }

  /** The distinct ids of a sequence in increasing order, as the pivot's index lists them. */
  function SortedDistinct(xs: seq<int>): (r: seq<int>)
    ensures StrictlyIncreasing(r)
    ensures forall y :: y in r <==> y in xs
  {
    if xs == [] then [] else Insert(xs[|xs| - 1], SortedDistinct(xs[..|xs| - 1]))
  }

  /** The customers and the classes of the aggregate rows. */
  function Clients(agg: seq<AggRow>): seq<ClientId>
  {
    seq(|agg|, i requires 0 <= i < |agg| => agg[i].client)
  }

  function Classes(agg: seq<AggRow>): set<string>
  {
    set r | r in agg :: r.clase
  }

  /** The generated column name: metric and class joined by "_", lower-cased. */
  function ColumnName(metric: string, clase: string): string
  {
    Lower(metric + "_" + clase)
  }

  const NumTx := "num_tx"
  const TotalValor := "total_valor"

  /** Text without upper-case letters is its own lower-casing. */
  lemma {:induction false} LowerOfLowercase(s: string)
    requires forall i :: 0 <= i < |s| ==> !('A' <= s[i] <= 'Z')
    ensures Lower(s) == s
  {
    if s != [] {
      LowerOfLowercase(s[1..]);
    }
  }

  lemma ColumnNameSplit(metric: string, clase: string)
    requires metric == NumTx || metric == TotalValor
    ensures ColumnName(metric, clase) == metric + "_" + Lower(clase)
  {
    LowerAppend(metric + "_", clase);
    MetricPrefixIsLower(metric);
  }

  lemma MetricPrefixIsLower(metric: string)
    requires metric == NumTx || metric == TotalValor
    ensures Lower(metric + "_") == metric + "_"
  {
    if metric == NumTx {
      assert metric + "_" == "num_tx_";
      LowerOfLowercase("num_tx_");
    } else {
      assert metric + "_" == "total_valor_";
      LowerOfLowercase("total_valor_");
    }
  }

  /** Lower-casing a capitalised word changes its first letter only. */
  lemma LowerInitial(s: string)
    requires |s| > 0 && forall i :: 1 <= i < |s| ==> !('A' <= s[i] <= 'Z')
    ensures Lower(s) == [LowerChar(s[0])] + s[1..]
  {
    LowerOfLowercase(s[1..]);
  }

  /** Class labels that stay distinct once lower-cased, so that no two generated columns share a name. */
  predicate LowerDistinct(classes: set<string>)
  {
    forall a, b :: a in classes && b in classes && Lower(a) == Lower(b) ==> a == b
  }

  /** Different classes, or different metrics, give different column names. */
  lemma ColumnNamesDistinct(m1: string, k1: string, m2: string, k2: string)
    requires m1 == NumTx || m1 == TotalValor
    requires m2 == NumTx || m2 == TotalValor
    requires Lower(k1) == Lower(k2) ==> k1 == k2
    requires ColumnName(m1, k1) == ColumnName(m2, k2)
    ensures m1 == m2 && k1 == k2
  {
    ColumnNameSplit(m1, k1);
    ColumnNameSplit(m2, k2);
    var a, b := m1 + "_" + Lower(k1), m2 + "_" + Lower(k2);
    assert a[0] == m1[0] && b[0] == m2[0];
    assert m1 == m2;
    assert Lower(k1) == a[|m1| + 1..] && Lower(k2) == b[|m2| + 1..];
  }

  /** A pivot cell: the pair's statistic, or 0 where the pair does not occur. */
  function Cell(agg: seq<AggRow>, metric: string, c: ClientId, k: string): real
  {
    match Lookup(agg, c, k)
    case None => 0.0
    case Some(a) => if metric == NumTx then a.numTx as real else a.totalValor
  }

  function PivotColumn(agg: seq<AggRow>, index: seq<ClientId>, metric: string, k: string): seq<Value>
  {
    seq(|index|, i requires 0 <= i < |index| => Num(Cell(agg, metric, index[i], k)))
  }

  /** A wide table: one row per id of `index`, each column a sequence of cells in row order. */
  datatype Frame = Frame(index: seq<ClientId>, columns: map<string, seq<Value>>)

  /** Ids are a unique, increasing key and every column covers every row. */
  predicate WellFormed(f: Frame)
  {
    && StrictlyIncreasing(f.index)
    && forall name :: name in f.columns ==> |f.columns[name]| == |f.index|
  }

  /**
   * The two columns of every class occurring in `rows`; a later row of the same
   * class writes the same cells again.
   */
  function PivotColumns(agg: seq<AggRow>, index: seq<ClientId>, rows: seq<AggRow>): map<string, seq<Value>>
  {
    if rows == [] then map[] else
      var k := rows[|rows| - 1].clase;
      PivotColumns(agg, index, rows[..|rows| - 1])
        [ColumnName(NumTx, k) := PivotColumn(agg, index, NumTx, k)]
        [ColumnName(TotalValor, k) := PivotColumn(agg, index, TotalValor, k)]
  }

  /**
   * `pivot(index="Id_cliente", columns="clase", values=[num_tx, total_valor])`
   * followed by `fillna(0)` and the column renaming.
   */
  function Pivot(agg: seq<AggRow>): Frame
  {
    var index := SortedDistinct(Clients(agg));
    Frame(index, PivotColumns(agg, index, agg))
  }

  /** The classes "Compra" and "Avance" yield the columns `*_compra` and `*_avance` of both metrics. */
  lemma ColumnNameExamples()
    ensures ColumnName(TotalValor, "Compra") == "total_valor_compra"
    ensures ColumnName(TotalValor, "Avance") == "total_valor_avance"
    ensures ColumnName(NumTx, "Compra") == "num_tx_compra"
    ensures ColumnName(NumTx, "Avance") == "num_tx_avance"
  {
    ExampleClassesLower();
    assert ColumnName(TotalValor, "Compra") == "total_valor_compra" by {
      ColumnNameSplit(TotalValor, "Compra");
    }
    assert ColumnName(TotalValor, "Avance") == "total_valor_avance" by {
      ColumnNameSplit(TotalValor, "Avance");
    }
    assert ColumnName(NumTx, "Compra") == "num_tx_compra" by {
      ColumnNameSplit(NumTx, "Compra");
    }
    assert ColumnName(NumTx, "Avance") == "num_tx_avance" by {
      ColumnNameSplit(NumTx, "Avance");
    }
  }

  lemma ExampleClassesLower()
    ensures Lower("Compra") == "compra" && Lower("Avance") == "avance"
  {
    assert Lower("Compra") == "compra" by {
      LowerInitial("Compra");
      assert "Compra"[1..] == "ompra";
    }
    assert Lower("Avance") == "avance" by {
      LowerInitial("Avance");
      assert "Avance"[1..] == "vance";
    }
  }

  lemma ClassesSnoc(rows: seq<AggRow>)
    requires rows != []
    ensures Classes(rows) == Classes(rows[..|rows| - 1]) + {rows[|rows| - 1].clase}
  {
    assert rows == rows[..|rows| - 1] + [rows[|rows| - 1]];
  }

  /** The generated columns are exactly two per class. */
  lemma {:induction false} PivotColumnsKeys(agg: seq<AggRow>, index: seq<ClientId>, rows: seq<AggRow>, name: string)
    ensures name in PivotColumns(agg, index, rows) <==>
      exists k :: k in Classes(rows) && (name == ColumnName(NumTx, k) || name == ColumnName(TotalValor, k))
    ensures forall name' :: name' in PivotColumns(agg, index, rows) ==> |PivotColumns(agg, index, rows)[name']| == |index|
  {
    if rows != [] {
      var n := |rows| - 1;
      PivotColumnsKeys(agg, index, rows[..n], name);
      ClassesSnoc(rows);
    }
  }

  /** Each class's two columns hold that class's cells, whatever other classes occur. */
  lemma {:induction false} PivotColumnsCells(agg: seq<AggRow>, index: seq<ClientId>, rows: seq<AggRow>, k: string)
    requires LowerDistinct(Classes(rows)) && k in Classes(rows)
    ensures ColumnName(NumTx, k) in PivotColumns(agg, index, rows)
    ensures ColumnName(TotalValor, k) in PivotColumns(agg, index, rows)
    ensures PivotColumns(agg, index, rows)[ColumnName(NumTx, k)] == PivotColumn(agg, index, NumTx, k)
    ensures PivotColumns(agg, index, rows)[ColumnName(TotalValor, k)] == PivotColumn(agg, index, TotalValor, k)
  {
    var n := |rows| - 1;
    var last := rows[n].clase;
    ClassesSnoc(rows);
    if ColumnName(NumTx, k) == ColumnName(TotalValor, last) {
      ColumnNamesDistinct(NumTx, k, TotalValor, last);
    }
    if k != last {
      ColumnNamesOfDistinctClasses(k, last);
      PivotColumnsCells(agg, index, rows[..n], k);
    }
  }

  lemma ColumnNamesOfDistinctClasses(k1: string, k2: string)
    requires k1 != k2 && Lower(k1) != Lower(k2)
    ensures ColumnName(NumTx, k1) != ColumnName(NumTx, k2) && ColumnName(NumTx, k1) != ColumnName(TotalValor, k2)
    ensures ColumnName(TotalValor, k1) != ColumnName(NumTx, k2) && ColumnName(TotalValor, k1) != ColumnName(TotalValor, k2)
  {
    if ColumnName(NumTx, k1) == ColumnName(NumTx, k2) { ColumnNamesDistinct(NumTx, k1, NumTx, k2); }
    if ColumnName(NumTx, k1) == ColumnName(TotalValor, k2) { ColumnNamesDistinct(NumTx, k1, TotalValor, k2); }
    if ColumnName(TotalValor, k1) == ColumnName(NumTx, k2) { ColumnNamesDistinct(TotalValor, k1, NumTx, k2); }
    if ColumnName(TotalValor, k1) == ColumnName(TotalValor, k2) { ColumnNamesDistinct(TotalValor, k1, TotalValor, k2); }
  }

  /**
   * The pivot has one row per customer of the aggregate, in increasing id
   * order, and for each class two columns, `num_tx_<class>` and
   * `total_valor_<class>` (lower-cased), and no others.
   */
  lemma PivotShape(agg: seq<AggRow>, name: string)
    ensures WellFormed(Pivot(agg))
    ensures forall c :: c in Pivot(agg).index <==> exists i :: 0 <= i < |agg| && agg[i].client == c
    ensures name in Pivot(agg).columns <==>
      exists k :: k in Classes(agg) && (name == ColumnName(NumTx, k) || name == ColumnName(TotalValor, k))
  {
    var index := SortedDistinct(Clients(agg));
    PivotColumnsKeys(agg, index, agg, name);
    forall c
      ensures c in index <==> exists i :: 0 <= i < |agg| && agg[i].client == c
    {
      if c in index {
        var i :| 0 <= i < |Clients(agg)| && Clients(agg)[i] == c;
        assert agg[i].client == c;
      }
      if exists i :: 0 <= i < |agg| && agg[i].client == c {
        var i :| 0 <= i < |agg| && agg[i].client == c;
        assert Clients(agg)[i] == c;
      }
    }
  }

  /**
   * The cells of class k's two columns: the group's count and sum for each
   * customer, or 0 where the (customer, class) pair does not occur.
   */
  lemma PivotCell(agg: seq<AggRow>, k: string, i: int)
    requires LowerDistinct(Classes(agg))
    requires k in Classes(agg) && 0 <= i < |Pivot(agg).index|
    ensures ColumnName(NumTx, k) in Pivot(agg).columns && ColumnName(TotalValor, k) in Pivot(agg).columns
    ensures Pivot(agg).columns[ColumnName(NumTx, k)] == PivotColumn(agg, Pivot(agg).index, NumTx, k)
    ensures Pivot(agg).columns[ColumnName(TotalValor, k)] == PivotColumn(agg, Pivot(agg).index, TotalValor, k)
    ensures var c := Pivot(agg).index[i];
      match Lookup(agg, c, k)
      case None =>
        Pivot(agg).columns[ColumnName(NumTx, k)][i] == Num(0.0) && Pivot(agg).columns[ColumnName(TotalValor, k)][i] == Num(0.0)
      case Some(a) =>
        Pivot(agg).columns[ColumnName(NumTx, k)][i] == Num(a.numTx as real) &&
        Pivot(agg).columns[ColumnName(TotalValor, k)][i] == Num(a.totalValor)
  {
    PivotColumnsCells(agg, Pivot(agg).index, agg, k);
  }

  /** The class labels present in a table. */
  function ClassLabels(t: seq<MasterRow>): set<string>
  {
    set i | 0 <= i < |t| && t[i].clase.Some? :: t[i].clase.value
  }

  /** The aggregate's classes are the table's present class labels. */
  lemma AggregateClasses(t: seq<MasterRow>)
    ensures Classes(Aggregate(t)) == ClassLabels(t)
  {
    var agg := Aggregate(t);
    forall k | k in Classes(agg)
      ensures k in ClassLabels(t)
    {
      var r :| r in agg && r.clase == k;
      LookupFound(agg, r.client, k);
      AggregateSpec(t, r.client, k);
      var i :| 0 <= i < |t| && t[i].client == r.client && t[i].clase == Some(k);
    }
    forall k | k in ClassLabels(t)
      ensures k in Classes(agg)
    {
      var i :| 0 <= i < |t| && t[i].clase == Some(k);
      AggregateSpec(t, t[i].client, k);
      LookupFound(agg, t[i].client, k);
    }
  }

  /** The wide per-customer table that lines 62-63 build from the unified transaction table. */
  function PivotOf(t: seq<MasterRow>): Frame
  {
    Pivot(Aggregate(t))
  }

  /**
   * Lines 62-63 together: the pivot's rows are the customers having a row with
   * a class, and customer c's `num_tx_<k>` and `total_valor_<k>` are the number
   * and the sum of the present values of group (c, k), which are 0 when the
   * group does not occur.
   */
  lemma PivotOfSpec(t: seq<MasterRow>, k: string, i: int)
    requires LowerDistinct(ClassLabels(t))
    requires k in ClassLabels(t) && 0 <= i < |PivotOf(t).index|
    ensures WellFormed(PivotOf(t))
    ensures exists j :: 0 <= j < |t| && t[j].client == PivotOf(t).index[i] && t[j].clase.Some?
    ensures var c := PivotOf(t).index[i];
      && ColumnName(NumTx, k) in PivotOf(t).columns
      && ColumnName(TotalValor, k) in PivotOf(t).columns
      && PivotOf(t).columns[ColumnName(NumTx, k)][i] == Num(|GroupValues(t, c, k)| as real)
      && PivotOf(t).columns[ColumnName(TotalValor, k)][i] == Num(Sum(GroupValues(t, c, k)))
  {
    var agg := Aggregate(t);
    AggregateClasses(t);
    PivotShape(agg, "");
    PivotCell(agg, k, i);
    var c := PivotOf(t).index[i];
    AggregateSpec(t, c, k);
    if !HasGroup(t, c, k) {
      NoGroupNoValues(t, c, k);
    }
    assert c in Pivot(agg).index;
    var a :| 0 <= a < |agg| && agg[a].client == c;
    LookupFound(agg, c, agg[a].clase);
    AggregateSpec(t, c, agg[a].clase);
  }

  // ---------------------------------------------------------------------------
  // adding a column, shared by the three add_* steps

  /** `df[name] = col`: the column is added, or replaced when the name is taken. */
  function WithColumn(f: Frame, name: string, col: seq<Value>): Frame
    requires |col| == |f.index|
  {
    Frame(f.index, f.columns[name := col])
  }

  /** Adding a column keeps the rows, the well-formedness and every other column. */
  lemma WithColumnSpec(f: Frame, name: string, col: seq<Value>)
    requires |col| == |f.index|
    ensures WithColumn(f, name, col).index == f.index
    ensures WellFormed(f) ==> WellFormed(WithColumn(f, name, col))
    ensures WithColumn(f, name, col).columns.Keys == f.columns.Keys + {name}
    ensures WithColumn(f, name, col).columns[name] == col
    ensures forall other :: other in f.columns && other != name ==> WithColumn(f, name, col).columns[other] == f.columns[other]
  {
  }

  // ---------------------------------------------------------------------------
  // add_ratio_avance_compra

  const Avance := "total_valor_avance"
  const Compra := "total_valor_compra"
  const RatioName := "ratio_avance_compra"

  /** `df.get(name, default)`: the column when the frame has one, otherwise the scalar for every row. */
  function ColumnOr(f: Frame, name: string, default: real): (col: seq<Value>)
    requires WellFormed(f)
    ensures |col| == |f.index|
  {
    if name in f.columns then f.columns[name] else seq(|f.index|, i => Num(default))
  }

  function RatioColumn(f: Frame): (col: seq<Value>)
    requires WellFormed(f)
    ensures |col| == |f.index|
  {
    var num, den := ColumnOr(f, Avance, 0.0), ColumnOr(f, Compra, 1.0);
    seq(|f.index|, i requires 0 <= i < |f.index| => Divide(num[i], den[i]))
  }

  function WithRatio(f: Frame): Frame
    requires WellFormed(f)
  {
    WithColumn(f, RatioName, RatioColumn(f))
  }

  /**
   * The defaults apply per column: without a compra column the ratio is the
   * avance value itself (0 without an avance column either); without an
   * avance column the ratio is 0 for every customer whose compra is a
   * non-zero number or an infinity; a customer whose compra is 0 gets no
   * finite ratio; otherwise the ratio is the quotient.
   */
  lemma RatioSpec(f: Frame, i: int)
    requires WellFormed(f) && 0 <= i < |f.index|
    ensures Compra !in f.columns ==> RatioColumn(f)[i] == ColumnOr(f, Avance, 0.0)[i]
    ensures Compra !in f.columns && Avance !in f.columns ==> RatioColumn(f)[i] == Num(0.0)
    ensures Compra in f.columns && f.columns[Compra][i] == Num(0.0) ==> !RatioColumn(f)[i].Num?
    ensures Avance !in f.columns && Compra in f.columns && f.columns[Compra][i] != NaN && f.columns[Compra][i] != Num(0.0) ==>
      RatioColumn(f)[i] == Num(0.0)
    ensures
      (Avance in f.columns && Compra in f.columns && f.columns[Avance][i].Num? &&
       f.columns[Compra][i].Num? && f.columns[Compra][i].x != 0.0) ==>
        RatioColumn(f)[i] == Num(f.columns[Avance][i].x / f.columns[Compra][i].x)
  {
    DivideByOne(ColumnOr(f, Avance, 0.0)[i]);
    DivideFinite(ColumnOr(f, Avance, 0.0)[i], ColumnOr(f, Compra, 1.0)[i]);
  }

  /** A customer with avance 50 in a frame without a compra column gets ratio 50; with one and compra 0, no finite ratio. */
  lemma RatioExamples()
    ensures RatioColumn(Frame([7], map[Avance := [Num(50.0)]])) == [Num(50.0)]
    ensures RatioColumn(Frame([7], map[Avance := [Num(50.0)], Compra := [Num(0.0)]])) == [PosInf]
  {
    var f := Frame([7], map[Avance := [Num(50.0)]]);
    assert Compra != Avance;
    RatioSpec(f, 0);
    var g := Frame([7], map[Avance := [Num(50.0)], Compra := [Num(0.0)]]);
    assert RatioColumn(g)[0] == Divide(Num(50.0), Num(0.0));
  }

  // ---------------------------------------------------------------------------
  // add_recencia

  const DiasName := "dias_desde_ultima_tx"

  /** The largest element, if any. */
  function MaxOf(s: seq<int>): (m: Option<int>)
    ensures m.Some? <==> s != []
    ensures m.Some? ==> m.value in s && forall x :: x in s ==> x <= m.value
  {
    if s == [] then None else
      var last := s[|s| - 1];
      match MaxOf(s[..|s| - 1])
      case None =>
        assert s == [last];
        Some(last)
      case Some(m) =>
        assert s == s[..|s| - 1] + [last];
        if m < last then Some(last) else Some(m)
  }

  function DateOf(r: MasterRow): Option<int>
  {
    r.date
  }

  function ClientDate(c: ClientId): MasterRow -> Option<int>
  {
    (r: MasterRow) => if r.client == c then r.date else None
  }

  /** `groupby("Id_cliente")["fecha_efectiva"].max()`: missing dates are skipped. */
  function LastDate(t: seq<MasterRow>, c: ClientId): Option<int>
  {
    MaxOf(FilterMap(t, ClientDate(c)))
  }

  /** `df["fecha_efectiva"].max()`. */
  function Latest(t: seq<MasterRow>): Option<int>
  {
    MaxOf(FilterMap(t, DateOf))
  }

  /** Days from the customer's last transaction to the latest one overall; missing when either date is. */
  function Recency(t: seq<MasterRow>, c: ClientId): Option<int>
  {
    match (Latest(t), LastDate(t, c))
    case (Some(latest), Some(last)) => Some(latest - last)
    case (_, _) => None
  }

  /**
   * A customer's last date is the largest of its present dates, and is missing
   * exactly when the customer has no present date.
   */
  lemma LastDateSpec(t: seq<MasterRow>, c: ClientId)
    ensures LastDate(t, c).None? <==> forall i :: 0 <= i < |t| && t[i].client == c ==> t[i].date.None?
    ensures LastDate(t, c).Some? ==>
      (exists i :: 0 <= i < |t| && t[i].client == c && t[i].date == LastDate(t, c)) &&
      forall i :: 0 <= i < |t| && t[i].client == c && t[i].date.Some? ==> t[i].date.value <= LastDate(t, c).value
  {
    var f := ClientDate(c);
    var ds := FilterMap(t, f);
    forall i | 0 <= i < |t| && t[i].client == c && t[i].date.Some?
      ensures t[i].date.value in ds
    {
      assert f(t[i]) == t[i].date;
      FilterMapComplete(t, f, i);
    }
    if ds != [] {
      var m := LastDate(t, c).value;
      FilterMapSound(t, f, m);
      var i :| 0 <= i < |t| && f(t[i]) == Some(m);
      assert t[i].client == c && t[i].date == Some(m);
    }
  }

  /**
   * Recency is present for every customer with a date, never negative, and 0
   * exactly for the customers whose last date is the latest overall.
   */
  lemma RecencySpec(t: seq<MasterRow>, c: ClientId)
    ensures Recency(t, c).Some? <==> LastDate(t, c).Some?
    ensures Recency(t, c).Some? ==> Recency(t, c).value >= 0
    ensures Recency(t, c) == Some(0) <==> LastDate(t, c).Some? && LastDate(t, c) == Latest(t)
  {
    var ds := FilterMap(t, ClientDate(c));
    var all := FilterMap(t, DateOf);
    if ds != [] {
      var m := LastDate(t, c).value;
      FilterMapSound(t, ClientDate(c), m);
      var i :| 0 <= i < |t| && ClientDate(c)(t[i]) == Some(m);
      assert DateOf(t[i]) == Some(m);
      FilterMapComplete(t, DateOf, i);
    }
  }

  /** Missing recency is NaN in the joined float column. */
  function RecencyColumn(f: Frame, t: seq<MasterRow>): (col: seq<Value>)
    ensures |col| == |f.index|
  {
    seq(|f.index|, i requires 0 <= i < |f.index| =>
      match Recency(t, f.index[i]) case Some(d) => Num(d as real) case None => NaN)
  }

  /** `df.join(recencia, how="left")`; the join fails when the frame already has the column. */
  function AddRecency(f: Frame, t: seq<MasterRow>): Option<Frame>
  {
    if DiasName in f.columns then None else Some(WithColumn(f, DiasName, RecencyColumn(f, t)))
  }

  // ---------------------------------------------------------------------------
  // add_total_transacciones

  const TotalName := "num_transacciones"

  function ClientValor(c: ClientId): MasterRow -> Option<real>
  {
    (r: MasterRow) => if r.client == c then r.valor else None
  }

  /** `groupby("Id_cliente")["valor"].count()` for one customer. */
  function TxCount(t: seq<MasterRow>, c: ClientId): nat
  {
    |FilterMap(t, ClientValor(c))|
  }

  predicate HasClient(t: seq<MasterRow>, c: ClientId)
  {
    exists i :: 0 <= i < |t| && t[i].client == c
  }

  /**
   * A customer's transaction count is the number of its rows with a present
   * value, and is at least its count within any one class.
   */
  lemma TxCountSpec(t: seq<MasterRow>, c: ClientId, k: string)
    ensures TxCount(t, c) == |set i | 0 <= i < |t| && t[i].client == c && t[i].valor.Some?|
    ensures |GroupValues(t, c, k)| <= TxCount(t, c)
  {
    FilterMapSize(t, ClientValor(c));
    FilterMapSize(t, InGroup(c, k));
    assert DefinedAt(t, ClientValor(c)) == set i | 0 <= i < |t| && t[i].client == c && t[i].valor.Some?;
    assert DefinedAt(t, InGroup(c, k)) <= DefinedAt(t, ClientValor(c));
    SubsetCardinality(DefinedAt(t, InGroup(c, k)), DefinedAt(t, ClientValor(c)));
  }

  lemma SubsetCardinality(a: set<int>, b: set<int>)
    requires a <= b
    ensures |a| <= |b|
  {
    assert b == a + (b - a);
  }

  /** Pandas aligns the assigned series on the index: a customer absent from the table gets NaN. */
  function TotalColumn(f: Frame, t: seq<MasterRow>): (col: seq<Value>)
    ensures |col| == |f.index|
  {
    seq(|f.index|, i requires 0 <= i < |f.index| =>
      if HasClient(t, f.index[i]) then Num(TxCount(t, f.index[i]) as real) else NaN)
  }

  function WithTotal(f: Frame, t: seq<MasterRow>): Frame
  {
    WithColumn(f, TotalName, TotalColumn(f, t))
  }

  // ---------------------------------------------------------------------------
  // main, lines 62-66

  /** The frame `main` writes out: pivot, then ratio, recency and total count, in that order. */
  function ModelData(t: seq<MasterRow>): Frame
  {
    var pivot := PivotOf(t);
    PivotShape(Aggregate(t), "");
    PivotNamesAreFree(t);
    var withRatio := WithRatio(pivot);
    WithTotal(AddRecency(withRatio, t).value, t)
  }

  /** No pivot column bears the name of a derived column. */
  lemma PivotNamesAreFree(t: seq<MasterRow>)
    ensures RatioName !in PivotOf(t).columns
    ensures DiasName !in PivotOf(t).columns
    ensures TotalName !in PivotOf(t).columns
  {
    var agg := Aggregate(t);
    AggregateClasses(t);
    forall name | name in PivotOf(t).columns
      ensures name != RatioName && name != DiasName && name != TotalName
    {
      PivotShape(agg, name);
      var k :| k in Classes(agg) && (name == ColumnName(NumTx, k) || name == ColumnName(TotalValor, k));
      ColumnNameSplit(NumTx, k);
      ColumnNameSplit(TotalValor, k);
      assert name[0] == 'n' || name[0] == 't';
      assert name[0] == 'n' ==> name[..7] == "num_tx_";
      assert TotalName[..7] == "num_tra";
    }
  }

  /**
   * The composition of lines 62-66: the rows are the pivot's; every pivot
   * column is kept unchanged and exactly the ratio, recency and total-count
   * columns are added, each computed from the pivot's rows.
   */
  lemma ModelDataSpec(t: seq<MasterRow>)
    ensures var pivot, out := PivotOf(t), ModelData(t);
      && WellFormed(pivot)
      && WellFormed(out)
      && out.index == pivot.index
      && out.columns.Keys == pivot.columns.Keys + {RatioName, DiasName, TotalName}
      && (forall name :: name in pivot.columns ==> out.columns[name] == pivot.columns[name])
      && out.columns[RatioName] == RatioColumn(pivot)
      && out.columns[DiasName] == RecencyColumn(pivot, t)
      && out.columns[TotalName] == TotalColumn(pivot, t)
  {
    var pivot := PivotOf(t);
    AggregateClasses(t);
    PivotShape(Aggregate(t), "");
    PivotNamesAreFree(t);
    var withRatio := WithRatio(pivot);
    WithColumnSpec(pivot, RatioName, RatioColumn(pivot));
    var withDias := AddRecency(withRatio, t).value;
    WithColumnSpec(withRatio, DiasName, RecencyColumn(withRatio, t));
    WithColumnSpec(withDias, TotalName, TotalColumn(withDias, t));
  }

  /** In the pipeline every customer has a transaction count, never NaN. */
  lemma ModelDataTotals(t: seq<MasterRow>, i: int)
    requires 0 <= i < |PivotOf(t).index|
    ensures TotalName in ModelData(t).columns && |ModelData(t).columns[TotalName]| == |PivotOf(t).index|
    ensures ModelData(t).columns[TotalName][i] == Num(TxCount(t, PivotOf(t).index[i]) as real)
  {
    ModelDataSpec(t);
    var c := PivotOf(t).index[i];
    var agg := Aggregate(t);
    AggregateClasses(t);
    PivotShape(agg, "");
    assert c in Pivot(agg).index;
    var a :| 0 <= a < |agg| && agg[a].client == c;
    LookupFound(agg, c, agg[a].clase);
    AggregateSpec(t, c, agg[a].clase);
  }

  /**
   * The recency column of the model data: missing exactly for customers with
   * no date, otherwise a non-negative number of days that is 0 exactly for the
   * customers whose last date is the global latest.
   */
  lemma ModelDataRecency(t: seq<MasterRow>, i: int)
    requires 0 <= i < |PivotOf(t).index|
    ensures DiasName in ModelData(t).columns && |ModelData(t).columns[DiasName]| == |PivotOf(t).index|
    ensures var c, v := PivotOf(t).index[i], ModelData(t).columns[DiasName][i];
      && (v == NaN <==> LastDate(t, c).None?)
      && (v != NaN ==> v.Num? && v.x >= 0.0)
      && (v == Num(0.0) <==> LastDate(t, c).Some? && LastDate(t, c) == Latest(t))
  {
    ModelDataSpec(t);
    RecencySpec(t, PivotOf(t).index[i]);
  }

  /** The frame of lines 63-66, updated in place by the two mutating steps. */
  class FeatureTable {
    var frame: Frame

    constructor (f: Frame)
      ensures frame == f
    {
      frame := f;
    }

    /** Line 31: assigns `ratio_avance_compra` on the frame itself. */
    method AddRatio()
      requires WellFormed(frame)
      modifies this
      ensures frame == WithRatio(old(frame))
    {
      frame := WithColumn(frame, RatioName, RatioColumn(frame));
    }

    /** Line 46: assigns `num_transacciones` on the frame itself. */
    method AddTotalTransactions(original: seq<MasterRow>)
      modifies this
      ensures frame == WithTotal(old(frame), original)
    {
      frame := WithColumn(frame, TotalName, TotalColumn(frame, original));
    }
  }

  /** Lines 62-66: the same steps as `ModelData`, with the two in-place updates. */
  method BuildModelData(df: seq<MasterRow>) returns (table: FeatureTable)
    ensures fresh(table)
    ensures table.frame == ModelData(df)
  {
    var pivot := PivotOf(df);
    PivotShape(Aggregate(df), "");
    PivotNamesAreFree(df);
    table := new FeatureTable(pivot);
    table.AddRatio();
    var joined := AddRecency(table.frame, df);
    table := new FeatureTable(joined.value);
    table.AddTotalTransactions(df);
  }
}
