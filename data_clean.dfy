/**
 * The script scripts/data_clean.py at lines 13-20: the customer-detail sheet is
 * split by date shape, the valid rows get a calendar date, the transaction
 * values are cleaned, and the two sheets are left-joined on `Id_tx` into the
 * unified transaction table.
 */
module DataClean {
  import opened Wrappers
  import opened Seqs
  import opened Text
  import opened Calendar
  import opened RecordCleaner

  /** A row of the unified transaction table; the transaction fields are missing when no transaction matched. */
  datatype MasterRow = MasterRow(client: ClientId, tx: TxId, date: Option<int>, clase: Option<string>, valor: Option<real>)

  /** `errors="coerce"`: text that does not fit the layout, or names no date, becomes missing. */
  function ParseDateRow(r: ClientRow<string>): ClientRow<Option<int>>
  {
    ClientRow(r.client, r.tx, if IsEightDigits(r.date) then ParseYmd(r.date) else None)
  }

  /**
   * Line 14: the `%Y%m%d` conversion with coercion on the valid partition.
   * No row is added or removed and the other columns stay.
   */
  function ParseDates(t: seq<ClientRow<string>>): (r: seq<ClientRow<Option<int>>>)
    ensures |r| == |t|
    ensures forall i :: 0 <= i < |t| ==> r[i].client == t[i].client && r[i].tx == t[i].tx
  {
    seq(|t|, i requires 0 <= i < |t| => ParseDateRow(t[i]))
  }

  /**
   * Lines 13-14 from the stored integer: every row of the converted valid
   * partition comes from a dated row of the detail sheet with the same ids. Its
   * date is present exactly when the stored integer is YYYYMMDD for some
   * calendar date, and it is then that date's day number.
   */
  lemma ParsedDateIsCalendarDate(t: seq<ClientRow<Option<int>>>, k: int)
    requires 0 <= k < |ParseDates(ValidDates(t))|
    ensures var p := ParseDates(ValidDates(t))[k];
      exists j :: 0 <= j < |t| && t[j].date.Some? && t[j].client == p.client && t[j].tx == p.tx
        && (p.date.Some? <==> exists y, m, d :: ValidDate(y, m, d) && t[j].date.value == y * 10000 + m * 100 + d)
        && (forall y, m, d :: ValidDate(y, m, d) && t[j].date.value == y * 10000 + m * 100 + d ==>
              p.date == Some(DayNumber(y, m, d)))
  {
    var valid := ValidDates(t);
    var p := ParseDates(valid)[k];
    ValidRowOrigin(t, valid[k]);
    var j :| 0 <= j < |t| && t[j].date.Some? && 10000000 <= t[j].date.value <= 99999999
      && valid[k] == ClientRow(t[j].client, t[j].tx, IntToString(t[j].date.value));
    ParseStoredInteger(t[j].date.value);
    assert p.date == ParseYmd(IntToString(t[j].date.value));
  }

  /** A row of the valid partition is the rendering of a dated row whose integer has eight digits. */
  lemma ValidRowOrigin(t: seq<ClientRow<Option<int>>>, v: ClientRow<string>)
    requires v in ValidDates(t)
    ensures exists j ::
      && 0 <= j < |t| && t[j].date.Some? && 10000000 <= t[j].date.value <= 99999999
      && v == ClientRow(t[j].client, t[j].tx, IntToString(t[j].date.value))
  {
    DateMasks(t);
    FilterMapSound(RenderedDates(t), Keep(HasEightDigitDate, true), v);
    RenderedDatesProvenance(t, v);
    var j :| 0 <= j < |t| && t[j].date.Some? && v == ClientRow(t[j].client, t[j].tx, IntToString(t[j].date.value));
    EightDigitsIff(t[j].date.value);
  }

  /** There is no month 13. */
  lemma MonthThirteenIsMissing()
    ensures IsEightDigits("20231301") && ParseYmd("20231301") == None
  {
    var s := "20231301";
    assert s[..4] == "2023" && s[4..6] == "13" && s[6..] == "01";
    DigitsValue4("2023");
    DigitsValue2("13");
    DigitsValue2("01");
    ParseYmdOf(s, 2023, 13, 1);
  }

  /** February never has 30 days. */
  lemma FebruaryThirtiethIsMissing()
    ensures IsEightDigits("20230230") && ParseYmd("20230230") == None
  {
    var s := "20230230";
    assert s[..4] == "2023" && s[4..6] == "02" && s[6..] == "30";
    DigitsValue4("2023");
    DigitsValue2("02");
    DigitsValue2("30");
    ParseYmdOf(s, 2023, 2, 30);
  }

  /** 2023 is not divisible by 4, so it has no 29 February. */
  lemma CommonYearLeapDayIsMissing()
    ensures IsEightDigits("20230229") && ParseYmd("20230229") == None
  {
    var s := "20230229";
    assert s[..4] == "2023" && s[4..6] == "02" && s[6..] == "29";
    DigitsValue4("2023");
    DigitsValue2("02");
    DigitsValue2("29");
    ParseYmdOf(s, 2023, 2, 29);
  }

  /** 1900 is divisible by 100 but not by 400, so it has no 29 February. */
  lemma CenturyLeapDayIsMissing()
    ensures IsEightDigits("19000229") && ParseYmd("19000229") == None
  {
    var s := "19000229";
    assert s[..4] == "1900" && s[4..6] == "02" && s[6..] == "29";
    DigitsValue4("1900");
    DigitsValue2("02");
    DigitsValue2("29");
    ParseYmdOf(s, 1900, 2, 29);
  }

  /** 2024 is a leap year, so 29 February is a date. */
  lemma LeapYearLeapDayIsDate()
    ensures IsEightDigits("20240229") && ParseYmd("20240229") == Some(DayNumber(2024, 2, 29))
  {
    var s := "20240229";
    assert s[..4] == "2024" && s[4..6] == "02" && s[6..] == "29";
    DigitsValue4("2024");
    DigitsValue2("02");
    DigitsValue2("29");
    ParseYmdOf(s, 2024, 2, 29);
  }

  /** 2000 is divisible by 400, so 29 February is a date. */
  lemma QuadricentennialLeapDayIsDate()
    ensures IsEightDigits("20000229") && ParseYmd("20000229") == Some(DayNumber(2000, 2, 29))
  {
    var s := "20000229";
    assert s[..4] == "2000" && s[4..6] == "02" && s[6..] == "29";
    DigitsValue4("2000");
    DigitsValue2("02");
    DigitsValue2("29");
    ParseYmdOf(s, 2000, 2, 29);
  }

  // ---------------------------------------------------------------------------
  // line 20: detalle_cliente.merge(detalle_tx, on="Id_tx", how="left")

  function Combine(x: ClientRow<Option<int>>, r: TxRow<real>): MasterRow
  {
    MasterRow(x.client, x.tx, x.date, r.clase, Some(r.valor))
  }

  function Unmatched(x: ClientRow<Option<int>>): MasterRow
  {
    MasterRow(x.client, x.tx, x.date, None, None)
  }

  /** The joined row for a transaction row sharing `Id_tx` with `x`. */
  function MatchWith(x: ClientRow<Option<int>>): TxRow<real> -> Option<MasterRow>
  {
    (r: TxRow<real>) => if r.tx == x.tx then Some(Combine(x, r)) else None
  }

  /** The output rows produced by one left row: one per match, in right order, or one with missing fields. */
  function JoinRow(x: ClientRow<Option<int>>, right: seq<TxRow<real>>): seq<MasterRow>
  {
    var ms := FilterMap(right, MatchWith(x));
    if ms == [] then [Unmatched(x)] else ms
  }

  function LeftJoin(left: seq<ClientRow<Option<int>>>, right: seq<TxRow<real>>): seq<MasterRow>
  {
    FlatMap(left, JoinWith(right))
  }

  function JoinWith(right: seq<TxRow<real>>): ClientRow<Option<int>> -> seq<MasterRow>
  {
    x => JoinRow(x, right)
  }

  /** The number of transaction rows carrying a given `Id_tx`. */
  function MatchCount(id: TxId, right: seq<TxRow<real>>): nat
  {
    |Matches(id, right)|
  }

  /** The positions of the transaction rows carrying a given `Id_tx`. */
  function Matches(id: TxId, right: seq<TxRow<real>>): set<int>
  {
    set j | 0 <= j < |right| && right[j].tx == id
  }

  /**
   * A left row appears once per transaction row sharing its `Id_tx`, combined
   * with the matches in their order, or exactly once with the transaction
   * fields missing when there is none.
   */
  lemma JoinRowSpec(x: ClientRow<Option<int>>, right: seq<TxRow<real>>)
    ensures |JoinRow(x, right)| == if MatchCount(x.tx, right) == 0 then 1 else MatchCount(x.tx, right)
    ensures MatchCount(x.tx, right) == 0 ==> JoinRow(x, right) == [Unmatched(x)]
    ensures MatchCount(x.tx, right) > 0 ==>
      var idx := KeptIndices(right, MatchWith(x));
      |idx| == |JoinRow(x, right)| && StrictlyIncreasing(idx) &&
      (forall j :: 0 <= j < |idx| ==>
        0 <= idx[j] < |right| && right[idx[j]].tx == x.tx && JoinRow(x, right)[j] == Combine(x, right[idx[j]])) &&
      (forall k :: 0 <= k < |right| && right[k].tx == x.tx ==> k in idx)
  {
    var f := MatchWith(x);
    FilterMapSize(right, f);
    assert DefinedAt(right, f) == Matches(x.tx, right);
    var ms := FilterMap(right, f);
    assert |ms| == MatchCount(x.tx, right);
    assert ms == [] <==> MatchCount(x.tx, right) == 0;
    var idx := KeptIndices(right, f);
    forall j | 0 <= j < |idx|
      ensures right[idx[j]].tx == x.tx
    {
      assert f(right[idx[j]]).Some?;
    }
    forall k | 0 <= k < |right| && right[k].tx == x.tx
      ensures k in idx
    {
      assert f(right[k]).Some?;
    }
  }

  /** The join maps concatenated left tables to concatenated results: output order follows the left table. */
  lemma LeftJoinAppend(a: seq<ClientRow<Option<int>>>, b: seq<ClientRow<Option<int>>>, right: seq<TxRow<real>>)
    ensures LeftJoin(a + b, right) == LeftJoin(a, right) + LeftJoin(b, right)
  {
    FlatMapAppend(a, b, JoinWith(right));
  }

  /** A single left row yields exactly its own block. */
  lemma LeftJoinSingle(x: ClientRow<Option<int>>, right: seq<TxRow<real>>)
    ensures LeftJoin([x], right) == JoinRow(x, right)
  {
    assert [x][..0] == [] && [x][0] == x;
    assert JoinWith(right)(x) == JoinRow(x, right);
    assert FlatMap([x], JoinWith(right)) == FlatMap([], JoinWith(right)) + JoinWith(right)(x);
  }

  predicate SameLeft(o: MasterRow, x: ClientRow<Option<int>>)
  {
    o.client == x.client && o.tx == x.tx && o.date == x.date
  }

  /** Every row produced for `x` carries `x`'s identifiers and date. */
  lemma JoinRowKeepsLeft(x: ClientRow<Option<int>>, right: seq<TxRow<real>>, o: MasterRow)
    requires o in JoinRow(x, right)
    ensures SameLeft(o, x)
    ensures o.valor.Some? ==> exists r :: r in right && r.tx == o.tx && o.clase == r.clase && o.valor == Some(r.valor)
    ensures o.valor.None? ==> o.clase.None? && forall r :: r in right ==> r.tx != o.tx
  {
    var ms := FilterMap(right, MatchWith(x));
    if ms == [] {
      assert o == Unmatched(x);
      forall r | r in right
        ensures r.tx != o.tx
      {
        var k :| 0 <= k < |right| && right[k] == r;
        if r.tx == x.tx {
          FilterMapComplete(right, MatchWith(x), k);
        }
      }
    } else {
      FilterMapSound(right, MatchWith(x), o);
      var k :| 0 <= k < |right| && MatchWith(x)(right[k]) == Some(o);
      assert right[k].tx == x.tx && o == Combine(x, right[k]);
    }
  }

  /**
   * Every output row extends some left row; its transaction fields come from a
   * transaction row with the same `Id_tx`, or are both missing and no
   * transaction row has that `Id_tx`.
   */
  lemma LeftJoinSound(left: seq<ClientRow<Option<int>>>, right: seq<TxRow<real>>, o: MasterRow)
    requires o in LeftJoin(left, right)
    ensures exists i :: 0 <= i < |left| && SameLeft(o, left[i])
    ensures o.valor.Some? ==> exists r :: r in right && r.tx == o.tx && o.clase == r.clase && o.valor == Some(r.valor)
    ensures o.valor.None? ==> o.clase.None? && forall r :: r in right ==> r.tx != o.tx
  {
    FlatMapSound(left, JoinWith(right), o);
    var i :| 0 <= i < |left| && o in JoinWith(right)(left[i]);
    JoinRowKeepsLeft(left[i], right, o);
  }

  /** Every customer-detail row survives the left join. */
  lemma LeftJoinKeepsLeft(left: seq<ClientRow<Option<int>>>, right: seq<TxRow<real>>, i: int)
    requires 0 <= i < |left|
    ensures exists o :: o in LeftJoin(left, right) && SameLeft(o, left[i])
  {
    var row := JoinRow(left[i], right);
    JoinRowKeepsLeft(left[i], right, row[0]);
    FlatMapComplete(left, JoinWith(right), i, row[0]);
  }

  predicate UniqueTxIds(right: seq<TxRow<real>>)
  {
    forall j, k :: 0 <= j < k < |right| ==> right[j].tx != right[k].tx
  }

  lemma AtMostOneMatch(id: TxId, right: seq<TxRow<real>>)
    requires UniqueTxIds(right)
    ensures MatchCount(id, right) <= 1
  {
    var s := Matches(id, right);
    if s != {} {
      var j :| j in s;
      assert forall k :: k in s ==> k == j;
      assert s == {j};
    }
  }

  /**
   * When `Id_tx` is a key of the transaction table, the left join keeps the
   * customer-detail table's rows one for one and in order.
   */
  lemma LeftJoinOnKey(left: seq<ClientRow<Option<int>>>, right: seq<TxRow<real>>)
    requires UniqueTxIds(right)
    ensures |LeftJoin(left, right)| == |left|
    ensures forall i :: 0 <= i < |left| ==> SameLeft(LeftJoin(left, right)[i], left[i])
  {
    var g := JoinWith(right);
    forall i | 0 <= i < |left|
      ensures |g(left[i])| == 1 && SameLeft(g(left[i])[0], left[i])
    {
      JoinRowSpec(left[i], right);
      AtMostOneMatch(left[i].tx, right);
      JoinRowKeepsLeft(left[i], right, JoinRow(left[i], right)[0]);
    }
    FlatMapSingletons(left, g);
  }

  // ---------------------------------------------------------------------------
  // the script

  /** The unified transaction table that lines 13-20 compute from the two sheets. */
  function MasterTable(detalleCliente: seq<ClientRow<Option<int>>>, detalleTx: seq<TxRow<RawCell>>): seq<MasterRow>
  {
    LeftJoin(ParseDates(ValidDates(detalleCliente)), CleanedRows(detalleTx))
  }

  /**
   * Lines 13-20 as a procedure over the two sheets as read; neither array is
   * modified. Also returns the invalid-date rows and the count of invalid values.
   */
  method BuildMasterTable(detalleCliente: array<ClientRow<Option<int>>>, detalleTx: array<TxRow<RawCell>>)
    returns (df: seq<MasterRow>, dcInvalido: seq<ClientRow<string>>, errores: nat)
    ensures df == MasterTable(detalleCliente[..], detalleTx[..])
    ensures dcInvalido == InvalidDates(detalleCliente[..])
    ensures errores == InvalidCount(detalleTx[..]) && errores == detalleTx.Length - |CleanedRows(detalleTx[..])|
  {
    var validos;
    validos, dcInvalido := FilterValidDates(detalleCliente);
    DatePartition(detalleCliente[..]);
    var parsed := ParseDates(validos);
    var txLimpio;
    txLimpio, errores := CleanNumericColumn(detalleTx);
    df := LeftJoin(parsed, txLimpio);
  }

  /**
   * Only rows of the valid-date partition reach the join: every row of the
   * unified table carries the identifiers and the parsed date of such a row,
   * and that row is not in the invalid partition.
   */
  lemma MasterRowsComeFromValidDates(detalleCliente: seq<ClientRow<Option<int>>>, detalleTx: seq<TxRow<RawCell>>, o: MasterRow)
    requires o in MasterTable(detalleCliente, detalleTx)
    ensures exists v ::
      && v in ValidDates(detalleCliente) && v !in InvalidDates(detalleCliente)
      && IsEightDigits(v.date) && o.client == v.client && o.tx == v.tx && o.date == ParseYmd(v.date)
  {
    DatePartition(detalleCliente);
    var valid := ValidDates(detalleCliente);
    var parsed := ParseDates(valid);
    LeftJoinSound(parsed, CleanedRows(detalleTx), o);
    var i :| 0 <= i < |parsed| && SameLeft(o, parsed[i]);
    assert valid[i] in valid;
  }

  /**
   * Every joined value is a cleaned number of a transaction row with the same
   * `Id_tx`, or is missing because no cleaned transaction row has that `Id_tx`.
   */
  lemma MasterValueProvenance(detalleCliente: seq<ClientRow<Option<int>>>, detalleTx: seq<TxRow<RawCell>>, o: MasterRow)
    requires o in MasterTable(detalleCliente, detalleTx)
    ensures o.valor.Some? ==> exists i ::
      && 0 <= i < |detalleTx| && detalleTx[i].tx == o.tx
      && detalleTx[i].clase == o.clase && ToFloat(detalleTx[i].valor) == o.valor
    ensures o.valor.None? ==> forall r :: r in CleanedRows(detalleTx) ==> r.tx != o.tx
  {
    DatePartition(detalleCliente);
    var clean := CleanedRows(detalleTx);
    LeftJoinSound(ParseDates(ValidDates(detalleCliente)), clean, o);
    if o.valor.Some? {
      var r :| r in clean && r.tx == o.tx && o.clase == r.clase && o.valor == Some(r.valor);
      CleanedRowsSpec(detalleTx);
      var j :| 0 <= j < |clean| && clean[j] == r;
      var i := KeptIndices(Converted(detalleTx), NonMissingValor)[j];
      assert clean[j] == TxRow(detalleTx[i].tx, detalleTx[i].clase, ToFloat(detalleTx[i].valor).value);
    }
  }

  /**
   * A date stored as the integer YYYYMMDD of a valid date passes the cleaner
   * and line 14 turns it into that date's day number.
   */
  lemma StoredDateReachesJoin(detalleCliente: seq<ClientRow<Option<int>>>, i: int, y: int, m: int, d: int)
    requires 0 <= i < |detalleCliente| && ValidDate(y, m, d) && y >= 1000
    requires detalleCliente[i].date == Some(y * 10000 + m * 100 + d)
    ensures ClientRow(detalleCliente[i].client, detalleCliente[i].tx, Some(DayNumber(y, m, d)))
        in ParseDates(ValidDates(detalleCliente))
  {
    DatePartition(detalleCliente);
    StoredDateRoundTrip(y, m, d);
    var n := y * 10000 + m * 100 + d;
    EightDigitsIff(n);
    var v := ClientRow(detalleCliente[i].client, detalleCliente[i].tx, IntToString(n));
    var valid := ValidDates(detalleCliente);
    assert v in valid;
    var k :| 0 <= k < |valid| && valid[k] == v;
    assert ParseDates(valid)[k] == ParseDateRow(v);
  }
}
