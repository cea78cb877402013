/**
 * The record cleaner of scripts/utils.py: `filtrar_fechas_validas` splits a
 * customer-detail table by the shape of its date, and `limpiar_columna_numerica`
 * turns the transaction value into a number or drops the row. Both take the
 * caller's table as an array they may not modify and work on a copy.
 */
module RecordCleaner {
  import opened Wrappers
  import opened Seqs
  import opened Text

  type ClientId = int
  type TxId = int

  /**
   * A row of the customer-detail sheet (`Id_cliente`, `Id_tx`, `fecha_efectiva`);
   * `D` is what the date column holds at each stage: the stored number, its
   * text, or a parsed day number.
   */
  datatype ClientRow<D> = ClientRow(client: ClientId, tx: TxId, date: D)

  /** A spreadsheet cell of the value column: a number, text, or an empty (NaN) cell. */
  datatype RawCell = Number(x: real) | Str(s: string) | Blank

  /** A row of the transaction sheet (`Id_tx`, `clase`, `valor`); `V` is the value's type. */
  datatype TxRow<V> = TxRow(tx: TxId, clase: Option<string>, valor: V)

  // ---------------------------------------------------------------------------
  // filtrar_fechas_validas

  /** Line 25: a row survives `dropna` on the date column only when it has a date. */
  function NonNullDate(r: ClientRow<Option<int>>): Option<ClientRow<int>>
  {
    match r.date
    case Some(n) => Some(ClientRow(r.client, r.tx, n))
    case None => None
  }

  /** Line 28: the integral date is rendered as the decimal text of an integer. */
  function RenderDate(r: ClientRow<int>): ClientRow<string>
  {
    ClientRow(r.client, r.tx, IntToString(r.date))
  }

  function RenderedDates(t: seq<ClientRow<Option<int>>>): seq<ClientRow<string>>
  {
    var kept := FilterMap(t, NonNullDate);
    seq(|kept|, i requires 0 <= i < |kept| => RenderDate(kept[i]))
  }

  /** The mask of lines 34-35: the date text matches `^\d{8}$`. */
  predicate HasEightDigitDate(r: ClientRow<string>)
  {
    IsEightDigits(r.date)
  }

  function ValidDates(t: seq<ClientRow<Option<int>>>): seq<ClientRow<string>>
  {
    Filter(RenderedDates(t), HasEightDigitDate, true)
  }

  function InvalidDates(t: seq<ClientRow<Option<int>>>): seq<ClientRow<string>>
  {
    Filter(RenderedDates(t), HasEightDigitDate, false)
  }

  /** Line 25: a fresh table holding the rows whose date is not null. */
  method DropNullDates(df: array<ClientRow<Option<int>>>) returns (kept: seq<ClientRow<int>>)
    ensures kept == FilterMap(df[..], NonNullDate)
  {
    kept := [];
    for i := 0 to df.Length
      invariant kept == FilterMap(df[..i], NonNullDate)
    {
      assert df[..i + 1] == df[..i] + [df[i]];
      FilterMapSnoc(df[..i], df[i], NonNullDate);
      if df[i].date.Some? {
        kept := kept + [ClientRow(df[i].client, df[i].tx, df[i].date.value)];
      }
    }
    assert df[..df.Length] == df[..];
  }

  /** Line 28: the date column of the copy overwritten with its text. */
  method RenderDates(kept: seq<ClientRow<int>>) returns (text: seq<ClientRow<string>>)
    ensures text == seq(|kept|, i requires 0 <= i < |kept| => RenderDate(kept[i]))
  {
    var copy := new ClientRow<string>[|kept|];
    for i := 0 to |kept|
      invariant forall j :: 0 <= j < i ==> copy[j] == RenderDate(kept[j])
    {
      copy[i] := RenderDate(kept[i]);
    }
    text := copy[..];
  }

  /** Lines 34-35: the rows under the 8-digit mask and under its negation. */
  method SplitByMask(text: seq<ClientRow<string>>) returns (validos: seq<ClientRow<string>>, invalidos: seq<ClientRow<string>>)
    ensures validos == Filter(text, HasEightDigitDate, true)
    ensures invalidos == Filter(text, HasEightDigitDate, false)
  {
    validos, invalidos := [], [];
    for i := 0 to |text|
      invariant validos == Filter(text[..i], HasEightDigitDate, true)
      invariant invalidos == Filter(text[..i], HasEightDigitDate, false)
    {
      assert text[..i + 1] == text[..i] + [text[i]];
      FilterSnoc(text[..i], text[i], HasEightDigitDate, true);
      FilterSnoc(text[..i], text[i], HasEightDigitDate, false);
      if HasEightDigitDate(text[i]) {
        validos := validos + [text[i]];
      } else {
        invalidos := invalidos + [text[i]];
      }
    }
    assert text[..|text|] == text;
  }

  /**
   * `filtrar_fechas_validas(df, "fecha_efectiva")`. The array is the caller's
   * table: without a modifies clause it is left as it was.
   */
  method FilterValidDates(df: array<ClientRow<Option<int>>>)
    returns (validos: seq<ClientRow<string>>, invalidos: seq<ClientRow<string>>)
    ensures validos == ValidDates(df[..])
    ensures invalidos == InvalidDates(df[..])
  {
    var kept := DropNullDates(df);
    var text := RenderDates(kept);
    assert text == RenderedDates(df[..]);
    validos, invalidos := SplitByMask(text);
  }

  /**
   * Every row of the rendered table comes from a row of the input with a
   * non-null date, and every such input row is rendered.
   */
  lemma RenderedDatesProvenance(t: seq<ClientRow<Option<int>>>, r: ClientRow<string>)
    ensures r in RenderedDates(t) <==>
      exists i :: 0 <= i < |t| && t[i].date.Some? && r == ClientRow(t[i].client, t[i].tx, IntToString(t[i].date.value))
  {
    var kept := FilterMap(t, NonNullDate);
    var idx := KeptIndices(t, NonNullDate);
    if r in RenderedDates(t) {
      var j :| 0 <= j < |kept| && RenderedDates(t)[j] == r;
      assert NonNullDate(t[idx[j]]) == Some(kept[j]);
    }
    if exists i :: 0 <= i < |t| && t[i].date.Some? && r == ClientRow(t[i].client, t[i].tx, IntToString(t[i].date.value)) {
      var i :| 0 <= i < |t| && t[i].date.Some? && r == ClientRow(t[i].client, t[i].tx, IntToString(t[i].date.value));
      assert i in idx;
      var j :| 0 <= j < |idx| && idx[j] == i;
      assert RenderedDates(t)[j] == r;
    }
  }

  /** Lines 34-35: the valid rows match the 8-digit pattern, the invalid ones do not. */
  lemma DateMasks(t: seq<ClientRow<Option<int>>>)
    ensures forall r :: r in ValidDates(t) ==> IsEightDigits(r.date)
    ensures forall r :: r in InvalidDates(t) ==> !IsEightDigits(r.date)
  {
    var rendered := RenderedDates(t);
    forall r | r in ValidDates(t)
      ensures IsEightDigits(r.date)
    {
      FilterAgrees(rendered, HasEightDigitDate, true, r);
    }
    forall r | r in InvalidDates(t)
      ensures !IsEightDigits(r.date)
    {
      FilterAgrees(rendered, HasEightDigitDate, false, r);
    }
  }

  /** A non-null stored date lands in the valid part exactly when it has 8 digits. */
  lemma DateRouting(t: seq<ClientRow<Option<int>>>, i: int)
    requires 0 <= i < |t| && t[i].date.Some?
    ensures var r := ClientRow(t[i].client, t[i].tx, IntToString(t[i].date.value));
      (10000000 <= t[i].date.value <= 99999999 ==> r in ValidDates(t)) &&
      (!(10000000 <= t[i].date.value <= 99999999) ==> r in InvalidDates(t))
  {
    var rendered := RenderedDates(t);
    var r := ClientRow(t[i].client, t[i].tx, IntToString(t[i].date.value));
    RenderedDatesProvenance(t, r);
    EightDigitsIff(t[i].date.value);
    var k :| 0 <= k < |rendered| && rendered[k] == r;
    assert HasEightDigitDate(rendered[k]) == IsEightDigits(r.date);
    if IsEightDigits(r.date) {
      assert Keep(HasEightDigitDate, true)(rendered[k]) == Some(r);
      FilterMapComplete(rendered, Keep(HasEightDigitDate, true), k);
    } else {
      assert Keep(HasEightDigitDate, false)(rendered[k]) == Some(r);
      FilterMapComplete(rendered, Keep(HasEightDigitDate, false), k);
    }
  }

  /**
   * The two partitions of `filtrar_fechas_validas`: together they hold each
   * non-null row exactly once, and a row with a null date is in neither; the
   * valid rows are exactly those whose stored date is in [10000000, 99999999].
   */
  lemma DatePartition(t: seq<ClientRow<Option<int>>>)
    ensures multiset(ValidDates(t)) + multiset(InvalidDates(t)) == multiset(RenderedDates(t))
    ensures |ValidDates(t)| + |InvalidDates(t)| == |t| - CountNone(t, NonNullDate)
    ensures forall r :: r in ValidDates(t) ==> r !in InvalidDates(t)
    ensures forall r :: r in ValidDates(t) ==> IsEightDigits(r.date)
    ensures forall r :: r in InvalidDates(t) ==> !IsEightDigits(r.date)
    ensures forall i :: 0 <= i < |t| && t[i].date.Some? ==>
      var r := ClientRow(t[i].client, t[i].tx, IntToString(t[i].date.value));
      (10000000 <= t[i].date.value <= 99999999 ==> r in ValidDates(t)) &&
      (!(10000000 <= t[i].date.value <= 99999999) ==> r in InvalidDates(t))
  {
    Partition(RenderedDates(t), HasEightDigitDate);
    FilterMapCount(t, NonNullDate);
    DateMasks(t);
    forall i | 0 <= i < |t| && t[i].date.Some?
      ensures var r := ClientRow(t[i].client, t[i].tx, IntToString(t[i].date.value));
        (10000000 <= t[i].date.value <= 99999999 ==> r in ValidDates(t)) &&
        (!(10000000 <= t[i].date.value <= 99999999) ==> r in InvalidDates(t))
    {
      DateRouting(t, i);
    }
  }

  /**
   * Line 28 renders an integer, so no date text in either partition carries a
   * fractional part such as ".0", and the text reads back as the value stored
   * on the input row with the same identifiers.
   */
  lemma RenderedDateIsPlainInteger(t: seq<ClientRow<Option<int>>>, r: ClientRow<string>)
    requires r in ValidDates(t) || r in InvalidDates(t)
    ensures '.' !in r.date
    ensures exists i ::
      && 0 <= i < |t| && t[i].date.Some? && r.client == t[i].client && r.tx == t[i].tx
      && ParseDecimal(r.date) == Some(t[i].date.value as real)
  {
    var rendered := RenderedDates(t);
    if r in ValidDates(t) {
      FilterMapSound(rendered, Keep(HasEightDigitDate, true), r);
    } else {
      FilterMapSound(rendered, Keep(HasEightDigitDate, false), r);
    }
    assert r in rendered;
    RenderedDatesProvenance(t, r);
    var i :| 0 <= i < |t| && t[i].date.Some? && r == ClientRow(t[i].client, t[i].tx, IntToString(t[i].date.value));
    ParseIntToString(t[i].date.value);
    IntToStringHasNoDot(t[i].date.value);
  }

  // ---------------------------------------------------------------------------
  // limpiar_columna_numerica

  /** `es_float` (lines 67-72): `float(value)` does not raise. A NaN cell converts to NaN. */
  predicate IsFloat(c: RawCell)
  {
    match c
    case Number(_) => true
    case Blank => true
    case Str(s) => ParseDecimal(s).Some?
  }

  /** Line 77: `float(x) if es_float(x) else NaN`; NaN is a missing value. */
  function ToFloat(c: RawCell): Option<real>
  {
    if !IsFloat(c) then None
    else
      match c
      case Number(x) => Some(x)
      case Str(s) => ParseDecimal(s)
      case Blank => None
  }

  function ConvertRow(r: TxRow<RawCell>): TxRow<Option<real>>
  {
    TxRow(r.tx, r.clase, ToFloat(r.valor))
  }

  /** Line 88: `dropna` on the value column. */
  function NonMissingValor(r: TxRow<Option<real>>): Option<TxRow<real>>
  {
    match r.valor
    case Some(v) => Some(TxRow(r.tx, r.clase, v))
    case None => None
  }

  function Converted(t: seq<TxRow<RawCell>>): seq<TxRow<Option<real>>>
  {
    seq(|t|, i requires 0 <= i < |t| => ConvertRow(t[i]))
  }

  function CleanedRows(t: seq<TxRow<RawCell>>): seq<TxRow<real>>
  {
    FilterMap(Converted(t), NonMissingValor)
  }

  /** Line 80: the number of missing values after conversion. */
  function InvalidCount(t: seq<TxRow<RawCell>>): nat
  {
    CountNone(Converted(t), NonMissingValor)
  }

  /** Lines 74 and 77: a copy whose value column is overwritten by its conversion. */
  method ConvertColumn(df: array<TxRow<RawCell>>) returns (conv: seq<TxRow<Option<real>>>)
    ensures conv == Converted(df[..])
  {
    var copy := new TxRow<Option<real>>[df.Length];
    for i := 0 to df.Length
      invariant forall j :: 0 <= j < i ==> copy[j] == ConvertRow(df[j])
    {
      copy[i] := ConvertRow(df[i]);
    }
    conv := copy[..];
  }

  /** Line 80: the number of missing values. */
  method CountMissing(conv: seq<TxRow<Option<real>>>) returns (n: nat)
    ensures n == CountNone(conv, NonMissingValor)
  {
    n := 0;
    for i := 0 to |conv|
      invariant n == CountNone(conv[..i], NonMissingValor)
    {
      assert conv[..i + 1][..i] == conv[..i];
      if conv[i].valor.None? {
        n := n + 1;
      }
    }
    assert conv[..|conv|] == conv;
  }

  /** Line 88: drop the rows whose value is missing. */
  method DropMissing(conv: seq<TxRow<Option<real>>>) returns (clean: seq<TxRow<real>>)
    ensures clean == FilterMap(conv, NonMissingValor)
  {
    clean := [];
    for i := 0 to |conv|
      invariant clean == FilterMap(conv[..i], NonMissingValor)
    {
      assert conv[..i + 1] == conv[..i] + [conv[i]];
      FilterMapSnoc(conv[..i], conv[i], NonMissingValor);
      if conv[i].valor.Some? {
        clean := clean + [TxRow(conv[i].tx, conv[i].clase, conv[i].valor.value)];
      }
    }
    assert conv[..|conv|] == conv;
  }

  /** `limpiar_columna_numerica(df, "valor")`; the caller's array is left as it was. */
  method CleanNumericColumn(df: array<TxRow<RawCell>>) returns (clean: seq<TxRow<real>>, nInvalidos: nat)
    ensures clean == CleanedRows(df[..])
    ensures nInvalidos == InvalidCount(df[..])
    ensures nInvalidos == df.Length - |clean|
  {
    var conv := ConvertColumn(df);
    nInvalidos := CountMissing(conv);
    clean := DropMissing(conv);
    FilterMapCount(conv, NonMissingValor);
  }

  /**
   * Numeric cleaning keeps exactly the rows whose value converts, with the
   * converted value and the other columns as they were, and in input order.
   */
  lemma CleanedRowsSpec(t: seq<TxRow<RawCell>>)
    ensures |KeptIndices(Converted(t), NonMissingValor)| == |CleanedRows(t)|
    ensures StrictlyIncreasing(KeptIndices(Converted(t), NonMissingValor))
    ensures forall j :: 0 <= j < |CleanedRows(t)| ==>
      var i := KeptIndices(Converted(t), NonMissingValor)[j];
      0 <= i < |t| && CleanedRows(t)[j] == TxRow(t[i].tx, t[i].clase, ToFloat(t[i].valor).value)
    ensures forall i :: 0 <= i < |t| ==>
      (ToFloat(t[i].valor).Some? <==> i in KeptIndices(Converted(t), NonMissingValor))
    ensures |t| - |CleanedRows(t)| == InvalidCount(t)
  {
    var c := Converted(t);
    var idx := KeptIndices(c, NonMissingValor);
    FilterMapCount(c, NonMissingValor);
    forall j | 0 <= j < |CleanedRows(t)|
      ensures 0 <= idx[j] < |t| && CleanedRows(t)[j] == TxRow(t[idx[j]].tx, t[idx[j]].clase, ToFloat(t[idx[j]].valor).value)
    {
      assert NonMissingValor(c[idx[j]]) == Some(CleanedRows(t)[j]);
    }
    forall i | 0 <= i < |t|
      ensures ToFloat(t[i].valor).Some? <==> i in idx
    {
      assert NonMissingValor(c[i]).Some? <==> ToFloat(t[i].valor).Some?;
    }
  }

  /** Four sample rows, identifiers 1 to 4, whose values are the texts "10", "abc", "20.5" and "". */
  function ExampleValues(): seq<TxRow<RawCell>>
  {
    [TxRow(1, None, Str("10")), TxRow(2, None, Str("abc")), TxRow(3, None, Str("20.5")), TxRow(4, None, Str(""))]
  }

  lemma ExampleParses()
    ensures ParseDecimal("10") == Some(10.0)
    ensures ParseDecimal("abc") == None
    ensures ParseDecimal("20.5") == Some(20.5)
    ensures ParseDecimal("") == None
  {
    ParseTen();
    NotANumber("abc");
    ParseTwentyPointFive();
  }

  lemma ParseTen()
    ensures ParseDecimal("10") == Some(10.0)
  {
    var s := "10";
    assert DigitsValue(s) == 10 by { assert s[..1] == "1"; }
    ParseDigits(s);
  }

  lemma ParseTwentyPointFive()
    ensures ParseDecimal("20.5") == Some(20.5)
  {
    var w, f := "20", "5";
    assert DigitsValue(w) == 20 by { assert w[..1] == "2"; }
    assert DigitsValue(f) == 5 && Pow10(|f|) == 10;
    assert DecimalValue(w, f) == 20.5;
    ParseWithFraction(w, f);
    assert w + "." + f == "20.5";
  }

  lemma ExampleConverted()
    ensures Converted(ExampleValues())
         == [TxRow(1, None, Some(10.0)), TxRow(2, None, None), TxRow(3, None, Some(20.5)), TxRow(4, None, None)]
  {
    var t := ExampleValues();
    ParseTen();
    ParseTwentyPointFive();
    NotANumber("abc");
    ConvertStr(1, "10", 10.0);
    ConvertStr(3, "20.5", 20.5);
    ConvertBad(2, "abc");
    ConvertBad(4, "");
    ConvertedRows(t);
  }

  lemma ConvertedRows(t: seq<TxRow<RawCell>>)
    requires |t| == 4
    ensures Converted(t) == [ConvertRow(t[0]), ConvertRow(t[1]), ConvertRow(t[2]), ConvertRow(t[3])]
  {
  }

  lemma ConvertStr(tx: TxId, s: string, x: real)
    requires ParseDecimal(s) == Some(x)
    ensures ConvertRow(TxRow(tx, None, Str(s))) == TxRow(tx, None, Some(x))
  {
  }

  lemma ConvertBad(tx: TxId, s: string)
    requires ParseDecimal(s) == None
    ensures ConvertRow(TxRow(tx, None, Str(s))) == TxRow(tx, None, None)
  {
  }

  /** On these rows, 10.0 and 20.5 are kept, and two rows are reported invalid. */
  lemma CleanNumericExample()
    ensures CleanedRows(ExampleValues()) == [TxRow(1, None, 10.0), TxRow(3, None, 20.5)]
    ensures InvalidCount(ExampleValues()) == 2
  {
    ExampleKept();
    FilterMapCount(Converted(ExampleValues()), NonMissingValor);
  }

  lemma ExampleKept()
    ensures CleanedRows(ExampleValues()) == [TxRow(1, None, 10.0), TxRow(3, None, 20.5)]
  {
    var a, b, c, d := TxRow(1, None, Some(10.0)), TxRow(2, None, None), TxRow(3, None, Some(20.5)), TxRow(4, None, None);
    assert FilterMap([a, b, c, d], NonMissingValor) == [TxRow(1, None, 10.0), TxRow(3, None, 20.5)] by {
      FilterMapSnoc([], a, NonMissingValor);
      assert [] + [a] == [a];
      FilterMapSnoc([a], b, NonMissingValor);
      assert [a] + [b] == [a, b];
      FilterMapSnoc([a, b], c, NonMissingValor);
      assert [a, b] + [c] == [a, b, c];
      FilterMapSnoc([a, b, c], d, NonMissingValor);
      assert [a, b, c] + [d] == [a, b, c, d];
    }
    ExampleConverted();
  }
}
