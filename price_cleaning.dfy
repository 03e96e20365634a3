/**
 * nettoyer_valeur_fonciere (code_dvf/fin_nettoyage.py): keep the sales
 * whose price lies between two thresholds, then one-hot encode
 * `type_local`. The thresholds are quantiles the model takes as
 * parameters.
 */
module PriceCleaning {
  import opened Wrappers
  import opened Frames

  const Price: string := "valeur_fonciere"
  const TypeLocal: string := "type_local"
  const OneHotPrefix: string := "type_local__"

  /** The low threshold: the caller's one when given, else the automatic quantile. */
  function SeuilMin(custom: Option<real>, auto: real): (lo: real)
    ensures custom.Some? ==> lo == custom.value
    ensures custom.None? ==> lo == auto
  {
    match custom
    case Some(v) => v
    case None => auto
  }

  /** nettoyage_final passes 1000: the automatic low quantile is then ignored. */
  lemma FinalRunIgnoresLowQuantile(auto: real)
    ensures SeuilMin(Some(1000.0), auto) == 1000.0
  {
  }

  /**
   * Both comparisons hold. A null compares as null and the filter drops
   * it; a NaN is larger than every number for polars, so `<= seuil_max`
   * drops it.
   */
  predicate InRange(row: Row, lo: real, hi: real)
  {
    Price in row &&
    match row[Price]
    case Num(x) => lo <= x <= hi
    case Int(n) => lo <= n as real <= hi
    case _ => false
  }

  /** The price filter; a frame without the price column raises. */
  function KeepPrices(df: Frame, lo: real, hi: real): (r: Result<Frame, FrameError>)
    requires WellFormed(df)
    ensures r.Err? <==> Price !in df.columns
    ensures r.Ok? ==> r.value.columns == df.columns && WellFormed(r.value) && |r.value.rows| <= |df.rows|
    ensures r.Ok? ==> forall row :: row in r.value.rows <==> row in df.rows && InRange(row, lo, hi)
  {
    if Price !in df.columns then Err(ColumnNotFound(Price))
    else
      WhereWellFormed(df, p => InRange(p, lo, hi));
      Ok(Frame(df.columns, Where(df.rows, p => InRange(p, lo, hi))))
  }

  /** A kept price is a number between the thresholds, never a null or a NaN. */
  lemma KeptPricesAreBounded(df: Frame, lo: real, hi: real, i: nat)
    requires WellFormed(df) && KeepPrices(df, lo, hi).Ok? && i < |KeepPrices(df, lo, hi).value.rows|
    ensures var row := KeepPrices(df, lo, hi).value.rows[i];
      && row in df.rows
      && row[Price] != Null && row[Price] != NaN
      && (row[Price].Num? ==> lo <= row[Price].r <= hi)
      && (row[Price].Int? ==> lo <= row[Price].i as real <= hi)
  {
    var rows := KeepPrices(df, lo, hi).value.rows;
    assert rows[i] in rows;
  }

  /** Thresholds that cross keep nothing, whatever the prices. */
  lemma CrossedThresholdsKeepNothing(df: Frame, lo: real, hi: real)
    requires WellFormed(df) && Price in df.columns && hi < lo
    ensures KeepPrices(df, lo, hi).value.rows == []
  {
    WhereExtremes(df.rows, p => InRange(p, lo, hi));
  }

  // ---------------------------------------------------------------------
  // One-hot encoding of type_local
  // ---------------------------------------------------------------------

  /** `"type_local__" + str(val)`; str prints a null (Python's None) as "None". */
  function OneHotName(v: Cell): (name: string)
    ensures |name| >= |OneHotPrefix| && name[..|OneHotPrefix|] == OneHotPrefix
  {
    OneHotPrefix + (if v.Text? then v.s else "None")
  }

  /** `type_local` is a string column: every cell is a string or a null. */
  predicate IsLabel(v: Cell)
  {
    v.Text? || v.Null?
  }

  /**
   * Distinct labels get distinct columns, unless one is the null and the
   * other the string "None".
   */
  lemma OneHotNameInjective(a: Cell, b: Cell)
    requires IsLabel(a) && IsLabel(b) && OneHotName(a) == OneHotName(b)
    requires !(a.Null? && b == Text("None")) && !(b.Null? && a == Text("None"))
    ensures a == b
  {
    var n := |OneHotPrefix|;
    assert OneHotName(a)[n..] == (if a.Text? then a.s else "None");
    assert OneHotName(b)[n..] == (if b.Text? then b.s else "None");
  }

  /** No one-hot column is `type_local` itself. */
  lemma OneHotNameIsNew(v: Cell)
    ensures OneHotName(v) != TypeLocal
  {
    assert |OneHotName(v)| >= 12 > |TypeLocal|;
  }

  /**
   * `(pl.col("type_local") == val).cast(pl.Int8)`: 1 or 0, a null where
   * `type_local` is null, and a whole null column for a null `val`.
   */
  function OneHotCell(c: Cell, v: Cell): (x: Cell)
    ensures x == Int(1) <==> c != Null && v != Null && c == v
    ensures x == Int(0) <==> c != Null && v != Null && c != v
    ensures x == Null <==> c == Null || v == Null
  {
    if c == Null || v == Null then Null else Int(if c == v then 1 else 0)
  }

  /**
   * `unique()`: each value once. polars does not fix the order; the model
   * keeps first occurrences.
   */
  method UniqueValues(col: seq<Cell>) returns (u: seq<Cell>)
    ensures forall c :: c in u <==> c in col
    ensures forall i, j :: 0 <= i < j < |u| ==> u[i] != u[j]
  {
    u := [];
    var i := 0;
    while i < |col|
      invariant 0 <= i <= |col|
      invariant forall c :: c in u <==> c in col[..i]
      invariant forall a, b :: 0 <= a < b < |u| ==> u[a] != u[b]
    {
      assert col[..i + 1] == col[..i] + [col[i]];
      if col[i] !in u {
        u := u + [col[i]];
      }
      i := i + 1;
    }
    assert col[..i] == col;
  }

  /** The labels of `vals` name distinct columns. */
  predicate DistinctLabels(vals: seq<Cell>)
  {
    && (forall j :: 0 <= j < |vals| ==> IsLabel(vals[j]))
    && (forall i, j :: 0 <= i < j < |vals| ==> OneHotName(vals[i]) != OneHotName(vals[j]))
  }

  /** The columns the first `k` labels add. */
  function NamesUpTo(vals: seq<Cell>, k: nat): set<string>
    requires k <= |vals|
  {
    if k == 0 then {} else NamesUpTo(vals, k - 1) + {OneHotName(vals[k - 1])}
  }

  lemma {:induction false} NamesUpToMember(vals: seq<Cell>, k: nat, x: string)
    requires k <= |vals|
    ensures x in NamesUpTo(vals, k) <==> exists j :: 0 <= j < k && x == OneHotName(vals[j])
  {
    if k > 0 {
      NamesUpToMember(vals, k - 1, x);
    }
  }

  /** `row'` is `row` with the one-hot columns of the first `k` labels. */
  ghost predicate EncodedUpTo(row: Row, row': Row, vals: seq<Cell>, k: nat)
    requires k <= |vals|
  {
    && TypeLocal in row
    && row'.Keys == row.Keys + NamesUpTo(vals, k)
    && (forall j :: 0 <= j < k ==>
          (OneHotName(vals[j]) in row' && row'[OneHotName(vals[j])] == OneHotCell(row[TypeLocal], vals[j])))
    && (forall key :: key in row && key !in NamesUpTo(vals, k) ==> key in row' && row'[key] == row[key])
  }

  /** One `with_columns` call: add or overwrite the column of one label. */
  function EncodeRow(row: Row, v: Cell): Row
    requires TypeLocal in row
  {
    row[OneHotName(v) := OneHotCell(row[TypeLocal], v)]
  }

  function EncodeRows(rows: seq<Row>, v: Cell): (out: seq<Row>)
    requires forall i :: 0 <= i < |rows| ==> TypeLocal in rows[i]
    ensures |out| == |rows| && forall i :: 0 <= i < |rows| ==> out[i] == EncodeRow(rows[i], v)
  {
    seq(|rows|, i requires 0 <= i < |rows| => EncodeRow(rows[i], v))
  }

  /** After `k` labels `type_local` is still as it was. */
  lemma EncodeKeepsLabel(row: Row, row': Row, vals: seq<Cell>, k: nat)
    requires k <= |vals| && EncodedUpTo(row, row', vals, k)
    ensures TypeLocal in row' && row'[TypeLocal] == row[TypeLocal]
  {
    NamesUpToMember(vals, k, TypeLocal);
  }

  lemma EncodeStepKeys(row: Row, row': Row, vals: seq<Cell>, k: nat)
    requires k < |vals| && EncodedUpTo(row, row', vals, k)
    ensures EncodeRow(row', vals[k]).Keys == row.Keys + NamesUpTo(vals, k + 1)
  {
  }

  lemma EncodeStepColumns(row: Row, row': Row, vals: seq<Cell>, k: nat)
    requires k < |vals| && DistinctLabels(vals) && EncodedUpTo(row, row', vals, k)
    requires row'[TypeLocal] == row[TypeLocal]
    ensures forall j :: 0 <= j < k + 1 ==>
      (OneHotName(vals[j]) in EncodeRow(row', vals[k]) &&
       EncodeRow(row', vals[k])[OneHotName(vals[j])] == OneHotCell(row[TypeLocal], vals[j]))
  {
  }

  lemma EncodeStepOthers(row: Row, row': Row, vals: seq<Cell>, k: nat)
    requires k < |vals| && EncodedUpTo(row, row', vals, k)
    ensures forall key :: key in row && key !in NamesUpTo(vals, k + 1) ==>
      key in EncodeRow(row', vals[k]) && EncodeRow(row', vals[k])[key] == row[key]
  {
  }

  lemma EncodeStep(row: Row, row': Row, vals: seq<Cell>, k: nat)
    requires k < |vals| && DistinctLabels(vals) && EncodedUpTo(row, row', vals, k)
    ensures TypeLocal in row' && row'[TypeLocal] == row[TypeLocal]
    ensures EncodedUpTo(row, EncodeRow(row', vals[k]), vals, k + 1)
  {
    EncodeKeepsLabel(row, row', vals, k);
    EncodeStepKeys(row, row', vals, k);
    EncodeStepColumns(row, row', vals, k);
    EncodeStepOthers(row, row', vals, k);
  }

  /** One iteration of the loop on a whole frame. */
  lemma FrameEncodeStep(df: Frame, d: Frame, vals: seq<Cell>, k: nat)
    requires k < |vals| && DistinctLabels(vals) && WellFormed(d) && |d.rows| == |df.rows|
    requires TypeLocal in df.columns && d.columns == df.columns + NamesUpTo(vals, k)
    requires forall i :: 0 <= i < |df.rows| ==> EncodedUpTo(df.rows[i], d.rows[i], vals, k)
    ensures var d' := Frame(d.columns + {OneHotName(vals[k])}, EncodeRows(d.rows, vals[k]));
      && WellFormed(d') && d'.columns == df.columns + NamesUpTo(vals, k + 1) && |d'.rows| == |df.rows|
      && forall i :: 0 <= i < |df.rows| ==> EncodedUpTo(df.rows[i], d'.rows[i], vals, k + 1)
  {
    var rows := EncodeRows(d.rows, vals[k]);
    forall i | 0 <= i < |df.rows|
      ensures EncodedUpTo(df.rows[i], rows[i], vals, k + 1)
    {
      EncodeStep(df.rows[i], d.rows[i], vals, k);
    }
  }

  /**
   * The encoding loop over the labels: each iteration adds the column of
   * one label to every row.
   */
  method EncodeLabels(df: Frame, vals: seq<Cell>) returns (d: Frame)
    requires WellFormed(df) && TypeLocal in df.columns && DistinctLabels(vals)
    ensures WellFormed(d) && d.columns == df.columns + NamesUpTo(vals, |vals|) && |d.rows| == |df.rows|
    ensures forall i :: 0 <= i < |df.rows| ==> EncodedUpTo(df.rows[i], d.rows[i], vals, |vals|)
  {
    d := df;
    var k := 0;
    while k < |vals|
      invariant 0 <= k <= |vals|
      invariant WellFormed(d) && d.columns == df.columns + NamesUpTo(vals, k) && |d.rows| == |df.rows|
      invariant forall i :: 0 <= i < |df.rows| ==> EncodedUpTo(df.rows[i], d.rows[i], vals, k)
    {
      FrameEncodeStep(df, d, vals, k);
      d := Frame(d.columns + {OneHotName(vals[k])}, EncodeRows(d.rows, vals[k]));
      k := k + 1;
    }
  }

  /**
   * The type_local column holds strings and nulls, and not both a null
   * and the string "None" (whose one-hot columns would share a name).
   */
  predicate LabelColumn(df: Frame)
    requires WellFormed(df) && TypeLocal in df.columns
  {
    && (forall i :: 0 <= i < |df.rows| ==> IsLabel(df.rows[i][TypeLocal]))
    && !((exists i :: 0 <= i < |df.rows| && df.rows[i][TypeLocal] == Null) &&
         (exists i :: 0 <= i < |df.rows| && df.rows[i][TypeLocal] == Text("None")))
  }

  /**
   * The one-hot step: one column per distinct `type_local` value, returned
   * with the list of values. A frame without `type_local` raises.
   */
  method OneHot(df: Frame) returns (r: Result<Frame, FrameError>, vals: seq<Cell>)
    requires WellFormed(df) && (TypeLocal in df.columns ==> LabelColumn(df))
    ensures r.Err? <==> TypeLocal !in df.columns
    ensures r.Ok? ==> DistinctLabels(vals)
    ensures r.Ok? ==> forall v :: v in vals <==> exists i :: 0 <= i < |df.rows| && df.rows[i][TypeLocal] == v
    ensures r.Ok? ==> (WellFormed(r.value) && r.value.columns == df.columns + NamesUpTo(vals, |vals|)
      && |r.value.rows| == |df.rows|)
    ensures r.Ok? ==> forall i :: 0 <= i < |df.rows| ==> EncodedUpTo(df.rows[i], r.value.rows[i], vals, |vals|)
  {
    if TypeLocal !in df.columns {
      return Err(ColumnNotFound(TypeLocal)), [];
    }
    var col := Column(df, TypeLocal);
    vals := UniqueValues(col);
    forall v | v in vals
      ensures exists i :: 0 <= i < |df.rows| && df.rows[i][TypeLocal] == v
    {
      var i :| 0 <= i < |col| && col[i] == v;
    }
    forall j | 0 <= j < |vals|
      ensures IsLabel(vals[j]) && (vals[j] == Null || vals[j] == Text("None") ==> vals[j] in col)
    {
      assert vals[j] in vals;
    }
    forall i, j | 0 <= i < j < |vals|
      ensures OneHotName(vals[i]) != OneHotName(vals[j])
    {
      if OneHotName(vals[i]) == OneHotName(vals[j]) {
        assert vals[i] in vals && vals[j] in vals;
        OneHotNameInjective(vals[i], vals[j]);
      }
    }
    var d := EncodeLabels(df, vals);
    r := Ok(d);
  }

  /**
   * What the encoding means for one row: the column of the row's own label
   * holds 1, the column of every other non-null label 0, and a row whose
   * label is null, or the column of the null label, holds null.
   */
  lemma OneHotMeaning(row: Row, row': Row, vals: seq<Cell>, j: nat)
    requires j < |vals| && EncodedUpTo(row, row', vals, |vals|)
    ensures row'[OneHotName(vals[j])] == Int(1) <==> row[TypeLocal] != Null && row[TypeLocal] == vals[j]
    ensures row'[OneHotName(vals[j])] == Int(0) <==> row[TypeLocal] != Null && vals[j] != Null && row[TypeLocal] != vals[j]
    ensures row'[OneHotName(vals[j])] == Null <==> row[TypeLocal] == Null || vals[j] == Null
  {
  }

  /** A row with a non-null label has exactly one one-hot column set to 1. */
  lemma OneHotIsExactlyOne(row: Row, row': Row, vals: seq<Cell>)
    requires EncodedUpTo(row, row', vals, |vals|) && row[TypeLocal] != Null && row[TypeLocal] in vals
    requires forall a, b :: 0 <= a < b < |vals| ==> vals[a] != vals[b]
    ensures exists j :: 0 <= j < |vals| && row'[OneHotName(vals[j])] == Int(1)
    ensures forall a, b ::
      (0 <= a < |vals| && 0 <= b < |vals| && row'[OneHotName(vals[a])] == Int(1)
       && row'[OneHotName(vals[b])] == Int(1)) ==> a == b
  {
    var j :| 0 <= j < |vals| && vals[j] == row[TypeLocal];
    assert row'[OneHotName(vals[j])] == Int(1);
  }

  /**
   * The part of nettoyer_valeur_fonciere the model covers: the price filter
   * between `lo` and `hi`, then the one-hot encoding of what is kept.
   */
  method CleanPrices(df: Frame, lo: real, hi: real) returns (r: Result<Frame, FrameError>, vals: seq<Cell>)
    requires WellFormed(df) && (TypeLocal in df.columns ==> LabelColumn(df))
    ensures r.Err? <==> Price !in df.columns || TypeLocal !in df.columns
    ensures r.Ok? ==> (KeepPrices(df, lo, hi).Ok? && WellFormed(r.value)
      && |r.value.rows| == |KeepPrices(df, lo, hi).value.rows|)
    ensures r.Ok? ==> forall i :: 0 <= i < |r.value.rows| ==>
      EncodedUpTo(KeepPrices(df, lo, hi).value.rows[i], r.value.rows[i], vals, |vals|)
    ensures r.Ok? ==> forall i :: 0 <= i < |r.value.rows| ==> InRange(r.value.rows[i], lo, hi)
    ensures r.Ok? ==> DistinctLabels(vals)
    ensures r.Ok? ==> forall v :: v in vals <==>
      exists i :: 0 <= i < |KeepPrices(df, lo, hi).value.rows| && KeepPrices(df, lo, hi).value.rows[i][TypeLocal] == v
    ensures r.Ok? ==> r.value.columns == KeepPrices(df, lo, hi).value.columns + NamesUpTo(vals, |vals|)
  {
    var kept := KeepPrices(df, lo, hi);
    if kept.Err? {
      return Err(kept.error), [];
    }
    var k := kept.value;
    if TypeLocal in k.columns {
      forall i | 0 <= i < |k.rows|
        ensures k.rows[i] in df.rows && InRange(k.rows[i], lo, hi)
      {
        assert k.rows[i] in k.rows;
      }
      assert LabelColumn(k) by {
        forall i | 0 <= i < |k.rows|
          ensures exists i' :: 0 <= i' < |df.rows| && df.rows[i'] == k.rows[i]
        {
          assert k.rows[i] in df.rows;
        }
      }
    }
    r, vals := OneHot(k);
    if r.Ok? {
      forall i | 0 <= i < |r.value.rows|
        ensures InRange(r.value.rows[i], lo, hi)
      {
        assert k.rows[i] in k.rows;
        OneHotNameIsNew(Int(0));
        NamesUpToMember(vals, |vals|, Price);
        forall j | 0 <= j < |vals|
          ensures OneHotName(vals[j]) != Price
        {
          assert |OneHotName(vals[j])| >= 12 && OneHotName(vals[j])[0] == 't';
        }
      }
    }
  }
}
