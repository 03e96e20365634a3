/**
 * The final cleaning of the enriched sales (code_dvf/fin_nettoyage.py):
 * sales only, missing distances replaced by the category radius with an
 * indicator column, missing median incomes replaced by the department mean,
 * missing household counts looked up in a small table of districts, then
 * the price bounds and the one-hot encoding of `type_local`.
 */
module FinalCleaning {
  import opened Wrappers
  import opened Frames
  import Config
  import HouseholdTable

  // ---------------------------------------------------------------------
  // Missing distances
  // ---------------------------------------------------------------------

  /** The distance column of a category: "distance_min_" and the category's name. */
  function DistanceColumn(c: Config.Category): string
  {
    "distance_min_" + Config.Name(c)
  }

  /** COLUMN_DISTANCE: the distance columns in category order. */
  const ColumnDistance: seq<string> :=
    [DistanceColumn(Config.Gares), DistanceColumn(Config.Commerces),
     DistanceColumn(Config.Education), DistanceColumn(Config.EspacesVerts),
     DistanceColumn(Config.Sante), DistanceColumn(Config.Pharmacies),
     DistanceColumn(Config.Aeroports), DistanceColumn(Config.RoutesPrincipales),
     DistanceColumn(Config.Industries)]

  /** The length of the literal "distances_min" the source slices with. */
  const PrefixLength: nat := |"distances_min"|

  /** The first, a middle and the last distance column, as the source spells them. */
  lemma ColumnDistanceLiterals()
    ensures |ColumnDistance| == 9
    ensures ColumnDistance[0] == "distance_min_gares"
    ensures ColumnDistance[3] == "distance_min_espaces_verts"
    ensures ColumnDistance[8] == "distance_min_industries"
  {
  }

  /** A column whose name, cut after the first 13 characters, is a key of DISTANCE_POINT_INTERET. */
  predicate HasRadius(col: string)
  {
    |col| >= PrefixLength && col[PrefixLength..] in Config.DistancePointInteret
  }

  /** DISTANCE_POINT_INTERET[col[len("distances_min"):]]: the value that replaces a missing distance. */
  function Fallback(col: string): int
    requires HasRadius(col)
  {
    Config.DistancePointInteret[col[PrefixLength..]]
  }

  /**
   * Although the source measures the prefix with the longer word
   * "distances_min", that is 13 characters like "distance_min_", so slicing a
   * distance column there gives its category name, and the fallback is that
   * category's radius.
   */
  lemma SliceGivesCategory(k: nat)
    requires k < |ColumnDistance|
    ensures PrefixLength == |"distance_min_"| == 13
    ensures ColumnDistance[k] == DistanceColumn(Config.AllCategories[k])
    ensures ColumnDistance[k][PrefixLength..] == Config.PointInteret[k]
    ensures HasRadius(ColumnDistance[k])
    ensures Fallback(ColumnDistance[k]) == Config.Radius(Config.AllCategories[k])
  {
    Config.PointInteretIsTheCategoryList();
    var col := ColumnDistance[k];
    assert col == DistanceColumn(Config.AllCategories[k]);
    assert col[13..] == Config.PointInteret[k];
    Config.DictionariesAreTotal();
  }

  /** The name of the indicator column of a distance column. */
  function MissingName(col: string): string
  {
    col + "_manquante"
  }

  /** Distinct columns have distinct indicator columns. */
  lemma MissingNameInjective(a: string, b: string)
    ensures MissingName(a) == MissingName(b) ==> a == b
  {
    if MissingName(a) == MissingName(b) {
      assert |a| == |b|;
      assert a == MissingName(a)[..|a|] == MissingName(b)[..|b|] == b;
    }
  }

  /** The lengths of the nine category names. */
  lemma NameLength(c: Config.Category)
    ensures var n := |Config.Name(c)|; n == 5 || n == 9 || n == 10 || n == 13 || n == 18
  {
  }

  /** The indicator column names of a list of columns, in the same order. */
  function IndicatorNames(cols: seq<string>): (miss: seq<string>)
    ensures |miss| == |cols|
    ensures forall j :: 0 <= j < |cols| ==> miss[j] == MissingName(cols[j])
  {
    if cols == [] then [] else [MissingName(cols[0])] + IndicatorNames(cols[1..])
  }

  /**
   * Columns the pass can run over one after the other, with the names of
   * their indicator columns: each column has a radius, and the columns and
   * indicators are all distinct.
   */
  predicate Separate(cols: seq<string>, miss: seq<string>)
  {
    && |miss| == |cols|
    && (forall j :: 0 <= j < |cols| ==> HasRadius(cols[j]))
    && (forall i, j :: 0 <= i < j < |cols| ==> cols[i] != cols[j])
    && (forall i, j :: 0 <= i < j < |miss| ==> miss[i] != miss[j])
    && (forall i, j :: 0 <= i < |cols| && 0 <= j < |miss| ==> cols[i] != miss[j])
  }

  /** COLUMN_DISTANCE is such a list: its eighteen names are pairwise distinct. */
  lemma ColumnDistanceSeparate()
    ensures Separate(ColumnDistance, IndicatorNames(ColumnDistance))
  {
    var miss := IndicatorNames(ColumnDistance);
    forall j | 0 <= j < |ColumnDistance| ensures HasRadius(ColumnDistance[j])
    {
      SliceGivesCategory(j);
    }
    forall i, j | 0 <= i < j < |ColumnDistance| ensures ColumnDistance[i] != ColumnDistance[j]
    {
      SliceGivesCategory(i);
      SliceGivesCategory(j);
      Config.PointInteretIsTheCategoryList();
    }
    forall i, j | 0 <= i < j < |miss| ensures miss[i] != miss[j]
    {
      MissingNameInjective(ColumnDistance[i], ColumnDistance[j]);
    }
    forall i, j | 0 <= i < |ColumnDistance| && 0 <= j < |miss|
      ensures ColumnDistance[i] != miss[j]
    {
      SliceGivesCategory(i);
      SliceGivesCategory(j);
      NameLength(Config.AllCategories[i]);
      NameLength(Config.AllCategories[j]);
      assert |miss[j]| == |ColumnDistance[j]| + 10;
    }
  }

  /** The indicator cast to Int8: 1 where the distance is null, 0 elsewhere (a NaN is not null). */
  function Indicator(c: Cell): Cell
  {
    Int(if c == Null then 1 else 0)
  }

  /** The distance after filling: the (float) fallback where it was null, itself elsewhere. */
  function Filled(c: Cell, col: string): Cell
    requires HasRadius(col)
  {
    if c == Null then Num(Fallback(col) as real) else c
  }

  /**
   * One `with_columns` call of the loop on one row, writing the indicator
   * `ind` and the filled column; both expressions read the row as it was.
   */
  function FillRow(row: Row, col: string, ind: string): Row
    requires HasRadius(col) && col in row
  {
    row[ind := Indicator(row[col])][col := Filled(row[col], col)]
  }

  /** The indicator columns the first k iterations add. */
  function Added(miss: seq<string>, k: nat): set<string>
    requires k <= |miss|
  {
    if k == 0 then {} else Added(miss, k - 1) + {miss[k - 1]}
  }

  /** Every name the first k iterations write. */
  function Written(cols: seq<string>, miss: seq<string>, k: nat): set<string>
    requires k <= |cols| && k <= |miss|
  {
    if k == 0 then {} else Written(cols, miss, k - 1) + {cols[k - 1], miss[k - 1]}
  }

  /** The added names are the first k indicators. */
  lemma {:induction false} AddedMember(miss: seq<string>, k: nat, x: string)
    requires k <= |miss|
    ensures x in Added(miss, k) <==> exists j :: 0 <= j < k && x == miss[j]
  {
    if k > 0 {
      AddedMember(miss, k - 1, x);
    }
  }

  /** The written names are the first k columns and their indicators. */
  lemma {:induction false} WrittenMember(cols: seq<string>, miss: seq<string>, k: nat, x: string)
    requires k <= |cols| && k <= |miss|
    ensures x in Written(cols, miss, k) <==> exists j :: 0 <= j < k && (x == cols[j] || x == miss[j])
  {
    if k > 0 {
      WrittenMember(cols, miss, k - 1, x);
    }
  }

  /**
   * A row after the first k iterations: the indicator columns added, each
   * indicator 1 exactly where its distance was null, each distance filled,
   * every other column as it was.
   */
  ghost predicate FilledUpTo(row: Row, row': Row, cols: seq<string>, miss: seq<string>, k: nat)
    requires k <= |cols| && Separate(cols, miss)
  {
    && row'.Keys == row.Keys + Added(miss, k)
    && (forall j :: 0 <= j < k ==> cols[j] in row && cols[j] in row' && miss[j] in row')
    && (forall j :: 0 <= j < k ==> row'[miss[j]] == Indicator(row[cols[j]]))
    && (forall j :: 0 <= j < k ==> row'[cols[j]] == Filled(row[cols[j]], cols[j]))
    && (forall key :: key in row && key !in Written(cols, miss, k) ==> row'[key] == row[key])
  }

  /** One more iteration extends FilledUpTo by one column. */
  lemma FillStep(row: Row, row': Row, cols: seq<string>, miss: seq<string>, k: nat)
    requires k < |cols| && Separate(cols, miss) && FilledUpTo(row, row', cols, miss, k) && cols[k] in row
    ensures cols[k] in row' && row'[cols[k]] == row[cols[k]]
    ensures FilledUpTo(row, FillRow(row', cols[k], miss[k]), cols, miss, k + 1)
  {
    WrittenMember(cols, miss, k, cols[k]);
    AddedMember(miss, k, cols[k]);
    var r2 := FillRow(row', cols[k], miss[k]);
    StepKeys(row, row', cols, miss, k, r2);
    StepValues(row, row', cols, miss, k, r2);
    StepOthers(row, row', cols, miss, k, r2);
  }

  /** After one more iteration the row has the next indicator column too. */
  lemma StepKeys(row: Row, row': Row, cols: seq<string>, miss: seq<string>, k: nat, r2: Row)
    requires k < |cols| && Separate(cols, miss) && FilledUpTo(row, row', cols, miss, k) && cols[k] in row
    requires cols[k] in row' && r2 == FillRow(row', cols[k], miss[k])
    ensures r2.Keys == row.Keys + Added(miss, k + 1)
    ensures forall j :: 0 <= j < k + 1 ==> cols[j] in row && cols[j] in r2 && miss[j] in r2
  {
  }

  /** After one more iteration the first k + 1 columns and indicators hold their values. */
  lemma StepValues(row: Row, row': Row, cols: seq<string>, miss: seq<string>, k: nat, r2: Row)
    requires k < |cols| && Separate(cols, miss) && FilledUpTo(row, row', cols, miss, k) && cols[k] in row
    requires cols[k] in row' && row'[cols[k]] == row[cols[k]] && r2 == FillRow(row', cols[k], miss[k])
    ensures forall j :: 0 <= j < k + 1 ==> miss[j] in r2 && r2[miss[j]] == Indicator(row[cols[j]])
    ensures forall j :: 0 <= j < k + 1 ==> cols[j] in r2 && r2[cols[j]] == Filled(row[cols[j]], cols[j])
  {
  }

  /** The new iteration writes only its own column and indicator. */
  lemma StepOthers(row: Row, row': Row, cols: seq<string>, miss: seq<string>, k: nat, r2: Row)
    requires k < |cols| && Separate(cols, miss) && FilledUpTo(row, row', cols, miss, k) && cols[k] in row'
    requires r2 == FillRow(row', cols[k], miss[k])
    ensures forall key :: key in row && key !in Written(cols, miss, k + 1) ==> key in r2 && r2[key] == row[key]
  {
  }

  /** Every row of the frame after k iterations. */
  ghost predicate FrameFilledUpTo(df: Frame, d: Frame, cols: seq<string>, miss: seq<string>, k: nat)
    requires k <= |cols| && Separate(cols, miss)
  {
    && d.columns == df.columns + Added(miss, k)
    && |d.rows| == |df.rows|
    && forall i :: 0 <= i < |df.rows| ==> FilledUpTo(df.rows[i], d.rows[i], cols, miss, k)
  }

  /** The rows after one more iteration. */
  function FillRows(rows: seq<Row>, col: string, ind: string): (out: seq<Row>)
    requires HasRadius(col) && forall i :: 0 <= i < |rows| ==> col in rows[i]
    ensures |out| == |rows| && forall i :: 0 <= i < |rows| ==> out[i] == FillRow(rows[i], col, ind)
  {
    seq(|rows|, i requires 0 <= i < |rows| => FillRow(rows[i], col, ind))
  }

  /** One iteration of the loop on the frame: a new column set and every row filled. */
  lemma FrameFillStep(df: Frame, d: Frame, cols: seq<string>, miss: seq<string>, k: nat)
    requires k < |cols| && Separate(cols, miss) && WellFormed(d) && FrameFilledUpTo(df, d, cols, miss, k)
    requires cols[k] in df.columns && WellFormed(df)
    ensures cols[k] in d.columns
    ensures var d' := Frame(d.columns + {miss[k]}, FillRows(d.rows, cols[k], miss[k]));
            WellFormed(d') && FrameFilledUpTo(df, d', cols, miss, k + 1)
  {
    AddedMember(miss, k, cols[k]);
    var rows := FillRows(d.rows, cols[k], miss[k]);
    forall i | 0 <= i < |df.rows|
      ensures FilledUpTo(df.rows[i], rows[i], cols, miss, k + 1)
    {
      FillStep(df.rows[i], d.rows[i], cols, miss, k);
    }
  }

  /**
   * The loop of reglage_null_colonne_distance over a list of columns and
   * their indicator names: for each column in turn, add its indicator and
   * replace its nulls by its radius. A missing column raises, and then
   * nothing is returned.
   */
  method FillColumns(df: Frame, cols: seq<string>, miss: seq<string>) returns (r: Result<Frame, FrameError>)
    requires WellFormed(df) && Separate(cols, miss)
    ensures r.Err? <==> exists k :: 0 <= k < |cols| && cols[k] !in df.columns
    ensures r.Ok? ==> WellFormed(r.value) && FrameFilledUpTo(df, r.value, cols, miss, |cols|)
  {
    var d := df;
    var k := 0;
    while k < |cols|
      invariant 0 <= k <= |cols|
      invariant WellFormed(d) && FrameFilledUpTo(df, d, cols, miss, k)
      invariant forall j :: 0 <= j < k ==> cols[j] in df.columns
    {
      var col := cols[k];
      AddedMember(miss, k, col);
      if col !in d.columns {
        return Err(ColumnNotFound(col));
      }
      FrameFillStep(df, d, cols, miss, k);
      d := Frame(d.columns + {miss[k]}, FillRows(d.rows, col, miss[k]));
      k := k + 1;
    }
    r := Ok(d);
  }

  /** reglage_null_colonne_distance: the loop over COLUMN_DISTANCE and its "_manquante" indicators. */
  method FillDistanceNulls(df: Frame) returns (r: Result<Frame, FrameError>)
    requires WellFormed(df)
    ensures Separate(ColumnDistance, IndicatorNames(ColumnDistance))
    ensures r.Err? <==> exists k :: 0 <= k < |ColumnDistance| && ColumnDistance[k] !in df.columns
    ensures r.Ok? ==>
      WellFormed(r.value) &&
      FrameFilledUpTo(df, r.value, ColumnDistance, IndicatorNames(ColumnDistance), |ColumnDistance|)
  {
    ColumnDistanceSeparate();
    r := FillColumns(df, ColumnDistance, IndicatorNames(ColumnDistance));
  }

  /**
   * The pass loses nothing and leaves no null distance: the original
   * distance is recovered from the indicator and the filled value, a present
   * distance is never flagged, and a missing one becomes the radius.
   */
  lemma FillIsReversible(row: Row, row': Row, cols: seq<string>, miss: seq<string>, k: nat)
    requires Separate(cols, miss) && k < |cols| && FilledUpTo(row, row', cols, miss, |cols|)
    ensures row[cols[k]] == (if row'[miss[k]] == Int(1) then Null else row'[cols[k]])
    ensures row'[miss[k]] == Int(0) <==> row[cols[k]] != Null
    ensures row'[cols[k]] != Null
    ensures row[cols[k]] == Null ==> row'[cols[k]] == Num(Fallback(cols[k]) as real)
  {
  }

  // ---------------------------------------------------------------------
  // Missing median incomes
  // ---------------------------------------------------------------------

  const CodeCommune: string := "code_commune"
  const Revenue: string := "revenu_median_2021_commune"
  const TempDepartment: string := "code_departement_temporaire"
  const TempMean: string := "revenu_median_dep"

  /** polars `str.slice(0, n)`: the first n characters, or the whole string when shorter. */
  function Prefix(s: string, n: nat): (p: string)
    ensures |p| == if |s| < n then |s| else n
    ensures p <= s
  {
    if |s| < n then s else s[..n]
  }

  /**
   * The department of a commune code: three characters for the overseas
   * codes starting with 97 or 98, two otherwise; a null code gives a null.
   */
  function DepartmentCode(code: Cell): (d: Cell)
    requires code.Text? || code.Null?
    ensures code.Null? <==> d.Null?
    ensures code.Text? ==> d.Text? && d.s <= code.s
    ensures code.Text? && |code.s| >= 3 ==>
      (|d.s| == 3 <==> code.s[..2] == "97" || code.s[..2] == "98")
  {
    match code
    case Null => Null
    case Text(s) =>
      var two := Prefix(s, 2);
      if two == "97" || two == "98" then Text(Prefix(s, 3)) else Text(two)
  }

  /** Codes with the same first three characters fall in the same department. */
  lemma SameStartSameDepartment(a: string, b: string)
    requires |a| >= 3 && |b| >= 3 && a[..3] == b[..3]
    ensures DepartmentCode(Text(a)) == DepartmentCode(Text(b))
  {
    assert a[..2] == a[..3][..2] == b[..3][..2] == b[..2];
  }

  /** Departments of a Paris district, a Reunion commune, a Corsican commune and short codes. */
  lemma DepartmentExamples()
    ensures DepartmentCode(Text("75115")) == Text("75")
    ensures DepartmentCode(Text("97411")) == Text("974")
    ensures DepartmentCode(Text("98735")) == Text("987")
    ensures DepartmentCode(Text("2A004")) == Text("2A")
    ensures DepartmentCode(Text("97")) == Text("97")
    ensures DepartmentCode(Text("9")) == Text("9")
  {
    assert Prefix("75115", 2) == "75";
    assert Prefix("97411", 2) == "97" && Prefix("97411", 3) == "974";
    assert Prefix("98735", 2) == "98" && Prefix("98735", 3) == "987";
    assert Prefix("2A004", 2) == "2A";
  }

  /** The columns the income fill reads hold a string column and a float column. */
  predicate IncomeTyped(rows: seq<Row>)
  {
    forall i :: 0 <= i < |rows| ==>
      && (CodeCommune in rows[i] ==> rows[i][CodeCommune].Text? || rows[i][CodeCommune].Null?)
      && (Revenue in rows[i] ==> rows[i][Revenue].Null? || rows[i][Revenue].NaN? || rows[i][Revenue].Num?)
  }

  /** A row whose commune code lies in department d. */
  predicate InDepartment(row: Row, d: string)
  {
    CodeCommune in row && row[CodeCommune].Text? && DepartmentCode(row[CodeCommune]) == Text(d)
  }

  /** The known (float) incomes of department d, top to bottom. */
  function KnownIncomes(rows: seq<Row>, d: string): (xs: seq<real>)
    ensures |xs| <= |rows|
    ensures forall x :: x in xs <==>
      exists i :: 0 <= i < |rows| && InDepartment(rows[i], d) && Revenue in rows[i] && rows[i][Revenue] == Num(x)
  {
    if rows == [] then []
    else
      var here := InDepartment(rows[0], d) && Revenue in rows[0] && rows[0][Revenue].Num?;
      var rest := KnownIncomes(rows[1..], d);
      assert forall i :: 1 <= i < |rows| ==> rows[i] == rows[1..][i - 1];
      (if here then [rows[0][Revenue].r] else []) + rest
  }

  /** Whether department d holds a NaN income, which makes its mean NaN. */
  predicate NaNIncome(rows: seq<Row>, d: string)
  {
    exists i :: 0 <= i < |rows| && InDepartment(rows[i], d) && Revenue in rows[i] && rows[i][Revenue] == NaN
  }

  function Sum(xs: seq<real>): real
  {
    if xs == [] then 0.0 else xs[0] + Sum(xs[1..])
  }

  /**
   * The polars mean of a department's incomes: nulls are skipped, a NaN makes
   * it NaN, and a department with no value left has a null mean.
   */
  function DepartmentMean(rows: seq<Row>, d: string): (m: Cell)
    ensures m.NaN? <==> NaNIncome(rows, d)
    ensures m.Null? <==> !NaNIncome(rows, d) && KnownIncomes(rows, d) == []
    ensures m.Num? || m.Null? || m.NaN?
  {
    var xs := KnownIncomes(rows, d);
    if NaNIncome(rows, d) then NaN
    else if xs == [] then Null
    else Num(Sum(xs) / (|xs| as real))
  }

  /** A sum of values between lo and hi lies between |xs| * lo and |xs| * hi. */
  lemma {:induction false} SumBounds(xs: seq<real>, lo: real, hi: real)
    requires forall i :: 0 <= i < |xs| ==> lo <= xs[i] <= hi
    ensures (|xs| as real) * lo <= Sum(xs) <= (|xs| as real) * hi
  {
    if xs != [] {
      assert forall i :: 0 <= i < |xs[1..]| ==> xs[1..][i] == xs[i + 1];
      SumBounds(xs[1..], lo, hi);
    }
  }

  /** The mean of values between lo and hi lies between lo and hi. */
  lemma MeanBounds(xs: seq<real>, lo: real, hi: real)
    requires xs != [] && forall i :: 0 <= i < |xs| ==> lo <= xs[i] <= hi
    ensures lo <= Sum(xs) / (|xs| as real) <= hi
  {
    SumBounds(xs, lo, hi);
    var n := |xs| as real;
    var m := Sum(xs) / n;
    assert Sum(xs) == m * n;
    if m < lo {
      ScaleStrict(m, lo, n);
    }
    if hi < m {
      ScaleStrict(hi, m, n);
    }
  }

  /** Multiplying by a positive number keeps a strict order. */
  lemma ScaleStrict(a: real, b: real, n: real)
    requires a < b && 0.0 < n
    ensures a * n < b * n
  {
    assert b * n - a * n == (b - a) * n;
  }

  /**
   * The department mean is null exactly when the department has neither a
   * NaN nor a known income, and otherwise lies between the smallest and the
   * largest known income of that department.
   */
  lemma DepartmentMeanMeaning(rows: seq<Row>, d: string, lo: real, hi: real)
    requires forall i :: (0 <= i < |rows| && InDepartment(rows[i], d) && Revenue in rows[i]
      && rows[i][Revenue].Num?) ==> lo <= rows[i][Revenue].r <= hi
    ensures DepartmentMean(rows, d) == Null <==> (!NaNIncome(rows, d) &&
      forall i :: 0 <= i < |rows| && InDepartment(rows[i], d) && Revenue in rows[i] ==> !rows[i][Revenue].Num?)
    ensures DepartmentMean(rows, d).Num? ==> lo <= DepartmentMean(rows, d).r <= hi
  {
    var xs := KnownIncomes(rows, d);
    if xs != [] {
      assert xs[0] in xs;
    }
    forall i | 0 <= i < |xs| ensures lo <= xs[i] <= hi
    {
      assert xs[i] in xs;
    }
    if DepartmentMean(rows, d).Num? {
      MeanBounds(xs, lo, hi);
    }
  }

  /** The income of one row after the fill: its own if known, else its department's mean. */
  function IncomeRow(row: Row, rows: seq<Row>): Row
    requires CodeCommune in row && Revenue in row
    requires row[CodeCommune].Text? || row[CodeCommune].Null?
  {
    var dep := DepartmentCode(row[CodeCommune]);
    var mean := if dep.Text? then DepartmentMean(rows, dep.s) else Null;
    row[Revenue := if row[Revenue] == Null then mean else row[Revenue]]
  }

  /**
   * reglage_null_revenu_median_commune: a temporary department column, the
   * mean income per department, a left join on it, and the nulls replaced by
   * the mean; the temporary columns are dropped again. A missing commune code
   * or income column raises.
   */
  function FillIncomes(df: Frame): (r: Result<Frame, FrameError>)
    requires WellFormed(df) && IncomeTyped(df.rows)
    requires TempDepartment !in df.columns && TempMean !in df.columns
    ensures r.Err? <==> CodeCommune !in df.columns || Revenue !in df.columns
    ensures r.Ok? ==> (r.value.columns == df.columns && WellFormed(r.value)
      && |r.value.rows| == |df.rows| && IncomeTyped(r.value.rows))
    ensures r.Ok? ==> forall i, key :: 0 <= i < |df.rows| && key in df.rows[i] && key != Revenue ==>
      r.value.rows[i][key] == df.rows[i][key]
    ensures r.Ok? ==> forall i :: 0 <= i < |df.rows| && df.rows[i][Revenue] != Null ==>
      r.value.rows[i][Revenue] == df.rows[i][Revenue]
  {
    if CodeCommune !in df.columns then Err(ColumnNotFound(CodeCommune))
    else if Revenue !in df.columns then Err(ColumnNotFound(Revenue))
    else Ok(Frame(df.columns, seq(|df.rows|, i requires 0 <= i < |df.rows| => IncomeRow(df.rows[i], df.rows))))
  }

  /** A null income is replaced by its department's mean, and stays null without a department. */
  lemma FillIncomesMeaning(df: Frame, i: nat)
    requires WellFormed(df) && IncomeTyped(df.rows)
    requires TempDepartment !in df.columns && TempMean !in df.columns
    requires FillIncomes(df).Ok? && i < |df.rows| && df.rows[i][Revenue] == Null
    ensures var code := df.rows[i][CodeCommune];
      FillIncomes(df).value.rows[i][Revenue] ==
        (if code.Null? then Null else DepartmentMean(df.rows, DepartmentCode(code).s))
  {
  }

  /** Filling the incomes a second time changes nothing. */
  lemma FillIncomesIdempotent(df: Frame)
    requires WellFormed(df) && IncomeTyped(df.rows)
    requires TempDepartment !in df.columns && TempMean !in df.columns
    requires FillIncomes(df).Ok?
    ensures FillIncomes(FillIncomes(df).value) == FillIncomes(df)
  {
    var f := FillIncomes(df).value;
    forall i | 0 <= i < |f.rows|
      ensures IncomeRow(f.rows[i], f.rows) == f.rows[i]
    {
      var code := f.rows[i][CodeCommune];
      if f.rows[i][Revenue] == Null && code.Text? {
        var d := DepartmentCode(code).s;
        StillNoIncome(df.rows, f.rows, d);
      }
    }
    assert f.rows == seq(|f.rows|, i requires 0 <= i < |f.rows| => IncomeRow(f.rows[i], f.rows));
  }

  /** A department whose mean was null has no income after the fill either. */
  lemma StillNoIncome(rows: seq<Row>, filled: seq<Row>, d: string)
    requires IncomeTyped(rows) && |filled| == |rows|
    requires forall i :: 0 <= i < |rows| ==> CodeCommune in rows[i] && Revenue in rows[i]
    requires forall i :: 0 <= i < |rows| ==> filled[i] == IncomeRow(rows[i], rows)
    requires exists i :: 0 <= i < |rows| && InDepartment(filled[i], d) && Revenue in filled[i] && filled[i][Revenue] == Null
    ensures DepartmentMean(filled, d) == Null
  {
    var i :| 0 <= i < |rows| && InDepartment(filled[i], d) && Revenue in filled[i] && filled[i][Revenue] == Null;
    assert rows[i][Revenue] == Null && InDepartment(rows[i], d);
    assert DepartmentMean(rows, d) == Null;
    DepartmentMeanMeaning(rows, d, 0.0, 0.0);
    forall j | 0 <= j < |rows| && InDepartment(filled[j], d)
      ensures filled[j][Revenue] == Null
    {
      assert InDepartment(rows[j], d);
    }
    DepartmentMeanMeaning(filled, d, 0.0, 0.0);
  }

  // ---------------------------------------------------------------------
  // Missing household counts
  // ---------------------------------------------------------------------

  const Households: string := "nb_menages_2021_commune"
  const Estimated: string := "nb_menages_estime"

  /** The populations the table lists for a commune code, in table order. */
  function Matches(code: string, table: seq<(string, nat)>): (m: seq<nat>)
    ensures |m| <= |table|
  {
    if table == [] then []
    else (if table[0].0 == code then [table[0].1] else []) + Matches(code, table[1..])
  }

  /** With distinct codes a commune code matches at most one row, the one that holds it. */
  lemma {:induction false} AtMostOneMatch(code: string, table: seq<(string, nat)>)
    requires forall i, j :: 0 <= i < j < |table| ==> table[i].0 != table[j].0
    ensures |Matches(code, table)| <= 1
    ensures Matches(code, table) == [] <==> forall j :: 0 <= j < |table| ==> table[j].0 != code
    ensures forall j :: 0 <= j < |table| && table[j].0 == code ==> Matches(code, table) == [table[j].1]
  {
    if table != [] {
      var rest := table[1..];
      assert forall j :: 0 <= j < |rest| ==> rest[j] == table[j + 1];
      AtMostOneMatch(code, rest);
      if table[0].0 == code {
        assert forall j :: 0 <= j < |rest| ==> rest[j].0 != code;
      }
    }
  }

  /** The rows one left row gives in the left join with the table: one per match, or one with a null. */
  function JoinOne(row: Row): seq<Row>
    requires CodeCommune in row
  {
    var m := if row[CodeCommune].Text? then Matches(row[CodeCommune].s, HouseholdTable.PopulationTable) else [];
    if m == [] then [row[Estimated := Null]]
    else seq(|m|, k requires 0 <= k < |m| => row[Estimated := Int(HouseholdTable.Estimate(m[k]))])
  }

  /** polars' left join of the rows with the table on `code_commune`, in the left rows' order. */
  function LeftJoin(rows: seq<Row>): (out: seq<Row>)
    requires forall i :: 0 <= i < |rows| ==> CodeCommune in rows[i]
    ensures |rows| <= |out|
  {
    if rows == [] then [] else JoinOne(rows[0]) + LeftJoin(rows[1..])
  }

  /** The estimate the join attaches to a commune code: the table's, or a null. */
  function EstimateFor(code: Cell): Cell
  {
    var m := if code.Text? then Matches(code.s, HouseholdTable.PopulationTable) else [];
    if m == [] then Null else Int(HouseholdTable.Estimate(m[0]))
  }

  /**
   * Because the table's codes are distinct, the left join neither adds nor
   * drops a row: each row is kept in place, with its estimate attached.
   */
  lemma {:induction false} JoinKeepsRows(rows: seq<Row>)
    requires forall i :: 0 <= i < |rows| ==> CodeCommune in rows[i]
    ensures |LeftJoin(rows)| == |rows|
    ensures forall i :: 0 <= i < |rows| ==>
      LeftJoin(rows)[i] == rows[i][Estimated := EstimateFor(rows[i][CodeCommune])]
  {
    if rows != [] {
      JoinOneKeepsRow(rows[0]);
      JoinKeepsRows(rows[1..]);
      assert forall i :: 1 <= i < |rows| ==> rows[i] == rows[1..][i - 1];
    }
  }

  /** One left row gives exactly one joined row. */
  lemma JoinOneKeepsRow(row: Row)
    requires CodeCommune in row
    ensures JoinOne(row) == [row[Estimated := EstimateFor(row[CodeCommune])]]
  {
    HouseholdTable.PopulationTableDistinct();
    if row[CodeCommune].Text? {
      AtMostOneMatch(row[CodeCommune].s, HouseholdTable.PopulationTable);
    }
  }

  /**
   * The estimate of a commune code is the rounded population / 2.2 of its
   * table row, and a null for a code the table does not list.
   */
  lemma EstimateForMeaning(code: string)
    ensures forall j :: 0 <= j < |HouseholdTable.PopulationTable| && HouseholdTable.PopulationTable[j].0 == code ==>
      EstimateFor(Text(code)) == Int(HouseholdTable.Estimate(HouseholdTable.PopulationTable[j].1))
    ensures (forall j :: 0 <= j < |HouseholdTable.PopulationTable| ==> HouseholdTable.PopulationTable[j].0 != code) ==>
      EstimateFor(Text(code)) == Null
  {
    HouseholdTable.PopulationTableDistinct();
    AtMostOneMatch(code, HouseholdTable.PopulationTable);
  }

  /** The household count after the fill, with the estimate column dropped. */
  function HouseholdRow(row: Row): Row
    requires Households in row && Estimated in row
  {
    var filled := if row[Households] == Null then row[Estimated] else row[Households];
    row[Households := filled] - {Estimated}
  }

  /** The rows after the join, the fill and the drop. */
  function HouseholdRows(rows: seq<Row>): (out: seq<Row>)
    requires forall i :: 0 <= i < |rows| ==> CodeCommune in rows[i] && Households in rows[i]
    ensures |out| == |rows|
    ensures forall i :: 0 <= i < |rows| ==>
      out[i] == HouseholdRow(rows[i][Estimated := EstimateFor(rows[i][CodeCommune])])
  {
    JoinKeepsRows(rows);
    var joined := LeftJoin(rows);
    seq(|joined|, i requires 0 <= i < |joined| => HouseholdRow(joined[i]))
  }

  /**
   * reglage_null_nombre_menage_commune: the left join with the table, the
   * null counts replaced by the estimate, and the estimate column dropped. A
   * missing commune code or household column raises.
   */
  function FillHouseholds(df: Frame): (r: Result<Frame, FrameError>)
    requires WellFormed(df) && Estimated !in df.columns
    ensures r.Err? <==> CodeCommune !in df.columns || Households !in df.columns
    ensures r.Ok? ==> r.value.columns == df.columns && WellFormed(r.value) && |r.value.rows| == |df.rows|
    ensures r.Ok? ==> forall i, key :: 0 <= i < |df.rows| && key in df.rows[i] && key != Households ==>
      r.value.rows[i][key] == df.rows[i][key]
    ensures r.Ok? ==> forall i :: 0 <= i < |df.rows| ==>
      r.value.rows[i][Households] ==
        (if df.rows[i][Households] == Null then EstimateFor(df.rows[i][CodeCommune]) else df.rows[i][Households])
  {
    if CodeCommune !in df.columns then Err(ColumnNotFound(CodeCommune))
    else if Households !in df.columns then Err(ColumnNotFound(Households))
    else Ok(Frame(df.columns, HouseholdRows(df.rows)))
  }

  // ---------------------------------------------------------------------
  // reglage_null: sales only, then the three fills
  // ---------------------------------------------------------------------

  const NatureMutation: string := "nature_mutation"

  /** `pl.col('nature_mutation') == 'Vente'`; a null compares as null and the filter drops it. */
  predicate IsSale(row: Row)
  {
    NatureMutation in row && row[NatureMutation] == Text("Vente")
  }

  /** The sales of a frame, in order; a frame without the column raises. */
  function KeepSales(df: Frame): (r: Result<Frame, FrameError>)
    requires WellFormed(df)
    ensures r.Err? <==> NatureMutation !in df.columns
    ensures r.Ok? ==> r.value.columns == df.columns && WellFormed(r.value)
    ensures r.Ok? ==> forall row :: row in r.value.rows <==> row in df.rows && row[NatureMutation] == Text("Vente")
  {
    if NatureMutation !in df.columns then Err(ColumnNotFound(NatureMutation))
    else
      WhereWellFormed(df, IsSale);
      Ok(Frame(df.columns, Where(df.rows, IsSale)))
  }

  /** No indicator column is one of the columns the later fills read or write. */
  lemma IndicatorsAvoidFillColumns(k: nat)
    requires k < |ColumnDistance|
    ensures var miss := IndicatorNames(ColumnDistance)[k];
      miss !in {CodeCommune, Revenue, TempDepartment, TempMean, Households, Estimated, NatureMutation}
    ensures ColumnDistance[k] !in {CodeCommune, Revenue, TempDepartment, TempMean, Households, Estimated, NatureMutation}
  {
    SliceGivesCategory(k);
    NameLength(Config.AllCategories[k]);
    var col := ColumnDistance[k];
    assert |IndicatorNames(ColumnDistance)[k]| == |col| + 10 >= 28;
    assert col[0] == 'd';
  }

  /**
   * `r` is what the income and household fills make of some frame `d`
   * that the distance fill made of `s`.
   */
  ghost predicate CleanedFrom(s: Frame, r: Result<Frame, FrameError>)
  {
    exists d: Frame ::
      && Separate(ColumnDistance, IndicatorNames(ColumnDistance))
      && FrameFilledUpTo(s, d, ColumnDistance, IndicatorNames(ColumnDistance), |ColumnDistance|)
      && WellFormed(d) && IncomeTyped(d.rows)
      && TempDepartment !in d.columns && TempMean !in d.columns && Estimated !in d.columns
      && FillIncomes(d).Ok? && FillHouseholds(FillIncomes(d).value) == r
  }

  /**
   * reglage_null: keep the sales, fill the distances, then the incomes, then
   * the household counts. The first step that raises decides the error.
   */
  method CleanNulls(df: Frame) returns (r: Result<Frame, FrameError>)
    requires WellFormed(df) && IncomeTyped(df.rows)
    requires TempDepartment !in df.columns && TempMean !in df.columns && Estimated !in df.columns
    ensures r.Ok? ==> KeepSales(df).Ok? && |r.value.rows| == |KeepSales(df).value.rows|
    ensures r.Ok? ==> CleanedFrom(KeepSales(df).value, r)
    ensures r.Err? <==>
      || NatureMutation !in df.columns || CodeCommune !in df.columns || Revenue !in df.columns
      || Households !in df.columns
      || exists k :: 0 <= k < |ColumnDistance| && ColumnDistance[k] !in df.columns
  {
    var sales := KeepSales(df);
    if sales.Err? {
      return Err(sales.error);
    }
    var s := sales.value;
    assert IncomeTyped(s.rows) by {
      forall i | 0 <= i < |s.rows| ensures s.rows[i] in df.rows
      {
        assert s.rows[i] in s.rows;
      }
    }
    var filled := FillDistanceNulls(s);
    if filled.Err? {
      return Err(filled.error);
    }
    var d := filled.value;
    var miss := IndicatorNames(ColumnDistance);
    forall x | x in Added(miss, |ColumnDistance|)
      ensures x !in {CodeCommune, Revenue, TempDepartment, TempMean, Households, Estimated}
    {
      AddedMember(miss, |ColumnDistance|, x);
      var k :| 0 <= k < |ColumnDistance| && x == miss[k];
      IndicatorsAvoidFillColumns(k);
    }
    DistanceFillKeepsIncomeTypes(s, d);
    var incomes := FillIncomes(d);
    if incomes.Err? {
      return Err(incomes.error);
    }
    r := FillHouseholds(incomes.value);
  }

  /** The distance fill leaves the commune code and income columns as they were. */
  lemma DistanceFillKeepsIncomeTypes(s: Frame, d: Frame)
    requires WellFormed(s) && IncomeTyped(s.rows) && Separate(ColumnDistance, IndicatorNames(ColumnDistance))
    requires FrameFilledUpTo(s, d, ColumnDistance, IndicatorNames(ColumnDistance), |ColumnDistance|)
    requires forall x :: x in Added(IndicatorNames(ColumnDistance), |ColumnDistance|) ==> x != CodeCommune && x != Revenue
    ensures IncomeTyped(d.rows)
  {
    var miss := IndicatorNames(ColumnDistance);
    forall i | 0 <= i < |d.rows|
      ensures CodeCommune in d.rows[i] ==> CodeCommune in s.rows[i] && d.rows[i][CodeCommune] == s.rows[i][CodeCommune]
      ensures Revenue in d.rows[i] ==> Revenue in s.rows[i] && d.rows[i][Revenue] == s.rows[i][Revenue]
    {
      WrittenMember(ColumnDistance, miss, |ColumnDistance|, CodeCommune);
      WrittenMember(ColumnDistance, miss, |ColumnDistance|, Revenue);
      forall k | 0 <= k < |ColumnDistance|
        ensures ColumnDistance[k] != CodeCommune && ColumnDistance[k] != Revenue
        ensures miss[k] != CodeCommune && miss[k] != Revenue
      {
        IndicatorsAvoidFillColumns(k);
      }
    }
  }
}
