/**
 * premier_nettoyage_donnee (code_dvf/telechargement_valeur_fonciere.py):
 * the cleaning of each department's raw DVF table and the concatenation
 * of the results. Reading a department's CSV is an input: `None` stands
 * for a file polars finds empty (NoDataError). Text-to-float conversion
 * is a parameter.
 */
module FirstCleaning {
  import opened Wrappers
  import opened Frames
  import Config

  const DateMutation: string := "date_mutation"
  const Price: string := "valeur_fonciere"
  const NatureMutation: string := "nature_mutation"
  const TypeLocal: string := "type_local"
  const Latitude: string := "latitude"
  const Longitude: string := "longitude"
  const BuiltSurface: string := "surface_reelle_bati"
  const LandSurface: string := "surface_terrain"
  const BuiltPricePerM2: string := "prix_par_m2_habitable"
  const LandPricePerM2: string := "prix_par_m2_terrain"
  const YearMonthColumn: string := "annee_mois"
  const YearColumn: string := "annee"

  /** The three sale kinds the first filter keeps. */
  const SaleKinds: seq<string> := ["Vente", "Vente en l'état futur d'achèvement", "Vente terrain à bâtir"]

  // ---------------------------------------------------------------------
  // select(COLUMN_FINAL)
  // ---------------------------------------------------------------------

  /** The first listed name that is not a column. */
  function FirstMissing(names: seq<string>, columns: set<string>): (m: Option<string>)
    ensures m.None? <==> forall k :: 0 <= k < |names| ==> names[k] in columns
    ensures m.Some? ==> m.value in names && m.value !in columns
  {
    if names == [] then None
    else if names[0] !in columns then Some(names[0])
    else FirstMissing(names[1..], columns)
  }

  function Restrict(row: Row, keys: set<string>): (r: Row)
    ensures r.Keys == row.Keys * keys
    ensures forall k :: k in r ==> r[k] == row[k]
  {
    map k | k in row.Keys * keys :: row[k]
  }

  /** `select`: keep the named columns; naming an absent one raises. */
  function SelectColumns(df: Frame, names: seq<string>): (r: Result<Frame, FrameError>)
    requires WellFormed(df)
    ensures r.Err? <==> exists k :: 0 <= k < |names| && names[k] !in df.columns
    ensures r.Ok? ==> r.value.columns == (set n | n in names) && WellFormed(r.value)
    ensures r.Ok? ==> (|r.value.rows| == |df.rows| &&
      forall i, n :: 0 <= i < |df.rows| && n in names ==> r.value.rows[i][n] == df.rows[i][n])
  {
    match FirstMissing(names, df.columns)
    case Some(n) => Err(ColumnNotFound(n))
    case None =>
      var keys := set n | n in names;
      Ok(Frame(keys, seq(|df.rows|, i requires 0 <= i < |df.rows| => Restrict(df.rows[i], keys))))
  }

  // ---------------------------------------------------------------------
  // The four filters
  // ---------------------------------------------------------------------

  /** `is_in` the three sale kinds; a null is never in the list. */
  predicate IsSale(row: Row)
  {
    NatureMutation in row && row[NatureMutation].Text? && row[NatureMutation].s in SaleKinds
  }

  /** `fill_null("").is_in(["Appartement", "Maison"])`. */
  predicate IsHouseOrFlat(row: Row)
  {
    TypeLocal in row &&
    var t := if row[TypeLocal].Null? then "" else if row[TypeLocal].Text? then row[TypeLocal].s else "?";
    t == "Appartement" || t == "Maison"
  }

  predicate HasPrice(row: Row)
  {
    Price in row && row[Price] != Null
  }

  predicate HasPlace(row: Row)
  {
    Latitude in row && Longitude in row && row[Latitude] != Null && row[Longitude] != Null
  }

  /** The four `filter` calls, in the order of the source. */
  function FilterRows(rows: seq<Row>): (out: seq<Row>)
    ensures forall r :: r in out <==> r in rows && IsSale(r) && IsHouseOrFlat(r) && HasPrice(r) && HasPlace(r)
  {
    Where(Where(Where(Where(rows, IsSale), IsHouseOrFlat), HasPrice), HasPlace)
  }

  /** A null `type_local` is read as "" and so never kept. */
  lemma NullTypeIsDropped(row: Row)
    requires TypeLocal in row && row[TypeLocal] == Null
    ensures !IsHouseOrFlat(row)
  {
  }

  // ---------------------------------------------------------------------
  // The [^0-9.] sanitiser and the casts
  // ---------------------------------------------------------------------

  predicate IsNumberChar(c: char)
  {
    ('0' <= c <= '9') || c == '.'
  }

  predicate AllNumberChars(s: string)
  {
    forall i :: 0 <= i < |s| ==> IsNumberChar(s[i])
  }

  /** `str.replace_all(r"[^0-9.]", repl)`: every other character becomes `repl`. */
  function Sanitize(s: string, repl: string): (t: string)
    ensures AllNumberChars(repl) ==> AllNumberChars(t)
    ensures AllNumberChars(s) ==> t == s
  {
    if s == [] then []
    else (if IsNumberChar(s[0]) then [s[0]] else repl) + Sanitize(s[1..], repl)
  }

  /** How many characters the sanitiser replaces. */
  function Replaced(s: string): nat
  {
    if s == [] then 0 else (if IsNumberChar(s[0]) then 0 else 1) + Replaced(s[1..])
  }

  /** Each replaced character adds `|repl| - 1` characters. */
  lemma {:induction false} SanitizeLength(s: string, repl: string)
    ensures |Sanitize(s, repl)| + Replaced(s) == |s| + Replaced(s) * |repl|
  {
    if s != [] {
      var t := s[1..];
      SanitizeLength(t, repl);
      var n := Replaced(t);
      var m := |repl|;
      if !IsNumberChar(s[0]) {
        assert Replaced(s) == n + 1;
        assert |Sanitize(s, repl)| == m + |Sanitize(t, repl)|;
        MulSucc(n, m);
      } else {
        assert Replaced(s) == n;
        assert |Sanitize(s, repl)| == 1 + |Sanitize(t, repl)|;
      }
    }
  }

  lemma MulSucc(n: int, m: int)
    ensures (n + 1) * m == n * m + m
  {
  }

  /** Sanitising works character by character, so it distributes over concatenation. */
  lemma {:induction false} SanitizeAppend(a: string, b: string, repl: string)
    ensures Sanitize(a + b, repl) == Sanitize(a, repl) + Sanitize(b, repl)
  {
    if a == [] {
      assert a + b == b;
    } else {
      assert (a + b)[1..] == a[1..] + b;
      SanitizeAppend(a[1..], b, repl);
    }
  }

  /** With the replacements of the source, sanitising twice is sanitising once. */
  lemma SanitizeIdempotent(s: string)
    ensures Sanitize(Sanitize(s, "0.00001"), "0.00001") == Sanitize(s, "0.00001")
    ensures Sanitize(Sanitize(s, "0"), "0") == Sanitize(s, "0")
  {
    assert AllNumberChars("0.00001");
    assert AllNumberChars("0");
  }

  /**
   * One column cast: a null stays null, a string is sanitised and parsed,
   * and a string `parse` rejects makes the strict cast raise.
   */
  function CastNumber(c: Cell, repl: string, parse: string -> Option<real>): (x: Option<Cell>)
    ensures c.Null? ==> x == Some(Null)
    ensures x.Some? && c.Text? ==> x.value.Num? && Some(x.value.r) == parse(Sanitize(c.s, repl))
  {
    match c
    case Null => Some(Null)
    case Text(s) => (match parse(Sanitize(s, repl)) case Some(v) => Some(Num(v)) case None => None)
    case _ => None
  }

  // ---------------------------------------------------------------------
  // strptime("%Y-%m-%d") and the derived columns
  // ---------------------------------------------------------------------

  predicate IsDigit(c: char)
  {
    '0' <= c <= '9'
  }

  function DigitValue(c: char): (n: nat)
    requires IsDigit(c)
    ensures n < 10
  {
    c as int - '0' as int
  }

  function DigitChar(n: nat): (c: char)
    requires n < 10
    ensures IsDigit(c) && DigitValue(c) == n
  {
    ('0' as int + n) as char
  }

  /** The value of a string of decimal digits. */
  function Digits(s: string): (n: nat)
    requires forall i :: 0 <= i < |s| ==> IsDigit(s[i])
  {
    if s == [] then 0 else Digits(s[..|s| - 1]) * 10 + DigitValue(s[|s| - 1])
  }

  /** `n` written with exactly `w` digits, zero-padded (the last `w` digits when longer). */
  function Padded(n: nat, w: nat): (s: string)
    ensures |s| == w && forall i :: 0 <= i < w ==> IsDigit(s[i])
  {
    if w == 0 then [] else Padded(n / 10, w - 1) + [DigitChar(n % 10)]
  }

  lemma {:induction false} DigitsOfPadded(n: nat, w: nat)
    requires n < Pow10(w)
    ensures Digits(Padded(n, w)) == n
  {
    if w > 0 {
      var s := Padded(n, w);
      assert s[..|s| - 1] == Padded(n / 10, w - 1);
      DigitsOfPadded(n / 10, w - 1);
    }
  }

  lemma {:induction false} PaddedOfDigits(s: string)
    requires forall i :: 0 <= i < |s| ==> IsDigit(s[i])
    ensures Digits(s) < Pow10(|s|) && Padded(Digits(s), |s|) == s
  {
    if s != [] {
      var init := s[..|s| - 1];
      PaddedOfDigits(init);
      var a, v := Digits(init), DigitValue(s[|s| - 1]);
      AppendDigit(a, v, Pow10(|init|));
      assert DigitChar(v) == s[|s| - 1];
      assert s == init + [s[|s| - 1]];
    }
  }

  /** Appending digit `v` to `a` is undone by `/ 10` and `% 10`, and keeps `a` below the next power. */
  lemma AppendDigit(a: nat, v: nat, p: nat)
    requires v < 10 && a < p
    ensures (a * 10 + v) / 10 == a && (a * 10 + v) % 10 == v && a * 10 + v < 10 * p
  {
  }

  function Pow10(w: nat): (p: nat)
    ensures p >= 1
  {
    if w == 0 then 1 else 10 * Pow10(w - 1)
  }

  predicate IsLeapYear(y: int)
  {
    (y % 4 == 0 && y % 100 != 0) || y % 400 == 0
  }

  function DaysInMonth(y: int, m: int): (n: int)
    requires 1 <= m <= 12
    ensures 28 <= n <= 31
  {
    if m == 2 then (if IsLeapYear(y) then 29 else 28)
    else if m == 4 || m == 6 || m == 9 || m == 11 then 30
    else 31
  }

  /** A calendar date with a four-digit year. */
  predicate ValidDate(d: Date)
  {
    0 <= d.year <= 9999 && 1 <= d.month <= 12 && 1 <= d.day <= DaysInMonth(d.year, d.month)
  }

  /** The `%Y-%m-%d` text of a date. */
  function FormatDate(d: Date): (s: string)
    requires ValidDate(d)
    ensures |s| == 10 && s[4] == '-' && s[7] == '-'
  {
    Padded(d.year, 4) + "-" + Padded(d.month, 2) + "-" + Padded(d.day, 2)
  }

  /** The shape `DDDD-DD-DD`. */
  predicate DateShaped(s: string)
  {
    && |s| == 10 && s[4] == '-' && s[7] == '-'
    && (forall i :: 0 <= i < 4 ==> IsDigit(s[i]))
    && IsDigit(s[5]) && IsDigit(s[6]) && IsDigit(s[8]) && IsDigit(s[9])
  }

  /** `strptime(pl.Date, "%Y-%m-%d")`, strict: a text that is not a calendar date fails. */
  function ParseDate(s: string): (d: Option<Date>)
    ensures d.Some? ==> ValidDate(d.value) && DateShaped(s)
  {
    if !DateShaped(s) then None
    else
      var d := Date(Digits(s[..4]), Digits(s[5..7]), Digits(s[8..]));
      if ValidDate(d) then Some(d) else None
  }

  /** Parsing undoes formatting ... */
  lemma ParseFormat(d: Date)
    requires ValidDate(d)
    ensures ParseDate(FormatDate(d)) == Some(d)
  {
    var s := FormatDate(d);
    assert s[..4] == Padded(d.year, 4);
    assert s[5..7] == Padded(d.month, 2);
    assert s[8..] == Padded(d.day, 2);
    DigitsOfPadded(d.year, 4);
    DigitsOfPadded(d.month, 2);
    DigitsOfPadded(d.day, 2);
  }

  /** ... and formatting undoes parsing, so a parsed text is exactly the date's text. */
  lemma FormatParse(s: string)
    requires ParseDate(s).Some?
    ensures FormatDate(ParseDate(s).value) == s
  {
    PaddedOfDigits(s[..4]);
    PaddedOfDigits(s[5..7]);
    PaddedOfDigits(s[8..]);
    var t := FormatDate(ParseDate(s).value);
    assert t == s[..4] + "-" + s[5..7] + "-" + s[8..];
    assert s == s[..4] + "-" + s[5..7] + "-" + s[8..];
  }

  function CastDate(c: Cell): (x: Option<Cell>)
    ensures c.Null? ==> x == Some(Null)
    ensures x.Some? && c.Text? ==> x.value.Day? && ParseDate(c.s) == Some(x.value.d)
    ensures x.Some? && x.value.Day? ==> ValidDate(x.value.d)
  {
    match c
    case Null => Some(Null)
    case Text(s) => (match ParseDate(s) case Some(d) => Some(Day(d)) case None => None)
    case _ => None
  }

  /** `dt.strftime("%Y-%m")` of a date. */
  function YearMonth(d: Date): (s: string)
    requires ValidDate(d)
    ensures |s| == 7
  {
    FormatDate(d)[..7]
  }

  /** `annee_mois` is the first seven characters of the original text and `annee` the value of its first four digits. */
  lemma YearColumnsFromText(s: string)
    requires ParseDate(s).Some?
    ensures YearMonth(ParseDate(s).value) == s[..7]
    ensures ParseDate(s).value.year == Digits(s[..4])
  {
    FormatParse(s);
  }

  /** A converted row has a parsed date or a null there. */
  predicate DateParsed(row: Row)
  {
    DateMutation in row && (row[DateMutation].Day? ==> ValidDate(row[DateMutation].d))
  }

  /** The two derived columns of a row whose date has been parsed. */
  function AddYearColumns(row: Row): (r: Row)
    requires DateParsed(row)
    ensures r.Keys == row.Keys + {YearMonthColumn, YearColumn}
  {
    var c := row[DateMutation];
    row[YearMonthColumn := if c.Day? then Text(YearMonth(c.d)) else Null]
       [YearColumn := if c.Day? then Int(c.d.year) else Null]
  }

  // ---------------------------------------------------------------------
  // The price per square metre
  // ---------------------------------------------------------------------

  /**
   * polars' Float64 division of two cells: a null operand gives a null; a
   * zero divisor gives NaN for a zero dividend and an infinity of the
   * dividend's sign otherwise. After the casts only floats and nulls reach
   * it; any other operand is treated as NaN.
   */
  function Divide(a: Cell, b: Cell): (q: Cell)
    ensures a.Null? || b.Null? ==> q.Null?
    ensures a.Num? && b.Num? ==> (q.Num? <==> b.r != 0.0)
    ensures q.Num? ==> a.Num? && b.Num? && q.r * b.r == a.r
    ensures q.Inf? ==> a.Num? && b == Num(0.0) && q.negative == (a.r < 0.0)
  {
    if a.Null? || b.Null? then Null
    else if !(a.Num? && b.Num?) then NaN
    else if b.r != 0.0 then Num(a.r / b.r)
    else if a.r == 0.0 then NaN
    else Inf(a.r < 0.0)
  }

  /** `prix_par_m2_habitable` and `prix_par_m2_terrain`: the price over each surface. */
  function AddPriceColumns(row: Row): (r: Row)
    ensures r.Keys == row.Keys + {BuiltPricePerM2, LandPricePerM2}
    ensures forall k :: k in row && k != BuiltPricePerM2 && k != LandPricePerM2 ==> r[k] == row[k]
    ensures r[BuiltPricePerM2] == Divide(Get(row, Price), Get(row, BuiltSurface))
    ensures r[LandPricePerM2] == Divide(Get(row, Price), Get(row, LandSurface))
  {
    row[BuiltPricePerM2 := Divide(Get(row, Price), Get(row, BuiltSurface))]
       [LandPricePerM2 := Divide(Get(row, Price), Get(row, LandSurface))]
  }

  /**
   * A flat's land surface is usually null: its land price per square metre
   * is then null too, while a positive built surface gives the price over it.
   */
  lemma PricePerM2OfCleanRow(o: Row)
    requires CleanRow(o)
    ensures o[LandSurface].Null? ==> o[LandPricePerM2] == Null
    ensures o[BuiltSurface].Num? && o[BuiltSurface].r > 0.0 ==>
      o[BuiltPricePerM2] == Num(o[Price].r / o[BuiltSurface].r)
    ensures o[BuiltSurface].Num? && o[BuiltSurface].r == 0.0 && o[Price].r > 0.0 ==> o[BuiltPricePerM2] == Inf(false)
  {
  }

  // ---------------------------------------------------------------------
  // unique(subset=[...])
  // ---------------------------------------------------------------------

  function Get(row: Row, k: string): Cell
  {
    if k in row then row[k] else Null
  }

  /** The five columns `unique` compares. */
  function Key(row: Row): (Cell, Cell, Cell, Cell, Cell)
  {
    (Get(row, DateMutation), Get(row, Longitude), Get(row, Latitude), Get(row, Price), Get(row, LandSurface))
  }

  /** Some row of `u` has key `k`. */
  predicate HasKey(u: seq<Row>, k: (Cell, Cell, Cell, Cell, Cell))
  {
    exists i :: 0 <= i < |u| && Key(u[i]) == k
  }

  /**
   * `unique` on the key columns: one row per key. polars keeps any
   * representative in any order; the model keeps first occurrences.
   */
  function UniqueBy(rows: seq<Row>): (out: seq<Row>)
    ensures |out| <= |rows|
  {
    if rows == [] then []
    else
      var u := UniqueBy(rows[..|rows| - 1]);
      var last := rows[|rows| - 1];
      if HasKey(u, Key(last)) then u else u + [last]
  }

  /** Every kept row is an input row. */
  lemma {:induction false} UniqueBySubset(rows: seq<Row>)
    ensures forall i :: 0 <= i < |UniqueBy(rows)| ==> UniqueBy(rows)[i] in rows
  {
    if rows != [] {
      var init := rows[..|rows| - 1];
      UniqueBySubset(init);
      assert forall r :: r in init ==> r in rows;
    }
  }

  /** No two kept rows share a key. */
  lemma {:induction false} UniqueByDistinctKeys(rows: seq<Row>)
    ensures forall i, j :: 0 <= i < j < |UniqueBy(rows)| ==> Key(UniqueBy(rows)[i]) != Key(UniqueBy(rows)[j])
  {
    if rows != [] {
      UniqueByDistinctKeys(rows[..|rows| - 1]);
    }
  }

  /** Every input key is kept. */
  lemma {:induction false} UniqueByComplete(rows: seq<Row>)
    ensures forall i :: 0 <= i < |rows| ==> HasKey(UniqueBy(rows), Key(rows[i]))
  {
    if rows != [] {
      var init := rows[..|rows| - 1];
      var last := rows[|rows| - 1];
      UniqueByComplete(init);
      var u := UniqueBy(init);
      var out := UniqueBy(rows);
      forall i | 0 <= i < |rows|
        ensures HasKey(out, Key(rows[i]))
      {
        if i < |init| {
          assert rows[i] == init[i];
          var j :| 0 <= j < |u| && Key(u[j]) == Key(init[i]);
          assert out[j] == u[j];
        } else if !HasKey(u, Key(last)) {
          assert out[|u|] == last;
        }
      }
    }
  }

  lemma UniqueBySpec(rows: seq<Row>)
    ensures forall i :: 0 <= i < |UniqueBy(rows)| ==> UniqueBy(rows)[i] in rows
    ensures forall i, j :: 0 <= i < j < |UniqueBy(rows)| ==> Key(UniqueBy(rows)[i]) != Key(UniqueBy(rows)[j])
    ensures forall i :: 0 <= i < |rows| ==> HasKey(UniqueBy(rows), Key(rows[i]))
  {
    UniqueBySubset(rows);
    UniqueByDistinctKeys(rows);
    UniqueByComplete(rows);
  }

  /** Rows whose keys are already distinct pass unchanged, so `unique` is idempotent. */
  lemma {:induction false} UniqueByDistinct(rows: seq<Row>)
    requires forall i, j :: 0 <= i < j < |rows| ==> Key(rows[i]) != Key(rows[j])
    ensures UniqueBy(rows) == rows
  {
    if rows != [] {
      var init := rows[..|rows| - 1];
      UniqueByDistinct(init);
      assert !HasKey(init, Key(rows[|rows| - 1]));
      assert init + [rows[|rows| - 1]] == rows;
    }
  }

  lemma UniqueByIdempotent(rows: seq<Row>)
    ensures UniqueBy(UniqueBy(rows)) == UniqueBy(rows)
  {
    UniqueBySpec(rows);
    UniqueByDistinct(UniqueBy(rows));
  }

  // ---------------------------------------------------------------------
  // One department, then all of them
  // ---------------------------------------------------------------------

  /** The columns of every cleaned department. */
  function CleanedColumns(): set<string>
  {
    (set n | n in Config.ColumnFinal) + {YearMonthColumn, YearColumn, BuiltPricePerM2, LandPricePerM2}
  }

  lemma KeptColumns()
    ensures forall n ::
      (n in [DateMutation, Price, NatureMutation, TypeLocal, Latitude, Longitude, BuiltSurface, LandSurface])
      ==> n in Config.ColumnFinal
  {
  }

  predicate HasCastColumns(row: Row)
  {
    BuiltSurface in row && LandSurface in row && Price in row && DateMutation in row
  }

  /** The four casts of `with_columns` on one row; the first that fails raises. */
  function ConvertRow(row: Row, parse: string -> Option<real>): (r: Result<Row, FrameError>)
    requires HasCastColumns(row)
    ensures r.Ok? ==> r.value.Keys == row.Keys
    ensures r.Ok? ==> forall k :: k in row && k !in {BuiltSurface, LandSurface, Price, DateMutation} ==> r.value[k] == row[k]
    ensures r.Err? <==>
      || CastNumber(row[BuiltSurface], "0.00001", parse).None? || CastNumber(row[LandSurface], "0.00001", parse).None?
      || CastNumber(row[Price], "0", parse).None? || CastDate(row[DateMutation]).None?
    ensures r.Ok? ==> (&& Some(r.value[BuiltSurface]) == CastNumber(row[BuiltSurface], "0.00001", parse)
      && Some(r.value[LandSurface]) == CastNumber(row[LandSurface], "0.00001", parse)
      && Some(r.value[Price]) == CastNumber(row[Price], "0", parse)
      && Some(r.value[DateMutation]) == CastDate(row[DateMutation]))
  {
    match (CastNumber(row[BuiltSurface], "0.00001", parse), CastNumber(row[LandSurface], "0.00001", parse),
           CastNumber(row[Price], "0", parse), CastDate(row[DateMutation]))
    case (None, _, _, _) => Err(CastFailed(BuiltSurface))
    case (_, None, _, _) => Err(CastFailed(LandSurface))
    case (_, _, None, _) => Err(CastFailed(Price))
    case (_, _, _, None) => Err(CastFailed(DateMutation))
    case (Some(b), Some(l), Some(v), Some(d)) =>
      Ok(row[BuiltSurface := b][LandSurface := l][Price := v][DateMutation := d])
  }

  /** The casts on every row; the first row that fails raises. */
  function ConvertRows(rows: seq<Row>, parse: string -> Option<real>): (r: Result<seq<Row>, FrameError>)
    requires forall i :: 0 <= i < |rows| ==> HasCastColumns(rows[i])
    ensures r.Err? <==> exists i :: 0 <= i < |rows| && ConvertRow(rows[i], parse).Err?
    ensures r.Ok? ==> (|r.value| == |rows| &&
      forall i :: 0 <= i < |rows| ==> ConvertRow(rows[i], parse).Ok? && r.value[i] == ConvertRow(rows[i], parse).value)
  {
    if rows == [] then Ok([])
    else match ConvertRow(rows[0], parse)
      case Err(e) => Err(e)
      case Ok(x) =>
        match ConvertRows(rows[1..], parse)
        case Err(e) =>
          assert exists i :: 0 <= i < |rows[1..]| && ConvertRow(rows[1..][i], parse).Err?;
          Err(e)
        case Ok(rest) =>
          assert forall i :: 1 <= i < |rows| ==> rows[1..][i - 1] == rows[i];
          Ok([x] + rest)
  }

  function DatedRows(rows: seq<Row>): (out: seq<Row>)
    requires forall i :: 0 <= i < |rows| ==> DateParsed(rows[i])
    ensures |out| == |rows| && forall i :: 0 <= i < |rows| ==> out[i] == AddPriceColumns(AddYearColumns(rows[i]))
  {
    seq(|rows|, i requires 0 <= i < |rows| => AddPriceColumns(AddYearColumns(rows[i])))
  }

  /** A cast row has a parsed date. */
  lemma ConvertedRowDated(row: Row, parse: string -> Option<real>)
    requires HasCastColumns(row) && ConvertRow(row, parse).Ok?
    ensures DateParsed(ConvertRow(row, parse).value)
  {
  }

  /** Filter, cast, derive the year columns, drop duplicates. */
  function CleanRows(rows: seq<Row>, parse: string -> Option<real>): (r: Result<seq<Row>, FrameError>)
    requires forall i :: 0 <= i < |rows| ==> HasCastColumns(rows[i])
    ensures r.Ok? ==> |r.value| <= |rows|
  {
    var kept := FilterRows(rows);
    assert forall i :: 0 <= i < |kept| ==> HasCastColumns(kept[i]) by {
      forall i | 0 <= i < |kept| ensures HasCastColumns(kept[i]) {
        assert kept[i] in rows;
      }
    }
    match ConvertRows(kept, parse)
    case Err(e) => Err(e)
    case Ok(conv) =>
      assert forall i :: 0 <= i < |conv| ==> DateParsed(conv[i]) by {
        forall i | 0 <= i < |conv| ensures DateParsed(conv[i]) {
          ConvertedRowDated(kept[i], parse);
        }
      }
      Ok(UniqueBy(DatedRows(conv)))
  }

  /** The cleaning of a department raises exactly when a cast fails on one of the rows the filters keep. */
  lemma CleanRowsFails(rows: seq<Row>, parse: string -> Option<real>)
    requires forall i :: 0 <= i < |rows| ==> HasCastColumns(rows[i])
    ensures forall i :: 0 <= i < |FilterRows(rows)| ==> HasCastColumns(FilterRows(rows)[i])
    ensures CleanRows(rows, parse).Err? <==>
      exists i :: 0 <= i < |FilterRows(rows)| && ConvertRow(FilterRows(rows)[i], parse).Err?
  {
    var kept := FilterRows(rows);
    forall i | 0 <= i < |kept| ensures HasCastColumns(kept[i]) {
      assert kept[i] in rows;
    }
  }

  /** The selected columns include every column the cleaning reads or casts. */
  lemma SelectedRowsCanBeCast(sel: Frame)
    requires WellFormed(sel) && sel.columns == set n | n in Config.ColumnFinal
    ensures forall i :: 0 <= i < |sel.rows| ==> HasCastColumns(sel.rows[i])
  {
    KeptColumns();
  }

  /** The cleaning of one department frame, step by step as in the source. */
  function CleanDepartment(raw: Frame, parse: string -> Option<real>): (r: Result<Frame, FrameError>)
    requires WellFormed(raw)
    ensures r.Ok? ==> r.value.columns == CleanedColumns()
  {
    match SelectColumns(raw, Config.ColumnFinal)
    case Err(e) => Err(e)
    case Ok(sel) =>
      SelectedRowsCanBeCast(sel);
      match CleanRows(sel.rows, parse)
      case Err(e) => Err(e)
      case Ok(rows) => Ok(Frame(CleanedColumns(), rows))
  }

  /**
   * A cleaned row: a sale of a house or a flat with a price, a latitude and
   * a longitude, whose year columns agree with its date.
   */
  predicate CleanRow(o: Row)
  {
    && IsSale(o) && IsHouseOrFlat(o) && HasPlace(o) && Price in o && o[Price].Num?
    && DateMutation in o && YearMonthColumn in o && YearColumn in o
    && (o[DateMutation].Day? ==> o[YearColumn] == Int(o[DateMutation].d.year) && o[YearMonthColumn].Text?)
    && (o[DateMutation].Null? ==> o[YearMonthColumn] == Null && o[YearColumn] == Null)
    && BuiltSurface in o && LandSurface in o && BuiltPricePerM2 in o && LandPricePerM2 in o
    && o[BuiltPricePerM2] == Divide(o[Price], o[BuiltSurface])
    && o[LandPricePerM2] == Divide(o[Price], o[LandSurface])
  }

  /** What one kept, cast row looks like once the year columns are added. */
  lemma CleanedRowShape(row: Row, parse: string -> Option<real>)
    requires HasCastColumns(row) && IsSale(row) && IsHouseOrFlat(row) && HasPrice(row) && HasPlace(row)
    requires ConvertRow(row, parse).Ok?
    ensures DateParsed(ConvertRow(row, parse).value)
    ensures CleanRow(AddPriceColumns(AddYearColumns(ConvertRow(row, parse).value)))
  {
    var y := AddYearColumns(ConvertRow(row, parse).value);
    assert IsSale(y) && IsHouseOrFlat(y) && HasPlace(y) && y[Price].Num?;
    assert BuiltSurface in y && LandSurface in y;
    PriceColumnsKeepShape(y);
  }

  /** The price columns leave the rest of a dated row as it was. */
  lemma PriceColumnsKeepShape(y: Row)
    requires IsSale(y) && IsHouseOrFlat(y) && HasPlace(y) && Price in y && y[Price].Num?
    requires DateMutation in y && YearMonthColumn in y && YearColumn in y
    requires y[DateMutation].Day? ==> y[YearColumn] == Int(y[DateMutation].d.year) && y[YearMonthColumn].Text?
    requires y[DateMutation].Null? ==> y[YearMonthColumn] == Null && y[YearColumn] == Null
    requires BuiltSurface in y && LandSurface in y
    ensures CleanRow(AddPriceColumns(y))
  {
    var o := AddPriceColumns(y);
    assert o[NatureMutation] == y[NatureMutation] && o[TypeLocal] == y[TypeLocal];
    assert o[Latitude] == y[Latitude] && o[Longitude] == y[Longitude];
    assert o[Price] == y[Price] && o[DateMutation] == y[DateMutation];
    assert o[YearColumn] == y[YearColumn] && o[YearMonthColumn] == y[YearMonthColumn];
    assert o[BuiltSurface] == y[BuiltSurface] && o[LandSurface] == y[LandSurface];
  }

  /** The rows of the converted frame, each from a kept row. */
  lemma CleanRowsOrigin(rows: seq<Row>, parse: string -> Option<real>, i: nat)
    requires forall i :: 0 <= i < |rows| ==> HasCastColumns(rows[i])
    requires CleanRows(rows, parse).Ok? && i < |CleanRows(rows, parse).value|
    ensures exists row ::
      (&& row in rows && HasCastColumns(row) && IsSale(row) && IsHouseOrFlat(row) && HasPrice(row)
       && HasPlace(row) && ConvertRow(row, parse).Ok?
       && CleanRows(rows, parse).value[i] == AddPriceColumns(AddYearColumns(ConvertRow(row, parse).value)))
  {
    var kept := FilterRows(rows);
    forall k | 0 <= k < |kept| ensures HasCastColumns(kept[k]) {
      assert kept[k] in rows;
    }
    var conv := ConvertRows(kept, parse).value;
    var dated := DatedRows(conv);
    assert CleanRows(rows, parse).value == UniqueBy(dated);
    UniqueBySubset(dated);
    var j :| 0 <= j < |dated| && dated[j] == CleanRows(rows, parse).value[i];
    DatedRowOrigin(kept, parse, j);
    var row := kept[j];
    assert row in kept;
    assert row in rows && IsSale(row) && IsHouseOrFlat(row) && HasPrice(row) && HasPlace(row);
  }

  /** Row j of the derived rows comes from the kept row j. */
  lemma DatedRowOrigin(kept: seq<Row>, parse: string -> Option<real>, j: nat)
    requires forall k :: 0 <= k < |kept| ==> HasCastColumns(kept[k])
    requires ConvertRows(kept, parse).Ok? && j < |kept|
    ensures ConvertRow(kept[j], parse).Ok?
    ensures DatedRows(ConvertRows(kept, parse).value)[j] == AddPriceColumns(AddYearColumns(ConvertRow(kept[j], parse).value))
  {
    ConvertedRowDated(kept[j], parse);
  }

  /** Every cleaned row is a CleanRow, and no two cleaned rows share the five key columns. */
  lemma CleanRowsMeaning(rows: seq<Row>, parse: string -> Option<real>)
    requires forall i :: 0 <= i < |rows| ==> HasCastColumns(rows[i])
    requires CleanRows(rows, parse).Ok?
    ensures |CleanRows(rows, parse).value| <= |rows|
    ensures forall i, j :: 0 <= i < j < |CleanRows(rows, parse).value| ==>
      Key(CleanRows(rows, parse).value[i]) != Key(CleanRows(rows, parse).value[j])
    ensures forall i :: 0 <= i < |CleanRows(rows, parse).value| ==> CleanRow(CleanRows(rows, parse).value[i])
  {
    var out := CleanRows(rows, parse).value;
    UniqueByDistinctKeys(DatedRows(ConvertRows(FilterRows(rows), parse).value));
    forall i | 0 <= i < |out|
      ensures CleanRow(out[i])
    {
      CleanRowsOrigin(rows, parse, i);
      var row :| row in rows && HasCastColumns(row) && IsSale(row) && IsHouseOrFlat(row) && HasPrice(row)
        && HasPlace(row) && ConvertRow(row, parse).Ok? && out[i] == AddPriceColumns(AddYearColumns(ConvertRow(row, parse).value));
      CleanedRowShape(row, parse);
    }
  }

  // ---------------------------------------------------------------------
  // The loop over departments and pl.concat
  // ---------------------------------------------------------------------

  /** The departments whose CSV had data, in department order. */
  function Present(deps: seq<Option<Frame>>): (fs: seq<Frame>)
    ensures |fs| <= |deps|
  {
    if deps == [] then []
    else Present(deps[..|deps| - 1]) + (match deps[|deps| - 1] case None => [] case Some(f) => [f])
  }

  /** `clean` accepts every department that has data. */
  ghost predicate Cleanable(deps: seq<Option<Frame>>, clean: Frame --> Result<Frame, FrameError>)
  {
    forall i :: 0 <= i < |deps| && deps[i].Some? ==> clean.requires(deps[i].value)
  }

  /** The frames appended to `liste_data_frame`; the first department that raises aborts. */
  ghost function Cleaned(deps: seq<Option<Frame>>, clean: Frame --> Result<Frame, FrameError>): (r: Result<seq<Frame>, FrameError>)
    requires Cleanable(deps, clean)
    ensures r.Ok? ==> |r.value| <= |deps|
  {
    if deps == [] then Ok([])
    else
      var init := deps[..|deps| - 1];
      assert Cleanable(init, clean) by {
        forall i | 0 <= i < |init| && init[i].Some? ensures clean.requires(init[i].value) {
          assert init[i] == deps[i];
        }
      }
      match Cleaned(init, clean)
      case Err(e) => Err(e)
      case Ok(fs) =>
        match deps[|deps| - 1]
        case None => Ok(fs)
        case Some(df) =>
          match clean(df)
          case Err(e) => Err(e)
          case Ok(f) => Ok(fs + [f])
  }

  function Rows(fs: seq<Frame>): seq<Row>
  {
    if fs == [] then [] else Rows(fs[..|fs| - 1]) + fs[|fs| - 1].rows
  }

  /** `pl.concat`: the rows of every frame in turn; an empty list raises. */
  function Concat(fs: seq<Frame>): (r: Result<Frame, FrameError>)
    ensures r.Err? <==> fs == []
  {
    if fs == [] then Err(NothingToConcat) else Ok(Frame(fs[0].columns, Rows(fs)))
  }

  lemma PresentCleanable(deps: seq<Option<Frame>>, clean: Frame --> Result<Frame, FrameError>)
    requires Cleanable(deps, clean)
    ensures forall k :: 0 <= k < |Present(deps)| ==> clean.requires(Present(deps)[k])
  {
    forall k | 0 <= k < |Present(deps)|
      ensures clean.requires(Present(deps)[k])
    {
      PresentFrom(deps, k);
    }
  }

  lemma {:induction false} PresentFrom(deps: seq<Option<Frame>>, k: nat)
    requires k < |Present(deps)|
    ensures exists i :: 0 <= i < |deps| && deps[i] == Some(Present(deps)[k])
  {
    var init := deps[..|deps| - 1];
    if k < |Present(init)| {
      PresentFrom(init, k);
      var i :| 0 <= i < |init| && init[i] == Some(Present(init)[k]);
      assert deps[i] == init[i];
    } else {
      assert deps[|deps| - 1] == Some(Present(deps)[k]);
    }
  }

  /**
   * Cleaning the departments is cleaning each department that has data, in
   * order: a NoDataError department contributes nothing and any other
   * failure raises.
   */
  lemma {:induction false} CleanedIsPerDepartment(deps: seq<Option<Frame>>, clean: Frame --> Result<Frame, FrameError>)
    requires Cleanable(deps, clean)
    ensures forall k :: 0 <= k < |Present(deps)| ==> clean.requires(Present(deps)[k])
    ensures Cleaned(deps, clean).Err? <==> exists k :: 0 <= k < |Present(deps)| && clean(Present(deps)[k]).Err?
    ensures Cleaned(deps, clean).Ok? ==>
      && |Cleaned(deps, clean).value| == |Present(deps)|
      && forall k :: 0 <= k < |Present(deps)| ==> Cleaned(deps, clean).value[k] == clean(Present(deps)[k]).value
  {
    PresentCleanable(deps, clean);
    if deps != [] {
      var init := deps[..|deps| - 1];
      assert Cleanable(init, clean) by {
        forall i | 0 <= i < |init| && init[i].Some? ensures clean.requires(init[i].value) {
          assert init[i] == deps[i];
        }
      }
      CleanedIsPerDepartment(init, clean);
      var p := Present(init);
      match deps[|deps| - 1]
      case None =>
        assert Present(deps) == p;
      case Some(df) =>
        assert Present(deps) == p + [df];
        assert forall k :: 0 <= k < |p| ==> Present(deps)[k] == p[k];
        assert Present(deps)[|p|] == df;
    }
  }

  /** Once a prefix of the departments raises, the whole loop raises the same error. */
  lemma {:induction false} CleanedPrefixError(deps: seq<Option<Frame>>, clean: Frame --> Result<Frame, FrameError>, i: nat)
    requires Cleanable(deps, clean) && i <= |deps| && Cleanable(deps[..i], clean) && Cleaned(deps[..i], clean).Err?
    ensures Cleaned(deps, clean) == Cleaned(deps[..i], clean)
  {
    if i < |deps| {
      var init := deps[..|deps| - 1];
      assert init[..i] == deps[..i];
      assert Cleanable(init, clean) by {
        forall j | 0 <= j < |init| && init[j].Some? ensures clean.requires(init[j].value) {
          assert init[j] == deps[j];
        }
      }
      CleanedPrefixError(init, clean, i);
    } else {
      assert deps[..i] == deps;
    }
  }

  /** One more department: the loop goes on with the list it had, or raises. */
  lemma CleanedStep(deps: seq<Option<Frame>>, clean: Frame --> Result<Frame, FrameError>, i: nat)
    requires Cleanable(deps, clean) && i < |deps| && Cleanable(deps[..i], clean) && Cleaned(deps[..i], clean).Ok?
    ensures Cleanable(deps[..i + 1], clean)
    ensures deps[i].None? ==> Cleaned(deps[..i + 1], clean) == Cleaned(deps[..i], clean)
    ensures deps[i].Some? && clean(deps[i].value).Err? ==>
      Cleaned(deps[..i + 1], clean) == Err(clean(deps[i].value).error)
    ensures deps[i].Some? && clean(deps[i].value).Ok? ==>
      Cleaned(deps[..i + 1], clean) == Ok(Cleaned(deps[..i], clean).value + [clean(deps[i].value).value])
  {
    var next := deps[..i + 1];
    assert next[..i] == deps[..i] && next[i] == deps[i];
    assert Cleanable(next, clean) by {
      forall j | 0 <= j < i + 1 && next[j].Some? ensures clean.requires(next[j].value) {
        assert next[j] == deps[j];
      }
    }
  }

  /** The department step of the loop. */
  function CleanStep(parse: string -> Option<real>): (step: Frame --> Result<Frame, FrameError>)
    ensures forall f :: WellFormed(f) ==> step.requires(f) && step(f) == CleanDepartment(f, parse)
  {
    df requires WellFormed(df) => CleanDepartment(df, parse)
  }

  predicate ReadableDepartments(deps: seq<Option<Frame>>)
  {
    forall i :: 0 <= i < |deps| && deps[i].Some? ==> WellFormed(deps[i].value)
  }

  /**
   * The loop of premier_nettoyage_donnee over the departments: clean each
   * one that has data, append it, and concatenate the list.
   */
  method MergeDepartments(deps: seq<Option<Frame>>, clean: Frame --> Result<Frame, FrameError>)
    returns (r: Result<Frame, FrameError>)
    requires Cleanable(deps, clean)
    ensures Cleaned(deps, clean).Err? ==> r == Err(Cleaned(deps, clean).error)
    ensures Cleaned(deps, clean).Ok? ==> r == Concat(Cleaned(deps, clean).value)
  {
    var liste: seq<Frame> := [];
    var i := 0;
    while i < |deps|
      invariant 0 <= i <= |deps|
      invariant Cleanable(deps[..i], clean)
      invariant Cleaned(deps[..i], clean) == Ok(liste)
    {
      CleanedStep(deps, clean, i);
      if deps[i].Some? {
        var c := clean(deps[i].value);
        if c.Err? {
          CleanedPrefixError(deps, clean, i + 1);
          return Err(c.error);
        }
        liste := liste + [c.value];
      }
      i := i + 1;
    }
    assert deps[..i] == deps;
    r := Concat(liste);
  }

  /** premier_nettoyage_donnee without its I/O. */
  method PremierNettoyage(deps: seq<Option<Frame>>, parse: string -> Option<real>) returns (r: Result<Frame, FrameError>)
    requires ReadableDepartments(deps)
    ensures Cleanable(deps, CleanStep(parse))
    ensures Cleaned(deps, CleanStep(parse)).Err? ==> r == Err(Cleaned(deps, CleanStep(parse)).error)
    ensures Cleaned(deps, CleanStep(parse)).Ok? ==> r == Concat(Cleaned(deps, CleanStep(parse)).value)
  {
    r := MergeDepartments(deps, CleanStep(parse));
  }

  /** There is nothing to concatenate exactly when no department had data. */
  lemma NothingToConcatMeansNoData(deps: seq<Option<Frame>>, clean: Frame --> Result<Frame, FrameError>)
    requires Cleanable(deps, clean) && Cleaned(deps, clean).Ok?
    ensures Concat(Cleaned(deps, clean).value).Err? <==> forall i :: 0 <= i < |deps| ==> deps[i].None?
  {
    CleanedIsPerDepartment(deps, clean);
    PresentEmpty(deps);
  }

  lemma {:induction false} PresentEmpty(deps: seq<Option<Frame>>)
    ensures Present(deps) == [] <==> forall i :: 0 <= i < |deps| ==> deps[i].None?
  {
    if deps != [] {
      var init := deps[..|deps| - 1];
      PresentEmpty(init);
      assert forall i :: 0 <= i < |init| ==> init[i] == deps[i];
    }
  }

  /** What cleaning one department promises about each row. */
  lemma CleanDepartmentMeaning(raw: Frame, parse: string -> Option<real>)
    requires WellFormed(raw) && CleanDepartment(raw, parse).Ok?
    ensures var out := CleanDepartment(raw, parse).value.rows;
      && |out| <= |raw.rows|
      && (forall i :: 0 <= i < |out| ==> CleanRow(out[i]))
      && (forall i, j :: 0 <= i < j < |out| ==> Key(out[i]) != Key(out[j]))
  {
    var sel := SelectColumns(raw, Config.ColumnFinal).value;
    SelectedRowsCanBeCast(sel);
    CleanRowsMeaning(sel.rows, parse);
  }

  lemma {:induction false} RowsMember(fs: seq<Frame>, o: Row)
    ensures o in Rows(fs) <==> exists k :: 0 <= k < |fs| && o in fs[k].rows
  {
    if fs != [] {
      var init := fs[..|fs| - 1];
      RowsMember(init, o);
      assert forall k :: 0 <= k < |init| ==> init[k] == fs[k];
    }
  }

  /** A row property every cleaned department has holds of the merged frame. */
  lemma MergedRowsKeep(deps: seq<Option<Frame>>, clean: Frame --> Result<Frame, FrameError>, P: Row -> bool)
    requires Cleanable(deps, clean)
    requires forall k :: 0 <= k < |Present(deps)| && clean.requires(Present(deps)[k]) && clean(Present(deps)[k]).Ok? ==>
      forall o :: o in clean(Present(deps)[k]).value.rows ==> P(o)
    requires Cleaned(deps, clean).Ok? && Concat(Cleaned(deps, clean).value).Ok?
    ensures forall o :: o in Concat(Cleaned(deps, clean).value).value.rows ==> P(o)
  {
    var fs := Cleaned(deps, clean).value;
    CleanedIsPerDepartment(deps, clean);
    forall o | o in Concat(fs).value.rows
      ensures P(o)
    {
      RowsMember(fs, o);
      var k :| 0 <= k < |fs| && o in fs[k].rows;
      assert fs[k] == clean(Present(deps)[k]).value;
    }
  }

  /**
   * Every row of the merged frame is a CleanRow of one of the departments
   * with data.
   */
  lemma MergedRowsAreClean(deps: seq<Option<Frame>>, parse: string -> Option<real>)
    requires ReadableDepartments(deps)
    requires Cleanable(deps, CleanStep(parse))
    requires Cleaned(deps, CleanStep(parse)).Ok? && Concat(Cleaned(deps, CleanStep(parse)).value).Ok?
    ensures forall o :: o in Concat(Cleaned(deps, CleanStep(parse)).value).value.rows ==> CleanRow(o)
  {
    var clean := CleanStep(parse);
    var p := Present(deps);
    forall k | 0 <= k < |p| && clean.requires(p[k]) && clean(p[k]).Ok?
      ensures forall o :: o in clean(p[k]).value.rows ==> CleanRow(o)
    {
      PresentFrom(deps, k);
      assert WellFormed(p[k]) && clean(p[k]) == CleanDepartment(p[k], parse);
      CleanDepartmentMeaning(p[k], parse);
      var rows := CleanDepartment(p[k], parse).value.rows;
      forall o | o in rows
        ensures CleanRow(o)
      {
        var i :| 0 <= i < |rows| && rows[i] == o;
      }
    }
    MergedRowsKeep(deps, clean, CleanRow);
  }
}
