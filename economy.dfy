/**
 * The conversion of the Banque de France month labels
 * (code_dvf/traitement_economie_global.py): "janv. 2009" becomes the
 * timestamp 2009-01-01. `str.split()` is modelled as `Words`, and
 * `pd.to_datetime(..., format="%Y-%m-%d")` as the strict date parser of
 * the first cleaning restricted to the range of a pandas timestamp.
 */
module Economy {
  import opened Wrappers
  import opened Frames
  import FirstCleaning

  // ---------------------------------------------------------------------
  // The month mapping
  // ---------------------------------------------------------------------

  /** The keys of `mapping`, in calendar order. */
  const MonthAbbreviations: seq<string> :=
    ["janv.", "févr.", "mars", "avr.", "mai", "juin", "juil.", "août", "sept.", "oct.", "nov.", "déc."]

  /** The values of `mapping`, in calendar order. */
  const MonthNumbers: seq<string> :=
    ["01", "02", "03", "04", "05", "06", "07", "08", "09", "10", "11", "12"]

  /** `mapping`, as the source writes it. */
  const Mapping: map<string, string> := map[
    "janv." := "01", "févr." := "02", "mars" := "03", "avr." := "04",
    "mai" := "05", "juin" := "06", "juil." := "07", "août" := "08",
    "sept." := "09", "oct." := "10", "nov." := "11", "déc." := "12"
  ]

  /**
   * The mapping is a bijection from the twelve abbreviations onto "01" ..
   * "12": month i (from 0) goes to the two-digit text of i + 1, and no two
   * abbreviations share a number.
   */
  lemma MappingIsBijection()
    ensures |MonthAbbreviations| == |MonthNumbers| == 12
    ensures forall k :: k in Mapping <==> k in MonthAbbreviations
    ensures forall i :: 0 <= i < 12 ==> Mapping[MonthAbbreviations[i]] == MonthNumbers[i]
    ensures forall i :: 0 <= i < 12 ==> MonthNumbers[i] == FirstCleaning.Padded(i + 1, 2)
    ensures forall i, j :: 0 <= i < j < 12 ==> MonthNumbers[i] != MonthNumbers[j]
    ensures forall a, b :: a in Mapping && b in Mapping && Mapping[a] == Mapping[b] ==> a == b
    ensures forall v :: v in Mapping.Values <==> v in MonthNumbers
  {
    MonthNumbersPadded();
    MappingKeys();
    MappingValues();
    forall a, b | a in Mapping && b in Mapping && Mapping[a] == Mapping[b] ensures a == b {
      var i := MonthIndexOf(a);
      var j := MonthIndexOf(b);
      assert MonthNumbers[i] == MonthNumbers[j];
    }
  }

  /** The keys of the mapping are the abbreviations, and abbreviation i goes to number i. */
  lemma MappingKeys()
    ensures forall k :: k in Mapping <==> k in MonthAbbreviations
    ensures forall i :: 0 <= i < 12 ==> Mapping[MonthAbbreviations[i]] == MonthNumbers[i]
  {
    forall k | k in Mapping ensures k in MonthAbbreviations {
      var i := MonthIndexOf(k);
    }
  }

  /** The values of the mapping are the month numbers. */
  lemma MappingValues()
    ensures forall v :: v in Mapping.Values <==> v in MonthNumbers
  {
    forall v | v in Mapping.Values ensures v in MonthNumbers {
      var k :| k in Mapping && Mapping[k] == v;
      var i := MonthIndexOf(k);
    }
    forall i | 0 <= i < 12 ensures MonthNumbers[i] in Mapping.Values {
      MappingKeys();
      assert Mapping[MonthAbbreviations[i]] == MonthNumbers[i];
    }
  }

  /** The month numbers are the zero-padded 1 to 12, so no two are equal. */
  lemma MonthNumbersPadded()
    ensures forall i :: 0 <= i < 12 ==> MonthNumbers[i] == FirstCleaning.Padded(i + 1, 2)
    ensures forall i, j :: 0 <= i < j < 12 ==> MonthNumbers[i] != MonthNumbers[j]
  {
    forall i | 0 <= i < 12 ensures MonthNumbers[i] == FirstCleaning.Padded(i + 1, 2) {
      PaddedMonth(i);
    }
    forall i, j | 0 <= i < j < 12 ensures MonthNumbers[i] != MonthNumbers[j] {
      PaddedMonth(i);
      PaddedMonth(j);
      FirstCleaning.DigitsOfPadded(i + 1, 2);
      FirstCleaning.DigitsOfPadded(j + 1, 2);
    }
  }

  lemma PaddedMonth(i: nat)
    requires i < 12
    ensures MonthNumbers[i] == FirstCleaning.Padded(i + 1, 2)
  {
    assert FirstCleaning.Padded(i + 1, 2) ==
      FirstCleaning.Padded((i + 1) / 10, 1) + [FirstCleaning.DigitChar((i + 1) % 10)];
    assert FirstCleaning.Padded((i + 1) / 10, 1) ==
      FirstCleaning.Padded((i + 1) / 100, 0) + [FirstCleaning.DigitChar((i + 1) / 10 % 10)];
  }

  /** The calendar position (from 0) of a key of the mapping. */
  function MonthIndexOf(m: string): (i: nat)
    requires m in Mapping
    ensures i < 12 && MonthAbbreviations[i] == m && Mapping[m] == MonthNumbers[i]
  {
    if m == "janv." then 0 else if m == "févr." then 1 else if m == "mars" then 2
    else if m == "avr." then 3 else if m == "mai" then 4 else if m == "juin" then 5
    else if m == "juil." then 6 else if m == "août" then 7 else if m == "sept." then 8
    else if m == "oct." then 9 else if m == "nov." then 10 else 11
  }

  // ---------------------------------------------------------------------
  // str.split()
  // ---------------------------------------------------------------------

  /** The characters Python's `str.split()` treats as whitespace. */
  predicate IsSpace(c: char)
  {
    var n := c as int;
    || (9 <= n <= 13) || (28 <= n <= 32) || n == 0x85 || n == 0xA0 || n == 0x1680
    || (0x2000 <= n <= 0x200A) || n == 0x2028 || n == 0x2029 || n == 0x202F
    || n == 0x205F || n == 0x3000
  }

  /** A part `split()` can return: not empty, and no whitespace in it. */
  predicate IsWord(w: string)
  {
    w != [] && forall i :: 0 <= i < |w| ==> !IsSpace(w[i])
  }

  /** The length of the run of non-whitespace characters `s` starts with. */
  function WordLength(s: string): (n: nat)
    ensures n <= |s|
    ensures forall i :: 0 <= i < n ==> !IsSpace(s[i])
    ensures n < |s| ==> IsSpace(s[n])
  {
    if s == [] || IsSpace(s[0]) then 0 else 1 + WordLength(s[1..])
  }

  /** `s.split()`: the maximal runs of non-whitespace characters, in order. */
  function Words(s: string): (ws: seq<string>)
    ensures |ws| <= |s|
    decreases |s|
  {
    if s == [] then []
    else if IsSpace(s[0]) then Words(s[1..])
    else
      var n := WordLength(s);
      assert n > 0;
      [s[..n]] + Words(s[n..])
  }

  /** Every part `split()` returns is a word. */
  lemma {:induction false} WordsAreWords(s: string)
    ensures forall k :: 0 <= k < |Words(s)| ==> IsWord(Words(s)[k])
    decreases |s|
  {
    if s != [] {
      if IsSpace(s[0]) {
        WordsAreWords(s[1..]);
      } else {
        var n := WordLength(s);
        WordsAreWords(s[n..]);
      }
    }
  }

  /** The words joined with single spaces. */
  function Join(ws: seq<string>): string
  {
    if ws == [] then "" else if |ws| == 1 then ws[0] else ws[0] + " " + Join(ws[1..])
  }

  lemma {:induction false} WordLengthOfWord(w: string, t: string)
    requires IsWord(w) && (t == [] || IsSpace(t[0]))
    ensures WordLength(w + t) == |w|
    decreases |w|
  {
    if |w| > 1 {
      assert (w + t)[1..] == w[1..] + t;
      WordLengthOfWord(w[1..], t);
    } else {
      assert (w + t)[1..] == t;
    }
  }

  /** Splitting words joined by spaces gives the words back. */
  lemma {:induction false} WordsOfJoin(ws: seq<string>)
    requires forall k :: 0 <= k < |ws| ==> IsWord(ws[k])
    ensures Words(Join(ws)) == ws
    decreases |ws|
  {
    if ws != [] {
      var w := ws[0];
      var rest := if |ws| == 1 then "" else " " + Join(ws[1..]);
      var s := Join(ws);
      assert s == w + rest;
      WordLengthOfWord(w, rest);
      assert s[..|w|] == w && s[|w|..] == rest;
      if |ws| > 1 {
        WordsOfJoin(ws[1..]);
        assert rest[1..] == Join(ws[1..]);
        assert Words(rest) == Words(Join(ws[1..]));
      }
    }
  }

  /** Leading whitespace does not change the parts. */
  lemma LeadingSpaceIgnored(c: char, s: string)
    requires IsSpace(c)
    ensures Words([c] + s) == Words(s)
  {
    assert ([c] + s)[1..] == s;
  }

  // ---------------------------------------------------------------------
  // convert_french_date
  // ---------------------------------------------------------------------

  /** The ValueErrors of the conversion. */
  datatype DateError =
    | FormatNotRecognized(input: string)  // not exactly two parts
    | MonthNotRecognized(month: string)   // a first part the mapping lacks
    | NotADate(formatted: string)         // to_datetime rejects the text
    | NotAString                          // a cell that has no `split`
    | ColumnMissing(column: string)       // df[column_name] raises KeyError

  /** The f-string `"{year_str}-{month_num}-01"`, or the error raised before it. */
  function FormatFrenchDate(s: string): (r: Result<string, DateError>)
    ensures r.Err? ==> r.error.FormatNotRecognized? || r.error.MonthNotRecognized?
  {
    var parts := Words(s);
    if |parts| != 2 then Err(FormatNotRecognized(s))
    else
      var monthStr, yearStr := parts[0], parts[1];
      if monthStr !in Mapping then Err(MonthNotRecognized(monthStr))
      else Ok(yearStr + "-" + Mapping[monthStr] + "-01")
  }

  /** The dates whose midnight a pandas nanosecond timestamp can hold: the
      smallest timestamp falls after midnight of 1677-09-21, the largest
      after midnight of 2262-04-11. */
  predicate InTimestampRange(d: Date)
  {
    DateLe(Date(1677, 9, 22), d) && DateLe(d, Date(2262, 4, 11))
  }

  /** `pd.to_datetime(text, format="%Y-%m-%d")`. */
  function ToDatetime(text: string): (r: Result<Date, DateError>)
    ensures r.Ok? ==> FirstCleaning.ValidDate(r.value) && InTimestampRange(r.value)
    ensures r.Ok? ==> FirstCleaning.FormatDate(r.value) == text
  {
    match FirstCleaning.ParseDate(text)
    case Some(d) =>
      if InTimestampRange(d) then
        FirstCleaning.FormatParse(text);
        Ok(d)
      else Err(NotADate(text))
    case None => Err(NotADate(text))
  }

  /** convert_french_date. */
  function ConvertFrenchDate(s: string): (r: Result<Date, DateError>)
    ensures r.Ok? ==> FirstCleaning.ValidDate(r.value) && InTimestampRange(r.value)
  {
    match FormatFrenchDate(s)
    case Err(e) => Err(e)
    case Ok(text) => ToDatetime(text)
  }

  /**
   * The two errors raised before any date is built: a text that does not
   * split into two parts, and an unknown month.
   */
  lemma ConvertFrenchDateErrors(s: string)
    ensures ConvertFrenchDate(s) == Err(FormatNotRecognized(s)) <==> |Words(s)| != 2
    ensures (ConvertFrenchDate(s).Err? && ConvertFrenchDate(s).error.MonthNotRecognized?) <==>
      |Words(s)| == 2 && Words(s)[0] !in Mapping
    ensures |Words(s)| == 2 && Words(s)[0] !in Mapping ==>
      ConvertFrenchDate(s) == Err(MonthNotRecognized(Words(s)[0]))
  {
  }

  /**
   * A converted date is the first of the month its abbreviation names, and
   * its year is the value of the year part, which has four digits.
   */
  lemma ConvertFrenchDateMeaning(s: string)
    requires ConvertFrenchDate(s).Ok?
    ensures var parts := Words(s);
      var d := ConvertFrenchDate(s).value;
      && |parts| == 2 && parts[0] in Mapping
      && |parts[1]| == 4 && (forall i :: 0 <= i < 4 ==> FirstCleaning.IsDigit(parts[1][i]))
      && d.year == FirstCleaning.Digits(parts[1])
      && d.day == 1
      && d.month == MonthIndexOf(parts[0]) + 1
  {
    var parts := Words(s);
    var i := MonthIndexOf(parts[0]);
    assert FormatFrenchDate(s).value == parts[1] + "-" + MonthNumbers[i] + "-01";
    ParseFirstOfMonth(parts[1], MonthNumbers[i], FormatFrenchDate(s).value);
    PaddedMonth(i);
    FirstCleaning.DigitsOfPadded(i + 1, 2);
  }

  /** A text "<y>-<mm>-01" that parses names day 1 of month mm of year y. */
  lemma ParseFirstOfMonth(y: string, mm: string, text: string)
    requires |mm| == 2 && text == y + "-" + mm + "-01" && FirstCleaning.ParseDate(text).Some?
    ensures |y| == 4 && forall i :: 0 <= i < 4 ==> FirstCleaning.IsDigit(y[i])
    ensures forall i :: 0 <= i < 2 ==> FirstCleaning.IsDigit(mm[i])
    ensures FirstCleaning.ParseDate(text).value ==
      Date(FirstCleaning.Digits(y), FirstCleaning.Digits(mm), 1)
  {
    assert |text| == 10;
    assert text[..4] == y;
    assert text[5..7] == mm;
    assert text[8..] == "01";
    DigitsOfOne();
  }

  lemma DigitsOfOne()
    ensures FirstCleaning.Digits("01") == 1
  {
    assert "01"[..1] == "0";
    assert "0"[..0] == "";
  }

  /** The two parts of "<abbreviation> <four-digit year>". */
  lemma WordsOfLabel(i: nat, y: nat)
    requires i < 12
    ensures Words(MonthAbbreviations[i] + " " + FirstCleaning.Padded(y, 4)) == [MonthAbbreviations[i], FirstCleaning.Padded(y, 4)]
  {
    var m := MonthAbbreviations[i];
    var p := FirstCleaning.Padded(y, 4);
    assert IsWord(m);
    assert IsWord(p) by {
      forall k | 0 <= k < 4 ensures !IsSpace(p[k]) {
        assert FirstCleaning.IsDigit(p[k]);
      }
    }
    assert Join([m, p]) == m + " " + p;
    WordsOfJoin([m, p]);
  }

  /** The text handed to to_datetime for "<abbreviation> <four-digit year>". */
  lemma FormattedLabel(i: nat, y: nat)
    requires i < 12 && y < 10000
    ensures FormatFrenchDate(MonthAbbreviations[i] + " " + FirstCleaning.Padded(y, 4)) ==
      Ok(FirstCleaning.FormatDate(Date(y, i + 1, 1)))
  {
    var m := MonthAbbreviations[i];
    var p := FirstCleaning.Padded(y, 4);
    WordsOfLabel(i, y);
    PaddedMonth(i);
    PaddedMonth(0);
    assert MonthIndexOf(m) == i;
    assert FormatFrenchDate(m + " " + p) == Ok(p + "-" + MonthNumbers[i] + "-01");
    var d := Date(y, i + 1, 1);
    assert FirstCleaning.ValidDate(d);
    assert FirstCleaning.FormatDate(d) == p + "-" + MonthNumbers[i] + "-" + MonthNumbers[0];
    assert p + "-" + MonthNumbers[i] + "-01" == p + "-" + MonthNumbers[i] + "-" + MonthNumbers[0];
  }

  /** "<abbreviation> <four-digit year>" converts to the first of that month. */
  lemma ConvertFrenchDateOf(i: nat, y: nat)
    requires i < 12 && 1678 <= y <= 2261
    ensures ConvertFrenchDate(MonthAbbreviations[i] + " " + FirstCleaning.Padded(y, 4)) == Ok(Date(y, i + 1, 1))
  {
    var d := Date(y, i + 1, 1);
    FormattedLabel(i, y);
    FirstCleaning.ParseFormat(d);
    assert InTimestampRange(d);
  }

  /** The example of the source's docstring. */
  lemma DocstringExample()
    ensures ConvertFrenchDate("janv. 2009") == Ok(Date(2009, 1, 1))
  {
    var p := FirstCleaning.Padded(2009, 4);
    assert p == FirstCleaning.Padded(200, 3) + ['9'];
    assert FirstCleaning.Padded(200, 3) == FirstCleaning.Padded(20, 2) + ['0'];
    assert FirstCleaning.Padded(20, 2) == FirstCleaning.Padded(2, 1) + ['0'];
    assert FirstCleaning.Padded(2, 1) == FirstCleaning.Padded(0, 0) + ['2'];
    assert p == "2009";
    assert "janv. 2009" == MonthAbbreviations[0] + " " + p;
    ConvertFrenchDateOf(0, 2009);
  }

  // ---------------------------------------------------------------------
  // convert_dates_dataframe
  // ---------------------------------------------------------------------

  /** `convert_french_date` on one cell of the column. */
  function ConvertCell(c: Cell): Result<Date, DateError>
  {
    if c.Text? then ConvertFrenchDate(c.s) else Err(NotAString)
  }

  /**
   * `df[column] = df[column].apply(convert)`: every cell of the column
   * converted, in place, every other column untouched; the first cell that
   * raises aborts, and a missing column raises.
   */
  method ApplyToColumn(df: Frame, column: string, convert: Cell -> Result<Date, DateError>) returns (r: Result<Frame, DateError>)
    requires WellFormed(df)
    ensures r.Err? <==> column !in df.columns || exists i :: 0 <= i < |df.rows| && convert(df.rows[i][column]).Err?
    ensures r.Ok? ==> r.value.columns == df.columns && WellFormed(r.value) && |r.value.rows| == |df.rows|
    ensures r.Ok? ==> forall i :: 0 <= i < |df.rows| ==>
      && convert(df.rows[i][column]).Ok?
      && r.value.rows[i] == df.rows[i][column := Day(convert(df.rows[i][column]).value)]
  {
    if column !in df.columns {
      return Err(ColumnMissing(column));
    }
    var converted: seq<Row> := [];
    var i := 0;
    while i < |df.rows|
      invariant 0 <= i <= |df.rows| && |converted| == i
      invariant forall j :: 0 <= j < i ==> convert(df.rows[j][column]).Ok?
      invariant forall j :: 0 <= j < i ==>
        converted[j] == df.rows[j][column := Day(convert(df.rows[j][column]).value)]
    {
      var c := convert(df.rows[i][column]);
      if c.Err? {
        return Err(c.error);
      }
      converted := converted + [df.rows[i][column := Day(c.value)]];
      i := i + 1;
    }
    r := Ok(Frame(df.columns, converted));
  }

  /** convert_dates_dataframe: the column's month labels become dates. */
  method ConvertDatesDataframe(df: Frame, column: string) returns (r: Result<Frame, DateError>)
    requires WellFormed(df)
    ensures r.Err? <==> column !in df.columns || exists i :: 0 <= i < |df.rows| && ConvertCell(df.rows[i][column]).Err?
    ensures r.Ok? ==> r.value.columns == df.columns && WellFormed(r.value) && |r.value.rows| == |df.rows|
    ensures r.Ok? ==> forall i :: 0 <= i < |df.rows| ==>
      && ConvertCell(df.rows[i][column]).Ok?
      && r.value.rows[i] == df.rows[i][column := Day(ConvertCell(df.rows[i][column]).value)]
  {
    r := ApplyToColumn(df, column, ConvertCell);
  }

  // ---------------------------------------------------------------------
  // The filter on 2015-01-01
  // ---------------------------------------------------------------------

  const Start: Date := Date(2015, 1, 1)

  /** `df[df[column] >= '2015-01-01']` on a converted column. */
  predicate FromStart(row: Row, column: string)
  {
    column in row && row[column].Day? && DateLe(Start, row[column].d)
  }

  function KeepFromStart(df: Frame, column: string): (out: Frame)
    ensures out.columns == df.columns
    ensures forall row :: row in out.rows <==> row in df.rows && FromStart(row, column)
  {
    Frame(df.columns, Where(df.rows, row => FromStart(row, column)))
  }

  /** A converted label is kept exactly when its year is 2015 or later. */
  lemma KeptLabels(s: string, row: Row, column: string)
    requires ConvertFrenchDate(s).Ok? && column in row && row[column] == Day(ConvertFrenchDate(s).value)
    ensures FromStart(row, column) <==> ConvertFrenchDate(s).value.year >= 2015
  {
    ConvertFrenchDateMeaning(s);
  }
}
