/**
 * The table values the polars and pandas steps work on. A frame is a set of
 * column names and a sequence of rows, each row a map from column name to
 * cell; column order is not modelled.
 */
module Frames {
  /** A calendar date as polars' `Date` holds it. */
  datatype Date = Date(year: int, month: int, day: int)

  /** Chronological order on dates. */
  predicate DateLe(a: Date, b: Date)
  {
    a.year < b.year
    || (a.year == b.year && (a.month < b.month || (a.month == b.month && a.day <= b.day)))
  }

  /**
   * One cell: a null, numpy's NaN (a float that is not a null), an
   * integer, a finite float, a float infinity, a string or a date.
   */
  datatype Cell = Null | NaN | Int(i: int) | Num(r: real) | Inf(negative: bool) | Text(s: string) | Day(d: Date)

  type Row = map<string, Cell>

  datatype Frame = Frame(columns: set<string>, rows: seq<Row>)

  /** Every row carries exactly the frame's columns. */
  predicate WellFormed(f: Frame)
  {
    forall i :: 0 <= i < |f.rows| ==> f.rows[i].Keys == f.columns
  }

  /** The values of one column, top to bottom. */
  function Column(f: Frame, name: string): (col: seq<Cell>)
    requires WellFormed(f) && name in f.columns
    ensures |col| == |f.rows|
    ensures forall i :: 0 <= i < |f.rows| ==> col[i] == f.rows[i][name]
  {
    seq(|f.rows|, i requires 0 <= i < |f.rows| => f.rows[i][name])
  }

  /** Why a polars step raises: a column it names is absent, a strict cast fails, or nothing is left to concatenate. */
  datatype FrameError = ColumnNotFound(name: string) | CastFailed(column: string) | NothingToConcat

  /** The rows that satisfy a filter predicate, in their order (polars `filter`). */
  function Where(rows: seq<Row>, p: Row -> bool): (out: seq<Row>)
    ensures |out| <= |rows|
    ensures forall r :: r in out <==> r in rows && p(r)
  {
    if rows == [] then []
    else (if p(rows[0]) then [rows[0]] else []) + Where(rows[1..], p)
  }

  /** Filtering distributes over concatenation, so the kept rows stay in their order. */
  lemma {:induction false} WhereAppend(a: seq<Row>, b: seq<Row>, p: Row -> bool)
    ensures Where(a + b, p) == Where(a, p) + Where(b, p)
  {
    if a == [] {
      assert a + b == b;
    } else {
      assert (a + b)[1..] == a[1..] + b;
      WhereAppend(a[1..], b, p);
    }
  }

  /** A filter every row passes changes nothing, and one no row passes leaves nothing. */
  lemma {:induction false} WhereExtremes(rows: seq<Row>, p: Row -> bool)
    ensures (forall i :: 0 <= i < |rows| ==> p(rows[i])) ==> Where(rows, p) == rows
    ensures (forall i :: 0 <= i < |rows| ==> !p(rows[i])) ==> Where(rows, p) == []
  {
    if rows != [] {
      WhereExtremes(rows[1..], p);
      assert forall i :: 0 <= i < |rows[1..]| ==> rows[1..][i] == rows[i + 1];
    }
  }

  /** Filtering a well-formed frame's rows keeps it well formed. */
  lemma WhereWellFormed(f: Frame, p: Row -> bool)
    requires WellFormed(f)
    ensures WellFormed(Frame(f.columns, Where(f.rows, p)))
  {
    var out := Where(f.rows, p);
    forall i | 0 <= i < |out|
      ensures out[i].Keys == f.columns
    {
      assert out[i] in f.rows;
    }
  }
}
