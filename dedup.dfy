/**
 * Duplicate removal over one category's table (`supprimer_les_doublons`).
 * Rows are grouped by name, and the groups are visited in the order pandas'
 * `groupby` gives them, which is sorted by key. Inside each group a greedy
 * pass keeps a row unless a row already kept in that group lies within
 * `seuil` metres of it.
 */
module Dedup {
  import opened Geometry
  import opened Extraction

  /** The projected position (x_proj, y_proj) of a row. */
  function Proj(r: PoiRow): Point
  {
    Point(r.xProj, r.yProj)
  }

  // ---------------------------------------------------------------------
  // Python's `str` order: lexicographic by code point, a proper prefix first.

  predicate StrLt(a: string, b: string)
    decreases |a|
  {
    if a == [] then b != []
    else if b == [] then false
    else if a[0] != b[0] then a[0] < b[0]
    else StrLt(a[1..], b[1..])
  }

  lemma {:induction false} StrLtIrreflexive(a: string)
    ensures !StrLt(a, a)
    decreases |a|
  {
    if a != [] {
      StrLtIrreflexive(a[1..]);
    }
  }

  lemma {:induction false} StrLtTransitive(a: string, b: string, c: string)
    requires StrLt(a, b) && StrLt(b, c)
    ensures StrLt(a, c)
    decreases |a|
  {
    if a != [] && b != [] && c != [] && a[0] == b[0] && b[0] == c[0] {
      StrLtTransitive(a[1..], b[1..], c[1..]);
    }
  }

  lemma {:induction false} StrLtTotal(a: string, b: string)
    ensures a == b || StrLt(a, b) || StrLt(b, a)
    decreases |a|
  {
    if a != [] && b != [] && a[0] == b[0] {
      StrLtTotal(a[1..], b[1..]);
      assert a == [a[0]] + a[1..] && b == [b[0]] + b[1..];
    }
  }

  lemma StrLtAsymmetric(a: string, b: string)
    ensures !(StrLt(a, b) && StrLt(b, a))
  {
    if StrLt(a, b) && StrLt(b, a) {
      StrLtTransitive(a, b, a);
      StrLtIrreflexive(a);
    }
  }

  predicate StrictlySorted(ns: seq<string>)
  {
    forall i, j :: 0 <= i < j < |ns| ==> StrLt(ns[i], ns[j])
  }

  /** Adds `n` to a strictly sorted list of names, keeping it strictly sorted and without repeats. */
  function Insert(n: string, ns: seq<string>): (r: seq<string>)
    requires StrictlySorted(ns)
    ensures StrictlySorted(r)
    ensures forall x :: x in r <==> x == n || x in ns
    decreases |ns|
  {
    if ns == [] then [n]
    else if n == ns[0] then ns
    else if StrLt(n, ns[0]) then
      assert forall j :: 0 < j < |ns| ==> StrLt(n, ns[j]) by {
        forall j | 0 < j < |ns| { StrLtTransitive(n, ns[0], ns[j]); }
      }
      [n] + ns
    else
      StrLtTotal(n, ns[0]);
      var rest := Insert(n, ns[1..]);
      assert forall x :: x in rest ==> StrLt(ns[0], x);
      [ns[0]] + rest
  }

  /** `name` is the name of some row. */
  predicate HasName(rows: seq<PoiRow>, name: string)
  {
    exists i :: 0 <= i < |rows| && rows[i].name == name
  }

  /** The keys `groupby("name")` visits: every name that occurs, once each, in ascending order. */
  function SortedNames(rows: seq<PoiRow>): (ns: seq<string>)
    ensures StrictlySorted(ns)
    ensures forall x :: x in ns <==> HasName(rows, x)
    decreases |rows|
  {
    if rows == [] then []
    else
      var init := rows[..|rows| - 1];
      var ns0 := SortedNames(init);
      assert forall x :: HasName(rows, x) <==> HasName(init, x) || rows[|rows| - 1].name == x by {
        forall x ensures HasName(rows, x) <==> HasName(init, x) || rows[|rows| - 1].name == x {
          if HasName(init, x) {
            var i :| 0 <= i < |init| && init[i].name == x;
            assert rows[i] == init[i];
          }
          if HasName(rows, x) && rows[|rows| - 1].name != x {
            var i :| 0 <= i < |rows| && rows[i].name == x;
            assert init[i] == rows[i];
          }
        }
      }
      Insert(rows[|rows| - 1].name, ns0)
  }

  /** In a strictly sorted list, every other element comes after the head. */
  lemma HeadIsLeast(a: seq<string>, x: string)
    requires StrictlySorted(a) && x in a
    ensures x == a[0] || StrLt(a[0], x)
  {
    var k :| 0 <= k < |a| && a[k] == x;
    if k > 0 {
      assert StrLt(a[0], a[k]);
    }
  }

  lemma TailElements(a: seq<string>, x: string)
    requires StrictlySorted(a) && a != []
    ensures x in a[1..] <==> x in a && x != a[0]
  {
    if x in a[1..] {
      var k :| 1 <= k < |a| && a[k] == x;
      assert StrLt(a[0], a[k]);
      StrLtIrreflexive(x);
    }
    if x in a && x != a[0] {
      var k :| 0 <= k < |a| && a[k] == x;
      assert a[1..][k - 1] == x;
    }
  }

  /** Two strictly sorted lists with the same elements are the same list. */
  lemma {:induction false} SortedSetUnique(a: seq<string>, b: seq<string>)
    requires StrictlySorted(a) && StrictlySorted(b)
    requires forall x :: x in a <==> x in b
    ensures a == b
    decreases |a|
  {
    assert b != [] ==> b[0] in b;
    assert a != [] ==> a[0] in a;
    if a != [] && b != [] {
      HeadIsLeast(a, b[0]);
      HeadIsLeast(b, a[0]);
      StrLtAsymmetric(a[0], b[0]);
      forall x ensures x in a[1..] <==> x in b[1..] {
        TailElements(a, x);
        TailElements(b, x);
      }
      SortedSetUnique(a[1..], b[1..]);
      assert a == [a[0]] + a[1..] && b == [b[0]] + b[1..];
    }
  }

  lemma LastIsFresh(ns: seq<string>)
    requires StrictlySorted(ns) && ns != []
    ensures ns[|ns| - 1] !in ns[..|ns| - 1]
  {
    StrLtIrreflexive(ns[|ns| - 1]);
    forall i | 0 <= i < |ns| - 1 ensures ns[i] != ns[|ns| - 1] {
      assert StrLt(ns[i], ns[|ns| - 1]);
    }
    assert forall i :: 0 <= i < |ns| - 1 ==> ns[..|ns| - 1][i] == ns[i];
  }

  // ---------------------------------------------------------------------
  // Groups

  /** The rows of one name group, in table order. */
  function Group(rows: seq<PoiRow>, n: string): (g: seq<PoiRow>)
    ensures forall r :: r in g <==> r in rows && r.name == n
    ensures |g| <= |rows|
    decreases |rows|
  {
    if rows == [] then []
    else
      var init := rows[..|rows| - 1];
      var last := rows[|rows| - 1];
      assert rows == init + [last];
      Group(init, n) + (if last.name == n then [last] else [])
  }

  lemma {:induction false} GroupAppend(a: seq<PoiRow>, b: seq<PoiRow>, n: string)
    ensures Group(a + b, n) == Group(a, n) + Group(b, n)
    decreases |b|
  {
    if b == [] {
      assert a + b == a;
    } else {
      assert (a + b)[..|a + b| - 1] == a + b[..|b| - 1];
      GroupAppend(a, b[..|b| - 1], n);
    }
  }

  lemma {:induction false} GroupAllNamed(g: seq<PoiRow>, n: string)
    requires forall r :: r in g ==> r.name == n
    ensures Group(g, n) == g
    decreases |g|
  {
    if g != [] {
      var init := g[..|g| - 1];
      assert g == init + [g[|g| - 1]];
      assert forall r :: r in init ==> r in g;
      GroupAllNamed(init, n);
    }
  }

  lemma {:induction false} GroupNoneNamed(g: seq<PoiRow>, n: string)
    requires forall r :: r in g ==> r.name != n
    ensures Group(g, n) == []
    decreases |g|
  {
    if g != [] {
      var init := g[..|g| - 1];
      assert g == init + [g[|g| - 1]];
      assert forall r :: r in init ==> r in g;
      GroupNoneNamed(init, n);
    }
  }

  /** The name group of `r.name` holds every copy of `r`. */
  lemma {:induction false} GroupCount(rows: seq<PoiRow>, r: PoiRow)
    ensures multiset(Group(rows, r.name))[r] == multiset(rows)[r]
    decreases |rows|
  {
    if rows != [] {
      var init := rows[..|rows| - 1];
      GroupCount(init, r);
      assert rows == init + [rows[|rows| - 1]];
    }
  }

  // ---------------------------------------------------------------------
  // The greedy pass inside one group

  /** Some row of `kept` lies within `seuil` of `r`. */
  predicate CloseToAny(kept: seq<PoiRow>, r: PoiRow, seuil: real)
  {
    exists k :: 0 <= k < |kept| && Within(Proj(kept[k]), Proj(r), seuil)
  }

  lemma CloseToAnyAppend(kept: seq<PoiRow>, x: PoiRow, r: PoiRow, seuil: real)
    ensures CloseToAny(kept + [x], r, seuil) <==> CloseToAny(kept, r, seuil) || Within(Proj(x), Proj(r), seuil)
  {
    var kept' := kept + [x];
    if CloseToAny(kept', r, seuil) && !Within(Proj(x), Proj(r), seuil) {
      var k :| 0 <= k < |kept'| && Within(Proj(kept'[k]), Proj(r), seuil);
      assert k < |kept| && kept[k] == kept'[k];
    }
    if CloseToAny(kept, r, seuil) {
      var k :| 0 <= k < |kept| && Within(Proj(kept[k]), Proj(r), seuil);
      assert kept'[k] == kept[k];
    }
    if Within(Proj(x), Proj(r), seuil) {
      assert kept'[|kept|] == x;
    }
  }

  /**
   * The rows the pass over `range(len(coords))` keeps: a row is appended to
   * `lignes` exactly when no row kept before it is within `seuil`.
   */
  function KeepGroup(g: seq<PoiRow>, seuil: real): (kept: seq<PoiRow>)
    ensures g != [] ==> kept != [] && kept[0] == g[0]
    decreases |g|
  {
    if g == [] then []
    else
      var init := g[..|g| - 1];
      var last := g[|g| - 1];
      var kept0 := KeepGroup(init, seuil);
      assert init != [] ==> init[0] == g[0];
      if CloseToAny(kept0, last, seuil) then kept0 else kept0 + [last]
  }

  /** The pass only keeps rows of the group, each at most as often as it occurs. */
  lemma {:induction false} KeepGroupSubMultiset(g: seq<PoiRow>, seuil: real)
    ensures multiset(KeepGroup(g, seuil)) <= multiset(g)
    decreases |g|
  {
    if g != [] {
      var init := g[..|g| - 1];
      KeepGroupSubMultiset(init, seuil);
      assert g == init + [g[|g| - 1]];
    }
  }

  /**
   * The loop over one group with its `pris` markers: an unmarked row is kept
   * and marks every row of the group within `seuil` of it, itself included.
   */
  method KeepRepresentatives(group: seq<PoiRow>, seuil: real) returns (kept: seq<PoiRow>)
    ensures kept == KeepGroup(group, seuil)
  {
    var n := |group|;
    var pris := new bool[n](_ => false);
    kept := [];
    var i := 0;
    while i < n
      invariant 0 <= i <= n
      invariant kept == KeepGroup(group[..i], seuil)
      invariant forall j :: 0 <= j < n ==> (pris[j] <==> CloseToAny(kept, group[j], seuil))
    {
      ghost var before := kept;
      ghost var upto := group[..i + 1];
      assert upto[..i] == group[..i] && upto[i] == group[i];
      if !pris[i] {
        kept := kept + [group[i]];
        forall j | 0 <= j < n && Within(Proj(group[i]), Proj(group[j]), seuil) {
          pris[j] := true;
        }
        forall j | 0 <= j < n ensures pris[j] <==> CloseToAny(kept, group[j], seuil) {
          CloseToAnyAppend(before, group[i], group[j], seuil);
        }
      }
      i := i + 1;
    }
    assert group[..n] == group;
  }

  /** Kept rows are pairwise strictly farther apart than `seuil`. */
  predicate PairwiseFar(kept: seq<PoiRow>, seuil: real)
  {
    forall i, j :: 0 <= i < j < |kept| ==> !Within(Proj(kept[i]), Proj(kept[j]), seuil)
  }

  lemma {:induction false} KeptPairwiseFar(g: seq<PoiRow>, seuil: real)
    ensures PairwiseFar(KeepGroup(g, seuil), seuil)
    decreases |g|
  {
    if g != [] {
      KeptPairwiseFar(g[..|g| - 1], seuil);
    }
  }

  lemma PairwiseFarInit(h: seq<PoiRow>, seuil: real)
    requires PairwiseFar(h, seuil) && h != []
    ensures PairwiseFar(h[..|h| - 1], seuil)
    ensures !CloseToAny(h[..|h| - 1], h[|h| - 1], seuil)
  {
    var init := h[..|h| - 1];
    forall i, j | 0 <= i < j < |init| ensures !Within(Proj(init[i]), Proj(init[j]), seuil) {
      assert init[i] == h[i] && init[j] == h[j];
    }
    forall k | 0 <= k < |init| ensures !Within(Proj(init[k]), Proj(h[|h| - 1]), seuil) {
      assert init[k] == h[k];
    }
  }

  /** A group whose rows are already spread out keeps all of them. */
  lemma {:induction false} SpreadGroupKept(h: seq<PoiRow>, seuil: real)
    requires PairwiseFar(h, seuil)
    ensures KeepGroup(h, seuil) == h
    decreases |h|
  {
    if h != [] {
      var init := h[..|h| - 1];
      PairwiseFarInit(h, seuil);
      SpreadGroupKept(init, seuil);
      assert h == init + [h[|h| - 1]];
    }
  }

  /** With a threshold that is not negative, the last row is covered: dropped because a kept row is close, or kept itself. */
  lemma LastCovered(g: seq<PoiRow>, seuil: real)
    requires 0.0 <= seuil && g != []
    ensures CloseToAny(KeepGroup(g, seuil), g[|g| - 1], seuil)
  {
    var last := g[|g| - 1];
    var kept0 := KeepGroup(g[..|g| - 1], seuil);
    if !CloseToAny(kept0, last, seuil) {
      SquareNonNegative(seuil);
      assert Dist2(Proj(last), Proj(last)) == 0.0;
      assert (kept0 + [last])[|kept0|] == last;
    }
  }

  /** Every row lies within `seuil` of a row kept at or before its own position. */
  lemma DroppedCovered(g: seq<PoiRow>, seuil: real, j: nat)
    requires 0.0 <= seuil && j < |g|
    ensures CloseToAny(KeepGroup(g[..j + 1], seuil), g[j], seuil)
  {
    LastCovered(g[..j + 1], seuil);
    assert g[..j + 1][j] == g[j];
  }

  /** What was kept up to a position stays kept: the pass only appends. */
  lemma {:induction false} KeepGroupPrefix(g: seq<PoiRow>, seuil: real, j: nat)
    requires j <= |g|
    ensures KeepGroup(g[..j], seuil) <= KeepGroup(g, seuil)
    decreases |g|
  {
    if j < |g| {
      var init := g[..|g| - 1];
      assert g[..j] == init[..j];
      KeepGroupPrefix(init, seuil, j);
    } else {
      assert g[..j] == g;
    }
  }

  // ---------------------------------------------------------------------
  // The whole table

  /** `lignes` after the groups named in `ns` have been processed, in that order. */
  function KeptByName(rows: seq<PoiRow>, ns: seq<string>, seuil: real): seq<PoiRow>
    decreases |ns|
  {
    if ns == [] then []
    else KeptByName(rows, ns[..|ns| - 1], seuil) + KeepGroup(Group(rows, ns[|ns| - 1]), seuil)
  }

  /**
   * The table written back: an empty table is returned untouched (the
   * function returns before rewriting the file); otherwise the kept rows of
   * every name group, groups in ascending name order.
   */
  function Deduplicated(t: PoiTable, seuil: real): (r: PoiTable)
    ensures r.Bare? <==> t.Bare?
    ensures t.Projected? && t.rows == [] ==> r == t
  {
    if t.Bare? || t.rows == [] then t
    else Projected(KeptByName(t.rows, SortedNames(t.rows), seuil))
  }

  method Deduplicate(t: PoiTable, seuil: real) returns (out: PoiTable)
    ensures out == Deduplicated(t, seuil)
  {
    if t.Bare? || t.rows == [] {
      return t;
    }
    var names := SortedNames(t.rows);
    var lignes: seq<PoiRow> := [];
    for k := 0 to |names|
      invariant lignes == KeptByName(t.rows, names[..k], seuil)
    {
      var kept := KeepRepresentatives(Group(t.rows, names[k]), seuil);
      assert names[..k + 1][..k] == names[..k];
      lignes := lignes + kept;
    }
    assert names[..|names|] == names;
    out := Projected(lignes);
  }

  lemma {:induction false} KeptByNameGroup(rows: seq<PoiRow>, ns: seq<string>, seuil: real, n: string)
    requires StrictlySorted(ns)
    ensures Group(KeptByName(rows, ns, seuil), n) == if n in ns then KeepGroup(Group(rows, n), seuil) else []
    decreases |ns|
  {
    if ns != [] {
      var init := ns[..|ns| - 1];
      var last := ns[|ns| - 1];
      assert StrictlySorted(init);
      KeptByNameGroup(rows, init, seuil, n);
      var kg := KeepGroup(Group(rows, last), seuil);
      GroupAppend(KeptByName(rows, init, seuil), kg, n);
      KeepGroupSubMultiset(Group(rows, last), seuil);
      assert forall r :: r in kg ==> r in multiset(kg);
      assert forall r :: r in kg ==> r.name == last;
      if n == last {
        LastIsFresh(ns);
        GroupAllNamed(kg, n);
      } else {
        GroupNoneNamed(kg, n);
        assert n in ns <==> n in init;
      }
    }
  }

  /** Deduplication never merges rows with different names: each name group is reduced on its own. */
  lemma DeduplicatedPerName(t: PoiTable, seuil: real, n: string)
    requires t.Projected?
    ensures Deduplicated(t, seuil).Projected?
    ensures Group(Deduplicated(t, seuil).rows, n) == KeepGroup(Group(t.rows, n), seuil)
  {
    if t.rows != [] {
      var ns := SortedNames(t.rows);
      KeptByNameGroup(t.rows, ns, seuil, n);
      if n !in ns {
        AbsentNameEmptyGroup(t.rows, n);
      }
    }
  }

  /** A name `groupby` does not visit has no rows. */
  lemma AbsentNameEmptyGroup(rows: seq<PoiRow>, n: string)
    requires n !in SortedNames(rows)
    ensures Group(rows, n) == []
  {
    forall r | r in rows ensures r.name != n {
      var i :| 0 <= i < |rows| && rows[i] == r;
      assert HasName(rows, r.name);
    }
    GroupNoneNamed(rows, n);
  }

  /** Inside each name group of the result, the rows are pairwise farther apart than `seuil`. */
  lemma DeduplicatedSpread(t: PoiTable, seuil: real, n: string)
    requires t.Projected?
    ensures PairwiseFar(Group(Deduplicated(t, seuil).rows, n), seuil)
  {
    DeduplicatedPerName(t, seuil, n);
    KeptPairwiseFar(Group(t.rows, n), seuil);
  }

  /**
   * With a threshold that is not negative, every input row lies within
   * `seuil` of a result row of its own name.
   */
  lemma DeduplicatedCovering(t: PoiTable, seuil: real, r: PoiRow)
    requires t.Projected? && 0.0 <= seuil && r in t.rows
    ensures CloseToAny(Group(Deduplicated(t, seuil).rows, r.name), r, seuil)
  {
    var g := Group(t.rows, r.name);
    DeduplicatedPerName(t, seuil, r.name);
    var j :| 0 <= j < |g| && g[j] == r;
    DroppedCovered(g, seuil, j);
    KeepGroupPrefix(g, seuil, j + 1);
    CloseToAnyPrefix(KeepGroup(g[..j + 1], seuil), KeepGroup(g, seuil), r, seuil);
  }

  lemma CloseToAnyPrefix(a: seq<PoiRow>, b: seq<PoiRow>, r: PoiRow, seuil: real)
    requires a <= b
    ensures CloseToAny(a, r, seuil) ==> CloseToAny(b, r, seuil)
  {
    if CloseToAny(a, r, seuil) {
      var k :| 0 <= k < |a| && Within(Proj(a[k]), Proj(r), seuil);
      assert b[k] == a[k];
    }
  }

  /** The result holds no row, and no copy of a row, that the input did not hold. */
  lemma DeduplicatedSubMultiset(t: PoiTable, seuil: real)
    ensures Deduplicated(t, seuil).Bare? <==> t.Bare?
    ensures t.Projected? ==> multiset(Deduplicated(t, seuil).rows) <= multiset(t.rows)
  {
    if t.Projected? {
      var out := Deduplicated(t, seuil).rows;
      forall r ensures multiset(out)[r] <= multiset(t.rows)[r] {
        DeduplicatedPerName(t, seuil, r.name);
        KeepGroupSubMultiset(Group(t.rows, r.name), seuil);
        GroupCount(out, r);
        GroupCount(t.rows, r);
      }
    }
  }

  lemma {:induction false} KeptByNameSame(rows: seq<PoiRow>, rows': seq<PoiRow>, ns: seq<string>, seuil: real)
    requires forall n :: n in ns ==> KeepGroup(Group(rows', n), seuil) == KeepGroup(Group(rows, n), seuil)
    ensures KeptByName(rows', ns, seuil) == KeptByName(rows, ns, seuil)
    decreases |ns|
  {
    if ns != [] {
      KeptByNameSame(rows, rows', ns[..|ns| - 1], seuil);
    }
  }

  /** A row whose name occurs is in that name's group. */
  lemma NamedRowInGroup(rows: seq<PoiRow>, x: string)
    ensures HasName(rows, x) <==> Group(rows, x) != []
  {
    if HasName(rows, x) {
      var i :| 0 <= i < |rows| && rows[i].name == x;
      assert rows[i] in Group(rows, x);
    }
    if Group(rows, x) != [] {
      var r := Group(rows, x)[0];
      assert r in rows;
      var i :| 0 <= i < |rows| && rows[i] == r;
    }
  }

  /** Deduplication drops no name entirely: the result has the same names as its input. */
  lemma DeduplicatedKeepsNames(t: PoiTable, seuil: real, x: string)
    requires t.Projected?
    ensures HasName(Deduplicated(t, seuil).rows, x) <==> HasName(t.rows, x)
  {
    DeduplicatedPerName(t, seuil, x);
    NamedRowInGroup(t.rows, x);
    NamedRowInGroup(Deduplicated(t, seuil).rows, x);
  }

  /** Running the deduplication on its own output changes nothing. */
  lemma DeduplicatedIdempotent(t: PoiTable, seuil: real)
    ensures Deduplicated(Deduplicated(t, seuil), seuil) == Deduplicated(t, seuil)
  {
    if t.Projected? && t.rows != [] {
      var out := Deduplicated(t, seuil);
      var ns := SortedNames(t.rows);
      forall x ensures x in SortedNames(out.rows) <==> x in ns {
        DeduplicatedKeepsNames(t, seuil, x);
      }
      SortedSetUnique(SortedNames(out.rows), ns);
      assert out.rows != [] by {
        DeduplicatedKeepsNames(t, seuil, t.rows[0].name);
      }
      forall n | n in ns ensures KeepGroup(Group(out.rows, n), seuil) == KeepGroup(Group(t.rows, n), seuil) {
        DeduplicatedPerName(t, seuil, n);
        KeptPairwiseFar(Group(t.rows, n), seuil);
        SpreadGroupKept(KeepGroup(Group(t.rows, n), seuil), seuil);
      }
      KeptByNameSame(t.rows, out.rows, ns, seuil);
    }
  }

  /** Two rows named alike exactly 25 m apart collapse to the first at the 25 m default:
      the threshold is inclusive. */
  lemma CloseTwinsCollapse()
    ensures var a := PoiRow(1, "Pharmacie", PointShape(Point(0.0, 0.0)), 0.0, 0.0);
      var b := PoiRow(2, "Pharmacie", PointShape(Point(0.0, 0.0)), 25.0, 0.0);
      Deduplicated(Projected([a, b]), 25.0) == Projected([a])
  {
    var a := PoiRow(1, "Pharmacie", PointShape(Point(0.0, 0.0)), 0.0, 0.0);
    var b := PoiRow(2, "Pharmacie", PointShape(Point(0.0, 0.0)), 25.0, 0.0);
    var rows := [a, b];
    assert rows[..1] == [a];
    assert SortedNames([a]) == ["Pharmacie"];
    assert SortedNames(rows) == ["Pharmacie"];
    assert Group(rows, "Pharmacie") == rows;
    assert KeepGroup([a], 25.0) == [a];
    assert Within(Proj(a), Proj(b), 25.0);
    assert KeepGroup(rows, 25.0) == [a];
    assert ["Pharmacie"][..0] == [];
  }

  /** Two rows named alike 40 m apart both stay. */
  lemma DistantTwinsStay()
    ensures var a := PoiRow(1, "Pharmacie", PointShape(Point(0.0, 0.0)), 0.0, 0.0);
      var b := PoiRow(2, "Pharmacie", PointShape(Point(0.0, 0.0)), 40.0, 0.0);
      Deduplicated(Projected([a, b]), 25.0) == Projected([a, b])
  {
    var a := PoiRow(1, "Pharmacie", PointShape(Point(0.0, 0.0)), 0.0, 0.0);
    var b := PoiRow(2, "Pharmacie", PointShape(Point(0.0, 0.0)), 40.0, 0.0);
    var rows := [a, b];
    assert rows[..1] == [a];
    assert SortedNames([a]) == ["Pharmacie"];
    assert SortedNames(rows) == ["Pharmacie"];
    assert Group(rows, "Pharmacie") == rows;
    assert KeepGroup([a], 25.0) == [a];
    assert !Within(Proj(a), Proj(b), 25.0);
    assert !CloseToAny([a], b, 25.0);
    assert KeepGroup(rows, 25.0) == [a, b];
    assert ["Pharmacie"][..0] == [];
  }
}
