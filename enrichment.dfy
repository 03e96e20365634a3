/**
 * Proximity features for the sales table (`construire_kdtrees`,
 * `rajout_features_un_element`, `rajout_features_base_entiere`). For each
 * category there is either no index or the array of projected POI
 * positions; the k-d tree's ball query is a scan of that array with a
 * closed-ball test, and distances are compared squared.
 */
module Enrichment {
  import opened Wrappers
  import opened Geometry
  import opened Frames
  import Config
  import Extraction
  import Dedup

  // ---------------------------------------------------------------------
  // The indexes

  /**
   * The dictionary filled by `construire_kdtrees`: a category whose table is
   * the empty geometry-only one (no x_proj / y_proj) or has no row gets no
   * index; any other gets its rows' projected positions, row i at position i.
   */
  method BuildIndexes(tables: map<Config.Category, Extraction.PoiTable>)
    returns (indexes: map<Config.Category, Option<seq<Point>>>)
    ensures indexes.Keys == tables.Keys
    ensures forall c :: c in tables ==>
      (indexes[c].None? <==> tables[c].Bare? || tables[c].rows == [])
    ensures forall c :: c in tables && indexes[c].Some? ==>
      && |indexes[c].value| == |tables[c].rows|
      && forall i :: 0 <= i < |tables[c].rows| ==> indexes[c].value[i] == Dedup.Proj(tables[c].rows[i])
  {
    indexes := map[];
    var todo := tables.Keys;
    while todo != {}
      invariant todo <= tables.Keys
      invariant indexes.Keys == tables.Keys - todo
      invariant forall c :: c in indexes ==>
        (indexes[c].None? <==> tables[c].Bare? || tables[c].rows == [])
      invariant forall c :: c in indexes && indexes[c].Some? ==>
        && |indexes[c].value| == |tables[c].rows|
        && forall i :: 0 <= i < |tables[c].rows| ==> indexes[c].value[i] == Dedup.Proj(tables[c].rows[i])
      decreases todo
    {
      var c :| c in todo;
      var t := tables[c];
      if t.Projected? && t.rows != [] {
        var coords := seq(|t.rows|, i requires 0 <= i < |t.rows| => Dedup.Proj(t.rows[i]));
        indexes := indexes[c := Some(coords)];
      } else {
        indexes := indexes[c := None];
      }
      todo := todo - {c};
    }
  }

  // ---------------------------------------------------------------------
  // One query

  /**
   * `query_ball_point([x, y], r=rayon)`: the positions within `rayon` of `q`.
   * The linear scan lists them in ascending order; the tree's own order is
   * unspecified, and only the count and the minimum are read.
   */
  function BallIndices(pts: seq<Point>, q: Point, rayon: real): (ix: seq<nat>)
    ensures forall k: nat :: k in ix <==> k < |pts| && Within(pts[k], q, rayon)
    ensures forall i :: 0 <= i < |ix| ==> ix[i] < |pts|
    ensures forall i, j :: 0 <= i < j < |ix| ==> ix[i] < ix[j]
    decreases |pts|
  {
    if pts == [] then []
    else
      var init := pts[..|pts| - 1];
      var rest := BallIndices(init, q, rayon);
      assert forall k: nat :: k < |init| ==> init[k] == pts[k];
      rest + (if Within(pts[|pts| - 1], q, rayon) then [|pts| - 1] else [])
  }

  /** `dists.min()` over the squared distances of the selected positions. */
  function MinDist2(pts: seq<Point>, ix: seq<nat>, q: Point): (m: real)
    requires ix != [] && forall i :: 0 <= i < |ix| ==> ix[i] < |pts|
    ensures exists i :: 0 <= i < |ix| && m == Dist2(pts[ix[i]], q)
    ensures forall i :: 0 <= i < |ix| ==> m <= Dist2(pts[ix[i]], q)
    decreases |ix|
  {
    if |ix| == 1 then Dist2(pts[ix[0]], q)
    else
      var m0 := MinDist2(pts, ix[1..], q);
      assert forall i :: 1 <= i < |ix| ==> ix[1..][i - 1] == ix[i];
      var d := Dist2(pts[ix[0]], q);
      if d <= m0 then d else m0
  }

  /** The two features of one category for one sale: a count and, when it is positive, the nearest squared distance. */
  datatype Feature = Feature(count: nat, nearest2: Option<real>)

  function FeatureFor(index: Option<seq<Point>>, q: Point, rayon: real): (f: Feature)
    ensures index.None? ==> f == Feature(0, None)
    ensures f.nearest2.None? <==> f.count == 0
  {
    match index
    case None => Feature(0, None)
    case Some(pts) =>
      var ix := BallIndices(pts, q, rayon);
      if |ix| > 0 then Feature(|ix|, Some(MinDist2(pts, ix, q))) else Feature(0, None)
  }

  /**
   * The count is the number of POIs at distance at most `rayon`; the nearest
   * distance is missing exactly when that count is zero, and otherwise is
   * the least distance among those POIs, hence at most `rayon`.
   */
  lemma FeatureMeaning(pts: seq<Point>, q: Point, rayon: real)
    ensures var f := FeatureFor(Some(pts), q, rayon);
      && f.count == |BallIndices(pts, q, rayon)|
      && (f.nearest2.None? <==> f.count == 0)
      && (f.nearest2.Some? ==>
            && f.nearest2.value <= rayon * rayon
            && (exists k :: 0 <= k < |pts| && Within(pts[k], q, rayon) && Dist2(pts[k], q) == f.nearest2.value)
            && (forall k :: 0 <= k < |pts| && Within(pts[k], q, rayon) ==> f.nearest2.value <= Dist2(pts[k], q)))
  {
    var ix := BallIndices(pts, q, rayon);
    if |ix| > 0 {
      var m := MinDist2(pts, ix, q);
      var i :| 0 <= i < |ix| && m == Dist2(pts[ix[i]], q);
      assert ix[i] in ix;
      forall k | 0 <= k < |pts| && Within(pts[k], q, rayon) ensures m <= Dist2(pts[k], q) {
        assert (k as nat) in ix;
        var j :| 0 <= j < |ix| && ix[j] == k;
      }
    }
  }

  /** A larger radius never finds fewer POIs. */
  lemma {:induction false} CountMonotone(pts: seq<Point>, q: Point, r1: real, r2: real)
    requires r1 <= r2
    ensures |BallIndices(pts, q, r1)| <= |BallIndices(pts, q, r2)|
    decreases |pts|
  {
    if pts != [] {
      CountMonotone(pts[..|pts| - 1], q, r1, r2);
      WithinMonotone(pts[|pts| - 1], q, r1, r2);
    }
  }

  /** POIs at (3, 4) and (30, 40) seen from the origin with a 10 m radius: one POI, nearest at distance 5. */
  lemma OnePoiInRange()
    ensures FeatureFor(Some([Point(3.0, 4.0), Point(30.0, 40.0)]), Point(0.0, 0.0), 10.0) == Feature(1, Some(25.0))
  {
    var pts := [Point(3.0, 4.0), Point(30.0, 40.0)];
    var q := Point(0.0, 0.0);
    assert pts[..1] == [Point(3.0, 4.0)];
    assert [Point(3.0, 4.0)][..0] == [];
    assert Within(pts[0], q, 10.0);
    assert !Within(pts[1], q, 10.0);
    assert BallIndices(pts, q, 10.0) == [0];
  }

  /** A POI exactly on the circle is counted: the ball is closed. */
  lemma BoundaryCounted()
    ensures FeatureFor(Some([Point(6.0, 8.0)]), Point(0.0, 0.0), 10.0) == Feature(1, Some(100.0))
  {
    assert [Point(6.0, 8.0)][..0] == [];
    assert Within(Point(6.0, 8.0), Point(0.0, 0.0), 10.0);
  }

  // ---------------------------------------------------------------------
  // One sale's feature dictionary

  function NbKey(c: Config.Category): string
  {
    "nb_" + Config.Name(c)
  }

  function DistKey(c: Config.Category): string
  {
    "distance_min_" + Config.Name(c)
  }

  /** The column names never collide: latitude, longitude and one distinct pair per category. */
  lemma KeysDistinct(c: Config.Category, d: Config.Category)
    ensures NbKey(c) != DistKey(d)
    ensures NbKey(c) != "latitude" && NbKey(c) != "longitude"
    ensures DistKey(c) != "latitude" && DistKey(c) != "longitude"
    ensures NbKey(c) == NbKey(d) ==> c == d
    ensures DistKey(c) == DistKey(d) ==> c == d
  {
    assert NbKey(c)[0] == 'n' && DistKey(d)[0] == 'd' && DistKey(c)[0] == 'd';
    assert "latitude"[0] == 'l' && "longitude"[0] == 'l';
    if NbKey(c) == NbKey(d) {
      assert NbKey(c)[3..] == Config.Name(c) && NbKey(d)[3..] == Config.Name(d);
      Config.PointInteretIsTheCategoryList();
    }
    if DistKey(c) == DistKey(d) {
      assert DistKey(c)[13..] == Config.Name(c) && DistKey(d)[13..] == Config.Name(d);
      Config.PointInteretIsTheCategoryList();
    }
  }

  /**
   * The value written in `distance_min_<poi>`: NaN when nothing is in range,
   * otherwise `metres` of the nearest squared distance (`metres` stands for
   * the square root followed by rounding to two decimals).
   */
  function DistanceCell(f: Feature, metres: real -> real): Cell
  {
    if f.nearest2.Some? then Num(metres(f.nearest2.value)) else NaN
  }

  /** The column names the features of the categories in `cats` occupy. */
  ghost function FeatureKeys(cats: set<Config.Category>): set<string>
  {
    (set c | c in cats :: NbKey(c)) + (set c | c in cats :: DistKey(c))
  }

  lemma FeatureKeysAdd(cats: set<Config.Category>, c: Config.Category)
    ensures FeatureKeys(cats + {c}) == FeatureKeys(cats) + {NbKey(c), DistKey(c)}
  {
  }

  /** `result` holds category `c`'s count and distance, as its index and radius give them. */
  ghost predicate HasFeature(result: Row, c: Config.Category, q: Point, index: Option<seq<Point>>, metres: real -> real)
  {
    var f := FeatureFor(index, q, Config.Radius(c) as real);
    && NbKey(c) in result && result[NbKey(c)] == Int(f.count)
    && DistKey(c) in result && result[DistKey(c)] == DistanceCell(f, metres)
  }

  /** `result` holds latitude, longitude and the features of exactly the categories in `done`. */
  ghost predicate FeaturesFor(result: Row, lat: Cell, lon: Cell, q: Point, done: set<Config.Category>,
                              indexes: map<Config.Category, Option<seq<Point>>>, metres: real -> real)
    requires done <= indexes.Keys
  {
    && result.Keys == {"latitude", "longitude"} + FeatureKeys(done)
    && result["latitude"] == lat
    && result["longitude"] == lon
    && forall c :: c in done ==> HasFeature(result, c, q, indexes[c], metres)
  }

  /** `result` is the dictionary `rajout_features_un_element` returns for one sale. */
  ghost predicate FeatureRow(result: Row, lat: Cell, lon: Cell, q: Point,
                             indexes: map<Config.Category, Option<seq<Point>>>, metres: real -> real)
  {
    FeaturesFor(result, lat, lon, q, indexes.Keys, indexes, metres)
  }

  /** One category's two values, from its index (or its absence) and its radius. */
  method CategoryFeature(index: Option<seq<Point>>, q: Point, rayon: real, metres: real -> real)
    returns (nb: nat, distance: Cell)
    ensures Int(nb) == Int(FeatureFor(index, q, rayon).count)
    ensures distance == DistanceCell(FeatureFor(index, q, rayon), metres)
  {
    match index {
      case None =>
        nb, distance := 0, NaN;
      case Some(pts) =>
        var indices := BallIndices(pts, q, rayon);
        nb := |indices|;
        if nb > 0 {
          distance := Num(metres(MinDist2(pts, indices, q)));
        } else {
          distance := NaN;
        }
    }
  }

  /** Writing one more category's pair keeps every earlier entry. */
  lemma FeaturesStep(result: Row, lat: Cell, lon: Cell, q: Point, done: set<Config.Category>, c: Config.Category,
                     indexes: map<Config.Category, Option<seq<Point>>>, metres: real -> real, nb: Cell, distance: Cell)
    requires done <= indexes.Keys && c in indexes && c !in done
    requires FeaturesFor(result, lat, lon, q, done, indexes, metres)
    requires var f := FeatureFor(indexes[c], q, Config.Radius(c) as real);
      nb == Int(f.count) && distance == DistanceCell(f, metres)
    ensures FeaturesFor(result[NbKey(c) := nb][DistKey(c) := distance], lat, lon, q, done + {c}, indexes, metres)
  {
    var result' := result[NbKey(c) := nb][DistKey(c) := distance];
    StepKeys(result, done, c, nb, distance);
    assert HasFeature(result', c, q, indexes[c], metres);
    forall d | d in done
      ensures HasFeature(result', d, q, indexes[d], metres)
    {
      FeatureKept(result, c, d, nb, distance, q, indexes[d], metres);
    }
  }

  /** Writing category `c`'s pair leaves another category's pair as it was. */
  lemma FeatureKept(result: Row, c: Config.Category, d: Config.Category, nb: Cell, distance: Cell,
                    q: Point, index: Option<seq<Point>>, metres: real -> real)
    requires c != d && HasFeature(result, d, q, index, metres)
    ensures HasFeature(result[NbKey(c) := nb][DistKey(c) := distance], d, q, index, metres)
  {
    KeysDistinct(c, d);
    KeysDistinct(d, c);
  }

  /** The keys after writing one more category's pair. */
  lemma StepKeys(result: Row, done: set<Config.Category>, c: Config.Category, nb: Cell, distance: Cell)
    requires result.Keys == {"latitude", "longitude"} + FeatureKeys(done)
    ensures var result' := result[NbKey(c) := nb][DistKey(c) := distance];
      && result'.Keys == {"latitude", "longitude"} + FeatureKeys(done + {c})
      && result'["latitude"] == result["latitude"] && result'["longitude"] == result["longitude"]
      && result'[NbKey(c)] == nb
  {
    KeysDistinct(c, c);
    FeatureKeysAdd(done, c);
  }

  /**
   * `rajout_features_un_element` for the sale at projected point `q`: the
   * loop over the categories adds, for each, the count of points within its
   * radius and the distance to the nearest of them (NaN when none).
   */
  method EnrichOne(lat: Cell, lon: Cell, q: Point,
                   indexes: map<Config.Category, Option<seq<Point>>>, metres: real -> real)
    returns (result: Row)
    ensures FeatureRow(result, lat, lon, q, indexes, metres)
  {
    result := map["latitude" := lat, "longitude" := lon];
    var todo := indexes.Keys;
    ghost var done: set<Config.Category> := {};
    assert FeatureKeys({}) == {};
    while todo != {}
      invariant done + todo == indexes.Keys && done !! todo
      invariant FeaturesFor(result, lat, lon, q, done, indexes, metres)
      decreases todo
    {
      var c :| c in todo;
      var nb, distance := CategoryFeature(indexes[c], q, Config.Radius(c) as real, metres);
      FeaturesStep(result, lat, lon, q, done, c, indexes, metres, Int(nb), distance);
      result := result[NbKey(c) := Int(nb)][DistKey(c) := distance];
      done, todo := done + {c}, todo - {c};
    }
  }

  // ---------------------------------------------------------------------
  // The whole table

  /**
   * Row `row'` is sale `row` with the features merged in: it has the
   * original columns plus one count and one distance column per category;
   * latitude, longitude and every column that is not a feature column keep
   * their values; the feature columns hold the sale's features.
   */
  ghost predicate EnrichedRow(row: Row, row': Row, q: Point,
                              indexes: map<Config.Category, Option<seq<Point>>>, metres: real -> real)
  {
    && row'.Keys == row.Keys + {"latitude", "longitude"} + FeatureKeys(indexes.Keys)
    && (forall k :: k in row && k !in FeatureKeys(indexes.Keys) ==> row'[k] == row[k])
    && forall c :: c in indexes ==> HasFeature(row', c, q, indexes[c], metres)
  }

  /** `df.with_columns(...)` over one row: the feature dictionary's columns overwrite, the rest stay. */
  lemma MergeEnriches(row: Row, result: Row, q: Point,
                      indexes: map<Config.Category, Option<seq<Point>>>, metres: real -> real)
    requires "latitude" in row && "longitude" in row
    requires FeatureRow(result, row["latitude"], row["longitude"], q, indexes, metres)
    ensures EnrichedRow(row, row + result, q, indexes, metres)
  {
    var row' := row + result;
    forall k | k in row && k !in FeatureKeys(indexes.Keys) ensures row'[k] == row[k] {
      if k == "latitude" || k == "longitude" {
        assert row'[k] == result[k];
      } else {
        assert k !in result;
      }
    }
    forall c | c in indexes ensures HasFeature(row', c, q, indexes[c], metres) {
      assert HasFeature(result, c, q, indexes[c], metres);
    }
  }

  /**
   * `rajout_features_base_entiere`: `proj` is the projection of every sale's
   * (longitude, latitude), row by row. The result has the same rows in the
   * same order, each enriched with its own features.
   */
  method EnrichTable(rows: seq<Row>, proj: seq<Point>,
                     indexes: map<Config.Category, Option<seq<Point>>>, metres: real -> real)
    returns (enriched: seq<Row>)
    requires |proj| == |rows|
    requires forall i :: 0 <= i < |rows| ==> "latitude" in rows[i] && "longitude" in rows[i]
    ensures |enriched| == |rows|
    ensures forall i :: 0 <= i < |rows| ==> EnrichedRow(rows[i], enriched[i], proj[i], indexes, metres)
  {
    enriched := [];
    for i := 0 to |rows|
      invariant |enriched| == i
      invariant forall j :: 0 <= j < i ==> EnrichedRow(rows[j], enriched[j], proj[j], indexes, metres)
    {
      var result := EnrichOne(rows[i]["latitude"], rows[i]["longitude"], proj[i], indexes, metres);
      MergeEnriches(rows[i], result, proj[i], indexes, metres);
      enriched := enriched + [rows[i] + result];
    }
  }
}
