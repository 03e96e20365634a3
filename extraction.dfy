/**
 * Part 1 of traitement_open_street_map.py: the osmium handler that sorts every
 * node, way and area of the map file into the per-category lists of
 * `poi_data`, and the tables written for each category after the pass.
 *
 * osmium, shapely and pyproj are foreign libraries. A primitive arrives with
 * its tags and its node locations already resolved or not (`None` for a node
 * whose location is invalid); shapely's `is_valid` is the parameter `isValid`;
 * the reprojection followed by `centroid` is the parameter `centroid`.
 */
module Extraction {
  import opened Wrappers
  import opened Geometry
  import Config

  type Tags = map<string, string>

  /** What the three handler callbacks receive. */
  datatype Primitive =
    | Node(id: int, tags: Tags, location: Point)
    | Way(id: int, tags: Tags, nodes: seq<Option<Point>>)
    | Area(id: int, tags: Tags, outerRings: seq<seq<Option<Point>>>)

  /** The shapely geometry stored under 'location'. */
  datatype Shape = PointShape(at: Point) | LineShape(coords: seq<Point>) | PolygonShape(exterior: seq<Point>)

  /** One entry appended to a `poi_data` list: 'id', 'name' and 'location'. */
  datatype PoiRecord = PoiRecord(id: int, name: string, location: Shape)

  /** The test `tag in tags and (valeurs is True or tags[tag] in valeurs)`. */
  predicate TagMatches(tags: Tags, tag: string, accepted: Config.Accepted)
  {
    tag in tags && (accepted.AnyValue? || tags[tag] in accepted.values)
  }

  /** Some attribute of the rule is present with an accepted value. */
  predicate RuleMatches(tags: Tags, rule: Config.TagRule)
  {
    exists k :: 0 <= k < |rule| && TagMatches(tags, rule[k].0, rule[k].1)
  }

  /** `tags.get('name', '')`. */
  function NameTag(tags: Tags): string
  {
    if "name" in tags then tags["name"] else ""
  }

  /** `[(n.lon, n.lat) for n in w.nodes if n.location.valid()]`. */
  function ValidLocations(nodes: seq<Option<Point>>): (coords: seq<Point>)
    ensures |coords| <= |nodes|
    ensures forall p :: p in coords <==> Some(p) in nodes
  {
    if nodes == [] then []
    else
      var rest := ValidLocations(nodes[1..]);
      assert forall o :: o in nodes <==> o == nodes[0] || o in nodes[1..];
      if nodes[0].Some? then [nodes[0].value] + rest else rest
  }

  /**
   * `[(n.lon, n.lat) for n in ring]`, which raises (None here) as soon as one
   * node of the ring has no valid location.
   */
  function Resolve(ring: seq<Option<Point>>): (r: Option<seq<Point>>)
    ensures r.Some? <==> forall i :: 0 <= i < |ring| ==> ring[i].Some?
    ensures r.Some? ==> |r.value| == |ring| && forall i :: 0 <= i < |ring| ==> ring[i] == Some(r.value[i])
  {
    if ring == [] then Some([])
    else if ring[0].None? then None
    else
      match Resolve(ring[1..])
      case None => None
      case Some(rest) => Some([ring[0].value] + rest)
  }

  /**
   * Whether shapely's `Polygon(coords)` can be built: the exterior ring is
   * closed by repeating its first point unless it already ends on it, and a
   * closed ring needs at least four coordinates, so three coordinates whose
   * first and last coincide raise.
   */
  predicate PolygonBuilds(coords: seq<Point>)
  {
    |coords| >= 4 || (|coords| == 3 && coords[0] != coords[2])
  }

  /** The record a primitive contributes to a category with rule `rule`, if any. */
  function Emitted(rule: Config.TagRule, p: Primitive, isValid: seq<Point> -> bool): (r: Option<PoiRecord>)
    ensures r.Some? ==> RuleMatches(p.tags, rule) && r.value.id == p.id && r.value.name == NameTag(p.tags)
    ensures p.Node? ==> (r.Some? <==> RuleMatches(p.tags, rule))
  {
    if !RuleMatches(p.tags, rule) then None
    else
      match p
      case Node(id, tags, location) => Some(PoiRecord(id, NameTag(tags), PointShape(location)))
      case Way(id, tags, nodes) =>
        var coords := ValidLocations(nodes);
        if |coords| >= 3 then
          if PolygonBuilds(coords) then Some(PoiRecord(id, NameTag(tags), PolygonShape(coords))) else None
        else if |coords| == 2 then Some(PoiRecord(id, NameTag(tags), LineShape(coords)))
        else None
      case Area(id, tags, rings) =>
        if |rings| > 0 && |rings[0]| >= 3 then
          match Resolve(rings[0])
          case None => None
          case Some(exterior) =>
            if PolygonBuilds(exterior) && isValid(exterior)
            then Some(PoiRecord(id, NameTag(tags), PolygonShape(exterior)))
            else None
        else None
  }

  function AsSeq(o: Option<PoiRecord>): seq<PoiRecord>
  {
    if o.Some? then [o.value] else []
  }

  /** `poi_data` after one more primitive has gone through the handler. */
  function Appended(data: map<Config.Category, seq<PoiRecord>>, p: Primitive, isValid: seq<Point> -> bool)
    : (r: map<Config.Category, seq<PoiRecord>>)
    ensures r.Keys == data.Keys
    ensures forall c :: c in data ==> data[c] <= r[c] && |r[c]| <= |data[c]| + 1
  {
    map c | c in data :: data[c] + AsSeq(Emitted(Config.Rules(c), p, isValid))
  }

  /** `poi_data` after a whole pass over `prims`, in file order. */
  function ExtractAll(data: map<Config.Category, seq<PoiRecord>>, prims: seq<Primitive>, isValid: seq<Point> -> bool)
    : (r: map<Config.Category, seq<PoiRecord>>)
    ensures r.Keys == data.Keys
    decreases |prims|
  {
    if prims == [] then data
    else Appended(ExtractAll(data, prims[..|prims| - 1], isValid), prims[|prims| - 1], isValid)
  }

  /** The records one category collects over a pass, in file order. */
  function Collected(rule: Config.TagRule, prims: seq<Primitive>, isValid: seq<Point> -> bool): seq<PoiRecord>
    decreases |prims|
  {
    if prims == [] then []
    else Collected(rule, prims[..|prims| - 1], isValid) + AsSeq(Emitted(rule, prims[|prims| - 1], isValid))
  }

  /** Over a pass, each category's list grows by exactly the records that category collects, in file order. */
  lemma {:induction false} ExtractAllPerCategory(data: map<Config.Category, seq<PoiRecord>>, prims: seq<Primitive>,
                                                 isValid: seq<Point> -> bool, c: Config.Category)
    requires c in data
    ensures c in ExtractAll(data, prims, isValid)
    ensures ExtractAll(data, prims, isValid)[c] == data[c] + Collected(Config.Rules(c), prims, isValid)
    decreases |prims|
  {
    if prims != [] {
      ExtractAllPerCategory(data, prims[..|prims| - 1], isValid, c);
    }
  }

  /**
   * A category collects at most one record per primitive, and each record
   * comes from a primitive that primitive's classification emits.
   */
  lemma {:induction false} CollectedFromPrimitives(rule: Config.TagRule, prims: seq<Primitive>, isValid: seq<Point> -> bool)
    ensures |Collected(rule, prims, isValid)| <= |prims|
    ensures forall r :: r in Collected(rule, prims, isValid) ==>
      exists i :: 0 <= i < |prims| && Emitted(rule, prims[i], isValid) == Some(r)
    decreases |prims|
  {
    if prims != [] {
      var init := prims[..|prims| - 1];
      CollectedFromPrimitives(rule, init, isValid);
      forall r | r in Collected(rule, prims, isValid)
        ensures exists i :: 0 <= i < |prims| && Emitted(rule, prims[i], isValid) == Some(r)
      {
        if r in Collected(rule, init, isValid) {
          var i :| 0 <= i < |init| && Emitted(rule, init[i], isValid) == Some(r);
          assert prims[i] == init[i];
        } else {
          assert Emitted(rule, prims[|prims| - 1], isValid) == Some(r);
        }
      }
    }
  }

  /** A node lands in a category exactly when that category's rule matches, and at most once. */
  lemma NodeLandsIn(data: map<Config.Category, seq<PoiRecord>>, id: int, tags: Tags, location: Point,
                    isValid: seq<Point> -> bool, c: Config.Category)
    requires c in data
    ensures var data' := Appended(data, Primitive.Node(id, tags, location), isValid);
      c in data' && data'[c][..|data[c]|] == data[c]
      && |data'[c]| == |data[c]| + (if RuleMatches(tags, Config.Rules(c)) then 1 else 0)
      && (RuleMatches(tags, Config.Rules(c)) ==> data'[c][|data[c]|] == PoiRecord(id, NameTag(tags), PointShape(location)))
  {
  }

  /**
   * A matching way yields a polygon from three or more valid locations, a
   * line from exactly two and nothing from fewer; only valid locations count.
   */
  lemma WayClassification(rule: Config.TagRule, id: int, tags: Tags, nodes: seq<Option<Point>>, isValid: seq<Point> -> bool)
    ensures var coords := ValidLocations(nodes);
      var e := Emitted(rule, Primitive.Way(id, tags, nodes), isValid);
      && (e.Some? <==> RuleMatches(tags, rule) && (|coords| == 2 || (|coords| >= 3 && PolygonBuilds(coords))))
      && (e.Some? ==> e.value.id == id && e.value.name == NameTag(tags))
      && (e.Some? ==> (e.value.location.PolygonShape? <==> |coords| >= 3))
      && (e.Some? ==> (e.value.location.LineShape? <==> |coords| == 2))
      && (e.Some? ==> e.value.location == (if |coords| >= 3 then PolygonShape(coords) else LineShape(coords)))
  {
  }

  /**
   * A matching area is kept exactly when its first outer ring has at least
   * three nodes, all located, that build a polygon shapely calls valid.
   */
  lemma AreaClassification(rule: Config.TagRule, id: int, tags: Tags, rings: seq<seq<Option<Point>>>, isValid: seq<Point> -> bool)
    ensures var e := Emitted(rule, Primitive.Area(id, tags, rings), isValid);
      && (e.Some? <==> RuleMatches(tags, rule) && |rings| > 0 && |rings[0]| >= 3
                       && (forall i :: 0 <= i < |rings[0]| ==> rings[0][i].Some?)
                       && PolygonBuilds(Resolve(rings[0]).value) && isValid(Resolve(rings[0]).value))
      && (e.Some? ==> e.value == PoiRecord(id, NameTag(tags), PolygonShape(Resolve(rings[0]).value)))
  {
  }

  /**
   * The category loop never breaks: a node tagged both as a supermarket and
   * as a school is emitted into "commerces" and into "education".
   */
  lemma NodeInSeveralCategories(isValid: seq<Point> -> bool)
    ensures var n := Primitive.Node(7, map["shop" := "supermarket", "amenity" := "school"], Point(0.0, 0.0));
      Emitted(Config.Rules(Config.Commerces), n, isValid).Some?
      && Emitted(Config.Rules(Config.Education), n, isValid).Some?
      && Emitted(Config.Rules(Config.Sante), n, isValid).None?
  {
    var tags := map["shop" := "supermarket", "amenity" := "school"];
    assert Config.Rules(Config.Commerces) == [("shop", Config.OneOf(["supermarket", "convenience"]))];
    assert Config.Rules(Config.Education) == [("amenity", Config.OneOf(["school", "university"]))];
    assert Config.Rules(Config.Sante) == [("amenity", Config.OneOf(["hospital", "clinic", "doctors"]))];
    assert TagMatches(tags, "shop", Config.OneOf(["supermarket", "convenience"]));
    assert TagMatches(tags, "amenity", Config.OneOf(["school", "university"]));
    assert !TagMatches(tags, "amenity", Config.OneOf(["hospital", "clinic", "doctors"]));
  }

  /**
   * A pass over one pharmacy node, one pharmacy way with three distinct
   * located nodes and one pharmacy way with a single located node gives the
   * category two records: the point and the polygon.
   */
  lemma ThreePrimitivesTwoRecords(isValid: seq<Point> -> bool)
    ensures var tags := map["amenity" := "pharmacy"];
      var a, b, c := Point(0.0, 0.0), Point(10.0, 0.0), Point(0.0, 10.0);
      var prims := [Primitive.Node(1, tags, a), Primitive.Way(2, tags, [Some(a), Some(b), Some(c)]),
                    Primitive.Way(3, tags, [Some(b), None])];
      Collected(Config.Rules(Config.Pharmacies), prims, isValid)
        == [PoiRecord(1, "", PointShape(a)), PoiRecord(2, "", PolygonShape([a, b, c]))]
  {
    var tags := map["amenity" := "pharmacy"];
    var a, b, c := Point(0.0, 0.0), Point(10.0, 0.0), Point(0.0, 10.0);
    var rule := Config.Rules(Config.Pharmacies);
    var p0, p1, p2 := Primitive.Node(1, tags, a), Primitive.Way(2, tags, [Some(a), Some(b), Some(c)]),
                      Primitive.Way(3, tags, [Some(b), None]);
    PharmacyPrimitives(isValid);
    CollectedThree(rule, p0, p1, p2, isValid);
  }

  /** What each of the three pharmacy primitives contributes. */
  lemma PharmacyPrimitives(isValid: seq<Point> -> bool)
    ensures var tags := map["amenity" := "pharmacy"];
      var a, b, c := Point(0.0, 0.0), Point(10.0, 0.0), Point(0.0, 10.0);
      var rule := Config.Rules(Config.Pharmacies);
      && Emitted(rule, Primitive.Node(1, tags, a), isValid) == Some(PoiRecord(1, "", PointShape(a)))
      && Emitted(rule, Primitive.Way(2, tags, [Some(a), Some(b), Some(c)]), isValid) == Some(PoiRecord(2, "", PolygonShape([a, b, c])))
      && Emitted(rule, Primitive.Way(3, tags, [Some(b), None]), isValid) == None
  {
    var tags := map["amenity" := "pharmacy"];
    var a, b, c := Point(0.0, 0.0), Point(10.0, 0.0), Point(0.0, 10.0);
    var rule := Config.Rules(Config.Pharmacies);
    assert rule == [("amenity", Config.OneOf(["pharmacy"]))];
    assert TagMatches(tags, rule[0].0, rule[0].1);
    assert ValidLocations([Some(a), Some(b), Some(c)]) == [a, b, c];
    assert ValidLocations([Some(b), None]) == [b];
    assert PolygonBuilds([a, b, c]);
  }

  /** A pass over three primitives collects what each emits, in order. */
  lemma CollectedThree(rule: Config.TagRule, p0: Primitive, p1: Primitive, p2: Primitive, isValid: seq<Point> -> bool)
    ensures Collected(rule, [p0, p1, p2], isValid) ==
      AsSeq(Emitted(rule, p0, isValid)) + AsSeq(Emitted(rule, p1, isValid)) + AsSeq(Emitted(rule, p2, isValid))
  {
    var e0, e1, e2 := AsSeq(Emitted(rule, p0, isValid)), AsSeq(Emitted(rule, p1, isValid)), AsSeq(Emitted(rule, p2, isValid));
    assert [p0][..0] == [];
    assert Collected(rule, [p0], isValid) == e0;
    assert [p0, p1][..1] == [p0];
    assert Collected(rule, [p0, p1], isValid) == e0 + e1;
    assert [p0, p1, p2][..2] == [p0, p1];
  }

  /** One row of a category's parquet table: the record plus its projected centroid. */
  datatype PoiRow = PoiRow(id: int, name: string, location: Shape, xProj: real, yProj: real)

  /**
   * A category's parquet table: `Bare` is the empty geometry-only table
   * written when nothing matched (it has no x_proj / y_proj columns);
   * `Projected` carries x_proj / y_proj on every row.
   */
  datatype PoiTable = Bare | Projected(rows: seq<PoiRow>)

  /**
   * The table written for one category's list: the empty geometry-only
   * table for an empty list, otherwise one row per record, in order, each
   * carrying the projected centroid of its geometry.
   */
  function OutputTable(objets: seq<PoiRecord>, centroid: Shape -> Point): (t: PoiTable)
    ensures t.Bare? <==> objets == []
    ensures t.Projected? ==> |t.rows| == |objets|
    ensures t.Projected? ==> forall i :: 0 <= i < |objets| ==>
      && PoiRecord(t.rows[i].id, t.rows[i].name, t.rows[i].location) == objets[i]
      && Point(t.rows[i].xProj, t.rows[i].yProj) == centroid(objets[i].location)
  {
    if objets == [] then Bare
    else Projected(seq(|objets|, i requires 0 <= i < |objets| =>
      PoiRow(objets[i].id, objets[i].name, objets[i].location,
             centroid(objets[i].location).x, centroid(objets[i].location).y)))
  }

  /** The loop over `poi_data.items()`: every category gets a table, even when nothing matched. */
  function OutputTables(data: map<Config.Category, seq<PoiRecord>>, centroid: Shape -> Point)
    : (tables: map<Config.Category, PoiTable>)
    requires forall c: Config.Category :: c in data
    ensures forall c: Config.Category :: c in tables && tables[c] == OutputTable(data[c], centroid)
  {
    map c: Config.Category | c in data :: OutputTable(data[c], centroid)
  }

  /** The `Handler(osmium.SimpleHandler)` of the source, with the `poi_data` dictionary it fills. */
  class Handler {
    var poiData: map<Config.Category, seq<PoiRecord>>
    const isValid: seq<Point> -> bool

    ghost predicate Valid()
      reads this
    {
      forall c: Config.Category :: c in poiData
    }

    /** `poi_data = {poi: [] for poi in POINT_INTERET}`. */
    constructor (isValid: seq<Point> -> bool)
      ensures Valid() && this.isValid == isValid
      ensures forall c: Config.Category :: poiData[c] == []
    {
      this.isValid := isValid;
      poiData := map c | c in Config.AllCategories :: [];
      new;
      forall c: Config.Category ensures c in poiData {
        assert Config.AllCategories[Config.Index(c)] == c;
      }
    }

    /** `poi_data` once the categories before position `i` of `POINT_INTERET` have received their `add`. */
    static ghost function PartlyAppended(data0: map<Config.Category, seq<PoiRecord>>,
                                         add: Config.Category -> seq<PoiRecord>, i: nat): map<Config.Category, seq<PoiRecord>>
    {
      map c | c in data0 :: if Config.Index(c) < i then data0[c] + add(c) else data0[c]
    }

    /** Handling the category at position `i` moves the loop on by one. */
    static lemma StepCategory(data0: map<Config.Category, seq<PoiRecord>>, add: Config.Category -> seq<PoiRecord>, i: nat)
      requires i < |Config.AllCategories|
      requires forall c: Config.Category :: c in data0
      ensures var data := PartlyAppended(data0, add, i);
        var poi := Config.AllCategories[i];
        && poi in data
        && data[poi := data[poi] + add(poi)] == PartlyAppended(data0, add, i + 1)
    {
      Config.IndexInverse(i);
    }

    /** The additions primitive `p` brings to each category. */
    static ghost function Additions(p: Primitive, isValid: seq<Point> -> bool): Config.Category -> seq<PoiRecord>
    {
      c => AsSeq(Emitted(Config.Rules(c), p, isValid))
    }

    /** Before the loop nothing is added; once every category has been handled, the loop has computed Appended. */
    static lemma AllCategoriesDone(data0: map<Config.Category, seq<PoiRecord>>, p: Primitive, isValid: seq<Point> -> bool)
      requires forall c: Config.Category :: c in data0
      ensures PartlyAppended(data0, Additions(p, isValid), |Config.AllCategories|) == Appended(data0, p, isValid)
      ensures PartlyAppended(data0, Additions(p, isValid), 0) == data0
    {
    }

    /** `node(self, n)`: every category whose rule matches receives the point. */
    method Node(id: int, tags: Tags, location: Point)
      requires Valid()
      modifies this
      ensures Valid()
      ensures poiData == Appended(old(poiData), Primitive.Node(id, tags, location), isValid)
    {
      ghost var p := Primitive.Node(id, tags, location);
      ghost var add := Additions(p, isValid);
      AllCategoriesDone(poiData, p, isValid);
      for i := 0 to |Config.AllCategories|
        invariant poiData == PartlyAppended(old(poiData), add, i)
      {
        StepCategory(old(poiData), add, i);
        var poi := Config.AllCategories[i];
        NodeInto(poi, Config.Rules(poi), id, tags, location);
      }
    }

    /** The tag loop of `node` for one category: append on the first matching attribute, then `break`. */
    method NodeInto(poi: Config.Category, rule: Config.TagRule, id: int, tags: Tags, location: Point)
      requires poi in poiData
      modifies this
      ensures poiData == old(poiData)[poi := old(poiData)[poi] + AsSeq(Emitted(rule, Primitive.Node(id, tags, location), isValid))]
    {
      var k := 0;
      while k < |rule|
        invariant 0 <= k <= |rule|
        invariant forall j :: 0 <= j < k ==> !TagMatches(tags, rule[j].0, rule[j].1)
        invariant poiData == old(poiData)
      {
        var (tag, valeurs) := rule[k];
        if tag in tags && (valeurs.AnyValue? || tags[tag] in valeurs.values) {
          poiData := poiData[poi := poiData[poi] + [PoiRecord(id, NameTag(tags), PointShape(location))]];
          break;
        }
        k := k + 1;
      }
      if k == |rule| {
        assert old(poiData)[poi] + [] == old(poiData)[poi];
        assert old(poiData)[poi := old(poiData)[poi] + []] == old(poiData);
      }
    }

    /** `way(self, w)`: every category whose rule matches receives the way's line or polygon. */
    method Way(id: int, tags: Tags, nodes: seq<Option<Point>>)
      requires Valid()
      modifies this
      ensures Valid()
      ensures poiData == Appended(old(poiData), Primitive.Way(id, tags, nodes), isValid)
    {
      ghost var p := Primitive.Way(id, tags, nodes);
      ghost var add := Additions(p, isValid);
      AllCategoriesDone(poiData, p, isValid);
      for i := 0 to |Config.AllCategories|
        invariant poiData == PartlyAppended(old(poiData), add, i)
      {
        StepCategory(old(poiData), add, i);
        var poi := Config.AllCategories[i];
        WayInto(poi, Config.Rules(poi), id, tags, nodes);
      }
    }

    /**
     * The tag loop of `way` for one category: on a matching attribute, three
     * or more valid locations make a polygon and two a line, then `break`;
     * with fewer the loop `continue`s to the category's next attribute.
     */
    method WayInto(poi: Config.Category, rule: Config.TagRule, id: int, tags: Tags, nodes: seq<Option<Point>>)
      requires poi in poiData
      modifies this
      ensures poiData == old(poiData)[poi := old(poiData)[poi] + AsSeq(Emitted(rule, Primitive.Way(id, tags, nodes), isValid))]
    {
      var k := 0;
      while k < |rule|
        invariant 0 <= k <= |rule|
        invariant |ValidLocations(nodes)| >= 2 ==> forall j :: 0 <= j < k ==> !TagMatches(tags, rule[j].0, rule[j].1)
        invariant poiData == old(poiData)
      {
        var (tag, valeurs) := rule[k];
        if tag in tags && (valeurs.AnyValue? || tags[tag] in valeurs.values) {
          var coords := ValidLocations(nodes);
          if |coords| < 2 {
            k := k + 1;
            continue;
          }
          if |coords| >= 3 && !PolygonBuilds(coords) {
            // Polygon(coords) raises: `except: pass`, then `break`.
            assert old(poiData)[poi] + [] == old(poiData)[poi];
            assert old(poiData)[poi := old(poiData)[poi] + []] == old(poiData);
            break;
          }
          var geom := if |coords| >= 3 then PolygonShape(coords) else LineShape(coords);
          poiData := poiData[poi := poiData[poi] + [PoiRecord(id, NameTag(tags), geom)]];
          break;
        }
        k := k + 1;
      }
      if k == |rule| {
        assert old(poiData)[poi] + [] == old(poiData)[poi];
        assert old(poiData)[poi := old(poiData)[poi] + []] == old(poiData);
      }
    }

    /** `area(self, a)`: every category whose rule matches receives the area's valid polygon. */
    method Area(id: int, tags: Tags, outerRings: seq<seq<Option<Point>>>)
      requires Valid()
      modifies this
      ensures Valid()
      ensures poiData == Appended(old(poiData), Primitive.Area(id, tags, outerRings), isValid)
    {
      ghost var p := Primitive.Area(id, tags, outerRings);
      ghost var add := Additions(p, isValid);
      AllCategoriesDone(poiData, p, isValid);
      for i := 0 to |Config.AllCategories|
        invariant poiData == PartlyAppended(old(poiData), add, i)
      {
        StepCategory(old(poiData), add, i);
        var poi := Config.AllCategories[i];
        AreaInto(poi, Config.Rules(poi), id, tags, outerRings);
      }
    }

    /**
     * The tag loop of `area` for one category: on the first matching
     * attribute, the first outer ring must have three or more nodes, all
     * located, form a buildable polygon and be valid; in every case `break`.
     */
    method AreaInto(poi: Config.Category, rule: Config.TagRule, id: int, tags: Tags, outerRings: seq<seq<Option<Point>>>)
      requires poi in poiData
      modifies this
      ensures poiData == old(poiData)[poi := old(poiData)[poi] + AsSeq(Emitted(rule, Primitive.Area(id, tags, outerRings), isValid))]
    {
      var k := 0;
      while k < |rule|
        invariant 0 <= k <= |rule|
        invariant forall j :: 0 <= j < k ==> !TagMatches(tags, rule[j].0, rule[j].1)
        invariant poiData == old(poiData)
      {
        var (tag, valeurs) := rule[k];
        if tag in tags && (valeurs.AnyValue? || tags[tag] in valeurs.values) {
          var rings := outerRings;
          if |rings| > 0 && |rings[0]| >= 3 {
            // An unlocated node raises while the exterior is read: `except: pass`.
            var exterior := Resolve(rings[0]);
            if exterior.Some? && PolygonBuilds(exterior.value) && isValid(exterior.value) {
              poiData := poiData[poi := poiData[poi] + [PoiRecord(id, NameTag(tags), PolygonShape(exterior.value))]];
            }
          }
          assert old(poiData)[poi] + [] == old(poiData)[poi];
          assert old(poiData)[poi := old(poiData)[poi] + []] == old(poiData);
          break;
        }
        k := k + 1;
      }
      if k == |rule| {
        assert old(poiData)[poi] + [] == old(poiData)[poi];
        assert old(poiData)[poi := old(poiData)[poi] + []] == old(poiData);
      }
    }

    /** `Handler().apply_file(...)`: every primitive of the file, in order. */
    method ApplyFile(prims: seq<Primitive>)
      requires Valid()
      modifies this
      ensures Valid()
      ensures poiData == ExtractAll(old(poiData), prims, isValid)
    {
      for i := 0 to |prims|
        invariant Valid()
        invariant poiData == ExtractAll(old(poiData), prims[..i], isValid)
      {
        assert prims[..i + 1][..i] == prims[..i];
        match prims[i]
        case Node(id, tags, location) => Node(id, tags, location);
        case Way(id, tags, nodes) => Way(id, tags, nodes);
        case Area(id, tags, rings) => Area(id, tags, rings);
      }
      assert prims[..|prims|] == prims;
    }
  }
}
