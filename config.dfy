/**
 * The static configuration of the pipeline (code_dvf/config.py): the nine
 * point-of-interest categories, the file each one is written to, its search
 * radius in metres, its tag rule, the raw CSV column types, the columns kept
 * by the first cleaning and the projection pair.
 */
module Config {
  import opened Wrappers

  /** The entries of POINT_INTERET, as an enumerated type. */
  datatype Category =
    | Gares | Commerces | Education | EspacesVerts | Sante
    | Pharmacies | Aeroports | RoutesPrincipales | Industries

  /** POINT_INTERET, in its listed order. */
  const PointInteret: seq<string> :=
    ["gares", "commerces", "education", "espaces_verts", "sante",
     "pharmacies", "aeroports", "routes_principales", "industries"]

  /** The categories in the order of POINT_INTERET. */
  const AllCategories: seq<Category> :=
    [Gares, Commerces, Education, EspacesVerts, Sante,
     Pharmacies, Aeroports, RoutesPrincipales, Industries]

  /** The key of a category in the configuration dictionaries. */
  function Name(c: Category): string
  {
    match c
    case Gares => "gares"
    case Commerces => "commerces"
    case Education => "education"
    case EspacesVerts => "espaces_verts"
    case Sante => "sante"
    case Pharmacies => "pharmacies"
    case Aeroports => "aeroports"
    case RoutesPrincipales => "routes_principales"
    case Industries => "industries"
  }

  /** The position of a category in POINT_INTERET. */
  function Index(c: Category): (k: nat)
    ensures k < |AllCategories| && AllCategories[k] == c
    ensures PointInteret[k] == Name(c)
  {
    match c
    case Gares => 0
    case Commerces => 1
    case Education => 2
    case EspacesVerts => 3
    case Sante => 4
    case Pharmacies => 5
    case Aeroports => 6
    case RoutesPrincipales => 7
    case Industries => 8
  }

  /** Index is the inverse of AllCategories. */
  lemma IndexInverse(i: nat)
    requires i < |AllCategories|
    ensures Index(AllCategories[i]) == i
  {
  }

  /**
   * POINT_INTERET_FICHIER: the parquet file of each category, inside the
   * sorted-OSM directory; the source lists the nine paths one by one, each
   * the category name followed by ".parquet".
   */
  const PointInteretFichier: map<string, string> :=
    map k | k in PointInteret :: k + ".parquet"

  /** DISTANCE_POINT_INTERET: the search radius of each category, in metres. */
  const DistancePointInteret: map<string, int> := map[
    "gares" := 1500,
    "commerces" := 500,
    "education" := 1000,
    "espaces_verts" := 500,
    "sante" := 1000,
    "pharmacies" := 500,
    "aeroports" := 30000,
    "routes_principales" := 1500,
    "industries" := 1000
  ]

  /**
   * The accepted values of one attribute in a tag rule: a finite list, or
   * `True` (any value), which the handlers test with `valeurs is True`.
   */
  datatype Accepted = AnyValue | OneOf(values: seq<string>)

  /** The items of one TAGS_UTILISE entry, in dictionary order. */
  type TagRule = seq<(string, Accepted)>

  /** TAGS_UTILISE: the attribute rules of each category. */
  const TagsUtilise: map<string, TagRule> := map[
    "gares" := [("public_transport", OneOf(["station"]))],
    "commerces" := [("shop", OneOf(["supermarket", "convenience"]))],
    "education" := [("amenity", OneOf(["school", "university"]))],
    "espaces_verts" := [("leisure", OneOf(["park"]))],
    "sante" := [("amenity", OneOf(["hospital", "clinic", "doctors"]))],
    "pharmacies" := [("amenity", OneOf(["pharmacy"]))],
    "aeroports" := [("aeroway", OneOf(["aerodrome"]))],
    "routes_principales" := [("highway", OneOf(["motorway", "trunk"]))],
    "industries" := [("man_made", OneOf(["works"]))]
  ]

  /** The radius of a category, read from DISTANCE_POINT_INTERET. */
  function Radius(c: Category): (r: int)
    ensures 500 <= r <= 30000
  {
    DistancePointInteret[Name(c)]
  }

  /** The tag rule of a category, read from TAGS_UTILISE. */
  function Rules(c: Category): (rule: TagRule)
    ensures |rule| == 1 && rule[0].1.OneOf?
  {
    TagsUtilise[Name(c)]
  }

  /** The output file of a category, read from POINT_INTERET_FICHIER. */
  function FileOf(c: Category): (f: string)
    ensures f == Name(c) + ".parquet"
  {
    assert Name(c) == PointInteret[Index(c)];
    PointInteretFichier[Name(c)]
  }

  const ProjectionEpsgInitial: int := 4326
  const ProjectionEpsgFinal: int := 2154

  /** The polars column types the configuration names. */
  datatype ColumnType = Utf8 | Float64 | Int32 | Date

  /** The raw DVF columns TYPE_COLUMN_CSV_SALE names. */
  const CsvSaleColumns: set<string> :=
    {"id_mutation", "date_mutation", "numero_disposition", "nature_mutation",
     "valeur_fonciere", "adresse_numero", "adresse_suffixe", "adresse_nom_voie",
     "adresse_code_voie", "code_postal", "code_commune", "nom_commune", "code_departement",
     "ancien_code_commune", "ancien_nom_commune", "id_parcelle", "ancien_id_parcelle",
     "numero_volume", "lot1_numero", "lot1_surface_carrez", "lot2_numero",
     "lot2_surface_carrez", "lot3_numero", "lot3_surface_carrez", "lot4_numero",
     "lot4_surface_carrez", "lot5_numero", "lot5_surface_carrez", "nombre_lots",
     "code_type_local", "type_local", "surface_reelle_bati", "nombre_pieces_principales",
     "code_nature_culture", "nature_culture", "code_nature_culture_speciale",
     "nature_culture_speciale", "surface_terrain", "longitude", "latitude", "section_prefixe"}

  /** TYPE_COLUMN_CSV_SALE: every raw DVF column is read as a string. */
  const TypeColumnCsvSale: map<string, ColumnType> :=
    map k | k in CsvSaleColumns :: Utf8

  /** COLUMN_FINAL: the columns the first cleaning keeps, in order. */
  const ColumnFinal: seq<string> :=
    ["date_mutation", "valeur_fonciere", "code_postal", "nom_commune", "code_commune",
     "nature_mutation", "code_departement", "id_parcelle", "type_local",
     "surface_reelle_bati", "surface_terrain", "longitude", "latitude", "adresse_numero",
     "adresse_suffixe", "adresse_nom_voie", "adresse_code_voie"]

  /** The category a dictionary key names, if any: the inverse of Name. */
  function CategoryOf(s: string): (c: Option<Category>)
    ensures c.Some? ==> Name(c.value) == s
  {
    if s == "gares" then Some(Gares)
    else if s == "commerces" then Some(Commerces)
    else if s == "education" then Some(Education)
    else if s == "espaces_verts" then Some(EspacesVerts)
    else if s == "sante" then Some(Sante)
    else if s == "pharmacies" then Some(Pharmacies)
    else if s == "aeroports" then Some(Aeroports)
    else if s == "routes_principales" then Some(RoutesPrincipales)
    else if s == "industries" then Some(Industries)
    else None
  }

  /** CategoryOf undoes Name, so no two categories share a key. */
  lemma CategoryOfName(c: Category)
    ensures CategoryOf(Name(c)) == Some(c)
  {
  }

  /** POINT_INTERET lists nine distinct categories, one per enumerated value, in order. */
  lemma PointInteretIsTheCategoryList()
    ensures |PointInteret| == |AllCategories| == 9
    ensures forall k :: 0 <= k < 9 ==> Name(AllCategories[k]) == PointInteret[k]
    ensures forall c1: Category, c2: Category :: Name(c1) == Name(c2) ==> c1 == c2
    ensures forall i, j :: 0 <= i < j < 9 ==> PointInteret[i] != PointInteret[j]
    ensures forall s :: s in PointInteret <==> CategoryOf(s).Some?
  {
    forall c1: Category, c2: Category | Name(c1) == Name(c2)
      ensures c1 == c2
    {
      CategoryOfName(c1);
      CategoryOfName(c2);
    }
    forall i, j | 0 <= i < j < 9
      ensures PointInteret[i] != PointInteret[j]
    {
      IndexInverse(i);
      IndexInverse(j);
    }
    forall s | CategoryOf(s).Some?
      ensures s in PointInteret
    {
      assert PointInteret[Index(CategoryOf(s).value)] == s;
    }
  }

  /** The three category dictionaries have exactly the keys of POINT_INTERET. */
  lemma DictionariesAreTotal()
    ensures forall k :: k in PointInteretFichier <==> k in PointInteret
    ensures forall k :: k in DistancePointInteret <==> k in PointInteret
    ensures forall k :: k in TagsUtilise <==> k in PointInteret
  {
  }

  /** Every radius lies between 500 and 30000 metres. */
  lemma RadiiInRange()
    ensures forall k :: k in DistancePointInteret ==> 500 <= DistancePointInteret[k] <= 30000
  {
  }

  /** Every tag rule names one attribute with a finite list of values, never `True`. */
  lemma TagRulesAreFinite()
    ensures forall k :: k in TagsUtilise ==>
      |TagsUtilise[k]| == 1 && !TagsUtilise[k][0].1.AnyValue?
  {
  }

  /** The rule attributes of the nine categories (the values of the single rule of each). */
  lemma CategoryRuleAttributes()
    ensures Rules(Gares)[0].0 == "public_transport"
    ensures Rules(Commerces)[0].0 == "shop"
    ensures Rules(Education)[0].0 == "amenity" && Rules(Sante)[0].0 == "amenity"
    ensures Rules(Pharmacies)[0].0 == "amenity"
  {
  }

  /** Every kept column is a raw column, and every raw column is read as a string. */
  lemma ColumnFinalIsTyped()
    ensures forall k :: 0 <= k < |ColumnFinal| ==> ColumnFinal[k] in TypeColumnCsvSale
    ensures forall k :: k in TypeColumnCsvSale ==> TypeColumnCsvSale[k] == Utf8
    ensures |ColumnFinal| == 17
  {
  }

  /** The projection goes from WGS 84 degrees (EPSG 4326) to Lambert-93 metres (EPSG 2154). */
  lemma ProjectionPair()
    ensures ProjectionEpsgInitial == 4326 && ProjectionEpsgFinal == 2154
  {
  }
}
