/**
 * The loading of scraped listings into the SQLite database
 * (DatabaseCreation/deferla_database.py, insert_data_from_json): every
 * item of the JSON array becomes one `annonces` row (insert or replace by
 * id), one `diagnostics` row (insert or replace by listing id) and its
 * `images` rows (appended). The cursor statements run in one transaction
 * that is committed only after the last item: any exception leaves the
 * database as it was.
 */
module Listings {
  import opened Wrappers

  // ---------------------------------------------------------------------
  // JSON values and their Python behaviour
  // ---------------------------------------------------------------------

  /** A value `json.load` returns; an object keeps its pairs in text order. */
  datatype Json =
    | JNull
    | JBool(b: bool)
    | JInt(i: int)
    | JReal(r: real)
    | JStr(s: string)
    | JList(items: seq<Json>)
    | JObj(fields: seq<(string, Json)>)

  /** `d.get(k)` on the dict built from `fields`: the last pair for `k` wins. */
  function Get(fields: seq<(string, Json)>, k: string): (o: Option<Json>)
    ensures o.Some? ==> (k, o.value) in fields
    ensures o.None? <==> forall i :: 0 <= i < |fields| ==> fields[i].0 != k
  {
    if fields == [] then None
    else if fields[|fields| - 1].0 == k then Some(fields[|fields| - 1].1)
    else Get(fields[..|fields| - 1], k)
  }

  /** `d.get(k)` with Python's default `None`. */
  function GetOrNull(fields: seq<(string, Json)>, k: string): Json
  {
    match Get(fields, k)
    case Some(v) => v
    case None => JNull
  }

  /** The keys of the dict in iteration order: first occurrences, no repeats. */
  function KeysOf(fields: seq<(string, Json)>): (ks: seq<string>)
    ensures forall k :: k in ks <==> Get(fields, k).Some?
    ensures forall i, j :: 0 <= i < j < |ks| ==> ks[i] != ks[j]
  {
    if fields == [] then []
    else
      var rest := KeysOf(fields[..|fields| - 1]);
      var k := fields[|fields| - 1].0;
      if k in rest then rest else rest + [k]
  }

  /** Python truthiness (`if v:`). */
  predicate Truthy(v: Json)
    ensures !Truthy(v) <==> v in [JNull, JBool(false), JInt(0), JReal(0.0), JStr([]), JList([]), JObj([])]
  {
    match v
    case JNull => false
    case JBool(b) => b
    case JInt(i) => i != 0
    case JReal(r) => r != 0.0
    case JStr(s) => s != []
    case JList(items) => items != []
    case JObj(fields) => fields != []
  }

  /** Python's `a or b`: `a` when it is truthy, `b` otherwise. */
  function Or(a: Json, b: Json): (v: Json)
    ensures v == a || v == b
    ensures Truthy(a) ==> v == a
  {
    if Truthy(a) then a else b
  }

  /**
   * What a `for` loop visits: the elements of a list, the one-character
   * strings of a string, the keys of a dict; anything else raises TypeError.
   */
  function Iterated(v: Json): (o: Option<seq<Json>>)
    ensures o.Some? <==> v.JList? || v.JStr? || v.JObj?
    ensures v.JStr? ==> |o.value| == |v.s|
    ensures v.JObj? ==> forall u :: u in o.value ==> u.JStr? && Get(v.fields, u.s).Some?
  {
    match v
    case JList(items) => Some(items)
    case JStr(s) => Some(seq(|s|, k requires 0 <= k < |s| => JStr([s[k]])))
    case JObj(fields) =>
      var ks := KeysOf(fields);
      Some(seq(|ks|, k requires 0 <= k < |ks| => JStr(ks[k])))
    case _ => None
  }

  /**
   * `float(v)`, None where it raises ValueError or TypeError. The text
   * grammar of `float(str)` is the parameter `parseFloat`.
   */
  function ToFloat(v: Json, parseFloat: string -> Option<real>): Option<real>
  {
    match v
    case JBool(b) => Some(if b then 1.0 else 0.0)
    case JInt(i) => Some(i as real)
    case JReal(r) => Some(r)
    case JStr(s) => parseFloat(s)
    case _ => None
  }

  const MinInt64: int := -0x8000_0000_0000_0000
  const MaxInt64: int := 0x7FFF_FFFF_FFFF_FFFF

  /**
   * The values sqlite3 binds as statement parameters: None, bool, int
   * (within 64 bits), float and str; a list or a dict raises.
   */
  predicate Bindable(v: Json)
  {
    match v
    case JInt(i) => MinInt64 <= i <= MaxInt64
    case JList(_) => false
    case JObj(_) => false
    case _ => true
  }

  // ---------------------------------------------------------------------
  // The normalised values
  // ---------------------------------------------------------------------

  /** `charges`: the float of a truthy `charges_annuelles`, else None. */
  function Charges(fields: seq<(string, Json)>, parseFloat: string -> Option<real>): (r: Json)
    ensures r.JNull? || r.JReal?
    ensures !Truthy(GetOrNull(fields, "charges_annuelles")) ==> r == JNull
  {
    var v := GetOrNull(fields, "charges_annuelles");
    if Truthy(v) then
      match ToFloat(v, parseFloat)
      case Some(r) => JReal(r)
      case None => JNull
    else JNull
  }

  /**
   * Charges are stored exactly when the item has a truthy
   * `charges_annuelles` that `float` accepts, and then as that float.
   */
  lemma ChargesMeaning(fields: seq<(string, Json)>, parseFloat: string -> Option<real>)
    ensures Charges(fields, parseFloat).JNull? || Charges(fields, parseFloat).JReal?
    ensures Charges(fields, parseFloat).JReal? <==>
      && Get(fields, "charges_annuelles").Some?
      && Truthy(Get(fields, "charges_annuelles").value)
      && ToFloat(Get(fields, "charges_annuelles").value, parseFloat).Some?
    ensures Charges(fields, parseFloat).JReal? ==>
      Charges(fields, parseFloat).r == ToFloat(Get(fields, "charges_annuelles").value, parseFloat).value
  {
  }

  /** Zero charges, like missing ones, are stored as NULL: `0` is falsy. */
  lemma ZeroChargesAreNull(parseFloat: string -> Option<real>)
    ensures Charges([("charges_annuelles", JInt(0))], parseFloat) == JNull
    ensures Charges([("charges_annuelles", JReal(0.0))], parseFloat) == JNull
    ensures Charges([("charges_annuelles", JStr(""))], parseFloat) == JNull
    ensures Charges([("charges_annuelles", JInt(1200))], parseFloat) == JReal(1200.0)
  {
  }

  /** `prix`: a dict gives its `value`, or its `commission` when the value is falsy. */
  function Prix(fields: seq<(string, Json)>): (r: Json)
    ensures !GetOrNull(fields, "prix").JObj? ==> r == GetOrNull(fields, "prix")
    ensures GetOrNull(fields, "prix").JObj? ==>
      r == GetOrNull(GetOrNull(fields, "prix").fields, "value") || r == GetOrNull(GetOrNull(fields, "prix").fields, "commission")
  {
    match GetOrNull(fields, "prix")
    case JObj(inner) => Or(GetOrNull(inner, "value"), GetOrNull(inner, "commission"))
    case v => v
  }

  /** `honoraires`: a dict gives its `value`. */
  function Honoraires(fields: seq<(string, Json)>): Json
  {
    match GetOrNull(fields, "honoraires")
    case JObj(inner) => GetOrNull(inner, "value")
    case v => v
  }

  /**
   * A price that is not a dict is stored as given (None when absent); a
   * dict price never reaches the database as a dict unless its chosen
   * entry is itself one.
   */
  lemma PrixMeaning(fields: seq<(string, Json)>)
    ensures !GetOrNull(fields, "prix").JObj? ==> Prix(fields) == GetOrNull(fields, "prix")
    ensures Get(fields, "prix").None? ==> Prix(fields) == JNull
    ensures GetOrNull(fields, "prix").JObj? ==>
      var inner := GetOrNull(fields, "prix").fields;
      && (Truthy(GetOrNull(inner, "value")) ==> Prix(fields) == GetOrNull(inner, "value"))
      && (!Truthy(GetOrNull(inner, "value")) ==> Prix(fields) == GetOrNull(inner, "commission"))
    ensures !GetOrNull(fields, "honoraires").JObj? ==> Honoraires(fields) == GetOrNull(fields, "honoraires")
    ensures GetOrNull(fields, "honoraires").JObj? ==>
      Honoraires(fields) == GetOrNull(GetOrNull(fields, "honoraires").fields, "value")
  {
  }

  /** A commission-only price dict, as the scraper writes it for agency fees. */
  lemma CommissionPrice()
    ensures Prix([("prix", JObj([("value", JNull), ("commission", JInt(9000))]))]) == JInt(9000)
    ensures Prix([("prix", JObj([("value", JInt(250000)), ("commission", JInt(9000))]))]) == JInt(250000)
    ensures Prix([("prix", JObj([]))]) == JNull
  {
  }

  // ---------------------------------------------------------------------
  // The rows
  // ---------------------------------------------------------------------

  /** The 24 columns of the `annonces` insert, in statement order. */
  datatype ListingColumn =
    | Id | Url | DatePublication | Type | Titre | PrixColumn | HonorairesColumn
    | Surface | Pieces | Chambres | Etage | Ascenseur | Ville | CodePostal
    | Latitude | Longitude | Etat | SalleDeBain | ChauffageType
    | ChauffeEau | Exposition | ChargesAnnuelles | Description | ImagePrincipale

  const ListingColumns: seq<ListingColumn> := [
    Id, Url, DatePublication, Type, Titre, PrixColumn, HonorairesColumn,
    Surface, Pieces, Chambres, Etage, Ascenseur, Ville, CodePostal,
    Latitude, Longitude, Etat, SalleDeBain, ChauffageType,
    ChauffeEau, Exposition, ChargesAnnuelles, Description, ImagePrincipale
  ]

  lemma ListingColumnsComplete(c: ListingColumn)
    ensures c in ListingColumns
  {
  }

  /** The column's name, which is also the item key it is read from. */
  function ColumnName(c: ListingColumn): string
  {
    match c
    case Id => "id"
    case Url => "url"
    case DatePublication => "date_publication"
    case Type => "type"
    case Titre => "titre"
    case PrixColumn => "prix"
    case HonorairesColumn => "honoraires"
    case Surface => "surface"
    case Pieces => "pieces"
    case Chambres => "chambres"
    case Etage => "etage"
    case Ascenseur => "ascenseur"
    case Ville => "ville"
    case CodePostal => "code_postal"
    case Latitude => "latitude"
    case Longitude => "longitude"
    case Etat => "etat"
    case SalleDeBain => "salle_de_bain"
    case ChauffageType => "chauffage_type"
    case ChauffeEau => "chauffe_eau"
    case Exposition => "exposition"
    case ChargesAnnuelles => "charges_annuelles"
    case Description => "description"
    case ImagePrincipale => "image_principale"
  }

  /** The columns whose value is computed before the statement (read with `.get`). */
  predicate Computed(c: ListingColumn)
  {
    c.PrixColumn? || c.HonorairesColumn? || c.ChargesAnnuelles?
  }

  /** The keys the `annonces` tuple reads with `item[...]`, in tuple order. */
  const ListingKeys: seq<ListingColumn> := [
    Id, Url, DatePublication, Type, Titre,
    Surface, Pieces, Chambres, Etage, Ascenseur, Ville, CodePostal,
    Latitude, Longitude, Etat, SalleDeBain, ChauffageType,
    ChauffeEau, Exposition, Description, ImagePrincipale
  ]

  lemma ListingKeysAreTheReadColumns(c: ListingColumn)
    ensures c in ListingKeys <==> !Computed(c)
  {
  }

  /** The keys the `diagnostics` tuple reads, in tuple order. */
  const DiagnosticKeys: seq<string> := ["id", "dpe_valeur", "dpe_lettre", "ges_valeur", "ges_lettre"]

  /** The values the CHECK constraint on `annonces.type` admits (NULL passes a CHECK). */
  const ListingTypes: set<string> := {
    "Appartement", "Maison", "Maison de ville", "Duplex", "Loft", "Chalet",
    "Terrain", "Parking", "Box", "Commerce", "Immeuble"
  }

  /**
   * The `type` CHECK: a bound value the TEXT column stores as one of the
   * listed names, or NULL. The CHECKs on `etat`, `dpe_lettre` and
   * `ges_lettre` list NULL among their values, so `x IN (..., NULL)` is
   * never false and they admit every value: the model has none for them.
   */
  predicate TypeAccepted(v: Json)
  {
    v == JNull || (v.JStr? && v.s in ListingTypes)
  }

  /** The exception a failing item raises; each one aborts the whole load. */
  datatype InsertError =
    | NotIterable            // TypeError: `data` or `image_urls` cannot be looped over
    | NotAnObject            // AttributeError: an item without `.get`
    | MissingKey(key: string) // KeyError from `item[key]`
    | Unbindable             // a parameter sqlite3 cannot bind
    | TypeRejected           // CHECK constraint failed on `annonces.type`
    | NullId                 // NOT NULL constraint failed on `diagnostics.id_annonce`

  datatype ListingRow = ListingRow(id: Json, columns: map<ListingColumn, Json>)
  datatype DiagnosticRow = DiagnosticRow(idAnnonce: Json, dpeValeur: Json, dpeLettre: Json, gesValeur: Json, gesLettre: Json)
  datatype ImageRow = ImageRow(idAnnonce: Json, url: Json, estPrincipale: int)

  /** The first of `keys` the item lacks. */
  function FirstMissing<K>(fields: seq<(string, Json)>, keys: seq<K>, name: K -> string): (m: Option<K>)
    ensures m.None? <==> forall i :: 0 <= i < |keys| ==> Get(fields, name(keys[i])).Some?
    ensures m.Some? ==> m.value in keys && Get(fields, name(m.value)).None?
  {
    if keys == [] then None
    else if Get(fields, name(keys[0])).None? then Some(keys[0])
    else
      var m := FirstMissing(fields, keys[1..], name);
      assert forall i :: 1 <= i < |keys| ==> keys[i] == keys[1..][i - 1];
      m
  }

  /** The value bound to column `c` of the `annonces` insert. */
  function ListingCell(fields: seq<(string, Json)>, c: ListingColumn, parseFloat: string -> Option<real>): Json
  {
    match c
    case PrixColumn => Prix(fields)
    case HonorairesColumn => Honoraires(fields)
    case ChargesAnnuelles => Charges(fields, parseFloat)
    case Ascenseur => JInt(if Truthy(GetOrNull(fields, "ascenseur")) then 1 else 0)
    case _ => GetOrNull(fields, ColumnName(c))
  }

  /** The `annonces` row of an item, or the exception its insert raises. */
  function ListingRowOf(fields: seq<(string, Json)>, parseFloat: string -> Option<real>): (r: Result<ListingRow, InsertError>)
    ensures r.Ok? ==> r.value.id == GetOrNull(fields, "id") && r.value.columns.Keys == set c | c in ListingColumns
    ensures r.Ok? ==> TypeAccepted(GetOrNull(fields, "type"))
  {
    var missing := FirstMissing(fields, ListingKeys, ColumnName);
    if missing.Some? then Err(MissingKey(ColumnName(missing.value)))
    else if !(forall c :: Bindable(ListingCell(fields, c, parseFloat))) then Err(Unbindable)
    else if !TypeAccepted(GetOrNull(fields, "type")) then Err(TypeRejected)
    else Ok(ListingRow(GetOrNull(fields, "id"), map c | c in ListingColumns :: ListingCell(fields, c, parseFloat)))
  }

  /**
   * An item's listing row exists exactly when the item has every key the
   * insert reads, every bound value is bindable and the type is admitted.
   */
  lemma ListingRowFails(fields: seq<(string, Json)>, parseFloat: string -> Option<real>)
    ensures ListingRowOf(fields, parseFloat).Ok? <==>
      && (forall c :: !Computed(c) ==> Get(fields, ColumnName(c)).Some?)
      && (forall c :: Bindable(ListingCell(fields, c, parseFloat)))
      && TypeAccepted(GetOrNull(fields, "type"))
  {
    NoListingKeyMissing(fields);
  }

  lemma NoListingKeyMissing(fields: seq<(string, Json)>)
    ensures FirstMissing(fields, ListingKeys, ColumnName).None? <==>
      forall c :: !Computed(c) ==> Get(fields, ColumnName(c)).Some?
  {
    if FirstMissing(fields, ListingKeys, ColumnName).None? {
      forall c | !Computed(c) ensures Get(fields, ColumnName(c)).Some? {
        ListingKeysAreTheReadColumns(c);
        var i :| 0 <= i < |ListingKeys| && ListingKeys[i] == c;
      }
    } else {
      var m := FirstMissing(fields, ListingKeys, ColumnName).value;
      ListingKeysAreTheReadColumns(m);
    }
  }

  /** The row is keyed by the item's id and binds every column, each to its cell. */
  lemma ListingRowColumns(fields: seq<(string, Json)>, parseFloat: string -> Option<real>)
    requires ListingRowOf(fields, parseFloat).Ok?
    ensures var row := ListingRowOf(fields, parseFloat).value;
      && row.id == GetOrNull(fields, "id")
      && forall c :: c in row.columns && row.columns[c] == ListingCell(fields, c, parseFloat)
  {
    forall c ensures c in ListingColumns {
      ListingColumnsComplete(c);
    }
  }

  /**
   * The cells of an item that has every key the insert reads: its values
   * under their own names, the normalised price, fees and charges, and
   * `ascenseur` as 1 or 0.
   */
  lemma ListingCellValues(fields: seq<(string, Json)>, parseFloat: string -> Option<real>)
    requires forall c :: !Computed(c) ==> Get(fields, ColumnName(c)).Some?
    ensures forall c :: !Computed(c) && c != Ascenseur ==> ListingCell(fields, c, parseFloat) == Get(fields, ColumnName(c)).value
    ensures ListingCell(fields, PrixColumn, parseFloat) == Prix(fields)
    ensures ListingCell(fields, HonorairesColumn, parseFloat) == Honoraires(fields)
    ensures ListingCell(fields, ChargesAnnuelles, parseFloat) == Charges(fields, parseFloat)
    ensures ListingCell(fields, Ascenseur, parseFloat) == JInt(1) <==> Truthy(GetOrNull(fields, "ascenseur"))
    ensures ListingCell(fields, Ascenseur, parseFloat) == JInt(0) <==> !Truthy(GetOrNull(fields, "ascenseur"))
  {
    assert ColumnName(Ascenseur) == "ascenseur";
  }

  /** The `diagnostics` row of an item, or the exception its insert raises. */
  function DiagnosticRowOf(fields: seq<(string, Json)>): (r: Result<DiagnosticRow, InsertError>)
    ensures r.Ok? ==> r.value.idAnnonce == GetOrNull(fields, "id") && r.value.idAnnonce != JNull
    ensures r.Ok? <==>
      && (forall i :: 0 <= i < |DiagnosticKeys| ==> Get(fields, DiagnosticKeys[i]).Some? && Bindable(Get(fields, DiagnosticKeys[i]).value))
      && GetOrNull(fields, "id") != JNull
  {
    var missing := FirstMissing(fields, DiagnosticKeys, k => k);
    if missing.Some? then Err(MissingKey(missing.value))
    else
      var row := DiagnosticRow(GetOrNull(fields, "id"), GetOrNull(fields, "dpe_valeur"), GetOrNull(fields, "dpe_lettre"),
                               GetOrNull(fields, "ges_valeur"), GetOrNull(fields, "ges_lettre"));
      if !(forall i :: 0 <= i < |DiagnosticKeys| ==> Bindable(GetOrNull(fields, DiagnosticKeys[i]))) then Err(Unbindable)
      else if row.idAnnonce == JNull then Err(NullId)
      else Ok(row)
  }

  /**
   * The secondary image rows for the urls visited so far: one row with
   * `est_principale` 0 per truthy url, in order; a truthy url sqlite3
   * cannot bind raises.
   */
  function OtherImages(id: Json, urls: seq<Json>): Result<seq<ImageRow>, InsertError>
  {
    if urls == [] then Ok([])
    else
      match OtherImages(id, urls[..|urls| - 1])
      case Err(e) => Err(e)
      case Ok(rows) =>
        var u := urls[|urls| - 1];
        if !Truthy(u) then Ok(rows)
        else if !Bindable(u) then Err(Unbindable)
        else Ok(rows + [ImageRow(id, u, 0)])
  }

  /** The truthy elements of `urls`, in order. */
  function TruthyOnes(urls: seq<Json>): (out: seq<Json>)
    ensures |out| <= |urls|
    ensures forall u :: u in out <==> u in urls && Truthy(u)
  {
    if urls == [] then []
    else TruthyOnes(urls[..|urls| - 1]) + (if Truthy(urls[|urls| - 1]) then [urls[|urls| - 1]] else [])
  }

  /**
   * The secondary rows exist exactly when every truthy url is bindable, and
   * they are then the truthy urls, in order, each with the listing id and
   * `est_principale` 0: falsy urls ("" or null) leave no row.
   */
  lemma {:induction false} OtherImagesMeaning(id: Json, urls: seq<Json>)
    ensures OtherImages(id, urls).Ok? <==> forall k :: 0 <= k < |urls| && Truthy(urls[k]) ==> Bindable(urls[k])
    ensures OtherImages(id, urls).Ok? ==>
      var rows := OtherImages(id, urls).value;
      var t := TruthyOnes(urls);
      |rows| == |t| && forall k :: 0 <= k < |t| ==> rows[k] == ImageRow(id, t[k], 0)
  {
    if urls != [] {
      var init := urls[..|urls| - 1];
      OtherImagesMeaning(id, init);
      assert forall k :: 0 <= k < |init| ==> init[k] == urls[k];
    }
  }

  /**
   * The image rows of an item: the main image with `est_principale` 1 when
   * it is truthy, then the secondary ones; `image_urls` defaults to [].
   */
  function ImageRowsOf(fields: seq<(string, Json)>): (r: Result<seq<ImageRow>, InsertError>)
    ensures Get(fields, "image_urls").Some? && Iterated(Get(fields, "image_urls").value).None? ==> r == Err(NotIterable)
    ensures r.Ok? && Truthy(GetOrNull(fields, "image_principale")) ==>
      |r.value| > 0 && r.value[0] == ImageRow(GetOrNull(fields, "id"), GetOrNull(fields, "image_principale"), 1)
  {
    var id := GetOrNull(fields, "id");
    var main := GetOrNull(fields, "image_principale");
    var first := if Truthy(main) then [ImageRow(id, main, 1)] else [];
    match Iterated(match Get(fields, "image_urls") case Some(v) => v case None => JList([]))
    case None => Err(NotIterable)
    case Some(urls) =>
      match OtherImages(id, urls)
      case Err(e) => Err(e)
      case Ok(others) => Ok(first + others)
  }

  /** An item gives exactly one main image row, first, when its main image is truthy. */
  lemma ImageRowsMeaning(fields: seq<(string, Json)>)
    requires ImageRowsOf(fields).Ok?
    ensures var rows := ImageRowsOf(fields).value;
      && (forall k :: 0 <= k < |rows| ==> rows[k].idAnnonce == GetOrNull(fields, "id") && Truthy(rows[k].url))
      && (|rows| > 0 && rows[0].estPrincipale == 1 <==> Truthy(GetOrNull(fields, "image_principale")))
      && (forall k :: 0 < k < |rows| ==> rows[k].estPrincipale == 0)
      && (Truthy(GetOrNull(fields, "image_principale")) ==> rows[0].url == GetOrNull(fields, "image_principale"))
  {
    var v := match Get(fields, "image_urls") case Some(v) => v case None => JList([]);
    var urls := Iterated(v).value;
    var id := GetOrNull(fields, "id");
    OtherImagesMeaning(id, urls);
    var others := OtherImages(id, urls).value;
    var t := TruthyOnes(urls);
    assert forall k :: 0 <= k < |others| ==> others[k].estPrincipale == 0 && others[k].idAnnonce == id && Truthy(others[k].url) by {
      forall k | 0 <= k < |others| ensures others[k].estPrincipale == 0 && others[k].idAnnonce == id && Truthy(others[k].url) {
        assert t[k] in t;
      }
    }
  }

  /** A string given as `image_urls` is looped over character by character. */
  lemma StringImageUrls()
    ensures ImageRowsOf([("id", JStr("a1")), ("image_principale", JNull), ("image_urls", JStr("ab"))]) ==
      Ok([ImageRow(JStr("a1"), JStr("a"), 0), ImageRow(JStr("a1"), JStr("b"), 0)])
  {
    var fs := [("id", JStr("a1")), ("image_principale", JNull), ("image_urls", JStr("ab"))];
    assert fs[..2] == [("id", JStr("a1")), ("image_principale", JNull)];
    assert fs[..2][..1] == [("id", JStr("a1"))];
    assert Get(fs, "image_principale") == Some(JNull);
    assert Get(fs, "id") == Some(JStr("a1"));
    var none: seq<Json> := [];
    var id, ua, ub := JStr("a1"), JStr("a"), JStr("b");
    var ra, rb := ImageRow(id, ua, 0), ImageRow(id, ub, 0);
    var it := Iterated(JStr("ab")).value;
    assert it == none + [ua] + [ub];
    assert OtherImages(id, none) == Ok([]);
    OtherImagesSnoc(id, none, ua);
    OtherImagesSnoc(id, none + [ua], ub);
    assert GetOrNull(fs, "id") == id && GetOrNull(fs, "image_principale") == JNull;
    assert ImageRowsOf(fs) == Ok([] + ([] + [ra] + [rb]));
    assert [] + ([] + [ra] + [rb]) == [ra, rb];
  }

  lemma OtherImagesSnoc(id: Json, urls: seq<Json>, u: Json)
    ensures OtherImages(id, urls + [u]) ==
      match OtherImages(id, urls)
      case Err(e) => Err(e)
      case Ok(rows) =>
        if !Truthy(u) then Ok(rows)
        else if !Bindable(u) then Err(Unbindable)
        else Ok(rows + [ImageRow(id, u, 0)])
  {
    assert (urls + [u])[..|urls|] == urls;
  }

  /** Everything one item writes. */
  datatype ItemRows = ItemRows(listing: ListingRow, diagnostic: DiagnosticRow, images: seq<ImageRow>)

  /** The rows of one item in statement order, or the first exception it raises. */
  function ItemRowsOf(item: Json, parseFloat: string -> Option<real>): (r: Result<ItemRows, InsertError>)
    ensures !item.JObj? ==> r == Err(NotAnObject)
    ensures r.Ok? ==> r.value.listing.id == r.value.diagnostic.idAnnonce && r.value.listing.id != JNull
  {
    if !item.JObj? then Err(NotAnObject)
    else
      match ListingRowOf(item.fields, parseFloat)
      case Err(e) => Err(e)
      case Ok(listing) =>
        match DiagnosticRowOf(item.fields)
        case Err(e) => Err(e)
        case Ok(diagnostic) =>
          match ImageRowsOf(item.fields)
          case Err(e) => Err(e)
          case Ok(images) => Ok(ItemRows(listing, diagnostic, images))
  }

  // ---------------------------------------------------------------------
  // The tables
  // ---------------------------------------------------------------------

  /** The three tables, each in rowid order. */
  datatype Tables = Tables(annonces: seq<ListingRow>, diagnostics: seq<DiagnosticRow>, images: seq<ImageRow>)

  /** The rows of `rows` whose key differs from `x`, in order. */
  function Without<T(!new)>(rows: seq<T>, key: T -> Json, x: Json): (out: seq<T>)
    ensures |out| <= |rows|
  {
    if rows == [] then []
    else Without(rows[..|rows| - 1], key, x) + (if key(rows[|rows| - 1]) != x then [rows[|rows| - 1]] else [])
  }

  /** Exactly the rows with another key survive. */
  lemma {:induction false} WithoutMeaning<T(!new)>(rows: seq<T>, key: T -> Json, x: Json)
    ensures forall r :: r in Without(rows, key, x) <==> r in rows && key(r) != x
  {
    if rows != [] {
      var init := rows[..|rows| - 1];
      WithoutMeaning(init, key, x);
      assert rows == init + [rows[|rows| - 1]];
    }
  }

  /**
   * `INSERT OR REPLACE` on a key: the row holding the same non-NULL key is
   * deleted and the new row is appended with a fresh rowid. NULL keys
   * never conflict.
   */
  function Replaced<T(!new)>(rows: seq<T>, key: T -> Json, row: T): (out: seq<T>)
    ensures 1 <= |out| <= |rows| + 1 && out[|out| - 1] == row
    ensures key(row) == JNull ==> out == rows + [row]
  {
    if key(row) == JNull then rows + [row] else Without(rows, key, key(row)) + [row]
  }

  /** No two rows share a non-NULL key. */
  predicate KeysDistinct<T(!new)>(rows: seq<T>, key: T -> Json)
  {
    forall i, j :: 0 <= i < j < |rows| && key(rows[i]) != JNull ==> key(rows[i]) != key(rows[j])
  }

  lemma {:induction false} WithoutKeepsDistinct<T(!new)>(rows: seq<T>, key: T -> Json, x: Json)
    requires KeysDistinct(rows, key)
    ensures KeysDistinct(Without(rows, key, x), key)
  {
    if rows != [] {
      var init := rows[..|rows| - 1];
      assert KeysDistinct(init, key);
      WithoutKeepsDistinct(init, key, x);
      WithoutMeaning(init, key, x);
      var w := Without(init, key, x);
      var last := rows[|rows| - 1];
      if key(last) != x {
        forall i | 0 <= i < |w| && key(w[i]) != JNull ensures key(w[i]) != key(last) {
          assert w[i] in init;
          var j :| 0 <= j < |init| && init[j] == w[i];
        }
      }
    }
  }

  /**
   * After a replace the new row is the last one, it is the only row with
   * its key, the rows with other keys are kept, and keys stay distinct.
   */
  lemma ReplacedMeaning<T(!new)>(rows: seq<T>, key: T -> Json, row: T)
    ensures var out := Replaced(rows, key, row);
      && out[|out| - 1] == row
      && (forall r :: r in out <==> r == row || (r in rows && (key(row) == JNull || key(r) != key(row))))
      && (key(row) != JNull ==> forall k :: 0 <= k < |out| - 1 ==> key(out[k]) != key(row))
      && (KeysDistinct(rows, key) ==> KeysDistinct(out, key))
  {
    var out := Replaced(rows, key, row);
    if key(row) != JNull {
      WithoutMeaning(rows, key, key(row));
      var w := Without(rows, key, key(row));
      forall k | 0 <= k < |out| - 1 ensures key(out[k]) != key(row) {
        assert out[k] == w[k] && w[k] in w;
      }
      if KeysDistinct(rows, key) {
        WithoutKeepsDistinct(rows, key, key(row));
      }
    } else if KeysDistinct(rows, key) {
      assert KeysDistinct(out, key);
    }
  }

  function ListingId(r: ListingRow): Json { r.id }
  function DiagnosticId(r: DiagnosticRow): Json { r.idAnnonce }

  /** The tables after one item's statements. */
  function Applied(t: Tables, rows: ItemRows): Tables
  {
    Tables(Replaced(t.annonces, ListingId, rows.listing),
           Replaced(t.diagnostics, DiagnosticId, rows.diagnostic),
           t.images + rows.images)
  }

  /** The tables after the statements of `items`, or the first exception. */
  function InsertAll(t: Tables, items: seq<Json>, rowsOf: Json -> Result<ItemRows, InsertError>): (r: Result<Tables, InsertError>)
    ensures r.Ok? ==> t.images <= r.value.images
  {
    if items == [] then Ok(t)
    else
      match InsertAll(t, items[..|items| - 1], rowsOf)
      case Err(e) => Err(e)
      case Ok(t') =>
        match rowsOf(items[|items| - 1])
        case Err(e) => Err(e)
        case Ok(rows) => Ok(Applied(t', rows))
  }

  /** One step of the fold: a successful load is the successful load of all but the last item, with the last applied. */
  lemma InsertAllStep(t: Tables, items: seq<Json>, rowsOf: Json -> Result<ItemRows, InsertError>)
    requires items != [] && InsertAll(t, items, rowsOf).Ok?
    ensures InsertAll(t, items[..|items| - 1], rowsOf).Ok?
    ensures rowsOf(items[|items| - 1]).Ok?
    ensures InsertAll(t, items, rowsOf).value ==
      Applied(InsertAll(t, items[..|items| - 1], rowsOf).value, rowsOf(items[|items| - 1]).value)
  {
  }

  /** The fold extended by one item that has rows. */
  lemma InsertAllNext(t: Tables, items: seq<Json>, i: nat, pending: Tables, rowsOf: Json -> Result<ItemRows, InsertError>)
    requires i < |items| && InsertAll(t, items[..i], rowsOf) == Ok(pending)
    requires rowsOf(items[i]).Ok?
    ensures InsertAll(t, items[..i + 1], rowsOf) == Ok(Applied(pending, rowsOf(items[i]).value))
  {
    assert items[..i + 1][..i] == items[..i];
  }

  /** The statements of each item, as a value the fold is applied to. */
  function RowsOf(parseFloat: string -> Option<real>): Json -> Result<ItemRows, InsertError>
  {
    item => ItemRowsOf(item, parseFloat)
  }

  /** The whole of insert_data_from_json on the tables it starts from. */
  function InsertData(t: Tables, data: Json, parseFloat: string -> Option<real>): (r: Result<Tables, InsertError>)
    ensures !(data.JList? || data.JStr? || data.JObj?) ==> r == Err(NotIterable)
    ensures r.Ok? ==> t.images <= r.value.images
  {
    match Iterated(data)
    case None => Err(NotIterable)
    case Some(items) => InsertAll(t, items, RowsOf(parseFloat))
  }

  /** The load fails exactly when one of the items raises. */
  lemma {:induction false} InsertAllFails(t: Tables, items: seq<Json>, rowsOf: Json -> Result<ItemRows, InsertError>)
    ensures InsertAll(t, items, rowsOf).Err? <==>
      exists k :: 0 <= k < |items| && rowsOf(items[k]).Err?
  {
    if items != [] {
      var init := items[..|items| - 1];
      InsertAllFails(t, init, rowsOf);
      assert forall k :: 0 <= k < |init| ==> init[k] == items[k];
    }
  }

  /** The image rows of every item, in item order. */
  function AllImages(items: seq<Json>, rowsOf: Json -> Result<ItemRows, InsertError>): seq<ImageRow>
  {
    if items == [] then []
    else
      AllImages(items[..|items| - 1], rowsOf) +
        match rowsOf(items[|items| - 1])
        case Ok(rows) => rows.images
        case Err(_) => []
  }

  /** Image rows accumulate: each load appends the images of its items, in order. */
  lemma {:induction false} InsertAllAppendsImages(t: Tables, items: seq<Json>, rowsOf: Json -> Result<ItemRows, InsertError>)
    requires InsertAll(t, items, rowsOf).Ok?
    ensures InsertAll(t, items, rowsOf).value.images == t.images + AllImages(items, rowsOf)
  {
    if items != [] {
      var init := items[..|items| - 1];
      InsertAllStep(t, items, rowsOf);
      InsertAllAppendsImages(t, init, rowsOf);
      assert AllImages(items, rowsOf) == AllImages(init, rowsOf) + rowsOf(items[|items| - 1]).value.images;
    }
  }

  /** Item k has rows, and no later item has rows with the same listing id. */
  predicate LastWithItsId(items: seq<Json>, k: nat, rowsOf: Json -> Result<ItemRows, InsertError>)
    requires k < |items|
  {
    && rowsOf(items[k]).Ok?
    && forall j :: k < j < |items| ==>
         rowsOf(items[j]).Ok? &&
         rowsOf(items[j]).value.listing.id != rowsOf(items[k]).value.listing.id
  }

  /** Listings are keyed by id: a successful load keeps the ids distinct. */
  lemma {:induction false} InsertAllListingsKeyed(t: Tables, items: seq<Json>, rowsOf: Json -> Result<ItemRows, InsertError>)
    requires InsertAll(t, items, rowsOf).Ok?
    requires KeysDistinct(t.annonces, ListingId)
    ensures KeysDistinct(InsertAll(t, items, rowsOf).value.annonces, ListingId)
  {
    if items != [] {
      var init := items[..|items| - 1];
      InsertAllListingsKeyed(t, init, rowsOf);
      ReplacedMeaning(InsertAll(t, init, rowsOf).value.annonces, ListingId, rowsOf(items[|items| - 1]).value.listing);
    }
  }

  /** A row whose key differs from the new row's survives the replace. */
  lemma KeptByReplace<T(!new)>(rows: seq<T>, key: T -> Json, row: T, x: T)
    requires x in rows && key(x) != key(row)
    ensures x in Replaced(rows, key, row)
  {
    if key(row) != JNull {
      WithoutMeaning(rows, key, key(row));
    }
  }

  /** Being the last item with its id survives dropping a later item. */
  lemma LastWithItsIdPrefix(items: seq<Json>, k: nat, rowsOf: Json -> Result<ItemRows, InsertError>)
    requires k < |items| - 1 && LastWithItsId(items, k, rowsOf)
    ensures LastWithItsId(items[..|items| - 1], k, rowsOf)
  {
    var init := items[..|items| - 1];
    assert init[k] == items[k];
    assert forall j :: k < j < |init| ==> init[j] == items[j];
  }

  /** The row for an id is the one of the last item carrying it: later items replace earlier ones. */
  lemma {:induction false} InsertAllLastWins(t: Tables, items: seq<Json>, rowsOf: Json -> Result<ItemRows, InsertError>)
    requires InsertAll(t, items, rowsOf).Ok?
    ensures forall k :: 0 <= k < |items| && LastWithItsId(items, k, rowsOf) ==>
      rowsOf(items[k]).value.listing in InsertAll(t, items, rowsOf).value.annonces
  {
    if items != [] {
      var n := |items| - 1;
      var init := items[..n];
      InsertAllStep(t, items, rowsOf);
      InsertAllLastWins(t, init, rowsOf);
      var before := InsertAll(t, init, rowsOf).value.annonces;
      var row := rowsOf(items[n]).value.listing;
      var after := InsertAll(t, items, rowsOf).value.annonces;
      assert after == Replaced(before, ListingId, row);
      forall k | 0 <= k < |items| && LastWithItsId(items, k, rowsOf)
        ensures rowsOf(items[k]).value.listing in after
      {
        if k < n {
          LastWithItsIdPrefix(items, k, rowsOf);
          assert init[k] == items[k];
          KeptByReplace(before, ListingId, row, rowsOf(items[k]).value.listing);
        }
      }
    }
  }

  // ---------------------------------------------------------------------
  // The database connection
  // ---------------------------------------------------------------------

  /** Diagnostics are keyed by listing id: at most one row per listing. */
  lemma {:induction false} InsertAllDiagnosticsKeyed(t: Tables, items: seq<Json>, rowsOf: Json -> Result<ItemRows, InsertError>)
    requires InsertAll(t, items, rowsOf).Ok?
    requires KeysDistinct(t.diagnostics, DiagnosticId)
    ensures KeysDistinct(InsertAll(t, items, rowsOf).value.diagnostics, DiagnosticId)
  {
    if items != [] {
      var init := items[..|items| - 1];
      InsertAllDiagnosticsKeyed(t, init, rowsOf);
      ReplacedMeaning(InsertAll(t, init, rowsOf).value.diagnostics, DiagnosticId, rowsOf(items[|items| - 1]).value.diagnostic);
    }
  }

  /** Once a prefix of the items raises, the whole load raises. */
  lemma {:induction false} InsertAllPrefixFails(t: Tables, items: seq<Json>, n: nat, rowsOf: Json -> Result<ItemRows, InsertError>)
    requires n <= |items| && InsertAll(t, items[..n], rowsOf).Err?
    ensures InsertAll(t, items, rowsOf).Err?
    decreases |items|
  {
    if n < |items| {
      var init := items[..|items| - 1];
      assert init[..n] == items[..n];
      InsertAllPrefixFails(t, init, n, rowsOf);
    } else {
      assert items[..n] == items;
    }
  }

  /** Once the urls visited so far raise, the secondary rows raise the same, whatever follows. */
  lemma {:induction false} OtherImagesStaysFailed(id: Json, urls: seq<Json>, n: nat)
    requires n <= |urls| && OtherImages(id, urls[..n]).Err?
    ensures OtherImages(id, urls) == OtherImages(id, urls[..n])
    decreases |urls|
  {
    if |urls| > n {
      var init := urls[..|urls| - 1];
      assert init[..n] == urls[..n];
      OtherImagesStaysFailed(id, init, n);
    } else {
      assert urls[..n] == urls;
    }
  }

  /**
   * The secondary-image loop of one item: one row per truthy url, or the
   * exception of the first truthy url sqlite3 cannot bind.
   */
  method InsertOtherImages(id: Json, urls: seq<Json>) returns (r: Result<seq<ImageRow>, InsertError>)
    ensures r == OtherImages(id, urls)
  {
    var out := [];
    var i := 0;
    while i < |urls|
      invariant 0 <= i <= |urls|
      invariant OtherImages(id, urls[..i]) == Ok(out)
    {
      assert urls[..i + 1][..i] == urls[..i];
      var u := urls[i];
      if Truthy(u) {
        if !Bindable(u) {
          assert OtherImages(id, urls[..i + 1]) == Err(Unbindable);
          OtherImagesStaysFailed(id, urls, i + 1);
          return Err(Unbindable);
        }
        out := out + [ImageRow(id, u, 0)];
      }
      i := i + 1;
    }
    assert urls[..i] == urls;
    r := Ok(out);
  }

  /** The statements of one item of the loop, in source order. */
  method ItemStatements(item: Json, parseFloat: string -> Option<real>) returns (r: Result<ItemRows, InsertError>)
    ensures r == ItemRowsOf(item, parseFloat)
  {
    if !item.JObj? {
      return Err(NotAnObject);
    }
    var listing := ListingRowOf(item.fields, parseFloat);
    if listing.Err? {
      return Err(listing.error);
    }
    var diagnostic := DiagnosticRowOf(item.fields);
    if diagnostic.Err? {
      return Err(diagnostic.error);
    }
    var id := GetOrNull(item.fields, "id");
    var main := GetOrNull(item.fields, "image_principale");
    var images := if Truthy(main) then [ImageRow(id, main, 1)] else [];
    var urls := Iterated(match Get(item.fields, "image_urls") case Some(v) => v case None => JList([]));
    if urls.None? {
      return Err(NotIterable);
    }
    var others := InsertOtherImages(id, urls.value);
    if others.Err? {
      return Err(others.error);
    }
    r := Ok(ItemRows(listing.value, diagnostic.value, images + others.value));
  }

  /** The committed content of the SQLite file. */
  class Database {
    var annonces: seq<ListingRow>
    var diagnostics: seq<DiagnosticRow>
    var images: seq<ImageRow>

    function Content(): Tables
      reads this
    {
      Tables(annonces, diagnostics, images)
    }

    constructor (t: Tables)
      ensures Content() == t
    {
      annonces, diagnostics, images := t.annonces, t.diagnostics, t.images;
    }

    /**
     * insert_data_from_json: the statements of every item run on the open
     * transaction, which is committed after the last item; the first
     * exception leaves the committed content as it was.
     */
    method InsertDataFromJson(data: Json, parseFloat: string -> Option<real>) returns (r: Result<(), InsertError>)
      modifies this
      ensures r.Ok? <==> InsertData(old(Content()), data, parseFloat).Ok?
      ensures r.Ok? ==> Content() == InsertData(old(Content()), data, parseFloat).value
      ensures r.Err? ==> Content() == old(Content())
    {
      var items := Iterated(data);
      if items.None? {
        return Err(NotIterable);
      }
      var start := Content();
      var rowsOf := RowsOf(parseFloat);
      var pending := start;
      var i := 0;
      while i < |items.value|
        invariant 0 <= i <= |items.value|
        invariant InsertAll(start, items.value[..i], rowsOf) == Ok(pending)
        invariant Content() == start
      {
        var rows := ItemStatements(items.value[i], parseFloat);
        assert rows == rowsOf(items.value[i]);
        if rows.Err? {
          assert items.value[..i + 1][..i] == items.value[..i];
          InsertAllPrefixFails(start, items.value, i + 1, rowsOf);
          return Err(rows.error);
        }
        InsertAllNext(start, items.value, i, pending, rowsOf);
        pending := Applied(pending, rows.value);
        i := i + 1;
      }
      assert items.value[..i] == items.value;
      annonces, diagnostics, images := pending.annonces, pending.diagnostics, pending.images;
      r := Ok(());
    }
  }
}
