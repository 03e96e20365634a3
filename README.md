# Property-price pipeline: a verified model of its core

This project models the core of a pipeline that prepares French
property-sale data ("valeurs foncières") for price analysis, and proves
properties of that model. The model covers six parts of the pipeline.

- **Points of interest (POIs) from OpenStreetMap** (`traitement_open_street_map.py`).
  - The `Handler` visitor sorts nodes, ways and areas into nine POI
    categories (stations, shops, schools, green spaces, health, pharmacies,
    airports, main roads, industry).
  - Every category then gets an output table.
  - `supprimer_les_doublons` drops near-duplicate POIs of the same name
    with a greedy pass over a `pris` array.
  - `construire_kdtrees` builds one point index per category.
  - `rajout_features_un_element` and `rajout_features_base_entiere` add to
    each sale, per category, the number of POIs within the category's
    radius (`nb_<poi>`) and the distance to the nearest of them
    (`distance_min_<poi>`).
- **The static configuration** (`code_dvf/config.py`): the category list,
  file names, radii, tag rules, CSV column types, selected columns and the
  projection pair.
- **The first cleaning of the sales** (`code_dvf/telechargement_valeur_fonciere.py`).
  - Per department: column selection, four row filters, the `[^0-9.]`
    sanitiser and casts, strict `%Y-%m-%d` dates, the `annee_mois`/`annee`
    columns, the two price-per-m² columns, and `unique` on five key columns.
  - Then the loop over the departments and the final `pl.concat`.
- **The final cleaning** (`code_dvf/fin_nettoyage.py`).
  - The distance-null fill with missing indicators.
  - The department-code derivation and the median-income fill.
  - The household fill from the 51-row table.
  - The `Vente` filter, the price-threshold filter and the one-hot loop
    over `type_local`.
- **The French month-label parser** (`code_dvf/traitement_economie_global.py`):
  `convert_french_date`, `convert_dates_dataframe` and the 2015-01-01 filter.
- **The listing insertion** (`DatabaseCreation/deferla_database.py`).
  - `insert_data_from_json`: per-item normalisation of `charges_annuelles`,
    `prix`, `honoraires` and `ascenseur`.
  - The INSERT OR REPLACE rows for `annonces` and `diagnostics`.
  - The accumulated `images` rows.
  - All of this is modelled over an explicit three-table store.

## How it is modelled

Each source file is one Dafny module. `config.dfy` is the configuration,
`extraction.dfy`, `dedup.dfy` and `enrichment.dfy` are the POI pipeline,
`first_cleaning.dfy` is the first cleaning, and `final_cleaning.dfy`,
`household_table.dfy` and `price_cleaning.dfy` are the final cleaning.
`economy.dfy` is the month parser and `listings.dfy` is the listing
insertion. `frames.dfy` holds the cells, rows and frames shared by the
polars code, `geometry.dfy` holds points and squared distances, and
`wrappers.dfy` holds `Option` and `Result`.

- **Code that updates state becomes imperative Dafny.**
  - The `Handler` is a class whose `poiData` map its `Node`, `Way` and
    `Area` methods update.
  - `supprimer_les_doublons` keeps its boolean `pris` array.
  - The loops of `construire_kdtrees`, `rajout_features_un_element`, the
    distance fill, the one-hot loop, the department loop,
    `convert_dates_dataframe` and `insert_data_from_json` are methods with
    loop invariants.
  - Each such method is proved against a specification function.
  - The SQLite database is a class holding its three tables.
- **Declarative code becomes functions.** Polars and pandas expressions,
  joins and filters are functions on frames.
- **Raised exceptions become `Err` results.** A missing column, a failed
  cast, `pl.concat([])`, a `ValueError` from the date parser and a SQLite
  constraint failure are all modelled as errors.
- **Distances are squared.** Both `<= seuil` and `<= rayon` are compared on
  squared distances, so no square root is needed.
- **Foreign computations are parameters.**
  - shapely's `is_valid` and `centroid`.
  - Python's `float()` of a string, used by the listing insertion
    (`parseFloat`).
  - polars' strict `cast(pl.Float64)` of the sanitised text in the first
    cleaning (`parse`).
  - The metres-from-squared-distance conversion written into
    `distance_min_<poi>`.

Two behaviours of the code are easy to misread:

- A primitive is appended to every category whose rule it matches. The
  `break` at traitement_open_street_map.py:129, :151 and :171 leaves only
  the tag loop, not the category loop.
  `Extraction.NodeInSeveralCategories` exhibits such a node.
- In the listing database, the `CHECK` constraints on `etat`, `dpe_lettre`
  and `ges_lettre` list `NULL` among their values. An `IN` list holding
  `NULL` never evaluates to false, so these constraints accept every value.
  Only the `type` constraint rejects anything.

## Model

| member | source | states |
|---|---|---|
| Config.Index | code_dvf/config.py:154-155 | each category has a position in POINT_INTERET, and that entry is the category's name |
| Config.IndexInverse | code_dvf/config.py:154-155 | the position of the category at position i is i |
| Config.Radius | code_dvf/config.py:169-179 | every radius of DISTANCE_POINT_INTERET lies between 500 and 30000 metres |
| Config.Rules | code_dvf/config.py:184-194 | every tag rule names exactly one attribute, with a finite list of accepted values |
| Config.FileOf | code_dvf/config.py:157-167 | the file of each category is its name followed by ".parquet" |
| Config.CategoryOf | code_dvf/config.py:154-155 | a name read back as a category is that category's name |
| Config.CategoryOfName | code_dvf/config.py:154-155 | reading a category's name gives back the category |
| Config.PointInteretIsTheCategoryList | code_dvf/config.py:154-155 | POINT_INTERET lists exactly the 9 categories, without repetition, in order; names are injective |
| Config.DictionariesAreTotal | code_dvf/config.py:157-194 | the file, radius and tag dictionaries each have exactly the keys of POINT_INTERET |
| Config.RadiiInRange | code_dvf/config.py:169-179 | every value of DISTANCE_POINT_INTERET is between 500 and 30000 |
| Config.TagRulesAreFinite | code_dvf/config.py:184-194 | no tag rule accepts any value, so the wildcard branch of the handlers is unreachable |
| Config.CategoryRuleAttributes | code_dvf/config.py:184-194 | the attributes the rules of stations, shops, schools, health and pharmacies inspect |
| Config.ColumnFinalIsTyped | code_dvf/config.py:70-124 | all 17 COLUMN_FINAL names are keys of TYPE_COLUMN_CSV_SALE, and every type there is Utf8 |
| Config.ProjectionPair | code_dvf/config.py:196-197 | the projection goes from EPSG 4326 to EPSG 2154 |
| Geometry.Dist2 | traitement_open_street_map.py:216 | the squared Euclidean distance is never negative |
| Geometry.Dist2Symmetric | traitement_open_street_map.py:216 | the distance from p to q equals the distance from q to p |
| Geometry.WithinMonotone | traitement_open_street_map.py:217 | a point within radius r1 is within every larger radius |
| Frames.Where | code_dvf/telechargement_valeur_fonciere.py:61-70 | a polars filter keeps exactly the rows that satisfy the predicate, and never adds rows |
| Extraction.ValidLocations | traitement_open_street_map.py:137 | the way's coordinates are exactly the locations of its nodes that are valid |
| Extraction.Resolve | traitement_open_street_map.py:161 | reading a ring succeeds exactly when every node location is valid, and keeps them in order |
| Extraction.ExtractAllPerCategory | traitement_open_street_map.py:114-173 | after the pass, each category's list is its old list followed by the records its rule emits for the primitives, in order |
| Extraction.Emitted | traitement_open_street_map.py:119-171 | a primitive contributes a record to a category only when its tags match the rule, with the primitive's id and its name tag (default ''); a node contributes exactly when its tags match; the full classification is in NodeLandsIn, WayClassification and AreaClassification |
| Extraction.Appended | traitement_open_street_map.py:118-171 | one primitive through the handler keeps every category and grows each list by at most one record, keeping the old records in front |
| Extraction.ExtractAll | traitement_open_street_map.py:114-173 | a pass over the stream keeps exactly the categories of `poi_data`; what each list gains is stated by ExtractAllPerCategory |
| Extraction.CollectedFromPrimitives | traitement_open_street_map.py:118-171 | every record of a category comes from one of the primitives, and there are at most as many records as primitives |
| Extraction.NodeLandsIn | traitement_open_street_map.py:119-129 | a node is appended to a category once exactly when its tags match that category's rule, with its id, name and location |
| Extraction.WayClassification | traitement_open_street_map.py:131-151 | a matching way with 3 or more valid locations becomes a polygon (when shapely builds it), with exactly 2 a line, and with fewer nothing |
| Extraction.AreaClassification | traitement_open_street_map.py:153-171 | an area is emitted exactly when its first outer ring has at least 3 resolved nodes and its polygon builds and is valid |
| Extraction.NodeInSeveralCategories | traitement_open_street_map.py:119-129 | a node tagged as both a shop and a school is emitted into shops and into education, not into health |
| Extraction.ThreePrimitivesTwoRecords | traitement_open_street_map.py:119-151 | a pharmacy node, a pharmacy triangle and a pharmacy way with a single valid node give exactly two records, the point and the polygon; the third way is skipped by the `continue` for fewer than two valid locations |
| Extraction.PharmacyPrimitives | traitement_open_street_map.py:119-151 | the records each of those three primitives emits on its own |
| Extraction.CollectedThree | traitement_open_street_map.py:173 | the records of three primitives are those of each one, concatenated in stream order |
| Extraction.OutputTable | traitement_open_street_map.py:177-187 | an empty category gives a geometry-only table; otherwise one row per record, in order, with the record's centroid as projection |
| Extraction.OutputTables | traitement_open_street_map.py:177-187 | every category gets an output table, including an empty one |
| Extraction.Handler.constructor | traitement_open_street_map.py:114 | every category starts with an empty list |
| Extraction.Handler.Node | traitement_open_street_map.py:119-129 | the node is appended to every category whose rule it matches; other lists are unchanged |
| Extraction.Handler.NodeInto | traitement_open_street_map.py:121-129 | the tag loop of one category appends the node to that category's list when a tag matches, and changes nothing else |
| Extraction.Handler.Way | traitement_open_street_map.py:131-151 | the way is appended, as a polygon or a line, to every category whose rule it matches |
| Extraction.Handler.WayInto | traitement_open_street_map.py:133-151 | the tag loop of one category appends at most the way's record to that list |
| Extraction.Handler.Area | traitement_open_street_map.py:153-171 | the area is appended to every category whose rule it matches and whose polygon is valid |
| Extraction.Handler.AreaInto | traitement_open_street_map.py:155-171 | the tag loop of one category appends at most the area's record to that list |
| Extraction.Handler.ApplyFile | traitement_open_street_map.py:173 | after the whole stream, the lists are the extraction of every primitive in order |
| Dedup.Insert | traitement_open_street_map.py:209 | inserting a name into a sorted list of names keeps it strictly sorted and adds exactly that name |
| Dedup.SortedNames | traitement_open_street_map.py:209 | groupby visits the names present in the table, each once, in increasing order |
| Dedup.HeadIsLeast | traitement_open_street_map.py:209 | the first group name is the least |
| Dedup.TailElements | traitement_open_street_map.py:209 | the names after the first are the others |
| Dedup.SortedSetUnique | traitement_open_street_map.py:209 | two sorted lists with the same names are equal, so the group order is determined |
| Dedup.LastIsFresh | traitement_open_street_map.py:209 | the last group name does not occur earlier |
| Dedup.Group | traitement_open_street_map.py:209 | a group holds exactly the rows with that name, in table order |
| Dedup.GroupAppend | traitement_open_street_map.py:209 | the group of a concatenation is the concatenation of the groups |
| Dedup.GroupAllNamed | traitement_open_street_map.py:209 | grouping rows that all have the name gives them all back |
| Dedup.GroupNoneNamed | traitement_open_street_map.py:209 | grouping rows that never have the name gives nothing |
| Dedup.GroupCount | traitement_open_street_map.py:209 | a row occurs in its group as often as in the table |
| Dedup.CloseToAnyAppend | traitement_open_street_map.py:216-219 | a row is covered by the kept rows plus one more exactly when one of them, or the new one, is within the threshold |
| Dedup.KeepGroup | traitement_open_street_map.py:213-219 | the first point of a non-empty group is always kept |
| Dedup.KeepGroupSubMultiset | traitement_open_street_map.py:213-219 | the kept points of a group are a sub-multiset of the group |
| Dedup.KeepRepresentatives | traitement_open_street_map.py:210-219 | the loop over the pris array keeps exactly the points no earlier kept point is within the threshold of |
| Dedup.KeptPairwiseFar | traitement_open_street_map.py:213-219 | the kept points of a group are pairwise strictly farther apart than the threshold |
| Dedup.PairwiseFarInit | traitement_open_street_map.py:213-219 | dropping the last point keeps the points pairwise far, and the last point is far from the others |
| Dedup.SpreadGroupKept | traitement_open_street_map.py:213-219 | a group already pairwise far is kept whole |
| Dedup.LastCovered | traitement_open_street_map.py:213-219 | the last point of a group is kept or lies within the threshold of a kept point |
| Dedup.DroppedCovered | traitement_open_street_map.py:213-219 | every point lies within the threshold of a point kept up to it, so a dropped point is covered by an earlier kept one |
| Dedup.KeepGroupPrefix | traitement_open_street_map.py:213-219 | the points kept from a prefix are a prefix of the points kept from the group |
| Dedup.Deduplicate | traitement_open_street_map.py:192-222 | an empty table is returned unchanged; otherwise the rows kept group by group in name order |
| Dedup.Deduplicated | traitement_open_street_map.py:192-222 | a table without projected rows comes back unchanged, and a table with a geometry-only layout keeps it; what the group loop keeps is stated by DeduplicatedSpread, DeduplicatedCovering and DeduplicatedSubMultiset |
| Dedup.KeptByNameGroup | traitement_open_street_map.py:209-219 | in the result, the rows of each listed name are exactly that name's kept group |
| Dedup.DeduplicatedPerName | traitement_open_street_map.py:209-219 | points of different names never affect each other: each name's rows are its own group's kept points |
| Dedup.AbsentNameEmptyGroup | traitement_open_street_map.py:209 | a name outside the group list has no rows |
| Dedup.DeduplicatedSpread | traitement_open_street_map.py:213-219 | after deduplication, points of one name are pairwise strictly farther apart than the threshold |
| Dedup.DeduplicatedCovering | traitement_open_street_map.py:213-219 | every input point lies within the threshold (inclusive) of a kept point of the same name |
| Dedup.CloseToAnyPrefix | traitement_open_street_map.py:213-219 | a point covered by a prefix of the kept points is covered by all of them |
| Dedup.DeduplicatedSubMultiset | traitement_open_street_map.py:202-222 | the output is a sub-multiset of the input, and empty exactly when the input is |
| Dedup.KeptByNameSame | traitement_open_street_map.py:209-219 | tables whose groups keep the same points give the same result |
| Dedup.NamedRowInGroup | traitement_open_street_map.py:209 | a name has rows exactly when its group is not empty |
| Dedup.DeduplicatedKeepsNames | traitement_open_street_map.py:209-219 | deduplication keeps every name present in the input, and adds none |
| Dedup.DeduplicatedIdempotent | traitement_open_street_map.py:192-222 | running the deduplication twice gives the same table as running it once |
| Dedup.CloseTwinsCollapse | traitement_open_street_map.py:217 | two same-name pharmacies exactly 25 metres apart collapse to the first at the 25 m default, since `dists <= seuil` is inclusive |
| Dedup.DistantTwinsStay | traitement_open_street_map.py:217 | two same-name pharmacies farther than 25 metres apart are both kept |
| Enrichment.BuildIndexes | traitement_open_street_map.py:249-273 | a category has no index exactly when its table is empty or has no projection columns; otherwise the index lists the table's projected points in row order |
| Enrichment.BallIndices | traitement_open_street_map.py:293 | the ball query returns exactly the positions of the points within the radius (inclusive), each once; the linear scan lists them in increasing order |
| Enrichment.MinDist2 | traitement_open_street_map.py:297-299 | the minimum is one of the candidates' distances and no candidate is closer |
| Enrichment.FeatureMeaning | traitement_open_street_map.py:293-301 | the count is the number of POIs within the radius; the nearest distance is missing exactly when that count is 0, else it is at most the radius and is the minimum over exactly those POIs |
| Enrichment.FeatureFor | traitement_open_street_map.py:284-301 | a category without an index gives count 0 and no distance; otherwise the distance is missing exactly when the count is 0 (its meaning is FeatureMeaning) |
| Enrichment.CountMonotone | traitement_open_street_map.py:293-294 | the count never decreases when the radius grows |
| Enrichment.OnePoiInRange | traitement_open_street_map.py:293-299 | with POIs at distances 5 and 50 and a radius of 10, the count is 1 and the nearest squared distance is 25 |
| Enrichment.BoundaryCounted | traitement_open_street_map.py:293 | a POI exactly at the radius is counted |
| Enrichment.KeysDistinct | traitement_open_street_map.py:281-301 | the nb_ and distance_min_ keys of different categories are distinct, and differ from latitude and longitude |
| Enrichment.FeatureKeysAdd | traitement_open_street_map.py:287-301 | handling one more category adds exactly its two keys |
| Enrichment.CategoryFeature | traitement_open_street_map.py:284-301 | one iteration of the category loop: no index gives 0 and NaN; otherwise the count in the radius and the nearest distance, or NaN |
| Enrichment.FeaturesStep | traitement_open_street_map.py:283-301 | writing a category's two features keeps those of the categories already handled |
| Enrichment.FeatureKept | traitement_open_street_map.py:283-301 | writing one category's features leaves another category's features intact |
| Enrichment.StepKeys | traitement_open_street_map.py:281-301 | after each iteration the result has latitude, longitude and the keys of the categories handled so far |
| Enrichment.EnrichOne | traitement_open_street_map.py:277-303 | the result holds the sale's latitude and longitude and, for every category, its count and nearest distance |
| Enrichment.MergeEnriches | traitement_open_street_map.py:343 | merging the feature columns into a sale keeps every other column and adds one count and one distance per category |
| Enrichment.EnrichTable | traitement_open_street_map.py:306-343 | the enriched table has the same rows in the same order, each with its original values and its own features |
| FinalCleaning.ColumnDistanceLiterals | code_dvf/fin_nettoyage.py:20-24 | COLUMN_DISTANCE has 9 names, beginning with distance_min_gares and ending with distance_min_industries |
| FinalCleaning.SliceGivesCategory | code_dvf/fin_nettoyage.py:20-40 | "distances_min" is 13 characters long, like "distance_min_", so each slice is a POI name with a radius |
| FinalCleaning.MissingNameInjective | code_dvf/fin_nettoyage.py:36 | distinct columns get distinct _manquante names |
| FinalCleaning.NameLength | code_dvf/config.py:154-155 | the lengths of the nine category names |
| FinalCleaning.IndicatorNames | code_dvf/fin_nettoyage.py:36 | each indicator is named after its distance column |
| FinalCleaning.ColumnDistanceSeparate | code_dvf/fin_nettoyage.py:32-44 | the distance columns and indicator names are distinct and never collide |
| FinalCleaning.AddedMember | code_dvf/fin_nettoyage.py:33-36 | the indicators added after k iterations are the first k indicator names |
| FinalCleaning.WrittenMember | code_dvf/fin_nettoyage.py:33-42 | the columns written after k iterations are the first k distance and indicator columns |
| FinalCleaning.FillStep | code_dvf/fin_nettoyage.py:33-42 | one iteration on a row fills the next column and keeps the columns filled before |
| FinalCleaning.StepKeys | code_dvf/fin_nettoyage.py:33-42 | after an iteration the row has its old keys plus the indicators so far |
| FinalCleaning.StepValues | code_dvf/fin_nettoyage.py:33-42 | after an iteration, each handled indicator is 1 exactly for a null, and each null became the radius |
| FinalCleaning.StepOthers | code_dvf/fin_nettoyage.py:33-42 | an iteration leaves every column it does not write unchanged |
| FinalCleaning.FillRows | code_dvf/fin_nettoyage.py:34-42 | with_columns applies the fill to every row, keeping the row count |
| FinalCleaning.FrameFillStep | code_dvf/fin_nettoyage.py:33-42 | one iteration on the frame keeps it well formed and extends the filled prefix |
| FinalCleaning.FillColumns | code_dvf/fin_nettoyage.py:32-44 | the loop raises exactly when a column is missing; otherwise every column is filled and every indicator added |
| FinalCleaning.FillDistanceNulls | code_dvf/fin_nettoyage.py:32-44 | reglage_null_colonne_distance fills the 9 distance columns, raising exactly when one is missing |
| FinalCleaning.FillIsReversible | code_dvf/fin_nettoyage.py:36-42 | the indicator is 1 exactly when the value was null; a null becomes the radius, a non-null value is unchanged, so the original is recoverable |
| FinalCleaning.Prefix | code_dvf/fin_nettoyage.py:51-53 | str.slice(0, n) gives the first n characters, or the whole shorter string |
| FinalCleaning.DepartmentCode | code_dvf/fin_nettoyage.py:50-55 | a null code gives null; otherwise a prefix, 3 characters long exactly when the code starts with 97 or 98 |
| FinalCleaning.SameStartSameDepartment | code_dvf/fin_nettoyage.py:50-55 | codes sharing their first three characters share a department |
| FinalCleaning.DepartmentExamples | code_dvf/fin_nettoyage.py:50-55 | 75115 gives 75, 97411 gives 974, 98735 gives 987, 2A004 gives 2A, and short codes stay as they are |
| FinalCleaning.KnownIncomes | code_dvf/fin_nettoyage.py:58-61 | the incomes averaged for a department are exactly its non-null incomes |
| FinalCleaning.MeanBounds | code_dvf/fin_nettoyage.py:60 | a mean lies between the least and the greatest value |
| FinalCleaning.DepartmentMeanMeaning | code_dvf/fin_nettoyage.py:58-61 | a department mean is null exactly when the department has no known income; otherwise it lies within the range of its incomes |
| FinalCleaning.DepartmentMean | code_dvf/fin_nettoyage.py:58-61 | polars' mean of a department's incomes: NaN exactly when one income is NaN, null exactly when none is known, else a number |
| FinalCleaning.FillIncomes | code_dvf/fin_nettoyage.py:47-76 | raises exactly when a needed column is missing; otherwise same columns and rows, and only null incomes change |
| FinalCleaning.FillIncomesMeaning | code_dvf/fin_nettoyage.py:64-72 | a null income becomes its department's mean, or stays null without a code |
| FinalCleaning.FillIncomesIdempotent | code_dvf/fin_nettoyage.py:47-76 | filling the incomes twice gives the same frame as filling them once |
| FinalCleaning.StillNoIncome | code_dvf/fin_nettoyage.py:58-72 | a department that still has a null income after the fill has no known income at all |
| FinalCleaning.AtMostOneMatch | code_dvf/fin_nettoyage.py:100 | in a table with distinct codes a code matches at most one row, and that row's value |
| FinalCleaning.JoinKeepsRows | code_dvf/fin_nettoyage.py:100 | the left join keeps the row count and order, adding the estimate (or null) to each row |
| FinalCleaning.LeftJoin | code_dvf/fin_nettoyage.py:100 | a left join never loses a left row; with distinct codes it keeps the count exactly (JoinKeepsRows) |
| FinalCleaning.JoinOneKeepsRow | code_dvf/fin_nettoyage.py:100 | one row joins to exactly one row |
| FinalCleaning.EstimateForMeaning | code_dvf/fin_nettoyage.py:81-100 | a listed code gets its population divided by 2.2 and rounded; any other code gets null |
| FinalCleaning.HouseholdRows | code_dvf/fin_nettoyage.py:100-109 | the household fill maps every row, keeping count and order |
| FinalCleaning.FillHouseholds | code_dvf/fin_nettoyage.py:79-111 | raises exactly when a needed column is missing; otherwise a null household count becomes the estimate and everything else is unchanged |
| FinalCleaning.KeepSales | code_dvf/fin_nettoyage.py:117 | the filter keeps exactly the rows whose nature_mutation is "Vente" |
| FinalCleaning.IndicatorsAvoidFillColumns | code_dvf/fin_nettoyage.py:32-111 | no distance or indicator column is one that the income or household fill reads or writes |
| FinalCleaning.CleanNulls | code_dvf/fin_nettoyage.py:114-122 | reglage_null keeps the sales and applies the three fills in order; it raises exactly when a needed column is missing |
| FinalCleaning.DistanceFillKeepsIncomeTypes | code_dvf/fin_nettoyage.py:118-119 | the distance fill leaves the income columns as the income fill expects them |
| HouseholdTable.TableRowOfCode | code_dvf/fin_nettoyage.py:81-95 | the row lookup finds each listed code at its own position, and no population exceeds 227746 |
| HouseholdTable.PopulationTableDistinct | code_dvf/fin_nettoyage.py:81-95 | the household table has 51 rows with pairwise distinct codes |
| HouseholdTable.EstimatesFitInt32 | code_dvf/fin_nettoyage.py:98 | every estimate fits the Int32 cast |
| HouseholdTable.Estimate | code_dvf/fin_nettoyage.py:98 | the estimate is within half a unit of population / 2.2 |
| HouseholdTable.RoundingHasNoTie | code_dvf/fin_nettoyage.py:98 | population / 2.2 is never exactly halfway between two integers, so the rounding mode does not matter |
| HouseholdTable.EstimateIsNearest | code_dvf/fin_nettoyage.py:98 | the estimate is the unique integer nearest population / 2.2 |
| PriceCleaning.SeuilMin | code_dvf/fin_nettoyage.py:136 | a custom lower threshold wins; otherwise the quantile one is used |
| PriceCleaning.FinalRunIgnoresLowQuantile | code_dvf/fin_nettoyage.py:181 | the final run filters from 1000 whatever the 0.001 quantile is |
| PriceCleaning.KeepPrices | code_dvf/fin_nettoyage.py:142-145 | raises exactly without the price column; otherwise keeps exactly the rows with lower <= price <= upper |
| PriceCleaning.KeptPricesAreBounded | code_dvf/fin_nettoyage.py:142-145 | every kept price is present, not NaN, and between the two thresholds inclusive |
| PriceCleaning.CrossedThresholdsKeepNothing | code_dvf/fin_nettoyage.py:142-145 | a lower threshold above the upper one keeps no row |
| PriceCleaning.OneHotName | code_dvf/fin_nettoyage.py:172 | every one-hot column name starts with type_local__ |
| PriceCleaning.OneHotNameInjective | code_dvf/fin_nettoyage.py:172 | distinct labels get distinct column names, except a null and the text "None" |
| PriceCleaning.OneHotNameIsNew | code_dvf/fin_nettoyage.py:172 | no one-hot column overwrites type_local |
| PriceCleaning.OneHotCell | code_dvf/fin_nettoyage.py:172 | the cell is 1 when the label equals the value, 0 when it differs, and null when either is null |
| PriceCleaning.UniqueValues | code_dvf/fin_nettoyage.py:169 | the distinct values of the column, each once |
| PriceCleaning.NamesUpToMember | code_dvf/fin_nettoyage.py:170-173 | the columns added after k iterations are the names of the first k values |
| PriceCleaning.EncodeRows | code_dvf/fin_nettoyage.py:171-173 | with_columns encodes every row, keeping count and order |
| PriceCleaning.EncodeKeepsLabel | code_dvf/fin_nettoyage.py:170-173 | the loop never changes type_local |
| PriceCleaning.EncodeStepKeys | code_dvf/fin_nettoyage.py:170-173 | each iteration adds exactly one column name |
| PriceCleaning.EncodeStepColumns | code_dvf/fin_nettoyage.py:170-173 | after an iteration, every column added so far holds its label's indicator |
| PriceCleaning.EncodeStepOthers | code_dvf/fin_nettoyage.py:170-173 | an iteration leaves the other columns unchanged |
| PriceCleaning.EncodeStep | code_dvf/fin_nettoyage.py:170-173 | one iteration extends the encoded prefix by one value |
| PriceCleaning.FrameEncodeStep | code_dvf/fin_nettoyage.py:170-173 | one iteration on the frame keeps it well formed with one more column |
| PriceCleaning.EncodeLabels | code_dvf/fin_nettoyage.py:170-173 | the loop adds one column per value, keeps the rows, and encodes each row |
| PriceCleaning.OneHot | code_dvf/fin_nettoyage.py:169-173 | raises exactly without type_local; otherwise one column per distinct value in the column, each row encoded |
| PriceCleaning.OneHotMeaning | code_dvf/fin_nettoyage.py:169-173 | type_local__v is 1 exactly when type_local equals v, 0 when it differs, and null when either is null |
| PriceCleaning.OneHotIsExactlyOne | code_dvf/fin_nettoyage.py:169-173 | a row with a non-null label has exactly one one-hot column set to 1 |
| PriceCleaning.CleanPrices | code_dvf/fin_nettoyage.py:125-173 | the threshold filter then the one-hot loop: Err exactly when prix or type_local is missing; otherwise the kept rows, in range, with one column per distinct type_local value of the kept rows and each row encoded |
| FirstCleaning.FirstMissing | code_dvf/telechargement_valeur_fonciere.py:57 | no name is reported exactly when all are columns; a reported name is absent |
| FirstCleaning.Restrict | code_dvf/telechargement_valeur_fonciere.py:57 | a row restricted to the selected keys keeps exactly their values |
| FirstCleaning.SelectColumns | code_dvf/telechargement_valeur_fonciere.py:57 | select raises exactly when a name is not a column; otherwise it keeps the rows and exactly the named columns |
| FirstCleaning.FilterRows | code_dvf/telechargement_valeur_fonciere.py:61-70 | a row is kept exactly when it is a sale of a house or a flat with a price, a latitude and a longitude |
| FirstCleaning.NullTypeIsDropped | code_dvf/telechargement_valeur_fonciere.py:66 | a null type_local is read as "" and dropped |
| FirstCleaning.Sanitize | code_dvf/telechargement_valeur_fonciere.py:86-88 | with a replacement made of digits and dots the output is too, and a string already made of them is unchanged |
| FirstCleaning.SanitizeLength | code_dvf/telechargement_valeur_fonciere.py:86-88 | each replaced character adds the replacement's length minus one |
| FirstCleaning.SanitizeAppend | code_dvf/telechargement_valeur_fonciere.py:86-88 | sanitising works character by character, so it distributes over concatenation |
| FirstCleaning.SanitizeIdempotent | code_dvf/telechargement_valeur_fonciere.py:86-88 | with both replacements of the source, sanitising twice equals sanitising once |
| FirstCleaning.CastNumber | code_dvf/telechargement_valeur_fonciere.py:86-88 | null stays null; a successful cast is the float of the sanitised text |
| FirstCleaning.DigitValue | code_dvf/telechargement_valeur_fonciere.py:89 | a digit character has a value below 10 |
| FirstCleaning.DigitChar | code_dvf/telechargement_valeur_fonciere.py:94 | the character of a digit value reads back as that value |
| FirstCleaning.Padded | code_dvf/telechargement_valeur_fonciere.py:94 | zero-padding gives exactly w digits |
| FirstCleaning.DigitsOfPadded | code_dvf/telechargement_valeur_fonciere.py:89-94 | reading a padded number gives the number back |
| FirstCleaning.PaddedOfDigits | code_dvf/telechargement_valeur_fonciere.py:89-94 | padding the value of a digit string gives the string back |
| FirstCleaning.DaysInMonth | code_dvf/telechargement_valeur_fonciere.py:89 | every month has 28 to 31 days |
| FirstCleaning.FormatDate | code_dvf/telechargement_valeur_fonciere.py:89 | a date prints as ten characters with dashes at positions 4 and 7 |
| FirstCleaning.ParseDate | code_dvf/telechargement_valeur_fonciere.py:89 | strict %Y-%m-%d parsing succeeds only on DDDD-DD-DD texts naming a calendar date |
| FirstCleaning.ParseFormat | code_dvf/telechargement_valeur_fonciere.py:89 | parsing a formatted date gives the date back |
| FirstCleaning.FormatParse | code_dvf/telechargement_valeur_fonciere.py:89 | formatting a parsed date gives the text back |
| FirstCleaning.CastDate | code_dvf/telechargement_valeur_fonciere.py:89 | null stays null; a cast text becomes the calendar date it names |
| FirstCleaning.YearMonth | code_dvf/telechargement_valeur_fonciere.py:94 | the %Y-%m text is seven characters long |
| FirstCleaning.YearColumnsFromText | code_dvf/telechargement_valeur_fonciere.py:94-95 | annee_mois is the first seven characters of date_mutation, and annee the value of its first four digits |
| FirstCleaning.AddYearColumns | code_dvf/telechargement_valeur_fonciere.py:94-95 | adds exactly the annee_mois and annee columns |
| FirstCleaning.UniqueBy | code_dvf/telechargement_valeur_fonciere.py:103 | unique never adds rows |
| FirstCleaning.UniqueBySubset | code_dvf/telechargement_valeur_fonciere.py:103 | every kept row is an input row |
| FirstCleaning.UniqueByDistinctKeys | code_dvf/telechargement_valeur_fonciere.py:103 | no two kept rows share date, longitude, latitude, price and land surface |
| FirstCleaning.UniqueByComplete | code_dvf/telechargement_valeur_fonciere.py:103 | every key of the input is kept |
| FirstCleaning.UniqueBySpec | code_dvf/telechargement_valeur_fonciere.py:103 | unique keeps input rows with distinct keys, one per key |
| FirstCleaning.UniqueByDistinct | code_dvf/telechargement_valeur_fonciere.py:103 | rows with distinct keys pass unchanged |
| FirstCleaning.UniqueByIdempotent | code_dvf/telechargement_valeur_fonciere.py:103 | unique twice equals unique once |
| FirstCleaning.KeptColumns | code_dvf/telechargement_valeur_fonciere.py:57-103 | every column the cleaning reads is among the selected ones |
| FirstCleaning.ConvertRow | code_dvf/telechargement_valeur_fonciere.py:86-89 | the row cast fails exactly when one of the four casts fails; otherwise it changes only those four columns, each to its cast value |
| FirstCleaning.ConvertRows | code_dvf/telechargement_valeur_fonciere.py:86-89 | casting the frame fails exactly when some row fails; otherwise every row is cast in order |
| FirstCleaning.DatedRows | code_dvf/telechargement_valeur_fonciere.py:94-100 | the year columns and then the two price-per-m² columns are added to every row, in order |
| FirstCleaning.Divide | code_dvf/telechargement_valeur_fonciere.py:99-100 | polars float division: a null operand gives null; a non-zero divisor gives the exact quotient; a zero divisor gives NaN or an infinity of the dividend's sign |
| FirstCleaning.AddPriceColumns | code_dvf/telechargement_valeur_fonciere.py:99-100 | adds exactly prix_par_m2_habitable and prix_par_m2_terrain, the price divided by each surface, and leaves every other column unchanged |
| FirstCleaning.PricePerM2OfCleanRow | code_dvf/telechargement_valeur_fonciere.py:72-100 | in a cleaned row a null land surface (a flat) gives a null land price per m², a positive built surface the price over it, and a zero one with a positive price +∞ |
| FirstCleaning.PriceColumnsKeepShape | code_dvf/telechargement_valeur_fonciere.py:94-100 | adding the price columns to a kept, dated row gives a clean row |
| FirstCleaning.ConvertedRowDated | code_dvf/telechargement_valeur_fonciere.py:89-94 | a cast row has a parsed date or a null there |
| FirstCleaning.SelectedRowsCanBeCast | code_dvf/telechargement_valeur_fonciere.py:57-89 | a frame with the selected columns has every column the casts need |
| FirstCleaning.CleanDepartment | code_dvf/telechargement_valeur_fonciere.py:57-103 | a cleaned department frame has exactly the selected columns plus annee_mois, annee, prix_par_m2_habitable and prix_par_m2_terrain |
| FirstCleaning.CleanedRowShape | code_dvf/telechargement_valeur_fonciere.py:61-100 | a kept, cast row with its year and price-per-m² columns is a clean row |
| FirstCleaning.CleanRowsOrigin | code_dvf/telechargement_valeur_fonciere.py:61-103 | every cleaned row is a kept input row, cast and given its year and price-per-m² columns |
| FirstCleaning.CleanRowsMeaning | code_dvf/telechargement_valeur_fonciere.py:61-103 | cleaning never adds rows; cleaned rows are clean and have pairwise distinct keys |
| FirstCleaning.CleanRows | code_dvf/telechargement_valeur_fonciere.py:61-103 | filtering, casting, the derived columns and `unique` never add rows; CleanRowsMeaning states that the rows are clean with distinct keys |
| FirstCleaning.CleanRowsFails | code_dvf/telechargement_valeur_fonciere.py:61-90 | the cleaning raises exactly when a cast fails on a row the filters keep |
| FirstCleaning.Present | code_dvf/telechargement_valeur_fonciere.py:47-51 | departments raising NoDataError contribute nothing |
| FirstCleaning.Concat | code_dvf/telechargement_valeur_fonciere.py:108 | pl.concat raises exactly on an empty list |
| FirstCleaning.PresentCleanable | code_dvf/telechargement_valeur_fonciere.py:47-57 | every department with data can be given to the cleaning |
| FirstCleaning.PresentFrom | code_dvf/telechargement_valeur_fonciere.py:47-51 | every frame with data comes from a department |
| FirstCleaning.CleanedIsPerDepartment | code_dvf/telechargement_valeur_fonciere.py:45-105 | the loop raises exactly when some department raises; otherwise the list is the cleaned departments with data, in order |
| FirstCleaning.Cleaned | code_dvf/telechargement_valeur_fonciere.py:45-105 | the department loop appends at most one frame per department; CleanedIsPerDepartment states which |
| FirstCleaning.CleanedPrefixError | code_dvf/telechargement_valeur_fonciere.py:45-105 | once a department raises, the loop raises that error |
| FirstCleaning.CleanedStep | code_dvf/telechargement_valeur_fonciere.py:45-105 | one more department: skip it without data, raise with its error, or append its cleaned frame |
| FirstCleaning.CleanStep | code_dvf/telechargement_valeur_fonciere.py:57-103 | the loop body cleans every well-formed department frame |
| FirstCleaning.MergeDepartments | code_dvf/telechargement_valeur_fonciere.py:44-108 | the loop with concat gives the concatenation of the cleaned departments, or the first error |
| FirstCleaning.PremierNettoyage | code_dvf/telechargement_valeur_fonciere.py:38-108 | premier_nettoyage_donnee without its I/O: the concatenation of the cleaned departments, or the first error |
| FirstCleaning.NothingToConcatMeansNoData | code_dvf/telechargement_valeur_fonciere.py:47-108 | concat raises exactly when no department had data |
| FirstCleaning.PresentEmpty | code_dvf/telechargement_valeur_fonciere.py:47-51 | no frame is kept exactly when every department lacked data |
| FirstCleaning.CleanDepartmentMeaning | code_dvf/telechargement_valeur_fonciere.py:57-103 | a cleaned department has no more rows than its CSV, each clean, with pairwise distinct keys |
| FirstCleaning.RowsMember | code_dvf/telechargement_valeur_fonciere.py:108 | a row is in the concatenation exactly when it is in one of the frames |
| FirstCleaning.MergedRowsKeep | code_dvf/telechargement_valeur_fonciere.py:105-108 | a property of every cleaned department's rows holds of the merged frame |
| FirstCleaning.MergedRowsAreClean | code_dvf/telechargement_valeur_fonciere.py:44-108 | every row of the merged frame is a clean sale of a house or a flat with price, place, year and price-per-m² columns |
| Economy.MappingIsBijection | code_dvf/traitement_economie_global.py:9-13 | the mapping sends the 12 abbreviations, in calendar order, onto "01" to "12", injectively |
| Economy.MappingKeys | code_dvf/traitement_economie_global.py:9-13 | the keys are the 12 abbreviations, and abbreviation i goes to month number i |
| Economy.MappingValues | code_dvf/traitement_economie_global.py:9-13 | the values are exactly the 12 month numbers |
| Economy.MonthNumbersPadded | code_dvf/traitement_economie_global.py:9-13 | the month numbers are 1 to 12 zero-padded to two digits, pairwise distinct |
| Economy.PaddedMonth | code_dvf/traitement_economie_global.py:9-13 | month number i is i + 1 padded to two digits |
| Economy.MonthIndexOf | code_dvf/traitement_economie_global.py:21 | a known abbreviation has a calendar position, and maps to that month's number |
| Economy.WordLength | code_dvf/traitement_economie_global.py:16 | the first word runs up to the first whitespace character |
| Economy.WordsAreWords | code_dvf/traitement_economie_global.py:16 | split() returns non-empty parts with no whitespace |
| Economy.Words | code_dvf/traitement_economie_global.py:16 | `str.split()` gives no more parts than the text has characters; WordsAreWords and WordsOfJoin state what the parts are |
| Economy.WordLengthOfWord | code_dvf/traitement_economie_global.py:16 | a word followed by whitespace or the end is read whole |
| Economy.WordsOfJoin | code_dvf/traitement_economie_global.py:16 | splitting words joined by spaces gives the words back |
| Economy.LeadingSpaceIgnored | code_dvf/traitement_economie_global.py:16 | leading whitespace does not change the parts |
| Economy.FormatFrenchDate | code_dvf/traitement_economie_global.py:16-26 | the only errors before to_datetime are the two ValueErrors |
| Economy.ToDatetime | code_dvf/traitement_economie_global.py:27 | a converted text is exactly the %Y-%m-%d text of a calendar date within the timestamp range |
| Economy.ConvertFrenchDateErrors | code_dvf/traitement_economie_global.py:16-23 | not exactly two parts raises the format error; an unknown month raises the month error with that token |
| Economy.ConvertFrenchDate | code_dvf/traitement_economie_global.py:16-27 | a converted label is a calendar date a pandas timestamp can hold; its errors and values are stated by ConvertFrenchDateErrors and ConvertFrenchDateMeaning |
| Economy.ConvertFrenchDateMeaning | code_dvf/traitement_economie_global.py:16-27 | a success means two parts, a known month and a four-digit year, giving day 1 of that month of that year |
| Economy.ParseFirstOfMonth | code_dvf/traitement_economie_global.py:26-27 | a parsed "year-mm-01" text names day 1 of month mm of that year |
| Economy.WordsOfLabel | code_dvf/traitement_economie_global.py:16 | "abbreviation year" splits into the abbreviation and the year |
| Economy.FormattedLabel | code_dvf/traitement_economie_global.py:16-26 | the text formatted from "abbreviation year" is that month's first day |
| Economy.ConvertFrenchDateOf | code_dvf/traitement_economie_global.py:4-27 | every "abbreviation year" label in the timestamp range converts to the first of that month |
| Economy.DocstringExample | code_dvf/traitement_economie_global.py:6-7 | "janv. 2009" converts to 2009-01-01 |
| Economy.ApplyToColumn | code_dvf/traitement_economie_global.py:34 | apply raises exactly when the column is missing or a cell fails; otherwise only that column changes, cell by cell, with the length kept |
| Economy.ConvertDatesDataframe | code_dvf/traitement_economie_global.py:29-35 | the column's labels become their dates, cell by cell; everything else is unchanged |
| Economy.KeepFromStart | code_dvf/traitement_economie_global.py:48-55 | the filter keeps exactly the rows dated 2015-01-01 or later |
| Economy.KeptLabels | code_dvf/traitement_economie_global.py:48-55 | a converted label is kept exactly when its year is 2015 or later |
| Listings.KeysOf | DatabaseCreation/deferla_database.py:247-265 | the keys of a JSON object, each once |
| Listings.Get | DatabaseCreation/deferla_database.py:250-265 | `d.get(k)` finds a value exactly when some pair has key k, and the value found is paired with k |
| Listings.Truthy | DatabaseCreation/deferla_database.py:250 | Python truthiness: a value is falsy exactly when it is None, False, 0, 0.0, '', [] or {} |
| Listings.Iterated | DatabaseCreation/deferla_database.py:247 | a for loop visits a list, a string or a dict and raises on anything else; a string gives one element per character, a dict its keys |
| Listings.Or | DatabaseCreation/deferla_database.py:260 | a or b is a when a is truthy, and otherwise b |
| Listings.ChargesMeaning | DatabaseCreation/deferla_database.py:249-254 | charges is the float of charges_annuelles when present, truthy and convertible; otherwise null, with no failure |
| Listings.Charges | DatabaseCreation/deferla_database.py:249-254 | charges is null or a float, and null whenever charges_annuelles is falsy or missing |
| Listings.ZeroChargesAreNull | DatabaseCreation/deferla_database.py:249-254 | charges of 0, 0.0 or "" are stored as null; 1200 as 1200.0 |
| Listings.PrixMeaning | DatabaseCreation/deferla_database.py:257-265 | a dict prix gives its value when truthy, else its commission; a dict honoraires gives its value; anything else passes through |
| Listings.Prix | DatabaseCreation/deferla_database.py:257-260 | a non-dict prix passes through; a dict prix gives its value or its commission |
| Listings.CommissionPrice | DatabaseCreation/deferla_database.py:257-260 | a null value falls back to the commission; a set value wins; an empty dict gives null |
| Listings.ListingColumnsComplete | DatabaseCreation/deferla_database.py:270-276 | every column of the annonces insert is in the column list |
| Listings.ListingKeysAreTheReadColumns | DatabaseCreation/deferla_database.py:278-301 | the keys read with item[...] are exactly the columns not computed beforehand |
| Listings.FirstMissing | DatabaseCreation/deferla_database.py:278-301 | no key is reported exactly when all are present; a reported key is missing |
| Listings.ListingRowFails | DatabaseCreation/deferla_database.py:270-302 | the annonces row is built exactly when every read key is present, every value can be bound, and the type passes its CHECK |
| Listings.ListingRowOf | DatabaseCreation/deferla_database.py:270-302 | a built annonces row is keyed by the item's id, has every column and a type the CHECK admits; when it is built is ListingRowFails |
| Listings.NoListingKeyMissing | DatabaseCreation/deferla_database.py:278-301 | no KeyError arises exactly when every read key is present |
| Listings.ListingRowColumns | DatabaseCreation/deferla_database.py:270-302 | the row is keyed by the item's id and holds every column's cell |
| Listings.ListingCellValues | DatabaseCreation/deferla_database.py:278-301 | read columns hold the item's values; prix, honoraires and charges the normalised ones; ascenseur is 1 exactly when truthy, else 0 |
| Listings.DiagnosticRowOf | DatabaseCreation/deferla_database.py:307-317 | the diagnostics row is built exactly when its keys are present and bindable and the id is not null (NOT NULL) |
| Listings.TruthyOnes | DatabaseCreation/deferla_database.py:330-331 | exactly the truthy URLs are kept |
| Listings.OtherImagesMeaning | DatabaseCreation/deferla_database.py:330-335 | the other images succeed exactly when every truthy URL is bindable; then one row with est_principale 0 per truthy URL, in order |
| Listings.ImageRowsMeaning | DatabaseCreation/deferla_database.py:322-335 | the first image row is the main image with est_principale 1 exactly when it is truthy; every other row has 0; all carry the item's id |
| Listings.ImageRowsOf | DatabaseCreation/deferla_database.py:322-335 | an image_urls value that cannot be looped over raises; a truthy main image gives the first row, flagged 1, with the item's id |
| Listings.StringImageUrls | DatabaseCreation/deferla_database.py:330-335 | a string image_urls is iterated character by character |
| Listings.OtherImagesSnoc | DatabaseCreation/deferla_database.py:330-335 | one more URL adds its row, stays failed, or fails |
| Listings.Without | DatabaseCreation/deferla_database.py:271 | removing a key never adds rows |
| Listings.WithoutMeaning | DatabaseCreation/deferla_database.py:271 | removing a key keeps exactly the rows with another key |
| Listings.WithoutKeepsDistinct | DatabaseCreation/deferla_database.py:271 | removing a key keeps keys distinct |
| Listings.ReplacedMeaning | DatabaseCreation/deferla_database.py:270-308 | INSERT OR REPLACE puts the row last, drops the rows with its non-null key, keeps the others, and keeps keys distinct |
| Listings.Replaced | DatabaseCreation/deferla_database.py:270-271 | INSERT OR REPLACE adds at most one row and puts the new row last; a NULL key replaces nothing |
| Listings.InsertAllStep | DatabaseCreation/deferla_database.py:247-335 | a successful run is the run on all but the last item, then the last item's statements |
| Listings.InsertAllNext | DatabaseCreation/deferla_database.py:247-335 | one more successful item applies its statements to the tables so far |
| Listings.InsertAllFails | DatabaseCreation/deferla_database.py:247-335 | the loop fails exactly when some item's statements fail |
| Listings.InsertAll | DatabaseCreation/deferla_database.py:247-335 | a successful loop keeps the images already stored in front of the new ones |
| Listings.InsertAllAppendsImages | DatabaseCreation/deferla_database.py:322-335 | image rows accumulate: the new images are every item's image rows in order |
| Listings.InsertAllListingsKeyed | DatabaseCreation/deferla_database.py:270-271 | listing ids stay distinct across the loop |
| Listings.KeptByReplace | DatabaseCreation/deferla_database.py:271 | a row with another key survives a replace |
| Listings.LastWithItsIdPrefix | DatabaseCreation/deferla_database.py:247 | an item last with its id stays last in every longer prefix containing it |
| Listings.InsertAllLastWins | DatabaseCreation/deferla_database.py:247-302 | the listing of the last item with each id is the one stored |
| Listings.InsertAllDiagnosticsKeyed | DatabaseCreation/deferla_database.py:307-308 | diagnostic ids stay distinct across the loop |
| Listings.InsertAllPrefixFails | DatabaseCreation/deferla_database.py:247-335 | a failure on a prefix of the items fails the whole run |
| Listings.OtherImagesStaysFailed | DatabaseCreation/deferla_database.py:330-335 | once an image insert fails, the later URLs do not matter |
| Listings.InsertOtherImages | DatabaseCreation/deferla_database.py:330-335 | the image loop gives exactly the other images' rows or their first error |
| Listings.ItemStatements | DatabaseCreation/deferla_database.py:248-335 | the statements of one item: its listing, diagnostics and image rows, or the first error |
| Listings.ItemRowsOf | DatabaseCreation/deferla_database.py:248-335 | an item that is not a dict raises; a successful item's listing and diagnostics rows share its id, which is not null |
| Listings.Database.constructor | DatabaseCreation/deferla_database.py:239-240 | a connection to a database holding the given tables |
| Listings.Database.InsertDataFromJson | DatabaseCreation/deferla_database.py:223-338 | on success the tables are the result of inserting every item in turn; on any error nothing is committed and the tables are unchanged |
| Listings.InsertData | DatabaseCreation/deferla_database.py:236-338 | data that cannot be looped over raises; a successful load keeps the stored images in front of the new ones; InsertAllFails and InsertAllLastWins state the rest |

## Left out

- **Reading and writing**: parquet, CSV and JSON files, the `wget` and
  `requests` downloads, `os.makedirs`, prints, plots and the `describe()`
  summary. The model takes frames and JSON values as inputs and returns
  results.
- **osmium's stream** of the `.pbf` file: primitives arrive as a sequence.
  The node lists of ways and areas hold `Option`s, with `None` for an
  invalid location. A node primitive's own location is a plain point: an
  invalid one, which raises inside `node()` with no `try`, is not modelled.
- **shapely**: `Polygon(...)` is modelled only through its ring-size
  exception. `is_valid` and `centroid` are function parameters.
- **Reprojection through pyproj** (`projeter_biens`, and the `x_proj` and
  `y_proj` columns of `nettoyer_valeur_fonciere`). Projected coordinates are
  given inputs.
- **cKDTree**: modelled as a linear scan with the same closed-ball test.
  The scan yields positions in ascending order. The order of a single-point
  `query_ball_point` is unspecified, but only its length and the minimum
  distance over it are read, so the order does not affect the result.
- **Square root and `round(..., 2)`**: the model compares squared
  distances. The value written to `distance_min_<poi>` is the `metres`
  parameter applied to the squared minimum.
- **joblib** runs the deduplication in parallel over the categories. The
  model treats one category at a time.
- **The quantiles** of `nettoyer_valeur_fonciere` are parameters (`lo`,
  `hi`). The `log` column is float numerics and is not modelled.
- **Float rounding**: the price per square metre is an exact quotient of
  reals. IEEE rounding and the sign of a zero divisor are not modelled.
- **`fusion_vf_eco_insee.py`**, the module-level merge and inflation code of
  `traitement_economie_global.py`, the SQL schema creation and the views,
  the scraper and the launcher scripts are not part of this model.
- **Polars `unique`**: it may keep any representative, in any order. The
  model keeps the first occurrence in input order.
- **Polars `group_by`**: its order is unspecified. The model computes each
  department's mean independently of order.
- **Column order**: frames are sets of column names plus rows, so column
  order is not modelled.
- **SQLite type affinity**: ids are compared as JSON values, so `5` and
  `"5"` are different keys in the model.
- **Python float conversion** is a parameter. Its `OverflowError` and
  JSON's `NaN` and `Infinity` literals are not modelled.
- **Economy.ApplyToColumn**: models `df[column] = ...apply(...)` on values.
  That the caller's DataFrame is changed in place (aliasing) is not
  captured.
- **Only the first error is modelled.** For example, the first failing
  cast or statement stands for the exception Python raises.
- **FirstCleaning.UniqueBy**: its ensures states only that no row is added.
  What it keeps is stated by `UniqueBySubset`, `UniqueByDistinctKeys` and
  `UniqueByComplete`.
- **The 10000-row sample** taken at the end of `fin_nettoyage.py` is
  outside the core.
- PriceCleaning.OneHot: requires that `type_local` does not hold both a
  null and the text "None". Both would be named `type_local__None`, and the
  later column would overwrite the earlier one. That collision is not
  modelled.
- PriceCleaning.CleanPrices: carries the same requirement as `OneHot`,
  for the same reason.
