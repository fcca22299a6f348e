# Airbnb Milan listings: row-wise recoding, modelled in Dafny

This project models the data-cleaning core of the Airbnb Milan price-prediction
scripts. It is the part that turns raw listing columns into categorical and
indicator features:

- review scores are banded onto an ordered five-level review scale;
- day counts since the first and the last review are banded by first-match cascades;
- 0/1 and `'t'`/`'f'` flag columns are coerced to booleans;
- a date column is replaced by a days-since column;
- host locations are mapped onto a six-tier geographic hierarchy and counted tier by tier;
- free-text property types are mapped onto six coarse classes;
- a text column is imputed and paired with a presence indicator;
- listings whose review scores are partly, but not wholly, missing are found;
- the missing-value mask and the zero flag are built for a correlation heatmap.

A pandas DataFrame is modelled as a `Frame.Table`: the ordered column labels,
a map from label to column, and the row count. A cell is an `Option<Value>`,
where `None` is NaN/None/NaT. `Value` is a number (`real`), a string or a
boolean. `Frame.PyEq` is Python's `==` on such values: `True == 1`, and a string
equals only a string. Every script function that takes a DataFrame becomes a
Dafny function or method returning a `Frame.Call`; `categorize_location`,
which takes one string, returns the tier directly. A `Call` holds the caller's table as it is after the call
(pandas mutates the argument in place in several of these functions) and the
value returned, or the error raised (`KeyError`, `ValueError`, `TypeError` or
`AttributeError`).

Files:

- `wrappers.dfy`: `Option` and `Result`.
- `frame.dfy`: the table model, plus column assignment, drop and projection.
- `classifiers.dfy`: the review-score bands, `numpy.select`, and the two day-count cascades with their category orders.
- `feature_engineering.dfy`: the table-level functions of `src/data/_02_feature_engineering.py`.
- `location_table.dfy`: `LOCATION_HIERARCHY` and `CATEGORY_ORDER`.
- `location.dfy`: `categorize_location` and `analyze_location_distribution`.
- `property_type.dfy`: `property_type_dict`.
- `preprocessing.dfy`: `impute_and_create_binary_feature`, `partially_missing` and `partial_review_missing`.
- `missing_corr.dfy`: `compute_missing_corr`, up to the correlation.

The two constant dictionaries are written as their groups of keys, one set per
target value, in the order the dictionary lists them. A lookup (`dict.get`) is
`LocationTable.Hierarchy` or `PropertyType.PropertyTypeClass`: the value of
the first group that lists the key, or `None` for a key no group lists. The
groups are proved pairwise disjoint, so every key maps to the value of the one
group that lists it.

## Model

| member | source | states |
|---|---|---|
| Classifiers.Select | src/data/_02_feature_engineering.py:61-71 | `np.select` returns the choice of the first true condition, and the default when none holds |
| Classifiers.ReviewLabel | src/data/_02_feature_engineering.py:6-15 | every review label is one of the five `REVIEW_CAT` categories |
| Classifiers.ReviewBands | src/data/_02_feature_engineering.py:62-70 | missing is `no_reviews`; below 4.0 is `low_reviews`; [4.0, 4.6) is `medium_reviews`; [4.6, 4.8] is `high_reviews`, both ends included; above 4.8 is `top_reviews`; each iff |
| Classifiers.ExactlyOneReviewCondition | src/data/_02_feature_engineering.py:61-70 | exactly one of the five conditions holds for every score, so a present score never falls to the default |
| Classifiers.ReviewMonotone | src/data/_02_feature_engineering.py:6-15 | for present scores a <= b, the label of a ranks no higher in `REVIEW_CAT` than that of b, and both rank above `no_reviews` |
| Classifiers.ReviewRank | src/data/_02_feature_engineering.py:60-73 | the rank in `REVIEW_CAT` of a present score's label, as a step function of the score |
| Classifiers.PositionOfIndex | src/data/_02_feature_engineering.py:145-153 | in a category order without repeats, the position of the k-th category is k |
| Classifiers.CascadeMonotone | src/data/_02_feature_engineering.py:125-139 | a first-match cascade over ascending bounds is monotone in the day count, and every present count ranks above the missing label |
| Classifiers.ReviewAge | src/data/_02_feature_engineering.py:125-153 | every review-age label lies in `categories_order` |
| Classifiers.ReviewAgeIsCascade | src/data/_02_feature_engineering.py:125-139 | the review-age if-chain is the first-match cascade over the bounds 30, 180, 365, 1095, 1825 |
| Classifiers.ReviewAgeBands | src/data/_02_feature_engineering.py:126-139 | missing is `no_review_yet`; each band is the half-open day interval up to its bound, bound included; above 1825 is `legacy`; each iff |
| Classifiers.ReviewAgeMonotone | src/data/_02_feature_engineering.py:125-153 | review age is monotone in days with respect to `categories_order` |
| Classifiers.LastReviewRecency | src/data/_02_feature_engineering.py:199-227 | every recency label lies in `categories_order` |
| Classifiers.LastReviewRecencyIsCascade | src/data/_02_feature_engineering.py:199-213 | the recency if-chain is the first-match cascade over the bounds 7, 30, 90, 180, 365 |
| Classifiers.LastReviewRecencyBands | src/data/_02_feature_engineering.py:200-213 | missing is `no_review`; each band is the interval up to its bound, bound included; above 365 is `dormant`; each iff |
| Classifiers.LastReviewRecencyMonotone | src/data/_02_feature_engineering.py:199-227 | recency is monotone in days with respect to `categories_order` |
| FeatureEngineering.BooleanColumnBranches | src/data/_02_feature_engineering.py:286-293 | values all in {0,1}: each cell is cast (0 to False, otherwise True); else values all in {'t','f'}: 't' is True, 'f' is False; otherwise ValueError with the column's message; the error happens iff neither subset test holds |
| FeatureEngineering.AllMissingColumnIsCast | src/data/_02_feature_engineering.py:286-289 | an all-missing column has no distinct values, so it takes the {0,1} branch |
| FeatureEngineering.RecodeEach | src/data/_02_feature_engineering.py:53-75 | the column loop keeps the labels and the row count, and changes no column outside the list |
| FeatureEngineering.RecodeEachDone | src/data/_02_feature_engineering.py:53-73 | a loop that finishes over distinct labels found every label and stored its recoding |
| FeatureEngineering.RecodeEachStops | src/data/_02_feature_engineering.py:53-55 | the loop stops with KeyError at the first absent label, holding exactly the recodings made before it |
| FeatureEngineering.RecodeEachSplit | src/data/_02_feature_engineering.py:285-293 | the loop over a list is the loop over a prefix, continued over the rest |
| FeatureEngineering.RecodeEachSkips | src/data/_02_feature_engineering.py:285-293 | a label not in the prefix is still unchanged when the loop reaches it |
| FeatureEngineering.FirstAbsent | src/data/_02_feature_engineering.py:53-55 | the index of the first absent label: all earlier labels are present |
| FeatureEngineering.CategorizeReviews | src/data/_02_feature_engineering.py:50-75 | without `inplace` the caller's table is untouched, even on error; with it the caller's table is the result; only listed columns change; labels and rows are kept |
| FeatureEngineering.CategorizeReviewsLabels | src/data/_02_feature_engineering.py:57-73 | on success each listed column holds the review label of each original cell |
| FeatureEngineering.CategorizeReviewsMissingColumn | src/data/_02_feature_engineering.py:50-55 | an absent label raises KeyError naming it; with `inplace` the caller keeps the earlier recodings, without it the caller's table is unchanged |
| FeatureEngineering.CategorizeReviewsFailsIffAbsent | src/data/_02_feature_engineering.py:53-55 | for numeric columns the call fails iff a listed column is absent, and then with KeyError |
| FeatureEngineering.ConvertColumnsToBoolean | src/data/_02_feature_engineering.py:285-295 | always in place: the caller's table is the result, only listed columns change |
| FeatureEngineering.ConvertColumnsToBooleanConverts | src/data/_02_feature_engineering.py:285-291 | on success each listed column is its boolean conversion, with that column's own reading of a missing cell |
| FeatureEngineering.ConvertColumnsToBooleanUnsupported | src/data/_02_feature_engineering.py:292-293 | an unsupported column raises ValueError after the earlier columns are converted, and the caller keeps them |
| FeatureEngineering.CategorizeDays | src/data/_02_feature_engineering.py:119-159 | KeyError for an absent column, TypeError for a string compared with a number, success otherwise; with `inplace` the caller sees the result, without it nothing changes |
| FeatureEngineering.CreateFirstReviewAgeCategories | src/data/_02_feature_engineering.py:114-159 | each cell becomes the review-age label of its day count, never missing, a member of `categories_order`; other columns are kept |
| FeatureEngineering.CreateLastReviewRecencyCategories | src/data/_02_feature_engineering.py:188-233 | each cell becomes the recency label of its day count, never missing, a member of `categories_order`; other columns are kept |
| FeatureEngineering.ParseBoth | src/data/_02_feature_engineering.py:96-97 | both date columns are parsed in the caller's table, each exactly once (a column used as both is parsed once), nothing else changes |
| FeatureEngineering.WithDaysSince | src/data/_02_feature_engineering.py:103-107 | the returned table lacks the date column and holds `days_since_<date>`, all else kept |
| FeatureEngineering.ConvertAndCalculateDays | src/data/_02_feature_engineering.py:96-109 | KeyError on the date column first, then on the reference column, after the date column was already parsed in place; success iff both exist; the caller's date and reference columns hold their parsed dates |
| FeatureEngineering.DaysSinceColumn | src/data/_02_feature_engineering.py:96-109 | the derived column is, per row, reference day minus date day when both parse and missing otherwise (0 or missing when date and reference are one column); the date column is gone; other columns and rows are kept |
| FeatureEngineering.CategoryFrom | src/data/_02_feature_engineering.py:269 | the first category equal to a value, or none |
| FeatureEngineering.ConvertToOrderedCategory | src/data/_02_feature_engineering.py:257-270 | in place; a cell stays present iff it equals some category and then holds that category; KeyError for an absent column, ValueError for repeated categories |
| FeatureEngineering.CategoryOfCategory | src/data/_02_feature_engineering.py:269 | with unique categories a category matches itself first |
| FeatureEngineering.ConvertToOrderedCategoryIdempotent | src/data/_02_feature_engineering.py:257-270 | converting a converted column again changes nothing |
| LocationTable.TierFromLevel | src/data/_02c_dictionary_mapping.py:4-85 | a location listed at some level resolves to that level's tier, whatever earlier level the search starts from |
| LocationTable.UnlistedFrom | src/data/_02c_dictionary_mapping.py:4-85 | a location no level lists is no key |
| LocationTable.HierarchyByLevel | src/data/_02c_dictionary_mapping.py:4-85 | a location is a key iff one of the six levels lists it, and it maps to that level's tier |
| LocationTable.TierFromRange | src/data/_02c_dictionary_mapping.py:4-85 | a tier found from a level on is one of the tiers from that level on |
| LocationTable.LocalTiersListed | src/data/_02c_dictionary_mapping.py:6-9 | "Milan" and "Lombardy" are keys mapping to themselves |
| LocationTable.NotListedIsNoKey | src/data/_02c_dictionary_mapping.py:4-85 | the tier names other than Milan and Lombardy, "Unknown", "milan" and "Atlantis" are not keys |
| LocationTable.TierNamesUnlisted | src/data/_02c_dictionary_mapping.py:4-85 | "Northern Italy", "Central/Southern Italy", "Europe", "Extra-EU" and "Unknown" are not keys |
| LocationTable.TierWitnesses | src/data/_02c_dictionary_mapping.py:12-85 | "Piedmont", "Lazio", "Switzerland" and "United States" map to the four outer tiers |
| LocationTable.HierarchyRange | src/data/_02c_dictionary_mapping.py:4-102 | every value is in `CATEGORY_ORDER`, every tier is the value of some key, the tiers are distinct, and "Unknown" is not a tier |
| LocationHierarchy.CategorizeLocation | src/data/_02c_dictionary_mapping.py:88-92 | the table's value for a key; "Unknown" iff the location is not a key; a tier iff it is |
| LocationHierarchy.SampleLocations | src/data/_02c_dictionary_mapping.py:6-61 | "Unknown_Italy" is Central/Southern Italy, "United Kingdom" is Extra-EU, "Milan" is Milan; "milan" and "Atlantis" are Unknown, because matching is exact |
| LocationHierarchy.CategorizeTwice | src/data/_02c_dictionary_mapping.py:4-92 | a second lookup returns the first result iff it is "Milan", "Lombardy" or "Unknown" |
| LocationHierarchy.LocationOf | src/data/_02c_dictionary_mapping.py:88-112 | the label of one cell is a tier iff the cell is a string that is a key, and then that key's tier; otherwise "Unknown" |
| LocationHierarchy.HierarchyLabels | src/data/_02c_dictionary_mapping.py:112 | one label per row, in row order |
| LocationHierarchy.HierarchyColumn | src/data/_02c_dictionary_mapping.py:88-112 | the `location_hierarchy` column: every cell is present; a key's row holds its tier, any other row "Unknown" |
| LocationHierarchy.CountOf | src/data/_02c_dictionary_mapping.py:115 | a label's count is 0 iff it does not occur |
| LocationHierarchy.ValueCounts | src/data/_02c_dictionary_mapping.py:115 | exactly the occurring labels, each with its count |
| LocationHierarchy.Reindex | src/data/_02c_dictionary_mapping.py:118 | one entry per tier of the order, in order |
| LocationHierarchy.SumCountsSnoc | src/data/_02c_dictionary_mapping.py:115-118 | one more row adds one to the summed tier counts iff its label is a tier |
| LocationHierarchy.CountIn | src/data/_02c_dictionary_mapping.py:115-118 | the number of labels that belong to the order is 0 iff none does |
| LocationHierarchy.SumCountsEmpty | src/data/_02c_dictionary_mapping.py:115-118 | an empty label sequence counts 0 for every order |
| LocationHierarchy.SumCountsCoverOrder | src/data/_02c_dictionary_mapping.py:115-118 | over an order without repeats, the per-label counts sum to the number of labels in the order; other labels drop out |
| LocationHierarchy.KeyRowsAreTierLabels | src/data/_02c_dictionary_mapping.py:88-112 | the rows labelled with a tier are exactly the rows whose cell is a string that is a key |
| LocationHierarchy.ReindexedCounts | src/data/_02c_dictionary_mapping.py:115-118 | `value_counts().reindex(order, fill_value=0)`: one entry per label of the order, in order, with its count (0 when absent); over an order without repeats the total counts the labels in it |
| LocationHierarchy.TierCountsCoverKeyRows | src/data/_02c_dictionary_mapping.py:112-118 | the six tier counts add up to the rows whose location is a key; Unknown rows drop out |
| LocationHierarchy.TotalOfTiers | src/data/_02c_dictionary_mapping.py:118-120 | the total of the reindexed list is the summed tier counts |
| LocationHierarchy.AnalyzeLocationDistribution | src/data/_02c_dictionary_mapping.py:105-120 | KeyError for an absent column; else adds `location_hierarchy` to the caller's table and returns the six tiers in order with their counts, 0 for absent tiers, totalling the key rows |
| PropertyType.ClassFromGroup | src/data/_02d_property_type_mapping.py:1-125 | a type listed in some group resolves to that group's class, whatever earlier group the search starts from |
| PropertyType.UngroupedFrom | src/data/_02d_property_type_mapping.py:1-125 | a type no group lists is no key |
| PropertyType.DictByClass | src/data/_02d_property_type_mapping.py:1-125 | a type is a key iff one of the six groups lists it, and it maps to that group's class |
| PropertyType.ClassFromRange | src/data/_02d_property_type_mapping.py:1-125 | a class found from a group on is one of the classes from that group on |
| PropertyType.PropertyTypeRange | src/data/_02d_property_type_mapping.py:1-125 | every value is one of the six classes, and every class is some key's value |
| PropertyType.Fallbacks | src/data/_02d_property_type_mapping.py:123-124 | "" and "Other" map to "Other" |
| PropertyType.AmbiguousEntries | src/data/_02d_property_type_mapping.py:114-117 | the four vague descriptions map to "Ambiguous" |
| PropertyType.NotableEntries | src/data/_02d_property_type_mapping.py:23-118 | "Room in boutique hotel or B&B", listed among the ambiguous cases, maps to "Guest/Hotel"; "Entire residential home" maps to "Apartment/Condo" |
| Preprocessing.Fill | src/data/preprocessing.py:16 | `fillna`: present cells are kept, missing ones take the default, none stays missing |
| Preprocessing.ImputeAndCreateBinaryFeature | src/data/preprocessing.py:4-27 | KeyError iff the column is absent; else the caller's table has the column filled and `<col>_present` added, and the result is that table without the column |
| Preprocessing.PresenceIndicator | src/data/preprocessing.py:16-18 | the indicator is 1 iff the original cell was present and not equal to the default; a value equal to the default gives 0 |
| Preprocessing.NullCountMeaning | src/data/preprocessing.py:116-129 | a row's null count is positive iff a cell is missing, and equals the row length iff all are |
| Preprocessing.PartialRows | src/data/preprocessing.py:177-179 | the selected rows are increasing and are exactly the rows with some but not all review cells missing |
| Preprocessing.PartialCountIdentity | src/data/preprocessing.py:182-184 | with review columns, n_all <= n_any and n_partial = n_any - n_all; with none, every row is all-missing and none is selected |
| Preprocessing.PartialReviewMissing | src/data/preprocessing.py:147-199 | never mutates; KeyError for absent review columns, then for absent returned columns; the columns are id, extras, reviews, restricted to the selected rows; the ids are the selected rows' ids; a twice-returned id label fails on `tolist` |
| Preprocessing.PartiallyMissing | src/data/preprocessing.py:113-139 | KeyError for absent review columns before any change; else the caller gains `num_missing_reviews`; then KeyError for `id`, then for absent displayed columns; the result is the displayed columns of the kept rows and the ids in a one-element list |
| Preprocessing.KeptRowIsPartialRow | src/data/preprocessing.py:116-129 | on one row, the positive-count-and-not-all-missing filter holds exactly when the row is partially missing |
| Preprocessing.KeptRowsArePartialRows | src/data/preprocessing.py:116-129 | when the count label is not a review column, `partially_missing` keeps exactly the rows `partial_review_missing` selects |
| Preprocessing.PartiallyMissingAgrees | src/data/preprocessing.py:137-139 | the two functions report the same ids in the same order |
| MissingCorr.ValidColumns | src/data/02_missing_values_heatmap.py:35 | the requested labels present in the table, and only those; empty iff none is present |
| MissingCorr.ValidColumnsAppend | src/data/02_missing_values_heatmap.py:35 | the filter keeps request order: filtering a concatenation concatenates the filtered parts |
| MissingCorr.ZeroFlag | src/data/02_missing_values_heatmap.py:42 | 1 iff the cell is present and equal to 0 (False counts), else 0 |
| MissingCorr.NullMask | src/data/02_missing_values_heatmap.py:45 | 1 iff the cell is missing, else 0 |
| MissingCorr.Put | src/data/02_missing_values_heatmap.py:48 | columns with the flag's label are replaced, otherwise the flag is appended |
| MissingCorr.MissingMatrix | src/data/02_missing_values_heatmap.py:40-48 | the valid columns' masks in order, then the flag; a requested column named like the flag holds the flag |
| MissingCorr.ComputeMissingCorr | src/data/02_missing_values_heatmap.py:34-51 | never mutates; ValueError with the message when no requested column is present, then KeyError for an absent indicator; otherwise the matrix that is correlated |
| MissingCorr.MaskMarksMissing | src/data/02_missing_values_heatmap.py:45-48 | each mask cell is 1 iff the table's cell is missing, and 0 iff it is present |
| MissingCorr.MaskColumns | src/data/02_missing_values_heatmap.py:45-48 | the matrix's labels are the valid columns followed by the flag, whenever the flag's label is not itself a valid column (a requested flag label absent from the table is filtered out first) |

## Left out

- Printing and the console summaries: presentation only.
- The correlation matrix (`missing_matrix.corr()`): floating-point numerics. `ComputeMissingCorr` returns the matrix the correlation is taken of.
- `plot_missing_corr_heatmap` in `src/data/preprocessing.py`: it repeats `compute_missing_corr` and then plots.
- The plotting scripts `src/data/_03_represent_categorical_data.py` and `src/data/_04_represent_numerical_data.py`: rendering only.
- `notebooks/MERGE.py`: notebook file I/O.
- Date parsing (`pd.to_datetime(..., errors='coerce')`): library behaviour. It is a parameter `parse` giving a day number, or nothing for an unparsable value.
- `astype(bool)` on a missing cell depends on the column's dtype. It is the parameter `missingAs`, a choice per column label.
- ConvertAndCalculateDays: dates enter only as values that `parse` reads. A column that already holds datetimes before the call is not represented. `to_datetime` would leave such a column unchanged, and so does the model for a column used as both date and reference.
- Day counts are `real` rather than `int`. Only comparisons with the bounds and one subtraction occur, so the integer case is included.
- IEEE floating point: scores and days are exact reals, with no NaN apart from a missing cell.
- Categorical dtype machinery: the recoded columns hold their label strings. The order a categorical carries is stated separately as `REVIEW_CAT`, `AGE_ORDER` and `RECENCY_ORDER`.
- `value_counts` ordering: only the reindexed result is modelled, and its order is fixed.
- KeyError payloads: every KeyError is modelled as the list of labels not found. For a list lookup that is the missing labels in request order, which pandas formats into a message. A single-label lookup `df[col]` raises `KeyError(col)`, and `categorize_reviews` raises `KeyError` with the message "'col' not found in the DataFrame."; both are modelled as the one-label list. ValueError messages are modelled word for word.
- A `review_cols` passed as a tuple: modelled as a list. `df[review_cols]` would look a tuple up as one label. A tuple `extra_cols` (the default is one) is flattened by `list.extend`, so it behaves exactly like the list it is modelled as.
- Duplicate labels inside a table: a `Table` is taken to have distinct labels. Result frames (`seq<Named>`) may repeat a label. Setting a repeated label on a result frame is modelled as replacing every column under it.
- `impute_and_create_binary_feature` with `default_value=None`: not modelled. The default is always a present value.
- The property-type table is data only: no function of the core looks it up.
