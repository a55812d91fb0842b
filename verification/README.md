# Housing satisfaction tab: a Dafny model of its aggregations

This project models the data handling behind the "Satisfaction Levels"
tab of the housing-transparency dashboard, `show_satisfaction_levels_tab`.
The tab takes the processed survey table and derives several views from it:

- the cross-tabulation of housing situation against satisfaction level, with
  its columns in display order;
- the overall satisfaction and dissatisfaction rates;
- the tally of dissatisfaction reasons and its top three;
- the satisfaction multiselect filter;
- the income-bracket table;
- the rent-burden analysis over renters: melted counts in bracket order, mean
  score per bracket, and the highest and lowest bracket;
- the per-district mean on the signed scale, with its highest and lowest
  district;
- the map join: district names normalised, sent through the alias table,
  turned into a lookup table, and looked up by each boundary feature to pick
  a fill colour and a popup.

Everything is modelled as pure functions over immutable data:

- The survey table is a sequence of rows with string cells and a map of
  boolean `reason_*` flags.
- A pandas NaN is `None` in an `Option`.
- The five-way score classification is written twice, once for the popup
  (a `>=` chain) and once for the map fill (a `<` chain). Each chain is
  modelled as written and compared with one reference classification.

Files, each one module:

| file | module | part of the tab |
|---|---|---|
| `wrappers.dfy` | `Wrappers` | `Option` (NaN / missing value) |
| `seqs.dfy` | `Seqs` | sequence helpers: filter, dedup, insertion sort, distinctness |
| `survey.dfy` | `Survey` | the table, counting, the multiselect filter, renters |
| `scales.dfy` | `Scales` | the ordinal (1..5) and signed (-2..+2) scales |
| `crosstab.dfy` | `CrossTab` | `pd.crosstab`, the ordered heatmap columns, the income table |
| `reasons.dfy` | `Reasons` | the reason tally, its ranking and top three |
| `rates.dfy` | `Rates` | the satisfied and dissatisfied percentages |
| `groups.dfy` | `Groups` | group mean/count, district ranking, `idxmax`/`idxmin` |
| `rentburden.dfy` | `RentBurden` | the melted bracket table, bracket order, bracket means |
| `names.dfy` | `Names` | lower-casing, NFKD decomposition, ASCII filtering |
| `buckets.dfy` | `Buckets` | the five score buckets, the popup chain and the fill chain |
| `geojoin.dfy` | `GeoJoin` | the alias table, the lookup table, fill and popup per feature |

Three choices of the code shape the model:

- Reason ties: the code tallies reasons in the order of the table's columns
  (lines 157-161). It then sorts by count with pandas' default sort, which
  is not stable (line 165), so tied reasons have no fixed order. The model
  tallies in column order, and its contracts claim no order among ties.
- District scores: the code groups `filtered_df`, the table after the
  satisfaction multiselect (lines 204-207 and 337-341). The model groups
  whichever rows it is given.
- Bucketing: the code classifies a score twice, with a `>=` chain for the
  popup (lines 407-421) and a `<` chain for the fill (lines 524-533). The
  two disagree on a NaN score (first finding below).

## Model

All source cells refer to `dashboard/tabs/tab3_satisfaction_levels.py`.

| member | source | states |
|---|---|---|
| Scales.ScaleValue | dashboard/tabs/tab3_satisfaction_levels.py:12-18 | mapping a label through a score table gives a value exactly when the label is one of the five, and the value lies within the scale's range |
| Scales.TablesShareLabels | dashboard/tabs/tab3_satisfaction_levels.py:12-18 | both score tables are keyed by exactly the five display labels, and those labels are distinct |
| Scales.WeightIsShiftedScore | dashboard/tabs/tab3_satisfaction_levels.py:328-334 | a label has a signed weight exactly when it has an ordinal score, and the weight is the score minus 3 |
| Scales.DisplayOrderIsScoreOrder | dashboard/tabs/tab3_satisfaction_levels.py:49-55 | the heatmap's display order lists the labels by strictly decreasing score |
| Survey.Select | dashboard/tabs/tab3_satisfaction_levels.py:198-207 | an empty selection keeps the table; otherwise every row with a selected label survives as often as it occurs, no other row survives, and table order is kept |
| Survey.Renters | dashboard/tabs/tab3_satisfaction_levels.py:251 | the renters subset holds exactly the "Renting" rows, with their multiplicities, in table order |
| Survey.NonRenterDropped | dashboard/tabs/tab3_satisfaction_levels.py:251 | inserting a non-renting row anywhere leaves the renters subset unchanged |
| CrossTab.OrderedColumns | dashboard/tabs/tab3_satisfaction_levels.py:49-59 | the heatmap columns are exactly the display labels that occur in the data, each once, in display order |
| CrossTab.Pivot | dashboard/tabs/tab3_satisfaction_levels.py:44-46 | the crosstab has one row per distinct value that occurs; cell (k, c) counts the rows with value k and label c |
| CrossTab.PivotTotals | dashboard/tabs/tab3_satisfaction_levels.py:44-46 | a crosstab row sums to the rows with that key and a listed label; a column sums to all rows with its label; the grid sums to all rows with a listed label |
| CrossTab.HousingCrossTab | dashboard/tabs/tab3_satisfaction_levels.py:44-59 | the housing heatmap has one row per housing situation that occurs, each once; its columns are the ordered labels; cell (k, c) counts the rows with situation k and label c; and the cells count every row that carries one of the five labels |
| CrossTab.IncomeCrossTab | dashboard/tabs/tab3_satisfaction_levels.py:212-217 | the income table has one column per label that occurs and one row per bracket that occurs, each once; cell (k, c) counts the rows with bracket k and label c, absent pairs 0; so the cells add up to the number of rows |
| Reasons.MappingShape | dashboard/tabs/tab3_satisfaction_levels.py:143-155 | every mapped column carries the `reason_` prefix, and no two columns map to the same reason |
| Reasons.Put | dashboard/tabs/tab3_satisfaction_levels.py:161 | storing a count adds that entry, keeps every entry of another reason, and adds nothing else |
| Reasons.PutUnique | dashboard/tabs/tab3_satisfaction_levels.py:161 | storing under a reason never makes a reason appear twice |
| Reasons.TallyReasons | dashboard/tabs/tab3_satisfaction_levels.py:157-161 | the tally holds exactly the pairs (reason of a mapped `reason_` column, number of rows where it is true), each reason once |
| Reasons.RankReasons | dashboard/tabs/tab3_satisfaction_levels.py:163-165 | the ranked reasons are a permutation of the tally in non-increasing count order |
| Reasons.TopOf | dashboard/tabs/tab3_satisfaction_levels.py:163-180 | the top list has min(3, n) distinct tallied reasons whose counts never increase along the list, and no reason left out has a larger count than one chosen; no order among equal counts is claimed |
| Reasons.TopReasons | dashboard/tabs/tab3_satisfaction_levels.py:142-180 | the same, for the tally of a whole survey table |
| Rates.SharesAddUp | dashboard/tabs/tab3_satisfaction_levels.py:107-124 | the percentages of three parts that partition the rows add up to exactly 100 |
| Rates.Percentage | dashboard/tabs/tab3_satisfaction_levels.py:107-115 | a percentage exists exactly when there are rows; it is the share of rows with a label in the group, and it lies in [0, 100] |
| Rates.PercentageAdds | dashboard/tabs/tab3_satisfaction_levels.py:107-115 | the percentage over two disjoint label groups is the sum of their percentages |
| Rates.PercentageBounds | dashboard/tabs/tab3_satisfaction_levels.py:107-115 | the percentage is 100 when every row has a label of the group and 0 when none has |
| Rates.SatisfactionRates | dashboard/tabs/tab3_satisfaction_levels.py:84-124 | `satisfied` is the percentage of rows labelled "Very Satisfied" or "Satisfied" and `dissatisfied` that of "Dissatisfied" or "Very Dissatisfied"; both lie in [0, 100] and sum to at most 100, and what they leave is exactly the share of "Neutral" rows and rows with other labels |
| Rates.LabelsPartition | dashboard/tabs/tab3_satisfaction_levels.py:107-124 | the satisfied pair, the dissatisfied pair and "Neutral" partition the five labels |
| Groups.Summarise | dashboard/tabs/tab3_satisfaction_levels.py:337-346 | a group's count is the number of its rows with one of the five labels, and its total is the sum over the five labels of the label's scale value times the number of the group's rows with that label |
| Groups.GroupBy | dashboard/tabs/tab3_satisfaction_levels.py:342-346 | one group per distinct key that occurs; each count is that key's scored rows, and each total is that key's label-weighted sum of scale values |
| Groups.MeanWithinScale | dashboard/tabs/tab3_satisfaction_levels.py:342-346 | a defined group mean lies between the scale's lowest and highest value |
| Groups.GroupMeansWithinScale | dashboard/tabs/tab3_satisfaction_levels.py:342-346 | every defined mean of a grouped table lies within the scale |
| Groups.UnscoredRowIgnored | dashboard/tabs/tab3_satisfaction_levels.py:337-346 | inserting a row whose label is not one of the five changes no group's total or count |
| Groups.DistrictSummary | dashboard/tabs/tab3_satisfaction_levels.py:337-349 | one group per district that occurs, no district twice; the count is its scored rows, the total the signed-weight sum over its rows, and every defined mean lies in [-2, 2] |
| Groups.RankByMean | dashboard/tabs/tab3_satisfaction_levels.py:381-383 | the descending sort is a permutation of the groups: defined means never increase, and NaN means come last |
| Groups.Highest | dashboard/tabs/tab3_satisfaction_levels.py:381-384 | the first ranked district is a district of the table, and its mean is the largest defined mean whenever one exists |
| Groups.LowestAsWritten | dashboard/tabs/tab3_satisfaction_levels.py:385 | the last ranked district is a district of the table; when every mean is defined its mean is the smallest, and it has a NaN mean whenever some district does |
| Groups.LowestAsWrittenAgrees | dashboard/tabs/tab3_satisfaction_levels.py:381-390 | when every district has a defined mean, the source's `iloc[-1]` names the district with the smallest mean |
| Groups.LowestAsWrittenPicksUnscored | dashboard/tabs/tab3_satisfaction_levels.py:381-385 | for Lisboa (one response) and Porto (no scored response), the source names Porto as lowest while the smallest defined mean is Lisboa's |
| Groups.Lowest | dashboard/tabs/tab3_satisfaction_levels.py:385-390 | the lowest district exists exactly when some mean is defined, and its defined mean is no larger than any other defined mean |
| Groups.DistrictExtremes | dashboard/tabs/tab3_satisfaction_levels.py:380-390 | with the lowest read as corrected in the second finding (`Groups.Lowest`, not `iloc[-1]`), the highest and lowest districts have defined means that bound every district's defined mean from above and below |
| Groups.IdxMax | dashboard/tabs/tab3_satisfaction_levels.py:301-303 | `idxmax` skips NaN means and finds the first position of the largest defined mean, or none when every mean is NaN |
| Groups.IdxMin | dashboard/tabs/tab3_satisfaction_levels.py:304-306 | `idxmin` skips NaN means and finds the first position of the smallest defined mean, or none when every mean is NaN |
| RentBurden.BracketRank | dashboard/tabs/tab3_satisfaction_levels.py:266-277 | a bracket's rank is its position among the five categories; a bracket outside them ranks after all of them |
| RentBurden.BracketRankFollowsOrder | dashboard/tabs/tab3_satisfaction_levels.py:266-277 | the categories are ranked in the order listed, each with its own rank |
| RentBurden.MeltColumns | dashboard/tabs/tab3_satisfaction_levels.py:253-263 | a segment is in the melted table exactly when its bracket and label are listed and it carries the number of rows with that pair; with no repeated bracket or label, no segment occurs twice |
| RentBurden.MeltColumnsLength | dashboard/tabs/tab3_satisfaction_levels.py:253-263 | the melted table has one segment for each pair of a listed bracket and a listed label |
| RentBurden.MeltCountsEveryRow | dashboard/tabs/tab3_satisfaction_levels.py:253-263 | melting over all brackets and labels that occur counts every row exactly once |
| RentBurden.RentSatisfaction | dashboard/tabs/tab3_satisfaction_levels.py:253-279 | the sorted melted table holds exactly one segment per bracket that occurs and label that occurs among renters (zero counts included), none twice, in category order, and counts every renter once |
| RentBurden.BurdenMeans | dashboard/tabs/tab3_satisfaction_levels.py:293-298 | one group per bracket among renters, no bracket twice; the count is the bracket's scored renters, the total the ordinal-score sum over them, and every defined mean lies in [1, 5] |
| RentBurden.NonRenterIgnored | dashboard/tabs/tab3_satisfaction_levels.py:251-298 | inserting a non-renting row leaves the bracket means unchanged |
| RentBurden.AnalyseRentBurden | dashboard/tabs/tab3_satisfaction_levels.py:251-318 | the section is empty exactly when no row rents; otherwise its segments are the renters' melted table, without repeats, in category order, counting every renter once, and its highest and lowest bracket bound all defined bracket means |
| Names.LowerChar | dashboard/tabs/tab3_satisfaction_levels.py:452 | lower-casing moves each modelled capital down by 0x20, leaves every other character alone, and keeps ASCII-ness |
| Names.Normalize | dashboard/tabs/tab3_satisfaction_levels.py:450-456 | a normalised name is ASCII with no capital |
| Names.NormalizeIsCharwise | dashboard/tabs/tab3_satisfaction_levels.py:450-456 | the lower / NFKD / ASCII pipeline equals normalising each character on its own |
| Names.AccentedToBase | dashboard/tabs/tab3_satisfaction_levels.py:450-456 | a letter with a diacritic, in either case, normalises to its lower-case base letter |
| Names.NormalizeFixesLowerAscii | dashboard/tabs/tab3_satisfaction_levels.py:450-456 | normalisation leaves a lower-case ASCII name unchanged |
| Names.Idempotent | dashboard/tabs/tab3_satisfaction_levels.py:450-456 | over the modelled alphabet, normalising twice gives the same name as normalising once |
| GeoJoin.AliasesAreIdentity | dashboard/tabs/tab3_satisfaction_levels.py:459-480 | every alias maps to itself, except "ilha da madeira", which maps to "madeira" |
| GeoJoin.AliasesInjective | dashboard/tabs/tab3_satisfaction_levels.py:459-480 | no two aliases share a feature key |
| GeoJoin.AliasesLowerAscii | dashboard/tabs/tab3_satisfaction_levels.py:459-480 | every alias is lower-case ASCII, so a normalised name can match any alias |
| GeoJoin.CanonicalKey | dashboard/tabs/tab3_satisfaction_levels.py:450-485 | a district has a feature key exactly when its normalised name is an alias; the key is lower-case ASCII |
| GeoJoin.KeyOfNormalized | dashboard/tabs/tab3_satisfaction_levels.py:450-485 | normalising a name first does not change its feature key |
| GeoJoin.AliasesReachable | dashboard/tabs/tab3_satisfaction_levels.py:459-485 | every alias, written as in the table, reaches its own feature key |
| GeoJoin.ToDict | dashboard/tabs/tab3_satisfaction_levels.py:488-493 | the dict has exactly the keys some row carries, and each key holds the statistics of the last row that carries it |
| GeoJoin.ScoreTable | dashboard/tabs/tab3_satisfaction_levels.py:488-493 | the lookup table's keys are exactly the feature keys of the districts, all lower-case ASCII; each value is the statistics of a district with that key, the one latest in the ranking |
| GeoJoin.MapTable | dashboard/tabs/tab3_satisfaction_levels.py:488-493 | the lookup table built from the ranked districts has exactly the feature keys of the districts; each value is the statistics of a district with that key, of the only one when just one has it, and otherwise of the one ranked last: NaN whenever a district with that key has no defined mean, else a mean no larger than any of theirs |
| GeoJoin.GreyIsNoBucket | dashboard/tabs/tab3_satisfaction_levels.py:524-535 | the no-data grey differs from every bucket colour |
| GeoJoin.FeatureFillAsWritten | dashboard/tabs/tab3_satisfaction_levels.py:519-535 | a feature not in the table is grey; one with a defined score gets its bucket's colour; one in the table with a NaN score gets the top bucket's dark green |
| GeoJoin.FeaturePopupAsWritten | dashboard/tabs/tab3_satisfaction_levels.py:568-600 | a feature gets a popup exactly when it is in the table; the popup carries the count and, for a defined score, the bucket's description and colour, and for a NaN score the lowest bucket's |
| GeoJoin.NaNDistrictAsWritten | dashboard/tabs/tab3_satisfaction_levels.py:519-573 | a district with a NaN mean is filled dark green, while its popup says "Very Low Satisfaction" in red |
| GeoJoin.FeatureFill | dashboard/tabs/tab3_satisfaction_levels.py:519-535 | grey exactly when the feature has no defined score; otherwise its bucket's colour |
| GeoJoin.FeaturePopup | dashboard/tabs/tab3_satisfaction_levels.py:568-600 | a popup exactly when the feature has a defined score, with that bucket's description and colour and the district's count |
| GeoJoin.FillMatchesPopup | dashboard/tabs/tab3_satisfaction_levels.py:519-600 | with the corrected lookup, a feature with a popup is filled with the popup's colour, and one without a popup is grey |
| GeoJoin.CorrectedAgreesWhenDefined | dashboard/tabs/tab3_satisfaction_levels.py:519-600 | when the feature's score is defined, the corrected fill and popup equal those of the source |
| GeoJoin.AccentedFeatureUnmatched | dashboard/tabs/tab3_satisfaction_levels.py:520 | a feature name with a non-ASCII letter finds no district and is grey, since feature names are only lower-cased |
| Buckets.ColourIdentifiesBucket | dashboard/tabs/tab3_satisfaction_levels.py:407-421 | the five bucket colours are pairwise different |
| Buckets.PopupClassifies | dashboard/tabs/tab3_satisfaction_levels.py:407-421 | for a defined score, the popup's `>=` chain gives the bucket of the number of boundaries the score reaches |
| Buckets.FillClassifies | dashboard/tabs/tab3_satisfaction_levels.py:524-533 | for a defined score, the fill's `<` chain gives the same reference bucket |
| Buckets.ChainsAgree | dashboard/tabs/tab3_satisfaction_levels.py:407-533 | the two chains give every defined score the same colour |
| Buckets.BoundaryGoesUp | dashboard/tabs/tab3_satisfaction_levels.py:407-421 | a score exactly on a boundary falls in the bucket above it |
| Buckets.Monotone | dashboard/tabs/tab3_satisfaction_levels.py:407-421 | a higher score never falls in a lower bucket |
| Buckets.NaNScoreSplitsChains | dashboard/tabs/tab3_satisfaction_levels.py:407-533 | on a NaN score, the fill chain falls through to the top bucket's colour and the popup chain to the bottom bucket |

## Left out

- Rendering is not modelled: Streamlit widgets, Plotly figures, the Folium
  map, tooltips, the pie-chart colour map, HTML text and number formatting.
  A computed value is modelled only as far as it reaches the page.
- Loading `distrito_all_s.geojson` and the `except` handler around the map
  are left out as I/O. The boundary features are an input: one name per
  feature.
- The income/score correlation (`corr`, lines 227-235) is left out. It is
  floating-point statistics over a numeric column the model does not carry.
- The popup marker's centroid (lines 575-588) is left out. It is
  floating-point geometry over the feature's coordinates.
- Names.LowerChar, Names.Normalize: lower-casing and NFKD cover ASCII and
  the Latin-1 letters used in Portuguese place names. Other characters pass
  both steps unchanged, not following full Unicode. For example, Python
  turns "Lisboa²" into "lisboa2", where the model gives "lisboa".
- Names.Idempotent: a fact about the model's alphabet only. Python's
  lower-then-NFKD chain is not idempotent in general: the trade-mark sign
  gives "TM" after one pass and "tm" after two.
- Groups.GroupBy, CrossTab.Pivot, CrossTab.IncomeCrossTab: groups,
  crosstab rows and the income table's columns come in order of first
  appearance, not in the sorted order pandas gives keys and `.unstack()`
  gives labels. No contract depends on that order.
- Reasons.RankReasons, Groups.RankByMean, RentBurden.RentSatisfaction: the
  source's sorts do not fix the order of ties, and these contracts state
  nothing about it. The model's insertion sort puts ties in some fixed
  order, which no contract describes.
- RentBurden.RentSatisfaction, RentBurden.AnalyseRentBurden: a segment
  keeps its bracket string. The source's `pd.Categorical` (lines 273-277)
  turns a bracket outside the five categories into NaN, so two different
  unlisted brackets become indistinguishable there. The contracts' bracket
  membership and distinctness hold for the strings, not for the NaN
  categories; the bracket order (`BracketRank`) does treat every unlisted
  bracket as NaN, sorted last.
- Rates.SharesAddUp, Rates.SatisfactionRates: the percentages are exact
  reals, while the source computes float64 `count / total * 100`. The sum of
  exactly 100 and the bound of at most 100 hold of the source only up to
  rounding. With 2 satisfied and 9 dissatisfied of 11 rows, the float64 sum
  is 100.00000000000001. The one-decimal display hides the difference.
- Missing (NaN) cells in key and label columns are not modelled, since cells
  are strings. As a result, the rates' denominator is the number of rows.
- Groups.IdxMax, Groups.IdxMin: when every mean is NaN, the model returns
  none. The source would fail at `.loc` instead.
- Groups.Highest, Groups.LowestAsWritten: an empty district table gives
  none. The source would raise an `IndexError` at `iloc`.
- Groups.DistrictExtremes: uses the corrected lowest district of the
  second finding, not the source's `iloc[-1]`. It differs from the source
  whenever some district has no defined mean: the source then names a
  NaN-mean district as lowest, and, when no mean is defined at all, names
  NaN-mean districts for both, where this member names none.
- GeoJoin.ToDict: a district without a feature key (NaN key) is left out of
  the lookup table, since no feature name can equal NaN.

## Findings

| source | as written | input that shows it | evidently intended | confidence | as-written member | corrected member |
|---|---|---|---|---|---|---|
| dashboard/tabs/tab3_satisfaction_levels.py:519-535 | The fill chain tests `score < c`. A district whose responses all carry labels outside the five has a NaN mean, so every test fails and the feature is filled dark green `#1a9850`. Its popup's `>=` chain falls through to "Very Low Satisfaction" in red. | lookup table `{"porto": (NaN, 0)}`, feature "Porto" | a district without a defined score is grey and has no popup, as for a district without data | not executed | GeoJoin.NaNDistrictAsWritten | GeoJoin.FeatureFill |
| dashboard/tabs/tab3_satisfaction_levels.py:381-385 | The lowest district is `iloc[-1]` of the table sorted descending. That sort puts NaN means last, so a district with no scored response is named lowest. | Lisboa (one "Very Satisfied", mean 2) and Porto (no scored response, mean NaN) | the district with the smallest defined mean (Lisboa) | not executed | Groups.LowestAsWrittenPicksUnscored | Groups.Lowest |
