# CBRNE Incident Map — a Dafny model of its data logic

The CBRNE Incident Map is a set of three near-identical Streamlit dashboards
(`leaf_left.py`, `simple_map.py`, `app.py`). Each one loads a spreadsheet of
Chemical, Biological, Radiological, Nuclear and Explosive incidents, geocodes
every "City, Country" pair, lets the user narrow the incidents with sidebar
filters and a search box, and draws the rest as map markers and a weighted
heatmap. This project models the data logic under that UI and proves what the
code promises about it:

- **Location resolution** (`resolver.dfy`). First try an exact lookup of
  "City, Country". If that fails, the fuzzy matcher proposes up to five
  gazetteer names scoring at least 70, in rank order. The first one that
  geocodes wins and overwrites City. If none does, the row stays unresolved and
  keeps its City. `leaf_left.py` keeps unresolved rows. `simple_map.py` drops
  them. `app.py` has no fallback: a row's coordinates are the answer to the
  exact lookup. The geocoding service is the oracle `string -> Lookup` (a
  match, no match, or a service error). The fuzzy matcher is the oracle
  `string -> seq<Scored>`, the gazetteer ranked best first. Preprocessing
  writes the Coordinates and City columns in place, so it is a method over an
  `array<Incident>`. The candidate loop, with its `break`, is a `while` loop
  proved against the recursive specification `FirstHit`.
- **Filter chain** (`filters.dfy`). It has five optional membership filters
  (Type, Category, Country, Impact, Severity), where an empty choice means no
  constraint. Then come an inclusive date range and a case-insensitive search
  over Title, Country and City (`text.dfy`). Each step is an order-preserving
  selection (`Seqs.Filter`). The whole chain is proved equal to one selection
  by the conjunction of every active condition. `filter_data` in `leaf_left.py`
  and in `simple_map.py` is the same code, and `FilterData` models both.
  `ApplySelections` models the inline chain of `app.py` and the first five
  steps of `filter_data`.
- **Markers** (`markers.dfy`). There are icon and colour tables per category,
  with defaults. The marker loop places one marker per row that has
  coordinates.
- **Heatmap weights** (`heatmap.dfy`). Each row's LinkCount is the number of
  rows in its (Country, City) group that have a link. Each geocoded row becomes
  one weighted point.

Three details of the code shape the model:
- A fuzzy candidate is kept when its score is at least 70 (`score >= 70`,
  leaf_left.py:32).
- `simple_map.py` drops unresolved rows in `preprocess_data`, before any
  filtering, so its data table omits them as well (simple_map.py:58, 176,
  254-259).
- Caching is Streamlit's `st.cache_data`. The model's geocoder is a function,
  so one address always gets one answer.

## Model

| member | source | states |
|---|---|---|
| `Incidents.GeocodeAddress` | app.py:22-31 | A found location yields its coordinate. No match and a service error both yield None. |
| `Incidents.Geocode` | leaf_left.py:34-43 | The two-argument `geocode` (also simple_map.py:30-39) asks the service for "City, Country". It yields a coordinate exactly when that address is found, and it is the found one. |
| `Resolver.Top` | leaf_left.py:31 | `process.extract(..., limit)`: a prefix of the matcher's ranking that holds all of it or exactly `limit` entries. |
| `Resolver.AboveThreshold` | leaf_left.py:32 | The comprehension over the matches returns no more names than there are matches. |
| `Resolver.AboveThresholdIsFilter` | simple_map.py:28 | The comprehension is exactly the names of the matches with score >= threshold, once per match and in the matcher's order. |
| `Resolver.FuzzyMatchCity` | leaf_left.py:28-32 | At most `limit` candidates are returned. |
| `Resolver.FuzzyMatchCitySpec` | leaf_left.py:29-32 | The candidates number at most `limit`. They are exactly the names of the best `limit` entries scoring >= threshold, in order. A name is a candidate iff one of the matcher's best `limit` entries has that name and scores >= threshold. The candidates keep the matcher's order. |
| `Resolver.AboveThresholdSpec` | simple_map.py:25-28 | The comprehension keeps exactly the names with score >= threshold, as a subsequence of the ranked names. |
| `Resolver.FirstHit` | leaf_left.py:51-56 | The `for match in matches` scan as a function. A resolved scan's City is one of the candidates, and an unresolved scan keeps City. |
| `Resolver.Probes` | simple_map.py:48-52 | The candidates the scan looks up: no more than there are, and at least one when there is any. |
| `Resolver.ProbesSpec` | leaf_left.py:52-56 | The looked-up candidates are a prefix of the candidate list. The scan stops only at a candidate that geocodes, or after the last one. |
| `Resolver.Resolve` | leaf_left.py:47-57 | `geocode_and_correct` as a function. An unresolved row keeps City, and a changed City is one of the fuzzy candidates. |
| `Resolver.Lookups` | leaf_left.py:48-53 | The names `geocode_and_correct` looks up: the row's City first, then at most one per candidate. |
| `Resolver.FirstHitSpec` | leaf_left.py:51-56 | The scan succeeds iff some candidate geocodes. On success, City becomes the first candidate k that geocodes, the coordinate is k's, every earlier candidate failed, and exactly candidates 0..k were looked up. On failure, City is kept and every candidate was looked up. |
| `Resolver.FirstHitFound` | leaf_left.py:52-56 | A successful scan's City is the first candidate that geocodes, with that candidate's coordinate. Every earlier candidate failed, and nothing after it was looked up. |
| `Resolver.FirstHitMissed` | simple_map.py:48-53 | A scan that finds nothing keeps City. Every candidate was looked up, and none geocodes. |
| `Filters.ChainStep` | leaf_left.py:128-137 | Applying membership step n to the rows that passed the first n steps leaves exactly the rows that pass the first n + 1. |
| `Resolver.TryCandidates` | simple_map.py:47-52 | The loop with `break` returns exactly the specification `FirstHit` and looks up exactly `Probes`, the candidates up to and including the first hit. |
| `Resolver.GeocodeAndCorrect` | leaf_left.py:47-57 | The returned coordinates and City equal `Resolve` (the exact lookup, then the fallback scan). The names looked up equal `Lookups`. |
| `Resolver.ExactMatchWins` | leaf_left.py:48-49 | If "City, Country" geocodes, that is the coordinate, City is unchanged, and no candidate is looked up. |
| `Resolver.FallbackTakesFirstHit` | simple_map.py:44-53 | If the exact lookup fails and the row resolves, City is the first candidate in rank order that geocodes. Its coordinate is used, no higher-ranked candidate geocodes, and no lower-ranked one is looked up. |
| `Resolver.UnresolvedKeepsCity` | leaf_left.py:49-57 | A row is unresolved iff the exact lookup and every candidate fail. It then keeps its City, and all candidates were tried. |
| `Resolver.LondresBecomesLondon` | leaf_left.py:47-57 | "Londres, France" with no exact match and "London" (85) as a candidate resolves to London's coordinate, with City "London". The lookups are "Londres" then "London". |
| `Resolver.CorrectedWritesLocationOnly` | leaf_left.py:57-61 | Preprocessing changes only Coordinates and City. A changed City is one of the candidates, and the row is then resolved. |
| `Resolver.Corrected` | leaf_left.py:57-61 | A row after preprocessing differs from the original only in Coordinates and City. An unresolved row keeps its City. |
| `Resolver.PreprocessData` | leaf_left.py:45-62 | Every row of the array is replaced in place by its resolved version. No row is dropped. |
| `Resolver.DropUnresolved` | simple_map.py:58 | `dropna(subset=['Coordinates'])`: every kept row has coordinates and comes from the input, and every input row with coordinates is kept. |
| `Resolver.DropUnresolvedSpec` | simple_map.py:58 | Every survivor has coordinates. Every resolved row survives, in its original relative order. Survivors and unresolved rows together account for every row. |
| `Resolver.PreprocessAndDrop` | simple_map.py:41-58 | The rows are resolved in place, and the result is the resolved rows in order. Each of them has coordinates. |
| `Resolver.ExactCoordinates` | app.py:117 | A row's coordinate in `app.py` is present exactly when the service finds "City, Country", and it is the found one. |
| `Resolver.AttachCoordinates` | app.py:117 | Each row's Coordinates becomes exactly the answer for "City, Country". Nothing else changes. |
| `Resolver.FallbackExtendsExact` | app.py:23-31 | Where the exact lookup succeeds, the variants with and without the fuzzy fallback agree and keep City. Where the fallback variant finds nothing, so does the exact one. |
| `Text.ContainsIffOccurs` | leaf_left.py:141-144 | The substring scan succeeds iff the term occurs at some position of the text. |
| `Text.ContainsIgnoringCase` | leaf_left.py:142-144 | `str.contains(term, case=False)` holds iff the lower-cased term occurs at some position of the lower-cased text. |
| `Text.ExactMatchIgnoringCase` | simple_map.py:76-79 | A term that occurs verbatim is also found by the case-insensitive search. |
| `Filters.SelectIn` | app.py:105-106 | One `if chosen: rows = rows[rows[column].isin(chosen)]` step keeps no more rows than it is given, and each kept row's field is chosen unless nothing is. |
| `Filters.ApplySelections` | app.py:104-114 | The five membership steps keep no more rows than they are given. `ApplySelectionsExact` states which rows. |
| `Filters.SearchRows` | leaf_left.py:141-144 | An empty term keeps every row. Otherwise every kept row matches the search in Title, Country or City. |
| `Filters.FilterData` | leaf_left.py:126-146 | `filter_data` keeps no more rows than it is given, and each kept row is in the date range and matches a non-empty search term. `FilterDataExact` states which rows. |
| `Filters.SelectInAfter` | leaf_left.py:128-129 | One `if f: rows = rows[field.isin(f)]` step: an empty choice adds no condition, and a non-empty one adds membership. |
| `Filters.ApplySelectionsExact` | app.py:104-114 | The inline membership chain equals one order-preserving selection by the conjunction of the five "empty or member" tests. |
| `Filters.ApplySelectionsSubseq` | app.py:103-114 | The chain's result is a subsequence of the input. Every kept row passes every active filter, and every input row that passes them all is kept. |
| `Filters.EmptySelectionsKeepAll` | leaf_left.py:127-137 | With nothing chosen in any multiselect, the membership steps return the data unchanged. |
| `Filters.FilterDataExact` | leaf_left.py:126-146 | `filter_data` equals one order-preserving selection by: every active membership filter, start <= Date <= end, and (for a non-empty term) a case-insensitive match in Title, Country or City. |
| `Filters.FilterDataSubseq` | simple_map.py:61-81 | The result is a subsequence of the input. A row is kept iff it meets every active condition. |
| `Filters.DateRangeInclusive` | leaf_left.py:139 | Rows dated exactly at the start or at the end of the range are kept. |
| `Markers.MarkerIcon` | app.py:34-42 | The five categories get their own icon. Any other category gets 'info-sign', and only those get it. |
| `Markers.MarkerColor` | leaf_left.py:74-82 | The five categories get their own colour. Any other category gets 'gray', and only those get it. |
| `Markers.PlotlyMarkerColor` | simple_map.py:83-91 | 'Explosive' and any category outside the five get 'gray'. |
| `Markers.FoliumStylesDistinguishCategories` | leaf_left.py:64-82 | Two different categories, at least one of them among the five, get different icons and different colours. |
| `Markers.PlotlyColorConflatesExplosive` | simple_map.py:83-91 | The plotly colours agree with the folium colours except on 'Explosive'. There the plotly map uses 'gray', the default colour for unknown categories. |
| `Markers.MarkerFor` | leaf_left.py:163-170 | A row's marker sits at its coordinate with its title as tooltip. The icon is 'info-sign' exactly for a category outside the five. It has a colour exactly on the coloured map, and that colour is 'gray' exactly for a category outside the five. |
| `Markers.CreateMarkers` | leaf_left.py:161-171 | The marker loop (also app.py:134-142, without colour) places exactly one marker per row with coordinates, in row order, with that row's location, icon, colour and title. Rows without coordinates get none. |
| `Heatmap.LinkCount` | leaf_left.py:260-261 | A group's link count is the number of rows of that (Country, City) whose Link is filled. It is at most the number of rows. |
| `Heatmap.LinkCountBounds` | app.py:152-153 | A group's link count is at most the group's size. A group containing a row with a link counts at least one. |
| `Heatmap.Annotate` | leaf_left.py:260-262 | The merge pairs every row with its group's link count, taken over all rows, which is at most their number. |
| `Heatmap.Located` | leaf_left.py:264-267 | The `notna` selection yields no more points than merged rows. |
| `Heatmap.HeatData` | leaf_left.py:260-267 | The heat layer has one point per filtered row with coordinates. No weight exceeds the number of filtered rows. |
| `Heatmap.LocatedAnnotate` | leaf_left.py:262-267 | After the merge and the `notna` selection, one point remains per geocoded row, in order. Each point is weighted by the link count of its group, taken over all rows passed to the merge. |
| `Heatmap.HeatDataSpec` | app.py:152-161 | There is one heat point per geocoded filtered row, in row order. Its weight is the LinkCount of its (Country, City) over all filtered rows, and it is at least 1 when the row has a link. |

## Left out

- The Streamlit UI: widgets, tabs, columns, and the `st.cache_data` memoization. The geocoder and matcher are plain functions, so repeated lookups of one address agree. The number of network calls is not modelled.
- The Nominatim network call and the fuzzywuzzy scoring. They are the oracles `GeocodingService` and `Matcher`. `Top` models `process.extract`'s `limit` as keeping the first `limit` entries of the matcher's ranking. Ranking and tie-breaking are the matcher's business.
- Loading and output: `load_data`, `load_world`, `load_world_cities`, the remote GeoJSON, and the HTML table and CSV output.
- Rendering: the folium and plotly maps and GeoJson layer, `create_plotly_map`'s per-category traces, `create_popup_content`, the pie, bar and line charts, and `simple_map.py`'s heatmap, which sets every weight to 1.
- Floating point and time: a coordinate is an opaque pair of reals. A Date is an `int` that stands for the row's full timestamp, and the range bounds stand for midnight of the chosen days (leaf_left.py:203-204). The comparison is between full timestamps, so a row timed after 00:00 on the end day is excluded. Read as whole day numbers, the model matches the source only for Dates at midnight.
- Text.ContainsIgnoringCase, Filters.MatchesSearch: `str.contains(term, case=False)` treats the term as a regular expression and matches with `re.IGNORECASE`, which folds case by Unicode rules. The model matches a plain substring and folds only A-Z. It agrees with the source only when the term is ASCII without regex metacharacters and the searched fields are ASCII. Unicode folding maps some non-ASCII field characters onto ASCII letters: U+0130 and U+0131 onto 'i', U+017F onto 's', U+212A onto 'k'. So the source finds "izmir" in "İzmir", and the model does not.
- Missing cells (NaN) in Title, Type, Category, Country, City, Impact, Severity or Date: these fields are always present strings or integers. Only a missing Link is modelled, and it is what `count()` skips.
- `pandas.apply` computes every row's result before writing the two columns. The model writes row by row. The outcome is the same, because each row's resolution reads only that row.
- Resolver.PreprocessData, Resolver.PreprocessAndDrop: on a frame with no rows, pandas' `apply(..., axis=1)` returns a copy without a 'Coordinates' column. `result['Coordinates']` then raises KeyError (leaf_left.py:60, simple_map.py:56). The model instead returns normally, with an empty array and no kept rows.
- Heatmap.LocatedAnnotate, Heatmap.HeatDataSpec: the points are stated in the order of the filtered rows. That is `pd.merge(how='inner')` keeping the left frame's order, which pandas does from version 2.2. Earlier versions group the merged rows by the (Country, City) key. The heat layer itself does not depend on the order of its points.
