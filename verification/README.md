# Bird observation dashboard: the data pipeline

This project models the data pipeline of a one-page dashboard of bird
observations. The dashboard loads two spreadsheets, one of forest sites and
one of grassland sites. It tags each row with its habitat (`Location_Type`)
and concatenates the two tables. The user picks a year range and a habitat
("Both", "Forest" or "Grassland"), and the page shows four things:

- the filtered rows;
- the ten most observed species (`Common_Name` counts, largest first);
- a temperature/humidity scatter plot, drawn only when both columns exist (left out, see below);
- the number of observations per `(Year, Location_Type)` pair.

The pipeline re-runs from the top on every interaction. It is modelled as
pure functions over `seq<Obs>`, one module per step:

- `Observations`: the records (`Row`, `Obs`, `Habitat`, `Selector`, `YearRange`) and the columns the pipeline reads.
- `Merge`: tagging and concatenation.
- `Years`: the sorted distinct years, their minimum and maximum, and the range the filter uses.
- `Filter`: the year filter and the habitat filter, built on one order-preserving `Where`.
- `Grouping`: the counts of `groupby(column).size()` for any key column, with its specification `IsGrouping`. pandas returns the groups sorted by key; `GroupSize` leaves the group order open, and `Aggregate.TimeSeries` restores the key order with `SortByKey`. The species table re-sorts by count anyway.
- `Aggregate`: the top-ten species table and the time-series table.
- `Dashboard`: the whole run, from the two spreadsheets and the two controls to the three computed tables.

The top-ten table is specified relationally by `Aggregate.IsTopSpecies`.
pandas' `sort_values` does not use a stable sort by default, so the order of
species with equal counts is not fixed. `SortByCount` picks one order. Every
property stated about the result holds whatever order is picked.

## Model

| member | source | states |
|---|---|---|
| Merge.Tag | app.py:13-14 | every row keeps its name and year and gets `Location_Type` h; the number of rows is unchanged |
| Merge.Merge | app.py:13-15 | the merged table has as many rows as both spreadsheets; row i is forest row i tagged Forest for i below the forest length, and after that the grassland rows follow in order, tagged Grassland |
| Merge.MergeSplits | app.py:13-15 | the merged table splits back into the two tagged blocks, and removing the tag from each block gives back the two spreadsheets unchanged |
| Merge.UntagTag | app.py:13-14 | adding the `Location_Type` column loses nothing: dropping it again gives back the original rows |
| Merge.MergeLocations | app.py:13-15 | a merged row has location Forest exactly when it comes from the forest block |
| Years.DistinctYears | app.py:19-21 | `unique()` followed by `sort()`: strictly increasing, holding exactly the years that occur in the column |
| Years.MinYear | app.py:23 | the minimum year is the year of some row and no row has an earlier year |
| Years.MaxYear | app.py:23 | the maximum year is the year of some row and no row has a later year |
| Years.SelectRange | app.py:25-34 | the range always lies within [min, max]; with a single distinct year it is (year, year); otherwise it is the slider choice, or (min, max) before the user moves the slider |
| Years.SingleYearRange | app.py:25-27 | when every row has year y, the range is (y, y) whatever the slider would say |
| Dashboard.DefaultRangeKeepsAll | app.py:29-40 | the default range (min, max) with selector "Both" keeps every row |
| Filter.Where | app.py:37-43 | a boolean mask keeps exactly the accepted rows: every kept row is accepted, every accepted row keeps its multiplicity, rejected rows are gone, and the result is an order-preserving subsequence |
| Filter.FilterYears | app.py:37-40 | every kept row has lo <= Year <= hi; every row in the range is kept with its multiplicity; the order is preserved |
| Filter.FilterHabitat | app.py:42-43 | "Both" leaves the table unchanged; otherwise every kept row has the selected location and every row with that location is kept, in order |
| Filter.FilterData | app.py:37-43 | the filtered table holds exactly the rows meeting both the year predicate and the habitat predicate, each with its multiplicity, in their original order |
| Filter.FilterCommutes | app.py:37-43 | applying the habitat filter before the year filter gives the same table |
| Filter.FilterIdempotent | app.py:37-43 | filtering the filtered table again with the same selection changes nothing |
| Filter.FilterKeepsAll | app.py:37-43 | a range covering every row's year, with "Both", keeps the whole table |
| Filter.FilterHabitatAppend | app.py:42-43 | the habitat filter on a concatenation is the concatenation of the filtered parts |
| Filter.FilterHabitatUniform | app.py:42-43 | on rows that all have location h, selecting h keeps them all and selecting the other habitat keeps none |
| Grouping.Count | app.py:53-54 | the size of a group is the multiplicity of its key in the column |
| Grouping.Bump | app.py:53-54 | counting one more row raises that key's count by one and leaves every other key's count alone; the total rises by one and the keys stay distinct |
| Grouping.GroupSize | app.py:53-55 | one entry per distinct key of the column, with distinct keys and positive counts, each key's count equal to its number of rows, and the counts adding up to the number of rows |
| Grouping.GroupSizeIsGrouping | app.py:52-55 | the computed grouping meets the grouping specification: every entry is a key of the column with its row count, and every key of the column has an entry |
| Grouping.GroupSizeSingleKey | app.py:93-97 | a column with a single key k yields the single group (k, number of rows) |
| Grouping.GroupSizeEmpty | app.py:52-55 | the grouping is empty exactly when the column is |
| Aggregate.InsertByCount | app.py:56 | inserting into a list sorted by descending count keeps it sorted and adds exactly that entry |
| Aggregate.SortByCount | app.py:56 | the sorted table is a permutation of the groups, in non-increasing order of count |
| Aggregate.PermutationDistinct | app.py:56 | sorting cannot create a duplicate species |
| Aggregate.TopOfSortedGrouping | app.py:52-58 | the first ten entries of any count-sorted grouping meet the top-species specification, whatever the order of ties |
| Aggregate.TopSpecies | app.py:52-58 | at most ten species, distinct, non-increasing by count; each count is that species' number of filtered rows; no omitted species has more rows than any shown one; fewer than ten shown means every species is shown; empty exactly when the filtered table is |
| Aggregate.InsertByKey | app.py:94 | inserting a new key into a grouping sorted by (Year, Location_Type) keeps it sorted, adds exactly that entry and raises the total by its count |
| Aggregate.SortByKey | app.py:94 | sorting a grouping by key gives a permutation with strictly increasing (Year, Location_Type) keys and the same total |
| Aggregate.PermutedGrouping | app.py:93-97 | reordering a grouping keeps it a grouping of the same column |
| Aggregate.TimeSeries | app.py:93-97 | one entry per (Year, Location_Type) pair present, each with its number of rows; keys strictly increasing by year, Forest before Grassland within a year, as pandas sorts groupby keys; the counts add up to the number of filtered rows; empty exactly when the filtered table is |
| Aggregate.SinglePointSeries | app.py:93-97 | when every row has year y and location h, the time series is the single point ((y, h), number of rows) |
| Dashboard.Run | app.py:13-97 | the shown table is an order-preserving subsequence of the merged table holding exactly the merged rows inside the selected range (slider choice, default or single year) and matching the selector, each with its multiplicity; every shown row lies within [min, max]; the top-species table meets its specification on it; the time series is its grouping by (Year, Location_Type), sorted by key, with counts summing to its length; both tables are empty when nothing is shown |
| Dashboard.FirstLoadShowsEverything | app.py:18-43 | with "Both" and the slider untouched, the shown table is the whole merged table |
| Dashboard.HabitatShowsItsSpreadsheet | app.py:13-43 | with the full range, selecting Forest shows exactly the forest spreadsheet tagged Forest, and Grassland exactly the grassland one, in file order |
| Dashboard.SingleYearKeepsAllYears | app.py:23-43 | when the spreadsheets hold a single year, the year filter removes nothing and the shown table is the habitat filter of the merged table |
| Dashboard.OneYearOneHabitatSeries | app.py:37-97 | selecting habitat h and range (y, y) shows only rows of year y and habitat h, and the time series is the single point ((y, h), rows shown) unless nothing is shown |

## Left out

- Loading (app.py:5-11): `pd.read_excel` of two fixed files and the `@st.cache_data` memoisation are file I/O and framework caching. The model takes the two spreadsheets as parameters of `Dashboard.Run`.
- Streamlit widgets and page output (titles, `st.dataframe`, `st.sidebar.write`, `st.plotly_chart`) are rendering. The selectbox becomes the `Selector` parameter. The slider becomes an `Option<YearRange>` parameter (`None` until the user moves it). The slider's bounds `min <= lo <= hi <= max` become a precondition, because the widget enforces them.
- The Plotly charts (app.py:60-67, 75-89, 99-107) are rendering only and compute nothing.
- The environmental section (app.py:69-89) is left out. Its column-presence check and the `astype(int)` coercion of `Initial_Three_Min_Cnt` are pandas dynamic-schema and float/NaN behaviour, and the scatter plot has no computed result. For the same reason `Row` carries only `Common_Name` and `Year`; the other spreadsheet columns are not modelled.
- Missing or NaN years are not modelled; `Year` is a plain `int`. An empty merged table makes `min(years)` fail at app.py:23. `Years.MinYear`, `Years.MaxYear`, `Years.SelectRange` and `Dashboard.Run` therefore require a non-empty merged table.
- Missing species names are not modelled; `Common_Name` is a plain string. `groupby("Common_Name")` at app.py:53 drops rows whose name is missing (pandas' default `dropna=True`), so such rows count towards no species there; the model has no such rows.
- Dashboard.Run: the failure of `astype(int)` at app.py:73 is not modelled. In the source it raises before the time series at app.py:93-97 is computed; the model always returns a time series, because the environmental section is left out.
- Aggregate.TopSpecies: the model does not prove that two results with different tie orders agree position by position on their counts. It only proves that each of them meets `IsTopSpecies`.
- Determinism across re-runs is not stated as a lemma. Every step is a pure function, so equal inputs give equal outputs by construction.
