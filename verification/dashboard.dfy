/**
 One run of the dashboard script: merge the two spreadsheets, derive the
 year range, filter, and compute the two aggregate tables the charts show.
 Every user interaction re-runs the whole pipeline on the same inputs.
 */
module Dashboard {
  import opened Observations
  import Merge
  import Years
  import Filter
  import Aggregate
  import Grouping

  /** What the page shows: the filtered table, the top-species table and
      the time-series table. */
  datatype View = View(
    filtered: seq<Obs>,
    topSpecies: seq<(string, nat)>,
    timeSeries: seq<(YearLoc, nat)>)

  /** The whole pipeline, from the two spreadsheets and the two sidebar
      controls to the three tables. */
  function Run(forest: seq<Row>, grassland: seq<Row>, sel: Selector, choice: Option<YearRange>): (v: View)
    requires |forest| + |grassland| > 0
    requires choice.Some? ==> Years.WithinSlider(Merge.Merge(forest, grassland), choice.value)
    ensures Filter.IsSubsequence(v.filtered, Merge.Merge(forest, grassland))
    ensures var merged := Merge.Merge(forest, grassland);
            var range := Years.SelectRange(merged, choice);
            forall o :: multiset(v.filtered)[o] ==
              if Filter.InRange(o, range) && Filter.Matches(o, sel) then multiset(merged)[o] else 0
    ensures forall o :: o in v.filtered ==> Filter.Matches(o, sel)
    ensures forall o :: o in v.filtered ==>
              Years.MinYear(Merge.Merge(forest, grassland)) <= o.year <= Years.MaxYear(Merge.Merge(forest, grassland))
    ensures Aggregate.IsTopSpecies(NameColumn(v.filtered), v.topSpecies)
    ensures Grouping.IsGrouping(YearLocColumn(v.filtered), v.timeSeries)
    ensures Aggregate.SortedByKey(v.timeSeries)
    ensures Grouping.Sum(v.timeSeries) == |v.filtered|
    ensures |v.filtered| == 0 ==> v.topSpecies == [] && v.timeSeries == []
  {
    var merged := Merge.Merge(forest, grassland);
    var range := Years.SelectRange(merged, choice);
    var filtered := Filter.FilterData(merged, range, sel);
    View(filtered, Aggregate.TopSpecies(filtered), Aggregate.TimeSeries(filtered))
  }

  /** The default range `(min, max)` keeps every row of the table. */
  lemma DefaultRangeKeepsAll(data: seq<Obs>)
    requires |data| > 0
    ensures Filter.FilterData(data, Years.SelectRange(data, None), Both) == data
  {
    Filter.FilterKeepsAll(data, Years.SelectRange(data, None));
  }

  /** On first load (selector "Both", slider untouched) the table shows
      every merged row. */
  lemma FirstLoadShowsEverything(forest: seq<Row>, grassland: seq<Row>)
    requires |forest| + |grassland| > 0
    ensures Run(forest, grassland, Both, None).filtered == Merge.Merge(forest, grassland)
  {
    DefaultRangeKeepsAll(Merge.Merge(forest, grassland));
  }

  /** With the full year range, selecting one habitat shows exactly that
      habitat's spreadsheet, in file order. */
  lemma HabitatShowsItsSpreadsheet(forest: seq<Row>, grassland: seq<Row>, h: Habitat)
    requires |forest| + |grassland| > 0
    ensures Run(forest, grassland, Only(h), None).filtered ==
            if h == Forest then Merge.Tag(forest, Forest) else Merge.Tag(grassland, Grassland)
  {
    var merged := Merge.Merge(forest, grassland);
    DefaultRangeKeepsAll(merged);
    assert Filter.FilterYears(merged, Years.SelectRange(merged, None)) == merged;
    var ft, gt := Merge.Tag(forest, Forest), Merge.Tag(grassland, Grassland);
    Filter.FilterHabitatAppend(ft, gt, Only(h));
    Filter.FilterHabitatUniform(ft, Forest, Only(h));
    Filter.FilterHabitatUniform(gt, Grassland, Only(h));
    if h == Forest {
      assert ft + [] == ft;
    } else {
      assert [] + gt == gt;
    }
  }

  /** When the spreadsheets hold a single year, the year filter removes
      nothing: the table is the merged data after the habitat filter alone. */
  lemma SingleYearKeepsAllYears(forest: seq<Row>, grassland: seq<Row>, y: int, sel: Selector, choice: Option<YearRange>)
    requires |forest| + |grassland| > 0
    requires forall o :: o in Merge.Merge(forest, grassland) ==> o.year == y
    requires choice.Some? ==> Years.WithinSlider(Merge.Merge(forest, grassland), choice.value)
    ensures Run(forest, grassland, sel, choice).filtered == Filter.FilterHabitat(Merge.Merge(forest, grassland), sel)
  {
    var merged := Merge.Merge(forest, grassland);
    Years.SingleYearRange(merged, y, choice);
    Filter.WhereAll(merged, (o: Obs) => Filter.InRange(o, YearRange(y, y)));
  }

  /** Selecting one habitat and one year gives a time series with a single
      point, `((year, habitat), rows shown)`, unless nothing is shown. */
  lemma OneYearOneHabitatSeries(forest: seq<Row>, grassland: seq<Row>, h: Habitat, y: int)
    requires |forest| + |grassland| > 0
    requires Years.WithinSlider(Merge.Merge(forest, grassland), YearRange(y, y))
    ensures var v := Run(forest, grassland, Only(h), Some(YearRange(y, y)));
            && (forall o :: o in v.filtered ==> o.year == y && o.loc == h)
            && (|v.filtered| > 0 ==> v.timeSeries == [((y, h), |v.filtered|)])
  {
    var merged := Merge.Merge(forest, grassland);
    Years.ChosenRange(merged, YearRange(y, y));
    ShownTables(forest, grassland, Only(h), Some(YearRange(y, y)));
    OnePoint(Filter.FilterData(merged, YearRange(y, y), Only(h)), y, h);
  }

  /** Rows that all pass the range `(y, y)` and the selector `Only(h)` have
      year `y` and habitat `h`, and their time series is a single point. */
  lemma OnePoint(filtered: seq<Obs>, y: int, h: Habitat)
    requires forall o :: o in filtered ==> Filter.InRange(o, YearRange(y, y)) && Filter.Matches(o, Only(h))
    ensures forall o :: o in filtered ==> o.year == y && o.loc == h
    ensures |filtered| > 0 ==> Aggregate.TimeSeries(filtered) == [((y, h), |filtered|)]
  {
    if |filtered| > 0 {
      Aggregate.SinglePointSeries(filtered, y, h);
    }
  }

  /** The three tables are the filter of the merged table and the two
      aggregations of that. */
  lemma ShownTables(forest: seq<Row>, grassland: seq<Row>, sel: Selector, choice: Option<YearRange>)
    requires |forest| + |grassland| > 0
    requires choice.Some? ==> Years.WithinSlider(Merge.Merge(forest, grassland), choice.value)
    ensures var merged := Merge.Merge(forest, grassland);
            var filtered := Filter.FilterData(merged, Years.SelectRange(merged, choice), sel);
            Run(forest, grassland, sel, choice) == View(filtered, Aggregate.TopSpecies(filtered), Aggregate.TimeSeries(filtered))
  {
  }
}
