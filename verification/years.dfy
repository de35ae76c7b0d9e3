/**
 The year range: the distinct years of the merged table, sorted; their
 minimum and maximum bound the sidebar slider; a table with a single year
 fixes the range to that year.
 */
module Years {
  import opened Observations

  /** Pairwise strictly increasing: sorted and without repeats. */
  ghost predicate StrictlyIncreasing(ys: seq<int>)
  {
    forall i, j :: 0 <= i < j < |ys| ==> ys[i] < ys[j]
  }

  /** A year below every year of a strictly increasing list can go in front. */
  lemma ConsStrict(a: int, t: seq<int>)
    requires StrictlyIncreasing(t)
    requires forall x :: x in t ==> a < x
    ensures StrictlyIncreasing([a] + t)
  {
    forall i, j | 0 <= i < j < |[a] + t| ensures ([a] + t)[i] < ([a] + t)[j] {
      assert ([a] + t)[j] == t[j - 1];
      if i > 0 {
        assert ([a] + t)[i] == t[i - 1];
      } else {
        assert t[j - 1] in t;
      }
    }
  }

  /** Puts `y` in its place in a sorted list of distinct years, unless it is
      already there. */
  function InsertYear(ys: seq<int>, y: int): (r: seq<int>)
    requires StrictlyIncreasing(ys)
    ensures StrictlyIncreasing(r)
    ensures forall x :: x in r <==> x in ys || x == y
  {
    if |ys| == 0 then [y]
    else if y < ys[0] then
      assert forall x :: x in ys ==> y < x by {
        forall x | x in ys ensures y < x {
          var k :| 0 <= k < |ys| && ys[k] == x;
          assert k == 0 || ys[0] < ys[k];
        }
      }
      ConsStrict(y, ys);
      [y] + ys
    else if y == ys[0] then ys
    else
      assert StrictlyIncreasing(ys[1..]);
      var t := InsertYear(ys[1..], y);
      assert forall x :: x in t ==> ys[0] < x by {
        forall x | x in t ensures ys[0] < x {
          if x != y {
            var k :| 0 <= k < |ys[1..]| && ys[1..][k] == x;
            assert ys[k + 1] == x;
          }
        }
      }
      ConsStrict(ys[0], t);
      assert ys == [ys[0]] + ys[1..];
      [ys[0]] + t
  }

  /** `years = merged_data["Year"].unique(); years.sort()`. */
  function DistinctYears(col: seq<int>): (ys: seq<int>)
    ensures StrictlyIncreasing(ys)
    ensures forall y :: y in ys <==> y in col
  {
    if |col| == 0 then []
    else
      assert col == [col[0]] + col[1..];
      InsertYear(DistinctYears(col[1..]), col[0])
  }

  /** `min(years)`: the earliest year of a non-empty table. */
  function MinYear(data: seq<Obs>): (m: int)
    requires |data| > 0
    ensures exists o :: o in data && o.year == m
    ensures forall o :: o in data ==> m <= o.year
  {
    var col := YearColumn(data);
    var ys := DistinctYears(col);
    assert data[0].year == col[0];
    assert forall o :: o in data ==> o.year in col by {
      forall o | o in data ensures o.year in col {
        var i :| 0 <= i < |data| && data[i] == o;
        assert col[i] == o.year;
      }
    }
    assert ys[0] in col;
    ys[0]
  }

  /** `max(years)`: the latest year of a non-empty table. */
  function MaxYear(data: seq<Obs>): (m: int)
    requires |data| > 0
    ensures exists o :: o in data && o.year == m
    ensures forall o :: o in data ==> o.year <= m
  {
    var col := YearColumn(data);
    var ys := DistinctYears(col);
    assert data[0].year == col[0];
    assert forall o :: o in data ==> o.year in col by {
      forall o | o in data ensures o.year in col {
        var i :| 0 <= i < |data| && data[i] == o;
        assert col[i] == o.year;
      }
    }
    assert ys[|ys| - 1] in col;
    ys[|ys| - 1]
  }

  /** The bounds the slider puts on any range the user picks. */
  predicate WithinSlider(data: seq<Obs>, range: YearRange)
    requires |data| > 0
  {
    MinYear(data) <= range.lo <= range.hi <= MaxYear(data)
  }

  /** The range the filter uses. With a single year it is `(year, year)`.
      Otherwise it is the user's slider choice, or `(min, max)` before the
      user has moved the slider. */
  function SelectRange(data: seq<Obs>, choice: Option<YearRange>): (r: YearRange)
    requires |data| > 0
    requires choice.Some? ==> WithinSlider(data, choice.value)
    ensures WithinSlider(data, r)
    ensures MinYear(data) == MaxYear(data) ==> r.lo == r.hi == MinYear(data)
    ensures MinYear(data) < MaxYear(data) ==> r == choice.GetOr(YearRange(MinYear(data), MaxYear(data)))
  {
    var lo, hi := MinYear(data), MaxYear(data);
    if lo == hi then YearRange(lo, lo)
    else if choice.Some? then choice.value
    else YearRange(lo, hi)
  }

  /** A choice the slider admits is the range used. */
  lemma ChosenRange(data: seq<Obs>, range: YearRange)
    requires |data| > 0
    requires WithinSlider(data, range)
    ensures SelectRange(data, Some(range)) == range
  {
  }

  /** A table whose rows all carry year `y` gets the fixed range `(y, y)`,
      whatever the slider would have said. */
  lemma SingleYearRange(data: seq<Obs>, y: int, choice: Option<YearRange>)
    requires |data| > 0
    requires forall o :: o in data ==> o.year == y
    requires choice.Some? ==> WithinSlider(data, choice.value)
    ensures SelectRange(data, choice) == YearRange(y, y)
  {
  }
}
