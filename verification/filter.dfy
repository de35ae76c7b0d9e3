/**
 The filter step: keep the rows whose `Year` lies in the selected range and,
 unless the selector is "Both", whose `Location_Type` is the selected one.
 Row order is preserved.
 */
module Filter {
  import opened Observations

  /** `a` is `b` with some rows removed, the rest in the same order. */
  ghost predicate IsSubsequence<T>(a: seq<T>, b: seq<T>)
    decreases |b|
  {
    if |a| == 0 then true
    else if |b| == 0 then false
    else (a[0] == b[0] && IsSubsequence(a[1..], b[1..])) || IsSubsequence(a, b[1..])
  }

  /** Every sequence is a subsequence of itself. */
  lemma {:induction false} SubsequenceRefl<T>(a: seq<T>)
    ensures IsSubsequence(a, a)
    decreases |a|
  {
    if |a| > 0 {
      SubsequenceRefl(a[1..]);
    }
  }

  /** Removing rows twice is removing rows once. */
  lemma {:induction false} SubsequenceTrans<T>(a: seq<T>, b: seq<T>, c: seq<T>)
    requires IsSubsequence(a, b) && IsSubsequence(b, c)
    ensures IsSubsequence(a, c)
    decreases |c|
  {
    if |a| == 0 {
    } else if a[0] == c[0] && IsSubsequence(b, c[1..]) && IsSubsequence(a[1..], c[1..]) {
    } else if IsSubsequence(b, c[1..]) && !(b[0] == c[0] && IsSubsequence(b[1..], c[1..])) {
      SubsequenceTrans(a, b, c[1..]);
    } else {
      // b[0] == c[0] and b[1..] is a subsequence of c[1..]
      assert b[0] == c[0] && IsSubsequence(b[1..], c[1..]);
      if a[0] == b[0] && IsSubsequence(a[1..], b[1..]) {
        SubsequenceTrans(a[1..], b[1..], c[1..]);
      } else {
        SubsequenceTrans(a, b[1..], c[1..]);
      }
    }
  }

  /** The rows of `data` that `keep` accepts, in their original order. */
  function Where(data: seq<Obs>, keep: Obs -> bool): (r: seq<Obs>)
    ensures forall o :: o in r ==> keep(o)
    ensures forall o :: multiset(r)[o] == if keep(o) then multiset(data)[o] else 0
    ensures IsSubsequence(r, data)
    ensures |r| <= |data|
  {
    if |data| == 0 then []
    else
      assert data == [data[0]] + data[1..];
      var rest := Where(data[1..], keep);
      if keep(data[0]) then
        var r := [data[0]] + rest;
        assert r[1..] == rest;
        r
      else
        rest
  }

  /** Filtering keeps everything when every row is accepted. */
  lemma {:induction false} WhereAll(data: seq<Obs>, keep: Obs -> bool)
    requires forall o :: o in data ==> keep(o)
    ensures Where(data, keep) == data
  {
    if |data| > 0 {
      assert data[0] in data;
      WhereAll(data[1..], keep);
      assert data == [data[0]] + data[1..];
    }
  }

  /** Filtering keeps nothing when no row is accepted. */
  lemma WhereNone(data: seq<Obs>, keep: Obs -> bool)
    requires forall o :: o in data ==> !keep(o)
    ensures Where(data, keep) == []
  {
  }

  /** Filtering a concatenation filters each part. */
  lemma {:induction false} WhereAppend(a: seq<Obs>, b: seq<Obs>, keep: Obs -> bool)
    ensures Where(a + b, keep) == Where(a, keep) + Where(b, keep)
  {
    if |a| > 0 {
      assert (a + b)[1..] == a[1..] + b;
      WhereAppend(a[1..], b, keep);
    } else {
      assert a + b == b;
    }
  }

  /** The year predicate of app.py: `lo <= Year <= hi`. */
  predicate InRange(o: Obs, range: YearRange)
  {
    range.lo <= o.year <= range.hi
  }

  /** The habitat predicate: "Both" accepts every row. */
  predicate Matches(o: Obs, sel: Selector)
  {
    sel.Both? || o.loc == sel.habitat
  }

  /** The year filter: sound, complete, order-preserving. */
  function FilterYears(data: seq<Obs>, range: YearRange): (r: seq<Obs>)
    ensures forall o :: o in r ==> range.lo <= o.year <= range.hi
    ensures forall o :: multiset(r)[o] == if range.lo <= o.year <= range.hi then multiset(data)[o] else 0
    ensures IsSubsequence(r, data)
  {
    Where(data, o => InRange(o, range))
  }

  /** The habitat filter, applied only when the selector is not "Both". */
  function FilterHabitat(data: seq<Obs>, sel: Selector): (r: seq<Obs>)
    ensures sel.Both? ==> r == data
    ensures sel.Only? ==> forall o :: o in r ==> o.loc == sel.habitat
    ensures sel.Only? ==> forall o :: multiset(r)[o] == if o.loc == sel.habitat then multiset(data)[o] else 0
    ensures IsSubsequence(r, data)
  {
    if sel.Both? then
      SubsequenceRefl(data);
      data
    else
      Where(data, o => Matches(o, sel))
  }

  /** Both filters, in the order app.py applies them. */
  function FilterData(data: seq<Obs>, range: YearRange, sel: Selector): (r: seq<Obs>)
    ensures forall o :: o in r ==> InRange(o, range) && Matches(o, sel)
    ensures forall o :: multiset(r)[o] == if InRange(o, range) && Matches(o, sel) then multiset(data)[o] else 0
    ensures IsSubsequence(r, data)
  {
    var years := FilterYears(data, range);
    var r := FilterHabitat(years, sel);
    SubsequenceTrans(r, years, data);
    r
  }

  /** The two filters can be applied in either order. */
  lemma FilterCommutes(data: seq<Obs>, range: YearRange, sel: Selector)
    ensures FilterData(data, range, sel) == FilterYears(FilterHabitat(data, sel), range)
  {
    WhereCommutes(data, o => InRange(o, range), o => Matches(o, sel));
  }

  /** Two filters applied one after the other commute. */
  lemma {:induction false} WhereCommutes(data: seq<Obs>, p: Obs -> bool, q: Obs -> bool)
    ensures Where(Where(data, p), q) == Where(Where(data, q), p)
  {
    if |data| > 0 {
      WhereCommutes(data[1..], p, q);
    }
  }

  /** Filtering again with the same selection changes nothing. */
  lemma FilterIdempotent(data: seq<Obs>, range: YearRange, sel: Selector)
    ensures FilterData(FilterData(data, range, sel), range, sel) == FilterData(data, range, sel)
  {
    var once := FilterData(data, range, sel);
    WhereAll(once, o => InRange(o, range));
    if sel.Only? {
      WhereAll(once, o => Matches(o, sel));
    }
  }

  /** The habitat filter distributes over concatenation. */
  lemma FilterHabitatAppend(a: seq<Obs>, b: seq<Obs>, sel: Selector)
    ensures FilterHabitat(a + b, sel) == FilterHabitat(a, sel) + FilterHabitat(b, sel)
  {
    if sel.Only? {
      WhereAppend(a, b, o => Matches(o, sel));
    }
  }

  /** Selecting the habitat every row has keeps them all; selecting one no
      row has keeps none. */
  lemma FilterHabitatUniform(data: seq<Obs>, h: Habitat, sel: Selector)
    requires sel.Only?
    requires forall o :: o in data ==> o.loc == h
    ensures FilterHabitat(data, sel) == if sel.habitat == h then data else []
  {
    if sel.habitat == h {
      WhereAll(data, o => Matches(o, sel));
    } else {
      WhereNone(data, o => Matches(o, sel));
    }
  }

  /** A range covering every row's year, with selector "Both", keeps the
      whole table. */
  lemma FilterKeepsAll(data: seq<Obs>, range: YearRange)
    requires forall o :: o in data ==> range.lo <= o.year <= range.hi
    ensures FilterData(data, range, Both) == data
  {
    WhereAll(data, o => InRange(o, range));
  }
}
