/**
 The two aggregations over the filtered rows: the ten most observed species,
 and the number of observations per `(Year, Location_Type)` pair.
 */
module Aggregate {
  import opened Observations
  import opened Grouping

  /** How many species the bar chart shows: `.head(10)`. */
  const TopN: nat := 10

  /** Counts never go up along the sequence. */
  ghost predicate NonIncreasing<K>(s: seq<(K, nat)>)
  {
    forall i, j :: 0 <= i < j < |s| ==> s[i].1 >= s[j].1
  }

  /** An entry whose count bounds every count of a sorted sequence can go
      in front of it. */
  lemma ConsNonIncreasing<K>(x: (K, nat), t: seq<(K, nat)>)
    requires NonIncreasing(t)
    requires forall j :: 0 <= j < |t| ==> t[j].1 <= x.1
    ensures NonIncreasing([x] + t)
  {
  }

  /** After inserting `e` (smaller than the head) into the tail of a sorted
      sequence, the head still bounds every count. */
  lemma HeadBound<K>(s: seq<(K, nat)>, t: seq<(K, nat)>, e: (K, nat))
    requires |s| > 0 && NonIncreasing(s) && e.1 < s[0].1
    requires multiset(t) == multiset(s[1..]) + multiset{e}
    ensures forall j :: 0 <= j < |t| ==> t[j].1 <= s[0].1
  {
    forall j | 0 <= j < |t| ensures t[j].1 <= s[0].1 {
      assert t[j] in multiset(t);
      if t[j] != e {
        assert t[j] in multiset(s[1..]);
        var k :| 0 <= k < |s[1..]| && s[1..][k] == t[j];
        assert s[k + 1] == t[j];
      }
    }
  }

  /** Puts `e` before the first entry whose count is not larger than its own. */
  function InsertByCount<K>(s: seq<(K, nat)>, e: (K, nat)): (r: seq<(K, nat)>)
    requires NonIncreasing(s)
    ensures NonIncreasing(r)
    ensures multiset(r) == multiset(s) + multiset{e}
  {
    if |s| == 0 then [e]
    else if s[0].1 <= e.1 then
      ConsNonIncreasing(e, s);
      [e] + s
    else
      assert NonIncreasing(s[1..]);
      var t := InsertByCount(s[1..], e);
      assert s == [s[0]] + s[1..];
      HeadBound(s, t, e);
      ConsNonIncreasing(s[0], t);
      [s[0]] + t
  }

  /** `sort_values(by="Count", ascending=False)`: a permutation of the
      groups, in non-increasing order of count. Ties are left in an order
      of the model's choosing, since pandas does not fix one. */
  function SortByCount<K>(g: seq<(K, nat)>): (r: seq<(K, nat)>)
    ensures NonIncreasing(r)
    ensures multiset(r) == multiset(g)
  {
    if |g| == 0 then []
    else
      assert g == [g[0]] + g[1..];
      InsertByCount(SortByCount(g[1..]), g[0])
  }

  /** A permutation keeps the set of entries. */
  lemma SameEntries<K>(a: seq<(K, nat)>, b: seq<(K, nat)>)
    requires multiset(a) == multiset(b)
    ensures forall e :: e in a <==> e in b
    ensures KeySet(a) == KeySet(b)
  {
    assert forall e :: e in a <==> e in multiset(a);
    assert forall e :: e in b <==> e in multiset(b);
  }

  /** A permutation keeps the keys distinct. */
  lemma PermutationDistinct<K>(a: seq<(K, nat)>, b: seq<(K, nat)>)
    requires multiset(a) == multiset(b)
    requires DistinctKeys(a)
    ensures DistinctKeys(b)
  {
    SameEntries(a, b);
    forall i, j | 0 <= i < j < |b|
      ensures b[i].0 != b[j].0
    {
      if b[i] == b[j] {
        Twice(b, i, j);
        DistinctCountsOne(a, b[i]);
        assert false;
      } else {
        // Witnesses in `a` for the two entries, so that `DistinctKeys(a)` applies.
        assert b[i] in a && b[j] in a;
        var i' :| 0 <= i' < |a| && a[i'] == b[i];
        var j' :| 0 <= j' < |a| && a[j'] == b[j];
      }
    }
  }

  /** An entry found at two positions occurs at least twice. */
  lemma Twice<T>(b: seq<T>, i: nat, j: nat)
    requires i < j < |b| && b[i] == b[j]
    ensures multiset(b)[b[i]] >= 2
  {
    assert b == b[..i] + [b[i]] + b[i + 1..j] + [b[j]] + b[j + 1..];
  }

  /** In a sequence with distinct keys, no entry occurs twice. */
  lemma {:induction false} DistinctCountsOne<K>(a: seq<(K, nat)>, e: (K, nat))
    requires DistinctKeys(a)
    ensures multiset(a)[e] <= 1
  {
    if |a| > 0 {
      DistinctKeysCons(a);
      DistinctCountsOne(a[1..], e);
      assert a == [a[0]] + a[1..];
      if a[0] == e {
        assert e !in a[1..];
      }
    }
  }

  /** What the top-species table promises, whatever the order of ties:
      at most ten distinct species of the filtered rows, in non-increasing
      order of count, each with its number of rows; no species left out has
      more rows than one that is shown; and when fewer than ten are shown,
      every species is shown. */
  ghost predicate IsTopSpecies(names: seq<string>, r: seq<(string, nat)>)
  {
    && |r| <= TopN
    && DistinctKeys(r)
    && NonIncreasing(r)
    && (forall e :: e in r ==> e.0 in names && e.1 == Count(names, e.0))
    && (forall n, e :: n in names && n !in KeySet(r) && e in r ==> Count(names, n) <= e.1)
    && (|r| < TopN ==> forall n :: n in names ==> n in KeySet(r))
  }

  /** A key missing from a prefix of a sorted sequence has no larger count
      than any entry of the prefix. */
  lemma ExcludedNotMore<K>(s: seq<(K, nat)>, m: nat, f: (K, nat))
    requires NonIncreasing(s) && m <= |s|
    requires f in s && f.0 !in KeySet(s[..m])
    ensures forall e :: e in s[..m] ==> f.1 <= e.1
  {
  }

  /** A prefix of a sorted sequence with distinct keys is one too. */
  lemma PrefixShape<K>(s: seq<(K, nat)>, m: nat)
    requires DistinctKeys(s) && NonIncreasing(s) && m <= |s|
    ensures DistinctKeys(s[..m]) && NonIncreasing(s[..m])
    ensures forall e :: e in s[..m] ==> e in s
  {
  }

  /** The first `TopN` entries of a sorted grouping meet `IsTopSpecies`. */
  lemma TopOfSortedGrouping(names: seq<string>, g: seq<(string, nat)>, s: seq<(string, nat)>)
    requires IsGrouping(names, g)
    requires multiset(s) == multiset(g) && NonIncreasing(s)
    ensures IsTopSpecies(names, s[..if |s| < TopN then |s| else TopN])
  {
    var m := if |s| < TopN then |s| else TopN;
    var r := s[..m];
    SameEntries(g, s);
    PermutationDistinct(g, s);
    PrefixShape(s, m);
    forall e | e in r ensures e.0 in names && e.1 == Count(names, e.0) {
      assert e in g;
    }
    forall n, e | n in names && n !in KeySet(r) && e in r
      ensures Count(names, n) <= e.1
    {
      assert n in KeySet(s);
      var f :| f in s && f.0 == n;
      assert f in g;
      ExcludedNotMore(s, m, f);
    }
    assert |r| < TopN ==> r == s;
  }

  /** `filtered_data.groupby("Common_Name").size()`, sorted by count,
      first ten rows. */
  function TopSpecies(data: seq<Obs>): (r: seq<(string, nat)>)
    ensures IsTopSpecies(NameColumn(data), r)
    ensures |data| == 0 <==> r == []
  {
    var names := NameColumn(data);
    var g := GroupSize(names);
    GroupSizeIsGrouping(names);
    GroupSizeEmpty(names);
    var s := SortByCount(g);
    TopOfSortedGrouping(names, g, s);
    assert |s| == |g| by {
      assert |s| == |multiset(s)| && |g| == |multiset(g)|;
    }
    s[..if |s| < TopN then |s| else TopN]
  }

  /** The order pandas gives `groupby` keys: by `Year`, then by
      `Location_Type` as a string, so "Forest" before "Grassland". */
  predicate KeyBefore(a: YearLoc, b: YearLoc)
  {
    a.0 < b.0 || (a.0 == b.0 && a.1 == Forest && b.1 == Grassland)
  }

  /** Keys strictly increasing in `KeyBefore` order. */
  ghost predicate SortedByKey(s: seq<(YearLoc, nat)>)
  {
    forall i, j :: 0 <= i < j < |s| ==> KeyBefore(s[i].0, s[j].0)
  }

  /** An entry whose key comes before every key of a sorted sequence can go
      in front of it. */
  lemma ConsSortedByKey(x: (YearLoc, nat), t: seq<(YearLoc, nat)>)
    requires SortedByKey(t)
    requires forall j :: 0 <= j < |t| ==> KeyBefore(x.0, t[j].0)
    ensures SortedByKey([x] + t)
  {
  }

  /** A key before the head of a key-sorted sequence is before all of it. */
  lemma BeforeHead(s: seq<(YearLoc, nat)>, k: YearLoc)
    requires SortedByKey(s) && |s| > 0 && KeyBefore(k, s[0].0)
    ensures forall j :: 0 <= j < |s| ==> KeyBefore(k, s[j].0)
  {
  }

  /** After inserting `e` (after the head) into the tail of a key-sorted
      sequence, the head is still before every key. */
  lemma HeadKeyBound(s: seq<(YearLoc, nat)>, t: seq<(YearLoc, nat)>, e: (YearLoc, nat))
    requires |s| > 0 && SortedByKey(s) && KeyBefore(s[0].0, e.0)
    requires multiset(t) == multiset(s[1..]) + multiset{e}
    ensures forall j :: 0 <= j < |t| ==> KeyBefore(s[0].0, t[j].0)
  {
    forall j | 0 <= j < |t| ensures KeyBefore(s[0].0, t[j].0) {
      assert t[j] in multiset(t);
      if t[j] != e {
        assert t[j] in multiset(s[1..]);
        var k :| 0 <= k < |s[1..]| && s[1..][k] == t[j];
        assert s[k + 1] == t[j];
      }
    }
  }

  /** The total of a grouping with one more entry in front. */
  lemma SumCons<K>(x: (K, nat), t: seq<(K, nat)>)
    ensures Sum([x] + t) == x.1 + Sum(t)
  {
  }

  /** A new key that is not before the head comes after it, and is new to
      the sorted tail. */
  lemma InsertPastHead(s: seq<(YearLoc, nat)>, e: (YearLoc, nat))
    requires SortedByKey(s) && |s| > 0
    requires e.0 !in KeySet(s) && !KeyBefore(e.0, s[0].0)
    ensures KeyBefore(s[0].0, e.0)
    ensures SortedByKey(s[1..]) && e.0 !in KeySet(s[1..])
    ensures s == [s[0]] + s[1..]
  {
  }

  /** Puts `e`, whose key is new, in its place in a key-sorted grouping. */
  function InsertByKey(s: seq<(YearLoc, nat)>, e: (YearLoc, nat)): (r: seq<(YearLoc, nat)>)
    requires SortedByKey(s)
    requires e.0 !in KeySet(s)
    ensures SortedByKey(r)
    ensures multiset(r) == multiset(s) + multiset{e}
    ensures Sum(r) == Sum(s) + e.1
  {
    if |s| == 0 then [e]
    else if KeyBefore(e.0, s[0].0) then
      BeforeHead(s, e.0);
      ConsSortedByKey(e, s);
      SumCons(e, s);
      [e] + s
    else
      InsertPastHead(s, e);
      var t := InsertByKey(s[1..], e);
      HeadKeyBound(s, t, e);
      ConsSortedByKey(s[0], t);
      SumCons(s[0], t);
      SumCons(s[0], s[1..]);
      [s[0]] + t
  }

  /** Sorts a grouping with distinct keys by key: a permutation with the
      same total. */
  function SortByKey(g: seq<(YearLoc, nat)>): (r: seq<(YearLoc, nat)>)
    requires DistinctKeys(g)
    ensures SortedByKey(r)
    ensures multiset(r) == multiset(g)
    ensures Sum(r) == Sum(g)
  {
    if |g| == 0 then []
    else
      DistinctKeysCons(g);
      var t := SortByKey(g[1..]);
      SameEntries(t, g[1..]);
      assert g == [g[0]] + g[1..];
      InsertByKey(t, g[0])
  }

  /** Reordering a grouping keeps it a grouping of the same column. */
  lemma PermutedGrouping<K>(ks: seq<K>, g: seq<(K, nat)>, r: seq<(K, nat)>)
    requires IsGrouping(ks, g)
    requires multiset(r) == multiset(g)
    ensures IsGrouping(ks, r)
    ensures |r| == |g|
  {
    SameEntries(g, r);
    PermutationDistinct(g, r);
    assert |r| == |multiset(r)| && |g| == |multiset(g)|;
  }

  /** `filtered_data.groupby(["Year", "Location_Type"]).size()`: one entry
      per pair present, each with its number of rows, the counts adding up
      to the number of rows, in increasing order of `(Year, Location_Type)`. */
  function TimeSeries(data: seq<Obs>): (r: seq<(YearLoc, nat)>)
    ensures IsGrouping(YearLocColumn(data), r)
    ensures SortedByKey(r)
    ensures Sum(r) == |data|
    ensures |data| == 0 <==> r == []
  {
    var col := YearLocColumn(data);
    var g := GroupSize(col);
    GroupSizeIsGrouping(col);
    GroupSizeEmpty(col);
    var r := SortByKey(g);
    PermutedGrouping(col, g, r);
    r
  }

  /** When every filtered row has the year `y` and the habitat `h`, the time
      series is the single point `((y, h), |data|)`. */
  lemma SinglePointSeries(data: seq<Obs>, y: int, h: Habitat)
    requires |data| > 0
    requires forall o :: o in data ==> o.year == y && o.loc == h
    ensures TimeSeries(data) == [((y, h), |data|)]
  {
    var col := YearLocColumn(data);
    forall i | 0 <= i < |col| ensures col[i] == (y, h) {
      assert data[i] in data;
    }
    GroupSizeSingleKey(col, (y, h));
  }
}
