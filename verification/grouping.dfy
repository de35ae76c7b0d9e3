/**
 `groupby(column).size()`: counting the rows per distinct key of a column.

 A grouping is a sequence of `(key, count)` pairs. The model does not fix
 the order of the groups; `IsGrouping` is the specification every grouping
 meets, whatever its order.
 */
module Grouping {

  /** Number of occurrences of `k` in `ks`. */
  function Count<K(==)>(ks: seq<K>, k: K): (c: nat)
    ensures c == multiset(ks)[k]
    ensures c > 0 <==> k in ks
  {
    if |ks| == 0 then 0
    else
      assert ks == [ks[0]] + ks[1..];
      (if ks[0] == k then 1 else 0) + Count(ks[1..], k)
  }

  /** The keys a grouping has an entry for. */
  function KeySet<K>(g: seq<(K, nat)>): set<K>
  {
    set e | e in g :: e.0
  }

  /** No key has two entries. */
  ghost predicate DistinctKeys<K>(g: seq<(K, nat)>)
  {
    forall i, j :: 0 <= i < j < |g| ==> g[i].0 != g[j].0
  }

  /** The sum of the counts of a grouping. */
  function Sum<K>(g: seq<(K, nat)>): nat
  {
    if |g| == 0 then 0 else g[0].1 + Sum(g[1..])
  }

  /** The count recorded for `k`, or 0 when `k` has no entry. */
  function Lookup<K(==)>(g: seq<(K, nat)>, k: K): nat
  {
    if |g| == 0 then 0
    else if g[0].0 == k then g[0].1
    else Lookup(g[1..], k)
  }

  /** `g` is the grouping of the column `ks`: one entry per distinct value of
      the column, and each entry holds the number of rows with that value. */
  ghost predicate IsGrouping<K>(ks: seq<K>, g: seq<(K, nat)>)
  {
    && DistinctKeys(g)
    && (forall e :: e in g ==> e.0 in ks && e.1 == Count(ks, e.0))
    && (forall k :: k in ks ==> k in KeySet(g))
  }

  /** Distinctness of keys, one entry at a time. */
  lemma DistinctKeysCons<K>(g: seq<(K, nat)>)
    requires |g| > 0
    ensures DistinctKeys(g) <==> DistinctKeys(g[1..]) && g[0].0 !in KeySet(g[1..])
  {
  }

  /** In a grouping with distinct keys, an entry's count is what `Lookup`
      finds for its key. */
  lemma LookupEntry<K>(g: seq<(K, nat)>, e: (K, nat))
    requires DistinctKeys(g) && e in g
    ensures Lookup(g, e.0) == e.1
  {
  }

  /** Records one more row with key `k`: its entry's count goes up by one,
      or a new entry `(k, 1)` is appended. */
  function Bump<K(==,!new)>(g: seq<(K, nat)>, k: K): (r: seq<(K, nat)>)
    ensures KeySet(r) == KeySet(g) + {k}
    ensures forall k' :: Lookup(r, k') == Lookup(g, k') + (if k' == k then 1 else 0)
    ensures Sum(r) == Sum(g) + 1
    ensures DistinctKeys(g) ==> DistinctKeys(r)
    ensures (forall e :: e in g ==> e.1 > 0) ==> (forall e :: e in r ==> e.1 > 0)
  {
    if |g| == 0 then [(k, 1)]
    else if g[0].0 == k then
      var r := [(k, g[0].1 + 1)] + g[1..];
      assert r[1..] == g[1..];
      assert KeySet(r) == KeySet(g) by {
        assert g == [g[0]] + g[1..];
      }
      assert DistinctKeys(g) ==> DistinctKeys(r) by {
        if DistinctKeys(g) {
          DistinctKeysCons(g);
          DistinctKeysCons(r);
        }
      }
      r
    else
      var t := Bump(g[1..], k);
      var r := [g[0]] + t;
      assert r[1..] == t;
      assert KeySet(r) == KeySet(g) + {k} by {
        assert g == [g[0]] + g[1..];
        assert KeySet(r) == {g[0].0} + KeySet(t);
        assert KeySet(g) == {g[0].0} + KeySet(g[1..]);
      }
      assert DistinctKeys(g) ==> DistinctKeys(r) by {
        if DistinctKeys(g) {
          DistinctKeysCons(g);
          DistinctKeysCons(r);
        }
      }
      r
  }

  /** The grouping of a column, built one row at a time. */
  function GroupSize<K(==,!new)>(ks: seq<K>): (g: seq<(K, nat)>)
    ensures DistinctKeys(g)
    ensures forall k :: Lookup(g, k) == Count(ks, k)
    ensures forall e :: e in g ==> e.1 > 0
    ensures KeySet(g) == set k | k in ks
    ensures Sum(g) == |ks|
  {
    if |ks| == 0 then []
    else
      CountCons(ks);
      ValuesCons(ks);
      Bump(GroupSize(ks[1..]), ks[0])
  }

  /** The count of every key, one row at a time. */
  lemma CountCons<K>(ks: seq<K>)
    requires |ks| > 0
    ensures forall k :: Count(ks, k) == Count(ks[1..], k) + (if k == ks[0] then 1 else 0)
  {
  }

  /** The values of a column, one row at a time. */
  lemma ValuesCons<K>(ks: seq<K>)
    requires |ks| > 0
    ensures (set k | k in ks) == (set k | k in ks[1..]) + {ks[0]}
  {
    assert ks == [ks[0]] + ks[1..];
  }

  /** `GroupSize` meets the grouping specification: one entry per distinct
      key, each holding that key's number of rows, the counts adding up to
      the number of rows. */
  lemma GroupSizeIsGrouping<K(!new)>(ks: seq<K>)
    ensures IsGrouping(ks, GroupSize(ks))
    ensures Sum(GroupSize(ks)) == |ks|
  {
    var g := GroupSize(ks);
    forall e | e in g
      ensures e.0 in ks && e.1 == Count(ks, e.0)
    {
      LookupEntry(g, e);
      assert e.0 in KeySet(g);
    }
    forall k | k in ks
      ensures k in KeySet(g)
    {
      assert k in (set k | k in ks);
    }
  }

  /** When every row has the same key `k`, the grouping is the single entry
      `(k, |ks|)`. */
  lemma {:induction false} GroupSizeSingleKey<K(!new)>(ks: seq<K>, k: K)
    requires |ks| > 0
    requires forall i :: 0 <= i < |ks| ==> ks[i] == k
    ensures GroupSize(ks) == [(k, |ks|)]
  {
    if |ks| > 1 {
      GroupSizeSingleKey(ks[1..], k);
    }
  }

  /** The empty column has the empty grouping. */
  lemma GroupSizeEmpty<K(!new)>(ks: seq<K>)
    ensures GroupSize(ks) == [] <==> |ks| == 0
  {
  }
}
