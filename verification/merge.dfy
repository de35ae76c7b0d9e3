/**
 The merge step: each spreadsheet gets a constant `Location_Type` column and
 the two are concatenated, forest rows first, each block in its file order.
 */
module Merge {
  import opened Observations

  /** Adds the constant `Location_Type` column `h` to every row. */
  function Tag(rows: seq<Row>, h: Habitat): (tagged: seq<Obs>)
    ensures |tagged| == |rows|
    ensures forall i :: 0 <= i < |rows| ==>
              tagged[i].name == rows[i].name && tagged[i].year == rows[i].year
    ensures forall o :: o in tagged ==> o.loc == h
  {
    seq(|rows|, i requires 0 <= i < |rows| => Obs(rows[i].name, rows[i].year, h))
  }

  /** Drops the `Location_Type` column again: the inverse of `Tag`. */
  function Untag(data: seq<Obs>): (rows: seq<Row>)
    ensures |rows| == |data|
  {
    seq(|data|, i requires 0 <= i < |data| => Row(data[i].name, data[i].year))
  }

  /** `pd.concat([forest, grassland], ignore_index=True)` after tagging. */
  function Merge(forest: seq<Row>, grassland: seq<Row>): (merged: seq<Obs>)
    ensures |merged| == |forest| + |grassland|
    ensures forall i :: 0 <= i < |forest| ==>
              merged[i] == Obs(forest[i].name, forest[i].year, Forest)
    ensures forall i :: 0 <= i < |grassland| ==>
              merged[|forest| + i] == Obs(grassland[i].name, grassland[i].year, Grassland)
  {
    Tag(forest, Forest) + Tag(grassland, Grassland)
  }

  /** Tagging loses nothing: removing the tag gives back the rows. */
  lemma UntagTag(rows: seq<Row>, h: Habitat)
    ensures Untag(Tag(rows, h)) == rows
  {
  }

  /** The merged table splits back into the two tagged inputs, and
      untagging each block gives back the two spreadsheets. */
  lemma MergeSplits(forest: seq<Row>, grassland: seq<Row>)
    ensures Merge(forest, grassland)[..|forest|] == Tag(forest, Forest)
    ensures Merge(forest, grassland)[|forest|..] == Tag(grassland, Grassland)
    ensures Untag(Merge(forest, grassland)[..|forest|]) == forest
    ensures Untag(Merge(forest, grassland)[|forest|..]) == grassland
  {
  }

  /** Every merged row carries a location, and it is `Forest` exactly in the
      first block. */
  lemma MergeLocations(forest: seq<Row>, grassland: seq<Row>)
    ensures forall i :: 0 <= i < |Merge(forest, grassland)| ==>
              (Merge(forest, grassland)[i].loc == Forest <==> i < |forest|)
  {
  }
}
