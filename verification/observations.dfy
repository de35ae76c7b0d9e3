/**
 The records of the bird-observation dashboard and the columns the pipeline
 reads from them.

 A spreadsheet row keeps only the columns the modelled computations use:
 `Common_Name` and `Year`. The merge adds the `Location_Type` column, which
 is a `Habitat`.
 */
module Observations {

  /** The value of the `Location_Type` column. */
  datatype Habitat = Forest | Grassland

  /** The sidebar's habitat selector: "Both", "Forest" or "Grassland". */
  datatype Selector = Both | Only(habitat: Habitat)

  /** A row as read from one of the two spreadsheets, before it is tagged. */
  datatype Row = Row(name: string, year: int)

  /** A row of the merged table: `Common_Name`, `Year` and `Location_Type`. */
  datatype Obs = Obs(name: string, year: int, loc: Habitat)

  /** An inclusive year range `(lo, hi)`, as the sidebar produces it. */
  datatype YearRange = YearRange(lo: int, hi: int)

  /** A value the user may not have supplied yet. */
  datatype Option<+T> = None | Some(value: T) {
    /** The value, or `default` when there is none. */
    function GetOr(default: T): T
    {
      if Some? then value else default
    }
  }

  /** The key of a time-series group: a `(Year, Location_Type)` pair. */
  type YearLoc = (int, Habitat)

  /** The `Common_Name` column. */
  function NameColumn(data: seq<Obs>): (col: seq<string>)
    ensures |col| == |data|
    ensures forall i :: 0 <= i < |data| ==> col[i] == data[i].name
  {
    seq(|data|, i requires 0 <= i < |data| => data[i].name)
  }

  /** The `Year` column. */
  function YearColumn(data: seq<Obs>): (col: seq<int>)
    ensures |col| == |data|
    ensures forall i :: 0 <= i < |data| ==> col[i] == data[i].year
  {
    seq(|data|, i requires 0 <= i < |data| => data[i].year)
  }

  /** The `(Year, Location_Type)` column pair. */
  function YearLocColumn(data: seq<Obs>): (col: seq<YearLoc>)
    ensures |col| == |data|
    ensures forall i :: 0 <= i < |data| ==> col[i] == (data[i].year, data[i].loc)
  {
    seq(|data|, i requires 0 <= i < |data| => (data[i].year, data[i].loc))
  }
}
