/**
 * The climate dashboard's row filter: the rows of the static dataset whose
 * region is among the selected ones and whose year lies in the chosen period.
 */
module Dashboard {

  /** One row of the climate dataset; only Region and Year take part in the filter. */
  datatype ClimateRow = ClimateRow(
    region: string, year: int,
    co2Ppm: real, tempAnomalyC: real, deforestationPct: real,
    seaLevelCm: real, renewableSharePct: real, vulnerabilityIndex: real)

  /** `df["Region"].isin(regions) & df["Year"].between(lo, hi)` for one row. */
  predicate Selected(row: ClimateRow, regions: set<string>, lo: int, hi: int) {
    row.region in regions && lo <= row.year <= hi
  }

  /** The filtered view: exactly the selected rows, in dataset order. */
  function FilterRows(data: seq<ClimateRow>, regions: set<string>, lo: int, hi: int): (r: seq<ClimateRow>)
    ensures |r| <= |data|
    ensures forall x :: x in r <==> x in data && Selected(x, regions, lo, hi)
  {
    if data == [] then []
    else (if Selected(data[0], regions, lo, hi) then [data[0]] else []) + FilterRows(data[1..], regions, lo, hi)
  }

  /** Filtering a dataset split in two filters each part and keeps them in order. */
  lemma {:induction false} FilterConcat(a: seq<ClimateRow>, b: seq<ClimateRow>, regions: set<string>, lo: int, hi: int)
    ensures FilterRows(a + b, regions, lo, hi) == FilterRows(a, regions, lo, hi) + FilterRows(b, regions, lo, hi)
  {
    if a != [] {
      assert (a + b)[1..] == a[1..] + b;
      FilterConcat(a[1..], b, regions, lo, hi);
    } else {
      assert a + b == b;
    }
  }

  /** When every row is selected, the view is the whole dataset. */
  lemma {:induction false} FilterKeepsAllSelected(data: seq<ClimateRow>, regions: set<string>, lo: int, hi: int)
    requires forall i :: 0 <= i < |data| ==> Selected(data[i], regions, lo, hi)
    ensures FilterRows(data, regions, lo, hi) == data
  {
    if data != [] {
      FilterKeepsAllSelected(data[1..], regions, lo, hi);
    }
  }

  /** Selecting no region shows no row, whatever the period. */
  lemma {:induction false} FilterNoRegion(data: seq<ClimateRow>, lo: int, hi: int)
    ensures FilterRows(data, {}, lo, hi) == []
  {
    if data != [] {
      FilterNoRegion(data[1..], lo, hi);
    }
  }

  /** Filtering a filtered view again changes nothing. */
  lemma FilterIdempotent(data: seq<ClimateRow>, regions: set<string>, lo: int, hi: int)
    ensures FilterRows(FilterRows(data, regions, lo, hi), regions, lo, hi) == FilterRows(data, regions, lo, hi)
  {
    var r := FilterRows(data, regions, lo, hi);
    forall i | 0 <= i < |r| ensures Selected(r[i], regions, lo, hi) {
      assert r[i] in r;
    }
    FilterKeepsAllSelected(r, regions, lo, hi);
  }

  /** The regions of the dataset: the default selection of the multiselect. */
  function RegionsOf(data: seq<ClimateRow>): set<string> {
    set i | 0 <= i < |data| :: data[i].region
  }

  function MinYear(data: seq<ClimateRow>): (y: int)
    requires data != []
    ensures forall i :: 0 <= i < |data| ==> y <= data[i].year
    ensures exists i :: 0 <= i < |data| && data[i].year == y
  {
    if |data| == 1 then data[0].year
    else var m := MinYear(data[1..]); if data[0].year < m then data[0].year else m
  }

  function MaxYear(data: seq<ClimateRow>): (y: int)
    requires data != []
    ensures forall i :: 0 <= i < |data| ==> data[i].year <= y
    ensures exists i :: 0 <= i < |data| && data[i].year == y
  {
    if |data| == 1 then data[0].year
    else var m := MaxYear(data[1..]); if data[0].year > m then data[0].year else m
  }

  /** All regions selected and the slider spanning the dataset's first to last year:
      the view is the whole dataset. */
  lemma FilterWholeDataset(data: seq<ClimateRow>)
    requires data != []
    ensures FilterRows(data, RegionsOf(data), MinYear(data), MaxYear(data)) == data
  {
    FilterKeepsAllSelected(data, RegionsOf(data), MinYear(data), MaxYear(data));
  }
}
