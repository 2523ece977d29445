/** Raster cells and rectangular grids.  A cell holds a real number or is
    Missing, which stands for an IEEE non-finite float: the NaN a raster
    uses for no-data, and the inf/NaN that numpy produces when a band is
    divided by zero. */
module Grids {

  datatype Cell = Value(x: real) | Missing

  /** One band: rows of cells. */
  type Grid = seq<seq<Cell>>

  /** g has exactly h rows of exactly w entries each. */
  predicate IsGrid<T>(g: seq<seq<T>>, h: nat, w: nat) {
    |g| == h && forall r :: 0 <= r < h ==> |g[r]| == w
  }

  /** Every band of a stack is h by w. */
  predicate IsStack(bands: seq<Grid>, h: nat, w: nat) {
    forall k :: 0 <= k < |bands| ==> IsGrid(bands[k], h, w)
  }

  /** The numpy slice g[r0:r0+n, c0:c0+n] of a grid the window lies inside. */
  function Crop<T>(g: seq<seq<T>>, h: nat, w: nat, r0: int, c0: int, n: nat): seq<seq<T>>
    requires IsGrid(g, h, w)
    requires 0 <= r0 && r0 + n <= h && 0 <= c0 && c0 + n <= w
  {
    CropRows(g, h, w, r0, c0, n, n)
  }

  /** The first m rows of that slice. */
  function CropRows<T>(g: seq<seq<T>>, h: nat, w: nat, r0: int, c0: int, n: nat, m: nat): seq<seq<T>>
    requires IsGrid(g, h, w)
    requires 0 <= r0 && r0 + n <= h && 0 <= c0 && c0 + n <= w && m <= n
    decreases m
  {
    if m == 0 then [] else CropRows(g, h, w, r0, c0, n, m - 1) + [CropCols(g[r0 + m - 1], c0, n)]
  }

  /** The first m entries of row[c0:c0+n], built one entry at a time. */
  function CropCols<T>(row: seq<T>, c0: int, m: nat): seq<T>
    requires 0 <= c0 && c0 + m <= |row|
    decreases m
  {
    if m == 0 then [] else CropCols(row, c0, m - 1) + [row[c0 + m - 1]]
  }

  lemma {:induction false} CropColsFacts<T>(row: seq<T>, c0: int, m: nat)
    requires 0 <= c0 && c0 + m <= |row|
    ensures |CropCols(row, c0, m)| == m
    ensures forall j :: 0 <= j < m ==> CropCols(row, c0, m)[j] == row[c0 + j]
    decreases m
  {
    if m > 0 {
      CropColsFacts(row, c0, m - 1);
    }
  }

  lemma {:induction false} CropRowsFacts<T>(g: seq<seq<T>>, h: nat, w: nat, r0: int, c0: int, n: nat, m: nat)
    requires IsGrid(g, h, w)
    requires 0 <= r0 && r0 + n <= h && 0 <= c0 && c0 + n <= w && m <= n
    ensures var r := CropRows(g, h, w, r0, c0, n, m);
      && |r| == m
      && (forall i :: 0 <= i < m ==> |r[i]| == n)
      && (forall i, j :: 0 <= i < m && 0 <= j < n ==> r[i][j] == g[r0 + i][c0 + j])
    decreases m
  {
    if m > 0 {
      CropRowsFacts(g, h, w, r0, c0, n, m - 1);
      CropColsFacts(g[r0 + m - 1], c0, n);
    }
  }

  /** The slice is n by n, and its cell (i, j) is the grid's (r0 + i, c0 + j). */
  lemma CropFacts<T>(g: seq<seq<T>>, h: nat, w: nat, r0: int, c0: int, n: nat)
    requires IsGrid(g, h, w)
    requires 0 <= r0 && r0 + n <= h && 0 <= c0 && c0 + n <= w
    ensures IsGrid(Crop(g, h, w, r0, c0, n), n, n)
    ensures forall i, j :: 0 <= i < n && 0 <= j < n ==> Crop(g, h, w, r0, c0, n)[i][j] == g[r0 + i][c0 + j]
  {
    CropRowsFacts(g, h, w, r0, c0, n, n);
  }

  /** No cell of any band is missing. */
  predicate NoMissing(bands: seq<Grid>) {
    forall k, i, j :: 0 <= k < |bands| && 0 <= i < |bands[k]| && 0 <= j < |bands[k][i]| ==> bands[k][i][j].Value?
  }
}
