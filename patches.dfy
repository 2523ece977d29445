/** Patch extraction and the two sampling passes of the patch-creation
    script: a polygon-centred pass with random jitter and a skip counter,
    and a rejection-sampled background pass with an attempt budget.
    Randomness is an oracle `draw: nat -> DrawPair`; numpy's randint(low, high)
    is the function RandInt of one draw. */
module Patches {
  import opened Common
  import opened Grids

  /** The loaded stack of one tile (channels x height x width), its label
      grid (height x width) and the shape taken from the stack. */
  datatype Tile = Tile(inputs: seq<Grid>, labels: seq<seq<int>>, height: nat, width: nat) {
    predicate Valid() {
      IsStack(inputs, height, width) && IsGrid(labels, height, width)
    }
  }

  /** An input crop (channels x n x n) and its label crop (n x n). */
  datatype Patch = Patch(x: seq<Grid>, y: seq<seq<int>>)

  /** Some input cell of the n x n window at (r0, c0) is missing. */
  predicate WindowHasMissing(t: Tile, r0: int, c0: int, n: nat)
    requires t.Valid()
    requires 0 <= r0 && r0 + n <= t.height && 0 <= c0 && c0 + n <= t.width
  {
    exists k, i, j :: 0 <= k < |t.inputs| && r0 <= i < r0 + n && c0 <= j < c0 + n && t.inputs[k][i][j].Missing?
  }

  /** p is the n x n window at (r0, c0) of every channel and of the labels. */
  predicate IsWindowOf(p: Patch, t: Tile, r0: int, c0: int, n: nat)
    requires t.Valid()
    requires 0 <= r0 && r0 + n <= t.height && 0 <= c0 && c0 + n <= t.width
  {
    && |p.x| == |t.inputs|
    && IsStack(p.x, n, n)
    && IsGrid(p.y, n, n)
    && (forall k, i, j :: 0 <= k < |p.x| && 0 <= i < n && 0 <= j < n ==> p.x[k][i][j] == t.inputs[k][r0 + i][c0 + j])
    && (forall i, j :: 0 <= i < n && 0 <= j < n ==> p.y[i][j] == t.labels[r0 + i][c0 + j])
  }

  predicate AnyMissing(x: seq<Grid>) {
    exists k, i, j :: 0 <= k < |x| && 0 <= i < |x[k]| && 0 <= j < |x[k][i]| && x[k][i][j].Missing?
  }

  /** The same window of every band. */
  function CropStack(bands: seq<Grid>, h: nat, w: nat, r0: int, c0: int, n: nat): seq<Grid>
    requires IsStack(bands, h, w)
    requires 0 <= r0 && r0 + n <= h && 0 <= c0 && c0 + n <= w
  {
    CropBands(bands, h, w, r0, c0, n, |bands|)
  }

  /** The window of each of the first m bands. */
  function CropBands(bands: seq<Grid>, h: nat, w: nat, r0: int, c0: int, n: nat, m: nat): seq<Grid>
    requires IsStack(bands, h, w) && m <= |bands|
    requires 0 <= r0 && r0 + n <= h && 0 <= c0 && c0 + n <= w
    decreases m
  {
    if m == 0 then [] else CropBands(bands, h, w, r0, c0, n, m - 1) + [Crop(bands[m - 1], h, w, r0, c0, n)]
  }

  lemma {:induction false} CropBandsFacts(bands: seq<Grid>, h: nat, w: nat, r0: int, c0: int, n: nat, m: nat)
    requires IsStack(bands, h, w) && m <= |bands|
    requires 0 <= r0 && r0 + n <= h && 0 <= c0 && c0 + n <= w
    ensures var r := CropBands(bands, h, w, r0, c0, n, m);
      && |r| == m
      && (forall k :: 0 <= k < m ==> r[k] == Crop(bands[k], h, w, r0, c0, n))
    decreases m
  {
    if m > 0 {
      CropBandsFacts(bands, h, w, r0, c0, n, m - 1);
    }
  }

  /** The stack crop has one n by n band per band, cell for cell the window. */
  lemma CropStackFacts(bands: seq<Grid>, h: nat, w: nat, r0: int, c0: int, n: nat)
    requires IsStack(bands, h, w)
    requires 0 <= r0 && r0 + n <= h && 0 <= c0 && c0 + n <= w
    ensures |CropStack(bands, h, w, r0, c0, n)| == |bands| && IsStack(CropStack(bands, h, w, r0, c0, n), n, n)
    ensures forall k, i, j :: 0 <= k < |bands| && 0 <= i < n && 0 <= j < n ==>
              CropStack(bands, h, w, r0, c0, n)[k][i][j] == bands[k][r0 + i][c0 + j]
  {
    var r := CropStack(bands, h, w, r0, c0, n);
    CropBandsFacts(bands, h, w, r0, c0, n, |bands|);
    forall k | 0 <= k < |bands|
      ensures IsGrid(r[k], n, n)
      ensures forall i, j :: 0 <= i < n && 0 <= j < n ==> r[k][i][j] == bands[k][r0 + i][c0 + j]
    {
      CropFacts(bands[k], h, w, r0, c0, n);
    }
  }

  /** The crop holds a missing cell exactly when the tile's window does. */
  lemma CropMissing(t: Tile, r0: int, c0: int, n: nat)
    requires t.Valid()
    requires 0 <= r0 && r0 + n <= t.height && 0 <= c0 && c0 + n <= t.width
    ensures AnyMissing(CropStack(t.inputs, t.height, t.width, r0, c0, n)) <==> WindowHasMissing(t, r0, c0, n)
  {
    var x: seq<seq<seq<Cell>>> := CropStack(t.inputs, t.height, t.width, r0, c0, n);
    CropStackFacts(t.inputs, t.height, t.width, r0, c0, n);
    if AnyMissing(x) {
      var k: nat, i: nat, j: nat :| 0 <= k < |x| && 0 <= i < |x[k]| && 0 <= j < |x[k][i]| && x[k][i][j].Missing?;
      assert t.inputs[k][r0 + i][c0 + j].Missing?;
    }
    if WindowHasMissing(t, r0, c0, n) {
      var k: nat, i: int, j: int :| 0 <= k < |t.inputs| && r0 <= i < r0 + n && c0 <= j < c0 + n && t.inputs[k][i][j].Missing?;
      assert x[k][i - r0][j - c0] == t.inputs[k][i][j];
    }
  }

  /** The crops of every band and of the labels form that window of the tile. */
  lemma CropIsWindow(t: Tile, r0: int, c0: int, n: nat)
    requires t.Valid()
    requires 0 <= r0 && r0 + n <= t.height && 0 <= c0 && c0 + n <= t.width
    ensures IsWindowOf(Patch(CropStack(t.inputs, t.height, t.width, r0, c0, n), Crop(t.labels, t.height, t.width, r0, c0, n)), t, r0, c0, n)
  {
    CropStackFacts(t.inputs, t.height, t.width, r0, c0, n);
    CropFacts(t.labels, t.height, t.width, r0, c0, n);
  }

  lemma NotAnyMissing(x: seq<Grid>)
    requires !AnyMissing(x)
    ensures NoMissing(x)
  {
  }

  /** extract_patch: reject (None) when the window [r-half, r+half) x
      [c-half, c+half) leaves the tile or holds a missing input cell;
      otherwise the co-registered window of every channel and of the
      labels.  Its properties are the lemmas that follow. */
  function ExtractPatch(t: Tile, centerRow: int, centerCol: int, patchSize: nat): Option<Patch>
    requires t.Valid()
  {
    var half := patchSize / 2;
    var rowStart, rowEnd := centerRow - half, centerRow + half;
    var colStart, colEnd := centerCol - half, centerCol + half;
    if rowStart < 0 || rowEnd > t.height || colStart < 0 || colEnd > t.width then None
    else
      var x := CropStack(t.inputs, t.height, t.width, rowStart, colStart, 2 * half);
      if AnyMissing(x) then None
      else Some(Patch(x, Crop(t.labels, t.height, t.width, rowStart, colStart, 2 * half)))
  }

  /** A patch is rejected exactly when its window leaves the tile or holds
      a missing input cell. */
  lemma ExtractPatchRejects(t: Tile, centerRow: int, centerCol: int, patchSize: nat)
    requires t.Valid()
    ensures var half := patchSize / 2;
      ExtractPatch(t, centerRow, centerCol, patchSize).None? <==>
        (|| centerRow - half < 0
         || centerRow + half > t.height
         || centerCol - half < 0
         || centerCol + half > t.width
         || WindowHasMissing(t, centerRow - half, centerCol - half, 2 * half))
  {
    var half := patchSize / 2;
    if 0 <= centerRow - half && centerRow + half <= t.height && 0 <= centerCol - half && centerCol + half <= t.width {
      CropMissing(t, centerRow - half, centerCol - half, 2 * half);
    }
  }

  /** An extracted patch is the co-registered window around the centre, of
      every channel and of the labels, and has no missing input cell. */
  lemma ExtractPatchWindow(t: Tile, centerRow: int, centerCol: int, patchSize: nat)
    requires t.Valid() && ExtractPatch(t, centerRow, centerCol, patchSize).Some?
    ensures var half := patchSize / 2;
      && 0 <= centerRow - half && centerRow + half <= t.height
      && 0 <= centerCol - half && centerCol + half <= t.width
      && IsWindowOf(ExtractPatch(t, centerRow, centerCol, patchSize).value, t, centerRow - half, centerCol - half, 2 * half)
      && NoMissing(ExtractPatch(t, centerRow, centerCol, patchSize).value.x)
  {
    var half := patchSize / 2;
    CropIsWindow(t, centerRow - half, centerCol - half, 2 * half);
    CropMissing(t, centerRow - half, centerCol - half, 2 * half);
    NotAnyMissing(ExtractPatch(t, centerRow, centerCol, patchSize).value.x);
  }

  /** Hence it is missing-free and of the patch shape. */
  lemma ExtractPatchWellFormed(t: Tile, centerRow: int, centerCol: int, patchSize: nat)
    requires t.Valid() && ExtractPatch(t, centerRow, centerCol, patchSize).Some?
    ensures WellFormedPatch(ExtractPatch(t, centerRow, centerCol, patchSize).value, |t.inputs|, patchSize)
  {
    ExtractPatchWindow(t, centerRow, centerCol, patchSize);
  }

  /** The two raw draws of one attempt: row first, then column. */
  datatype DrawPair = DrawPair(row: int, col: int)

  /** A pixel position; for the polygon pass, a centroid already converted
      to pixel coordinates. */
  datatype PixelCentre = PixelCentre(row: int, col: int)

  /** numpy's randint(low, high) for one oracle draw: a value in [low, high),
      and a ValueError (None) when the range is empty.  The draw stands for
      the value numpy returns; one outside the range is clamped to its
      nearer end, so every draw function gives a legal outcome and every
      value of the range is the outcome of some draw. */
  function RandInt(low: int, high: int, draw: int): (r: Option<int>)
    ensures r.Some? <==> low < high
    ensures r.Some? ==> low <= r.value < high
  {
    if low >= high then None
    else if draw < low then Some(low)
    else if draw >= high then Some(high - 1)
    else Some(draw)
  }

  /** A patch some pass may keep: missing-free, of the right shape. */
  predicate WellFormedPatch(p: Patch, channels: nat, patchSize: nat) {
    && |p.x| == channels
    && IsStack(p.x, 2 * (patchSize / 2), 2 * (patchSize / 2))
    && IsGrid(p.y, 2 * (patchSize / 2), 2 * (patchSize / 2))
    && NoMissing(p.x)
  }

  /** The contents of an Option as a list of at most one element. */
  function Listed(p: Option<Patch>): (r: seq<Patch>)
    ensures |r| == if p.Some? then 1 else 0
    ensures p.Some? ==> r == [p.value]
  {
    if p.Some? then [p.value] else []
  }

  // ---------------------------------------------------------------------
  // Polygon-centred pass
  // ---------------------------------------------------------------------


  /** randint(-max_offset, max_offset + 1) for one draw. */
  function JitterOffset(maxOffset: nat, draw: int): (o: int)
    ensures -(maxOffset as int) <= o <= maxOffset
  {
    RandInt(-(maxOffset as int), maxOffset + 1, draw).value
  }

  /** Polygon k is tried once, at its centre moved by the k-th pair of
      draws (row offset first, then column offset). */
  function PolygonAttempt(t: Tile, centres: seq<PixelCentre>, k: nat, maxOffset: nat, patchSize: nat, draw: nat -> DrawPair): Option<Patch>
    requires t.Valid() && k < |centres|
  {
    var centerRow := centres[k].row + JitterOffset(maxOffset, draw(k).row);
    var centerCol := centres[k].col + JitterOffset(maxOffset, draw(k).col);
    ExtractPatch(t, centerRow, centerCol, patchSize)
  }

  /** The patches kept from the first n polygons, in order. */
  function PolygonKept(t: Tile, centres: seq<PixelCentre>, maxOffset: nat, patchSize: nat, draw: nat -> DrawPair, n: nat): seq<Patch>
    requires t.Valid() && n <= |centres|
    decreases n
  {
    if n == 0 then []
    else PolygonKept(t, centres, maxOffset, patchSize, draw, n - 1) + Listed(PolygonAttempt(t, centres, n - 1, maxOffset, patchSize, draw))
  }

  /** How many of the first n polygons were skipped. */
  function PolygonSkipped(t: Tile, centres: seq<PixelCentre>, maxOffset: nat, patchSize: nat, draw: nat -> DrawPair, n: nat): nat
    requires t.Valid() && n <= |centres|
    decreases n
  {
    if n == 0 then 0
    else PolygonSkipped(t, centres, maxOffset, patchSize, draw, n - 1)
         + (if PolygonAttempt(t, centres, n - 1, maxOffset, patchSize, draw).None? then 1 else 0)
  }

  /** The wetland-centred loop: one attempt per polygon; each attempt adds
      a patch or a skip. */
  method SamplePolygonPatches(t: Tile, centres: seq<PixelCentre>, maxOffset: nat, patchSize: nat, draw: nat -> DrawPair)
    returns (patches: seq<Patch>, skipped: nat)
    requires t.Valid()
    ensures patches == PolygonKept(t, centres, maxOffset, patchSize, draw, |centres|)
    ensures skipped == PolygonSkipped(t, centres, maxOffset, patchSize, draw, |centres|)
  {
    patches, skipped := [], 0;
    var k := 0;
    while k < |centres|
      invariant k <= |centres|
      invariant patches == PolygonKept(t, centres, maxOffset, patchSize, draw, k)
      invariant skipped == PolygonSkipped(t, centres, maxOffset, patchSize, draw, k)
    {
      patches, skipped, k := PolygonIteration(t, centres, maxOffset, patchSize, draw, k, patches, skipped);
    }
  }

  /** The body of that loop for polygon k, which moves on to the next
      polygon: jitter the centre, extract, and append the patch or count
      a skip. */
  method PolygonIteration(t: Tile, centres: seq<PixelCentre>, maxOffset: nat, patchSize: nat, draw: nat -> DrawPair,
                          k: nat, patches: seq<Patch>, skipped: nat)
    returns (patches': seq<Patch>, skipped': nat, next: nat)
    requires t.Valid() && k < |centres|
    requires patches == PolygonKept(t, centres, maxOffset, patchSize, draw, k)
    requires skipped == PolygonSkipped(t, centres, maxOffset, patchSize, draw, k)
    ensures next == k + 1
    ensures patches' == PolygonKept(t, centres, maxOffset, patchSize, draw, next)
    ensures skipped' == PolygonSkipped(t, centres, maxOffset, patchSize, draw, next)
  {
    next := k + 1;
    var offsetRow := JitterOffset(maxOffset, draw(k).row);
    var offsetCol := JitterOffset(maxOffset, draw(k).col);
    var p := ExtractPatch(t, centres[k].row + offsetRow, centres[k].col + offsetCol, patchSize);
    if p.Some? {
      patches', skipped' := patches + [p.value], skipped;
    } else {
      patches', skipped' := patches, skipped + 1;
    }
  }

  /** Every polygon gives either a patch or a skip, never both. */
  lemma {:induction false} PolygonAccounting(t: Tile, centres: seq<PixelCentre>, maxOffset: nat, patchSize: nat, draw: nat -> DrawPair, n: nat)
    requires t.Valid() && n <= |centres|
    ensures |PolygonKept(t, centres, maxOffset, patchSize, draw, n)| + PolygonSkipped(t, centres, maxOffset, patchSize, draw, n) == n
    decreases n
  {
    if n > 0 {
      PolygonAccounting(t, centres, maxOffset, patchSize, draw, n - 1);
    }
  }

  /** Every patch the polygon pass keeps is missing-free and of the patch shape. */
  lemma {:induction false} PolygonPatchesWellFormed(t: Tile, centres: seq<PixelCentre>, maxOffset: nat, patchSize: nat, draw: nat -> DrawPair, n: nat)
    requires t.Valid() && n <= |centres|
    ensures forall p :: p in PolygonKept(t, centres, maxOffset, patchSize, draw, n) ==> WellFormedPatch(p, |t.inputs|, patchSize)
    decreases n
  {
    if n > 0 {
      PolygonPatchesWellFormed(t, centres, maxOffset, patchSize, draw, n - 1);
      var k := n - 1;
      var centerRow := centres[k].row + JitterOffset(maxOffset, draw(k).row);
      var centerCol := centres[k].col + JitterOffset(maxOffset, draw(k).col);
      if ExtractPatch(t, centerRow, centerCol, patchSize).Some? {
        ExtractPatchWellFormed(t, centerRow, centerCol, patchSize);
      }
    }
  }

  // ---------------------------------------------------------------------
  // Background pass
  // ---------------------------------------------------------------------

  predicate AnyPositive(y: seq<seq<int>>) {
    exists i, j :: 0 <= i < |y| && 0 <= j < |y[i]| && y[i][j] > 0
  }

  /** Both randint ranges [half, dim - half) are non-empty. */
  predicate HasInterior(t: Tile, patchSize: nat) {
    patchSize / 2 < t.height - patchSize / 2 && patchSize / 2 < t.width - patchSize / 2
  }

  /** What one background attempt adds to the list: its patch when it is
      extracted and has no positive label pixel. */
  function Kept(p: Option<Patch>): (r: seq<Patch>)
    ensures |r| <= 1
    ensures r != [] <==> p.Some? && !AnyPositive(p.value.y)
  {
    if p.Some? && !AnyPositive(p.value.y) then [p.value] else []
  }

  /** Attempt k draws its centre with randint(half, dim - half), row first. */
  function BackgroundCentre(t: Tile, patchSize: nat, draw: nat -> DrawPair, k: nat): (c: PixelCentre)
    requires HasInterior(t, patchSize)
    ensures patchSize / 2 <= c.row < t.height - patchSize / 2
    ensures patchSize / 2 <= c.col < t.width - patchSize / 2
  {
    var half := patchSize / 2;
    PixelCentre(RandInt(half, t.height - half, draw(k).row).value, RandInt(half, t.width - half, draw(k).col).value)
  }

  /** What background attempt k adds: the patch at its drawn centre, when
      that patch is kept. */
  function BackgroundStep(t: Tile, patchSize: nat, draw: nat -> DrawPair, k: nat): seq<Patch>
    requires t.Valid() && HasInterior(t, patchSize)
  {
    var c := BackgroundCentre(t, patchSize, draw, k);
    Kept(ExtractPatch(t, c.row, c.col, patchSize))
  }

  /** The patches kept by the first n background attempts, in order (none
      when n is 0, whatever the tile). */
  function BackgroundKept(t: Tile, patchSize: nat, draw: nat -> DrawPair, n: nat): seq<Patch>
    requires t.Valid() && (n == 0 || HasInterior(t, patchSize))
    decreases n
  {
    if n == 0 then []
    else BackgroundKept(t, patchSize, draw, n - 1) + BackgroundStep(t, patchSize, draw, n - 1)
  }

  /** An attempt whose centre lies in the interior is never out of bounds:
      it is dropped exactly for a missing input cell or a positive label. */
  lemma InteriorAttempt(t: Tile, patchSize: nat, row: int, col: int)
    requires t.Valid()
    requires patchSize / 2 <= row < t.height - patchSize / 2
    requires patchSize / 2 <= col < t.width - patchSize / 2
    ensures var half := patchSize / 2;
      Kept(ExtractPatch(t, row, col, patchSize)) == [] <==>
        (|| WindowHasMissing(t, row - half, col - half, 2 * half)
         || AnyPositive(Crop(t.labels, t.height, t.width, row - half, col - half, 2 * half)))
  {
    ExtractPatchRejects(t, row, col, patchSize);
  }

  /** Every patch the background pass keeps is well formed and free of
      positive label pixels. */
  lemma {:induction false} BackgroundPatchesClean(t: Tile, patchSize: nat, draw: nat -> DrawPair, n: nat)
    requires t.Valid() && (n == 0 || HasInterior(t, patchSize))
    ensures forall p :: p in BackgroundKept(t, patchSize, draw, n) ==>
              WellFormedPatch(p, |t.inputs|, patchSize) && !AnyPositive(p.y)
    decreases n
  {
    if n > 0 {
      BackgroundPatchesClean(t, patchSize, draw, n - 1);
      var c := BackgroundCentre(t, patchSize, draw, n - 1);
      if ExtractPatch(t, c.row, c.col, patchSize).Some? {
        ExtractPatchWellFormed(t, c.row, c.col, patchSize);
      }
    }
  }

  /** More attempts never lose a kept patch: the kept list only grows. */
  lemma {:induction false} BackgroundKeptGrows(t: Tile, patchSize: nat, draw: nat -> DrawPair, m: nat, n: nat)
    requires t.Valid() && m <= n && (n == 0 || HasInterior(t, patchSize))
    ensures BackgroundKept(t, patchSize, draw, m) <= BackgroundKept(t, patchSize, draw, n)
    decreases n
  {
    if m < n {
      BackgroundKeptGrows(t, patchSize, draw, m, n - 1);
      PrefixOfAppend(BackgroundKept(t, patchSize, draw, m), BackgroundKept(t, patchSize, draw, n - 1), BackgroundStep(t, patchSize, draw, n - 1));
    }
  }

  lemma PrefixOfAppend<T>(a: seq<T>, b: seq<T>, c: seq<T>)
    requires a <= b
    ensures a <= b + c
  {
    assert (b + c)[..|b|] == b;
  }

  /** The list the pass returns is determined by the draws: any two attempt
      counts that the loop's exit condition allows give the same list. */
  lemma BackgroundOutcomeDetermined(t: Tile, patchSize: nat, draw: nat -> DrawPair, target: nat, a: nat, b: nat)
    requires t.Valid() && HasInterior(t, patchSize)
    requires a <= 10 * target && |BackgroundKept(t, patchSize, draw, a)| <= target
    requires |BackgroundKept(t, patchSize, draw, a)| == target || a == 10 * target
    requires b <= 10 * target && |BackgroundKept(t, patchSize, draw, b)| <= target
    requires |BackgroundKept(t, patchSize, draw, b)| == target || b == 10 * target
    ensures BackgroundKept(t, patchSize, draw, a) == BackgroundKept(t, patchSize, draw, b)
  {
    if a <= b {
      BackgroundKeptGrows(t, patchSize, draw, a, b);
    } else {
      BackgroundKeptGrows(t, patchSize, draw, b, a);
    }
  }

  datatype BackgroundRun = BackgroundRun(patches: seq<Patch>, attempts: nat)

  /** numpy's ValueError for randint(low, high) with low >= high. */
  datatype SampleError = EmptyDrawRange(low: int, high: int)

  /** The k-th pair of draws: center_row = randint(half, height - half),
      then center_col = randint(half, width - half); the first empty range
      raises. */
  method DrawCentre(t: Tile, patchSize: nat, draw: nat -> DrawPair, k: nat) returns (c: Result<PixelCentre, SampleError>)
    ensures var half := patchSize / 2;
      && (c.Failure? <==> !HasInterior(t, patchSize))
      && (c.Failure? ==>
            c.error == if half >= t.height - half then EmptyDrawRange(half, t.height - half) else EmptyDrawRange(half, t.width - half))
      && (c.Success? ==> c.value == BackgroundCentre(t, patchSize, draw, k))
  {
    var half := patchSize / 2;
    var centerRow := RandInt(half, t.height - half, draw(k).row);
    if centerRow.None? {
      return Failure(EmptyDrawRange(half, t.height - half));
    }
    var centerCol := RandInt(half, t.width - half, draw(k).col);
    if centerCol.None? {
      return Failure(EmptyDrawRange(half, t.width - half));
    }
    return Success(PixelCentre(centerRow.value, centerCol.value));
  }

  /** The body of one background attempt at its drawn centre: extract the
      patch and append it unless it was rejected or has a positive label
      pixel. */
  method BackgroundAttempt(t: Tile, patchSize: nat, draw: nat -> DrawPair, k: nat, centre: PixelCentre, patches: seq<Patch>)
    returns (next: seq<Patch>)
    requires t.Valid() && HasInterior(t, patchSize)
    requires centre == BackgroundCentre(t, patchSize, draw, k)
    requires patches == BackgroundKept(t, patchSize, draw, k)
    ensures next == BackgroundKept(t, patchSize, draw, k + 1)
    ensures |next| <= |patches| + 1
  {
    next := patches;
    var p := ExtractPatch(t, centre.row, centre.col, patchSize);
    if p.Some? && !AnyPositive(p.value.y) {
      next := next + [p.value];
    }
  }

  /** The random-background loop: draw centres until `target` patches are
      kept or 10 * target attempts are spent; falling short is not an
      error.  The only error is an empty randint range.  Every attempt
      draws from the same two ranges, so only the first draw can raise:
      the first iteration is written out here and the remaining ones are
      ContinueBackground. */
  method SampleBackgroundPatches(t: Tile, patchSize: nat, target: nat, draw: nat -> DrawPair)
    returns (r: Result<BackgroundRun, SampleError>)
    requires t.Valid()
    ensures r.Failure? <==> target > 0 && !HasInterior(t, patchSize)
    ensures r.Failure? ==>
      (var half := patchSize / 2;
       r.error == if half >= t.height - half then EmptyDrawRange(half, t.height - half) else EmptyDrawRange(half, t.width - half))
    ensures r.Success? ==>
      var run := r.value;
      && run.attempts <= 10 * target
      && |run.patches| <= target
      && (run.attempts > 0 ==> HasInterior(t, patchSize))
      && run.patches == BackgroundKept(t, patchSize, draw, run.attempts)
      && (|run.patches| == target || run.attempts == 10 * target)
  {
    var maxAttempts := target * 10;
    if !(0 < target && 0 < maxAttempts) {
      return Success(BackgroundRun([], 0));
    }
    var centre := DrawCentre(t, patchSize, draw, 0);
    if centre.Failure? {
      return Failure(centre.error);
    }
    var patches := BackgroundAttempt(t, patchSize, draw, 0, centre.value, []);
    var run := ContinueBackground(t, patchSize, target, draw, patches, 1);
    return Success(run);
  }

  /** The loop from attempt `attempts` on, once the draw ranges are known
      to be non-empty. */
  method ContinueBackground(t: Tile, patchSize: nat, target: nat, draw: nat -> DrawPair, patches0: seq<Patch>, attempts0: nat)
    returns (run: BackgroundRun)
    requires t.Valid() && HasInterior(t, patchSize)
    requires attempts0 <= 10 * target && |patches0| <= target
    requires patches0 == BackgroundKept(t, patchSize, draw, attempts0)
    ensures run.attempts <= 10 * target
    ensures |run.patches| <= target
    ensures run.patches == BackgroundKept(t, patchSize, draw, run.attempts)
    ensures |run.patches| == target || run.attempts == 10 * target
  {
    var patches, attempts := patches0, attempts0;
    var maxAttempts := target * 10;
    while |patches| < target && attempts < maxAttempts
      invariant attempts <= maxAttempts && |patches| <= target
      invariant patches == BackgroundKept(t, patchSize, draw, attempts)
      decreases maxAttempts - attempts
    {
      patches, attempts := BackgroundIteration(t, patchSize, draw, attempts, patches);
    }
    return BackgroundRun(patches, attempts);
  }

  /** One iteration of that loop, which counts the attempt: its draw
      cannot fail, and it adds at most one patch. */
  method BackgroundIteration(t: Tile, patchSize: nat, draw: nat -> DrawPair, k: nat, patches: seq<Patch>)
    returns (next: seq<Patch>, attempts: nat)
    requires t.Valid() && HasInterior(t, patchSize)
    requires patches == BackgroundKept(t, patchSize, draw, k)
    ensures attempts == k + 1
    ensures next == BackgroundKept(t, patchSize, draw, attempts)
    ensures |next| <= |patches| + 1
  {
    attempts := k + 1;
    var centre := DrawCentre(t, patchSize, draw, k);
    if centre.Failure? {
      assert false;
    }
    next := BackgroundAttempt(t, patchSize, draw, k, centre.value, patches);
  }

  /** A 4 x 4 single-band tile with a missing cell at (1, 1): the 2 x 2
      patch centred at (1, 1) covers it and is rejected. */
  lemma MissingCellRejectsPatch()
    ensures
      var v, m := Value(1.0), Missing;
      var band := [[v, v, v, v], [v, m, v, v], [v, v, v, v], [v, v, v, v]];
      var labels := [[0, 0, 0, 0], [0, 0, 0, 0], [0, 0, 0, 0], [0, 0, 0, 0]];
      ExtractPatch(Tile([band], labels, 4, 4), 1, 1, 2) == None
  {
    var v, m := Value(1.0), Missing;
    var band := [[v, v, v, v], [v, m, v, v], [v, v, v, v], [v, v, v, v]];
    var labels := [[0, 0, 0, 0], [0, 0, 0, 0], [0, 0, 0, 0], [0, 0, 0, 0]];
    var t := Tile([band], labels, 4, 4);
    assert t.inputs[0][1][1].Missing?;
    assert WindowHasMissing(t, 0, 0, 2);
    ExtractPatchRejects(t, 1, 1, 2);
  }
}
