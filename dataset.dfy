/** The dataset view over stored patch arrays: the arrays of one file, or
    of several files concatenated in list order; its length; and the
    item at an index, copied and, when asked, normalised band by band
    with the descriptor's rules.  The dataset module's copy guards
    constant bands, the learning copy does not and reads one file only. */
module Dataset {
  import opened Common
  import opened Grids
  import opened Patches
  import opened Normalization
  import opened PatchMetadata

  /** The stored arrays: X holds one stack of bands per patch, y one label
      grid per patch. */
  type Inputs = seq<seq<Grid>>
  type Labels = seq<seq<seq<int>>>

  /** What the constructor is given, as np.load returns it: one X file and
      one y file, or lists of them. */
  datatype PatchArrays =
    | OneFile(x: Inputs, y: Labels)
    | FileList(xs: seq<Inputs>, ys: seq<Labels>)

  datatype OpenError = NothingToConcatenate // np.concatenate of an empty list

  datatype GetError =
    | IndexOutOfRange(index: nat)  // X[idx] or y[idx] past the stored patches
    | BadBand(error: ItemError)    // a band name without a rule, or past the channels

  /** np.concatenate(parts, axis=0) of the first n parts. */
  function Concat<T>(parts: seq<seq<T>>, n: nat): seq<T>
    requires n <= |parts|
    decreases n
  {
    if n == 0 then [] else Concat(parts, n - 1) + parts[n - 1]
  }

  /** The number of patches in the first n parts. */
  function TotalLength<T>(parts: seq<seq<T>>, n: nat): nat
    requires n <= |parts|
    decreases n
  {
    if n == 0 then 0 else TotalLength(parts, n - 1) + |parts[n - 1]|
  }

  /** The concatenation is as long as its parts together. */
  lemma {:induction false} ConcatLength<T>(parts: seq<seq<T>>, n: nat)
    requires n <= |parts|
    ensures |Concat(parts, n)| == TotalLength(parts, n)
    decreases n
  {
    if n > 0 {
      ConcatLength(parts, n - 1);
    }
  }

  /** The patches of part k fill the stretch between the patches of the
      parts before it and those of the parts up to and including it. */
  lemma {:induction false} ConcatSlice<T>(parts: seq<seq<T>>, n: nat, k: nat)
    requires k < n <= |parts|
    ensures TotalLength(parts, k + 1) <= |Concat(parts, n)|
    ensures Concat(parts, n)[TotalLength(parts, k)..TotalLength(parts, k + 1)] == parts[k]
    decreases n
  {
    ConcatLength(parts, n - 1);
    if k < n - 1 {
      ConcatSlice(parts, n - 1, k);
      var prefix := Concat(parts, n - 1);
      assert Concat(parts, n)[..|prefix|] == prefix;
    }
  }

  /** The arrays the dataset stores: a list is concatenated in list order,
      X and y each; an empty list leaves nothing to concatenate. */
  function LoadArrays(files: PatchArrays): Result<(Inputs, Labels), OpenError> {
    match files
    case OneFile(x, y) => Success((x, y))
    case FileList(xs, ys) =>
      if |xs| == 0 || |ys| == 0 then Failure(NothingToConcatenate)
      else Success((Concat(xs, |xs|), Concat(ys, |ys|)))
  }

  /** A single file is stored as it is; a list of files loads exactly when
      both lists are non-empty, and then gives as many patches as its files
      hold. */
  lemma LoadArraysFacts(files: PatchArrays)
    ensures files.OneFile? ==> LoadArrays(files) == Success((files.x, files.y))
    ensures files.FileList? ==>
      (LoadArrays(files).Success? <==> |files.xs| >= 1 && |files.ys| >= 1)
    ensures files.FileList? && LoadArrays(files).Success? ==>
      && |LoadArrays(files).value.0| == TotalLength(files.xs, |files.xs|)
      && |LoadArrays(files).value.1| == TotalLength(files.ys, |files.ys|)
  {
    if files.FileList? && LoadArrays(files).Success? {
      ConcatLength(files.xs, |files.xs|);
      ConcatLength(files.ys, |files.ys|);
    }
  }

  /** The patches of file k of a list are stored, in file order, after
      those of the files before it: X and y each. */
  lemma LoadedFile(files: PatchArrays, k: nat)
    requires files.FileList? && LoadArrays(files).Success?
    ensures k < |files.xs| ==>
      var x := LoadArrays(files).value.0;
      TotalLength(files.xs, k + 1) <= |x| && x[TotalLength(files.xs, k)..TotalLength(files.xs, k + 1)] == files.xs[k]
    ensures k < |files.ys| ==>
      var y := LoadArrays(files).value.1;
      TotalLength(files.ys, k + 1) <= |y| && y[TotalLength(files.ys, k)..TotalLength(files.ys, k + 1)] == files.ys[k]
  {
    if k < |files.xs| {
      ConcatSlice(files.xs, |files.xs|, k);
    }
    if k < |files.ys| {
      ConcatSlice(files.ys, |files.ys|, k);
    }
  }

  class WetlandDataset {
    var x: Inputs
    var y: Labels
    var normalize: bool
    var metadata: Metadata
    var bandNames: seq<string>
    var normalization: map<string, Rule>
    const variant: Variant

    /** The attribute assignments of __init__, after the arrays are
        loaded; band names and rules come from the descriptor. */
    constructor (x: Inputs, y: Labels, metadata: Metadata, normalize: bool, variant: Variant)
      ensures this.x == x && this.y == y && this.normalize == normalize && this.metadata == metadata
      ensures this.bandNames == metadata.bandNames && this.normalization == metadata.normalization
      ensures this.variant == variant
    {
      this.x := x;
      this.y := y;
      this.normalize := normalize;
      this.metadata := metadata;
      this.bandNames := metadata.bandNames;
      this.normalization := metadata.normalization;
      this.variant := variant;
    }

    /** The dataset module's __init__: one file or a list of files, with
        the constant-band guard. */
    static method Open(files: PatchArrays, metadata: Metadata, normalize: bool)
      returns (r: Result<WetlandDataset, OpenError>)
      ensures LoadArrays(files).Failure? ==> r == Failure(LoadArrays(files).error)
      ensures LoadArrays(files).Success? ==>
        && r.Success? && fresh(r.value)
        && r.value.x == LoadArrays(files).value.0 && r.value.y == LoadArrays(files).value.1
        && r.value.normalize == normalize && r.value.metadata == metadata
        && r.value.bandNames == metadata.bandNames && r.value.normalization == metadata.normalization
        && r.value.variant == Guarded
    {
      match files
      case OneFile(x, y) =>
        var d := new WetlandDataset(x, y, metadata, normalize, Guarded);
        r := Success(d);
      case FileList(xs, ys) =>
        if |xs| == 0 || |ys| == 0 {
          return Failure(NothingToConcatenate);
        }
        var d := new WetlandDataset(Concat(xs, |xs|), Concat(ys, |ys|), metadata, normalize, Guarded);
        r := Success(d);
    }

    /** The learning module's __init__: exactly one X file and one y file,
        and no constant-band guard. */
    static method OpenSingle(x: Inputs, y: Labels, metadata: Metadata, normalize: bool)
      returns (d: WetlandDataset)
      ensures fresh(d)
      ensures d.x == x && d.y == y && d.normalize == normalize && d.metadata == metadata
      ensures d.bandNames == metadata.bandNames && d.normalization == metadata.normalization
      ensures d.variant == Unguarded
    {
      d := new WetlandDataset(x, y, metadata, normalize, Unguarded);
    }

    /** __len__: the number of stored input patches. */
    function Len(): nat
      reads this
    {
      |x|
    }

    /** __getitem__ as a value: the stored patch and label at idx, the
        patch normalised band by band when normalize is set. */
    function Item(idx: nat): Result<Patch, GetError>
      reads this
    {
      if idx >= |x| || idx >= |y| then Failure(IndexOutOfRange(idx))
      else if !normalize then Success(Patch(x[idx], y[idx]))
      else
        match NormalizeBands(x[idx], bandNames, normalization, variant, |bandNames|)
        case Failure(e) => Failure(BadBand(e))
        case Success(z) => Success(Patch(z, y[idx]))
    }

    /** __getitem__: works on a copy of the stored patch, so the stored
        arrays stay as they are (the method modifies nothing). */
    method Get(idx: nat) returns (r: Result<Patch, GetError>)
      ensures r == Item(idx)
    {
      if idx >= |x| || idx >= |y| {
        return Failure(IndexOutOfRange(idx));
      }
      var patch := x[idx];
      var labelPatch := y[idx];
      if !normalize {
        return Success(Patch(patch, labelPatch));
      }
      var normalized := NormalizePatch(patch, bandNames, normalization, variant);
      if normalized.Failure? {
        return Failure(BadBand(normalized.error));
      }
      r := Success(Patch(normalized.value, labelPatch));
    }
  }

  /** The item exists exactly when idx indexes both arrays and, when
      normalising, every band name is handled; its label is the stored
      label, it has the stored number of channels, and each channel is the
      stored one, rewritten by its band's rule only when normalising. */
  lemma ItemFacts(d: WetlandDataset, idx: nat)
    ensures d.Item(idx).Success? <==>
      idx < |d.x| && idx < |d.y| &&
      (d.normalize ==> forall i :: 0 <= i < |d.bandNames| ==> Handled(d.x[idx], d.bandNames, d.normalization, i))
    ensures d.Item(idx).Success? ==>
      var p := d.Item(idx).value;
      && p.y == d.y[idx]
      && |p.x| == |d.x[idx]|
      && forall k :: 0 <= k < |p.x| ==>
           p.x[k] ==
             if d.normalize && k < |d.bandNames| && d.bandNames[k] in d.normalization && !d.normalization[d.bandNames[k]].Other?
             then NormalizeGrid(d.normalization[d.bandNames[k]], d.variant, d.x[idx][k])
             else d.x[idx][k]
  {
    if idx < |d.x| && idx < |d.y| && d.normalize {
      NormalizeBandsSucceeds(d.x[idx], d.bandNames, d.normalization, d.variant, |d.bandNames|);
      NormalizeBandsResult(d.x[idx], d.bandNames, d.normalization, d.variant, |d.bandNames|);
    }
  }

  /** A dataset whose descriptor has a rule for each band name and whose
      stored patches have one channel per band name yields an item at
      every index both arrays have. */
  lemma ItemsExist(d: WetlandDataset, idx: nat)
    requires forall b :: b in d.bandNames ==> b in d.normalization
    requires forall j :: 0 <= j < |d.x| ==> |d.x[j]| == |d.bandNames|
    requires idx < |d.x| && idx < |d.y|
    ensures d.Item(idx).Success?
  {
    if d.normalize {
      assert forall i :: 0 <= i < |d.bandNames| ==> d.bandNames[i] in d.bandNames;
      assert forall i :: 0 <= i < |d.bandNames| ==> Handled(d.x[idx], d.bandNames, d.normalization, i);
      NormalizeBandsSucceeds(d.x[idx], d.bandNames, d.normalization, d.variant, |d.bandNames|);
    }
  }
}
