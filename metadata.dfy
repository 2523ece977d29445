/** The metadata descriptor stored beside each HUC's patches, and its
    merge over several HUCs' files: global band extremes, averaged means
    and deviations, min-max rules rewritten to the global extremes, summed
    patch counts and the HUC ids read back from the file names.  The merge
    exists in the dataset module and in the model module; the two differ
    only in which piece of the file stem they take as the HUC id. */
module PatchMetadata {
  import opened Common
  import opened Grids
  import opened Patches
  import opened BandLoading
  import opened Normalization
  import opened Naming

  const NumClasses: nat := 5
  const ClassNames: seq<string> := ["Background", "EMW", "FSW", "SSW", "OWW"]

  /** The JSON descriptor.  hucsIncluded is absent (None) in what the patch
      writer stores and present after a merge of several files. */
  datatype Metadata = Metadata(
    inChannels: int,
    numClasses: int,
    patchSize: int,
    bandNames: seq<string>,
    classNames: seq<string>,
    nTrain: int,
    nVal: int,
    bandStats: map<string, BandStats>,
    normalization: map<string, Rule>,
    rasterInputs: seq<SourceConfig>,
    hucsIncluded: Option<seq<string>>)

  // ---------------------------------------------------------------------
  // The descriptor the patch writer stores
  // ---------------------------------------------------------------------

  /** The metadata dict: in_channels is the channel count of the training
      array (shape[1]), which is why the training set must not be empty;
      the split that produces it never leaves it empty. */
  function BuildMetadata(xTrain: seq<Patch>, xVal: seq<Patch>, patchSize: nat, bandNames: seq<string>,
                         bandStats: map<string, BandStats>, normalization: map<string, Rule>,
                         rasterInputs: seq<SourceConfig>): Metadata
    requires |xTrain| >= 1
  {
    Metadata(|xTrain[0].x|, NumClasses, patchSize, bandNames, ClassNames, |xTrain|, |xVal|,
             bandStats, normalization, rasterInputs, None)
  }

  /** The statistics table, the rules resolved over it (configured rule,
      else min-max over the band's own statistics) and the descriptor, as
      the patch writer computes them after the split. */
  function WrittenMetadata(xTrain: seq<Patch>, xVal: seq<Patch>, patchSize: nat, bandNames: seq<string>,
                           channelStats: seq<BandStats>, rasterInputs: seq<SourceConfig>): Metadata
    requires |xTrain| >= 1 && |channelStats| == |bandNames|
  {
    var stats := StatsTable(bandNames, channelStats, |bandNames|);
    StatsTableEntries(bandNames, channelStats, |bandNames|);
    assert forall k :: 0 <= k < |bandNames| ==> bandNames[k] in bandNames[..|bandNames|];
    BuildMetadata(xTrain, xVal, patchSize, bandNames, stats,
                  Resolution(bandNames, NormalizationRules, stats, |bandNames|), rasterInputs)
  }

  /** What the writer stores describes its patches: as many input channels
      as band names, as many classes as class names, the two patch counts,
      statistics and a rule for each band name and for nothing else, and a
      rule for every band that is configured or min-max over its own
      training extremes. */
  lemma WrittenMetadataDescribes(xTrain: seq<Patch>, xVal: seq<Patch>, patchSize: nat, bandNames: seq<string>,
                                 channelStats: seq<BandStats>, rasterInputs: seq<SourceConfig>)
    requires |xTrain| >= 1 && |channelStats| == |bandNames|
    requires WellFormedPatch(xTrain[0], |bandNames|, patchSize)
    ensures var md := WrittenMetadata(xTrain, xVal, patchSize, bandNames, channelStats, rasterInputs);
      && md.inChannels == |md.bandNames|
      && md.numClasses == |md.classNames|
      && md.nTrain == |xTrain| && md.nVal == |xVal|
      && md.hucsIncluded.None?
      && (forall b :: b in md.bandStats <==> b in bandNames)
      && (forall b :: b in md.normalization <==> b in bandNames)
      && forall k :: 0 <= k < |bandNames| ==>
           md.normalization[bandNames[k]] ==
             if bandNames[k] in NormalizationRules then NormalizationRules[bandNames[k]]
             else MinMax(md.bandStats[bandNames[k]].min, md.bandStats[bandNames[k]].max)
  {
    var n := |bandNames|;
    var stats := StatsTable(bandNames, channelStats, n);
    StatsTableEntries(bandNames, channelStats, n);
    assert bandNames[..n] == bandNames;
    assert forall k :: 0 <= k < n ==> bandNames[k] in bandNames[..n];
    ResolutionEntries(bandNames, NormalizationRules, stats, n);
  }

  /** Every patch with one channel per band name can be normalised with
      the stored descriptor: no band name lacks an entry and no rule
      points past the channels. */
  lemma WrittenMetadataNormalizes(xTrain: seq<Patch>, xVal: seq<Patch>, patchSize: nat, bandNames: seq<string>,
                                  channelStats: seq<BandStats>, rasterInputs: seq<SourceConfig>,
                                  x: seq<Grid>, variant: Variant)
    requires |xTrain| >= 1 && |channelStats| == |bandNames| && |x| == |bandNames|
    ensures var md := WrittenMetadata(xTrain, xVal, patchSize, bandNames, channelStats, rasterInputs);
      NormalizeBands(x, md.bandNames, md.normalization, variant, |md.bandNames|).Success?
  {
    var n := |bandNames|;
    var md := WrittenMetadata(xTrain, xVal, patchSize, bandNames, channelStats, rasterInputs);
    var stats := StatsTable(bandNames, channelStats, n);
    StatsTableEntries(bandNames, channelStats, n);
    assert bandNames[..n] == bandNames;
    assert forall k :: 0 <= k < n ==> bandNames[k] in bandNames[..n];
    ResolutionEntries(bandNames, NormalizationRules, stats, n);
    assert forall i :: 0 <= i < n ==> Handled(x, bandNames, md.normalization, i);
    NormalizeBandsSucceeds(x, bandNames, md.normalization, variant, n);
  }

  // ---------------------------------------------------------------------
  // Merging the descriptors of several HUCs
  // ---------------------------------------------------------------------

  datatype MergeError =
    | NoMetadataFiles                // all_metadata[0] of an empty list
    | MissingBandStats(band: string) // a file has no statistics for a band of the first file
    | MissingMergedStats             // a min-max rule for a band outside the first file's band names
    | NoHucSegment(name: string)     // [-2] of a stem with no '_'

  /** How many files a source names: the contents of each, as json.load
      returns them, are an input of the merge, in the order of the
      names. */
  function FileCount(source: MetadataSource): nat {
    match source
    case OneFile(_) => 1
    case SeveralFiles(names) => |names|
  }

  /** The four statistics of a band. */
  datatype Field = MinField | MaxField | MeanField | StdField

  function Pick(s: BandStats, f: Field): real {
    match f
    case MinField => s.min
    case MaxField => s.max
    case MeanField => s.mean
    case StdField => s.std
  }

  /** Every file has statistics for the band ([m["band_stats"][band] for m
      in all_metadata] raises otherwise). */
  predicate HasStats(all: seq<Metadata>, band: string) {
    forall k :: 0 <= k < |all| ==> band in all[k].bandStats
  }

  /** min([m["band_stats"][band][f] for m in all_metadata[:n]]): the
      running value is kept unless a later one is strictly smaller. */
  function FieldMin(all: seq<Metadata>, band: string, f: Field, n: nat): real
    requires 1 <= n <= |all| && HasStats(all, band)
    decreases n
  {
    if n == 1 then Pick(all[0].bandStats[band], f)
    else
      var m := FieldMin(all, band, f, n - 1);
      var v := Pick(all[n - 1].bandStats[band], f);
      if v < m then v else m
  }

  /** max(...) of the same list. */
  function FieldMax(all: seq<Metadata>, band: string, f: Field, n: nat): real
    requires 1 <= n <= |all| && HasStats(all, band)
    decreases n
  {
    if n == 1 then Pick(all[0].bandStats[band], f)
    else
      var m := FieldMax(all, band, f, n - 1);
      var v := Pick(all[n - 1].bandStats[band], f);
      if v > m then v else m
  }

  /** sum(...) of the same list, added left to right. */
  function FieldSum(all: seq<Metadata>, band: string, f: Field, n: nat): real
    requires n <= |all| && HasStats(all, band)
    decreases n
  {
    if n == 0 then 0.0 else FieldSum(all, band, f, n - 1) + Pick(all[n - 1].bandStats[band], f)
  }

  /** The minimum is at most every value of the first n files and is one
      of them; dually for the maximum. */
  lemma {:induction false} FieldExtremes(all: seq<Metadata>, band: string, f: Field, n: nat)
    requires 1 <= n <= |all| && HasStats(all, band)
    ensures forall k :: 0 <= k < n ==> FieldMin(all, band, f, n) <= Pick(all[k].bandStats[band], f) <= FieldMax(all, band, f, n)
    ensures exists k :: 0 <= k < n && FieldMin(all, band, f, n) == Pick(all[k].bandStats[band], f)
    ensures exists k :: 0 <= k < n && FieldMax(all, band, f, n) == Pick(all[k].bandStats[band], f)
    decreases n
  {
    if n > 1 {
      FieldExtremes(all, band, f, n - 1);
    }
  }

  /** Files that agree on a value sum to n times it. */
  lemma {:induction false} FieldSumOfEqual(all: seq<Metadata>, band: string, f: Field, n: nat, v: real)
    requires n <= |all| && HasStats(all, band)
    requires forall k :: 0 <= k < n ==> Pick(all[k].bandStats[band], f) == v
    ensures FieldSum(all, band, f, n) == (n as real) * v
    decreases n
  {
    if n > 0 {
      FieldSumOfEqual(all, band, f, n - 1, v);
    }
  }

  /** merged_stats[band]: the smallest minimum, the largest maximum, and
      the unweighted averages of the means and of the deviations. */
  function CombinedStats(all: seq<Metadata>, band: string): BandStats
    requires |all| >= 1 && HasStats(all, band)
  {
    BandStats(FieldMin(all, band, MinField, |all|), FieldMax(all, band, MaxField, |all|),
              FieldSum(all, band, MeanField, |all|) / (|all| as real),
              FieldSum(all, band, StdField, |all|) / (|all| as real))
  }

  /** The merged minimum is at most every file's minimum and is one of
      them, dually for the maximum; the mean and deviation are the plain
      averages of the files' values. */
  lemma CombinedStatsFacts(all: seq<Metadata>, band: string)
    requires |all| >= 1 && HasStats(all, band)
    ensures var s := CombinedStats(all, band);
      && (forall k :: 0 <= k < |all| ==> s.min <= all[k].bandStats[band].min)
      && (exists k :: 0 <= k < |all| && s.min == all[k].bandStats[band].min)
      && (forall k :: 0 <= k < |all| ==> all[k].bandStats[band].max <= s.max)
      && (exists k :: 0 <= k < |all| && s.max == all[k].bandStats[band].max)
      && s.mean * (|all| as real) == FieldSum(all, band, MeanField, |all|)
      && s.std * (|all| as real) == FieldSum(all, band, StdField, |all|)
  {
    FieldExtremes(all, band, MinField, |all|);
    FieldExtremes(all, band, MaxField, |all|);
  }

  /** Files that agree on a band's statistics merge to those statistics. */
  lemma CombinedStatsOfEqual(all: seq<Metadata>, band: string, s: BandStats)
    requires |all| >= 1 && HasStats(all, band)
    requires forall k :: 0 <= k < |all| ==> all[k].bandStats[band] == s
    ensures CombinedStats(all, band) == s
  {
    FieldExtremes(all, band, MinField, |all|);
    FieldExtremes(all, band, MaxField, |all|);
    FieldSumOfEqual(all, band, MeanField, |all|, s.mean);
    FieldSumOfEqual(all, band, StdField, |all|, s.std);
    DivCancel(|all| as real, s.mean);
    DivCancel(|all| as real, s.std);
  }

  lemma DivCancel(n: real, v: real)
    requires n > 0.0
    ensures (n * v) / n == v
  {
  }

  /** merged_stats after the first n of the first file's band names. */
  function MergeStats(all: seq<Metadata>, names: seq<string>, n: nat): Result<map<string, BandStats>, MergeError>
    requires |all| >= 1 && n <= |names|
    decreases n
  {
    if n == 0 then Success(map[])
    else
      match MergeStats(all, names, n - 1)
      case Failure(e) => Failure(e)
      case Success(t) =>
        var band := names[n - 1];
        if !HasStats(all, band) then Failure(MissingBandStats(band))
        else Success(t[band := CombinedStats(all, band)])
  }

  /** The statistics merge succeeds exactly when every file covers every
      band name, and then holds the combined statistics of each band name
      and nothing else. */
  lemma {:induction false} MergeStatsResult(all: seq<Metadata>, names: seq<string>, n: nat)
    requires |all| >= 1 && n <= |names|
    ensures MergeStats(all, names, n).Success? <==> forall j :: 0 <= j < n ==> HasStats(all, names[j])
    ensures MergeStats(all, names, n).Success? ==>
      && (forall b :: b in MergeStats(all, names, n).value <==> b in names[..n])
      && forall j :: 0 <= j < n ==> MergeStats(all, names, n).value[names[j]] == CombinedStats(all, names[j])
    decreases n
  {
    if n > 0 {
      MergeStatsResult(all, names, n - 1);
      var prev := MergeStats(all, names, n - 1);
      var band := names[n - 1];
      if prev.Success? && HasStats(all, band) {
        var t := prev.value[band := CombinedStats(all, band)];
        assert MergeStats(all, names, n) == Success(t);
        assert names[..n] == names[..n - 1] + [band];
        forall j | 0 <= j < n
          ensures t[names[j]] == CombinedStats(all, names[j])
        {
          if names[j] != band {
            assert t[names[j]] == prev.value[names[j]];
          }
        }
      }
    }
  }

  /** A failed statistics merge names the first band name some file
      lacks. */
  lemma {:induction false} MergeStatsFailure(all: seq<Metadata>, names: seq<string>, n: nat)
    requires |all| >= 1 && n <= |names|
    ensures MergeStats(all, names, n).Failure? ==>
      exists j :: 0 <= j < n && !HasStats(all, names[j]) && (forall i :: 0 <= i < j ==> HasStats(all, names[i]))
        && MergeStats(all, names, n).error == MissingBandStats(names[j])
    decreases n
  {
    if n > 0 {
      MergeStatsFailure(all, names, n - 1);
      var prev := MergeStats(all, names, n - 1);
      if prev.Success? {
        MergeStatsResult(all, names, n - 1);
      }
    }
  }

  /** Once a band name fails, the statistics merge stays failed. */
  lemma {:induction false} MergeStatsSticks(all: seq<Metadata>, names: seq<string>, i: nat, n: nat)
    requires |all| >= 1 && i <= n <= |names| && MergeStats(all, names, i).Failure?
    ensures MergeStats(all, names, n) == MergeStats(all, names, i)
    decreases n
  {
    if n > i {
      MergeStatsSticks(all, names, i, n - 1);
    }
  }

  /** Every min-max rule names a band with merged statistics
      (merged_stats[band] raises otherwise). */
  predicate RewriteDefined(rules: map<string, Rule>, stats: map<string, BandStats>) {
    forall b :: b in rules && rules[b].MinMax? ==> b in stats
  }

  /** The normalization dict after the min-max rules have been given the
      merged extremes. */
  function RewriteMinMax(rules: map<string, Rule>, stats: map<string, BandStats>): map<string, Rule>
    requires RewriteDefined(rules, stats)
  {
    map b | b in rules :: if rules[b].MinMax? then MinMax(stats[b].min, stats[b].max) else rules[b]
  }

  /** The rewrite keeps every band and the kind of every rule, touches no
      rule but min-max, and doing it twice is doing it once. */
  lemma RewriteFacts(rules: map<string, Rule>, stats: map<string, BandStats>)
    requires RewriteDefined(rules, stats)
    ensures var r := RewriteMinMax(rules, stats);
      && r.Keys == rules.Keys
      && (forall b :: b in rules ==> r[b].MinMax? == rules[b].MinMax?)
      && (forall b :: b in rules && !rules[b].MinMax? ==> r[b] == rules[b])
      && RewriteDefined(r, stats)
      && RewriteMinMax(r, stats) == r
  {
    var r := RewriteMinMax(rules, stats);
    assert r.Keys == rules.Keys;
    var rr := RewriteMinMax(r, stats);
    assert rr.Keys == r.Keys;
    assert forall b :: b in r ==> rr[b] == r[b];
  }

  /** A rule that already holds the merged extremes of its band is left as
      it is. */
  lemma RewriteKeepsCurrent(rules: map<string, Rule>, stats: map<string, BandStats>)
    requires RewriteDefined(rules, stats)
    requires forall b :: b in rules && rules[b].MinMax? ==> rules[b] == MinMax(stats[b].min, stats[b].max)
    ensures RewriteMinMax(rules, stats) == rules
  {
    var r := RewriteMinMax(rules, stats);
    assert r.Keys == rules.Keys;
    assert forall b :: b in rules ==> r[b] == rules[b];
  }

  /** The entry of band b once the loop has visited it. */
  predicate Rewritten(b: string, rules: map<string, Rule>, stats: map<string, BandStats>, updated: map<string, Rule>)
    requires b in rules && b in updated
  {
    if rules[b].MinMax? then b in stats && updated[b] == MinMax(stats[b].min, stats[b].max)
    else updated[b] == rules[b]
  }

  /** for band, norm in normalization.items(): if minmax, take the merged
      extremes.  The visiting order is left open; the result does not
      depend on it. */
  method RewriteRules(rules: map<string, Rule>, stats: map<string, BandStats>) returns (r: Option<map<string, Rule>>)
    ensures r.Some? <==> RewriteDefined(rules, stats)
    ensures r.Some? ==> r.value == RewriteMinMax(rules, stats)
  {
    var pending := rules.Keys;
    var updated := rules;
    while pending != {}
      invariant pending <= rules.Keys && updated.Keys == rules.Keys
      invariant forall b :: b in pending ==> updated[b] == rules[b]
      invariant forall b :: b in rules && b !in pending ==> Rewritten(b, rules, stats, updated)
      decreases |pending|
    {
      var band :| band in pending;
      if rules[band].MinMax? {
        if band !in stats {
          return None;
        }
        updated := updated[band := MinMax(stats[band].min, stats[band].max)];
      }
      pending := pending - {band};
    }
    assert RewriteDefined(rules, stats) by {
      forall b | b in rules && rules[b].MinMax?
        ensures b in stats
      {
        assert Rewritten(b, rules, stats, updated);
      }
    }
    var expected := RewriteMinMax(rules, stats);
    assert updated.Keys == expected.Keys;
    forall b | b in updated
      ensures updated[b] == expected[b]
    {
      assert Rewritten(b, rules, stats, updated);
    }
    return Some(updated);
  }

  /** The two patch counts. */
  datatype Part = TrainPart | ValPart

  function Count(m: Metadata, part: Part): int {
    match part
    case TrainPart => m.nTrain
    case ValPart => m.nVal
  }

  /** sum(m[count] for m in all_metadata[:n]) */
  function Total(all: seq<Metadata>, part: Part, n: nat): int
    requires n <= |all|
    decreases n
  {
    if n == 0 then 0 else Total(all, part, n - 1) + Count(all[n - 1], part)
  }

  /** The HUC id of each of the first n files, None where the stem has
      none. */
  function Segments(copy: Copy, names: seq<string>, n: nat): (r: seq<Option<string>>)
    requires n <= |names|
    ensures |r| == n
    decreases n
  {
    if n == 0 then [] else Segments(copy, names, n - 1) + [HucSegment(copy, names[n - 1])]
  }

  lemma {:induction false} SegmentsFacts(copy: Copy, names: seq<string>, n: nat)
    requires n <= |names|
    ensures forall k :: 0 <= k < n ==> Segments(copy, names, n)[k] == HucSegment(copy, names[k])
    decreases n
  {
    if n > 0 {
      SegmentsFacts(copy, names, n - 1);
    }
  }

  /** The ids of the first n files, failing at the first file without
      one. */
  function Collect(segs: seq<Option<string>>, names: seq<string>, n: nat): Result<seq<string>, MergeError>
    requires n <= |segs| && n <= |names|
    decreases n
  {
    if n == 0 then Success([])
    else
      match Collect(segs, names, n - 1)
      case Failure(e) => Failure(e)
      case Success(hs) =>
        match segs[n - 1]
        case None => Failure(NoHucSegment(names[n - 1]))
        case Some(h) => Success(hs + [h])
  }

  lemma {:induction false} CollectResult(segs: seq<Option<string>>, names: seq<string>, n: nat)
    requires n <= |segs| && n <= |names|
    ensures Collect(segs, names, n).Success? <==> forall k :: 0 <= k < n ==> segs[k].Some?
    ensures Collect(segs, names, n).Success? ==>
      && |Collect(segs, names, n).value| == n
      && forall k :: 0 <= k < n ==> Collect(segs, names, n).value[k] == segs[k].value
    decreases n
  {
    if n > 0 {
      CollectResult(segs, names, n - 1);
      var prev := Collect(segs, names, n - 1);
      if prev.Failure? {
        assert Collect(segs, names, n) == prev;
      } else if segs[n - 1].None? {
        assert Collect(segs, names, n) == Failure(NoHucSegment(names[n - 1]));
      } else {
        assert Collect(segs, names, n) == Success(prev.value + [segs[n - 1].value]);
      }
    }
  }

  /** hucs_included: [mf.stem.split("_")[i] for mf in metadata_files]. */
  function HucSegments(copy: Copy, names: seq<string>): Result<seq<string>, MergeError> {
    Collect(Segments(copy, names, |names|), names, |names|)
  }

  /** Reading the ids succeeds exactly when every stem yields one, and
      then lists them file by file. */
  lemma HucSegmentsResult(copy: Copy, names: seq<string>)
    ensures HucSegments(copy, names).Success? <==> forall k :: 0 <= k < |names| ==> HucSegment(copy, names[k]).Some?
    ensures HucSegments(copy, names).Success? ==>
      && |HucSegments(copy, names).value| == |names|
      && forall k :: 0 <= k < |names| ==> HucSegments(copy, names).value[k] == HucSegment(copy, names[k]).value
  {
    SegmentsFacts(copy, names, |names|);
    CollectResult(Segments(copy, names, |names|), names, |names|);
  }

  /** load_and_merge_metadata over the loaded contents of its files: a
      single path is returned as it is loaded; a list is merged onto a
      copy of its first descriptor. */
  function Merge(copy: Copy, source: MetadataSource, loaded: seq<Metadata>): Result<Metadata, MergeError>
    requires |loaded| == FileCount(source)
  {
    match source
    case OneFile(_) => Success(loaded[0])
    case SeveralFiles(names) =>
      if |loaded| == 0 then Failure(NoMetadataFiles)
      else
        var first := loaded[0];
        match MergeStats(loaded, first.bandNames, |first.bandNames|)
        case Failure(e) => Failure(e)
        case Success(stats) =>
          if !RewriteDefined(first.normalization, stats) then Failure(MissingMergedStats)
          else
            match HucSegments(copy, names)
            case Failure(e) => Failure(e)
            case Success(hucs) =>
              Success(first.(bandStats := stats,
                             normalization := RewriteMinMax(first.normalization, stats),
                             nTrain := Total(loaded, TrainPart, |loaded|),
                             nVal := Total(loaded, ValPart, |loaded|),
                             hucsIncluded := Some(hucs)))
  }

  /** The merge of a list succeeds exactly when the list is not empty,
      every file has statistics for every band of the first, every min-max
      rule of the first names one of its bands, and every stem yields a
      HUC id; an empty list fails on its first element. */
  lemma MergeSucceeds(copy: Copy, names: seq<string>, loaded: seq<Metadata>)
    requires |loaded| == |names|
    ensures |names| == 0 ==> Merge(copy, SeveralFiles(names), loaded) == Failure(NoMetadataFiles)
    ensures |names| >= 1 ==>
      var first := loaded[0];
      (Merge(copy, SeveralFiles(names), loaded).Success? <==>
         && (forall j :: 0 <= j < |first.bandNames| ==> HasStats(loaded, first.bandNames[j]))
         && (forall b :: b in first.normalization && first.normalization[b].MinMax? ==> b in first.bandNames)
         && forall k :: 0 <= k < |names| ==> HucSegment(copy, names[k]).Some?)
  {
    if |names| >= 1 {
      var bn := loaded[0].bandNames;
      MergeStatsResult(loaded, bn, |bn|);
      assert bn[..|bn|] == bn;
      HucSegmentsResult(copy, names);
    }
  }

  /** The merged descriptor is the first one with the combined statistics
      of each of its bands and nothing else, its min-max rules moved to
      the combined extremes and its other rules kept. */
  lemma MergedStatistics(copy: Copy, names: seq<string>, loaded: seq<Metadata>)
    requires |loaded| == |names| && Merge(copy, SeveralFiles(names), loaded).Success?
    ensures |names| >= 1
    ensures var first := loaded[0];
      var m := Merge(copy, SeveralFiles(names), loaded).value;
      && m.bandNames == first.bandNames
      && (forall j :: 0 <= j < |first.bandNames| ==> HasStats(loaded, first.bandNames[j]))
      && (forall b :: b in m.bandStats <==> b in first.bandNames)
      && (forall j :: 0 <= j < |first.bandNames| ==>
            m.bandStats[first.bandNames[j]] == CombinedStats(loaded, first.bandNames[j]))
      && m.normalization.Keys == first.normalization.Keys
      && forall b :: b in first.normalization ==>
           m.normalization[b] ==
             if first.normalization[b].MinMax? then MinMax(m.bandStats[b].min, m.bandStats[b].max)
             else first.normalization[b]
  {
    var bn := loaded[0].bandNames;
    MergeStatsResult(loaded, bn, |bn|);
    assert bn[..|bn|] == bn;
  }

  /** Everything else of the merged descriptor is the first file's, except
      the summed counts and the HUC ids, one per file in file order. */
  lemma MergedCounts(copy: Copy, names: seq<string>, loaded: seq<Metadata>)
    requires |loaded| == |names| && Merge(copy, SeveralFiles(names), loaded).Success?
    ensures |names| >= 1
    ensures var first := loaded[0];
      var m := Merge(copy, SeveralFiles(names), loaded).value;
      && m.inChannels == first.inChannels && m.numClasses == first.numClasses
      && m.patchSize == first.patchSize && m.classNames == first.classNames
      && m.rasterInputs == first.rasterInputs
      && m.nTrain == Total(loaded, TrainPart, |loaded|) && m.nVal == Total(loaded, ValPart, |loaded|)
      && m.hucsIncluded.Some? && |m.hucsIncluded.value| == |names|
      && (forall k :: 0 <= k < |names| ==> HucSegment(copy, names[k]).Some?)
      && forall k :: 0 <= k < |names| ==> m.hucsIncluded.value[k] == HucSegment(copy, names[k]).value
  {
    HucSegmentsResult(copy, names);
  }

  /** The model of load_and_merge_metadata, with its two loops. */
  method LoadAndMergeMetadata(copy: Copy, source: MetadataSource, loaded: seq<Metadata>)
    returns (r: Result<Metadata, MergeError>)
    requires |loaded| == FileCount(source)
    ensures r == Merge(copy, source, loaded)
  {
    if source.OneFile? {
      return Success(loaded[0]);
    }
    var files := source.names;
    if |loaded| == 0 {
      return Failure(NoMetadataFiles);
    }
    var merged := loaded[0];
    var bandNames := merged.bandNames;
    var mergedStats: map<string, BandStats> := map[];
    for j := 0 to |bandNames|
      invariant MergeStats(loaded, bandNames, j) == Success(mergedStats)
    {
      var band := bandNames[j];
      if !HasStats(loaded, band) {
        MergeStatsSticks(loaded, bandNames, j + 1, |bandNames|);
        return Failure(MissingBandStats(band));
      }
      mergedStats := mergedStats[band := CombinedStats(loaded, band)];
    }
    var rules := RewriteRules(merged.normalization, mergedStats);
    if rules.None? {
      return Failure(MissingMergedStats);
    }
    var hucs := HucSegments(copy, files);
    if hucs.Failure? {
      return Failure(hucs.error);
    }
    r := Success(merged.(bandStats := mergedStats,
                         normalization := rules.value,
                         nTrain := Total(loaded, TrainPart, |loaded|),
                         nVal := Total(loaded, ValPart, |loaded|),
                         hucsIncluded := Some(hucs.value)));
  }

  // ---------------------------------------------------------------------
  // Properties of the merge
  // ---------------------------------------------------------------------

  /** Merging a one-element list changes nothing of a descriptor whose
      statistics cover its bands and whose min-max rules hold its own
      extremes, except that the HUC id list is added. */
  lemma MergeOfOne(copy: Copy, name: string, m: Metadata)
    requires forall b :: b in m.bandStats <==> b in m.bandNames
    requires forall b :: b in m.normalization && m.normalization[b].MinMax? ==>
      b in m.bandStats && m.normalization[b] == MinMax(m.bandStats[b].min, m.bandStats[b].max)
    requires HucSegment(copy, name).Some?
    ensures Merge(copy, SeveralFiles([name]), [m]) == Success(m.(hucsIncluded := Some([HucSegment(copy, name).value])))
  {
    var all := [m];
    var bn := m.bandNames;
    forall j | 0 <= j < |bn|
      ensures HasStats(all, bn[j])
    {
      assert bn[j] in bn;
    }
    MergeStatsResult(all, bn, |bn|);
    assert bn[..|bn|] == bn;
    assert all[0] == m;
    var stats := MergeStats(all, bn, |bn|).value;
    assert MergeStats(all, bn, |bn|) == Success(stats);
    forall b | b in m.bandStats
      ensures stats[b] == m.bandStats[b]
    {
      var j :| 0 <= j < |bn| && bn[j] == b;
      CombinedStatsOfEqual(all, b, m.bandStats[b]);
    }
    assert stats == m.bandStats;
    RewriteKeepsCurrent(m.normalization, stats);
    var h := HucSegment(copy, name).value;
    HucSegmentsResult(copy, [name]);
    assert [name][0] == name;
    assert HucSegments(copy, [name]).value == [h];
    assert RewriteDefined(m.normalization, stats);
    assert Total(all, TrainPart, 1) == m.nTrain;
    assert Total(all, ValPart, 1) == m.nVal;
    var r := m.(bandStats := stats, normalization := RewriteMinMax(m.normalization, stats),
                nTrain := Total(all, TrainPart, 1), nVal := Total(all, ValPart, 1), hucsIncluded := Some([h]));
    assert r == m.(hucsIncluded := Some([h]));
    assert Merge(copy, SeveralFiles([name]), all) == Success(r);
  }

  /** The merged descriptor still has a rule for every band of the first
      file when the first file had one, so every patch with one channel
      per band name can still be normalised. */
  lemma MergedNormalizes(copy: Copy, names: seq<string>, loaded: seq<Metadata>, x: seq<Grid>, variant: Variant)
    requires |loaded| == |names| && |names| >= 1
    requires forall b :: b in loaded[0].bandNames ==> b in loaded[0].normalization
    requires |x| == |loaded[0].bandNames|
    requires Merge(copy, SeveralFiles(names), loaded).Success?
    ensures var m := Merge(copy, SeveralFiles(names), loaded).value;
      NormalizeBands(x, m.bandNames, m.normalization, variant, |m.bandNames|).Success?
  {
    MergedStatistics(copy, names, loaded);
    var m := Merge(copy, SeveralFiles(names), loaded).value;
    assert forall i :: 0 <= i < |m.bandNames| ==> m.bandNames[i] in m.bandNames;
    assert forall i :: 0 <= i < |m.bandNames| ==> Handled(x, m.bandNames, m.normalization, i);
    NormalizeBandsSucceeds(x, m.bandNames, m.normalization, variant, |m.bandNames|);
  }

  /** The metadata file names the patch writer gives the HUCs, in order. */
  function WrittenMetadataNames(cluster: nat, hucs: seq<string>, n: nat): (r: seq<string>)
    requires n <= |hucs|
    ensures |r| == n
    decreases n
  {
    if n == 0 then [] else WrittenMetadataNames(cluster, hucs, n - 1) + [MetadataFileName(cluster, hucs[n - 1])]
  }

  lemma {:induction false} WrittenMetadataNamesFacts(cluster: nat, hucs: seq<string>, n: nat)
    requires n <= |hucs|
    ensures forall k :: 0 <= k < n ==> WrittenMetadataNames(cluster, hucs, n)[k] == MetadataFileName(cluster, hucs[k])
    decreases n
  {
    if n > 0 {
      WrittenMetadataNamesFacts(cluster, hucs, n - 1);
    }
  }

  /** Over the files the writer produced, the dataset copy records the HUC
      ids, one per file in file order. */
  lemma DatasetMergeFindsHucs(cluster: nat, hucs: seq<string>)
    requires forall k :: 0 <= k < |hucs| ==> IsDigits(hucs[k])
    ensures HucSegments(InDataset, WrittenMetadataNames(cluster, hucs, |hucs|)) == Success(hucs)
  {
    var names := WrittenMetadataNames(cluster, hucs, |hucs|);
    WrittenMetadataNamesFacts(cluster, hucs, |hucs|);
    forall k | 0 <= k < |hucs|
      ensures HucSegment(InDataset, names[k]) == Some(hucs[k])
    {
      HucSegmentOfWritten(cluster, hucs[k]);
    }
    HucSegmentsResult(InDataset, names);
    assert HucSegments(InDataset, names).value == hucs;
  }

  /** Over the same files the model copy records an empty id for each
      file: the piece after the writer's trailing underscore. */
  lemma ModelMergeLosesHucs(cluster: nat, hucs: seq<string>)
    requires forall k :: 0 <= k < |hucs| ==> IsDigits(hucs[k])
    ensures var ids := HucSegments(InModel, WrittenMetadataNames(cluster, hucs, |hucs|));
      && ids.Success?
      && |ids.value| == |hucs|
      && forall k :: 0 <= k < |hucs| ==> ids.value[k] == ""
  {
    var names := WrittenMetadataNames(cluster, hucs, |hucs|);
    WrittenMetadataNamesFacts(cluster, hucs, |hucs|);
    forall k | 0 <= k < |hucs|
      ensures HucSegment(InModel, names[k]) == Some("")
    {
      HucSegmentOfWritten(cluster, hucs[k]);
    }
    HucSegmentsResult(InModel, names);
  }
}
