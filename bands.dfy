/** Loading the input bands of one HUC tile from the configured raster
    sources: substitute the HUC id into each source's glob pattern, open
    the first match, name its bands (explicit list, raster descriptions, or
    generated names), refuse a count mismatch or a duplicate name, and
    finally stack all bands in the order they were named.  The file system
    is an oracle `Glob` from a pattern to the rasters it matches, in glob
    order, each already read. */
module BandLoading {
  import opened Common
  import opened Grids

  /** One entry of the raster input configuration. */
  datatype SourceConfig = SourceConfig(name: string, pathPattern: string, bands: Option<seq<string>>)

  /** A raster as read: its bands, and rasterio's per-band descriptions
      (None for a band without one). */
  datatype Raster = Raster(data: seq<Grid>, descriptions: seq<Option<string>>)

  type Glob = string -> seq<Raster>

  datatype LoadError =
    | MissingSource(source: string, pattern: string)
    | BandCountMismatch(source: string, names: nat, bands: nat)
    | DuplicateBand(band: string)
    | EmptyStack
    | ShapeMismatch

  const HucPlaceholder: string := "{huc}"

  /** The four configured sources: NAIP and terrain metrics named from their
      descriptions, DEM and CHM named explicitly. */
  const RasterInputs: seq<SourceConfig> := [
    SourceConfig("naip", "Data/NAIP/HUC_NAIP_Processed/*" + HucPlaceholder + "*.tif", None),
    SourceConfig("dem", "Data/TerrainProcessed/HUC_DEMs/*" + HucPlaceholder + ".tif", Some(["dem"])),
    SourceConfig("chm", "Data/CHMs/HUC_CHMs/*" + HucPlaceholder + "*.tif", Some(["chm"])),
    SourceConfig("terrain", "Data/TerrainProcessed/HUC_TerrainMetrics/*" + HucPlaceholder + "*5m.tif", None)
  ]

  // ---------------------------------------------------------------------
  // str.replace
  // ---------------------------------------------------------------------

  /** Python's s.replace(pat, rep): every non-overlapping occurrence of a
      non-empty pat, scanning left to right. */
  function ReplaceAll(s: string, pat: string, rep: string): string
    requires |pat| > 0
    decreases |s|
  {
    if |s| < |pat| then s
    else if s[..|pat|] == pat then rep + ReplaceAll(s[|pat|..], pat, rep)
    else [s[0]] + ReplaceAll(s[1..], pat, rep)
  }

  /** Text without the pattern's first character is copied unchanged. */
  lemma {:induction false} ReplaceSkips(a: string, s: string, pat: string, rep: string)
    requires |pat| > 0 && pat[0] !in a
    ensures ReplaceAll(a + s, pat, rep) == a + ReplaceAll(s, pat, rep)
    decreases |a|
  {
    if |a| > 0 {
      var t := a + s;
      assert t[0] == a[0] && t[0] != pat[0];
      if |t| >= |pat| {
        assert t[..|pat|][0] != pat[0];
      }
      assert t[1..] == a[1..] + s;
      ReplaceSkips(a[1..], s, pat, rep);
      assert [a[0]] + (a[1..] + ReplaceAll(s, pat, rep)) == a + ReplaceAll(s, pat, rep);
    } else {
      assert a + s == s;
    }
  }

  /** A pattern occurring once, between two texts free of its first
      character, is replaced once. */
  lemma SubstituteOnce(a: string, b: string, pat: string, rep: string)
    requires |pat| > 0 && pat[0] !in a && pat[0] !in b
    ensures ReplaceAll(a + pat + b, pat, rep) == a + rep + b
  {
    var t := pat + b;
    assert a + pat + b == a + t;
    ReplaceSkips(a, t, pat, rep);
    assert t[..|pat|] == pat && t[|pat|..] == b;
    ReplaceSkips(b, [], pat, rep);
    assert b + [] == b;
    assert ReplaceAll([], pat, rep) == [];
  }

  /** The glob pattern of a source for one HUC. */
  function SourcePattern(cfg: SourceConfig, huc: string): string {
    ReplaceAll(cfg.pathPattern, HucPlaceholder, huc)
  }

  /** Each configured pattern holds the placeholder once, so the HUC id
      takes its place and the rest of the pattern is kept. */
  lemma ConfiguredPatterns(huc: string)
    ensures SourcePattern(RasterInputs[0], huc) == "Data/NAIP/HUC_NAIP_Processed/*" + huc + "*.tif"
    ensures SourcePattern(RasterInputs[1], huc) == "Data/TerrainProcessed/HUC_DEMs/*" + huc + ".tif"
    ensures SourcePattern(RasterInputs[2], huc) == "Data/CHMs/HUC_CHMs/*" + huc + "*.tif"
    ensures SourcePattern(RasterInputs[3], huc) == "Data/TerrainProcessed/HUC_TerrainMetrics/*" + huc + "*5m.tif"
  {
    PatternOf(RasterInputs[0], "Data/NAIP/HUC_NAIP_Processed/*", "*.tif", huc);
    PatternOf(RasterInputs[1], "Data/TerrainProcessed/HUC_DEMs/*", ".tif", huc);
    PatternOf(RasterInputs[2], "Data/CHMs/HUC_CHMs/*", "*.tif", huc);
    PatternOf(RasterInputs[3], "Data/TerrainProcessed/HUC_TerrainMetrics/*", "*5m.tif", huc);
  }

  lemma PatternOf(cfg: SourceConfig, a: string, b: string, huc: string)
    requires cfg.pathPattern == a + HucPlaceholder + b && '{' !in a && '{' !in b
    ensures SourcePattern(cfg, huc) == a + huc + b
  {
    SubstituteOnce(a, b, HucPlaceholder, huc);
  }

  // ---------------------------------------------------------------------
  // Band names
  // ---------------------------------------------------------------------

  /** `src.descriptions and all(src.descriptions)`: there is at least one
      description and none is None or empty. */
  predicate AllDescribed(ds: seq<Option<string>>) {
    |ds| > 0 && forall j :: 0 <= j < |ds| ==> ds[j].Some? && ds[j].value != ""
  }

  /** list(src.descriptions), for the first n descriptions. */
  function DescriptionNames(ds: seq<Option<string>>, n: nat): seq<string>
    requires n <= |ds| && forall j :: 0 <= j < |ds| ==> ds[j].Some?
    decreases n
  {
    if n == 0 then [] else DescriptionNames(ds, n - 1) + [ds[n - 1].value]
  }

  lemma {:induction false} DescriptionNamesFacts(ds: seq<Option<string>>, n: nat)
    requires n <= |ds| && forall j :: 0 <= j < |ds| ==> ds[j].Some?
    ensures |DescriptionNames(ds, n)| == n
    ensures forall j :: 0 <= j < n ==> Some(DescriptionNames(ds, n)[j]) == ds[j]
    decreases n
  {
    if n > 0 {
      DescriptionNamesFacts(ds, n - 1);
    }
  }

  /** [f"{source}_{j+1}" for j in range(n)]. */
  function GeneratedNames(source: string, n: nat): seq<string>
    decreases n
  {
    if n == 0 then [] else GeneratedNames(source, n - 1) + [source + "_" + NatToString(n)]
  }

  /** The names of a source's bands, from the first of: the configured
      list, the raster's descriptions, generated names. */
  function ResolveNames(cfg: SourceConfig, src: Raster): seq<string> {
    if cfg.bands.Some? then cfg.bands.value
    else if AllDescribed(src.descriptions) then DescriptionNames(src.descriptions, |src.descriptions|)
    else GeneratedNames(cfg.name, |src.data|)
  }

  /** Generated names are "source_1" .. "source_count": one per band, all
      different. */
  lemma {:induction false} GeneratedNamesFacts(source: string, count: nat)
    ensures |GeneratedNames(source, count)| == count
    ensures Distinct(GeneratedNames(source, count))
    ensures forall j :: 0 <= j < count ==> GeneratedNames(source, count)[j] == source + "_" + NatToString(j + 1)
    decreases count
  {
    if count > 0 {
      GeneratedNamesFacts(source, count - 1);
      var prev := GeneratedNames(source, count - 1);
      var x := source + "_" + NatToString(count);
      forall i | 0 <= i < count - 1
        ensures prev[i] != x
      {
        SuffixedNamesDiffer(source, i + 1, count);
      }
      DistinctAppend(prev, x);
    }
  }

  /** Two different numbers give two different generated names. */
  lemma SuffixedNamesDiffer(source: string, a: nat, b: nat)
    requires a != b
    ensures source + "_" + NatToString(a) != source + "_" + NatToString(b)
  {
    var p := source + "_";
    var sa, sb := NatToString(a), NatToString(b);
    NatToStringValue(a);
    NatToStringValue(b);
    assert (p + sa)[|p|..] == sa;
    assert (p + sb)[|p|..] == sb;
  }

  lemma DistinctAppend(a: seq<string>, x: string)
    requires Distinct(a) && forall i :: 0 <= i < |a| ==> a[i] != x
    ensures Distinct(a + [x])
  {
    var b := a + [x];
    forall i, j | 0 <= i < j < |b|
      ensures b[i] != b[j]
    {
      assert b[i] == a[i];
    }
  }

  lemma PrefixCancel(p: string, a: string, b: string)
    requires p + a == p + b
    ensures a == b
  {
    assert a == (p + a)[|p|..];
    assert b == (p + b)[|p|..];
  }

  /** The three sources of names, in order.  Only an explicit list or
      descriptions can disagree with the band count: generated names
      always match it, and are distinct. */
  lemma ResolveNamesCases(cfg: SourceConfig, src: Raster)
    ensures cfg.bands.Some? ==> ResolveNames(cfg, src) == cfg.bands.value
    ensures cfg.bands.None? && AllDescribed(src.descriptions) ==>
      && |ResolveNames(cfg, src)| == |src.descriptions|
      && forall j :: 0 <= j < |src.descriptions| ==> Some(ResolveNames(cfg, src)[j]) == src.descriptions[j]
    ensures cfg.bands.None? && !AllDescribed(src.descriptions) ==>
      && |ResolveNames(cfg, src)| == |src.data|
      && Distinct(ResolveNames(cfg, src))
  {
    if cfg.bands.None? && !AllDescribed(src.descriptions) {
      GeneratedNamesFacts(cfg.name, |src.data|);
    } else if cfg.bands.None? {
      DescriptionNamesFacts(src.descriptions, |src.descriptions|);
    }
  }

  // ---------------------------------------------------------------------
  // The loading loop, as specification functions
  // ---------------------------------------------------------------------

  /** The `bands` dict and the `band_names` list. */
  datatype LoadState = LoadState(bands: map<string, Grid>, names: seq<string>)

  const Empty := LoadState(map[], [])

  /** Storing the first n named bands of one source, raising on a name
      already present. */
  function AddBands(st: LoadState, names: seq<string>, data: seq<Grid>, n: nat): Result<LoadState, LoadError>
    requires |names| == |data| && n <= |names|
    decreases n
  {
    if n == 0 then Success(st)
    else
      match AddBands(st, names, data, n - 1)
      case Failure(e) => Failure(e)
      case Success(s) =>
        if names[n - 1] in s.bands then Failure(DuplicateBand(names[n - 1]))
        else Success(LoadState(s.bands[names[n - 1] := data[n - 1]], s.names + [names[n - 1]]))
  }

  /** One source: glob, take the first match, name its bands, check the
      count, store the bands. */
  function LoadSource(st: LoadState, cfg: SourceConfig, huc: string, glob: Glob): Result<LoadState, LoadError> {
    var pattern := SourcePattern(cfg, huc);
    var matches := glob(pattern);
    if |matches| == 0 then Failure(MissingSource(cfg.name, pattern))
    else
      var src := matches[0];
      var names := ResolveNames(cfg, src);
      if |names| != |src.data| then Failure(BandCountMismatch(cfg.name, |names|, |src.data|))
      else AddBands(st, names, src.data, |names|)
  }

  /** The state after the first n sources, or the first error raised. */
  function LoadSources(configs: seq<SourceConfig>, huc: string, glob: Glob, n: nat): Result<LoadState, LoadError>
    requires n <= |configs|
    decreases n
  {
    if n == 0 then Success(Empty)
    else
      match LoadSources(configs, huc, glob, n - 1)
      case Failure(e) => Failure(e)
      case Success(st) => LoadSource(st, configs[n - 1], huc, glob)
  }

  /** The stacked input: channel k is the band named bandNames[k]. */
  datatype BandStack = BandStack(bandNames: seq<string>, inputs: seq<Grid>, height: nat, width: nat)

  predicate NamesStored(st: LoadState) {
    forall k :: 0 <= k < |st.names| ==> st.names[k] in st.bands
  }

  /** np.vstack([bands[name] for name in band_names]): at least one band,
      and every band the shape of the first. */
  function StackBands(st: LoadState): Result<BandStack, LoadError>
    requires NamesStored(st)
  {
    if |st.names| == 0 then Failure(EmptyStack)
    else
      var first := st.bands[st.names[0]];
      var h := |first|;
      var w := if h == 0 then 0 else |first[0]|;
      if forall k :: 0 <= k < |st.names| ==> IsGrid(st.bands[st.names[k]], h, w) then
        Success(BandStack(st.names, Channels(st, |st.names|), h, w))
      else Failure(ShapeMismatch)
  }

  /** [bands[name] for name in band_names[:n]]. */
  function Channels(st: LoadState, n: nat): seq<Grid>
    requires NamesStored(st) && n <= |st.names|
    decreases n
  {
    if n == 0 then [] else Channels(st, n - 1) + [st.bands[st.names[n - 1]]]
  }

  lemma {:induction false} ChannelsFacts(st: LoadState, n: nat)
    requires NamesStored(st) && n <= |st.names|
    ensures |Channels(st, n)| == n
    ensures forall k :: 0 <= k < n ==> Channels(st, n)[k] == st.bands[st.names[k]]
    decreases n
  {
    if n > 0 {
      ChannelsFacts(st, n - 1);
    }
  }

  /** The whole band-loading step. */
  function LoadAll(configs: seq<SourceConfig>, huc: string, glob: Glob): Result<BandStack, LoadError> {
    match LoadSources(configs, huc, glob, |configs|)
    case Failure(e) => Failure(e)
    case Success(st) =>
      LoadSourcesRecords(configs, huc, glob, |configs|);
      RecordsStored(st, AllNames(configs, huc, glob, |configs|), AllData(configs, huc, glob, |configs|));
      StackBands(st)
  }

  // ---------------------------------------------------------------------
  // What the loop promises
  // ---------------------------------------------------------------------

  /** The names and bands that the first n sources contribute, if each
      opens: the resolved names and the bands of each first match. */
  function SourceNames(cfg: SourceConfig, huc: string, glob: Glob): seq<string> {
    var matches := glob(SourcePattern(cfg, huc));
    if |matches| == 0 then [] else ResolveNames(cfg, matches[0])
  }

  function SourceData(cfg: SourceConfig, huc: string, glob: Glob): seq<Grid> {
    var matches := glob(SourcePattern(cfg, huc));
    if |matches| == 0 then [] else matches[0].data
  }

  function AllNames(configs: seq<SourceConfig>, huc: string, glob: Glob, n: nat): seq<string>
    requires n <= |configs|
    decreases n
  {
    if n == 0 then [] else AllNames(configs, huc, glob, n - 1) + SourceNames(configs[n - 1], huc, glob)
  }

  function AllData(configs: seq<SourceConfig>, huc: string, glob: Glob, n: nat): seq<Grid>
    requires n <= |configs|
    decreases n
  {
    if n == 0 then [] else AllData(configs, huc, glob, n - 1) + SourceData(configs[n - 1], huc, glob)
  }

  /** Source i opens (its pattern matches a file) and its names agree in
      number with its bands. */
  predicate SourceOpens(cfg: SourceConfig, huc: string, glob: Glob) {
    var matches := glob(SourcePattern(cfg, huc));
    |matches| > 0 && |ResolveNames(cfg, matches[0])| == |matches[0].data|
  }

  /** Each of the first n sources opens. */
  predicate AllOpen(configs: seq<SourceConfig>, huc: string, glob: Glob, n: nat)
    requires n <= |configs|
    decreases n
  {
    n == 0 || (AllOpen(configs, huc, glob, n - 1) && SourceOpens(configs[n - 1], huc, glob))
  }

  /** The loop state records exactly the names N, distinct, with band k of
      D stored under N[k]. */
  ghost predicate Records(st: LoadState, names: seq<string>, data: seq<Grid>) {
    && st.names == names
    && |data| == |names|
    && Distinct(names)
    && (forall x :: x in st.bands <==> x in names)
    && (forall k :: 0 <= k < |names| ==> st.bands[names[k]] == data[k])
  }

  /** The errors a source can raise (the stacking errors come later). */
  predicate SourceError(e: LoadError) {
    e.MissingSource? || e.BandCountMismatch? || e.DuplicateBand?
  }

  lemma {:induction false} AddBandsRecords(st: LoadState, names0: seq<string>, data0: seq<Grid>,
                                           names: seq<string>, data: seq<Grid>, n: nat)
    requires |names| == |data| && n <= |names|
    requires Records(st, names0, data0)
    ensures AddBands(st, names, data, n).Success? ==>
      Records(AddBands(st, names, data, n).value, names0 + names[..n], data0 + data[..n])
    ensures AddBands(st, names, data, n).Success? <==> Distinct(names0 + names[..n])
    ensures AddBands(st, names, data, n).Failure? ==> AddBands(st, names, data, n).error.DuplicateBand?
    decreases n
  {
    if n == 0 {
      assert names0 + names[..0] == names0;
      assert data0 + data[..0] == data0;
    } else {
      AddBandsRecords(st, names0, data0, names, data, n - 1);
      var before, after := names0 + names[..n - 1], names0 + names[..n];
      assert after == before + [names[n - 1]];
      assert data0 + data[..n] == (data0 + data[..n - 1]) + [data[n - 1]];
      var x := names[n - 1];
      if AddBands(st, names, data, n - 1).Success? {
        var s := AddBands(st, names, data, n - 1).value;
        if x in s.bands {
          var k :| 0 <= k < |before| && before[k] == x;
          assert after[k] == after[|before|];
        } else {
          forall i, j | 0 <= i < j < |after|
            ensures after[i] != after[j]
          {
            if j == |before| {
              assert after[i] == before[i];
            } else {
              assert after[i] == before[i] && after[j] == before[j];
            }
          }
        }
      } else {
        assert !Distinct(before);
        var i, j :| 0 <= i < j < |before| && before[i] == before[j];
        assert after[i] == after[j];
      }
    }
  }

  /** One source, from a state recording names N and bands D: it succeeds
      exactly when it opens and its names are new and distinct, and then
      records N and D extended by its names and bands. */
  lemma LoadSourceStep(st: LoadState, names0: seq<string>, data0: seq<Grid>, cfg: SourceConfig, huc: string, glob: Glob)
    requires Records(st, names0, data0)
    ensures LoadSource(st, cfg, huc, glob).Success? <==>
      SourceOpens(cfg, huc, glob) && Distinct(names0 + SourceNames(cfg, huc, glob))
    ensures LoadSource(st, cfg, huc, glob).Success? ==>
      Records(LoadSource(st, cfg, huc, glob).value, names0 + SourceNames(cfg, huc, glob), data0 + SourceData(cfg, huc, glob))
    ensures LoadSource(st, cfg, huc, glob).Failure? ==> SourceError(LoadSource(st, cfg, huc, glob).error)
  {
    var matches := glob(SourcePattern(cfg, huc));
    if SourceOpens(cfg, huc, glob) {
      var names, data := ResolveNames(cfg, matches[0]), matches[0].data;
      AddBandsRecords(st, names0, data0, names, data, |names|);
      assert names[..|names|] == names && data[..|data|] == data;
    }
  }

  /** Loading the first n sources either raises a source error or leaves
      the state recording the names and bands of all of them, in source
      order. */
  lemma {:induction false} LoadSourcesRecords(configs: seq<SourceConfig>, huc: string, glob: Glob, n: nat)
    requires n <= |configs|
    ensures LoadSources(configs, huc, glob, n).Success? ==>
      Records(LoadSources(configs, huc, glob, n).value, AllNames(configs, huc, glob, n), AllData(configs, huc, glob, n))
    ensures LoadSources(configs, huc, glob, n).Failure? ==> SourceError(LoadSources(configs, huc, glob, n).error)
    decreases n
  {
    if n > 0 {
      LoadSourcesRecords(configs, huc, glob, n - 1);
      if LoadSources(configs, huc, glob, n - 1).Success? {
        LoadSourceStep(LoadSources(configs, huc, glob, n - 1).value, AllNames(configs, huc, glob, n - 1),
                       AllData(configs, huc, glob, n - 1), configs[n - 1], huc, glob);
      }
    }
  }

  /** Loading the first n sources succeeds exactly when each of them opens
      and all their names are distinct. */
  lemma {:induction false} LoadSourcesSucceeds(configs: seq<SourceConfig>, huc: string, glob: Glob, n: nat)
    requires n <= |configs|
    ensures LoadSources(configs, huc, glob, n).Success? <==>
      AllOpen(configs, huc, glob, n) && Distinct(AllNames(configs, huc, glob, n))
    decreases n
  {
    if n > 0 {
      var m := n - 1;
      LoadSourcesSucceeds(configs, huc, glob, m);
      LoadSourcesRecords(configs, huc, glob, m);
      var before, added := AllNames(configs, huc, glob, m), SourceNames(configs[m], huc, glob);
      assert AllNames(configs, huc, glob, n) == before + added;
      if Distinct(before + added) {
        DistinctPrefix(before, added);
      }
      var prev := LoadSources(configs, huc, glob, m);
      if prev.Success? {
        assert LoadSources(configs, huc, glob, n) == LoadSource(prev.value, configs[m], huc, glob);
        LoadSourceStep(prev.value, before, AllData(configs, huc, glob, m), configs[m], huc, glob);
      } else {
        assert LoadSources(configs, huc, glob, n) == prev;
      }
    }
  }

  lemma RecordsStored(st: LoadState, names: seq<string>, data: seq<Grid>)
    requires Records(st, names, data)
    ensures NamesStored(st)
  {
    forall k | 0 <= k < |st.names|
      ensures st.names[k] in st.bands
    {
      assert st.names[k] in names;
    }
  }

  lemma DistinctPrefix(a: seq<string>, b: seq<string>)
    requires Distinct(a + b)
    ensures Distinct(a)
  {
    forall i, j | 0 <= i < j < |a|
      ensures a[i] != a[j]
    {
      assert (a + b)[i] == a[i] && (a + b)[j] == a[j];
    }
  }

  /** Once a source raises, the loading result is that error. */
  lemma {:induction false} FailureSticks(configs: seq<SourceConfig>, huc: string, glob: Glob, i: nat, n: nat)
    requires i <= n <= |configs| && LoadSources(configs, huc, glob, i).Failure?
    ensures LoadSources(configs, huc, glob, n) == LoadSources(configs, huc, glob, i)
    decreases n
  {
    if n > i {
      FailureSticks(configs, huc, glob, i, n - 1);
    }
  }

  /** A successful load stacks every band of every source, in order, under
      distinct names: the channel count is the name count, and channel k
      is the band named k-th. */
  lemma LoadAllStacks(configs: seq<SourceConfig>, huc: string, glob: Glob)
    requires LoadAll(configs, huc, glob).Success?
    ensures var s := LoadAll(configs, huc, glob).value;
      && s.bandNames == AllNames(configs, huc, glob, |configs|)
      && s.inputs == AllData(configs, huc, glob, |configs|)
      && |s.inputs| == |s.bandNames| >= 1
      && Distinct(s.bandNames)
      && IsStack(s.inputs, s.height, s.width)
  {
    LoadSourcesRecords(configs, huc, glob, |configs|);
    var st := LoadSources(configs, huc, glob, |configs|).value;
    ChannelsFacts(st, |st.names|);
  }

  /** The load fails with EmptyStack or ShapeMismatch only after every source
      opened with distinct names. */
  lemma LoadAllErrors(configs: seq<SourceConfig>, huc: string, glob: Glob)
    ensures LoadAll(configs, huc, glob).Failure? && LoadAll(configs, huc, glob).error in {EmptyStack, ShapeMismatch} ==>
      AllOpen(configs, huc, glob, |configs|) && Distinct(AllNames(configs, huc, glob, |configs|))
    ensures LoadAll(configs, huc, glob) == Failure(EmptyStack) <==>
      AllOpen(configs, huc, glob, |configs|) && AllNames(configs, huc, glob, |configs|) == []
  {
    LoadSourcesRecords(configs, huc, glob, |configs|);
    LoadSourcesSucceeds(configs, huc, glob, |configs|);
  }

  // ---------------------------------------------------------------------
  // The loading loop
  // ---------------------------------------------------------------------

  /** for idx, name in enumerate(names): refuse a name already in `bands`,
      else store the band and append the name. */
  method StoreBands(bands0: map<string, Grid>, bandNames0: seq<string>, names: seq<string>, data: seq<Grid>)
    returns (r: Result<LoadState, LoadError>)
    requires |names| == |data|
    ensures r == AddBands(LoadState(bands0, bandNames0), names, data, |names|)
  {
    var bands, bandNames := bands0, bandNames0;
    var idx := 0;
    while idx < |names|
      invariant idx <= |names|
      invariant AddBands(LoadState(bands0, bandNames0), names, data, idx) == Success(LoadState(bands, bandNames))
    {
      if names[idx] in bands {
        StoreFailureSticks(LoadState(bands0, bandNames0), names, data, idx + 1, |names|);
        return Failure(DuplicateBand(names[idx]));
      }
      bands, bandNames, idx := bands[names[idx] := data[idx]], bandNames + [names[idx]], idx + 1;
    }
    return Success(LoadState(bands, bandNames));
  }

  lemma {:induction false} StoreFailureSticks(st: LoadState, names: seq<string>, data: seq<Grid>, i: nat, n: nat)
    requires |names| == |data| && i <= n <= |names| && AddBands(st, names, data, i).Failure?
    ensures AddBands(st, names, data, n) == AddBands(st, names, data, i)
    decreases n
  {
    if n > i {
      StoreFailureSticks(st, names, data, i, n - 1);
    }
  }

  /** The body of the source loop for source i, which moves on to i + 1. */
  method LoadOneSource(configs: seq<SourceConfig>, huc: string, glob: Glob, i: nat, bands: map<string, Grid>, bandNames: seq<string>)
    returns (r: Result<LoadState, LoadError>, next: nat)
    requires i < |configs|
    requires LoadSources(configs, huc, glob, i) == Success(LoadState(bands, bandNames))
    ensures next == i + 1
    ensures r == LoadSources(configs, huc, glob, next)
  {
    next := i + 1;
    var cfg := configs[i];
    var pattern := ReplaceAll(cfg.pathPattern, HucPlaceholder, huc);
    var matches := glob(pattern);
    if |matches| == 0 {
      return Failure(MissingSource(cfg.name, pattern)), next;
    }
    var src := matches[0];
    var names := ResolveNames(cfg, src);
    if |names| != |src.data| {
      return Failure(BandCountMismatch(cfg.name, |names|, |src.data|)), next;
    }
    r := StoreBands(bands, bandNames, names, src.data);
  }

  /** The band-loading loop and the stacking after it. */
  method LoadBands(configs: seq<SourceConfig>, huc: string, glob: Glob) returns (r: Result<BandStack, LoadError>)
    ensures r == LoadAll(configs, huc, glob)
  {
    var bands: map<string, Grid> := map[];
    var bandNames: seq<string> := [];
    var i := 0;
    while i < |configs|
      invariant i <= |configs|
      invariant LoadSources(configs, huc, glob, i) == Success(LoadState(bands, bandNames))
    {
      var loaded;
      loaded, i := LoadOneSource(configs, huc, glob, i, bands, bandNames);
      if loaded.Failure? {
        FailureSticks(configs, huc, glob, i, |configs|);
        return Failure(loaded.error);
      }
      bands, bandNames := loaded.value.bands, loaded.value.names;
    }
    LoadSourcesRecords(configs, huc, glob, |configs|);
    RecordsStored(LoadState(bands, bandNames), AllNames(configs, huc, glob, |configs|), AllData(configs, huc, glob, |configs|));
    r := StackBands(LoadState(bands, bandNames));
  }
}
