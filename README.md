# Wetland patch pipeline and ED2 job script: a Dafny model

This project models the deterministic logic of a wetland-mapping deep-learning pipeline, and of a namelist-rewriting job script for the ED2 ecosystem model. It proves properties of that model in Dafny.

The modelled parts of the pipeline are:

- **Patch creation** (`patches.dfy`, `bands.dfy`, `normalization.dfy`, `metadata.dfy`, `grids.dfy`):
  - the bands of a HUC (hydrologic unit) tile are loaded from configured raster sources and named;
  - fixed-size patches are cut around jittered wetland polygon centres, plus rejection-sampled background patches;
  - per-band statistics are computed, each band gets a normalisation rule, and the metadata descriptor is assembled.
- **The dataset view** (`dataset.dfy`). It stores patch arrays, from one file or several files concatenated, and normalises each item band by band. There are two copies:
  - one guards constant bands;
  - the other divides by zero.
- **File naming and metadata merging** (`naming.dfy`, `metadata.dfy`):
  - the finder for patch files in legacy, HUC and cluster mode;
  - the merge of several HUCs' descriptors.

  Both exist twice, in the dataset module and in the model module, and the two copies differ. `Naming.Copy` selects one.
- **Training bookkeeping**:
  - the inverse-frequency class weights (`weights.dfy`);
  - the shape bookkeeping of the U-Net's channels and spatial sizes (`unet.dfy`);
  - the history and best/final checkpoint bookkeeping of the epoch loop (`training.dfy`).

The modelled parts of the **ED2 job script** (`ed2in.dfy`) are:

- the run's flag dictionary, a copy of the common flags plus the run's values;
- the line-by-line rewrite of the ED2IN namelist;
- the batch command and option strings.

## How the model is built

Values are datatypes, and pure computations are functions. Code that fills lists and dicts in loops becomes a method with a loop, proved equal to a specification function:

- the band-loading loop (`BandLoading.LoadBands`);
- both sampling passes;
- the statistics and rule loops;
- the merge (`PatchMetadata.LoadAndMergeMetadata`);
- the per-band loop of `__getitem__` (`Normalization.NormalizePatch`);
- the epoch loop (`Training.Train`);
- the ED2IN rewrite (`Ed2in.RewriteFile`).

Objects whose fields are set in place are classes:

- the dataset (`Dataset.WetlandDataset`);
- the flag dict that is copied and then updated key by key (`Ed2in.FlagTable`).

Other modelling choices:

- **Arithmetic is exact.** Numbers are `real`. A raster's NaN and the inf/NaN that numpy produces on a division by zero are both the cell `Missing` (`Grids.Cell`), so a zero divisor is not an exception.
- **Randomness is an oracle.** The parameter `draw: nat -> DrawPair` gives the raw row and column draws of each attempt. One draw becomes `randint(low, high)` by clamping it into the range:
  - every draw gives a legal value;
  - every value of the range is reachable;
  - an empty range is numpy's ValueError.
- **File contents are inputs.** The glob result is a listing of file names. A raster is its bands and descriptions. A JSON file is its decoded `Metadata`. An `.npy` file is its array.

Behaviour of the code that its docstrings and comments leave unsaid, as the model has it:

- **Guarded minmax.** The guarded dataset copy gives 0.0 whenever `max - min` is not positive (Python_Code_Analysis/DL_Implement/NYS_04_dataset.py:80-83). That includes `max < min`, not only a constant band.
- **List of one descriptor.** Only a single path is passed through (Python_Code_Analysis/DL_Implement/NYS_04_dataset.py:145-148). A list holding one path is merged, which adds `hucs_included` (`PatchMetadata.MergeOfOne`).
- **Empty list.** An empty list raises IndexError at `all_metadata[0]` (Python_Code_Analysis/DL_Implement/NYS_04_dataset.py:157).
- **Band-set check.** The merge does not check that the descriptors share their band sets (Python_Code_Analysis/DL_Implement/NYS_04_dataset.py:163-167):
  - a file that lacks statistics for a band of the first file raises KeyError;
  - extra bands in later files are ignored.
- **Cluster-mode key.** In cluster mode the finder returns the metadata list under the key `metadata_files` (Python_Code_Analysis/DL_Implement/NYS_04_dataset.py:134), where the other modes use `metadata`. The model's `MetadataSource` records which of the two kinds of entry is present.

## Model

| member | source | states |
|---|---|---|
| Common.NatToString | Python_Code_Analysis/DL_Implement/NYS_03_create_patches_v2.py:192 | the rendering is decimal digits that denote n, with no leading zero, one character long exactly for numbers below 10 |
| Common.NatToStringValue | Python_Code_Analysis/DL_Implement/NYS_03_create_patches_v2.py:192 | reading the digits of the rendering back as a decimal number gives n |
| Common.NatToStringInjective | Python_Code_Analysis/DL_Implement/NYS_03_create_patches_v2.py:192 | two numbers with the same rendering are equal, so generated suffixes `_1`, `_2`, … differ |
| Common.IntToString | Python_Code_Analysis/test_ifort.py:287 | str(i) starts with '-' exactly for a negative i; the digits after the sign denote the magnitude of i |
| Common.IntToStringInjective | Python_Code_Analysis/test_ifort.py:287 | two integers with the same str() are equal, so a rewritten flag line determines its numeric value |
| Common.Split | Python_Code_Analysis/test_ifort.py:283 | str.split(c) gives at least one piece, and no piece contains c |
| Common.SplitJoin | Python_Code_Analysis/test_ifort.py:283 | splitting a join on a separator that no piece contains gives the pieces back |
| Common.JoinSplit | Python_Code_Analysis/DL_Implement/NYS_04_dataset.py:187 | joining the pieces of a split with the separator gives the string back |
| Common.SplitAppend | Python_Code_Analysis/test_ifort.py:303 | splitting `a + c + b` on c gives the pieces of a followed by the pieces of b |
| Common.MinOf | Python_Code_Analysis/DL_Implement/NYS_05_unet_model.py:299 | min() of a non-empty list is at most every entry and is one of them |
| Grids.CropFacts | Python_Code_Analysis/DL_Implement/NYS_03_create_patches_v2.py:142-143 | the slice `g[r0:r0+n, c0:c0+n]` is n by n, and its cell (i, j) is the grid's (r0+i, c0+j) |
| Patches.CropStackFacts | Python_Code_Analysis/DL_Implement/NYS_03_create_patches_v2.py:142 | the input crop has one n×n band per channel, cell for cell the window of that channel |
| Patches.CropMissing | Python_Code_Analysis/DL_Implement/NYS_03_create_patches_v2.py:145-147 | the crop holds a missing cell exactly when the tile's window does |
| Patches.CropIsWindow | Python_Code_Analysis/DL_Implement/NYS_03_create_patches_v2.py:142-143 | the input crop and the label crop are the same window: they are co-registered |
| Patches.ExtractPatchRejects | Python_Code_Analysis/DL_Implement/NYS_03_create_patches_v2.py:129-147 | extract_patch returns None exactly when the row or column window starts before 0, ends past height or width, or holds a missing input cell |
| Patches.ExtractPatchWindow | Python_Code_Analysis/DL_Implement/NYS_03_create_patches_v2.py:141-149 | an accepted patch lies inside the tile, is the window [r-half, r+half) × [c-half, c+half) of every channel and of the labels, and has no missing cell |
| Patches.ExtractPatchWellFormed | Python_Code_Analysis/DL_Implement/NYS_03_create_patches_v2.py:141-149 | an accepted patch has C channels of 2·half × 2·half cells, a 2·half × 2·half label crop, and no missing cell |
| Patches.MissingCellRejectsPatch | Python_Code_Analysis/DL_Implement/NYS_03_create_patches_v2.py:145-147 | in a 4×4 tile with a missing cell at (1, 1), the 2×2 patch centred there is rejected |
| Patches.RandInt | Python_Code_Analysis/DL_Implement/NYS_03_create_patches_v2.py:240-241 | randint(low, high) gives a value in [low, high) exactly when low < high, and otherwise raises |
| Patches.JitterOffset | Python_Code_Analysis/DL_Implement/NYS_03_create_patches_v2.py:240-241 | the jitter on each axis lies in [-max_offset, max_offset] |
| Patches.SamplePolygonPatches | Python_Code_Analysis/DL_Implement/NYS_03_create_patches_v2.py:227-252 | the polygon loop returns the patches kept from all polygons in order, and the number skipped |
| Patches.PolygonIteration | Python_Code_Analysis/DL_Implement/NYS_03_create_patches_v2.py:231-252 | one polygon step extends the kept list and the skip count by that polygon's outcome |
| Patches.PolygonAccounting | Python_Code_Analysis/DL_Implement/NYS_03_create_patches_v2.py:248-252 | kept + skipped equals the number of polygons tried |
| Patches.PolygonPatchesWellFormed | Python_Code_Analysis/DL_Implement/NYS_03_create_patches_v2.py:246-250 | every patch the polygon pass keeps is missing-free and of the patch shape |
| Patches.Kept | Python_Code_Analysis/DL_Implement/NYS_03_create_patches_v2.py:270-275 | a background attempt adds at most one patch, and adds one exactly when the patch was extracted and has no positive label pixel |
| Patches.BackgroundCentre | Python_Code_Analysis/DL_Implement/NYS_03_create_patches_v2.py:265-266 | a drawn background centre lies in [half, height-half) × [half, width-half) |
| Patches.InteriorAttempt | Python_Code_Analysis/DL_Implement/NYS_03_create_patches_v2.py:265-275 | an interior centre never fails the bounds check: the attempt is dropped exactly for a missing input cell or a positive label pixel |
| Patches.BackgroundPatchesClean | Python_Code_Analysis/DL_Implement/NYS_03_create_patches_v2.py:270-275 | every kept background patch is well formed and has no label pixel > 0 |
| Patches.BackgroundKeptGrows | Python_Code_Analysis/DL_Implement/NYS_03_create_patches_v2.py:262-275 | more attempts never lose a kept patch: the kept list after m attempts is a prefix of the list after n ≥ m |
| Patches.BackgroundOutcomeDetermined | Python_Code_Analysis/DL_Implement/NYS_03_create_patches_v2.py:262 | any two attempt counts at which the loop may stop give the same list of patches |
| Patches.DrawCentre | Python_Code_Analysis/DL_Implement/NYS_03_create_patches_v2.py:265-266 | drawing a centre fails exactly when a draw range is empty, and reports the first empty range; otherwise it gives the attempt's centre |
| Patches.BackgroundAttempt | Python_Code_Analysis/DL_Implement/NYS_03_create_patches_v2.py:268-275 | one attempt at the drawn centre extends the kept list by that attempt's outcome |
| Patches.SampleBackgroundPatches | Python_Code_Analysis/DL_Implement/NYS_03_create_patches_v2.py:257-277 | the loop fails only on an empty draw range when patches are wanted; otherwise it stops with at most target patches and at most 10·target attempts, having reached one of the two, holding the patches kept by those attempts; falling short is not an error |
| Patches.ContinueBackground | Python_Code_Analysis/DL_Implement/NYS_03_create_patches_v2.py:262-275 | the rest of the loop keeps count ≤ target and attempts ≤ 10·target, and stops when one is reached |
| Patches.BackgroundIteration | Python_Code_Analysis/DL_Implement/NYS_03_create_patches_v2.py:262-275 | one counted attempt adds at most one patch, and the list is the one kept by the attempts so far |
| BandLoading.SubstituteOnce | Python_Code_Analysis/DL_Implement/NYS_03_create_patches_v2.py:167 | a placeholder occurring once is replaced by the HUC id, and the text around it is kept |
| BandLoading.ConfiguredPatterns | Python_Code_Analysis/DL_Implement/NYS_03_create_patches_v2.py:74-95 | each of the four configured patterns becomes its directory and suffix with the HUC id in place of `{huc}` |
| BandLoading.DescriptionNamesFacts | Python_Code_Analysis/DL_Implement/NYS_03_create_patches_v2.py:187-189 | names read from descriptions are the descriptions, one per band, in order |
| BandLoading.GeneratedNamesFacts | Python_Code_Analysis/DL_Implement/NYS_03_create_patches_v2.py:190-192 | generated names are `source_1` … `source_count`: one per band, all different |
| BandLoading.SuffixedNamesDiffer | Python_Code_Analysis/DL_Implement/NYS_03_create_patches_v2.py:192 | two different band numbers give two different generated names `<source>_<j>` |
| BandLoading.ResolveNamesCases | Python_Code_Analysis/DL_Implement/NYS_03_create_patches_v2.py:183-192 | the explicit list wins; otherwise, when every description is present and non-empty, the descriptions; otherwise generated names, which always match the band count and are distinct |
| BandLoading.AddBandsRecords | Python_Code_Analysis/DL_Implement/NYS_03_create_patches_v2.py:201-206 | storing a source's bands succeeds exactly when the names so far stay distinct, and then records every name with its band, in order; the only failure is a duplicate name |
| BandLoading.StoreBands | Python_Code_Analysis/DL_Implement/NYS_03_create_patches_v2.py:201-206 | the inner loop over (idx, name) computes exactly that store-or-raise result |
| BandLoading.StoreFailureSticks | Python_Code_Analysis/DL_Implement/NYS_03_create_patches_v2.py:202-204 | once a duplicate is found, the inner loop's result is that error |
| BandLoading.LoadSourceStep | Python_Code_Analysis/DL_Implement/NYS_03_create_patches_v2.py:165-206 | one source succeeds exactly when its pattern matches a file, its name count equals its band count, and its names are new and distinct; it then records the old names and bands extended by its own |
| BandLoading.LoadSourcesRecords | Python_Code_Analysis/DL_Implement/NYS_03_create_patches_v2.py:165-206 | after the first n sources, the state records the names and bands of all of them in source order, or the error is a source error (missing file, count mismatch, duplicate) |
| BandLoading.LoadSourcesSucceeds | Python_Code_Analysis/DL_Implement/NYS_03_create_patches_v2.py:165-206 | loading n sources succeeds exactly when each opens with matching counts and all their names are distinct |
| BandLoading.FailureSticks | Python_Code_Analysis/DL_Implement/NYS_03_create_patches_v2.py:170-204 | the first error raised by a source is the result of the whole loop |
| BandLoading.LoadOneSource | Python_Code_Analysis/DL_Implement/NYS_03_create_patches_v2.py:165-206 | the body of the source loop moves from the state after source i to the state after source i+1 |
| BandLoading.ChannelsFacts | Python_Code_Analysis/DL_Implement/NYS_03_create_patches_v2.py:219 | `[bands[name] for name in band_names]` has one band per name, and channel k is the band named k-th |
| BandLoading.LoadAllStacks | Python_Code_Analysis/DL_Implement/NYS_03_create_patches_v2.py:218-220 | a successful load stacks every band of every source in load order under distinct names; the channel count equals the name count, and every channel has the tile's height and width |
| BandLoading.LoadAllErrors | Python_Code_Analysis/DL_Implement/NYS_03_create_patches_v2.py:219 | an empty stack or a shape mismatch arises only after every source opened with distinct names; the stack is empty exactly when no source named a band |
| BandLoading.LoadBands | Python_Code_Analysis/DL_Implement/NYS_03_create_patches_v2.py:160-220 | the band-loading loop and the stacking compute exactly the specified load |
| Normalization.StatsTableEntries | Python_Code_Analysis/DL_Implement/NYS_03_create_patches_v2.py:308-316 | band_stats has an entry for each band name and no other; with distinct names, band j's entry is channel j's statistics |
| Normalization.ComputeBandStats | Python_Code_Analysis/DL_Implement/NYS_03_create_patches_v2.py:308-316 | the statistics loop builds exactly that table |
| Normalization.ResolutionEntries | Python_Code_Analysis/DL_Implement/NYS_03_create_patches_v2.py:320-331 | every band name gets exactly one rule and nothing else gets one; a configured rule is copied as it is, and any other band gets minmax with its own training min and max |
| Normalization.ResolveNormalization | Python_Code_Analysis/DL_Implement/NYS_03_create_patches_v2.py:320-331 | the rule loop builds exactly that dict |
| Normalization.Div | Python_Code_Analysis/DL_Implement/NYS_04_dataset.py:74 | a division gives a finite value exactly when the cell is finite and the divisor non-zero, and that value times the divisor is the cell |
| Normalization.NormalizeGridFacts | Python_Code_Analysis/DL_Implement/NYS_04_dataset.py:73-83 | a band keeps its shape under every rule, and each cell is rewritten on its own |
| Normalization.DivideAndShiftScale | Python_Code_Analysis/DL_Implement/NYS_04_dataset.py:73-76 | divide maps x to x / value, and shift_scale maps x to (x + shift) / scale; a zero divisor or a missing cell gives a non-finite cell |
| Normalization.MinMaxInUnitRange | Python_Code_Analysis/DL_Implement/NYS_04_dataset.py:77-81 | with max - min > 0, minmax maps x to (x - min) / (max - min) in both copies, and x in [min, max] lands in [0, 1] |
| Normalization.GuardedConstantBand | Python_Code_Analysis/DL_Implement/NYS_04_dataset.py:80-83 | in the guarded copy, a band with max - min ≤ 0 becomes 0.0 in every cell, missing ones included, with no division |
| Normalization.UnguardedConstantBand | Python_Code_Analysis/DL_Learning/_04_dataset.py:56-59 | in the unguarded copy, a constant band (max == min) becomes non-finite in every cell |
| Normalization.VariantsAgree | Python_Code_Analysis/DL_Learning/_04_dataset.py:52-59 | the two copies agree on every rule except minmax with a range that is not positive |
| Normalization.OtherKeepsBand | Python_Code_Analysis/DL_Learning/_04_dataset.py:48-59 | a rule of any other type leaves the band as it is |
| Normalization.NormalizeInverts | Python_Code_Analysis/DL_Implement/NYS_04_dataset.py:73-81 | a rule with a non-zero divisor (and, when guarded, a positive range) can be undone exactly |
| Normalization.NormalizeBandsSucceeds | Python_Code_Analysis/DL_Implement/NYS_04_dataset.py:69-83 | the per-band loop succeeds exactly when every band name has an entry and every rule other than an unknown type names an existing channel |
| Normalization.NormalizeBandsResult | Python_Code_Analysis/DL_Implement/NYS_04_dataset.py:69-83 | on success the patch keeps its channel count; channel k is rewritten by band k's rule unless that rule is of an unknown type, and every channel past the band names is kept |
| Normalization.NormalizeFailureSticks | Python_Code_Analysis/DL_Implement/NYS_04_dataset.py:70-71 | the first band name that fails decides the loop's error |
| Normalization.NormalizePatch | Python_Code_Analysis/DL_Implement/NYS_04_dataset.py:66-83 | the in-place loop on the copy computes exactly the specified per-band rewrite |
| PatchMetadata.WrittenMetadataDescribes | Python_Code_Analysis/DL_Implement/NYS_03_create_patches_v2.py:335-346 | the stored descriptor has in_channels equal to the number of band names, num_classes equal to the number of class names, and the two patch counts; it has statistics and a rule for each band name and no other, each rule configured or minmax over the band's own extremes, and no hucs_included |
| PatchMetadata.WrittenMetadataNormalizes | Python_Code_Analysis/DL_Implement/NYS_03_create_patches_v2.py:320-346 | every patch with one channel per band name can be normalised with the stored descriptor, in either copy |
| PatchMetadata.WrittenMetadataNamesFacts | Python_Code_Analysis/DL_Implement/NYS_03_create_patches_v2.py:348 | the k-th metadata file written is `cluster_{c}_metadata_{huc_k}_.json` |
| PatchMetadata.FieldExtremes | Python_Code_Analysis/DL_Implement/NYS_04_dataset.py:164-171 | min() of the per-file values is at most each of them and is one of them, and dually for max() |
| PatchMetadata.CombinedStatsFacts | Python_Code_Analysis/DL_Implement/NYS_04_dataset.py:163-174 | the merged min is the least per-file min and the merged max the greatest per-file max; the merged mean and std are the unweighted averages |
| PatchMetadata.CombinedStatsOfEqual | Python_Code_Analysis/DL_Implement/NYS_04_dataset.py:169-174 | files that agree on a band's statistics merge to exactly those statistics, so a self-merge changes nothing |
| PatchMetadata.MergeStatsResult | Python_Code_Analysis/DL_Implement/NYS_04_dataset.py:159-176 | merged_stats exists exactly when every file has statistics for every band of the first file, and then holds the combined statistics of each such band and nothing else |
| PatchMetadata.MergeStatsFailure | Python_Code_Analysis/DL_Implement/NYS_04_dataset.py:163-167 | a failed statistics merge raises for the first band that some file lacks |
| PatchMetadata.RewriteFacts | Python_Code_Analysis/DL_Implement/NYS_04_dataset.py:178-182 | the rewrite keeps every band and every rule's type, touches only minmax rules, and is idempotent |
| PatchMetadata.RewriteKeepsCurrent | Python_Code_Analysis/DL_Implement/NYS_04_dataset.py:178-182 | minmax rules that already hold the merged extremes are left as they are |
| PatchMetadata.RewriteRules | Python_Code_Analysis/DL_Implement/NYS_04_dataset.py:178-182 | the loop over normalization.items() fails exactly when a minmax band has no merged statistics, and otherwise gives the rewritten rules whatever order it visits them in |
| PatchMetadata.HucSegmentsResult | Python_Code_Analysis/DL_Implement/NYS_04_dataset.py:187 | hucs_included exists exactly when every stem yields an id, and it lists them file by file |
| PatchMetadata.MergeSucceeds | Python_Code_Analysis/DL_Implement/NYS_04_dataset.py:150-187 | merging a list fails on an empty list, and otherwise succeeds exactly when every file covers the first file's bands, every minmax rule names one of them, and every stem yields an id |
| PatchMetadata.MergedStatistics | Python_Code_Analysis/DL_Implement/NYS_05_unet_model.py:76-102 | the merged descriptor keeps the first file's band names, holds the combined statistics of each band, moves its minmax rules to the combined extremes, and keeps its other rules |
| PatchMetadata.MergedCounts | Python_Code_Analysis/DL_Implement/NYS_04_dataset.py:184-187 | every other field is the first file's, except that n_train and n_val are summed over the files and hucs_included has one id per file, in file order |
| PatchMetadata.LoadAndMergeMetadata | Python_Code_Analysis/DL_Implement/NYS_04_dataset.py:138-189 | the merge with its two loops computes exactly the specified merge: a single path passes through, and a list is merged onto a copy of its first descriptor |
| PatchMetadata.MergeOfOne | Python_Code_Analysis/DL_Implement/NYS_04_dataset.py:150-189 | merging a list of one consistent descriptor changes nothing but adding its HUC id |
| PatchMetadata.MergedNormalizes | Python_Code_Analysis/DL_Implement/NYS_04_dataset.py:176-182 | after a merge, every patch with one channel per band name can still be normalised |
| PatchMetadata.DatasetMergeFindsHucs | Python_Code_Analysis/DL_Implement/NYS_04_dataset.py:187 | over the files the writer produced, the dataset copy records the HUC ids in file order |
| PatchMetadata.ModelMergeLosesHucs | Python_Code_Analysis/DL_Implement/NYS_05_unet_model.py:107 | over the same files, the model copy records an empty id for every file |
| Naming.LiteralMatch | Python_Code_Analysis/DL_Implement/NYS_04_dataset.py:112-116 | a glob pattern without `*` matches exactly itself |
| Naming.WildcardMatch | Python_Code_Analysis/DL_Implement/NYS_04_dataset.py:120-124 | `a*b` matches a, then any text, then b |
| Naming.GlobNamesCount | Python_Code_Analysis/DL_Implement/NYS_04_dataset.py:120-124 | the glob keeps each matching name as often as the directory lists it, and nothing else |
| Naming.GlobNamesMembers | Python_Code_Analysis/DL_Implement/NYS_04_dataset.py:120-124 | a name is globbed exactly when it is listed and matches |
| Naming.GlobNone | Python_Code_Analysis/DL_Implement/NYS_04_dataset.py:126-127 | a listing with no match globs to the empty list |
| Naming.GlobLiteral | Python_Code_Analysis/DL_Implement/NYS_04_dataset.py:112-116 | a literal pattern present once globs to that one name |
| Naming.StrLeTotal | Python_Code_Analysis/DL_Implement/NYS_04_dataset.py:120 | string order, by code point, is total |
| Naming.StrLeTrans | Python_Code_Analysis/DL_Implement/NYS_04_dataset.py:120 | string order is transitive |
| Naming.StrLeAntisymmetric | Python_Code_Analysis/DL_Implement/NYS_04_dataset.py:120 | string order is antisymmetric |
| Naming.SortNamesFacts | Python_Code_Analysis/DL_Implement/NYS_04_dataset.py:120-124 | sorted() gives a permutation of its input, in order |
| Naming.SortedUnique | Python_Code_Analysis/DL_Implement/NYS_04_dataset.py:120-124 | two sorted lists holding the same names are equal |
| Naming.SortOrderIndependent | Python_Code_Analysis/DL_Implement/NYS_04_dataset.py:120-124 | sorted() does not depend on the order of its input |
| Naming.LegacyMode | Python_Code_Analysis/DL_Implement/NYS_04_dataset.py:98-106 | without a cluster id both copies return the fixed names, whatever the directory holds |
| Naming.DatasetHucModeFindsWritten | Python_Code_Analysis/DL_Implement/NYS_04_dataset.py:108-117 | in HUC mode the dataset copy finds exactly the five files the writer wrote for that HUC |
| Naming.ModelHucModeMissesMetadata | Python_Code_Analysis/DL_Implement/NYS_05_unet_model.py:29-37 | in HUC mode the model copy never finds a metadata file among written names, so it raises |
| Naming.HucModeDiscrepancy | Python_Code_Analysis/DL_Implement/NYS_05_unet_model.py:36 | the same directory, cluster 208 and HUC 041201010101: the dataset copy succeeds and the model copy raises |
| Naming.NamesDiffer | Python_Code_Analysis/DL_Implement/NYS_03_create_patches_v2.py:301-304 | the five names written for one HUC are pairwise different |
| Naming.ClusterModeResult | Python_Code_Analysis/DL_Implement/NYS_04_dataset.py:119-135 | cluster mode succeeds exactly when some X_train file matches; every list then holds exactly the matching names, sorted |
| Naming.ClusterModeOrderIndependent | Python_Code_Analysis/DL_Implement/NYS_04_dataset.py:119-135 | cluster mode gives the same result for any order of the directory listing |
| Naming.ClusterPatternMatchesWritten | Python_Code_Analysis/DL_Implement/NYS_04_dataset.py:120-124 | each of a cluster's globs matches every file written for that cluster, whatever the HUC |
| Naming.LastDot | Python_Code_Analysis/DL_Implement/NYS_04_dataset.py:187 | the index is the position of the last '.' (no '.' follows it), or -1 exactly when the name holds no '.' |
| Naming.WrittenStem | Python_Code_Analysis/DL_Implement/NYS_04_dataset.py:187 | the stem of a written metadata file drops ".json" |
| Naming.WrittenStemParts | Python_Code_Analysis/DL_Implement/NYS_04_dataset.py:187 | such a stem splits on '_' into cluster, the id, metadata, the HUC id and an empty piece |
| Naming.HucSegmentOfWritten | Python_Code_Analysis/DL_Implement/NYS_04_dataset.py:187 | the dataset copy reads a written file's HUC id back, and the model copy reads "" |
| Dataset.ConcatLength | Python_Code_Analysis/DL_Implement/NYS_04_dataset.py:50-52 | the concatenation is as long as its parts together |
| Dataset.ConcatSlice | Python_Code_Analysis/DL_Implement/NYS_04_dataset.py:50-52 | part k occupies the slice between the lengths of the parts before it and those up to it |
| Dataset.LoadArraysFacts | Python_Code_Analysis/DL_Implement/NYS_04_dataset.py:49-55 | a single file is stored as it is; a list loads exactly when both lists are non-empty, and then holds as many patches as its files |
| Dataset.LoadedFile | Python_Code_Analysis/DL_Implement/NYS_04_dataset.py:50-52 | the patches and labels of file k are stored, in file order, right after those of the earlier files |
| Dataset.WetlandDataset.constructor | Python_Code_Analysis/DL_Implement/NYS_04_dataset.py:57-60 | the dataset stores the arrays and the flag, and takes band names and rules from the descriptor |
| Dataset.WetlandDataset.Open | Python_Code_Analysis/DL_Implement/NYS_04_dataset.py:41-60 | the dataset module's `__init__` stores the loaded arrays with the guarded rules, or fails when a list is empty |
| Dataset.WetlandDataset.OpenSingle | Python_Code_Analysis/DL_Learning/_04_dataset.py:26-39 | the learning module's `__init__` stores one file's arrays with the unguarded rules |
| Dataset.WetlandDataset.Get | Python_Code_Analysis/DL_Implement/NYS_04_dataset.py:65-85 | `__getitem__` changes nothing and returns exactly the item at idx, so two calls give equal results |
| Dataset.ItemFacts | Python_Code_Analysis/DL_Implement/NYS_04_dataset.py:65-85 | an item exists exactly when idx indexes both arrays and, when normalising, every band is handled; its label is the stored label, and each channel is the stored one, rewritten by its band's rule only when normalising |
| Dataset.ItemsExist | Python_Code_Analysis/DL_Implement/NYS_04_dataset.py:69-71 | with a rule for every band and one channel per band name, every stored index yields an item |
| ClassWeights.Insert | Python_Code_Analysis/DL_Implement/NYS_05_unet_model.py:288 | adding a class keeps the list strictly increasing and adds exactly that class |
| ClassWeights.Classes | Python_Code_Analysis/DL_Implement/NYS_05_unet_model.py:288 | np.unique's classes are strictly increasing and are exactly the values the pixels hold |
| ClassWeights.OccursIff | Python_Code_Analysis/DL_Implement/NYS_05_unet_model.py:288 | a class is counted at least once exactly when some pixel holds it |
| ClassWeights.Counts | Python_Code_Analysis/DL_Implement/NYS_05_unet_model.py:288 | the k-th count is the number of pixels of the k-th class |
| ClassWeights.SumOfCounts | Python_Code_Analysis/DL_Implement/NYS_05_unet_model.py:289 | the counts of distinct classes add up to the pixels of those classes |
| ClassWeights.UniqueFacts | Python_Code_Analysis/DL_Implement/NYS_05_unet_model.py:288-289 | np.unique gives sorted distinct classes, each with its occurrence count ≥ 1; the counts sum to the number of pixels, which is the total |
| ClassWeights.Inverses | Python_Code_Analysis/DL_Implement/NYS_05_unet_model.py:297-298 | the k-th inverse frequency is 1 / (count_k / total) |
| ClassWeights.DivideBy | Python_Code_Analysis/DL_Implement/NYS_05_unet_model.py:299 | weights / weights.min() divides each entry |
| ClassWeights.LeastInverse | Python_Code_Analysis/DL_Implement/NYS_05_unet_model.py:299 | the smallest inverse frequency belongs to a class with the largest count |
| ClassWeights.WeightsMatchReference | Python_Code_Analysis/DL_Implement/NYS_05_unet_model.py:296-299 | the weights exist exactly when there is a class; there is one per class, w_k = max_count / count_k, and the most frequent class weighs exactly 1 |
| ClassWeights.WeightsOrder | Python_Code_Analysis/DL_Implement/NYS_06_train.py:58-61 | every weight is ≥ 1, and a more frequent class never weighs more than a rarer one |
| ClassWeights.FirstUnnamed | Python_Code_Analysis/DL_Implement/NYS_06_train.py:64-66 | the position of the first class that `class_names[c]` cannot index (outside -n..n-1), every earlier class being nameable; the class count when all are |
| ClassWeights.FirstUnnamedOfPixels | Python_Code_Analysis/DL_Implement/NYS_06_train.py:64-66 | over np.unique's classes, the name lookups all succeed exactly when every label value has a name; otherwise the first failure is at the smallest label value without one |
| ClassWeights.ClassWeightsFacts | Python_Code_Analysis/DL_Implement/NYS_06_train.py:50-66 | for the training labels, the weights exist exactly when there is a pixel and every label value has a class name; otherwise the error is NoPixels for no pixels, or the IndexError for the smallest unnamed label value; the k-th weight is the largest class count over the k-th class's count, and is ≥ 1 |
| UNetShapes.FitsAll | Python_Code_Analysis/DL_Implement/NYS_05_unet_model.py:161-172 | four 2×2 poolings halve a side exactly, down to at least 1, exactly when the side is a positive multiple of 16 |
| UNetShapes.LevelShape | Python_Code_Analysis/DL_Implement/NYS_05_unet_model.py:203-237 | the encoder levels from i down to the bottleneck and back up accept exactly a tensor with encoder i's input channels and sides that fit the remaining poolings, and return level i's filters at the same size |
| UNetShapes.ForwardShape | Python_Code_Analysis/DL_Implement/NYS_05_unet_model.py:253-270 | forward accepts exactly in_channels bands with both sides positive multiples of 16, and returns num_classes channels at the input size |
| UNetShapes.DecoderChannels | Python_Code_Analysis/DL_Implement/NYS_05_unet_model.py:175-188 | each decoder's ConvBlock receives the upsampled channels plus the skip's (out·2) and returns out channels at the skip's size |
| Training.BestIsFirstMinimum | Python_Code_Analysis/DL_Implement/NYS_06_train.py:133-135 | after at least one epoch a best model was saved; its epoch is the first to reach the least validation loss: no epoch has less, every earlier epoch had more, so ties never overwrite it; its loss and accuracy are that epoch's |
| Training.FirstMinimumIsBest | Python_Code_Analysis/DL_Implement/NYS_06_train.py:134-150 | any epoch that is the first to reach the least loss is the one saved |
| Training.Epoch | Python_Code_Analysis/DL_Implement/NYS_06_train.py:128-150 | one epoch appends once to each history list and saves the best model exactly on a strict improvement |
| Training.Train | Python_Code_Analysis/DL_Implement/NYS_06_train.py:103-166 | the history holds one entry per epoch, in order; best_model holds the specified best and best_val_loss is its loss; final_model records epoch num_epochs with the last epoch's loss and accuracy; with no epochs the final save fails |
| Ed2in.RunFlagsFacts | Python_Code_Analysis/test_ifort.py:216-263 | the run's flags are the common flags plus the six run keys; other common values are kept, and each run value is as set |
| Ed2in.FlagTable.Copy | Python_Code_Analysis/test_ifort.py:216 | dict.copy() gives a new table with the same entries |
| Ed2in.FlagTable.Set | Python_Code_Analysis/test_ifort.py:220 | `d[key] = value` updates just that key |
| Ed2in.PrepareRunFlags | Python_Code_Analysis/test_ifort.py:216-263 | the run table is a fresh copy holding the run's flags, and the common table is unchanged |
| Ed2in.LStrip | Python_Code_Analysis/test_ifort.py:275 | lstrip() drops a prefix made only of whitespace and keeps a suffix that does not start with whitespace |
| Ed2in.FlagLineFacts | Python_Code_Analysis/test_ifort.py:286-287 | a written flag line has the given indent, is again an NL line, and names the same flag |
| Ed2in.FlagHasNoSpace | Python_Code_Analysis/test_ifort.py:283 | a flag read from a line contains no space |
| Ed2in.RewriteLineFacts | Python_Code_Analysis/test_ifort.py:274-289 | a non-NL line, or a line naming a flag the run does not set, is kept; a line for a set flag becomes `NL%flag = value` at the same indent; rewriting twice is rewriting once |
| Ed2in.RewriteOne | Python_Code_Analysis/test_ifort.py:274-289 | the loop body prints exactly the rewritten line |
| Ed2in.RewriteFile | Python_Code_Analysis/test_ifort.py:272-289 | the output has one line per input line, in order, each rewritten on its own |
| Ed2in.CommandsWithoutSemicolon | Python_Code_Analysis/test_ifort.py:297-302 | no command contains ';' when the executable path has none |
| Ed2in.CommandsSeparated | Python_Code_Analysis/test_ifort.py:297-303 | splitting the command string on ';' gives the four commands, each padded by the spaces of " ; " |
| Ed2in.SubmissionFacts | Python_Code_Analysis/test_ifort.py:305-335 | sbatch is called exactly when --submit was given, with the options and the quoted command string; the option string's words are the options' words |

## Left out

- The torch layers are not part of this model: convolution, batch normalisation, activation, pooling and transposed-convolution weights, the loss and the optimiser. Only shapes and channel counts are modelled. The batch dimension passes through every block unchanged and is dropped.
- train_one_epoch and validate are not part of this model either; their per-epoch results are the input of `Training.Train`.
- I/O is not modelled: rasterio, geopandas, json, `np.load`, `np.save`, `torch.save`, `os.chdir`, file copies and `print`. The results are inputs, and writes are the values the model returns.
- Not modelled from the job script: the XML parameter file, argparse, `subprocess` and `time.sleep`.
- Ed2in.PrepareRunFlags: the outer loop `for iallom in allom` (Python_Code_Analysis/test_ifort.py:196-205) is modelled as one run taking `iallom` as a parameter; `allom` is the one-element list `[4]`, so the loop runs exactly once.
- The affine transform between geographic and pixel coordinates is not modelled; polygon centres are given in pixel coordinates. The transform kept from the first raster is not modelled either.
- sklearn's train_test_split is not modelled; the split's two parts are inputs to the metadata builder.
- nanmin, nanmax, nanmean and nanstd are not modelled; a band's statistics are inputs.
- float32 and uint8 storage, IEEE rounding, and the difference between inf and NaN are not modelled; both are `Missing`.
- DataLoader batching and shuffling are not modelled.
- Dict iteration order is not modelled. `PatchMetadata.MissingMergedStats` does not name the band, because which missing band raises first depends on that order.
- The shallow copy in the merge is not modelled: the rules of the first descriptor, which Python also mutates through the copy, are treated as values.
- Patches.RandInt: the draw stands for numpy's result. The generator and its seed are not modelled, and a draw outside the range is clamped into it.
- Naming.Match: only the `*` wildcard is modelled. `?` and `[...]` never occur in the finder's patterns.
- Dataset.WetlandDataset.Open: np.concatenate's requirement that all files agree in patch shape is not checked.
- The flattening of y_train before np.unique is not modelled; the labels are given as a sequence of pixels.
- ClassWeights.ClassWeightsFacts: weights are exact reals. They exist only for the classes present in the labels; np.unique gives no entry for an absent class. The IndexError of `class_names[c]` is raised at the same point in both copies (Python_Code_Analysis/DL_Implement/NYS_05_unet_model.py:292-294 before the weights, Python_Code_Analysis/DL_Implement/NYS_06_train.py:64-66 after them); since it needs a class and the ValueError needs none, the two orders give the same outcome.
- Patches.Tile.Valid: the label raster is taken to have the input stack's height and width. The script reads it separately and never compares the shapes (Python_Code_Analysis/DL_Implement/NYS_03_create_patches_v2.py:209-220). With a smaller label raster, numpy's slice at line 143 silently returns a short label crop and the patch is kept; every sampling member requires `Valid()`, so the model does not cover that case.
- Training.Train: the saved model and optimiser states are not modelled; a checkpoint is its epoch, loss and accuracy. Losses and accuracies are exact reals: a NaN or infinite validation loss, which makes `val_loss < best_val_loss` false (Python_Code_Analysis/DL_Implement/NYS_06_train.py:134) so that no best model would be saved, is not modelled.

## Findings

| source | as written | input that shows it | evidently intended | confidence | as-written member | corrected member |
|---|---|---|---|---|---|---|
| Python_Code_Analysis/DL_Implement/NYS_05_unet_model.py:36 | the HUC-mode metadata glob is `cluster_{c}_metadata_{huc}.json`, without the trailing underscore the writer puts in every name (Python_Code_Analysis/DL_Implement/NYS_03_create_patches_v2.py:348), so `[0]` of the empty match list raises IndexError | cluster 208, HUC 041201010101, a directory holding the five files written for them | `cluster_{c}_metadata_{huc}_.json`, as in Python_Code_Analysis/DL_Implement/NYS_04_dataset.py:116 | not executed | Naming.ModelHucModeMissesMetadata | Naming.DatasetHucModeFindsWritten |
| Python_Code_Analysis/DL_Implement/NYS_05_unet_model.py:107 | hucs_included takes `stem.split("_")[-1]`, which is the empty piece after the writer's trailing underscore | the files written for HUCs 041201010101 and 041201010102 give hucs_included `["", ""]` | `[-2]`, the HUC id, as in Python_Code_Analysis/DL_Implement/NYS_04_dataset.py:187 | not executed | PatchMetadata.ModelMergeLosesHucs | PatchMetadata.DatasetMergeFindsHucs |
| Python_Code_Analysis/DL_Learning/_04_dataset.py:59 | minmax divides by `max - min` with no guard, so a constant band becomes inf/NaN throughout | a band with min == max == 7.0 | set the band to 0.0, as in Python_Code_Analysis/DL_Implement/NYS_04_dataset.py:80-83 | not executed | Normalization.UnguardedConstantBand | Normalization.GuardedConstantBand |
