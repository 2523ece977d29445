/** Per-band normalisation: the configured rules, the per-band training
    statistics, the resolution of one rule per band name (a configured
    rule, else min-max over the band's statistics), and the rewriting of a
    patch's bands under those rules, in the two variants of the dataset
    view: the one that guards constant bands and the one that does not. */
module Normalization {
  import opened Common
  import opened Grids

  /** A normalisation entry, by its "type" field.  Any other type leaves the
      band as it is. */
  datatype Rule =
    | Divide(value: real)
    | ShiftScale(shift: real, scale: real)
    | MinMax(min: real, max: real)
    | Other(kind: string)

  /** The configured rules for known band names. */
  const NormalizationRules: map<string, Rule> := map[
    "r" := Divide(255.0),
    "g" := Divide(255.0),
    "b" := Divide(255.0),
    "nir" := Divide(255.0),
    "ndvi" := ShiftScale(1.0, 2.0),
    "ndwi" := ShiftScale(1.0, 2.0),
    "Geomorph_5m" := Divide(10.0)
  ]

  /** The statistics of one band over the training patches. */
  datatype BandStats = BandStats(min: real, max: real, mean: real, std: real)

  // ---------------------------------------------------------------------
  // band_stats and normalization, as built after the split
  // ---------------------------------------------------------------------

  /** band_stats after the first n band names: channel j's statistics are
      stored under band_names[j]. */
  function StatsTable(names: seq<string>, channelStats: seq<BandStats>, n: nat): map<string, BandStats>
    requires |channelStats| == |names| && n <= |names|
    decreases n
  {
    if n == 0 then map[] else StatsTable(names, channelStats, n - 1)[names[n - 1] := channelStats[n - 1]]
  }

  /** The table has an entry for each band name and nothing else; with
      distinct names, the entry of band j is channel j's statistics. */
  lemma {:induction false} StatsTableEntries(names: seq<string>, channelStats: seq<BandStats>, n: nat)
    requires |channelStats| == |names| && n <= |names|
    ensures forall x :: x in StatsTable(names, channelStats, n) <==> x in names[..n]
    ensures (forall i, j :: 0 <= i < j < |names| ==> names[i] != names[j]) ==>
      forall j :: 0 <= j < n ==> StatsTable(names, channelStats, n)[names[j]] == channelStats[j]
    decreases n
  {
    if n > 0 {
      StatsTableEntries(names, channelStats, n - 1);
      assert names[..n] == names[..n - 1] + [names[n - 1]];
    }
  }

  /** for j, name in enumerate(band_names): band_stats[name] = stats of channel j */
  method ComputeBandStats(names: seq<string>, channelStats: seq<BandStats>) returns (table: map<string, BandStats>)
    requires |channelStats| == |names|
    ensures table == StatsTable(names, channelStats, |names|)
  {
    table := map[];
    for j := 0 to |names|
      invariant table == StatsTable(names, channelStats, j)
    {
      table := table[names[j] := channelStats[j]];
    }
  }

  /** The rule a band gets: the configured one, else min-max over its
      statistics. */
  function ResolvedRule(name: string, rules: map<string, Rule>, stats: map<string, BandStats>): Rule
    requires name in rules || name in stats
  {
    if name in rules then rules[name] else MinMax(stats[name].min, stats[name].max)
  }

  /** normalization after the first n band names. */
  function Resolution(names: seq<string>, rules: map<string, Rule>, stats: map<string, BandStats>, n: nat): map<string, Rule>
    requires n <= |names| && forall k :: 0 <= k < |names| ==> names[k] in rules || names[k] in stats
    decreases n
  {
    if n == 0 then map[] else Resolution(names, rules, stats, n - 1)[names[n - 1] := ResolvedRule(names[n - 1], rules, stats)]
  }

  /** Every band name gets exactly one entry and nothing else does: a
      configured rule is copied as it is, any other band gets min-max with
      its own training minimum and maximum. */
  lemma {:induction false} ResolutionEntries(names: seq<string>, rules: map<string, Rule>, stats: map<string, BandStats>, n: nat)
    requires n <= |names| && forall k :: 0 <= k < |names| ==> names[k] in rules || names[k] in stats
    ensures forall x :: x in Resolution(names, rules, stats, n) <==> x in names[..n]
    ensures forall k :: 0 <= k < n ==>
      Resolution(names, rules, stats, n)[names[k]] ==
        (if names[k] in rules then rules[names[k]] else MinMax(stats[names[k]].min, stats[names[k]].max))
    decreases n
  {
    if n > 0 {
      ResolutionEntries(names, rules, stats, n - 1);
      assert names[..n] == names[..n - 1] + [names[n - 1]];
    }
  }

  /** The loop that builds `normalization`. */
  method ResolveNormalization(names: seq<string>, rules: map<string, Rule>, stats: map<string, BandStats>)
    returns (normalization: map<string, Rule>)
    requires forall k :: 0 <= k < |names| ==> names[k] in rules || names[k] in stats
    ensures normalization == Resolution(names, rules, stats, |names|)
  {
    normalization := map[];
    for k := 0 to |names|
      invariant normalization == Resolution(names, rules, stats, k)
    {
      var name := names[k];
      if name in rules {
        normalization := normalization[name := rules[name]];
      } else {
        normalization := normalization[name := MinMax(stats[name].min, stats[name].max)];
      }
    }
  }

  // ---------------------------------------------------------------------
  // Applying a rule to a band
  // ---------------------------------------------------------------------

  /** The two copies of the dataset view: Guarded sets a band whose range
      max - min is not positive to 0.0, Unguarded divides by it anyway. */
  datatype Variant = Guarded | Unguarded

  /** Float division: a missing operand or a zero divisor gives a non-finite
      value (inf or nan), never an exception. */
  function Div(c: Cell, d: real): (r: Cell)
    ensures r.Value? <==> c.Value? && d != 0.0
    ensures r.Value? ==> r.x * d == c.x
  {
    if c.Missing? || d == 0.0 then Missing else Value(c.x / d)
  }

  function Add(c: Cell, a: real): (r: Cell)
    ensures r.Value? <==> c.Value?
    ensures r.Value? ==> r.x - a == c.x
  {
    if c.Missing? then Missing else Value(c.x + a)
  }

  /** One cell of band i after `X[i] = ...` under the band's rule. */
  function NormalizeCell(rule: Rule, variant: Variant, c: Cell): Cell {
    match rule
    case Divide(v) => Div(c, v)
    case ShiftScale(s, k) => Div(Add(c, s), k)
    case MinMax(lo, hi) =>
      if variant == Guarded && !(hi - lo > 0.0) then Value(0.0)
      else Div(Add(c, -lo), hi - lo)
    case Other(_) => c
  }

  /** The first n cells of a row, rewritten. */
  function NormalizeRow(rule: Rule, variant: Variant, row: seq<Cell>, n: nat): seq<Cell>
    requires n <= |row|
    decreases n
  {
    if n == 0 then [] else NormalizeRow(rule, variant, row, n - 1) + [NormalizeCell(rule, variant, row[n - 1])]
  }

  /** The first n rows of a band, rewritten. */
  function NormalizeRows(rule: Rule, variant: Variant, g: Grid, n: nat): Grid
    requires n <= |g|
    decreases n
  {
    if n == 0 then [] else NormalizeRows(rule, variant, g, n - 1) + [NormalizeRow(rule, variant, g[n - 1], |g[n - 1]|)]
  }

  /** A whole band, rewritten by the vectorised expression of its rule. */
  function NormalizeGrid(rule: Rule, variant: Variant, g: Grid): Grid {
    NormalizeRows(rule, variant, g, |g|)
  }

  lemma {:induction false} NormalizeRowFacts(rule: Rule, variant: Variant, row: seq<Cell>, n: nat)
    requires n <= |row|
    ensures |NormalizeRow(rule, variant, row, n)| == n
    ensures forall j :: 0 <= j < n ==> NormalizeRow(rule, variant, row, n)[j] == NormalizeCell(rule, variant, row[j])
    decreases n
  {
    if n > 0 {
      NormalizeRowFacts(rule, variant, row, n - 1);
    }
  }

  lemma {:induction false} NormalizeRowsFacts(rule: Rule, variant: Variant, g: Grid, n: nat)
    requires n <= |g|
    ensures |NormalizeRows(rule, variant, g, n)| == n
    ensures forall i :: 0 <= i < n ==> |NormalizeRows(rule, variant, g, n)[i]| == |g[i]|
    ensures forall i, j :: 0 <= i < n && 0 <= j < |g[i]| ==>
      NormalizeRows(rule, variant, g, n)[i][j] == NormalizeCell(rule, variant, g[i][j])
    decreases n
  {
    if n > 0 {
      NormalizeRowsFacts(rule, variant, g, n - 1);
      NormalizeRowFacts(rule, variant, g[n - 1], |g[n - 1]|);
    }
  }

  /** The band keeps its shape and each cell is rewritten on its own. */
  lemma NormalizeGridFacts(rule: Rule, variant: Variant, g: Grid)
    ensures |NormalizeGrid(rule, variant, g)| == |g|
    ensures forall i :: 0 <= i < |g| ==> |NormalizeGrid(rule, variant, g)[i]| == |g[i]|
    ensures forall i, j :: 0 <= i < |g| && 0 <= j < |g[i]| ==>
      NormalizeGrid(rule, variant, g)[i][j] == NormalizeCell(rule, variant, g[i][j])
  {
    NormalizeRowsFacts(rule, variant, g, |g|);
  }

  /** An unrecognised rule type leaves the band as it is. */
  lemma OtherKeepsBand(kind: string, variant: Variant, g: Grid)
    ensures NormalizeGrid(Other(kind), variant, g) == g
  {
    var r := NormalizeGrid(Other(kind), variant, g);
    NormalizeGridFacts(Other(kind), variant, g);
    forall i | 0 <= i < |g|
      ensures r[i] == g[i]
    {
      assert |r[i]| == |g[i]|;
      forall j | 0 <= j < |g[i]|
        ensures r[i][j] == g[i][j]
      {
      }
    }
  }

  // ---------------------------------------------------------------------
  // What each rule computes
  // ---------------------------------------------------------------------

  /** divide maps x to x / value, shift_scale to (x + shift) / scale; a
      zero divisor or a missing cell gives a non-finite cell. */
  lemma DivideAndShiftScale(variant: Variant, x: real, v: real, s: real, k: real)
    ensures NormalizeCell(Divide(v), variant, Value(x)) == if v == 0.0 then Missing else Value(x / v)
    ensures NormalizeCell(ShiftScale(s, k), variant, Value(x)) == if k == 0.0 then Missing else Value((x + s) / k)
    ensures NormalizeCell(Divide(v), variant, Missing) == Missing
    ensures NormalizeCell(ShiftScale(s, k), variant, Missing) == Missing
  {
  }

  /** With a positive range, min-max maps x to (x - min) / (max - min) in
      both variants, and a value between min and max lands in [0, 1]. */
  lemma MinMaxInUnitRange(variant: Variant, lo: real, hi: real, x: real)
    requires hi - lo > 0.0
    ensures NormalizeCell(MinMax(lo, hi), variant, Value(x)) == Value((x - lo) / (hi - lo))
    ensures lo <= x <= hi ==>
      0.0 <= NormalizeCell(MinMax(lo, hi), variant, Value(x)).x <= 1.0
  {
    if lo <= x <= hi {
      UnitQuotient(x - lo, hi - lo);
    }
  }

  lemma UnitQuotient(a: real, d: real)
    requires 0.0 <= a <= d && d > 0.0
    ensures 0.0 <= a / d <= 1.0
  {
    var q := a / d;
    assert q * d == a;
    FactorSign(q, d);
    assert (1.0 - q) * d == d - a;
    FactorSign(1.0 - q, d);
  }

  /** Guarded: a band whose range is not positive becomes 0.0 everywhere,
      missing cells included, with no division. */
  lemma GuardedConstantBand(lo: real, hi: real, c: Cell)
    requires hi - lo <= 0.0
    ensures NormalizeCell(MinMax(lo, hi), Guarded, c) == Value(0.0)
  {
  }

  /** Unguarded: a constant band (max == min) becomes non-finite
      everywhere, because every cell is divided by zero. */
  lemma UnguardedConstantBand(v: real, c: Cell)
    ensures NormalizeCell(MinMax(v, v), Unguarded, c) == Missing
  {
  }

  /** The two variants agree on every rule except min-max with a range that
      is not positive. */
  lemma VariantsAgree(rule: Rule, c: Cell)
    requires !(rule.MinMax? && rule.max - rule.min <= 0.0)
    ensures NormalizeCell(rule, Guarded, c) == NormalizeCell(rule, Unguarded, c)
  {
  }

  /** The inverse of a rule, where one exists. */
  function Denormalize(rule: Rule, c: Cell): Cell {
    match rule
    case Divide(v) => if c.Missing? then Missing else Value(c.x * v)
    case ShiftScale(s, k) => if c.Missing? then Missing else Value(c.x * k - s)
    case MinMax(lo, hi) => if c.Missing? then Missing else Value(c.x * (hi - lo) + lo)
    case Other(_) => c
  }

  /** A rule whose divisor is not zero (and, guarded, whose range is
      positive) loses no information: the value is recovered exactly. */
  lemma NormalizeInverts(rule: Rule, variant: Variant, x: real)
    requires rule.Divide? ==> rule.value != 0.0
    requires rule.ShiftScale? ==> rule.scale != 0.0
    requires rule.MinMax? ==> if variant == Guarded then rule.max - rule.min > 0.0 else rule.max != rule.min
    ensures Denormalize(rule, NormalizeCell(rule, variant, Value(x))) == Value(x)
  {
  }

  // ---------------------------------------------------------------------
  // The per-band loop of __getitem__
  // ---------------------------------------------------------------------

  /** What the loop raises: a band name without an entry (KeyError), or a
      band index past the patch's channels (IndexError). */
  datatype ItemError = UnknownBand(name: string) | ChannelOutOfRange(index: nat)

  /** The patch after the loop has handled band names 0 .. n-1.  The entry
      is looked up first; an unrecognised type touches no channel, so only
      the other rules can index past the channels. */
  function NormalizeBands(x: seq<Grid>, names: seq<string>, norm: map<string, Rule>, variant: Variant, n: nat): Result<seq<Grid>, ItemError>
    requires n <= |names|
    decreases n
  {
    if n == 0 then Success(x)
    else
      match NormalizeBands(x, names, norm, variant, n - 1)
      case Failure(e) => Failure(e)
      case Success(y) =>
        var i := n - 1;
        if names[i] !in norm then Failure(UnknownBand(names[i]))
        else if norm[names[i]].Other? then Success(y)
        else if i >= |y| then Failure(ChannelOutOfRange(i))
        else Success(y[i := NormalizeGrid(norm[names[i]], variant, y[i])])
  }

  /** Band name i may be handled: it has an entry, and that entry either
      touches no channel or names an existing one. */
  predicate Handled(x: seq<Grid>, names: seq<string>, norm: map<string, Rule>, i: nat)
    requires i < |names|
  {
    names[i] in norm && (norm[names[i]].Other? || i < |x|)
  }

  /** The loop succeeds exactly when every band name is handled. */
  lemma {:induction false} NormalizeBandsSucceeds(x: seq<Grid>, names: seq<string>, norm: map<string, Rule>, variant: Variant, n: nat)
    requires n <= |names|
    ensures NormalizeBands(x, names, norm, variant, n).Success? <==> forall i :: 0 <= i < n ==> Handled(x, names, norm, i)
    decreases n
  {
    if n > 0 {
      NormalizeBandsSucceeds(x, names, norm, variant, n - 1);
      NormalizeBandsResult(x, names, norm, variant, n - 1);
      if forall i :: 0 <= i < n ==> Handled(x, names, norm, i) {
        assert Handled(x, names, norm, n - 1);
      }
      if NormalizeBands(x, names, norm, variant, n).Success? {
        assert Handled(x, names, norm, n - 1);
      }
    }
  }

  /** On success, channel k is rewritten by the rule of band name k
      (unless that rule is unrecognised) and every other channel is
      kept. */
  lemma {:induction false} NormalizeBandsResult(x: seq<Grid>, names: seq<string>, norm: map<string, Rule>, variant: Variant, n: nat)
    requires n <= |names|
    ensures NormalizeBands(x, names, norm, variant, n).Success? ==>
      var r := NormalizeBands(x, names, norm, variant, n).value;
      && |r| == |x|
      && forall k :: 0 <= k < |x| ==>
           r[k] == if k < n && names[k] in norm && !norm[names[k]].Other? then NormalizeGrid(norm[names[k]], variant, x[k]) else x[k]
    decreases n
  {
    if n > 0 {
      NormalizeBandsResult(x, names, norm, variant, n - 1);
      var prev := NormalizeBands(x, names, norm, variant, n - 1);
      var i := n - 1;
      if prev.Success? && names[i] in norm {
        var y := prev.value;
        var rule := norm[names[i]];
        if rule.Other? {
          assert NormalizeBands(x, names, norm, variant, n) == prev;
        } else if i < |y| {
          var z := y[i := NormalizeGrid(rule, variant, y[i])];
          assert NormalizeBands(x, names, norm, variant, n) == Success(z);
          forall k | 0 <= k < |x|
            ensures z[k] == if k < n && names[k] in norm && !norm[names[k]].Other? then NormalizeGrid(norm[names[k]], variant, x[k]) else x[k]
          {
            if k != i {
              assert z[k] == y[k];
            }
          }
        }
      }
    }
  }

  /** Once band name i fails, the loop's result is that failure. */
  lemma {:induction false} NormalizeFailureSticks(x: seq<Grid>, names: seq<string>, norm: map<string, Rule>, variant: Variant, i: nat, n: nat)
    requires i <= n <= |names| && NormalizeBands(x, names, norm, variant, i).Failure?
    ensures NormalizeBands(x, names, norm, variant, n) == NormalizeBands(x, names, norm, variant, i)
    decreases n
  {
    if n > i {
      NormalizeFailureSticks(x, names, norm, variant, i, n - 1);
    }
  }

  /** The loop itself, on a copy of the stored patch. */
  method NormalizePatch(x0: seq<Grid>, names: seq<string>, norm: map<string, Rule>, variant: Variant)
    returns (r: Result<seq<Grid>, ItemError>)
    ensures r == NormalizeBands(x0, names, norm, variant, |names|)
  {
    var x := x0;
    for i := 0 to |names|
      invariant NormalizeBands(x0, names, norm, variant, i) == Success(x)
    {
      var name := names[i];
      if name !in norm {
        NormalizeFailureSticks(x0, names, norm, variant, i + 1, |names|);
        return Failure(UnknownBand(name));
      }
      var rule := norm[name];
      if !rule.Other? {
        if i >= |x| {
          NormalizeFailureSticks(x0, names, norm, variant, i + 1, |names|);
          return Failure(ChannelOutOfRange(i));
        }
        x := x[i := NormalizeGrid(rule, variant, x[i])];
      }
    }
    return Success(x);
  }
}
