/** Patch-file naming: the names the patch writer gives each HUC's files,
    the `*` glob over a directory listing, sorted() on file names, the
    file finder in its legacy, HUC and cluster modes, and the HUC id read
    back from a metadata file's stem.  The finder and the stem reading
    exist in two copies, in the dataset module and in the model module,
    which differ in two places. */
module Naming {
  import opened Common

  /** Which copy of the finder and the merge: the dataset module's or the
      model module's. */
  datatype Copy = InDataset | InModel

  // ---------------------------------------------------------------------
  // Names written by the patch writer
  // ---------------------------------------------------------------------

  /** f"cluster_{cluster}_{kind}_{huc}_.npy" */
  function PatchFileName(cluster: nat, kind: string, huc: string): string {
    "cluster_" + NatToString(cluster) + "_" + kind + "_" + huc + "_.npy"
  }

  /** f"cluster_{cluster}_metadata_{huc}_.json" */
  function MetadataFileName(cluster: nat, huc: string): string {
    "cluster_" + NatToString(cluster) + "_metadata_" + huc + "_.json"
  }

  /** The five files written for one HUC. */
  function WrittenNames(cluster: nat, huc: string): seq<string> {
    [PatchFileName(cluster, "X_train", huc), PatchFileName(cluster, "y_train", huc),
     PatchFileName(cluster, "X_val", huc), PatchFileName(cluster, "y_val", huc),
     MetadataFileName(cluster, huc)]
  }

  /** A name the writer produces for some cluster and some HUC id of
      digits. */
  ghost predicate WrittenName(x: string) {
    exists cluster: nat, huc: string :: IsDigits(huc) && x in WrittenNames(cluster, huc)
  }

  // ---------------------------------------------------------------------
  // Glob over a directory listing
  // ---------------------------------------------------------------------

  /** fnmatch for patterns whose only wildcard is `*` (any run of
      characters); every other character matches itself. */
  function Match(p: string, s: string): bool
    decreases |p| + |s|
  {
    if |p| == 0 then |s| == 0
    else if p[0] == '*' then Match(p[1..], s) || (|s| > 0 && Match(p, s[1..]))
    else |s| > 0 && s[0] == p[0] && Match(p[1..], s[1..])
  }

  /** The names of the listing that match p, in listing order. */
  function GlobNames(listing: seq<string>, p: string): seq<string>
    decreases |listing|
  {
    if |listing| == 0 then []
    else (if Match(p, listing[0]) then [listing[0]] else []) + GlobNames(listing[1..], p)
  }

  /** A pattern without `*` matches exactly itself. */
  lemma {:induction false} LiteralMatch(p: string, s: string)
    requires '*' !in p
    ensures Match(p, s) <==> s == p
    decreases |p|
  {
    if |p| > 0 && |s| > 0 {
      LiteralMatch(p[1..], s[1..]);
      if s[0] == p[0] && s[1..] == p[1..] {
        assert s == [s[0]] + s[1..] && p == [p[0]] + p[1..];
      }
    }
  }

  /** A literal prefix shared by pattern and name is consumed. */
  lemma {:induction false} MatchPrefix(a: string, p: string, s: string)
    requires '*' !in a
    ensures Match(a + p, a + s) == Match(p, s)
    decreases |a|
  {
    if |a| > 0 {
      assert (a + p)[0] == a[0] && (a + s)[0] == a[0];
      assert (a + p)[1..] == a[1..] + p && (a + s)[1..] == a[1..] + s;
      MatchPrefix(a[1..], p, s);
    } else {
      assert a + p == p && a + s == s;
    }
  }

  /** `*` followed by a literal matches any text followed by that literal. */
  lemma {:induction false} StarMatch(mid: string, b: string)
    requires '*' !in b
    ensures Match("*" + b, mid + b)
    decreases |mid|
  {
    var p := "*" + b;
    assert p[1..] == b;
    if |mid| == 0 {
      assert mid + b == b;
      LiteralMatch(b, b);
    } else {
      StarMatch(mid[1..], b);
      assert (mid + b)[1..] == mid[1..] + b;
    }
  }

  /** a*b matches a, then anything, then b. */
  lemma WildcardMatch(a: string, mid: string, b: string)
    requires '*' !in a && '*' !in b
    ensures Match(a + "*" + b, a + mid + b)
  {
    assert a + "*" + b == a + ("*" + b);
    assert a + mid + b == a + (mid + b);
    MatchPrefix(a, "*" + b, mid + b);
    StarMatch(mid, b);
  }

  /** The glob keeps every matching name as often as the listing has it,
      and nothing else. */
  lemma {:induction false} GlobNamesCount(listing: seq<string>, p: string)
    ensures forall x :: multiset(GlobNames(listing, p))[x] == if Match(p, x) then multiset(listing)[x] else 0
    decreases |listing|
  {
    if |listing| > 0 {
      GlobNamesCount(listing[1..], p);
      assert listing == [listing[0]] + listing[1..];
    }
  }

  lemma GlobNamesMembers(listing: seq<string>, p: string)
    ensures forall x :: x in GlobNames(listing, p) <==> x in listing && Match(p, x)
  {
    GlobNamesCount(listing, p);
    forall x
      ensures x in GlobNames(listing, p) <==> x in listing && Match(p, x)
    {
      assert x in GlobNames(listing, p) <==> multiset(GlobNames(listing, p))[x] > 0;
      assert x in listing <==> multiset(listing)[x] > 0;
    }
  }

  /** Nothing matches, so the glob is empty. */
  lemma {:induction false} GlobNone(listing: seq<string>, p: string)
    requires forall x :: x in listing ==> !Match(p, x)
    ensures GlobNames(listing, p) == []
    decreases |listing|
  {
    if |listing| > 0 {
      assert listing[0] in listing;
      assert forall x :: x in listing[1..] ==> x in listing;
      GlobNone(listing[1..], p);
    }
  }

  /** A literal pattern present once in a listing of distinct names globs
      to that one name. */
  lemma {:induction false} GlobLiteral(listing: seq<string>, p: string)
    requires '*' !in p && Distinct(listing) && p in listing
    ensures GlobNames(listing, p) == [p]
    decreases |listing|
  {
    LiteralMatch(p, listing[0]);
    var rest := listing[1..];
    assert Distinct(rest) by {
      forall i, j | 0 <= i < j < |rest|
        ensures rest[i] != rest[j]
      {
        assert rest[i] == listing[i + 1] && rest[j] == listing[j + 1];
      }
    }
    if listing[0] == p {
      assert p !in rest by {
        forall j | 0 <= j < |rest|
          ensures rest[j] != p
        {
          assert rest[j] == listing[j + 1];
        }
      }
      forall x | x in rest
        ensures !Match(p, x)
      {
        LiteralMatch(p, x);
      }
      GlobNone(rest, p);
    } else {
      assert p in rest by {
        var k :| 0 <= k < |listing| && listing[k] == p;
        assert rest[k - 1] == p;
      }
      GlobLiteral(rest, p);
    }
  }

  // ---------------------------------------------------------------------
  // sorted() on file names
  // ---------------------------------------------------------------------

  /** Python's a <= b on strings: lexicographic by code point. */
  predicate StrLe(a: string, b: string)
    decreases |a|
  {
    |a| == 0 || (|b| > 0 && (a[0] < b[0] || (a[0] == b[0] && StrLe(a[1..], b[1..]))))
  }

  lemma {:induction false} StrLeTotal(a: string, b: string)
    ensures StrLe(a, b) || StrLe(b, a)
    decreases |a|
  {
    if |a| > 0 && |b| > 0 && a[0] == b[0] {
      StrLeTotal(a[1..], b[1..]);
    }
  }

  lemma {:induction false} StrLeTrans(a: string, b: string, c: string)
    requires StrLe(a, b) && StrLe(b, c)
    ensures StrLe(a, c)
    decreases |a|
  {
    if |a| > 0 && a[0] == b[0] && b[0] == c[0] {
      StrLeTrans(a[1..], b[1..], c[1..]);
    }
  }

  lemma {:induction false} StrLeAntisymmetric(a: string, b: string)
    requires StrLe(a, b) && StrLe(b, a)
    ensures a == b
    decreases |a|
  {
    if |a| > 0 {
      StrLeAntisymmetric(a[1..], b[1..]);
      assert a == [a[0]] + a[1..] && b == [b[0]] + b[1..];
    }
  }

  predicate Sorted(s: seq<string>) {
    forall i, j :: 0 <= i < j < |s| ==> StrLe(s[i], s[j])
  }

  function Insert(x: string, s: seq<string>): seq<string>
    decreases |s|
  {
    if |s| == 0 then [x] else if StrLe(x, s[0]) then [x] + s else [s[0]] + Insert(x, s[1..])
  }

  /** sorted(names), as an insertion sort. */
  function SortNames(s: seq<string>): seq<string>
    decreases |s|
  {
    if |s| == 0 then [] else Insert(s[0], SortNames(s[1..]))
  }

  lemma {:induction false} InsertFacts(x: string, s: seq<string>)
    requires Sorted(s)
    ensures multiset(Insert(x, s)) == multiset(s) + multiset{x}
    ensures Sorted(Insert(x, s))
    decreases |s|
  {
    if |s| == 0 {
    } else if StrLe(x, s[0]) {
      var r := [x] + s;
      forall i, j | 0 <= i < j < |r|
        ensures StrLe(r[i], r[j])
      {
        if i == 0 && j > 1 {
          StrLeTrans(x, s[0], s[j - 1]);
        }
      }
    } else {
      StrLeTotal(x, s[0]);
      var t := s[1..];
      assert Sorted(t);
      InsertFacts(x, t);
      assert s == [s[0]] + t;
      var ins := Insert(x, t);
      var r := [s[0]] + ins;
      forall i, j | 0 <= i < j < |r|
        ensures StrLe(r[i], r[j])
      {
        if i == 0 {
          var y := r[j];
          assert y in multiset(ins);
          if y != x {
            assert y in multiset(t);
            var k :| 0 <= k < |t| && t[k] == y;
            assert s[k + 1] == y;
          }
        }
      }
    }
  }

  /** The sorted list holds exactly the given names, in order. */
  lemma {:induction false} SortNamesFacts(s: seq<string>)
    ensures multiset(SortNames(s)) == multiset(s)
    ensures Sorted(SortNames(s))
    decreases |s|
  {
    if |s| > 0 {
      SortNamesFacts(s[1..]);
      InsertFacts(s[0], SortNames(s[1..]));
      assert s == [s[0]] + s[1..];
    }
  }

  lemma {:induction false} StrLeReflexive(a: string)
    ensures StrLe(a, a)
    decreases |a|
  {
    if |a| > 0 {
      StrLeReflexive(a[1..]);
    }
  }

  /** The first entry of a sorted list is its least element. */
  lemma SortedHead(a: seq<string>, x: string)
    requires Sorted(a) && x in multiset(a)
    ensures StrLe(a[0], x)
  {
    var j :| 0 <= j < |a| && a[j] == x;
    if j == 0 {
      StrLeReflexive(x);
    }
  }

  /** Two sorted lists with the same names are equal. */
  lemma {:induction false} SortedUnique(a: seq<string>, b: seq<string>)
    requires Sorted(a) && Sorted(b) && multiset(a) == multiset(b)
    ensures a == b
    decreases |a|
  {
    if |a| == 0 {
      assert |b| == |multiset(b)| == 0;
    } else {
      SortedHeads(a, b);
      SortedUnique(a[1..], b[1..]);
      assert a == [a[0]] + a[1..] && b == [b[0]] + b[1..];
    }
  }

  /** Sorted lists with the same names start alike and go on alike. */
  lemma SortedHeads(a: seq<string>, b: seq<string>)
    requires Sorted(a) && Sorted(b) && multiset(a) == multiset(b) && |a| > 0
    ensures |b| > 0 && a[0] == b[0]
    ensures Sorted(a[1..]) && Sorted(b[1..]) && multiset(a[1..]) == multiset(b[1..])
  {
    assert |b| == |multiset(b)| == |a|;
    assert a[0] in multiset(b) && b[0] in multiset(a);
    SortedHead(b, a[0]);
    SortedHead(a, b[0]);
    StrLeAntisymmetric(a[0], b[0]);
    SortedTail(a);
    SortedTail(b);
    TailMultiset(a, b);
  }

  lemma SortedTail(a: seq<string>)
    requires Sorted(a) && |a| > 0
    ensures Sorted(a[1..])
  {
    var t := a[1..];
    forall i, j | 0 <= i < j < |t|
      ensures StrLe(t[i], t[j])
    {
      assert t[i] == a[i + 1] && t[j] == a[j + 1];
    }
  }

  lemma TailMultiset<T>(a: seq<T>, b: seq<T>)
    requires |a| > 0 && |b| > 0 && a[0] == b[0] && multiset(a) == multiset(b)
    ensures multiset(a[1..]) == multiset(b[1..])
  {
    assert a == [a[0]] + a[1..] && b == [b[0]] + b[1..];
    assert multiset(a[1..]) == multiset(a) - multiset{a[0]};
    assert multiset(b[1..]) == multiset(b) - multiset{b[0]};
  }

  /** The result of sorting does not depend on the order it was given. */
  lemma SortOrderIndependent(a: seq<string>, b: seq<string>)
    requires multiset(a) == multiset(b)
    ensures SortNames(a) == SortNames(b)
  {
    SortNamesFacts(a);
    SortNamesFacts(b);
    SortedUnique(SortNames(a), SortNames(b));
  }

  // ---------------------------------------------------------------------
  // find_patch_files
  // ---------------------------------------------------------------------

  /** Where the metadata comes from: one file, or a list of files to merge. */
  datatype MetadataSource = OneFile(name: string) | SeveralFiles(names: seq<string>)

  /** The finder's dict; every name is a file of `dir`. */
  datatype PatchFiles = PatchFiles(dir: string, xTrain: seq<string>, yTrain: seq<string>,
                                   xVal: seq<string>, yVal: seq<string>, metadata: MetadataSource)

  datatype FindError =
    | NoTrainingFiles(cluster: nat)   // FileNotFoundError in cluster mode
    | NoMetadataFile(pattern: string) // IndexError on [0] in HUC mode

  /** The HUC-mode glob for one kind of patch file. */
  function HucPattern(cluster: nat, kind: string, huc: string): string {
    "cluster_" + NatToString(cluster) + "_" + kind + "_" + huc + "_.npy"
  }

  /** The HUC-mode metadata glob: the dataset copy ends in "_.json", the
      model copy in ".json". */
  function HucMetadataPattern(copy: Copy, cluster: nat, huc: string): string {
    match copy
    case InDataset => "cluster_" + NatToString(cluster) + "_metadata_" + huc + "_.json"
    case InModel => "cluster_" + NatToString(cluster) + "_metadata_" + huc + ".json"
  }

  /** The cluster-mode glob for one kind of file. */
  function ClusterPattern(cluster: nat, kind: string, ext: string): string {
    "cluster_" + NatToString(cluster) + "_" + kind + "_*" + ext
  }

  /** find_patch_files(data_dir, cluster_id, huc_id) over the names of
      data_dir. */
  function FindPatchFiles(copy: Copy, dir: string, cluster: Option<nat>, huc: Option<string>, listing: seq<string>)
    : Result<PatchFiles, FindError>
  {
    if cluster.None? then
      Success(PatchFiles(dir, ["X_train.npy"], ["y_train.npy"], ["X_val.npy"], ["y_val.npy"], OneFile("metadata.json")))
    else
      var c := cluster.value;
      if huc.Some? then
        var h := huc.value;
        var metas := GlobNames(listing, HucMetadataPattern(copy, c, h));
        if |metas| == 0 then Failure(NoMetadataFile(HucMetadataPattern(copy, c, h)))
        else
          Success(PatchFiles(dir, GlobNames(listing, HucPattern(c, "X_train", h)), GlobNames(listing, HucPattern(c, "y_train", h)),
                             GlobNames(listing, HucPattern(c, "X_val", h)), GlobNames(listing, HucPattern(c, "y_val", h)),
                             OneFile(metas[0])))
      else
        var xTrain := SortNames(GlobNames(listing, ClusterPattern(c, "X_train", ".npy")));
        if |xTrain| == 0 then Failure(NoTrainingFiles(c))
        else
          Success(PatchFiles(dir, xTrain, SortNames(GlobNames(listing, ClusterPattern(c, "y_train", ".npy"))),
                             SortNames(GlobNames(listing, ClusterPattern(c, "X_val", ".npy"))),
                             SortNames(GlobNames(listing, ClusterPattern(c, "y_val", ".npy"))),
                             SeveralFiles(SortNames(GlobNames(listing, ClusterPattern(c, "metadata", ".json"))))))
  }

  /** Legacy mode (no cluster id) names the fixed files whatever the
      directory holds, in both copies. */
  lemma LegacyMode(copy: Copy, dir: string, huc: Option<string>, listing: seq<string>)
    ensures FindPatchFiles(copy, dir, None, huc, listing) ==
      Success(PatchFiles(dir, ["X_train.npy"], ["y_train.npy"], ["X_val.npy"], ["y_val.npy"], OneFile("metadata.json")))
    ensures FindPatchFiles(InDataset, dir, None, huc, listing) == FindPatchFiles(InModel, dir, None, huc, listing)
  {
  }

  lemma DigitsHaveNoStar(s: string)
    requires IsDigits(s)
    ensures '*' !in s && '_' !in s && '.' !in s
  {
    forall i | 0 <= i < |s|
      ensures s[i] != '*' && s[i] != '_' && s[i] != '.'
    {
    }
  }

  /** In HUC mode the dataset copy finds exactly the five files the writer
      wrote for that HUC, when the directory holds them. */
  lemma DatasetHucModeFindsWritten(dir: string, cluster: nat, huc: string, listing: seq<string>)
    requires IsDigits(huc) && Distinct(listing)
    requires forall x :: x in WrittenNames(cluster, huc) ==> x in listing
    ensures FindPatchFiles(InDataset, dir, Some(cluster), Some(huc), listing) ==
      Success(PatchFiles(dir, [PatchFileName(cluster, "X_train", huc)], [PatchFileName(cluster, "y_train", huc)],
                         [PatchFileName(cluster, "X_val", huc)], [PatchFileName(cluster, "y_val", huc)],
                         OneFile(MetadataFileName(cluster, huc))))
  {
    var w := WrittenNames(cluster, huc);
    DigitsHaveNoStar(huc);
    DigitsHaveNoStar(NatToString(cluster));
    forall k | 0 <= k < 5
      ensures '*' !in w[k] && w[k] in listing
    {
      assert w[k] in WrittenNames(cluster, huc);
    }
    GlobLiteral(listing, w[0]);
    GlobLiteral(listing, w[1]);
    GlobLiteral(listing, w[2]);
    GlobLiteral(listing, w[3]);
    GlobLiteral(listing, w[4]);
  }

  /** The model copy's HUC metadata pattern, for a non-empty HUC id of
      digits, ends in ".json" with a digit before the dot. */
  lemma PatternEnding(cluster: nat, huc: string)
    requires IsDigits(huc) && |huc| > 0
    ensures var p := HucMetadataPattern(InModel, cluster, huc);
      |p| >= 6 && p[|p| - 1] == 'n' && '0' <= p[|p| - 6] <= '9'
  {
    var t := "cluster_" + NatToString(cluster) + "_metadata_" + huc;
    var p := t + ".json";
    assert p[|t| - 1] == huc[|huc| - 1];
  }

  /** A written name ends in ".npy", or in "_.json". */
  lemma WrittenEnding(x: string)
    requires WrittenName(x)
    ensures |x| >= 6 && (x[|x| - 1] == 'y' || x[|x| - 6] == '_')
  {
    var cluster: nat, huc: string :| IsDigits(huc) && x in WrittenNames(cluster, huc);
    PatchNameEnding(cluster, "X_train", huc);
    PatchNameEnding(cluster, "y_train", huc);
    PatchNameEnding(cluster, "X_val", huc);
    PatchNameEnding(cluster, "y_val", huc);
    MetadataNameEnding(cluster, huc);
  }

  lemma PatchNameEnding(cluster: nat, kind: string, huc: string)
    ensures var x := PatchFileName(cluster, kind, huc); |x| >= 6 && x[|x| - 1] == 'y'
  {
    var t := "cluster_" + NatToString(cluster) + "_" + kind + "_" + huc;
    assert PatchFileName(cluster, kind, huc) == t + "_.npy";
  }

  lemma MetadataNameEnding(cluster: nat, huc: string)
    ensures var x := MetadataFileName(cluster, huc); |x| >= 6 && x[|x| - 6] == '_'
  {
    var t := "cluster_" + NatToString(cluster) + "_metadata_" + huc;
    assert MetadataFileName(cluster, huc) == t + "_.json";
  }

  /** In HUC mode, the model copy never finds its metadata file among the
      files the writer produces: its pattern lacks the writer's trailing
      underscore, so indexing the empty match list raises. */
  lemma ModelHucModeMissesMetadata(dir: string, cluster: nat, huc: string, listing: seq<string>)
    requires IsDigits(huc) && |huc| > 0
    requires forall x :: x in listing ==> WrittenName(x)
    ensures FindPatchFiles(InModel, dir, Some(cluster), Some(huc), listing) ==
      Failure(NoMetadataFile(HucMetadataPattern(InModel, cluster, huc)))
  {
    var p := HucMetadataPattern(InModel, cluster, huc);
    DigitsHaveNoStar(huc);
    DigitsHaveNoStar(NatToString(cluster));
    PatternEnding(cluster, huc);
    forall x | x in listing
      ensures !Match(p, x)
    {
      WrittenEnding(x);
      LiteralMatch(p, x);
    }
    GlobNone(listing, p);
  }

  /** The same directory, HUC and cluster: one copy finds the files, the
      other raises.  (Cluster 208, HUC 041201010101 are the configured
      ones.) */
  lemma HucModeDiscrepancy()
    ensures var listing := WrittenNames(208, "041201010101");
      && FindPatchFiles(InDataset, "Data/Patches_v2", Some(208), Some("041201010101"), listing).Success?
      && FindPatchFiles(InModel, "Data/Patches_v2", Some(208), Some("041201010101"), listing).Failure?
  {
    var listing := WrittenNames(208, "041201010101");
    var huc := "041201010101";
    assert IsDigits(huc);
    forall x | x in listing
      ensures WrittenName(x)
    {
      assert IsDigits(huc) && x in WrittenNames(208, huc);
    }
    assert Distinct(listing) by {
      forall i, j | 0 <= i < j < |listing|
        ensures listing[i] != listing[j]
      {
        NamesDiffer(208, huc);
      }
    }
    DatasetHucModeFindsWritten("Data/Patches_v2", 208, huc, listing);
    ModelHucModeMissesMetadata("Data/Patches_v2", 208, huc, listing);
  }

  /** The five names written for one HUC are different from each other. */
  lemma NamesDiffer(cluster: nat, huc: string)
    ensures Distinct(WrittenNames(cluster, huc))
  {
    var w := WrittenNames(cluster, huc);
    var pre := "cluster_" + NatToString(cluster) + "_";
    var i := |pre|;
    assert w[0] == pre + "X_train" + "_" + huc + "_.npy";
    assert w[1] == pre + "y_train" + "_" + huc + "_.npy";
    assert w[2] == pre + "X_val" + "_" + huc + "_.npy";
    assert w[3] == pre + "y_val" + "_" + huc + "_.npy";
    assert w[4] == pre + "metadata" + "_" + huc + "_.json";
    assert w[0][i] == 'X' && w[0][i + 2] == 't';
    assert w[1][i] == 'y' && w[1][i + 2] == 't';
    assert w[2][i] == 'X' && w[2][i + 2] == 'v';
    assert w[3][i] == 'y' && w[3][i + 2] == 'v';
    assert w[4][i] == 'm';
  }

  /** Cluster mode succeeds exactly when some training input file matches;
      each list then holds exactly the matching names, sorted, so the
      result does not depend on the listing's order. */
  lemma ClusterModeResult(copy: Copy, dir: string, cluster: nat, listing: seq<string>)
    ensures var r := FindPatchFiles(copy, dir, Some(cluster), None, listing);
      && (r.Success? <==> exists x :: x in listing && Match(ClusterPattern(cluster, "X_train", ".npy"), x))
      && (r.Success? ==>
            && Sorted(r.value.xTrain) && multiset(r.value.xTrain) == multiset(GlobNames(listing, ClusterPattern(cluster, "X_train", ".npy")))
            && Sorted(r.value.yTrain) && multiset(r.value.yTrain) == multiset(GlobNames(listing, ClusterPattern(cluster, "y_train", ".npy")))
            && Sorted(r.value.xVal) && multiset(r.value.xVal) == multiset(GlobNames(listing, ClusterPattern(cluster, "X_val", ".npy")))
            && Sorted(r.value.yVal) && multiset(r.value.yVal) == multiset(GlobNames(listing, ClusterPattern(cluster, "y_val", ".npy")))
            && r.value.metadata.SeveralFiles?
            && Sorted(r.value.metadata.names)
            && multiset(r.value.metadata.names) == multiset(GlobNames(listing, ClusterPattern(cluster, "metadata", ".json"))))
  {
    var px := ClusterPattern(cluster, "X_train", ".npy");
    SortNamesFacts(GlobNames(listing, px));
    SortNamesFacts(GlobNames(listing, ClusterPattern(cluster, "y_train", ".npy")));
    SortNamesFacts(GlobNames(listing, ClusterPattern(cluster, "X_val", ".npy")));
    SortNamesFacts(GlobNames(listing, ClusterPattern(cluster, "y_val", ".npy")));
    SortNamesFacts(GlobNames(listing, ClusterPattern(cluster, "metadata", ".json")));
    GlobNamesMembers(listing, px);
    var g := GlobNames(listing, px);
    assert |SortNames(g)| == |multiset(g)| == |g|;
    if |g| > 0 {
      assert g[0] in g;
    }
  }

  /** Cluster mode gives the same result for any order of the same listing. */
  lemma ClusterModeOrderIndependent(copy: Copy, dir: string, cluster: nat, listing: seq<string>, shuffled: seq<string>)
    requires multiset(listing) == multiset(shuffled)
    ensures FindPatchFiles(copy, dir, Some(cluster), None, listing) == FindPatchFiles(copy, dir, Some(cluster), None, shuffled)
  {
    SortedGlobOrderIndependent(listing, shuffled, ClusterPattern(cluster, "X_train", ".npy"));
    SortedGlobOrderIndependent(listing, shuffled, ClusterPattern(cluster, "y_train", ".npy"));
    SortedGlobOrderIndependent(listing, shuffled, ClusterPattern(cluster, "X_val", ".npy"));
    SortedGlobOrderIndependent(listing, shuffled, ClusterPattern(cluster, "y_val", ".npy"));
    SortedGlobOrderIndependent(listing, shuffled, ClusterPattern(cluster, "metadata", ".json"));
  }

  lemma SortedGlobOrderIndependent(listing: seq<string>, shuffled: seq<string>, p: string)
    requires multiset(listing) == multiset(shuffled)
    ensures SortNames(GlobNames(listing, p)) == SortNames(GlobNames(shuffled, p))
  {
    GlobNamesCount(listing, p);
    GlobNamesCount(shuffled, p);
    assert multiset(GlobNames(listing, p)) == multiset(GlobNames(shuffled, p));
    SortOrderIndependent(GlobNames(listing, p), GlobNames(shuffled, p));
  }

  /** Every file the writer writes for a cluster is picked up by that
      cluster's glob for its kind, whatever the HUC. */
  lemma ClusterPatternMatchesWritten(cluster: nat, kind: string, huc: string)
    requires '*' !in kind
    ensures Match(ClusterPattern(cluster, kind, ".npy"), PatchFileName(cluster, kind, huc))
    ensures Match(ClusterPattern(cluster, "metadata", ".json"), MetadataFileName(cluster, huc))
  {
    var c := NatToString(cluster);
    DigitsHaveNoStar(c);
    var a := "cluster_" + c + "_" + kind + "_";
    assert ClusterPattern(cluster, kind, ".npy") == a + "*" + ".npy";
    assert PatchFileName(cluster, kind, huc) == a + (huc + "_") + ".npy";
    WildcardMatch(a, huc + "_", ".npy");
    var m := "cluster_" + c + "_metadata_";
    assert ClusterPattern(cluster, "metadata", ".json") == m + "*" + ".json";
    assert MetadataFileName(cluster, huc) == m + (huc + "_") + ".json";
    WildcardMatch(m, huc + "_", ".json");
  }

  // ---------------------------------------------------------------------
  // The HUC id in a metadata file's stem
  // ---------------------------------------------------------------------

  /** The index of the last '.' of s, or -1. */
  function LastDot(s: string): (i: int)
    ensures -1 <= i < |s|
    ensures i >= 0 ==> s[i] == '.'
    ensures forall k :: i < k < |s| ==> s[k] != '.'
    decreases |s|
  {
    if |s| == 0 then -1 else if s[|s| - 1] == '.' then |s| - 1 else LastDot(s[..|s| - 1])
  }

  /** PurePath.stem: the name without its last suffix; a leading dot or a
      trailing dot is not a suffix. */
  function Stem(name: string): string {
    var i := LastDot(name);
    if 0 < i < |name| - 1 then name[..i] else name
  }

  lemma {:induction false} LastDotAfter(a: string, b: string)
    requires '.' !in b
    ensures LastDot(a + "." + b) == |a|
    decreases |b|
  {
    var s := a + "." + b;
    if |b| > 0 {
      assert s[|s| - 1] == b[|b| - 1];
      assert s[..|s| - 1] == a + "." + b[..|b| - 1];
      LastDotAfter(a, b[..|b| - 1]);
    } else {
      assert s[|s| - 1] == '.';
    }
  }

  /** The HUC id read back from a metadata file:
      `stem.split("_")[-2]` in the dataset copy, `[-1]` in the model copy;
      [-2] of a one-piece stem raises. */
  function HucSegment(copy: Copy, name: string): Option<string> {
    var parts := Split(Stem(name), '_');
    match copy
    case InDataset => if |parts| >= 2 then Some(parts[|parts| - 2]) else None
    case InModel => Some(parts[|parts| - 1])
  }

  /** The stem of a written metadata file drops ".json". */
  lemma WrittenStem(cluster: nat, huc: string)
    requires IsDigits(huc)
    ensures Stem(MetadataFileName(cluster, huc)) == "cluster_" + NatToString(cluster) + "_metadata_" + huc + "_"
  {
    var c := NatToString(cluster);
    DigitsHaveNoStar(c);
    DigitsHaveNoStar(huc);
    var stem := "cluster_" + c + "_metadata_" + huc + "_";
    assert '.' !in stem;
    assert MetadataFileName(cluster, huc) == stem + "." + "json";
    LastDotAfter(stem, "json");
  }

  /** The pieces of a written metadata file's stem. */
  lemma WrittenStemParts(cluster: nat, huc: string)
    requires IsDigits(huc)
    ensures Split(Stem(MetadataFileName(cluster, huc)), '_') == ["cluster", NatToString(cluster), "metadata", huc, ""]
  {
    var c := NatToString(cluster);
    DigitsHaveNoStar(c);
    DigitsHaveNoStar(huc);
    WrittenStem(cluster, huc);
    StemRegroup(c, huc);
    var s3 := huc + "_" + "";
    var s2 := "metadata" + "_" + s3;
    var s1 := c + "_" + s2;
    SplitFirstPiece("cluster", s1);
    SplitFirstPiece(c, s2);
    SplitFirstPiece("metadata", s3);
    SplitFirstPiece(huc, "");
  }

  lemma StemRegroup(c: string, huc: string)
    ensures "cluster_" + c + "_metadata_" + huc + "_" == "cluster" + "_" + (c + "_" + ("metadata" + "_" + (huc + "_" + "")))
  {
    var s3 := huc + "_";
    assert s3 == huc + "_" + "";
    assert "metadata_" + s3 == "metadata" + "_" + s3;
    assert "cluster_" + c + "_metadata_" + huc + "_" == "cluster" + "_" + (c + "_" + ("metadata_" + s3));
  }

  /** A piece without the separator, then the separator: the piece comes
      first in the split. */
  lemma SplitFirstPiece(a: string, rest: string)
    requires '_' !in a
    ensures Split(a + "_" + rest, '_') == [a] + Split(rest, '_')
  {
    var t := "_" + rest;
    assert a + "_" + rest == a + t;
    SplitAfterPrefix(a, t, '_');
    assert t[0] == '_' && t[1..] == rest;
    assert Split(t, '_') == [""] + Split(rest, '_');
    assert a + "" == a;
  }

  /** The dataset copy reads back the HUC id of a file the writer wrote; the
      model copy reads the empty piece after the trailing underscore. */
  lemma HucSegmentOfWritten(cluster: nat, huc: string)
    requires IsDigits(huc)
    ensures HucSegment(InDataset, MetadataFileName(cluster, huc)) == Some(huc)
    ensures HucSegment(InModel, MetadataFileName(cluster, huc)) == Some("")
  {
    WrittenStemParts(cluster, huc);
  }
}
