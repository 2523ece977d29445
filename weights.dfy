/** Inverse-frequency class weights for the loss: the label pixels of the
    training patches are counted per class the way np.unique counts them
    (the classes present, in increasing order, each with how often it
    occurs), and each class gets 1 / (count / total), divided by the
    smallest such value so that the smallest weight is 1. */
module ClassWeights {
  import opened Common

  // ---------------------------------------------------------------------
  // np.unique(y_train, return_counts=True)
  // ---------------------------------------------------------------------

  predicate StrictlyIncreasing(s: seq<int>) {
    forall i, j :: 0 <= i < j < |s| ==> s[i] < s[j]
  }

  /** Adds v to a strictly increasing list of classes, keeping it so. */
  function Insert(s: seq<int>, v: int): (r: seq<int>)
    requires StrictlyIncreasing(s)
    ensures StrictlyIncreasing(r)
    ensures forall u :: u in r <==> u in s || u == v
    decreases |s|
  {
    if |s| == 0 then [v]
    else if v < s[0] then [v] + s
    else if v == s[0] then s
    else
      var rest := Insert(s[1..], v);
      assert forall i :: 0 <= i < |s[1..]| ==> s[0] < s[1..][i];
      assert forall u :: u in rest ==> s[0] < u;
      var r := [s[0]] + rest;
      assert forall j :: 0 < j < |r| ==> r[j] == rest[j - 1] && r[j] in rest;
      r
  }

  /** The distinct classes among the first n pixels, in increasing order. */
  function Classes(pixels: seq<int>, n: nat): (r: seq<int>)
    requires n <= |pixels|
    ensures StrictlyIncreasing(r)
    ensures forall u :: u in r <==> u in pixels[..n]
    decreases n
  {
    if n == 0 then []
    else
      var prev := Classes(pixels, n - 1);
      assert pixels[..n] == pixels[..n - 1] + [pixels[n - 1]];
      Insert(prev, pixels[n - 1])
  }

  /** How many pixels hold class c. */
  function Occurrences(pixels: seq<int>, c: int): nat
    decreases |pixels|
  {
    if |pixels| == 0 then 0
    else (if pixels[0] == c then 1 else 0) + Occurrences(pixels[1..], c)
  }

  /** A class occurs at least once exactly when some pixel holds it. */
  lemma {:induction false} OccursIff(pixels: seq<int>, c: int)
    ensures Occurrences(pixels, c) >= 1 <==> c in pixels
    decreases |pixels|
  {
    if |pixels| > 0 {
      OccursIff(pixels[1..], c);
      assert c in pixels <==> pixels[0] == c || c in pixels[1..];
    }
  }

  /** The count of each listed class, in list order. */
  function Counts(pixels: seq<int>, classes: seq<int>): (r: seq<nat>)
    ensures |r| == |classes|
    ensures forall k :: 0 <= k < |r| ==> r[k] == Occurrences(pixels, classes[k])
    decreases |classes|
  {
    if |classes| == 0 then []
    else [Occurrences(pixels, classes[0])] + Counts(pixels, classes[1..])
  }

  /** np.unique with return_counts: the classes present and their counts. */
  function Unique(pixels: seq<int>): (seq<int>, seq<nat>) {
    var classes := Classes(pixels, |pixels|);
    (classes, Counts(pixels, classes))
  }

  /** How many pixels hold one of the listed classes. */
  function Within(pixels: seq<int>, classes: seq<int>): nat
    decreases |pixels|
  {
    if |pixels| == 0 then 0
    else (if pixels[0] in classes then 1 else 0) + Within(pixels[1..], classes)
  }

  lemma {:induction false} WithinSplit(pixels: seq<int>, c: int, rest: seq<int>)
    requires c !in rest
    ensures Within(pixels, [c] + rest) == Occurrences(pixels, c) + Within(pixels, rest)
    decreases |pixels|
  {
    if |pixels| > 0 {
      WithinSplit(pixels[1..], c, rest);
      assert pixels[0] in [c] + rest <==> pixels[0] == c || pixels[0] in rest;
    }
  }

  lemma {:induction false} WithinAll(pixels: seq<int>, classes: seq<int>)
    requires forall i :: 0 <= i < |pixels| ==> pixels[i] in classes
    ensures Within(pixels, classes) == |pixels|
    decreases |pixels|
  {
    if |pixels| > 0 {
      assert forall i :: 0 <= i < |pixels[1..]| ==> pixels[1..][i] == pixels[i + 1];
      WithinAll(pixels[1..], classes);
    }
  }

  /** Summing the counts of distinct classes counts each pixel of those
      classes once. */
  lemma {:induction false} SumOfCounts(pixels: seq<int>, classes: seq<int>)
    requires StrictlyIncreasing(classes)
    ensures SumInt(Counts(pixels, classes)) == Within(pixels, classes)
    decreases |classes|
  {
    if |classes| == 0 {
      assert Within(pixels, []) == 0 by { WithinNone(pixels); }
    } else {
      var rest := classes[1..];
      assert classes == [classes[0]] + rest;
      assert classes[0] !in rest by {
        forall u | u in rest ensures classes[0] < u {
          var i :| 0 <= i < |rest| && rest[i] == u;
          assert classes[i + 1] == u;
        }
      }
      SumOfCounts(pixels, rest);
      WithinSplit(pixels, classes[0], rest);
    }
  }

  lemma {:induction false} WithinNone(pixels: seq<int>)
    ensures Within(pixels, []) == 0
    decreases |pixels|
  {
    if |pixels| > 0 {
      WithinNone(pixels[1..]);
    }
  }

  /** What np.unique returns: the classes are strictly increasing and are
      exactly the values the pixels hold; each count is how often its
      class occurs and is at least 1; the counts add up to the number of
      pixels, which is the total the weights divide by. */
  lemma UniqueFacts(pixels: seq<int>)
    ensures var (classes, counts) := Unique(pixels);
      && StrictlyIncreasing(classes)
      && (forall u :: u in classes <==> u in pixels)
      && |counts| == |classes|
      && (forall k :: 0 <= k < |counts| ==> counts[k] == Occurrences(pixels, classes[k]) && counts[k] >= 1)
      && SumInt(counts) == |pixels|
  {
    var classes := Classes(pixels, |pixels|);
    var counts := Counts(pixels, classes);
    assert Unique(pixels) == (classes, counts);
    assert pixels[..|pixels|] == pixels;
    assert forall u :: u in classes <==> u in pixels;
    forall k | 0 <= k < |classes| ensures counts[k] >= 1 {
      OccursIff(pixels, classes[k]);
    }
    SumOfCounts(pixels, classes);
    assert forall i :: 0 <= i < |pixels| ==> pixels[i] in classes by {
      forall i | 0 <= i < |pixels| ensures pixels[i] in classes {
        assert pixels[i] in pixels;
      }
    }
    WithinAll(pixels, classes);
  }

  // ---------------------------------------------------------------------
  // The weights
  // ---------------------------------------------------------------------

  /** weights.min() of an empty array raises ValueError: there are no
      pixels.  class_names[c] raises IndexError for a class with no name. */
  datatype WeightError = NoPixels | UnnamedClass(classCode: int)

  predicate Positive(counts: seq<nat>) {
    forall k :: 0 <= k < |counts| ==> counts[k] > 0
  }

  /** 1.0 / (count / total). */
  function InverseFrequency(count: nat, total: nat): real
    requires count > 0 && total > 0
  {
    1.0 / ((count as real) / (total as real))
  }

  function Inverses(counts: seq<nat>, total: nat): (r: seq<real>)
    requires Positive(counts) && total > 0
    ensures |r| == |counts|
    ensures forall k :: 0 <= k < |r| ==> r[k] == InverseFrequency(counts[k], total)
    decreases |counts|
  {
    if |counts| == 0 then []
    else [InverseFrequency(counts[0], total)] + Inverses(counts[1..], total)
  }

  /** weights / weights.min(), entry by entry. */
  function DivideBy(s: seq<real>, m: real): (r: seq<real>)
    requires m != 0.0
    ensures |r| == |s|
    ensures forall k :: 0 <= k < |r| ==> r[k] == s[k] / m
    decreases |s|
  {
    if |s| == 0 then [] else [s[0] / m] + DivideBy(s[1..], m)
  }

  lemma {:induction false} SumOfPositive(counts: seq<nat>)
    requires Positive(counts) && |counts| >= 1
    ensures SumInt(counts) >= counts[0] > 0
    decreases |counts|
  {
    if |counts| > 1 {
      SumOfPositive(counts[1..]);
    } else {
      assert counts[1..] == [];
    }
  }

  lemma {:induction false} SumOfNat(counts: seq<nat>)
    ensures SumInt(counts) >= 0
    decreases |counts|
  {
    if |counts| > 0 {
      SumOfNat(counts[1..]);
    }
  }

  /** The weights for np.unique's counts: total = counts.sum(), frequency
      count / total, inverse frequency, divided by the smallest inverse. */
  function Weights(counts: seq<nat>): Result<seq<real>, WeightError>
    requires Positive(counts)
  {
    if |counts| == 0 then Failure(NoPixels)
    else
      SumOfPositive(counts);
      var total := SumInt(counts);
      var inverses := Inverses(counts, total);
      var least := MinOf(inverses);
      assert least > 0.0 by { InversePositive(counts, total, inverses, least); }
      Success(DivideBy(inverses, least))
  }

  lemma InversePositive(counts: seq<nat>, total: nat, inverses: seq<real>, least: real)
    requires Positive(counts) && total > 0 && |counts| >= 1
    requires inverses == Inverses(counts, total)
    requires exists k :: 0 <= k < |inverses| && least == inverses[k]
    ensures least > 0.0
  {
    var k :| 0 <= k < |inverses| && least == inverses[k];
    InverseForm(counts[k], total);
  }

  /** The largest count. */
  function MaxCount(counts: seq<nat>): (m: nat)
    requires |counts| >= 1
    ensures forall k :: 0 <= k < |counts| ==> counts[k] <= m
    ensures exists k :: 0 <= k < |counts| && counts[k] == m
    decreases |counts|
  {
    if |counts| == 1 then counts[0]
    else
      var rest := MaxCount(counts[1..]);
      assert forall k :: 1 <= k < |counts| ==> counts[k] == counts[1..][k - 1];
      if counts[0] >= rest then counts[0] else rest
  }

  /** The weight a class should get: the largest count over its own count,
      so the most frequent class weighs 1 and rarer classes weigh more. */
  function ReferenceWeight(counts: seq<nat>, k: nat): real
    requires Positive(counts) && k < |counts|
  {
    (MaxCount(counts) as real) / (counts[k] as real)
  }

  // Small facts of real arithmetic, one each.

  lemma InverseForm(count: nat, total: nat)
    requires count > 0 && total > 0
    ensures InverseFrequency(count, total) == (total as real) / (count as real)
    ensures InverseFrequency(count, total) > 0.0
  {
  }

  lemma RatioOfInverses(t: real, a: real, b: real)
    requires t > 0.0 && a > 0.0 && b > 0.0
    ensures (t / a) / (t / b) == b / a
  {
    calc {
      (t / a) / (t / b);
      (t / a) * (b / t);
      b / a;
    }
  }

  /** Dividing by the larger of two positive numbers gives less. */
  lemma InverseOrder(t: real, a: real, b: real)
    requires t > 0.0 && 0.0 < a <= b
    ensures t / b <= t / a
  {
    var qa, qb := t / a, t / b;
    assert qa * a == t && qb * b == t;
    assert qb * (b - a) >= 0.0;
    assert (qa - qb) * a == t - qb * a;
    FactorSign(qa - qb, a);
  }

  /** And back: a quotient no larger means a divisor no smaller. */
  lemma InverseOrderBack(t: real, a: real, b: real)
    requires t > 0.0 && a > 0.0 && b > 0.0 && t / a <= t / b
    ensures b <= a
  {
    var qa, qb := t / a, t / b;
    assert qa * a == t && qb * b == t;
    assert qb > 0.0;
    assert (qb - qa) * a >= 0.0;
    assert (a - b) * qb == qb * a - t;
    FactorSign(a - b, qb);
  }

  lemma SelfRatio(x: real)
    requires x > 0.0
    ensures x / x == 1.0
  {
  }

  lemma AtLeastOne(x: real, m: real)
    requires 0.0 < m <= x
    ensures x / m >= 1.0
  {
    var q := x / m;
    assert q * m == x;
    assert (q - 1.0) * m == x - m;
    FactorSign(q - 1.0, m);
  }

  /** The smallest inverse frequency belongs to a class with the largest
      count. */
  lemma LeastInverse(counts: seq<nat>, total: nat, j: nat)
    requires Positive(counts) && total > 0 && j < |counts|
    requires forall k :: 0 <= k < |counts| ==> InverseFrequency(counts[j], total) <= InverseFrequency(counts[k], total)
    ensures counts[j] == MaxCount(counts)
  {
    var top :| 0 <= top < |counts| && counts[top] == MaxCount(counts);
    InverseForm(counts[j], total);
    InverseForm(counts[top], total);
    InverseOrderBack(total as real, counts[j] as real, counts[top] as real);
  }

  /** The weights exist exactly when there is at least one class (at
      least one pixel); there is one weight per class, it equals the
      reference weight largest count / count, and a class with the
      largest count weighs exactly 1. */
  lemma WeightsMatchReference(counts: seq<nat>)
    requires Positive(counts)
    ensures Weights(counts).Success? <==> |counts| >= 1
    ensures Weights(counts).Success? ==>
      var w := Weights(counts).value;
      && |w| == |counts|
      && (forall k :: 0 <= k < |w| ==> w[k] == ReferenceWeight(counts, k))
      && (forall k :: 0 <= k < |w| && counts[k] == MaxCount(counts) ==> w[k] == 1.0)
  {
    if |counts| >= 1 {
      SumOfPositive(counts);
      var total := SumInt(counts);
      var t := total as real;
      var inverses := Inverses(counts, total);
      var least := MinOf(inverses);
      var j :| 0 <= j < |inverses| && least == inverses[j];
      InverseForm(counts[j], total);
      LeastInverse(counts, total, j);
      var w := DivideBy(inverses, least);
      assert Weights(counts) == Success(w);
      forall k | 0 <= k < |w| ensures w[k] == ReferenceWeight(counts, k) {
        InverseForm(counts[k], total);
        RatioOfInverses(t, counts[k] as real, counts[j] as real);
      }
      forall k | 0 <= k < |w| && counts[k] == MaxCount(counts) ensures w[k] == 1.0 {
        assert inverses[k] == least;
        SelfRatio(least);
      }
    }
  }

  /** No weight is below 1, and a more frequent class never weighs more
      than a rarer one. */
  lemma WeightsOrder(counts: seq<nat>)
    requires Positive(counts) && |counts| >= 1
    ensures var w := Weights(counts).value;
      && (forall k :: 0 <= k < |w| ==> w[k] >= 1.0)
      && forall a, b :: 0 <= a < |w| && 0 <= b < |w| && counts[a] <= counts[b] ==> w[b] <= w[a]
  {
    WeightsMatchReference(counts);
    var w := Weights(counts).value;
    var m := MaxCount(counts) as real;
    forall k | 0 <= k < |w| ensures w[k] >= 1.0 {
      AtLeastOne(m, counts[k] as real);
    }
    forall a, b | 0 <= a < |w| && 0 <= b < |w| && counts[a] <= counts[b] ensures w[b] <= w[a] {
      InverseOrder(m, counts[a] as real, counts[b] as real);
    }
  }

  // ---------------------------------------------------------------------
  // The class_names[c] lookups of the reporting loop
  // ---------------------------------------------------------------------

  /** class_names[c] on a list of n names: Python accepts an index from
      -n (counting from the end) up to n - 1. */
  predicate Named(c: int, n: nat) {
    -(n as int) <= c < n
  }

  /** Where the loop over np.unique's classes first looks up a class with
      no name; |classes| when every class has one. */
  function FirstUnnamed(classes: seq<int>, n: nat): (r: nat)
    ensures r <= |classes|
    ensures forall j :: 0 <= j < r ==> Named(classes[j], n)
    ensures r < |classes| ==> !Named(classes[r], n)
    decreases |classes|
  {
    if |classes| == 0 || !Named(classes[0], n) then 0
    else 1 + FirstUnnamed(classes[1..], n)
  }

  /** compute_class_weights over the flattened training labels, with
      class_names holding numNames entries: one weight per class present,
      in increasing class order; no pixels, no weights; a class that
      class_names cannot name aborts the call. */
  function ClassWeightsOf(pixels: seq<int>, numNames: nat): Result<seq<real>, WeightError> {
    UniqueFacts(pixels);
    var (classes, counts) := Unique(pixels);
    var bad := FirstUnnamed(classes, numNames);
    if bad < |classes| then Failure(UnnamedClass(classes[bad]))
    else Weights(counts)
  }

  /** The class-name check over np.unique's classes passes exactly when
      every label value has a name; otherwise it stops at the smallest
      label value without one. */
  lemma FirstUnnamedOfPixels(classes: seq<int>, pixels: seq<int>, numNames: nat)
    requires StrictlyIncreasing(classes)
    requires forall u :: u in classes <==> u in pixels
    ensures var bad := FirstUnnamed(classes, numNames);
      && (bad == |classes| <==> forall p :: p in pixels ==> Named(p, numNames))
      && (bad < |classes| ==>
            && classes[bad] in pixels && !Named(classes[bad], numNames)
            && forall p :: p in pixels && p < classes[bad] ==> Named(p, numNames))
  {
    var bad := FirstUnnamed(classes, numNames);
    if bad < |classes| {
      assert classes[bad] in classes;
      forall p | p in pixels && p < classes[bad] ensures Named(p, numNames) {
        assert p in classes;
        var j :| 0 <= j < |classes| && classes[j] == p;
        assert j < bad;
      }
    } else {
      forall p | p in pixels ensures Named(p, numNames) {
        assert p in classes;
        var j :| 0 <= j < |classes| && classes[j] == p;
      }
    }
  }

  /** The weights of the training labels: they exist exactly when there
      is a pixel and class_names names every label value; otherwise the
      error is NoPixels for no pixels, or the smallest label value without
      a name.  The k-th weight belongs to the k-th class present, is the
      largest class count over that class's count, and is at least 1. */
  lemma ClassWeightsFacts(pixels: seq<int>, numNames: nat)
    ensures ClassWeightsOf(pixels, numNames).Success? <==>
      |pixels| >= 1 && forall p :: p in pixels ==> Named(p, numNames)
    ensures ClassWeightsOf(pixels, numNames) == Failure(NoPixels) <==> |pixels| == 0
    ensures ClassWeightsOf(pixels, numNames).Failure? && ClassWeightsOf(pixels, numNames).error.UnnamedClass? ==>
      var c := ClassWeightsOf(pixels, numNames).error.classCode;
      && c in pixels && !Named(c, numNames)
      && forall p :: p in pixels && p < c ==> Named(p, numNames)
    ensures ClassWeightsOf(pixels, numNames).Success? ==>
      var (classes, counts) := Unique(pixels);
      var w := ClassWeightsOf(pixels, numNames).value;
      && |w| == |classes|
      && forall k :: 0 <= k < |w| ==>
           && Occurrences(pixels, classes[k]) >= 1
           && w[k] == (MaxCount(counts) as real) / (Occurrences(pixels, classes[k]) as real)
           && w[k] >= 1.0
  {
    UniqueFacts(pixels);
    var (classes, counts) := Unique(pixels);
    FirstUnnamedOfPixels(classes, pixels, numNames);
    var bad := FirstUnnamed(classes, numNames);
    if bad < |classes| {
      assert ClassWeightsOf(pixels, numNames) == Failure(UnnamedClass(classes[bad]));
      assert |pixels| >= 1 by { assert classes[bad] in pixels; }
    } else {
      assert ClassWeightsOf(pixels, numNames) == Weights(counts);
      WeightsMatchReference(counts);
      if |pixels| >= 1 {
        assert pixels[0] in pixels;
        assert |classes| >= 1;
        WeightsOrder(counts);
      } else {
        assert classes == Classes(pixels, 0) == [];
      }
    }
  }
}
