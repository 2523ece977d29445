/** Shared value types and small sequence/string functions used by every
    part of the model: optional values, results with an error, decimal
    rendering of integers (Python's str(int)), str.split on one character,
    str.join, and the sum and minimum of a list of numbers. */
module Common {

  datatype Option<+T> = None | Some(value: T)

  datatype Result<+T, +E> = Success(value: T) | Failure(error: E)

  // ---------------------------------------------------------------------
  // Decimal rendering of integers, as Python's f"{n}" does it.
  // ---------------------------------------------------------------------

  function DigitChar(d: nat): (c: char)
    requires d < 10
    ensures '0' <= c <= '9'
    ensures c as int - '0' as int == d
  {
    ['0', '1', '2', '3', '4', '5', '6', '7', '8', '9'][d]
  }

  predicate IsDigits(s: string) {
    forall i :: 0 <= i < |s| ==> '0' <= s[i] <= '9'
  }

  /** The number a string of decimal digits denotes, most significant first. */
  function DigitsValue(s: string): nat
    requires IsDigits(s)
    decreases |s|
  {
    if |s| == 0 then 0 else DigitsValue(s[..|s| - 1]) * 10 + (s[|s| - 1] as int - '0' as int)
  }

  /** The decimal digits of `n`, most significant first, with no leading zero. */
  function NatToString(n: nat): (s: string)
    ensures |s| >= 1 && IsDigits(s)
    ensures n < 10 <==> |s| == 1
    ensures s[0] != '0' || n == 0
    decreases n
  {
    if n < 10 then [DigitChar(n)] else NatToString(n / 10) + [DigitChar(n % 10)]
  }

  /** The rendering denotes n: reading its digits back gives n. */
  lemma {:induction false} NatToStringValue(n: nat)
    ensures DigitsValue(NatToString(n)) == n
    decreases n
  {
    if n >= 10 {
      var s := NatToString(n);
      assert s[..|s| - 1] == NatToString(n / 10);
      NatToStringValue(n / 10);
    }
  }

  /** Different numbers never share a decimal rendering. */
  lemma {:induction false} NatToStringInjective(a: nat, b: nat)
    requires NatToString(a) == NatToString(b)
    ensures a == b
    decreases a
  {
    if a >= 10 && b >= 10 {
      var sa, sb := NatToString(a), NatToString(b);
      assert sa[..|sa| - 1] == NatToString(a / 10);
      assert sb[..|sb| - 1] == NatToString(b / 10);
      assert sa[|sa| - 1] == DigitChar(a % 10);
      assert sb[|sb| - 1] == DigitChar(b % 10);
      NatToStringInjective(a / 10, b / 10);
    }
  }

  /** Python's str(i) for an arbitrary integer: a minus sign exactly for a
      negative number, then the decimal digits of its magnitude. */
  function IntToString(i: int): (s: string)
    ensures |s| >= 1
    ensures s[0] == '-' <==> i < 0
    ensures i >= 0 ==> IsDigits(s) && DigitsValue(s) == i
    ensures i < 0 ==> |s| >= 2 && IsDigits(s[1..]) && DigitsValue(s[1..]) == -i
  {
    if i < 0 then
      var d := NatToString(-i);
      NatToStringValue(-i);
      SignThenDigits(d);
      "-" + d
    else
      NatToStringValue(i);
      NatToString(i)
  }

  lemma SignThenDigits(d: string)
    ensures |"-" + d| == |d| + 1 && ("-" + d)[0] == '-' && ("-" + d)[1..] == d
  {
  }

  /** Different integers never share a rendering. */
  lemma IntToStringInjective(a: int, b: int)
    requires IntToString(a) == IntToString(b)
    ensures a == b
  {
    var s := IntToString(a);
    if a < 0 {
      assert DigitsValue(s[1..]) == -a && DigitsValue(s[1..]) == -b;
    } else {
      assert DigitsValue(s) == a && DigitsValue(s) == b;
    }
  }

  // ---------------------------------------------------------------------
  // str.split(c) for a one-character separator, and str.join.
  // ---------------------------------------------------------------------

  /** Python's s.split(c): the pieces between occurrences of c; there is always at least one. */
  function Split(s: string, c: char): (r: seq<string>)
    ensures |r| >= 1
    ensures forall k :: 0 <= k < |r| ==> c !in r[k]
    decreases |s|
  {
    if |s| == 0 then [""]
    else if s[0] == c then [""] + Split(s[1..], c)
    else
      var rest := Split(s[1..], c);
      [[s[0]] + rest[0]] + rest[1..]
  }

  /** Python's sep.join(xs). */
  function Join(xs: seq<string>, sep: string): string
    decreases |xs|
  {
    if |xs| == 0 then ""
    else if |xs| == 1 then xs[0]
    else xs[0] + sep + Join(xs[1..], sep)
  }

  lemma {:induction false} SplitWithoutSeparator(a: string, c: char)
    requires c !in a
    ensures Split(a, c) == [a]
    decreases |a|
  {
    if |a| > 0 {
      SplitWithoutSeparator(a[1..], c);
      assert [a[0]] + a[1..] == a;
    }
  }

  /** Text before the first separator extends the first piece only. */
  lemma {:induction false} SplitAfterPrefix(a: string, s: string, c: char)
    requires c !in a
    ensures Split(a + s, c) == [a + Split(s, c)[0]] + Split(s, c)[1..]
    decreases |a|
  {
    if |a| == 0 {
      assert a + s == s;
      assert a + Split(s, c)[0] == Split(s, c)[0];
      assert [Split(s, c)[0]] + Split(s, c)[1..] == Split(s, c);
    } else {
      var t := a + s;
      assert t[0] == a[0] && t[0] != c;
      assert t[1..] == a[1..] + s;
      SplitAfterPrefix(a[1..], s, c);
      var rest := Split(t[1..], c);
      assert rest == [a[1..] + Split(s, c)[0]] + Split(s, c)[1..];
      assert Split(t, c) == [[t[0]] + rest[0]] + rest[1..];
      assert [a[0]] + (a[1..] + Split(s, c)[0]) == a + Split(s, c)[0];
    }
  }

  /** A string that starts with the separator has an empty first piece. */
  lemma SplitLeading(s: string, c: char)
    requires |s| >= 1 && s[0] == c
    ensures Split(s, c)[0] == ""
  {
  }

  /** One character in front: a separator starts a new first piece, any
      other character joins the first piece. */
  lemma SplitCons(x: char, s: string, c: char)
    ensures Split([x] + s, c) ==
      if x == c then [""] + Split(s, c) else [[x] + Split(s, c)[0]] + Split(s, c)[1..]
  {
    var t := [x] + s;
    assert t[0] == x && t[1..] == s;
  }

  /** Putting one character in front of two strings whose pieces agree
      (up to the pieces that follow) keeps them agreeing. */
  lemma SplitConsStep(x: char, u: string, v: string, rest: seq<string>, c: char)
    requires Split(u, c) == Split(v, c) + rest
    ensures Split([x] + u, c) == Split([x] + v, c) + rest
  {
    SplitCons(x, u, c);
    SplitCons(x, v, c);
    if x == c {
      SeqConsAssoc("", Split(v, c), rest);
    } else {
      SeqHeadAssoc([x] + Split(v, c)[0], Split(v, c), rest);
    }
  }

  lemma SeqConsAssoc<T>(h: T, front: seq<T>, rest: seq<T>)
    ensures [h] + (front + rest) == ([h] + front) + rest
  {
  }

  lemma SeqHeadAssoc<T>(h: T, front: seq<T>, rest: seq<T>)
    requires |front| >= 1
    ensures [h] + (front + rest)[1..] == ([h] + front[1..]) + rest
  {
    assert (front + rest)[1..] == front[1..] + rest;
  }

  /** A separator between two strings splits them apart: the pieces of
      the first followed by the pieces of the second. */
  lemma {:induction false} SplitAppend(a: string, b: string, c: char)
    ensures Split(a + [c] + b, c) == Split(a, c) + Split(b, c)
    decreases |a|
  {
    if |a| == 0 {
      assert a + [c] + b == [c] + b;
      SplitCons(c, b, c);
    } else {
      var a' := a[1..];
      assert a == [a[0]] + a';
      assert a + [c] + b == [a[0]] + (a' + [c] + b);
      SplitAppend(a', b, c);
      SplitConsStep(a[0], a' + [c] + b, a', Split(b, c), c);
    }
  }

  /** Splitting a join on a separator that no piece contains gives the pieces back. */
  lemma {:induction false} SplitJoin(xs: seq<string>, c: char)
    requires |xs| >= 1
    requires forall k :: 0 <= k < |xs| ==> c !in xs[k]
    ensures Split(Join(xs, [c]), c) == xs
    decreases |xs|
  {
    if |xs| == 1 {
      SplitWithoutSeparator(xs[0], c);
    } else {
      var rest := Join(xs[1..], [c]);
      SplitJoin(xs[1..], c);
      assert xs[0] + [c] + rest == xs[0] + ([c] + rest);
      SplitAfterPrefix(xs[0], [c] + rest, c);
      assert ([c] + rest)[1..] == rest;
      assert Split([c] + rest, c) == [""] + xs[1..];
      assert xs[0] + "" == xs[0];
      assert [xs[0]] + xs[1..] == xs;
    }
  }

  /** Joining the pieces of a split gives the original string back. */
  lemma {:induction false} JoinSplit(s: string, c: char)
    ensures Join(Split(s, c), [c]) == s
    decreases |s|
  {
    if |s| > 0 {
      JoinSplit(s[1..], c);
      var rest := Split(s[1..], c);
      if s[0] == c {
        assert Split(s, c) == [""] + rest;
        assert Join([""] + rest, [c]) == "" + [c] + Join(rest, [c]);
        assert [s[0]] + s[1..] == s;
      } else {
        var r := Split(s, c);
        assert r == [[s[0]] + rest[0]] + rest[1..];
        if |rest| == 1 {
          assert Join(r, [c]) == [s[0]] + rest[0];
          assert [s[0]] + s[1..] == s;
        } else {
          assert r[1..] == rest[1..];
          assert Join(rest, [c]) == rest[0] + [c] + Join(rest[1..], [c]);
          assert Join(r, [c]) == [s[0]] + rest[0] + [c] + Join(rest[1..], [c]);
          assert [s[0]] + s[1..] == s;
        }
      }
    }
  }

  // ---------------------------------------------------------------------
  // Python's sum and min over a list of numbers.
  // ---------------------------------------------------------------------

  function SumInt(s: seq<int>): int
    decreases |s|
  {
    if |s| == 0 then 0 else s[0] + SumInt(s[1..])
  }

  /** Python's min(s); the list must not be empty (min([]) raises). */
  function MinOf(s: seq<real>): (m: real)
    requires |s| >= 1
    ensures forall k :: 0 <= k < |s| ==> m <= s[k]
    ensures exists k :: 0 <= k < |s| && m == s[k]
    decreases |s|
  {
    if |s| == 1 then s[0]
    else
      var rest := MinOf(s[1..]);
      assert forall k :: 1 <= k < |s| ==> s[k] == s[1..][k - 1];
      if s[0] <= rest then s[0] else rest
  }

  /** A product with a positive factor is non-negative only when the
      other factor is. */
  lemma FactorSign(q: real, d: real)
    requires d > 0.0 && q * d >= 0.0
    ensures q >= 0.0
  {
  }

  /** No two entries of s are equal. */
  predicate Distinct<T(==)>(s: seq<T>) {
    forall i, j :: 0 <= i < j < |s| ==> s[i] != s[j]
  }
}
