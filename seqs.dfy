/** Sequence helpers shared by every component: occurrence counts, boolean
    masks (the model of numpy's `a[mask]`), sums, means and variances over
    reals, and the minimum / maximum of a non-empty sequence. */
module Seqs {

  datatype Option<+T> = None | Some(value: T)

  /** The outcome of an operation that can raise. */
  datatype Result<+T, +E> = Success(value: T) | Failure(error: E)

  /** Number of occurrences of `v` in `s` (numpy's `np.sum(s == v)`). */
  function Count<T(==)>(s: seq<T>, v: T): (n: nat)
    ensures n <= |s|
  {
    if s == [] then 0
    else Count(s[..|s| - 1], v) + (if s[|s| - 1] == v then 1 else 0)
  }

  lemma {:induction false} CountPositive<T>(s: seq<T>, v: T)
    ensures Count(s, v) > 0 <==> v in s
  {
    if s != [] {
      var n := |s| - 1;
      CountPositive(s[..n], v);
      assert s == s[..n] + [s[n]];
    }
  }

  lemma CountSnoc<T>(s: seq<T>, x: T, v: T)
    ensures Count(s + [x], v) == Count(s, v) + (if x == v then 1 else 0)
  {
    assert (s + [x])[..|s|] == s;
  }

  lemma CountPrefix<T>(s: seq<T>, i: nat, v: T)
    requires i < |s|
    ensures Count(s[..i + 1], v) == Count(s[..i], v) + (if s[i] == v then 1 else 0)
  {
    assert s[..i + 1] == s[..i] + [s[i]];
    CountSnoc(s[..i], s[i], v);
  }

  lemma {:induction false} CountAppend<T>(s: seq<T>, t: seq<T>, v: T)
    ensures Count(s + t, v) == Count(s, v) + Count(t, v)
  {
    if t == [] {
      assert s + t == s;
    } else {
      var t' := t[..|t| - 1];
      assert t == t' + [t[|t| - 1]];
      assert s + t == (s + t') + [t[|t| - 1]];
      CountSnoc(s + t', t[|t| - 1], v);
      CountSnoc(t', t[|t| - 1], v);
      CountAppend(s, t', v);
    }
  }

  /** `s[mask]` for a boolean mask of the same length: the elements whose
      mask entry is true, in their original order. */
  function Mask<T>(s: seq<T>, mask: seq<bool>): (r: seq<T>)
    requires |s| == |mask|
    ensures |r| == Count(mask, true)
    ensures forall x :: x in r ==> x in s
  {
    if s == [] then []
    else Mask(s[..|s| - 1], mask[..|s| - 1]) + (if mask[|s| - 1] then [s[|s| - 1]] else [])
  }

  lemma MaskSnoc<T>(s: seq<T>, mask: seq<bool>, x: T, b: bool)
    requires |s| == |mask|
    ensures Mask(s + [x], mask + [b]) == Mask(s, mask) + (if b then [x] else [])
  {
    assert (s + [x])[..|s|] == s;
    assert (mask + [b])[..|s|] == mask;
  }

  lemma MaskPrefix<T>(s: seq<T>, mask: seq<bool>, i: nat)
    requires |s| == |mask| && i < |s|
    ensures Mask(s[..i + 1], mask[..i + 1]) == Mask(s[..i], mask[..i]) + (if mask[i] then [s[i]] else [])
  {
    assert s[..i + 1] == s[..i] + [s[i]];
    assert mask[..i + 1] == mask[..i] + [mask[i]];
    MaskSnoc(s[..i], mask[..i], s[i], mask[i]);
  }

  /** An element of `s` whose mask entry is true survives the mask. */
  lemma {:induction false} InMask<T>(s: seq<T>, mask: seq<bool>, i: nat)
    requires |s| == |mask| && i < |s| && mask[i]
    ensures s[i] in Mask(s, mask)
  {
    var n := |s| - 1;
    if i < n {
      InMask(s[..n], mask[..n], i);
    }
  }

  /** Every element of a mask comes from a position whose mask entry is true. */
  lemma {:induction false} MaskFrom<T>(s: seq<T>, mask: seq<bool>, x: T)
    requires |s| == |mask| && x in Mask(s, mask)
    ensures exists i :: 0 <= i < |s| && mask[i] && s[i] == x
  {
    var n := |s| - 1;
    if x in Mask(s[..n], mask[..n]) {
      MaskFrom(s[..n], mask[..n], x);
      var i :| 0 <= i < n && mask[..n][i] && s[..n][i] == x;
      assert mask[i] && s[i] == x;
    } else {
      assert mask[n] && s[n] == x;
    }
  }

  lemma {:induction false} MaskAppend<T>(s: seq<T>, m: seq<bool>, t: seq<T>, n: seq<bool>)
    requires |s| == |m| && |t| == |n|
    ensures Mask(s + t, m + n) == Mask(s, m) + Mask(t, n)
  {
    if t == [] {
      assert s + t == s && m + n == m;
    } else {
      var k := |t| - 1;
      assert t == t[..k] + [t[k]] && n == n[..k] + [n[k]];
      assert s + t == (s + t[..k]) + [t[k]];
      assert m + n == (m + n[..k]) + [n[k]];
      MaskSnoc(s + t[..k], m + n[..k], t[k], n[k]);
      MaskSnoc(t[..k], n[..k], t[k], n[k]);
      MaskAppend(s, m, t[..k], n[..k]);
    }
  }

  function Sum(s: seq<real>): real
  {
    if s == [] then 0.0 else Sum(s[..|s| - 1]) + s[|s| - 1]
  }

  lemma SumSnoc(s: seq<real>, x: real)
    ensures Sum(s + [x]) == Sum(s) + x
  {
    assert (s + [x])[..|s|] == s;
  }

  /** Conversion of an integer sequence to reals (numpy's implicit float cast). */
  function Reals(s: seq<int>): (r: seq<real>)
    ensures |r| == |s|
    ensures forall i :: 0 <= i < |s| ==> r[i] == s[i] as real
  {
    seq(|s|, i requires 0 <= i < |s| => s[i] as real)
  }

  /** `np.mean` of a non-empty sequence. */
  function Mean(s: seq<real>): real
    requires |s| > 0
  {
    Sum(s) / (|s| as real)
  }

  function Square(x: real): real
  {
    x * x
  }

  /** A square is never negative, and it is 0 only at 0. */
  lemma SquareSign(x: real)
    ensures Square(x) >= 0.0
    ensures Square(x) == 0.0 <==> x == 0.0
  {
    if x < 0.0 {
      calc { Square(x); == (-x) * (-x); > 0.0; }
    } else if x > 0.0 {
      calc { Square(x); == x * x; > 0.0; }
    }
  }

  function SquaredDeviations(s: seq<real>, m: real): (r: seq<real>)
    ensures |r| == |s|
  {
    seq(|s|, i requires 0 <= i < |s| => Square(s[i] - m))
  }

  /** Population variance (numpy's default, ddof = 0); `np.std` is its square root. */
  function Variance(s: seq<real>): real
    requires |s| > 0
  {
    Mean(SquaredDeviations(s, Mean(s)))
  }

  lemma {:induction false} SumNonNegative(s: seq<real>)
    requires forall i :: 0 <= i < |s| ==> s[i] >= 0.0
    ensures Sum(s) >= 0.0
  {
    if s != [] {
      SumNonNegative(s[..|s| - 1]);
    }
  }

  lemma VarianceNonNegative(s: seq<real>)
    requires |s| > 0
    ensures Variance(s) >= 0.0
  {
    var d := SquaredDeviations(s, Mean(s));
    forall i | 0 <= i < |d| ensures d[i] >= 0.0 {
      SquareSign(s[i] - Mean(s));
    }
    SumNonNegative(d);
  }

  lemma {:induction false} SumZeroOfNonNegative(s: seq<real>)
    requires forall i :: 0 <= i < |s| ==> s[i] >= 0.0
    requires Sum(s) == 0.0
    ensures forall i :: 0 <= i < |s| ==> s[i] == 0.0
  {
    if s != [] {
      var n := |s| - 1;
      SumNonNegative(s[..n]);
      SumZeroOfNonNegative(s[..n]);
      assert forall i :: 0 <= i < n ==> s[i] == s[..n][i];
    }
  }

  lemma {:induction false} SumConstant(s: seq<real>, c: real)
    requires forall i :: 0 <= i < |s| ==> s[i] == c
    ensures Sum(s) == (|s| as real) * c
  {
    if s != [] {
      SumConstant(s[..|s| - 1], c);
    }
  }

  /** The population variance vanishes exactly on constant sequences. */
  lemma VarianceZeroIff(s: seq<real>)
    requires |s| > 0
    ensures Variance(s) == 0.0 <==> forall i :: 0 <= i < |s| ==> s[i] == s[0]
  {
    var m := Mean(s);
    var d := SquaredDeviations(s, m);
    forall i | 0 <= i < |d| ensures d[i] >= 0.0 {
      SquareSign(s[i] - m);
    }
    SumNonNegative(d);
    if Variance(s) == 0.0 {
      assert Sum(d) == 0.0;
      SumZeroOfNonNegative(d);
      forall i | 0 <= i < |s| ensures s[i] == m {
        assert d[i] == Square(s[i] - m) && d[i] == 0.0;
        SquareSign(s[i] - m);
      }
    }
    if forall i :: 0 <= i < |s| ==> s[i] == s[0] {
      SumConstant(s, s[0]);
      assert m == s[0];
      forall i | 0 <= i < |d| ensures d[i] == 0.0 {
        SquareSign(s[i] - m);
      }
      SumConstant(d, 0.0);
    }
  }

  lemma {:induction false} SumBounds(s: seq<real>, lo: real, hi: real)
    requires forall i :: 0 <= i < |s| ==> lo <= s[i] <= hi
    ensures (|s| as real) * lo <= Sum(s) <= (|s| as real) * hi
  {
    if s != [] {
      var n := |s| - 1;
      SumBounds(s[..n], lo, hi);
      assert (|s| as real) * lo == (n as real) * lo + lo;
      assert (|s| as real) * hi == (n as real) * hi + hi;
    }
  }

  /** The mean of values in [lo, hi] lies in [lo, hi]. */
  lemma MeanBounds(s: seq<real>, lo: real, hi: real)
    requires |s| > 0
    requires forall i :: 0 <= i < |s| ==> lo <= s[i] <= hi
    ensures lo <= Mean(s) <= hi
  {
    SumBounds(s, lo, hi);
    var n := |s| as real;
    assert Mean(s) * n == Sum(s);
  }

  /** Python's `min` over a non-empty sequence. */
  function MinOf(s: seq<real>): (m: real)
    requires |s| > 0
    ensures m in s
    ensures forall i :: 0 <= i < |s| ==> m <= s[i]
  {
    if |s| == 1 then s[0]
    else
      var m' := MinOf(s[1..]);
      assert forall i :: 1 <= i < |s| ==> s[i] == s[1..][i - 1];
      if s[0] < m' then s[0] else m'
  }

  /** Python's `max` over a non-empty sequence. */
  function MaxOf(s: seq<real>): (m: real)
    requires |s| > 0
    ensures m in s
    ensures forall i :: 0 <= i < |s| ==> s[i] <= m
  {
    if |s| == 1 then s[0]
    else
      var m' := MaxOf(s[1..]);
      assert forall i :: 1 <= i < |s| ==> s[i] == s[1..][i - 1];
      if s[0] > m' then s[0] else m'
  }

  /** `np.max` over a non-empty integer sequence. */
  function MaxInt(s: seq<int>): (m: int)
    requires |s| > 0
    ensures m in s
    ensures forall i :: 0 <= i < |s| ==> s[i] <= m
  {
    if |s| == 1 then s[0]
    else
      var m' := MaxInt(s[1..]);
      assert forall i :: 1 <= i < |s| ==> s[i] == s[1..][i - 1];
      if s[0] > m' then s[0] else m'
  }

  /** `np.diff`. */
  function Diff(s: seq<int>): (d: seq<int>)
    ensures |d| == if s == [] then 0 else |s| - 1
    ensures forall i {:trigger d[i]} :: 0 <= i < |d| ==> d[i] == s[i + 1] - s[i]
  {
    if |s| <= 1 then [] else seq(|s| - 1, i requires 0 <= i < |s| - 1 => s[i + 1] - s[i])
  }

  /** `f` applied to every element. */
  function MapSeq<T, U>(f: T -> U, s: seq<T>): (r: seq<U>)
    ensures |r| == |s|
    ensures forall i :: 0 <= i < |s| ==> r[i] == f(s[i])
  {
    if s == [] then [] else MapSeq(f, s[..|s| - 1]) + [f(s[|s| - 1])]
  }

  /** The elements satisfying `p`, in order (a boolean-mask selection whose
      mask is computed element-wise). */
  function Filter<T(!new)>(p: T -> bool, s: seq<T>): (r: seq<T>)
    ensures forall x :: x in r <==> x in s && p(x)
  {
    var m := MapSeq(p, s);
    assert forall x :: x in s && p(x) ==> x in Mask(s, m) by {
      forall x | x in s && p(x) ensures x in Mask(s, m) {
        var i :| 0 <= i < |s| && s[i] == x;
        InMask(s, m, i);
      }
    }
    assert forall x :: x in Mask(s, m) ==> p(x) by {
      forall x | x in Mask(s, m) ensures p(x) {
        MaskFrom(s, m, x);
      }
    }
    Mask(s, m)
  }

  /** Masking commutes with applying a function element-wise. */
  lemma {:induction false} MaskMap<T, U>(f: T -> U, s: seq<T>, m: seq<bool>)
    requires |s| == |m|
    ensures Mask(MapSeq(f, s), m) == MapSeq(f, Mask(s, m))
  {
    if s != [] {
      var n := |s| - 1;
      MaskMap(f, s[..n], m[..n]);
      assert MapSeq(f, s)[..n] == MapSeq(f, s[..n]);
      if m[n] {
        assert MapSeq(f, Mask(s[..n], m[..n]) + [s[n]]) == MapSeq(f, Mask(s[..n], m[..n])) + [f(s[n])];
      }
    }
  }

  /** A mask keeps a strictly increasing sequence strictly increasing. */
  lemma {:induction false} MaskIncreasing(s: seq<int>, m: seq<bool>)
    requires |s| == |m|
    requires forall i, j :: 0 <= i < j < |s| ==> s[i] < s[j]
    ensures forall i, j :: 0 <= i < j < |Mask(s, m)| ==> Mask(s, m)[i] < Mask(s, m)[j]
  {
    if s != [] {
      var n := |s| - 1;
      MaskIncreasing(s[..n], m[..n]);
      var p := Mask(s[..n], m[..n]);
      forall k | 0 <= k < |p| ensures p[k] < s[n] {
        assert p[k] in p;
        var i :| 0 <= i < n && s[..n][i] == p[k];
      }
    }
  }

  /** Concatenation of a sequence of sequences (`np.concatenate`). */
  function Flatten<T>(ss: seq<seq<T>>): seq<T>
  {
    if ss == [] then [] else Flatten(ss[..|ss| - 1]) + ss[|ss| - 1]
  }

  lemma FlattenSnoc<T>(ss: seq<seq<T>>, s: seq<T>)
    ensures Flatten(ss + [s]) == Flatten(ss) + s
  {
    assert (ss + [s])[..|ss|] == ss;
  }
}
