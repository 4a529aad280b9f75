/** The two frequency helpers of mania_hitoffset_monitor.py (copied verbatim
    into simulate_intervals.py and simulate_intervals_0.py; the app's
    `Utils.get_freq_hist` is taken to compute the same histogram):

    - the rank histogram `__get_freq_hist`: the k-th occurrence of a value
      (counting from 0) is given rank k, used to stack equal points in a
      scatter plot;
    - the value count `__get_freq`: each distinct value with its number of
      occurrences. */
module Frequency {
  import opened Seqs

  predicate Distinct<T(==)>(s: seq<T>)
  {
    forall i, j :: 0 <= i < |s| && 0 <= j < |s| && i != j ==> s[i] != s[j]
  }

  /** A mask keeps a sequence free of repetitions. */
  lemma {:induction false} DistinctMask<T>(s: seq<T>, m: seq<bool>)
    requires |s| == |m| && Distinct(s)
    ensures Distinct(Mask(s, m))
  {
    if s != [] {
      var n := |s| - 1;
      assert Distinct(s[..n]);
      DistinctMask(s[..n], m[..n]);
      assert s[n] !in s[..n];
    }
  }

  /** Rank of every position: how many earlier positions hold the same value. */
  function Ranks<T(==)>(data: seq<T>): (r: seq<nat>)
    ensures |r| == |data|
  {
    seq(|data|, i requires 0 <= i < |data| => Count(data[..i], data[i]))
  }

  /** `__get_freq_hist`: starts from a zero array and, for each distinct
      value in turn, writes 0, 1, 2, ... into the positions holding it. */
  method FreqHist<T(==)>(data: seq<T>) returns (freq: seq<nat>)
    ensures freq == Ranks(data)
  {
    var a := new nat[|data|](_ => 0);
    var todo := set x | x in data;
    while todo != {}
      invariant a.Length == |data|
      invariant forall j :: 0 <= j < |data| && data[j] !in todo ==> a[j] == Ranks(data)[j]
      invariant forall j :: 0 <= j < |data| && data[j] in todo ==> a[j] == 0
      decreases todo
    {
      var v :| v in todo;
      WriteRanks(a, data, v);
      todo := todo - {v};
    }
    freq := a[..];
  }

  /** `freq[data == v] = np.arange(len(freq[data == v]))`: the positions
      holding `v` receive 0, 1, 2, ... in order; all others are untouched. */
  method WriteRanks<T(==)>(a: array<nat>, data: seq<T>, v: T)
    requires a.Length == |data|
    modifies a
    ensures forall j :: 0 <= j < |data| ==> a[j] == if data[j] == v then Ranks(data)[j] else old(a[j])
  {
    ghost var rank := Ranks(data);
    var i, k := 0, 0;
    while i < |data|
      invariant 0 <= i <= |data|
      invariant k == Count(data[..i], v)
      invariant forall j :: 0 <= j < i && data[j] == v ==> a[j] == rank[j]
      invariant forall j :: 0 <= j < i && data[j] != v ==> a[j] == old(a[j])
      invariant forall j :: i <= j < |data| ==> a[j] == old(a[j])
    {
      CountPrefix(data, i, v);
      if data[i] == v {
        assert rank[i] == Count(data[..i], data[i]) == k;
        a[i] := k;
        k := k + 1;
      }
      i := i + 1;
    }
  }

  /** The positions holding `v`, in increasing order. */
  function Positions<T(==)>(data: seq<T>, v: T): (p: seq<nat>)
    ensures |p| == Count(data, v)
    ensures forall j :: 0 <= j < |p| ==> p[j] < |data| && data[p[j]] == v
  {
    if data == [] then []
    else
      var n := |data| - 1;
      var p' := Positions(data[..n], v);
      p' + (if data[n] == v then [n] else [])
  }

  lemma {:induction false} PositionsIncreasing<T>(data: seq<T>, v: T)
    ensures forall j, k :: 0 <= j < k < |Positions(data, v)| ==> Positions(data, v)[j] < Positions(data, v)[k]
  {
    if data != [] {
      PositionsIncreasing(data[..|data| - 1], v);
    }
  }

  lemma {:induction false} PositionsComplete<T>(data: seq<T>, v: T, i: nat)
    requires i < |data| && data[i] == v
    ensures i in Positions(data, v)
  {
    var n := |data| - 1;
    if i < n {
      PositionsComplete(data[..n], v, i);
    }
  }

  /** The j-th position of `v` has exactly j occurrences of `v` before it. */
  lemma {:induction false} CountBeforePosition<T>(data: seq<T>, v: T, j: nat)
    requires j < |Positions(data, v)|
    ensures Count(data[..Positions(data, v)[j]], v) == j
  {
    var n := |data| - 1;
    var p' := Positions(data[..n], v);
    if j < |p'| {
      CountBeforePosition(data[..n], v, j);
      assert data[..n][..p'[j]] == data[..p'[j]];
    } else {
      assert data[..n] == data[..Positions(data, v)[j]];
    }
  }

  /** The rank histogram is a bijection within each group of equal values:
      the occurrences of `v`, taken in input order, receive exactly the ranks
      0, 1, ..., Count(data, v) - 1, and every occurrence is one of them. */
  lemma RanksEnumerateOccurrences<T>(data: seq<T>, v: T)
    ensures forall j :: 0 <= j < Count(data, v) ==> Ranks(data)[Positions(data, v)[j]] == j
    ensures forall i :: 0 <= i < |data| && data[i] == v ==> i in Positions(data, v)
    ensures forall j, k :: 0 <= j < k < Count(data, v) ==> Positions(data, v)[j] < Positions(data, v)[k]
  {
    forall j | 0 <= j < Count(data, v) ensures Ranks(data)[Positions(data, v)[j]] == j {
      CountBeforePosition(data, v, j);
    }
    forall i | 0 <= i < |data| && data[i] == v ensures i in Positions(data, v) {
      PositionsComplete(data, v, i);
    }
    PositionsIncreasing(data, v);
  }

  /** Every rank is below the number of occurrences of its value. */
  lemma RankBelowCount<T>(data: seq<T>, i: nat)
    requires i < |data|
    ensures Ranks(data)[i] < Count(data, data[i])
  {
    CountAppend(data[..i], data[i..], data[i]);
    assert data == data[..i] + data[i..];
    assert data[i..] == [data[i]] + data[i + 1..];
    CountAppend([data[i]], data[i + 1..], data[i]);
  }

  /** The example of the rank histogram: [5, 5, 5, 7, 7] gives [0, 1, 2, 0, 1]. */
  lemma RanksExample()
    ensures Ranks([5, 5, 5, 7, 7]) == [0, 1, 2, 0, 1]
  {
    var d := [5, 5, 5, 7, 7];
    assert d[..0] == [] && d[..1] == [5] && d[..2] == [5, 5];
    assert d[..3] == [5, 5, 5] && d[..4] == [5, 5, 5, 7];
    assert [5, 5][..1] == [5] && [5, 5, 5][..2] == [5, 5];
    assert [5, 5, 5, 7][..3] == [5, 5, 5];
  }

  /** `__get_freq`: the distinct values in the (arbitrary) order Python's
      `set` yields them, and the number of occurrences of each. */
  method FreqCount<T(==)>(data: seq<T>) returns (unique: seq<T>, freq: seq<nat>)
    ensures Distinct(unique)
    ensures forall x :: x in unique <==> x in data
    ensures |freq| == |unique|
    ensures forall i :: 0 <= i < |unique| ==> freq[i] == Count(data, unique[i])
  {
    // unique = np.asarray(list(set(data)))
    var rest := set x | x in data;
    unique := [];
    while rest != {}
      invariant Distinct(unique)
      invariant forall x :: x in unique ==> x !in rest
      invariant forall x :: x in data <==> x in unique || x in rest
      decreases rest
    {
      var v :| v in rest;
      unique := unique + [v];
      rest := rest - {v};
    }
    var a := new nat[|unique|](_ => 0);
    var k := 0;
    while k < |unique|
      invariant 0 <= k <= |unique| && a.Length == |unique|
      invariant forall i :: 0 <= i < |unique| ==> a[i] == if i < k then Count(data, unique[i]) else 0
    {
      // freq[unique == val] = np.sum(data == val)
      var val := unique[k];
      var j := 0;
      while j < |unique|
        invariant 0 <= j <= |unique|
        invariant forall i :: 0 <= i < |unique| ==>
          a[i] == if i < k || (i < j && unique[i] == val) then Count(data, unique[i]) else 0
      {
        if unique[j] == val {
          a[j] := Count(data, val);
        }
        j := j + 1;
      }
      k := k + 1;
    }
    freq := a[..];
  }

  function NatSum(s: seq<nat>): nat
  {
    if s == [] then 0 else NatSum(s[..|s| - 1]) + s[|s| - 1]
  }

  /** Number of elements of `data` that lie in `vs`. */
  function CountIn<T>(data: seq<T>, vs: set<T>): nat
  {
    if data == [] then 0
    else CountIn(data[..|data| - 1], vs) + (if data[|data| - 1] in vs then 1 else 0)
  }

  lemma {:induction false} CountInEmpty<T>(data: seq<T>)
    ensures CountIn(data, {}) == 0
  {
    if data != [] {
      CountInEmpty(data[..|data| - 1]);
    }
  }

  lemma {:induction false} CountInAdd<T>(data: seq<T>, vs: set<T>, w: T)
    requires w !in vs
    ensures CountIn(data, vs + {w}) == CountIn(data, vs) + Count(data, w)
  {
    if data != [] {
      CountInAdd(data[..|data| - 1], vs, w);
    }
  }

  lemma {:induction false} CountInAll<T>(data: seq<T>, vs: set<T>)
    requires forall x :: x in data ==> x in vs
    ensures CountIn(data, vs) == |data|
  {
    if data != [] {
      CountInAll(data[..|data| - 1], vs);
    }
  }

  lemma {:induction false} SumOfCounts<T>(data: seq<T>, unique: seq<T>, freq: seq<nat>)
    requires Distinct(unique) && |freq| == |unique|
    requires forall i :: 0 <= i < |unique| ==> freq[i] == Count(data, unique[i])
    ensures NatSum(freq) == CountIn(data, set x | x in unique)
  {
    if unique == [] {
      assert (set x | x in unique) == {};
      CountInEmpty(data);
    } else {
      var n := |unique| - 1;
      SumOfCounts(data, unique[..n], freq[..n]);
      assert unique == unique[..n] + [unique[n]];
      assert freq == freq[..n] + [freq[n]];
      assert (set x | x in unique) == (set x | x in unique[..n]) + {unique[n]};
      assert unique[n] !in (set x | x in unique[..n]);
      CountInAdd(data, (set x | x in unique[..n]), unique[n]);
    }
  }

  /** The counts returned by `__get_freq` add up to the length of the input. */
  lemma FreqCountsSumToLength<T>(data: seq<T>, unique: seq<T>, freq: seq<nat>)
    requires Distinct(unique) && (forall x :: x in unique <==> x in data) && |freq| == |unique|
    requires forall i :: 0 <= i < |unique| ==> freq[i] == Count(data, unique[i])
    ensures NatSum(freq) == |data|
  {
    SumOfCounts(data, unique, freq);
    CountInAll(data, (set x | x in unique));
  }
}
