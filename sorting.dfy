/** Sorting as numpy does it for this program: `np.unique` (sorted distinct
    values) and `np.argsort` over keys that are pairwise distinct, both given
    by insertion into a strictly sorted sequence. */
module Sorting {

  ghost predicate Transitive<T(!new)>(lt: (T, T) -> bool)
  {
    forall a, b, c :: lt(a, b) && lt(b, c) ==> lt(a, c)
  }

  ghost predicate Trichotomous<T(!new)>(lt: (T, T) -> bool)
  {
    forall a, b :: a == b || lt(a, b) || lt(b, a)
  }

  predicate StrictlySorted<T>(s: seq<T>, lt: (T, T) -> bool)
  {
    forall i, j :: 0 <= i < j < |s| ==> lt(s[i], s[j])
  }

  /** Elements at distinct positions are ordered one way or the other. */
  ghost predicate PairwiseComparable<T>(s: seq<T>, lt: (T, T) -> bool)
  {
    forall i, j :: 0 <= i < |s| && 0 <= j < |s| && i != j ==> lt(s[i], s[j]) || lt(s[j], s[i])
  }

  function Insert<T(!new)>(s: seq<T>, x: T, lt: (T, T) -> bool): (r: seq<T>)
    requires Transitive(lt) && StrictlySorted(s, lt)
    requires forall i :: 0 <= i < |s| ==> lt(s[i], x) || lt(x, s[i])
    ensures StrictlySorted(r, lt)
    ensures multiset(r) == multiset(s) + multiset{x}
  {
    if s == [] then [x]
    else if lt(x, s[0]) then [x] + s
    else
      var t := Insert(s[1..], x, lt);
      assert s == [s[0]] + s[1..];
      HeadBelowAll(s[0], t, s[1..], x, lt);
      [s[0]] + t
  }

  /** An element below x and below every element of `rest` is below every
      element of a rearrangement of `rest` and x. */
  lemma HeadBelowAll<T>(h: T, t: seq<T>, rest: seq<T>, x: T, lt: (T, T) -> bool)
    requires multiset(t) == multiset(rest) + multiset{x}
    requires lt(h, x) && forall k :: 0 <= k < |rest| ==> lt(h, rest[k])
    ensures forall k :: 0 <= k < |t| ==> lt(h, t[k])
  {
    forall k | 0 <= k < |t| ensures lt(h, t[k]) {
      assert t[k] in multiset(rest) + multiset{x};
      if t[k] != x {
        var j :| 0 <= j < |rest| && rest[j] == t[k];
      }
    }
  }

  /** Sorts a sequence whose elements are pairwise ordered (`np.argsort`
      applied to keys without ties). */
  function SortStrict<T(!new)>(s: seq<T>, lt: (T, T) -> bool): (r: seq<T>)
    requires Transitive(lt) && PairwiseComparable(s, lt)
    ensures StrictlySorted(r, lt)
    ensures multiset(r) == multiset(s)
  {
    if s == [] then []
    else
      var n := |s| - 1;
      var p := s[..n];
      assert PairwiseComparable(p, lt);
      var r := SortStrict(p, lt);
      assert s == p + [s[n]];
      assert forall k :: 0 <= k < |r| ==> r[k] in multiset(p);
      assert forall y :: y in multiset(p) ==> exists j :: 0 <= j < n && s[j] == y;
      Insert(r, s[n], lt)
  }

  /** `np.unique`: the distinct values of `s` in ascending order. */
  function Unique<T(!new,==)>(s: seq<T>, lt: (T, T) -> bool): (r: seq<T>)
    requires Transitive(lt) && Trichotomous(lt)
    ensures StrictlySorted(r, lt)
    ensures forall x :: x in r <==> x in s
  {
    if s == [] then []
    else
      var n := |s| - 1;
      var u := Unique(s[..n], lt);
      assert s == s[..n] + [s[n]];
      if s[n] in u then u
      else
        var r := Insert(u, s[n], lt);
        assert forall x :: x in r <==> x in multiset(r);
        r
  }

  /** The ascending order on integers. */
  function IntLess(a: int, b: int): bool
  {
    a < b
  }

  lemma IntLessIsStrictTotal()
    ensures Transitive(IntLess) && Trichotomous(IntLess)
  {
  }

  /** A strictly sorted sequence holds no value twice. */
  lemma StrictlySortedDistinct<T>(s: seq<T>, lt: (T, T) -> bool, i: nat, j: nat)
    requires StrictlySorted(s, lt) && i < |s| && j < |s| && i != j
    requires forall a :: !lt(a, a)
    ensures s[i] != s[j]
  {
    if i < j { assert lt(s[i], s[j]); } else { assert lt(s[j], s[i]); }
  }
}
