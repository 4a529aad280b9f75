/** The table of best tapping rates kept by mania_monitor_app/__init__.py
    (`__record_nps`, `__update_top_nps`): one entry per play key, in the
    order the keys were first recorded, and the descending ranking of the
    recorded rates. */
module NpsTable {
  import opened Seqs
  import opened Sorting

  /** One document of the `nps` table: the play key as an integer and the
      best rate recorded for it. */
  datatype NpsEntry = NpsEntry(hash: nat, nps: real)

  ghost predicate DistinctHashes(table: seq<NpsEntry>)
  {
    forall i, j :: 0 <= i < j < |table| ==> table[i].hash != table[j].hash
  }

  /** The position of the first entry for `h` (`search(where('hash') == h)[0]`,
      `hashes.index(h)`). */
  function Find(table: seq<NpsEntry>, h: nat): (r: Option<nat>)
    ensures r.None? <==> forall i :: 0 <= i < |table| ==> table[i].hash != h
    ensures r.Some? ==> r.value < |table| && table[r.value].hash == h
    ensures r.Some? ==> forall i :: 0 <= i < r.value ==> table[i].hash != h
  {
    if table == [] then None
    else if table[0].hash == h then Some(0)
    else match Find(table[1..], h)
      case None => None
      case Some(i) => Some(i + 1)
  }

  /** `__record_nps` on the table: an absent key is inserted with the new
      rate; a present key takes the new rate only when it beats the stored
      one. */
  function Record(table: seq<NpsEntry>, h: nat, nps: real): seq<NpsEntry>
  {
    match Find(table, h)
      case None => table + [NpsEntry(h, nps)]
      case Some(i) => if table[i].nps < nps then table[i := NpsEntry(h, nps)] else table
  }

  function Max(a: real, b: real): real
  {
    if a < b then b else a
  }

  /** After recording, the key has one entry, holding the new rate when the
      key was absent and the better of the old and new rate otherwise. */
  lemma RecordKeepsBest(table: seq<NpsEntry>, h: nat, nps: real)
    requires DistinctHashes(table)
    ensures var r := Record(table, h, nps);
      DistinctHashes(r) &&
      Find(r, h).Some? &&
      r[Find(r, h).value].nps == (match Find(table, h)
        case None => nps
        case Some(i) => Max(table[i].nps, nps))
    ensures |Record(table, h, nps)| == |table| + (if Find(table, h).None? then 1 else 0)
  {
    var r := Record(table, h, nps);
    match Find(table, h)
    case None =>
      assert r[|table|].hash == h;
      assert forall i :: 0 <= i < |table| ==> r[i] == table[i];
      assert Find(r, h) == Some(|table|);
    case Some(i) =>
      assert r[i].hash == h;
      assert Find(r, h) == Some(i);
  }

  /** Recording touches no other key's entry, and no stored rate
      decreases. */
  lemma RecordKeepsOthers(table: seq<NpsEntry>, h: nat, nps: real)
    ensures var r := Record(table, h, nps);
      forall e: NpsEntry :: e.hash != h ==> (e in r <==> e in table)
    ensures var r := Record(table, h, nps);
      forall i :: 0 <= i < |table| ==> r[i].hash == table[i].hash && r[i].nps >= table[i].nps
  {
    var r := Record(table, h, nps);
    match Find(table, h)
    case None =>
    case Some(i) =>
      forall e: NpsEntry | e.hash != h && e in table ensures e in r {
        var j :| 0 <= j < |table| && table[j] == e;
        assert r[j] == e;
      }
  }

  /** The order of the ranking: higher rates first, and of equal rates the
      later entry first, as reversing numpy's ascending `argsort` gives. */
  predicate RankedBefore(a: (real, nat), b: (real, nat))
  {
    a.0 > b.0 || (a.0 == b.0 && a.1 > b.1)
  }

  lemma RankedBeforeTransitive()
    ensures Transitive(RankedBefore)
  {
  }

  /** Each rate with its position. */
  function Pairs(vals: seq<real>): (ps: seq<(real, nat)>)
    ensures |ps| == |vals| && forall i :: 0 <= i < |vals| ==> ps[i] == (vals[i], i)
  {
    seq(|vals|, i requires 0 <= i < |vals| => (vals[i], i))
  }

  /** The pairs in ranked order. */
  function SortedPairs(vals: seq<real>): (s: seq<(real, nat)>)
    ensures StrictlySorted(s, RankedBefore)
    ensures multiset(s) == multiset(Pairs(vals))
  {
    var pairs := Pairs(vals);
    RankedBeforeTransitive();
    assert PairwiseComparable(pairs, RankedBefore) by {
      forall i, j | 0 <= i < |pairs| && 0 <= j < |pairs| && i != j
        ensures RankedBefore(pairs[i], pairs[j]) || RankedBefore(pairs[j], pairs[i])
      {
        assert pairs[i].1 == i && pairs[j].1 == j;
      }
    }
    SortStrict(pairs, RankedBefore)
  }

  /** Sorting the pairs keeps each rate with its own position, and every
      position. */
  lemma SortedPairsFacts(vals: seq<real>)
    ensures |SortedPairs(vals)| == |vals|
    ensures forall k :: 0 <= k < |SortedPairs(vals)| ==>
      SortedPairs(vals)[k].1 < |vals| && SortedPairs(vals)[k].0 == vals[SortedPairs(vals)[k].1]
    ensures forall i :: 0 <= i < |vals| ==> Pairs(vals)[i] in SortedPairs(vals)
  {
    var sorted, pairs := SortedPairs(vals), Pairs(vals);
    assert |sorted| == |multiset(sorted)| == |multiset(pairs)| == |pairs|;
    forall k | 0 <= k < |sorted| ensures sorted[k].1 < |vals| && sorted[k].0 == vals[sorted[k].1] {
      assert sorted[k] in multiset(pairs);
    }
    forall i | 0 <= i < |vals| ensures pairs[i] in sorted {
      assert pairs[i] in multiset(sorted);
    }
  }

  /** `np.argsort(nps)[::-1]`: every position exactly once, rates
      non-increasing along the order, equal rates from the later position to
      the earlier. */
  function DescendingOrder(vals: seq<real>): (order: seq<nat>)
    ensures |order| == |vals|
    ensures forall k :: 0 <= k < |order| ==> order[k] < |vals|
    ensures forall k, l :: 0 <= k < l < |order| ==> order[k] != order[l]
    ensures forall i :: 0 <= i < |vals| ==> i in order
    ensures forall k, l :: 0 <= k < l < |order| ==>
      vals[order[k]] > vals[order[l]] || (vals[order[k]] == vals[order[l]] && order[k] > order[l])
  {
    var sorted := SortedPairs(vals);
    SortedPairsFacts(vals);
    var order := MapSeq((p: (real, nat)) => p.1, sorted);
    assert forall k, l :: 0 <= k < l < |order| ==> RankedBefore(sorted[k], sorted[l]);
    forall i | 0 <= i < |vals| ensures i in order {
      var k :| 0 <= k < |sorted| && sorted[k] == Pairs(vals)[i];
      assert order[k] == i;
    }
    order
  }

  /** The rates in ranked order. */
  function Ranked(vals: seq<real>): (scores: seq<real>)
    ensures |scores| == |vals|
  {
    var order := DescendingOrder(vals);
    seq(|order|, k requires 0 <= k < |order| => vals[order[k]])
  }

  lemma RankedDescending(vals: seq<real>)
    ensures forall k, l :: 0 <= k < l < |Ranked(vals)| ==> Ranked(vals)[k] >= Ranked(vals)[l]
  {
    var order := DescendingOrder(vals);
    assert forall k :: 0 <= k < |order| ==> Ranked(vals)[k] == vals[order[k]];
  }

  lemma RankedMembers(vals: seq<real>)
    ensures forall v :: v in Ranked(vals) <==> v in vals
  {
    var order := DescendingOrder(vals);
    var scores := Ranked(vals);
    forall v | v in scores ensures v in vals {
      var k :| 0 <= k < |scores| && scores[k] == v;
      assert vals[order[k]] == v;
    }
    forall v | v in vals ensures v in scores {
      var i :| 0 <= i < |vals| && vals[i] == v;
      assert i in order;
      var k :| 0 <= k < |order| && order[k] == i;
      assert scores[k] == v;
    }
  }

  /** The ranked list is non-increasing and holds exactly the rates. */
  lemma RankedMeaning(vals: seq<real>)
    ensures forall k, l :: 0 <= k < l < |Ranked(vals)| ==> Ranked(vals)[k] >= Ranked(vals)[l]
    ensures forall v :: v in Ranked(vals) <==> v in vals
  {
    RankedDescending(vals);
    RankedMembers(vals);
  }

  /** The highest rate is listed first. */
  lemma RankedFirstIsBest(vals: seq<real>, i: nat)
    requires i < |vals|
    ensures Ranked(vals)[0] >= vals[i]
  {
    var order := DescendingOrder(vals);
    assert i in order;
    var k :| 0 <= k < |order| && order[k] == i;
    if k > 0 {
      assert Ranked(vals)[0] >= Ranked(vals)[k] by {
        RankedDescending(vals);
      }
    }
  }

  /** The row highlighted for a position: where that position stands in
      the ranking (`np.where(idx_sort == i)[0][0]`). */
  function RankOf(vals: seq<real>, i: nat): (k: nat)
    requires i < |vals|
    ensures k < |vals| && DescendingOrder(vals)[k] == i
    ensures Ranked(vals)[k] == vals[i]
  {
    var order := DescendingOrder(vals);
    assert i in order;
    var k :| 0 <= k < |order| && order[k] == i;
    k
  }

  /** The highlighted row is preceded exactly by the entries ranked above
      it: those with a higher rate, or an equal rate at a later position. */
  lemma RankOfCounts(vals: seq<real>, i: nat, j: nat)
    requires i < |vals| && j < |vals|
    ensures RankOf(vals, j) < RankOf(vals, i) <==>
      vals[j] > vals[i] || (vals[j] == vals[i] && j > i)
  {
    var order := DescendingOrder(vals);
    var ki, kj := RankOf(vals, i), RankOf(vals, j);
    if kj > ki {
      assert vals[order[ki]] > vals[order[kj]] || (vals[order[ki]] == vals[order[kj]] && order[ki] > order[kj]);
    }
  }
}
