/** `__plot_hit_offsets` of mania_monitor_app/_note_offset_proc_graph.py:
    per note index, the mean and standard deviation of the hit offsets of
    that note across all recorded plays. */
module NoteOffsetProcGraph {
  import opened Seqs
  import opened Records

  function OffsetsOf(rows: seq<PlayRow>): seq<int>
  {
    MapSeq((r: PlayRow) => r.offset, rows)
  }

  /** `(num == x) & miss_filter`. */
  function HitsAt(data: seq<PlayRow>, num: seq<nat>, x: nat): (m: seq<bool>)
    requires |num| == |data|
    ensures |m| == |data|
    ensures forall i :: 0 <= i < |data| ==> (m[i] <==> num[i] == x && data[i].hitType == HitPress)
  {
    seq(|data|, i requires 0 <= i < |data| => num[i] == x && data[i].hitType == HitPress)
  }

  /** `hit_offsets[(num == x) & miss_filter]`. */
  function Selection(data: seq<PlayRow>, num: seq<nat>, x: nat): seq<real>
    requires |num| == |data|
  {
    Reals(Mask(OffsetsOf(data), HitsAt(data, num, x)))
  }

  /** The selection of note index x holds exactly the offsets of the hit
      presses with that index; it is empty exactly when no hit press has it. */
  lemma SelectionMeaning(data: seq<PlayRow>, num: seq<nat>, x: nat)
    requires |num| == |data|
    ensures forall y :: y in Selection(data, num, x) <==>
      exists i :: 0 <= i < |data| && num[i] == x && data[i].hitType == HitPress && y == data[i].offset as real
    ensures |Selection(data, num, x)| == 0 <==>
      forall i :: 0 <= i < |data| && num[i] == x ==> data[i].hitType != HitPress
  {
    var offs := OffsetsOf(data);
    var m := HitsAt(data, num, x);
    var w := Mask(offs, m);
    forall y | y in Selection(data, num, x)
      ensures exists i :: 0 <= i < |data| && num[i] == x && data[i].hitType == HitPress && y == data[i].offset as real
    {
      var k :| 0 <= k < |w| && y == w[k] as real;
      MaskFrom(offs, m, w[k]);
    }
    forall i | 0 <= i < |data| && num[i] == x && data[i].hitType == HitPress
      ensures data[i].offset as real in Selection(data, num, x)
    {
      InMask(offs, m, i);
      var k :| 0 <= k < |w| && w[k] == offs[i];
      assert Selection(data, num, x)[k] == data[i].offset as real;
    }
    if |Selection(data, num, x)| > 0 {
      assert Selection(data, num, x)[0] in Selection(data, num, x);
    }
  }

  /** The statistics of one note index: 0 and 0 when it has no hits (the
      zero-initialised entry is skipped), else the mean and standard
      deviation of its selection. */
  function NoteStat(w: seq<real>, sqrt: real -> real): (real, real)
  {
    if |w| == 0 then (0.0, 0.0) else (Mean(w), sqrt(Variance(w)))
  }

  /** A note index that no play hit keeps its 0 mean and 0 deviation; one
      that some play hit gets the statistics of a non-empty selection. */
  lemma UnhitNoteKeepsZero(data: seq<PlayRow>, num: seq<nat>, x: nat, sqrt: real -> real)
    requires |num| == |data|
    ensures (forall i :: 0 <= i < |data| && num[i] == x ==> data[i].hitType != HitPress) <==>
      NoteStat(Selection(data, num, x), sqrt) == (0.0, 0.0) && |Selection(data, num, x)| == 0
    ensures (exists i :: 0 <= i < |data| && num[i] == x && data[i].hitType == HitPress) ==>
      var w := Selection(data, num, x);
      |w| > 0 && NoteStat(w, sqrt) == (Mean(w), sqrt(Variance(w)))
  {
    SelectionMeaning(data, num, x);
  }

  /** The loop over `note_idxs`, writing `means[x]` and `stddevs[x]` into
      zero-initialised arrays. */
  method HitOffsetStats(data: seq<PlayRow>, num: seq<nat>, n: nat, sqrt: real -> real)
    returns (means: seq<real>, stddevs: seq<real>)
    requires |num| == |data|
    ensures |means| == n && |stddevs| == n
    ensures forall x :: 0 <= x < n ==> (means[x], stddevs[x]) == NoteStat(Selection(data, num, x), sqrt)
  {
    var ms := new real[n](_ => 0.0);
    var sds := new real[n](_ => 0.0);
    for x := 0 to n
      invariant forall k :: 0 <= k < x ==> (ms[k], sds[k]) == NoteStat(Selection(data, num, k), sqrt)
      invariant forall k :: x <= k < n ==> ms[k] == 0.0 && sds[k] == 0.0
    {
      var offsets := Selection(data, num, x);
      if |offsets| == 0 {
        continue;
      }
      ms[x] := Mean(offsets);
      sds[x] := sqrt(Variance(offsets));
    }
    means, stddevs := ms[..], sds[..];
  }

  /** `__plot_hit_offsets`: over the press rows, the emitted pair
      `(means, 2*stddevs)` of length N div plays, or the failure to tile the
      note indices. */
  method PlotHitOffsets(rows: seq<PlayRow>, sqrt: real -> real)
    returns (r: Result<(seq<real>, seq<real>), TileError>)
    ensures var data := Filter(IsPress, rows);
      && (r.Failure? <==> NoteIndices(data).Failure?)
      && (r.Failure? ==> r.error == NoteIndices(data).error)
      && (r.Success? ==>
            |Timestamps(data)| > 0 &&
            var n := |data| / |Timestamps(data)|;
            && |r.value.0| == n && |r.value.1| == n
            && forall x :: 0 <= x < n ==>
                 var st := NoteStat(Selection(data, NoteIndices(data).value, x), sqrt);
                 r.value.0[x] == st.0 && r.value.1[x] == 2.0 * st.1)
  {
    var data := Filter(IsPress, rows);
    var tiled := NoteIndices(data);
    if tiled.Failure? {
      return Failure(tiled.error);
    }
    var n := |data| / |Timestamps(data)|;
    var means, stddevs := HitOffsetStats(data, tiled.value, n, sqrt);
    r := Success((means, seq(n, k requires 0 <= k < n => 2.0 * stddevs[k])));
  }

  /** On a tiling, note index x collects the hit presses at the positions
      congruent to x modulo N div plays, one per play. */
  lemma TiledSelection(data: seq<PlayRow>, x: nat)
    requires NoteIndices(data).Success?
    ensures |Timestamps(data)| > 0
    ensures forall y :: y in Selection(data, NoteIndices(data).value, x) <==>
      exists i :: 0 <= i < |data| && i % (|data| / |Timestamps(data)|) == x &&
        data[i].hitType == HitPress && y == data[i].offset as real
  {
    var num := NoteIndices(data).value;
    TimestampsBounds(data);
    forall i | 0 <= i < |data| ensures num[i] == i % (|data| / |Timestamps(data)|) {
      NoteIndicesMod(data, i);
    }
    SelectionMeaning(data, num, x);
  }
}
