/** The recorder's score data as the monitor application sees it: one row
    per scored note, the hit types of the scoring, and the note index
    every graph derives by tiling `0 .. n - 1` once per play. */
module Records {
  import opened Seqs

  /** The scoring kinds of ManiaScoreData. */
  datatype ScoreType = HitPress | HitRelease | Miss | MissPress | Empty

  /** One row of the recorder's data array: the play's timestamp, the map
      hash and mods, the column (`KEYS`), the hit type, the replay timing,
      the hit offset and the row's per-column note intervals, `COL1 .. COL4`
      in a four-key recording (None where the stored value is not
      finite). */
  datatype PlayRow = PlayRow(
    timestamp: int, hash: nat, mods: nat, keys: int, hitType: ScoreType,
    timing: int, offset: int, colIntervals: seq<Option<int>>)

  /** The press scorings, `TYPE_HITP | TYPE_MISSP`. */
  predicate IsPress(r: PlayRow)
  {
    r.hitType == HitPress || r.hitType == MissPress
  }

  /** `np.unique(data[:, Data.TIMESTAMP])` as a set: the recorded plays. */
  function Timestamps(rows: seq<PlayRow>): set<int>
  {
    set i | 0 <= i < |rows| :: rows[i].timestamp
  }

  lemma {:induction false} TimestampsBounds(rows: seq<PlayRow>)
    ensures |Timestamps(rows)| <= |rows|
    ensures rows != [] ==> |Timestamps(rows)| > 0
  {
    if rows != [] {
      var n := |rows| - 1;
      TimestampsBounds(rows[..n]);
      assert Timestamps(rows) == Timestamps(rows[..n]) + {rows[n].timestamp} by {
        forall t | t in Timestamps(rows) ensures t in Timestamps(rows[..n]) + {rows[n].timestamp} {
          var i :| 0 <= i < |rows| && rows[i].timestamp == t;
          if i < n { assert rows[..n][i] == rows[i]; }
        }
        forall t | t in Timestamps(rows[..n]) ensures t in Timestamps(rows) {
          var i :| 0 <= i < n && rows[..n][i].timestamp == t;
          assert rows[i] == rows[..n][i];
        }
      }
    }
  }

  /** Why the tiled note index cannot be formed: `int(N / plays)` divides by
      zero plays, or the tile `np.tile(np.arange(n), plays)` is not as long
      as the data and the element-wise mask that follows fails to broadcast. */
  datatype TileError = NoPlays | Ragged

  /** `np.arange(n)`. */
  function Range(n: nat): (r: seq<nat>)
    ensures |r| == n && forall k :: 0 <= k < n ==> r[k] == k
  {
    seq(n, k => k)
  }

  /** `np.tile(np.arange(n), plays)`. */
  function Tile(n: nat, plays: nat): (r: seq<nat>)
    ensures |r| == n * plays
  {
    if plays == 0 then [] else Tile(n, plays - 1) + Range(n)
  }

  /** Within the p-th block of n entries the tile runs 0 .. n - 1. */
  lemma {:induction false} TileBlock(n: nat, plays: nat, p: nat, k: nat)
    requires p < plays && k < n
    ensures p * n + k < n * plays && Tile(n, plays)[p * n + k] == k
  {
    assert (plays - 1) * n == n * (plays - 1);
    if p < plays - 1 {
      TileBlock(n, plays - 1, p, k);
    }
  }

  /** Every entry of the tile is below n. */
  lemma {:induction false} TileBelow(n: nat, plays: nat, i: nat)
    requires i < n * plays
    ensures Tile(n, plays)[i] < n
  {
    assert (plays - 1) * n == n * (plays - 1);
    if i < n * (plays - 1) {
      TileBelow(n, plays - 1, i);
    }
  }

  /** The tile gives every position its index within its play's block. */
  lemma TileMod(n: nat, plays: nat, i: nat)
    requires i < n * plays
    ensures n > 0 && Tile(n, plays)[i] == i % n
  {
    assert n > 0;
    var p := i / n;
    var k := i % n;
    assert i == p * n + k && k < n;
    if p >= plays {
      MulMonotone(plays, p, n);
    }
    TileBlock(n, plays, p, k);
  }

  lemma MulMonotone(a: nat, b: nat, n: nat)
    requires a <= b
    ensures a * n <= b * n
  {
    assert b * n == a * n + (b - a) * n;
  }

  /** The note index of every row, `np.tile(np.arange(int(N / plays)), plays)`,
      where N is the number of rows and `plays` the number of distinct
      timestamps; it fails when there are no rows or N is not a multiple of
      the number of plays. */
  function NoteIndices(rows: seq<PlayRow>): (r: Result<seq<nat>, TileError>)
    ensures r.Failure? <==> |Timestamps(rows)| == 0 || |rows| % |Timestamps(rows)| != 0
    ensures r.Success? ==> |r.value| == |rows|
  {
    if rows == [] then Failure(NoPlays)
    else
      TimestampsBounds(rows);
      var plays := |Timestamps(rows)|;
      var n := |rows| / plays;
      assert |rows| == n * plays + |rows| % plays;
      if n * plays != |rows| then Failure(Ragged)
      else Success(Tile(n, plays))
  }

  /** Row i gets note index i mod (N div plays). */
  lemma NoteIndicesMod(rows: seq<PlayRow>, i: nat)
    requires NoteIndices(rows).Success? && i < |rows|
    ensures |Timestamps(rows)| > 0
    ensures NoteIndices(rows).value[i] == i % (|rows| / |Timestamps(rows)|)
  {
    TimestampsBounds(rows);
    var plays := |Timestamps(rows)|;
    var n := |rows| / plays;
    assert |rows| == n * plays + |rows| % plays;
    TileMod(n, plays, i);
  }

  /** The distribution model drawn over a non-empty selection of offsets:
      cleared when the standard deviation is 0, otherwise the normal pdf of
      the selection's mean and standard deviation scaled by its size. An
      empty selection gives numpy's NaN statistics (`Undefined`). */
  datatype ModelCurve = Cleared | NormalPdf(mean: real, std: real, scale: nat) | Undefined

  function OffsetModel(offsets: seq<real>, sqrt: real -> real): (m: ModelCurve)
    ensures m.Undefined? <==> |offsets| == 0
    ensures m.NormalPdf? ==> m.scale == |offsets| && m.mean == Mean(offsets) && m.std != 0.0
  {
    if |offsets| == 0 then Undefined
    else
      var std := sqrt(Variance(offsets));
      if std == 0.0 then Cleared else NormalPdf(Mean(offsets), std, |offsets|)
  }

  /** With a square root that is 0 only at 0, the model is cleared exactly
      when every selected offset is the same. */
  lemma ModelClearedIffConstant(offsets: seq<real>, sqrt: real -> real)
    requires |offsets| > 0
    requires forall x :: x >= 0.0 ==> (sqrt(x) == 0.0 <==> x == 0.0)
    ensures OffsetModel(offsets, sqrt) == Cleared <==> forall i :: 0 <= i < |offsets| ==> offsets[i] == offsets[0]
  {
    VarianceNonNegative(offsets);
    VarianceZeroIff(offsets);
  }
}
