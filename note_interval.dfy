/** `__plot_note_intervals` of mania_monitor_app/_note_interval_graph.py:
    the note intervals of the latest play, column by column, written block
    after block into a preallocated buffer, then counted per interval value
    (`np.bincount` with the zero counts filtered out). */
module NoteIntervalGraph {
  import opened Seqs
  import opened Sorting
  import opened Records
  import Frequency

  /** One row of `interval_data`: the interval before the note, its column,
      and the hit offset and hit type of the note. */
  datatype IntervalRow = IntervalRow(interval: int, column: int, offset: int, hitType: ScoreType)

  function TimestampsOf(rows: seq<PlayRow>): seq<int>
  {
    MapSeq((r: PlayRow) => r.timestamp, rows)
  }

  function KeysOf(rows: seq<PlayRow>): seq<int>
  {
    MapSeq((r: PlayRow) => r.keys, rows)
  }

  /** `data[:, TIMINGS] - data[:, OFFSETS]`: when each note was due. */
  function NoteTimes(rows: seq<PlayRow>): seq<int>
  {
    MapSeq((r: PlayRow) => r.timing - r.offset, rows)
  }

  /** `score_filter`: the hit presses and missed presses of the play with the
      latest timestamp, in data order. */
  function LatestPresses(rows: seq<PlayRow>): (r: seq<PlayRow>)
    requires rows != []
    ensures forall x :: x in r <==> x in rows && x.timestamp == MaxInt(TimestampsOf(rows)) && IsPress(x)
  {
    var latest := MaxInt(TimestampsOf(rows));
    Filter((x: PlayRow) => x.timestamp == latest && IsPress(x), rows)
  }

  /** `np.unique(note_columns)`: the columns in ascending order. */
  function Columns(rows: seq<PlayRow>): (cols: seq<int>)
    ensures forall i, j :: 0 <= i < j < |cols| ==> cols[i] < cols[j]
    ensures forall c :: c in cols <==> c in KeysOf(rows)
  {
    IntLessIsStrictTotal();
    Unique(KeysOf(rows), IntLess)
  }

  /** `data[data[:, KEYS] == column]`. */
  function ColumnRows(rows: seq<PlayRow>, c: int): (r: seq<PlayRow>)
    ensures |r| == Count(KeysOf(rows), c)
    ensures forall x :: x in r <==> x in rows && x.keys == c
  {
    var m := seq(|rows|, i requires 0 <= i < |rows| => rows[i].keys == c);
    KeyMaskCount(rows, c);
    KeyMaskMembers(rows, c);
    Mask(rows, m)
  }

  lemma KeyMaskMembers(rows: seq<PlayRow>, c: int)
    ensures var m := seq(|rows|, i requires 0 <= i < |rows| => rows[i].keys == c);
      forall x :: x in Mask(rows, m) <==> x in rows && x.keys == c
  {
    var m := seq(|rows|, i requires 0 <= i < |rows| => rows[i].keys == c);
    forall x | x in rows && x.keys == c ensures x in Mask(rows, m) {
      var i :| 0 <= i < |rows| && rows[i] == x;
      InMask(rows, m, i);
    }
    forall x | x in Mask(rows, m) ensures x.keys == c {
      MaskFrom(rows, m, x);
    }
  }

  lemma {:induction false} KeyMaskCount(rows: seq<PlayRow>, c: int)
    ensures Count(seq(|rows|, i requires 0 <= i < |rows| => rows[i].keys == c), true) == Count(KeysOf(rows), c)
  {
    if rows != [] {
      var n := |rows| - 1;
      KeyMaskCount(rows[..n], c);
      var m := seq(|rows|, i requires 0 <= i < |rows| => rows[i].keys == c);
      assert m[..n] == seq(n, i requires 0 <= i < n => rows[..n][i].keys == c);
      assert KeysOf(rows)[..n] == KeysOf(rows[..n]);
    }
  }

  /** The intervals of one column's rows (`np.diff` of their note times),
      each with the column and the hit offset and hit type of the later
      row. */
  function IntervalsOfColumn(cr: seq<PlayRow>, c: int): (b: seq<IntervalRow>)
    ensures |b| == if |cr| == 0 then 0 else |cr| - 1
    ensures forall k {:trigger b[k]} :: 0 <= k < |b| ==>
      && b[k].column == c
      && b[k].interval == Diff(NoteTimes(cr))[k]
      && b[k].offset == cr[k + 1].offset && b[k].hitType == cr[k + 1].hitType
  {
    var d := Diff(NoteTimes(cr));
    seq(|d|, k requires 0 <= k < |d| => IntervalRow(d[k], c, cr[k + 1].offset, cr[k + 1].hitType))
  }

  /** The block of one column: the differences of its note times and, for
      its second and later rows, the column, hit offset and hit type. A
      column with k rows gives k - 1 entries. */
  function ColumnBlock(rows: seq<PlayRow>, c: int): (b: seq<IntervalRow>)
    ensures |b| == if Count(KeysOf(rows), c) == 0 then 0 else Count(KeysOf(rows), c) - 1
    ensures var cr := ColumnRows(rows, c); var nt := NoteTimes(cr);
      forall k {:trigger b[k]} :: 0 <= k < |b| ==>
        && b[k].column == c
        && b[k].interval == nt[k + 1] - nt[k]
        && b[k].offset == cr[k + 1].offset && b[k].hitType == cr[k + 1].hitType
  {
    IntervalsOfColumn(ColumnRows(rows, c), c)
  }

  /** The blocks of the given columns, one after the other. */
  function Blocks(rows: seq<PlayRow>, cols: seq<int>): seq<IntervalRow>
  {
    if cols == [] then [] else Blocks(rows, cols[..|cols| - 1]) + ColumnBlock(rows, cols[|cols| - 1])
  }

  lemma {:induction false} BlocksLength(rows: seq<PlayRow>, cols: seq<int>)
    requires Frequency.Distinct(cols) && forall c :: c in cols ==> c in KeysOf(rows)
    ensures |Blocks(rows, cols)| + |cols| == Frequency.CountIn(KeysOf(rows), set c | c in cols)
  {
    if cols == [] {
      assert (set c | c in cols) == {};
      Frequency.CountInEmpty(KeysOf(rows));
    } else {
      var n := |cols| - 1;
      assert Frequency.Distinct(cols[..n]);
      assert forall c :: c in cols[..n] ==> c in cols;
      BlocksLength(rows, cols[..n]);
      assert cols == cols[..n] + [cols[n]];
      assert (set c | c in cols) == (set c | c in cols[..n]) + {cols[n]};
      assert cols[n] !in (set c | c in cols[..n]);
      Frequency.CountInAdd(KeysOf(rows), (set c | c in cols[..n]), cols[n]);
      CountPositive(KeysOf(rows), cols[n]);
    }
  }

  /** The buffer has room for exactly one entry per row, less one per column. */
  lemma BufferSize(rows: seq<PlayRow>)
    ensures |Blocks(rows, Columns(rows))| == |rows| - |Columns(rows)|
  {
    var cols := Columns(rows);
    forall i, j | 0 <= i < |cols| && 0 <= j < |cols| && i != j ensures cols[i] != cols[j] {
      if i < j { assert cols[i] < cols[j]; } else { assert cols[j] < cols[i]; }
    }
    BlocksLength(rows, cols);
    Frequency.CountInAll(KeysOf(rows), (set c | c in cols));
  }

  lemma {:induction false} BlocksPrefix(rows: seq<PlayRow>, cols: seq<int>, j: nat)
    requires j <= |cols|
    ensures |Blocks(rows, cols[..j])| <= |Blocks(rows, cols)|
  {
    if j < |cols| {
      var n := |cols| - 1;
      assert cols[..n][..j] == cols[..j];
      BlocksPrefix(rows, cols[..n], j);
    } else {
      assert cols[..j] == cols;
    }
  }

  lemma BlocksSnoc(rows: seq<PlayRow>, cols: seq<int>, j: nat)
    requires j < |cols|
    ensures Blocks(rows, cols[..j + 1]) == Blocks(rows, cols[..j]) + ColumnBlock(rows, cols[j])
  {
    assert cols[..j + 1][..j] == cols[..j];
  }

  /** A prefix followed by the block written after it. */
  lemma Splice<T>(s: seq<T>, at: nat, prefix: seq<T>, block: seq<T>)
    requires at + |block| <= |s|
    requires s[..at] == prefix && s[at..at + |block|] == block
    ensures s[..at + |block|] == prefix + block
  {
    assert s[..at + |block|] == s[..at] + s[at..at + |block|];
  }

  /** One pass of the column loop: the block of column `cols[j]` is written
      at the cursor, and the cursor moves past it. */
  method WriteColumn(buf: array<IntervalRow>, rows: seq<PlayRow>, cols: seq<int>, j: nat, cursor: nat) returns (next: nat)
    requires j < |cols| && buf.Length == |Blocks(rows, cols)|
    requires cursor == |Blocks(rows, cols[..j])| <= buf.Length
    requires buf[..cursor] == Blocks(rows, cols[..j])
    modifies buf
    ensures next == |Blocks(rows, cols[..j + 1])| <= buf.Length
    ensures buf[..next] == Blocks(rows, cols[..j + 1])
  {
    var block := ColumnBlock(rows, cols[j]);
    BlocksSnoc(rows, cols, j);
    BlocksPrefix(rows, cols, j + 1);
    WriteBlock(buf, cursor, block);
    Splice(buf[..], cursor, Blocks(rows, cols[..j]), block);
    next := cursor + |block|;
  }

  /** `interval_data[offset : offset + len(block)] = block`. */
  method WriteBlock(buf: array<IntervalRow>, at: nat, block: seq<IntervalRow>)
    requires at + |block| <= buf.Length
    modifies buf
    ensures buf[..at] == old(buf[..at]) && buf[at..at + |block|] == block
    ensures buf[at + |block|..] == old(buf[at + |block|..])
  {
    for k := 0 to |block|
      invariant buf[..at] == old(buf[..at]) && buf[at..at + k] == block[..k]
      invariant buf[at + |block|..] == old(buf[at + |block|..])
    {
      buf[at + k] := block[k];
    }
  }

  /** The per-column loop: each column's block is written at the cursor,
      which then advances by the block's length; after the last column the
      cursor has reached the end of the buffer, so every entry is written
      once. */
  method BuildBuffer(rows: seq<PlayRow>) returns (buffer: seq<IntervalRow>, cursor: nat)
    ensures buffer == Blocks(rows, Columns(rows))
    ensures cursor == |buffer| == |rows| - |Columns(rows)|
  {
    var cols := Columns(rows);
    BufferSize(rows);
    var buf := new IntervalRow[|rows| - |cols|](_ => IntervalRow(0, 0, 0, HitPress));
    cursor := 0;
    for j := 0 to |cols|
      invariant cursor == |Blocks(rows, cols[..j])| <= buf.Length
      invariant buf[..cursor] == Blocks(rows, cols[..j])
    {
      cursor := WriteColumn(buf, rows, cols, j, cursor);
    }
    assert cols[..|cols|] == cols;
    buffer := buf[..];
  }

  function Intervals(buffer: seq<IntervalRow>): seq<int>
  {
    MapSeq((r: IntervalRow) => r.interval, buffer)
  }

  predicate AllNonNegative(values: seq<int>)
  {
    forall i :: 0 <= i < |values| ==> values[i] >= 0
  }

  /** `np.arange(max + 1)`: the bins of `np.bincount`. */
  function Bins(values: seq<int>): (b: seq<int>)
    requires |values| > 0 && AllNonNegative(values)
    ensures |b| == MaxInt(values) + 1 && forall k :: 0 <= k < |b| ==> b[k] == k
  {
    seq(MaxInt(values) + 1, k => k)
  }

  /** `np.bincount`: the number of occurrences of every value 0 .. max. */
  function Bincount(values: seq<int>): (y: seq<nat>)
    requires |values| > 0 && AllNonNegative(values)
  {
    MapSeq((v: int) => Count(values, v), Bins(values))
  }

  function NonZero(y: seq<nat>): (m: seq<bool>)
    ensures |m| == |y| && forall k :: 0 <= k < |y| ==> (m[k] <==> y[k] != 0)
  {
    MapSeq((c: nat) => c != 0, y)
  }

  /** `y[y != 0]` and `np.arange(max + 1)[y != 0]`. */
  function Histogram(values: seq<int>): (h: (seq<int>, seq<nat>))
    requires |values| > 0 && AllNonNegative(values)
  {
    var y := Bincount(values);
    (Mask(Bins(values), NonZero(y)), Mask(y, NonZero(y)))
  }

  /** The kept bars are exactly the values that occur, in ascending order. */
  lemma HistogramValues(values: seq<int>)
    requires |values| > 0 && AllNonNegative(values)
    ensures var x := Histogram(values).0;
      && (forall i, j :: 0 <= i < j < |x| ==> x[i] < x[j])
      && (forall v :: v in x <==> v in values)
  {
    var b := Bins(values);
    var nz := NonZero(Bincount(values));
    var x := Mask(b, nz);
    MaskIncreasing(b, nz);
    forall v | v in x ensures v in values {
      MaskFrom(b, nz, v);
      CountPositive(values, v);
    }
    forall v | v in values ensures v in x {
      CountPositive(values, v);
      InMask(b, nz, v);
    }
  }

  /** Each kept bar's height is the number of occurrences of its value. */
  lemma HistogramCounts(values: seq<int>)
    requires |values| > 0 && AllNonNegative(values)
    ensures var (x, y) := Histogram(values);
      && |x| == |y|
      && forall k :: 0 <= k < |x| ==> y[k] == Count(values, x[k]) > 0
  {
    var f := (v: int) => Count(values, v);
    var b := Bins(values);
    var nz := NonZero(Bincount(values));
    MaskMap(f, b, nz);
    var x := Mask(b, nz);
    var y := Mask(Bincount(values), nz);
    assert y == MapSeq(f, x);
    forall k | 0 <= k < |x| ensures y[k] == Count(values, x[k]) > 0 {
      MaskFrom(b, nz, x[k]);
      CountPositive(values, x[k]);
    }
  }

  /** The zero-filtered histogram lists the values that occur, in ascending
      order, each with its number of occurrences; there is at least one bar
      and the heights add up to the number of values. */
  lemma HistogramMeaning(values: seq<int>)
    requires |values| > 0 && AllNonNegative(values)
    ensures var (x, y) := Histogram(values);
      && |x| == |y| && |x| > 0
      && (forall i, j :: 0 <= i < j < |x| ==> x[i] < x[j])
      && (forall v :: v in x <==> v in values)
      && (forall k :: 0 <= k < |x| ==> y[k] == Count(values, x[k]) > 0)
      && Frequency.NatSum(y) == |values|
  {
    HistogramValues(values);
    HistogramCounts(values);
    var (x, y) := Histogram(values);
    assert values[0] in x;
    assert Frequency.Distinct(x) by {
      forall i, j | 0 <= i < |x| && 0 <= j < |x| && i != j ensures x[i] != x[j] {
        if i < j { assert x[i] < x[j]; } else { assert x[j] < x[i]; }
      }
    }
    Frequency.SumOfCounts(values, x, y);
    Frequency.CountInAll(values, (set v | v in x));
  }

  /** The last bar is the largest interval, which `x[-1]` relies on. */
  lemma HistogramLast(values: seq<int>)
    requires |values| > 0 && AllNonNegative(values)
    ensures var x := Histogram(values).0; |x| > 0 && x[|x| - 1] == MaxInt(values)
  {
    HistogramValues(values);
    LastOfAscending(Histogram(values).0, values);
  }

  lemma LastOfAscending(x: seq<int>, values: seq<int>)
    requires |values| > 0
    requires forall i, j :: 0 <= i < j < |x| ==> x[i] < x[j]
    requires forall v :: v in x <==> v in values
    ensures |x| > 0 && x[|x| - 1] == MaxInt(values)
  {
    var m := MaxInt(values);
    assert m in x;
    var k :| 0 <= k < |x| && x[k] == m;
    assert x[|x| - 1] in values;
  }

  /** Why nothing is drawn: `max` of no timestamps, a negative interval in
      `np.bincount`, or `np.max` of an empty buffer. */
  datatype NoteIntervalError = NoData | NegativeInterval | NoIntervals

  /** The emitted buffer and the bars drawn from it. */
  datatype NoteIntervalPlot = NoteIntervalPlot(buffer: seq<IntervalRow>, x: seq<int>, y: seq<nat>, xMax: int)

  /** The bars of a non-empty buffer of non-negative intervals, and the
      right edge of the view: 100 past the largest interval. */
  function Plot(buffer: seq<IntervalRow>): (p: NoteIntervalPlot)
    requires |buffer| > 0 && AllNonNegative(Intervals(buffer))
    ensures p.buffer == buffer && (p.x, p.y) == Histogram(Intervals(buffer))
    ensures p.xMax == MaxInt(Intervals(buffer)) + 100
  {
    var h := Histogram(Intervals(buffer));
    HistogramLast(Intervals(buffer));
    NoteIntervalPlot(buffer, h.0, h.1, h.0[|h.0| - 1] + 100)
  }

  /** `__plot_note_intervals`. */
  method PlotNoteIntervals(rows: seq<PlayRow>) returns (r: Result<NoteIntervalPlot, NoteIntervalError>)
    ensures r == Failure(NoData) <==> rows == []
    ensures rows != [] ==>
      var data := LatestPresses(rows);
      var buffer := Blocks(data, Columns(data));
      && (r == Failure(NegativeInterval) <==> !AllNonNegative(Intervals(buffer)))
      && (r == Failure(NoIntervals) <==> buffer == [])
      && (r.Success? ==>
            && r.value.buffer == buffer
            && |buffer| == |data| - |Columns(data)|
            && |buffer| > 0
            && (r.value.x, r.value.y) == Histogram(Intervals(buffer))
            && r.value.xMax == MaxInt(Intervals(buffer)) + 100)
  {
    if rows == [] {
      return Failure(NoData);
    }
    var data := LatestPresses(rows);
    var buffer, cursor := BuildBuffer(data);
    var intervals := Intervals(buffer);
    if !AllNonNegative(intervals) {
      return Failure(NegativeInterval);
    }
    if |buffer| == 0 {
      return Failure(NoIntervals);
    }
    r := Success(Plot(buffer));
  }
}
