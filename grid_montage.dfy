/** Duration and layout of video_montage/video_grid_montage.py: every clip
    is cut to one common length, and the clips are laid out row by row in a
    grid whose width is given or close to the square root of their number. */
module GridMontage {
  import opened Wrappers
  import opened PyList
  import opened Media
  import Utils

  /** What the grid script fails with before it writes anything. */
  datatype GridError =
    | EmptyClipList  // `min()` of an empty list raises `ValueError`

  // ---------------------------------------------------------------------
  // Montage duration and trimming (`trim_video_clips`)
  // ---------------------------------------------------------------------

  /** `min(clip.duration for clip in clips)`: the length of the shortest clip. */
  function ShortestDuration(clips: seq<Clip>): (d: Seconds)
    requires |clips| > 0
    ensures forall i :: 0 <= i < |clips| ==> d <= clips[i].duration
    ensures exists i :: 0 <= i < |clips| && d == clips[i].duration
  {
    if |clips| == 1 then clips[0].duration
    else
      var rest := ShortestDuration(clips[1..]);
      if clips[0].duration <= rest then clips[0].duration else rest
  }

  /** The montage duration: the shortest clip's length, lowered to
      `max_duration_seconds` when that is given and smaller. It is the
      largest length that no clip and no cap is shorter than. */
  function MontageDuration(clips: seq<Clip>, maxDurationSeconds: Option<int>): (d: Seconds)
    requires |clips| > 0
    requires maxDurationSeconds.Some? ==> maxDurationSeconds.value >= 0
    ensures forall i :: 0 <= i < |clips| ==> d <= clips[i].duration
    ensures maxDurationSeconds.Some? ==> d <= maxDurationSeconds.value as real
    ensures (exists i :: 0 <= i < |clips| && d == clips[i].duration)
         || (maxDurationSeconds.Some? && d == maxDurationSeconds.value as real)
  {
    var shortest := ShortestDuration(clips);
    if maxDurationSeconds.Some? then
      var cap := maxDurationSeconds.value as real;
      if shortest <= cap then shortest else cap
    else shortest
  }

  /** `trim_video_clips`: fails exactly on an empty list; otherwise every clip
      is cut to its first `MontageDuration` seconds, so the list keeps its
      length and order, every clip keeps its file and frame rate, and all
      clips end up equally long. */
  function TrimVideoClips(clips: seq<Clip>, maxDurationSeconds: Option<int>): (r: Result<seq<Clip>, GridError>)
    requires maxDurationSeconds.Some? ==> maxDurationSeconds.value >= 0
    ensures r.Failure? <==> |clips| == 0
    ensures r.Failure? ==> r.error == EmptyClipList
    ensures r.Success? ==> |r.value| == |clips|
    ensures r.Success? ==> forall i :: 0 <= i < |clips| ==>
              && r.value[i].duration == MontageDuration(clips, maxDurationSeconds)
              && r.value[i].source == clips[i].source
              && r.value[i].start == clips[i].start
              && r.value[i].fps == clips[i].fps
  {
    if |clips| == 0 then Failure(EmptyClipList)
    else
      var d := MontageDuration(clips, maxDurationSeconds);
      Success(seq(|clips|, i requires 0 <= i < |clips| => Subclip(clips[i], 0.0, d)))
  }

  /** After trimming, all clips have one duration, no longer than any input
      clip and no longer than the cap. */
  lemma TrimmedClipsShareDuration(clips: seq<Clip>, maxDurationSeconds: Option<int>, i: int, j: int)
    requires maxDurationSeconds.Some? ==> maxDurationSeconds.value >= 0
    requires TrimVideoClips(clips, maxDurationSeconds).Success?
    requires 0 <= i < |clips| && 0 <= j < |clips|
    ensures var trimmed := TrimVideoClips(clips, maxDurationSeconds).value;
            && trimmed[i].duration == trimmed[j].duration
            && trimmed[i].duration <= clips[j].duration
            && (maxDurationSeconds.Some? ==> trimmed[i].duration <= maxDurationSeconds.value as real)
  {
  }

  // ---------------------------------------------------------------------
  // Grid layout (`main`)
  // ---------------------------------------------------------------------

  /** Search for the least `c` with `c * c >= n`, starting at a `c` known
      to be no larger. */
  function CeilSqrtFrom(n: nat, c: nat): (r: nat)
    requires c == 0 || (c - 1) * (c - 1) < n
    ensures r * r >= n
    ensures r == 0 || (r - 1) * (r - 1) < n
    decreases n - c
  {
    if c * c >= n then c
    else
      assert c <= c * c;
      CeilSqrtFrom(n, c + 1)
  }

  /** `math.ceil(math.sqrt(n))`, the default number of clips per row: the
      least `c` with `c * c >= n`. */
  function DefaultNumPerRow(n: nat): (c: nat)
    ensures c * c >= n
    ensures c == 0 || (c - 1) * (c - 1) < n
  {
    CeilSqrtFrom(n, 0)
  }

  lemma MulMonotone(a: int, b: int, c: nat)
    requires a <= b
    ensures a * c <= b * c
  {
    assert b * c - a * c == (b - a) * c;
  }

  /** No smaller width than the default gives a grid that holds all `n` clips. */
  lemma DefaultNumPerRowIsLeast(n: nat, c: nat)
    requires c * c >= n
    ensures DefaultNumPerRow(n) <= c
  {
    var d := DefaultNumPerRow(n);
    if c < d {
      MulMonotone(c, d - 1, c);
      MulMonotone(c, d - 1, d - 1);
    }
  }

  /** The number of clips per row: `num_per_row` when given, otherwise the
      default. */
  function NumPerRow(n: nat, numPerRow: Option<int>): (c: int)
    ensures numPerRow.Some? ==> c == numPerRow.value
    ensures numPerRow.None? ==> c >= 0 && c * c >= n && (c == 0 || (c - 1) * (c - 1) < n)
  {
    if numPerRow.Some? then numPerRow.value else DefaultNumPerRow(n)
  }

  /** `math.ceil(n / cols)`, the number of rows: just enough rows of `cols`
      clips to hold `n` clips. */
  function NumRows(n: nat, cols: int): (r: nat)
    requires cols > 0
    ensures r * cols >= n
    ensures (r - 1) * cols < n
  {
    var q := (n + cols - 1) / cols;
    assert q * cols <= n + cols - 1 < q * cols + cols;
    q
  }

  /** With the default width the grid is never taller than it is wide. */
  lemma DefaultGridNoTallerThanWide(n: nat)
    requires n > 0
    ensures DefaultNumPerRow(n) > 0
    ensures NumRows(n, DefaultNumPerRow(n)) <= DefaultNumPerRow(n)
  {
    var c := DefaultNumPerRow(n);
    var r := NumRows(n, c);
    if r > c {
      MulMonotone(c, r - 1, c);
    }
  }

  /** Four clips make a two-by-two grid by default; three clips at two per
      row make two rows. */
  lemma SmallGrids()
    ensures DefaultNumPerRow(4) == 2 && NumRows(4, 2) == 2
    ensures DefaultNumPerRow(3) == 2 && NumRows(3, 2) == 2
  {
    assert CeilSqrtFrom(4, 2) == 2;
    assert CeilSqrtFrom(4, 1) == 2;
    assert CeilSqrtFrom(3, 2) == 2;
    assert CeilSqrtFrom(3, 1) == 2;
    assert NumRows(4, 2) == 5 / 2;
    assert NumRows(3, 2) == 4 / 2;
  }

  /** `[clips[i * cols:(i + 1) * cols] for i in range(rows)]`: the rows of
      the grid, sliced off the clip list from left to right. */
  function GridRows<T>(clips: seq<T>, cols: int): (rows: seq<seq<T>>)
    requires cols > 0
    ensures |rows| == NumRows(|clips|, cols)
  {
    var r := NumRows(|clips|, cols);
    seq(r, i requires 0 <= i < r => Slice(clips, i * cols, (i + 1) * cols))
  }

  /** The first `k` row slices, joined, are the clip list up to `k * cols`. */
  lemma {:induction false} RowSlicesJoin<T>(clips: seq<T>, cols: int, k: nat)
    requires cols > 0
    ensures Sum(seq(k, i requires 0 <= i < k => Slice(clips, i * cols, (i + 1) * cols)))
         == clips[..Min(k * cols, |clips|)]
  {
    var rows := seq(k, i requires 0 <= i < k => Slice(clips, i * cols, (i + 1) * cols));
    if k > 0 {
      var k' := k - 1;
      var prev := seq(k', i requires 0 <= i < k' => Slice(clips, i * cols, (i + 1) * cols));
      assert rows[..|rows| - 1] == prev;
      RowSlicesJoin(clips, cols, k');
      assert k * cols == k' * cols + cols;
      var last := Slice(clips, k' * cols, k * cols);
      assert rows[|rows| - 1] == last;
      assert clips[..Min(k' * cols, |clips|)] + last == clips[..Min(k * cols, |clips|)];
    }
  }

  /** The rows partition the clip list in row-major order: joined, they give
      back the list exactly; every row but the last holds exactly `cols`
      clips, and the last holds between 1 and `cols`. */
  lemma GridRowsPartition<T>(clips: seq<T>, cols: int)
    requires cols > 0
    ensures Sum(GridRows(clips, cols)) == clips
    ensures forall i :: 0 <= i < |GridRows(clips, cols)| - 1 ==> |GridRows(clips, cols)[i]| == cols
    ensures |clips| > 0 ==> 0 < |GridRows(clips, cols)[|GridRows(clips, cols)| - 1]| <= cols
    ensures |clips| == 0 <==> GridRows(clips, cols) == []
  {
    var n := |clips|;
    var rows := GridRows(clips, cols);
    var r := |rows|;
    RowSlicesJoin(clips, cols, r);
    assert clips[..Min(r * cols, n)] == clips;
    forall i | 0 <= i < r - 1
      ensures |rows[i]| == cols
    {
      FullRow(clips, cols, i);
    }
    if n > 0 {
      LastRow(clips, cols);
    }
  }

  /** A row before the last is full. */
  lemma FullRow<T>(clips: seq<T>, cols: int, i: nat)
    requires cols > 0
    requires i + 1 < NumRows(|clips|, cols)
    ensures |Slice(clips, i * cols, (i + 1) * cols)| == cols
  {
    MulMonotone(i + 1, NumRows(|clips|, cols) - 1, cols);
    assert (i + 1) * cols == i * cols + cols;
  }

  /** The last row of a non-empty list holds between 1 and `cols` clips. */
  lemma LastRow<T>(clips: seq<T>, cols: int)
    requires cols > 0 && |clips| > 0
    ensures NumRows(|clips|, cols) > 0
    ensures var r := NumRows(|clips|, cols);
            0 < |Slice(clips, (r - 1) * cols, r * cols)| <= cols
  {
    var r := NumRows(|clips|, cols);
    assert r * cols == (r - 1) * cols + cols;
  }

  // ---------------------------------------------------------------------
  // The whole grid script (`main`), between decoding and encoding
  // ---------------------------------------------------------------------

  /** The options of the grid script that the montage logic reads. */
  datatype GridArgs = GridArgs(
    maxNVideos: Option<int>,
    maxDurationSeconds: Option<int>,
    fps: Option<int>,
    numPerRow: Option<int>)

  /** Option values the script works with: no negative count or duration,
      and a positive number of clips per row. */
  predicate ValidArgs(args: GridArgs)
  {
    && (args.maxNVideos.Some? ==> args.maxNVideos.value >= 0)
    && (args.maxDurationSeconds.Some? ==> args.maxDurationSeconds.value >= 0)
    && (args.numPerRow.Some? ==> args.numPerRow.value > 0)
  }

  /** What is handed to `clips_array` and `write_videofile`. */
  datatype Montage = Montage(rows: seq<seq<Clip>>, fps: int)

  /** The frame rate to encode at: the `fps` option, else the first clip's. */
  function OutputFps(fps: Option<int>, clips: seq<Clip>): (r: int)
    requires |clips| > 0
    ensures fps.Some? ==> r == fps.value
    ensures fps.None? ==> r == clips[0].fps
  {
    if fps.Some? then fps.value else clips[0].fps
  }

  /** `main` from the glob results up to the rows handed to `clips_array`
      and the frame rate handed to `write_videofile`. This part fails
      exactly when no clip is selected. Otherwise the grid, read row by row,
      is the selected clips in extension order, each cut to its first
      montage-duration seconds with its file and frame rate kept; there are `ceil(n / cols)`
      rows for `cols` clips per row (`num_per_row` or the default), every
      row but the last is `cols` wide and the last holds 1 to `cols`; and
      the frame rate is the `fps` option or else the first selected file's. */
  function PlanGridMontage(glob: Utils.Pattern -> seq<Utils.Path>, decode: Utils.Path -> Clip, args: GridArgs): (r: Result<Montage, GridError>)
    requires ValidArgs(args)
    ensures var clips := Utils.CreateVideoClips(glob, decode, args.maxNVideos);
            && (r.Failure? <==> clips == [])
            && (r.Success? ==>
                  var grid := Sum(r.value.rows);
                  var cols := NumPerRow(|clips|, args.numPerRow);
                  && |grid| == |clips|
                  && (forall i :: 0 <= i < |grid| ==>
                        && grid[i].source == clips[i].source
                        && grid[i].start == clips[i].start
                        && grid[i].fps == clips[i].fps
                        && grid[i].duration == MontageDuration(clips, args.maxDurationSeconds))
                  && |r.value.rows| == NumRows(|clips|, cols)
                  && (forall i :: 0 <= i < |r.value.rows| - 1 ==> |r.value.rows[i]| == cols)
                  && 0 < |r.value.rows[|r.value.rows| - 1]| <= cols
                  && r.value.fps == (if args.fps.Some? then args.fps.value
                                     else decode(Utils.VideoFilePaths(glob)[0]).fps))
  {
    var clips := Utils.CreateVideoClips(glob, decode, args.maxNVideos);
    match TrimVideoClips(clips, args.maxDurationSeconds)
    case Failure(e) => Failure(e)
    case Success(trimmed) =>
      var cols := NumPerRow(|trimmed|, args.numPerRow);
      assert cols > 0 by {
        if args.numPerRow.None? {
          assert cols * cols >= |trimmed| > 0;
        }
      }
      GridRowsPartition(trimmed, cols);
      Success(Montage(GridRows(trimmed, cols), OutputFps(args.fps, trimmed)))
  }
}
