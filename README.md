# video_montage: clip selection and grid layout

A Dafny model of the decision logic of `video_montage`, a command-line tool
that assembles the videos of a folder into one grid montage. Two parts are
modelled:

- **Clip selection** (`create_video_clips`, module `Utils`): the folder's
  files are gathered one extension at a time in the fixed order `mp4, webm,
  avi, mov, mkv, gif`, flattened with `sum(groups, [])`, cut to the first
  `max_n_videos` paths (all of them when the option is missing), and decoded
  one clip per path.
- **Grid duration and layout** (`trim_video_clips` and the layout part of
  `main`, module `GridMontage`): the montage duration is the shortest clip's
  length, lowered to `max_duration_seconds` when given; every clip is cut to
  that length; the grid is `num_per_row` clips wide, or `ceil(sqrt(n))` by
  default; it has `ceil(n / width)` rows sliced off the clip list row by row;
  it is encoded at the `fps` option or at the first clip's frame rate.

The glob of the input folder and the decoding of a file (`mp.VideoFileClip`)
are parameters of the model (`glob`, `decode`): the filesystem and the video
library are outside it. A clip is a record of its source file, start offset,
duration in seconds (a non-negative `real`) and frame rate (module `Media`);
`subclip(0, D)` gives the same clip with duration `D`. Python's `sum` over
lists and its clamping slices are written out in module `PyList`.

This model follows the first version of the tool. Later versions (not
modelled) sort each extension group by file name, pad short clips to the
longest (freeze, loop or black fill) instead of cutting every clip to the
shortest, pad the grid with black filler clips to a full rectangle, and
report an empty folder as an error of its own. None of that is in this
version, so none of it is in the model: groups keep the glob's order, clips
are cut to the shortest, the last grid row may be short, and an empty
selection fails only because `min()` of an empty list raises
(`GridError.EmptyClipList`).

## Model

| member | source | states |
|---|---|---|
| Utils.VideoFilePaths | video_montage/utils.py:16-24 | the candidate list is all `mp4` matches, then all `webm`, `avi`, `mov`, `mkv`, `gif` matches (one glob per pattern, in that fixed order), each group exactly in glob order; its length is the sum of the six group sizes (nothing dropped or deduplicated) |
| PyList.Sum | video_montage/utils.py:18-24 | `sum(lists, [])` yields exactly as many elements as the lists hold together |
| PyList.SumSnoc | video_montage/utils.py:18-24 | adding one more list to a `sum(lists, [])` appends its elements after all earlier ones |
| PyList.Slice | video_montage/video_grid_montage.py:57 | `s[lo:hi]` has `min(hi, len(s)) - lo` elements when `lo < hi` and `lo < len(s)`, none otherwise, and its element `k` is `s[lo + k]` |
| Utils.SelectedVideoFilePaths | video_montage/utils.py:26-27 | the selection is a prefix of the candidates of length `min(k, total)` for `max_n_videos = k`, and all candidates for `None` |
| Utils.CreateVideoClips | video_montage/utils.py:13-33 | one clip per selected path, in order: clip `i` is the decoding of candidate `i` in extension order, and there are `min(k, total)` (or `total`) clips |
| Utils.NoMatchesNoClips | video_montage/utils.py:18-33 | a folder with no match for any extension yields the empty clip list, with no error |
| Media.Subclip | video_montage/video_grid_montage.py:29 | `subclip(t0, t1)` inside a clip starts `t0` into the clip, has duration `t1 - t0`, the same source and the same frame rate |
| GridMontage.ShortestDuration | video_montage/video_grid_montage.py:22 | the shortest duration is no longer than any clip's and is some clip's duration |
| GridMontage.MontageDuration | video_montage/video_grid_montage.py:22-27 | the montage duration is at most every clip's duration and at most the cap when one is given, and it equals either a clip's duration or the cap (the greatest such bound) |
| GridMontage.TrimVideoClips | video_montage/video_grid_montage.py:19-31 | fails exactly on an empty clip list; otherwise keeps length and order, and every output clip has the montage duration and its input's source, start and frame rate |
| GridMontage.TrimmedClipsShareDuration | video_montage/video_grid_montage.py:22-31 | after trimming any two clips are equally long, no longer than any input clip and no longer than the cap |
| GridMontage.DefaultNumPerRow | video_montage/video_grid_montage.py:51 | the default width `c` satisfies `c * c >= n` and `(c - 1) * (c - 1) < n`, i.e. it is the ceiling of the square root of `n` |
| GridMontage.DefaultNumPerRowIsLeast | video_montage/video_grid_montage.py:51 | no width smaller than the default has a square that holds `n` clips |
| GridMontage.NumPerRow | video_montage/video_grid_montage.py:51-54 | an explicit `num_per_row` is used as given; otherwise the width is the ceiling square root of `n` |
| GridMontage.NumRows | video_montage/video_grid_montage.py:55 | the row count `r` is the ceiling of `n / cols`: `r * cols >= n` and `(r - 1) * cols < n` |
| GridMontage.DefaultGridNoTallerThanWide | video_montage/video_grid_montage.py:51-55 | for a non-empty list the default width is positive and the grid has no more rows than columns |
| GridMontage.SmallGrids | video_montage/video_grid_montage.py:51-55 | four clips give a two-by-two default grid; three clips at two per row, or by default, give two rows |
| GridMontage.GridRows | video_montage/video_grid_montage.py:55-57 | the row slices number exactly `ceil(n / cols)` |
| GridMontage.RowSlicesJoin | video_montage/video_grid_montage.py:57 | the first `k` row slices joined are the clip list up to index `min(k * cols, n)` |
| GridMontage.FullRow | video_montage/video_grid_montage.py:55-57 | the slice `clips[i*cols:(i+1)*cols]` of any row before the last holds exactly `cols` clips |
| GridMontage.LastRow | video_montage/video_grid_montage.py:55-57 | a non-empty list has at least one row, and its last slice holds between 1 and `cols` clips |
| GridMontage.GridRowsPartition | video_montage/video_grid_montage.py:55-58 | the rows joined give back the clip list exactly (row-major, no padding); every row but the last has exactly `cols` clips, the last between 1 and `cols`; there are no rows exactly when there are no clips |
| GridMontage.OutputFps | video_montage/video_grid_montage.py:61 | the output frame rate is the `fps` option when given, else the first clip's frame rate; that this first clip's rate is the first selected file's (it survives the trim) is stated by `GridMontage.PlanGridMontage` |
| GridMontage.PlanGridMontage | video_montage/video_grid_montage.py:44-61 | from the glob results to the rows handed to `clips_array`: fails exactly when no clip is selected; otherwise the grid read row by row is the selected clips in order, each cut to its first D seconds (same source and start, duration D = the montage duration) with its frame rate kept, there are `ceil(n / cols)` rows for `cols` = `num_per_row` (or the default), every row but the last is `cols` wide and the last holds 1 to `cols` clips, and the output frame rate is the `fps` option or else the first selected file's frame rate |

## Left out

- Argument parsing, the check that the input folder exists and the creation of the output folder: command-line and filesystem plumbing.
- The default output file names built from the current date and time (`datetime_str` and its cache): they depend on the clock.
- Decoding, `clips_array` and `write_videofile`: calls into the video library. The model stops at the rows and frame rate handed to them, so failures inside these calls (a short last row, say) are not modelled; neither is the stop at a missing input folder.
- `video_sequence_montage.py`: it only loads the clips, concatenates them in the video library and encodes them; its one decision, the frame-rate fallback, is the same rule as the grid script's and is modelled once there.
- How `glob` matches files (case, hidden files, order): the match lists are inputs.
- Negative `max_n_videos` (Python would then drop paths from the end) and negative `max_duration_seconds` (the video library would then read the end time as counted from the clip's end): the model requires both to be non-negative.
- A zero or negative `num_per_row`, which makes the row count divide by zero or come out non-positive: the model requires it to be positive.
- GridMontage.DefaultNumPerRow: computes the exact integer ceiling of the square root, where the source uses floating-point `math.sqrt`, which can round for very large counts.
- GridMontage.NumRows: computes the exact integer ceiling of `n / cols`, where the source divides in floating point first.
- Durations are floats in the source and `real` numbers here; only comparisons and `min` are applied to them.
- Media.Clip: a decoded clip's frame rate is a float in the video library; the model carries it as an `int`, like the `fps` option, because it is only passed through to the encoder.
