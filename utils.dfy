/** Clip selection of video_montage/utils.py: the files of a folder are
    gathered one extension at a time, optionally cut to a prefix, and
    decoded one clip per file. */
module Utils {
  import opened Wrappers
  import opened PyList
  import opened Media

  /** A file path, as `str(path)` gives it. */
  type Path = string

  /** A glob pattern such as `*.mp4`. */
  type Pattern = string

  /** The recognised extensions, in the order their matches are gathered. */
  const VIDEO_EXTENSIONS: seq<Pattern> := ["*.mp4", "*.webm", "*.avi", "*.mov", "*.mkv", "*.gif"]

  /** The matches of every pattern, one list per pattern in pattern order.
      `glob` stands for the input folder's `glob`: the list of the folder's
      paths matching a pattern, in the order the filesystem gives them. */
  function GlobGroups(glob: Pattern -> seq<Path>): (groups: seq<seq<Path>>)
    ensures |groups| == |VIDEO_EXTENSIONS|
    ensures forall i :: 0 <= i < |groups| ==> groups[i] == glob(VIDEO_EXTENSIONS[i])
  {
    seq(|VIDEO_EXTENSIONS|, i requires 0 <= i < |VIDEO_EXTENSIONS| => glob(VIDEO_EXTENSIONS[i]))
  }

  /** All candidate paths: the groups flattened with `sum(groups, [])`.
      They are every `mp4` match, then every `webm`, `avi`, `mov`, `mkv`
      and `gif` match, each group in the order the glob gave it, with
      nothing dropped or repeated. */
  function VideoFilePaths(glob: Pattern -> seq<Path>): (paths: seq<Path>)
    ensures paths == glob("*.mp4") + glob("*.webm") + glob("*.avi") + glob("*.mov") + glob("*.mkv") + glob("*.gif")
    ensures |paths| == TotalLength(GlobGroups(glob))
  {
    var groups := GlobGroups(glob);
    assert groups[..1] == [] + [glob("*.mp4")];
    SumSnoc([], glob("*.mp4"));
    assert groups[..2] == groups[..1] + [glob("*.webm")];
    SumSnoc(groups[..1], glob("*.webm"));
    assert groups[..3] == groups[..2] + [glob("*.avi")];
    SumSnoc(groups[..2], glob("*.avi"));
    assert groups[..4] == groups[..3] + [glob("*.mov")];
    SumSnoc(groups[..3], glob("*.mov"));
    assert groups[..5] == groups[..4] + [glob("*.mkv")];
    SumSnoc(groups[..4], glob("*.mkv"));
    assert groups == groups[..5] + [glob("*.gif")];
    SumSnoc(groups[..5], glob("*.gif"));
    Sum(groups)
  }

  /** How many paths are selected out of `total` candidates for a given
      `max_n_videos`. */
  function SelectedCount(total: nat, maxNVideos: Option<int>): nat
    requires maxNVideos.Some? ==> maxNVideos.value >= 0
  {
    if maxNVideos.Some? then Min(maxNVideos.value, total) else total
  }

  /** `video_file_paths[:max_n_videos]`, where a missing `max_n_videos`
      stands for the number of candidates: the first `min(k, total)`
      candidates for `k`, all of them for `None`. */
  function SelectedVideoFilePaths(glob: Pattern -> seq<Path>, maxNVideos: Option<int>): (selected: seq<Path>)
    requires maxNVideos.Some? ==> maxNVideos.value >= 0
    ensures |selected| == SelectedCount(|VideoFilePaths(glob)|, maxNVideos)
    ensures selected == VideoFilePaths(glob)[..|selected|]
    ensures maxNVideos.None? ==> selected == VideoFilePaths(glob)
  {
    var paths := VideoFilePaths(glob);
    var k := if maxNVideos.Some? then maxNVideos.value else |paths|;
    PrefixSlice(paths, k);
    Slice(paths, 0, k)
  }

  /** `create_video_clips`: one clip per selected path, in the same order.
      `decode` stands for `mp.VideoFileClip`. Clip `i` is the decoding of
      candidate `i` in extension order. */
  function CreateVideoClips(glob: Pattern -> seq<Path>, decode: Path -> Clip, maxNVideos: Option<int>): (clips: seq<Clip>)
    requires maxNVideos.Some? ==> maxNVideos.value >= 0
    ensures |clips| == SelectedCount(|VideoFilePaths(glob)|, maxNVideos)
    ensures forall i :: 0 <= i < |clips| ==> clips[i] == decode(VideoFilePaths(glob)[i])
  {
    var selected := SelectedVideoFilePaths(glob, maxNVideos);
    seq(|selected|, i requires 0 <= i < |selected| => decode(selected[i]))
  }

  /** A folder with no match for any extension gives no clip, and no error. */
  lemma NoMatchesNoClips(glob: Pattern -> seq<Path>, decode: Path -> Clip, maxNVideos: Option<int>)
    requires maxNVideos.Some? ==> maxNVideos.value >= 0
    requires forall i :: 0 <= i < |VIDEO_EXTENSIONS| ==> glob(VIDEO_EXTENSIONS[i]) == []
    ensures CreateVideoClips(glob, decode, maxNVideos) == []
  {
    var groups := GlobGroups(glob);
    assert TotalLength(groups) == 0 by {
      assert forall i :: 0 <= i < |groups| ==> groups[i] == [];
      ZeroLengthGroups(groups);
    }
  }

  lemma {:induction false} ZeroLengthGroups(groups: seq<seq<Path>>)
    requires forall i :: 0 <= i < |groups| ==> groups[i] == []
    ensures TotalLength(groups) == 0
  {
    if groups != [] {
      ZeroLengthGroups(groups[..|groups| - 1]);
    }
  }
}
