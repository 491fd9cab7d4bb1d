/** data_capture.py: the recorder. From a snapshot of an output directory it
    picks the first sequence number of a run, then drives the camera through
    a fixed plan of one-minute segments (video mode) or single pictures
    (stills mode), and finally transcodes the raw segments that have no
    `.mp4` yet.

    The camera and ffmpeg are recorded as effects on a `Volume`; every
    method is proved to perform exactly the effects of a plan function, and
    the lemmas state what those plans promise. */
module DataCapture {
  import opened Strings
  import opened Storage
  import opened Sweep

  /** Seconds per video segment (`video_length`). */
  const VideoLength := 60
  /** `controls={"FrameRate":25.0}` */
  const VideoFrameRate := 25
  /** `H264Encoder(10000000)` */
  const EncoderBitrate := 10000000
  const DefaultRecipe := "chicken_teriyaki"
  const DefaultRecSecs := 60
  const DefaultFormat := 'v'
  const StillExt := ".jpg"

  /** The command line as argparse leaves it: `None` for a missing flag. */
  datatype Args = Args(debug: Option<string>, recipe: Option<string>, minutes: Option<int>, format: Option<char>)

  datatype Settings = Settings(debug: bool, recipe: string, recSecs: int, format: char)

  /** The three output directories of one run. */
  datatype Outputs = Outputs(videos: string, compressed: string, stills: string)

  /** Argument defaulting: a non-empty `-d` string turns debugging on, the
      recipe defaults to chicken teriyaki, the duration to one minute and
      the format to video. */
  function Defaults(a: Args): Settings
  {
    Settings(
      a.debug.Some? && a.debug.value != "",
      if a.recipe.None? then DefaultRecipe else a.recipe.value,
      if a.minutes.None? then DefaultRecSecs else a.minutes.value * 60,
      if a.format.None? then DefaultFormat else a.format.value)
  }

  /** `len(range(math.floor(rec_secs / video_length)))`: floor division is
      Dafny's `/` for a positive divisor, and a negative bound gives an empty
      range. */
  function SegmentCount(recSecs: int): (n: nat)
    ensures recSecs < VideoLength ==> n == 0
    ensures recSecs >= 0 ==> n * VideoLength <= recSecs < (n + 1) * VideoLength
  {
    if recSecs < 0 then 0 else recSecs / VideoLength
  }

  /** `len(range(rec_secs))`, also the number of turns of
      `while still_sec < rec_secs`. */
  function Secs(recSecs: int): nat
  {
    if recSecs < 0 then 0 else recSecs
  }

  /** `recipe + "_" + run_date + "_" + str(k) + ext` */
  function SeqName(recipe: string, date: string, k: nat, ext: string): string
  {
    recipe + "_" + date + "_" + NatToString(k) + ext
  }

  function VideoName(recipe: string, date: string, k: nat): string
  {
    SeqName(recipe, date, k, Raw)
  }

  function PictureName(recipe: string, date: string, k: nat): string
  {
    SeqName(recipe, date, k, StillExt)
  }

  /** `new_file_name.replace(".h264", "_" + str(still_sec) + ".jpg")` */
  function StillName(segment: string, sec: nat): string
  {
    ReplaceAll(segment, Raw, "_" + NatToString(sec) + StillExt)
  }

  /** The names `0 .. n-1` of one recipe, date and extension. */
  function Numbered(recipe: string, date: string, ext: string, n: nat): seq<string>
  {
    seq(n, k requires 0 <= k < n => SeqName(recipe, date, k, ext))
  }

  /** The starting sequence number computed from the snapshot `files`: the
      name tested is built once, for index 0, so the answer is 0 when that
      name is missing and the length of the snapshot when it is present. */
  function StartIndex(files: seq<string>, first: string): (r: nat)
    ensures r <= |files|
  {
    if first in files then |files| else 0
  }

  /** The `while` loop of `record_video` / `record_stills`. */
  method NextStart(files: seq<string>, recipe: string, date: string, ext: string) returns (newStart: nat)
    ensures newStart == StartIndex(files, SeqName(recipe, date, 0, ext))
  {
    var i := 0;
    newStart := 0;
    var newFileName := SeqName(recipe, date, i, ext);
    while i < |files| && newFileName in files
      invariant 0 <= i <= |files|
      invariant newStart == i
      invariant newFileName !in files ==> i == 0
    {
      i := i + 1;
      newStart := i;
    }
  }

  /* ---------------------------------------------------------------- plans */

  /** The names `start .. start+m-1` of one recipe, date and extension: the
      files of a run, in the order it writes them. */
  function RunNames(recipe: string, date: string, ext: string, start: nat, m: nat): seq<string>
  {
    seq(m, j requires 0 <= j < m => SeqName(recipe, date, start + j, ext))
  }

  /** The stills of the first `n` seconds of a segment. */
  function StillNames(segment: string, n: nat): seq<string>
  {
    seq(n, s requires 0 <= s < n => StillName(segment, s))
  }

  /** The stills loop of one segment: save each still, then sleep. */
  function StillSaves(stills: string, names: seq<string>): seq<Effect>
    decreases |names|
  {
    if names == [] then []
    else StillSaves(stills, names[..|names| - 1]) + [SaveStill(stills, names[|names| - 1])] + [Sleep]
  }

  /** The start of a segment: open and configure the camera and start
      recording the segment. */
  function SegmentHead(out: Outputs, segment: string): seq<Effect>
  {
    [OpenCamera, ConfigureVideo(VideoFrameRate), StartRecording(out.videos, segment, EncoderBitrate)]
  }

  /** One turn of the segment loop: open and configure the camera, record
      the segment, save one still a second while it records, stop, close. */
  function Segment(out: Outputs, segment: string, secs: nat): seq<Effect>
  {
    SegmentHead(out, segment)
    + StillSaves(out.stills, StillNames(segment, secs))
    + [StopRecording, CloseCamera]
  }

  /** One segment per name, in order. */
  function Segments(out: Outputs, names: seq<string>, secs: nat): seq<Effect>
    decreases |names|
  {
    if names == [] then []
    else Segments(out, names[..|names| - 1], secs) + Segment(out, names[|names| - 1], secs)
  }

  /** `record_video` raises: the videos directory cannot be listed, or
      the first `request.save` of the first segment finds no stills
      directory. */
  predicate RecordRaises(t: Tree, out: Outputs, recSecs: int)
  {
    out.videos !in t || (out.stills !in t && SegmentCount(recSecs) > 0)
  }

  /** `record_video` on the tree `t`. Without a stills directory the first
      segment starts recording and the save that follows raises: the camera
      is neither stopped nor closed. */
  function VideoPlan(t: Tree, out: Outputs, recipe: string, date: string, recSecs: int): seq<Effect>
  {
    if out.videos !in t then []
    else
      var start := StartIndex(FileNames(t[out.videos]), VideoName(recipe, date, 0));
      if RecordRaises(t, out, recSecs) then SegmentHead(out, VideoName(recipe, date, start))
      else Segments(out, RunNames(recipe, date, Raw, start, SegmentCount(recSecs)), Secs(recSecs))
  }

  /** One turn of the stills loop. */
  function Picture(out: Outputs, name: string): seq<Effect>
  {
    [OpenCamera, StartCamera, CaptureFile(out.stills, name), CloseCamera, Sleep]
  }

  /** One picture per name, in order. */
  function Pictures(out: Outputs, names: seq<string>): seq<Effect>
    decreases |names|
  {
    if names == [] then []
    else Pictures(out, names[..|names| - 1]) + Picture(out, names[|names| - 1])
  }

  /** `record_stills` on the tree `t`. */
  function StillsPlan(t: Tree, out: Outputs, recipe: string, date: string, recSecs: int): seq<Effect>
  {
    if out.stills !in t then []
    else
      var start := StartIndex(FileNames(t[out.stills]), PictureName(recipe, date, 0));
      Pictures(out, RunNames(recipe, date, StillExt, start, Secs(recSecs)))
  }

  /** `compress_video` on the tree `t`: the snapshot of done names is every
      plain file of the compressed directory. */
  function CompressPlan(t: Tree, out: Outputs): seq<Effect>
  {
    if out.compressed !in t || out.videos !in t then []
    else Transcodes(out.videos, out.compressed, Selected(Names(t[out.videos]), FileNames(t[out.compressed])))
  }

  /** Video mode: the segments, then, unless recording raised, the
      transcode sweep on the tree they leave behind. */
  function VideoRunPlan(t: Tree, out: Outputs, recipe: string, date: string, recSecs: int): seq<Effect>
  {
    var v := VideoPlan(t, out, recipe, date, recSecs);
    v + (if RecordRaises(t, out, recSecs) then [] else CompressPlan(Apply(t, v), out))
  }

  /** The `os.makedirs` calls at the start of the script, one per output
      directory. */
  function Startup(out: Outputs): seq<Effect>
  {
    [MakeDirs(out.videos), MakeDirs(out.compressed), MakeDirs(out.stills)]
  }

  /** The three output directories are distinct and none is made directly
      inside another, as holds for `videos/`, `compressed_videos/` and
      `stills/` under the run date's directory. */
  predicate Apart(out: Outputs)
  {
    out.videos != out.compressed && out.videos != out.stills && out.stills != out.compressed &&
    ParentOf(out.videos) != Some(out.compressed) && ParentOf(out.videos) != Some(out.stills) &&
    ParentOf(out.compressed) != Some(out.videos) && ParentOf(out.compressed) != Some(out.stills) &&
    ParentOf(out.stills) != Some(out.videos) && ParentOf(out.stills) != Some(out.compressed)
  }

  /** After the start of the script the three output directories exist, and
      no other directory is new. When they are apart, the compressed
      directory lists what it listed before, or nothing if it is new. */
  lemma StartupMakesDirs(t: Tree, out: Outputs)
    ensures var t1 := Apply(t, Startup(out));
      t1.Keys == t.Keys + {out.videos, out.compressed, out.stills} &&
      (Apart(out) ==> t1[out.compressed] == if out.compressed in t then t[out.compressed] else [])
  {
    StartupApplies(t, out);
  }

  /** The `__main__` dispatch on the format. */
  function MainPlan(t: Tree, out: Outputs, date: string, a: Args): seq<Effect>
  {
    var s := Defaults(a);
    if s.format == 's' then StillsPlan(t, out, s.recipe, date, s.recSecs)
    else if s.format == 'v' then
      VideoRunPlan(t, out, s.recipe, date, s.recSecs)
    else []
  }

  /** The whole script: the output directories are made, then `__main__`
      runs on the tree that leaves. */
  function RunPlan(t: Tree, out: Outputs, date: string, a: Args): seq<Effect>
  {
    Startup(out) + MainPlan(Apply(t, Startup(out)), out, date, a)
  }

  /* -------------------------------------------------------------- methods */

  /** `record_video`; `ok` is false when it raises. */
  method RecordVideo(vol: Volume, out: Outputs, recipe: string, date: string, recSecs: int) returns (ok: bool)
    requires vol.Valid()
    modifies vol
    ensures vol.Valid() && vol.origin == old(vol.origin)
    ensures ok == !RecordRaises(old(vol.tree), out, recSecs)
    ensures vol.effects == old(vol.effects) + VideoPlan(old(vol.tree), out, recipe, date, recSecs)
  {
    ghost var t0, e0 := vol.tree, vol.effects;
    assert e0 + [] == e0;
    if out.videos !in vol.tree {
      // `os.listdir` raises and the run ends
      return false;
    }
    var files := FileNames(vol.tree[out.videos]);
    var newStart := NextStart(files, recipe, date, Raw);
    ghost var start := newStart;
    var segments := SegmentCount(recSecs);
    var videoMins := 0;
    while videoMins < segments
      invariant 0 <= videoMins <= segments
      invariant newStart == start + videoMins
      invariant vol.Valid() && vol.origin == old(vol.origin)
      invariant out.stills in vol.tree <==> out.stills in t0
      invariant out.stills !in t0 ==> videoMins == 0
      invariant vol.effects == e0 + Segments(out, RunNames(recipe, date, Raw, start, videoMins), Secs(recSecs))
    {
      ok := RecordNext(vol, out, recipe, date, newStart, recSecs, start, videoMins, e0);
      if !ok {
        return;
      }
      newStart := newStart + 1;
      videoMins := videoMins + 1;
    }
    return true;
  }

  /** One turn of the segment loop of `record_video`: the segment named by
      the running counter. */
  method RecordNext(vol: Volume, out: Outputs, recipe: string, date: string, newStart: nat, recSecs: int,
                    ghost start: nat, ghost m: nat, ghost e0: seq<Effect>) returns (ok: bool)
    requires newStart == start + m
    requires vol.Valid() && vol.effects == e0 + Segments(out, RunNames(recipe, date, Raw, start, m), Secs(recSecs))
    requires recSecs >= VideoLength
    modifies vol
    ensures vol.Valid() && vol.origin == old(vol.origin)
    ensures ok == (out.stills in old(vol.tree))
    ensures out.stills in vol.tree <==> out.stills in old(vol.tree)
    ensures ok ==> vol.effects == e0 + Segments(out, RunNames(recipe, date, Raw, start, m + 1), Secs(recSecs))
    ensures !ok ==> m == 0 ==> vol.effects == e0 + SegmentHead(out, VideoName(recipe, date, start))
  {
    var newFileName := VideoName(recipe, date, newStart);
    ok := RecordSegment(vol, out, newFileName, recSecs);
    RunNamesSnoc(recipe, date, Raw, start, m);
    SegmentsSnoc(e0, out, RunNames(recipe, date, Raw, start, m), newFileName, Secs(recSecs));
    if !ok && m == 0 {
      assert RunNames(recipe, date, Raw, start, 0) == [];
      assert e0 + [] == e0;
    }
  }

  lemma RunNamesSnoc(recipe: string, date: string, ext: string, start: nat, m: nat)
    ensures RunNames(recipe, date, ext, start, m + 1)
         == RunNames(recipe, date, ext, start, m) + [SeqName(recipe, date, start + m, ext)]
  {
    assert RunNames(recipe, date, ext, start, m + 1)[..m] == RunNames(recipe, date, ext, start, m);
  }

  lemma SegmentsSnoc(e0: seq<Effect>, out: Outputs, names: seq<string>, name: string, secs: nat)
    ensures e0 + Segments(out, names, secs) + Segment(out, name, secs) == e0 + Segments(out, names + [name], secs)
  {
    assert (names + [name])[..|names|] == names;
  }

  /** One turn of the segment loop of `record_video`; `ok` is false when
      a save raises because the stills directory is missing. */
  method RecordSegment(vol: Volume, out: Outputs, newFileName: string, recSecs: int) returns (ok: bool)
    requires vol.Valid()
    modifies vol
    ensures vol.Valid() && vol.origin == old(vol.origin)
    ensures ok == (out.stills in old(vol.tree) || recSecs <= 0)
    ensures out.stills in vol.tree <==> out.stills in old(vol.tree)
    ensures vol.effects == old(vol.effects)
      + if ok then Segment(out, newFileName, Secs(recSecs)) else SegmentHead(out, newFileName)
  {
    ghost var e0, t0 := vol.effects, vol.tree;
    ghost var head := SegmentHead(out, newFileName);
    StepKeys(vol.tree, OpenCamera);
    vol.Perform(OpenCamera);
    StepKeys(vol.tree, ConfigureVideo(VideoFrameRate));
    vol.Perform(ConfigureVideo(VideoFrameRate));
    StepKeys(vol.tree, StartRecording(out.videos, newFileName, EncoderBitrate));
    vol.Perform(StartRecording(out.videos, newFileName, EncoderBitrate));
    SegmentOpens(e0, head, out.stills);
    var stillSec := 0;
    while stillSec < recSecs
      invariant 0 <= stillSec && (recSecs >= 0 ==> stillSec <= recSecs)
      invariant recSecs < 0 ==> stillSec == 0
      invariant vol.Valid() && vol.origin == old(vol.origin)
      invariant out.stills in vol.tree <==> out.stills in t0
      invariant out.stills !in t0 ==> stillSec == 0
      invariant vol.effects == e0 + head + StillSaves(out.stills, StillNames(newFileName, stillSec))
    {
      if out.stills !in vol.tree {
        // `request.save` raises
        assert StillNames(newFileName, 0) == [];
        return false;
      }
      SaveNext(vol, out.stills, newFileName, stillSec, e0 + head);
      stillSec := stillSec + 1;
    }
    ok := true;
    vol.Perform(StopRecording);
    vol.Perform(CloseCamera);
    SegmentCloses(e0, out, newFileName, Secs(recSecs));
  }

  /** One turn of the stills loop inside a segment. */
  method SaveNext(vol: Volume, stills: string, newFileName: string, stillSec: nat, ghost pre: seq<Effect>)
    requires vol.Valid() && vol.effects == pre + StillSaves(stills, StillNames(newFileName, stillSec))
    modifies vol
    ensures vol.Valid() && vol.origin == old(vol.origin) && vol.tree.Keys == old(vol.tree.Keys)
    ensures vol.effects == pre + StillSaves(stills, StillNames(newFileName, stillSec + 1))
  {
    StepKeys(vol.tree, SaveStill(stills, StillName(newFileName, stillSec)));
    vol.Perform(SaveStill(stills, StillName(newFileName, stillSec)));
    StepKeys(vol.tree, Sleep);
    vol.Perform(Sleep);
    StillNamesSnoc(newFileName, stillSec);
    StillSavesSnoc(pre, stills, StillNames(newFileName, stillSec), StillName(newFileName, stillSec));
  }

  lemma SegmentOpens(e0: seq<Effect>, head: seq<Effect>, stills: string)
    requires |head| == 3
    ensures e0 + [head[0]] + [head[1]] + [head[2]] == e0 + head
    ensures e0 + [head[0]] + [head[1]] + [head[2]] == e0 + head + StillSaves(stills, [])
  {
    assert head == [head[0], head[1], head[2]];
  }

  lemma StillNamesSnoc(segment: string, n: nat)
    ensures StillNames(segment, n + 1) == StillNames(segment, n) + [StillName(segment, n)]
  {
    assert StillNames(segment, n + 1)[..n] == StillNames(segment, n);
  }

  lemma StillSavesSnoc(pre: seq<Effect>, stills: string, names: seq<string>, name: string)
    ensures pre + StillSaves(stills, names) + [SaveStill(stills, name)] + [Sleep]
         == pre + StillSaves(stills, names + [name])
  {
    assert (names + [name])[..|names|] == names;
  }

  lemma SegmentCloses(e0: seq<Effect>, out: Outputs, segment: string, secs: nat)
    ensures e0 + [OpenCamera, ConfigureVideo(VideoFrameRate), StartRecording(out.videos, segment, EncoderBitrate)]
         + StillSaves(out.stills, StillNames(segment, secs)) + [StopRecording] + [CloseCamera]
         == e0 + Segment(out, segment, secs)
  {
  }

  method RecordStills(vol: Volume, out: Outputs, recipe: string, date: string, recSecs: int)
    requires vol.Valid()
    modifies vol
    ensures vol.Valid() && vol.origin == old(vol.origin)
    ensures vol.effects == old(vol.effects) + StillsPlan(old(vol.tree), out, recipe, date, recSecs)
  {
    ghost var e0 := vol.effects;
    assert e0 + [] == e0;
    if out.stills !in vol.tree {
      return;
    }
    var files := FileNames(vol.tree[out.stills]);
    var newStart := NextStart(files, recipe, date, StillExt);
    ghost var start := newStart;
    var stillNum := 0;
    while stillNum < recSecs
      invariant 0 <= stillNum && (recSecs >= 0 ==> stillNum <= recSecs)
      invariant recSecs < 0 ==> stillNum == 0
      invariant newStart == start + stillNum
      invariant vol.Valid() && vol.origin == old(vol.origin)
      invariant vol.effects == e0 + Pictures(out, RunNames(recipe, date, StillExt, start, stillNum))
    {
      TakeNext(vol, out, recipe, date, newStart, start, stillNum, e0);
      newStart := newStart + 1;
      stillNum := stillNum + 1;
    }
  }

  /** One turn of the loop of `record_stills`: the picture named by the
      running counter. */
  method TakeNext(vol: Volume, out: Outputs, recipe: string, date: string, newStart: nat,
                  ghost start: nat, ghost m: nat, ghost e0: seq<Effect>)
    requires newStart == start + m
    requires vol.Valid() && vol.effects == e0 + Pictures(out, RunNames(recipe, date, StillExt, start, m))
    modifies vol
    ensures vol.Valid() && vol.origin == old(vol.origin)
    ensures vol.effects == e0 + Pictures(out, RunNames(recipe, date, StillExt, start, m + 1))
  {
    var newFileName := PictureName(recipe, date, newStart);
    TakePicture(vol, out, newFileName);
    RunNamesSnoc(recipe, date, StillExt, start, m);
    PicturesSnoc(e0, out, RunNames(recipe, date, StillExt, start, m), newFileName);
  }

  lemma PicturesSnoc(e0: seq<Effect>, out: Outputs, names: seq<string>, name: string)
    ensures e0 + Pictures(out, names) + Picture(out, name) == e0 + Pictures(out, names + [name])
  {
    assert (names + [name])[..|names|] == names;
  }

  /** One turn of the loop of `record_stills`. */
  method TakePicture(vol: Volume, out: Outputs, newFileName: string)
    requires vol.Valid()
    modifies vol
    ensures vol.Valid() && vol.origin == old(vol.origin)
    ensures vol.effects == old(vol.effects) + Picture(out, newFileName)
  {
    vol.Perform(OpenCamera);
    vol.Perform(StartCamera);
    vol.Perform(CaptureFile(out.stills, newFileName));
    vol.Perform(CloseCamera);
    vol.Perform(Sleep);
  }

  method CompressVideo(vol: Volume, out: Outputs)
    requires vol.Valid()
    modifies vol
    ensures vol.Valid() && vol.origin == old(vol.origin)
    ensures vol.effects == old(vol.effects) + CompressPlan(old(vol.tree), out)
  {
    ghost var e0 := vol.effects;
    assert e0 + [] == e0;
    if out.compressed !in vol.tree || out.videos !in vol.tree {
      return;
    }
    var alreadyCompressed := FileNames(vol.tree[out.compressed]);
    var listing := Names(vol.tree[out.videos]);
    var k := 0;
    while k < |listing|
      invariant 0 <= k <= |listing|
      invariant vol.Valid() && vol.origin == old(vol.origin)
      invariant vol.effects == e0 + Transcodes(out.videos, out.compressed, Selected(listing[..k], alreadyCompressed))
    {
      CompressOne(vol, out, listing, k, alreadyCompressed, e0);
      k := k + 1;
    }
    assert listing[..k] == listing;
  }

  /** One pass of `compress_video`'s loop: transcode `listing[k]` when it
      is an `.h264` whose `.mp4` is not yet there. */
  method CompressOne(vol: Volume, out: Outputs, listing: seq<string>, k: nat, done: seq<string>, ghost e0: seq<Effect>)
    requires k < |listing|
    requires vol.Valid() && vol.effects == e0 + Transcodes(out.videos, out.compressed, Selected(listing[..k], done))
    modifies vol
    ensures vol.Valid() && vol.origin == old(vol.origin)
    ensures vol.effects == e0 + Transcodes(out.videos, out.compressed, Selected(listing[..k + 1], done))
  {
    var filename := listing[k];
    TranscodesStep(e0, out.videos, out.compressed, listing, k, done);
    if EndsWith(filename, Raw) && Mp4Name(filename) !in done {
      vol.Perform(Transcode(out.videos, filename, out.compressed, Mp4Name(filename)));
    }
  }

  /** `record_video` followed by `compress_video`, which an exception in
      `record_video` skips. */
  method RecordAndCompress(vol: Volume, out: Outputs, recipe: string, date: string, recSecs: int)
    requires vol.Valid()
    modifies vol
    ensures vol.Valid() && vol.origin == old(vol.origin)
    ensures vol.effects == old(vol.effects) + VideoRunPlan(old(vol.tree), out, recipe, date, recSecs)
  {
    ghost var t0, e0 := vol.tree, vol.effects;
    var ok := RecordVideo(vol, out, recipe, date, recSecs);
    if !ok {
      assert vol.effects + [] == vol.effects;
      return;
    }
    ghost var t1 := vol.tree;
    VideoRunSplit(vol.origin, t0, e0, out, recipe, date, recSecs, t1);
    CompressVideo(vol, out);
  }

  /** The tree the transcode sweep sees is the one the segments left. */
  lemma VideoRunSplit(origin: Tree, t0: Tree, e0: seq<Effect>, out: Outputs, recipe: string, date: string, recSecs: int, t1: Tree)
    requires t0 == Apply(origin, e0) && !RecordRaises(t0, out, recSecs)
    requires t1 == Apply(origin, e0 + VideoPlan(t0, out, recipe, date, recSecs))
    ensures e0 + VideoPlan(t0, out, recipe, date, recSecs) + CompressPlan(t1, out)
         == e0 + VideoRunPlan(t0, out, recipe, date, recSecs)
  {
    ApplyConcat(origin, e0, VideoPlan(t0, out, recipe, date, recSecs));
  }

  /** The script: the output directories are made, then `__main__` runs. */
  method CaptureRun(vol: Volume, out: Outputs, date: string, a: Args)
    requires vol.Valid()
    modifies vol
    ensures vol.Valid() && vol.origin == old(vol.origin)
    ensures vol.effects == old(vol.effects) + RunPlan(old(vol.tree), out, date, a)
    ensures vol.tree == Apply(old(vol.tree), RunPlan(old(vol.tree), out, date, a))
  {
    ghost var t0, e0 := vol.tree, vol.effects;
    MakeOutputDirs(vol, out);
    RunMain(vol, out, date, a);
    ApplyConcat(vol.origin, e0, RunPlan(t0, out, date, a));
  }

  /** The `os.makedirs` calls at the start of the script. */
  method MakeOutputDirs(vol: Volume, out: Outputs)
    requires vol.Valid()
    modifies vol
    ensures vol.Valid() && vol.origin == old(vol.origin)
    ensures vol.effects == old(vol.effects) + Startup(out)
    ensures vol.tree == Apply(old(vol.tree), Startup(out))
  {
    ghost var t0 := vol.tree;
    vol.Perform(MakeDirs(out.videos));
    vol.Perform(MakeDirs(out.compressed));
    vol.Perform(MakeDirs(out.stills));
    StartupApplies(t0, out);
  }

  /** The three `os.makedirs` calls, one effect after the other. */
  lemma StartupApplies(t0: Tree, out: Outputs)
    ensures Step(Step(Step(t0, MakeDirs(out.videos)), MakeDirs(out.compressed)), MakeDirs(out.stills)) == Apply(t0, Startup(out))
  {
    var st := Startup(out);
    assert st[..2][..1][..0] == [];
    assert st[..2][..1] == [MakeDirs(out.videos)];
    assert st[..2] == [MakeDirs(out.videos), MakeDirs(out.compressed)];
    assert Apply(t0, st[..2][..1]) == Step(t0, MakeDirs(out.videos));
    assert Apply(t0, st[..2]) == Step(Step(t0, MakeDirs(out.videos)), MakeDirs(out.compressed));
  }

  /** The `__main__` block: stills mode, or video mode followed by the
      transcode sweep. */
  method RunMain(vol: Volume, out: Outputs, date: string, a: Args)
    requires vol.Valid()
    modifies vol
    ensures vol.Valid() && vol.origin == old(vol.origin)
    ensures vol.effects == old(vol.effects) + MainPlan(old(vol.tree), out, date, a)
  {
    ghost var t0, e0 := vol.tree, vol.effects;
    var s := Defaults(a);
    if s.format == 's' {
      RecordStills(vol, out, s.recipe, date, s.recSecs);
    } else if s.format == 'v' {
      RecordAndCompress(vol, out, s.recipe, date, s.recSecs);
    } else {
      assert e0 + [] == e0;
    }
  }
}
