# Cooking-assistant data capture and frame extraction, in Dafny

This project models the file-naming, file-selection and frame-selection rules of the two
scripts of the cooking-assistant data pipeline, and proves what those rules promise.

- `data_capture.py` is the recorder on the Raspberry Pi camera. It reads the defaults of
  the command line. It picks the first sequence number of a run from a snapshot of the
  output directory. In video mode it records one `.h264` segment per whole minute, each
  lasting `rec_secs` seconds while it saves one still a second. In stills mode it takes
  `rec_secs` single `.jpg` pictures. In video mode it
  finally transcodes every raw segment that has no `.mp4` yet.
- `video_to_still.py` is the post-processing pass. It transcodes the `.h264` files of one
  directory. It walks a directory tree for `compressed_videos` directories that hold
  `.mp4` files. It creates each missing `stills` counterpart with a `.DS_Store` marker
  in it; a stills directory that already exists is left as it is. It then cuts one `.jpg`
  per second of video into every stills directory that exists, is non-empty and holds no
  image.

How the model is built:

- The filesystem is a `Tree`: a map from directory path to its listing.
- Everything the scripts do to the outside world is an `Effect`: a camera call, an
  ffmpeg run, a `cv2.imwrite`, `os.makedirs`, or the marker file.
- A `Volume` object holds the tree and the log of effects performed so far.
- Each source loop that changes the disk is a method that takes the `Volume` and changes
  it only through `Perform`. It is proved to perform exactly the effects of a plan
  function of the tree it started from, for example
  `effects == old(effects) + VideoPlan(old(tree), ...)`. The loops that only compute a
  value (`NextStart`, `FastScandir`, `KeepAll`) are methods proved equal to a function.
- The lemmas state what the plans promise: which names they write, in what order, the
  camera protocol they follow, and what a second run does.

Modules (one per file):

| file | module | contents |
|---|---|---|
| `strings.dfy` | `Strings` | `str.endswith`, substring test, `str.replace`, `str(n)` |
| `storage.dfy` | `Storage` | listings, effects, `Apply`, the `Volume` class |
| `sweep.dfy` | `Sweep` | the `.h264` → `.mp4` selection rule both scripts share |
| `data_capture.dfy` | `DataCapture` | defaults, start index, plans and methods of the recorder |
| `capture_facts.dfy` | `CaptureFacts` | what the recorder's plans write |
| `camera.dfy` | `CameraProtocol` | the order of camera calls |
| `video_to_still.dfy` | `VideoToStill` | plans and methods of the post-processing pass |
| `still_facts.dfy` | `StillFacts` | what the post-processing plans write |

Three behaviours of the code that are easy to misread:

- The start index is built from the name for index 0 only. So it is 0 when that name is
  missing and the length of the listing otherwise. It is not the smallest free index.
  `CaptureFacts.StartMayCollide` shows a listing with a gap where the run starts on a name
  that already exists.
- Each segment saves `rec_secs` stills, not 60 (the inner `while still_sec < rec_secs`).
  So a run of `m` minutes saves `60 * m` stills per segment.
- `compress_video` in the recorder compares against every plain file of the compressed
  directory, with no filter on the extension.

## Model

| member | source | states |
|---|---|---|
| Strings.ReplaceAll | video_to_still.py:106 | a string without the pattern comes back unchanged |
| Strings.NatToString | data_capture.py:137 | `str(n)` is a non-empty string of decimal digits, one digit exactly when `n < 10` |
| Strings.NatToStringInjective | data_capture.py:137 | distinct numbers print differently |
| Strings.ReplaceSkipsPrefix | data_capture.py:154 | `replace` copies unchanged a prefix that lacks the pattern's first character |
| Strings.ReplaceWhole | data_capture.py:154 | the pattern on its own becomes the replacement |
| Strings.ReplaceKeepsSuffix | video_to_still.py:63 | a string ending in `.h264` (a pattern that cannot overlap itself) ends in the replacement after `replace` |
| Storage.Split | video_to_still.py:113 | a split path is its parent, a '/', and a non-empty last component without '/' |
| Storage.SplitJoin | video_to_still.py:113 | splitting `parent + "/" + name` gives back the parent and the name |
| Storage.MakeDir | video_to_still.py:113 | `os.makedirs(p, exist_ok=True)`: afterwards `p` exists and no other directory is new; a new `p` is empty; when the parent of a new `p` exists, the parent lists `p`'s last component afterwards, appended at the end when it was not listed before; no other listing changes, and an existing `p` changes nothing |
| Storage.StepKeys | data_capture.py:148-154 | only `os.makedirs` adds a directory: a write leaves the set of directories as it was |
| Storage.FileNames | data_capture.py:119 | the isfile listing holds exactly the names of the plain-file entries |
| Storage.Create | video_to_still.py:152 | a write lists the name in its directory and changes no other directory and no set of directories |
| Sweep.Mp4s | video_to_still.py:58 | the snapshot holds exactly the listed names that end in `.mp4` |
| Sweep.SelectedExactly | data_capture.py:105-106 | `Selected`: a name is transcoded exactly when it is listed, ends in `.h264` and its `.mp4` name is not in the snapshot |
| Sweep.SelectedConcat | data_capture.py:105-106 | selection keeps listing order: it distributes over concatenated listings |
| Sweep.SecondSweepSelectsNothing | data_capture.py:104-106 | once the snapshot holds the old names and every output of a sweep, the next sweep selects nothing |
| Sweep.Mp4NameEnds | video_to_still.py:63 | the output name of a `.h264` name ends in `.mp4` |
| Sweep.SelectedAreRaw | video_to_still.py:61-63 | only listed `.h264` names are handed to ffmpeg: a listed `.mp4` is never selected |
| DataCapture.SegmentCount | data_capture.py:136 | `floor(rec_secs / 60)` segments: none below 60 seconds, and `n * 60 <= rec_secs < (n + 1) * 60` |
| DataCapture.StartIndex | data_capture.py:124-129 | the start index never exceeds the size of the listing |
| DataCapture.NextStart | data_capture.py:124-129 | the `while` loop returns 0 when `recipe_date_0.ext` is missing and the listing's length when it is present |
| DataCapture.RecordVideo | data_capture.py:116-160 | performs exactly the video plan: one segment per whole minute, named from the start index on; it raises exactly when the videos directory is missing, or when a segment is due and the stills directory is missing, and then the first segment stops after its recording starts |
| DataCapture.RecordSegment | data_capture.py:137-160 | one segment: open, configure at 25 fps, record at 10000000 bit/s, save and sleep once per second, stop, close; without a stills directory the first save raises right after the recording starts |
| DataCapture.RecordStills | data_capture.py:163-198 | performs exactly the stills plan: `rec_secs` pictures named from the start index on |
| DataCapture.TakePicture | data_capture.py:191-198 | one picture: open, start, capture the file, close, sleep |
| DataCapture.CompressVideo | data_capture.py:102-113 | performs exactly one transcode per selected `.h264` name, in listing order |
| DataCapture.RecordAndCompress | data_capture.py:205-209 | video mode is the segments followed by the sweep on the tree they leave behind; an exception in recording skips the sweep |
| DataCapture.MakeOutputDirs | data_capture.py:58-61 | the start of the script makes the videos, compressed and stills directories, in that order, and leaves the tree those three effects produce |
| DataCapture.StartupMakesDirs | data_capture.py:58-61 | after the start of the script the three output directories exist and no other directory is new; when they are apart, the compressed directory lists what it listed before, or nothing if it is new |
| DataCapture.RunMain | data_capture.py:201-209 | the `__main__` dispatch: stills mode, video mode followed by the sweep, or nothing for any other format |
| DataCapture.CaptureRun | data_capture.py:201-209 | the script makes the output directories, then runs `__main__` on the tree that leaves; it performs the run plan and leaves the tree that plan produces |
| CaptureFacts.SeqNameInjective | data_capture.py:137 | `SeqName`: distinct sequence numbers give distinct names |
| CaptureFacts.ContiguousStart | data_capture.py:124-129 | on a listing of exactly the names 0..n-1, in any order, the run starts at n and no name from n on is taken |
| CaptureFacts.StartMayCollide | data_capture.py:124-129 | with `_0` and `_2` on disk the run starts at 2, a name that is already taken |
| CaptureFacts.StillNameShape | data_capture.py:154 | `StillName`: with no '.' in recipe and date, the still of second s of segment k is `recipe_date_k_s.jpg` |
| CaptureFacts.StillNamesDistinct | data_capture.py:154 | two stills of a run share a name only when they have the same segment and the same second |
| CaptureFacts.StillSavesStills | data_capture.py:151-157 | the stills loop saves the given stills, in order |
| CaptureFacts.StillSavesRecordNothing | data_capture.py:151-157 | the stills loop records no video |
| CaptureFacts.SegmentRecords | data_capture.py:144-148 | one segment records one video, under the segment's name |
| CaptureFacts.SegmentStills | data_capture.py:151-157 | one segment saves the stills of seconds 0..secs-1, in order |
| CaptureFacts.SegmentsRecord | data_capture.py:136-148 | the segment loop records one video per name, in order |
| CaptureFacts.SegmentsStillCount | data_capture.py:136-157 | the segment loop saves `secs` stills per segment |
| CaptureFacts.SegmentsStillAt | data_capture.py:151-157 | still s of segment j is saved in position `j * secs + s` |
| CaptureFacts.SegmentsWrite | data_capture.py:136-157 | the segment loop over any names: one video per name, and still s of segment j at position `j * secs + s` |
| CaptureFacts.PictureTakes | data_capture.py:191-197 | one turn of the stills loop takes one picture under its name |
| CaptureFacts.PicturesTake | data_capture.py:183-198 | the stills loop takes one picture per name, in order |
| CaptureFacts.MinutesGiveSegments | data_capture.py:88 | `Defaults`: `-m` minutes give that many segments of `60 * m` stills each (one minute without `-m`, nothing for a negative `-m`) |
| CaptureFacts.NoFlags | data_capture.py:86-89 | `Defaults`: no flags mean one minute of chicken teriyaki video, not in debug mode |
| CaptureFacts.VideoPlanWrites | data_capture.py:116-157 | `VideoPlan`: with the stills directory there, video mode records the names from the start index on, one per whole minute, and still s of segment j is that segment's name with `_s.jpg` |
| CaptureFacts.StillsPlanTakes | data_capture.py:163-185 | stills mode takes `rec_secs` pictures named from the start index on |
| CaptureFacts.FreshRun | data_capture.py:124-138 | on a listing of exactly the names 0..n-1, a run continues at n and none of its names is taken |
| CaptureFacts.VideoPlanFresh | data_capture.py:119-138 | on such a listing, with the stills directory there, no segment overwrites a file that was there |
| CaptureFacts.StillsPlanFresh | data_capture.py:166-185 | on such a listing no picture overwrites a file that was there |
| CaptureFacts.BeanSoupScenario | data_capture.py:136-157 | two minutes of bean soup into an empty directory record `bean_soup_<date>_0.h264` and `_1.h264` and save 240 stills |
| CaptureFacts.CompressSecondPass | data_capture.py:104-113 | a second `compress_video` on the tree the first one left transcodes nothing |
| CaptureFacts.SegmentsMakeNoDirs | data_capture.py:136-160 | recording creates no directory |
| CaptureFacts.SweepSettles | data_capture.py:205-207 | with the three output directories there and no sub-directory in the compressed one, recording then sweeping leaves nothing for a second sweep |
| CaptureFacts.VideoRunSettles | data_capture.py:201-207 | after a whole video-mode run of the script, with the output directories apart (siblings, as the script builds them) and from any disk whose compressed directory, if there, has no sub-directory, the sweep has nothing left to do |
| CameraProtocol.CamStillSaves | data_capture.py:151-157 | a recording camera accepts any number of saved stills |
| CameraProtocol.CamSegment | data_capture.py:144-160 | one segment takes the camera from closed through open, configured and recording back to closed |
| CameraProtocol.CamSegments | data_capture.py:136-160 | each segment finds the camera closed: it is never opened twice |
| CameraProtocol.CamPicture | data_capture.py:191-198 | one picture takes the camera from closed through open and started back to closed |
| CameraProtocol.CamPictures | data_capture.py:183-198 | the stills loop leaves the camera closed between pictures |
| CameraProtocol.CamTranscodes | data_capture.py:105-113 | the transcode sweep runs with the camera closed |
| CameraProtocol.CamStartup | data_capture.py:58-61 | making the output directories does not touch the camera |
| CameraProtocol.CamMain | data_capture.py:201-209 | with the stills directory there, `__main__` follows the camera protocol and ends with the camera closed |
| CameraProtocol.CamInterrupted | data_capture.py:144-154 | without a stills directory the first save raises: the camera is left open and recording, and no transcode runs |
| CameraProtocol.CamCaptureRun | data_capture.py:201-209 | every run of the script, for any arguments and any starting disk, follows the camera protocol and ends with the camera closed, since the start of the script makes the stills directory |
| VideoToStill.CompressH264Videos | video_to_still.py:46-81 | creates the output directory, then one transcode per selected `.h264` name, in listing order |
| VideoToStill.Kept | video_to_still.py:92-96 | the filter keeps exactly the directories whose path holds `compressed_videos` and that list some `.mp4` |
| VideoToStill.FastScandir | video_to_still.py:84-97 | the walk returns the kept children followed by the results of the recursive calls |
| VideoToStill.KeepAll | video_to_still.py:92-96 | the filtering loop returns exactly the kept directories, in order |
| VideoToStill.StillsPaths | video_to_still.py:105-116 | one stills path per input path |
| StillFacts.StillsPathsEach | video_to_still.py:105-116 | the `i`-th returned path is the `i`-th input with every `compressed_videos` replaced by `stills`, and the input itself when it does not mention `compressed_videos` |
| VideoToStill.MakeStillsDirs | video_to_still.py:102-121 | returns the replaced path of each input, in order, and creates each missing one with its marker |
| VideoToStill.MirrorApplies | video_to_still.py:105-116 | `MirrorPlan`: after `stills_dir` the directories are the old ones and the stills paths; an old listing keeps its entries and gains only entries for stills directories created directly inside it; a new stills directory lists the marker first, then only such entries; a new stills directory whose parent existed is listed in that parent |
| VideoToStill.Images | video_to_still.py:131 | the image filter holds exactly the `.png`, `.jpeg` and `.jpg` names |
| VideoToStill.ProcessClip | video_to_still.py:138-155 | the frame loop writes the sampled frames of a video; it fails exactly when the frame rate is 0 and a frame was read |
| VideoToStill.ProcessDir | video_to_still.py:126-159 | performs exactly the plan of one directory: the skip rule, then its videos up to the first that fails |
| VideoToStill.VideosStop | video_to_still.py:149-159 | a video that fails ends the work on its directory: no later video is sampled |
| VideoToStill.VideoToStills | video_to_still.py:124-161 | performs each directory's plan in order, each on the tree the earlier ones left |
| StillFacts.H264SelectsExactly | video_to_still.py:58-65 | a name is transcoded exactly when it ends in `.h264` and its `.mp4` name is not an `.mp4` already in the output directory |
| StillFacts.H264SweepIdle | video_to_still.py:58-67 | the transcode loop finds nothing to do on the tree it leaves behind |
| StillFacts.H264SecondPass | video_to_still.py:54-67 | a second `compress_h264_videos` only re-creates the output directory |
| StillFacts.FoundExactly | video_to_still.py:88-96 | `Found`: the walk returns exactly the strict descendants of the root that pass the filter, under matching parents or not |
| StillFacts.FoundAllExactly | video_to_still.py:89-90 | the recursive calls return only kept directories from the children down, and every kept one of them that is not itself a child |
| StillFacts.RootNotFound | video_to_still.py:88-90 | the root itself is never returned |
| StillFacts.FoundPaths | video_to_still.py:93 | every returned path contains `compressed_videos` |
| StillFacts.MirrorFacts | video_to_still.py:105-116 | after `stills_dir` every stills path exists and nothing else is new; an old directory is unchanged unless a stills directory was created directly inside it; a new one lists the marker first, and only the marker when no stills directory was created inside it; a new one whose parent existed is listed in that parent |
| StillFacts.MirrorNothingMissing | video_to_still.py:109-110 | when every stills path exists, `stills_dir` does nothing |
| StillFacts.MirrorIdle | video_to_still.py:109-115 | a second `stills_dir` call creates nothing |
| StillFacts.StillsPathOther | video_to_still.py:106 | a path without `compressed_videos` is its own stills path |
| StillFacts.SamplesReference | video_to_still.py:145-153 | `Samples`: the k-th sampled frame is `k * fps`, and there are `ceil(N / fps)` of them |
| StillFacts.ClipStills | video_to_still.py:142-155 | a video of N frames gives `ceil(N / fps)` writes; the k-th writes frame `k * fps` as `_k.jpg` |
| StillFacts.FiveSeconds | video_to_still.py:142-155 | 125 frames at 25 fps give the stills of seconds 0 to 4, from frames 0, 25, 50, 75 and 100 |
| StillFacts.FrameNamesDistinct | video_to_still.py:150 | the stills of one video have distinct names when its name has no other '.' |
| StillFacts.FrameStillIsJpg | video_to_still.py:150 | a still of an `.mp4` video is a `.jpg` |
| StillFacts.SkipRule | video_to_still.py:130-137 | `DirPlan`: a directory is processed exactly when its stills directory exists, is non-empty and holds no image, and the video directory can be listed |
| StillFacts.VideosWriteJpgs | video_to_still.py:137-155 | everything a directory's turn writes is a `.jpg` in its stills directory |
| StillFacts.ClipWritesJpg | video_to_still.py:142-152 | everything the frame loop of one `.mp4` writes is a `.jpg` in the stills directory |
| StillFacts.RerunSkips | video_to_still.py:130-134 | once a directory's turn wrote a still, a second run skips that directory |
| StillFacts.MirrorEnablesSampling | video_to_still.py:113-115 | a stills directory that `stills_dir` just created lists the marker first, so its videos are processed unless a stills directory created inside it has an image name |
| StillFacts.EmptyStillsDirEnabled | video_to_still.py:113 | a stills directory that existed but was empty is non-empty once `stills_dir` creates a stills directory inside it, so its videos are then processed unless a stills directory created inside it has an image name |
| StillFacts.NestedVideosScenario | video_to_still.py:105-137 | with `r/compressed_videos` = [`a.mp4`, `x`], `r/compressed_videos/x` = [`b.mp4`] and an empty `r/stills`, `stills_dir` creates `r/stills/x`, and `video_to_stills` then processes `a.mp4` of `r/compressed_videos` |

## Left out

- Logging, `print` and the debug output: they have no effect on any rule.
- argparse itself: `Args` is the parsed command line, and only the defaulting is modelled.
  The recipe `choices` are not enforced.
- The date, the current directory and the output directories derived from them: they
  are parameters (`date`, `Outputs`, the directory arguments).
- The exception handler around the startup `os.makedirs` of the recorder: `os.makedirs`
  is taken to succeed. Elsewhere a missing directory is modelled as `os.listdir` raising,
  which ends that function.
- The `os.makedirs` of the log directory in both scripts, along with the logger.
- Path joining (`os.path.join`, `+ "/"`, `os.path.dirname`): a file is a (directory,
  name) pair. `compress_h264_videos` takes its output directory as a parameter instead
  of deriving it from the input path.
- `os.makedirs` adds the one path and lists it in its parent's listing when the parent
  exists. Missing ancestors are not created. A path is split at its last '/', with no
  normalisation of `..`, `.` or doubled slashes, and a path ending in '/' is listed in no
  parent. `FileExistsError` for a plain file that has the directory's name is not
  modelled.
- The camera, ffmpeg and OpenCV are effects only. Their failures, exit statuses and the
  frame contents are not modelled, and ffmpeg is taken to produce its output file.
- `time.sleep` is an effect. Timing and the clock are not modelled.
- `int(cam.get(cv2.CAP_PROP_FPS))` is a parameter. A video is its integer frame rate
  and frame count, so the float frame rate and `math.floor` of a float division are not
  modelled; for integer frames and frame rate the division is exact floor division.
- The only exception modelled in the frame loop is the division by a frame rate of 0.
  It ends the work on that directory, as the per-directory handler does. Other
  exceptions are not modelled.
- `fast_scandir` works on a `Dir` snapshot of the directory tree, separate from the
  `Tree` the other functions change. Its `None` result on an exception is not modelled.
  So the `__main__` block of `video_to_still.py`, which chains the walk, `stills_dir`
  and `video_to_stills`, is not composed into one method. The three steps are each
  modelled, and `StillFacts.MirrorEnablesSampling` connects the last two.
- `os.path.exists(still_dir)` in `stills_dir` tests the tree's directories; a plain file
  at that path is not modelled.
- The hardcoded `data_record` path of the `__main__` block of `video_to_still.py`.
- DataCapture.StartIndex: its own contract states only the upper bound. Its exact value
  is what `NextStart` is proved to compute; `CaptureFacts.ContiguousStart` and
  `CaptureFacts.StartMayCollide` state its meaning.
