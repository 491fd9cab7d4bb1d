/** video_to_still.py: the post-processing pass. It transcodes the raw
    recordings of one directory, finds every `compressed_videos` directory
    holding `.mp4` files, mirrors each as a `stills` directory, and cuts one
    still per second of video into it.

    Disk changes are effects on a `Volume`, as for the recorder; the
    directory walk works on a snapshot of the directory tree; OpenCV's view
    of a video is its frame rate and frame count. */
module VideoToStill {
  import opened Strings
  import opened Storage
  import opened Sweep

  const CompressedDir := "compressed_videos"
  const StillsDir := "stills"
  /** The marker file that makes a new stills directory non-empty. */
  const Marker := ".DS_Store"
  const Jpg := ".jpg"

  /* ------------------------------------------------ compress_h264_videos */

  /** `compress_h264_videos(input_dir)` on the tree `t`, writing into
      `output`: the output directory is created first, then the snapshot of
      done names is every `.mp4` name listed there, files and directories
      alike. A missing input directory makes `os.listdir` raise, which the
      handler swallows. */
  function CompressH264Plan(t: Tree, input: string, output: string): seq<Effect>
  {
    [MakeDirs(output)] + H264Sweep(Step(t, MakeDirs(output)), input, output)
  }

  /** The loop of `compress_h264_videos`, on the tree after the output
      directory exists. */
  function H264Sweep(t: Tree, input: string, output: string): seq<Effect>
  {
    if input !in t || output !in t then []
    else Transcodes(input, output, Selected(Names(t[input]), Mp4s(Names(t[output]))))
  }

  method CompressH264Videos(vol: Volume, input: string, output: string)
    requires vol.Valid()
    modifies vol
    ensures vol.Valid() && vol.origin == old(vol.origin)
    ensures vol.effects == old(vol.effects) + CompressH264Plan(old(vol.tree), input, output)
  {
    ghost var e0 := vol.effects + [MakeDirs(output)];
    H264PlanSplit(vol.effects, vol.tree, input, output);
    vol.Perform(MakeDirs(output));
    if input !in vol.tree || output !in vol.tree {
      assert e0 + [] == e0;
      return;
    }
    var alreadyCompressed := Mp4s(Names(vol.tree[output]));
    var listing := Names(vol.tree[input]);
    var k := 0;
    assert e0 + Transcodes(input, output, Selected(listing[..0], alreadyCompressed)) == e0;
    while k < |listing|
      invariant 0 <= k <= |listing|
      invariant vol.Valid() && vol.origin == old(vol.origin)
      invariant vol.effects == e0 + Transcodes(input, output, Selected(listing[..k], alreadyCompressed))
    {
      TranscodeNext(vol, input, output, listing, k, alreadyCompressed, e0);
      k := k + 1;
    }
    assert listing[..k] == listing;
  }

  lemma H264PlanSplit(e: seq<Effect>, t: Tree, input: string, output: string)
    ensures e + CompressH264Plan(t, input, output) == e + [MakeDirs(output)] + H264Sweep(Step(t, MakeDirs(output)), input, output)
  {
  }

  /** One turn of the loop of `compress_h264_videos`. */
  method TranscodeNext(vol: Volume, input: string, output: string, listing: seq<string>, k: nat, done: seq<string>,
                       ghost e0: seq<Effect>)
    requires k < |listing|
    requires vol.Valid() && vol.effects == e0 + Transcodes(input, output, Selected(listing[..k], done))
    modifies vol
    ensures vol.Valid() && vol.origin == old(vol.origin)
    ensures vol.effects == e0 + Transcodes(input, output, Selected(listing[..k + 1], done))
  {
    var filename := listing[k];
    TranscodesStep(e0, input, output, listing, k, done);
    if EndsWith(filename, Raw) {
      var outputFilename := Mp4Name(filename);
      if outputFilename !in done {
        vol.Perform(Transcode(input, filename, output, outputFilename));
      }
    }
  }

  /* -------------------------------------------------------- fast_scandir */

  /** A snapshot of one directory: its path, every name `os.listdir`
      gives for it, and its sub-directories in `os.scandir` order. */
  datatype Dir = Dir(path: string, names: seq<string>, children: seq<Dir>)

  /** The filter of `fast_scandir`: the path mentions
      `compressed_videos` and the directory lists some `.mp4` name. */
  predicate Keep(d: Dir)
  {
    Contains(d.path, CompressedDir) && |Mp4s(d.names)| > 0
  }

  /** The directories of `ds` that pass the filter, in order. */
  function Kept(ds: seq<Dir>): (r: seq<Dir>)
    ensures forall x :: x in r <==> x in ds && Keep(x)
    decreases |ds|
  {
    if ds == [] then []
    else
      var r0 := Kept(ds[..|ds| - 1]);
      assert forall x :: x in ds <==> x in ds[..|ds| - 1] || x == ds[|ds| - 1] by {
        assert ds == ds[..|ds| - 1] + [ds[|ds| - 1]];
      }
      r0 + (if Keep(ds[|ds| - 1]) then [ds[|ds| - 1]] else [])
  }

  /** What `fast_scandir(d)` returns: the kept ones among the children of
      `d` followed by the results of the recursive calls on each child. */
  function Found(d: Dir): seq<Dir>
    decreases d, 1
  {
    Kept(d.children + FoundAll(d.children))
  }

  /** The results of the recursive calls, concatenated in order. */
  function FoundAll(cs: seq<Dir>): seq<Dir>
    decreases cs, 0
  {
    if cs == [] then [] else FoundAll(cs[..|cs| - 1]) + Found(cs[|cs| - 1])
  }

  /** `fast_scandir`: the list of children is extended by the result of
      the recursive call on each child, then filtered. */
  method FastScandir(d: Dir) returns (vidDir: seq<Dir>)
    ensures vidDir == Found(d)
    decreases d
  {
    var subfolders := d.children;
    var k := 0;
    while k < |d.children|
      invariant 0 <= k <= |d.children|
      invariant subfolders == d.children + FoundAll(d.children[..k])
    {
      var more := FastScandir(d.children[k]);
      FoundAllSnoc(d.children, k);
      subfolders := subfolders + more;
      k := k + 1;
    }
    assert d.children[..k] == d.children;
    vidDir := KeepAll(subfolders);
  }

  /** The filtering comprehension at the end of `fast_scandir`. */
  method KeepAll(ds: seq<Dir>) returns (r: seq<Dir>)
    ensures r == Kept(ds)
  {
    r := [];
    var i := 0;
    while i < |ds|
      invariant 0 <= i <= |ds|
      invariant r == Kept(ds[..i])
    {
      KeptSnoc(ds, i);
      if Keep(ds[i]) {
        r := r + [ds[i]];
      }
      i := i + 1;
    }
    assert ds[..i] == ds;
  }

  lemma FoundAllSnoc(cs: seq<Dir>, k: nat)
    requires k < |cs|
    ensures FoundAll(cs[..k + 1]) == FoundAll(cs[..k]) + Found(cs[k])
  {
    assert cs[..k + 1][..k] == cs[..k];
  }

  lemma KeptSnoc(ds: seq<Dir>, i: nat)
    requires i < |ds|
    ensures Kept(ds[..i + 1]) == Kept(ds[..i]) + (if Keep(ds[i]) then [ds[i]] else [])
  {
    assert ds[..i + 1][..i] == ds[..i];
  }

  /** The paths of some directories. */
  function Paths(ds: seq<Dir>): (ps: seq<string>)
    ensures |ps| == |ds|
  {
    seq(|ds|, i requires 0 <= i < |ds| => ds[i].path)
  }

  /* ----------------------------------------------------------- stills_dir */

  /** `dir.replace("compressed_videos", "stills")` */
  function StillsPath(p: string): string
  {
    ReplaceAll(p, CompressedDir, StillsDir)
  }

  /** The stills path of each input path, in input order. */
  function StillsPaths(ps: seq<string>): (r: seq<string>)
    ensures |r| == |ps|
  {
    seq(|ps|, i requires 0 <= i < |ps| => StillsPath(ps[i]))
  }

  /** `stills_dir` on the tree `t`: a stills path that does not exist yet,
      neither on disk nor as one created earlier in the same call, is
      created and gets an empty marker file. */
  function MirrorPlan(t: Tree, ps: seq<string>): seq<Effect>
    decreases |ps|
  {
    if ps == [] then []
    else
      var init := ps[..|ps| - 1];
      var s := StillsPath(ps[|ps| - 1]);
      MirrorPlan(t, init) + (if s in t || s in StillsPaths(init) then [] else [MakeDirs(s), Touch(s, Marker)])
  }

  /** `e` is the listing entry of a directory that the same `stills_dir`
      call created directly inside `d`: one of the stills paths `ss` that
      was missing from `t`. */
  ghost predicate NewChild(t: Tree, ss: seq<string>, d: string, e: Entry)
  {
    e.Folder? && d + "/" + e.name in ss && d + "/" + e.name !in t && Split(d + "/" + e.name) == Some((d, e.name))
  }

  /** The tree `m` that `stills_dir` leaves behind, given the tree `t` it
      started from and the stills paths `ss`: the directories are those of
      `t` and `ss`; an old directory keeps its listing and gains only entries
      for stills directories created inside it; a new one lists the marker
      first, then only entries for stills directories created inside it. */
  ghost predicate MirrorShape(t: Tree, ss: seq<string>, m: Tree)
  {
    ChildrenListed(t, ss, m) && MirrorListings(t, ss, m)
  }

  /** The directories of `m` and what their listings hold. */
  ghost predicate MirrorListings(t: Tree, ss: seq<string>, m: Tree)
  {
    m.Keys == t.Keys + (set s | s in ss) &&
    (forall d :: d in t ==> t[d] <= m[d] && forall k :: |t[d]| <= k < |m[d]| ==> NewChild(t, ss, d, m[d][k])) &&
    (forall s :: s in ss && s !in t ==>
      |m[s]| > 0 && m[s][0] == File(Marker) && forall k :: 1 <= k < |m[s]| ==> NewChild(t, ss, s, m[s][k]))
  }

  /** Every stills path that was missing from `t` and whose parent is a
      directory of `t` is listed in that parent in `m`. */
  ghost predicate ChildrenListed(t: Tree, ss: seq<string>, m: Tree)
  {
    forall s :: s in ss && s !in t && Split(s).Some? && Split(s).value.0 in t ==>
      Split(s).value.0 in m && Split(s).value.1 in Names(m[Split(s).value.0])
  }

  /** `stills_dir`: one stills path per input path, in order, each created
      when missing. */
  method MakeStillsDirs(vol: Volume, vidDirs: seq<string>) returns (stillsDirs: seq<string>)
    requires vol.Valid()
    modifies vol
    ensures vol.Valid() && vol.origin == old(vol.origin)
    ensures stillsDirs == StillsPaths(vidDirs)
    ensures vol.effects == old(vol.effects) + MirrorPlan(old(vol.tree), vidDirs)
  {
    ghost var t0, e0 := vol.tree, vol.effects;
    assert e0 + [] == e0;
    stillsDirs := [];
    var k := 0;
    while k < |vidDirs|
      invariant 0 <= k <= |vidDirs|
      invariant vol.Valid() && vol.origin == old(vol.origin)
      invariant stillsDirs == StillsPaths(vidDirs[..k])
      invariant vol.effects == e0 + MirrorPlan(t0, vidDirs[..k])
    {
      var stillDir := MirrorNext(vol, vidDirs, k, t0, e0);
      stillsDirs := stillsDirs + [stillDir];
      k := k + 1;
    }
    assert vidDirs[..k] == vidDirs;
  }

  /** One turn of the loop of `stills_dir`. */
  method MirrorNext(vol: Volume, ps: seq<string>, k: nat, ghost t0: Tree, ghost e0: seq<Effect>) returns (stillDir: string)
    requires k < |ps| && t0 == Apply(vol.origin, e0)
    requires vol.Valid() && vol.effects == e0 + MirrorPlan(t0, ps[..k])
    modifies vol
    ensures vol.Valid() && vol.origin == old(vol.origin)
    ensures StillsPaths(ps[..k + 1]) == StillsPaths(ps[..k]) + [stillDir]
    ensures vol.effects == e0 + MirrorPlan(t0, ps[..k + 1])
  {
    stillDir := StillsPath(ps[k]);
    MirrorStep(vol.origin, e0, t0, ps, k);
    if stillDir !in vol.tree {
      vol.Perform(MakeDirs(stillDir));
      vol.Perform(Touch(stillDir, Marker));
    }
  }

  /** One turn of the loop of `stills_dir`: the stills path exists on the
      current tree exactly when it existed before the call or was created
      by an earlier turn. */
  lemma MirrorStep(origin: Tree, e0: seq<Effect>, t0: Tree, ps: seq<string>, k: nat)
    requires k < |ps| && t0 == Apply(origin, e0)
    ensures var s := StillsPath(ps[k]);
      var p := MirrorPlan(t0, ps[..k]);
      (s in Apply(origin, e0 + p) <==> s in t0 || s in StillsPaths(ps[..k])) &&
      StillsPaths(ps[..k + 1]) == StillsPaths(ps[..k]) + [s] &&
      e0 + MirrorPlan(t0, ps[..k + 1])
        == if s in t0 || s in StillsPaths(ps[..k]) then e0 + p else e0 + p + [MakeDirs(s)] + [Touch(s, Marker)]
  {
    assert ps[..k + 1][..k] == ps[..k];
    ApplyConcat(origin, e0, MirrorPlan(t0, ps[..k]));
    MirrorKeys(t0, ps[..k]);
  }

  /** The directories after `stills_dir`: those before and the stills
      paths. */
  lemma MirrorKeys(t: Tree, ps: seq<string>)
    ensures Apply(t, MirrorPlan(t, ps)).Keys == t.Keys + (set s | s in StillsPaths(ps))
  {
    MirrorApplies(t, ps);
  }

  /** What `stills_dir` leaves on disk: the directories that were there,
      grown only by the sub-directories it created, and each missing stills
      path created with the marker in it. */
  lemma {:induction false} MirrorApplies(t: Tree, ps: seq<string>)
    ensures MirrorShape(t, StillsPaths(ps), Apply(t, MirrorPlan(t, ps)))
    decreases |ps|
  {
    if ps == [] {
      assert (set s | s in StillsPaths(ps)) == {};
    } else {
      var init := ps[..|ps| - 1];
      var s := StillsPath(ps[|ps| - 1]);
      var ss := StillsPaths(init);
      var m := Apply(t, MirrorPlan(t, init));
      assert StillsPaths(ps) == ss + [s];
      MirrorApplies(t, init);
      if s in t || s in ss {
        assert MirrorPlan(t, ps) == MirrorPlan(t, init) + [];
        assert MirrorPlan(t, init) + [] == MirrorPlan(t, init);
        MirrorShapeKnown(t, ss, s, m);
      } else {
        assert MirrorPlan(t, ps) == MirrorPlan(t, init) + [MakeDirs(s), Touch(s, Marker)];
        ApplyConcat(t, MirrorPlan(t, init), [MakeDirs(s), Touch(s, Marker)]);
        CreateMarked(m, s);
        MakeDirAdds(m, s);
        MirrorShapeNew(t, ss, s, m, MakeDir(m, s));
      }
    }
  }

  /** A stills path that is already there changes nothing. */
  lemma MirrorShapeKnown(t: Tree, ss: seq<string>, s: string, m: Tree)
    requires MirrorShape(t, ss, m) && (s in t || s in ss)
    ensures MirrorShape(t, ss + [s], m)
  {
    assert (set x | x in ss + [s]) == (set x | x in ss) + {s};
    forall d, e | NewChild(t, ss, d, e)
      ensures NewChild(t, ss + [s], d, e)
    {
    }
  }

  /** `m1` is `m` with the directory `s` added and, at most, an entry for
      it appended to its parent's listing. */
  ghost predicate AddsDir(m: Tree, s: string, m1: Tree)
  {
    m1.Keys == m.Keys + {s} &&
    (s !in m && Split(s).Some? && Split(s).value.0 in m ==> Split(s).value.1 in Names(m1[Split(s).value.0])) &&
    forall d :: d in m ==> m1[d] == m[d] || (Split(s).Some? && d == Split(s).value.0 && m1[d] == m[d] + [Folder(Split(s).value.1)])
  }

  lemma MakeDirAdds(m: Tree, s: string)
    ensures AddsDir(m, s, MakeDir(m, s))
  {
  }

  /** Creating a missing stills path keeps the shape. */
  lemma MirrorShapeNew(t: Tree, ss: seq<string>, s: string, m: Tree, m1: Tree)
    requires MirrorShape(t, ss, m) && s !in t && s !in ss
    requires AddsDir(m, s, m1)
    ensures MirrorShape(t, ss + [s], m1[s := [File(Marker)]])
  {
    ListingsNew(t, ss, s, m, m1);
    ListedNew(t, ss, s, m, m1);
  }

  lemma ListingsNew(t: Tree, ss: seq<string>, s: string, m: Tree, m1: Tree)
    requires MirrorListings(t, ss, m) && s !in t && s !in ss
    requires AddsDir(m, s, m1)
    ensures MirrorListings(t, ss + [s], m1[s := [File(Marker)]])
  {
    var m' := m1[s := [File(Marker)]];
    var ss' := ss + [s];
    assert (set x | x in ss') == (set x | x in ss) + {s};
    forall d | d in t
      ensures t[d] <= m'[d] && forall k :: |t[d]| <= k < |m'[d]| ==> NewChild(t, ss', d, m'[d][k])
    {
      ListingGrows(t, ss, s, m, m1, d);
    }
    forall x | x in ss && x !in t
      ensures |m'[x]| > 0 && m'[x][0] == File(Marker) && forall k :: 1 <= k < |m'[x]| ==> NewChild(t, ss', x, m'[x][k])
    {
      ListingGrows(t, ss, s, m, m1, x);
    }
  }

  /** The new stills path is listed in its parent, and what was listed
      stays listed. */
  lemma ListedNew(t: Tree, ss: seq<string>, s: string, m: Tree, m1: Tree)
    requires ChildrenListed(t, ss, m) && m.Keys == t.Keys + (set x | x in ss) && s !in t && s !in ss
    requires AddsDir(m, s, m1)
    ensures ChildrenListed(t, ss + [s], m1[s := [File(Marker)]])
  {
    var m' := m1[s := [File(Marker)]];
    forall x | x in ss + [s] && x !in t && Split(x).Some? && Split(x).value.0 in t
      ensures Split(x).value.1 in Names(m'[Split(x).value.0])
    {
      var q, b := Split(x).value.0, Split(x).value.1;
      if x != s {
        assert b in Names(m[q]);
        var k :| 0 <= k < |m[q]| && m[q][k].name == b;
        assert Names(m1[q])[k] == b;
      }
    }
  }

  /** An old listing of `m` other than the new directory's grows only by a
      new child. */
  lemma ListingGrows(t: Tree, ss: seq<string>, s: string, m: Tree, m1: Tree, d: string)
    requires m.Keys == t.Keys + (set x | x in ss) && s !in t && s !in ss
    requires AddsDir(m, s, m1) && d in m
    ensures d != s && m[d] <= m1[d]
    ensures forall k :: |m[d]| <= k < |m1[d]| ==> NewChild(t, ss + [s], d, m1[d][k])
    ensures forall e :: NewChild(t, ss, d, e) ==> NewChild(t, ss + [s], d, e)
  {
    if m1[d] != m[d] {
      var b := Split(s).value.1;
      assert m1[d] == m[d] + [Folder(b)];
      assert NewChild(t, ss + [s], d, Folder(b));
    }
  }

  /** Creating a directory and touching the marker in it. */
  lemma CreateMarked(m: Tree, s: string)
    requires s !in m
    ensures Apply(m, [MakeDirs(s), Touch(s, Marker)]) == MakeDir(m, s)[s := [File(Marker)]]
  {
    var m1 := MakeDir(m, s);
    assert [MakeDirs(s), Touch(s, Marker)][..1] == [MakeDirs(s)];
    assert [MakeDirs(s)][..0] == [];
    assert Apply(m, [MakeDirs(s)]) == m1;
    assert Names(m1[s]) == [];
    var l: seq<Entry> := [];
    assert l + [File(Marker)] == [File(Marker)];
    assert Create(m1, s, Marker) == m1[s := [File(Marker)]];
  }

  /* ------------------------------------------------------ video_to_stills */

  /** OpenCV's view of one video: `int(cam.get(CAP_PROP_FPS))` and the
      number of frames `cam.read()` returns before it fails. */
  datatype Clip = Clip(fps: nat, frames: nat)

  /** `f.endswith(".png") or f.endswith(".jpeg") or f.endswith(".jpg")` */
  predicate IsImage(f: string)
  {
    EndsWith(f, ".png") || EndsWith(f, ".jpeg") || EndsWith(f, Jpg)
  }

  /** The image names of a listing, in order. */
  function Images(ns: seq<string>): (r: seq<string>)
    ensures forall f :: f in r <==> f in ns && IsImage(f)
    decreases |ns|
  {
    if ns == [] then []
    else
      var f := ns[|ns| - 1];
      Images(ns[..|ns| - 1]) + (if IsImage(f) then [f] else [])
  }

  /** The frames the loop writes out of the first `n`: those whose number
      is a multiple of the frame rate. */
  function Samples(fps: nat, n: nat): seq<nat>
    requires fps > 0
    decreases n
  {
    if n == 0 then [] else Samples(fps, n - 1) + (if (n - 1) % fps == 0 then [n - 1] else [])
  }

  /** `video_name.replace(".mp4", "_" + str(k) + ".jpg")`: the still of
      second `k` of a video. */
  function FrameStillName(video: string, k: nat): string
  {
    ReplaceAll(video, Compressed, "_" + NatToString(k) + Jpg)
  }

  /** One `cv2.imwrite` per sampled frame, named after its second. */
  function Writes(stillDir: string, video: string, fps: nat, frames: seq<nat>): seq<Effect>
    requires fps > 0
  {
    seq(|frames|, i requires 0 <= i < |frames| => ImWrite(stillDir, FrameStillName(video, frames[i] / fps), frames[i]))
  }

  /** A frame rate of 0 makes the `%` of the first frame raise: the
      exception ends the work on the whole directory. */
  predicate Aborts(c: Clip)
  {
    c.fps == 0 && c.frames > 0
  }

  /** The frame loop of one video that does not abort. */
  function ClipPlan(stillDir: string, video: string, c: Clip): seq<Effect>
  {
    if c.fps == 0 then [] else Writes(stillDir, video, c.fps, Samples(c.fps, c.frames))
  }

  /** No video of `vs` aborts. */
  predicate Clean(dir: string, vs: seq<string>, media: (string, string) -> Clip)
  {
    forall i :: 0 <= i < |vs| ==> !Aborts(media(dir, vs[i]))
  }

  /** The videos of one directory, in order, up to the first one that
      aborts. */
  function VideosPlan(dir: string, stillDir: string, vs: seq<string>, media: (string, string) -> Clip): seq<Effect>
    decreases |vs|
  {
    if vs == [] then []
    else
      var init, v := vs[..|vs| - 1], vs[|vs| - 1];
      VideosPlan(dir, stillDir, init, media)
      + (if Clean(dir, init, media) && !Aborts(media(dir, v)) then ClipPlan(stillDir, v, media(dir, v)) else [])
  }

  /** The body of the `for dir in vid_dirs` loop on the tree `t`. A
      missing stills directory (listing it raises), an empty one (logged as
      missing) and one that already holds an image are skipped; so is a
      video directory that cannot be listed. */
  function DirPlan(t: Tree, dir: string, media: (string, string) -> Clip): seq<Effect>
  {
    var s := StillsPath(dir);
    if s !in t || t[s] == [] || |Images(Names(t[s]))| > 0 || dir !in t then []
    else VideosPlan(dir, s, Mp4s(Names(t[dir])), media)
  }

  /** `video_to_stills` on the tree `t`: each directory sees the tree the
      ones before it left. */
  function SamplingPlan(t: Tree, dirs: seq<string>, media: (string, string) -> Clip): seq<Effect>
    decreases |dirs|
  {
    if dirs == [] then []
    else
      var p := SamplingPlan(t, dirs[..|dirs| - 1], media);
      p + DirPlan(Apply(t, p), dirs[|dirs| - 1], media)
  }

  /** The frame loop of one video: read until the stream ends, writing
      every frame whose number is a multiple of the frame rate. Returns
      false when the frame rate is 0 and a frame was read. */
  method ProcessClip(vol: Volume, stillDir: string, video: string, c: Clip) returns (ok: bool)
    requires vol.Valid()
    modifies vol
    ensures vol.Valid() && vol.origin == old(vol.origin)
    ensures ok == !Aborts(c)
    ensures vol.effects == old(vol.effects) + (if ok then ClipPlan(stillDir, video, c) else [])
  {
    ghost var e0 := vol.effects;
    assert e0 + [] == e0;
    var fps := c.fps;
    var currentFrame := 0;
    while currentFrame < c.frames
      invariant 0 <= currentFrame <= c.frames
      invariant vol.Valid() && vol.origin == old(vol.origin)
      invariant fps == 0 ==> currentFrame == 0 && vol.effects == e0
      invariant fps > 0 ==> vol.effects == e0 + Writes(stillDir, video, fps, Samples(fps, currentFrame))
    {
      if fps == 0 {
        return false;
      }
      FrameNext(vol, stillDir, video, fps, currentFrame, e0);
      currentFrame := currentFrame + 1;
    }
    return true;
  }

  /** One frame of the loop of `video_to_stills`: it is written when its
      number is a multiple of the frame rate. */
  method FrameNext(vol: Volume, stillDir: string, video: string, fps: nat, currentFrame: nat, ghost e0: seq<Effect>)
    requires fps > 0
    requires vol.Valid() && vol.effects == e0 + Writes(stillDir, video, fps, Samples(fps, currentFrame))
    modifies vol
    ensures vol.Valid() && vol.origin == old(vol.origin)
    ensures vol.effects == e0 + Writes(stillDir, video, fps, Samples(fps, currentFrame + 1))
  {
    if currentFrame % fps == 0 {
      vol.Perform(ImWrite(stillDir, FrameStillName(video, currentFrame / fps), currentFrame));
    }
    WritesStep(e0, stillDir, video, fps, currentFrame);
  }

  lemma WritesStep(pre: seq<Effect>, stillDir: string, video: string, fps: nat, n: nat)
    requires fps > 0
    ensures pre + Writes(stillDir, video, fps, Samples(fps, n + 1))
         == pre + Writes(stillDir, video, fps, Samples(fps, n))
            + (if n % fps == 0 then [ImWrite(stillDir, FrameStillName(video, n / fps), n)] else [])
  {
  }

  /** The body of the `for dir in vid_dirs` loop. */
  method ProcessDir(vol: Volume, dir: string, media: (string, string) -> Clip)
    requires vol.Valid()
    modifies vol
    ensures vol.Valid() && vol.origin == old(vol.origin)
    ensures vol.effects == old(vol.effects) + DirPlan(old(vol.tree), dir, media)
  {
    ghost var t0, e0 := vol.tree, vol.effects;
    assert e0 + [] == e0;
    var stillDir := StillsPath(dir);
    if stillDir !in vol.tree || vol.tree[stillDir] == [] || |Images(Names(vol.tree[stillDir]))| > 0 || dir !in vol.tree {
      assert DirPlan(t0, dir, media) == [];
      return;
    }
    var videoFiles := Mp4s(Names(vol.tree[dir]));
    assert DirPlan(t0, dir, media) == VideosPlan(dir, stillDir, videoFiles, media);
    assert videoFiles[..0] == [];
    var k := 0;
    while k < |videoFiles|
      invariant 0 <= k <= |videoFiles|
      invariant vol.Valid() && vol.origin == old(vol.origin)
      invariant Clean(dir, videoFiles[..k], media)
      invariant vol.effects == e0 + VideosPlan(dir, stillDir, videoFiles[..k], media)
    {
      var videoName := videoFiles[k];
      assert videoFiles[..k + 1][..k] == videoFiles[..k];
      var ok := ProcessClip(vol, stillDir, videoName, media(dir, videoName));
      if !ok {
        VideosStop(dir, stillDir, videoFiles, media, k);
        return;
      }
      VideosStep(e0, dir, stillDir, videoFiles, media, k);
      k := k + 1;
    }
    assert videoFiles[..k] == videoFiles;
  }

  lemma VideosStep(pre: seq<Effect>, dir: string, stillDir: string, vs: seq<string>, media: (string, string) -> Clip, k: nat)
    requires k < |vs| && Clean(dir, vs[..k], media) && !Aborts(media(dir, vs[k]))
    ensures Clean(dir, vs[..k + 1], media)
    ensures pre + VideosPlan(dir, stillDir, vs[..k], media) + ClipPlan(stillDir, vs[k], media(dir, vs[k]))
         == pre + VideosPlan(dir, stillDir, vs[..k + 1], media)
  {
    assert vs[..k + 1][..k] == vs[..k];
  }

  /** Once a video aborts, the rest of the directory adds nothing. */
  lemma {:induction false} VideosStop(dir: string, stillDir: string, vs: seq<string>, media: (string, string) -> Clip, k: nat)
    requires k < |vs| && Aborts(media(dir, vs[k]))
    ensures VideosPlan(dir, stillDir, vs, media) == VideosPlan(dir, stillDir, vs[..k], media)
    decreases |vs|
  {
    var init := vs[..|vs| - 1];
    if k == |vs| - 1 {
      assert init == vs[..k];
    } else {
      assert init[..k] == vs[..k];
      VideosStop(dir, stillDir, init, media, k);
      assert !Clean(dir, init, media) by {
        assert init[k] == vs[k];
      }
    }
  }

  lemma SamplingStep(pre: seq<Effect>, t: Tree, dirs: seq<string>, media: (string, string) -> Clip, k: nat)
    requires k < |dirs|
    ensures var p := SamplingPlan(t, dirs[..k], media);
      pre + p + DirPlan(Apply(t, p), dirs[k], media) == pre + SamplingPlan(t, dirs[..k + 1], media)
  {
    assert dirs[..k + 1][..k] == dirs[..k];
  }

  /** `video_to_stills`. */
  method VideoToStills(vol: Volume, vidDirs: seq<string>, media: (string, string) -> Clip)
    requires vol.Valid()
    modifies vol
    ensures vol.Valid() && vol.origin == old(vol.origin)
    ensures vol.effects == old(vol.effects) + SamplingPlan(old(vol.tree), vidDirs, media)
  {
    ghost var t0, e0 := vol.tree, vol.effects;
    assert e0 + [] == e0;
    var k := 0;
    while k < |vidDirs|
      invariant 0 <= k <= |vidDirs|
      invariant vol.Valid() && vol.origin == old(vol.origin)
      invariant vol.effects == e0 + SamplingPlan(t0, vidDirs[..k], media)
    {
      ghost var p := SamplingPlan(t0, vidDirs[..k], media);
      ApplyConcat(vol.origin, e0, p);
      ProcessDir(vol, vidDirs[k], media);
      SamplingStep(e0, t0, vidDirs, media, k);
      k := k + 1;
    }
    assert vidDirs[..k] == vidDirs;
  }
}
