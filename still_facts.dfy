/** What the frame extractor's plans promise: the transcode sweep that
    leaves nothing for a second run, the directories the walk finds, the
    stills directories it mirrors, the frames it samples and the skip rule
    that makes a second run write nothing. */
module StillFacts {
  import opened Strings
  import opened Storage
  import opened Sweep
  import opened VideoToStill

  /* ------------------------------------------------ compress_h264_videos */

  /** One transcode per selected name, and nothing else. */
  lemma TranscodeOf(src: string, dst: string, sel: seq<string>, f: string)
    ensures Transcode(src, f, dst, Mp4Name(f)) in Transcodes(src, dst, sel) <==> f in sel
  {
    var ts := Transcodes(src, dst, sel);
    if f in sel {
      var i :| 0 <= i < |sel| && sel[i] == f;
      assert ts[i] == Transcode(src, f, dst, Mp4Name(f));
    }
  }

  /** `compress_h264_videos` transcodes a listed name exactly when it ends
      in `.h264` and its `.mp4` name is not among the `.mp4` names already
      in the output directory. */
  lemma H264SelectsExactly(t: Tree, input: string, output: string, f: string)
    requires input in t
    ensures var t1 := Step(t, MakeDirs(output));
      Transcode(input, f, output, Mp4Name(f)) in CompressH264Plan(t, input, output)
      <==> f in Names(t1[input]) && EndsWith(f, Raw) && !(Mp4Name(f) in Names(t1[output]) && EndsWith(Mp4Name(f), Compressed))
  {
    var t1 := Step(t, MakeDirs(output));
    var done := Mp4s(Names(t1[output]));
    var sel := Selected(Names(t1[input]), done);
    assert CompressH264Plan(t, input, output) == [MakeDirs(output)] + Transcodes(input, output, sel);
    TranscodeOf(input, output, sel, f);
    SelectedExactly(Names(t1[input]), done, f);
  }

  /** Running `compress_h264_videos` again on the tree the first run left
      only re-creates the output directory: every `.h264` name has its
      `.mp4` by then. */
  lemma H264SecondPass(t: Tree, input: string, output: string)
    requires input != output
    ensures CompressH264Plan(Apply(t, CompressH264Plan(t, input, output)), input, output) == [MakeDirs(output)]
  {
    var t1 := Step(t, MakeDirs(output));
    var sweep := H264Sweep(t1, input, output);
    assert Apply(t, [MakeDirs(output)]) == t1 by {
      assert [MakeDirs(output)][..0] == [];
    }
    ApplyConcat(t, [MakeDirs(output)], sweep);
    var t' := Apply(t1, sweep);
    ApplyGrows(t1, sweep);
    assert Step(t', MakeDirs(output)) == t';
    H264SweepIdle(t1, input, output);
    assert [MakeDirs(output)] + [] == [MakeDirs(output)];
  }

  /** The sweep itself finds nothing on the tree it leaves behind. */
  lemma {:induction false} H264SweepIdle(t1: Tree, input: string, output: string)
    requires input != output && output in t1
    ensures H264Sweep(Apply(t1, H264Sweep(t1, input, output)), input, output) == []
  {
    var sweep := H264Sweep(t1, input, output);
    var t' := Apply(t1, sweep);
    if input in t1 {
      var done := Mp4s(Names(t1[output]));
      var listing := Names(t1[input]);
      var sel := Selected(listing, done);
      assert sweep == Transcodes(input, output, sel);
      ApplyUntouched(t1, sweep, input);
      ApplyGrows(t1, sweep);
      var done' := Mp4s(Names(t'[output]));
      Mp4sKept(t1[output], t'[output]);
      forall f | f in sel
        ensures EndsWith(f, Raw)
      {
        SelectedExactly(listing, done, f);
      }
      OutputsListed(t1, input, output, sel);
      SecondSweepSelectsNothing(listing, done, done');
      assert Names(t'[input]) == listing;
      assert H264Sweep(t', input, output) == Transcodes(input, output, Selected(listing, done'));
    } else {
      assert sweep == [];
      assert t' == t1;
    }
  }

  /** The `.mp4` names of a listing stay when the listing grows. */
  lemma Mp4sKept(l: seq<Entry>, l': seq<Entry>)
    requires l <= l'
    ensures forall g :: g in Mp4s(Names(l)) ==> g in Mp4s(Names(l'))
  {
    forall g | g in Mp4s(Names(l))
      ensures g in Mp4s(Names(l'))
    {
      KeptName(l, l', g);
    }
  }

  /** After the transcodes run, every output name is an `.mp4` listed in
      the output directory. */
  lemma OutputsListed(t: Tree, input: string, output: string, sel: seq<string>)
    requires output in t && forall f :: f in sel ==> EndsWith(f, Raw)
    ensures var t' := Apply(t, Transcodes(input, output, sel));
      output in t' && forall g :: g in Mp4Names(sel) ==> g in Mp4s(Names(t'[output]))
  {
    var sweep := Transcodes(input, output, sel);
    ApplyGrows(t, sweep);
    var t' := Apply(t, sweep);
    forall g | g in Mp4Names(sel)
      ensures g in Mp4s(Names(t'[output]))
    {
      var i :| 0 <= i < |sel| && Mp4Names(sel)[i] == g;
      Mp4NameEnds(sel[i]);
      assert Written(sweep[i]) == Some((output, g));
      ApplyKeepsWritten(t, sweep, i, output, g);
    }
  }

  /** A name listed in a directory stays listed when the listing grows. */
  lemma KeptName(l: seq<Entry>, l': seq<Entry>, g: string)
    requires l <= l' && g in Names(l)
    ensures g in Names(l')
  {
    var i :| 0 <= i < |l| && Names(l)[i] == g;
    assert Names(l')[i] == g;
  }

  /* -------------------------------------------------------- fast_scandir */

  /** Every strict descendant of `d`: each child, followed by the child's
      own descendants, child after child. */
  function Below(d: Dir): seq<Dir>
    decreases d, 1
  {
    BelowAll(d.children)
  }

  function BelowAll(cs: seq<Dir>): seq<Dir>
    decreases cs, 0
  {
    if cs == [] then [] else BelowAll(cs[..|cs| - 1]) + [cs[|cs| - 1]] + Below(cs[|cs| - 1])
  }

  /** The number of directories in a snapshot. */
  function Size(d: Dir): nat
    decreases d, 1
  {
    1 + SizeAll(d.children)
  }

  function SizeAll(cs: seq<Dir>): nat
    decreases cs, 0
  {
    if cs == [] then 0 else SizeAll(cs[..|cs| - 1]) + Size(cs[|cs| - 1])
  }

  /** `fast_scandir` returns exactly the strict descendants of its root that
      pass the filter. */
  lemma {:induction false} FoundExactly(d: Dir, x: Dir)
    ensures x in Found(d) <==> x in Below(d) && Keep(x)
    decreases d, 1
  {
    FoundAllExactly(d.children, x);
    if x in d.children {
      ChildrenBelow(d.children, x);
    }
  }

  /** The recursive calls on `cs` find exactly the kept descendants of
      `cs` that lie strictly below one of them; together with the kept
      children themselves, that is every kept directory below. */
  lemma {:induction false} FoundAllExactly(cs: seq<Dir>, x: Dir)
    ensures x in FoundAll(cs) ==> x in BelowAll(cs) && Keep(x)
    ensures x in BelowAll(cs) && Keep(x) ==> x in cs || x in FoundAll(cs)
    decreases cs, 0
  {
    if cs != [] {
      var init, c := cs[..|cs| - 1], cs[|cs| - 1];
      assert FoundAll(cs) == FoundAll(init) + Found(c);
      assert BelowAll(cs) == BelowAll(init) + [c] + Below(c);
      assert cs == init + [c];
      FoundAllExactly(init, x);
      FoundExactly(c, x);
    }
  }

  /** The children of a directory are among its descendants. */
  lemma {:induction false} ChildrenBelow(cs: seq<Dir>, x: Dir)
    requires x in cs
    ensures x in BelowAll(cs)
    decreases |cs|
  {
    if x != cs[|cs| - 1] {
      assert cs == cs[..|cs| - 1] + [cs[|cs| - 1]];
      ChildrenBelow(cs[..|cs| - 1], x);
    }
  }

  /** A descendant is smaller than its ancestor. */
  lemma {:induction false} BelowSmaller(d: Dir, x: Dir)
    requires x in Below(d)
    ensures Size(x) < Size(d)
    decreases d, 1
  {
    BelowAllSmaller(d.children, x);
  }

  lemma {:induction false} BelowAllSmaller(cs: seq<Dir>, x: Dir)
    requires x in BelowAll(cs)
    ensures Size(x) <= SizeAll(cs)
    decreases cs, 0
  {
    var init, c := cs[..|cs| - 1], cs[|cs| - 1];
    if x in BelowAll(init) {
      BelowAllSmaller(init, x);
    } else if x != c {
      BelowSmaller(c, x);
    }
  }

  /** The root itself is never returned, whatever its name and contents. */
  lemma RootNotFound(d: Dir)
    ensures d !in Found(d)
  {
    FoundExactly(d, d);
    if d in Below(d) {
      BelowSmaller(d, d);
    }
  }

  /** Every path `fast_scandir` returns mentions `compressed_videos`. */
  lemma FoundPaths(d: Dir, p: string)
    requires p in Paths(Found(d))
    ensures Contains(p, CompressedDir)
  {
    var ds := Found(d);
    var i :| 0 <= i < |ds| && Paths(ds)[i] == p;
    assert ds[i] in ds;
  }

  /* ----------------------------------------------------------- stills_dir */

  /** No stills path that `stills_dir` creates lies directly inside `d`. */
  ghost predicate NoNewChild(t: Tree, ss: seq<string>, d: string)
  {
    forall s :: s in ss && s !in t ==> ParentOf(s) != Some(d)
  }

  /** After `stills_dir` every stills path exists and nothing else is new.
      A directory that was there keeps its listing unless a new stills
      directory was made directly inside it; a new stills directory lists
      the marker first, and the marker only when no other new stills
      directory was made inside it. */
  lemma MirrorFacts(t: Tree, ps: seq<string>)
    ensures var t', ss := Apply(t, MirrorPlan(t, ps)), StillsPaths(ps);
      (forall s :: s in ss ==> s in t') &&
      (forall d :: d in t' ==> d in t || d in ss) &&
      (forall d :: d in t && NoNewChild(t, ss, d) ==> d in t' && t'[d] == t[d]) &&
      (forall s :: s in ss && s !in t ==> |t'[s]| > 0 && t'[s][0] == File(Marker)) &&
      (forall s :: s in ss && s !in t && NoNewChild(t, ss, s) ==> t'[s] == [File(Marker)]) &&
      (forall s :: s in ss && s !in t && Split(s).Some? && Split(s).value.0 in t ==>
        Split(s).value.0 in t' && Split(s).value.1 in Names(t'[Split(s).value.0]))
  {
    var t', ss := Apply(t, MirrorPlan(t, ps)), StillsPaths(ps);
    MirrorApplies(t, ps);
    forall d | d in t && NoNewChild(t, ss, d)
      ensures t'[d] == t[d]
    {
      OldDirKept(t, ss, t', d);
    }
    forall s | s in ss && s !in t && NoNewChild(t, ss, s)
      ensures t'[s] == [File(Marker)]
    {
      NewDirMarkerOnly(t, ss, t', s);
    }
  }

  lemma OldDirKept(t: Tree, ss: seq<string>, m: Tree, d: string)
    requires MirrorShape(t, ss, m) && d in t && NoNewChild(t, ss, d)
    ensures m[d] == t[d]
  {
    if |m[d]| > |t[d]| {
      NotNewChild(t, ss, d, m[d][|t[d]|]);
    }
  }

  lemma NewDirMarkerOnly(t: Tree, ss: seq<string>, m: Tree, s: string)
    requires MirrorShape(t, ss, m) && s in ss && s !in t && NoNewChild(t, ss, s)
    ensures m[s] == [File(Marker)]
  {
    if |m[s]| > 1 {
      NotNewChild(t, ss, s, m[s][1]);
    }
  }

  /** An entry made for a new stills directory inside `d` contradicts
      `NoNewChild`. */
  lemma NotNewChild(t: Tree, ss: seq<string>, d: string, e: Entry)
    requires NoNewChild(t, ss, d)
    ensures !NewChild(t, ss, d, e)
  {
  }

  /** With every stills path already there, `stills_dir` does nothing. */
  lemma {:induction false} MirrorNothingMissing(t: Tree, ps: seq<string>)
    requires forall s :: s in StillsPaths(ps) ==> s in t
    ensures MirrorPlan(t, ps) == []
    decreases |ps|
  {
    if ps != [] {
      var init := ps[..|ps| - 1];
      assert StillsPaths(ps) == StillsPaths(init) + [StillsPath(ps[|ps| - 1])];
      MirrorNothingMissing(t, init);
    }
  }

  /** A second `stills_dir` call creates nothing. */
  lemma MirrorIdle(t: Tree, ps: seq<string>)
    ensures MirrorPlan(Apply(t, MirrorPlan(t, ps)), ps) == []
  {
    MirrorFacts(t, ps);
    MirrorNothingMissing(Apply(t, MirrorPlan(t, ps)), ps);
  }

  /** A path without `compressed_videos` is its own stills path. */
  lemma StillsPathOther(p: string)
    requires !Contains(p, CompressedDir)
    ensures StillsPath(p) == p
  {
  }

  /** The `i`-th path `stills_dir` returns is the `i`-th input with every
      `compressed_videos` replaced by `stills`, and the input itself when it
      does not mention `compressed_videos`. */
  lemma StillsPathsEach(ps: seq<string>, i: nat)
    requires i < |ps|
    ensures StillsPaths(ps)[i] == ReplaceAll(ps[i], CompressedDir, StillsDir)
    ensures !Contains(ps[i], CompressedDir) ==> StillsPaths(ps)[i] == ps[i]
  {
    if !Contains(ps[i], CompressedDir) {
      StillsPathOther(ps[i]);
    }
  }

  /* ------------------------------------------------------ frame sampling */

  /** The loop samples frames 0, fps, 2 fps, ... below `n`: the `k`-th
      sample is frame `k * fps`, and there are `ceil(n / fps)` of them, the
      least count whose multiple of `fps` reaches `n`. */
  lemma {:induction false} SamplesReference(fps: nat, n: nat)
    requires fps > 0
    ensures n == 0 ==> |Samples(fps, n)| == 0
    ensures n > 0 ==> (|Samples(fps, n)| - 1) * fps < n <= |Samples(fps, n)| * fps
    ensures forall k :: 0 <= k < |Samples(fps, n)| ==> Samples(fps, n)[k] == k * fps
    decreases n
  {
    if n > 0 {
      var m := n - 1;
      var l := |Samples(fps, m)|;
      SamplesReference(fps, m);
      if m == l * fps {
        DivModUnique(m, fps, l, 0);
        assert Samples(fps, n) == Samples(fps, m) + [m];
        assert (l + 1) * fps == l * fps + fps;
      } else {
        assert m > 0 && m < l * fps;
        DivModUnique(m, fps, l - 1, m - (l - 1) * fps);
        assert Samples(fps, n) == Samples(fps, m);
      }
    }
  }

  /** A positive multiple of `d` is at least `d`. */
  lemma {:induction false} MulAtLeast(k: int, d: int)
    requires k >= 1 && d > 0
    ensures k * d >= d
    decreases k
  {
    if k > 1 {
      MulAtLeast(k - 1, d);
      assert k * d == (k - 1) * d + d;
    }
  }

  /** Euclidean division is unique: quotient and remainder can be read off
      any decomposition `m == q * d + r` with `0 <= r < d`. */
  lemma DivModUnique(m: int, d: int, q: int, r: int)
    requires d > 0 && 0 <= r < d && m == q * d + r
    ensures m / d == q && m % d == r
  {
    var x, y := m / d, m % d;
    assert m == x * d + y;
    assert (x - q) * d == r - y;
    if x > q {
      MulAtLeast(x - q, d);
    } else if x < q {
      MulAtLeast(q - x, d);
    }
  }

  /** The stills of one video with `N` frames at `fps` frames a second:
      `ceil(N / fps)` writes, the `k`-th writing frame `k * fps` under the
      name with `.mp4` replaced by `_k.jpg`. */
  lemma ClipStills(stillDir: string, video: string, c: Clip, k: nat)
    requires c.fps > 0
    ensures var l := |ClipPlan(stillDir, video, c)|;
      (c.frames == 0 ==> l == 0) && (c.frames > 0 ==> (l - 1) * c.fps < c.frames <= l * c.fps)
    ensures k < |ClipPlan(stillDir, video, c)| ==>
      ClipPlan(stillDir, video, c)[k] == ImWrite(stillDir, FrameStillName(video, k), k * c.fps)
  {
    SamplesReference(c.fps, c.frames);
    if k < |ClipPlan(stillDir, video, c)| {
      DivModUnique(k * c.fps, c.fps, k, 0);
    }
  }

  /** 125 frames at 25 frames a second give the stills of seconds 0 to 4,
      from frames 0, 25, 50, 75 and 100. */
  lemma FiveSeconds(stillDir: string, video: string)
    ensures var p := ClipPlan(stillDir, video, Clip(25, 125));
      |p| == 5 && forall k :: 0 <= k < 5 ==> p[k] == ImWrite(stillDir, FrameStillName(video, k), 25 * k)
  {
    var c := Clip(25, 125);
    ClipStills(stillDir, video, c, 0);
    forall k | 0 <= k < 5
      ensures ClipPlan(stillDir, video, c)[k] == ImWrite(stillDir, FrameStillName(video, k), 25 * k)
    {
      ClipStills(stillDir, video, c, k);
    }
  }

  /** The still names of one video are distinct when the video's name has
      no '.' besides its `.mp4` extension: the second can be read back. */
  lemma FrameNamesDistinct(u: string, k1: nat, k2: nat)
    requires NoDot(u)
    requires FrameStillName(u + Compressed, k1) == FrameStillName(u + Compressed, k2)
    ensures k1 == k2
  {
    var r1, r2 := "_" + NatToString(k1) + Jpg, "_" + NatToString(k2) + Jpg;
    ReplaceSkipsPrefix(u, Compressed, Compressed, r1);
    ReplaceSkipsPrefix(u, Compressed, Compressed, r2);
    ReplaceWhole(Compressed, r1);
    ReplaceWhole(Compressed, r2);
    assert u + r1 == u + r2;
    assert r1 == (u + r1)[|u|..];
    assert r2 == (u + r2)[|u|..];
    assert NatToString(k1) == r1[1..|r1| - |Jpg|];
    assert NatToString(k2) == r2[1..|r2| - |Jpg|];
    NatToStringInjective(k1, k2);
  }

  /** A still of an `.mp4` video is a `.jpg`. */
  lemma FrameStillIsJpg(video: string, k: nat)
    requires EndsWith(video, Compressed)
    ensures EndsWith(FrameStillName(video, k), Jpg)
  {
    var r := "_" + NatToString(k) + Jpg;
    ReplaceKeepsSuffix(video, Compressed, r);
    assert EndsWith(r, Jpg) by {
      assert r[|r| - |Jpg|..] == Jpg;
    }
    EndsWithTrans(FrameStillName(video, k), r, Jpg);
  }

  /* ---------------------------------------------------------- skip rule */

  /** A directory is processed only when its stills directory exists, is
      non-empty and holds no image, and the video directory can be listed;
      then its `.mp4` videos are processed in listing order. */
  lemma SkipRule(t: Tree, dir: string, media: (string, string) -> Clip)
    ensures var s := StillsPath(dir);
      var ready := s in t && t[s] != [] && (forall f :: f in Names(t[s]) ==> !IsImage(f)) && dir in t;
      (!ready ==> DirPlan(t, dir, media) == []) &&
      (ready ==> DirPlan(t, dir, media) == VideosPlan(dir, s, Mp4s(Names(t[dir])), media))
  {
    var s := StillsPath(dir);
    if s in t && |Images(Names(t[s]))| > 0 {
      assert Images(Names(t[s]))[0] in Images(Names(t[s]));
    }
  }

  /** Everything a directory's turn writes is a `.jpg` in its stills
      directory. */
  lemma {:induction false} VideosWriteJpgs(dir: string, s: string, vs: seq<string>, media: (string, string) -> Clip, i: nat)
    requires forall v :: v in vs ==> EndsWith(v, Compressed)
    requires i < |VideosPlan(dir, s, vs, media)|
    ensures var e := VideosPlan(dir, s, vs, media)[i];
      e.ImWrite? && e.dir == s && EndsWith(e.name, Jpg)
    decreases |vs|
  {
    var init, v := vs[..|vs| - 1], vs[|vs| - 1];
    var p := VideosPlan(dir, s, init, media);
    var q := if Clean(dir, init, media) && !Aborts(media(dir, v)) then ClipPlan(s, v, media(dir, v)) else [];
    assert VideosPlan(dir, s, vs, media) == p + q;
    if i < |p| {
      assert forall w :: w in init ==> w in vs;
      VideosWriteJpgs(dir, s, init, media, i);
      assert VideosPlan(dir, s, vs, media)[i] == p[i];
    } else {
      assert VideosPlan(dir, s, vs, media)[i] == q[i - |p|];
      ClipWritesJpg(s, v, media(dir, v), i - |p|);
    }
  }

  /** Everything the frame loop of one `.mp4` writes is a `.jpg` in the
      stills directory. */
  lemma ClipWritesJpg(s: string, v: string, c: Clip, j: nat)
    requires EndsWith(v, Compressed) && j < |ClipPlan(s, v, c)|
    ensures var e := ClipPlan(s, v, c)[j];
      e.ImWrite? && e.dir == s && EndsWith(e.name, Jpg)
  {
    var frames := Samples(c.fps, c.frames);
    assert ClipPlan(s, v, c)[j] == ImWrite(s, FrameStillName(v, frames[j] / c.fps), frames[j]);
    FrameStillIsJpg(v, frames[j] / c.fps);
  }

  /** Once a directory's turn wrote something, a second run skips it: its
      stills directory now holds a `.jpg`. */
  lemma RerunSkips(t: Tree, dir: string, media: (string, string) -> Clip)
    requires DirPlan(t, dir, media) != []
    ensures DirPlan(Apply(t, DirPlan(t, dir, media)), dir, media) == []
  {
    var s := StillsPath(dir);
    var p := DirPlan(t, dir, media);
    SkipRule(t, dir, media);
    var vs := Mp4s(Names(t[dir]));
    VideosWriteJpgs(dir, s, vs, media, 0);
    var n := p[0].name;
    assert Written(p[0]) == Some((s, n));
    ApplyKeepsWritten(t, p, 0, s, n);
    var t' := Apply(t, p);
    SkipRule(t', dir, media);
    assert IsImage(n);
  }

  /** A stills directory that `stills_dir` just created is non-empty (the
      marker comes first), so `video_to_stills` processes its video
      directory unless a stills directory created inside it carries an
      image name. */
  lemma MirrorEnablesSampling(t: Tree, ps: seq<string>, i: nat, media: (string, string) -> Clip)
    requires i < |ps| && ps[i] in t && StillsPath(ps[i]) !in t
    ensures var t', s, ss := Apply(t, MirrorPlan(t, ps)), StillsPath(ps[i]), StillsPaths(ps);
      s in t' && ps[i] in t' && |t'[s]| > 0 && t'[s][0] == File(Marker) &&
      ((forall q :: q in ss && q !in t && ParentOf(q) == Some(s) ==> !IsImage(Split(q).value.1))
        ==> DirPlan(t', ps[i], media) == VideosPlan(ps[i], s, Mp4s(Names(t'[ps[i]])), media))
  {
    var t', s, ss := Apply(t, MirrorPlan(t, ps)), StillsPath(ps[i]), StillsPaths(ps);
    assert ss[i] == s;
    MirrorApplies(t, ps);
    if forall q :: q in ss && q !in t && ParentOf(q) == Some(s) ==> !IsImage(Split(q).value.1) {
      forall f | f in Names(t'[s])
        ensures !IsImage(f)
      {
        NewDirNoImage(t, ss, t', s, f);
      }
      SkipRule(t', ps[i], media);
    }
  }

  /** A stills directory that was there but empty is processed once
      `stills_dir` creates a stills directory inside it (`os.makedirs` lists
      it there), unless a stills directory created inside it has an image
      name. */
  lemma EmptyStillsDirEnabled(t: Tree, ps: seq<string>, i: nat, j: nat, media: (string, string) -> Clip)
    requires i < |ps| && j < |ps| && ps[i] in t
    requires StillsPath(ps[i]) in t && t[StillsPath(ps[i])] == []
    requires StillsPath(ps[j]) !in t && ParentOf(StillsPath(ps[j])) == Some(StillsPath(ps[i]))
    ensures var t', s, ss := Apply(t, MirrorPlan(t, ps)), StillsPath(ps[i]), StillsPaths(ps);
      s in t' && ps[i] in t' && t'[s] != [] &&
      ((forall q :: q in ss && q !in t && ParentOf(q) == Some(s) ==> !IsImage(Split(q).value.1))
        ==> DirPlan(t', ps[i], media) == VideosPlan(ps[i], s, Mp4s(Names(t'[ps[i]])), media))
  {
    var t', s, ss := Apply(t, MirrorPlan(t, ps)), StillsPath(ps[i]), StillsPaths(ps);
    var c := StillsPath(ps[j]);
    assert ss[j] == c;
    MirrorApplies(t, ps);
    assert Split(c).value.1 in Names(t'[s]);
    if forall q :: q in ss && q !in t && ParentOf(q) == Some(s) ==> !IsImage(Split(q).value.1) {
      forall f | f in Names(t'[s])
        ensures !IsImage(f)
      {
        OldDirNoImage(t, ss, t', s, f);
      }
      SkipRule(t', ps[i], media);
    }
  }

  /** The names an empty old directory gains are those of stills
      directories created inside it. */
  lemma OldDirNoImage(t: Tree, ss: seq<string>, m: Tree, s: string, f: string)
    requires MirrorShape(t, ss, m) && s in t && t[s] == [] && f in Names(m[s])
    requires forall q :: q in ss && q !in t && ParentOf(q) == Some(s) ==> !IsImage(Split(q).value.1)
    ensures !IsImage(f)
  {
    var k :| 0 <= k < |m[s]| && m[s][k].name == f;
    assert NewChild(t, ss, s, m[s][k]);
    assert ParentOf(s + "/" + f) == Some(s);
  }

  /** The layout `r/compressed_videos` = [a.mp4, x], `r/compressed_videos/x`
      = [b.mp4] with an empty `r/stills`: `stills_dir` makes `r/stills/x`,
      which lists `x` in `r/stills`, so `video_to_stills` then processes
      `r/compressed_videos`. */
  lemma NestedVideosScenario(media: (string, string) -> Clip)
    ensures var t := map["r/compressed_videos" := [File("a.mp4"), Folder("x")],
                         "r/compressed_videos/x" := [File("b.mp4")], "r/stills" := []];
      var ps := ["r/compressed_videos", "r/compressed_videos/x"];
      DirPlan(Apply(t, MirrorPlan(t, ps)), "r/compressed_videos", media)
        == VideosPlan("r/compressed_videos", "r/stills", ["a.mp4"], media)
  {
    var t := map["r/compressed_videos" := [File("a.mp4"), Folder("x")],
                 "r/compressed_videos/x" := [File("b.mp4")], "r/stills" := []];
    var ps := ["r/compressed_videos", "r/compressed_videos/x"];
    ScenarioPaths();
    ScenarioMp4s(t[ps[0]]);
    NestedVideos(t, ps, media);
  }

  /** The stills paths of the scenario and the split of the nested one. */
  lemma ScenarioPaths()
    ensures StillsPath("r/compressed_videos") == "r/stills"
    ensures StillsPath("r/compressed_videos/x") == "r/stills/x"
    ensures Split("r/stills/x") == Some(("r/stills", "x"))
  {
    ReplaceSkipsPrefix("r/", CompressedDir, CompressedDir, StillsDir);
    ReplaceWhole(CompressedDir, StillsDir);
    assert "r/" + CompressedDir == "r/compressed_videos" && "r/" + StillsDir == "r/stills";
    ReplaceSkipsPrefix("r/", CompressedDir + "/x", CompressedDir, StillsDir);
    assert (CompressedDir + "/x")[..|CompressedDir|] == CompressedDir && (CompressedDir + "/x")[|CompressedDir|..] == "/x";
    assert ReplaceAll(CompressedDir + "/x", CompressedDir, StillsDir) == StillsDir + "/x";
    assert "r/" + (CompressedDir + "/x") == "r/compressed_videos/x" && "r/" + (StillsDir + "/x") == "r/stills/x";
    SplitJoin("r/stills", "x");
    assert "r/stills" + "/" + "x" == "r/stills/x";
  }

  /** Two video directories, the second mirrored inside the first's empty
      stills directory under a non-image name: the first is processed. */
  lemma NestedVideos(t: Tree, ps: seq<string>, media: (string, string) -> Clip)
    requires |ps| == 2 && ps[0] in t
    requires StillsPath(ps[0]) in t && t[StillsPath(ps[0])] == [] && StillsPath(ps[1]) !in t
    requires Split(StillsPath(ps[1])) == Some((StillsPath(ps[0]), "x"))
    requires StillsPath(ps[0]) != ps[0]
    ensures DirPlan(Apply(t, MirrorPlan(t, ps)), ps[0], media)
         == VideosPlan(ps[0], StillsPath(ps[0]), Mp4s(Names(t[ps[0]])), media)
  {
    var t', s, ss := Apply(t, MirrorPlan(t, ps)), StillsPath(ps[0]), StillsPaths(ps);
    var x := StillsPath(ps[1]);
    assert ss == [s, x];
    OnlyChild(t, ss, s, x);
    EmptyStillsDirEnabled(t, ps, 0, 1, media);
    MirrorApplies(t, ps);
    OldDirKept(t, ss, t', ps[0]);
  }

  /** With two stills paths, the first already there, the only new one is
      the second: inside `s` and under no other directory. */
  lemma OnlyChild(t: Tree, ss: seq<string>, s: string, x: string)
    requires ss == [s, x] && s in t && x !in t && Split(x) == Some((s, "x"))
    ensures ParentOf(x) == Some(s)
    ensures forall q :: q in ss && q !in t && ParentOf(q) == Some(s) ==> !IsImage(Split(q).value.1)
    ensures forall d :: d != s ==> NoNewChild(t, ss, d)
  {
    assert !IsImage("x");
  }

  /** The `.mp4` names of the scenario's video directory. */
  lemma ScenarioMp4s(l: seq<Entry>)
    requires l == [File("a.mp4"), Folder("x")]
    ensures Mp4s(Names(l)) == ["a.mp4"]
  {
    var ns := Names(l);
    assert ns == ["a.mp4", "x"];
    assert ns[..1] == ["a.mp4"] && ns[..1][..0] == [];
    assert "a.mp4"[1..] == Compressed;
    assert EndsWith("a.mp4", Compressed) && !EndsWith("x", Compressed);
    assert Mp4s(ns[..1]) == [] + ["a.mp4"];
  }

  /** The names in a new stills directory are the marker and the names of
      stills directories created inside it. */
  lemma NewDirNoImage(t: Tree, ss: seq<string>, m: Tree, s: string, f: string)
    requires MirrorShape(t, ss, m) && s in ss && s !in t && f in Names(m[s])
    requires forall q :: q in ss && q !in t && ParentOf(q) == Some(s) ==> !IsImage(Split(q).value.1)
    ensures !IsImage(f)
  {
    var k :| 0 <= k < |m[s]| && m[s][k].name == f;
    if k == 0 {
      assert Marker[|Marker| - 1] == 'e';
    } else {
      assert NewChild(t, ss, s, m[s][k]);
      assert ParentOf(s + "/" + f) == Some(s);
    }
  }
}
