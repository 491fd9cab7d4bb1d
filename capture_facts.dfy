/** What the recorder's plans promise: the names it picks, the files each
    plan writes, the order of camera calls, and the transcode sweep that
    finds nothing left to do on its second pass. */
module CaptureFacts {
  import opened Strings
  import opened Storage
  import opened Sweep
  import opened DataCapture

  /* ------------------------------------------------------- sequence names */

  /** Distinct sequence numbers give distinct names. */
  lemma SeqNameInjective(recipe: string, date: string, ext: string, i: nat, j: nat)
    requires SeqName(recipe, date, i, ext) == SeqName(recipe, date, j, ext)
    ensures i == j
  {
    var p := recipe + "_" + date + "_";
    var x, y := NatToString(i), NatToString(j);
    var a := SeqName(recipe, date, i, ext);
    assert a == p + x + ext;
    assert a == p + y + ext;
    assert x == a[|p|..|p| + |x|];
    assert y == a[|p|..|p| + |y|];
    NatToStringInjective(i, j);
  }

  /** On a directory holding exactly the names `0 .. n-1` of this recipe,
      date and extension, in any order, the run starts at `n`, and neither
      `n` nor any later name is taken. */
  lemma ContiguousStart(files: seq<string>, recipe: string, date: string, ext: string, n: nat)
    requires multiset(files) == multiset(Numbered(recipe, date, ext, n))
    ensures StartIndex(files, SeqName(recipe, date, 0, ext)) == n
    ensures forall k: nat :: k >= n ==> SeqName(recipe, date, k, ext) !in files
  {
    var ns := Numbered(recipe, date, ext, n);
    assert |files| == |multiset(files)| == |multiset(ns)| == n;
    if n > 0 {
      assert ns[0] in multiset(ns);
      assert SeqName(recipe, date, 0, ext) in multiset(files);
    }
    forall k: nat | k >= n
      ensures SeqName(recipe, date, k, ext) !in files
    {
      if SeqName(recipe, date, k, ext) in files {
        assert SeqName(recipe, date, k, ext) in multiset(ns);
        var i :| 0 <= i < n && ns[i] == SeqName(recipe, date, k, ext);
        SeqNameInjective(recipe, date, ext, i, k);
        assert false;
      }
    }
  }

  /** The index is built from the name for 0 only, so a listing with a gap
      makes the run start on a name that already exists: with `_0` and `_2`
      on disk the run starts at 2, and its first file overwrites `_2`. */
  lemma StartMayCollide(recipe: string, date: string, ext: string)
    ensures var files := [SeqName(recipe, date, 0, ext), SeqName(recipe, date, 2, ext)];
      StartIndex(files, SeqName(recipe, date, 0, ext)) == 2 && SeqName(recipe, date, 2, ext) in files
  {
  }

  /* ---------------------------------------------------------- still names */

  /** When neither the recipe nor the date holds a '.', the still of second
      `sec` of segment `k` is named `recipe_date_k_sec.jpg`: the only
      ".h264" in the segment name is its extension. */
  lemma StillNameShape(recipe: string, date: string, k: nat, sec: nat)
    requires NoDot(recipe) && NoDot(date)
    ensures StillName(VideoName(recipe, date, k), sec) == SeqName(recipe, date, k, "_" + NatToString(sec) + StillExt)
  {
    var u := recipe + "_" + date + "_" + NatToString(k);
    var rep := "_" + NatToString(sec) + StillExt;
    assert VideoName(recipe, date, k) == u + Raw;
    assert Raw[0] == '.';
    forall i | 0 <= i < |u|
      ensures u[i] != Raw[0]
    {
      if i < |recipe| {
        assert u[i] == recipe[i];
      } else if i == |recipe| {
        assert u[i] == '_';
      } else if i < |recipe| + 1 + |date| {
        assert u[i] == date[i - |recipe| - 1];
      } else if i == |recipe| + 1 + |date| {
        assert u[i] == '_';
      } else {
        assert u[i] == NatToString(k)[i - |recipe| - 2 - |date|];
      }
    }
    ReplaceSkipsPrefix(u, Raw, Raw, rep);
    ReplaceWhole(Raw, rep);
    assert SeqName(recipe, date, k, rep) == u + rep;
  }

  /** The still name split after the date: the segment number, '_', and
      the second with the extension. */
  lemma StillNameParts(recipe: string, date: string, k: nat, sec: nat)
    requires NoDot(recipe) && NoDot(date)
    ensures StillName(VideoName(recipe, date, k), sec)
         == (recipe + "_" + date + "_") + (NatToString(k) + "_" + (NatToString(sec) + StillExt))
  {
    StillNameShape(recipe, date, k, sec);
  }

  lemma PrefixCancel(p: string, a: string, b: string)
    requires p + a == p + b
    ensures a == b
  {
    assert a == (p + a)[|p|..];
    assert b == (p + b)[|p|..];
  }

  /** A string of digits followed by '_' ends where the '_' is. */
  lemma DigitsThenSep(x: string, y: string, a: string, b: string)
    requires forall i :: 0 <= i < |x| ==> '0' <= x[i] <= '9'
    requires forall i :: 0 <= i < |y| ==> '0' <= y[i] <= '9'
    requires x + "_" + a == y + "_" + b
    ensures x == y && a == b
  {
    if |x| < |y| {
      SepAt(x, y, a, b);
      assert false;
    }
    if |y| < |x| {
      SepAt(y, x, b, a);
      assert false;
    }
    assert x == (x + "_" + a)[..|x|];
    assert y == (y + "_" + b)[..|y|];
    assert a == (x + "_" + a)[|x| + 1..];
    assert b == (y + "_" + b)[|y| + 1..];
  }

  lemma SepAt(x: string, y: string, a: string, b: string)
    requires |x| < |y| && x + "_" + a == y + "_" + b
    ensures y[|x|] == '_'
  {
    assert (x + "_" + a)[|x|] == '_';
    assert (y + "_" + b)[|x|] == y[|x|];
  }

  /** Within a run no two stills share a name: the segment number and the
      second can be read back from the still's name. */
  lemma StillNamesDistinct(recipe: string, date: string, k1: nat, s1: nat, k2: nat, s2: nat)
    requires NoDot(recipe) && NoDot(date)
    requires StillName(VideoName(recipe, date, k1), s1) == StillName(VideoName(recipe, date, k2), s2)
    ensures k1 == k2 && s1 == s2
  {
    var p := recipe + "_" + date + "_";
    var x1, x2 := NatToString(k1), NatToString(k2);
    var a1, a2 := NatToString(s1) + StillExt, NatToString(s2) + StillExt;
    StillNameParts(recipe, date, k1, s1);
    StillNameParts(recipe, date, k2, s2);
    PrefixCancel(p, x1 + "_" + a1, x2 + "_" + a2);
    DigitsThenSep(x1, x2, a1, a2);
    NatToStringInjective(k1, k2);
    assert NatToString(s1) == a1[..|a1| - |StillExt|];
    assert NatToString(s2) == a2[..|a2| - |StillExt|];
    NatToStringInjective(s1, s2);
  }

  /* -------------------------------------------------- what a plan writes */

  datatype Kind = VideoFile | StillFile | PictureFile

  /** The file of kind `k` one effect writes, as a sequence of zero or one
      names. */
  function Out(e: Effect, k: Kind): seq<string>
  {
    if k == VideoFile && e.StartRecording? then [e.name]
    else if k == StillFile && e.SaveStill? then [e.name]
    else if k == PictureFile && e.CaptureFile? then [e.name]
    else []
  }

  /** The names of the files of kind `k` written by `es`, in order. */
  function Produced(es: seq<Effect>, k: Kind): seq<string>
    decreases |es|
  {
    if es == [] then [] else Produced(es[..|es| - 1], k) + Out(es[|es| - 1], k)
  }

  lemma ProducedSnoc(a: seq<Effect>, e: Effect, k: Kind)
    ensures Produced(a + [e], k) == Produced(a, k) + Out(e, k)
  {
    assert (a + [e])[..|a|] == a;
  }

  lemma {:induction false} ProducedConcat(a: seq<Effect>, b: seq<Effect>, k: Kind)
    ensures Produced(a + b, k) == Produced(a, k) + Produced(b, k)
    decreases |b|
  {
    if b == [] {
      assert a + b == a;
    } else {
      var b' := b[..|b| - 1];
      assert (a + b)[..|a + b| - 1] == a + b';
      ProducedConcat(a, b', k);
    }
  }

  /** The stills loop saves the stills it is given, in order ... */
  lemma {:induction false} StillSavesStills(stills: string, names: seq<string>)
    ensures Produced(StillSaves(stills, names), StillFile) == names
    decreases |names|
  {
    if names != [] {
      var init := names[..|names| - 1];
      var pre := StillSaves(stills, init);
      var e := SaveStill(stills, names[|names| - 1]);
      StillSavesStills(stills, init);
      ProducedSnoc(pre, e, StillFile);
      ProducedSnoc(pre + [e], Sleep, StillFile);
      assert init + [names[|names| - 1]] == names;
    }
  }

  /** ... and records no video. */
  lemma {:induction false} StillSavesRecordNothing(stills: string, names: seq<string>)
    ensures Produced(StillSaves(stills, names), VideoFile) == []
    decreases |names|
  {
    if names != [] {
      var init := names[..|names| - 1];
      var pre := StillSaves(stills, init);
      var e := SaveStill(stills, names[|names| - 1]);
      StillSavesRecordNothing(stills, init);
      ProducedSnoc(pre, e, VideoFile);
      ProducedSnoc(pre + [e], Sleep, VideoFile);
    }
  }

  lemma ProducedPair(x: Effect, y: Effect, k: Kind)
    ensures Produced([x, y], k) == Out(x, k) + Out(y, k)
  {
    assert [x, y][..1] == [x];
    assert [x][..0] == [];
    assert Produced([x], k) == [] + Out(x, k) == Out(x, k);
  }

  lemma ProducedTriple(x: Effect, y: Effect, z: Effect, k: Kind)
    ensures Produced([x, y, z], k) == Out(x, k) + Out(y, k) + Out(z, k)
  {
    assert [x, y, z][..2] == [x, y];
    ProducedPair(x, y, k);
  }

  /** What a segment produces: its video, then what its stills loop
      produces. */
  lemma SegmentProduces(out: Outputs, segment: string, names: seq<string>, k: Kind)
    ensures Produced(SegmentHead(out, segment) + StillSaves(out.stills, names) + [StopRecording, CloseCamera], k)
         == Out(StartRecording(out.videos, segment, EncoderBitrate), k) + Produced(StillSaves(out.stills, names), k)
  {
    var head := SegmentHead(out, segment);
    var mid := StillSaves(out.stills, names);
    var tail := [StopRecording, CloseCamera];
    ProducedTriple(head[0], head[1], head[2], k);
    ProducedPair(StopRecording, CloseCamera, k);
    ProducedConcat(head, mid, k);
    ProducedConcat(head + mid, tail, k);
    assert Produced(tail, k) == [];
  }

  /** One segment records one video, named after the segment ... */
  lemma SegmentRecords(out: Outputs, segment: string, secs: nat)
    ensures Produced(Segment(out, segment, secs), VideoFile) == [segment]
  {
    SegmentProduces(out, segment, StillNames(segment, secs), VideoFile);
    StillSavesRecordNothing(out.stills, StillNames(segment, secs));
  }

  /** ... and saves one still per second of the segment, in order. */
  lemma SegmentStills(out: Outputs, segment: string, secs: nat)
    ensures Produced(Segment(out, segment, secs), StillFile) == StillNames(segment, secs)
  {
    SegmentProduces(out, segment, StillNames(segment, secs), StillFile);
    StillSavesStills(out.stills, StillNames(segment, secs));
  }

  /** The segment loop records one video per name, in order ... */
  lemma {:induction false} SegmentsRecord(out: Outputs, names: seq<string>, secs: nat)
    ensures Produced(Segments(out, names, secs), VideoFile) == names
    decreases |names|
  {
    if names != [] {
      var init := names[..|names| - 1];
      var name := names[|names| - 1];
      SegmentsRecord(out, init, secs);
      SegmentRecords(out, name, secs);
      ProducedConcat(Segments(out, init, secs), Segment(out, name, secs), VideoFile);
      assert init + [name] == names;
    }
  }

  /** ... and saves `secs` stills for each of them. */
  lemma {:induction false} SegmentsStillCount(out: Outputs, names: seq<string>, secs: nat)
    ensures |Produced(Segments(out, names, secs), StillFile)| == |names| * secs
    decreases |names|
  {
    if names != [] {
      var init := names[..|names| - 1];
      var name := names[|names| - 1];
      SegmentsStillCount(out, init, secs);
      SegmentStills(out, name, secs);
      ProducedConcat(Segments(out, init, secs), Segment(out, name, secs), StillFile);
      assert (|names| - 1) * secs + secs == |names| * secs;
    }
  }

  /** Still `s` of segment `j` is entry `j * secs + s` of the stills the
      segment loop saves. */
  lemma {:induction false} SegmentsStillAt(out: Outputs, names: seq<string>, secs: nat, j: nat, s: nat)
    requires j < |names| && s < secs
    ensures j * secs + s < |Produced(Segments(out, names, secs), StillFile)|
    ensures Produced(Segments(out, names, secs), StillFile)[j * secs + s] == StillName(names[j], s)
    decreases |names|
  {
    var init := names[..|names| - 1];
    var name := names[|names| - 1];
    var before := Produced(Segments(out, init, secs), StillFile);
    SegmentsStillCount(out, init, secs);
    SegmentStills(out, name, secs);
    ProducedConcat(Segments(out, init, secs), Segment(out, name, secs), StillFile);
    var all := before + StillNames(name, secs);
    assert Produced(Segments(out, names, secs), StillFile) == all;
    assert |before| == (|names| - 1) * secs;
    if j < |names| - 1 {
      SegmentsStillAt(out, init, secs, j, s);
    } else {
      assert j * secs + s == |before| + s;
    }
  }

  /** One turn of the stills loop takes one picture. */
  lemma PictureTakes(out: Outputs, name: string)
    ensures Produced(Picture(out, name), PictureFile) == [name]
  {
    var k := PictureFile;
    var c := CaptureFile(out.stills, name);
    assert Picture(out, name) == [OpenCamera, StartCamera, c] + [CloseCamera, Sleep];
    ProducedTriple(OpenCamera, StartCamera, c, k);
    ProducedPair(CloseCamera, Sleep, k);
    ProducedConcat([OpenCamera, StartCamera, c], [CloseCamera, Sleep], k);
  }

  /** The stills loop takes one picture per name, in order. */
  lemma {:induction false} PicturesTake(out: Outputs, names: seq<string>)
    ensures Produced(Pictures(out, names), PictureFile) == names
    decreases |names|
  {
    if names != [] {
      var init := names[..|names| - 1];
      var name := names[|names| - 1];
      PicturesTake(out, init);
      PictureTakes(out, name);
      ProducedConcat(Pictures(out, init), Picture(out, name), PictureFile);
      assert init + [name] == names;
    }
  }

  /* ------------------------------------------------------------ arguments */

  /** `-m` minutes give that many one-minute segments of `60 * m` stills
      each, or as many single pictures; without `-m` the run lasts one
      minute; a negative `-m` records nothing. */
  lemma MinutesGiveSegments(a: Args)
    ensures var m := if a.minutes.None? then 1 else a.minutes.value;
      var s := Defaults(a);
      SegmentCount(s.recSecs) == (if m < 0 then 0 else m) &&
      Secs(s.recSecs) == (if m < 0 then 0 else 60 * m)
  {
    var m := if a.minutes.None? then 1 else a.minutes.value;
    assert Defaults(a).recSecs == m * 60;
    if m >= 0 {
      assert m * 60 / 60 == m;
    }
  }

  /** The defaults: no flags mean one minute of chicken teriyaki video,
      not in debug mode. */
  lemma NoFlags()
    ensures Defaults(Args(None, None, None, None)) == Settings(false, "chicken_teriyaki", 60, 'v')
  {
  }

  /* ------------------------------------------------------------ whole runs */

  /** The segment loop over any list of names: one video per name, and
      `secs` stills per segment, still `s` of segment `j` coming
      `j * secs + s`-th. */
  lemma SegmentsWrite(out: Outputs, names: seq<string>, secs: nat, j: nat, s: nat)
    ensures Produced(Segments(out, names, secs), VideoFile) == names
    ensures |Produced(Segments(out, names, secs), StillFile)| == |names| * secs
    ensures j < |names| && s < secs ==>
      j * secs + s < |Produced(Segments(out, names, secs), StillFile)| &&
      Produced(Segments(out, names, secs), StillFile)[j * secs + s] == StillName(names[j], s)
  {
    SegmentsRecord(out, names, secs);
    SegmentsStillCount(out, names, secs);
    if j < |names| && s < secs {
      SegmentsStillAt(out, names, secs, j, s);
    }
  }

  /** `record_video` records the segments `start .. start+n-1`, where `n`
      is the number of whole minutes, and saves `secs` stills during each
      of them: still `s` of segment `j` comes `j * secs + s`-th. */
  lemma VideoPlanWrites(t: Tree, out: Outputs, recipe: string, date: string, recSecs: int, n: nat, m: nat, j: nat, s: nat)
    requires out.videos in t && out.stills in t && n == SegmentCount(recSecs) && m == Secs(recSecs)
    ensures var start := StartIndex(FileNames(t[out.videos]), VideoName(recipe, date, 0));
      var vs := Produced(VideoPlan(t, out, recipe, date, recSecs), VideoFile);
      var st := Produced(VideoPlan(t, out, recipe, date, recSecs), StillFile);
      vs == RunNames(recipe, date, Raw, start, n) &&
      |st| == n * m &&
      (j < n && s < m ==> j * m + s < |st| && st[j * m + s] == StillName(vs[j], s))
  {
    var start := StartIndex(FileNames(t[out.videos]), VideoName(recipe, date, 0));
    var names := RunNames(recipe, date, Raw, start, n);
    assert VideoPlan(t, out, recipe, date, recSecs) == Segments(out, names, m);
    SegmentsWrite(out, names, m, j, s);
  }

  /** `record_stills` takes one picture per second, `start .. start+secs-1`. */
  lemma StillsPlanTakes(t: Tree, out: Outputs, recipe: string, date: string, recSecs: int)
    requires out.stills in t
    ensures var start := StartIndex(FileNames(t[out.stills]), PictureName(recipe, date, 0));
      Produced(StillsPlan(t, out, recipe, date, recSecs), PictureFile)
        == RunNames(recipe, date, StillExt, start, Secs(recSecs))
  {
    var start := StartIndex(FileNames(t[out.stills]), PictureName(recipe, date, 0));
    PicturesTake(out, RunNames(recipe, date, StillExt, start, Secs(recSecs)));
  }

  /** On a directory holding exactly the names `0 .. n-1`, a run of `m`
      continues at `n` and none of its names is already taken. */
  lemma FreshRun(files: seq<string>, recipe: string, date: string, ext: string, n: nat, m: nat)
    requires multiset(files) == multiset(Numbered(recipe, date, ext, n))
    ensures StartIndex(files, SeqName(recipe, date, 0, ext)) == n
    ensures forall f :: f in RunNames(recipe, date, ext, n, m) ==> f !in files
  {
    ContiguousStart(files, recipe, date, ext, n);
    var names := RunNames(recipe, date, ext, n, m);
    forall f | f in names
      ensures f !in files
    {
      var j :| 0 <= j < |names| && names[j] == f;
      assert f == SeqName(recipe, date, n + j, ext);
    }
  }

  /** When the videos directory holds exactly the segments `0 .. n-1` of
      this recipe and date, the new segments continue at `n` and none of
      them overwrites a file that was there. */
  lemma VideoPlanFresh(t: Tree, out: Outputs, recipe: string, date: string, recSecs: int, n: nat)
    requires out.videos in t && out.stills in t
    requires multiset(FileNames(t[out.videos])) == multiset(Numbered(recipe, date, Raw, n))
    ensures Produced(VideoPlan(t, out, recipe, date, recSecs), VideoFile) == RunNames(recipe, date, Raw, n, SegmentCount(recSecs))
    ensures forall f :: f in Produced(VideoPlan(t, out, recipe, date, recSecs), VideoFile) ==> f !in FileNames(t[out.videos])
  {
    FreshRun(FileNames(t[out.videos]), recipe, date, Raw, n, SegmentCount(recSecs));
    VideoPlanWrites(t, out, recipe, date, recSecs, SegmentCount(recSecs), Secs(recSecs), 0, 0);
  }

  /** Likewise for the pictures of `record_stills`. */
  lemma StillsPlanFresh(t: Tree, out: Outputs, recipe: string, date: string, recSecs: int, n: nat)
    requires out.stills in t
    requires multiset(FileNames(t[out.stills])) == multiset(Numbered(recipe, date, StillExt, n))
    ensures Produced(StillsPlan(t, out, recipe, date, recSecs), PictureFile) == RunNames(recipe, date, StillExt, n, Secs(recSecs))
    ensures forall f :: f in Produced(StillsPlan(t, out, recipe, date, recSecs), PictureFile) ==> f !in FileNames(t[out.stills])
  {
    FreshRun(FileNames(t[out.stills]), recipe, date, StillExt, n, Secs(recSecs));
    StillsPlanTakes(t, out, recipe, date, recSecs);
  }

  /** A bean soup recording of two minutes into an empty videos directory
      records `bean_soup_<date>_0.h264` and `bean_soup_<date>_1.h264`, and,
      because each segment saves one still per second of the whole
      recording, 240 stills. */
  lemma BeanSoupScenario(t: Tree, out: Outputs, date: string)
    requires out.videos in t && t[out.videos] == [] && out.stills in t
    ensures var a := Args(None, Some("bean_soup"), Some(2), None);
      var s := Defaults(a);
      s.format == 'v' &&
      Produced(VideoPlan(t, out, s.recipe, date, s.recSecs), VideoFile)
        == ["bean_soup_" + date + "_0.h264", "bean_soup_" + date + "_1.h264"] &&
      |Produced(VideoPlan(t, out, s.recipe, date, s.recSecs), StillFile)| == 240
  {
    var s := Defaults(Args(None, Some("bean_soup"), Some(2), None));
    assert s.recipe == "bean_soup" && s.recSecs == 120 && s.format == 'v';
    assert SegmentCount(120) == 2 && Secs(120) == 120;
    assert FileNames(t[out.videos]) == [];
    VideoPlanWrites(t, out, "bean_soup", date, 120, 2, 120, 0, 0);
    BeanSoupNames(date);
  }

  lemma BeanSoupNames(date: string)
    ensures RunNames("bean_soup", date, Raw, 0, 2) == ["bean_soup_" + date + "_0.h264", "bean_soup_" + date + "_1.h264"]
  {
    assert NatToString(0) == "0" && NatToString(1) == "1";
    assert SeqName("bean_soup", date, 0, Raw) == "bean_soup_" + date + "_0.h264";
    assert SeqName("bean_soup", date, 1, Raw) == "bean_soup_" + date + "_1.h264";
  }

  /* ------------------------------------------------------ transcode sweep */

  /** A name listed in a directory that holds plain files only is one of
      its plain files. */
  lemma ListedIsFile(es: seq<Entry>, n: string)
    requires forall m :: Folder(m) !in es
    requires n in Names(es)
    ensures n in FileNames(es)
  {
    var i :| 0 <= i < |es| && Names(es)[i] == n;
    assert es[i] == File(n) by {
      if es[i].Folder? {
        assert Folder(es[i].name) in es;
      }
    }
  }

  /** Running `compress_video` a second time on the tree the first run
      left does nothing: every `.h264` recording has its `.mp4` by then.
      This needs the two directories to differ and the compressed
      directory to hold no sub-directory (a directory named like an
      output would stand in the way of the file). */
  lemma {:induction false} CompressSecondPass(t: Tree, out: Outputs)
    requires out.videos != out.compressed
    requires out.compressed in t && forall n :: Folder(n) !in t[out.compressed]
    ensures CompressPlan(Apply(t, CompressPlan(t, out)), out) == []
  {
    if out.videos in t {
      var c := out.compressed;
      var done := FileNames(t[c]);
      var listing := Names(t[out.videos]);
      var sel := Selected(listing, done);
      var plan := CompressPlan(t, out);
      assert plan == Transcodes(out.videos, c, sel);
      var t' := Apply(t, plan);
      ApplyUntouched(t, plan, out.videos);
      ApplyGrows(t, plan);
      ApplyKeepsFilesOnly(t, plan, c);
      var done' := FileNames(t'[c]);
      FilesKept(t[c], t'[c]);
      OutputFilesListed(t, out.videos, c, sel);
      SecondSweepSelectsNothing(listing, done, done');
      assert Names(t'[out.videos]) == listing;
    }
  }

  /** The plain files of a listing stay when the listing grows. */
  lemma FilesKept(l: seq<Entry>, l': seq<Entry>)
    requires l <= l'
    ensures forall g :: g in FileNames(l) ==> g in FileNames(l')
  {
    forall g | g in FileNames(l)
      ensures g in FileNames(l')
    {
      var i :| 0 <= i < |l| && l[i] == File(g);
      assert l'[i] == File(g);
    }
  }

  /** After the transcodes run into a directory without sub-directories,
      every output name is a plain file there. */
  lemma OutputFilesListed(t: Tree, input: string, output: string, sel: seq<string>)
    requires output in t && forall n :: Folder(n) !in t[output]
    ensures var t' := Apply(t, Transcodes(input, output, sel));
      output in t' && forall g :: g in Mp4Names(sel) ==> g in FileNames(t'[output])
  {
    var plan := Transcodes(input, output, sel);
    ApplyKeepsFilesOnly(t, plan, output);
    var t' := Apply(t, plan);
    forall g | g in Mp4Names(sel)
      ensures g in FileNames(t'[output])
    {
      var i :| 0 <= i < |sel| && Mp4Names(sel)[i] == g;
      assert Written(plan[i]) == Some((output, g));
      ApplyKeepsWritten(t, plan, i, output, g);
      ListedIsFile(t'[output], g);
    }
  }

  /** In particular, after a video-mode run of the script the sweep has
      nothing left to do. */
  lemma VideoRunSettles(t: Tree, out: Outputs, date: string, a: Args)
    requires Defaults(a).format == 'v' && Apart(out)
    requires out.compressed in t ==> forall n :: Folder(n) !in t[out.compressed]
    ensures CompressPlan(Apply(t, RunPlan(t, out, date, a)), out) == []
  {
    var s := Defaults(a);
    var t1 := Apply(t, Startup(out));
    StartupMakesDirs(t, out);
    var w := VideoRunPlan(t1, out, s.recipe, date, s.recSecs);
    assert RunPlan(t, out, date, a) == Startup(out) + w;
    ApplyConcat(t, Startup(out), w);
    SweepSettles(t1, out, s.recipe, date, s.recSecs);
  }

  /** Recording and sweeping, with every output directory there, leaves
      nothing for a second sweep. */
  lemma SweepSettles(t: Tree, out: Outputs, recipe: string, date: string, recSecs: int)
    requires out.videos != out.compressed && out.videos != out.stills && out.stills != out.compressed
    requires out.videos in t && out.stills in t
    requires out.compressed in t && forall n :: Folder(n) !in t[out.compressed]
    ensures var t1 := Apply(t, VideoRunPlan(t, out, recipe, date, recSecs));
      CompressPlan(t1, out) == []
  {
    var v := VideoPlan(t, out, recipe, date, recSecs);
    var tv := Apply(t, v);
    var start := StartIndex(FileNames(t[out.videos]), VideoName(recipe, date, 0));
    SegmentsMakeNoDirs(out, RunNames(recipe, date, Raw, start, SegmentCount(recSecs)), Secs(recSecs));
    assert forall i :: 0 <= i < |v| ==> v[i] in v;
    ApplyConcat(t, v, CompressPlan(tv, out));
    ApplyGrows(t, v);
    ApplyKeepsFilesOnly(t, v, out.compressed);
    CompressSecondPass(tv, out);
  }

  /** A segment creates no directory. */
  lemma {:induction false} StillSavesMakeNoDirs(stills: string, names: seq<string>)
    ensures forall e :: e in StillSaves(stills, names) ==> !e.MakeDirs?
    decreases |names|
  {
    if names != [] {
      StillSavesMakeNoDirs(stills, names[..|names| - 1]);
    }
  }

  /** Recording creates no directory. */
  lemma {:induction false} SegmentsMakeNoDirs(out: Outputs, names: seq<string>, secs: nat)
    ensures forall e :: e in Segments(out, names, secs) ==> !e.MakeDirs?
    decreases |names|
  {
    if names != [] {
      SegmentsMakeNoDirs(out, names[..|names| - 1], secs);
      StillSavesMakeNoDirs(out.stills, StillNames(names[|names| - 1], secs));
    }
  }
}
