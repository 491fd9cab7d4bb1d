/** The order of the recorder's camera calls: the camera moves between
    Closed, Opened, Configured, Recording and Started, and `CamRun` checks
    that every effect of a plan is a call the camera accepts in its state,
    so that each segment or picture opens the camera only once it is closed. */
module CameraProtocol {
  import opened Storage
  import opened Sweep
  import opened DataCapture

  /** The states of the one camera the recorder drives. */
  datatype Camera = Closed | Opened | Configured | Recording | Started

  /** The camera's state after one effect, or `None` for a call the
      camera does not accept in its current state. */
  function CamStep(c: Camera, e: Effect): Option<Camera>
  {
    if e.OpenCamera? then (if c == Closed then Some(Opened) else None)
    else if e.ConfigureVideo? then (if c == Opened then Some(Configured) else None)
    else if e.StartRecording? then (if c == Configured then Some(Recording) else None)
    else if e.SaveStill? then (if c == Recording then Some(Recording) else None)
    else if e.StopRecording? then (if c == Recording then Some(Opened) else None)
    else if e.StartCamera? then (if c == Opened then Some(Started) else None)
    else if e.CaptureFile? then (if c == Started then Some(Started) else None)
    else if e.CloseCamera? then (if c == Opened || c == Started then Some(Closed) else None)
    else if e.Sleep? then Some(c)
    else (if c == Closed then Some(Closed) else None)
  }

  /** The camera's state after a sequence of effects. */
  function CamRun(c: Camera, es: seq<Effect>): Option<Camera>
    decreases |es|
  {
    if es == [] then Some(c)
    else match CamRun(c, es[..|es| - 1])
      case None => None
      case Some(c') => CamStep(c', es[|es| - 1])
  }

  /** One more accepted call. */
  lemma CamThen(c: Camera, a: seq<Effect>, c1: Camera, e: Effect, c2: Camera)
    requires CamRun(c, a) == Some(c1) && CamStep(c1, e) == Some(c2)
    ensures CamRun(c, a + [e]) == Some(c2)
  {
    assert (a + [e])[..|a|] == a;
  }

  lemma {:induction false} CamRunChain(c: Camera, a: seq<Effect>, c1: Camera, b: seq<Effect>, c2: Camera)
    requires CamRun(c, a) == Some(c1) && CamRun(c1, b) == Some(c2)
    ensures CamRun(c, a + b) == Some(c2)
    decreases |b|
  {
    if b == [] {
      assert a + b == a;
    } else {
      var b' := b[..|b| - 1];
      assert (a + b)[..|a + b| - 1] == a + b';
      var c3 :| CamRun(c1, b') == Some(c3);
      CamRunChain(c, a, c1, b', c3);
    }
  }

  /** While it records, the camera accepts any number of saved stills. */
  lemma {:induction false} CamStillSaves(stills: string, names: seq<string>)
    ensures CamRun(Recording, StillSaves(stills, names)) == Some(Recording)
    decreases |names|
  {
    if names != [] {
      var pre := StillSaves(stills, names[..|names| - 1]);
      var e := SaveStill(stills, names[|names| - 1]);
      CamStillSaves(stills, names[..|names| - 1]);
      CamThen(Recording, pre, Recording, e, Recording);
      CamThen(Recording, pre + [e], Recording, Sleep, Recording);
    }
  }

  /** One segment opens the camera, records, and leaves it closed. */
  lemma CamSegment(out: Outputs, segment: string, secs: nat)
    ensures CamRun(Closed, Segment(out, segment, secs)) == Some(Closed)
  {
    var head := [OpenCamera, ConfigureVideo(VideoFrameRate), StartRecording(out.videos, segment, EncoderBitrate)];
    var mid := StillSaves(out.stills, StillNames(segment, secs));
    var tail := [StopRecording, CloseCamera];
    CamThen(Closed, [], Closed, head[0], Opened);
    CamThen(Closed, [head[0]], Opened, head[1], Configured);
    CamThen(Closed, [head[0]] + [head[1]], Configured, head[2], Recording);
    assert [head[0]] + [head[1]] + [head[2]] == head;
    CamStillSaves(out.stills, StillNames(segment, secs));
    CamRunChain(Closed, head, Recording, mid, Recording);
    CamThen(Closed, head + mid, Recording, StopRecording, Opened);
    CamThen(Closed, head + mid + [StopRecording], Opened, CloseCamera, Closed);
    assert head + mid + [StopRecording] + [CloseCamera] == Segment(out, segment, secs);
  }

  /** ... so the segment loop always finds the camera closed, and leaves it
      closed. */
  lemma {:induction false} CamSegments(out: Outputs, names: seq<string>, secs: nat)
    ensures CamRun(Closed, Segments(out, names, secs)) == Some(Closed)
    decreases |names|
  {
    if names != [] {
      CamSegments(out, names[..|names| - 1], secs);
      CamSegment(out, names[|names| - 1], secs);
      CamRunChain(Closed, Segments(out, names[..|names| - 1], secs), Closed, Segment(out, names[|names| - 1], secs), Closed);
    }
  }

  /** One picture opens, starts and closes the camera. */
  lemma CamPicture(out: Outputs, name: string)
    ensures CamRun(Closed, Picture(out, name)) == Some(Closed)
  {
    var p := Picture(out, name);
    CamThen(Closed, [], Closed, p[0], Opened);
    CamThen(Closed, [p[0]], Opened, p[1], Started);
    CamThen(Closed, [p[0]] + [p[1]], Started, p[2], Started);
    CamThen(Closed, [p[0]] + [p[1]] + [p[2]], Started, p[3], Closed);
    CamThen(Closed, [p[0]] + [p[1]] + [p[2]] + [p[3]], Closed, p[4], Closed);
    assert [p[0]] + [p[1]] + [p[2]] + [p[3]] + [p[4]] == p;
  }

  lemma {:induction false} CamPictures(out: Outputs, names: seq<string>)
    ensures CamRun(Closed, Pictures(out, names)) == Some(Closed)
    decreases |names|
  {
    if names != [] {
      CamPictures(out, names[..|names| - 1]);
      CamPicture(out, names[|names| - 1]);
      CamRunChain(Closed, Pictures(out, names[..|names| - 1]), Closed, Picture(out, names[|names| - 1]), Closed);
    }
  }

  /** The transcode sweep runs with the camera closed. */
  lemma {:induction false} CamTranscodes(src: string, dst: string, sel: seq<string>)
    ensures CamRun(Closed, Transcodes(src, dst, sel)) == Some(Closed)
    decreases |sel|
  {
    if sel != [] {
      var ts := Transcodes(src, dst, sel);
      var pre := sel[..|sel| - 1];
      assert ts[..|ts| - 1] == Transcodes(src, dst, pre);
      CamTranscodes(src, dst, pre);
    }
  }

  /** `os.makedirs` does not touch the camera. */
  lemma CamStartup(out: Outputs)
    ensures CamRun(Closed, Startup(out)) == Some(Closed)
  {
    var e1, e2, e3 := MakeDirs(out.videos), MakeDirs(out.compressed), MakeDirs(out.stills);
    assert [] + [e1] == [e1] && [e1] + [e2] == [e1, e2] && [e1, e2] + [e3] == Startup(out);
    CamThen(Closed, [], Closed, e1, Closed);
    CamThen(Closed, [e1], Closed, e2, Closed);
    CamThen(Closed, [e1, e2], Closed, e3, Closed);
  }

  /** Every run of the recorder, whatever its arguments and the disk it
      starts from, uses the camera in the order the camera accepts (open
      before configure, configure before recording, stop before close,
      never opened twice) and ends with the camera closed: the start of the
      script makes the stills directory the segments save into. */
  lemma CamCaptureRun(t: Tree, out: Outputs, date: string, a: Args)
    ensures CamRun(Closed, RunPlan(t, out, date, a)) == Some(Closed)
  {
    var t1 := Apply(t, Startup(out));
    StartupMakesDirs(t, out);
    CamStartup(out);
    CamMain(t1, out, date, a);
    CamRunChain(Closed, Startup(out), Closed, MainPlan(t1, out, date, a), Closed);
  }

  /** `__main__` on a disk that has the stills directory keeps the camera
      protocol and closes the camera. */
  lemma CamMain(t: Tree, out: Outputs, date: string, a: Args)
    requires out.stills in t
    ensures CamRun(Closed, MainPlan(t, out, date, a)) == Some(Closed)
  {
    var s := Defaults(a);
    if s.format == 's' {
      var start := StartIndex(FileNames(t[out.stills]), PictureName(s.recipe, date, 0));
      CamPictures(out, RunNames(s.recipe, date, StillExt, start, Secs(s.recSecs)));
    } else if s.format == 'v' {
      var v := VideoPlan(t, out, s.recipe, date, s.recSecs);
      var c := CompressPlan(Apply(t, v), out);
      assert MainPlan(t, out, date, a) == v + c;
      if out.videos in t {
        var start := StartIndex(FileNames(t[out.videos]), VideoName(s.recipe, date, 0));
        CamSegments(out, RunNames(s.recipe, date, Raw, start, SegmentCount(s.recSecs)), Secs(s.recSecs));
      }
      var t1 := Apply(t, v);
      if out.compressed in t1 && out.videos in t1 {
        CamTranscodes(out.videos, out.compressed, Selected(Names(t1[out.videos]), FileNames(t1[out.compressed])));
      } else {
        assert c == [];
      }
      CamRunChain(Closed, v, Closed, c, Closed);
    }
  }

  /** Called without a stills directory, `record_video` raises on the first
      save: the camera is left recording and the sweep does not run. */
  lemma CamInterrupted(t: Tree, out: Outputs, recipe: string, date: string, recSecs: int)
    requires out.videos in t && out.stills !in t && recSecs >= VideoLength
    ensures CamRun(Closed, VideoRunPlan(t, out, recipe, date, recSecs)) == Some(Recording)
  {
    var start := StartIndex(FileNames(t[out.videos]), VideoName(recipe, date, 0));
    var h := SegmentHead(out, VideoName(recipe, date, start));
    assert VideoRunPlan(t, out, recipe, date, recSecs) == h + [];
    var e1, e2, e3 := OpenCamera, ConfigureVideo(VideoFrameRate), StartRecording(out.videos, VideoName(recipe, date, start), EncoderBitrate);
    assert [] + [e1] == [e1] && [e1] + [e2] == [e1, e2] && [e1, e2] + [e3] == h + [];
    CamThen(Closed, [], Closed, e1, Opened);
    CamThen(Closed, [e1], Opened, e2, Configured);
    CamThen(Closed, [e1, e2], Configured, e3, Recording);
  }
}
