/** The selection rule both scripts use to decide which raw `.h264`
    recordings still need an `.mp4` transcode: `compress_video` in
    data_capture.py and `compress_h264_videos` in video_to_still.py. The two
    differ only in the snapshot of already compressed names they test
    against. */
module Sweep {
  import opened Strings
  import opened Storage

  const Raw := ".h264"
  const Compressed := ".mp4"

  /** `filename.replace(".h264", ".mp4")` */
  function Mp4Name(f: string): string
  {
    ReplaceAll(f, Raw, Compressed)
  }

  /** The names of `listing`, in listing order, that end in `.h264` and
      whose `.mp4` name is not in the snapshot `done`. */
  function Selected(listing: seq<string>, done: seq<string>): seq<string>
    decreases |listing|
  {
    if listing == [] then []
    else
      var f := listing[|listing| - 1];
      Selected(listing[..|listing| - 1], done)
      + (if EndsWith(f, Raw) && Mp4Name(f) !in done then [f] else [])
  }

  /** `[f for f in names if f.endswith(".mp4")]` */
  function Mp4s(names: seq<string>): (r: seq<string>)
    ensures forall f :: f in r <==> f in names && EndsWith(f, Compressed)
    decreases |names|
  {
    if names == [] then []
    else
      var f := names[|names| - 1];
      Mp4s(names[..|names| - 1]) + (if EndsWith(f, Compressed) then [f] else [])
  }

  /** One ffmpeg run per selected name, in order, from `srcDir` into
      `dstDir` under the `.mp4` name. */
  function Transcodes(srcDir: string, dstDir: string, sel: seq<string>): seq<Effect>
  {
    seq(|sel|, i requires 0 <= i < |sel| => Transcode(srcDir, sel[i], dstDir, Mp4Name(sel[i])))
  }

  /** The outputs of a selection: `.mp4` names in the same order. */
  function Mp4Names(sel: seq<string>): seq<string>
  {
    seq(|sel|, i requires 0 <= i < |sel| => Mp4Name(sel[i]))
  }

  /** One more listed name extends the transcodes by its own, when it is
      selected. */
  lemma TranscodesStep(pre: seq<Effect>, src: string, dst: string, listing: seq<string>, k: nat, done: seq<string>)
    requires k < |listing|
    ensures var f := listing[k];
      pre + Transcodes(src, dst, Selected(listing[..k + 1], done))
      == if EndsWith(f, Raw) && Mp4Name(f) !in done
         then pre + Transcodes(src, dst, Selected(listing[..k], done)) + [Transcode(src, f, dst, Mp4Name(f))]
         else pre + Transcodes(src, dst, Selected(listing[..k], done))
  {
    assert listing[..k + 1][..k] == listing[..k];
  }

  /** Exactly the `.h264` names whose output is not yet done are selected;
      nothing else ever is. */
  lemma {:induction false} SelectedExactly(listing: seq<string>, done: seq<string>, f: string)
    ensures f in Selected(listing, done) <==> f in listing && EndsWith(f, Raw) && Mp4Name(f) !in done
    decreases |listing|
  {
    if listing != [] {
      var pre := listing[..|listing| - 1];
      SelectedExactly(pre, done, f);
      assert listing == pre + [listing[|listing| - 1]];
    }
  }

  /** Selection distributes over concatenated listings, so it keeps the
      listing's order. */
  lemma {:induction false} SelectedConcat(a: seq<string>, b: seq<string>, done: seq<string>)
    ensures Selected(a + b, done) == Selected(a, done) + Selected(b, done)
    decreases |b|
  {
    if b == [] {
      assert a + b == a;
    } else {
      var b' := b[..|b| - 1];
      assert (a + b)[..|a + b| - 1] == a + b';
      SelectedConcat(a, b', done);
    }
  }

  /** Once every output of a sweep is in the snapshot, next to everything
      that was there before, a second sweep selects nothing. */
  lemma {:induction false} SecondSweepSelectsNothing(listing: seq<string>, done: seq<string>, done': seq<string>)
    requires forall g :: g in done ==> g in done'
    requires forall g :: g in Mp4Names(Selected(listing, done)) ==> g in done'
    ensures Selected(listing, done') == []
    decreases |listing|
  {
    if listing != [] {
      var pre, f := listing[..|listing| - 1], listing[|listing| - 1];
      var sel := Selected(listing, done);
      var sp := Selected(pre, done);
      assert sp <= sel;
      forall g | g in Mp4Names(sp) ensures g in Mp4Names(sel) {
        var i :| 0 <= i < |sp| && Mp4Names(sp)[i] == g;
        assert Mp4Names(sel)[i] == g;
      }
      SecondSweepSelectsNothing(pre, done, done');
      if EndsWith(f, Raw) && Mp4Name(f) !in done {
        assert Mp4Names(sel)[|sel| - 1] == Mp4Name(f);
      }
      assert !(EndsWith(f, Raw) && Mp4Name(f) !in done');
    }
  }

  /** The output name of a `.h264` recording ends in `.mp4`. */
  lemma Mp4NameEnds(f: string)
    requires EndsWith(f, Raw)
    ensures EndsWith(Mp4Name(f), Compressed)
  {
    ReplaceKeepsSuffix(f, Raw, Compressed);
  }

  /** No name ends in both extensions. */
  lemma RawIsNotCompressed(f: string)
    ensures EndsWith(f, Compressed) ==> !EndsWith(f, Raw)
  {
    if EndsWith(f, Compressed) {
      assert f[|f| - 3] == f[|f| - |Compressed|..][1] == 'm';
      assert Raw[2] == '2';
    }
  }

  /** Only raw recordings are ever handed to ffmpeg: a listed `.mp4` (an
      earlier transcode sitting next to its source, say) is never selected
      again. */
  lemma SelectedAreRaw(listing: seq<string>, done: seq<string>, f: string)
    requires f in Selected(listing, done)
    ensures f in listing && EndsWith(f, Raw) && !EndsWith(f, Compressed)
  {
    SelectedExactly(listing, done, f);
    RawIsNotCompressed(f);
  }
}
