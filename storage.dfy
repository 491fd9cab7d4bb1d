/** The filesystem namespace that both scripts use as their only state, and
    the log of external effects (camera calls, ffmpeg runs, OpenCV writes,
    directory creation) that changes it.

    A directory is named by its path string and holds a listing, in the
    order `os.listdir` returns it. A file is named by the pair (directory,
    entry name); how the scripts glue the two together (`+`, `"/"` or
    `os.path.join`) is not modelled. */
module Storage {
  import opened Strings

  datatype Option<T> = None | Some(value: T)

  /** One entry of a directory listing. */
  datatype Entry = File(name: string) | Folder(name: string)

  /** Directory path -> its entries in listing order. */
  type Tree = map<string, seq<Entry>>

  /** `os.listdir`: the names of all entries, files and directories alike. */
  function Names(es: seq<Entry>): seq<string>
  {
    seq(|es|, i requires 0 <= i < |es| => es[i].name)
  }

  /** `[f for f in os.listdir(d) if os.path.isfile(os.path.join(d, f))]`:
      the names of the plain files, in listing order. */
  function FileNames(es: seq<Entry>): (ns: seq<string>)
    ensures forall n :: n in ns <==> File(n) in es
  {
    if es == [] then []
    else FileNames(es[..|es| - 1]) + (if es[|es| - 1].File? then [es[|es| - 1].name] else [])
  }

  /** The effects the scripts have on the outside world, in the order they
      happen. */
  datatype Effect =
    | OpenCamera                                        // `Picamera2()`
    | ConfigureVideo(frameRate: nat)                    // `create_video_configuration` + `configure`
    | StartRecording(dir: string, name: string, bitrate: nat)
                                                        // `H264Encoder(bitrate)` + `start_recording`
    | SaveStill(dir: string, name: string)              // `capture_request`, `save("main", …)`, `release`
    | Sleep                                             // `time.sleep(1)`
    | StopRecording
    | StartCamera                                       // `picam.start()`
    | CaptureFile(dir: string, name: string)            // `picam.capture_file`
    | CloseCamera
    | Transcode(srcDir: string, srcName: string, dir: string, name: string)
                                                        // `ffmpeg -i src -c:v libx264 -c:a copy -crf 20 dst`
    | MakeDirs(path: string)                            // `os.makedirs(path, exist_ok=True)`
    | Touch(dir: string, name: string)                  // `open(dir + "/" + name, 'a').close()`
    | ImWrite(dir: string, name: string, frame: nat)    // `cv2.imwrite(dir + "/" + name, frame)`

  /** The file an effect writes, if any. ffmpeg is taken to produce its
      output (its exit status is never looked at). */
  function Written(e: Effect): Option<(string, string)>
  {
    match e
    case StartRecording(d, n, _) => Some((d, n))
    case SaveStill(d, n) => Some((d, n))
    case CaptureFile(d, n) => Some((d, n))
    case Transcode(_, _, d, n) => Some((d, n))
    case Touch(d, n) => Some((d, n))
    case ImWrite(d, n, _) => Some((d, n))
    case _ => None
  }

  /** Writing `name` into `dir`: a new name is appended to the listing; an
      existing name (overwritten) and a missing directory leave the tree as
      it was. */
  function Create(t: Tree, dir: string, name: string): (t': Tree)
    ensures t'.Keys == t.Keys
    ensures dir in t ==> name in Names(t'[dir])
    ensures forall d :: d in t && d != dir ==> t'[d] == t[d]
  {
    if dir in t && name !in Names(t[dir]) then
      var l := t[dir] + [File(name)];
      assert Names(l)[|l| - 1] == name;
      t[dir := l]
    else t
  }

  /** The index of the last '/' of `p`, if there is one. */
  function LastSlash(p: string): (r: Option<nat>)
    ensures r.Some? ==> r.value < |p| && p[r.value] == '/' && forall k :: r.value < k < |p| ==> p[k] != '/'
    ensures r.None? ==> forall k :: 0 <= k < |p| ==> p[k] != '/'
    decreases |p|
  {
    if p == [] then None
    else if p[|p| - 1] == '/' then Some(|p| - 1)
    else LastSlash(p[..|p| - 1])
  }

  /** `os.path.split` of a path that names an entry: the parent directory
      and the last component, cut at the last '/'. A path without '/' or
      ending in '/' is not split. */
  function Split(p: string): (r: Option<(string, string)>)
    ensures r.Some? ==> p == r.value.0 + "/" + r.value.1
    ensures r.Some? ==> r.value.1 != [] && forall k :: 0 <= k < |r.value.1| ==> r.value.1[k] != '/'
  {
    match LastSlash(p)
    case None => None
    case Some(i) =>
      if i + 1 == |p| then None
      else
        assert p == p[..i] + "/" + p[i + 1..];
        Some((p[..i], p[i + 1..]))
  }

  /** Splitting a joined path gives back its two halves. */
  lemma {:induction false} SplitJoin(q: string, b: string)
    requires b != [] && forall k :: 0 <= k < |b| ==> b[k] != '/'
    ensures Split(q + "/" + b) == Some((q, b))
  {
    var p := q + "/" + b;
    assert p[|q|] == '/';
    assert forall k :: |q| < k < |p| ==> p[k] == b[k - |q| - 1];
    var i := LastSlash(p).value;
    assert p[..|q|] == q && p[|q| + 1..] == b;
  }

  /** The directory whose listing gets the entry of `p`. */
  function ParentOf(p: string): Option<string>
  {
    match Split(p)
    case None => None
    case Some((q, _)) => Some(q)
  }

  /** `os.makedirs(p, exist_ok=True)`: a missing directory is added empty,
      and listed as a sub-directory of its parent when the parent exists. */
  function MakeDir(t: Tree, p: string): (t': Tree)
    ensures t'.Keys == t.Keys + {p}
    ensures p !in t ==> t'[p] == []
    ensures forall d :: d in t && (p in t || ParentOf(p) != Some(d)) ==> t'[d] == t[d]
    ensures forall d :: d in t ==> t'[d] == t[d] || (Split(p).Some? && d == Split(p).value.0 && t'[d] == t[d] + [Folder(Split(p).value.1)])
    ensures p !in t && Split(p).Some? && Split(p).value.0 in t ==>
      var (q, b) := Split(p).value;
      b in Names(t'[q]) && (b !in Names(t[q]) ==> t'[q] == t[q] + [Folder(b)])
  {
    if p in t then t
    else
      var t1 := t[p := []];
      match Split(p)
      case None => t1
      case Some((q, b)) =>
        if q in t && b !in Names(t[q]) then
          var l := t[q] + [Folder(b)];
          assert Names(l)[|l| - 1] == b;
          t1[q := l]
        else t1
  }

  /** The existing directory whose listing an effect can extend: the one it
      writes into, or the parent of the directory it creates. */
  function Changed(e: Effect): Option<string>
  {
    if e.MakeDirs? then ParentOf(e.path)
    else match Written(e)
      case Some((d, _)) => Some(d)
      case None => None
  }

  /** What one effect does to the tree. */
  function Step(t: Tree, e: Effect): Tree
  {
    if e.MakeDirs? then MakeDir(t, e.path)
    else match Written(e)
      case Some((d, n)) => Create(t, d, n)
      case None => t
  }

  /** Only `os.makedirs` adds a directory. */
  lemma StepKeys(t: Tree, e: Effect)
    requires !e.MakeDirs?
    ensures Step(t, e).Keys == t.Keys
  {
  }

  /** The tree after a sequence of effects. */
  function Apply(t: Tree, es: seq<Effect>): Tree
    decreases |es|
  {
    if es == [] then t else Step(Apply(t, es[..|es| - 1]), es[|es| - 1])
  }

  lemma {:induction false} ApplyConcat(t: Tree, a: seq<Effect>, b: seq<Effect>)
    ensures Apply(t, a + b) == Apply(Apply(t, a), b)
    decreases |b|
  {
    if b == [] {
      assert a + b == a;
    } else {
      var b' := b[..|b| - 1];
      assert (a + b)[..|a + b| - 1] == a + b';
      ApplyConcat(t, a, b');
    }
  }

  /** `t'` extends `t`: no directory disappears and every listing only
      gains entries at its end. */
  ghost predicate Grows(t: Tree, t': Tree)
  {
    forall d :: d in t ==> d in t' && t[d] <= t'[d]
  }

  /** No effect removes a directory or an entry. */
  lemma {:induction false} ApplyGrows(t: Tree, es: seq<Effect>)
    ensures Grows(t, Apply(t, es))
    decreases |es|
  {
    if es != [] {
      ApplyGrows(t, es[..|es| - 1]);
      StepGrows(Apply(t, es[..|es| - 1]), es[|es| - 1]);
    }
  }

  lemma StepGrows(t: Tree, e: Effect)
    ensures Grows(t, Step(t, e))
  {
  }

  /** Once written into an existing directory, a name stays listed there. */
  lemma {:induction false} ApplyKeepsWritten(t: Tree, es: seq<Effect>, i: nat, dir: string, name: string)
    requires i < |es| && Written(es[i]) == Some((dir, name))
    requires dir in t
    ensures dir in Apply(t, es) && name in Names(Apply(t, es)[dir])
    decreases |es|
  {
    var pre := es[..|es| - 1];
    ApplyGrows(t, pre);
    if i < |es| - 1 {
      ApplyKeepsWritten(t, pre, i, dir, name);
      StepGrows(Apply(t, pre), es[|es| - 1]);
      var u, u' := Apply(t, pre)[dir], Apply(t, es)[dir];
      assert u <= u';
      assert name in Names(u);
      var k :| 0 <= k < |u| && u[k].name == name;
      assert Names(u')[k] == u'[k].name == name;
    } else {
      assert !es[i].MakeDirs?;
      assert Apply(t, es) == Create(Apply(t, pre), dir, name);
    }
  }

  /** Effects that neither write into an existing directory `d` nor create
      a directory inside it leave its listing as it was. */
  lemma {:induction false} ApplyUntouched(t: Tree, es: seq<Effect>, d: string)
    requires d in t
    requires forall i :: 0 <= i < |es| ==> Changed(es[i]) != Some(d)
    ensures d in Apply(t, es) && Apply(t, es)[d] == t[d]
    decreases |es|
  {
    if es != [] {
      ApplyUntouched(t, es[..|es| - 1], d);
    }
  }

  /** A directory that holds plain files only keeps holding plain files
      only while no directory is created inside it: every write creates a
      plain file. */
  lemma {:induction false} ApplyKeepsFilesOnly(t: Tree, es: seq<Effect>, d: string)
    requires d in t && forall n :: Folder(n) !in t[d]
    requires forall i :: 0 <= i < |es| ==> es[i].MakeDirs? ==> Changed(es[i]) != Some(d)
    ensures d in Apply(t, es) && forall n :: Folder(n) !in Apply(t, es)[d]
    decreases |es|
  {
    if es != [] {
      ApplyKeepsFilesOnly(t, es[..|es| - 1], d);
    }
  }

  /** The disk and the effect log. Every change to the disk goes through
      `Perform`, so the tree is always the tree the volume started from
      with the logged effects applied. */
  class Volume {
    var tree: Tree
    var effects: seq<Effect>
    /** The tree before the first logged effect. */
    ghost var origin: Tree

    ghost predicate Valid()
      reads this
    {
      tree == Apply(origin, effects)
    }

    constructor (t: Tree)
      ensures Valid() && origin == t && tree == t && effects == []
    {
      tree := t;
      effects := [];
      origin := t;
    }

    method Perform(e: Effect)
      requires Valid()
      modifies this
      ensures Valid() && origin == old(origin)
      ensures effects == old(effects) + [e] && tree == Step(old(tree), e)
    {
      tree := Step(tree, e);
      effects := effects + [e];
      assert (old(effects) + [e])[..|old(effects)|] == old(effects);
    }
  }
}
