/** The pipeline runner: it resets four asset folders, then runs the six
    pipeline scripts in order, stopping at the first one that fails. */
module PipelineRunner {
  import opened Text

  /** The directories of the working tree: each path with the names of the
      files directly inside it. A directory below another one is a path that
      extends it by "/" and more. */
  type Dirs = map<string, set<string>>

  /** `d` lies strictly below the directory `f`. */
  predicate Below(d: string, f: string)
  {
    f + "/" <= d
  }

  /** `d` is `f` or lies below it. */
  predicate Within(d: string, f: string)
  {
    d == f || Below(d, f)
  }

  /** `f` is a directory with no file and no directory in it. */
  predicate EmptyDir(dirs: Dirs, f: string)
  {
    f in dirs && dirs[f] == {} && forall d :: d in dirs ==> !Below(d, f)
  }

  /** `shutil.rmtree(f)`: `f` and everything below it disappear. */
  function RemoveTree(dirs: Dirs, f: string): (r: Dirs)
    ensures forall d :: d in r <==> d in dirs && !Within(d, f)
    ensures forall d :: d in r ==> r[d] == dirs[d]
  {
    map d | d in dirs && !Within(d, f) :: dirs[d]
  }

  /** `os.makedirs(p, exist_ok=True)`: the missing ancestors of `p`, then
      `p` itself, are created empty; existing directories are left alone. */
  function MakeDirs(dirs: Dirs, p: string): (r: Dirs)
    ensures p in r && (p !in dirs ==> r[p] == {})
    ensures forall d :: d in dirs ==> d in r && r[d] == dirs[d]
    ensures forall d :: d in r && d !in dirs ==> d <= p
    decreases |p|
  {
    var i := RFind(p, '/');
    var up := if i > 0 then MakeDirs(dirs, p[..i]) else dirs;
    assert forall d :: d in up && d !in dirs ==> |d| < |p| && d <= p by {
      if i > 0 {
        forall d | d in up && d !in dirs
          ensures |d| < |p| && d <= p
        {
          assert d <= p[..i];
          assert p[..i] <= p;
        }
      }
    }
    if p in up then up else up[p := {}]
  }

  /** One pass of `clean_assets`: remove the folder if it exists, then
      recreate it. */
  function ResetFolder(dirs: Dirs, f: string): (r: Dirs)
    ensures f in dirs || (forall d :: d in dirs ==> !Below(d, f)) ==> EmptyDir(r, f)
    ensures forall d :: d in dirs && !Within(d, f) ==> d in r && r[d] == dirs[d]
    ensures forall d :: d in r && d !in dirs ==> d <= f
  {
    var cleared := if f in dirs then RemoveTree(dirs, f) else dirs;
    assert forall d :: d in cleared && d !in dirs ==> false;
    var r := MakeDirs(cleared, f);
    assert forall d :: d in r && Below(d, f) ==> d in cleared by {
      forall d | d in r && Below(d, f)
        ensures d in cleared
      {
        assert |f| < |d|;
      }
    }
    r
  }

  /** `clean_assets` over the first folders of `fs`, in order. */
  function Clean(dirs: Dirs, fs: seq<string>): (r: Dirs)
    ensures forall d :: d in dirs && (forall j :: 0 <= j < |fs| ==> !Within(d, fs[j])) ==> d in r && r[d] == dirs[d]
  {
    if fs == [] then dirs else ResetFolder(Clean(dirs, fs[..|fs| - 1]), fs[|fs| - 1])
  }

  /** The folders `clean_assets` resets. */
  const Folders: seq<string> := ["assets/audio", "assets/videos", "assets/subtitles", "assets/images"]

  /** Neither folder is inside the other. */
  predicate Apart(f: string, g: string)
  {
    !Within(f, g) && !Within(g, f)
  }

  /** No folder of the list lies inside another one. */
  predicate Disjoint(fs: seq<string>)
  {
    forall i, j :: 0 <= i < |fs| && 0 <= j < |fs| && i != j ==> Apart(fs[i], fs[j])
  }

  lemma FoldersDisjoint()
    ensures Disjoint(Folders)
  {
    forall i, j | 0 <= i < |Folders| && 0 <= j < |Folders| && i != j
      ensures Apart(Folders[i], Folders[j])
    {
      PrefixesDiffer(Folders[i], Folders[j]);
      PrefixesDiffer(Folders[j], Folders[i]);
    }
  }

  /** Two of the folders differ in their seventh character, or are equal. */
  lemma PrefixesDiffer(f: string, g: string)
    requires f in Folders && g in Folders && f != g
    ensures !Within(f, g)
  {
    assert f[7] != g[7] && (g + "/")[7] == g[7];
  }

  /** A folder reset later leaves an earlier folder, apart from it, as it was:
      an empty directory stays an empty directory. */
  lemma ResetKeepsEmpty(dirs: Dirs, f: string, g: string)
    requires EmptyDir(dirs, f) && Apart(f, g)
    ensures EmptyDir(ResetFolder(dirs, g), f)
  {
    var r := ResetFolder(dirs, g);
    forall d | d in r
      ensures !Below(d, f)
    {
      if d !in dirs {
        PrefixTransitive(f + "/", d, g);
      }
    }
  }

  lemma PrefixTransitive(a: string, b: string, c: string)
    ensures a <= b && b <= c ==> a <= c
  {
    if a <= b && b <= c {
      assert c[..|a|] == c[..|b|][..|a|];
    }
  }

  /** Nothing lies below `f`. */
  predicate Unborn(dirs: Dirs, f: string)
  {
    forall d :: d in dirs ==> !Below(d, f)
  }

  /** Nothing below a folder means nothing below it once another folder,
      apart from it, is reset. */
  lemma ResetKeepsUnborn(dirs: Dirs, f: string, g: string)
    requires Unborn(dirs, f) && Apart(f, g)
    ensures Unborn(ResetFolder(dirs, g), f)
  {
    var r := ResetFolder(dirs, g);
    forall d | d in r
      ensures !Below(d, f)
    {
      if d !in dirs {
        PrefixTransitive(f + "/", d, g);
      }
    }
  }

  /** ... and once any list of folders apart from it is reset. */
  lemma {:induction false} CleanUnborn(dirs: Dirs, fs: seq<string>, f: string)
    requires Unborn(dirs, f) && forall j :: 0 <= j < |fs| ==> Apart(f, fs[j])
    ensures Unborn(Clean(dirs, fs), f)
  {
    if fs != [] {
      var init := fs[..|fs| - 1];
      assert forall j :: 0 <= j < |init| ==> init[j] == fs[j];
      CleanUnborn(dirs, init, f);
      ResetKeepsUnborn(Clean(dirs, init), f, fs[|fs| - 1]);
    }
  }

  /** After the resets of `fs`, every folder of `fs` exists and is empty,
      given that the file system had nothing below a folder that did not
      exist. */
  lemma {:induction false} CleanEmpties(dirs: Dirs, fs: seq<string>)
    requires Disjoint(fs)
    requires forall j :: 0 <= j < |fs| ==> fs[j] in dirs || Unborn(dirs, fs[j])
    ensures forall j :: 0 <= j < |fs| ==> EmptyDir(Clean(dirs, fs), fs[j])
    decreases |fs|
  {
    if fs != [] {
      var n := |fs| - 1;
      var init := fs[..n];
      DisjointInit(fs);
      assert forall j :: 0 <= j < |init| ==> init[j] in dirs || Unborn(dirs, init[j]);
      CleanEmpties(dirs, init);
      LastFolderReady(dirs, fs);
      var g := fs[n];
      forall j | 0 <= j < n
        ensures Apart(init[j], g)
      {
        assert init[j] == fs[j];
      }
      LastReset(Clean(dirs, init), init, g);
      assert forall j :: 0 <= j < n ==> init[j] == fs[j];
    }
  }

  /** The folders before the last one are disjoint too. */
  lemma DisjointInit(fs: seq<string>)
    requires fs != [] && Disjoint(fs)
    ensures Disjoint(fs[..|fs| - 1])
  {
    var init := fs[..|fs| - 1];
    forall i, j | 0 <= i < |init| && 0 <= j < |init| && i != j
      ensures Apart(init[i], init[j])
    {
      assert init[i] == fs[i] && init[j] == fs[j];
    }
  }

  /** The earlier resets leave the last folder existing or with nothing
      below it. */
  lemma LastFolderReady(dirs: Dirs, fs: seq<string>)
    requires fs != [] && Disjoint(fs)
    requires fs[|fs| - 1] in dirs || Unborn(dirs, fs[|fs| - 1])
    ensures var g := fs[|fs| - 1]; g in Clean(dirs, fs[..|fs| - 1]) || Unborn(Clean(dirs, fs[..|fs| - 1]), g)
  {
    var n := |fs| - 1;
    var init, g := fs[..n], fs[n];
    forall j | 0 <= j < |init|
      ensures Apart(g, init[j])
    {
      assert init[j] == fs[j] && Apart(fs[j], fs[n]);
    }
    if g in dirs {
      assert forall j :: 0 <= j < |init| ==> !Within(g, init[j]);
    } else {
      CleanUnborn(dirs, init, g);
    }
  }

  /** Resetting one more folder empties it and keeps the earlier ones empty. */
  lemma LastReset(before: Dirs, init: seq<string>, g: string)
    requires g in before || Unborn(before, g)
    requires forall j :: 0 <= j < |init| ==> EmptyDir(before, init[j]) && Apart(init[j], g)
    ensures EmptyDir(ResetFolder(before, g), g)
    ensures forall j :: 0 <= j < |init| ==> EmptyDir(ResetFolder(before, g), init[j])
  {
    forall j | 0 <= j < |init|
      ensures EmptyDir(ResetFolder(before, g), init[j])
    {
      ResetKeepsEmpty(before, init[j], g);
    }
  }

  /** After `clean_assets` each of the four folders exists and is empty, and
      every directory outside them is as it was. The one assumption is what a
      file system guarantees: nothing lies below a folder that does not
      exist. */
  lemma CleanAssetsEmpties(dirs: Dirs)
    requires forall f :: f in Folders ==> f in dirs || Unborn(dirs, f)
    ensures forall f :: f in Folders ==> EmptyDir(Clean(dirs, Folders), f)
    ensures forall d :: d in dirs && (forall f :: f in Folders ==> !Within(d, f)) ==>
      d in Clean(dirs, Folders) && Clean(dirs, Folders)[d] == dirs[d]
  {
    FoldersDisjoint();
    CleanEmpties(dirs, Folders);
  }

  /** Resetting one more folder. */
  lemma CleanStep(dirs: Dirs, fs: seq<string>, i: nat)
    requires i < |fs|
    ensures Clean(dirs, fs[..i + 1]) == ResetFolder(Clean(dirs, fs[..i]), fs[i])
  {
    assert fs[..i + 1][..i] == fs[..i];
  }

  /** A pipeline step: what it prints, and the script it runs. */
  datatype Stage = Stage(name: string, script: string)

  /** `steps`, in the order they run. */
  const Steps: seq<Stage> := [
    Stage("Generating AI content", "script_caption_hashtags_ollama.py"),
    Stage("Reviewing content", "review_and_confirm.py"),
    Stage("Creating Microsoft voiceover", "voiceover_ms.py"),
    Stage("Downloading images", "image_downloader.py"),
    Stage("Making slideshow video", "video_creator_advanced.py"),
    Stage("Uploading to YouTube", "youtube_uploader.py")
  ]

  /** The return code of the `i`-th script the runner starts. */
  type Exec = nat -> int

  /** The first step from `i` on whose script returns a non-zero code, or
      `|steps|` when none does. */
  function FirstFailure(steps: seq<Stage>, exec: Exec, i: nat): (k: nat)
    requires i <= |steps|
    ensures i <= k <= |steps|
    ensures forall j :: i <= j < k ==> exec(j) == 0
    ensures k < |steps| ==> exec(k) != 0
    decreases |steps| - i
  {
    if i == |steps| || exec(i) != 0 then i else FirstFailure(steps, exec, i + 1)
  }

  /** How the run ends: the exit code, the steps started, and whether the
      completion message was reached. */
  datatype Outcome = Outcome(code: int, started: seq<Stage>, completed: bool)

  /** The run of `steps`: they start in order until one fails; its code is
      the code of the run. */
  function Expected(steps: seq<Stage>, exec: Exec): (r: Outcome)
  {
    var k := FirstFailure(steps, exec, 0);
    if k < |steps| then Outcome(exec(k), steps[..k + 1], false) else Outcome(0, steps, true)
  }

  /** The first failure is the one index that returns non-zero after a run
      of zeros. */
  lemma {:induction false} FirstFailureIs(steps: seq<Stage>, exec: Exec, i: nat, k: nat)
    requires i <= k <= |steps|
    requires forall j :: i <= j < k ==> exec(j) == 0
    requires k < |steps| ==> exec(k) != 0
    ensures FirstFailure(steps, exec, i) == k
    decreases k - i
  {
    if i < k {
      FirstFailureIs(steps, exec, i + 1, k);
    }
  }

  /** The run as an exit code: the completion message is reached exactly when
      every script returns 0, and then the code is 0; otherwise the code is
      the first non-zero one, which is not 0. */
  lemma ExpectedCode(steps: seq<Stage>, exec: Exec)
    ensures Expected(steps, exec).completed <==> forall j :: 0 <= j < |steps| ==> exec(j) == 0
    ensures Expected(steps, exec).completed ==> Expected(steps, exec).code == 0
    ensures !Expected(steps, exec).completed <==> Expected(steps, exec).code != 0
  {
  }

  /** Steps start in the listed order, each one only once every step before
      it has returned 0, and no step starts after one that failed. */
  lemma ExpectedOrder(steps: seq<Stage>, exec: Exec)
    ensures var r := Expected(steps, exec);
      r.started <= steps
      && (forall j :: 0 <= j < |r.started| - 1 ==> exec(j) == 0)
      && (!r.completed ==> r.started != [] && exec(|r.started| - 1) == r.code)
  {
  }

  /** The loop over `steps` calling `run_step`: each step that returns 0 lets the
      next one start. */
  method RunSteps(exec: Exec) returns (code: int, started: seq<Stage>, completed: bool)
    ensures Outcome(code, started, completed) == Expected(Steps, exec)
  {
    started := [];
    for i := 0 to |Steps|
      invariant started == Steps[..i]
      invariant forall j :: 0 <= j < i ==> exec(j) == 0
    {
      started := started + [Steps[i]];
      var result := exec(i);
      if result != 0 {
        FirstFailureIs(Steps, exec, 0, i);
        return result, started, false;
      }
    }
    FirstFailureIs(Steps, exec, 0, |Steps|);
    return 0, Steps, true;
  }

  /** What `sys.exit(n)` leaves as the process status on POSIX: `n & 0xFF`,
      so a child killed by a signal (a negative return code) still makes
      the runner fail. */
  function ExitStatus(code: int): (s: int)
    ensures 0 <= s < 256
    ensures 0 <= code < 256 ==> s == code
    ensures s == 0 <==> code % 256 == 0
  {
    code % 256
  }

  /** With every return code a byte or a negated signal number, as a child
      process reports it, the runner's process status is 0 exactly when every
      step completed. */
  lemma ExitStatusOfRun(steps: seq<Stage>, exec: Exec)
    requires forall j :: 0 <= j < |steps| ==> -255 <= exec(j) <= 255
    ensures ExitStatus(Expected(steps, exec).code) == 0 <==> Expected(steps, exec).completed
  {
    var k := FirstFailure(steps, exec, 0);
    if k < |steps| {
      var c := exec(k);
      assert c != 0 && -255 <= c <= 255;
      assert c % 256 != 0 by {
        if c > 0 {
          assert c % 256 == c;
        } else {
          assert c % 256 == c + 256;
        }
      }
    }
  }

  /** The workspace the runner works in. */
  class Workspace {
    var dirs: Dirs

    constructor(dirs: Dirs)
      ensures this.dirs == dirs
    {
      this.dirs := dirs;
    }

    /** `clean_assets`. */
    method CleanAssets()
      modifies this
      ensures dirs == Clean(old(dirs), Folders)
    {
      for i := 0 to |Folders|
        invariant dirs == Clean(old(dirs), Folders[..i])
      {
        var f := Folders[i];
        if f in dirs {
          dirs := RemoveTree(dirs, f);
        }
        dirs := MakeDirs(dirs, f);
        CleanStep(old(dirs), Folders, i);
      }
      assert Folders[..|Folders|] == Folders;
    }
  }

  /** The runner script: the workspace reset runs at import time, before any
      step, and the steps follow. */
  method RunPipeline(ws: Workspace, exec: Exec) returns (code: int, status: int, started: seq<Stage>, completed: bool)
    modifies ws
    ensures ws.dirs == Clean(old(ws.dirs), Folders)
    ensures Outcome(code, started, completed) == Expected(Steps, exec)
    ensures status == ExitStatus(code)
    ensures (forall j :: 0 <= j < |Steps| ==> -255 <= exec(j) <= 255) ==> (status == 0 <==> completed)
  {
    ws.CleanAssets();
    code, started, completed := RunSteps(exec);
    status := ExitStatus(code);
    if forall j :: 0 <= j < |Steps| ==> -255 <= exec(j) <= 255 {
      ExitStatusOfRun(Steps, exec);
    }
  }
}
