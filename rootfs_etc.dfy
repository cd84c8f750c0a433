/**
 * create_etc_files (sources/utils/create.py): for each entry of the /etc
 * table in order, make its directory, write its content, and make it
 * executable when its name is "rcS" or ends in ".sh".
 */
module RootfsEtc {
  import opened Wrappers
  import opened FsTree
  import opened RootfsLayout
  import Paths

  /** One turn of the /etc loop. */
  function EtcStep(t: Tree, key: string, content: string, dirMode: Mode, fileMode: Mode): Result<Tree, FsError> {
    var target := EtcTarget(key);
    match MakeDirs(t, Paths.Parent(target), dirMode)
    case Err(e) => Err(e)
    case Ok(t1) =>
      match WriteText(t1, target, content, fileMode)
      case Err(e) => Err(e)
      case Ok(t2) => Ok(if IsScriptName(Paths.Name(target)) then Chmod(t2, target, M0755) else t2)
  }

  /** The /etc loop over the given entries; the first failure ends it. */
  function EtcEach(t: Tree, files: seq<(string, string)>, dirMode: Mode, fileMode: Mode): Result<Tree, FsError>
    decreases |files|
  {
    if files == [] then Ok(t)
    else match EtcEach(t, files[..|files| - 1], dirMode, fileMode)
      case Err(e) => Err(e)
      case Ok(t1) => EtcStep(t1, files[|files| - 1].0, files[|files| - 1].1, dirMode, fileMode)
  }

  /** The whole of create_etc_files under the default directory and file modes. */
  function EtcFilesWritten(t: Tree, dirMode: Mode, fileMode: Mode): Result<Tree, FsError> {
    EtcEach(t, EtcFiles, dirMode, fileMode)
  }

  /** A failure ends the /etc loop: the entries after it are not written. */
  lemma {:induction false} EtcEachStops(t: Tree, files: seq<(string, string)>, k: nat, dirMode: Mode, fileMode: Mode)
    requires k <= |files| && EtcEach(t, files[..k], dirMode, fileMode).Err?
    ensures EtcEach(t, files, dirMode, fileMode) == EtcEach(t, files[..k], dirMode, fileMode)
    decreases |files|
  {
    if k < |files| {
      var init := files[..|files| - 1];
      assert init[..k] == files[..k];
      EtcEachStops(t, init, k, dirMode, fileMode);
    } else {
      assert files[..k] == files;
    }
  }

  function Targets(files: seq<(string, string)>): set<string> {
    set f | f in files :: EtcTarget(f.0)
  }

  /**
   * The mode an /etc file has after its turn: 0755 when its name says it is
   * a script; otherwise the mode it already had (write_text keeps it), or
   * the default file mode when it is new.
   */
  function WrittenMode(t: Tree, target: string, fileMode: Mode): Mode {
    if IsScriptName(Paths.Name(target)) then M0755
    else if target in t then t[target].mode
    else fileMode
  }

  /** An /etc file as the loop leaves it over the tree t it started from. */
  predicate WrittenAs(t: Tree, r: Tree, target: string, content: string, fileMode: Mode) {
    target in r && r[target] == Node(Regular(content), WrittenMode(t, target, fileMode))
  }

  /**
   * One turn: it succeeds only over a target that is not a directory,
   * replaces the target's content (keeping an existing file's mode unless
   * the name marks a script), and touches nothing else already there.
   */
  lemma EtcStepFacts(t: Tree, key: string, content: string, dirMode: Mode, fileMode: Mode)
    ensures var r := EtcStep(t, key, content, dirMode, fileMode);
      r.Ok? ==>
        && !IsDir(t, EtcTarget(key))
        && WrittenAs(t, r.value, EtcTarget(key), content, fileMode)
        && (forall q :: q in t && q != EtcTarget(key) ==> q in r.value && r.value[q] == t[q])
        && (forall q :: q in r.value ==> q in t || IsDir(r.value, q) || q == EtcTarget(key))
  {
    var target := EtcTarget(key);
    var parent := Paths.Parent(target);
    assert |parent| < |target|;
    var r := EtcStep(t, key, content, dirMode, fileMode);
    if r.Ok? {
      var t1 := MakeDirs(t, parent, dirMode).value;
      assert target !in Paths.Ancestry(parent);
      assert target in t1 <==> target in t;
      assert target in t ==> t1[target] == t[target];
      var t2 := WriteText(t1, target, content, fileMode).value;
      assert r.value == if IsScriptName(Paths.Name(target)) then Chmod(t2, target, M0755) else t2;
      forall q | q in t && q != target
        ensures q in r.value && r.value[q] == t[q]
      {
        assert t1[q] == t[q];
      }
      forall q | q in r.value
        ensures q in t || IsDir(r.value, q) || q == target
      {
        if q !in t && q != target {
          assert q in Paths.Ancestry(parent) && IsDir(t1, q);
        }
      }
    }
  }

  /** The targets of a non-empty list: those of all but the last entry, and the last one's. */
  lemma TargetsSplit(files: seq<(string, string)>)
    requires files != []
    requires forall i, j :: 0 <= i < j < |files| ==> EtcTarget(files[i].0) != EtcTarget(files[j].0)
    ensures var init := files[..|files| - 1]; var target := EtcTarget(files[|files| - 1].0);
      && Targets(files) == Targets(init) + {target}
      && target !in Targets(init)
  {
    var init := files[..|files| - 1];
    var target := EtcTarget(files[|files| - 1].0);
    assert files == init + [files[|files| - 1]];
    forall f | f in init
      ensures EtcTarget(f.0) != target
    {
      var i :| 0 <= i < |init| && init[i] == f;
      assert files[i] == f;
    }
  }

  /**
   * What the loop keeps true while it runs: every target so far is written,
   * every other node that was there is unchanged, and every new node is a
   * directory or a target.
   */
  predicate EtcInvariant(t: Tree, r: Tree, files: seq<(string, string)>, fileMode: Mode) {
    && (forall q :: q in t && q !in Targets(files) ==> q in r && r[q] == t[q])
    && (forall i :: 0 <= i < |files| ==> WrittenAs(t, r, EtcTarget(files[i].0), files[i].1, fileMode))
    && (forall q :: q in r ==> q in t || IsDir(r, q) || q in Targets(files))
  }

  /** One more turn keeps the invariant. */
  lemma EtcInvariantStep(t: Tree, r0: Tree, files: seq<(string, string)>, dirMode: Mode, fileMode: Mode)
    requires files != []
    requires forall i, j :: 0 <= i < j < |files| ==> EtcTarget(files[i].0) != EtcTarget(files[j].0)
    requires EtcInvariant(t, r0, files[..|files| - 1], fileMode)
    ensures var r := EtcStep(r0, files[|files| - 1].0, files[|files| - 1].1, dirMode, fileMode);
      r.Ok? ==> EtcInvariant(t, r.value, files, fileMode)
  {
    var init := files[..|files| - 1];
    var last := files[|files| - 1];
    var target := EtcTarget(last.0);
    TargetsSplit(files);
    EtcStepFacts(r0, last.0, last.1, dirMode, fileMode);
    var r := EtcStep(r0, last.0, last.1, dirMode, fileMode);
    if r.Ok? {
      StepModeAgrees(t, r0, Targets(init), target, fileMode);
      StepKeepsOld(t, r0, r.value, Targets(init), target);
      forall i | 0 <= i < |files| - 1
        ensures WrittenAs(t, r0, EtcTarget(files[i].0), files[i].1, fileMode)
      {
        assert files[i] == init[i];
      }
      StepKeepsWritten(t, r0, r.value, files, fileMode);
      StepAddsOnly(t, r0, r.value, Targets(init), target);
    }
  }

  /** The mode a new turn writes agrees with the mode measured against the tree before the loop. */
  lemma StepModeAgrees(t: Tree, r0: Tree, done: set<string>, target: string, fileMode: Mode)
    requires target !in done && !IsDir(r0, target)
    requires forall q :: q in t && q !in done ==> q in r0 && r0[q] == t[q]
    requires forall q :: q in r0 ==> q in t || IsDir(r0, q) || q in done
    ensures WrittenMode(r0, target, fileMode) == WrittenMode(t, target, fileMode)
  {
  }

  /** A node the loop has not touched before or in the new turn is still the one that was there. */
  lemma StepKeepsOld(t: Tree, r0: Tree, r: Tree, done: set<string>, target: string)
    requires forall q :: q in t && q !in done ==> q in r0 && r0[q] == t[q]
    requires forall q :: q in r0 && q != target ==> q in r && r[q] == r0[q]
    ensures forall q :: q in t && q !in done + {target} ==> q in r && r[q] == t[q]
  {
  }

  /** The targets written so far keep their contents, and the new one is written as the table says. */
  lemma StepKeepsWritten(t: Tree, r0: Tree, r: Tree, files: seq<(string, string)>, fileMode: Mode)
    requires files != []
    requires forall i, j :: 0 <= i < j < |files| ==> EtcTarget(files[i].0) != EtcTarget(files[j].0)
    requires forall i :: 0 <= i < |files| - 1 ==> WrittenAs(t, r0, EtcTarget(files[i].0), files[i].1, fileMode)
    requires var target := EtcTarget(files[|files| - 1].0);
      && WrittenAs(r0, r, target, files[|files| - 1].1, fileMode)
      && WrittenMode(r0, target, fileMode) == WrittenMode(t, target, fileMode)
      && (forall q :: q in r0 && q != target ==> q in r && r[q] == r0[q])
    ensures forall i :: 0 <= i < |files| ==> WrittenAs(t, r, EtcTarget(files[i].0), files[i].1, fileMode)
  {
    forall i | 0 <= i < |files|
      ensures WrittenAs(t, r, EtcTarget(files[i].0), files[i].1, fileMode)
    {
      var ti := EtcTarget(files[i].0);
      if i < |files| - 1 {
        assert ti != EtcTarget(files[|files| - 1].0);
        assert WrittenAs(t, r0, ti, files[i].1, fileMode);
        assert ti in r0 && r[ti] == r0[ti];
      }
    }
  }

  /** What is new after the turn is a directory or a target. */
  lemma StepAddsOnly(t: Tree, r0: Tree, r: Tree, done: set<string>, target: string)
    requires forall q :: q in r0 ==> q in t || IsDir(r0, q) || q in done
    requires forall q :: q in r0 && q != target ==> q in r && r[q] == r0[q]
    requires forall q :: q in r ==> q in r0 || IsDir(r, q) || q == target
    ensures forall q :: q in r ==> q in t || IsDir(r, q) || q in done + {target}
  {
  }

  /**
   * The loop over entries with distinct targets: each target then holds its
   * content at the mode WrittenMode gives, every other node that was there
   * is unchanged, and everything new is a directory or a target.
   */
  lemma {:induction false} EtcEachFacts(t: Tree, files: seq<(string, string)>, dirMode: Mode, fileMode: Mode)
    requires forall i, j :: 0 <= i < j < |files| ==> EtcTarget(files[i].0) != EtcTarget(files[j].0)
    ensures var r := EtcEach(t, files, dirMode, fileMode);
      r.Ok? ==> EtcInvariant(t, r.value, files, fileMode)
    decreases |files|
  {
    if files != [] {
      var init := files[..|files| - 1];
      EtcEachFacts(t, init, dirMode, fileMode);
      if EtcEach(t, init, dirMode, fileMode).Ok? {
        EtcInvariantStep(t, EtcEach(t, init, dirMode, fileMode).value, files, dirMode, fileMode);
      }
    }
  }

  /**
   * create_etc_files on any tree: each target holds its table content;
   * init.d/rcS is 0755; every other target keeps the mode it had or, when
   * new, has the default file mode; no other node that was there changes;
   * and everything new is a directory or a target.
   */
  lemma EtcFilesWrittenFacts(t: Tree, dirMode: Mode, fileMode: Mode)
    ensures var r := EtcFilesWritten(t, dirMode, fileMode);
      r.Ok? ==>
        && (forall q :: q in t && q !in Targets(EtcFiles) ==> q in r.value && r.value[q] == t[q])
        && (forall q :: q in r.value ==> q in t || IsDir(r.value, q) || q in Targets(EtcFiles))
        && (forall i :: 0 <= i < |EtcFiles| ==>
              var target := EtcTarget(EtcFiles[i].0);
              target in r.value
              && r.value[target] == Node(Regular(EtcFiles[i].1),
                   if i == 8 then M0755 else if target in t then t[target].mode else fileMode))
  {
    EtcFilesKeys();
    EtcTargetsDistinct();
    EtcScripts();
    EtcEachOnce(t, EtcFiles, 8, dirMode, fileMode);
  }

  /** The loop over distinct targets of which only the k-th is named as a script. */
  lemma EtcEachOnce(t: Tree, files: seq<(string, string)>, k: nat, dirMode: Mode, fileMode: Mode)
    requires forall i, j :: 0 <= i < j < |files| ==> EtcTarget(files[i].0) != EtcTarget(files[j].0)
    requires forall i :: 0 <= i < |files| ==> (IsScriptName(Paths.Name(EtcTarget(files[i].0))) <==> i == k)
    ensures var r := EtcEach(t, files, dirMode, fileMode);
      r.Ok? ==>
        && (forall q :: q in t && q !in Targets(files) ==> q in r.value && r.value[q] == t[q])
        && (forall q :: q in r.value ==> q in t || IsDir(r.value, q) || q in Targets(files))
        && (forall i :: 0 <= i < |files| ==>
              var target := EtcTarget(files[i].0);
              target in r.value
              && r.value[target] == Node(Regular(files[i].1),
                   if i == k then M0755 else if target in t then t[target].mode else fileMode))
  {
    EtcEachFacts(t, files, dirMode, fileMode);
    var r := EtcEach(t, files, dirMode, fileMode);
    if r.Ok? {
      forall i | 0 <= i < |files|
        ensures EtcTarget(files[i].0) in r.value
        ensures r.value[EtcTarget(files[i].0)] == Node(Regular(files[i].1),
                  if i == k then M0755 else if EtcTarget(files[i].0) in t then t[EtcTarget(files[i].0)].mode else fileMode)
      {
        assert WrittenAs(t, r.value, EtcTarget(files[i].0), files[i].1, fileMode);
      }
    }
  }

  /** No target lies on the way to any entry's directory. */
  predicate TargetsOffWays(files: seq<(string, string)>) {
    forall i, j :: 0 <= i < |files| && 0 <= j < |files| ==>
      EtcTarget(files[j].0) !in Paths.Ancestry(Paths.Parent(EtcTarget(files[i].0)))
  }

  /** Everything on the way to an entry's directory is a directory, and no target is a directory. */
  predicate EtcClear(t: Tree, files: seq<(string, string)>) {
    && (forall i, q :: 0 <= i < |files| && q in Paths.Ancestry(Paths.Parent(EtcTarget(files[i].0))) && q in t ==> IsDir(t, q))
    && (forall i :: 0 <= i < |files| ==> !IsDir(t, EtcTarget(files[i].0)))
  }

  /** A turn over a clear tree succeeds and leaves the tree clear. */
  lemma EtcStepClear(t: Tree, files: seq<(string, string)>, k: nat, dirMode: Mode, fileMode: Mode)
    requires k < |files| && EtcClear(t, files) && TargetsOffWays(files)
    ensures var r := EtcStep(t, files[k].0, files[k].1, dirMode, fileMode);
      r.Ok? && EtcClear(r.value, files)
  {
    var target := EtcTarget(files[k].0);
    var parent := Paths.Parent(target);
    assert |parent| < |target|;
    assert !Blocked(t, parent) by {
      forall q | q in Paths.Ancestry(parent) && q in t
        ensures t[q].kind.Directory?
      {
        assert IsDir(t, q);
      }
    }
    var t1 := MakeDirs(t, parent, dirMode).value;
    assert target !in Paths.Ancestry(parent);
    assert !IsDir(t1, target) && IsDir(t1, parent);
    var t2 := WriteText(t1, target, content := files[k].1, mode := fileMode).value;
    var r := if IsScriptName(Paths.Name(target)) then Chmod(t2, target, M0755) else t2;
    assert EtcStep(t, files[k].0, files[k].1, dirMode, fileMode) == Ok(r);
    forall i, q | 0 <= i < |files| && q in Paths.Ancestry(Paths.Parent(EtcTarget(files[i].0))) && q in r
      ensures IsDir(r, q)
    {
      assert q != target;
      if q !in Paths.Ancestry(parent) {
        assert q in t && IsDir(t, q) && t2[q] == t1[q] == t[q];
      }
    }
    forall i | 0 <= i < |files|
      ensures !IsDir(r, EtcTarget(files[i].0))
    {
      var ti := EtcTarget(files[i].0);
      if ti != target && ti in r {
        assert ti !in Paths.Ancestry(parent);
        assert ti in t && t2[ti] == t1[ti] == t[ti];
      }
    }
  }

  /** Over a clear tree every turn of the loop succeeds, and the tree stays clear. */
  lemma {:induction false} EtcEachClear(t: Tree, files: seq<(string, string)>, n: nat, dirMode: Mode, fileMode: Mode)
    requires n <= |files| && EtcClear(t, files) && TargetsOffWays(files)
    ensures var r := EtcEach(t, files[..n], dirMode, fileMode);
      r.Ok? && EtcClear(r.value, files)
    decreases n
  {
    if n > 0 {
      EtcEachClear(t, files, n - 1, dirMode, fileMode);
      var prefix := files[..n];
      assert prefix[..n - 1] == files[..n - 1] && prefix[n - 1] == files[n - 1];
      EtcStepClear(EtcEach(t, files[..n - 1], dirMode, fileMode).value, files, n - 1, dirMode, fileMode);
    }
  }

  /** A path that is no target and on the way to no entry's directory stays absent through the loop. */
  lemma {:induction false} EtcEachAbsent(t: Tree, files: seq<(string, string)>, f: string, dirMode: Mode, fileMode: Mode)
    requires f !in t
    requires forall i :: 0 <= i < |files| ==>
      f != EtcTarget(files[i].0) && f !in Paths.Ancestry(Paths.Parent(EtcTarget(files[i].0)))
    ensures EtcEach(t, files, dirMode, fileMode).Ok? ==> f !in EtcEach(t, files, dirMode, fileMode).value
    decreases |files|
  {
    if files != [] {
      var init := files[..|files| - 1];
      EtcEachAbsent(t, init, f, dirMode, fileMode);
      var r0 := EtcEach(t, init, dirMode, fileMode);
      if r0.Ok? {
        EtcStepAbsent(r0.value, files[|files| - 1].0, files[|files| - 1].1, f, dirMode, fileMode);
      }
    }
  }

  /** One turn adds only the target and the directories on the way to it. */
  lemma EtcStepAbsent(t: Tree, key: string, content: string, f: string, dirMode: Mode, fileMode: Mode)
    requires f !in t && f != EtcTarget(key) && f !in Paths.Ancestry(Paths.Parent(EtcTarget(key)))
    ensures EtcStep(t, key, content, dirMode, fileMode).Ok? ==> f !in EtcStep(t, key, content, dirMode, fileMode).value
  {
  }
}
