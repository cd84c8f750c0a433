/**
 * create_directories (sources/utils/create.py): every workspace directory,
 * then every root filesystem subdirectory made and set to 0755, then the
 * optional extra directory. The loops are folded into functions over the
 * tree; RootFs.FileSystem runs them step by step.
 */
module RootfsDirs {
  import opened Wrappers
  import opened FsTree
  import opened RootfsLayout
  import Paths

  /** p and every directory on the way to it are directories of t. */
  predicate DirsUpTo(t: Tree, p: string) {
    forall q :: q in Paths.Ancestry(p) ==> IsDir(t, q)
  }

  /** Every node of t is still in t2, unchanged. */
  predicate Extends(t: Tree, t2: Tree) {
    forall q :: q in t ==> q in t2 && t2[q] == t[q]
  }

  /** mkdir(parents=True, exist_ok=True) for each path in turn; the first failure ends the loop. */
  function MkdirEach(t: Tree, dirs: seq<string>, mode: Mode): Result<Tree, FsError>
    decreases |dirs|
  {
    if dirs == [] then Ok(t)
    else match MkdirEach(t, dirs[..|dirs| - 1], mode)
      case Err(e) => Err(e)
      case Ok(t1) => MakeDirs(t1, dirs[|dirs| - 1], mode)
  }

  /** One turn of the subdirectory loop: make rootfs_dir / sub, then chmod it 0755. */
  function SubdirStep(t: Tree, sub: string, mode: Mode): Result<Tree, FsError> {
    match MakeDirs(t, InRootfs(sub), mode)
    case Err(e) => Err(e)
    case Ok(t1) => Ok(Chmod(t1, InRootfs(sub), M0755))
  }

  function SubdirsEach(t: Tree, subs: seq<string>, mode: Mode): Result<Tree, FsError>
    decreases |subs|
  {
    if subs == [] then Ok(t)
    else match SubdirsEach(t, subs[..|subs| - 1], mode)
      case Err(e) => Err(e)
      case Ok(t1) => SubdirStep(t1, subs[|subs| - 1], mode)
  }

  /** The extra directory is made only when one is given and it is not empty (Python's truth test). */
  function ExtraDir(t: Tree, extra: Option<string>, mode: Mode): Result<Tree, FsError> {
    if extra.Some? && extra.value != "" then MakeDirs(t, extra.value, mode) else Ok(t)
  }

  /** The three loops of create_directories over the given directory lists. */
  function DirectoriesFrom(t: Tree, ws: seq<string>, subs: seq<string>, mode: Mode, extra: Option<string>): Result<Tree, FsError> {
    match MkdirEach(t, ws, mode)
    case Err(e) => Err(e)
    case Ok(t1) =>
      match SubdirsEach(t1, subs, mode)
      case Err(e) => Err(e)
      case Ok(t2) => ExtraDir(t2, extra, mode)
  }

  /** The whole of create_directories, with mode the default directory mode. */
  function DirectoriesCreated(t: Tree, mode: Mode, extra: Option<string>): Result<Tree, FsError> {
    DirectoriesFrom(t, WorkspaceDirs, RootfsSubdirs, mode, extra)
  }

  /** A failure ends the workspace loop: the turns after it do not run. */
  lemma {:induction false} MkdirEachStops(t: Tree, dirs: seq<string>, k: nat, mode: Mode)
    requires k <= |dirs| && MkdirEach(t, dirs[..k], mode).Err?
    ensures MkdirEach(t, dirs, mode) == MkdirEach(t, dirs[..k], mode)
    decreases |dirs|
  {
    if k < |dirs| {
      var init := dirs[..|dirs| - 1];
      assert init[..k] == dirs[..k];
      MkdirEachStops(t, init, k, mode);
    } else {
      assert dirs[..k] == dirs;
    }
  }

  /** A failure ends the subdirectory loop: the turns after it do not run. */
  lemma {:induction false} SubdirsEachStops(t: Tree, subs: seq<string>, k: nat, mode: Mode)
    requires k <= |subs| && SubdirsEach(t, subs[..k], mode).Err?
    ensures SubdirsEach(t, subs, mode) == SubdirsEach(t, subs[..k], mode)
    decreases |subs|
  {
    if k < |subs| {
      var init := subs[..|subs| - 1];
      assert init[..k] == subs[..k];
      SubdirsEachStops(t, init, k, mode);
    } else {
      assert subs[..k] == subs;
    }
  }

  /** Making directories keeps what was there and leaves each requested path a directory all the way up. */
  lemma {:induction false} MkdirEachFacts(t: Tree, dirs: seq<string>, mode: Mode)
    ensures var r := MkdirEach(t, dirs, mode);
      r.Ok? ==> Extends(t, r.value) && forall i :: 0 <= i < |dirs| ==> DirsUpTo(r.value, dirs[i])
    decreases |dirs|
  {
    if dirs != [] {
      var init := dirs[..|dirs| - 1];
      MkdirEachFacts(t, init, mode);
      var r0 := MkdirEach(t, init, mode);
      if r0.Ok? {
        var r := MakeDirs(r0.value, dirs[|dirs| - 1], mode);
        if r.Ok? {
          forall i | 0 <= i < |dirs|
            ensures DirsUpTo(r.value, dirs[i])
          {
            if i < |dirs| - 1 {
              assert dirs[i] == init[i];
            }
          }
        }
      }
    }
  }

  /** p is a directory of t with mode m. */
  predicate DirWithMode(t: Tree, p: string, m: Mode) {
    p in t && t[p].kind.Directory? && t[p].mode == m
  }

  /** The paths the subdirectory loop sets to 0755. */
  function SubPaths(subs: seq<string>): set<string> {
    set s | s in subs :: InRootfs(s)
  }

  lemma GrowsKeepsDirs(t: Tree, t2: Tree, p: string)
    requires Grows(t, t2) && DirsUpTo(t, p)
    ensures DirsUpTo(t2, p)
  {
  }

  /** One turn of the subdirectory loop, on its own. */
  lemma SubdirStepFacts(t: Tree, sub: string, mode: Mode)
    ensures var r := SubdirStep(t, sub, mode);
      r.Ok? ==>
        && Grows(t, r.value)
        && DirsUpTo(r.value, InRootfs(sub))
        && DirWithMode(r.value, InRootfs(sub), M0755)
        && (forall q :: q in t && q != InRootfs(sub) ==> r.value[q] == t[q])
  {
    assert InRootfs(sub) in Paths.Ancestry(InRootfs(sub));
  }

  /**
   * The subdirectory loop keeps every path (and its kind) and leaves each
   * subdirectory a directory all the way up, with mode 0755.
   */
  lemma {:induction false} SubdirsEachFacts(t: Tree, subs: seq<string>, mode: Mode)
    ensures var r := SubdirsEach(t, subs, mode);
      r.Ok? ==>
        && Grows(t, r.value)
        && (forall i :: 0 <= i < |subs| ==> DirsUpTo(r.value, InRootfs(subs[i])) && DirWithMode(r.value, InRootfs(subs[i]), M0755))
    decreases |subs|
  {
    if subs != [] {
      var init := subs[..|subs| - 1];
      var last := subs[|subs| - 1];
      SubdirsEachFacts(t, init, mode);
      var r0 := SubdirsEach(t, init, mode);
      if r0.Ok? {
        SubdirStepFacts(r0.value, last, mode);
        var r := SubdirStep(r0.value, last, mode);
        if r.Ok? {
          forall i | 0 <= i < |subs|
            ensures DirsUpTo(r.value, InRootfs(subs[i])) && DirWithMode(r.value, InRootfs(subs[i]), M0755)
          {
            if i < |subs| - 1 {
              assert subs[i] == init[i];
              GrowsKeepsDirs(r0.value, r.value, InRootfs(subs[i]));
            }
          }
        }
      }
    }
  }

  /** The subdirectory loop changes no node outside the subdirectories it was given. */
  lemma {:induction false} SubdirsEachOthers(t: Tree, subs: seq<string>, mode: Mode)
    ensures var r := SubdirsEach(t, subs, mode);
      r.Ok? ==> forall q :: q in t && q !in SubPaths(subs) ==> q in r.value && r.value[q] == t[q]
    decreases |subs|
  {
    if subs != [] {
      var init := subs[..|subs| - 1];
      var last := subs[|subs| - 1];
      SubdirsEachOthers(t, init, mode);
      SubdirsEachFacts(t, init, mode);
      var r0 := SubdirsEach(t, init, mode);
      if r0.Ok? {
        SubdirStepFacts(r0.value, last, mode);
        var r := SubdirStep(r0.value, last, mode);
        if r.Ok? {
          forall q | q in t && q !in SubPaths(subs)
            ensures q in r.value && r.value[q] == t[q]
          {
            assert q !in SubPaths(init);
            assert q != InRootfs(last);
          }
        }
      }
    }
  }

  lemma DirectoriesFromFacts(t: Tree, ws: seq<string>, subs: seq<string>, mode: Mode, extra: Option<string>)
    ensures var r := DirectoriesFrom(t, ws, subs, mode, extra);
      r.Ok? ==>
        && Grows(t, r.value)
        && (forall i :: 0 <= i < |ws| ==> DirsUpTo(r.value, ws[i]))
        && (forall i :: 0 <= i < |subs| ==> DirsUpTo(r.value, InRootfs(subs[i])) && DirWithMode(r.value, InRootfs(subs[i]), M0755))
        && (extra.Some? && extra.value != "" ==> DirsUpTo(r.value, extra.value))
  {
    MkdirEachFacts(t, ws, mode);
    var r1 := MkdirEach(t, ws, mode);
    if r1.Ok? {
      SubdirsEachFacts(r1.value, subs, mode);
      var r2 := SubdirsEach(r1.value, subs, mode);
      if r2.Ok? {
        var r := ExtraDir(r2.value, extra, mode);
        if r.Ok? {
          forall i | 0 <= i < |ws|
            ensures DirsUpTo(r.value, ws[i])
          {
            GrowsKeepsDirs(r1.value, r.value, ws[i]);
          }
        }
      }
    }
  }

  /**
   * After create_directories succeeds, every workspace directory and every
   * root filesystem subdirectory exists as a directory, all the way up; each
   * subdirectory has mode 0755; the extra directory, when one was given,
   * exists too; nothing that was there before is lost or changes kind.
   */
  lemma DirectoriesCreatedFacts(t: Tree, mode: Mode, extra: Option<string>)
    ensures var r := DirectoriesCreated(t, mode, extra);
      r.Ok? ==>
        && Grows(t, r.value)
        && (forall i :: 0 <= i < |WorkspaceDirs| ==> DirsUpTo(r.value, WorkspaceDirs[i]))
        && (forall i :: 0 <= i < |RootfsSubdirs| ==>
              DirsUpTo(r.value, InRootfs(RootfsSubdirs[i])) && DirWithMode(r.value, InRootfs(RootfsSubdirs[i]), M0755))
        && (extra.Some? && extra.value != "" ==> DirsUpTo(r.value, extra.value))
  {
    DirectoriesFromFacts(t, WorkspaceDirs, RootfsSubdirs, mode, extra);
  }

  /** A mkdir loop over directories that all exist changes nothing. */
  lemma {:induction false} MkdirEachExisting(t: Tree, dirs: seq<string>, mode: Mode)
    requires forall i :: 0 <= i < |dirs| ==> DirsUpTo(t, dirs[i])
    ensures MkdirEach(t, dirs, mode) == Ok(t)
    decreases |dirs|
  {
    if dirs != [] {
      MkdirEachExisting(t, dirs[..|dirs| - 1], mode);
      MakeDirsExisting(t, dirs[|dirs| - 1], mode);
    }
  }

  /** A chmod to the mode a node already has changes nothing. */
  lemma ChmodSame(t: Tree, p: string, mode: Mode)
    requires p in t && t[p].mode == mode
    ensures Chmod(t, p, mode) == t
  {
    assert t[p := Node(t[p].kind, mode)] == t;
  }

  /** The subdirectory loop over subdirectories that all exist with mode 0755 changes nothing. */
  lemma {:induction false} SubdirsEachExisting(t: Tree, subs: seq<string>, mode: Mode)
    requires forall i :: 0 <= i < |subs| ==> DirsUpTo(t, InRootfs(subs[i])) && DirWithMode(t, InRootfs(subs[i]), M0755)
    ensures SubdirsEach(t, subs, mode) == Ok(t)
    decreases |subs|
  {
    if subs != [] {
      var last := subs[|subs| - 1];
      SubdirsEachExisting(t, subs[..|subs| - 1], mode);
      MakeDirsExisting(t, InRootfs(last), mode);
      ChmodSame(t, InRootfs(last), M0755);
    }
  }

  /** Running create_directories again on its own result changes nothing and succeeds. */
  lemma DirectoriesCreatedIdempotent(t: Tree, mode: Mode, extra: Option<string>)
    requires DirectoriesCreated(t, mode, extra).Ok?
    ensures var r := DirectoriesCreated(t, mode, extra).value;
      DirectoriesCreated(r, mode, extra) == Ok(r)
  {
    var r := DirectoriesCreated(t, mode, extra).value;
    DirectoriesCreatedFacts(t, mode, extra);
    MkdirEachExisting(r, WorkspaceDirs, mode);
    SubdirsEachExisting(r, RootfsSubdirs, mode);
    if extra.Some? && extra.value != "" {
      MakeDirsExisting(r, extra.value, mode);
    }
  }

  /** Nothing in t2 that is not a directory is new: each such node was in t, unchanged. */
  predicate FilesKept(t: Tree, t2: Tree) {
    forall q :: q in t2 && !t2[q].kind.Directory? ==> q in t && t2[q] == t[q]
  }

  /** A step that adds no file leaves every way that was clear clear. */
  lemma KeptClear(t: Tree, t2: Tree, p: string)
    requires FilesKept(t, t2) && !Blocked(t, p)
    ensures !Blocked(t2, p)
  {
  }

  /** mkdir with nothing but directories on the way never fails and adds only directories. */
  lemma MakeDirsClear(t: Tree, p: string, mode: Mode)
    requires !Blocked(t, p)
    ensures MakeDirs(t, p, mode).Ok? && FilesKept(t, MakeDirs(t, p, mode).value)
  {
  }

  /** The workspace loop with nothing but directories on the way to each of its paths never fails and adds only directories. */
  lemma {:induction false} MkdirEachClear(t: Tree, dirs: seq<string>, mode: Mode)
    requires forall i :: 0 <= i < |dirs| ==> !Blocked(t, dirs[i])
    ensures MkdirEach(t, dirs, mode).Ok? && FilesKept(t, MkdirEach(t, dirs, mode).value)
    decreases |dirs|
  {
    if dirs != [] {
      var init := dirs[..|dirs| - 1];
      MkdirEachClear(t, init, mode);
      var t1 := MkdirEach(t, init, mode).value;
      KeptClear(t, t1, dirs[|dirs| - 1]);
      MakeDirsClear(t1, dirs[|dirs| - 1], mode);
    }
  }

  /** The subdirectory loop with nothing but directories on the way to each subdirectory never fails and adds only directories. */
  lemma {:induction false} SubdirsEachClear(t: Tree, subs: seq<string>, mode: Mode)
    requires forall i :: 0 <= i < |subs| ==> !Blocked(t, InRootfs(subs[i]))
    ensures SubdirsEach(t, subs, mode).Ok? && FilesKept(t, SubdirsEach(t, subs, mode).value)
    decreases |subs|
  {
    if subs != [] {
      var init := subs[..|subs| - 1];
      var p := InRootfs(subs[|subs| - 1]);
      SubdirsEachClear(t, init, mode);
      var t1 := SubdirsEach(t, init, mode).value;
      KeptClear(t, t1, p);
      MakeDirsClear(t1, p, mode);
      var t2 := MakeDirs(t1, p, mode).value;
      assert IsDir(t2, p);
    }
  }

  /** The three loops never fail when nothing but directories stands on the way to what they make, and they add only directories. */
  lemma DirectoriesFromSucceeds(t: Tree, ws: seq<string>, subs: seq<string>, mode: Mode, extra: Option<string>)
    requires forall i :: 0 <= i < |ws| ==> !Blocked(t, ws[i])
    requires forall i :: 0 <= i < |subs| ==> !Blocked(t, InRootfs(subs[i]))
    requires extra.Some? && extra.value != "" ==> !Blocked(t, extra.value)
    ensures DirectoriesFrom(t, ws, subs, mode, extra).Ok?
    ensures FilesKept(t, DirectoriesFrom(t, ws, subs, mode, extra).value)
  {
    MkdirEachClear(t, ws, mode);
    var t1 := MkdirEach(t, ws, mode).value;
    forall i | 0 <= i < |subs|
      ensures !Blocked(t1, InRootfs(subs[i]))
    {
      KeptClear(t, t1, InRootfs(subs[i]));
    }
    SubdirsEachClear(t1, subs, mode);
    var t2 := SubdirsEach(t1, subs, mode).value;
    if extra.Some? && extra.value != "" {
      KeptClear(t, t1, extra.value);
      KeptClear(t1, t2, extra.value);
      MakeDirsClear(t2, extra.value, mode);
    }
  }

  /**
   * create_directories cannot fail when nothing but directories stands on
   * the way to what it makes (a fresh workspace in particular), and every
   * node it leaves that is not a directory was there before, unchanged.
   */
  lemma DirectoriesCreatedSucceeds(t: Tree, mode: Mode, extra: Option<string>)
    requires forall i :: 0 <= i < |WorkspaceDirs| ==> !Blocked(t, WorkspaceDirs[i])
    requires forall i :: 0 <= i < |RootfsSubdirs| ==> !Blocked(t, InRootfs(RootfsSubdirs[i]))
    requires extra.Some? && extra.value != "" ==> !Blocked(t, extra.value)
    ensures DirectoriesCreated(t, mode, extra).Ok?
    ensures FilesKept(t, DirectoriesCreated(t, mode, extra).value)
  {
    DirectoriesFromSucceeds(t, WorkspaceDirs, RootfsSubdirs, mode, extra);
  }

  /** A path on the way to none of the directories stays absent through the workspace loop. */
  lemma {:induction false} MkdirEachAbsent(t: Tree, dirs: seq<string>, mode: Mode, f: string)
    requires f !in t
    requires forall i :: 0 <= i < |dirs| ==> f !in Paths.Ancestry(dirs[i])
    ensures MkdirEach(t, dirs, mode).Ok? ==> f !in MkdirEach(t, dirs, mode).value
    decreases |dirs|
  {
    if dirs != [] {
      var init := dirs[..|dirs| - 1];
      MkdirEachAbsent(t, init, mode, f);
    }
  }

  /** A path on the way to none of the subdirectories stays absent through the subdirectory loop. */
  lemma {:induction false} SubdirsEachAbsent(t: Tree, subs: seq<string>, mode: Mode, f: string)
    requires f !in t
    requires forall i :: 0 <= i < |subs| ==> f !in Paths.Ancestry(InRootfs(subs[i]))
    ensures SubdirsEach(t, subs, mode).Ok? ==> f !in SubdirsEach(t, subs, mode).value
    decreases |subs|
  {
    if subs != [] {
      var init := subs[..|subs| - 1];
      SubdirsEachAbsent(t, init, mode, f);
    }
  }

  /**
   * create_directories without an extra directory adds nothing but the
   * directories on the way to the workspace directories and the rootfs
   * subdirectories: any other path absent before is absent after.
   */
  lemma DirectoriesCreatedAbsent(t: Tree, mode: Mode, f: string)
    requires f !in t
    requires forall i :: 0 <= i < |WorkspaceDirs| ==> f !in Paths.Ancestry(WorkspaceDirs[i])
    requires forall i :: 0 <= i < |RootfsSubdirs| ==> f !in Paths.Ancestry(InRootfs(RootfsSubdirs[i]))
    ensures DirectoriesCreated(t, mode, None).Ok? ==> f !in DirectoriesCreated(t, mode, None).value
  {
    MkdirEachAbsent(t, WorkspaceDirs, mode, f);
    if MkdirEach(t, WorkspaceDirs, mode).Ok? {
      SubdirsEachAbsent(MkdirEach(t, WorkspaceDirs, mode).value, RootfsSubdirs, mode, f);
    }
  }
}
