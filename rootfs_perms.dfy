/**
 * set_rootfs_permissions (sources/utils/create.py): walk the root
 * filesystem, setting directories to 0755 (except those named tmp, run,
 * lock, log or dev) and files to 0755 for scripts and 0644 for everything
 * else; then give tmp and var/tmp 1777, var/log, var/run and var/lock 0777,
 * dev 0755, and the root 0755.
 */
module RootfsPerms {
  import opened Wrappers
  import opened FsTree
  import opened RootfsLayout
  import Text
  import Paths

  /**
   * os.walk(rootfs_dir) reaches p: p is the root directory, or p lies
   * directly in a directory the walk reached. Symbolic links to directories
   * are listed but not entered.
   */
  predicate Reached(t: Tree, p: string)
    decreases |p|
  {
    p in t &&
    if p == RootfsDir then t[p].kind.Directory?
    else Text.StartsWith(p, RootfsDir + "/") && IsDir(t, Paths.Parent(p)) && Reached(t, Paths.Parent(p))
  }

  /** Whatever the walk reaches lies under a root that is a directory. */
  lemma {:induction false} ReachedRoot(t: Tree, p: string)
    requires Reached(t, p)
    ensures IsDir(t, RootfsDir)
    decreases |p|
  {
    if p != RootfsDir {
      ReachedRoot(t, Paths.Parent(p));
    }
  }

  /** The mode the walk gives a node it reaches. */
  function NewMode(t: Tree, p: string): Mode
    requires p in t
  {
    if t[p].kind.Directory? then
      if Paths.Name(p) in KeepNames then t[p].mode else M0755
    else if IsScriptName(Paths.Name(p)) then M0755 else M0644
  }

  /** The tree after the walk: every reached node that is not a link has its new mode. */
  function Walked(t: Tree): Tree {
    map p | p in t :: if Reached(t, p) && !t[p].kind.Symlink? then Node(t[p].kind, NewMode(t, p)) else t[p]
  }

  /** The paths the walk changes: reached, and not links. */
  function WalkTargets(t: Tree): set<string> {
    set p | p in t && Reached(t, p) && !t[p].kind.Symlink?
  }

  /** The special directories, in the order the script sets them, each only if it exists. */
  function Overridden(t: Tree): Tree {
    ChmodSix(t, TmpDir, VarTmpDir, VarLogDir, VarRunDir, VarLockDir, DevDir)
  }

  /** The whole of set_rootfs_permissions: the walk, the special directories, then the root itself. */
  function PermissionsSet(t: Tree): Result<Tree, FsError> {
    var t1 := Overridden(Walked(t));
    if RootfsDir in t1 then Ok(Chmod(t1, RootfsDir, M0755)) else Err(NoSuchFile(RootfsDir))
  }

  /** The paths set_rootfs_permissions gives a fixed mode after the walk. */
  predicate Special(q: string) {
    q == RootfsDir || q == DevDir || q == VarLogDir || q == VarRunDir || q == VarLockDir || q == TmpDir || q == VarTmpDir
  }

  /** The seven special paths are pairwise different: they differ in length or in their last character. */
  lemma SpecialDistinct()
    ensures RootfsDir != DevDir && RootfsDir != TmpDir && RootfsDir != VarTmpDir
    ensures RootfsDir != VarLogDir && RootfsDir != VarRunDir && RootfsDir != VarLockDir
    ensures DevDir != TmpDir && DevDir != VarTmpDir && DevDir != VarLogDir && DevDir != VarRunDir && DevDir != VarLockDir
    ensures TmpDir != VarTmpDir && TmpDir != VarLogDir && TmpDir != VarRunDir && TmpDir != VarLockDir
    ensures VarTmpDir != VarLogDir && VarTmpDir != VarRunDir && VarTmpDir != VarLockDir
    ensures VarLogDir != VarRunDir && VarLogDir != VarLockDir && VarRunDir != VarLockDir
  {
    assert NameKey(RootfsDir) == (17, 's');
    assert NameKey(DevDir) == (21, 'v');
    assert NameKey(TmpDir) == (21, 'p');
    assert NameKey(VarTmpDir) == (25, 'p');
    assert NameKey(VarLogDir) == (25, 'g');
    assert NameKey(VarRunDir) == (25, 'n');
    assert NameKey(VarLockDir) == (26, 'k');
  }

  /** Where each node's mode ends up, path by path. */
  function FinalMode(t: Tree, q: string): Mode
    requires q in t
  {
    if !Special(q) then (if Reached(t, q) then NewMode(t, q) else t[q].mode)
    else if q == RootfsDir || q == DevDir then M0755
    else if q == VarLogDir || q == VarRunDir || q == VarLockDir then M0777
    else if q == TmpDir || q == VarTmpDir then M1777
    else t[q].mode
  }

  /** Reaching depends only on which paths exist and their kinds, not on modes. */
  lemma {:induction false} ReachedShape(t1: Tree, t2: Tree, p: string)
    requires t1.Keys == t2.Keys
    requires forall q :: q in t1 ==> t2[q].kind == t1[q].kind
    ensures Reached(t1, p) == Reached(t2, p)
    decreases |p|
  {
    if p in t1 && p != RootfsDir && Text.StartsWith(p, RootfsDir + "/") {
      ReachedShape(t1, t2, Paths.Parent(p));
    }
  }

  lemma WalkedFacts(t: Tree)
    ensures var w := Walked(t);
      && w.Keys == t.Keys
      && (forall q :: q in t ==> w[q].kind == t[q].kind)
      && (forall q :: q in t && t[q].kind.Symlink? ==> w[q] == t[q])
      && (forall q :: q in t && !t[q].kind.Symlink? ==> w[q].mode == if Reached(t, q) then NewMode(t, q) else t[q].mode)
  {
  }

  /** Chmod seen from one path. */
  lemma ChmodAt(t: Tree, p: string, m: Mode, q: string)
    requires q in t
    ensures q in Chmod(t, p, m)
    ensures Chmod(t, p, m)[q] == if q == p && !t[q].kind.Symlink? then Node(t[q].kind, m) else t[q]
  {
  }

  /** The mode six chmods in a row leave at q: the last that names q wins. */
  function SixMode(t: Tree, a: string, b: string, c: string, d: string, e: string, f: string, q: string): Mode
    requires q in t
  {
    if q == f then M0755
    else if q == c || q == d || q == e then M0777
    else if q == a || q == b then M1777
    else t[q].mode
  }

  function ChmodSix(t: Tree, a: string, b: string, c: string, d: string, e: string, f: string): Tree {
    Chmod(Chmod(Chmod(Chmod(Chmod(Chmod(t, a, M1777), b, M1777), c, M0777), d, M0777), e, M0777), f, M0755)
  }

  lemma ChmodSixAt(t: Tree, a: string, b: string, c: string, d: string, e: string, f: string, q: string)
    requires q in t
    ensures var o := ChmodSix(t, a, b, c, d, e, f);
      && q in o && o[q].kind == t[q].kind
      && (t[q].kind.Symlink? ==> o[q] == t[q])
      && (!t[q].kind.Symlink? ==> o[q].mode == SixMode(t, a, b, c, d, e, f, q))
  {
    var t1 := Chmod(t, a, M1777);
    ChmodAt(t, a, M1777, q);
    var t2 := Chmod(t1, b, M1777);
    ChmodAt(t1, b, M1777, q);
    var t3 := Chmod(t2, c, M0777);
    ChmodAt(t2, c, M0777, q);
    var t4 := Chmod(t3, d, M0777);
    ChmodAt(t3, d, M0777, q);
    var t5 := Chmod(t4, e, M0777);
    ChmodAt(t4, e, M0777, q);
    ChmodAt(t5, f, M0755, q);
  }

  /** Six chmods in a row keep every path and kind; links keep their modes; the last chmod that names a path wins. */
  lemma ChmodSixFacts(t: Tree, a: string, b: string, c: string, d: string, e: string, f: string)
    ensures var o := ChmodSix(t, a, b, c, d, e, f);
      && o.Keys == t.Keys
      && (forall q :: q in t ==> o[q].kind == t[q].kind)
      && (forall q :: q in t && t[q].kind.Symlink? ==> o[q] == t[q])
      && (forall q :: q in t && !t[q].kind.Symlink? ==> o[q].mode == SixMode(t, a, b, c, d, e, f, q))
  {
    var o := ChmodSix(t, a, b, c, d, e, f);
    forall q | q in t
      ensures q in o && o[q].kind == t[q].kind
      ensures t[q].kind.Symlink? ==> o[q] == t[q]
      ensures !t[q].kind.Symlink? ==> o[q].mode == SixMode(t, a, b, c, d, e, f, q)
    {
      ChmodSixAt(t, a, b, c, d, e, f, q);
    }
  }

  /** The special directories on their own. */
  lemma OverriddenFacts(t: Tree)
    ensures var o := Overridden(t);
      && o.Keys == t.Keys
      && (forall q :: q in t ==> o[q].kind == t[q].kind)
      && (forall q :: q in t && t[q].kind.Symlink? ==> o[q] == t[q])
      && (forall q :: q in t && !t[q].kind.Symlink? ==>
            o[q].mode ==
              if q == DevDir then M0755
              else if q == VarLogDir || q == VarRunDir || q == VarLockDir then M0777
              else if q == TmpDir || q == VarTmpDir then M1777
              else t[q].mode)
  {
    ChmodSixFacts(t, TmpDir, VarTmpDir, VarLogDir, VarRunDir, VarLockDir, DevDir);
  }

  /**
   * set_rootfs_permissions fails exactly when the root is missing. When it
   * succeeds no path is added or removed and no kind changes, links keep
   * their modes, and every other node ends with the mode FinalMode gives it.
   */
  lemma PermissionsSetFacts(t: Tree)
    ensures var r := PermissionsSet(t);
      && (r.Err? <==> RootfsDir !in t)
      && (r.Ok? ==>
            && r.value.Keys == t.Keys
            && (forall q :: q in t ==> r.value[q].kind == t[q].kind)
            && (forall q :: q in t && t[q].kind.Symlink? ==> r.value[q] == t[q])
            && (forall q :: q in t && !t[q].kind.Symlink? ==> r.value[q].mode == FinalMode(t, q)))
  {
    var w := Walked(t);
    assert w.Keys == t.Keys;
    var o := Overridden(w);
    assert o.Keys == w.Keys;
    if RootfsDir in o {
      var r := PermissionsSet(t).value;
      forall q | q in t
        ensures q in r && r[q].kind == t[q].kind
        ensures t[q].kind.Symlink? ==> r[q] == t[q]
        ensures !t[q].kind.Symlink? ==> r[q].mode == FinalMode(t, q)
      {
        PermissionsSetAt(t, q);
      }
    }
  }

  /** set_rootfs_permissions seen from one path of a tree that has the root. */
  lemma PermissionsSetAt(t: Tree, q: string)
    requires RootfsDir in t && q in t
    ensures PermissionsSet(t).Ok?
    ensures var r := PermissionsSet(t).value;
      && q in r && r[q].kind == t[q].kind
      && (t[q].kind.Symlink? ==> r[q] == t[q])
      && (!t[q].kind.Symlink? ==> r[q].mode == FinalMode(t, q))
  {
    var w := Walked(t);
    assert RootfsDir in w && q in w;
    assert w[q] == if Reached(t, q) && !t[q].kind.Symlink? then Node(t[q].kind, NewMode(t, q)) else t[q];
    AfterWalkAt(w, q);
  }

  /** What follows the walk, seen from one path: the special directories, then the root. */
  lemma AfterWalkAt(w: Tree, q: string)
    requires RootfsDir in w && q in w
    ensures RootfsDir in Overridden(w)
    ensures var r := Chmod(Overridden(w), RootfsDir, M0755);
      && q in r && r[q].kind == w[q].kind
      && (w[q].kind.Symlink? ==> r[q] == w[q])
      && (!w[q].kind.Symlink? ==>
            r[q].mode ==
              if q == RootfsDir || q == DevDir then M0755
              else if q == VarLogDir || q == VarRunDir || q == VarLockDir then M0777
              else if q == TmpDir || q == VarTmpDir then M1777
              else w[q].mode)
  {
    SpecialDistinct();
    ChmodSixAt(w, TmpDir, VarTmpDir, VarLogDir, VarRunDir, VarLockDir, DevDir, RootfsDir);
    ChmodSixAt(w, TmpDir, VarTmpDir, VarLogDir, VarRunDir, VarLockDir, DevDir, q);
    ChmodAt(Overridden(w), RootfsDir, M0755, q);
  }

  /** Every special path longer than dev lies under var: the path's 19th character is the v of var. */
  lemma NotSpecialLong(p: string)
    requires |p| > |DevDir| && p[18] != 'v'
    ensures !Special(p)
  {
    assert |RootfsDir| == 17 && |DevDir| == 21 && |TmpDir| == 21;
    assert VarLogDir[18] == 'v' && VarRunDir[18] == 'v' && VarLockDir[18] == 'v' && VarTmpDir[18] == 'v';
  }

  /** A node the walk has set once is set to the same mode again. */
  lemma NewModeAgain(t: Tree, r: Tree, q: string)
    requires q in t && q in r && r[q].kind == t[q].kind && r[q].mode == NewMode(t, q)
    ensures NewMode(r, q) == r[q].mode
  {
  }
}
