/**
 * The root filesystem builder of sources/utils/create.py as the script runs
 * it: one object holding the file tree, each function of the script a method
 * that changes the tree step by step. Each method is proved to end in the
 * tree the matching specification function computes (modules RootfsDirs,
 * RootfsEtc, RootfsDev, RootfsInit, RootfsQemu and RootfsPerms), where the
 * properties of those functions are proved.
 *
 * An uncaught OSError is the method's Fail outcome.
 */
module RootFs {
  import opened Wrappers
  import opened FsTree
  import opened RootfsLayout
  import Paths
  import Emulator
  import RootfsDirs
  import RootfsEtc
  import RootfsDev
  import RootfsInit
  import RootfsQemu
  import RootfsPerms
  import RootfsCreate

  /** A run's outcome and tree agree with the specification's result. */
  predicate Agrees(r: Outcome<FsError>, t: Tree, spec: Result<Tree, FsError>) {
    && (r.Pass? <==> spec.Ok?)
    && (spec.Ok? ==> t == spec.value)
    && (spec.Err? ==> r == Fail(spec.error))
  }

  class FileSystem {
    /** Every path under the working directory and on the host that the script touches. */
    var tree: Tree
    /** The process umask, applied to the modes of new directories, files and device nodes. */
    const umask: Mode
    /** Whether os.mknod is permitted (otherwise it raises PermissionError). */
    const privileged: bool

    constructor (t: Tree, umask: Mode, privileged: bool)
      ensures tree == t && this.umask == umask && this.privileged == privileged
    {
      tree := t;
      this.umask := umask;
      this.privileged := privileged;
    }

    /** The mkdir(parents=True, exist_ok=True) loop over dirs; the first error ends it. */
    method MkdirAll(dirs: seq<string>, mode: Mode) returns (r: Outcome<FsError>)
      modifies this
      ensures Agrees(r, tree, RootfsDirs.MkdirEach(old(tree), dirs, mode))
    {
      var t0 := tree;
      var i := 0;
      while i < |dirs|
        invariant 0 <= i <= |dirs|
        invariant RootfsDirs.MkdirEach(t0, dirs[..i], mode) == Ok(tree)
      {
        assert dirs[..i + 1][..i] == dirs[..i];
        var m := MakeDirs(tree, dirs[i], mode);
        if m.Err? {
          RootfsDirs.MkdirEachStops(t0, dirs, i + 1, mode);
          return Fail(m.error);
        }
        tree := m.value;
        i := i + 1;
      }
      assert dirs[..i] == dirs;
      return Pass;
    }

    /** The loop over rootfs subdirectories: make each, then chmod it 0755. */
    method SubdirsAll(subs: seq<string>, mode: Mode) returns (r: Outcome<FsError>)
      modifies this
      ensures Agrees(r, tree, RootfsDirs.SubdirsEach(old(tree), subs, mode))
    {
      var t0 := tree;
      var j := 0;
      while j < |subs|
        invariant 0 <= j <= |subs|
        invariant RootfsDirs.SubdirsEach(t0, subs[..j], mode) == Ok(tree)
      {
        assert subs[..j + 1][..j] == subs[..j];
        var path := InRootfs(subs[j]);
        var m := MakeDirs(tree, path, mode);
        if m.Err? {
          RootfsDirs.SubdirsEachStops(t0, subs, j + 1, mode);
          return Fail(m.error);
        }
        tree := Chmod(m.value, path, M0755);
        j := j + 1;
      }
      assert subs[..j] == subs;
      return Pass;
    }

    /** create_directories(extra_dir) */
    method CreateDirectories(extra: Option<string>) returns (r: Outcome<FsError>)
      modifies this
      ensures Agrees(r, tree, RootfsDirs.DirectoriesCreated(old(tree), DirMode(umask), extra))
    {
      var mode := DirMode(umask);
      r := MkdirAll(WorkspaceDirs, mode);
      if r.Fail? {
        return;
      }
      r := SubdirsAll(RootfsSubdirs, mode);
      if r.Fail? {
        return;
      }
      if extra.Some? && extra.value != "" {
        var m := MakeDirs(tree, extra.value, mode);
        if m.Err? {
          return Fail(m.error);
        }
        tree := m.value;
      }
      return Pass;
    }

    /** The /etc loop over files: make the directory, write the content, make scripts executable. */
    method EtcAll(files: seq<(string, string)>, dirMode: Mode, fileMode: Mode) returns (r: Outcome<FsError>)
      modifies this
      ensures Agrees(r, tree, RootfsEtc.EtcEach(old(tree), files, dirMode, fileMode))
    {
      var t0 := tree;
      var i := 0;
      while i < |files|
        invariant 0 <= i <= |files|
        invariant RootfsEtc.EtcEach(t0, files[..i], dirMode, fileMode) == Ok(tree)
      {
        assert files[..i + 1][..i] == files[..i];
        var (key, content) := files[i];
        var target := EtcTarget(key);
        var m := MakeDirs(tree, Paths.Parent(target), dirMode);
        if m.Err? {
          RootfsEtc.EtcEachStops(t0, files, i + 1, dirMode, fileMode);
          return Fail(m.error);
        }
        var w := WriteText(m.value, target, content, fileMode);
        if w.Err? {
          RootfsEtc.EtcEachStops(t0, files, i + 1, dirMode, fileMode);
          return Fail(w.error);
        }
        tree := w.value;
        if IsScriptName(Paths.Name(target)) {
          tree := Chmod(tree, target, M0755);
        }
        i := i + 1;
      }
      assert files[..i] == files;
      return Pass;
    }

    /** create_etc_files() */
    method CreateEtcFiles() returns (r: Outcome<FsError>)
      modifies this
      ensures Agrees(r, tree, RootfsEtc.EtcFilesWritten(old(tree), DirMode(umask), FileMode(umask)))
    {
      r := EtcAll(EtcFiles, DirMode(umask), FileMode(umask));
    }

    /** The device loop: each missing device is made with mknod, or as a placeholder file when mknod is refused. */
    method DevAll(devs: seq<Device>)
      modifies this
      ensures tree == RootfsDev.DevEach(old(tree), devs, privileged, umask)
    {
      var t1 := tree;
      var i := 0;
      while i < |devs|
        invariant 0 <= i <= |devs|
        invariant tree == RootfsDev.DevEach(t1, devs[..i], privileged, umask)
      {
        assert devs[..i + 1][..i] == devs[..i];
        var d := devs[i];
        var p := DevicePath(d);
        if p !in tree {
          if privileged {
            tree := Mknod(tree, p, d.major, d.minor, d.perms & !umask);
          } else {
            tree := Touch(tree, p, FileMode(umask));
            tree := Chmod(tree, p, d.perms);
          }
        }
        i := i + 1;
      }
      assert devs[..i] == devs;
    }

    /** create_dev_nodes() */
    method CreateDevNodes() returns (r: Outcome<FsError>)
      modifies this
      ensures Agrees(r, tree, RootfsDev.DevNodesCreated(old(tree), privileged, umask))
    {
      var m := MakeDirs(tree, DevDir, DirMode(umask));
      if m.Err? {
        return Fail(m.error);
      }
      tree := m.value;
      DevAll(Devices);
      if DevPtsDir in tree {
        if !tree[DevPtsDir].kind.Directory? {
          return Fail(FileExists(DevPtsDir));
        }
      } else {
        tree := tree[DevPtsDir := Node(Directory, DirMode(umask))];
      }
      return Pass;
    }

    /** create_busybox_init() */
    method CreateBusyboxInit() returns (r: Outcome<FsError>)
      modifies this
      ensures Agrees(r, tree, RootfsInit.InitWritten(old(tree), FileMode(umask)))
    {
      var w := WriteText(tree, InitPath, InitScript, FileMode(umask));
      if w.Err? {
        return Fail(w.error);
      }
      tree := Chmod(w.value, InitPath, M0755);
      return Pass;
    }

    /** create_symlinks() */
    method CreateSymlinks() returns (r: Outcome<FsError>)
      modifies this
      ensures Agrees(r, tree, RootfsInit.SymlinksCreated(old(tree)))
    {
      if BusyboxPath !in tree {
        return Pass;
      }
      var s1 := MakeSymlink(tree, SbinInit, "../bin/busybox");
      if s1.Err? {
        return Fail(s1.error);
      }
      tree := s1.value;
      var s2 := MakeSymlink(tree, BinSh, "busybox");
      if s2.Err? {
        return Fail(s2.error);
      }
      tree := s2.value;
      return Pass;
    }

    /** copy_qemu_user_static(arch, qemu_dir) */
    method CopyQemuUserStatic(arch: Option<string>, qemuDir: Option<string>) returns (r: Outcome<FsError>)
      modifies this
      ensures Agrees(r, tree, RootfsQemu.QemuCopied(old(tree), arch, qemuDir, DirMode(umask)))
    {
      var bin := Emulator.QemuBinary(arch);
      if bin.None? {
        return Pass;
      }
      var src := RootfsQemu.QemuSource(qemuDir, bin.value);
      var dest := RootfsQemu.QemuDest(bin.value);
      var m := MakeDirs(tree, RootfsQemu.QemuDestDir, DirMode(umask));
      if m.Err? {
        return Fail(m.error);
      }
      tree := m.value;
      if src !in tree {
        return Pass;
      }
      tree := Copy(tree, src, dest);
      tree := Chmod(tree, dest, M0755);
      return Pass;
    }

    /** The os.walk loop, handling the reached paths in any order: each is visited once and modes do not affect which are reached. */
    method Walk()
      modifies this
      ensures tree == RootfsPerms.Walked(old(tree))
    {
      var t0 := tree;
      var todo := RootfsPerms.WalkTargets(t0);
      ghost var done: set<string> := {};
      while todo != {}
        invariant todo !! done
        invariant todo + done == RootfsPerms.WalkTargets(t0)
        invariant tree == WalkedSoFar(t0, done)
        decreases |todo|
      {
        var p :| p in todo;
        assert p in t0 && !t0[p].kind.Symlink?;
        if !(tree[p].kind.Directory? && Paths.Name(p) in KeepNames) {
          tree := Chmod(tree, p, RootfsPerms.NewMode(tree, p));
        }
        WalkedStep(t0, done, p);
        MoveOne(todo, done, p);
        todo := todo - {p};
        done := done + {p};
      }
      WalkedAll(t0);
    }

    /** if d.exists(): d.chmod(mode) */
    method SetIfExists(d: string, mode: Mode)
      modifies this
      ensures tree == Chmod(old(tree), d, mode)
    {
      if d in tree {
        tree := Chmod(tree, d, mode);
      }
    }

    /** set_rootfs_permissions() */
    method SetRootfsPermissions() returns (r: Outcome<FsError>)
      modifies this
      ensures Agrees(r, tree, RootfsPerms.PermissionsSet(old(tree)))
    {
      Walk();
      SetIfExists(TmpDir, M1777);
      SetIfExists(VarTmpDir, M1777);
      SetIfExists(VarLogDir, M0777);
      SetIfExists(VarRunDir, M0777);
      SetIfExists(VarLockDir, M0777);
      SetIfExists(DevDir, M0755);
      if RootfsDir !in tree {
        return Fail(NoSuchFile(RootfsDir));
      }
      tree := Chmod(tree, RootfsDir, M0755);
      return Pass;
    }

    /** create_rootfs: the steps in the order the build runs them; the first that raises ends the run. */
    method CreateRootfs(arch: Option<string>) returns (r: Outcome<FsError>)
      modifies this
      ensures Agrees(r, tree, RootfsCreate.RootfsCreated(old(tree), umask, privileged, arch))
    {
      r := CreateDirectories(None);
      if r.Fail? {
        return;
      }
      r := CreateEtcFiles();
      if r.Fail? {
        return;
      }
      r := CreateDevNodes();
      if r.Fail? {
        return;
      }
      r := CreateBusyboxInit();
      if r.Fail? {
        return;
      }
      r := CreateSymlinks();
      if r.Fail? {
        return;
      }
      r := CopyQemuUserStatic(arch, None);
      if r.Fail? {
        return;
      }
      r := SetRootfsPermissions();
    }
  }

  /** The tree once the walk has handled the paths in done. */
  function WalkedSoFar(t: Tree, done: set<string>): Tree {
    Apply(t, done, NewModes(t))
  }

  /** The mode the walk would give each path of t. */
  function NewModes(t: Tree): map<string, Mode> {
    map q | q in t :: RootfsPerms.NewMode(t, q)
  }

  /** t with the paths in done set to their modes in modes. */
  function Apply(t: Tree, done: set<string>, modes: map<string, Mode>): Tree {
    map q | q in t :: if q in done && q in modes then Node(t[q].kind, modes[q]) else t[q]
  }

  /** Setting one more path to its mode. */
  lemma ApplyStep(t: Tree, done: set<string>, modes: map<string, Mode>, p: string)
    requires p in t && p in modes && p !in done && !t[p].kind.Symlink?
    ensures Chmod(Apply(t, done, modes), p, modes[p]) == Apply(t, done + {p}, modes)
  {
    var a := Chmod(Apply(t, done, modes), p, modes[p]);
    var b := Apply(t, done + {p}, modes);
    assert a.Keys == b.Keys;
    forall q | q in a
      ensures a[q] == b[q]
    {
    }
    SameTrees(a, b);
  }

  /** A path whose mode is already the one it would be given: handling it changes nothing. */
  lemma ApplyKeep(t: Tree, done: set<string>, modes: map<string, Mode>, p: string)
    requires p in t && p in modes && p !in done && modes[p] == t[p].mode
    ensures Apply(t, done, modes) == Apply(t, done + {p}, modes)
  {
    var a := Apply(t, done, modes);
    var b := Apply(t, done + {p}, modes);
    assert b[p] == t[p];
    assert a.Keys == b.Keys;
    SameTrees(a, b);
  }

  /** Handling one more reached path p moves it into done. */
  lemma WalkedStep(t: Tree, done: set<string>, p: string)
    requires p in t && p !in done && !t[p].kind.Symlink?
    ensures var cur := WalkedSoFar(t, done);
      var next := if cur[p].kind.Directory? && Paths.Name(p) in KeepNames then cur else Chmod(cur, p, RootfsPerms.NewMode(cur, p));
      next == WalkedSoFar(t, done + {p})
  {
    var modes := NewModes(t);
    var cur := Apply(t, done, modes);
    assert cur[p] == t[p];
    assert RootfsPerms.NewMode(cur, p) == RootfsPerms.NewMode(t, p) == modes[p];
    if cur[p].kind.Directory? && Paths.Name(p) in KeepNames {
      ApplyKeep(t, done, modes, p);
    } else {
      ApplyStep(t, done, modes, p);
    }
  }

  /** Moving one element from todo to done keeps their union. */
  lemma MoveOne(todo: set<string>, done: set<string>, p: string)
    requires p in todo && todo !! done
    ensures (todo - {p}) + (done + {p}) == todo + done
    ensures (todo - {p}) !! (done + {p})
  {
  }

  /** Once every target is handled, the tree is the walked tree. */
  lemma WalkedAll(t: Tree)
    ensures WalkedSoFar(t, RootfsPerms.WalkTargets(t)) == RootfsPerms.Walked(t)
  {
  }
}
