/**
 * create_busybox_init and create_symlinks (sources/utils/create.py): the
 * /init script, and the sbin/init and bin/sh links to the busybox binary,
 * made only when that binary is already in place.
 */
module RootfsInit {
  import opened Wrappers
  import opened FsTree
  import opened RootfsLayout
  import Paths

  /** Write /init with the script and make it executable. */
  function InitWritten(t: Tree, fileMode: Mode): Result<Tree, FsError> {
    match WriteText(t, InitPath, InitScript, fileMode)
    case Err(e) => Err(e)
    case Ok(t1) => Ok(Chmod(t1, InitPath, M0755))
  }

  /** init sits directly in the root filesystem directory. */
  lemma InitPathParts()
    ensures Paths.Parent(InitPath) == RootfsDir && Paths.Name(InitPath) == "init"
  {
    assert InitPath == Paths.Join(RootfsDir, "init");
    Paths.JoinNameParent(RootfsDir, "init");
  }

  /**
   * create_busybox_init succeeds exactly when the root filesystem directory
   * exists and init is not a directory; the new tree is the old one with
   * init an executable file holding the script, whatever was there before.
   */
  lemma InitWrittenFacts(t: Tree, fileMode: Mode)
    ensures var r := InitWritten(t, fileMode);
      && (r.Ok? <==> IsDir(t, RootfsDir) && !IsDir(t, InitPath))
      && (r.Ok? ==> r.value == t[InitPath := Node(Regular(InitScript), M0755)])
  {
    InitPathParts();
    var r := InitWritten(t, fileMode);
    if r.Ok? {
      var t1 := WriteText(t, InitPath, InitScript, fileMode).value;
      assert r.value == t1[InitPath := Node(Regular(InitScript), M0755)];
      assert t1[InitPath := Node(Regular(InitScript), M0755)] == t[InitPath := Node(Regular(InitScript), M0755)];
    }
  }

  const SbinDir := "work/build/rootfs/sbin"
  const BinDir := "work/build/rootfs/bin"

  /** If bin/busybox exists: sbin/init -> ../bin/busybox, then bin/sh -> busybox; otherwise nothing. */
  function SymlinksCreated(t: Tree): Result<Tree, FsError> {
    if BusyboxPath !in t then Ok(t)
    else match MakeSymlink(t, SbinInit, "../bin/busybox")
      case Err(e) => Err(e)
      case Ok(t1) => MakeSymlink(t1, BinSh, "busybox")
  }

  lemma LinkPathParts()
    ensures Paths.Parent(SbinInit) == SbinDir && Paths.Parent(BinSh) == BinDir && Paths.Parent(BusyboxPath) == BinDir
  {
    assert SbinInit == Paths.Join(SbinDir, "init");
    Paths.JoinNameParent(SbinDir, "init");
    assert BinSh == Paths.Join(BinDir, "sh");
    Paths.JoinNameParent(BinDir, "sh");
    assert BusyboxPath == Paths.Join(BinDir, "busybox");
    Paths.JoinNameParent(BinDir, "busybox");
  }

  /**
   * Without bin/busybox nothing happens. With it, both links are made
   * exactly when neither path is taken and sbin and bin are directories,
   * and then they are the only change.
   */
  lemma SymlinksCreatedFacts(t: Tree)
    ensures var r := SymlinksCreated(t);
      && (BusyboxPath !in t ==> r == Ok(t))
      && (BusyboxPath in t ==>
            (r.Ok? <==> SbinInit !in t && BinSh !in t && IsDir(t, SbinDir) && IsDir(t, BinDir)))
      && (BusyboxPath in t && r.Ok? ==>
            r.value == t[SbinInit := Node(Symlink("../bin/busybox"), M0777)][BinSh := Node(Symlink("busybox"), M0777)])
  {
    LinkPathParts();
  }

  /**
   * symlink_to refuses an existing path, so once the links were made a
   * second run of create_symlinks fails on sbin/init.
   */
  lemma SymlinksRerunFails(t: Tree)
    requires BusyboxPath in t && SymlinksCreated(t).Ok?
    ensures SymlinksCreated(SymlinksCreated(t).value) == Err(FileExists(SbinInit))
  {
    SymlinksCreatedFacts(t);
  }
}
