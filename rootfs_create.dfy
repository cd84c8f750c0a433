/**
 * create_rootfs (sources/main.py): the steps of sources/utils/create.py in
 * the order the build runs them, each on the tree the previous one left;
 * the first step that raises ends the run. set_rootfs_permissions comes
 * last, so its walk sees every file the earlier steps made.
 */
module RootfsCreate {
  import opened Wrappers
  import opened FsTree
  import opened RootfsLayout
  import opened RootfsPerms
  import Emulator
  import RootfsDirs
  import RootfsEtc
  import RootfsDev
  import RootfsInit
  import RootfsQemu
  import RootfsOutcome

  /** The whole run, for the given umask, mknod permission and target architecture. */
  function RootfsCreated(t: Tree, umask: Mode, privileged: bool, arch: Option<string>): Result<Tree, FsError> {
    Run(t, EtcFiles, umask, privileged, arch)
  }

  /** The run with the /etc table as a parameter. */
  function Run(t: Tree, files: seq<(string, string)>, umask: Mode, privileged: bool, arch: Option<string>): Result<Tree, FsError> {
    match Prepared(t, files, umask, privileged)
    case Err(e) => Err(e)
    case Ok(t3) => Finished(t3, umask, arch)
  }

  /** The first three steps: the directories, the /etc files and the device nodes. */
  function Prepared(t: Tree, files: seq<(string, string)>, umask: Mode, privileged: bool): Result<Tree, FsError> {
    match RootfsDirs.DirectoriesCreated(t, DirMode(umask), None)
    case Err(e) => Err(e)
    case Ok(t1) =>
      match RootfsEtc.EtcEach(t1, files, DirMode(umask), FileMode(umask))
      case Err(e) => Err(e)
      case Ok(t2) => RootfsDev.DevNodesCreated(t2, privileged, umask)
  }

  /** The steps after the device nodes: /init, the links, the emulator, the permissions. */
  function Finished(t3: Tree, umask: Mode, arch: Option<string>): Result<Tree, FsError> {
    match RootfsInit.InitWritten(t3, FileMode(umask))
    case Err(e) => Err(e)
    case Ok(t4) => Linked(t4, umask, arch)
  }

  /** The last three steps: the links, the emulator and the permissions. */
  function Linked(t4: Tree, umask: Mode, arch: Option<string>): Result<Tree, FsError> {
    match RootfsInit.SymlinksCreated(t4)
    case Err(e) => Err(e)
    case Ok(t5) =>
      match RootfsQemu.QemuCopied(t5, arch, None, DirMode(umask))
      case Err(e) => Err(e)
      case Ok(t6) => PermissionsSet(t6)
  }

  /** A finished run ends with set_rootfs_permissions: running it once more changes nothing. */
  lemma RootfsCreatedStable(t: Tree, umask: Mode, privileged: bool, arch: Option<string>)
    requires RootfsCreated(t, umask, privileged, arch).Ok?
    ensures var r := RootfsCreated(t, umask, privileged, arch).value;
      PermissionsSet(r) == Ok(r)
  {
    RunStable(t, EtcFiles, umask, privileged, arch);
  }

  lemma RunStable(t: Tree, files: seq<(string, string)>, umask: Mode, privileged: bool, arch: Option<string>)
    requires Run(t, files, umask, privileged, arch).Ok?
    ensures var r := Run(t, files, umask, privileged, arch).value;
      PermissionsSet(r) == Ok(r)
  {
    var t3 := Prepared(t, files, umask, privileged).value;
    var t4 := RootfsInit.InitWritten(t3, FileMode(umask)).value;
    var t5 := RootfsInit.SymlinksCreated(t4).value;
    var t6 := RootfsQemu.QemuCopied(t5, arch, None, DirMode(umask)).value;
    assert Run(t, files, umask, privileged, arch) == PermissionsSet(t6);
    RootfsOutcome.PermissionsSetIdempotent(t6);
  }

  /**
   * However the run goes up to create_busybox_init, a finished run leaves
   * /init holding the script at mode 0644: the walk has taken away the
   * executable bit create_busybox_init gave it.
   */
  lemma RootfsCreatedInit(t: Tree, umask: Mode, privileged: bool, arch: Option<string>)
    requires RootfsCreated(t, umask, privileged, arch).Ok?
    ensures var r := RootfsCreated(t, umask, privileged, arch).value;
      InitPath in r && r[InitPath] == Node(Regular(InitScript), M0644)
  {
    RunInit(t, EtcFiles, umask, privileged, arch);
  }

  lemma RunInit(t: Tree, files: seq<(string, string)>, umask: Mode, privileged: bool, arch: Option<string>)
    requires Run(t, files, umask, privileged, arch).Ok?
    ensures var r := Run(t, files, umask, privileged, arch).value;
      InitPath in r && r[InitPath] == Node(Regular(InitScript), M0644)
  {
    var t3 := Prepared(t, files, umask, privileged).value;
    var t4 := RootfsInit.InitWritten(t3, FileMode(umask)).value;
    assert Run(t, files, umask, privileged, arch) == Linked(t4, umask, arch);
    RootfsInit.InitWrittenFacts(t3, FileMode(umask));
    RootfsInit.InitPathParts();
    assert IsDir(t4, RootfsDir) && t4[InitPath] == Node(Regular(InitScript), M0755);
    LinkedInit(t4, umask, arch);
  }

  /** The links and the emulator leave the root and /init alone, and the walk then turns /init 0644. */
  lemma LinkedInit(t4: Tree, umask: Mode, arch: Option<string>)
    requires IsDir(t4, RootfsDir) && InitPath in t4 && t4[InitPath].kind == Regular(InitScript)
    requires Linked(t4, umask, arch).Ok?
    ensures InitPath in Linked(t4, umask, arch).value
    ensures Linked(t4, umask, arch).value[InitPath] == Node(Regular(InitScript), M0644)
  {
    var t5 := RootfsInit.SymlinksCreated(t4).value;
    SymlinksKeepInit(t4);
    var t6 := RootfsQemu.QemuCopied(t5, arch, None, DirMode(umask)).value;
    QemuKeepsInit(t5, arch, DirMode(umask));
    assert Linked(t4, umask, arch) == PermissionsSet(t6);
    InitFinal(t6);
  }

  /** create_symlinks leaves the root and /init as they were. */
  lemma SymlinksKeepInit(t4: Tree)
    requires RootfsInit.SymlinksCreated(t4).Ok? && RootfsDir in t4 && InitPath in t4
    ensures var t5 := RootfsInit.SymlinksCreated(t4).value;
      RootfsDir in t5 && InitPath in t5 && t5[RootfsDir] == t4[RootfsDir] && t5[InitPath] == t4[InitPath]
  {
    RootfsInit.SymlinksCreatedFacts(t4);
    LinkPathsApart();
  }

  /** copy_qemu_user_static leaves the root and /init as they were. */
  lemma QemuKeepsInit(t5: Tree, arch: Option<string>, dirMode: Mode)
    requires RootfsQemu.QemuCopied(t5, arch, None, dirMode).Ok? && RootfsDir in t5 && InitPath in t5
    ensures var t6 := RootfsQemu.QemuCopied(t5, arch, None, dirMode).value;
      RootfsDir in t6 && InitPath in t6 && t6[RootfsDir] == t5[RootfsDir] && t6[InitPath] == t5[InitPath]
  {
    if Emulator.QemuBinary(arch).Some? {
      var bin := Emulator.QemuBinary(arch).value;
      DestApart(bin);
      RootfsQemu.QemuCopiedKeeps(t5, arch, None, dirMode);
    }
  }

  /** The walk leaves /init, a regular file directly in the root, with its content at 0644. */
  lemma InitFinal(t6: Tree)
    requires IsDir(t6, RootfsDir) && InitPath in t6 && t6[InitPath].kind.Regular?
    ensures PermissionsSet(t6).Ok? && InitPath in PermissionsSet(t6).value
    ensures PermissionsSet(t6).value[InitPath] == Node(t6[InitPath].kind, M0644)
  {
    RootfsOutcome.InitEnds644(t6);
    PermissionsSetAt(t6, InitPath);
  }

  /** The emulator's destination is neither the root nor /init. */
  lemma DestApart(bin: string)
    ensures RootfsQemu.QemuDest(bin) != RootfsDir && RootfsQemu.QemuDest(bin) != InitPath
  {
    assert |RootfsQemu.QemuDestDir| == 25 && |InitPath| == 22 && |RootfsDir| == 17;
  }

  /** The two links are neither the root nor /init. */
  lemma LinkPathsApart()
    ensures SbinInit != RootfsDir && SbinInit != InitPath
    ensures BinSh != RootfsDir && BinSh != InitPath
  {
    assert |SbinInit| == 27 && |BinSh| == 24 && |InitPath| == 22 && |RootfsDir| == 17;
  }
}
