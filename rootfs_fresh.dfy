/**
 * create_rootfs (sources/main.py) before the workspace exists: every step
 * of sources/utils/create.py succeeds, whatever the host holds, emulators
 * in /usr/bin included. The host's paths are absolute and the script's are
 * relative, so the two never meet. The argument follows which paths hold
 * something other than a directory (host files, the /etc files, the device
 * nodes, /init) and shows that none of them lies on the way to a directory
 * a later step makes, that none of the files a step writes is a directory,
 * and that bin/busybox is absent, so create_symlinks does nothing.
 */
module RootfsFresh {
  import opened Wrappers
  import opened FsTree
  import opened RootfsLayout
  import opened RootfsWays
  import Paths
  import Emulator
  import RootfsDirs
  import RootfsEtc
  import RootfsDev
  import RootfsInit
  import RootfsQemu
  import RootfsPerms
  import RootfsCreate
  import RootfsOutcome

  /** A file system before the first run: whatever the host holds, all of it at absolute paths, and no workspace yet. */
  predicate HostOnly(h: Tree) {
    forall q :: q in h ==> Paths.Absolute(q)
  }

  /** Every node that is not a directory is a host file or sits below rootfs_dir, in an entry whose name starts with one of heads. */
  predicate FilesUnder(t: Tree, heads: set<char>) {
    forall q :: q in t && !t[q].kind.Directory? ==> Paths.Absolute(q) || (|q| > 18 && q[18] in heads)
  }

  // ---------------------------------------------------------------- the steps

  /** create_directories before the workspace exists: it adds only directories, rootfs_dir among them, and none of the files written later. */
  lemma DirsFresh(h: Tree, mode: Mode)
    requires HostOnly(h)
    ensures var r := RootfsDirs.DirectoriesCreated(h, mode, None);
      && r.Ok? && FilesUnder(r.value, {}) && IsDir(r.value, RootfsDir)
      && InitPath !in r.value && BusyboxPath !in r.value
      && (forall j :: 0 <= j < |EtcKeys| ==> EtcTarget(EtcKeys[j]) !in r.value)
  {
    HostClear(h);
    RootfsDirs.DirectoriesCreatedSucceeds(h, mode, None);
    DirsRoot(h, mode);
    InitOffDirs();
    DirsAbsent(h, mode, InitPath);
    BusyboxOffDirs();
    DirsAbsent(h, mode, BusyboxPath);
    forall j | 0 <= j < |EtcKeys|
      ensures EtcTarget(EtcKeys[j]) !in RootfsDirs.DirectoriesCreated(h, mode, None).value
    {
      EtcTargetOffDirs(j);
      TargetRelative(EtcKeys[j]);
      DirsAbsent(h, mode, EtcTarget(EtcKeys[j]));
    }
  }

  /** No host file stands on the way to a directory create_directories makes. */
  lemma HostClear(h: Tree)
    requires HostOnly(h)
    ensures forall i :: 0 <= i < |WorkspaceDirs| ==> !Blocked(h, WorkspaceDirs[i])
    ensures forall i :: 0 <= i < |RootfsSubdirs| ==> !Blocked(h, InRootfs(RootfsSubdirs[i]))
  {
    WorkspaceRelative();
    forall i | 0 <= i < |WorkspaceDirs|
      ensures !Blocked(h, WorkspaceDirs[i])
    {
      HostClearOf(h, WorkspaceDirs[i]);
    }
    forall i | 0 <= i < |RootfsSubdirs|
      ensures !Blocked(h, InRootfs(RootfsSubdirs[i]))
    {
      RootfsRelative(RootfsSubdirs[i]);
      HostClearOf(h, InRootfs(RootfsSubdirs[i]));
    }
  }

  /** Nothing of the host's stands on the way to a relative path. */
  lemma HostClearOf(h: Tree, p: string)
    requires HostOnly(h) && !Paths.Absolute(p)
    ensures !Blocked(h, p)
  {
    Paths.AncestryRelative(p);
  }

  /** create_directories before the workspace exists makes rootfs_dir. */
  lemma DirsRoot(h: Tree, mode: Mode)
    ensures var r := RootfsDirs.DirectoriesCreated(h, mode, None);
      r.Ok? ==> IsDir(r.value, RootfsDir)
  {
    var r := RootfsDirs.DirectoriesCreated(h, mode, None);
    if r.Ok? {
      RootfsDirs.DirectoriesCreatedFacts(h, mode, None);
      assert RootfsDirs.DirsUpTo(r.value, WorkspaceDirs[4]);
    }
  }

  /** create_directories before the workspace exists leaves absent a relative path on the way to none of its directories. */
  lemma DirsAbsent(h: Tree, mode: Mode, f: string)
    requires HostOnly(h) && !Paths.Absolute(f) && OffDirs(f)
    ensures var r := RootfsDirs.DirectoriesCreated(h, mode, None);
      r.Ok? ==> f !in r.value
  {
    RootfsDirs.DirectoriesCreatedAbsent(h, mode, f);
  }

  /**
   * create_etc_files after create_directories: every entry is written, the
   * only non-directories are host files and the /etc targets, and /init
   * and bin/busybox are still absent.
   */
  lemma EtcFresh(t1: Tree, dirMode: Mode, fileMode: Mode)
    requires FilesUnder(t1, {}) && IsDir(t1, RootfsDir)
    requires InitPath !in t1 && BusyboxPath !in t1
    requires forall j :: 0 <= j < |EtcKeys| ==> EtcTarget(EtcKeys[j]) !in t1
    ensures var r := RootfsEtc.EtcEach(t1, EtcFiles, dirMode, fileMode);
      && r.Ok? && FilesUnder(r.value, {'e'}) && IsDir(r.value, RootfsDir)
      && InitPath !in r.value && BusyboxPath !in r.value
  {
    EtcOk(t1, dirMode, fileMode);
    EtcWritesFiles(t1, dirMode, fileMode);
    InitOffEtc();
    RootfsEtc.EtcEachAbsent(t1, EtcFiles, InitPath, dirMode, fileMode);
    BusyboxOffEtc();
    RootfsEtc.EtcEachAbsent(t1, EtcFiles, BusyboxPath, dirMode, fileMode);
  }

  /** create_etc_files succeeds over directories that hold none of its targets. */
  lemma EtcOk(t1: Tree, dirMode: Mode, fileMode: Mode)
    requires FilesUnder(t1, {})
    requires forall j :: 0 <= j < |EtcKeys| ==> EtcTarget(EtcKeys[j]) !in t1
    ensures RootfsEtc.EtcEach(t1, EtcFiles, dirMode, fileMode).Ok?
  {
    EtcTargetsOffWays();
    EtcWaysRelative();
    TargetsAbsent(t1);
    EtcOkFor(t1, EtcFiles, dirMode, fileMode);
  }

  /** The /etc loop over any table whose targets are absent, off one another's ways and relative succeeds over directories and host files. */
  lemma EtcOkFor(t1: Tree, files: seq<(string, string)>, dirMode: Mode, fileMode: Mode)
    requires FilesUnder(t1, {}) && RootfsEtc.TargetsOffWays(files)
    requires forall i :: 0 <= i < |files| ==> EtcTarget(files[i].0) !in t1
    requires forall i, q :: 0 <= i < |files| && q in Paths.Ancestry(Paths.Parent(EtcTarget(files[i].0))) ==>
      !Paths.Absolute(q)
    ensures RootfsEtc.EtcEach(t1, files, dirMode, fileMode).Ok?
  {
    RootfsEtc.EtcEachClear(t1, files, |files|, dirMode, fileMode);
    assert files[..|files|] == files;
  }

  /** Over directories and host files, what create_etc_files leaves that is not a directory is a host file or an /etc target. */
  lemma EtcWritesFiles(t1: Tree, dirMode: Mode, fileMode: Mode)
    requires FilesUnder(t1, {}) && IsDir(t1, RootfsDir)
    requires RootfsEtc.EtcEach(t1, EtcFiles, dirMode, fileMode).Ok?
    ensures var r := RootfsEtc.EtcEach(t1, EtcFiles, dirMode, fileMode).value;
      FilesUnder(r, {'e'}) && IsDir(r, RootfsDir)
  {
    RootfsEtc.EtcFilesWrittenFacts(t1, dirMode, fileMode);
    TargetsShape();
    FilesUnderEtc(t1, RootfsEtc.EtcEach(t1, EtcFiles, dirMode, fileMode).value, RootfsEtc.Targets(EtcFiles));
  }

  /** A step that keeps every other node and adds only directories and targets in etc leaves only files in etc. */
  lemma FilesUnderEtc(t1: Tree, r: Tree, targets: set<string>)
    requires FilesUnder(t1, {}) && IsDir(t1, RootfsDir)
    requires forall q :: q in targets ==> |q| >= 26 && q[18] == 'e'
    requires forall q :: q in t1 && q !in targets ==> q in r && r[q] == t1[q]
    requires forall q :: q in r ==> q in t1 || IsDir(r, q) || q in targets
    ensures FilesUnder(r, {'e'}) && IsDir(r, RootfsDir)
  {
    assert |RootfsDir| == 17;
  }

  /**
   * create_dev_nodes after create_etc_files: it succeeds, the only
   * non-directories are the /etc targets and the devices, and /init and
   * bin/busybox are still absent.
   */
  lemma DevFresh(t2: Tree, privileged: bool, umask: Mode)
    requires FilesUnder(t2, {'e'}) && IsDir(t2, RootfsDir)
    requires InitPath !in t2 && BusyboxPath !in t2
    ensures var r := RootfsDev.DevNodesCreated(t2, privileged, umask);
      && r.Ok? && FilesUnder(r.value, {'e', 'd'}) && IsDir(r.value, RootfsDir)
      && InitPath !in r.value && BusyboxPath !in r.value
  {
    DevWayClear(t2);
    RootfsDev.DevNodesCreatedFails(t2, privileged, umask);
    DevFiles(t2, privileged, umask);
    DevKeeps(t2, privileged, umask);
  }

  lemma DevFiles(t2: Tree, privileged: bool, umask: Mode)
    requires FilesUnder(t2, {'e'})
    requires RootfsDev.DevNodesCreated(t2, privileged, umask).Ok?
    ensures FilesUnder(RootfsDev.DevNodesCreated(t2, privileged, umask).value, {'e', 'd'})
  {
    var r := RootfsDev.DevNodesCreated(t2, privileged, umask).value;
    RootfsDev.DevNodesCreatedFacts(t2, privileged, umask);
    RootfsDev.DevNodesCreatedKeys(t2, privileged, umask);
    DevAddsFiles(t2, r);
  }

  lemma DevKeeps(t2: Tree, privileged: bool, umask: Mode)
    requires IsDir(t2, RootfsDir) && InitPath !in t2 && BusyboxPath !in t2
    requires RootfsDev.DevNodesCreated(t2, privileged, umask).Ok?
    ensures var r := RootfsDev.DevNodesCreated(t2, privileged, umask).value;
      IsDir(r, RootfsDir) && InitPath !in r && BusyboxPath !in r
  {
    var r := RootfsDev.DevNodesCreated(t2, privileged, umask).value;
    RootfsDev.DevNodesCreatedFacts(t2, privileged, umask);
    RootfsDev.DevNodesCreatedKeys(t2, privileged, umask);
    InitNotDevAdded();
    BusyboxNotDevAdded();
    KeepsOut(t2, r, Paths.Ancestry(DevDir) + RootfsDev.DevPaths(Devices) + {DevPtsDir});
  }

  /** Nothing on the way to dev/pts is a file when every file is the host's or sits in etc. */
  lemma DevWayClear(t2: Tree)
    requires FilesUnder(t2, {'e'})
    ensures !Blocked(t2, DevDir)
    ensures DevPtsDir in t2 ==> t2[DevPtsDir].kind.Directory?
  {
    forall q | q in Paths.Ancestry(DevDir) && q in t2
      ensures t2[q].kind.Directory?
    {
      assert |q| <= |DevDir| && q == DevDir[..|q|];
      assert DevDir[0] == 'w' && DevDir[18] == 'd';
    }
    assert DevPtsDir[0] == 'w' && DevPtsDir[18] == 'd';
  }

  /** What create_dev_nodes adds are directories and device nodes below dev. */
  lemma DevAddsFiles(t2: Tree, r: Tree)
    requires FilesUnder(t2, {'e'})
    requires r.Keys == t2.Keys + Paths.Ancestry(DevDir) + RootfsDev.DevPaths(Devices) + {DevPtsDir}
    requires forall q :: q in t2 ==> r[q] == t2[q]
    requires forall q :: q in Paths.Ancestry(DevDir) ==> IsDir(r, q)
    requires IsDir(r, DevPtsDir)
    ensures FilesUnder(r, {'e', 'd'})
  {
    var added := Paths.Ancestry(DevDir) + RootfsDev.DevPaths(Devices) + {DevPtsDir};
    DevPathsShape();
    AddsFiles(t2, r, added, {'e'}, {'e', 'd'}, 'd');
  }

  /** A step that writes only the paths in added, with files only in entries starting with c, leaves its files in heads2. */
  lemma AddsFiles(t: Tree, r: Tree, added: set<string>, heads: set<char>, heads2: set<char>, c: char)
    requires FilesUnder(t, heads) && heads <= heads2 && c in heads2
    requires r.Keys == t.Keys + added
    requires forall q :: q in t && q !in added ==> r[q] == t[q]
    requires forall q :: q in added && !r[q].kind.Directory? ==> |q| > 18 && q[18] == c
    ensures FilesUnder(r, heads2)
  {
    forall q | q in r && !r[q].kind.Directory?
      ensures Paths.Absolute(q) || (|q| > 18 && q[18] in heads2)
    {
      if q !in added {
        assert r[q] == t[q];
      }
    }
  }

  /** A step that adds only the paths in added, none of them /init or bin/busybox, leaves both absent and keeps rootfs_dir. */
  lemma KeepsOut(t: Tree, r: Tree, added: set<string>)
    requires IsDir(t, RootfsDir) && InitPath !in t && BusyboxPath !in t
    requires r.Keys == t.Keys + added && InitPath !in added && BusyboxPath !in added
    requires forall q :: q in t ==> r[q] == t[q]
    ensures IsDir(r, RootfsDir) && InitPath !in r && BusyboxPath !in r
  {
  }

  /** The steps after the device nodes succeed when only host files, /etc files and devices are non-directories and neither /init nor bin/busybox exists. */
  lemma FinishedSucceeds(t3: Tree, umask: Mode, arch: Option<string>)
    requires FilesUnder(t3, {'e', 'd'}) && IsDir(t3, RootfsDir)
    requires InitPath !in t3 && BusyboxPath !in t3
    ensures RootfsCreate.Finished(t3, umask, arch).Ok?
  {
    var t4 := InitFresh(t3, FileMode(umask));
    InitAddsFile(t3);
    RootfsInit.SymlinksCreatedFacts(t4);
    QemuFresh(t4, arch, DirMode(umask));
    RootfsPerms.PermissionsSetFacts(RootfsQemu.QemuCopied(t4, arch, None, DirMode(umask)).value);
  }

  /** Adding /init keeps every file in etc, dev or /init. */
  lemma InitAddsFile(t3: Tree)
    requires FilesUnder(t3, {'e', 'd'})
    ensures FilesUnder(t3[InitPath := Node(Regular(InitScript), M0755)], {'e', 'd', 'i'})
  {
    assert |InitPath| == 22 && InitPath[18] == 'i';
    AddsOne(t3, InitPath, Node(Regular(InitScript), M0755), {'e', 'd'}, {'e', 'd', 'i'}, 'i');
  }

  /** Writing one file in an entry starting with c leaves the files in heads2. */
  lemma AddsOne(t: Tree, p: string, n: Node, heads: set<char>, heads2: set<char>, c: char)
    requires FilesUnder(t, heads) && heads <= heads2 && c in heads2
    requires |p| > 18 && p[18] == c
    ensures FilesUnder(t[p := n], heads2)
  {
    AddsFiles(t, t[p := n], {p}, heads, heads2, c);
  }

  /** write_init_script then succeeds, adds only /init, and leaves bin/busybox absent. */
  lemma InitFresh(t3: Tree, fileMode: Mode) returns (t4: Tree)
    requires IsDir(t3, RootfsDir) && InitPath !in t3 && BusyboxPath !in t3
    ensures t4 == t3[InitPath := Node(Regular(InitScript), M0755)]
    ensures RootfsInit.InitWritten(t3, fileMode) == Ok(t4)
    ensures IsDir(t4, RootfsDir) && BusyboxPath !in t4
  {
    RootfsInit.InitWrittenFacts(t3, fileMode);
    t4 := t3[InitPath := Node(Regular(InitScript), M0755)];
    assert BusyboxPath != InitPath by {
      assert |BusyboxPath| == 29;
    }
    assert RootfsDir != InitPath by {
      assert |RootfsDir| == 17;
    }
  }

  /** Nothing on the way to usr/bin is a file when every file is the host's or sits in etc, dev or /init. */
  lemma QemuDestClear(t: Tree)
    requires FilesUnder(t, {'e', 'd', 'i'})
    ensures !Blocked(t, RootfsQemu.QemuDestDir)
  {
    forall q | q in Paths.Ancestry(RootfsQemu.QemuDestDir) && q in t
      ensures t[q].kind.Directory?
    {
      assert |q| <= |RootfsQemu.QemuDestDir| && q == RootfsQemu.QemuDestDir[..|q|];
      assert RootfsQemu.QemuDestDir[0] == 'w' && RootfsQemu.QemuDestDir[18] == 'u';
    }
  }

  /** copy_qemu_user_static succeeds and keeps rootfs_dir when every file is the host's or sits in etc, dev or /init, whether or not the host has the emulator. */
  lemma QemuFresh(t4: Tree, arch: Option<string>, dirMode: Mode)
    requires FilesUnder(t4, {'e', 'd', 'i'}) && IsDir(t4, RootfsDir)
    ensures var r := RootfsQemu.QemuCopied(t4, arch, None, dirMode);
      r.Ok? && RootfsDir in r.value
  {
    if Emulator.QemuBinary(arch).Some? {
      var bin := Emulator.QemuBinary(arch).value;
      QemuDestClear(t4);
      RootfsQemu.QemuCopiedFails(t4, arch, None, dirMode);
      RootfsQemu.QemuCopiedKeeps(t4, arch, None, dirMode);
      RootfsCreate.DestApart(bin);
    }
  }

  /** The first three steps before the workspace exists. */
  lemma PreparedFresh(h: Tree, umask: Mode, privileged: bool)
    requires HostOnly(h)
    ensures var r := RootfsCreate.Prepared(h, EtcFiles, umask, privileged);
      && r.Ok? && FilesUnder(r.value, {'e', 'd'}) && IsDir(r.value, RootfsDir)
      && InitPath !in r.value && BusyboxPath !in r.value
  {
    DirsFresh(h, DirMode(umask));
    var t1 := RootfsDirs.DirectoriesCreated(h, DirMode(umask), None).value;
    EtcFresh(t1, DirMode(umask), FileMode(umask));
    var t2 := RootfsEtc.EtcEach(t1, EtcFiles, DirMode(umask), FileMode(umask)).value;
    DevFresh(t2, privileged, umask);
  }

  /**
   * A first create_rootfs does not raise, whatever the host holds (an
   * emulator in /usr/bin or not), the umask, the mknod permission and the
   * architecture.
   */
  lemma RootfsCreatedSucceeds(h: Tree, umask: Mode, privileged: bool, arch: Option<string>)
    requires HostOnly(h)
    ensures RootfsCreate.RootfsCreated(h, umask, privileged, arch).Ok?
  {
    PreparedFresh(h, umask, privileged);
    FinishedSucceeds(RootfsCreate.Prepared(h, EtcFiles, umask, privileged).value, umask, arch);
  }

  /** So a first run always ends with /init holding the script at mode 0644, and a rerun of the permission step changes nothing. */
  lemma FreshRunOutcome(h: Tree, umask: Mode, privileged: bool, arch: Option<string>)
    requires HostOnly(h)
    ensures var r := RootfsCreate.RootfsCreated(h, umask, privileged, arch);
      && r.Ok?
      && InitPath in r.value && r.value[InitPath] == Node(Regular(InitScript), M0644)
      && RootfsPerms.PermissionsSet(r.value) == Ok(r.value)
  {
    RootfsCreatedSucceeds(h, umask, privileged, arch);
    RootfsCreate.RootfsCreatedInit(h, umask, privileged, arch);
    RootfsCreate.RootfsCreatedStable(h, umask, privileged, arch);
  }

  // ---------------------------------------------------------------- the host's emulator

  /**
   * With the emulator for the architecture installed on the host, a first
   * run copies it into usr/bin, where it arrives executable and ends 0644
   * after the permission walk, holding what the host's copy holds.
   */
  lemma FreshRunEmulator(h: Tree, umask: Mode, privileged: bool, arch: Option<string>)
    requires HostOnly(h) && Emulator.QemuBinary(arch).Some?
    requires var src := RootfsQemu.QemuSource(None, Emulator.QemuBinary(arch).value);
      src in h && h[src].kind.Regular?
    ensures var r := RootfsCreate.RootfsCreated(h, umask, privileged, arch);
      var bin := Emulator.QemuBinary(arch).value;
      && r.Ok?
      && RootfsQemu.QemuDest(bin) in r.value
      && r.value[RootfsQemu.QemuDest(bin)] == Node(h[RootfsQemu.QemuSource(None, bin)].kind, M0644)
  {
    var src := RootfsQemu.QemuSource(None, Emulator.QemuBinary(arch).value);
    PreparedFresh(h, umask, privileged);
    PreparedKeepsHostFile(h, umask, privileged, src);
    FinishedEmulator(RootfsCreate.Prepared(h, EtcFiles, umask, privileged).value, umask, arch);
  }

  /** The last four steps, from where the first three leave a fresh run, copy a host emulator in. */
  lemma FinishedEmulator(t3: Tree, umask: Mode, arch: Option<string>)
    requires FilesUnder(t3, {'e', 'd'}) && IsDir(t3, RootfsDir)
    requires InitPath !in t3 && BusyboxPath !in t3
    requires Emulator.QemuBinary(arch).Some?
    requires var src := RootfsQemu.QemuSource(None, Emulator.QemuBinary(arch).value);
      src in t3 && t3[src].kind.Regular?
    ensures var r := RootfsCreate.Finished(t3, umask, arch);
      var bin := Emulator.QemuBinary(arch).value;
      && r.Ok?
      && RootfsQemu.QemuDest(bin) in r.value
      && r.value[RootfsQemu.QemuDest(bin)] == Node(t3[RootfsQemu.QemuSource(None, bin)].kind, M0644)
  {
    var src := RootfsQemu.QemuSource(None, Emulator.QemuBinary(arch).value);
    SourceNotInit(Emulator.QemuBinary(arch).value);
    var t4 := InitStep(t3, umask, src);
    LinkedEmulator(t4, umask, arch);
  }

  /** Writing one path leaves every other entry as it was. */
  lemma UpdateKeeps(t: Tree, p: string, n: Node, f: string)
    ensures f in t && f != p ==> f in t[p := n] && t[p := n][f] == t[f]
  {
  }

  /** write_init_script in a fresh run: it adds /init and keeps f, so every file is the host's or in etc, dev or /init. */
  lemma InitStep(t3: Tree, umask: Mode, f: string) returns (t4: Tree)
    requires FilesUnder(t3, {'e', 'd'}) && IsDir(t3, RootfsDir)
    requires InitPath !in t3 && BusyboxPath !in t3
    ensures RootfsInit.InitWritten(t3, FileMode(umask)) == Ok(t4)
    ensures FilesUnder(t4, {'e', 'd', 'i'}) && IsDir(t4, RootfsDir) && BusyboxPath !in t4
    ensures f in t3 && f != InitPath ==> f in t4 && t4[f] == t3[f]
  {
    t4 := InitFresh(t3, FileMode(umask));
    InitAddsFile(t3);
    UpdateKeeps(t3, InitPath, Node(Regular(InitScript), M0755), f);
  }

  /** Where copy_qemu_user_static looks for an emulator is the host's, never /init. */
  lemma SourceNotInit(bin: string)
    ensures RootfsQemu.QemuSource(None, bin) != InitPath
  {
    assert RootfsQemu.QemuSource(None, bin)[0] == '/' && InitPath[0] == 'w';
  }

  /** The links, the copy and the walk bring a host emulator in at 0644. */
  lemma LinkedEmulator(t4: Tree, umask: Mode, arch: Option<string>)
    requires FilesUnder(t4, {'e', 'd', 'i'}) && IsDir(t4, RootfsDir) && BusyboxPath !in t4
    requires Emulator.QemuBinary(arch).Some?
    requires var src := RootfsQemu.QemuSource(None, Emulator.QemuBinary(arch).value);
      src in t4 && t4[src].kind.Regular?
    ensures var r := RootfsCreate.Linked(t4, umask, arch);
      var bin := Emulator.QemuBinary(arch).value;
      && r.Ok?
      && RootfsQemu.QemuDest(bin) in r.value
      && r.value[RootfsQemu.QemuDest(bin)] == Node(t4[RootfsQemu.QemuSource(None, bin)].kind, M0644)
  {
    RootfsInit.SymlinksCreatedFacts(t4);
    QemuFresh(t4, arch, DirMode(umask));
    RootfsQemu.QemuArrives(t4, arch, None, DirMode(umask));
    RootfsOutcome.EmulatorLosesExecutable(t4, arch, None, DirMode(umask));
    RootfsPerms.PermissionsSetFacts(RootfsQemu.QemuCopied(t4, arch, None, DirMode(umask)).value);
  }

  /** The first three steps leave a host file as it was. */
  lemma PreparedKeepsHostFile(h: Tree, umask: Mode, privileged: bool, f: string)
    requires HostOnly(h) && f in h && !h[f].kind.Directory?
    ensures var r := RootfsCreate.Prepared(h, EtcFiles, umask, privileged);
      r.Ok? ==> f in r.value && r.value[f] == h[f]
  {
    DirsKeepHostFile(h, DirMode(umask), f);
    var t1 := RootfsDirs.DirectoriesCreated(h, DirMode(umask), None).value;
    var e := RootfsEtc.EtcEach(t1, EtcFiles, DirMode(umask), FileMode(umask));
    if e.Ok? {
      EtcKeepsHostFile(t1, DirMode(umask), FileMode(umask), f);
      RootfsDev.DevNodesCreatedFacts(e.value, privileged, umask);
    }
  }

  /** create_directories leaves a host file as it was. */
  lemma DirsKeepHostFile(h: Tree, mode: Mode, f: string)
    requires HostOnly(h) && f in h && !h[f].kind.Directory?
    ensures var r := RootfsDirs.DirectoriesCreated(h, mode, None);
      r.Ok? && f in r.value && r.value[f] == h[f]
  {
    HostClear(h);
    RootfsDirs.DirectoriesCreatedSucceeds(h, mode, None);
    RootfsDirs.DirectoriesCreatedFacts(h, mode, None);
  }

  /** create_etc_files leaves a host file as it was. */
  lemma EtcKeepsHostFile(t1: Tree, dirMode: Mode, fileMode: Mode, f: string)
    requires Paths.Absolute(f) && f in t1
    ensures var r := RootfsEtc.EtcEach(t1, EtcFiles, dirMode, fileMode);
      r.Ok? ==> f in r.value && r.value[f] == t1[f]
  {
    RootfsEtc.EtcFilesWrittenFacts(t1, dirMode, fileMode);
    TargetsRelative(EtcFiles);
  }
}
