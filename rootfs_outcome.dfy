/**
 * What set_rootfs_permissions does to the files the earlier steps of
 * sources/utils/create.py made. The walk runs last (sources/main.py calls
 * it after create_busybox_init, create_dev_nodes and copy_qemu_user_static),
 * and its rule gives every regular file or device that is not named rcS or
 * *.sh the mode 0644: the executable bit given to /init and to the emulator,
 * and the 0666 of the writable devices, do not survive it.
 */
module RootfsOutcome {
  import opened Wrappers
  import opened FsTree
  import opened RootfsLayout
  import opened RootfsPerms
  import Text
  import Paths
  import Emulator
  import RootfsInit
  import RootfsQemu

  /** The walk enters every directory it reaches, so it reaches what lies directly inside one. */
  lemma ReachedChild(t: Tree, parent: string, name: string)
    requires Reached(t, parent) && IsDir(t, parent)
    requires name != "" && '/' !in name && Paths.Join(parent, name) in t
    ensures Reached(t, Paths.Join(parent, name))
  {
    var p := Paths.Join(parent, name);
    Paths.JoinNameParent(parent, name);
    assert Text.StartsWith(p, RootfsDir + "/") by {
      if parent == RootfsDir {
        assert p[..|RootfsDir| + 1] == RootfsDir + "/";
      } else {
        assert p[..|RootfsDir| + 1] == parent[..|RootfsDir| + 1];
      }
    }
  }

  /** A reached file that is not one of the special paths ends 0755 if its name marks a script and 0644 otherwise. */
  lemma ReachedFileMode(t: Tree, p: string)
    requires Reached(t, p) && !t[p].kind.Directory? && !t[p].kind.Symlink? && !Special(p)
    ensures PermissionsSet(t).Ok?
    ensures PermissionsSet(t).value[p].mode == if IsScriptName(Paths.Name(p)) then M0755 else M0644
  {
    ReachedRoot(t, p);
    PermissionsSetFacts(t);
  }

  /** The walk turns /init, a regular file directly in the root, into 0644: it is not named rcS or *.sh. */
  lemma InitEnds644(t: Tree)
    requires IsDir(t, RootfsDir) && InitPath in t && t[InitPath].kind.Regular?
    ensures PermissionsSet(t).Ok? && PermissionsSet(t).value[InitPath].mode == M0644
  {
    RootfsInit.InitPathParts();
    assert InitPath == Paths.Join(RootfsDir, "init");
    ReachedChild(t, RootfsDir, "init");
    Paths.SuffixIsSh("init");
    ReachedFileMode(t, InitPath);
  }

  /**
   * create_busybox_init makes /init 0755, and the later walk takes the
   * executable bit away again: the kernel is left with an init it cannot
   * execute.
   */
  lemma InitLosesExecutable(t: Tree, fileMode: Mode)
    requires RootfsInit.InitWritten(t, fileMode).Ok?
    ensures var t1 := RootfsInit.InitWritten(t, fileMode).value;
      && t1[InitPath].mode == M0755
      && PermissionsSet(t1).Ok? && PermissionsSet(t1).value[InitPath].mode == M0644
  {
    RootfsInit.InitWrittenFacts(t, fileMode);
    var t1 := RootfsInit.InitWritten(t, fileMode).value;
    assert IsDir(t1, RootfsDir) by {
      RootfsInit.InitPathParts();
      assert RootfsDir != InitPath;
    }
    InitEnds644(t1);
  }

  /**
   * Every device of the table, real or placeholder, ends 0644 after the walk,
   * whatever its table permissions (0666 for null, zero, console and the
   * ttys, 0444 for random and urandom).
   */
  lemma DeviceEnds644(t: Tree, i: nat)
    requires i < |Devices|
    requires IsDir(t, RootfsDir) && IsDir(t, DevDir)
    requires var p := DevicePath(Devices[i]); p in t && !t[p].kind.Directory? && !t[p].kind.Symlink?
    ensures PermissionsSet(t).Ok? && PermissionsSet(t).value[DevicePath(Devices[i])].mode == M0644
  {
    DeviceNameAt(i);
    DeviceNotScript(i);
    var d := Devices[i];
    var p := DevicePath(d);
    DevDirParts();
    ReachedChild(t, RootfsDir, "dev");
    ReachedChild(t, DevDir, d.name);
    Paths.JoinNameParent(DevDir, d.name);
    assert p[18] == DevDir[18];
    NotSpecialLong(p);
    ReachedFileMode(t, p);
  }

  /** dev is a child of the root, and its 19th character is not the v of var. */
  lemma DevDirParts()
    ensures DevDir == Paths.Join(RootfsDir, "dev") && DevDir[18] == 'd'
  {
  }

  /** No emulator name marks a script. */
  lemma EmulatorNotScript(arch: Option<string>)
    requires Emulator.QemuBinary(arch).Some?
    ensures var bin := Emulator.QemuBinary(arch).value; bin != "" && '/' !in bin && !IsScriptName(bin)
  {
    Emulator.QemuBinaryShape(arch);
    var bin := Emulator.QemuBinary(arch).value;
    Paths.SuffixIsSh(bin);
    assert bin[|bin| - 1] == "-static"[6] == 'c';
    assert bin != "rcS";
  }

  /** usr and usr/bin sit on the way to the emulator's directory. */
  lemma UsrBinAncestry()
    ensures RootfsQemu.QemuDestDir == Paths.Join(Paths.Join(RootfsDir, "usr"), "bin")
    ensures |RootfsQemu.QemuDestDir| == 25
  {
  }

  /** With the root, usr and usr/bin in place, the walk reaches a file put in usr/bin, and it is not special. */
  lemma UsrBinFileReached(t: Tree, bin: string)
    requires bin != "" && '/' !in bin
    requires IsDir(t, RootfsDir) && IsDir(t, Paths.Join(RootfsDir, "usr")) && IsDir(t, RootfsQemu.QemuDestDir)
    requires RootfsQemu.QemuDest(bin) in t
    ensures Reached(t, RootfsQemu.QemuDest(bin)) && !Special(RootfsQemu.QemuDest(bin))
    ensures Paths.Name(RootfsQemu.QemuDest(bin)) == bin
  {
    var usr := Paths.Join(RootfsDir, "usr");
    var usrBin := RootfsQemu.QemuDestDir;
    var dest := RootfsQemu.QemuDest(bin);
    UsrBinAncestry();
    ReachedChild(t, RootfsDir, "usr");
    ReachedChild(t, usr, "bin");
    ReachedChild(t, usrBin, bin);
    Paths.JoinNameParent(usrBin, bin);
    SpecialShort(dest);
  }

  /** No special path is longer than var/lock. */
  lemma SpecialShort(p: string)
    requires |p| > 26
    ensures !Special(p)
  {
    assert |VarLockDir| == 26 && |VarTmpDir| == 25 && |VarLogDir| == 25 && |VarRunDir| == 25;
    assert |RootfsDir| == 17 && |DevDir| == 21 && |TmpDir| == 21;
  }

  /**
   * The emulator copy_qemu_user_static places in usr/bin at 0755 ends 0644
   * after the walk, so a foreign-architecture chroot cannot execute it.
   */
  lemma EmulatorLosesExecutable(t: Tree, arch: Option<string>, qemuDir: Option<string>, dirMode: Mode)
    requires Emulator.QemuBinary(arch).Some?
    requires var src := RootfsQemu.QemuSource(qemuDir, Emulator.QemuBinary(arch).value);
      src in t && t[src].kind.Regular?
    requires RootfsQemu.QemuCopied(t, arch, qemuDir, dirMode).Ok?
    ensures var t1 := RootfsQemu.QemuCopied(t, arch, qemuDir, dirMode).value;
      var dest := RootfsQemu.QemuDest(Emulator.QemuBinary(arch).value);
      && dest in t1 && t1[dest].mode == M0755
      && PermissionsSet(t1).Ok? && PermissionsSet(t1).value[dest].mode == M0644
  {
    var bin := Emulator.QemuBinary(arch).value;
    var t1 := RootfsQemu.QemuCopied(t, arch, qemuDir, dirMode).value;
    var dest := RootfsQemu.QemuDest(bin);
    RootfsQemu.QemuArrives(t, arch, qemuDir, dirMode);
    RootfsQemu.QemuCopiedKeeps(t, arch, qemuDir, dirMode);
    UsrBinAncestry();
    Paths.AncestryJoin(RootfsDir, "usr");
    Paths.AncestryJoin(Paths.Join(RootfsDir, "usr"), "bin");
    EmulatorNotScript(arch);
    UsrBinFileReached(t1, bin);
    ReachedFileMode(t1, dest);
  }

  /** A second run leaves the node at q as the first left it. */
  lemma IdempotentAt(t: Tree, q: string)
    requires PermissionsSet(t).Ok? && q in t
    requires PermissionsSet(PermissionsSet(t).value).Ok?
    ensures var r := PermissionsSet(t).value;
      q in r && q in PermissionsSet(r).value && PermissionsSet(r).value[q] == r[q]
  {
    PermissionsSetFacts(t);
    var r := PermissionsSet(t).value;
    PermissionsSetAt(t, q);
    PermissionsSetAt(r, q);
    if !r[q].kind.Symlink? && !Special(q) {
      ReachedShape(t, r, q);
      if Reached(t, q) {
        NewModeAgain(t, r, q);
      }
    }
  }

  /**
   * Running set_rootfs_permissions a second time changes nothing: the
   * special paths get the same fixed modes again, and every other mode the
   * walk gives depends only on kinds and names, except that directories
   * named tmp, run, lock, log or dev keep the mode they have.
   */
  lemma PermissionsSetIdempotent(t: Tree)
    requires PermissionsSet(t).Ok?
    ensures PermissionsSet(PermissionsSet(t).value) == PermissionsSet(t)
  {
    var r := PermissionsSet(t).value;
    PermissionsSetFacts(t);
    PermissionsSetFacts(r);
    var r2 := PermissionsSet(r).value;
    forall q | q in r
      ensures r2[q] == r[q]
    {
      IdempotentAt(t, q);
    }
    SameTrees(r2, r);
  }
}
