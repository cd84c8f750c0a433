/**
 * copy_qemu_user_static (sources/utils/create.py): copy the user-mode
 * emulator for the target architecture into usr/bin of the root filesystem
 * so that a foreign-architecture chroot can run.
 */
module RootfsQemu {
  import opened Wrappers
  import opened FsTree
  import opened RootfsLayout
  import Paths
  import Emulator

  /** Where the emulators are looked for when no directory is given. */
  const DefaultQemuDir := "/usr/bin"

  /** rootfs_dir / "usr/bin": dest.parent. */
  const QemuDestDir := "work/build/rootfs/usr/bin"

  function QemuSource(qemuDir: Option<string>, bin: string): string {
    Paths.Join(if qemuDir.Some? then qemuDir.value else DefaultQemuDir, bin)
  }

  function QemuDest(bin: string): string {
    Paths.Join(QemuDestDir, bin)
  }

  /**
   * No emulator for the architecture: nothing happens. Otherwise usr/bin is
   * made, and the emulator is copied there and made executable only if it
   * exists on the host.
   */
  function QemuCopied(t: Tree, arch: Option<string>, qemuDir: Option<string>, dirMode: Mode): Result<Tree, FsError> {
    match Emulator.QemuBinary(arch)
    case None => Ok(t)
    case Some(bin) => QemuInstalled(t, bin, qemuDir, dirMode)
  }

  /** The copy of a found emulator named bin. */
  function QemuInstalled(t: Tree, bin: string, qemuDir: Option<string>, dirMode: Mode): Result<Tree, FsError> {
    match MakeDirs(t, QemuDestDir, dirMode)
    case Err(e) => Err(e)
    case Ok(t1) =>
      var src := QemuSource(qemuDir, bin);
      if src !in t1 then Ok(t1)
      else Ok(Chmod(Copy(t1, src, QemuDest(bin)), QemuDest(bin), M0755))
  }

  /** With an emulator for the architecture, the copy fails exactly when something that is not a directory stands on the way to usr/bin. */
  lemma QemuCopiedFails(t: Tree, arch: Option<string>, qemuDir: Option<string>, dirMode: Mode)
    requires Emulator.QemuBinary(arch).Some?
    ensures QemuCopied(t, arch, qemuDir, dirMode).Err? <==> Blocked(t, QemuDestDir)
  {
  }

  /**
   * After a successful copy step usr/bin is a directory all the way up (even
   * when the emulator is missing on the host), and no node other than the
   * destination changed.
   */
  lemma QemuCopiedKeeps(t: Tree, arch: Option<string>, qemuDir: Option<string>, dirMode: Mode)
    requires Emulator.QemuBinary(arch).Some?
    ensures var r := QemuCopied(t, arch, qemuDir, dirMode); var bin := Emulator.QemuBinary(arch).value;
      r.Ok? ==>
        && (forall q :: q in Paths.Ancestry(QemuDestDir) ==> IsDir(r.value, q))
        && (forall q :: q in t && q != QemuDest(bin) ==> q in r.value && r.value[q] == t[q])
  {
    var bin := Emulator.QemuBinary(arch).value;
    Emulator.QemuBinaryCases(arch);
    assert QemuCopied(t, arch, qemuDir, dirMode) == QemuInstalled(t, bin, qemuDir, dirMode);
    InstalledKeeps(t, bin, qemuDir, dirMode);
  }

  /** The copy of a found emulator keeps usr/bin's ancestry and every node but the destination. */
  lemma InstalledKeeps(t: Tree, bin: string, qemuDir: Option<string>, dirMode: Mode)
    requires bin != ""
    ensures var r := QemuInstalled(t, bin, qemuDir, dirMode);
      r.Ok? ==>
        && (forall q :: q in Paths.Ancestry(QemuDestDir) ==> IsDir(r.value, q))
        && (forall q :: q in t && q != QemuDest(bin) ==> q in r.value && r.value[q] == t[q])
  {
    var src := QemuSource(qemuDir, bin);
    var m := MakeDirs(t, QemuDestDir, dirMode);
    if m.Ok? {
      assert QemuInstalled(t, bin, qemuDir, dirMode)
        == Ok(if src !in m.value then m.value else Chmod(Copy(m.value, src, QemuDest(bin)), QemuDest(bin), M0755));
      assert |QemuDest(bin)| > |QemuDestDir|;
      CopyBelowKeeps(t, QemuDestDir, src, QemuDest(bin), dirMode);
    }
  }

  /** Making dir and then copying src, if present, to a path longer than dir keeps dir's ancestry and every other node. */
  lemma CopyBelowKeeps(t: Tree, dir: string, src: string, dest: string, dirMode: Mode)
    requires MakeDirs(t, dir, dirMode).Ok?
    requires |dest| > |dir|
    ensures var t1 := MakeDirs(t, dir, dirMode).value;
      var r := if src !in t1 then t1 else Chmod(Copy(t1, src, dest), dest, M0755);
      && (forall q :: q in Paths.Ancestry(dir) ==> IsDir(r, q))
      && (forall q :: q in t && q != dest ==> q in r && r[q] == t[q])
  {
    var t1 := MakeDirs(t, dir, dirMode).value;
    if src in t1 {
      var r := Chmod(Copy(t1, src, dest), dest, M0755);
      forall q | q in Paths.Ancestry(dir)
        ensures IsDir(r, q)
      {
        assert q != dest && IsDir(t1, q);
      }
      forall q | q in t && q != dest
        ensures q in r && r[q] == t[q]
      {
        assert t1[q] == t[q];
      }
    }
  }

  /** An emulator missing on the host: only usr/bin and the directories above it may be new. */
  lemma QemuMissing(t: Tree, arch: Option<string>, qemuDir: Option<string>, dirMode: Mode)
    requires Emulator.QemuBinary(arch).Some?
    requires var src := QemuSource(qemuDir, Emulator.QemuBinary(arch).value);
      src !in t && src !in Paths.Ancestry(QemuDestDir)
    ensures var r := QemuCopied(t, arch, qemuDir, dirMode);
      r.Ok? ==> r.value.Keys == t.Keys + Paths.Ancestry(QemuDestDir)
  {
  }

  /** An emulator present on the host as a regular file arrives in usr/bin with its contents, at mode 0755. */
  lemma QemuArrives(t: Tree, arch: Option<string>, qemuDir: Option<string>, dirMode: Mode)
    requires Emulator.QemuBinary(arch).Some?
    requires var src := QemuSource(qemuDir, Emulator.QemuBinary(arch).value);
      src in t && t[src].kind.Regular?
    ensures var r := QemuCopied(t, arch, qemuDir, dirMode); var bin := Emulator.QemuBinary(arch).value;
      r.Ok? ==>
        QemuDest(bin) in r.value
        && r.value[QemuDest(bin)] == Node(t[QemuSource(qemuDir, bin)].kind, M0755)
  {
  }

  /** An architecture outside the table (or none at all) leaves the tree as it was. */
  lemma QemuUnknownArch(t: Tree, arch: Option<string>, qemuDir: Option<string>, dirMode: Mode)
    requires arch !in {Some("arm64"), Some("arm"), Some("x86_64"), Some("i386")}
    ensures QemuCopied(t, arch, qemuDir, dirMode) == Ok(t)
  {
    Emulator.QemuBinaryCases(arch);
  }
}
