/**
 * The fixed layout sources/utils/create.py lays down: the workspace
 * directories, the root filesystem's subdirectories, the /etc files with
 * their contents, the init script, the device catalogue, and the name rules
 * that decide where an /etc entry lands and which files are executable.
 * Paths are relative to the working directory, as in the script.
 */
module RootfsLayout {
  import opened Text
  import Paths
  import opened FsTree

  const WorkDir := "work"
  const DownloadsDir := "work/downloads"
  const BuildDir := "work/build"
  const OutputDir := "work/output"
  const RootfsDir := "work/build/rootfs"
  const BootfsDir := "work/build/bootfs"

  const WorkspaceDirs: seq<string> := [WorkDir, DownloadsDir, BuildDir, OutputDir, RootfsDir, BootfsDir]

  /** The workspace is the chain of joins the script writes. */
  lemma WorkspaceLayout()
    ensures DownloadsDir == Paths.Join(WorkDir, "downloads")
    ensures BuildDir == Paths.Join(WorkDir, "build")
    ensures OutputDir == Paths.Join(WorkDir, "output")
    ensures RootfsDir == Paths.Join(BuildDir, "rootfs")
    ensures BootfsDir == Paths.Join(BuildDir, "bootfs")
  {
  }

  const RootfsSubdirs: seq<string> := [
    "bin", "sbin", "lib", "lib64", "boot", "dev", "proc", "sys", "tmp", "mnt",
    "media", "opt", "home", "root", "run", "root/.ssh",
    "etc", "etc/init.d", "etc/network", "etc/rc.d", "etc/skel", "etc/ssh",
    "etc/systemd", "etc/default", "etc/sysconfig",
    "var", "var/log", "var/run", "var/lock", "var/tmp", "var/spool", "var/lib",
    "usr/bin", "usr/sbin", "usr/lib", "usr/include", "usr/share/man", "usr/share/doc", "usr/share/locale",
    "usr/local/bin", "usr/local/sbin", "usr/local/lib", "usr/local/etc", "usr/local/share",
    "srv/www"
  ]

  /** rootfs_dir / sub */
  function InRootfs(sub: string): string {
    Paths.Join(RootfsDir, sub)
  }

  /** The default modes of new directories and files under a umask. */
  function DirMode(umask: Mode): Mode { M0777 & !umask }
  function FileMode(umask: Mode): Mode { M0666 & !umask }

  // ---------------------------------------------------------------- /etc

  const EtcDir := "work/build/rootfs/etc"

  const Profile :=
    "# /etc/profile\n"
    + "export PATH=/bin:/sbin:/usr/bin:/usr/sbin:/usr/local/bin:/usr/local/sbin\n"
    + "PS1='\\u@\\h:\\w\\$ '\n"

  const RcS :=
    "#!/bin/sh\n"
    + "echo \"[rcS] Mounting pseudo filesystems...\"\n"
    + "mount -t proc none /proc || echo \"[rcS] Warning: /proc mount failed\"\n"
    + "mount -t sysfs none /sys || echo \"[rcS] Warning: /sys mount failed\"\n"
    + "mount -t devtmpfs devtmpfs /dev || echo \"[rcS] Warning: /dev mount failed\"\n"
    + "mount -t tmpfs tmpfs /tmp || echo \"[rcS] Warning: /tmp mount failed\"\n"
    + "mount -t tmpfs tmpfs /run || echo \"[rcS] Warning: /run mount failed\"\n"
    + "mkdir -p /run/lock\n"
    + "\n"
    + "if [ -x /sbin/mdev ]; then\n"
    + "    echo \"/sbin/mdev\" > /proc/sys/kernel/hotplug 2>/dev/null\n"
    + "    /sbin/mdev -s\n"
    + "fi\n"
    + "\n"
    + "ifconfig lo up\n"
    + "echo \"[rcS] Boot complete.\"\n"
    + "exec /bin/sh\n"

  const Inittab :=
    "::sysinit:/etc/init.d/rcS\n"
    + "::askfirst:/bin/sh\n"
    + "::ctrlaltdel:/bin/umount -a -r\n"
    + "::shutdown:/bin/umount -a -r\n"

  const Fstab :=
    "proc    /proc   proc    defaults    0   0\n"
    + "sysfs   /sys    sysfs   defaults    0   0\n"
    + "tmpfs   /tmp    tmpfs   defaults    0   0\n"
    + "devtmpfs /dev   devtmpfs defaults   0   0\n"

  const Hosts :=
    "127.0.0.1   localhost\n"
    + "::1         localhost\n"

  const Interfaces :=
    "auto lo\n"
    + "iface lo inet loopback\n"
    + "\n"
    + "auto eth0\n"
    + "iface eth0 inet dhcp\n"

  /** The keys of the etc_files table, in its insertion order. */
  const EtcKeys: seq<string> := [
    "inittab", "fstab", "hostname", "hosts", "issue", "motd",
    "network/interfaces", "resolv.conf", "init.d/rcS", "etc/profile"
  ]

  /** The contents of the etc_files table, key by key. */
  const EtcContents: seq<string> := [
    Inittab, Fstab, "minilinux\n", Hosts, "Minimal Linux \\n \\l\n",
    "Willkommen zu MiniLinux\n", Interfaces, "nameserver 8.8.8.8\n", RcS, Profile
  ]

  /** The items of a dict given as its keys and its values. */
  function Pairs(keys: seq<string>, values: seq<string>): (r: seq<(string, string)>)
    requires |keys| == |values|
    ensures |r| == |keys|
    ensures forall i :: 0 <= i < |r| ==> r[i] == (keys[i], values[i])
  {
    seq(|keys|, i requires 0 <= i < |keys| => (keys[i], values[i]))
  }

  /** The etc_files table, in its insertion order: key and content. */
  const EtcFiles: seq<(string, string)> := Pairs(EtcKeys, EtcContents)

  /** filename.replace("etc/", "") for keys that start with "etc/", the key itself otherwise. */
  function EtcRelPath(key: string): string {
    if StartsWith(key, "etc/") then RemoveAll(key, "etc/") else key
  }

  /** etc_path / rel_path */
  function EtcTarget(key: string): string {
    Paths.Join(EtcDir, EtcRelPath(key))
  }

  /** The name rule shared by the /etc writer and the permission walk. */
  predicate IsScriptName(name: string) {
    name == "rcS" || Paths.Suffix(name) == ".sh"
  }

  /** The relative paths the ten keys map to, in order: every key but the last is kept as it is. */
  const EtcRelPaths: seq<string> := EtcKeys[..9] + ["profile"]

  /** A name's length and last character, enough to tell apart the names compared below. */
  function NameKey(n: string): (int, char)
    requires n != ""
  {
    (|n|, n[|n| - 1])
  }

  /** The first nine keys are non-empty, do not start with 'e', and differ in length or last character. */
  lemma EtcKeyShapes()
    ensures forall i :: 0 <= i < 9 ==> EtcKeys[i] != "" && EtcKeys[i][0] != 'e'
    ensures forall i :: 0 <= i < 9 ==> NameKey(EtcKeys[i]) == EtcKeyNames[i]
  {
    forall i | 0 <= i < 9
      ensures EtcKeys[i] != "" && EtcKeys[i][0] != 'e' && NameKey(EtcKeys[i]) == EtcKeyNames[i]
    {
      var k := EtcKeys[i];
      assert k == ["inittab", "fstab", "hostname", "hosts", "issue", "motd",
        "network/interfaces", "resolv.conf", "init.d/rcS"][i];
    }
  }

  const EtcKeyNames: seq<(int, char)> :=
    [(7, 'b'), (5, 'b'), (8, 'e'), (5, 's'), (5, 'e'), (4, 'd'), (18, 's'), (11, 'f'), (10, 'S'), (7, 'e')]

  /** The table's keys are EtcKeys, in order. */
  lemma EtcFilesKeys()
    ensures |EtcFiles| == |EtcKeys| == 10
    ensures forall i :: 0 <= i < |EtcFiles| ==> EtcFiles[i].0 == EtcKeys[i]
  {
  }

  /** "etc/profile" loses its "etc/" prefix; the other keys do not start with "etc/" and stay as they are. */
  lemma EtcRelPathOf(i: nat)
    requires i < |EtcKeys|
    ensures EtcRelPath(EtcKeys[i]) == EtcRelPaths[i]
  {
    if i < 9 {
      EtcKeyShapes();
      var k := EtcKeys[i];
      assert k[0] != "etc/"[0];
      assert !StartsWith(k, "etc/");
      assert k == EtcRelPaths[i];
    } else {
      ProfileRelPath();
    }
  }

  /** The one key with the "etc/" prefix. */
  lemma ProfileRelPath()
    ensures EtcKeys[9] == "etc/profile"
    ensures EtcRelPath("etc/profile") == "profile" == EtcRelPaths[9]
  {
    var k := "etc/profile";
    assert StartsWith(k, "etc/");
    assert k[4..] == "profile";
    RemoveAllAbsent("profile", "etc/", '/');
  }

  /**
   * Where each /etc entry lands: the "etc/" prefix is stripped, so
   * "etc/profile" becomes etc/profile under the tree rather than
   * etc/etc/profile, and every other key, "init.d/rcS" included, is kept.
   */
  lemma EtcTargets()
    ensures |EtcKeys| == |EtcRelPaths|
    ensures forall i :: 0 <= i < |EtcKeys| ==> EtcRelPath(EtcKeys[i]) == EtcRelPaths[i]
    ensures EtcTarget("etc/profile") == Paths.Join(EtcDir, "profile")
    ensures EtcTarget("init.d/rcS") == Paths.Join(EtcDir, "init.d/rcS")
  {
    forall i | 0 <= i < |EtcKeys|
      ensures EtcRelPath(EtcKeys[i]) == EtcRelPaths[i]
    {
      EtcRelPathOf(i);
    }
    EtcRelPathOf(8);
    EtcRelPathOf(9);
  }

  /** Different relative paths under one directory are different paths. */
  lemma JoinInjective(base: string, a: string, b: string)
    requires a != "" && b != "" && Paths.Join(base, a) == Paths.Join(base, b)
    ensures a == b
  {
    assert a == Paths.Join(base, a)[|base| + 1..];
  }

  /** The ten relative paths are non-empty and pairwise different. */
  lemma EtcRelPathsDistinct()
    ensures forall i :: 0 <= i < |EtcRelPaths| ==> EtcRelPaths[i] != ""
    ensures forall i, j :: 0 <= i < j < |EtcRelPaths| ==> EtcRelPaths[i] != EtcRelPaths[j]
  {
    EtcKeyShapes();
    assert NameKey(EtcRelPaths[9]) == EtcKeyNames[9];
    forall i | 0 <= i < |EtcRelPaths|
      ensures EtcRelPaths[i] != "" && NameKey(EtcRelPaths[i]) == EtcKeyNames[i]
    {
      if i < 9 {
        assert EtcRelPaths[i] == EtcKeys[i];
      }
    }
    forall i, j | 0 <= i < j < |EtcRelPaths|
      ensures EtcRelPaths[i] != EtcRelPaths[j]
    {
      assert EtcKeyNames[i] != EtcKeyNames[j];
    }
  }

  /** No two /etc entries land on the same path. */
  lemma EtcTargetsDistinct()
    ensures forall i, j :: 0 <= i < j < |EtcKeys| ==> EtcTarget(EtcKeys[i]) != EtcTarget(EtcKeys[j])
  {
    EtcTargets();
    EtcRelPathsDistinct();
    forall i, j | 0 <= i < j < |EtcKeys|
      ensures EtcTarget(EtcKeys[i]) != EtcTarget(EtcKeys[j])
    {
      if EtcTarget(EtcKeys[i]) == EtcTarget(EtcKeys[j]) {
        JoinInjective(EtcDir, EtcRelPaths[i], EtcRelPaths[j]);
      }
    }
  }

  /** The last component of each /etc target. */
  const EtcNames: seq<string> := [
    "inittab", "fstab", "hostname", "hosts", "issue", "motd",
    "interfaces", "resolv.conf", "rcS", "profile"
  ]

  /** The name of the i-th target, and whether the executable rule picks it. */
  lemma EtcNameOf(i: nat)
    requires i < |EtcKeys|
    ensures Paths.Name(EtcTarget(EtcKeys[i])) == EtcNames[i]
    ensures IsScriptName(EtcNames[i]) <==> i == 8
  {
    EtcRelPathOf(i);
    EtcRelPathsDistinct();
    var rel := EtcRelPaths[i];
    Paths.NameJoin(EtcDir, rel);
    if i == 6 || i == 8 {
      EtcNameNested(i);
    } else {
      EtcNamePlain(i);
    }
    EtcNameNotScript(i);
  }

  /** network/interfaces and init.d/rcS are named by their last component. */
  lemma EtcNameNested(i: nat)
    requires i == 6 || i == 8
    ensures Paths.Name(EtcRelPaths[i]) == EtcNames[i]
  {
    if i == 6 {
      assert EtcRelPaths[6] == Paths.Join("network", "interfaces");
      Paths.JoinNameParent("network", "interfaces");
    } else {
      assert EtcRelPaths[8] == Paths.Join("init.d", "rcS");
      Paths.JoinNameParent("init.d", "rcS");
    }
  }

  /** Every relative path but network/interfaces and init.d/rcS is a single component: its own name. */
  lemma EtcNamePlain(i: nat)
    requires i < |EtcRelPaths| && i != 6 && i != 8
    ensures Paths.Name(EtcRelPaths[i]) == EtcNames[i]
  {
    var rel := EtcRelPaths[i];
    assert rel == EtcNames[i] && '/' !in rel by {
      assert rel == ["inittab", "fstab", "hostname", "hosts", "issue", "motd", "", "resolv.conf", "", "profile"][i];
      assert EtcNames[i] == ["inittab", "fstab", "hostname", "hosts", "issue", "motd", "", "resolv.conf", "", "profile"][i];
    }
  }

  /** Only the name rcS passes the executable rule. */
  lemma EtcNameNotScript(i: nat)
    requires i < |EtcNames|
    ensures IsScriptName(EtcNames[i]) <==> i == 8
  {
    var n := EtcNames[i];
    Paths.SuffixIsSh(n);
    assert NameKey(n) == [(7, 'b'), (5, 'b'), (8, 'e'), (5, 's'), (5, 'e'), (4, 'd'), (10, 's'), (11, 'f'), (3, 'S'), (7, 'e')][i];
  }

  /** Of the ten /etc files only init.d/rcS is made executable: no other name is "rcS" or has the suffix ".sh". */
  lemma EtcScripts()
    ensures forall i :: 0 <= i < |EtcKeys| ==> Paths.Name(EtcTarget(EtcKeys[i])) == EtcNames[i]
    ensures forall i :: 0 <= i < |EtcKeys| ==> (IsScriptName(EtcNames[i]) <==> i == 8)
  {
    forall i | 0 <= i < |EtcKeys|
      ensures Paths.Name(EtcTarget(EtcKeys[i])) == EtcNames[i]
      ensures IsScriptName(EtcNames[i]) <==> i == 8
    {
      EtcNameOf(i);
    }
  }

  // ---------------------------------------------------------------- init

  const InitPath := "work/build/rootfs/init"

  const InitScript :=
    "#!/bin/sh\n"
    + "echo \"Starting minimal BusyBox init...\"\n"
    + "mount -t proc none /proc\n"
    + "mount -t sysfs none /sys\n"
    + "echo \"Root filesystem ready.\"\n"
    + "exec /bin/sh\n"

  // ---------------------------------------------------------------- /dev

  const DevDir := "work/build/rootfs/dev"
  const DevPtsDir := "work/build/rootfs/dev/pts"

  /** One row of the device table: name, major, minor and permission bits; every row is a character device. */
  datatype Device = Device(name: string, major: nat, minor: nat, perms: Mode)

  const Devices: seq<Device> := [
    Device("null", 1, 3, M0666),
    Device("zero", 1, 5, M0666),
    Device("console", 5, 1, M0666),
    Device("tty", 5, 0, M0666),
    Device("tty0", 4, 0, M0666),
    Device("tty1", 4, 1, M0666),
    Device("random", 1, 8, M0444),
    Device("urandom", 1, 9, M0444)
  ]

  function DevicePath(d: Device): string {
    Paths.Join(DevDir, d.name)
  }

  /** The length and last character of each device name. */
  const DeviceKeys: seq<(int, char)> := [(4, 'l'), (4, 'o'), (7, 'e'), (3, 'y'), (4, '0'), (4, '1'), (6, 'm'), (7, 'm')]

  /** Each device name is a single non-empty component. */
  lemma DeviceNameAt(i: nat)
    requires i < |Devices|
    ensures Devices[i].name != "" && '/' !in Devices[i].name && NameKey(Devices[i].name) == DeviceKeys[i]
  {
    var n := Devices[i].name;
    assert n == ["null", "zero", "console", "tty", "tty0", "tty1", "random", "urandom"][i];
  }

  lemma DeviceNameKeys()
    ensures forall i :: 0 <= i < |Devices| ==> Devices[i].name != "" && '/' !in Devices[i].name
    ensures forall i, j :: 0 <= i < j < |Devices| ==> NameKey(Devices[i].name) != NameKey(Devices[j].name)
  {
    forall i | 0 <= i < |Devices|
      ensures Devices[i].name != "" && '/' !in Devices[i].name && NameKey(Devices[i].name) == DeviceKeys[i]
    {
      DeviceNameAt(i);
    }
  }

  /** The eight device names are distinct single components, none of them executable by name. */
  lemma DeviceNames()
    ensures forall i, j :: 0 <= i < j < |Devices| ==> Devices[i].name != Devices[j].name
    ensures forall i :: 0 <= i < |Devices| ==> Devices[i].name != "" && '/' !in Devices[i].name
    ensures forall i :: 0 <= i < |Devices| ==> !IsScriptName(Devices[i].name)
  {
    DeviceNameKeys();
    forall i | 0 <= i < |Devices|
      ensures !IsScriptName(Devices[i].name)
    {
      DeviceNotScript(i);
    }
  }

  lemma DeviceNotScript(i: nat)
    requires i < |Devices|
    ensures !IsScriptName(Devices[i].name)
  {
    var n := Devices[i].name;
    Paths.SuffixIsSh(n);
    assert n[|n| - 1] != 'h';
  }

  // ---------------------------------------------------------------- links

  const BusyboxPath := "work/build/rootfs/bin/busybox"
  const SbinInit := "work/build/rootfs/sbin/init"
  const BinSh := "work/build/rootfs/bin/sh"

  // ---------------------------------------------------------------- permissions

  /** Directories the walk leaves alone, by name. */
  const KeepNames: set<string> := {"tmp", "run", "lock", "log", "dev"}

  const TmpDir := "work/build/rootfs/tmp"
  const VarTmpDir := "work/build/rootfs/var/tmp"
  const VarLogDir := "work/build/rootfs/var/log"
  const VarRunDir := "work/build/rootfs/var/run"
  const VarLockDir := "work/build/rootfs/var/lock"
}
