/**
 * Where the paths of a rootfs build lie relative to one another: which
 * paths are on the way to the directories that create_directories,
 * create_etc_files, create_dev_nodes and copy_qemu_user_static make
 * (sources/utils/create.py), and which are not.
 */
module RootfsWays {
  import opened RootfsLayout
  import FsTree
  import Paths
  import RootfsEtc
  import RootfsDev

  // ---------------------------------------------------------------- the subdirectories

  /** The character of s at k, or a blank past its end. */
  function At(s: string, k: nat): char {
    if k < |s| then s[k] else ' '
  }

  /** For each subdirectory below etc of at least eight characters: its fifth and sixth characters and its length. */
  const EtcSubdirKeys: set<(char, char, int)> := {('d', 'e', 11), ('i', 'n', 10), ('n', 'e', 11), ('r', 'c', 8), ('s', 'k', 8), ('s', 'y', 11), ('s', 'y', 13)}

  /**
   * What the file-path argument needs of a subdirectory: no name starting
   * with 'i' (for /init), none starting with 'b' as long as bin/busybox,
   * and those below etc long enough to hold an /etc file described by
   * EtcSubdirKeys.
   */
  predicate SubdirSafe(s: string) {
    && s != "" && s[0] != 'i'
    && (s[0] == 'b' ==> |s| < 11)
    && (s[0] == 'e' && |s| >= 8 ==> (At(s, 4), At(s, 5), |s|) in EtcSubdirKeys)
  }

  lemma SubdirsSafe(i: nat)
    requires i < |RootfsSubdirs|
    ensures SubdirSafe(RootfsSubdirs[i])
  {
    if i == 0 {
      SubdirFirstSafe();
    } else if i < 9 {
      SubdirsSafeFrom1(i);
    } else if i < 18 {
      SubdirsSafeFrom9(i);
    } else if i < 27 {
      SubdirsSafeFrom18(i);
    } else if i < 36 {
      SubdirsSafeFrom27(i);
    } else {
      SubdirsSafeFrom36(i);
    }
  }

  lemma SubdirFirstSafe()
    ensures SubdirSafe(RootfsSubdirs[0])
  {
    assert RootfsSubdirs == ["bin"] + RootfsSubdirs[1..];
  }

  lemma SubdirsSafeFrom1(i: nat)
    requires 1 <= i < 9
    ensures SubdirSafe(RootfsSubdirs[i])
  {
    if i == 1 {
      assert RootfsSubdirs[1] == "sbin";
    } else if i == 2 {
      assert RootfsSubdirs[2] == "lib";
    } else if i == 3 {
      assert RootfsSubdirs[3] == "lib64";
    } else if i == 4 {
      assert RootfsSubdirs[4] == "boot";
    } else if i == 5 {
      assert RootfsSubdirs[5] == "dev";
    } else if i == 6 {
      assert RootfsSubdirs[6] == "proc";
    } else if i == 7 {
      assert RootfsSubdirs[7] == "sys";
    } else if i == 8 {
      assert RootfsSubdirs[8] == "tmp";
    }
  }

  lemma SubdirsSafeFrom9(i: nat)
    requires 9 <= i < 18
    ensures SubdirSafe(RootfsSubdirs[i])
  {
    if i == 9 {
      assert RootfsSubdirs[9] == "mnt";
    } else if i == 10 {
      assert RootfsSubdirs[10] == "media";
    } else if i == 11 {
      assert RootfsSubdirs[11] == "opt";
    } else if i == 12 {
      assert RootfsSubdirs[12] == "home";
    } else if i == 13 {
      assert RootfsSubdirs[13] == "root";
    } else if i == 14 {
      assert RootfsSubdirs[14] == "run";
    } else if i == 15 {
      assert RootfsSubdirs[15] == "root/.ssh";
    } else if i == 16 {
      assert RootfsSubdirs[16] == "etc";
    } else if i == 17 {
      assert RootfsSubdirs[17] == "etc/init.d";
    }
  }

  lemma SubdirsSafeFrom18(i: nat)
    requires 18 <= i < 27
    ensures SubdirSafe(RootfsSubdirs[i])
  {
    if i == 18 {
      assert RootfsSubdirs[18] == "etc/network";
    } else if i == 19 {
      assert RootfsSubdirs[19] == "etc/rc.d";
    } else if i == 20 {
      assert RootfsSubdirs[20] == "etc/skel";
    } else if i == 21 {
      assert RootfsSubdirs[21] == "etc/ssh";
    } else if i == 22 {
      assert RootfsSubdirs[22] == "etc/systemd";
    } else if i == 23 {
      assert RootfsSubdirs[23] == "etc/default";
    } else if i == 24 {
      assert RootfsSubdirs[24] == "etc/sysconfig";
    } else if i == 25 {
      assert RootfsSubdirs[25] == "var";
    } else if i == 26 {
      assert RootfsSubdirs[26] == "var/log";
    }
  }

  lemma SubdirsSafeFrom27(i: nat)
    requires 27 <= i < 36
    ensures SubdirSafe(RootfsSubdirs[i])
  {
    if i == 27 {
      assert RootfsSubdirs[27] == "var/run";
    } else if i == 28 {
      assert RootfsSubdirs[28] == "var/lock";
    } else if i == 29 {
      assert RootfsSubdirs[29] == "var/tmp";
    } else if i == 30 {
      assert RootfsSubdirs[30] == "var/spool";
    } else if i == 31 {
      assert RootfsSubdirs[31] == "var/lib";
    } else if i == 32 {
      assert RootfsSubdirs[32] == "usr/bin";
    } else if i == 33 {
      assert RootfsSubdirs[33] == "usr/sbin";
    } else if i == 34 {
      assert RootfsSubdirs[34] == "usr/lib";
    } else if i == 35 {
      assert RootfsSubdirs[35] == "usr/include";
    }
  }

  lemma SubdirsSafeFrom36(i: nat)
    requires 36 <= i < 45
    ensures SubdirSafe(RootfsSubdirs[i])
  {
    if i == 36 {
      assert RootfsSubdirs[36] == "usr/share/man";
    } else if i == 37 {
      assert RootfsSubdirs[37] == "usr/share/doc";
    } else if i == 38 {
      assert RootfsSubdirs[38] == "usr/share/locale";
    } else if i == 39 {
      assert RootfsSubdirs[39] == "usr/local/bin";
    } else if i == 40 {
      assert RootfsSubdirs[40] == "usr/local/sbin";
    } else if i == 41 {
      assert RootfsSubdirs[41] == "usr/local/lib";
    } else if i == 42 {
      assert RootfsSubdirs[42] == "usr/local/etc";
    } else if i == 43 {
      assert RootfsSubdirs[43] == "usr/local/share";
    } else if i == 44 {
      assert RootfsSubdirs[44] == "srv/www";
    }
  }

  /** A path below rootfs_dir is on the way to rootfs_dir/s only if s starts with the same character. */
  lemma UnderSubdirHead(f: string, s: string)
    requires |f| > 18 && s != "" && f in Paths.Ancestry(InRootfs(s))
    ensures s[0] == f[18]
  {
    var d := InRootfs(s);
    assert d == RootfsDir + "/" + s;
    assert f == d[..|f|];
    assert d[18] == s[0];
  }

  /** A path is on the way to rootfs_dir/s only if s is long enough. */
  lemma UnderSubdirLong(f: string, s: string)
    requires f in Paths.Ancestry(InRootfs(s))
    ensures |s| >= |f| - 18
  {
  }

  /** A path of at least 24 characters is on the way to rootfs_dir/s only if s agrees with it at three places and is long enough. */
  lemma UnderSubdir(f: string, s: string)
    requires |f| >= 24 && s != "" && f in Paths.Ancestry(InRootfs(s))
    ensures s[0] == f[18] && At(s, 4) == f[22] && At(s, 5) == f[23] && |s| >= |f| - 18
  {
    var d := InRootfs(s);
    assert d == RootfsDir + "/" + s;
    assert f == d[..|f|];
    assert d[18] == s[0] && d[22] == s[4] && d[23] == s[5];
  }

  /** A path longer than rootfs_dir lies on the way to no workspace directory. */
  lemma OffWorkspace(f: string)
    requires |f| > 17
    ensures forall i :: 0 <= i < |WorkspaceDirs| ==> f !in Paths.Ancestry(WorkspaceDirs[i])
  {
    forall i | 0 <= i < |WorkspaceDirs|
      ensures f !in Paths.Ancestry(WorkspaceDirs[i])
    {
      assert |WorkspaceDirs[i]| <= 17;
    }
  }

  // ---------------------------------------------------------------- the /etc targets

  /** For each /etc entry: the first two characters and the length of its relative path. */
  const EtcRelKeys: seq<(char, char, int)> := [
    ('i', 'n', 7), ('f', 's', 5), ('h', 'o', 8), ('h', 'o', 5), ('i', 's', 5),
    ('m', 'o', 4), ('n', 'e', 18), ('r', 'e', 11), ('i', 'n', 10), ('p', 'r', 7)
  ]

  /** Each /etc target sits in etc below rootfs_dir, and EtcRelKeys describes what follows etc/. */
  lemma EtcTargetShape(j: nat)
    requires j < |EtcKeys|
    ensures var f := EtcTarget(EtcKeys[j]);
      |f| >= 26 && f[18] == 'e' && (f[22], f[23], |f| - 22) == EtcRelKeys[j]
  {
    EtcRelPathOf(j);
    var rel := EtcRelPaths[j];
    assert (rel[0], rel[1], |rel|) == EtcRelKeys[j] by {
      assert rel == ["inittab", "fstab", "hostname", "hosts", "issue", "motd",
        "network/interfaces", "resolv.conf", "init.d/rcS", "profile"][j];
    }
    var f := EtcTarget(EtcKeys[j]);
    assert f == EtcDir + "/" + rel;
    assert f[18] == EtcDir[18] && f[22] == rel[0] && f[23] == rel[1];
  }

  /** No subdirectory below etc described by EtcSubdirKeys is on the way to an /etc target. */
  lemma EtcRelKeysApart(j: nat)
    requires j < |EtcRelKeys|
    ensures forall k :: k in EtcSubdirKeys ==>
      !(k.0 == EtcRelKeys[j].0 && k.1 == EtcRelKeys[j].1 && k.2 >= EtcRelKeys[j].2 + 4)
  {
  }

  /** No /etc target lies on the way to a subdirectory. */
  lemma EtcTargetOffSubdirs(j: nat)
    requires j < |EtcKeys|
    ensures forall i :: 0 <= i < |RootfsSubdirs| ==> EtcTarget(EtcKeys[j]) !in Paths.Ancestry(InRootfs(RootfsSubdirs[i]))
  {
    var f := EtcTarget(EtcKeys[j]);
    EtcTargetShape(j);
    EtcRelKeysApart(j);
    forall i | 0 <= i < |RootfsSubdirs|
      ensures f !in Paths.Ancestry(InRootfs(RootfsSubdirs[i]))
    {
      SubdirsSafe(i);
      if f in Paths.Ancestry(InRootfs(RootfsSubdirs[i])) {
        UnderSubdir(f, RootfsSubdirs[i]);
      }
    }
  }

  /** bin/busybox lies on the way to no subdirectory. */
  lemma BusyboxOffSubdirs()
    ensures forall i :: 0 <= i < |RootfsSubdirs| ==> BusyboxPath !in Paths.Ancestry(InRootfs(RootfsSubdirs[i]))
  {
    forall i | 0 <= i < |RootfsSubdirs|
      ensures BusyboxPath !in Paths.Ancestry(InRootfs(RootfsSubdirs[i]))
    {
      SubdirsSafe(i);
      assert BusyboxPath[18] == 'b' && |BusyboxPath| == 29;
      if BusyboxPath in Paths.Ancestry(InRootfs(RootfsSubdirs[i])) {
        UnderSubdirHead(BusyboxPath, RootfsSubdirs[i]);
        UnderSubdirLong(BusyboxPath, RootfsSubdirs[i]);
      }
    }
  }

  const EtcNetworkDir := "work/build/rootfs/etc/network"
  const EtcInitDir := "work/build/rootfs/etc/init.d"

  /** The directories on the way to an /etc entry's directory: those on the way to etc, and etc/network or etc/init.d. */
  lemma EtcWays(j: nat)
    requires j < |EtcKeys|
    ensures forall q :: q in Paths.Ancestry(Paths.Parent(EtcTarget(EtcKeys[j]))) ==>
      q in Paths.Ancestry(EtcDir) || q == EtcNetworkDir || q == EtcInitDir
  {
    if j == 6 {
      NetworkWays();
    } else if j == 8 {
      InitDWays();
    } else {
      PlainWays(j);
    }
  }

  lemma NetworkWays()
    ensures Paths.Ancestry(Paths.Parent(EtcTarget(EtcKeys[6]))) == Paths.Ancestry(EtcDir) + {EtcNetworkDir}
  {
    NestedTargets();
    NestedWays(EtcDir, "network", "interfaces");
  }

  lemma InitDWays()
    ensures Paths.Ancestry(Paths.Parent(EtcTarget(EtcKeys[8]))) == Paths.Ancestry(EtcDir) + {EtcInitDir}
  {
    NestedTargets();
    NestedWays(EtcDir, "init.d", "rcS");
  }

  /** The two nested /etc entries sit one directory below etc. */
  lemma NestedTargets()
    ensures EtcNetworkDir == Paths.Join(EtcDir, "network")
    ensures EtcTarget(EtcKeys[6]) == Paths.Join(Paths.Join(EtcDir, "network"), "interfaces")
    ensures EtcInitDir == Paths.Join(EtcDir, "init.d")
    ensures EtcTarget(EtcKeys[8]) == Paths.Join(Paths.Join(EtcDir, "init.d"), "rcS")
  {
    EtcRelPathOf(6);
    EtcRelPathOf(8);
  }

  /** The way to the directory of base/dir/name is the way to base, then base/dir. */
  lemma NestedWays(base: string, dir: string, name: string)
    requires base != "" && dir != "" && '/' !in dir && name != "" && '/' !in name
    ensures Paths.Ancestry(Paths.Parent(Paths.Join(Paths.Join(base, dir), name)))
      == Paths.Ancestry(base) + {Paths.Join(base, dir)}
  {
    Paths.JoinNameParent(Paths.Join(base, dir), name);
    Paths.AncestryJoinOne(base, dir);
  }

  lemma PlainWays(j: nat)
    requires j < |EtcKeys| && j != 6 && j != 8
    ensures Paths.Parent(EtcTarget(EtcKeys[j])) == EtcDir
  {
    EtcRelPathOf(j);
    var rel := EtcRelPaths[j];
    assert rel != "" && '/' !in rel by {
      assert rel == ["inittab", "fstab", "hostname", "hosts", "issue", "motd", "x", "resolv.conf", "x", "profile"][j];
    }
    Paths.JoinNameParent(EtcDir, rel);
  }

  /** A path that is none of etc/network, etc/init.d, and longer than etc, is on the way to no /etc entry's directory. */
  lemma OffEtcWays(f: string)
    requires |f| > 21 && f != EtcNetworkDir && f != EtcInitDir
    ensures forall j :: 0 <= j < |EtcKeys| ==> f !in Paths.Ancestry(Paths.Parent(EtcTarget(EtcKeys[j])))
  {
    forall j | 0 <= j < |EtcKeys|
      ensures f !in Paths.Ancestry(Paths.Parent(EtcTarget(EtcKeys[j])))
    {
      EtcWays(j);
    }
  }

  /** No /etc target is on the way to another entry's directory. */
  lemma EtcTargetsOffWays()
    ensures RootfsEtc.TargetsOffWays(EtcFiles)
  {
    EtcFilesKeys();
    forall j | 0 <= j < |EtcKeys|
      ensures forall i :: 0 <= i < |EtcKeys| ==> EtcTarget(EtcKeys[j]) !in Paths.Ancestry(Paths.Parent(EtcTarget(EtcKeys[i])))
    {
      var f := EtcTarget(EtcKeys[j]);
      EtcTargetShape(j);
      assert f != EtcNetworkDir by {
        assert EtcNetworkDir[22] == 'n' && |EtcNetworkDir| == 29;
      }
      assert f != EtcInitDir by {
        assert EtcInitDir[22] == 'i' && |EtcInitDir| == 28;
      }
      OffEtcWays(f);
    }
  }

  lemma InitOffSubdirs()
    ensures forall i :: 0 <= i < |RootfsSubdirs| ==> InitPath !in Paths.Ancestry(InRootfs(RootfsSubdirs[i]))
  {
    forall i | 0 <= i < |RootfsSubdirs|
      ensures InitPath !in Paths.Ancestry(InRootfs(RootfsSubdirs[i]))
    {
      SubdirsSafe(i);
      assert InitPath[18] == 'i';
      if InitPath in Paths.Ancestry(InRootfs(RootfsSubdirs[i])) {
        UnderSubdirHead(InitPath, RootfsSubdirs[i]);
      }
    }
  }

  /** f lies on the way to none of the directories create_directories makes. */
  predicate OffDirs(f: string) {
    && (forall i :: 0 <= i < |WorkspaceDirs| ==> f !in Paths.Ancestry(WorkspaceDirs[i]))
    && (forall i :: 0 <= i < |RootfsSubdirs| ==> f !in Paths.Ancestry(InRootfs(RootfsSubdirs[i])))
  }

  lemma InitOffDirs()
    ensures OffDirs(InitPath)
  {
    OffWorkspace(InitPath);
    InitOffSubdirs();
  }

  lemma BusyboxOffDirs()
    ensures OffDirs(BusyboxPath)
  {
    OffWorkspace(BusyboxPath);
    BusyboxOffSubdirs();
  }

  lemma EtcTargetOffDirs(j: nat)
    requires j < |EtcKeys|
    ensures OffDirs(EtcTarget(EtcKeys[j]))
  {
    EtcTargetShape(j);
    OffWorkspace(EtcTarget(EtcKeys[j]));
    EtcTargetOffSubdirs(j);
  }

  /** f is no /etc target and lies on the way to no /etc entry's directory. */
  predicate OffEtc(f: string) {
    forall i :: 0 <= i < |EtcFiles| ==>
      f != EtcTarget(EtcFiles[i].0) && f !in Paths.Ancestry(Paths.Parent(EtcTarget(EtcFiles[i].0)))
  }

  lemma InitOffEtc()
    ensures OffEtc(InitPath)
  {
    EtcFilesKeys();
    OffEtcWays(InitPath);
    TargetsLong(InitPath);
  }

  lemma BusyboxOffEtc()
    ensures OffEtc(BusyboxPath)
  {
    EtcFilesKeys();
    assert BusyboxPath != EtcNetworkDir by {
      assert BusyboxPath[18] != EtcNetworkDir[18];
    }
    OffEtcWays(BusyboxPath);
    TargetsHeadE(BusyboxPath);
  }

  /** A target of the /etc table sits in etc below rootfs_dir. */
  lemma TargetShapeOf(q: string)
    requires q in RootfsEtc.Targets(EtcFiles)
    ensures |q| >= 26 && q[18] == 'e'
  {
    EtcFilesKeys();
    var e :| e in EtcFiles && q == EtcTarget(e.0);
    var j :| 0 <= j < |EtcFiles| && EtcFiles[j] == e;
    EtcTargetShape(j);
  }

  /** Every /etc target sits in etc below rootfs_dir. */
  lemma TargetsShape()
    ensures forall q :: q in RootfsEtc.Targets(EtcFiles) ==> |q| >= 26 && q[18] == 'e'
  {
    forall q | q in RootfsEtc.Targets(EtcFiles)
      ensures |q| >= 26 && q[18] == 'e'
    {
      TargetShapeOf(q);
    }
  }

  /** The targets of create_etc_files, indexed by the table's rows. */
  lemma TargetsAbsent(t: map<string, FsTree.Node>)
    requires forall j :: 0 <= j < |EtcKeys| ==> EtcTarget(EtcKeys[j]) !in t
    ensures forall i :: 0 <= i < |EtcFiles| ==> EtcTarget(EtcFiles[i].0) !in t
  {
    EtcFilesKeys();
  }

  /** A path shorter than 26 characters is no /etc target. */
  lemma TargetsLong(f: string)
    requires |f| < 26
    ensures f !in RootfsEtc.Targets(EtcFiles)
    ensures forall j :: 0 <= j < |EtcFiles| ==> f != EtcTarget(EtcFiles[j].0)
  {
    if f in RootfsEtc.Targets(EtcFiles) {
      TargetShapeOf(f);
    }
    EtcFilesKeys();
    forall j | 0 <= j < |EtcFiles|
      ensures f != EtcTarget(EtcFiles[j].0)
    {
      EtcTargetShape(j);
    }
  }

  /** A path whose entry below rootfs_dir does not start with 'e' is no /etc target. */
  lemma TargetsHeadE(f: string)
    requires |f| > 18 && f[18] != 'e'
    ensures forall j :: 0 <= j < |EtcFiles| ==> f != EtcTarget(EtcFiles[j].0)
  {
    EtcFilesKeys();
    forall j | 0 <= j < |EtcFiles|
      ensures f != EtcTarget(EtcFiles[j].0)
    {
      EtcTargetShape(j);
    }
  }

  /** A device path sits in dev below rootfs_dir and is longer than /init. */
  lemma DevicePathShape(d: Device)
    requires d.name != ""
    ensures |DevicePath(d)| > 22 && DevicePath(d)[18] == 'd'
  {
    assert DevicePath(d) == DevDir + "/" + d.name;
  }

  lemma DevPathsShape()
    ensures forall q :: q in RootfsDev.DevPaths(Devices) ==> |q| > 22 && q[18] == 'd'
  {
    forall q | q in RootfsDev.DevPaths(Devices)
      ensures |q| > 22 && q[18] == 'd'
    {
      var d :| d in Devices && q == DevicePath(d);
      var i :| 0 <= i < |Devices| && Devices[i] == d;
      DeviceNameAt(i);
      DevicePathShape(d);
    }
  }

  /** A path longer than dev whose entry below rootfs_dir does not start with 'd' is nothing create_dev_nodes adds. */
  lemma NotDevAdded(f: string)
    requires |f| > 21 && f[18] != 'd'
    ensures f !in Paths.Ancestry(DevDir) && f !in RootfsDev.DevPaths(Devices) && f != DevPtsDir
  {
    OffWay(f, DevDir);
    DevPathsShape();
    assert DevPtsDir[18] == 'd';
  }

  lemma InitNotDevAdded()
    ensures InitPath !in Paths.Ancestry(DevDir) + RootfsDev.DevPaths(Devices) + {DevPtsDir}
  {
    assert |InitPath| > 21 && InitPath[18] == 'i';
    NotDevAdded(InitPath);
  }

  lemma BusyboxNotDevAdded()
    ensures BusyboxPath !in Paths.Ancestry(DevDir) + RootfsDev.DevPaths(Devices) + {DevPtsDir}
  {
    assert |BusyboxPath| > 21 && BusyboxPath[18] == 'b';
    NotDevAdded(BusyboxPath);
  }

  /** A path longer than p is not on the way to p. */
  lemma OffWay(f: string, p: string)
    requires |f| > |p|
    ensures f !in Paths.Ancestry(p)
  {
  }

  // ---------------------------------------------------------------- relative paths

  /** The workspace directories are relative to the working directory. */
  lemma WorkspaceRelative()
    ensures forall i :: 0 <= i < |WorkspaceDirs| ==> !Paths.Absolute(WorkspaceDirs[i])
  {
    forall i | 0 <= i < |WorkspaceDirs|
      ensures !Paths.Absolute(WorkspaceDirs[i])
    {
      assert WorkspaceDirs[i][0] == 'w';
    }
  }

  /** So is every path in rootfs_dir. */
  lemma RootfsRelative(sub: string)
    ensures !Paths.Absolute(InRootfs(sub))
  {
    assert InRootfs(sub)[0] == 'w';
  }

  /** And every /etc target. */
  lemma TargetRelative(key: string)
    ensures !Paths.Absolute(EtcTarget(key))
  {
    assert EtcTarget(key)[0] == 'w';
  }

  /** Everything on the way to the directory of an /etc target is relative. */
  lemma EtcWaysRelative()
    ensures forall i, q :: 0 <= i < |EtcFiles| && q in Paths.Ancestry(Paths.Parent(EtcTarget(EtcFiles[i].0))) ==>
      !Paths.Absolute(q)
  {
    EtcFilesKeys();
    Paths.AncestryRelative(EtcDir);
    assert EtcNetworkDir[0] == 'w' && EtcInitDir[0] == 'w';
    forall i | 0 <= i < |EtcFiles|
      ensures forall q :: q in Paths.Ancestry(Paths.Parent(EtcTarget(EtcFiles[i].0))) ==> !Paths.Absolute(q)
    {
      EtcWays(i);
    }
  }

  /** No /etc target of any table is absolute. */
  lemma TargetsRelative(files: seq<(string, string)>)
    ensures forall q :: q in RootfsEtc.Targets(files) ==> !Paths.Absolute(q)
  {
    forall q | q in RootfsEtc.Targets(files)
      ensures !Paths.Absolute(q)
    {
      var e :| e in files && q == EtcTarget(e.0);
      TargetRelative(e.0);
    }
  }
}
