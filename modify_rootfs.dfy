/**
 * Entering the built root filesystem (sources/core/modify_rootfs.py): copy
 * the emulator into it, bind the host's pseudo-filesystems into it, then
 * chroot into a shell, each step through the fatal runner.
 */
module ModifyRootfs {
  import opened Wrappers
  import Paths
  import Emulator
  import opened Execute

  /** The command of cpy: copy the host's emulator binary into the tree's usr/bin. */
  function CopyCommand(bin: string, rootfs: string): Command {
    ["sudo", "cp", "/usr/bin/" + bin, Paths.Join(Paths.Join(rootfs, "usr/bin"), bin)]
  }

  /** One row of the mount table: source, target below the tree, file-system type, option. */
  datatype Mount = Mount(source: string, target: string, fstype: Option<string>, option: Option<string>)

  const MountTable: seq<Mount> := [
    Mount("/proc", "proc", Some("proc"), None),
    Mount("/sys", "sys", Some("sysfs"), None),
    Mount("/dev", "dev", None, Some("--bind")),
    Mount("/dev/pts", "dev/pts", None, Some("--bind"))
  ]

  /** The command the mount loop builds for one row. */
  function MountCommand(m: Mount, rootfs: string): Command {
    ["sudo", "mount"]
    + (if m.option.Some? then [m.option.value] else [])
    + (if m.fstype.Some? then ["-t", m.fstype.value] else [])
    + [m.source, Paths.Join(rootfs, m.target)]
  }

  function MountCommands(rootfs: string): (cmds: seq<Command>)
    ensures |cmds| == |MountTable|
  {
    seq(|MountTable|, i requires 0 <= i < |MountTable| => MountCommand(MountTable[i], rootfs))
  }

  /** The final command: chroot into the tree, through the emulator when there is one, running /bin/sh. */
  function ChrootCommand(rootfs: string, bin: Option<string>): Command {
    ["sudo", "chroot", rootfs] + (if bin.Some? then ["/usr/bin/" + bin.value] else []) + ["/bin/sh"]
  }

  /** Every command chroot issues when all of them succeed, in order. */
  function ChrootPlan(rootfs: string, arch: Option<string>): seq<Command> {
    var bin := Emulator.QemuBinary(arch);
    (if bin.Some? then [CopyCommand(bin.value, rootfs)] else [])
    + MountCommands(rootfs)
    + [ChrootCommand(rootfs, bin)]
  }

  /**
   * The mounts: exactly four, proc, sys, dev and dev/pts in that order, each
   * "sudo mount" followed by either "--bind" or "-t" and a type (never both),
   * then the host source and the target inside the tree.
   */
  lemma MountCommandsExact(rootfs: string)
    ensures MountCommands(rootfs) == [
      ["sudo", "mount", "-t", "proc", "/proc", rootfs + "/proc"],
      ["sudo", "mount", "-t", "sysfs", "/sys", rootfs + "/sys"],
      ["sudo", "mount", "--bind", "/dev", rootfs + "/dev"],
      ["sudo", "mount", "--bind", "/dev/pts", rootfs + "/dev/pts"]
    ]
  {
    var cmds := MountCommands(rootfs);
    assert Paths.Join(rootfs, "proc") == rootfs + "/proc";
    assert Paths.Join(rootfs, "sys") == rootfs + "/sys";
    assert Paths.Join(rootfs, "dev") == rootfs + "/dev";
    assert Paths.Join(rootfs, "dev/pts") == rootfs + "/dev/pts";
    assert cmds[0] == MountCommand(MountTable[0], rootfs) == ["sudo", "mount", "-t", "proc", "/proc", rootfs + "/proc"];
    assert cmds[1] == MountCommand(MountTable[1], rootfs) == ["sudo", "mount", "-t", "sysfs", "/sys", rootfs + "/sys"];
    assert cmds[2] == MountCommand(MountTable[2], rootfs) == ["sudo", "mount", "--bind", "/dev", rootfs + "/dev"];
    assert cmds[3] == MountCommand(MountTable[3], rootfs) == ["sudo", "mount", "--bind", "/dev/pts", rootfs + "/dev/pts"];
  }

  /**
   * The chroot command is "sudo chroot <tree>", then the emulator's path inside
   * the tree exactly when the architecture has one, and always ends in /bin/sh.
   */
  lemma ChrootCommandShape(rootfs: string, arch: Option<string>)
    ensures var cmd := ChrootCommand(rootfs, Emulator.QemuBinary(arch));
      && cmd[..3] == ["sudo", "chroot", rootfs]
      && cmd[|cmd| - 1] == "/bin/sh"
      && (|cmd| == 5 <==> Emulator.QemuBinary(arch).Some?)
      && (|cmd| == 5 ==> cmd[3] == "/usr/bin/" + Emulator.QemuBinary(arch).value)
      && (|cmd| != 5 ==> |cmd| == 4)
  {
  }

  /**
   * The plan: the copy comes first exactly when the architecture has an
   * emulator, the four mounts follow, and the chroot command is last.
   */
  lemma ChrootPlanOrder(rootfs: string, arch: Option<string>)
    ensures var plan := ChrootPlan(rootfs, arch); var bin := Emulator.QemuBinary(arch);
      var k := if bin.Some? then 1 else 0;
      && |plan| == k + 5
      && (bin.Some? ==> plan[0] == ["sudo", "cp", "/usr/bin/" + bin.value, rootfs + "/usr/bin/" + bin.value])
      && plan[k..k + 4] == MountCommands(rootfs)
      && plan[k + 4] == ChrootCommand(rootfs, bin)
  {
    var plan := ChrootPlan(rootfs, arch);
    var bin := Emulator.QemuBinary(arch);
    Emulator.QemuBinaryCases(arch);
    if bin.Some? {
      assert Paths.Join(Paths.Join(rootfs, "usr/bin"), bin.value) == rootfs + "/usr/bin/" + bin.value;
      assert plan == [CopyCommand(bin.value, rootfs)] + MountCommands(rootfs) + [ChrootCommand(rootfs, bin)];
      assert plan[1..5] == MountCommands(rootfs);
    } else {
      assert plan == MountCommands(rootfs) + [ChrootCommand(rootfs, bin)];
      assert plan[0..4] == MountCommands(rootfs);
    }
  }

  /**
   * chroot: look the emulator up, copy it if there is one, mount the four
   * pseudo-filesystems, then chroot. Each command goes through the fatal
   * runner, so the commands issued are those of the plan up to and including
   * the first that fails, and a failure ends the run with its status.
   */
  method Chroot(rootfs: string, arch: Option<string>, status: Command -> int)
    returns (issued: seq<Command>, outcome: RunOutcome)
    ensures (issued, outcome) == RunAll(ChrootPlan(rootfs, arch), status)
  {
    var bin := Emulator.QemuBinary(arch);
    ghost var copy: seq<Command> := if bin.Some? then [CopyCommand(bin.value, rootfs)] else [];
    ghost var mounts := MountCommands(rootfs);
    ghost var last := ChrootCommand(rootfs, bin);
    assert ChrootPlan(rootfs, arch) == copy + mounts + [last];
    issued, outcome := [], Completed;
    if bin.Some? {
      var cmd := CopyCommand(bin.value, rootfs);
      RunStep([], cmd, status);
      assert [] + [cmd] == copy;
      issued := issued + [cmd];
      if status(cmd) != 0 {
        outcome := Exited(status(cmd));
        RunStopped(copy, mounts + [last], status);
        assert copy + (mounts + [last]) == copy + mounts + [last];
        return;
      }
    }
    for i := 0 to |MountTable|
      invariant RunAll(copy + mounts[..i], status) == (issued, Completed)
    {
      var m := MountTable[i];
      var cmd := ["sudo", "mount"];
      if m.option.Some? {
        cmd := cmd + [m.option.value];
      }
      if m.fstype.Some? {
        cmd := cmd + ["-t", m.fstype.value];
      }
      cmd := cmd + [m.source, Paths.Join(rootfs, m.target)];
      assert cmd == mounts[i];
      PlanSplit(copy, mounts, last, i);
      RunStep(copy + mounts[..i], cmd, status);
      issued := issued + [cmd];
      if status(cmd) != 0 {
        outcome := Exited(status(cmd));
        RunStopped(copy + mounts[..i + 1], mounts[i + 1..] + [last], status);
        return;
      }
    }
    var chrootCmd := ["sudo", "chroot", rootfs];
    if bin.Some? {
      chrootCmd := chrootCmd + ["/usr/bin/" + bin.value];
    }
    chrootCmd := chrootCmd + ["/bin/sh"];
    assert chrootCmd == last;
    assert mounts[..|MountTable|] == mounts;
    RunStep(copy + mounts, chrootCmd, status);
    issued := issued + [chrootCmd];
    if status(chrootCmd) != 0 {
      outcome := Exited(status(chrootCmd));
    }
  }

  /** Cutting the plan after the i-th mount. */
  lemma PlanSplit(copy: seq<Command>, mounts: seq<Command>, last: Command, i: nat)
    requires i < |mounts|
    ensures copy + mounts[..i + 1] == (copy + mounts[..i]) + [mounts[i]]
    ensures (copy + mounts[..i + 1]) + (mounts[i + 1..] + [last]) == copy + mounts + [last]
  {
    assert mounts[..i + 1] == mounts[..i] + [mounts[i]];
    assert mounts[..i + 1] + mounts[i + 1..] == mounts;
  }
}
