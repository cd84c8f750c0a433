/**
 * The table from target architecture to the user-mode emulator binary that
 * lets a foreign-architecture root filesystem run under chroot. The same
 * table stands in sources/core/modify_rootfs.py and in sources/utils/create.py.
 */
module Emulator {
  import opened Wrappers

  const QemuMap: map<string, string> := map[
    "arm64" := "qemu-aarch64-static",
    "arm" := "qemu-arm-static",
    "x86_64" := "qemu-x86_64-static",
    "i386" := "qemu-i386-static"
  ]

  /** qemu_map.get(arch); an absent architecture (None) maps to nothing. */
  function QemuBinary(arch: Option<string>): Option<string> {
    if arch.Some? && arch.value in QemuMap then Some(QemuMap[arch.value]) else None
  }

  /**
   * Exactly arm64, arm, x86_64 and i386 have an emulator, and every name found
   * is a non-empty "qemu-…-static" name, so the callers' truth test on it is
   * the same as asking whether one was found.
   */
  lemma QemuBinaryCases(arch: Option<string>)
    ensures QemuBinary(arch).Some? <==> arch in {Some("arm64"), Some("arm"), Some("x86_64"), Some("i386")}
    ensures arch == Some("arm64") ==> QemuBinary(arch) == Some("qemu-aarch64-static")
    ensures arch == Some("arm") ==> QemuBinary(arch) == Some("qemu-arm-static")
    ensures arch == Some("x86_64") ==> QemuBinary(arch) == Some("qemu-x86_64-static")
    ensures arch == Some("i386") ==> QemuBinary(arch) == Some("qemu-i386-static")
    ensures QemuBinary(arch).Some? ==> |QemuBinary(arch).value| > 0
  {
  }

  /** Every emulator name is a single path component ending in "-static". */
  lemma QemuBinaryShape(arch: Option<string>)
    requires QemuBinary(arch).Some?
    ensures var bin := QemuBinary(arch).value;
      |bin| > 7 && '/' !in bin && bin[|bin| - 7..] == "-static"
  {
    QemuBinaryCases(arch);
    var bin := QemuBinary(arch).value;
    if arch == Some("arm64") {
      assert bin == "qemu-aarch64-static";
    } else if arch == Some("arm") {
      assert bin == "qemu-arm-static";
    } else if arch == Some("x86_64") {
      assert bin == "qemu-x86_64-static";
    } else {
      assert bin == "qemu-i386-static";
    }
  }
}
