# BusyBox root filesystem build system, modelled in Dafny

This project models the decision and update rules of a small Python build
system that downloads BusyBox, patches its `.config`, cross-compiles it, and
lays out a minimal root filesystem to boot or chroot into. It covers four
source files.

- **`sources/core/busybox.py`**
  - `set_config_option` rewrites one `KEY=VALUE` line of `.config`.
  - `patch_config` applies a whole mapping in insertion order. The mapping is
    the later-wins merge `{**DEFAULT_PATCH, **extra_cfg}`.
  - `build_busybox` applies the `--arch` override and builds the `make`
    environment (`ARCH`, `CROSS_COMPILE`, `CFLAGS`, `LDFLAGS`). It then
    decides which source directory it builds in.
  - Modules `BusyboxConfig` (the class `ConfigFile` holds the file) and
    `BusyboxBuild`.
- **`sources/utils/download.py`** (module `Download`)
  - The file name is the last URL segment.
  - An existing file short-circuits the download.
  - The decompression mode comes from the lower-cased archive name.
  - The extraction reports the single extracted directory, or else the
    target directory itself.
- **`sources/utils/create.py`** (module `RootFs`, class `FileSystem`)
  - Each script function is a method that changes a path → (kind, mode) tree
    step by step: `create_directories`, `create_etc_files`,
    `create_dev_nodes`, `create_busybox_init`, `create_symlinks`,
    `copy_qemu_user_static` and `set_rootfs_permissions`.
  - Each method is proved to end in the tree that a specification function
    computes. Those functions live in `RootfsDirs`, `RootfsEtc`, `RootfsDev`,
    `RootfsInit`, `RootfsQemu` and `RootfsPerms`, and their properties are
    proved as lemmas there.
  - `RootfsLayout` holds the fixed tables: the workspace, the subdirectories,
    the `/etc` files, the device catalogue and the special paths.
  - `FsTree` gives the OS calls their outcomes, errors included.
  - `RootfsOutcome` and `RootfsCreate` state what the whole run leaves behind,
    in the order `create_rootfs` in `sources/main.py` runs the steps.
- **`sources/core/modify_rootfs.py`** (module `ModifyRootfs`)
  - The emulator lookup (shared with `create.py` in module `Emulator`).
  - The `cp`, `mount` and `chroot` argument lists.
  - The order of the steps, each issued through the fatal runner of
    `sources/utils/execute.py` (module `Execute`).

## Behaviour the model makes explicit

The following facts hold for the code as written. Each is proved as a lemma.

- **Executable bits do not survive the permission walk.**
  - `set_rootfs_permissions` runs after `create_busybox_init` and
    `copy_qemu_user_static`.
  - Its walk sets every regular file not named `rcS` or `*.sh` to 0644.
  - So `/init` and the copied `qemu-*-static` emulator both end up
    non-executable: `RootfsCreate.RootfsCreatedInit`,
    `RootfsOutcome.EmulatorLosesExecutable`.
  - For the same reason, the 0666 devices end 0644:
    `RootfsOutcome.DeviceEnds644`.
- **The extraction reports `work_dir`, not the BusyBox tree.**
  - `build_busybox` extracts into `work_dir`, which already holds `downloads`
    and `build`.
  - The single-directory rule therefore reports `work_dir` itself. The build
    ignores that result and uses `work_dir/busybox-{version}`:
    `BusyboxBuild.ExtractionIntoWorkspaceFindsWorkspace`.
- **A URL ending in `/` is never requested.** It names the download directory
  itself, which is returned as if it were a cached tarball:
  `Download.TrailingSlashIsCachedDirectory`.

- **Only two override sources are merged.**
  - `configs` in `sources/main.py:52` reads the config's `config_patch`
    list, and nothing uses it afterwards.
  - `build_busybox` patches with `{**DEFAULT_PATCH, **extra_cfg}` alone
    (`sources/core/busybox.py:86`).
  - The model follows busybox.py:86: `BusyboxConfig.PatchSetValues`.
- **A fresh workspace builds a root filesystem.**
  - The host's own files sit under absolute paths (`/usr/bin/...`); the
    script's workspace is the relative `work/`. Whatever the host holds,
    as long as nothing exists under `work/` yet, `create_rootfs` runs all
    seven steps without an error, whether or not `mknod` is permitted and
    for any `--arch`.
  - `/init` ends 0644 and a second permission walk changes nothing:
    `RootfsFresh.RootfsCreatedSucceeds`, `RootfsFresh.FreshRunOutcome`.
  - When the host has the emulator for `--arch` as a regular file in
    `/usr/bin`, the run copies it to `usr/bin` of the root filesystem with
    the host's contents, and the later permission walk leaves it at 0644
    (not executable): `RootfsFresh.FreshRunEmulator`.

## Model

| member | source | states |
|---|---|---|
| BusyboxConfig.FirstNewline | sources/core/busybox.py:16 | the index it returns is the first line break of the text, or its length when there is none |
| BusyboxConfig.SplitLines | sources/core/busybox.py:16 | `splitlines` yields lines that contain no line break |
| BusyboxConfig.Serialize | sources/core/busybox.py:23 | the written text always ends in a line break |
| BusyboxConfig.SplitFirst | sources/core/busybox.py:16 | a line followed by a break is read back as that line, then the rest |
| BusyboxConfig.SplitSerialize | sources/core/busybox.py:16-23 | reading back the written text gives the same lines when at least one line exists and none holds a break |
| BusyboxConfig.AssignmentSets | sources/core/busybox.py:18-19 | the line `key=value` starts with `key=` |
| BusyboxConfig.FirstMatch | sources/core/busybox.py:17-20 | finds the first line starting with `key=`; None exactly when no line does |
| BusyboxConfig.FirstMatchIs | sources/core/busybox.py:17-20 | the first line that sets the key is the one FirstMatch returns |
| BusyboxConfig.SetOption | sources/core/busybox.py:17-22 | replaces the first line that sets the key and keeps every other line and the count; appends `key=value` when no line sets the key |
| BusyboxConfig.SetOptionAssigns | sources/core/busybox.py:17-22 | afterwards the first line that sets the key sets it to the given value |
| BusyboxConfig.SetOptionIdempotent | sources/core/busybox.py:16-23 | setting the same key and value twice gives the same lines as once |
| BusyboxConfig.AssignmentSetsOnlyItsKey | sources/core/busybox.py:18 | a line for one '='-free key never starts with another '='-free key followed by `=` |
| BusyboxConfig.SetOptionKeepsOther | sources/core/busybox.py:17-22 | setting one key keeps the assignment of every other '='-free key |
| BusyboxConfig.PatchLinesAssignsAll | sources/core/busybox.py:32-33 | after patching, every '='-free key of the mapping is set, by its first line, to its own value |
| BusyboxConfig.PatchLinesShape | sources/core/busybox.py:32-33 | patching break-free lines with break-free items keeps the lines break-free; a non-empty mapping leaves at least one line |
| BusyboxConfig.SetOptionText | sources/core/busybox.py:14-23 | the rewritten file ends in a line break |
| BusyboxConfig.SetOptionTextIdempotent | sources/core/busybox.py:14-23 | rewriting the file twice with the same key and value gives the text of rewriting it once |
| BusyboxConfig.PatchTextAsLines | sources/core/busybox.py:26-33 | patching the file with a non-empty mapping is serializing the patched lines of the original text once |
| BusyboxConfig.PatchTextAssignsAll | sources/core/busybox.py:26-33 | after patch_config, reading the file back finds every key set to its value; the file ends in a break |
| BusyboxConfig.IndexOf | sources/core/busybox.py:86 | the position of a key among a dict's items, None exactly when absent |
| BusyboxConfig.IndexOfIs | sources/core/busybox.py:86 | the first item carrying the key is the one IndexOf returns |
| BusyboxConfig.IndexOfByKeys | sources/core/busybox.py:86 | dicts with the same key order place every key at the same index |
| BusyboxConfig.PutFacts | sources/core/busybox.py:86 | `d[key] = value` keeps keys distinct, adds a new key last, keeps an old key in place, and changes only that key's value |
| BusyboxConfig.Fresh | sources/core/busybox.py:86 | the items it keeps have keys of b that a lacks |
| BusyboxConfig.MergeSnoc | sources/core/busybox.py:86 | merging one more item of b puts it into the merge |
| BusyboxConfig.MergeStepKeys | sources/core/busybox.py:86 | one more item keeps the merge's keys distinct and in the order a, then b's new keys |
| BusyboxConfig.MergeStepGet | sources/core/busybox.py:86 | one more item keeps every key at b's value if b has it, else at a's |
| BusyboxConfig.MergeFacts | sources/core/busybox.py:86 | `{**a, **b}` has a's keys in a's order then b's new keys in b's order; each key takes b's value if b has it, else a's |
| BusyboxConfig.PatchSetValues | sources/core/busybox.py:8-11 | in the merged patch set extra_config wins on shared keys; CONFIG_TC=n and CONFIG_STATIC=y hold for keys it lacks; the defaults come first |
| BusyboxConfig.ConfigFile.constructor | sources/core/busybox.py:28 | the file of a source directory, with its presence and text |
| BusyboxConfig.ConfigFile.SetConfigOption | sources/core/busybox.py:14-23 | the loop rewrites the text to SetOptionText of the old text; a missing file raises and changes nothing |
| BusyboxConfig.ConfigFile.PatchConfig | sources/core/busybox.py:26-33 | a missing `.config` raises FileNotFoundError before anything changes; otherwise every option is set in the mapping's order |
| BusyboxBuild.ApplyArchOverride | sources/core/busybox.py:49-54 | no or empty --arch changes nothing; otherwise arch is replaced and no key other than arch and compiler_prefix changes |
| BusyboxBuild.ArchOverridePrefix | sources/core/busybox.py:51-54 | x86_64 forces the prefix "", arm64 forces "aarch64-linux-gnu-", any other name keeps the configured prefix |
| BusyboxBuild.BuildEnv | sources/core/busybox.py:74-80 | the environment keeps every process variable and has ARCH, CFLAGS and LDFLAGS |
| BusyboxBuild.BuildEnvRules | sources/core/busybox.py:74-80 | ARCH defaults to arm64; CROSS_COMPILE is written iff the arch is not x86_64; the flags default to ""; nothing else changes |
| BusyboxBuild.ArchSelection | sources/core/busybox.py:49-54 | override and environment together, case by case for x86_64, arm64, another name and no argument |
| BusyboxBuild.LocateSources | sources/core/busybox.py:65-70 | fails exactly on an unsupported archive name; otherwise the directory used is `work_dir/busybox-{version}` |
| BusyboxBuild.ExtractionIntoWorkspaceFindsWorkspace | sources/core/busybox.py:65-70 | extracting into a workspace holding downloads and build reports work_dir twice, and neither is the directory used |
| Download.FileName | sources/utils/download.py:9 | the name has no '/', ends the URL, and is the whole URL or follows its last '/' |
| Download.FileNameEdges | sources/utils/download.py:9 | a URL without '/' is its own name; a URL ending in '/' has the empty name |
| Download.DownloadFileCases | sources/utils/download.py:5-21 | the request is skipped exactly when dest exists; the returned path is always dest; an error status gives no path |
| Download.TrailingSlashIsCachedDirectory | sources/utils/download.py:6-14 | a URL ending in '/' returns the download directory as cached, whatever the server would answer |
| Download.ModeOfEndings | sources/utils/download.py:33-41 | each mode is chosen by exactly its own endings; every other name is refused |
| Download.LowerKeepsLastSlash | sources/utils/download.py:33 | lower-casing keeps the last '/' in place |
| Download.NameOfLower | sources/utils/download.py:33 | the name of the lower-cased path is the lower-cased name |
| Download.LowerTwice | sources/utils/download.py:33 | lower-casing is idempotent |
| Download.ArchiveModeIgnoresCase | sources/utils/download.py:33 | the mode does not depend on the case of the path |
| Download.ArchiveModeOnlyName | sources/utils/download.py:33 | the directories in front of the name never change the mode |
| Download.LowerEndsWith | sources/utils/download.py:33 | an ending survives lower-casing, itself lower-cased |
| Download.ArchiveModeBzip2 | sources/utils/download.py:36-37 | a `.tar.bz2` name is opened with bz2 |
| Download.ArchiveModeUpperTgz | sources/utils/download.py:33-35 | a `.TGZ` name is opened with gzip |
| Download.ArchiveModeXz | sources/utils/download.py:40-41 | a `.tar.xz` name is refused |
| Download.Dirs | sources/utils/download.py:47 | the directory names are at most the entries |
| Download.DirsAppend | sources/utils/download.py:47 | the directories of a listing are those of its parts, in order |
| Download.DirsMembers | sources/utils/download.py:47 | a name is among the directories exactly when a directory entry has it |
| Download.ResultDirRule | sources/utils/download.py:47-50 | exactly one directory gives that child of extract_to; otherwise extract_to itself |
| Download.FilesDoNotCount | sources/utils/download.py:47-50 | regular files in the listing never change the result |
| Download.TwoDirectoriesGiveRoot | sources/utils/download.py:47-50 | two differently named directories make extract_to the result |
| Download.ExtractTarball | sources/utils/download.py:28-50 | fails exactly on an unsupported name, with ValueError naming the path; otherwise returns the result-directory rule |
| Emulator.QemuBinaryCases | sources/core/modify_rootfs.py:11-22 | exactly arm64, arm, x86_64 and i386 map to an emulator, each to its `qemu-*-static` name |
| Emulator.QemuBinaryShape | sources/utils/create.py:240-245 | every emulator name is a single path component ending in "-static" |
| Execute.RunAllFacts | sources/utils/execute.py:79-82 | the commands issued are a prefix of the plan; the run completes iff all succeed, otherwise ends with the last issued command's non-zero status |
| Execute.RunOne | sources/utils/execute.py:79-82 | one command: its status decides the outcome |
| Execute.RunStep | sources/utils/execute.py:79-82 | after a completed run, one more command is issued and its status decides |
| Execute.RunStopped | sources/utils/execute.py:79-82 | once a run has exited, nothing after it is issued |
| Execute.RunAllAppend | sources/utils/execute.py:79-82 | running a then b is running a and, only if all of it succeeded, b |
| ModifyRootfs.MountCommands | sources/core/modify_rootfs.py:25-38 | one mount command per table row |
| ModifyRootfs.MountCommandsExact | sources/core/modify_rootfs.py:25-38 | exactly the four argument lists for proc, sys, dev and dev/pts, in that order |
| ModifyRootfs.ChrootCommandShape | sources/core/modify_rootfs.py:40-44 | `sudo chroot <tree>`, then the emulator path exactly when there is one, then `/bin/sh` |
| ModifyRootfs.ChrootPlanOrder | sources/core/modify_rootfs.py:5-50 | the `cp` command comes first exactly when there is an emulator, then the four mounts, then chroot |
| ModifyRootfs.Chroot | sources/core/modify_rootfs.py:10-50 | the commands issued and the outcome are those of the fatal runner on the plan |
| Paths.SuffixIsSh | sources/utils/create.py:139 | `Path.suffix == ".sh"` iff the name ends in ".sh" with something before the dot |
| Paths.JoinNameParent | sources/utils/create.py:136-137 | joining one component: its name is that component, its parent the base |
| Paths.NameJoin | sources/utils/create.py:136-139 | joining a relative path keeps that path's last component as the name |
| Paths.Ancestry | sources/utils/create.py:112 | holds the path and only prefixes of it |
| Paths.AncestryRelative | sources/utils/create.py:112 | every directory on the way to a relative path is relative, so never one of the host's absolute paths |
| Paths.AncestryJoin | sources/utils/create.py:254 | every directory on the way to a base is also on the way to base/seg |
| FsTree.MakeDirs | sources/utils/create.py:112 | mkdir(parents=True) fails iff a non-directory is in the way; otherwise adds exactly the missing ancestry as directories and keeps the rest |
| FsTree.MakeDirsExisting | sources/utils/create.py:112 | mkdir over directories that exist changes nothing |
| FsTree.Chmod | sources/utils/create.py:119 | sets the mode of a non-link path; keeps paths, kinds and all other nodes |
| FsTree.WriteText | sources/utils/create.py:138 | succeeds iff the parent is a directory and the path is not; writes the content; an existing file keeps its mode |
| FsTree.Touch | sources/utils/create.py:168 | an empty file when nothing is there; otherwise no change |
| FsTree.Mknod | sources/utils/create.py:165 | a character device with the given numbers and mode; nothing else changes |
| FsTree.MakeSymlink | sources/utils/create.py:188-189 | succeeds iff the path is free and its directory exists; adds exactly the link |
| FsTree.Copy | sources/utils/create.py:261 | the destination path gets the source's contents and mode; no other path changes (a directory destination is replaced, see Left out) |
| RootfsLayout.WorkspaceLayout | sources/utils/create.py:17-22 | the workspace paths are the joins the script writes |
| RootfsLayout.Pairs | sources/utils/create.py:45-91 | the table's items are its keys paired with their contents, in order |
| RootfsLayout.EtcFilesKeys | sources/utils/create.py:45-91 | the table has ten items, keyed in insertion order |
| RootfsLayout.EtcRelPathOf | sources/utils/create.py:135 | the i-th key maps to the i-th relative path |
| RootfsLayout.ProfileRelPath | sources/utils/create.py:135 | "etc/profile" becomes "profile" |
| RootfsLayout.EtcTargets | sources/utils/create.py:132-136 | "etc/profile" lands at etc/profile; "init.d/rcS" and the other keys are kept under etc |
| RootfsLayout.JoinInjective | sources/utils/create.py:136 | different relative paths under one directory are different paths |
| RootfsLayout.EtcRelPathsDistinct | sources/utils/create.py:135 | the ten relative paths are non-empty and pairwise different |
| RootfsLayout.EtcTargetsDistinct | sources/utils/create.py:132-136 | no two /etc entries land on the same path |
| RootfsLayout.EtcNameOf | sources/utils/create.py:136-139 | the name of each target, and the rule picks only init.d/rcS |
| RootfsLayout.EtcNameNested | sources/utils/create.py:136-139 | network/interfaces and init.d/rcS are named by their last component |
| RootfsLayout.EtcNamePlain | sources/utils/create.py:136-139 | every other relative path is a single component |
| RootfsLayout.EtcNameNotScript | sources/utils/create.py:139 | only the name rcS passes the executable rule |
| RootfsLayout.EtcScripts | sources/utils/create.py:139-140 | of the ten /etc files only init.d/rcS is made executable |
| RootfsLayout.DeviceNameAt | sources/utils/create.py:150-159 | each device name is a non-empty single component |
| RootfsLayout.DeviceNames | sources/utils/create.py:150-159 | the eight device names are distinct single components, none executable by name |
| RootfsLayout.DeviceNotScript | sources/utils/create.py:150-159 | no device name is rcS or *.sh |
| RootfsDirs.MkdirEachStops | sources/utils/create.py:111-112 | a failure ends the workspace loop |
| RootfsDirs.SubdirsEachStops | sources/utils/create.py:116-119 | a failure ends the subdirectory loop |
| RootfsDirs.MkdirEachFacts | sources/utils/create.py:111-112 | the workspace loop keeps every node and leaves each directory in place all the way up |
| RootfsDirs.GrowsKeepsDirs | sources/utils/create.py:111-120 | a tree that only grows keeps its directory chains |
| RootfsDirs.SubdirStepFacts | sources/utils/create.py:117-119 | one subdirectory: made all the way up, set to 0755, nothing else changes |
| RootfsDirs.SubdirsEachFacts | sources/utils/create.py:116-119 | every subdirectory exists all the way up with mode 0755; nothing is lost or changes kind |
| RootfsDirs.SubdirsEachOthers | sources/utils/create.py:116-119 | no node outside the subdirectories changes |
| RootfsDirs.DirectoriesFromFacts | sources/utils/create.py:108-127 | the three loops together, over any lists |
| RootfsDirs.DirectoriesCreatedFacts | sources/utils/create.py:108-127 | every workspace directory and rootfs subdirectory exists, each subdirectory 0755, the extra directory too; nothing is lost |
| RootfsDirs.MkdirEachExisting | sources/utils/create.py:111-112 | the workspace loop over existing directories changes nothing |
| RootfsDirs.ChmodSame | sources/utils/create.py:119 | a chmod to the current mode changes nothing |
| RootfsDirs.SubdirsEachExisting | sources/utils/create.py:116-119 | the subdirectory loop over existing 0755 directories changes nothing |
| RootfsDirs.DirectoriesCreatedIdempotent | sources/utils/create.py:108-127 | re-running create_directories on its own result changes nothing |
| RootfsDirs.MakeDirsClear | sources/utils/create.py:112 | mkdir with no file on the way never fails, and adds or changes no file |
| RootfsDirs.MkdirEachClear | sources/utils/create.py:111-112 | the workspace loop cannot fail when no file stands on the way to any of its directories, and adds or changes no file |
| RootfsDirs.SubdirsEachClear | sources/utils/create.py:116-119 | the subdirectory loop cannot fail under the same condition, and adds or changes no file |
| RootfsDirs.DirectoriesFromSucceeds | sources/utils/create.py:108-127 | the three loops cannot fail when no file stands on the way to any directory they create, and they add or change no file |
| RootfsDirs.DirectoriesCreatedSucceeds | sources/utils/create.py:108-127 | create_directories cannot fail when no file stands on the way to its directories, and adds or changes no file |
| RootfsDirs.DirectoriesCreatedAbsent | sources/utils/create.py:108-127 | a path on the way to no workspace directory and no subdirectory stays absent |
| RootfsEtc.EtcEachStops | sources/utils/create.py:134-141 | a failure ends the /etc loop |
| RootfsEtc.EtcStepFacts | sources/utils/create.py:135-140 | one entry: a directory target fails; otherwise the target holds the new content, at 0755 when named as a script, else at the mode an existing file had (write_text keeps it) or the default for a new one; nothing else that was there changes, and only directories are added besides |
| RootfsEtc.TargetsSplit | sources/utils/create.py:134 | the targets of a list are those of its prefix plus the last one |
| RootfsEtc.EtcInvariantStep | sources/utils/create.py:134-141 | one more turn keeps the loop invariant: every target handled so far holds its content at the script rule's mode or its kept mode, and every other node that was there is unchanged |
| RootfsEtc.EtcEachFacts | sources/utils/create.py:134-141 | over distinct targets, present or not, each holds its content at 0755 if named as a script, else at its old mode or the default; nothing else that was there changes |
| RootfsEtc.EtcEachOnce | sources/utils/create.py:134-141 | with exactly one script name, that file is 0755 and every other keeps the mode it had, or has the default mode when new |
| RootfsEtc.EtcFilesWrittenFacts | sources/utils/create.py:130-141 | on any tree, create_etc_files writes all ten contents; init.d/rcS is 0755 even when it existed with another mode; every other target keeps an existing file's mode or has the default when new; nothing else that was there changes |
| RootfsEtc.EtcEachClear | sources/utils/create.py:134-141 | when the way to every entry's directory holds only directories and no target is a directory, every turn succeeds |
| RootfsEtc.EtcEachAbsent | sources/utils/create.py:134-141 | a path that is no target and on no target's way stays absent |
| RootfsDev.DevStepFacts | sources/utils/create.py:162-170 | one device: an existing path is skipped; a missing one becomes the mknod node or the placeholder |
| RootfsDev.DevPathsSnoc | sources/utils/create.py:161-162 | the device paths of a list are those of its prefix plus the last, which is new |
| RootfsDev.DevDoneStep | sources/utils/create.py:161-170 | one more device keeps the loop invariant |
| RootfsDev.DevEachFacts | sources/utils/create.py:161-170 | every device path exists afterwards; missing ones as described; existing ones untouched |
| RootfsDev.DevicesDistinctPaths | sources/utils/create.py:150-159 | the eight devices land on eight paths |
| RootfsDev.DevicePathsApart | sources/utils/create.py:150-172 | no device path is dev itself or dev/pts |
| RootfsDev.MakePtsFacts | sources/utils/create.py:172 | dev/pts mkdir without parents fails iff a non-directory is there |
| RootfsDev.DevNodesCreatedFails | sources/utils/create.py:144-173 | create_dev_nodes fails iff a non-directory blocks dev or sits at dev/pts |
| RootfsDev.DevNodesCreatedFacts | sources/utils/create.py:144-173 | dev and dev/pts are directories; every device exists with its masked mode or as a placeholder; nothing that was there changes |
| RootfsDev.DevEachExisting | sources/utils/create.py:163 | the device loop over existing devices changes nothing |
| RootfsDev.DevNodesCreatedKeys | sources/utils/create.py:144-173 | create_dev_nodes adds exactly dev with its ancestry, the eight device paths and dev/pts |
| RootfsDev.DevNodesCreatedIdempotent | sources/utils/create.py:144-173 | re-running create_dev_nodes on its own result changes nothing |
| RootfsInit.InitPathParts | sources/utils/create.py:178 | init sits directly in the root |
| RootfsInit.InitWrittenFacts | sources/utils/create.py:176-181 | succeeds iff the root exists and init is not a directory; init then holds the script at 0755 |
| RootfsInit.LinkPathParts | sources/utils/create.py:186-189 | the links sit in sbin and bin, beside bin/busybox |
| RootfsInit.SymlinksCreatedFacts | sources/utils/create.py:184-192 | without bin/busybox nothing happens; with it both links are made iff free with their directories present, and nothing else changes |
| RootfsInit.SymlinksRerunFails | sources/utils/create.py:188 | a second run fails on the existing sbin/init |
| RootfsQemu.QemuCopiedFails | sources/utils/create.py:252-254 | with an emulator, the copy fails iff a non-directory blocks usr/bin |
| RootfsQemu.QemuCopiedKeeps | sources/utils/create.py:247-262 | afterwards usr/bin is a directory all the way up and no node but the destination changed |
| RootfsQemu.InstalledKeeps | sources/utils/create.py:252-262 | the same, for a found emulator |
| RootfsQemu.CopyBelowKeeps | sources/utils/create.py:254-262 | mkdir then copy below it keeps the directory chain and every other node |
| RootfsQemu.QemuMissing | sources/utils/create.py:256-258 | an emulator missing on the host adds only usr/bin and its ancestors |
| RootfsQemu.QemuArrives | sources/utils/create.py:261-262 | a present emulator arrives with its contents at 0755 |
| RootfsQemu.QemuUnknownArch | sources/utils/create.py:247-250 | an architecture outside the table leaves the tree as it was |
| RootfsPerms.ReachedRoot | sources/utils/create.py:199 | whatever the walk reaches lies under a root that is a directory |
| RootfsPerms.SpecialDistinct | sources/utils/create.py:212-220 | the seven special paths are pairwise different |
| RootfsPerms.ReachedShape | sources/utils/create.py:199 | reaching depends on paths and kinds, not on modes |
| RootfsPerms.WalkedFacts | sources/utils/create.py:199-209 | the walk keeps paths and kinds and links; every reached node gets its new mode |
| RootfsPerms.ChmodAt | sources/utils/create.py:212-220 | one chmod, seen from one path |
| RootfsPerms.ChmodSixAt | sources/utils/create.py:212-219 | the six override chmods, seen from one path: the last that names it wins |
| RootfsPerms.ChmodSixFacts | sources/utils/create.py:212-219 | the six override chmods keep paths, kinds and links; the last that names a path wins |
| RootfsPerms.OverriddenFacts | sources/utils/create.py:212-219 | tmp and var/tmp 1777, var/log, var/run and var/lock 0777, dev 0755; nothing else changes |
| RootfsPerms.PermissionsSetFacts | sources/utils/create.py:195-221 | fails iff the root is missing; otherwise keeps paths, kinds and links, and each node ends at FinalMode |
| RootfsPerms.PermissionsSetAt | sources/utils/create.py:195-221 | the same, seen from one path |
| RootfsPerms.AfterWalkAt | sources/utils/create.py:212-220 | the overrides and the root chmod, seen from one path |
| RootfsPerms.NewModeAgain | sources/utils/create.py:201-209 | a node the walk set once is set to the same mode again |
| RootFs.FileSystem.constructor | sources/utils/create.py:16-22 | the tree, umask and mknod permission the script runs with |
| RootFs.FileSystem.MkdirAll | sources/utils/create.py:111-113 | the loop ends in MkdirEach's tree or its first error |
| RootFs.FileSystem.SubdirsAll | sources/utils/create.py:116-120 | the loop ends in SubdirsEach's tree or its first error |
| RootFs.FileSystem.CreateDirectories | sources/utils/create.py:108-127 | ends as DirectoriesCreated says |
| RootFs.FileSystem.EtcAll | sources/utils/create.py:134-141 | the loop ends in EtcEach's tree or its first error |
| RootFs.FileSystem.CreateEtcFiles | sources/utils/create.py:130-141 | ends as EtcFilesWritten says |
| RootFs.FileSystem.DevAll | sources/utils/create.py:161-170 | the loop ends in DevEach's tree |
| RootFs.FileSystem.CreateDevNodes | sources/utils/create.py:144-173 | ends as DevNodesCreated says |
| RootFs.FileSystem.CreateBusyboxInit | sources/utils/create.py:176-181 | ends as InitWritten says |
| RootFs.FileSystem.CreateSymlinks | sources/utils/create.py:184-192 | ends as SymlinksCreated says |
| RootFs.FileSystem.CopyQemuUserStatic | sources/utils/create.py:225-263 | ends as QemuCopied says |
| RootFs.FileSystem.Walk | sources/utils/create.py:199-209 | visiting the reached paths in any order ends in the walked tree |
| RootFs.FileSystem.SetIfExists | sources/utils/create.py:213-219 | `if d.exists(): d.chmod(mode)` |
| RootFs.FileSystem.SetRootfsPermissions | sources/utils/create.py:195-221 | ends as PermissionsSet says |
| RootFs.FileSystem.CreateRootfs | sources/main.py:61-69 | the seven steps in order end as RootfsCreated says; the first error ends the run |
| RootFs.WalkedStep | sources/utils/create.py:199-209 | handling one more reached path moves it into the handled set |
| RootFs.WalkedAll | sources/utils/create.py:199-209 | with every target handled, the tree is the walked tree |
| RootfsOutcome.ReachedChild | sources/utils/create.py:199 | the walk reaches what lies directly in a directory it reached |
| RootfsOutcome.ReachedFileMode | sources/utils/create.py:204-209 | a reached, non-special file ends 0755 if named as a script and 0644 otherwise |
| RootfsOutcome.InitEnds644 | sources/utils/create.py:204-209 | /init ends 0644 |
| RootfsOutcome.InitLosesExecutable | sources/utils/create.py:176-209 | /init is 0755 after create_busybox_init and 0644 after the walk |
| RootfsOutcome.DeviceEnds644 | sources/utils/create.py:150-209 | every device of the table ends 0644 after the walk, whatever its table permissions |
| RootfsOutcome.EmulatorNotScript | sources/utils/create.py:240-245 | no emulator name marks a script |
| RootfsOutcome.UsrBinAncestry | sources/utils/create.py:253 | usr/bin is the join of the root, usr and bin |
| RootfsOutcome.UsrBinFileReached | sources/utils/create.py:199-209 | a file placed in usr/bin is reached by the walk and is not special |
| RootfsOutcome.EmulatorLosesExecutable | sources/utils/create.py:225-262 | the emulator copied at 0755 ends 0644 after the walk |
| RootfsOutcome.IdempotentAt | sources/utils/create.py:195-221 | a second run leaves each node as the first left it |
| RootfsOutcome.PermissionsSetIdempotent | sources/utils/create.py:195-221 | running set_rootfs_permissions twice gives the result of running it once |
| RootfsCreate.RootfsCreatedStable | sources/main.py:61-69 | after a finished run, set_rootfs_permissions changes nothing |
| RootfsCreate.RunStable | sources/main.py:61-69 | the same, for any /etc table |
| RootfsCreate.RootfsCreatedInit | sources/main.py:61-69 | a finished run leaves /init holding the script at 0644 |
| RootfsCreate.RunInit | sources/main.py:61-69 | the same, for any /etc table |
| RootfsCreate.LinkedInit | sources/main.py:67-69 | the links, the emulator copy and the walk leave /init with its content at 0644 |
| RootfsCreate.SymlinksKeepInit | sources/utils/create.py:184-192 | create_symlinks leaves the root and /init as they were |
| RootfsCreate.QemuKeepsInit | sources/utils/create.py:225-263 | copy_qemu_user_static leaves the root and /init as they were |
| RootfsCreate.InitFinal | sources/utils/create.py:204-209 | the walk leaves /init with its content at 0644 |
| RootfsFresh.DirsFresh | sources/utils/create.py:108-127 | on a host whose entries are all absolute (nothing under work/ yet), create_directories succeeds, adds no file, makes the root and creates none of init, bin/busybox or the /etc targets |
| RootfsFresh.EtcFresh | sources/utils/create.py:130-141 | after that, create_etc_files succeeds and adds files only under etc |
| RootfsFresh.DevFresh | sources/utils/create.py:144-173 | then create_dev_nodes succeeds, privileged or not, and adds files only under etc and dev |
| RootfsFresh.InitFresh | sources/utils/create.py:176-181 | then create_busybox_init writes /init at 0755 |
| RootfsFresh.QemuFresh | sources/utils/create.py:225-263 | then copy_qemu_user_static, looking in the default /usr/bin, succeeds for any --arch and keeps the root, whether or not the host has the emulator |
| RootfsFresh.FinishedSucceeds | sources/main.py:66-69 | the last four steps succeed on such a tree, host files included |
| RootfsFresh.PreparedFresh | sources/main.py:63-65 | the first three steps succeed on any host with nothing under work/ |
| RootfsFresh.RootfsCreatedSucceeds | sources/main.py:61-69 | create_rootfs on any host with nothing under work/ ends without an error, for every umask, mknod permission and architecture |
| RootfsFresh.FreshRunOutcome | sources/main.py:61-69 | that run leaves /init with the script at 0644, and a second permission walk changes nothing |
| RootfsFresh.PreparedKeepsHostFile | sources/main.py:63-65 | when the first three steps succeed, every host file (any non-directory entry of the host) is still there, unchanged |
| RootfsFresh.FinishedEmulator | sources/main.py:66-69 | on such a tree with the emulator on the host, the last four steps copy it and leave it at 0644 with the host's contents |
| RootfsFresh.LinkedEmulator | sources/main.py:67-69 | after /init, the symlinks, the emulator copy and the permission walk leave the copy at 0644 with the host's contents |
| RootfsFresh.FreshRunEmulator | sources/main.py:61-69 | a fresh run on a host holding the emulator as a regular file in /usr/bin ends with usr/bin/qemu-<arch>-static in the root filesystem, holding the host's contents at 0644 |
| Text.LastIndexOf | sources/utils/download.py:9 | the position of the last occurrence of a character, or -1 |
| Text.AfterLast | sources/utils/download.py:9 | what follows the last occurrence contains none |
| Text.AfterLastUnique | sources/utils/download.py:9 | a separator-free ending that follows a separator or is everything is what AfterLast gives |
| Text.BeforeLast | sources/utils/create.py:137 | what precedes the last occurrence is shorter than the text |
| Text.Lower | sources/utils/download.py:33 | lower-casing keeps the length |
| Text.RemoveAllAbsent | sources/utils/create.py:135 | removing a substring that does not occur changes nothing |

## Left out

- HTTP and streaming: the request, raise_for_status and the chunk-writing loop with its progress bar (`sources/utils/download.py:16-23`). The response status is a parameter.
- `tarfile.open` and `extractall` are not modelled: their errors (a corrupt archive, path traversal) and what lands on disk are out of scope. The listing of `extract_to` after extraction is a parameter.
- The `make` invocations, `multiprocessing.cpu_count` and `os.environ.copy()`. The environment is a map parameter, and the `make` steps of `build_busybox` are not sequenced.
- Execute.RunAllFacts: `sys.exit(retcode)` is modelled with the full status, not reduced modulo 256 as the OS reports it. The subprocess and its output are not modelled, nor are `run_command` (`sources/utils/execute.py:5-22`), `run` (25-48) and the rest of `run_command_live` (51-83).
- `sources/utils/load.py` and the argument parsing of `sources/main.py` are not part of this model. Only the step order of `create_rootfs` is.
- The `config_patch` list read by `configs` (`sources/main.py:52`): nothing uses it, so it has no effect to model.
- BusyboxBuild.Table and BusyboxConfig.Dict hold strings only. A JSON number, boolean or null in the config would reach `.config` through an f-string as `1`, `True` or `None` (`sources/core/busybox.py:19`, `:22`); the model starts from the rendered text.
- FsTree.Copy: a symbolic link as the source is copied as a link node, where `shutil.copy2` follows the link and copies the file it names.
- FsTree.WriteText: an existing device node becomes a regular file holding the text, where `write_text` writes into the device and the node stays a device.
- BusyboxConfig.SplitLines: `str.splitlines` is modelled on '\n' alone. The other line boundaries ('\r', '\r\n', '\v', '\f', '\x1c'-'\x1e', '\x85', ' ', ' ') are not split on.
- Text.Lower: `str.lower` is modelled on ASCII letters only.
- Paths: no normalisation (`..`, `.`, repeated '/'), no `resolve()`, and paths relative to the working directory as the script writes them.
- FsTree.Chmod: `chmod` on a symbolic link leaves the link and its target unchanged. Python follows the link and changes the target's mode.
- FsTree.WriteText and the existence tests do not follow symbolic links either. A dangling link counts as existing.
- FsTree.MakeDirs: every error of `mkdir(parents=True)` with a non-directory in the way is NotADirectory. Python raises FileExistsError or NotADirectoryError depending on where the obstacle is.
- RootFs.Agrees: after a failing step the tree is not specified. Python leaves whatever the step did before it raised.
- FsTree.Copy: `shutil.copy2`'s SameFileError is not modelled (the source and destination coincide only when `qemu_dir` is the tree's own usr/bin). A directory as the source is copied as a node, where `copy2` would raise. Timestamps are not modelled.
- FsTree.Copy: an existing directory as the destination is replaced by the copied file node and its children are kept under a path that is no longer a directory, where `shutil.copy2` would copy into `dest/<name>`. In a run the destination is `usr/bin/qemu-<arch>-static`, which is a directory only if the tree already held one there.
- RootfsDev.MakePts: `mkdir(exist_ok=True)` without parents is modelled. `dev` is always a directory at that point, so the missing-parent error cannot occur.
- Walk order: `os.walk` visits in a host-dependent order. The model lets the loop pick any remaining path, and proves that the result does not depend on the order.
- Device nodes: `os.mknod` is modelled as permitted or not for the whole run (`privileged`). Errors other than PermissionError are not modelled.
- ModifyRootfs.Chroot: the working directory of the final command and its description text are not modelled.
- Printed messages and log text.
