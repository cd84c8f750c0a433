/**
 * The decisions build_busybox makes before it runs make
 * (sources/core/busybox.py): the architecture override of the
 * cross-compile settings, the environment handed to make, and the source
 * directory it builds in. The settings come from the JSON configuration as a
 * string-to-string table; the process environment is a parameter.
 */
module BusyboxBuild {
  import opened Wrappers
  import Paths
  import Download

  type Table = map<string, string>

  /** The value under key, or the given default (dict.get). */
  function GetOr(t: Table, key: string, default: string): string {
    if key in t then t[key] else default
  }

  /**
   * The --arch override: a missing or empty argument changes nothing;
   * otherwise "arch" is replaced, x86_64 forces an empty compiler prefix,
   * arm64 forces "aarch64-linux-gnu-", and any other name keeps the
   * configured prefix.
   */
  function ApplyArchOverride(cc: Table, arch: Option<string>): (r: Table)
    ensures arch.None? || arch == Some("") ==> r == cc
    ensures arch.Some? && arch.value != "" ==> "arch" in r && r["arch"] == arch.value
    ensures forall k :: k in cc ==> k in r
    ensures forall k :: k in r && k != "arch" && k != "compiler_prefix" ==> k in cc && r[k] == cc[k]
  {
    if arch.None? || arch.value == "" then cc
    else
      var withArch := cc["arch" := arch.value];
      if arch.value == "x86_64" then withArch["compiler_prefix" := ""]
      else if arch.value == "arm64" then withArch["compiler_prefix" := "aarch64-linux-gnu-"]
      else withArch
  }

  /** The prefix the override leaves: forced for x86_64 and arm64, the configured one otherwise. */
  lemma ArchOverridePrefix(cc: Table, arch: Option<string>)
    ensures var r := ApplyArchOverride(cc, arch);
      && (arch == Some("x86_64") ==> "compiler_prefix" in r && r["compiler_prefix"] == "")
      && (arch == Some("arm64") ==> "compiler_prefix" in r && r["compiler_prefix"] == "aarch64-linux-gnu-")
      && (arch != Some("x86_64") && arch != Some("arm64") ==>
            ("compiler_prefix" in r <==> "compiler_prefix" in cc)
            && ("compiler_prefix" in cc ==> r["compiler_prefix"] == cc["compiler_prefix"]))
  {
  }

  /**
   * The environment make runs with: a copy of the process environment with
   * ARCH (default arm64), CROSS_COMPILE unless the arch is x86_64 (default
   * empty prefix), CFLAGS and LDFLAGS (default empty).
   */
  function BuildEnv(base: Table, cc: Table): (env: Table)
    ensures "ARCH" in env && "CFLAGS" in env && "LDFLAGS" in env
    ensures forall k :: k in base ==> k in env
  {
    var arch := GetOr(cc, "arch", "arm64");
    var withArch := base["ARCH" := arch];
    var withCross := if arch != "x86_64" then withArch["CROSS_COMPILE" := GetOr(cc, "compiler_prefix", "")] else withArch;
    withCross["CFLAGS" := GetOr(cc, "cflags", "")]["LDFLAGS" := GetOr(cc, "ldflags", "")]
  }

  /**
   * What each variable ends up as. CROSS_COMPILE is written exactly when the
   * arch is not x86_64; for x86_64 whatever the process environment held is
   * passed on untouched. No other variable of the process environment changes.
   */
  lemma BuildEnvRules(base: Table, cc: Table)
    ensures var env := BuildEnv(base, cc); var arch := GetOr(cc, "arch", "arm64");
      && env["ARCH"] == arch
      && ("arch" !in cc ==> env["ARCH"] == "arm64")
      && (arch != "x86_64" ==> "CROSS_COMPILE" in env && env["CROSS_COMPILE"] == GetOr(cc, "compiler_prefix", ""))
      && (arch == "x86_64" ==>
            ("CROSS_COMPILE" in env <==> "CROSS_COMPILE" in base)
            && ("CROSS_COMPILE" in base ==> env["CROSS_COMPILE"] == base["CROSS_COMPILE"]))
      && env["CFLAGS"] == GetOr(cc, "cflags", "")
      && env["LDFLAGS"] == GetOr(cc, "ldflags", "")
      && env.Keys == base.Keys + {"ARCH", "CFLAGS", "LDFLAGS"} + (if arch != "x86_64" then {"CROSS_COMPILE"} else {})
      && (forall k :: k in base && k !in {"ARCH", "CROSS_COMPILE", "CFLAGS", "LDFLAGS"} ==> env[k] == base[k])
  {
  }

  /**
   * The override and the environment together, per --arch value: x86_64 sets
   * no CROSS_COMPILE of its own, arm64 always cross-compiles with
   * aarch64-linux-gnu-, another name keeps the configured prefix, and without
   * the argument the configured arch (default arm64) decides.
   */
  lemma ArchSelection(base: Table, cc: Table, arch: Option<string>)
    ensures var env := BuildEnv(base, ApplyArchOverride(cc, arch));
      && (arch == Some("x86_64") ==>
            env["ARCH"] == "x86_64"
            && ("CROSS_COMPILE" in env <==> "CROSS_COMPILE" in base)
            && ("CROSS_COMPILE" in base ==> env["CROSS_COMPILE"] == base["CROSS_COMPILE"]))
      && (arch == Some("arm64") ==>
            env["ARCH"] == "arm64"
            && "CROSS_COMPILE" in env && env["CROSS_COMPILE"] == "aarch64-linux-gnu-")
      && (arch.Some? && arch.value !in {"", "x86_64", "arm64"} ==>
            env["ARCH"] == arch.value
            && "CROSS_COMPILE" in env && env["CROSS_COMPILE"] == GetOr(cc, "compiler_prefix", ""))
      && (arch.None? || arch == Some("") ==> env == BuildEnv(base, cc))
  {
    var r := ApplyArchOverride(cc, arch);
    BuildEnvRules(base, r);
    ArchOverridePrefix(cc, arch);
  }

  /** work_dir / f"busybox-{version}": the directory every make step runs in. */
  function BusyboxSourceDir(workDir: string, version: string): string {
    Paths.Join(workDir, "busybox-" + version)
  }

  /** The three directories found when build_busybox lists where it extracted. */
  datatype Sources = Sources(extracted: string, detected: string, used: string)

  /**
   * Extraction into work_dir, then the same "single directory, else the
   * root" rule on the directory extraction returned (its listing is
   * extractedListing), then the version-derived directory that is actually
   * used. An unsupported archive name fails before any of it.
   */
  function LocateSources(workDir: string, version: string, tarball: string,
                         workListing: seq<Download.Entry>, extractedListing: seq<Download.Entry>): (r: Result<Sources, Download.ArchiveError>)
    ensures r.Err? <==> Download.ArchiveMode(tarball).Err?
    ensures r.Ok? ==> r.value.used == BusyboxSourceDir(workDir, version)
  {
    match Download.ExtractTarball(tarball, workDir, workListing)
    case Err(e) => Err(e)
    case Ok(extracted) => Ok(Sources(extracted, Download.ResultDir(extracted, extractedListing), BusyboxSourceDir(workDir, version)))
  }

  /**
   * As written, work_dir already holds the workspace directories "downloads"
   * and "build" when the tarball is extracted into it, so the extraction
   * reports work_dir itself, the detection step then reports work_dir again,
   * and neither is the busybox-{version} directory the build goes on to use.
   */
  lemma ExtractionIntoWorkspaceFindsWorkspace(workDir: string, version: string, tarball: string, workListing: seq<Download.Entry>)
    requires Download.ArchiveMode(tarball).Ok?
    requires Download.Entry("downloads", true) in workListing && Download.Entry("build", true) in workListing
    ensures var r := LocateSources(workDir, version, tarball, workListing, workListing);
      && r.Ok? && r.value.extracted == workDir && r.value.detected == workDir
      && r.value.used != workDir
  {
    Download.TwoDirectoriesGiveRoot(workDir, workListing, "downloads", "build");
    assert |BusyboxSourceDir(workDir, version)| > |workDir|;
  }
}
