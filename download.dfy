/**
 * The decisions of sources/utils/download.py: the name a download is stored
 * under, the cache check that skips the request, the decompression mode
 * chosen from the archive's name, and the directory the extraction reports.
 * The HTTP transfer and tarfile's extraction are not modelled: the response
 * status and the listing of the target directory after extraction are
 * parameters.
 */
module Download {
  import opened Wrappers
  import opened Text
  import Paths

  /** url.split('/')[-1]: everything after the last '/', the whole URL when it has none. */
  function FileName(url: string): (r: string)
    ensures '/' !in r && EndsWith(url, r)
    ensures r == url || url[|url| - |r| - 1] == '/'
  {
    AfterLast(url, '/')
  }

  /** The two edge cases of the name rule: no '/' at all, and a URL that ends in '/'. */
  lemma FileNameEdges(url: string)
    ensures '/' !in url ==> FileName(url) == url
    ensures |url| > 0 && url[|url| - 1] == '/' ==> FileName(url) == ""
  {
    var r := FileName(url);
    assert r == "" || r[|r| - 1] == url[|url| - 1];
  }

  /** What download_file does with the destination it computed. */
  datatype Fetch =
    | Cached(path: string)        // dest already existed: returned without a request
    | Downloaded(path: string)    // requested, body written to dest
    | HttpError(status: int)      // raise_for_status raised

  /** The destination dest_dir / filename. */
  function Destination(url: string, destDir: string): string {
    Paths.Join(destDir, FileName(url))
  }

  /**
   * download_file. existing holds the paths present on disk beforehand;
   * destDir exists once mkdir(parents=True, exist_ok=True) has run, so a
   * destination equal to destDir counts as existing too. status is the HTTP
   * status the request would get; raise_for_status rejects 400 to 599.
   */
  function DownloadFile(url: string, destDir: string, existing: set<string>, status: int): Fetch {
    var dest := Destination(url, destDir);
    if dest in existing || dest == destDir then Cached(dest)
    else if 400 <= status < 600 then HttpError(status)
    else Downloaded(dest)
  }

  /**
   * The cache check: the file is requested only when dest did not exist,
   * whatever the server would answer; the path returned is always dest, and
   * an error status gives no path.
   */
  lemma DownloadFileCases(url: string, destDir: string, existing: set<string>, status: int)
    ensures var dest := Paths.Join(destDir, FileName(url)); var r := DownloadFile(url, destDir, existing, status);
      && (r.Cached? <==> dest in existing || dest == destDir)
      && (!r.HttpError? ==> r.path == dest)
      && (r.HttpError? <==> !(dest in existing || dest == destDir) && 400 <= status < 600)
      && (r.Cached? ==> forall s :: DownloadFile(url, destDir, existing, s) == r)
  {
  }

  /**
   * A URL that ends in '/' names no file: the destination is the download
   * directory itself, which mkdir has just made, so nothing is ever
   * requested and that directory is returned as the "cached" tarball.
   */
  lemma TrailingSlashIsCachedDirectory(url: string, destDir: string, existing: set<string>, status: int)
    requires |url| > 0 && url[|url| - 1] == '/'
    ensures DownloadFile(url, destDir, existing, status) == Cached(destDir)
  {
    FileNameEdges(url);
  }

  /** The decompression modes tarfile.open is given: "r:gz", "r:bz2" and "r:". */
  datatype Compression = Gzip | Bzip2 | Plain

  datatype ArchiveError = UnsupportedFormat(path: string)

  /** The if/elif chain of extract_tarball, on a name already lower-cased. */
  function ModeOf(name: string): Option<Compression> {
    if EndsWith(name, ".tar.gz") || EndsWith(name, ".tgz") then Some(Gzip)
    else if EndsWith(name, ".tar.bz2") then Some(Bzip2)
    else if EndsWith(name, ".tar") then Some(Plain)
    else None
  }

  /** The mode of tar_path.name.lower(), or ValueError naming the path. */
  function ArchiveMode(tarPath: string): Result<Compression, ArchiveError> {
    match ModeOf(Lower(Paths.Name(tarPath)))
    case Some(c) => Ok(c)
    case None => Err(UnsupportedFormat(tarPath))
  }

  /**
   * Each mode is selected by exactly its own endings: ".tar.gz" and ".tgz"
   * give gzip, ".tar.bz2" bz2, ".tar" the plain mode, and every other name is
   * refused. The chain's order matters only in that no ".tar.gz" or ".tar.bz2"
   * name also ends in ".tar", so no name matches two branches.
   */
  lemma ModeOfEndings(name: string)
    ensures var r := ModeOf(name);
      && (r == Some(Gzip) <==> EndsWith(name, ".tar.gz") || EndsWith(name, ".tgz"))
      && (r == Some(Bzip2) <==> EndsWith(name, ".tar.bz2"))
      && (r == Some(Plain) <==> EndsWith(name, ".tar"))
      && (r.None? <==> !EndsWith(name, ".tar.gz") && !EndsWith(name, ".tgz") && !EndsWith(name, ".tar.bz2") && !EndsWith(name, ".tar"))
  {
    if EndsWith(name, ".tar") {
      assert name[|name| - 1] == 'r';
    }
    if EndsWith(name, ".tar.bz2") || EndsWith(name, ".tar.gz") || EndsWith(name, ".tgz") {
      assert name[|name| - 1] != 'r';
    }
  }

  /** Lower-casing leaves every '/' where it was, so the last one does not move. */
  lemma {:induction false} LowerKeepsLastSlash(s: string)
    ensures LastIndexOf(Lower(s), '/') == LastIndexOf(s, '/')
    decreases |s|
  {
    if s != [] {
      assert Lower(s)[..|s| - 1] == Lower(s[..|s| - 1]);
      LowerKeepsLastSlash(s[..|s| - 1]);
    }
  }

  /** The name of the lower-cased path is the lower-cased name. */
  lemma NameOfLower(p: string)
    ensures Paths.Name(Lower(p)) == Lower(Paths.Name(p))
  {
    LowerKeepsLastSlash(p);
    var i := LastIndexOf(p, '/');
    assert Lower(p)[i + 1..] == Lower(p[i + 1..]);
  }

  /** Lower-casing twice is lower-casing once. */
  lemma LowerTwice(s: string)
    ensures Lower(Lower(s)) == Lower(s)
  {
    assert forall i :: 0 <= i < |s| ==> LowerChar(LowerChar(s[i])) == LowerChar(s[i]);
  }

  /** The mode does not depend on the case of the path: "BUSYBOX.TAR.BZ2" is read like "busybox.tar.bz2". */
  lemma ArchiveModeIgnoresCase(tarPath: string)
    ensures ArchiveMode(Lower(tarPath)).Ok? == ArchiveMode(tarPath).Ok?
    ensures ArchiveMode(tarPath).Ok? ==> ArchiveMode(Lower(tarPath)) == ArchiveMode(tarPath)
  {
    NameOfLower(tarPath);
    LowerTwice(Paths.Name(tarPath));
  }

  /** Only the last path component is examined: the directories in front of it never change the mode. */
  lemma ArchiveModeOnlyName(dir: string, name: string)
    requires '/' !in name && name != ""
    ensures ArchiveMode(Paths.Join(dir, name)).Ok? == ArchiveMode(name).Ok?
    ensures ArchiveMode(name).Ok? ==> ArchiveMode(Paths.Join(dir, name)) == ArchiveMode(name)
  {
    var p := Paths.Join(dir, name);
    assert p[|dir|] == '/';
    assert p[|dir| + 1..] == name;
    assert Paths.Name(p) == name;
  }

  /** An ending survives lower-casing, itself lower-cased. */
  lemma LowerEndsWith(s: string, suffix: string)
    requires EndsWith(s, suffix)
    ensures EndsWith(Lower(s), Lower(suffix))
  {
    var k := |s| - |suffix|;
    assert forall i :: 0 <= i < |suffix| ==> Lower(s)[k..][i] == Lower(s)[k + i];
  }

  /** A BusyBox release tarball, whose name ends in ".tar.bz2", is opened with bz2. */
  lemma ArchiveModeBzip2(name: string)
    requires '/' !in name && EndsWith(name, ".tar.bz2")
    ensures ArchiveMode(name) == Ok(Bzip2)
  {
    LowerEndsWith(name, ".tar.bz2");
    assert Lower(".tar.bz2") == ".tar.bz2";
    ModeOfEndings(Lower(name));
  }

  /** An upper-case ".TGZ" name is opened with gzip. */
  lemma ArchiveModeUpperTgz(name: string)
    requires '/' !in name && EndsWith(name, ".TGZ")
    ensures ArchiveMode(name) == Ok(Gzip)
  {
    LowerEndsWith(name, ".TGZ");
    assert Lower(".TGZ") == ".tgz";
    ModeOfEndings(Lower(name));
  }

  /** A ".tar.xz" release is refused. */
  lemma ArchiveModeXz(name: string)
    requires '/' !in name && EndsWith(name, ".tar.xz")
    ensures ArchiveMode(name).Err?
  {
    LowerEndsWith(name, ".tar.xz");
    assert Lower(".tar.xz") == ".tar.xz";
    var n := Lower(name);
    assert n[|n| - 1] == 'z' && n[|n| - 2] == 'x';
    assert !EndsWith(n, ".tar") && !EndsWith(n, ".tar.bz2");
    assert !EndsWith(n, ".tgz") && !EndsWith(n, ".tar.gz");
  }

  /** One entry of extract_to.iterdir(): its name and whether is_dir() holds. */
  datatype Entry = Entry(name: string, isDir: bool)

  /** The names of the entries that are directories, in listing order. */
  function Dirs(entries: seq<Entry>): (r: seq<string>)
    ensures |r| <= |entries|
  {
    if entries == [] then []
    else (if entries[0].isDir then [entries[0].name] else []) + Dirs(entries[1..])
  }

  /** The directories of a listing are those of its parts, in order. */
  lemma {:induction false} DirsAppend(a: seq<Entry>, b: seq<Entry>)
    ensures Dirs(a + b) == Dirs(a) + Dirs(b)
    decreases |a|
  {
    if a == [] {
      assert a + b == b;
    } else {
      assert (a + b)[0] == a[0] && (a + b)[1..] == a[1..] + b;
      DirsAppend(a[1..], b);
    }
  }

  /** A name is among the directories exactly when some directory entry has it. */
  lemma {:induction false} DirsMembers(entries: seq<Entry>, name: string)
    ensures name in Dirs(entries) <==> Entry(name, true) in entries
    decreases |entries|
  {
    if entries != [] {
      DirsMembers(entries[1..], name);
      assert entries == [entries[0]] + entries[1..];
    }
  }

  /** The path extract_tarball returns: the single directory among the entries, else extract_to itself. */
  function ResultDir(root: string, entries: seq<Entry>): string {
    var dirs := Dirs(entries);
    if |dirs| == 1 then Paths.Join(root, dirs[0]) else root
  }

  /**
   * The result is a child of extract_to exactly when one directory entry
   * exists, and then it is that directory; otherwise it is extract_to.
   */
  lemma ResultDirRule(root: string, entries: seq<Entry>)
    ensures var r := ResultDir(root, entries);
      && (|Dirs(entries)| != 1 ==> r == root)
      && (|Dirs(entries)| == 1 ==> exists name :: Entry(name, true) in entries && r == Paths.Join(root, name))
  {
    var dirs := Dirs(entries);
    if |dirs| == 1 {
      DirsMembers(entries, dirs[0]);
    }
  }

  /** Regular files in the listing never change the result. */
  lemma FilesDoNotCount(root: string, entries: seq<Entry>, file: string)
    ensures ResultDir(root, entries + [Entry(file, false)]) == ResultDir(root, entries)
    ensures ResultDir(root, [Entry(file, false)] + entries) == ResultDir(root, entries)
  {
    DirsAppend(entries, [Entry(file, false)]);
    DirsAppend([Entry(file, false)], entries);
    assert Dirs([Entry(file, false)]) == [];
    assert Dirs(entries) + [] == Dirs(entries);
  }

  /** Two differently named directories in the listing make extract_to the result. */
  lemma TwoDirectoriesGiveRoot(root: string, entries: seq<Entry>, a: string, b: string)
    requires a != b && Entry(a, true) in entries && Entry(b, true) in entries
    ensures ResultDir(root, entries) == root
  {
    DirsMembers(entries, a);
    DirsMembers(entries, b);
    var dirs := Dirs(entries);
    var i :| 0 <= i < |dirs| && dirs[i] == a;
    var j :| 0 <= j < |dirs| && dirs[j] == b;
    assert i != j;
  }

  /**
   * extract_tarball: the mode is chosen before the archive is opened, so an
   * unsupported name fails without touching extract_to's contents; otherwise
   * entries is the listing of extract_to once extractall has run.
   */
  function ExtractTarball(tarPath: string, extractTo: string, entries: seq<Entry>): (r: Result<string, ArchiveError>)
    ensures r.Err? <==> ArchiveMode(tarPath).Err?
    ensures r.Err? ==> r.error == UnsupportedFormat(tarPath)
    ensures r.Ok? ==> r.value == ResultDir(extractTo, entries)
  {
    match ArchiveMode(tarPath)
    case Err(e) => Err(e)
    case Ok(_) => Ok(ResultDir(extractTo, entries))
  }
}
