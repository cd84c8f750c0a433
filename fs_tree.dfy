/**
 * The file system as sources/utils/create.py sees it: a map from path to
 * node, each node a directory, a regular file, a character device or a
 * symbolic link, with its permission bits. The operations below are the
 * pathlib/os calls the script makes (mkdir with parents, chmod, write_text,
 * touch, mknod, symlink_to, shutil.copy2), each with the outcome the OS
 * gives it, including the errors the script does not catch.
 */
module FsTree {
  import opened Wrappers
  import Paths

  /** Permission bits, including the sticky bit (0o7777 fits in twelve bits). */
  type Mode = bv12

  const M0755: Mode := 0x1ED
  const M0644: Mode := 0x1A4
  const M0666: Mode := 0x1B6
  const M0444: Mode := 0x124
  const M0777: Mode := 0x1FF
  const M1777: Mode := 0x3FF

  datatype Kind =
    | Directory
    | Regular(content: string)
    | CharDevice(major: nat, minor: nat)
    | Symlink(target: string)

  datatype Node = Node(kind: Kind, mode: Mode)

  type Tree = map<string, Node>

  /** The OSError subclasses the calls raise. */
  datatype FsError =
    | NotADirectory(path: string)   // NotADirectoryError, or FileExistsError from mkdir on a non-directory
    | FileExists(path: string)      // FileExistsError from symlink_to
    | NoSuchFile(path: string)      // FileNotFoundError
    | IsADirectory(path: string)    // IsADirectoryError

  predicate IsDir(t: Tree, p: string) {
    p in t && t[p].kind.Directory?
  }

  /** Some path on the way to p, p included, is taken by something that is not a directory. */
  predicate Blocked(t: Tree, p: string) {
    exists q :: q in Paths.Ancestry(p) && q in t && !t[q].kind.Directory?
  }

  /**
   * Path(p).mkdir(parents=True, exist_ok=True): every missing directory on
   * the way to p is created with the given mode; existing directories are
   * left as they are; anything else in the way is an error.
   */
  function MakeDirs(t: Tree, p: string, mode: Mode): (r: Result<Tree, FsError>)
    ensures r.Err? <==> Blocked(t, p)
    ensures r.Ok? ==> r.value.Keys == t.Keys + Paths.Ancestry(p)
    ensures r.Ok? ==> forall q :: q in t ==> r.value[q] == t[q]
    ensures r.Ok? ==> forall q :: q in Paths.Ancestry(p) ==> IsDir(r.value, q)
    ensures r.Ok? ==> forall q :: q in Paths.Ancestry(p) && q !in t ==> r.value[q] == Node(Directory, mode)
  {
    if Blocked(t, p) then Err(NotADirectory(p))
    else Ok(map q | q in t.Keys + Paths.Ancestry(p) :: if q in t then t[q] else Node(Directory, mode))
  }

  /** When every directory on the way to p already exists, mkdir changes nothing. */
  lemma MakeDirsExisting(t: Tree, p: string, mode: Mode)
    requires forall q :: q in Paths.Ancestry(p) ==> IsDir(t, q)
    ensures MakeDirs(t, p, mode) == Ok(t)
  {
    assert !Blocked(t, p);
    var r := MakeDirs(t, p, mode);
    assert r.value.Keys == t.Keys;
    assert forall q :: q in r.value ==> r.value[q] == t[q];
    assert r.value == t;
  }

  /**
   * Path.chmod. A symbolic link is not followed: its entry and its target
   * keep their modes. A missing path is left to the caller, which only
   * changes modes of paths that exist.
   */
  function Chmod(t: Tree, p: string, mode: Mode): (r: Tree)
    ensures r.Keys == t.Keys
    ensures forall q :: q in t ==> r[q].kind == t[q].kind
    ensures forall q :: q in t && q != p ==> r[q] == t[q]
    ensures p in t && !t[p].kind.Symlink? ==> r[p].mode == mode
    ensures p in t && t[p].kind.Symlink? ==> r[p] == t[p]
  {
    if p in t && !t[p].kind.Symlink? then t[p := Node(t[p].kind, mode)] else t
  }

  /**
   * Path.write_text: the directory must exist and p must not be a
   * directory; an existing file keeps its mode, a new one gets the given
   * mode (the process's default, already masked by the umask).
   */
  function WriteText(t: Tree, p: string, content: string, mode: Mode): (r: Result<Tree, FsError>)
    ensures r.Ok? <==> IsDir(t, Paths.Parent(p)) && !IsDir(t, p)
    ensures r.Ok? ==> r.value.Keys == t.Keys + {p}
    ensures r.Ok? ==> r.value[p] == Node(Regular(content), if p in t then t[p].mode else mode)
    ensures r.Ok? ==> forall q :: q in t && q != p ==> r.value[q] == t[q]
  {
    if !IsDir(t, Paths.Parent(p)) then Err(NoSuchFile(p))
    else if IsDir(t, p) then Err(IsADirectory(p))
    else if p in t then Ok(t[p := Node(Regular(content), t[p].mode)])
    else Ok(t[p := Node(Regular(content), mode)])
  }

  /** Path.touch on a path whose directory exists: an empty file if nothing is there, else no change. */
  function Touch(t: Tree, p: string, mode: Mode): (r: Tree)
    ensures r.Keys == t.Keys + {p}
    ensures p in t ==> r == t
    ensures p !in t ==> r[p] == Node(Regular(""), mode)
    ensures forall q :: q in t ==> r[q] == t[q]
  {
    if p in t then t else t[p := Node(Regular(""), mode)]
  }

  /** os.mknod of a character device at a free path. */
  function Mknod(t: Tree, p: string, major: nat, minor: nat, mode: Mode): (r: Tree)
    ensures r.Keys == t.Keys + {p}
    ensures r[p] == Node(CharDevice(major, minor), mode)
    ensures forall q :: q in t && q != p ==> r[q] == t[q]
  {
    t[p := Node(CharDevice(major, minor), mode)]
  }

  /** Path(p).symlink_to(target): p must be free and its directory must exist. */
  function MakeSymlink(t: Tree, p: string, target: string): (r: Result<Tree, FsError>)
    ensures r.Ok? <==> p !in t && IsDir(t, Paths.Parent(p))
    ensures p in t ==> r == Err(FileExists(p))
    ensures r.Ok? ==> r.value == t[p := Node(Symlink(target), M0777)]
  {
    if p in t then Err(FileExists(p))
    else if !IsDir(t, Paths.Parent(p)) then Err(NoSuchFile(p))
    else Ok(t[p := Node(Symlink(target), M0777)])
  }

  /** shutil.copy2(src, dest) for an existing src: contents and permission bits are copied. */
  function Copy(t: Tree, src: string, dest: string): (r: Tree)
    requires src in t
    ensures r.Keys == t.Keys + {dest}
    ensures r[dest] == t[src]
    ensures forall q :: q in t && q != dest ==> r[q] == t[q]
  {
    t[dest := t[src]]
  }

  /** t2 holds every path of t, each of the same kind: modes and new paths aside, nothing was lost or replaced. */
  predicate Grows(t: Tree, t2: Tree) {
    forall q :: q in t ==> q in t2 && t2[q].kind == t[q].kind
  }

  /** Trees with the same paths and the same node at every path are equal. */
  lemma SameTrees(a: Tree, b: Tree)
    requires a.Keys == b.Keys
    requires forall q :: q in a ==> a[q] == b[q]
    ensures a == b
  {
  }
}
