/**
 * create_dev_nodes (sources/utils/create.py): make rootfs/dev, create each
 * missing device of the table, as a real character device when the process
 * may call mknod and as an empty placeholder file with the device's
 * permissions when it may not, then make dev/pts.
 */
module RootfsDev {
  import opened Wrappers
  import opened FsTree
  import opened RootfsLayout
  import Paths

  /** The node a missing device becomes: mknod masks the permissions with the umask, the placeholder gets them by chmod. */
  function DevNode(d: Device, privileged: bool, umask: Mode): Node {
    if privileged then Node(CharDevice(d.major, d.minor), d.perms & !umask)
    else Node(Regular(""), d.perms)
  }

  /** One turn of the device loop: an existing path is skipped. */
  function DevStep(t: Tree, d: Device, privileged: bool, umask: Mode): Tree {
    var p := DevicePath(d);
    if p in t then t
    else if privileged then Mknod(t, p, d.major, d.minor, d.perms & !umask)
    else Chmod(Touch(t, p, FileMode(umask)), p, d.perms)
  }

  function DevEach(t: Tree, devs: seq<Device>, privileged: bool, umask: Mode): Tree
    decreases |devs|
  {
    if devs == [] then t
    else DevStep(DevEach(t, devs[..|devs| - 1], privileged, umask), devs[|devs| - 1], privileged, umask)
  }

  /** (dev_path / "pts").mkdir(exist_ok=True): without parents, an existing non-directory is an error. */
  function MakePts(t: Tree, mode: Mode): Result<Tree, FsError> {
    if DevPtsDir in t then
      if t[DevPtsDir].kind.Directory? then Ok(t) else Err(FileExists(DevPtsDir))
    else Ok(t[DevPtsDir := Node(Directory, mode)])
  }

  /** The whole of create_dev_nodes. */
  function DevNodesCreated(t: Tree, privileged: bool, umask: Mode): Result<Tree, FsError> {
    match MakeDirs(t, DevDir, DirMode(umask))
    case Err(e) => Err(e)
    case Ok(t1) => MakePts(DevEach(t1, Devices, privileged, umask), DirMode(umask))
  }

  /** No two devices of devs land on the same path. */
  predicate DistinctPaths(devs: seq<Device>) {
    forall i, j :: 0 <= i < j < |devs| ==> DevicePath(devs[i]) != DevicePath(devs[j])
  }

  function DevPaths(devs: seq<Device>): set<string> {
    set d | d in devs :: DevicePath(d)
  }

  /** One turn on its own. */
  lemma DevStepFacts(t: Tree, d: Device, privileged: bool, umask: Mode)
    ensures var r := DevStep(t, d, privileged, umask);
      && r.Keys == t.Keys + {DevicePath(d)}
      && (forall q :: q in t ==> r[q] == t[q])
      && (DevicePath(d) !in t ==> r[DevicePath(d)] == DevNode(d, privileged, umask))
  {
  }

  /** The paths of a non-empty list: those of all but the last device, and the last one's, which is new. */
  lemma DevPathsSnoc(devs: seq<Device>)
    requires devs != [] && DistinctPaths(devs)
    ensures var init := devs[..|devs| - 1]; var p := DevicePath(devs[|devs| - 1]);
      DevPaths(devs) == DevPaths(init) + {p} && p !in DevPaths(init)
  {
    var init := devs[..|devs| - 1];
    var p := DevicePath(devs[|devs| - 1]);
    assert devs == init + [devs[|devs| - 1]];
    forall d | d in init
      ensures DevicePath(d) != p
    {
      var j :| 0 <= j < |init| && init[j] == d;
      assert devs[j] == d;
    }
  }

  /** What the device loop has done after the devices of devs. */
  predicate DevDone(t: Tree, r: Tree, devs: seq<Device>, privileged: bool, umask: Mode) {
    && r.Keys == t.Keys + DevPaths(devs)
    && (forall q :: q in t ==> r[q] == t[q])
    && (forall i :: 0 <= i < |devs| && DevicePath(devs[i]) !in t ==> r[DevicePath(devs[i])] == DevNode(devs[i], privileged, umask))
  }

  /** One more device keeps DevDone. */
  lemma DevDoneStep(t: Tree, r0: Tree, devs: seq<Device>, privileged: bool, umask: Mode)
    requires devs != [] && DistinctPaths(devs)
    requires DevDone(t, r0, devs[..|devs| - 1], privileged, umask)
    ensures DevDone(t, DevStep(r0, devs[|devs| - 1], privileged, umask), devs, privileged, umask)
  {
    var init := devs[..|devs| - 1];
    var last := devs[|devs| - 1];
    var p := DevicePath(last);
    DevStepFacts(r0, last, privileged, umask);
    var r := DevStep(r0, last, privileged, umask);
    DevPathsSnoc(devs);
    forall i | 0 <= i < |devs| && DevicePath(devs[i]) !in t
      ensures r[DevicePath(devs[i])] == DevNode(devs[i], privileged, umask)
    {
      if i < |devs| - 1 {
        var d := init[i];
        assert devs[i] == d;
        assert d in init;
        assert DevicePath(d) in r0;
        assert r0[DevicePath(d)] == DevNode(d, privileged, umask);
      } else {
        assert p !in r0;
      }
    }
  }

  /**
   * The device loop over distinct paths: every device path exists
   * afterwards, a device that was missing is the node DevNode describes, and
   * nothing that was there changes (existing entries are skipped).
   */
  lemma {:induction false} DevEachFacts(t: Tree, devs: seq<Device>, privileged: bool, umask: Mode)
    requires DistinctPaths(devs)
    ensures DevDone(t, DevEach(t, devs, privileged, umask), devs, privileged, umask)
    decreases |devs|
  {
    if devs != [] {
      var init := devs[..|devs| - 1];
      DevEachFacts(t, init, privileged, umask);
      DevDoneStep(t, DevEach(t, init, privileged, umask), devs, privileged, umask);
    }
  }

  /** The eight devices of the table land on eight different paths. */
  lemma DevicesDistinctPaths()
    ensures DistinctPaths(Devices)
  {
    DeviceNames();
    forall i, j | 0 <= i < j < |Devices|
      ensures DevicePath(Devices[i]) != DevicePath(Devices[j])
    {
      if DevicePath(Devices[i]) == DevicePath(Devices[j]) {
        JoinInjective(DevDir, Devices[i].name, Devices[j].name);
      }
    }
  }

  /** The device paths of the table are longer than rootfs/dev and none of them is dev/pts. */
  lemma DevicePathsApart()
    ensures forall i :: 0 <= i < |Devices| ==> |DevicePath(Devices[i])| > |DevDir| && DevicePath(Devices[i]) != DevPtsDir
  {
    DeviceNames();
    forall i | 0 <= i < |Devices|
      ensures DevicePath(Devices[i]) != DevPtsDir
    {
      assert DevPtsDir == Paths.Join(DevDir, "pts");
      if DevicePath(Devices[i]) == DevPtsDir {
        JoinInjective(DevDir, Devices[i].name, "pts");
      }
    }
  }

  /** mkdir of dev/pts on its own. */
  lemma MakePtsFacts(t: Tree, mode: Mode)
    ensures var r := MakePts(t, mode);
      && (r.Err? <==> DevPtsDir in t && !t[DevPtsDir].kind.Directory?)
      && (r.Ok? ==>
            && IsDir(r.value, DevPtsDir)
            && r.value.Keys == t.Keys + {DevPtsDir}
            && (forall q :: q in t ==> r.value[q] == t[q]))
  {
  }

  /** create_dev_nodes fails exactly when something that is not a directory stands on the way to dev, or at dev/pts. */
  lemma DevNodesCreatedFails(t: Tree, privileged: bool, umask: Mode)
    ensures DevNodesCreated(t, privileged, umask).Err? <==>
      Blocked(t, DevDir) || (DevPtsDir in t && !t[DevPtsDir].kind.Directory?)
  {
    var m := MakeDirs(t, DevDir, DirMode(umask));
    if m.Ok? {
      DevicesDistinctPaths();
      DevicePathsApart();
      DevEachFacts(m.value, Devices, privileged, umask);
      var t2 := DevEach(m.value, Devices, privileged, umask);
      MakePtsFacts(t2, DirMode(umask));
      assert DevPtsDir !in DevPaths(Devices);
      assert |DevPtsDir| > |DevDir|;
      assert DevPtsDir in m.value <==> DevPtsDir in t;
      assert DevPtsDir in t2 <==> DevPtsDir in t;
      if DevPtsDir in t {
        assert t2[DevPtsDir] == t[DevPtsDir];
      }
    }
  }

  /**
   * After create_dev_nodes succeeds: dev and dev/pts are directories, every
   * device of the table exists, a device that was missing is a character
   * device with its masked permissions (or a placeholder with its
   * permissions), and nothing that was there changes.
   */
  lemma DevNodesCreatedFacts(t: Tree, privileged: bool, umask: Mode)
    ensures var r := DevNodesCreated(t, privileged, umask);
      r.Ok? ==>
        && (forall q :: q in Paths.Ancestry(DevDir) ==> IsDir(r.value, q))
        && IsDir(r.value, DevPtsDir)
        && (forall q :: q in t ==> q in r.value && r.value[q] == t[q])
        && (forall i :: 0 <= i < |Devices| ==>
              DevicePath(Devices[i]) in r.value
              && (DevicePath(Devices[i]) !in t ==> r.value[DevicePath(Devices[i])] == DevNode(Devices[i], privileged, umask)))
  {
    var m := MakeDirs(t, DevDir, DirMode(umask));
    if m.Ok? {
      DevicesDistinctPaths();
      DevicePathsApart();
      DevEachFacts(m.value, Devices, privileged, umask);
      var t2 := DevEach(m.value, Devices, privileged, umask);
      MakePtsFacts(t2, DirMode(umask));
      var r := MakePts(t2, DirMode(umask));
      if r.Ok? {
        forall q | q in Paths.Ancestry(DevDir)
          ensures IsDir(r.value, q)
        {
          assert IsDir(m.value, q);
          assert q != DevPtsDir;
        }
        forall i | 0 <= i < |Devices|
          ensures DevicePath(Devices[i]) in r.value
          ensures DevicePath(Devices[i]) !in t ==> r.value[DevicePath(Devices[i])] == DevNode(Devices[i], privileged, umask)
        {
          var d := Devices[i];
          assert d in Devices;
          assert DevicePath(d) in t2;
          if DevicePath(d) !in t {
            assert |DevicePath(d)| > |DevDir|;
            assert DevicePath(d) !in m.value;
          }
        }
      }
    }
  }

  /** The device loop over devices that all exist changes nothing. */
  lemma {:induction false} DevEachExisting(t: Tree, devs: seq<Device>, privileged: bool, umask: Mode)
    requires forall i :: 0 <= i < |devs| ==> DevicePath(devs[i]) in t
    ensures DevEach(t, devs, privileged, umask) == t
    decreases |devs|
  {
    if devs != [] {
      DevEachExisting(t, devs[..|devs| - 1], privileged, umask);
    }
  }

  /** Running create_dev_nodes again on its own result changes nothing. */
  lemma DevNodesCreatedIdempotent(t: Tree, privileged: bool, umask: Mode)
    requires DevNodesCreated(t, privileged, umask).Ok?
    ensures var r := DevNodesCreated(t, privileged, umask).value;
      DevNodesCreated(r, privileged, umask) == Ok(r)
  {
    var r := DevNodesCreated(t, privileged, umask).value;
    DevNodesCreatedFacts(t, privileged, umask);
    MakeDirsExisting(r, DevDir, DirMode(umask));
    DevEachExisting(r, Devices, privileged, umask);
  }

  /** create_dev_nodes adds nothing but the directories on the way to dev, the device paths and dev/pts. */
  lemma DevNodesCreatedKeys(t: Tree, privileged: bool, umask: Mode)
    ensures var r := DevNodesCreated(t, privileged, umask);
      r.Ok? ==> r.value.Keys == t.Keys + Paths.Ancestry(DevDir) + DevPaths(Devices) + {DevPtsDir}
  {
    var m := MakeDirs(t, DevDir, DirMode(umask));
    if m.Ok? {
      DevicesDistinctPaths();
      DevEachFacts(m.value, Devices, privileged, umask);
      MakePtsFacts(DevEach(m.value, Devices, privileged, umask), DirMode(umask));
    }
  }
}
