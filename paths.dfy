/**
 * The pathlib rules the scripts depend on, over '/'-separated path strings:
 * joining, the final component (Path.name), the parent (Path.parent), the
 * suffix (Path.suffix) and the chain of directories mkdir(parents=True) creates.
 */
module Paths {
  import opened Text

  /** Path(base) / seg; pathlib drops an empty segment. */
  function Join(base: string, seg: string): string {
    if seg == "" then base else base + "/" + seg
  }

  /** Path.name: the final component. */
  function Name(p: string): string {
    AfterLast(p, '/')
  }

  /** Path.parent, for a path that has more than one component. */
  function Parent(p: string): string {
    BeforeLast(p, '/')
  }

  /** Path.suffix: from the last dot of the name, unless that dot leads or ends the name. */
  function Suffix(name: string): string {
    var i := LastIndexOf(name, '.');
    if 0 < i < |name| - 1 then name[i..] else ""
  }

  /** A name has the suffix ".sh" exactly when it ends in ".sh" and has something before that dot. */
  lemma SuffixIsSh(name: string)
    ensures Suffix(name) == ".sh" <==> (|name| > 3 && EndsWith(name, ".sh"))
  {
    var i := LastIndexOf(name, '.');
    if |name| > 3 && EndsWith(name, ".sh") {
      assert name[|name| - 3] == '.' && name[|name| - 2] == 's' && name[|name| - 1] == 'h';
      assert i == |name| - 3;
    }
    if Suffix(name) == ".sh" {
      assert 0 < i < |name| - 1 && name[i..] == ".sh";
      assert |name| == i + 3;
    }
  }

  /** Joining a single non-empty component: the result's name is that component and its parent is the base. */
  lemma JoinNameParent(base: string, name: string)
    requires '/' !in name && name != ""
    ensures Name(Join(base, name)) == name
    ensures Parent(Join(base, name)) == base
  {
    var p := Join(base, name);
    assert p[|base|] == '/';
    assert forall j :: |base| < j < |p| ==> p[j] == name[j - |base| - 1];
    assert LastIndexOf(p, '/') == |base|;
    assert p[|base| + 1..] == name;
    assert p[..|base|] == base;
  }

  /** Joining a non-empty relative path keeps that path's final component. */
  lemma NameJoin(base: string, rel: string)
    requires rel != ""
    ensures Name(Join(base, rel)) == Name(rel)
  {
    var p := Join(base, rel);
    var r := Name(rel);
    assert p == base + "/" + rel;
    assert p[|p| - |r|..] == rel[|rel| - |r|..];
    if r == rel {
      assert p[|p| - |r| - 1] == '/';
    } else {
      assert p[|p| - |r| - 1] == rel[|rel| - |r| - 1];
    }
    AfterLastUnique(p, '/', r);
  }

  /** The path and every proper ancestor of it that mkdir(parents=True) may have to create. */
  function Ancestry(p: string): (r: set<string>)
    ensures p in r
    ensures forall q :: q in r ==> |q| <= |p| && q == p[..|q|]
  {
    (set i | 0 < i < |p| && p[i] == '/' :: p[..i]) + {p}
  }

  /**
   * A path that starts at the root of the file system. The script's own
   * paths are relative to its working directory, so none of them is one.
   */
  predicate Absolute(p: string) {
    |p| > 0 && p[0] == '/'
  }

  /** Every directory on the way to a relative path is relative too. */
  lemma AncestryRelative(p: string)
    requires !Absolute(p)
    ensures forall q :: q in Ancestry(p) ==> !Absolute(q)
  {
    forall q | q in Ancestry(p)
      ensures !Absolute(q)
    {
      if q != p {
        var i :| 0 < i < |p| && p[i] == '/' && q == p[..i];
      }
    }
  }

  /** Every directory on the way to base is also on the way to base/seg. */
  lemma AncestryJoin(base: string, seg: string)
    requires base != "" && seg != ""
    ensures Ancestry(base) <= Ancestry(Join(base, seg))
  {
    var p := Join(base, seg);
    assert p[|base|] == '/' && p[..|base|] == base;
    forall q | q in Ancestry(base)
      ensures q in Ancestry(p)
    {
      if q != base {
        var i :| 0 < i < |base| && base[i] == '/' && q == base[..i];
        assert p[i] == '/' && p[..i] == q;
      }
    }
  }

  /** The directories on the way to base/seg, for a single component seg, are those on the way to base and base/seg itself. */
  lemma AncestryJoinOne(base: string, seg: string)
    requires base != "" && seg != "" && '/' !in seg
    ensures Ancestry(Join(base, seg)) == Ancestry(base) + {Join(base, seg)}
  {
    var p := Join(base, seg);
    AncestryJoin(base, seg);
    assert p[|base|] == '/' && p[..|base|] == base;
    forall q | q in Ancestry(p) && q != p
      ensures q in Ancestry(base)
    {
      var i :| 0 < i < |p| && p[i] == '/' && q == p[..i];
      if i < |base| {
        assert base[i] == '/' && q == base[..i];
      }
    }
  }
}
