/**
 * Paths as sequences of components, the way `pathlib.Path` composes them
 * with `/`. The empty path is the filesystem root (or `Path()`, the
 * current directory): joining a relative location onto a base is
 * concatenation, and `.parent` drops the last component, with the root
 * being its own parent.
 */
module Paths {

  type Path = seq<string>

  datatype Option<+T> = None | Some(value: T)

  /** `p.parent`: the path without its last component; the root is its own parent. */
  function Parent(p: Path): (r: Path)
    ensures p != [] ==> |r| == |p| - 1 && p == r + [p[|p| - 1]]
    ensures p == [] ==> r == []
  {
    if p == [] then p else p[..|p| - 1]
  }

  /** `p.name`: the last component. */
  function Name(p: Path): string
    requires p != []
  {
    p[|p| - 1]
  }

  /** `p` is `dir` itself or lies somewhere below it. */
  predicate IsUnder(p: Path, dir: Path) {
    |dir| <= |p| && p[..|dir|] == dir
  }

  /** Every path `dir.mkdir(parents=True)` may have to create: `dir` and all its ancestors. */
  function Prefixes(dir: Path): set<Path> {
    set i | 0 <= i <= |dir| :: dir[..i]
  }

  /** `[base / location for location in locations]`. */
  function Joined(base: Path, locations: seq<Path>): (r: seq<Path>)
    ensures |r| == |locations|
    ensures forall i :: 0 <= i < |locations| ==> r[i] == base + locations[i]
  {
    seq(|locations|, i requires 0 <= i < |locations| => base + locations[i])
  }

  lemma PrefixElements<T>(s: seq<T>, t: seq<T>)
    requires |t| <= |s| && s[..|t|] == t
    ensures forall k :: 0 <= k < |t| ==> s[k] == t[k]
  {
    forall k | 0 <= k < |t| ensures s[k] == t[k] {
      assert s[..|t|][k] == s[k];
    }
  }

  lemma JoinedNext(base: Path, locations: seq<Path>, k: nat)
    requires k < |locations|
    ensures Joined(base, locations[..k + 1]) == Joined(base, locations[..k]) + [base + locations[k]]
  {
  }

  lemma UnderAppend(dir: Path, rest: Path)
    ensures IsUnder(dir + rest, dir)
  {
    assert (dir + rest)[..|dir|] == dir;
  }

  lemma UnderSameLength(p: Path, dir: Path)
    requires IsUnder(p, dir) && |p| <= |dir|
    ensures p == dir
  {
    assert p[..|dir|] == p;
  }

  /** A path whose parent lies under `dir` lies under `dir` itself. */
  lemma UnderParent(p: Path, dir: Path)
    requires p != [] && IsUnder(Parent(p), dir)
    ensures IsUnder(p, dir)
  {
    assert p[..|dir|] == Parent(p)[..|dir|];
  }

  /** Creating `dir + [x]` with parents adds exactly that one path to creating `dir`. */
  lemma PrefixesSnoc(dir: Path, x: string)
    ensures Prefixes(dir + [x]) == Prefixes(dir) + {dir + [x]}
  {
    var d := dir + [x];
    forall q | q in Prefixes(d) ensures q in Prefixes(dir) + {d} {
      var i :| 0 <= i <= |d| && q == d[..i];
      if i <= |dir| {
        assert d[..i] == dir[..i];
        assert dir[..i] in Prefixes(dir);
      } else {
        assert d[..i] == d;
      }
    }
    forall q | q in Prefixes(dir) + {d} ensures q in Prefixes(d) {
      if q == d {
        assert q == d[..|d|];
      } else {
        var i :| 0 <= i <= |dir| && q == dir[..i];
        assert q == d[..i];
      }
    }
  }

  /** The prefixes of a path are exactly the paths it lies under. */
  lemma PrefixesAreAncestors(q: Path, dir: Path)
    ensures q in Prefixes(dir) <==> IsUnder(dir, q)
  {
    if IsUnder(dir, q) {
      assert q == dir[..|q|];
    }
  }

  /** Extending a prefix of `s` by the next element gives the next prefix. */
  lemma TakeNext<T>(s: seq<T>, i: nat)
    requires i < |s|
    ensures s[..i + 1] == s[..i] + [s[i]]
  {
  }

  /** Everything in `s` without its last element, and that element, are in `s`. */
  lemma FrontMembers<T>(s: seq<T>)
    requires s != []
    ensures s[|s| - 1] in s
    ensures forall x :: x in s[..|s| - 1] ==> x in s
  {
    forall x | x in s[..|s| - 1] ensures x in s {
      var k :| 0 <= k < |s| - 1 && s[..|s| - 1][k] == x;
      assert s[k] == x;
    }
  }
}
