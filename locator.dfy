/**
 * Where the generator looks for its three inputs inside an unpacked image:
 * the candidate locations of `build.prop`, `recovery.fstab` and the init
 * scripts, the first-match search over a candidate list, and the collection
 * of init scripts from their directories.
 */
module Locator {
  import opened Paths
  import opened FileSystems

  /** The two partitions whose copies of a file are also looked for. */
  const PartitionDirs: seq<string> := ["system", "vendor"]

  /** `[Path() / dir / rel for dir in dirs]`. */
  function UnderEach(dirs: seq<string>, rel: Path): (r: seq<Path>)
    ensures |r| == |dirs|
    ensures forall i :: 0 <= i < |dirs| ==> r[i] == [dirs[i]] + rel
  {
    seq(|dirs|, i requires 0 <= i < |dirs| => [dirs[i]] + rel)
  }

  lemma UnderPartitions(rel: Path)
    ensures UnderEach(PartitionDirs, rel) == [["system"] + rel, ["vendor"] + rel]
  {
  }

  /** `BUILDPROP_LOCATIONS`, relative to the ramdisk root. */
  const BuildPropLocations: seq<Path> :=
    [["default.prop"], ["prop.default"]]
    + UnderEach(PartitionDirs, ["build.prop"])
    + UnderEach(PartitionDirs, ["etc", "build.prop"])

  lemma BuildPropLocationsInOrder()
    ensures BuildPropLocations == [["default.prop"], ["prop.default"], ["system", "build.prop"], ["vendor", "build.prop"],
                                   ["system", "etc", "build.prop"], ["vendor", "etc", "build.prop"]]
  {
    UnderPartitions(["build.prop"]);
    UnderPartitions(["etc", "build.prop"]);
    assert ["system"] + ["build.prop"] == ["system", "build.prop"];
    assert ["vendor"] + ["build.prop"] == ["vendor", "build.prop"];
    assert ["system"] + ["etc", "build.prop"] == ["system", "etc", "build.prop"];
    assert ["vendor"] + ["etc", "build.prop"] == ["vendor", "etc", "build.prop"];
  }

  /** The locations tried under every existing ancestor of the ramdisk, in order. */
  const ExtendedLocations: seq<Path> := [
    ["system", "system", "build.prop"],
    ["system", "build.prop"],
    ["vendor", "build.prop"],
    ["vendor_boot", "ramdisk", "default.prop"],
    ["vendor_boot", "ramdisk", "prop.default"],
    ["vendor_boot", "ramdisk", "build.prop"],
    ["vendor_boot", "ramdisk", "system", "build.prop"],
    ["vendor_boot", "ramdisk", "vendor", "build.prop"],
    ["system", "etc", "build.prop"],
    ["vendor", "etc", "build.prop"],
    ["product", "build.prop"],
    ["system_ext", "build.prop"],
    ["odm", "build.prop"],
    ["boot", "ramdisk", "default.prop"],
    ["boot", "ramdisk", "prop.default"],
    ["recovery", "ramdisk", "default.prop"],
    ["recovery", "ramdisk", "prop.default"]
  ]

  /** `FSTAB_LOCATIONS`, relative to the ramdisk root. */
  const FstabLocations: seq<Path> :=
    [["etc", "recovery.fstab"]] + UnderEach(PartitionDirs, ["etc", "recovery.fstab"])

  /** `INIT_RC_LOCATIONS`, relative to the ramdisk root: the root itself and two `etc/init` directories. */
  const InitRcLocations: seq<Path> :=
    [[]] + UnderEach(PartitionDirs, ["etc", "init"])

  /* ---------------- build.prop candidates ---------------- */

  /** The directories a full dump may sit in: the parent, grandparent and great-grandparent of the ramdisk root. */
  function DumpDirs(base: Path): seq<Path> {
    var dumpPath := Parent(base);
    [dumpPath, Parent(dumpPath), Parent(Parent(dumpPath))]
  }

  /** The extended locations of every directory in `dirs` that exists, directory by directory. */
  function ExtendedCandidates(fs: FileSystem, dirs: seq<Path>): seq<Path> {
    if dirs == [] then []
    else
      var last := dirs[|dirs| - 1];
      ExtendedCandidates(fs, dirs[..|dirs| - 1])
      + (if Exists(fs, last) then Joined(last, ExtendedLocations) else [])
  }

  /** How many of `dirs` exist. */
  function CountExisting(fs: FileSystem, dirs: seq<Path>): nat {
    if dirs == [] then 0
    else CountExisting(fs, dirs[..|dirs| - 1]) + (if Exists(fs, dirs[|dirs| - 1]) then 1 else 0)
  }

  /** Every `build.prop` location tried for ramdisk root `base`, in priority order. */
  function BuildPropCandidates(fs: FileSystem, base: Path): seq<Path> {
    Joined(base, BuildPropLocations) + ExtendedCandidates(fs, DumpDirs(base))
  }

  /** `get_extended_buildprop_locations(base_path)`. */
  method GetExtendedBuildPropLocations(fs: FileSystem, base: Path) returns (locations: seq<Path>)
    ensures locations == BuildPropCandidates(fs, base)
  {
    locations := [];
    for k := 0 to |BuildPropLocations|
      invariant locations == Joined(base, BuildPropLocations[..k])
    {
      JoinedNext(base, BuildPropLocations, k);
      locations := locations + [base + BuildPropLocations[k]];
    }
    assert BuildPropLocations[..|BuildPropLocations|] == BuildPropLocations;
    ghost var standard := locations;
    ghost var extended: seq<Path> := [];
    var dumpPath := Parent(base);
    var possibleDumpPaths := [dumpPath, Parent(dumpPath), Parent(Parent(dumpPath))];
    for k := 0 to |possibleDumpPaths|
      invariant extended == ExtendedCandidates(fs, possibleDumpPaths[..k])
      invariant locations == standard + extended
    {
      ExtendedCandidatesNext(fs, possibleDumpPaths, k);
      var dumpDir := possibleDumpPaths[k];
      if !Exists(fs, dumpDir) {
        continue;
      }
      var block := Joined(dumpDir, ExtendedLocations);
      AppendAssociative(standard, extended, block);
      locations := locations + block;
      extended := extended + block;
    }
    assert possibleDumpPaths[..3] == DumpDirs(base);
  }

  /** Regrouping a concatenation, stated generically so that the loop above need not unfold the locations. */
  lemma AppendAssociative<T>(a: seq<T>, b: seq<T>, c: seq<T>)
    ensures (a + b) + c == a + (b + c)
  {
  }

  lemma ExtendedCandidatesNext(fs: FileSystem, dirs: seq<Path>, k: nat)
    requires k < |dirs|
    ensures ExtendedCandidates(fs, dirs[..k + 1])
         == ExtendedCandidates(fs, dirs[..k]) + (if Exists(fs, dirs[k]) then Joined(dirs[k], ExtendedLocations) else [])
  {
    assert dirs[..k + 1][..k] == dirs[..k];
  }

  lemma {:induction false} ExtendedCandidatesLength(fs: FileSystem, dirs: seq<Path>)
    ensures |ExtendedCandidates(fs, dirs)| == 17 * CountExisting(fs, dirs)
    ensures CountExisting(fs, dirs) <= |dirs|
  {
    if dirs != [] {
      ExtendedCandidatesLength(fs, dirs[..|dirs| - 1]);
    }
  }

  /** Every extended candidate is one of the extended locations under one of `dirs` that exists. */
  lemma {:induction false} ExtendedCandidateOrigin(fs: FileSystem, dirs: seq<Path>, i: nat)
    requires i < |ExtendedCandidates(fs, dirs)|
    ensures exists j, k :: 0 <= j < |dirs| && 0 <= k < |ExtendedLocations|
                         && Exists(fs, dirs[j]) && ExtendedCandidates(fs, dirs)[i] == dirs[j] + ExtendedLocations[k]
  {
    var front := dirs[..|dirs| - 1];
    var last := dirs[|dirs| - 1];
    var e := ExtendedCandidates(fs, dirs);
    if i < |ExtendedCandidates(fs, front)| {
      ExtendedCandidateOrigin(fs, front, i);
      var j, k :| 0 <= j < |front| && 0 <= k < |ExtendedLocations|
                  && Exists(fs, front[j]) && ExtendedCandidates(fs, front)[i] == front[j] + ExtendedLocations[k];
      assert e[i] == dirs[j] + ExtendedLocations[k];
    } else {
      var k := i - |ExtendedCandidates(fs, front)|;
      assert Exists(fs, last) && e[i] == dirs[|dirs| - 1] + ExtendedLocations[k];
    }
  }

  /**
   * The candidate list has 6 + 17k entries, k being the number of the three
   * ancestors of `base` that exist; it opens with the six ramdisk-relative
   * locations, and every later entry is an extended location under an
   * ancestor that exists.
   */
  lemma BuildPropCandidatesShape(fs: FileSystem, base: Path)
    ensures |BuildPropCandidates(fs, base)| == 6 + 17 * CountExisting(fs, DumpDirs(base))
    ensures CountExisting(fs, DumpDirs(base)) <= 3
    ensures BuildPropCandidates(fs, base)[..6] ==
              [base + ["default.prop"], base + ["prop.default"],
               base + ["system", "build.prop"], base + ["vendor", "build.prop"],
               base + ["system", "etc", "build.prop"], base + ["vendor", "etc", "build.prop"]]
  {
    ExtendedCandidatesLength(fs, DumpDirs(base));
    BuildPropLocationsInOrder();
    JoinedSix(base, ["default.prop"], ["prop.default"], ["system", "build.prop"], ["vendor", "build.prop"],
              ["system", "etc", "build.prop"], ["vendor", "etc", "build.prop"]);
    assert BuildPropCandidates(fs, base)[..6] == Joined(base, BuildPropLocations);
  }

  lemma JoinedSix(base: Path, a: Path, b: Path, c: Path, d: Path, e: Path, f: Path)
    ensures Joined(base, [a, b, c, d, e, f]) == [base + a, base + b, base + c, base + d, base + e, base + f]
  {
  }

  /** Past the first six, every candidate is an extended location under an ancestor that exists. */
  lemma BuildPropCandidateOrigin(fs: FileSystem, base: Path, i: nat)
    requires 6 <= i < |BuildPropCandidates(fs, base)|
    ensures exists j, k :: 0 <= j < 3 && 0 <= k < |ExtendedLocations| && Exists(fs, DumpDirs(base)[j])
                           && BuildPropCandidates(fs, base)[i] == DumpDirs(base)[j] + ExtendedLocations[k]
  {
    var ext := ExtendedCandidates(fs, DumpDirs(base));
    assert BuildPropCandidates(fs, base)[i] == ext[i - 6];
    ExtendedCandidateOrigin(fs, DumpDirs(base), i - 6);
  }

  /* ---------------- first-match search ---------------- */

  /** The index of the first candidate that is a file, if any. */
  function FirstFileIndex(fs: FileSystem, candidates: seq<Path>): (r: Option<nat>)
    ensures r.Some? ==> r.value < |candidates| && IsFile(fs, candidates[r.value])
    ensures r.Some? ==> forall j :: 0 <= j < r.value ==> !IsFile(fs, candidates[j])
    ensures r.None? <==> forall j :: 0 <= j < |candidates| ==> !IsFile(fs, candidates[j])
  {
    if candidates == [] then None
    else if IsFile(fs, candidates[0]) then Some(0)
    else match FirstFileIndex(fs, candidates[1..])
      case None => None
      case Some(i) => Some(i + 1)
  }

  /** The loop `for location in candidates: if not location.is_file(): continue ... break`. */
  method FindFirstFile(fs: FileSystem, candidates: seq<Path>) returns (found: Option<nat>)
    ensures found == FirstFileIndex(fs, candidates)
  {
    found := None;
    for i := 0 to |candidates|
      invariant forall j :: 0 <= j < i ==> !IsFile(fs, candidates[j])
    {
      if !IsFile(fs, candidates[i]) {
        continue;
      }
      found := Some(i);
      break;
    }
  }

  /**
   * The search reads nothing but the candidates: two filesystems that agree
   * on which candidates are files give the same answer.
   */
  lemma {:induction false} FirstFileReadsOnlyCandidates(fs1: FileSystem, fs2: FileSystem, candidates: seq<Path>)
    requires forall j :: 0 <= j < |candidates| ==> (IsFile(fs1, candidates[j]) <==> IsFile(fs2, candidates[j]))
    ensures FirstFileIndex(fs1, candidates) == FirstFileIndex(fs2, candidates)
  {
    if candidates != [] && !IsFile(fs1, candidates[0]) {
      FirstFileReadsOnlyCandidates(fs1, fs2, candidates[1..]);
    }
  }

  /**
   * Priority: when candidates `j < k` are both files, the search never
   * returns `k`; it returns an index no later than `j`.
   */
  lemma FirstFileHasPriority(fs: FileSystem, candidates: seq<Path>, j: nat)
    requires j < |candidates| && IsFile(fs, candidates[j])
    ensures FirstFileIndex(fs, candidates).Some? && FirstFileIndex(fs, candidates).value <= j
  {
  }

  /* ---------------- recovery.fstab ---------------- */

  function FstabCandidates(ramdisk: Path): (r: seq<Path>)
    ensures r == [ramdisk + ["etc", "recovery.fstab"],
                  ramdisk + ["system", "etc", "recovery.fstab"],
                  ramdisk + ["vendor", "etc", "recovery.fstab"]]
  {
    UnderPartitions(["etc", "recovery.fstab"]);
    assert ["system"] + ["etc", "recovery.fstab"] == ["system", "etc", "recovery.fstab"];
    assert ["vendor"] + ["etc", "recovery.fstab"] == ["vendor", "etc", "recovery.fstab"];
    Joined(ramdisk, FstabLocations)
  }

  /* ---------------- init scripts ---------------- */

  predicate EndsWith(s: string, suffix: string) {
    |suffix| <= |s| && s[|s| - |suffix|..] == suffix
  }

  /** The filter of the init-script comprehension: `.rc` scripts other than `init.rc`. */
  predicate IsInitRcName(name: string) {
    EndsWith(name, ".rc") && name != "init.rc"
  }

  /** `[dir / name for name in names if name.endswith(".rc") and name != "init.rc"]`, order kept. */
  function RcEntries(dir: Path, names: seq<string>): seq<Path> {
    if names == [] then []
    else (if IsInitRcName(names[0]) then [dir + [names[0]]] else []) + RcEntries(dir, names[1..])
  }

  lemma {:induction false} RcEntriesMembership(dir: Path, names: seq<string>, p: Path)
    ensures p in RcEntries(dir, names) <==>
              |p| == |dir| + 1 && p[..|dir|] == dir && p[|dir|] in names && IsInitRcName(p[|dir|])
  {
    if names != [] {
      RcEntriesMembership(dir, names[1..], p);
      if p == dir + [names[0]] {
        assert p[..|dir|] == dir;
      }
      if |p| == |dir| + 1 && p[..|dir|] == dir && p[|dir|] == names[0] {
        assert p == dir + [names[0]];
      }
    }
  }

  /** The directories scanned for init scripts, in order. */
  function InitRcDirs(ramdisk: Path): (r: seq<Path>)
    ensures r == [ramdisk, ramdisk + ["system", "etc", "init"], ramdisk + ["vendor", "etc", "init"]]
  {
    UnderPartitions(["etc", "init"]);
    assert ["system"] + ["etc", "init"] == ["system", "etc", "init"];
    assert ["vendor"] + ["etc", "init"] == ["vendor", "etc", "init"];
    assert ramdisk + [] == ramdisk;
    Joined(ramdisk, InitRcLocations)
  }

  /** The scripts one directory contributes: none unless it is a directory. */
  function RcBlock(fs: FileSystem, dir: Path, listing: Path -> seq<string>): seq<Path> {
    if IsDir(fs, dir) then RcEntries(dir, listing(dir)) else []
  }

  /** The scripts of `dirs`, directory by directory. */
  function RcBlocks(fs: FileSystem, dirs: seq<Path>, listing: Path -> seq<string>): seq<Path> {
    if dirs == [] then []
    else RcBlocks(fs, dirs[..|dirs| - 1], listing) + RcBlock(fs, dirs[|dirs| - 1], listing)
  }

  lemma RcBlocksOfThree(fs: FileSystem, dirs: seq<Path>, listing: Path -> seq<string>)
    requires |dirs| == 3
    ensures RcBlocks(fs, dirs, listing) == RcBlock(fs, dirs[0], listing) + RcBlock(fs, dirs[1], listing) + RcBlock(fs, dirs[2], listing)
  {
    assert dirs[..2][..1] == dirs[..1];
    assert dirs[..1][..0] == [];
    assert RcBlocks(fs, dirs[..1], listing) == RcBlock(fs, dirs[0], listing);
    assert RcBlocks(fs, dirs[..2], listing) == RcBlock(fs, dirs[0], listing) + RcBlock(fs, dirs[1], listing);
  }

  /**
   * The init-script search of `DeviceTree.__init__`. `listing(d)` is what
   * `d.iterdir()` yields, in whatever order the platform gives it.
   */
  method CollectInitRcs(fs: FileSystem, ramdisk: Path, listing: Path -> seq<string>) returns (initRcs: seq<Path>)
    ensures initRcs == RcBlocks(fs, InitRcDirs(ramdisk), listing)
    ensures var dirs := InitRcDirs(ramdisk);
      initRcs == RcBlock(fs, dirs[0], listing) + RcBlock(fs, dirs[1], listing) + RcBlock(fs, dirs[2], listing)
  {
    var dirs := InitRcDirs(ramdisk);
    initRcs := [];
    for k := 0 to |dirs|
      invariant initRcs == RcBlocks(fs, dirs[..k], listing)
    {
      assert dirs[..k + 1][..k] == dirs[..k];
      var initRcPath := dirs[k];
      if !IsDir(fs, initRcPath) {
        continue;
      }
      initRcs := initRcs + RcEntries(initRcPath, listing(initRcPath));
    }
    assert dirs[..3] == dirs;
    RcBlocksOfThree(fs, dirs, listing);
  }

  /**
   * A path is collected exactly when it is an entry of one of the three
   * directories, that directory exists, and its name ends in `.rc` and is not
   * `init.rc`.
   */
  lemma InitRcsMembership(fs: FileSystem, ramdisk: Path, listing: Path -> seq<string>, p: Path)
    ensures p in RcBlocks(fs, InitRcDirs(ramdisk), listing) <==>
              exists k :: 0 <= k < 3 && var d := InitRcDirs(ramdisk)[k];
                IsDir(fs, d) && |p| == |d| + 1 && p[..|d|] == d && p[|d|] in listing(d) && IsInitRcName(p[|d|])
  {
    var dirs := InitRcDirs(ramdisk);
    RcBlocksOfThree(fs, dirs, listing);
    RcEntriesMembership(dirs[0], listing(dirs[0]), p);
    RcEntriesMembership(dirs[1], listing(dirs[1]), p);
    RcEntriesMembership(dirs[2], listing(dirs[2]), p);
  }

  /**
   * `listing` stands for `iterdir`: for every existing directory it names
   * exactly that directory's entries, files and directories alike.
   */
  ghost predicate ListsEntries(fs: FileSystem, listing: Path -> seq<string>)
  {
    forall d, n :: IsDir(fs, d) ==> (n in listing(d) <==> Exists(fs, d + [n]))
  }

  /**
   * With `listing` reading the filesystem, the collected scripts are exactly
   * the existing `*.rc` entries directly inside one of the three init
   * directories that exist.
   */
  lemma InitRcsExist(fs: FileSystem, ramdisk: Path, listing: Path -> seq<string>, p: Path)
    requires ListsEntries(fs, listing)
    ensures p in RcBlocks(fs, InitRcDirs(ramdisk), listing) <==>
              p != [] && Parent(p) in InitRcDirs(ramdisk) && IsDir(fs, Parent(p))
              && Exists(fs, p) && IsInitRcName(Name(p))
  {
    var dirs := InitRcDirs(ramdisk);
    InitRcsMembership(fs, ramdisk, listing, p);
    if p in RcBlocks(fs, dirs, listing) {
      var k :| 0 <= k < 3 && var d := dirs[k];
        IsDir(fs, d) && |p| == |d| + 1 && p[..|d|] == d && p[|d|] in listing(d) && IsInitRcName(p[|d|]);
      var d := dirs[k];
      assert Parent(p) == d;
      assert p == d + [p[|d|]];
    }
    if p != [] && Parent(p) in dirs && IsDir(fs, Parent(p)) && Exists(fs, p) && IsInitRcName(Name(p)) {
      var d := Parent(p);
      var k :| 0 <= k < 3 && dirs[k] == d;
      assert p == d + [p[|d|]];
      assert p[..|d|] == d;
      assert p[|d|] in listing(d);
    }
  }
}
