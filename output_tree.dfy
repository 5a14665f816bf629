/**
 * The directory `DeviceTree.dump_to_folder` leaves behind, stated as a
 * function of the filesystem before the call: everything under the device
 * folder is replaced by the files written in this run, and nothing else
 * changes except that the folder and its ancestors become directories.
 */
module OutputTree {
  import opened Paths
  import opened FileSystems
  import opened DeviceData

  const S_IRWXU: Mode := 0x1C0  // 0o700
  const S_IRGRP: Mode := 0x020  // 0o040
  const S_IROTH: Mode := 0x004  // 0o004

  /** The mode given to the two generated shell scripts. */
  const ScriptMode: Mode := S_IRWXU | S_IRGRP | S_IROTH

  /** `output_path / manufacturer / codename`. */
  function TreeFolder(output: Path, device: DeviceInfo): Path {
    output + [device.manufacturer, device.codename]
  }

  function PrebuiltDir(folder: Path): Path { folder + ["prebuilt"] }

  function RecoveryDir(folder: Path): Path { folder + ["recovery"] }

  function RecoveryRoot(folder: Path): Path { folder + ["recovery", "root"] }

  /** The file `omni_device.mk` is rendered to. */
  function OmniName(codename: string): string { "omni_" + codename + ".mk" }

  /** The output names of the ten rendered files. */
  function RenderedNames(codename: string): set<string> {
    {"Android.bp", "Android.mk", "AndroidProducts.mk", "BoardConfig.mk", "device.mk",
     "extract-files.sh", OmniName(codename), "README.md", "setup-makefiles.sh", "vendorsetup.sh"}
  }

  /**
   * The template engine with this tree's context bound: the text rendered
   * from a template name and the comment prefix of its licence header.
   */
  type Renderer = (string, string) -> Bytes

  /** Where the rendered files go: directly in the device folder. */
  function RenderedPaths(folder: Path, codename: string): set<Path> {
    set n | n in RenderedNames(codename) :: folder + [n]
  }

  /** The ten rendered files; `Android.bp` takes `//` comments, the rest `#`. */
  function RenderedFiles(folder: Path, codename: string, render: Renderer): map<Path, Bytes> {
    map[
      folder + ["Android.bp"] := render("Android.bp", "//"),
      folder + ["Android.mk"] := render("Android.mk", "#"),
      folder + ["AndroidProducts.mk"] := render("AndroidProducts.mk", "#"),
      folder + ["BoardConfig.mk"] := render("BoardConfig.mk", "#"),
      folder + ["device.mk"] := render("device.mk", "#"),
      folder + ["extract-files.sh"] := render("extract-files.sh", "#"),
      folder + [OmniName(codename)] := render("omni_device.mk", "#"),
      folder + ["README.md"] := render("README.md", "#"),
      folder + ["setup-makefiles.sh"] := render("setup-makefiles.sh", "#"),
      folder + ["vendorsetup.sh"] := render("vendorsetup.sh", "#")
    ]
  }

  /** `if src is not None: copyfile(src, dst)`, on a map of written files. */
  function WithCopy(m: map<Path, Bytes>, src: Option<Path>, dst: Path, files: map<Path, Bytes>): map<Path, Bytes>
    requires src.Some? ==> src.value in files
  {
    if src.Some? then m[dst := files[src.value]] else m
  }

  /** The four optional copies into `prebuilt`, in the order they are made. */
  function PrebuiltCopies(m: map<Path, Bytes>, folder: Path, image: ImageInfo, files: map<Path, Bytes>): map<Path, Bytes>
    requires forall src :: src in [image.kernel, image.dt, image.dtb, image.dtbo] && src.Some? ==> src.value in files
  {
    var prebuilt := PrebuiltDir(folder);
    var withKernel := WithCopy(m, image.kernel, prebuilt + ["kernel"], files);
    var withDt := WithCopy(withKernel, image.dt, prebuilt + ["dt.img"], files);
    var withDtb := WithCopy(withDt, image.dtb, prebuilt + ["dtb.img"], files);
    WithCopy(withDtb, image.dtbo, prebuilt + ["dtbo.img"], files)
  }

  /** Copying each init script into `root` by its name, in order: a later script of the same name wins. */
  function CopyRcs(m: map<Path, Bytes>, root: Path, rcs: seq<Path>, files: map<Path, Bytes>): map<Path, Bytes>
    requires forall r :: r in rcs ==> r in files && r != []
  {
    if rcs == [] then m
    else
      var front, last := rcs[..|rcs| - 1], rcs[|rcs| - 1];
      FrontMembers(rcs);
      CopyRcs(m, root, front, files)[root + [Name(last)] := files[last]]
  }

  predicate SourceOk(fs: FileSystem, src: Option<Path>, folder: Path) {
    src.Some? ==> src.value in fs.files && !IsUnder(src.value, folder)
  }

  /**
   * What the dump needs in order not to fail: a well-formed filesystem, no
   * file where the folder or one of its ancestors must be, and every copied
   * source an existing file outside the folder that is about to be removed.
   */
  predicate DumpPre(fs: FileSystem, folder: Path, image: ImageInfo, rcs: seq<Path>) {
    && WellFormed(fs)
    && folder != []
    && (forall i :: 0 <= i <= |folder| ==> folder[..i] !in fs.files)
    && SourceOk(fs, image.kernel, folder)
    && SourceOk(fs, image.dt, folder)
    && SourceOk(fs, image.dtb, folder)
    && SourceOk(fs, image.dtbo, folder)
    && (forall r :: r in rcs ==> r in fs.files && !IsUnder(r, folder))
  }

  /** Every file the dump copies exists. */
  predicate SourcesPresent(fs: FileSystem, image: ImageInfo, rcs: seq<Path>) {
    && (forall src :: src in [image.kernel, image.dt, image.dtb, image.dtbo] && src.Some? ==> src.value in fs.files)
    && (forall r :: r in rcs ==> r in fs.files && r != [])
  }

  lemma PreHasSources(fs: FileSystem, folder: Path, image: ImageInfo, rcs: seq<Path>)
    requires DumpPre(fs, folder, image, rcs)
    ensures SourcesPresent(fs, image, rcs)
  {
  }

  /** The files written under `folder`, in the order `dump_to_folder` writes them. */
  function OutputFiles(fs: FileSystem, folder: Path, codename: string, image: ImageInfo, fstabText: Bytes,
                       rcs: seq<Path>, render: Renderer): map<Path, Bytes>
    requires SourcesPresent(fs, image, rcs)
  {
    var rendered := RenderedFiles(folder, codename, render);
    var withPrebuilt := PrebuiltCopies(rendered, folder, image, fs.files);
    CopyRcs(withPrebuilt[folder + ["recovery.fstab"] := fstabText], RecoveryRoot(folder), rcs, fs.files)
  }

  /** The directories the dump creates: the folder with its ancestors, `prebuilt`, `recovery` and `recovery/root`. */
  function CreatedDirs(folder: Path): set<Path> {
    Prefixes(folder) + {PrebuiltDir(folder), RecoveryDir(folder), RecoveryRoot(folder)}
  }

  function ScriptModes(folder: Path): map<Path, Mode> {
    map[folder + ["extract-files.sh"] := ScriptMode, folder + ["setup-makefiles.sh"] := ScriptMode]
  }

  /**
   * `fs` with everything under `folder` removed, the folder's ancestors and
   * sub-folders created, `out` written and the two scripts made executable.
   */
  function Replaced(fs: FileSystem, folder: Path, out: map<Path, Bytes>): FileSystem {
    FileSystem(
      Outside(fs.files, folder) + out,
      OutsideSet(fs.dirs, folder) + CreatedDirs(folder),
      Outside(fs.modes, folder) + ScriptModes(folder))
  }

  /** The filesystem after `dump_to_folder`. */
  function Dumped(fs: FileSystem, folder: Path, codename: string, image: ImageInfo, fstabText: Bytes,
                  rcs: seq<Path>, render: Renderer): FileSystem
    requires SourcesPresent(fs, image, rcs)
  {
    Replaced(fs, folder, OutputFiles(fs, folder, codename, image, fstabText, rcs, render))
  }

  /* ---------------- the file set, stated independently ---------------- */

  function PrebuiltPaths(folder: Path, image: ImageInfo): set<Path> {
    var prebuilt := PrebuiltDir(folder);
    (if image.kernel.Some? then {prebuilt + ["kernel"]} else {})
    + (if image.dt.Some? then {prebuilt + ["dt.img"]} else {})
    + (if image.dtb.Some? then {prebuilt + ["dtb.img"]} else {})
    + (if image.dtbo.Some? then {prebuilt + ["dtbo.img"]} else {})
  }

  function RcTargets(root: Path, rcs: seq<Path>): set<Path> {
    set r | r in rcs && r != [] :: root + [Name(r)]
  }

  /** Every path the dump writes a file to. */
  function ExpectedPaths(folder: Path, codename: string, image: ImageInfo, rcs: seq<Path>): set<Path> {
    RenderedPaths(folder, codename)
    + {folder + ["recovery.fstab"]}
    + PrebuiltPaths(folder, image)
    + RcTargets(RecoveryRoot(folder), rcs)
  }

  lemma {:induction false} CopyRcsKeys(m: map<Path, Bytes>, root: Path, rcs: seq<Path>, files: map<Path, Bytes>)
    requires forall r :: r in rcs ==> r in files && r != []
    ensures CopyRcs(m, root, rcs, files).Keys == m.Keys + RcTargets(root, rcs)
  {
    if rcs != [] {
      var front := rcs[..|rcs| - 1];
      var last := rcs[|rcs| - 1];
      FrontMembers(rcs);
      CopyRcsKeys(m, root, front, files);
      assert rcs == front + [last];
      assert RcTargets(root, rcs) == RcTargets(root, front) + {root + [Name(last)]};
    }
  }

  /** Copying init scripts touches nothing outside `root`'s direct entries named after them. */
  lemma {:induction false} CopyRcsElsewhere(m: map<Path, Bytes>, root: Path, rcs: seq<Path>, files: map<Path, Bytes>, p: Path)
    requires forall r :: r in rcs ==> r in files && r != []
    requires p !in RcTargets(root, rcs)
    ensures p in CopyRcs(m, root, rcs, files) <==> p in m
    ensures p in m ==> CopyRcs(m, root, rcs, files)[p] == m[p]
  {
    if rcs != [] {
      var front := rcs[..|rcs| - 1];
      var last := rcs[|rcs| - 1];
      FrontMembers(rcs);
      assert root + [Name(last)] in RcTargets(root, rcs);
      assert RcTargets(root, front) <= RcTargets(root, rcs);
      CopyRcsElsewhere(m, root, front, files, p);
    }
  }

  lemma RenderedKeys(folder: Path, codename: string, render: Renderer)
    ensures RenderedFiles(folder, codename, render).Keys == RenderedPaths(folder, codename)
  {
  }

  lemma RenderedDepth(folder: Path, codename: string, render: Renderer)
    ensures forall k :: k in RenderedFiles(folder, codename, render) ==> |k| == |folder| + 1
  {
    RenderedKeys(folder, codename, render);
  }

  lemma PrebuiltCopiesKeys(m: map<Path, Bytes>, folder: Path, image: ImageInfo, files: map<Path, Bytes>)
    requires forall src :: src in [image.kernel, image.dt, image.dtb, image.dtbo] && src.Some? ==> src.value in files
    ensures PrebuiltCopies(m, folder, image, files).Keys == m.Keys + PrebuiltPaths(folder, image)
  {
  }

  /** The shape of an init-script target: a direct entry of `recovery/root`. */
  lemma RcTargetShape(folder: Path, rcs: seq<Path>, p: Path)
    requires p in RcTargets(RecoveryRoot(folder), rcs)
    ensures |p| == |folder| + 3 && Parent(p) == RecoveryRoot(folder) && IsUnder(p, folder)
  {
    var r :| r in rcs && r != [] && p == RecoveryRoot(folder) + [Name(r)];
    assert p == folder + ["recovery", "root", Name(r)];
    UnderAppend(folder, ["recovery", "root", Name(r)]);
  }

  /** The shape of a prebuilt copy: a direct entry of `prebuilt`. */
  lemma PrebuiltShape(folder: Path, image: ImageInfo, p: Path)
    requires p in PrebuiltPaths(folder, image)
    ensures |p| == |folder| + 2 && Parent(p) == PrebuiltDir(folder) && IsUnder(p, folder) && p[|folder|] == "prebuilt"
  {
    var x :| x in ["kernel", "dt.img", "dtb.img", "dtbo.img"] && p == PrebuiltDir(folder) + [x];
    assert p == folder + ["prebuilt", x];
    UnderAppend(folder, ["prebuilt", x]);
  }

  /** The shape of a rendered file or `recovery.fstab`: a direct entry of `folder`. */
  lemma TopLevelShape(folder: Path, codename: string, p: Path)
    requires p in RenderedPaths(folder, codename) + {folder + ["recovery.fstab"]}
    ensures |p| == |folder| + 1 && Parent(p) == folder && IsUnder(p, folder)
    ensures p[|folder|] != "prebuilt" && p[|folder|] != "recovery"
  {
    var n :| n in RenderedNames(codename) + {"recovery.fstab"} && p == folder + [n];
    UnderAppend(folder, [n]);
    RenderedNameIsPlain(codename, n);
    assert p[|folder|] == n;
  }

  /** Everything the dump writes lies under `folder`. */
  lemma ExpectedUnderFolder(folder: Path, codename: string, image: ImageInfo, rcs: seq<Path>, p: Path)
    requires p in ExpectedPaths(folder, codename, image, rcs)
    ensures IsUnder(p, folder)
  {
    if p in RcTargets(RecoveryRoot(folder), rcs) {
      RcTargetShape(folder, rcs, p);
    } else if p in PrebuiltPaths(folder, image) {
      PrebuiltShape(folder, image, p);
    } else {
      TopLevelShape(folder, codename, p);
    }
  }

  /** The files written are exactly the expected ones. */
  lemma OutputFilesKeys(fs: FileSystem, folder: Path, codename: string, image: ImageInfo, fstabText: Bytes,
                        rcs: seq<Path>, render: Renderer)
    requires SourcesPresent(fs, image, rcs)
    ensures OutputFiles(fs, folder, codename, image, fstabText, rcs, render).Keys == ExpectedPaths(folder, codename, image, rcs)
  {
    var rendered := RenderedFiles(folder, codename, render);
    var withPrebuilt := PrebuiltCopies(rendered, folder, image, fs.files);
    RenderedKeys(folder, codename, render);
    PrebuiltCopiesKeys(rendered, folder, image, fs.files);
    CopyRcsKeys(withPrebuilt[folder + ["recovery.fstab"] := fstabText], RecoveryRoot(folder), rcs, fs.files);
  }

  /** The created directories under `folder` are the folder itself and its three subdirectories. */
  lemma NotCreated(folder: Path, q: Path)
    requires IsUnder(q, folder) && |q| > |folder|
    requires q != PrebuiltDir(folder) && q != RecoveryDir(folder) && q != RecoveryRoot(folder)
    ensures q !in CreatedDirs(folder)
  {
    PrefixesAreAncestors(q, folder);
  }

  lemma RenderedNameIsPlain(codename: string, n: string)
    requires n in RenderedNames(codename) + {"recovery.fstab"}
    ensures n != "prebuilt" && n != "recovery"
  {
    if n == OmniName(codename) {
      assert n[0] == 'o';
    }
  }

  /** Every written file sits directly in one of the created directories and is not itself one of them. */
  lemma ExpectedInCreatedDirs(folder: Path, codename: string, image: ImageInfo, rcs: seq<Path>, p: Path)
    requires p in ExpectedPaths(folder, codename, image, rcs)
    ensures p != [] && Parent(p) in CreatedDirs(folder) && p !in CreatedDirs(folder)
  {
    if p in RcTargets(RecoveryRoot(folder), rcs) {
      RcTargetShape(folder, rcs, p);
      NotCreated(folder, p);
    } else if p in PrebuiltPaths(folder, image) {
      PrebuiltShape(folder, image, p);
      assert RecoveryRoot(folder)[|folder|] == "recovery";
      NotCreated(folder, p);
    } else {
      TopLevelShape(folder, codename, p);
      assert folder in Prefixes(folder) by { assert folder == folder[..|folder|]; }
      NotCreated(folder, p);
    }
  }

  /** A file kept from before is untouched by the directories the dump creates. */
  lemma KeptFileStillFits(fs: FileSystem, folder: Path, p: Path)
    requires WellFormed(fs) && forall i :: 0 <= i <= |folder| ==> folder[..i] !in fs.files
    requires p in fs.files && !IsUnder(p, folder)
    ensures p !in CreatedDirs(folder) && Parent(p) in OutsideSet(fs.dirs, folder)
  {
    if IsUnder(Parent(p), folder) {
      UnderParent(p, folder);
    }
    assert PrebuiltDir(folder)[..|folder|] == folder;
    assert RecoveryDir(folder)[..|folder|] == folder;
    assert RecoveryRoot(folder)[..|folder|] == folder;
  }

  /** Every created or kept directory other than the root sits in another one. */
  lemma DirsClosedUnderParent(fs: FileSystem, folder: Path, q: Path)
    requires WellFormed(fs)
    requires q in OutsideSet(fs.dirs, folder) + CreatedDirs(folder) && q != []
    ensures Parent(q) in OutsideSet(fs.dirs, folder) + CreatedDirs(folder)
  {
    if q in OutsideSet(fs.dirs, folder) {
      if IsUnder(Parent(q), folder) {
        UnderParent(q, folder);
      }
    } else if q in Prefixes(folder) {
      var i :| 0 <= i <= |folder| && q == folder[..i];
      assert Parent(q) == folder[..i - 1];
    } else {
      assert folder == folder[..|folder|];
      assert Parent(RecoveryRoot(folder)) == RecoveryDir(folder);
      assert Parent(RecoveryDir(folder)) == folder && Parent(PrebuiltDir(folder)) == folder;
    }
  }

  /** Replacing the folder by files that sit in the created directories keeps the filesystem a tree. */
  lemma ReplacedWellFormed(fs: FileSystem, folder: Path, out: map<Path, Bytes>)
    requires WellFormed(fs) && folder != []
    requires forall i :: 0 <= i <= |folder| ==> folder[..i] !in fs.files
    requires forall p :: p in out ==> IsUnder(p, folder) && p != [] && Parent(p) in CreatedDirs(folder) && p !in CreatedDirs(folder)
    requires ScriptModes(folder).Keys <= out.Keys
    ensures WellFormed(FileSystem(Outside(fs.files, folder) + out, OutsideSet(fs.dirs, folder) + CreatedDirs(folder),
                                  Outside(fs.modes, folder) + ScriptModes(folder)))
  {
    var files := Outside(fs.files, folder) + out;
    var dirs := OutsideSet(fs.dirs, folder) + CreatedDirs(folder);
    assert [] == folder[..0];
    forall p | p in files ensures p != [] && p !in dirs && Parent(p) in dirs {
      if p !in out {
        KeptFileStillFits(fs, folder, p);
      }
    }
    forall q | q in dirs && q != [] ensures Parent(q) in dirs {
      DirsClosedUnderParent(fs, folder, q);
    }
  }

  /** After the dump the filesystem is still a tree. */
  lemma DumpedWellFormed(fs: FileSystem, folder: Path, codename: string, image: ImageInfo, fstabText: Bytes,
                         rcs: seq<Path>, render: Renderer)
    requires DumpPre(fs, folder, image, rcs)
    ensures WellFormed(Dumped(fs, folder, codename, image, fstabText, rcs, render))
  {
    var out := OutputFiles(fs, folder, codename, image, fstabText, rcs, render);
    OutputFilesKeys(fs, folder, codename, image, fstabText, rcs, render);
    forall p | p in out ensures IsUnder(p, folder) && p != [] && Parent(p) in CreatedDirs(folder) && p !in CreatedDirs(folder) {
      ExpectedInCreatedDirs(folder, codename, image, rcs, p);
      ExpectedUnderFolder(folder, codename, image, rcs, p);
    }
    ReplacedWellFormed(fs, folder, out);
  }

  /**
   * Nothing from before survives under `folder`: a path there holds a file
   * exactly when this run wrote one to it. Outside `folder` every file is
   * left as it was.
   */
  lemma DumpReplacesFolder(fs: FileSystem, folder: Path, codename: string, image: ImageInfo, fstabText: Bytes,
                           rcs: seq<Path>, render: Renderer)
    requires SourcesPresent(fs, image, rcs)
    ensures forall p :: IsUnder(p, folder) ==>
              (p in Dumped(fs, folder, codename, image, fstabText, rcs, render).files <==> p in ExpectedPaths(folder, codename, image, rcs))
    ensures forall p :: !IsUnder(p, folder) ==>
              (p in Dumped(fs, folder, codename, image, fstabText, rcs, render).files <==> p in fs.files)
    ensures forall p :: !IsUnder(p, folder) && p in fs.files ==>
              Dumped(fs, folder, codename, image, fstabText, rcs, render).files[p] == fs.files[p]
  {
    OutputFilesKeys(fs, folder, codename, image, fstabText, rcs, render);
    forall p | p in ExpectedPaths(folder, codename, image, rcs) ensures IsUnder(p, folder) {
      ExpectedUnderFolder(folder, codename, image, rcs, p);
    }
  }

  /* ---------------- prebuilt images ---------------- */

  /** `dst` holds a copy of `src` exactly when `src` is present. */
  predicate CopiedIfPresent(after: map<Path, Bytes>, before: map<Path, Bytes>, src: Option<Path>, dst: Path) {
    && (dst in after <==> src.Some?)
    && (src.Some? ==> dst in after && src.value in before && after[dst] == before[src.value])
  }

  lemma PrebuiltCopiesMatch(m: map<Path, Bytes>, folder: Path, image: ImageInfo, files: map<Path, Bytes>)
    requires forall src :: src in [image.kernel, image.dt, image.dtb, image.dtbo] && src.Some? ==> src.value in files
    requires forall k :: k in m ==> |k| != |folder| + 2
    ensures CopiedIfPresent(PrebuiltCopies(m, folder, image, files), files, image.kernel, PrebuiltDir(folder) + ["kernel"])
    ensures CopiedIfPresent(PrebuiltCopies(m, folder, image, files), files, image.dt, PrebuiltDir(folder) + ["dt.img"])
    ensures CopiedIfPresent(PrebuiltCopies(m, folder, image, files), files, image.dtb, PrebuiltDir(folder) + ["dtb.img"])
    ensures CopiedIfPresent(PrebuiltCopies(m, folder, image, files), files, image.dtbo, PrebuiltDir(folder) + ["dtbo.img"])
  {
    var prebuilt := PrebuiltDir(folder);
    var kernel, dt, dtb, dtbo := prebuilt + ["kernel"], prebuilt + ["dt.img"], prebuilt + ["dtb.img"], prebuilt + ["dtbo.img"];
    assert kernel[|prebuilt|] == "kernel" && dt[|prebuilt|] == "dt.img";
    assert dtb[|prebuilt|] == "dtb.img" && dtbo[|prebuilt|] == "dtbo.img";
    assert kernel !in m && dt !in m && dtb !in m && dtbo !in m;
    var withKernel := WithCopy(m, image.kernel, kernel, files);
    var withDt := WithCopy(withKernel, image.dt, dt, files);
    var withDtb := WithCopy(withDt, image.dtb, dtb, files);
    assert PrebuiltCopies(m, folder, image, files) == WithCopy(withDtb, image.dtbo, dtbo, files);
  }

  /** A prebuilt copy made before the fstab and the init scripts survives into the dumped filesystem. */
  lemma DumpedPrebuiltAt(fs: FileSystem, folder: Path, codename: string, image: ImageInfo, fstabText: Bytes,
                         rcs: seq<Path>, render: Renderer, src: Option<Path>, name: string)
    requires SourcesPresent(fs, image, rcs)
    requires CopiedIfPresent(PrebuiltCopies(RenderedFiles(folder, codename, render), folder, image, fs.files), fs.files, src, PrebuiltDir(folder) + [name])
    ensures CopiedIfPresent(Dumped(fs, folder, codename, image, fstabText, rcs, render).files, fs.files, src, PrebuiltDir(folder) + [name])
  {
    var dst := PrebuiltDir(folder) + [name];
    var withPrebuilt := PrebuiltCopies(RenderedFiles(folder, codename, render), folder, image, fs.files);
    var withFstab := withPrebuilt[folder + ["recovery.fstab"] := fstabText];
    assert |dst| == |folder| + 2;
    assert dst !in RcTargets(RecoveryRoot(folder), rcs);
    CopyRcsElsewhere(withFstab, RecoveryRoot(folder), rcs, fs.files, dst);
    assert dst == folder + ["prebuilt", name];
    UnderAppend(folder, ["prebuilt", name]);
  }

  /**
   * `prebuilt/kernel`, `dt.img`, `dtb.img` and `dtbo.img` exist after the
   * dump exactly when the image has that artifact, and then hold its bytes;
   * a missing artifact is skipped, not an error.
   */
  lemma DumpedPrebuilt(fs: FileSystem, folder: Path, codename: string, image: ImageInfo, fstabText: Bytes,
                       rcs: seq<Path>, render: Renderer)
    requires SourcesPresent(fs, image, rcs)
    ensures CopiedIfPresent(Dumped(fs, folder, codename, image, fstabText, rcs, render).files, fs.files, image.kernel, PrebuiltDir(folder) + ["kernel"])
    ensures CopiedIfPresent(Dumped(fs, folder, codename, image, fstabText, rcs, render).files, fs.files, image.dt, PrebuiltDir(folder) + ["dt.img"])
    ensures CopiedIfPresent(Dumped(fs, folder, codename, image, fstabText, rcs, render).files, fs.files, image.dtb, PrebuiltDir(folder) + ["dtb.img"])
    ensures CopiedIfPresent(Dumped(fs, folder, codename, image, fstabText, rcs, render).files, fs.files, image.dtbo, PrebuiltDir(folder) + ["dtbo.img"])
  {
    RenderedDepth(folder, codename, render);
    PrebuiltCopiesMatch(RenderedFiles(folder, codename, render), folder, image, fs.files);
    DumpedPrebuiltAt(fs, folder, codename, image, fstabText, rcs, render, image.kernel, "kernel");
    DumpedPrebuiltAt(fs, folder, codename, image, fstabText, rcs, render, image.dt, "dt.img");
    DumpedPrebuiltAt(fs, folder, codename, image, fstabText, rcs, render, image.dtb, "dtb.img");
    DumpedPrebuiltAt(fs, folder, codename, image, fstabText, rcs, render, image.dtbo, "dtbo.img");
  }

  /* ---------------- rendered files and recovery.fstab ---------------- */

  /** The prebuilt copies touch only direct entries of `prebuilt`, which are two levels below `folder`. */
  lemma PrebuiltCopiesElsewhere(m: map<Path, Bytes>, folder: Path, image: ImageInfo, files: map<Path, Bytes>, p: Path)
    requires forall src :: src in [image.kernel, image.dt, image.dtb, image.dtbo] && src.Some? ==> src.value in files
    requires |p| != |folder| + 2
    ensures p in PrebuiltCopies(m, folder, image, files) <==> p in m
    ensures p in m ==> PrebuiltCopies(m, folder, image, files)[p] == m[p]
  {
    PrebuiltCopiesKeys(m, folder, image, files);
    forall q | q in PrebuiltPaths(folder, image) ensures q != p {
      PrebuiltShape(folder, image, q);
    }
  }

  lemma FstabNotRendered(codename: string)
    ensures "recovery.fstab" !in RenderedNames(codename)
  {
    assert OmniName(codename)[0] == 'o';
  }

  /** After the whole dump, `recovery.fstab` in the folder holds the formatted fstab. */
  lemma DumpedFstab(fs: FileSystem, folder: Path, codename: string, image: ImageInfo, fstabText: Bytes,
                    rcs: seq<Path>, render: Renderer)
    requires SourcesPresent(fs, image, rcs)
    ensures folder + ["recovery.fstab"] in Dumped(fs, folder, codename, image, fstabText, rcs, render).files
    ensures Dumped(fs, folder, codename, image, fstabText, rcs, render).files[folder + ["recovery.fstab"]] == fstabText
  {
    var dst := folder + ["recovery.fstab"];
    var withPrebuilt := PrebuiltCopies(RenderedFiles(folder, codename, render), folder, image, fs.files);
    var withFstab := withPrebuilt[dst := fstabText];
    assert dst !in RcTargets(RecoveryRoot(folder), rcs) by {
      if dst in RcTargets(RecoveryRoot(folder), rcs) {
        RcTargetShape(folder, rcs, dst);
      }
    }
    CopyRcsElsewhere(withFstab, RecoveryRoot(folder), rcs, fs.files, dst);
    UnderAppend(folder, ["recovery.fstab"]);
  }

  /**
   * After the whole dump, each of the ten rendered files holds what its
   * template rendered to: later copies never overwrite one.
   */
  lemma DumpedRendered(fs: FileSystem, folder: Path, codename: string, image: ImageInfo, fstabText: Bytes,
                       rcs: seq<Path>, render: Renderer)
    requires SourcesPresent(fs, image, rcs)
    ensures forall p :: p in RenderedFiles(folder, codename, render) ==>
              p in Dumped(fs, folder, codename, image, fstabText, rcs, render).files
              && Dumped(fs, folder, codename, image, fstabText, rcs, render).files[p] == RenderedFiles(folder, codename, render)[p]
  {
    var rendered := RenderedFiles(folder, codename, render);
    var withPrebuilt := PrebuiltCopies(rendered, folder, image, fs.files);
    var withFstab := withPrebuilt[folder + ["recovery.fstab"] := fstabText];
    var out := OutputFiles(fs, folder, codename, image, fstabText, rcs, render);
    RenderedKeys(folder, codename, render);
    FstabNotRendered(codename);
    forall p | p in rendered ensures p in out && out[p] == rendered[p] && IsUnder(p, folder) {
      var n :| n in RenderedNames(codename) && p == folder + [n];
      UnderAppend(folder, [n]);
      PrebuiltCopiesElsewhere(rendered, folder, image, fs.files, p);
      assert p != folder + ["recovery.fstab"] by {
        assert p[|folder|] == n;
      }
      assert p !in RcTargets(RecoveryRoot(folder), rcs) by {
        if p in RcTargets(RecoveryRoot(folder), rcs) {
          RcTargetShape(folder, rcs, p);
        }
      }
      CopyRcsElsewhere(withFstab, RecoveryRoot(folder), rcs, fs.files, p);
    }
    assert Dumped(fs, folder, codename, image, fstabText, rcs, render).files == Outside(fs.files, folder) + out;
  }

  /* ---------------- init scripts ---------------- */

  /** No script after position `i` has the same file name as the one at `i`. */
  predicate LastOfItsName(rcs: seq<Path>, i: nat)
    requires i < |rcs|
  {
    forall j :: i < j < |rcs| && rcs[j] != [] && rcs[i] != [] ==> Name(rcs[j]) != Name(rcs[i])
  }

  lemma {:induction false} CopyRcsLastWins(m: map<Path, Bytes>, root: Path, rcs: seq<Path>, files: map<Path, Bytes>, i: nat)
    requires forall r :: r in rcs ==> r in files && r != []
    requires i < |rcs| && LastOfItsName(rcs, i)
    ensures rcs[i] in files && rcs[i] != []
    ensures root + [Name(rcs[i])] in CopyRcs(m, root, rcs, files)
    ensures CopyRcs(m, root, rcs, files)[root + [Name(rcs[i])]] == files[rcs[i]]
  {
    assert rcs[i] in rcs;
    var front, last := rcs[..|rcs| - 1], rcs[|rcs| - 1];
    assert last in rcs;
    if i < |rcs| - 1 {
      FrontMembers(rcs);
      assert Name(last) != Name(rcs[i]);
      assert (root + [Name(last)])[|root|] != (root + [Name(rcs[i])])[|root|];
      assert LastOfItsName(front, i);
      CopyRcsLastWins(m, root, front, files, i);
    }
  }

  /**
   * Each init script ends up in `recovery/root` under its own name; when two
   * scripts share a name, the one listed last wins.
   */
  lemma DumpedInitRc(fs: FileSystem, folder: Path, codename: string, image: ImageInfo, fstabText: Bytes,
                     rcs: seq<Path>, render: Renderer, i: nat)
    requires SourcesPresent(fs, image, rcs)
    requires i < |rcs| && LastOfItsName(rcs, i)
    ensures rcs[i] in fs.files && rcs[i] != []
    ensures RecoveryRoot(folder) + [Name(rcs[i])] in Dumped(fs, folder, codename, image, fstabText, rcs, render).files
    ensures Dumped(fs, folder, codename, image, fstabText, rcs, render).files[RecoveryRoot(folder) + [Name(rcs[i])]] == fs.files[rcs[i]]
  {
    var withPrebuilt := PrebuiltCopies(RenderedFiles(folder, codename, render), folder, image, fs.files);
    var withFstab := withPrebuilt[folder + ["recovery.fstab"] := fstabText];
    assert forall r :: r in rcs ==> r in fs.files && r != [] by {
      forall r | r in rcs ensures r != [] { }
    }
    CopyRcsLastWins(withFstab, RecoveryRoot(folder), rcs, fs.files, i);
  }

  /* ---------------- modes ---------------- */

  /**
   * Under `folder` only `extract-files.sh` and `setup-makefiles.sh` carry an
   * explicit mode, and it is 0o744 (`S_IRWXU | S_IRGRP | S_IROTH`); no mode
   * outside `folder` changes.
   */
  lemma DumpedModes(fs: FileSystem, folder: Path, codename: string, image: ImageInfo, fstabText: Bytes,
                    rcs: seq<Path>, render: Renderer)
    requires SourcesPresent(fs, image, rcs)
    ensures forall p :: IsUnder(p, folder) ==>
              (p in Dumped(fs, folder, codename, image, fstabText, rcs, render).modes <==>
               (p == folder + ["extract-files.sh"] || p == folder + ["setup-makefiles.sh"]))
    ensures Dumped(fs, folder, codename, image, fstabText, rcs, render).modes[folder + ["extract-files.sh"]] == 0x1E4
    ensures Dumped(fs, folder, codename, image, fstabText, rcs, render).modes[folder + ["setup-makefiles.sh"]] == 0x1E4
    ensures forall p :: !IsUnder(p, folder) ==>
              (p in Dumped(fs, folder, codename, image, fstabText, rcs, render).modes <==> p in fs.modes)
    ensures forall p :: !IsUnder(p, folder) && p in fs.modes ==>
              Dumped(fs, folder, codename, image, fstabText, rcs, render).modes[p] == fs.modes[p]
  {
    ScriptModesOnly(fs.modes, folder);
    assert Dumped(fs, folder, codename, image, fstabText, rcs, render).modes == Outside(fs.modes, folder) + ScriptModes(folder);
  }

  lemma ScriptModesOnly(modes: map<Path, Mode>, folder: Path)
    ensures forall p :: IsUnder(p, folder) ==>
              (p in Outside(modes, folder) + ScriptModes(folder) <==>
               (p == folder + ["extract-files.sh"] || p == folder + ["setup-makefiles.sh"]))
    ensures (Outside(modes, folder) + ScriptModes(folder))[folder + ["extract-files.sh"]] == 0x1E4
    ensures (Outside(modes, folder) + ScriptModes(folder))[folder + ["setup-makefiles.sh"]] == 0x1E4
    ensures forall p :: !IsUnder(p, folder) ==> (p in Outside(modes, folder) + ScriptModes(folder) <==> p in modes)
    ensures forall p :: !IsUnder(p, folder) && p in modes ==> (Outside(modes, folder) + ScriptModes(folder))[p] == modes[p]
  {
    UnderAppend(folder, ["extract-files.sh"]);
    UnderAppend(folder, ["setup-makefiles.sh"]);
  }

  /* ---------------- reproducibility ---------------- */

  /** The copied sources have the same bytes in both filesystems. */
  predicate SameSources(fs1: FileSystem, fs2: FileSystem, image: ImageInfo, rcs: seq<Path>) {
    && (forall src :: src in [image.kernel, image.dt, image.dtb, image.dtbo] && src.Some? ==>
          src.value in fs1.files && src.value in fs2.files && fs1.files[src.value] == fs2.files[src.value])
    && (forall r :: r in rcs ==> r in fs1.files && r in fs2.files && fs1.files[r] == fs2.files[r])
  }

  lemma {:induction false} CopyRcsSameSources(m: map<Path, Bytes>, root: Path, rcs: seq<Path>, files1: map<Path, Bytes>, files2: map<Path, Bytes>)
    requires forall r :: r in rcs ==> r in files1 && r in files2 && r != [] && files1[r] == files2[r]
    ensures CopyRcs(m, root, rcs, files1) == CopyRcs(m, root, rcs, files2)
  {
    if rcs != [] {
      FrontMembers(rcs);
      CopyRcsSameSources(m, root, rcs[..|rcs| - 1], files1, files2);
    }
  }

  lemma PrebuiltCopiesSameSources(m: map<Path, Bytes>, folder: Path, image: ImageInfo, files1: map<Path, Bytes>, files2: map<Path, Bytes>)
    requires forall src :: src in [image.kernel, image.dt, image.dtb, image.dtbo] && src.Some? ==>
               src.value in files1 && src.value in files2 && files1[src.value] == files2[src.value]
    ensures PrebuiltCopies(m, folder, image, files1) == PrebuiltCopies(m, folder, image, files2)
  {
  }

  lemma OutputFilesSameSources(fs1: FileSystem, fs2: FileSystem, folder: Path, codename: string, image: ImageInfo,
                               fstabText: Bytes, rcs: seq<Path>, render: Renderer)
    requires SourcesPresent(fs1, image, rcs) && SourcesPresent(fs2, image, rcs)
    requires SameSources(fs1, fs2, image, rcs)
    ensures OutputFiles(fs1, folder, codename, image, fstabText, rcs, render)
         == OutputFiles(fs2, folder, codename, image, fstabText, rcs, render)
  {
    var rendered := RenderedFiles(folder, codename, render);
    PrebuiltCopiesSameSources(rendered, folder, image, fs1.files, fs2.files);
    var withFstab := PrebuiltCopies(rendered, folder, image, fs1.files)[folder + ["recovery.fstab"] := fstabText];
    assert forall r :: r in rcs ==> r in fs1.files && r in fs2.files && r != [] && fs1.files[r] == fs2.files[r] by {
      forall r | r in rcs ensures r != [] { }
    }
    CopyRcsSameSources(withFstab, RecoveryRoot(folder), rcs, fs1.files, fs2.files);
  }

  /**
   * The tree under `folder` depends only on the inputs: two filesystems that
   * hold the same bytes at the copied sources end up with identical contents
   * under `folder`, whatever else they held before.
   */
  lemma DumpDeterministic(fs1: FileSystem, fs2: FileSystem, folder: Path, codename: string, image: ImageInfo,
                          fstabText: Bytes, rcs: seq<Path>, render: Renderer)
    requires SourcesPresent(fs1, image, rcs) && SourcesPresent(fs2, image, rcs)
    requires SameSources(fs1, fs2, image, rcs)
    ensures forall p :: IsUnder(p, folder) ==>
              (p in Dumped(fs1, folder, codename, image, fstabText, rcs, render).files <==>
               p in Dumped(fs2, folder, codename, image, fstabText, rcs, render).files)
    ensures forall p :: IsUnder(p, folder) && p in Dumped(fs1, folder, codename, image, fstabText, rcs, render).files ==>
              Dumped(fs1, folder, codename, image, fstabText, rcs, render).files[p]
                == Dumped(fs2, folder, codename, image, fstabText, rcs, render).files[p]
  {
    OutputFilesSameSources(fs1, fs2, folder, codename, image, fstabText, rcs, render);
  }

  /** A tree that keeps every file outside `folder` and has `folder` as a directory can be dumped into again. */
  lemma PreKept(fs: FileSystem, d: FileSystem, folder: Path, image: ImageInfo, rcs: seq<Path>)
    requires DumpPre(fs, folder, image, rcs) && WellFormed(d)
    requires Prefixes(folder) <= d.dirs
    requires forall p :: !IsUnder(p, folder) && p in fs.files ==> p in d.files && d.files[p] == fs.files[p]
    ensures DumpPre(d, folder, image, rcs) && SameSources(d, fs, image, rcs)
  {
    forall i | 0 <= i <= |folder| ensures folder[..i] !in d.files {
      assert folder[..i] in Prefixes(folder);
    }
    KeptSameSources(fs, d, folder, image, rcs);
  }

  lemma KeptSameSources(fs: FileSystem, d: FileSystem, folder: Path, image: ImageInfo, rcs: seq<Path>)
    requires DumpPre(fs, folder, image, rcs)
    requires forall p :: !IsUnder(p, folder) && p in fs.files ==> p in d.files && d.files[p] == fs.files[p]
    ensures SameSources(d, fs, image, rcs)
  {
    forall src | src in [image.kernel, image.dt, image.dtb, image.dtbo] && src.Some?
      ensures SourceOk(fs, src, folder)
    {
    }
  }

  /** The dumped filesystem again meets the dump's precondition, with the same sources. */
  lemma DumpedPre(fs: FileSystem, folder: Path, codename: string, image: ImageInfo, fstabText: Bytes,
                  rcs: seq<Path>, render: Renderer)
    requires DumpPre(fs, folder, image, rcs)
    ensures DumpPre(Dumped(fs, folder, codename, image, fstabText, rcs, render), folder, image, rcs)
    ensures SameSources(Dumped(fs, folder, codename, image, fstabText, rcs, render), fs, image, rcs)
  {
    DumpedWellFormed(fs, folder, codename, image, fstabText, rcs, render);
    DumpReplacesFolder(fs, folder, codename, image, fstabText, rcs, render);
    PreKept(fs, Dumped(fs, folder, codename, image, fstabText, rcs, render), folder, image, rcs);
  }

  /** Replacing what lies under `dir` by `out` twice is the same as once. */
  lemma ReplaceTwice<V>(m: map<Path, V>, out: map<Path, V>, dir: Path)
    requires forall p :: p in out ==> IsUnder(p, dir)
    ensures Outside(Outside(m, dir) + out, dir) + out == Outside(m, dir) + out
  {
    assert Outside(Outside(m, dir) + out, dir) == Outside(m, dir);
  }

  lemma CreatedUnderFolder(folder: Path)
    ensures forall p :: p in CreatedDirs(folder) ==> IsUnder(p, folder) || IsUnder(folder, p)
  {
    forall p | p in CreatedDirs(folder) ensures IsUnder(p, folder) || IsUnder(folder, p) {
      if p in Prefixes(folder) {
        PrefixesAreAncestors(p, folder);
      } else {
        assert p[..|folder|] == folder;
      }
    }
  }

  /** Replacing the folder's contents twice by the same files is the same as once. */
  lemma ReplacedTwice(fs: FileSystem, folder: Path, out: map<Path, Bytes>)
    requires forall p :: p in out ==> IsUnder(p, folder)
    ensures Replaced(Replaced(fs, folder, out), folder, out) == Replaced(fs, folder, out)
  {
    var once := Replaced(fs, folder, out);
    ReplaceTwice(fs.files, out, folder);
    UnderAppend(folder, ["extract-files.sh"]);
    UnderAppend(folder, ["setup-makefiles.sh"]);
    ReplaceTwice(fs.modes, ScriptModes(folder), folder);
    assert OutsideSet(once.dirs, folder) + CreatedDirs(folder) == once.dirs by {
      CreatedUnderFolder(folder);
      forall p | p in CreatedDirs(folder) && !IsUnder(p, folder) ensures p in OutsideSet(once.dirs, folder) { }
    }
  }

  /**
   * Running the dump again on its own result changes nothing: the second run
   * is possible and leaves exactly the same filesystem.
   */
  lemma DumpIdempotent(fs: FileSystem, folder: Path, codename: string, image: ImageInfo, fstabText: Bytes,
                       rcs: seq<Path>, render: Renderer)
    requires DumpPre(fs, folder, image, rcs)
    ensures DumpPre(Dumped(fs, folder, codename, image, fstabText, rcs, render), folder, image, rcs)
    ensures SourcesPresent(Dumped(fs, folder, codename, image, fstabText, rcs, render), image, rcs)
    ensures Dumped(Dumped(fs, folder, codename, image, fstabText, rcs, render), folder, codename, image, fstabText, rcs, render)
         == Dumped(fs, folder, codename, image, fstabText, rcs, render)
  {
    var d := Dumped(fs, folder, codename, image, fstabText, rcs, render);
    var out := OutputFiles(fs, folder, codename, image, fstabText, rcs, render);
    DumpedPre(fs, folder, codename, image, fstabText, rcs, render);
    PreHasSources(d, folder, image, rcs);
    OutputFilesSameSources(d, fs, folder, codename, image, fstabText, rcs, render);
    OutputFilesKeys(fs, folder, codename, image, fstabText, rcs, render);
    forall p | p in out ensures IsUnder(p, folder) {
      ExpectedUnderFolder(folder, codename, image, rcs, p);
    }
    ReplacedTwice(fs, folder, out);
  }
}
