/**
 * `DeviceTree`: building it locates the artifacts of an unpacked recovery
 * image (ramdisk, `build.prop`, `recovery.fstab`, init scripts) or fails;
 * `DumpToFolder` writes the device tree for them into an output directory.
 */
module DeviceTrees {
  import opened Paths
  import opened FileSystems
  import opened DeviceData
  import opened Locator
  import opened OutputTree

  /* ---------------- construction ---------------- */

  /**
   * The ramdisk the artifacts are searched in: the image's own ramdisk when
   * it is a directory, otherwise the vendor ramdisk of a vendor_boot image
   * when that one is.
   */
  function ChooseRamdisk(fs: FileSystem, info: ImageInfo): (r: Result<Path>)
    ensures r.Success? <==>
              (info.ramdisk.Some? && IsDir(fs, info.ramdisk.value))
              || (info.vendorRamdisk.Some? && IsDir(fs, info.vendorRamdisk.value))
    ensures r.Success? ==> IsDir(fs, r.value)
    ensures r.Success? ==> Some(r.value) == info.ramdisk || Some(r.value) == info.vendorRamdisk
    ensures info.ramdisk.Some? && IsDir(fs, info.ramdisk.value) ==> r == Success(info.ramdisk.value)
    ensures r.Failure? ==> r.error == NoRamdisk
  {
    if info.ramdisk.Some? && IsDir(fs, info.ramdisk.value) then Success(info.ramdisk.value)
    else if info.vendorRamdisk.Some? && IsDir(fs, info.vendorRamdisk.value) then Success(info.vendorRamdisk.value)
    else Failure(NoRamdisk)
  }

  /** What a successful construction has found. */
  datatype Located = Located(
    ramdisk: Path,
    buildProp: Path,
    deviceInfo: DeviceInfo,
    fstabSource: Path,
    fstab: Bytes,
    initRcs: seq<Path>)

  /**
   * The outcome of `DeviceTree(image)` on a filesystem that holds the
   * unpacked image: the first failing check in the order the constructor
   * makes them, or everything it located.
   */
  function Locate(fs: FileSystem, image: Path, info: ImageInfo, listing: Path -> seq<string>,
                  readDeviceInfo: Bytes -> DeviceInfo): (r: Result<Located>)
    ensures r == Failure(ImageNotFound) <==> !IsFile(fs, image)
    ensures r == Failure(NoRamdisk) <==> IsFile(fs, image) && ChooseRamdisk(fs, info).Failure?
    ensures r == Failure(BuildPropNotFound) <==>
              && IsFile(fs, image) && ChooseRamdisk(fs, info).Success?
              && forall c :: c in BuildPropCandidates(fs, ChooseRamdisk(fs, info).value) ==> !IsFile(fs, c)
    ensures r == Failure(FstabNotFound) <==>
              && IsFile(fs, image) && ChooseRamdisk(fs, info).Success?
              && (exists c :: c in BuildPropCandidates(fs, ChooseRamdisk(fs, info).value) && IsFile(fs, c))
              && forall c :: c in FstabCandidates(ChooseRamdisk(fs, info).value) ==> !IsFile(fs, c)
    ensures r.Success? ==> IsFile(fs, image) && ChooseRamdisk(fs, info) == Success(r.value.ramdisk)
    ensures r.Success? ==>
              && r.value.buildProp in fs.files
              && r.value.buildProp in BuildPropCandidates(fs, r.value.ramdisk)
              && r.value.deviceInfo == readDeviceInfo(fs.files[r.value.buildProp])
    ensures r.Success? ==>
              && r.value.fstabSource in fs.files
              && r.value.fstabSource in FstabCandidates(r.value.ramdisk)
              && r.value.fstab == fs.files[r.value.fstabSource]
    ensures r.Success? ==> r.value.initRcs == RcBlocks(fs, InitRcDirs(r.value.ramdisk), listing)
  {
    if !IsFile(fs, image) then Failure(ImageNotFound)
    else match ChooseRamdisk(fs, info)
      case Failure(e) => Failure(e)
      case Success(ramdisk) => LocateIn(fs, ramdisk, listing, readDeviceInfo)
  }

  /** The searches of the constructor once the ramdisk root is chosen. */
  function LocateIn(fs: FileSystem, ramdisk: Path, listing: Path -> seq<string>,
                    readDeviceInfo: Bytes -> DeviceInfo): (r: Result<Located>)
    ensures r.Failure? ==> r.error == BuildPropNotFound || r.error == FstabNotFound
    ensures r == Failure(BuildPropNotFound) <==> forall c :: c in BuildPropCandidates(fs, ramdisk) ==> !IsFile(fs, c)
    ensures r == Failure(FstabNotFound) <==>
              && (exists c :: c in BuildPropCandidates(fs, ramdisk) && IsFile(fs, c))
              && forall c :: c in FstabCandidates(ramdisk) ==> !IsFile(fs, c)
    ensures r.Success? ==>
              && r.value.ramdisk == ramdisk
              && r.value.buildProp in fs.files
              && r.value.buildProp in BuildPropCandidates(fs, ramdisk)
              && r.value.deviceInfo == readDeviceInfo(fs.files[r.value.buildProp])
    ensures r.Success? ==>
              && r.value.fstabSource in fs.files
              && r.value.fstabSource in FstabCandidates(ramdisk)
              && r.value.fstab == fs.files[r.value.fstabSource]
    ensures r.Success? ==> r.value.initRcs == RcBlocks(fs, InitRcDirs(ramdisk), listing)
  {
    var candidates := BuildPropCandidates(fs, ramdisk);
    match FirstFileIndex(fs, candidates)
    case None => Failure(BuildPropNotFound)
    case Some(b) =>
      var fstabs := FstabCandidates(ramdisk);
      match FirstFileIndex(fs, fstabs)
      case None => Failure(FstabNotFound)
      case Some(f) =>
        Success(Located(ramdisk, candidates[b], readDeviceInfo(fs.files[candidates[b]]),
                        fstabs[f], fs.files[fstabs[f]], RcBlocks(fs, InitRcDirs(ramdisk), listing)))
  }

  /**
   * The `build.prop` used is the first candidate that is a file: every
   * candidate before its first occurrence in the list is not a file.
   */
  lemma LocateTakesFirstBuildProp(fs: FileSystem, image: Path, info: ImageInfo, listing: Path -> seq<string>,
                                  readDeviceInfo: Bytes -> DeviceInfo, j: nat)
    requires Locate(fs, image, info, listing, readDeviceInfo).Success?
    requires j < |BuildPropCandidates(fs, Locate(fs, image, info, listing, readDeviceInfo).value.ramdisk)|
    requires BuildPropCandidates(fs, Locate(fs, image, info, listing, readDeviceInfo).value.ramdisk)[j]
               == Locate(fs, image, info, listing, readDeviceInfo).value.buildProp
    requires forall k :: 0 <= k < j ==>
               BuildPropCandidates(fs, Locate(fs, image, info, listing, readDeviceInfo).value.ramdisk)[k]
                 != Locate(fs, image, info, listing, readDeviceInfo).value.buildProp
    ensures forall k :: 0 <= k < j ==>
              !IsFile(fs, BuildPropCandidates(fs, Locate(fs, image, info, listing, readDeviceInfo).value.ramdisk)[k])
  {
    var located := Locate(fs, image, info, listing, readDeviceInfo).value;
    var candidates := BuildPropCandidates(fs, located.ramdisk);
    var b := FirstFileIndex(fs, candidates).value;
    assert candidates[b] == located.buildProp;
    assert j <= b;
  }

  /**
   * `recovery.fstab` under `etc` wins over the partition copies, and the
   * `system` copy wins over the `vendor` one.
   */
  lemma LocateFstabPriority(fs: FileSystem, image: Path, info: ImageInfo, listing: Path -> seq<string>,
                            readDeviceInfo: Bytes -> DeviceInfo)
    requires Locate(fs, image, info, listing, readDeviceInfo).Success?
    ensures var rd := Locate(fs, image, info, listing, readDeviceInfo).value.ramdisk;
            IsFile(fs, rd + ["etc", "recovery.fstab"]) ==>
              Locate(fs, image, info, listing, readDeviceInfo).value.fstabSource == rd + ["etc", "recovery.fstab"]
    ensures var rd := Locate(fs, image, info, listing, readDeviceInfo).value.ramdisk;
            !IsFile(fs, rd + ["etc", "recovery.fstab"]) && IsFile(fs, rd + ["system", "etc", "recovery.fstab"]) ==>
              Locate(fs, image, info, listing, readDeviceInfo).value.fstabSource == rd + ["system", "etc", "recovery.fstab"]
  {
    var rd := Locate(fs, image, info, listing, readDeviceInfo).value.ramdisk;
    var fstabs := FstabCandidates(rd);
    if IsFile(fs, fstabs[0]) {
      FirstFileHasPriority(fs, fstabs, 0);
    } else if IsFile(fs, fstabs[1]) {
      FirstFileHasPriority(fs, fstabs, 1);
    }
  }

  /**
   * The init scripts the constructor keeps are exactly the existing `*.rc`
   * entries directly inside the ramdisk root, `system/etc/init` or
   * `vendor/etc/init`, for those of the three that are directories.
   */
  lemma LocateInitRcs(fs: FileSystem, image: Path, info: ImageInfo, listing: Path -> seq<string>,
                      readDeviceInfo: Bytes -> DeviceInfo, p: Path)
    requires ListsEntries(fs, listing)
    requires Locate(fs, image, info, listing, readDeviceInfo).Success?
    ensures var rd := Locate(fs, image, info, listing, readDeviceInfo).value.ramdisk;
            p in Locate(fs, image, info, listing, readDeviceInfo).value.initRcs <==>
              && p != [] && Exists(fs, p) && IsInitRcName(Name(p)) && IsDir(fs, Parent(p))
              && Parent(p) in InitRcDirs(rd)
  {
    var located := Locate(fs, image, info, listing, readDeviceInfo).value;
    assert located.initRcs == RcBlocks(fs, InitRcDirs(located.ramdisk), listing);
    InitRcsExist(fs, located.ramdisk, listing, p);
  }

  /**
   * With no regular ramdisk, a vendor_boot image is accepted when its vendor
   * ramdisk has no `default.prop`, `prop.default` or `system/build.prop`, has
   * `vendor/build.prop`, and has `etc/recovery.fstab`; `vendor/build.prop` is
   * the file read.
   */
  lemma VendorBootAccepted(fs: FileSystem, image: Path, info: ImageInfo, listing: Path -> seq<string>,
                           readDeviceInfo: Bytes -> DeviceInfo)
    requires IsFile(fs, image) && info.ramdisk.None?
    requires info.vendorRamdisk.Some? && IsDir(fs, info.vendorRamdisk.value)
    requires var v := info.vendorRamdisk.value;
             && IsFile(fs, v + ["vendor", "build.prop"])
             && !IsFile(fs, v + ["default.prop"]) && !IsFile(fs, v + ["prop.default"])
             && !IsFile(fs, v + ["system", "build.prop"])
             && IsFile(fs, v + ["etc", "recovery.fstab"])
    ensures Locate(fs, image, info, listing, readDeviceInfo).Success?
    ensures Locate(fs, image, info, listing, readDeviceInfo).value.ramdisk == info.vendorRamdisk.value
    ensures Locate(fs, image, info, listing, readDeviceInfo).value.buildProp == info.vendorRamdisk.value + ["vendor", "build.prop"]
    ensures Locate(fs, image, info, listing, readDeviceInfo).value.deviceInfo
            == readDeviceInfo(fs.files[info.vendorRamdisk.value + ["vendor", "build.prop"]])
  {
    var v := info.vendorRamdisk.value;
    var candidates := BuildPropCandidates(fs, v);
    BuildPropCandidatesShape(fs, v);
    PrefixElements(candidates,
                   [v + ["default.prop"], v + ["prop.default"],
                    v + ["system", "build.prop"], v + ["vendor", "build.prop"],
                    v + ["system", "etc", "build.prop"], v + ["vendor", "etc", "build.prop"]]);
    FirstFileHasPriority(fs, candidates, 3);
    FirstFileHasPriority(fs, FstabCandidates(v), 0);
    assert FirstFileIndex(fs, candidates) == Some(3);
    assert ChooseRamdisk(fs, info) == Success(v);
    assert Locate(fs, image, info, listing, readDeviceInfo).value.buildProp == candidates[3];
  }

  /** A device tree: the image, what unpacking it reported, and the artifacts located in it. */
  class DeviceTree {
    const image: Path
    const imageInfo: ImageInfo
    const ramdisk: Path
    const buildProp: Path
    const deviceInfo: DeviceInfo
    const fstabSource: Path
    const fstab: Bytes
    const initRcs: seq<Path>

    function Parts(): Located {
      Located(ramdisk, buildProp, deviceInfo, fstabSource, fstab, initRcs)
    }

    constructor (image: Path, imageInfo: ImageInfo, located: Located)
      ensures this.image == image && this.imageInfo == imageInfo && Parts() == located
    {
      this.image := image;
      this.imageInfo := imageInfo;
      ramdisk := located.ramdisk;
      buildProp := located.buildProp;
      deviceInfo := located.deviceInfo;
      fstabSource := located.fstabSource;
      fstab := located.fstab;
      initRcs := located.initRcs;
    }

    /**
     * `dump_to_folder(output_path)` without the git repository: the tree is
     * written to `output_path/manufacturer/codename`, replacing whatever was
     * there, and that folder is returned.
     */
    method DumpToFolder(disk: Disk, outputPath: Path, render: Renderer, formatFstab: Bytes -> Bytes)
      returns (folder: Path)
      requires disk.Valid()
      requires DumpPre(disk.State(), TreeFolder(outputPath, deviceInfo), imageInfo, initRcs)
      modifies disk
      ensures folder == TreeFolder(outputPath, deviceInfo)
      ensures disk.Valid()
      ensures disk.State() == Dumped(old(disk.State()), folder, deviceInfo.codename, imageInfo, formatFstab(fstab), initRcs, render)
    {
      folder := TreeFolder(outputPath, deviceInfo);
      ghost var before := disk.State();
      DumpPlan(before, folder, deviceInfo.codename, imageInfo, formatFstab(fstab), initRcs, render);
      PrepareFolders(disk, folder);
      WriteTree(disk, folder, deviceInfo.codename, render, imageInfo, formatFstab(fstab), initRcs);
      DumpComposes(before, folder, deviceInfo.codename, imageInfo, formatFstab(fstab), initRcs, render);
    }
  }

  /**
   * `DeviceTree(image)`: the image must be a file; the ramdisk is chosen,
   * the `build.prop` candidates are searched in order and the first file is
   * read, then the first `recovery.fstab` candidate that is a file is read
   * and the init scripts are collected. `fs` is the filesystem once the
   * image has been unpacked and `info` what unpacking reported.
   */
  method Create(fs: FileSystem, image: Path, info: ImageInfo, listing: Path -> seq<string>,
                readDeviceInfo: Bytes -> DeviceInfo) returns (r: Result<DeviceTree>)
    ensures r.Failure? <==> Locate(fs, image, info, listing, readDeviceInfo).Failure?
    ensures r.Failure? ==> r.error == Locate(fs, image, info, listing, readDeviceInfo).error
    ensures r.Success? ==>
              && r.value.image == image && r.value.imageInfo == info
              && r.value.Parts() == Locate(fs, image, info, listing, readDeviceInfo).value
  {
    if !IsFile(fs, image) {
      return Failure(ImageNotFound);
    }
    var chosen := ChooseRamdisk(fs, info);
    if chosen.Failure? {
      return Failure(chosen.error);
    }
    var ramdisk := chosen.value;

    var searchLocations := GetExtendedBuildPropLocations(fs, ramdisk);
    var b := FindFirstFile(fs, searchLocations);
    if b.None? {
      return Failure(BuildPropNotFound);
    }
    var buildProp := searchLocations[b.value];
    var deviceInfo := readDeviceInfo(fs.files[buildProp]);

    var fstabs := FstabCandidates(ramdisk);
    var f := FindFirstFile(fs, fstabs);
    if f.None? {
      return Failure(FstabNotFound);
    }
    var fstabSource := fstabs[f.value];

    var initRcs := CollectInitRcs(fs, ramdisk, listing);
    var tree := new DeviceTree(image, info, Located(ramdisk, buildProp, deviceInfo, fstabSource, fs.files[fstabSource], initRcs));
    return Success(tree);
  }

  /* ---------------- the steps of dump_to_folder ---------------- */

  /** The created directories exist, and no other directory lies under `folder`. */
  predicate FoldersReady(dirs: set<Path>, folder: Path) {
    && CreatedDirs(folder) <= dirs
    && forall d :: d in dirs && IsUnder(d, folder) ==> d in CreatedDirs(folder)
  }

  /** A direct entry of `folder` other than `prebuilt` and `recovery` can be written. */
  lemma EntryInFolder(dirs: set<Path>, folder: Path, n: string)
    requires FoldersReady(dirs, folder)
    requires n != "prebuilt" && n != "recovery"
    ensures folder + [n] != [] && Parent(folder + [n]) in dirs && folder + [n] !in dirs
  {
    var q := folder + [n];
    assert Parent(q) == folder;
    assert folder == folder[..|folder|];
    assert q[|folder|] == n;
    UnderAppend(folder, [n]);
    NotCreated(folder, q);
  }

  lemma EntryInPrebuilt(dirs: set<Path>, folder: Path, x: string)
    requires FoldersReady(dirs, folder)
    ensures PrebuiltDir(folder) + [x] != [] && Parent(PrebuiltDir(folder) + [x]) in dirs
    ensures PrebuiltDir(folder) + [x] !in dirs
  {
    var q := PrebuiltDir(folder) + [x];
    assert q == folder + ["prebuilt", x];
    assert Parent(q) == PrebuiltDir(folder);
    assert q[|folder|] == "prebuilt";
    UnderAppend(folder, ["prebuilt", x]);
    NotCreated(folder, q);
  }

  lemma EntryInRecoveryRoot(dirs: set<Path>, folder: Path, x: string)
    requires FoldersReady(dirs, folder)
    ensures RecoveryRoot(folder) + [x] != [] && Parent(RecoveryRoot(folder) + [x]) in dirs
    ensures RecoveryRoot(folder) + [x] !in dirs && IsUnder(RecoveryRoot(folder) + [x], folder)
  {
    var q := RecoveryRoot(folder) + [x];
    assert q == folder + ["recovery", "root", x];
    assert Parent(q) == RecoveryRoot(folder);
    UnderAppend(folder, ["recovery", "root", x]);
    NotCreated(folder, q);
  }

  lemma RenderedUnderFolder(folder: Path, codename: string, render: Renderer)
    ensures forall p :: p in RenderedFiles(folder, codename, render) ==> IsUnder(p, folder)
  {
    RenderedKeys(folder, codename, render);
    forall n | n in RenderedNames(codename) ensures IsUnder(folder + [n], folder) {
      UnderAppend(folder, [n]);
    }
  }

  /** No ancestor of a path below `folder` is a file when no ancestor of `folder` and nothing under it is one. */
  lemma AppendPrefixesFree(files: map<Path, Bytes>, folder: Path, tail: Path)
    requires forall i :: 0 <= i <= |folder| ==> folder[..i] !in files
    requires forall p :: p in files ==> !IsUnder(p, folder)
    ensures forall i :: 0 <= i <= |folder + tail| ==> (folder + tail)[..i] !in files
  {
    var q := folder + tail;
    forall i | 0 <= i <= |q| ensures q[..i] !in files {
      if i <= |folder| {
        assert q[..i] == folder[..i];
      } else {
        assert q[..i][..|folder|] == folder;
      }
    }
  }

  /**
   * `rmtree` on the folder when it is a directory, then `mkdir(parents=True)`
   * on the folder, `prebuilt` and `recovery/root`.
   */
  method PrepareFolders(disk: Disk, folder: Path)
    requires disk.Valid() && folder != []
    requires forall i :: 0 <= i <= |folder| ==> folder[..i] !in disk.files
    modifies disk
    ensures disk.Valid() && FoldersReady(disk.dirs, folder)
    ensures disk.files == Outside(old(disk.files), folder)
    ensures disk.dirs == OutsideSet(old(disk.dirs), folder) + CreatedDirs(folder)
    ensures disk.modes == Outside(old(disk.modes), folder)
  {
    assert folder[..|folder|] == folder;
    if folder in disk.dirs {
      disk.RmTree(folder);
    } else {
      NothingUnderAbsent(disk.State(), folder);
    }
    assert disk.files == Outside(disk.files, folder) && disk.dirs == OutsideSet(disk.dirs, folder);
    MakeFolders(disk, folder);
  }

  /** The three `mkdir(parents=True)` calls, on a disk that holds nothing under `folder`. */
  method MakeFolders(disk: Disk, folder: Path)
    requires disk.Valid() && folder != []
    requires forall i :: 0 <= i <= |folder| ==> folder[..i] !in disk.files
    requires forall p :: p in disk.files ==> !IsUnder(p, folder)
    requires forall d :: d in disk.dirs ==> !IsUnder(d, folder)
    modifies disk`dirs
    ensures disk.Valid() && FoldersReady(disk.dirs, folder)
    ensures disk.dirs == old(disk.dirs) + CreatedDirs(folder)
  {
    assert IsUnder(folder, folder);
    disk.MkdirParents(folder);

    var prebuilt := PrebuiltDir(folder);
    UnderAppend(folder, ["prebuilt"]);
    PrefixesSnoc(folder, "prebuilt");
    AppendPrefixesFree(disk.files, folder, ["prebuilt"]);
    disk.MkdirParents(prebuilt);

    var recovery := RecoveryDir(folder);
    var root := RecoveryRoot(folder);
    assert root == recovery + ["root"];
    UnderAppend(folder, ["recovery"]);
    UnderAppend(folder, ["recovery", "root"]);
    PrefixesSnoc(folder, "recovery");
    PrefixesSnoc(recovery, "root");
    assert root !in disk.dirs by {
      assert root[|folder|] == "recovery" && prebuilt[|folder|] == "prebuilt";
    }
    AppendPrefixesFree(disk.files, folder, ["recovery", "root"]);
    disk.MkdirParents(root);
  }

  /** Writing the ten rendered files one after another adds `RenderedFiles` on top of what was there. */
  lemma RenderedAsWrites(m: map<Path, Bytes>, folder: Path, codename: string, render: Renderer)
    ensures m[folder + ["Android.bp"] := render("Android.bp", "//")]
             [folder + ["Android.mk"] := render("Android.mk", "#")]
             [folder + ["AndroidProducts.mk"] := render("AndroidProducts.mk", "#")]
             [folder + ["BoardConfig.mk"] := render("BoardConfig.mk", "#")]
             [folder + ["device.mk"] := render("device.mk", "#")]
             [folder + ["extract-files.sh"] := render("extract-files.sh", "#")]
             [folder + [OmniName(codename)] := render("omni_device.mk", "#")]
             [folder + ["README.md"] := render("README.md", "#")]
             [folder + ["setup-makefiles.sh"] := render("setup-makefiles.sh", "#")]
             [folder + ["vendorsetup.sh"] := render("vendorsetup.sh", "#")]
          == m + RenderedFiles(folder, codename, render)
  {
  }

  /** What the steps of the dump need: sources outside the folder, everything written under it. */
  lemma DumpPlan(fs: FileSystem, folder: Path, codename: string, image: ImageInfo, fstabText: Bytes,
                 rcs: seq<Path>, render: Renderer)
    requires DumpPre(fs, folder, image, rcs)
    ensures forall src :: src in [image.kernel, image.dt, image.dtb, image.dtbo] && src.Some? ==>
              src.value in Outside(fs.files, folder) && !IsUnder(src.value, folder)
    ensures forall r :: r in rcs ==> r in Outside(fs.files, folder) && r != [] && !IsUnder(r, folder)
    ensures forall p :: p in RenderedFiles(folder, codename, render) ==> IsUnder(p, folder)
    ensures forall p :: p in PrebuiltCopies(RenderedFiles(folder, codename, render), folder, image, Outside(fs.files, folder)) ==> IsUnder(p, folder)
    ensures forall p :: p in PrebuiltCopies(RenderedFiles(folder, codename, render), folder, image, Outside(fs.files, folder))[folder + ["recovery.fstab"] := fstabText] ==> IsUnder(p, folder)
  {
    var base := Outside(fs.files, folder);
    var rendered := RenderedFiles(folder, codename, render);
    forall r | r in rcs ensures r != [] { }
    RenderedUnderFolder(folder, codename, render);
    PrebuiltCopiesKeys(rendered, folder, image, base);
    forall p | p in PrebuiltPaths(folder, image) ensures IsUnder(p, folder) {
      ExpectedUnderFolder(folder, codename, image, rcs, p);
    }
    UnderAppend(folder, ["recovery.fstab"]);
  }

  /**
   * The steps of the dump, each stated on what lies outside the folder and
   * what has been written under it, compose to `Dumped`.
   */
  lemma DumpComposes(fs: FileSystem, folder: Path, codename: string, image: ImageInfo, fstabText: Bytes,
                     rcs: seq<Path>, render: Renderer)
    requires DumpPre(fs, folder, image, rcs)
    requires forall src :: src in [image.kernel, image.dt, image.dtb, image.dtbo] && src.Some? ==>
               src.value in Outside(fs.files, folder)
    requires forall r :: r in rcs ==> r in Outside(fs.files, folder) && r != []
    ensures Dumped(fs, folder, codename, image, fstabText, rcs, render) ==
            FileSystem(
              Outside(fs.files, folder)
                + CopyRcs(PrebuiltCopies(RenderedFiles(folder, codename, render), folder, image, Outside(fs.files, folder))
                            [folder + ["recovery.fstab"] := fstabText],
                          RecoveryRoot(folder), rcs, Outside(fs.files, folder)),
              OutsideSet(fs.dirs, folder) + CreatedDirs(folder),
              Outside(fs.modes, folder) + ScriptModes(folder))
  {
    var base := Outside(fs.files, folder);
    var rendered := RenderedFiles(folder, codename, render);
    PrebuiltCopiesSameSources(rendered, folder, image, base, fs.files);
    var withFstab := PrebuiltCopies(rendered, folder, image, base)[folder + ["recovery.fstab"] := fstabText];
    CopyRcsSameSources(withFstab, RecoveryRoot(folder), rcs, base, fs.files);
  }

  lemma ScriptModesAsChmods(m: map<Path, Mode>, folder: Path)
    ensures m[folder + ["extract-files.sh"] := ScriptMode][folder + ["setup-makefiles.sh"] := ScriptMode] == m + ScriptModes(folder)
  {
  }

  /** The two `chmod` calls giving the shell scripts mode 0o744. */
  method SetScriptModes(disk: Disk, folder: Path)
    requires disk.Valid()
    requires folder + ["extract-files.sh"] in disk.files && folder + ["setup-makefiles.sh"] in disk.files
    modifies disk`modes
    ensures disk.Valid()
    ensures disk.modes == old(disk.modes) + ScriptModes(folder)
  {
    ScriptModesAsChmods(disk.modes, folder);
    disk.Chmod(folder + ["extract-files.sh"], S_IRWXU | S_IRGRP | S_IROTH);
    disk.Chmod(folder + ["setup-makefiles.sh"], S_IRWXU | S_IRGRP | S_IROTH);
  }

  /** `(folder / "recovery.fstab").write_text(...)`. */
  method WriteFstab(disk: Disk, folder: Path, text: Bytes, ghost base: map<Path, Bytes>, ghost written: map<Path, Bytes>)
    requires disk.Valid() && FoldersReady(disk.dirs, folder)
    requires disk.files == base + written
    modifies disk`files
    ensures disk.Valid()
    ensures disk.files == base + written[folder + ["recovery.fstab"] := text]
  {
    EntryInFolder(disk.dirs, folder, "recovery.fstab");
    UnionUpdate(base, written, folder + ["recovery.fstab"], text);
    disk.WriteText(folder + ["recovery.fstab"], text);
  }

  /**
   * Everything `dump_to_folder` writes once the folders exist: the rendered
   * files, the script modes, the prebuilt images, `recovery.fstab` and the
   * init scripts, in that order, on top of the files `disk` holds outside
   * the folder.
   */
  method WriteTree(disk: Disk, folder: Path, codename: string, render: Renderer, image: ImageInfo, fstabText: Bytes,
                   rcs: seq<Path>)
    requires disk.Valid() && FoldersReady(disk.dirs, folder)
    requires forall p :: p in disk.files ==> !IsUnder(p, folder)
    requires forall src :: src in [image.kernel, image.dt, image.dtb, image.dtbo] && src.Some? ==>
               src.value in disk.files && !IsUnder(src.value, folder)
    requires forall r :: r in rcs ==> r in disk.files && r != [] && !IsUnder(r, folder)
    requires forall p :: p in RenderedFiles(folder, codename, render) ==> IsUnder(p, folder)
    requires forall p :: p in PrebuiltCopies(RenderedFiles(folder, codename, render), folder, image, disk.files)[folder + ["recovery.fstab"] := fstabText] ==> IsUnder(p, folder)
    modifies disk`files, disk`modes
    ensures disk.Valid()
    ensures disk.files == old(disk.files)
              + CopyRcs(PrebuiltCopies(RenderedFiles(folder, codename, render), folder, image, old(disk.files))
                          [folder + ["recovery.fstab"] := fstabText],
                        RecoveryRoot(folder), rcs, old(disk.files))
    ensures disk.modes == old(disk.modes) + ScriptModes(folder)
  {
    ghost var base := disk.files;
    ghost var rendered := RenderedFiles(folder, codename, render);
    ghost var withPrebuilt := PrebuiltCopies(rendered, folder, image, base);
    WriteRendered(disk, folder, codename, render);
    SetScriptModes(disk, folder);
    CopyPrebuilts(disk, folder, image, base, rendered);
    WriteFstab(disk, folder, fstabText, base, withPrebuilt);
    CopyInitRcs(disk, folder, rcs, base, withPrebuilt[folder + ["recovery.fstab"] := fstabText]);
  }

  /** The ten `_render_template` calls, each writing one file into `folder`. */
  method WriteRendered(disk: Disk, folder: Path, codename: string, render: Renderer)
    requires disk.Valid() && FoldersReady(disk.dirs, folder)
    modifies disk`files
    ensures disk.Valid()
    ensures disk.files == old(disk.files) + RenderedFiles(folder, codename, render)
  {
    RenderedAsWrites(disk.files, folder, codename, render);
    EntryInFolder(disk.dirs, folder, "Android.bp");
    disk.WriteText(folder + ["Android.bp"], render("Android.bp", "//"));
    EntryInFolder(disk.dirs, folder, "Android.mk");
    disk.WriteText(folder + ["Android.mk"], render("Android.mk", "#"));
    EntryInFolder(disk.dirs, folder, "AndroidProducts.mk");
    disk.WriteText(folder + ["AndroidProducts.mk"], render("AndroidProducts.mk", "#"));
    EntryInFolder(disk.dirs, folder, "BoardConfig.mk");
    disk.WriteText(folder + ["BoardConfig.mk"], render("BoardConfig.mk", "#"));
    EntryInFolder(disk.dirs, folder, "device.mk");
    disk.WriteText(folder + ["device.mk"], render("device.mk", "#"));
    EntryInFolder(disk.dirs, folder, "extract-files.sh");
    disk.WriteText(folder + ["extract-files.sh"], render("extract-files.sh", "#"));
    RenderedNameIsPlain(codename, OmniName(codename));
    EntryInFolder(disk.dirs, folder, OmniName(codename));
    disk.WriteText(folder + [OmniName(codename)], render("omni_device.mk", "#"));
    EntryInFolder(disk.dirs, folder, "README.md");
    disk.WriteText(folder + ["README.md"], render("README.md", "#"));
    EntryInFolder(disk.dirs, folder, "setup-makefiles.sh");
    disk.WriteText(folder + ["setup-makefiles.sh"], render("setup-makefiles.sh", "#"));
    EntryInFolder(disk.dirs, folder, "vendorsetup.sh");
    disk.WriteText(folder + ["vendorsetup.sh"], render("vendorsetup.sh", "#"));
  }

  /** One optional copy into `prebuilt` on top of `base`, as a step of `PrebuiltCopies`. */
  lemma PrebuiltStep(base: map<Path, Bytes>, w: map<Path, Bytes>, folder: Path, src: Option<Path>, x: string)
    requires forall p :: p in w ==> IsUnder(p, folder)
    requires src.Some? ==> src.value in base && !IsUnder(src.value, folder)
    ensures src.Some? ==> src.value in base + w && (base + w)[src.value] == base[src.value]
    ensures src.Some? ==> (base + w)[PrebuiltDir(folder) + [x] := base[src.value]] == base + WithCopy(w, src, PrebuiltDir(folder) + [x], base)
    ensures forall p :: p in WithCopy(w, src, PrebuiltDir(folder) + [x], base) ==> IsUnder(p, folder)
  {
    PrebuiltEntryUnder(folder, x);
    if src.Some? {
      UnionUpdate(base, w, PrebuiltDir(folder) + [x], base[src.value]);
    }
  }

  /** One `copyfile` into `prebuilt`, made only when the image has that artifact. */
  method CopyPrebuilt(disk: Disk, folder: Path, src: Option<Path>, x: string,
                      ghost base: map<Path, Bytes>, ghost written: map<Path, Bytes>)
    requires disk.Valid() && FoldersReady(disk.dirs, folder)
    requires disk.files == base + written
    requires forall p :: p in written ==> IsUnder(p, folder)
    requires src.Some? ==> src.value in base && !IsUnder(src.value, folder)
    modifies disk`files
    ensures disk.Valid()
    ensures disk.files == base + WithCopy(written, src, PrebuiltDir(folder) + [x], base)
    ensures forall p :: p in WithCopy(written, src, PrebuiltDir(folder) + [x], base) ==> IsUnder(p, folder)
  {
    PrebuiltStep(base, written, folder, src, x);
    if src.Some? {
      EntryInPrebuilt(disk.dirs, folder, x);
      disk.CopyFile(src.value, PrebuiltDir(folder) + [x]);
    }
  }

  /**
   * The four `copyfile` calls into `prebuilt`, each made only when the image
   * has that artifact. `base` is what lies outside `folder`, where the
   * sources are, and `written` what this run has written so far.
   */
  method CopyPrebuilts(disk: Disk, folder: Path, image: ImageInfo, ghost base: map<Path, Bytes>, ghost written: map<Path, Bytes>)
    requires disk.Valid() && FoldersReady(disk.dirs, folder)
    requires disk.files == base + written
    requires forall p :: p in written ==> IsUnder(p, folder)
    requires forall src :: src in [image.kernel, image.dt, image.dtb, image.dtbo] && src.Some? ==>
               src.value in base && !IsUnder(src.value, folder)
    modifies disk`files
    ensures disk.Valid()
    ensures disk.files == base + PrebuiltCopies(written, folder, image, base)
  {
    assert image.kernel in [image.kernel, image.dt, image.dtb, image.dtbo];
    assert image.dt in [image.kernel, image.dt, image.dtb, image.dtbo];
    assert image.dtb in [image.kernel, image.dt, image.dtb, image.dtbo];
    assert image.dtbo in [image.kernel, image.dt, image.dtb, image.dtbo];
    var prebuilt := PrebuiltDir(folder);
    CopyPrebuilt(disk, folder, image.kernel, "kernel", base, written);
    ghost var w := WithCopy(written, image.kernel, prebuilt + ["kernel"], base);
    CopyPrebuilt(disk, folder, image.dt, "dt.img", base, w);
    w := WithCopy(w, image.dt, prebuilt + ["dt.img"], base);
    CopyPrebuilt(disk, folder, image.dtb, "dtb.img", base, w);
    w := WithCopy(w, image.dtb, prebuilt + ["dtb.img"], base);
    CopyPrebuilt(disk, folder, image.dtbo, "dtbo.img", base, w);
  }

  /** Writing one more file on top of `base` is the same as adding it to what was written. */
  lemma UnionUpdate(base: map<Path, Bytes>, w: map<Path, Bytes>, k: Path, v: Bytes)
    ensures (base + w)[k := v] == base + w[k := v]
  {
  }

  lemma PrebuiltEntryUnder(folder: Path, x: string)
    ensures IsUnder(PrebuiltDir(folder) + [x], folder)
  {
    assert PrebuiltDir(folder) + [x] == folder + ["prebuilt", x];
    UnderAppend(folder, ["prebuilt", x]);
  }

  /** One more init script copied on top of `base` extends the written map by one `CopyRcs` step. */
  lemma CopyRcStep(base: map<Path, Bytes>, written: map<Path, Bytes>, folder: Path, front: seq<Path>, rc: Path)
    requires forall r :: r in front ==> r in base && r != [] && !IsUnder(r, folder)
    requires rc in base && rc != [] && !IsUnder(rc, folder)
    requires forall p :: p in CopyRcs(written, RecoveryRoot(folder), front, base) ==> IsUnder(p, folder)
    ensures (base + CopyRcs(written, RecoveryRoot(folder), front, base))[rc] == base[rc]
    ensures base + CopyRcs(written, RecoveryRoot(folder), front + [rc], base)
         == (base + CopyRcs(written, RecoveryRoot(folder), front, base))[RecoveryRoot(folder) + [Name(rc)] := base[rc]]
    ensures forall p :: p in CopyRcs(written, RecoveryRoot(folder), front + [rc], base) ==> IsUnder(p, folder)
  {
    var root := RecoveryRoot(folder);
    var rcs := front + [rc];
    assert rcs[|rcs| - 1] == rc && rcs[..|rcs| - 1] == front;
    assert forall r :: r in rcs ==> r in front || r == rc;
    var w := CopyRcs(written, root, front, base);
    assert CopyRcs(written, root, rcs, base) == w[root + [Name(rc)] := base[rc]];
    UnionUpdate(base, w, root + [Name(rc)], base[rc]);
    assert root + [Name(rc)] == folder + ["recovery", "root", Name(rc)];
    UnderAppend(folder, ["recovery", "root", Name(rc)]);
  }

  /** `copyfile(init_rc, recovery_root_path / init_rc.name)` for one script, after the scripts in `front`. */
  method CopyInitRc(disk: Disk, folder: Path, rc: Path, ghost front: seq<Path>,
                    ghost base: map<Path, Bytes>, ghost written: map<Path, Bytes>)
    requires disk.Valid() && FoldersReady(disk.dirs, folder)
    requires forall r :: r in front ==> r in base && r != [] && !IsUnder(r, folder)
    requires rc in base && rc != [] && !IsUnder(rc, folder)
    requires disk.files == base + CopyRcs(written, RecoveryRoot(folder), front, base)
    requires forall p :: p in CopyRcs(written, RecoveryRoot(folder), front, base) ==> IsUnder(p, folder)
    modifies disk`files
    ensures forall r :: r in front + [rc] ==> r in base && r != [] && !IsUnder(r, folder)
    ensures disk.Valid()
    ensures disk.files == base + CopyRcs(written, RecoveryRoot(folder), front + [rc], base)
    ensures forall p :: p in CopyRcs(written, RecoveryRoot(folder), front + [rc], base) ==> IsUnder(p, folder)
  {
    CopyRcStep(base, written, folder, front, rc);
    EntryInRecoveryRoot(disk.dirs, folder, Name(rc));
    disk.CopyFile(rc, RecoveryRoot(folder) + [Name(rc)]);
  }

  /** `copyfile(init_rc, recovery_root_path / init_rc.name)` for each init script, in order. */
  method CopyInitRcs(disk: Disk, folder: Path, rcs: seq<Path>, ghost base: map<Path, Bytes>, ghost written: map<Path, Bytes>)
    requires disk.Valid() && FoldersReady(disk.dirs, folder)
    requires disk.files == base + written
    requires forall p :: p in written ==> IsUnder(p, folder)
    requires forall r :: r in rcs ==> r in base && r != [] && !IsUnder(r, folder)
    modifies disk`files
    ensures disk.Valid()
    ensures disk.files == base + CopyRcs(written, RecoveryRoot(folder), rcs, base)
  {
    ghost var front: seq<Path> := [];
    for i := 0 to |rcs|
      invariant front == rcs[..i]
      invariant forall r :: r in front ==> r in base && r != [] && !IsUnder(r, folder)
      invariant disk.Valid() && FoldersReady(disk.dirs, folder)
      invariant disk.files == base + CopyRcs(written, RecoveryRoot(folder), front, base)
      invariant forall p :: p in CopyRcs(written, RecoveryRoot(folder), front, base) ==> IsUnder(p, folder)
    {
      var rc := rcs[i];
      assert rc in rcs;
      CopyInitRc(disk, folder, rc, front, base, written);
      TakeNext(rcs, i);
      front := front + [rc];
    }
    assert rcs[..|rcs|] == rcs;
  }
}
