# twrpdtgen device tree, modelled in Dafny

twrpdtgen generates a TWRP recovery device tree from a recovery (or boot /
vendor_boot) image. Its `DeviceTree` class does two things, both modelled here:

- **Building a `DeviceTree(image)`** locates the artifacts inside the unpacked
  image. It checks that the image is a file, then chooses the ramdisk root:
  the regular ramdisk, and otherwise the vendor ramdisk of a vendor_boot v4
  image. It searches the `build.prop` candidates in priority order: six
  ramdisk-relative paths, then seventeen dump-relative paths under each existing
  parent, grandparent and great-grandparent of the ramdisk root. The first
  candidate that is a file is read. Next comes the first of the three
  `recovery.fstab` candidates that is a file. Finally the init scripts
  (`*.rc` other than `init.rc`) are collected from the ramdisk root,
  `system/etc/init` and `vendor/etc/init`. Each failing check is an `Error`
  value, in the order the constructor makes them.
- **`dump_to_folder(output_path)`**, without the git step, writes the tree to
  `output_path/manufacturer/codename`. It removes the folder if it is a
  directory, then creates it with `prebuilt` and `recovery/root`. It renders
  ten files into it, with `omni_device.mk` written as `omni_<codename>.mk`.
  It gives `extract-files.sh` and `setup-makefiles.sh` mode 0o744 and copies
  each prebuilt image the image has. Last, it writes `recovery.fstab` and
  copies every init script into `recovery/root` by its file name.

The model works on a filesystem value: file paths mapped to bytes, a set of
directories, and the explicitly set modes. A path is a sequence of
components. `Disk` is the mutable filesystem. Its methods are the `rmtree`,
`mkdir(parents=True)`, `write_text`, `copyfile` and `chmod` calls. The steps
of `DeviceTree.DumpToFolder` change a `Disk` in place. Each step is proved
against `Dumped`, a closed form of the whole call.

The candidate lists, the first-match searches and the init-script collection
are methods with loops. Each one is proved equal to a specification function:
`BuildPropCandidates`, `FirstFileIndex` or `RcBlocks`. `Locate` states the
whole outcome of construction, and `Create` is proved to return it.

Modules:

- `Paths`: paths, `Parent` and `Name`, prefixes.
- `FileSystems`: the filesystem value and `Disk`.
- `Locator`: the candidate constants and searches.
- `DeviceData`: the records from the collaborators, and the errors.
- `OutputTree`: the closed form of the dump and its properties.
- `DeviceTrees`: the ramdisk choice, `Locate`, `Create`, the `DeviceTree`
  class and the dump's steps.

Two details of the code fix what the model states:

- The climb for `build.prop` starts at `base_path.parent` (line 44), so the
  directories searched are the parent, grandparent and great-grandparent of
  the ramdisk root, not the root itself.
- Lines 208-209 set `S_IRWXU | S_IRGRP | S_IROTH` on the two scripts, which
  is 0o744.

## Model

| member | source | states |
|---|---|---|
| FileSystems.NothingUnderAbsent | twrpdtgen/device_tree.py:189-190 | when the folder is not a directory, nothing lies under it, so skipping `rmtree` is the same as removing the folder |
| FileSystems.RemoveTreeWellFormed | twrpdtgen/device_tree.py:190 | removing a directory and everything under it leaves a well-formed tree |
| FileSystems.Disk.RmTree | twrpdtgen/device_tree.py:189-190 | every file, directory and mode at or under the folder is gone; everything else is kept |
| FileSystems.Disk.MkdirParents | twrpdtgen/device_tree.py:191-193 | the directory and all its ancestors become directories and nothing else changes; the call is only possible when the directory does not exist yet and no ancestor is a file |
| FileSystems.Disk.WriteText | twrpdtgen/device_tree.py:222 | the file gets exactly the given contents, is created if absent, and needs an existing parent directory |
| FileSystems.Disk.CopyFile | twrpdtgen/device_tree.py:213 | the destination gets the bytes of the source; modes are untouched |
| FileSystems.Disk.Chmod | twrpdtgen/device_tree.py:208 | only the given file's mode changes, to the given value |
| Locator.BuildPropLocationsInOrder | twrpdtgen/device_tree.py:23-32 | `BUILDPROP_LOCATIONS` is `default.prop`, `prop.default`, `system/build.prop`, `vendor/build.prop`, `system/etc/build.prop`, `vendor/etc/build.prop`, in that order |
| Locator.GetExtendedBuildPropLocations | twrpdtgen/device_tree.py:35-89 | the list built by the two appending loops equals `BuildPropCandidates`: the six standard locations, then the seventeen extended ones under each existing directory among parent, grandparent and great-grandparent |
| Locator.ExtendedCandidatesLength | twrpdtgen/device_tree.py:53-87 | each existing dump directory adds exactly 17 candidates, and a directory that does not exist adds none |
| Locator.ExtendedCandidateOrigin | twrpdtgen/device_tree.py:53-87 | every extended candidate is one of the seventeen locations under a dump directory that exists |
| Locator.BuildPropCandidatesShape | twrpdtgen/device_tree.py:23-89 | the list has 6 + 17·k entries, k ≤ 3 being the number of existing ancestors, and opens with the six ramdisk-relative paths in order |
| Locator.BuildPropCandidateOrigin | twrpdtgen/device_tree.py:44-87 | every entry past the sixth is an extended location under the parent, grandparent or great-grandparent, and that directory exists |
| Locator.FirstFileIndex | twrpdtgen/device_tree.py:140-147 | the index found is a file and every earlier candidate is not; there is no index exactly when no candidate is a file |
| Locator.FindFirstFile | twrpdtgen/device_tree.py:140-147 | the loop with `continue` and `break` returns the first index of a candidate that is a file |
| Locator.FirstFileReadsOnlyCandidates | twrpdtgen/device_tree.py:140-147 | the search looks at nothing but the candidates: filesystems that agree on them give the same answer |
| Locator.FirstFileHasPriority | twrpdtgen/device_tree.py:140-147 | when candidate j is a file, the search succeeds at j or at an earlier index |
| Locator.FstabCandidates | twrpdtgen/device_tree.py:91-93 | the three fstab candidates are `etc/recovery.fstab`, `system/etc/recovery.fstab` and `vendor/etc/recovery.fstab` under the ramdisk, in that order |
| Locator.RcEntriesMembership | twrpdtgen/device_tree.py:180-181 | a path is kept exactly when it is an entry of the directory listing whose name ends with `.rc` and is not `init.rc` |
| Locator.InitRcDirs | twrpdtgen/device_tree.py:95-97 | the init-script directories are the ramdisk root, `system/etc/init` and `vendor/etc/init`, in that order |
| Locator.CollectInitRcs | twrpdtgen/device_tree.py:175-181 | the accumulating loop returns the scripts of the three directories, directory by directory, skipping any that is not a directory |
| Locator.InitRcsMembership | twrpdtgen/device_tree.py:175-181 | a path is collected exactly when its directory is one of the three, that directory exists, and its name passes the `.rc` filter |
| Locator.InitRcsExist | twrpdtgen/device_tree.py:175-181 | when `listing` names exactly each directory's entries, a path is collected exactly when it exists, its name passes the `.rc` filter, and its parent is one of the three init directories and exists as a directory |
| DeviceTrees.ChooseRamdisk | twrpdtgen/device_tree.py:121-129 | the regular ramdisk is used whenever it is set and is a directory; otherwise the vendor ramdisk is used when it is a directory; otherwise the result is `NoRamdisk` |
| DeviceTrees.Locate | twrpdtgen/device_tree.py:112-181 | each error happens exactly when its check is the first to fail; on success the parts come from the candidate lists, the device info is read from the chosen `build.prop`, and the init scripts are those of `RcBlocks` |
| DeviceTrees.LocateIn | twrpdtgen/device_tree.py:131-181 | inside the chosen ramdisk, `build.prop` is missing exactly when no candidate is a file, and the fstab is missing exactly when a `build.prop` exists but no fstab candidate is a file; on success every part comes from its candidate list or directory scan |
| DeviceTrees.LocateTakesFirstBuildProp | twrpdtgen/device_tree.py:140-147 | no candidate before the chosen `build.prop` is a file |
| DeviceTrees.LocateFstabPriority | twrpdtgen/device_tree.py:161-167 | `etc/recovery.fstab` wins over the partition copies, and `system` wins over `vendor` |
| DeviceTrees.LocateInitRcs | twrpdtgen/device_tree.py:175-181 | on success, `init_rcs` holds exactly the existing `*.rc` entries other than `init.rc` that sit directly inside the ramdisk root, `system/etc/init` or `vendor/etc/init`, for those of the three that are directories |
| DeviceTrees.VendorBootAccepted | twrpdtgen/device_tree.py:120-170 | with no regular ramdisk, a vendor ramdisk where `default.prop`, `prop.default` and `system/build.prop` are absent, `vendor/build.prop` is a file and `etc/recovery.fstab` is present is accepted, and `vendor/build.prop` is the file read |
| DeviceTrees.Create | twrpdtgen/device_tree.py:106-181 | construction fails exactly when `Locate` does and with the same error; otherwise the tree holds the image, the image info and what `Locate` found |
| DeviceTrees.DeviceTree.constructor | twrpdtgen/device_tree.py:108-181 | the tree's fields are the image, the image info and the located parts |
| DeviceTrees.DeviceTree.DumpToFolder | twrpdtgen/device_tree.py:183-229 | the folder returned is `output/manufacturer/codename`, and the disk afterwards is exactly `Dumped` of the disk before |
| DeviceTrees.PrepareFolders | twrpdtgen/device_tree.py:188-193 | everything that was under the folder is gone, and the folder's ancestors, the folder, `prebuilt`, `recovery` and `recovery/root` are directories |
| DeviceTrees.MakeFolders | twrpdtgen/device_tree.py:191-193 | the three `mkdir(parents=True)` calls add exactly the folder's ancestors and its three sub-folders as directories |
| DeviceTrees.WriteRendered | twrpdtgen/device_tree.py:195-205 | the ten rendered files are written into the folder, `Android.bp` with `//` comments and `omni_device.mk` as `omni_<codename>.mk`; nothing else changes |
| DeviceTrees.SetScriptModes | twrpdtgen/device_tree.py:207-209 | the two scripts get mode 0o744 and no other mode changes |
| DeviceTrees.CopyPrebuilt | twrpdtgen/device_tree.py:212-213 | one artifact is copied into `prebuilt` only when the image has it |
| DeviceTrees.CopyPrebuilts | twrpdtgen/device_tree.py:211-219 | the four optional copies into `prebuilt` are made in order, as `PrebuiltCopies` states |
| DeviceTrees.WriteFstab | twrpdtgen/device_tree.py:221-222 | `recovery.fstab` in the folder holds the formatted fstab |
| DeviceTrees.CopyInitRc | twrpdtgen/device_tree.py:226 | one script is copied to `recovery/root/<name>`, extending the `CopyRcs` of the scripts before it by one step |
| DeviceTrees.CopyInitRcs | twrpdtgen/device_tree.py:224-226 | the loop copies each script to `recovery/root/<name>` in list order, as `CopyRcs` states |
| DeviceTrees.WriteTree | twrpdtgen/device_tree.py:195-226 | once the folders exist, the writes add the rendered files, prebuilt copies, fstab and init scripts on top of the files outside the folder, and set the two script modes |
| OutputTree.CopyRcsKeys | twrpdtgen/device_tree.py:224-226 | copying the init scripts adds exactly one `recovery/root/<name>` per distinct name |
| OutputTree.CopyRcsElsewhere | twrpdtgen/device_tree.py:224-226 | copying the init scripts changes no path other than their targets |
| OutputTree.RenderedKeys | twrpdtgen/device_tree.py:196-205 | the rendered files are exactly the ten names directly in the folder |
| OutputTree.PrebuiltCopiesKeys | twrpdtgen/device_tree.py:211-219 | the prebuilt copies add exactly the `prebuilt` entries of the artifacts that are present |
| OutputTree.ExpectedUnderFolder | twrpdtgen/device_tree.py:184-226 | every path the dump writes lies under the device folder |
| OutputTree.OutputFilesKeys | twrpdtgen/device_tree.py:195-226 | the files written are exactly: the ten rendered files, `recovery.fstab`, the present prebuilt images and one `recovery/root` entry per script name |
| OutputTree.DumpedWellFormed | twrpdtgen/device_tree.py:184-226 | the dumped filesystem is again a well-formed tree: every written file sits in a created directory |
| OutputTree.DumpReplacesFolder | twrpdtgen/device_tree.py:188-226 | under the folder a path holds a file exactly when this run wrote it, so nothing stale survives; outside the folder every file is unchanged |
| OutputTree.PrebuiltCopiesMatch | twrpdtgen/device_tree.py:211-219 | each `prebuilt` entry is present exactly when its artifact is, and then holds the artifact's bytes |
| OutputTree.DumpedRendered | twrpdtgen/device_tree.py:196-205 | after the whole dump each of the ten rendered files is in the folder with exactly the text its template rendered; no later copy overwrites one |
| OutputTree.DumpedFstab | twrpdtgen/device_tree.py:221-222 | after the whole dump `recovery.fstab` in the folder holds the formatted fstab text |
| OutputTree.DumpedPrebuilt | twrpdtgen/device_tree.py:211-219 | after the whole dump, `kernel`, `dt.img`, `dtb.img` and `dtbo.img` in `prebuilt` exist exactly when the image has them, with their bytes; an absent artifact is not an error |
| OutputTree.CopyRcsLastWins | twrpdtgen/device_tree.py:225-226 | among scripts with the same name, the one listed last determines `recovery/root/<name>` |
| OutputTree.DumpedInitRc | twrpdtgen/device_tree.py:224-226 | after the whole dump each init script is in `recovery/root` under its name with its bytes, unless a later script of the same name overwrote it |
| OutputTree.DumpedModes | twrpdtgen/device_tree.py:207-209 | under the folder only the two scripts carry an explicit mode, 0o744; outside the folder no mode changes |
| OutputTree.DumpDeterministic | twrpdtgen/device_tree.py:184-226 | the contents under the folder depend only on the inputs and the bytes of the copied sources, not on what the disk held before |
| OutputTree.DumpedPre | twrpdtgen/device_tree.py:184-226 | the dumped filesystem again meets the dump's precondition, with the same source bytes |
| OutputTree.ReplacedTwice | twrpdtgen/device_tree.py:189-193 | clearing the folder and writing the same files twice gives the same filesystem as doing it once |
| OutputTree.DumpIdempotent | twrpdtgen/device_tree.py:184-226 | dumping again into the result is possible and changes nothing |

## Left out

- Unpacking the image with AIK (`AIKManager.unpackimg`, lines 117-118) and `cleanup` (lines 263-265) are not modelled, because they drive an external tool. `Locate` and `Create` take the filesystem after unpacking and the `ImageInfo` it reports.
- `BuildProp.import_props` and `DeviceInfo` (lines 132, 145, 157) are parsing code in a library that is not part of this model. They become the parameter `readDeviceInfo`, applied to the bytes of the chosen `build.prop`.
- `Fstab(...)` and `Fstab.format(twrp=True)` (lines 166, 222) are not modelled. The tree keeps the bytes of the chosen fstab. `DumpToFolder` writes `formatFstab` of those bytes, where `formatFstab` is a parameter. A malformed fstab that makes the parser raise is not modelled.
- `render_template` (lines 196-205, 253-261) is a template engine that is not part of this model. It becomes the parameter `render`, a function of the template name and comment prefix with the tree's context bound.
- The git step (lines 231-251) is left out: `Repo.init`, the config reads and writes, and add/commit. `DumpToFolder` models `git=False`.
- `datetime.now()` (line 110) and `LOGD` logging are left out. The year is part of the rendering context, and logging has no effect on the result.
- The order of `iterdir` (line 180) is not fixed by the platform. It is the parameter `listing`, in any order. `Locate` and its lemmas hold for every `listing`. `InitRcsExist` and `LocateInitRcs` also require `ListsEntries`: for every existing directory, `listing` names exactly that directory's entries.
- DeviceTrees.DeviceTree.DumpToFolder: requires `DumpPre`, so the paths where the code raises instead are not modelled. `DumpPre` asks for a well-formed tree, no file at the folder or at any of its ancestors (otherwise `mkdir` raises), and every copied source existing outside the folder (otherwise `copyfile` raises, or `rmtree` has deleted it). `rmtree` is assumed to succeed, although the code ignores its errors.
- `ImageNotFound` stands for `FileNotFoundError` and the other three errors for the `AssertionError`s. The model keeps which check failed, not the exception class or its message.
- `manufacturer` and `codename` are each taken as a single path component. A `/` inside either, which would make `Path` nest deeper, is not modelled.
- Symbolic links are not modelled: `copyfile(..., follow_symlinks=True)` copies bytes, and the filesystem has no links.
- File modes are recorded only where `chmod` sets them. The default mode of a newly created file (umask) is not modelled.
