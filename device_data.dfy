/**
 * The records the device-tree generator receives from its collaborators and
 * the ways its construction can fail.
 */
module DeviceData {
  import opened Paths

  /**
   * What unpacking the image reports: up to two ramdisk roots and the
   * partition blobs that were found, each a path or absent (`None`).
   */
  datatype ImageInfo = ImageInfo(
    ramdisk: Option<Path>,
    vendorRamdisk: Option<Path>,
    kernel: Option<Path>,
    dt: Option<Path>,
    dtb: Option<Path>,
    dtbo: Option<Path>)

  /** The identity derived from the chosen `build.prop`. */
  datatype DeviceInfo = DeviceInfo(manufacturer: string, codename: string)

  /** Why `DeviceTree(image)` raises. */
  datatype Error =
    | ImageNotFound       // `FileNotFoundError`: the image is not a file
    | NoRamdisk           // neither ramdisk nor vendor ramdisk is a directory
    | BuildPropNotFound   // no `build.prop` candidate is a file
    | FstabNotFound       // no `recovery.fstab` candidate is a file

  datatype Result<+T> = Success(value: T) | Failure(error: Error)
}
