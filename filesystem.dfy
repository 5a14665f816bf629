/**
 * The filesystem the device-tree generator reads and writes: a map from file
 * paths to their contents, a set of directories and the permission bits that
 * were set explicitly with `chmod` (a file without an entry keeps the mode it
 * was created with). `Disk` is the mutable filesystem; its methods are the
 * `pathlib`, `shutil` and `os` calls that `DeviceTree.dump_to_folder` makes.
 */
module FileSystems {
  import opened Paths

  type Bytes = seq<bv8>

  /** Unix permission bits (`st_mode & 0o7777`). */
  type Mode = bv16

  datatype FileSystem = FileSystem(files: map<Path, Bytes>, dirs: set<Path>, modes: map<Path, Mode>)

  predicate IsFile(fs: FileSystem, p: Path) { p in fs.files }

  predicate IsDir(fs: FileSystem, p: Path) { p in fs.dirs }

  /** `p.exists()`: a file or a directory. */
  predicate Exists(fs: FileSystem, p: Path) { p in fs.files || p in fs.dirs }

  /**
   * A tree: the root is a directory, every file and every other directory
   * sits in an existing directory, nothing is both a file and a directory,
   * and only existing files carry an explicit mode.
   */
  predicate WellFormed(fs: FileSystem) {
    && [] in fs.dirs
    && (forall p :: p in fs.files ==> p != [] && p !in fs.dirs && Parent(p) in fs.dirs)
    && (forall d :: d in fs.dirs && d != [] ==> Parent(d) in fs.dirs)
    && fs.modes.Keys <= fs.files.Keys
  }

  /** What is left of a map of paths once everything under `dir` is removed. */
  function Outside<V>(m: map<Path, V>, dir: Path): (r: map<Path, V>)
    ensures forall p :: p in r <==> p in m && !IsUnder(p, dir)
    ensures forall p :: p in r ==> r[p] == m[p]
  {
    map p | p in m && !IsUnder(p, dir) :: m[p]
  }

  function OutsideSet(s: set<Path>, dir: Path): (r: set<Path>)
    ensures forall p :: p in r <==> p in s && !IsUnder(p, dir)
  {
    set p | p in s && !IsUnder(p, dir)
  }

  /** In a tree, anything strictly below `dir` means `dir` is a directory. */
  lemma {:induction false} AncestorIsDir(fs: FileSystem, q: Path, dir: Path)
    requires WellFormed(fs)
    requires q in fs.files || q in fs.dirs
    requires IsUnder(q, dir) && |dir| < |q|
    ensures dir in fs.dirs
    decreases |q|
  {
    var up := Parent(q);
    assert up in fs.dirs;
    assert up[..|dir|] == q[..|dir|];
    if |up| == |dir| {
      assert up == dir;
    } else {
      AncestorIsDir(fs, up, dir);
    }
  }

  /**
   * When `dir` is neither a file nor a directory, nothing lies under it, so
   * removing its subtree changes nothing.
   */
  lemma NothingUnderAbsent(fs: FileSystem, dir: Path)
    requires WellFormed(fs) && dir !in fs.files && dir !in fs.dirs
    ensures Outside(fs.files, dir) == fs.files
    ensures OutsideSet(fs.dirs, dir) == fs.dirs
    ensures Outside(fs.modes, dir) == fs.modes
  {
    forall q | q in fs.files || q in fs.dirs
      ensures !IsUnder(q, dir)
    {
      if IsUnder(q, dir) {
        if |dir| < |q| {
          AncestorIsDir(fs, q, dir);
        } else {
          UnderSameLength(q, dir);
        }
      }
    }
  }

  /** Removing a subtree other than the root keeps the filesystem a tree. */
  lemma RemoveTreeWellFormed(fs: FileSystem, dir: Path)
    requires WellFormed(fs) && dir != []
    ensures WellFormed(FileSystem(Outside(fs.files, dir), OutsideSet(fs.dirs, dir), Outside(fs.modes, dir)))
  {
    assert !IsUnder([], dir);
    forall p | p != [] && !IsUnder(p, dir) ensures !IsUnder(Parent(p), dir) {
      if IsUnder(Parent(p), dir) {
        UnderParent(p, dir);
      }
    }
  }

  /** The filesystem the generator works on, changed in place. */
  class Disk {
    var files: map<Path, Bytes>
    var dirs: set<Path>
    var modes: map<Path, Mode>

    function State(): FileSystem
      reads this
    {
      FileSystem(files, dirs, modes)
    }

    predicate Valid()
      reads this
    {
      WellFormed(State())
    }

    constructor (fs: FileSystem)
      requires WellFormed(fs)
      ensures Valid() && State() == fs
    {
      files, dirs, modes := fs.files, fs.dirs, fs.modes;
    }

    /** `shutil.rmtree(dir)`, assumed to succeed: everything at or under `dir` is gone. */
    method RmTree(dir: Path)
      requires Valid() && dir in dirs && dir != []
      modifies this
      ensures Valid()
      ensures files == Outside(old(files), dir)
      ensures dirs == OutsideSet(old(dirs), dir)
      ensures modes == Outside(old(modes), dir)
    {
      RemoveTreeWellFormed(State(), dir);
      files, dirs, modes := Outside(files, dir), OutsideSet(dirs, dir), Outside(modes, dir);
    }

    /**
     * `dir.mkdir(parents=True)`: creates `dir` and its missing ancestors. It
     * fails when `dir` already exists or when `dir` or an ancestor is a file.
     */
    method MkdirParents(dir: Path)
      requires Valid() && dir !in dirs
      requires forall i :: 0 <= i <= |dir| ==> dir[..i] !in files
      modifies this`dirs
      ensures Valid()
      ensures dirs == old(dirs) + Prefixes(dir)
    {
      forall q | q in Prefixes(dir) ensures q !in files {
        var i :| 0 <= i <= |dir| && q == dir[..i];
      }
      forall q | q in Prefixes(dir) && q != [] ensures Parent(q) in Prefixes(dir) {
        var i :| 0 <= i <= |dir| && q == dir[..i];
        assert Parent(q) == dir[..i - 1];
      }
      assert dir[..0] == [];
      dirs := dirs + Prefixes(dir);
    }

    /**
     * `p.write_text(content)` (and the file a template is rendered to): the
     * parent directory must exist and `p` must not be a directory. An
     * existing file keeps its mode; a new one gets the default mode.
     */
    method WriteText(p: Path, content: Bytes)
      requires Valid() && p != [] && Parent(p) in dirs && p !in dirs
      modifies this`files
      ensures Valid()
      ensures files == old(files)[p := content]
    {
      files := files[p := content];
    }

    /** `shutil.copyfile(src, dst)`: the contents of `src` (links followed), not its mode. */
    method CopyFile(src: Path, dst: Path)
      requires Valid() && src in files
      requires dst != [] && Parent(dst) in dirs && dst !in dirs
      modifies this`files
      ensures Valid()
      ensures files == old(files)[dst := old(files)[src]]
    {
      files := files[dst := files[src]];
    }

    /** `os.chmod(p, mode)` on an existing file. */
    method Chmod(p: Path, mode: Mode)
      requires Valid() && p in files
      modifies this`modes
      ensures Valid()
      ensures modes == old(modes)[p := mode]
    {
      modes := modes[p := mode];
    }
  }
}
