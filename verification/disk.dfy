/** The filesystem as the scan processor sees it: two finite sets of full
    paths, plus oracles that decide whether each platform call succeeds. */
module Disk {

  /** `is_dir($p)` is `p in dirs`; `is_file($p)` is `p in files`. */
  datatype FS = FS(dirs: set<string>, files: set<string>)

  /** `is_dir($p)`. PHP answers false for the empty path whatever the disk holds. */
  predicate IsDir(fs: FS, p: string) {
    p != [] && p in fs.dirs
  }

  /** The paths `file_exists` reports: directories and regular files alike. */
  function Occupied(fs: FS): set<string> {
    fs.dirs + fs.files
  }

  /** Success or failure of `mkdir` on a destination path that nothing
      occupies yet, and of `unlink`, `rename` and `copy` applied to a given
      source path. A failed call leaves the filesystem as it was. */
  datatype Oracles = Oracles(
    mkdir: bool,
    unlink: string -> bool,
    rename: string -> bool,
    copy: string -> bool)
}
