/** `ScanProcessor::processDirectory`: delete every non-PDF in the source
    directory and move every PDF into the destination directory under a name
    that is free there, reporting each outcome. */
module ScanProcessor {
  import opened Paths
  import opened Disk

  /** The `['moved' => …, 'deleted' => …, 'errors' => …]` array the processor returns. */
  datatype Report = Report(moved: seq<string>, deleted: seq<string>, errors: seq<string>)

  /** The filesystem and the report while the snapshot is walked. */
  datatype State = State(fs: FS, report: Report)

  const EmptyReport := Report([], [], [])

  function SourceMissing(src: string): string {
    "Source directory missing: " + src
  }

  function CannotCreateDest(dest: string): string {
    "Cannot create dest dir: " + dest
  }

  function CouldNotDelete(path: string): string {
    "Could not delete file: " + path
  }

  function MoveFailed(name: string): string {
    "Move failed for " + name
  }

  /** `rtrim($dir, DIRECTORY_SEPARATOR)` */
  function Normalize(dir: string): string {
    RTrim(dir, {Sep})
  }

  /** Total number of entries in a report. */
  function Entries(r: Report): nat {
    |r.moved| + |r.deleted| + |r.errors|
  }

  // ---------------------------------------------------------------------------
  // Choosing the target name

  /** The chosen name inside the destination, and the value `$counter` had
      when the `file_exists` loop stopped (0: the original name was free). */
  datatype Target = Target(name: string, counter: nat)

  /** The suffixed paths `dest/<stem>_j.pdf` for `1 <= j < k`: the candidates
      already rejected when the loop reaches `k`. */
  ghost function Tried(dest: string, stem: string, k: nat): set<string> {
    set j | 1 <= j < k :: Join(dest, Suffixed(stem, j))
  }

  lemma TriedGrows(dest: string, stem: string, taken: set<string>, k: nat)
    requires k >= 1
    requires Join(dest, Suffixed(stem, k)) in taken
    ensures taken - Tried(dest, stem, k + 1) < taken - Tried(dest, stem, k)
  {
    var c := Join(dest, Suffixed(stem, k));
    assert Tried(dest, stem, k + 1) == Tried(dest, stem, k) + {c};
    if c in Tried(dest, stem, k) {
      var j :| 1 <= j < k && c == Join(dest, Suffixed(stem, j));
      JoinInjective(dest, Suffixed(stem, j), Suffixed(stem, k));
      SuffixedInjective(stem, j, k);
    }
    assert c in taken - Tried(dest, stem, k);
  }

  /** The `while (file_exists($target))` loop from `$counter == k`: the first
      counter at or after `k` whose suffixed path is free. Termination holds
      because every rejected candidate is a different member of `taken`. */
  function FreeSuffix(dest: string, stem: string, taken: set<string>, k: nat): (n: nat)
    requires k >= 1
    ensures n >= k
    ensures Join(dest, Suffixed(stem, n)) !in taken
    ensures forall j :: k <= j < n ==> Join(dest, Suffixed(stem, j)) in taken
    decreases taken - Tried(dest, stem, k)
  {
    if Join(dest, Suffixed(stem, k)) !in taken then k
    else
      TriedGrows(dest, stem, taken, k);
      FreeSuffix(dest, stem, taken, k + 1)
  }

  /** The unique target for the PDF `name` when `taken` is what exists now:
      `dest/name` when free, otherwise `dest/<stem>_<n>.pdf` for the smallest
      free `n >= 1`. */
  function PickTarget(dest: string, name: string, taken: set<string>): (t: Target)
    ensures Join(dest, t.name) !in taken
    ensures t.counter == 0 <==> Join(dest, name) !in taken
    ensures t.counter == 0 ==> t.name == name
    ensures t.counter > 0 ==> t.name == Suffixed(Stem(name), t.counter)
    ensures t.counter > 0 ==> t.name[|t.name| - 4..] == ".pdf"
    ensures forall j :: 1 <= j < t.counter ==> Join(dest, Suffixed(Stem(name), j)) in taken
    ensures NoSep(name) ==> NoSep(t.name)
  {
    if Join(dest, name) !in taken then Target(name, 0)
    else
      var n := FreeSuffix(dest, Stem(name), taken, 1);
      StemNoSep(name);
      SuffixedIsPdf(Stem(name), n);
      Target(Suffixed(Stem(name), n), n)
  }

  // ---------------------------------------------------------------------------
  // One entry of the snapshot

  /** The non-PDF branch: `unlink` the file; on success report its name as
      deleted, otherwise report the path in an error and leave the file. */
  function RemoveNonPdf(o: Oracles, st: State, path: string, name: string): (r: State)
    requires path in st.fs.files
    ensures r.fs.dirs == st.fs.dirs
    ensures r.fs.files - {path} == st.fs.files - {path}
    ensures path in r.fs.files <==> !o.unlink(path)
    ensures r.report.moved == st.report.moved
    ensures o.unlink(path) ==>
      r.report.deleted == st.report.deleted + [name] && r.report.errors == st.report.errors
    ensures !o.unlink(path) ==>
      r.report.deleted == st.report.deleted && r.report.errors == st.report.errors + [CouldNotDelete(path)]
  {
    if o.unlink(path) then
      State(FS(st.fs.dirs, st.fs.files - {path}), st.report.(deleted := st.report.deleted + [name]))
    else
      State(st.fs, st.report.(errors := st.report.errors + [CouldNotDelete(path)]))
  }

  /** The relocation of a source file succeeds: by rename, or by the copy fallback. */
  predicate Relocates(o: Oracles, path: string) {
    o.rename(path) || o.copy(path)
  }

  /** The PDF branch: pick the target, then `rename`, falling back to `copy`
      followed by an `unlink` of the source whose outcome is ignored. */
  function MovePdf(dest: string, o: Oracles, st: State, path: string, name: string): (r: State)
    requires path in st.fs.files
    ensures r.fs.dirs == st.fs.dirs
    ensures r.report.deleted == st.report.deleted
    ensures var tp := Join(dest, PickTarget(dest, name, Occupied(st.fs)).name);
      && tp !in Occupied(st.fs)
      && r.fs.files - {path, tp} == st.fs.files - {path, tp}
    ensures Relocates(o, path) ==>
      var t := PickTarget(dest, name, Occupied(st.fs)).name;
      && Join(dest, t) in r.fs.files
      && (path in r.fs.files <==> !o.rename(path) && !o.unlink(path))
      && r.report.moved == st.report.moved + [t]
      && r.report.errors == st.report.errors
    ensures !Relocates(o, path) ==>
      && r.fs == st.fs
      && r.report.moved == st.report.moved
      && r.report.errors == st.report.errors + [MoveFailed(name)]
  {
    var t := PickTarget(dest, name, Occupied(st.fs));
    var target := Join(dest, t.name);
    var moved := st.report.(moved := st.report.moved + [t.name]);
    if o.rename(path) then
      State(FS(st.fs.dirs, st.fs.files - {path} + {target}), moved)
    else if o.copy(path) then
      var left := if o.unlink(path) then {path} else {};
      State(FS(st.fs.dirs, st.fs.files + {target} - left), moved)
    else
      State(st.fs, st.report.(errors := st.report.errors + [MoveFailed(name)]))
  }

  /** One iteration of the `foreach` over the snapshot: entries that are not
      regular files are skipped without a trace; every regular file adds
      exactly one entry to exactly one list. */
  function Step(src: string, dest: string, o: Oracles, st: State, name: string): (r: State)
    ensures r.fs.dirs == st.fs.dirs
    ensures st.fs.files - {Join(src, name)} <= r.fs.files
    ensures st.report.moved <= r.report.moved
    ensures st.report.deleted <= r.report.deleted
    ensures st.report.errors <= r.report.errors
    ensures Join(src, name) !in st.fs.files ==> r == st
    ensures Join(src, name) in st.fs.files ==> Entries(r.report) == Entries(st.report) + 1
  {
    var path := Join(src, name);
    if path !in st.fs.files then st
    else if !IsPdfName(name) then RemoveNonPdf(o, st, path, name)
    else MovePdf(dest, o, st, path, name)
  }

  /** The only file a step can add is a destination entry that did not exist before it. */
  lemma StepAddsOnlyFreshDestEntries(src: string, dest: string, o: Oracles, st: State, name: string, p: string)
    requires NoSep(name)
    requires p in Step(src, dest, o, st, name).fs.files && p !in st.fs.files
    ensures IsChildOf(p, dest) && p !in Occupied(st.fs)
  {
    JoinIsChild(dest, PickTarget(dest, name, Occupied(st.fs)).name);
  }

  /** The `foreach` over the snapshot, in enumeration order. */
  function Run(src: string, dest: string, o: Oracles, st: State, snapshot: seq<string>): (r: State)
    ensures r.fs.dirs == st.fs.dirs
    ensures st.report.moved <= r.report.moved
    ensures st.report.deleted <= r.report.deleted
    ensures st.report.errors <= r.report.errors
    ensures Entries(r.report) <= Entries(st.report) + |snapshot|
    decreases |snapshot|
  {
    if snapshot == [] then st
    else Run(src, dest, o, Step(src, dest, o, st, snapshot[0]), snapshot[1..])
  }

  /** The destination is a directory after the `is_dir`/`mkdir` check: it
      already was one, or nothing occupied its path and `mkdir` succeeded. A
      regular file in its place makes `mkdir` fail and leaves `is_dir` false;
      so does the empty path, which PHP's `mkdir` rejects outright. */
  predicate DestReady(dest: string, fs: FS, o: Oracles) {
    IsDir(fs, dest) || (dest != [] && dest !in fs.files && o.mkdir)
  }

  /** `processDirectory($srcDir, $destDir)`. `snapshot` is the list of entry
      names `glob` returned for the trimmed source directory, in its order. */
  function ProcessDirectory(srcDir: string, destDir: string, fs: FS, snapshot: seq<string>, o: Oracles): (r: State)
    ensures var src := Normalize(srcDir);
      !IsDir(fs, src) ==> r == State(fs, Report([], [], [SourceMissing(src)]))
    ensures var src := Normalize(srcDir); var dest := Normalize(destDir);
      IsDir(fs, src) && !DestReady(dest, fs, o) ==>
        r == State(fs, Report([], [], [CannotCreateDest(dest)]))
    ensures var src := Normalize(srcDir); var dest := Normalize(destDir);
      IsDir(fs, src) && DestReady(dest, fs, o) ==>
        r.fs.dirs == fs.dirs + {dest} && Entries(r.report) <= |snapshot|
  {
    var src := Normalize(srcDir);
    var dest := Normalize(destDir);
    if !IsDir(fs, src) then State(fs, Report([], [], [SourceMissing(src)]))
    else if !DestReady(dest, fs, o) then State(fs, Report([], [], [CannotCreateDest(dest)]))
    else Run(src, dest, o, State(FS(fs.dirs + {dest}, fs.files), EmptyReport), snapshot)
  }
}
