/** What one run of `processDirectory` guarantees as a whole: each regular
    file is reported exactly once and in snapshot order, its fate depends on
    nothing but its own name and the platform's answers for it, and moved
    files land under distinct names that were free before the run. */
module ScanProcessorFacts {
  import opened Paths
  import opened Disk
  import opened ScanProcessor

  /** What the run-level guarantees rest on: the trimmed source and
      destination are different strings, and the snapshot holds plain,
      pairwise distinct entry names, as `glob` returns them for a source path
      without glob metacharacters. Two spellings of one directory are not
      told apart. */
  predicate WellFormedRun(src: string, dest: string, snapshot: seq<string>) {
    && src != dest
    && (forall i :: 0 <= i < |snapshot| ==> NoSep(snapshot[i]))
    && (forall i, j :: 0 <= i < j < |snapshot| ==> snapshot[i] != snapshot[j])
  }

  /** The outcome of one snapshot entry, decided from the initial set of
      regular files and the platform's answers alone. */
  datatype Fate = NotRegular | Removed | RemoveFailed | Relocated | RelocateFailed

  function FateOf(src: string, o: Oracles, files: set<string>, name: string): Fate {
    var p := Join(src, name);
    if p !in files then NotRegular
    else if !IsPdfName(name) then (if o.unlink(p) then Removed else RemoveFailed)
    else if Relocates(o, p) then Relocated
    else RelocateFailed
  }

  /** Whether the source file of a regular entry is still there afterwards. */
  predicate SourceKept(src: string, o: Oracles, name: string) {
    var p := Join(src, name);
    if !IsPdfName(name) then !o.unlink(p) else !o.rename(p) && (!o.copy(p) || !o.unlink(p))
  }

  /** The names a run reports as deleted, in snapshot order. */
  function DeletedRef(src: string, o: Oracles, files: set<string>, s: seq<string>): seq<string>
    decreases |s|
  {
    if s == [] then []
    else (if FateOf(src, o, files, s[0]) == Removed then [s[0]] else []) + DeletedRef(src, o, files, s[1..])
  }

  /** The entries a run relocates, in snapshot order. */
  function RelocatedRef(src: string, o: Oracles, files: set<string>, s: seq<string>): seq<string>
    decreases |s|
  {
    if s == [] then []
    else (if FateOf(src, o, files, s[0]) == Relocated then [s[0]] else []) + RelocatedRef(src, o, files, s[1..])
  }

  function ErrorOf(src: string, o: Oracles, files: set<string>, name: string): seq<string> {
    match FateOf(src, o, files, name)
    case RemoveFailed => [CouldNotDelete(Join(src, name))]
    case RelocateFailed => [MoveFailed(name)]
    case _ => []
  }

  /** The errors a run reports, in snapshot order. */
  function ErrorsRef(src: string, o: Oracles, files: set<string>, s: seq<string>): seq<string>
    decreases |s|
  {
    if s == [] then [] else ErrorOf(src, o, files, s[0]) + ErrorsRef(src, o, files, s[1..])
  }

  /** The number of snapshot entries that are regular files. */
  function RegularCount(src: string, files: set<string>, s: seq<string>): nat
    decreases |s|
  {
    if s == [] then 0 else (if Join(src, s[0]) in files then 1 else 0) + RegularCount(src, files, s[1..])
  }

  /** `t` is `name` itself or one of its numbered renamings `<stem>_<k>.pdf`, `k >= 1`. */
  ghost predicate DerivedFrom(t: string, name: string) {
    t == name || exists k: nat :: k >= 1 && t == Suffixed(Stem(name), k)
  }

  // ---------------------------------------------------------------------------
  // Facts about single steps

  /** A step on one entry leaves the regular-file status of every other source entry alone. */
  lemma StepKeepsOtherSources(src: string, dest: string, o: Oracles, st: State, name: string, n: string)
    requires src != dest && NoSep(name) && NoSep(n) && n != name
    ensures Join(src, n) in Step(src, dest, o, st, name).fs.files <==> Join(src, n) in st.fs.files
  {
    var p := Join(src, n);
    var r := Step(src, dest, o, st, name);
    if p == Join(src, name) {
      JoinInjective(src, n, name);
    }
    if p in r.fs.files && p !in st.fs.files {
      StepAddsOnlyFreshDestEntries(src, dest, o, st, name, p);
      JoinIsChild(src, n);
      ChildHasOneParent(p, src, dest);
    }
  }

  /** A step never removes an entry of the destination directory. */
  lemma StepKeepsDestEntries(src: string, dest: string, o: Oracles, st: State, name: string, m: string)
    requires src != dest && NoSep(name) && NoSep(m)
    requires Join(dest, m) in st.fs.files
    ensures Join(dest, m) in Step(src, dest, o, st, name).fs.files
  {
    SeparateDirsSeparateEntries(src, dest, name, m);
  }

  /** One step reports what the entry's fate predicts. */
  lemma StepMatchesFate(src: string, dest: string, o: Oracles, st: State, name: string, files0: set<string>)
    requires Join(src, name) in st.fs.files <==> Join(src, name) in files0
    ensures var r := Step(src, dest, o, st, name); var f := FateOf(src, o, files0, name);
      && r.report.deleted == st.report.deleted + (if f == Removed then [name] else [])
      && r.report.errors == st.report.errors + ErrorOf(src, o, files0, name)
      && |r.report.moved| == |st.report.moved| + (if f == Relocated then 1 else 0)
  {
  }

  /** A relocated entry is moved under its own name or a numbered renaming of it. */
  lemma StepMovesDerivedName(src: string, dest: string, o: Oracles, st: State, name: string, files0: set<string>)
    requires Join(src, name) in st.fs.files <==> Join(src, name) in files0
    requires FateOf(src, o, files0, name) == Relocated
    ensures var r := Step(src, dest, o, st, name);
      |r.report.moved| == |st.report.moved| + 1 && DerivedFrom(r.report.moved[|st.report.moved|], name)
  {
    var t := PickTarget(dest, name, Occupied(st.fs));
    if t.counter > 0 {
      assert t.name == Suffixed(Stem(name), t.counter);
    }
  }

  /** The regular-file status the rest of the snapshot sees after the first step is the initial one. */
  lemma StepKeepsAgreement(src: string, dest: string, o: Oracles, st: State, s: seq<string>, files0: set<string>)
    requires WellFormedRun(src, dest, s) && s != []
    requires forall n :: n in s ==> (Join(src, n) in st.fs.files <==> Join(src, n) in files0)
    ensures WellFormedRun(src, dest, s[1..])
    ensures var st1 := Step(src, dest, o, st, s[0]);
      forall n :: n in s[1..] ==> (Join(src, n) in st1.fs.files <==> Join(src, n) in files0)
  {
    WellFormedTail(src, dest, s);
    forall n | n in s[1..]
      ensures Join(src, n) in Step(src, dest, o, st, s[0]).fs.files <==> Join(src, n) in files0
    {
      StepKeepsOtherSources(src, dest, o, st, s[0], n);
    }
  }

  /** Everything the run-level inductions need about the first step of a run:
      the rest of the snapshot is still well formed and still agrees with the
      initial files, and the step reported what the first entry's fate predicts. */
  lemma StepAdvance(src: string, dest: string, o: Oracles, st: State, s: seq<string>, files0: set<string>)
    requires WellFormedRun(src, dest, s) && s != []
    requires forall n :: n in s ==> (Join(src, n) in st.fs.files <==> Join(src, n) in files0)
    ensures WellFormedRun(src, dest, s[1..])
    ensures var st1 := Step(src, dest, o, st, s[0]);
      forall n :: n in s[1..] ==> (Join(src, n) in st1.fs.files <==> Join(src, n) in files0)
    ensures var r := Step(src, dest, o, st, s[0]); var f := FateOf(src, o, files0, s[0]);
      && r.report.deleted == st.report.deleted + (if f == Removed then [s[0]] else [])
      && r.report.errors == st.report.errors + ErrorOf(src, o, files0, s[0])
      && |r.report.moved| == |st.report.moved| + (if f == Relocated then 1 else 0)
  {
    StepKeepsAgreement(src, dest, o, st, s, files0);
    StepMatchesFate(src, dest, o, st, s[0], files0);
  }

  lemma WellFormedTail(src: string, dest: string, s: seq<string>)
    requires WellFormedRun(src, dest, s) && s != []
    ensures WellFormedRun(src, dest, s[1..])
    ensures forall n :: n in s[1..] ==> n != s[0] && NoSep(n)
  {
    forall n | n in s[1..]
      ensures n != s[0]
    {
      var i :| 0 <= i < |s[1..]| && s[1..][i] == n;
      assert s[i + 1] == n;
    }
  }

  // ---------------------------------------------------------------------------
  // Facts about whole runs

  /** A list grown by `here` and then by `rest` has grown by `here + rest`. */
  lemma Regroup(start: seq<string>, here: seq<string>, rest: seq<string>, mid: seq<string>, whole: seq<string>)
    requires mid == start + here && whole == mid + rest
    ensures whole == start + (here + rest)
  {
  }

  /** The deleted list is exactly the entries whose fate is `Removed`, in snapshot order. */
  lemma {:induction false} RunDeletedMatchesFates(src: string, dest: string, o: Oracles, st: State, s: seq<string>, files0: set<string>)
    requires WellFormedRun(src, dest, s)
    requires forall n :: n in s ==> (Join(src, n) in st.fs.files <==> Join(src, n) in files0)
    ensures Run(src, dest, o, st, s).report.deleted == st.report.deleted + DeletedRef(src, o, files0, s)
    decreases |s|
  {
    if s != [] {
      var st1 := Step(src, dest, o, st, s[0]);
      StepAdvance(src, dest, o, st, s, files0);
      RunDeletedMatchesFates(src, dest, o, st1, s[1..], files0);
      var r := Run(src, dest, o, st1, s[1..]);
      var here := if FateOf(src, o, files0, s[0]) == Removed then [s[0]] else [];
      Regroup(st.report.deleted, here, DeletedRef(src, o, files0, s[1..]), st1.report.deleted, r.report.deleted);
    }
  }

  /** The error list is exactly one message per failed entry, in snapshot order. */
  lemma {:induction false} RunErrorsMatchFates(src: string, dest: string, o: Oracles, st: State, s: seq<string>, files0: set<string>)
    requires WellFormedRun(src, dest, s)
    requires forall n :: n in s ==> (Join(src, n) in st.fs.files <==> Join(src, n) in files0)
    ensures Run(src, dest, o, st, s).report.errors == st.report.errors + ErrorsRef(src, o, files0, s)
    decreases |s|
  {
    if s != [] {
      var st1 := Step(src, dest, o, st, s[0]);
      StepAdvance(src, dest, o, st, s, files0);
      RunErrorsMatchFates(src, dest, o, st1, s[1..], files0);
      var r := Run(src, dest, o, st1, s[1..]);
      var here := ErrorOf(src, o, files0, s[0]);
      Regroup(st.report.errors, here, ErrorsRef(src, o, files0, s[1..]), st1.report.errors, r.report.errors);
    }
  }

  /** Pointwise `DerivedFrom` between two sequences of equal length. */
  ghost predicate AllDerived(ts: seq<string>, names: seq<string>)
    decreases |ts|
  {
    |ts| == |names| && (ts == [] || (DerivedFrom(ts[0], names[0]) && AllDerived(ts[1..], names[1..])))
  }

  lemma {:induction false} AllDerivedAt(ts: seq<string>, names: seq<string>, i: nat)
    requires AllDerived(ts, names) && i < |ts|
    ensures |ts| == |names| && DerivedFrom(ts[i], names[i])
    decreases i
  {
    if i > 0 {
      AllDerivedAt(ts[1..], names[1..], i - 1);
    }
  }

  /** The moved names, in order, are the relocated entries' names or their
      numbered renamings. */
  lemma {:induction false} RunMovedFollowSnapshot(src: string, dest: string, o: Oracles, st: State, s: seq<string>, files0: set<string>)
    requires WellFormedRun(src, dest, s)
    requires forall n :: n in s ==> (Join(src, n) in st.fs.files <==> Join(src, n) in files0)
    ensures var r := Run(src, dest, o, st, s);
      AllDerived(r.report.moved[|st.report.moved|..], RelocatedRef(src, o, files0, s))
    decreases |s|
  {
    if s == [] {
      assert Run(src, dest, o, st, s).report.moved[|st.report.moved|..] == [];
    } else {
      var st1 := Step(src, dest, o, st, s[0]);
      StepAdvance(src, dest, o, st, s, files0);
      RunMovedFollowSnapshot(src, dest, o, st1, s[1..], files0);
      var r := Run(src, dest, o, st, s);
      var rel1 := RelocatedRef(src, o, files0, s[1..]);
      var k := |st.report.moved|;
      if FateOf(src, o, files0, s[0]) == Relocated {
        StepMovesDerivedName(src, dest, o, st, s[0], files0);
        var added := r.report.moved[k..];
        assert added[0] == st1.report.moved[k];
        assert added[1..] == r.report.moved[k + 1..];
        assert RelocatedRef(src, o, files0, s) == [s[0]] + rel1;
      } else {
        assert RelocatedRef(src, o, files0, s) == rel1;
      }
    }
  }

  /** After a run, an entry's source file is present exactly when it was a
      regular file and its fate keeps it: a failed unlink, a failed move, or
      a copy whose follow-up unlink failed. */
  lemma {:induction false} RunLeavesSources(src: string, dest: string, o: Oracles, st: State, s: seq<string>)
    requires WellFormedRun(src, dest, s)
    ensures var r := Run(src, dest, o, st, s);
      forall i :: 0 <= i < |s| ==>
        (Join(src, s[i]) in r.fs.files <==> Join(src, s[i]) in st.fs.files && SourceKept(src, o, s[i]))
    decreases |s|
  {
    if s != [] {
      var st1 := Step(src, dest, o, st, s[0]);
      var r := Run(src, dest, o, st, s);
      WellFormedTail(src, dest, s);
      RunLeavesSources(src, dest, o, st1, s[1..]);
      forall n | n in s[1..]
        ensures Join(src, s[0]) != Join(src, n)
      {
        if Join(src, s[0]) == Join(src, n) {
          JoinInjective(src, s[0], n);
        }
      }
      JoinIsChild(src, s[0]);
      if IsChildOf(Join(src, s[0]), dest) {
        ChildHasOneParent(Join(src, s[0]), src, dest);
      }
      RunKeepsUntouched(src, dest, o, st1, s[1..], Join(src, s[0]));
      forall i | 1 <= i < |s|
        ensures Join(src, s[i]) in r.fs.files <==> Join(src, s[i]) in st.fs.files && SourceKept(src, o, s[i])
      {
        assert s[i] == s[1..][i - 1];
        StepKeepsOtherSources(src, dest, o, st, s[0], s[i]);
      }
    }
  }

  /** A path that is neither an entry of the snapshot nor an entry of the
      destination keeps its status through a run. */
  lemma {:induction false} RunKeepsUntouched(src: string, dest: string, o: Oracles, st: State, s: seq<string>, p: string)
    requires WellFormedRun(src, dest, s)
    requires forall n :: n in s ==> p != Join(src, n)
    requires !IsChildOf(p, dest)
    ensures p in Run(src, dest, o, st, s).fs.files <==> p in st.fs.files
    decreases |s|
  {
    if s != [] {
      WellFormedTail(src, dest, s);
      RunKeepsUntouched(src, dest, o, Step(src, dest, o, st, s[0]), s[1..], p);
    }
  }

  /** A run never removes an entry of the destination directory. */
  lemma {:induction false} RunKeepsDestEntries(src: string, dest: string, o: Oracles, st: State, s: seq<string>, m: string)
    requires WellFormedRun(src, dest, s) && NoSep(m)
    requires Join(dest, m) in st.fs.files
    ensures Join(dest, m) in Run(src, dest, o, st, s).fs.files
    decreases |s|
  {
    if s != [] {
      WellFormedTail(src, dest, s);
      StepKeepsDestEntries(src, dest, o, st, s[0], m);
      RunKeepsDestEntries(src, dest, o, Step(src, dest, o, st, s[0]), s[1..], m);
    }
  }

  /** A step moves at most one file, to a plain name that was free in the
      destination and is present there afterwards. */
  lemma StepMovesToFreshName(src: string, dest: string, o: Oracles, st: State, name: string)
    requires NoSep(name)
    ensures var st1 := Step(src, dest, o, st, name); var k := |st.report.moved|;
      && (|st1.report.moved| == k ||
          (&& st1.report.moved == st.report.moved + [st1.report.moved[k]]
           && NoSep(st1.report.moved[k])
           && Join(dest, st1.report.moved[k]) !in Occupied(st.fs)
           && Join(dest, st1.report.moved[k]) in st1.fs.files))
  {
    var st1 := Step(src, dest, o, st, name);
    var k := |st.report.moved|;
    if |st1.report.moved| != k {
      var t := PickTarget(dest, name, Occupied(st.fs)).name;
      assert st1.report.moved == st.report.moved + [t];
    }
  }

  /** The names added to `moved` between `st` and `r` are pairwise distinct,
      were free in the destination at `st`, and are present there at `r`. */
  predicate FreshMoves(dest: string, st: State, r: State) {
    && |st.report.moved| <= |r.report.moved|
    && var added := r.report.moved[|st.report.moved|..];
      && (forall i, j :: 0 <= i < j < |added| ==> added[i] != added[j])
      && (forall m :: m in added ==>
            NoSep(m) && Join(dest, m) !in Occupied(st.fs) && Join(dest, m) in r.fs.files)
  }

  /** The inductive step of `RunMovesToFreshNames`, stated over plain states:
      a first step that moves at most one file to a free name, followed by a
      stretch that keeps that file and only adds fresh names. */
  lemma FreshMovesCompose(src: string, dest: string, name: string, st: State, st1: State, r: State)
    requires src != dest && NoSep(name)
    requires Occupied(st.fs) - {Join(src, name)} <= Occupied(st1.fs)
    requires var k := |st.report.moved|;
      || st1.report.moved == st.report.moved
      || (&& |st1.report.moved| == k + 1
          && st1.report.moved == st.report.moved + [st1.report.moved[k]]
          && NoSep(st1.report.moved[k])
          && Join(dest, st1.report.moved[k]) !in Occupied(st.fs)
          && Join(dest, st1.report.moved[k]) in st1.fs.files
          && Join(dest, st1.report.moved[k]) in r.fs.files)
    requires st1.report.moved <= r.report.moved
    requires FreshMoves(dest, st1, r)
    ensures FreshMoves(dest, st, r)
  {
    var k := |st.report.moved|;
    var added := r.report.moved[k..];
    var added1 := r.report.moved[|st1.report.moved|..];
    forall m | m in added1
      ensures Join(dest, m) !in Occupied(st.fs)
    {
      SeparateDirsSeparateEntries(src, dest, name, m);
    }
    if st1.report.moved != st.report.moved {
      var t := st1.report.moved[k];
      assert added == [t] + added1;
      forall i, j | 0 <= i < j < |added|
        ensures added[i] != added[j]
      {
        assert added[j] == added1[j - 1];
        if i > 0 {
          assert added[i] == added1[i - 1];
        }
      }
    } else {
      assert added == added1;
    }
  }

  /** The names a run adds to `moved` are pairwise distinct, were free in the
      destination when the run started, and are present there when it ends. */
  lemma {:induction false} RunMovesToFreshNames(src: string, dest: string, o: Oracles, st: State, s: seq<string>)
    requires WellFormedRun(src, dest, s)
    ensures FreshMoves(dest, st, Run(src, dest, o, st, s))
    decreases |s|
  {
    if s == [] {
      assert Run(src, dest, o, st, s).report.moved[|st.report.moved|..] == [];
    } else {
      var st1 := Step(src, dest, o, st, s[0]);
      var r := Run(src, dest, o, st1, s[1..]);
      WellFormedTail(src, dest, s);
      RunMovesToFreshNames(src, dest, o, st1, s[1..]);
      StepMovesToFreshName(src, dest, o, st, s[0]);
      if |st1.report.moved| != |st.report.moved| {
        RunKeepsDestEntries(src, dest, o, st1, s[1..], st1.report.moved[|st.report.moved|]);
      }
      FreshMovesCompose(src, dest, s[0], st, st1, r);
    }
  }

  /** The per-entry fates account for every regular entry exactly once. */
  lemma {:induction false} FatesCoverRegularEntries(src: string, o: Oracles, files: set<string>, s: seq<string>)
    ensures |DeletedRef(src, o, files, s)| + |ErrorsRef(src, o, files, s)| + |RelocatedRef(src, o, files, s)|
      == RegularCount(src, files, s)
    decreases |s|
  {
    if s != [] {
      FatesCoverRegularEntries(src, o, files, s[1..]);
    }
  }

  // ---------------------------------------------------------------------------
  // The whole of processDirectory

  /** Once both directory checks pass, every regular file is reported exactly
      once: as deleted, as moved, or as an error, in snapshot order, with the
      fate its own platform answers dictate; non-regular entries leave no trace. */
  lemma ProcessDirectoryAccounting(srcDir: string, destDir: string, fs: FS, snapshot: seq<string>, o: Oracles)
    requires WellFormedRun(Normalize(srcDir), Normalize(destDir), snapshot)
    requires IsDir(fs, Normalize(srcDir))
    requires DestReady(Normalize(destDir), fs, o)
    ensures var r := ProcessDirectory(srcDir, destDir, fs, snapshot, o); var src := Normalize(srcDir);
      var rel := RelocatedRef(src, o, fs.files, snapshot);
      && r.report.deleted == DeletedRef(src, o, fs.files, snapshot)
      && r.report.errors == ErrorsRef(src, o, fs.files, snapshot)
      && |r.report.moved| == |rel|
      && (forall i :: 0 <= i < |rel| ==> DerivedFrom(r.report.moved[i], rel[i]))
      && Entries(r.report) == RegularCount(src, fs.files, snapshot)
  {
    var src := Normalize(srcDir);
    var dest := Normalize(destDir);
    var st0 := State(FS(fs.dirs + {dest}, fs.files), EmptyReport);
    var r := Run(src, dest, o, st0, snapshot);
    assert ProcessDirectory(srcDir, destDir, fs, snapshot, o) == r;
    RunDeletedMatchesFates(src, dest, o, st0, snapshot, fs.files);
    RunErrorsMatchFates(src, dest, o, st0, snapshot, fs.files);
    RunMovedFollowSnapshot(src, dest, o, st0, snapshot, fs.files);
    var rel := RelocatedRef(src, o, fs.files, snapshot);
    assert r.report.moved[0..] == r.report.moved;
    forall i | 0 <= i < |rel|
      ensures DerivedFrom(r.report.moved[i], rel[i])
    {
      AllDerivedAt(r.report.moved, rel, i);
    }
    FatesCoverRegularEntries(src, o, fs.files, snapshot);
  }

  /** Once both directory checks pass, an entry's source file is still there
      afterwards exactly when it was a regular file and its fate keeps it. */
  lemma ProcessDirectoryLeavesSources(srcDir: string, destDir: string, fs: FS, snapshot: seq<string>, o: Oracles)
    requires WellFormedRun(Normalize(srcDir), Normalize(destDir), snapshot)
    requires IsDir(fs, Normalize(srcDir))
    requires DestReady(Normalize(destDir), fs, o)
    ensures var r := ProcessDirectory(srcDir, destDir, fs, snapshot, o); var src := Normalize(srcDir);
      forall i :: 0 <= i < |snapshot| ==>
        (Join(src, snapshot[i]) in r.fs.files <==>
           Join(src, snapshot[i]) in fs.files && SourceKept(src, o, snapshot[i]))
  {
    var src := Normalize(srcDir);
    var dest := Normalize(destDir);
    assert ProcessDirectory(srcDir, destDir, fs, snapshot, o) == Run(src, dest, o, State(FS(fs.dirs + {dest}, fs.files), EmptyReport), snapshot);
    RunLeavesSources(src, dest, o, State(FS(fs.dirs + {dest}, fs.files), EmptyReport), snapshot);
  }

  /** Moved names are pairwise distinct, none of them existed in the
      destination before the run, and each is present there afterwards: a
      move never overwrites an existing file. */
  lemma ProcessDirectoryMovesToFreshNames(srcDir: string, destDir: string, fs: FS, snapshot: seq<string>, o: Oracles)
    requires WellFormedRun(Normalize(srcDir), Normalize(destDir), snapshot)
    ensures var r := ProcessDirectory(srcDir, destDir, fs, snapshot, o); var dest := Normalize(destDir);
      && (forall i, j :: 0 <= i < j < |r.report.moved| ==> r.report.moved[i] != r.report.moved[j])
      && (forall m :: m in r.report.moved ==>
            Join(dest, m) !in Occupied(fs) && Join(dest, m) in r.fs.files)
  {
    var src := Normalize(srcDir);
    var dest := Normalize(destDir);
    if IsDir(fs, src) && DestReady(dest, fs, o) {
      var st0 := State(FS(fs.dirs + {dest}, fs.files), EmptyReport);
      RunMovesToFreshNames(src, dest, o, st0, snapshot);
      assert Occupied(fs) <= Occupied(st0.fs);
      assert Run(src, dest, o, st0, snapshot).report.moved[0..] == Run(src, dest, o, st0, snapshot).report.moved;
    }
  }
}
