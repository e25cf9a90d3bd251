/** `ScansCheckCommand::handle`: resolve the scan directory, run the
    processor, try one upload per moved file, and turn the final error list
    into the process exit status. */
module ScansCheck {
  import opened Paths
  import opened Disk
  import opened ScanProcessor

  datatype Option<T> = None | Some(value: T)

  /** Symfony's `Command::SUCCESS` and `Command::FAILURE`. */
  const SUCCESS: int := 0
  const FAILURE: int := 1

  /** The outcome of `handle`: the report after the upload phase, the
      filesystem it leaves, the local paths handed to the upload, in order,
      and the exit status. */
  datatype CommandRun = CommandRun(report: Report, fs: FS, uploads: seq<string>, exitCode: int)

  function UploadFailed(name: string): string {
    "Upload fehlgeschlagen: " + name
  }

  /** PHP truthiness of the `--scan-dir` option: null, "" and "0" are false. */
  predicate Truthy(option: Option<string>) {
    option.Some? && option.value != "" && option.value != "0"
  }

  /** The working directory: a given `--scan-dir` loses its trailing '/' and
      '\' characters, the configured `scan.in_dir` only its trailing '/'. */
  function ScanDir(scanDirOption: Option<string>, configuredDir: string): (dir: string)
    ensures Truthy(scanDirOption) ==>
      var given := scanDirOption.value;
      && dir <= given
      && (forall i :: |dir| <= i < |given| ==> given[i] == '/' || given[i] == '\\')
      && (dir == [] || (dir[|dir| - 1] != '/' && dir[|dir| - 1] != '\\'))
    ensures !Truthy(scanDirOption) ==>
      && dir <= configuredDir
      && (forall i :: |dir| <= i < |configuredDir| ==> configuredDir[i] == '/')
      && (dir == [] || dir[|dir| - 1] != '/')
  {
    if Truthy(scanDirOption) then RTrim(scanDirOption.value, {'/', '\\'})
    else RTrim(configuredDir, {'/'})
  }

  /** The errors the upload loop appends: one per failed attempt, in the
      order of `moved`. */
  function FailedUploads(destDir: string, moved: seq<string>, uploadOk: string -> bool): seq<string>
    decreases |moved|
  {
    if moved == [] then []
    else
      (if uploadOk(Join(destDir, moved[0])) then [] else [UploadFailed(moved[0])])
      + FailedUploads(destDir, moved[1..], uploadOk)
  }

  lemma {:induction false} FailedUploadsAppend(destDir: string, moved: seq<string>, name: string, uploadOk: string -> bool)
    ensures FailedUploads(destDir, moved + [name], uploadOk) ==
      FailedUploads(destDir, moved, uploadOk)
      + (if uploadOk(Join(destDir, name)) then [] else [UploadFailed(name)])
    decreases |moved|
  {
    if moved != [] {
      assert (moved + [name])[1..] == moved[1..] + [name];
      FailedUploadsAppend(destDir, moved[1..], name, uploadOk);
    }
  }

  /** The upload loop adds no error exactly when every attempt succeeded, and
      the error for a file is there exactly when its attempt failed. */
  lemma {:induction false} FailedUploadsExact(destDir: string, moved: seq<string>, uploadOk: string -> bool)
    ensures FailedUploads(destDir, moved, uploadOk) == [] <==>
      forall i :: 0 <= i < |moved| ==> uploadOk(Join(destDir, moved[i]))
    ensures forall i :: 0 <= i < |moved| && !uploadOk(Join(destDir, moved[i])) ==>
      UploadFailed(moved[i]) in FailedUploads(destDir, moved, uploadOk)
    ensures forall e :: e in FailedUploads(destDir, moved, uploadOk) ==>
      exists i :: 0 <= i < |moved| && !uploadOk(Join(destDir, moved[i])) && e == UploadFailed(moved[i])
    decreases |moved|
  {
    if moved != [] {
      FailedUploadsExact(destDir, moved[1..], uploadOk);
      var rest := FailedUploads(destDir, moved[1..], uploadOk);
      forall e | e in FailedUploads(destDir, moved, uploadOk)
        ensures exists i :: 0 <= i < |moved| && !uploadOk(Join(destDir, moved[i])) && e == UploadFailed(moved[i])
      {
        if e in rest {
          var j :| 0 <= j < |moved[1..]| && !uploadOk(Join(destDir, moved[1..][j])) && e == UploadFailed(moved[1..][j]);
          assert moved[j + 1] == moved[1..][j];
        }
      }
      forall i | 0 <= i < |moved| && !uploadOk(Join(destDir, moved[i]))
        ensures UploadFailed(moved[i]) in FailedUploads(destDir, moved, uploadOk)
      {
        if i > 0 {
          assert moved[i] == moved[1..][i - 1];
        }
      }
    }
  }

  /** The `foreach ($result['moved'] as $filename)` loop: one upload attempt
      per moved name, in order, on `destDir/filename`; a failed attempt
      appends its error and the loop goes on. */
  method UploadMoved(destDir: string, moved: seq<string>, uploadOk: string -> bool, errors: seq<string>)
    returns (uploads: seq<string>, errorsOut: seq<string>)
    ensures |uploads| == |moved|
    ensures forall i :: 0 <= i < |moved| ==> uploads[i] == Join(destDir, moved[i])
    ensures errorsOut == errors + FailedUploads(destDir, moved, uploadOk)
  {
    uploads := [];
    errorsOut := errors;
    var i := 0;
    while i < |moved|
      invariant 0 <= i <= |moved|
      invariant |uploads| == i
      invariant forall j :: 0 <= j < i ==> uploads[j] == Join(destDir, moved[j])
      invariant errorsOut == errors + FailedUploads(destDir, moved[..i], uploadOk)
    {
      var filepath := Join(destDir, moved[i]);
      uploads := uploads + [filepath];
      FailedUploadsAppend(destDir, moved[..i], moved[i], uploadOk);
      assert moved[..i + 1] == moved[..i] + [moved[i]];
      if !uploadOk(filepath) {
        errorsOut := errorsOut + [UploadFailed(moved[i])];
      }
      i := i + 1;
    }
    assert moved[..i] == moved;
  }

  /** `handle()`. The uploads are attempted on `destDir` as given, the
      processor works on its trimmed form. */
  method Handle(
    scanDirOption: Option<string>, configuredDir: string, destDir: string,
    fs: FS, snapshot: seq<string>, o: Oracles, uploadOk: string -> bool)
    returns (c: CommandRun)
    ensures var p := ProcessDirectory(ScanDir(scanDirOption, configuredDir), destDir, fs, snapshot, o);
      && c.report.moved == p.report.moved
      && c.report.deleted == p.report.deleted
      && c.fs == p.fs
      && c.report.errors == p.report.errors + FailedUploads(destDir, p.report.moved, uploadOk)
      && |c.uploads| == |p.report.moved|
      && (forall i :: 0 <= i < |c.uploads| ==> c.uploads[i] == Join(destDir, p.report.moved[i]))
      && (c.exitCode == FAILURE <==>
            |p.report.errors| > 0 || exists i :: 0 <= i < |c.uploads| && !uploadOk(c.uploads[i]))
    ensures c.exitCode == FAILURE <==> c.report.errors != []
    ensures c.exitCode == SUCCESS <==> c.report.errors == []
  {
    var dir := ScanDir(scanDirOption, configuredDir);
    var result := ProcessDirectory(dir, destDir, fs, snapshot, o);
    var uploads, errors := UploadMoved(destDir, result.report.moved, uploadOk, result.report.errors);
    FailedUploadsExact(destDir, result.report.moved, uploadOk);
    var exitCode := if errors != [] then FAILURE else SUCCESS;
    c := CommandRun(result.report.(errors := errors), result.fs, uploads, exitCode);
  }
}
