# Scan inbox processing, modelled in Dafny

The system empties a scanner's inbox directory:

- every regular file that is not a PDF is deleted;
- every PDF is moved into a holding directory under a name that is free there (`name.pdf`, else `stem_1.pdf`, `stem_2.pdf`, …);
- every outcome is reported in three lists: `moved`, `deleted` and `errors`.

The console command `app:scans-check` resolves the inbox directory and runs the processor. It then tries to upload every moved file to the wiki and exits with `FAILURE` when any error was collected, `SUCCESS` otherwise.

The model has these parts:

- `paths.dfy` (module `Paths`): path strings.
  - `rtrim` and the separator.
  - `pathinfo` extension and file name.
  - `strtolower`.
  - The decimal rendering of the counter.
  - The suffixed name `<stem>_<n>.pdf`.
- `disk.dfy` (module `Disk`): the filesystem.
  - The filesystem is two finite sets of full paths: directories and regular files.
  - `file_exists` is their union.
  - The platform calls `mkdir`, `unlink`, `rename` and `copy` are answered by oracles that say whether each call succeeds.
- `scan_processor.dfy` (module `ScanProcessor`): `ScanProcessor::processDirectory`.
  - Both directory checks.
  - The walk over the `glob` snapshot, one `Step` per entry.
  - The non-PDF branch.
  - The unique-target loop.
  - The rename-then-copy move.
- `scan_processor_facts.dfy` (module `ScanProcessorFacts`): what a whole run guarantees.
  - Reference definitions: the fate of each snapshot entry, decided from the initial files and the oracles alone, and the lists those fates predict.
  - Lemmas proving that the run produces exactly those lists.
  - Lemmas proving that moves never overwrite anything.
- `scans_check.dfy` (module `ScansCheck`): `ScansCheckCommand::handle`.
  - Choosing the directory.
  - The upload loop and its error messages.
  - The exit status.
- `scenarios.dfy` (module `Scenarios`): four worked instances.
  - A run over a PDF, a text file and a sub-directory.
  - A regular file at the destination path, which stops the run.
  - A destination of `/`, which trims to the empty path and stops the run.
  - The choice of `report_2.pdf` when `report.pdf` and `report_1.pdf` are taken.

Things the model takes as inputs:

- The `glob` result is a sequence of entry names, in the order `glob` returns them.
- The outcome of each platform call is an oracle.
- The outcome of each upload is an oracle, keyed by the local file path.

The run-level lemmas assume three things, collected in `WellFormedRun`:

- the trimmed source and destination directories differ;
- the entry names contain no `/`;
- the entry names are pairwise distinct.

`glob` on one directory guarantees the last two when the source path holds no glob metacharacters.

Behaviour of the code worth noting:

- The command does not delete the local copy after a successful upload.
- A renamed PDF always gets the lower-case `.pdf` ending, even when the original was `.PDF`.
- There is no ownership or permission step after a move.
- A regular file in place of the destination directory stops the run with "Cannot create dest dir", because `mkdir` fails on an occupied path.
- A directory argument made only of `/` trims to the empty path. `is_dir("")` is always false and `mkdir("")` always fails, so such a source gives "Source directory missing: " and such a destination gives "Cannot create dest dir: ".
- `--scan-dir` loses trailing `/` and `\`.
- The configured `scan.in_dir` loses only trailing `/`.

## Model

| member | source | states |
|---|---|---|
| Paths.RTrim | app/Services/ScanProcessor.php:23-24 | the result is a prefix of the input; everything cut off is a trimmed character; the result does not end in one |
| Paths.LastIndexIsLast | app/Services/ScanProcessor.php:47 | the position found holds a dot and no dot follows it, or there is no dot at all |
| Paths.StemExtensionSplit | app/Services/ScanProcessor.php:47 | file name and extension split a name at its last dot and together give it back; without a dot the extension is empty |
| Paths.PdfTestIsCaseInsensitive | app/Services/ScanProcessor.php:47-50 | a name is treated as a PDF exactly when its extension is `pdf` in any mix of upper and lower case |
| Paths.NoDotIsNotPdf | app/Services/ScanProcessor.php:47-50 | a name without a dot is never treated as a PDF, so it is deleted |
| Paths.DigitsRoundTrip | app/Services/ScanProcessor.php:73 | reading back the decimal rendering of the counter gives the counter |
| Paths.SuffixedInjective | app/Services/ScanProcessor.php:73 | different counters give different candidate names |
| Paths.SuffixedIsPdf | app/Services/ScanProcessor.php:73 | a candidate name ends in `.pdf`, is itself classified as a PDF, and has no separator when its stem has none |
| Paths.JoinInjective | app/Services/ScanProcessor.php:41-42 | two names joined to the same directory give the same path only when they are equal |
| Paths.SeparateDirsSeparateEntries | app/Services/ScanProcessor.php:41-42 | entries of two directories spelled differently never share a path |
| ScanProcessor.FreeSuffix | app/Services/ScanProcessor.php:70-74 | the `file_exists` loop stops: it returns the first counter at or after its start whose path is free, and every counter it passed was taken |
| ScanProcessor.PickTarget | app/Services/ScanProcessor.php:68-74 | the target is free; the original name is kept exactly when it is free; otherwise the name is `<stem>_<n>.pdf` for the smallest free `n >= 1` |
| ScanProcessor.RemoveNonPdf | app/Services/ScanProcessor.php:50-59 | on a successful unlink the file is gone and its name is reported deleted; otherwise it stays and an error names its path; nothing else changes |
| ScanProcessor.MovePdf | app/Services/ScanProcessor.php:67-98 | the target was free; when rename or copy succeeds the target exists, the source is gone unless rename failed and the follow-up unlink failed, and the target name is reported moved; when both fail, nothing changes and one "Move failed" error is added |
| ScanProcessor.Step | app/Services/ScanProcessor.php:42-98 | an entry that is not a regular file leaves no trace; a regular file adds exactly one report entry; no report list loses anything and no other file disappears |
| ScanProcessor.Run | app/Services/ScanProcessor.php:41-99 | the walk never changes the directories, only appends to the report, and adds at most one entry per snapshot entry |
| ScanProcessor.ProcessDirectory | app/Services/ScanProcessor.php:16-39 | a source that is missing or trims to the empty path gives exactly one "Source directory missing" error and no change; a destination that is not a directory and either trims to the empty path, is a regular file, or cannot be made by `mkdir` gives exactly one "Cannot create dest dir" error and no change; otherwise the destination exists afterwards |
| ScanProcessorFacts.StepKeepsOtherSources | app/Services/ScanProcessor.php:50-98 | handling one entry never changes whether another entry of the source is a regular file |
| ScanProcessorFacts.RunDeletedMatchesFates | app/Services/ScanProcessor.php:50-59 | `deleted` is exactly the non-PDF regular files whose unlink succeeded, in snapshot order |
| ScanProcessorFacts.RunErrorsMatchFates | app/Services/ScanProcessor.php:50-98 | `errors` holds exactly one message per failed unlink or failed move, in snapshot order |
| ScanProcessorFacts.RunMovedFollowSnapshot | app/Services/ScanProcessor.php:91-92 | `moved` lines up with the relocated entries in snapshot order, each under its own name or a numbered renaming `<stem>_<k>.pdf` of it with `k >= 1` |
| ScanProcessorFacts.RunLeavesSources | app/Services/ScanProcessor.php:50-98 | an entry's source file survives exactly when it was a regular file whose unlink failed, whose move failed, or whose copy fallback's unlink failed |
| ScanProcessorFacts.RunKeepsDestEntries | app/Services/ScanProcessor.php:69-84 | no destination file is ever removed by a run |
| ScanProcessorFacts.RunMovesToFreshNames | app/Services/ScanProcessor.php:69-92 | the names a run moves to are pairwise distinct, were free before the run, and exist afterwards |
| ScanProcessorFacts.FatesCoverRegularEntries | app/Services/ScanProcessor.php:42-98 | the predicted deleted, error and relocated lists together have one entry per regular file |
| ScanProcessorFacts.ProcessDirectoryAccounting | app/Services/ScanProcessor.php:16-104 | past the directory checks, `deleted` and `errors` are exactly the predicted lists, `moved` matches the relocated entries one to one, each under its own name or a numbered renaming of it, and the report has one entry per regular file |
| ScanProcessorFacts.ProcessDirectoryLeavesSources | app/Services/ScanProcessor.php:16-104 | past the directory checks, each source file is present afterwards exactly when its own platform answers keep it |
| ScanProcessorFacts.ProcessDirectoryMovesToFreshNames | app/Services/ScanProcessor.php:67-98 | a move never overwrites: moved names are distinct, did not exist in the destination before, and exist there afterwards |
| ScansCheck.ScanDir | app/Console/Commands/ScansCheckCommand.php:44-45 | a truthy `--scan-dir` is used without trailing `/` and `\`; otherwise the configured directory is used without trailing `/` |
| ScansCheck.FailedUploadsExact | app/Console/Commands/ScansCheckCommand.php:98-106 | the upload loop adds no error exactly when every upload succeeds; each failed file gets its message and every message comes from a failed file |
| ScansCheck.UploadMoved | app/Console/Commands/ScansCheckCommand.php:70-108 | one upload per moved name, in order, on `destDir/name`; the errors are the processor's followed by one per failed upload |
| ScansCheck.Handle | app/Console/Commands/ScansCheckCommand.php:44-120 | the processor's moved, deleted and filesystem pass through unchanged; the errors are the processor's followed by one per failed upload, in order; the exit status is `FAILURE` exactly when the processor or some upload reported an error, and `SUCCESS` exactly when no error was collected |
| Scenarios.ExampleRun | app/Services/ScanProcessor.php:41-99 | with every call succeeding, a PDF is moved under its own name, a text file is deleted and a sub-directory is skipped |
| Scenarios.ExampleDestIsFile | app/Services/ScanProcessor.php:33-38 | a regular file at the destination path stops the run with one "Cannot create dest dir" error and no change, even when `mkdir` would succeed on a free path |
| Scenarios.ExampleRootDest | app/Services/ScanProcessor.php:24-38 | a destination of `/` trims to the empty path, so the run stops with the single "Cannot create dest dir: " error even when `mkdir` would succeed elsewhere |
| Scenarios.ExampleRenaming | app/Services/ScanProcessor.php:68-74 | with `report.pdf` and `report_1.pdf` taken, `report.pdf` goes to `report_2.pdf` |

## Left out

- Logging and printing: the `$logger` and `$printer` callbacks, and the command's console output and `Log` calls, are side channels with no effect on the result.
- Exceptions thrown by `unlink`, `rename` or `copy` (ScanProcessor.php:60-63 and 86-89): the calls are silenced with `@`, so the model treats every platform failure as a `false` answer. An exception during a move would add two errors ("Error moving …" and "Move failed for …"); that case is not modelled.
- Platform semantics:
  - The oracles for `unlink`, `rename` and `copy` are keyed by the source path only. A failed call leaves the filesystem as it was.
  - `mkdir` is one boolean: whether the destination is a directory after an attempt on a path nothing occupies. This covers a concurrent creator, which the `&& !is_dir` guard accepts. On a path a regular file occupies, the attempt always fails.
  - Parent directories that a recursive `mkdir` creates are not added to the model's directory set.
  - The snapshot is taken to be the literal children of the trimmed source directory. `glob` reads the whole path as a pattern (ScanProcessor.php:41), so a source path holding `*`, `?` or `[` would list entries of other directories, possibly with repeated base names. Glob metacharacters in the source path are not modelled.
  - Directories are identified by their trimmed spelling. `WellFormedRun`'s `src != dest` is string inequality, so it does not exclude an alias such as `/data/./in` or a symlink to the same directory. For such a run the no-overwrite lemmas do not apply: a renamed source file can free a name that a later move then reuses.
- Concurrency: no other process changes the directories during a run.
- ScansCheck.Handle: the ChurchTools API setup and login at ScansCheckCommand.php:38-42 are not modelled. An exception there ends the command before `processDirectory` runs, so no file is deleted or moved; the model always runs the processor.
- The upload: `uploadOk` stands for "no `Exception` escaped the attempt".
  - The CSRF-token request, the URL, the HTTP protocol and `uploadPerCurl` (ScansCheckCommand.php:122-140) are not modelled. `curl_exec` failures do not throw, so they count as success in the code too.
  - A PHP `Error` that `catch (\Exception)` does not catch would abort the command. It is not modelled.
- `ChurchToolsService` and the configuration files: the destination directory (`storage_path('app/private')`) and `scan.in_dir` are inputs to `Handle`. `ChurchToolsService.php` is not part of this model.
- ScanProcessorFacts.RunMovedFollowSnapshot: does not state which counter a renamed file gets. That counter depends on what the earlier moves of the run occupied. `ScanProcessor.PickTarget` gives the exact counter for each single move.
- ScanProcessorFacts.ProcessDirectoryAccounting: does not state the exact counter of a renamed file either, for the same reason.
- The run-level lemmas assume `WellFormedRun` (distinct directories; plain, distinct entry names). A run whose source and destination coincide is outside their scope.
