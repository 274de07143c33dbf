# internxt_backup — a Dafny model of the backup core

`internxt_backup.py` is a one-way backup script. It mirrors a local
directory into a folder of an Internxt Drive account through the `internxt`
command-line client. It works in three phases:

1. **Scan.** It walks the source directory, skips subtrees marked with
   `.internxtignore` and files over the upload limit, and records folder
   and file sizes.
2. **Reconcile.** It runs a depth-first traversal of the remote tree,
   starting from a destination folder named after the source directory.
   - It records the remote uuid of every local folder and creates the
     folders that are missing.
   - It records remote files of matching size as existing.
   - When `--allow_delete` is given, it deletes remote files and folders
     with no local counterpart, and remote files whose size differs.
3. **Upload.** It uploads every local file that was not found remotely and
   keeps counts of uploaded, retried and failed files.

Every call to the client goes through `run_cli`. That function retries a
failed call a bounded number of times and pauses geometrically between
attempts. Remote listings are cached per folder uuid. An operation that
changes a folder drops the cached listing it makes stale.

The model is split into these modules:

| module | what it holds |
|---|---|
| `Gateway` | `run_cli`: its attempt loop as a method, proved against a recursive function of the attempts' outcomes. |
| `Sanitize` | `sanitize_command_for_logging`. |
| `Text` | `format_hhmmss`, `normalize_rel_path`, and relative paths as component sequences. |
| `LocalScan` | The scan loop over an abstract directory tree. `os.walk` is a pre-order walk that stops below a marked directory. |
| `Remote` | The items of a `list` reply and the insertion-ordered dictionary that `list_remote_directory` builds from them. It also holds the outcomes of the other client calls, which are inputs. |
| `Decisions` | What the reconciliation does with one remote entry. |
| `Traversal` | The invariant of the depth-first traversal. |
| `Accounting` | The upload loop's counters, as functions of the files and the plan. |
| `Backup` | A class `BackupRun`. Its fields are the script's module-level state: the listing cache, `folder_uuids`, and the reconciliation and upload lists and counters. Its methods are the script's functions and loops, with `modifies` clauses naming exactly what each one changes. |

Remote calls are modelled after their retries. The `Service` datatype
gives, per call:
- for `list`: `None` when the call failed;
- for `create-folder`: the uuid, or "" when it failed;
- for the two deletes: whether they succeeded;
- for `upload-file`: failure, or the number of retries.

The script calls `sys.exit` when a `list` or a folder creation fails. In
the model this is a method returning `ok == false`.

## Model

| member | source | states |
|---|---|---|
| Gateway.Classify | internxt_backup.py:204-245 | An attempt succeeds exactly when its output is a JSON object with `success` True and return code 0, and the result is that object. It stops on a message exactly when `success` is not True and the message contains `stop_on_message`. It raises exactly for a non-object with return code 0 (the assert) or for `stop_on_message` set with no message. |
| Gateway.Examine | internxt_backup.py:204-245 | The checks of one loop body, made in the source's order, give the verdict `Classify` characterises. |
| Gateway.RunCli | internxt_backup.py:188-245 | The attempt loop returns the result and the list of pauses that the `Gateway` function of the outcomes gives. A pause `time.sleep` refuses raises as it does: `OverflowError` beyond 9223372036 seconds either way, where the conversion to nanoseconds overflows, and `ValueError` for any other negative pause. |
| Gateway.AttemptsFromCharacterised | internxt_backup.py:190-245 | The loop makes attempts up to the first one that does not ask for a retry, up to the last allowed one, or up to the first one whose pause `base ** k` `time.sleep` refuses (negative or above 9223372036 seconds). It pauses `base ** k` after each attempt `k` except that last one. It ends as the last attempt says, or, when that attempt wanted a retry it could not sleep for, raises what `time.sleep` raises: `OverflowError` for a pause beyond 9223372036 seconds either way, `ValueError` for any other negative one. |
| Gateway.RetryBound | internxt_backup.py:188-191 | There is no attempt at all exactly when the maximum is below 1. The reported retry count is below the maximum, and equals the number of pauses. Pause `i` is `base ** (i + 1)`, and every pause slept is between 0 and 9223372036 seconds. |
| Gateway.RetriedBefore | internxt_backup.py:204-242 | Every attempt before the last one asked for a retry, and `time.sleep` accepted the pause after it. |
| Gateway.StopsOnRefusedPause | internxt_backup.py:204-242 | A last attempt that asked for a retry without being the last allowed one met a pause `time.sleep` refuses: negative or above 9223372036 seconds. |
| Gateway.NegativePause | internxt_backup.py:204-242 | With `-w` negative, a first attempt that asks for a retry (and is not the last allowed one) makes the call raise before any pause is slept. The exception is `ValueError` exactly when `-w` is at least -9223372036, so never for a non-negative base; below that it is `OverflowError`. |
| Gateway.PowNonNegative | internxt_backup.py:211 | Every power of a non-negative base is non-negative, so a non-negative `-w` never makes `time.sleep` raise `ValueError`. |
| Gateway.SuccessOnlyFromCleanAttempt | internxt_backup.py:243-245 | A returned output comes from the attempt with index `num_retries`. That attempt was an object with `success` True and return code 0, and its flag is False. |
| Gateway.StoppedOnlyOnMessage | internxt_backup.py:225-227 | The third component is True only with no output and only when that attempt's failure message contains `stop_on_message`. |
| Gateway.StopShortCircuits | internxt_backup.py:225-227 | After `k` retryable failures whose pauses `time.sleep` accepts, a failure whose message contains the stop message returns `(None, k, True)` at once, having slept only those `k` pauses. |
| Gateway.PersistentFailure | internxt_backup.py:204-242 | When every attempt fails retryably and `time.sleep` accepts every pause, all `max` attempts are made. The result is `(None, max - 1, False)` after the pauses `base ** 1` … `base ** (max - 1)`. |
| Gateway.ThreeFailuresBaseTwo | internxt_backup.py:204-213 | Three unparseable outputs with base 2 give pauses of 2 and 4 seconds and two retries. |
| Gateway.HugeNegativeBaseOverflows | internxt_backup.py:204-213 | A first unparseable output with base -10^10 and two attempts makes `time.sleep` raise `OverflowError`, not `ValueError`, before any pause is slept. |
| Gateway.HugeBaseOverflows | internxt_backup.py:204-213 | Three unparseable outputs with base 100000 sleep 100000 seconds once, then the pause of 10^10 seconds makes `time.sleep` raise `OverflowError`. |
| Sanitize.MaskArg | internxt_backup.py:173-179 | `-p=…` becomes `-p=<hidden>` and `--password=…` becomes `--password=<hidden>`. Every other argument is unchanged. |
| Sanitize.MaskPasswords | internxt_backup.py:168-181 | The masking loop leaves a list of the same length whose `i`-th element is `MaskArg` of the `i`-th argument. |
| Sanitize.SanitizeCommandForLogging | internxt_backup.py:159-181 | A command shorter than two elements, or whose second element is not `login`, is returned unchanged. Otherwise exactly the password arguments are masked. The length is always kept. |
| Text.FormatHhmmss | internxt_backup.py:120-128 | `None` and non-positive inputs give `00:00:00`. Otherwise the result is digits, ':', two digits, ':', two digits. Minutes and seconds are below 60, and hours·3600 + minutes·60 + seconds is the input. Below 100 hours the result is exactly eight characters, `hh:mm:ss`; a longer hours field has no leading zero, as `{h:02d}` writes it. |
| Text.ClockSplit | internxt_backup.py:124-127 | Whole hours, the remaining minutes and the remaining seconds add back up to the total, with minutes and seconds below 60, and hours below 100 for a total below 360000. |
| Text.ClockReadsBack | internxt_backup.py:124-128 | The three padded fields joined by colons read back as hours, minutes and seconds that add up to the total, in eight characters below 100 hours and with no leading zero in a longer hours field. |
| Text.NormalizeRelPathIsAppend | internxt_backup.py:131-132 | For names the file system can produce, `normalize_rel_path` of a rendered path and a name renders that path extended by the name, the root `.` included. |
| LocalScan.Walk | internxt_backup.py:433-440 | The walk starts with the directory itself. The marker stops the descent. |
| LocalScan.WalkDistinct | internxt_backup.py:433-435 | In a tree with unique names per directory, the walk visits each relative path once. |
| LocalScan.WalkStopsAtMarker | internxt_backup.py:437-440 | `dirs.clear()` works: no walked directory lies strictly below one that holds the ignore marker. |
| LocalScan.ScanFiles | internxt_backup.py:453-473 | The file loop of one directory appends exactly the files within the size limit, in order, to `all_local_files` and `file_sizes`. It returns their total as the folder size. A file whose size cannot be read counts as size 0. |
| LocalScan.Scan | internxt_backup.py:426-476 | The scan loop computes exactly the fold `ScanSteps` of its per-directory step over the walk. |
| LocalScan.ScanTotal | internxt_backup.py:453-476 | `total_local_size` is the sum of the kept files' sizes. |
| LocalScan.ScanFolderKeys | internxt_backup.py:437-475 | `folder_sizes` holds exactly the unmarked walked directories, and `all_local_folders` the same paths. |
| LocalScan.ScanFolderSums | internxt_backup.py:443-476 | Each folder is listed once, and `total_local_size` is the sum of `folder_sizes`. |
| LocalScan.ScanSubdirs | internxt_backup.py:445-451 | A name is in `folder_subdir_map[q]` exactly when `q` joined with it is a recorded folder. |
| LocalScan.ScanFilesOrigin | internxt_backup.py:453-470 | Every kept file comes from a recorded directory's listing and is within the limit. |
| LocalScan.ScanFileSizes | internxt_backup.py:456-472 | Kept files have distinct paths. `file_sizes` has exactly their paths as keys, each with its size. |
| LocalScan.ScanParentsRecorded | internxt_backup.py:443-451 | Every recorded folder except the root has its parent recorded. |
| LocalScan.ScanFilesPlaced | internxt_backup.py:453-470 | Every kept file is within the limit and lives in a recorded folder. |
| LocalScan.ScanConsistent | internxt_backup.py:426-476 | For a real directory tree, all of the above hold together for the finished scan. |
| LocalScan.IgnoredDirExcluded | internxt_backup.py:437-440 | A directory with the marker is not recorded and is not listed as its parent's child. No folder at or below it is recorded, and no file below it is kept. |
| LocalScan.OversizedLeftOut | internxt_backup.py:465-467 | A file over 21474836480 bytes gets no `file_sizes` entry. |
| Remote.Get | internxt_backup.py:370 | `d.get(k)` finds an entry with key `k` when there is one, and `None` only when the key is absent. |
| Remote.PutSpec | internxt_backup.py:348-356 | `d[k] = v` adds `k` to the keys, stores `v`, and drops only the old value of `k`. |
| Remote.DictKeys | internxt_backup.py:345-356 | After a sequence of assignments the dictionary's keys are exactly the assigned keys, and every value is one that was assigned. |
| Remote.DictLastWins | internxt_backup.py:345-356 | The last assignment to a key is the value the dictionary keeps. |
| Remote.PutFolders | internxt_backup.py:345-350 | The folder loop builds the dictionary of the folder assignments. Keys are the `plainName` when there is one, else the `name`. |
| Remote.PutFiles | internxt_backup.py:351-356 | The file loop continues that dictionary with the file assignments, keyed `plainName + "." + type` or `name`. |
| Remote.ListRemoteDirectory | internxt_backup.py:333-358 | The result is the dictionary of all assignments: folders first, then files. |
| Remote.ListingKeepsItems | internxt_backup.py:345-358 | The listing's keys are distinct and are exactly the assigned names. Every listed file survives in it unless a later file has the same name. |
| Decisions.Decide | internxt_backup.py:547-603 | A missing uuid skips the entry. A folder is descended into exactly when it exists locally, and otherwise deleted exactly when deletion is on. A bad size skips a file. A file with no local counterpart is deleted exactly when deletion is on. A file of equal size, or of different size with deletion off, is recorded as existing with its local size. A file of different size with deletion on is deleted with its remote size. No deletion is decided when deletion is off. |
| Decisions.ExistingOnlyForLocalFiles | internxt_backup.py:590-603 | Only local files are recorded as existing, with their local size and a non-empty uuid. |
| Decisions.FolderTypedFileMisread | internxt_backup.py:552 | As written, a file named `notes.folder` is classified as a folder. It is then never recorded as existing: it is left alone, or deleted as a folder when deletion is on. By origin, it is recorded as existing. |
| Decisions.UnchangedFileIsExisting | internxt_backup.py:581-595 | With classification by origin, every listed file of unchanged size is in the listing and is recorded as existing, whatever its extension. |
| Decisions.NoRemovalWhenDeletionOff | internxt_backup.py:564-603 | With deletion off, carrying out the actions of any prefix of a listing leaves `removed_folders`, `removed_files` and the removed sizes as they were. |
| Backup.BackupRun.constructor | internxt_backup.py:412-413 | The state before set-up: `"."` maps to the destination id, and the cache, lists and counters are empty. |
| Backup.BackupRun.GetCachedDirListing | internxt_backup.py:360-364 | `list` is called only on a miss. The call succeeds exactly when the folder's listing is available, and the listing returned is that listing, cached or new. A new one is cached. Nothing else in the cache changes. |
| Backup.BackupRun.GetOrCreateFolder | internxt_backup.py:366-398 | An entry of that name that is a folder is reused. Otherwise the folder is created and the parent's cached listing, and only that, is dropped. `ok` is false exactly when the creation failed. |
| Backup.BackupRun.SetupRoot | internxt_backup.py:412-420 | It succeeds exactly when the destination lists and the source's name is either a listed folder there or created there. It then sets `DEST_ROOT_ID` and `folder_uuids["."]` to the reused or created uuid; on failure neither changes. The destination is listed only on a cache miss. Its listing is cached, and dropped again when the folder had to be created. |
| Backup.BackupRun.DeleteRemoteFolder | internxt_backup.py:502-517 | On success the path is appended to `removed_folders`, `removed_size` is unchanged, and only the folder's own cached listing is dropped. On failure nothing changes. |
| Backup.BackupRun.DeleteRemoteFile | internxt_backup.py:519-527 | On success the path is appended to `removed_files` and its remote size is added to `removed_size`. The cache is not touched. |
| Backup.BackupRun.CarryOut | internxt_backup.py:564-603 | A delete or existing-file action changes the state as `Apply` says. The only cache change is a successful folder delete evicting that folder. |
| Backup.BackupRun.VisitEntry | internxt_backup.py:547-603 | One entry's effects are as `Decide` and `Apply` give them. A descent pushes the child, records it in `existing_folders`, and removes its name from `missing_subfolders`, which always holds it. Only paths with no local folder are added to `removed_folders`. |
| Backup.BackupRun.ReconcileEntries | internxt_backup.py:545-603 | The entry loop's effects on `existing_files`, `existing_size`, the removals and the cache are `ApplyAll` of the entries' actions, in dictionary order. Pushes are distinct local children of the current folder. `missing_subfolders` loses exactly their names. |
| Backup.BackupRun.CreateMissingSubfolders | internxt_backup.py:605-610 | Each missing name gets the uuid `get_or_create_folder` gives and is appended, once, to `created_folders` and the stack. `ok` is false exactly when some creation failed. Only the current folder's listing may be evicted. |
| Backup.BackupRun.VisitFolder | internxt_backup.py:539-610 | A visit records the folder's uuid. Its effects on `existing_files`, `existing_size` and the removals are those of the folder's listed entries (`VisitEffects`). A failed `list` ends the run; with `list` and `create-folder` never failing, the visit succeeds. On success, the subfolders it found and those it created are exactly one push for each local subfolder. |
| Backup.BackupRun.ReconcileFolder | internxt_backup.py:545-610 | The pushes of found subfolders and the effects on the lists and counters are `ApplyAll` of the entries' actions. The visit succeeds exactly when every local subfolder that was not found is reused or created. The found and created pushes together cover each local subfolder once. |
| Backup.BackupRun.PopStep | internxt_backup.py:530-610 | One pop keeps the traversal invariant and decreases the loop's measure. Its effects on the lists and counters are those of `PopEffects` for the popped entry. A local folder is processed once and gains exactly its own `folder_uuids` entry; an orphan changes neither. Nothing is removed when deletion is off. With `list` and `create-folder` never failing, the pop succeeds. |
| Backup.BackupRun.DropOrphan | internxt_backup.py:533-537 | A popped path with no local folder is deleted as `PopEffects` says: only when deletion is on, and then only removed when the delete succeeds. |
| Backup.BackupRun.VisitTop | internxt_backup.py:539-610 | Visiting the local folder on top keeps the traversal invariant with that folder processed, records its uuid, has the effects `VisitEffects` gives, removes nothing when deletion is off, and succeeds when `list` and `create-folder` never fail. |
| Backup.BackupRun.Drain | internxt_backup.py:529-610 | The DFS loop ends with the traversal invariant on an empty stack. The lists and counters are `DfsEffects` of the popped entries, whose local folders are exactly the processed ones, each popped once with its `folder_uuids` entry. It succeeds when `list` and `create-folder` never fail. |
| Backup.BackupRun.Reconcile | internxt_backup.py:499-610 | Every local folder gets a `folder_uuids` entry, and nothing else does. The orphan branch fires at most once, for the root, exactly when the root is no local folder. Each created folder is local and created once. Only folders with no local counterpart are removed, and none when deletion is off. `existing_files`, `existing_size` and the removals are `DfsEffects` of the popped entries, and on success every local folder was popped exactly once. With `list` and `create-folder` never failing, the reconciliation completes. |
| Backup.BackupRun.UploadOne | internxt_backup.py:678-721 | One file is skipped, fails or is uploaded, as `Record` gives it. A success evicts only the destination folder's listing. |
| Backup.BackupRun.UploadNew | internxt_backup.py:696-715 | A failure only increments `num_failed_files`. A success appends the file, adds its size, counts a retried file only when retries > 0, and evicts the destination folder's listing. |
| Backup.BackupRun.UploadFiles | internxt_backup.py:657-721 | The counters and the evicted listings after the loop are `UploadAll` of the plan over `all_local_files`. |
| Backup.ScanFacts | internxt_backup.py:426-476 | A scanned real tree is a folder tree. File paths are distinct and are exactly `file_sizes`' keys. Every file's folder is recorded. |
| Backup.Listed | internxt_backup.py:333-358 | A listing that `list_remote_directory` gives has distinct keys. |
| Backup.DfsRemovesNothingWhenDeletionOff | internxt_backup.py:529-603 | With deletion off, no sequence of pops changes `removed_folders`, `removed_files` or the removed sizes. |
| Backup.VisitRemovesNothingWhenDeletionOff | internxt_backup.py:545-603 | With deletion off, visiting a folder changes none of the removals. |
| Backup.LoggedMeans | internxt_backup.py:530-539 | In the log of popped entries no local folder appears twice, and `folder_uuids` holds the uuid each one was popped with. |
| Backup.Setup | internxt_backup.py:408-420 | A fresh run keeps its state invariants, with empty lists and zero counters. Set-up succeeds exactly when the destination lists and the source's folder is reused or created there. `DEST_ROOT_ID` is then that folder, and `folder_uuids` maps only `"."` to it. |
| Backup.Prepare | internxt_backup.py:408-610 | After set-up and reconciliation, on success every local folder has a uuid. Created folders are local, each created once. Removed folders have no local counterpart, and nothing is removed when deletion is off. With `list` and `create-folder` never failing, the run gets this far. |
| Backup.RunBackup | internxt_backup.py:408-721 | For a whole run: uploaded + failed + `len(existing_files)` = `len(all_local_files)`. Uploaded files are local and not existing. Retried files are bounded by uploads and by total retries. Every file's destination folder has a uuid. Nothing is removed when deletion is off. With `list` and `create-folder` never failing, and no remote call raising inside `run_cli`, the run completes. |
| Accounting.UploadCountsAddUp | internxt_backup.py:678-702 | Uploaded + failed + skipped = the number of files. |
| Accounting.UploadedSizeIsSum | internxt_backup.py:712-713 | `uploaded_size` is the sum of the sizes in `uploaded_files`. |
| Accounting.ExistingNeverUploaded | internxt_backup.py:684-688 | Every uploaded file is an input file that is not existing. |
| Accounting.RetriedBound | internxt_backup.py:704-706 | `num_retried_files` is at most the uploads and at most `num_total_retries`. |
| Accounting.SkippedCount | internxt_backup.py:684-688 | With distinct paths, the number of skips is the number of existing paths. |
| Accounting.SkippedAreExisting | internxt_backup.py:590-688 | When `existing_files` names local files, each with a uuid, the number of skips is `len(existing_files)`. |
| Accounting.UploadSummary | internxt_backup.py:657-721 | The upload totals together, as `RunBackup` states them. |
| Traversal.JoinPushes | internxt_backup.py:545-610 | Found subfolders plus created ones are distinct children, one for each local subfolder name. |
| Traversal.PopOrphan | internxt_backup.py:533-537 | A popped path with no local folder is the root. |
| Traversal.PopVisit | internxt_backup.py:539-610 | Visiting the top and pushing its children keeps the frontier invariant. |
| Traversal.AllVisited | internxt_backup.py:529-610 | When the stack is empty every local folder has been visited. |
| Traversal.DfsStart | internxt_backup.py:499-500 | The initial stack satisfies the traversal invariant. |
| Traversal.DfsOrphan | internxt_backup.py:533-537 | An orphan pop is of the root, is the only one, and keeps the invariant. |
| Traversal.DfsVisit | internxt_backup.py:539-610 | A successful visit keeps the invariant, with created folders still distinct and local. |
| Traversal.DfsCreated | internxt_backup.py:605-610 | Folders created in a visit are new: no earlier creation has their path. |
| Traversal.DfsDone | internxt_backup.py:529 | When the loop ends, every local folder has been processed. The orphan branch fired exactly when the root is no local folder. |

## Left out

- Logging, the progress bar, `format_size`, timing and `folder_upload_stats` are not modelled. The per-folder statistics only feed log output.
- The subprocess call, JSON parsing and the sleeping itself are not modelled. Each attempt's parsed stdout and return code are inputs of `Gateway.RunCli`, and pauses are recorded in a list instead of being slept. The pauses `time.sleep` refuses are modelled: one beyond 9223372036 seconds either way raises `OverflowError` (the conversion to nanoseconds overflows), any other negative one raises `ValueError`.
- The messages of `run_cli` are modelled as strings or absent. A non-string message other than `None` is not distinguished.
- Command construction in `run_cli` and the Windows branch are not modelled. `sanitize_command_for_logging` is modelled on its own.
- Login, argument parsing, signal handling, graceful shutdown and the log set-up are not modelled. They are outside the backup core.
- `normalize_encoding` is taken as the identity. Its effect depends on codecs the model does not have.
- Gateway.RunCli: `stop_on_message in msg` is modelled as substring search on a string message. A missing message with a stop string set raises, as the source does.
- Text.FormatHhmmss: takes whole seconds. The truncation `int(seconds)` of a float is not modelled.
- LocalScan.Scan: the file system is a finite tree of directories with unique names per directory. Symbolic links, errors during the walk, and changes while walking are not modelled. A file whose size cannot be read counts as 0, as in the source.
- Remote item names are assumed to be valid path components, with no '/' in them. The model does not capture what `os.path.join` does with other names; `Text.NormalizeRelPathIsAppend` states the agreement for valid names only.
- A reply item with a missing `uuid` or `type` is modelled as "" for that field. Items with other missing fields (a file with no `type`) are not modelled. The source would raise on those.
- `folder_uuids.get(dirname(rel_path), DEST_ROOT_ID)`: a root-level file's `dirname` is "", not ".". The model uses the root path [] for both. Both give the destination root's uuid, because `folder_uuids["."]` is that uuid.
- Backup.BackupRun.VisitEntry: an entry is treated as a folder when it came from the reply's `folders` array, the corrected rule of the Findings row. The source tests `metadata.get("type") == "folder"` at internxt_backup.py:552, so a file whose extension is `folder` is handled as a folder there, and a `folders` item with no `type` as a file.
- Backup.BackupRun.ReconcileEntries: its effects are `ApplyAll` of actions decided by origin, as for `VisitEntry`, not by the `type` test at internxt_backup.py:552.
- Backup.BackupRun.GetOrCreateFolder: reuses an entry of that name when it came from the `folders` array (`Reuses`). The source reuses it when its `type` is "folder" (internxt_backup.py:371).
- Backup.BackupRun.CreateMissingSubfolders: reuses entries by origin, as `GetOrCreateFolder` does, not by the `type` test at internxt_backup.py:371.
- Backup.BackupRun.SetupRoot: reuses the source's folder in the destination by origin, as `GetOrCreateFolder` does, not by the `type` test at internxt_backup.py:371.
- Backup.BackupRun.ReconcileFolder: classifies entries by origin, through `ReconcileEntries` and `CreateMissingSubfolders`, not by the `type` test.
- Backup.BackupRun.VisitFolder: classifies entries by origin, through `ReconcileFolder`, not by the `type` test.
- Backup.BackupRun.VisitTop: classifies entries by origin, through `VisitFolder`, not by the `type` test.
- Backup.BackupRun.PopStep: classifies entries by origin, through `VisitTop`, not by the `type` test.
- Backup.BackupRun.Drain: classifies entries by origin, through `PopStep`, not by the `type` test.
- Backup.BackupRun.Reconcile: classifies entries by origin, through `Drain`, not by the `type` test.
- Backup.Setup: classifies entries by origin, through `SetupRoot`, not by the `type` test.
- Backup.Prepare: classifies entries by origin, through `Setup` and `Reconcile`, not by the `type` test.
- Backup.RunBackup: classifies entries by origin, through `Prepare`, not by the `type` test.
- Backup.BackupRun.Reconcile: `ok` is tied to its cause in one direction: a `list` and `create-folder` that never fail give `ok`, a failed `list` of a visited folder gives `!ok` (`VisitFolder`), and `ReconcileFolder` states exactly when the creations succeed. An exact condition for the whole DFS is not stated, because it depends on which folders the walk reaches.
- Backup.BackupRun.CreateMissingSubfolders: `missing_subfolders` is iterated in an unspecified order. The model picks any order and proves its properties for all of them.
- Backup.BackupRun.Reconcile: the contents of `existing_folders` are kept exactly, but nothing is proved about them beyond that. The script only uses its length in a log line.
- The `Service` oracles are pure functions. A remote call gives the same outcome every time it is made with the same arguments within one run.
- The `Service` oracles give the outcome of a `run_cli` call that returned. A call whose `run_cli` raises is not modelled: the assert at internxt_backup.py:216 (a non-object reply with return code 0) or a refused `time.sleep` at :211. The backup's calls pass no stop string. No caller catches these, so the script ends there. `Gateway` models each of them on its own.
- Backup.BackupRun.Reconcile: its `Dependable(service) ==> ok` and its effects assume that no `list`, `create-folder` or delete call raises inside `run_cli`.
- Backup.BackupRun.UploadFiles: its counters assume that no `upload-file` call raises inside `run_cli`. One that does, such as a reply `[]` with return code 0, ends the script before that file is counted.
- Backup.Prepare: its `Dependable(service) ==> ok` and its effects assume that no remote call raises inside `run_cli`.
- Backup.RunBackup: its `Dependable(service) ==> ok` and its counts assume that no remote call raises inside `run_cli`. A call that raises ends the script early.

## Findings

| source | as written | input that shows it | evidently intended | confidence | as-written member | corrected member |
|---|---|---|---|---|---|---|
| internxt_backup.py:552 (also :371) | An entry counts as a folder when its `type` field is "folder". A file's `type` is its extension. | A remote file `notes.folder` with the same size as the local file `notes.folder`. | Classify an entry by the reply array it came from (`folders` or `files`). The unchanged file is then recorded as existing and not uploaded again, and is never deleted as if it were a folder. | not executed | Decisions.FolderTypedFileMisread | Decisions.UnchangedFileIsExisting |
