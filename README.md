# Backup chain engine

A Dafny model of the backup engine of `BackupSystem` in `Backup.py`. The
engine keeps a JSON manifest of backup records. Each record has a kind
(`full`, `incremental` or `differential`), a timestamp, a folder path, a
map from relative path to MD5 digest, and an optional parent timestamp.

It offers three strategies:

- **Full** copies every regular file of the source tree into a new
  `full_backup_<ts>` folder and records every digest.
- **Incremental** hashes every file and copies those that are new or
  whose digest differs from the *last* record, of any kind. The copy goes
  into `incr_backup_<ts>`, and the new record's parent is that last record.
- **Differential** does the same against the *most recent full* record,
  found by a reverse search. The copy goes into `diff_backup_<ts>`, and the
  parent is that full record.

An incremental or differential run that finds nothing to copy removes its
folder and appends nothing. Any exception inside a run's `try` block
removes the new folder, appends nothing and re-raises. That includes an
exception raised by the manifest save.

## Files

- `chain.dfy` (module `Chain`) holds the data model and the specification
  of one run of each strategy.
  - The specification is a set of functions (`RunFull`, `RunIncremental`,
    `RunDifferential`, `RunChanged`) from the state on disk to a `Step`:
    the outcome, the manifest file after the run, and the backup folders
    after the run.
  - The world a run sees is passed in:
    - the source tree, as a map from relative path to content together
      with the order in which the recursive walk yields its files;
    - the timestamp;
    - the digest function;
    - a `Faults` value naming which operations raise: creating the backup
      folder, hashing a file, copying a file, or saving the manifest.
- `backup_engine.dfy` (module `BackupEngine`) holds the class
  `BackupSystem`.
  - Its fields are the manifest file and the backup folders, and its
    methods update them in place.
  - Every loop of the three strategies, and the reverse search for the
    last `full` record, is a `while` loop with invariants.
  - Each strategy method is proved to leave exactly the outcome and state
    that its `Run*` function specifies.
- `chain_properties.dfy` (module `ChainProperties`) holds the properties of
  the backup chain, proved about those functions:
  - the record each strategy appends;
  - the reference each one compares against;
  - the parent links;
  - that only a completed run adds a record, and exactly one;
  - that skipped and failed runs leave the manifest and the other folders
    as they were;
  - two concrete scenarios.

## Model

| member | source | states |
|---|---|---|
| `BackupEngine.BackupSystem.LoadManifest` | Backup.py:97-106 | The stored records are returned; a missing, unreadable or unparsable manifest yields an empty list rather than an error |
| `BackupEngine.BackupSystem.SaveManifest` | Backup.py:108-115 | A save that goes through stores exactly the given records. A save that raises is reported to the caller. If it raised on opening, the file is untouched; if the file was truncated and then not fully written, it is left damaged. |
| `ChainProperties.SavedThenLoaded` | Backup.py:97-115 | A load after a save gives back the saved records, the old ones when opening raised, or none when the write was cut short (the save is not atomic) |
| `Chain.CountFiles` | Backup.py:117-119 | On a walk that yields each regular file once, the count equals the number of regular files of the source |
| `Chain.WalkCount` | Backup.py:117-119 | A walk that yields every regular file exactly once is exactly as long as there are regular files |
| `BackupEngine.BackupSystem.CalculateFileHash` | Backup.py:121-127 | The digest is the digest function applied to the file's content; opening a file that raises yields no digest |
| `BackupEngine.BackupSystem.CopyFile` | Backup.py:148-154 | Creating the destination directory and `copy2` (also at lines 216-218 and 296-298): a copy that goes through places the file's content under its relative path in the backup folder and changes nothing else; a copy that raises changes nothing |
| `BackupEngine.BackupSystem.RemoveFolder` | Backup.py:174-178 | `rmtree` of the new folder (also at lines 242, 248, 319 and 325): it deletes that folder and no other |
| `BackupEngine.BackupSystem.CopyEveryFile` | Backup.py:143-159 | The full-backup loop stops at the first walked file whose copy or hash raises. Otherwise it has processed every walked file, its map holds each one's digest, and the folder holds a copy of each; other folders are untouched. |
| `BackupEngine.BackupSystem.FullBackup` | Backup.py:130-178 | The outcome, the manifest and the folders after a full backup are exactly those `RunFull` specifies |
| `Chain.FirstIn` | Backup.py:143-159 | The index at which a loop raises names a walked file whose operation raises |
| `Chain.FirstInFinds` | Backup.py:143-159 | No walked file before that index raises |
| `ChainProperties.DigestsAlongMeaning` | Backup.py:204-222 | The map a backup loop builds holds exactly the walked files selected for copying, each with the digest of its content |
| `ChainProperties.CopiedIntoMeaning` | Backup.py:214-218 | The folder a backup loop fills holds a copy of exactly the walked files selected for copying, plus whatever was in it before |
| `ChainProperties.FullRecordContents` | Backup.py:144-166 | A full record is of kind `full` with no parent. Its files are exactly the regular files of the source, each with the digest of its content. |
| `ChainProperties.FullBackupAppends` | Backup.py:145-172 | A completed full backup appends exactly its record to the earlier records, returns its folder and the number of files of the source, and leaves a copy of every source file in its folder |
| `ChainProperties.NoFaultOnWalk` | Backup.py:143-159 | The walk meets no raising operation exactly when no source file's operation raises |
| `ChainProperties.FullBackupCompletes` | Backup.py:130-178 | A full backup completes if and only if creating the folder, every copy, every hash and the save all go through |
| `ChainProperties.CommitAppends` | Backup.py:167-178 | The save is inside the `try`: if it goes through, the records are stored and the folder kept; if it raises, the folder is removed and the manifest is unchanged, or damaged when it was truncated |
| `ChainProperties.FullAppendsAtMostOne` | Backup.py:130-178 | A full backup never skips. On completion the manifest gains exactly one record and only its folder changes. On failure the new folder is gone, unless creating it was what raised, and the manifest is exactly as it was unless the save itself raised, which leaves it as it was or, after truncating the file, damaged. |
| `BackupEngine.BackupSystem.BackUpIfChanged` | Backup.py:205-222 | One file of the incremental or differential loop raises exactly when its hash raises, or when it changed and its copy raises. Otherwise, when it is new or its digest differs from the reference, it is copied, its digest entered and the counter advanced; when it is unchanged, nothing happens. |
| `BackupEngine.BackupSystem.CopyChangedFiles` | Backup.py:204-222 | The shared loop stops at the first walked file that raises. Otherwise its map holds the digest of exactly the walked files that are new or changed against the reference, the counter equals the map's size, and the folder holds a copy of each. |
| `BackupEngine.BackupSystem.ChangedFilesBackup` | Backup.py:203-249 | The `try` block shared by incremental and differential backups leaves exactly the outcome and state that `RunChanged` specifies |
| `ChainProperties.ChangedRecordContents` | Backup.py:204-233 | The record of an incremental or differential run holds a source file if and only if the file is absent from the reference or its digest differs, each with its digest, and links to the given parent |
| `ChainProperties.NothingChanged` | Backup.py:226-243 | The map of changes is empty if and only if every source file matches the reference |
| `ChainProperties.ChangedBackupAppends` | Backup.py:226-238 | A completed incremental or differential run appends exactly its record, reports as many files as the record holds (at least one), and leaves a copy of each in its folder |
| `ChainProperties.ChangedBackupCompletes` | Backup.py:203-249 | An incremental or differential run completes if and only if no hash raises, no copy of a new or changed file raises, at least one file is new or changed, and the save goes through |
| `ChainProperties.ChangedBackupSkips` | Backup.py:239-243 | The run ends in "no changes" if and only if no hash raises and every source file matches the reference. The folder is then removed and the manifest untouched. |
| `ChainProperties.ChangedAppendsAtMostOne` | Backup.py:203-249 | A completed run appends exactly one record; a skipped one is "no changes" with the manifest untouched and the folder removed; a failed one removes the folder and leaves the manifest exactly as it was unless the save itself raised, which may leave it damaged |
| `BackupEngine.BackupSystem.IncrementalBackup` | Backup.py:180-249 | The outcome, the manifest and the folders after an incremental backup are exactly those `RunIncremental` specifies |
| `ChainProperties.IncrementalNeedsABackup` | Backup.py:185-187 | Incremental on an empty manifest skips, creates no folder and leaves the manifest as it was |
| `ChainProperties.IncrementalBackupAppends` | Backup.py:189-238 | A completed incremental backup compares against the last record, of whatever kind, and appends the record of what changed since it, linked to that record's timestamp |
| `ChainProperties.IncrementalSkipsUnchanged` | Backup.py:213-243 | Without raising operations, incremental skips with "no changes" if and only if every source file matches its digest in the last record |
| `ChainProperties.IncrementalAfterIncremental` | Backup.py:189-238 | Right after an incremental record of `a` alone, an incremental backup of the unchanged tree `a`, `b` copies `b` again and appends a record of `b` alone, linked to that record; it does not skip |
| `ChainProperties.IncrementalAppendsAtMostOne` | Backup.py:180-249 | For an incremental run: only a completed run adds a record, exactly one. A skip for lack of a record creates no folder, and a "no changes" skip removes it; neither touches the manifest. A failed run leaves the manifest exactly as it was unless the save itself raised (then possibly damaged), and removes its folder unless creating it raised. |
| `BackupEngine.FindLastFull` | Backup.py:259-264 | The reverse search returns the index of a `full` record after which no record is `full`, or none when no record is `full` |
| `Chain.LastFull` | Backup.py:259-264 | The differential reference is the `full` record with the highest index, if any |
| `ChainProperties.LastFullAfterAppend` | Backup.py:259-264 | Appending a record moves the differential reference only when the appended record is `full` |
| `BackupEngine.BackupSystem.DifferentialBackup` | Backup.py:251-326 | The outcome, the manifest and the folders after a differential backup are exactly those `RunDifferential` specifies |
| `ChainProperties.DifferentialNeedsAFullBackup` | Backup.py:253-270 | Differential without any `full` record (an empty manifest included) skips, creates no folder and leaves the manifest as it was |
| `ChainProperties.DifferentialBackupAppends` | Backup.py:259-316 | A completed differential backup compares against the most recent `full` record, however many records follow it, and appends the record of what changed since it, linked to its timestamp |
| `ChainProperties.DifferentialSkipsUnchanged` | Backup.py:284-320 | Without raising operations, differential skips with "no changes" if and only if every source file matches its digest in the most recent `full` record |
| `ChainProperties.DifferentialAppendsAtMostOne` | Backup.py:251-326 | For a differential run: only a completed run adds a record, exactly one. A skip for lack of a `full` record creates no folder, and a "no changes" skip removes it; neither touches the manifest. A failed run leaves the manifest exactly as it was unless the save itself raised (then possibly damaged), and removes its folder unless creating it raised. |
| `ChainProperties.RunAppendsAtMostOne` | Backup.py:130-326 | For every strategy, only a completed run adds a record to the manifest: exactly one, keeping the earlier ones and its folder. A skipped run leaves the manifest as it was and removes its folder ("no changes") or never creates it (no reference record). A failed run leaves the manifest exactly as it was unless the save itself raised (then possibly damaged), and removes the new folder unless creating it raised. |
| `ChainProperties.AppendKeepsChain` | Backup.py:161-167 | Appending a record (as at lines 167, 234 and 312) whose own parent link is valid keeps every earlier parent link valid |
| `ChainProperties.RunKeepsChainValid` | Backup.py:130-326 | Every run keeps the manifest a valid chain. Full records have no parent. Incremental records point at the record before them. Differential records point at the most recent `full` record before them. |
| `ChainProperties.IncrementalAfterFullOfSameTree` | Backup.py:130-243 | An incremental backup right after a full backup of an unchanged source skips with "no changes", appends nothing and removes its folder |
| `ChainProperties.FullOfTwoFiles` | Backup.py:130-172 | A full backup of files `a` and `b` into an empty backup root stores one `full` record holding both digests and reports two files |
| `ChainProperties.OneFileChanged` | Backup.py:204-238 | Against a record of `a` and `b` where only `a` changed, the shared block records `a` alone, reports one file, and leaves its folder holding the new content of `a` on top of what it held before |
| `ChainProperties.IncrementalOfOneChange` | Backup.py:180-238 | After a full record of `a` and `b`, an incremental run where `a` changed appends a record of `a` alone whose parent is the full record |
| `ChainProperties.DifferentialOfOneChange` | Backup.py:251-316 | With a full then an incremental record, a differential run compares against the full record, not the more recent incremental one |
| `ChainProperties.DifferentialAfterIncremental` | Backup.py:130-326 | Full backup of `a` and `b`, then `a` changes, then an incremental backup, then a differential backup with nothing further changed. The differential backup records `a` again, against the full record, and completes with one file. |

## Behaviour of the code worth knowing

- **The save is not atomic** (Backup.py:111-112). The manifest is opened
  for writing in place and then serialised.
  - A write that raises leaves a truncated file, which the next load
    silently reads as an empty manifest.
  - The model has a `WriteFault`, after which the manifest is `Damaged`
    (see `SavedThenLoaded`).
- **A failed save removes the new folder** (Backup.py:167-178, 234-249,
  312-326). `_save_manifest` re-raises inside each strategy's `try` block,
  so its `except` branch removes the folder and no orphaned folder is
  left.
- **A differential run after an incremental one records the same change
  again.** Full backup of `a` and `b`; `a` changes; an incremental backup;
  a differential backup with nothing further changed.
  - The differential run compares against the full record, in which `a`
    still has its old digest.
  - So `a` is copied again and a `differential` record of `a` alone is
    appended; the run does not report "no changes"
    (`DifferentialAfterIncremental`).
- **Two incremental backups in a row of an unchanged tree do not skip.**
  An incremental backup compares against the last record's files
  (Backup.py:189-190, 214), and that map holds only the files that record
  copied.
  - Every file missing from it is treated as new and copied again.
  - After a record of `a` alone, an incremental backup of the unchanged
    tree `a`, `b` appends a record of `b` alone
    (`IncrementalAfterIncremental`); the next one would record `a` again.
- **Both differential skips report the same reason** (Backup.py:253-257,
  268-270). Differential on an empty manifest and on a manifest without a
  `full` record both report "No full backup found". In the model both are
  `Skipped(NoFullBackup)`.

## Left out

- The console UI: the menu, the typing effect, the `*_call` wrappers, the
  progress bars and the `progress.update` calls inside the strategies. They
  are presentation only.
- Argument parsing and the interactive `main` loop. They are command-line
  plumbing.
- Logging. The logger setup and the log calls have no effect on the
  manifest or the folders.
- MD5 itself and the 4096-byte chunked read loop of `_calculate_file_hash`.
  - The digest is the class's `md5` field, an arbitrary deterministic
    function of the file's bytes.
  - A hash either yields that digest or raises when the file cannot be
    opened.
  - Hence the hash is idempotent by construction.
- JSON encoding and decoding.
  - A manifest that fails to parse is `Damaged` and loads as empty.
  - A file that parses but lacks the `backups` key, or holds records of
    another shape, is not modelled.
- Metadata preservation by `shutil.copy2`. A copy places the content under
  its relative path.
- The order of `rglob` and its treatment of symbolic links.
  - The walk is a parameter: a sequence of distinct relative paths, one per
    regular file of the source (`SourceTree.WellFormed`).
  - The walk `_count_files` takes is the same walk the loop takes, so the
    source is assumed not to change during a run.
- `datetime.now`. The timestamp is a parameter of each run.
- Failures of `shutil.rmtree`.
  - The cleanup in the `except` branches ignores errors.
  - The model treats removal as always succeeding.
  - It does not model an `rmtree` in the "no changes" branch that raises
    into the `except` branch.
- Two runs in the same second.
  - Creating the folder with `exist_ok` is modelled: an existing folder of
    the same name keeps its content, and a failure removes it whole.
  - No property is stated specifically about such collisions.
- Concurrent runs against one backup root. The code has no locking.
- Any exception other than these few. Only these exceptions are modelled:
  - creating the backup folder, which happens outside the `try` block and
    leaves everything as it was;
  - opening a file to hash it;
  - creating a file's destination directory or copying it;
  - opening or writing the manifest.
- An exception from `_count_files` (Backup.py:139, 197, 279). It would be
  raised after the backup folder exists but outside the `try` block, so it
  would leave an orphaned folder. The model treats the count as never
  raising.
