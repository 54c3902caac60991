/**
 * What the backup chain promises: the record each strategy appends, the
 * reference it compares against, the parent it links to, and that a run
 * which does not complete appends nothing.
 */
module ChainProperties {
  import opened Chain

  const NO_FAULTS := Faults(false, {}, {}, NoSaveFault)

  /**
   * Loading after a save yields the saved records when the save went
   * through, the old records when opening the file raised, and none when
   * the file was truncated and then not fully written.
   */
  lemma SavedThenLoaded(f: ManifestFile, backups: seq<Record>, fault: SaveFault)
    ensures fault == NoSaveFault ==> Loaded(Saved(f, backups, fault)) == backups
    ensures fault == OpenFault ==> Loaded(Saved(f, backups, fault)) == Loaded(f)
    ensures fault == WriteFault ==> Loaded(Saved(f, backups, fault)) == []
  {
  }

  /** The digests a backup loop records are those of exactly the walked files in `keep`. */
  lemma {:induction false} DigestsAlongMeaning(md5: Content -> Digest, files: map<Path, Content>, walk: seq<Path>, keep: set<Path>)
    ensures forall p :: p in DigestsAlong(md5, files, walk, keep) <==> p in keep && p in files && p in walk
    ensures forall p :: p in DigestsAlong(md5, files, walk, keep) ==> DigestsAlong(md5, files, walk, keep)[p] == md5(files[p])
  {
    if walk != [] {
      var init := walk[..|walk| - 1];
      DigestsAlongMeaning(md5, files, init, keep);
      assert walk == init + [walk[|walk| - 1]];
    }
  }

  /** A backup loop leaves a copy of each walked file in `keep` and touches nothing else in the folder. */
  lemma {:induction false} CopiedIntoMeaning(folder: map<Path, Content>, files: map<Path, Content>, walk: seq<Path>, keep: set<Path>)
    ensures forall p :: p in CopiedInto(folder, files, walk, keep) <==> p in folder || (p in keep && p in files && p in walk)
    ensures forall p :: p in keep && p in files && p in walk ==> CopiedInto(folder, files, walk, keep)[p] == files[p]
    ensures forall p :: p in folder && !(p in keep && p in files && p in walk) ==> CopiedInto(folder, files, walk, keep)[p] == folder[p]
  {
    if walk != [] {
      var init := walk[..|walk| - 1];
      CopiedIntoMeaning(folder, files, init, keep);
      assert walk == init + [walk[|walk| - 1]];
    }
  }

  /** The record of a full backup holds one digest per regular file of the source, and no parent. */
  lemma FullRecordContents(md5: Content -> Digest, backupDir: string, src: SourceTree, ts: Timestamp)
    requires src.WellFormed()
    ensures var r := FullRecord(md5, backupDir, src, ts);
      && r.kind == Full
      && r.timestamp == ts
      && r.parent == None
      && r.files.Keys == src.files.Keys
      && (forall p :: p in src.files ==> r.files[p] == md5(src.files[p]))
  {
    DigestsAlongMeaning(md5, src.files, src.walk, src.files.Keys);
  }

  /**
   * A completed full backup appends exactly its record to the manifest,
   * reports as many files as the source holds, and leaves a folder with a
   * copy of every source file.
   */
  lemma FullBackupAppends(md5: Content -> Digest, backupDir: string, m: ManifestFile, folders: Folders,
                          src: SourceTree, ts: Timestamp, faults: Faults)
    requires src.WellFormed()
    ensures var s := RunFull(md5, backupDir, m, folders, src, ts, faults);
      var name := FULL_PREFIX + ts;
      s.outcome.Completed? ==>
        && s.manifest == Stored(Loaded(m) + [FullRecord(md5, backupDir, src, ts)])
        && s.outcome == Completed(FolderPath(backupDir, name), |src.files|)
        && name in s.folders
        && (forall p :: p in src.files ==> p in s.folders[name] && s.folders[name][p] == src.files[p])
  {
    var s := RunFull(md5, backupDir, m, folders, src, ts, faults);
    var name := FULL_PREFIX + ts;
    if s.outcome.Completed? {
      var folder := CopiedInto(Existing(folders, name), src.files, src.walk, src.files.Keys);
      assert s == Step(Completed(FolderPath(backupDir, name), |src.walk|),
                       Stored(Loaded(m) + [FullRecord(md5, backupDir, src, ts)]), folders[name := folder]);
      WalkCount(src);
      CopiedIntoMeaning(Existing(folders, name), src.files, src.walk, src.files.Keys);
    }
  }

  /** The walk meets no path of `bad` exactly when no source file is in `bad`. */
  lemma NoFaultOnWalk(src: SourceTree, bad: set<Path>)
    requires src.WellFormed()
    ensures FirstIn(src.walk, bad).None? <==> forall p :: p in src.files ==> p !in bad
  {
    if FirstIn(src.walk, bad).None? {
      forall p | p in src.files ensures p !in bad {
        var j :| 0 <= j < |src.walk| && src.walk[j] == p;
        if p in bad {
          FirstInFinds(src.walk, bad, j);
        }
      }
    }
  }

  /** The record of changes is empty exactly when every source file matches `reference`. */
  lemma NothingChanged(md5: Content -> Digest, backupDir: string, src: SourceTree, ts: Timestamp,
                       kind: Kind, name: string, reference: map<Path, Digest>, parent: Timestamp)
    requires src.WellFormed()
    ensures var r := ChangedRecord(md5, backupDir, src, ts, kind, name, reference, parent);
      && (|r.files| == 0 <==> forall p :: p in src.files ==> !Changed(reference, p, md5(src.files[p])))
      && (|r.files| == 0 ==> ChangedPaths(md5, reference, src.files) == {})
  {
    var r := ChangedRecord(md5, backupDir, src, ts, kind, name, reference, parent);
    ChangedRecordContents(md5, backupDir, src, ts, kind, name, reference, parent);
    if |r.files| != 0 {
      var p :| p in r.files;
    }
  }

  /** A full backup completes exactly when no mkdir, copy, hash or save raises. */
  lemma FullBackupCompletes(md5: Content -> Digest, backupDir: string, m: ManifestFile, folders: Folders,
                            src: SourceTree, ts: Timestamp, faults: Faults)
    requires src.WellFormed()
    ensures RunFull(md5, backupDir, m, folders, src, ts, faults).outcome.Completed?
        <==> && !faults.mkdirFails
             && (forall p :: p in src.files ==> p !in faults.copyFails && p !in faults.hashFails)
             && faults.save == NoSaveFault
  {
    NoFaultOnWalk(src, faults.copyFails + faults.hashFails);
  }

  /**
   * The record of an incremental or differential backup holds the digest
   * of exactly those source files that are new or changed against
   * `reference`, and links to `parent`.
   */
  lemma ChangedRecordContents(md5: Content -> Digest, backupDir: string, src: SourceTree, ts: Timestamp,
                              kind: Kind, name: string, reference: map<Path, Digest>, parent: Timestamp)
    requires src.WellFormed()
    ensures var r := ChangedRecord(md5, backupDir, src, ts, kind, name, reference, parent);
      && r.kind == kind
      && r.timestamp == ts
      && r.parent == Some(parent)
      && (forall p :: p in r.files <==> p in src.files && Changed(reference, p, md5(src.files[p])))
      && (forall p :: p in r.files ==> r.files[p] == md5(src.files[p]))
  {
    DigestsAlongMeaning(md5, src.files, src.walk, ChangedPaths(md5, reference, src.files));
  }

  /**
   * What the incremental and differential strategies share: a completed run
   * appends exactly its record, reports how many files it holds (at least
   * one), and leaves a folder with a copy of each of them.
   */
  lemma ChangedBackupAppends(md5: Content -> Digest, backupDir: string, m: ManifestFile, folders: Folders,
                             src: SourceTree, ts: Timestamp, faults: Faults,
                             kind: Kind, name: string, reference: map<Path, Digest>, parent: Timestamp)
    requires src.WellFormed()
    ensures var s := RunChanged(md5, backupDir, m, folders, src, ts, faults, kind, name, reference, parent);
      var r := ChangedRecord(md5, backupDir, src, ts, kind, name, reference, parent);
      s.outcome.Completed? ==>
        && s.manifest == Stored(Loaded(m) + [r])
        && s.outcome == Completed(FolderPath(backupDir, name), |r.files|)
        && |r.files| > 0
        && name in s.folders
        && (forall p :: p in r.files ==> p in src.files && p in s.folders[name] && s.folders[name][p] == src.files[p])
  {
    var s := RunChanged(md5, backupDir, m, folders, src, ts, faults, kind, name, reference, parent);
    if s.outcome.Completed? {
      var r := ChangedRecord(md5, backupDir, src, ts, kind, name, reference, parent);
      var folder := CopiedInto(Existing(folders, name), src.files, src.walk, ChangedPaths(md5, reference, src.files));
      assert s == Step(Completed(r.path, |r.files|), Stored(Loaded(m) + [r]), folders[name := folder]);
      DigestsAlongMeaning(md5, src.files, src.walk, ChangedPaths(md5, reference, src.files));
      CopiedIntoMeaning(Existing(folders, name), src.files, src.walk, ChangedPaths(md5, reference, src.files));
    }
  }

  /**
   * A run of the shared incremental/differential block completes exactly
   * when no hash raises, no copy of a new or changed file raises, at least
   * one file is new or changed, and the save goes through.
   */
  lemma ChangedBackupCompletes(md5: Content -> Digest, backupDir: string, m: ManifestFile, folders: Folders,
                               src: SourceTree, ts: Timestamp, faults: Faults,
                               kind: Kind, name: string, reference: map<Path, Digest>, parent: Timestamp)
    requires src.WellFormed()
    ensures RunChanged(md5, backupDir, m, folders, src, ts, faults, kind, name, reference, parent).outcome.Completed?
        <==> && (forall p :: p in src.files ==> p !in faults.hashFails)
             && (forall p :: p in ChangedPaths(md5, reference, src.files) ==> p !in faults.copyFails)
             && ChangedPaths(md5, reference, src.files) != {}
             && faults.save == NoSaveFault
  {
    var changed := ChangedPaths(md5, reference, src.files);
    NoFaultOnWalk(src, faults.hashFails + faults.copyFails * changed);
    NothingChanged(md5, backupDir, src, ts, kind, name, reference, parent);
    var r := ChangedRecord(md5, backupDir, src, ts, kind, name, reference, parent);
    var noFault := forall p :: p in src.files ==> p !in faults.hashFails + faults.copyFails * changed;
    assert noFault <==> && (forall p :: p in src.files ==> p !in faults.hashFails)
                        && (forall p :: p in changed ==> p !in faults.copyFails);
    assert |r.files| == 0 <==> changed == {} by {
      if |r.files| != 0 {
        var p :| p in r.files;
        ChangedRecordContents(md5, backupDir, src, ts, kind, name, reference, parent);
        assert p in changed;
      }
    }
  }

  /**
   * A run of the shared incremental/differential block ends in "no
   * changes" exactly when no hash raises and every walked file matches
   * `reference`; the folder is then removed and the manifest untouched.
   */
  lemma ChangedBackupSkips(md5: Content -> Digest, backupDir: string, m: ManifestFile, folders: Folders,
                           src: SourceTree, ts: Timestamp, faults: Faults,
                           kind: Kind, name: string, reference: map<Path, Digest>, parent: Timestamp)
    requires src.WellFormed()
    ensures var s := RunChanged(md5, backupDir, m, folders, src, ts, faults, kind, name, reference, parent);
      && (s.outcome == Skipped(NoChanges)
          <==> && (forall p :: p in src.files ==> p !in faults.hashFails)
               && (forall p :: p in src.files ==> !Changed(reference, p, md5(src.files[p]))))
      && (s.outcome == Skipped(NoChanges) ==> s.manifest == m && s.folders == folders - {name})
  {
    NoFaultOnWalk(src, faults.hashFails + faults.copyFails * ChangedPaths(md5, reference, src.files));
    NothingChanged(md5, backupDir, src, ts, kind, name, reference, parent);
  }

  /** Incremental on an empty manifest skips without creating a folder or touching the manifest. */
  lemma IncrementalNeedsABackup(md5: Content -> Digest, backupDir: string, m: ManifestFile, folders: Folders,
                                src: SourceTree, ts: Timestamp, faults: Faults)
    requires Loaded(m) == []
    ensures RunIncremental(md5, backupDir, m, folders, src, ts, faults) == Step(Skipped(NoBackup), m, folders)
  {
  }

  /**
   * A completed incremental backup compares against the last record, of
   * whatever kind, and appends exactly the record of what changed since
   * it, linked to that record's timestamp.
   */
  lemma IncrementalBackupAppends(md5: Content -> Digest, backupDir: string, m: ManifestFile, folders: Folders,
                                 src: SourceTree, ts: Timestamp, faults: Faults)
    requires src.WellFormed()
    ensures var s := RunIncremental(md5, backupDir, m, folders, src, ts, faults);
      s.outcome.Completed? ==>
        && Loaded(m) != []
        && var last := Loaded(m)[|Loaded(m)| - 1];
        && var r := ChangedRecord(md5, backupDir, src, ts, Incremental, INCREMENTAL_PREFIX + ts, last.files, last.timestamp);
        && s.manifest == Stored(Loaded(m) + [r])
        && s.outcome.count == |r.files| > 0
  {
    var backups := Loaded(m);
    if |backups| != 0 && !faults.mkdirFails {
      var name := INCREMENTAL_PREFIX + ts;
      var last := backups[|backups| - 1];
      var created := folders[name := Existing(folders, name)];
      assert RunIncremental(md5, backupDir, m, folders, src, ts, faults)
          == RunChanged(md5, backupDir, m, created, src, ts, faults, Incremental, name, last.files, last.timestamp);
      ChangedBackupAppends(md5, backupDir, m, created, src, ts, faults, Incremental, name, last.files, last.timestamp);
    }
  }

  /**
   * When neither the folder's creation nor any hash raises, incremental
   * skips with "no changes" exactly when every source file matches its
   * digest in the last record.
   */
  lemma IncrementalSkipsUnchanged(md5: Content -> Digest, backupDir: string, m: ManifestFile, folders: Folders,
                                  src: SourceTree, ts: Timestamp, faults: Faults)
    requires src.WellFormed()
    requires Loaded(m) != [] && !faults.mkdirFails
    requires forall p :: p in src.files ==> p !in faults.hashFails
    ensures var last := Loaded(m)[|Loaded(m)| - 1];
      var s := RunIncremental(md5, backupDir, m, folders, src, ts, faults);
      (s.outcome == Skipped(NoChanges) <==>
         forall p :: p in src.files ==> !Changed(last.files, p, md5(src.files[p])))
  {
    var name := INCREMENTAL_PREFIX + ts;
    var last := Loaded(m)[|Loaded(m)| - 1];
    ChangedBackupSkips(md5, backupDir, m, folders[name := Existing(folders, name)], src, ts, faults,
                       Incremental, name, last.files, last.timestamp);
  }

  /**
   * When neither the folder's creation nor any hash raises, differential
   * skips with "no changes" exactly when every source file matches its
   * digest in the most recent `full` record.
   */
  lemma DifferentialSkipsUnchanged(md5: Content -> Digest, backupDir: string, m: ManifestFile, folders: Folders,
                                   src: SourceTree, ts: Timestamp, faults: Faults)
    requires src.WellFormed()
    requires LastFull(Loaded(m)).Some? && !faults.mkdirFails
    requires forall p :: p in src.files ==> p !in faults.hashFails
    ensures var full := Loaded(m)[LastFull(Loaded(m)).value];
      var s := RunDifferential(md5, backupDir, m, folders, src, ts, faults);
      (s.outcome == Skipped(NoChanges) <==>
         forall p :: p in src.files ==> !Changed(full.files, p, md5(src.files[p])))
  {
    var name := DIFFERENTIAL_PREFIX + ts;
    var full := Loaded(m)[LastFull(Loaded(m)).value];
    ChangedBackupSkips(md5, backupDir, m, folders[name := Existing(folders, name)], src, ts, faults,
                       Differential, name, full.files, full.timestamp);
  }

  /** Differential without any `full` record skips without creating a folder or touching the manifest. */
  lemma DifferentialNeedsAFullBackup(md5: Content -> Digest, backupDir: string, m: ManifestFile, folders: Folders,
                                     src: SourceTree, ts: Timestamp, faults: Faults)
    requires forall j :: 0 <= j < |Loaded(m)| ==> Loaded(m)[j].kind != Full
    ensures RunDifferential(md5, backupDir, m, folders, src, ts, faults) == Step(Skipped(NoFullBackup), m, folders)
  {
  }

  /**
   * A completed differential backup compares against the most recent
   * `full` record, however many records follow it, and appends exactly the
   * record of what changed since that full record, linked to its timestamp.
   */
  lemma DifferentialBackupAppends(md5: Content -> Digest, backupDir: string, m: ManifestFile, folders: Folders,
                                  src: SourceTree, ts: Timestamp, faults: Faults)
    requires src.WellFormed()
    ensures var s := RunDifferential(md5, backupDir, m, folders, src, ts, faults);
      s.outcome.Completed? ==>
        && LastFull(Loaded(m)).Some?
        && var k := LastFull(Loaded(m)).value;
        && Loaded(m)[k].kind == Full
        && (forall j :: k < j < |Loaded(m)| ==> Loaded(m)[j].kind != Full)
        && var full := Loaded(m)[k];
        && var r := ChangedRecord(md5, backupDir, src, ts, Differential, DIFFERENTIAL_PREFIX + ts, full.files, full.timestamp);
        && s.manifest == Stored(Loaded(m) + [r])
        && s.outcome.count == |r.files| > 0
  {
    var backups := Loaded(m);
    var lastFull := LastFull(backups);
    if lastFull.Some? && !faults.mkdirFails {
      var name := DIFFERENTIAL_PREFIX + ts;
      var full := backups[lastFull.value];
      var created := folders[name := Existing(folders, name)];
      assert RunDifferential(md5, backupDir, m, folders, src, ts, faults)
          == RunChanged(md5, backupDir, m, created, src, ts, faults, Differential, name, full.files, full.timestamp);
      ChangedBackupAppends(md5, backupDir, m, created, src, ts, faults, Differential, name, full.files, full.timestamp);
    }
  }

  /** A record appended after the last full one does not move the differential reference. */
  lemma {:induction false} LastFullAfterAppend(backups: seq<Record>, r: Record)
    ensures LastFull(backups + [r]) == if r.kind == Full then Some(|backups|) else LastFull(backups)
  {
    assert (backups + [r])[..|backups|] == backups;
  }

  /**
   * Committing a run: a save that goes through stores the new record list
   * and keeps the folder; one that raises removes the folder and leaves the
   * manifest as it was, or damaged when the file had been truncated.
   */
  lemma CommitAppends(m: ManifestFile, folders: Folders, name: string, folder: map<Path, Content>,
                      backups: seq<Record>, fault: SaveFault, result: Outcome)
    ensures var s := Commit(m, folders, name, folder, backups, fault, result);
      && (fault == NoSaveFault ==>
            && s.outcome == result && s.manifest == Stored(backups)
            && name in s.folders && s.folders - {name} == folders - {name})
      && (fault != NoSaveFault ==>
            && s.outcome == Failed(SaveError)
            && (s.manifest == m || (fault == WriteFault && s.manifest == Damaged))
            && s.folders == folders - {name})
  {
    OtherFoldersKept(folders, name, folder);
  }

  /**
   * A full backup adds a record only when it completes, and then exactly
   * one. A failure leaves the manifest as it was, except
   * that a save which raised after truncating the file leaves it damaged,
   * and removes the new folder unless creating it was what raised.
   */
  lemma FullAppendsAtMostOne(md5: Content -> Digest, backupDir: string, m: ManifestFile, folders: Folders,
                             src: SourceTree, ts: Timestamp, faults: Faults)
    ensures var s := RunFull(md5, backupDir, m, folders, src, ts, faults);
      var name := FULL_PREFIX + ts;
      && !s.outcome.Skipped?
      && (s.outcome.Completed? ==>
            && Loaded(s.manifest) == Loaded(m) + [FullRecord(md5, backupDir, src, ts)]
            && name in s.folders && s.folders - {name} == folders - {name})
      && (s.outcome.Failed? ==>
            && (s.manifest == m || (faults.save == WriteFault && s.manifest == Damaged))
            && (s.outcome.error != SaveError ==> s.manifest == m)
            && (s.folders == folders - {name} || (s.outcome.error == MkdirError && s.folders == folders)))
  {
    if !faults.mkdirFails && FirstIn(src.walk, faults.copyFails + faults.hashFails).None? {
      var rec := FullRecord(md5, backupDir, src, ts);
      var name := FULL_PREFIX + ts;
      CommitAppends(m, folders, name, CopiedInto(Existing(folders, name), src.files, src.walk, src.files.Keys), Loaded(m) + [rec],
                    faults.save, Completed(rec.path, |src.walk|));
    }
  }

  /** The same for the block shared by incremental and differential backups, which may also skip. */
  lemma ChangedAppendsAtMostOne(md5: Content -> Digest, backupDir: string, m: ManifestFile, folders: Folders,
                                src: SourceTree, ts: Timestamp, faults: Faults,
                                kind: Kind, name: string, reference: map<Path, Digest>, parent: Timestamp)
    ensures var s := RunChanged(md5, backupDir, m, folders, src, ts, faults, kind, name, reference, parent);
      && (s.outcome.Completed? ==>
            && Loaded(s.manifest) == Loaded(m) + [ChangedRecord(md5, backupDir, src, ts, kind, name, reference, parent)]
            && name in s.folders && s.folders - {name} == folders - {name})
      && (s.outcome.Skipped? ==> s.outcome.reason == NoChanges && s.manifest == m && s.folders == folders - {name})
      && (s.outcome.Failed? ==>
            && (s.manifest == m || (faults.save == WriteFault && s.manifest == Damaged))
            && (s.outcome.error != SaveError ==> s.manifest == m)
            && s.folders == folders - {name})
  {
    var changed := ChangedPaths(md5, reference, src.files);
    var rec := ChangedRecord(md5, backupDir, src, ts, kind, name, reference, parent);
    if FirstIn(src.walk, faults.hashFails + faults.copyFails * changed).None? && |rec.files| != 0 {
      CommitAppends(m, folders, name, CopiedInto(Existing(folders, name), src.files, src.walk, changed), Loaded(m) + [rec], faults.save,
                    Completed(rec.path, |rec.files|));
    }
  }

  /**
   * What a run may leave behind, by outcome: a completed run has appended
   * exactly one record and kept its folder `name`; a skipped one has left
   * the manifest as it was, and removed its folder when nothing changed or
   * never created it otherwise; a failed one has left the manifest as it
   * was unless it was the save that raised (which may leave it damaged,
   * when the file had been truncated), and removed its folder unless
   * creating it was what raised.
   */
  ghost predicate AppendsAtMostOne(m: ManifestFile, folders: Folders, name: string, faults: Faults, s: Step) {
    && (s.outcome.Completed? ==>
          && |Loaded(s.manifest)| == |Loaded(m)| + 1
          && Loaded(s.manifest)[..|Loaded(m)|] == Loaded(m)
          && name in s.folders
          && s.folders - {name} == folders - {name})
    && (s.outcome.Skipped? ==>
          && s.manifest == m
          && (s.outcome.reason == NoChanges ==> s.folders == folders - {name})
          && (s.outcome.reason != NoChanges ==> s.folders == folders))
    && (s.outcome.Failed? ==>
          && (s.manifest == m || (faults.save == WriteFault && s.manifest == Damaged))
          && (s.outcome.error != SaveError ==> s.manifest == m)
          && (s.folders == folders - {name} || (s.outcome.error == MkdirError && s.folders == folders)))
  }

  /** The incremental case of RunAppendsAtMostOne. */
  lemma IncrementalAppendsAtMostOne(md5: Content -> Digest, backupDir: string, m: ManifestFile,
                                    folders: Folders, src: SourceTree, ts: Timestamp, faults: Faults)
    ensures AppendsAtMostOne(m, folders, INCREMENTAL_PREFIX + ts, faults,
                             RunIncremental(md5, backupDir, m, folders, src, ts, faults))
  {
    var backups := Loaded(m);
    if |backups| != 0 && !faults.mkdirFails {
      var name := INCREMENTAL_PREFIX + ts;
      var created := folders[name := Existing(folders, name)];
      var last := backups[|backups| - 1];
      var r := ChangedRecord(md5, backupDir, src, ts, Incremental, name, last.files, last.timestamp);
      assert RunIncremental(md5, backupDir, m, folders, src, ts, faults)
          == RunChanged(md5, backupDir, m, created, src, ts, faults, Incremental, name, last.files, last.timestamp);
      OtherFoldersKept(folders, name, Existing(folders, name));
      ChangedAppendsAtMostOne(md5, backupDir, m, created, src, ts, faults, Incremental, name, last.files, last.timestamp);
      assert (backups + [r])[..|backups|] == backups;
    }
  }

  /** The differential case of RunAppendsAtMostOne. */
  lemma DifferentialAppendsAtMostOne(md5: Content -> Digest, backupDir: string, m: ManifestFile,
                                     folders: Folders, src: SourceTree, ts: Timestamp, faults: Faults)
    ensures AppendsAtMostOne(m, folders, DIFFERENTIAL_PREFIX + ts, faults,
                             RunDifferential(md5, backupDir, m, folders, src, ts, faults))
  {
    var backups := Loaded(m);
    var lastFull := LastFull(backups);
    if lastFull.Some? && !faults.mkdirFails {
      var name := DIFFERENTIAL_PREFIX + ts;
      var created := folders[name := Existing(folders, name)];
      var full := backups[lastFull.value];
      var r := ChangedRecord(md5, backupDir, src, ts, Differential, name, full.files, full.timestamp);
      OtherFoldersKept(folders, name, Existing(folders, name));
      ChangedAppendsAtMostOne(md5, backupDir, m, created, src, ts, faults, Differential, name, full.files, full.timestamp);
      assert (backups + [r])[..|backups|] == backups;
    }
  }

  /**
   * Only a completed run adds a record to the manifest, and then exactly
   * one; see AppendsAtMostOne for what each outcome leaves.
   */
  lemma RunAppendsAtMostOne(strategy: Strategy, md5: Content -> Digest, backupDir: string, m: ManifestFile,
                            folders: Folders, src: SourceTree, ts: Timestamp, faults: Faults)
    ensures AppendsAtMostOne(m, folders, FolderName(strategy, ts), faults,
                             Run(strategy, md5, backupDir, m, folders, src, ts, faults))
  {
    match strategy
    case FullStrategy =>
      var r := FullRecord(md5, backupDir, src, ts);
      FullAppendsAtMostOne(md5, backupDir, m, folders, src, ts, faults);
      assert (Loaded(m) + [r])[..|Loaded(m)|] == Loaded(m);
    case IncrementalStrategy =>
      IncrementalAppendsAtMostOne(md5, backupDir, m, folders, src, ts, faults);
    case DifferentialStrategy =>
      DifferentialAppendsAtMostOne(md5, backupDir, m, folders, src, ts, faults);
  }

  /** Appending a record whose own link is valid keeps every earlier link valid. */
  lemma AppendKeepsChain(backups: seq<Record>, r: Record)
    requires ChainValid(backups)
    requires LinkValid(backups + [r], |backups|)
    ensures ChainValid(backups + [r])
  {
    var after := backups + [r];
    forall i | 0 <= i < |after| ensures LinkValid(after, i) {
      if i < |backups| {
        assert after[..i] == backups[..i];
        assert LinkValid(backups, i);
      }
    }
  }

  /**
   * Every run keeps the manifest a valid chain: full records have no
   * parent, incremental ones point at the record before them, and
   * differential ones at the most recent full record before them.
   */
  lemma RunKeepsChainValid(strategy: Strategy, md5: Content -> Digest, backupDir: string, m: ManifestFile,
                           folders: Folders, src: SourceTree, ts: Timestamp, faults: Faults)
    requires ChainValid(Loaded(m))
    ensures ChainValid(Loaded(Run(strategy, md5, backupDir, m, folders, src, ts, faults).manifest))
  {
    var s := Run(strategy, md5, backupDir, m, folders, src, ts, faults);
    var backups := Loaded(m);
    var name := FolderName(strategy, ts);
    var created := folders[name := Existing(folders, name)];
    match strategy
    case FullStrategy =>
      FullAppendsAtMostOne(md5, backupDir, m, folders, src, ts, faults);
      if s.outcome.Completed? {
        var r := FullRecord(md5, backupDir, src, ts);
        assert (backups + [r])[..|backups|] == backups;
        AppendKeepsChain(backups, r);
      }
    case IncrementalStrategy =>
      if |backups| != 0 && !faults.mkdirFails {
        var last := backups[|backups| - 1];
        var r := ChangedRecord(md5, backupDir, src, ts, Incremental, name, last.files, last.timestamp);
        ChangedAppendsAtMostOne(md5, backupDir, m, created, src, ts, faults, Incremental, name, last.files, last.timestamp);
        if s.outcome.Completed? {
          assert (backups + [r])[..|backups|] == backups;
          AppendKeepsChain(backups, r);
        }
      }
    case DifferentialStrategy =>
      var lastFull := LastFull(backups);
      if lastFull.Some? && !faults.mkdirFails {
        var full := backups[lastFull.value];
        var r := ChangedRecord(md5, backupDir, src, ts, Differential, name, full.files, full.timestamp);
        ChangedAppendsAtMostOne(md5, backupDir, m, created, src, ts, faults, Differential, name, full.files, full.timestamp);
        if s.outcome.Completed? {
          assert (backups + [r])[..|backups|] == backups;
          AppendKeepsChain(backups, r);
        }
      }
  }

  /**
   * The reference of an incremental backup is only the last record's
   * delta: right after an incremental record of `a` alone, an incremental
   * backup of the unchanged tree `a`, `b` finds `b` missing from that
   * record, copies it again and appends a record of `b` alone, rather than
   * skipping with "no changes".
   */
  lemma IncrementalAfterIncremental(md5: Content -> Digest, backupDir: string, m: ManifestFile, folders: Folders,
                                    a: Path, b: Path, a1: Content, b0: Content, t: Timestamp)
    requires a != b
    requires Loaded(m) != [] && Loaded(m)[|Loaded(m)| - 1].files == map[a := md5(a1)]
    ensures var last := Loaded(m)[|Loaded(m)| - 1];
      var s := RunIncremental(md5, backupDir, m, folders, SourceTree(map[a := a1, b := b0], [a, b]), t, NO_FAULTS);
      && s.outcome == Completed(FolderPath(backupDir, INCREMENTAL_PREFIX + t), 1)
      && s.manifest == Stored(Loaded(m) + [Record(Incremental, t, FolderPath(backupDir, INCREMENTAL_PREFIX + t),
                                                  map[b := md5(b0)], Some(last.timestamp))])
  {
    var src := SourceTree(map[a := a1, b := b0], [a, b]);
    var last := Loaded(m)[|Loaded(m)| - 1];
    var name := INCREMENTAL_PREFIX + t;
    assert src.WellFormed();
    ChangedRecordContents(md5, backupDir, src, t, Incremental, name, last.files, last.timestamp);
    assert ChangedRecord(md5, backupDir, src, t, Incremental, name, last.files, last.timestamp).files == map[b := md5(b0)];
    NoFaultOnWalk(src, {} + {} * ChangedPaths(md5, last.files, src.files));
  }

  /**
   * An incremental backup right after a full backup of an unchanged source
   * finds nothing to copy: it skips, removes its folder and appends nothing.
   */
  lemma IncrementalAfterFullOfSameTree(md5: Content -> Digest, backupDir: string, m: ManifestFile,
                                       folders: Folders, src: SourceTree, t0: Timestamp, t1: Timestamp)
    requires src.WellFormed()
    ensures var s1 := RunFull(md5, backupDir, m, folders, src, t0, NO_FAULTS);
      var s2 := RunIncremental(md5, backupDir, s1.manifest, s1.folders, src, t1, NO_FAULTS);
      && s1.outcome.Completed?
      && s2.outcome == Skipped(NoChanges)
      && s2.manifest == s1.manifest
      && s2.folders == s1.folders - {INCREMENTAL_PREFIX + t1}
  {
    var s1 := RunFull(md5, backupDir, m, folders, src, t0, NO_FAULTS);
    FullBackupCompletes(md5, backupDir, m, folders, src, t0, NO_FAULTS);
    var full := FullRecord(md5, backupDir, src, t0);
    FullRecordContents(md5, backupDir, src, t0);
    assert Loaded(s1.manifest) == Loaded(m) + [full];
    var name := INCREMENTAL_PREFIX + t1;
    ChangedBackupSkips(md5, backupDir, s1.manifest, s1.folders[name := Existing(s1.folders, name)], src, t1,
                       NO_FAULTS, Incremental, name, full.files, full.timestamp);
    OtherFoldersKept(s1.folders, name, Existing(s1.folders, name));
  }

  /** Full backup of the two-file tree `a`, `b`: one record with both digests. */
  lemma FullOfTwoFiles(md5: Content -> Digest, backupDir: string, a: Path, b: Path, a0: Content, b0: Content, t0: Timestamp)
    requires a != b
    ensures var s := RunFull(md5, backupDir, Absent, map[], SourceTree(map[a := a0, b := b0], [a, b]), t0, NO_FAULTS);
      && s.outcome == Completed(FolderPath(backupDir, FULL_PREFIX + t0), 2)
      && s.manifest == Stored([Record(Full, t0, FolderPath(backupDir, FULL_PREFIX + t0), map[a := md5(a0), b := md5(b0)], None)])
  {
    var src := SourceTree(map[a := a0, b := b0], [a, b]);
    assert src.WellFormed();
    assert FullRecord(md5, backupDir, src, t0).files == map[a := md5(a0), b := md5(b0)] by {
      FullRecordContents(md5, backupDir, src, t0);
    }
    assert RunFull(md5, backupDir, Absent, map[], src, t0, NO_FAULTS).outcome.Completed? by {
      FullBackupCompletes(md5, backupDir, Absent, map[], src, t0, NO_FAULTS);
    }
    FullAppendsAtMostOne(md5, backupDir, Absent, map[], src, t0, NO_FAULTS);
  }

  /** The shared incremental/differential block after `a` changed against a record of both files: only `a` is recorded. */
  lemma OneFileChanged(md5: Content -> Digest, backupDir: string, m: ManifestFile, folders: Folders,
                       a: Path, b: Path, a0: Content, a1: Content, b0: Content,
                       ts: Timestamp, kind: Kind, name: string, parent: Timestamp)
    requires a != b && md5(a0) != md5(a1)
    ensures var s := RunChanged(md5, backupDir, m, folders, SourceTree(map[a := a1, b := b0], [a, b]), ts, NO_FAULTS,
                                kind, name, map[a := md5(a0), b := md5(b0)], parent);
      && s.outcome == Completed(FolderPath(backupDir, name), 1)
      && s.manifest == Stored(Loaded(m) + [Record(kind, ts, FolderPath(backupDir, name), map[a := md5(a1)], Some(parent))])
      && name in s.folders
      && s.folders[name] == Existing(folders, name)[a := a1]
  {
    var src := SourceTree(map[a := a1, b := b0], [a, b]);
    var reference := map[a := md5(a0), b := md5(b0)];
    assert src.WellFormed();
    ChangedRecordContents(md5, backupDir, src, ts, kind, name, reference, parent);
    assert ChangedRecord(md5, backupDir, src, ts, kind, name, reference, parent).files == map[a := md5(a1)];
    NoFaultOnWalk(src, {} + {} * ChangedPaths(md5, reference, src.files));
    var changed := ChangedPaths(md5, reference, src.files);
    assert changed == {a};
    var folder := Existing(folders, name);
    assert [a, b][..1] == [a] && [a][..0] == [];
    assert CopiedInto(folder, src.files, [a], changed) == folder[a := a1];
    assert CopiedInto(folder, src.files, [a, b], changed) == folder[a := a1];
  }

  /**
   * Two files `a` and `b`; full backup; `a` changes; incremental backup;
   * differential backup with nothing further changed. The incremental
   * record holds only `a`. The differential one compares against the full
   * record, so it records `a` again and completes with one file, rather
   * than skipping with "no changes".
   */
  lemma DifferentialAfterIncremental(md5: Content -> Digest, backupDir: string, a: Path, b: Path,
                                     a0: Content, a1: Content, b0: Content, t0: Timestamp, t1: Timestamp, t2: Timestamp)
    requires a != b && md5(a0) != md5(a1)
    ensures var before := SourceTree(map[a := a0, b := b0], [a, b]);
      var after := SourceTree(map[a := a1, b := b0], [a, b]);
      var s1 := RunFull(md5, backupDir, Absent, map[], before, t0, NO_FAULTS);
      var s2 := RunIncremental(md5, backupDir, s1.manifest, s1.folders, after, t1, NO_FAULTS);
      var s3 := RunDifferential(md5, backupDir, s2.manifest, s2.folders, after, t2, NO_FAULTS);
      && s1.outcome.Completed? && s2.outcome.Completed?
      && |Loaded(s2.manifest)| == 2
      && Loaded(s2.manifest)[0].files == map[a := md5(a0), b := md5(b0)]
      && Loaded(s2.manifest)[1].kind == Incremental
      && Loaded(s2.manifest)[1].parent == Some(t0)
      && Loaded(s2.manifest)[1].files == map[a := md5(a1)]
      && s3.outcome == Completed(FolderPath(backupDir, DIFFERENTIAL_PREFIX + t2), 1)
      && |Loaded(s3.manifest)| == 3
      && Loaded(s3.manifest)[2].kind == Differential
      && Loaded(s3.manifest)[2].parent == Some(t0)
      && Loaded(s3.manifest)[2].files == map[a := md5(a1)]
  {
    var before := SourceTree(map[a := a0, b := b0], [a, b]);
    var after := SourceTree(map[a := a1, b := b0], [a, b]);
    var s1 := RunFull(md5, backupDir, Absent, map[], before, t0, NO_FAULTS);
    FullOfTwoFiles(md5, backupDir, a, b, a0, b0, t0);
    var full := Loaded(s1.manifest)[0];
    var s2 := RunIncremental(md5, backupDir, s1.manifest, s1.folders, after, t1, NO_FAULTS);
    IncrementalOfOneChange(md5, backupDir, s1.manifest, s1.folders, full, a, b, a0, a1, b0, t1);
    var incr := Loaded(s2.manifest)[1];
    DifferentialOfOneChange(md5, backupDir, s2.manifest, s2.folders, full, incr, a, b, a0, a1, b0, t2);
  }

  /** The incremental step of the scenario: against a full record of both files, only `a` is recorded. */
  lemma IncrementalOfOneChange(md5: Content -> Digest, backupDir: string, m: ManifestFile, folders: Folders, full: Record,
                               a: Path, b: Path, a0: Content, a1: Content, b0: Content, t1: Timestamp)
    requires a != b && md5(a0) != md5(a1)
    requires Loaded(m) == [full] && full.files == map[a := md5(a0), b := md5(b0)]
    ensures var s := RunIncremental(md5, backupDir, m, folders, SourceTree(map[a := a1, b := b0], [a, b]), t1, NO_FAULTS);
      && s.outcome == Completed(FolderPath(backupDir, INCREMENTAL_PREFIX + t1), 1)
      && s.manifest == Stored([full, Record(Incremental, t1, FolderPath(backupDir, INCREMENTAL_PREFIX + t1),
                                            map[a := md5(a1)], Some(full.timestamp))])
  {
    var name := INCREMENTAL_PREFIX + t1;
    OneFileChanged(md5, backupDir, m, folders[name := Existing(folders, name)], a, b, a0, a1, b0, t1,
                   Incremental, name, full.timestamp);
  }

  /** The differential step of the scenario: the reference is the full record, not the incremental one after it. */
  lemma DifferentialOfOneChange(md5: Content -> Digest, backupDir: string, m: ManifestFile, folders: Folders,
                                full: Record, incr: Record,
                                a: Path, b: Path, a0: Content, a1: Content, b0: Content, t2: Timestamp)
    requires a != b && md5(a0) != md5(a1)
    requires Loaded(m) == [full, incr] && full.kind == Full && incr.kind == Incremental
    requires full.files == map[a := md5(a0), b := md5(b0)]
    ensures var s := RunDifferential(md5, backupDir, m, folders, SourceTree(map[a := a1, b := b0], [a, b]), t2, NO_FAULTS);
      && s.outcome == Completed(FolderPath(backupDir, DIFFERENTIAL_PREFIX + t2), 1)
      && s.manifest == Stored([full, incr, Record(Differential, t2, FolderPath(backupDir, DIFFERENTIAL_PREFIX + t2),
                                                  map[a := md5(a1)], Some(full.timestamp))])
  {
    LastFullAfterAppend([], full);
    LastFullAfterAppend([full], incr);
    assert [full] + [incr] == Loaded(m);
    var name := DIFFERENTIAL_PREFIX + t2;
    OneFileChanged(md5, backupDir, m, folders[name := Existing(folders, name)], a, b, a0, a1, b0, t2,
                   Differential, name, full.timestamp);
  }
}
