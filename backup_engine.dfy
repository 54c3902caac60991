/**
 * The backup engine: a `BackupSystem` over a backup root holding the
 * manifest file and the backup folders. Each strategy walks the source tree
 * step by step, copying into a new folder and building the record's map of
 * digests, and is proved to leave exactly the state that the corresponding
 * `Chain.Run*` function specifies.
 */
module BackupEngine {
  import opened Chain

  class BackupSystem {
    const backupDir: string
    /** The content digest (MD5 in the source), a deterministic function of the bytes. */
    const md5: Content -> Digest
    var manifestFile: ManifestFile
    var folders: Folders

    constructor (backupDir: string, md5: Content -> Digest, manifestFile: ManifestFile, folders: Folders)
      ensures this.backupDir == backupDir && this.md5 == md5
      ensures this.manifestFile == manifestFile && this.folders == folders
    {
      this.backupDir := backupDir;
      this.md5 := md5;
      this.manifestFile := manifestFile;
      this.folders := folders;
    }

    /** `_load_manifest`: the stored records, or none when the file is missing or cannot be read. */
    method LoadManifest() returns (backups: seq<Record>)
      ensures manifestFile.Stored? ==> backups == manifestFile.backups
      ensures !manifestFile.Stored? ==> backups == []
    {
      match manifestFile
      case Stored(stored) => backups := stored;
      case Absent => backups := [];
      case Damaged => backups := [];
    }

    /** `_save_manifest`: overwrite the manifest file in place; `ok` is false when it raised. */
    method SaveManifest(backups: seq<Record>, fault: SaveFault) returns (ok: bool)
      modifies this`manifestFile
      ensures ok <==> fault == NoSaveFault
      ensures ok ==> manifestFile == Stored(backups)
      ensures fault == OpenFault ==> manifestFile == old(manifestFile)
      ensures fault == WriteFault ==> manifestFile == Damaged
    {
      match fault
      case NoSaveFault =>
        manifestFile := Stored(backups);
        ok := true;
      case OpenFault =>
        ok := false;
      case WriteFault =>
        manifestFile := Damaged;
        ok := false;
    }

    /** `_calculate_file_hash`: the digest of a source file, or `None` when opening it raises. */
    method CalculateFileHash(src: SourceTree, p: Path, faults: Faults) returns (r: Option<Digest>)
      requires p in src.files
      ensures r.Some? <==> p !in faults.hashFails
      ensures r.Some? ==> r.value == md5(src.files[p])
    {
      if p in faults.hashFails {
        r := None;
      } else {
        r := Some(md5(src.files[p]));
      }
    }

    /** `shutil.copy2` of source file `p` into folder `name`, creating its parent directories. */
    method CopyFile(name: string, src: SourceTree, p: Path, faults: Faults) returns (ok: bool)
      requires name in folders && p in src.files
      modifies this`folders
      ensures ok <==> p !in faults.copyFails
      ensures ok ==> folders == old(folders)[name := old(folders)[name][p := src.files[p]]]
      ensures !ok ==> folders == old(folders)
    {
      ok := p !in faults.copyFails;
      if ok {
        folders := folders[name := folders[name][p := src.files[p]]];
      }
    }

    /**
     * The body of the loop that `incremental_backup` and
     * `differential_backup` share, for the `i`-th walked file: hash it, and
     * when it is new or its digest differs from `reference` copy it into
     * folder `name`, enter its digest in `newFiles` and count it. `raised`
     * tells that the hash or the copy raised.
     */
    method BackUpIfChanged(name: string, reference: map<Path, Digest>, src: SourceTree, faults: Faults, i: nat,
                           ghost base: map<Path, Content>, newFiles: map<Path, Digest>, filesBackedUp: nat)
      returns (raised: bool, newFiles': map<Path, Digest>, filesBackedUp': nat)
      requires src.WellFormed() && i < |src.walk| && name in folders
      requires newFiles == DigestsAlong(md5, src.files, src.walk[..i], ChangedPaths(md5, reference, src.files))
      requires filesBackedUp == |newFiles|
      requires folders[name] == CopiedInto(base, src.files, src.walk[..i], ChangedPaths(md5, reference, src.files))
      modifies this`folders
      ensures raised <==> src.walk[i] in faults.hashFails + faults.copyFails * ChangedPaths(md5, reference, src.files)
      ensures name in folders && folders - {name} == old(folders) - {name}
      ensures !raised ==>
        && newFiles' == DigestsAlong(md5, src.files, src.walk[..i + 1], ChangedPaths(md5, reference, src.files))
        && filesBackedUp' == |newFiles'|
        && folders[name] == CopiedInto(base, src.files, src.walk[..i + 1], ChangedPaths(md5, reference, src.files))
    {
      ghost var changed := ChangedPaths(md5, reference, src.files);
      var p := src.walk[i];
      AlongStep(md5, base, src.files, src.walk, changed, i);
      OtherFoldersKept(folders, name, folders[name][p := src.files[p]]);
      newFiles', filesBackedUp' := newFiles, filesBackedUp;
      var h := CalculateFileHash(src, p, faults);
      if h.None? {
        return true, newFiles', filesBackedUp';
      }
      if p !in reference || reference[p] != h.value {
        assert p in changed;
        var copiedOk := CopyFile(name, src, p, faults);
        if !copiedOk {
          return true, newFiles', filesBackedUp';
        }
        DigestsAlongCount(md5, src.files, src.walk, changed, i);
        newFiles' := newFiles'[p := h.value];
        filesBackedUp' := filesBackedUp' + 1;
      } else {
        assert p !in changed;
      }
      raised := false;
    }

    /** `shutil.rmtree` of folder `name`. */
    method RemoveFolder(name: string)
      modifies this`folders
      ensures folders == old(folders) - {name}
    {
      folders := folders - {name};
    }

    /**
     * The loop of `full_backup`: copy and hash every walked file into
     * folder `name`, stopping at the first file whose copy or hash raises.
     */
    method CopyEveryFile(name: string, src: SourceTree, faults: Faults)
      returns (fileManifest: map<Path, Digest>, filesProcessed: nat, failure: Option<nat>)
      requires src.WellFormed() && name in folders
      modifies this`folders
      ensures failure == FirstIn(src.walk, faults.copyFails + faults.hashFails)
      ensures name in folders && folders - {name} == old(folders) - {name}
      ensures failure.None? ==> filesProcessed == |src.walk|
      ensures failure.None? ==> fileManifest == DigestsAlong(md5, src.files, src.walk, src.files.Keys)
      ensures failure.None? ==>
        folders == old(folders)[name := CopiedInto(old(folders)[name], src.files, src.walk, src.files.Keys)]
    {
      ghost var base := old(folders)[name];
      ghost var bad := faults.copyFails + faults.hashFails;
      ghost var first := FirstIn(src.walk, bad);
      fileManifest, filesProcessed := map[], 0;
      var i := 0;
      assert src.walk[..0] == [];
      while i < |src.walk|
        invariant i <= |src.walk| && filesProcessed == i
        invariant first.None? || i <= first.value
        invariant fileManifest == DigestsAlong(md5, src.files, src.walk[..i], src.files.Keys)
        invariant name in folders && folders - {name} == old(folders) - {name}
        invariant folders[name] == CopiedInto(base, src.files, src.walk[..i], src.files.Keys)
      {
        var p := src.walk[i];
        AlongStep(md5, base, src.files, src.walk, src.files.Keys, i);
        OtherFoldersKept(folders, name, folders[name][p := src.files[p]]);
        var copiedOk := CopyFile(name, src, p, faults);
        if !copiedOk {
          FirstInFinds(src.walk, bad, i);
          return fileManifest, filesProcessed, Some(i);
        }
        var h := CalculateFileHash(src, p, faults);
        if h.None? {
          FirstInFinds(src.walk, bad, i);
          return fileManifest, filesProcessed, Some(i);
        }
        assert p !in bad;
        fileManifest := fileManifest[p := h.value];
        filesProcessed := filesProcessed + 1;
        i := i + 1;
      }
      assert src.walk[..i] == src.walk;
      SameOutsideFolder(folders, old(folders), name);
      failure := None;
    }

    /** `full_backup`: copy every walked file and append a `full` record. */
    method FullBackup(src: SourceTree, ts: Timestamp, faults: Faults) returns (outcome: Outcome)
      requires src.WellFormed()
      modifies this
      ensures Step(outcome, manifestFile, folders)
           == RunFull(md5, backupDir, old(manifestFile), old(folders), src, ts, faults)
    {
      var name := FULL_PREFIX + ts;
      if faults.mkdirFails {
        return Failed(MkdirError);
      }
      CreateFolder(folders, name, CopiedInto(Existing(folders, name), src.files, src.walk, src.files.Keys));
      folders := folders[name := Existing(folders, name)];
      var backups := LoadManifest();
      var fileManifest, filesProcessed, failure := CopyEveryFile(name, src, faults);
      if failure.Some? {
        RemoveFolder(name);
        return Failed(IOError(src.walk[failure.value]));
      }
      var rec := Record(Full, ts, FolderPath(backupDir, name), fileManifest, None);
      var saved := SaveManifest(backups + [rec], faults.save);
      if !saved {
        RemoveFolder(name);
        return Failed(SaveError);
      }
      return Completed(rec.path, filesProcessed);
    }

    /**
     * The loop that `incremental_backup` and `differential_backup` share:
     * hash every walked file and copy into folder `name` each one that is
     * new or whose digest differs from `reference`, stopping at the first
     * hash or copy that raises.
     */
    method CopyChangedFiles(name: string, reference: map<Path, Digest>, src: SourceTree, faults: Faults)
      returns (newFiles: map<Path, Digest>, filesBackedUp: nat, failure: Option<nat>)
      requires src.WellFormed() && name in folders
      modifies this`folders
      ensures failure
           == FirstIn(src.walk, faults.hashFails + faults.copyFails * ChangedPaths(md5, reference, src.files))
      ensures name in folders && folders - {name} == old(folders) - {name}
      ensures failure.None? ==> newFiles == DigestsAlong(md5, src.files, src.walk, ChangedPaths(md5, reference, src.files))
      ensures failure.None? ==> filesBackedUp == |newFiles|
      ensures failure.None? ==>
        folders == old(folders)[name := CopiedInto(old(folders)[name], src.files, src.walk,
                                                   ChangedPaths(md5, reference, src.files))]
    {
      ghost var base := old(folders)[name];
      ghost var bad := faults.hashFails + faults.copyFails * ChangedPaths(md5, reference, src.files);
      ghost var first := FirstIn(src.walk, bad);
      newFiles, filesBackedUp := map[], 0;
      var i := 0;
      assert src.walk[..0] == [];
      while i < |src.walk|
        invariant i <= |src.walk|
        invariant first.None? || i <= first.value
        invariant newFiles == DigestsAlong(md5, src.files, src.walk[..i], ChangedPaths(md5, reference, src.files))
        invariant filesBackedUp == |newFiles|
        invariant name in folders && folders - {name} == old(folders) - {name}
        invariant folders[name] == CopiedInto(base, src.files, src.walk[..i], ChangedPaths(md5, reference, src.files))
      {
        var raised;
        raised, newFiles, filesBackedUp := BackUpIfChanged(name, reference, src, faults, i, base, newFiles, filesBackedUp);
        if raised {
          FirstInFinds(src.walk, bad, i);
          return newFiles, filesBackedUp, Some(i);
        }
        i := i + 1;
      }
      assert src.walk[..i] == src.walk;
      SameOutsideFolder(folders, old(folders), name);
      failure := None;
    }

    /**
     * The `try` block shared by `incremental_backup` and
     * `differential_backup`, run once folder `name` has been created:
     * copy what changed against `reference`, then append a record whose
     * parent is `parent`, or remove the folder when nothing changed.
     */
    method ChangedFilesBackup(kind: Kind, name: string, backups: seq<Record>,
                              reference: map<Path, Digest>, parent: Timestamp,
                              src: SourceTree, ts: Timestamp, faults: Faults)
      returns (outcome: Outcome)
      requires src.WellFormed()
      requires name in folders && backups == Loaded(manifestFile)
      modifies this
      ensures Step(outcome, manifestFile, folders)
           == RunChanged(md5, backupDir, old(manifestFile), old(folders), src, ts, faults,
                         kind, name, reference, parent)
    {
      var newFiles, filesBackedUp, failure := CopyChangedFiles(name, reference, src, faults);
      if failure.Some? {
        RemoveFolder(name);
        return Failed(IOError(src.walk[failure.value]));
      }
      if |newFiles| != 0 {
        var rec := Record(kind, ts, FolderPath(backupDir, name), newFiles, Some(parent));
        var saved := SaveManifest(backups + [rec], faults.save);
        if !saved {
          RemoveFolder(name);
          return Failed(SaveError);
        }
        return Completed(rec.path, filesBackedUp);
      } else {
        RemoveFolder(name);
        return Skipped(NoChanges);
      }
    }

    /** `incremental_backup`: back up what changed since the last record, of any kind. */
    method IncrementalBackup(src: SourceTree, ts: Timestamp, faults: Faults) returns (outcome: Outcome)
      requires src.WellFormed()
      modifies this
      ensures Step(outcome, manifestFile, folders)
           == RunIncremental(md5, backupDir, old(manifestFile), old(folders), src, ts, faults)
    {
      var backups := LoadManifest();
      if |backups| == 0 {
        return Skipped(NoBackup);
      }
      var lastBackup := backups[|backups| - 1];
      var name := INCREMENTAL_PREFIX + ts;
      if faults.mkdirFails {
        return Failed(MkdirError);
      }
      folders := folders[name := Existing(folders, name)];
      outcome := ChangedFilesBackup(Incremental, name, backups, lastBackup.files, lastBackup.timestamp,
                                    src, ts, faults);
    }

    /** `differential_backup`: back up what changed since the most recent full record. */
    method DifferentialBackup(src: SourceTree, ts: Timestamp, faults: Faults) returns (outcome: Outcome)
      requires src.WellFormed()
      modifies this
      ensures Step(outcome, manifestFile, folders)
           == RunDifferential(md5, backupDir, old(manifestFile), old(folders), src, ts, faults)
    {
      var backups := LoadManifest();
      if |backups| == 0 {
        return Skipped(NoFullBackup);
      }
      var lastFull := FindLastFull(backups);
      if lastFull.None? {
        return Skipped(NoFullBackup);
      }
      var name := DIFFERENTIAL_PREFIX + ts;
      if faults.mkdirFails {
        return Failed(MkdirError);
      }
      folders := folders[name := Existing(folders, name)];
      var reference := backups[lastFull.value];
      outcome := ChangedFilesBackup(Differential, name, backups, reference.files, reference.timestamp,
                                    src, ts, faults);
    }
  }

  /**
   * The reverse search of `differential_backup` for its reference: the
   * index of the last `full` record, found by walking backwards and
   * stopping at the first one.
   */
  method FindLastFull(backups: seq<Record>) returns (r: Option<nat>)
    ensures r.Some? ==> r.value < |backups| && backups[r.value].kind == Full
    ensures r.Some? ==> forall j :: r.value < j < |backups| ==> backups[j].kind != Full
    ensures r.None? ==> forall j :: 0 <= j < |backups| ==> backups[j].kind != Full
    ensures r == LastFull(backups)
  {
    r := None;
    var i := |backups|;
    while i > 0
      invariant 0 <= i <= |backups|
      invariant forall j :: i <= j < |backups| ==> backups[j].kind != Full
    {
      i := i - 1;
      if backups[i].kind == Full {
        r := Some(i);
        break;
      }
    }
  }

}
