/**
 * The data model of the backup-chain engine and the specification of one
 * backup run of each strategy, as functions from the state on disk (the
 * manifest file and the backup folders) to the outcome and the new state.
 *
 * The world a run sees is passed in explicitly: the source tree as a map
 * from relative path to content with the order in which the directory walk
 * yields its regular files, the timestamp of the run, and the set of
 * operations that raise (the faults).
 */
module Chain {

  /** Relative path of a regular file under the source root. */
  type Path = string
  /** Hex digest of a file's content. */
  type Digest = string
  /** The bytes of a regular file. */
  type Content = seq<bv8>
  /** Creation time of a run, `YYYYMMDD_HHMMSS`. */
  type Timestamp = string
  /** Backup folders under the backup root: folder name to the files copied into it. */
  type Folders = map<string, map<Path, Content>>

  datatype Option<T> = None | Some(value: T)

  datatype Kind = Full | Incremental | Differential

  /** One entry of the manifest's `backups` list. */
  datatype Record = Record(
    kind: Kind,
    timestamp: Timestamp,
    path: string,
    files: map<Path, Digest>,
    parent: Option<Timestamp>)

  /** The manifest file on disk: missing, unreadable or unparsable, or a stored list of records. */
  datatype ManifestFile = Absent | Damaged | Stored(backups: seq<Record>)

  /**
   * The source directory: its regular files and the order in which the
   * recursive walk yields them.
   */
  datatype SourceTree = SourceTree(files: map<Path, Content>, walk: seq<Path>) {
    /** The walk yields every regular file exactly once, and nothing else. */
    predicate WellFormed() {
      && (forall i, j :: 0 <= i < j < |walk| ==> walk[i] != walk[j])
      && (forall i :: 0 <= i < |walk| ==> walk[i] in files)
      && (forall p :: p in files ==> p in walk)
    }
  }

  datatype SaveFault =
    | NoSaveFault
    | OpenFault   // opening the manifest for writing raises; the file is untouched
    | WriteFault  // the file was opened (and so truncated), then serialising raised

  /** Which operations of a run raise. */
  datatype Faults = Faults(
    mkdirFails: bool,       // creating the new backup folder
    hashFails: set<Path>,   // opening a source file to compute its digest
    copyFails: set<Path>,   // creating the destination directory or copying the file
    save: SaveFault)

  datatype Error = MkdirError | IOError(path: Path) | SaveError
  datatype SkipReason = NoBackup | NoFullBackup | NoChanges

  /** What a run reports: `(path, count)`, `(None, 0)` or a raised exception. */
  datatype Outcome =
    | Completed(path: string, count: nat)
    | Skipped(reason: SkipReason)
    | Failed(error: Error)

  /** The outcome of a run together with the state on disk after it. */
  datatype Step = Step(outcome: Outcome, manifest: ManifestFile, folders: Folders)

  const FULL_PREFIX := "full_backup_"
  const INCREMENTAL_PREFIX := "incr_backup_"
  const DIFFERENTIAL_PREFIX := "diff_backup_"

  function FolderPath(backupDir: string, name: string): string {
    backupDir + "/" + name
  }

  /** The records a load yields: a missing or damaged file reads as an empty manifest. */
  function Loaded(f: ManifestFile): seq<Record> {
    if f.Stored? then f.backups else []
  }

  /** The manifest file after an attempt to save `backups` over `f`. */
  function Saved(f: ManifestFile, backups: seq<Record>, fault: SaveFault): ManifestFile {
    match fault
    case NoSaveFault => Stored(backups)
    case OpenFault => f
    case WriteFault => Damaged
  }

  /** The content of folder `name` once it has been created with `exist_ok=True`. */
  function Existing(folders: Folders, name: string): map<Path, Content> {
    if name in folders then folders[name] else map[]
  }

  /** The copy-or-skip rule shared by all strategies that compare against a reference. */
  predicate Changed(reference: map<Path, Digest>, p: Path, d: Digest) {
    p !in reference || reference[p] != d
  }

  /** The source files whose digest is absent from, or differs from, `reference`. */
  function ChangedPaths(md5: Content -> Digest, reference: map<Path, Digest>, files: map<Path, Content>): set<Path> {
    set p | p in files && Changed(reference, p, md5(files[p]))
  }

  /**
   * The digests a backup loop records while walking `walk`: each walked
   * file in `keep` is hashed and entered under its path.
   */
  function DigestsAlong(md5: Content -> Digest, files: map<Path, Content>, walk: seq<Path>, keep: set<Path>): map<Path, Digest>
  {
    if walk == [] then map[]
    else
      var p := walk[|walk| - 1];
      var before := DigestsAlong(md5, files, walk[..|walk| - 1], keep);
      if p in keep && p in files then before[p := md5(files[p])] else before
  }

  /**
   * The content of a backup folder that held `folder` once a backup loop
   * walking `walk` has copied into it each walked file in `keep`.
   */
  function CopiedInto(folder: map<Path, Content>, files: map<Path, Content>, walk: seq<Path>, keep: set<Path>): map<Path, Content>
  {
    if walk == [] then folder
    else
      var p := walk[|walk| - 1];
      var before := CopiedInto(folder, files, walk[..|walk| - 1], keep);
      if p in keep && p in files then before[p := files[p]] else before
  }

  /** Walking one more path extends both folds by that path alone. */
  lemma AlongStep(md5: Content -> Digest, folder: map<Path, Content>, files: map<Path, Content>,
                  walk: seq<Path>, keep: set<Path>, i: nat)
    requires i < |walk|
    ensures var p := walk[i];
      DigestsAlong(md5, files, walk[..i + 1], keep)
      == if p in keep && p in files then DigestsAlong(md5, files, walk[..i], keep)[p := md5(files[p])]
         else DigestsAlong(md5, files, walk[..i], keep)
    ensures var p := walk[i];
      CopiedInto(folder, files, walk[..i + 1], keep)
      == if p in keep && p in files then CopiedInto(folder, files, walk[..i], keep)[p := files[p]]
         else CopiedInto(folder, files, walk[..i], keep)
  {
    assert walk[..i + 1][..i] == walk[..i];
  }

  /** Only walked paths are recorded. */
  lemma {:induction false} DigestsAlongKeys(md5: Content -> Digest, files: map<Path, Content>, walk: seq<Path>, keep: set<Path>)
    ensures forall q :: q in DigestsAlong(md5, files, walk, keep) ==> q in walk
  {
    if walk != [] {
      var init := walk[..|walk| - 1];
      DigestsAlongKeys(md5, files, init, keep);
      forall q | q in init ensures q in walk {
        var j :| 0 <= j < |init| && init[j] == q;
        assert walk[j] == q;
      }
    }
  }

  /** The path walked at step `i` has not been walked before. */
  lemma NotYetWalked(walk: seq<Path>, i: nat)
    requires i < |walk|
    requires forall a, b :: 0 <= a < b < |walk| ==> walk[a] != walk[b]
    ensures walk[i] !in walk[..i]
  {
    forall q | q in walk[..i] ensures q != walk[i] {
      var a :| 0 <= a < i && walk[..i][a] == q;
    }
  }

  /** On a walk without repeats, a path kept at step `i` is new to the digest map. */
  lemma DigestsAlongCount(md5: Content -> Digest, files: map<Path, Content>, walk: seq<Path>, keep: set<Path>, i: nat)
    requires i < |walk|
    requires forall a, b :: 0 <= a < b < |walk| ==> walk[a] != walk[b]
    ensures walk[i] !in DigestsAlong(md5, files, walk[..i], keep)
  {
    NotYetWalked(walk, i);
    DigestsAlongKeys(md5, files, walk[..i], keep);
  }

  /** `_count_files`: the number of regular files the walk yields. */
  function CountFiles(src: SourceTree): (n: nat)
    ensures src.WellFormed() ==> n == |src.files|
  {
    WalkCount(src);
    |src.walk|
  }

  /** A walk that yields every regular file once is as long as there are regular files. */
  lemma WalkCount(src: SourceTree)
    ensures src.WellFormed() ==> |src.walk| == |src.files|
  {
    if src.WellFormed() {
      DistinctCardinality(src.walk);
      assert (set p | p in src.walk) == src.files.Keys;
    }
  }

  lemma {:induction false} DistinctCardinality(s: seq<Path>)
    requires forall i, j :: 0 <= i < j < |s| ==> s[i] != s[j]
    ensures |set p | p in s| == |s|
  {
    if s != [] {
      DistinctCardinality(s[1..]);
      assert (set p | p in s) == {s[0]} + (set p | p in s[1..]);
      assert s[0] !in (set p | p in s[1..]) by {
        forall j | 0 <= j < |s[1..]| ensures s[1..][j] != s[0] {
          assert s[1..][j] == s[j + 1];
        }
      }
    }
  }


  /**
   * Creating folder `name` and then replacing, or removing, it is the same
   * as replacing, or removing, it directly.
   */
  lemma CreateFolder(folders: Folders, name: string, content: map<Path, Content>)
    ensures var created := folders[name := Existing(folders, name)];
      && created[name := content] == folders[name := content]
      && created - {name} == folders - {name}
  {
  }

  /** Replacing the content of folder `name` leaves every other folder as it was. */
  lemma OtherFoldersKept(folders: Folders, name: string, content: map<Path, Content>)
    ensures folders[name := content] - {name} == folders - {name}
  {
  }

  /** Two folder maps that agree outside `name` differ at most in the content of `name`. */
  lemma SameOutsideFolder(after: Folders, before: Folders, name: string)
    requires name in after && after - {name} == before - {name}
    ensures after == before[name := after[name]]
  {
    forall n | n in after ensures n in before[name := after[name]] {
      if n != name {
        assert n in after - {name};
      }
    }
    forall n | n in before[name := after[name]] ensures n in after {
      if n != name {
        assert n in before - {name};
      }
    }
    forall n | n in after && n != name ensures after[n] == before[n] {
      assert (after - {name})[n] == (before - {name})[n];
    }
  }

  /** The index of the first walked path in `bad`: where a run raises. */
  function FirstIn(walk: seq<Path>, bad: set<Path>): (r: Option<nat>)
    ensures r.Some? ==> r.value < |walk| && walk[r.value] in bad
  {
    if walk == [] then None
    else if walk[0] in bad then Some(0)
    else match FirstIn(walk[1..], bad)
      case None => None
      case Some(k) => Some(k + 1)
  }

  /** No walked path in `bad` comes before the one `FirstIn` finds. */
  lemma {:induction false} FirstInFinds(walk: seq<Path>, bad: set<Path>, i: nat)
    requires i < |walk| && walk[i] in bad
    ensures FirstIn(walk, bad).Some? && FirstIn(walk, bad).value <= i
  {
    if walk[0] !in bad {
      FirstInFinds(walk[1..], bad, i - 1);
    }
  }

  /** The index of the most recent `full` record, searching backwards. */
  function LastFull(backups: seq<Record>): (r: Option<nat>)
    ensures r.Some? ==> r.value < |backups| && backups[r.value].kind == Full
    ensures r.Some? ==> forall j :: r.value < j < |backups| ==> backups[j].kind != Full
    ensures r.None? ==> forall j :: 0 <= j < |backups| ==> backups[j].kind != Full
  {
    if backups == [] then None
    else if backups[|backups| - 1].kind == Full then Some(|backups| - 1)
    else LastFull(backups[..|backups| - 1])
  }

  /**
   * The end of a run's `try` block: append `backups`' last record, save, and
   * report `result`; a failed save removes the new folder and reports the error.
   */
  function Commit(m: ManifestFile, folders: Folders, name: string, folder: map<Path, Content>,
                  backups: seq<Record>, fault: SaveFault, result: Outcome): Step
  {
    if fault == NoSaveFault then
      Step(result, Stored(backups), folders[name := folder])
    else
      Step(Failed(SaveError), Saved(m, backups, fault), folders - {name})
  }

  /** A full backup: copy every walked file and record every digest. */
  function RunFull(md5: Content -> Digest, backupDir: string, m: ManifestFile, folders: Folders,
                   src: SourceTree, ts: Timestamp, faults: Faults): Step
  {
    var name := FULL_PREFIX + ts;
    if faults.mkdirFails then Step(Failed(MkdirError), m, folders)
    else
      var k := FirstIn(src.walk, faults.copyFails + faults.hashFails);
      if k.Some? then Step(Failed(IOError(src.walk[k.value])), m, folders - {name})
      else
        var rec := FullRecord(md5, backupDir, src, ts);
        Commit(m, folders, name, CopiedInto(Existing(folders, name), src.files, src.walk, src.files.Keys),
               Loaded(m) + [rec], faults.save,
               Completed(rec.path, |src.walk|))
  }

  /** The record a full backup appends: every walked file's digest, no parent. */
  function FullRecord(md5: Content -> Digest, backupDir: string, src: SourceTree, ts: Timestamp): Record {
    Record(Full, ts, FolderPath(backupDir, FULL_PREFIX + ts), DigestsAlong(md5, src.files, src.walk, src.files.Keys), None)
  }

  /**
   * The `try` block that incremental and differential backups share, run
   * once folder `name` exists in `folders`: copy each walked file that
   * differs from `reference`, then append a record of kind `kind` with
   * parent `parent`, or remove the folder when nothing changed.
   */
  function RunChanged(md5: Content -> Digest, backupDir: string, m: ManifestFile, folders: Folders,
                      src: SourceTree, ts: Timestamp, faults: Faults,
                      kind: Kind, name: string, reference: map<Path, Digest>, parent: Timestamp): Step
  {
    var changed := ChangedPaths(md5, reference, src.files);
    var k := FirstIn(src.walk, faults.hashFails + faults.copyFails * changed);
    if k.Some? then Step(Failed(IOError(src.walk[k.value])), m, folders - {name})
    else
      var rec := ChangedRecord(md5, backupDir, src, ts, kind, name, reference, parent);
      if |rec.files| == 0 then Step(Skipped(NoChanges), m, folders - {name})
      else
        Commit(m, folders, name, CopiedInto(Existing(folders, name), src.files, src.walk, changed),
               Loaded(m) + [rec], faults.save,
               Completed(rec.path, |rec.files|))
  }

  /** The record an incremental or differential backup appends: the digests of the changed files. */
  function ChangedRecord(md5: Content -> Digest, backupDir: string, src: SourceTree, ts: Timestamp,
                         kind: Kind, name: string, reference: map<Path, Digest>, parent: Timestamp): Record
  {
    Record(kind, ts, FolderPath(backupDir, name),
           DigestsAlong(md5, src.files, src.walk, ChangedPaths(md5, reference, src.files)), Some(parent))
  }

  /** An incremental backup: the reference is the last record, of any kind. */
  function RunIncremental(md5: Content -> Digest, backupDir: string, m: ManifestFile, folders: Folders,
                          src: SourceTree, ts: Timestamp, faults: Faults): Step
  {
    var backups := Loaded(m);
    var name := INCREMENTAL_PREFIX + ts;
    if |backups| == 0 then Step(Skipped(NoBackup), m, folders)
    else if faults.mkdirFails then Step(Failed(MkdirError), m, folders)
    else
      var last := backups[|backups| - 1];
      RunChanged(md5, backupDir, m, folders[name := Existing(folders, name)], src, ts, faults,
                 Incremental, name, last.files, last.timestamp)
  }

  /** A differential backup: the reference is the most recent full record. */
  function RunDifferential(md5: Content -> Digest, backupDir: string, m: ManifestFile, folders: Folders,
                           src: SourceTree, ts: Timestamp, faults: Faults): Step
  {
    var backups := Loaded(m);
    var name := DIFFERENTIAL_PREFIX + ts;
    var lastFull := LastFull(backups);
    if lastFull.None? then Step(Skipped(NoFullBackup), m, folders)
    else if faults.mkdirFails then Step(Failed(MkdirError), m, folders)
    else
      var reference := backups[lastFull.value];
      RunChanged(md5, backupDir, m, folders[name := Existing(folders, name)], src, ts, faults,
                 Differential, name, reference.files, reference.timestamp)
  }

  datatype Strategy = FullStrategy | IncrementalStrategy | DifferentialStrategy

  function FolderName(strategy: Strategy, ts: Timestamp): string {
    match strategy
    case FullStrategy => FULL_PREFIX + ts
    case IncrementalStrategy => INCREMENTAL_PREFIX + ts
    case DifferentialStrategy => DIFFERENTIAL_PREFIX + ts
  }

  /** One run of the chosen strategy (menu entries 1, 3 and 2). */
  function Run(strategy: Strategy, md5: Content -> Digest, backupDir: string, m: ManifestFile,
               folders: Folders, src: SourceTree, ts: Timestamp, faults: Faults): Step
  {
    match strategy
    case FullStrategy => RunFull(md5, backupDir, m, folders, src, ts, faults)
    case IncrementalStrategy => RunIncremental(md5, backupDir, m, folders, src, ts, faults)
    case DifferentialStrategy => RunDifferential(md5, backupDir, m, folders, src, ts, faults)
  }

  /**
   * The parent link of record `i`: none for a full backup, the preceding
   * record for an incremental one, the most recent earlier full record for
   * a differential one.
   */
  ghost predicate LinkValid(backups: seq<Record>, i: nat)
    requires i < |backups|
  {
    var r := backups[i];
    match r.kind
    case Full => r.parent == None
    case Incremental => 0 < i && r.parent == Some(backups[i - 1].timestamp)
    case Differential =>
      var k := LastFull(backups[..i]);
      k.Some? && r.parent == Some(backups[k.value].timestamp)
  }

  /** Every record of the manifest is linked to its parent as the strategies link it. */
  ghost predicate ChainValid(backups: seq<Record>) {
    forall i :: 0 <= i < |backups| ==> LinkValid(backups, i)
  }
}
