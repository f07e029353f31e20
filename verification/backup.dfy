/** The backup operations (`crearDirectorioBackup`, `ejecutarBackup`): a
    time-stamped directory under `backups`, remembered by the processor once
    chosen, and a copy of every listed file into it under its base name.
    Copies that fail are logged and swallowed; only a failure to create the
    directory is raised.

    The source sets the remembered directory before creating it, so a
    failed creation leaves a directory behind that later calls trust and
    never create. `CreateBackupDirAsWritten`/`ExecuteBackupAsWritten` model
    that behaviour; `CreateBackupDir`/`ExecuteBackup` remember the
    directory only once it exists. */
module Backup {
  import opened Wrappers
  import opened Paths
  import opened JsonText
  import opened FileStore
  import opened Artifacts
  import opened Streams

  /** The processor's state that the backup uses: its configuration and
      `rutaBackup`, absent until a backup directory has been chosen. */
  datatype Runner = Runner(cfg: Config, backupDir: Option<Path>)

  /** The clock reading the directory name is made of: the date as
      `toLocaleDateString("es-CL", …)` formats it, and the local hour and
      minute. */
  datatype Clock = Clock(dateText: string, hours: nat, minutes: nat)

  function BackupsRoot(cfg: Config): Path { Join(cfg.base, "backups") }

  /** `backup-<date> (<hours> <minutes>)`, numbers without padding. */
  function BackupDirName(c: Clock): string {
    "backup-" + c.dateText + " (" + Decimal(c.hours) + " " + Decimal(c.minutes) + ")"
  }

  function BackupDirPath(cfg: Config, c: Clock): Path {
    Join(BackupsRoot(cfg), BackupDirName(c))
  }

  /** `path.join(rutaBackup, path.basename(source))`; an empty base name
      adds nothing to the directory. */
  function BackupTarget(dir: Path, source: Path): Path {
    var name := Basename(source);
    if name == "" then dir else Join(dir, name)
  }

  function FailureMessage(source: Path): string {
    "Fallo en el backup de " + Basename(source)
  }

  /** The remembered backup directory, when there is one, exists. */
  predicate BackupDirReady(r: Runner, st: Store) {
    r.backupDir.Some? ==> r.backupDir.value in st.dirs
  }

  // ---------------------------------------------------------------------
  // Creating the backup directory
  // ---------------------------------------------------------------------

  datatype Created = Created(runner: Runner, store: Store, result: Result<Path, IoError>)

  /** `crearDirectorioBackup` as written: `rutaBackup` is assigned before
      the `mkdir` whose failure rejects the call. */
  function CreateBackupDirAsWritten(r: Runner, st: Store, c: Clock): (x: Created)
    ensures x.runner == r.(backupDir := Some(BackupDirPath(r.cfg, c)))
    ensures x.result.Success? <==> MakeDirectory(st, BackupDirPath(r.cfg, c)).Success?
    ensures x.result.Failure? ==> x.store == st
  {
    var dir := BackupDirPath(r.cfg, c);
    var r' := r.(backupDir := Some(dir));
    match MakeDirectory(st, dir)
    case Failure(e) => Created(r', st, Failure(e))
    case Success(st') => Created(r', st', Success(dir))
  }

  /** `crearDirectorioBackup` with the directory remembered only once it
      exists. */
  function CreateBackupDir(r: Runner, st: Store, c: Clock): (x: Created)
    ensures x.result.Success? <==> MakeDirectory(st, BackupDirPath(r.cfg, c)).Success?
    ensures x.result.Success? ==> x.runner == r.(backupDir := Some(BackupDirPath(r.cfg, c)))
    ensures x.result.Success? ==> BackupDirPath(r.cfg, c) in x.store.dirs && x.store.files == st.files
    ensures x.result.Failure? ==> x.runner == r && x.store == st
  {
    var dir := BackupDirPath(r.cfg, c);
    match MakeDirectory(st, dir)
    case Failure(e) => Created(r, st, Failure(e))
    case Success(st') => Created(r.(backupDir := Some(dir)), st', Success(dir))
  }

  // ---------------------------------------------------------------------
  // Copying the files
  // ---------------------------------------------------------------------

  datatype CopyOutcome = Copied(source: Path, target: Path) | CopyFailed(source: Path, message: string)

  datatype CopyBatch = CopyBatch(store: Store, outcomes: seq<CopyOutcome>)

  /** The target of every source, in order. */
  function Targets(dir: Path, sources: seq<Path>): (t: seq<Path>)
    ensures |t| == |sources|
  {
    seq(|sources|, k requires 0 <= k < |sources| => BackupTarget(dir, sources[k]))
  }

  /** What the pass records for one copy: a failure is rethrown as
      `Fallo en el backup de <name>` and then only logged. */
  function Record(result: Result<Path, IoError>, source: Path, target: Path): CopyOutcome {
    if result.Success? then Copied(source, target) else CopyFailed(source, FailureMessage(source))
  }

  /** The copies of `sources[i..]` to `targets[i..]`, after the outcomes
      `done`. */
  function CopyEach(st: Store, sources: seq<Path>, targets: seq<Path>, i: nat, done: seq<CopyOutcome>)
    : (b: CopyBatch)
    requires |targets| == |sources| && i <= |sources|
    ensures |b.outcomes| == |done| + |sources| - i
    decreases |sources| - i
  {
    if i == |sources| then CopyBatch(st, done)
    else
      var copy := CopyFile(st, sources[i], targets[i]);
      CopyEach(copy.store, sources, targets, i + 1, done + [Record(copy.result, sources[i], targets[i])])
  }

  /** The copy pass of `ejecutarBackup` into `dir`. */
  function CopyAll(st: Store, dir: Path, sources: seq<Path>): (b: CopyBatch)
    ensures |b.outcomes| == |sources|
  {
    CopyEach(st, sources, Targets(dir, sources), 0, [])
  }

  /** The paths in `targets[i..]`. */
  function TargetsFrom(targets: seq<Path>, i: nat): set<Path>
    requires i <= |targets|
    decreases |targets| - i
  {
    if i == |targets| then {} else {targets[i]} + TargetsFrom(targets, i + 1)
  }

  datatype BackupRun = BackupRun(runner: Runner, store: Store, result: Result<seq<CopyOutcome>, IoError>)

  /** `ejecutarBackup(rutasArchivos)` as written. */
  function ExecuteBackupAsWritten(r: Runner, st: Store, sources: seq<Path>, c: Clock): (x: BackupRun)
    ensures x.result.Failure? <==> r.backupDir.None? && MakeDirectory(st, BackupDirPath(r.cfg, c)).Failure?
    ensures x.runner.backupDir.Some?
    ensures x.result.Success? ==> |x.result.value| == |sources|
    ensures x.result.Success? ==> x == ExecuteBackup(r, st, sources, c)
    ensures x.result.Failure? ==> x.store == st && x.result == ExecuteBackup(r, st, sources, c).result
  {
    if r.backupDir.Some? then
      var b := CopyAll(st, r.backupDir.value, sources);
      BackupRun(r, b.store, Success(b.outcomes))
    else
      var created := CreateBackupDirAsWritten(r, st, c);
      match created.result
      case Failure(e) => BackupRun(created.runner, created.store, Failure(e))
      case Success(dir) =>
        var b := CopyAll(created.store, dir, sources);
        BackupRun(created.runner, b.store, Success(b.outcomes))
  }

  /** `ejecutarBackup(rutasArchivos)` with the corrected directory creation:
      an existing choice is reused, otherwise the directory is created and
      a creation failure is raised; then every source is copied. */
  function ExecuteBackup(r: Runner, st: Store, sources: seq<Path>, c: Clock): (x: BackupRun)
    ensures x.result.Failure? <==> r.backupDir.None? && MakeDirectory(st, BackupDirPath(r.cfg, c)).Failure?
    ensures x.result.Failure? ==> x.runner == r && x.store == st
    ensures r.backupDir.Some? ==> x.runner == r
    ensures x.result.Success? ==> x.runner.backupDir.Some? && |x.result.value| == |sources|
  {
    if r.backupDir.Some? then
      var b := CopyAll(st, r.backupDir.value, sources);
      BackupRun(r, b.store, Success(b.outcomes))
    else
      var created := CreateBackupDir(r, st, c);
      match created.result
      case Failure(e) => BackupRun(created.runner, created.store, Failure(e))
      case Success(dir) =>
        var b := CopyAll(created.store, dir, sources);
        BackupRun(created.runner, b.store, Success(b.outcomes))
  }

  // ---------------------------------------------------------------------
  // Lemmas: names
  // ---------------------------------------------------------------------

  /** A target sits directly in the backup directory under the source's
      base name. */
  lemma BackupTargetShape(dir: Path, source: Path)
    requires dir != "" && Basename(source) != ""
    ensures Dirname(BackupTarget(dir, source)) == dir
    ensures Basename(BackupTarget(dir, source)) == Basename(source)
  {
    BasenameOfJoin(dir, Basename(source));
    DirnameOfJoin(dir, Basename(source));
  }

  /** Two sources go to the same target exactly when their base names
      agree, so `a/informe.txt` and `b/informe.txt` overwrite each other. */
  lemma BackupTargetCollision(dir: Path, s1: Path, s2: Path)
    ensures BackupTarget(dir, s1) == BackupTarget(dir, s2) <==> Basename(s1) == Basename(s2)
  {
    var n1, n2 := Basename(s1), Basename(s2);
    if n1 != "" && n2 != "" {
      JoinInjective(dir, n1, dir, n2);
    } else if n1 != "" && n2 == "" {
      assert |BackupTarget(dir, s1)| > |dir|;
    } else if n1 == "" && n2 != "" {
      assert |BackupTarget(dir, s2)| > |dir|;
    }
  }

  /** Hour and minute are written without padding: 09:05 gives `(9 5)`. */
  lemma BackupDirNameExample(date: string)
    ensures BackupDirName(Clock(date, 9, 5)) == "backup-" + date + " (9 5)"
  {
    assert Decimal(9) == "9";
    assert Decimal(5) == "5";
  }

  // ---------------------------------------------------------------------
  // Lemmas: the copy pass
  // ---------------------------------------------------------------------

  lemma CopyEachStep(st: Store, sources: seq<Path>, targets: seq<Path>, i: nat, done: seq<CopyOutcome>)
    requires |targets| == |sources| && i < |sources|
    ensures var copy := CopyFile(st, sources[i], targets[i]);
      CopyEach(st, sources, targets, i, done)
      == CopyEach(copy.store, sources, targets, i + 1, done + [Record(copy.result, sources[i], targets[i])])
  {
  }

  lemma {:induction false} CopyEachKeepsDone(st: Store, sources: seq<Path>, targets: seq<Path>, i: nat,
                                             done: seq<CopyOutcome>, k: nat)
    requires |targets| == |sources| && i <= |sources| && k < |done|
    ensures CopyEach(st, sources, targets, i, done).outcomes[k] == done[k]
    decreases |sources| - i
  {
    if i < |sources| {
      var copy := CopyFile(st, sources[i], targets[i]);
      CopyEachKeepsDone(copy.store, sources, targets, i + 1, done + [Record(copy.result, sources[i], targets[i])], k);
    }
  }

  /** The outcome recorded at step `i` is that of copying `sources[i]` in
      the store the earlier copies left. */
  lemma CopyEachHead(st: Store, sources: seq<Path>, targets: seq<Path>, i: nat, done: seq<CopyOutcome>)
    requires |targets| == |sources| && |done| == i < |sources|
    ensures CopyEach(st, sources, targets, i, done).outcomes[i]
         == Record(CopyFile(st, sources[i], targets[i]).result, sources[i], targets[i])
  {
    var copy := CopyFile(st, sources[i], targets[i]);
    CopyEachStep(st, sources, targets, i, done);
    CopyEachKeepsDone(copy.store, sources, targets, i + 1, done + [Record(copy.result, sources[i], targets[i])], i);
  }

  /** The copy pass writes nothing but its targets. */
  lemma {:induction false} CopyEachFrame(st: Store, sources: seq<Path>, targets: seq<Path>, i: nat,
                                         done: seq<CopyOutcome>)
    requires |targets| == |sources| && i <= |sources|
    ensures AgreeOutside(st, CopyEach(st, sources, targets, i, done).store, TargetsFrom(targets, i))
    decreases |sources| - i
  {
    if i < |sources| {
      var copy := CopyFile(st, sources[i], targets[i]);
      var done' := done + [Record(copy.result, sources[i], targets[i])];
      CopyEachFrame(copy.store, sources, targets, i + 1, done');
      AgreeOutsideCompose(st, copy.store, CopyEach(copy.store, sources, targets, i + 1, done').store,
                          {targets[i]}, TargetsFrom(targets, i + 1));
    }
  }

  /** No copy changes which paths can be written. */
  lemma {:induction false} CopyEachKeepsWritability(st: Store, sources: seq<Path>, targets: seq<Path>, i: nat,
                                                    done: seq<CopyOutcome>, p: Path)
    requires |targets| == |sources| && i <= |sources|
    ensures CanWrite(CopyEach(st, sources, targets, i, done).store, p) == CanWrite(st, p)
    decreases |sources| - i
  {
    if i < |sources| {
      var copy := CopyFile(st, sources[i], targets[i]);
      CopyKeepsWritability(st, sources[i], targets[i], p);
      CopyEachKeepsWritability(copy.store, sources, targets, i + 1, done + [Record(copy.result, sources[i], targets[i])], p);
    }
  }

  /** A copy succeeds only into a target that was writable before the pass
      began: the other copies never make a target writable. */
  lemma {:induction false} CopiedTargetWasWritable(st: Store, sources: seq<Path>, targets: seq<Path>, i: nat,
                                                   done: seq<CopyOutcome>, j: nat)
    requires |targets| == |sources| && |done| == i <= j < |sources|
    requires CopyEach(st, sources, targets, i, done).outcomes[j].Copied?
    ensures CanWrite(st, targets[j])
    decreases |sources| - i
  {
    var copy := CopyFile(st, sources[i], targets[i]);
    var done' := done + [Record(copy.result, sources[i], targets[i])];
    if j == i {
      CopyEachHead(st, sources, targets, i, done);
    } else {
      CopyEachStep(st, sources, targets, i, done);
      CopiedTargetWasWritable(copy.store, sources, targets, i + 1, done', j);
      CopyKeepsWritability(st, sources[i], targets[i], targets[j]);
    }
  }

  /** Every outcome names its own source, in the order of the list, and
      every success its own target. */
  lemma {:induction false} OutcomesFollowSources(st: Store, sources: seq<Path>, targets: seq<Path>, i: nat,
                                                 done: seq<CopyOutcome>, j: nat)
    requires |targets| == |sources| && |done| == i <= j < |sources|
    ensures CopyEach(st, sources, targets, i, done).outcomes[j].source == sources[j]
    ensures CopyEach(st, sources, targets, i, done).outcomes[j].Copied?
        ==> CopyEach(st, sources, targets, i, done).outcomes[j].target == targets[j]
    decreases |sources| - i
  {
    var copy := CopyFile(st, sources[i], targets[i]);
    if j == i {
      CopyEachHead(st, sources, targets, i, done);
    } else {
      CopyEachStep(st, sources, targets, i, done);
      OutcomesFollowSources(copy.store, sources, targets, i + 1, done + [Record(copy.result, sources[i], targets[i])], j);
    }
  }

  /** No source lies where a copy will be written. */
  predicate NoSourceIsTarget(sources: seq<Path>, targets: seq<Path>) {
    forall k, l :: 0 <= k < |sources| && 0 <= l < |targets| ==> sources[k] != targets[l]
  }

  predicate DistinctTargets(targets: seq<Path>) {
    forall k, l :: 0 <= k < l < |targets| ==> targets[k] != targets[l]
  }

  predicate DistinctBasenames(sources: seq<Path>) {
    forall k, l :: 0 <= k < l < |sources| ==> Basename(sources[k]) != Basename(sources[l])
  }

  /** Distinct base names give distinct targets. */
  lemma DistinctBasenamesGiveDistinctTargets(dir: Path, sources: seq<Path>)
    requires DistinctBasenames(sources)
    ensures DistinctTargets(Targets(dir, sources))
  {
    var t := Targets(dir, sources);
    forall k, l | 0 <= k < l < |t| ensures t[k] != t[l] {
      BackupTargetCollision(dir, sources[k], sources[l]);
    }
  }

  /** When no source is a target, the copies are independent of each
      other: each succeeds exactly when its own source is readable and its
      own target writable in the store the pass starts from. This is why
      running them one after another models the concurrent `Promise.all`. */
  lemma {:induction false} CopyOutcomeIsIndependent(st: Store, sources: seq<Path>, targets: seq<Path>, i: nat,
                                                    done: seq<CopyOutcome>, j: nat)
    requires |targets| == |sources| && |done| == i <= j < |sources|
    requires NoSourceIsTarget(sources, targets)
    ensures CopyEach(st, sources, targets, i, done).outcomes[j].Copied?
        <==> ReadFile(st, sources[j]).Success? && CanWrite(st, targets[j])
    decreases |sources| - i
  {
    var copy := CopyFile(st, sources[i], targets[i]);
    var done' := done + [Record(copy.result, sources[i], targets[i])];
    if j == i {
      CopyEachHead(st, sources, targets, i, done);
    } else {
      CopyEachStep(st, sources, targets, i, done);
      CopyOutcomeIsIndependent(copy.store, sources, targets, i + 1, done', j);
      CopyKeepsInputs(st, sources, targets, i, j);
    }
  }

  /** Copy `i` changes neither whether a later source can be read, nor what
      it holds, nor whether a later target can be written. */
  lemma CopyKeepsInputs(st: Store, sources: seq<Path>, targets: seq<Path>, i: nat, j: nat)
    requires |targets| == |sources| && i < j < |sources|
    requires NoSourceIsTarget(sources, targets)
    ensures var after := CopyFile(st, sources[i], targets[i]).store;
      && ReadFile(after, sources[j]).Success? == ReadFile(st, sources[j]).Success?
      && (ReadFile(st, sources[j]).Success? ==> ReadFile(after, sources[j]) == ReadFile(st, sources[j]))
      && CanWrite(after, targets[j]) == CanWrite(st, targets[j])
  {
    var after := CopyFile(st, sources[i], targets[i]).store;
    assert sources[j] != targets[i];
    ReadFileOutside(st, after, {targets[i]}, sources[j]);
    CopyKeepsWritability(st, sources[i], targets[i], targets[j]);
  }

  lemma {:induction false} InTargetsFrom(targets: seq<Path>, i: nat, p: Path)
    requires i <= |targets| && p in TargetsFrom(targets, i)
    ensures exists k :: i <= k < |targets| && p == targets[k]
    decreases |targets| - i
  {
    if p != targets[i] {
      InTargetsFrom(targets, i + 1, p);
    }
  }

  /** With distinct targets, a target is written by its own copy only. */
  lemma TargetNotWrittenLater(targets: seq<Path>, j: nat)
    requires j < |targets| && DistinctTargets(targets)
    ensures targets[j] !in TargetsFrom(targets, j + 1)
  {
    if targets[j] in TargetsFrom(targets, j + 1) {
      InTargetsFrom(targets, j + 1, targets[j]);
      assert false;
    }
  }

  /** The copy made at step `i` survives the rest of the pass. */
  lemma FirstCopyHoldsSource(st: Store, sources: seq<Path>, targets: seq<Path>, i: nat, done: seq<CopyOutcome>)
    requires |targets| == |sources| && |done| == i < |sources|
    requires NoSourceIsTarget(sources, targets) && DistinctTargets(targets)
    requires CopyEach(st, sources, targets, i, done).outcomes[i].Copied?
    ensures ReadFile(CopyEach(st, sources, targets, i, done).store, targets[i]) == ReadFile(st, sources[i])
  {
    var copy := CopyFile(st, sources[i], targets[i]);
    var done' := done + [Record(copy.result, sources[i], targets[i])];
    var rest := CopyEach(copy.store, sources, targets, i + 1, done');
    assert CopyEach(st, sources, targets, i, done) == rest by {
      CopyEachStep(st, sources, targets, i, done);
    }
    assert copy.result.Success? by {
      CopyEachHead(st, sources, targets, i, done);
    }
    assert ReadFile(copy.store, targets[i]) == ReadFile(st, sources[i]) by {
      assert sources[i] != targets[i];
    }
    assert ReadFile(rest.store, targets[i]) == ReadFile(copy.store, targets[i]) by {
      CopyEachFrame(copy.store, sources, targets, i + 1, done');
      TargetNotWrittenLater(targets, i);
      ReadFileOutside(copy.store, rest.store, TargetsFrom(targets, i + 1), targets[i]);
    }
  }

  /** A backup is a faithful copy: when targets are distinct and no source
      is a target, every successful copy leaves its target holding the text
      its source held when the pass began. */
  lemma {:induction false} CopiedTargetHoldsSource(st: Store, sources: seq<Path>, targets: seq<Path>, i: nat,
                                                   done: seq<CopyOutcome>, j: nat)
    requires |targets| == |sources| && |done| == i <= j < |sources|
    requires NoSourceIsTarget(sources, targets) && DistinctTargets(targets)
    requires CopyEach(st, sources, targets, i, done).outcomes[j].Copied?
    ensures ReadFile(CopyEach(st, sources, targets, i, done).store, targets[j]) == ReadFile(st, sources[j])
    decreases |sources| - i
  {
    if j == i {
      FirstCopyHoldsSource(st, sources, targets, i, done);
    } else {
      var copy := CopyFile(st, sources[i], targets[i]);
      var done' := done + [Record(copy.result, sources[i], targets[i])];
      var rest := CopyEach(copy.store, sources, targets, i + 1, done');
      assert CopyEach(st, sources, targets, i, done) == rest by {
        CopyEachStep(st, sources, targets, i, done);
      }
      assert ReadFile(rest.store, targets[j]) == ReadFile(copy.store, sources[j]) by {
        CopiedTargetHoldsSource(copy.store, sources, targets, i + 1, done', j);
      }
      assert ReadFile(copy.store, sources[j]) == ReadFile(st, sources[j]) by {
        assert sources[j] != targets[i];
        ReadFileOutside(st, copy.store, {targets[i]}, sources[j]);
      }
    }
  }

  // ---------------------------------------------------------------------
  // Lemmas: whole backups
  // ---------------------------------------------------------------------

  /** The store the copies of a backup start from: the given one when a
      directory is remembered, otherwise the one in which it was created.
      Creating the directory adds directories only. */
  function CopyStart(r: Runner, st: Store, c: Clock): (start: Store)
    ensures start.files == st.files && st.dirs <= start.dirs
  {
    if r.backupDir.Some? then st else CreateBackupDir(r, st, c).store
  }

  /** A successful backup runs the copy pass from `CopyStart` into the
      remembered directory. */
  lemma ExecuteBackupCopies(r: Runner, st: Store, sources: seq<Path>, c: Clock)
    requires ExecuteBackup(r, st, sources, c).result.Success?
    ensures var x := ExecuteBackup(r, st, sources, c);
      var b := CopyAll(CopyStart(r, st, c), x.runner.backupDir.value, sources);
      x.result.value == b.outcomes && x.store == b.store
  {
  }

  /** What each copy of a successful backup does, the first backup (which
      creates the directory) included: copy `j` is about `sources[j]`; when
      no source is a target and the base names are distinct, it succeeds
      exactly when its source is readable and its target
      `<directory>/<base name>` writable once the directory exists, and the
      target then holds the source's text. */
  lemma BackupCopiesFaithfully(r: Runner, st: Store, sources: seq<Path>, c: Clock, j: nat)
    requires ExecuteBackup(r, st, sources, c).result.Success? && j < |sources|
    requires var dir := ExecuteBackup(r, st, sources, c).runner.backupDir.value;
      NoSourceIsTarget(sources, Targets(dir, sources)) && DistinctBasenames(sources)
    ensures ExecuteBackup(r, st, sources, c).result.value[j].source == sources[j]
    ensures var x := ExecuteBackup(r, st, sources, c); var start := CopyStart(r, st, c);
      var target := BackupTarget(x.runner.backupDir.value, sources[j]);
      x.result.value[j].Copied? <==> ReadFile(start, sources[j]).Success? && CanWrite(start, target)
    ensures var x := ExecuteBackup(r, st, sources, c); var start := CopyStart(r, st, c);
      var target := BackupTarget(x.runner.backupDir.value, sources[j]);
      x.result.value[j].Copied? ==> ReadFile(x.store, target) == ReadFile(start, sources[j])
  {
    var x := ExecuteBackup(r, st, sources, c);
    var dir := x.runner.backupDir.value;
    var start := CopyStart(r, st, c);
    var t := Targets(dir, sources);
    ExecuteBackupCopies(r, st, sources, c);
    OutcomesFollowSources(start, sources, t, 0, [], j);
    CopyOutcomeIsIndependent(start, sources, t, 0, [], j);
    if CopyAll(start, dir, sources).outcomes[j].Copied? {
      DistinctBasenamesGiveDistinctTargets(dir, sources);
      CopiedTargetHoldsSource(start, sources, t, 0, [], j);
    }
  }

  /** The same facts for a successful backup as written: on success it
      does exactly what the corrected backup does. */
  lemma AsWrittenCopiesFaithfully(r: Runner, st: Store, sources: seq<Path>, c: Clock, j: nat)
    requires ExecuteBackupAsWritten(r, st, sources, c).result.Success? && j < |sources|
    requires var dir := ExecuteBackupAsWritten(r, st, sources, c).runner.backupDir.value;
      NoSourceIsTarget(sources, Targets(dir, sources)) && DistinctBasenames(sources)
    ensures ExecuteBackupAsWritten(r, st, sources, c).result.value[j].source == sources[j]
    ensures var x := ExecuteBackupAsWritten(r, st, sources, c); var start := CopyStart(r, st, c);
      var target := BackupTarget(x.runner.backupDir.value, sources[j]);
      x.result.value[j].Copied? <==> ReadFile(start, sources[j]).Success? && CanWrite(start, target)
    ensures var x := ExecuteBackupAsWritten(r, st, sources, c); var start := CopyStart(r, st, c);
      var target := BackupTarget(x.runner.backupDir.value, sources[j]);
      x.result.value[j].Copied? ==> ReadFile(x.store, target) == ReadFile(start, sources[j])
  {
    BackupCopiesFaithfully(r, st, sources, c, j);
  }

  // ---------------------------------------------------------------------
  // Lemmas: the remembered directory
  // ---------------------------------------------------------------------

  /** Once chosen, the backup directory is reused: a second backup, at any
      later time, copies into the directory the first one chose. */
  lemma BackupDirIsChosenOnce(r: Runner, st: Store, s1: seq<Path>, s2: seq<Path>, c1: Clock, c2: Clock)
    requires ExecuteBackup(r, st, s1, c1).result.Success?
    ensures var first := ExecuteBackup(r, st, s1, c1);
      ExecuteBackup(first.runner, first.store, s2, c2).runner == first.runner
    ensures var first := ExecuteBackup(r, st, s1, c1);
      ExecuteBackup(first.runner, first.store, s2, c2).result.Success?
  {
  }

  /** The corrected backup keeps the remembered directory in existence. */
  lemma ExecuteBackupKeepsDirReady(r: Runner, st: Store, sources: seq<Path>, c: Clock)
    requires BackupDirReady(r, st)
    ensures var x := ExecuteBackup(r, st, sources, c); BackupDirReady(x.runner, x.store)
  {
    var x := ExecuteBackup(r, st, sources, c);
    if x.result.Success? {
      var dir := x.runner.backupDir.value;
      var before := if r.backupDir.Some? then st else CreateBackupDir(r, st, c).store;
      assert dir in before.dirs;
      CopyEachFrame(before, sources, Targets(dir, sources), 0, []);
    }
  }

  /** As written, a failed creation still leaves the directory remembered
      although it does not exist. */
  lemma AsWrittenRemembersMissingDir(r: Runner, st: Store, sources: seq<Path>, c: Clock)
    requires r.backupDir.None?
    requires MakeDirectory(st, BackupDirPath(r.cfg, c)).Failure?
    requires BackupDirPath(r.cfg, c) !in st.dirs
    ensures ExecuteBackupAsWritten(r, st, sources, c).result.Failure?
    ensures var x := ExecuteBackupAsWritten(r, st, sources, c); !BackupDirReady(x.runner, x.store)
  {
  }

  /** As written, every later backup through a remembered directory that
      does not exist fails every copy, and the failures are swallowed: the
      call succeeds with nothing backed up. */
  lemma AsWrittenLaterBackupsCopyNothing(r: Runner, st: Store, sources: seq<Path>, c: Clock, j: nat)
    requires r.backupDir.Some? && r.backupDir.value != "" && r.backupDir.value !in st.dirs
    requires j < |sources| && Basename(sources[j]) != ""
    ensures ExecuteBackupAsWritten(r, st, sources, c).result.Success?
    ensures ExecuteBackupAsWritten(r, st, sources, c).result.value[j].CopyFailed?
  {
    var dir := r.backupDir.value;
    var target := BackupTarget(dir, sources[j]);
    assert !CanWrite(st, target) by {
      BackupTargetShape(dir, sources[j]);
    }
    var b := CopyAll(st, dir, sources);
    assert ExecuteBackupAsWritten(r, st, sources, c).result.value == b.outcomes;
    assert Targets(dir, sources)[j] == target;
    if b.outcomes[j].Copied? {
      CopiedTargetWasWritable(st, sources, Targets(dir, sources), 0, [], j);
      assert false;
    }
  }

  /** The corrected backup never copies into a missing directory it has
      remembered: starting from a ready state it stays ready, so the case
      above cannot arise. */
  lemma CorrectedNeverRemembersMissingDir(r: Runner, st: Store, sources: seq<Path>, c: Clock)
    requires r.backupDir.None?
    ensures var x := ExecuteBackup(r, st, sources, c); BackupDirReady(x.runner, x.store)
  {
    ExecuteBackupKeepsDirReady(r, st, sources, c);
  }
}
