/** Processing of a single file: `procesarArchivoTexto`, which reads the
    file, computes and writes its statistics, and on any failure hands the
    file to `moverAErrores`, which moves it to `errores` and writes an error
    record beside it, swallowing its own failures. */
module FileProcessing {
  import opened Wrappers
  import opened Paths
  import opened TextStats
  import opened FileStore
  import opened Artifacts

  /** How far a quarantine got: both steps, only the move, or nothing. The
      source logs the last two and never rethrows them. */
  datatype QuarantineOutcome = Moved | MovedWithoutLog(error: IoError) | NotMoved(error: IoError)

  datatype Quarantined = Quarantined(store: Store, outcome: QuarantineOutcome)

  /** What happened to one file: its statistics, or the error that made it
      fail (which the source rethrows to its caller) and the quarantine that
      followed. */
  datatype FileOutcome =
    | Processed(stats: FileStats)
    | Failed(path: Path, error: IoError, quarantine: QuarantineOutcome)

  datatype Step = Step(store: Store, outcome: FileOutcome)

  /** The error record never coincides with the failing file or its
      quarantine target. */
  lemma ErrorLogIsSeparate(cfg: Config, file: Path)
    ensures ErrorLogPath(cfg, file) != file
    ensures ErrorLogPath(cfg, file) != QuarantinePath(cfg, file)
  {
    var name := Basename(file);
    var logName := name + ErrorLogSuffix;
    SuffixedNameHasNoSeparator(name, ErrorLogSuffix);
    BasenameOfJoin(ErrorsDir(cfg), logName);
    assert |ErrorLogPath(cfg, file)| > |QuarantinePath(cfg, file)|;
  }

  /** Moves `file` to `target` and then writes `text` to `log`: a failed
      move ends the operation, a failed write leaves the file moved. */
  function MoveAndLog(st: Store, file: Path, target: Path, log: Path, text: string): (q: Quarantined)
    ensures q.outcome.NotMoved? <==> Rename(st, file, target).Failure?
    ensures q.outcome.NotMoved? ==> q.store == st
  {
    match Rename(st, file, target)
    case Failure(e) => Quarantined(st, NotMoved(e))
    case Success(moved) =>
      match WriteFile(moved, log, text)
      case Failure(e) => Quarantined(moved, MovedWithoutLog(e))
      case Success(logged) => Quarantined(logged, Moved)
  }

  /** `moverAErrores(file, message)` with `now` standing for the clock. */
  function Quarantine(cfg: Config, st: Store, file: Path, message: string, now: string): (q: Quarantined)
    ensures q.outcome.NotMoved? <==> Rename(st, file, QuarantinePath(cfg, file)).Failure?
    ensures q.outcome.NotMoved? ==> q.store == st
  {
    MoveAndLog(st, file, QuarantinePath(cfg, file), ErrorLogPath(cfg, file), ErrorLogText(message, now))
  }

  lemma MoveAndLogMoves(st: Store, file: Path, target: Path, log: Path, text: string)
    requires log != file && log != target
    ensures var q := MoveAndLog(st, file, target, log, text);
            !q.outcome.NotMoved? ==>
              && Lookup(q.store, target) == Lookup(st, file)
              && (file != target ==> Lookup(q.store, file) == None)
  {
    match Rename(st, file, target)
    case Failure(_) =>
    case Success(moved) =>
      match WriteFile(moved, log, text)
      case Failure(_) =>
      case Success(logged) =>
        assert Lookup(logged, target) == Lookup(moved, target);
        assert Lookup(logged, file) == Lookup(moved, file);
  }

  lemma MoveAndLogWritesLog(st: Store, file: Path, target: Path, log: Path, text: string)
    requires log != file && log != target
    ensures var q := MoveAndLog(st, file, target, log, text);
            && (q.outcome.Moved? <==> Rename(st, file, target).Success? && CanWrite(st, log))
            && (q.outcome.Moved? ==> ReadFile(q.store, log) == Success(text))
  {
    match Rename(st, file, target)
    case Failure(_) =>
    case Success(moved) =>
      CanWriteOutside(st, moved, {file, target}, log);
  }

  lemma MoveAndLogFrame(st: Store, file: Path, target: Path, log: Path, text: string)
    ensures AgreeOutside(st, MoveAndLog(st, file, target, log, text).store, {file, target, log})
  {
    match Rename(st, file, target)
    case Failure(_) =>
    case Success(moved) =>
      match WriteFile(moved, log, text)
      case Failure(_) =>
        AgreeOutsideWiden(st, moved, {file, target}, {file, target, log});
      case Success(logged) =>
        AgreeOutsideCompose(st, moved, logged, {file, target}, {log});
        assert {file, target} + {log} == {file, target, log};
  }

  /** A successful move takes the file out of its place into `errores`. */
  lemma QuarantineMovesFile(cfg: Config, st: Store, file: Path, message: string, now: string)
    ensures var q := Quarantine(cfg, st, file, message, now);
            !q.outcome.NotMoved? ==>
              && Lookup(q.store, QuarantinePath(cfg, file)) == Lookup(st, file)
              && (file != QuarantinePath(cfg, file) ==> Lookup(q.store, file) == None)
  {
    ErrorLogIsSeparate(cfg, file);
    MoveAndLogMoves(st, file, QuarantinePath(cfg, file), ErrorLogPath(cfg, file), ErrorLogText(message, now));
  }

  /** The error record is written exactly when the move succeeded and the
      record's path was writable beforehand. */
  lemma QuarantineWritesLog(cfg: Config, st: Store, file: Path, message: string, now: string)
    ensures var q := Quarantine(cfg, st, file, message, now);
            && (q.outcome.Moved? <==>
                  Rename(st, file, QuarantinePath(cfg, file)).Success? && CanWrite(st, ErrorLogPath(cfg, file)))
            && (q.outcome.Moved? ==> ReadFile(q.store, ErrorLogPath(cfg, file)) == Success(ErrorLogText(message, now)))
  {
    ErrorLogIsSeparate(cfg, file);
    MoveAndLogWritesLog(st, file, QuarantinePath(cfg, file), ErrorLogPath(cfg, file), ErrorLogText(message, now));
  }

  /** Nothing outside the file, its target and its record changes. */
  lemma QuarantineFrame(cfg: Config, st: Store, file: Path, message: string, now: string)
    ensures AgreeOutside(st, Quarantine(cfg, st, file, message, now).store,
                         {file, QuarantinePath(cfg, file), ErrorLogPath(cfg, file)})
  {
    MoveAndLogFrame(st, file, QuarantinePath(cfg, file), ErrorLogPath(cfg, file), ErrorLogText(message, now));
  }

  /** The three facts above together. */
  lemma QuarantineEffect(cfg: Config, st: Store, file: Path, message: string, now: string)
    ensures var q := Quarantine(cfg, st, file, message, now);
            && (!q.outcome.NotMoved? ==>
                  && Lookup(q.store, QuarantinePath(cfg, file)) == Lookup(st, file)
                  && (file != QuarantinePath(cfg, file) ==> Lookup(q.store, file) == None))
            && (q.outcome.Moved? <==>
                  Rename(st, file, QuarantinePath(cfg, file)).Success? && CanWrite(st, ErrorLogPath(cfg, file)))
            && (q.outcome.Moved? ==> ReadFile(q.store, ErrorLogPath(cfg, file)) == Success(ErrorLogText(message, now)))
            && AgreeOutside(st, q.store, {file, QuarantinePath(cfg, file), ErrorLogPath(cfg, file)})
  {
    QuarantineMovesFile(cfg, st, file, message, now);
    QuarantineWritesLog(cfg, st, file, message, now);
    QuarantineFrame(cfg, st, file, message, now);
  }

  /** The paths one file's processing may touch. */
  function Touched(cfg: Config, file: Path): set<Path> {
    {file, QuarantinePath(cfg, file), ErrorLogPath(cfg, file), StatsPath(cfg, file)}
  }

  /** A path different from the four a file's processing may touch is not
      touched. */
  lemma NotTouched(cfg: Config, file: Path, x: Path)
    requires x != file && x != QuarantinePath(cfg, file) && x != ErrorLogPath(cfg, file) && x != StatsPath(cfg, file)
    ensures x !in Touched(cfg, file)
  {
    NotAmongFour(x, file, QuarantinePath(cfg, file), ErrorLogPath(cfg, file), StatsPath(cfg, file));
  }

  lemma NotAmongFour<T>(x: T, a: T, b: T, c: T, d: T)
    requires x != a && x != b && x != c && x != d
    ensures x !in {a, b, c, d}
  {
  }

  /** `procesarArchivoTexto(file)`; `now` is the clock reading a quarantine
      would record. */
  function ProcessFile(cfg: Config, st: Store, file: Path, now: string): (r: Step)
    ensures r.outcome.Processed? <==> ReadFile(st, file).Success? && CanWrite(st, StatsPath(cfg, file))
    ensures r.outcome.Processed? ==> r.outcome.stats == ComputeStats(file, ReadFile(st, file).value)
    ensures r.outcome.Failed? ==> r.outcome.path == file
  {
    match ReadFile(st, file)
    case Failure(e) =>
      var q := Quarantine(cfg, st, file, Message(e), now);
      Step(q.store, Failed(file, e, q.outcome))
    case Success(content) =>
      var stats := ComputeStats(file, content);
      match WriteFile(st, StatsPath(cfg, file), StatsText(stats, 0))
      case Failure(e) =>
        var q := Quarantine(cfg, st, file, Message(e), now);
        Step(q.store, Failed(file, e, q.outcome))
      case Success(written) => Step(written, Processed(stats))
  }

  /** A processed file gets its statistics file and nothing else changes; a
      failed file goes through `moverAErrores` with the error's message. */
  lemma ProcessFileEffect(cfg: Config, st: Store, file: Path, now: string)
    ensures var r := ProcessFile(cfg, st, file, now);
            && (r.outcome.Processed? ==>
                  && ReadFile(r.store, StatsPath(cfg, file)) == Success(StatsText(r.outcome.stats, 0))
                  && AgreeOutside(st, r.store, {StatsPath(cfg, file)}))
            && (r.outcome.Failed? ==>
                  var q := Quarantine(cfg, st, file, Message(r.outcome.error), now);
                  r.store == q.store && r.outcome.quarantine == q.outcome)
  {
  }

  /** When a file stands where `procesados` should be, a readable file
      fails to write its statistics with `ENOTDIR`, and that error is what
      its quarantine records. */
  lemma ProcessedDirIsAFile(cfg: Config, st: Store, file: Path, now: string)
    requires ProcessedDir(cfg) in st.files && ProcessedDir(cfg) !in st.dirs
    requires StatsPath(cfg, file) !in st.dirs && ReadFile(st, file).Success?
    ensures var r := ProcessFile(cfg, st, file, now);
            && r.outcome.Failed?
            && r.outcome.error == IoError(ENOTDIR, "open", StatsPath(cfg, file))
  {
    StatsPathShape(cfg, file);
  }

  /** Processing a file touches at most the file, its quarantine target,
      its error record and its statistics file. */
  lemma ProcessFileFrame(cfg: Config, st: Store, file: Path, now: string)
    ensures AgreeOutside(st, ProcessFile(cfg, st, file, now).store, Touched(cfg, file))
  {
    var r := ProcessFile(cfg, st, file, now);
    ProcessFileEffect(cfg, st, file, now);
    if r.outcome.Failed? {
      QuarantineEffect(cfg, st, file, Message(r.outcome.error), now);
    }
  }

  /** What the store holds at a directory other than the moved file stays
      as it was: a rename or write onto a directory fails. */
  lemma MoveAndLogKeepsDirectoryPaths(st: Store, file: Path, target: Path, log: Path, text: string, q: Path)
    requires q in st.dirs && q != file
    ensures Lookup(MoveAndLog(st, file, target, log, text).store, q) == Lookup(st, q)
  {
    match Rename(st, file, target)
    case Failure(_) =>
    case Success(moved) =>
      assert Lookup(moved, q) == Lookup(st, q);
      match WriteFile(moved, log, text)
      case Failure(_) =>
      case Success(logged) =>
        assert Lookup(logged, q) == Lookup(moved, q);
  }

  /** Processing a file never changes what the store holds at a directory
      other than the file itself. */
  lemma ProcessFileKeepsDirectoryPaths(cfg: Config, st: Store, file: Path, now: string, q: Path)
    requires q in st.dirs && q != file
    ensures Lookup(ProcessFile(cfg, st, file, now).store, q) == Lookup(st, q)
  {
    var r := ProcessFile(cfg, st, file, now);
    ProcessFileEffect(cfg, st, file, now);
    if r.outcome.Failed? {
      MoveAndLogKeepsDirectoryPaths(st, file, QuarantinePath(cfg, file), ErrorLogPath(cfg, file),
                                    ErrorLogText(Message(r.outcome.error), now), q);
    }
  }

  /** Processing a file keeps whether a path outside the file, its
      quarantine target and its error record can be written: the only other
      path it may touch is its own statistics file, which it writes only
      when that was writable and which stays writable. */
  lemma ProcessFileKeepsWritability(cfg: Config, st: Store, file: Path, now: string, sp: Path)
    requires sp != file && sp != QuarantinePath(cfg, file) && sp != ErrorLogPath(cfg, file)
    ensures CanWrite(ProcessFile(cfg, st, file, now).store, sp) == CanWrite(st, sp)
  {
    var r := ProcessFile(cfg, st, file, now);
    assert r.store.dirs == st.dirs by {
      ProcessFileFrame(cfg, st, file, now);
    }
    if sp != StatsPath(cfg, file) {
      assert Lookup(r.store, sp) == Lookup(st, sp) by {
        ProcessFileFrame(cfg, st, file, now);
        NotTouched(cfg, file, sp);
      }
    } else if r.outcome.Processed? {
      assert Lookup(r.store, sp) != Some(None) && CanWrite(st, sp) by {
        ProcessFileEffect(cfg, st, file, now);
      }
    } else {
      assert Lookup(r.store, sp) == Lookup(st, sp) by {
        var q := Quarantine(cfg, st, file, Message(r.outcome.error), now);
        ProcessFileEffect(cfg, st, file, now);
        QuarantineEffect(cfg, st, file, Message(r.outcome.error), now);
        UnchangedOutsideThree(st, q.store, file, QuarantinePath(cfg, file), ErrorLogPath(cfg, file), sp);
      }
    }
  }

  /** Whether a file is processed or quarantined, and how, depends only on
      the store at its own path, at its error record and at its statistics
      file, at the directories holding them (whose being files turns
      `ENOENT` into `ENOTDIR`), and on the directories. */
  lemma OutcomeDependsOnlyOnOwnPaths(cfg: Config, s1: Store, s2: Store, file: Path, now: string)
    requires s1.dirs == s2.dirs
    requires Lookup(s1, file) == Lookup(s2, file)
    requires Lookup(s1, ErrorLogPath(cfg, file)) == Lookup(s2, ErrorLogPath(cfg, file))
    requires CanWrite(s1, StatsPath(cfg, file)) == CanWrite(s2, StatsPath(cfg, file))
    requires Lookup(s1, Dirname(file)) == Lookup(s2, Dirname(file))
    requires Lookup(s1, ErrorsDir(cfg)) == Lookup(s2, ErrorsDir(cfg))
    requires Lookup(s1, ProcessedDir(cfg)) == Lookup(s2, ProcessedDir(cfg))
    ensures ProcessFile(cfg, s1, file, now).outcome == ProcessFile(cfg, s2, file, now).outcome
  {
    assert ReadFile(s1, file) == ReadFile(s2, file);
    match ReadFile(s1, file)
    case Failure(e) =>
      QuarantineDependsOnlyOnOwnPaths(cfg, s1, s2, file, Message(e), now);
    case Success(content) =>
      var stats := StatsPath(cfg, file);
      var text := StatsText(ComputeStats(file, content), 0);
      StatsPathShape(cfg, file);
      WriteErrorDependsOnlyOnWritability(s1, s2, stats, text);
      if !CanWrite(s1, stats) {
        var e := WriteFile(s1, stats, text).error;
        QuarantineDependsOnlyOnOwnPaths(cfg, s1, s2, file, Message(e), now);
      }
  }

  lemma WriteErrorDependsOnlyOnWritability(s1: Store, s2: Store, p: Path, text: string)
    requires s1.dirs == s2.dirs
    requires CanWrite(s1, p) == CanWrite(s2, p)
    requires Lookup(s1, Dirname(p)) == Lookup(s2, Dirname(p))
    ensures WriteFile(s1, p, text).Failure? ==> WriteFile(s1, p, text) == WriteFile(s2, p, text)
  {
  }

  lemma MoveAndLogDependsOnlyOn(s1: Store, s2: Store, file: Path, target: Path, log: Path, text: string)
    requires log != file && log != target
    requires s1.dirs == s2.dirs && Lookup(s1, file) == Lookup(s2, file) && Lookup(s1, log) == Lookup(s2, log)
    requires Lookup(s1, Dirname(file)) == Lookup(s2, Dirname(file))
    requires Lookup(s1, Dirname(target)) == Lookup(s2, Dirname(target))
    requires Lookup(s1, Dirname(log)) == Lookup(s2, Dirname(log))
    ensures MoveAndLog(s1, file, target, log, text).outcome == MoveAndLog(s2, file, target, log, text).outcome
  {
    var r1, r2 := Rename(s1, file, target), Rename(s2, file, target);
    if r1.Failure? {
      assert r1 == r2;
    } else {
      assert Lookup(r1.value, log) == Lookup(r2.value, log);
      assert Lookup(r1.value, Dirname(log)) == Lookup(r2.value, Dirname(log));
      WriteErrorDependsOnlyOnWritability(r1.value, r2.value, log, text);
    }
  }

  lemma QuarantineDependsOnlyOnOwnPaths(cfg: Config, s1: Store, s2: Store, file: Path, message: string, now: string)
    requires s1.dirs == s2.dirs
    requires Lookup(s1, file) == Lookup(s2, file)
    requires Lookup(s1, ErrorLogPath(cfg, file)) == Lookup(s2, ErrorLogPath(cfg, file))
    requires Lookup(s1, Dirname(file)) == Lookup(s2, Dirname(file))
    requires Lookup(s1, ErrorsDir(cfg)) == Lookup(s2, ErrorsDir(cfg))
    ensures Quarantine(cfg, s1, file, message, now).outcome == Quarantine(cfg, s2, file, message, now).outcome
  {
    ErrorLogIsSeparate(cfg, file);
    QuarantineNames(cfg, file);
    MoveAndLogDependsOnlyOn(s1, s2, file, QuarantinePath(cfg, file), ErrorLogPath(cfg, file), ErrorLogText(message, now));
  }
}
