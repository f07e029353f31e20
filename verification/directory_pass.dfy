/** `procesarDirectorio`: list a directory, keep the `.txt` and `.md`
    entries in listing order, and process them one after another, collecting
    the statistics of those that succeed. A failing file is quarantined and
    the pass continues; only a failed listing aborts it. */
module DirectoryPass {
  import opened Wrappers
  import opened Paths
  import opened TextStats
  import opened FileStore
  import opened Artifacts
  import opened FileProcessing

  /** The eligibility test of the listing filter. */
  predicate IsTextName(name: string) {
    EndsWith(name, ".txt") || EndsWith(name, ".md")
  }

  /** What a directory listing promises about its entries. */
  predicate IsEntryName(name: string) {
    name != "" && HasNoSeparator(name)
  }

  predicate Distinct(names: seq<string>) {
    forall k, l :: 0 <= k < l < |names| ==> names[k] != names[l]
  }

  /** A listing of eligible entries, as the pass receives it. */
  predicate ValidNames(names: seq<string>) {
    && Distinct(names)
    && forall k :: 0 <= k < |names| ==> IsEntryName(names[k]) && IsTextName(names[k])
  }

  /** The listing filter: the names ending in `.txt` or `.md`, in listing
      order. */
  function Eligible(names: seq<string>): (r: seq<string>)
    ensures |r| <= |names|
  {
    if |names| == 0 then []
    else (if IsTextName(names[0]) then [names[0]] else []) + Eligible(names[1..])
  }

  function OutcomePath(o: FileOutcome): Path {
    match o
    case Processed(stats) => stats.path
    case Failed(path, _, _) => path
  }

  /** The statistics of the processed files, in order (`resultados`). */
  function Results(outcomes: seq<FileOutcome>): (r: seq<FileStats>)
    ensures |r| <= |outcomes|
  {
    if |outcomes| == 0 then []
    else
      (match outcomes[0] case Processed(s) => [s] case Failed(_, _, _) => [])
      + Results(outcomes[1..])
  }

  /** The paths of the failed files, in order (the source's error lines). */
  function FailedPaths(outcomes: seq<FileOutcome>): (r: seq<Path>)
    ensures |r| <= |outcomes|
  {
    if |outcomes| == 0 then []
    else
      (match outcomes[0] case Processed(_) => [] case Failed(p, _, _) => [p])
      + FailedPaths(outcomes[1..])
  }

  datatype Batch = Batch(store: Store, outcomes: seq<FileOutcome>)

  /** Reference definition of the loop, as a left fold: `done` holds the
      outcomes of `names[..i]`, and the pass goes on with `names[i]`, which
      reads the clock as `clock(i)`, against the store the earlier files
      left. */
  function RunPass(cfg: Config, st: Store, dir: Path, names: seq<string>, clock: nat -> string,
                   i: nat, done: seq<FileOutcome>): (b: Batch)
    requires i <= |names|
    ensures |b.outcomes| == |done| + |names| - i
    decreases |names| - i
  {
    if i == |names| then Batch(st, done)
    else
      var step := ProcessFile(cfg, st, Join(dir, names[i]), clock(i));
      RunPass(cfg, step.store, dir, names, clock, i + 1, done + [step.outcome])
  }

  /** The whole pass over the eligible `names` of `dir`. */
  function Pass(cfg: Config, st: Store, dir: Path, names: seq<string>, clock: nat -> string): Batch {
    RunPass(cfg, st, dir, names, clock, 0, [])
  }

  /** What `procesarDirectorio` leaves behind: the store, the statistics it
      returns and the files it reported as failed. */
  datatype DirectoryRun = DirectoryRun(store: Store, results: seq<FileStats>, failed: seq<Path>)

  /** The `for … of` loop of `procesarDirectorio` over the eligible names:
      a failure is recorded and the loop moves on. */
  method ProcessNames(cfg: Config, st: Store, dir: Path, names: seq<string>, clock: nat -> string)
    returns (run: DirectoryRun)
    ensures var b := Pass(cfg, st, dir, names, clock);
            run == DirectoryRun(b.store, Results(b.outcomes), FailedPaths(b.outcomes))
    ensures |run.results| + |run.failed| == |names|
  {
    ghost var whole := Pass(cfg, st, dir, names, clock);
    var store := st;
    var results: seq<FileStats> := [];
    var failed: seq<Path> := [];
    ghost var done: seq<FileOutcome> := [];
    for i := 0 to |names|
      invariant |done| == i
      invariant RunPass(cfg, store, dir, names, clock, i, done) == whole
      invariant results == Results(done) && failed == FailedPaths(done)
    {
      var step := ProcessFile(cfg, store, Join(dir, names[i]), clock(i));
      RunPassStep(cfg, store, dir, names, clock, i, done);
      RecordOutcome(done, step.outcome);
      store := step.store;
      match step.outcome {
        case Processed(s) => results := results + [s];
        case Failed(p, _, _) => failed := failed + [p];
      }
      done := done + [step.outcome];
    }
    ResultsAndFailuresCover(done);
    return DirectoryRun(store, results, failed);
  }

  /** `procesarDirectorio(dir)`, given the outcome of `fs.readdir(dir)`:
      only a failed listing is an error of the whole pass. */
  method ProcessDirectory(cfg: Config, st: Store, dir: Path, listing: Result<seq<string>, IoError>, clock: nat -> string)
    returns (r: Result<DirectoryRun, IoError>)
    ensures r.Failure? <==> listing.Failure?
    ensures listing.Failure? ==> r.error == listing.error
    ensures listing.Success? ==>
              var b := Pass(cfg, st, dir, Eligible(listing.value), clock);
              r.value == DirectoryRun(b.store, Results(b.outcomes), FailedPaths(b.outcomes))
    ensures r.Success? ==> |r.value.results| + |r.value.failed| == |Eligible(listing.value)|
  {
    if listing.Failure? {
      return Failure(listing.error);
    }
    var run := ProcessNames(cfg, st, dir, Eligible(listing.value), clock);
    return Success(run);
  }

  // ---------------------------------------------------------------------
  // Lemmas: the filter
  // ---------------------------------------------------------------------

  /** Filtering commutes with concatenation, so the filter keeps the
      listing order. */
  lemma {:induction false} EligibleAppend(a: seq<string>, b: seq<string>)
    ensures Eligible(a + b) == Eligible(a) + Eligible(b)
    decreases |a|
  {
    if |a| == 0 {
      assert a + b == b;
    } else {
      var head := if IsTextName(a[0]) then [a[0]] else [];
      assert (a + b)[0] == a[0];
      assert (a + b)[1..] == a[1..] + b;
      assert Eligible(a + b) == head + Eligible(a[1..] + b);
      assert Eligible(a) == head + Eligible(a[1..]);
      EligibleAppend(a[1..], b);
      assert head + (Eligible(a[1..]) + Eligible(b)) == (head + Eligible(a[1..])) + Eligible(b);
    }
  }

  /** The filter keeps exactly the listed names that end in `.txt` or
      `.md`. */
  lemma {:induction false} EligibleKeepsExactlyTextNames(names: seq<string>, x: string)
    ensures x in Eligible(names) <==> x in names && IsTextName(x)
    decreases |names|
  {
    if |names| > 0 {
      var head := if IsTextName(names[0]) then [names[0]] else [];
      assert Eligible(names) == head + Eligible(names[1..]);
      assert x in Eligible(names) <==> x in head || x in Eligible(names[1..]);
      EligibleKeepsExactlyTextNames(names[1..], x);
      assert x in names <==> x == names[0] || x in names[1..] by {
        assert names == [names[0]] + names[1..];
      }
    }
  }

  lemma EligibleExample()
    ensures Eligible(["a.txt", "b.md", "c.bin"]) == ["a.txt", "b.md"]
  {
    var names := ["a.txt", "b.md", "c.bin"];
    assert IsTextName("a.txt") by {
      assert "a.txt"[1..] == ".txt";
    }
    assert IsTextName("b.md") by {
      assert "b.md"[1..] == ".md";
    }
    assert !IsTextName("c.bin") by {
      assert "c.bin"[4] == 'n';
      assert !EndsWith("c.bin", ".txt");
      assert !EndsWith("c.bin", ".md");
    }
    assert Eligible(["c.bin"]) == [] by {
      assert ["c.bin"][1..] == [];
    }
    assert Eligible(["b.md", "c.bin"]) == ["b.md"] by {
      assert ["b.md", "c.bin"][1..] == ["c.bin"];
    }
    assert Eligible(names) == ["a.txt"] + Eligible(["b.md", "c.bin"]) by {
      assert names[1..] == ["b.md", "c.bin"];
    }
  }

  /** The entries of a directory listing that pass the filter form a valid
      input for the pass. */
  lemma {:induction false} EligibleOfListing(names: seq<string>)
    requires Distinct(names)
    requires forall k :: 0 <= k < |names| ==> IsEntryName(names[k])
    ensures ValidNames(Eligible(names))
    decreases |names|
  {
    if |names| > 0 {
      var rest := Eligible(names[1..]);
      EligibleOfListing(names[1..]);
      if IsTextName(names[0]) {
        assert names[0] !in rest by {
          assert names[0] !in names[1..];
          EligibleKeepsExactlyTextNames(names[1..], names[0]);
        }
        assert Eligible(names) == [names[0]] + rest;
        ValidNamesCons(names[0], rest);
      } else {
        assert Eligible(names) == rest;
      }
    }
  }

  /** A new eligible name in front of a valid listing keeps it valid. */
  lemma ValidNamesCons(n: string, rest: seq<string>)
    requires ValidNames(rest) && IsEntryName(n) && IsTextName(n) && n !in rest
    ensures ValidNames([n] + rest)
  {
    var e := [n] + rest;
    forall k, l | 0 <= k < l < |e| ensures e[k] != e[l] {
      assert e[l] == rest[l - 1];
      if k == 0 {
        assert rest[l - 1] in rest;
      } else {
        assert e[k] == rest[k - 1];
      }
    }
    forall k | 0 <= k < |e| ensures IsEntryName(e[k]) && IsTextName(e[k]) {
      if k > 0 {
        assert e[k] == rest[k - 1];
      }
    }
  }

  lemma {:induction false} ResultsAppend(a: seq<FileOutcome>, b: seq<FileOutcome>)
    ensures Results(a + b) == Results(a) + Results(b)
    decreases |a|
  {
    if |a| == 0 {
      assert a + b == b;
    } else {
      var head: seq<FileStats> := match a[0] case Processed(s) => [s] case Failed(_, _, _) => [];
      assert (a + b)[0] == a[0];
      assert (a + b)[1..] == a[1..] + b;
      assert Results(a + b) == head + Results(a[1..] + b);
      assert Results(a) == head + Results(a[1..]);
      ResultsAppend(a[1..], b);
      assert head + (Results(a[1..]) + Results(b)) == (head + Results(a[1..])) + Results(b);
    }
  }

  lemma {:induction false} FailedPathsAppend(a: seq<FileOutcome>, b: seq<FileOutcome>)
    ensures FailedPaths(a + b) == FailedPaths(a) + FailedPaths(b)
    decreases |a|
  {
    if |a| == 0 {
      assert a + b == b;
    } else {
      var head: seq<Path> := match a[0] case Processed(_) => [] case Failed(p, _, _) => [p];
      assert (a + b)[0] == a[0];
      assert (a + b)[1..] == a[1..] + b;
      assert FailedPaths(a + b) == head + FailedPaths(a[1..] + b);
      assert FailedPaths(a) == head + FailedPaths(a[1..]);
      FailedPathsAppend(a[1..], b);
      assert head + (FailedPaths(a[1..]) + FailedPaths(b)) == (head + FailedPaths(a[1..])) + FailedPaths(b);
    }
  }

  /** Every result is the statistics of some processed outcome. */
  lemma {:induction false} ResultsComeFromOutcomes(outcomes: seq<FileOutcome>, s: FileStats)
    requires s in Results(outcomes)
    ensures exists k :: 0 <= k < |outcomes| && outcomes[k] == Processed(s)
    decreases |outcomes|
  {
    if outcomes[0] != Processed(s) {
      ResultsComeFromOutcomes(outcomes[1..], s);
      var k :| 0 <= k < |outcomes[1..]| && outcomes[1..][k] == Processed(s);
      assert outcomes[k + 1] == Processed(s);
    }
  }

  /** Every failed path is the path of some failed outcome. */
  lemma {:induction false} FailedPathsComeFromOutcomes(outcomes: seq<FileOutcome>, x: Path)
    requires x in FailedPaths(outcomes)
    ensures exists k :: 0 <= k < |outcomes| && outcomes[k].Failed? && outcomes[k].path == x
    decreases |outcomes|
  {
    if !(outcomes[0].Failed? && outcomes[0].path == x) {
      FailedPathsComeFromOutcomes(outcomes[1..], x);
      var k :| 0 <= k < |outcomes[1..]| && outcomes[1..][k].Failed? && outcomes[1..][k].path == x;
      assert outcomes[k + 1] == outcomes[1..][k];
    }
  }

  /** Recording one more outcome appends to exactly one of the two lists. */
  lemma RecordOutcome(done: seq<FileOutcome>, o: FileOutcome)
    ensures o.Processed? ==> Results(done + [o]) == Results(done) + [o.stats] && FailedPaths(done + [o]) == FailedPaths(done)
    ensures o.Failed? ==> Results(done + [o]) == Results(done) && FailedPaths(done + [o]) == FailedPaths(done) + [o.path]
  {
    ResultsAppend(done, [o]);
    FailedPathsAppend(done, [o]);
  }

  /** Every processed file is either among the results or among the
      failures. */
  lemma {:induction false} ResultsAndFailuresCover(outcomes: seq<FileOutcome>)
    ensures |Results(outcomes)| + |FailedPaths(outcomes)| == |outcomes|
  {
    if |outcomes| > 0 {
      ResultsAndFailuresCover(outcomes[1..]);
    }
  }

  // ---------------------------------------------------------------------
  // Lemmas: one file's processing does not disturb another's
  // ---------------------------------------------------------------------

  lemma TextNameLastChar(dir: Path, name: string)
    requires IsEntryName(name) && IsTextName(name)
    ensures var p := Join(dir, name); p[|p| - 1] == 't' || p[|p| - 1] == 'd'
  {
  }

  /** The entry path and the quarantine target of an eligible entry end in
      `t` or `d`; statistics files end in `n` and error records in `g`. */
  lemma EntryPathsByLastChar(cfg: Config, dir: Path, n: string)
    requires IsEntryName(n) && IsTextName(n)
    ensures var p := Join(dir, n);
            && QuarantinePath(cfg, p) == Join(ErrorsDir(cfg), n)
            && p[|p| - 1] in {'t', 'd'}
            && var q := QuarantinePath(cfg, p); q[|q| - 1] in {'t', 'd'}
  {
    BasenameOfJoin(dir, n);
    TextNameLastChar(dir, n);
    TextNameLastChar(ErrorsDir(cfg), n);
  }

  /** Entry paths and quarantine targets of different entries differ. */
  lemma EntryPathsOfDifferentNames(cfg: Config, dir: Path, n0: string, n: string)
    requires IsEntryName(n0) && IsEntryName(n) && n0 != n
    ensures Join(dir, n) != Join(dir, n0)
    ensures Join(dir, n) != Join(ErrorsDir(cfg), n0)
    ensures Join(ErrorsDir(cfg), n) != Join(dir, n0)
    ensures Join(ErrorsDir(cfg), n) != Join(ErrorsDir(cfg), n0)
  {
    JoinInjective(dir, n, dir, n0);
    JoinInjective(dir, n, ErrorsDir(cfg), n0);
    JoinInjective(ErrorsDir(cfg), n, dir, n0);
    JoinInjective(ErrorsDir(cfg), n, ErrorsDir(cfg), n0);
  }

  lemma EntryNotTouched(cfg: Config, dir: Path, n0: string, n: string)
    requires IsEntryName(n0) && IsTextName(n0) && IsEntryName(n) && IsTextName(n) && n0 != n
    ensures Join(dir, n) !in Touched(cfg, Join(dir, n0))
  {
    var p0, p := Join(dir, n0), Join(dir, n);
    assert p != p0 && p != QuarantinePath(cfg, p0) by {
      EntryPathsByLastChar(cfg, dir, n0);
      EntryPathsOfDifferentNames(cfg, dir, n0, n);
    }
    assert p != ErrorLogPath(cfg, p0) && p != StatsPath(cfg, p0) by {
      EntryPathsByLastChar(cfg, dir, n);
      ArtifactLastChars(cfg, p0);
    }
    NotTouched(cfg, p0, p);
  }

  lemma TargetNotTouched(cfg: Config, dir: Path, n0: string, n: string)
    requires IsEntryName(n0) && IsTextName(n0) && IsEntryName(n) && IsTextName(n) && n0 != n
    ensures QuarantinePath(cfg, Join(dir, n)) !in Touched(cfg, Join(dir, n0))
  {
    var p0, q := Join(dir, n0), QuarantinePath(cfg, Join(dir, n));
    assert q != p0 && q != QuarantinePath(cfg, p0) by {
      EntryPathsByLastChar(cfg, dir, n0);
      EntryPathsByLastChar(cfg, dir, n);
      EntryPathsOfDifferentNames(cfg, dir, n0, n);
    }
    assert q != ErrorLogPath(cfg, p0) && q != StatsPath(cfg, p0) by {
      EntryPathsByLastChar(cfg, dir, n);
      ArtifactLastChars(cfg, p0);
    }
    NotTouched(cfg, p0, q);
  }

  lemma LogNotTouched(cfg: Config, dir: Path, n0: string, n: string)
    requires IsEntryName(n0) && IsTextName(n0) && IsEntryName(n) && IsTextName(n) && n0 != n
    ensures ErrorLogPath(cfg, Join(dir, n)) !in Touched(cfg, Join(dir, n0))
  {
    var p0, p := Join(dir, n0), Join(dir, n);
    var l := ErrorLogPath(cfg, p);
    assert l != ErrorLogPath(cfg, p0) by {
      BasenameOfJoin(dir, n0);
      BasenameOfJoin(dir, n);
      QuarantineInjective(cfg, p, p0);
    }
    assert l != p0 && l != QuarantinePath(cfg, p0) && l != StatsPath(cfg, p0) by {
      EntryPathsByLastChar(cfg, dir, n0);
      ArtifactLastChars(cfg, p0);
      ArtifactLastChars(cfg, p);
    }
    NotTouched(cfg, p0, l);
  }

  lemma StatsNotTouched(cfg: Config, dir: Path, n0: string, n: string)
    requires IsEntryName(n0) && IsTextName(n0)
    ensures StatsPath(cfg, Join(dir, n)) !in {Join(dir, n0), QuarantinePath(cfg, Join(dir, n0)), ErrorLogPath(cfg, Join(dir, n0))}
  {
    var p0, s := Join(dir, n0), StatsPath(cfg, Join(dir, n));
    assert s != p0 && s != QuarantinePath(cfg, p0) by {
      EntryPathsByLastChar(cfg, dir, n0);
      ArtifactLastChars(cfg, Join(dir, n));
    }
    assert s != ErrorLogPath(cfg, p0) by {
      ArtifactLastChars(cfg, p0);
      ArtifactLastChars(cfg, Join(dir, n));
    }
  }

  /** The paths processing `dir/n0` may touch are none of the paths whose
      contents decide the fate of another entry `dir/n`. */
  lemma TouchedPathsAreDisjoint(cfg: Config, dir: Path, n0: string, n: string)
    requires IsEntryName(n0) && IsTextName(n0) && IsEntryName(n) && IsTextName(n) && n0 != n
    ensures var p := Join(dir, n);
            && p !in Touched(cfg, Join(dir, n0))
            && QuarantinePath(cfg, p) !in Touched(cfg, Join(dir, n0))
            && ErrorLogPath(cfg, p) !in Touched(cfg, Join(dir, n0))
            && StatsPath(cfg, p) !in {Join(dir, n0), QuarantinePath(cfg, Join(dir, n0)), ErrorLogPath(cfg, Join(dir, n0))}
  {
    EntryNotTouched(cfg, dir, n0, n);
    TargetNotTouched(cfg, dir, n0, n);
    LogNotTouched(cfg, dir, n0, n);
    StatsNotTouched(cfg, dir, n0, n);
  }

  /** Processing `dir/n0` leaves the directories, another entry `dir/n`,
      its quarantine target and its error record as they were. */
  lemma StepKeepsOtherPaths(cfg: Config, st: Store, dir: Path, n0: string, n: string, now: string)
    requires IsEntryName(n0) && IsTextName(n0) && IsEntryName(n) && IsTextName(n) && n0 != n
    ensures var s' := ProcessFile(cfg, st, Join(dir, n0), now).store;
            var p := Join(dir, n);
            && s'.dirs == st.dirs
            && Lookup(s', p) == Lookup(st, p)
            && Lookup(s', QuarantinePath(cfg, p)) == Lookup(st, QuarantinePath(cfg, p))
            && Lookup(s', ErrorLogPath(cfg, p)) == Lookup(st, ErrorLogPath(cfg, p))
  {
    EntryNotTouched(cfg, dir, n0, n);
    TargetNotTouched(cfg, dir, n0, n);
    LogNotTouched(cfg, dir, n0, n);
    ProcessFileFrame(cfg, st, Join(dir, n0), now);
  }

  /** Processing `dir/n0` does not change whether any other statistics file
      can be written: it either writes its own statistics file, which stays
      writable, or leaves statistics files alone. */
  lemma StepKeepsStatsWritability(cfg: Config, st: Store, dir: Path, n0: string, n: string, now: string)
    requires IsEntryName(n0) && IsTextName(n0)
    ensures var s' := ProcessFile(cfg, st, Join(dir, n0), now).store;
            var sp := StatsPath(cfg, Join(dir, n));
            CanWrite(s', sp) == CanWrite(st, sp)
  {
    StatsNotTouched(cfg, dir, n0, n);
    ProcessFileKeepsWritability(cfg, st, Join(dir, n0), now, StatsPath(cfg, Join(dir, n)));
  }

  /** After processing `dir/n0`, everything that decides the outcome of
      another entry `dir/n`, and where a quarantine of it would land, is as
      it was. */
  lemma StepPreservesOthers(cfg: Config, st: Store, dir: Path, n0: string, n: string, now: string)
    requires IsEntryName(n0) && IsTextName(n0) && IsEntryName(n) && IsTextName(n) && n0 != n
    ensures var s' := ProcessFile(cfg, st, Join(dir, n0), now).store;
            var p := Join(dir, n);
            && s'.dirs == st.dirs
            && Lookup(s', p) == Lookup(st, p)
            && Lookup(s', QuarantinePath(cfg, p)) == Lookup(st, QuarantinePath(cfg, p))
            && Lookup(s', ErrorLogPath(cfg, p)) == Lookup(st, ErrorLogPath(cfg, p))
            && CanWrite(s', StatsPath(cfg, p)) == CanWrite(st, StatsPath(cfg, p))
  {
    StepKeepsOtherPaths(cfg, st, dir, n0, n, now);
    StepKeepsStatsWritability(cfg, st, dir, n0, n, now);
  }

  /** The directory holding an entry `dir/n` is `dir`, or the root when
      `dir` is empty. */
  lemma EntryParent(dir: Path, n: string)
    requires IsEntryName(n)
    ensures Dirname(Join(dir, n)) == if dir == "" then "/" else dir
  {
    if dir == "" {
      var p := Join(dir, n);
      assert p[0] == '/';
      assert forall i :: 0 < i < |p| ==> p[i] == n[i - 1];
    } else {
      DirnameOfJoin(dir, n);
    }
  }

  /** A directory whose last character is `s`, such as `errores` or
      `procesados`, is none of the paths processing `dir/n0` may touch. */
  lemma DirectoryNotTouched(cfg: Config, dir: Path, n0: string, d: Path)
    requires IsEntryName(n0) && IsTextName(n0) && |d| > 0 && d[|d| - 1] == 's'
    ensures d !in Touched(cfg, Join(dir, n0))
  {
    var p0 := Join(dir, n0);
    EntryPathsByLastChar(cfg, dir, n0);
    ArtifactLastChars(cfg, p0);
    NotTouched(cfg, p0, d);
  }

  /** Processing `dir/n0` in an existing directory `dir` leaves the store
      as it was at the directories holding another entry's paths: `dir`,
      `errores` and `procesados`. So none of them turns into a file between
      two entries. */
  lemma StepKeepsParents(cfg: Config, st: Store, dir: Path, n0: string, n: string, now: string)
    requires IsEntryName(n0) && IsTextName(n0) && IsEntryName(n) && dir in st.dirs
    ensures var s' := ProcessFile(cfg, st, Join(dir, n0), now).store;
            && Lookup(s', Dirname(Join(dir, n))) == Lookup(st, Dirname(Join(dir, n)))
            && Lookup(s', ErrorsDir(cfg)) == Lookup(st, ErrorsDir(cfg))
            && Lookup(s', ProcessedDir(cfg)) == Lookup(st, ProcessedDir(cfg))
  {
    var p0 := Join(dir, n0);
    var s' := ProcessFile(cfg, st, p0, now).store;
    ProcessFileFrame(cfg, st, p0, now);
    DirectoryNotTouched(cfg, dir, n0, ErrorsDir(cfg));
    DirectoryNotTouched(cfg, dir, n0, ProcessedDir(cfg));
    EntryParent(dir, n);
    if dir == "" {
      assert "/" !in Touched(cfg, p0) by {
        ArtifactLastChars(cfg, p0);
        EntryPathsByLastChar(cfg, dir, n0);
        assert |p0| > 1 && |QuarantinePath(cfg, p0)| > 1;
        NotTouched(cfg, p0, "/");
      }
    } else {
      assert dir != p0;
      ProcessFileKeepsDirectoryPaths(cfg, st, p0, now, dir);
    }
  }

  /** One step of the fold. */
  lemma RunPassStep(cfg: Config, st: Store, dir: Path, names: seq<string>, clock: nat -> string,
                    i: nat, done: seq<FileOutcome>)
    requires i < |names|
    ensures var step := ProcessFile(cfg, st, Join(dir, names[i]), clock(i));
            RunPass(cfg, st, dir, names, clock, i, done)
            == RunPass(cfg, step.store, dir, names, clock, i + 1, done + [step.outcome])
  {
  }

  /** The fold never revisits the outcomes it has already collected. */
  lemma {:induction false} RunPassKeepsDone(cfg: Config, st: Store, dir: Path, names: seq<string>,
                                            clock: nat -> string, i: nat, done: seq<FileOutcome>, k: nat)
    requires i <= |names| && k < |done|
    ensures RunPass(cfg, st, dir, names, clock, i, done).outcomes[k] == done[k]
    decreases |names| - i
  {
    if i < |names| {
      var step := ProcessFile(cfg, st, Join(dir, names[i]), clock(i));
      RunPassKeepsDone(cfg, step.store, dir, names, clock, i + 1, done + [step.outcome], k);
    }
  }

  /** Processing `names[i..]` leaves an entry that is not among them, and
      its quarantine slot, untouched. */
  lemma {:induction false} PassPreservesOthers(cfg: Config, st: Store, dir: Path, names: seq<string>,
                                               clock: nat -> string, i: nat, done: seq<FileOutcome>, n: string)
    requires ValidNames(names) && i <= |names| && IsEntryName(n) && IsTextName(n)
    requires forall k :: i <= k < |names| ==> names[k] != n
    ensures var f := RunPass(cfg, st, dir, names, clock, i, done).store;
            var p := Join(dir, n);
            && Lookup(f, p) == Lookup(st, p)
            && Lookup(f, QuarantinePath(cfg, p)) == Lookup(st, QuarantinePath(cfg, p))
    decreases |names| - i
  {
    if i < |names| {
      var step := ProcessFile(cfg, st, Join(dir, names[i]), clock(i));
      StepPreservesOthers(cfg, st, dir, names[i], n, clock(i));
      PassPreservesOthers(cfg, step.store, dir, names, clock, i + 1, done + [step.outcome], n);
    }
  }

  /** Each file's outcome within the pass is the outcome it would have had
      if it had been processed alone against the store the pass started
      from: earlier files never change a later file's fate. */
  lemma {:induction false} BatchOutcomeMatchesSolo(cfg: Config, st: Store, dir: Path, names: seq<string>,
                                                   clock: nat -> string, i: nat, done: seq<FileOutcome>, j: nat)
    requires ValidNames(names) && |done| == i <= j < |names| && dir in st.dirs
    ensures RunPass(cfg, st, dir, names, clock, i, done).outcomes[j]
            == ProcessFile(cfg, st, Join(dir, names[j]), clock(j)).outcome
    decreases |names| - i
  {
    var step := ProcessFile(cfg, st, Join(dir, names[i]), clock(i));
    var done' := done + [step.outcome];
    if i == j {
      RunPassKeepsDone(cfg, step.store, dir, names, clock, i + 1, done', i);
    } else {
      var file, now := Join(dir, names[j]), clock(j);
      assert step.store.dirs == st.dirs by {
        StepPreservesOthers(cfg, st, dir, names[i], names[j], clock(i));
      }
      assert RunPass(cfg, step.store, dir, names, clock, i + 1, done').outcomes[j]
          == ProcessFile(cfg, step.store, file, now).outcome by {
        BatchOutcomeMatchesSolo(cfg, step.store, dir, names, clock, i + 1, done', j);
      }
      assert ProcessFile(cfg, step.store, file, now).outcome == ProcessFile(cfg, st, file, now).outcome by {
        StepPreservesOthers(cfg, st, dir, names[i], names[j], clock(i));
        StepKeepsParents(cfg, st, dir, names[i], names[j], clock(i));
        OutcomeDependsOnlyOnOwnPaths(cfg, step.store, st, file, now);
      }
    }
  }

  /** A file ends up among the results exactly when it was readable and its
      statistics file writable before the pass began, and then its
      statistics are those of its initial content. */
  lemma ProcessedIffReadableAndWritable(cfg: Config, st: Store, dir: Path, names: seq<string>,
                                        clock: nat -> string, j: nat)
    requires ValidNames(names) && j < |names| && dir in st.dirs
    ensures var o := Pass(cfg, st, dir, names, clock).outcomes[j];
            var p := Join(dir, names[j]);
            && (o.Processed? <==> ReadFile(st, p).Success? && CanWrite(st, StatsPath(cfg, p)))
            && (o.Processed? ==> o.stats == ComputeStats(p, ReadFile(st, p).value))
  {
    BatchOutcomeMatchesSolo(cfg, st, dir, names, clock, 0, [], j);
  }

  /** The outcome at position `k` is about the `k`-th eligible entry. */
  lemma {:induction false} OutcomePathsFollowListing(cfg: Config, st: Store, dir: Path, names: seq<string>,
                                                     clock: nat -> string, i: nat, done: seq<FileOutcome>, k: nat)
    requires |done| == i <= k < |names|
    ensures OutcomePath(RunPass(cfg, st, dir, names, clock, i, done).outcomes[k]) == Join(dir, names[k])
    decreases |names| - i
  {
    var step := ProcessFile(cfg, st, Join(dir, names[i]), clock(i));
    var done' := done + [step.outcome];
    if i < k {
      OutcomePathsFollowListing(cfg, step.store, dir, names, clock, i + 1, done', k);
    } else {
      RunPassKeepsDone(cfg, step.store, dir, names, clock, i + 1, done', i);
      if step.outcome.Processed? {
        assert step.outcome.stats.path == Join(dir, names[i]);
      }
    }
  }

  /** A processed outcome and a failed one are about different paths. */
  lemma OutcomesOfDifferentEntries(cfg: Config, st: Store, dir: Path, names: seq<string>,
                                   clock: nat -> string, k: nat, l: nat)
    requires ValidNames(names) && k < |names| && l < |names|
    requires var b := Pass(cfg, st, dir, names, clock);
             b.outcomes[k].Processed? && b.outcomes[l].Failed?
    ensures var b := Pass(cfg, st, dir, names, clock);
            b.outcomes[k].stats.path != b.outcomes[l].path
  {
    var b := Pass(cfg, st, dir, names, clock);
    assert names[k] != names[l] by {
      assert k != l;
      if k < l {
        assert names[k] != names[l];
      } else {
        assert names[l] != names[k];
      }
    }
    assert b.outcomes[k].stats.path == Join(dir, names[k]) by {
      OutcomePathsFollowListing(cfg, st, dir, names, clock, 0, [], k);
    }
    assert b.outcomes[l].path == Join(dir, names[l]) by {
      OutcomePathsFollowListing(cfg, st, dir, names, clock, 0, [], l);
    }
    JoinInjective(dir, names[k], dir, names[l]);
  }

  /** No path is both among the results and among the failures. */
  lemma SuccessesAndFailuresAreDisjoint(cfg: Config, st: Store, dir: Path, names: seq<string>,
                                        clock: nat -> string)
    requires ValidNames(names)
    ensures var b := Pass(cfg, st, dir, names, clock);
            forall s :: s in Results(b.outcomes) ==> s.path !in FailedPaths(b.outcomes)
  {
    var b := Pass(cfg, st, dir, names, clock);
    forall s | s in Results(b.outcomes)
      ensures s.path !in FailedPaths(b.outcomes)
    {
      ResultsComeFromOutcomes(b.outcomes, s);
      var k :| 0 <= k < |b.outcomes| && b.outcomes[k] == Processed(s);
      if s.path in FailedPaths(b.outcomes) {
        FailedPathsComeFromOutcomes(b.outcomes, s.path);
        var l :| 0 <= l < |b.outcomes| && b.outcomes[l].Failed? && b.outcomes[l].path == s.path;
        OutcomesOfDifferentEntries(cfg, st, dir, names, clock, k, l);
        assert false;
      }
    }
  }

  /** A failing file whose quarantine move succeeded is gone from the
      scanned directory at the end of the pass and sits, with its original
      content, in `errores`. */
  lemma {:induction false} QuarantinedFileLeavesDirectory(cfg: Config, st: Store, dir: Path, names: seq<string>,
                                                          clock: nat -> string, i: nat, done: seq<FileOutcome>, j: nat)
    requires ValidNames(names) && |done| == i <= j < |names| && dir != ErrorsDir(cfg)
    requires var o := RunPass(cfg, st, dir, names, clock, i, done).outcomes[j];
             o.Failed? && !o.quarantine.NotMoved?
    ensures var f := RunPass(cfg, st, dir, names, clock, i, done).store;
            && Lookup(f, Join(dir, names[j])) == None
            && Lookup(f, Join(ErrorsDir(cfg), names[j])) == Lookup(st, Join(dir, names[j]))
    decreases |names| - i
  {
    if i == j {
      QuarantinedHere(cfg, st, dir, names, clock, i, done);
    } else {
      var step := ProcessFile(cfg, st, Join(dir, names[i]), clock(i));
      var done' := done + [step.outcome];
      RunPassStep(cfg, st, dir, names, clock, i, done);
      QuarantinedFileLeavesDirectory(cfg, step.store, dir, names, clock, i + 1, done', j);
      StepPreservesOthers(cfg, st, dir, names[i], names[j], clock(i));
      BasenameOfJoin(dir, names[j]);
    }
  }

  /** The quarantine of `names[i]`, made at step `i`, survives the rest of
      the pass. */
  lemma QuarantinedHere(cfg: Config, st: Store, dir: Path, names: seq<string>,
                        clock: nat -> string, i: nat, done: seq<FileOutcome>)
    requires ValidNames(names) && |done| == i < |names| && dir != ErrorsDir(cfg)
    requires var o := RunPass(cfg, st, dir, names, clock, i, done).outcomes[i];
             o.Failed? && !o.quarantine.NotMoved?
    ensures var f := RunPass(cfg, st, dir, names, clock, i, done).store;
            && Lookup(f, Join(dir, names[i])) == None
            && Lookup(f, Join(ErrorsDir(cfg), names[i])) == Lookup(st, Join(dir, names[i]))
  {
    var p := Join(dir, names[i]);
    var step := ProcessFile(cfg, st, p, clock(i));
    var done' := done + [step.outcome];
    RunPassStep(cfg, st, dir, names, clock, i, done);
    RunPassKeepsDone(cfg, step.store, dir, names, clock, i + 1, done', i);
    var q := QuarantinePath(cfg, p);
    assert q == Join(ErrorsDir(cfg), names[i]) && p != q by {
      BasenameOfJoin(dir, names[i]);
      JoinInjective(dir, names[i], ErrorsDir(cfg), names[i]);
    }
    assert Lookup(step.store, p) == None && Lookup(step.store, q) == Lookup(st, p) by {
      ProcessFileEffect(cfg, st, p, clock(i));
      QuarantineEffect(cfg, st, p, Message(step.outcome.error), clock(i));
    }
    PassPreservesOthers(cfg, step.store, dir, names, clock, i + 1, done', names[i]);
  }
}
