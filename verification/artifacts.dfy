/** The processor's configuration and the names and texts of the artifacts
    it writes under its base directory: per-file statistics under
    `procesados`, quarantined files and their error logs under `errores`,
    and the consolidated report. */
module Artifacts {
  import opened Paths
  import opened TextStats
  import opened JsonText

  /** A `ProcesadorArchivos` instance: its base directory (`directorioBase`). */
  datatype Config = Config(base: Path)

  function ProcessedDir(cfg: Config): Path { Join(cfg.base, "procesados") }

  function ErrorsDir(cfg: Config): Path { Join(cfg.base, "errores") }

  const StatsSuffix: string := "-stats.json"
  const ErrorLogSuffix: string := ".error.log"

  /** Where the statistics of `file` are written. */
  function StatsPath(cfg: Config, file: Path): Path {
    Join(ProcessedDir(cfg), Stem(file) + StatsSuffix)
  }

  /** Where a failing `file` is moved. */
  function QuarantinePath(cfg: Config, file: Path): Path {
    Join(ErrorsDir(cfg), Basename(file))
  }

  /** The error record written beside a quarantined `file`. */
  function ErrorLogPath(cfg: Config, file: Path): Path {
    Join(ErrorsDir(cfg), Basename(file) + ErrorLogSuffix)
  }

  function ReportPath(cfg: Config): Path {
    Join(cfg.base, "reporte-procesamiento.json")
  }

  /** The body of an error record; `now` is the ISO-8601 timestamp. */
  function ErrorLogText(message: string, now: string): string {
    "Error: " + message + "\nFecha: " + now
  }

  /** `JSON.stringify(estadisticas, null, 2)` rendered at nesting `level`. */
  function StatsText(st: FileStats, level: nat): string {
    ObjectText(StatsMembers(st), level)
  }

  /** The members of the statistics object, in the order they are printed. */
  function StatsMembers(st: FileStats): seq<(string, string)> {
    [("palabras", Decimal(st.words)), ("caracteres", Decimal(st.characters)),
     ("lineas", Decimal(st.lines)), ("ruta", Quote(st.path))]
  }

  /** The statistics file, line by line: `{`, one `"key": value` line per
      member at the next indent in the order of `StatsMembers`, separated
      by commas, and `}`; six lines in all. */
  lemma StatsTextLines(st: FileStats, level: nat)
    ensures SplitOn(StatsText(st, level), '\n')
         == ["{"] + CommaTerminated(MemberLines(StatsMembers(st), level)) + [Indent(level) + "}"]
    ensures |SplitOn(StatsText(st, level), '\n')| == 6
  {
    var members := StatsMembers(st);
    DecimalIsOneLine(st.words);
    DecimalIsOneLine(st.characters);
    DecimalIsOneLine(st.lines);
    QuoteIsOneLine(st.path);
    ObjectTextLines(members, level);
  }

  // ---------------------------------------------------------------------
  // Lemmas

  lemma SuffixedNameHasNoSeparator(name: string, suffix: string)
    requires HasNoSeparator(name)
    requires suffix == StatsSuffix || suffix == ErrorLogSuffix
    ensures HasNoSeparator(name + suffix)
  {
    NoSeparatorConcat(name, suffix);
  }
  // ---------------------------------------------------------------------

  /** The statistics file sits in `procesados` and is named after the base
      name of the file without its extension. */
  lemma StatsPathShape(cfg: Config, file: Path)
    ensures Dirname(StatsPath(cfg, file)) == ProcessedDir(cfg)
    ensures Basename(StatsPath(cfg, file)) == Stem(file) + StatsSuffix
    ensures Stem(file) + Extname(file) == Basename(file)
  {
    var name := Stem(file) + StatsSuffix;
    SuffixedNameHasNoSeparator(Stem(file), StatsSuffix);
    BasenameOfJoin(ProcessedDir(cfg), name);
    DirnameOfJoin(ProcessedDir(cfg), name);
  }

  /** Two files share a statistics file exactly when their stems agree, so
      `notas.txt` and `notas.md` overwrite each other's statistics. */
  lemma StatsPathCollision(cfg: Config, f1: Path, f2: Path)
    ensures StatsPath(cfg, f1) == StatsPath(cfg, f2) <==> Stem(f1) == Stem(f2)
  {
    var n1, n2 := Stem(f1) + StatsSuffix, Stem(f2) + StatsSuffix;
    SuffixedNameHasNoSeparator(Stem(f1), StatsSuffix);
    SuffixedNameHasNoSeparator(Stem(f2), StatsSuffix);
    JoinInjective(ProcessedDir(cfg), n1, ProcessedDir(cfg), n2);
    AppendCancel(Stem(f1), Stem(f2), StatsSuffix);
  }

  /** In particular a `.txt` and a `.md` file with the same name share one
      statistics file, wherever they live. */
  lemma TextAndMarkdownCollide(cfg: Config, d1: Path, d2: Path, name: string)
    requires name != "" && HasNoSeparator(name) && '.' !in name
    ensures StatsPath(cfg, Join(d1, name + ".txt")) == StatsPath(cfg, Join(d2, name + ".md"))
  {
    TextExtensionsAreSimple();
    StemOfTextName(d1, name, ".txt");
    StemOfTextName(d2, name, ".md");
    StatsPathCollision(cfg, Join(d1, name + ".txt"), Join(d2, name + ".md"));
  }

  /** An extension made of one leading dot and a dot-free, separator-free
      rest. */
  predicate SimpleExtension(ext: string) {
    |ext| >= 1 && ext[0] == '.' && HasNoSeparator(ext) && '.' !in ext[1..]
  }

  lemma TextExtensionsAreSimple()
    ensures SimpleExtension(".txt") && SimpleExtension(".md")
  {
    assert ".txt"[1..] == "txt";
    assert ".md"[1..] == "md";
  }

  /** The stem of `dir/<name><ext>` for a dot-free name and an extension
      with a single leading dot. */
  lemma StemOfTextName(dir: Path, name: string, ext: string)
    requires name != "" && HasNoSeparator(name) && '.' !in name && SimpleExtension(ext)
    ensures Stem(Join(dir, name + ext)) == name
    ensures Extname(Join(dir, name + ext)) == ext
  {
    var b := name + ext;
    NoSeparatorConcat(name, ext);
    BasenameOfJoin(dir, b);
    ExtensionOfDottedName(name, ext);
    assert b[..|b| - |ext|] == name;
  }

  lemma ExtensionOfDottedName(name: string, ext: string)
    requires name != "" && '.' !in name
    requires |ext| >= 1 && ext[0] == '.' && '.' !in ext[1..]
    ensures SegmentExtension(name + ext) == ext
  {
    var b := name + ext;
    assert b == (name + ".") + ext[1..];
    LastIndexOfAppend(name + ".", ext[1..], '.');
    assert LastIndexOf(name + ".", '.') == |name|;
    assert b[|name|..] == ext;
    assert b[0] == name[0] && name[0] in name;
  }

  /** A quarantined file keeps its base name inside `errores`, and its error
      record is that name with `.error.log` appended, a different path. */
  lemma QuarantineNames(cfg: Config, file: Path)
    ensures Dirname(QuarantinePath(cfg, file)) == ErrorsDir(cfg)
    ensures Basename(QuarantinePath(cfg, file)) == Basename(file) || Basename(file) == ""
    ensures Dirname(ErrorLogPath(cfg, file)) == ErrorsDir(cfg)
    ensures Basename(ErrorLogPath(cfg, file)) == Basename(file) + ErrorLogSuffix
    ensures ErrorLogPath(cfg, file) != QuarantinePath(cfg, file)
  {
    var name := Basename(file);
    var log := name + ErrorLogSuffix;
    SuffixedNameHasNoSeparator(name, ErrorLogSuffix);
    DirnameOfJoin(ErrorsDir(cfg), name);
    DirnameOfJoin(ErrorsDir(cfg), log);
    BasenameOfJoin(ErrorsDir(cfg), log);
    if name != "" {
      BasenameOfJoin(ErrorsDir(cfg), name);
    }
    assert |ErrorLogPath(cfg, file)| > |QuarantinePath(cfg, file)|;
  }

  /** Distinct quarantined names get distinct targets and distinct records. */
  lemma QuarantineInjective(cfg: Config, f1: Path, f2: Path)
    ensures QuarantinePath(cfg, f1) == QuarantinePath(cfg, f2) <==> Basename(f1) == Basename(f2)
    ensures ErrorLogPath(cfg, f1) == ErrorLogPath(cfg, f2) <==> Basename(f1) == Basename(f2)
  {
    var b1, b2 := Basename(f1), Basename(f2);
    var l1, l2 := b1 + ErrorLogSuffix, b2 + ErrorLogSuffix;
    SuffixedNameHasNoSeparator(b1, ErrorLogSuffix);
    SuffixedNameHasNoSeparator(b2, ErrorLogSuffix);
    JoinInjective(ErrorsDir(cfg), b1, ErrorsDir(cfg), b2);
    JoinInjective(ErrorsDir(cfg), l1, ErrorsDir(cfg), l2);
    AppendCancel(b1, b2, ErrorLogSuffix);
  }

  /** Statistics files end in `n`, error records in `g`. */
  lemma ArtifactLastChars(cfg: Config, file: Path)
    ensures var s := StatsPath(cfg, file); s[|s| - 1] == 'n'
    ensures var l := ErrorLogPath(cfg, file); l[|l| - 1] == 'g'
  {
  }
}
