/** The consolidated report of a processing run (`generarReporte`): totals
    over the per-file statistics, the mean number of words rounded the way
    `Math.round` rounds, and the pretty-printed JSON written under the base
    directory. */
module Report {
  import opened Wrappers
  import opened TextStats
  import opened JsonText
  import opened FileStore
  import opened Artifacts

  /** The report object. `averageWords` is `None` when there are no
      results: the source divides by zero, obtains `NaN`, and
      `JSON.stringify` writes it as `null`. */
  datatype Report = Report(
    generatedAt: string,
    totalFiles: nat,
    totalWords: nat,
    totalCharacters: nat,
    averageWords: Option<nat>,
    processedFiles: nat,
    detail: seq<FileStats>)

  function SumWords(rs: seq<FileStats>): nat {
    if |rs| == 0 then 0 else rs[0].words + SumWords(rs[1..])
  }

  function SumCharacters(rs: seq<FileStats>): nat {
    if |rs| == 0 then 0 else rs[0].characters + SumCharacters(rs[1..])
  }

  /** `Math.round(total / n)`: the integer nearest to the mean, halves
      rounded up (see `RoundHalfUpIsNearest`). */
  function RoundHalfUp(total: nat, n: nat): nat
    requires n > 0
  {
    (2 * total + n) / (2 * n)
  }

  /** The rounded mean `r` satisfies `r - 1/2 <= total/n < r + 1/2`. */
  lemma RoundHalfUpIsNearest(total: nat, n: nat)
    requires n > 0
    ensures var r := RoundHalfUp(total, n); n * (2 * r - 1) <= 2 * total < n * (2 * r + 1)
  {
    RoundingBounds(total, n, RoundHalfUp(total, n), (2 * total + n) % (2 * n));
  }

  lemma RoundingBounds(total: nat, n: nat, q: int, rho: int)
    requires n > 0 && 0 <= rho < 2 * n
    requires 2 * total + n == 2 * n * q + rho
    ensures n * (2 * q - 1) <= 2 * total < n * (2 * q + 1)
  {
    assert n * (2 * q - 1) == 2 * n * q - n;
    assert n * (2 * q + 1) == 2 * n * q + n;
  }

  lemma MulMonotone(n: nat, a: int, b: int)
    requires a <= b
    ensures n * a <= n * b
  {
    assert n * b - n * a == n * (b - a);
  }

  /** The report built from the results of a pass; `now` is the ISO-8601
      time of generation. */
  function BuildReport(results: seq<FileStats>, now: string): (r: Report)
    ensures r.totalFiles == |results| && r.processedFiles == |results|
    ensures r.detail == results
    ensures r.averageWords.None? <==> |results| == 0
    ensures r.totalWords == SumWords(results) && r.totalCharacters == SumCharacters(results)
    ensures r.averageWords.Some? ==> r.averageWords.value == RoundHalfUp(r.totalWords, r.totalFiles)
  {
    var words := SumWords(results);
    Report(now, |results|, words, SumCharacters(results),
           if |results| == 0 then None else Some(RoundHalfUp(words, |results|)),
           |results|, results)
  }

  /** `JSON.stringify(reporte, null, 2)`. */
  function ReportText(r: Report): string {
    ObjectText(ReportMembers(r), 0)
  }

  /** The members of the report object, in the order they are printed; the
      globals are an object and the detail an array, one level down. */
  function ReportMembers(r: Report): seq<(string, string)> {
    [("fechaGeneracion", Quote(r.generatedAt)),
     ("totalArchivos", Decimal(r.totalFiles)),
     ("estadisticasGlobales", ObjectText(GlobalsMembers(r), 1)),
     ("detalleArchivos", ArrayText(seq(|r.detail|, k requires 0 <= k < |r.detail| => StatsText(r.detail[k], 2)), 1))]
  }

  /** The members of `estadisticasGlobales`; a missing average is `NaN`,
      which `JSON.stringify` writes as `null`. */
  function GlobalsMembers(r: Report): seq<(string, string)> {
    var average := match r.averageWords case None => "null" case Some(v) => Decimal(v);
    [("totalPalabras", Decimal(r.totalWords)),
     ("totalCaracteres", Decimal(r.totalCharacters)),
     ("promedioPalabras", average),
     ("archivosProcesados", Decimal(r.processedFiles))]
  }

  /** Builds the report, writes it to `reporte-procesamiento.json` and
      returns it; a failed write is the operation's failure. */
  function GenerateReport(cfg: Config, st: Store, results: seq<FileStats>, now: string)
    : (r: Result<(Report, Store), IoError>)
    ensures r.Success? <==> CanWrite(st, ReportPath(cfg))
    ensures r.Success? ==> r.value.0 == BuildReport(results, now)
    ensures r.Success? ==> ReadFile(r.value.1, ReportPath(cfg)) == Success(ReportText(r.value.0))
    ensures r.Success? ==> AgreeOutside(st, r.value.1, {ReportPath(cfg)})
    ensures r.Failure? ==> r.error == WriteFile(st, ReportPath(cfg), ReportText(BuildReport(results, now))).error
  {
    var report := BuildReport(results, now);
    match WriteFile(st, ReportPath(cfg), ReportText(report))
    case Failure(e) => Failure(e)
    case Success(st') => Success((report, st'))
  }

  // ---------------------------------------------------------------------
  // Lemmas
  // ---------------------------------------------------------------------

  /** Rounding has exactly one answer: any integer within half a unit of
      the mean is the one `RoundHalfUp` picks. */
  lemma RoundHalfUpUnique(total: nat, n: nat, s: int)
    requires n > 0
    requires n * (2 * s - 1) <= 2 * total < n * (2 * s + 1)
    ensures s == RoundHalfUp(total, n)
  {
    var r := RoundHalfUp(total, n);
    RoundHalfUpIsNearest(total, n);
    if s < r {
      MulMonotone(n, 2 * s + 1, 2 * r - 1);
      assert false;
    } else if r < s {
      MulMonotone(n, 2 * r + 1, 2 * s - 1);
      assert false;
    }
  }

  /** Ties go up, as with `Math.round`: means of 1.5 and 2.5 become 2 and 3. */
  lemma RoundHalfUpTiesGoUp()
    ensures RoundHalfUp(3, 2) == 2
    ensures RoundHalfUp(5, 2) == 3
  {
  }

  /** Other means go to the nearest integer: 5/3 becomes 2, 4/3 becomes 1. */
  lemma RoundHalfUpNearestExamples()
    ensures RoundHalfUp(5, 3) == 2
    ensures RoundHalfUp(4, 3) == 1
  {
  }

  /** Totals are additive over concatenated result lists. */
  lemma {:induction false} SumsOfConcatenation(a: seq<FileStats>, b: seq<FileStats>)
    ensures SumWords(a + b) == SumWords(a) + SumWords(b)
    ensures SumCharacters(a + b) == SumCharacters(a) + SumCharacters(b)
  {
    if |a| > 0 {
      assert (a + b)[1..] == a[1..] + b;
      SumsOfConcatenation(a[1..], b);
    } else {
      assert a + b == b;
    }
  }

  /** Word total of a list whose every count lies in `[lo, hi]`. */
  lemma {:induction false} SumWordsBounds(rs: seq<FileStats>, lo: nat, hi: nat)
    requires forall k :: 0 <= k < |rs| ==> lo <= rs[k].words <= hi
    ensures |rs| * lo <= SumWords(rs) <= |rs| * hi
  {
    if |rs| > 0 {
      SumWordsBounds(rs[1..], lo, hi);
      assert |rs| * lo == lo + (|rs| - 1) * lo;
      assert |rs| * hi == hi + (|rs| - 1) * hi;
    }
  }

  /** The reported average lies between the smallest and the largest word
      count of the files it summarises. */
  lemma AverageWithinRange(results: seq<FileStats>, lo: nat, hi: nat, now: string)
    requires |results| > 0
    requires forall k :: 0 <= k < |results| ==> lo <= results[k].words <= hi
    ensures BuildReport(results, now).averageWords.Some?
    ensures lo <= BuildReport(results, now).averageWords.value <= hi
  {
    var n := |results|;
    var t := SumWords(results);
    RoundHalfUpIsNearest(t, n);
    SumWordsBounds(results, lo, hi);
    RoundedNotBelow(n, t, RoundHalfUp(t, n), lo);
    RoundedNotAbove(n, t, RoundHalfUp(t, n), hi);
  }

  lemma RoundedNotBelow(n: nat, t: nat, r: int, lo: int)
    requires n > 0 && n * lo <= t && 2 * t < n * (2 * r + 1)
    ensures lo <= r
  {
    assert n * (2 * lo) == 2 * (n * lo);
    if r < lo {
      MulMonotone(n, 2 * r + 1, 2 * lo);
      assert false;
    }
  }

  lemma RoundedNotAbove(n: nat, t: nat, r: int, hi: int)
    requires n > 0 && t <= n * hi && n * (2 * r - 1) <= 2 * t
    ensures r <= hi
  {
    assert n * (2 * hi + 1) == 2 * (n * hi) + n;
    if r > hi {
      MulMonotone(n, 2 * hi + 1, 2 * r - 1);
      assert false;
    }
  }

  /** When every file has the same number of words, that is the average. */
  lemma AverageOfEqualCounts(results: seq<FileStats>, w: nat, now: string)
    requires |results| > 0
    requires forall k :: 0 <= k < |results| ==> results[k].words == w
    ensures BuildReport(results, now).averageWords == Some(w)
  {
    AverageWithinRange(results, w, w, now);
  }

  /** The totals of a report count every file of the list exactly once:
      adding one file to the results adds its counts to the totals. */
  lemma ReportTotalsGrow(results: seq<FileStats>, s: FileStats, now: string)
    ensures BuildReport(results + [s], now).totalWords == BuildReport(results, now).totalWords + s.words
    ensures BuildReport(results + [s], now).totalCharacters
         == BuildReport(results, now).totalCharacters + s.characters
    ensures BuildReport(results + [s], now).totalFiles == BuildReport(results, now).totalFiles + 1
  {
    SumsOfConcatenation(results, [s]);
    assert SumWords([s]) == s.words;
    assert SumCharacters([s]) == s.characters;
  }

  /** Two files of 3 and 5 words give totals 8 and a mean of 4. */
  lemma ReportExample()
    ensures var r := BuildReport([FileStats(3, 20, 1, "a.txt"), FileStats(5, 30, 2, "b.md")], "t");
      r.totalWords == 8 && r.totalCharacters == 50 && r.averageWords == Some(4) && r.totalFiles == 2
  {
    var rs := [FileStats(3, 20, 1, "a.txt"), FileStats(5, 30, 2, "b.md")];
    assert rs[1..] == [FileStats(5, 30, 2, "b.md")];
    assert SumWords(rs) == 8;
  }

  /** The globals object prints as `{`, one line per total in the order of
      `GlobalsMembers` at the second indent, separated by commas, and `}` at
      the first indent. */
  lemma GlobalsLines(r: Report)
    ensures var text := ObjectText(GlobalsMembers(r), 1);
      TextStats.SplitOn(text, '\n') == ["{"] + CommaTerminated(MemberLines(GlobalsMembers(r), 1)) + [Indent(1) + "}"]
  {
    var members := GlobalsMembers(r);
    assert forall m :: 0 <= m < |members| ==> '\n' !in members[m].1 by {
      DecimalIsOneLine(r.totalWords);
      DecimalIsOneLine(r.totalCharacters);
      DecimalIsOneLine(r.processedFiles);
      if r.averageWords.Some? {
        DecimalIsOneLine(r.averageWords.value);
      } else {
        assert members[2].1 == "null";
      }
    }
    ObjectTextLines(members, 1);
  }

  /** The report of an empty run prints `null` for the average and `[]` for
      the detail, and zero for every count. */
  lemma EmptyReportText(now: string)
    ensures var r := BuildReport([], now);
      && ReportMembers(r)[1] == ("totalArchivos", "0")
      && ReportMembers(r)[3] == ("detalleArchivos", "[]")
      && GlobalsMembers(r) == [("totalPalabras", "0"), ("totalCaracteres", "0"),
                               ("promedioPalabras", "null"), ("archivosProcesados", "0")]
  {
    var r := BuildReport([], now);
    assert Decimal(0) == "0";
    assert |r.detail| == 0;
  }

  /** An empty run still produces a report: zero totals and no average. */
  lemma EmptyReport(now: string)
    ensures var r := BuildReport([], now);
      r.totalFiles == 0 && r.totalWords == 0 && r.totalCharacters == 0 && r.averageWords == None
  {
  }
}
