# ProcesadorArchivos in Dafny

A Dafny model of the class `ProcesadorArchivos` in `procesador-archivos.js`.
The class processes a directory of text files. For every `.txt` and `.md`
file it counts words, characters and lines and writes the counts as JSON
under `procesados`. A file that cannot be processed is moved to `errores`
with an error record beside it. A consolidated report is then written.
Next to this sit a stream pipeline that upper-cases a file, a stream copy,
and a backup that copies files into a time-stamped directory under
`backups`.

The file system is an immutable `FileStore.Store`: a map from paths to
file contents (`None` for a file that exists but cannot be read or
overwritten) and a set of directories. Every `fs` call the class makes
(`readFile`, `writeFile`, `rename`, `mkdir` with `recursive`, stream
open/read/write) becomes a total function over the store that returns a
`Result`. The model fails where Node fails for a missing path, a directory
or file in the way, and a protected file. A missing path whose parent is a
file fails with `ENOTDIR`, and one whose parent is missing with `ENOENT`. It does not model every Node
failure: the cases it misses are listed under "Left out". A directory listing,
the clock and the locale-formatted date are parameters.

Modules, in dependency order:

- `Wrappers`: `Option` and `Result`.
- `Paths`: `path.join`, `basename`, `extname`, `dirname` for POSIX paths.
- `TextStats`: the statistics record and the word, line and character
  counts.
- `JsonText`: the parts of `JSON.stringify(…, null, 2)` the artifacts use.
- `FileStore`: the store and the `fs` operations.
- `Artifacts`: the base directory and the names and texts of the
  artifacts.
- `FileProcessing`: `procesarArchivoTexto` and `moverAErrores`.
- `DirectoryPass`: `procesarDirectorio`.
- `Report`: `generarReporte`.
- `Streams`: `convertirAMayusculas` and `copiarArchivoStreams`.
- `Setup`: `inicializar`.
- `Backup`: `crearDirectorioBackup` and `ejecutarBackup`.

The average of an empty report follows the code rather than the usual
reading of "an average". The source divides by zero, obtains `NaN`, and
`JSON.stringify` writes that as `null`. So `Report.BuildReport` returns
`averageWords == None` for no results instead of refusing the input.

## Model

| member | source | states |
|---|---|---|
| TextStats.ComputeStats | procesador-archivos.js:31-36 | the record keeps the path; `palabras` is the number of maximal non-whitespace runs; `lineas` is the number of newlines plus one; `caracteres` is the UTF-16 length: the number of characters plus one for each character above U+FFFF, hence between the number of characters and twice that; words never exceed characters |
| TextStats.WordCountIsRunCount | procesador-archivos.js:32 | the number of non-empty pieces of `split(/\s+/)` equals the number of maximal runs of non-whitespace characters |
| TextStats.NoWordsIffAllWhitespace | procesador-archivos.js:32 | a text has zero words exactly when it is empty or consists only of whitespace |
| TextStats.RunCountZeroIffAllWhitespace | procesador-archivos.js:32 | there is no run of non-whitespace characters exactly when every character is whitespace |
| TextStats.SplitPiecesHaveNoWhitespace | procesador-archivos.js:32 | no piece produced by `split(/\s+/)` contains a whitespace character |
| TextStats.LastPieceEmpty | procesador-archivos.js:32 | the last piece of `split(/\s+/)` is empty exactly when the text is empty or ends in whitespace |
| TextStats.RunCountBound | procesador-archivos.js:32-33 | the number of words never exceeds the length of the text |
| TextStats.LineCountIsNewlinesPlusOne | procesador-archivos.js:34 | `split("\n").length` is the number of newline characters plus one, so a trailing newline adds a segment |
| TextStats.SplitOn | procesador-archivos.js:34 | splitting on a character yields at least one piece and no piece contains the separator |
| TextStats.SplitOnCount | procesador-archivos.js:34 | splitting on a character yields one more piece than the character's occurrences |
| TextStats.SplitOnJoinRoundTrip | procesador-archivos.js:34 | joining the pieces back with the separator gives the original text |
| TextStats.SplitOnWithoutSeparator | procesador-archivos.js:34 | a text without the separator splits into itself alone |
| TextStats.SplitOnConcat | procesador-archivos.js:34 | splitting `a`, the separator, `b` gives the pieces of `a` followed by the pieces of `b` |
| TextStats.Utf16LengthBounds | procesador-archivos.js:33 | the UTF-16 length is between the number of characters and twice that, and equals it when every character is below U+10000 |
| TextStats.Utf16Length | procesador-archivos.js:33 | the UTF-16 length of a text is its number of characters plus its number of characters above U+FFFF |
| TextStats.Utf16RoundTrip | procesador-archivos.js:33 | the code units counted as characters decode back to the same text |
| TextStats.ExampleStats | procesador-archivos.js:31-36 | `"a  b\nc"` gives 3 words, 6 characters and 2 lines |
| Paths.Basename | procesador-archivos.js:109 | `path.basename` is the last segment once trailing separators are dropped: a separator-free suffix of the trimmed path that is either all of it or preceded by a separator |
| Paths.LastSegment | procesador-archivos.js:109 | the last segment is a separator-free suffix of the path, preceded by a separator when shorter than the path |
| Paths.StripTrailingSeparators | procesador-archivos.js:109 | the stripped path is a prefix of the path, does not end in `/`, and only `/` was removed |
| Paths.LastIndexOf | procesador-archivos.js:39 | the index found holds the character and no later index does; -1 when it does not occur |
| Paths.SegmentExtension | procesador-archivos.js:39 | `path.extname` of a segment is a suffix that is empty or starts with its only dot and is shorter than the segment; it is non-empty exactly when the segment is not `..` and has a dot after its first character |
| Paths.Stem | procesador-archivos.js:39 | the stem followed by the extension is the base name, and the stem has no separator |
| Paths.BasenameOfJoin | procesador-archivos.js:147 | the base name of `join(dir, name)` is `name` for a non-empty single-segment name |
| Paths.DirnameOfJoin | procesador-archivos.js:110-114 | the directory of `join(dir, name)` is `dir` |
| Paths.JoinInjective | procesador-archivos.js:110-114 | two joins of single-segment names are equal exactly when directories and names are equal |
| JsonText.Decimal | procesador-archivos.js:47 | the numeral is a non-empty digit string without a leading zero |
| JsonText.DecimalRoundTrip | procesador-archivos.js:47 | reading the numeral back gives the number |
| JsonText.UnescapeEscape | procesador-archivos.js:47 | every text written as a JSON string literal reads back as the same text |
| JsonText.UnescapeEscapeChar | procesador-archivos.js:47 | each escaped character reads back as itself in front of the rest |
| JsonText.QuotePlain | procesador-archivos.js:47 | text without quotes, backslashes or control characters is written between double quotes unchanged |
| JsonText.QuoteIsOneLine | procesador-archivos.js:47 | a string literal never contains a newline, since a newline is escaped |
| JsonText.JoinLinesSplit | procesador-archivos.js:47 | one-line items joined with `,` and a newline print one line per item, each but the last ending in a comma |
| JsonText.FramedLines | procesador-archivos.js:47 | a non-empty object or array prints its opening bracket alone on the first line, its content lines comma-separated, and its closing bracket on the last line at its own indent |
| JsonText.ObjectTextLines | procesador-archivos.js:47 | with an indent of two spaces, a non-empty object of one-line values prints `{`, one `"key": value` line per member in order at the next indent, commas between them, and `}` at its own indent |
| JsonText.ArrayTextLines | procesador-archivos.js:232 | a non-empty array of one-line items prints `[`, one item per line in order at the next indent, commas between them, and `]` at its own indent |
| FileStore.ReadFile | procesador-archivos.js:30 | reading succeeds exactly on a readable file that is not a directory, and gives its stored content; a failure names the path, and is `ENOTDIR` exactly when the path is missing and its parent is a file, `ENOENT` exactly when it is missing and its parent is not a file |
| FileStore.WriteFile | procesador-archivos.js:45-48 | writing succeeds exactly when the path is writable; the path then reads back the content, and nothing else changes; a failure names the path, and is `ENOTDIR` exactly when the parent directory is missing and a file stands in its place, `ENOENT` exactly when it is missing and no file stands there |
| FileStore.Rename | procesador-archivos.js:116 | the move succeeds exactly when the file exists, the target is not a directory and its parent exists; the target then holds what the file held, the old path is empty, and nothing else changes; a failure names the missing source, or else the target, and is `ENOTDIR` exactly when the path it names fails because its parent is a file |
| FileStore.ParentFileIsNotADirectory | procesador-archivos.js:30-48 | when a file stands where the parent of a missing path should be, reading it, writing it and renaming onto it all fail with `ENOTDIR` naming that path |
| FileStore.MakeDirectory | procesador-archivos.js:14-20 | `mkdir` with `recursive` succeeds exactly when no directory of the chain is a file; it then adds exactly the directory and its ancestors, and leaves the files alone |
| Artifacts.StatsPathShape | procesador-archivos.js:39-44 | the statistics file is in `procesados` and is named `<stem>-stats.json`, where the stem plus the extension is the base name |
| Artifacts.StatsPathCollision | procesador-archivos.js:39-44 | two files share a statistics file exactly when their stems agree |
| Artifacts.TextAndMarkdownCollide | procesador-archivos.js:39-44 | `x.txt` and `x.md` write the same statistics file, wherever they are |
| Artifacts.StemOfTextName | procesador-archivos.js:39 | `dir/<name><ext>` has stem `name` and extension `ext` for a dot-free name |
| Artifacts.StatsTextLines | procesador-archivos.js:45-48 | the statistics file is six lines: `{`, then `palabras`, `caracteres`, `lineas` and `ruta` in that order at the next indent with commas between them, then `}` |
| Artifacts.QuarantineNames | procesador-archivos.js:109-123 | the quarantine target is `errores/<basename>` and the error record is `errores/<basename>.error.log`, a different path |
| Artifacts.QuarantineInjective | procesador-archivos.js:109-123 | two files share a quarantine target, and an error record, exactly when their base names agree |
| FileProcessing.ErrorLogIsSeparate | procesador-archivos.js:109-123 | the error record is never the failing file nor its quarantine target |
| FileProcessing.MoveAndLog | procesador-archivos.js:116-127 | the operation stops before the record exactly when the move fails, and then nothing has changed |
| FileProcessing.Quarantine | procesador-archivos.js:107-133 | `moverAErrores` leaves the file in place exactly when the rename fails, and that failure changes nothing and is not raised |
| FileProcessing.QuarantineMovesFile | procesador-archivos.js:109-116 | after a successful move, `errores/<basename>` holds what the file held and the file's old path is empty |
| FileProcessing.QuarantineWritesLog | procesador-archivos.js:119-127 | the error record is written exactly when the move succeeded and the record's path was writable, and it then holds `Error: <message>` and the date |
| FileProcessing.QuarantineFrame | procesador-archivos.js:107-133 | nothing outside the file, its target and its record changes |
| FileProcessing.QuarantineEffect | procesador-archivos.js:107-133 | the move, the record and the frame above hold together |
| FileProcessing.QuarantineDependsOnlyOnOwnPaths | procesador-archivos.js:107-133 | how a quarantine ends depends only on the directories, the file, its record, and what stands at the file's directory and at `errores` |
| FileProcessing.ProcessFile | procesador-archivos.js:28-58 | a file is processed exactly when it is readable and its statistics file writable; its statistics are then those of its content; a failure names the file |
| FileProcessing.ProcessFileEffect | procesador-archivos.js:28-58 | a processed file gets its statistics JSON and nothing else changes; a failed one goes through `moverAErrores` with the error's message |
| FileProcessing.ProcessFileFrame | procesador-archivos.js:28-58 | processing touches at most the file, its quarantine target, its error record and its statistics file |
| FileProcessing.ProcessFileKeepsWritability | procesador-archivos.js:28-58 | processing never changes whether a path outside the file, its target and its record can be written |
| FileProcessing.OutcomeDependsOnlyOnOwnPaths | procesador-archivos.js:28-58 | a file's fate depends only on the directories, the file, its error record, whether its statistics file is writable, and what stands at the file's directory, `errores` and `procesados` |
| FileProcessing.ProcessFileKeepsDirectoryPaths | procesador-archivos.js:28-58 | processing a file never changes what the store holds at a directory other than the file itself |
| FileProcessing.ProcessedDirIsAFile | procesador-archivos.js:45-55 | when a file stands where `procesados` should be, every readable file fails to write its statistics with `ENOTDIR` on the statistics path, and that error is the one handed to its quarantine |
| DirectoryPass.EligibleKeepsExactlyTextNames | procesador-archivos.js:139-141 | a name passes the filter exactly when it is listed and ends in `.txt` or `.md` |
| DirectoryPass.EligibleAppend | procesador-archivos.js:139-141 | filtering commutes with concatenation, so the listing order is kept |
| DirectoryPass.EligibleExample | procesador-archivos.js:139-141 | `a.txt`, `b.md`, `c.bin` filter to `a.txt`, `b.md` |
| DirectoryPass.EligibleOfListing | procesador-archivos.js:138-141 | the filtered entries of a listing of distinct names are a valid input for the pass |
| DirectoryPass.ProcessNames | procesador-archivos.js:145-156 | the loop returns exactly the results and failures of the left-fold reference pass, and every file lands in exactly one of them |
| DirectoryPass.ProcessDirectory | procesador-archivos.js:136-161 | the call fails exactly when the listing fails, with its error; otherwise it runs the pass over the filtered names and accounts for each of them once |
| DirectoryPass.RunPassKeepsDone | procesador-archivos.js:146-154 | the loop never revisits an outcome it has already collected |
| DirectoryPass.RecordOutcome | procesador-archivos.js:148-153 | each outcome goes to exactly one of results and failures |
| DirectoryPass.ResultsAndFailuresCover | procesador-archivos.js:145-154 | results and failures together count every outcome once |
| DirectoryPass.ResultsAppend | procesador-archivos.js:145-150 | results of a longer run extend the results of its prefix, in order |
| DirectoryPass.FailedPathsAppend | procesador-archivos.js:151-153 | failures of a longer run extend the failures of its prefix, in order |
| DirectoryPass.ResultsComeFromOutcomes | procesador-archivos.js:148-150 | every result is the statistics of a processed file |
| DirectoryPass.FailedPathsComeFromOutcomes | procesador-archivos.js:151-153 | every failure names a failed file |
| DirectoryPass.OutcomePathsFollowListing | procesador-archivos.js:146-147 | the k-th outcome is about the k-th filtered name |
| DirectoryPass.TouchedPathsAreDisjoint | procesador-archivos.js:146-154 | processing one entry touches none of the paths that decide another entry's fate |
| DirectoryPass.StepPreservesOthers | procesador-archivos.js:146-154 | after one entry is processed, the directories, another entry's file, quarantine target and error record, and whether its statistics file can be written, are as they were |
| DirectoryPass.StepKeepsParents | procesador-archivos.js:146-154 | processing one entry of an existing directory leaves the store as it was at the scanned directory, `errores` and `procesados` |
| DirectoryPass.PassPreservesOthers | procesador-archivos.js:146-154 | the rest of the pass leaves an entry it does not list, and that entry's quarantine slot, as they were |
| DirectoryPass.BatchOutcomeMatchesSolo | procesador-archivos.js:139-154 | for a scanned directory that exists as a directory, as a successful `readdir` implies, each file's outcome in the pass equals its outcome when processed alone against the initial store, so one failure never changes another file's fate |
| DirectoryPass.ProcessedIffReadableAndWritable | procesador-archivos.js:139-154 | for a scanned directory that exists as a directory, a file is among the results exactly when it was readable and its statistics file writable at the start, and then with the statistics of its initial content |
| DirectoryPass.OutcomesOfDifferentEntries | procesador-archivos.js:146-154 | a processed outcome and a failed outcome are about different files |
| DirectoryPass.SuccessesAndFailuresAreDisjoint | procesador-archivos.js:146-154 | no file is both among the results and among the failures |
| DirectoryPass.QuarantinedFileLeavesDirectory | procesador-archivos.js:54-56 | a failed file whose move succeeded is absent from the scanned directory at the end and sits in `errores` with its original content |
| DirectoryPass.QuarantinedHere | procesador-archivos.js:54-56 | the quarantine made at a file's own step survives the rest of the pass: the file is gone from the scanned directory and its original content sits in `errores` |
| Report.BuildReport | procesador-archivos.js:214-226 | file counts equal the number of results, the totals are the sums of the per-file words and characters, the detail is the results unchanged, and there is an average exactly when there are results, namely the rounded mean of the word total over the file count |
| Report.GenerateReport | procesador-archivos.js:213-236 | the call succeeds exactly when the report path is writable; the report is then built from the results, written as JSON, and nothing else changes; a write failure is the call's error |
| Report.RoundHalfUpIsNearest | procesador-archivos.js:220-222 | the rounded mean r satisfies r - 1/2 <= total/n < r + 1/2 |
| Report.RoundHalfUpUnique | procesador-archivos.js:220-222 | any integer within half a unit of the mean is the rounded mean |
| Report.RoundHalfUpTiesGoUp | procesador-archivos.js:220-222 | means 1.5 and 2.5 round to 2 and 3, as `Math.round` does |
| Report.RoundHalfUpNearestExamples | procesador-archivos.js:220-222 | means 5/3 and 4/3 round to 2 and 1 |
| Report.SumsOfConcatenation | procesador-archivos.js:218-219 | word and character totals are additive over concatenated results |
| Report.SumWordsBounds | procesador-archivos.js:218 | the word total of n files with counts in [lo, hi] lies in [n·lo, n·hi] |
| Report.AverageWithinRange | procesador-archivos.js:220-222 | for non-empty results the average lies between the smallest and largest word counts |
| Report.AverageOfEqualCounts | procesador-archivos.js:220-222 | when every file has w words the average is w |
| Report.ReportTotalsGrow | procesador-archivos.js:216-219 | one more result adds its words and characters to the totals and one to the file count |
| Report.ReportExample | procesador-archivos.js:216-223 | files of 3 and 5 words give 8 words in total and an average of 4 |
| Report.EmptyReport | procesador-archivos.js:216-223 | no results give zero totals and no average |
| Report.GlobalsLines | procesador-archivos.js:216-232 | the global statistics print as `{`, then `totalPalabras`, `totalCaracteres`, `promedioPalabras` and `archivosProcesados` in that order at depth two, then `}` at depth one |
| Report.EmptyReportText | procesador-archivos.js:214-232 | the report of no results prints `totalArchivos` as `0`, `detalleArchivos` as `[]`, zero totals and a `promedioPalabras` of `null` |
| Streams.UpperChar | procesador-archivos.js:65 | each character upper-cases to one character, except sharp s, which becomes two |
| Streams.UpperAppend | procesador-archivos.js:65 | upper-casing distributes over concatenation |
| Streams.ChunkingIsInvisible | procesador-archivos.js:63-69 | however the stream cuts the file into chunks, the transform writes the upper case of the whole file |
| Streams.UpperIdempotent | procesador-archivos.js:65 | upper-casing twice is upper-casing once |
| Streams.UpperLength | procesador-archivos.js:65 | the upper case is as long as the text plus one per sharp s |
| Streams.UpperHasNoAsciiLower | procesador-archivos.js:65 | no ASCII lower-case letter survives |
| Streams.UpperExample | procesador-archivos.js:65 | `Año ß` becomes `AÑO SS` |
| Streams.Pipe | procesador-archivos.js:71-84 | the pipeline resolves with the destination exactly when the source is readable and the destination writable, and then, for distinct input and output, writes the transformed source; a read failure is its error; only the destination changes, and it is left empty when opened but not filled |
| Streams.ConvertToUpper | procesador-archivos.js:61-86 | the conversion succeeds exactly when the input is readable and the output writable, and then, for distinct input and output, the output holds the upper case of the input |
| Streams.CopyFile | procesador-archivos.js:89-104 | the copy succeeds exactly when the source is readable and the target writable, and then the target holds the source's content |
| Streams.ConvertIsIdempotent | procesador-archivos.js:61-86 | converting a converted file again gives the same text |
| Streams.CopyRoundTrip | procesador-archivos.js:89-104 | after a copy both source and target hold the source's original content |
| Streams.PipeKeepsWritability | procesador-archivos.js:71-84 | a pipeline never changes which paths can be written |
| Streams.FailedReadTruncatesTarget | procesador-archivos.js:91-102 | when the source cannot be read, the copy rejects with the read error and still leaves an empty target |
| Setup.Initialize | procesador-archivos.js:12-25 | initialising never fails, keeps every file and every directory, and adds only directories on the chains of the base directory, `procesados` and `errores` |
| Setup.InitializeCreatesLayout | procesador-archivos.js:12-20 | when no file blocks them, the base directory, `procesados` and `errores` all exist afterwards |
| Setup.InitializeIdempotent | procesador-archivos.js:12-25 | initialising twice is initialising once |
| Backup.CreateBackupDirAsWritten | procesador-archivos.js:164-184 | `rutaBackup` is set to `backups/backup-<date> (<h> <m>)` whether or not `mkdir` succeeds; a failure changes no file |
| Backup.CreateBackupDir | procesador-archivos.js:164-184 | the corrected creation remembers the directory only when `mkdir` succeeds, and the directory then exists |
| Backup.BackupDirNameExample | procesador-archivos.js:172 | hour and minute are written unpadded: 09:05 gives `(9 5)` |
| Backup.BackupTargetShape | procesador-archivos.js:194-195 | each target sits directly in the backup directory under the source's base name |
| Backup.BackupTargetCollision | procesador-archivos.js:194-195 | two sources share a target exactly when their base names agree |
| Backup.DistinctBasenamesGiveDistinctTargets | procesador-archivos.js:194-195 | sources with distinct base names get distinct targets |
| Backup.ExecuteBackupAsWritten | procesador-archivos.js:186-210 | as written, the call fails exactly when no directory was remembered and `mkdir` fails, and a directory is remembered afterwards in every case; a successful call is the corrected `Backup.ExecuteBackup` in every respect, and a failed one leaves the store unchanged with the same error |
| Backup.AsWrittenCopiesFaithfully | procesador-archivos.js:186-210 | for any successful call as written, the first included, whose sources have distinct base names and none of which is a target: outcome j is about source j; it is a success exactly when that source is readable and its target writable once the directory exists; the target then holds the source's text |
| Backup.ExecuteBackup | procesador-archivos.js:186-210 | the corrected call of "## Findings", which remembers the directory only after `mkdir` succeeds (the source sets `rutaBackup` at line 174, before `mkdir` at line 180): the call fails exactly when no directory was remembered and `mkdir` fails, changing nothing; a remembered directory is reused; otherwise one outcome is recorded per source (what each outcome says is stated by `Backup.BackupCopiesFaithfully`) |
| Backup.CopyEachKeepsDone | procesador-archivos.js:193-205 | later copies never rewrite an earlier outcome |
| Backup.CopyEachFrame | procesador-archivos.js:193-205 | the copies write nothing but their targets |
| Backup.CopyEachKeepsWritability | procesador-archivos.js:193-205 | no copy changes which paths can be written |
| Backup.CopiedTargetWasWritable | procesador-archivos.js:193-205 | a copy succeeds only into a target that was writable before the backup began |
| Backup.OutcomesFollowSources | procesador-archivos.js:193-202 | the j-th outcome is about the j-th source, and a success names that source's target |
| Backup.CopyOutcomeIsIndependent | procesador-archivos.js:193-205 | when no source is a target, each copy succeeds exactly when its source is readable and its target writable at the start, so copying in sequence gives the outcomes of the concurrent `Promise.all` |
| Backup.FirstCopyHoldsSource | procesador-archivos.js:193-205 | the first copy's target keeps the source's text until the end |
| Backup.CopiedTargetHoldsSource | procesador-archivos.js:193-205 | with distinct targets and no source among them, every successful copy's target holds its source's original text at the end |
| Backup.CopyStart | procesador-archivos.js:186-189 | the store the copies start from keeps every file and directory of the store before the call |
| Backup.ExecuteBackupCopies | procesador-archivos.js:186-205 | a successful backup's outcomes and final store are those of the copy pass into its directory, started from the store after any `mkdir` |
| Backup.BackupCopiesFaithfully | procesador-archivos.js:186-205 | for any successful backup, the first included, whose sources have distinct base names and none of which is a target: outcome j is about source j; it is a success exactly when that source is readable and its target writable once the directory exists; the target then holds the source's text |
| Backup.BackupDirIsChosenOnce | procesador-archivos.js:187-189 | once a backup succeeded, a later backup at any time reuses the same directory and cannot fail |
| Backup.ExecuteBackupKeepsDirReady | procesador-archivos.js:174-189 | with the corrected creation, a remembered directory that exists still exists after a backup |
| Backup.CorrectedNeverRemembersMissingDir | procesador-archivos.js:174-189 | the corrected first backup never leaves a remembered directory that does not exist |
| Backup.AsWrittenRemembersMissingDir | procesador-archivos.js:174-180 | as written, a failed `mkdir` raises but leaves a missing directory remembered |
| Backup.AsWrittenLaterBackupsCopyNothing | procesador-archivos.js:186-209 | as written, every later backup through that missing directory fails each copy, swallows the failures and resolves without raising |

## Left out

- Console output (`console.log`, `console.error`) is not modelled. It
  carries no result.
- The command-line dispatcher `ejecutarCLI` and the demo
  `demostrarSistemaArchivos` are not modelled.
- `procesarDirectorio`'s `fs.readdir` result is a parameter. The order of a
  listing is up to the file system, so the model takes the listing as
  given.
- The clocks (`new Date().toISOString()`, `getHours`, `getMinutes`) and
  `toLocaleDateString("es-CL", …)` are parameters. Locale formatting is
  outside what the model can state.
- Streams.Upper: exact for U+0000 to U+00FF only. Characters above U+00FF
  are kept unchanged, so the model is weaker than the full Unicode case
  mapping `toUpperCase` applies. The full mapping table is outside this
  model.
- Streams.Pipe: a pipeline from a file onto itself is assumed to read the
  file after the write stream truncated it, so it writes the transform of
  the empty text. In Node that case depends on whether the truncating open
  completes before the first read, so the model fixes one event order.
- Streams.Pipe: chunking, backpressure and event order are not modelled.
  The pipeline is one read and one write, and chunking is handled
  separately by `Streams.ChunkingIsInvisible`. When both sides fail, the
  read error is the one reported. In Node the first event to fire wins.
- Backup.ExecuteBackup: the copies of `Promise.all` run concurrently in
  the source but in sequence in the model.
  `Backup.CopyOutcomeIsIndependent` shows that the outcomes agree when no
  source is a target. Interleavings in which a copy reads another copy's
  target are not modelled.
- Backup.ExecuteBackup: the outcome of `Promise.all` is only logged, so
  the model returns every copy's outcome instead of the first rejection.
- Report.RoundHalfUp: exact integer arithmetic. `Math.round` of the
  floating-point quotient agrees with it while the word total stays below
  2^52. At that size an ulp of the quotient is still below 1/n, and a
  non-half mean lies at least 1/(2n) from the nearest half. 3·2^51+1 words
  over 3 files give 2^51 here and 2^51+1 in JavaScript.
- TextStats.ComputeStats: content is modelled as decoded Unicode scalar
  values. How `readFile(…, "utf8")` replaces invalid byte sequences is not
  modelled.
- Paths.Join: adds exactly one separator and does not normalise `.`,
  `..` or repeated separators, as `path.join` would. Paths are treated as
  already normalised.
- FileStore.MakeDirectory: permission failures on directories are not
  modelled. `mkdir` fails only when a file lies on the directory's chain.
- FileStore.Store: a single `None` marks a file that can be neither read
  nor overwritten. A file that is readable but read-only cannot be
  expressed, so the model counts it as writable where Node gives `EACCES`.
- FileStore.CanWrite: write permission on the parent directory is not
  modelled. `writeFile`, `rename` and write streams into an existing
  directory pass that check where Node could give `EACCES`.
- FileStore.Rename: a directory source is not moved. The store keeps no
  tree under a directory, so `rename` of a directory fails as a missing
  file does, with `ENOENT`.
  Node would move the directory with its contents. For the processor,
  this means a sub-directory named like `x.txt` in the scanned directory
  fails to read (`EISDIR`), and its quarantine move then fails too. In Node
  the move would succeed.
- FileStore.ParentIsFile: only the parent is checked. A missing path
  whose parent is missing because a file stands higher up its chain fails
  with `ENOENT` here, where Node gives `ENOTDIR`.
- DirectoryPass.BatchOutcomeMatchesSolo and
  DirectoryPass.ProcessedIffReadableAndWritable need the scanned directory to be
  a directory of the store. The listing is a parameter and is not tied to
  the store. If the directory were missing, an earlier entry's quarantine
  or statistics file could be created at its path and turn a later
  entry's `ENOENT` into `ENOTDIR`. A listing that succeeded rules that out.
- FileStore.Message: the wording of Node's error messages is simplified
  to `<CODE>: <description>, <syscall> '<path>'`.
- Report.ReportText: the printed layout is stated line by line only for
  objects and arrays whose values fit on one line, which covers the
  statistics file and the report's global statistics. For the report's top
  level, which nests objects and an array, the model states the members and
  their order (`Report.ReportMembers`), not the lines. No JSON reader for
  whole objects is modelled, so there is no parse-back lemma for objects.
  Numbers and strings do read back (`JsonText.DecimalRoundTrip`,
  `JsonText.UnescapeEscape`).

## Findings

| source | as written | input that shows it | evidently intended | confidence | as-written member | corrected member |
|---|---|---|---|---|---|---|
| procesador-archivos.js:174-180 | `crearDirectorioBackup` stores the directory in `rutaBackup` before `fs.mkdir` runs, so a failed `mkdir` leaves it set; `ejecutarBackup` then never creates it again (lines 187-189) | `b/backups` is a file during the first `ejecutarBackup` (which rejects) and is removed before the second: the second call skips creation, every copy fails because the directory is missing, the failures are swallowed and the call resolves | remember the directory only after `mkdir` succeeds, so a later call retries the creation | medium, not executed | Backup.AsWrittenLaterBackupsCopyNothing | Backup.ExecuteBackupKeepsDirReady |
