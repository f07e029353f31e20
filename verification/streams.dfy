/** The two stream pipelines of the processor: `convertirAMayusculas`, which
    pipes a file through a per-chunk `toUpperCase` transform into another
    file, and `copiarArchivoStreams`, which pipes a file unchanged into
    another. Chunk boundaries are chosen by the stream and are an input of
    the model; the lemmas show they cannot affect the result. */
module Streams {
  import opened Wrappers
  import opened Paths
  import opened TextStats
  import opened FileStore

  // ---------------------------------------------------------------------
  // `String.prototype.toUpperCase` on the Latin-1 range
  // ---------------------------------------------------------------------

  /** The upper case of one character. Within U+0000..U+00FF this is the
      Unicode full case mapping `toUpperCase` applies: `a`..`z` and
      U+00E0..U+00FE (except the division sign U+00F7) move down by 0x20,
      sharp s U+00DF expands to "SS", y with diaeresis U+00FF becomes
      U+0178 and the micro sign U+00B5 becomes Greek capital mu U+039C.
      Other characters are kept. */
  function UpperChar(c: char): (u: string)
    ensures 1 <= |u| <= 2
    ensures |u| == 2 <==> c == 'ß'
  {
    if 'a' <= c <= 'z' then [(c as int - 0x20) as char]
    else if 'à' <= c <= 'þ' && c != '÷' then [(c as int - 0x20) as char]
    else if c == 'ß' then "SS"
    else if c == 'ÿ' then ['Ÿ']
    else if c == 'µ' then ['Μ']
    else [c]
  }

  /** `s.toUpperCase()`, character by character. */
  function Upper(s: string): string {
    if |s| == 0 then "" else UpperChar(s[0]) + Upper(s[1..])
  }

  /** The transform stream: each chunk is upper-cased on its own and the
      results are pushed in order. */
  function UpperChunks(chunks: seq<string>): string {
    if |chunks| == 0 then "" else Upper(chunks[0]) + UpperChunks(chunks[1..])
  }

  function Concat(chunks: seq<string>): string {
    if |chunks| == 0 then "" else chunks[0] + Concat(chunks[1..])
  }

  predicate IsAsciiLower(c: char) {
    'a' <= c <= 'z'
  }

  // ---------------------------------------------------------------------
  // Pipelines over the store
  // ---------------------------------------------------------------------

  /** The store after the pipeline and how its promise settles: resolved
      with the destination path, or rejected with the first error. */
  datatype PipeOutcome = PipeOutcome(store: Store, result: Result<Path, IoError>)

  /** `createReadStream(input).pipe(…).pipe(createWriteStream(output))`.
      The write stream opens its file with flag `w`, which creates or
      truncates it whether or not the read side succeeds. The model assumes
      the data read is what `input` holds once both files are open, so a
      pipeline from a file onto itself reads the truncated, empty file; in
      Node that case depends on the order in which the two opens and the
      first read complete, so the model fixes one order. When both sides
      fail, the read error is the one reported. */
  function Pipe(st: Store, input: Path, output: Path, transform: string -> string): (r: PipeOutcome)
    ensures r.result.Success? <==> ReadFile(st, input).Success? && CanWrite(st, output)
    ensures r.result.Success? ==> r.result.value == output
    ensures r.result.Success? && input != output
        ==> ReadFile(r.store, output) == Success(transform(ReadFile(st, input).value))
    ensures r.result.Success? && input == output ==> ReadFile(r.store, output) == Success(transform(""))
    ensures ReadFile(st, input).Failure? ==> r.result == Failure(ReadFile(st, input).error)
    ensures AgreeOutside(st, r.store, {output})
    ensures CanWrite(st, output) && r.result.Failure? ==> ReadFile(r.store, output) == Success("")
    ensures !CanWrite(st, output) ==> r.store == st
  {
    var source := ReadFile(st, input);
    match WriteFile(st, output, "")
    case Failure(e) =>
      PipeOutcome(st, if source.Failure? then Failure(source.error) else Failure(e))
    case Success(truncated) =>
      if source.Failure? then PipeOutcome(truncated, Failure(source.error))
      else
        var content := ReadFile(truncated, input);
        assert content.Success? by {
          if input != output {
            assert Lookup(truncated, input) == Lookup(st, input);
          }
        }
        match WriteFile(truncated, output, transform(content.value))
        case Failure(e) => assert false; PipeOutcome(truncated, Failure(e))
        case Success(written) => PipeOutcome(written, Success(output))
  }

  /** `convertirAMayusculas(rutaEntrada, rutaSalida)`. */
  function ConvertToUpper(st: Store, input: Path, output: Path): (r: PipeOutcome)
    ensures r.result.Success? <==> ReadFile(st, input).Success? && CanWrite(st, output)
    ensures r.result.Success? && input != output
        ==> ReadFile(r.store, output) == Success(Upper(ReadFile(st, input).value))
    ensures AgreeOutside(st, r.store, {output})
  {
    Pipe(st, input, output, Upper)
  }

  /** `copiarArchivoStreams(rutaOrigen, rutaDestino)`. */
  function CopyFile(st: Store, source: Path, target: Path): (r: PipeOutcome)
    ensures r.result.Success? <==> ReadFile(st, source).Success? && CanWrite(st, target)
    ensures r.result.Success? && source != target ==> ReadFile(r.store, target) == ReadFile(st, source)
    ensures r.result.Success? ==> Lookup(r.store, source) != None
    ensures AgreeOutside(st, r.store, {target})
  {
    Pipe(st, source, target, s => s)
  }

  // ---------------------------------------------------------------------
  // Lemmas
  // ---------------------------------------------------------------------

  lemma {:induction false} UpperAppend(a: string, b: string)
    ensures Upper(a + b) == Upper(a) + Upper(b)
  {
    if |a| > 0 {
      assert (a + b)[0] == a[0];
      assert (a + b)[1..] == a[1..] + b;
      UpperAppend(a[1..], b);
    } else {
      assert a + b == b;
    }
  }

  /** However the stream cuts the file into chunks, the transform writes
      the upper case of the whole file. */
  lemma {:induction false} ChunkingIsInvisible(chunks: seq<string>)
    ensures UpperChunks(chunks) == Upper(Concat(chunks))
  {
    if |chunks| > 0 {
      ChunkingIsInvisible(chunks[1..]);
      UpperAppend(chunks[0], Concat(chunks[1..]));
    }
  }

  /** `c` is its own upper case. */
  predicate IsUpperFixed(c: char) {
    UpperChar(c) == [c]
  }

  /** Every character `UpperChar` produces is its own upper case. */
  lemma UpperCharIsFixed(c: char, i: nat)
    requires i < |UpperChar(c)|
    ensures IsUpperFixed(UpperChar(c)[i])
  {
  }

  lemma {:induction false} UpperOfFixedChars(s: string)
    requires forall i :: 0 <= i < |s| ==> IsUpperFixed(s[i])
    ensures Upper(s) == s
  {
    if |s| > 0 {
      var tail := s[1..];
      assert forall i :: 0 <= i < |tail| ==> tail[i] == s[i + 1];
      UpperOfFixedChars(tail);
      assert IsUpperFixed(s[0]);
      assert s == [s[0]] + tail;
    }
  }

  /** Upper-casing twice is upper-casing once. */
  lemma {:induction false} UpperIdempotent(s: string)
    ensures Upper(Upper(s)) == Upper(s)
  {
    if |s| > 0 {
      var u := UpperChar(s[0]);
      forall i | 0 <= i < |u| ensures IsUpperFixed(u[i]) {
        UpperCharIsFixed(s[0], i);
      }
      UpperOfFixedChars(u);
      UpperAppend(u, Upper(s[1..]));
      UpperIdempotent(s[1..]);
    }
  }

  /** The result is as long as the input plus one per sharp s, the only
      character of the range whose upper case is two characters. */
  lemma {:induction false} UpperLength(s: string)
    ensures |Upper(s)| == |s| + Occurrences(s, 'ß')
  {
    if |s| > 0 {
      UpperLength(s[1..]);
    }
  }

  predicate HasNoAsciiLower(t: string) {
    forall i :: 0 <= i < |t| ==> !IsAsciiLower(t[i])
  }

  lemma UpperCharIsNotLower(c: char)
    ensures HasNoAsciiLower(UpperChar(c))
  {
  }

  lemma NoAsciiLowerConcat(a: string, b: string)
    requires HasNoAsciiLower(a) && HasNoAsciiLower(b)
    ensures HasNoAsciiLower(a + b)
  {
    forall i | 0 <= i < |a + b| ensures !IsAsciiLower((a + b)[i]) {
      if i < |a| {
        assert (a + b)[i] == a[i];
      } else {
        assert (a + b)[i] == b[i - |a|];
      }
    }
  }

  /** No ASCII lower-case letter survives. */
  lemma {:induction false} UpperHasNoAsciiLower(s: string)
    ensures HasNoAsciiLower(Upper(s))
  {
    if |s| > 0 {
      UpperHasNoAsciiLower(s[1..]);
      UpperCharIsNotLower(s[0]);
      NoAsciiLowerConcat(UpperChar(s[0]), Upper(s[1..]));
    }
  }

  /** A concrete conversion: "Año ß" becomes "AÑO SS". */
  lemma UpperExample()
    ensures Upper("Año ß") == "AÑO SS"
  {
    assert "Año ß"[1..] == "ño ß";
    assert "ño ß"[1..] == "o ß";
    assert "o ß"[1..] == " ß";
    assert " ß"[1..] == "ß";
    assert "ß"[1..] == "";
  }

  /** Converting a converted file again changes nothing in it. */
  lemma ConvertIsIdempotent(st: Store, a: Path, b: Path, c: Path)
    requires a != b && b != c
    requires ConvertToUpper(st, a, b).result.Success?
    requires ConvertToUpper(ConvertToUpper(st, a, b).store, b, c).result.Success?
    ensures ReadFile(ConvertToUpper(ConvertToUpper(st, a, b).store, b, c).store, c)
         == ReadFile(ConvertToUpper(st, a, b).store, b)
  {
    UpperIdempotent(ReadFile(st, a).value);
  }

  /** A copy leaves the source in place and the target holding the same
      text, so a copy of the copy holds it too. */
  lemma CopyRoundTrip(st: Store, a: Path, b: Path)
    requires a != b
    requires CopyFile(st, a, b).result.Success?
    ensures ReadFile(CopyFile(st, a, b).store, b) == ReadFile(st, a)
    ensures ReadFile(CopyFile(st, a, b).store, a) == ReadFile(st, a)
  {
    var r := CopyFile(st, a, b);
    assert Lookup(r.store, a) == Lookup(st, a);
  }

  /** A pipeline never changes which paths can be written: it writes only
      its destination, and only when that was writable. */
  lemma PipeKeepsWritability(st: Store, input: Path, output: Path, transform: string -> string, p: Path)
    ensures CanWrite(Pipe(st, input, output, transform).store, p) == CanWrite(st, p)
  {
    var r := Pipe(st, input, output, transform);
    if p != output {
      CanWriteOutside(st, r.store, {output}, p);
    } else if CanWrite(st, output) {
      assert ReadFile(r.store, output).Success?;
    }
  }

  lemma CopyKeepsWritability(st: Store, source: Path, target: Path, p: Path)
    ensures CanWrite(CopyFile(st, source, target).store, p) == CanWrite(st, p)
  {
    PipeKeepsWritability(st, source, target, s => s, p);
  }

  /** A pipeline whose source is missing or unreadable still leaves an
      empty destination behind when the destination could be opened. */
  lemma FailedReadTruncatesTarget(st: Store, a: Path, b: Path)
    requires ReadFile(st, a).Failure? && CanWrite(st, b)
    ensures CopyFile(st, a, b).result == Failure(ReadFile(st, a).error)
    ensures ReadFile(CopyFile(st, a, b).store, b) == Success("")
  {
  }
}
