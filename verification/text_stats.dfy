/** The statistics `procesarArchivoTexto` computes for one file's decoded
    text: words (`split(/\s+/)` with empty tokens dropped), characters
    (`length`, i.e. UTF-16 code units) and lines (`split("\n")` segments). */
module TextStats {
  import opened Wrappers
  import opened Paths

  /** A UTF-16 code unit, the unit JavaScript's `String.length` counts. */
  newtype CodeUnit = x: int | 0 <= x < 0x1_0000

  /** One record per processed file, in the order of the source's JSON keys
      `palabras`, `caracteres`, `lineas`, `ruta`. */
  datatype FileStats = FileStats(words: nat, characters: nat, lines: nat, path: Path)

  /** The JavaScript regular-expression class `\s`: the WhiteSpace and
      LineTerminator characters of ECMAScript, i.e. tab, vertical tab, form
      feed, ZWNBSP, every space separator (Zs) and LF, CR, LS, PS. */
  predicate IsWhitespace(c: char) {
    var x := c as int;
    || x == 0x09 || x == 0x0A || x == 0x0B || x == 0x0C || x == 0x0D
    || x == 0x20 || x == 0xA0 || x == 0x1680
    || (0x2000 <= x <= 0x200A)
    || x == 0x2028 || x == 0x2029 || x == 0x202F || x == 0x205F
    || x == 0x3000 || x == 0xFEFF
  }

  predicate NoWhitespace(s: string) {
    forall i :: 0 <= i < |s| ==> !IsWhitespace(s[i])
  }

  predicate AllWhitespace(s: string) {
    forall i :: 0 <= i < |s| ==> IsWhitespace(s[i])
  }

  // ---------------------------------------------------------------------
  // Words: split(/\s+/) followed by filter((p) => p.length > 0)
  // ---------------------------------------------------------------------

  /** `s.split(/\s+/)`, built one character at a time from the back: a
      non-whitespace character extends the last piece, the first character
      of a whitespace run opens a new (so far empty) piece, and further
      characters of the run are swallowed. A leading or trailing run thus
      yields an empty piece, and the empty string yields one empty piece. */
  function SplitOnWhitespace(s: string): (pieces: seq<string>)
    ensures |pieces| >= 1
  {
    if |s| == 0 then [""]
    else
      var init := SplitOnWhitespace(s[..|s| - 1]);
      var c := s[|s| - 1];
      if !IsWhitespace(c) then init[..|init| - 1] + [init[|init| - 1] + [c]]
      else if |s| >= 2 && IsWhitespace(s[|s| - 2]) then init
      else init + [""]
  }

  function DropEmpty(pieces: seq<string>): (r: seq<string>)
    ensures |r| <= |pieces|
    ensures forall k :: 0 <= k < |r| ==> r[k] != ""
  {
    if |pieces| == 0 then []
    else (if pieces[0] == "" then [] else [pieces[0]]) + DropEmpty(pieces[1..])
  }

  /** The tokens the source counts as words. */
  function Words(s: string): seq<string> {
    DropEmpty(SplitOnWhitespace(s))
  }

  function WordCount(s: string): nat {
    |Words(s)|
  }

  // Reference definition: a word starts wherever a non-whitespace character
  // follows whitespace or the start of the text.

  predicate RunStartsAt(s: string, i: nat)
    requires i < |s|
  {
    !IsWhitespace(s[i]) && (i == 0 || IsWhitespace(s[i - 1]))
  }

  /** The number of maximal runs of non-whitespace characters in `s`. */
  function RunCount(s: string): nat {
    if |s| == 0 then 0
    else RunCount(s[..|s| - 1]) + (if RunStartsAt(s, |s| - 1) then 1 else 0)
  }

  // ---------------------------------------------------------------------
  // Lines: split("\n")
  // ---------------------------------------------------------------------

  /** `s.split(sep)` for a one-character separator. */
  function SplitOn(s: string, sep: char): (pieces: seq<string>)
    ensures |pieces| >= 1
    ensures forall k :: 0 <= k < |pieces| ==> sep !in pieces[k]
  {
    if |s| == 0 then [""]
    else if s[0] == sep then [""] + SplitOn(s[1..], sep)
    else
      var rest := SplitOn(s[1..], sep);
      [[s[0]] + rest[0]] + rest[1..]
  }

  /** `pieces.join(sep)`. */
  function JoinWith(pieces: seq<string>, sep: char): string
    requires |pieces| >= 1
  {
    if |pieces| == 1 then pieces[0] else pieces[0] + [sep] + JoinWith(pieces[1..], sep)
  }

  function Occurrences(s: string, c: char): nat {
    if |s| == 0 then 0 else (if s[0] == c then 1 else 0) + Occurrences(s[1..], c)
  }

  function LineCount(s: string): nat {
    |SplitOn(s, '\n')|
  }

  // ---------------------------------------------------------------------
  // Characters: UTF-16 length of the decoded text
  // ---------------------------------------------------------------------

  /** The UTF-16 encoding of one scalar value: itself below U+10000, a
      surrogate pair above. */
  function EncodeChar(c: char): (u: seq<CodeUnit>)
    ensures |u| == if c as int < 0x1_0000 then 1 else 2
  {
    var x := c as int;
    if x < 0x1_0000 then [x as CodeUnit]
    else
      var v := x - 0x1_0000;
      [(0xD800 + v / 0x400) as CodeUnit, (0xDC00 + v % 0x400) as CodeUnit]
  }

  function EncodeUtf16(s: string): seq<CodeUnit> {
    if |s| == 0 then [] else EncodeChar(s[0]) + EncodeUtf16(s[1..])
  }

  /** The number of characters outside the Basic Multilingual Plane, each of
      which JavaScript stores as two code units. */
  function AstralCount(s: string): nat {
    if |s| == 0 then 0 else (if s[0] as int >= 0x1_0000 then 1 else 0) + AstralCount(s[1..])
  }

  predicate IsHighSurrogate(u: CodeUnit) { 0xD800 <= u < 0xDC00 }
  predicate IsLowSurrogate(u: CodeUnit) { 0xDC00 <= u < 0xE000 }

  /** Decodes well-formed UTF-16; `None` on an unpaired surrogate. */
  function DecodeUtf16(u: seq<CodeUnit>): Option<string>
  {
    if |u| == 0 then Some("")
    else if IsHighSurrogate(u[0]) then
      if |u| >= 2 && IsLowSurrogate(u[1]) then
        var x := 0x1_0000 + (u[0] as int - 0xD800) * 0x400 + (u[1] as int - 0xDC00);
        match DecodeUtf16(u[2..])
        case Some(rest) => Some([x as char] + rest)
        case None => None
      else None
    else if IsLowSurrogate(u[0]) then None
    else
      match DecodeUtf16(u[1..])
      case Some(rest) => Some([u[0] as int as char] + rest)
      case None => None
  }

  // ---------------------------------------------------------------------
  // The statistics record
  // ---------------------------------------------------------------------

  /** The statistics object built at lines 31-36 of the source. */
  function ComputeStats(path: Path, content: string): (st: FileStats)
    ensures st.path == path
    ensures st.words == RunCount(content)
    ensures st.lines == Occurrences(content, '\n') + 1
    ensures st.characters == |content| + AstralCount(content)
    ensures |content| <= st.characters <= 2 * |content|
    ensures st.words <= st.characters
  {
    WordCountIsRunCount(content);
    LineCountIsNewlinesPlusOne(content);
    Utf16Length(content);
    Utf16LengthBounds(content);
    RunCountBound(content);
    FileStats(WordCount(content), |EncodeUtf16(content)|, LineCount(content), path)
  }

  // ---------------------------------------------------------------------
  // Lemmas
  // ---------------------------------------------------------------------

  lemma {:induction false} RunCountBound(s: string)
    ensures RunCount(s) <= |s|
  {
    if |s| > 0 {
      RunCountBound(s[..|s| - 1]);
    }
  }

  lemma {:induction false} DropEmptyAppend(a: seq<string>, b: seq<string>)
    ensures DropEmpty(a + b) == DropEmpty(a) + DropEmpty(b)
    decreases |a|
  {
    if |a| == 0 {
      assert a + b == b;
    } else {
      assert (a + b)[1..] == a[1..] + b;
      DropEmptyAppend(a[1..], b);
    }
  }

  /** No piece of `split(/\s+/)` contains whitespace. */
  lemma {:induction false} SplitPiecesHaveNoWhitespace(s: string)
    ensures forall k :: 0 <= k < |SplitOnWhitespace(s)| ==> NoWhitespace(SplitOnWhitespace(s)[k])
  {
    if |s| > 0 {
      var init := SplitOnWhitespace(s[..|s| - 1]);
      SplitPiecesHaveNoWhitespace(s[..|s| - 1]);
      var last := init[|init| - 1];
      assert NoWhitespace(last);
    }
  }

  /** The last piece is empty exactly when the text is empty or ends in
      whitespace. */
  lemma {:induction false} LastPieceEmpty(s: string)
    ensures var p := SplitOnWhitespace(s);
            p[|p| - 1] == "" <==> |s| == 0 || IsWhitespace(s[|s| - 1])
  {
    if |s| > 0 {
      var t := s[..|s| - 1];
      LastPieceEmpty(t);
      if |s| >= 2 {
        assert t[|t| - 1] == s[|s| - 2];
      }
    }
  }

  /** Filtering commutes with splitting off the last piece. */
  lemma DropEmptyLast(init: seq<string>, x: string)
    requires |init| >= 1
    ensures |DropEmpty(init)| == |DropEmpty(init[..|init| - 1])| + (if init[|init| - 1] == "" then 0 else 1)
    ensures |DropEmpty(init[..|init| - 1] + [x])| == |DropEmpty(init[..|init| - 1])| + (if x == "" then 0 else 1)
  {
    var front := init[..|init| - 1];
    assert init == front + [init[|init| - 1]];
    DropEmptyAppend(front, [init[|init| - 1]]);
    DropEmptyAppend(front, [x]);
  }

  /** The source's token count equals the number of maximal non-whitespace
      runs. */
  lemma {:induction false} WordCountIsRunCount(s: string)
    ensures WordCount(s) == RunCount(s)
  {
    if |s| > 0 {
      var t := s[..|s| - 1];
      var init := SplitOnWhitespace(t);
      var c := s[|s| - 1];
      WordCountIsRunCount(t);
      LastPieceEmpty(t);
      if |s| >= 2 {
        assert t[|t| - 1] == s[|s| - 2];
      }
      if !IsWhitespace(c) {
        DropEmptyLast(init, init[|init| - 1] + [c]);
      } else if !(|s| >= 2 && IsWhitespace(s[|s| - 2])) {
        DropEmptyAppend(init, [""]);
      }
    }
  }

  /** A text has no words exactly when it is empty or all whitespace. */
  lemma {:induction false} NoWordsIffAllWhitespace(s: string)
    ensures WordCount(s) == 0 <==> AllWhitespace(s)
    decreases |s|
  {
    WordCountIsRunCount(s);
    RunCountZeroIffAllWhitespace(s);
  }

  lemma {:induction false} RunCountZeroIffAllWhitespace(s: string)
    ensures RunCount(s) == 0 <==> AllWhitespace(s)
    decreases |s|
  {
    if |s| > 0 {
      var init := s[..|s| - 1];
      RunCountZeroIffAllWhitespace(init);
      assert AllWhitespace(s) <==> AllWhitespace(init) && IsWhitespace(s[|s| - 1]);
      if RunCount(s) == 0 && |s| > 1 {
        assert IsWhitespace(s[|s| - 2]);
      }
    }
  }

  /** `split("\n")` yields one more segment than there are newlines, so a
      trailing newline adds an empty last segment. */
  lemma {:induction false} LineCountIsNewlinesPlusOne(s: string)
    ensures LineCount(s) == Occurrences(s, '\n') + 1
  {
    SplitOnCount(s, '\n');
  }

  lemma {:induction false} SplitOnCount(s: string, sep: char)
    ensures |SplitOn(s, sep)| == Occurrences(s, sep) + 1
  {
    if |s| > 0 {
      SplitOnCount(s[1..], sep);
    }
  }

  /** Joining the segments back with the separator restores the text. */
  lemma {:induction false} SplitOnJoinRoundTrip(s: string, sep: char)
    ensures JoinWith(SplitOn(s, sep), sep) == s
  {
    if |s| > 0 {
      var rest := SplitOn(s[1..], sep);
      SplitOnJoinRoundTrip(s[1..], sep);
      if s[0] == sep {
        assert SplitOn(s, sep)[1..] == rest;
      } else {
        var pieces := SplitOn(s, sep);
        assert pieces[1..] == rest[1..];
        if |rest| == 1 {
          assert JoinWith(pieces, sep) == [s[0]] + rest[0];
        } else {
          assert JoinWith(pieces, sep) == [s[0]] + rest[0] + [sep] + JoinWith(rest[1..], sep);
        }
        assert s == [s[0]] + s[1..];
      }
    }
  }

  /** A text without the separator is a single segment. */
  lemma {:induction false} SplitOnWithoutSeparator(s: string, sep: char)
    requires sep !in s
    ensures SplitOn(s, sep) == [s]
  {
    if |s| > 0 {
      assert sep !in s[1..];
      SplitOnWithoutSeparator(s[1..], sep);
      assert s == [s[0]] + s[1..];
    }
  }

  /** Splitting at a separator occurrence splits the segments there. */
  lemma {:induction false} SplitOnConcat(a: string, b: string, sep: char)
    ensures SplitOn(a + [sep] + b, sep) == SplitOn(a, sep) + SplitOn(b, sep)
  {
    if |a| == 0 {
      assert a + [sep] + b == [sep] + b;
      SplitOnCons(sep, b, sep);
    } else {
      var c, t := a[0], a[1..] + [sep] + b;
      assert a + [sep] + b == [c] + t;
      assert a == [c] + a[1..];
      SplitOnCons(c, t, sep);
      SplitOnCons(c, a[1..], sep);
      SplitOnConcat(a[1..], b, sep);
      PrependPiece(c, sep, SplitOn(a[1..], sep), SplitOn(b, sep));
    }
  }

  /** Putting one character in front of the pieces commutes with appending
      further pieces. */
  lemma PrependPiece(c: char, sep: char, ra: seq<string>, rb: seq<string>)
    requires |ra| > 0
    ensures var r := ra + rb;
      (if c == sep then [""] + r else [[c] + r[0]] + r[1..])
      == (if c == sep then [""] + ra else [[c] + ra[0]] + ra[1..]) + rb
  {
    if c != sep {
      assert (ra + rb)[1..] == ra[1..] + rb;
    }
  }

  /** Splitting a text one character at a time from the front. */
  lemma SplitOnCons(c: char, t: string, sep: char)
    ensures var rest := SplitOn(t, sep);
      SplitOn([c] + t, sep) == if c == sep then [""] + rest else [[c] + rest[0]] + rest[1..]
  {
    assert ([c] + t)[0] == c;
    assert ([c] + t)[1..] == t;
  }

  lemma {:induction false} Utf16LengthBounds(s: string)
    ensures |s| <= |EncodeUtf16(s)| <= 2 * |s|
    ensures (forall i :: 0 <= i < |s| ==> s[i] as int < 0x1_0000) ==> |EncodeUtf16(s)| == |s|
  {
    if |s| > 0 {
      Utf16LengthBounds(s[1..]);
    }
  }

  /** `String.length` counts one code unit per character plus one more per
      character outside the Basic Multilingual Plane. */
  lemma {:induction false} Utf16Length(s: string)
    ensures |EncodeUtf16(s)| == |s| + AstralCount(s)
  {
    if |s| > 0 {
      Utf16Length(s[1..]);
    }
  }

  /** The code units counted as characters decode back to the text. */
  lemma {:induction false} Utf16RoundTrip(s: string)
    ensures DecodeUtf16(EncodeUtf16(s)) == Some(s)
  {
    if |s| > 0 {
      Utf16RoundTrip(s[1..]);
      var c := s[0];
      var u := EncodeUtf16(s);
      assert u == EncodeChar(c) + EncodeUtf16(s[1..]);
      if c as int >= 0x1_0000 {
        var v := c as int - 0x1_0000;
        assert u[2..] == EncodeUtf16(s[1..]);
        assert 0x1_0000 + (v / 0x400) * 0x400 + v % 0x400 == c as int;
      } else {
        assert u[1..] == EncodeUtf16(s[1..]);
      }
      assert s == [c] + s[1..];
    }
  }

  /** A worked example: two spaces and a newline. */
  lemma ExampleStats()
    ensures ComputeStats("a.txt", "a  b\nc") == FileStats(3, 6, 2, "a.txt")
  {
    var s := "a  b\nc";
    assert RunCount(s[..1]) == 1;
    assert s[..2][..1] == s[..1];
    assert RunCount(s[..2]) == 1;
    assert s[..3][..2] == s[..2];
    assert RunCount(s[..3]) == 1;
    assert s[..4][..3] == s[..3];
    assert RunCount(s[..4]) == 2;
    assert s[..5][..4] == s[..4];
    assert RunCount(s[..5]) == 2;
    assert s[..5] == s[..|s| - 1];
    assert RunCount(s) == 3;
    assert Occurrences(s, '\n') == 1;
    assert |EncodeUtf16(s)| == 6 by { Utf16LengthBounds(s); }
  }
}
