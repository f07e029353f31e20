/** The pieces of `JSON.stringify(value, null, 2)` the processor's
    artifacts need: non-negative integers, strings, and objects and arrays
    pretty-printed with a two-space indent. */
module JsonText {
  import opened Wrappers
  import TextStats

  predicate IsDigit(c: char) { '0' <= c <= '9' }

  predicate AllDigits(s: string) {
    forall i :: 0 <= i < |s| ==> IsDigit(s[i])
  }

  function DigitChar(d: nat): (c: char)
    requires d < 10
    ensures IsDigit(c)
  {
    ('0' as int + d) as char
  }

  /** The decimal numeral JavaScript prints for a non-negative integer. */
  function Decimal(n: nat): (s: string)
    ensures |s| >= 1 && AllDigits(s)
    ensures |s| > 1 ==> s[0] != '0'
  {
    if n < 10 then [DigitChar(n)] else Decimal(n / 10) + [DigitChar(n % 10)]
  }

  /** The value of a numeral, read most significant digit first. */
  function DigitsValue(s: string): nat
    requires AllDigits(s)
  {
    if |s| == 0 then 0
    else DigitsValue(s[..|s| - 1]) * 10 + (s[|s| - 1] as int - '0' as int)
  }

  /** Printing a number and reading it back gives the number. */
  lemma {:induction false} DecimalRoundTrip(n: nat)
    ensures DigitsValue(Decimal(n)) == n
  {
    if n >= 10 {
      var s := Decimal(n);
      assert s[..|s| - 1] == Decimal(n / 10);
      DecimalRoundTrip(n / 10);
    }
  }

  // ---------------------------------------------------------------------
  // Strings
  // ---------------------------------------------------------------------

  /** Lower-case hexadecimal digit, as in JSON.stringify's `\u00xx`. */
  function HexDigit(d: nat): char
    requires d < 16
  {
    if d < 10 then ('0' as int + d) as char else ('a' as int + d - 10) as char
  }

  function HexValue(c: char): (r: Option<nat>)
    ensures r.Some? ==> r.value < 16
  {
    if '0' <= c <= '9' then Some(c as int - '0' as int)
    else if 'a' <= c <= 'f' then Some(c as int - 'a' as int + 10)
    else if 'A' <= c <= 'F' then Some(c as int - 'A' as int + 10)
    else None
  }

  /** How JSON.stringify writes one character inside a string literal. */
  function EscapeChar(c: char): string {
    if c == '"' then "\\\""
    else if c == '\\' then "\\\\"
    else if c == '\U{8}' then "\\b"
    else if c == '\U{C}' then "\\f"
    else if c == '\n' then "\\n"
    else if c == '\r' then "\\r"
    else if c == '\t' then "\\t"
    else if c as int < 0x20 then "\\u00" + [HexDigit(c as int / 16), HexDigit(c as int % 16)]
    else [c]
  }

  function Escape(s: string): string {
    if |s| == 0 then "" else EscapeChar(s[0]) + Escape(s[1..])
  }

  /** A JSON string literal for `s`. */
  function Quote(s: string): string {
    "\"" + Escape(s) + "\""
  }

  /** The value of four hexadecimal digits, as a `\u` escape reads them. */
  function FourHex(t: string): (r: Option<nat>)
    requires |t| == 4
    ensures r.Some? ==> r.value < 0x1_0000
  {
    match (HexValue(t[0]), HexValue(t[1]), HexValue(t[2]), HexValue(t[3]))
    case (Some(a), Some(b), Some(c), Some(d)) => Some(((a * 16 + b) * 16 + c) * 16 + d)
    case _ => None
  }

  function UnescapeSimple(c: char): Option<char> {
    if c == '"' then Some('"')
    else if c == '\\' then Some('\\')
    else if c == '/' then Some('/')
    else if c == 'b' then Some('\U{8}')
    else if c == 'f' then Some('\U{C}')
    else if c == 'n' then Some('\n')
    else if c == 'r' then Some('\r')
    else if c == 't' then Some('\t')
    else None
  }

  /** Reads the body of a JSON string literal back into text; `None` when the
      body is not well formed (an unescaped quote or control character, an
      unknown escape, or a `\u` escape of a surrogate). */
  function Unescape(t: string): Option<string> {
    if |t| == 0 then Some("")
    else if t[0] == '\\' then
      if |t| < 2 then None
      else if t[1] == 'u' then
        if |t| < 6 then None
        else match FourHex(t[2..6])
          case None => None
          case Some(v) =>
            if 0xD800 <= v < 0xE000 then None
            else match Unescape(t[6..])
              case None => None
              case Some(rest) => Some([v as char] + rest)
      else match (UnescapeSimple(t[1]), Unescape(t[2..]))
        case (Some(c), Some(rest)) => Some([c] + rest)
        case _ => None
    else if t[0] == '"' || (t[0] as int) < 0x20 then None
    else match Unescape(t[1..])
      case None => None
      case Some(rest) => Some([t[0]] + rest)
  }

  lemma HexRoundTrip(d: nat)
    requires d < 16
    ensures HexValue(HexDigit(d)) == Some(d)
  {
  }

  lemma UnescapeEscapeChar(c: char, rest: string, r: string)
    requires Unescape(rest) == Some(r)
    ensures Unescape(EscapeChar(c) + rest) == Some([c] + r)
  {
    var t := EscapeChar(c) + rest;
    if c != '"' && c != '\\' && c != '\U{8}' && c != '\U{C}' && c != '\n' && c != '\r' && c != '\t'
       && c as int < 0x20 {
      var x := c as int;
      HexRoundTrip(x / 16);
      HexRoundTrip(x % 16);
      assert t[2..6] == "00" + [HexDigit(x / 16), HexDigit(x % 16)];
      assert FourHex(t[2..6]) == Some(x);
      assert t[6..] == rest;
    } else if |EscapeChar(c)| == 2 {
      assert t[2..] == rest;
    } else {
      assert t[1..] == rest;
    }
  }

  /** Every string survives being written as a JSON string literal. */
  lemma {:induction false} UnescapeEscape(s: string)
    ensures Unescape(Escape(s)) == Some(s)
  {
    if |s| > 0 {
      UnescapeEscape(s[1..]);
      UnescapeEscapeChar(s[0], Escape(s[1..]), s[1..]);
      assert s == [s[0]] + s[1..];
    }
  }

  // ---------------------------------------------------------------------
  // Pretty-printed objects and arrays (gap of two spaces)
  // ---------------------------------------------------------------------

  function Indent(level: nat): string {
    seq(2 * level, _ => ' ')
  }

  function JoinLines(items: seq<string>): string {
    if |items| == 0 then ""
    else if |items| == 1 then items[0]
    else items[0] + ",\n" + JoinLines(items[1..])
  }

  /** The member lines of an object at depth `level + 1`, before the
      separating commas. */
  function MemberLines(members: seq<(string, string)>, level: nat): (lines: seq<string>)
    ensures |lines| == |members|
  {
    seq(|members|, k requires 0 <= k < |members| =>
      Indent(level + 1) + Quote(members[k].0) + ": " + members[k].1)
  }

  /** An object whose member values are already rendered for nesting depth
      `level + 1`. */
  function ObjectText(members: seq<(string, string)>, level: nat): string {
    if |members| == 0 then "{}"
    else "{" + "\n" + JoinLines(MemberLines(members, level)) + "\n" + Indent(level) + "}"
  }

  function ItemLines(items: seq<string>, level: nat): (lines: seq<string>)
    ensures |lines| == |items|
  {
    seq(|items|, k requires 0 <= k < |items| => Indent(level + 1) + items[k])
  }

  /** An array whose elements are already rendered for depth `level + 1`. */
  function ArrayText(items: seq<string>, level: nat): string {
    if |items| == 0 then "[]"
    else "[" + "\n" + JoinLines(ItemLines(items, level)) + "\n" + Indent(level) + "]"
  }

  // ---------------------------------------------------------------------
  // Lemmas: the printed layout, line by line
  // ---------------------------------------------------------------------

  /** The lines of a printed list: each but the last ends with the comma
      that separates it from the next. */
  function CommaTerminated(items: seq<string>): (lines: seq<string>)
    ensures |lines| == |items|
  {
    seq(|items|, k requires 0 <= k < |items| => if k < |items| - 1 then items[k] + "," else items[k])
  }

  /** A character JSON writes as itself inside a string literal. */
  predicate IsPlainChar(c: char) {
    c != '"' && c != '\\' && c as int >= 0x20
  }

  /** A string of plain characters is quoted as it is. */
  lemma {:induction false} QuotePlain(s: string)
    requires forall k :: 0 <= k < |s| ==> IsPlainChar(s[k])
    ensures Quote(s) == "\"" + s + "\""
  {
    EscapePlain(s);
  }

  lemma {:induction false} EscapePlain(s: string)
    requires forall k :: 0 <= k < |s| ==> IsPlainChar(s[k])
    ensures Escape(s) == s
  {
    if |s| > 0 {
      assert IsPlainChar(s[0]);
      EscapePlain(s[1..]);
      assert s == [s[0]] + s[1..];
    }
  }

  /** A string literal never spans two lines: a newline is escaped. */
  lemma {:induction false} QuoteIsOneLine(s: string)
    ensures '\n' !in Quote(s)
  {
    EscapeIsOneLine(s);
  }

  lemma {:induction false} EscapeIsOneLine(s: string)
    ensures '\n' !in Escape(s)
  {
    if |s| > 0 {
      EscapeIsOneLine(s[1..]);
      assert '\n' !in EscapeChar(s[0]);
    }
  }

  lemma DecimalIsOneLine(n: nat)
    ensures '\n' !in Decimal(n)
  {
  }

  lemma IndentIsOneLine(level: nat)
    ensures '\n' !in Indent(level)
  {
  }

  /** Joined items that are each one line print one line per item. */
  lemma {:induction false} JoinLinesSplit(items: seq<string>)
    requires |items| > 0 && forall k :: 0 <= k < |items| ==> '\n' !in items[k]
    ensures TextStats.SplitOn(JoinLines(items), '\n') == CommaTerminated(items)
    decreases |items|
  {
    if |items| == 1 {
      TextStats.SplitOnWithoutSeparator(items[0], '\n');
    } else {
      var rest := items[1..];
      var first := items[0] + ",";
      var j := JoinLines(rest);
      assert TextStats.SplitOn(j, '\n') == CommaTerminated(rest) by {
        JoinLinesSplit(rest);
      }
      assert TextStats.SplitOn(first, '\n') == [first] by {
        assert '\n' !in items[0];
        assert '\n' !in first;
        TextStats.SplitOnWithoutSeparator(first, '\n');
      }
      assert JoinLines(items) == first + ['\n'] + j by {
        assert items[0] + ",\n" + j == first + ['\n'] + j;
      }
      TextStats.SplitOnConcat(first, j, '\n');
      assert CommaTerminated(items) == [first] + CommaTerminated(rest);
    }
  }

  /** The frame of a non-empty object or array: an opening line, the
      comma-separated lines of the content, and the closing line at the
      object's own indent. */
  lemma FramedLines(open: string, lines: seq<string>, level: nat, close: string)
    requires |lines| > 0 && forall k :: 0 <= k < |lines| ==> '\n' !in lines[k]
    requires '\n' !in open && '\n' !in close
    ensures TextStats.SplitOn(open + "\n" + JoinLines(lines) + "\n" + Indent(level) + close, '\n')
         == [open] + CommaTerminated(lines) + [Indent(level) + close]
  {
    var j := JoinLines(lines);
    var tail := Indent(level) + close;
    assert '\n' !in tail by {
      IndentIsOneLine(level);
    }
    var inner := j + ['\n'] + tail;
    assert open + "\n" + j + "\n" + Indent(level) + close == open + ['\n'] + inner;
    assert TextStats.SplitOn(inner, '\n') == CommaTerminated(lines) + [tail] by {
      TextStats.SplitOnConcat(j, tail, '\n');
      TextStats.SplitOnWithoutSeparator(tail, '\n');
      JoinLinesSplit(lines);
    }
    assert TextStats.SplitOn(open, '\n') == [open] by {
      TextStats.SplitOnWithoutSeparator(open, '\n');
    }
    TextStats.SplitOnConcat(open, inner, '\n');
  }

  /** A non-empty object whose values are one line each prints `{`, then
      one `"key": value` line per member at the next indent, separated by
      commas, then `}` at its own indent. */
  lemma ObjectTextLines(members: seq<(string, string)>, level: nat)
    requires |members| > 0 && forall k :: 0 <= k < |members| ==> '\n' !in members[k].1
    ensures TextStats.SplitOn(ObjectText(members, level), '\n')
         == ["{"] + CommaTerminated(MemberLines(members, level)) + [Indent(level) + "}"]
  {
    var lines := MemberLines(members, level);
    forall k | 0 <= k < |lines| ensures '\n' !in lines[k] {
      IndentIsOneLine(level + 1);
      QuoteIsOneLine(members[k].0);
      assert lines[k] == Indent(level + 1) + Quote(members[k].0) + ": " + members[k].1;
    }
    FramedLines("{", lines, level, "}");
  }

  /** A non-empty array of one-line items prints `[`, one item per line at
      the next indent, separated by commas, then `]`. */
  lemma ArrayTextLines(items: seq<string>, level: nat)
    requires |items| > 0 && forall k :: 0 <= k < |items| ==> '\n' !in items[k]
    ensures TextStats.SplitOn(ArrayText(items, level), '\n')
         == ["["] + CommaTerminated(ItemLines(items, level)) + [Indent(level) + "]"]
  {
    var lines := ItemLines(items, level);
    forall k | 0 <= k < |lines| ensures '\n' !in lines[k] {
      IndentIsOneLine(level + 1);
      assert lines[k] == Indent(level + 1) + items[k];
    }
    FramedLines("[", lines, level, "]");
  }

}

