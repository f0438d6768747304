/**
 * The parser's error report: the line number and line start of the error
 * position, the echoed source line, and the caret under the error column.
 *
 * The input is the whole text being parsed; positions are indices into it,
 * with |text| standing for the end of the input. CR, LF and the pair CR LF
 * each end one line.
 */
module ErrorReport {
  import opened Text

  predicate IsBreakChar(c: char) {
    c == '\r' || c == '\n'
  }

  /**
   * Position p (0 < p <= e) is just after a line break seen while scanning
   * up to e: after an LF, or after a CR that is not followed by an LF before e.
   */
  predicate BreakEnd(text: string, e: nat, p: nat)
    requires 0 < p <= e <= |text|
  {
    text[p - 1] == '\n' || (text[p - 1] == '\r' && (p == e || text[p] != '\n'))
  }

  /** The number of line breaks ending in (0, p] when scanning up to e. */
  function BreakCount(text: string, e: nat, p: nat): nat
    requires p <= e <= |text|
  {
    if p == 0 then 0 else BreakCount(text, e, p - 1) + (if BreakEnd(text, e, p) then 1 else 0)
  }

  /** The 1-based line number of position e. */
  function LineOf(text: string, e: nat): nat
    requires e <= |text|
  {
    1 + BreakCount(text, e, e)
  }

  /** The start of the line holding e: just after the last CR or LF before e, else 0. */
  function LineStart(text: string, e: nat): (s: nat)
    requires e <= |text|
    ensures s <= e
    ensures forall k :: s <= k < e ==> !IsBreakChar(text[k])
    ensures s == 0 || IsBreakChar(text[s - 1])
  {
    if e == 0 then 0 else if IsBreakChar(text[e - 1]) then e else LineStart(text, e - 1)
  }

  /** The end of the line starting at s: the first CR or LF at or after s, else the end of the text. */
  function LineEnd(text: string, s: nat): (t: nat)
    requires s <= |text|
    ensures s <= t <= |text|
    ensures forall k :: s <= k < t ==> !IsBreakChar(text[k])
    ensures t == |text| || IsBreakChar(text[t])
    decreases |text| - s
  {
    if s == |text| || IsBreakChar(text[s]) then s else LineEnd(text, s + 1)
  }

  /** A line runs on past every position before the next break. */
  lemma {:induction false} LineEndReaches(text: string, s: nat, e: nat)
    requires s <= e <= |text|
    requires forall k :: s <= k < e ==> !IsBreakChar(text[k])
    ensures e <= LineEnd(text, s)
    ensures e < |text| && !IsBreakChar(text[e]) ==> e < LineEnd(text, s)
    decreases e - s
  {
    if s < e {
      LineEndReaches(text, s + 1, e);
    }
  }

  /**
   * The scan of the error handler: counts the lines up to e and remembers
   * where the current line started. A CR followed by an LF is consumed as one
   * break within a single iteration.
   */
  method GetPos(text: string, e: nat) returns (line: nat, lineStart: nat)
    requires e <= |text|
    ensures line == LineOf(text, e)
    ensures lineStart == LineStart(text, e)
  {
    line := 1;
    var i := 0;
    lineStart := 0;
    while i != e
      invariant i <= e
      invariant 0 < i < e ==> !(text[i - 1] == '\r' && text[i] == '\n')
      invariant line == 1 + BreakCount(text, e, i)
      invariant lineStart == LineStart(text, i)
      decreases e - i
    {
      var eol := false;
      if i != e && text[i] == '\r' {
        eol := true;
        i := i + 1;
        lineStart := i;
      }
      if i != e && text[i] == '\n' {
        eol := true;
        i := i + 1;
        lineStart := i;
      }
      if eol {
        line := line + 1;
      } else {
        i := i + 1;
      }
    }
  }

  /** The characters from s up to, not including, the next CR, LF or the end of the text. */
  method GetLine(text: string, s: nat) returns (line: string)
    requires s <= |text|
    ensures line == text[s..LineEnd(text, s)]
    ensures forall k :: 0 <= k < |line| ==> !IsBreakChar(line[k])
  {
    var i := s;
    while i != |text| && !IsBreakChar(text[i])
      invariant s <= i <= |text|
      invariant LineEnd(text, i) == LineEnd(text, s)
      decreases |text| - i
    {
      i := i + 1;
    }
    line := text[s..i];
  }

  /** The first report line when the error lies inside the text. */
  function Located(message: string, what: string, line: nat): string {
    message + " Line " + NatToString(line) + ". Expected " + what + " at or after:"
  }

  /** The report when the error lies at the end of the text, as the handler writes it. */
  function EofAsWritten(message: string, what: string, line: nat): string {
    "Unexpected end of file. " + message + " Line " + NatToString(line) + ". Expected" + what + "."
  }

  /** The end-of-text report with the space after "Expected" that the located report has. */
  function Eof(message: string, what: string, line: nat): string {
    "Unexpected end of file. " + message + " Line " + NatToString(line) + ". Expected " + what + "."
  }

  /**
   * The lines the handler writes for an error at e: inside the text, the
   * message, the echoed source line and a caret line; at the end, a single
   * message without a caret.
   */
  method Report(message: string, what: string, text: string, e: nat) returns (lines: seq<string>)
    requires e <= |text|
    ensures e < |text| ==> |lines| == 3 && lines[0] == Located(message, what, LineOf(text, e))
    ensures e < |text| ==>
              var s := LineStart(text, e);
              && lines[1] == text[s..LineEnd(text, s)]
              && |lines[2]| == e - s + 1
              && (forall k :: 0 <= k < e - s ==> lines[2][k] == ' ')
              && lines[2][e - s] == '^'
              && lines[1][..e - s] == text[s..e]
    ensures e < |text| && !IsBreakChar(text[e]) ==> |lines[2]| <= |lines[1]| && lines[1][|lines[2]| - 1] == text[e]
    ensures e < |text| && IsBreakChar(text[e]) ==> |lines[2]| == |lines[1]| + 1
    ensures e == |text| ==> lines == [Eof(message, what, LineOf(text, e))]
  {
    var line, s := GetPos(text, e);
    if e != |text| {
      var source := GetLine(text, s);
      LineEndReaches(text, s, e);
      lines := [Located(message, what, line), source, Spaces(e - s) + "^"];
    } else {
      lines := [Eof(message, what, line)];
    }
  }

  /** The located report line is a header followed by this suffix. */
  const AtOrAfter := " at or after:"

  /** The header of the located report: the message up to and including the rule name. */
  function HeaderOf(located: string): string
    requires |located| >= |AtOrAfter|
  {
    located[..|located| - |AtOrAfter|]
  }

  /** The corrected end-of-text report repeats the located report's header, ending it with a period. */
  lemma EofSharesHeader(message: string, what: string, line: nat)
    ensures |Located(message, what, line)| >= |AtOrAfter|
    ensures Eof(message, what, line) == "Unexpected end of file. " + HeaderOf(Located(message, what, line)) + "."
  {
    var h := message + " Line " + NatToString(line) + ". Expected " + what;
    assert Located(message, what, line) == h + AtOrAfter;
    assert HeaderOf(h + AtOrAfter) == h;
  }

  /**
   * As written, the end-of-text report is one character short of that
   * header form, for every message, rule name and line.
   */
  lemma EofAsWrittenDropsBlank(message: string, what: string, line: nat)
    ensures |Located(message, what, line)| >= |AtOrAfter|
    ensures |EofAsWritten(message, what, line)| + 1
              == |"Unexpected end of file. " + HeaderOf(Located(message, what, line)) + "."|
    ensures EofAsWritten(message, what, line) != "Unexpected end of file. " + HeaderOf(Located(message, what, line)) + "."
  {
    EofSharesHeader(message, what, line);
  }

  /** A CR LF pair is one break: the text after it is on line 2, starting after the LF. */
  lemma CrLfIsOneBreak()
    ensures LineOf("a\r\nb", 3) == 2 && LineStart("a\r\nb", 3) == 3
  {
    assert BreakEnd("a\r\nb", 3, 3);
    assert !BreakEnd("a\r\nb", 3, 2);
  }

  /** LF then CR are two breaks. */
  lemma LfCrIsTwoBreaks()
    ensures LineOf("a\n\rb", 3) == 3 && LineStart("a\n\rb", 3) == 3
  {
    assert BreakEnd("a\n\rb", 3, 2);
    assert BreakEnd("a\n\rb", 3, 3);
  }

  /** A CR right before the error position counts even if an LF follows at the position itself. */
  lemma CrBeforeErrorCounts()
    ensures LineOf("a\r\nb", 2) == 2 && LineStart("a\r\nb", 2) == 2
  {
    assert BreakEnd("a\r\nb", 2, 2);
  }
}
