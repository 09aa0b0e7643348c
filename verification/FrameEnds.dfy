/** When the end of a stream counts as clean. */
module FrameEnds {
  import Decimal
  import opened Frames
  import opened FrameTheorems
  import opened Options

  /** Header lines with their line ends, without the blank line. */
  function LinesOf(lines: seq<string>): string {
    if lines == [] then "" else lines[0] + "\r\n" + LinesOf(lines[1..])
  }

  predicate AllLines(lines: seq<string>) { forall i | 0 <= i < |lines| :: IsLine(lines[i]) }

  /** Nothing, or whole header lines, with the blank line behind them or without it. */
  ghost predicate IsWholeLines(s: string) {
    exists lines :: AllLines(lines) && (s == LinesOf(lines) || s == HeaderPart(lines))
  }

  /** What is left of a stream behind its last message. */
  function LeftOver(r: Reading, s: string): string
    decreases |s|
  {
    match ReadMessage(r, s)
    case StreamEnd(_) => s
    case Found(_, rest) =>
      ReadPartShrinks(s, r.limit, NO_HEADER);
      LeftOver(r, rest)
  }

  lemma FirstLine(s: string, limit: nat) returns (line: string)
    requires ReadLine(s, limit).Line?
    ensures NoLineEnd(line) && s == line + "\r\n" + ReadLine(s, limit).rest
    ensures ReadLine(s, limit).text == if |line| <= limit then Some(Ascii(line)) else None
  {
    var p := FindLineEnd(s);
    line := s[..p];
    assert LineEndAt(s, p);
    assert forall i | 0 <= i < p :: LineEndAt(line, i) ==> LineEndAt(s, i);
    assert s == s[..p] + s[p..p + 2] + s[p + 2..] && s[p..p + 2] == "\r\n";
  }

  /** A header part without its end: whole lines, and then something that is no line; what follows its end otherwise. */
  lemma {:induction false} PartIsLines(s: string, limit: nat, h: Header) returns (lines: seq<string>)
    ensures AllLines(lines)
    ensures match ReadPart(s, limit, h)
      case Part(_, rest) => s == HeaderPart(lines) + rest
      case PartEnd(clean) => clean ==> s == LinesOf(lines)
    decreases |s|
  {
    match ReadLine(s, limit)
    case NoLine => lines := [];
    case Line(text, rest) =>
      var line := FirstLine(s, limit);
      if line == "" {
        lines := [];
        assert s == "\r\n" + rest;
      } else {
        var more := PartIsLines(rest, limit, if text.Some? then WithLine(h, text.value) else h);
        lines := [line] + more;
        assert lines[1..] == more;
        assert line + "\r\n" + (LinesOf(more)) == LinesOf(lines);
        assert forall tail :: line + "\r\n" + (HeaderPart(more) + tail) == HeaderPart(lines) + tail;
      }
  }

  lemma {:induction false} LinesHaveNoEnd(lines: seq<string>, limit: nat, h: Header)
    requires AllLines(lines)
    ensures ReadPart(LinesOf(lines), limit, h) == PartEnd(true)
    decreases |lines|
  {
    if lines != [] {
      var rest := LinesOf(lines[1..]);
      ReadOneLine(lines[0], rest, limit);
      LinesHaveNoEnd(lines[1..], limit, if |lines[0]| <= limit then WithLine(h, Ascii(lines[0])) else h);
    }
  }

  /** Where a stream ends without another message, it ends cleanly exactly if whole header lines are left, or nothing. */
  lemma EndIsClean(r: Reading, s: string)
    requires ReadMessage(r, s).StreamEnd?
    ensures ReadMessage(r, s).clean <==> IsWholeLines(s)
  {
    var found := PartIsLines(s, r.limit, NO_HEADER);
    if lines :| AllLines(lines) && (s == LinesOf(lines) || s == HeaderPart(lines)) {
      if s == LinesOf(lines) {
        LinesHaveNoEnd(lines, r.limit, NO_HEADER);
      } else {
        assert HeaderPart(lines) + "" == s;
        ReadHeaderPart(lines, "", r.limit, NO_HEADER);
      }
    }
    if ReadMessage(r, s).clean {
      assert HeaderPart(found) + "" == HeaderPart(found);
    }
  }

  /** A stream counts as ended cleanly exactly if what is left behind its last message is nothing or whole header lines. */
  lemma {:induction false} CleanExactlyIf(r: Reading, s: string)
    ensures ReadAll(r, s).clean <==> IsWholeLines(LeftOver(r, s))
    decreases |s|
  {
    match ReadMessage(r, s)
    case StreamEnd(_) => EndIsClean(r, s);
    case Found(_, rest) =>
      ReadPartShrinks(s, r.limit, NO_HEADER);
      CleanExactlyIf(r, rest);
  }

  /** So a stream that is cut behind a header line, such as one that announces content, does not end with an error. */
  lemma CutBehindALine(r: Reading, line: string)
    requires IsLine(line)
    ensures ReadAll(r, line + "\r\n") == Transcript([], true)
  {
    assert [line][1..] == [] && LinesOf([line]) == line + "\r\n" + "";
    assert line + "\r\n" + "" == line + "\r\n";
    LinesHaveNoEnd([line], r.limit, NO_HEADER);
  }

  lemma CutBehindTheLength(r: Reading, n: nat)
    requires n < Decimal.Pow10(18)
    ensures ReadAll(r, FieldLine(CONTENT_LENGTH, Decimal.Numeral(n)) + "\r\n") == Transcript([], true)
  {
    NumeralLine(NO_HEADER, n);
    CutBehindALine(r, FieldLine(CONTENT_LENGTH, Decimal.Numeral(n)));
  }

  lemma CutMessage(r: Reading, s: string, h: Header, content: string)
    requires ReadPart(s, r.limit, NO_HEADER) == Part(h, content)
    requires h.length.Some? && ValidLength(h.length.value) && |content| < Decimal.ValueOf(h.length.value)
    ensures var n := Decimal.ValueOf(h.length.value);
      ReadMessage(r, s) == if r.maxSize.Some? && n > r.maxSize.value then Found(TooLarge(n), "") else StreamEnd(content == "")
  {
  }

  /** A message over the size limit is answered even if the stream ends within its content, and that end is clean; within
      the content of any other message the end is an error, unless nothing of the content has come. */
  lemma CutWithinContent(r: Reading, lines: seq<string>, content: string)
    requires AllLines(lines)
    requires var h := WithLines(NO_HEADER, lines, r.limit);
      h.length.Some? && ValidLength(h.length.value) && |content| < Decimal.ValueOf(h.length.value)
    ensures var n := Decimal.ValueOf(WithLines(NO_HEADER, lines, r.limit).length.value);
      ReadAll(r, HeaderPart(lines) + content) ==
        if r.maxSize.Some? && n > r.maxSize.value then Transcript([TooLarge(n)], true) else Transcript([], content == "")
  {
    var h := WithLines(NO_HEADER, lines, r.limit);
    ReadHeaderPart(lines, content, r.limit, NO_HEADER);
    CutMessage(r, HeaderPart(lines) + content, h, content);
    assert ReadMessage(r, "") == StreamEnd(true);
  }
}
