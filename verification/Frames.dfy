/** The header-part framing of `JsonRpcPeer`: writing frames, and reading a byte stream back.
    A byte is a character, as in Latin-1; the header is ASCII. The text codecs are a parameter. */
module Frames {
  import AsciiText
  import Decimal
  import opened Options

  // ---- Text ----

  predicate LineEndAt(s: string, i: int) {
    0 <= i < |s| - 1 && s[i] == '\r' && s[i + 1] == '\n'
  }

  predicate NoLineEnd(s: string) { forall i | 0 <= i < |s| :: !LineEndAt(s, i) }

  /** The position of the first line end; -1 if there is none. */
  function FindLineEnd(s: string): (p: int)
    ensures p == -1 || LineEndAt(s, p)
    ensures forall i | 0 <= i < |s| && (p < 0 || i < p) :: !LineEndAt(s, i)
  {
    if |s| < 2 then -1
    else if LineEndAt(s, 0) then 0
    else
      var p := FindLineEnd(s[1..]);
      assert forall i | 1 <= i < |s| :: LineEndAt(s, i) <==> LineEndAt(s[1..], i - 1);
      if p < 0 then -1 else p + 1
  }

  /** `decode("ascii", "replace")`. */
  function Ascii(s: string): (t: string)
    ensures |t| == |s|
    ensures (forall i | 0 <= i < |s| :: s[i] < 128 as char) ==> t == s
  {
    seq(|s|, i requires 0 <= i < |s| => if s[i] < 128 as char then s[i] else 0xFFFD as char)
  }

  function StripLeft(s: string, drop: char -> bool): string {
    if s != "" && drop(s[0]) then StripLeft(s[1..], drop) else s
  }

  function StripRight(s: string, drop: char -> bool): string {
    if s != "" && drop(s[|s| - 1]) then StripRight(s[..|s| - 1], drop) else s
  }

  function StripOf(s: string, drop: char -> bool): string {
    StripRight(StripLeft(s, drop), drop)
  }

  function Strip(s: string): string { StripOf(s, AsciiText.IsSpace) }

  function StripQuotes(s: string): string { StripOf(s, c => c == '"') }

  function Lower(s: string): string {
    seq(|s|, i requires 0 <= i < |s| => AsciiText.LowerOf(s[i]))
  }

  function IndexOf(s: string, c: char): (p: nat)
    ensures p <= |s| && (p < |s| ==> s[p] == c) && forall i | 0 <= i < p :: s[i] != c
  {
    if s == "" || s[0] == c then 0 else 1 + IndexOf(s[1..], c)
  }

  /** `s.partition(sep)` without the separator. */
  function Before(s: string, sep: char): string { s[..IndexOf(s, sep)] }

  function After(s: string, sep: char): string {
    var p := IndexOf(s, sep);
    if p == |s| then "" else s[p + 1..]
  }

  // ---- Header fields ----

  datatype Header = Header(length: Option<string>, charset: Option<string>)

  const NO_HEADER := Header(None, None)

  /** The charset of a content type; the first `charset` parameter decides, and an empty one counts as none. */
  function CharsetOf(contentType: string): Option<string>
    decreases |contentType|
  {
    var p := IndexOf(contentType, ';');
    var part := contentType[..p];
    if Lower(Strip(Before(part, '='))) == "charset" then
      var value := StripQuotes(Strip(After(part, '=')));
      if value == "" then None else Some(value)
    else if p == |contentType| then None
    else CharsetOf(contentType[p + 1..])
  }

  function WithLine(h: Header, line: string): Header {
    var name := Lower(Strip(Before(line, ':')));
    if name == "content-length" then h.(length := Some(Strip(After(line, ':'))))
    else if name == "content-type" then h.(charset := CharsetOf(After(line, ':')))
    else h
  }

  predicate ValidLength(s: string) { 1 <= |s| <= 18 && Decimal.AllDigits(s) }

  // ---- Writing ----

  const CONTENT_LENGTH := "Content-Length"
  const CONTENT_TYPE := "Content-Type"
  const MEDIA_TYPE := "application/vscode-jsonrpc"

  function FieldLine(name: string, value: string): string { name + ": " + value }

  function MediaType(charset: string): string { MEDIA_TYPE + "; charset=" + charset }

  /** A frame to write: its body, and the charset that the peer names unless it sends UTF-8. */
  datatype Frame = Frame(body: string, charset: Option<string>)

  function HeaderLines(f: Frame): seq<string> {
    [FieldLine(CONTENT_LENGTH, Decimal.Numeral(|f.body|))] +
    if f.charset.Some? then [FieldLine(CONTENT_TYPE, MediaType(f.charset.value))] else []
  }

  function HeaderPart(lines: seq<string>): string {
    if lines == [] then "\r\n" else lines[0] + "\r\n" + HeaderPart(lines[1..])
  }

  function WriteFrame(f: Frame): string {
    FieldLine(CONTENT_LENGTH, Decimal.Numeral(|f.body|)) + "\r\n" +
    (if f.charset.Some? then FieldLine(CONTENT_TYPE, MediaType(f.charset.value)) + "\r\n" else "") +
    "\r\n" + f.body
  }

  function WriteFrames(fs: seq<Frame>): string {
    if fs == [] then "" else WriteFrame(fs[0]) + WriteFrames(fs[1..])
  }

  // ---- Reading ----

  /** `limit` is the line limit of the stream reader, `decodes` says which bodies a codec can read. */
  datatype Reading = Reading(limit: nat, maxSize: Option<nat>, decodes: (string, string) -> bool)

  /** What one turn of the read loop finds. Only the last two are answered, with an error without an id. */
  datatype Event =
    | Message(charset: string, body: string)
    | NoLength
    | InvalidLength
    | TooLarge(length: nat)
    | Undecodable

  datatype LineRead = Line(text: Option<string>, rest: string) | NoLine

  datatype PartRead = Part(header: Header, rest: string) | PartEnd(clean: bool)

  datatype MessageRead = Found(event: Event, rest: string) | StreamEnd(clean: bool)

  datatype Transcript = Transcript(events: seq<Event>, clean: bool)

  /** A line longer than the limit has no text. */
  function ReadLine(s: string, limit: nat): LineRead {
    var p := FindLineEnd(s);
    if p < 0 then NoLine
    else Line(if p <= limit then Some(Ascii(s[..p])) else None, s[p + 2..])
  }

  function ReadPart(s: string, limit: nat, h: Header): PartRead
    decreases |s|
  {
    match ReadLine(s, limit)
    case NoLine => PartEnd(s == "")
    case Line(None, rest) => ReadPart(rest, limit, h)
    case Line(Some(line), rest) => if line == "" then Part(h, rest) else ReadPart(rest, limit, WithLine(h, line))
  }

  /** The event for a header part and a body of the length it gives. */
  function EventOf(r: Reading, h: Header, body: string): Event {
    var charset := if h.charset.Some? then h.charset.value else "utf-8";
    if r.maxSize.Some? && |body| > r.maxSize.value then TooLarge(|body|)
    else if r.decodes(charset, body) then Message(charset, body)
    else Undecodable
  }

  function ReadMessage(r: Reading, s: string): MessageRead {
    match ReadPart(s, r.limit, NO_HEADER)
    case PartEnd(clean) => StreamEnd(clean)
    case Part(h, rest) =>
      if h.length.None? then Found(NoLength, rest)
      else if !ValidLength(h.length.value) then Found(InvalidLength, rest)
      else
        var n := Decimal.ValueOf(h.length.value);
        if n <= |rest| then Found(EventOf(r, h, rest[..n]), rest[n..])
        // The stream ends within the content. What is over the size limit is skipped without waiting for all of it.
        else if r.maxSize.Some? && n > r.maxSize.value then Found(TooLarge(n), "")
        else StreamEnd(rest == "")
  }

  lemma {:induction false} ReadPartShrinks(s: string, limit: nat, h: Header)
    ensures var p := ReadPart(s, limit, h); p.Part? ==> |p.rest| < |s|
    decreases |s|
  {
    match ReadLine(s, limit)
    case NoLine =>
    case Line(None, rest) => ReadPartShrinks(rest, limit, h);
    case Line(Some(line), rest) => ReadPartShrinks(rest, limit, WithLine(h, line));
  }

  /** Everything that a stream holds. */
  function ReadAll(r: Reading, s: string): Transcript
    decreases |s|
  {
    match ReadMessage(r, s)
    case StreamEnd(clean) => Transcript([], clean)
    case Found(event, rest) =>
      ReadPartShrinks(s, r.limit, NO_HEADER);
      var t := ReadAll(r, rest);
      Transcript([event] + t.events, t.clean)
  }
}
