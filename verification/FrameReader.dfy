/** The read loop of `JsonRpcPeer` over an asyncio stream reader. However the bytes arrive in pieces, each
    method does what the function on the whole stream says. */
module FrameReader {
  import Decimal
  import opened Frames
  import opened Options

  datatype Until =
    | Upto(bytes: string)
    | LimitOverrun(consumed: nat)
    | Incomplete(partial: string)

  datatype Exactly = Bytes(bytes: string) | Short(partial: string)

  /** Any number within the bounds: how many bytes have arrived is up to the connection. */
  method Between(low: nat, high: nat) returns (n: nat)
    requires low <= high
    ensures low <= n <= high
  {
    var k: int := *;
    n := if low <= k <= high then k else high;
  }

  /** `asyncio.StreamReader`: `rest` is everything still to come, of which any part may have arrived. */
  class StreamReader {
    var rest: string
    const limit: nat

    constructor (stream: string, limit: nat)
      ensures rest == stream && this.limit == limit
    {
      this.rest := stream;
      this.limit := limit;
    }

    /** `readuntil(b"\r\n")`: an overrun leaves the bytes in the buffer and may be reported before the line
        end has arrived; at the end of the stream, what is left is lost. */
    method ReadUntil() returns (u: Until)
      modifies this
      ensures var p := FindLineEnd(old(rest));
        match u
        case Upto(bytes) => 0 <= p <= limit && bytes == old(rest)[..p + 2] && rest == old(rest)[p + 2..]
        case LimitOverrun(n) => rest == old(rest) && limit < n < |rest| && (p < 0 || n <= p)
        case Incomplete(partial) => p < 0 && partial == old(rest) && rest == ""
    {
      var p := FindLineEnd(rest);
      var arrived := Between(0, |rest|);
      while true
        invariant rest == old(rest) && arrived <= |rest|
        decreases |rest| - arrived
      {
        if p >= 0 && p + 2 <= arrived {
          if p > limit {
            return LimitOverrun(p);
          }
          u := Upto(rest[..p + 2]);
          rest := rest[p + 2..];
          return;
        }
        if arrived >= 2 && arrived - 1 > limit {
          return LimitOverrun(arrived - 1);
        }
        if arrived == |rest| {
          u := Incomplete(rest);
          rest := "";
          return;
        }
        arrived := Between(arrived + 1, |rest|);
      }
    }

    /** `readexactly(n)`. */
    method ReadExactly(n: nat) returns (e: Exactly)
      modifies this
      ensures if n <= |old(rest)| then e == Bytes(old(rest)[..n]) && rest == old(rest)[n..]
              else e == Short(old(rest)) && rest == ""
    {
      if n <= |rest| {
        e := Bytes(rest[..n]);
        rest := rest[n..];
      } else {
        e := Short(rest);
        rest := "";
      }
    }

    /** `read(n)`: at least one byte of what has arrived, nothing only at the end of the stream. */
    method Read(n: nat) returns (chunk: string)
      requires n > 0
      modifies this
      ensures |chunk| <= n && (chunk == "" ==> old(rest) == "")
      ensures old(rest) == chunk + rest
    {
      var most := if n < |rest| then n else |rest|;
      var k := Between(if rest == "" then 0 else 1, most);
      chunk := rest[..k];
      rest := rest[k..];
    }
  }

  datatype HeaderLine = Text(line: Option<string>) | AtEnd(partial: string)

  /** `_read_header_line` */
  method ReadHeaderLine(reader: StreamReader) returns (h: HeaderLine)
    modifies reader
    ensures match ReadLine(old(reader.rest), reader.limit)
      case Line(text, rest) => h == Text(text) && reader.rest == rest
      case NoLine => h.AtEnd? && (h.partial == "" <==> old(reader.rest) == "") && reader.rest == ""
  {
    var tooLong := false;
    while true
      invariant FindLineEnd(old(reader.rest)) >= 0 ==>
        LineEndsWith(old(reader.rest), reader.rest) && (tooLong || reader.rest == old(reader.rest))
      invariant FindLineEnd(old(reader.rest)) < 0 ==> FindLineEnd(reader.rest) < 0
      invariant tooLong ==> FindLineEnd(old(reader.rest)) < 0 || FindLineEnd(old(reader.rest)) > reader.limit
      invariant reader.rest == "" <==> old(reader.rest) == ""
      invariant !tooLong ==> reader.rest == old(reader.rest)
      decreases |reader.rest|
    {
      ghost var before := reader.rest;
      var u := reader.ReadUntil();
      match u {
        case LimitOverrun(n) =>
          SameLineEnd(before, n);
          var dropped := reader.ReadExactly(n);
          tooLong := true;
        case Upto(bytes) =>
          assert bytes[..|bytes| - 2] == before[..FindLineEnd(before)];
          return Text(if tooLong then None else Some(Ascii(bytes[..|bytes| - 2])));
        case Incomplete(partial) =>
          return AtEnd(partial);
      }
    }
  }

  /** `t` is a tail of `s` with the same first line end. */
  ghost predicate LineEndsWith(s: string, t: string) {
    && FindLineEnd(s) >= 0 && FindLineEnd(t) >= 0
    && s[FindLineEnd(s) + 2..] == t[FindLineEnd(t) + 2..]
  }

  /** Dropping bytes before the first line end, or all but the last byte without one, keeps it. */
  lemma SameLineEnd(s: string, n: nat)
    requires n < |s| && (FindLineEnd(s) < 0 || n <= FindLineEnd(s))
    ensures FindLineEnd(s[n..]) == if FindLineEnd(s) < 0 then -1 else FindLineEnd(s) - n
    ensures FindLineEnd(s) >= 0 ==> s[n..][FindLineEnd(s) - n + 2..] == s[FindLineEnd(s) + 2..]
  {
    var p, q := FindLineEnd(s), FindLineEnd(s[n..]);
    if q >= 0 { assert LineEndAt(s, q + n); }
    if p >= 0 { assert LineEndAt(s[n..], p - n); }
  }

  datatype HeaderPartRead = Fields(header: Header) | PartAtEnd(partial: string)

  /** `_read_header_part` */
  method ReadHeaderPart(reader: StreamReader) returns (r: HeaderPartRead)
    modifies reader
    ensures match ReadPart(old(reader.rest), reader.limit, NO_HEADER)
      case Part(h, rest) => r == Fields(h) && reader.rest == rest
      case PartEnd(clean) => r.PartAtEnd? && (r.partial == "" <==> clean) && reader.rest == ""
  {
    var length: Option<string> := None;
    var charset: Option<string> := None;
    while true
      invariant ReadPart(old(reader.rest), reader.limit, NO_HEADER) == ReadPart(reader.rest, reader.limit, Header(length, charset))
      decreases |reader.rest|
    {
      var l := ReadHeaderLine(reader);
      if l.AtEnd? {
        return PartAtEnd(l.partial);
      }
      if l.line.None? {
        continue;
      }
      var line := l.line.value;
      if line == "" {
        return Fields(Header(length, charset));
      }
      var name, value := Lower(Strip(Before(line, ':'))), After(line, ':');
      if name == "content-length" {
        length := Some(Strip(value));
      } else if name == "content-type" {
        charset := CharsetOf(value);
      }
    }
  }

  /** `_skip_content` */
  method SkipContent(reader: StreamReader, length: nat)
    modifies reader
    ensures reader.rest == if length <= |old(reader.rest)| then old(reader.rest)[length..] else ""
  {
    var left := length;
    while left > 0
      invariant 0 <= left <= length
      invariant length - left <= |old(reader.rest)|
      invariant reader.rest == old(reader.rest)[length - left..]
    {
      ghost var before := reader.rest;
      var chunk := reader.Read(if left < 65536 then left else 65536);
      assert reader.rest == before[|chunk|..];
      if chunk == "" {
        return;
      }
      left := left - |chunk|;
    }
  }

  datatype Turn = Event(event: Event) | Ended(partial: string)

  /** `_read_message` */
  method ReadOneMessage(reader: StreamReader, r: Reading) returns (t: Turn)
    requires reader.limit == r.limit
    modifies reader
    ensures match ReadMessage(r, old(reader.rest))
      case Found(event, rest) => t == Event(event) && reader.rest == rest
      case StreamEnd(clean) => t.Ended? && (t.partial == "" <==> clean)
  {
    var part := ReadHeaderPart(reader);
    if part.PartAtEnd? {
      return Ended(part.partial);
    }
    var h := part.header;
    if h.length.None? {
      return Event(NoLength);
    }
    if !ValidLength(h.length.value) {
      return Event(InvalidLength);
    }
    var length := Decimal.ValueOf(h.length.value);
    if r.maxSize.Some? && length > r.maxSize.value {
      SkipContent(reader, length);
      return Event(TooLarge(length));
    }
    var body := reader.ReadExactly(length);
    if body.Short? {
      return Ended(body.partial);
    }
    var encoding := if h.charset.Some? then h.charset.value else "utf-8";
    if !r.decodes(encoding, body.bytes) {
      return Event(Undecodable);
    }
    return Event(Message(encoding, body.bytes));
  }

  /** The loop of `io_loop` until the stream ends, with an error unless the read that met the end had read nothing. */
  method ReadLoop(reader: StreamReader, r: Reading) returns (events: seq<Event>, clean: bool)
    requires reader.limit == r.limit
    modifies reader
    ensures ReadAll(r, old(reader.rest)) == Transcript(events, clean)
  {
    events := [];
    while true
      invariant ReadAll(r, old(reader.rest)).events == events + ReadAll(r, reader.rest).events
      invariant ReadAll(r, old(reader.rest)).clean == ReadAll(r, reader.rest).clean
      decreases |reader.rest|
    {
      ReadPartShrinks(reader.rest, r.limit, NO_HEADER);
      var turn := ReadOneMessage(reader, r);
      if turn.Ended? {
        return events, turn.partial == "";
      }
      events := events + [turn.event];
    }
  }
}
