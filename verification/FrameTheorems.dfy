/** Frame streams round trip and resynchronise. */
module FrameTheorems {
  import AsciiText
  import opened Decimal
  import opened Frames
  import opened Options

  // ---- Header parts ----

  /** A line that a header part can hold. */
  predicate IsLine(s: string) { s != "" && NoLineEnd(s) }

  function WithLines(h: Header, lines: seq<string>, limit: nat): Header
    decreases |lines|
  {
    if lines == [] then h
    else WithLines(if |lines[0]| <= limit then WithLine(h, Ascii(lines[0])) else h, lines[1..], limit)
  }

  lemma ReadOneLine(line: string, rest: string, limit: nat)
    requires NoLineEnd(line)
    ensures ReadLine(line + "\r\n" + rest, limit) == Line(if |line| <= limit then Some(Ascii(line)) else None, rest)
  {
    var s := line + "\r\n" + rest;
    assert LineEndAt(s, |line|);
    forall i | 0 <= i < |line| ensures !LineEndAt(s, i) {
      if i < |line| - 1 { assert !LineEndAt(line, i); }
    }
    assert FindLineEnd(s) == |line|;
    assert s[..|line|] == line && s[|line| + 2..] == rest;
  }

  /** A header part is read to its end whatever its lines are, and each line within the limit takes effect in order. */
  lemma {:induction false} ReadHeaderPart(lines: seq<string>, rest: string, limit: nat, h: Header)
    requires forall i | 0 <= i < |lines| :: IsLine(lines[i])
    ensures ReadPart(HeaderPart(lines) + rest, limit, h) == Part(WithLines(h, lines, limit), rest)
    decreases |lines|
  {
    if lines == [] {
      assert "" + "\r\n" + rest == HeaderPart(lines) + rest;
      ReadOneLine("", rest, limit);
    } else {
      var tail := HeaderPart(lines[1..]) + rest;
      assert HeaderPart(lines) + rest == lines[0] + "\r\n" + tail;
      ReadOneLine(lines[0], tail, limit);
      ReadHeaderPart(lines[1..], rest, limit, if |lines[0]| <= limit then WithLine(h, Ascii(lines[0])) else h);
    }
  }

  lemma BodyBehindHeader(r: Reading, s: string, h: Header, body: string, rest: string)
    requires ReadPart(s, r.limit, NO_HEADER) == Part(h, body + rest)
    requires h.length.Some? && ValidLength(h.length.value) && ValueOf(h.length.value) == |body|
    ensures ReadMessage(r, s) == Found(EventOf(r, h, body), rest)
  {
    assert (body + rest)[..|body|] == body && (body + rest)[|body|..] == rest;
  }

  /** Any message whose header part gives the length of its body is read as one event, whatever the event is,
      and reading goes on right behind it. */
  lemma ReadAnyMessage(r: Reading, lines: seq<string>, body: string, rest: string)
    requires forall i | 0 <= i < |lines| :: IsLine(lines[i])
    requires var h := WithLines(NO_HEADER, lines, r.limit);
             h.length.Some? && ValidLength(h.length.value) && ValueOf(h.length.value) == |body|
    ensures ReadMessage(r, HeaderPart(lines) + body + rest)
         == Found(EventOf(r, WithLines(NO_HEADER, lines, r.limit), body), rest)
  {
    assert HeaderPart(lines) + body + rest == HeaderPart(lines) + (body + rest);
    ReadHeaderPart(lines, body + rest, r.limit, NO_HEADER);
    BodyBehindHeader(r, HeaderPart(lines) + (body + rest), WithLines(NO_HEADER, lines, r.limit), body, rest);
  }

  // ---- The header of a written frame ----

  predicate Inner(c: char) { !AsciiText.IsSpace(c) && c != '"' }

  /** A charset that a content type can carry unchanged: no semicolon, no line end, and nothing
      at its ends that reading strips. Spaces and `=` within it do no harm. */
  predicate CharsetToken(s: string) {
    && s != "" && Inner(s[0]) && Inner(s[|s| - 1])
    && NoLineEnd(s) && forall i | 0 <= i < |s| :: s[i] != ';' && s[i] < 128 as char
  }

  predicate Without(s: string, c: char) { forall i | 0 <= i < |s| :: s[i] != c }

  lemma NothingToStrip(s: string, drop: char -> bool)
    requires s == "" || (!drop(s[0]) && !drop(s[|s| - 1]))
    ensures StripOf(s, drop) == s
  {
  }

  lemma StripSpace(s: string)
    requires s != "" && !AsciiText.IsSpace(s[0]) && !AsciiText.IsSpace(s[|s| - 1])
    ensures Strip(" " + s) == s
  {
    assert (" " + s)[1..] == s;
    NothingToStrip(s, AsciiText.IsSpace);
  }

  lemma Partitioned(name: string, sep: char, value: string)
    requires Without(name, sep)
    ensures Before(name + [sep] + value, sep) == name
    ensures After(name + [sep] + value, sep) == value
  {
    var s := name + [sep] + value;
    assert s[|name|] == sep;
    assert IndexOf(s, sep) == |name|;
    assert s[..|name|] == name && s[|name| + 1..] == value;
  }

  lemma FieldParts(name: string, value: string)
    requires Without(name, ':') && name != "" && !AsciiText.IsSpace(name[0]) && !AsciiText.IsSpace(name[|name| - 1])
    ensures var line := FieldLine(name, value);
            Lower(Strip(Before(line, ':'))) == Lower(name) && After(line, ':') == " " + value
  {
    assert FieldLine(name, value) == name + [':'] + (" " + value);
    Partitioned(name, ':', " " + value);
    NothingToStrip(name, AsciiText.IsSpace);
  }

  lemma FieldIsLine(name: string, value: string)
    requires NoLineEnd(value) && (forall i | 0 <= i < |name| :: ' ' < name[i] < 128 as char)
    requires forall i | 0 <= i < |value| :: value[i] < 128 as char
    ensures var line := FieldLine(name, value); IsLine(line) && Ascii(line) == line
  {
    var line := FieldLine(name, value);
    forall i | 0 <= i < |line| ensures !LineEndAt(line, i) {
      if i >= |name| + 2 { assert LineEndAt(line, i) <==> LineEndAt(value, i - |name| - 2); }
    }
  }

  lemma Names()
    ensures Lower(CONTENT_LENGTH) == "content-length" && Lower(CONTENT_TYPE) == "content-type"
    ensures Without(CONTENT_LENGTH, ':') && Without(CONTENT_TYPE, ':')
  {
  }

  lemma NumeralFits(n: nat)
    requires n < Pow10(18)
    ensures ValidLength(Numeral(n)) && ValueOf(Numeral(n)) == n
  {
    NumeralLength(n, 18);
    ValueOfNumeral(n);
  }

  lemma LengthField(h: Header, value: string)
    requires value != "" && AllDigits(value)
    ensures var line := FieldLine(CONTENT_LENGTH, value);
      IsLine(line) && Ascii(line) == line && |line| == 16 + |value| && WithLine(h, line) == h.(length := Some(value))
  {
    Names();
    assert forall i | 0 <= i < |value| :: value[i] != '\r';
    FieldIsLine(CONTENT_LENGTH, value);
    FieldParts(CONTENT_LENGTH, value);
    StripSpace(value);
  }

  lemma NumeralLine(h: Header, n: nat)
    requires n < Pow10(18)
    ensures var line := FieldLine(CONTENT_LENGTH, Numeral(n));
            IsLine(line) && Ascii(line) == line && |line| <= 34 && WithLine(h, line) == h.(length := Some(Numeral(n)))
    ensures ValidLength(Numeral(n)) && ValueOf(Numeral(n)) == n
  {
    NumeralFits(n);
    LengthField(h, Numeral(n));
  }

  lemma CharsetLine(h: Header, charset: string)
    requires CharsetToken(charset)
    ensures var line := FieldLine(CONTENT_TYPE, MediaType(charset));
            IsLine(line) && Ascii(line) == line && WithLine(h, line) == h.(charset := Some(charset))
  {
    MediaTypeIsLine(MEDIA_TYPE + "; charset=", charset);
    Names();
    FieldIsLine(CONTENT_TYPE, MediaType(charset));
    FieldParts(CONTENT_TYPE, MediaType(charset));
    CharsetOfMediaType(MEDIA_TYPE, charset);
    MediaTypeParts(MEDIA_TYPE, charset);
  }

  lemma MediaTypeParts(media: string, charset: string)
    ensures " " + (media + "; charset=" + charset) == " " + media + [';'] + (" charset" + ['='] + charset)
  {
  }

  lemma MediaTypeIsLine(prefix: string, charset: string)
    requires CharsetToken(charset)
    requires forall i | 0 <= i < |prefix| :: ' ' <= prefix[i] < 128 as char
    ensures NoLineEnd(prefix + charset) && forall i | 0 <= i < |prefix + charset| :: (prefix + charset)[i] < 128 as char
  {
    var value := prefix + charset;
    forall i | 0 <= i < |value| ensures !LineEndAt(value, i) {
      if i >= |prefix| { assert LineEndAt(value, i) <==> LineEndAt(charset, i - |prefix|); }
    }
  }

  lemma CharsetOfMediaType(media: string, charset: string)
    requires CharsetToken(charset) && Without(media, ';') && Without(media, '=') && |media| > 7
    requires !AsciiText.IsSpace(media[0]) && !AsciiText.IsSpace(media[|media| - 1])
    ensures CharsetOf(" " + media + [';'] + (" charset" + ['='] + charset)) == Some(charset)
  {
    var first, second := " " + media, " charset" + ['='] + charset;
    var value := first + [';'] + second;
    Partitioned(first, ';', second);
    assert IndexOf(value, ';') == |first|;
    assert IndexOf(first, '=') == |first| && Before(first, '=') == first;
    StripSpace(media);
    assert |Lower(Strip(first))| > 7;
    assert CharsetOf(value) == CharsetOf(second);
    CharsetOfParameter(charset);
  }

  lemma CharsetOfParameter(charset: string)
    requires CharsetToken(charset)
    ensures CharsetOf(" charset" + ['='] + charset) == Some(charset)
  {
    var s := " charset" + ['='] + charset;
    assert IndexOf(s, ';') == |s| && s[..|s|] == s;
    Partitioned(" charset", '=', charset);
    assert " charset" == " " + "charset";
    StripSpace("charset");
    assert Lower("charset") == "charset";
    NothingToStrip(charset, AsciiText.IsSpace);
    NothingToStrip(charset, c => c == '"');
  }

  /** What the writer and the reader need: a length of at most 18 digits, a charset that a header can
      carry, and a line limit that its lines keep. */
  predicate Writable(r: Reading, f: Frame) {
    && |f.body| < Pow10(18)
    && 34 <= r.limit
    && (f.charset.Some? ==> CharsetToken(f.charset.value) && |FieldLine(CONTENT_TYPE, MediaType(f.charset.value))| <= r.limit)
  }

  predicate AllWritable(r: Reading, fs: seq<Frame>) {
    forall i | 0 <= i < |fs| :: Writable(r, fs[i])
  }

  lemma WrittenHeader(r: Reading, f: Frame)
    requires Writable(r, f)
    ensures forall i | 0 <= i < |HeaderLines(f)| :: IsLine(HeaderLines(f)[i])
    ensures WithLines(NO_HEADER, HeaderLines(f), r.limit) == Header(Some(Numeral(|f.body|)), f.charset)
    ensures WriteFrame(f) == HeaderPart(HeaderLines(f)) + f.body
  {
    var first := FieldLine(CONTENT_LENGTH, Numeral(|f.body|));
    NumeralLine(NO_HEADER, |f.body|);
    if f.charset.Some? {
      var second := FieldLine(CONTENT_TYPE, MediaType(f.charset.value));
      CharsetLine(WithLine(NO_HEADER, first), f.charset.value);
      TwoLines(NO_HEADER, first, second, r.limit);
    } else {
      OneLine(NO_HEADER, first, r.limit);
      assert HeaderLines(f) == [first];
    }
    WrittenParts(f);
  }

  lemma WrittenParts(f: Frame)
    ensures WriteFrame(f) == HeaderPart(HeaderLines(f)) + f.body
  {
    var first := FieldLine(CONTENT_LENGTH, Numeral(|f.body|));
    if f.charset.Some? {
      TwoLines(NO_HEADER, first, FieldLine(CONTENT_TYPE, MediaType(f.charset.value)), 0);
    } else {
      OneLine(NO_HEADER, first, 0);
      assert HeaderLines(f) == [first];
    }
  }

  lemma OneLine(h: Header, a: string, limit: nat)
    ensures HeaderPart([a]) == a + "\r\n" + "\r\n"
    ensures |a| <= limit ==> WithLines(h, [a], limit) == WithLine(h, Ascii(a))
  {
    assert [a][1..] == [];
  }

  lemma TwoLines(h: Header, a: string, b: string, limit: nat)
    ensures HeaderPart([a] + [b]) == a + "\r\n" + (b + "\r\n" + "\r\n")
    ensures |a| <= limit && |b| <= limit ==>
      WithLines(h, [a] + [b], limit) == WithLine(WithLine(h, Ascii(a)), Ascii(b))
  {
    assert ([a] + [b])[1..] == [b] && [b][1..] == [];
    OneLine(WithLine(h, Ascii(a)), b, limit);
  }

  // ---- Streams of frames ----

  function EventOfFrame(r: Reading, f: Frame): Event {
    EventOf(r, Header(None, f.charset), f.body)
  }

  function EventsOf(r: Reading, fs: seq<Frame>): seq<Event> {
    if fs == [] then [] else [EventOfFrame(r, fs[0])] + EventsOf(r, fs[1..])
  }

  /** A written frame takes exactly its own bytes, whether it is handed on, over the size limit or
      undecodable, and whatever follows is read as if it had not been there. */
  lemma ReadFrame(r: Reading, f: Frame, rest: string)
    requires Writable(r, f)
    ensures ReadMessage(r, WriteFrame(f) + rest) == Found(EventOfFrame(r, f), rest)
    ensures var t := ReadAll(r, rest);
            ReadAll(r, WriteFrame(f) + rest) == Transcript([EventOfFrame(r, f)] + t.events, t.clean)
  {
    WrittenHeader(r, f);
    NumeralLine(NO_HEADER, |f.body|);
    ReadAnyMessage(r, HeaderLines(f), f.body, rest);
  }

  function Prepend(e: Event, t: Transcript): Transcript {
    Transcript([e] + t.events, t.clean)
  }

  function Concat(chunks: seq<string>): string {
    if chunks == [] then "" else chunks[0] + Concat(chunks[1..])
  }

  /** If each chunk is read as one event whatever follows it, then so is each chunk of a stream. */
  lemma {:induction false} ReadChunks(read: string -> Transcript, chunks: seq<string>, events: seq<Event>, rest: string)
    requires |chunks| == |events|
    requires forall i, s | 0 <= i < |chunks| :: read(chunks[i] + s) == Prepend(events[i], read(s))
    ensures read(Concat(chunks) + rest) == Transcript(events + read(rest).events, read(rest).clean)
  {
    if chunks == [] {
      assert Concat(chunks) + rest == rest;
    } else {
      var tail := Concat(chunks[1..]) + rest;
      assert Concat(chunks) + rest == chunks[0] + tail;
      ReadChunks(read, chunks[1..], events[1..], rest);
      assert read(chunks[0] + tail) == Prepend(events[0], read(tail));
      assert [events[0]] + (events[1..] + read(rest).events) == events + read(rest).events;
    }
  }

  lemma {:induction false} WriteFramesIsConcat(fs: seq<Frame>)
    ensures WriteFrames(fs) == Concat(seq(|fs|, i requires 0 <= i < |fs| => WriteFrame(fs[i])))
  {
    if fs != [] {
      WriteFramesIsConcat(fs[1..]);
      assert seq(|fs|, i requires 0 <= i < |fs| => WriteFrame(fs[i]))[1..]
          == seq(|fs[1..]|, i requires 0 <= i < |fs[1..]| => WriteFrame(fs[1..][i]));
    }
  }

  /** Reading the frames that were written gives their events in order; then comes whatever follows. */
  lemma ReadFrames(r: Reading, fs: seq<Frame>, rest: string)
    requires AllWritable(r, fs)
    ensures var t := ReadAll(r, rest);
            ReadAll(r, WriteFrames(fs) + rest) == Transcript(EventsOf(r, fs) + t.events, t.clean)
  {
    var read := s => ReadAll(r, s);
    var chunks := seq(|fs|, i requires 0 <= i < |fs| => WriteFrame(fs[i]));
    var events := EventsOf(r, fs);
    EventsAt(r, fs);
    forall i, s | 0 <= i < |chunks| ensures read(chunks[i] + s) == Prepend(events[i], read(s)) {
      ReadFrame(r, fs[i], s);
    }
    ReadChunks(read, chunks, events, rest);
    WriteFramesIsConcat(fs);
  }

  /** Frames that the reader accepts come back with their bodies and charsets, in order, and the stream ends cleanly. */
  lemma FramesRoundTrip(r: Reading, fs: seq<Frame>)
    requires AllWritable(r, fs)
    requires r.maxSize.Some? ==> forall i | 0 <= i < |fs| :: |fs[i].body| <= r.maxSize.value
    requires forall i | 0 <= i < |fs| :: r.decodes(CharsetName(fs[i]), fs[i].body)
    ensures ReadAll(r, WriteFrames(fs)) == Transcript(seq(|fs|, i requires 0 <= i < |fs| => Message(CharsetName(fs[i]), fs[i].body)), true)
  {
    ReadWhole(r, fs);
    EventsAt(r, fs);
    assert EventsOf(r, fs) == seq(|fs|, i requires 0 <= i < |fs| => Message(CharsetName(fs[i]), fs[i].body));
  }

  function CharsetName(f: Frame): string {
    if f.charset.Some? then f.charset.value else "utf-8"
  }

  lemma {:induction false} EventsAt(r: Reading, fs: seq<Frame>)
    ensures |EventsOf(r, fs)| == |fs|
    ensures forall i | 0 <= i < |fs| :: EventsOf(r, fs)[i] == EventOfFrame(r, fs[i])
  {
    if fs != [] { EventsAt(r, fs[1..]); }
  }

  // ---- What header fields say ----

  /** A field is known by its name in any case and with any space around it; of several fields with one name the last one
      counts, and one with another name changes nothing. */
  lemma FieldCounts(h: Header, name: string, value: string)
    requires Without(name, ':')
    ensures var (known, line) := (Lower(Strip(name)), name + ":" + value);
      && (known == "content-length" ==> WithLine(h, line) == h.(length := Some(Strip(value))))
      && (known == "content-type" ==> WithLine(h, line) == h.(charset := CharsetOf(value)))
      && (known != "content-length" && known != "content-type" ==> WithLine(h, line) == h)
  {
    Partitioned(name, ':', value);
    assert "content-length" != "content-type" by { assert "content-length"[8] != "content-type"[8]; }
  }

  /** Of the parameters of a content type the first one named `charset` decides, in any case and with or without quotes, and
      an empty one counts as none; other parameters are passed over. */
  lemma ParameterCounts(part: string, rest: string)
    requires Without(part, ';')
    ensures var (isCharset, value) := (Lower(Strip(Before(part, '='))) == "charset", StripQuotes(Strip(After(part, '='))));
      && (isCharset && value != "" ==> CharsetOf(part) == Some(value) && CharsetOf(part + ";" + rest) == Some(value))
      && (isCharset && value == "" ==> CharsetOf(part) == None && CharsetOf(part + ";" + rest) == None)
      && (!isCharset ==> CharsetOf(part) == None && CharsetOf(part + ";" + rest) == CharsetOf(rest))
  {
    Partitioned(part, ';', rest);
    NoSeparator(part, ';');
  }

  lemma NoSeparator(s: string, sep: char)
    requires Without(s, sep)
    ensures IndexOf(s, sep) == |s| && s[..|s|] == s
  {
  }

  /** The numeral of a number is a length exactly if the number is below 10 to the 18. */
  lemma LengthExactlyIf(n: nat)
    ensures ValidLength(Numeral(n)) <==> n < Pow10(18)
  {
    NumeralLength(n, 18);
  }

  // ---- Header parts without a usable length ----

  /** A header part without a length, or with one that is none, is dropped alone, whatever its lines are: reading goes on
      right behind it, and nothing is answered. */
  lemma BadHeaderIsDropped(r: Reading, lines: seq<string>, rest: string)
    requires forall i | 0 <= i < |lines| :: IsLine(lines[i])
    requires var length := WithLines(NO_HEADER, lines, r.limit).length; length.Some? ==> !ValidLength(length.value)
    ensures var event := if WithLines(NO_HEADER, lines, r.limit).length.Some? then InvalidLength else NoLength;
      && ReadAll(r, HeaderPart(lines) + rest) == Prepend(event, ReadAll(r, rest))
      && AnswerTo(event).None?
  {
    ReadHeaderPart(lines, rest, r.limit, NO_HEADER);
  }

  // ---- Answers ----

  /** The error code of the answer without an id, if an event gets one. */
  function AnswerTo(e: Event): Option<int> {
    match e
    case TooLarge(_) => Some(-32600)
    case Undecodable => Some(-32700)
    case _ => None
  }

  /** The codes of the answers that reading starts to send by itself, in order. */
  function Answers(events: seq<Event>): seq<int> {
    if events == [] then []
    else
      var first := AnswerTo(events[0]);
      (if first.Some? then [first.value] else []) + Answers(events[1..])
  }

  /** What is wrong with a frame as it was written: its body is over the size limit, or its charset does not decode it. */
  function Fault(r: Reading, f: Frame): seq<int> {
    if r.maxSize.Some? && |f.body| > r.maxSize.value then [-32600]
    else if !r.decodes(CharsetName(f), f.body) then [-32700]
    else []
  }

  function Faults(r: Reading, fs: seq<Frame>): seq<int> {
    if fs == [] then [] else Fault(r, fs[0]) + Faults(r, fs[1..])
  }

  /** Over a whole stream there is one answer for each bad frame, in the order of the frames, and none for the others. */
  lemma AnswersOfStream(r: Reading, fs: seq<Frame>, rest: string)
    requires AllWritable(r, fs)
    ensures Answers(ReadAll(r, WriteFrames(fs) + rest).events) == Faults(r, fs) + Answers(ReadAll(r, rest).events)
  {
    ReadFrames(r, fs, rest);
    AnswersConcat(EventsOf(r, fs), ReadAll(r, rest).events);
    AnswersOfFrames(r, fs);
  }

  lemma {:induction false} AnswersConcat(a: seq<Event>, b: seq<Event>)
    ensures Answers(a + b) == Answers(a) + Answers(b)
  {
    if a == [] {
      assert a + b == b;
    } else {
      assert (a + b)[0] == a[0] && (a + b)[1..] == a[1..] + b;
      AnswersConcat(a[1..], b);
    }
  }

  lemma {:induction false} AnswersOfFrames(r: Reading, fs: seq<Frame>)
    ensures Answers(EventsOf(r, fs)) == Faults(r, fs)
  {
    if fs != [] {
      var first := EventOfFrame(r, fs[0]);
      AnswersConcat([first], EventsOf(r, fs[1..]));
      FaultIsAnswered(r, fs[0]);
      AnswersOfFrames(r, fs[1..]);
    }
  }

  lemma FaultIsAnswered(r: Reading, f: Frame)
    ensures Answers([EventOfFrame(r, f)]) == Fault(r, f)
  {
    assert Answers([EventOfFrame(r, f)][1..]) == [];
  }

  /** A frame that cannot be read costs exactly one answer and none of the frames around it. */
  lemma Resynchronises(r: Reading, before: seq<Frame>, bad: Frame, after: seq<Frame>)
    requires AllWritable(r, before) && Writable(r, bad) && AllWritable(r, after)
    requires (r.maxSize.Some? && |bad.body| > r.maxSize.value) || !r.decodes(CharsetName(bad), bad.body)
    ensures AnswerTo(EventOfFrame(r, bad)).Some?
    ensures EventOfFrame(r, bad) ==
      if r.maxSize.Some? && |bad.body| > r.maxSize.value then TooLarge(|bad.body|) else Undecodable
    ensures ReadAll(r, WriteFrames(before + [bad] + after))
         == Transcript(EventsOf(r, before) + [EventOfFrame(r, bad)] + EventsOf(r, after), true)
    ensures ReadAll(r, WriteFrames(before + after)) == Transcript(EventsOf(r, before) + EventsOf(r, after), true)
  {
    EventsOfOne(r, bad);
    ReadWithin(r, before, [bad], after);
    ReadBoth(r, before, after);
  }

  lemma EventsOfOne(r: Reading, f: Frame)
    ensures EventsOf(r, [f]) == [EventOfFrame(r, f)]
  {
    assert [f][1..] == [];
  }

  lemma ReadBoth(r: Reading, a: seq<Frame>, b: seq<Frame>)
    requires AllWritable(r, a) && AllWritable(r, b)
    ensures ReadAll(r, WriteFrames(a + b)) == Transcript(EventsOf(r, a) + EventsOf(r, b), true)
  {
    EventsConcat(r, a, b);
    ReadWhole(r, a + b);
  }

  lemma ReadWithin(r: Reading, a: seq<Frame>, b: seq<Frame>, c: seq<Frame>)
    requires AllWritable(r, a) && AllWritable(r, b) && AllWritable(r, c)
    ensures ReadAll(r, WriteFrames(a + b + c)) == Transcript(EventsOf(r, a) + EventsOf(r, b) + EventsOf(r, c), true)
  {
    EventsWithin(r, a, b, c);
    ReadWhole(r, a + b + c);
  }

  lemma EventsWithin(r: Reading, a: seq<Frame>, b: seq<Frame>, c: seq<Frame>)
    ensures EventsOf(r, a + b + c) == EventsOf(r, a) + EventsOf(r, b) + EventsOf(r, c)
  {
    EventsConcat(r, a + b, c);
    EventsConcat(r, a, b);
  }

  lemma ReadWhole(r: Reading, fs: seq<Frame>)
    requires AllWritable(r, fs)
    ensures ReadAll(r, WriteFrames(fs)) == Transcript(EventsOf(r, fs), true)
  {
    ReadFrames(r, fs, "");
    assert WriteFrames(fs) + "" == WriteFrames(fs);
    assert ReadAll(r, "") == Transcript([], true);
  }

  lemma EventsConcat(r: Reading, a: seq<Frame>, b: seq<Frame>)
    ensures EventsOf(r, a + b) == EventsOf(r, a) + EventsOf(r, b)
  {
    EventsAt(r, a);
    EventsAt(r, b);
    EventsAt(r, a + b);
  }
}
