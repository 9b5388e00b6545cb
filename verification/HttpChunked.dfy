/** The chunked coding, section 4.1 of RFC 7230: decoding any encoding of a list of chunks delivers
    exactly the chunks, and completes the message once, after the trailers. */
module HttpChunked {
  import opened HttpTypes
  import opened Decimals
  import opened HttpSwitch
  import opened HttpRun
  import opened HttpInvariant
  import opened HttpMarks
  import opened HttpScan
  import opened HttpReads
  import opened HttpNames
  import opened HttpTargets
  import opened HttpLines
  import opened HttpHeaders
  import opened HttpRequests

  /** A chunk as sent: its size in hexadecimal, an extension, and its bytes. */
  datatype Chunk = Chunk(size: string, extension: string, bytes: string)

  /** The chunks before the last one, and the parts of the last one. */
  datatype Chunked = Chunked(chunks: seq<Chunk>, last: Chunk, trailers: seq<Header>)

  // ---------------------------------------------------------------- sizes

  predicate HexDigits(s: string) { s != "" && forall c | c in s :: IsHex(c) }

  function HexDigit(c: char): nat { if IsHex(c) then Unhex(c) else 0 }

  function Hexadecimal(s: string): nat {
    if s == "" then 0 else Hexadecimal(s[..|s| - 1]) * 16 + HexDigit(s[|s| - 1])
  }

  /** The last value that a further digit may follow. */
  const LAST_HEX := (0xFFFF_FFFF_FFFF_FFFF - 16) / 16

  lemma HexSnoc(a: string, c: char)
    ensures Hexadecimal(a + [c]) == Hexadecimal(a) * 16 + HexDigit(c)
    ensures Hexadecimal("") == 0
  {
    assert (a + [c])[..|a|] == a;
  }

  lemma HexInit(s: string)
    requires HexDigits(s)
    ensures var k := |s| - 1;
            && s == s[..k] + [s[k]] && IsHex(s[k])
            && (if k == 0 then s == [s[k]] && Hexadecimal(s) == HexDigit(s[k])
                else HexDigits(s[..k]) && Hexadecimal(s) == Hexadecimal(s[..k]) * 16 + HexDigit(s[k]))
  {
    hide IsHex, HexDigit, Hexadecimal;
    var k := |s| - 1;
    assert s == s[..k] + [s[k]];
    HexSnoc(s[..k], s[k]);
    assert s[k] in s;
    assert forall c | c in s[..k] :: c in s;
  }

  /** The parser after the digits `s` of a chunk size. */
  function SizeRead(p: Parser, s: string): Parser {
    p.(state := ChunkSize, contentLength := Hexadecimal(s), nread := p.nread + |s|)
  }

  lemma SizeStart(p: Parser, ch: char)
    requires p.state.ChunkSizeStart? && IsHex(ch)
    ensures ParsingHeader(p.state)
    ensures Switch(Counted(p), ch) == Out(p.(state := ChunkSize, contentLength := HexDigit(ch), nread := p.nread + 1), [], Next)
  {}

  /** A further digit is accepted exactly when the size read so far is at most LAST_HEX, and then it
      is accounted for exactly: there is no wrap-around. */
  lemma SizeByte(p: Parser, ch: char)
    requires p.state.ChunkSize? && IsHex(ch)
    ensures ParsingHeader(p.state)
    ensures Switch(Counted(p), ch) ==
            if p.contentLength <= LAST_HEX
            then Out(p.(contentLength := p.contentLength * 16 + HexDigit(ch), nread := p.nread + 1), [], Next)
            else Err(p.(nread := p.nread + 1), INVALID_CONTENT_LENGTH)
  {}

  lemma HexBound(c: char)
    ensures HexDigit(c) <= 15
  {}

  lemma {:induction false} ReadsSize(m: Machine, s: string)
    requires m.p.state.ChunkSizeStart? && m.mark.Unmarked? && HexDigits(s) && Affords(m.p, |s|)
    requires Hexadecimal(s) / 16 <= LAST_HEX
    ensures Reads(m, s, m.(p := SizeRead(m.p, s)))
    decreases |s|
  {
    hide Switch, Reads, HexDigits, HexDigit, Hexadecimal, ParsingHeader, IsHex;
    HexInit(s);
    var k := |s| - 1;
    var init, last := s[..k], s[k];
    if k == 0 {
      SizeStart(m.p, last);
      PlainByte(m, last, SizeRead(m.p, s));
    } else {
      HexBound(last);
      assert Hexadecimal(init) <= LAST_HEX && Hexadecimal(init) / 16 <= LAST_HEX;
      ReadsSize(m, init);
      var m1 := m.(p := SizeRead(m.p, init));
      SizeByte(m1.p, last);
      PlainByte(m1, last, SizeRead(m.p, s));
      ReadsThen(m, init, m1, [last], m.(p := SizeRead(m.p, s)));
    }
  }

  // ---------------------------------------------------------------- extensions

  /** Anything after the size that starts with a semicolon or a space, up to the end of the line. */
  predicate Extension(e: string) { (e != "" ==> e[0] == ';' || e[0] == ' ') && CR !in e }

  lemma ExtensionByte(p: Parser, ch: char)
    requires (p.state.ChunkSize? && (ch == ';' || ch == ' ')) || (p.state.ChunkParameters? && ch != CR)
    ensures ParsingHeader(p.state)
    ensures Switch(Counted(p), ch) == Out(p.(state := ChunkParameters, nread := p.nread + 1), [], Next)
  {}

  lemma ExtensionInit(e: string)
    requires Extension(e) && e != ""
    ensures var k := |e| - 1;
            e == e[..k] + [e[k]] && e[k] != CR && Extension(e[..k]) && (k == 0 ==> e[k] == ';' || e[k] == ' ')
  {
    var k := |e| - 1;
    assert e[k] in e && forall c | c in e[..k] :: c in e;
  }

  /** The parser after a part `e` of the extension. */
  function ExtensionRead(p: Parser, e: string): Parser {
    if e == "" then p else p.(state := ChunkParameters, nread := p.nread + |e|)
  }

  lemma {:induction false} ReadsExtension(m: Machine, e: string)
    requires m.p.state.ChunkSize? && m.mark.Unmarked? && Extension(e) && Affords(m.p, |e|)
    ensures Reads(m, e, m.(p := ExtensionRead(m.p, e)))
    decreases |e|
  {
    hide Switch, Reads, Extension, ParsingHeader;
    if e == "" {
      ReadsNothing(m);
    } else {
      ExtensionInit(e);
      var k := |e| - 1;
      ReadsExtension(m, e[..k]);
      var m1 := m.(p := ExtensionRead(m.p, e[..k]));
      ExtensionByte(m1.p, e[k]);
      PlainByte(m1, e[k], ExtensionRead(m.p, e));
      ReadsThen(m, e[..k], m1, [e[k]], m.(p := ExtensionRead(m.p, e)));
    }
  }

  // ---------------------------------------------------------------- the line with the size

  function SizeLine(c: Chunk): string { c.size + c.extension + "\r\n" }

  /** The size is right, and its line fits the budget. */
  predicate WellSized(c: Chunk) {
    HexDigits(c.size) && Hexadecimal(c.size) == |c.bytes| && |c.bytes| / 16 <= LAST_HEX
    && Extension(c.extension) && |SizeLine(c)| <= MAX_HEADER_SIZE
  }

  /** The parser at the start of a chunk. */
  predicate AtChunk(m: Machine) {
    && m.p.state.ChunkSizeStart? && m.p.nread == 0 && m.mark.Unmarked?
    && m.p.flags.chunked && !m.p.flags.trailing
  }

  /** After the line: the data, or after the last chunk the trailers. */
  function SizeLineRead(p: Parser, n: nat): Parser {
    if n == 0 then p.(state := HeaderFieldStart, contentLength := 0, nread := 0, flags := p.flags.(trailing := true))
    else p.(state := ChunkData, contentLength := n, nread := 0)
  }

  lemma SizeLineCr(p: Parser)
    requires p.state.ChunkSize? || p.state.ChunkParameters?
    ensures ParsingHeader(p.state)
    ensures Switch(Counted(p), CR) == Out(p.(state := ChunkSizeAlmostDone, nread := p.nread + 1), [], Next)
  {}

  lemma SizeLineLf(p: Parser)
    requires p.state.ChunkSizeAlmostDone?
    ensures ParsingHeader(p.state)
    ensures Switch(Counted(p), LF) == Out(SizeLineRead(p, p.contentLength), [Notify(ChunkHeader(p.contentLength))], Next)
  {}

  lemma ReadsSizeLine(m: Machine, c: Chunk)
    requires AtChunk(m) && WellSized(c)
    ensures Reads(m, SizeLine(c), Machine(SizeLineRead(m.p, |c.bytes|), Unmarked, m.events + [ChunkHeader(|c.bytes|)]))
  {
    hide Switch, Reads, HexDigits, Hexadecimal, Extension, ParsingHeader;
    ReadsSize(m, c.size);
    var m1 := m.(p := SizeRead(m.p, c.size));
    ReadsExtension(m1, c.extension);
    var m2 := m1.(p := ExtensionRead(m1.p, c.extension));
    ReadsThen(m, c.size, m1, c.extension, m2);
    SizeLineCr(m2.p);
    var m3 := m2.(p := m2.p.(state := ChunkSizeAlmostDone, nread := m2.p.nread + 1));
    PlainByte(m2, CR, m3.p);
    ReadsThen(m, c.size + c.extension, m2, [CR], m3);
    SizeLineLf(m3.p);
    NotifyByte(m3, LF, SizeLineRead(m3.p, |c.bytes|), ChunkHeader(|c.bytes|));
    ReadsThen(m, c.size + c.extension + [CR], m3, [LF], Machine(SizeLineRead(m.p, |c.bytes|), Unmarked, m.events + [ChunkHeader(|c.bytes|)]));
    assert c.size + c.extension + [CR] + [LF] == SizeLine(c);
  }

  // ---------------------------------------------------------------- one chunk

  function ChunkText(c: Chunk): string { SizeLine(c) + c.bytes + "\r\n" }

  function ChunkEvents(c: Chunk): seq<Event> { [ChunkHeader(|c.bytes|), Data(Body, c.bytes), ChunkComplete] }

  lemma DataEndSwitch(p: Parser)
    ensures p.state.ChunkDataAlmostDone? ==> Counted(p) == p && Switch(p, CR) == Out(p.(state := ChunkDataDone), [Flush(Body)], Next)
    ensures p.state.ChunkDataDone? ==>
              Counted(p) == p && Switch(p, LF) == Out(p.(state := ChunkSizeStart, nread := 0), [Notify(ChunkComplete)], Next)
    ensures p.state.ChunkDataAlmostDone? || p.state.ChunkDataDone? ==> !ParsingHeader(p.state)
  {}

  /** CR LF after the data. */
  lemma ReadsDataEnd(m: Machine)
    requires m.p.state.ChunkDataAlmostDone? && m.mark.Marked? && m.mark.kind.Body?
    ensures Reads(m, "\r\n", Machine(m.p.(state := ChunkSizeStart, nread := 0), Unmarked,
                                     m.events + [Data(Body, m.mark.text)] + [ChunkComplete]))
  {
    hide Switch, Reads, ParsingHeader, Counted;
    DataEndSwitch(m.p);
    var m1 := Machine(m.p.(state := ChunkDataDone), Unmarked, m.events + [Data(Body, m.mark.text)]);
    assert [Flush(Body)][1..] == [];
    assert PerformAll(m.(p := m1.p), [Flush(Body)], CR) == Perform(m.(p := m1.p), Flush(Body), CR) == m1;
    ReadsByte(m, CR, m1);
    DataEndSwitch(m1.p);
    var m2 := Machine(m1.p.(state := ChunkSizeStart, nread := 0), Unmarked, m1.events + [ChunkComplete]);
    NotifyAlone(m1.(p := m2.p), ChunkComplete, LF);
    ReadsByte(m1, LF, m2);
    ReadsThen(m, [CR], m1, [LF], m2);
    assert [CR] + [LF] == "\r\n";
  }

  lemma ReadsChunk(m: Machine, c: Chunk)
    requires AtChunk(m) && MachineInv(m) && WellSized(c) && c.bytes != ""
    ensures Reads(m, ChunkText(c), Machine(m.p.(contentLength := 0), Unmarked, m.events + ChunkEvents(c)))
  {
    hide Switch, Run, MachineInv, HexDigits, Hexadecimal, Extension;
    var n := |c.bytes|;
    ReadsSizeLine(m, c);
    RunKeepsInv(m, SizeLine(c));
    var m1 := Machine(SizeLineRead(m.p, n), Unmarked, m.events + [ChunkHeader(n)]);
    InvBody(m1);
    assert c.bytes[0..] == c.bytes && c.bytes[0..n] == c.bytes && c.bytes[n..] == "";
    var m2 := SliceStays(m1, c.bytes, 0, n);
    RunEmpty(m2);
    assert "" + c.bytes == c.bytes;
    ReadsThen(m, SizeLine(c), m1, c.bytes, m2);
    ReadsDataEnd(m2);
    var m3 := Machine(m2.p.(state := ChunkSizeStart, nread := 0), Unmarked, m2.events + [Data(Body, c.bytes)] + [ChunkComplete]);
    ReadsThen(m, SizeLine(c) + c.bytes, m2, "\r\n", m3);
    assert m3.events == m.events + ChunkEvents(c);
  }

  // ---------------------------------------------------------------- all chunks

  function ChunksText(cs: seq<Chunk>): string {
    if cs == [] then "" else ChunkText(cs[0]) + ChunksText(cs[1..])
  }

  function ChunksEvents(cs: seq<Chunk>): seq<Event> {
    if cs == [] then [] else ChunkEvents(cs[0]) + ChunksEvents(cs[1..])
  }

  /** The parser after some chunks: `length` is what the last of them left. */
  function ChunksRead(p: Parser, cs: seq<Chunk>): Parser {
    if cs == [] then p else p.(contentLength := 0)
  }

  predicate AllSized(cs: seq<Chunk>) { forall c | c in cs :: WellSized(c) && c.bytes != "" }

  lemma {:induction false} ReadsChunks(m: Machine, cs: seq<Chunk>)
    requires AtChunk(m) && MachineInv(m) && AllSized(cs)
    ensures Reads(m, ChunksText(cs), Machine(ChunksRead(m.p, cs), Unmarked, m.events + ChunksEvents(cs)))
    decreases |cs|
  {
    hide Reads, MachineInv, WellSized, ChunkText;
    if cs == [] {
      ReadsNothing(m);
      assert m.events + [] == m.events;
    } else {
      ReadsChunk(m, cs[0]);
      var m1 := Machine(m.p.(contentLength := 0), Unmarked, m.events + ChunkEvents(cs[0]));
      ReadKeepsInv(m, ChunkText(cs[0]), m1);
      ReadsChunks(m1, cs[1..]);
      var m2 := Machine(m.p.(contentLength := 0), Unmarked, m.events + ChunksEvents(cs));
      assert m1.events + ChunksEvents(cs[1..]) == m2.events;
      ReadsThen(m, ChunkText(cs[0]), m1, ChunksText(cs[1..]), m2);
    }
  }

  lemma ReadKeepsInv(m: Machine, s: string, m': Machine)
    requires MachineInv(m) && Reads(m, s, m')
    ensures MachineInv(m')
  {
    hide MachineInv, Run;
    RunKeepsInv(m, s);
  }

  // ---------------------------------------------------------------- trailers

  /** The parser in the trailers of a message whose headers left `p`, after the trailers `done`. */
  predicate TrailersRead(q: Parser, p: Parser, done: seq<Header>) {
    && q.flags == Gathered(p.flags.(trailing := true), done) && q.upgrade == p.upgrade
    && q.verb == p.verb && q.major == p.major && q.minor == p.minor
  }

  /** A machine between two lines of the trailers. */
  predicate InTrailers(m: Machine, p: Parser, done: seq<Header>, events: seq<Event>, nread: nat) {
    && Ready(m) && m.p.nread == nread && Settle(m).events == events
    && Settle(m).p.state.HeaderFieldStart? && TrailersRead(Settle(m).p, p, done)
  }

  predicate AllOrdinary(hs: seq<Header>) { forall h | h in hs :: Ordinary(h) }

  lemma ReadsTrailer(m: Machine, h: Header, p: Parser, done: seq<Header>, events: seq<Event>, nread: nat) returns (m': Machine)
    requires InTrailers(m, p, done, events, nread) && Ordinary(h) && Affords(m.p, |Line(h)|)
    ensures Reads(m, Line(h), m') && InTrailers(m', p, done + [h], events + LineEvents(h), nread + |Line(h)|)
  {
    hide Run, IsToken, SetsTransferEncoding, ValueText, Line, Folded, Gathered, LineFlags;
    LineStarts(h);
    SettledCount(m);
    SettleRun(m, Line(h));
    m' := ReadsHeader(Settle(m), h);
    GatheredSnoc(p.flags.(trailing := true), done, h);
    SettledCount(m');
  }

  lemma {:induction false} ReadsTrailers(m: Machine, hs: seq<Header>, p: Parser, done: seq<Header>, events: seq<Event>, nread: nat)
    returns (m': Machine)
    requires InTrailers(m, p, done, events, nread) && AllOrdinary(hs) && nread + |Block(hs)| <= MAX_HEADER_SIZE
    ensures Reads(m, Block(hs), m') && InTrailers(m', p, done + hs, events + HeaderEvents(hs), nread + |Block(hs)|)
    decreases |hs|
  {
    hide Reads, InTrailers, Ordinary, Line;
    if hs == [] {
      ReadsNothing(m);
      assert events + [] == events && done + [] == done;
      m' := m;
    } else {
      TrailersCount(m, p, done, events, nread);
      var m1 := ReadsTrailer(m, hs[0], p, done, events, nread);
      m' := ReadsTrailers(m1, hs[1..], p, done + [hs[0]], events + LineEvents(hs[0]), nread + |Line(hs[0])|);
      ReadsThen(m, Line(hs[0]), m1, Block(hs[1..]), m');
      assert events + LineEvents(hs[0]) + HeaderEvents(hs[1..]) == events + HeaderEvents(hs);
      assert done + [hs[0]] + hs[1..] == done + hs;
    }
  }

  lemma TrailersCount(m: Machine, p: Parser, done: seq<Header>, events: seq<Event>, nread: nat)
    requires InTrailers(m, p, done, events, nread)
    ensures m.p.nread == nread
  {}

  lemma TrailingSwitch(p: Parser)
    requires p.state.HeadersAlmostDone? && p.flags.trailing
    ensures ParsingHeader(p.state)
    ensures Switch(p, LF) == Out(p.(state := MessageDone), [Notify(ChunkComplete)], Again)
  {}

  /** The parser after the message: the trailers count for what becomes of the connection. */
  predicate MessageRead(q: Parser, p: Parser, trailers: seq<Header>) {
    && q.state == NewMessage(p.(flags := Gathered(p.flags.(trailing := true), trailers)))
    && q.verb == p.verb && q.upgrade == p.upgrade
  }

  /** The empty line after the trailers completes the message. */
  lemma ReadsMessageEnd(m: Machine, p: Parser, done: seq<Header>, events: seq<Event>, nread: nat) returns (m': Machine)
    requires InTrailers(m, p, done, events, nread) && Affords(m.p, 2)
    ensures Ends(m, "\r\n", m', p.upgrade) && m'.mark.Unmarked? && m'.events == events + [ChunkComplete, MessageComplete]
    ensures MessageRead(m'.p, p, done)
  {
    hide Switch, Run, ParsingHeader, NewMessage, AnyAsks, AnyUpgrades;
    SettledCount(m);
    var s := Settle(m);
    SettleRun(m, "\r\n");
    BlankLineSwitch(Counted(s.p));
    assert ParsingHeader(s.p.state) && Counted(s.p) == s.p.(nread := s.p.nread + 1) by { FieldStartParsed(); }
    var m1 := Machine(s.p.(state := HeadersAlmostDone, nread := s.p.nread + 1), Unmarked, events);
    PlainByte(s, CR, m1.p);
    m' := TrailingLineFeed(m1);
    NewMessageFrame(m1.p, p.(flags := m1.p.flags));
    EndsThen(s, [CR], m1, [LF], m', p.upgrade);
    assert [CR] + [LF] == "\r\n";
  }

  lemma TrailingLineFeed(m: Machine) returns (m': Machine)
    requires m.p.state.HeadersAlmostDone? && m.p.flags.trailing && m.mark.Unmarked? && Affords(m.p, 1)
    ensures Ends(m, [LF], m', m.p.upgrade) && m'.mark.Unmarked? && m'.events == m.events + [ChunkComplete, MessageComplete]
    ensures m'.p.state == NewMessage(m.p) && m'.p.verb == m.p.verb && m'.p.upgrade == m.p.upgrade
  {
    hide Switch, Ends, ParsingHeader, NewMessage;
    TrailingSwitch(m.p);
    var c := m.(p := m.p.(nread := m.p.nread + 1));
    TrailingSwitch(c.p);
    var q := c.p.(state := MessageDone);
    NotifyAlone(c.(p := q), ChunkComplete, LF);
    var d := c.(p := q, events := m.events + [ChunkComplete]);
    assert Passes(c, LF) == Passes(d, LF);
    DoneSwitch(q, LF);
    NewMessageFrame(m.p, q);
    m' := Machine(q.(state := NewMessage(q)), Unmarked, d.events + [MessageComplete]);
    NotifyAlone(d.(p := m'.p), MessageComplete, LF);
    assert Passes(d, LF) == Handled(m', if q.upgrade then Exit else Next);
    EndsByte(m, LF, m', m.p.upgrade);
  }

  // ---------------------------------------------------------------- the body

  /** The last chunk, its trailers and the empty line. */
  function LastText(last: Chunk, trailers: seq<Header>): string { SizeLine(last) + Block(trailers) + "\r\n" }

  function BodyText(b: Chunked): string { ChunksText(b.chunks) + LastText(b.last, b.trailers) }

  predicate WellChunked(b: Chunked) {
    && AllSized(b.chunks) && WellSized(b.last) && b.last.bytes == ""
    && AllOrdinary(b.trailers) && |Block(b.trailers)| + 2 <= MAX_HEADER_SIZE
  }

  function BodyEvents(b: Chunked): seq<Event> {
    ChunksEvents(b.chunks) + [ChunkHeader(0)] + HeaderEvents(b.trailers) + [ChunkComplete, MessageComplete]
  }

  lemma ReadsLast(m: Machine, last: Chunk, trailers: seq<Header>) returns (m': Machine)
    requires AtChunk(m) && WellSized(last) && last.bytes == "" && AllOrdinary(trailers)
    requires |Block(trailers)| + 2 <= MAX_HEADER_SIZE
    ensures Ends(m, LastText(last, trailers), m', m.p.upgrade) && m'.mark.Unmarked?
    ensures m'.events == m.events + [ChunkHeader(0)] + HeaderEvents(trailers) + [ChunkComplete, MessageComplete]
    ensures MessageRead(m'.p, m.p, trailers)
  {
    hide Reads, Ends, WellSized, SizeLine, AllOrdinary, Block, HeaderEvents, Gathered, NewMessage;
    ReadsSizeLine(m, last);
    var m1 := Machine(SizeLineRead(m.p, 0), Unmarked, m.events + [ChunkHeader(0)]);
    GatheredNone(m1.p.flags);
    assert InTrailers(m1, m.p, [], m1.events, 0);
    var m2 := ReadsTrailers(m1, trailers, m.p, [], m1.events, 0);
    assert [] + trailers == trailers;
    ReadsThen(m, SizeLine(last), m1, Block(trailers), m2);
    TrailersCount(m2, m.p, trailers, m1.events + HeaderEvents(trailers), |Block(trailers)|);
    m' := ReadsMessageEnd(m2, m.p, trailers, m1.events + HeaderEvents(trailers), |Block(trailers)|);
    EndsThen(m, SizeLine(last) + Block(trailers), m2, "\r\n", m', m.p.upgrade);
  }

  lemma ReadsChunked(m: Machine, b: Chunked) returns (m': Machine)
    requires AtChunk(m) && MachineInv(m) && WellChunked(b)
    ensures Ends(m, BodyText(b), m', m.p.upgrade) && m'.mark.Unmarked? && m'.events == m.events + BodyEvents(b)
    ensures MessageRead(m'.p, m.p, b.trailers)
  {
    hide Reads, Ends, MachineInv, WellSized, LastText, AllSized, AllOrdinary, HeaderEvents, ChunksText, Gathered, NewMessage;
    ReadsChunks(m, b.chunks);
    var m1 := Machine(ChunksRead(m.p, b.chunks), Unmarked, m.events + ChunksEvents(b.chunks));
    m' := ReadsLast(m1, b.last, b.trailers);
    var f := Gathered(m.p.flags.(trailing := true), b.trailers);
    NewMessageFrame(m.p.(flags := f), m1.p.(flags := f));
    EndsThen(m, ChunksText(b.chunks), m1, LastText(b.last, b.trailers), m', m.p.upgrade);
    assert m'.events == m.events + BodyEvents(b);
  }

  // ---------------------------------------------------------------- the theorem

  /** The bytes handed to `on_body`. */
  function Delivered(events: seq<Event>): string {
    if events == [] then ""
    else (if events[0].Data? && events[0].kind.Body? then events[0].text else "") + Delivered(events[1..])
  }

  /** How often `on_message_complete` was called. */
  function Completions(events: seq<Event>): nat {
    if events == [] then 0 else (if events[0].MessageComplete? then 1 else 0) + Completions(events[1..])
  }

  lemma {:induction false} LogConcat(a: seq<Event>, b: seq<Event>)
    ensures Delivered(a + b) == Delivered(a) + Delivered(b)
    ensures Completions(a + b) == Completions(a) + Completions(b)
    decreases |a|
  {
    if a == [] {
      assert a + b == b;
    } else {
      assert (a + b)[1..] == a[1..] + b;
      LogConcat(a[1..], b);
    }
  }

  function Payload(cs: seq<Chunk>): string {
    if cs == [] then "" else cs[0].bytes + Payload(cs[1..])
  }

  lemma {:induction false} ChunksDeliver(cs: seq<Chunk>)
    ensures Delivered(ChunksEvents(cs)) == Payload(cs) && Completions(ChunksEvents(cs)) == 0
    decreases |cs|
  {
    if cs != [] {
      var es, rest := ChunkEvents(cs[0]), [Data(Body, cs[0].bytes), ChunkComplete];
      assert es[1..] == rest && rest[1..] == [ChunkComplete] && [ChunkComplete][1..] == [];
      assert Delivered([ChunkComplete]) == "" && Completions([ChunkComplete]) == 0;
      assert Delivered(rest) == cs[0].bytes + "" == cs[0].bytes && Completions(rest) == 0;
      LogConcat(es, ChunksEvents(cs[1..]));
      ChunksDeliver(cs[1..]);
    }
  }

  lemma {:induction false} HeadersDeliver(hs: seq<Header>)
    ensures Delivered(HeaderEvents(hs)) == "" && Completions(HeaderEvents(hs)) == 0
    decreases |hs|
  {
    if hs != [] {
      var es := LineEvents(hs[0]);
      assert es[1..] == [Data(Value, hs[0].value)] && es[1..][1..] == [];
      LogConcat(es, HeaderEvents(hs[1..]));
      HeadersDeliver(hs[1..]);
    }
  }

  lemma BodyDelivers(b: Chunked)
    ensures Delivered(BodyEvents(b)) == Payload(b.chunks) && Completions(BodyEvents(b)) == 1
  {
    hide ChunksEvents, HeaderEvents, Payload;
    var a, h, t := [ChunkHeader(0)], HeaderEvents(b.trailers), [ChunkComplete, MessageComplete];
    ChunksDeliver(b.chunks);
    HeadersDeliver(b.trailers);
    LogConcat(ChunksEvents(b.chunks), a);
    LogConcat(ChunksEvents(b.chunks) + a, h);
    LogConcat(ChunksEvents(b.chunks) + a + h, t);
    assert a[1..] == [] && t[1..] == [MessageComplete] && t[1..][1..] == [];
  }

  /** What becomes of the connection: headers and trailers count alike for keeping it, but only headers for
      leaving HTTP. */
  lemma ChunkedMeans(p: Parser, q: Parser, s: Start, hs: seq<Header>, trailers: seq<Header>)
    requires InSection(p, s, Coded, true, hs) && MessageRead(q, p.(state := ChunkSizeStart, upgrade := Leaves(p), nread := 0), trailers)
    ensures q.state == NextState(s.protocol, hs + trailers) && q.verb == s.verb && q.upgrade == LeavesHttp(s.verb, hs)
  {
    hide AnyAsks, AnyUpgrades;
    AsksConcat(hs, trailers, KEEP_ALIVE);
    AsksConcat(hs, trailers, CLOSE);
  }

  /** Any request sent in chunks, with any sizes' spelling, extensions and trailers: everything is
      consumed, the bytes delivered are those of the chunks in order, and the message is completed
      once, by the last callback. After CONNECT there is no body. */
  lemma Decodes(p: Parser, past: seq<Event>, s: Start, target: string, hs: seq<Header>, b: Chunked)
    requires ParserInv(p) && p.state.StartReq? && ProtocolOk(s.protocol) && Affords(p, |Head(s, target, hs)|)
    requires !s.verb.CONNECT? && Target(target, false) && Sound(hs, Coded, false) && HasFraming(hs) && WellChunked(b)
    ensures var text, leaves := Head(s, target, hs) + BodyText(b), LeavesHttp(s.verb, hs);
            var o := Execute(p, past, text);
            && o.errno == OK && o.exited == leaves && o.consumed == |text|
            && o.events == past + [MessageBegin, Data(Url, target)] + HeaderEvents(hs) + [Completed(s, leaves)] + BodyEvents(b)
            && Delivered(BodyEvents(b)) == Payload(b.chunks)
            && Completions(BodyEvents(b)) == 1 && BodyEvents(b)[|BodyEvents(b)| - 1] == MessageComplete
            && o.p.state == NextState(s.protocol, hs + b.trailers) && o.p.verb == s.verb && o.p.upgrade == leaves
  {
    hide Run, MachineInv, ParserInv, Head, Target, InSection, Sound, HasFraming, HeaderEvents, BodyText, WellChunked, Delivered,
         Payload, Completions, ChunksEvents, LeavesHttp, KeepsAlive, Leaves, MessageRead, NewMessage, HasBody;
    BodyDelivers(b);
    var head := Head(s, target, hs);
    ResumeInv(p, past);
    var m := Resume(p, past);
    StartResumes(p, past);
    var p1, m1 := ReadsHead(m, s, target, hs, Coded);
    SectionMeans(p1, s, Coded, true, hs);
    assert Reads(m, head, m1);
    ReadKeepsInv(m, head, m1);
    SectionChunked(p1, s, hs);
    var m2 := ReadsChunked(m1, b);
    ChunkedMeans(p1, m2.p, s, hs, b.trailers);
    EndsThen(m, head, m1, BodyText(b), m2, Leaves(p1));
    HeadNotEmpty(s, target, hs);
  }

  lemma SectionChunked(p: Parser, s: Start, hs: seq<Header>)
    requires InSection(p, s, Coded, true, hs)
    ensures p.flags.chunked && !p.flags.trailing
  {}
}
