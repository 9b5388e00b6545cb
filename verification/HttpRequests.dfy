/** The request round trip: printing a request and parsing the text gives the request back, and whether
    the connection stays open, is closed, or is left to another protocol. */
module HttpRequests {
  import opened HttpTypes
  import opened Decimals
  import opened HttpSwitch
  import opened HttpRun
  import opened HttpInvariant
  import opened HttpMarks
  import opened HttpScan
  import opened HttpReads
  import opened HttpMethods
  import opened HttpNames
  import opened HttpTargets
  import opened HttpLines
  import opened HttpConnection
  import opened HttpHeaders

  /** What is on the request line, but for the target. */
  datatype Start = Start(verb: Method, protocol: Protocol)

  datatype Request = Request(start: Start, target: string, headers: seq<Header>, body: string)

  /** How the end of a message is found: by Content-Length, or by the chunked coding. */
  datatype Framing = Sized(length: nat) | Coded

  function Block(hs: seq<Header>): string {
    if hs == [] then "" else Line(hs[0]) + Block(hs[1..])
  }

  function RequestLine(s: Start, target: string): string
    requires ProtocolOk(s.protocol)
  {
    MethodString(s.verb) + " " + target + ProtocolText(s.protocol)
  }

  function Head(s: Start, target: string, hs: seq<Header>): string
    requires ProtocolOk(s.protocol)
  {
    RequestLine(s, target) + Block(hs) + "\r\n"
  }

  /** A printed request, section 3 of RFC 7230. */
  function Print(r: Request): string
    requires ProtocolOk(r.start.protocol)
  {
    Head(r.start, r.target, r.headers) + r.body
  }

  /** The headers that frame the body. */
  predicate Frames(h: Header) { Folded(h.name) == CONTENT_LENGTH || Folded(h.name) == TRANSFER_ENCODING }

  predicate FramingHeader(h: Header, f: Framing) {
    match f case Sized(n) => LengthHeader(h, n) case Coded => CodingHeader(h)
  }

  /** Headers of a request with the given framing: ordinary ones, and at most one that frames the
      body; `seen` when it came before. */
  predicate Sound(hs: seq<Header>, f: Framing, seen: bool) {
    hs == []
    || (if Frames(hs[0]) then !seen && FramingHeader(hs[0], f) && Sound(hs[1..], f, true)
        else Ordinary(hs[0]) && Sound(hs[1..], f, seen))
  }

  predicate HasFraming(hs: seq<Header>) { hs != [] && (Frames(hs[0]) || HasFraming(hs[1..])) }

  predicate Legal(r: Request)
    ensures Legal(r) ==> ProtocolOk(r.start.protocol)
  {
    && ProtocolOk(r.start.protocol) && Target(r.target, r.start.verb.CONNECT?)
    && Sound(r.headers, Sized(|r.body|), false) && (r.body != "" ==> HasFraming(r.headers))
  }

  // ---------------------------------------------------------------- what becomes of the connection

  predicate AnyAsks(hs: seq<Header>, option: string) { exists h <- hs :: Asks(h, option) }

  predicate AnyUpgrades(hs: seq<Header>) { exists h <- hs :: Upgrades(h) }

  /** The rest of the connection is left to another protocol: after CONNECT, and if one is named and asked for. */
  predicate LeavesHttp(v: Method, hs: seq<Header>) { v.CONNECT? || (AnyUpgrades(hs) && AnyAsks(hs, UPGRADE)) }

  /** Another request may follow: unless closing is asked for, and for older versions only if keeping is asked for.
      A minor version of 0 counts as old whatever the major version. */
  predicate KeepsAlive(v: Protocol, hs: seq<Header>) {
    if Major(v) > 0 && Minor(v) > 0 then !AnyAsks(hs, CLOSE) else AnyAsks(hs, KEEP_ALIVE)
  }

  function NextState(v: Protocol, hs: seq<Header>): State { if KeepsAlive(v, hs) then StartReq else Dead }

  function HeaderEvents(hs: seq<Header>): seq<Event> {
    if hs == [] then [] else LineEvents(hs[0]) + HeaderEvents(hs[1..])
  }

  function Completed(s: Start, leaves: bool): Event { HeadersComplete(s.verb, Major(s.protocol), Minor(s.protocol), leaves) }

  /** The callbacks for a request. After CONNECT the body is the other protocol's. */
  function RequestEvents(r: Request): seq<Event> {
    [MessageBegin, Data(Url, r.target)] + HeaderEvents(r.headers) + [Completed(r.start, LeavesHttp(r.start.verb, r.headers))]
    + (if r.body == "" || r.start.verb.CONNECT? then [] else [Data(Body, r.body)]) + [MessageComplete]
  }

  /** The bits that some headers set. */
  function Gathered(f: Flags, hs: seq<Header>): Flags {
    f.(keepAlive := f.keepAlive || AnyAsks(hs, KEEP_ALIVE), close := f.close || AnyAsks(hs, CLOSE),
       connUpgrade := f.connUpgrade || AnyAsks(hs, UPGRADE), upgrade := f.upgrade || AnyUpgrades(hs))
  }

  lemma AsksSnoc(hs: seq<Header>, h: Header, option: string)
    ensures AnyAsks(hs + [h], option) <==> AnyAsks(hs, option) || Asks(h, option)
  {
    hide Asks;
    if Asks(h, option) { assert h in hs + [h]; }
    if AnyAsks(hs, option) { var x :| x in hs && Asks(x, option); assert x in hs + [h]; }
  }

  lemma UpgradesSnoc(hs: seq<Header>, h: Header)
    ensures AnyUpgrades(hs + [h]) <==> AnyUpgrades(hs) || Upgrades(h)
  {
    hide Upgrades;
    if Upgrades(h) { assert h in hs + [h]; }
    if AnyUpgrades(hs) { var x :| x in hs && Upgrades(x); assert x in hs + [h]; }
  }

  lemma GatheredSnoc(f: Flags, hs: seq<Header>, h: Header)
    ensures Gathered(f, hs + [h]) == LineFlags(Gathered(f, hs), h)
  {
    hide Asks, Upgrades, AnyAsks, AnyUpgrades;
    AsksSnoc(hs, h, KEEP_ALIVE);
    AsksSnoc(hs, h, CLOSE);
    AsksSnoc(hs, h, UPGRADE);
    UpgradesSnoc(hs, h);
  }

  lemma FramingSilent(h: Header, f: Flags)
    requires Frames(h)
    ensures LineFlags(f, h) == f
  {
    assert CONTENT_LENGTH[1] != CONNECTION[1] || CONTENT_LENGTH[3] != CONNECTION[3];
  }

  lemma GatheredNone(f: Flags)
    ensures Gathered(f, []) == f
  {}

  lemma AsksConcat(a: seq<Header>, b: seq<Header>, option: string)
    ensures AnyAsks(a + b, option) <==> AnyAsks(a, option) || AnyAsks(b, option)
  {
    hide Asks;
    if AnyAsks(a, option) { var x :| x in a && Asks(x, option); assert x in a + b; }
    if AnyAsks(b, option) { var x :| x in b && Asks(x, option); assert x in a + b; }
  }

  lemma UpgradesConcat(a: seq<Header>, b: seq<Header>)
    ensures AnyUpgrades(a + b) <==> AnyUpgrades(a) || AnyUpgrades(b)
  {
    hide Upgrades;
    if AnyUpgrades(a) { var x :| x in a && Upgrades(x); assert x in a + b; }
    if AnyUpgrades(b) { var x :| x in b && Upgrades(x); assert x in a + b; }
  }

  lemma GatheredTwice(f: Flags, a: seq<Header>, b: seq<Header>)
    ensures Gathered(Gathered(f, a), b) == Gathered(f, a + b)
  {
    hide AnyAsks, AnyUpgrades;
    AsksConcat(a, b, KEEP_ALIVE);
    AsksConcat(a, b, CLOSE);
    AsksConcat(a, b, UPGRADE);
    UpgradesConcat(a, b);
  }

  // ---------------------------------------------------------------- the header section

  /** The parser in the header section of a request, after the headers `done`. */
  predicate InSection(p: Parser, s: Start, f: Framing, seen: bool, done: seq<Header>) {
    && p.state.HeaderFieldStart? && p.verb == s.verb && p.major == Major(s.protocol) && p.minor == Minor(s.protocol)
    && p.contentLength == (if seen && f.Sized? then f.length else NO_LENGTH)
    && p.flags == Gathered(NO_FLAGS.(contentLength := seen && f.Sized?, transferEncoding := seen && f.Coded?,
                                     chunked := seen && f.Coded?), done)
  }

  /** A machine between two lines of that section. */
  predicate Between(m: Machine, s: Start, f: Framing, seen: bool, done: seq<Header>, events: seq<Event>, nread: nat) {
    && Ready(m) && m.p.nread == nread
    && InSection(Settle(m).p, s, f, seen, done) && Settle(m).mark.Unmarked? && Settle(m).events == events
  }

  lemma SettledCount(m: Machine)
    requires Ready(m)
    ensures Settle(m).p.nread == m.p.nread && Settle(m).mark.Unmarked?
  {}

  lemma LineStarts(h: Header)
    requires IsToken(h.name)
    ensures Line(h) != "" && Line(h)[0] != ' ' && Line(h)[0] != '\t'
  {
    assert Line(h)[0] == h.name[0] && h.name[0] in h.name;
  }

  lemma ReadsLine(m: Machine, h: Header, s: Start, f: Framing, seen: bool, done: seq<Header>, events: seq<Event>, nread: nat)
    returns (m': Machine)
    requires Between(m, s, f, seen, done, events, nread) && Affords(m.p, |Line(h)|)
    requires if Frames(h) then !seen && FramingHeader(h, f) else Ordinary(h)
    ensures Reads(m, Line(h), m')
    ensures Between(m', s, f, seen || Frames(h), done + [h], events + LineEvents(h), nread + |Line(h)|)
  {
    hide Run, IsToken, SetsTransferEncoding, ValueText, Line, Digits, Decimal, Folded, IsChunked, Asks, Upgrades, AnyAsks, AnyUpgrades;
    LineStarts(h);
    SettledCount(m);
    SettleRun(m, Line(h));
    GatheredSnoc(NO_FLAGS.(contentLength := seen && f.Sized?, transferEncoding := seen && f.Coded?, chunked := seen && f.Coded?), done, h);
    if !Frames(h) {
      m' := ReadsHeader(Settle(m), h);
    } else {
      var g := NO_FLAGS.(contentLength := f.Sized?, transferEncoding := f.Coded?, chunked := f.Coded?);
      GatheredSnoc(g, done, h);
      FramingSilent(h, Gathered(g, done));
      if f.Sized? {
        m' := ReadsLengthHeader(Settle(m), h, f.length);
      } else {
        m' := ReadsCodingHeader(Settle(m), h);
      }
    }
    SettledCount(m');
  }

  lemma {:induction false} ReadsBlock(
    m: Machine, hs: seq<Header>, s: Start, f: Framing, seen: bool, done: seq<Header>, events: seq<Event>, nread: nat)
    returns (m': Machine)
    requires Between(m, s, f, seen, done, events, nread) && Affords(m.p, |Block(hs)|) && Sound(hs, f, seen)
    ensures Reads(m, Block(hs), m')
    ensures Between(m', s, f, seen || HasFraming(hs), done + hs, events + HeaderEvents(hs), nread + |Block(hs)|)
    decreases |hs|
  {
    hide Reads, Between, Ordinary, FramingHeader, Frames, Line;
    if hs == [] {
      ReadsNothing(m);
      assert events + [] == events && done + [] == done;
      m' := m;
    } else {
      BetweenCount(m, s, f, seen, done, events, nread);
      var m1 := ReadsLine(m, hs[0], s, f, seen, done, events, nread);
      var seen1, events1, nread1 := seen || Frames(hs[0]), events + LineEvents(hs[0]), nread + |Line(hs[0])|;
      BetweenCount(m1, s, f, seen1, done + [hs[0]], events1, nread1);
      m' := ReadsBlock(m1, hs[1..], s, f, seen1, done + [hs[0]], events1, nread1);
      ReadsThen(m, Line(hs[0]), m1, Block(hs[1..]), m');
      assert events1 + HeaderEvents(hs[1..]) == events + HeaderEvents(hs);
      assert done + [hs[0]] + hs[1..] == done + hs;
    }
  }

  lemma BetweenCount(m: Machine, s: Start, f: Framing, seen: bool, done: seq<Header>, events: seq<Event>, nread: nat)
    requires Between(m, s, f, seen, done, events, nread)
    ensures m.p.nread == nread
  {}

  // ---------------------------------------------------------------- the end of the headers

  /** The machine reads all of `s`, and at its end may leave HTTP. */
  predicate Ends(m: Machine, s: string, m': Machine, exit: bool) { Run(m, s) == Result(m', |s|, if exit then Exit else Next) }

  lemma EndsThen(m: Machine, a: string, m1: Machine, b: string, m2: Machine, exit: bool)
    requires Reads(m, a, m1) && Ends(m1, b, m2, exit)
    ensures Ends(m, a + b, m2, exit)
  {
    hide Run;
    RunConcat(m, a, b);
  }

  lemma EndsByte(m: Machine, ch: char, m': Machine, exit: bool)
    requires StepByte(m, ch) == Handled(m', if exit then Exit else Next)
    ensures Ends(m, [ch], m', exit)
  {
    hide StepByte;
    RunOne(m, ch);
  }

  /** The parser will leave HTTP once the message is complete. */
  predicate Leaves(p: Parser) { (p.flags.upgrade && p.flags.connUpgrade) || p.verb.CONNECT? }

  /** The message is complete with its headers: there is no body, or it belongs to another protocol. */
  predicate Bodiless(p: Parser) { p.verb.CONNECT? || !HasBody(p) }

  /** What follows the empty line. */
  function AfterHeaders(p: Parser): State {
    if Bodiless(p) then NewMessage(p) else if p.flags.chunked then ChunkSizeStart else BodyIdentity
  }

  /** The machine once the empty line has been read: the message is complete, or its body follows. */
  predicate HeadersRead(p: Parser, m: Machine, events: seq<Event>) {
    && m.mark.Unmarked? && m.p == p.(state := AfterHeaders(p), upgrade := Leaves(p), nread := 0)
    && m.events == events + [HeadersComplete(p.verb, p.major, p.minor, Leaves(p))]
                   + (if Bodiless(p) then [MessageComplete] else [])
  }

  /** Requests that are framed in one way, and not in their trailers. */
  predicate WellFramed(p: Parser) {
    !p.flags.trailing && (p.flags.transferEncoding ==> p.flags.chunked && !p.flags.contentLength)
  }

  lemma BlankLineSwitch(p: Parser)
    ensures p.state.HeaderFieldStart? ==> ParsingHeader(p.state) && Switch(p, CR) == Out(p.(state := HeadersAlmostDone), [], Next)
  {}

  lemma EmptyLineSwitch(p: Parser)
    requires WellFramed(p)
    ensures p.state.HeadersAlmostDone? ==>
              ParsingHeader(p.state) &&
              Switch(p, LF) == Out(p.(state := HeadersDone, upgrade := Leaves(p)), [Notify(HeadersComplete(p.verb, p.major, p.minor, Leaves(p)))], Again)
  {
    hide ShouldKeepAlive;
  }

  lemma HeadersDoneSwitch(p: Parser)
    requires WellFramed(p) && p.state.HeadersDone? && p.upgrade == Leaves(p)
    ensures Switch(p, LF) == Out(p.(state := AfterHeaders(p), nread := 0), if Bodiless(p) then [Notify(MessageComplete)] else [],
                                 if Bodiless(p) && Leaves(p) then Exit else Next)
  {
    hide ShouldKeepAlive;
    NewMessageFrame(p, p.(nread := 0));
  }

  lemma NewMessageFrame(p: Parser, q: Parser)
    requires q.flags == p.flags && q.major == p.major && q.minor == p.minor
    ensures NewMessage(q) == NewMessage(p)
  {}

  lemma NotifyAlone(m: Machine, e: Event, ch: char)
    ensures PerformAll(m, [Notify(e)], ch) == m.(events := m.events + [e])
    ensures PerformAll(m, [], ch) == m
  {
    assert [Notify(e)][1..] == [];
  }

  lemma AfterFrame(p: Parser, q: Parser)
    requires q.flags == p.flags && q.major == p.major && q.minor == p.minor && q.contentLength == p.contentLength && q.verb == p.verb
    ensures AfterHeaders(q) == AfterHeaders(p) && Bodiless(q) == Bodiless(p) && Leaves(q) == Leaves(p)
  {
    hide NewMessage;
    NewMessageFrame(p, q);
  }

  /** The line feed of the empty line is looked at twice. */
  lemma EmptyLineFeed(m: Machine, p: Parser, events: seq<Event>) returns (m': Machine)
    requires m == Machine(p.(state := HeadersAlmostDone, nread := p.nread + 1), Unmarked, events)
    requires WellFramed(p) && Affords(p, 2)
    ensures StepByte(m, LF) == Handled(m', if Bodiless(p) && Leaves(p) then Exit else Next) && HeadersRead(p, m', events)
  {
    hide Switch, AfterHeaders, Bodiless, Leaves;
    var c := m.(p := m.p.(nread := p.nread + 2));
    AfterFrame(p, c.p);
    EmptyLineSwitch(c.p);
    var e := HeadersComplete(p.verb, p.major, p.minor, Leaves(p));
    var q := c.p.(state := HeadersDone, upgrade := Leaves(p));
    NotifyAlone(c.(p := q), e, LF);
    var d := c.(p := q, events := events + [e]);
    assert Passes(c, LF) == Passes(d, LF);
    AfterFrame(p, q);
    HeadersDoneSwitch(q);
    NotifyAlone(d.(p := q.(state := AfterHeaders(q), nread := 0)), MessageComplete, LF);
    m' := Passes(d, LF).m;
    assert Extended(m', LF) == m';
    assert events + [e] + [] == events + [e];
  }

  lemma ReadsEmptyLine(m: Machine, s: Start, f: Framing, seen: bool, done: seq<Header>, events: seq<Event>, nread: nat)
    returns (m': Machine)
    requires Between(m, s, f, seen, done, events, nread) && Affords(m.p, 2)
    ensures var p := Settle(m).p; Ends(m, "\r\n", m', Bodiless(p) && Leaves(p)) && HeadersRead(p, m', events)
  {
    hide Switch, Reads, Ends, Run, StepByte, NewMessage, ParsingHeader, AfterHeaders, Bodiless, Leaves, AnyAsks, AnyUpgrades, HeadersRead;
    SettledCount(m);
    var t := Settle(m);
    SettleRun(m, "\r\n");
    BlankLineSwitch(Counted(t.p));
    assert ParsingHeader(t.p.state) && Counted(t.p) == t.p.(nread := t.p.nread + 1) by { FieldStartParsed(); }
    var m1 := Machine(t.p.(state := HeadersAlmostDone, nread := t.p.nread + 1), Unmarked, events);
    PlainByte(t, CR, m1.p);
    m' := EmptyLineFeed(m1, t.p, events);
    EndsByte(m1, LF, m', Bodiless(t.p) && Leaves(t.p));
    EndsThen(t, [CR], m1, [LF], m', Bodiless(t.p) && Leaves(t.p));
    assert [CR] + [LF] == "\r\n";
    SameRun(m, t, "\r\n", m', Bodiless(t.p) && Leaves(t.p));
  }

  lemma SameRun(m: Machine, t: Machine, s: string, m': Machine, exit: bool)
    requires Run(m, s) == Run(t, s) && Ends(t, s, m', exit)
    ensures Ends(m, s, m', exit)
  {}

  // ---------------------------------------------------------------- the request line

  /** The parser at the start of the header section. */
  function Opened(p: Parser, s: Start, target: string): Parser
    requires ProtocolOk(s.protocol)
  {
    var n := |MethodString(s.verb)|;
    p.(state := HeaderFieldStart, flags := NO_FLAGS, contentLength := NO_LENGTH, index := n + 1, verb := s.verb,
       major := Major(s.protocol), minor := Minor(s.protocol), nread := p.nread + |RequestLine(s, target)|)
  }

  lemma ReadsRequestLine(m: Machine, s: Start, target: string)
    requires m.p.state.StartReq? && m.mark.Unmarked? && ProtocolOk(s.protocol) && Target(target, s.verb.CONNECT?)
    requires Affords(m.p, |RequestLine(s, target)|)
    ensures Reads(m, RequestLine(s, target), Machine(Opened(m.p, s, target), Unmarked, m.events + [MessageBegin, Data(Url, target)]))
  {
    hide Switch, Reads, MethodString, ProtocolText, MayEnd;
    var name := MethodString(s.verb);
    var n := |name|;
    ReadsMethod(m, s.verb);
    var p1 := m.p.(state := ReqSpacesBeforeUrl, flags := NO_FLAGS, contentLength := NO_LENGTH, index := n + 1,
                   verb := s.verb, nread := m.p.nread + n + 1);
    var m1 := Machine(p1, Unmarked, m.events + [MessageBegin]);
    var u := ReadsTarget(m1, target);
    var m2 := Machine(p1.(state := u, nread := p1.nread + |target|), Marked(Url, target), m1.events);
    ReadsThen(m, name + " ", m1, target, m2);
    ReadsProtocol(m2, s.protocol);
    var m3 := Machine(Opened(m.p, s, target), Unmarked, m1.events + [Data(Url, target)]);
    ReadsThen(m, name + " " + target, m2, ProtocolText(s.protocol), m3);
    assert m3.events == m.events + [MessageBegin, Data(Url, target)];
  }

  // ---------------------------------------------------------------- the whole request

  /** Everything up to the last header. */
  lemma ReadsSection(m: Machine, s: Start, target: string, hs: seq<Header>, f: Framing) returns (m': Machine)
    requires m.p.state.StartReq? && m.mark.Unmarked? && ProtocolOk(s.protocol)
    requires Affords(m.p, |RequestLine(s, target) + Block(hs)|) && Target(target, s.verb.CONNECT?) && Sound(hs, f, false)
    ensures Reads(m, RequestLine(s, target) + Block(hs), m')
    ensures Between(m', s, f, HasFraming(hs), hs, m.events + [MessageBegin, Data(Url, target)] + HeaderEvents(hs),
                    m.p.nread + |RequestLine(s, target) + Block(hs)|)
  {
    hide Switch, Reads, Target, RequestLine, Sound, HasFraming, HeaderEvents, Block;
    ReadsRequestLine(m, s, target);
    var m1 := Machine(Opened(m.p, s, target), Unmarked, m.events + [MessageBegin, Data(Url, target)]);
    GatheredNone(NO_FLAGS);
    assert Between(m1, s, f, false, [], m1.events, m1.p.nread) by { hide Gathered; }
    m' := ReadsBlock(m1, hs, s, f, false, [], m1.events, m1.p.nread);
    assert [] + hs == hs;
    ReadsThen(m, RequestLine(s, target), m1, Block(hs), m');
  }

  /** Everything up to the body: the message is complete, or the body follows. */
  lemma ReadsHead(m: Machine, s: Start, target: string, hs: seq<Header>, f: Framing) returns (p: Parser, m': Machine)
    requires m.p.state.StartReq? && m.mark.Unmarked? && ProtocolOk(s.protocol)
    requires Affords(m.p, |Head(s, target, hs)|) && Target(target, s.verb.CONNECT?) && Sound(hs, f, false)
    ensures InSection(p, s, f, HasFraming(hs), hs) && Ends(m, Head(s, target, hs), m', Bodiless(p) && Leaves(p))
    ensures HeadersRead(p, m', m.events + [MessageBegin, Data(Url, target)] + HeaderEvents(hs))
  {
    hide Switch, Reads, Ends, Target, RequestLine, Sound, HasFraming, HeaderEvents, HeadersRead, Block, Bodiless, Leaves, InSection;
    var m2 := ReadsSection(m, s, target, hs, f);
    var events, nread := m.events + [MessageBegin, Data(Url, target)] + HeaderEvents(hs), m.p.nread + |RequestLine(s, target) + Block(hs)|;
    BetweenCount(m2, s, f, HasFraming(hs), hs, events, nread);
    m' := ReadsEmptyLine(m2, s, f, HasFraming(hs), hs, events, nread);
    p := Settle(m2).p;
    EndsThen(m, RequestLine(s, target) + Block(hs), m2, "\r\n", m', Bodiless(p) && Leaves(p));
  }

  /** The body, to its last byte, which is looked at twice. */
  lemma ReadsBody(m: Machine, p: Parser, body: string, events: seq<Event>) returns (m': Machine)
    requires MachineInv(m) && HeadersRead(p, m, events) && body != "" && p.contentLength == |body| < NO_LENGTH
    requires !p.flags.chunked && !p.verb.CONNECT?
    ensures Ends(m, body, m', Leaves(p)) && m'.mark.Unmarked? && m'.p.state == NewMessage(p) && m'.p.verb == p.verb
    ensures m'.p.upgrade == Leaves(p)
    ensures m'.events == events + [HeadersComplete(p.verb, p.major, p.minor, Leaves(p)), Data(Body, body), MessageComplete]
  {
    hide Switch, Run, MachineInv, NewMessage, Leaves;
    var n := |body|;
    InvBody(m);
    assert body[0..] == body && body[0..n] == body;
    var g := SliceEnds(m, body, 0, n);
    assert "" + body == body;
    var t := body[n - 1..];
    assert t[1..] == "";
    DoneSwitch(g.p, t[0]);
    NewMessageFrame(p, g.p);
    NotifyAlone(g.(p := g.p.(state := NewMessage(g.p))), MessageComplete, t[0]);
    m' := g.(p := g.p.(state := NewMessage(g.p)), events := g.events + [MessageComplete]);
    assert Passes(g, t[0]) == Handled(m', if g.p.upgrade then Exit else Next);
    RunEmpty(m');
    var e := HeadersComplete(p.verb, p.major, p.minor, Leaves(p));
    assert events + [e] + [Data(Body, body)] + [MessageComplete] == events + [e, Data(Body, body), MessageComplete];
  }

  lemma DoneSwitch(p: Parser, ch: char)
    requires p.state.MessageDone?
    ensures Switch(p, ch) == Out(p.(state := NewMessage(p)), [Notify(MessageComplete)], if p.upgrade then Exit else Next)
  {}

  lemma LengthFits(hs: seq<Header>, n: nat, seen: bool)
    requires Sound(hs, Sized(n), seen) && HasFraming(hs)
    ensures n / 10 <= LAST_DECIMAL
  {
    hide Ordinary, Digits, Decimal, IsToken;
  }

  /** What the parser's fields after the headers say about the request. */
  lemma SectionMeans(p: Parser, s: Start, f: Framing, seen: bool, hs: seq<Header>)
    requires InSection(p, s, f, seen, hs)
    ensures Leaves(p) <==> LeavesHttp(s.verb, hs)
    ensures NewMessage(p) == NextState(s.protocol, hs)
    ensures WellFramed(p) && p.verb == s.verb && p.major == Major(s.protocol) && p.minor == Minor(s.protocol)
    ensures f.Sized? ==> !p.flags.chunked && (HasBody(p) <==> seen && f.length > 0 && f.length != NO_LENGTH)
    ensures f.Coded? && seen ==> p.flags.chunked && HasBody(p)
  {
    hide AnyAsks, AnyUpgrades;
  }

  /** The outcome of a request that has been read to its end. */
  predicate RequestRead(o: Outcome, r: Request, past: seq<Event>)
    requires ProtocolOk(r.start.protocol)
  {
    && o.errno == OK && o.events == past + RequestEvents(r)
    && o.exited == LeavesHttp(r.start.verb, r.headers) && o.p.upgrade == LeavesHttp(r.start.verb, r.headers)
    && o.consumed == (if r.start.verb.CONNECT? then |Head(r.start, r.target, r.headers)| else |Print(r)|)
    && o.p.state == NextState(r.start.protocol, r.headers) && o.p.verb == r.start.verb
  }

  /** Printing any legal request and parsing the text, at the start of a message: everything is consumed, but
      after CONNECT nothing beyond the headers; the callbacks are those of the request; and what becomes of the
      connection is what the headers and the version say. */
  lemma RoundTrip(p: Parser, past: seq<Event>, r: Request)
    requires ParserInv(p) && p.state.StartReq? && Legal(r) && Affords(p, |Head(r.start, r.target, r.headers)|)
    ensures RequestRead(Execute(p, past, Print(r)), r, past)
  {
    hide Run, MachineInv, ParserInv, Head, NewMessage, Target, InSection, Sound, HasFraming, HeaderEvents, LeavesHttp, KeepsAlive,
         Leaves, HasBody;
    var head := Head(r.start, r.target, r.headers);
    var n := |r.body|;
    ResumeInv(p, past);
    var m := Resume(p, past);
    StartResumes(p, past);
    var p1, m1 := ReadsHead(m, r.start, r.target, r.headers, Sized(n));
    RunKeepsInv(m, head);
    SectionMeans(p1, r.start, Sized(n), HasFraming(r.headers), r.headers);
    SectionLength(p1, r);
    var events := past + [MessageBegin, Data(Url, r.target)] + HeaderEvents(r.headers);
    HeadNotEmpty(r.start, r.target, r.headers);
    if n == 0 { assert Print(r) == head; } else { LengthFits(r.headers, n, false); }
    if Bodiless(p1) {
      RunConcat(m, head, r.body);
      assert n == 0 || r.start.verb.CONNECT?;
      if r.start.verb.CONNECT? { ConnectLeaves(p1); }
      EventsSoFar(past, r, events);
    } else {
      var m2 := ReadsBody(m1, p1, r.body, events);
      EndsThen(m, head, m1, r.body, m2, Leaves(p1));
      EventsSoFar(past, r, events);
    }
  }

  lemma ConnectLeaves(p: Parser)
    requires p.verb.CONNECT?
    ensures Leaves(p)
  {}

  lemma HeadNotEmpty(s: Start, target: string, hs: seq<Header>)
    requires ProtocolOk(s.protocol)
    ensures Head(s, target, hs) != ""
  {
    hide RequestLine, Block;
  }

  lemma EventsSoFar(past: seq<Event>, r: Request, events: seq<Event>)
    requires events == past + [MessageBegin, Data(Url, r.target)] + HeaderEvents(r.headers)
    ensures var e := Completed(r.start, LeavesHttp(r.start.verb, r.headers));
            if r.body == "" || r.start.verb.CONNECT? then events + [e] + [MessageComplete] == past + RequestEvents(r)
            else events + [e, Data(Body, r.body), MessageComplete] == past + RequestEvents(r)
  {
    hide HeaderEvents, LeavesHttp;
  }

  lemma StartResumes(p: Parser, past: seq<Event>)
    requires p.state.StartReq?
    ensures Resume(p, past) == Machine(p, Unmarked, past)
  {}

  lemma SectionLength(p: Parser, r: Request)
    requires InSection(p, r.start, Sized(|r.body|), HasFraming(r.headers), r.headers)
    ensures HasFraming(r.headers) ==> p.contentLength == |r.body|
  {}

  // ---------------------------------------------------------------- a second Content-Length

  /** A further Content-Length line is refused at the first digit of its value, whatever follows. */
  lemma SecondLength(p: Parser, past: seq<Event>, s: Start, target: string, hs: seq<Header>, n: nat, h: Header, rest: string)
    requires ParserInv(p) && p.state.StartReq? && ProtocolOk(s.protocol) && Target(target, s.verb.CONNECT?)
    requires Sound(hs, Sized(n), false) && HasFraming(hs)
    requires IsToken(h.name) && Folded(h.name) == CONTENT_LENGTH && h.value != "" && IsNum(h.value[0])
    requires Affords(p, |RequestLine(s, target) + Block(hs) + Line(h)|)
    ensures Execute(p, past, RequestLine(s, target) + Block(hs) + Line(h) + rest).errno == UNEXPECTED_CONTENT_LENGTH
  {
    hide Run, ParserInv, RequestLine, Block, Target, Sound, HasFraming, HeaderEvents, IsToken, NameRead, Folded;
    StartResumes(p, past);
    var m := Resume(p, past);
    var a := RequestLine(s, target) + Block(hs);
    var m1 := ReadsSection(m, s, target, hs, Sized(n));
    var events := past + [MessageBegin, Data(Url, target)] + HeaderEvents(hs);
    SecondRefused(m1, s, n, hs, events, p.nread + |a|, h, rest);
    RunConcat(m, a, Line(h) + rest);
    assert a + (Line(h) + rest) == a + Line(h) + rest;
  }

  lemma SecondRefused(m: Machine, s: Start, n: nat, hs: seq<Header>, events: seq<Event>, nread: nat, h: Header, rest: string)
    requires Between(m, s, Sized(n), true, hs, events, nread) && Affords(m.p, |Line(h)|)
    requires IsToken(h.name) && Folded(h.name) == CONTENT_LENGTH && h.value != "" && IsNum(h.value[0])
    ensures Run(m, Line(h) + rest).ctl == Fail(UNEXPECTED_CONTENT_LENGTH)
  {
    hide Run, IsToken, NameRead, Folded, AnyAsks, AnyUpgrades, Reads, StepByte;
    LineStarts(h);
    SettledCount(m);
    var t := Settle(m);
    SettleRun(m, Line(h) + rest);
    LengthName(t.p, h.name);
    ReadsNameColon(t, h.name);
    var m1 := Machine(BeforeValue(t.p, h.name), Unmarked, t.events + [Data(Field, h.name)]);
    var c, more := h.value[0], h.value[1..] + "\r\n" + rest;
    assert Line(h) + rest == h.name + ": " + ([c] + more) by { assert h.value == [c] + h.value[1..]; }
    RunConcat(t, h.name + ": ", [c] + more);
    ReadsRun(t, h.name + ": ", m1);
    RunConcat(m1, [c], more);
    RunOne(m1, c);
    SecondDigit(m1, c);
  }

  lemma ReadsRun(m: Machine, s: string, m': Machine)
    requires Reads(m, s, m')
    ensures Run(m, s) == Result(m', |s|, Next)
  {}

  lemma SecondDigit(m: Machine, c: char)
    requires m.p.state.HeaderValueDiscardWs? && m.p.headerState.ContentLength? && m.p.flags.contentLength && IsNum(c) && Affords(m.p, 1)
    ensures StepByte(m, c).ctl == Fail(UNEXPECTED_CONTENT_LENGTH)
  {
    DiscardSwitch(Counted(m.p), c);
  }
}
