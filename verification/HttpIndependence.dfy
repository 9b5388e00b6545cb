/** Messages on one connection are parsed independently: whatever the previous messages left in
    the parser's fields, the next message produces the callbacks a fresh parser would produce. */
module HttpIndependence {
  import opened HttpTypes
  import opened HttpSwitch
  import opened HttpRun
  import opened HttpInvariant
  import opened HttpMarks
  import opened HttpScan
  import opened HttpSplit

  /** Which fields a state still depends on. */
  datatype Phase = Between | InVerb | BeforeMajor | BeforeMinor | Versioned | Matching | AfterHeaders

  function PhaseOf(s: State): Phase {
    match s
    case Dead => Between case StartReq => Between
    case ReqMethod => InVerb
    case ReqHttpDot => BeforeMinor case ReqHttpMinor => BeforeMinor
    case ReqHttpEnd => Versioned case ReqLineAlmostDone => Versioned
    case HeaderFieldStart => Versioned case HeadersAlmostDone => Versioned
    case HeaderField => Matching
    case HeaderValueDiscardWs => Matching case HeaderValueDiscardWsAlmostDone => Matching
    case HeaderValueDiscardLws => Matching case HeaderValueStart => Matching case HeaderValue => Matching
    case HeaderAlmostDone => Matching case HeaderValueLws => Matching
    case HeadersDone => AfterHeaders
    case ChunkSizeStart => AfterHeaders case ChunkSize => AfterHeaders
    case ChunkParameters => AfterHeaders case ChunkSizeAlmostDone => AfterHeaders
    case ChunkData => AfterHeaders case ChunkDataAlmostDone => AfterHeaders case ChunkDataDone => AfterHeaders
    case BodyIdentity => AfterHeaders case MessageDone => AfterHeaders
    case _ => BeforeMajor
  }

  /** The parser with every field that its state will not read set to a fixed value, and the header
      budget set to `n`. The upgrade bit is read after the headers, hence also in the trailers. */
  function Canon(p: Parser, n: nat): Parser {
    var kept := p.flags.trailing && p.upgrade;
    match PhaseOf(p.state)
    case Between => INITIAL.(state := p.state, nread := n)
    case InVerb => Parser(p.state, General, p.index, p.flags, n, p.contentLength, 0, 0, p.verb, kept)
    case BeforeMajor => Parser(p.state, General, 0, p.flags, n, p.contentLength, 0, 0, p.verb, kept)
    case BeforeMinor => Parser(p.state, General, 0, p.flags, n, p.contentLength, p.major, 0, p.verb, kept)
    case Versioned => Parser(p.state, General, 0, p.flags, n, p.contentLength, p.major, p.minor, p.verb, kept)
    case Matching => Rebased(p, n, kept)
    case AfterHeaders => Parser(p.state, General, 0, p.flags, n, p.contentLength, p.major, p.minor, p.verb, p.upgrade)
  }

  /** The same step, up to fields that will not be read and to the header budget. */
  predicate SameStep(p: Parser, o: Out, n: nat, o': Out) {
    && o.acts == o'.acts && o.ctl == o'.ctl && Canon(o.p, 0) == Canon(o'.p, 0)
    && ((o.p.nread == p.nread && o'.p.nread == n) || (o.p.nread == 0 && o'.p.nread == 0))
  }

  // ---------------------------------------------------------------- the handlers, one by one

  lemma StartCanon(p: Parser, ch: char, n: nat)
    requires p.state.StartReq?
    ensures SameStep(p, OnStart(p, ch), n, OnStart(Canon(p, n), ch))
  {
    hide FirstMethod;
  }

  lemma MethodCanon(p: Parser, ch: char, n: nat)
    requires p.state.ReqMethod?
    ensures SameStep(p, OnMethod(p, ch), n, OnMethod(Canon(p, n), ch))
  {
    hide SwitchMethod, MethodString, At, Inc;
  }

  /** In the request target nothing but the state changes. */
  lemma UrlCanon(p: Parser, acts: seq<Act>, s: State, n: nat)
    requires p.state.ReqSpacesBeforeUrl? || InUrl(p.state)
    requires s.Dead? || InUrl(s)
    ensures SameStep(p, UrlTo(p, acts, s), n, UrlTo(Canon(p, n), acts, s))
  {}

  lemma UrlRestCanon(p: Parser, ch: char, n: nat)
    requires InUrl(p.state)
    ensures SameStep(p, OnUrlRest(p, ch), n, OnUrlRest(Canon(p, n), ch))
  {
    hide ParseUrlChar, UrlTo;
    UrlCanon(p, [], ParseUrlChar(p.state, ch), n);
  }

  lemma VersionCanon(p: Parser, ch: char, n: nat)
    requires p.state.ReqHttpMajor? || p.state.ReqHttpDot? || p.state.ReqHttpMinor? || p.state.ReqHttpEnd? || p.state.ReqLineAlmostDone?
    ensures SameStep(p, OnVersion(p, ch), n, OnVersion(Canon(p, n), ch))
  {}

  predicate InProtocol(s: State) {
    s.ReqHttpH? || s.ReqHttpHT? || s.ReqHttpHTT? || s.ReqHttpI? || s.ReqHttpIC? || s.ReqHttpHTTP?
  }

  lemma ProtocolCanon(p: Parser, ok: bool, s: State, n: nat)
    requires p.state.ReqHttpStart? || InProtocol(p.state)
    requires InProtocol(s) || s.ReqHttpMajor?
    ensures SameStep(p, Expect(p, ok, STRICT, s), n, Expect(Canon(p, n), ok, STRICT, s))
  {}

  lemma HttpStartCanon(p: Parser, ch: char, n: nat)
    requires p.state.ReqHttpStart?
    ensures SameStep(p, OnHttpStart(p, ch), n, OnHttpStart(Canon(p, n), ch))
  {}

  lemma FieldStartCanon(p: Parser, ch: char, n: nat)
    requires p.state.HeaderFieldStart?
    ensures SameStep(p, OnFieldStart(p, ch), n, OnFieldStart(Canon(p, n), ch))
  {
    hide Token;
  }

  lemma FieldCanon(p: Parser, ch: char, n: nat)
    requires p.state.HeaderField?
    ensures SameStep(p, OnField(p, ch), n, OnField(Canon(p, n), ch))
  {
    hide FieldByte, Token;
    FieldByteRebased(p, n, p.flags.trailing && p.upgrade, ch, Token(ch));
  }

  lemma MatchingCanon(p: Parser, n: nat)
    requires PhaseOf(p.state).Matching?
    ensures Canon(p, n) == Rebased(p, n, p.flags.trailing && p.upgrade)
  {}

  lemma RebasedCanon(q: Parser, n: nat)
    requires PhaseOf(q.state).Matching? || PhaseOf(q.state).Versioned?
    ensures Canon(Rebased(q, n, q.flags.trailing && q.upgrade), 0) == Canon(q, 0)
  {}

  function RebasedOut(o: Out, n: nat, u: bool): Out { o.(p := Rebased(o.p, n, u)) }

  predicate LineFrame(p: Parser, o: Out) {
    && o.p.nread == p.nread && o.p.upgrade == p.upgrade && o.p.flags.trailing == p.flags.trailing
    && (o.p.state == p.state || o.p.state in {HeaderValue, HeaderValueStart, HeaderFieldStart,
          HeaderValueDiscardWs, HeaderValueDiscardWsAlmostDone, HeaderValueDiscardLws})
  }

  lemma RebasedSameStep(p: Parser, o: Out, n: nat, o': Out)
    requires PhaseOf(p.state).Matching? && LineFrame(p, o) && o' == RebasedOut(o, n, p.flags.trailing && p.upgrade)
    ensures SameStep(p, o, n, o')
  {
    hide Canon;
    RebasedCanon(o.p, n);
  }

  lemma ValueStartRebased(p: Parser, ch: char, n: nat, u: bool)
    requires p.state.HeaderValueDiscardWs? || p.state.HeaderValueStart?
    ensures OnValueStart(Rebased(p, n, u), ch) == RebasedOut(OnValueStart(p, ch), n, u)
    ensures LineFrame(p, OnValueStart(p, ch))
  {
    hide Lower;
  }

  lemma ValueStartCanon(p: Parser, ch: char, n: nat)
    requires p.state.HeaderValueDiscardWs? || p.state.HeaderValueStart?
    ensures SameStep(p, OnValueStart(p, ch), n, OnValueStart(Canon(p, n), ch))
  {
    hide OnValueStart, Canon, SameStep, RebasedOut, LineFrame;
    MatchingCanon(p, n);
    ValueStartRebased(p, ch, n, p.flags.trailing && p.upgrade);
    RebasedSameStep(p, OnValueStart(p, ch), n, OnValueStart(Canon(p, n), ch));
  }

  lemma DiscardWsCanon(p: Parser, ch: char, n: nat)
    requires p.state.HeaderValueDiscardWs?
    ensures SameStep(p, OnDiscardWs(p, ch), n, OnDiscardWs(Canon(p, n), ch))
  {
    hide OnValueStart;
    if ch in {' ', '\t', CR, LF} {
      hide SameStep;
      MatchingCanon(p, n);
      RebasedSameStep(p, OnDiscardWs(p, ch), n, OnDiscardWs(Canon(p, n), ch));
    } else {
      hide Canon;
      ValueStartCanon(p, ch, n);
    }
  }

  lemma ValueCanon(p: Parser, ch: char, n: nat)
    requires p.state.HeaderValue?
    ensures SameStep(p, OnValue(p, ch), n, OnValue(Canon(p, n), ch))
  {
    hide ValueByte;
    ValueByteRebased(p, n, p.flags.trailing && p.upgrade, ch);
  }

  lemma ValueLwsRebased(p: Parser, ch: char, n: nat, u: bool)
    ensures OnValueLws(Rebased(p, n, u), ch) == RebasedOut(OnValueLws(p, ch), n, u) && LineFrame(p, OnValueLws(p, ch))
  {}

  lemma DiscardLwsRebased(p: Parser, ch: char, n: nat, u: bool)
    ensures OnDiscardLws(Rebased(p, n, u), ch) == RebasedOut(OnDiscardLws(p, ch), n, u) && LineFrame(p, OnDiscardLws(p, ch))
  {}

  lemma LwsCanon(p: Parser, ch: char, n: nat)
    ensures p.state.HeaderValueLws? ==> SameStep(p, OnValueLws(p, ch), n, OnValueLws(Canon(p, n), ch))
    ensures p.state.HeaderValueDiscardLws? ==> SameStep(p, OnDiscardLws(p, ch), n, OnDiscardLws(Canon(p, n), ch))
  {
    hide OnValueLws, OnDiscardLws, Canon, SameStep, RebasedOut, LineFrame;
    var u := p.flags.trailing && p.upgrade;
    if p.state.HeaderValueLws? {
      MatchingCanon(p, n);
      ValueLwsRebased(p, ch, n, u);
      RebasedSameStep(p, OnValueLws(p, ch), n, OnValueLws(Canon(p, n), ch));
    } else if p.state.HeaderValueDiscardLws? {
      MatchingCanon(p, n);
      DiscardLwsRebased(p, ch, n, u);
      RebasedSameStep(p, OnDiscardLws(p, ch), n, OnDiscardLws(Canon(p, n), ch));
    }
  }

  lemma HeadersAlmostDoneCanon(p: Parser, ch: char, n: nat)
    requires p.state.HeadersAlmostDone?
    ensures SameStep(p, OnHeadersAlmostDone(p, ch), n, OnHeadersAlmostDone(Canon(p, n), ch))
  {}

  lemma HeadersDoneCanon(p: Parser, ch: char, n: nat)
    ensures p.state.HeadersDone? ==> SameStep(p, OnHeadersDone(p, ch), n, OnHeadersDone(Canon(p, n), ch))
    ensures p.state.MessageDone? ==> SameStep(p, OnMessageDone(p, ch), n, OnMessageDone(Canon(p, n), ch))
  {}

  lemma BodyIdentityCanon(p: Parser, ch: char, n: nat)
    requires p.state.BodyIdentity?
    ensures SameStep(p, OnBodyIdentity(p, ch), n, OnBodyIdentity(Canon(p, n), ch))
  {
    hide Wrap64;
    if Less(p, 1).contentLength == 0 { }
  }

  lemma ChunkBytesCanon(p: Parser, ch: char, n: nat)
    requires p.state.ChunkData?
    ensures SameStep(p, OnChunkData(p, ch), n, OnChunkData(Canon(p, n), ch))
  {
    hide Wrap64;
  }

  lemma ChunkDataCanon(p: Parser, ch: char, n: nat)
    requires p.state.ChunkData? || p.state.ChunkDataAlmostDone? || p.state.ChunkDataDone?
    ensures SameStep(p, OnChunkData(p, ch), n, OnChunkData(Canon(p, n), ch))
  {
    hide Less;
    if p.state.ChunkData? { ChunkBytesCanon(p, ch, n); }
  }

  lemma ChunkSizeCanon(p: Parser, ch: char, n: nat)
    requires p.state.ChunkSizeStart? || p.state.ChunkSize? || p.state.ChunkParameters? || p.state.ChunkSizeAlmostDone?
    ensures SameStep(p, OnChunkSize(p, ch), n, OnChunkSize(Canon(p, n), ch))
  {
    hide AddHex, Unhex;
    match p.state
    case ChunkSizeStart =>
    case ChunkSize =>
    case ChunkParameters =>
    case _ =>
  }

  // ---------------------------------------------------------------- the switch

  lemma RequestCanon(p: Parser, ch: char, n: nat)
    requires !InLine(p.state) && !InBody(p.state)
    ensures SameStep(p, SwitchRequest(p, ch), n, SwitchRequest(Canon(p, n), ch))
  {
    hide OnStart, OnMethod, ParseUrlChar, UrlTo, OnUrlRest, OnHttpStart, OnVersion, Expect;
    if p.state.StartReq? { StartCanon(p, ch, n); }
    else if p.state.ReqMethod? { MethodCanon(p, ch, n); }
    else if p.state.ReqSpacesBeforeUrl? {
      UrlCanon(p, [MarkAt(Url)], ParseUrlChar(if p.verb.CONNECT? then ReqServerStart else p.state, ch), n);
    }
    else if InUrl(p.state) { UrlCanon(p, [], ParseUrlChar(p.state, ch), n); UrlRestCanon(p, ch, n); }
    else if p.state.ReqHttpStart? { HttpStartCanon(p, ch, n); }
    else if InProtocol(p.state) { ProtocolsCanon(p, ch, n); }
    else if !p.state.Dead? { VersionCanon(p, ch, n); }
  }

  lemma ProtocolsCanon(p: Parser, ch: char, n: nat)
    requires InProtocol(p.state)
    ensures SameStep(p, SwitchRequest(p, ch), n, SwitchRequest(Canon(p, n), ch))
  {
    hide OnStart, OnMethod, OnSpacesBeforeUrl, ParseUrlChar, UrlTo, OnUrlRest, OnHttpStart, OnVersion, Expect, SameStep;
    assert Canon(p, n).state == p.state;
    match p.state
    case ReqHttpH => ProtocolCanon(p, ch == 'T', ReqHttpHT, n);
    case ReqHttpHT => ProtocolCanon(p, ch == 'T', ReqHttpHTT, n);
    case ReqHttpHTT => ProtocolCanon(p, ch == 'P', ReqHttpHTTP, n);
    case ReqHttpI => ProtocolCanon(p, ch == 'C', ReqHttpIC, n);
    case ReqHttpIC => ProtocolCanon(p, ch == 'E', ReqHttpHTTP, n);
    case _ => ProtocolCanon(p, ch == '/', ReqHttpMajor, n);
  }

  lemma LineCanon(p: Parser, ch: char, n: nat)
    requires InLine(p.state)
    ensures SameStep(p, SwitchLine(p, ch), n, SwitchLine(Canon(p, n), ch))
  {
    hide OnFieldStart, OnField, OnDiscardWs, OnDiscardLws, OnValueStart, OnValue, OnValueLws;
    match p.state
    case HeaderFieldStart => FieldStartCanon(p, ch, n);
    case HeaderField => FieldCanon(p, ch, n);
    case HeaderValueDiscardWs => DiscardWsCanon(p, ch, n);
    case HeaderValueDiscardLws => LwsCanon(p, ch, n);
    case HeaderValueStart => ValueStartCanon(p, ch, n);
    case HeaderValue => ValueCanon(p, ch, n);
    case HeaderValueLws => LwsCanon(p, ch, n);
    case _ =>
  }

  lemma BodyCanon(p: Parser, ch: char, n: nat)
    requires InBody(p.state)
    ensures SameStep(p, SwitchBody(p, ch), n, SwitchBody(Canon(p, n), ch))
  {
    hide OnHeadersAlmostDone, OnHeadersDone, OnMessageDone, OnBodyIdentity, OnChunkSize, OnChunkData, SameStep;
    assert Canon(p, n).state == p.state;
    if p.state.ChunkData? || p.state.ChunkDataAlmostDone? || p.state.ChunkDataDone? { ChunkDataCanon(p, ch, n); }
    else if InChunk(p.state) { ChunkSizeCanon(p, ch, n); }
    else if p.state.BodyIdentity? { BodyIdentityCanon(p, ch, n); }
    else if p.state.HeadersAlmostDone? { HeadersAlmostDoneCanon(p, ch, n); }
    else { HeadersDoneCanon(p, ch, n); }
  }

  lemma SwitchCanon(p: Parser, ch: char, n: nat)
    ensures SameStep(p, Switch(p, ch), n, Switch(Canon(p, n), ch))
  {
    hide SwitchRequest, SwitchLine, SwitchBody, SameStep;
    assert Canon(p, n).state == p.state;
    if InLine(p.state) { LineCanon(p, ch, n); }
    else if InBody(p.state) { BodyCanon(p, ch, n); }
    else { RequestCanon(p, ch, n); }
  }

  // ---------------------------------------------------------------- runs

  /** `a` has a past, the callbacks `past`, that `b` has not; otherwise they will behave alike for
      as long as `a` stays within the header budget. */
  predicate Echo(a: Machine, b: Machine, past: seq<Event>) {
    && Canon(a.p, 0) == Canon(b.p, 0) && b.p.nread <= a.p.nread
    && a.mark == b.mark && a.events == past + b.events
  }

  lemma CanonAt(p: Parser, n: nat)
    ensures Canon(p, n) == Canon(p, 0).(nread := n) && Canon(p, 0).state == p.state
  {}

  lemma CanonBudget(p: Parser, q: Parser, n: nat)
    requires Canon(p, 0) == Canon(q, 0)
    ensures Canon(p, n) == Canon(q, n) && p.state == q.state
  {
    hide Canon;
    CanonAt(p, n);
    CanonAt(q, n);
  }

  lemma SwitchEcho(p: Parser, q: Parser, ch: char)
    requires Canon(p, 0) == Canon(q, 0) && q.nread <= p.nread
    ensures var o, o' := Switch(p, ch), Switch(q, ch);
            o.acts == o'.acts && o.ctl == o'.ctl && Canon(o.p, 0) == Canon(o'.p, 0) && o'.p.nread <= o.p.nread
  {
    hide Switch, Canon;
    CanonBudget(p, q, 1);
    SwitchCanon(p, ch, 1);
    SwitchCanon(q, ch, 1);
  }

  lemma PerformEcho(a: Machine, b: Machine, past: seq<Event>, acts: seq<Act>, ch: char)
    requires a.mark == b.mark && a.events == past + b.events
    ensures var a', b' := PerformAll(a, acts, ch), PerformAll(b, acts, ch);
            a'.mark == b'.mark && a'.events == past + b'.events && a'.p == a.p && b'.p == b.p
    decreases acts
  {
    if acts != [] {
      var a1, b1 := Perform(a, acts[0], ch), Perform(b, acts[0], ch);
      assert a1.events == past + b1.events;
      PerformEcho(a1, b1, past, acts[1..], ch);
    }
  }

  lemma {:induction false} PassesEcho(a: Machine, b: Machine, past: seq<Event>, ch: char)
    requires Echo(a, b, past)
    ensures Passes(a, ch).ctl == Passes(b, ch).ctl && Echo(Passes(a, ch).m, Passes(b, ch).m, past)
    decreases Rank(a.p.state)
  {
    hide Switch, Canon, Rank;
    var o, o' := Switch(a.p, ch), Switch(b.p, ch);
    AgainDescends(a.p, ch);
    AgainDescends(b.p, ch);
    SwitchEcho(a.p, b.p, ch);
    PerformEcho(a.(p := o.p), b.(p := o'.p), past, o.acts, ch);
    if o.ctl.Again? { PassesEcho(PerformAll(a.(p := o.p), o.acts, ch), PerformAll(b.(p := o'.p), o'.acts, ch), past, ch); }
  }

  lemma CountedEcho(p: Parser, q: Parser)
    requires Canon(p, 0) == Canon(q, 0) && q.nread <= p.nread
    ensures Canon(Counted(p), 0) == Canon(Counted(q), 0) && Counted(q).nread <= Counted(p).nread
  {
    CanonBudget(p, q, 0);
  }

  lemma StepEcho(a: Machine, b: Machine, past: seq<Event>, ch: char)
    requires Echo(a, b, past) && StepByte(a, ch).ctl != Fail(HEADER_OVERFLOW)
    ensures StepByte(a, ch).ctl == StepByte(b, ch).ctl && Echo(StepByte(a, ch).m, StepByte(b, ch).m, past)
  {
    hide Passes, Canon;
    CanonBudget(a.p, b.p, 0);
    CountedEcho(a.p, b.p);
    PassesEcho(a.(p := Counted(a.p)), b.(p := Counted(b.p)), past, ch);
  }

  lemma {:induction false} RunEcho(a: Machine, b: Machine, past: seq<Event>, s: string)
    requires Echo(a, b, past) && Run(a, s).ctl != Fail(HEADER_OVERFLOW)
    ensures var r, r' := Run(a, s), Run(b, s);
            r.ctl == r'.ctl && r.consumed == r'.consumed && Echo(r.m, r'.m, past)
    decreases |s|
  {
    hide StepByte, Echo;
    if s != "" {
      StepEcho(a, b, past, s[0]);
      if StepByte(a, s[0]).ctl.Next? { RunEcho(StepByte(a, s[0]).m, StepByte(b, s[0]).m, past, s[1..]); }
    }
  }

  // ---------------------------------------------------------------- messages

  /** After any complete message on a connection that is kept open, further input has the effect it
      has on a fresh parser, within the header budget. */
  lemma FreshStart(p: Parser, past: seq<Event>, data: string)
    requires p.state.StartReq? && Execute(p, past, data).errno != HEADER_OVERFLOW
    ensures var r, r' := Execute(p, past, data), Execute(INITIAL, [], data);
            && r.errno == r'.errno && r.consumed == r'.consumed && r.exited == r'.exited
            && r.events == past + r'.events && Canon(r.p, 0) == Canon(r'.p, 0)
  {
    hide Run, Canon;
    if data == "" {
      assert Canon(p, 0) == Canon(INITIAL, 0) by { StartCanonical(p); }
      StartCanonical(p);
    } else {
      var a, b := Resume(p, past), Resume(INITIAL, []);
      StartCanonical(p);
      RunEcho(a, b, past, data);
      FinishedEcho(Run(a, data), Run(b, data), past);
    }
  }

  lemma StartCanonical(p: Parser)
    requires p.state.StartReq?
    ensures Canon(p, 0) == Canon(INITIAL, 0) && INITIAL.nread <= p.nread
    ensures forall past :: Resume(p, past).mark.Unmarked?
  {}

  lemma FinishedEcho(r: Result, r': Result, past: seq<Event>)
    requires r.ctl == r'.ctl && r.consumed == r'.consumed && Echo(r.m, r'.m, past)
    ensures var f, f' := Finished(r), Finished(r');
            && f.errno == f'.errno && f.consumed == f'.consumed && f.exited == f'.exited
            && f.events == past + f'.events && Canon(f.p, 0) == Canon(f'.p, 0)
  {
    hide Canon;
  }

  /** One or more complete requests, the connection staying open. */
  predicate Complete(message: string) {
    message != "" && var r := Execute(INITIAL, [], message); r.errno == OK && !r.exited && r.p.state.StartReq?
  }

  function Callbacks(messages: seq<string>): seq<Event> {
    if messages == [] then [] else Execute(INITIAL, [], messages[0]).events + Callbacks(messages[1..])
  }

  /** A cut between two messages is exact: no callback is pending there. */
  lemma CutAtStart(p: Parser, past: seq<Event>, a: string, b: string)
    requires ParserInv(p) && a != ""
    ensures var r := Execute(p, past, a);
            if r.errno == OK && !r.exited then
              ParserInv(r.p) && r.consumed == |a| &&
              (r.p.state.StartReq? && b != "" ==>
                var r' := Execute(r.p, r.events, b);
                Execute(p, past, a + b) == r'.(consumed := |a| + r'.consumed))
            else Execute(p, past, a + b) == r
  {
    hide Run, ParserInv, MachineInv;
    var m := Resume(p, past);
    ResumeInv(p, past);
    RunConcat(m, a, b);
    RunStops(m, a);
    var n := Run(m, a).m;
    if Run(m, a).ctl.Next? {
      RunKeepsInv(m, a);
      ParserInvAt(n);
      if n.p.state.StartReq? { StartUnmarked(n); }
    }
  }

  lemma StartUnmarked(m: Machine)
    requires MachineInv(m) && m.p.state.StartReq?
    ensures m.mark.Unmarked? && Resume(m.p, m.events) == m
  {}

  /** Pipelined requests are parsed as the sequence of their separate parses. */
  lemma {:induction false} Pipelined(p: Parser, past: seq<Event>, messages: seq<string>)
    requires ParserInv(p) && p.state.StartReq?
    requires forall m | m in messages :: Complete(m)
    requires Execute(p, past, Concat(messages)).errno != HEADER_OVERFLOW
    ensures var r := Execute(p, past, Concat(messages));
            && r.errno == OK && !r.exited && r.consumed == |Concat(messages)|
            && r.events == past + Callbacks(messages) && r.p.state.StartReq?
    decreases |messages|
  {
    hide ParserInv, Canon, Run, Resume;
    if messages == [] {
      assert past + [] == past;
    } else {
      var a, rest := messages[0], messages[1..];
      assert a in messages && forall m | m in rest :: m in messages;
      CutAtStart(p, past, a, Concat(rest));
      var r, r0 := Execute(p, past, a), Execute(INITIAL, [], a);
      assert r.errno != HEADER_OVERFLOW;
      FreshStart(p, past, a);
      CanonAt(r.p, 0);
      CanonAt(r0.p, 0);
      assert r.p.state.StartReq? && r.consumed == |a|;
      if rest == [] {
        assert a + Concat(rest) == a;
        assert r0.events + Callbacks(rest) == r0.events;
      } else {
        assert rest[0] in messages && Concat(rest)[0] == rest[0][0];
        Pipelined(r.p, r.events, rest);
        assert past + r0.events + Callbacks(rest) == past + (r0.events + Callbacks(rest));
      }
    }
  }
}
