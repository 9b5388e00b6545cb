/** The invariant behind the assertions of `http_parser_execute`: it holds of a fresh parser and
    after every byte of every input, so none of them can fire. */
module HttpInvariant {
  import opened HttpTypes
  import opened HttpSwitch
  import opened HttpRun

  /** The header states a field name can be in; `i` is the matcher's index. */
  predicate NameState(h: HeaderState, i: nat) {
    match h
    case General => true
    case HC => i == 0 case HCO => i == 1 case HCON => i == 2
    case MatchingConnection => 3 <= i < |CONNECTION| - 1
    case MatchingProxyConnection => i < |PROXY_CONNECTION| - 1
    case MatchingContentLength => 3 <= i < |CONTENT_LENGTH| - 1
    case MatchingTransferEncoding => i < |TRANSFER_ENCODING| - 1
    case MatchingUpgrade => i < |UPGRADE| - 1
    case Connection => true case ContentLength => true case TransferEncoding => true case Upgrade => true
    case _ => false
  }

  /** The header states a value can be in. */
  predicate ValueState(h: HeaderState, i: nat) {
    match h
    case General => true case ContentLengthNum => true case ContentLengthWs => true
    case TeTokenStart => i == 0 case TeMatchingChunked => i < |CHUNKED| - 1 case TeToken => true case TeChunked => true
    case ConnTokenStart => i == 0
    case ConnMatchingKeepAlive => i < |KEEP_ALIVE| - 1
    case ConnMatchingClose => i < |CLOSE| - 1
    case ConnMatchingUpgrade => i < |UPGRADE| - 1
    case ConnToken => true case ConnKeepAlive => true case ConnClose => true case ConnUpgrade => true
    case _ => false
  }

  predicate TeState(h: HeaderState) {
    h.TransferEncoding? || h.TeTokenStart? || h.TeMatchingChunked? || h.TeToken? || h.TeChunked?
  }

  predicate LengthState(h: HeaderState) { h.ContentLengthNum? || h.ContentLengthWs? }

  predicate HasLength(p: Parser) { 0 < p.contentLength < NO_LENGTH }

  /** Between two headers: the length is absent unless a Content-Length header was seen, and a
      `chunked` coding was seen only in a Transfer-Encoding header. */
  predicate HeadersInv(p: Parser) {
    && p.contentLength < TWO64
    && (p.flags.chunked ==> p.flags.transferEncoding)
    && (p.flags.trailing ==> p.flags.chunked && p.contentLength != NO_LENGTH)
    && (!p.flags.trailing && !p.flags.contentLength ==> p.contentLength == NO_LENGTH)
  }

  /** While a header line is being read. */
  predicate LineInv(p: Parser) {
    && HeadersInv(p)
    && (TeState(p.headerState) ==> p.flags.transferEncoding)
    && (LengthState(p.headerState) ==> p.flags.contentLength)
  }

  /** Past the headers of a chunked message. */
  predicate ChunkInv(p: Parser) {
    && p.contentLength < TWO64
    && p.flags.chunked && p.flags.transferEncoding && !p.flags.contentLength && !p.flags.trailing
  }

  /** Section 3.3.3 of RFC 7230: how the message just completed was framed. */
  predicate Framed(f: Flags) {
    && (f.transferEncoding ==> f.chunked)
    && (f.transferEncoding && f.contentLength ==> f.trailing)
  }

  predicate Idle(s: State) { s.Dead? || s.StartReq? }
  predicate InName(s: State) {
    s.HeaderField? || s.HeaderValueDiscardWs? || s.HeaderValueDiscardWsAlmostDone? || s.HeaderValueDiscardLws?
  }
  predicate InValue(s: State) {
    s.HeaderValueStart? || s.HeaderValue? || s.HeaderAlmostDone? || s.HeaderValueLws?
  }
  predicate InChunk(s: State) {
    s.ChunkSizeStart? || s.ChunkSize? || s.ChunkParameters? || s.ChunkSizeAlmostDone?
    || s.ChunkData? || s.ChunkDataAlmostDone? || s.ChunkDataDone?
  }
  predicate InRequestLine(s: State) {
    !Idle(s) && !InName(s) && !InValue(s) && !InChunk(s) && !s.HeaderFieldStart? && !s.HeadersAlmostDone?
    && !s.HeadersDone? && !s.BodyIdentity? && !s.MessageDone?
  }

  predicate StateInv(p: Parser) {
    var s := p.state;
    && p.index < 32
    && (Idle(s) && !p.upgrade ==> Framed(p.flags))
    && (InRequestLine(s) ==> p.contentLength == NO_LENGTH && p.flags == NO_FLAGS)
    && (s.ReqMethod? ==> p.index <= |MethodString(p.verb)|)
    && (s.HeaderFieldStart? || s.HeadersAlmostDone? ==> HeadersInv(p))
    && (InName(s) ==> LineInv(p) && NameState(p.headerState, p.index))
    && (InValue(s) ==> LineInv(p) && ValueState(p.headerState, p.index))
    && (s.HeadersDone? ==>
          HeadersInv(p) && !p.flags.trailing && !(p.flags.transferEncoding && p.flags.contentLength))
    && (InChunk(s) ==> ChunkInv(p))
    && (s.ChunkSize? || s.ChunkParameters? || s.ChunkSizeAlmostDone? ==> p.contentLength != NO_LENGTH)
    && (s.ChunkData? ==> HasLength(p))
    && (s.ChunkDataAlmostDone? ==> p.contentLength == 0)
    && (s.BodyIdentity? ==>
          HasLength(p) && p.flags.contentLength && !p.flags.transferEncoding && !p.flags.chunked)
    && (s.MessageDone? ==> Framed(p.flags))
  }

  predicate Kept(o: Out) { !o.ctl.Fail? ==> StateInv(o.p) }

  /** A matcher inside its literal moves on by one, and leaves the matching state at the last byte. */
  lemma MatchAdvances(p: Parser, literal: string, c: char, mismatch: HeaderState, complete: HeaderState)
    requires p.index < |literal| - 1 < 31
    ensures var q := Match(p, literal, c, mismatch, complete);
            && q == p.(index := p.index + 1, headerState := q.headerState)
            && (q.headerState == complete || q.headerState == mismatch
                || (q.headerState == p.headerState && q.index < |literal| - 1))
  {}

  lemma FieldByteKeepsInv(p: Parser, ch: char, c: char)
    requires LineInv(p) && NameState(p.headerState, p.index) && p.index < 32
    ensures var q := FieldByte(p, ch, c);
            q.state == p.state && LineInv(q) && NameState(q.headerState, q.index) && q.index < 32
  {
    hide Match;
    match p.headerState
    case MatchingConnection => MatchAdvances(p, CONNECTION, c, General, Connection);
    case MatchingProxyConnection => MatchAdvances(p, PROXY_CONNECTION, c, General, Connection);
    case MatchingContentLength => MatchAdvances(p, CONTENT_LENGTH, c, General, ContentLength);
    case MatchingTransferEncoding => MatchAdvances(p, TRANSFER_ENCODING, c, General, TransferEncoding);
    case MatchingUpgrade => MatchAdvances(p, UPGRADE, c, General, Upgrade);
    case _ =>
  }

  lemma LengthByteKeepsInv(p: Parser, ch: char)
    requires LineInv(p) && LengthState(p.headerState)
    ensures var r := ContentLengthByte(p, ch);
            r.ValueOk? ==> LineInv(r.p) && LengthState(r.p.headerState) && r.p == p.(contentLength := r.p.contentLength, headerState := r.p.headerState)
  {}

  lemma ListKeepsInv(p: Parser, ch: char, other: HeaderState)
    requires LineInv(p) && ValueState(p.headerState, p.index)
    requires other.ConnToken? || (other.TeToken? && p.headerState.TeTokenStart?)
    ensures var q := TokenStart(p, ch, other);
            p.index == 0 ==> q == p.(headerState := q.headerState) && LineInv(q) && ValueState(q.headerState, q.index)
    ensures var q := AfterConnToken(p, ch);
            p.headerState in {ConnKeepAlive, ConnClose, ConnUpgrade} ==>
              q.state == p.state && LineInv(q) && ValueState(q.headerState, q.index) && q.index <= p.index
  {
    hide Token;
  }

  predicate ValueKept(p: Parser, r: ValueOut) {
    r.ValueOk? ==> r.p.state == p.state && LineInv(r.p) && ValueState(r.p.headerState, r.p.index) && r.p.index < 32
  }

  lemma ConnectionKept(p: Parser, ch: char, c: char)
    requires LineInv(p) && ValueState(p.headerState, p.index) && p.index < 32 && ConnState(p.headerState)
    ensures ValueKept(p, ValueOk(ConnectionByte(p, ch, c)))
  {
    hide Match, Token, TokenStart, AfterConnToken;
    match p.headerState
    case ConnTokenStart => ListKeepsInv(p, c, ConnToken);
    case ConnToken =>
    case ConnMatchingKeepAlive => MatchAdvances(p, KEEP_ALIVE, c, ConnToken, ConnKeepAlive);
    case ConnMatchingClose => MatchAdvances(p, CLOSE, c, ConnToken, ConnClose);
    case ConnMatchingUpgrade => MatchAdvances(p, UPGRADE, c, ConnToken, ConnUpgrade);
    case _ => ListKeepsInv(p, ch, ConnToken);
  }

  lemma ConnByteKeepsInv(p: Parser, ch: char)
    requires LineInv(p) && ValueState(p.headerState, p.index) && p.index < 32 && ConnState(p.headerState)
    ensures ValueKept(p, ValueByte(p, ch))
  {
    hide ConnectionByte, Lower, IsHeaderChar, ValueKept, LineInv, ValueState, ContentLengthByte, TransferByte;
    ConnectionKept(p, ch, Lower(ch));
    assert ValueKept(p, ValueBad(INVALID_HEADER_TOKEN)) by { BadKept(p); }
  }

  lemma BadKept(p: Parser)
    ensures ValueKept(p, ValueBad(INVALID_HEADER_TOKEN))
  {}

  lemma ValueByteKeepsInv(p: Parser, ch: char)
    requires LineInv(p) && ValueState(p.headerState, p.index) && p.index < 32
    ensures ValueKept(p, ValueByte(p, ch))
  {
    hide Match, Token, Lower, IsHeaderChar, ContentLengthByte, TokenStart, AfterConnToken;
    if ConnState(p.headerState) {
      ConnByteKeepsInv(p, ch);
    } else if LengthState(p.headerState) {
      LengthByteKeepsInv(p, ch);
    } else if p.headerState.TeTokenStart? {
      ListKeepsInv(p, Lower(ch), TeToken);
    } else if p.headerState.TeMatchingChunked? {
      MatchAdvances(p, CHUNKED, Lower(ch), TeToken, TeChunked);
    }
  }

  lemma ValueStartKeepsInv(p: Parser, ch: char)
    requires p.state.HeaderValueDiscardWs? || p.state.HeaderValueStart?
    requires StateInv(p)
    ensures Kept(OnValueStart(p, ch))
  {
    hide Lower, NameState, ChunkInv, Framed, HasLength, MethodString;
    match p.headerState
    case Upgrade =>
    case TransferEncoding =>
    case ContentLength =>
    case Connection =>
    case _ =>
  }

  // ---------------------------------------------------------------- the handlers, one by one

  lemma StartKeepsInv(p: Parser, ch: char)
    requires StateInv(p) && p.state.StartReq?
    ensures Kept(OnStart(p, ch))
  {}

  lemma MethodKeepsInv(p: Parser, ch: char)
    requires StateInv(p) && p.state.ReqMethod?
    ensures Kept(OnMethod(p, ch))
  {
    hide MethodString, SwitchMethod;
  }

  lemma UrlStateKeepsInv(p: Parser, s: State)
    requires StateInv(p) && (p.state.ReqSpacesBeforeUrl? || InUrl(p.state))
    requires InUrl(s)
    ensures StateInv(p.(state := s))
  {
    hide HeadersInv, LineInv, ChunkInv, Framed, HasLength, NameState, ValueState, MethodString;
  }

  lemma UrlKeepsInv(p: Parser, ch: char)
    requires StateInv(p) && (p.state.ReqSpacesBeforeUrl? || InUrl(p.state))
    ensures Kept(OnSpacesBeforeUrl(p, ch))
    ensures Kept(UrlTo(p, [], ParseUrlChar(p.state, ch)))
  {
    hide ParseUrlChar, StateInv;
    var s := ParseUrlChar(p.state, ch);
    if !s.Dead? { UrlStateKeepsInv(p, s); }
    var t := ParseUrlChar(if p.verb.CONNECT? then ReqServerStart else p.state, ch);
    if !t.Dead? { UrlStateKeepsInv(p, t); }
  }

  lemma UrlRestKeepsInv(p: Parser, ch: char)
    requires StateInv(p) && InUrl(p.state)
    ensures Kept(OnUrlRest(p, ch))
  {
    hide ParseUrlChar, UrlTo;
    UrlKeepsInv(p, ch);
  }

  lemma HttpStartKeepsInv(p: Parser, ch: char)
    requires StateInv(p) && p.state.ReqHttpStart?
    ensures Kept(OnHttpStart(p, ch))
  {}

  lemma VersionKeepsInv(p: Parser, ch: char)
    requires StateInv(p) && InRequestLine(p.state)
    ensures Kept(OnVersion(p, ch))
  {}

  lemma FieldStartKeepsInv(p: Parser, ch: char)
    requires StateInv(p) && p.state.HeaderFieldStart?
    ensures Kept(OnFieldStart(p, ch))
  {
    hide Token;
  }

  lemma FieldKeepsInv(p: Parser, ch: char)
    requires StateInv(p) && p.state.HeaderField?
    ensures Kept(OnField(p, ch))
  {
    hide FieldByte, Token, ValueState, ChunkInv, Framed, HasLength, MethodString;
    FieldByteKeepsInv(p, ch, Token(ch));
  }

  lemma DiscardKeepsInv(p: Parser, ch: char)
    requires StateInv(p)
    ensures p.state.HeaderValueDiscardWs? ==> Kept(OnDiscardWs(p, ch))
    ensures p.state.HeaderValueDiscardLws? ==> Kept(OnDiscardLws(p, ch))
  {
    hide OnValueStart;
    if p.state.HeaderValueDiscardWs? { ValueStartKeepsInv(p, ch); }
  }

  lemma ValueKeepsInv(p: Parser, ch: char)
    requires StateInv(p) && p.state.HeaderValue?
    ensures Kept(OnValue(p, ch))
  {
    hide ValueByte;
    ValueByteKeepsInv(p, ch);
  }

  lemma ValueLwsKeepsInv(p: Parser, ch: char)
    requires StateInv(p) && p.state.HeaderValueLws?
    ensures Kept(OnValueLws(p, ch))
  {
    hide NameState, ChunkInv, Framed, HasLength, MethodString;
    if ch == ' ' || ch == '\t' {
    } else {
      match p.headerState
      case ConnKeepAlive =>
      case ConnClose =>
      case ConnUpgrade =>
      case TeChunked =>
      case _ =>
    }
  }

  lemma HeadersEndKeepsInv(p: Parser, ch: char)
    requires StateInv(p)
    ensures p.state.HeadersAlmostDone? ==> Kept(OnHeadersAlmostDone(p, ch))
    ensures p.state.HeadersDone? ==> Kept(OnHeadersDone(p, ch))
    ensures p.state.MessageDone? ==> Kept(OnMessageDone(p, ch))
  {
    hide ShouldKeepAlive;
  }

  lemma BodyKeepsInv(p: Parser, ch: char)
    requires StateInv(p)
    ensures p.state.BodyIdentity? ==> Kept(OnBodyIdentity(p, ch))
    ensures p.state.ChunkData? || p.state.ChunkDataAlmostDone? || p.state.ChunkDataDone? ==> Kept(OnChunkData(p, ch))
  {
    hide NameState, ValueState, LineInv, HeadersInv, MethodString;
  }

  lemma ChunkSizeKeepsInv(p: Parser, ch: char)
    requires StateInv(p)
    requires p.state.ChunkSizeStart? || p.state.ChunkSize? || p.state.ChunkParameters? || p.state.ChunkSizeAlmostDone?
    ensures Kept(OnChunkSize(p, ch))
  {
    hide AddHex;
  }

  // ---------------------------------------------------------------- the switch

  lemma RequestKeepsInv(p: Parser, ch: char)
    requires StateInv(p) && !InLine(p.state) && !InBody(p.state)
    ensures Kept(SwitchRequest(p, ch))
  {
    hide OnStart, OnMethod, OnSpacesBeforeUrl, ParseUrlChar, UrlTo, OnUrlRest, OnHttpStart, OnVersion;
    if p.state.StartReq? { StartKeepsInv(p, ch); }
    else if p.state.ReqMethod? { MethodKeepsInv(p, ch); }
    else if p.state.ReqSpacesBeforeUrl? { UrlKeepsInv(p, ch); }
    else if InUrl(p.state) { UrlKeepsInv(p, ch); UrlRestKeepsInv(p, ch); }
    else if p.state.ReqHttpStart? { HttpStartKeepsInv(p, ch); }
    else if !p.state.Dead? { VersionKeepsInv(p, ch); }
  }

  lemma LineKeepsInv(p: Parser, ch: char)
    requires StateInv(p) && InLine(p.state)
    ensures Kept(SwitchLine(p, ch))
  {
    hide OnFieldStart, OnField, OnDiscardWs, OnDiscardLws, OnValueStart, OnValue, OnValueLws;
    match p.state
    case HeaderFieldStart => FieldStartKeepsInv(p, ch);
    case HeaderField => FieldKeepsInv(p, ch);
    case HeaderValueDiscardWs => DiscardKeepsInv(p, ch);
    case HeaderValueDiscardLws => DiscardKeepsInv(p, ch);
    case HeaderValueStart => ValueStartKeepsInv(p, ch);
    case HeaderValue => ValueKeepsInv(p, ch);
    case HeaderValueLws => ValueLwsKeepsInv(p, ch);
    case _ =>
  }

  lemma EndKeepsInv(p: Parser, ch: char)
    requires StateInv(p) && InBody(p.state)
    ensures Kept(SwitchBody(p, ch))
  {
    hide StateInv, OnHeadersAlmostDone, OnHeadersDone, OnMessageDone, OnBodyIdentity, OnChunkSize, OnChunkData;
    HeadersEndKeepsInv(p, ch);
    BodyKeepsInv(p, ch);
    if p.state.ChunkSizeStart? || p.state.ChunkSize? || p.state.ChunkParameters? || p.state.ChunkSizeAlmostDone? {
      ChunkSizeKeepsInv(p, ch);
    }
  }

  lemma SwitchKeepsInv(p: Parser, ch: char)
    requires StateInv(p)
    ensures Kept(Switch(p, ch))
  {
    hide StateInv, SwitchRequest, SwitchLine, SwitchBody;
    if InLine(p.state) { LineKeepsInv(p, ch); }
    else if InBody(p.state) { EndKeepsInv(p, ch); }
    else { RequestKeepsInv(p, ch); }
  }
}
