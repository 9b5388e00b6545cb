/** One pass of the `switch` inside `http_parser_execute`, on one byte: the new parser fields,
    what it does to the callback marks, and where control goes next. The four states that scan
    runs of bytes in place appear here with the effect they have on a single byte; the scans
    themselves are in HttpExecute. */
module HttpSwitch {
  import opened HttpTypes

  /** MARK, CALLBACK_DATA (up to, or up to and including, the current byte), CALLBACK_NOTIFY. */
  datatype Act = MarkAt(kind: Kind) | Flush(kind: Kind) | FlushThrough(kind: Kind) | Notify(event: Event)

  /** `break` to the next byte, REEXECUTE, `goto error`, or the RETURN that leaves the rest of the
      stream to another protocol. */
  datatype Ctl = Next | Again | Fail(errno: Errno) | Exit

  datatype Out = Out(p: Parser, acts: seq<Act>, ctl: Ctl)

  function Stay(p: Parser): Out { Out(p, [], Next) }
  function To(p: Parser, s: State): Out { Out(p.(state := s), [], Next) }
  function Err(p: Parser, e: Errno): Out { Out(p, [], Fail(e)) }
  /** STRICT_CHECK, then a plain transition. */
  function Expect(p: Parser, ok: bool, e: Errno, s: State): Out {
    if ok then To(p, s) else Err(p, e)
  }

  // ---------------------------------------------------------------- keep-alive

  /** `http_should_keep_alive`; for requests `http_message_needs_eof` is always 0. */
  predicate ShouldKeepAlive(p: Parser) {
    if p.major > 0 && p.minor > 0 then !p.flags.close else p.flags.keepAlive
  }

  /** NEW_MESSAGE() in strict mode. */
  function NewMessage(p: Parser): State { if ShouldKeepAlive(p) then StartReq else Dead }

  // ---------------------------------------------------------------- request line

  function FirstMethod(ch: char): (r: Method) {
    match ch
    case 'A' => ACL case 'B' => BIND case 'C' => CONNECT case 'D' => DELETE case 'G' => GET
    case 'H' => HEAD case 'L' => LOCK case 'M' => MKCOL case 'N' => NOTIFY case 'O' => OPTIONS
    case 'P' => POST case 'R' => REPORT case 'S' => SUBSCRIBE case 'T' => TRACE
    case _ => UNLOCK
  }

  function OnStart(p: Parser, ch: char): Out {
    if ch == CR || ch == LF then Stay(p)
    else if ch !in {'A', 'B', 'C', 'D', 'G', 'H', 'L', 'M', 'N', 'O', 'P', 'R', 'S', 'T', 'U'} then
      Err(p, INVALID_METHOD)
    else
      Out(p.(state := ReqMethod, flags := NO_FLAGS, contentLength := NO_LENGTH, index := 1, verb := FirstMethod(ch)),
          [Notify(MessageBegin)], Next)
  }

  /** The table that moves to another method sharing the prefix read so far; `m` itself when no
      entry applies. */
  function SwitchMethod(m: Method, index: nat, ch: char): (r: Method)
    ensures r != m ==> index < |MethodString(r)|
  {
    match m
    case POST => if index != 1 then m else if ch == 'U' then PUT else if ch == 'A' then PATCH else if ch == 'R' then PROPFIND else m
    case PUT => if index == 2 && ch == 'R' then PURGE else m
    case CONNECT => if index == 1 && ch == 'H' then CHECKOUT else if index == 2 && ch == 'P' then COPY else m
    case MKCOL =>
      if index == 1 then (if ch == 'O' then MOVE else if ch == 'E' then MERGE else if ch == '-' then MSEARCH else m)
      else if index == 2 && ch == 'A' then MKACTIVITY
      else if index == 3 && ch == 'A' then MKCALENDAR
      else m
    case SUBSCRIBE => if index != 1 then m else if ch == 'E' then SEARCH else if ch == 'O' then SOURCE else m
    case REPORT => if index == 2 && ch == 'B' then REBIND else m
    case PROPFIND => if index == 4 && ch == 'P' then PROPPATCH else m
    case LOCK => if index == 1 && ch == 'I' then LINK else m
    case UNLOCK =>
      if index == 2 then (if ch == 'S' then UNSUBSCRIBE else if ch == 'B' then UNBIND else m)
      else if index == 3 && ch == 'I' then UNLINK
      else m
    case _ => m
  }

  /** `s[i]` with the terminating NUL of a C string. */
  function At(s: string, i: nat): char { if i < |s| then s[i] else '\0' }

  function OnMethod(p: Parser, ch: char): Out {
    if ch == '\0' then Err(p, INVALID_METHOD)
    else
      var expected := At(MethodString(p.verb), p.index);
      if ch == ' ' && expected == '\0' then To(p.(index := Inc(p.index)), ReqSpacesBeforeUrl)
      else if ch == expected then Stay(p.(index := Inc(p.index)))
      else
        var m := SwitchMethod(p.verb, p.index, ch);
        if m == p.verb then Err(p, INVALID_METHOD)
        else Stay(p.(verb := m, index := Inc(p.index)))
  }

  /** Inside the request target. */
  predicate InUrl(s: State) {
    s.ReqSchema? || s.ReqSchemaSlash? || s.ReqSchemaSlashSlash? || s.ReqServerStart? || s.ReqServer?
    || s.ReqServerWithAt? || s.ReqPath? || s.ReqQueryStringStart? || s.ReqQueryString?
    || s.ReqFragmentStart? || s.ReqFragment?
  }

  /** `parse_url_char`: the next URL state, `Dead` for a byte that cannot occur there. */
  function ParseUrlChar(s: State, ch: char): (r: State)
    ensures r.Dead? || InUrl(r)
  {
    if ch in {' ', CR, LF, '\t', FF} then Dead
    else match s
      case ReqSpacesBeforeUrl =>
        if ch == '/' || ch == '*' then ReqPath else if IsAlpha(ch) then ReqSchema else Dead
      case ReqSchema => if IsAlpha(ch) then s else if ch == ':' then ReqSchemaSlash else Dead
      case ReqSchemaSlash => if ch == '/' then ReqSchemaSlashSlash else Dead
      case ReqSchemaSlashSlash => if ch == '/' then ReqServerStart else Dead
      case ReqServerWithAt => if ch == '@' then Dead else ParseServerChar(ch)
      case ReqServerStart => ParseServerChar(ch)
      case ReqServer => ParseServerChar(ch)
      case ReqPath =>
        if IsUrlChar(ch) then s else if ch == '?' then ReqQueryStringStart else if ch == '#' then ReqFragmentStart else Dead
      case ReqQueryStringStart => ParseQueryChar(ch)
      case ReqQueryString => ParseQueryChar(ch)
      case ReqFragmentStart =>
        if IsUrlChar(ch) || ch == '?' then ReqFragment else if ch == '#' then s else Dead
      case ReqFragment => if IsUrlChar(ch) || ch == '?' || ch == '#' then s else Dead
      case _ => Dead
  }

  function ParseServerChar(ch: char): State {
    if ch == '/' then ReqPath
    else if ch == '?' then ReqQueryStringStart
    else if ch == '@' then ReqServerWithAt
    else if IsUserinfoChar(ch) || ch == '[' || ch == ']' then ReqServer
    else Dead
  }

  function ParseQueryChar(ch: char): State {
    if IsUrlChar(ch) || ch == '?' then ReqQueryString else if ch == '#' then ReqFragmentStart else Dead
  }

  function UrlTo(p: Parser, acts: seq<Act>, s: State): Out {
    if s.Dead? then Err(p, INVALID_URL) else Out(p.(state := s), acts, Next)
  }

  function OnSpacesBeforeUrl(p: Parser, ch: char): Out {
    if ch == ' ' then Stay(p)
    else UrlTo(p, [MarkAt(Url)], ParseUrlChar(if p.verb.CONNECT? then ReqServerStart else p.state, ch))
  }

  /** A URL byte in a state where the URL may end. */
  function OnUrlRest(p: Parser, ch: char): Out {
    if ch == ' ' then Out(p.(state := ReqHttpStart), [Flush(Url)], Next)
    else if ch == CR then Out(p.(state := ReqLineAlmostDone, major := 0, minor := 9), [Flush(Url)], Next)
    else if ch == LF then Out(p.(state := HeaderFieldStart, major := 0, minor := 9), [Flush(Url)], Next)
    else UrlTo(p, [], ParseUrlChar(p.state, ch))
  }

  function OnHttpStart(p: Parser, ch: char): Out {
    if ch == ' ' then Stay(p)
    else if ch == 'H' then To(p, ReqHttpH)
    else if ch == 'I' && p.verb.SOURCE? then To(p, ReqHttpI)
    else Err(p, INVALID_CONSTANT)
  }

  /** `s_req_http_major` to `s_req_line_almost_done`. */
  function OnVersion(p: Parser, ch: char): Out {
    match p.state
    case ReqHttpMajor =>
      if !IsNum(ch) then Err(p, INVALID_VERSION) else To(p.(major := ch as int - '0' as int), ReqHttpDot)
    case ReqHttpDot => Expect(p, ch == '.', INVALID_VERSION, ReqHttpMinor)
    case ReqHttpMinor =>
      if !IsNum(ch) then Err(p, INVALID_VERSION) else To(p.(minor := ch as int - '0' as int), ReqHttpEnd)
    case ReqHttpEnd =>
      if ch == CR then To(p, ReqLineAlmostDone)
      else if ch == LF then To(p, HeaderFieldStart)
      else Err(p, INVALID_VERSION)
    case _ => Expect(p, ch == LF, LF_EXPECTED, HeaderFieldStart)
  }

  // ---------------------------------------------------------------- header fields

  function OnFieldStart(p: Parser, ch: char): Out {
    if ch == CR then To(p, HeadersAlmostDone)
    else if ch == LF then Out(p.(state := HeadersAlmostDone), [], Again)
    else
      var c := Token(ch);
      if c == '\0' then Err(p, INVALID_HEADER_TOKEN)
      else
        var h := match c
          case 'c' => HC
          case 'p' => MatchingProxyConnection
          case 't' => MatchingTransferEncoding
          case 'u' => MatchingUpgrade
          case _ => General;
        Out(p.(state := HeaderField, index := 0, headerState := h), [MarkAt(Field)], Next)
  }

  const CONNECTION := "connection"
  const PROXY_CONNECTION := "proxy-connection"
  const CONTENT_LENGTH := "content-length"
  const TRANSFER_ENCODING := "transfer-encoding"
  const UPGRADE := "upgrade"
  const CHUNKED := "chunked"
  const KEEP_ALIVE := "keep-alive"
  const CLOSE := "close"

  /** One comparison against a literal: advance the index, give up on a mismatch, finish on the
      literal's last byte. */
  function Match(p: Parser, literal: string, c: char, mismatch: HeaderState, complete: HeaderState): Parser {
    var i := Inc(p.index);
    if i > |literal| || c != At(literal, i) then p.(index := i, headerState := mismatch)
    else if i == |literal| - 1 then p.(index := i, headerState := complete)
    else p.(index := i)
  }

  /** One byte `ch` of a field name, `c` being its token. */
  function FieldByte(p: Parser, ch: char, c: char): (q: Parser)
    ensures q == p.(index := q.index, headerState := q.headerState, flags := q.flags)
    ensures q.flags == p.flags.(transferEncoding := q.flags.transferEncoding)
  {
    match p.headerState
    case General => p
    case HC => p.(index := Inc(p.index), headerState := if c == 'o' then HCO else General)
    case HCO => p.(index := Inc(p.index), headerState := if c == 'n' then HCON else General)
    case HCON => p.(index := Inc(p.index),
                    headerState := if c == 'n' then MatchingConnection else if c == 't' then MatchingContentLength else General)
    case MatchingConnection => Match(p, CONNECTION, c, General, Connection)
    case MatchingProxyConnection => Match(p, PROXY_CONNECTION, c, General, Connection)
    case MatchingContentLength => Match(p, CONTENT_LENGTH, c, General, ContentLength)
    case MatchingTransferEncoding =>
      var q := Match(p, TRANSFER_ENCODING, c, General, TransferEncoding);
      if q.headerState.TransferEncoding? then q.(flags := q.flags.(transferEncoding := true)) else q
    case MatchingUpgrade => Match(p, UPGRADE, c, General, Upgrade)
    case _ => if ch != ' ' then p.(headerState := General) else p
  }

  function OnField(p: Parser, ch: char): Out {
    var c := Token(ch);
    if c != '\0' then Stay(FieldByte(p, ch, c))
    else if ch == ':' then Out(p.(state := HeaderValueDiscardWs), [Flush(Field)], Next)
    else Err(p, INVALID_HEADER_TOKEN)
  }

  // ---------------------------------------------------------------- header values

  function OnDiscardWs(p: Parser, ch: char): Out {
    if ch == ' ' || ch == '\t' then Stay(p)
    else if ch == CR then To(p, HeaderValueDiscardWsAlmostDone)
    else if ch == LF then To(p, HeaderValueDiscardLws)
    else OnValueStart(p, ch)
  }

  function BeginValue(p: Parser): Out { Out(p, [MarkAt(Value)], Next) }

  /** The first byte of a value, or of a folded continuation line. */
  function OnValueStart(p0: Parser, ch: char): Out {
    var p := p0.(state := HeaderValue, index := 0);
    var c := Lower(ch);
    match p.headerState
    case Upgrade => BeginValue(p.(flags := p.flags.(upgrade := true), headerState := General))
    case TransferEncoding => BeginValue(p.(headerState := if c == 'c' then TeMatchingChunked else TeToken))
    case TeTokenStart => BeginValue(p)
    case ContentLength =>
      if !IsNum(ch) then Err(p0, INVALID_CONTENT_LENGTH)
      else if p.flags.contentLength then Err(p0, UNEXPECTED_CONTENT_LENGTH)
      else BeginValue(p.(flags := p.flags.(contentLength := true), contentLength := ch as int - '0' as int,
                     headerState := ContentLengthNum))
    case ContentLengthWs => BeginValue(p)
    case Connection =>
      BeginValue(p.(headerState := if c == 'k' then ConnMatchingKeepAlive
                               else if c == 'c' then ConnMatchingClose
                               else if c == 'u' then ConnMatchingUpgrade
                               else ConnToken))
    case ConnTokenStart => BeginValue(p)
    case _ => BeginValue(p.(headerState := General))
  }

  /** The flag recorded by a connection token or a `chunked` coding once it is known to be complete. */
  function Recorded(f: Flags, h: HeaderState): Flags {
    match h
    case ConnKeepAlive => f.(keepAlive := true)
    case ConnClose => f.(close := true)
    case ConnUpgrade => f.(connUpgrade := true)
    case TeChunked => f.(chunked := true)
    case _ => f
  }

  /** A decimal digit of Content-Length; -1 on the conservative overflow test. */
  function AddDecimal(length: nat, ch: char): (t: int)
    requires IsNum(ch)
    ensures t == -1 || (t == length * 10 + (ch as int - '0' as int) && t < NO_LENGTH)
  {
    if (0xFFFF_FFFF_FFFF_FFFF - 10) / 10 < length then -1 else Wrap64(Wrap64(length * 10) + (ch as int - '0' as int))
  }

  datatype ValueOut = ValueOk(p: Parser) | ValueBad(errno: Errno)

  /** One byte of a Content-Length value. */
  function ContentLengthByte(p: Parser, ch: char): (r: ValueOut)
    ensures r.ValueBad? ==> r.errno != OK
    ensures r.ValueOk? ==> r.p == p.(headerState := r.p.headerState, contentLength := r.p.contentLength)
  {
    if p.headerState.ContentLengthWs? then (if ch == ' ' then ValueOk(p) else ValueBad(INVALID_CONTENT_LENGTH))
    else if ch == ' ' then ValueOk(if p.headerState.ContentLength? then p else p.(headerState := ContentLengthWs))
    else if !IsNum(ch) then ValueBad(INVALID_CONTENT_LENGTH)
    else
      var t := AddDecimal(p.contentLength, ch);
      if t < 0 then ValueBad(INVALID_CONTENT_LENGTH)
      else ValueOk(p.(contentLength := t, headerState := ContentLengthNum))
  }

  /** The next token of a comma-separated list, `other` being the state for unknown tokens. */
  function TokenStart(p: Parser, c: char, other: HeaderState): Parser {
    if other.TeToken? && c == 'c' then p.(headerState := TeMatchingChunked)
    else if other.ConnToken? && c == 'k' then p.(headerState := ConnMatchingKeepAlive)
    else if other.ConnToken? && c == 'c' then p.(headerState := ConnMatchingClose)
    else if other.ConnToken? && c == 'u' then p.(headerState := ConnMatchingUpgrade)
    else if Token(c) != '\0' then p.(headerState := other)
    else if c == ' ' || c == '\t' then p
    else p.(headerState := General)
  }

  /** One byte of a Transfer-Encoding value, `c` being its lower-case form. */
  function TransferByte(p: Parser, ch: char, c: char): Parser {
    match p.headerState
    case TeTokenStart => TokenStart(p, c, TeToken)
    case TeMatchingChunked => Match(p, CHUNKED, c, TeToken, TeChunked)
    case TeToken => if ch == ',' then p.(headerState := TeTokenStart, index := 0) else p
    case _ => if ch != ' ' then p.(headerState := TeToken) else p
  }

  /** One byte of a Connection value. */
  function ConnectionByte(p: Parser, ch: char, c: char): Parser {
    match p.headerState
    case ConnTokenStart => TokenStart(p, c, ConnToken)
    case ConnMatchingKeepAlive => Match(p, KEEP_ALIVE, c, ConnToken, ConnKeepAlive)
    case ConnMatchingClose => Match(p, CLOSE, c, ConnToken, ConnClose)
    case ConnMatchingUpgrade => Match(p, UPGRADE, c, ConnToken, ConnUpgrade)
    case ConnToken => if ch == ',' then p.(headerState := ConnTokenStart, index := 0) else p
    case _ => AfterConnToken(p, ch)
  }

  predicate CodingValue(h: HeaderState) { h.TeTokenStart? || h.TeMatchingChunked? || h.TeToken? || h.TeChunked? }

  /** The states of a Connection value. */
  predicate ConnState(h: HeaderState) {
    h.ConnTokenStart? || h.ConnMatchingKeepAlive? || h.ConnMatchingClose? || h.ConnMatchingUpgrade? || h.ConnToken?
    || h.ConnKeepAlive? || h.ConnClose? || h.ConnUpgrade?
  }

  lemma MatchFrame(p: Parser, literal: string, c: char, mismatch: HeaderState, complete: HeaderState)
    ensures var q := Match(p, literal, c, mismatch, complete); q == p.(index := q.index, headerState := q.headerState)
  {
    var i := Inc(p.index);
    if i > |literal| || c != At(literal, i) {
    } else if i == |literal| - 1 {
    }
  }

  lemma TokenFrame(p: Parser, ch: char, c: char, other: HeaderState)
    ensures var q := TokenStart(p, c, other); q == p.(headerState := q.headerState)
    ensures var q := AfterConnToken(p, ch);
            q == p.(index := q.index, headerState := q.headerState, flags := q.flags)
            && (q.flags == p.flags || q.flags == Recorded(p.flags, p.headerState))
  {
    hide Token, Recorded;
  }

  lemma RecordedFrame(f: Flags, h: HeaderState)
    requires !h.TeChunked?
    ensures var g := Recorded(f, h); g == f.(keepAlive := g.keepAlive, close := g.close, connUpgrade := g.connUpgrade)
  {
    match h
    case ConnKeepAlive =>
    case ConnClose =>
    case ConnUpgrade =>
    case _ =>
  }

  lemma TransferFrame(p: Parser, ch: char, c: char)
    ensures var q := TransferByte(p, ch, c); q == p.(index := q.index, headerState := q.headerState)
  {
    hide Match, TokenStart;
    MatchFrame(p, CHUNKED, c, TeToken, TeChunked);
    TokenFrame(p, ch, c, TeToken);
  }

  lemma ConnectionFrame(p: Parser, ch: char, c: char)
    requires ConnState(p.headerState)
    ensures var q := ConnectionByte(p, ch, c);
            q == p.(index := q.index, headerState := q.headerState, flags := q.flags)
            && q.flags == p.flags.(keepAlive := q.flags.keepAlive, close := q.flags.close, connUpgrade := q.flags.connUpgrade)
  {
    hide Match, TokenStart, AfterConnToken, Recorded;
    MatchFrame(p, KEEP_ALIVE, c, ConnToken, ConnKeepAlive);
    MatchFrame(p, CLOSE, c, ConnToken, ConnClose);
    MatchFrame(p, UPGRADE, c, ConnToken, ConnUpgrade);
    TokenFrame(p, ch, c, ConnToken);
    RecordedFrame(p.flags, p.headerState);
    match p.headerState
    case ConnTokenStart =>
    case ConnMatchingKeepAlive =>
    case ConnMatchingClose =>
    case ConnMatchingUpgrade =>
    case ConnToken =>
    case _ =>
  }

  predicate LengthValue(h: HeaderState) { h.ContentLength? || h.ContentLengthNum? || h.ContentLengthWs? }

  /** One byte of a value that is neither CR nor LF. */
  function ValueByte(p: Parser, ch: char): (r: ValueOut)
    ensures r.ValueBad? ==> r.errno != OK
    ensures r.ValueOk? ==> r.p.flags == p.flags.(keepAlive := r.p.flags.keepAlive, close := r.p.flags.close, connUpgrade := r.p.flags.connUpgrade)
    ensures r.ValueOk? ==>
              r.p == p.(index := r.p.index, headerState := r.p.headerState, flags := r.p.flags, contentLength := r.p.contentLength)
  {
    hide ContentLengthByte, TransferByte, ConnectionByte, Lower, IsHeaderChar;
    if !IsHeaderChar(ch) then ValueBad(INVALID_HEADER_TOKEN)
    else if LengthValue(p.headerState) then ContentLengthByte(p, ch)
    else if CodingValue(p.headerState) then
      TransferFrame(p, ch, Lower(ch));
      ValueOk(TransferByte(p, ch, Lower(ch)))
    else if ConnState(p.headerState) then
      ConnectionFrame(p, ch, Lower(ch));
      ValueOk(ConnectionByte(p, ch, Lower(ch)))
    else ValueOk(p.(headerState := General))
  }

  function AfterConnToken(p: Parser, ch: char): Parser {
    if ch == ',' then p.(flags := Recorded(p.flags, p.headerState), headerState := ConnTokenStart, index := 0)
    else if ch != ' ' then p.(headerState := ConnToken)
    else p
  }

  function OnValue(p: Parser, ch: char): Out {
    if ch == CR then Out(p.(state := HeaderAlmostDone), [Flush(Value)], Next)
    else if ch == LF then Out(p.(state := HeaderAlmostDone), [Flush(Value)], Again)
    else match ValueByte(p, ch)
      case ValueOk(q) => Stay(q)
      case ValueBad(e) => Err(p, e)
  }

  function OnValueLws(p: Parser, ch: char): Out {
    if ch == ' ' || ch == '\t' then
      Out(p.(state := HeaderValueStart,
             headerState := if p.headerState.ContentLengthNum? then ContentLengthWs else p.headerState), [], Again)
    else Out(p.(state := HeaderFieldStart, flags := Recorded(p.flags, p.headerState)), [], Again)
  }

  function OnDiscardLws(p: Parser, ch: char): Out {
    if ch == ' ' || ch == '\t' then To(p, HeaderValueDiscardWs)
    else if p.headerState.ContentLength? then Err(p, INVALID_CONTENT_LENGTH)
    else Out(p.(state := HeaderFieldStart, flags := Recorded(p.flags, p.headerState)),
             [MarkAt(Value), Flush(Value)], Again)
  }

  // ---------------------------------------------------------------- end of headers, bodies

  function OnHeadersAlmostDone(p: Parser, ch: char): Out {
    if ch != LF then Err(p, STRICT)
    else if p.flags.trailing then Out(p.(state := MessageDone), [Notify(ChunkComplete)], Again)
    else if p.flags.transferEncoding && p.flags.contentLength then Err(p, UNEXPECTED_CONTENT_LENGTH)
    else
      var u := (p.flags.upgrade && p.flags.connUpgrade) || p.verb.CONNECT?;
      Out(p.(state := HeadersDone, upgrade := u), [Notify(HeadersComplete(p.verb, p.major, p.minor, u))], Again)
  }

  function Finish(p: Parser, ctl: Ctl): Out {
    Out(p.(state := NewMessage(p)), [Notify(MessageComplete)], ctl)
  }

  predicate HasBody(p: Parser) {
    p.flags.chunked || (p.contentLength > 0 && p.contentLength != NO_LENGTH)
  }

  function OnHeadersDone(p0: Parser, ch: char): Out {
    if ch != LF then Err(p0, STRICT)
    else
      var p := p0.(nread := 0);
      if p.upgrade && (p.verb.CONNECT? || !HasBody(p)) then Finish(p, Exit)
      else if p.flags.chunked then To(p, ChunkSizeStart)
      else if p.flags.transferEncoding then Err(p, INVALID_TRANSFER_ENCODING)
      else if p.contentLength != 0 && p.contentLength != NO_LENGTH then To(p, BodyIdentity)
      else Finish(p, Next)
  }

  /** `content_length - n` on 64 bits. */
  function Less(p: Parser, n: nat): Parser { p.(contentLength := Wrap64(p.contentLength - n)) }

  function OnBodyIdentity(p: Parser, ch: char): Out {
    var q := Less(p, 1);
    if q.contentLength == 0 then Out(q.(state := MessageDone), [MarkAt(Body), FlushThrough(Body)], Again)
    else Out(q, [MarkAt(Body)], Next)
  }

  function OnMessageDone(p: Parser, ch: char): Out { Finish(p, if p.upgrade then Exit else Next) }

  /** A hexadecimal digit of a chunk size; -1 on the conservative overflow test. */
  function AddHex(length: nat, digit: nat): (t: int)
    requires digit < 16
    ensures t == -1 || (t == length * 16 + digit && t < NO_LENGTH)
  {
    if (0xFFFF_FFFF_FFFF_FFFF - 16) / 16 < length then -1 else Wrap64(Wrap64(length * 16) + digit)
  }

  function OnChunkSize(p: Parser, ch: char): Out {
    match p.state
    case ChunkSizeStart =>
      if Unhex(ch) == -1 then Err(p, INVALID_CHUNK_SIZE) else To(p.(contentLength := Unhex(ch)), ChunkSize)
    case ChunkSize =>
      if ch == CR then To(p, ChunkSizeAlmostDone)
      else if Unhex(ch) == -1 then
        (if ch == ';' || ch == ' ' then To(p, ChunkParameters) else Err(p, INVALID_CHUNK_SIZE))
      else
        var t := AddHex(p.contentLength, Unhex(ch));
        if t < 0 then Err(p, INVALID_CONTENT_LENGTH) else Stay(p.(contentLength := t))
    case ChunkParameters => if ch == CR then To(p, ChunkSizeAlmostDone) else Stay(p)
    case _ =>
      if ch != LF then Err(p, STRICT)
      else if p.contentLength == 0 then
        Out(p.(state := HeaderFieldStart, nread := 0, flags := p.flags.(trailing := true)), [Notify(ChunkHeader(0))], Next)
      else
        Out(p.(state := ChunkData, nread := 0), [Notify(ChunkHeader(p.contentLength))], Next)
  }

  function OnChunkData(p: Parser, ch: char): Out {
    match p.state
    case ChunkData =>
      var q := Less(p, 1);
      Out(if q.contentLength == 0 then q.(state := ChunkDataAlmostDone) else q, [MarkAt(Body)], Next)
    case ChunkDataAlmostDone =>
      if ch != CR then Err(p, STRICT) else Out(p.(state := ChunkDataDone), [Flush(Body)], Next)
    case _ =>
      if ch != LF then Err(p, STRICT) else Out(p.(state := ChunkSizeStart, nread := 0), [Notify(ChunkComplete)], Next)
  }

  // ---------------------------------------------------------------- the switch

  /** Reading a header line. */
  predicate InLine(s: State) {
    s.HeaderFieldStart? || s.HeaderField?
    || s.HeaderValueDiscardWs? || s.HeaderValueDiscardWsAlmostDone? || s.HeaderValueDiscardLws?
    || s.HeaderValueStart? || s.HeaderValue? || s.HeaderValueLws? || s.HeaderAlmostDone?
  }

  /** Past the last header line. */
  predicate InBody(s: State) {
    s.ChunkSizeStart? || s.ChunkSize? || s.ChunkParameters? || s.ChunkSizeAlmostDone?
    || s.HeadersAlmostDone? || s.HeadersDone?
    || s.ChunkData? || s.ChunkDataAlmostDone? || s.ChunkDataDone? || s.BodyIdentity? || s.MessageDone?
  }

  /** The request line, and between messages. */
  function SwitchRequest(p: Parser, ch: char): Out {
    match p.state
    case Dead => if ch == CR || ch == LF then Stay(p) else Err(p, CLOSED_CONNECTION)
    case StartReq => OnStart(p, ch)
    case ReqMethod => OnMethod(p, ch)
    case ReqSpacesBeforeUrl => OnSpacesBeforeUrl(p, ch)
    case ReqSchema => UrlTo(p, [], ParseUrlChar(p.state, ch))
    case ReqSchemaSlash => UrlTo(p, [], ParseUrlChar(p.state, ch))
    case ReqSchemaSlashSlash => UrlTo(p, [], ParseUrlChar(p.state, ch))
    case ReqServerStart => UrlTo(p, [], ParseUrlChar(p.state, ch))
    case ReqHttpStart => OnHttpStart(p, ch)
    case ReqHttpH => Expect(p, ch == 'T', STRICT, ReqHttpHT)
    case ReqHttpHT => Expect(p, ch == 'T', STRICT, ReqHttpHTT)
    case ReqHttpHTT => Expect(p, ch == 'P', STRICT, ReqHttpHTTP)
    case ReqHttpI => Expect(p, ch == 'C', STRICT, ReqHttpIC)
    case ReqHttpIC => Expect(p, ch == 'E', STRICT, ReqHttpHTTP)
    case ReqHttpHTTP => Expect(p, ch == '/', STRICT, ReqHttpMajor)
    case ReqHttpMajor => OnVersion(p, ch)
    case ReqHttpDot => OnVersion(p, ch)
    case ReqHttpMinor => OnVersion(p, ch)
    case ReqHttpEnd => OnVersion(p, ch)
    case ReqLineAlmostDone => OnVersion(p, ch)
    case _ => OnUrlRest(p, ch)
  }

  /** The header section and the trailers. */
  function SwitchLine(p: Parser, ch: char): Out {
    match p.state
    case HeaderField => OnField(p, ch)
    case HeaderValueDiscardWs => OnDiscardWs(p, ch)
    case HeaderValueDiscardWsAlmostDone => Expect(p, ch == LF, STRICT, HeaderValueDiscardLws)
    case HeaderValueDiscardLws => OnDiscardLws(p, ch)
    case HeaderValueStart => OnValueStart(p, ch)
    case HeaderValue => OnValue(p, ch)
    case HeaderValueLws => OnValueLws(p, ch)
    case HeaderAlmostDone => Expect(p, ch == LF, LF_EXPECTED, HeaderValueLws)
    case _ => OnFieldStart(p, ch)
  }

  function SwitchBody(p: Parser, ch: char): Out {
    match p.state
    case HeadersAlmostDone => OnHeadersAlmostDone(p, ch)
    case HeadersDone => OnHeadersDone(p, ch)
    case BodyIdentity => OnBodyIdentity(p, ch)
    case MessageDone => OnMessageDone(p, ch)
    case ChunkData => OnChunkData(p, ch)
    case ChunkDataAlmostDone => OnChunkData(p, ch)
    case ChunkDataDone => OnChunkData(p, ch)
    case _ => OnChunkSize(p, ch)
  }

  function Switch(p: Parser, ch: char): Out {
    if InLine(p.state) then SwitchLine(p, ch)
    else if InBody(p.state) then SwitchBody(p, ch)
    else SwitchRequest(p, ch)
  }

  /** REEXECUTE only ever moves to a state of smaller rank, so the jumps on one byte end. */
  function Rank(s: State): nat {
    match s
    case HeaderValueLws => 3 case HeaderValueDiscardLws => 3
    case HeaderFieldStart => 2
    case HeadersAlmostDone => 1 case HeaderValue => 1 case BodyIdentity => 1
    case _ => 0
  }

  /** What a byte can be read again in: never a state that scans, never the start of a chunk. */
  predicate Reread(s: State) {
    s.HeaderAlmostDone? || s.HeaderValueStart? || s.HeaderFieldStart? || s.HeadersAlmostDone? || s.HeadersDone? || s.MessageDone?
  }

  lemma RequestNeverAgain(p: Parser, ch: char)
    ensures !SwitchRequest(p, ch).ctl.Again?
  {
    hide ParseUrlChar, SwitchMethod, MethodString;
  }

  lemma AgainInLine(p: Parser, ch: char)
    requires InLine(p.state)
    ensures SwitchLine(p, ch).ctl.Again? ==> Rank(SwitchLine(p, ch).p.state) < Rank(p.state) && Reread(SwitchLine(p, ch).p.state)
  {
    hide FieldByte, ValueByte, Token, Recorded;
  }

  lemma AgainInBody(p: Parser, ch: char)
    ensures SwitchBody(p, ch).ctl.Again? ==> Rank(SwitchBody(p, ch).p.state) < Rank(p.state) && Reread(SwitchBody(p, ch).p.state)
  {
    hide AddHex, Unhex, ShouldKeepAlive, HasBody;
  }

  lemma AgainDescends(p: Parser, ch: char)
    ensures Switch(p, ch).ctl.Again? ==> Rank(Switch(p, ch).p.state) < Rank(p.state) && Reread(Switch(p, ch).p.state)
  {
    hide SwitchLine, SwitchBody, SwitchRequest, Rank, Reread;
    RequestNeverAgain(p, ch);
    if InLine(p.state) { AgainInLine(p, ch); }
    AgainInBody(p, ch);
  }
}
