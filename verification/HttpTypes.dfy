/** The data of the HTTP/1.x request parser: parser states, the mutable fields of
    `struct http_parser`, error codes, callbacks, and the character classes of strict mode.
    A byte is a `char` (its code is the byte's value), a buffer is a `string`. */
module HttpTypes {

  // ---------------------------------------------------------------- states

  /** `enum state` restricted to requests. */
  datatype State =
    | Dead | StartReq | ReqMethod | ReqSpacesBeforeUrl
    | ReqSchema | ReqSchemaSlash | ReqSchemaSlashSlash | ReqServerStart
    | ReqServer | ReqServerWithAt | ReqPath | ReqQueryStringStart | ReqQueryString
    | ReqFragmentStart | ReqFragment
    | ReqHttpStart | ReqHttpH | ReqHttpHT | ReqHttpHTT | ReqHttpHTTP | ReqHttpI | ReqHttpIC
    | ReqHttpMajor | ReqHttpDot | ReqHttpMinor | ReqHttpEnd | ReqLineAlmostDone
    | HeaderFieldStart | HeaderField
    | HeaderValueDiscardWs | HeaderValueDiscardWsAlmostDone | HeaderValueDiscardLws
    | HeaderValueStart | HeaderValue | HeaderValueLws | HeaderAlmostDone
    | ChunkSizeStart | ChunkSize | ChunkParameters | ChunkSizeAlmostDone
    | HeadersAlmostDone | HeadersDone
    | ChunkData | ChunkDataAlmostDone | ChunkDataDone
    | BodyIdentity | MessageDone

  /** PARSING_HEADER: every state up to `s_headers_done`. */
  predicate ParsingHeader(s: State) {
    !(s.ChunkData? || s.ChunkDataAlmostDone? || s.ChunkDataDone? || s.BodyIdentity? || s.MessageDone?)
  }

  /** `enum header_states`. */
  datatype HeaderState =
    | General | HC | HCO | HCON
    | MatchingConnection | MatchingProxyConnection | MatchingContentLength
    | MatchingTransferEncoding | MatchingUpgrade
    | Connection | ContentLength | ContentLengthNum | ContentLengthWs | TransferEncoding | Upgrade
    | TeTokenStart | TeMatchingChunked | TeToken
    | ConnTokenStart | ConnMatchingKeepAlive | ConnMatchingClose | ConnMatchingUpgrade | ConnToken
    | TeChunked | ConnKeepAlive | ConnClose | ConnUpgrade

  // ---------------------------------------------------------------- methods

  datatype Method =
    | DELETE | GET | HEAD | POST | PUT | CONNECT | OPTIONS | TRACE
    | COPY | LOCK | MKCOL | MOVE | PROPFIND | PROPPATCH | SEARCH | UNLOCK | BIND | REBIND | UNBIND | ACL
    | REPORT | MKACTIVITY | CHECKOUT | MERGE
    | MSEARCH | NOTIFY | SUBSCRIBE | UNSUBSCRIBE
    | PATCH | PURGE | MKCALENDAR | LINK | UNLINK | SOURCE

  /** `method_strings`. */
  function MethodString(m: Method): string {
    match m
    case DELETE => "DELETE" case GET => "GET" case HEAD => "HEAD" case POST => "POST" case PUT => "PUT"
    case CONNECT => "CONNECT" case OPTIONS => "OPTIONS" case TRACE => "TRACE"
    case COPY => "COPY" case LOCK => "LOCK" case MKCOL => "MKCOL" case MOVE => "MOVE"
    case PROPFIND => "PROPFIND" case PROPPATCH => "PROPPATCH" case SEARCH => "SEARCH"
    case UNLOCK => "UNLOCK" case BIND => "BIND" case REBIND => "REBIND" case UNBIND => "UNBIND" case ACL => "ACL"
    case REPORT => "REPORT" case MKACTIVITY => "MKACTIVITY" case CHECKOUT => "CHECKOUT" case MERGE => "MERGE"
    case MSEARCH => "M-SEARCH" case NOTIFY => "NOTIFY" case SUBSCRIBE => "SUBSCRIBE" case UNSUBSCRIBE => "UNSUBSCRIBE"
    case PATCH => "PATCH" case PURGE => "PURGE" case MKCALENDAR => "MKCALENDAR"
    case LINK => "LINK" case UNLINK => "UNLINK" case SOURCE => "SOURCE"
  }

  // ---------------------------------------------------------------- parser fields

  /** The bits of `flags`, plus the transfer-encoding bit of `extra_flags`. */
  datatype Flags = Flags(
    chunked: bool, keepAlive: bool, close: bool, connUpgrade: bool,
    trailing: bool, upgrade: bool, contentLength: bool, transferEncoding: bool)

  const NO_FLAGS := Flags(false, false, false, false, false, false, false, false)

  datatype Parser = Parser(
    state: State,
    headerState: HeaderState,
    index: nat,              // 5 bits wide
    flags: Flags,
    nread: nat,
    contentLength: nat,      // 64 bits wide, NO_LENGTH when absent
    major: nat,
    minor: nat,
    verb: Method,
    upgrade: bool)

  const TWO64 := 0x1_0000_0000_0000_0000
  const NO_LENGTH := 0xFFFF_FFFF_FFFF_FFFF      // ULLONG_MAX
  const MAX_HEADER_SIZE := 80 * 1024

  /** What `http_parser_init` leaves for a request parser. */
  const INITIAL := Parser(StartReq, General, 0, NO_FLAGS, 0, 0, 0, 0, DELETE, false)

  /** The index field is 5 bits wide. */
  function Inc(i: nat): nat { (i + 1) % 32 }

  /** 64-bit wrap-around. */
  function Wrap64(x: int): nat { x % 0x1_0000_0000_0000_0000 }

  // ---------------------------------------------------------------- outcomes

  datatype Errno =
    | OK | INVALID_EOF_STATE | HEADER_OVERFLOW | CLOSED_CONNECTION | INVALID_VERSION | INVALID_METHOD
    | INVALID_URL | LF_EXPECTED | INVALID_HEADER_TOKEN | INVALID_CONTENT_LENGTH | UNEXPECTED_CONTENT_LENGTH
    | INVALID_CHUNK_SIZE | INVALID_CONSTANT | STRICT | INVALID_TRANSFER_ENCODING
    | INCOMPLETE               // 0x7f, set by CHttpParser

  /** The four data callbacks a request parser can make. */
  datatype Kind = Url | Field | Value | Body

  /** A callback invocation, with what the callee can see of the parser where that matters. */
  datatype Event =
    | Data(kind: Kind, text: string)
    | MessageBegin
    | HeadersComplete(verb: Method, major: nat, minor: nat, upgrade: bool)
    | ChunkHeader(length: nat)
    | ChunkComplete
    | MessageComplete

  // ---------------------------------------------------------------- character classes

  const CR := '\r'
  const LF := '\n'
  const FF := 12 as char

  /** `c | 0x20` on a byte. */
  function Lower(c: char): char {
    if c as int < 256 && (c as int / 32) % 2 == 0 then (c as int + 32) as char else c
  }

  predicate IsNum(c: char) { '0' <= c <= '9' }
  predicate IsAlpha(c: char) { 'a' <= c <= 'z' || 'A' <= c <= 'Z' }
  predicate IsAlphaNum(c: char) { IsAlpha(c) || IsNum(c) }
  predicate IsHex(c: char) { IsNum(c) || 'a' <= c <= 'f' || 'A' <= c <= 'F' }
  predicate IsMark(c: char) { c in {'-', '_', '.', '!', '~', '*', '\'', '(', ')'} }
  predicate IsUserinfoChar(c: char) { IsAlphaNum(c) || IsMark(c) || c in {'%', ';', ':', '&', '=', '+', '$', ','} }
  predicate IsUrlChar(c: char) { '!' <= c <= '~' && c != '#' && c != '?' }
  predicate IsHostChar(c: char) { IsAlphaNum(c) || c == '.' || c == '-' }
  predicate IsHeaderChar(c: char) { c == CR || c == LF || c == '\t' || (c as int > 31 && c as int != 127) }

  /** `tokens[c]`: the lower-cased character of a token, NUL for every other byte. */
  function Token(c: char): char {
    if 'A' <= c <= 'Z' then (c as int + 32) as char
    else if 'a' <= c <= 'z' || IsNum(c) || c in {'!', '#', '$', '%', '&', '\'', '*', '+', '-', '.', '^', '_', '`', '|', '~'} then c
    else '\0'
  }

  /** `unhex[c]`: the digit's value, -1 for every other byte. */
  function Unhex(c: char): int {
    if IsNum(c) then c as int - '0' as int
    else if 'a' <= c <= 'f' then c as int - 'a' as int + 10
    else if 'A' <= c <= 'F' then c as int - 'A' as int + 10
    else -1
  }
}
