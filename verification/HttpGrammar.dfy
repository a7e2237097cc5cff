/** Character classes, parser record and outcome types of the HTTP/1.x parser in
    `luwu/luwu/http/http-parser/http_parser.c` (strict mode, the build default). */
module HttpGrammar {
  import Words

  type byte = Words.byte

  const CR: byte := 13
  const LF: byte := 10
  const TAB: byte := 9
  const SP: byte := 32

  /** 2^64 - 1: the "no length seen" sentinel of `content_length`. */
  const ULLONG_MAX: int := 0xFFFF_FFFF_FFFF_FFFF
  const UINT32_MOD: int := 0x1_0000_0000
  const MAX_HEADER_SIZE: int := 80 * 1024

  // ---------- character classes ----------

  /** `c | 0x20` on an unsigned char. */
  function Lower(c: byte): byte {
    if (c / 32) % 2 == 0 then c + 32 else c
  }

  predicate IsAlpha(c: byte) { 97 <= Lower(c) <= 122 }

  predicate IsNum(c: byte) { 48 <= c <= 57 }

  predicate IsAlphaNum(c: byte) { IsAlpha(c) || IsNum(c) }

  predicate IsHex(c: byte) { IsNum(c) || 97 <= Lower(c) <= 102 }

  predicate IsMark(c: byte) {
    c == '-' as int || c == '_' as int || c == '.' as int || c == '!' as int || c == '~' as int
    || c == '*' as int || c == '\'' as int || c == '(' as int || c == ')' as int
  }

  predicate IsUserinfoChar(c: byte) {
    IsAlphaNum(c) || IsMark(c) || c == '%' as int || c == ';' as int || c == ':' as int || c == '&' as int
    || c == '=' as int || c == '+' as int || c == '$' as int || c == ',' as int
  }

  predicate IsUrlChar(c: byte) { 33 <= c <= 126 && c != '#' as int && c != '?' as int }

  predicate IsHostChar(c: byte) { IsAlphaNum(c) || c == '.' as int || c == '-' as int }

  predicate IsHeaderChar(c: byte) { c == CR || c == LF || c == TAB || (c > 31 && c != 127) }

  predicate IsTokenPunctuation(c: byte) {
    c == '!' as int || c == '#' as int || c == '$' as int || c == '%' as int || c == '&' as int
    || c == '\'' as int || c == '*' as int || c == '+' as int || c == '-' as int || c == '.' as int
    || c == '^' as int || c == '_' as int || c == '`' as int || c == '|' as int || c == '~' as int
  }

  /** The lowercasing token table; 0 means "not a token character". */
  function Token(c: byte): byte {
    if 65 <= c <= 90 then c + 32
    else if 97 <= c <= 122 || IsNum(c) || IsTokenPunctuation(c) then c
    else 0
  }

  function Unhex(c: byte): int {
    if 48 <= c <= 57 then c - 48
    else if 65 <= c <= 70 then c - 55
    else if 97 <= c <= 102 then c - 87
    else -1
  }

  // ---------- states ----------

  datatype State =
    | Dead
    | StartReqOrRes | ResOrRespH
    | StartRes | ResH | ResHT | ResHTT | ResHTTP | ResHttpMajor | ResHttpDot | ResHttpMinor | ResHttpEnd
    | ResFirstStatusCode | ResStatusCode | ResStatusStart | ResStatus | ResLineAlmostDone
    | StartReq | ReqMethod | ReqSpacesBeforeUrl
    | ReqSchema | ReqSchemaSlash | ReqSchemaSlashSlash | ReqServerStart | ReqServer | ReqServerWithAt
    | ReqPath | ReqQueryStringStart | ReqQueryString | ReqFragmentStart | ReqFragment
    | ReqHttpStart | ReqHttpH | ReqHttpHT | ReqHttpHTT | ReqHttpHTTP | ReqHttpI | ReqHttpIC
    | ReqHttpMajor | ReqHttpDot | ReqHttpMinor | ReqHttpEnd | ReqLineAlmostDone
    | HeaderFieldStart | HeaderField | HeaderValueDiscardWs | HeaderValueDiscardWsAlmostDone
    | HeaderValueDiscardLws | HeaderValueStart | HeaderValue | HeaderValueLws | HeaderAlmostDone
    | ChunkSizeStart | ChunkSize | ChunkParameters | ChunkSizeAlmostDone
    | HeadersAlmostDone | HeadersDone
    | ChunkData | ChunkDataAlmostDone | ChunkDataDone
    | BodyIdentity | BodyIdentityEof | MessageDone

  /** `PARSING_HEADER`: every state up to and including `s_headers_done`. */
  predicate ParsingHeader(s: State) {
    !(s.ChunkData? || s.ChunkDataAlmostDone? || s.ChunkDataDone?
      || s.BodyIdentity? || s.BodyIdentityEof? || s.MessageDone?)
  }

  datatype HeaderState =
    | General | C | CO | CON
    | MatchingConnection | MatchingProxyConnection | MatchingContentLength
    | MatchingTransferEncoding | MatchingUpgrade
    | Connection | ContentLength | ContentLengthNum | ContentLengthWs | TransferEncoding | Upgrade
    | MatchingTransferEncodingChunked | MatchingConnectionTokenStart | MatchingConnectionKeepAlive
    | MatchingConnectionClose | MatchingConnectionUpgrade | MatchingConnectionToken
    | TransferEncodingChunked | ConnectionKeepAlive | ConnectionClose | ConnectionUpgrade

  datatype ParserType = Request | Response | Both

  datatype Flags = Flags(chunked: bool, keepAlive: bool, close: bool, connectionUpgrade: bool,
                         trailing: bool, upgrade: bool, skipBody: bool, contentLength: bool)

  const NO_FLAGS := Flags(false, false, false, false, false, false, false, false)

  datatype Errno =
    | Ok | InvalidEofState | HeaderOverflow | ClosedConnection | InvalidVersion | InvalidStatus
    | InvalidMethod | InvalidUrl | LfExpected | InvalidHeaderToken | InvalidContentLength
    | UnexpectedContentLength | InvalidChunkSize | InvalidConstant | Strict

  datatype Method =
    | DELETE | GET | HEAD | POST | PUT | CONNECT | OPTIONS | TRACE | COPY | LOCK | MKCOL | MOVE
    | PROPFIND | PROPPATCH | SEARCH | UNLOCK | BIND | REBIND | UNBIND | ACL | REPORT | MKACTIVITY
    | CHECKOUT | MERGE | MSEARCH | NOTIFY | SUBSCRIBE | UNSUBSCRIBE | PATCH | PURGE | MKCALENDAR
    | LINK | UNLINK | SOURCE

  function MethodString(m: Method): string {
    match m
    case DELETE => "DELETE" case GET => "GET" case HEAD => "HEAD" case POST => "POST"
    case PUT => "PUT" case CONNECT => "CONNECT" case OPTIONS => "OPTIONS" case TRACE => "TRACE"
    case COPY => "COPY" case LOCK => "LOCK" case MKCOL => "MKCOL" case MOVE => "MOVE"
    case PROPFIND => "PROPFIND" case PROPPATCH => "PROPPATCH" case SEARCH => "SEARCH"
    case UNLOCK => "UNLOCK" case BIND => "BIND" case REBIND => "REBIND" case UNBIND => "UNBIND"
    case ACL => "ACL" case REPORT => "REPORT" case MKACTIVITY => "MKACTIVITY"
    case CHECKOUT => "CHECKOUT" case MERGE => "MERGE" case MSEARCH => "M-SEARCH"
    case NOTIFY => "NOTIFY" case SUBSCRIBE => "SUBSCRIBE" case UNSUBSCRIBE => "UNSUBSCRIBE"
    case PATCH => "PATCH" case PURGE => "PURGE" case MKCALENDAR => "MKCALENDAR"
    case LINK => "LINK" case UNLINK => "UNLINK" case SOURCE => "SOURCE"
  }

  /** The `http_parser` struct. `nread` doubles as the local copy `http_parser_execute` keeps of it. */
  datatype Parser = Parser(
    typ: ParserType, flags: Flags, state: State, hstate: HeaderState, index: int, lenient: bool,
    nread: int, contentLength: int, major: int, minor: int, statusCode: int, meth: Method,
    errno: Errno, upgrade: bool)

  function Init(typ: ParserType, lenient: bool): Parser {
    Parser(typ, NO_FLAGS,
           match typ case Request => StartReq case Response => StartRes case Both => StartReqOrRes,
           General, 0, lenient, 0, 0, 0, 0, 0, DELETE, Ok, false)
  }

  // ---------- callbacks ----------

  /** The five data callbacks, each with its own mark. */
  datatype Kind = FieldData | ValueData | UrlData | BodyData | StatusData

  /** The notification callbacks; the chunk header callback reads the chunk length from the parser. */
  datatype Note = MessageBegin | HeadersComplete | MessageComplete | ChunkHeader(length: int) | ChunkComplete

  /** What a state handler asks for at the current byte, in order. */
  datatype Op =
    | Mark(kind: Kind)         // MARK
    | Emit(kind: Kind)         // CALLBACK_DATA: up to, not including, the current byte
    | EmitThrough(kind: Kind)  // CALLBACK_DATA_ with one extra byte
    | Notify(note: Note)

  datatype Status = Running | Failed | Left  // Left: the upgrade exits that return mid-buffer

  datatype Out = Out(q: Parser, ops: seq<Op>, status: Status)

  function Fail(q: Parser, e: Errno): Out { Out(q.(errno := e), [], Failed) }

  function Go(q: Parser, s: State): Out { Out(q.(state := s), [], Running) }

  /** `REEXECUTE`: what was asked for so far, followed by the next handler on the same byte. */
  function Then(ops: seq<Op>, o: Out): Out { o.(ops := ops + o.ops) }

  // ---------- keep-alive ----------

  predicate MessageNeedsEof(q: Parser) {
    if q.typ.Request? then false
    else if q.statusCode / 100 == 1 || q.statusCode == 204 || q.statusCode == 304 || q.flags.skipBody then false
    else !(q.flags.chunked || q.contentLength != ULLONG_MAX)
  }

  predicate ShouldKeepAlive(q: Parser) {
    && (if q.major > 0 && q.minor > 0 then !q.flags.close else q.flags.keepAlive)
    && !MessageNeedsEof(q)
  }

  function NewMessage(q: Parser): State {
    if ShouldKeepAlive(q) then (if q.typ.Request? then StartReq else StartRes) else Dead
  }
}
