/** The state handlers of `http_parser_execute`, one byte at a time: the reference semantics. */
module HttpStep {
  import opened HttpGrammar

  // ---------- URL characters ----------

  function ParseUrlChar(s: State, ch: byte): State {
    if ch == SP || ch == CR || ch == LF || ch == TAB || ch == 12 then Dead
    else match s
      case ReqSpacesBeforeUrl =>
        if ch == '/' as int || ch == '*' as int then ReqPath
        else if IsAlpha(ch) then ReqSchema else Dead
      case ReqSchema =>
        if IsAlpha(ch) then s else if ch == ':' as int then ReqSchemaSlash else Dead
      case ReqSchemaSlash => if ch == '/' as int then ReqSchemaSlashSlash else Dead
      case ReqSchemaSlashSlash => if ch == '/' as int then ReqServerStart else Dead
      case ReqServerWithAt => if ch == '@' as int then Dead else ServerChar(ch)
      case ReqServerStart => ServerChar(ch)
      case ReqServer => ServerChar(ch)
      case ReqPath =>
        if IsUrlChar(ch) then s
        else if ch == '?' as int then ReqQueryStringStart
        else if ch == '#' as int then ReqFragmentStart else Dead
      case ReqQueryStringStart => QueryChar(ch)
      case ReqQueryString => QueryChar(ch)
      case ReqFragmentStart =>
        if IsUrlChar(ch) || ch == '?' as int then ReqFragment else if ch == '#' as int then s else Dead
      case ReqFragment =>
        if IsUrlChar(ch) || ch == '?' as int || ch == '#' as int then s else Dead
      case _ => Dead
  }

  function ServerChar(ch: byte): State {
    if ch == '/' as int then ReqPath
    else if ch == '?' as int then ReqQueryStringStart
    else if ch == '@' as int then ReqServerWithAt
    else if IsUserinfoChar(ch) || ch == '[' as int || ch == ']' as int then ReqServer
    else Dead
  }

  function QueryChar(ch: byte): State {
    if IsUrlChar(ch) || ch == '?' as int then ReqQueryString
    else if ch == '#' as int then ReqFragmentStart else Dead
  }

  // ---------- status line ----------

  predicate ResponseLineState(s: State) {
    s.StartReqOrRes? || s.ResOrRespH? || s.StartRes? || s.ResH? || s.ResHT? || s.ResHTT? || s.ResHTTP?
    || s.ResHttpMajor? || s.ResHttpDot? || s.ResHttpMinor? || s.ResHttpEnd? || s.ResFirstStatusCode?
    || s.ResStatusCode? || s.ResStatusStart? || s.ResStatus? || s.ResLineAlmostDone?
  }

  function Expect(q: Parser, ok: bool, e: Errno, s: State): Out {
    if ok then Go(q, s) else Fail(q, e)
  }

  function OnStatus(q: Parser, ch: byte): Out {
    if ch == CR then Out(q.(state := ResLineAlmostDone), [Emit(StatusData)], Running)
    else if ch == LF then Out(q.(state := HeaderFieldStart), [Emit(StatusData)], Running)
    else Go(q, ResStatus)
  }

  function OnStatusStart(q: Parser, ch: byte): Out {
    var q := q.(state := ResStatus, index := 0);
    if ch == CR || ch == LF then Then([Mark(StatusData)], OnStatus(q, ch))
    else Out(q, [Mark(StatusData)], Running)
  }

  function OnStatusCode(q: Parser, ch: byte): Out {
    if !IsNum(ch) then
      if ch == SP then Go(q, ResStatusStart)
      else if ch == CR || ch == LF then OnStatusStart(q.(state := ResStatusStart), ch)
      else Fail(q, InvalidStatus)
    else
      var q := q.(statusCode := q.statusCode * 10 + (ch - 48));
      if q.statusCode > 999 then Fail(q, InvalidStatus) else Go(q, ResStatusCode)
  }

  function OnResponseLine(q: Parser, ch: byte): Out
    requires ResponseLineState(q.state)
  {
    match q.state
    case StartReqOrRes =>
      if ch == CR || ch == LF then Go(q, StartReqOrRes)
      else
        var q := q.(flags := NO_FLAGS, contentLength := ULLONG_MAX);
        if ch == 'H' as int then Out(q.(state := ResOrRespH), [Notify(MessageBegin)], Running)
        else OnStartReq(q.(typ := Request, state := StartReq), ch)
    case ResOrRespH =>
      if ch == 'T' as int then Go(q.(typ := Response), ResHT)
      else if ch != 'E' as int then Fail(q, InvalidConstant)
      else Go(q.(typ := Request, meth := HEAD, index := 2), ReqMethod)
    case StartRes =>
      if ch == CR || ch == LF then Go(q, StartRes)
      else
        var q := q.(flags := NO_FLAGS, contentLength := ULLONG_MAX);
        if ch == 'H' as int then Out(q.(state := ResH), [Notify(MessageBegin)], Running)
        else Fail(q, InvalidConstant)
    case ResH => Expect(q, ch == 'T' as int, Strict, ResHT)
    case ResHT => Expect(q, ch == 'T' as int, Strict, ResHTT)
    case ResHTT => Expect(q, ch == 'P' as int, Strict, ResHTTP)
    case ResHTTP => Expect(q, ch == '/' as int, Strict, ResHttpMajor)
    case ResHttpMajor => if IsNum(ch) then Go(q.(major := ch - 48), ResHttpDot) else Fail(q, InvalidVersion)
    case ResHttpDot => Expect(q, ch == '.' as int, InvalidVersion, ResHttpMinor)
    case ResHttpMinor => if IsNum(ch) then Go(q.(minor := ch - 48), ResHttpEnd) else Fail(q, InvalidVersion)
    case ResHttpEnd => Expect(q, ch == SP, InvalidVersion, ResFirstStatusCode)
    case ResFirstStatusCode =>
      if IsNum(ch) then Go(q.(statusCode := ch - 48), ResStatusCode)
      else Expect(q, ch == SP, InvalidStatus, ResFirstStatusCode)
    case ResStatusCode => OnStatusCode(q, ch)
    case ResStatusStart => OnStatusStart(q, ch)
    case ResStatus => OnStatus(q, ch)
    case ResLineAlmostDone => Expect(q, ch == LF, Strict, HeaderFieldStart)
  }

  // ---------- request line ----------

  function FirstMethod(ch: byte): (r: (bool, Method)) {
    if ch == 'A' as int then (true, ACL) else if ch == 'B' as int then (true, BIND)
    else if ch == 'C' as int then (true, CONNECT) else if ch == 'D' as int then (true, DELETE)
    else if ch == 'G' as int then (true, GET) else if ch == 'H' as int then (true, HEAD)
    else if ch == 'L' as int then (true, LOCK) else if ch == 'M' as int then (true, MKCOL)
    else if ch == 'N' as int then (true, NOTIFY) else if ch == 'O' as int then (true, OPTIONS)
    else if ch == 'P' as int then (true, POST) else if ch == 'R' as int then (true, REPORT)
    else if ch == 'S' as int then (true, SUBSCRIBE) else if ch == 'T' as int then (true, TRACE)
    else if ch == 'U' as int then (true, UNLOCK) else (false, DELETE)
  }

  /** The switch on (method, index, character) that turns one candidate method into another. */
  function Rematch(m: Method, i: int, ch: byte): (r: (bool, Method)) {
    if m == POST && i == 1 && ch == 'U' as int then (true, PUT)
    else if m == POST && i == 1 && ch == 'A' as int then (true, PATCH)
    else if m == POST && i == 1 && ch == 'R' as int then (true, PROPFIND)
    else if m == PUT && i == 2 && ch == 'R' as int then (true, PURGE)
    else if m == CONNECT && i == 1 && ch == 'H' as int then (true, CHECKOUT)
    else if m == CONNECT && i == 2 && ch == 'P' as int then (true, COPY)
    else if m == MKCOL && i == 1 && ch == 'O' as int then (true, MOVE)
    else if m == MKCOL && i == 1 && ch == 'E' as int then (true, MERGE)
    else if m == MKCOL && i == 1 && ch == '-' as int then (true, MSEARCH)
    else if m == MKCOL && i == 2 && ch == 'A' as int then (true, MKACTIVITY)
    else if m == MKCOL && i == 3 && ch == 'A' as int then (true, MKCALENDAR)
    else if m == SUBSCRIBE && i == 1 && ch == 'E' as int then (true, SEARCH)
    else if m == SUBSCRIBE && i == 1 && ch == 'O' as int then (true, SOURCE)
    else if m == REPORT && i == 2 && ch == 'B' as int then (true, REBIND)
    else if m == PROPFIND && i == 4 && ch == 'P' as int then (true, PROPPATCH)
    else if m == LOCK && i == 1 && ch == 'I' as int then (true, LINK)
    else if m == UNLOCK && i == 2 && ch == 'S' as int then (true, UNSUBSCRIBE)
    else if m == UNLOCK && i == 2 && ch == 'B' as int then (true, UNBIND)
    else if m == UNLOCK && i == 3 && ch == 'I' as int then (true, UNLINK)
    else (false, m)
  }

  /** `matcher[index]`, with the terminating NUL at the end of the string. */
  function MatcherAt(m: Method, i: int): byte {
    if 0 <= i < |MethodString(m)| && MethodString(m)[i] < 256 as char then MethodString(m)[i] as int else 0
  }

  predicate RequestLineState(s: State) {
    s.StartReq? || s.ReqMethod? || s.ReqSpacesBeforeUrl? || UrlState(s)
    || s.ReqHttpStart? || s.ReqHttpH? || s.ReqHttpHT? || s.ReqHttpHTT? || s.ReqHttpHTTP? || s.ReqHttpI?
    || s.ReqHttpIC? || s.ReqHttpMajor? || s.ReqHttpDot? || s.ReqHttpMinor? || s.ReqHttpEnd?
    || s.ReqLineAlmostDone?
  }

  /** The states in which the URL mark is (re)opened at the start of a buffer. */
  predicate UrlState(s: State) {
    s.ReqSchema? || s.ReqSchemaSlash? || s.ReqSchemaSlashSlash? || s.ReqServerStart? || UrlEndState(s)
  }

  /** The URL states in which a space or a line end is allowed. */
  predicate UrlEndState(s: State) {
    s.ReqServer? || s.ReqServerWithAt? || s.ReqPath? || s.ReqQueryStringStart? || s.ReqQueryString?
    || s.ReqFragmentStart? || s.ReqFragment?
  }

  function OnStartReq(q: Parser, ch: byte): Out {
    if ch == CR || ch == LF then Go(q, StartReq)
    else
      var q := q.(flags := NO_FLAGS, contentLength := ULLONG_MAX);
      if !IsAlpha(ch) then Fail(q, InvalidMethod)
      else
        var (found, m) := FirstMethod(ch);
        var q := q.(meth := m, index := 1);
        if !found then Fail(q, InvalidMethod)
        else Out(q.(state := ReqMethod), [Notify(MessageBegin)], Running)
  }

  function OnReqMethod(q: Parser, ch: byte): Out {
    var expected := MatcherAt(q.meth, q.index);
    if ch == 0 then Fail(q, InvalidMethod)
    else if ch == SP && expected == 0 then Go(q.(index := q.index + 1), ReqSpacesBeforeUrl)
    else if ch == expected then Go(q.(index := q.index + 1), ReqMethod)
    else if 65 <= ch <= 90 || ch == '-' as int then
      var (found, m) := Rematch(q.meth, q.index, ch);
      if found then Go(q.(meth := m, index := q.index + 1), ReqMethod) else Fail(q, InvalidMethod)
    else Fail(q, InvalidMethod)
  }

  function OnUrl(q: Parser, ch: byte): Out
    requires UrlState(q.state)
  {
    if ch == SP || ch == CR || ch == LF then
      if !UrlEndState(q.state) then Fail(q, InvalidUrl)
      else if ch == SP then Out(q.(state := ReqHttpStart), [Emit(UrlData)], Running)
      else Out(q.(major := 0, minor := 9, state := if ch == CR then ReqLineAlmostDone else HeaderFieldStart),
               [Emit(UrlData)], Running)
    else UrlNext(q, ParseUrlChar(q.state, ch), [])
  }

  function UrlNext(q: Parser, s: State, ops: seq<Op>): Out {
    if s.Dead? then Fail(q.(state := s), InvalidUrl) else Out(q.(state := s), ops, Running)
  }

  function OnRequestLine(q: Parser, ch: byte): Out
    requires RequestLineState(q.state)
  {
    if UrlState(q.state) then OnUrl(q, ch)
    else match q.state
      case StartReq => OnStartReq(q, ch)
      case ReqMethod => OnReqMethod(q, ch)
      case ReqSpacesBeforeUrl =>
        if ch == SP then Go(q, ReqSpacesBeforeUrl)
        else UrlNext(q, ParseUrlChar(if q.meth.CONNECT? then ReqServerStart else ReqSpacesBeforeUrl, ch),
                     [Mark(UrlData)])
      case ReqHttpStart =>
        if ch == SP then Go(q, ReqHttpStart)
        else if ch == 'H' as int then Go(q, ReqHttpH)
        else Expect(q, ch == 'I' as int && q.meth.SOURCE?, InvalidConstant, ReqHttpI)
      case ReqHttpH => Expect(q, ch == 'T' as int, Strict, ReqHttpHT)
      case ReqHttpHT => Expect(q, ch == 'T' as int, Strict, ReqHttpHTT)
      case ReqHttpHTT => Expect(q, ch == 'P' as int, Strict, ReqHttpHTTP)
      case ReqHttpI => Expect(q, ch == 'C' as int, Strict, ReqHttpIC)
      case ReqHttpIC => Expect(q, ch == 'E' as int, Strict, ReqHttpHTTP)
      case ReqHttpHTTP => Expect(q, ch == '/' as int, Strict, ReqHttpMajor)
      case ReqHttpMajor => if IsNum(ch) then Go(q.(major := ch - 48), ReqHttpDot) else Fail(q, InvalidVersion)
      case ReqHttpDot => Expect(q, ch == '.' as int, InvalidVersion, ReqHttpMinor)
      case ReqHttpMinor => if IsNum(ch) then Go(q.(minor := ch - 48), ReqHttpEnd) else Fail(q, InvalidVersion)
      case ReqHttpEnd =>
        if ch == CR then Go(q, ReqLineAlmostDone)
        else Expect(q, ch == LF, InvalidVersion, HeaderFieldStart)
      case ReqLineAlmostDone => Expect(q, ch == LF, LfExpected, HeaderFieldStart)
  }

  // ---------- header fields ----------

  /** One step of matching a header word at `index + 1`; `word` has its NUL at position `|word|`. */
  function MatchWord(word: string, i: int, c: byte, same: HeaderState, miss: HeaderState,
                     done: HeaderState): HeaderState {
    if i > |word| || i < 0 || i == |word| || word[i] != c as char then miss
    else if i == |word| - 1 then done
    else same
  }

  const CONNECTION_WORD := "connection"
  const PROXY_CONNECTION_WORD := "proxy-connection"
  const CONTENT_LENGTH_WORD := "content-length"
  const TRANSFER_ENCODING_WORD := "transfer-encoding"
  const UPGRADE_WORD := "upgrade"
  const CHUNKED_WORD := "chunked"
  const KEEP_ALIVE_WORD := "keep-alive"
  const CLOSE_WORD := "close"

  function FieldHeaderState(h: HeaderState, index: int, c: byte, ch: byte): HeaderState {
    var i := index + 1;
    match h
    case C => if c == 'o' as int then CO else General
    case CO => if c == 'n' as int then CON else General
    case CON => if c == 'n' as int then MatchingConnection
                else if c == 't' as int then MatchingContentLength else General
    case MatchingConnection => MatchWord(CONNECTION_WORD, i, c, h, General, Connection)
    case MatchingProxyConnection => MatchWord(PROXY_CONNECTION_WORD, i, c, h, General, Connection)
    case MatchingContentLength => MatchWord(CONTENT_LENGTH_WORD, i, c, h, General, ContentLength)
    case MatchingTransferEncoding => MatchWord(TRANSFER_ENCODING_WORD, i, c, h, General, TransferEncoding)
    case MatchingUpgrade => MatchWord(UPGRADE_WORD, i, c, h, General, Upgrade)
    case Connection => if ch != SP then General else Connection
    case ContentLength => if ch != SP then General else ContentLength
    case TransferEncoding => if ch != SP then General else TransferEncoding
    case Upgrade => if ch != SP then General else Upgrade
    case other => other
  }

  /** The field states that count characters in `index`. */
  predicate FieldCounting(h: HeaderState) {
    h.C? || h.CO? || h.CON? || h.MatchingConnection? || h.MatchingProxyConnection? || h.MatchingContentLength?
    || h.MatchingTransferEncoding? || h.MatchingUpgrade?
  }

  function FieldAdvance(q: Parser, ch: byte): Parser {
    q.(hstate := FieldHeaderState(q.hstate, q.index, Token(ch), ch),
       index := if FieldCounting(q.hstate) then q.index + 1 else q.index)
  }

  function OnHeaderField(q: Parser, ch: byte): Out {
    if Token(ch) != 0 then Out(FieldAdvance(q, ch), [], Running)
    else if ch == ':' as int then Out(q.(state := HeaderValueDiscardWs), [Emit(FieldData)], Running)
    else Fail(q, InvalidHeaderToken)
  }

  function FirstFieldState(c: byte): HeaderState {
    if c == 'c' as int then C
    else if c == 'p' as int then MatchingProxyConnection
    else if c == 't' as int then MatchingTransferEncoding
    else if c == 'u' as int then MatchingUpgrade
    else General
  }

  function OnHeaderFieldStart(q: Parser, ch: byte): Out {
    if ch == CR then Go(q, HeadersAlmostDone)
    else if ch == LF then OnHeadersAlmostDone(q.(state := HeadersAlmostDone), ch)
    else
      var c := Token(ch);
      if c == 0 then Fail(q, InvalidHeaderToken)
      else Out(q.(index := 0, state := HeaderField, hstate := FirstFieldState(c)), [Mark(FieldData)], Running)
  }

  // ---------- header values ----------

  function OnHeaderValueStart(q: Parser, ch: byte): Out {
    var q := q.(state := HeaderValue, index := 0);
    var c := Lower(ch);
    match q.hstate
    case Upgrade => ValueOpened(q.(flags := q.flags.(upgrade := true)), General)
    case TransferEncoding => ValueOpened(q, if c == 'c' as int then MatchingTransferEncodingChunked else General)
    case ContentLength =>
      if !IsNum(ch) then Then([Mark(ValueData)], Fail(q, InvalidContentLength))
      else if q.flags.contentLength then Then([Mark(ValueData)], Fail(q, UnexpectedContentLength))
      else ValueOpened(q.(flags := q.flags.(contentLength := true), contentLength := ch - 48), ContentLengthNum)
    case ContentLengthWs => ValueOpened(q, ContentLengthWs)
    case Connection =>
      ValueOpened(q, if c == 'k' as int then MatchingConnectionKeepAlive
                     else if c == 'c' as int then MatchingConnectionClose
                     else if c == 'u' as int then MatchingConnectionUpgrade
                     else MatchingConnectionToken)
    case MatchingConnectionTokenStart => ValueOpened(q, MatchingConnectionTokenStart)
    case _ => ValueOpened(q, General)
  }

  function ValueOpened(q: Parser, h: HeaderState): Out { Out(q.(hstate := h), [Mark(ValueData)], Running) }

  function ConnectionToken(c: byte, other: HeaderState): HeaderState {
    if c == 'k' as int then MatchingConnectionKeepAlive
    else if c == 'c' as int then MatchingConnectionClose
    else if c == 'u' as int then MatchingConnectionUpgrade
    else other
  }

  function ValueHeaderState(h: HeaderState, index: int, ch: byte): HeaderState {
    var c := Lower(ch);
    var i := index + 1;
    match h
    case MatchingTransferEncodingChunked => MatchWord(CHUNKED_WORD, i, c, h, General, TransferEncodingChunked)
    case MatchingConnectionTokenStart =>
      ConnectionToken(c, if c != SP && Token(c) != 0 then MatchingConnectionToken
                         else if c == SP || c == TAB then h else General)
    case MatchingConnectionKeepAlive => MatchWord(KEEP_ALIVE_WORD, i, c, h, MatchingConnectionToken,
                                                  ConnectionKeepAlive)
    case MatchingConnectionClose => MatchWord(CLOSE_WORD, i, c, h, MatchingConnectionToken, ConnectionClose)
    case MatchingConnectionUpgrade => MatchWord(UPGRADE_WORD, i, c, h, MatchingConnectionToken, ConnectionUpgrade)
    case MatchingConnectionToken => if ch == ',' as int then MatchingConnectionTokenStart else h
    case TransferEncodingChunked => if ch != SP then General else h
    case ConnectionKeepAlive => AfterConnectionWord(h, ch)
    case ConnectionClose => AfterConnectionWord(h, ch)
    case ConnectionUpgrade => AfterConnectionWord(h, ch)
    case _ => General
  }

  function AfterConnectionWord(h: HeaderState, ch: byte): HeaderState {
    if ch == ',' as int then MatchingConnectionTokenStart
    else if ch != SP then MatchingConnectionToken else h
  }

  predicate ConnectionWordSeen(h: HeaderState) { h.ConnectionKeepAlive? || h.ConnectionClose? || h.ConnectionUpgrade? }

  function ValueIndex(h: HeaderState, index: int, ch: byte): int {
    if h.MatchingTransferEncodingChunked? || h.MatchingConnectionKeepAlive?
       || h.MatchingConnectionClose? || h.MatchingConnectionUpgrade? then index + 1
    else if (h.MatchingConnectionToken? || ConnectionWordSeen(h)) && ch == ',' as int then 0
    else index
  }

  /** The connection and encoding flags that a finished header value sets. */
  function RecordFlags(q: Parser): Parser {
    match q.hstate
    case ConnectionKeepAlive => q.(flags := q.flags.(keepAlive := true))
    case ConnectionClose => q.(flags := q.flags.(close := true))
    case TransferEncodingChunked => q.(flags := q.flags.(chunked := true))
    case ConnectionUpgrade => q.(flags := q.flags.(connectionUpgrade := true))
    case _ => q
  }

  /** One character of a content-length value: digits then spaces; `None`-like failure keeps the value. */
  function ContentLengthChar(q: Parser, ch: byte): Out {
    match q.hstate
    case ContentLengthWs => if ch == SP then Out(q, [], Running) else Fail(q, InvalidContentLength)
    case _ =>
      if ch == SP then Out(q.(hstate := ContentLengthWs), [], Running)
      else if !IsNum(ch) then Fail(q, InvalidContentLength)
      else if (ULLONG_MAX - 10) / 10 < q.contentLength then Fail(q, InvalidContentLength)
      else Out(q.(contentLength := q.contentLength * 10 + (ch - 48)), [], Running)
  }

  /** A header value character other than CR and LF. */
  function ValueChar(q: Parser, ch: byte): Out {
    if !q.lenient && !IsHeaderChar(ch) then Fail(q, InvalidHeaderToken)
    else if q.hstate.ContentLengthNum? || q.hstate.ContentLengthWs? then ContentLengthChar(q, ch)
    else
      var flagged := if ConnectionWordSeen(q.hstate) && ch == ',' as int then RecordFlags(q) else q;
      Out(flagged.(hstate := ValueHeaderState(q.hstate, q.index, ch), index := ValueIndex(q.hstate, q.index, ch)),
          [], Running)
  }

  function OnHeaderValue(q: Parser, ch: byte): Out {
    if ch == CR then Out(q.(state := HeaderAlmostDone), [Emit(ValueData)], Running)
    else if ch == LF then Then([Emit(ValueData)], OnHeaderAlmostDone(q.(state := HeaderAlmostDone), ch))
    else ValueChar(q, ch)
  }

  function OnHeaderAlmostDone(q: Parser, ch: byte): Out {
    Expect(q, ch == LF, LfExpected, HeaderValueLws)
  }

  function OnHeaderValueLws(q: Parser, ch: byte): Out {
    if ch == SP || ch == TAB then
      OnHeaderValueStart(q.(hstate := if q.hstate.ContentLengthNum? then ContentLengthWs else q.hstate), ch)
    else OnHeaderFieldStart(RecordFlags(q).(state := HeaderFieldStart), ch)
  }

  function OnDiscardLws(q: Parser, ch: byte): Out {
    if ch == SP || ch == TAB then Go(q, HeaderValueDiscardWs)
    else if q.hstate.ContentLength? then Fail(q, InvalidContentLength)
    else Then([Mark(ValueData), Emit(ValueData)], OnHeaderFieldStart(RecordFlags(q).(state := HeaderFieldStart), ch))
  }

  predicate HeaderLineState(s: State) {
    s.HeaderFieldStart? || s.HeaderField? || s.HeaderValueDiscardWs? || s.HeaderValueDiscardWsAlmostDone?
    || s.HeaderValueDiscardLws? || s.HeaderValueStart? || s.HeaderValue? || s.HeaderValueLws? || s.HeaderAlmostDone?
    || s.HeadersAlmostDone? || s.HeadersDone?
  }

  function OnHeaderLine(q: Parser, ch: byte): Out
    requires HeaderLineState(q.state)
  {
    match q.state
    case HeaderFieldStart => OnHeaderFieldStart(q, ch)
    case HeaderField => OnHeaderField(q, ch)
    case HeaderValueDiscardWs =>
      if ch == SP || ch == TAB then Go(q, HeaderValueDiscardWs)
      else if ch == CR then Go(q, HeaderValueDiscardWsAlmostDone)
      else if ch == LF then Go(q, HeaderValueDiscardLws)
      else OnHeaderValueStart(q, ch)
    case HeaderValueDiscardWsAlmostDone => Expect(q, ch == LF, Strict, HeaderValueDiscardLws)
    case HeaderValueDiscardLws => OnDiscardLws(q, ch)
    case HeaderValueStart => OnHeaderValueStart(q, ch)
    case HeaderValue => OnHeaderValue(q, ch)
    case HeaderValueLws => OnHeaderValueLws(q, ch)
    case HeaderAlmostDone => OnHeaderAlmostDone(q, ch)
    case HeadersAlmostDone => OnHeadersAlmostDone(q, ch)
    case HeadersDone => OnHeadersDone(q, ch)
  }

  // ---------- end of headers, body ----------

  function OnHeadersAlmostDone(q: Parser, ch: byte): Out {
    if ch != LF then Fail(q, Strict)
    else if q.flags.trailing then Then([Notify(ChunkComplete)], OnMessageDone(q.(state := MessageDone)))
    else if q.flags.chunked && q.flags.contentLength then Fail(q, UnexpectedContentLength)
    else
      var upgrade := if q.flags.upgrade && q.flags.connectionUpgrade
                     then q.typ.Request? || q.statusCode == 101 else q.meth.CONNECT?;
      Then([Notify(HeadersComplete)], OnHeadersDone(q.(state := HeadersDone, upgrade := upgrade), ch))
  }

  function OnHeadersDone(q: Parser, ch: byte): Out {
    if ch != LF then Fail(q, Strict)
    else
      var q := q.(nread := 0);
      var hasBody := q.flags.chunked || (q.contentLength > 0 && q.contentLength != ULLONG_MAX);
      if q.upgrade && (q.meth.CONNECT? || q.flags.skipBody || !hasBody) then
        Out(q.(state := NewMessage(q)), [Notify(MessageComplete)], Left)
      else if q.flags.skipBody then Completed(q)
      else if q.flags.chunked then Go(q, ChunkSizeStart)
      else if q.contentLength == 0 then Completed(q)
      else if q.contentLength != ULLONG_MAX then Go(q, BodyIdentity)
      else if !MessageNeedsEof(q) then Completed(q)
      else Go(q, BodyIdentityEof)
  }

  function Completed(q: Parser): Out { Out(q.(state := NewMessage(q)), [Notify(MessageComplete)], Running) }

  function OnMessageDone(q: Parser): Out {
    Out(q.(state := NewMessage(q)), [Notify(MessageComplete)], if q.upgrade then Left else Running)
  }

  predicate BodyState(s: State) {
    s.BodyIdentity? || s.BodyIdentityEof? || s.MessageDone? || s.ChunkSizeStart? || s.ChunkSize?
    || s.ChunkParameters? || s.ChunkSizeAlmostDone? || s.ChunkData? || s.ChunkDataAlmostDone? || s.ChunkDataDone?
  }

  function OnBody(q: Parser, ch: byte): Out
    requires BodyState(q.state)
  {
    match q.state
    case BodyIdentity =>
      var q := q.(contentLength := q.contentLength - 1);
      if q.contentLength == 0
      then Then([Mark(BodyData), EmitThrough(BodyData)], OnMessageDone(q.(state := MessageDone)))
      else Out(q, [Mark(BodyData)], Running)
    case BodyIdentityEof => Out(q, [Mark(BodyData)], Running)
    case MessageDone => OnMessageDone(q)
    case ChunkSizeStart =>
      if Unhex(ch) == -1 then Fail(q, InvalidChunkSize)
      else Go(q.(contentLength := Unhex(ch)), ChunkSize)
    case ChunkSize =>
      if ch == CR then Go(q, ChunkSizeAlmostDone)
      else if Unhex(ch) == -1 then Expect(q, ch == ';' as int || ch == SP, InvalidChunkSize, ChunkParameters)
      else if (ULLONG_MAX - 16) / 16 < q.contentLength then Fail(q, InvalidContentLength)
      else Go(q.(contentLength := q.contentLength * 16 + Unhex(ch)), ChunkSize)
    case ChunkParameters => Go(q, if ch == CR then ChunkSizeAlmostDone else ChunkParameters)
    case ChunkSizeAlmostDone =>
      if ch != LF then Fail(q, Strict)
      else if q.contentLength == 0 then
        Out(q.(nread := 0, flags := q.flags.(trailing := true), state := HeaderFieldStart),
            [Notify(ChunkHeader(0))], Running)
      else Out(q.(nread := 0, state := ChunkData), [Notify(ChunkHeader(q.contentLength))], Running)
    case ChunkData =>
      var q := q.(contentLength := q.contentLength - 1);
      Out(q.(state := if q.contentLength == 0 then ChunkDataAlmostDone else ChunkData), [Mark(BodyData)], Running)
    case ChunkDataAlmostDone =>
      if ch != CR then Fail(q, Strict)
      else Out(q.(state := ChunkDataDone), [Emit(BodyData)], Running)
    case ChunkDataDone =>
      if ch != LF then Fail(q, Strict)
      else Out(q.(nread := 0, state := ChunkSizeStart), [Notify(ChunkComplete)], Running)
  }

  // ---------- one byte ----------

  /** The big switch of `http_parser_execute` on one byte. */
  function Dispatch(q: Parser, ch: byte): Out {
    if ResponseLineState(q.state) then OnResponseLine(q, ch)
    else if RequestLineState(q.state) then OnRequestLine(q, ch)
    else if HeaderLineState(q.state) then OnHeaderLine(q, ch)
    else if BodyState(q.state) then OnBody(q, ch)
    else if ch == CR || ch == LF then Out(q, [], Running) else Fail(q, ClosedConnection)
  }

  /** Counting a header byte, then the switch. */
  function CountAndDispatch(q: Parser, ch: byte): Out {
    if ParsingHeader(q.state) then
      var q := q.(nread := q.nread + 1);
      if q.nread > MAX_HEADER_SIZE then Fail(q, HeaderOverflow) else Dispatch(q, ch)
    else Dispatch(q, ch)
  }

  // ---------- what the application observes ----------

  /** One byte of callback data, or one notification: the view in which callback pieces are concatenated. */
  datatype Event = Data(kind: Kind, b: byte) | Noted(note: Note)

  datatype Open = Closed | Opened(kind: Kind)

  /** The mark that is open between bytes, as `http_parser_execute` restores it from the state. */
  function OpenIn(s: State): Open {
    if s.HeaderField? then Opened(FieldData)
    else if s.HeaderValue? then Opened(ValueData)
    else if UrlState(s) then Opened(UrlData)
    else if s.ResStatus? then Opened(StatusData)
    else Closed
  }

  function OpenAfter(ops: seq<Op>, open: Open): Open {
    if ops == [] then open
    else match ops[0]
      case Mark(k) => OpenAfter(ops[1..], Opened(k))
      case Emit(k) => OpenAfter(ops[1..], if open == Opened(k) then Closed else open)
      case EmitThrough(k) => OpenAfter(ops[1..], Closed)
      case Notify(n) => OpenAfter(ops[1..], open)
  }

  /** Everything but the current byte itself, which belongs to whatever mark stays open. */
  function Announced(ops: seq<Op>, ch: byte): seq<Event> {
    if ops == [] then []
    else match ops[0]
      case EmitThrough(k) => [Data(k, ch)] + Announced(ops[1..], ch)
      case Notify(n) => [Noted(n)] + Announced(ops[1..], ch)
      case _ => Announced(ops[1..], ch)
  }

  function Events(ops: seq<Op>, open: Open, ch: byte): seq<Event> {
    Announced(ops, ch) + (match OpenAfter(ops, open) case Opened(k) => [Data(k, ch)] case Closed => [])
  }

  datatype RunState = RunState(q: Parser, events: seq<Event>, status: Status, used: nat)

  function Step(q: Parser, ch: byte): RunState {
    var o := CountAndDispatch(q, ch);
    RunState(o.q, Events(o.ops, OpenIn(q.state), ch), o.status, if o.status.Failed? then 0 else 1)
  }

  /** Feeding a byte string one byte at a time, stopping at the first error or upgrade exit. */
  function Run(q: Parser, data: seq<byte>): (r: RunState)
    ensures r.used <= |data|
  {
    if data == [] then RunState(q, [], Running, 0)
    else
      var r := Run(q, data[..|data| - 1]);
      if !r.status.Running? then r
      else
        var s := Step(r.q, data[|data| - 1]);
        RunState(s.q, r.events + s.events, s.status, r.used + s.used)
  }
}
