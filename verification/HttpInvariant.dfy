/** What every byte keeps: the parser's internal assertions, and how marks relate to states. */
module HttpInvariant {
  import opened HttpGrammar
  import opened HttpStep

  /** Header states that can be live while a field name is read. */
  predicate FieldStateOk(h: HeaderState) {
    FieldCounting(h) || h.General? || h.Connection? || h.ContentLength? || h.TransferEncoding? || h.Upgrade?
  }

  /** Header states that can be live while a value is read: the `assert(0)` cases are absent. */
  predicate ValueStateOk(h: HeaderState) {
    h.General? || h.ContentLengthNum? || h.ContentLengthWs? || h.MatchingTransferEncodingChunked?
    || h.MatchingConnectionTokenStart? || h.MatchingConnectionKeepAlive? || h.MatchingConnectionClose?
    || h.MatchingConnectionUpgrade? || h.MatchingConnectionToken? || h.TransferEncodingChunked?
    || h.ConnectionKeepAlive? || h.ConnectionClose? || h.ConnectionUpgrade?
  }

  /** How far `index` can be while a word is being matched: it never passes the word's end. */
  function IndexBound(h: HeaderState): int {
    match h
    case C => 0
    case CO => 1
    case CON => 2
    case MatchingConnection => 8
    case MatchingProxyConnection => 14
    case MatchingContentLength => 12
    case MatchingTransferEncoding => 15
    case MatchingUpgrade => 5
    case MatchingTransferEncodingChunked => 5
    case MatchingConnectionKeepAlive => 8
    case MatchingConnectionClose => 3
    case MatchingConnectionUpgrade => 5
    case MatchingConnectionTokenStart => 0
    case _ => 16
  }

  /** The length of the method's name. */
  function MethodLength(m: Method): int {
    match m
    case DELETE => 6 case GET => 3 case HEAD => 4 case POST => 4 case PUT => 3 case CONNECT => 7
    case OPTIONS => 7 case TRACE => 5 case COPY => 4 case LOCK => 4 case MKCOL => 5 case MOVE => 4
    case PROPFIND => 8 case PROPPATCH => 9 case SEARCH => 6 case UNLOCK => 6 case BIND => 4
    case REBIND => 6 case UNBIND => 6 case ACL => 3 case REPORT => 6 case MKACTIVITY => 10
    case CHECKOUT => 8 case MERGE => 5 case MSEARCH => 8 case NOTIFY => 6 case SUBSCRIBE => 9
    case UNSUBSCRIBE => 11 case PATCH => 5 case PURGE => 5 case MKCALENDAR => 10 case LINK => 4
    case UNLINK => 6 case SOURCE => 6
  }

  predicate HeaderPartOk(q: Parser) {
    match q.state
    case HeaderField => FieldStateOk(q.hstate) && q.index <= IndexBound(q.hstate)
    case HeaderValueDiscardWs => FieldStateOk(q.hstate)
    case HeaderValueDiscardWsAlmostDone => FieldStateOk(q.hstate)
    case HeaderValueDiscardLws => FieldStateOk(q.hstate)
    case HeaderValue => ValueStateOk(q.hstate) && q.index <= IndexBound(q.hstate)
    case HeaderAlmostDone => ValueStateOk(q.hstate)
    case HeaderValueLws => ValueStateOk(q.hstate)
    case HeaderValueStart => false
    case HeadersDone => false
    case MessageDone => false
    case _ => true
  }

  predicate BodyPartOk(q: Parser) {
    match q.state
    case ChunkSizeStart => q.flags.chunked && q.nread == 0
    case ChunkSize => q.flags.chunked && q.contentLength != ULLONG_MAX
    case ChunkParameters => q.flags.chunked && q.contentLength != ULLONG_MAX
    case ChunkSizeAlmostDone => q.flags.chunked && q.contentLength != ULLONG_MAX
    case ChunkData => q.flags.chunked && q.contentLength != 0 && q.contentLength != ULLONG_MAX
    case ChunkDataAlmostDone => q.flags.chunked && q.contentLength == 0
    case ChunkDataDone => q.flags.chunked
    case BodyIdentity => q.contentLength != 0 && q.contentLength != ULLONG_MAX
    case _ => true
  }

  /** States that carry no condition of their own. */
  predicate Plain(s: State) {
    ResponseLineState(s) || (RequestLineState(s) && !s.ReqMethod?) || s.Dead? || s.HeaderFieldStart?
    || s.HeadersAlmostDone? || s.BodyIdentityEof?
  }

  predicate RangesOk(q: Parser) {
    && q.errno.Ok? && 0 <= q.nread <= MAX_HEADER_SIZE && 0 <= q.contentLength <= ULLONG_MAX
    && 0 <= q.index <= 16 && 0 <= q.statusCode <= 999
  }

  predicate StateOk(q: Parser) {
    && (q.state.ReqMethod? ==> q.index <= MethodLength(q.meth))
    && ((q.hstate.ContentLengthNum? || q.hstate.ContentLengthWs?)
        && (q.state.HeaderValue? || q.state.HeaderAlmostDone? || q.state.HeaderValueLws?) ==>
        q.contentLength != ULLONG_MAX)
    && HeaderPartOk(q) && BodyPartOk(q)
  }

  /** Holds between any two bytes of an error-free run: every `assert` of the switch follows from it,
      the 7-bit `index` never wraps, and a length in progress is never the 2^64-1 sentinel. */
  predicate Inv(q: Parser) { RangesOk(q) && (Plain(q.state) || StateOk(q)) }

  /** Plain states satisfy the state condition too; this form spares the proofs the case split. */
  lemma StateOkAlways(q: Parser)
    requires Inv(q)
    ensures StateOk(q)
  {
  }

  lemma InitInv(typ: ParserType, lenient: bool)
    ensures Inv(Init(typ, lenient))
  {
  }

  predicate Keeps(o: Out) { if o.status.Failed? then !o.q.errno.Ok? else Inv(o.q) }

  /** The same before a handler runs: `nread` already counts the current byte. */
  predicate Counted(q: Parser) { Inv(q.(nread := 0)) && 0 <= q.nread <= MAX_HEADER_SIZE }

  lemma CountedFromInv(q: Parser)
    requires Inv(q)
    ensures Counted(q) && (q.nread < MAX_HEADER_SIZE ==> Counted(q.(nread := q.nread + 1)))
  {
    StateOkAlways(q);
    hide Plain;
  }

  lemma MessageDoneKeeps(q: Parser)
    requires RangesOk(q)
    ensures Keeps(OnMessageDone(q)) && Keeps(Completed(q))
  {
  }

  lemma HeadersDoneKeeps(q: Parser, ch: byte)
    requires RangesOk(q)
    ensures Keeps(OnHeadersDone(q, ch))
  {
    hide MessageNeedsEof, ShouldKeepAlive;
    MessageDoneKeeps(q.(nread := 0));
  }

  lemma HeadersAlmostDoneKeeps(q: Parser, ch: byte)
    requires RangesOk(q)
    ensures Keeps(OnHeadersAlmostDone(q, ch))
  {
    hide OnHeadersDone, OnMessageDone;
    MessageDoneKeeps(q.(state := MessageDone));
    var upgrade := if q.flags.upgrade && q.flags.connectionUpgrade
                   then q.typ.Request? || q.statusCode == 101 else q.meth.CONNECT?;
    HeadersDoneKeeps(q.(state := HeadersDone, upgrade := upgrade), ch);
  }

  lemma HeaderFieldStartKeeps(q: Parser, ch: byte)
    requires RangesOk(q)
    ensures Keeps(OnHeaderFieldStart(q, ch))
  {
    hide OnHeadersAlmostDone;
    HeadersAlmostDoneKeeps(q.(state := HeadersAlmostDone), ch);
  }

  lemma FieldWordBound(q: Parser, ch: byte)
    requires FieldStateOk(q.hstate) && 0 <= q.index <= IndexBound(q.hstate)
    ensures FieldStateOk(FieldAdvance(q, ch).hstate)
    ensures 0 <= FieldAdvance(q, ch).index <= IndexBound(FieldAdvance(q, ch).hstate)
  {
  }

  lemma HeaderFieldKeeps(q: Parser, ch: byte)
    requires Counted(q) && q.state.HeaderField?
    ensures Keeps(OnHeaderField(q, ch))
  {
    hide FieldHeaderState, Token;
    FieldWordBound(q, ch);
  }

  lemma HeaderValueStartKeeps(q: Parser, ch: byte)
    requires RangesOk(q) && (q.hstate.ContentLengthWs? ==> q.contentLength != ULLONG_MAX)
    ensures Keeps(OnHeaderValueStart(q, ch))
  {
  }

  lemma ValueWordBound(q: Parser, ch: byte)
    requires ValueStateOk(q.hstate) && 0 <= q.index <= IndexBound(q.hstate)
    ensures ValueStateOk(ValueHeaderState(q.hstate, q.index, ch))
    ensures 0 <= ValueIndex(q.hstate, q.index, ch) <= IndexBound(ValueHeaderState(q.hstate, q.index, ch))
    ensures !ValueHeaderState(q.hstate, q.index, ch).ContentLengthNum?
    ensures !ValueHeaderState(q.hstate, q.index, ch).ContentLengthWs?
  {
  }

  predicate ValueCharOk(q: Parser, o: Out) {
    if o.status.Failed? then !o.q.errno.Ok?
    else (Counted(o.q) && o.q.state.HeaderValue? && o.q.nread == q.nread && o.ops == [] && o.status.Running?)
  }

  lemma ValueCharKeeps(q: Parser, ch: byte)
    requires Counted(q) && q.state.HeaderValue?
    ensures ValueCharOk(q, ValueChar(q, ch))
  {
    StateOkAlways(q.(nread := 0));
    hide ValueHeaderState, ValueIndex, Token, IsHeaderChar, Plain;
    ValueWordBound(q, ch);
  }

  lemma LineEndKeeps(q: Parser, ch: byte)
    requires RangesOk(q)
    ensures Keeps(OnHeaderFieldStart(RecordFlags(q).(state := HeaderFieldStart), ch))
  {
    hide OnHeaderFieldStart;
    HeaderFieldStartKeeps(RecordFlags(q).(state := HeaderFieldStart), ch);
  }

  lemma ValueLwsKeeps(q: Parser, ch: byte)
    requires Counted(q) && q.state.HeaderValueLws?
    ensures Keeps(OnHeaderValueLws(q, ch))
  {
    hide OnHeaderFieldStart, OnHeaderValueStart, RecordFlags;
    HeaderValueStartKeeps(q.(hstate := if q.hstate.ContentLengthNum? then ContentLengthWs else q.hstate), ch);
    LineEndKeeps(q, ch);
  }

  lemma HeaderLineKeeps(q: Parser, ch: byte)
    requires Counted(q) && HeaderLineState(q.state)
    ensures Keeps(OnHeaderLine(q, ch))
  {
    hide OnHeaderFieldStart, OnHeaderField, OnHeaderValueStart, ValueChar, OnHeadersAlmostDone, OnHeaderValueLws,
         RecordFlags, Plain;
    if q.state.HeaderValue? {
      ValueLineKeeps(q, ch);
      return;
    }
    if q.state.HeaderValueDiscardWs? || q.state.HeaderValueDiscardLws? {
      DiscardLineKeeps(q, ch);
      return;
    }
    StateOkAlways(q.(nread := 0));
    match q.state
    case HeaderFieldStart => HeaderFieldStartKeeps(q, ch);
    case HeaderField => HeaderFieldKeeps(q, ch);
    case HeaderValueLws => ValueLwsKeeps(q, ch);
    case HeadersAlmostDone => HeadersAlmostDoneKeeps(q, ch);
    case _ =>
  }

  lemma ValueLineKeeps(q: Parser, ch: byte)
    requires Counted(q) && q.state.HeaderValue?
    ensures Keeps(OnHeaderLine(q, ch))
  {
    StateOkAlways(q.(nread := 0));
    hide OnHeaderFieldStart, OnHeaderField, OnHeaderValueStart, ValueChar, OnHeadersAlmostDone, OnHeaderValueLws,
         RecordFlags, Plain;
    ValueCharKeeps(q, ch);
  }

  lemma DiscardLineKeeps(q: Parser, ch: byte)
    requires Counted(q) && (q.state.HeaderValueDiscardWs? || q.state.HeaderValueDiscardLws?)
    ensures Keeps(OnHeaderLine(q, ch))
  {
    StateOkAlways(q.(nread := 0));
    hide OnHeaderFieldStart, OnHeaderField, OnHeaderValueStart, ValueChar, OnHeadersAlmostDone, OnHeaderValueLws,
         RecordFlags, Plain;
    if q.state.HeaderValueDiscardWs? { HeaderValueStartKeeps(q, ch); } else { LineEndKeeps(q, ch); }
  }

  lemma ChunkSizeKeeps(q: Parser, ch: byte)
    requires Counted(q) && (q.state.ChunkSizeStart? || q.state.ChunkSize?)
    ensures Keeps(OnBody(q, ch))
  {
    StateOkAlways(q.(nread := 0));
    hide OnMessageDone, Plain;
  }

  lemma BodyKeeps(q: Parser, ch: byte)
    requires Counted(q) && BodyState(q.state)
    ensures Keeps(OnBody(q, ch))
  {
    if q.state.ChunkSizeStart? || q.state.ChunkSize? {
      ChunkSizeKeeps(q, ch);
      return;
    }
    StateOkAlways(q.(nread := 0));
    hide OnMessageDone, Plain;
    if q.state.BodyIdentity? { MessageDoneKeeps(q.(state := MessageDone, contentLength := q.contentLength - 1)); }
  }

  lemma MethodLengthIs(m: Method)
    ensures MethodLength(m) == |MethodString(m)|
  {
  }

  lemma RematchBound(m: Method, i: int, ch: byte)
    ensures Rematch(m, i, ch).0 ==> i + 1 <= MethodLength(Rematch(m, i, ch).1)
  {
  }

  lemma MatcherBound(m: Method, i: int)
    ensures MatcherAt(m, i) != 0 ==> i + 1 <= MethodLength(m)
  {
    MethodLengthIs(m);
  }

  lemma StartReqKeeps(q: Parser, ch: byte)
    requires RangesOk(q)
    ensures Keeps(OnStartReq(q, ch))
  {
  }

  lemma ReqMethodKeeps(q: Parser, ch: byte)
    requires Counted(q) && q.state.ReqMethod?
    ensures Keeps(OnReqMethod(q, ch))
  {
    hide Rematch, MatcherAt;
    RematchBound(q.meth, q.index, ch);
    MatcherBound(q.meth, q.index);
  }

  /** URL states carry no further condition, so moving among them keeps the invariant. */
  lemma UrlKeeps(q: Parser, ch: byte, s: State)
    requires RangesOk(q) && (UrlState(s) || s.ReqSpacesBeforeUrl?)
    ensures var t := ParseUrlChar(s, ch); t.Dead? || Inv(q.(state := t))
  {
    hide IsAlpha, IsUserinfoChar, IsUrlChar;
  }

  lemma OnUrlKeeps(q: Parser, ch: byte)
    requires Counted(q) && UrlState(q.state)
    ensures Keeps(OnUrl(q, ch))
  {
    hide ParseUrlChar;
    UrlKeeps(q, ch, q.state);
  }

  lemma RequestLineKeeps(q: Parser, ch: byte)
    requires Counted(q) && RequestLineState(q.state)
    ensures Keeps(OnRequestLine(q, ch))
  {
    hide OnUrl, OnStartReq, OnReqMethod, ParseUrlChar, StateOk;
    if UrlState(q.state) { OnUrlKeeps(q, ch); }
    match q.state
    case StartReq => StartReqKeeps(q, ch);
    case ReqMethod => ReqMethodKeeps(q, ch);
    case ReqSpacesBeforeUrl => UrlKeeps(q, ch, if q.meth.CONNECT? then ReqServerStart else ReqSpacesBeforeUrl);
    case _ =>
  }

  lemma StatusCodeKeeps(q: Parser, ch: byte)
    requires Counted(q) && q.state.ResStatusCode?
    ensures Keeps(OnStatusCode(q, ch))
  {
  }

  lemma ResponseStartKeeps(q: Parser, ch: byte)
    requires Counted(q) && (q.state.StartReqOrRes? || q.state.ResOrRespH? || q.state.StartRes?)
    ensures Keeps(OnResponseLine(q, ch))
  {
    assert StateOk(q.(state := ReqMethod, meth := HEAD, index := 2, typ := Request));
    hide OnStartReq, StateOk;
    StartReqKeeps(q.(flags := NO_FLAGS, contentLength := ULLONG_MAX, typ := Request, state := StartReq), ch);
  }

  lemma ResponseLineKeeps(q: Parser, ch: byte)
    requires Counted(q) && ResponseLineState(q.state)
    ensures Keeps(OnResponseLine(q, ch))
  {
    if q.state.StartReqOrRes? || q.state.ResOrRespH? || q.state.StartRes? { ResponseStartKeeps(q, ch); }
    else if q.state.ResStatusCode? { StatusCodeKeeps(q, ch); }
    else { hide StateOk, OnStatusCode; }
  }

  /** Every byte that does not fail keeps the invariant. */
  lemma StepKeepsInv(q: Parser, ch: byte)
    requires Inv(q)
    ensures Keeps(CountAndDispatch(q, ch))
  {
    hide OnResponseLine, OnRequestLine, OnHeaderLine, OnBody;
    var c := if ParsingHeader(q.state) then q.(nread := q.nread + 1) else q;
    if c.nread <= MAX_HEADER_SIZE {
      assert Counted(c) || c.state.ChunkSizeStart?;
      if ResponseLineState(c.state) { ResponseLineKeeps(c, ch); }
      else if RequestLineState(c.state) { RequestLineKeeps(c, ch); }
      else if HeaderLineState(c.state) { HeaderLineKeeps(c, ch); }
      else if BodyState(c.state) { BodyKeeps(c, ch); }
    }
  }
}
