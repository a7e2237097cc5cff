/** Callback logs and the five mark variables of `http_parser_execute`, and why holding data back behind
    a mark never changes what the application observes. */
module HttpMarks {
  import opened HttpGrammar
  import opened HttpStep
  import opened HttpInvariant

  // ---------- callbacks and marks ----------

  /** A callback invocation: data callbacks receive a piece of the current buffer. */
  datatype Callback = DataCallback(kind: Kind, piece: seq<byte>) | NoteCallback(note: Note)

  /** The five mark variables: an offset in the current buffer, or -1 for a null pointer. */
  datatype Marks = Marks(field: int, value: int, url: int, body: int, status: int)

  const NO_MARKS := Marks(-1, -1, -1, -1, -1)

  function At(m: Marks, k: Kind): int {
    match k
    case FieldData => m.field case ValueData => m.value case UrlData => m.url
    case BodyData => m.body case StatusData => m.status
  }

  function Put(m: Marks, k: Kind, p: int): Marks {
    match k
    case FieldData => m.(field := p) case ValueData => m.(value := p) case UrlData => m.(url := p)
    case BodyData => m.(body := p) case StatusData => m.(status := p)
  }

  function DataEvents(k: Kind, s: seq<byte>): (r: seq<Event>)
    ensures |r| == |s|
  {
    seq(|s|, i requires 0 <= i < |s| => Data(k, s[i]))
  }

  /** A callback log as the application sees it once pieces are concatenated. */
  function Flatten(log: seq<Callback>): seq<Event> {
    if log == [] then []
    else Flatten(log[..|log| - 1]) +
         (match log[|log| - 1] case DataCallback(k, s) => DataEvents(k, s) case NoteCallback(n) => [Noted(n)])
  }

  function OpenOf(m: Marks): Open {
    if m.field >= 0 then Opened(FieldData)
    else if m.value >= 0 then Opened(ValueData)
    else if m.url >= 0 then Opened(UrlData)
    else if m.body >= 0 then Opened(BodyData)
    else if m.status >= 0 then Opened(StatusData)
    else Closed
  }

  /** At most one mark is set, and it lies at or before the cursor. */
  predicate SingleMark(m: Marks, p: nat) {
    match OpenOf(m)
    case Closed => m == NO_MARKS
    case Opened(k) => m == Put(NO_MARKS, k, At(m, k)) && 0 <= At(m, k) <= p
  }

  /** Everything announced so far plus the bytes held back by the open mark. */
  function View(log: seq<Callback>, m: Marks, data: seq<byte>, p: nat): seq<Event>
    requires p <= |data| && SingleMark(m, p)
  {
    Flatten(log) + (match OpenOf(m) case Closed => [] case Opened(k) => DataEvents(k, data[At(m, k)..p]))
  }

  /** The marks `http_parser_execute` reopens from the saved state when a buffer starts. */
  function InitialMarks(s: State): Marks {
    match OpenIn(s) case Opened(k) => Put(NO_MARKS, k, 0) case Closed => NO_MARKS
  }

  datatype Cursor = Cursor(q: Parser, marks: Marks, log: seq<Callback>)

  function ApplyOp(op: Op, m: Marks, log: seq<Callback>, data: seq<byte>, p: nat): (r: (Marks, seq<Callback>))
    requires p < |data| && SingleMark(m, p)
  {
    match op
    case Mark(k) => (if At(m, k) >= 0 then m else Put(m, k, p), log)
    case Emit(k) => if At(m, k) >= 0 then (Put(m, k, -1), log + [DataCallback(k, data[At(m, k)..p])]) else (m, log)
    case EmitThrough(k) => if At(m, k) >= 0 then (Put(m, k, -1), log + [DataCallback(k, data[At(m, k)..p + 1])])
    else (m, log)
    case Notify(n) => (m, log + [NoteCallback(n)])
  }

  /** No handler sets a second mark or notifies past held-back bytes; the extra-byte callback finds its mark. */
  predicate OpsOk(ops: seq<Op>, open: Open) {
    if ops == [] then true
    else match ops[0]
      case Mark(k) => (open.Closed? || open == Opened(k)) && OpsOk(ops[1..], Opened(k))
      case Emit(k) => OpsOk(ops[1..], if open == Opened(k) then Closed else open)
      case EmitThrough(k) => open == Opened(k) && OpsOk(ops[1..], Closed)
      case Notify(n) => open.Closed? && OpsOk(ops[1..], open)
  }

  lemma FlattenPush(log: seq<Callback>, c: Callback)
    ensures Flatten(log + [c]) == Flatten(log) +
            (match c case DataCallback(k, s) => DataEvents(k, s) case NoteCallback(n) => [Noted(n)])
  {
    assert (log + [c])[..|log + [c]| - 1] == log;
  }

  lemma DataEventsSplit(k: Kind, s: seq<byte>, t: seq<byte>)
    ensures DataEvents(k, s + t) == DataEvents(k, s) + DataEvents(k, t)
  {
  }

  predicate OpKeepsView(op: Op, m: Marks, log: seq<Callback>, data: seq<byte>, p: nat)
    requires p < |data| && SingleMark(m, p)
  {
    var (m', log') := ApplyOp(op, m, log, data, p);
    && SingleMark(m', p) && OpenOf(m') == OpenAfter([op], OpenOf(m))
    && View(log', m', data, p) == View(log, m, data, p) + Announced([op], data[p])
  }

  lemma MarkView(k: Kind, m: Marks, log: seq<Callback>, data: seq<byte>, p: nat)
    requires p < |data| && SingleMark(m, p) && (OpenOf(m).Closed? || OpenOf(m) == Opened(k))
    ensures OpKeepsView(Mark(k), m, log, data, p)
  {
    if At(m, k) < 0 { assert DataEvents(k, data[p..p]) == []; }
  }

  lemma EmitView(k: Kind, m: Marks, log: seq<Callback>, data: seq<byte>, p: nat)
    requires p < |data| && SingleMark(m, p)
    ensures OpKeepsView(Emit(k), m, log, data, p)
  {
    if At(m, k) >= 0 { FlattenPush(log, DataCallback(k, data[At(m, k)..p])); }
  }

  lemma EmitThroughView(k: Kind, m: Marks, log: seq<Callback>, data: seq<byte>, p: nat)
    requires p < |data| && SingleMark(m, p) && OpenOf(m) == Opened(k)
    ensures OpKeepsView(EmitThrough(k), m, log, data, p)
  {
    var held := data[At(m, k)..p];
    FlattenPush(log, DataCallback(k, data[At(m, k)..p + 1]));
    assert data[At(m, k)..p + 1] == held + [data[p]];
    DataEventsSplit(k, held, [data[p]]);
    assert DataEvents(k, [data[p]]) == [Data(k, data[p])];
  }

  lemma ApplyOpView(op: Op, m: Marks, log: seq<Callback>, data: seq<byte>, p: nat)
    requires p < |data| && SingleMark(m, p) && OpsOk([op], OpenOf(m))
    ensures OpKeepsView(op, m, log, data, p)
  {
    match op
    case Mark(k) => MarkView(k, m, log, data, p);
    case Emit(k) => EmitView(k, m, log, data, p);
    case EmitThrough(k) => EmitThroughView(k, m, log, data, p);
    case Notify(n) => FlattenPush(log, NoteCallback(n));
  }

  lemma {:induction false} OpsConcat(a: seq<Op>, b: seq<Op>, open: Open)
    ensures OpsOk(a + b, open) == (OpsOk(a, open) && OpsOk(b, OpenAfter(a, open)))
    ensures OpenAfter(a + b, open) == OpenAfter(b, OpenAfter(a, open))
  {
    if a == [] { assert a + b == b; }
    else {
      assert (a + b)[1..] == a[1..] + b && (a + b)[0] == a[0];
      match a[0]
      case Mark(k) => OpsConcat(a[1..], b, Opened(k));
      case Emit(k) => OpsConcat(a[1..], b, if open == Opened(k) then Closed else open);
      case EmitThrough(k) => OpsConcat(a[1..], b, Closed);
      case Notify(n) => OpsConcat(a[1..], b, open);
    }
  }

  lemma ApplyFirst(ops: seq<Op>, m: Marks, log: seq<Callback>, data: seq<byte>, p: nat)
    requires p < |data| && SingleMark(m, p) && OpsOk(ops, OpenOf(m)) && ops != []
    ensures OpKeepsView(ops[0], m, log, data, p)
    ensures OpsOk(ops[1..], OpenOf(ApplyOp(ops[0], m, log, data, p).0))
    ensures OpenAfter(ops, OpenOf(m)) == OpenAfter(ops[1..], OpenOf(ApplyOp(ops[0], m, log, data, p).0))
    ensures Announced(ops, data[p]) == Announced([ops[0]], data[p]) + Announced(ops[1..], data[p])
  {
    hide View, SingleMark, ApplyOp, OpenOf;
    assert ops == [ops[0]] + ops[1..];
    OpsConcat([ops[0]], ops[1..], OpenOf(m));
    ApplyOpView(ops[0], m, log, data, p);
  }

  function ApplyOps(ops: seq<Op>, m: Marks, log: seq<Callback>, data: seq<byte>, p: nat): (r: (Marks, seq<Callback>))
    requires p < |data| && SingleMark(m, p) && OpsOk(ops, OpenOf(m))
    ensures SingleMark(r.0, p)
    decreases |ops|
  {
    if ops == [] then (m, log)
    else
      ApplyFirst(ops, m, log, data, p);
      var r := ApplyOp(ops[0], m, log, data, p);
      ApplyOps(ops[1..], r.0, r.1, data, p)
  }

  lemma {:induction false} ApplyOpsView(ops: seq<Op>, m: Marks, log: seq<Callback>, data: seq<byte>, p: nat)
    requires p < |data| && SingleMark(m, p) && OpsOk(ops, OpenOf(m))
    ensures var r := ApplyOps(ops, m, log, data, p);
      && OpenOf(r.0) == OpenAfter(ops, OpenOf(m))
      && View(r.1, r.0, data, p) == View(log, m, data, p) + Announced(ops, data[p])
    decreases |ops|
  {
    hide View, SingleMark, ApplyOp, OpenOf;
    if ops != [] {
      ApplyFirst(ops, m, log, data, p);
      var r := ApplyOp(ops[0], m, log, data, p);
      ApplyOpsView(ops[1..], r.0, r.1, data, p);
    }
  }

  /** Moving past a byte hands it to the open mark. */
  lemma AdvanceView(m: Marks, log: seq<Callback>, data: seq<byte>, p: nat, q: nat)
    requires p <= q <= |data| && SingleMark(m, p)
    ensures SingleMark(m, q)
    ensures View(log, m, data, q) == View(log, m, data, p) +
            (match OpenOf(m) case Closed => [] case Opened(k) => DataEvents(k, data[p..q]))
  {
    match OpenOf(m)
    case Closed =>
    case Opened(k) =>
      assert data[At(m, k)..q] == data[At(m, k)..p] + data[p..q];
      DataEventsSplit(k, data[At(m, k)..p], data[p..q]);
  }

  lemma ClosedView(m: Marks, log: seq<Callback>, data: seq<byte>, p: nat)
    requires p <= |data| && SingleMark(m, p) && OpenOf(m).Closed?
    ensures View(log, m, data, p) == Flatten(log)
  {
  }

  // ---------- how marks relate to states ----------

  /** States in which the body mark may be held over from earlier bytes of the same buffer. */
  predicate BodyMarkState(s: State) { s.BodyIdentity? || s.BodyIdentityEof? || s.ChunkData? || s.ChunkDataAlmostDone? }

  predicate OpenMatches(open: Open, s: State) {
    open == OpenIn(s) || (open == Opened(BodyData) && BodyMarkState(s))
  }

  /** A handler started with mark `open` never misuses marks, leaves the mark its next state expects,
      and exits early only for an upgrade. */
  predicate Fits(o: Out, open: Open) {
    && OpsOk(o.ops, open)
    && (o.status.Running? ==> OpenMatches(OpenAfter(o.ops, open), o.q.state))
    && (o.status.Left? ==> OpenAfter(o.ops, open).Closed? && o.q.upgrade)
  }

  lemma MessageDoneFits(q: Parser)
    ensures Fits(OnMessageDone(q), Closed) && Fits(Completed(q), Closed)
  {
    assert [Notify(MessageComplete)][1..] == [];
  }

  lemma ThenFits(a: seq<Op>, o: Out, open: Open)
    requires OpsOk(a, open) && Fits(o, OpenAfter(a, open))
    ensures Fits(Then(a, o), open)
  {
    OpsConcat(a, o.ops, open);
  }

  lemma NoteFits(n: Note, o: Out)
    requires Fits(o, Closed)
    ensures Fits(Then([Notify(n)], o), Closed)
  {
    ThenFits([Notify(n)], o, Closed);
  }

  lemma HeadersDoneFits(q: Parser, ch: byte)
    ensures Fits(OnHeadersDone(q, ch), Closed)
  {
    hide MessageNeedsEof, ShouldKeepAlive;
    MessageDoneFits(q.(nread := 0));
  }

  lemma HeadersAlmostDoneFits(q: Parser, ch: byte)
    ensures Fits(OnHeadersAlmostDone(q, ch), Closed)
  {
    hide OnHeadersDone, OnMessageDone;
    var upgrade := if q.flags.upgrade && q.flags.connectionUpgrade
                   then q.typ.Request? || q.statusCode == 101 else q.meth.CONNECT?;
    HeadersDoneFits(q.(state := HeadersDone, upgrade := upgrade), ch);
    MessageDoneFits(q.(state := MessageDone));
    if ch == LF {
      NoteFits(HeadersComplete, OnHeadersDone(q.(state := HeadersDone, upgrade := upgrade), ch));
      NoteFits(ChunkComplete, OnMessageDone(q.(state := MessageDone)));
    }
  }

  lemma HeaderFieldStartFits(q: Parser, ch: byte)
    ensures Fits(OnHeaderFieldStart(q, ch), Closed)
  {
    hide OnHeadersAlmostDone, Token;
    HeadersAlmostDoneFits(q.(state := HeadersAlmostDone), ch);
    assert [Mark(FieldData)][1..] == [];
  }

  lemma HeaderValueStartFits(q: Parser, ch: byte)
    ensures Fits(OnHeaderValueStart(q, ch), Closed)
  {
    assert [Mark(ValueData)][1..] == [];
  }

  lemma DiscardLwsFits(q: Parser, ch: byte)
    ensures Fits(OnDiscardLws(q, ch), Closed)
  {
    hide OnHeaderFieldStart, RecordFlags;
    var o := OnHeaderFieldStart(RecordFlags(q).(state := HeaderFieldStart), ch);
    HeaderFieldStartFits(RecordFlags(q).(state := HeaderFieldStart), ch);
    assert [Mark(ValueData), Emit(ValueData)][1..] == [Emit(ValueData)];
    ThenFits([Mark(ValueData), Emit(ValueData)], o, Closed);
  }

  lemma HeaderValueFits(q: Parser, ch: byte)
    requires Counted(q) && q.state.HeaderValue?
    ensures Fits(OnHeaderValue(q, ch), Opened(ValueData))
  {
    hide ValueChar;
    ValueCharKeeps(q, ch);
    assert [Emit(ValueData)][1..] == [];
    if ch == LF { assert ([Emit(ValueData)] + []) == [Emit(ValueData)]; }
    if ch != CR && ch != LF {
      assert ValueChar(q, ch).status.Failed? ==> ValueChar(q, ch).ops == [] by { ValueCharFailQuiet(q, ch); }
    }
  }

  lemma ValueCharFailQuiet(q: Parser, ch: byte)
    ensures ValueChar(q, ch).ops == [] && !ValueChar(q, ch).status.Left?
  {
  }

  lemma HeaderLineFits(q: Parser, ch: byte)
    requires Counted(q) && HeaderLineState(q.state)
    ensures Fits(OnHeaderLine(q, ch), OpenIn(q.state))
  {
    hide OnHeaderFieldStart, OnHeaderValueStart, OnHeaderValue, OnHeadersAlmostDone, OnDiscardLws, OnHeadersDone,
      FieldHeaderState, Token, RecordFlags;
    match q.state
    case HeaderFieldStart => HeaderFieldStartFits(q, ch);
    case HeaderField => assert [Emit(FieldData)][1..] == [];
    case HeaderValueDiscardWs => HeaderValueStartFits(q, ch);
    case HeaderValueDiscardLws => DiscardLwsFits(q, ch);
    case HeaderValueStart => HeaderValueStartFits(q, ch);
    case HeaderValue => HeaderValueFits(q, ch);
    case HeaderValueLws =>
      HeaderValueStartFits(q.(hstate := if q.hstate.ContentLengthNum? then ContentLengthWs else q.hstate), ch);
      HeaderFieldStartFits(RecordFlags(q).(state := HeaderFieldStart), ch);
    case HeadersAlmostDone => HeadersAlmostDoneFits(q, ch);
    case HeadersDone => HeadersDoneFits(q, ch);
    case _ =>
  }

  lemma UrlCharStaysUrl(s: State, ch: byte)
    ensures ParseUrlChar(s, ch).Dead? || UrlState(ParseUrlChar(s, ch))
  {
    hide IsAlpha, IsUserinfoChar, IsUrlChar;
  }

  lemma StartReqFits(q: Parser, ch: byte)
    ensures Fits(OnStartReq(q, ch), Closed)
  {
    hide IsAlpha, FirstMethod;
    assert [Notify(MessageBegin)][1..] == [];
  }

  lemma UrlFits(q: Parser, ch: byte)
    requires UrlState(q.state)
    ensures Fits(OnUrl(q, ch), Opened(UrlData))
  {
    hide ParseUrlChar;
    UrlCharStaysUrl(q.state, ch);
    assert [Emit(UrlData)][1..] == [];
  }

  lemma RequestVersionFits(q: Parser, ch: byte)
    requires RequestLineState(q.state) && !UrlState(q.state) && !q.state.StartReq? && !q.state.ReqSpacesBeforeUrl?
    ensures Fits(OnRequestLine(q, ch), Closed)
  {
    hide MatcherAt, Rematch;
  }

  lemma RequestLineFits(q: Parser, ch: byte)
    requires RequestLineState(q.state)
    ensures Fits(OnRequestLine(q, ch), OpenIn(q.state))
  {
    hide ParseUrlChar, OnStartReq, MatcherAt, Rematch, OnUrl;
    if UrlState(q.state) { UrlFits(q, ch); }
    else if q.state.StartReq? { StartReqFits(q, ch); }
    else if q.state.ReqSpacesBeforeUrl? {
      UrlCharStaysUrl(if q.meth.CONNECT? then ReqServerStart else ReqSpacesBeforeUrl, ch);
      assert [Mark(UrlData)][1..] == [];
    } else { RequestVersionFits(q, ch); }
  }

  lemma StatusFits(q: Parser, ch: byte)
    ensures Fits(OnStatus(q, ch), Opened(StatusData))
  {
    assert [Emit(StatusData)][1..] == [];
  }

  lemma StatusStartFits(q: Parser, ch: byte)
    ensures Fits(OnStatusStart(q, ch), Closed)
  {
    assert [Emit(StatusData)][1..] == [] && [Mark(StatusData)][1..] == [];
    assert [Mark(StatusData), Emit(StatusData)][1..] == [Emit(StatusData)];
    assert [Mark(StatusData)] + [Emit(StatusData)] == [Mark(StatusData), Emit(StatusData)];
  }

  lemma StatusCodeFits(q: Parser, ch: byte)
    ensures Fits(OnStatusCode(q, ch), Closed)
  {
    hide OnStatusStart;
    StatusStartFits(q.(state := ResStatusStart), ch);
  }

  lemma ResponseStartFits(q: Parser, ch: byte)
    requires q.state.StartReqOrRes? || q.state.ResOrRespH? || q.state.StartRes?
    ensures Fits(OnResponseLine(q, ch), Closed)
  {
    hide OnStartReq;
    StartReqFits(q.(flags := NO_FLAGS, contentLength := ULLONG_MAX, typ := Request, state := StartReq), ch);
    assert [Notify(MessageBegin)][1..] == [];
  }

  lemma ResponseVersionFits(q: Parser, ch: byte)
    requires q.state.ResH? || q.state.ResHT? || q.state.ResHTT? || q.state.ResHTTP? || q.state.ResHttpMajor?
             || q.state.ResHttpDot? || q.state.ResHttpMinor? || q.state.ResHttpEnd?
             || q.state.ResFirstStatusCode? || q.state.ResLineAlmostDone?
    ensures Fits(OnResponseLine(q, ch), Closed)
  {
  }

  lemma ResponseLineFits(q: Parser, ch: byte)
    requires ResponseLineState(q.state)
    ensures Fits(OnResponseLine(q, ch), OpenIn(q.state))
  {
    if q.state.StartReqOrRes? || q.state.ResOrRespH? || q.state.StartRes? {
      hide OnResponseLine;
      ResponseStartFits(q, ch);
    } else if q.state.ResStatusCode? {
      hide OnStatusCode;
      StatusCodeFits(q, ch);
    } else if q.state.ResStatusStart? {
      hide OnStatusStart;
      StatusStartFits(q, ch);
    } else if q.state.ResStatus? {
      hide OnStatus;
      StatusFits(q, ch);
    } else {
      hide OnResponseLine;
      ResponseVersionFits(q, ch);
    }
  }

  /** In the body states the handlers reopen or flush the body mark first, so a mark held over from
      earlier in the buffer makes no difference to what is observed. */
  predicate BodyOpsOk(o: Out, open: Open) {
    Fits(o, open) && (o.status.Failed? || OpenAfter(o.ops, open) == OpenAfter(o.ops, Closed))
  }

  lemma BodyMarkFits(o: Out)
    requires o.ops == [Mark(BodyData)] && o.status.Running? && BodyMarkState(o.q.state)
    ensures BodyOpsOk(o, Closed) && BodyOpsOk(o, Opened(BodyData))
  {
    assert o.ops[1..] == [];
  }

  lemma OneNoteFits(n: Note, o: Out)
    requires o.ops == [Notify(n)] && o.status.Running? && OpenIn(o.q.state).Closed?
    ensures BodyOpsOk(o, Closed)
  {
    assert o.ops[1..] == [];
  }

  lemma BodyIdentityFits(q: Parser, ch: byte, open: Open)
    requires q.state.BodyIdentity? && OpenMatches(open, q.state)
    ensures BodyOpsOk(OnBody(q, ch), open)
  {
    var q' := q.(contentLength := q.contentLength - 1);
    if q'.contentLength == 0 {
      hide OnMessageDone;
      var done := OnMessageDone(q'.(state := MessageDone));
      MessageDoneFits(q'.(state := MessageDone));
      var through := [Mark(BodyData), EmitThrough(BodyData)];
      assert through[1..] == [EmitThrough(BodyData)] && through[1..][1..] == [];
      ThenFits(through, done, open);
      OpsConcat(through, done.ops, open);
      OpsConcat(through, done.ops, Closed);
    } else {
      BodyMarkFits(OnBody(q, ch));
    }
  }

  lemma QuietBodyFits(q: Parser, ch: byte)
    requires q.state.ChunkSizeStart? || q.state.ChunkSize? || q.state.ChunkParameters?
    ensures BodyOpsOk(OnBody(q, ch), Closed)
  {
    hide Unhex;
  }

  lemma BodyDataFits(q: Parser, ch: byte, open: Open)
    requires (q.state.BodyIdentityEof? || q.state.ChunkData?) && OpenMatches(open, q.state)
    ensures BodyOpsOk(OnBody(q, ch), open)
  {
    BodyMarkFits(OnBody(q, ch));
  }

  lemma ChunkEndFits(q: Parser, ch: byte, open: Open)
    requires q.state.ChunkSizeAlmostDone? || q.state.ChunkDataAlmostDone? || q.state.ChunkDataDone?
    requires OpenMatches(open, q.state)
    ensures BodyOpsOk(OnBody(q, ch), open)
  {
    if q.state.ChunkDataAlmostDone? {
      assert [Emit(BodyData)][1..] == [];
    } else if ch == LF {
      OneNoteFits(if q.state.ChunkDataDone? then ChunkComplete else ChunkHeader(q.contentLength), OnBody(q, ch));
    }
  }

  lemma BodyFits(q: Parser, ch: byte, open: Open)
    requires BodyState(q.state) && OpenMatches(open, q.state)
    ensures BodyOpsOk(OnBody(q, ch), open)
  {
    if q.state.MessageDone? { hide OnMessageDone; MessageDoneFits(q); return; }
    hide OnBody;
    if q.state.BodyIdentity? { BodyIdentityFits(q, ch, open); }
    else if q.state.BodyIdentityEof? || q.state.ChunkData? { BodyDataFits(q, ch, open); }
    else if q.state.ChunkSizeStart? || q.state.ChunkSize? || q.state.ChunkParameters? { QuietBodyFits(q, ch); }
    else { ChunkEndFits(q, ch, open); }
  }

  lemma DispatchFits(q: Parser, ch: byte, open: Open)
    requires Counted(q) && OpenMatches(open, q.state)
    ensures Fits(Dispatch(q, ch), open)
    ensures Dispatch(q, ch).status.Failed? || Events(Dispatch(q, ch).ops, open, ch)
         == Events(Dispatch(q, ch).ops, OpenIn(q.state), ch)
  {
    hide OnResponseLine, OnRequestLine, OnHeaderLine, OnBody;
    if ResponseLineState(q.state) { ResponseLineFits(q, ch); }
    else if RequestLineState(q.state) { RequestLineFits(q, ch); }
    else if HeaderLineState(q.state) { HeaderLineFits(q, ch); }
    else if BodyState(q.state) { BodyFits(q, ch, open); }
  }
}
