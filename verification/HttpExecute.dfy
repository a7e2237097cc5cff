/** Body bulk paths and `http_parser_execute` itself: one buffer observes exactly what the byte-at-a-time
    reference observes, so cutting the input differently changes nothing. */
module HttpExecute {
  import opened HttpGrammar
  import opened HttpStep
  import opened HttpInvariant
  import opened HttpMarks
  import opened HttpTracking
  import opened HttpFieldBulk
  import opened HttpValueBulk

  // ---------- bulk: bodies ----------

  predicate BodyBulkState(s: State) { s.BodyIdentity? || s.BodyIdentityEof? || s.ChunkData? }

  /** A body of `n` more bytes, none of which completes it. */
  function BodyTaken(q: Parser, n: nat): Parser {
    if q.state.BodyIdentityEof? then q else q.(contentLength := q.contentLength - n)
  }

  lemma BodyByteStep(q: Parser, ch: byte)
    requires BodyBulkState(q.state) && (q.state.BodyIdentityEof? || q.contentLength > 1)
    ensures Step(q, ch) == RunState(BodyTaken(q, 1), DataEvents(BodyData, [ch]), Running, 1)
  {
    hide OnMessageDone;
    EventsAre([Mark(BodyData)], Closed, ch);
    assert [Mark(BodyData)][1..] == [];
    assert [] + DataEvents(BodyData, [ch]) == DataEvents(BodyData, [ch]);
  }

  lemma {:induction false} RunBody(q: Parser, s: seq<byte>)
    requires BodyBulkState(q.state) && (q.state.BodyIdentityEof? || q.contentLength > |s|)
    ensures Run(q, s) == RunState(BodyTaken(q, |s|), DataEvents(BodyData, s), Running, |s|)
  {
    hide Step;
    if s != [] {
      var t, ch := s[..|s| - 1], s[|s| - 1];
      RunBody(q, t);
      assert s == t + [ch];
      DataEventsSplit(BodyData, t, [ch]);
      BodyByteStep(BodyTaken(q, |t|), ch);
    } else {
      assert DataEvents(BodyData, s) == [];
    }
  }

  /** `MARK(body)`: setting the mark where none was set changes nothing that is observed. */
  lemma BodyMarked(q0: Parser, data: seq<byte>, p: nat, c: Cursor)
    requires Tracks(q0, data, p, c) && p < |data| && BodyBulkState(c.q.state)
    ensures Tracks(q0, data, p, c.(marks := if c.marks.body >= 0 then c.marks else c.marks.(body := p)))
    ensures OpenOf(if c.marks.body >= 0 then c.marks else c.marks.(body := p)) == Opened(BodyData)
  {
    hide Run, Inv;
    MarkView(BodyData, c.marks, c.log, data, p);
    assert [Mark(BodyData)][1..] == [];
    assert Announced([Mark(BodyData)], data[p]) == [];
  }

  lemma BodyStretch(q0: Parser, data: seq<byte>, p: nat, c: Cursor, e: nat)
    requires Tracks(q0, data, p, c) && p <= e <= |data| && BodyBulkState(c.q.state)
    requires OpenOf(c.marks) == Opened(BodyData)
    requires c.q.state.BodyIdentityEof? || c.q.contentLength > e - p
    ensures Tracks(q0, data, e, c.(q := BodyTaken(c.q, e - p)))
  {
    hide Run, Inv, SingleMark, View;
    RunBody(c.q, data[p..e]);
    StretchTracks(q0, data, p, c, e, BodyTaken(c.q, e - p), BodyData);
  }

  /** The last byte of a fixed-length body: delivered with the body callback, then the message completes. */
  function BodyCompleted(c: Cursor, data: seq<byte>, p: nat): Cursor
    requires 0 <= c.marks.body <= p < |data|
  {
    var q := c.q.(contentLength := 0, state := MessageDone);
    Cursor(q.(state := NewMessage(q)), c.marks.(body := -1),
           c.log + [DataCallback(BodyData, data[c.marks.body..p + 1]), NoteCallback(MessageComplete)])
  }

  lemma BodyLastTracks(q0: Parser, data: seq<byte>, p: nat, c: Cursor)
    requires Tracks(q0, data, p, c) && p < |data| && OpenOf(c.marks) == Opened(BodyData)
    requires c.q.state.BodyIdentity? && c.q.contentLength == 1
    ensures 0 <= c.marks.body <= p
    ensures Advanced(q0, data, p, BodyCompleted(c, data, p), p + 1, if c.q.upgrade then Left else Running)
  {
    hide Run, Inv, View, Tracks, Advanced, NewMessage;
    CursorFacts(q0, data, p, c);
    SwitchTracks(q0, data, p, c, c.q);
    SingleMarkOf(q0, data, p, c);
    var ops := [Mark(BodyData), EmitThrough(BodyData)] + [Notify(MessageComplete)];
    assert ops[1..] == [EmitThrough(BodyData), Notify(MessageComplete)] && ops[1..][1..] == [Notify(MessageComplete)]
        && ops[1..][1..][1..] == [];
    var log1 := c.log + [DataCallback(BodyData, data[c.marks.body..p + 1])];
    assert ApplyOps([Notify(MessageComplete)], c.marks.(body := -1), log1, data, p)
        == (c.marks.(body := -1), log1 + [NoteCallback(MessageComplete)]);
    assert log1 + [NoteCallback(MessageComplete)]
        == c.log + [DataCallback(BodyData, data[c.marks.body..p + 1]), NoteCallback(MessageComplete)];
  }

  lemma SingleMarkOf(q0: Parser, data: seq<byte>, p: nat, c: Cursor)
    requires Tracks(q0, data, p, c)
    ensures SingleMark(c.marks, p)
  {
    hide Run, Inv, View;
  }

  lemma ChunkLastTracks(q0: Parser, data: seq<byte>, p: nat, c: Cursor)
    requires Tracks(q0, data, p, c) && p < |data| && OpenOf(c.marks) == Opened(BodyData)
    requires c.q.state.ChunkData? && c.q.contentLength == 1
    ensures Tracks(q0, data, p + 1, c.(q := c.q.(contentLength := 0, state := ChunkDataAlmostDone)))
  {
    hide Run, Inv, View, Tracks;
    CursorFacts(q0, data, p, c);
    SwitchTracks(q0, data, p, c, c.q);
    SingleMarkOf(q0, data, p, c);
    assert [Mark(BodyData)][1..] == [];
  }

  lemma LengthPositive(q0: Parser, data: seq<byte>, p: nat, c: Cursor)
    requires Tracks(q0, data, p, c) && BodyBulkState(c.q.state)
    ensures c.q.state.BodyIdentityEof? || (c.q.contentLength > 0 && c.q.contentLength != ULLONG_MAX)
  {
    hide Run, View, SingleMark;
  }

  /** `s_body_identity`, `s_body_identity_eof` and `s_chunk_data` from the byte at `p`. */
  method BodyBulk(ghost q0: Parser, data: seq<byte>, p: nat, c: Cursor) returns (c': Cursor, e: nat, status: Status)
    requires Tracks(q0, data, p, c) && p < |data| && BodyBulkState(c.q.state)
    ensures Advanced(q0, data, p, c', e, status)
  {
    hide Run, Tracks, Advanced, Inv, NewMessage;
    LengthPositive(q0, data, p, c);
    BodyMarked(q0, data, p, c);
    c' := c.(marks := if c.marks.body >= 0 then c.marks else c.marks.(body := p));
    status := Running;
    if c.q.state.BodyIdentityEof? {
      e := |data|;
      BodyStretch(q0, data, p, c', e);
      AdvancedRunning(q0, data, p, c', e);
      return;
    }
    var take := if c.q.contentLength < |data| - p then c.q.contentLength else |data| - p;
    e := p + take;
    var length := c.q.contentLength - take;
    if length != 0 {
      BodyStretch(q0, data, p, c', e);
      c' := c'.(q := c.q.(contentLength := length));
      AdvancedRunning(q0, data, p, c', e);
      return;
    }
    BodyStretch(q0, data, p, c', e - 1);
    ghost var before := c'.(q := c.q.(contentLength := 1));
    if c.q.state.ChunkData? {
      ChunkLastTracks(q0, data, e - 1, before);
      c' := c'.(q := c.q.(contentLength := 0, state := ChunkDataAlmostDone));
      AdvancedRunning(q0, data, p, c', e);
    } else {
      BodyLastTracks(q0, data, e - 1, before);
      AdvancedEarlier(q0, data, p, e - 1, BodyCompleted(before, data, e - 1), e, if c.q.upgrade then Left else Running);
      var q := c.q.(contentLength := 0, state := MessageDone);
      c' := Cursor(q.(state := NewMessage(q)), c'.marks.(body := -1),
                   c.log + [DataCallback(BodyData, data[c'.marks.body..e]), NoteCallback(MessageComplete)]);
      if c.q.upgrade { status := Left; }
    }
  }

  lemma AdvancedEarlier(q0: Parser, data: seq<byte>, p: nat, p': nat, c: Cursor, e: nat, status: Status)
    requires p <= p' && Advanced(q0, data, p', c, e, status)
    ensures Advanced(q0, data, p, c, e, status)
  {
    hide Run, Tracks;
  }

  // ---------- one buffer ----------

  /** The trip round the byte loop for a state without a fast path: count, switch, carry out the requests. */
  method SwitchByte(ghost q0: Parser, data: seq<byte>, p: nat, c: Cursor) returns (c': Cursor, e: nat, status: Status)
    requires Tracks(q0, data, p, c) && p < |data|
    ensures Advanced(q0, data, p, c', e, status)
  {
    hide Run, Tracks, Advanced, Inv, Dispatch;
    CursorFacts(q0, data, p, c);
    var counted := if ParsingHeader(c.q.state) then c.q.(nread := c.q.nread + 1) else c.q;
    if counted.nread > MAX_HEADER_SIZE {
      OverflowAt(q0, data, p, c);
      AdvancedFailed(q0, data, p, c.(q := counted), p, HeaderOverflow);
      return Failing(c.(q := counted), HeaderOverflow), p, Failed;
    }
    SwitchTracks(q0, data, p, c, counted);
    SingleMarkOf(q0, data, p, c);
    var o := Dispatch(counted, data[p]);
    var r := ApplyOps(o.ops, c.marks, c.log, data, p);
    return Cursor(o.q, r.0, r.1), p + 1, o.status;
  }

  /** The leftover callback at the end of a buffer; at most one mark can be set. */
  method Flush(c: Cursor, data: seq<byte>) returns (log: seq<Callback>)
    requires SingleMark(c.marks, |data|)
    ensures Flatten(log) == View(c.log, c.marks, data, |data|)
  {
    var m := c.marks;
    assert (if m.field >= 0 then 1 else 0) + (if m.value >= 0 then 1 else 0) + (if m.url >= 0 then 1 else 0)
        + (if m.body >= 0 then 1 else 0) + (if m.status >= 0 then 1 else 0) <= 1;
    FlushPush(c, data);
    log := c.log;
    if m.field >= 0 { log := log + [DataCallback(FieldData, data[m.field..])]; }
    if m.value >= 0 { log := log + [DataCallback(ValueData, data[m.value..])]; }
    if m.url >= 0 { log := log + [DataCallback(UrlData, data[m.url..])]; }
    if m.body >= 0 { log := log + [DataCallback(BodyData, data[m.body..])]; }
    if m.status >= 0 { log := log + [DataCallback(StatusData, data[m.status..])]; }
  }

  lemma FlushPush(c: Cursor, data: seq<byte>)
    requires SingleMark(c.marks, |data|)
    ensures match OpenOf(c.marks)
      case Closed => Flatten(c.log) == View(c.log, c.marks, data, |data|)
      case Opened(k) => 0 <= At(c.marks, k) <= |data| &&
                        Flatten(c.log + [DataCallback(k, data[At(c.marks, k)..])]) == View(c.log, c.marks, data, |data|)
  {
    match OpenOf(c.marks)
    case Closed =>
    case Opened(k) =>
      assert data[At(c.marks, k)..] == data[At(c.marks, k)..|data|];
      FlattenPush(c.log, DataCallback(k, data[At(c.marks, k)..]));
  }

  /** What a call on a nonempty buffer must produce, in terms of the byte-at-a-time reference. */
  ghost predicate Observes(q0: Parser, data: seq<byte>, q: Parser, log: seq<Callback>, used: nat) {
    var r := Run(q0, data);
    if r.status.Failed? then !q.errno.Ok?
    else q == r.q && q.errno.Ok? && Inv(q) && used == r.used && Flatten(log) == r.events
  }

  /** `http_parser_execute` with callbacks returning 0. */
  method Execute(q0: Parser, data: seq<byte>) returns (q: Parser, log: seq<Callback>, used: nat)
    requires q0.errno.Ok? ==> Inv(q0)
    requires BufferFits(data)
    ensures !q0.errno.Ok? ==> q == q0 && log == [] && used == 0
    ensures q0.errno.Ok? && data != [] ==> Observes(q0, data, q, log, used)
    ensures q0.errno.Ok? && data == [] ==>
      log == (if q0.state.BodyIdentityEof? then [NoteCallback(MessageComplete)] else [])
    ensures q0.errno.Ok? && data == [] ==>
      if q0.state.BodyIdentityEof? || q0.state.Dead? || q0.state.StartReqOrRes? || q0.state.StartRes?
         || q0.state.StartReq?
      then q == q0 && used == 0 else q == q0.(errno := InvalidEofState) && used == 1
  {
    hide Run, Tracks, Advanced, Inv;
    if !q0.errno.Ok? { return q0, [], 0; }
    if data == [] {
      match q0.state
      case BodyIdentityEof => return q0, [NoteCallback(MessageComplete)], 0;
      case Dead => return q0, [], 0;
      case StartReqOrRes => return q0, [], 0;
      case StartRes => return q0, [], 0;
      case StartReq => return q0, [], 0;
      case _ => return q0.(errno := InvalidEofState), [], 1;
    }
    var c := Cursor(q0, InitialMarks(q0.state), []);
    TracksStart(q0, data);
    var p := 0;
    while p != |data|
      invariant p <= |data| && Tracks(q0, data, p, c)
      decreases |data| - p
    {
      var status, e;
      if c.q.state.HeaderField? { c, e, status := FieldBulk(q0, data, p, c); }
      else if c.q.state.HeaderValue? { c, e, status := ValueBulk(q0, data, p, c); }
      else if BodyBulkState(c.q.state) { c, e, status := BodyBulk(q0, data, p, c); }
      else { c, e, status := SwitchByte(q0, data, p, c); }
      AdvancedMeans(q0, data, p, c, e, status);
      if !status.Running? { return c.q, c.log, e; }
      p := e;
    }
    TracksEnd(q0, data, c);
    log := Flush(c, data);
    return c.q, log, |data|;
  }

  lemma AdvancedMeans(q0: Parser, data: seq<byte>, p: nat, c: Cursor, e: nat, status: Status)
    requires Inv(q0) && Advanced(q0, data, p, c, e, status)
    ensures status.Running? ==> p < e <= |data| && Tracks(q0, data, e, c)
    ensures !status.Running? ==> Observes(q0, data, c.q, c.log, e)
  {
    hide Run, Tracks, Inv;
    RunKeepsInv(q0, data);
  }

  lemma TracksEnd(q0: Parser, data: seq<byte>, c: Cursor)
    requires Tracks(q0, data, |data|, c)
    ensures SingleMark(c.marks, |data|)
    ensures forall log | Flatten(log) == View(c.log, c.marks, data, |data|) :: Observes(q0, data, c.q, log, |data|)
  {
    hide Run, View, SingleMark;
    assert data[..|data|] == data;
    RunUsesAll(q0, data);
    CursorFacts(q0, data, |data|, c);
    hide Inv;
  }
}
