/** Line ends: a bare line feed does what carriage return and line feed do, and a blank after a line end continues the
    value. */
module HttpLineEnds {
  import opened HttpGrammar
  import opened HttpStep
  import opened HttpInvariant
  import opened HttpMarks
  import opened HttpTracking
  import opened HttpHeaders
  import opened HttpStartLine
  import opened HttpStatusLine
  import opened HttpMessage

  /** Where a line may end. */
  predicate EndsLine(q: Parser) {
    q.state.ReqHttpEnd? || q.state.ResStatus? || q.state.HeaderValue? || q.state.HeaderValueDiscardWs? || AtLine(q)
  }

  /** The same outcome but for the byte counter. */
  predicate SameOutcome(a: RunState, b: RunState) {
    a.status == b.status && a.events == b.events && a.q.(nread := 0) == b.q.(nread := 0)
  }

  lemma PairRun(q: Parser, a: byte, q1: Parser, b: byte)
    requires Step(q, a) == RunState(q1, [], Running, 1)
    ensures Run(q, [a, b]) == Step(q1, b).(used := 1 + Step(q1, b).used)
  {
    hide Run, Step;
    RunOne(q, a);
    RunOne(q1, b);
    RunConcat(q, [a], [b]);
    assert [a] + [b] == [a, b] && [] + Step(q1, b).events == Step(q1, b).events;
  }

  lemma LfRequestLine(q: Parser)
    requires q.state.ReqHttpEnd? && q.nread + 2 <= MAX_HEADER_SIZE
    ensures SameOutcome(Run(q, [CR, LF]), Step(q, LF))
  {
    hide Run, Step;
    var q1 := q.(state := ReqLineAlmostDone, nread := q.nread + 1);
    QuietStep(q, CR, q1);
    QuietStep(q, LF, q.(state := HeaderFieldStart, nread := q.nread + 1));
    QuietStep(q1, LF, q.(state := HeaderFieldStart, nread := q.nread + 2));
    hide OnRequestLine;
    PairRun(q, CR, q1, LF);
  }

  lemma LfStatus(q: Parser)
    requires q.state.ResStatus? && q.nread + 2 <= MAX_HEADER_SIZE
    ensures SameOutcome(Run(q, [CR, LF]), Step(q, LF))
  {
    hide Run, Step;
    var q1 := q.(state := ResLineAlmostDone, nread := q.nread + 1);
    ReasonEnd(q);
    ReasonEnd(q1);
    LfStatusStep(q);
    PairRun(q, CR, q1, LF);
  }

  lemma LfStatusStep(q: Parser)
    requires q.state.ResStatus? && q.nread < MAX_HEADER_SIZE
    ensures Step(q, LF) == RunState(q.(state := HeaderFieldStart, nread := q.nread + 1), [], Running, 1)
  {
    hide Events;
    ReplyStep(q, LF);
    EmitEvents(StatusData, Opened(StatusData), LF);
  }

  lemma LfValue(q: Parser)
    requires q.state.HeaderValue? && q.nread + 2 <= MAX_HEADER_SIZE
    ensures SameOutcome(Run(q, [CR, LF]), Step(q, LF))
  {
    hide Run, Step;
    var q1 := q.(state := HeaderAlmostDone, nread := q.nread + 1);
    ValueEndSteps(q);
    ValueEndSteps(q1);
    LfValueStep(q);
    PairRun(q, CR, q1, LF);
  }

  lemma LfValueStep(q: Parser)
    requires q.state.HeaderValue? && q.nread < MAX_HEADER_SIZE
    ensures Step(q, LF) == RunState(q.(state := HeaderValueLws, nread := q.nread + 1), [], Running, 1)
  {
    hide Events;
    HeaderStep(q, LF);
    EmitEvents(ValueData, Opened(ValueData), LF);
    assert [Emit(ValueData)] + [] == [Emit(ValueData)];
  }

  lemma LfEmptyValue(q: Parser)
    requires q.state.HeaderValueDiscardWs? && q.nread + 2 <= MAX_HEADER_SIZE
    ensures SameOutcome(Run(q, [CR, LF]), Step(q, LF))
  {
    hide Run, Step;
    var q1 := q.(state := HeaderValueDiscardWsAlmostDone, nread := q.nread + 1);
    EmptyValueSteps(q);
    EmptyValueSteps(q1);
    LfEmptyStep(q);
    PairRun(q, CR, q1, LF);
  }

  lemma LfEmptyStep(q: Parser)
    requires q.state.HeaderValueDiscardWs? && q.nread < MAX_HEADER_SIZE
    ensures Step(q, LF) == RunState(q.(state := HeaderValueDiscardLws, nread := q.nread + 1), [], Running, 1)
  {
    hide Events;
    HeaderStep(q, LF);
    QuietEvents(LF);
  }

  lemma EndCounts(q: Parser, m: int, n: int)
    ensures var a, b := OnHeadersAlmostDone(q.(nread := m), LF), OnHeadersAlmostDone(q.(nread := n), LF);
      a.status == b.status && a.ops == b.ops && a.q.(nread := 0) == b.q.(nread := 0)
  {
    hide OnHeadersDone;
    DoneCounts(q.(state := HeadersDone, upgrade := true), m, n);
    DoneCounts(q.(state := HeadersDone, upgrade := false), m, n);
    var a, b := q.(nread := m), q.(nread := n);
    assert a.(state := HeadersDone, upgrade := true) == q.(state := HeadersDone, upgrade := true).(nread := m);
    assert a.(state := HeadersDone, upgrade := false) == q.(state := HeadersDone, upgrade := false).(nread := m);
    assert b.(state := HeadersDone, upgrade := true) == q.(state := HeadersDone, upgrade := true).(nread := n);
    assert b.(state := HeadersDone, upgrade := false) == q.(state := HeadersDone, upgrade := false).(nread := n);
  }

  lemma DoneCounts(q: Parser, m: int, n: int)
    ensures OnHeadersDone(q.(nread := m), LF) == OnHeadersDone(q.(nread := n), LF)
  {
  }

  lemma LfBlank(q: Parser)
    requires AtLine(q) && q.nread + 2 <= MAX_HEADER_SIZE
    ensures SameOutcome(Run(q, [CR, LF]), Step(q, LF))
  {
    hide Run, Step, Events, OnHeaderLine, Settled, OnHeadersAlmostDone;
    var q1 := Settled(q).(state := HeadersAlmostDone, nread := q.nread + 1);
    BlankLineCr(q);
    PairRun(q, CR, q1, LF);
    HeaderStep(q1, LF);
    HeaderStep(q, LF);
    LineStart(q.(nread := q.nread + 1), LF);
    SettledCount(q, q.nread + 1);
    AlmostDone(q1.(nread := q.nread + 2));
    var o := OnHeadersAlmostDone(q1, LF);
    EndCounts(q1, q.nread + 2, q.nread + 1);
    EmptyEmitEvents(o.ops, LF);
  }

  lemma AlmostDone(q: Parser)
    requires q.state.HeadersAlmostDone?
    ensures OnHeaderLine(q, LF) == OnHeadersAlmostDone(q, LF)
  {
    hide OnHeadersAlmostDone;
  }

  /** Wherever a line may end, a bare line feed ends it just as carriage return and line feed do. */
  lemma BareLineFeed(q: Parser)
    requires EndsLine(q) && q.nread + 2 <= MAX_HEADER_SIZE
    ensures SameOutcome(Run(q, [CR, LF]), Step(q, LF))
  {
    hide Run, Step, AtLine;
    if q.state.ReqHttpEnd? { LfRequestLine(q); }
    else if q.state.ResStatus? { LfStatus(q); }
    else if q.state.HeaderValue? { LfValue(q); }
    else if q.state.HeaderValueDiscardWs? { LfEmptyValue(q); }
    else { LfBlank(q); }
  }

  /** A blank at the start of a line continues the value, and is part of it. */
  lemma FoldedLine(q: Parser, ch: byte)
    requires q.state.HeaderValueLws? && Blank(ch) && q.nread < MAX_HEADER_SIZE && !q.hstate.ContentLength?
    ensures var r := Step(q, ch);
      r.status.Running? && r.events == DataEvents(ValueData, [ch]) && r.q.state.HeaderValue? && r.q.nread == q.nread + 1
  {
    hide Events, OnHeaderValueStart;
    HeaderStep(q, ch);
    var p := q.(nread := q.nread + 1, hstate := if q.hstate.ContentLengthNum? then ContentLengthWs else q.hstate);
    ValueStartShape(p, ch, q.nread + 1);
    FoldGoesOn(p, ch);
    MarkEvents(ValueData, ch);
  }

  lemma FoldGoesOn(q: Parser, ch: byte)
    requires !q.hstate.ContentLength?
    ensures OnHeaderValueStart(q, ch).status.Running?
  {
  }
}
