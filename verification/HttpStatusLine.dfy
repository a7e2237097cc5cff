/** Status lines: version, code and reason phrase. */
module HttpStatusLine {
  import opened HttpGrammar
  import opened HttpStep
  import opened HttpInvariant
  import opened HttpMarks
  import opened HttpTracking
  import opened HttpHeaders
  import opened HttpBody
  import opened HttpStartLine

  lemma ReplyStep(q: Parser, ch: byte)
    requires ResponseLineState(q.state) && q.nread < MAX_HEADER_SIZE
    ensures var o := OnResponseLine(q.(nread := q.nread + 1), ch);
      Step(q, ch) == RunState(o.q, Events(o.ops, OpenIn(q.state), ch), o.status, if o.status.Failed? then 0 else 1)
  {
    hide OnResponseLine, Events;
  }

  lemma QuietReply(q: Parser, ch: byte, q': Parser)
    requires ResponseLineState(q.state) && !q.state.ResStatus? && q.nread < MAX_HEADER_SIZE
    requires OnResponseLine(q.(nread := q.nread + 1), ch) == Out(q', [], Running)
    ensures Step(q, ch) == RunState(q', [], Running, 1)
  {
    hide OnResponseLine;
    ReplyStep(q, ch);
    QuietEvents(ch);
  }

  lemma ReplyPair(q: Parser, a: byte, q1: Parser, b: byte, q2: Parser)
    requires ResponseLineState(q.state) && !q.state.ResStatus? && q.nread + 2 <= MAX_HEADER_SIZE
    requires ResponseLineState(q1.state) && !q1.state.ResStatus? && q1.nread == q.nread + 1
    requires OnResponseLine(q.(nread := q.nread + 1), a) == Out(q1, [], Running)
    requires OnResponseLine(q1.(nread := q.nread + 2), b) == Out(q2, [], Running)
    ensures Reaches(q, [a, b], q2, [])
  {
    hide OnResponseLine, Run, Step;
    QuietReply(q, a, q1);
    QuietReply(q1, b, q2);
    QuietPair(q, a, q1, b, q2);
  }

  // ---------- the version ----------

  /** The parser once a reply has begun. */
  function ReplyBegun(q: Parser): Parser {
    q.(flags := NO_FLAGS, contentLength := ULLONG_MAX, state := ResH, nread := q.nread + 1)
  }

  lemma ReplyFirst(q: Parser)
    requires q.state.StartRes? && q.nread < MAX_HEADER_SIZE
    ensures Reaches(q, ['H' as int], ReplyBegun(q), [Noted(MessageBegin)])
  {
    hide Events, Run;
    ReplyStep(q, 'H' as int);
    NoteEvents(MessageBegin, 'H' as int);
    ReachesStep(q, 'H' as int, ReplyBegun(q), [Noted(MessageBegin)]);
  }

  lemma NameSteps(q: Parser)
    ensures q.state.ResH? ==> OnResponseLine(q, 'T' as int) == Go(q, ResHT)
    ensures q.state.ResHT? ==> OnResponseLine(q, 'T' as int) == Go(q, ResHTT)
    ensures q.state.ResHTT? ==> OnResponseLine(q, 'P' as int) == Go(q, ResHTTP)
    ensures q.state.ResHTTP? ==> OnResponseLine(q, '/' as int) == Go(q, ResHttpMajor)
  {
  }

  lemma VersionSteps(q: Parser, d: nat)
    requires d < 10
    ensures q.state.ResHttpMajor? ==> OnResponseLine(q, Digit(d)) == Go(q.(major := d), ResHttpDot)
    ensures q.state.ResHttpDot? ==> OnResponseLine(q, '.' as int) == Go(q, ResHttpMinor)
    ensures q.state.ResHttpMinor? ==> OnResponseLine(q, Digit(d)) == Go(q.(minor := d), ResHttpEnd)
    ensures q.state.ResHttpEnd? ==> OnResponseLine(q, SP) == Go(q, ResFirstStatusCode)
  {
  }

  lemma ReplyName(q: Parser)
    requires q.state.ResH? && q.nread + 4 <= MAX_HEADER_SIZE
    ensures Reaches(q, ['T' as int, 'T' as int] + ['P' as int, '/' as int],
                    q.(state := ResHttpMajor, nread := q.nread + 4), [])
  {
    var n := q.nread;
    var q1, q2 := q.(state := ResHT, nread := n + 1), q.(state := ResHTT, nread := n + 2);
    var q3, q4 := q.(state := ResHTTP, nread := n + 3), q.(state := ResHttpMajor, nread := n + 4);
    NameSteps(q.(nread := n + 1));
    NameSteps(q1.(nread := n + 2));
    NameSteps(q2.(nread := n + 3));
    NameSteps(q3.(nread := n + 4));
    hide OnResponseLine, Run;
    ReplyPair(q, 'T' as int, q1, 'T' as int, q2);
    ReplyPair(q2, 'P' as int, q3, '/' as int, q4);
    ReachesThen(q, ['T' as int, 'T' as int], q2, [], ['P' as int, '/' as int], q4, []);
  }

  lemma ReplyVersion(q: Parser, major: nat, minor: nat)
    requires q.state.ResHttpMajor? && q.nread + 4 <= MAX_HEADER_SIZE && major < 10 && minor < 10
    ensures Reaches(q, [Digit(major), '.' as int] + [Digit(minor), SP],
                    q.(state := ResFirstStatusCode, nread := q.nread + 4, major := major, minor := minor), [])
  {
    var n := q.nread;
    var q1 := q.(state := ResHttpDot, nread := n + 1, major := major);
    var q2 := q1.(state := ResHttpMinor, nread := n + 2);
    var q3 := q2.(state := ResHttpEnd, nread := n + 3, minor := minor);
    var q4 := q3.(state := ResFirstStatusCode, nread := n + 4);
    VersionSteps(q.(nread := n + 1), major);
    VersionSteps(q1.(nread := n + 2), major);
    VersionSteps(q2.(nread := n + 3), minor);
    VersionSteps(q3.(nread := n + 4), minor);
    hide OnResponseLine, Run, Digit;
    ReplyPair(q, Digit(major), q1, '.' as int, q2);
    ReplyPair(q2, Digit(minor), q3, SP, q4);
    ReachesThen(q, [Digit(major), '.' as int], q2, [], [Digit(minor), SP], q4, []);
  }

  // ---------- the code ----------

  lemma CodeDigit(q: Parser, ch: byte)
    requires q.state.ResStatusCode? && IsNum(ch) && q.nread < MAX_HEADER_SIZE
    ensures var n := q.statusCode * 10 + (ch - 48);
      if n <= 999 then Step(q, ch) == RunState(q.(statusCode := n, nread := q.nread + 1), [], Running, 1)
      else Step(q, ch).status.Failed?
  {
    ReplyStep(q, ch);
  }

  lemma CodeFirst(q: Parser, ch: byte)
    requires q.state.ResFirstStatusCode? && IsNum(ch) && q.nread < MAX_HEADER_SIZE
    ensures Step(q, ch)
         == RunState(q.(state := ResStatusCode, statusCode := ch - 48, nread := q.nread + 1), [], Running, 1)
  {
    ReplyStep(q, ch);
  }

  /** The digits of a code after the first. */
  lemma {:induction false} CodeMore(q: Parser, s: seq<byte>)
    requires q.state.ResStatusCode? && AllDecimal(s) && 0 <= q.statusCode <= 999 && q.nread + |s| <= MAX_HEADER_SIZE
    ensures var v := Value(10, q.statusCode, DecimalDigits(s));
      if v <= 999 then v >= 0 && Reaches(q, s, q.(statusCode := v, nread := q.nread + |s|), [])
      else Run(q, s).status.Failed?
  {
    hide Step, Run;
    if s == [] {
      ReachesNothing(q);
    } else {
      var t, ch := s[..|s| - 1], s[|s| - 1];
      assert s == t + [ch];
      CodeMore(q, t);
      assert DecimalDigits(s)[..|s| - 1] == DecimalDigits(t);
      ValueGrows(10, q.statusCode, DecimalDigits(t));
      var v := Value(10, q.statusCode, DecimalDigits(t));
      if v <= 999 {
        var r := q.(statusCode := v, nread := q.nread + |t|);
        CodeDigit(r, ch);
        RunOne(r, ch);
        if v * 10 + (ch - 48) <= 999 {
          ReachesThen(q, t, r, [], [ch], r.(statusCode := v * 10 + (ch - 48), nread := r.nread + 1), []);
        } else {
          ReachesFailure(q, t, r, [], [ch]);
        }
      } else {
        FailureStays(q, t, [ch]);
      }
    }
  }

  /** A status code is accepted exactly when its value is at most 999, and then it is the parser's. */
  lemma CodeExactly(q: Parser, s: seq<byte>)
    requires q.state.ResFirstStatusCode? && s != [] && AllDecimal(s) && q.nread + |s| <= MAX_HEADER_SIZE
    ensures var v := Value(10, 0, DecimalDigits(s));
      if v <= 999 then v >= 0 && Reaches(q, s, q.(state := ResStatusCode, statusCode := v, nread := q.nread + |s|), [])
      else Run(q, s).status.Failed?
  {
    hide Step, Run, Value, DecimalDigits;
    var ch, rest := s[0], s[1..];
    assert s == [ch] + rest;
    CodeFirst(q, ch);
    var q1 := q.(state := ResStatusCode, statusCode := ch - 48, nread := q.nread + 1);
    ReachesStep(q, ch, q1, []);
    FirstDigit(s);
    CodeMore(q1, rest);
    var v := Value(10, 0, DecimalDigits(s));
    if v <= 999 {
      ReachesThen(q, [ch], q1, [], rest, q1.(statusCode := v, nread := q1.nread + |rest|), []);
    } else {
      ReachesFailure(q, [ch], q1, [], rest);
    }
  }

  lemma FirstDigit(s: seq<byte>)
    requires s != [] && AllDecimal(s)
    ensures AllDecimal(s[1..]) && 0 <= s[0] - 48 <= 9
    ensures Value(10, 0, DecimalDigits(s)) == Value(10, s[0] - 48, DecimalDigits(s[1..]))
  {
    hide Value;
    ValueFirst(10, DecimalDigits(s));
    assert DecimalDigits(s)[1..] == DecimalDigits(s[1..]);
  }

  // ---------- the reason ----------

  lemma ReasonFirst(q: Parser, ch: byte)
    requires q.state.ResStatusStart? && ch != CR && ch != LF && q.nread < MAX_HEADER_SIZE
    ensures Step(q, ch) == RunState(q.(state := ResStatus, index := 0, nread := q.nread + 1),
                                    DataEvents(StatusData, [ch]), Running, 1)
  {
    hide Events;
    ReplyStep(q, ch);
    MarkEvents(StatusData, ch);
  }

  lemma ReasonMore(q: Parser, ch: byte)
    requires q.state.ResStatus? && ch != CR && ch != LF && q.nread < MAX_HEADER_SIZE
    ensures Step(q, ch) == RunState(q.(nread := q.nread + 1), DataEvents(StatusData, [ch]), Running, 1)
  {
    hide Events;
    ReplyStep(q, ch);
    OpenEvents(StatusData, ch);
  }

  predicate NoBreak(s: seq<byte>) { forall i :: 0 <= i < |s| ==> s[i] != CR && s[i] != LF }

  lemma {:induction false} ReasonText(q: Parser, s: seq<byte>)
    requires q.state.ResStatusStart? && NoBreak(s) && s != [] && q.nread + |s| <= MAX_HEADER_SIZE
    ensures Reaches(q, s, q.(state := ResStatus, index := 0, nread := q.nread + |s|), DataEvents(StatusData, s))
  {
    hide Run, Step, DataEvents;
    var t, ch := s[..|s| - 1], s[|s| - 1];
    assert s == t + [ch];
    if t == [] {
      assert s == [ch];
      ReasonFirst(q, ch);
      ReachesStep(q, ch, q.(state := ResStatus, index := 0, nread := q.nread + 1), DataEvents(StatusData, [ch]));
    } else {
      ReasonText(q, t);
      var r := q.(state := ResStatus, index := 0, nread := q.nread + |t|);
      ReasonMore(r, ch);
      ReachesStep(r, ch, r.(nread := r.nread + 1), DataEvents(StatusData, [ch]));
      ReachesThen(q, t, r, DataEvents(StatusData, t), [ch], r.(nread := r.nread + 1), DataEvents(StatusData, [ch]));
      DataEventsSplit(StatusData, t, [ch]);
    }
  }

  lemma ReasonEnd(q: Parser)
    requires q.nread < MAX_HEADER_SIZE
    ensures q.state.ResStatusStart? ==>
      Step(q, CR) == RunState(q.(state := ResLineAlmostDone, index := 0, nread := q.nread + 1), [], Running, 1)
    ensures q.state.ResStatus? ==>
      Step(q, CR) == RunState(q.(state := ResLineAlmostDone, nread := q.nread + 1), [], Running, 1)
    ensures q.state.ResLineAlmostDone? ==>
      Step(q, LF) == RunState(q.(state := HeaderFieldStart, nread := q.nread + 1), [], Running, 1)
  {
    hide Events, OnResponseLine;
    if q.state.ResStatusStart? {
      ReplyStep(q, CR);
      StatusEnds(q.(nread := q.nread + 1));
      EmptyStatusEvents();
    } else if q.state.ResStatus? {
      ReplyStep(q, CR);
      StatusEnds(q.(nread := q.nread + 1));
      EmitEvents(StatusData, Opened(StatusData), CR);
    } else if q.state.ResLineAlmostDone? {
      ReplyStep(q, LF);
      StatusEnds(q.(nread := q.nread + 1));
      QuietEvents(LF);
    }
  }

  lemma StatusEnds(q: Parser)
    ensures q.state.ResStatusStart? ==>
      OnResponseLine(q, CR)
        == Out(q.(state := ResLineAlmostDone, index := 0), [Mark(StatusData)] + [Emit(StatusData)], Running)
    ensures q.state.ResStatus? ==>
      OnResponseLine(q, CR) == Out(q.(state := ResLineAlmostDone), [Emit(StatusData)], Running)
    ensures q.state.ResLineAlmostDone? ==> OnResponseLine(q, LF) == Go(q, HeaderFieldStart)
  {
  }

  lemma EmptyStatusEvents()
    ensures Events([Mark(StatusData)] + [Emit(StatusData)], Closed, CR) == []
  {
    var ops := [Mark(StatusData)] + [Emit(StatusData)];
    assert ops[1..] == [Emit(StatusData)];
    EmitEvents(StatusData, Opened(StatusData), CR);
    assert Announced(ops, CR) == Announced([Emit(StatusData)], CR);
    assert OpenAfter(ops, Closed) == OpenAfter([Emit(StatusData)], Opened(StatusData));
  }

  lemma Reason(q: Parser, s: seq<byte>)
    requires q.state.ResStatusStart? && NoBreak(s) && q.nread + |s| + 2 <= MAX_HEADER_SIZE
    ensures Reaches(q, s + [CR, LF], q.(state := HeaderFieldStart, index := 0, nread := q.nread + |s| + 2),
                    DataEvents(StatusData, s))
  {
    hide Run, Step;
    var r := if s == [] then q else q.(state := ResStatus, index := 0, nread := q.nread + |s|);
    if s == [] { ReachesNothing(q); } else { ReasonText(q, s); }
    var r1 := q.(state := ResLineAlmostDone, index := 0, nread := q.nread + |s| + 1);
    var r2 := r1.(state := HeaderFieldStart, nread := r1.nread + 1);
    ReasonEnd(r);
    ReasonEnd(r1);
    QuietPair(r, CR, r1, LF, r2);
    ReachesThen(q, s, r, DataEvents(StatusData, s), [CR, LF], r2, []);
    NoMore(DataEvents(StatusData, s));
  }

  // ---------- the whole line ----------

  datatype StatusLine = StatusLine(major: nat, minor: nat, code: seq<byte>, reason: seq<byte>)

  predicate StatusOk(l: StatusLine) {
    l.major < 10 && l.minor < 10 && l.code != [] && AllDecimal(l.code) && NoBreak(l.reason)
  }

  function Code(l: StatusLine): int { Value(10, 0, DecimalDigits(l.code)) }

  function VersionPart(l: StatusLine): seq<byte>
    requires l.major < 10 && l.minor < 10
  {
    ['H' as int] + (['T' as int, 'T' as int] + ['P' as int, '/' as int])
    + ([Digit(l.major), '.' as int] + [Digit(l.minor), SP])
  }

  function StatusBytes(l: StatusLine): seq<byte>
    requires l.major < 10 && l.minor < 10
  {
    VersionPart(l) + l.code + ([SP] + (l.reason + [CR, LF]))
  }

  function StatusEvents(l: StatusLine): seq<Event> { [Noted(MessageBegin)] + DataEvents(StatusData, l.reason) }

  function StatusRead(q: Parser, l: StatusLine): Parser
    requires l.major < 10 && l.minor < 10
  {
    q.(flags := NO_FLAGS, contentLength := ULLONG_MAX, state := HeaderFieldStart, index := 0,
       nread := q.nread + |StatusBytes(l)|, major := l.major, minor := l.minor, statusCode := Code(l))
  }

  lemma VersionRead(q: Parser, l: StatusLine)
    requires q.state.StartRes? && StatusOk(l) && q.nread + 9 <= MAX_HEADER_SIZE
    ensures var r := ReplyBegun(q).(state := ResFirstStatusCode, nread := q.nread + 9);
      Reaches(q, VersionPart(l), r.(major := l.major, minor := l.minor), [Noted(MessageBegin)])
  {
    hide Run, Step;
    var q1 := ReplyBegun(q);
    var q5 := q1.(state := ResHttpMajor, nread := q.nread + 5);
    var q9 := q5.(state := ResFirstStatusCode, nread := q.nread + 9, major := l.major, minor := l.minor);
    ReplyFirst(q);
    ReplyName(q1);
    ReplyVersion(q5, l.major, l.minor);
    var a := ['T' as int, 'T' as int] + ['P' as int, '/' as int];
    var b := [Digit(l.major), '.' as int] + [Digit(l.minor), SP];
    ReachesThen(q, ['H' as int], q1, [Noted(MessageBegin)], a, q5, []);
    ReachesThen(q, ['H' as int] + a, q5, [Noted(MessageBegin)] + [], b, q9, []);
    NoMore([Noted(MessageBegin)]);
  }

  lemma CodeSpace(q: Parser)
    requires q.state.ResStatusCode? && q.nread < MAX_HEADER_SIZE
    ensures Reaches(q, [SP], q.(state := ResStatusStart, nread := q.nread + 1), [])
  {
    hide Run;
    ReplyStep(q, SP);
    ReachesStep(q, SP, q.(state := ResStatusStart, nread := q.nread + 1), []);
  }

  /** Any status line, from a parser that waits for one: version and code are recorded and the reason phrase announced,
      or the code is above 999 and refused. */
  lemma StatusLineRead(q: Parser, l: StatusLine)
    requires q.state.StartRes? && StatusOk(l) && q.nread + |StatusBytes(l)| <= MAX_HEADER_SIZE
    ensures if Code(l) <= 999 then Reaches(q, StatusBytes(l), StatusRead(q, l), StatusEvents(l))
            else Run(q, StatusBytes(l)).status.Failed?
  {
    hide Run, Step, Value, DataEvents, DecimalDigits, AllDecimal;
    var q9 := ReplyBegun(q).(state := ResFirstStatusCode, nread := q.nread + 9, major := l.major, minor := l.minor);
    var rest := [SP] + (l.reason + [CR, LF]);
    assert |VersionPart(l)| == 9;
    VersionRead(q, l);
    CodeExactly(q9, l.code);
    if Code(l) <= 999 {
      var c := q9.(state := ResStatusCode, statusCode := Code(l), nread := q9.nread + |l.code|);
      var s := c.(state := ResStatusStart, nread := c.nread + 1);
      CodeSpace(c);
      Reason(s, l.reason);
      ReachesThen(c, [SP], s, [], l.reason + [CR, LF], StatusRead(q, l), DataEvents(StatusData, l.reason));
      NoMore(DataEvents(StatusData, l.reason));
      ReachesThen(q, VersionPart(l), q9, [Noted(MessageBegin)], l.code, c, []);
      NoMore([Noted(MessageBegin)]);
      ReachesThen(q, VersionPart(l) + l.code, c, [Noted(MessageBegin)], rest, StatusRead(q, l),
                  DataEvents(StatusData, l.reason));
    } else {
      ReachesFailure(q, VersionPart(l), q9, [Noted(MessageBegin)], l.code);
      FailureStays(q, VersionPart(l) + l.code, rest);
    }
  }

  // ---------- requests or replies ----------

  /** A parser for both kinds of message, at the beginning of one. */
  predicate Undecided(q: Parser) { q.state.StartReqOrRes? && q.nread + 2 <= MAX_HEADER_SIZE }

  lemma UndecidedOther(q: Parser, ch: byte)
    requires Undecided(q) && ch != 'H' as int && ch != CR && ch != LF
    ensures Step(q, ch) == Step(q.(typ := Request, state := StartReq), ch)
  {
    UndecidedHandler(q.(nread := q.nread + 1), ch);
    hide Events, OnResponseLine, OnRequestLine, Step;
    ReplyStep(q, ch);
    LineStep(q.(typ := Request, state := StartReq), ch);
  }

  lemma UndecidedHandler(q: Parser, ch: byte)
    requires q.state.StartReqOrRes? && ch != 'H' as int && ch != CR && ch != LF
    ensures OnResponseLine(q, ch) == OnRequestLine(q.(typ := Request, state := StartReq), ch)
  {
    hide FirstMethod;
  }

  lemma UndecidedH(q: Parser)
    requires Undecided(q)
    ensures Step(q, 'H' as int) == RunState(ReplyBegun(q).(state := ResOrRespH), [Noted(MessageBegin)], Running, 1)
  {
    hide Events;
    ReplyStep(q, 'H' as int);
    NoteEvents(MessageBegin, 'H' as int);
  }

  lemma SecondLetter(q: Parser)
    requires q.state.ResOrRespH? && q.nread < MAX_HEADER_SIZE
    ensures Step(q, 'T' as int) == RunState(q.(typ := Response, state := ResHT, nread := q.nread + 1), [], Running, 1)
    ensures var r := q.(typ := Request, state := ReqMethod, meth := HEAD, index := 2, nread := q.nread + 1);
      Step(q, 'E' as int) == RunState(r, [], Running, 1)
  {
    ReplyStep(q, 'T' as int);
    ReplyStep(q, 'E' as int);
  }

  /** A parser for both kinds goes on as a parser for replies after `HT`, and as one for requests after `HE`. */
  lemma KindDecided(q: Parser)
    requires Undecided(q)
    ensures Reaches(q, ['H' as int, 'T' as int],
                    ReplyBegun(q).(typ := Response, state := ResHT, nread := q.nread + 2), [Noted(MessageBegin)])
    ensures Reaches(q, ['H' as int, 'E' as int],
                    Reading(q.(typ := Request), HEAD, 2), [Noted(MessageBegin)])
  {
    hide Run, Step;
    var h := ReplyBegun(q).(state := ResOrRespH);
    UndecidedH(q);
    SecondLetter(h);
    ReachesStep(q, 'H' as int, h, [Noted(MessageBegin)]);
    var t := h.(typ := Response, state := ResHT, nread := q.nread + 2);
    var e := h.(typ := Request, state := ReqMethod, meth := HEAD, index := 2, nread := q.nread + 2);
    ReachesStep(h, 'T' as int, t, []);
    ReachesStep(h, 'E' as int, e, []);
    ReachesThen(q, ['H' as int], h, [Noted(MessageBegin)], ['T' as int], t, []);
    ReachesThen(q, ['H' as int], h, [Noted(MessageBegin)], ['E' as int], e, []);
    assert ['H' as int] + ['T' as int] == ['H' as int, 'T' as int];
    assert ['H' as int] + ['E' as int] == ['H' as int, 'E' as int];
    NoMore([Noted(MessageBegin)]);
  }
}
