/** Whole header lines: any name, any blanks after the colon, any value, also an empty one. */
module HttpHeaders {
  import opened HttpGrammar
  import opened HttpStep
  import opened HttpInvariant
  import opened HttpMarks
  import opened HttpTracking
  import opened HttpFieldBulk
  import opened HttpValueBulk

  // ---------- runs ----------

  /** The steps of a run that goes on, event by event. */
  ghost predicate Reaches(q: Parser, data: seq<byte>, q': Parser, events: seq<Event>) {
    Run(q, data) == RunState(q', events, Running, |data|)
  }

  lemma ReachesThen(q: Parser, a: seq<byte>, q1: Parser, ea: seq<Event>, b: seq<byte>, q2: Parser, eb: seq<Event>)
    requires Reaches(q, a, q1, ea) && Reaches(q1, b, q2, eb)
    ensures Reaches(q, a + b, q2, ea + eb)
  {
    hide Run;
    RunConcat(q, a, b);
  }

  /** Reaching a state from which the rest fails is failing. */
  lemma ReachesFailure(q: Parser, a: seq<byte>, q1: Parser, ea: seq<Event>, b: seq<byte>)
    requires Reaches(q, a, q1, ea) && Run(q1, b).status.Failed?
    ensures Run(q, a + b).status.Failed?
  {
    hide Run;
    RunConcat(q, a, b);
  }

  lemma FailureStays(q: Parser, a: seq<byte>, b: seq<byte>)
    requires Run(q, a).status.Failed?
    ensures Run(q, a + b).status.Failed?
  {
    hide Run;
    RunConcat(q, a, b);
  }

  lemma ReachesStep(q: Parser, ch: byte, q': Parser, events: seq<Event>)
    requires Step(q, ch) == RunState(q', events, Running, 1)
    ensures Reaches(q, [ch], q', events)
  {
    hide Run, Step;
    RunOne(q, ch);
  }

  lemma ReachesNothing(q: Parser)
    ensures Reaches(q, [], q, [])
  {
  }

  lemma ReachesInv(q: Parser, data: seq<byte>, q': Parser, events: seq<Event>)
    requires Inv(q) && Reaches(q, data, q', events)
    ensures Inv(q')
  {
    hide Run, Inv;
    RunKeepsInv(q, data);
  }

  /** Two bytes that announce nothing. */
  lemma QuietPair(q: Parser, a: byte, q1: Parser, b: byte, q2: Parser)
    requires Step(q, a) == RunState(q1, [], Running, 1) && Step(q1, b) == RunState(q2, [], Running, 1)
    ensures Reaches(q, [a, b], q2, [])
  {
    hide Run, Step;
    ReachesStep(q, a, q1, []);
    ReachesStep(q1, b, q2, []);
    ReachesThen(q, [a], q1, [], [b], q2, []);
    assert [a] + [b] == [a, b];
  }

  // ---------- what requests announce ----------

  lemma NoteEvents(n: Note, ch: byte)
    ensures Events([Notify(n)], Closed, ch) == [Noted(n)]
  {
    assert [Notify(n)][1..] == [];
    assert Announced([Notify(n)], ch) == [Noted(n)] + Announced([], ch);
    assert OpenAfter([Notify(n)], Closed) == OpenAfter([], Closed);
  }

  lemma MarkEvents(k: Kind, ch: byte)
    ensures Events([Mark(k)], Closed, ch) == DataEvents(k, [ch])
  {
    assert [Mark(k)][1..] == [] && DataEvents(k, [ch]) == [Data(k, ch)];
    assert Announced([Mark(k)], ch) == Announced([], ch);
    assert OpenAfter([Mark(k)], Closed) == OpenAfter([], Opened(k));
  }

  lemma EmitEvents(k: Kind, open: Open, ch: byte)
    ensures open == Opened(k) || open == Closed ==> Events([Emit(k)], open, ch) == []
  {
    assert [Emit(k)][1..] == [];
    assert Announced([Emit(k)], ch) == Announced([], ch);
    assert OpenAfter([Emit(k)], open) == OpenAfter([], if open == Opened(k) then Closed else open);
  }

  lemma QuietEvents(ch: byte)
    ensures Events([], Closed, ch) == []
  {
  }

  /** Marking and emitting at once announces nothing; whatever follows does as if it stood alone. */
  lemma EmptyEmitEvents(ops: seq<Op>, ch: byte)
    ensures Events([Mark(ValueData), Emit(ValueData)] + ops, Closed, ch) == Events(ops, Closed, ch)
  {
    var all := [Mark(ValueData), Emit(ValueData)] + ops;
    var tail := [Emit(ValueData)] + ops;
    assert all[1..] == tail && tail[1..] == ops;
    assert Announced(all, ch) == Announced(tail, ch) == Announced(ops, ch);
    assert OpenAfter(all, Closed) == OpenAfter(tail, Opened(ValueData)) == OpenAfter(ops, Closed);
  }

  // ---------- lines ----------

  /** One header line; the bytes after its colon split into blanks and a value that does not begin with one. */
  datatype Field = Field(name: seq<byte>, blanks: seq<byte>, value: seq<byte>)

  predicate Blank(ch: byte) { ch == SP || ch == TAB }

  predicate AllBlank(s: seq<byte>) { forall i :: 0 <= i < |s| ==> Blank(s[i]) }

  predicate FieldOk(f: Field) {
    && f.name != [] && AllTokens(f.name) && AllBlank(f.blanks) && ValueOk(f.value)
  }

  predicate ValueOk(v: seq<byte>) {
    && (v != [] ==> !Blank(v[0])) && NoLineEnd(v) && forall i :: 0 <= i < |v| ==> IsHeaderChar(v[i])
  }

  function FieldBytes(f: Field): seq<byte> { f.name + [':' as int] + f.blanks + f.value + [CR, LF] }

  function FieldEvents(f: Field): seq<Event> { DataEvents(FieldData, f.name) + DataEvents(ValueData, f.value) }

  /** Where a header line can start: only the flags of the previous value may be pending. */
  predicate AtLine(q: Parser) {
    q.state.HeaderFieldStart? || q.state.HeaderValueLws? || (q.state.HeaderValueDiscardLws? && !q.hstate.ContentLength?)
  }

  /** The parser once the pending flags are recorded. */
  function Settled(q: Parser): Parser { if q.state.HeaderFieldStart? then q else RecordFlags(q) }

  lemma HeaderStep(q: Parser, ch: byte)
    requires HeaderLineState(q.state) && q.nread < MAX_HEADER_SIZE
    ensures var o := OnHeaderLine(q.(nread := q.nread + 1), ch);
      Step(q, ch) == RunState(o.q, Events(o.ops, OpenIn(q.state), ch), o.status, if o.status.Failed? then 0 else 1)
  {
    hide OnHeaderLine, Events;
  }

  lemma LineStart(q: Parser, ch: byte)
    requires AtLine(q) && !Blank(ch)
    ensures var o := OnHeaderFieldStart(Settled(q).(state := HeaderFieldStart), ch);
      OnHeaderLine(q, ch) == (if q.state.HeaderValueDiscardLws? then Then([Mark(ValueData), Emit(ValueData)], o) else o)
  {
    hide OnHeaderFieldStart, RecordFlags;
    if q.state.HeaderFieldStart? { assert q.(state := HeaderFieldStart) == q; }
  }

  lemma SettledCount(q: Parser, n: int)
    ensures Settled(q.(nread := n)) == Settled(q).(nread := n)
  {
  }

  lemma TokenIsPlain(ch: byte)
    requires Token(ch) != 0
    ensures ch != CR && ch != LF && !Blank(ch) && ch != ':' as int
  {
  }

  /** The first character of a name, wherever the line before ended. */
  lemma NameFirstStep(q: Parser, ch: byte)
    requires AtLine(q) && Token(ch) != 0 && q.nread < MAX_HEADER_SIZE
    ensures Step(q, ch) == RunState(Begun(q, ch), DataEvents(FieldData, [ch]), Running, 1)
  {
    hide Events, OnHeaderLine, RecordFlags, Settled, Token;
    var c := q.(nread := q.nread + 1);
    TokenIsPlain(ch);
    HeaderStep(q, ch);
    LineStart(c, ch);
    SettledCount(q, q.nread + 1);
    MarkEvents(FieldData, ch);
    EmptyEmitEvents([Mark(FieldData)], ch);
  }

  function Begun(q: Parser, ch: byte): Parser {
    Settled(q).(state := HeaderField, hstate := FirstFieldState(Token(ch)), index := 0, nread := q.nread + 1)
  }

  // ---------- the name ----------

  /** What the matcher knows after a name, whatever came before. */
  function NameParser(name: seq<byte>): Parser
    requires name != []
  {
    var q := Init(Both, false).(hstate := FirstFieldState(Token(name[0])), index := 0);
    FieldFold(q, name[1..])
  }

  function NameState(name: seq<byte>): HeaderState
    requires name != []
  {
    NameParser(name).hstate
  }

  lemma {:induction false} FoldSame(q: Parser, r: Parser, s: seq<byte>)
    requires q.hstate == r.hstate && q.index == r.index
    ensures FieldFold(q, s).hstate == FieldFold(r, s).hstate && FieldFold(q, s).index == FieldFold(r, s).index
  {
    hide FieldHeaderState;
    if s != [] { FoldSame(q, r, s[..|s| - 1]); }
  }

  function Named(q: Parser, name: seq<byte>): Parser
    requires name != []
  {
    Settled(q).(state := HeaderField, hstate := NameState(name), index := NameParser(name).index,
                nread := q.nread + |name|)
  }

  lemma BegunInv(q: Parser, ch: byte)
    requires Inv(q) && AtLine(q) && Token(ch) != 0 && q.nread < MAX_HEADER_SIZE
    ensures Inv(Begun(q, ch))
  {
    hide Inv, Step;
    NameFirstStep(q, ch);
    ReachesStep(q, ch, Begun(q, ch), DataEvents(FieldData, [ch]));
    ReachesInv(q, [ch], Begun(q, ch), DataEvents(FieldData, [ch]));
  }

  lemma NameText(q: Parser, name: seq<byte>)
    requires Inv(q) && AtLine(q) && name != [] && AllTokens(name) && q.nread + |name| <= MAX_HEADER_SIZE
    ensures Reaches(q, name, Named(q, name), DataEvents(FieldData, name))
  {
    var ch, rest := name[0], name[1..];
    hide Run, Step, DataEvents, FieldFold, Inv, Settled, Token, FirstFieldState;
    var q1 := Begun(q, ch);
    NameFirstStep(q, ch);
    BegunInv(q, ch);
    ReachesStep(q, ch, q1, DataEvents(FieldData, [ch]));
    RunFieldTokens(q1, rest);
    FieldFoldShape(q1, rest);
    FoldSame(q1, Init(Both, false).(hstate := FirstFieldState(Token(ch)), index := 0), rest);
    ReachesThen(q, [ch], q1, DataEvents(FieldData, [ch]), rest, Named(q, name), DataEvents(FieldData, rest));
    assert name == [ch] + rest;
    DataEventsSplit(FieldData, [ch], rest);
  }

  // ---------- colon and blanks ----------

  lemma ColonStep(q: Parser)
    requires q.state.HeaderField? && q.nread < MAX_HEADER_SIZE
    ensures Step(q, ':' as int) == RunState(q.(state := HeaderValueDiscardWs, nread := q.nread + 1), [], Running, 1)
  {
    hide Events;
    HeaderStep(q, ':' as int);
    EmitEvents(FieldData, Opened(FieldData), ':' as int);
  }

  lemma BlankStep(q: Parser, ch: byte)
    requires q.state.HeaderValueDiscardWs? && Blank(ch) && q.nread < MAX_HEADER_SIZE
    ensures Step(q, ch) == RunState(q.(nread := q.nread + 1), [], Running, 1)
  {
    HeaderStep(q, ch);
  }

  lemma {:induction false} Blanks(q: Parser, s: seq<byte>)
    requires q.state.HeaderValueDiscardWs? && AllBlank(s) && q.nread + |s| <= MAX_HEADER_SIZE
    ensures Reaches(q, s, q.(nread := q.nread + |s|), [])
  {
    if s != [] {
      hide Run, Step;
      var t, ch := s[..|s| - 1], s[|s| - 1];
      Blanks(q, t);
      var q1 := q.(nread := q.nread + |t|);
      BlankStep(q1, ch);
      ReachesStep(q1, ch, q1.(nread := q1.nread + 1), []);
      ReachesThen(q, t, q1, [], [ch], q1.(nread := q1.nread + 1), []);
      assert s == t + [ch];
    }
  }

  // ---------- the value ----------

  /** The matcher over a whole value that is not empty. */
  function ValueOut(q: Parser, v: seq<byte>): Out
    requires v != []
  {
    var o := OnHeaderValueStart(q, v[0]);
    if o.status.Running? then ValueFold(o.q, v[1..]) else o
  }

  lemma ValueFirstStep(q: Parser, ch: byte)
    requires q.state.HeaderValueDiscardWs? && q.nread < MAX_HEADER_SIZE && !Blank(ch) && !LineEnd(ch)
    ensures var o := OnHeaderValueStart(q, ch);
      if o.status.Running? then
        Step(q, ch) == RunState(o.q.(nread := q.nread + 1), DataEvents(ValueData, [ch]), Running, 1)
      else Step(q, ch).status.Failed?
  {
    hide Events, OnHeaderValueStart;
    HeaderStep(q, ch);
    ValueStartShape(q, ch, q.nread + 1);
    MarkEvents(ValueData, ch);
  }

  lemma ValueStartShape(q: Parser, ch: byte, n: int)
    ensures var o := OnHeaderValueStart(q, ch);
      && !o.status.Left? && o.q.state.HeaderValue? && o.q.nread == q.nread && o.q.lenient == q.lenient
      && OnHeaderValueStart(q.(nread := n), ch).q == o.q.(nread := n)
      && OnHeaderValueStart(q.(nread := n), ch).status == o.status
      && (o.status.Running? ==> OnHeaderValueStart(q.(nread := n), ch).ops == [Mark(ValueData)])
  {
  }

  lemma {:induction false} FoldCount(q: Parser, s: seq<byte>, n: int)
    ensures var o := ValueFold(q, s); ValueFold(q.(nread := n), s) == o.(q := o.q.(nread := n))
  {
    hide ValueChar;
    if s != [] {
      var t := s[..|s| - 1];
      FoldCount(q, t, n);
      ValueCharShape(ValueFold(q, t).q, s[|s| - 1], n);
    }
  }

  /** The rest of a value, once its first character is read. */
  lemma ValueTail(q: Parser, rest: seq<byte>, n: int)
    requires RangesOk(q.(nread := n)) && q.state.HeaderValue? && NoLineEnd(rest) && n + |rest| <= MAX_HEADER_SIZE
    ensures var o := ValueFold(q, rest); var q1 := q.(nread := n);
      if o.status.Running? then Reaches(q1, rest, o.q.(nread := n + |rest|), DataEvents(ValueData, rest))
      else Run(q1, rest).status.Failed?
  {
    hide Run, DataEvents, ValueFold, LineEnd;
    var q1 := q.(nread := n);
    RunValueChars(q1, rest);
    FoldCount(q, rest, n);
  }

  lemma ValueParts(v: seq<byte>)
    requires v != [] && ValueOk(v)
    ensures v == [v[0]] + v[1..] && NoLineEnd(v[1..]) && !Blank(v[0]) && !LineEnd(v[0])
  {
  }

  lemma ValueOutIs(q: Parser, v: seq<byte>)
    requires v != []
    ensures var o := OnHeaderValueStart(q, v[0]);
      ValueOut(q, v) == if o.status.Running? then ValueFold(o.q, v[1..]) else o
  {
  }

  lemma ValueText(q: Parser, v: seq<byte>)
    requires Inv(q) && q.state.HeaderValueDiscardWs? && v != [] && ValueOk(v) && q.nread + |v| <= MAX_HEADER_SIZE
    ensures var o := ValueOut(q, v);
      if o.status.Running? then
        Reaches(q, v, o.q.(nread := q.nread + |v|), DataEvents(ValueData, v)) && o.q.state.HeaderValue?
      else Run(q, v).status.Failed?
  {
    hide *;
    var ch, rest := v[0], v[1..];
    ValueParts(v);
    ValueOutIs(q, v);
    ValueFirstStep(q, ch);
    ValueStartShape(q, ch, 0);
    var o := OnHeaderValueStart(q, ch);
    if o.status.Running? {
      var q1 := o.q.(nread := q.nread + 1);
      ReachesStep(q, ch, q1, DataEvents(ValueData, [ch]));
      ReachesInv(q, [ch], q1, DataEvents(ValueData, [ch]));
      RangesOfInv(q1);
      ValueTail(o.q, rest, q.nread + 1);
      ValueFoldShape(o.q, rest);
      var f := ValueFold(o.q, rest);
      if f.status.Running? {
        var q2 := f.q.(nread := q.nread + 1 + |rest|);
        ReachesThen(q, [ch], q1, DataEvents(ValueData, [ch]), rest, q2, DataEvents(ValueData, rest));
        DataEventsSplit(ValueData, [ch], rest);
      } else {
        ReachesFailure(q, [ch], q1, DataEvents(ValueData, [ch]), rest);
      }
    } else {
      RunOne(q, ch);
      FailureStays(q, [ch], rest);
    }
  }

  lemma ValueEndSteps(q: Parser)
    requires q.nread < MAX_HEADER_SIZE
    ensures q.state.HeaderValue? ==>
      Step(q, CR) == RunState(q.(state := HeaderAlmostDone, nread := q.nread + 1), [], Running, 1)
    ensures q.state.HeaderAlmostDone? ==>
      Step(q, LF) == RunState(q.(state := HeaderValueLws, nread := q.nread + 1), [], Running, 1)
  {
    hide Events;
    if q.state.HeaderValue? {
      HeaderStep(q, CR);
      EmitEvents(ValueData, Opened(ValueData), CR);
    }
    if q.state.HeaderAlmostDone? {
      HeaderStep(q, LF);
      QuietEvents(LF);
    }
  }

  lemma EmptyValueSteps(q: Parser)
    requires q.nread < MAX_HEADER_SIZE
    ensures q.state.HeaderValueDiscardWs? ==>
      Step(q, CR) == RunState(q.(state := HeaderValueDiscardWsAlmostDone, nread := q.nread + 1), [], Running, 1)
    ensures q.state.HeaderValueDiscardWsAlmostDone? ==>
      Step(q, LF) == RunState(q.(state := HeaderValueDiscardLws, nread := q.nread + 1), [], Running, 1)
  {
    if q.state.HeaderValueDiscardWs? { HeaderStep(q, CR); }
    if q.state.HeaderValueDiscardWsAlmostDone? { HeaderStep(q, LF); }
  }

  // ---------- one line ----------

  /** The parser in front of the value, and whether it takes the value. */
  function BeforeValue(q: Parser, f: Field): Parser
    requires f.name != []
  {
    Named(q, f.name).(state := HeaderValueDiscardWs, nread := q.nread + |f.name| + 1 + |f.blanks|)
  }

  /** A line the parser accepts. */
  predicate Accepts(q: Parser, f: Field)
    requires f.name != []
  {
    if f.value == [] then !NameState(f.name).ContentLength? else ValueOut(BeforeValue(q, f), f.value).status.Running?
  }

  /** The parser after an accepted line. */
  function AfterField(q: Parser, f: Field): Parser
    requires f.name != []
  {
    var b := BeforeValue(q, f);
    if f.value == [] then b.(state := HeaderValueDiscardLws, nread := q.nread + |FieldBytes(f)|)
    else ValueOut(b, f.value).q.(state := HeaderValueLws, nread := q.nread + |FieldBytes(f)|)
  }

  lemma NameAndBlanks(q: Parser, f: Field)
    requires Inv(q) && AtLine(q) && FieldOk(f) && q.nread + |f.name| + 1 + |f.blanks| <= MAX_HEADER_SIZE
    ensures Reaches(q, f.name + [':' as int] + f.blanks, BeforeValue(q, f), DataEvents(FieldData, f.name))
  {
    hide Run, Step, DataEvents, Inv, Settled, NameParser, AllTokens, ValueOk, AllBlank;
    var n := Named(q, f.name);
    var c := n.(state := HeaderValueDiscardWs, nread := n.nread + 1);
    NameText(q, f.name);
    ColonStep(n);
    ReachesStep(n, ':' as int, c, []);
    Blanks(c, f.blanks);
    ReachesThen(q, f.name, n, DataEvents(FieldData, f.name), [':' as int], c, []);
    ReachesThen(q, f.name + [':' as int], c, DataEvents(FieldData, f.name) + [], f.blanks, BeforeValue(q, f), []);
    NoMore(DataEvents(FieldData, f.name));
  }

  lemma NoMore(e: seq<Event>)
    ensures e + [] == e && e + [] + [] == e && [] + e == e
  {
  }

  lemma EmptyValue(q: Parser)
    requires q.state.HeaderValueDiscardWs? && q.nread + 2 <= MAX_HEADER_SIZE
    ensures Reaches(q, [CR, LF], q.(state := HeaderValueDiscardLws, nread := q.nread + 2), [])
  {
    hide Run, Step;
    var a := q.(state := HeaderValueDiscardWsAlmostDone, nread := q.nread + 1);
    EmptyValueSteps(q);
    EmptyValueSteps(a);
    QuietPair(q, CR, a, LF, q.(state := HeaderValueDiscardLws, nread := q.nread + 2));
  }

  lemma WholeValue(q: Parser, v: seq<byte>)
    requires Inv(q) && q.state.HeaderValueDiscardWs? && v != [] && ValueOk(v) && q.nread + |v| + 2 <= MAX_HEADER_SIZE
    ensures var o := ValueOut(q, v);
      if o.status.Running? then
        Reaches(q, v + [CR, LF], o.q.(state := HeaderValueLws, nread := q.nread + |v| + 2), DataEvents(ValueData, v))
      else Run(q, v + [CR, LF]).status.Failed?
  {
    hide Run, Step, DataEvents, Inv, ValueOut, ValueOk;
    ValueText(q, v);
    var o := ValueOut(q, v);
    if o.status.Running? {
      var q1 := o.q.(nread := q.nread + |v|);
      var q2 := q1.(state := HeaderAlmostDone, nread := q1.nread + 1);
      ValueEndSteps(q1);
      ValueEndSteps(q2);
      QuietPair(q1, CR, q2, LF, q2.(state := HeaderValueLws, nread := q2.nread + 1));
      ReachesThen(q, v, q1, DataEvents(ValueData, v), [CR, LF], q2.(state := HeaderValueLws, nread := q2.nread + 1),
                  []);
      NoMore(DataEvents(ValueData, v));
    } else {
      FailureStays(q, v, [CR, LF]);
    }
  }

  lemma LineParts(f: Field)
    ensures FieldBytes(f) == (f.name + [':' as int] + f.blanks) + (f.value + [CR, LF])
    ensures f.value == [] ==> f.value + [CR, LF] == [CR, LF]
    ensures |FieldBytes(f)| == |f.name| + 1 + |f.blanks| + |f.value| + 2
  {
  }

  lemma NoValueEvents(f: Field)
    requires f.value == []
    ensures FieldEvents(f) == DataEvents(FieldData, f.name) + []
  {
    assert DataEvents(ValueData, f.value) == [];
  }

  /** An accepted line announces its name and its value and leaves the parser in front of the next line. A line with
      an empty value is refused only at the byte after it. */
  lemma OneField(q: Parser, f: Field)
    requires Inv(q) && AtLine(q) && FieldOk(f) && q.nread + |FieldBytes(f)| <= MAX_HEADER_SIZE
    ensures f.value == [] || Accepts(q, f) ==> Reaches(q, FieldBytes(f), AfterField(q, f), FieldEvents(f))
    ensures f.value != [] && !Accepts(q, f) ==> Run(q, FieldBytes(f)).status.Failed?
  {
    hide Run, DataEvents, Inv, ValueOut, NameParser, Settled, ValueOk, AllTokens, AllBlank;
    LineParts(f);
    hide FieldBytes;
    NameAndBlanks(q, f);
    var b := BeforeValue(q, f);
    var head := f.name + [':' as int] + f.blanks;
    ReachesInv(q, head, b, DataEvents(FieldData, f.name));
    if f.value == [] {
      EmptyValue(b);
      ReachesThen(q, head, b, DataEvents(FieldData, f.name), [CR, LF], AfterField(q, f), []);
      NoValueEvents(f);
    } else {
      WholeValue(b, f.value);
      if Accepts(q, f) {
        ReachesThen(q, head, b, DataEvents(FieldData, f.name), f.value + [CR, LF], AfterField(q, f),
                    DataEvents(ValueData, f.value));
      } else {
        ReachesFailure(q, head, b, DataEvents(FieldData, f.name), f.value + [CR, LF]);
      }
    }
  }

  /** Whatever follows a Content-Length line without a value fails, unless it folds the line. */
  lemma EmptyLengthFails(q: Parser, ch: byte)
    requires q.state.HeaderValueDiscardLws? && q.hstate.ContentLength? && !Blank(ch)
    ensures Step(q, ch).status.Failed?
  {
    if q.nread < MAX_HEADER_SIZE { HeaderStep(q, ch); }
  }

  // ---------- many lines ----------

  function HeaderBytes(fields: seq<Field>): seq<byte> {
    if fields == [] then [] else FieldBytes(fields[0]) + HeaderBytes(fields[1..])
  }

  function HeaderEvents(fields: seq<Field>): seq<Event> {
    if fields == [] then [] else FieldEvents(fields[0]) + HeaderEvents(fields[1..])
  }

  predicate FieldsOk(fields: seq<Field>) { forall i :: 0 <= i < |fields| ==> FieldOk(fields[i]) }

  predicate AllAccepted(q: Parser, fields: seq<Field>)
    requires FieldsOk(fields)
    decreases |fields|
  {
    fields == [] || (Accepts(q, fields[0]) && AllAccepted(AfterField(q, fields[0]), fields[1..]))
  }

  function AfterFields(q: Parser, fields: seq<Field>): Parser
    requires FieldsOk(fields)
    decreases |fields|
  {
    if fields == [] then q else AfterFields(AfterField(q, fields[0]), fields[1..])
  }

  lemma AfterFieldAt(q: Parser, f: Field)
    requires FieldOk(f)
    ensures AfterField(q, f).nread == q.nread + |FieldBytes(f)|
    ensures Accepts(q, f) ==> AtLine(AfterField(q, f))
    ensures !Accepts(q, f) && f.value == [] ==>
      AfterField(q, f).state.HeaderValueDiscardLws? && AfterField(q, f).hstate.ContentLength?
  {
    hide ValueOut, NameParser, Settled, FieldBytes;
  }

  /** Any header lines, then a byte that begins no continuation: accepted line by line, or failing. */
  lemma {:induction false} ManyFields(q: Parser, fields: seq<Field>, next: byte)
    requires Inv(q) && AtLine(q) && FieldsOk(fields) && q.nread + |HeaderBytes(fields)| < MAX_HEADER_SIZE
    requires !Blank(next)
    ensures if AllAccepted(q, fields) then
        var r := AfterFields(q, fields);
        && Reaches(q, HeaderBytes(fields), r, HeaderEvents(fields)) && Inv(r) && AtLine(r)
        && r.nread == q.nread + |HeaderBytes(fields)|
      else Run(q, HeaderBytes(fields) + [next]).status.Failed?
    decreases |fields|
  {
    hide Run, Step, Inv, FieldOk, FieldBytes, FieldEvents, AfterField, Accepts;
    if fields == [] {
      ReachesNothing(q);
    } else {
      var f, rest := fields[0], fields[1..];
      FieldNamed(f);
      OneField(q, f);
      AfterFieldAt(q, f);
      var q1 := AfterField(q, f);
      var bytes := FieldBytes(f);
      assert HeaderBytes(fields) + [next] == bytes + (HeaderBytes(rest) + [next]);
      if f.value == [] || Accepts(q, f) { ReachesInv(q, bytes, q1, FieldEvents(f)); }
      if Accepts(q, f) {
        ManyFields(q1, rest, next);
        if AllAccepted(q1, rest) {
          ReachesThen(q, bytes, q1, FieldEvents(f), HeaderBytes(rest), AfterFields(q1, rest), HeaderEvents(rest));
        } else {
          ReachesFailure(q, bytes, q1, FieldEvents(f), HeaderBytes(rest) + [next]);
        }
      } else if f.value != [] {
        FailureStays(q, bytes, HeaderBytes(rest) + [next]);
      } else {
        var after := HeaderBytes(rest) + [next];
        NextByte(rest, next);
        EmptyLengthFails(q1, after[0]);
        RunOne(q1, after[0]);
        FailureStays(q1, [after[0]], after[1..]);
        assert after == [after[0]] + after[1..];
        ReachesFailure(q, bytes, q1, FieldEvents(f), after);
      }
    }
  }

  lemma NextByte(fields: seq<Field>, next: byte)
    requires FieldsOk(fields) && !Blank(next)
    ensures var s := HeaderBytes(fields) + [next]; s != [] && !Blank(s[0])
  {
    if fields != [] {
      TokenIsPlain(fields[0].name[0]);
      assert (HeaderBytes(fields) + [next])[0] == fields[0].name[0];
    }
  }

  lemma FieldNamed(f: Field)
    requires FieldOk(f)
    ensures f.name != []
  {
  }

  // ---------- the end of the header ----------

  lemma BlankLineCr(q: Parser)
    requires AtLine(q) && q.nread < MAX_HEADER_SIZE
    ensures Step(q, CR) == RunState(Settled(q).(state := HeadersAlmostDone, nread := q.nread + 1), [], Running, 1)
  {
    hide Events, OnHeaderLine, RecordFlags, Settled;
    HeaderStep(q, CR);
    LineStart(q.(nread := q.nread + 1), CR);
    SettledCount(q, q.nread + 1);
    EmptyEmitEvents([], CR);
    QuietEvents(CR);
  }

  // ---------- which names are interpreted ----------

  /** A name as the matcher sees it: in lower case. */
  function Lowered(name: seq<byte>): string { seq(|name|, i requires 0 <= i < |name| => Token(name[i]) as char) }

  /** The header state a name prefix stands for. */
  function Classify(t: string): HeaderState {
    if t == CONNECTION_WORD || t == PROXY_CONNECTION_WORD then Connection
    else if t == CONTENT_LENGTH_WORD then ContentLength
    else if t == TRANSFER_ENCODING_WORD then TransferEncoding
    else if t == UPGRADE_WORD then Upgrade
    else if t <= CONNECTION_WORD && |t| <= 3 then (if |t| == 1 then C else if |t| == 2 then CO else CON)
    else if t <= CONNECTION_WORD then MatchingConnection
    else if t <= PROXY_CONNECTION_WORD then MatchingProxyConnection
    else if t <= CONTENT_LENGTH_WORD then MatchingContentLength
    else if t <= TRANSFER_ENCODING_WORD then MatchingTransferEncoding
    else if t <= UPGRADE_WORD then MatchingUpgrade
    else General
  }

  lemma PrefixStep(t: string, c: char, w: string)
    ensures t + [c] <= w <==> t <= w && |t| < |w| && w[|t|] == c
    ensures t + [c] == w <==> t + [c] <= w && |t| + 1 == |w|
  {
    if t + [c] <= w { assert w[..|t|] == (t + [c])[..|t|] == t; assert w[|t|] == (t + [c])[|t|]; }
    if t <= w && |t| < |w| && w[|t|] == c { assert w[..|t| + 1] == t + [c]; }
    if t + [c] <= w && |t| + 1 == |w| { assert w[..|w|] == w; }
  }

  lemma PrefixAt(t: string, w: string, i: nat)
    requires t <= w && i < |t|
    ensures t[i] == w[i]
  {
    assert w[..|t|][i] == w[i];
  }

  /** No name is a prefix of two of the words, but for the first three letters of connection and content-length. */
  lemma Apart(t: string)
    requires t != []
    ensures t <= CONNECTION_WORD || t <= CONTENT_LENGTH_WORD ==> t[0] == 'c'
    ensures t <= PROXY_CONNECTION_WORD ==> t[0] == 'p'
    ensures t <= TRANSFER_ENCODING_WORD ==> t[0] == 't'
    ensures t <= UPGRADE_WORD ==> t[0] == 'u'
    ensures |t| > 3 && t <= CONNECTION_WORD ==> t[3] == 'n'
    ensures |t| > 3 && t <= CONTENT_LENGTH_WORD ==> t[3] == 't'
    ensures |t| <= 3 ==> (t <= CONNECTION_WORD <==> t <= CONTENT_LENGTH_WORD)
  {
    if t <= CONNECTION_WORD { PrefixAt(t, CONNECTION_WORD, 0); }
    if t <= CONTENT_LENGTH_WORD { PrefixAt(t, CONTENT_LENGTH_WORD, 0); }
    if t <= PROXY_CONNECTION_WORD { PrefixAt(t, PROXY_CONNECTION_WORD, 0); }
    if t <= TRANSFER_ENCODING_WORD { PrefixAt(t, TRANSFER_ENCODING_WORD, 0); }
    if t <= UPGRADE_WORD { PrefixAt(t, UPGRADE_WORD, 0); }
    if |t| > 3 {
      if t <= CONNECTION_WORD { PrefixAt(t, CONNECTION_WORD, 3); }
      if t <= CONTENT_LENGTH_WORD { PrefixAt(t, CONTENT_LENGTH_WORD, 3); }
    } else {
      assert CONNECTION_WORD[..3] == CONTENT_LENGTH_WORD[..3];
      assert CONNECTION_WORD[..|t|] == CONNECTION_WORD[..3][..|t|] == CONTENT_LENGTH_WORD[..3][..|t|]
         == CONTENT_LENGTH_WORD[..|t|];
    }
  }

  lemma WordLengths()
    ensures |CONNECTION_WORD| == 10 && |PROXY_CONNECTION_WORD| == 16 && |CONTENT_LENGTH_WORD| == 14
    ensures |TRANSFER_ENCODING_WORD| == 17 && |UPGRADE_WORD| == 7
    ensures CONNECTION_WORD[1] == 'o' && CONNECTION_WORD[2] == 'n' && CONNECTION_WORD[3] == 'n'
    ensures CONTENT_LENGTH_WORD[3] == 't'
  {
  }

  lemma ClassifyStep(t: string, c: byte, ch: byte)
    requires t != [] && ch != SP && c != 0
    ensures FieldHeaderState(Classify(t), |t| - 1, c, ch) == Classify(t + [c as char])
  {
    var u := t + [c as char];
    PrefixStep(t, c as char, CONNECTION_WORD);
    PrefixStep(t, c as char, PROXY_CONNECTION_WORD);
    PrefixStep(t, c as char, CONTENT_LENGTH_WORD);
    PrefixStep(t, c as char, TRANSFER_ENCODING_WORD);
    PrefixStep(t, c as char, UPGRADE_WORD);
    Apart(t);
    Apart(u);
    WordLengths();
  }

  lemma NameGrows(name: seq<byte>)
    requires |name| >= 2
    ensures NameParser(name) == FieldAdvance(NameParser(name[..|name| - 1]), name[|name| - 1])
    ensures Lowered(name) == Lowered(name[..|name| - 1]) + [Token(name[|name| - 1]) as char]
  {
    hide FieldAdvance;
    assert name[1..][..|name| - 2] == name[..|name| - 1][1..];
  }

  lemma FirstLetter(ch: byte)
    ensures FirstFieldState(Token(ch)) == Classify([Token(ch) as char])
  {
    var c := Token(ch) as char;
    PrefixStep("", c, CONNECTION_WORD);
    PrefixStep("", c, PROXY_CONNECTION_WORD);
    PrefixStep("", c, CONTENT_LENGTH_WORD);
    PrefixStep("", c, TRANSFER_ENCODING_WORD);
    PrefixStep("", c, UPGRADE_WORD);
    assert "" + [c] == [c];
    WordLengths();
  }

  lemma {:induction false} NameClass(name: seq<byte>)
    requires name != [] && AllTokens(name)
    ensures NameState(name) == Classify(Lowered(name))
    ensures FieldCounting(NameState(name)) ==> NameParser(name).index == |name| - 1
    ensures 0 <= NameParser(name).index
  {
    hide Classify, Token, FieldHeaderState, FirstFieldState;
    if |name| == 1 {
      assert name[1..] == [] && Lowered(name) == [Token(name[0]) as char];
      FirstLetter(name[0]);
    } else {
      var init, ch := name[..|name| - 1], name[|name| - 1];
      NameClass(init);
      NameGrows(name);
      TokenIsPlain(ch);
      ClassifyStep(Lowered(init), Token(ch), ch);
      var p := NameParser(init);
      IndexIdle(p.hstate, p.index, |init| - 1, Token(ch), ch);
      CountingStays(p.hstate, p.index, Token(ch), ch);
    }
  }

  lemma IndexIdle(h: HeaderState, i: int, j: int, c: byte, ch: byte)
    ensures !FieldCounting(h) ==> FieldHeaderState(h, i, c, ch) == FieldHeaderState(h, j, c, ch)
  {
  }

  lemma CountingStays(h: HeaderState, i: int, c: byte, ch: byte)
    ensures FieldCounting(FieldHeaderState(h, i, c, ch)) ==> FieldCounting(h)
    ensures FieldStateOk(h) ==> FieldStateOk(FieldHeaderState(h, i, c, ch))
  {
  }

  /** The interpreted names, whatever their case: exactly these five. */
  lemma InterpretedNames(name: seq<byte>)
    requires name != [] && AllTokens(name)
    ensures NameState(name).Connection? <==> Lowered(name) == "connection" || Lowered(name) == "proxy-connection"
    ensures NameState(name).ContentLength? <==> Lowered(name) == "content-length"
    ensures NameState(name).TransferEncoding? <==> Lowered(name) == "transfer-encoding"
    ensures NameState(name).Upgrade? <==> Lowered(name) == "upgrade"
  {
    hide NameParser;
    NameClass(name);
  }

  lemma {:induction false} NameStateKind(name: seq<byte>)
    requires name != []
    ensures FieldStateOk(NameState(name))
  {
    hide FieldHeaderState;
    if |name| == 1 {
      assert name[1..] == [];
    } else {
      NameGrows(name);
      NameStateKind(name[..|name| - 1]);
      var p := NameParser(name[..|name| - 1]);
      CountingStays(p.hstate, p.index, Token(name[|name| - 1]), name[|name| - 1]);
    }
  }

  // ---------- what a line changes ----------

  /** What no header line touches, and what a line may change: the matcher, the counter, flags and the length. */
  predicate Frame(q: Parser, r: Parser) {
    && r == q.(state := r.state, hstate := r.hstate, index := r.index, nread := r.nread, flags := r.flags,
               contentLength := r.contentLength)
    && r.flags.trailing == q.flags.trailing && r.flags.skipBody == q.flags.skipBody
  }

  /** What only Content-Length, Transfer-Encoding and Upgrade lines touch. */
  predicate SameBody(q: Parser, r: Parser) {
    && Frame(q, r) && r.contentLength == q.contentLength && r.flags.contentLength == q.flags.contentLength
    && r.flags.chunked == q.flags.chunked && r.flags.upgrade == q.flags.upgrade
  }

  lemma CharFrame(q: Parser, ch: byte)
    ensures ValueChar(q, ch).status.Running? ==> Frame(q, ValueChar(q, ch).q)
  {
    hide ValueHeaderState, ValueIndex, IsHeaderChar, RecordFlags, ContentLengthChar;
    FlagsOnly(q);
    LengthCharOnly(q, ch);
  }

  lemma LengthCharOnly(q: Parser, ch: byte)
    ensures var o := ContentLengthChar(q, ch);
      o.status.Running? ==> o.q == q.(hstate := o.q.hstate, contentLength := o.q.contentLength)
  {
  }

  lemma {:induction false} FoldFrame(q: Parser, s: seq<byte>)
    ensures ValueFold(q, s).status.Running? ==> Frame(q, ValueFold(q, s).q)
  {
    hide ValueChar;
    if s != [] {
      FoldFrame(q, s[..|s| - 1]);
      CharFrame(ValueFold(q, s[..|s| - 1]).q, s[|s| - 1]);
    }
  }

  lemma StartFrame(q: Parser, ch: byte)
    ensures OnHeaderValueStart(q, ch).status.Running? ==> Frame(q, OnHeaderValueStart(q, ch).q)
  {
    StartOnly(q, ch);
    hide OnHeaderValueStart;
  }

  lemma StartOnly(q: Parser, ch: byte)
    ensures var o := OnHeaderValueStart(q, ch);
      o.status.Running? ==>
        && o.q == q.(state := HeaderValue, index := 0, hstate := o.q.hstate, flags := o.q.flags,
                     contentLength := o.q.contentLength)
        && o.q.flags.trailing == q.flags.trailing && o.q.flags.skipBody == q.flags.skipBody
  {
    StartParser(q, ch);
    StartFlags(q, ch);
    hide OnHeaderValueStart;
  }

  lemma StartParser(q: Parser, ch: byte)
    ensures var o := OnHeaderValueStart(q, ch);
      o.status.Running? ==>
        o.q == q.(state := HeaderValue, index := 0, hstate := o.q.hstate, flags := o.q.flags,
                  contentLength := o.q.contentLength)
  {
  }

  lemma StartFlags(q: Parser, ch: byte)
    ensures var o := OnHeaderValueStart(q, ch);
      o.status.Running? ==>
        o.q.flags == (if q.hstate.Upgrade? then q.flags.(upgrade := true)
                      else if q.hstate.ContentLength? then q.flags.(contentLength := true) else q.flags)
  {
  }

  lemma SettledFrame(q: Parser)
    ensures Frame(q, Settled(q))
  {
    hide RecordFlags;
    FlagsOnly(q);
  }

  /** Recording touches the flags alone, and of those only what the finished word stands for. */
  lemma FlagsOnly(q: Parser)
    ensures var r := RecordFlags(q);
      && r == q.(flags := r.flags) && r.flags.trailing == q.flags.trailing && r.flags.skipBody == q.flags.skipBody
      && r.flags.contentLength == q.flags.contentLength && r.flags.upgrade == q.flags.upgrade
      && (!q.hstate.TransferEncodingChunked? ==> r.flags.chunked == q.flags.chunked)
      && (!q.hstate.TransferEncodingChunked? && !ConnectionWordSeen(q.hstate) ==> r == q)
  {
    RecordedFlags(q);
    RecordedNothing(q);
    hide RecordFlags;
  }

  lemma RecordedFlags(q: Parser)
    ensures var r := RecordFlags(q);
      && r.flags.trailing == q.flags.trailing && r.flags.skipBody == q.flags.skipBody
      && r.flags.contentLength == q.flags.contentLength && r.flags.upgrade == q.flags.upgrade
      && (!q.hstate.TransferEncodingChunked? ==> r.flags.chunked == q.flags.chunked)
  {
    match q.hstate
    case ConnectionKeepAlive =>
    case ConnectionClose =>
    case TransferEncodingChunked =>
    case ConnectionUpgrade =>
    case _ =>
  }

  lemma RecordedNothing(q: Parser)
    ensures RecordFlags(q) == q.(flags := RecordFlags(q).flags)
    ensures !q.hstate.TransferEncodingChunked? && !ConnectionWordSeen(q.hstate) ==> RecordFlags(q) == q
  {
  }

  lemma FieldFrame(q: Parser, f: Field)
    requires f.name != [] && Accepts(q, f)
    ensures Frame(Settled(q), AfterField(q, f)) && Frame(Settled(q), Settled(AfterField(q, f)))
  {
    hide ValueFold, OnHeaderValueStart, NameParser, Settled, FieldBytes;
    var b := BeforeValue(q, f);
    if f.value != [] {
      StartFrame(b, f.value[0]);
      FoldFrame(OnHeaderValueStart(b, f.value[0]).q, f.value[1..]);
    }
    SettledFrame(AfterField(q, f));
  }

  lemma {:induction false} FieldsFrame(q: Parser, fields: seq<Field>)
    requires FieldsOk(fields) && AllAccepted(q, fields)
    ensures Frame(Settled(q), Settled(AfterFields(q, fields)))
    decreases |fields|
  {
    hide AfterField, Accepts, Settled;
    if fields != [] {
      FieldFrame(q, fields[0]);
      FieldsFrame(AfterField(q, fields[0]), fields[1..]);
    }
  }

  /** Header states of an ordinary value: nothing about lengths and encodings is pending. */
  predicate Ordinary(h: HeaderState) {
    h.General? || h.MatchingConnectionTokenStart? || h.MatchingConnectionKeepAlive? || h.MatchingConnectionClose?
    || h.MatchingConnectionUpgrade? || h.MatchingConnectionToken? || ConnectionWordSeen(h)
  }

  lemma OrdinaryChar(q: Parser, ch: byte)
    requires Ordinary(q.hstate) && IsHeaderChar(ch)
    ensures var o := ValueChar(q, ch);
      o.status.Running? && Ordinary(o.q.hstate) && SameBody(q, o.q) && (q.hstate.General? ==> o.q == q)
  {
    hide IsHeaderChar, MatchWord;
    MatchWordResult(KEEP_ALIVE_WORD, q.index + 1, Lower(ch), q.hstate, MatchingConnectionToken, ConnectionKeepAlive);
    MatchWordResult(CLOSE_WORD, q.index + 1, Lower(ch), q.hstate, MatchingConnectionToken, ConnectionClose);
    MatchWordResult(UPGRADE_WORD, q.index + 1, Lower(ch), q.hstate, MatchingConnectionToken, ConnectionUpgrade);
  }

  lemma MatchWordResult(word: string, i: int, c: byte, same: HeaderState, miss: HeaderState, done: HeaderState)
    ensures MatchWord(word, i, c, same, miss, done) in {same, miss, done}
  {
  }

  lemma {:induction false} OrdinaryFold(q: Parser, s: seq<byte>)
    requires Ordinary(q.hstate) && (forall i :: 0 <= i < |s| ==> IsHeaderChar(s[i]))
    ensures var o := ValueFold(q, s);
      o.status.Running? && Ordinary(o.q.hstate) && SameBody(q, o.q) && (q.hstate.General? ==> o.q == q)
  {
    hide ValueChar, IsHeaderChar, Ordinary;
    if s != [] {
      OrdinaryFold(q, s[..|s| - 1]);
      OrdinaryChar(ValueFold(q, s[..|s| - 1]).q, s[|s| - 1]);
    }
  }

  predicate PlainName(h: HeaderState) { !h.ContentLength? && !h.TransferEncoding? && !h.Upgrade? }

  lemma OrdinaryStart(q: Parser, ch: byte)
    requires FieldStateOk(q.hstate) && PlainName(q.hstate)
    ensures var o := OnHeaderValueStart(q, ch);
      && o.status.Running? && Ordinary(o.q.hstate) && SameBody(q, o.q)
      && (!q.hstate.Connection? ==> o.q.hstate.General? && o.q.flags == q.flags)
  {
  }

  lemma OrdinarySettled(q: Parser)
    ensures Ordinary(q.hstate) || FieldStateOk(q.hstate) ==> SameBody(q, Settled(q))
    ensures q.hstate.General? || FieldStateOk(q.hstate) ==> Settled(q) == q
  {
    hide RecordFlags;
    FlagsOnly(q);
  }

  /** A line whose name is not Content-Length, Transfer-Encoding or Upgrade is always accepted and leaves length,
      encoding and upgrade alone; one that is not Connection either changes nothing but the matcher and the counter. */
  lemma PlainField(q: Parser, f: Field)
    requires FieldOk(f) && PlainName(NameState(f.name))
    ensures Accepts(q, f) && SameBody(Settled(q), Settled(AfterField(q, f)))
    ensures !NameState(f.name).Connection? ==> Settled(AfterField(q, f)).flags == Settled(q).flags
  {
    hide ValueFold, OnHeaderValueStart, NameParser, Settled, FieldBytes, Ordinary, IsHeaderChar, FieldStateOk,
         AllTokens;
    NameStateKind(f.name);
    var b, r := BeforeValue(q, f), AfterField(q, f);
    if f.value != [] {
      OrdinaryStart(b, f.value[0]);
      var o := OnHeaderValueStart(b, f.value[0]);
      OrdinaryFold(o.q, f.value[1..]);
    }
    OrdinarySettled(r);
  }

  lemma {:induction false} PlainFields(q: Parser, fields: seq<Field>)
    requires FieldsOk(fields) && (forall i :: 0 <= i < |fields| ==> PlainName(NameState(fields[i].name)))
    ensures AllAccepted(q, fields) && SameBody(Settled(q), Settled(AfterFields(q, fields)))
    decreases |fields|
  {
    hide AfterField, Accepts, Settled, FieldOk, NameState;
    if fields != [] {
      FieldNamed(fields[0]);
      PlainField(q, fields[0]);
      PlainFields(AfterField(q, fields[0]), fields[1..]);
    }
  }

  // ---------- only a length can be refused ----------

  predicate LengthState(h: HeaderState) { h.ContentLengthNum? || h.ContentLengthWs? }

  lemma OtherChar(q: Parser, ch: byte)
    requires !LengthState(q.hstate) && IsHeaderChar(ch)
    ensures ValueChar(q, ch).status.Running? && !LengthState(ValueChar(q, ch).q.hstate)
  {
    hide IsHeaderChar, MatchWord, RecordFlags;
    MatchWordResult(CHUNKED_WORD, q.index + 1, Lower(ch), q.hstate, General, TransferEncodingChunked);
    MatchWordResult(KEEP_ALIVE_WORD, q.index + 1, Lower(ch), q.hstate, MatchingConnectionToken, ConnectionKeepAlive);
    MatchWordResult(CLOSE_WORD, q.index + 1, Lower(ch), q.hstate, MatchingConnectionToken, ConnectionClose);
    MatchWordResult(UPGRADE_WORD, q.index + 1, Lower(ch), q.hstate, MatchingConnectionToken, ConnectionUpgrade);
  }

  lemma {:induction false} OtherFold(q: Parser, s: seq<byte>)
    requires !LengthState(q.hstate) && (forall i :: 0 <= i < |s| ==> IsHeaderChar(s[i]))
    ensures ValueFold(q, s).status.Running? && !LengthState(ValueFold(q, s).q.hstate)
  {
    hide ValueChar, IsHeaderChar;
    if s != [] {
      OtherFold(q, s[..|s| - 1]);
      OtherChar(ValueFold(q, s[..|s| - 1]).q, s[|s| - 1]);
    }
  }

  lemma OtherStart(q: Parser, ch: byte)
    requires FieldStateOk(q.hstate) && !q.hstate.ContentLength?
    ensures OnHeaderValueStart(q, ch).status.Running? && !LengthState(OnHeaderValueStart(q, ch).q.hstate)
  {
  }

  /** Every line is accepted unless its name is Content-Length. */
  lemma OnlyLengthRefused(q: Parser, f: Field)
    requires FieldOk(f) && !NameState(f.name).ContentLength?
    ensures Accepts(q, f)
  {
    hide ValueFold, OnHeaderValueStart, NameParser, Settled, IsHeaderChar, FieldStateOk, AllTokens;
    NameStateKind(f.name);
    if f.value != [] {
      var b := BeforeValue(q, f);
      OtherStart(b, f.value[0]);
      OtherFold(OnHeaderValueStart(b, f.value[0]).q, f.value[1..]);
    }
  }

  lemma {:induction false} AllAcceptedWithoutLength(q: Parser, fields: seq<Field>)
    requires FieldsOk(fields) && (forall i :: 0 <= i < |fields| ==> !NameState(fields[i].name).ContentLength?)
    ensures AllAccepted(q, fields)
    decreases |fields|
  {
    hide AfterField, Accepts, FieldOk, NameState;
    if fields != [] {
      FieldNamed(fields[0]);
      OnlyLengthRefused(q, fields[0]);
      AllAcceptedWithoutLength(AfterField(q, fields[0]), fields[1..]);
    }
  }

  lemma {:induction false} HeaderConcat(a: seq<Field>, b: seq<Field>)
    ensures HeaderBytes(a + b) == HeaderBytes(a) + HeaderBytes(b)
    ensures HeaderEvents(a + b) == HeaderEvents(a) + HeaderEvents(b)
    decreases |a|
  {
    hide FieldBytes, FieldEvents;
    if a == [] {
      assert a + b == b;
    } else {
      assert (a + b)[1..] == a[1..] + b;
      HeaderConcat(a[1..], b);
    }
  }

  lemma {:induction false} AcceptedConcat(q: Parser, a: seq<Field>, b: seq<Field>)
    requires FieldsOk(a) && FieldsOk(b)
    ensures FieldsOk(a + b)
    ensures AllAccepted(q, a + b) <==> AllAccepted(q, a) && AllAccepted(AfterFields(q, a), b)
    ensures AfterFields(q, a + b) == AfterFields(AfterFields(q, a), b)
    decreases |a|
  {
    hide FieldOk, Accepts, AfterField;
    if a == [] {
      assert a + b == b;
    } else {
      FieldNamed(a[0]);
      assert (a + b)[1..] == a[1..] + b;
      AcceptedConcat(AfterField(q, a[0]), a[1..], b);
    }
  }
}
