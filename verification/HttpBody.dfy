/** Lengths and bodies: what an accepted Content-Length or chunk size is worth, and that fixed-length and
    chunked bodies are delivered whole, each followed by exactly one message_complete. */
module HttpBody {
  import opened HttpGrammar
  import opened HttpStep
  import opened HttpInvariant
  import opened HttpMarks
  import opened HttpTracking
  import opened HttpFieldBulk
  import opened HttpValueBulk
  import opened HttpHeaders
  import opened HttpExecute

  // ---------- digits ----------

  /** The value of digits in the given base, continuing from `v`. */
  function Value(radix: int, v: int, digits: seq<int>): int {
    if digits == [] then v else Value(radix, v, digits[..|digits| - 1]) * radix + digits[|digits| - 1]
  }

  predicate DigitsOf(radix: int, digits: seq<int>) { forall i :: 0 <= i < |digits| ==> 0 <= digits[i] < radix }

  function DecimalDigits(s: seq<byte>): seq<int> { seq(|s|, i requires 0 <= i < |s| => var b: int := s[i]; b - 48) }

  function HexDigits(s: seq<byte>): seq<int> { seq(|s|, i requires 0 <= i < |s| => Unhex(s[i])) }

  predicate AllDecimal(s: seq<byte>) { forall i :: 0 <= i < |s| ==> IsNum(s[i]) }

  predicate AllHex(s: seq<byte>) { forall i :: 0 <= i < |s| ==> Unhex(s[i]) != -1 }

  /** The largest value each conservative overflow test lets through. */
  const MAX_CONTENT_LENGTH: int := ULLONG_MAX - 6
  const MAX_CHUNK_SIZE: int := ULLONG_MAX - 16

  lemma {:induction false} ValueGrows(radix: int, v: int, digits: seq<int>)
    requires radix >= 1 && v >= 0 && DigitsOf(radix, digits)
    ensures Value(radix, v, digits) >= v
  {
    if digits != [] {
      ValueGrows(radix, v, digits[..|digits| - 1]);
      var w := Value(radix, v, digits[..|digits| - 1]);
      assert w * radix >= w;
    }
  }

  lemma LengthChar(q: Parser, ch: byte)
    requires q.hstate.ContentLengthNum? && IsNum(ch) && 0 <= q.contentLength <= MAX_CONTENT_LENGTH
    ensures var o := ValueChar(q, ch);
      if q.contentLength * 10 + (ch - 48) <= MAX_CONTENT_LENGTH
      then o == Out(q.(contentLength := q.contentLength * 10 + (ch - 48)), [], Running) else !o.status.Running?
  {
    hide ValueHeaderState;
  }

  /** The digits of a length after the first. */
  lemma {:induction false} LengthFold(q: Parser, s: seq<byte>)
    requires q.hstate.ContentLengthNum? && AllDecimal(s) && 0 <= q.contentLength <= MAX_CONTENT_LENGTH
    ensures var v := Value(10, q.contentLength, DecimalDigits(s));
      && v >= 0 && (if v <= MAX_CONTENT_LENGTH then ValueFold(q, s) == Out(q.(contentLength := v), [], Running)
                    else !ValueFold(q, s).status.Running?)
  {
    hide ValueChar;
    if s != [] {
      var t, ch := s[..|s| - 1], s[|s| - 1];
      LengthFold(q, t);
      assert DecimalDigits(s)[..|s| - 1] == DecimalDigits(t);
      ValueGrows(10, q.contentLength, DecimalDigits(t));
      if Value(10, q.contentLength, DecimalDigits(t)) <= MAX_CONTENT_LENGTH { LengthChar(ValueFold(q, t).q, ch); }
    }
  }

  predicate LengthField(f: Field) {
    FieldOk(f) && NameState(f.name).ContentLength? && f.value != [] && AllDecimal(f.value)
  }

  /** The number a length line stands for. */
  function Length(f: Field): int { Value(10, 0, DecimalDigits(f.value)) }

  lemma LengthOut(q: Parser, v: seq<byte>)
    requires q.hstate.ContentLength? && v != [] && AllDecimal(v) && !q.flags.contentLength
    ensures var n := Value(10, 0, DecimalDigits(v)); var o := ValueOut(q, v);
      && n >= 0 && (n <= MAX_CONTENT_LENGTH <==> o.status.Running?)
      && (o.status.Running? ==>
            o.q == q.(state := HeaderValue, index := 0, hstate := ContentLengthNum, contentLength := n,
                      flags := q.flags.(contentLength := true)))
  {
    hide ValueFold;
    ValueFirst(10, DecimalDigits(v));
    assert DecimalDigits(v)[1..] == DecimalDigits(v[1..]);
    LengthFold(OnHeaderValueStart(q, v[0]).q, v[1..]);
  }

  /** A Content-Length line is accepted exactly when the mathematical value of its digits is at most 2^64 - 7 and no
      length came before; that value is then what the parser holds: no wrap-around, never the sentinel. */
  lemma ContentLengthExact(q: Parser, f: Field)
    requires LengthField(f) && !Settled(q).flags.contentLength
    ensures 0 <= Length(f) && (Accepts(q, f) <==> Length(f) <= MAX_CONTENT_LENGTH)
    ensures Accepts(q, f) ==>
      var r := Settled(AfterField(q, f));
      r.contentLength == Length(f) && Frame(Settled(q), r) && r.flags == Settled(q).flags.(contentLength := true)
  {
    hide ValueOut, Settled, NameParser, FieldBytes, FieldOk, AllDecimal;
    FieldNamed(f);
    LengthOut(BeforeValue(q, f), f.value);
    if Accepts(q, f) {
      FieldFrame(q, f);
      NothingPending(AfterField(q, f));
    }
  }

  lemma NothingPending(q: Parser)
    requires q.hstate.ContentLengthNum?
    ensures Settled(q) == q
  {
  }

  /** The same, from the beginning of the line: the digits are announced, or the parser fails. */
  lemma ContentLengthLine(q: Parser, f: Field)
    requires Inv(q) && AtLine(q) && LengthField(f) && !Settled(q).flags.contentLength
    requires q.nread + |FieldBytes(f)| <= MAX_HEADER_SIZE
    ensures if Length(f) <= MAX_CONTENT_LENGTH then Reaches(q, FieldBytes(f), AfterField(q, f), FieldEvents(f))
            else Run(q, FieldBytes(f)).status.Failed?
  {
    hide Run, Inv, Accepts, AfterField, Settled, FieldBytes, FieldEvents, AllDecimal, Length;
    ContentLengthExact(q, f);
    OneField(q, f);
  }

  lemma HexByteStep(q: Parser, ch: byte)
    requires q.state.ChunkSize? && Unhex(ch) != -1 && 0 <= q.contentLength <= MAX_CHUNK_SIZE
    requires q.nread < MAX_HEADER_SIZE
    ensures if q.contentLength * 16 + Unhex(ch) <= MAX_CHUNK_SIZE
            then Step(q, ch) == RunState(q.(nread := q.nread + 1, contentLength := q.contentLength * 16 + Unhex(ch)),
                                         [], Running, 1)
            else Step(q, ch).status.Failed?
  {
    assert ch != CR;
  }

  /** A chunk size is accepted exactly when its mathematical value is at most 2^64 - 17, and is then exact. */
  lemma {:induction false} ChunkSizeExact(q: Parser, s: seq<byte>)
    requires q.state.ChunkSize? && AllHex(s)
    requires 0 <= q.contentLength <= MAX_CHUNK_SIZE && 0 <= q.nread && q.nread + |s| <= MAX_HEADER_SIZE
    ensures var v := Value(16, q.contentLength, HexDigits(s));
      if v <= MAX_CHUNK_SIZE then Reaches(q, s, q.(nread := q.nread + |s|, contentLength := v), [])
      else Run(q, s).status.Failed?
  {
    hide Step;
    if s != [] {
      var t, ch := s[..|s| - 1], s[|s| - 1];
      ChunkSizeExact(q, t);
      assert HexDigits(s)[..|s| - 1] == HexDigits(t);
      ValueGrows(16, q.contentLength, HexDigits(t));
      if Value(16, q.contentLength, HexDigits(t)) <= MAX_CHUNK_SIZE { HexByteStep(Run(q, t).q, ch); }
    }
  }

  // ---------- fixed-length bodies ----------

  lemma LastByteEvents(ch: byte)
    ensures Events([Mark(BodyData), EmitThrough(BodyData)] + [Notify(MessageComplete)], Closed, ch)
         == DataEvents(BodyData, [ch]) + [Noted(MessageComplete)]
  {
    var ops := [Mark(BodyData), EmitThrough(BodyData)] + [Notify(MessageComplete)];
    var ops1 := [EmitThrough(BodyData), Notify(MessageComplete)];
    assert ops[1..] == ops1 && ops1[1..] == [Notify(MessageComplete)];
    NoteEvents(MessageComplete, ch);
    assert Announced(ops1, ch) == [Data(BodyData, ch)] + Announced([Notify(MessageComplete)], ch);
    assert DataEvents(BodyData, [ch]) == [Data(BodyData, ch)];
    OpsConcat([Mark(BodyData), EmitThrough(BodyData)], [Notify(MessageComplete)], Closed);
    assert [Mark(BodyData), EmitThrough(BodyData)][1..] == [EmitThrough(BodyData)];
  }

  lemma BodyLastStep(q: Parser, ch: byte)
    requires q.state.BodyIdentity? && q.contentLength == 1 && !q.upgrade
    ensures Step(q, ch) == RunState(Finished(q), DataEvents(BodyData, [ch]) + [Noted(MessageComplete)], Running, 1)
  {
    hide NewMessage, Events, DataEvents;
    LastByteEvents(ch);
  }

  /** The parser once the message is over: ready for the next one, or dead after `Connection: close`. */
  function Finished(q: Parser): Parser {
    var q := q.(contentLength := 0, state := MessageDone);
    q.(state := NewMessage(q))
  }

  /** A message whose accepted length is `n` delivers exactly the next `n` bytes as body, then completes once. */
  lemma IdentityBody(q: Parser, body: seq<byte>)
    requires q.state.BodyIdentity? && q.contentLength == |body| > 0 && !q.upgrade
    ensures Reaches(q, body, Finished(q), DataEvents(BodyData, body) + [Noted(MessageComplete)])
  {
    hide Run, Step, NewMessage;
    var t, ch := body[..|body| - 1], body[|body| - 1];
    assert body == t + [ch];
    RunBody(q, t);
    BodyLastStep(BodyTaken(q, |t|), ch);
    ReachesStep(BodyTaken(q, |t|), ch, Finished(q), DataEvents(BodyData, [ch]) + [Noted(MessageComplete)]);
    ReachesThen(q, t, BodyTaken(q, |t|), DataEvents(BodyData, t), [ch], Finished(q),
                DataEvents(BodyData, [ch]) + [Noted(MessageComplete)]);
    DataEventsSplit(BodyData, t, [ch]);
    assert DataEvents(BodyData, t) + (DataEvents(BodyData, [ch]) + [Noted(MessageComplete)])
        == DataEvents(BodyData, body) + [Noted(MessageComplete)];
  }

  // ---------- chunked bodies ----------

  /** One chunk: a size in hexadecimal, an optional extension, and the data. */
  datatype Chunk = Chunk(digits: seq<byte>, extension: seq<byte>, body: seq<byte>)

  predicate SizeLineOk(digits: seq<byte>, extension: seq<byte>) {
    && digits != [] && AllHex(digits) && |digits| + |extension| + 2 <= MAX_HEADER_SIZE
    && (extension != [] ==> extension[0] == ';' as int || extension[0] == SP)
    && forall i :: 0 <= i < |extension| ==> extension[i] != CR
  }

  predicate ChunkOk(c: Chunk) {
    SizeLineOk(c.digits, c.extension) && Value(16, 0, HexDigits(c.digits)) == |c.body| && 0 < |c.body| <= MAX_CHUNK_SIZE
  }

  function SizeLine(digits: seq<byte>, extension: seq<byte>): seq<byte> { digits + extension + [CR, LF] }

  /** Section 4.1 of RFC 7230: size line, data, CRLF. */
  function ChunkBytes(c: Chunk): seq<byte> { SizeLine(c.digits, c.extension) + c.body + [CR, LF] }

  function ChunkEvents(c: Chunk): seq<Event> {
    [Noted(ChunkHeader(|c.body|))] + DataEvents(BodyData, c.body) + [Noted(ChunkComplete)]
  }

  function AllBytes(chunks: seq<Chunk>): seq<byte> {
    if chunks == [] then [] else AllBytes(chunks[..|chunks| - 1]) + ChunkBytes(chunks[|chunks| - 1])
  }

  function AllEvents(chunks: seq<Chunk>): seq<Event> {
    if chunks == [] then [] else AllEvents(chunks[..|chunks| - 1]) + ChunkEvents(chunks[|chunks| - 1])
  }

  lemma {:induction false} ValueFirst(radix: int, digits: seq<int>)
    requires digits != []
    ensures Value(radix, 0, digits) == Value(radix, digits[0], digits[1..])
  {
    if |digits| > 1 {
      ValueFirst(radix, digits[..|digits| - 1]);
      assert digits[1..][..|digits| - 2] == digits[..|digits| - 1][1..];
    } else {
      assert digits[..0] == [] && digits[1..] == [];
      assert 0 * radix == 0;
    }
  }

  lemma SizeFirstStep(q: Parser, ch: byte)
    requires q.state.ChunkSizeStart? && Unhex(ch) != -1 && q.nread < MAX_HEADER_SIZE
    ensures Step(q, ch)
         == RunState(q.(state := ChunkSize, contentLength := Unhex(ch), nread := q.nread + 1), [], Running, 1)
  {
  }

  lemma SizeDigits(q: Parser, digits: seq<byte>)
    requires q.state.ChunkSizeStart? && q.nread == 0 && digits != [] && AllHex(digits) && |digits| <= MAX_HEADER_SIZE
    requires Value(16, 0, HexDigits(digits)) <= MAX_CHUNK_SIZE
    ensures Reaches(q, digits, q.(state := ChunkSize, contentLength := Value(16, 0, HexDigits(digits)),
                                  nread := |digits|), [])
  {
    hide Run, Step;
    var ch, rest := digits[0], digits[1..];
    SizeFirstStep(q, ch);
    var q1 := q.(state := ChunkSize, contentLength := Unhex(ch), nread := 1);
    ReachesStep(q, ch, q1, []);
    ValueFirst(16, HexDigits(digits));
    assert HexDigits(digits)[1..] == HexDigits(rest);
    ChunkSizeExact(q1, rest);
    var q2 := q.(state := ChunkSize, contentLength := Value(16, 0, HexDigits(digits)), nread := |digits|);
    ReachesThen(q, [ch], q1, [], rest, q2, []);
    assert digits == [ch] + rest;
  }

  lemma ExtensionStep(q: Parser, ch: byte)
    requires q.nread < MAX_HEADER_SIZE && ch != CR
    requires q.state.ChunkParameters? || (q.state.ChunkSize? && (ch == ';' as int || ch == SP))
    ensures Step(q, ch) == RunState(q.(state := ChunkParameters, nread := q.nread + 1), [], Running, 1)
  {
  }

  lemma {:induction false} Extension(q: Parser, s: seq<byte>)
    requires q.state.ChunkSize? && q.nread + |s| <= MAX_HEADER_SIZE && (forall i :: 0 <= i < |s| ==> s[i] != CR)
    requires s != [] ==> s[0] == ';' as int || s[0] == SP
    ensures Reaches(q, s, q.(state := if s == [] then ChunkSize else ChunkParameters, nread := q.nread + |s|), [])
  {
    hide Step;
    if s != [] {
      var t, ch := s[..|s| - 1], s[|s| - 1];
      Extension(q, t);
      ExtensionStep(Run(q, t).q, ch);
    }
  }

  /** The parser after the line end of a chunk-size line. */
  function SizeRead(q: Parser, n: int): Parser {
    if n == 0 then q.(nread := 0, contentLength := 0, flags := q.flags.(trailing := true), state := HeaderFieldStart)
    else q.(nread := 0, contentLength := n, state := ChunkData)
  }

  lemma SizeLineCr(q: Parser)
    requires (q.state.ChunkSize? || q.state.ChunkParameters?) && q.nread + 1 <= MAX_HEADER_SIZE
    ensures Step(q, CR) == RunState(q.(state := ChunkSizeAlmostDone, nread := q.nread + 1), [], Running, 1)
  {
    assert Unhex(CR) == -1;
  }

  lemma SizeLineLf(q: Parser)
    requires q.state.ChunkSizeAlmostDone? && q.nread + 1 <= MAX_HEADER_SIZE
    ensures Step(q, LF) == RunState(SizeRead(q, q.contentLength), [Noted(ChunkHeader(q.contentLength))], Running, 1)
  {
    hide Events;
    NoteEvents(ChunkHeader(q.contentLength), LF);
  }

  lemma SizeLineEnd(q: Parser)
    requires (q.state.ChunkSize? || q.state.ChunkParameters?) && q.nread + 2 <= MAX_HEADER_SIZE
    ensures Reaches(q, [CR, LF], SizeRead(q, q.contentLength), [Noted(ChunkHeader(q.contentLength))])
  {
    hide Run, Step;
    var q1 := q.(state := ChunkSizeAlmostDone, nread := q.nread + 1);
    SizeLineCr(q);
    SizeLineLf(q1);
    ReachesStep(q, CR, q1, []);
    ReachesStep(q1, LF, SizeRead(q, q.contentLength), [Noted(ChunkHeader(q.contentLength))]);
    ReachesThen(q, [CR], q1, [], [LF], SizeRead(q, q.contentLength), [Noted(ChunkHeader(q.contentLength))]);
    assert [CR] + [LF] == [CR, LF];
    assert [] + [Noted(ChunkHeader(q.contentLength))] == [Noted(ChunkHeader(q.contentLength))];
  }

  /** A whole size line announces its exact value. */
  lemma SizeLineReaches(q: Parser, digits: seq<byte>, extension: seq<byte>)
    requires q.state.ChunkSizeStart? && q.nread == 0 && SizeLineOk(digits, extension)
    requires Value(16, 0, HexDigits(digits)) <= MAX_CHUNK_SIZE
    ensures var n := Value(16, 0, HexDigits(digits));
      Reaches(q, SizeLine(digits, extension), SizeRead(q, n), [Noted(ChunkHeader(n))])
  {
    hide Run, Step, Value, HexDigits;
    var n := Value(16, 0, HexDigits(digits));
    var q1 := q.(state := ChunkSize, contentLength := n, nread := |digits|);
    SizeDigits(q, digits);
    Extension(q1, extension);
    var q2 := q1.(state := if extension == [] then ChunkSize else ChunkParameters, nread := |digits| + |extension|);
    SizeLineEnd(q2);
    assert SizeRead(q2, n) == SizeRead(q, n);
    ReachesThen(q, digits, q1, [], extension, q2, []);
    ReachesThen(q, digits + extension, q2, [] + [], [CR, LF], SizeRead(q, n), [Noted(ChunkHeader(n))]);
    assert [] + [] + [Noted(ChunkHeader(n))] == [Noted(ChunkHeader(n))];
  }

  lemma ChunkLastByte(q: Parser, ch: byte)
    requires q.state.ChunkData? && q.contentLength == 1
    ensures Step(q, ch)
         == RunState(q.(state := ChunkDataAlmostDone, contentLength := 0), DataEvents(BodyData, [ch]), Running, 1)
  {
    hide Events;
    MarkEvents(BodyData, ch);
  }

  lemma ChunkLineEnd(q: Parser)
    ensures q.state.ChunkDataAlmostDone? ==> Step(q, CR) == RunState(q.(state := ChunkDataDone), [], Running, 1)
    ensures q.state.ChunkDataDone? ==>
      Step(q, LF) == RunState(q.(state := ChunkSizeStart, nread := 0), [Noted(ChunkComplete)], Running, 1)
  {
    hide Events;
    EmitEvents(BodyData, Closed, CR);
    NoteEvents(ChunkComplete, LF);
  }

  lemma ChunkDataEnd(q: Parser, ch: byte)
    requires q.state.ChunkData? && q.contentLength == 1
    ensures Reaches(q, [ch, CR, LF], q.(state := ChunkSizeStart, contentLength := 0, nread := 0),
                    DataEvents(BodyData, [ch]) + [Noted(ChunkComplete)])
  {
    var q1 := q.(state := ChunkDataAlmostDone, contentLength := 0);
    var q2, q3 := q1.(state := ChunkDataDone), q1.(state := ChunkSizeStart, nread := 0);
    hide Run, Step, DataEvents;
    ChunkLastByte(q, ch);
    ChunkLineEnd(q1);
    ChunkLineEnd(q2);
    ReachesStep(q, ch, q1, DataEvents(BodyData, [ch]));
    ReachesStep(q1, CR, q2, []);
    ReachesStep(q2, LF, q3, [Noted(ChunkComplete)]);
    ReachesThen(q, [ch], q1, DataEvents(BodyData, [ch]), [CR], q2, []);
    ReachesThen(q, [ch] + [CR], q2, DataEvents(BodyData, [ch]) + [], [LF], q3, [Noted(ChunkComplete)]);
    assert [ch] + [CR] + [LF] == [ch, CR, LF];
    NoMore(DataEvents(BodyData, [ch]));
  }

  lemma OneChunk(q: Parser, c: Chunk)
    requires q.state.ChunkSizeStart? && q.nread == 0 && ChunkOk(c)
    ensures Reaches(q, ChunkBytes(c), q.(contentLength := 0), ChunkEvents(c))
  {
    hide Run, Step, Value, HexDigits, DataEvents;
    var n := |c.body|;
    SizeLineReaches(q, c.digits, c.extension);
    var q1 := SizeRead(q, n);
    var t, ch := c.body[..n - 1], c.body[n - 1];
    RunBody(q1, t);
    var q2 := BodyTaken(q1, n - 1);
    ChunkDataEnd(q2, ch);
    ReachesThen(q, SizeLine(c.digits, c.extension), q1, [Noted(ChunkHeader(n))], t, q2, DataEvents(BodyData, t));
    ReachesThen(q, SizeLine(c.digits, c.extension) + t, q2, [Noted(ChunkHeader(n))] + DataEvents(BodyData, t),
                [ch, CR, LF], q.(contentLength := 0), DataEvents(BodyData, [ch]) + [Noted(ChunkComplete)]);
    assert c.body == t + [ch];
    DataEventsSplit(BodyData, t, [ch]);
    assert SizeLine(c.digits, c.extension) + t + [ch, CR, LF] == ChunkBytes(c);
    assert [Noted(ChunkHeader(n))] + DataEvents(BodyData, t) + (DataEvents(BodyData, [ch]) + [Noted(ChunkComplete)])
        == ChunkEvents(c);
  }

  lemma {:induction false} ManyChunks(q: Parser, chunks: seq<Chunk>)
    requires q.state.ChunkSizeStart? && q.nread == 0 && (forall i :: 0 <= i < |chunks| ==> ChunkOk(chunks[i]))
    ensures Reaches(q, AllBytes(chunks), if chunks == [] then q else q.(contentLength := 0), AllEvents(chunks))
  {
    if chunks != [] {
      hide Run, ChunkBytes, ChunkEvents, ChunkOk;
      var init, last := chunks[..|chunks| - 1], chunks[|chunks| - 1];
      ManyChunks(q, init);
      var q1 := if init == [] then q else q.(contentLength := 0);
      OneChunk(q1, last);
      ReachesThen(q, AllBytes(init), q1, AllEvents(init), ChunkBytes(last), q.(contentLength := 0), ChunkEvents(last));
    }
  }

  // ---------- the last chunk and the trailer ----------

  lemma TrailerLf(q: Parser)
    requires q.state.HeadersAlmostDone? && q.flags.trailing && !q.upgrade && q.nread < MAX_HEADER_SIZE
    ensures Step(q, LF)
         == RunState(Over(q.(nread := q.nread + 1)), [Noted(ChunkComplete), Noted(MessageComplete)], Running, 1)
  {
    hide Events, NewMessage;
    TwoNotes(ChunkComplete, MessageComplete, LF);
  }

  function Over(q: Parser): Parser {
    var q := q.(state := MessageDone);
    q.(state := NewMessage(q))
  }

  const DONE: seq<Event> := [Noted(ChunkComplete), Noted(MessageComplete)]

  /** The parser after the blank line that ends a trailer. */
  function TrailerOver(q: Parser, fields: seq<Field>): Parser
    requires FieldsOk(fields)
  {
    Over(Settled(AfterFields(q, fields)).(nread := q.nread + |HeaderBytes(fields)| + 2))
  }

  /** The blank line that ends a trailer. */
  lemma TrailerEnd(q: Parser)
    requires AtLine(q) && q.nread + 2 <= MAX_HEADER_SIZE && Settled(q).flags.trailing && !Settled(q).upgrade
    ensures Reaches(q, [CR, LF], Over(Settled(q).(nread := q.nread + 2)), DONE)
  {
    hide Run, Step, NewMessage, Settled;
    var q1 := Settled(q).(state := HeadersAlmostDone, nread := q.nread + 1);
    var q2 := Over(Settled(q).(nread := q.nread + 2));
    BlankLineCr(q);
    TrailerLf(q1);
    assert q2 == Over(q1.(nread := q1.nread + 1));
    ReachesStep(q, CR, q1, []);
    ReachesStep(q1, LF, q2, DONE);
    ReachesThen(q, [CR], q1, [], [LF], q2, DONE);
    assert [CR] + [LF] == [CR, LF];
    NoMore(DONE);
  }

  /** Any trailer: accepted line by line and then complete, or failing. */
  lemma Trailer(q: Parser, fields: seq<Field>)
    requires Inv(q) && q.state.HeaderFieldStart? && q.flags.trailing && !q.upgrade && FieldsOk(fields)
    requires q.nread + |HeaderBytes(fields)| + 2 <= MAX_HEADER_SIZE
    ensures if AllAccepted(q, fields)
      then Reaches(q, HeaderBytes(fields) + [CR, LF], TrailerOver(q, fields), HeaderEvents(fields) + DONE)
      else Run(q, HeaderBytes(fields) + [CR, LF]).status.Failed?
  {
    hide Run, Inv, HeaderBytes, HeaderEvents, AfterFields, AllAccepted, NewMessage, Settled;
    ManyFields(q, fields, CR);
    if AllAccepted(q, fields) {
      var r := AfterFields(q, fields);
      FieldsFrame(q, fields);
      SettledStart(q);
      TrailerEnd(r);
      ReachesThen(q, HeaderBytes(fields), r, HeaderEvents(fields), [CR, LF], TrailerOver(q, fields), DONE);
    } else {
      FailureStays(q, HeaderBytes(fields) + [CR], [LF]);
      assert HeaderBytes(fields) + [CR] + [LF] == HeaderBytes(fields) + [CR, LF];
    }
  }

  lemma SettledStart(q: Parser)
    requires q.state.HeaderFieldStart?
    ensures Settled(q) == q
  {
  }

  lemma SizeReadInv(q: Parser, digits: seq<byte>, extension: seq<byte>)
    requires Inv(q) && q.state.ChunkSizeStart? && SizeLineOk(digits, extension) && Value(16, 0, HexDigits(digits)) == 0
    ensures var r := SizeRead(q, 0);
      && Reaches(q, SizeLine(digits, extension), r, [Noted(ChunkHeader(0))])
      && Inv(r) && r.state.HeaderFieldStart? && r.flags.trailing && r.nread == 0 && r.upgrade == q.upgrade
  {
    assert q.nread == 0;
    hide Run, Inv, SizeLine, Value, HexDigits;
    SizeLineReaches(q, digits, extension);
    ReachesInv(q, SizeLine(digits, extension), SizeRead(q, 0), [Noted(ChunkHeader(0))]);
  }

  /** Everything after the last data chunk: the size line, any trailer, the blank line. */
  lemma LastChunk(q: Parser, digits: seq<byte>, extension: seq<byte>, fields: seq<Field>)
    requires Inv(q) && q.state.ChunkSizeStart? && !q.upgrade && SizeLineOk(digits, extension)
    requires Value(16, 0, HexDigits(digits)) == 0 && FieldsOk(fields) && |HeaderBytes(fields)| + 2 <= MAX_HEADER_SIZE
    ensures var bytes := SizeLine(digits, extension) + (HeaderBytes(fields) + [CR, LF]);
      if AllAccepted(SizeRead(q, 0), fields) then
        Reaches(q, bytes, TrailerOver(SizeRead(q, 0), fields), [Noted(ChunkHeader(0))] + (HeaderEvents(fields) + DONE))
      else Run(q, bytes).status.Failed?
  {
    hide Run, Inv, Value, HexDigits, SizeLine, HeaderBytes, HeaderEvents, AllAccepted, TrailerOver, SizeRead;
    var r := SizeRead(q, 0);
    SizeReadInv(q, digits, extension);
    Trailer(r, fields);
    if AllAccepted(r, fields) {
      ReachesThen(q, SizeLine(digits, extension), r, [Noted(ChunkHeader(0))], HeaderBytes(fields) + [CR, LF],
                  TrailerOver(r, fields), HeaderEvents(fields) + DONE);
    } else {
      ReachesFailure(q, SizeLine(digits, extension), r, [Noted(ChunkHeader(0))], HeaderBytes(fields) + [CR, LF]);
    }
  }

  lemma ChunkStart(q: Parser)
    requires Inv(q) && q.state.ChunkSizeStart?
    ensures q.nread == 0
  {
  }

  lemma SizeReadForgets(q: Parser)
    ensures SizeRead(q.(contentLength := 0), 0) == SizeRead(q, 0)
  {
  }

  /** A chunked message in full, with any trailer: the body callbacks concatenate to the chunks, in order and framed by
      chunk notifications with the exact sizes, every trailer line is announced, whether it is interpreted or not, and
      message_complete fires once, after the trailer. It fails exactly when a trailer line is refused, which only a
      Content-Length line can be (AllAcceptedWithoutLength). */
  lemma ChunkedMessage(q: Parser, chunks: seq<Chunk>, digits: seq<byte>, extension: seq<byte>, fields: seq<Field>)
    requires Inv(q) && q.state.ChunkSizeStart? && !q.upgrade && SizeLineOk(digits, extension)
    requires (forall i :: 0 <= i < |chunks| ==> ChunkOk(chunks[i])) && Value(16, 0, HexDigits(digits)) == 0
    requires FieldsOk(fields) && |HeaderBytes(fields)| + 2 <= MAX_HEADER_SIZE
    ensures var bytes := AllBytes(chunks) + (SizeLine(digits, extension) + (HeaderBytes(fields) + [CR, LF]));
      if AllAccepted(SizeRead(q, 0), fields) then
        Reaches(q, bytes, TrailerOver(SizeRead(q, 0), fields),
                AllEvents(chunks) + ([Noted(ChunkHeader(0))] + (HeaderEvents(fields) + DONE)))
      else Run(q, bytes).status.Failed?
  {
    hide *;
    ChunkStart(q);
    ManyChunks(q, chunks);
    var q1 := if chunks == [] then q else q.(contentLength := 0);
    ReachesInv(q, AllBytes(chunks), q1, AllEvents(chunks));
    SizeReadForgets(q);
    LastChunk(q1, digits, extension, fields);
    var rest := SizeLine(digits, extension) + (HeaderBytes(fields) + [CR, LF]);
    if AllAccepted(SizeRead(q, 0), fields) {
      ReachesThen(q, AllBytes(chunks), q1, AllEvents(chunks), rest, TrailerOver(SizeRead(q, 0), fields),
                  [Noted(ChunkHeader(0))] + (HeaderEvents(fields) + DONE));
    } else {
      ReachesFailure(q, AllBytes(chunks), q1, AllEvents(chunks), rest);
    }
  }

  // ---------- fixed-length messages ----------

  /** The parser behind the blank line of a message whose length is known. */
  function HeaderOver(q: Parser): Parser { q.(nread := 0, upgrade := false, state := BodyIdentity) }

  /** Headers that promise a body of known length and nothing else. */
  predicate FixedLength(q: Parser) {
    && !q.flags.trailing && !q.flags.chunked && !q.flags.skipBody && !q.flags.upgrade && !q.meth.CONNECT?
    && 0 <= q.contentLength < ULLONG_MAX
  }

  lemma TwoNotes(a: Note, b: Note, ch: byte)
    ensures Events([Notify(a)] + [Notify(b)], Closed, ch) == [Noted(a), Noted(b)]
  {
    var ops := [Notify(a)] + [Notify(b)];
    assert ops[1..] == [Notify(b)];
    NoteEvents(b, ch);
    assert Announced(ops, ch) == [Noted(a)] + Announced([Notify(b)], ch);
    assert OpenAfter(ops, Closed) == OpenAfter([Notify(b)], Closed);
  }

  /** What the handler makes of the blank line's end. */
  lemma HeaderEnd(q: Parser)
    requires FixedLength(q) && q.state.HeadersAlmostDone?
    ensures q.contentLength > 0 ==> OnHeaderLine(q, LF) == Out(HeaderOver(q), [Notify(HeadersComplete)], Running)
    ensures q.contentLength == 0 ==>
      OnHeaderLine(q, LF)
        == Out(Finished(HeaderOver(q)), [Notify(HeadersComplete)] + [Notify(MessageComplete)], Running)
  {
    assert [Notify(HeadersComplete)] + [] == [Notify(HeadersComplete)];
  }

  lemma HeaderLf(q: Parser)
    requires q.state.HeadersAlmostDone? && FixedLength(q) && q.nread < MAX_HEADER_SIZE
    ensures q.contentLength > 0 ==> Step(q, LF) == RunState(HeaderOver(q), [Noted(HeadersComplete)], Running, 1)
    ensures q.contentLength == 0 ==>
      Step(q, LF) == RunState(Finished(HeaderOver(q)), [Noted(HeadersComplete), Noted(MessageComplete)], Running, 1)
  {
    hide Events, Step, OnHeaderLine, NewMessage;
    TwoNotes(HeadersComplete, MessageComplete, LF);
    NoteEvents(HeadersComplete, LF);
    HeaderStep(q, LF);
    HeaderEnd(q.(nread := q.nread + 1));
  }

  /** The blank line and the body. */
  lemma BodyAfterHeader(q: Parser, body: seq<byte>)
    requires AtLine(q) && q.nread + 2 <= MAX_HEADER_SIZE && FixedLength(Settled(q))
    requires Settled(q).contentLength == |body|
    ensures Reaches(q, [CR, LF] + body, Finished(HeaderOver(Settled(q))),
                    [Noted(HeadersComplete)] + DataEvents(BodyData, body) + [Noted(MessageComplete)])
  {
    hide Run, Step, NewMessage, Settled, DataEvents;
    var q1 := Settled(q).(state := HeadersAlmostDone, nread := q.nread + 1);
    var h := HeaderOver(Settled(q));
    assert HeaderOver(q1) == h;
    BlankLineCr(q);
    HeaderLf(q1);
    ReachesStep(q, CR, q1, []);
    assert [CR] + [LF] == [CR, LF];
    if body == [] {
      var note := [Noted(HeadersComplete), Noted(MessageComplete)];
      ReachesStep(q1, LF, Finished(h), note);
      ReachesThen(q, [CR], q1, [], [LF], Finished(h), note);
      NoMore(note);
      assert [CR, LF] + body == [CR, LF];
      NoData(body);
    } else {
      ReachesStep(q1, LF, h, [Noted(HeadersComplete)]);
      ReachesThen(q, [CR], q1, [], [LF], h, [Noted(HeadersComplete)]);
      NoMore([Noted(HeadersComplete)]);
      IdentityBody(h, body);
      ReachesThen(q, [CR, LF], h, [Noted(HeadersComplete)], body, Finished(h),
                  DataEvents(BodyData, body) + [Noted(MessageComplete)]);
      assert [Noted(HeadersComplete)] + (DataEvents(BodyData, body) + [Noted(MessageComplete)])
          == [Noted(HeadersComplete)] + DataEvents(BodyData, body) + [Noted(MessageComplete)];
    }
  }

  lemma NoData(body: seq<byte>)
    requires body == []
    ensures [Noted(HeadersComplete)] + DataEvents(BodyData, body) + [Noted(MessageComplete)]
         == [Noted(HeadersComplete), Noted(MessageComplete)]
  {
  }

  /** Lines that say nothing of length, encoding or upgrade. */
  predicate PlainLines(fields: seq<Field>) {
    FieldsOk(fields) && forall i :: 0 <= i < |fields| ==> PlainName(NameState(fields[i].name))
  }

  /** What a whole header with one length line leaves behind. */
  lemma HeaderMeaning(q: Parser, before: seq<Field>, f: Field, after: seq<Field>)
    requires PlainLines(before) && PlainLines(after) && LengthField(f) && !Settled(q).flags.contentLength
    ensures FieldsOk(before + [f] + after) && 0 <= Length(f)
    ensures AllAccepted(q, before + [f] + after) <==> Length(f) <= MAX_CONTENT_LENGTH
    ensures Length(f) <= MAX_CONTENT_LENGTH ==>
      var r := Settled(AfterFields(q, before + [f] + after));
      && Frame(Settled(q), r) && r.contentLength == Length(f)
      && r.flags.chunked == Settled(q).flags.chunked && r.flags.upgrade == Settled(q).flags.upgrade
  {
    hide Settled, AfterField, Accepts, Length, FieldOk, NameState, AllDecimal;
    var q1 := AfterFields(q, before);
    PlainFields(q, before);
    AcceptedConcat(q, before, [f]);
    AcceptedConcat(q, before + [f], after);
    FieldNamed(f);
    One(q1, f);
    ContentLengthExact(q1, f);
    PlainFields(AfterField(q1, f), after);
    if AllAccepted(q, before + [f] + after) { FieldsFrame(q, before + [f] + after); }
  }

  lemma One(q: Parser, f: Field)
    requires FieldOk(f)
    ensures FieldsOk([f]) && (AllAccepted(q, [f]) <==> Accepts(q, f)) && AfterFields(q, [f]) == AfterField(q, f)
  {
    var one := [f];
    assert one[1..] == [];
    assert AllAccepted(AfterField(q, f), one[1..]) && AfterFields(AfterField(q, f), one[1..]) == AfterField(q, f);
  }

  /** A message with a Content-Length line among any lines that say nothing of length, encoding or upgrade: if the
      digits' value is at most 2^64 - 7, exactly that many bytes after the blank line are delivered as the body, and
      message_complete fires once, after them; otherwise the header is refused. */
  lemma FixedLengthMessage(q: Parser, before: seq<Field>, f: Field, after: seq<Field>, body: seq<byte>)
    requires Inv(q) && AtLine(q) && PlainLines(before) && PlainLines(after) && LengthField(f)
    requires FixedLength(Settled(q).(contentLength := 0)) && !Settled(q).flags.contentLength
    requires q.nread + |HeaderBytes(before + [f] + after)| + 2 <= MAX_HEADER_SIZE
    ensures FieldsOk(before + [f] + after)
    ensures Length(f) > MAX_CONTENT_LENGTH ==> Run(q, HeaderBytes(before + [f] + after) + [CR]).status.Failed?
    ensures Length(f) <= MAX_CONTENT_LENGTH && |body| == Length(f) ==>
      Reaches(q, HeaderBytes(before + [f] + after) + ([CR, LF] + body),
              Finished(HeaderOver(Settled(AfterFields(q, before + [f] + after)))),
              HeaderEvents(before + [f] + after)
              + ([Noted(HeadersComplete)] + DataEvents(BodyData, body) + [Noted(MessageComplete)]))
  {
    hide Run, Inv, Settled, Length, HeaderBytes, HeaderEvents, DataEvents, NewMessage, AfterFields, AllAccepted,
         FieldOk, AllDecimal;
    var fields := before + [f] + after;
    HeaderMeaning(q, before, f, after);
    ManyFields(q, fields, CR);
    if Length(f) <= MAX_CONTENT_LENGTH && |body| == Length(f) {
      var r := AfterFields(q, fields);
      BodyAfterHeader(r, body);
      ReachesThen(q, HeaderBytes(fields), r, HeaderEvents(fields), [CR, LF] + body, Finished(HeaderOver(Settled(r))),
                  [Noted(HeadersComplete)] + DataEvents(BodyData, body) + [Noted(MessageComplete)]);
    }
  }

  // ---------- what the events mean ----------

  /** The body bytes among the events, in order. */
  function BodyOf(events: seq<Event>): seq<byte> {
    if events == [] then []
    else BodyOf(events[..|events| - 1]) +
         (match events[|events| - 1] case Data(BodyData, b) => [b] case _ => [])
  }

  function Bodies(chunks: seq<Chunk>): seq<byte> {
    if chunks == [] then [] else Bodies(chunks[..|chunks| - 1]) + chunks[|chunks| - 1].body
  }

  lemma {:induction false} BodyOfConcat(a: seq<Event>, b: seq<Event>)
    ensures BodyOf(a + b) == BodyOf(a) + BodyOf(b)
    decreases |b|
  {
    if b == [] { assert a + b == a; }
    else {
      assert (a + b)[..|a + b| - 1] == a + b[..|b| - 1];
      BodyOfConcat(a, b[..|b| - 1]);
    }
  }

  lemma {:induction false} BodyOfData(s: seq<byte>)
    ensures BodyOf(DataEvents(BodyData, s)) == s
  {
    if s != [] {
      BodyOfData(s[..|s| - 1]);
      assert DataEvents(BodyData, s)[..|s| - 1] == DataEvents(BodyData, s[..|s| - 1]);
      assert s == s[..|s| - 1] + [s[|s| - 1]];
    }
  }

  /** The concatenated body data of the chunk events is the concatenation of the chunks. */
  lemma {:induction false} ChunksDelivered(chunks: seq<Chunk>)
    ensures BodyOf(AllEvents(chunks)) == Bodies(chunks)
  {
    if chunks != [] {
      var init, c := chunks[..|chunks| - 1], chunks[|chunks| - 1];
      ChunksDelivered(init);
      BodyOfConcat(AllEvents(init), ChunkEvents(c));
      BodyOfConcat([Noted(ChunkHeader(|c.body|))] + DataEvents(BodyData, c.body), [Noted(ChunkComplete)]);
      BodyOfConcat([Noted(ChunkHeader(|c.body|))], DataEvents(BodyData, c.body));
      BodyOfData(c.body);
      assert BodyOf([Noted(ChunkHeader(|c.body|))]) == [] && BodyOf([Noted(ChunkComplete)]) == [];
    }
  }
}
