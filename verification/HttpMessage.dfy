/** Whole messages: what any header lines mean together, and what the application is told of a message from its first
    byte to its last. */
module HttpMessage {
  import opened HttpGrammar
  import opened HttpStep
  import opened HttpInvariant
  import opened HttpMarks
  import opened HttpTracking
  import opened HttpFieldBulk
  import opened HttpValueBulk
  import opened HttpHeaders
  import opened HttpConnection
  import opened HttpExecute
  import opened HttpBody
  import opened HttpStartLine
  import opened HttpStatusLine

  // ---------- what one line means ----------

  predicate Names(f: Field, name: string) { Lowered(f.name) == name }

  /** What a line with this name and value leaves in the flags. */
  function LineFlags(flags: Flags, f: Field): Flags {
    if Names(f, "connection") || Names(f, "proxy-connection") then ConnectionFlags(flags, f.value)
    else if Names(f, "transfer-encoding") then flags.(chunked := flags.chunked || Says("chunked", f.value))
    else if Names(f, "upgrade") then flags.(upgrade := flags.upgrade || f.value != [])
    else if Names(f, "content-length") then flags.(contentLength := true)
    else flags
  }

  function LineLength(length: int, f: Field): int { if Names(f, "content-length") then Length(f) else length }

  /** A length line holds digits; every other line may hold anything. */
  predicate LineWellFormed(f: Field) {
    FieldOk(f) && (Names(f, "content-length") ==> f.value != [] && AllDecimal(f.value))
  }

  /** A length is taken if it is the first and can be held. */
  predicate LineTaken(flags: Flags, f: Field) {
    Names(f, "content-length") ==> !flags.contentLength && Length(f) <= MAX_CONTENT_LENGTH
  }

  lemma UpgradeOut(q: Parser, v: seq<byte>)
    requires q.hstate.Upgrade? && v != [] && AllHeaderChars(v)
    ensures var flags := q.flags.(upgrade := true);
      ValueOut(q, v) == Out(q.(state := HeaderValue, index := 0, hstate := General, flags := flags), [], Running)
  {
    hide ValueFold, IsHeaderChar;
    assert AllHeaderChars(v[1..]);
    ValueFoldGeneral(OnHeaderValueStart(q, v[0]).q, v[1..]);
  }

  lemma UpgradeField(q: Parser, f: Field)
    requires FieldOk(f) && NameState(f.name).Upgrade?
    ensures Accepts(q, f)
    ensures var r, old_ := Settled(AfterField(q, f)), Settled(q);
      r.contentLength == old_.contentLength && r.flags == old_.flags.(upgrade := old_.flags.upgrade || f.value != [])
  {
    hide ValueOut, NameParser, FieldBytes, ValueOk, AllTokens, AllBlank, AllHeaderChars;
    if f.value == [] {
      SettledEmpty(AfterField(q, f));
    } else {
      ValueChars(f.value);
      UpgradeOut(BeforeValue(q, f), f.value);
    }
  }

  lemma SecondLength(q: Parser, f: Field)
    requires LengthField(f) && Settled(q).flags.contentLength
    ensures !Accepts(q, f)
  {
    hide ValueFold, NameParser, FieldBytes, FieldOk, AllDecimal, Settled;
    FieldNamed(f);
  }

  /** One line: taken or refused, and what it leaves in the parser. */
  lemma LineMeans(q: Parser, f: Field)
    requires LineWellFormed(f)
    ensures f.name != [] && (Accepts(q, f) <==> LineTaken(Settled(q).flags, f))
    ensures Accepts(q, f) ==>
      var r := Settled(AfterField(q, f));
      && Frame(Settled(q), r) && r.flags == LineFlags(Settled(q).flags, f)
      && r.contentLength == LineLength(Settled(q).contentLength, f)
  {
    FieldNamed(f);
    FieldTokens(f);
    InterpretedNames(f.name);
    hide Settled, AfterField, Accepts, Length, FieldOk, NameState, AllDecimal, ConnectionFlags, Says, Lowered, Frame,
         MAX_CONTENT_LENGTH;
    if NameState(f.name).Connection? {
      ConnectionField(q, f);
    } else if NameState(f.name).TransferEncoding? {
      EncodingField(q, f);
    } else if NameState(f.name).Upgrade? {
      UpgradeField(q, f);
      FieldFrame(q, f);
    } else if NameState(f.name).ContentLength? {
      if Settled(q).flags.contentLength { SecondLength(q, f); } else { ContentLengthExact(q, f); }
    } else {
      PlainField(q, f);
      FieldFrame(q, f);
      SameLength(Settled(q), Settled(AfterField(q, f)));
    }
  }

  lemma FieldTokens(f: Field)
    requires FieldOk(f)
    ensures AllTokens(f.name)
  {
  }

  lemma SameLength(q: Parser, r: Parser)
    requires SameBody(q, r)
    ensures r.contentLength == q.contentLength
  {
  }

  // ---------- what all lines mean ----------

  function HeaderFlags(flags: Flags, lines: seq<Field>): Flags
    decreases |lines|
  {
    if lines == [] then flags else HeaderFlags(LineFlags(flags, lines[0]), lines[1..])
  }

  function HeaderLength(length: int, lines: seq<Field>): int
    decreases |lines|
  {
    if lines == [] then length else HeaderLength(LineLength(length, lines[0]), lines[1..])
  }

  predicate LinesWellFormed(lines: seq<Field>) { forall i :: 0 <= i < |lines| ==> LineWellFormed(lines[i]) }

  predicate LinesTaken(flags: Flags, lines: seq<Field>)
    decreases |lines|
  {
    lines == [] || (LineTaken(flags, lines[0]) && LinesTaken(LineFlags(flags, lines[0]), lines[1..]))
  }

  /** Any header lines: refused exactly for a second or too large length; otherwise flags and length are those the lines
      stand for, and nothing else of the parser has changed. */
  lemma {:induction false} HeaderMeans(q: Parser, lines: seq<Field>)
    requires LinesWellFormed(lines)
    ensures FieldsOk(lines) && (AllAccepted(q, lines) <==> LinesTaken(Settled(q).flags, lines))
    ensures AllAccepted(q, lines) ==>
      var r := Settled(AfterFields(q, lines));
      && Frame(Settled(q), r) && r.flags == HeaderFlags(Settled(q).flags, lines)
      && r.contentLength == HeaderLength(Settled(q).contentLength, lines)
    decreases |lines|
  {
    hide Settled, AfterField, Accepts, LineFlags, LineLength, LineTaken, FieldOk;
    WellFormedFields(lines);
    if lines != [] {
      LineMeans(q, lines[0]);
      HeaderMeans(AfterField(q, lines[0]), lines[1..]);
    }
  }

  lemma WellFormedFields(lines: seq<Field>)
    requires LinesWellFormed(lines)
    ensures FieldsOk(lines)
  {
    hide FieldOk;
  }

  /** A length is held exactly when a length line was taken. */
  predicate LengthKnown(flags: Flags, length: int) {
    if flags.contentLength then 0 <= length <= MAX_CONTENT_LENGTH else length == ULLONG_MAX
  }

  lemma LineLengthKnown(flags: Flags, length: int, f: Field)
    requires LengthKnown(flags, length) && LineWellFormed(f) && LineTaken(flags, f)
    ensures LengthKnown(LineFlags(flags, f), LineLength(length, f))
    ensures var r := LineFlags(flags, f); r.trailing == flags.trailing && r.skipBody == flags.skipBody
  {
    OneName(f);
    hide FieldOk, Names, AllDecimal, ConnectionFlags, HeardUpto, Says;
    if Names(f, "connection") || Names(f, "proxy-connection") {
      if f.value == [] { NoElements(flags); } else { OptionTakesEffect(flags, f.value); }
    } else if Names(f, "content-length") {
      ValueGrows(10, 0, DecimalDigits(f.value)) by { DecimalIsDigits(f.value); }
    }
  }

  lemma OneName(f: Field)
    ensures Names(f, "content-length") ==> !Names(f, "connection") && !Names(f, "proxy-connection")
    ensures Names(f, "content-length") ==> !Names(f, "transfer-encoding") && !Names(f, "upgrade")
  {
    assert |"content-length"| == 14 && |"connection"| == 10 && |"proxy-connection"| == 16;
    assert |"transfer-encoding"| == 17 && |"upgrade"| == 7;
  }

  lemma DecimalIsDigits(s: seq<byte>)
    requires AllDecimal(s)
    ensures DigitsOf(10, DecimalDigits(s))
  {
  }

  lemma {:induction false} HeaderLengthKnown(flags: Flags, length: int, lines: seq<Field>)
    requires LengthKnown(flags, length) && LinesWellFormed(lines) && LinesTaken(flags, lines)
    ensures LengthKnown(HeaderFlags(flags, lines), HeaderLength(length, lines))
    ensures var r := HeaderFlags(flags, lines); r.trailing == flags.trailing && r.skipBody == flags.skipBody
    decreases |lines|
  {
    hide LineFlags, LineLength, LineTaken, LengthKnown, LineWellFormed;
    if lines != [] {
      LineLengthKnown(flags, length, lines[0]);
      HeaderLengthKnown(LineFlags(flags, lines[0]), LineLength(length, lines[0]), lines[1..]);
    }
  }

  // ---------- the blank line ----------

  /** The parser at the end of the blank line. */
  function AtEnd(q: Parser): Parser { Settled(q).(state := HeadersAlmostDone, nread := q.nread + 2) }

  lemma BlankLine(q: Parser, o: Out, events: seq<Event>)
    requires AtLine(q) && q.nread + 2 <= MAX_HEADER_SIZE
    requires o == OnHeaderLine(AtEnd(q), LF) && Events(o.ops, Closed, LF) == events
    ensures Run(q, [CR, LF]).status == o.status
    ensures !o.status.Failed? ==> Run(q, [CR, LF]) == RunState(o.q, events, o.status, 2)
  {
    hide Run, Step, OnHeaderLine, Events, Settled;
    var q1 := Settled(q).(state := HeadersAlmostDone, nread := q.nread + 1);
    BlankLineCr(q);
    HeaderStep(q1, LF);
    RunOne(q, CR);
    RunOne(q1, LF);
    RunConcat(q, [CR], [LF]);
    assert [CR] + [LF] == [CR, LF] && [] + events == events;
  }

  /** The connection is handed over: CONNECT, or an upgrade both sides asked for. */
  predicate Upgrades(q: Parser) {
    if q.typ.Request? then q.meth.CONNECT? || (q.flags.upgrade && q.flags.connectionUpgrade)
    else q.flags.upgrade && q.flags.connectionUpgrade && q.statusCode == 101
  }

  /** A header section without trailer or skipped body, in a request or in a reply. */
  predicate Ordinary(q: Parser) {
    q.state.HeadersAlmostDone? && !q.flags.trailing && !q.flags.skipBody && (q.typ.Request? || !q.meth.CONNECT?)
  }

  const COMPLETE: seq<Op> := [Notify(HeadersComplete)]
  const ALL_DONE: seq<Op> := [Notify(HeadersComplete)] + [Notify(MessageComplete)]

  lemma EndChunked(q: Parser)
    requires Ordinary(q) && !Upgrades(q) && q.flags.chunked && !q.flags.contentLength
    ensures OnHeaderLine(q, LF) == Out(q.(nread := 0, upgrade := false, state := ChunkSizeStart), COMPLETE, Running)
  {
  }

  lemma EndBoth(q: Parser)
    requires Ordinary(q) && q.flags.chunked && q.flags.contentLength
    ensures OnHeaderLine(q, LF).status.Failed?
  {
  }

  lemma EndSized(q: Parser)
    requires Ordinary(q) && !Upgrades(q) && !q.flags.chunked && 0 < q.contentLength < ULLONG_MAX
    ensures OnHeaderLine(q, LF) == Out(q.(nread := 0, upgrade := false, state := BodyIdentity), COMPLETE, Running)
  {
  }

  /** The parser after a message without a body. */
  function Emptied(q: Parser, upgrade: bool): Parser {
    var q := q.(nread := 0, upgrade := upgrade, state := HeadersDone);
    q.(state := NewMessage(q))
  }

  predicate NeverHasBody(q: Parser) {
    q.typ.Request? || q.statusCode / 100 == 1 || q.statusCode == 204 || q.statusCode == 304
  }

  lemma EndEmpty(q: Parser)
    requires Ordinary(q) && !Upgrades(q) && !q.flags.chunked
    requires q.contentLength == 0 || (q.contentLength == ULLONG_MAX && NeverHasBody(q))
    ensures OnHeaderLine(q, LF) == Out(Emptied(q, false), ALL_DONE, Running)
  {
  }

  lemma EndUntilClose(q: Parser)
    requires Ordinary(q) && !Upgrades(q) && !q.flags.chunked && q.contentLength == ULLONG_MAX && !NeverHasBody(q)
    ensures OnHeaderLine(q, LF) == Out(q.(nread := 0, upgrade := false, state := BodyIdentityEof), COMPLETE, Running)
  {
  }

  lemma EndUpgrade(q: Parser)
    requires Ordinary(q) && Upgrades(q) && !(q.flags.chunked && q.flags.contentLength)
    requires q.meth.CONNECT? || (!q.flags.chunked && (q.contentLength == 0 || q.contentLength == ULLONG_MAX))
    ensures OnHeaderLine(q, LF) == Out(Emptied(q, true), ALL_DONE, Left)
  {
  }

  // ---------- bodies ----------

  /** What can follow the blank line. */
  datatype Content =
    | Bare
    | Sized(body: seq<byte>)
    | Chunks(chunks: seq<Chunk>, digits: seq<byte>, extension: seq<byte>, trailer: seq<Field>)
    | UntilClose(body: seq<byte>)

  /** Any lines but lengths. */
  predicate TrailerOk(trailer: seq<Field>) {
    LinesWellFormed(trailer) && forall i :: 0 <= i < |trailer| ==> !Names(trailer[i], "content-length")
  }

  predicate ContentOk(c: Content) {
    c.Chunks? ==>
      && (forall i :: 0 <= i < |c.chunks| ==> ChunkOk(c.chunks[i])) && SizeLineOk(c.digits, c.extension)
      && Value(16, 0, HexDigits(c.digits)) == 0
      && TrailerOk(c.trailer) && |HeaderBytes(c.trailer)| + 2 <= MAX_HEADER_SIZE
  }

  /** The content a header announces: chunks if it says so, else as many bytes as it says, else none if such a message
      never has any, else everything until the connection closes. */
  predicate Announces(flags: Flags, length: int, never: bool, c: Content) {
    match c
    case Chunks(_, _, _, _) => flags.chunked && !flags.contentLength
    case Sized(body) => !flags.chunked && flags.contentLength && length == |body|
    case Bare => !flags.chunked && !flags.contentLength && never
    case UntilClose(_) => !flags.chunked && !flags.contentLength && !never
  }

  function ContentBytes(c: Content): seq<byte> {
    match c
    case Bare => []
    case Sized(body) => body
    case UntilClose(body) => body
    case Chunks(chunks, digits, extension, trailer) =>
      AllBytes(chunks) + (SizeLine(digits, extension) + (HeaderBytes(trailer) + [CR, LF]))
  }

  function ContentEvents(c: Content): seq<Event> {
    match c
    case Bare => [Noted(MessageComplete)]
    case Sized(body) => DataEvents(BodyData, body) + [Noted(MessageComplete)]
    case UntilClose(body) => DataEvents(BodyData, body)
    case Chunks(chunks, _, _, trailer) =>
      AllEvents(chunks) + ([Noted(ChunkHeader(0))] + (HeaderEvents(trailer) + DONE))
  }

  /** The bytes the application is meant to get as the body. */
  function BodyText(c: Content): seq<byte> {
    match c
    case Bare => []
    case Sized(body) => body
    case UntilClose(body) => body
    case Chunks(chunks, _, _, _) => Bodies(chunks)
  }

  function Behind(e: Parser, s: State): Parser { e.(nread := 0, upgrade := false, state := s) }

  /** The parser after the content, from the end of the blank line. */
  function ContentOver(e: Parser, c: Content): Parser
    requires ContentOk(c)
  {
    match c
    case Bare => Emptied(e, false)
    case Sized(body) => if body == [] then Emptied(e, false) else Finished(Behind(e, BodyIdentity))
    case UntilClose(_) => Behind(e, BodyIdentityEof)
    case Chunks(_, _, _, trailer) =>
      WellFormedFields(trailer);
      TrailerOver(SizeRead(Behind(e, ChunkSizeStart), 0), trailer)
  }

  lemma Completes()
    ensures Events(COMPLETE, Closed, LF) == [Noted(HeadersComplete)]
    ensures Events(ALL_DONE, Closed, LF) == [Noted(HeadersComplete), Noted(MessageComplete)]
  {
    hide Events;
    NoteEvents(HeadersComplete, LF);
    TwoNotes(HeadersComplete, MessageComplete, LF);
  }

  /** The blank line of a header that announces something, and the parser behind it. */
  lemma HeaderCompletes(q: Parser, s: State)
    requires AtLine(q) && q.nread + 2 <= MAX_HEADER_SIZE
    requires OnHeaderLine(AtEnd(q), LF) == Out(Behind(AtEnd(q), s), COMPLETE, Running)
    ensures Reaches(q, [CR, LF], Behind(AtEnd(q), s), [Noted(HeadersComplete)])
  {
    hide Run, OnHeaderLine, Events, Settled;
    Completes();
    BlankLine(q, OnHeaderLine(AtEnd(q), LF), [Noted(HeadersComplete)]);
  }

  lemma EmptyContent(q: Parser, c: Content)
    requires AtLine(q) && q.nread + 2 <= MAX_HEADER_SIZE && ContentOk(c) && (c.Bare? || c == Sized([]))
    requires OnHeaderLine(AtEnd(q), LF) == Out(Emptied(AtEnd(q), false), ALL_DONE, Running)
    ensures Reaches(q, [CR, LF] + ContentBytes(c), ContentOver(AtEnd(q), c),
                    [Noted(HeadersComplete)] + ContentEvents(c))
  {
    hide Run, OnHeaderLine, Events, Settled;
    var notes := [Noted(HeadersComplete), Noted(MessageComplete)];
    Completes();
    BlankLine(q, OnHeaderLine(AtEnd(q), LF), notes);
    assert [CR, LF] + ContentBytes(c) == [CR, LF];
    assert DataEvents(BodyData, []) == [];
    assert [Noted(HeadersComplete)] + ContentEvents(c) == notes;
  }

  lemma SizedContent(q: Parser, body: seq<byte>)
    requires AtLine(q) && q.nread + 2 <= MAX_HEADER_SIZE && body != []
    requires Ordinary(AtEnd(q)) && !Upgrades(AtEnd(q)) && !AtEnd(q).flags.chunked
    requires AtEnd(q).contentLength == |body| <= MAX_CONTENT_LENGTH
    ensures Reaches(q, [CR, LF] + body, ContentOver(AtEnd(q), Sized(body)),
                    [Noted(HeadersComplete)] + ContentEvents(Sized(body)))
  {
    var e := AtEnd(q);
    EndSized(e);
    hide Run, OnHeaderLine, AtEnd, AtLine, DataEvents, Upgrades;
    HeaderCompletes(q, BodyIdentity);
    var h := Behind(e, BodyIdentity);
    IdentityBody(h, body);
    ReachesThen(q, [CR, LF], h, [Noted(HeadersComplete)], body, Finished(h),
                DataEvents(BodyData, body) + [Noted(MessageComplete)]);
  }

  lemma OpenContent(q: Parser, body: seq<byte>)
    requires AtLine(q) && q.nread + 2 <= MAX_HEADER_SIZE
    requires Ordinary(AtEnd(q)) && !Upgrades(AtEnd(q)) && !AtEnd(q).flags.chunked && !NeverHasBody(AtEnd(q))
    requires AtEnd(q).contentLength == ULLONG_MAX
    ensures Reaches(q, [CR, LF] + body, ContentOver(AtEnd(q), UntilClose(body)),
                    [Noted(HeadersComplete)] + ContentEvents(UntilClose(body)))
  {
    var e := AtEnd(q);
    EndUntilClose(e);
    hide Run, OnHeaderLine, AtEnd, AtLine, DataEvents, Upgrades;
    HeaderCompletes(q, BodyIdentityEof);
    var h := Behind(e, BodyIdentityEof);
    RunBody(h, body);
    ReachesThen(q, [CR, LF], h, [Noted(HeadersComplete)], body, h, DataEvents(BodyData, body));
  }

  lemma TrailerAccepted(q: Parser, trailer: seq<Field>)
    requires TrailerOk(trailer)
    ensures FieldsOk(trailer) && AllAccepted(q, trailer)
  {
    hide FieldOk, NameState, Names, AllAccepted, AllDecimal;
    WellFormedFields(trailer);
    forall i | 0 <= i < |trailer| ensures trailer[i].name != [] && !NameState(trailer[i].name).ContentLength? {
      FieldNamed(trailer[i]);
      FieldTokens(trailer[i]);
      InterpretedNames(trailer[i].name);
      NamesIs(trailer[i]);
    }
    AllAcceptedWithoutLength(q, trailer);
  }

  lemma NamesIs(f: Field)
    ensures Names(f, "content-length") <==> Lowered(f.name) == "content-length"
  {
  }

  lemma ChunkedContent(q: Parser, c: Content)
    requires Inv(q) && AtLine(q) && q.nread + 2 <= MAX_HEADER_SIZE && c.Chunks? && ContentOk(c)
    requires Ordinary(AtEnd(q)) && !Upgrades(AtEnd(q)) && AtEnd(q).flags.chunked && !AtEnd(q).flags.contentLength
    ensures Reaches(q, [CR, LF] + ContentBytes(c), ContentOver(AtEnd(q), c),
                    [Noted(HeadersComplete)] + ContentEvents(c))
  {
    var e := AtEnd(q);
    EndChunked(e);
    hide Run, OnHeaderLine, AtEnd, AtLine, Inv, Upgrades, AllBytes, AllEvents, HeaderBytes, HeaderEvents, SizeLine,
         SizeLineOk, TrailerOver, SizeRead, TrailerOk, Value, HexDigits, ChunkOk, AllAccepted;
    HeaderCompletes(q, ChunkSizeStart);
    var h := Behind(e, ChunkSizeStart);
    ReachesInv(q, [CR, LF], h, [Noted(HeadersComplete)]);
    TrailerAccepted(SizeRead(h, 0), c.trailer);
    ChunkedMessage(h, c.chunks, c.digits, c.extension, c.trailer);
    ReachesThen(q, [CR, LF], h, [Noted(HeadersComplete)], ContentBytes(c), ContentOver(e, c), ContentEvents(c));
  }

  // ---------- header and content ----------

  /** The parser in front of the first header line of a message. */
  predicate HeaderBegins(q: Parser) {
    && q.state.HeaderFieldStart? && q.flags == NO_FLAGS && q.contentLength == ULLONG_MAX
    && (q.typ.Request? || !q.meth.CONNECT?)
  }

  predicate SameMessage(q: Parser, e: Parser) {
    e.typ == q.typ && e.meth == q.meth && e.major == q.major && e.minor == q.minor && e.statusCode == q.statusCode
  }

  /** The parser at the end of the blank line after these lines. */
  function HeaderEndOf(q: Parser, lines: seq<Field>): Parser
    requires LinesWellFormed(lines)
  {
    WellFormedFields(lines);
    AtEnd(AfterFields(q, lines))
  }

  lemma HeaderArrives(q: Parser, lines: seq<Field>)
    requires Inv(q) && HeaderBegins(q) && LinesWellFormed(lines)
    requires q.nread + |HeaderBytes(lines)| + 2 <= MAX_HEADER_SIZE
    ensures FieldsOk(lines)
    ensures !LinesTaken(NO_FLAGS, lines) ==> Run(q, HeaderBytes(lines) + [CR]).status.Failed?
    ensures LinesTaken(NO_FLAGS, lines) ==>
      var r, e := AfterFields(q, lines), HeaderEndOf(q, lines);
      && Reaches(q, HeaderBytes(lines), r, HeaderEvents(lines)) && Inv(r) && AtLine(r) && r.nread + 2 <= MAX_HEADER_SIZE
      && Ordinary(e) && SameMessage(q, e) && LengthKnown(e.flags, e.contentLength)
      && e.flags == HeaderFlags(NO_FLAGS, lines) && e.contentLength == HeaderLength(ULLONG_MAX, lines)
  {
    hide Run, Inv, HeaderBytes, HeaderEvents, AfterFields, AllAccepted, LinesTaken, HeaderFlags, HeaderLength,
         LinesWellFormed;
    SettledStart(q);
    hide Settled;
    HeaderMeans(q, lines);
    ManyFields(q, lines, CR);
    if LinesTaken(NO_FLAGS, lines) { HeaderLengthKnown(NO_FLAGS, ULLONG_MAX, lines); }
  }

  function MessageBytes(lines: seq<Field>, c: Content): seq<byte> { HeaderBytes(lines) + ([CR, LF] + ContentBytes(c)) }

  function MessageEvents(lines: seq<Field>, c: Content): seq<Event> {
    HeaderEvents(lines) + ([Noted(HeadersComplete)] + ContentEvents(c))
  }

  /** The content announced by the lines follows the blank line. */
  predicate Fits(q: Parser, lines: seq<Field>, c: Content) {
    && LinesWellFormed(lines) && LinesTaken(NO_FLAGS, lines) && ContentOk(c)
    && Announces(HeaderFlags(NO_FLAGS, lines), HeaderLength(ULLONG_MAX, lines), NeverHasBody(q), c)
  }

  predicate HandsOver(q: Parser, lines: seq<Field>) { Upgrades(q.(flags := HeaderFlags(NO_FLAGS, lines))) }

  lemma AfterBlank(q: Parser, c: Content)
    requires Inv(q) && AtLine(q) && q.nread + 2 <= MAX_HEADER_SIZE && ContentOk(c)
    requires var e := AtEnd(q);
      Ordinary(e) && !Upgrades(e) && LengthKnown(e.flags, e.contentLength)
      && Announces(e.flags, e.contentLength, NeverHasBody(e), c)
    ensures Reaches(q, [CR, LF] + ContentBytes(c), ContentOver(AtEnd(q), c),
                    [Noted(HeadersComplete)] + ContentEvents(c))
  {
    hide Reaches, Inv, AtLine, AtEnd, Upgrades, ContentOk, NeverHasBody;
    match c
    case Bare => EndEmpty(AtEnd(q)); EmptyContent(q, c);
    case Sized(body) => if body == [] { EndEmpty(AtEnd(q)); EmptyContent(q, c); } else { SizedContent(q, body); }
    case UntilClose(body) => OpenContent(q, body);
    case Chunks(_, _, _, _) => ChunkedContent(q, c);
  }

  /** Any header lines and the content they announce. */
  lemma MessageRead(q: Parser, lines: seq<Field>, c: Content)
    requires Inv(q) && HeaderBegins(q) && Fits(q, lines, c) && !HandsOver(q, lines)
    requires q.nread + |HeaderBytes(lines)| + 2 <= MAX_HEADER_SIZE
    ensures Reaches(q, MessageBytes(lines, c), ContentOver(HeaderEndOf(q, lines), c), MessageEvents(lines, c))
  {
    HeaderArrives(q, lines);
    var e := HeaderEndOf(q, lines);
    SameUpgrade(q, e, lines);
    hide Run, Inv, HeaderBytes, HeaderEvents, AfterFields, LinesTaken, HeaderFlags, HeaderLength, LinesWellFormed,
         ContentBytes, ContentEvents, AtLine, AtEnd, Upgrades, ContentOver, ContentOk, Announces;
    var r := AfterFields(q, lines);
    AfterBlank(r, c);
    ReachesThen(q, HeaderBytes(lines), r, HeaderEvents(lines), [CR, LF] + ContentBytes(c), ContentOver(e, c),
                [Noted(HeadersComplete)] + ContentEvents(c));
  }

  lemma SameUpgrade(q: Parser, e: Parser, lines: seq<Field>)
    requires SameMessage(q, e) && e.flags == HeaderFlags(NO_FLAGS, lines)
    ensures Upgrades(e) == HandsOver(q, lines) && NeverHasBody(e) == NeverHasBody(q)
  {
    hide HeaderFlags;
  }

  /** A header is refused exactly for its lengths: a second one, one that cannot be held, or one beside chunks. */
  lemma MessageRefused(q: Parser, lines: seq<Field>)
    requires Inv(q) && HeaderBegins(q) && LinesWellFormed(lines)
    requires q.nread + |HeaderBytes(lines)| + 2 <= MAX_HEADER_SIZE
    ensures Run(q, HeaderBytes(lines) + [CR, LF]).status.Failed? <==>
      !LinesTaken(NO_FLAGS, lines)
      || (HeaderFlags(NO_FLAGS, lines).chunked && HeaderFlags(NO_FLAGS, lines).contentLength)
  {
    HeaderArrives(q, lines);
    hide Run, Inv, HeaderBytes, HeaderEvents, AfterFields, LinesTaken, HeaderFlags, HeaderLength, LinesWellFormed,
         AtLine, AtEnd, OnHeaderLine, Events;
    if !LinesTaken(NO_FLAGS, lines) {
      FailureStays(q, HeaderBytes(lines) + [CR], [LF]);
      assert HeaderBytes(lines) + [CR] + [LF] == HeaderBytes(lines) + [CR, LF];
    } else {
      var r, e := AfterFields(q, lines), HeaderEndOf(q, lines);
      var o := OnHeaderLine(e, LF);
      BlankLine(r, o, Events(o.ops, Closed, LF));
      EndFails(e);
      RunConcat(q, HeaderBytes(lines), [CR, LF]);
    }
  }

  lemma EndFails(q: Parser)
    requires Ordinary(q)
    ensures OnHeaderLine(q, LF).status.Failed? <==> q.flags.chunked && q.flags.contentLength
  {
  }

  /** A message that hands the connection over ends with its header: the parser leaves behind the blank line with
      `upgrade` set and everything after it unread. */
  lemma MessageHandsOver(q: Parser, lines: seq<Field>, rest: seq<byte>)
    requires Inv(q) && HeaderBegins(q) && LinesWellFormed(lines)
    requires q.nread + |HeaderBytes(lines)| + 2 <= MAX_HEADER_SIZE
    requires LinesTaken(NO_FLAGS, lines) && HandsOver(q, lines)
    requires var flags, n := HeaderFlags(NO_FLAGS, lines), HeaderLength(ULLONG_MAX, lines);
      && !(flags.chunked && flags.contentLength)
      && (q.meth.CONNECT? || (!flags.chunked && (flags.contentLength ==> n == 0)))
    ensures var r := Run(q, HeaderBytes(lines) + [CR, LF] + rest);
      && r.status.Left? && r.used == |HeaderBytes(lines)| + 2 && r.q.upgrade
      && r.events == HeaderEvents(lines) + [Noted(HeadersComplete), Noted(MessageComplete)]
  {
    HeaderArrives(q, lines);
    var r, e := AfterFields(q, lines), HeaderEndOf(q, lines);
    SameUpgrade(q, e, lines);
    hide Run, Inv, HeaderBytes, HeaderEvents, AfterFields, LinesTaken, HeaderFlags, HeaderLength, LinesWellFormed,
         AtLine, AtEnd, Upgrades, HandsOver, Events, NewMessage, OnHeaderLine;
    EndUpgrade(e);
    Completes();
    BlankLine(r, OnHeaderLine(e, LF), [Noted(HeadersComplete), Noted(MessageComplete)]);
    RunConcat(q, HeaderBytes(lines), [CR, LF]);
    RunConcat(q, HeaderBytes(lines) + [CR, LF], rest);
  }

  lemma EndUpgradeSized(q: Parser)
    requires Ordinary(q) && Upgrades(q) && !q.meth.CONNECT? && !q.flags.chunked && 0 < q.contentLength < ULLONG_MAX
    ensures OnHeaderLine(q, LF) == Out(q.(nread := 0, upgrade := true, state := BodyIdentity), COMPLETE, Running)
  {
  }

  lemma UpgradeLast(q: Parser, ch: byte)
    requires q.state.BodyIdentity? && q.contentLength == 1 && q.upgrade
    ensures Step(q, ch) == RunState(Finished(q), DataEvents(BodyData, [ch]) + [Noted(MessageComplete)], Left, 1)
  {
    hide NewMessage, Events, DataEvents;
    LastByteEvents(ch);
  }

  lemma UpgradeBody(q: Parser, body: seq<byte>)
    requires q.state.BodyIdentity? && q.contentLength == |body| > 0 && q.upgrade
    ensures Run(q, body)
         == RunState(Finished(q), DataEvents(BodyData, body) + [Noted(MessageComplete)], Left, |body|)
  {
    hide Run, Step, NewMessage, DataEvents;
    var t, ch := body[..|body| - 1], body[|body| - 1];
    assert body == t + [ch];
    RunBody(q, t);
    UpgradeLast(BodyTaken(q, |t|), ch);
    RunOne(BodyTaken(q, |t|), ch);
    RunConcat(q, t, [ch]);
    DataEventsSplit(BodyData, t, [ch]);
    assert DataEvents(BodyData, t) + (DataEvents(BodyData, [ch]) + [Noted(MessageComplete)])
        == DataEvents(BodyData, body) + [Noted(MessageComplete)];
  }

  /** An upgrade with a body of known length: the body is delivered first, then the parser leaves. */
  lemma UpgradeWithBody(q: Parser, lines: seq<Field>, body: seq<byte>, rest: seq<byte>)
    requires Inv(q) && HeaderBegins(q) && LinesWellFormed(lines)
    requires q.nread + |HeaderBytes(lines)| + 2 <= MAX_HEADER_SIZE
    requires LinesTaken(NO_FLAGS, lines) && HandsOver(q, lines) && !q.meth.CONNECT? && body != []
    requires Announces(HeaderFlags(NO_FLAGS, lines), HeaderLength(ULLONG_MAX, lines), NeverHasBody(q), Sized(body))
    ensures var r := Run(q, MessageBytes(lines, Sized(body)) + rest);
      r.status.Left? && r.used == |MessageBytes(lines, Sized(body))| && r.q.upgrade
      && r.events == MessageEvents(lines, Sized(body))
  {
    HeaderArrives(q, lines);
    var r, e := AfterFields(q, lines), HeaderEndOf(q, lines);
    SameUpgrade(q, e, lines);
    hide Run, Inv, HeaderBytes, HeaderEvents, AfterFields, LinesTaken, HeaderFlags, HeaderLength, LinesWellFormed,
         AtLine, AtEnd, Upgrades, HandsOver, Events, NewMessage, OnHeaderLine, DataEvents, NeverHasBody;
    UpgradeAfterBlank(r, body);
    RunConcat(q, HeaderBytes(lines), [CR, LF] + body);
    RunConcat(q, MessageBytes(lines, Sized(body)), rest);
  }

  lemma UpgradeAfterBlank(q: Parser, body: seq<byte>)
    requires AtLine(q) && q.nread + 2 <= MAX_HEADER_SIZE && body != []
    requires Ordinary(AtEnd(q)) && Upgrades(AtEnd(q)) && !AtEnd(q).flags.chunked && !AtEnd(q).meth.CONNECT?
    requires AtEnd(q).contentLength == |body| <= MAX_CONTENT_LENGTH
    ensures var r := Run(q, [CR, LF] + body);
      r.status.Left? && r.used == 2 + |body| && r.q.upgrade
      && r.events == [Noted(HeadersComplete)] + ContentEvents(Sized(body))
  {
    hide Run, AtLine, AtEnd, Upgrades, Events, NewMessage, OnHeaderLine, DataEvents;
    var e := AtEnd(q);
    EndUpgradeSized(e);
    Completes();
    BlankLine(q, OnHeaderLine(e, LF), [Noted(HeadersComplete)]);
    UpgradeBody(OnHeaderLine(e, LF).q, body);
    RunConcat(q, [CR, LF], body);
  }

  // ---------- what comes after the message ----------

  /** Connections stay open from HTTP/1.1 on unless closed, before that only if kept. */
  predicate KeepsOpen(major: int, minor: int, flags: Flags) {
    if major >= 1 && minor >= 1 then !flags.close else flags.keepAlive
  }

  /** The flags once the content is over: a trailer may add to them. */
  function FinalFlags(lines: seq<Field>, c: Content): Flags {
    var flags := HeaderFlags(NO_FLAGS, lines);
    if c.Chunks? then HeaderFlags(flags.(trailing := true), c.trailer) else flags
  }

  lemma LineGrows(flags: Flags, f: Field)
    ensures flags.chunked ==> LineFlags(flags, f).chunked
  {
    hide Names, Says, HeardUpto;
    if f.value == [] { NoElements(flags); } else { OptionTakesEffect(flags, f.value); }
    hide ConnectionFlags;
  }

  lemma {:induction false} FlagsGrow(flags: Flags, lines: seq<Field>)
    ensures flags.chunked ==> HeaderFlags(flags, lines).chunked
    decreases |lines|
  {
    hide LineFlags;
    if lines != [] {
      LineGrows(flags, lines[0]);
      FlagsGrow(LineFlags(flags, lines[0]), lines[1..]);
    }
  }

  /** The counter of header bytes starts again with each message, except that a trailer still counts. */
  function CountedOn(c: Content): nat { if c.Chunks? then |HeaderBytes(c.trailer)| + 2 else 0 }

  /** After a message that ends, the parser waits for the next one or is dead. */
  predicate ReadyOrDead(q: Parser, flags: Flags, r: Parser) {
    r.state == (if !KeepsOpen(q.major, q.minor, flags) then Dead else if q.typ.Request? then StartReq else StartRes)
  }

  lemma PlainOver(e: Parser, c: Content)
    requires !c.Chunks? && !c.UntilClose? && ContentOk(c) && Announces(e.flags, e.contentLength, NeverHasBody(e), c)
    requires !e.flags.skipBody && LengthKnown(e.flags, e.contentLength)
    ensures var r := ContentOver(e, c);
      SameMessage(e, r) && r.flags == e.flags && ReadyOrDead(e, e.flags, r) && r.nread == CountedOn(c)
  {
  }

  lemma ChunksOver(e: Parser, c: Content)
    requires c.Chunks? && ContentOk(c) && e.flags.chunked && !e.flags.skipBody
    ensures var r, flags := ContentOver(e, c), HeaderFlags(e.flags.(trailing := true), c.trailer);
      SameMessage(e, r) && r.flags == flags && ReadyOrDead(e, flags, r) && r.nread == CountedOn(c)
  {
    var p := SizeRead(Behind(e, ChunkSizeStart), 0);
    hide TrailerOk, HeaderFlags, ChunkOk, SizeLineOk, Value, HexDigits, AfterFields;
    FlagsGrow(p.flags, c.trailer);
    SettledStart(p);
    TrailerAccepted(p, c.trailer);
    TrailerWellFormed(c.trailer);
    HeaderMeans(p, c.trailer);
    hide AllAccepted, LinesWellFormed, Settled;
  }

  lemma TrailerWellFormed(trailer: seq<Field>)
    requires TrailerOk(trailer)
    ensures LinesWellFormed(trailer)
  {
  }

  lemma MessageOver(q: Parser, lines: seq<Field>, c: Content)
    requires Inv(q) && HeaderBegins(q) && Fits(q, lines, c) && !c.UntilClose?
    requires q.nread + |HeaderBytes(lines)| + 2 <= MAX_HEADER_SIZE
    ensures var r := ContentOver(HeaderEndOf(q, lines), c);
      && SameMessage(q, r) && r.flags == FinalFlags(lines, c) && ReadyOrDead(q, FinalFlags(lines, c), r)
      && r.nread == CountedOn(c)
  {
    HeaderArrives(q, lines);
    var e := HeaderEndOf(q, lines);
    SameUpgrade(q, e, lines);
    hide Run, Inv, HeaderBytes, HeaderEvents, AfterFields, LinesTaken, HeaderFlags, HeaderLength, LinesWellFormed,
         AtEnd, ContentOk, ContentOver, Upgrades, NeverHasBody, LengthKnown;
    if c.Chunks? { ChunksOver(e, c); } else { PlainOver(e, c); }
  }

  // ---------- whole messages ----------

  function RequestBytes(l: RequestLine, lines: seq<Field>, c: Content): seq<byte>
    requires l.major < 10 && l.minor < 10
  {
    LineBytes(l) + MessageBytes(lines, c)
  }

  function RequestEvents(l: RequestLine, lines: seq<Field>, c: Content): seq<Event> {
    LineEvents(l) + MessageEvents(lines, c)
  }

  /** A request that ends: any line, any header lines, and the content they announce. */
  predicate RequestOk(l: RequestLine, lines: seq<Field>, c: Content) {
    && LineOk(l) && LinesWellFormed(lines) && LinesTaken(NO_FLAGS, lines) && ContentOk(c) && !l.meth.CONNECT?
    && var flags := HeaderFlags(NO_FLAGS, lines);
    !(flags.upgrade && flags.connectionUpgrade) && Announces(flags, HeaderLength(ULLONG_MAX, lines), true, c)
  }

  lemma LineBegins(q: Parser, l: RequestLine)
    requires q.typ.Request? && l.major < 10 && l.minor < 10
    ensures var r := LineRead(q, l);
      && HeaderBegins(r) && r.meth == l.meth && r.major == l.major && r.minor == l.minor && r.typ.Request?
      && r.nread == q.nread + |LineBytes(l)|
  {
    hide MethodString;
  }

  lemma RequestFits(q: Parser, l: RequestLine, lines: seq<Field>, c: Content)
    requires RequestOk(l, lines, c) && q.typ.Request? && q.meth == l.meth
    ensures Fits(q, lines, c) && !HandsOver(q, lines) && !c.UntilClose?
  {
    hide LineOk, LinesWellFormed, LinesTaken, ContentOk, HeaderFlags, HeaderLength, HeaderBytes;
  }

  /** Every request, from a parser that waits for one: message_begin, the target, each field and value,
      headers_complete, the body, one message_complete; method and version are the line's; and then the parser waits
      for the next request exactly when the connection stays open. */
  lemma WholeRequest(q: Parser, l: RequestLine, lines: seq<Field>, c: Content) returns (r: Parser)
    requires Inv(q) && q.typ.Request? && q.state.StartReq? && RequestOk(l, lines, c)
    requires q.nread + |LineBytes(l)| + |HeaderBytes(lines)| + 2 <= MAX_HEADER_SIZE
    ensures Reaches(q, RequestBytes(l, lines, c), r, RequestEvents(l, lines, c))
    ensures r.meth == l.meth && r.major == l.major && r.minor == l.minor && r.typ.Request? && r.nread == CountedOn(c)
    ensures r.state == if KeepsOpen(l.major, l.minor, FinalFlags(lines, c)) then StartReq else Dead
  {
    RequestLineParts(q, l);
    hide Run, Inv, LineOk, LineBytes, LineEvents, LineRead, HeaderBytes, MessageBytes, MessageEvents, Fits, HandsOver,
         ContentOver, HeaderEndOf, FinalFlags, HeaderBegins, KeepsOpen, CountedOn;
    RequestLineRead(q, l);
    var h := LineRead(q, l);
    LineBegins(q, l);
    ReachesInv(q, LineBytes(l), h, LineEvents(l));
    RequestFits(h, l, lines, c);
    MessageRead(h, lines, c) by { FitsWellFormed(h, lines, c); }
    FitsWellFormed(h, lines, c);
    MessageOver(h, lines, c);
    r := ContentOver(HeaderEndOf(h, lines), c);
    ReachesThen(q, LineBytes(l), h, LineEvents(l), MessageBytes(lines, c), r, MessageEvents(lines, c));
  }

  lemma FitsWellFormed(q: Parser, lines: seq<Field>, c: Content)
    requires Fits(q, lines, c)
    ensures LinesWellFormed(lines) && ContentOk(c)
  {
  }

  // ---------- replies ----------

  function ReplyBytes(l: StatusLine, lines: seq<Field>, c: Content): seq<byte>
    requires l.major < 10 && l.minor < 10
  {
    StatusBytes(l) + MessageBytes(lines, c)
  }

  function ReplyEvents(l: StatusLine, lines: seq<Field>, c: Content): seq<Event> {
    StatusEvents(l) + MessageEvents(lines, c)
  }

  /** Replies 1xx, 204 and 304 have no body whatever their lines say of none. */
  predicate ReplyOk(l: StatusLine, lines: seq<Field>, c: Content) {
    && StatusOk(l) && Code(l) <= 999 && LinesWellFormed(lines) && LinesTaken(NO_FLAGS, lines) && ContentOk(c)
    && var flags := HeaderFlags(NO_FLAGS, lines);
    && !(flags.upgrade && flags.connectionUpgrade && Code(l) == 101)
    && Announces(flags, HeaderLength(ULLONG_MAX, lines), Code(l) / 100 == 1 || Code(l) == 204 || Code(l) == 304, c)
  }

  lemma ReplyBegins(q: Parser, l: StatusLine)
    requires q.typ.Response? && !q.meth.CONNECT? && l.major < 10 && l.minor < 10
    ensures var r := StatusRead(q, l);
      && HeaderBegins(r) && r.statusCode == Code(l) && r.major == l.major && r.minor == l.minor && r.typ.Response?
      && r.nread == q.nread + |StatusBytes(l)| && r.meth == q.meth
  {
    hide StatusBytes;
  }

  lemma ReplyFits(q: Parser, l: StatusLine, lines: seq<Field>, c: Content)
    requires ReplyOk(l, lines, c) && q.typ.Response? && q.statusCode == Code(l)
    ensures Fits(q, lines, c) && !HandsOver(q, lines)
  {
    hide LinesWellFormed, LinesTaken, ContentOk, HeaderFlags, HeaderLength, HeaderBytes, Code, StatusOk;
  }

  /** Every reply, from a parser that waits for one: the reason phrase, the fields, and the content announced, or
      everything that follows if nothing is; code and version are the line's. */
  lemma WholeReply(q: Parser, l: StatusLine, lines: seq<Field>, c: Content) returns (r: Parser)
    requires Inv(q) && q.typ.Response? && !q.meth.CONNECT? && q.state.StartRes? && ReplyOk(l, lines, c)
    requires q.nread + |StatusBytes(l)| + |HeaderBytes(lines)| + 2 <= MAX_HEADER_SIZE
    ensures Reaches(q, ReplyBytes(l, lines, c), r, ReplyEvents(l, lines, c))
    ensures !c.UntilClose? ==>
      && r.statusCode == Code(l) && r.major == l.major && r.minor == l.minor
      && r.state == if KeepsOpen(l.major, l.minor, FinalFlags(lines, c)) then StartRes else Dead
    ensures c.UntilClose? ==> r.state.BodyIdentityEof?
  {
    hide Run, Inv, StatusBytes, StatusEvents, StatusRead, HeaderBytes, MessageBytes, MessageEvents, Fits, HandsOver,
         HeaderEndOf, FinalFlags, HeaderBegins, KeepsOpen, CountedOn, Code;
    StatusLineRead(q, l);
    var h := StatusRead(q, l);
    ReplyBegins(q, l);
    ReachesInv(q, StatusBytes(l), h, StatusEvents(l));
    ReplyFits(h, l, lines, c);
    FitsWellFormed(h, lines, c);
    MessageRead(h, lines, c);
    r := ContentOver(HeaderEndOf(h, lines), c);
    if c.UntilClose? {} else { MessageOver(h, lines, c); }
    hide ContentOver;
    ReachesThen(q, StatusBytes(l), h, StatusEvents(l), MessageBytes(lines, c), r, MessageEvents(lines, c));
  }

  // ---------- the body among the events ----------

  lemma {:induction false} NoBodyInData(k: Kind, s: seq<byte>)
    requires k != BodyData
    ensures BodyOf(DataEvents(k, s)) == []
  {
    if s != [] {
      NoBodyInData(k, s[..|s| - 1]);
      assert DataEvents(k, s)[..|s| - 1] == DataEvents(k, s[..|s| - 1]);
    }
  }

  lemma {:induction false} NoBodyInHeader(lines: seq<Field>)
    ensures BodyOf(HeaderEvents(lines)) == []
  {
    if lines != [] {
      var f := lines[0];
      NoBodyInHeader(lines[1..]);
      BodyOfConcat(FieldEvents(f), HeaderEvents(lines[1..]));
      BodyOfConcat(DataEvents(FieldData, f.name), DataEvents(ValueData, f.value));
      NoBodyInData(FieldData, f.name);
      NoBodyInData(ValueData, f.value);
    }
  }

  lemma BodyOfNote(n: Note)
    ensures BodyOf([Noted(n)]) == []
  {
    assert [Noted(n)][..0] == [];
  }

  lemma BodyOfDone()
    ensures BodyOf(DONE) == []
  {
    BodyOfNote(ChunkComplete);
    assert DONE[..1] == [Noted(ChunkComplete)];
  }

  lemma ContentDelivered(c: Content)
    ensures BodyOf(ContentEvents(c)) == BodyText(c)
  {
    hide BodyOf, DataEvents, HeaderEvents, AllEvents, Bodies, DONE;
    BodyOfNote(MessageComplete);
    match c
    case Bare =>
    case Sized(body) =>
      BodyOfData(body);
      BodyOfConcat(DataEvents(BodyData, body), [Noted(MessageComplete)]);
    case UntilClose(body) => BodyOfData(body);
    case Chunks(chunks, _, _, trailer) =>
      ChunksDelivered(chunks);
      NoBodyInHeader(trailer);
      BodyOfDone();
      BodyOfNote(ChunkHeader(0));
      BodyOfConcat(HeaderEvents(trailer), DONE);
      BodyOfConcat([Noted(ChunkHeader(0))], HeaderEvents(trailer) + DONE);
      BodyOfConcat(AllEvents(chunks), [Noted(ChunkHeader(0))] + (HeaderEvents(trailer) + DONE));
  }

  /** The body data of a message's events is its content. */
  lemma BodyDelivered(lines: seq<Field>, c: Content)
    ensures BodyOf(MessageEvents(lines, c)) == BodyText(c)
  {
    hide BodyOf, HeaderEvents, ContentEvents, BodyText;
    ContentDelivered(c);
    NoBodyInHeader(lines);
    BodyOfNote(HeadersComplete);
    BodyOfConcat([Noted(HeadersComplete)], ContentEvents(c));
    BodyOfConcat(HeaderEvents(lines), [Noted(HeadersComplete)] + ContentEvents(c));
  }
}
