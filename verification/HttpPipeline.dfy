/** Requests one after another on a connection, however the bytes are cut into buffers. */
module HttpPipeline {
  import opened HttpGrammar
  import opened HttpStep
  import opened HttpInvariant
  import opened HttpMarks
  import opened HttpHeaders
  import opened HttpStartLine
  import opened HttpMessage
  import opened HttpTracking
  import opened HttpExecute
  import opened HttpSplit

  datatype Message = Message(line: RequestLine, lines: seq<Field>, content: Content)

  predicate StaysOpen(m: Message) { KeepsOpen(m.line.major, m.line.minor, FinalFlags(m.lines, m.content)) }

  /** Header bytes still counted when the next message begins. */
  function StillCounted(ms: seq<Message>): nat { if ms == [] then 0 else CountedOn(ms[|ms| - 1].content) }

  /** Each request is well formed and small enough, and each but the last leaves the connection open. */
  predicate Pipelined(ms: seq<Message>) {
    ms == [] ||
    var init, m := ms[..|ms| - 1], ms[|ms| - 1];
    && Pipelined(init) && (init != [] ==> StaysOpen(init[|init| - 1])) && RequestOk(m.line, m.lines, m.content)
    && StillCounted(init) + |LineBytes(m.line)| + |HeaderBytes(m.lines)| + 2 <= MAX_HEADER_SIZE
  }

  function AllBytes(ms: seq<Message>): seq<byte>
    requires Pipelined(ms)
  {
    if ms == [] then []
    else
      var m := ms[|ms| - 1];
      AllBytes(ms[..|ms| - 1]) + RequestBytes(m.line, m.lines, m.content)
  }

  function AllEvents(ms: seq<Message>): seq<Event> {
    if ms == [] then []
    else
      var m := ms[|ms| - 1];
      AllEvents(ms[..|ms| - 1]) + RequestEvents(m.line, m.lines, m.content)
  }

  /** Any requests in a row, all but the last leaving the connection open: each is announced in full, in order. */
  lemma {:induction false} RequestsRead(q: Parser, ms: seq<Message>) returns (r: Parser)
    requires Inv(q) && q.typ.Request? && q.state.StartReq? && q.nread == 0 && Pipelined(ms)
    ensures Reaches(q, AllBytes(ms), r, AllEvents(ms)) && Inv(r) && r.typ.Request?
    ensures r.nread == StillCounted(ms)
    ensures ms == [] || StaysOpen(ms[|ms| - 1]) ==> r.state.StartReq?
    ensures ms != [] && !StaysOpen(ms[|ms| - 1]) ==> r.state.Dead?
    ensures ms != [] ==> r.meth == ms[|ms| - 1].line.meth
  {
    hide Run, Inv, RequestBytes, RequestEvents, KeepsOpen, FinalFlags, CountedOn, LineBytes, HeaderBytes;
    if ms == [] {
      ReachesNothing(q);
      r := q;
    } else {
      var init, m := ms[..|ms| - 1], ms[|ms| - 1];
      var q1 := RequestsRead(q, init);
      r := WholeRequest(q1, m.line, m.lines, m.content);
      var b := RequestBytes(m.line, m.lines, m.content);
      ReachesInv(q1, b, r, RequestEvents(m.line, m.lines, m.content));
      ReachesThen(q, AllBytes(init), q1, AllEvents(init), b, r, RequestEvents(m.line, m.lines, m.content));
    }
  }

  /** The same bytes through `http_parser_execute`, in any pieces, from a fresh parser: exactly these callbacks. */
  method Serve(ms: seq<Message>, lenient: bool, pieces: seq<seq<byte>>) returns (q: Parser, log: seq<Callback>)
    requires Pipelined(ms) && Concat(pieces) == AllBytes(ms)
    requires forall i :: 0 <= i < |pieces| ==> pieces[i] != [] && BufferFits(pieces[i])
    ensures q.errno.Ok? && Flatten(log) == AllEvents(ms)
    ensures ms != [] ==> q.meth == ms[|ms| - 1].line.meth && (q.state.StartReq? <==> StaysOpen(ms[|ms| - 1]))
  {
    hide Run, Inv, Flatten, AllBytes, AllEvents, Pipelined, StaysOpen;
    InitInv(ParserType.Request, lenient);
    var q0 := Init(ParserType.Request, lenient);
    ghost var r := RequestsRead(q0, ms);
    InvErrno(r);
    q, log := Feed(q0, pieces);
  }
}
