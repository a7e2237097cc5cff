/** Runs of the byte-at-a-time reference compose, and what it means for the real parser to track one. */
module HttpTracking {
  import opened HttpGrammar
  import opened HttpStep
  import opened HttpInvariant
  import opened HttpMarks

  // ---------- runs compose ----------

  /** A run continued: nothing happens after an error or an upgrade exit. */
  function Continue(r: RunState, s: RunState): RunState {
    if r.status.Running? then RunState(s.q, r.events + s.events, s.status, r.used + s.used) else r
  }

  lemma {:induction false} RunConcat(q: Parser, a: seq<byte>, b: seq<byte>)
    ensures Run(q, a + b) == Continue(Run(q, a), Run(Run(q, a).q, b))
    decreases |b|
  {
    hide Step;
    if b == [] {
      assert a + b == a;
    } else {
      var b' := b[..|b| - 1];
      assert (a + b)[..|a + b| - 1] == a + b';
      RunConcat(q, a, b');
      if Run(q, a).status.Running? && Run(q, a + b').status.Running? {
        var s := Step(Run(q, a + b').q, b[|b| - 1]);
        assert Run(q, a).events + (Run(Run(q, a).q, b').events + s.events)
            == (Run(q, a).events + Run(Run(q, a).q, b').events) + s.events;
      }
    }
  }

  lemma {:induction false} RunUsesAll(q: Parser, data: seq<byte>)
    ensures Run(q, data).status.Running? ==> Run(q, data).used == |data|
  {
    hide CountAndDispatch;
    if data != [] { RunUsesAll(q, data[..|data| - 1]); }
  }

  lemma RunOne(q: Parser, ch: byte)
    ensures Run(q, [ch]) == Step(q, ch)
  {
    hide CountAndDispatch;
    assert [ch][..0] == [];
    assert [] + Step(q, ch).events == Step(q, ch).events;
  }

  /** The reference on a prefix, then on the next stretch of the same buffer. */
  lemma RunPrefix(q: Parser, data: seq<byte>, p: nat, e: nat)
    requires p <= e <= |data|
    ensures Run(q, data[..e]) == Continue(Run(q, data[..p]), Run(Run(q, data[..p]).q, data[p..e]))
  {
    assert data[..e] == data[..p] + data[p..e];
    RunConcat(q, data[..p], data[p..e]);
  }

  /** Once stopped, the rest of the buffer does not matter. */
  lemma RunStopped(q: Parser, data: seq<byte>, e: nat)
    requires e <= |data| && !Run(q, data[..e]).status.Running?
    ensures Run(q, data) == Run(q, data[..e])
  {
    RunPrefix(q, data, e, |data|);
    assert data[..|data|] == data;
  }

  // ---------- tracking the reference ----------

  /** After `p` bytes of the buffer the real parser is where the reference is, and has announced or
      holds back behind its mark exactly the events the reference has produced. */
  ghost predicate Tracks(q0: Parser, data: seq<byte>, p: nat, c: Cursor) {
    && p <= |data| && SingleMark(c.marks, p)
    && var r := Run(q0, data[..p]);
    && r.status.Running? && c.q == r.q && Inv(c.q)
    && OpenMatches(OpenOf(c.marks), c.q.state)
    && View(c.log, c.marks, data, p) == r.events
  }

  /** What one trip round the byte loop achieves: it either tracks the reference further into the buffer,
      or fails where the reference fails on this buffer, or leaves exactly where the reference leaves. */
  ghost predicate Advanced(q0: Parser, data: seq<byte>, p: nat, c: Cursor, e: nat, status: Status) {
    match status
    case Running => p < e <= |data| && Tracks(q0, data, e, c)
    case Failed => Run(q0, data).status.Failed? && !c.q.errno.Ok?
    case Left =>
      var r := Run(q0, data);
      r.status.Left? && c.q == r.q && e == r.used && e <= |data| && Flatten(c.log) == r.events && c.q.errno.Ok?
  }

  lemma TracksStart(q: Parser, data: seq<byte>)
    requires Inv(q)
    ensures Tracks(q, data, 0, Cursor(q, InitialMarks(q.state), []))
  {
    var m := InitialMarks(q.state);
    assert data[..0] == [];
    match OpenIn(q.state)
    case Closed =>
    case Opened(k) => assert DataEvents(k, data[0..0]) == [];
  }

  lemma EventsAre(ops: seq<Op>, open: Open, ch: byte)
    ensures Events(ops, open, ch) == Announced(ops, ch) +
            (match OpenAfter(ops, open) case Opened(k) => DataEvents(k, [ch]) case Closed => [])
  {
    forall k ensures DataEvents(k, [ch]) == [Data(k, ch)] { }
  }

  lemma InvErrno(q: Parser)
    requires Inv(q)
    ensures q.errno.Ok?
  {
  }

  /** One byte handled by the switch: the handler's requests carried out on the real marks and log. */
  lemma SwitchTracks(q0: Parser, data: seq<byte>, p: nat, c: Cursor, counted: Parser)
    requires Tracks(q0, data, p, c) && p < |data|
    requires counted == if ParsingHeader(c.q.state) then c.q.(nread := c.q.nread + 1) else c.q
    requires counted.nread <= MAX_HEADER_SIZE
    ensures OpsOk(Dispatch(counted, data[p]).ops, OpenOf(c.marks))
    ensures var o := Dispatch(counted, data[p]);
      var r := ApplyOps(o.ops, c.marks, c.log, data, p);
      Advanced(q0, data, p, Cursor(o.q, r.0, r.1), p + 1, o.status)
  {
    hide Dispatch, Inv, SingleMark, View, ApplyOps, OpsOk, OpenAfter, OpenOf, Flatten, OpenIn, OpenMatches,
      ParsingHeader, Counted, Events, Announced, Run;
    var ch := data[p];
    var o := Dispatch(counted, ch);
    CountedFromInv(c.q);
    DispatchFits(counted, ch, OpenOf(c.marks));
    var r := ApplyOps(o.ops, c.marks, c.log, data, p);
    ApplyOpsView(o.ops, c.marks, c.log, data, p);
    AdvanceView(r.0, r.1, data, p, p + 1);
    assert data[p..p + 1] == [ch];
    RunPrefix(q0, data, p, p + 1);
    RunOne(c.q, ch);
    RunUsesAll(q0, data[..p]);
    EventsAre(o.ops, OpenOf(c.marks), ch);
    StepKeepsInv(c.q, ch);
    if !o.status.Running? { RunStopped(q0, data, p + 1); }
    if o.status.Left? { ClosedView(r.0, r.1, data, p + 1); assert o.q.errno.Ok? by { InvErrno(o.q); } }
  }

  lemma RangesOfInv(q: Parser)
    requires Inv(q)
    ensures RangesOk(q)
  {
  }

  lemma {:induction false} RunKeepsInv(q: Parser, data: seq<byte>)
    requires Inv(q)
    ensures if Run(q, data).status.Failed? then !Run(q, data).q.errno.Ok? else Inv(Run(q, data).q)
  {
    hide Inv, CountAndDispatch;
    if data != [] {
      RunKeepsInv(q, data[..|data| - 1]);
      var r := Run(q, data[..|data| - 1]);
      if r.status.Running? { StepKeepsInv(r.q, data[|data| - 1]); }
    }
  }

  /** A stretch of data for the open mark: tracking carries over it without touching marks or log. */
  lemma StretchTracks(q0: Parser, data: seq<byte>, p: nat, c: Cursor, e: nat, q': Parser, k: Kind)
    requires Tracks(q0, data, p, c) && p <= e <= |data|
    requires Run(c.q, data[p..e]) == RunState(q', DataEvents(k, data[p..e]), Running, e - p)
    requires OpenOf(c.marks) == Opened(k) && OpenMatches(Opened(k), q'.state)
    ensures Tracks(q0, data, e, c.(q := q'))
  {
    hide Run, Inv, SingleMark, View, OpenOf;
    RunPrefix(q0, data, p, e);
    RunKeepsInv(c.q, data[p..e]);
    AdvanceView(c.marks, c.log, data, p, e);
  }

  lemma FailsHere(q0: Parser, data: seq<byte>, p: nat, c: Cursor, e: nat)
    requires Tracks(q0, data, p, c) && p <= e <= |data| && Run(c.q, data[p..e]).status.Failed?
    ensures Run(q0, data).status.Failed?
  {
    hide Run, Inv, SingleMark, View;
    RunPrefix(q0, data, p, e);
    RunStopped(q0, data, e);
  }

  /** `COUNT_HEADER_SIZE` on the 32-bit counter. */
  function Count(nread: int, v: int): int { (nread + v % UINT32_MOD) % UINT32_MOD }

  predicate BufferFits(data: seq<byte>) { |data| + MAX_HEADER_SIZE < UINT32_MOD }

  function Failing(c: Cursor, e: Errno): Cursor { c.(q := c.q.(errno := e)) }

  lemma CountSmall(nread: int, v: int, data: seq<byte>)
    requires BufferFits(data) && 0 <= nread <= MAX_HEADER_SIZE && 0 <= v <= |data|
    ensures Count(nread, v) == nread + v
  {
  }

  /** The data a callback receives when a value or name ends at `p`. */
  function Held(c: Cursor, k: Kind, data: seq<byte>, p: nat): seq<byte> {
    if 0 <= At(c.marks, k) <= p <= |data| then data[At(c.marks, k)..p] else []
  }

  lemma CursorFacts(q0: Parser, data: seq<byte>, p: nat, c: Cursor)
    requires Tracks(q0, data, p, c)
    ensures p <= |data| && RangesOk(c.q) && Inv(c.q)
  {
  }

  lemma AdvancedFailed(q0: Parser, data: seq<byte>, p: nat, c: Cursor, e: nat, err: Errno)
    requires Run(q0, data).status.Failed? && !err.Ok?
    ensures Advanced(q0, data, p, Failing(c, err), e, Failed)
  {
    hide Run;
  }

  lemma AdvancedRunning(q0: Parser, data: seq<byte>, p: nat, c: Cursor, e: nat)
    requires Tracks(q0, data, e, c) && p < e <= |data|
    ensures Advanced(q0, data, p, c, e, Running)
  {
    hide Tracks;
  }

  lemma ByteTooMany(q: Parser, ch: byte)
    requires ParsingHeader(q.state) && q.nread + 1 > MAX_HEADER_SIZE
    ensures Step(q, ch).status.Failed?
  {
    hide Dispatch, Events;
  }

  /** A header byte too many fails whatever it is. */
  lemma OverflowAt(q0: Parser, data: seq<byte>, p: nat, c: Cursor)
    requires Tracks(q0, data, p, c) && p < |data| && ParsingHeader(c.q.state) && c.q.nread + 1 > MAX_HEADER_SIZE
    ensures Run(q0, data).status.Failed?
  {
    hide Run, Step, Inv, View, SingleMark;
    assert data[p..p + 1] == [data[p]];
    ByteTooMany(c.q, data[p]);
    RunOne(c.q, data[p]);
    FailsHere(q0, data, p, c, p + 1);
  }

  /** In a state with a restored mark, that mark is the one that is set. */
  lemma MarkOf(q0: Parser, data: seq<byte>, p: nat, c: Cursor, k: Kind)
    requires Tracks(q0, data, p, c) && OpenIn(c.q.state) == Opened(k)
    ensures OpenOf(c.marks) == Opened(k) && SingleMark(c.marks, p) && 0 <= At(c.marks, k) <= p
  {
    hide Run, Inv, View;
  }

  lemma ApplyOneEmit(k: Kind, m: Marks, log: seq<Callback>, data: seq<byte>, p: nat)
    requires p < |data| && SingleMark(m, p) && OpenOf(m) == Opened(k)
    ensures OpsOk([Emit(k)], OpenOf(m)) && 0 <= At(m, k) <= p
    ensures ApplyOps([Emit(k)], m, log, data, p) == (Put(m, k, -1), log + [DataCallback(k, data[At(m, k)..p])])
  {
    assert [Emit(k)][1..] == [];
  }
}
