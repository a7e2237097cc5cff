/** Split independence: how the input is cut into buffers never changes what the application observes. */
module HttpSplit {
  import opened HttpGrammar
  import opened HttpStep
  import opened HttpInvariant
  import opened HttpMarks
  import opened HttpTracking
  import opened HttpExecute

  function Concat(pieces: seq<seq<byte>>): seq<byte> {
    if pieces == [] then [] else Concat(pieces[..|pieces| - 1]) + pieces[|pieces| - 1]
  }

  lemma ConcatTake(pieces: seq<seq<byte>>, i: nat)
    requires i < |pieces|
    ensures Concat(pieces[..i + 1]) == Concat(pieces[..i]) + pieces[i]
  {
    assert pieces[..i + 1][..i] == pieces[..i];
  }

  lemma {:induction false} PieceIsShort(pieces: seq<seq<byte>>, i: nat)
    requires i < |pieces|
    ensures |pieces[i]| <= |Concat(pieces)|
  {
    if i < |pieces| - 1 { PieceIsShort(pieces[..|pieces| - 1], i); }
  }

  lemma StepLeft(q: Parser, ch: byte)
    requires Inv(q)
    ensures Step(q, ch).status.Left? ==> Step(q, ch).q.upgrade
  {
    hide Dispatch, Events, Inv, OpsOk, OpenAfter;
    CountedFromInv(q);
    var c := if ParsingHeader(q.state) then q.(nread := q.nread + 1) else q;
    if c.nread <= MAX_HEADER_SIZE && Counted(c) { DispatchFits(c, ch, OpenIn(q.state)); }
    RangesOfInv(q);
  }

  /** The only early exit is an upgrade. */
  lemma {:induction false} LeftMeansUpgrade(q: Parser, data: seq<byte>)
    requires Inv(q)
    ensures Run(q, data).status.Left? ==> Run(q, data).q.upgrade
  {
    hide Step, Inv;
    if data != [] {
      var t := data[..|data| - 1];
      LeftMeansUpgrade(q, t);
      RunKeepsInv(q, t);
      if Run(q, t).status.Running? { StepLeft(Run(q, t).q, data[|data| - 1]); }
    }
  }

  lemma {:induction false} FlattenConcat(a: seq<Callback>, b: seq<Callback>)
    ensures Flatten(a + b) == Flatten(a) + Flatten(b)
    decreases |b|
  {
    if b == [] { assert a + b == a; }
    else {
      assert (a + b)[..|a + b| - 1] == a + b[..|b| - 1];
      FlattenConcat(a, b[..|b| - 1]);
    }
  }

  /** Feeding the pieces one call after another. */
  method Feed(q0: Parser, pieces: seq<seq<byte>>) returns (q: Parser, log: seq<Callback>)
    requires Inv(q0) && (forall i :: 0 <= i < |pieces| ==> pieces[i] != [] && BufferFits(pieces[i]))
    ensures var r := Run(q0, Concat(pieces));
      && (r.status.Running? ==> q == r.q && Flatten(log) == r.events)
      && (r.status.Failed? ==> !q.errno.Ok?)
  {
    hide Run, Inv, Flatten, Concat;
    q, log := q0, [];
    EmptyFeed(q0, pieces);
    InvErrno(q0);
    for i := 0 to |pieces|
      invariant Fed(q0, Concat(pieces[..i]), q, log)
      invariant q.errno.Ok? ==> Inv(q)
    {
      var q', more, used := Execute(q, pieces[i]);
      ConcatTake(pieces, i);
      FedMore(q0, Concat(pieces[..i]), pieces[i], q, log, q', more, used);
      q, log := q', log + more;
    }
    assert pieces[..|pieces|] == pieces;
  }

  /** The parser and log after a prefix of the input: exact while the reference runs, failed once it has failed. */
  ghost predicate Fed(q0: Parser, data: seq<byte>, q: Parser, log: seq<Callback>) {
    var r := Run(q0, data);
    (r.status.Running? ==> q == r.q && Flatten(log) == r.events) && (r.status.Failed? ==> !q.errno.Ok?)
  }

  lemma EmptyFeed(q0: Parser, pieces: seq<seq<byte>>)
    ensures Fed(q0, Concat(pieces[..0]), q0, [])
  {
  }

  lemma FedMore(q0: Parser, data: seq<byte>, piece: seq<byte>, q: Parser, log: seq<Callback>,
                q': Parser, more: seq<Callback>, used: nat)
    requires Fed(q0, data, q, log) && Inv(q0)
    requires if q.errno.Ok? then Observes(q, piece, q', more, used) else q' == q && more == []
    ensures Fed(q0, data + piece, q', log + more)
    ensures q'.errno.Ok? ==> (if q.errno.Ok? then Inv(q') else false)
  {
    hide Run, Inv, Flatten;
    RunConcat(q0, data, piece);
    RunKeepsInv(q0, data);
    FlattenConcat(log, more);
    if Run(q0, data).status.Running? { InvErrno(q); }
  }

  /** Any way of cutting the same bytes: if one call on the whole input ends without error and without an
      upgrade, feeding the pieces ends in the same parser with the same notifications and the same
      concatenated data, in the same order; if one call fails, so do the pieces. */
  method SameForAnyCut(q0: Parser, pieces: seq<seq<byte>>)
    returns (whole: Parser, wholeLog: seq<Callback>, cut: Parser, cutLog: seq<Callback>)
    requires Inv(q0) && pieces != [] && (forall i :: 0 <= i < |pieces| ==> pieces[i] != [])
    requires BufferFits(Concat(pieces))
    ensures whole.errno.Ok? && !whole.upgrade ==> cut == whole && Flatten(cutLog) == Flatten(wholeLog)
    ensures !whole.errno.Ok? ==> !cut.errno.Ok?
  {
    hide Run, Inv, Flatten;
    InvErrno(q0);
    forall i | 0 <= i < |pieces| ensures BufferFits(pieces[i]) { PieceIsShort(pieces, i); }
    PieceIsShort(pieces, 0);
    var used;
    whole, wholeLog, used := Execute(q0, Concat(pieces));
    cut, cutLog := Feed(q0, pieces);
    LeftMeansUpgrade(q0, Concat(pieces));
  }
}
