/** The bulk loop over header values in `s_header_value`. */
module HttpValueBulk {
  import opened HttpGrammar
  import opened HttpStep
  import opened HttpInvariant
  import opened HttpMarks
  import opened HttpTracking

  predicate LineEnd(ch: byte) { ch == CR || ch == LF }

  predicate NoLineEnd(s: seq<byte>) { forall i :: 0 <= i < |s| ==> !LineEnd(s[i]) }

  predicate NoLineEndIn(data: seq<byte>, a: nat, b: nat)
    requires a <= b <= |data|
  {
    forall i :: a <= i < b ==> !LineEnd(data[i])
  }

  /** The value matcher over a stretch of characters, without counting. */
  function ValueFold(q: Parser, s: seq<byte>): Out {
    if s == [] then Out(q, [], Running)
    else
      var o := ValueFold(q, s[..|s| - 1]);
      if o.status.Running? then ValueChar(o.q, s[|s| - 1]) else o
  }

  lemma ValueCharShape(q: Parser, ch: byte, n: int)
    ensures var o := ValueChar(q, ch);
      && o.ops == [] && !o.status.Left? && o.q.state == q.state && o.q.nread == q.nread && o.q.lenient == q.lenient
      && ValueChar(q.(nread := n), ch) == o.(q := o.q.(nread := n))
  {
    hide ValueHeaderState, ValueIndex, IsHeaderChar;
  }

  lemma {:induction false} ValueFoldShape(q: Parser, s: seq<byte>)
    ensures var o := ValueFold(q, s);
      && o.ops == [] && !o.status.Left? && o.q.state == q.state && o.q.nread == q.nread && o.q.lenient == q.lenient
  {
    hide ValueChar;
    if s != [] {
      ValueFoldShape(q, s[..|s| - 1]);
      ValueCharShape(ValueFold(q, s[..|s| - 1]).q, s[|s| - 1], 0);
    }
  }

  lemma {:induction false} ValueFoldConcat(q: Parser, s: seq<byte>, t: seq<byte>)
    ensures ValueFold(q, s + t)
         == (if ValueFold(q, s).status.Running? then ValueFold(ValueFold(q, s).q, t) else ValueFold(q, s))
    decreases |t|
  {
    hide ValueChar;
    if t == [] { assert s + t == s; ValueFoldShape(q, s); }
    else {
      assert (s + t)[..|s + t| - 1] == s + t[..|t| - 1];
      ValueFoldConcat(q, s, t[..|t| - 1]);
    }
  }

  /** In the general state a stretch is accepted unchanged as long as its characters are legal. */
  lemma {:induction false} ValueFoldGeneral(q: Parser, s: seq<byte>)
    requires q.hstate.General? && (q.lenient || forall i :: 0 <= i < |s| ==> IsHeaderChar(s[i]))
    ensures ValueFold(q, s) == Out(q, [], Running)
  {
    hide IsHeaderChar;
    if s != [] { ValueFoldGeneral(q, s[..|s| - 1]); }
  }

  lemma ValueByteStep(q: Parser, ch: byte)
    requires q.state.HeaderValue? && !LineEnd(ch)
    ensures var o := ValueChar(q, ch); var r := Step(q, ch);
      if q.nread + 1 <= MAX_HEADER_SIZE && o.status.Running?
      then r == RunState(o.q.(nread := q.nread + 1), DataEvents(ValueData, [ch]), Running, 1)
      else r.status.Failed?
  {
    hide ValueChar;
    ValueCharShape(q, ch, q.nread + 1);
    EventsAre([], Opened(ValueData), ch);
    assert [] + DataEvents(ValueData, [ch]) == DataEvents(ValueData, [ch]);
  }

  /** The reference on a stretch without line ends: it follows the matcher while the header limit lasts. */
  lemma {:induction false} RunValueChars(q: Parser, s: seq<byte>)
    requires RangesOk(q) && q.state.HeaderValue? && NoLineEnd(s)
    ensures var r := Run(q, s); var o := ValueFold(q, s);
      if q.nread + |s| <= MAX_HEADER_SIZE && o.status.Running?
      then r == RunState(o.q.(nread := q.nread + |s|), DataEvents(ValueData, s), Running, |s|)
      else r.status.Failed?
  {
    hide Step, ValueChar, LineEnd;
    if s != [] {
      var t, ch := s[..|s| - 1], s[|s| - 1];
      RunValueChars(q, t);
      ValueFoldShape(q, t);
      if q.nread + |t| <= MAX_HEADER_SIZE && ValueFold(q, t).status.Running? {
        var r := Run(q, t);
        assert s == t + [ch];
        DataEventsSplit(ValueData, t, [ch]);
        ValueByteStep(r.q, ch);
        ValueCharShape(ValueFold(q, t).q, ch, q.nread + |t|);
      }
    } else {
      assert DataEvents(ValueData, s) == [];
    }
  }

  // ---------- the scan ----------

  /** How far a scan has got: exactly with the matcher, or so far that the header limit is broken anyway. */
  ghost predicate Scanned(q: Parser, data: seq<byte>, start: nat, p: nat, r: Parser) {
    && start <= p <= |data|
    && ((ValueFold(q, data[start..p]) == Out(r, [], Running) && NoLineEndIn(data, start, p))
        || (p - start > MAX_HEADER_SIZE && Run(q, data[start..]).status.Failed?))
  }

  lemma ScannedStart(q: Parser, data: seq<byte>, start: nat)
    requires start <= |data|
    ensures Scanned(q, data, start, start, q)
  {
  }

  lemma RestFails(q: Parser, data: seq<byte>, start: nat, e: nat)
    requires start <= e <= |data| && Run(q, data[start..e]).status.Failed?
    ensures Run(q, data[start..]).status.Failed?
  {
    hide Run;
    assert data[start..][..e - start] == data[start..e];
    RunStopped(q, data[start..], e - start);
  }

  /** A scan past the header limit is a scan the reference fails. */
  lemma TooFarFails(q: Parser, data: seq<byte>, start: nat, e: nat)
    requires start <= e <= |data| && RangesOk(q) && q.state.HeaderValue? && NoLineEndIn(data, start, e)
    requires q.nread + (e - start) > MAX_HEADER_SIZE || !ValueFold(q, data[start..e]).status.Running?
    ensures Run(q, data[start..]).status.Failed?
  {
    assert NoLineEnd(data[start..e]);
    hide Run, ValueFold;
    RunValueChars(q, data[start..e]);
    RestFails(q, data, start, e);
  }

  lemma NoLineEndSlice(data: seq<byte>, a: nat, b: nat)
    requires a <= b <= |data| && NoLineEndIn(data, a, b)
    ensures NoLineEnd(data[a..b])
  {
  }

  lemma SliceSnoc(data: seq<byte>, a: nat, e: nat)
    requires a <= e < |data|
    ensures data[a..e + 1] == data[a..e] + [data[e]]
  {
  }

  lemma NreadRange(q: Parser)
    requires RangesOk(q)
    ensures 0 <= q.nread <= MAX_HEADER_SIZE
  {
  }

  lemma NextByteFails(q: Parser, s: seq<byte>, ch: byte)
    requires Run(q, s).q.state.HeaderValue? && Run(q, s).q.nread + 1 > MAX_HEADER_SIZE && Run(q, s).status.Running?
    ensures Run(q, s + [ch]).status.Failed?
  {
    hide Run, Step;
    RunConcat(q, s, [ch]);
    RunOne(Run(q, s).q, ch);
    ByteTooMany(Run(q, s).q, ch);
  }

  /** A stretch of `MAX_HEADER_SIZE` value characters cannot be followed by any byte at all. */
  lemma FullStretchFails(q: Parser, data: seq<byte>, start: nat, e: nat)
    requires start <= e < |data| && RangesOk(q) && q.state.HeaderValue? && NoLineEndIn(data, start, e)
    requires e - start >= MAX_HEADER_SIZE
    ensures Run(q, data[start..]).status.Failed?
  {
    hide *;
    var s := data[start..e];
    NoLineEndSlice(data, start, e);
    RunValueChars(q, s);
    ValueFoldShape(q, s);
    NreadRange(q);
    if Run(q, s).status.Running? {
      NextByteFails(q, s, data[e]);
      SliceSnoc(data, start, e);
      RestFails(q, data, start, e + 1);
    } else {
      RestFails(q, data, start, e);
    }
  }

  lemma ScannedFold(q: Parser, data: seq<byte>, start: nat, p: nat, r: Parser, e: nat, o: Out)
    requires Scanned(q, data, start, p, r) && p <= e <= |data| && NoLineEndIn(data, p, e)
    requires o == ValueFold(r, data[p..e])
    requires RangesOk(q) && q.state.HeaderValue?
    ensures if o.status.Running? then o.ops == [] && Scanned(q, data, start, e, o.q)
            else Run(q, data[start..]).status.Failed?
  {
    hide Run, ValueChar;
    ValueFoldShape(r, data[p..e]);
    if ValueFold(q, data[start..p]) == Out(r, [], Running) && NoLineEndIn(data, start, p) {
      assert data[start..e] == data[start..p] + data[p..e];
      ValueFoldConcat(q, data[start..p], data[p..e]);
      if !o.status.Running? { TooFarFails(q, data, start, e); }
    }
  }

  lemma ValueFoldOne(q: Parser, data: seq<byte>, p: nat)
    requires p < |data|
    ensures ValueFold(q, data[p..p + 1]) == ValueChar(q, data[p])
  {
    assert data[p..p + 1][..0] == [];
  }

  /** The fast loop of the general state. It stops one before a line end; when it instead runs into its own
      bound before the end of the buffer, the caller's increment skips a byte unexamined. */
  method SkipGeneral(data: seq<byte>, lenient: bool, p: nat) returns (e: nat, bad: bool)
    requires p < |data| && !LineEnd(data[p]) && (lenient || IsHeaderChar(data[p]))
    ensures p <= e < |data|
    ensures bad ==> !lenient && !IsHeaderChar(data[e]) && NoLineEndIn(data, p, e + 1)
    ensures bad ==> forall i :: p <= i < e ==> IsHeaderChar(data[i])
    ensures !bad ==> NoLineEndIn(data, p, e) && (lenient || forall i :: p <= i < e ==> IsHeaderChar(data[i]))
    ensures !bad ==> (!LineEnd(data[e]) && (lenient || IsHeaderChar(data[e]))) || e - p >= MAX_HEADER_SIZE
  {
    hide IsHeaderChar, LineEnd;
    var pe := p + if |data| - p < MAX_HEADER_SIZE then |data| - p else MAX_HEADER_SIZE;
    e := p;
    while e != pe
      invariant p <= e <= pe <= |data| && NoLineEndIn(data, p, e)
      invariant lenient || forall i :: p <= i < e ==> IsHeaderChar(data[i])
    {
      if LineEnd(data[e]) {
        return e - 1, false;
      }
      if !lenient && !IsHeaderChar(data[e]) {
        return e, true;
      }
      e := e + 1;
    }
    bad := false;
    if e == |data| { e := e - 1; }
  }

  lemma GeneralStretch(q: Parser, data: seq<byte>, start: nat, p: nat, r: Parser, e: nat)
    requires Scanned(q, data, start, p, r) && p <= e < |data| && r.hstate.General? && r.lenient == q.lenient
    requires RangesOk(q) && q.state.HeaderValue?
    requires NoLineEndIn(data, p, e) && (r.lenient || forall i :: p <= i < e ==> IsHeaderChar(data[i]))
    requires (!LineEnd(data[e]) && (r.lenient || IsHeaderChar(data[e]))) || e - p >= MAX_HEADER_SIZE
    ensures Scanned(q, data, start, e + 1, r)
  {
    if !LineEnd(data[e]) && (r.lenient || IsHeaderChar(data[e])) {
      hide Run;
      ValueFoldGeneral(r, data[p..e + 1]);
      ScannedFold(q, data, start, p, r, e + 1, Out(r, [], Running));
    } else if ValueFold(q, data[start..p]) == Out(r, [], Running) && NoLineEndIn(data, start, p) {
      hide Run, ValueFold;
      FullStretchFails(q, data, start, e);
    }
  }

  lemma {:induction false} FoldBad(q: Parser, s: seq<byte>, ch: byte)
    requires !q.lenient && !IsHeaderChar(ch)
    ensures !ValueFold(q, s + [ch]).status.Running?
  {
    assert (s + [ch])[..|s + [ch]| - 1] == s;
    ValueFoldShape(q, s);
    hide ValueHeaderState, ValueIndex, ContentLengthChar, IsHeaderChar;
  }

  lemma GeneralBad(q: Parser, data: seq<byte>, start: nat, p: nat, r: Parser, e: nat)
    requires Scanned(q, data, start, p, r) && p <= e < |data| && !r.lenient && RangesOk(q) && q.state.HeaderValue?
    requires NoLineEndIn(data, p, e + 1) && !IsHeaderChar(data[e])
    ensures Run(q, data[start..]).status.Failed?
  {
    hide *;
    SliceSnoc(data, p, e);
    FoldBad(r, data[p..e], data[e]);
    ScannedFold(q, data, start, p, r, e + 1, ValueFold(r, data[p..e + 1]));
  }

  /** The value scan of `s_header_value`. Within the header limit it agrees with the matcher. */
  method ScanValue(q: Parser, data: seq<byte>, start: nat) returns (r: Parser, p: nat, bad: bool)
    requires start <= |data| && RangesOk(q) && q.state.HeaderValue?
    ensures start <= p <= |data|
    ensures bad ==> Run(q, data[start..]).status.Failed?
    ensures !bad ==> Scanned(q, data, start, p, r) && (p < |data| ==> LineEnd(data[p]))
  {
    hide *;
    ScannedStart(q, data, start);
    p, r, bad := start, q, false;
    while p < |data| && !LineEnd(data[p])
      invariant start <= p <= |data| && Scanned(q, data, start, p, r) && r.lenient == q.lenient
    {
      var last := p;
      if !r.lenient && !IsHeaderChar(data[p]) {
        OneStretch(data, p);
        GeneralBad(q, data, start, p, r, p);
        bad := true;
        return;
      }
      if r.hstate.General? {
        last, bad := SkipGeneral(data, r.lenient, p);
        if bad {
          GeneralBad(q, data, start, p, r, last);
          return;
        }
        GeneralStretch(q, data, start, p, r, last);
      } else {
        var o := ValueChar(r, data[p]);
        OneStretch(data, p);
        ValueFoldOne(r, data, p);
        ScannedFold(q, data, start, p, r, p + 1, o);
        ValueCharShape(r, data[p], 0);
        if !o.status.Running? {
          bad := true;
          return;
        }
        r := o.q;
      }
      p := last + 1;
    }
  }

  lemma OneStretch(data: seq<byte>, p: nat)
    requires p < |data| && !LineEnd(data[p])
    ensures NoLineEndIn(data, p, p + 1)
  {
  }

  // ---------- the bulk step ----------

  lemma ExactStretch(q0: Parser, data: seq<byte>, p: nat, c: Cursor, r: Parser, e: nat)
    requires Tracks(q0, data, p, c) && c.q.state.HeaderValue? && p <= e <= |data|
    requires ValueFold(c.q, data[p..e]) == Out(r, [], Running) && NoLineEndIn(data, p, e)
    ensures if c.q.nread + (e - p) <= MAX_HEADER_SIZE
            then Tracks(q0, data, e, c.(q := r.(nread := c.q.nread + (e - p)))) && r.state.HeaderValue?
            else Run(q0, data).status.Failed?
  {
    CursorFacts(q0, data, p, c);
    hide Run, Inv, SingleMark, View, ValueFold, Tracks;
    NoLineEndSlice(data, p, e);
    hide NoLineEndIn, NoLineEnd;
    RunValueChars(c.q, data[p..e]);
    ValueFoldShape(c.q, data[p..e]);
    if c.q.nread + (e - p) <= MAX_HEADER_SIZE {
      StretchTracks(q0, data, p, c, e, r.(nread := c.q.nread + (e - p)), ValueData);
    } else {
      FailsHere(q0, data, p, c, e);
    }
  }

  lemma ValueStretch(q0: Parser, data: seq<byte>, p: nat, c: Cursor, r: Parser, e: nat)
    requires Tracks(q0, data, p, c) && c.q.state.HeaderValue? && p <= |data| && Scanned(c.q, data, p, e, r)
    ensures if c.q.nread + (e - p) <= MAX_HEADER_SIZE
            then Tracks(q0, data, e, c.(q := r.(nread := c.q.nread + (e - p)))) && r.state.HeaderValue?
            else Run(q0, data).status.Failed?
  {
    hide Run, Tracks, ValueFold, Inv;
    CursorFacts(q0, data, p, c);
    if ValueFold(c.q, data[p..e]) == Out(r, [], Running) && NoLineEndIn(data, p, e) {
      ExactStretch(q0, data, p, c, r, e);
    } else {
      assert data[p..] == data[p..|data|];
      FailsHere(q0, data, p, c, |data|);
    }
  }

  /** What `s_header_value` leaves behind at the line end of a value. */
  function ValueEnded(c: Cursor, data: seq<byte>, p: nat, ch: byte): Cursor {
    Cursor(c.q.(nread := c.q.nread + 1, state := if ch == CR then HeaderAlmostDone else HeaderValueLws),
           c.marks.(value := -1), c.log + [DataCallback(ValueData, Held(c, ValueData, data, p))])
  }

  lemma ValueEndTracks(q0: Parser, data: seq<byte>, p: nat, c: Cursor)
    requires Tracks(q0, data, p, c) && p < |data| && c.q.state.HeaderValue? && LineEnd(data[p])
    requires c.q.nread + 1 <= MAX_HEADER_SIZE
    ensures Tracks(q0, data, p + 1, ValueEnded(c, data, p, data[p]))
  {
    hide Run, Inv, View, Tracks;
    SwitchTracks(q0, data, p, c, c.q.(nread := c.q.nread + 1));
    MarkOf(q0, data, p, c, ValueData);
    ApplyOneEmit(ValueData, c.marks, c.log, data, p);
    assert [Emit(ValueData)] + [] == [Emit(ValueData)];
  }

  /** `s_header_value` from the byte at `p`, to the end of the value or of the buffer. */
  method ValueBulk(ghost q0: Parser, data: seq<byte>, p: nat, c: Cursor) returns (c': Cursor, e: nat, status: Status)
    requires Tracks(q0, data, p, c) && p < |data| && c.q.state.HeaderValue? && BufferFits(data)
    ensures Advanced(q0, data, p, c', e, status)
  {
    hide Run, Tracks, Advanced, Scanned, Inv, Count, ValueFold;
    CursorFacts(q0, data, p, c);
    status := Failed;
    var nread := c.q.nread + 1;
    if nread > MAX_HEADER_SIZE {
      OverflowAt(q0, data, p, c);
      AdvancedFailed(q0, data, p, c, p, HeaderOverflow);
      return Failing(c, HeaderOverflow), p, Failed;
    }
    var q, pos, bad := ScanValue(c.q, data, p);
    if bad {
      assert data[p..] == data[p..|data|];
      FailsHere(q0, data, p, c, |data|);
      AdvancedFailed(q0, data, p, c, pos, InvalidHeaderToken);
      return Failing(c, InvalidHeaderToken), pos, Failed;
    }
    ValueStretch(q0, data, p, c, q, pos);
    var last := if pos == |data| then pos - 1 else pos;
    var log, marks := c.log, c.marks;
    if pos < |data| && data[pos] == CR {
      // the callback runs before the characters are counted
      marks, log := marks.(value := -1), log + [DataCallback(ValueData, Held(c, ValueData, data, pos))];
    }
    CountSmall(nread, last - p, data);
    nread := Count(nread, last - p);
    e := pos;
    c' := Cursor(q.(nread := nread), marks, log);
    if nread > MAX_HEADER_SIZE {
      if c.q.nread + (pos - p) <= MAX_HEADER_SIZE {
        OverflowAt(q0, data, pos, c.(q := q.(nread := c.q.nread + (pos - p))));
      }
      AdvancedFailed(q0, data, p, c', pos, HeaderOverflow);
      c' := Failing(c', HeaderOverflow);
    } else if pos == |data| {
      AdvancedRunning(q0, data, p, c', pos);
      status := Running;
    } else {
      ValueEndTracks(q0, data, pos, c.(q := q.(nread := c.q.nread + (pos - p))));
      if data[pos] == CR {
        c' := c'.(q := c'.q.(state := HeaderAlmostDone));
      } else {
        // the line feed also serves `s_header_almost_done`
        c' := Cursor(c'.q.(state := HeaderValueLws), marks.(value := -1),
                     log + [DataCallback(ValueData, Held(c, ValueData, data, pos))]);
      }
      e, status := pos + 1, Running;
      AdvancedRunning(q0, data, p, c', e);
    }
  }
}
