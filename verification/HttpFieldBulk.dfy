/** The bulk loop over header names in `s_header_field`. */
module HttpFieldBulk {
  import opened HttpGrammar
  import opened HttpStep
  import opened HttpInvariant
  import opened HttpMarks
  import opened HttpTracking

  predicate AllTokens(s: seq<byte>) { forall i :: 0 <= i < |s| ==> Token(s[i]) != 0 }

  /** The header-name matcher over a stretch of token characters, without counting. */
  function FieldFold(q: Parser, s: seq<byte>): Parser {
    if s == [] then q else FieldAdvance(FieldFold(q, s[..|s| - 1]), s[|s| - 1])
  }

  lemma {:induction false} FieldFoldShape(q: Parser, s: seq<byte>)
    ensures FieldFold(q, s) == q.(hstate := FieldFold(q, s).hstate, index := FieldFold(q, s).index)
  {
    hide FieldHeaderState;
    if s != [] { FieldFoldShape(q, s[..|s| - 1]); }
  }

  /** In the general state the matcher ignores further token characters. */
  lemma {:induction false} FieldFoldGeneral(q: Parser, s: seq<byte>)
    requires q.hstate.General?
    ensures FieldFold(q, s) == q
  {
    if s != [] { FieldFoldGeneral(q, s[..|s| - 1]); }
  }

  lemma {:induction false} FieldFoldConcat(q: Parser, s: seq<byte>, t: seq<byte>)
    ensures FieldFold(q, s + t) == FieldFold(FieldFold(q, s), t)
    decreases |t|
  {
    hide FieldAdvance;
    if t == [] { assert s + t == s; }
    else {
      assert (s + t)[..|s + t| - 1] == s + t[..|t| - 1];
      FieldFoldConcat(q, s, t[..|t| - 1]);
    }
  }

  /** The reference on a stretch of token characters: it follows the matcher while the header limit lasts. */
  lemma {:induction false} RunFieldTokens(q: Parser, s: seq<byte>)
    requires Inv(q) && q.state.HeaderField? && AllTokens(s)
    ensures var r := Run(q, s);
      if q.nread + |s| <= MAX_HEADER_SIZE
      then r == RunState(FieldFold(q, s).(nread := q.nread + |s|), DataEvents(FieldData, s), Running, |s|)
      else r.status.Failed?
  {
    hide Step, Inv;
    if s != [] {
      var t, ch := s[..|s| - 1], s[|s| - 1];
      RunFieldTokens(q, t);
      if q.nread + |t| <= MAX_HEADER_SIZE {
        FieldFoldShape(q, t);
        var r := Run(q, t);
        assert s == t + [ch];
        DataEventsSplit(FieldData, t, [ch]);
        FieldByteStep(r.q, ch);
      }
    } else {
      assert DataEvents(FieldData, s) == [];
      RangesOfInv(q);
    }
  }

  lemma FieldByteStep(q: Parser, ch: byte)
    requires q.state.HeaderField? && Token(ch) != 0
    ensures var r := Step(q, ch);
      if q.nread + 1 <= MAX_HEADER_SIZE
      then r == RunState(FieldAdvance(q, ch).(nread := q.nread + 1), DataEvents(FieldData, [ch]), Running, 1)
      else r.status.Failed?
  {
    EventsAre([], Opened(FieldData), ch);
    assert [] + DataEvents(FieldData, [ch]) == DataEvents(FieldData, [ch]);
  }

  lemma FieldFoldExtend(q: Parser, data: seq<byte>, start: nat, from: nat, e: nat)
    requires start <= from <= e <= |data|
    ensures FieldFold(q, data[start..e]) == FieldFold(FieldFold(q, data[start..from]), data[from..e])
  {
    assert data[start..e] == data[start..from] + data[from..e];
    FieldFoldConcat(q, data[start..from], data[from..e]);
  }

  lemma FieldFoldOne(q: Parser, ch: byte)
    ensures FieldFold(q, [ch]) == FieldAdvance(q, ch)
  {
    assert [ch][..0] == [];
  }

  lemma FieldFoldEmpty(q: Parser, data: seq<byte>, start: nat)
    requires start <= |data|
    ensures FieldFold(q, data[start..start]) == q && TokensIn(data, start, start)
  {
  }

  lemma TokensJoin(data: seq<byte>, a: nat, b: nat, c: nat)
    requires a <= b <= c <= |data| && TokensIn(data, a, b)
    requires (TokensIn(data, b, c) || (c == b + 1 && Token(data[b]) != 0))
    ensures TokensIn(data, a, c)
  {
  }

  predicate TokensIn(data: seq<byte>, a: nat, b: nat)
    requires a <= b <= |data|
  {
    forall i :: a <= i < b ==> Token(data[i]) != 0
  }

  /** The fast loop of the general state: stops on the last token character of the stretch. */
  method SkipTokens(data: seq<byte>, p: nat) returns (e: nat)
    requires p < |data| && Token(data[p]) != 0
    ensures p <= e < |data| && TokensIn(data, p, e + 1)
  {
    hide Token;
    var pe := p + if |data| - p < MAX_HEADER_SIZE then |data| - p else MAX_HEADER_SIZE;
    e := p;
    while e + 1 < pe && Token(data[e + 1]) != 0
      invariant p <= e < |data| && TokensIn(data, p, e + 1)
    {
      e := e + 1;
    }
  }

  lemma FieldFoldStep(q: Parser, data: seq<byte>, start: nat, from: nat, e: nat)
    requires start <= from < e <= |data|
    ensures var r := FieldFold(q, data[start..from]);
      FieldFold(q, data[start..e]) ==
        if r.hstate.General? then r
        else if e == from + 1 then FieldAdvance(r, data[from]) else FieldFold(r, data[from..e])
  {
    var r := FieldFold(q, data[start..from]);
    FieldFoldExtend(q, data, start, from, e);
    if r.hstate.General? { FieldFoldGeneral(r, data[from..e]); }
    else if e == from + 1 { assert data[from..e] == [data[from]]; FieldFoldOne(r, data[from]); }
  }

  /** The name scan of `s_header_field`. */
  method ScanField(q: Parser, data: seq<byte>, start: nat) returns (r: Parser, p: nat)
    requires start <= |data|
    ensures start <= p <= |data| && TokensIn(data, start, p) && r == FieldFold(q, data[start..p])
    ensures p < |data| ==> Token(data[p]) == 0
  {
    hide *;
    FieldFoldEmpty(q, data, start);
    p, r := start, q;
    while p < |data| && Token(data[p]) != 0
      invariant start <= p <= |data| && TokensIn(data, start, p) && r == FieldFold(q, data[start..p])
    {
      var last := p;
      if r.hstate.General? {
        last := SkipTokens(data, p);
        FieldFoldStep(q, data, start, p, last + 1);
      } else {
        r := FieldAdvance(r, data[p]);
        FieldFoldStep(q, data, start, p, p + 1);
      }
      TokensJoin(data, start, p, last + 1);
      p := last + 1;
    }
  }

  lemma FieldStretch(q0: Parser, data: seq<byte>, p: nat, c: Cursor, e: nat)
    requires Tracks(q0, data, p, c) && p <= e <= |data| && c.q.state.HeaderField? && TokensIn(data, p, e)
    ensures if c.q.nread + (e - p) <= MAX_HEADER_SIZE
            then Tracks(q0, data, e, c.(q := FieldFold(c.q, data[p..e]).(nread := c.q.nread + (e - p))))
            else Run(q0, data).status.Failed?
  {
    assert AllTokens(data[p..e]);
    hide Run, Inv, SingleMark, View, AllTokens;
    RunFieldTokens(c.q, data[p..e]);
    if c.q.nread + (e - p) <= MAX_HEADER_SIZE {
      FieldFoldShape(c.q, data[p..e]);
      StretchTracks(q0, data, p, c, e, FieldFold(c.q, data[p..e]).(nread := c.q.nread + (e - p)), FieldData);
    } else {
      FailsHere(q0, data, p, c, e);
    }
  }

  /** What `s_header_field` leaves behind at the colon that ends a name. */
  function FieldEnded(c: Cursor, data: seq<byte>, p: nat): Cursor {
    Cursor(c.q.(nread := c.q.nread + 1, state := HeaderValueDiscardWs), c.marks.(field := -1),
           c.log + [DataCallback(FieldData, Held(c, FieldData, data, p))])
  }

  lemma FieldEndTracks(q0: Parser, data: seq<byte>, p: nat, c: Cursor)
    requires Tracks(q0, data, p, c) && p < |data| && c.q.state.HeaderField? && Token(data[p]) == 0
    requires c.q.nread + 1 <= MAX_HEADER_SIZE
    ensures if data[p]
         == ':' as int then Tracks(q0, data, p + 1, FieldEnded(c, data, p)) else Run(q0, data).status.Failed?
  {
    hide Run, Inv, View, Token, Tracks;
    SwitchTracks(q0, data, p, c, c.q.(nread := c.q.nread + 1));
    MarkOf(q0, data, p, c, FieldData);
    if data[p] == ':' as int {
      ApplyOneEmit(FieldData, c.marks, c.log, data, p);
    }
  }

  /** `s_header_field` from the byte at `p`, to the end of the name or of the buffer. */
  method FieldBulk(ghost q0: Parser, data: seq<byte>, p: nat, c: Cursor) returns (c': Cursor, e: nat, status: Status)
    requires Tracks(q0, data, p, c) && p < |data| && c.q.state.HeaderField? && BufferFits(data)
    ensures Advanced(q0, data, p, c', e, status)
  {
    hide Run, Tracks, Advanced, FieldFold, FieldAdvance, Token, TokensIn, Inv, Count;
    CursorFacts(q0, data, p, c);
    status := Failed;
    var nread := c.q.nread + 1;
    if nread > MAX_HEADER_SIZE {
      OverflowAt(q0, data, p, c);
      AdvancedFailed(q0, data, p, c, p, HeaderOverflow);
      return Failing(c, HeaderOverflow), p, Failed;
    }
    var q, pos := ScanField(c.q, data, p);
    FieldStretch(q0, data, p, c, pos);
    FieldFoldShape(c.q, data[p..pos]);
    var last := if pos == |data| then pos - 1 else pos;
    CountSmall(nread, last - p, data);
    nread := Count(nread, last - p);
    c' := c.(q := q.(nread := nread));
    e := pos;
    if nread > MAX_HEADER_SIZE {
      if c.q.nread + (pos - p) <= MAX_HEADER_SIZE {
        OverflowAt(q0, data, pos, c.(q := q.(nread := c.q.nread + (pos - p))));
      }
      AdvancedFailed(q0, data, p, c', pos, HeaderOverflow);
      c' := Failing(c', HeaderOverflow);
    } else if pos == |data| {
      AdvancedRunning(q0, data, p, c', pos);
      status := Running;
    } else {
      FieldEndTracks(q0, data, pos, c.(q := q.(nread := c.q.nread + (pos - p))));
      if data[pos] == ':' as int {
        c' := Cursor(c'.q.(state := HeaderValueDiscardWs), c.marks.(field := -1),
                     c.log + [DataCallback(FieldData, Held(c, FieldData, data, pos))]);
        e, status := pos + 1, Running;
        AdvancedRunning(q0, data, p, c', e);
      } else {
        AdvancedFailed(q0, data, p, c', pos, InvalidHeaderToken);
        c' := Failing(c', InvalidHeaderToken);
      }
    }
  }
}
