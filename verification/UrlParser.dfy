/** `http_parser_parse_url` and `http_parse_host` as the loops they are, filling in offsets and lengths. */
module UrlParser {
  import opened Options
  import opened HttpGrammar
  import opened UrlGrammar
  import opened Uris
  import HttpStep

  /** `field_data[uf]`, and whether its `field_set` bit is on. */
  datatype Span = Span(set_: bool, off: nat, len: nat) {
    function End(): nat { off + len }
  }

  const UNSET := Span(false, 0, 0)

  /** `http_parser_url`. */
  datatype Fields = Fields(schema: Span, host: Span, port: Span, path: Span, query: Span, fragment: Span,
                           userinfo: Span, portValue: int)

  /** The span is set exactly when the text is there, and then it is that text. */
  ghost predicate Holds(buf: Text, f: Span, t: Text) {
    if t == [] then !f.set_ else f.set_ && f.End() <= |buf| && buf[f.off..f.End()] == t
  }

  /** `a` lies before `b`, if both are set. */
  predicate Before(a: Span, b: Span) { a.set_ && b.set_ ==> a.End() <= b.off }

  /** The fields stand in the URL's order and do not overlap. */
  predicate Ordered(f: Fields) {
    && Before(f.schema, f.userinfo) && Before(f.schema, f.host) && Before(f.userinfo, f.host) && Before(f.host, f.port)
    && Before(f.host, f.path) && Before(f.port, f.path) && Before(f.schema, f.path)
    && Before(f.path, f.query) && Before(f.host, f.query) && Before(f.port, f.query) && Before(f.schema, f.query)
    && Before(f.query, f.fragment) && Before(f.path, f.fragment) && Before(f.host, f.fragment)
    && Before(f.port, f.fragment)
    && Before(f.schema, f.fragment)
  }

  /** One more character at `p`: extend the current field, or begin a new one. */
  function Extend(f: Span, same: bool, p: nat): Span { if same then f.(len := f.len + 1) else Span(true, p, 1) }

  datatype Uf = UF_SCHEMA | UF_HOST | UF_PATH | UF_QUERY | UF_FRAGMENT | UF_MAX

  function FieldOf(s: State): Uf {
    match s
    case ReqSchema => UF_SCHEMA case ReqServer => UF_HOST case ReqServerWithAt => UF_HOST
    case ReqPath => UF_PATH case ReqQueryString => UF_QUERY case ReqFragment => UF_FRAGMENT case _ => UF_MAX
  }

  function Get(f: Fields, uf: Uf): Span {
    match uf
    case UF_SCHEMA => f.schema case UF_HOST => f.host case UF_PATH => f.path
    case UF_QUERY => f.query case UF_FRAGMENT => f.fragment case UF_MAX => UNSET
  }

  function Put(f: Fields, uf: Uf, s: Span): Fields {
    match uf
    case UF_SCHEMA => f.(schema := s) case UF_HOST => f.(host := s) case UF_PATH => f.(path := s)
    case UF_QUERY => f.(query := s) case UF_FRAGMENT => f.(fragment := s) case UF_MAX => f
  }

  function Part(u: Url, uf: Uf): Text {
    match uf
    case UF_SCHEMA => u.schema case UF_HOST => u.server case UF_PATH => u.path
    case UF_QUERY => u.query case UF_FRAGMENT => u.fragment case UF_MAX => []
  }

  function Rank(uf: Uf): nat {
    match uf
    case UF_SCHEMA => 0 case UF_HOST => 1 case UF_PATH => 2 case UF_QUERY => 3 case UF_FRAGMENT => 4 case UF_MAX => 5
  }

  /** Field `uf` holds its part, before `i`. */
  ghost predicate FieldOk(buf: Text, i: nat, u: Url, f: Fields, uf: Uf) {
    Holds(buf, Get(f, uf), Part(u, uf)) && (Part(u, uf) != [] ==> Get(f, uf).End() <= i && Get(f, uf).len >= 1)
  }

  /** Where the loop stands after `i` characters: every field holds its part, in order, before `i`; the field being
      read, if any, ends at `i` and is the last one begun. */
  ghost predicate Tracks(buf: Text, i: nat, u: Url, f: Fields, old_uf: Uf) {
    && i <= |buf|
    && (forall uf: Uf :: FieldOk(buf, i, u, f, uf))
    && (forall a: Uf, b: Uf :: Rank(a) < Rank(b) ==> Before(Get(f, a), Get(f, b)))
    && (forall uf: Uf :: Part(u, uf) != [] ==> !old_uf.UF_MAX? && Rank(uf) <= Rank(old_uf))
    && (!old_uf.UF_MAX? ==> Part(u, old_uf) != [])
    && (!FieldOf(u.state).UF_MAX? ==> old_uf == FieldOf(u.state) && Get(f, old_uf).End() == i)
  }

  lemma StepAdds(u: Url, ch: byte, uf: Uf)
    requires Step(u, ch).Some?
    ensures var u' := Step(u, ch).value; var now := FieldOf(u'.state);
      Part(u', uf) == if uf == now && !now.UF_MAX? then Part(u, uf) + [ch] else Part(u, uf)
  {
    hide HttpStep.ParseUrlChar;
  }

  lemma StepBegins(u: Url, ch: byte, uf: Uf)
    requires Layout(u) && Step(u, ch).Some?
    ensures var now := FieldOf(Step(u, ch).value.state);
      && (FieldOf(u.state) == now || Part(u, now) == [])
      && (!now.UF_MAX? && Rank(uf) > Rank(now) ==> Part(u, uf) == [])
  {
    hide IsAlpha, IsUserinfoChar, IsUrlChar;
  }

  /** A character is added to one part; a part that begins was empty, and so are all later ones. */
  lemma StepParts(u: Url, ch: byte, uf: Uf)
    requires Layout(u) && Step(u, ch).Some?
    ensures var u' := Step(u, ch).value; var now := FieldOf(u'.state);
      && Part(u', uf) == (if uf == now && !now.UF_MAX? then Part(u, uf) + [ch] else Part(u, uf))
      && (FieldOf(u.state) == now || Part(u, now) == [])
      && (!now.UF_MAX? && Rank(uf) > Rank(now) ==> Part(u, uf) == [])
  {
    hide Step, Layout;
    StepAdds(u, ch, uf);
    StepBegins(u, ch, uf);
  }

  lemma TracksDelimiter(buf: Text, i: nat, u: Url, f: Fields, old_uf: Uf)
    requires i < |buf| && Tracks(buf, i, u, f, old_uf) && Layout(u) && Step(u, buf[i]).Some?
    requires FieldOf(Step(u, buf[i]).value.state).UF_MAX?
    ensures Tracks(buf, i + 1, Step(u, buf[i]).value, f, old_uf)
  {
    hide Step, Layout, Get, Holds, Before;
    var u' := Step(u, buf[i]).value;
    forall uf: Uf ensures Part(u', uf) == Part(u, uf) && FieldOk(buf, i + 1, u', f, uf) {
      StepParts(u, buf[i], uf);
      assert FieldOk(buf, i, u, f, uf);
    }
  }

  lemma ExtendHolds(buf: Text, i: nat, s: Span, t: Text, same: bool)
    requires i < |buf| && Holds(buf, s, t) && (same ==> t != [] && s.End() == i) && (!same ==> t == [])
    ensures var s' := Extend(s, same, i); s'.set_ && s'.End() == i + 1 && Holds(buf, s', t + [buf[i]])
  {
    if same { assert buf[s.off..i + 1] == buf[s.off..i] + [buf[i]]; } else { assert buf[i..i + 1] == [buf[i]]; }
  }

  lemma GetPut(f: Fields, uf: Uf, s: Span, other: Uf)
    requires !uf.UF_MAX?
    ensures Get(Put(f, uf, s), other) == if other == uf then s else Get(f, other)
  {
  }

  lemma UnsetBefore(buf: Text, i: nat, u: Url, f: Fields, uf: Uf)
    requires FieldOk(buf, i, u, f, uf)
    ensures Get(f, uf).set_ ==> Part(u, uf) != [] && Get(f, uf).End() <= i
    ensures Holds(buf, Get(f, uf), Part(u, uf))
  {
  }

  lemma TracksField(buf: Text, i: nat, u: Url, f: Fields, old_uf: Uf)
    requires i < |buf| && Tracks(buf, i, u, f, old_uf) && Layout(u) && Step(u, buf[i]).Some?
    requires !FieldOf(Step(u, buf[i]).value.state).UF_MAX?
    ensures var u' := Step(u, buf[i]).value; var uf := FieldOf(u'.state);
      Tracks(buf, i + 1, u', Put(f, uf, Extend(Get(f, uf), uf == old_uf, i)), uf)
  {
    hide Step, Layout, Get, Put, Holds, Extend;
    var u' := Step(u, buf[i]).value;
    var uf := FieldOf(u'.state);
    var s := Extend(Get(f, uf), uf == old_uf, i);
    var f' := Put(f, uf, s);
    StepParts(u, buf[i], uf);
    StepParts(u, buf[i], old_uf);
    assert FieldOk(buf, i, u, f, uf);
    ExtendHolds(buf, i, Get(f, uf), Part(u, uf), uf == old_uf);
    ExtendLength(Get(f, uf), uf == old_uf, i);
    forall x: Uf ensures FieldOk(buf, i + 1, u', f', x) && (Part(u', x) != [] ==> Rank(x) <= Rank(uf)) {
      StepParts(u, buf[i], x);
      GetPut(f, uf, s, x);
      assert FieldOk(buf, i, u, f, x);
    }
    forall a: Uf, b: Uf | Rank(a) < Rank(b) ensures Before(Get(f', a), Get(f', b)) {
      GetPut(f, uf, s, a);
      GetPut(f, uf, s, b);
      UnsetBefore(buf, i, u, f, a);
      UnsetBefore(buf, i, u, f, b);
      StepParts(u, buf[i], b);
      assert Before(Get(f, a), Get(f, b));
      if b == uf { ExtendOff(Get(f, uf), uf == old_uf, i); }
    }
    GetPut(f, uf, s, uf);
  }

  lemma ExtendLength(s: Span, same: bool, i: nat)
    ensures Extend(s, same, i).len >= 1
  {
  }

  lemma ExtendOff(s: Span, same: bool, i: nat)
    ensures Extend(s, same, i).off == if same then s.off else i
    ensures same ==> Extend(s, same, i).set_ == s.set_
  {
  }

  // ---------- the host ----------

  /** `userinfo`, `host` and `port` while the loop of `http_parse_host` stands at `p`, having begun at `o`. */
  datatype HostFields = HostFields(userinfo: Span, host: Span, port: Span)

  /** One turn of the loop, for a character that moves `s` to `t`. */
  function HostTurn(f: HostFields, s: HostState, t: HostState, p: nat): HostFields {
    match t
    case Host => f.(host := Longer(f.host, s.Host?, p))
    case V6 => f.(host := Longer(f.host, s.V6?, p))
    case V6ZoneStart => f.(host := f.host.(len := f.host.len + 1))
    case V6Zone => f.(host := f.host.(len := f.host.len + 1))
    case Port => f.(port := Extend(f.port, s.Port?, p))
    case Userinfo => f.(userinfo := Extend(f.userinfo, s.Userinfo?, p))
    case _ => f
  }

  /** The host's offset is set when it begins; its length counts from 0. */
  function Longer(f: Span, same: bool, p: nat): Span { Span(true, if same then f.off else p, f.len + 1) }

  /** The text, if any, is between `o` and `p`, and up to `p` itself while it is being read. */
  ghost predicate Between(buf: Text, o: nat, p: nat, f: Span, t: Text, reading: bool) {
    && |t| == (if f.set_ then f.len else 0)
    && (t != [] ==> o <= f.off && f.End() <= p <= |buf| && buf[f.off..f.End()] == t)
    && (reading ==> t != [] && f.End() == p)
  }

  predicate ReadingHost(s: HostState) { s.Host? || s.V6? || s.V6ZoneStart? || s.V6Zone? }

  ghost predicate HostTracks(buf: Text, o: nat, p: nat, h: HostParts, f: HostFields) {
    && o <= p <= |buf| && f.host.set_ && (f.userinfo.set_ <==> h.userinfo != []) && (f.port.set_ <==> h.port != [])
    && Between(buf, o, p, f.userinfo, h.userinfo, h.state.Userinfo?)
    && Between(buf, o, p, f.host, h.host, ReadingHost(h.state))
    && Between(buf, o, p, f.port, h.port, h.state.Port?)
    && (h.host != [] && f.userinfo.set_ ==> f.userinfo.End() <= f.host.off)
    && (f.port.set_ ==> h.host != [] && f.host.End() <= f.port.off)
  }

  lemma BetweenExtend(buf: Text, o: nat, p: nat, f: Span, t: Text, same: bool)
    requires p < |buf| && o <= p && Between(buf, o, p, f, t, same) && (!same ==> t == [])
    ensures Between(buf, o, p + 1, Extend(f, same, p), t + [buf[p]], true)
    ensures f.set_ ==> Between(buf, o, p + 1, Span(true, if same then f.off else p, f.len + 1), t + [buf[p]], true)
  {
    if same { assert buf[f.off..p + 1] == buf[f.off..p] + [buf[p]]; } else { assert buf[p..p + 1] == [buf[p]]; }
  }

  lemma BetweenLater(buf: Text, o: nat, p: nat, f: Span, t: Text, reading: bool)
    requires Between(buf, o, p, f, t, reading) && p < |buf|
    ensures Between(buf, o, p + 1, f, t, false)
  {
  }

  /** Which state may follow which: the host's characters are contiguous, and each part begins once. */
  lemma HostMoves(h: HostParts, v6: bool, ch: byte)
    requires HostInv(h, v6)
    ensures var t := HostChar(h.state, ch);
      && (t.Host? ==> h.state.Host? || h.host == []) && (t.V6? ==> h.state.V6? || h.host == [])
      && (t.V6ZoneStart? || t.V6Zone? ==> ReadingHost(h.state))
      && (t.Port? ==> (h.state.Port? || h.port == []) && h.host != [])
      && (t.Userinfo? ==> (h.state.Userinfo? || h.userinfo == []) && h.host == [] && h.port == [])
      && (ReadingHost(t) ==> h.port == [])
      && (ReadingHost(h.state) ==> h.host != []) && (h.state.Port? ==> h.port != [])
      && (h.state.Userinfo? ==> h.userinfo != [])
  {
    hide IsUserinfoChar, IsHostChar, IsNum, IsHex, IsAlphaNum, All;
  }

  lemma HostTracksStep(buf: Text, o: nat, p: nat, h: HostParts, v6: bool, f: HostFields)
    requires p < |buf| && HostTracks(buf, o, p, h, f) && HostInv(h, v6) && HostStep(h, buf[p]).Some?
    ensures HostTracks(buf, o, p + 1, HostStep(h, buf[p]).value, HostTurn(f, h.state, HostChar(h.state, buf[p]), p))
  {
    hide Between, HostInv, HostChar;
    var t := HostChar(h.state, buf[p]);
    HostMoves(h, v6, buf[p]);
    BetweenLater(buf, o, p, f.userinfo, h.userinfo, h.state.Userinfo?);
    BetweenLater(buf, o, p, f.host, h.host, ReadingHost(h.state));
    BetweenLater(buf, o, p, f.port, h.port, h.state.Port?);
    BetweenFacts(buf, o, p, f.userinfo, h.userinfo, h.state.Userinfo?);
    BetweenFacts(buf, o, p, f.host, h.host, ReadingHost(h.state));
    BetweenFacts(buf, o, p, f.port, h.port, h.state.Port?);
    match t
    case Host =>
      NotReading(buf, o, p, f.host, h.host, ReadingHost(h.state), h.state.Host?);
      BetweenExtend(buf, o, p, f.host, h.host, h.state.Host?);
    case V6 =>
      NotReading(buf, o, p, f.host, h.host, ReadingHost(h.state), h.state.V6?);
      BetweenExtend(buf, o, p, f.host, h.host, h.state.V6?);
    case V6ZoneStart => BetweenExtend(buf, o, p, f.host, h.host, true);
    case V6Zone => BetweenExtend(buf, o, p, f.host, h.host, true);
    case Port => BetweenExtend(buf, o, p, f.port, h.port, h.state.Port?);
    case Userinfo => BetweenExtend(buf, o, p, f.userinfo, h.userinfo, h.state.Userinfo?);
    case _ =>
  }

  lemma NotReading(buf: Text, o: nat, p: nat, f: Span, t: Text, reading: bool, same: bool)
    requires Between(buf, o, p, f, t, reading) && (same ==> reading)
    ensures Between(buf, o, p, f, t, same)
  {
  }

  lemma BetweenFacts(buf: Text, o: nat, p: nat, f: Span, t: Text, reading: bool)
    requires Between(buf, o, p, f, t, reading)
    ensures f.set_ ==> f.len == |t| && (t != [] ==> o <= f.off && f.End() <= p)
    ensures !f.set_ ==> t == []
  {
  }

  // ---------- the loops ----------

  method ParseHost(buf: Text, o: nat, e: nat, foundAt: bool) returns (ok: bool, f: HostFields)
    requires o <= e <= |buf| < 0x10000
    ensures var w := HostWalk(HostBegin(foundAt), buf[o..e]);
      && ok == (w.Some? && HostDone(w.value.state)) && (ok ==> HostTracks(buf, o, e, w.value, f))
  {
    hide HostStep, HostInv, HostTracks, HostTurn;
    f := HostFields(UNSET, Span(true, o, 0), UNSET);
    var s := if foundAt then UserinfoStart else HostStart;
    ghost var v6 := false;
    ghost var h := HostBegin(foundAt);
    HostBegins(buf, o, foundAt);
    var p := o;
    assert buf[o..o] == [];
    while p < e
      invariant o <= p <= e && s == h.state && HostWalk(HostBegin(foundAt), buf[o..p]) == Some(h)
      invariant HostInv(h, v6) && HostTracks(buf, o, p, h, f)
    {
      HostWalkSplit(foundAt, buf, o, p, e, h);
      HostStates(h, buf[p]);
      var new_s := HostChar(s, buf[p]);
      if new_s.HostDead? { return false, f; }
      HostStepInv(h, v6, buf[p]);
      HostTracksStep(buf, o, p, h, v6, f);
      f := HostTurn(f, s, new_s, p);
      h, v6 := HostStep(h, buf[p]).value, v6 || buf[p] == '[' as int;
      s := new_s;
      p := p + 1;
    }
    ok := HostDone(s);
  }

  lemma HostBegins(buf: Text, o: nat, foundAt: bool)
    requires o <= |buf|
    ensures HostInv(HostBegin(foundAt), false)
    ensures HostTracks(buf, o, o, HostBegin(foundAt), HostFields(UNSET, Span(true, o, 0), UNSET))
  {
  }

  lemma HostStates(h: HostParts, ch: byte)
    ensures HostStep(h, ch).None? <==> HostChar(h.state, ch).HostDead?
    ensures HostStep(h, ch).Some? ==> HostStep(h, ch).value.state == HostChar(h.state, ch)
  {
  }

  lemma HostWalkSplit(foundAt: bool, buf: Text, o: nat, p: nat, e: nat, h: HostParts)
    requires o <= p < e <= |buf| && HostWalk(HostBegin(foundAt), buf[o..p]) == Some(h)
    ensures HostWalk(HostBegin(foundAt), buf[o..p + 1]) == HostStep(h, buf[p])
    ensures HostStep(h, buf[p]).None? ==> HostWalk(HostBegin(foundAt), buf[o..e]).None?
  {
    hide HostStep;
    assert buf[o..p + 1] == buf[o..p] + [buf[p]];
    HostWalkAppend(HostBegin(foundAt), buf[o..p], [buf[p]]);
    HostCons(h, buf[p], []);
    assert [buf[p]] + [] == [buf[p]];
    assert buf[o..e] == buf[o..p + 1] + buf[p + 1..e];
    HostWalkAppend(HostBegin(foundAt), buf[o..p + 1], buf[p + 1..e]);
  }

  lemma WalkSplit(start: Url, buf: Text, p: nat, u: Url)
    requires p < |buf| && Walk(start, buf[..p]) == Some(u)
    ensures Walk(start, buf[..p + 1]) == Step(u, buf[p])
    ensures Step(u, buf[p]).None? ==> Walk(start, buf).None?
  {
    hide Step;
    assert buf[..p + 1] == buf[..p] + [buf[p]];
    WalkAppend(start, buf[..p], [buf[p]]);
    WalkOne(u, buf[p]);
    assert buf == buf[..p + 1] + buf[p + 1..];
    WalkAppend(start, buf[..p + 1], buf[p + 1..]);
  }

  const NO_FIELDS := Fields(UNSET, UNSET, UNSET, UNSET, UNSET, UNSET, UNSET, 0)

  lemma TracksStart(buf: Text, isConnect: bool)
    ensures UrlInv(Start(isConnect)) && Tracks(buf, 0, Start(isConnect), NO_FIELDS, UF_MAX)
  {
  }

  lemma Visible(u: Url, ch: byte)
    ensures var s := HttpStep.ParseUrlChar(u.state, ch);
      && (Step(u, ch).None? <==> FieldOf(s).UF_MAX? && !Delimiter(s))
      && (Step(u, ch).Some? ==> Step(u, ch).value.state == s)
      && (Step(u, ch).Some? ==> Step(u, ch).value.foundAt == (u.foundAt || s.ReqServerWithAt?))
  {
    hide HttpStep.ParseUrlChar;
  }

  /** The first loop of `http_parser_parse_url`. */
  method Split(buf: Text, isConnect: bool) returns (ok: bool, f: Fields, foundAt: bool)
    requires |buf| < 0x10000
    ensures var w := Walk(Start(isConnect), buf);
      && ok == w.Some?
      && (ok ==> foundAt == w.value.foundAt && !f.port.set_ && !f.userinfo.set_ && f.portValue == 0
                 && exists old_uf :: Tracks(buf, |buf|, w.value, f, old_uf))
  {
    hide Step, UrlInv, Tracks, HttpStep.ParseUrlChar, Put, Extend;
    f := NO_FIELDS;
    foundAt := false;
    var s := if isConnect then ReqServerStart else ReqSpacesBeforeUrl;
    var old_uf := UF_MAX;
    ghost var u := Start(isConnect);
    TracksStart(buf, isConnect);
    assert buf[..0] == [];
    for p := 0 to |buf|
      invariant s == u.state && foundAt == u.foundAt && Walk(Start(isConnect), buf[..p]) == Some(u)
      invariant UrlInv(u) && Tracks(buf, p, u, f, old_uf) && !f.port.set_ && !f.userinfo.set_ && f.portValue == 0
    {
      WalkSplit(Start(isConnect), buf, p, u);
      Visible(u, buf[p]);
      s := HttpStep.ParseUrlChar(s, buf[p]);
      var uf := FieldOf(s);
      if uf.UF_MAX? && !Delimiter(s) { return false, f, foundAt; }
      StepInv(u, buf[p]);
      InvLayout(u);
      if Delimiter(s) {
        DelimiterField(s);
        TracksDelimiter(buf, p, u, f, old_uf);
        u := Step(u, buf[p]).value;
        continue;
      }
      if s.ReqServerWithAt? { foundAt := true; }
      TracksField(buf, p, u, f, old_uf);
      PutKeeps(f, uf, Extend(Get(f, uf), uf == old_uf, p));
      f := Put(f, uf, Extend(Get(f, uf), uf == old_uf, p));
      old_uf := uf;
      u := Step(u, buf[p]).value;
    }
    assert buf[..|buf|] == buf;
    ok := true;
  }

  lemma InvLayout(u: Url)
    requires UrlInv(u)
    ensures Layout(u)
  {
  }

  lemma DelimiterField(s: State)
    requires Delimiter(s)
    ensures FieldOf(s).UF_MAX? && !s.ReqServerWithAt?
  {
  }

  lemma PutKeeps(f: Fields, uf: Uf, s: Span)
    ensures Put(f, uf, s).port == f.port && Put(f, uf, s).userinfo == f.userinfo
    ensures Put(f, uf, s).portValue == f.portValue
  {
  }

  /** The fields of an accepted URL hold its parts, in bounds, in order and without overlap. */
  ghost predicate Describes(buf: Text, f: Fields, p: Parts) {
    && Holds(buf, f.schema, p.schema) && Holds(buf, f.userinfo, p.userinfo) && Holds(buf, f.host, p.host)
    && Holds(buf, f.port, p.port) && Holds(buf, f.path, p.path) && Holds(buf, f.query, p.query)
    && Holds(buf, f.fragment, p.fragment) && Ordered(f) && f.portValue == DigitsValue(p.port)
  }

  /** The loop over the port's digits. */
  method PortValue(t: Text) returns (ok: bool, v: int)
    ensures ok == !PortTooBig(t) && (ok ==> v == DigitsValue(t))
  {
    v := 0;
    assert t[..0] == [];
    for i := 0 to |t|
      invariant v == DigitsValue(t[..i]) && (forall k :: 0 <= k <= i ==> DigitsValue(t[..k]) <= 0xffff)
    {
      var d: int := t[i];
      assert t[..i + 1][..i] == t[..i];
      v := v * 10 + (d - 48);
      if v > 0xffff { return false, v; }
    }
    assert t[..|t|] == t;
    ok := true;
  }

  lemma OuterFields(buf: Text, u: Url, f: Fields, old_uf: Uf)
    requires Tracks(buf, |buf|, u, f, old_uf)
    ensures Holds(buf, f.schema, u.schema) && Holds(buf, f.host, u.server) && Holds(buf, f.path, u.path)
    ensures Holds(buf, f.query, u.query) && Holds(buf, f.fragment, u.fragment)
    ensures Before(f.schema, f.host) && Before(f.host, f.path) && Before(f.schema, f.path) && Before(f.path, f.query)
    ensures Before(f.host, f.query)
    ensures Before(f.schema, f.query) && Before(f.query, f.fragment) && Before(f.path, f.fragment)
    ensures Before(f.host, f.fragment) && Before(f.schema, f.fragment)
  {
    hide Holds, Before;
    var a, b, c, d, e := UF_SCHEMA, UF_HOST, UF_PATH, UF_QUERY, UF_FRAGMENT;
    assert FieldOk(buf, |buf|, u, f, a) && FieldOk(buf, |buf|, u, f, b) && FieldOk(buf, |buf|, u, f, c);
    assert FieldOk(buf, |buf|, u, f, d) && FieldOk(buf, |buf|, u, f, e);
    assert Before(Get(f, a), Get(f, b)) && Before(Get(f, b), Get(f, c)) && Before(Get(f, a), Get(f, c));
    assert Before(Get(f, c), Get(f, d)) && Before(Get(f, b), Get(f, d)) && Before(Get(f, a), Get(f, d));
    assert Before(Get(f, d), Get(f, e)) && Before(Get(f, c), Get(f, e))
        && Before(Get(f, b), Get(f, e)) && Before(Get(f, a), Get(f, e));
  }

  lemma InnerFields(buf: Text, f: Fields, h: HostParts, hf: HostFields)
    requires f.host.set_ && f.host.End() <= |buf| && HostTracks(buf, f.host.off, f.host.End(), h, hf) && h.host != []
    ensures Holds(buf, hf.userinfo, h.userinfo) && Holds(buf, hf.host, h.host) && Holds(buf, hf.port, h.port)
    ensures Before(hf.userinfo, hf.host) && Before(hf.host, hf.port)
    ensures forall x: Span :: Before(x, f.host) ==> Before(x, hf.userinfo) && Before(x, hf.host) && Before(x, hf.port)
    ensures forall x: Span :: Before(f.host, x) ==> Before(hf.host, x) && Before(hf.port, x)
  {
  }

  lemma HostFound(foundAt: bool, t: Text)
    requires HostWalk(HostBegin(foundAt), t).Some? && HostDone(HostWalk(HostBegin(foundAt), t).value.state)
    ensures HostWalk(HostBegin(foundAt), t).value.host != []
  {
    HostWalkInv(HostBegin(foundAt), false, t);
  }

  /** Accepts exactly the URLs of the grammar; the fields then describe their parts. */
  method ParseUrlFields(buf: Text, isConnect: bool) returns (r: Option<Fields>)
    requires |buf| < 0x10000
    ensures r.Some? <==> ParseUrl(buf, isConnect).Some?
    ensures r.Some? ==> Describes(buf, r.value, ParseUrl(buf, isConnect).value)
  {
    hide Walk, HostWalk, Tracks, HostTracks, UrlInv, Holds, Before, PortTooBig, DigitsValue, HostDone;
    if |buf| == 0 { return None; }
    var ok, f, foundAt := Split(buf, isConnect);
    if !ok { return None; }
    ghost var u := Walk(Start(isConnect), buf).value;
    ghost var old_uf :| Tracks(buf, |buf|, u, f, old_uf);
    OuterFields(buf, u, f, old_uf);
    HoldsSet(buf, f.schema, u.schema);
    HoldsSet(buf, f.host, u.server);
    if f.schema.set_ && !f.host.set_ { return None; }
    if !f.host.set_ {
      if isConnect { return None; }
      NoHost(buf, f, u);
      return Some(f);
    }
    var hf;
    ok, hf := ParseHost(buf, f.host.off, f.host.End(), foundAt);
    if !ok { return None; }
    ghost var h := HostWalk(HostBegin(foundAt), u.server).value;
    HostFound(foundAt, u.server);
    InnerFields(buf, f, h, hf);
    var g := f.(userinfo := hf.userinfo, host := hf.host, port := hf.port);
    ghost var p := Parts(u.schema, h.userinfo, h.host, h.port, u.path, u.query, u.fragment);
    AllSet(buf, g, p);
    if isConnect && !(g.host.set_ && g.port.set_ && !g.schema.set_ && !g.userinfo.set_ && !g.path.set_
       && !g.query.set_ && !g.fragment.set_) {
      return None;
    }
    var v := 0;
    if g.port.set_ {
      ok, v := PortValue(buf[g.port.off..g.port.End()]);
      if !ok { return None; }
    } else {
      NoPort();
    }
    return Some(g.(portValue := v));
  }

  lemma HoldsSet(buf: Text, s: Span, t: Text)
    requires Holds(buf, s, t)
    ensures s.set_ <==> t != []
    ensures s.set_ ==> s.End() <= |buf| && buf[s.off..s.End()] == t
  {
  }

  lemma AllSet(buf: Text, g: Fields, p: Parts)
    requires Holds(buf, g.schema, p.schema) && Holds(buf, g.userinfo, p.userinfo) && Holds(buf, g.host, p.host)
    requires Holds(buf, g.port, p.port) && Holds(buf, g.path, p.path) && Holds(buf, g.query, p.query)
    requires Holds(buf, g.fragment, p.fragment)
    ensures (g.host.set_ && g.port.set_ && !g.schema.set_ && !g.userinfo.set_ && !g.path.set_ && !g.query.set_
       && !g.fragment.set_)
       <==> (p.host != [] && p.port != [] && p.schema + p.userinfo + p.path + p.query + p.fragment == [])
    ensures g.port.set_ <==> p.port != []
    ensures g.port.set_ ==> g.port.End() <= |buf| && buf[g.port.off..g.port.End()] == p.port
  {
    var all := p.schema + p.userinfo + p.path + p.query + p.fragment;
    assert |all| == |p.schema| + |p.userinfo| + |p.path| + |p.query| + |p.fragment|;
  }

  lemma NoPort()
    ensures !PortTooBig([]) && DigitsValue([]) == 0
  {
  }

  lemma NoHost(buf: Text, f: Fields, u: Url)
    requires u.server == [] && u.schema == [] && !f.host.set_ && !f.port.set_ && !f.userinfo.set_ && f.portValue == 0
    requires !f.schema.set_
    requires Holds(buf, f.path, u.path) && Holds(buf, f.query, u.query) && Holds(buf, f.fragment, u.fragment)
    requires Before(f.path, f.query) && Before(f.query, f.fragment) && Before(f.path, f.fragment)
    ensures Assemble(u, false).Some? && Describes(buf, f, Assemble(u, false).value)
  {
    hide HostWalk, DigitsValue;
    NoPort();
  }

  /** `URI::Create`, from the offsets. */
  method CreateUri(url: Text) returns (r: Option<Uri>)
    requires |url| < 0x10000
    ensures r == Created(url)
  {
    hide ParseUrl, Ordered, DigitsValue, PlainScheme, SecureScheme;
    var f := ParseUrlFields(url, false);
    if f.None? { return None; }
    var g := f.value;
    var u := Uri([], [], [], [], [], [], 0);
    if g.schema.set_ { u := u.(scheme := url[g.schema.off..g.schema.End()]); }
    if g.userinfo.set_ { u := u.(userinfo := url[g.userinfo.off..g.userinfo.End()]); }
    if g.host.set_ { u := u.(host := url[g.host.off..g.host.End()]); }
    if g.port.set_ {
      u := u.(port := g.portValue);
    } else if PlainScheme(u.scheme) {
      u := u.(port := 80);
    } else if SecureScheme(u.scheme) {
      u := u.(port := 443);
    }
    if g.path.set_ { u := u.(path := url[g.path.off..g.path.End()]); }
    if g.query.set_ { u := u.(query := url[g.query.off..g.query.End()]); }
    if g.fragment.set_ { u := u.(fragment := url[g.fragment.off..g.fragment.End()]); }
    return Some(u);
  }
}
