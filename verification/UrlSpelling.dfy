/** An accepted URL is its parts joined by delimiters: nothing else stands between them. */
module UrlSpelling {
  import opened Options
  import opened HttpGrammar
  import opened UrlGrammar
  import HttpStep

  /** What stands where no part does: an opening question mark, and how many number signs precede the fragment. */
  datatype Gaps = Gaps(question: bool, hashes: nat)

  function Hashes(n: nat): Text { if n == 0 then [] else Hashes(n - 1) + ['#' as int] }

  /** The separator behind the scheme, as far as it has been read. */
  function Separator(u: Url): Text {
    if u.schema == [] || u.state.ReqSchema? then []
    else if u.state.ReqSchemaSlash? then [':' as int]
    else if u.state.ReqSchemaSlashSlash? then [':' as int, '/' as int]
    else [':' as int, '/' as int, '/' as int]
  }

  function Front(u: Url): Text { u.schema + Separator(u) + u.server + u.path }

  function Spelled(u: Url, g: Gaps): Text {
    Front(u) + (if g.question then ['?' as int] else []) + u.query + Hashes(g.hashes) + u.fragment
  }

  predicate GapsOk(u: Url, g: Gaps) {
    && (u.query != [] || u.state.ReqQueryStringStart? ==> g.question)
    && (u.fragment != [] || u.state.ReqFragmentStart? ==> g.hashes > 0)
    && (g.hashes > 0 ==> u.state.ReqFragmentStart? || u.state.ReqFragment?)
    && (g.question ==> AfterQuestion(u.state))
  }

  function NextGaps(u: Url, v: Url, g: Gaps): Gaps {
    if v.state.ReqQueryStringStart? then g.(question := true)
    else if v.state.ReqFragmentStart? then g.(hashes := g.hashes + 1)
    else g
  }

  predicate AfterQuestion(s: State) {
    s.ReqQueryStringStart? || s.ReqQueryString? || s.ReqFragmentStart? || s.ReqFragment?
  }

  lemma DelimiterChars(u: Url, ch: byte)
    requires Step(u, ch).Some?
    ensures var v := Step(u, ch).value;
      && (v.state.ReqSchemaSlash? ==> u.state.ReqSchema? && ch == ':' as int)
      && (v.state.ReqSchemaSlashSlash? ==> u.state.ReqSchemaSlash? && ch == '/' as int)
      && (v.state.ReqServerStart? ==> u.state.ReqSchemaSlashSlash? && ch == '/' as int)
      && (v.state.ReqQueryStringStart? ==> ch == '?' as int && !AfterQuestion(u.state))
      && (v.state.ReqFragmentStart? ==> ch == '#' as int)
      && (v.state.ReqSchema? ==> u.state.ReqSchema? || u.state.ReqSpacesBeforeUrl?)
      && !v.state.ReqSpacesBeforeUrl?
      && (u.state.ReqSchema? ==> v.state.ReqSchema? || v.state.ReqSchemaSlash?)
      && (u.state.ReqSchemaSlash? ==> v.state.ReqSchemaSlashSlash?)
      && (u.state.ReqSchemaSlashSlash? ==> v.state.ReqServerStart?)
  {
    hide IsAlpha, IsUserinfoChar, IsUrlChar;
  }

  lemma GapsStep(u: Url, ch: byte, g: Gaps)
    requires Layout(u) && GapsOk(u, g) && Step(u, ch).Some?
    ensures GapsOk(Step(u, ch).value, NextGaps(u, Step(u, ch).value, g))
  {
    hide IsAlpha, IsUserinfoChar, IsUrlChar;
  }

  /** Joining six pieces; a character at the end of the last nonempty one is a character at the end. */
  function Join(a: Text, b: Text, c: Text, d: Text, e: Text, f: Text): Text { a + b + c + d + e + f }

  lemma JoinEnd(a: Text, b: Text, c: Text, d: Text, e: Text, f: Text, ch: byte)
    ensures Join(a, b, c, d, e, f + [ch]) == Join(a, b, c, d, e, f) + [ch]
    ensures f == [] ==> Join(a, b, c, d, e + [ch], f) == Join(a, b, c, d, e, f) + [ch]
    ensures e + f == [] ==> Join(a, b, c, d + [ch], e, f) == Join(a, b, c, d, e, f) + [ch]
    ensures d + e + f == [] ==> Join(a, b, c + [ch], d, e, f) == Join(a, b, c, d, e, f) + [ch]
    ensures c + d + e + f == [] ==> Join(a, b + [ch], c, d, e, f) == Join(a, b, c, d, e, f) + [ch]
    ensures b + c + d + e + f == [] ==> Join(a + [ch], b, c, d, e, f) == Join(a, b, c, d, e, f) + [ch]
  {
  }

  function Question(g: Gaps): Text { if g.question then ['?' as int] else [] }

  lemma SpelledIs(u: Url, g: Gaps)
    ensures Spelled(u, g)
         == Join(u.schema + Separator(u), u.server, u.path, Question(g) + u.query, Hashes(g.hashes), u.fragment)
  {
    var x := Front(u) + Question(g) + u.query;
    assert x == u.schema + Separator(u) + u.server + u.path + (Question(g) + u.query);
  }

  lemma HashesMore(n: nat)
    ensures Hashes(n + 1) == Hashes(n) + ['#' as int] && Hashes(0) == []
  {
  }

  lemma SeparatorStep(u: Url, ch: byte)
    requires Layout(u) && Step(u, ch).Some?
    ensures var v := Step(u, ch).value;
      v.schema + Separator(v) ==
        if v.state.ReqSchema? || v.state.ReqSchemaSlash? || v.state.ReqSchemaSlashSlash? || v.state.ReqServerStart?
        then u.schema + Separator(u) + [ch] else u.schema + Separator(u)
  {
    hide HttpStep.ParseUrlChar;
    DelimiterChars(u, ch);
    StepLayout(u, ch);
    var v := Step(u, ch).value;
    if v.state.ReqSchema? {
      assert Separator(u) == [] && Separator(v) == [];
      assert v.schema + [] == u.schema + [] + [ch];
    } else if v.state.ReqSchemaSlash? || v.state.ReqSchemaSlashSlash? || v.state.ReqServerStart? {
      assert Separator(v) == Separator(u) + [ch];
    } else {
      assert Separator(v) == Separator(u);
    }
  }

  lemma QuestionStep(u: Url, ch: byte, g: Gaps)
    requires Layout(u) && GapsOk(u, g) && Step(u, ch).Some?
    ensures var v := Step(u, ch).value;
      Question(NextGaps(u, v, g)) + v.query ==
        if v.state.ReqQueryStringStart? || v.state.ReqQueryString? then Question(g) + u.query + [ch]
        else Question(g) + u.query
  {
    hide HttpStep.ParseUrlChar;
    StepLayout(u, ch);
    DelimiterChars(u, ch);
  }

  /** One more character of the URL is one more character of its spelling. */
  lemma SpellStep(u: Url, ch: byte, g: Gaps)
    requires Layout(u) && GapsOk(u, g) && Step(u, ch).Some?
    ensures var v := Step(u, ch).value; Spelled(v, NextGaps(u, v, g)) == Spelled(u, g) + [ch]
  {
    hide HttpStep.ParseUrlChar, Spelled, Separator, Join, Hashes;
    var v := Step(u, ch).value;
    var h := NextGaps(u, v, g);
    SpelledIs(u, g);
    SpelledIs(v, h);
    StepLayout(u, ch);
    GapsStep(u, ch, g);
    DelimiterChars(u, ch);
    SeparatorStep(u, ch);
    HashesMore(g.hashes);
    HashesMore(0);
    JoinEnd(u.schema + Separator(u), u.server, u.path, Question(g) + u.query, Hashes(g.hashes), u.fragment, ch);
    QuestionStep(u, ch, g);
  }

  /** A walk over any prefix has spelled exactly that prefix. */
  lemma {:induction false} WalkSpells(isConnect: bool, t: Text) returns (g: Gaps)
    requires Walk(Start(isConnect), t).Some?
    ensures var u := Walk(Start(isConnect), t).value; Layout(u) && GapsOk(u, g) && Spelled(u, g) == t
  {
    hide Step, Layout, GapsOk, Spelled;
    if t == [] {
      g := Gaps(false, 0);
      StartSpelled(isConnect);
    } else {
      var init, ch := t[..|t| - 1], t[|t| - 1];
      assert t == init + [ch];
      WalkAppend(Start(isConnect), init, [ch]);
      var u := Walk(Start(isConnect), init).value;
      WalkStep(u, ch);
      var before := WalkSpells(isConnect, init);
      StepLayout(u, ch);
      GapsStep(u, ch, before);
      SpellStep(u, ch, before);
      g := NextGaps(u, Step(u, ch).value, before);
    }
  }

  lemma StartSpelled(isConnect: bool)
    ensures var u := Start(isConnect); Layout(u) && GapsOk(u, Gaps(false, 0)) && Spelled(u, Gaps(false, 0)) == []
  {
  }

  lemma WalkStep(u: Url, ch: byte)
    ensures Walk(u, [ch]) == Step(u, ch)
  {
    hide Step;
    assert [ch][1..] == [];
  }

  // ---------- the server part ----------

  /** The server part as far as it has been read. */
  function HostSpelled(h: HostParts, at: bool, v6: bool): Text {
    Join(h.userinfo + (if at then ['@' as int] else []), if v6 then ['[' as int] else [], h.host,
         if v6 && Closed(h.state) then [']' as int] else [], if Behind(h.state) then [':' as int] else [], h.port)
  }

  predicate Closed(s: HostState) { s.V6End? || Behind(s) }
  predicate Behind(s: HostState) { s.PortStart? || s.Port? }

  predicate AtOk(h: HostParts, at: bool) {
    && (h.state.UserinfoStart? || h.state.Userinfo? ==> !at)
    && (h.userinfo != [] && !h.state.Userinfo? ==> at)
  }

  lemma HostDelimiters(s: HostState, ch: byte)
    ensures var t := HostChar(s, ch);
      && (t.HostStart? ==> (s.UserinfoStart? || s.Userinfo?) && ch == '@' as int)
      && (t.V6Start? ==> s.HostStart? && ch == '[' as int) && (s.V6Start? ==> !t.V6Start?)
      && (t.V6End? ==> (s.V6? || s.V6Zone?) && ch == ']' as int)
      && (t.PortStart? ==> (s.Host? || s.V6End?) && ch == ':' as int)
      && (t.Userinfo? ==> s.UserinfoStart? || s.Userinfo?) && (t.Port? ==> s.PortStart? || s.Port?) && !t.UserinfoStart?
      && (t.Host? ==> s.HostStart? || s.Host?)
      && (t.V6? || t.V6ZoneStart? || t.V6Zone? ==> s.V6Start? || s.V6? || s.V6ZoneStart? || s.V6Zone?)
  {
    hide IsUserinfoChar, IsHostChar, IsNum, IsHex, IsAlphaNum;
  }

  lemma NoMarks(ch: byte)
    ensures forall t: Text :: t + [] == t && [] + t == t
  {
  }

  lemma HostSpellStep(h: HostParts, ch: byte, at: bool, v6: bool)
    requires HostInv(h, v6) && AtOk(h, at) && HostStep(h, ch).Some?
    ensures var k := HostStep(h, ch).value; var at' := at || k.state.HostStart?; var v6' := v6 || k.state.V6Start?;
      HostInv(k, v6') && AtOk(k, at') && HostSpelled(k, at', v6') == HostSpelled(h, at, v6) + [ch]
  {
    hide HostChar, All, Join;
    HostDelimiters(h.state, ch);
    HostStepInv(h, v6, ch);
    JoinEnd(h.userinfo + (if at then ['@' as int] else []), if v6 then ['[' as int] else [], h.host,
            if v6 && Closed(h.state) then [']' as int] else [], if Behind(h.state) then [':' as int]
            else [], h.port, ch);
    NoMarks(ch);
  }

  lemma {:induction false} HostSpells(foundAt: bool, t: Text) returns (at: bool, v6: bool)
    requires HostWalk(HostBegin(foundAt), t).Some?
    ensures var h := HostWalk(HostBegin(foundAt), t).value; HostInv(h, v6) && AtOk(h, at) && HostSpelled(h, at, v6) == t
  {
    hide HostStep, HostInv, HostSpelled, AtOk;
    if t == [] {
      at, v6 := false, false;
      HostStart0(foundAt);
    } else {
      var init, ch := t[..|t| - 1], t[|t| - 1];
      assert t == init + [ch];
      HostWalkAppend(HostBegin(foundAt), init, [ch]);
      var h := HostWalk(HostBegin(foundAt), init).value;
      HostWalkStep(h, ch);
      var at0, v60 := HostSpells(foundAt, init);
      HostSpellStep(h, ch, at0, v60);
      var k := HostStep(h, ch).value;
      at, v6 := at0 || k.state.HostStart?, v60 || k.state.V6Start?;
    }
  }

  lemma HostStart0(foundAt: bool)
    ensures var h := HostBegin(foundAt); HostInv(h, false) && AtOk(h, false) && HostSpelled(h, false, false) == []
  {
  }

  lemma HostWalkStep(h: HostParts, ch: byte)
    ensures HostWalk(h, [ch]) == HostStep(h, ch)
  {
    hide HostStep;
    assert [ch][1..] == [];
  }

  // ---------- the whole URL ----------

  /** Which optional delimiters the URL has. */
  datatype Marks = Marks(at: bool, v6: bool, gaps: Gaps)

  function Server(p: Parts, m: Marks): Text {
    Join(p.userinfo + (if m.at then ['@' as int] else []), if m.v6 then ['[' as int] else [], p.host,
         if m.v6 then [']' as int] else [], if p.port == [] then [] else [':' as int], p.port)
  }

  function Joined(p: Parts, m: Marks): Text {
    p.schema + (if p.schema == [] then [] else [':' as int, '/' as int, '/' as int]) + Server(p, m) + p.path
    + Question(m.gaps) + p.query + Hashes(m.gaps.hashes) + p.fragment
  }

  lemma ServerSpelled(h: HostParts, at: bool, v6: bool, p: Parts, g: Gaps)
    requires HostInv(h, v6) && HostDone(h.state) && p.userinfo == h.userinfo && p.host == h.host && p.port == h.port
    ensures HostSpelled(h, at, v6) == Server(p, Marks(at, v6, g))
  {
    hide Join, All;
  }

  /** An accepted URL is its parts joined by delimiters, and by nothing else. */
  lemma UrlIsItsParts(t: Text, isConnect: bool) returns (m: Marks)
    requires ParseUrl(t, isConnect).Some?
    ensures Joined(ParseUrl(t, isConnect).value, m) == t
  {
    hide Walk, HostWalk, Spelled, HostSpelled, Join, Layout, HostInv, PortTooBig;
    var g := WalkSpells(isConnect, t);
    var u := Walk(Start(isConnect), t).value;
    var p := ParseUrl(t, isConnect).value;
    m := Marks(false, false, g);
    if u.server != [] {
      var at, v6 := HostSpells(u.foundAt, u.server);
      m := Marks(at, v6, g);
      ServerSpelled(HostWalk(HostBegin(u.foundAt), u.server).value, at, v6, p, g);
    } else {
      assert Server(p, m) == [] by { NoServer(p, g); }
    }
    Whole(u, g, p, m);
  }

  lemma NoServer(p: Parts, g: Gaps)
    requires p.userinfo == [] && p.host == [] && p.port == []
    ensures Server(p, Marks(false, false, g)) == []
  {
  }

  lemma Whole(u: Url, g: Gaps, p: Parts, m: Marks)
    requires Layout(u) && m.gaps == g && Server(p, m) == u.server && (u.schema != [] ==> u.server != [])
    requires p.schema == u.schema && p.path == u.path && p.query == u.query && p.fragment == u.fragment
    ensures Joined(p, m) == Spelled(u, g)
  {
    hide Server;
  }
}
