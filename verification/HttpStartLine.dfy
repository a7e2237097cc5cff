/** Request lines: which methods are recognised, which targets are accepted, and what is announced. */
module HttpStartLine {
  import opened Options
  import opened HttpGrammar
  import opened HttpStep
  import opened HttpInvariant
  import opened HttpMarks
  import opened HttpTracking
  import opened HttpHeaders
  import UrlGrammar

  lemma LineStep(q: Parser, ch: byte)
    requires RequestLineState(q.state) && q.nread < MAX_HEADER_SIZE
    ensures var o := OnRequestLine(q.(nread := q.nread + 1), ch);
      Step(q, ch) == RunState(o.q, Events(o.ops, OpenIn(q.state), ch), o.status, if o.status.Failed? then 0 else 1)
  {
    hide OnRequestLine, Events;
  }

  // ---------- the method ----------

  /** A method's name as bytes. */
  function Spelled(m: Method): (r: seq<byte>)
    ensures |r| == |MethodString(m)|
  {
    seq(|MethodString(m)|, i requires 0 <= i < |MethodString(m)| => MatcherAt(m, i))
  }

  /** The method the matcher holds after one more character, if it goes on. */
  function MethodNext(m: Method, i: int, ch: byte): Option<Method> {
    if ch == 0 then None
    else if ch == MatcherAt(m, i) then Some(m)
    else if (65 <= ch <= 90 || ch == '-' as int) && Rematch(m, i, ch).0 then Some(Rematch(m, i, ch).1)
    else None
  }

  /** The method the matcher holds after the beginning of a word. */
  function MethodRead(w: seq<byte>): Option<Method>
    requires w != []
  {
    if |w| == 1 then (if FirstMethod(w[0]).0 then Some(FirstMethod(w[0]).1) else None)
    else match MethodRead(w[..|w| - 1])
      case None => None
      case Some(m) => MethodNext(m, |w| - 1, w[|w| - 1])
  }

  /** The parser while it reads a method. */
  function Reading(q: Parser, m: Method, n: int): Parser {
    q.(flags := NO_FLAGS, contentLength := ULLONG_MAX, state := ReqMethod, meth := m, index := n, nread := q.nread + n)
  }

  lemma FirstLetters(ch: byte)
    requires FirstMethod(ch).0
    ensures IsAlpha(ch) && ch != CR && ch != LF
  {
  }

  lemma MethodFirst(q: Parser, ch: byte)
    requires q.state.StartReq? && q.nread < MAX_HEADER_SIZE && ch != CR && ch != LF
    ensures if FirstMethod(ch).0 then
        Step(q, ch) == RunState(Reading(q, FirstMethod(ch).1, 1), [Noted(MessageBegin)], Running, 1)
      else Step(q, ch).status.Failed?
  {
    hide Events, FirstMethod;
    LineStep(q, ch);
    NoteEvents(MessageBegin, ch);
    if FirstMethod(ch).0 { FirstLetters(ch); }
  }

  lemma MethodMore(q: Parser, m: Method, n: nat, ch: byte)
    requires 0 < n && q.nread + n < MAX_HEADER_SIZE && ch != SP
    ensures match MethodNext(m, n, ch)
      case Some(m') => Step(Reading(q, m, n), ch) == RunState(Reading(q, m', n + 1), [], Running, 1)
      case None => Step(Reading(q, m, n), ch).status.Failed?
  {
    hide MatcherAt, Rematch;
    LineStep(Reading(q, m, n), ch);
  }

  lemma {:induction false} MethodText(q: Parser, w: seq<byte>)
    requires q.state.StartReq? && q.nread + |w| <= MAX_HEADER_SIZE
    requires w != [] && w[0] != CR && w[0] != LF && SP !in w
    ensures match MethodRead(w)
      case Some(m) => Reaches(q, w, Reading(q, m, |w|), [Noted(MessageBegin)])
      case None => Run(q, w).status.Failed?
  {
    hide Run, Step, FirstMethod, MethodNext;
    if |w| == 1 {
      assert w == [w[0]];
      MethodFirst(q, w[0]);
      RunOne(q, w[0]);
    } else {
      var init, ch := w[..|w| - 1], w[|w| - 1];
      assert w == init + [ch];
      MethodText(q, init);
      if MethodRead(init).None? {
        FailureStays(q, init, [ch]);
      } else {
        var m := MethodRead(init).value;
        MethodMore(q, m, |init|, ch);
        RunOne(Reading(q, m, |init|), ch);
        if MethodRead(w).Some? {
          ReachesThen(q, init, Reading(q, m, |init|), [Noted(MessageBegin)], [ch],
                      Reading(q, MethodRead(w).value, |w|), []);
          NoMore([Noted(MessageBegin)]);
        } else {
          ReachesFailure(q, init, Reading(q, m, |init|), [Noted(MessageBegin)], [ch]);
        }
      }
    }
  }

  // ---------- what the matcher recognises ----------

  /** `m` agrees with `m'` on the first `i` characters, and goes on with `ch`. */
  predicate ForksTo(m: Method, i: nat, ch: byte, m': Method) {
    && 0 < i < |MethodString(m')| && i < |MethodString(m)| && MatcherAt(m', i) == ch
    && MatcherAt(m', 0) == MatcherAt(m, 0) && (i > 1 ==> MatcherAt(m', 1) == MatcherAt(m, 1))
    && (i > 2 ==> MatcherAt(m', 2) == MatcherAt(m, 2)) && (i > 3 ==> MatcherAt(m', 3) == MatcherAt(m, 3)) && i <= 4
  }

  lemma FirstFits(ch: byte)
    requires FirstMethod(ch).0
    ensures MatcherAt(FirstMethod(ch).1, 0) == ch && |MethodString(FirstMethod(ch).1)| > 0
  {
  }

  lemma RematchPost(m: Method, i: nat, ch: byte)
    requires Rematch(m, i, ch).0 && (m.POST? || m.PUT? || m.PROPFIND?)
    ensures ForksTo(m, i, ch, Rematch(m, i, ch).1)
  {
  }

  lemma RematchMkcol(m: Method, i: nat, ch: byte)
    requires Rematch(m, i, ch).0 && m.MKCOL?
    ensures ForksTo(m, i, ch, Rematch(m, i, ch).1)
  {
  }

  lemma RematchUnlock(m: Method, i: nat, ch: byte)
    requires Rematch(m, i, ch).0 && (m.UNLOCK? || m.LOCK?)
    ensures ForksTo(m, i, ch, Rematch(m, i, ch).1)
  {
  }

  lemma RematchOthers(m: Method, i: nat, ch: byte)
    requires Rematch(m, i, ch).0 && (m.SUBSCRIBE? || m.REPORT? || m.CONNECT?)
    ensures ForksTo(m, i, ch, Rematch(m, i, ch).1)
  {
  }

  /** Each entry of the switch leads to a method with the same beginning and the character read. */
  lemma RematchFits(m: Method, i: nat, ch: byte)
    requires Rematch(m, i, ch).0
    ensures ForksTo(m, i, ch, Rematch(m, i, ch).1)
  {
    hide ForksTo;
    assert m in {POST, PUT, PROPFIND, CONNECT, MKCOL, SUBSCRIBE, REPORT, LOCK, UNLOCK};
    hide Rematch;
    if m.POST? || m.PUT? || m.PROPFIND? {
      RematchPost(m, i, ch);
    } else if m.MKCOL? {
      RematchMkcol(m, i, ch);
    } else if m.UNLOCK? || m.LOCK? {
      RematchUnlock(m, i, ch);
    } else {
      RematchOthers(m, i, ch);
    }
  }

  lemma ForkShares(m: Method, i: nat, ch: byte, m': Method)
    requires ForksTo(m, i, ch, m')
    ensures i < |Spelled(m')| && i < |Spelled(m)| && Spelled(m')[..i] == Spelled(m)[..i] && Spelled(m')[i] == ch
  {
    hide MethodString, MatcherAt;
    var a, b := Spelled(m'), Spelled(m);
    hide Spelled;
    forall k | 0 <= k < i ensures a[k] == b[k] {
      SpelledAt(m, k);
      SpelledAt(m', k);
    }
    SpelledAt(m', i);
  }

  lemma SpelledAt(m: Method, k: nat)
    requires k < |MethodString(m)|
    ensures Spelled(m)[k] == MatcherAt(m, k)
  {
    hide MethodString, MatcherAt;
  }

  lemma NoNulShort(m: Method, i: nat)
    requires i < |MethodString(m)| <= 5
    ensures MatcherAt(m, i) != 0 && MatcherAt(m, i) != SP
  {
  }

  lemma NoNulSix(m: Method, i: nat)
    requires i < |MethodString(m)| == 6
    ensures MatcherAt(m, i) != 0 && MatcherAt(m, i) != SP
  {
  }

  lemma NoNulLong(m: Method, i: nat)
    requires i < |MethodString(m)| && |MethodString(m)| > 6
    ensures MatcherAt(m, i) != 0 && MatcherAt(m, i) != SP
  {
  }

  lemma NoNul(m: Method, i: nat)
    requires i < |MethodString(m)|
    ensures MatcherAt(m, i) != 0 && MatcherAt(m, i) != SP
  {
    hide MethodString, MatcherAt;
    if |MethodString(m)| <= 5 { NoNulShort(m, i); }
    else if |MethodString(m)| == 6 { NoNulSix(m, i); }
    else { NoNulLong(m, i); }
  }

  lemma NulBehind(m: Method, i: nat)
    requires MatcherAt(m, i) != 0
    ensures i < |MethodString(m)|
  {
  }

  /** Whatever the matcher holds, the characters read are the beginning of its name. */
  lemma {:induction false} ReadFits(w: seq<byte>)
    requires w != [] && MethodRead(w).Some?
    ensures w <= Spelled(MethodRead(w).value)
  {
    hide MethodString, MatcherAt, Rematch, FirstMethod, ForksTo;
    if |w| == 1 {
      FirstFits(w[0]);
    } else {
      var init, ch, n := w[..|w| - 1], w[|w| - 1], |w| - 1;
      ReadFits(init);
      var m, m' := MethodRead(init).value, MethodRead(w).value;
      if ch == MatcherAt(m, n) { NulBehind(m, n); } else { RematchFits(m, n, ch); ForkShares(m, n, ch, m'); }
      assert w == init + [ch];
      assert Spelled(m')[..n] == init && Spelled(m')[n] == ch;
    }
  }

  /** From which candidate, and at which character, the matcher turns to `m`. */
  function Fork(m: Method): Option<(Method, nat)> {
    match m
    case PUT => Some((POST, 1)) case PATCH => Some((POST, 1)) case PROPFIND => Some((POST, 1))
    case PURGE => Some((PUT, 2)) case PROPPATCH => Some((PROPFIND, 4))
    case CHECKOUT => Some((CONNECT, 1)) case COPY => Some((CONNECT, 2))
    case MOVE => Some((MKCOL, 1)) case MERGE => Some((MKCOL, 1)) case MSEARCH => Some((MKCOL, 1))
    case MKACTIVITY => Some((MKCOL, 2)) case MKCALENDAR => Some((MKCOL, 3))
    case SEARCH => Some((SUBSCRIBE, 1)) case SOURCE => Some((SUBSCRIBE, 1)) case REBIND => Some((REPORT, 2))
    case LINK => Some((LOCK, 1)) case UNSUBSCRIBE => Some((UNLOCK, 2)) case UNBIND => Some((UNLOCK, 2))
    case UNLINK => Some((UNLOCK, 3))
    case _ => None
  }

  function ForkAt(m: Method): nat { match Fork(m) case None => 0 case Some((_, k)) => k }

  predicate ForksRight(m: Method) {
    && ForkAt(m) < |MethodString(m)|
    && match Fork(m)
       case None => FirstMethod(MatcherAt(m, 0)) == (true, m)
       case Some((p, k)) =>
         && 0 < k && ForkAt(p) < k <= |MethodString(p)|
         && var ch := MatcherAt(m, k);
            Rematch(p, k, ch) == (true, m) && ch != MatcherAt(p, k) && (65 <= ch <= 90 || ch == '-' as int)
  }

  lemma FirstForks(m: Method)
    requires Fork(m).None?
    ensures ForksRight(m)
  {
  }

  lemma PostForks(m: Method)
    requires Fork(m).Some? && (Fork(m).value.0.POST? || Fork(m).value.0.PUT? || Fork(m).value.0.PROPFIND?)
    ensures ForksRight(m)
  {
  }

  lemma MkcolForks(m: Method)
    requires Fork(m).Some? && Fork(m).value.0.MKCOL?
    ensures ForksRight(m)
  {
  }

  lemma OtherForks(m: Method)
    requires Fork(m).Some? && (Fork(m).value.0.SUBSCRIBE? || Fork(m).value.0.REPORT?)
    ensures ForksRight(m)
  {
  }

  lemma ConnectForks(m: Method)
    requires Fork(m).Some? && Fork(m).value.0.CONNECT?
    ensures ForksRight(m)
  {
  }

  lemma LockForks(m: Method)
    requires Fork(m).Some? && (Fork(m).value.0.LOCK? || Fork(m).value.0.UNLOCK?)
    ensures ForksRight(m)
  {
  }

  lemma ForkIs(m: Method)
    ensures ForksRight(m)
  {
    hide ForksRight;
    match Fork(m)
    case None => FirstForks(m);
    case Some((p, _)) =>
      if p.POST? || p.PUT? || p.PROPFIND? { PostForks(m); }
      else if p.MKCOL? { MkcolForks(m); }
      else if p.CONNECT? { ConnectForks(m); }
      else if p.LOCK? || p.UNLOCK? { LockForks(m); }
      else { OtherForks(m); }
  }

  lemma ForkRead(m: Method)
    requires Fork(m).Some? && ForksRight(m)
    requires var (p, k) := Fork(m).value; MethodRead(Spelled(p)[..k]) == Some(p)
    ensures MethodRead(Spelled(m)[..ForkAt(m) + 1]) == Some(m)
  {
    hide MethodString, MatcherAt, Rematch, FirstMethod, ForksTo, Fork, Spelled;
    var (p, k) := Fork(m).value;
    var w := Spelled(m)[..k + 1];
    RematchFits(p, k, MatcherAt(m, k));
    ForkShares(p, k, MatcherAt(m, k), m);
    SpelledAt(m, k);
    NoNul(m, k);
    assert w[..k] == Spelled(p)[..k];
  }

  /** Every name is recognised, from the character on that tells it apart. */
  lemma {:induction false} NameRead(m: Method, i: nat)
    requires ForkAt(m) < i <= |MethodString(m)|
    ensures MethodRead(Spelled(m)[..i]) == Some(m)
    decreases i
  {
    ForkIs(m);
    hide MethodString, MatcherAt, Rematch, FirstMethod, ForksTo, Fork, Spelled;
    var w := Spelled(m)[..i];
    NoNul(m, i - 1);
    SpelledAt(m, i - 1);
    if i > 1 {
      assert w[..i - 1] == Spelled(m)[..i - 1] && w[i - 1] == MatcherAt(m, i - 1);
      if i - 1 > ForkAt(m) {
        NameRead(m, i - 1);
      } else {
        var (p, k) := Fork(m).value;
        NameRead(p, k);
        ForkRead(m);
      }
    }
  }

  /** The parser behind the space after the method. */
  function MethodDone(q: Parser, m: Method): Parser {
    var n := |MethodString(m)| + 1;
    Reading(q, m, n).(state := ReqSpacesBeforeUrl)
  }

  lemma MethodSpace(q: Parser, m: Method, n: nat)
    requires q.nread + n < MAX_HEADER_SIZE && 0 < n <= |MethodString(m)|
    ensures if n == |MethodString(m)| then Step(Reading(q, m, n), SP) == RunState(MethodDone(q, m), [], Running, 1)
      else Step(Reading(q, m, n), SP).status.Failed?
  {
    hide Rematch, MethodString, MatcherAt;
    LineStep(Reading(q, m, n), SP);
    if n < |MethodString(m)| { NoNul(m, n); }
    if MatcherAt(m, n) != 0 { NulBehind(m, n); }
  }

  /** A word before the first space is accepted exactly when it is the name of a method, which is then the parser's, and
      message_begin has been announced. */
  lemma MethodExactly(q: Parser, w: seq<byte>)
    requires q.state.StartReq? && q.nread + |w| + 1 <= MAX_HEADER_SIZE
    requires w != [] && w[0] != CR && w[0] != LF && SP !in w
    ensures forall m | w == Spelled(m) :: Reaches(q, w + [SP], MethodDone(q, m), [Noted(MessageBegin)])
    ensures (forall m :: w != Spelled(m)) ==> Run(q, w + [SP]).status.Failed?
  {
    hide Run, Step, MethodString, MatcherAt, MethodRead;
    MethodText(q, w);
    forall m | w == Spelled(m) ensures MethodRead(w) == Some(m) {
      ForkIs(m);
      assert Spelled(m)[..|w|] == w;
      NameRead(m, |w|);
    }
    if MethodRead(w).None? {
      FailureStays(q, w, [SP]);
    } else {
      var m := MethodRead(w).value;
      ReadFits(w);
      MethodSpace(q, m, |w|);
      RunOne(Reading(q, m, |w|), SP);
      if |w| == |MethodString(m)| {
        assert w == Spelled(m);
        ReachesThen(q, w, Reading(q, m, |w|), [Noted(MessageBegin)], [SP], MethodDone(q, m), []);
        NoMore([Noted(MessageBegin)]);
      } else {
        ReachesFailure(q, w, Reading(q, m, |w|), [Noted(MessageBegin)], [SP]);
      }
    }
  }

  // ---------- the target ----------

  /** What the walk over a target comes to; None if some character is refused. */
  function TargetEnd(isConnect: bool, url: seq<byte>): Option<State> {
    match UrlGrammar.Walk(UrlGrammar.Start(isConnect), url) case None => None case Some(u) => Some(u.state)
  }

  /** A target the request line may hold: the URL states accept every character, and a space may follow the last. */
  predicate TargetOk(isConnect: bool, url: seq<byte>) {
    url != [] && var e := TargetEnd(isConnect, url); e.Some? && UrlEndState(e.value)
  }

  lemma UrlStates(s: State, ch: byte)
    ensures var n := ParseUrlChar(s, ch); n.Dead? || UrlState(n)
  {
  }

  lemma UrlStepIs(u: UrlGrammar.Url, ch: byte)
    ensures var n := ParseUrlChar(u.state, ch); var v := UrlGrammar.Step(u, ch);
      if n.Dead? then v.None? else v.Some? && v.value.state == n
  {
    hide ParseUrlChar;
    UrlStates(u.state, ch);
  }

  lemma TargetGrows(isConnect: bool, url: seq<byte>, ch: byte)
    ensures TargetEnd(isConnect, url + [ch]) ==
      match TargetEnd(isConnect, url)
      case None => None
      case Some(s) => var n := ParseUrlChar(s, ch); if n.Dead? then None else Some(n)
  {
    hide UrlGrammar.Step;
    var start := UrlGrammar.Start(isConnect);
    UrlGrammar.WalkAppend(start, url, [ch]);
    match UrlGrammar.Walk(start, url)
    case None =>
    case Some(u) =>
      UrlStepIs(u, ch);
      assert [ch][1..] == [];
  }

  predicate NotAfterTarget(ch: byte) { ch != SP && ch != CR && ch != LF }

  lemma TargetFirst(q: Parser, ch: byte)
    requires q.state.ReqSpacesBeforeUrl? && q.nread < MAX_HEADER_SIZE && ch != SP
    ensures var n := ParseUrlChar(if q.meth.CONNECT? then ReqServerStart else ReqSpacesBeforeUrl, ch);
      if n.Dead? then Step(q, ch).status.Failed?
      else UrlState(n)
           && Step(q, ch) == RunState(q.(state := n, nread := q.nread + 1), DataEvents(UrlData, [ch]), Running, 1)
  {
    hide Events, ParseUrlChar;
    LineStep(q, ch);
    UrlStates(if q.meth.CONNECT? then ReqServerStart else ReqSpacesBeforeUrl, ch);
    MarkEvents(UrlData, ch);
  }

  lemma OpenEvents(k: Kind, ch: byte)
    ensures Events([], Opened(k), ch) == DataEvents(k, [ch])
  {
    assert DataEvents(k, [ch]) == [Data(k, ch)];
  }

  lemma TargetMore(q: Parser, ch: byte)
    requires UrlState(q.state) && q.nread < MAX_HEADER_SIZE && NotAfterTarget(ch)
    ensures var n := ParseUrlChar(q.state, ch);
      if n.Dead? then Step(q, ch).status.Failed?
      else UrlState(n)
           && Step(q, ch) == RunState(q.(state := n, nread := q.nread + 1), DataEvents(UrlData, [ch]), Running, 1)
  {
    hide Events, ParseUrlChar;
    LineStep(q, ch);
    UrlStates(q.state, ch);
    OpenEvents(UrlData, ch);
  }

  /** A target read so far: announced, or refused. */
  ghost predicate TargetRead(q: Parser, url: seq<byte>) {
    match TargetEnd(q.meth.CONNECT?, url)
    case Some(s) => UrlState(s) && Reaches(q, url, q.(state := s, nread := q.nread + |url|), DataEvents(UrlData, url))
    case None => Run(q, url).status.Failed?
  }

  lemma TargetBegun(q: Parser, ch: byte)
    requires q.state.ReqSpacesBeforeUrl? && q.nread < MAX_HEADER_SIZE && ch != SP
    ensures TargetRead(q, [ch])
  {
    hide Run, Step, ParseUrlChar, UrlState, DataEvents;
    TargetGrows(q.meth.CONNECT?, [], ch);
    assert [] + [ch] == [ch];
    TargetFirst(q, ch);
    RunOne(q, ch);
  }

  lemma TargetContinued(q: Parser, url: seq<byte>, ch: byte)
    requires TargetRead(q, url) && q.nread + |url| < MAX_HEADER_SIZE && NotAfterTarget(ch)
    ensures TargetRead(q, url + [ch])
  {
    hide Run, Step, TargetEnd, ParseUrlChar, UrlState, DataEvents;
    TargetGrows(q.meth.CONNECT?, url, ch);
    if TargetEnd(q.meth.CONNECT?, url).None? {
      FailureStays(q, url, [ch]);
    } else {
      var s := TargetEnd(q.meth.CONNECT?, url).value;
      var r, n := q.(state := s, nread := q.nread + |url|), ParseUrlChar(s, ch);
      TargetMore(r, ch);
      RunOne(r, ch);
      if n.Dead? {
        ReachesFailure(q, url, r, DataEvents(UrlData, url), [ch]);
      } else {
        ReachesThen(q, url, r, DataEvents(UrlData, url), [ch], r.(state := n, nread := r.nread + 1),
                    DataEvents(UrlData, [ch]));
        DataEventsSplit(UrlData, url, [ch]);
      }
    }
  }

  lemma {:induction false} TargetText(q: Parser, url: seq<byte>)
    requires q.state.ReqSpacesBeforeUrl? && q.nread + |url| <= MAX_HEADER_SIZE && url != []
    requires forall i :: 0 <= i < |url| ==> NotAfterTarget(url[i])
    ensures TargetRead(q, url)
  {
    hide TargetRead;
    if |url| == 1 {
      assert url == [url[0]];
      TargetBegun(q, url[0]);
    } else {
      TargetText(q, url[..|url| - 1]);
      TargetContinued(q, url[..|url| - 1], url[|url| - 1]);
      assert url == url[..|url| - 1] + [url[|url| - 1]];
    }
  }

  lemma TargetSpace(q: Parser)
    requires UrlState(q.state) && q.nread < MAX_HEADER_SIZE
    ensures if UrlEndState(q.state)
      then Step(q, SP) == RunState(q.(state := ReqHttpStart, nread := q.nread + 1), [], Running, 1)
      else Step(q, SP).status.Failed?
  {
    hide Events;
    LineStep(q, SP);
    EmitEvents(UrlData, Opened(UrlData), SP);
  }

  /** A target is announced whole if the URL states accept it, and refused otherwise. */
  lemma TargetExactly(q: Parser, url: seq<byte>)
    requires q.state.ReqSpacesBeforeUrl? && q.nread + |url| + 1 <= MAX_HEADER_SIZE && url != []
    requires forall i :: 0 <= i < |url| ==> NotAfterTarget(url[i])
    ensures if TargetOk(q.meth.CONNECT?, url)
      then Reaches(q, url + [SP], q.(state := ReqHttpStart, nread := q.nread + |url| + 1), DataEvents(UrlData, url))
      else Run(q, url + [SP]).status.Failed?
  {
    hide Run, Step, TargetEnd, UrlState, UrlEndState, DataEvents;
    TargetText(q, url);
    match TargetEnd(q.meth.CONNECT?, url)
    case None => FailureStays(q, url, [SP]);
    case Some(s) =>
      var r := q.(state := s, nread := q.nread + |url|);
      TargetSpace(r);
      RunOne(r, SP);
      if UrlEndState(s) {
        ReachesThen(q, url, r, DataEvents(UrlData, url), [SP], r.(state := ReqHttpStart, nread := r.nread + 1), []);
        NoMore(DataEvents(UrlData, url));
      } else {
        ReachesFailure(q, url, r, DataEvents(UrlData, url), [SP]);
      }
  }

  // ---------- the version ----------

  function Digit(d: nat): byte
    requires d < 10
  {
    48 + d
  }

  /** `HTTP/`, the two digits, and the line end. */
  function VersionBytes(major: nat, minor: nat): seq<byte>
    requires major < 10 && minor < 10
  {
    ['H' as int, 'T' as int] + ['T' as int, 'P' as int] + ['/' as int, Digit(major)] + ['.' as int, Digit(minor)]
    + [CR, LF]
  }

  lemma QuietStep(q: Parser, ch: byte, q': Parser)
    requires RequestLineState(q.state) && !UrlState(q.state) && q.nread < MAX_HEADER_SIZE
    requires OnRequestLine(q.(nread := q.nread + 1), ch) == Out(q', [], Running)
    ensures Step(q, ch) == RunState(q', [], Running, 1)
  {
    hide OnRequestLine;
    LineStep(q, ch);
    QuietEvents(ch);
  }

  lemma VersionPair(q: Parser, a: byte, s: State, b: byte, q': Parser)
    requires RequestLineState(q.state) && !UrlState(q.state) && RequestLineState(s) && !UrlState(s)
    requires q.nread + 2 <= MAX_HEADER_SIZE
    requires OnRequestLine(q.(nread := q.nread + 1), a) == Out(q.(nread := q.nread + 1, state := s), [], Running)
    requires OnRequestLine(q.(nread := q.nread + 2, state := s), b) == Out(q', [], Running)
    ensures Reaches(q, [a, b], q', [])
  {
    hide OnRequestLine, Run, Step;
    var q1 := q.(nread := q.nread + 1, state := s);
    QuietStep(q, a, q1);
    QuietStep(q1, b, q');
    QuietPair(q, a, q1, b, q');
  }

  lemma ProtocolName(q: Parser)
    requires q.state.ReqHttpStart? && q.nread + 4 <= MAX_HEADER_SIZE
    ensures Reaches(q, ['H' as int, 'T' as int] + ['T' as int, 'P' as int],
                    q.(state := ReqHttpHTTP, nread := q.nread + 4), [])
  {
    hide Run, Step;
    var q2, q4 := q.(state := ReqHttpHT, nread := q.nread + 2), q.(state := ReqHttpHTTP, nread := q.nread + 4);
    VersionPair(q, 'H' as int, ReqHttpH, 'T' as int, q2);
    VersionPair(q2, 'T' as int, ReqHttpHTT, 'P' as int, q4);
    ReachesThen(q, ['H' as int, 'T' as int], q2, [], ['T' as int, 'P' as int], q4, []);
  }

  lemma VersionSteps(q: Parser, d: nat)
    requires d < 10
    ensures q.state.ReqHttpHTTP? ==> OnRequestLine(q, '/' as int) == Go(q, ReqHttpMajor)
    ensures q.state.ReqHttpMajor? ==> OnRequestLine(q, Digit(d)) == Go(q.(major := d), ReqHttpDot)
    ensures q.state.ReqHttpDot? ==> OnRequestLine(q, '.' as int) == Go(q, ReqHttpMinor)
    ensures q.state.ReqHttpMinor? ==> OnRequestLine(q, Digit(d)) == Go(q.(minor := d), ReqHttpEnd)
  {
  }

  lemma VersionDigits(q: Parser, major: nat, minor: nat)
    requires q.state.ReqHttpHTTP? && q.nread + 4 <= MAX_HEADER_SIZE && major < 10 && minor < 10
    ensures Reaches(q, ['/' as int, Digit(major)] + ['.' as int, Digit(minor)],
                    q.(state := ReqHttpEnd, nread := q.nread + 4, major := major, minor := minor), [])
  {
    hide Run, Step;
    var q2 := q.(state := ReqHttpDot, nread := q.nread + 2, major := major);
    var q4 := q2.(state := ReqHttpEnd, nread := q.nread + 4, minor := minor);
    VersionSteps(q.(nread := q.nread + 1), major);
    VersionSteps(q.(nread := q.nread + 2, state := ReqHttpMajor), major);
    VersionSteps(q2.(nread := q.nread + 3), minor);
    VersionSteps(q2.(nread := q.nread + 4, state := ReqHttpMinor), minor);
    hide OnRequestLine;
    VersionPair(q, '/' as int, ReqHttpMajor, Digit(major), q2);
    VersionPair(q2, '.' as int, ReqHttpMinor, Digit(minor), q4);
    ReachesThen(q, ['/' as int, Digit(major)], q2, [], ['.' as int, Digit(minor)], q4, []);
  }

  lemma VersionText(q: Parser, major: nat, minor: nat)
    requires q.state.ReqHttpStart? && q.nread + 10 <= MAX_HEADER_SIZE && major < 10 && minor < 10
    ensures Reaches(q, VersionBytes(major, minor),
                    q.(state := HeaderFieldStart, nread := q.nread + 10, major := major, minor := minor), [])
  {
    hide Run, Step;
    var q4 := q.(state := ReqHttpHTTP, nread := q.nread + 4);
    var q8 := q4.(state := ReqHttpEnd, nread := q.nread + 8, major := major, minor := minor);
    var q10 := q8.(state := HeaderFieldStart, nread := q.nread + 10);
    var a := ['H' as int, 'T' as int] + ['T' as int, 'P' as int];
    var b := ['/' as int, Digit(major)] + ['.' as int, Digit(minor)];
    ProtocolName(q);
    VersionDigits(q4, major, minor);
    VersionPair(q8, CR, ReqLineAlmostDone, LF, q10);
    hide OnRequestLine;
    ReachesThen(q, a, q4, [], b, q8, []);
    ReachesThen(q, a + b, q8, [] + [], [CR, LF], q10, []);
    assert VersionBytes(major, minor) == a + b + [CR, LF];
    NoMore([]);
  }

  // ---------- the whole line ----------

  datatype RequestLine = RequestLine(meth: Method, url: seq<byte>, major: nat, minor: nat)

  predicate LineOk(l: RequestLine) {
    && l.major < 10 && l.minor < 10 && TargetOk(l.meth.CONNECT?, l.url)
    && forall i :: 0 <= i < |l.url| ==> NotAfterTarget(l.url[i])
  }

  function LineBytes(l: RequestLine): seq<byte>
    requires l.major < 10 && l.minor < 10
  {
    Spelled(l.meth) + [SP] + (l.url + [SP]) + VersionBytes(l.major, l.minor)
  }

  function LineEvents(l: RequestLine): seq<Event> { [Noted(MessageBegin)] + DataEvents(UrlData, l.url) }

  /** The parser in front of the first header line. */
  function LineRead(q: Parser, l: RequestLine): Parser
    requires l.major < 10 && l.minor < 10
  {
    q.(flags := NO_FLAGS, contentLength := ULLONG_MAX, state := HeaderFieldStart, meth := l.meth,
       index := |MethodString(l.meth)| + 1, nread := q.nread + |LineBytes(l)|, major := l.major, minor := l.minor)
  }

  lemma SpelledPlain(m: Method)
    ensures Spelled(m) != [] && SP !in Spelled(m) && Spelled(m)[0] != CR && Spelled(m)[0] != LF
  {
    ForkIs(m);
    hide MethodString, MatcherAt;
    forall i | 0 <= i < |Spelled(m)| ensures Spelled(m)[i] != SP {
      NoNul(m, i);
      SpelledAt(m, i);
    }
    FirstPlain(m);
    SpelledAt(m, 0);
  }

  lemma FirstPlain(m: Method)
    ensures |MethodString(m)| > 0 && MatcherAt(m, 0) != CR && MatcherAt(m, 0) != LF
  {
  }

  /** Any request line, from a parser that waits for one: the method is recorded, the target announced, the version
      recorded, and flags and length of an earlier message forgotten. */
  lemma RequestLineRead(q: Parser, l: RequestLine)
    requires q.state.StartReq? && LineOk(l) && q.nread + |LineBytes(l)| <= MAX_HEADER_SIZE
    ensures Reaches(q, LineBytes(l), LineRead(q, l), LineEvents(l))
  {
    hide *;
    SpelledPlain(l.meth);
    RequestLineParts(q, l);
    var w := Spelled(l.meth);
    var q1 := MethodDone(q, l.meth);
    var q2 := q1.(state := ReqHttpStart, nread := q1.nread + |l.url| + 1);
    MethodExactly(q, w);
    TargetExactly(q1, l.url);
    VersionText(q2, l.major, l.minor);
    ReachesThen(q, w + [SP], q1, [Noted(MessageBegin)], l.url + [SP], q2, DataEvents(UrlData, l.url));
    ReachesThen(q, w + [SP] + (l.url + [SP]), q2, LineEvents(l), VersionBytes(l.major, l.minor), LineRead(q, l), []);
    NoMore(LineEvents(l));
  }

  lemma RequestLineParts(q: Parser, l: RequestLine)
    requires LineOk(l)
    ensures l.major < 10 && l.minor < 10 && l.url != [] && TargetOk(l.meth.CONNECT?, l.url)
    ensures forall i :: 0 <= i < |l.url| ==> NotAfterTarget(l.url[i])
    ensures |LineBytes(l)| == |Spelled(l.meth)| + 1 + |l.url| + 1 + 10
    ensures LineBytes(l) == Spelled(l.meth) + [SP] + (l.url + [SP]) + VersionBytes(l.major, l.minor)
    ensures LineEvents(l) == [Noted(MessageBegin)] + DataEvents(UrlData, l.url)
    ensures var q1 := MethodDone(q, l.meth); var q2 := q1.(state := ReqHttpStart, nread := q1.nread + |l.url| + 1);
      && q1.state.ReqSpacesBeforeUrl? && q1.meth == l.meth && q1.nread == q.nread + |Spelled(l.meth)| + 1
      && q2.(state := HeaderFieldStart, nread := q2.nread + 10, major := l.major, minor := l.minor) == LineRead(q, l)
  {
    hide MethodString, MatcherAt;
  }

  // ---------- the other ends of a request line ----------

  lemma TargetBreak(q: Parser)
    requires UrlEndState(q.state) && q.nread < MAX_HEADER_SIZE
    ensures Step(q, CR)
         == RunState(q.(state := ReqLineAlmostDone, nread := q.nread + 1, major := 0, minor := 9), [], Running, 1)
  {
    hide Events;
    LineStep(q, CR);
    EmitEvents(UrlData, Opened(UrlData), CR);
  }

  /** A line that ends with the target is a request of HTTP/0.9. */
  lemma SimpleRequest(q: Parser, url: seq<byte>)
    requires q.state.ReqSpacesBeforeUrl? && q.nread + |url| + 2 <= MAX_HEADER_SIZE && TargetOk(q.meth.CONNECT?, url)
    requires forall i :: 0 <= i < |url| ==> NotAfterTarget(url[i])
    ensures var r := q.(state := HeaderFieldStart, nread := q.nread + |url| + 2, major := 0, minor := 9);
      Reaches(q, url + [CR, LF], r, DataEvents(UrlData, url))
  {
    TargetText(q, url);
    hide Run, Step, TargetEnd, UrlEndState, DataEvents, OnRequestLine;
    var r := q.(state := TargetEnd(q.meth.CONNECT?, url).value, nread := q.nread + |url|);
    var r1 := r.(state := ReqLineAlmostDone, nread := r.nread + 1, major := 0, minor := 9);
    var r2 := r1.(state := HeaderFieldStart, nread := r1.nread + 1);
    TargetBreak(r);
    LineFeed(r1);
    QuietPair(r, CR, r1, LF, r2);
    ReachesThen(q, url, r, DataEvents(UrlData, url), [CR, LF], r2, []);
    NoMore(DataEvents(UrlData, url));
  }

  lemma LineFeed(q: Parser)
    requires q.state.ReqLineAlmostDone? && q.nread < MAX_HEADER_SIZE
    ensures Step(q, LF) == RunState(q.(state := HeaderFieldStart, nread := q.nread + 1), [], Running, 1)
  {
    QuietStep(q, LF, q.(state := HeaderFieldStart, nread := q.nread + 1));
  }

  /** SOURCE may name the protocol ICE. */
  lemma IceName(q: Parser)
    requires q.state.ReqHttpStart? && q.meth.SOURCE? && q.nread + 3 <= MAX_HEADER_SIZE
    ensures Reaches(q, ['I' as int, 'C' as int] + ['E' as int], q.(state := ReqHttpHTTP, nread := q.nread + 3), [])
  {
    hide Run, Step;
    var q2, q3 := q.(state := ReqHttpIC, nread := q.nread + 2), q.(state := ReqHttpHTTP, nread := q.nread + 3);
    VersionPair(q, 'I' as int, ReqHttpI, 'C' as int, q2);
    QuietStep(q2, 'E' as int, q3);
    ReachesStep(q2, 'E' as int, q3, []);
    ReachesThen(q, ['I' as int, 'C' as int], q2, [], ['E' as int], q3, []);
  }
}
