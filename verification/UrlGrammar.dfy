/** What `http_parser_parse_url` and `http_parse_host` make of a URL, as the strings of its parts: the reference the
    offset-keeping loops in UrlParser.dfy are proved against. */
module UrlGrammar {
  import opened Options
  import opened HttpGrammar
  import opened HttpStep

  type Text = seq<byte>

  // ---------- the outer walk ----------

  datatype Url = Url(state: State, foundAt: bool, schema: Text, server: Text, path: Text, query: Text, fragment: Text)

  function Start(isConnect: bool): Url {
    Url(if isConnect then ReqServerStart else ReqSpacesBeforeUrl, false, [], [], [], [], [])
  }

  predicate Delimiter(s: State) {
    s.ReqSchemaSlash? || s.ReqSchemaSlashSlash? || s.ReqServerStart? || s.ReqQueryStringStart? || s.ReqFragmentStart?
  }

  /** One character: it belongs to the field its new state names, or to none. */
  function Step(u: Url, ch: byte): Option<Url> {
    var s := ParseUrlChar(u.state, ch);
    var u := u.(state := s);
    match s
    case ReqSchema => Some(u.(schema := u.schema + [ch]))
    case ReqServerWithAt => Some(u.(foundAt := true, server := u.server + [ch]))
    case ReqServer => Some(u.(server := u.server + [ch]))
    case ReqPath => Some(u.(path := u.path + [ch]))
    case ReqQueryString => Some(u.(query := u.query + [ch]))
    case ReqFragment => Some(u.(fragment := u.fragment + [ch]))
    case _ => if Delimiter(s) then Some(u) else None
  }

  function Walk(u: Url, t: Text): Option<Url>
    decreases |t|
  {
    if t == [] then Some(u)
    else match Step(u, t[0])
      case None => None
      case Some(u) => Walk(u, t[1..])
  }

  // ---------- the host ----------

  datatype HostState =
    | HostDead | UserinfoStart | Userinfo | HostStart | V6Start | Host | V6 | V6End | V6ZoneStart | V6Zone
    | PortStart | Port

  function HostChar(s: HostState, ch: byte): HostState {
    match s
    case Userinfo => UserinfoChar(ch)
    case UserinfoStart => UserinfoChar(ch)
    case HostStart => if ch == '[' as int then V6Start else if IsHostChar(ch) then Host else HostDead
    case Host => if IsHostChar(ch) then Host else if ch == ':' as int then PortStart else HostDead
    case V6End => if ch == ':' as int then PortStart else HostDead
    case V6 => if ch == ']' as int then V6End else if ch == '%' as int then V6ZoneStart else V6Char(ch)
    case V6Start => V6Char(ch)
    case V6Zone => if ch == ']' as int then V6End else ZoneChar(ch)
    case V6ZoneStart => ZoneChar(ch)
    case Port => if IsNum(ch) then Port else HostDead
    case PortStart => if IsNum(ch) then Port else HostDead
    case HostDead => HostDead
  }

  function UserinfoChar(ch: byte): HostState {
    if ch == '@' as int then HostStart else if IsUserinfoChar(ch) then Userinfo else HostDead
  }

  function V6Char(ch: byte): HostState {
    if IsHex(ch) || ch == ':' as int || ch == '.' as int then V6 else HostDead
  }

  function ZoneChar(ch: byte): HostState {
    if IsAlphaNum(ch) || ch == '%' as int || ch == '.' as int || ch == '-' as int || ch == '_' as int
       || ch == '~' as int
    then V6Zone else HostDead
  }

  datatype HostParts = HostParts(state: HostState, userinfo: Text, host: Text, port: Text)

  function HostBegin(foundAt: bool): HostParts { HostParts(if foundAt then UserinfoStart else HostStart, [], [], []) }

  function HostStep(h: HostParts, ch: byte): Option<HostParts> {
    var s := HostChar(h.state, ch);
    var h := h.(state := s);
    match s
    case HostDead => None
    case Host => Some(h.(host := h.host + [ch]))
    case V6 => Some(h.(host := h.host + [ch]))
    case V6ZoneStart => Some(h.(host := h.host + [ch]))
    case V6Zone => Some(h.(host := h.host + [ch]))
    case Port => Some(h.(port := h.port + [ch]))
    case Userinfo => Some(h.(userinfo := h.userinfo + [ch]))
    case _ => Some(h)
  }

  function HostWalk(h: HostParts, t: Text): Option<HostParts>
    decreases |t|
  {
    if t == [] then Some(h)
    else match HostStep(h, t[0])
      case None => None
      case Some(h) => HostWalk(h, t[1..])
  }

  predicate HostDone(s: HostState) { s.Host? || s.V6End? || s.Port? || s.HostDead? }

  // ---------- the whole URL ----------

  function DigitsValue(t: Text): int {
    if t == [] then 0
    else
      var d: int := t[|t| - 1];
      DigitsValue(t[..|t| - 1]) * 10 + (d - 48)
  }

  /** The parts of an accepted URL; an empty part is one that was not set. */
  datatype Parts = Parts(schema: Text, userinfo: Text, host: Text, port: Text, path: Text, query: Text, fragment: Text)

  function Assemble(u: Url, isConnect: bool): Option<Parts> {
    if u.schema != [] && u.server == [] then None
    else
      var h := if u.server == [] then Some(HostParts(Host, [], [], [])) else HostWalk(HostBegin(u.foundAt), u.server);
      if h.None? || !HostDone(h.value.state) then None
      else
        var p := Parts(u.schema, h.value.userinfo, h.value.host, h.value.port, u.path, u.query, u.fragment);
        if isConnect && !(p.host != [] && p.port != []
           && p.schema + p.userinfo + p.path + p.query + p.fragment == []) then None
        else if PortTooBig(p.port) then None
        else Some(p)
  }

  /** Some prefix of the digits already exceeds 16 bits. */
  predicate PortTooBig(t: Text) { exists i :: 0 <= i <= |t| && DigitsValue(t[..i]) > 0xffff }

  function ParseUrl(t: Text, isConnect: bool): Option<Parts> {
    if t == [] then None
    else match Walk(Start(isConnect), t)
      case None => None
      case Some(u) => Assemble(u, isConnect)
  }

  // ---------- what the walks collect ----------

  predicate All(t: Text, p: byte -> bool) { forall i :: 0 <= i < |t| ==> p(t[i]) }

  predicate QueryTextChar(c: byte) { IsUrlChar(c) || c == '?' as int }
  predicate FragmentTextChar(c: byte) { QueryTextChar(c) || c == '#' as int }
  predicate ServerTextChar(c: byte) { IsUserinfoChar(c) || c == '[' as int || c == ']' as int || c == '@' as int }

  /** Which parts are still empty in each state. */
  predicate Layout(u: Url) {
    match u.state
    case ReqSpacesBeforeUrl => u.schema == [] && u.server == [] && u.path == [] && u.query == [] && u.fragment == []
    case ReqSchema => u.schema != [] && u.server == [] && u.path == [] && u.query == [] && u.fragment == []
    case ReqSchemaSlash => u.schema != [] && u.server == [] && u.path == [] && u.query == [] && u.fragment == []
    case ReqSchemaSlashSlash => u.schema != [] && u.server == [] && u.path == [] && u.query == [] && u.fragment == []
    case ReqServerStart => u.server == [] && u.path == [] && u.query == [] && u.fragment == []
    case ReqServer => u.server != [] && u.path == [] && u.query == [] && u.fragment == []
    case ReqServerWithAt => u.server != [] && u.path == [] && u.query == [] && u.fragment == []
    case ReqPath => u.path != [] && u.query == [] && u.fragment == []
    case ReqQueryStringStart => u.query == [] && u.fragment == []
    case ReqQueryString => u.query != [] && u.fragment == []
    case ReqFragmentStart => u.fragment == []
    case ReqFragment => u.fragment != []
    case _ => false
  }

  /** The characters of each part. */
  predicate Classes(u: Url) {
    && All(u.schema, IsAlpha) && All(u.server, ServerTextChar) && All(u.path, IsUrlChar)
    && All(u.query, QueryTextChar) && All(u.fragment, FragmentTextChar)
  }

  /** How the parts begin, and whether an `@` was seen. */
  predicate Fronts(u: Url) { Beginnings(u) && (u.foundAt <==> '@' as int in u.server) }

  predicate Beginnings(u: Url) {
    && (u.fragment != [] ==> u.fragment[0] != '#' as int)
    && (u.path != [] ==> u.path[0] == '/' as int || (u.path[0] == '*' as int && u.schema == []))
  }

  predicate UrlInv(u: Url) { Layout(u) && Classes(u) && Fronts(u) }

  lemma Characters()
    ensures IsUrlChar('/' as int) && IsUrlChar('*' as int) && !IsUrlChar('#' as int) && !IsUserinfoChar('@' as int)
  {
  }

  lemma AppendedChar(t: Text, ch: byte)
    ensures forall c :: c in t + [ch] <==> c in t || c == ch
  {
  }

  lemma StepLayout(u: Url, ch: byte)
    requires Layout(u)
    ensures Step(u, ch).Some? ==> Layout(Step(u, ch).value)
  {
    hide IsAlpha, IsUserinfoChar, IsUrlChar;
  }

  lemma StepClasses(u: Url, ch: byte)
    requires Classes(u)
    ensures Step(u, ch).Some? ==> Classes(Step(u, ch).value)
  {
    hide IsAlpha, IsUserinfoChar, IsUrlChar;
    Characters();
  }

  lemma StepBeginnings(u: Url, ch: byte)
    requires Layout(u) && Beginnings(u)
    ensures Step(u, ch).Some? ==> Beginnings(Step(u, ch).value)
  {
    hide IsAlpha, IsUserinfoChar, IsUrlChar;
    Characters();
  }

  lemma StepFronts(u: Url, ch: byte)
    requires Layout(u) && Fronts(u)
    ensures Step(u, ch).Some? ==> Fronts(Step(u, ch).value)
  {
    hide IsAlpha, IsUserinfoChar, IsUrlChar, Layout, Beginnings;
    StepBeginnings(u, ch);
    Characters();
    AppendedChar(u.server, ch);
  }

  lemma StepInv(u: Url, ch: byte)
    requires UrlInv(u)
    ensures Step(u, ch).Some? ==> UrlInv(Step(u, ch).value)
  {
    hide Step, Layout, Classes, Fronts;
    StepLayout(u, ch);
    StepClasses(u, ch);
    StepFronts(u, ch);
  }

  lemma {:induction false} WalkInv(u: Url, t: Text)
    requires UrlInv(u)
    ensures Walk(u, t).Some? ==> UrlInv(Walk(u, t).value)
    decreases |t|
  {
    hide UrlInv, Step;
    if t != [] && Step(u, t[0]).Some? {
      StepInv(u, t[0]);
      WalkInv(Step(u, t[0]).value, t[1..]);
    }
  }

  lemma {:induction false} WalkAppend(u: Url, a: Text, b: Text)
    ensures Walk(u, a + b) == match Walk(u, a) case None => None case Some(v) => Walk(v, b)
    decreases |a|
  {
    hide Step;
    if a == [] {
      assert a + b == b;
    } else {
      assert (a + b)[1..] == a[1..] + b;
      if Step(u, a[0]).Some? { WalkAppend(Step(u, a[0]).value, a[1..], b); }
    }
  }

  lemma {:induction false} HostWalkAppend(h: HostParts, a: Text, b: Text)
    ensures HostWalk(h, a + b) == match HostWalk(h, a) case None => None case Some(v) => HostWalk(v, b)
    decreases |a|
  {
    hide HostStep;
    if a == [] {
      assert a + b == b;
    } else {
      assert (a + b)[1..] == a[1..] + b;
      if HostStep(h, a[0]).Some? { HostWalkAppend(HostStep(h, a[0]).value, a[1..], b); }
    }
  }

  /** What holds of the host's parts; `v6` if a bracket was opened. */
  predicate HostInv(h: HostParts, v6: bool) {
    && All(h.userinfo, IsUserinfoChar) && All(h.host, IsUserinfoChar) && All(h.port, IsNum)
    && (!v6 ==> All(h.host, IsHostChar))
    && match h.state
       case UserinfoStart => h.userinfo == [] && h.host == [] && h.port == [] && !v6
       case Userinfo => h.userinfo != [] && h.host == [] && h.port == [] && !v6
       case HostStart => h.host == [] && h.port == [] && !v6
       case V6Start => h.host == [] && h.port == [] && v6
       case Host => h.host != [] && h.port == [] && !v6
       case V6 => h.host != [] && h.port == [] && v6
       case V6ZoneStart => h.host != [] && h.port == [] && v6
       case V6Zone => h.host != [] && h.port == [] && v6
       case V6End => h.host != [] && h.port == [] && v6
       case PortStart => h.host != [] && h.port == []
       case Port => h.host != [] && h.port != []
       case HostDead => false
  }

  lemma HostStepInv(h: HostParts, v6: bool, ch: byte)
    requires HostInv(h, v6)
    ensures HostStep(h, ch).Some? ==> HostInv(HostStep(h, ch).value, v6 || ch == '[' as int)
  {
    hide IsUserinfoChar, IsHostChar, IsNum, IsHex, IsAlphaNum;
    Brackets();
    HostIsUserinfo(ch);
  }

  lemma HostIsUserinfo(c: byte)
    ensures IsHostChar(c) || IsHex(c) || IsAlphaNum(c) || IsNum(c) ==> IsUserinfoChar(c)
    ensures c in {'%' as int, '.' as int, '-' as int, '_' as int, '~' as int, ':' as int} ==> IsUserinfoChar(c)
  {
  }

  lemma Brackets()
    ensures !IsUserinfoChar('[' as int) && !IsHostChar('[' as int) && !IsNum('[' as int) && !IsHex('[' as int)
       && !IsAlphaNum('[' as int)
  {
  }

  lemma {:induction false} HostWalkInv(h: HostParts, v6: bool, t: Text)
    requires HostInv(h, v6)
    ensures HostWalk(h, t).Some? ==> HostInv(HostWalk(h, t).value, v6 || '[' as int in t)
    decreases |t|
  {
    hide HostInv, HostStep;
    if t != [] && HostStep(h, t[0]).Some? {
      HostStepInv(h, v6, t[0]);
      HostWalkInv(HostStep(h, t[0]).value, v6 || t[0] == '[' as int, t[1..]);
      assert t == [t[0]] + t[1..];
    }
  }
}
