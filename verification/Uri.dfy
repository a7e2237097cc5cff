/** `URI`: created from a URL, printed by `toString`, and read back. */
module Uris {
  import opened Options
  import opened HttpGrammar
  import opened UrlGrammar

  datatype Uri = Uri(scheme: Text, userinfo: Text, host: Text, path: Text, query: Text, fragment: Text, port: int) {
    function GetPath(): Text { if path == [] then ['/' as int] else path }

    function GetPort(): int {
      if port != 0 then port
      else if PlainScheme(scheme) then 80
      else if SecureScheme(scheme) then 443
      else port
    }

    predicate IsDefaultPort() {
      if PlainScheme(scheme) then port == 80 else if SecureScheme(scheme) then port == 443 else false
    }

    function ToString(): Text {
      scheme + Ascii("://") + Authority() + GetPath()
      + (if query == [] then [] else ['?' as int] + query)
      + (if fragment == [] then [] else ['#' as int] + fragment)
    }

    function Authority(): Text {
      (if userinfo == [] then [] else userinfo + ['@' as int]) + host
      + (if IsDefaultPort() then [] else [':' as int] + Decimal(GetPort()))
    }

    /** What the getters show. */
    function Shown(): Uri { this.(path := GetPath(), port := GetPort()) }
  }

  function Ascii(s: string): Text { seq(|s|, i requires 0 <= i < |s| => if s[i] < 128 as char then s[i] as int else 0) }

  predicate PlainScheme(s: Text) { s == Ascii("http") || s == Ascii("ws") }
  predicate SecureScheme(s: Text) { s == Ascii("https") || s == Ascii("wss") }

  /** `std::to_string`. */
  function Decimal(n: int): Text {
    if n < 10 then [if n < 0 then 48 else 48 + n] else Decimal(n / 10) + [48 + n % 10]
  }

  /** `URI::Create`. */
  function Created(url: Text): Option<Uri> {
    match ParseUrl(url, false)
    case None => None
    case Some(p) =>
      var port := if p.port != [] then DigitsValue(p.port)
                  else if PlainScheme(p.schema) then 80 else if SecureScheme(p.schema) then 443 else 0;
      Some(Uri(p.schema, p.userinfo, p.host, p.path, p.query, p.fragment, port))
  }

  // ---------- decimal ----------

  lemma {:induction false} DecimalValue(n: nat)
    ensures Decimal(n) != [] && All(Decimal(n), IsNum) && DigitsValue(Decimal(n)) == n
  {
    if n >= 10 {
      DecimalValue(n / 10);
      var d := Decimal(n);
      assert d[..|d| - 1] == Decimal(n / 10);
    } else {
      var d := Decimal(n);
      assert d[..0] == [];
    }
  }

  /** A prefix of digits is worth no more than the whole. */
  lemma {:induction false} PrefixSmaller(t: Text, i: nat)
    requires All(t, IsNum) && i <= |t|
    ensures 0 <= DigitsValue(t[..i]) <= DigitsValue(t)
    decreases |t|
  {
    if t == [] {
      assert t[..i] == [];
    } else {
      var init := t[..|t| - 1];
      if i < |t| {
        PrefixSmaller(init, i);
        assert init[..i] == t[..i];
      } else {
        PrefixSmaller(init, |init|);
        assert init[..|init|] == init;
        assert t[..i] == t;
      }
    }
  }

  lemma SmallPortFits(t: Text)
    requires All(t, IsNum) && 0 <= DigitsValue(t) <= 0xffff
    ensures !PortTooBig(t)
  {
    forall i | 0 <= i <= |t| ensures DigitsValue(t[..i]) <= 0xffff { PrefixSmaller(t, i); }
  }

  // ---------- walking the parts of a printed URI ----------

  lemma {:induction false} SchemaRun(u: Url, t: Text)
    requires u.state.ReqSchema? && All(t, IsAlpha)
    ensures Walk(u, t) == Some(u.(schema := u.schema + t))
    decreases |t|
  {
    hide IsAlpha;
    if t == [] {
      assert u.schema + t == u.schema;
    } else {
      AlphaVisible(t[0]);
      SchemaRun(u.(schema := u.schema + [t[0]]), t[1..]);
      assert u.schema + [t[0]] + t[1..] == u.schema + t;
    }
  }

  lemma AlphaVisible(c: byte)
    ensures IsAlpha(c) ==> c != SP && c != CR && c != LF && c != TAB && c != 12
  {
  }

  lemma UrlVisible(c: byte)
    ensures FragmentTextChar(c) ==> c != SP && c != CR && c != LF && c != TAB && c != 12
    ensures IsUserinfoChar(c) ==>
      c != SP && c != CR && c != LF && c != TAB && c != 12 && c != '@' as int && c != '/' as int && c != '?' as int
  {
  }

  /** Characters of user info, host and port keep the walk inside the server part. */
  lemma {:induction false} ServerRun(u: Url, t: Text)
    requires u.state.ReqServerStart? || u.state.ReqServer? || u.state.ReqServerWithAt?
    requires All(t, IsUserinfoChar)
    ensures Walk(u, t) == Some(u.(server := u.server + t, state := if t == [] then u.state else ReqServer))
    decreases |t|
  {
    hide IsUserinfoChar;
    if t == [] {
      assert u.server + t == u.server;
    } else {
      UrlVisible(t[0]);
      ServerRun(u.(server := u.server + [t[0]], state := ReqServer), t[1..]);
      assert u.server + [t[0]] + t[1..] == u.server + t;
    }
  }

  lemma {:induction false} PathRun(u: Url, t: Text)
    requires u.state.ReqPath? && All(t, IsUrlChar)
    ensures Walk(u, t) == Some(u.(path := u.path + t))
    decreases |t|
  {
    hide IsUrlChar;
    if t == [] {
      assert u.path + t == u.path;
    } else {
      UrlVisible(t[0]);
      PathRun(u.(path := u.path + [t[0]]), t[1..]);
      assert u.path + [t[0]] + t[1..] == u.path + t;
    }
  }

  lemma {:induction false} QueryRun(u: Url, t: Text)
    requires (u.state.ReqQueryStringStart? || u.state.ReqQueryString?) && All(t, QueryTextChar)
    ensures Walk(u, t) == Some(u.(query := u.query + t, state := if t == [] then u.state else ReqQueryString))
    decreases |t|
  {
    hide IsUrlChar;
    if t == [] {
      assert u.query + t == u.query;
    } else {
      UrlVisible(t[0]);
      QueryRun(u.(query := u.query + [t[0]], state := ReqQueryString), t[1..]);
      assert u.query + [t[0]] + t[1..] == u.query + t;
    }
  }

  lemma {:induction false} FragmentRun(u: Url, t: Text)
    requires (u.state.ReqFragmentStart? && (t != [] ==> t[0] != '#' as int)) || u.state.ReqFragment?
    requires All(t, FragmentTextChar)
    ensures Walk(u, t) == Some(u.(fragment := u.fragment + t, state := if t == [] then u.state else ReqFragment))
    decreases |t|
  {
    hide IsUrlChar;
    if t == [] {
      assert u.fragment + t == u.fragment;
    } else {
      UrlVisible(t[0]);
      FragmentRun(u.(fragment := u.fragment + [t[0]], state := ReqFragment), t[1..]);
      assert u.fragment + [t[0]] + t[1..] == u.fragment + t;
    }
  }

  // ---------- shapes ----------

  /** What the parser guarantees of a URI with a scheme. */
  predicate Shape(u: Uri) {
    && u.scheme != [] && All(u.scheme, IsAlpha) && All(u.userinfo, IsUserinfoChar)
    && u.host != [] && All(u.host, IsUserinfoChar)
    && All(u.path, IsUrlChar) && (u.path != [] ==> u.path[0] == '/' as int)
    && All(u.query, QueryTextChar) && All(u.fragment, FragmentTextChar)
    && (u.fragment != [] ==> u.fragment[0] != '#' as int)
    && 0 <= u.port <= 0xffff
  }

  lemma CreatedShape(url: Text)
    requires Created(url).Some? && Created(url).value.scheme != []
    ensures Shape(Created(url).value)
  {
    hide Walk, HostWalk;
    WalkInv(Start(false), url);
    var w := Walk(Start(false), url).value;
    HostWalkInv(HostBegin(w.foundAt), false, w.server);
    var p := ParseUrl(url, false).value;
    PrefixSmaller(p.port, 0);
    assert p.port[..|p.port|] == p.port;
  }

  /** The server part as printed: its characters, and exactly one `@` if there is user info. */
  function Tail(u: Uri): Text { u.host + if u.IsDefaultPort() then [] else [':' as int] + Decimal(u.GetPort()) }

  lemma PortChars(u: Uri)
    requires 0 <= u.port <= 0xffff
    ensures 0 <= u.GetPort() <= 0xffff && All([':' as int] + Decimal(u.GetPort()), IsUserinfoChar)
  {
    hide Decimal, DigitsValue, IsUserinfoChar, IsNum;
    DecimalValue(u.GetPort());
    HostIsUserinfo(':' as int);
    forall c: byte | IsNum(c) ensures IsUserinfoChar(c) { HostIsUserinfo(c); }
  }

  lemma TailChars(u: Uri)
    requires Shape(u)
    ensures Tail(u) != [] && All(Tail(u), IsUserinfoChar)
    ensures u.Authority() == (if u.userinfo == [] then Tail(u) else u.userinfo + ['@' as int] + Tail(u))
  {
    hide Decimal, Uri.GetPort, Uri.IsDefaultPort, IsUserinfoChar;
    PortChars(u);
    if u.userinfo == [] {
      assert u.Authority() == Tail(u);
    } else {
      assert u.Authority() == u.userinfo + ['@' as int] + Tail(u);
    }
  }

  lemma WalkCons(w: Url, c: byte, t: Text)
    ensures Walk(w, [c] + t) == match Step(w, c) case None => None case Some(v) => Walk(v, t)
  {
    assert ([c] + t)[1..] == t;
  }

  /** The delimiters a printed URI holds, each where it stands. */
  lemma Delimiters(w: Url)
    ensures w.state.ReqSchema? ==> Step(w, ':' as int) == Some(w.(state := ReqSchemaSlash))
    ensures w.state.ReqSchemaSlash? ==> Step(w, '/' as int) == Some(w.(state := ReqSchemaSlashSlash))
    ensures w.state.ReqSchemaSlashSlash? ==> Step(w, '/' as int) == Some(w.(state := ReqServerStart))
    ensures w.state.ReqServer? ==>
      Step(w, '@' as int) == Some(w.(state := ReqServerWithAt, foundAt := true, server := w.server + ['@' as int]))
    ensures w.state.ReqServer? ==> Step(w, '/' as int) == Some(w.(state := ReqPath, path := w.path + ['/' as int]))
    ensures w.state.ReqPath? ==> Step(w, '?' as int) == Some(w.(state := ReqQueryStringStart))
    ensures w.state.ReqPath? || w.state.ReqQueryString? ==> Step(w, '#' as int) == Some(w.(state := ReqFragmentStart))
  {
  }

  lemma WalkScheme(u: Uri)
    requires Shape(u)
    ensures Walk(Start(false), u.scheme + Ascii("://"))
         == Some(Start(false).(state := ReqServerStart, schema := u.scheme))
  {
    var t, sep := u.scheme, Ascii("://");
    var one := Start(false).(state := ReqSchema, schema := [t[0]]);
    assert Step(Start(false), t[0]) == Some(one) by { AlphaVisible(t[0]); SchemaBegins(t[0]); }
    hide Walk, Step, Ascii;
    WalkCons(Start(false), t[0], t[1..]);
    SchemaRun(one, t[1..]);
    assert [t[0]] + t[1..] == t;
    WalkAppend(Start(false), t, sep);
    WalkSeparator(one.(schema := t));
  }

  lemma SchemaBegins(c: byte)
    requires IsAlpha(c)
    ensures Step(Start(false), c) == Some(Start(false).(state := ReqSchema, schema := [c]))
  {
    AlphaVisible(c);
    assert [] + [c] == [c];
  }

  lemma WalkSeparator(w: Url)
    requires w.state.ReqSchema?
    ensures Walk(w, Ascii("://")) == Some(w.(state := ReqServerStart))
  {
    assert Ascii("://") == [':' as int] + (['/' as int] + ['/' as int]);
    hide Walk, Step, Ascii;
    Delimiters(w);
    Delimiters(w.(state := ReqSchemaSlash));
    Delimiters(w.(state := ReqSchemaSlashSlash));
    WalkCons(w, ':' as int, ['/' as int] + ['/' as int]);
    WalkCons(w.(state := ReqSchemaSlash), '/' as int, ['/' as int]);
    WalkOne(w.(state := ReqSchemaSlashSlash), '/' as int);
  }

  lemma WalkServer(w: Url, u: Uri)
    requires Shape(u) && w.state.ReqServerStart? && w.server == [] && !w.foundAt
    ensures Walk(w, u.Authority()) == Some(w.(state := ReqServer, server := u.Authority(), foundAt := u.userinfo != []))
  {
    hide Walk, Step, IsUserinfoChar, Tail;
    TailChars(u);
    hide Uri.Authority;
    if u.userinfo == [] {
      ServerRun(w, Tail(u));
      assert [] + Tail(u) == Tail(u);
    } else {
      var a, at := u.userinfo, ['@' as int];
      ServerRun(w, a);
      assert [] + a == a;
      var w1 := w.(server := a, state := ReqServer);
      WalkOne(w1, '@' as int);
      Delimiters(w1);
      var w2 := w1.(server := a + at, foundAt := true, state := ReqServerWithAt);
      ServerRun(w2, Tail(u));
      WalkAppend(w, a, at);
      WalkAppend(w, a + at, Tail(u));
    }
  }

  lemma WalkOne(w: Url, c: byte)
    ensures Walk(w, [c]) == Step(w, c)
  {
    var one := [c];
    assert one[1..] == [];
  }

  lemma WalkPath(w: Url, p: Text)
    requires w.state.ReqServer? && w.path == [] && p != [] && p[0] == '/' as int && All(p, IsUrlChar)
    ensures Walk(w, p) == Some(w.(state := ReqPath, path := p))
  {
    hide IsUrlChar, Walk, Step;
    Delimiters(w);
    WalkCons(w, p[0], p[1..]);
    assert [] + ['/' as int] == ['/' as int] == [p[0]];
    PathRun(w.(state := ReqPath, path := [p[0]]), p[1..]);
    assert [p[0]] + p[1..] == p;
  }

  lemma WalkQuery(w: Url, q: Text)
    requires w.state.ReqPath? && w.query == [] && All(q, QueryTextChar)
    ensures Walk(w, if q == [] then [] else ['?' as int] + q)
         == Some(w.(state := if q == [] then ReqPath else ReqQueryString, query := q))
  {
    hide QueryTextChar, Step;
    if q != [] {
      WalkCons(w, '?' as int, q);
      Delimiters(w);
      QueryRun(w.(state := ReqQueryStringStart), q);
      assert [] + q == q;
    }
  }

  lemma WalkFragment(w: Url, f: Text)
    requires (w.state.ReqPath? || w.state.ReqQueryString?) && w.fragment == [] && All(f, FragmentTextChar)
    requires f != [] ==> f[0] != '#' as int
    ensures Walk(w, if f == [] then [] else ['#' as int] + f)
         == Some(w.(state := if f == [] then w.state else ReqFragment, fragment := f))
  {
    hide FragmentTextChar, Step;
    if f != [] {
      WalkCons(w, '#' as int, f);
      Delimiters(w);
      FragmentRun(w.(state := ReqFragmentStart), f);
      assert [] + f == f;
    }
  }

  /** The parser's walk over a printed URI finds its parts again. */
  lemma WalkPrinted(u: Uri)
    requires Shape(u)
    ensures var w := Walk(Start(false), u.ToString());
      && w.Some? && w.value.schema == u.scheme && w.value.server == u.Authority()
      && w.value.foundAt == (u.userinfo != [])
      && w.value.path == u.GetPath() && w.value.query == u.query && w.value.fragment == u.fragment
      && (w.value.state.ReqPath? || w.value.state.ReqQueryString? || w.value.state.ReqFragment?)
  {
    hide Walk, Uri.Authority;
    var a, s, p := u.scheme + Ascii("://"), u.Authority(), u.GetPath();
    var q := if u.query == [] then [] else ['?' as int] + u.query;
    var f := if u.fragment == [] then [] else ['#' as int] + u.fragment;
    WalkScheme(u);
    var w1 := Start(false).(state := ReqServerStart, schema := u.scheme);
    WalkServer(w1, u);
    var w2 := w1.(state := ReqServer, server := s, foundAt := u.userinfo != []);
    assert All(p, IsUrlChar) by { Characters(); }
    WalkPath(w2, p);
    var w3 := w2.(state := ReqPath, path := p);
    WalkQuery(w3, u.query);
    var w4 := w3.(state := if u.query == [] then ReqPath else ReqQueryString, query := u.query);
    WalkFragment(w4, u.fragment);
    WalkAppend(Start(false), a, s);
    WalkAppend(Start(false), a + s, p);
    WalkAppend(Start(false), a + s + p, q);
    WalkAppend(Start(false), a + s + p + q, f);
    assert u.ToString() == a + s + p + q + f;
  }

  // ---------- the host of a printed URI ----------

  lemma HostCons(h: HostParts, c: byte, t: Text)
    ensures HostWalk(h, [c] + t) == match HostStep(h, c) case None => None case Some(v) => HostWalk(v, t)
  {
    assert ([c] + t)[1..] == t;
  }

  lemma {:induction false} UserinfoRun(h: HostParts, t: Text)
    requires (h.state.UserinfoStart? || h.state.Userinfo?) && All(t, IsUserinfoChar)
    ensures HostWalk(h, t) == Some(h.(userinfo := h.userinfo + t, state := if t == [] then h.state else Userinfo))
    decreases |t|
  {
    hide IsUserinfoChar;
    if t == [] {
      assert h.userinfo + t == h.userinfo;
    } else {
      UrlVisible(t[0]);
      UserinfoRun(h.(userinfo := h.userinfo + [t[0]], state := Userinfo), t[1..]);
      assert h.userinfo + [t[0]] + t[1..] == h.userinfo + t;
    }
  }

  lemma {:induction false} HostRun(h: HostParts, t: Text)
    requires (h.state.HostStart? || h.state.Host?) && All(t, IsHostChar)
    ensures HostWalk(h, t) == Some(h.(host := h.host + t, state := if t == [] then h.state else Host))
    decreases |t|
  {
    hide IsHostChar;
    if t == [] {
      assert h.host + t == h.host;
    } else {
      Brackets();
      HostRun(h.(host := h.host + [t[0]], state := Host), t[1..]);
      assert h.host + [t[0]] + t[1..] == h.host + t;
    }
  }

  lemma {:induction false} PortRun(h: HostParts, t: Text)
    requires (h.state.PortStart? || h.state.Port?) && All(t, IsNum)
    ensures HostWalk(h, t) == Some(h.(port := h.port + t, state := if t == [] then h.state else Port))
    decreases |t|
  {
    if t == [] {
      assert h.port + t == h.port;
    } else {
      PortRun(h.(port := h.port + [t[0]], state := Port), t[1..]);
      assert h.port + [t[0]] + t[1..] == h.port + t;
    }
  }

  /** The printed port: nothing for the scheme's own, else its digits. */
  function PrintedPort(u: Uri): Text { if u.IsDefaultPort() then [] else Decimal(u.GetPort()) }

  lemma WalkTail(h: HostParts, u: Uri)
    requires Shape(u) && All(u.host, IsHostChar) && h.state.HostStart? && h.host == [] && h.port == []
    ensures HostWalk(h, Tail(u))
         == Some(h.(host := u.host, port := PrintedPort(u), state := if u.IsDefaultPort() then Host else Port))
  {
    hide HostWalk, Decimal, Uri.GetPort, Uri.IsDefaultPort, DigitsValue;
    HostRun(h, u.host);
    assert [] + u.host == u.host;
    var h1 := h.(host := u.host, state := Host);
    if u.IsDefaultPort() {
      assert Tail(u) == u.host;
    } else {
      PortChars(u);
      var d := Decimal(u.GetPort());
      DecimalValue(u.GetPort());
      HostWalkAppend(h, u.host, [':' as int] + d);
      HostCons(h1, ':' as int, d);
      assert HostStep(h1, ':' as int) == Some(h1.(state := PortStart));
      PortRun(h1.(state := PortStart), d);
      assert [] + d == d;
    }
  }

  lemma WalkAuthority(u: Uri)
    requires Shape(u) && All(u.host, IsHostChar)
    ensures HostWalk(HostBegin(u.userinfo != []), u.Authority())
         == Some(HostParts(if u.IsDefaultPort() then Host else Port, u.userinfo, u.host, PrintedPort(u)))
  {
    hide HostWalk, Tail, PrintedPort, Uri.IsDefaultPort;
    TailChars(u);
    hide Uri.Authority;
    var b := HostBegin(u.userinfo != []);
    if u.userinfo == [] {
      WalkTail(b, u);
    } else {
      var a := u.userinfo;
      UserinfoRun(b, a);
      assert [] + a == a;
      var h1 := b.(userinfo := a, state := Userinfo);
      assert HostStep(h1, '@' as int) == Some(h1.(state := HostStart));
      HostCons(h1, '@' as int, Tail(u));
      HostWalkAppend(b, a, ['@' as int] + Tail(u));
      assert a + ['@' as int] + Tail(u) == a + (['@' as int] + Tail(u));
      WalkTail(h1.(state := HostStart), u);
    }
  }

  // ---------- the round trip ----------

  /** A printed URI whose host has only host characters parses to the printed parts. */
  lemma ParsePrinted(u: Uri)
    requires Shape(u) && All(u.host, IsHostChar)
    ensures ParseUrl(u.ToString(), false)
         == Some(Parts(u.scheme, u.userinfo, u.host, PrintedPort(u), u.GetPath(), u.query, u.fragment))
  {
    hide Walk, HostWalk, Uri.Authority, Uri.GetPath, PrintedPort, PortTooBig;
    WalkPrinted(u);
    WalkAuthority(u);
    assert u.Authority() != [] by { TailChars(u); }
    assert !PortTooBig(PrintedPort(u)) by { PrintedPortFits(u); }
    assert u.ToString() != [] by { assert u.ToString()[0] == u.scheme[0]; }
    hide Uri.ToString;
  }

  lemma PrintedPortFits(u: Uri)
    requires 0 <= u.port <= 0xffff
    ensures !PortTooBig(PrintedPort(u))
    ensures !u.IsDefaultPort() ==> PrintedPort(u) != [] && DigitsValue(PrintedPort(u)) == u.GetPort()
  {
    hide Decimal, DigitsValue;
    DecimalValue(u.GetPort());
    if u.IsDefaultPort() {
      assert DigitsValue([]) == 0 by { DigitsOfNothing(); }
    }
    SmallPortFits(PrintedPort(u));
  }

  lemma DigitsOfNothing()
    ensures DigitsValue([]) == 0
  {
  }

  /** For every URL with a scheme: printing the URI and creating it again shows the same to every getter exactly when
      its host has only host characters. Only an IPv6 literal can have others: it is printed without its brackets. */
  lemma PrintedUriReadsBack(url: Text)
    requires Created(url).Some? && Created(url).value.scheme != []
    ensures var u := Created(url).value; var back := Created(u.ToString());
      (back.Some? && back.value.Shown() == u.Shown()) <==> All(u.host, IsHostChar)
  {
    CreatedShape(url);
    var u := Created(url).value;
    if All(u.host, IsHostChar) {
      SameShown(u);
    } else if Created(u.ToString()).Some? {
      PrintedHost(u);
    }
  }

  lemma SameShown(u: Uri)
    requires Shape(u) && All(u.host, IsHostChar)
    ensures Created(u.ToString()).Some? && Created(u.ToString()).value.Shown() == u.Shown()
  {
    hide ParseUrl, Uri.ToString, PrintedPort, DigitsValue, PlainScheme, SecureScheme;
    ParsePrinted(u);
    PrintedPortFits(u);
    PrintedPortEmpty(u);
  }

  lemma PrintedPortEmpty(u: Uri)
    ensures u.IsDefaultPort() ==> PrintedPort(u) == []
  {
  }

  /** Whatever is read back from a printed URI has a host of host characters: no bracket was printed. */
  lemma PrintedHost(u: Uri)
    requires Shape(u) && Created(u.ToString()).Some?
    ensures All(Created(u.ToString()).value.host, IsHostChar)
  {
    hide Walk, HostWalk, Uri.Authority, PortTooBig;
    WalkPrinted(u);
    NoBracket(u);
    HostWalkInv(HostBegin(u.userinfo != []), false, u.Authority());
    hide Uri.ToString;
  }

  lemma NoBracket(u: Uri)
    requires Shape(u)
    ensures '[' as int !in u.Authority() && u.Authority() != []
  {
    hide Uri.Authority, Tail;
    TailChars(u);
    Brackets();
  }

  // ---------- an IPv6 literal ----------

  /** `http://[::1]/` */
  function LoopbackUrl(): Text {
    Ascii("http") + Ascii("://") + ['[' as int, ':' as int, ':' as int, '1' as int, ']' as int] + ['/' as int]
  }

  lemma WalkLoopback()
    ensures var w := Walk(Start(false), LoopbackUrl());
      && w.Some? && w.value.schema == Ascii("http") && !w.value.foundAt && w.value.path == ['/' as int]
      && w.value.server == ['[' as int, ':' as int, ':' as int, '1' as int, ']' as int]
      && w.value.query == [] && w.value.fragment == []
  {
    hide Walk, Step, Ascii, Shape;
    var u := Uri(Ascii("http"), [], ['h' as int], [], [], [], 80);
    HttpShape(u);
    WalkScheme(u);
    var w0 := Start(false).(state := ReqServerStart, schema := u.scheme);
    var s: Text := ['[' as int, ':' as int, ':' as int, '1' as int, ']' as int];
    var inner: Text := [':' as int, ':' as int, '1' as int];
    var w1 := w0.(state := ReqServer, server := ['[' as int]);
    BracketStep(w0, '[' as int);
    assert w0.server + ['[' as int] == ['[' as int];
    BracketStep(w1.(server := ['[' as int] + inner), ']' as int);
    ServerRun(w1, inner);
    WalkOne(w1.(server := ['[' as int] + inner), ']' as int);
    WalkAppend(w1, inner, [']' as int]);
    WalkCons(w0, '[' as int, inner + [']' as int]);
    assert s == ['[' as int] + (inner + [']' as int]) == ['[' as int] + inner + [']' as int];
    var w2 := w1.(server := s);
    WalkPath(w2, ['/' as int]);
    WalkAppend(Start(false), Ascii("http") + Ascii("://"), s);
    WalkAppend(Start(false), Ascii("http") + Ascii("://") + s, ['/' as int]);
  }

  lemma BracketStep(w: Url, c: byte)
    requires (w.state.ReqServerStart? || w.state.ReqServer?) && (c == '[' as int || c == ']' as int)
    ensures Step(w, c) == Some(w.(state := ReqServer, server := w.server + [c]))
  {
  }

  lemma HttpShape(u: Uri)
    requires u == Uri(Ascii("http"), [], ['h' as int], [], [], [], 80)
    ensures Shape(u)
  {
    assert u.scheme == ['h' as int, 't' as int, 't' as int, 'p' as int];
  }

  lemma HostLoopback()
    ensures HostWalk(HostBegin(false), ['[' as int, ':' as int, ':' as int, '1' as int, ']' as int])
         == Some(HostParts(V6End, [], [':' as int, ':' as int, '1' as int], []))
  {
    var h0 := HostBegin(false);
    var h1, h2 := h0.(state := V6Start), h0.(state := V6, host := [':' as int]);
    var h3, h4 := h2.(host := [':' as int, ':' as int]), h2.(host := [':' as int, ':' as int, '1' as int]);
    var h5 := h4.(state := V6End);
    assert h1.host + [':' as int] == h2.host && h2.host + [':' as int] == h3.host && h3.host + ['1' as int] == h4.host;
    assert HostStep(h0, '[' as int) == Some(h1) && HostStep(h1, ':' as int) == Some(h2);
    assert HostStep(h2, ':' as int) == Some(h3) && HostStep(h3, '1' as int) == Some(h4);
    assert HostStep(h4, ']' as int) == Some(h5);
    hide HostStep, HostWalk;
    var t4: Text := [']' as int];
    var t3: Text := ['1' as int] + t4;
    var t2: Text := [':' as int] + t3;
    var t1: Text := [':' as int] + t2;
    HostCons(h0, '[' as int, t1);
    HostCons(h1, ':' as int, t2);
    HostCons(h2, ':' as int, t3);
    HostCons(h3, '1' as int, t4);
    HostCons(h4, ']' as int, []);
    assert t4 == [']' as int] + [];
    HostNothing(h5);
    assert ['[' as int] + t1 == ['[' as int, ':' as int, ':' as int, '1' as int, ']' as int];
  }

  lemma HostNothing(h: HostParts)
    ensures HostWalk(h, []) == Some(h)
  {
  }

  /** The URL is accepted, and its URI is not read back. */
  lemma LoopbackIsNotReadBack()
    ensures Created(LoopbackUrl()).Some?
    ensures var u := Created(LoopbackUrl()).value; var back := Created(u.ToString());
      !(back.Some? && back.value.Shown() == u.Shown())
  {
    hide Walk, HostWalk;
    WalkLoopback();
    HostLoopback();
    assert !PortTooBig([]) by { DigitsOfNothing(); SmallPortFits([]); }
    assert LoopbackUrl() != [];
    assert Ascii("http")[0] == 'h' as int;
    assert !IsHostChar(':' as int);
    var u := Created(LoopbackUrl()).value;
    assert u.host[0] == ':' as int;
    PrintedUriReadsBack(LoopbackUrl());
  }
}
