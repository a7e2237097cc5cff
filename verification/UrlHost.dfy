/** Hosts in brackets: IPv6 literals with an optional zone and port (section 3.2.2 of RFC 3986, and RFC 6874). */
module UrlHost {
  import opened Options
  import opened HttpGrammar
  import opened UrlGrammar
  import opened Uris

  predicate V6Text(c: byte) { IsHex(c) || c == ':' as int || c == '.' as int }

  predicate ZoneText(c: byte) {
    IsAlphaNum(c) || c == '%' as int || c == '.' as int || c == '-' as int || c == '_' as int || c == '~' as int
  }

  lemma NoBrackets(c: byte)
    ensures V6Text(c) || ZoneText(c) ==> c != ']' as int
    ensures V6Text(c) ==> c != '%' as int
  {
  }

  lemma {:induction false} V6Run(h: HostParts, t: Text)
    requires (h.state.V6Start? && t != []) || h.state.V6?
    requires All(t, V6Text)
    ensures HostWalk(h, t) == Some(h.(host := h.host + t, state := V6))
    decreases |t|
  {
    hide IsHex;
    if t == [] {
      assert h.host + t == h.host;
    } else {
      NoBrackets(t[0]);
      V6Run(h.(host := h.host + [t[0]], state := V6), t[1..]);
      assert h.host + [t[0]] + t[1..] == h.host + t;
    }
  }

  lemma {:induction false} ZoneRun(h: HostParts, t: Text)
    requires (h.state.V6ZoneStart? && t != []) || h.state.V6Zone?
    requires All(t, ZoneText)
    ensures HostWalk(h, t) == Some(h.(host := h.host + t, state := V6Zone))
    decreases |t|
  {
    hide IsAlphaNum;
    if t == [] {
      assert h.host + t == h.host;
    } else {
      NoBrackets(t[0]);
      ZoneRun(h.(host := h.host + [t[0]], state := V6Zone), t[1..]);
      assert h.host + [t[0]] + t[1..] == h.host + t;
    }
  }

  function ZonePart(zone: Text): Text { if zone == [] then [] else ['%' as int] + zone }

  function PortPart(port: Text): Text { if port == [] then [] else [':' as int] + port }

  lemma Zone(h: HostParts, zone: Text)
    requires h.state.V6? && All(zone, ZoneText)
    ensures HostWalk(h, ZonePart(zone))
         == Some(h.(host := h.host + ZonePart(zone), state := if zone == [] then V6 else V6Zone))
  {
    hide IsAlphaNum;
    if zone == [] {
      assert h.host + ZonePart(zone) == h.host;
    } else {
      HostCons(h, '%' as int, zone);
      ZoneRun(h.(host := h.host + ['%' as int], state := V6ZoneStart), zone);
      assert h.host + ['%' as int] + zone == h.host + ZonePart(zone);
    }
  }

  lemma Ending(h: HostParts, port: Text)
    requires (h.state.V6? || h.state.V6Zone?) && h.port == [] && All(port, IsNum)
    ensures HostWalk(h, [']' as int] + PortPart(port))
         == Some(h.(port := port, state := if port == [] then V6End else Port))
  {
    hide IsNum;
    var e := h.(state := V6End);
    HostCons(h, ']' as int, PortPart(port));
    if port == [] {
      HostNothing(e);
    } else {
      HostCons(e, ':' as int, port);
      PortRun(e.(state := PortStart), port);
      assert [] + port == port;
    }
  }

  /** `[` literal, zone `]` and port: the host is what stands in the brackets, and the port what follows the colon. */
  lemma BracketHost(v6: Text, zone: Text, port: Text)
    requires v6 != [] && All(v6, V6Text) && All(zone, ZoneText) && All(port, IsNum)
    ensures HostWalk(HostBegin(false), ['[' as int] + v6 + ZonePart(zone) + ([']' as int] + PortPart(port)))
         == Some(HostParts(if port == [] then V6End else Port, [], v6 + ZonePart(zone), port))
  {
    hide HostWalk, V6Text, ZoneText, IsNum, ZonePart, PortPart;
    var h := HostBegin(false);
    var s := h.(state := V6Start);
    HostCons(h, '[' as int, v6);
    V6Run(s, v6);
    assert [] + v6 == v6;
    var a := s.(host := v6, state := V6);
    Zone(a, zone);
    var b := a.(host := v6 + ZonePart(zone), state := if zone == [] then V6 else V6Zone);
    Ending(b, port);
    HostWalkAppend(h, ['[' as int] + v6, ZonePart(zone));
    HostWalkAppend(h, ['[' as int] + v6 + ZonePart(zone), [']' as int] + PortPart(port));
  }
}
