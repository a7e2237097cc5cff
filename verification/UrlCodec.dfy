/** `UrlEncode` and `UrlDecode`. */
module UrlCodec {
  import opened Options
  import opened ByteBlocks

  const SPACE := 32
  const PLUS := '+' as int
  const PERCENT := '%' as int
  const EQUALS := '=' as int
  const AMP := '&' as int

  /** The table `uri_chars`: letters, digits, `-`, `.`, `_`, `~`, and also `=`. */
  predicate Unreserved(c: byte) {
    48 <= c <= 57 || 65 <= c <= 90 || 97 <= c <= 122 || c == '-' as int || c == '.' as int || c == '_' as int
       || c == '~' as int || c == EQUALS
  }

  function HexDigit(v: int): byte
    requires 0 <= v < 16
  {
    if v < 10 then 48 + v else 55 + v
  }

  predicate IsXDigit(c: byte) { 48 <= c <= 57 || 65 <= c <= 70 || 97 <= c <= 102 }

  /** The table `xdigit_chars`. */
  function XDigit(c: byte): (v: int)
    ensures 0 <= v < 16
  {
    var c: int := c;
    if 48 <= c <= 57 then c - 48 else if 65 <= c <= 70 then c - 55 else if 97 <= c <= 102 then c - 87 else 0
  }

  function EncodeByte(c: byte, plus: bool): seq<byte> {
    if Unreserved(c) then [c]
    else if c == SPACE && plus then [PLUS]
    else [PERCENT, HexDigit(c / 16), HexDigit(c % 16)]
  }

  function Encode(s: seq<byte>, plus: bool): seq<byte> {
    if s == [] then [] else EncodeByte(s[0], plus) + Encode(s[1..], plus)
  }

  predicate Escape(s: seq<byte>) { |s| > 2 && s[0] == PERCENT && IsXDigit(s[1]) && IsXDigit(s[2]) }

  function Decode(s: seq<byte>, plus: bool): seq<byte> {
    if s == [] then []
    else if s[0] == PLUS && plus then [SPACE] + Decode(s[1..], plus)
    else if Escape(s) then [XDigit(s[1]) * 16 + XDigit(s[2])] + Decode(s[3..], plus)
    else [s[0]] + Decode(s[1..], plus)
  }

  // ---------- which characters are escaped ----------

  const HEX_DIGITS := "0123456789ABCDEF"

  lemma HexDigitIs(v: int)
    requires 0 <= v < 16
    ensures |HEX_DIGITS| == 16 && HexDigit(v) as char == HEX_DIGITS[v]
  {
  }

  /** Section 2.3 of RFC 3986, and the equals sign: these bytes go out as they are. A space may become a plus sign;
      every other byte becomes a percent sign and its two upper-case hexadecimal digits. */
  lemma EscapedExactly(c: byte, plus: bool)
    ensures var e := EncodeByte(c, plus); var ch := c as char;
      if 'A' <= ch <= 'Z' || 'a' <= ch <= 'z' || '0' <= ch <= '9' || ch in "-._~=" then e == [c]
      else if ch == ' ' && plus then e == ['+' as int]
      else |e| == 3 && e[0] as char == '%' && |HEX_DIGITS| == 16
           && e[1] as char == HEX_DIGITS[c / 16] && e[2] as char == HEX_DIGITS[c % 16]
  {
    HexDigitIs(c / 16);
    HexDigitIs(c % 16);
    hide HEX_DIGITS;
  }

  // ---------- round trip ----------

  lemma DecodeByte(c: byte, a: bool, b: bool, rest: seq<byte>)
    ensures Decode(EncodeByte(c, a) + rest, b) == [if c == SPACE && a && !b then PLUS else c] + Decode(rest, b)
  {
    var s := EncodeByte(c, a) + rest;
    if Unreserved(c) || (c == SPACE && a) {
      assert s[1..] == rest;
    } else {
      assert s[0] == PERCENT && s[1] == HexDigit(c / 16) && s[2] == HexDigit(c % 16);
      assert s[3..] == rest;
      XDigitInverts(c / 16);
      XDigitInverts(c % 16);
    }
  }

  lemma XDigitInverts(v: int)
    requires 0 <= v < 16
    ensures IsXDigit(HexDigit(v)) && XDigit(HexDigit(v)) == v
  {
  }

  /** Decoding inverts encoding, for each pair of space modes exactly when no space was written as a plus sign that
      the decoder does not read as one. */
  lemma {:induction false} DecodeEncode(s: seq<byte>, a: bool, b: bool)
    ensures Decode(Encode(s, a), b) == s <==> !(a && !b && SPACE in s)
    ensures |Decode(Encode(s, a), b)| == |s|
  {
    hide EncodeByte, Decode;
    if s != [] {
      DecodeByte(s[0], a, b, Encode(s[1..], a));
      DecodeEncode(s[1..], a, b);
      assert s == [s[0]] + s[1..];
      var back := Decode(Encode(s, a), b);
      assert back[1..] == Decode(Encode(s[1..], a), b);
    } else {
      DecodeNothing(b);
    }
  }

  /** A single space, encoded as a plus sign and decoded in the other mode. */
  lemma SpaceComesBackAsPlus()
    ensures Decode(Encode([SPACE], true), false) == [PLUS]
  {
    var one := [SPACE];
    assert one[1..] == [];
    assert Encode(one, true) == EncodeByte(SPACE, true) + Encode(one[1..], true);
    DecodeByte(SPACE, true, false, []);
    assert EncodeByte(SPACE, true) + [] == EncodeByte(SPACE, true);
  }

  lemma DecodeNothing(b: bool)
    ensures Decode([], b) == []
  {
  }

  lemma {:induction false} EncodeConcat(a: seq<byte>, b: seq<byte>, plus: bool)
    ensures Encode(a + b, plus) == Encode(a, plus) + Encode(b, plus)
    decreases |a|
  {
    hide EncodeByte;
    if a == [] {
      assert a + b == b;
    } else {
      assert (a + b)[1..] == a[1..] + b;
      EncodeConcat(a[1..], b, plus);
    }
  }

  // ---------- the loops ----------

  /** What has been produced: the lazily made buffer, or so far just the input itself. */
  function Produced(ss: Option<seq<byte>>, str: seq<byte>, i: nat): seq<byte>
    requires i <= |str|
  {
    match ss case None => str[..i] case Some(x) => x
  }

  method UrlEncode(str: seq<byte>, plus: bool) returns (r: seq<byte>)
    ensures r == Encode(str, plus)
  {
    hide Unreserved, HexDigit, Encode;
    var ss: Option<seq<byte>> := None;
    Joined([], [], Encode(str, plus));
    assert str[0..] == str;
    for i := 0 to |str|
      invariant Produced(ss, str, i) + Encode(str[i..], plus) == Encode(str, plus)
    {
      var c := str[i];
      ghost var before := Produced(ss, str, i);
      EncodeStep(str, i, plus);
      if !Unreserved(c) {
        if ss.None? { ss := Some(str[..i]); }
        if c == SPACE && plus {
          ss := Some(ss.value + [PLUS]);
        } else {
          ss := Some(ss.value + [PERCENT]);
          ss := Some(ss.value + [HexDigit(c / 16)]);
          ss := Some(ss.value + [HexDigit(c % 16)]);
        }
      } else if ss.Some? {
        ss := Some(ss.value + [c]);
      }
      assert Produced(ss, str, i + 1) == before + EncodeByte(c, plus);
      Joined(before, EncodeByte(c, plus), Encode(str[i + 1..], plus));
    }
    EncodeNothing(plus);
    assert str[|str|..] == [] && str[..|str|] == str;
    Joined(Produced(ss, str, |str|), [], []);
    r := match ss case None => str case Some(x) => x;
  }

  method UrlDecode(str: seq<byte>, plus: bool) returns (r: seq<byte>)
    ensures r == Decode(str, plus)
  {
    hide XDigit, IsXDigit, Decode;
    var ss: Option<seq<byte>> := None;
    var c := 0;
    Joined([], [], Decode(str, plus));
    assert str[0..] == str;
    while c < |str|
      invariant 0 <= c <= |str| && Produced(ss, str, c) + Decode(str[c..], plus) == Decode(str, plus)
    {
      ghost var before, was := Produced(ss, str, c), c;
      DecodeStep(str, c, plus);
      if str[c] == PLUS && plus {
        if ss.None? { ss := Some(str[..c]); }
        ss := Some(ss.value + [SPACE]);
        c := c + 1;
      } else if str[c] == PERCENT && c + 2 < |str| && IsXDigit(str[c + 1]) && IsXDigit(str[c + 2]) {
        if ss.None? { ss := Some(str[..c]); }
        ss := Some(ss.value + [XDigit(str[c + 1]) * 16 + XDigit(str[c + 2])]);
        c := c + 3;
      } else {
        if ss.Some? { ss := Some(ss.value + [str[c]]); }
        assert str[..c + 1] == str[..c] + [str[c]];
        c := c + 1;
      }
      ghost var piece := Piece(str, was, plus);
      assert Produced(ss, str, c) == before + piece;
      Joined(before, piece, Decode(str[c..], plus));
    }
    DecodeNothing(plus);
    assert str[|str|..] == [] && str[..|str|] == str;
    Joined(Produced(ss, str, |str|), [], []);
    r := match ss case None => str case Some(x) => x;
  }

  lemma Joined(a: seq<byte>, b: seq<byte>, c: seq<byte>)
    ensures a + b + c == a + (b + c) && [] + c == c && a + [] == a
  {
  }

  lemma EncodeNothing(plus: bool)
    ensures Encode([], plus) == []
  {
  }

  lemma EncodeStep(str: seq<byte>, i: nat, plus: bool)
    requires i < |str|
    ensures Encode(str[i..], plus) == EncodeByte(str[i], plus) + Encode(str[i + 1..], plus)
  {
    assert str[i..][1..] == str[i + 1..];
  }

  predicate EscapeAt(str: seq<byte>, c: nat) {
    c + 2 < |str| && str[c] == PERCENT && IsXDigit(str[c + 1]) && IsXDigit(str[c + 2])
  }

  /** What the decoder makes of the input at `c`. */
  function Piece(str: seq<byte>, c: nat, plus: bool): seq<byte>
    requires c < |str|
  {
    if str[c] == PLUS && plus then [SPACE]
    else if EscapeAt(str, c) then [XDigit(str[c + 1]) * 16 + XDigit(str[c + 2])]
    else [str[c]]
  }

  lemma DecodeStep(str: seq<byte>, c: nat, plus: bool)
    requires c < |str|
    ensures var n := if !(str[c] == PLUS && plus) && EscapeAt(str, c) then 3 else 1;
      Decode(str[c..], plus) == Piece(str, c, plus) + Decode(str[c + n..], plus)
  {
    hide IsXDigit, XDigit;
    var s := str[c..];
    assert s[1..] == str[c + 1..];
    if EscapeAt(str, c) { assert s[1] == str[c + 1] && s[2] == str[c + 2] && s[3..] == str[c + 3..]; }
    if Escape(s) { assert EscapeAt(str, c); }
  }

  /** A text without an escape, and without a plus sign that is read as a space, is left as it is. */
  lemma {:induction false} PlainTextStays(s: seq<byte>, plus: bool)
    requires forall i :: 0 <= i < |s| ==> !EscapeAt(s, i) && !(s[i] == PLUS && plus)
    ensures Decode(s, plus) == s
  {
    hide IsXDigit;
    if s != [] {
      assert !EscapeAt(s, 0);
      forall i | 0 <= i < |s[1..]| ensures !EscapeAt(s[1..], i) { assert !EscapeAt(s, i + 1); }
      PlainTextStays(s[1..], plus);
      assert s == [s[0]] + s[1..];
    }
  }
}
