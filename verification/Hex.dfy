/** `hexstring_from_data` and `data_from_hexstring`. */
module Hex {
  import opened Options
  import opened ByteBlocks

  function Digit(v: int): byte
    requires 0 <= v < 16
  {
    if v > 9 then v + 97 - 10 else v + 48
  }

  function Nibble(c: byte): Option<int> {
    var c: int := c;
    if 97 <= c <= 102 then Some(c - 97 + 10)
    else if 65 <= c <= 70 then Some(c - 65 + 10)
    else if 48 <= c <= 57 then Some(c - 48)
    else None
  }

  function ToHex(d: seq<byte>): seq<byte> {
    if d == [] then [] else ToHex(d[..|d| - 1]) + [Digit(d[|d| - 1] / 16), Digit(d[|d| - 1] % 16)]
  }

  /** None stands for the exception: an odd length or a character that is no hexadecimal digit. */
  function FromHex(s: seq<byte>): Option<seq<byte>> {
    if s == [] then Some([])
    else if |s| == 1 then None
    else match (FromHex(s[..|s| - 2]), Nibble(s[|s| - 2]), Nibble(s[|s| - 1]))
      case (Some(d), Some(hi), Some(lo)) => Some(d + [hi * 16 + lo])
      case _ => None
  }

  const DIGITS := "0123456789abcdef"

  lemma DigitIs(v: int)
    requires 0 <= v < 16
    ensures |DIGITS| == 16 && Digit(v) as char == DIGITS[v]
  {
  }

  /** Each byte as its two digits, the high one first. */
  lemma {:induction false} ToHexAt(d: seq<byte>, i: nat)
    requires i < |d|
    ensures |ToHex(d)| == 2 * |d| && |DIGITS| == 16
    ensures ToHex(d)[2 * i] as char == DIGITS[d[i] / 16] && ToHex(d)[2 * i + 1] as char == DIGITS[d[i] % 16]
  {
    hide Digit, DIGITS;
    DecodeEncode(d);
    DigitIs(d[i] / 16);
    DigitIs(d[i] % 16);
    var n := |d| - 1;
    DecodeEncode(d[..n]);
    if i < n { ToHexAt(d[..n], i); }
  }

  predicate IsHexDigit(c: byte) {
    '0' <= c as char <= '9' || 'a' <= c as char <= 'f' || 'A' <= c as char <= 'F'
  }

  function LowerCase(s: seq<byte>): seq<byte> {
    seq(|s|, i requires 0 <= i < |s| => Lower(s[i]))
  }

  function Lower(c: byte): byte { if 65 <= c <= 90 then c + 32 else c }

  /** Decoding inverts encoding on every byte string. */
  lemma {:induction false} DecodeEncode(d: seq<byte>)
    ensures FromHex(ToHex(d)) == Some(d) && |ToHex(d)| == 2 * |d|
  {
    hide Digit, Nibble;
    if d != [] {
      var n := |d| - 1;
      var s := ToHex(d);
      DecodeEncode(d[..n]);
      NibbleDigit(d[n] / 16);
      NibbleDigit(d[n] % 16);
      assert d[n] / 16 * 16 + d[n] % 16 == d[n];
      assert s[..|s| - 2] == ToHex(d[..n]);
      assert d == d[..n] + [d[n]];
    }
  }

  /** Encoding inverts decoding up to the case of the digits; accepted are exactly the even-length digit strings. */
  lemma {:induction false} EncodeDecode(s: seq<byte>)
    ensures FromHex(s).Some? <==> |s| % 2 == 0 && forall i :: 0 <= i < |s| ==> IsHexDigit(s[i])
    ensures FromHex(s).Some? ==> ToHex(FromHex(s).value) == LowerCase(s)
    decreases |s|
  {
    hide Digit, Nibble, LowerCase, IsHexDigit;
    if |s| >= 2 {
      var n := |s| - 2;
      EncodeDecode(s[..n]);
      LowerSplit(s);
      NibbleRange(s[n]);
      NibbleRange(s[n + 1]);
      if FromHex(s).Some? {
        var d := FromHex(s).value;
        assert d[..|d| - 1] == FromHex(s[..n]).value;
        var hi, lo := Nibble(s[n]).value, Nibble(s[n + 1]).value;
        assert d[|d| - 1] / 16 == hi && d[|d| - 1] % 16 == lo;
      }
    } else {
      LowerNothing();
    }
  }

  lemma NibbleDigit(v: int)
    requires 0 <= v < 16
    ensures Nibble(Digit(v)) == Some(v)
  {
  }

  lemma LowerNothing()
    ensures LowerCase([]) == []
  {
  }

  lemma LowerSplit(s: seq<byte>)
    requires |s| >= 2
    ensures LowerCase(s) == LowerCase(s[..|s| - 2]) + [Lower(s[|s| - 2]), Lower(s[|s| - 1])]
  {
  }

  method HexStringFromData(data: seq<byte>) returns (result: seq<byte>)
    ensures result == ToHex(data)
  {
    var output := new byte[|data| * 2](_ => 0);
    var j := 0;
    for i := 0 to |data|
      invariant j == 2 * i && output[..j] == ToHex(data[..i])
    {
      assert data[..i + 1][..i] == data[..i];
      output[j] := Digit(data[i] / 16);
      output[j + 1] := Digit(data[i] % 16);
      j := j + 2;
    }
    assert data[..|data|] == data;
    result := output[..j];
  }

  method DataFromHexString(s: seq<byte>) returns (result: Option<seq<byte>>)
    ensures result == FromHex(s)
  {
    hide Nibble, IsHexDigit;
    EncodeDecode(s);
    if |s| % 2 != 0 { return None; }
    var buf: seq<byte> := [];
    var i := 0;
    assert s[..0] == [];
    while i < |s|
      invariant 0 <= i <= |s| && i % 2 == 0 && FromHex(s[..i]) == Some(buf)
    {
      var hi, lo := Nibble(s[i]), Nibble(s[i + 1]);
      NibbleRange(s[i]);
      NibbleRange(s[i + 1]);
      if hi.None? { return None; }
      if lo.None? { return None; }
      assert s[..i + 2][..i] == s[..i];
      buf := buf + [hi.value * 16 + lo.value];
      i := i + 2;
    }
    assert s[..i] == s;
    return Some(buf);
  }

  lemma NibbleRange(c: byte)
    ensures Nibble(c).Some? <==> IsHexDigit(c)
    ensures Nibble(c).Some? ==> 0 <= Nibble(c).value < 16 && Digit(Nibble(c).value) == Lower(c)
  {
  }
}
