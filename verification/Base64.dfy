/** Base64 (section 4 of RFC 4648), as in hash_util.cpp. */
module Base64 {
  import opened Options
  import opened ByteBlocks

  const PAD := '=' as int

  function Symbol(v: int): byte
    requires 0 <= v < 64
  {
    if v < 26 then 65 + v else if v < 52 then 97 + v - 26 else if v < 62 then 48 + v - 52
    else if v == 62 then '+' as int else '/' as int
  }

  function Value(c: byte): Option<int> {
    var c: int := c;
    if 65 <= c <= 90 then Some(c - 65)
    else if 97 <= c <= 122 then Some(c - 97 + 26)
    else if 48 <= c <= 57 then Some(c - 48 + 52)
    else if c == '+' as int then Some(62)
    else if c == '/' as int then Some(63)
    else None
  }

  lemma SymbolValue(v: int)
    requires 0 <= v < 64
    ensures Value(Symbol(v)) == Some(v) && Symbol(v) != PAD
  {
  }

  // ---------- encoding ----------

  function At(d: seq<byte>, i: nat): (n: int)
    ensures 0 <= n < 256
  {
    if i < |d| then d[i] else 0
  }

  /** Three bytes as one number, missing ones as zero. */
  function Packed(d: seq<byte>): (n: int)
    ensures 0 <= n < 0x100_0000
  {
    (At(d, 0) * 256 + At(d, 1)) * 256 + At(d, 2)
  }

  function Group(n: int, padding: nat): (r: seq<byte>)
    requires 0 <= n < 0x100_0000 && padding <= 2
    ensures |r| == 4
  {
    [Symbol(n / 64 / 64 / 64), Symbol(n / 64 / 64 % 64)]
    + (if padding != 2 then [Symbol(n / 64 % 64)] else [PAD])
    + (if padding == 0 then [Symbol(n % 64)] else [PAD])
  }

  function Encode(d: seq<byte>): seq<byte> {
    if d == [] then []
    else if |d| >= 3 then Group(Packed(d), 0) + Encode(d[3..])
    else Group(Packed(d), 3 - |d|)
  }

  // ---------- decoding ----------

  /** The first k characters of a group: padding seen and bits packed. */
  function Fold(s: seq<byte>, k: nat): Option<(nat, int)>
    requires k <= |s|
  {
    if k == 0 then Some((0, 0))
    else match Fold(s, k - 1)
      case None => None
      case Some((padding, packed)) =>
        if s[k - 1] == PAD then Some((padding + 1, packed * 64))
        else if padding > 0 then None
        else match Value(s[k - 1])
          case None => None
          case Some(v) => Some((0, packed * 64 + v))
  }

  function Bytes(padding: nat, packed: int): seq<byte> {
    [packed / 256 / 256 % 256] + (if padding != 2 then [packed / 256 % 256] else [])
    + (if padding == 0 then [packed % 256] else [])
  }

  /** Groups of four; padding only in the last, at most two. */
  function Groups(s: seq<byte>): Option<seq<byte>> {
    if s == [] then Some([])
    else if |s| < 4 then None
    else match Fold(s, 4)
      case None => None
      case Some((padding, packed)) =>
        if (padding > 0 && |s| > 4) || padding > 2 then None
        else match Groups(s[4..])
          case None => None
          case Some(rest) => Some(Bytes(padding, packed) + rest)
  }

  /** An invalid input decodes to the empty string. */
  function Decode(s: seq<byte>): seq<byte> {
    match Groups(s) case None => [] case Some(d) => d
  }

  // ---------- what each character stands for ----------

  const UPPER := "ABCDEFGHIJKLMNOPQRSTUVWXYZ"
  const LOWER := "abcdefghijklmnopqrstuvwxyz"
  const DIGITS := "0123456789"

  lemma UpperIs(v: int)
    requires 0 <= v < 26
    ensures |UPPER| == 26 && UPPER[v] == (65 + v) as char
  {
  }

  lemma LowerIs(v: int)
    requires 0 <= v < 26
    ensures |LOWER| == 26 && LOWER[v] == (97 + v) as char
  {
  }

  lemma DigitIs(v: int)
    requires 0 <= v < 10
    ensures |DIGITS| == 10 && DIGITS[v] == (48 + v) as char
  {
  }

  const ALPHABET := UPPER + LOWER + DIGITS + "+/"

  lemma SymbolIs(v: int)
    requires 0 <= v < 64
    ensures |ALPHABET| == 64 && Symbol(v) as char == ALPHABET[v]
  {
    UpperIs(if v < 26 then v else 0);
    LowerIs(if 26 <= v < 52 then v - 26 else 0);
    DigitIs(if 52 <= v < 62 then v - 52 else 0);
    hide UPPER, LOWER, DIGITS;
  }

  /** The `k`-th six bits of the input: the high six of a byte, its low two and the next one's high four, that one's low
      four and the next one's high two, the low six. Bytes past the end count as 0. */
  function Six(d: seq<byte>, k: nat): (v: int)
    ensures 0 <= v < 64
  {
    var a, b, c := At(d, k / 4 * 3), At(d, k / 4 * 3 + 1), At(d, k / 4 * 3 + 2);
    if k % 4 == 0 then a / 4
    else if k % 4 == 1 then a % 4 * 16 + b / 16
    else if k % 4 == 2 then b % 16 * 4 + c / 64
    else c % 64
  }

  lemma Quarters(a: nat, b: nat, c: nat)
    requires a < 256 && b < 256 && c < 256
    ensures var n := (a * 256 + b) * 256 + c;
      && n / 64 / 64 / 64 == a / 4 && n / 64 / 64 % 64 == a % 4 * 16 + b / 16
      && n / 64 % 64 == b % 16 * 4 + c / 64 && n % 64 == c % 64
  {
  }

  lemma SixLater(d: seq<byte>, k: nat)
    requires k >= 4 && |d| >= 3
    ensures Six(d, k) == Six(d[3..], k - 4)
  {
    assert k / 4 == (k - 4) / 4 + 1 && k % 4 == (k - 4) % 4;
  }

  lemma GroupSix(d: seq<byte>)
    ensures var n := Packed(d);
      n / 64 / 64 / 64 == Six(d, 0) && n / 64 / 64 % 64 == Six(d, 1) && n / 64 % 64 == Six(d, 2) && n % 64 == Six(d, 3)
  {
    Quarters(At(d, 0), At(d, 1), At(d, 2));
  }

  /** Section 4 of RFC 4648, character by character: the alphabet's at the next six bits, and the padding where the
      input has no such bits. */
  lemma {:induction false} EncodedAt(d: seq<byte>, k: nat)
    requires k < |Encode(d)|
    ensures |ALPHABET| == 64 && Encode(d)[k] as char == if 6 * k < 8 * |d| then ALPHABET[Six(d, k)] else '='
  {
    SymbolIs(Six(d, k));
    hide Six, Symbol, ALPHABET, Packed;
    if k < 4 {
      GroupSix(d);
    } else {
      SixLater(d, k);
      EncodedAt(d[3..], k - 4);
    }
  }

  /** The decoder reads the same alphabet and nothing else. */
  lemma ValueIs(c: byte, v: int)
    ensures Value(c) == Some(v) <==> 0 <= v < 64 && |ALPHABET| == 64 && c as char == ALPHABET[v]
  {
    if 0 <= v < 64 { SymbolIs(v); }
    hide ALPHABET;
  }

  /** The first `k` characters: symbols, then `p` times the padding. */
  predicate Good(s: seq<byte>, k: nat, p: nat)
    requires k <= |s|
  {
    p <= k && (forall i :: 0 <= i < k - p ==> Value(s[i]).Some?) && (forall i :: k - p <= i < k ==> s[i] == PAD)
  }

  lemma {:induction false} FoldIsGood(s: seq<byte>, k: nat)
    requires k <= |s|
    ensures Fold(s, k).Some? ==> Good(s, k, Fold(s, k).value.0)
    ensures forall p: nat :: Good(s, k, p) ==> Fold(s, k).Some? && Fold(s, k).value.0 == p
  {
    PadIsNoSymbol();
    hide Value;
    if k > 0 {
      FoldIsGood(s, k - 1);
      forall p: nat | Good(s, k, p) ensures Good(s, k - 1, if p == 0 then 0 else p - 1) {}
    }
  }

  lemma PadIsNoSymbol()
    ensures Value(PAD).None?
  {
  }

  /** Accepted are exactly whole groups of four symbols, of which the last one or two may be the padding. */
  lemma {:induction false} AcceptedExactly(s: seq<byte>)
    ensures Groups(s).Some? <==> |s| % 4 == 0 && exists n :: 0 <= n <= 2 && Good(s, |s|, n)
    decreases |s|
  {
    hide Value, Bytes, Fold;
    if s == [] {
      assert Good(s, 0, 0);
    } else if |s| >= 4 {
      var rest := s[4..];
      FoldIsGood(s, 4);
      AcceptedExactly(rest);
      if Groups(s).Some? {
        var n :| 0 <= n <= 2 && Good(rest, |rest|, n);
        var p := Fold(s, 4).value.0;
        assert forall i :: 4 <= i < |s| ==> s[i] == rest[i - 4];
        assert Good(s, |s|, if rest == [] then p else n);
      }
      if |s| % 4 == 0 && exists n :: 0 <= n <= 2 && Good(s, |s|, n) {
        var n :| 0 <= n <= 2 && Good(s, |s|, n);
        if rest == [] { assert Good(rest, 0, 0); } else { assert Good(rest, |rest|, n); }
        assert Good(s, 4, if rest == [] then n else 0);
      }
    }
  }

  // ---------- round trip ----------

  lemma FoldOne(s: seq<byte>, k: nat, v: int, packed: int)
    requires k < |s| && 0 <= v < 64 && s[k] == Symbol(v) && Fold(s, k) == Some((0, packed))
    ensures Fold(s, k + 1) == Some((0, packed * 64 + v))
  {
    SymbolValue(v);
  }

  lemma FoldGroup(n: int, padding: nat, rest: seq<byte>)
    requires 0 <= n < 0x100_0000 && padding <= 2 && (padding >= 1 ==> n % 64 == 0)
    requires (padding == 2 ==> n / 64 % 64 == 0)
    ensures Fold(Group(n, padding) + rest, 4) == Some((padding, n))
  {
    hide Symbol, Value;
    var s, g := Group(n, padding) + rest, Group(n, padding);
    assert s[0] == g[0] && s[1] == g[1] && s[2] == g[2] && s[3] == g[3];
    var n1, n2 := n / 64, n / 64 / 64;
    FoldOne(s, 0, n2 / 64, 0);
    FoldOne(s, 1, n2 % 64, n2 / 64);
    assert n2 / 64 * 64 + n2 % 64 == n2;
    if padding != 2 { FoldOne(s, 2, n1 % 64, n2); }
    assert n1 == n2 * 64 + n1 % 64;
    if padding == 0 { FoldOne(s, 3, n % 64, n1); }
    assert n == n1 * 64 + n % 64;
  }

  lemma Zeros(x: int)
    ensures x * 64 % 64 == 0 && x * 64 / 64 == x
  {
  }

  lemma PackedBytes(d: seq<byte>)
    requires 1 <= |d|
    ensures |d| >= 3 ==> Bytes(0, Packed(d)) == d[..3]
    ensures |d| < 3 ==> Bytes(3 - |d|, Packed(d)) == d
    ensures |d| <= 2 ==> Packed(d) % 64 == 0
    ensures |d| == 1 ==> Packed(d) / 64 % 64 == 0
  {
    var a, b, c := At(d, 0), At(d, 1), At(d, 2);
    var m, n := a * 256 + b, Packed(d);
    Shift8(m, c);
    Shift8(a, b);
    if |d| <= 2 { Zeros(m * 4); }
    if |d| == 1 {
      Zeros(m * 4);
      Zeros(a * 16);
    }
  }

  lemma Shift8(x: int, c: int)
    requires 0 <= x && 0 <= c < 256
    ensures (x * 256 + c) / 256 == x && (x * 256 + c) % 256 == c
  {
  }

  /** Decoding inverts encoding on every byte string. */
  lemma {:induction false} DecodeEncode(d: seq<byte>)
    ensures Groups(Encode(d)) == Some(d) && Decode(Encode(d)) == d
    decreases |d|
  {
    hide Fold, Bytes, Group, Packed;
    if |d| >= 3 {
      DecodeEncode(d[3..]);
      FoldGroup(Packed(d), 0, Encode(d[3..]));
      PackedBytes(d);
      assert Encode(d)[4..] == Encode(d[3..]);
      assert d == d[..3] + d[3..];
    } else if d != [] {
      var g := Group(Packed(d), 3 - |d|);
      PackedBytes(d);
      FoldGroup(Packed(d), 3 - |d|, []);
      assert g + [] == g;
      assert g[4..] == [];
      assert Groups(g[4..]) == Some([]);
      assert d + [] == d;
    }
  }

  lemma {:induction false} EncodedLength(d: seq<byte>)
    ensures |Encode(d)| == 4 * ((|d| + 2) / 3)
    decreases |d|
  {
    if |d| >= 3 { EncodedLength(d[3..]); }
  }

  // ---------- the loops ----------

  method Base64Encode(data: seq<byte>) returns (ret: seq<byte>)
    ensures ret == Encode(data)
  {
    hide Group;
    ret := [];
    var ptr := 0;
    while ptr < |data|
      invariant 0 <= ptr <= |data| && ret + Encode(data[ptr..]) == Encode(data)
    {
      ghost var d, was := data[ptr..], ptr;
      var packed, i := 0, 0;
      while i < 3 && ptr < |data|
        invariant 0 <= i <= 3 && ptr == was + i <= |data|
        invariant packed == Taken(d, i)
      {
        packed := packed * 256 + data[ptr];
        i, ptr := i + 1, ptr + 1;
      }
      var padding := if i == 2 then 1 else if i == 1 then 2 else 0;
      ghost var k := i;
      TakenPacked(d, k);
      while i < 3
        invariant k <= i <= 3 && packed * Pad(3 - i) == Packed(d)
      {
        packed := packed * 256;
        i := i + 1;
      }
      ret := ret + Group(packed, padding);
      assert data[ptr..] == d[k..];
    }
  }

  /** The first i bytes shifted together. */
  function Taken(d: seq<byte>, i: nat): int
    requires i <= |d|
  {
    if i == 0 then 0 else Taken(d, i - 1) * 256 + d[i - 1]
  }

  function Pad(i: nat): int { if i == 0 then 1 else 256 * Pad(i - 1) }

  lemma TakenPacked(d: seq<byte>, k: nat)
    requires 1 <= k <= 3 && k <= |d| && (k < 3 ==> k == |d|)
    ensures Taken(d, k) * Pad(3 - k) == Packed(d)
  {
    assert Taken(d, 1) == d[0];
    if k >= 2 { assert Taken(d, 2) == At(d, 0) * 256 + At(d, 1); }
    assert Pad(1) == 256 && Pad(2) == 65536;
  }

  /** The output buffer has room for three quarters of the input: no write is out of bounds, for any input. */
  method Base64Decode(src: seq<byte>) returns (result: seq<byte>)
    ensures result == Decode(src) && |result| <= |src| * 3 / 4
  {
    hide Bytes, Value, Groups, Prepend;
    PrependNothing(Groups(src));
    var buf := new byte[|src| * 3 / 4](_ => 0);
    var w, ptr := 0, 0;
    while ptr < |src|
      invariant 0 <= ptr <= |src| && 0 <= w && 4 * w <= 3 * ptr && w <= buf.Length
      invariant Groups(src) == Prepend(buf[..w], Groups(src[ptr..]))
    {
      ghost var s, was := src[ptr..], ptr;
      ghost var before := buf[..w];
      PrependNone(before);
      var i: nat, padding: nat, packed := 0, 0, 0;
      while i < 4 && ptr < |src|
        invariant 0 <= i <= 4 && ptr == was + i <= |src| && Fold(s, i) == Some((padding, packed)) && buf[..w] == before
      {
        assert src[ptr] == s[i];
        FoldFails(s, i);
        if src[ptr] == PAD {
          padding, packed := padding + 1, packed * 64;
          i, ptr := i + 1, ptr + 1;
          continue;
        }
        if padding > 0 { return []; }
        var val := Value(src[ptr]);
        if val.None? { return []; }
        packed := packed * 64 + val.value;
        i, ptr := i + 1, ptr + 1;
      }
      GroupsStep(s);
      if i != 4 || (padding > 0 && ptr != |src|) || padding > 2 { return []; }
      assert s[4..] == src[ptr..];
      w := PutGroup(buf, w, padding, packed);
      PrependTwice(before, Bytes(padding, packed), Groups(s[4..]));
    }
    GroupsDone(buf[..w]);
    result := buf[..w];
  }

  function Prepend(p: seq<byte>, r: Option<seq<byte>>): Option<seq<byte>> {
    match r case None => None case Some(d) => Some(p + d)
  }

  lemma PrependNothing(r: Option<seq<byte>>)
    ensures Prepend([], r) == r
  {
    if r.Some? { assert [] + r.value == r.value; }
  }

  lemma PrependNone(p: seq<byte>)
    ensures Prepend(p, None) == None
  {
  }

  lemma PrependTwice(p: seq<byte>, q: seq<byte>, r: Option<seq<byte>>)
    ensures Prepend(p, Prepend(q, r)) == Prepend(p + q, r)
  {
    if r.Some? { assert p + (q + r.value) == p + q + r.value; }
  }

  lemma GroupsDone(p: seq<byte>)
    ensures Prepend(p, Groups([])) == Some(p)
  {
    assert p + [] == p;
  }

  lemma GroupsStep(s: seq<byte>)
    requires s != []
    ensures |s| < 4 ==> Groups(s) == None
    ensures |s| >= 4 && Fold(s, 4).Some? ==>
      var (padding, packed) := Fold(s, 4).value;
      Groups(s) == if (padding > 0 && |s| > 4) || padding > 2 then None
      else Prepend(Bytes(padding, packed), Groups(s[4..]))
  {
  }

  method PutGroup(buf: array<byte>, w: nat, padding: nat, packed: int) returns (r: nat)
    requires padding <= 2 && w + 3 - padding <= buf.Length
    modifies buf
    ensures r == w + 3 - padding && buf[..r] == old(buf[..w]) + Bytes(padding, packed)
  {
    r := w;
    buf[r] := packed / 256 / 256 % 256;
    r := r + 1;
    if padding != 2 {
      buf[r] := packed / 256 % 256;
      r := r + 1;
    }
    if padding == 0 {
      buf[r] := packed % 256;
      r := r + 1;
    }
  }

  /** Once a prefix of a group is refused, the whole input is. */
  lemma FoldFails(s: seq<byte>, i: nat)
    requires i < 4 && i < |s|
    ensures Fold(s, i + 1).None? ==> Groups(s).None?
  {
    if Fold(s, i + 1).None? && |s| >= 4 {
      assert i + 2 <= 4 ==> Fold(s, i + 2).None?;
      assert i + 3 <= 4 ==> Fold(s, i + 3).None?;
    }
  }
}
