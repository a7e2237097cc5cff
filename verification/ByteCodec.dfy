/** The typed values of `ByteArray` as byte strings: fixed-width integers in both byte orders, variable-length
    integers, zigzag, and length-prefixed strings. */
module ByteCodec {
  import opened Options
  import opened ByteBlocks

  function Pow2(k: nat): (r: nat)
    ensures r >= 1
  {
    if k == 0 then 1 else 2 * Pow2(k - 1)
  }

  lemma {:induction false} Pow2Add(a: nat, b: nat)
    ensures Pow2(a + b) == Pow2(a) * Pow2(b)
  {
    if b > 0 {
      Pow2Add(a, b - 1);
      TwoOut(Pow2(a), Pow2(b - 1));
    }
  }

  lemma TwoOut(x: int, y: int)
    ensures x * (2 * y) == 2 * (x * y)
  {
  }

  lemma {:induction false} Pow2Strict(a: nat, b: nat)
    requires a < b
    ensures 2 * Pow2(a) <= Pow2(b)
  {
    if a < b - 1 { Pow2Strict(a, b - 1); }
  }

  // ---------- fixed width ----------

  /** The bytes of an unsigned integer in memory, on the little-endian host. */
  function Memory(v: nat, n: nat): (r: seq<byte>)
    ensures |r| == n
  {
    if n == 0 then [] else [v % 256] + Memory(v / 256, n - 1)
  }

  function Loaded(s: seq<byte>): nat { if s == [] then 0 else s[0] + 256 * Loaded(s[1..]) }

  /** `byteSwap`: the bytes in the other order. */
  function Swapped(s: seq<byte>): (r: seq<byte>)
    ensures |r| == |s|
  {
    if s == [] then [] else Swapped(s[1..]) + [s[0]]
  }

  lemma {:induction false} SwappedAppend(s: seq<byte>, b: byte)
    ensures Swapped(s + [b]) == [b] + Swapped(s)
  {
    if s == [] {
      assert s + [b] == [b];
    } else {
      assert (s + [b])[1..] == s[1..] + [b];
      SwappedAppend(s[1..], b);
    }
  }

  lemma {:induction false} SwappedTwice(s: seq<byte>)
    ensures Swapped(Swapped(s)) == s
  {
    if s != [] {
      SwappedTwice(s[1..]);
      SwappedAppend(Swapped(s[1..]), s[0]);
    }
  }

  lemma {:induction false} MemoryLoaded(v: nat, n: nat)
    requires v < Pow2(8 * n)
    ensures Loaded(Memory(v, n)) == v
  {
    if n > 0 {
      Pow2Add(8 * (n - 1), 8);
      Pow2Of8();
      MemoryLoaded(v / 256, n - 1);
    }
  }

  lemma Pow2Of8()
    ensures Pow2(8) == 256 && Pow2(7) == 128
  {
    assert Pow2(4) == 16;
  }

  /** Two's complement: the unsigned value of the same bits. */
  function Bits(v: int, n: nat): nat
    requires 0 - Pow2(n) <= v < Pow2(n)
  {
    if v < 0 then v + Pow2(n) else v
  }

  function FixBytes(v: int, width: nat, little: bool): seq<byte>
    requires 0 - Pow2(8 * width) <= v < Pow2(8 * width)
  {
    var m := Memory(Bits(v, 8 * width), width);
    if little then m else Swapped(m)
  }

  function FixValue(s: seq<byte>, signed: bool, little: bool): int {
    var raw := Loaded(if little then s else Swapped(s));
    if signed && 2 * raw >= Pow2(8 * |s|) then raw - Pow2(8 * |s|) else raw
  }

  predicate FixFits(v: int, bits: nat, signed: bool) {
    if signed then 0 - Pow2(bits) <= 2 * v < Pow2(bits) else 0 <= v < Pow2(bits)
  }

  lemma FixRoundTrip(v: int, width: nat, signed: bool, little: bool)
    requires FixFits(v, 8 * width, signed)
    ensures |FixBytes(v, width, little)| == width && FixValue(FixBytes(v, width, little), signed, little) == v
  {
    var b := Bits(v, 8 * width);
    MemoryLoaded(b, width);
    SwappedTwice(Memory(b, width));
  }

  // ---------- what stands in each byte ----------

  lemma {:induction false} MemoryAt(v: nat, n: nat, k: nat)
    requires k < n
    ensures Memory(v, n)[k] == v / Pow2(8 * k) % 256
  {
    if k > 0 {
      MemoryAt(v / 256, n - 1, k - 1);
      Pow2Add(8 * (k - 1), 8);
      Pow2Of8();
      DivTwice(v, 256, Pow2(8 * (k - 1)), Pow2(8 * k));
    }
  }

  lemma DivTwice(v: nat, a: nat, b: nat, m: nat)
    requires a > 0 && b > 0 && m == b * a && m > 0
    ensures v / a / b == v / m
  {
    var q, r := Divided(v, a);
    var d, x := Divided(q, b);
    TwoDigits(a, b, m, d, x, r);
    Quotient(v, m, d, a * x + r);
  }

  lemma Divided(v: nat, a: nat) returns (q: nat, r: nat)
    requires a > 0
    ensures q == v / a && v == a * q + r && r < a
  {
    q, r := v / a, v % a;
  }

  lemma TwoDigits(a: nat, b: nat, m: nat, q: nat, x: nat, r: nat)
    requires r < a && x < b && m == b * a
    ensures a * (b * q + x) + r == m * q + (a * x + r) && a * x + r < m
  {
    assert a * (b * q) == (b * a) * q;
    Times(a, x + 1, b);
  }

  lemma Times(a: nat, x: nat, y: nat)
    requires x <= y
    ensures a * x <= a * y
  {
  }

  lemma Quotient(v: nat, m: nat, q: nat, r: nat)
    requires v == m * q + r && r < m
    ensures v / m == q
  {
    if v / m > q {
      Times(m, q + 1, v / m);
    } else if v / m < q {
      Times(m, v / m + 1, q);
    }
  }

  lemma {:induction false} SwappedAt(s: seq<byte>, k: nat)
    requires k < |s|
    ensures Swapped(s)[k] == s[|s| - 1 - k]
  {
    if k < |s| - 1 { SwappedAt(s[1..], k); }
  }

  /** Every byte of a fixed-width integer in two's complement: in network order the most significant comes first, on
      request the least significant does. */
  lemma FixByteAt(v: int, width: nat, signed: bool, little: bool, k: nat)
    requires FixFits(v, 8 * width, signed) && k < width
    ensures |FixBytes(v, width, little)| == width && v + (if v < 0 then Pow2(8 * width) else 0) >= 0
    ensures FixBytes(v, width, little)[k]
         == (v + if v < 0 then Pow2(8 * width) else 0) / Pow2(8 * (if little then k else width - 1 - k)) % 256
  {
    var b := Bits(v, 8 * width);
    if little {
      MemoryAt(b, width, k);
    } else {
      SwappedAt(Memory(b, width), k);
      MemoryAt(b, width, width - 1 - k);
    }
  }

  /** A number in network byte order. */
  function BigEndian(s: seq<byte>): nat {
    if s == [] then 0 else 256 * BigEndian(s[..|s| - 1]) + s[|s| - 1]
  }

  lemma {:induction false} SwappedLoads(s: seq<byte>)
    ensures Loaded(Swapped(s)) == BigEndian(s)
  {
    if s != [] {
      var init, b := s[..|s| - 1], s[|s| - 1];
      SwappedLoads(init);
      SwappedAppend(init, b);
      assert s == init + [b];
      assert Swapped(s)[1..] == Swapped(init);
    }
  }

  // ---------- variable length ----------

  function Varint(v: nat): seq<byte> { if v >= 0x80 then [v % 0x80 + 0x80] + Varint(v / 0x80) else [v] }

  /** Groups of seven bits, the least significant first; the top bit says that more follow. */
  lemma {:induction false} VarintByteAt(v: nat, k: nat)
    requires k < |Varint(v)|
    ensures Varint(v)[k] == v / Pow2(7 * k) % 128 + (if k < |Varint(v)| - 1 then 128 else 0)
    ensures v < Pow2(7 * |Varint(v)|) && (|Varint(v)| > 1 ==> v >= Pow2(7 * (|Varint(v)| - 1)))
    decreases v
  {
    Pow2Of8();
    if v >= 0x80 {
      var n := |Varint(v / 0x80)|;
      Pow2Add(7 * n, 7);
      VarintByteAt(v / 0x80, if k == 0 then 0 else k - 1);
      if n > 1 { Pow2Add(7 * (n - 1), 7); }
      if k > 0 {
        Pow2Add(7 * (k - 1), 7);
        DivTwice(v, 128, Pow2(7 * (k - 1)), Pow2(7 * k));
      }
    }
  }

  /** At most k bytes for a value of at most 7k bits. */
  lemma {:induction false} VarintLength(v: nat, k: nat)
    requires k >= 1 && v < Pow2(7 * k)
    ensures 1 <= |Varint(v)| <= k
  {
    Pow2Of8();
    if v >= 0x80 {
      Pow2Add(7 * (k - 1), 7);
      assert k > 1;
      VarintLength(v / 0x80, k - 1);
    }
  }

  /** At most 5 bytes for 32 bits and 10 for 64, as the source's buffers are sized. */
  lemma VarintBuffers(v: nat)
    ensures v < Pow2(32) ==> |Varint(v)| <= 5
    ensures v < Pow2(64) ==> |Varint(v)| <= 10
  {
    Pow2Strict(32, 35);
    Pow2Strict(64, 70);
    if v < Pow2(32) { VarintLength(v, 5); }
    if v < Pow2(64) { VarintLength(v, 10); }
  }

  /** Bitwise or of two words. */
  function BitOr(a: nat, b: nat, bits: nat): nat {
    if bits == 0 then 0 else (if a % 2 == 1 || b % 2 == 1 then 1 else 0) + 2 * BitOr(a / 2, b / 2, bits - 1)
  }

  lemma {:induction false} OrNothing(b: nat, bits: nat)
    requires b < Pow2(bits)
    ensures BitOr(0, b, bits) == b
  {
    if bits > 0 { OrNothing(b / 2, bits - 1); }
  }

  /** Or-ing a multiple of 2^i onto bits below i adds it. */
  lemma {:induction false} OrAdds(a: nat, m: nat, i: nat, bits: nat)
    requires a < Pow2(i) && a + m * Pow2(i) < Pow2(bits)
    ensures BitOr(a, m * Pow2(i), bits) == a + m * Pow2(i)
  {
    if i == 0 {
      OrNothing(m * Pow2(i), bits);
    } else if bits > 0 {
      var b := m * Pow2(i);
      TwoOut(m, Pow2(i - 1));
      assert b == 2 * (m * Pow2(i - 1));
      OrAdds(a / 2, m, i - 1, bits - 1);
    }
  }

  /** The reader's loop from shift `i` on. None: the input ended, which throws. */
  function VarintFrom(s: seq<byte>, i: nat, acc: nat, bits: nat): Option<(nat, seq<byte>)>
    decreases bits - i
  {
    if i >= bits then Some((acc, s))
    else if s == [] then None
    else if s[0] < 0x80 then Some((BitOr(acc, Shifted(s[0], i, bits), bits), s[1..]))
    else VarintFrom(s[1..], i + 7, BitOr(acc, Shifted(s[0] - 0x80, i, bits), bits), bits)
  }

  /** A shift to the left in a word of that many bits. */
  function Shifted(b: nat, i: nat, bits: nat): nat { b * Pow2(i) % Pow2(bits) }

  lemma ShiftedSmall(b: nat, i: nat, bits: nat)
    requires b * Pow2(i) < Pow2(bits)
    ensures Shifted(b, i, bits) == b * Pow2(i)
  {
    SmallMod(b * Pow2(i), Pow2(bits));
  }

  lemma Distribute(q: nat, r: nat, p: nat)
    ensures (128 * q + r) * p == q * (128 * p) + r * p
    ensures q * (128 * p) >= 0 && r * p >= 0 && (q >= 1 ==> q * (128 * p) >= 128 * p)
  {
    if q >= 1 { assert q * (128 * p) == (q - 1) * (128 * p) + 128 * p; }
  }

  lemma VarintBound(v: nat, i: nat, bits: nat)
    requires v * Pow2(i) < Pow2(bits) && v >= 0x80
    ensures i + 7 < bits && (v / 0x80) * Pow2(i + 7) + (v % 0x80) * Pow2(i) == v * Pow2(i)
    ensures (v / 0x80) * Pow2(i + 7) < Pow2(bits) && (v % 0x80) * Pow2(i) < Pow2(bits)
  {
    hide Pow2;
    Pow2Of8();
    Pow2Add(i, 7);
    var q, r, p := v / 0x80, v % 0x80, Pow2(i);
    Distribute(q, r, p);
    assert v == 128 * q + r;
    if i + 7 >= bits {
      Pow2Monotone(bits, i + 7);
      assert false;
    }
  }

  lemma Pow2Monotone(a: nat, b: nat)
    requires a <= b
    ensures Pow2(a) <= Pow2(b)
  {
    if a < b { Pow2Strict(a, b); }
  }

  /** There is room for one more bit pattern below the next multiple. */
  lemma RoomBelow(acc: nat, v: nat, i: nat, bits: nat)
    requires acc < Pow2(i) && v * Pow2(i) < Pow2(bits) && i <= bits
    ensures acc + v * Pow2(i) < Pow2(bits)
  {
    hide Pow2;
    Pow2Add(bits - i, i);
    NextMultiple(v, Pow2(bits - i), Pow2(i));
  }

  lemma NextMultiple(v: nat, m: nat, p: nat)
    requires p >= 1 && v * p < m * p
    ensures v * p + p <= m * p
  {
    var d := m - v;
    assert d * p == m * p - v * p;
    if d >= 1 { Scaled(d - 1, p); } else { Scaled(-d, p); }
  }

  lemma Scaled(d: nat, p: nat)
    ensures d * p >= 0 && (d + 1) * p == d * p + p && (0 - d) * p == 0 - d * p
  {
  }

  /** The loop's result keeps its bits below the next shift, so or-ing adds. */
  lemma OrByte(acc: nat, v: nat, r: nat, i: nat, bits: nat)
    requires acc < Pow2(i) && v * Pow2(i) < Pow2(bits) && i <= bits && r <= v && r < 0x80
    ensures BitOr(acc, Shifted(r, i, bits), bits) == acc + r * Pow2(i) < Pow2(i + 7)
  {
    hide BitOr, Pow2;
    var p := Pow2(i);
    assert (v - r) * p == v * p - r * p;
    assert (v - r) * p >= 0;
    RoomBelow(acc, r, i, bits);
    OrAdds(acc, r, i, bits);
    ShiftedSmall(r, i, bits);
    Pow2Of8();
    Pow2Add(i, 7);
    assert (127 - r) * p == 127 * p - r * p;
    assert (127 - r) * p >= 0;
  }

  lemma {:induction false} VarintRoundTrip(v: nat, i: nat, acc: nat, bits: nat, rest: seq<byte>)
    requires v * Pow2(i) < Pow2(bits) && i < bits && acc < Pow2(i)
    ensures VarintFrom(Varint(v) + rest, i, acc, bits) == Some((acc + v * Pow2(i), rest))
    decreases v
  {
    hide Pow2, Shifted, BitOr;
    var s := Varint(v) + rest;
    if v >= 0x80 {
      VarintBound(v, i, bits);
      OrByte(acc, v, v % 0x80, i, bits);
      VarintRoundTrip(v / 0x80, i + 7, acc + (v % 0x80) * Pow2(i), bits, rest);
      assert s[1..] == Varint(v / 0x80) + rest;
    } else {
      assert s[1..] == rest;
      OrByte(acc, v, v, i, bits);
    }
  }

  lemma SmallMod(x: nat, m: nat)
    requires x < m
    ensures x % m == x
  {
  }

  /** `EncodeZigzag`: the negation and the doubling wrap at the word's width. */
  function Zigzag(v: int, bits: nat): nat
    requires bits >= 1 && FixFits(v, bits, true)
  {
    if v < 0 then ((-v) % Pow2(bits) * 2 - 1) % Pow2(bits) else v * 2
  }

  /** `DecodeZigzag`: xor with all ones complements within the word, and the result is read as signed. */
  function Unzigzag(u: nat, bits: nat): int
    requires u < Pow2(bits)
  {
    var x := u / 2;
    var word := if u % 2 == 1 then Pow2(bits) - 1 - x else x;
    if 2 * word >= Pow2(bits) then word - Pow2(bits) else word
  }

  /** Also for the smallest integer, whose negation wraps to itself. */
  lemma ZigzagRoundTrip(v: int, bits: nat)
    requires bits >= 1 && FixFits(v, bits, true)
    ensures Zigzag(v, bits) < Pow2(bits) && Unzigzag(Zigzag(v, bits), bits) == v
    ensures Zigzag(v, bits) == if v < 0 then -2 * v - 1 else 2 * v
  {
    var m := Pow2(bits);
    assert m == 2 * Pow2(bits - 1);
    if v < 0 {
      SmallMod(-v, m);
      SmallMod(-v * 2 - 1, m);
      assert (-v * 2 - 1) / 2 == -v - 1;
    }
  }

  // ---------- items ----------

  datatype Prefix = Fix16 | Fix32 | Fix64 | Vint

  datatype Kind =
    | FixKind(width: nat, signed: bool)
    | VarKind(bits: nat, zigzag: bool)
    | TextKind(prefix: Prefix)

  datatype Item =
    | FixItem(width: nat, signed: bool, v: int)
    | VarItem(bits: nat, zigzag: bool, v: int)
    | TextItem(prefix: Prefix, text: seq<byte>)

  function KindOf(x: Item): Kind {
    match x
    case FixItem(width, signed, _) => FixKind(width, signed)
    case VarItem(bits, zigzag, _) => VarKind(bits, zigzag)
    case TextItem(prefix, _) => TextKind(prefix)
  }

  predicate KindOk(k: Kind) {
    match k
    case FixKind(width, _) => width in {1, 2, 4, 8}
    case VarKind(bits, _) => bits in {32, 64}
    case TextKind(_) => true
  }

  function PrefixWidth(p: Prefix): nat { match p case Fix16 => 2 case Fix32 => 4 case _ => 8 }

  /** What each C++ type can hold. */
  predicate Typed(x: Item) {
    KindOk(KindOf(x)) &&
    match x
    case FixItem(width, signed, v) => FixFits(v, 8 * width, signed)
    case VarItem(bits, zigzag, v) => FixFits(v, bits, zigzag)
    case TextItem(_, text) => |text| < Pow2(64)
  }

  /** The length is cut to the prefix's width. */
  function LengthBytes(p: Prefix, n: nat, little: bool): seq<byte>
    requires n < Pow2(64)
  {
    if p.Vint? then Varint(n) else FixBytes(n % Pow2(8 * PrefixWidth(p)), PrefixWidth(p), little)
  }

  function Encode(x: Item, little: bool): seq<byte>
    requires Typed(x)
  {
    match x
    case FixItem(width, signed, v) => FixBytes(v, width, little)
    case VarItem(bits, zigzag, v) => Varint(if zigzag then Zigzag(v, bits) else v)
    case TextItem(p, text) => LengthBytes(p, |text|, little) + text
  }

  function TakeFix(width: nat, signed: bool, little: bool, s: seq<byte>): Option<(int, seq<byte>)> {
    if |s| < width then None else Some((FixValue(s[..width], signed, little), s[width..]))
  }

  function TakeLength(p: Prefix, little: bool, s: seq<byte>): Option<(int, seq<byte>)> {
    if p.Vint? then VarintFrom(s, 0, 0, 64) else TakeFix(PrefixWidth(p), false, little, s)
  }

  /** What the matching reader makes of the readable bytes: an item and what is left, or an exception. */
  function Decode(k: Kind, little: bool, s: seq<byte>): Option<(Item, seq<byte>)>
    requires KindOk(k)
  {
    match k
    case FixKind(width, signed) =>
      (match TakeFix(width, signed, little, s)
       case None => None
       case Some((v, rest)) => Some((FixItem(width, signed, v), rest)))
    case VarKind(bits, zigzag) =>
      (match VarintFrom(s, 0, 0, bits)
       case None => None
       case Some((u, rest)) => Some((VarItem(bits, zigzag, if zigzag then Unzigzag(u % Pow2(bits), bits) else u),
                                     rest)))
    case TextKind(p) =>
      (match TakeLength(p, little, s)
       case None => None
       case Some((n, rest)) => if 0 <= n <= |rest| then Some((TextItem(p, rest[..n]), rest[n..])) else None)
  }

  /** The text's length fits its prefix. */
  predicate Fits(x: Item) { Typed(x) && (x.TextItem? ==> |x.text| < Pow2(8 * PrefixWidth(x.prefix))) }

  lemma FixTaken(v: int, width: nat, signed: bool, little: bool, rest: seq<byte>)
    requires FixFits(v, 8 * width, signed)
    ensures TakeFix(width, signed, little, FixBytes(v, width, little) + rest) == Some((v, rest))
  {
    hide FixValue, FixBytes, Pow2;
    FixRoundTrip(v, width, signed, little);
    var s := FixBytes(v, width, little) + rest;
    assert s[..width] == FixBytes(v, width, little) && s[width..] == rest;
  }

  lemma VarintTaken(v: nat, bits: nat, rest: seq<byte>)
    requires v < Pow2(bits) && bits > 0
    ensures VarintFrom(Varint(v) + rest, 0, 0, bits) == Some((v, rest))
  {
    assert Pow2(0) == 1;
    VarintRoundTrip(v, 0, 0, bits, rest);
  }

  lemma LengthRoundTrip(p: Prefix, n: nat, little: bool, rest: seq<byte>)
    requires n < Pow2(64)
    ensures TakeLength(p, little, LengthBytes(p, n, little) + rest)
         == Some((if p.Vint? then n else n % Pow2(8 * PrefixWidth(p)), rest))
  {
    hide Varint, VarintFrom, TakeFix, FixBytes, Pow2;
    if p.Vint? {
      VarintTaken(n, 64, rest);
    } else {
      FixTaken(n % Pow2(8 * PrefixWidth(p)), PrefixWidth(p), false, little, rest);
    }
  }

  /** Reading back what was written gives the same item and leaves the rest. */
  lemma DecodeEncode(x: Item, little: bool, rest: seq<byte>)
    requires Fits(x)
    ensures Decode(KindOf(x), little, Encode(x, little) + rest) == Some((x, rest))
  {
    hide Varint, VarintFrom, TakeFix, FixBytes, Pow2, Zigzag, Unzigzag, TakeLength, LengthBytes;
    match x
    case FixItem(width, signed, v) => FixTaken(v, width, signed, little, rest);
    case VarItem(bits, zigzag, v) =>
      if zigzag { ZigzagRoundTrip(v, bits); }
      var u := if zigzag then Zigzag(v, bits) else v;
      VarintTaken(u, bits, rest);
      SmallMod(u, Pow2(bits));
    case TextItem(p, text) => TextTaken(p, text, little, rest);
  }

  lemma TextTaken(p: Prefix, text: seq<byte>, little: bool, rest: seq<byte>)
    requires Fits(TextItem(p, text))
    ensures Decode(TextKind(p), little, Encode(TextItem(p, text), little) + rest) == Some((TextItem(p, text), rest))
  {
    hide Varint, VarintFrom, TakeFix, FixBytes, Pow2, TakeLength, LengthBytes;
    assert Encode(TextItem(p, text), little) + rest == LengthBytes(p, |text|, little) + (text + rest);
    LengthRoundTrip(p, |text|, little, text + rest);
    SmallMod(|text|, Pow2(8 * PrefixWidth(p)));
    assert (text + rest)[..|text|] == text && (text + rest)[|text|..] == rest;
  }

  /** A text too long for its prefix comes back cut: exactly the texts that fit survive. */
  lemma TextSurvivesIff(p: Prefix, text: seq<byte>, little: bool)
    requires |text| < Pow2(64)
    ensures var r := Decode(TextKind(p), little, Encode(TextItem(p, text), little));
      r == Some((TextItem(p, text), [])) <==> |text| < Pow2(8 * PrefixWidth(p))
  {
    var x := TextItem(p, text);
    var head := LengthBytes(p, |text|, little);
    if Fits(x) {
      DecodeEncode(x, little, []);
      assert Encode(x, little) + [] == Encode(x, little);
    } else {
      LengthRoundTrip(p, |text|, little, text);
    }
  }

  /** 65536 bytes under a 16-bit prefix. */
  lemma LongTextIsCut(little: bool)
    ensures 65536 < Pow2(64)
    ensures var x := TextItem(Fix16, seq(65536, _ => 0));
      Decode(TextKind(Fix16), little, Encode(x, little)) != Some((x, []))
  {
    hide Decode, Encode;
    assert Pow2(16) == 65536 by { Pow2Of8(); Pow2Add(8, 8); }
    Pow2Strict(16, 64);
    TextSurvivesIff(Fix16, seq(65536, _ => 0), little);
  }

  function EncodeAll(xs: seq<Item>, little: bool): seq<byte>
    requires forall i :: 0 <= i < |xs| ==> Typed(xs[i])
  {
    if xs == [] then [] else Encode(xs[0], little) + EncodeAll(xs[1..], little)
  }
}
