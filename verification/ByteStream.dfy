/** The typed readers and writers of `ByteArray`, and the socket stream that fills one in place. */
module ByteStream {
  import opened Options
  import opened Words
  import opened ByteBlocks
  import opened ByteArrays
  import opened ByteCodec

  /** `b` is as after one `write` of `data`. */
  twostate predicate Appended(b: ByteArray, data: seq<byte>)
    reads b, b.nodes, b.Arrays()
  {
    && b.Valid() && b.Extends() && old(b.Valid())
    && b.position == old(b.position) + |data| && b.size == Max(old(b.size), b.position)
    && Wrote(old(b.Bytes()), old(b.position), data, b.Bytes())
  }

  lemma WroteTwice(s: seq<byte>, p: nat, a: seq<byte>, r: seq<byte>, b: seq<byte>, t: seq<byte>)
    requires Wrote(s, p, a, r) && Wrote(r, p + |a|, b, t)
    ensures Wrote(s, p, a + b, t)
  {
    var q, z := p + |a|, p + |a| + |b|;
    assert t[..p] == t[..q][..p] == r[..q][..p] == r[..p];
    assert t[p..q] == t[..q][p..] == r[..q][p..] == r[p..q];
    assert t[p..z] == t[p..q] + t[q..z];
    if z <= |s| {
      assert t[z..|r|] == r[z..];
      assert t[z..|s|] == t[z..|r|][..|s| - z];
      assert r[z..|s|] == r[z..][..|s| - z];
      assert r[z..|s|] == r[q..|s|][z - q..] == s[q..][z - q..] == s[z..];
    }
  }

  /** The loop of writeUint32 and writeUint64. */
  method WriteVarint(b: ByteArray, val: nat)
    requires b.Valid()
    modifies b, b.nodes, b.Arrays()
    ensures Appended(b, Varint(val))
  {
    var tmp, v := [], val;
    while v >= 0x80
      invariant tmp + Varint(v) == Varint(val) && 0 <= v
    {
      tmp := tmp + [v % 0x80 + 0x80];
      v := v / 0x80;
    }
    tmp := tmp + [v];
    b.Write(tmp);
  }

  method WriteFix(b: ByteArray, v: int, width: nat, little: bool)
    requires b.Valid() && 0 - Pow2(8 * width) <= v < Pow2(8 * width)
    modifies b, b.nodes, b.Arrays()
    ensures Appended(b, FixBytes(v, width, little))
  {
    hide Pow2;
    var m := Memory(Bits(v, 8 * width), width);
    if !little { m := Swapped(m); }
    b.Write(m);
  }

  method WriteLength(b: ByteArray, p: Prefix, n: nat, little: bool)
    requires b.Valid() && n < Pow2(64)
    modifies b, b.nodes, b.Arrays()
    ensures Appended(b, LengthBytes(p, n, little))
  {
    hide Varint, FixBytes, Pow2, Appended;
    if p.Vint? {
      WriteVarint(b, n);
    } else {
      WriteFix(b, n % Pow2(8 * PrefixWidth(p)), PrefixWidth(p), little);
    }
  }

  method WriteItem(b: ByteArray, x: Item, little: bool)
    requires b.Valid() && Typed(x)
    modifies b, b.nodes, b.Arrays()
    ensures Appended(b, Encode(x, little))
  {
    hide Varint, FixBytes, Pow2, Wrote, LengthBytes, Zigzag, Appended;
    match x
    case FixItem(width, signed, v) => WriteFix(b, v, width, little);
    case VarItem(bits, zigzag, v) => WriteVarint(b, if zigzag then Zigzag(v, bits) else v);
    case TextItem(p, text) => WriteText(b, p, text, little);
  }

  method WriteText(b: ByteArray, p: Prefix, text: seq<byte>, little: bool)
    requires b.Valid() && |text| < Pow2(64)
    modifies b, b.nodes, b.Arrays()
    ensures Appended(b, LengthBytes(p, |text|, little) + text)
  {
    hide Pow2, Wrote, LengthBytes, ByteArray.Chain, ByteArray.CurAt, ByteArray.Bytes;
    WriteLength(b, p, |text|, little);
    ghost var mid := b.Bytes();
    b.Write(text);
    WroteTwice(old(b.Bytes()), old(b.position), LengthBytes(p, |text|, little), mid, text, b.Bytes());
  }

  // ---------- readers ----------

  ghost function Readable(b: ByteArray): (s: seq<byte>)
    requires b.Valid()
    reads b, b.nodes, b.Arrays()
    ensures |s| == b.size - b.position
  {
    b.BytesLength();
    b.Bytes()[b.position..b.size]
  }

  /** `b` is as after a reader that the decoder `spec` describes: the value and what is left, or an exception. */
  ghost predicate Consumed<T>(b: ByteArray, before: seq<byte>, r: Option<T>, spec: Option<(T, seq<byte>)>)
    reads b, b.nodes, b.Arrays()
  {
    && b.Valid() && b.Bytes() == before
    && match spec
       case None => r.None?
       case Some((v, rest)) => r == Some(v) && Readable(b) == rest
  }

  method ReadBytes(b: ByteArray, n: nat) returns (r: Option<seq<byte>>)
    requires b.Valid() && (n > 0 || b.position < b.capacity)
    modifies b`position, b`cur, b`at
    ensures b.Valid() && b.Bytes() == old(b.Bytes())
    ensures n <= |old(Readable(b))| ==> r == Some(old(Readable(b))[..n]) && Readable(b) == old(Readable(b))[n..]
    ensures n > |old(Readable(b))| ==> r == None && Readable(b) == old(Readable(b))
  {
    hide ByteArray.Chain, ByteArray.CurAt, ByteArray.Bytes, Off;
    ghost var s := Readable(b);
    var ok, buf := b.Read(n);
    if !ok { return None; }
    assert Readable(b) == s[n..] && buf == s[..n];
    return Some(buf);
  }

  method ReadFix(b: ByteArray, width: nat, signed: bool, little: bool) returns (r: Option<int>)
    requires b.Valid() && width > 0
    modifies b`position, b`cur, b`at
    ensures Consumed(b, old(b.Bytes()), r, TakeFix(width, signed, little, old(Readable(b))))
  {
    hide ByteArray.Valid, Pow2, Swapped, Loaded, Readable, ByteArray.Bytes;
    var m := ReadBytes(b, width);
    if m.None? { return None; }
    return Some(FixValue(m.value, signed, little));
  }

  /** The loop of readUint32 and readUint64. */
  method ReadVarint(b: ByteArray, bits: nat) returns (r: Option<nat>)
    requires b.Valid()
    modifies b`position, b`cur, b`at
    ensures Consumed(b, old(b.Bytes()), r, VarintFrom(old(Readable(b)), 0, 0, bits))
  {
    hide ByteArray.Valid, Shifted, BitOr, Readable, ByteArray.Bytes;
    var i, acc := 0, 0;
    ghost var s := Readable(b);
    while i < bits
      invariant b.Valid() && b.Bytes() == old(b.Bytes()) && 0 <= i && 0 <= acc
      invariant VarintFrom(s, 0, 0, bits) == VarintFrom(Readable(b), i, acc, bits)
    {
      var m := ReadBytes(b, 1);
      if m.None? { return None; }
      var x: int := m.value[0];
      if x < 0x80 {
        acc := BitOr(acc, Shifted(x, i, bits), bits);
        return Some(acc);
      }
      acc := BitOr(acc, Shifted(x - 0x80, i, bits), bits);
      i := i + 7;
    }
    return Some(acc);
  }

  method ReadLength(b: ByteArray, p: Prefix, little: bool) returns (r: Option<int>)
    requires b.Valid()
    modifies b`position, b`cur, b`at
    ensures Consumed(b, old(b.Bytes()), r, TakeLength(p, little, old(Readable(b))))
  {
    hide ByteArray.Valid, Pow2, Readable, ByteArray.Bytes, VarintFrom, TakeFix;
    if p.Vint? {
      var n := ReadVarint(b, 64);
      r := n;
    } else {
      r := ReadFix(b, PrefixWidth(p), false, little);
    }
  }

  /** A text reader meets a zero length with the cursor then at capacity: it reads 0 bytes through a null block. */
  ghost predicate NullRead(b: ByteArray, k: Kind, little: bool)
    requires b.Valid()
    reads b, b.nodes, b.Arrays()
  {
    k.TextKind? && var n := TakeLength(k.prefix, little, Readable(b));
    n.Some? && n.value.0 == 0 && b.size - |n.value.1| == b.capacity
  }

  method ReadText(b: ByteArray, p: Prefix, little: bool) returns (r: Option<Item>)
    requires b.Valid() && !NullRead(b, TextKind(p), little)
    modifies b`position, b`cur, b`at
    ensures Consumed(b, old(b.Bytes()), r, Decode(TextKind(p), little, old(Readable(b))))
  {
    hide ByteArray.Valid, Pow2, Readable, ByteArray.Bytes, TakeLength;
    var n := ReadLength(b, p, little);
    if n.None? { return None; }
    LengthNatural(p, little, old(Readable(b)));
    CursorBelow(b);
    var text := ReadBytes(b, n.value);
    if text.None? { return None; }
    return Some(TextItem(p, text.value));
  }

  lemma CursorBelow(b: ByteArray)
    requires b.Valid()
    ensures b.position + |Readable(b)| == b.size && b.position <= b.capacity
  {
  }

  lemma LengthNatural(p: Prefix, little: bool, s: seq<byte>)
    ensures var n := TakeLength(p, little, s); n.Some? ==> n.value.0 >= 0
  {
  }

  /** The reader of kind `k` does what the decoder says. */
  method ReadItem(b: ByteArray, k: Kind, little: bool) returns (r: Option<Item>)
    requires b.Valid() && KindOk(k) && !NullRead(b, k, little)
    modifies b`position, b`cur, b`at
    ensures Consumed(b, old(b.Bytes()), r, Decode(k, little, old(Readable(b))))
  {
    hide ByteArray.Valid, Pow2, Readable, ByteArray.Bytes, TakeLength, VarintFrom, TakeFix, Unzigzag;
    match k
    case FixKind(width, signed) =>
      var v := ReadFix(b, width, signed, little);
      if v.None? { return None; }
      return Some(FixItem(width, signed, v.value));
    case VarKind(bits, zigzag) =>
      var u := ReadVarint(b, bits);
      if u.None? { return None; }
      return Some(VarItem(bits, zigzag, if zigzag then Unzigzag(u.value % Pow2(bits), bits) else u.value));
    case TextKind(p) => r := ReadText(b, p, little);
  }

  // ---------- whole lists ----------

  predicate AllTyped(xs: seq<Item>) { forall i :: 0 <= i < |xs| ==> Typed(xs[i]) }

  /** Values in range of their types, texts short enough for their prefix. */
  predicate Writable(xs: seq<Item>) { forall i :: 0 <= i < |xs| ==> Fits(xs[i]) }

  predicate EmptyLast(xs: seq<Item>) { xs != [] && xs[|xs| - 1].TextItem? && xs[|xs| - 1].text == [] }

  lemma {:induction false} EncodeAllMore(xs: seq<Item>, x: Item, little: bool)
    requires AllTyped(xs) && Typed(x)
    ensures AllTyped(xs + [x]) && EncodeAll(xs + [x], little) == EncodeAll(xs, little) + Encode(x, little)
  {
    hide Encode, Typed;
    if xs == [] {
      assert xs + [x] == [x];
      assert EncodeAll([x], little) == Encode(x, little) + EncodeAll([x][1..], little);
    } else {
      assert (xs + [x])[1..] == xs[1..] + [x];
      EncodeAllMore(xs[1..], x, little);
    }
  }

  method WriteAll(b: ByteArray, xs: seq<Item>, little: bool)
    requires b.Valid() && AllTyped(xs)
    modifies b, b.nodes, b.Arrays()
    ensures Appended(b, EncodeAll(xs, little))
  {
    hide ByteArray.Chain, ByteArray.CurAt, ByteArray.Bytes, Encode, Typed, Wrote, Off;
    ghost var s, p := b.Bytes(), b.position;
    WroteNothing(b);
    for i := 0 to |xs|
      invariant Appended(b, EncodeAll(xs[..i], little))
    {
      ghost var mid := b.Bytes();
      WriteItem(b, xs[i], little);
      WroteTwice(s, p, EncodeAll(xs[..i], little), mid, Encode(xs[i], little), b.Bytes());
      EncodeAllMore(xs[..i], xs[i], little);
      assert xs[..i + 1] == xs[..i] + [xs[i]];
    }
    assert xs[..|xs|] == xs;
  }

  lemma WroteNothing(b: ByteArray)
    requires b.Valid()
    ensures Wrote(b.Bytes(), b.position, [], b.Bytes())
  {
    b.BytesLength();
  }

  /** Readers of the given kinds, one after the other, on bytes that some list of those kinds was written to. */
  method ReadAll(b: ByteArray, kinds: seq<Kind>, little: bool, ghost xs: seq<Item>,
                 ghost rest: seq<byte>) returns (ys: seq<Item>)
    requires b.Valid() && Writable(xs) && |kinds| == |xs| && (forall i :: 0 <= i < |xs| ==> kinds[i] == KindOf(xs[i]))
    requires Readable(b) == EncodeAll(xs, little) + rest
    requires !(EmptyLast(xs) && rest == [] && b.size == b.capacity)
    modifies b`position, b`cur, b`at
    ensures b.Valid() && b.Bytes() == old(b.Bytes()) && ys == xs && Readable(b) == rest
  {
    hide ByteArray.Valid, Readable, ByteArray.Bytes, Encode, Decode, Fits, Typed, KindOf, NullRead;
    WritableTyped(xs);
    ys := [];
    for i := 0 to |kinds|
      invariant b.Valid() && b.Bytes() == old(b.Bytes()) && ys == xs[..i] && AllTyped(xs[i..])
      invariant Readable(b) == EncodeAll(xs[i..], little) + rest
    {
      NextItem(xs, i, little, rest);
      NoNullRead(b, xs, i, little, rest);
      var y := ReadItem(b, kinds[i], little);
      ys := ys + [y.value];
    }
  }

  lemma WritableTyped(xs: seq<Item>)
    requires Writable(xs)
    ensures AllTyped(xs)
  {
  }

  /** What the reader of item `i` finds. */
  lemma NextItem(xs: seq<Item>, i: nat, little: bool, rest: seq<byte>)
    requires Writable(xs) && i < |xs| && AllTyped(xs[i..])
    ensures AllTyped(xs[i + 1..]) && KindOk(KindOf(xs[i]))
    ensures Decode(KindOf(xs[i]), little, EncodeAll(xs[i..], little) + rest)
         == Some((xs[i], EncodeAll(xs[i + 1..], little) + rest))
  {
    hide Encode, Decode, Pow2;
    var x, tail := xs[i], xs[i..];
    assert tail[0] == x && tail[1..] == xs[i + 1..];
    var after := EncodeAll(xs[i + 1..], little) + rest;
    assert EncodeAll(tail, little) + rest == Encode(x, little) + after;
    DecodeEncode(x, little, after);
  }

  lemma EncodeNotEmpty(x: Item, little: bool)
    requires Typed(x)
    ensures Encode(x, little) != []
  {
    hide Pow2, Zigzag;
  }

  /** The length a text reader finds at item `i`, and what is left behind it. */
  lemma TextLength(x: Item, little: bool, after: seq<byte>)
    requires Fits(x) && x.TextItem?
    ensures TakeLength(x.prefix, little, Encode(x, little) + after) == Some((|x.text|, x.text + after))
  {
    hide TakeLength, LengthBytes, Pow2;
    assert Encode(x, little) + after == LengthBytes(x.prefix, |x.text|, little) + (x.text + after);
    LengthRoundTrip(x.prefix, |x.text|, little, x.text + after);
    SmallMod(|x.text|, Pow2(8 * PrefixWidth(x.prefix)));
  }

  /** Only an empty text at the very end, with the content filling the capacity, is read through a null block. */
  lemma NoNullRead(b: ByteArray, xs: seq<Item>, i: nat, little: bool, rest: seq<byte>)
    requires b.Valid() && Writable(xs) && i < |xs| && AllTyped(xs[i..])
    requires Readable(b) == EncodeAll(xs[i..], little) + rest
    requires !(EmptyLast(xs) && rest == [] && b.size == b.capacity)
    ensures !NullRead(b, KindOf(xs[i]), little)
  {
    hide TakeLength, Encode, Pow2, ByteArray.Chain, ByteArray.CurAt, Readable;
    var x, tail := xs[i], xs[i..];
    assert tail[0] == x && tail[1..] == xs[i + 1..];
    var after := EncodeAll(xs[i + 1..], little) + rest;
    assert EncodeAll(tail, little) + rest == Encode(x, little) + after;
    if x.TextItem? {
      TextLength(x, little, after);
      if x.text == [] && i + 1 < |xs| {
        assert xs[i + 1..][0] == xs[i + 1];
        EncodeNotEmpty(xs[i + 1], little);
      }
    }
  }

  /** Writing up to `e` fills the last block. */
  predicate EndsAtCapacity(b: ByteArray, e: nat)
    requires b.baseSize >= 1
    reads b
  {
    e == b.capacity || (e > b.capacity && e % b.baseSize == 0)
  }

  /** For every base size, cursor and list: writing all, seeking back and reading with the matching readers returns
      the same list, with the cursor where the writers left it; nothing is left to read if nothing was there before.
      The one list excluded ends in an empty text and fills the last block, with nothing behind it. */
  method RoundTrip(b: ByteArray, xs: seq<Item>, little: bool) returns (ys: seq<Item>)
    requires b.Valid() && b.baseSize >= 1 && Writable(xs) && AllTyped(xs)
    requires var e := b.position + |EncodeAll(xs, little)|; !(EmptyLast(xs) && b.size <= e && EndsAtCapacity(b, e))
    modifies b, b.nodes, b.Arrays()
    ensures b.Valid() && ys == xs
    ensures b.position == old(b.position) + |EncodeAll(xs, little)|
    ensures old(b.size) <= b.position ==> b.position == b.size
  {
    hide ByteArray.Chain, ByteArray.CurAt, ByteArray.Bytes, Typed, Fits, EncodeAll, Off, KindOf, EmptyLast;
    var p := b.position;
    ghost var cap, size, base, blocks := b.capacity, b.size, b.baseSize, |b.nodes|;
    WriteAll(b, xs, little);
    b.BytesLength();
    var ok := b.SetPosition(p);
    b.BytesLength();
    ghost var data := EncodeAll(xs, little);
    ghost var rest := b.Bytes()[p + |data|..b.size];
    SliceJoin(b.Bytes(), p, p + |data|, b.size);
    assert Readable(b) == data + rest;
    CapacityGrows(b, blocks, cap);
    assert !(EmptyLast(xs) && rest == [] && b.size == b.capacity);
    var kinds := seq(|xs|, i requires 0 <= i < |xs| => KindOf(xs[i]));
    ys := ReadAll(b, kinds, little, xs, rest);
  }

  /** A capacity is a whole number of blocks, and no smaller than before. */
  lemma CapacityGrows(b: ByteArray, blocks: nat, cap: nat)
    requires b.Valid() && blocks <= |b.nodes| && cap == Off(b.baseSize, blocks)
    ensures cap <= b.capacity && b.baseSize >= 1 && b.capacity % b.baseSize == 0
  {
    OffMonotone(b.baseSize, blocks, |b.nodes|);
    OffIsProduct(b.baseSize, |b.nodes|);
    WholeBlocks(|b.nodes|, b.baseSize);
  }

  lemma WholeBlocks(n: nat, base: nat)
    requires base >= 1
    ensures (n * base) % base == 0
  {
    QuotientUnique(base, n, n * base);
  }

  // ---------- SocketStream ----------

  /** `SocketStream::read` into a ByteArray. `got` is what the socket delivered, None for its -1, which the unsigned
      result turns into 2^64 - 1. Bytes received are in the array exactly as `write` would have put them. A failed
      receive moves the cursor one back, or throws at position 0. */
  method SocketRead(b: ByteArray, length: nat, connected: bool, got: Option<seq<byte>>) returns (rt: nat, thrown: bool)
    requires b.Valid() && b.capacity + length + b.baseSize < WORD64 - 1 && (got.Some? ==> |got.value| <= length)
    modifies b, b.nodes, b.Arrays()
    ensures connected && got.Some? ==> rt == |got.value| && !thrown && Appended(b, got.value)
    ensures connected && got.None? ==> b.Valid() && rt == WORD64 - 1 && (thrown <==> old(b.position) == 0)
    ensures connected && got.None? && old(b.position) > 0 ==> b.position == old(b.position) - 1
    ensures connected && got.None? ==> b.size == old(b.size) && old(b.Bytes()) <= b.Bytes()
    ensures !connected ==>
      b.Valid() && rt == WORD64 - 1 && !thrown && b.Bytes() == old(b.Bytes()) && b.position == old(b.position)
  {
    hide ByteArray.Chain, ByteArray.CurAt, ByteArray.Bytes, Off, Wrote;
    if !connected { return WORD64 - 1, false; }
    rt := Receive(b, length, got);
    var ok := true;
    if rt > 0 { ok := b.SetPosition((b.position + rt) % WORD64); }
    thrown := !ok;
  }

  /** The segments, filled by the socket: the bytes are in place, the cursor is not moved yet. */
  method Receive(b: ByteArray, length: nat, got: Option<seq<byte>>) returns (rt: nat)
    requires b.Valid() && (got.Some? ==> |got.value| <= length)
    modifies b`nodes, b`capacity, b`cur, b.nodes, b.Arrays()
    ensures b.Valid() && b.Extends() && b.position + length <= b.capacity
    ensures b.capacity == old(b.capacity) || b.capacity - b.position < length + b.baseSize
    ensures got.None? ==> rt == WORD64 - 1 && old(b.Bytes()) <= b.Bytes()
    ensures got.Some? ==> rt == |got.value| && Wrote(old(b.Bytes()), b.position, got.value, b.Bytes())
  {
    hide ByteArray.Chain, ByteArray.CurAt, ByteArray.Bytes, ByteArray.Covers, Off, Splice, Wrote;
    b.BytesLength();
    ghost var s := b.Bytes();
    var segs := b.GetWriteBuffers(length);
    b.BytesLength();
    ghost var grown, p := b.Bytes(), b.position;
    rt := WORD64 - 1;
    if got.Some? {
      b.Scatter(segs, got.value, p, p + length);
      SpliceWrote(s, grown, p, got.value);
      rt := |got.value|;
    }
  }
}
