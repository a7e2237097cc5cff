/** The WebSocket wire format of section 5.2 of RFC 6455, byte by byte: what a sender's frame consists of, and what the
    receiver makes of any bytes. Bits are read off the bytes themselves, opcodes are numbers. */
module WsWire {
  import opened Words
  import opened ByteBlocks
  import opened ByteCodec
  import opened WebSocket

  // ---------- exclusive or ----------

  lemma XorHalves(a: nat, b: nat, bits: nat)
    requires bits > 0
    ensures Xor(a, b, bits) % 2 == (a + b) % 2 && Xor(a, b, bits) / 2 == Xor(a / 2, b / 2, bits - 1)
  {
    Halves((a % 2 + b % 2) % 2, Xor(a / 2, b / 2, bits - 1));
    Parity(a, b);
  }

  lemma Parity(a: nat, b: nat)
    ensures (a % 2 + b % 2) % 2 == (a + b) % 2
  {
  }

  function BitAt(x: nat, k: nat): nat { if k == 0 then x % 2 else BitAt(x / 2, k - 1) }

  /** Bit `k` of the mask operation is the parity of the two bits. */
  lemma {:induction false} XorBit(a: nat, b: nat, bits: nat, k: nat)
    requires k < bits
    ensures BitAt(Xor(a, b, bits), k) == (BitAt(a, k) + BitAt(b, k)) % 2
  {
    hide Xor;
    XorHalves(a, b, bits);
    if k > 0 { XorBit(a / 2, b / 2, bits - 1, k - 1); }
  }

  // ---------- what goes out ----------

  /** How many bytes stand before the mask or the payload. */
  function HeadSize(n: nat): nat { if n < 126 then 2 else if n < 65536 then 4 else 10 }

  lemma FormIs(n: nat)
    requires n < Pow2(64)
    ensures |FormBytes(n)| == HeadSize(n) - 2
    ensures n >= 126 ==> BigEndian(FormBytes(n)) == n
  {
    FormRoundTrip(n, []);
    assert FormBytes(n) + [] == FormBytes(n);
    SwappedLoads(FormBytes(n));
  }

  function Word16(high: nat, low: nat): nat { 256 * high + low }

  lemma TwoBytes(s: seq<byte>)
    requires |s| == 2
    ensures BigEndian(s) == Word16(s[0], s[1])
  {
    assert s[..1][..0] == [];
    assert BigEndian(s[..1]) == s[0];
  }

  /** Every frame: fin in the top bit and the opcode in the low four bits of the first byte, the mask bit and the length
      or its form in the second, a longer length most significant byte first, then the mask and the masked payload,
      or the payload. */
  lemma FrameOnWire(opcode: nat, data: seq<byte>, client: bool, fin: bool, mask: seq<byte>)
    requires |mask| == 4 && |data| < Pow2(64)
    ensures var f, n := Frame(opcode, data, client, fin, mask), |data|; var h := HeadSize(n);
      && |f| == h + (if client then 4 else 0) + n
      && f[0] == (if fin then 128 else 0) + opcode % 16
      && f[1] == (if client then 128 else 0) + (if n < 126 then n else if n < 65536 then 126 else 127)
      && (126 <= n < 65536 ==> Word16(f[2], f[3]) == n)
      && (65536 <= n ==> BigEndian(f[2..10]) == n)
      && (client ==> f[h..h + 4] == mask && f[h + 4..] == Masked(data, mask))
      && (!client ==> f[h..] == data)
  {
    hide FormBytes, Masked, Pow2, BigEndian;
    var f, n := Frame(opcode, data, client, fin, mask), |data|;
    var h := HeadSize(n);
    FormIs(n);
    assert f[2..h] == FormBytes(n);
    if 126 <= n < 65536 { TwoBytes(FormBytes(n)); }
  }

  /** A ping is 0x89 0x00, a pong 0x8A 0x00. */
  lemma ControlOnWire(opcode: nat)
    ensures |Control(opcode)| == 2 && Control(opcode)[0] == 128 + opcode % 16 && Control(opcode)[1] == 0
    ensures PING == 9 && PONG == 10
  {
  }

  // ---------- what comes in ----------

  /** A length in one of the three forms, not necessarily the shortest. */
  predicate Announces(low: nat, form: seq<byte>, n: nat) {
    if low < 126 then form == [] && n == low
    else if low == 126 then |form| == 2 && Word16(form[0], form[1]) == n
    else |form| == 8 && BigEndian(form) == n
  }

  lemma AnnouncedLength(low: nat, form: seq<byte>, n: nat, rest: seq<byte>)
    requires low < 128 && Announces(low, form, n)
    ensures FormSize(low) == |form| && LengthOf(low, form + rest) == n
  {
    assert (form + rest)[..|form|] == form;
    SwappedLoads(form);
    if low == 126 { TwoBytes(form); }
  }

  /** The raw bytes of one frame. */
  function Raw(a: byte, b: byte, form: seq<byte>, mask: seq<byte>, payload: seq<byte>): seq<byte> {
    [a, b] + form + mask + payload
  }

  /** The part of a frame's body that is taken, from raw bytes. */
  lemma RawBody(b: byte, form: seq<byte>, mask: seq<byte>, payload: seq<byte>, rest: seq<byte>, h: Head, sofar: nat,
                max: nat)
    requires h.payload == b % 128 && h.mask == (b >= 128) && Announces(b % 128, form, |payload|) && payload != []
    requires |mask| == (if b >= 128 then 4 else 0) && sofar + |payload| < max < WORD32 && sofar + |payload| < INT_END
    ensures Body(h, form + mask + payload + rest, sofar, max)
         == Part(if b >= 128 then Masked(payload, mask) else payload, rest)
  {
    hide LengthOf, Masked, Unmasked, LoopBound, Passes, CastInt, FormSize, Announces;
    var n, tail := |payload|, mask + payload + rest;
    AnnouncedLength(b % 128, form, n, tail);
    SmallCounts(sofar, n, max);
    assert form + mask + payload + rest == form + tail && (form + tail)[|form|..] == tail;
    assert tail[..|mask|] == mask && tail[|mask|..] == payload + rest;
    assert (payload + rest)[..n] == payload && (payload + rest)[n..] == rest;
    if b >= 128 { UnmaskedAll(payload, mask); } else { assert tail == payload + rest; }
  }

  lemma RawHead(a: byte, b: byte, s: seq<byte>)
    ensures var h := HeadOf([a, b] + s);
      h.opcode == a % 16 && h.fin == (a >= 128) && h.payload == b % 128 && h.mask == (b >= 128)
    ensures ([a, b] + s)[2..] == s
  {
  }

  /** A data frame from anybody, its opcode 0, 1 or 2, in any of the length forms and whatever the reserved bits: the
      payload, unmasked if the mask bit is set, is added to the message, which ends if the top bit is set; a server
      refuses it unmasked. */
  lemma DataFromWire(a: byte, b: byte, form: seq<byte>, mask: seq<byte>, payload: seq<byte>, rest: seq<byte>, room: nat,
                     client: bool, max: nat, opcode: nat, data: seq<byte>, pongs: nat)
    requires a % 16 in {0, 1, 2} && Announces(b % 128, form, |payload|) && payload != []
    requires |mask| == (if b >= 128 then 4 else 0)
    requires |data| + |payload| < max < WORD32 && |data| + |payload| < INT_END
    ensures var op := if opcode == 0 && a % 16 != 0 then a % 16 else opcode;
      var got := data + (if b >= 128 then Masked(payload, mask) else payload);
      Receive(Raw(a, b, form, mask, payload) + rest, room, client, max, opcode, data, pongs)
        == if !client && b < 128 then Failed
           else if a >= 128 then Message(op, got, rest, pongs)
           else Receive(rest, room, client, max, op, got, pongs)
  {
    hide Body, HeadOf, Masked, Announces;
    var s := form + mask + payload + rest;
    assert Raw(a, b, form, mask, payload) + rest == [a, b] + s;
    RawHead(a, b, s);
    RawBody(b, form, mask, payload, rest, HeadOf([a, b] + s), |data|, max);
  }

  /** Every other header is two bytes: opcode 9 is answered with a pong, or fails where that cannot be sent; the rest is
      passed over. */
  lemma OthersFromWire(a: byte, b: byte, rest: seq<byte>, room: nat, client: bool, max: nat, opcode: nat,
                       data: seq<byte>, pongs: nat)
    requires a % 16 !in {0, 1, 2}
    ensures Receive([a, b] + rest, room, client, max, opcode, data, pongs)
         == if a % 16 != 9 then Receive(rest, room, client, max, opcode, data, pongs)
            else if room < 2 then Failed
            else Receive(rest, room - 2, client, max, opcode, data, pongs + 1)
  {
    hide Body, HeadOf;
    RawHead(a, b, rest);
  }
}
