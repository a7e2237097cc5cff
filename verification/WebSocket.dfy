/** WebSocket frames (section 5.2 of RFC 6455) as byte strings. */
module WebSocket {
  import opened Words
  import opened ByteBlocks
  import opened ByteCodec

  const CONTINUE := 0
  const TEXT_FRAME := 1
  const BIN_FRAME := 2
  const PING := 0x9
  const PONG := 0xA

  /** `WSFrameHead`: two bytes of bit fields, low bits first. */
  datatype Head = Head(opcode: nat, rsv3: bool, rsv2: bool, rsv1: bool, fin: bool, payload: nat, mask: bool)

  predicate HeadOk(h: Head) { h.opcode < 16 && h.payload < 128 }

  function Bit(b: bool): nat { if b then 1 else 0 }

  function HeadBytes(h: Head): (r: seq<byte>)
    requires HeadOk(h)
    ensures |r| == 2
  {
    [h.opcode + 16 * Bit(h.rsv3) + 32 * Bit(h.rsv2) + 64 * Bit(h.rsv1) + 128 * Bit(h.fin),
     h.payload + 128 * Bit(h.mask)]
  }

  function HeadOf(s: seq<byte>): (h: Head)
    requires |s| >= 2
    ensures HeadOk(h)
  {
    var a: int, b: int := s[0], s[1];
    Head(a % 16, a / 16 % 2 == 1, a / 32 % 2 == 1, a / 64 % 2 == 1, a / 128 == 1, b % 128, b / 128 == 1)
  }

  lemma HeadRoundTrip(h: Head, rest: seq<byte>)
    requires HeadOk(h)
    ensures HeadOf(HeadBytes(h) + rest) == h
  {
    var s := HeadBytes(h) + rest;
    assert s[0] == HeadBytes(h)[0] && s[1] == HeadBytes(h)[1];
  }

  // ---------- masking ----------

  function Xor(a: nat, b: nat, bits: nat): nat {
    if bits == 0 then 0 else (a % 2 + b % 2) % 2 + 2 * Xor(a / 2, b / 2, bits - 1)
  }

  lemma {:induction false} XorBound(a: nat, b: nat, bits: nat)
    ensures Xor(a, b, bits) < Pow2(bits)
  {
    if bits > 0 { XorBound(a / 2, b / 2, bits - 1); }
  }

  lemma Halves(bit: nat, x: nat)
    requires bit < 2
    ensures (bit + 2 * x) / 2 == x && (bit + 2 * x) % 2 == bit
  {
  }

  lemma ParityTwice(a: nat, b: nat)
    ensures ((a % 2 + b % 2) % 2 + b % 2) % 2 == a % 2
  {
  }

  lemma {:induction false} XorTwice(a: nat, b: nat, bits: nat)
    requires a < Pow2(bits)
    ensures Xor(Xor(a, b, bits), b, bits) == a
  {
    if bits > 0 {
      Halves((a % 2 + b % 2) % 2, Xor(a / 2, b / 2, bits - 1));
      ParityTwice(a, b);
      XorTwice(a / 2, b / 2, bits - 1);
    }
  }

  function XorByte(a: byte, b: byte): byte {
    XorBound(a, b, 8);
    Pow2Of8();
    Xor(a, b, 8)
  }

  function Masked(data: seq<byte>, mask: seq<byte>): (r: seq<byte>)
    requires |mask| == 4
    ensures |r| == |data|
  {
    seq(|data|, i requires 0 <= i < |data| => XorByte(data[i], mask[i % 4]))
  }

  lemma MaskedTwice(data: seq<byte>, mask: seq<byte>)
    requires |mask| == 4
    ensures Masked(Masked(data, mask), mask) == data
  {
    hide Xor, Pow2;
    forall i | 0 <= i < |data| ensures Masked(Masked(data, mask), mask)[i] == data[i] {
      Pow2Of8();
      XorTwice(data[i], mask[i % 4], 8);
    }
  }

  // ---------- frames ----------

  /** The payload field: the length itself, or which longer form follows. */
  function PayloadField(n: nat): (p: nat)
    ensures p < 128
  {
    if n < 126 then n else if n < 65536 then 126 else 127
  }

  function FormSize(payload: nat): nat { if payload == 126 then 2 else if payload == 127 then 8 else 0 }

  /** The longer form, in network byte order. */
  function FormBytes(n: nat): (r: seq<byte>)
    requires n < Pow2(64)
    ensures |r| == FormSize(PayloadField(n))
  {
    Swapped(Memory(n, FormSize(PayloadField(n))))
  }

  /** The payload length a header announces, from the bytes after it. */
  function LengthOf(payload: nat, s: seq<byte>): nat
    requires FormSize(payload) <= |s|
  {
    if FormSize(payload) == 0 then payload else Loaded(Swapped(s[..FormSize(payload)]))
  }

  lemma FormRoundTrip(n: nat, rest: seq<byte>)
    requires n < Pow2(64)
    ensures LengthOf(PayloadField(n), FormBytes(n) + rest) == n
  {
    var w := FormSize(PayloadField(n));
    assert (FormBytes(n) + rest)[..w] == FormBytes(n);
    if w == 2 { assert n < Pow2(8 * 2) by { Pow2Of8(); Pow2Add(8, 8); } }
    if w > 0 {
      MemoryLoaded(n, w);
      SwappedTwice(Memory(n, w));
    }
  }

  lemma {:induction false} LoadedBound(s: seq<byte>)
    ensures Loaded(s) < Pow2(8 * |s|)
  {
    if s != [] {
      LoadedBound(s[1..]);
      Pow2Add(8 * |s[1..]|, 8);
      Pow2Of8();
    }
  }

  /** The form used is minimal: no header announcing the same length uses fewer bytes for it. */
  lemma FormMinimal(n: nat, payload: nat, s: seq<byte>)
    requires payload < 128 && FormSize(payload) <= |s| && LengthOf(payload, s) == n
    ensures FormSize(PayloadField(n)) <= FormSize(payload)
  {
    if payload == 126 {
      LoadedBound(Swapped(s[..2]));
      assert Pow2(8 * 2) == 65536 by { Pow2Of8(); Pow2Add(8, 8); }
    }
  }

  function FrameHead(opcode: nat, size: nat, client: bool, fin: bool): (h: Head)
    ensures HeadOk(h)
  {
    Head(opcode % 16, false, false, false, fin, PayloadField(size), client)
  }

  /** One frame on the wire: the mask is present exactly when the sender is a client. */
  function Frame(opcode: nat, data: seq<byte>, client: bool, fin: bool, mask: seq<byte>): seq<byte>
    requires |mask| == 4 && |data| < Pow2(64)
  {
    HeadBytes(FrameHead(opcode, |data|, client, fin)) + FormBytes(|data|)
    + (if client then mask + Masked(data, mask) else data)
  }

  /** A bare control header, as WSPing and WSPong send it. */
  function Control(opcode: nat): seq<byte> { HeadBytes(Head(opcode % 16, false, false, false, true, 0, false)) }

  // ---------- receiving ----------

  /** 2^31: from here on a 32-bit int is negative. */
  const INT_END: int := 0x8000_0000

  /** The limit test: the message so far is counted in a 32-bit int, and added to the announced length in 64 bits. */
  predicate Passes(sofar: nat, n: nat, max: nat) { (CastInt(sofar) + n) % WORD64 < max }

  /** The test answers whether the message stays below the limit exactly when: below 2^31 bytes, the sum does not wrap;
      from 2^31 bytes on, when the count is negative, neither the message nor the wrapped sum stays below the limit. */
  lemma LimitKept(sofar: nat, n: nat, max: nat)
    requires sofar < max < WORD32 && n < WORD64
    ensures (Passes(sofar, n, max) <==> sofar + n < max) <==>
      if sofar < INT_END then sofar + n < WORD64
      else max <= sofar + n && (sofar + n < WORD32 || WORD32 + max <= sofar + n)
  {
    var sum := CastInt(sofar) + n;
    if sofar < INT_END {
      assert CastInt(sofar) == sofar;
      Wrapped(sum);
    } else {
      assert CastInt(sofar) == sofar - WORD32;
      Wrapped(sum);
    }
  }

  /** A sum of an int and a 64-bit length, as 64 bits hold it. */
  lemma Wrapped(sum: int)
    requires 0 - WORD32 <= sum < 2 * WORD64
    ensures sum % WORD64 == if sum < 0 then sum + WORD64 else if sum < WORD64 then sum else sum - WORD64
  {
  }

  /** Under this limit the test is right for every message below it and every length that does not wrap the sum. */
  ghost predicate LimitRight(max: nat) {
    forall sofar: nat, n: nat | sofar < max && sofar + n < WORD64 :: Passes(sofar, n, max) <==> sofar + n < max
  }

  /** That is so exactly when the limit is at most 2^31. */
  lemma LimitRightExactlyWhen(max: nat)
    requires max < WORD32
    ensures LimitRight(max) <==> max <= INT_END
  {
    if max <= INT_END {
      forall sofar: nat, n: nat | sofar < max && sofar + n < WORD64
        ensures Passes(sofar, n, max) <==> sofar + n < max
      {
        LimitKept(sofar, n, max);
      }
    } else {
      LimitKept(INT_END, 0, max);
      assert !(Passes(INT_END, 0, max) <==> INT_END + 0 < max);
    }
  }

  /** Above 2^31: a frame that takes the message past the limit passes, and one that does not is refused. */
  lemma LimitAboveInt()
    ensures var max := 0x8000_0000 + 1000;
      && Passes(INT_END, 0x8000_0000 + 500, max) && INT_END + (0x8000_0000 + 500) >= max
      && !Passes(INT_END, 1, max) && INT_END + 1 < max
  {
  }

  /** How many bytes the unmasking loop visits: its bound is the length as an int. */
  function LoopBound(n: nat): nat { if CastInt(n) > 0 then CastInt(n) else 0 }

  /** A payload with its first `k` bytes unmasked. */
  function Unmasked(data: seq<byte>, mask: seq<byte>, k: nat): (r: seq<byte>)
    requires |mask| == 4 && k <= |data|
    ensures |r| == |data|
  {
    Masked(data[..k], mask) + data[k..]
  }

  lemma LoopBoundSmall(n: nat)
    ensures LoopBound(n) <= n && (n < INT_END ==> LoopBound(n) == n) && (INT_END <= n < WORD32 ==> LoopBound(n) == 0)
  {
  }

  /** What one data frame's bytes after the header give: its payload, unmasked as far as the loop goes, and what
      follows; a refusal, because the stream ends inside the frame, the announced length is 0 or the limit test fails;
      or an access outside the buffer, because the sum wrapped or a 32-bit count is negative. */
  datatype BodyResult = Refused | Overrun | Part(data: seq<byte>, rest: seq<byte>)

  function Body(h: Head, s: seq<byte>, sofar: nat, max: nat): BodyResult {
    var w := FormSize(h.payload);
    if |s| < w then Refused
    else
      var n := LengthOf(h.payload, s);
      var s := s[w..];
      if !Passes(sofar, n, max) then Refused
      else if h.mask && |s| < 4 then Refused
      else if CastInt(sofar) < 0 || CastInt(sofar) + n >= WORD64 then Overrun
      else
        var mask := if h.mask then s[..4] else [0, 0, 0, 0];
        var s := if h.mask then s[4..] else s;
        LoopBoundSmall(n);
        if n == 0 || |s| < n then Refused
        else if h.mask && CastInt(sofar) + LoopBound(n) > INT_END then Overrun
        else Part(if h.mask then Unmasked(s[..n], mask, LoopBound(n)) else s[..n], s[n..])
  }

  lemma BodyShrinks(h: Head, s: seq<byte>, sofar: nat, max: nat)
    ensures var b := Body(h, s, sofar, max); b.Part? ==> |b.rest| <= |s|
  {
  }

  /** A frame that is neither refused nor an overrun keeps the message below the limit. */
  lemma PartBelowLimit(h: Head, s: seq<byte>, sofar: nat, max: nat)
    requires sofar < WORD32
    ensures var b := Body(h, s, sofar, max); b.Part? ==> sofar + |b.data| < max
  {
    hide LengthOf, Unmasked, LoopBound;
  }

  predicate DataOpcode(op: nat) { op == CONTINUE || op == TEXT_FRAME || op == BIN_FRAME }

  datatype Received = Failed | Undefined | Message(opcode: nat, data: seq<byte>, rest: seq<byte>, pongs: nat)

  /** `WSRecvMessage` on the bytes that will arrive, with `room` for answers, the opcode and data so far, and the
      number of pongs sent. */
  function Receive(s: seq<byte>, room: nat, client: bool, max: nat, opcode: nat, data: seq<byte>, pongs: nat): Received
    decreases |s|
  {
    if |s| < 2 then Failed
    else
      var h, after := HeadOf(s), s[2..];
      if h.opcode == PING then
        if room < 2 then Failed else Receive(after, room - 2, client, max, opcode, data, pongs + 1)
      else if DataOpcode(h.opcode) then
        if !client && !h.mask then Failed
        else match Body(h, after, |data|, max)
          case Refused => Failed
          case Overrun => Undefined
          case Part(part, rest) =>
            BodyShrinks(h, after, |data|, max);
            var opcode := if opcode == 0 && h.opcode != CONTINUE then h.opcode else opcode;
            if h.fin then Message(opcode, data + part, rest, pongs)
            else Receive(rest, room, client, max, opcode, data + part, pongs)
      else Receive(after, room, client, max, opcode, data, pongs)
  }

  // ---------- what a sender puts on the wire is what the receiver gets ----------

  /** What a peer may send between the fragments of one message and as them. */
  datatype Sent = Fragment(opcode: nat, data: seq<byte>, mask: seq<byte>) | Ping | Pong

  predicate Sendable(x: Sent) {
    x.Fragment? ==> DataOpcode(x.opcode) && x.data != [] && |x.mask| == 4 && |x.data| < Pow2(64)
  }

  predicate AllSendable(xs: seq<Sent>) { forall i :: 0 <= i < |xs| ==> Sendable(xs[i]) }

  function WireOf(x: Sent, client: bool, fin: bool): seq<byte>
    requires Sendable(x)
  {
    match x
    case Fragment(opcode, data, mask) => Frame(opcode, data, client, fin, mask)
    case Ping => Control(PING)
    case Pong => Control(PONG)
  }

  /** A whole message: the last item is the fragment that ends it. */
  function Wire(xs: seq<Sent>, client: bool): seq<byte>
    requires AllSendable(xs)
  {
    if xs == [] then [] else WireOf(xs[0], client, |xs| == 1) + Wire(xs[1..], client)
  }

  function Payloads(xs: seq<Sent>): seq<byte> {
    if xs == [] then [] else (if xs[0].Fragment? then xs[0].data else []) + Payloads(xs[1..])
  }

  /** The first opcode that is not CONTINUE, or 0. */
  function FirstOpcode(xs: seq<Sent>): nat {
    if xs == [] then 0 else if xs[0].Fragment? && xs[0].opcode != CONTINUE then xs[0].opcode else FirstOpcode(xs[1..])
  }

  function Pings(xs: seq<Sent>): nat { if xs == [] then 0 else (if xs[0].Ping? then 1 else 0) + Pings(xs[1..]) }

  lemma FrameParts(opcode: nat, data: seq<byte>, client: bool, fin: bool, mask: seq<byte>, rest: seq<byte>)
    requires |mask| == 4 && |data| < Pow2(64)
    ensures var s := Frame(opcode, data, client, fin, mask) + rest;
      && |s| >= 2 && HeadOf(s) == FrameHead(opcode, |data|, client, fin)
      && s[2..] == FormBytes(|data|) + ((if client then mask + Masked(data, mask) else data) + rest)
  {
    hide Pow2, FormBytes, HeadOf;
    var h := FrameHead(opcode, |data|, client, fin);
    var tail := FormBytes(|data|) + ((if client then mask + Masked(data, mask) else data) + rest);
    assert Frame(opcode, data, client, fin, mask) + rest == HeadBytes(h) + tail;
    HeadRoundTrip(h, tail);
    assert (HeadBytes(h) + tail)[2..] == tail;
  }

  /** Below 2^31 bytes nothing wraps: the limit test passes and the whole payload is unmasked. */
  lemma SmallCounts(sofar: nat, n: nat, max: nat)
    requires sofar + n < max < WORD32 && sofar + n < INT_END
    ensures Passes(sofar, n, max) && CastInt(sofar) == sofar && LoopBound(n) == n
  {
    LimitKept(sofar, n, max);
    LoopBoundSmall(n);
  }

  /** The body of a frame is its payload, masked or not. */
  lemma FrameBody(h: Head, data: seq<byte>, mask: seq<byte>, rest: seq<byte>, sofar: nat, max: nat)
    requires |mask| == 4 && |data| < Pow2(64) && h.payload == PayloadField(|data|) && data != []
    requires sofar + |data| < max < WORD32 && sofar + |data| < INT_END
    ensures var s := FormBytes(|data|) + ((if h.mask then mask + Masked(data, mask) else data) + rest);
      Body(h, s, sofar, max) == Part(data, rest)
  {
    hide Pow2, FormBytes, LengthOf, Masked, Unmasked, LoopBound, Passes, CastInt, FormSize, PayloadField;
    var tail := (if h.mask then mask + Masked(data, mask) else data) + rest;
    var s := FormBytes(|data|) + tail;
    FormRoundTrip(|data|, tail);
    assert s[FormSize(h.payload)..] == tail;
    SmallCounts(sofar, |data|, max);
    if h.mask {
      assert tail[..4] == mask && tail[4..] == Masked(data, mask) + rest;
      assert tail[4..][..|data|] == Masked(data, mask) && tail[4..][|data|..] == rest;
      UnmaskedAll(Masked(data, mask), mask);
      MaskedTwice(data, mask);
    } else {
      assert tail[..|data|] == data && tail[|data|..] == rest;
    }
  }

  lemma UnmaskedAll(data: seq<byte>, mask: seq<byte>)
    requires |mask| == 4
    ensures Unmasked(data, mask, |data|) == Masked(data, mask) && Unmasked(data, mask, 0) == data
  {
    assert data[..|data|] == data;
  }

  /** A masked frame of 2^31 bytes or more, below a larger limit, is taken as it came: the loop does not run. */
  lemma LargeFrameStaysMasked(h: Head, data: seq<byte>, mask: seq<byte>, rest: seq<byte>, max: nat)
    requires |mask| == 4 && |data| < Pow2(64) && h.payload == PayloadField(|data|) && h.mask
    requires INT_END <= |data| < max < WORD32
    ensures Body(h, FormBytes(|data|) + (mask + Masked(data, mask) + rest), 0, max) == Part(Masked(data, mask), rest)
  {
    hide Pow2, FormBytes, LengthOf, Masked, LoopBound;
    var tail := mask + Masked(data, mask) + rest;
    var s := FormBytes(|data|) + tail;
    FormRoundTrip(|data|, tail);
    assert s[FormSize(h.payload)..] == tail;
    LimitKept(0, |data|, max);
    LoopBoundSmall(|data|);
    assert CastInt(0) == 0;
    assert tail[..4] == mask && tail[4..] == Masked(data, mask) + rest;
    assert tail[4..][..|data|] == Masked(data, mask) && tail[4..][|data|..] == rest;
    UnmaskedAll(Masked(data, mask), mask);
  }

  /** One fragment received. */
  lemma ReceiveFragment(x: Sent, sender: bool, fin: bool, s: seq<byte>, room: nat, client: bool, max: nat, opcode: nat,
                        data: seq<byte>, pongs: nat)
    requires x.Fragment? && Sendable(x) && (client || sender) && |data| + |x.data| < max < WORD32
    requires |data| + |x.data| < INT_END
    ensures var op := if opcode == 0 && x.opcode != CONTINUE then x.opcode else opcode;
      Receive(WireOf(x, sender, fin) + s, room, client, max, opcode, data, pongs)
      == if fin then Message(op, data + x.data, s, pongs) else Receive(s, room, client, max, op, data + x.data, pongs)
  {
    hide Pow2, Frame, Body, HeadOf;
    FrameParts(x.opcode, x.data, sender, fin, x.mask, s);
    FrameBody(FrameHead(x.opcode, |x.data|, sender, fin), x.data, x.mask, s, |data|, max);
  }

  lemma ReceiveControl(op: nat, s: seq<byte>, room: nat, client: bool, max: nat, opcode: nat, data: seq<byte>,
                       pongs: nat)
    requires op == PING || op == PONG
    requires op == PING ==> room >= 2
    ensures Receive(Control(op) + s, room, client, max, opcode, data, pongs)
      == if op == PING then Receive(s, room - 2, client, max, opcode, data, pongs + 1)
      else Receive(s, room, client, max, opcode, data, pongs)
  {
    hide HeadOf, HeadBytes;
    HeadRoundTrip(Head(op, false, false, false, true, 0, false), s);
    assert (Control(op) + s)[2..] == s;
  }

  /** Whatever the fragmentation and wherever pings and pongs fall: the receiver gets the first data opcode and the
      payloads, in order, answers every ping, and leaves what follows the message untouched. */
  lemma {:induction false} ReceiveWire(xs: seq<Sent>, sender: bool, rest: seq<byte>, room: nat, client: bool, max: nat,
                                       opcode: nat, data: seq<byte>, pongs: nat)
    requires AllSendable(xs) && xs != [] && xs[|xs| - 1].Fragment? && (client || sender)
    requires |data| + |Payloads(xs)| < max < WORD32 && |data| + |Payloads(xs)| < INT_END && room >= 2 * Pings(xs)
    ensures Receive(Wire(xs, sender) + rest, room, client, max, opcode, data, pongs)
         == Message(if opcode == 0 then FirstOpcode(xs) else opcode, data + Payloads(xs), rest, pongs + Pings(xs))
    decreases |xs|
  {
    hide *;
    var x, tail := xs[0], xs[1..];
    Unfold(xs, sender, rest, data);
    var s := Wire(tail, sender) + rest;
    WireStep(x, sender, |xs| == 1, s, room, client, max, opcode, data, pongs, |Payloads(tail)|);
    if tail != [] {
      if x.Fragment? {
        var op := if opcode == 0 && x.opcode != CONTINUE then x.opcode else opcode;
        ReceiveWire(tail, sender, rest, room, client, max, op, data + x.data, pongs);
      } else {
        ReceiveWire(tail, sender, rest, if x.Ping? then room - 2 else room, client, max, opcode, data,
                    if x.Ping? then pongs + 1 else pongs);
      }
    }
  }

  lemma Unfold(xs: seq<Sent>, sender: bool, rest: seq<byte>, data: seq<byte>)
    requires AllSendable(xs) && xs != []
    ensures var x, tail := xs[0], xs[1..];
      && Sendable(x) && AllSendable(tail) && CONTINUE == 0
      && Wire(xs, sender) + rest == WireOf(x, sender, |xs| == 1) + (Wire(tail, sender) + rest)
      && data + Payloads(xs) == (if x.Fragment? then data + x.data + Payloads(tail) else data + Payloads(tail))
      && |Payloads(xs)| == |Payloads(tail)| + (if x.Fragment? then |x.data| else 0)
      && FirstOpcode(xs) == (if x.Fragment? && x.opcode != CONTINUE then x.opcode else FirstOpcode(tail))
      && Pings(xs) == Pings(tail) + (if x.Ping? then 1 else 0)
      && (tail == [] ==> Wire(tail, sender) + rest == rest)
      && (tail == [] ==> data + Payloads(xs) == if x.Fragment? then data + x.data else data)
      && (tail == [] ==> FirstOpcode(tail) == 0 && Pings(tail) == 0 && |Payloads(tail)| == 0)
  {
    hide WireOf, Sendable;
    var x, tail := xs[0], xs[1..];
    assert Wire(xs, sender) == WireOf(x, sender, |xs| == 1) + Wire(tail, sender);
    Assoc(WireOf(x, sender, |xs| == 1), Wire(tail, sender), rest);
    if x.Fragment? { Assoc(data, x.data, Payloads(tail)); } else { Assoc(data, [], Payloads(tail)); }
  }

  lemma Assoc(a: seq<byte>, b: seq<byte>, c: seq<byte>)
    ensures (a + b) + c == a + (b + c) && a + [] == a && [] + c == c
  {
  }

  lemma WireStep(x: Sent, sender: bool, fin: bool, s: seq<byte>, room: nat, client: bool, max: nat, opcode: nat,
                 data: seq<byte>, pongs: nat, more: nat)
    requires Sendable(x) && (client || sender) && (x.Ping? ==> room >= 2)
    requires max < WORD32 && (x.Fragment? ==> |data| + |x.data| + more < max && |data| + |x.data| + more < INT_END)
    ensures Receive(WireOf(x, sender, fin) + s, room, client, max, opcode, data, pongs)
      == match x
         case Fragment(op, part, _) =>
           var op := if opcode == 0 && op != CONTINUE then op else opcode;
           if fin then Message(op, data + part, s, pongs) else Receive(s, room, client, max, op, data + part, pongs)
         case Ping => Receive(s, room - 2, client, max, opcode, data, pongs + 1)
         case Pong => Receive(s, room, client, max, opcode, data, pongs)
  {
    hide Receive, Frame, Control, Pow2;
    match x
    case Fragment(_, _, _) => ReceiveFragment(x, sender, fin, s, room, client, max, opcode, data, pongs);
    case Ping => ReceiveControl(PING, s, room, client, max, opcode, data, pongs);
    case Pong => ReceiveControl(PONG, s, room, client, max, opcode, data, pongs);
  }

  // ---------- the wrapping sum ----------

  /** A one-byte fragment, then a frame announcing 2^64 - 1 bytes, with payload following. */
  function WrappingInput(mask: seq<byte>, payload: seq<byte>): seq<byte>
    requires |mask| == 4
  {
    SmallFits();
    Frame(TEXT_FRAME, [65], true, false, mask) + (LongHeader() + mask + payload)
  }

  function LongHeader(): seq<byte> {
    HeadBytes(Head(CONTINUE, false, false, false, true, 127, true)) + seq(8, _ => 255)
  }

  lemma SmallFits()
    ensures 1 < Pow2(64)
  {
    Pow2Strict(0, 64);
  }

  lemma LongLength(rest: seq<byte>)
    ensures LengthOf(127, seq(8, _ => 255) + rest) == WORD64 - 1
  {
    var ff: seq<byte> := seq(8, _ => 255);
    assert (ff + rest)[..8] == ff;
    SwappedSame(ff);
    AllOnes(8);
    OnesAre(8);
    Pow2Of64();
  }

  lemma {:induction false} OnesAre(n: nat)
    ensures Ones(n) == seq(n, _ => 255)
  {
    if n > 0 { OnesAre(n - 1); }
  }

  lemma Pow2Of64()
    ensures Pow2(64) == WORD64
  {
    hide Pow2;
    Pow2Of8();
    Pow2Add(8, 8);
    Pow2Add(16, 16);
    Pow2Add(32, 32);
  }

  function Ones(n: nat): seq<byte> { if n == 0 then [] else [255] + Ones(n - 1) }

  lemma {:induction false} SwappedSame(s: seq<byte>)
    requires forall i :: 0 <= i < |s| ==> s[i] == 255
    ensures Swapped(s) == s
  {
    if s != [] { SwappedSame(s[1..]); }
  }

  lemma {:induction false} AllOnes(n: nat)
    ensures Loaded(Ones(n)) == Pow2(8 * n) - 1
  {
    if n > 0 {
      AllOnes(n - 1);
      assert Ones(n)[1..] == Ones(n - 1);
      Pow2Add(8 * (n - 1), 8);
      Pow2Of8();
    }
  }

  /** Any limit above one byte, any payload: the second frame passes the test, the buffer is cut to no bytes, and the
      payload is read to index 1 of it. */
  lemma LimitWraps(mask: seq<byte>, payload: seq<byte>, room: nat, max: nat)
    requires |mask| == 4 && payload != [] && 1 < max < WORD32
    ensures Passes(1, WORD64 - 1, max) && (CastInt(1) + (WORD64 - 1)) % WORD64 == 0
    ensures Receive(WrappingInput(mask, payload), room, false, max, 0, [], 0) == Undefined
  {
    hide Frame, Receive, LengthOf;
    SmallFits();
    var x := Fragment(TEXT_FRAME, [65], mask);
    var s := LongHeader() + mask + payload;
    assert WrappingInput(mask, payload) == WireOf(x, true, false) + s;
    ReceiveFragment(x, true, false, s, room, false, max, 0, [], 0);
    assert [] + x.data == x.data;
    LongFrame(mask, payload, room, max, [65]);
  }

  lemma LongFrame(mask: seq<byte>, payload: seq<byte>, room: nat, max: nat, data: seq<byte>)
    requires |mask| == 4 && |data| == 1 < max < WORD32
    ensures Receive(LongHeader() + mask + payload, room, false, max, TEXT_FRAME, data, 0) == Undefined
  {
    hide LengthOf, HeadOf;
    var h := Head(CONTINUE, false, false, false, true, 127, true);
    var ff: seq<byte> := seq(8, _ => 255);
    var s, tail := LongHeader() + mask + payload, ff + (mask + payload);
    assert s == HeadBytes(h) + tail;
    HeadRoundTrip(h, tail);
    assert s[2..] == tail;
    LongLength(mask + payload);
    assert tail[8..] == mask + payload;
    assert Body(h, tail, 1, max) == Overrun;
  }
}
