/** `WSSendMessage`, `WSRecvMessage`, `WSPing` and `WSPong` over a stream with partial reads and writes. */
module WsSession {
  import opened Options
  import opened Words
  import opened ByteBlocks
  import opened ByteCodec
  import opened Streams
  import opened WebSocket

  class WSFrameMessage {
    var opcode: nat
    var data: seq<byte>

    constructor (opcode: nat, data: seq<byte>)
      ensures this.opcode == opcode && this.data == data
    {
      this.opcode, this.data := opcode, data;
    }

    /** The masking loop, in place; masking twice restores the data. */
    method XorInPlace(mask: seq<byte>)
      requires |mask| == 4
      modifies this`data
      ensures data == Masked(old(data), mask) && Masked(data, mask) == old(data)
    {
      hide XorByte;
      for i := 0 to |data|
        invariant |data| == |old(data)| && data[i..] == old(data)[i..]
        invariant forall k :: 0 <= k < i ==> data[k] == XorByte(old(data)[k], mask[k % 4])
      {
        assert data[i] == data[i..][0] == old(data)[i];
        data := data[i := XorByte(data[i], mask[i % 4])];
      }
      MaskedTwice(old(data), mask);
    }
  }

  /** How much of `s` gets through. */
  function Cut(s: seq<byte>, room: nat): seq<byte> { if |s| <= room then s else s[..room] }

  lemma CutMore(a: seq<byte>, b: seq<byte>, room: nat)
    ensures |a| <= room ==> Cut(a + b, room) == a + Cut(b, room - |a|)
    ensures |a| > room ==> Cut(a + b, room) == Cut(a, room)
  {
  }

  /** Two writes in a row: all of the first or nothing of the second. */
  method WriteBoth(st: Stream, a: seq<byte>, b: seq<byte>) returns (ok: bool)
    requires a != []
    modifies st`output, st`room
    ensures st.output == old(st.output) + Cut(a + b, old(st.room))
    ensures st.room == old(st.room) - |Cut(a + b, old(st.room))|
    ensures ok <==> |a + b| <= old(st.room)
  {
    hide Cut;
    CutMore(a, b, st.room);
    CutWhole(a, st.room);
    CutWhole(a + b, st.room);
    var rt := st.WriteFixSize(a);
    if rt == 0 { return false; }
    CutWhole(b, st.room);
    if b == [] { return true; }
    rt := st.WriteFixSize(b);
    ok := rt > 0;
  }

  lemma CutWhole(s: seq<byte>, room: nat)
    ensures |s| <= room ==> Cut(s, room) == s
    ensures |s| > room ==> Cut(s, room) == s[..room]
  {
  }

  /** The frame goes out whole, or as far as the peer accepts; it is sent if its payload is not empty and got through.
      The answer is then the size and the header's, cut to 32 bits. A client's message object is left masked. */
  method SendMessage(st: Stream, msg: WSFrameMessage, client: bool, fin: bool, mask: seq<byte>) returns (rt: int)
    requires |mask| == 4 && |msg.data| < Pow2(64)
    modifies st, msg`data
    ensures var f := Frame(msg.opcode, old(msg.data), client, fin, mask);
      var sent := |f| <= old(st.room) && old(msg.data) != [];
      && st.output == old(st.output) + Cut(f, old(st.room)) && st.room == old(st.room) - |Cut(f, old(st.room))|
      && rt == (if sent then CastInt(|old(msg.data)| + 2) else -1)
      && (!sent ==> st.closed) && (sent ==> st.closed == old(st.closed))
      && (sent ==> msg.data == if client then Masked(old(msg.data), mask) else old(msg.data))
    ensures st.input == old(st.input)
  {
    hide HeadBytes, FormBytes, Masked, Cut, Pow2;
    var size := |msg.data|;
    var head := HeadBytes(FrameHead(msg.opcode, size, client, fin));
    var form := FormBytes(size);
    ghost var data, room := msg.data, st.room;
    ghost var body := if client then mask + Masked(data, mask) else data;
    assert Frame(msg.opcode, data, client, fin, mask) == head + form + body;
    CutMore(head + form, body, room);
    CutWhole(head + form, room);
    CutWhole(head + form + body, room);
    var ok := WriteBoth(st, head, form);
    if ok && client {
      msg.XorInPlace(mask);
      CutMore(mask, msg.data, st.room);
      CutWhole(mask, st.room);
      var n := st.WriteFixSize(mask);
      ok := n > 0;
    }
    if ok {
      CutWhole(msg.data, st.room);
      var n := st.WriteFixSize(msg.data);
      if n > 0 { return CastInt(size + 2); }
    }
    st.Close();
    return -1;
  }

  /** The answer is the size plus 2 exactly below 2^31 - 2 bytes; there it is negative. */
  lemma AnswerPositive(size: nat)
    ensures CastInt(size + 2) == size + 2 <==> size < 0x7fff_fffe
    ensures CastInt(0x7fff_fffe + 2) < 0
  {
  }

  /** `WSPing` and `WSPong`. */
  method SendControl(st: Stream, opcode: nat) returns (v: nat)
    modifies st`output, st`room, st`closed
    ensures old(st.room) >= 2 ==> v == 2 && st.output == old(st.output) + Control(opcode) && st.room == old(st.room) - 2
    ensures old(st.room) >= 2 ==> st.closed == old(st.closed)
    ensures old(st.room) < 2 ==> v == 0 && st.closed
  {
    v := st.WriteFixSize(HeadBytes(Head(opcode % 16, false, false, false, true, 0, false)));
    if v <= 0 { st.Close(); }
  }

  function Answers(n: nat): seq<byte> { if n == 0 then [] else Answers(n - 1) + Control(PONG) }

  /** One data frame after its header. */
  method RecvBody(st: Stream, h: Head, data: seq<byte>, curLen: int, max: nat)
    returns (r: Option<seq<byte>>, overrun: bool)
    requires HeadOk(h) && curLen == CastInt(|data|)
    modifies st`input
    ensures match Body(h, old(st.input), |data|, max)
      case Refused => r.None? && !overrun
      case Overrun => overrun
      case Part(part, rest) => r == Some(data + part) && st.input == rest && !overrun
  {
    hide Masked, Unmasked, LoopBound, Pow2;
    var length := h.payload;
    if h.payload == 126 {
      var n, len := st.ReadFixSize(2);
      if n == 0 { return None, false; }
      length := Loaded(Swapped(len));
    } else if h.payload == 127 {
      var n, len := st.ReadFixSize(8);
      if n == 0 { return None, false; }
      length := Loaded(Swapped(len));
    }
    if (curLen + length) % WORD64 >= max { return None, false; }
    var mask := [0, 0, 0, 0];
    if h.mask {
      var n, m := st.ReadFixSize(4);
      if n == 0 { return None, false; }
      mask := m;
    }
    if curLen < 0 || curLen + length >= WORD64 { return None, true; }
    var n, part := st.ReadFixSize(length);
    if n == 0 { return None, false; }
    if h.mask {
      LoopBoundSmall(length);
      if curLen + LoopBound(length) > INT_END { return None, true; }
      part := Unmask(part, mask, LoopBound(length));
    }
    return Some(data + part), false;
  }

  /** The unmasking loop, over the first `bound` bytes. */
  method Unmask(part: seq<byte>, mask: seq<byte>, bound: nat) returns (r: seq<byte>)
    requires |mask| == 4 && bound <= |part|
    ensures r == Unmasked(part, mask, bound)
  {
    hide XorByte;
    r := part;
    for i := 0 to bound
      invariant |r| == |part| && r[i..] == part[i..]
      invariant forall k :: 0 <= k < i ==> r[k] == XorByte(part[k], mask[k % 4])
    {
      assert r[i] == r[i..][0] == part[i];
      r := r[i := XorByte(r[i], mask[i % 4])];
    }
  }

  /** A message; none, with the stream closed; or a frame whose length wrapped a sum or made a 32-bit count negative,
      after which the source reaches outside its buffer and nothing can be said. */
  datatype Outcome = Got(opcode: nat, data: seq<byte>) | Closed | Broken

  /** Under any schedule of partial reads and writes: the message, what follows it, and one pong per ping. */
  method RecvMessage(st: Stream, client: bool, max: nat) returns (msg: Outcome)
    modifies st
    ensures match Receive(old(st.input), old(st.room), client, max, 0, [], 0)
      case Failed => msg == Closed && st.closed
      case Undefined => msg == Broken
      case Message(opcode, data, rest, pongs) =>
        && msg == Got(opcode, data) && st.input == rest && st.closed == old(st.closed)
        && st.output == old(st.output) + Answers(pongs) && st.room == old(st.room) - 2 * pongs
  {
    hide Body, HeadOf, Control;
    var opcode, curLen, data := 0, 0, [];
    ghost var pongs: nat := 0;
    ghost var goal := Receive(st.input, st.room, client, max, 0, [], 0);
    while true
      invariant goal == Receive(st.input, st.room, client, max, opcode, data, pongs) && 0 <= opcode
      invariant curLen == CastInt(|data|)
      invariant st.closed == old(st.closed) && st.room == old(st.room) - 2 * pongs && 2 * pongs <= old(st.room)
      invariant st.output == old(st.output) + Answers(pongs)
      decreases |st.input|
    {
      ghost var s := st.input;
      var n, head := st.ReadFixSize(2);
      if n == 0 { break; }
      HeadPrefix(s);
      var h := HeadOf(head);
      if h.opcode == PING {
        var v := SendControl(st, PONG);
        if v <= 0 { break; }
        pongs := pongs + 1;
      } else if h.opcode == PONG {
      } else if h.opcode == CONTINUE || h.opcode == TEXT_FRAME || h.opcode == BIN_FRAME {
        if !client && !h.mask { break; }
        BodyShrinks(h, st.input, |data|, max);
        var r, overrun := RecvBody(st, h, data, curLen, max);
        if overrun { return Broken; }
        if r.None? { break; }
        CountAdds(|data|, |r.value| - |data|);
        curLen := CastInt((curLen + (|r.value| - |data|)) % WORD64);
        data := r.value;
        if opcode == 0 && h.opcode != CONTINUE { opcode := h.opcode; }
        if h.fin { return Got(opcode, data); }
      }
    }
    st.Close();
    return Closed;
  }

  /** Adding to the 32-bit count, through 64 bits, counts on. */
  lemma CountAdds(a: nat, n: nat)
    ensures CastInt((CastInt(a) + n) % WORD64) == CastInt(a + n)
  {
    var k := (a - CastInt(a)) / WORD32;
    assert a - CastInt(a) == k * WORD32;
    var sum := CastInt(a) + n;
    var m := sum / WORD64;
    assert sum % WORD64 == a + n - (k + m * WORD32) * WORD32;
    SameLowWord(a + n, k + m * WORD32);
  }

  lemma SameLowWord(x: int, k: int)
    ensures (x - k * WORD32) % WORD32 == x % WORD32
  {
  }

  lemma HeadPrefix(s: seq<byte>)
    requires |s| >= 2
    ensures HeadOf(s[..2]) == HeadOf(s)
  {
  }

  method SendOne(st: Stream, x: Sent, sender: bool, fin: bool)
    requires Sendable(x) && |WireOf(x, sender, fin)| <= st.room
    modifies st
    ensures st.output == old(st.output) + WireOf(x, sender, fin) && st.room == old(st.room) - |WireOf(x, sender, fin)|
  {
    hide Frame, HeadBytes, Pow2, Cut;
    CutWhole(WireOf(x, sender, fin), st.room);
    match x
    case Fragment(opcode, data, mask) =>
      var msg := new WSFrameMessage(opcode, data);
      var rt := SendMessage(st, msg, sender, fin, mask);
    case Ping => var v := SendControl(st, PING);
    case Pong => var v := SendControl(st, PONG);
  }

  /** End to end: one side sends a message in any fragments, with pings and pongs between them; the other side, on
      the bytes that arrived, returns the first data opcode and the original payloads, whatever the partial writes
      and reads. */
  method Exchange(xs: seq<Sent>, sender: bool, client: bool, max: nat, later: seq<byte>, out: Stream, room: nat)
    returns (msg: Outcome)
    requires AllSendable(xs) && xs != [] && xs[|xs| - 1].Fragment? && (client || sender)
    requires |Payloads(xs)| < max < WORD32 && |Payloads(xs)| < INT_END
    requires out.output == [] && |Wire(xs, sender)| <= out.room && 2 * Pings(xs) <= room
    modifies out
    ensures msg == Got(FirstOpcode(xs), Payloads(xs))
  {
    hide Sendable, WireOf, Payloads, FirstOpcode, Pings, Receive;
    assert xs[0..] == xs;
    for i := 0 to |xs|
      invariant AllSendable(xs[i..]) && out.output + Wire(xs[i..], sender) == Wire(xs, sender)
      invariant |Wire(xs[i..], sender)| <= out.room
    {
      var tail := xs[i..];
      assert tail[1..] == xs[i + 1..];
      ghost var before := out.output;
      SendOne(out, tail[0], sender, |tail| == 1);
      Assoc(before, WireOf(tail[0], sender, |tail| == 1), Wire(tail[1..], sender));
    }
    Assoc(out.output, [], []);
    var arrived := new Stream(out.output + later, room);
    ReceiveWire(xs, sender, later, room, client, max, 0, [], 0);
    Assoc([], [], Payloads(xs));
    msg := RecvMessage(arrived, client, max);
  }
}
