/** A byte stream whose reads and writes may be partial, and the loops that hide it. */
module Streams {
  import opened ByteBlocks

  class Stream {
    var input: seq<byte>     // all that will still arrive
    var output: seq<byte>    // all that was accepted for sending
    var room: nat            // how much more the peer will accept
    var closed: bool

    constructor (input: seq<byte>, room: nat)
      ensures this.input == input && this.room == room && output == [] && !closed
    {
      this.input, this.room, output, closed := input, room, [], false;
    }

    /** Any nonempty part of what was asked for; 0 once nothing more arrives. */
    method Read(left: nat) returns (len: nat, buf: seq<byte>)
      requires left > 0
      modifies this`input
      ensures len == 0 <==> old(input) == []
      ensures len <= left && len <= |old(input)| && buf == old(input)[..len] && input == old(input)[len..]
    {
      if |input| == 0 { return 0, []; }
      var most := if left < |input| then left else |input|;
      len :| 1 <= len <= most;
      buf, input := input[..len], input[len..];
    }

    method Write(data: seq<byte>) returns (len: nat)
      requires data != []
      modifies this`output, this`room
      ensures len == 0 <==> old(room) == 0
      ensures len <= |data| && len <= old(room) && output == old(output) + data[..len] && room == old(room) - len
    {
      if room == 0 { return 0; }
      var most := if |data| < room then |data| else room;
      len :| 1 <= len <= most;
      output, room := output + data[..len], room - len;
    }

    /** All `length` bytes under any schedule of partial reads, or 0 if fewer arrive. A request for 0 bytes also
        answers 0. */
    method ReadFixSize(length: nat) returns (rt: nat, buf: seq<byte>)
      modifies this`input
      ensures length <= |old(input)| ==> rt == length && buf == old(input)[..length] && input == old(input)[length..]
      ensures length > |old(input)| ==> rt == 0 && input == []
    {
      buf := [];
      var left := length;
      while left > 0
        invariant 0 <= left <= length && |buf| == length - left && buf + input == old(input)
      {
        var len, part := Read(left);
        if len == 0 { return 0, buf; }
        buf, left := buf + part, left - len;
      }
      assert old(input)[..length] == buf;
      return length, buf;
    }

    /** All of `data` under any schedule of partial writes, or 0 if the peer stops accepting. */
    method WriteFixSize(data: seq<byte>) returns (rt: nat)
      modifies this`output, this`room
      ensures |data| <= old(room) ==> rt == |data| && output == old(output) + data && room == old(room) - |data|
      ensures |data| > old(room) ==> rt == 0 && output == old(output) + data[..old(room)] && room == 0
    {
      var offset := 0;
      while offset < |data|
        invariant 0 <= offset <= |data| && room == old(room) - offset && output == old(output) + data[..offset]
      {
        var len := Write(data[offset..]);
        if len == 0 { return 0; }
        assert data[..offset] + data[offset..][..len] == data[..offset + len];
        offset := offset + len;
      }
      return |data|;
    }

    method Close()
      modifies this`closed
      ensures closed
    {
      closed := true;
    }
  }
}
