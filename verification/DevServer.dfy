/** The packets of the device server and the receiver that finds them in a byte stream (dsfuncs.c, without CHKSUM). */
module DevServer {
  import opened Bytes
  import opened Common

  const START: byte := 0xD5
  const END: byte := 0xEB
  const PACKET_SIZE := 256
  /** The most data that leaves room for the rest of a packet in a buffer of PACKET_SIZE bytes. */
  const MAX_DATA := 251

  function Packet(opcode: byte, unit: byte, data: seq<byte>): seq<byte> {
    [START, opcode, unit, Low(|data|)] + data + [END]
  }

  // ---------------------------------------------------------------------------------------------
  // What the receiver makes of a stream

  /** The result of devserver_recv, what it stored through its pointers, and what it left in the stream. */
  datatype Reception = Reception(result: int, opcode: Option<byte>, unit: Option<byte>, data: seq<byte>, rest: seq<byte>)

  /** How many bytes stand before the first start byte. */
  function Noise(input: seq<byte>): (n: nat)
    ensures n <= |input| && (n < |input| ==> input[n] == START)
    ensures forall k | 0 <= k < n :: input[k] != START
  {
    if input == [] || input[0] == START then 0 else 1 + Noise(input[1..])
  }

  /** How many of the announced bytes go to the caller's buffer, which has the given room. */
  function Kept(len: nat, room: nat): nat {
    if room == 0 then 0 else Min(len, room)
  }

  /** The result when all goes well: the length, cut to the room if there is a buffer. */
  function Length(len: nat, room: nat): nat {
    if room == 0 then len else Min(len, room)
  }

  /** From the length byte on, with the opcode and the unit already read. */
  function Body(opcode: byte, unit: byte, len: byte, input: seq<byte>, room: nat): Reception {
    var kept := Kept(len, room);
    if kept > 0 && input == [] then
      Reception(-1, Some(opcode), Some(unit), [], [])
    else
      var data := input[..Min(kept, |input|)];
      var result := if len < |input| && input[len] == END then Length(len, room) else -1;
      Reception(result, Some(opcode), Some(unit), data, if len < |input| then input[len + 1..] else [])
  }

  /** From the first start byte on. */
  function Header(input: seq<byte>, room: nat): Reception {
    if |input| < 2 then Reception(-1, None, None, [], [])
    else if |input| < 3 then Reception(-1, Some(input[1]), None, [], [])
    else if |input| < 4 then Reception(-1, Some(input[1]), Some(input[2]), [], [])
    else Body(input[1], input[2], input[3], input[4..], room)
  }

  function Receive(input: seq<byte>, room: nat): Reception {
    var n := Noise(input);
    if n == |input| then Reception(0, None, None, [], []) else Header(input[n..], room)
  }

  /**
    * How many bytes of the packet devserver_recv puts into its own buffer, from the length byte on: the header, the data
    * whether the stream still has them or not, and the end mark if it is one; but only the header when it gives up because
    * the stream ends where the data for the caller should start.
    */
  function Stored(len: byte, input: seq<byte>, room: nat): nat {
    if Kept(len, room) > 0 && input == [] then 4
    else if len < |input| && input[len] == END then 4 + len as int + 1
    else 4 + len as int
  }

  /** The buffer holds the packet exactly when its length byte is at most 251, or it is 252 and no end mark follows, or the stream ends. */
  lemma StoredFits(len: byte, input: seq<byte>, room: nat)
    ensures Stored(len, input, room) <= PACKET_SIZE <==>
            len <= MAX_DATA || (Kept(len, room) > 0 && input == []) ||
            (len == MAX_DATA + 1 && !(len < |input| && input[len] == END))
  {
  }

  /** A whole packet with 252 bytes of data is one byte too long for the buffer. */
  lemma WholePacketTooLong(data: seq<byte>, rest: seq<byte>, room: nat)
    requires |data| == MAX_DATA + 1
    ensures Stored(Low(|data|), data + [END] + rest, room) == PACKET_SIZE + 1
  {
    assert (data + [END] + rest)[|data|] == END;
  }

  /** What is received, if it gets as far as the length byte, fits the receiver's own buffer. */
  predicate Fits(input: seq<byte>, room: nat) {
    var n := Noise(input);
    n + 3 < |input| ==> Stored(input[n + 3], input[n + 4..], room) <= PACKET_SIZE
  }

  // ---------------------------------------------------------------------------------------------
  // The file descriptor

  class Wire {
    var input: seq<byte>
    var output: seq<byte>

    /** read(fd, &ch, 1): nothing at the end of the stream. */
    method ReadByte(ch0: byte) returns (bytes: nat, ch: byte)
      modifies `input
      ensures old(input) == [] ==> bytes == 0 && ch == ch0 && input == []
      ensures old(input) != [] ==> bytes == 1 && ch == old(input)[0] && input == old(input)[1..]
    {
      if input == [] {
        return 0, ch0;
      }
      bytes, ch := 1, input[0];
      input := input[1..];
    }

    /** read(fd, data, len), which waits for all of len unless the stream ends before. */
    method Read(data: array<byte>, len: nat) returns (bytes: nat)
      requires len <= data.Length
      modifies `input, data
      ensures bytes == Min(len, |old(input)|) && input == old(input)[bytes..]
      ensures data[..] == old(input)[..bytes] + old(data[bytes..])
    {
      bytes := Min(len, |input|);
      forall k | 0 <= k < bytes {
        data[k] := input[k];
      }
      input := input[bytes..];
    }

    /** write(fd, pkt, n). */
    method Write(pkt: array<byte>, n: nat) returns (bytes: nat)
      requires n <= pkt.Length
      modifies `output
      ensures bytes == n && output == old(output) + pkt[..n]
    {
      output := output + pkt[..n];
      return n;
    }
  }

  /** devserver_send. */
  method Send(wire: Wire, opcode: byte, unit: byte, data: array<byte>, datasz: nat) returns (bytes: int)
    requires datasz <= data.Length && datasz <= MAX_DATA
    modifies wire`output
    ensures wire.output == old(wire.output) + Packet(opcode, unit, data[..datasz]) && bytes == datasz + 5
  {
    var pkt := new byte[PACKET_SIZE];
    pkt[0], pkt[1], pkt[2], pkt[3] := START, opcode, unit, Low(datasz);
    var i := 4;
    if datasz != 0 {
      forall k | 0 <= k < datasz {
        pkt[4 + k] := data[k];
      }
      i := i + datasz;
    }
    pkt[i] := END;
    i := i + 1;
    assert pkt[..i] == Packet(opcode, unit, data[..datasz]);
    bytes := wire.Write(pkt, i);
  }

  /** The first loop of devserver_recv: up to and including the first start byte. */
  method Resynchronise(wire: Wire) returns (found: bool, ch: byte)
    modifies wire`input
    ensures var n := Noise(old(wire.input));
            if n == |old(wire.input)| then !found && wire.input == []
            else found && ch == START && wire.input == old(wire.input)[n + 1..]
  {
    var bytes: nat;
    ch := 0;
    ghost var n := Noise(wire.input);
    ghost var i := 0;
    while true
      invariant i <= n && wire.input == old(wire.input)[i..]
      decreases n - i
    {
      bytes, ch := wire.ReadByte(ch);
      if bytes == 0 {
        return false, ch;
      }
      if ch == START {
        return true, ch;
      }
      i := i + 1;
    }
  }

  /** The loop of devserver_recv that drops what the caller has no room for. */
  method Drain(wire: Wire, pkt: array<byte>, at: nat, left: nat)
    requires at + left <= pkt.Length
    modifies wire`input, pkt
    ensures wire.input == old(wire.input)[Min(left, |old(wire.input)|)..]
  {
    var ch: byte := 0;
    for k := 0 to left
      invariant wire.input == old(wire.input)[Min(k, |old(wire.input)|)..]
    {
      var bytes;
      bytes, ch := wire.ReadByte(ch);
      pkt[at + k] := ch;
    }
  }

  /** The part of devserver_recv that fills the caller's buffer: how many bytes are left to drain, or None where it fails. */
  method Fill(wire: Wire, len: byte, data: array<byte>, datasz: nat, pkt: array<byte>) returns (kept: Option<nat>)
    requires datasz <= data.Length && pkt != data && pkt.Length == PACKET_SIZE
    requires (Kept(len, datasz) > 0 && wire.input == []) || 4 + Kept(len, datasz) <= PACKET_SIZE
    modifies wire`input, data, pkt
    ensures var n := Kept(len, datasz);
            var read := Min(n, |old(wire.input)|);
            kept == (if n > 0 && old(wire.input) == [] then None else Some(n)) &&
            wire.input == old(wire.input)[read..] && data[..] == old(wire.input)[..read] + old(data[read..])
  {
    if datasz == 0 || len == 0 {
      return Some(0);
    }
    var length: nat := len;
    if length > datasz {
      length := datasz;
    }
    var bytes := wire.Read(data, length);
    if bytes < 1 {
      return None;
    }
    forall k | 0 <= k < length {
      pkt[4 + k] := data[k];
    }
    return Some(length);
  }

  /** The end mark. */
  method ReadEnd(wire: Wire, pkt: array<byte>, at: nat) returns (ok: bool)
    requires wire.input != [] && wire.input[0] == END ==> at < pkt.Length
    modifies wire`input, pkt
    ensures ok <==> old(wire.input) != [] && old(wire.input)[0] == END
    ensures wire.input == if old(wire.input) == [] then [] else old(wire.input)[1..]
  {
    var bytes, ch := wire.ReadByte(0);
    if bytes < 1 || ch != END {
      return false;
    }
    pkt[at] := ch;
    return true;
  }

  /** What devserver_recv does after the length byte. */
  method ReceiveBody(wire: Wire, len: byte, data: array<byte>, datasz: nat, pkt: array<byte>) returns (result: int)
    requires datasz <= data.Length && pkt != data && pkt.Length == PACKET_SIZE
    requires Stored(len, wire.input, datasz) <= PACKET_SIZE
    modifies wire`input, data, pkt
    ensures var r := Body(0, 0, len, old(wire.input), datasz);
            result == r.result && wire.input == r.rest && |r.data| <= datasz &&
            data[..] == r.data + old(data[|r.data|..])
  {
    ghost var input := wire.input;
    var kept := Fill(wire, len, data, datasz, pkt);
    if kept == None {
      return -1;
    }
    ghost var filled := data[..];
    Drain(wire, pkt, 4 + kept.value, len as int - kept.value);
    assert wire.input == input[Min(len, |input|)..];
    var ok := ReadEnd(wire, pkt, 4 + len as int);
    assert data[..] == filled;
    return if !ok then -1 else if datasz == 0 then len as int else Min(len, datasz);
  }

  /** devserver_recv from the opcode to the length byte: what it got of the three. */
  method ReadHeader(wire: Wire, pkt: array<byte>) returns (opcode: Option<byte>, unit: Option<byte>, len: Option<byte>)
    requires pkt.Length == PACKET_SIZE
    modifies wire`input, pkt
    ensures var input := old(wire.input);
            opcode == (if |input| > 0 then Some(input[0]) else None) &&
            unit == (if |input| > 1 then Some(input[1]) else None) &&
            len == (if |input| > 2 then Some(input[2]) else None) &&
            wire.input == input[Min(3, |input|)..]
  {
    opcode, unit, len := None, None, None;
    var bytes, ch := wire.ReadByte(0);
    if bytes < 1 {
      return;
    }
    opcode := Some(ch);
    pkt[1] := ch;
    bytes, ch := wire.ReadByte(0);
    if bytes < 1 {
      return;
    }
    unit := Some(ch);
    pkt[2] := ch;
    bytes, ch := wire.ReadByte(0);
    if bytes < 1 {
      return;
    }
    len := Some(ch);
    pkt[3] := ch;
  }

  /** devserver_recv; a caller without a buffer passes a datasz of 0. */
  method Recv(wire: Wire, data: array<byte>, datasz: nat)
    returns (result: int, opcode: Option<byte>, unit: Option<byte>)
    requires datasz <= data.Length && Fits(wire.input, datasz)
    modifies wire`input, data
    ensures var r := Receive(old(wire.input), datasz);
            result == r.result && opcode == r.opcode && unit == r.unit && wire.input == r.rest && |r.data| <= datasz &&
            data[..] == r.data + old(data[|r.data|..])
  {
    ghost var input, n := wire.input, Noise(wire.input);
    var found, ch := Resynchronise(wire);
    if !found {
      return 0, None, None;
    }
    var pkt := new byte[PACKET_SIZE];
    pkt[0] := ch;
    var len;
    opcode, unit, len := ReadHeader(wire, pkt);
    assert input[n..][1..] == input[n + 1..];
    if len == None {
      return -1, opcode, unit;
    }
    assert wire.input == input[n + 1..][3..] == input[n..][4..] == input[n + 4..];
    result := ReceiveBody(wire, len.value, data, datasz, pkt);
  }

  // ---------------------------------------------------------------------------------------------
  // What was sent is received

  lemma {:induction false} NoiseBefore(prefix: seq<byte>, input: seq<byte>)
    requires START !in prefix && input != [] && input[0] == START
    ensures Noise(prefix + input) == |prefix|
  {
    if prefix == [] {
      assert prefix + input == input;
    } else {
      NoiseBefore(prefix[1..], input);
      assert (prefix + input)[1..] == prefix[1..] + input;
    }
  }

  lemma BodyOfPacket(opcode: byte, unit: byte, data: seq<byte>, rest: seq<byte>, room: nat)
    requires |data| <= MAX_DATA
    ensures Body(opcode, unit, Low(|data|), data + [END] + rest, room) ==
            Reception(Length(|data|, room), Some(opcode), Some(unit), data[..Kept(|data|, room)], rest)
  {
    var input, kept := data + [END] + rest, Kept(|data|, room);
    assert input[..kept] == data[..kept];
    assert input[|data| + 1..] == rest;
  }

  /** Past any noise, a packet is received whole, and exactly what follows it stays in the stream. */
  lemma ReceivesPacket(prefix: seq<byte>, opcode: byte, unit: byte, data: seq<byte>, rest: seq<byte>, room: nat)
    requires START !in prefix && |data| <= MAX_DATA
    ensures var input := prefix + Packet(opcode, unit, data) + rest;
            Fits(input, room) &&
            Receive(input, room) ==
              Reception(Length(|data|, room), Some(opcode), Some(unit), data[..Kept(|data|, room)], rest)
  {
    var packet := Packet(opcode, unit, data) + rest;
    var input := prefix + Packet(opcode, unit, data) + rest;
    assert input == prefix + packet;
    NoiseBefore(prefix, packet);
    assert input[|prefix|..] == packet;
    assert packet[0] == START && packet[1] == opcode && packet[2] == unit && packet[3] == Low(|data|);
    assert packet[4..] == data + [END] + rest;
    BodyOfPacket(opcode, unit, data, rest, room);
  }

  /** A packet as the sender gave it, with the noise on the line before it. */
  datatype Sent = Sent(noise: seq<byte>, opcode: byte, unit: byte, data: seq<byte>)

  predicate Sendable(s: Sent) {
    START !in s.noise && |s.data| <= MAX_DATA
  }

  function Stream(sent: seq<Sent>): seq<byte> {
    if sent == [] then [] else sent[0].noise + Packet(sent[0].opcode, sent[0].unit, sent[0].data) + Stream(sent[1..])
  }

  /** One devserver_recv after the other, with the buffer of the given room. */
  function ReceiveMany(input: seq<byte>, rooms: seq<nat>): seq<Reception>
    decreases |rooms|
  {
    if rooms == [] then [] else
    var r := Receive(input, rooms[0]);
    [r] + ReceiveMany(r.rest, rooms[1..])
  }

  /** A stream of packets is received packet by packet, whatever room the caller gives to each. */
  lemma {:induction false} ReceivesStream(sent: seq<Sent>, rooms: seq<nat>)
    requires |sent| == |rooms| && forall s | s in sent :: Sendable(s)
    ensures var received := ReceiveMany(Stream(sent), rooms);
            |received| == |sent| &&
            forall i | 0 <= i < |sent| ::
              received[i] == Reception(Length(|sent[i].data|, rooms[i]), Some(sent[i].opcode), Some(sent[i].unit),
                                       sent[i].data[..Kept(|sent[i].data|, rooms[i])], Stream(sent[i + 1..]))
    decreases |rooms|
  {
    if sent != [] {
      var s := sent[0];
      assert s in sent;
      ReceivesPacket(s.noise, s.opcode, s.unit, s.data, Stream(sent[1..]), rooms[0]);
      ReceivesStream(sent[1..], rooms[1..]);
      forall i | 1 <= i < |sent| ensures sent[i + 1..] == sent[1..][i..] {
      }
    }
  }

  // ---------------------------------------------------------------------------------------------
  // Nothing but packets is received

  /** A text starts with a whole packet: the start byte, opcode, unit, length, that much data, and the end mark. */
  predicate StartsWithPacket(q: seq<byte>) {
    |q| >= 5 && q[0] == 0xD5 && |q| >= 5 + q[3] as int && q[4 + q[3] as int] == 0xEB
  }

  lemma BodyNeedsEnd(opcode: byte, unit: byte, len: byte, input: seq<byte>, room: nat)
    ensures var r := Body(opcode, unit, len, input, room);
            (r.result == -1 <==> !(len < |input| && input[len] == END)) &&
            (r.result != -1 ==> r == Reception(Length(len, room), Some(opcode), Some(unit), input[..Kept(len, room)], input[len + 1..]))
  {
  }

  lemma Slices(q: seq<byte>, most: nat, len: nat)
    requires most <= len && 5 + len <= |q|
    ensures q[4..][..most] == q[4..4 + most] && q[4..][len + 1..] == q[5 + len..]
  {
  }

  /** What is received of a whole packet. */
  function Received(q: seq<byte>, room: nat): Reception
    requires StartsWithPacket(q)
  {
    var len: nat := q[3];
    var most := if room < len then room else len;
    Reception(if room == 0 then len else most, Some(q[1]), Some(q[2]), q[4..4 + most], q[5 + len..])
  }

  lemma HeaderNeedsPacket(q: seq<byte>, room: nat)
    requires q != [] && q[0] == START
    ensures Header(q, room).result == -1 <==> !StartsWithPacket(q)
    ensures StartsWithPacket(q) ==> Header(q, room) == Received(q, room)
  {
    if |q| >= 4 {
      BodyNeedsEnd(q[1], q[2], q[3], q[4..], room);
      if StartsWithPacket(q) {
        Slices(q, if room < q[3] then room else q[3], q[3]);
      }
    }
  }

  /**
    * A reception that finds a start byte succeeds exactly when a whole packet stands at the first one, and then gives its
    * opcode, its unit and its data as far as there is room, and leaves what follows it; otherwise the result is -1.
    */
  lemma OnlyPacketsAreReceived(input: seq<byte>, room: nat)
    ensures var q := input[Noise(input)..];
            (Receive(input, room).result == -1 <==> q != [] && !StartsWithPacket(q)) &&
            (StartsWithPacket(q) ==> Receive(input, room) == Received(q, room))
  {
    var q := input[Noise(input)..];
    if q != [] {
      HeaderNeedsPacket(q, room);
    }
  }

  /** A packet without data. */
  lemma EmptyPacket()
    ensures Packet(1, 2, []) == [0xD5, 1, 2, 0, 0xEB]
  {
  }
}
