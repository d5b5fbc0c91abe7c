/** The frames spoken over serial lines by a JBD battery management board (jbd.c). */
module JbdFrame {
  import opened Bytes
  import opened Common

  const START: byte := 0xDD
  const END: byte := 0x77
  const READ := 0xA5
  const MODULUS := 0x1_0000

  // ---------------------------------------------------------------------------------------------
  // The checksum

  function Sum(data: seq<byte>): nat {
    if data == [] then 0 else data[0] + Sum(data[1..])
  }

  /** The 16-bit value that makes data and checksum add up to zero. */
  function Crc(data: seq<byte>): nat {
    -(Sum(data) as int) % MODULUS
  }

  lemma {:induction false} SumLast(data: seq<byte>, x: byte)
    ensures Sum(data + [x]) == Sum(data) + x
  {
    if data == [] {
      assert [x][1..] == [];
    } else {
      SumLast(data[1..], x);
      assert (data + [x])[1..] == data[1..] + [x];
    }
  }

  lemma {:induction false} SumUpdate(data: seq<byte>, i: nat, x: byte)
    requires i < |data|
    ensures Sum(data[i := x]) == Sum(data) - data[i] + x
  {
    if i == 0 {
      assert data[i := x][1..] == data[1..];
    } else {
      SumUpdate(data[1..], i - 1, x);
      assert data[i := x][1..] == data[1..][i - 1 := x];
    }
  }

  lemma NegativeModulo(a: int, b: int)
    ensures (-a % MODULUS - b) % MODULUS == -(a + b) % MODULUS
    ensures 0 < b < MODULUS ==> -(a + b) % MODULUS != -a % MODULUS
  {
    var r := -a % MODULUS;
    var q := -a / MODULUS;
    assert -a == q * MODULUS + r;
    var r' := (r - b) % MODULUS;
    var q' := (r - b) / MODULUS;
    assert -(a + b) == (q + q') * MODULUS + r';
  }

  /** A changed byte always changes the checksum. */
  lemma CrcSeesChange(data: seq<byte>, i: nat, x: byte)
    requires i < |data| && x != data[i]
    ensures Crc(data[i := x]) != Crc(data)
  {
    SumUpdate(data, i, x);
    if data[i] < x {
      NegativeModulo(Sum(data), x as int - data[i] as int);
    } else {
      NegativeModulo(Sum(data[i := x]), data[i] as int - x as int);
    }
  }

  /** jbd_crc: subtraction in uint16_t. */
  method JbdCrc(buf: array<byte>, from: nat, len: nat) returns (crc: nat)
    requires from + len <= buf.Length
    ensures crc == Crc(buf[from..from + len]) < MODULUS
  {
    crc := 0;
    for i := 0 to len
      invariant crc == Crc(buf[from..from + i]) < MODULUS
    {
      SumLast(buf[from..from + i], buf[from + i]);
      NegativeModulo(Sum(buf[from..from + i]), buf[from + i]);
      assert buf[from..from + i + 1] == buf[from..from + i] + [buf[from + i]];
      crc := (crc - buf[from + i]) % MODULUS;
    }
  }

  // ---------------------------------------------------------------------------------------------
  // Frames

  /** The 16-bit value of two bytes, the high one first. */
  function Word(high: byte, low: byte): nat {
    high as int * 0x100 + low as int
  }

  /** What the checksum covers: the byte after the register or action, the length and the data. */
  function Covered(third: byte, data: seq<byte>): seq<byte> {
    [third, Low(|data|)] + data
  }

  function Frame(second: byte, third: byte, data: seq<byte>): (frame: seq<byte>)
    ensures |frame| == |data| + 7
  {
    var crc := Crc(Covered(third, data));
    [START, second, third, Low(|data|)] + data + [crc / 0x100, crc % 0x100, END]
  }

  /** What jbd_verify accepts. */
  predicate Accepts(p: seq<byte>) {
    var n := |p|;
    n >= 7 && p[0] == START && p[3] == n - 7 && Crc(p[2..n - 3]) == Word(p[n - 3], p[n - 2]) && p[n - 1] == END
  }

  lemma FrameParts(second: byte, third: byte, data: seq<byte>)
    ensures var p := Frame(second, third, data);
            var n := |p|;
            p[0] == START && p[1] == second && p[2] == third && p[3] == Low(|data|) && p[4..n - 3] == data &&
            p[2..n - 3] == Covered(third, data) &&
            Word(p[n - 3], p[n - 2]) == Crc(Covered(third, data)) && p[n - 1] == END
  {
    var p := Frame(second, third, data);
    assert p[2..|p| - 3] == Covered(third, data);
  }

  lemma WordIsInjective(high: byte, low: byte, crc: nat)
    requires Word(high, low) == crc
    ensures high == crc / 0x100 && low == crc % 0x100
  {
  }

  lemma SplitFrame(p: seq<byte>, n: nat)
    requires |p| == n + 7
    ensures p == [p[0], p[1], p[2], p[3]] + p[4..4 + n] + [p[n + 4], p[n + 5], p[n + 6]]
  {
  }

  /** A frame is known by its parts. */
  lemma PartsMakeFrame(p: seq<byte>, data: seq<byte>)
    requires |p| == |data| + 7 && p[0] == START && p[3] == Low(|data|) && p[4..4 + |data|] == data && p[|p| - 1] == END
    requires Word(p[|p| - 3], p[|p| - 2]) == Crc(Covered(p[2], data))
    ensures p == Frame(p[1], p[2], data)
  {
    WordIsInjective(p[|p| - 3], p[|p| - 2], Crc(Covered(p[2], data)));
    SplitFrame(p, |data|);
  }

  /** Every frame that jbd_cmd builds is accepted unless its length does not fit the length byte. */
  lemma FrameIsAccepted(second: byte, third: byte, data: seq<byte>)
    ensures Accepts(Frame(second, third, data)) <==> |data| <= 0xFF
  {
    FrameParts(second, third, data);
  }

  lemma AcceptedMakesFrame(p: seq<byte>)
    requires Accepts(p)
    ensures p == Frame(p[1], p[2], p[4..|p| - 3])
  {
    var data := p[4..|p| - 3];
    assert p[2..|p| - 3] == Covered(p[2], data);
    PartsMakeFrame(p, data);
  }

  /** Nothing else is accepted. */
  lemma AcceptedIsFrame(p: seq<byte>)
    ensures Accepts(p) <==> 7 <= |p| <= 7 + 0xFF && p == Frame(p[1], p[2], p[4..|p| - 3])
  {
    if Accepts(p) {
      AcceptedMakesFrame(p);
    } else if 7 <= |p| {
      FrameIsAccepted(p[1], p[2], p[4..|p| - 3]);
    }
  }

  /** A frame in which one byte was changed is accepted only when that byte is the one that nothing covers. */
  lemma OneChangeIsSeen(p: seq<byte>, i: nat, x: byte)
    requires Accepts(p) && i < |p| && x != p[i]
    ensures Accepts(p[i := x]) <==> i == 1
  {
    var n := |p|;
    var q := p[i := x];
    if 2 <= i < n - 3 {
      CrcSeesChange(p[2..n - 3], i - 2, x);
      assert q[2..n - 3] == p[2..n - 3][i - 2 := x];
    } else {
      assert q[2..n - 3] == p[2..n - 3];
    }
  }

  /** jbd_verify: 0 for a good frame, 1 for a bad one. */
  method JbdVerify(buf: array<byte>, len: nat) returns (r: int)
    requires len <= buf.Length
    ensures r == if Accepts(buf[..len]) then 0 else 1
  {
    if len < 7 || buf[0] != START {
      return 1;
    }
    var dataLength: nat := buf[3];
    if dataLength != len - 7 {
      return 1;
    }
    var i: nat := 4 + dataLength;
    var myCrc := JbdCrc(buf, 2, dataLength + 2);
    assert buf[2..2 + (dataLength + 2)] == buf[..len][2..len - 3];
    var pktCrc := Word(buf[i], buf[i + 1]);
    if myCrc != pktCrc || buf[i + 2] != END {
      return 1;
    }
    return 0;
  }

  // ---------------------------------------------------------------------------------------------
  // Building a frame

  function Zeros(n: nat): (z: seq<byte>)
    ensures |z| == n
  {
    seq(n, i => 0)
  }

  /** memset(pkt, 0, pkt_size). */
  method Clear(pkt: array<byte>, pktSize: nat)
    requires pktSize <= pkt.Length
    modifies pkt
    ensures pkt[..] == Zeros(pktSize) + old(pkt[pktSize..])
  {
    for i := 0 to pktSize
      invariant forall k | 0 <= k < i :: pkt[k] == 0
      invariant forall k | i <= k < pkt.Length :: pkt[k] == old(pkt[k])
    {
      pkt[i] := 0;
    }
  }

  /** memcpy(&pkt[at], data, n). */
  method Copy(pkt: array<byte>, at: nat, data: array<byte>, n: nat)
    requires pkt != data && at + n <= pkt.Length && n <= data.Length
    modifies pkt
    ensures pkt[..] == old(pkt[..at]) + data[..n] + old(pkt[at + n..])
  {
    for i := 0 to n
      invariant forall k | 0 <= k < pkt.Length :: pkt[k] == if at <= k < at + i then data[k - at] else old(pkt[k])
    {
      pkt[at + i] := data[i];
    }
  }

  /** The checksum and the stop byte. */
  method Finish(pkt: array<byte>, n: nat, crc: nat)
    requires 4 + n + 3 <= pkt.Length && crc < MODULUS
    modifies pkt
    ensures pkt[..4 + n] == old(pkt[..4 + n]) && pkt[7 + n..] == old(pkt[7 + n..])
    ensures Word(pkt[4 + n], pkt[5 + n]) == crc && pkt[6 + n] == END
  {
    pkt[4 + n] := crc / 0x100;
    pkt[5 + n] := crc % 0x100;
    pkt[6 + n] := END;
  }

  lemma CoveredPart(before: seq<byte>, copied: seq<byte>, data: seq<byte>)
    requires |before| >= 4 + |data| && before[3] == Low(|data|)
    requires copied == before[..4] + data + before[4 + |data|..]
    ensures copied[2..2 + (|data| + 2)] == Covered(before[2], data)
  {
  }

  lemma FilledFrame(before: seq<byte>, p: seq<byte>, data: seq<byte>)
    requires |before| >= 4 && before[0] == START && before[3] == Low(|data|) && |p| == |data| + 7
    requires p[..4 + |data|] == before[..4] + data && p[6 + |data|] == END
    requires Word(p[4 + |data|], p[5 + |data|]) == Crc(Covered(before[2], data))
    ensures p == Frame(before[1], before[2], data)
  {
    var q := p[..4 + |data|];
    assert q[..4] == before[..4] && q[4..] == data;
    assert p[0] == q[0] && p[1] == q[1] && p[2] == q[2] && p[3] == q[3];
    assert p[4..4 + |data|] == q[4..];
    PartsMakeFrame(p, data);
  }

  /** What jbd_cmd puts behind the four bytes of the header. */
  method Fill(pkt: array<byte>, data: array<byte>, n: nat)
    requires pkt != data && 4 + n + 3 <= pkt.Length && n <= data.Length && pkt[0] == START && pkt[3] == Low(n)
    modifies pkt
    ensures pkt[..7 + n] == Frame(old(pkt[1]), old(pkt[2]), data[..n]) && pkt[7 + n..] == old(pkt[7 + n..])
  {
    ghost var before := pkt[..];
    Copy(pkt, 4, data, n);
    ghost var copied := pkt[..];
    var crc := JbdCrc(pkt, 2, n + 2);
    CoveredPart(before, copied, data[..n]);
    Finish(pkt, n, crc);
    FilledFrame(before, pkt[..7 + n], data[..n]);
    assert copied[7 + n..] == before[7 + n..];
  }

  /** How many bytes of data a command carries: a read carries none. */
  function Carried(action: int, dataLen: nat): nat {
    if action == READ then 0 else dataLen
  }

  /** How far a call of jbd_cmd writes: the cleared bytes, the header, and the frame if the data passes the room check. */
  function Extent(n: nat, pktSize: nat): nat {
    Max(Max(pktSize, 4), if 4 + n <= pktSize then 4 + n + 3 else 0)
  }

  /**
    * The writes stay within pkt_size exactly when the header fits and the data does not end in its last three bytes: the
    * room check counts the data, but not the checksum and the stop byte behind it.
    */
  lemma StaysInside(n: nat, pktSize: nat)
    ensures Extent(n, pktSize) <= pktSize <==> 4 <= pktSize && !(pktSize - 3 < 4 + n <= pktSize)
  {
  }

  /** With the buffer of 256 bytes that jbd_rw passes, 250 to 252 bytes of data write up to three bytes behind it. */
  lemma WritesBehind(n: nat)
    ensures Extent(n, 256) > 256 <==> 250 <= n <= 252
    ensures Extent(250, 256) == 257 && Extent(252, 256) == 259
  {
    StaysInside(n, 256);
  }

  lemma SameTail(p: seq<byte>, q: seq<byte>, from: nat, e: nat)
    requires from <= e <= |p| == |q| && p[from..] == q[from..]
    ensures p[e..] == q[e..]
  {
    assert p[e..] == p[from..][e - from..] && q[e..] == q[from..][e - from..];
  }

  lemma ClearedTail(before: seq<byte>, pktSize: nat, e: nat)
    requires pktSize <= e <= |before|
    ensures (Zeros(pktSize) + before[pktSize..])[e..] == before[e..]
  {
  }

  /** jbd_cmd; pkt stands for the memory from the buffer on, of which the caller says that pktSize bytes are his. */
  method JbdCmd(pkt: array<byte>, pktSize: nat, action: int, reg: int, data: array<byte>, dataLen: nat)
    returns (r: int)
    requires pkt != data && dataLen <= data.Length && Extent(Carried(action, dataLen), pktSize) <= pkt.Length
    modifies pkt
    ensures var n := Carried(action, dataLen);
            if 4 + n <= pktSize then
              r == n + 7 && pkt[..r] == Frame(Low(action), Low(reg), data[..n]) &&
              pkt[r..] == (Zeros(pktSize) + old(pkt[pktSize..]))[r..]
            else
              r == -1 && pkt[..4] == [START, Low(action), Low(reg), Low(n)] &&
              pkt[4..] == (Zeros(pktSize) + old(pkt[pktSize..]))[4..]
    ensures var e := Extent(Carried(action, dataLen), pktSize); pkt[e..] == old(pkt[e..])
  {
    var n := if action == READ then 0 else dataLen;
    ghost var before := pkt[..];
    Clear(pkt, pktSize);
    ghost var cleared := pkt[..];
    pkt[0], pkt[1], pkt[2], pkt[3] := START, Low(action), Low(reg), Low(n);
    assert pkt[4..] == cleared[4..];
    ghost var e := Extent(n, pktSize);
    ClearedTail(before, pktSize, e);
    if 4 + n > pktSize {
      SameTail(pkt[..], cleared, 4, e);
      return -1;
    }
    SameTail(pkt[..], cleared, 4, 7 + n);
    Fill(pkt, data, n);
    SameTail(pkt[..], cleared, 7 + n, e);
    return 7 + n;
  }

  // ---------------------------------------------------------------------------------------------
  // The bytes on the wire

  lemma WrapsToZero(sum: nat, crc: nat)
    requires crc < 0x1_0000
    ensures -(sum as int) % 0x1_0000 == crc <==> (sum + crc) % 0x1_0000 == 0
  {
    var q := (sum + crc) / 0x1_0000;
    var m := -(sum as int) / 0x1_0000;
    assert (sum + crc) % 0x1_0000 == 0 ==> -(sum as int) == -q * 0x1_0000 + crc;
    assert -(sum as int) % 0x1_0000 == crc ==> sum + crc == -m * 0x1_0000;
  }

  /** The rule for frames, byte by byte: from byte 2 up to the checksum everything adds up to zero with the checksum. */
  lemma FrameRule(p: seq<byte>)
    ensures Accepts(p) <==>
            var n := |p|;
            n >= 7 && p[0] == 0xDD && p[3] == n - 7 && p[n - 1] == 0x77 &&
            (Sum(p[2..n - 3]) + 0x100 * p[n - 3] as int + p[n - 2] as int) % 0x1_0000 == 0
  {
    if |p| >= 7 {
      WrapsToZero(Sum(p[2..|p| - 3]), Word(p[|p| - 3], p[|p| - 2]));
    }
  }

  /** What the board reads in a command: the action, the register, and the data, of which a read (0xA5) has none. */
  lemma CommandIsUnderstood(action: byte, reg: byte, data: seq<byte>)
    requires |data| <= 0xFF
    ensures var p := Frame(action, reg, data[..Carried(action, |data|)]);
            Accepts(p) && p[1] == action && p[2] == reg && p[4..|p| - 3] == if action == 0xA5 then [] else data
  {
    var carried := data[..Carried(action, |data|)];
    FrameIsAccepted(action, reg, carried);
    FrameParts(action, reg, carried);
  }

  /** The command that reads register 3. */
  lemma ReadCommand()
    ensures Frame(0xA5, 0x03, []) == [0xDD, 0xA5, 0x03, 0x00, 0xFF, 0xFD, 0x77]
  {
    assert Covered(0x03, []) == [0x03, 0x00] && [0x03, 0x00][1..] == [0x00] && [0x00][1..] == [];
    assert Sum([0x00]) == 0 && Sum([0x03, 0x00]) == 3;
  }
}
