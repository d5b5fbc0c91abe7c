/** The CRC-16 that a JBD board puts on its CAN messages (jbd_can_crc in jbd.c). */
module CanCrc {
  import opened LongDivision

  const POLYNOMIAL: bv16 := 0xA001
  const MESSAGE_LENGTH := 6

  // ---------------------------------------------------------------------------------------------
  // Repeating a step

  function Iterate<T>(f: T -> T, n: nat, x: T): T {
    if n == 0 then x else Iterate(f, n - 1, f(x))
  }

  lemma {:induction false} IterateLast<T>(f: T -> T, n: nat, x: T)
    ensures Iterate(f, n + 1, x) == f(Iterate(f, n, x))
  {
    if n > 0 {
      IterateLast(f, n - 1, f(x));
    }
  }

  lemma {:induction false} IterateSum<T>(f: T -> T, m: nat, n: nat, x: T)
    ensures Iterate(f, n, Iterate(f, m, x)) == Iterate(f, m + n, x)
  {
    if m > 0 {
      IterateSum(f, m - 1, n, f(x));
    }
  }

  lemma {:induction false} IterateKeepsApart<T(!new)>(f: T -> T, n: nat, x: T, y: T)
    requires forall a, b :: f(a) == f(b) ==> a == b
    ensures Iterate(f, n, x) == Iterate(f, n, y) <==> x == y
  {
    if n > 0 {
      IterateKeepsApart(f, n - 1, f(x), f(y));
    }
  }

  lemma {:induction false} IterateKeepsSums<T(!new)>(f: T -> T, add: (T, T) -> T, n: nat, x: T, y: T)
    requires forall a, b :: f(add(a, b)) == add(f(a), f(b))
    ensures Iterate(f, n, add(x, y)) == add(Iterate(f, n, x), Iterate(f, n, y))
  {
    if n > 0 {
      IterateKeepsSums(f, add, n - 1, f(x), f(y));
    }
  }

  // ---------------------------------------------------------------------------------------------
  // The shift step is a linear bijection

  /** One bit. */
  function Step(w: bv16): bv16 {
    if w & 1 != 0 then (w >> 1) ^ POLYNOMIAL else w >> 1
  }

  function Unstep(w: bv16): bv16 {
    if w & 0x8000 != 0 then ((w ^ POLYNOMIAL) << 1) | 1 else w << 1
  }

  lemma StepThenUnstep(w: bv16)
    ensures Unstep(Step(w)) == w
  {
  }

  lemma UndoesShift(w: bv16, p: bv16)
    requires p == POLYNOMIAL && w & 0x8000 != 0
    ensures (((w ^ p) << 1) | 1) & 1 != 0 && ((((w ^ p) << 1) | 1) >> 1) ^ p == w
  {
  }

  lemma UnstepThenStep(w: bv16)
    ensures Step(Unstep(w)) == w
  {
    if w & 0x8000 != 0 {
      UndoesShift(w, POLYNOMIAL);
    }
  }

  lemma XorShifts(v: bv16, w: bv16)
    ensures (v ^ w) >> 1 == (v >> 1) ^ (w >> 1)
  {
  }

  lemma XorLowBit(v: bv16, w: bv16)
    ensures (v ^ w) & 1 == (v & 1) ^ (w & 1)
  {
  }

  lemma LowBit(w: bv16)
    ensures w & 1 == 0 || w & 1 == 1
  {
  }

  lemma XorBoth(v: bv16, w: bv16, p: bv16)
    ensures (v ^ p) ^ (w ^ p) == v ^ w
  {
  }

  lemma XorLeft(v: bv16, w: bv16, p: bv16)
    ensures (v ^ p) ^ w == (v ^ w) ^ p
  {
  }

  lemma XorRight(v: bv16, w: bv16, p: bv16)
    ensures v ^ (w ^ p) == (v ^ w) ^ p
  {
  }

  lemma StepIsLinear(v: bv16, w: bv16)
    ensures Step(v ^ w) == Step(v) ^ Step(w)
  {
    XorShifts(v, w);
    XorLowBit(v, w);
    LowBit(v);
    LowBit(w);
    if v & 1 == 0 && w & 1 == 0 {
      assert (v ^ w) & 1 == 0;
    } else if v & 1 == 0 {
      assert (v ^ w) & 1 == 1;
      XorRight(v >> 1, w >> 1, POLYNOMIAL);
    } else if w & 1 == 0 {
      assert (v ^ w) & 1 == 1;
      XorLeft(v >> 1, w >> 1, POLYNOMIAL);
    } else {
      assert (v ^ w) & 1 == 0;
      XorBoth(v >> 1, w >> 1, POLYNOMIAL);
    }
  }

  // ---------------------------------------------------------------------------------------------
  // Messages

  function Xor(v: bv16, w: bv16): bv16 {
    v ^ w
  }

  /** One byte. */
  function Byte(w: bv16, c: bv8): bv16 {
    Iterate(Step, 8, Xor(w, c as bv16))
  }

  function Crc(w: bv16, message: seq<bv8>): bv16
    decreases |message|
  {
    if message == [] then w else Crc(Byte(w, message[0]), message[1..])
  }

  lemma {:induction false} CrcLast(w: bv16, message: seq<bv8>, c: bv8)
    ensures Crc(w, message + [c]) == Byte(Crc(w, message), c)
    decreases |message|
  {
    if message == [] {
      assert [c][1..] == [];
    } else {
      CrcLast(Byte(w, message[0]), message[1..], c);
      assert (message + [c])[1..] == message[1..] + [c];
    }
  }

  /** The body of the loop of jbd_can_crc. */
  method MixByte(w: bv16, c: bv8) returns (r: bv16)
    ensures r == Byte(w, c)
  {
    r := w ^ (c as bv16);
    ghost var mixed := r;
    for i := 0 to 8
      invariant r == Iterate(Step, i, mixed)
    {
      IterateLast(Step, i, mixed);
      if r & 1 != 0 {
        r := (r >> 1) ^ POLYNOMIAL;
      } else {
        r := r >> 1;
      }
    }
  }

  method JbdCanCrc(message: array<bv8>) returns (crc: bv16)
    requires message.Length >= MESSAGE_LENGTH
    ensures crc == Crc(0xFFFF, message[..MESSAGE_LENGTH])
  {
    crc := 0xFFFF;
    for k := 0 to MESSAGE_LENGTH
      invariant crc == Crc(0xFFFF, message[..k])
    {
      CrcLast(0xFFFF, message[..k], message[k]);
      assert message[..k + 1] == message[..k] + [message[k]];
      crc := MixByte(crc, message[k]);
    }
  }

  lemma StepsKeepApart(n: nat, v: bv16, w: bv16)
    ensures Iterate(Step, n, v) == Iterate(Step, n, w) <==> v == w
  {
    forall a, b | Step(a) == Step(b) ensures a == b {
      StepThenUnstep(a);
      StepThenUnstep(b);
    }
    IterateKeepsApart(Step, n, v, w);
  }

  lemma XorTwice(v: bv16, w: bv16)
    ensures (v ^ w) ^ w == v && (w ^ v) ^ w == v
  {
  }

  lemma ByteKeepsApart(v: bv16, w: bv16, c: bv8)
    ensures Byte(v, c) == Byte(w, c) <==> v == w
  {
    XorTwice(v, c as bv16);
    XorTwice(w, c as bv16);
    StepsKeepApart(8, Xor(v, c as bv16), Xor(w, c as bv16));
  }

  lemma WidenKeepsApart(c: bv8, d: bv8)
    ensures c as bv16 == d as bv16 <==> c == d
  {
  }

  lemma OneByteKeepsApart(w: bv16, c: bv8, d: bv8)
    ensures Byte(w, c) == Byte(w, d) <==> c == d
  {
    XorTwice(c as bv16, w);
    XorTwice(d as bv16, w);
    WidenKeepsApart(c, d);
    StepsKeepApart(8, Xor(w, c as bv16), Xor(w, d as bv16));
  }

  lemma StepsAreLinear(n: nat, v: bv16, w: bv16, sum: bv16)
    requires sum == Xor(v, w)
    ensures Iterate(Step, n, sum) == Xor(Iterate(Step, n, v), Iterate(Step, n, w))
  {
    forall a, b ensures Step(Xor(a, b)) == Xor(Step(a), Step(b)) {
      StepIsLinear(a, b);
    }
    IterateKeepsSums(Step, Xor, n, v, w);
  }

  lemma XorBytes(v: bv16, w: bv16, c: bv8, d: bv8)
    ensures Xor(Xor(v, w), (c ^ d) as bv16) == Xor(Xor(v, c as bv16), Xor(w, d as bv16))
  {
  }

  lemma ByteIsLinear(v: bv16, w: bv16, c: bv8, d: bv8)
    ensures Byte(Xor(v, w), c ^ d) == Xor(Byte(v, c), Byte(w, d))
  {
    XorBytes(v, w, c, d);
    StepsAreLinear(8, Xor(v, c as bv16), Xor(w, d as bv16), Xor(Xor(v, w), (c ^ d) as bv16));
  }

  // ---------------------------------------------------------------------------------------------
  // Two bytes

  /** Two bytes as one word, the later one high. */
  function Pair(c: bv8, d: bv8): bv16 {
    Xor(c as bv16, (d as bv16) << 8)
  }

  lemma PairKeepsApart(c: bv8, d: bv8, c': bv8, d': bv8)
    ensures Pair(c, d) == Pair(c', d') <==> c == c' && d == d'
  {
  }

  lemma ShiftsToMiddle(w: bv16)
    requires w & 0xFF00 == 0
    ensures (w << 8) & 1 == 0 && (w << 8) >> 1 == w << 7 && (w << 7) & 1 == 0 && (w << 7) >> 1 == w << 6
    ensures (w << 6) & 1 == 0 && (w << 6) >> 1 == w << 5 && (w << 5) & 1 == 0 && (w << 5) >> 1 == w << 4
  {
  }

  lemma ShiftsFromMiddle(w: bv16)
    requires w & 0xFF00 == 0
    ensures (w << 4) & 1 == 0 && (w << 4) >> 1 == w << 3 && (w << 3) & 1 == 0 && (w << 3) >> 1 == w << 2
    ensures (w << 2) & 1 == 0 && (w << 2) >> 1 == w << 1 && (w << 1) & 1 == 0 && (w << 1) >> 1 == w
  {
  }

  lemma Falls(n: nat, w: bv16, half: bv16)
    requires n > 0 && w & 1 == 0 && w >> 1 == half
    ensures Iterate(Step, n, w) == Iterate(Step, n - 1, half)
  {
  }

  lemma FallsToMiddle(w: bv16)
    requires w & 0xFF00 == 0
    ensures Iterate(Step, 8, w << 8) == Iterate(Step, 4, w << 4)
  {
    ShiftsToMiddle(w);
    Falls(8, w << 8, w << 7);
    Falls(7, w << 7, w << 6);
    Falls(6, w << 6, w << 5);
    Falls(5, w << 5, w << 4);
  }

  lemma FallsFromMiddle(w: bv16)
    requires w & 0xFF00 == 0
    ensures Iterate(Step, 4, w << 4) == w
  {
    ShiftsFromMiddle(w);
    Falls(4, w << 4, w << 3);
    Falls(3, w << 3, w << 2);
    Falls(2, w << 2, w << 1);
    Falls(1, w << 1, w);
  }

  lemma ByteIsLow(d: bv8)
    ensures (d as bv16) & 0xFF00 == 0
  {
  }

  lemma XorAssociates(w: bv16, c: bv16, d: bv16)
    ensures Xor(Xor(w, c), d) == Xor(w, Xor(c, d))
  {
  }

  /** A byte in the high half reaches the low half unmixed, so it may as well be mixed in eight steps earlier. */
  lemma HighByteFalls(w: bv16, c: bv16, d: bv16, high: bv16)
    requires d & 0xFF00 == 0 && high == d << 8
    ensures Iterate(Step, 8, Xor(Iterate(Step, 8, Xor(w, c)), d)) == Iterate(Step, 16, Xor(w, Xor(c, high)))
  {
    FallsToMiddle(d);
    FallsFromMiddle(d);
    XorAssociates(w, c, high);
    StepsAreLinear(8, Xor(w, c), high, Xor(w, Xor(c, high)));
    IterateSum(Step, 8, 8, Xor(w, Xor(c, high)));
  }

  /** Two bytes enter the checksum like one word. */
  lemma TwoBytes(w: bv16, c: bv8, d: bv8)
    ensures Byte(Byte(w, c), d) == Iterate(Step, 16, Xor(w, Pair(c, d)))
  {
    ByteIsLow(d);
    HighByteFalls(w, c as bv16, d as bv16, (d as bv16) << 8);
  }

  lemma XorKeepsApart(w: bv16, v: bv16, v': bv16)
    ensures Xor(w, v) == Xor(w, v') <==> v == v'
  {
  }

  lemma TwoBytesKeepApart(w: bv16, c: bv8, d: bv8, c': bv8, d': bv8)
    ensures Byte(Byte(w, c), d) == Byte(Byte(w, c'), d') <==> c == c' && d == d'
  {
    TwoBytes(w, c, d);
    TwoBytes(w, c', d');
    StepsKeepApart(16, Xor(w, Pair(c, d)), Xor(w, Pair(c', d')));
    XorKeepsApart(w, Pair(c, d), Pair(c', d'));
    PairKeepsApart(c, d, c', d');
  }

  // ---------------------------------------------------------------------------------------------
  // What the checksum detects

  lemma {:induction false} CrcKeepsApart(v: bv16, w: bv16, message: seq<bv8>)
    ensures Crc(v, message) == Crc(w, message) <==> v == w
    decreases |message|
  {
    if message != [] {
      CrcKeepsApart(Byte(v, message[0]), Byte(w, message[0]), message[1..]);
      ByteKeepsApart(v, w, message[0]);
    }
  }

  function XorAll(m: seq<bv8>, m': seq<bv8>): (r: seq<bv8>)
    requires |m| == |m'|
    ensures |r| == |m|
  {
    if m == [] then [] else [m[0] ^ m'[0]] + XorAll(m[1..], m'[1..])
  }

  /** The checksum of a sum of messages is the sum of the checksums. */
  lemma {:induction false} CrcIsLinear(v: bv16, w: bv16, m: seq<bv8>, m': seq<bv8>)
    requires |m| == |m'|
    ensures Crc(Xor(v, w), XorAll(m, m')) == Xor(Crc(v, m), Crc(w, m'))
    decreases |m|
  {
    if m != [] {
      var sum := XorAll(m, m');
      ByteIsLinear(v, w, m[0], m'[0]);
      assert sum[0] == m[0] ^ m'[0] && sum[1..] == XorAll(m[1..], m'[1..]);
      CrcIsLinear(Byte(v, m[0]), Byte(w, m'[0]), m[1..], m'[1..]);
    }
  }

  lemma FrontBurstIsSeen(w: bv16, m: seq<bv8>, m': seq<bv8>)
    requires |m| == |m'| >= 2 && m[2..] == m'[2..]
    ensures Crc(w, m) == Crc(w, m') <==> m[0] == m'[0] && m[1] == m'[1]
  {
    var rest := m[2..];
    assert m[1..][1..] == rest && m'[1..][1..] == rest;
    TwoBytesKeepApart(w, m[0], m[1], m'[0], m'[1]);
    CrcKeepsApart(Byte(Byte(w, m[0]), m[1]), Byte(Byte(w, m'[0]), m'[1]), rest);
  }

  /** Messages that differ only in byte i and the byte after it have different checksums, whatever their length. */
  lemma {:induction false} BurstIsSeen(w: bv16, m: seq<bv8>, m': seq<bv8>, i: nat)
    requires |m| == |m'| && forall k | 0 <= k < |m| && k != i && k != i + 1 :: m[k] == m'[k]
    ensures Crc(w, m) == Crc(w, m') <==> m == m'
    decreases |m|
  {
    if m == [] {
    } else if i > 0 {
      BurstIsSeen(Byte(w, m[0]), m[1..], m'[1..], i - 1);
      assert m == [m[0]] + m[1..] && m' == [m'[0]] + m'[1..];
    } else if |m| == 1 {
      OneByteKeepsApart(w, m[0], m'[0]);
      assert m == [m[0]] && m' == [m'[0]];
    } else {
      FrontBurstIsSeen(w, m, m');
      assert m == [m[0], m[1]] + m[2..] && m' == [m'[0], m'[1]] + m'[2..];
    }
  }

  // ---------------------------------------------------------------------------------------------
  // What the checksum is: the remainder of a polynomial division

  /** x^16 + x^15 + x^2 + 1. */
  const GENERATOR: seq<bool> := seq(17, i => i == 16 - 16 || i == 16 - 15 || i == 16 - 2 || i == 16 - 0)

  /** The word whose only one is bit i. */
  function Mask(i: nat): (m: bv16)
    requires i < 16
    ensures m & (m - 1) == 0
  {
    if i == 0 then 1 else Doubled(Mask(i - 1))
  }

  function Doubled(m: bv16): (d: bv16)
    requires m & (m - 1) == 0
    ensures d & (d - 1) == 0
  {
    m << 1
  }

  predicate Bit(w: bv16, i: nat)
    requires i < 16
  {
    w & Mask(i) != 0
  }

  /** The bits of a word, the lowest first. */
  function WordBits(w: bv16): (r: seq<bool>)
    ensures |r| == 16 && forall i | 0 <= i < 16 :: r[i] == Bit(w, i)
  {
    seq(16, i requires 0 <= i < 16 => Bit(w, i))
  }

  function ByteBits(c: bv8): (r: seq<bool>)
    ensures |r| == 8
  {
    WordBits(c as bv16)[..8]
  }

  /** The bits of a message, each byte with its lowest bit first. */
  function MessageBits(m: seq<bv8>): (r: seq<bool>)
    ensures |r| == 8 * |m|
  {
    if m == [] then [] else ByteBits(m[0]) + MessageBits(m[1..])
  }

  lemma MaskedShift(w: bv16, half: bv16, m: bv16, doubled: bv16)
    requires half == w >> 1 && doubled == m << 1 && m & 0x8000 == 0
    ensures half & m != 0 <==> w & doubled != 0
  {
  }

  lemma MaskDoubles(i: nat, m: bv16, doubled: bv16)
    requires i < 15 && m == Mask(i) && doubled == Mask(i + 1)
    ensures doubled == m << 1
  {
  }

  lemma TopBit(w: bv16)
    ensures (w >> 1) & 0x8000 == 0
  {
  }

  lemma MaskedXor(v: bv16, w: bv16, m: bv16)
    requires m & (m - 1) == 0
    ensures (v ^ w) & m != 0 <==> (v & m != 0) != (w & m != 0)
  {
  }

  lemma XorBit(v: bv16, w: bv16, i: nat)
    requires i < 16
    ensures Bit(Xor(v, w), i) <==> Bit(v, i) != Bit(w, i)
  {
    MaskedXor(v, w, Mask(i));
  }

  lemma Masks()
    ensures Mask(0) == 1 && Mask(1) == 2 && Mask(2) == 4 && Mask(3) == 8
    ensures Mask(4) == 0x10 && Mask(5) == 0x20 && Mask(6) == 0x40 && Mask(7) == 0x80
    ensures Mask(8) == 0x100 && Mask(9) == 0x200 && Mask(10) == 0x400 && Mask(11) == 0x800
    ensures Mask(12) == 0x1000 && Mask(13) == 0x2000 && Mask(14) == 0x4000 && Mask(15) == 0x8000
  {
    assert Mask(4) == 0x10 && Mask(7) == 0x80;
    assert Mask(11) == 0x800;
  }

  lemma LowMask(i: nat)
    requires i < 15
    ensures Mask(i) & 0x8000 == 0
  {
    Masks();
  }

  lemma LowerBitShifts(w: bv16, half: bv16, i: nat)
    requires half == w >> 1 && i < 15
    ensures Bit(half, i) <==> Bit(w, i + 1)
  {
    LowMask(i);
    MaskDoubles(i, Mask(i), Mask(i + 1));
    MaskedShift(w, half, Mask(i), Mask(i + 1));
  }

  lemma TopMask(m: bv16)
    requires m == Mask(15)
    ensures m == 0x8000
  {
    Masks();
  }

  lemma TopBitShifts(w: bv16, half: bv16)
    requires half == w >> 1
    ensures !Bit(half, 15)
  {
    TopMask(Mask(15));
    TopBit(w);
  }

  lemma ShiftBit(w: bv16, half: bv16, i: nat)
    requires half == w >> 1 && i < 16
    ensures Bit(half, i) <==> i + 1 < 16 && Bit(w, i + 1)
  {
    if i < 15 {
      LowerBitShifts(w, half, i);
    } else {
      TopBitShifts(w, half);
    }
  }

  /** The polynomial of the code is the generator without its leading coefficient. */
  lemma PolynomialBit(i: nat)
    requires i < 16
    ensures Bit(POLYNOMIAL, i) <==> GENERATOR[i + 1]
  {
    Masks();
  }

  lemma FirstBit(w: bv16)
    ensures Bit(w, 0) <==> w & 1 != 0
  {
  }

  lemma StepBit(w: bv16, i: nat)
    requires i < 16
    ensures Bit(Step(w), i) <==> (i + 1 < 16 && Bit(w, i + 1)) != Taken(Bit(w, 0), GENERATOR, i)
  {
    FirstBit(w);
    ShiftBit(w, w >> 1, i);
    if w & 1 != 0 {
      PolynomialBit(i);
      XorBit(w >> 1, POLYNOMIAL, i);
    }
  }

  lemma StepShifts(w: bv16)
    ensures WordBits(Step(w)) == Shifted(WordBits(w), GENERATOR)
  {
    var r, r' := WordBits(Step(w)), Shifted(WordBits(w), GENERATOR);
    forall i | 0 <= i < 16 ensures r[i] == r'[i] {
      StepBit(w, i);
      ShiftedAt(WordBits(w), GENERATOR, i);
    }
  }

  /** A bit of the message that is zero: the step of the code is one line of the long division. */
  lemma StepIsLine(w: bv16, rest: seq<bool>)
    requires |rest| >= 16
    ensures Line(Plus([false] + rest, WordBits(w)), GENERATOR) == Plus(rest, WordBits(Step(w)))
  {
    StepShifts(w);
    RegisterShifts(rest, WordBits(w), GENERATOR);
  }

  lemma {:induction false} StepsAreLines(n: nat, w: bv16, rest: seq<bool>)
    requires |rest| >= 16
    ensures Remainder(Plus(Zeros(n) + rest, WordBits(w)), GENERATOR) ==
            Remainder(Plus(rest, WordBits(Iterate(Step, n, w))), GENERATOR)
  {
    if n == 0 {
      assert Zeros(0) + rest == rest;
    } else {
      var more := Zeros(n - 1) + rest;
      assert Zeros(n) + rest == [false] + more;
      StepIsLine(w, more);
      StepsAreLines(n - 1, Step(w), rest);
    }
  }

  lemma ByteHasNoHighBits(c: bv8, i: nat)
    requires 8 <= i < 16
    ensures !Bit(c as bv16, i)
  {
    Masks();
    ByteIsLow(c);
  }

  /** A byte may as well be in the register as in front of the message. */
  lemma ByteMovesToRegister(w: bv16, c: bv8, rest: seq<bool>)
    requires |rest| >= 16
    ensures Plus(ByteBits(c) + rest, WordBits(w)) == Plus(Zeros(8) + rest, WordBits(Xor(w, c as bv16)))
  {
    var p, q := Plus(ByteBits(c) + rest, WordBits(w)), Plus(Zeros(8) + rest, WordBits(Xor(w, c as bv16)));
    forall i | 0 <= i < |p| ensures p[i] == q[i] {
      if i < 16 {
        XorBit(w, c as bv16, i);
        if i >= 8 {
          ByteHasNoHighBits(c, i);
        }
      }
    }
  }

  /** From any start value: the checksum is the remainder of the message, followed by sixteen zeros, with the start value added. */
  lemma {:induction false} CrcDivides(w: bv16, m: seq<bv8>)
    ensures WordBits(Crc(w, m)) == Remainder(Plus(MessageBits(m) + Zeros(16), WordBits(w)), GENERATOR)
    decreases |m|
  {
    if m == [] {
      assert Plus(MessageBits(m) + Zeros(16), WordBits(w)) == WordBits(w);
    } else {
      var rest := MessageBits(m[1..]) + Zeros(16);
      assert MessageBits(m) + Zeros(16) == ByteBits(m[0]) + rest;
      ByteMovesToRegister(w, m[0], rest);
      StepsAreLines(8, Xor(w, m[0] as bv16), rest);
      CrcDivides(Byte(w, m[0]), m[1..]);
    }
  }

  /** The first n bits inverted. */
  function Inverted(bits: seq<bool>, n: nat): (r: seq<bool>)
    requires n <= |bits|
    ensures |r| == |bits|
  {
    seq(|bits|, i requires 0 <= i < |bits| => if i < n then !bits[i] else bits[i])
  }

  lemma AllOnes(i: nat)
    requires i < 16
    ensures Bit(0xFFFF, i)
  {
    Masks();
  }

  lemma OnesInvert(bits: seq<bool>)
    requires |bits| >= 16
    ensures Plus(bits, WordBits(0xFFFF)) == Inverted(bits, 16)
  {
    forall i | 0 <= i < 16 ensures WordBits(0xFFFF)[i] {
      AllOnes(i);
    }
  }

  /**
    * The checksum of the code, its lowest bit first, is what remains of the message times x^16, with its first sixteen bits
    * inverted, after division by x^16 + x^15 + x^2 + 1.
    */
  lemma CrcIsRemainder(m: seq<bv8>)
    ensures WordBits(Crc(0xFFFF, m)) == Remainder(Inverted(MessageBits(m) + Zeros(16), 16), GENERATOR)
  {
    CrcDivides(0xFFFF, m);
    OnesInvert(MessageBits(m) + Zeros(16));
  }
}
