/** Which texts parson takes for UTF-8: the encodings of code points, and no others. */
module JsonUtf8 {
  import opened CText
  import opened Common
  import opened JsonString

  /** A code point that text may hold: no surrogate. */
  predicate IsScalar(cp: nat) {
    cp <= 0x10FFFF && !(0xD800 <= cp <= 0xDFFF)
  }

  /** What a byte becomes that has these low bits and the tag of a continuation byte. */
  lemma ContIs(c: char, x: nat)
    requires IsCont(c) && x % 0x40 == c as int % 0x40
    ensures Cont(x) == c
  {
  }

  lemma Encodes2(a: char, b: char, cp: nat)
    requires 0xC2 as char <= a < 0xE0 as char && IsCont(b)
    requires cp == a as int % 0x20 * 0x40 + b as int % 0x40
    ensures 0x80 <= cp < 0x800 && Utf8Bytes(cp) == [a, b]
  {
    ContIs(b, cp);
    assert cp / 0x40 == a as int % 0x20;
  }

  lemma Encodes3(a: char, b: char, c: char, cp: nat)
    requires 0xE0 as char <= a < 0xF0 as char && IsCont(b) && IsCont(c)
    requires cp == a as int % 0x10 * 0x1000 + b as int % 0x40 * 0x40 + c as int % 0x40 && cp >= 0x800
    ensures cp < 0x10000 && Utf8Bytes(cp) == [a, b, c]
  {
    var high := a as int % 0x10 * 0x40 + b as int % 0x40;
    assert cp == high * 0x40 + c as int % 0x40 && cp / 0x40 == high && high / 0x40 == a as int % 0x10;
    ContIs(c, cp);
    ContIs(b, high);
    assert cp / 0x1000 == a as int % 0x10;
  }

  lemma Encodes4(a: char, b: char, c: char, d: char, cp: nat)
    requires 0xF0 as char <= a <= 0xF4 as char && IsCont(b) && IsCont(c) && IsCont(d)
    requires cp == a as int % 8 * 0x40000 + b as int % 0x40 * 0x1000 + c as int % 0x40 * 0x40 + d as int % 0x40
    requires 0x10000 <= cp <= 0x10FFFF
    ensures Utf8Bytes(cp) == [a, b, c, d]
  {
    var top := a as int % 8 * 0x40 + b as int % 0x40;
    var high := top * 0x40 + c as int % 0x40;
    assert cp == high * 0x40 + d as int % 0x40 && cp / 0x40 == high && high / 0x40 == top && top / 0x40 == a as int % 8;
    ContIs(d, cp);
    ContIs(c, high);
    ContIs(b, top);
    assert cp / 0x1000 == top && cp / 0x40000 == a as int % 8;
  }

  lemma HeadIsEncoded(s: string)
    requires s != "" && Utf8Head(s).Some?
    ensures var (cp, n) := Utf8Head(s).value; IsScalar(cp) && n <= |s| && s[..n] == Utf8Bytes(cp)
  {
    var (cp, n) := Utf8Head(s).value;
    if n == 2 {
      Encodes2(s[0], s[1], cp);
    } else if n == 3 {
      Encodes3(s[0], s[1], s[2], cp);
    } else if n == 4 {
      Encodes4(s[0], s[1], s[2], s[3], cp);
    }
  }

  /** verify_utf8_sequence accepts exactly the bytes that encode a code point, so nothing overlong, no surrogate, no more than 0x10FFFF. */
  lemma HeadIsExact(s: string, cp: nat, n: nat)
    requires s != ""
    ensures Utf8Head(s) == Some((cp, n)) <==> IsScalar(cp) && n == |Utf8Bytes(cp)| && Utf8Bytes(cp) <= s
  {
    if Utf8Head(s) == Some((cp, n)) {
      HeadIsEncoded(s);
    }
    if IsScalar(cp) && n == |Utf8Bytes(cp)| && Utf8Bytes(cp) <= s {
      assert Utf8Bytes(cp) + s[n..] == s;
      Utf8BytesDecode(cp, s[n..]);
    }
  }

  predicate AllScalar(cps: seq<nat>) {
    forall i | 0 <= i < |cps| :: IsScalar(cps[i])
  }

  /** The code points one after the other. */
  function Encode(cps: seq<nat>): string
    requires AllScalar(cps)
  {
    if cps == [] then "" else assert IsScalar(cps[0]); Utf8Bytes(cps[0]) + Encode(cps[1..])
  }

  lemma {:induction false} EncodeFront(cp: nat, rest: seq<nat>)
    requires IsScalar(cp) && AllScalar(rest)
    ensures AllScalar([cp] + rest) && Encode([cp] + rest) == Utf8Bytes(cp) + Encode(rest)
  {
    assert ([cp] + rest)[1..] == rest;
  }

  lemma {:induction false} DecodeFront(cp: nat, tail: string)
    requires IsScalar(cp) && Decode(tail).Some?
    ensures Decode(Utf8Bytes(cp) + tail) == Some([cp] + Decode(tail).value)
  {
    var b := Utf8Bytes(cp);
    Utf8BytesDecode(cp, tail);
    assert (b + tail)[|b|..] == tail && |b| > 0;
  }

  lemma {:induction false} EncodedDecodes(cps: seq<nat>)
    requires AllScalar(cps)
    ensures Decode(Encode(cps)) == Some(cps)
  {
    if cps != [] {
      assert IsScalar(cps[0]) && cps == [cps[0]] + cps[1..];
      EncodedDecodes(cps[1..]);
      DecodeFront(cps[0], Encode(cps[1..]));
    }
  }

  lemma {:induction false} DecodedEncodes(s: string)
    requires Decode(s).Some?
    ensures AllScalar(Decode(s).value) && Encode(Decode(s).value) == s
    decreases |s|
  {
    if s != "" {
      var (cp, n) := Utf8Head(s).value;
      HeadIsEncoded(s);
      DecodedEncodes(s[n..]);
      EncodeFront(cp, Decode(s[n..]).value);
      assert s[..n] + s[n..] == s;
    }
  }

  /** is_valid_utf8 accepts exactly the texts that encode code points, and each text encodes one sequence of them. */
  lemma ValidIsEncoded(s: string, cps: seq<nat>)
    ensures Decode(s) == Some(cps) <==> AllScalar(cps) && s == Encode(cps)
  {
    if Decode(s) == Some(cps) {
      DecodedEncodes(s);
    }
    if AllScalar(cps) && s == Encode(cps) {
      EncodedDecodes(cps);
    }
  }
}
