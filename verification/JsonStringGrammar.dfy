/** The strings of section 7 of RFC 8259, stated without the scanner, and the proof that parson's scanner takes just those. */
module JsonStringGrammar {
  import opened CText
  import opened Common
  import opened JsonString

  // ---------------------------------------------------------------------------------------------
  // The grammar

  /** What a backslash and one character stand for. */
  function ShortEscape(c: char): Option<char> {
    if c == '"' || c == '\\' || c == '/' then Some(c)
    else if c == 'b' then Some(8 as char)
    else if c == 'f' then Some(12 as char)
    else if c == 'n' then Some('\n')
    else if c == 'r' then Some('\r')
    else if c == 't' then Some('\t')
    else None
  }

  predicate IsHexDigit(c: char) {
    '0' <= c <= '9' || 'a' <= c <= 'f' || 'A' <= c <= 'F'
  }

  function DigitValue(c: char): nat
    requires IsHexDigit(c)
  {
    if c <= '9' then c as int - '0' as int else if c <= 'F' then c as int - 'A' as int + 10 else c as int - 'a' as int + 10
  }

  /** A backslash, a `u` and four hexadecimal digits. */
  predicate IsLongEscape(t: string, i: nat) {
    i + 6 <= |t| && t[i] == '\\' && t[i + 1] == 'u' && forall k | i + 2 <= k < i + 6 :: IsHexDigit(t[k])
  }

  function CodeUnit(t: string, i: nat): (u: nat)
    requires IsLongEscape(t, i)
    ensures u < 0x10000
  {
    DigitValue(t[i + 2]) * 0x1000 + DigitValue(t[i + 3]) * 0x100 + DigitValue(t[i + 4]) * 0x10 + DigitValue(t[i + 5])
  }

  /** From i up to k stands one unit of a string body: a byte for itself, or an escape, with the bytes it stands for. */
  predicate Unit(t: string, i: nat, k: nat, out: string) {
    i < k <= |t| &&
    if k == i + 1 then t[i] >= ' ' && t[i] != '"' && t[i] != '\\' && out == [t[i]]
    else if k == i + 2 then t[i] == '\\' && ShortEscape(t[i + 1]).Some? && out == [ShortEscape(t[i + 1]).value]
    else if k == i + 6 then
      IsLongEscape(t, i) && var u := CodeUnit(t, i); !IsLead(u) && !IsTrail(u) && out == Utf8Bytes(u)
    else
      k == i + 12 && IsLongEscape(t, i) && IsLongEscape(t, i + 6) &&
      var lead, trail := CodeUnit(t, i), CodeUnit(t, i + 6);
      IsLead(lead) && IsTrail(trail) && out == Utf8Bytes(0x10000 + (lead - 0xD800) * 0x400 + (trail - 0xDC00))
  }

  /** From i up to e stand units, which together stand for s. */
  ghost predicate Body(t: string, i: nat, e: nat, s: string)
    decreases e - i
  {
    i <= e <= |t| &&
    if i == e then s == ""
    else exists k: nat, out, rest :: Unit(t, i, k, out) && k <= e && Body(t, k, e, rest) && s == out + rest
  }

  /** From i up to e stands a string between its quotes. */
  ghost predicate StringAt(t: string, i: nat, e: nat, s: string) {
    i + 2 <= e <= |t| && t[i] == '"' && t[e - 1] == '"' && Body(t, i + 1, e - 1, s)
  }

  // ---------------------------------------------------------------------------------------------
  // The scanner takes what the grammar allows

  lemma HexDigitsMatch(c: char)
    ensures IsHexDigit(c) <==> HexValue(c) >= 0
    ensures IsHexDigit(c) ==> DigitValue(c) == HexValue(c) && c != NUL
  {
  }

  lemma LongEscapeMatches(t: string, i: nat)
    requires i + 2 <= |t| && t[i] == '\\' && t[i + 1] == 'u'
    ensures Hex4(t, i + 2) == if IsLongEscape(t, i) then Some(CodeUnit(t, i)) else None
  {
    forall k | i + 2 <= k < |t| && k < i + 6
      ensures (IsHexDigit(t[k]) <==> HexValue(t[k]) >= 0) && (IsHexDigit(t[k]) ==> DigitValue(t[k]) == HexValue(t[k]) && t[k] != NUL)
    {
      HexDigitsMatch(t[k]);
    }
  }

  lemma LongEscapeIsPlain(t: string, i: nat)
    requires IsLongEscape(t, i)
    ensures Hex4(t, i + 2) == Some(CodeUnit(t, i)) && QuoteEnd(t, i) == QuoteEnd(t, i + 6)
  {
    LongEscapeMatches(t, i);
    assert QuoteEnd(t, i) == QuoteEnd(t, i + 2);
    HexIsPlain(t, i + 2);
  }

  lemma PairIsStep(t: string, i: nat)
    requires IsLongEscape(t, i) && IsLongEscape(t, i + 6) && IsLead(CodeUnit(t, i)) && IsTrail(CodeUnit(t, i + 6))
    ensures Step(t, i) == Some((Utf8Bytes(0x10000 + (CodeUnit(t, i) - 0xD800) * 0x400 + (CodeUnit(t, i + 6) - 0xDC00)), i + 12))
    ensures QuoteEnd(t, i) == QuoteEnd(t, i + 12)
  {
    LongEscapeIsPlain(t, i);
    LongEscapeIsPlain(t, i + 6);
  }

  lemma UnitIsStep(t: string, i: nat, k: nat, out: string)
    requires Unit(t, i, k, out)
    ensures t[i] != NUL && t[i] != '"' && Step(t, i) == Some((out, k)) && QuoteEnd(t, i) == QuoteEnd(t, k)
  {
    if k == i + 6 {
      LongEscapeIsPlain(t, i);
    } else if k == i + 12 {
      PairIsStep(t, i);
    }
  }

  lemma StepIsUnit(t: string, i: nat)
    requires i < |t| && t[i] != '"' && Step(t, i).Some?
    ensures Unit(t, i, Step(t, i).value.1, Step(t, i).value.0)
  {
    if t[i] == '\\' && At(t, i + 1) == 'u' {
      LongEscapeMatches(t, i);
      if IsLead(CodeUnit(t, i)) {
        LongEscapeMatches(t, i + 6);
      }
    }
  }

  lemma {:induction false} BodyIsProcessed(t: string, i: nat, e: nat, s: string)
    requires Body(t, i, e, s) && e < |t| && t[e] == '"'
    ensures QuoteEnd(t, i) == Some(e) && Process(t, i, e) == Some((s, e))
    decreases e - i
  {
    if i < e {
      var k: nat, out, rest :| Unit(t, i, k, out) && k <= e && Body(t, k, e, rest) && s == out + rest;
      UnitIsStep(t, i, k, out);
      BodyIsProcessed(t, k, e, rest);
    }
  }

  lemma {:induction false} ProcessedIsBody(t: string, i: nat, e: nat)
    requires i <= |t| && QuoteEnd(t, i) == Some(e) && Process(t, i, e).Some?
    ensures Body(t, i, e, Process(t, i, e).value.0)
    decreases e - i
  {
    if i < e {
      var (out, k) := Step(t, i).value;
      StepIsUnit(t, i);
      StepStaysInside(t, i);
      ProcessedIsBody(t, k, e);
      assert Body(t, k, e, Process(t, k, e).value.0);
    }
  }

  lemma GrammaticalIsScanned(t: string, i: nat, end: nat, s: string)
    requires i < end < |t| && t[i] == '"' && t[end] == '"' && Body(t, i + 1, end, s)
    ensures QuotedString(t, i) == Some((s, end + 1))
  {
    BodyIsProcessed(t, i + 1, end, s);
    QuotedBody(t, i, end, s);
  }

  lemma ScannedIsGrammatical(t: string, i: nat)
    requires i <= |t| && QuotedString(t, i).Some?
    ensures StringAt(t, i, QuotedString(t, i).value.1, QuotedString(t, i).value.0)
  {
    ProcessedIsBody(t, i + 1, QuoteEnd(t, i + 1).value);
  }

  /** The scanner reads a string exactly where the grammar has one, up to its closing quote and with the bytes it stands for. */
  lemma QuotedStringIsGrammatical(t: string, i: nat, e: nat, s: string)
    requires i <= |t|
    ensures QuotedString(t, i) == Some((s, e)) <==> StringAt(t, i, e, s)
  {
    if QuotedString(t, i) == Some((s, e)) {
      ScannedIsGrammatical(t, i);
    } else if StringAt(t, i, e, s) {
      GrammaticalIsScanned(t, i, e - 1, s);
    }
  }

  // ---------------------------------------------------------------------------------------------
  // The serialiser writes no string longer than it has to be

  lemma {:induction false} EscapeBodyConcat(s: string, r: string, slashes: bool)
    ensures EscapeBody(s + r, slashes) == EscapeBody(s, slashes) + EscapeBody(r, slashes)
  {
    if s == "" {
      assert s + r == r;
    } else {
      assert (s + r)[1..] == s[1..] + r;
      EscapeBodyConcat(s[1..], r, slashes);
      Assoc(EscapeChar(s[0], slashes), EscapeBody(s[1..], slashes), EscapeBody(r, slashes));
    }
  }

  lemma HighByteAsItIs(c: char)
    requires c >= 0x80 as char
    ensures EscapeChar(c, false) == [c]
  {
  }

  lemma {:induction false} HighBytesAsTheyAre(s: string)
    requires forall c | c in s :: c >= 0x80 as char
    ensures EscapeBody(s, false) == s
  {
    if s != "" {
      assert s[0] in s && forall c | c in s[1..] :: c in s;
      HighBytesAsTheyAre(s[1..]);
      HighByteAsItIs(s[0]);
    }
  }

  lemma {:induction false} OneByte(c: char)
    ensures EscapeBody([c], false) == EscapeChar(c, false)
  {
    assert [c][1..] == "";
  }

  lemma Utf8IsNoLonger(cp: nat, room: nat)
    requires cp < 0x110000 && (if cp < 0x10000 then room == 6 else room == 12)
    ensures |EscapeBody(Utf8Bytes(cp), false)| <= room
  {
    if cp < 0x80 {
      OneByte(Utf8Bytes(cp)[0]);
    } else {
      HighBytesAsTheyAre(Utf8Bytes(cp));
    }
  }

  lemma UnitIsNoShorter(t: string, i: nat, k: nat, out: string)
    requires Unit(t, i, k, out)
    ensures |EscapeBody(out, false)| <= k - i
  {
    if k == i + 1 || k == i + 2 {
      OneByte(out[0]);
      assert out == [out[0]];
    } else if k == i + 6 {
      Utf8IsNoLonger(CodeUnit(t, i), 6);
    } else {
      Utf8IsNoLonger(0x10000 + (CodeUnit(t, i) - 0xD800) * 0x400 + (CodeUnit(t, i + 6) - 0xDC00), 12);
    }
  }

  lemma {:induction false} BodyIsNoShorter(t: string, i: nat, e: nat, s: string)
    requires Body(t, i, e, s)
    ensures |EscapeBody(s, false)| <= e - i
    decreases e - i
  {
    if i < e {
      var k: nat, out, rest :| Unit(t, i, k, out) && k <= e && Body(t, k, e, rest) && s == out + rest;
      UnitIsNoShorter(t, i, k, out);
      BodyIsNoShorter(t, k, e, rest);
      EscapeBodyConcat(out, rest, false);
    }
  }

  /** Of all texts that stand for a string, the serialiser writes one of the shortest, unless it has to escape slashes. */
  lemma QuoteIsShortest(t: string, i: nat, e: nat, s: string)
    requires StringAt(t, i, e, s)
    ensures |Quote(s, false)| <= e - i
  {
    BodyIsNoShorter(t, i + 1, e - 1, s);
  }

  /** Escapes are written in lower case. */
  lemma EscapesAreLower(c: char, slashes: bool, k: nat)
    requires |EscapeChar(c, slashes)| > 1 && k < |EscapeChar(c, slashes)|
    ensures !('A' <= EscapeChar(c, slashes)[k] <= 'Z')
  {
  }
}
