/** The string codec of parson.c: escaping, quote skipping, unescaping, UTF-16 escapes and UTF-8 checks. */
module JsonString {
  import opened CText
  import opened Common

  // ---------------------------------------------------------------------------------------------
  // Escaping (json_serialize_string)

  function HexDigit(d: nat): char
    requires d < 16
  {
    if d < 10 then ('0' as int + d) as char else ('a' as int + d - 10) as char
  }

  /** The text json_serialize_string writes for one byte. */
  function EscapeChar(c: char, slashes: bool): string {
    if c == '"' then "\\\""
    else if c == '\\' then "\\\\"
    else if c == 8 as char then "\\b"
    else if c == 12 as char then "\\f"
    else if c == '\n' then "\\n"
    else if c == '\r' then "\\r"
    else if c == '\t' then "\\t"
    else if c < 0x20 as char then "\\u00" + [HexDigit(c as int / 16), HexDigit(c as int % 16)]
    else if c == '/' && slashes then "\\/"
    else [c]
  }

  function EscapeBody(s: string, slashes: bool): string {
    if s == "" then "" else EscapeChar(s[0], slashes) + EscapeBody(s[1..], slashes)
  }

  function Quote(s: string, slashes: bool): string {
    "\"" + EscapeBody(s, slashes) + "\""
  }

  // ---------------------------------------------------------------------------------------------
  // Finding the closing quote (skip_quotes)

  /** The position of the quote that closes the string whose body starts at i. */
  function QuoteEnd(t: string, i: nat): (r: Option<nat>)
    requires i <= |t|
    ensures r.Some? ==> i <= r.value < |t| && t[r.value] == '"'
    decreases |t| - i
  {
    if At(t, i) == '"' then Some(i)
    else if At(t, i) == NUL then None
    else if t[i] != '\\' then QuoteEnd(t, i + 1)
    else if At(t, i + 1) == NUL then None
    else QuoteEnd(t, i + 2)
  }

  /** skip_quotes: on success the cursor stands just after the closing quote. */
  method SkipQuotes(t: string, start: nat) returns (ok: bool, pos: nat)
    requires start <= |t|
    ensures pos <= |t|
    ensures ok <==> At(t, start) == '"' && QuoteEnd(t, start + 1).Some?
    ensures ok ==> pos == QuoteEnd(t, start + 1).value + 1
  {
    pos := start;
    if At(t, pos) != '"' {
      return false, pos;
    }
    pos := pos + 1;
    while At(t, pos) != '"'
      invariant start + 1 <= pos <= |t|
      invariant QuoteEnd(t, start + 1) == QuoteEnd(t, pos)
      decreases |t| - pos
    {
      if At(t, pos) == NUL {
        return false, pos;
      } else if At(t, pos) == '\\' {
        pos := pos + 1;
        if At(t, pos) == NUL {
          return false, pos;
        }
      }
      pos := pos + 1;
    }
    pos := pos + 1;
    return true, pos;
  }

  // ---------------------------------------------------------------------------------------------
  // Escapes (hex_char_to_int, parse_utf16_hex, parse_utf16)

  function HexValue(c: char): (v: int)
    ensures -1 <= v < 16
  {
    if '0' <= c <= '9' then c as int - '0' as int
    else if 'a' <= c <= 'f' then c as int - 'a' as int + 10
    else if 'A' <= c <= 'F' then c as int - 'A' as int + 10
    else -1
  }

  /** parse_utf16_hex: four hexadecimal digits; a NUL among them is seen before anything behind it is read. */
  function Hex4(t: string, i: nat): (r: Option<nat>)
    requires i <= |t|
    ensures r.Some? ==> i + 4 <= |t| && r.value < 0x10000 && forall k :: i <= k < i + 4 ==> HexValue(t[k]) >= 0
  {
    if At(t, i) == NUL || At(t, i + 1) == NUL || At(t, i + 2) == NUL || At(t, i + 3) == NUL then None
    else
      var x1, x2, x3, x4 := HexValue(t[i]), HexValue(t[i + 1]), HexValue(t[i + 2]), HexValue(t[i + 3]);
      if x1 == -1 || x2 == -1 || x3 == -1 || x4 == -1 then None
      else Some(x1 * 0x1000 + x2 * 0x100 + x3 * 0x10 + x4)
  }

  /** The last position parse_utf16_hex looks at: the first NUL, or else the fourth byte. */
  function HexReach(t: string, i: nat): (far: nat)
    requires i <= |t|
    ensures i <= far <= |t| && far <= i + 3
  {
    if At(t, i) == NUL then i
    else if At(t, i + 1) == NUL then i + 1
    else if At(t, i + 2) == NUL then i + 2
    else i + 3
  }

  method ReadHex4(t: string, i: nat) returns (r: Option<nat>, ghost far: nat)
    requires i <= |t|
    ensures r == Hex4(t, i) && far == HexReach(t, i)
  {
    far := i;
    if At(t, i) == NUL {
      return None, far;
    }
    far := i + 1;
    if At(t, i + 1) == NUL {
      return None, far;
    }
    far := i + 2;
    if At(t, i + 2) == NUL {
      return None, far;
    }
    far := i + 3;
    if At(t, i + 3) == NUL {
      return None, far;
    }
    var x1, x2, x3, x4 := HexValue(t[i]), HexValue(t[i + 1]), HexValue(t[i + 2]), HexValue(t[i + 3]);
    if x1 == -1 || x2 == -1 || x3 == -1 || x4 == -1 {
      return None, far;
    }
    return Some(x1 * 0x1000 + x2 * 0x100 + x3 * 0x10 + x4), far;
  }

  /** A continuation byte: the low six bits of x. */
  function Cont(x: nat): char {
    (x % 0x40 + 0x80) as char
  }

  /** The bytes parse_utf16 writes for a code point: shifts and masks of disjoint bit fields, as quotients and sums. */
  function Utf8Bytes(cp: nat): (s: string)
    requires cp <= 0x10FFFF
  {
    if cp < 0x80 then [cp as char]
    else if cp < 0x800 then [(cp / 0x40 % 0x20 + 0xC0) as char, Cont(cp)]
    else if cp < 0x10000 then [(cp / 0x1000 % 0x10 + 0xE0) as char, Cont(cp / 0x40), Cont(cp)]
    else [(cp / 0x40000 % 0x8 + 0xF0) as char, Cont(cp / 0x1000), Cont(cp / 0x40), Cont(cp)]
  }

  /** The code point of a surrogate pair, with parson's masks (section 2.2 of RFC 2781). */
  function PairCodePoint(lead: nat, trail: nat): (cp: nat)
    requires 0xD800 <= lead <= 0xDBFF && 0xDC00 <= trail <= 0xDFFF
    ensures 0x10000 <= cp <= 0x10FFFF && cp - 0x10000 == (lead - 0xD800) * 0x400 + (trail - 0xDC00)
  {
    (lead - 0xD800) % 0x400 * 0x400 + (trail - 0xDC00) % 0x400 + 0x10000
  }

  /** The code point a `u` escape at position i stands for, and where it ends. */
  function EscapedCodePoint(t: string, i: nat): (r: Option<(nat, nat)>)
    requires i < |t|
    ensures r.Some? ==> i + 5 <= r.value.1 <= |t| && r.value.0 <= 0x10FFFF
    ensures r.Some? ==> !(0xD800 <= r.value.0 <= 0xDFFF)
    ensures r.Some? ==> |Utf8Bytes(r.value.0)| <= r.value.1 - i
  {
    match Hex4(t, i + 1)
    case None => None
    case Some(lead) =>
      if lead < 0xD800 || lead > 0xDFFF then Some((lead, i + 5))
      else if lead > 0xDBFF then None
      else if At(t, i + 5) != '\\' || At(t, i + 6) != 'u' then None
      else
        match Hex4(t, i + 7)
        case None => None
        case Some(trail) =>
          if trail < 0xDC00 || trail > 0xDFFF then None
          else Some((PairCodePoint(lead, trail), i + 11))
  }

  predicate IsLead(u: nat) {
    0xD800 <= u <= 0xDBFF
  }

  predicate IsTrail(u: nat) {
    0xDC00 <= u <= 0xDFFF
  }

  /** The last position parse_utf16 looks at, for a `u` at position i. */
  function EscapeReach(t: string, i: nat): (far: nat)
    requires i < |t|
    ensures i < far <= |t|
  {
    match Hex4(t, i + 1)
    case None => HexReach(t, i + 1)
    case Some(u) =>
      if !IsLead(u) then i + 4
      else if At(t, i + 5) != '\\' then i + 5
      else if At(t, i + 6) != 'u' then i + 6
      else HexReach(t, i + 7)
  }

  /** The byte writes of parse_utf16; the cursor is left on the last byte written. */
  method EmitUtf8(cp: nat, output: array<char>, o: nat) returns (o': nat)
    requires cp <= 0x10FFFF && o + |Utf8Bytes(cp)| <= output.Length
    modifies output
    ensures o' == o + |Utf8Bytes(cp)| - 1
    ensures output[..o' + 1] == old(output[..o]) + Utf8Bytes(cp)
  {
    o' := o;
    if cp < 0x80 {
      output[o'] := cp as char;
    } else if cp < 0x800 {
      output[o'] := (cp / 0x40 % 0x20 + 0xC0) as char;
      output[o' + 1] := Cont(cp);
      o' := o' + 1;
    } else if cp < 0x10000 {
      output[o'] := (cp / 0x1000 % 0x10 + 0xE0) as char;
      output[o' + 1] := Cont(cp / 0x40);
      output[o' + 2] := Cont(cp);
      o' := o' + 2;
    } else {
      output[o'] := (cp / 0x40000 % 0x8 + 0xF0) as char;
      output[o' + 1] := Cont(cp / 0x1000);
      output[o' + 2] := Cont(cp / 0x40);
      output[o' + 3] := Cont(cp);
      o' := o' + 3;
    }
  }

  /** parse_utf16: both cursors are left on the last byte read and the last byte written. */
  method ParseUtf16(t: string, i: nat, output: array<char>, o: nat) returns (ok: bool, i': nat, o': nat, ghost far: nat)
    requires i < |t| && o <= output.Length
    requires EscapedCodePoint(t, i).Some? ==> o + |Utf8Bytes(EscapedCodePoint(t, i).value.0)| <= output.Length
    modifies output
    ensures ok <==> EscapedCodePoint(t, i).Some?
    ensures ok ==>
              var (cp, next) := EscapedCodePoint(t, i).value;
              i' == next - 1 && o' == o + |Utf8Bytes(cp)| - 1 &&
              output[..o' + 1] == old(output[..o]) + Utf8Bytes(cp)
    ensures !ok ==> output[..] == old(output[..])
    ensures far == EscapeReach(t, i)
  {
    i', o' := i + 1, o;
    var parsed;
    parsed, far := ReadHex4(t, i');
    if parsed == None {
      return false, i', o', far;
    }
    var cp := parsed.value;
    if 0xD800 <= cp <= 0xDBFF {
      i' := i' + 4;
      far := i';
      if At(t, i') != '\\' {
        return false, i', o', far;
      }
      far := i' + 1;
      if At(t, i' + 1) != 'u' {
        return false, i', o', far;
      }
      i' := i' + 2;
      parsed, far := ReadHex4(t, i');
      if parsed == None || parsed.value < 0xDC00 || parsed.value > 0xDFFF {
        return false, i', o', far;
      }
      cp := PairCodePoint(cp, parsed.value);
    } else if 0xDC00 <= cp <= 0xDFFF {
      return false, i', o', far;
    }
    o' := EmitUtf8(cp, output, o);
    i' := i' + 3;
    return true, i', o', far;
  }

  // ---------------------------------------------------------------------------------------------
  // Unescaping (process_string)

  /** What one step of process_string emits at position i, and where the next step starts. */
  function Step(t: string, i: nat): (r: Option<(string, nat)>)
    requires i < |t|
    ensures r.Some? ==> i < r.value.1 <= |t| && |r.value.0| <= r.value.1 - i
  {
    if t[i] == '\\' then
      var c := At(t, i + 1);
      if c == '"' || c == '\\' || c == '/' then Some(([c], i + 2))
      else if c == 'b' then Some(([8 as char], i + 2))
      else if c == 'f' then Some(([12 as char], i + 2))
      else if c == 'n' then Some((['\n'], i + 2))
      else if c == 'r' then Some((['\r'], i + 2))
      else if c == 't' then Some((['\t'], i + 2))
      else if c == 'u' then
        match EscapedCodePoint(t, i + 1)
        case None => None
        case Some((cp, next)) => Some((Utf8Bytes(cp), next))
      else None
    else if t[i] < 0x20 as char then None
    else Some(([t[i]], i + 1))
  }

  /** Bytes emitted earlier, put in front of the result of the rest of the scan. */
  function Prepend(out: string, r: Option<(string, nat)>): Option<(string, nat)> {
    match r
    case None => None
    case Some((rest, stop)) => Some((out + rest, stop))
  }

  lemma PrependPrepend(a: string, b: string, r: Option<(string, nat)>)
    ensures Prepend(a, Prepend(b, r)) == Prepend(a + b, r)
    ensures Prepend("", r) == r
  {
    if r.Some? {
      assert a + (b + r.value.0) == a + b + r.value.0 && "" + r.value.0 == r.value.0;
    }
  }

  /** The bytes emitted from position i on, and where the scan stops. */
  function Process(t: string, i: nat, end: nat): (r: Option<(string, nat)>)
    requires i <= |t|
    decreases |t| - i
  {
    if At(t, i) == NUL || i >= end then Some(("", i))
    else
      match Step(t, i)
      case None => None
      case Some((out, next)) =>
        Prepend(out, Process(t, next, end))
  }

  /** One step taken inside a quoted body stays inside it and keeps sight of the same closing quote. */
  lemma StepStaysInside(t: string, i: nat)
    requires i < |t| && t[i] != '"' && QuoteEnd(t, i).Some? && Step(t, i).Some?
    ensures QuoteEnd(t, Step(t, i).value.1) == QuoteEnd(t, i)
  {
    if t[i] == '\\' && At(t, i + 1) == 'u' {
      var next := Step(t, i).value.1;
      assert QuoteEnd(t, i) == QuoteEnd(t, i + 2);
      HexIsPlain(t, i + 2);
      if next == i + 12 {
        assert QuoteEnd(t, i + 6) == QuoteEnd(t, i + 8);
        HexIsPlain(t, i + 8);
      }
    }
  }

  lemma HexIsPlain(t: string, i: nat)
    requires i <= |t| && Hex4(t, i).Some?
    ensures QuoteEnd(t, i) == QuoteEnd(t, i + 4)
  {
    forall k | i <= k < i + 4 ensures QuoteEnd(t, k) == QuoteEnd(t, k + 1) {
      assert HexValue(t[k]) >= 0;
    }
    assert QuoteEnd(t, i) == QuoteEnd(t, i + 1) == QuoteEnd(t, i + 2);
    assert QuoteEnd(t, i + 2) == QuoteEnd(t, i + 3) == QuoteEnd(t, i + 4);
  }

  /** On a quoted body, process_string stops exactly at the closing quote and emits no more than it reads. */
  lemma {:induction false} ProcessStopsAtQuote(t: string, i: nat)
    requires i <= |t| && QuoteEnd(t, i).Some?
    ensures var end := QuoteEnd(t, i).value;
            Process(t, i, end).Some? ==>
              Process(t, i, end).value.1 == end && |Process(t, i, end).value.0| <= end - i
    decreases |t| - i
  {
    var end := QuoteEnd(t, i).value;
    if i < end && At(t, i) != NUL && Step(t, i).Some? {
      StepStaysInside(t, i);
      ProcessStopsAtQuote(t, Step(t, i).value.1);
    }
  }

  /** The last position one step looks at. */
  function Reach(t: string, i: nat): (far: nat)
    requires i < |t|
    ensures i <= far <= |t|
  {
    if t[i] != '\\' then i
    else if At(t, i + 1) != 'u' then i + 1
    else EscapeReach(t, i + 1)
  }

  /**
   * The closing quote q cuts a `u` escape at i short: it stands among the hexadecimal digits, or where the second escape
   * of a surrogate pair ought to start, or among its digits.
   */
  predicate CutShort(t: string, i: nat, q: nat)
    requires i < |t|
  {
    t[i] == '\\' && At(t, i + 1) == 'u' &&
    (q < i + 6 ||
     (Hex4(t, i + 2).Some? && IsLead(Hex4(t, i + 2).value) &&
      (q == i + 6 || (At(t, i + 6) == '\\' && At(t, i + 7) == 'u' && q < i + 12))))
  }

  lemma HexReachAndQuote(t: string, i: nat, q: nat)
    requires i <= |t| && QuoteEnd(t, i) == Some(q)
    ensures if q < i + 4 then HexReach(t, i) >= q && Hex4(t, i).None? else HexReach(t, i) < q
    ensures q < i + 3 ==> HexReach(t, i) > q
  {
    NoNulBefore(t, i, q);
    if Hex4(t, i).Some? {
      HexIsPlain(t, i);
    }
  }

  /** There is no NUL before the closing quote. */
  lemma {:induction false} NoNulBefore(t: string, i: nat, q: nat)
    requires i <= |t| && QuoteEnd(t, i) == Some(q)
    ensures forall k | i <= k <= q :: t[k] != NUL
    decreases q - i
  {
    if i < q {
      if t[i] == '\\' {
        NoNulBefore(t, i + 2, q);
      } else {
        NoNulBefore(t, i + 1, q);
      }
    }
  }

  lemma AfterHex(t: string, i: nat, q: nat)
    requires i <= |t| && QuoteEnd(t, i) == Some(q) && Hex4(t, i).Some?
    ensures QuoteEnd(t, i + 4) == Some(q) && i + 4 <= q
  {
    HexIsPlain(t, i);
  }

  /**
   * A step inside a quoted body looks at the closing quote, or behind it, exactly when that quote cuts a `u` escape
   * short, and then it fails; so every step that succeeds looks at bytes in front of the quote only.
   */
  lemma StepLooksAhead(t: string, i: nat, q: nat)
    requires i < |t| && t[i] != '"' && QuoteEnd(t, i) == Some(q)
    ensures q <= Reach(t, i) <==> CutShort(t, i, q)
    ensures CutShort(t, i, q) ==> Step(t, i).None?
  {
    if t[i] == '\\' && At(t, i + 1) == 'u' {
      assert QuoteEnd(t, i + 2) == Some(q);
      HexReachAndQuote(t, i + 2, q);
      if Hex4(t, i + 2).Some? && IsLead(Hex4(t, i + 2).value) {
        AfterHex(t, i + 2, q);
        if At(t, i + 6) == '\\' && At(t, i + 7) == 'u' {
          assert QuoteEnd(t, i + 8) == Some(q);
          HexReachAndQuote(t, i + 8, q);
        }
      }
    }
  }

  /** In such an escape two digits are followed by the quote, and the byte behind the quote is looked at. */
  lemma LooksPastQuote()
    ensures var t := "\\u12\"x"; QuoteEnd(t, 0) == Some(4) && Step(t, 0).None? && Reach(t, 0) == 5
  {
    var t := "\\u12\"x";
    assert t[2] == '1' && t[3] == '2' && t[4] == '"' && t[5] == 'x';
    assert QuoteEnd(t, 4) == Some(4);
    assert QuoteEnd(t, 3) == QuoteEnd(t, 4);
    assert QuoteEnd(t, 2) == QuoteEnd(t, 3);
    assert QuoteEnd(t, 0) == QuoteEnd(t, 2);
    assert HexValue('"') == -1;
  }

  /** Where the loop of process_string stops: at the end of the body, or at the step that fails. */
  function StopsAt(t: string, i: nat, end: nat): (stop: nat)
    requires i <= |t|
    ensures i <= stop <= |t|
    decreases |t| - i
  {
    if At(t, i) == NUL || i >= end || Step(t, i).None? then i else StopsAt(t, Step(t, i).value.1, end)
  }

  /** The last position the loop looks at. */
  function LastLook(t: string, i: nat, end: nat): (far: nat)
    requires i <= |t|
    ensures i <= far <= |t|
    decreases |t| - i
  {
    if At(t, i) == NUL || i >= end then i
    else if Step(t, i).None? then Reach(t, i)
    else Max(Reach(t, i), LastLook(t, Step(t, i).value.1, end))
  }

  /**
   * On a quoted body process_string looks no further than the closing quote, unless it fails at a `u` escape that the
   * quote cuts short; when it succeeds the quote is the last byte it looks at.
   */
  lemma {:induction false} ProcessLooks(t: string, i: nat, q: nat)
    requires i <= |t| && QuoteEnd(t, i) == Some(q)
    ensures Process(t, i, q).Some? ==> LastLook(t, i, q) == q
    ensures Process(t, i, q).None? ==>
              StopsAt(t, i, q) < q && (q <= LastLook(t, i, q) <==> CutShort(t, StopsAt(t, i, q), q))
    decreases |t| - i
  {
    NoNulBefore(t, i, q);
    if i < q {
      StepLooksAhead(t, i, q);
      if Step(t, i).Some? {
        StepStaysInside(t, i);
        ProcessLooks(t, Step(t, i).value.1, q);
      }
    }
  }

  /** The loop body of process_string: reads one unit of the input and writes what it stands for. */
  method ProcessStep(t: string, i: nat, output: array<char>, o: nat) returns (ok: bool, i': nat, o': nat, ghost far: nat)
    requires i < |t| && o < output.Length
    requires Step(t, i).Some? ==> o + |Step(t, i).value.0| <= output.Length
    modifies output
    ensures ok <==> Step(t, i).Some?
    ensures ok ==> i' == Step(t, i).value.1 && o' == o + |Step(t, i).value.0|
    ensures ok ==> output[..o'] == old(output[..o]) + Step(t, i).value.0
    ensures far == Reach(t, i)
  {
    i', o', far := i, o, i;
    if t[i'] == '\\' {
      i' := i' + 1;
      far := i';
      var c := At(t, i');
      if c == '"' || c == '\\' || c == '/' {
        output[o'] := c;
      } else if c == 'b' {
        output[o'] := 8 as char;
      } else if c == 'f' {
        output[o'] := 12 as char;
      } else if c == 'n' {
        output[o'] := '\n';
      } else if c == 'r' {
        output[o'] := '\r';
      } else if c == 't' {
        output[o'] := '\t';
      } else if c == 'u' {
        var parsed;
        parsed, i', o', far := ParseUtf16(t, i', output, o');
        if !parsed {
          return false, i', o', far;
        }
      } else {
        return false, i', o', far;
      }
    } else if t[i'] < 0x20 as char {
      return false, i', o', far;
    } else {
      output[o'] := t[i'];
    }
    return true, i' + 1, o' + 1, far;
  }

  /** process_string, on the body that skip_quotes has delimited. */
  method ProcessString(t: string, start: nat, len: nat) returns (r: Option<string>, ghost far: nat)
    requires start <= |t| && QuoteEnd(t, start) == Some(start + len)
    ensures r.Some? <==> Process(t, start, start + len).Some?
    ensures r.Some? ==> r.value == Process(t, start, start + len).value.0
    ensures far == LastLook(t, start, start + len)
  {
    var output := new char[len + 1];
    var i, o := start, 0;
    far := start;
    ghost var whole := Process(t, start, start + len);
    assert output[..o] == "";
    PrependPrepend("", "", whole);
    while At(t, i) != NUL && i - start < len
      invariant start <= i <= start + len && 0 <= o <= i - start
      invariant QuoteEnd(t, i) == Some(start + len)
      invariant whole == Prepend(output[..o], Process(t, i, start + len))
      invariant far <= |t| && LastLook(t, start, start + len) == Max(far, LastLook(t, i, start + len))
      decreases |t| - i
    {
      ghost var before, step := output[..o], Step(t, i);
      if step.Some? {
        StepStaysInside(t, i);
        PrependPrepend(before, step.value.0, Process(t, step.value.1, start + len));
      }
      var ok;
      ghost var reach: nat;
      ok, i, o, reach := ProcessStep(t, i, output, o);
      far := Max(far, reach);
      if !ok {
        return None, far;
      }
    }
    assert Process(t, i, start + len) == Some(("", i));
    far := Max(far, i);
    output[o] := NUL;
    return Some(output[..o]), far;
  }

  /** get_quoted_string: what stands between the quotes at start, unescaped, and where the cursor is left. */
  function QuotedString(t: string, start: nat): (r: Option<(string, nat)>)
    requires start <= |t|
    ensures r.Some? ==> start < r.value.1 <= |t|
  {
    if At(t, start) != '"' || QuoteEnd(t, start + 1).None? then None
    else
      var end := QuoteEnd(t, start + 1).value;
      match Process(t, start + 1, end)
      case None => None
      case Some((out, _)) => Some((out, end + 1))
  }

  method GetQuotedString(t: string, start: nat) returns (r: Option<string>, pos: nat)
    requires start <= |t|
    ensures pos <= |t|
    ensures match QuotedString(t, start)
            case None => r == None
            case Some((out, end)) => r == Some(out) && pos == end
  {
    var ok;
    ok, pos := SkipQuotes(t, start);
    if !ok {
      return None, pos;
    }
    ghost var far: nat;
    r, far := ProcessString(t, start + 1, pos - start - 2);
  }

  // ---------------------------------------------------------------------------------------------
  // Unescaping undoes escaping

  /** One step over the escape of a byte gives the byte back and is skipped by the quote search. */
  lemma StepUndoesEscapeChar(t: string, i: nat, c: char, slashes: bool)
    requires HasAt(t, i, EscapeChar(c, slashes))
    ensures Step(t, i) == Some(([c], i + |EscapeChar(c, slashes)|))
    ensures At(t, i) != NUL && t[i] != '"'
    ensures QuoteEnd(t, i) == QuoteEnd(t, i + |EscapeChar(c, slashes)|)
  {
    var e := EscapeChar(c, slashes);
    assert At(t, i) == e[0] && (|e| > 1 ==> At(t, i + 1) == e[1]);
    if |e| == 6 {
      assert e == ['\\', 'u', '0', '0', e[4], e[5]];
      assert t[i + 1] == e[1] && t[i + 2] == e[2] && t[i + 3] == e[3] && t[i + 4] == e[4] && t[i + 5] == e[5];
      assert HexValue(e[4]) == c as int / 16 && HexValue(e[5]) == c as int % 16;
      assert Hex4(t, i + 2) == Some(c as int);
      assert QuoteEnd(t, i) == QuoteEnd(t, i + 2);
      HexIsPlain(t, i + 2);
    }
  }

  lemma ProcessEmpty(t: string, i: nat)
    requires i < |t| && t[i] == '"'
    ensures QuoteEnd(t, i) == Some(i) && Process(t, i, i) == Some(("", i))
  {
  }

  lemma {:induction false} ProcessUndoesEscape(t: string, i: nat, end: nat, s: string, slashes: bool)
    requires HasAt(t, i, EscapeBody(s, slashes) + "\"") && end == i + |EscapeBody(s, slashes)|
    ensures QuoteEnd(t, i) == Some(end) && Process(t, i, end) == Some((s, end))
    decreases |s|
  {
    if s == "" {
      FirstByte(t, i, "" + "\"");
      ProcessEmpty(t, i);
    } else {
      var next := StepUndoesEscapeBody(t, i, end, s, slashes);
      ProcessUndoesEscape(t, next, end, s[1..], slashes);
      ProcessPrepends(t, i, next, end, s);
    }
  }

  lemma ProcessPrepends(t: string, i: nat, next: nat, end: nat, s: string)
    requires i < next <= end <= |t| && t[i] != NUL && s != "" && Step(t, i) == Some(([s[0]], next))
    requires Process(t, next, end) == Some((s[1..], end))
    ensures Process(t, i, end) == Some((s, end))
  {
    assert [s[0]] + s[1..] == s;
  }

  /** The first step over an escaped text gives its first byte and leads to the escape of the rest. */
  lemma StepUndoesEscapeBody(t: string, i: nat, end: nat, s: string, slashes: bool) returns (next: nat)
    requires s != "" && HasAt(t, i, EscapeBody(s, slashes) + "\"") && end == i + |EscapeBody(s, slashes)|
    ensures i < next <= |t| && t[i] != NUL && Step(t, i) == Some(([s[0]], next))
    ensures QuoteEnd(t, i) == QuoteEnd(t, next)
    ensures HasAt(t, next, EscapeBody(s[1..], slashes) + "\"")
    ensures end == next + |EscapeBody(s[1..], slashes)| && next <= end <= |t|
  {
    var first, rest := EscapeChar(s[0], slashes), EscapeBody(s[1..], slashes);
    assert first + rest + "\"" == first + (rest + "\"");
    HasAtConcat(t, i, first, rest + "\"");
    StepUndoesEscapeChar(t, i, s[0], slashes);
    next := i + |first|;
  }

  lemma QuotedBody(t: string, i: nat, end: nat, s: string)
    requires i < |t| && t[i] == '"' && QuoteEnd(t, i + 1) == Some(end) && Process(t, i + 1, end) == Some((s, end))
    ensures QuotedString(t, i) == Some((s, end + 1))
  {
  }

  lemma QuotePieces(t: string, i: nat, body: string, all: string)
    requires all == "\"" + body + "\"" && HasAt(t, i, all)
    ensures i < |t| && t[i] == '"' && HasAt(t, i + 1, body + "\"") && |all| == |body| + 2
  {
    assert all == "\"" + (body + "\"");
    HasAtConcat(t, i, "\"", body + "\"");
    FirstByte(t, i, "\"");
  }

  /** Reading back what json_serialize_string wrote gives the same bytes, embedded NULs included. */
  lemma QuotedStringUndoesQuote(t: string, i: nat, s: string, slashes: bool)
    requires HasAt(t, i, Quote(s, slashes))
    ensures QuotedString(t, i) == Some((s, i + |Quote(s, slashes)|))
    ensures At(t, i) == '"'
  {
    var end := i + 1 + |EscapeBody(s, slashes)|;
    QuotePieces(t, i, EscapeBody(s, slashes), Quote(s, slashes));
    ProcessUndoesEscape(t, i + 1, end, s, slashes);
    QuotedBody(t, i, end, s);
  }

  // ---------------------------------------------------------------------------------------------
  // UTF-8 (num_bytes_in_utf8_sequence, verify_utf8_sequence, is_valid_utf8)

  predicate IsCont(c: char) {
    0x80 as char <= c < 0xC0 as char
  }

  function SequenceLength(c: char): nat {
    if c == 0xC0 as char || c == 0xC1 as char || c > 0xF4 as char || IsCont(c) then 0
    else if c < 0x80 as char then 1
    else if c < 0xE0 as char then 2
    else if c < 0xF0 as char then 3
    else 4
  }

  /** verify_utf8_sequence at the front of s: the code point and its length, or None where it returns 0. */
  function Utf8Head(s: string): (r: Option<(nat, nat)>)
    requires s != ""
    ensures r.Some? ==> 1 <= r.value.1 <= |s| && r.value.0 <= 0x10FFFF
  {
    var n := SequenceLength(s[0]);
    var b := s[0] as int;
    var cp: int :=
      if n == 1 then b
      else if n == 2 && IsCont(At(s, 1)) then b % 0x20 * 0x40 + s[1] as int % 0x40
      else if n == 3 && IsCont(At(s, 1)) && IsCont(At(s, 2)) then
        b % 0x10 * 0x1000 + s[1] as int % 0x40 * 0x40 + s[2] as int % 0x40
      else if n == 4 && IsCont(At(s, 1)) && IsCont(At(s, 2)) && IsCont(At(s, 3)) then
        b % 8 * 0x40000 + s[1] as int % 0x40 * 0x1000 + s[2] as int % 0x40 * 0x40 + s[3] as int % 0x40
      else -1;
    if cp < 0 then None
    else if (cp < 0x80 && n > 1) || (cp < 0x800 && n > 2) || (cp < 0x10000 && n > 3) then None
    else if cp > 0x10FFFF || 0xD800 <= cp <= 0xDFFF then None
    else Some((cp, n))
  }

  /** The code points of a UTF-8 text; None where is_valid_utf8 says no. */
  function Decode(s: string): Option<seq<nat>> {
    if s == "" then Some([])
    else
      match Utf8Head(s)
      case None => None
      case Some((cp, n)) =>
        match Decode(s[n..])
        case None => None
        case Some(rest) => Some([cp] + rest)
  }

  method IsValidUtf8(s: string) returns (valid: bool)
    ensures valid <==> Decode(s).Some?
  {
    var i := 0;
    while i < |s|
      invariant 0 <= i <= |s|
      invariant Decode(s).Some? <==> Decode(s[i..]).Some?
    {
      var head := Utf8Head(s[i..]);
      if head == None {
        return false;
      }
      assert s[i..][head.value.1..] == s[i + head.value.1..];
      i := i + head.value.1;
    }
    return true;
  }

  /** The bytes parse_utf16 writes pass verify_utf8_sequence and decode to the same code point, whatever follows. */
  lemma Utf8BytesDecode(cp: nat, tail: string)
    requires cp <= 0x10FFFF && !(0xD800 <= cp <= 0xDFFF)
    ensures Utf8Head(Utf8Bytes(cp) + tail) == Some((cp, |Utf8Bytes(cp)|))
  {
    var b := Utf8Bytes(cp);
    var s := b + tail;
    assert forall k | 0 <= k < |b| :: At(s, k) == b[k];
    if cp < 0x80 {
    } else if cp < 0x800 {
      Digits2(cp);
      assert SequenceLength(s[0]) == 2;
    } else if cp < 0x10000 {
      Digits3(cp);
      assert SequenceLength(s[0]) == 3;
    } else {
      Digits4(cp);
      assert SequenceLength(s[0]) == 4;
    }
  }

  lemma Digits2(cp: nat)
    requires 0x80 <= cp < 0x800
    ensures var b := Utf8Bytes(cp);
            |b| == 2 && 0xC2 as char <= b[0] < 0xE0 as char && IsCont(b[1]) &&
            cp == b[0] as int % 0x20 * 0x40 + b[1] as int % 0x40
  {
  }

  /** A number in groups of six bits. */
  lemma SixBits(cp: nat)
    ensures cp == cp / 0x40 * 0x40 + cp % 0x40 && cp / 0x40 / 0x40 == cp / 0x1000 && cp / 0x1000 / 0x40 == cp / 0x40000
  {
  }

  lemma Digits3(cp: nat)
    requires 0x800 <= cp < 0x10000
    ensures var b := Utf8Bytes(cp);
            |b| == 3 && 0xE0 as char <= b[0] < 0xF0 as char && IsCont(b[1]) && IsCont(b[2]) &&
            cp == b[0] as int % 0x10 * 0x1000 + b[1] as int % 0x40 * 0x40 + b[2] as int % 0x40
  {
    SixBits(cp);
    SixBits(cp / 0x40);
    ContLowBits(cp / 0x40);
    ContLowBits(cp);
    assert 0 <= cp / 0x1000 < 0x10;
  }

  lemma Digits4(cp: nat)
    requires 0x10000 <= cp <= 0x10FFFF
    ensures var b := Utf8Bytes(cp);
            |b| == 4 && 0xF0 as char <= b[0] <= 0xF4 as char && IsCont(b[1]) && IsCont(b[2]) && IsCont(b[3]) &&
            cp == b[0] as int % 8 * 0x40000 + b[1] as int % 0x40 * 0x1000 + b[2] as int % 0x40 * 0x40 + b[3] as int % 0x40
  {
    SixBits(cp);
    SixBits(cp / 0x40);
    SixBits(cp / 0x1000);
    ContLowBits(cp / 0x1000);
    ContLowBits(cp / 0x40);
    ContLowBits(cp);
    assert 0 <= cp / 0x40000 <= 4;
  }

  lemma ContLowBits(x: nat)
    ensures IsCont(Cont(x)) && Cont(x) as int % 0x40 == x % 0x40
  {
  }

  // ---------------------------------------------------------------------------------------------
  // process_string maps valid UTF-8 to valid UTF-8

  /** verify_utf8_sequence looks at no byte behind the sequence it accepts. */
  lemma Utf8HeadIsLocal(s: string, tail: string)
    requires s != "" && Utf8Head(s).Some?
    ensures Utf8Head(s[..Utf8Head(s).value.1] + tail) == Utf8Head(s)
    ensures forall k | 1 <= k < Utf8Head(s).value.1 :: IsCont(s[k])
    ensures s[0] < 0x80 as char ==> Utf8Head(s).value.1 == 1
  {
    var n := Utf8Head(s).value.1;
    var s' := s[..n] + tail;
    assert forall k | 0 <= k < n :: At(s', k) == s[k];
  }

  lemma {:induction false} DecodeAfterAscii(s: string, k: nat)
    requires k <= |s| && Decode(s).Some?
    requires forall j | 0 <= j < k :: s[j] < 0x80 as char
    ensures Decode(s[k..]).Some?
  {
    if k == 0 {
      assert s[0..] == s;
    } else {
      DecodeAfterAscii(s[1..], k - 1);
      assert s[1..][k - 1..] == s[k..];
    }
  }

  lemma DecodeAfterHead(b: string, cp: nat, tail: string)
    requires b != "" && Utf8Head(b + tail) == Some((cp, |b|)) && Decode(tail).Some?
    ensures Decode(b + tail) == Some([cp] + Decode(tail).value)
  {
    assert (b + tail)[|b|..] == tail;
  }

  /** Bytes that are neither quotes, backslashes nor control characters are copied. */
  lemma {:induction false} ProcessCopiesRaw(t: string, i: nat, k: nat, end: nat)
    requires i + k <= end <= |t|
    requires forall j | i <= j < i + k :: t[j] >= 0x20 as char && t[j] != '\\' && t[j] != '"'
    ensures Process(t, i, end) == Prepend(t[i..i + k], Process(t, i + k, end))
    ensures QuoteEnd(t, i) == QuoteEnd(t, i + k)
    decreases k
  {
    PrependPrepend("", "", Process(t, i, end));
    if k > 0 {
      ProcessCopiesRaw(t, i + 1, k - 1, end);
      PrependPrepend([t[i]], t[i + 1..i + k], Process(t, i + k, end));
      assert [t[i]] + t[i + 1..i + k] == t[i..i + k];
      assert Step(t, i) == Some(([t[i]], i + 1)) && At(t, i) != NUL;
      assert Process(t, i, end) == Prepend([t[i]], Process(t, i + 1, end));
    } else {
      assert t[i..i + k] == "";
    }
  }

  lemma HexIsAscii(t: string, i: nat)
    requires i <= |t| && Hex4(t, i).Some?
    ensures forall j | i <= j < i + 4 :: t[j] < 0x80 as char
  {
    assert forall j | i <= j < i + 4 :: HexValue(t[j]) >= 0;
  }

  /** An escape is written in ASCII. */
  lemma EscapeIsAscii(t: string, i: nat)
    requires i < |t| && t[i] == '\\' && Step(t, i).Some?
    ensures forall j | i <= j < Step(t, i).value.1 :: t[j] < 0x80 as char
  {
    if t[i + 1] == 'u' {
      HexIsAscii(t, i + 2);
      if Step(t, i).value.1 == i + 12 {
        HexIsAscii(t, i + 8);
      }
    }
  }

  /** What an escape emits is the UTF-8 form of one code point. */
  lemma EscapeStep(t: string, i: nat, tail: string) returns (cp: nat)
    requires i < |t| && t[i] == '\\' && Step(t, i).Some?
    ensures Step(t, i).value.0 != "" && Utf8Head(Step(t, i).value.0 + tail) == Some((cp, |Step(t, i).value.0|))
  {
    var (out, next) := Step(t, i).value;
    if t[i + 1] == 'u' {
      cp := EscapedCodePoint(t, i + 1).value.0;
      Utf8BytesDecode(cp, tail);
    } else {
      cp := out[0] as int;
    }
  }

  /** Unescaping a quoted body that is valid UTF-8 gives valid UTF-8, whatever the length. */
  lemma {:induction false} ProcessKeepsUtf8(t: string, i: nat, end: nat)
    requires i <= |t| && QuoteEnd(t, i) == Some(end)
    requires Decode(t[i..end]).Some? && Process(t, i, end).Some?
    ensures Decode(Process(t, i, end).value.0).Some?
    decreases |t| - i
  {
    if At(t, i) != NUL && i < end {
      if t[i] == '\\' {
        StepStaysInside(t, i);
        var next := Step(t, i).value.1;
        AfterEscape(t, i, end);
        ProcessKeepsUtf8(t, next, end);
      } else {
        var n := Utf8Head(t[i..end]).value.1;
        AfterRaw(t, i, end);
        ProcessKeepsUtf8(t, i + n, end);
      }
    }
  }

  lemma AfterEscape(t: string, i: nat, end: nat)
    requires i < end <= |t| && t[i] == '\\' && QuoteEnd(t, i) == Some(end)
    requires Decode(t[i..end]).Some? && Process(t, i, end).Some?
    ensures var next := Step(t, i).value.1;
            next <= end && Decode(t[next..end]).Some? && Process(t, next, end).Some? &&
            (Decode(Process(t, next, end).value.0).Some? ==> Decode(Process(t, i, end).value.0).Some?)
  {
    StepStaysInside(t, i);
    var (out, next) := Step(t, i).value;
    var tail := Process(t, next, end).value.0;
    var cp := EscapeStep(t, i, tail);
    EscapeIsAscii(t, i);
    DecodeAfterAscii(t[i..end], next - i);
    assert t[i..end][next - i..] == t[next..end];
    if Decode(tail).Some? {
      DecodeAfterHead(out, cp, tail);
    }
  }

  /** The bytes of the first sequence are copied, and what follows them decodes. */
  lemma RawHead(t: string, i: nat, end: nat, n: nat)
    requires i < end <= |t| && t[i] != '\\' && QuoteEnd(t, i) == Some(end) && Process(t, i, end).Some?
    requires Decode(t[i..end]).Some? && n == Utf8Head(t[i..end]).value.1
    ensures i + n <= end && Decode(t[i + n..end]).Some?
    ensures forall j | i <= j < i + n :: t[j] >= 0x20 as char && t[j] != '\\' && t[j] != '"'
  {
    var s := t[i..end];
    Utf8HeadIsLocal(s, "");
    forall j | i <= j < i + n ensures t[j] >= 0x20 as char && t[j] != '\\' && t[j] != '"' {
      assert t[j] == s[j - i];
    }
    assert s[n..] == t[i + n..end];
  }

  lemma AfterRaw(t: string, i: nat, end: nat)
    requires i < end <= |t| && t[i] != '\\' && QuoteEnd(t, i) == Some(end)
    requires Decode(t[i..end]).Some? && Process(t, i, end).Some?
    ensures var n := Utf8Head(t[i..end]).value.1;
            i + n <= end && QuoteEnd(t, i + n) == Some(end) &&
            Decode(t[i + n..end]).Some? && Process(t, i + n, end).Some? &&
            (Decode(Process(t, i + n, end).value.0).Some? ==> Decode(Process(t, i, end).value.0).Some?)
  {
    var s := t[i..end];
    var (cp, n) := Utf8Head(s).value;
    RawHead(t, i, end, n);
    ProcessCopiesRaw(t, i, n, end);
    HeadThenTail(s, cp, n, Process(t, i + n, end).value.0);
    assert s[..n] == t[i..i + n];
  }

  /** A sequence in front of a text that decodes. */
  lemma HeadThenTail(s: string, cp: nat, n: nat, tail: string)
    requires s != "" && Utf8Head(s) == Some((cp, n))
    ensures Decode(tail).Some? ==> Decode(s[..n] + tail).Some?
  {
    Utf8HeadIsLocal(s, tail);
    if Decode(tail).Some? {
      DecodeAfterHead(s[..n], cp, tail);
    }
  }
}
