/** The two passes of the serialiser over one buffer: the dry run that measures and the run that writes (parson.c). */
module JsonBuffer {
  import opened CText
  import opened Common
  import opened JsonString
  import opened JsonValue
  import opened JsonPrint

  const NUM_BUF_SIZE := 64

  /** From before to after, s was written at the front, and at most one byte behind it changed. */
  ghost predicate Filled(before: string, after: string, s: string) {
    |after| == |before| && |s| < |after| && HasAt(after, 0, s) &&
    forall k | |s| < k < |after| :: after[k] == before[k]
  }

  lemma FilledThen(before: string, mid: string, after: string, s: string, u: string)
    requires Filled(before, mid, s) && |s| + |u| < |mid| == |after| && HasAt(after, |s|, u)
    requires forall k | 0 <= k < |mid| && !(|s| <= k <= |s| + |u|) :: after[k] == mid[k]
    ensures Filled(before, after, s + u)
  {
    HasAtConcat(after, 0, s, u);
  }

  /**
   * The cursor of the serialiser: the buf pointer and the written_total that its APPEND macros advance together. A null
   * buf makes a dry run, for which numBuf receives the number texts.
   */
  class Writer {
    const buf: array?<char>
    const numBuf: array?<char>
    var written: nat
    ghost var text: string
    ghost const start: string

    ghost predicate Valid()
      reads this, buf, numBuf
    {
      written == |text| &&
      if buf == null then numBuf != null && numBuf.Length == NUM_BUF_SIZE
      else numBuf == null && Filled(start, buf[..], text)
    }

    /** There is room for s and a terminating NUL behind what has been written. */
    ghost predicate Fits(s: string)
      reads this
    {
      buf != null ==> |text| + |s| < buf.Length
    }

    /** What stands behind the text is its terminating NUL. */
    ghost predicate Ended()
      reads this, buf
    {
      buf != null ==> written < buf.Length && buf[written] == NUL
    }

    /** The first pass: no buffer, a scratch buffer for numbers. */
    constructor Measure()
      ensures Valid() && text == "" && buf == null && fresh(numBuf)
    {
      buf, numBuf := null, new char[NUM_BUF_SIZE];
      written, text, start := 0, "", "";
    }

    /** The second pass. */
    constructor Into(target: array<char>)
      requires target.Length > 0
      ensures Valid() && text == "" && buf == target && numBuf == null && start == target[..]
    {
      buf, numBuf := target, null;
      written, text, start := 0, "", target[..];
    }

    /** APPEND_STRING: sprintf writes a terminating NUL behind the text. */
    method Append(s: string)
      requires Valid() && Fits(s)
      modifies this, buf
      ensures Valid() && text == old(text) + s && Ended()
    {
      if buf != null {
        ghost var before := buf[..];
        for k := 0 to |s|
          modifies buf
          invariant forall j | 0 <= j < k :: buf[written + j] == s[j]
          invariant forall j | 0 <= j < buf.Length && !(written <= j < written + k) :: buf[j] == before[j]
        {
          buf[written + k] := s[k];
        }
        buf[written + |s|] := NUL;
        FilledThen(start, before, buf[..], text, s);
      }
      written := written + |s|;
      text := text + s;
    }

    /** The default case of json_serialize_string: one byte, and no NUL behind it. */
    method AppendByte(c: char)
      requires Valid() && Fits([c])
      modifies this, buf
      ensures Valid() && text == old(text) + [c]
    {
      if buf != null {
        ghost var before := buf[..];
        buf[written] := c;
        FilledThen(start, before, buf[..], text, [c]);
      }
      written := written + 1;
      text := text + [c];
    }

    /** The number case of json_serialize_to_buffer_r: a dry run prints into the scratch buffer. */
    method AppendNumber(s: string)
      requires Valid() && Fits(s) && |s| < NUM_BUF_SIZE
      modifies this, buf, numBuf
      ensures Valid() && text == old(text) + s && Ended()
    {
      if buf != null {
        Append(s);
      } else {
        for k := 0 to |s|
          modifies numBuf
        {
          numBuf[k] := s[k];
        }
        numBuf[|s|] := NUL;
        written := written + |s|;
        text := text + s;
      }
    }

    /** append_indent: four blanks a level. */
    method AppendIndent(level: nat)
      requires Valid() && Fits(Spaces(level))
      modifies this, buf
      ensures Valid() && text == old(text) + Spaces(level)
    {
      for i := 0 to level
        invariant Valid() && text == old(text) + Spaces(i)
      {
        SpacesGrow(i);
        SpacesMonotone(i + 1, level);
        assert old(text) + Spaces(i) + "    " == old(text) + Spaces(i + 1);
        Append("    ");
      }
    }
  }

  lemma {:induction false} SpacesGrow(i: nat)
    ensures Spaces(i + 1) == Spaces(i) + "    "
  {
    if i > 0 {
      SpacesGrow(i - 1);
      assert "    " + (Spaces(i - 1) + "    ") == "    " + Spaces(i - 1) + "    ";
    }
  }

  lemma SpacesMonotone(i: nat, j: nat)
    requires i <= j
    ensures |Spaces(i)| <= |Spaces(j)|
  {
  }

  lemma {:induction false} EscapeBodyGrows(s: string, i: nat, slashes: bool)
    requires i < |s|
    ensures EscapeBody(s[..i + 1], slashes) == EscapeBody(s[..i], slashes) + EscapeChar(s[i], slashes)
  {
    if i > 0 {
      EscapeBodyGrows(s[1..], i - 1, slashes);
      assert s[1..][..i] == s[..i + 1][1..] && s[1..][..i - 1] == s[..i][1..];
      var first := EscapeChar(s[0], slashes);
      assert first + (EscapeBody(s[..i][1..], slashes) + EscapeChar(s[i], slashes)) ==
             first + EscapeBody(s[..i][1..], slashes) + EscapeChar(s[i], slashes);
    } else {
      assert s[..1] == [s[0]] && EscapeBody([s[0]], slashes) == EscapeChar(s[0], slashes) + "";
    }
  }

  lemma {:induction false} EscapeBodyMonotone(s: string, i: nat, slashes: bool)
    requires i <= |s|
    ensures |EscapeBody(s[..i], slashes)| <= |EscapeBody(s, slashes)|
    decreases |s| - i
  {
    if i == |s| {
      assert s[..i] == s;
    } else {
      EscapeBodyGrows(s, i, slashes);
      EscapeBodyMonotone(s, i + 1, slashes);
    }
  }

  /** The quoted text of s after i of its bytes. */
  function QuoteSoFar(s: string, i: nat, slashes: bool): string
    requires i <= |s|
  {
    "\"" + EscapeBody(s[..i], slashes)
  }

  lemma QuoteGrows(s: string, i: nat, slashes: bool)
    requires i < |s|
    ensures QuoteSoFar(s, i + 1, slashes) == QuoteSoFar(s, i, slashes) + EscapeChar(s[i], slashes)
    ensures |QuoteSoFar(s, i + 1, slashes)| < |Quote(s, slashes)|
  {
    EscapeBodyGrows(s, i, slashes);
    EscapeBodyMonotone(s, i + 1, slashes);
    var body, e := EscapeBody(s[..i], slashes), EscapeChar(s[i], slashes);
    assert "\"" + (body + e) == "\"" + body + e;
  }

  lemma QuoteComplete(s: string, slashes: bool)
    ensures QuoteSoFar(s, 0, slashes) == "\""
    ensures QuoteSoFar(s, |s|, slashes) + "\"" == Quote(s, slashes)
  {
    assert s[..|s|] == s;
  }

  /** json_serialize_string. */
  method SerializeString(s: string, w: Writer, slashes: bool)
    requires w.Valid() && w.Fits(Quote(s, slashes))
    modifies w, w.buf
    ensures w.Valid() && w.text == old(w.text) + Quote(s, slashes) && w.Ended()
  {
    ghost var before := w.text;
    QuoteComplete(s, slashes);
    w.Append("\"");
    for i := 0 to |s|
      invariant w.Valid() && w.text == before + QuoteSoFar(s, i, slashes)
    {
      QuoteGrows(s, i, slashes);
      Assoc(before, QuoteSoFar(s, i, slashes), EscapeChar(s[i], slashes));
      AppendEscaped(s[i], w, slashes);
    }
    Assoc(before, QuoteSoFar(s, |s|, slashes), "\"");
    w.Append("\"");
  }

  /** The switch of json_serialize_string on one byte. */
  method AppendEscaped(c: char, w: Writer, slashes: bool)
    requires w.Valid() && w.Fits(EscapeChar(c, slashes))
    modifies w, w.buf
    ensures w.Valid() && w.text == old(w.text) + EscapeChar(c, slashes)
  {
    if c == '"' || c == '\\' || c < 0x20 as char || c == '/' {
      w.Append(EscapeChar(c, slashes));
    } else {
      w.AppendByte(c);
    }
  }

  // ---------------------------------------------------------------------------------------------
  // The text of an array or object, piece by piece

  function ItemText(items: seq<Value>, i: nat, level: nat, st: Style, num: Numbers): string
    requires i < |items|
  {
    Indent(level + 1, st) + Print(items[i], level + 1, st, num) + Comma(i + 1 < |items|) + Newline(st)
  }

  function ArraySoFar(items: seq<Value>, i: nat, level: nat, st: Style, num: Numbers): string
    requires i <= |items|
  {
    if i == 0 then "[" + (if items != [] then Newline(st) else "")
    else ArraySoFar(items, i - 1, level, st, num) + ItemText(items, i - 1, level, st, num)
  }

  lemma ItemTextFirst(items: seq<Value>, i: nat, level: nat, st: Style, num: Numbers)
    requires i < |items|
    ensures PrintItems(items[i..], level, st, num) == ItemText(items, i, level, st, num) + PrintItems(items[i + 1..], level, st, num)
  {
    assert items[i..][1..] == items[i + 1..];
  }

  lemma {:induction false} ArraySoFarRest(items: seq<Value>, i: nat, level: nat, st: Style, num: Numbers)
    requires items != [] && i <= |items|
    ensures Print(Array(items), level, st, num) ==
            ArraySoFar(items, i, level, st, num) + PrintItems(items[i..], level, st, num)
  {
    if i == 0 {
      assert items[0..] == items;
    } else {
      ArraySoFarRest(items, i - 1, level, st, num);
      ItemTextFirst(items, i - 1, level, st, num);
      Assoc(ArraySoFar(items, i - 1, level, st, num), ItemText(items, i - 1, level, st, num), PrintItems(items[i..], level, st, num));
    }
  }

  function MemberText(ms: seq<Member>, i: nat, level: nat, st: Style, num: Numbers): string
    requires i < |ms|
  {
    Indent(level + 1, st) + PrintName(ms[i].name, st) + Print(ms[i].value, level + 1, st, num) +
    Comma(i + 1 < |ms|) + Newline(st)
  }

  function ObjectSoFar(ms: seq<Member>, i: nat, level: nat, st: Style, num: Numbers): string
    requires i <= |ms|
  {
    if i == 0 then "{" + (if ms != [] then Newline(st) else "")
    else ObjectSoFar(ms, i - 1, level, st, num) + MemberText(ms, i - 1, level, st, num)
  }

  lemma MemberTextFirst(ms: seq<Member>, i: nat, level: nat, st: Style, num: Numbers)
    requires i < |ms|
    ensures PrintMembers(ms[i..], level, st, num) == MemberText(ms, i, level, st, num) + PrintMembers(ms[i + 1..], level, st, num)
  {
    assert ms[i..][1..] == ms[i + 1..];
  }

  lemma {:induction false} ObjectSoFarRest(ms: seq<Member>, i: nat, level: nat, st: Style, num: Numbers)
    requires ms != [] && i <= |ms|
    ensures Print(Object(ms), level, st, num) ==
            ObjectSoFar(ms, i, level, st, num) + PrintMembers(ms[i..], level, st, num)
  {
    if i == 0 {
      assert ms[0..] == ms;
    } else {
      ObjectSoFarRest(ms, i - 1, level, st, num);
      MemberTextFirst(ms, i - 1, level, st, num);
      Assoc(ObjectSoFar(ms, i - 1, level, st, num), MemberText(ms, i - 1, level, st, num), PrintMembers(ms[i..], level, st, num));
    }
  }

  /** The text of an array is what the loop writes, then the indentation and the closing bracket. */
  lemma ArrayPieces(items: seq<Value>, level: nat, st: Style, num: Numbers)
    ensures Print(Array(items), level, st, num) ==
            ArraySoFar(items, |items|, level, st, num) + ((if items != [] then Indent(level, st) else "") + "]")
    ensures |ArraySoFar(items, 0, level, st, num)| < |Print(Array(items), level, st, num)|
  {
    if items != [] {
      ArraySoFarRest(items, 0, level, st, num);
      ArraySoFarRest(items, |items|, level, st, num);
      assert items[|items|..] == [];
      assert |PrintItems(items[0..], level, st, num)| > 0;
    }
  }

  /** There is room for the next piece. */
  lemma ArrayRoom(items: seq<Value>, i: nat, level: nat, st: Style, num: Numbers)
    requires i < |items|
    ensures ArraySoFar(items, i + 1, level, st, num) == ArraySoFar(items, i, level, st, num) + ItemText(items, i, level, st, num)
    ensures |ArraySoFar(items, i + 1, level, st, num)| < |Print(Array(items), level, st, num)|
  {
    ArraySoFarRest(items, i + 1, level, st, num);
    assert |PrintItems(items[i + 1..], level, st, num)| > 0;
  }

  /** The text of an object is what the loop writes, then the indentation and the closing bracket. */
  lemma ObjectPieces(ms: seq<Member>, level: nat, st: Style, num: Numbers)
    ensures Print(Object(ms), level, st, num) ==
            ObjectSoFar(ms, |ms|, level, st, num) + ((if ms != [] then Indent(level, st) else "") + "}")
    ensures |ObjectSoFar(ms, 0, level, st, num)| < |Print(Object(ms), level, st, num)|
  {
    if ms != [] {
      ObjectSoFarRest(ms, 0, level, st, num);
      ObjectSoFarRest(ms, |ms|, level, st, num);
      assert ms[|ms|..] == [];
      assert |PrintMembers(ms[0..], level, st, num)| > 0;
    }
  }

  /** There is room for the next piece. */
  lemma ObjectRoom(ms: seq<Member>, i: nat, level: nat, st: Style, num: Numbers)
    requires i < |ms|
    ensures ObjectSoFar(ms, i + 1, level, st, num) == ObjectSoFar(ms, i, level, st, num) + MemberText(ms, i, level, st, num)
    ensures |ObjectSoFar(ms, i + 1, level, st, num)| < |Print(Object(ms), level, st, num)|
  {
    ObjectSoFarRest(ms, i + 1, level, st, num);
    assert |PrintMembers(ms[i + 1..], level, st, num)| > 0;
  }

  // ---------------------------------------------------------------------------------------------
  // json_serialize_to_buffer_r

  method SerializeValue(v: Value, w: Writer, level: nat, st: Style, num: Numbers)
    requires WellFormed(v, num) && Faithful(num)
    requires w.Valid() && w.Fits(Print(v, level, st, num))
    modifies w, w.buf, w.numBuf
    ensures w.Valid() && w.text == old(w.text) + Print(v, level, st, num) && w.Ended()
    decreases v, 0
  {
    match v {
      case Array(items) => SerializeArray(items, w, level, st, num);
      case Object(ms) => SerializeObject(ms, w, level, st, num);
      case String(s) => SerializeString(s, w, st.slashes);
      case Boolean(b) => w.Append(if b then "true" else "false");
      case Number(n) =>
        assert num.double(n);
        w.AppendNumber(num.format(n));
      case Null => w.Append("null");
    }
  }

  method AppendOpening(w: Writer, bracket: string, nonempty: bool, st: Style)
    requires w.Valid() && w.Fits(bracket + if nonempty then Newline(st) else "")
    modifies w, w.buf
    ensures w.Valid() && w.text == old(w.text) + (bracket + if nonempty then Newline(st) else "")
  {
    w.Append(bracket);
    if nonempty && st.pretty {
      w.Append("\n");
    }
  }

  method AppendClosing(w: Writer, bracket: string, nonempty: bool, level: nat, st: Style)
    requires w.Valid() && w.Fits((if nonempty then Indent(level, st) else "") + bracket)
    modifies w, w.buf
    ensures w.Valid() && w.text == old(w.text) + ((if nonempty then Indent(level, st) else "") + bracket) && w.Ended()
  {
    if nonempty && st.pretty {
      w.AppendIndent(level);
    }
    w.Append(bracket);
  }

  method SerializeArray(items: seq<Value>, w: Writer, level: nat, st: Style, num: Numbers)
    requires Faithful(num) && forall x | x in items :: WellFormed(x, num)
    requires w.Valid() && w.Fits(Print(Array(items), level, st, num))
    modifies w, w.buf, w.numBuf
    ensures w.Valid() && w.text == old(w.text) + Print(Array(items), level, st, num) && w.Ended()
    decreases items, 2
  {
    ghost var before := w.text;
    ArrayPieces(items, level, st, num);
    AppendOpening(w, "[", items != [], st);
    SerializeItems(items, before, w, level, st, num);
    Assoc(before, ArraySoFar(items, |items|, level, st, num), (if items != [] then Indent(level, st) else "") + "]");
    AppendClosing(w, "]", items != [], level, st);
  }

  /** The loop of the array case. */
  method SerializeItems(items: seq<Value>, ghost before: string, w: Writer, level: nat, st: Style, num: Numbers)
    requires Faithful(num) && forall x | x in items :: WellFormed(x, num)
    requires w.Valid() && w.text == before + ArraySoFar(items, 0, level, st, num)
    requires w.buf != null ==> |before| + |Print(Array(items), level, st, num)| < w.buf.Length
    modifies w, w.buf, w.numBuf
    ensures w.Valid() && w.text == before + ArraySoFar(items, |items|, level, st, num)
    decreases items, 1
  {
    for i := 0 to |items|
      invariant w.Valid() && w.text == before + ArraySoFar(items, i, level, st, num)
    {
      SerializeItemAt(items, i, before, w, level, st, num);
    }
  }

  /** The body of the loop. */
  method SerializeItemAt(items: seq<Value>, i: nat, ghost before: string, w: Writer, level: nat, st: Style, num: Numbers)
    requires i < |items| && Faithful(num) && WellFormed(items[i], num)
    requires w.Valid() && w.text == before + ArraySoFar(items, i, level, st, num)
    requires w.buf != null ==> |before| + |Print(Array(items), level, st, num)| < w.buf.Length
    modifies w, w.buf, w.numBuf
    ensures w.Valid() && w.text == before + ArraySoFar(items, i + 1, level, st, num)
    decreases items, 0
  {
    ArrayRoom(items, i, level, st, num);
    Assoc(before, ArraySoFar(items, i, level, st, num), ItemText(items, i, level, st, num));
    SerializeItem(items[i], i + 1 < |items|, w, level, st, num);
  }

  method SerializeItem(v: Value, more: bool, w: Writer, level: nat, st: Style, num: Numbers)
    requires Faithful(num) && WellFormed(v, num) && w.Valid()
    requires w.Fits(Indent(level + 1, st) + Print(v, level + 1, st, num) + Comma(more) + Newline(st))
    modifies w, w.buf, w.numBuf
    ensures w.Valid()
    ensures w.text == old(w.text) + (Indent(level + 1, st) + Print(v, level + 1, st, num) + Comma(more) + Newline(st))
    decreases v, 1
  {
    ghost var before, indent, value := w.text, Indent(level + 1, st), Print(v, level + 1, st, num);
    Assoc4(before, indent, value, Comma(more), Newline(st));
    AppendIndentIfPretty(w, level + 1, st);
    assert w.text == before + indent;
    SerializeValue(v, w, level + 1, st, num);
    assert w.text == before + indent + value;
    AppendSeparator(w, more, st);
  }

  method AppendIndentIfPretty(w: Writer, level: nat, st: Style)
    requires w.Valid() && w.Fits(Indent(level, st))
    modifies w, w.buf
    ensures w.Valid() && w.text == old(w.text) + Indent(level, st)
  {
    if st.pretty {
      w.AppendIndent(level);
    }
  }

  /** What the loops write behind an item or member. */
  method AppendSeparator(w: Writer, more: bool, st: Style)
    requires w.Valid() && w.Fits(Comma(more) + Newline(st))
    modifies w, w.buf
    ensures w.Valid() && w.text == old(w.text) + Comma(more) + Newline(st)
  {
    if more {
      w.Append(",");
    }
    if st.pretty {
      w.Append("\n");
    }
  }

  lemma Assoc4(t: string, a: string, b: string, c: string, d: string)
    ensures t + (a + b + c + d) == t + a + b + c + d
  {
  }

  method SerializeObject(ms: seq<Member>, w: Writer, level: nat, st: Style, num: Numbers)
    requires Faithful(num) && DistinctNames(ms) && forall m | m in ms :: WellFormed(m.value, num)
    requires w.Valid() && w.Fits(Print(Object(ms), level, st, num))
    modifies w, w.buf, w.numBuf
    ensures w.Valid() && w.text == old(w.text) + Print(Object(ms), level, st, num) && w.Ended()
    decreases ms, 2
  {
    ghost var before := w.text;
    ObjectPieces(ms, level, st, num);
    AppendOpening(w, "{", ms != [], st);
    SerializeMembers(ms, before, w, level, st, num);
    Assoc(before, ObjectSoFar(ms, |ms|, level, st, num), (if ms != [] then Indent(level, st) else "") + "}");
    AppendClosing(w, "}", ms != [], level, st);
  }

  /** The loop of the object case. */
  method SerializeMembers(ms: seq<Member>, ghost before: string, w: Writer, level: nat, st: Style, num: Numbers)
    requires Faithful(num) && DistinctNames(ms) && forall m | m in ms :: WellFormed(m.value, num)
    requires w.Valid() && w.text == before + ObjectSoFar(ms, 0, level, st, num)
    requires w.buf != null ==> |before| + |Print(Object(ms), level, st, num)| < w.buf.Length
    modifies w, w.buf, w.numBuf
    ensures w.Valid() && w.text == before + ObjectSoFar(ms, |ms|, level, st, num)
    decreases ms, 1
  {
    for i := 0 to |ms|
      invariant w.Valid() && w.text == before + ObjectSoFar(ms, i, level, st, num)
    {
      SerializeMemberAt(ms, i, before, w, level, st, num);
    }
  }

  /** The body of the loop. */
  method SerializeMemberAt(ms: seq<Member>, i: nat, ghost before: string, w: Writer, level: nat, st: Style, num: Numbers)
    requires i < |ms| && Faithful(num) && DistinctNames(ms) && WellFormed(ms[i].value, num)
    requires w.Valid() && w.text == before + ObjectSoFar(ms, i, level, st, num)
    requires w.buf != null ==> |before| + |Print(Object(ms), level, st, num)| < w.buf.Length
    modifies w, w.buf, w.numBuf
    ensures w.Valid() && w.text == before + ObjectSoFar(ms, i + 1, level, st, num)
    decreases ms, 0, 1
  {
    ObjectRoom(ms, i, level, st, num);
    Assoc(before, ObjectSoFar(ms, i, level, st, num), MemberText(ms, i, level, st, num));
    SerializeMember(ms, i, w, level, st, num);
  }

  /** The value is looked up by its name; that the names are distinct makes it the one beside the name. */
  method SerializeMember(ms: seq<Member>, i: nat, w: Writer, level: nat, st: Style, num: Numbers)
    requires i < |ms| && Faithful(num) && DistinctNames(ms) && WellFormed(ms[i].value, num)
    requires w.Valid() && w.Fits(MemberText(ms, i, level, st, num))
    modifies w, w.buf, w.numBuf
    ensures w.Valid() && w.text == old(w.text) + MemberText(ms, i, level, st, num)
    decreases ms, 0, 0
  {
    LookupAt(ms, i);
    var found := Lookup(ms, ms[i].name);
    SerializePair(ms[i].name, found.value, i + 1 < |ms|, w, level, st, num);
  }

  method SerializePair(name: string, v: Value, more: bool, w: Writer, level: nat, st: Style, num: Numbers)
    requires Faithful(num) && WellFormed(v, num) && w.Valid()
    requires w.Fits(Indent(level + 1, st) + PrintName(name, st) + Print(v, level + 1, st, num) + Comma(more) + Newline(st))
    modifies w, w.buf, w.numBuf
    ensures w.Valid()
    ensures w.text == old(w.text) +
                      (Indent(level + 1, st) + PrintName(name, st) + Print(v, level + 1, st, num) + Comma(more) + Newline(st))
    decreases v, 1
  {
    ghost var before, head, value := w.text, Indent(level + 1, st) + PrintName(name, st), Print(v, level + 1, st, num);
    Assoc4(before, head, value, Comma(more), Newline(st));
    SerializeName(name, w, level + 1, st);
    assert w.text == before + head;
    SerializeValue(v, w, level + 1, st, num);
    assert w.text == before + head + value;
    AppendSeparator(w, more, st);
  }

  method SerializeName(name: string, w: Writer, level: nat, st: Style)
    requires w.Valid() && w.Fits(Indent(level, st) + PrintName(name, st))
    modifies w, w.buf
    ensures w.Valid() && w.text == old(w.text) + (Indent(level, st) + PrintName(name, st))
  {
    ghost var before, indent, quoted, gap := w.text, Indent(level, st), Quote(name, st.slashes), if st.pretty then " " else "";
    assert indent + (quoted + ":" + gap) == indent + quoted + ":" + gap;
    Assoc4(before, indent, quoted, ":", gap);
    AppendIndentIfPretty(w, level, st);
    SerializeString(name, w, st.slashes);
    w.Append(":");
    if st.pretty {
      w.Append(" ");
    }
  }

  // ---------------------------------------------------------------------------------------------
  // The entry points

  /** json_serialization_size and its pretty form: the dry run, plus one for the NUL. */
  method SerializationSize(v: Value, st: Style, num: Numbers) returns (size: nat)
    requires WellFormed(v, num) && Faithful(num)
    ensures size == |Print(v, 0, st, num)| + 1
  {
    var w := new Writer.Measure();
    SerializeValue(v, w, 0, st, num);
    assert "" + Print(v, 0, st, num) == Print(v, 0, st, num);
    size := w.written + 1;
  }

  /** json_serialize_to_buffer: succeeds exactly when the buffer has room, and leaves what lies behind the NUL alone. */
  method SerializeToBuffer(v: Value, buf: array<char>, st: Style, num: Numbers) returns (ok: bool)
    requires WellFormed(v, num) && Faithful(num)
    modifies buf
    ensures ok <==> |Print(v, 0, st, num)| < buf.Length
    ensures ok ==> var n := |Print(v, 0, st, num)|;
                   buf[..] == Print(v, 0, st, num) + [NUL] + old(buf[n + 1..])
    ensures !ok ==> buf[..] == old(buf[..])
  {
    var needed := SerializationSize(v, st, num);
    if buf.Length < needed {
      return false;
    }
    var w := new Writer.Into(buf);
    ghost var p := Print(v, 0, st, num);
    SerializeValue(v, w, 0, st, num);
    assert "" + p == p;
    HasAtSlice(buf[..], 0, p);
    assert buf[..|p|] == p;
    return true;
  }

  /** json_serialize_to_string: the buffer it allocates is always large enough, and filled to the last byte. */
  method SerializeToString(v: Value, st: Style, num: Numbers) returns (buf: array<char>)
    requires WellFormed(v, num) && Faithful(num)
    ensures fresh(buf) && buf[..] == Print(v, 0, st, num) + [NUL]
  {
    var size := SerializationSize(v, st, num);
    buf := new char[size];
    var ok := SerializeToBuffer(v, buf, st, num);
    assert ok;
  }
}
