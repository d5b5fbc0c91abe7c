/** Serialised text is grammatical, so the parser inverts the serialiser. */
module JsonRoundTrip {
  import opened CText
  import opened Common
  import opened JsonString
  import opened JsonStringGrammar
  import opened JsonValue
  import opened JsonPrint
  import opened JsonParse
  import opened JsonGrammar

  // ---------------------------------------------------------------------------------------------
  // Layout: where the pieces of serialised text stand

  /** White space standing in front of a position is skipped. */
  lemma {:induction false} SkipsBlank(t: string, i: nat, w: string)
    requires HasAt(t, i, w) && forall c | c in w :: IsSpace(c)
    ensures SkipSpaces(t, i) == SkipSpaces(t, i + |w|)
    decreases |w|
  {
    if w != "" {
      HasAtConcat(t, i, [w[0]], w[1..]);
      assert [w[0]] + w[1..] == w;
      FirstByte(t, i, w);
      SkipsBlank(t, i + 1, w[1..]);
    }
  }

  /** Behind an opening bracket: where the contents start, and that the parser gets there. */
  lemma OpenLayout(t: string, i: nat, open: string, st: Style, rest: string) returns (k: nat)
    requires |open| == 1 && HasAt(t, i, open + Newline(st) + rest)
    ensures i < |t| && t[i] == open[0] && k == i + 1 + |Newline(st)| && HasAt(t, k, rest)
    ensures SkipSpaces(t, i + 1) == SkipSpaces(t, k)
  {
    HasAtConcat(t, i, open + Newline(st), rest);
    HasAtConcat(t, i, open, Newline(st));
    FirstByte(t, i, open);
    SkipsBlank(t, i + 1, Newline(st));
    k := i + 1 + |Newline(st)|;
  }

  /** Behind the pieces of an item or member, when others follow: a comma, and the text of the others. */
  lemma CommaLayout(t: string, k: nat, st: Style, more: string) returns (next: nat)
    requires HasAt(t, k, "," + Newline(st) + more)
    ensures SkipSpaces(t, k) == k && At(t, k) == ',' && EndsNumber(At(t, k))
    ensures next == k + 1 + |Newline(st)| && HasAt(t, next, more) && SkipSpaces(t, k + 1) == SkipSpaces(t, next)
  {
    HasAtConcat(t, k, "," + Newline(st), more);
    HasAtConcat(t, k, ",", Newline(st));
    FirstByte(t, k, ",");
    SkipsBlank(t, k + 1, Newline(st));
    next := k + 1 + |Newline(st)|;
  }

  /** Behind the last item or member: white space and the closing bracket. */
  lemma CloseLayout(t: string, k: nat, level: nat, st: Style, close: string)
    requires HasAt(t, k, Newline(st) + (Indent(level, st) + close))
    requires close == "]" || close == "}"
    ensures EndsNumber(At(t, k)) && At(t, SkipSpaces(t, k)) == close[0]
    ensures SkipSpaces(t, k) + 1 == k + |Newline(st)| + |Indent(level, st) + close|
  {
    var next := k + |Newline(st)|;
    FirstByte(t, k, Newline(st) + (Indent(level, st) + close));
    HasAtConcat(t, k, Newline(st), Indent(level, st) + close);
    HasAtConcat(t, next, Indent(level, st), close);
    SkipsBlank(t, k, Newline(st));
    SkipsBlank(t, next, Indent(level, st));
    FirstByte(t, next + |Indent(level, st)|, close);
  }

  /** A quoted name, a colon and a gap. */
  lemma NameInPieces(t: string, j: nat, name: string, quoted: string, gap: string, all: string, str: StringRule)
    requires ScannerFollows(str)
    requires NUL !in name && all == quoted + ":" + gap && HasAt(t, j, all) && forall c | c in gap :: c == ' '
    requires QuotedString(t, j) == Some((name, j + |quoted|))
    ensures DenotesName(t, j, SkipSpaces(t, j + |all|), name, str)
  {
    HasAtConcat(t, j, quoted + ":", gap);
    HasAtConcat(t, j, quoted, ":");
    FirstByte(t, j + |quoted|, ":");
    SkipsBlank(t, j + |quoted| + 1, gap);
    StringIsScanned(t, j, j + |quoted|, name, str);
  }

  lemma NameIsQuoted(t: string, j: nat, name: string, st: Style)
    requires HasAt(t, j, PrintName(name, st))
    ensures At(t, j) == '"' && QuotedString(t, j) == Some((name, j + |Quote(name, st.slashes)|))
  {
    var quoted, gap := Quote(name, st.slashes), if st.pretty then " " else "";
    HasAtConcat(t, j, quoted + ":", gap);
    HasAtConcat(t, j, quoted, ":");
    QuotedStringUndoesQuote(t, j, name, st.slashes);
  }

  lemma NameStart(t: string, j: nat, name: string, st: Style)
    requires HasAt(t, j, PrintName(name, st))
    ensures At(t, j) == '"' && SkipSpaces(t, j) == j
  {
    NameIsQuoted(t, j, name, st);
  }

  /** A printed name is read back with its colon. */
  lemma NamePieces(t: string, j: nat, name: string, st: Style, str: StringRule)
    requires ScannerFollows(str)
    requires NUL !in name && HasAt(t, j, PrintName(name, st))
    ensures DenotesName(t, j, SkipSpaces(t, j + |PrintName(name, st)|), name, str)
  {
    NameIsQuoted(t, j, name, st);
    NameInPieces(t, j, name, Quote(name, st.slashes), if st.pretty then " " else "", PrintName(name, st), str);
  }

  // ---------------------------------------------------------------------------------------------
  // Serialised text is grammatical

  /** The first byte of serialised text is neither white space nor part of a byte order mark. */
  lemma PrintStart(v: Value, level: nat, st: Style, num: Numbers)
    requires WellFormed(v, num) && Faithful(num)
    ensures var p := Print(v, level, st, num); p != "" && !IsSpace(p[0]) && p[0] < 0x80 as char
  {
  }

  predicate GoodItems(items: seq<Value>, num: Numbers) {
    items == [] || (WellFormed(items[0], num) && GoodItems(items[1..], num))
  }

  predicate GoodMembers(ms: seq<Member>, num: Numbers) {
    ms == [] || (NUL !in ms[0].name && WellFormed(ms[0].value, num) && GoodMembers(ms[1..], num))
  }

  lemma {:induction false} ItemsAreGood(items: seq<Value>, num: Numbers)
    requires forall x | x in items :: WellFormed(x, num)
    ensures GoodItems(items, num)
  {
    if items != [] {
      ItemsAreGood(items[1..], num);
    }
  }

  lemma {:induction false} MembersAreGood(ms: seq<Member>, num: Numbers)
    requires forall m | m in ms :: NUL !in m.name && WellFormed(m.value, num)
    ensures GoodMembers(ms, num)
  {
    if ms != [] {
      MembersAreGood(ms[1..], num);
    }
  }

  lemma {:induction false} PrintDenotes(t: string, i: nat, v: Value, level: nat, st: Style, num: Numbers, str: StringRule)
    requires ScannerFollows(str)
    requires WellFormed(v, num) && Faithful(num)
    requires HasAt(t, i, Print(v, level, st, num)) && EndsNumber(At(t, i + |Print(v, level, st, num)|))
    ensures Denotes(t, i, i + |Print(v, level, st, num)|, v, num, str)
    decreases v, 1
  {
    match v
    case Array(items) =>
      if items == [] {
        EmptyDenotes(t, i, v, level, st, num, str);
      } else {
        ItemsAreGood(items, num);
        PrintArrayDenotes(t, i, items, level, st, num, str);
      }
    case Object(ms) =>
      if ms == [] {
        EmptyDenotes(t, i, v, level, st, num, str);
      } else {
        MembersAreGood(ms, num);
        PrintObjectDenotes(t, i, ms, level, st, num, str);
      }
    case _ => ScalarDenotes(t, i, v, level, st, num, str);
  }

  lemma ArrayOpens(t: string, i: nat, j: nat, e: nat, items: seq<Value>, num: Numbers, str: StringRule)
    requires i < |t| && i <= e <= |t| && t[i] == '[' && j == SkipSpaces(t, i + 1)
    requires items != [] && DenotesItems(t, j, e, items, num, str)
    ensures Denotes(t, i, e, Array(items), num, str)
  {
  }

  lemma ObjectOpens(t: string, i: nat, j: nat, e: nat, ms: seq<Member>, num: Numbers, str: StringRule)
    requires i < |t| && i <= e <= |t| && t[i] == '{' && j == SkipSpaces(t, i + 1)
    requires ms != [] && DenotesMembers(t, j, e, ms, num, str)
    ensures Denotes(t, i, e, Object(ms), num, str)
  {
  }

  lemma {:induction false} PrintArrayDenotes(t: string, i: nat, items: seq<Value>, level: nat, st: Style, num: Numbers, str: StringRule)
    requires ScannerFollows(str)
    requires items != [] && Faithful(num) && GoodItems(items, num)
    requires HasAt(t, i, "[" + Newline(st) + PrintItems(items, level, st, num))
    ensures Denotes(t, i, i + |"[" + Newline(st) + PrintItems(items, level, st, num)|, Array(items), num, str)
    decreases items, 4
  {
    var text := PrintItems(items, level, st, num);
    var k := OpenLayout(t, i, "[", st, text);
    var j, e := SkipSpaces(t, k), k + |text|;
    PrintItemsDenotes(t, k, j, e, items, level, st, num, str);
    ArrayOpens(t, i, j, e, items, num, str);
  }

  lemma {:induction false} PrintObjectDenotes(t: string, i: nat, ms: seq<Member>, level: nat, st: Style, num: Numbers, str: StringRule)
    requires ScannerFollows(str)
    requires ms != [] && Faithful(num) && GoodMembers(ms, num)
    requires HasAt(t, i, "{" + Newline(st) + PrintMembers(ms, level, st, num))
    ensures Denotes(t, i, i + |"{" + Newline(st) + PrintMembers(ms, level, st, num)|, Object(ms), num, str)
    decreases ms, 4
  {
    var text := PrintMembers(ms, level, st, num);
    var k := OpenLayout(t, i, "{", st, text);
    var j, e := SkipSpaces(t, k), k + |text|;
    PrintMembersDenotes(t, k, j, e, ms, level, st, num, str);
    ObjectOpens(t, i, j, e, ms, num, str);
  }

  lemma ScalarDenotes(t: string, i: nat, v: Value, level: nat, st: Style, num: Numbers, str: StringRule)
    requires ScannerFollows(str)
    requires !v.Array? && !v.Object? && WellFormed(v, num) && Faithful(num)
    requires HasAt(t, i, Print(v, level, st, num)) && EndsNumber(At(t, i + |Print(v, level, st, num)|))
    ensures Denotes(t, i, i + |Print(v, level, st, num)|, v, num, str)
  {
    var p := Print(v, level, st, num);
    PrintStart(v, level, st, num);
    FirstByte(t, i, p);
    match v
    case Null => HasAtSlice(t, i, p); assert p == t[i..i + |p|] <= t[i..];
    case Boolean(_) => HasAtSlice(t, i, p); assert p == t[i..i + |p|] <= t[i..];
    case Number(n) => assert num.double(n) && num.scan(t, i) == Some((n, i + |p|));
    case String(s) =>
      QuotedStringUndoesQuote(t, i, s, st.slashes);
      StringIsScanned(t, i, i + |p|, s, str);
  }

  lemma EmptyDenotes(t: string, i: nat, v: Value, level: nat, st: Style, num: Numbers, str: StringRule)
    requires v == Array([]) || v == Object([])
    requires HasAt(t, i, Print(v, level, st, num))
    ensures Denotes(t, i, i + 2, v, num, str)
  {
    var p := Print(v, level, st, num);
    assert p == [p[0]] + [p[1]];
    HasAtConcat(t, i, [p[0]], [p[1]]);
    FirstByte(t, i, [p[0]]);
    FirstByte(t, i + 1, [p[1]]);
  }

  lemma {:induction false} PrintItemsDenotes(
      t: string, i: nat, j: nat, e: nat, items: seq<Value>, level: nat, st: Style, num: Numbers, str: StringRule)
    requires ScannerFollows(str)
    requires items != [] && Faithful(num) && GoodItems(items, num)
    requires HasAt(t, i, PrintItems(items, level, st, num)) && e == i + |PrintItems(items, level, st, num)|
    requires j == SkipSpaces(t, i)
    ensures At(t, j) != ']' && DenotesItems(t, j, e, items, num, str)
    decreases items, 3
  {
    var j', k := ItemPieces(t, i, e, items, level, st, num);
    PrintItemsFrom(t, j', k, e, items, level, st, num, str);
  }

  lemma {:induction false} PrintItemsFrom(
      t: string, j: nat, k: nat, e: nat, items: seq<Value>, level: nat, st: Style, num: Numbers, str: StringRule)
    requires ScannerFollows(str)
    requires items != [] && Faithful(num) && GoodItems(items, num)
    requires HasAt(t, j, Print(items[0], level + 1, st, num)) && k == j + |Print(items[0], level + 1, st, num)|
    requires HasAt(t, k, Comma(|items| > 1) + Newline(st) + PrintItems(items[1..], level, st, num))
    requires e == k + |Comma(|items| > 1)| + |Newline(st)| + |PrintItems(items[1..], level, st, num)|
    ensures SkipSpaces(t, j) == j && At(t, j) != ']' && DenotesItems(t, j, e, items, num, str)
    decreases items, 2
  {
    PrintMoreItemsDenotes(t, k, e, items, level, st, num, str);
    PrintValueDenotes(t, j, k, items[0], level, st, num, str);
    DenotesStart(t, j, k, items[0], num, str);
  }

  /** Where the first item starts and ends. */
  lemma ItemPieces(t: string, i: nat, e: nat, items: seq<Value>, level: nat, st: Style, num: Numbers)
    returns (j: nat, k: nat)
    requires items != [] && HasAt(t, i, PrintItems(items, level, st, num)) && e == i + |PrintItems(items, level, st, num)|
    ensures k <= |t|
    ensures HasAt(t, j, Print(items[0], level + 1, st, num)) && k == j + |Print(items[0], level + 1, st, num)|
    ensures HasAt(t, k, Comma(|items| > 1) + Newline(st) + PrintItems(items[1..], level, st, num))
    ensures e == k + |Comma(|items| > 1)| + |Newline(st)| + |PrintItems(items[1..], level, st, num)|
    ensures SkipSpaces(t, i) == SkipSpaces(t, j)
  {
    var indent, first := Indent(level + 1, st), Print(items[0], level + 1, st, num);
    HasAtPieces(t, i, indent, first, Comma(|items| > 1), Newline(st), PrintItems(items[1..], level, st, num));
    SkipsBlank(t, i, indent);
    j := i + |indent|;
    k := j + |first|;
  }

  /** What follows the first item. */
  lemma {:induction false} PrintMoreItemsDenotes(
      t: string, k: nat, e: nat, items: seq<Value>, level: nat, st: Style, num: Numbers, str: StringRule)
    requires ScannerFollows(str)
    requires items != [] && Faithful(num) && GoodItems(items, num)
    requires HasAt(t, k, Comma(|items| > 1) + Newline(st) + PrintItems(items[1..], level, st, num))
    requires e == k + |Comma(|items| > 1)| + |Newline(st)| + |PrintItems(items[1..], level, st, num)|
    ensures EndsNumber(At(t, k)) && DenotesMoreItems(t, k, e, items, num, str)
    decreases items, 1
  {
    if |items| > 1 {
      PrintOtherItemsDenotes(t, k, e, items, level, st, num, str);
    } else {
      assert Comma(false) + Newline(st) == Newline(st);
      CloseLayout(t, k, level, st, "]");
    }
  }

  lemma {:induction false} PrintOtherItemsDenotes(
      t: string, k: nat, e: nat, items: seq<Value>, level: nat, st: Style, num: Numbers, str: StringRule)
    requires ScannerFollows(str)
    requires |items| > 1 && Faithful(num) && GoodItems(items, num)
    requires HasAt(t, k, "," + Newline(st) + PrintItems(items[1..], level, st, num))
    requires e == k + 1 + |Newline(st)| + |PrintItems(items[1..], level, st, num)|
    ensures EndsNumber(At(t, k)) && DenotesMoreItems(t, k, e, items, num, str)
    decreases items, 0
  {
    var next := CommaLayout(t, k, st, PrintItems(items[1..], level, st, num));
    PrintItemsDenotes(t, next, SkipSpaces(t, next), e, items[1..], level, st, num, str);
  }

  lemma {:induction false} PrintMembersDenotes(
      t: string, i: nat, j: nat, e: nat, ms: seq<Member>, level: nat, st: Style, num: Numbers, str: StringRule)
    requires ScannerFollows(str)
    requires ms != [] && Faithful(num) && GoodMembers(ms, num)
    requires HasAt(t, i, PrintMembers(ms, level, st, num)) && e == i + |PrintMembers(ms, level, st, num)|
    requires j == SkipSpaces(t, i)
    ensures At(t, j) != '}' && DenotesMembers(t, j, e, ms, num, str)
    decreases ms, 3
  {
    var j', q, k := MemberPieces(t, i, e, ms, level, st, num);
    PrintMembersFrom(t, j', q, k, e, ms, level, st, num, str);
  }

  lemma {:induction false} PrintMembersFrom(
      t: string, j: nat, q: nat, k: nat, e: nat, ms: seq<Member>, level: nat, st: Style, num: Numbers, str: StringRule)
    requires ScannerFollows(str)
    requires ms != [] && Faithful(num) && GoodMembers(ms, num)
    requires HasAt(t, j, PrintName(ms[0].name, st)) && q == j + |PrintName(ms[0].name, st)|
    requires HasAt(t, q, Print(ms[0].value, level + 1, st, num)) && k == q + |Print(ms[0].value, level + 1, st, num)|
    requires HasAt(t, k, Comma(|ms| > 1) + Newline(st) + PrintMembers(ms[1..], level, st, num))
    requires e == k + |Comma(|ms| > 1)| + |Newline(st)| + |PrintMembers(ms[1..], level, st, num)|
    ensures SkipSpaces(t, j) == j && At(t, j) == '"' && DenotesMembers(t, j, e, ms, num, str)
    decreases ms, 2
  {
    PrintMoreMembersDenotes(t, k, e, ms, level, st, num, str);
    PrintValueDenotes(t, q, k, ms[0].value, level, st, num, str);
    MembersFrom(t, j, q, k, e, ms, st, num, str);
  }

  /** The value from q to k. */
  lemma {:induction false} PrintValueDenotes(t: string, q: nat, k: nat, v: Value, level: nat, st: Style, num: Numbers, str: StringRule)
    requires ScannerFollows(str)
    requires Faithful(num) && WellFormed(v, num)
    requires HasAt(t, q, Print(v, level + 1, st, num)) && k == q + |Print(v, level + 1, st, num)|
    requires EndsNumber(At(t, k))
    ensures Denotes(t, q, k, v, num, str) && SkipSpaces(t, q) == q
    decreases v, 2
  {
    PrintDenotes(t, q, v, level + 1, st, num, str);
    DenotesStart(t, q, k, v, num, str);
  }

  /** The name from j to q, in front of its value and the others. */
  lemma MembersFrom(t: string, j: nat, q: nat, k: nat, e: nat, ms: seq<Member>, st: Style, num: Numbers, str: StringRule)
    requires ScannerFollows(str)
    requires ms != [] && NUL !in ms[0].name
    requires HasAt(t, j, PrintName(ms[0].name, st)) && q == j + |PrintName(ms[0].name, st)|
    requires SkipSpaces(t, q) == q && Denotes(t, q, k, ms[0].value, num, str) && DenotesMoreMembers(t, k, e, ms, num, str)
    ensures SkipSpaces(t, j) == j && At(t, j) == '"' && DenotesMembers(t, j, e, ms, num, str)
  {
    NamePieces(t, j, ms[0].name, st, str);
    NameStart(t, j, ms[0].name, st);
  }

  /** Where the first name and the first value start, and where that ends. */
  lemma MemberPieces(t: string, i: nat, e: nat, ms: seq<Member>, level: nat, st: Style, num: Numbers)
    returns (j: nat, q: nat, k: nat)
    requires ms != [] && HasAt(t, i, PrintMembers(ms, level, st, num)) && e == i + |PrintMembers(ms, level, st, num)|
    ensures k <= |t|
    ensures HasAt(t, j, PrintName(ms[0].name, st)) && q == j + |PrintName(ms[0].name, st)|
    ensures HasAt(t, q, Print(ms[0].value, level + 1, st, num)) && k == q + |Print(ms[0].value, level + 1, st, num)|
    ensures HasAt(t, k, Comma(|ms| > 1) + Newline(st) + PrintMembers(ms[1..], level, st, num))
    ensures e == k + |Comma(|ms| > 1)| + |Newline(st)| + |PrintMembers(ms[1..], level, st, num)|
    ensures SkipSpaces(t, i) == SkipSpaces(t, j)
  {
    var indent, name, value := Indent(level + 1, st), PrintName(ms[0].name, st), Print(ms[0].value, level + 1, st, num);
    HasAtMorePieces(t, i, indent, name, value, Comma(|ms| > 1), Newline(st), PrintMembers(ms[1..], level, st, num));
    SkipsBlank(t, i, indent);
    j := i + |indent|;
    q := j + |name|;
    k := q + |value|;
  }

  /** What follows the first member. */
  lemma {:induction false} PrintMoreMembersDenotes(
      t: string, k: nat, e: nat, ms: seq<Member>, level: nat, st: Style, num: Numbers, str: StringRule)
    requires ScannerFollows(str)
    requires ms != [] && Faithful(num) && GoodMembers(ms, num)
    requires HasAt(t, k, Comma(|ms| > 1) + Newline(st) + PrintMembers(ms[1..], level, st, num))
    requires e == k + |Comma(|ms| > 1)| + |Newline(st)| + |PrintMembers(ms[1..], level, st, num)|
    ensures EndsNumber(At(t, k)) && DenotesMoreMembers(t, k, e, ms, num, str)
    decreases ms, 1
  {
    if |ms| > 1 {
      PrintOtherMembersDenotes(t, k, e, ms, level, st, num, str);
    } else {
      assert Comma(false) + Newline(st) == Newline(st);
      CloseLayout(t, k, level, st, "}");
    }
  }

  lemma {:induction false} PrintOtherMembersDenotes(
      t: string, k: nat, e: nat, ms: seq<Member>, level: nat, st: Style, num: Numbers, str: StringRule)
    requires ScannerFollows(str)
    requires |ms| > 1 && Faithful(num) && GoodMembers(ms, num)
    requires HasAt(t, k, "," + Newline(st) + PrintMembers(ms[1..], level, st, num))
    requires e == k + 1 + |Newline(st)| + |PrintMembers(ms[1..], level, st, num)|
    ensures EndsNumber(At(t, k)) && DenotesMoreMembers(t, k, e, ms, num, str)
    decreases ms, 0
  {
    var next := CommaLayout(t, k, st, PrintMembers(ms[1..], level, st, num));
    PrintMembersDenotes(t, next, SkipSpaces(t, next), e, ms[1..], level, st, num, str);
  }

  // ---------------------------------------------------------------------------------------------
  // The round trip

  lemma {:induction false} WellFormedIsUnambiguous(v: Value, num: Numbers)
    requires WellFormed(v, num)
    ensures Unambiguous(v)
    decreases v
  {
    match v
    case Array(items) =>
      forall x | x in items ensures Unambiguous(x) {
        WellFormedIsUnambiguous(x, num);
      }
    case Object(ms) =>
      forall m | m in ms ensures Unambiguous(m.value) {
        WellFormedIsUnambiguous(m.value, num);
      }
    case _ =>
  }

  /**
   * Parsing serialised text gives the same tree, member order and string bytes included, in either format and with
   * either slash setting, exactly when its height is at most 2048; otherwise the parser refuses it.
   */
  lemma ParseUndoesPrint(v: Value, st: Style, num: Numbers)
    requires WellFormed(v, num) && Faithful(num)
    ensures ParseText(Print(v, 0, st, num), num) == if Height(v) <= 2048 then Some(v) else None
  {
    var p := Print(v, 0, st, num);
    PrintStart(v, 0, st, num);
    assert HasAt(p, 0, p);
    ScannerFollowsTheGrammar();
    PrintDenotes(p, 0, v, 0, st, num, StringAt);
    WellFormedIsUnambiguous(v, num);
    ParseDenoted(p, 0, |p|, v, 0, num, StringAt);
  }

  /** Two trees with the same text are the same tree, however deep they nest. */
  lemma PrintIsInjective(v: Value, w: Value, st: Style, num: Numbers)
    requires WellFormed(v, num) && WellFormed(w, num) && Faithful(num)
    requires Print(v, 0, st, num) == Print(w, 0, st, num)
    ensures v == w
  {
    var p := Print(v, 0, st, num);
    assert HasAt(p, 0, p);
    ScannerFollowsTheGrammar();
    PrintDenotes(p, 0, v, 0, st, num, StringAt);
    PrintDenotes(p, 0, w, 0, st, num, StringAt);
    DenotesOneValue(p, 0, |p|, v, |p|, w, num, StringAt);
  }

  /** Arrays in arrays, n deep. */
  function Nested(n: nat): Value {
    if n == 0 then Array([]) else Array([Nested(n - 1)])
  }

  lemma {:induction false} NestedHeight(n: nat)
    ensures Height(Nested(n)) == n
  {
    if n > 0 {
      NestedHeight(n - 1);
      var items := [Nested(n - 1)];
      assert items[1..] == [] && ItemsHeight(items) == Height(items[0]);
    }
  }

  lemma {:induction false} NestedIsWellFormed(n: nat, num: Numbers)
    ensures WellFormed(Nested(n), num)
  {
    if n > 0 {
      NestedIsWellFormed(n - 1, num);
    }
  }

  /** The library prints arrays that nest too deep, and does not read them back; one level less is read. */
  lemma TooDeepToReadBack(st: Style, num: Numbers)
    requires Faithful(num)
    ensures WellFormed(Nested(2049), num) && ParseText(Print(Nested(2049), 0, st, num), num) == None
    ensures ParseText(Print(Nested(2048), 0, st, num), num) == Some(Nested(2048))
  {
    NestedHeight(2049);
    NestedHeight(2048);
    NestedIsWellFormed(2049, num);
    NestedIsWellFormed(2048, num);
    ParseUndoesPrint(Nested(2049), st, num);
    ParseUndoesPrint(Nested(2048), st, num);
  }
}
