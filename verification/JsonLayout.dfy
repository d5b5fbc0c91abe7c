/** The layout of serialised text: where white space stands, and how slashes are written. */
module JsonLayout {
  import opened CText
  import opened Common
  import opened JsonString
  import opened JsonValue
  import opened JsonPrint

  // ---------------------------------------------------------------------------------------------
  // A scan of any text

  /** Whether a byte stands outside strings, inside one, or behind the backslash of an escape. */
  datatype Spot = Outside | Inside | Escaped

  function Next(spot: Spot, c: char): Spot {
    match spot
    case Outside => if c == '"' then Inside else Outside
    case Inside => if c == '\\' then Escaped else if c == '"' then Outside else Inside
    case Escaped => Inside
  }

  /** Where byte k of a text stands that starts at the given spot. */
  function SpotAt(t: string, k: nat, spot: Spot): Spot
    requires k <= |t|
  {
    if k == 0 then spot else SpotAt(t[1..], k - 1, Next(spot, t[0]))
  }

  predicate IsOpen(c: char) {
    c == '[' || c == '{'
  }

  predicate IsClose(c: char) {
    c == ']' || c == '}'
  }

  /** The scan of a text: the spot, the byte before, and how many brackets are open. */
  datatype Cursor = Cursor(spot: Spot, prev: char, depth: int)

  const START := Cursor(Outside, NUL, 0)

  function Move(x: Cursor, c: char): Cursor {
    Cursor(Next(x.spot, c), c,
           if x.spot != Outside then x.depth else if IsOpen(c) then x.depth + 1 else if IsClose(c) then x.depth - 1 else x.depth)
  }

  function MoveAll(x: Cursor, t: string): Cursor
    decreases |t|
  {
    if t == "" then x else MoveAll(Move(x, t[0]), t[1..])
  }

  function LineBreak(depth: int): (s: string)
    ensures forall c | c in s :: IsSpace(c) && c != '/'
  {
    "\n" + seq(if depth > 0 then 4 * depth else 0, _ => ' ')
  }

  /**
   * What the pretty form puts between two bytes of the compact form that stand outside strings: a line break behind an
   * opening bracket, behind a comma and in front of a closing bracket, but nothing between the brackets of an empty
   * container; each new line starts with four blanks for each bracket that is still open; and one blank behind a colon.
   */
  function Gap(prev: char, c: char, depth: int): (s: string)
    ensures forall b | b in s :: IsSpace(b) && b != '/'
  {
    if IsOpen(prev) && IsClose(c) then ""
    else if IsOpen(prev) || prev == ',' then LineBreak(depth)
    else if IsClose(c) then LineBreak(depth - 1)
    else if prev == ':' then " "
    else ""
  }

  /** A compact text with the gaps of the pretty form. */
  function Spaced(t: string, x: Cursor): string {
    if t == "" then "" else
    (if x.spot == Outside then Gap(x.prev, t[0], x.depth) else "") + [t[0]] + Spaced(t[1..], Move(x, t[0]))
  }

  /** A text without the white space outside its strings. */
  function Squeezed(t: string, spot: Spot): string {
    if t == "" then "" else
    (if spot == Outside && IsSpace(t[0]) then "" else [t[0]]) + Squeezed(t[1..], Next(spot, t[0]))
  }

  /** No white space outside strings. */
  predicate Tight(t: string, spot: Spot) {
    t == "" || (!(spot == Outside && IsSpace(t[0])) && Tight(t[1..], Next(spot, t[0])))
  }

  /** Each slash stands behind a backslash of its own, or none does. */
  predicate SlashesSo(t: string, spot: Spot, slashes: bool) {
    t == "" || ((t[0] == '/' ==> spot == if slashes then Escaped else Inside) && SlashesSo(t[1..], Next(spot, t[0]), slashes))
  }

  lemma {:induction false} TightMeans(t: string, spot: Spot)
    ensures Tight(t, spot) <==> forall k | 0 <= k < |t| && SpotAt(t, k, spot) == Outside :: !IsSpace(t[k])
  {
    if t != "" {
      var rest, next := t[1..], Next(spot, t[0]);
      TightMeans(rest, next);
      assert forall k | 0 < k <= |t| :: SpotAt(t, k, spot) == SpotAt(rest, k - 1, next);
      assert forall k | 0 < k < |t| :: t[k] == rest[k - 1];
      if Tight(t, spot) {
        forall k | 0 <= k < |t| && SpotAt(t, k, spot) == Outside ensures !IsSpace(t[k]) {
          assert k > 0 ==> !IsSpace(rest[k - 1]);
        }
      } else if Tight(rest, next) {
        assert SpotAt(t, 0, spot) == Outside && IsSpace(t[0]);
      } else {
        var k :| 0 <= k < |rest| && SpotAt(rest, k, next) == Outside && IsSpace(rest[k]);
        assert SpotAt(t, k + 1, spot) == Outside && IsSpace(t[k + 1]);
      }
    }
  }

  lemma {:induction false} SlashesMean(t: string, spot: Spot, slashes: bool, k: nat)
    requires SlashesSo(t, spot, slashes) && k < |t| && t[k] == '/'
    ensures SpotAt(t, k, spot) == if slashes then Escaped else Inside
  {
    if k > 0 {
      SlashesMean(t[1..], Next(spot, t[0]), slashes, k - 1);
    }
  }

  // ---------------------------------------------------------------------------------------------
  // Gaps come and go

  lemma {:induction false} SqueezedBlank(p: string, q: string)
    requires forall c | c in p :: IsSpace(c) && c != '/'
    ensures Squeezed(p + q, Outside) == Squeezed(q, Outside)
    ensures forall slashes :: SlashesSo(p + q, Outside, slashes) <==> SlashesSo(q, Outside, slashes)
  {
    if p == "" {
      assert p + q == q;
    } else {
      assert (p + q)[1..] == p[1..] + q && p[0] in p;
      SqueezedBlank(p[1..], q);
    }
  }

  /** Taking the gaps out again gives the compact text back, and slashes stand as they stood. */
  lemma {:induction false} SqueezedSpaced(t: string, x: Cursor, slashes: bool)
    ensures Squeezed(Spaced(t, x), x.spot) == Squeezed(t, x.spot)
    ensures SlashesSo(Spaced(t, x), x.spot, slashes) <==> SlashesSo(t, x.spot, slashes)
  {
    if t != "" {
      var gap := if x.spot == Outside then Gap(x.prev, t[0], x.depth) else "";
      var more := [t[0]] + Spaced(t[1..], Move(x, t[0]));
      SqueezedSpaced(t[1..], Move(x, t[0]), slashes);
      assert more[1..] == Spaced(t[1..], Move(x, t[0]));
      assert Spaced(t, x) == gap + more;
      if x.spot == Outside {
        SqueezedBlank(gap, more);
      } else {
        assert gap + more == more;
      }
    }
  }

  lemma {:induction false} SqueezedTight(t: string, spot: Spot)
    requires Tight(t, spot)
    ensures Squeezed(t, spot) == t
  {
    if t != "" {
      SqueezedTight(t[1..], Next(spot, t[0]));
    }
  }

  // ---------------------------------------------------------------------------------------------
  // A piece of compact text and what the pretty form has for it

  ghost predicate Reads(u: string, x: Cursor, w: string, y: Cursor, slashes: bool) {
    Spaced(u, x) == w && MoveAll(x, u) == y && Tight(u, x.spot) && SlashesSo(u, x.spot, slashes)
  }

  lemma {:induction false} ReadsMore(u: string, v: string, x: Cursor, y: Cursor, z: Cursor, w: string, w': string, slashes: bool)
    requires Reads(u, x, w, y, slashes) && Reads(v, y, w', z, slashes)
    ensures Reads(u + v, x, w + w', z, slashes)
    decreases |u|
  {
    if u == "" {
      assert u + v == v && w + w' == w';
    } else {
      var x' := Move(x, u[0]);
      var gap := (if x.spot == Outside then Gap(x.prev, u[0], x.depth) else "") + [u[0]];
      ReadsMore(u[1..], v, x', y, z, Spaced(u[1..], x'), w', slashes);
      assert (u + v)[1..] == u[1..] + v && (u + v)[0] == u[0];
      Assoc(gap, Spaced(u[1..], x'), w');
    }
  }

  lemma ReadsOne(c: char, x: Cursor, slashes: bool)
    requires x.spot == Outside ==> !IsSpace(c)
    requires c == '/' ==> x.spot == if slashes then Escaped else Inside
    ensures Reads([c], x, (if x.spot == Outside then Gap(x.prev, c, x.depth) else "") + [c], Move(x, c), slashes)
  {
    assert [c][1..] == "";
    var gap := (if x.spot == Outside then Gap(x.prev, c, x.depth) else "") + [c];
    assert gap + "" == gap;
  }

  // ---------------------------------------------------------------------------------------------
  // Strings

  lemma {:induction false} InsideReads(p: string, x: Cursor, slashes: bool)
    requires x.spot == Inside && forall c | c in p :: c != '"' && c != '\\' && c != '/'
    ensures Reads(p, x, p, MoveAll(x, p), slashes) && MoveAll(x, p).spot == Inside && MoveAll(x, p).depth == x.depth
    decreases |p|
  {
    if p != "" {
      assert p[0] in p && forall c | c in p[1..] :: c in p;
      InsideReads(p[1..], Move(x, p[0]), slashes);
      assert [p[0]] + p[1..] == p;
    }
  }

  lemma {:induction false} EscapeReads(e: string, x: Cursor, slashes: bool)
    requires x.spot == Inside && |e| >= 2 && e[0] == '\\' && (e[1] == '/' ==> slashes)
    requires forall c | c in e[2..] :: c != '"' && c != '\\' && c != '/'
    ensures Reads(e, x, e, MoveAll(x, e), slashes) && MoveAll(x, e).spot == Inside && MoveAll(x, e).depth == x.depth
  {
    var x1 := Move(x, e[0]);
    var x2 := Move(x1, e[1]);
    ReadsOne(e[0], x, slashes);
    ReadsOne(e[1], x1, slashes);
    InsideReads(e[2..], x2, slashes);
    ReadsMore([e[1]], e[2..], x1, x2, MoveAll(x2, e[2..]), [e[1]], e[2..], slashes);
    ReadsMore([e[0]], [e[1]] + e[2..], x, x1, MoveAll(x2, e[2..]), [e[0]], [e[1]] + e[2..], slashes);
    assert [e[0]] + ([e[1]] + e[2..]) == e;
  }

  lemma CharReads(c: char, x: Cursor, slashes: bool)
    requires x.spot == Inside
    ensures var e := EscapeChar(c, slashes);
            Reads(e, x, e, MoveAll(x, e), slashes) && MoveAll(x, e).spot == Inside && MoveAll(x, e).depth == x.depth
  {
    var e := EscapeChar(c, slashes);
    if e == [c] {
      ReadsOne(c, x, slashes);
    } else {
      EscapeReads(e, x, slashes);
    }
  }

  lemma {:induction false} BodyReads(s: string, x: Cursor, slashes: bool)
    requires x.spot == Inside
    ensures var u := EscapeBody(s, slashes);
            Reads(u, x, u, MoveAll(x, u), slashes) && MoveAll(x, u).spot == Inside && MoveAll(x, u).depth == x.depth
    decreases |s|
  {
    if s != "" {
      var e, rest := EscapeChar(s[0], slashes), EscapeBody(s[1..], slashes);
      CharReads(s[0], x, slashes);
      var y := MoveAll(x, e);
      BodyReads(s[1..], y, slashes);
      ReadsMore(e, rest, x, y, MoveAll(y, rest), e, rest, slashes);
    }
  }

  /** What the gap in front of a value depends on. */
  function Lead(prev: char, depth: int): string {
    Gap(prev, NUL, depth)
  }

  /** A byte that can end a value. */
  predicate EndsValue(c: char) {
    !IsOpen(c) && c != ',' && c != ':'
  }

  /** The piece u of a compact text ends a value at the depth given, and w is what the pretty form has for it. */
  ghost predicate ReadsValue(u: string, x: Cursor, w: string, depth: int, slashes: bool) {
    var y := MoveAll(x, u);
    Reads(u, x, w, y, slashes) && y.spot == Outside && y.depth == depth && EndsValue(y.prev)
  }

  lemma ReadsOn(u: string, v: string, x: Cursor, w: string, w': string, depth: int, slashes: bool)
    requires Reads(u, x, w, MoveAll(x, u), slashes) && ReadsValue(v, MoveAll(x, u), w', depth, slashes)
    ensures ReadsValue(u + v, x, w + w', depth, slashes)
  {
    ReadsMore(u, v, x, MoveAll(x, u), MoveAll(MoveAll(x, u), v), w, w', slashes);
  }

  lemma QuoteReads(s: string, x: Cursor, slashes: bool)
    requires x.spot == Outside
    ensures ReadsValue(Quote(s, slashes), x, Lead(x.prev, x.depth) + Quote(s, slashes), x.depth, slashes)
  {
    var body, x1 := EscapeBody(s, slashes), Move(x, '"');
    ReadsOne('"', x, slashes);
    BodyReads(s, x1, slashes);
    ReadsOne('"', MoveAll(x1, body), slashes);
    assert MoveAll(MoveAll(x1, body), "\"") == Move(MoveAll(x1, body), '"');
    ReadsOn(body, "\"", x1, body, "\"", x.depth, slashes);
    assert MoveAll(x, "\"") == x1;
    ReadsOn("\"", body + "\"", x, Lead(x.prev, x.depth) + "\"", body + "\"", x.depth, slashes);
    assert "\"" + (body + "\"") == Quote(s, slashes);
    Assoc(Lead(x.prev, x.depth), "\"", body + "\"");
  }

  // ---------------------------------------------------------------------------------------------
  // Values

  predicate IsFlat(c: char) {
    !IsSpace(c) && c != '"' && c != '/' && c != ',' && c != ':' && !IsOpen(c) && !IsClose(c)
  }

  lemma {:induction false} FlatReads(p: string, x: Cursor, slashes: bool)
    requires x.spot == Outside && p != "" && forall c | c in p :: IsFlat(c)
    ensures ReadsValue(p, x, Lead(x.prev, x.depth) + p, x.depth, slashes)
    decreases |p|
  {
    var c, rest := p[0], p[1..];
    assert c in p && p == [c] + rest;
    ReadsOne(c, x, slashes);
    assert MoveAll(x, [c]) == Move(x, c);
    if rest == "" {
      assert p == [c];
    } else {
      assert forall b | b in rest :: b in p;
      FlatReads(rest, Move(x, c), slashes);
      assert Lead(c, x.depth) + rest == rest;
      ReadsOn([c], rest, x, Lead(x.prev, x.depth) + [c], rest, x.depth, slashes);
      Assoc(Lead(x.prev, x.depth), [c], rest);
    }
  }

  function Compact(slashes: bool): Style {
    Style(false, slashes)
  }

  function Pretty(slashes: bool): Style {
    Style(true, slashes)
  }

  lemma LineBreakIs(level: nat, slashes: bool)
    ensures LineBreak(level) == "\n" + Indent(level, Pretty(slashes))
  {
    var blanks := Spaces(level);
    assert forall i | 0 <= i < |blanks| :: blanks[i] in blanks;
    assert blanks == seq(4 * level, _ => ' ');
  }

  lemma CloseReads(close: char, level: nat, x: Cursor, slashes: bool)
    requires IsClose(close) && x.spot == Outside && x.depth == level + 1 && EndsValue(x.prev)
    ensures ReadsValue([close], x, "\n" + (Indent(level, Pretty(slashes)) + [close]), level, slashes)
  {
    ReadsOne(close, x, slashes);
    assert MoveAll(x, [close]) == Move(x, close);
    LineBreakIs(level, slashes);
    Assoc("\n", Indent(level, Pretty(slashes)), [close]);
  }

  /** Opening and closing bracket of an empty container. */
  lemma EmptyReads(open: char, close: char, x: Cursor, slashes: bool)
    requires x.spot == Outside && IsOpen(open) && IsClose(close)
    ensures ReadsValue([open, close], x, Lead(x.prev, x.depth) + [open, close], x.depth, slashes)
  {
    var x1 := Move(x, open);
    ReadsOne(open, x, slashes);
    ReadsOne(close, x1, slashes);
    assert MoveAll(x, [open]) == x1 && MoveAll(x1, [close]) == Move(x1, close);
    ReadsOn([open], [close], x, Lead(x.prev, x.depth) + [open], [close], x.depth, slashes);
    assert [open] + [close] == [open, close];
    Assoc(Lead(x.prev, x.depth), [open], [close]);
  }

  /** An opening bracket in front of what follows it. */
  lemma OpenReads(open: char, x: Cursor, u: string, w: string, slashes: bool)
    requires x.spot == Outside && IsOpen(open)
    requires ReadsValue(u, Cursor(Outside, open, x.depth + 1), "\n" + w, x.depth, slashes)
    ensures ReadsValue([open] + "" + u, x, Lead(x.prev, x.depth) + ([open] + "\n" + w), x.depth, slashes)
  {
    ReadsOne(open, x, slashes);
    assert MoveAll(x, [open]) == Move(x, open);
    ReadsOn([open], u, x, Lead(x.prev, x.depth) + [open], "\n" + w, x.depth, slashes);
    assert [open] + "" == [open];
    Assoc(Lead(x.prev, x.depth), [open], "\n" + w);
    Assoc([open], "\n", w);
  }

  /** A comma, if there is more, and what follows. */
  lemma CommaReads(more: bool, x: Cursor, u: string, w: string, depth: int, slashes: bool)
    requires x.spot == Outside && EndsValue(x.prev)
    requires ReadsValue(u, if more then x.(prev := ',') else x, "\n" + w, depth, slashes)
    ensures ReadsValue(Comma(more) + "" + u, x, Comma(more) + ("\n" + w), depth, slashes)
  {
    if more {
      ReadsOne(',', x, slashes);
      assert MoveAll(x, ",") == Move(x, ',');
      ReadsOn(",", u, x, ",", "\n" + w, depth, slashes);
    } else {
      assert "" + "" + u == u && "" + ("\n" + w) == "\n" + w;
    }
  }

  /** What may stand in front of the items or members that are left. */
  predicate Ready(none: bool, x: Cursor, level: nat) {
    x.spot == Outside && x.depth == level + 1 && if none then EndsValue(x.prev) else IsOpen(x.prev) || x.prev == ','
  }

  lemma ItemGlue(first: string, comma: string, more: string, gap: string, indent: string, first': string, more': string)
    requires gap == "\n" + indent
    ensures first + (comma + "" + more) == "" + first + comma + "" + more
    ensures gap + first' + (comma + ("\n" + more')) == "\n" + (indent + first' + comma + "\n" + more')
  {
  }

  lemma ItemReads(first: string, first': string, more: bool, rest: string, rest': string, level: nat, x: Cursor, slashes: bool)
    requires Ready(false, x, level)
    requires ReadsValue(first, x, Lead(x.prev, x.depth) + first', level + 1, slashes)
    requires ReadsValue(rest, if more then MoveAll(x, first).(prev := ',') else MoveAll(x, first), "\n" + rest', level, slashes)
    ensures ReadsValue("" + first + Comma(more) + "" + rest, x,
                       "\n" + (Indent(level + 1, Pretty(slashes)) + first' + Comma(more) + "\n" + rest'), level, slashes)
  {
    var y := MoveAll(x, first);
    LineBreakIs(level + 1, slashes);
    CommaReads(more, y, rest, rest', level, slashes);
    ReadsOn(first, Comma(more) + "" + rest, x, Lead(x.prev, x.depth) + first', Comma(more) + ("\n" + rest'), level, slashes);
    ItemGlue(first, Comma(more), rest, Lead(x.prev, x.depth), Indent(level + 1, Pretty(slashes)), first', rest');
  }

  /** A name, its colon and its value. */
  lemma PairReads(name: string, value: string, value': string, level: nat, x: Cursor, slashes: bool)
    requires x.spot == Outside && x.depth == level
    requires ReadsValue(value, Cursor(Outside, ':', level), " " + value', level, slashes)
    ensures ReadsValue(PrintName(name, Compact(slashes)) + value, x,
                       Lead(x.prev, x.depth) + (PrintName(name, Pretty(slashes)) + value'), level, slashes)
  {
    var quoted := Quote(name, slashes);
    QuoteReads(name, x, slashes);
    var y := MoveAll(x, quoted);
    ReadsOne(':', y, slashes);
    assert MoveAll(y, ":") == Move(y, ':');
    ReadsOn(":", value, y, ":", " " + value', level, slashes);
    ReadsOn(quoted, ":" + value, x, Lead(x.prev, x.depth) + quoted, ":" + (" " + value'), level, slashes);
    PairGlue(quoted, value, Lead(x.prev, x.depth), value');
  }

  lemma PairGlue(quoted: string, value: string, gap: string, value': string)
    ensures quoted + (":" + value) == quoted + ":" + "" + value
    ensures gap + quoted + (":" + (" " + value')) == gap + (quoted + ":" + " " + value')
  {
  }

  /** The pretty form is the compact form with its gaps, and the compact form is tight. */
  lemma {:induction false} ValueReads(v: Value, level: nat, num: Numbers, x: Cursor, slashes: bool)
    requires WellFormed(v, num) && Faithful(num) && x.spot == Outside && x.depth == level
    ensures ReadsValue(Print(v, level, Compact(slashes), num), x,
                       Lead(x.prev, level) + Print(v, level, Pretty(slashes), num), level, slashes)
    decreases v
  {
    match v
    case Null => FlatReads("null", x, slashes);
    case Boolean(b) => FlatReads(if b then "true" else "false", x, slashes);
    case Number(n) =>
      assert num.double(n);
      FlatReads(num.format(n), x, slashes);
    case String(s) => QuoteReads(s, x, slashes);
    case Array(items) =>
      if items == [] {
        EmptyReads('[', ']', x, slashes);
      } else {
        ItemsRead(items, level, num, Cursor(Outside, '[', level + 1), slashes);
        OpenReads('[', x, PrintItems(items, level, Compact(slashes), num), PrintItems(items, level, Pretty(slashes), num), slashes);
      }
    case Object(ms) =>
      if ms == [] {
        EmptyReads('{', '}', x, slashes);
      } else {
        MembersRead(ms, level, num, Cursor(Outside, '{', level + 1), slashes);
        OpenReads('{', x, PrintMembers(ms, level, Compact(slashes), num), PrintMembers(ms, level, Pretty(slashes), num), slashes);
      }
  }

  lemma {:induction false} ItemsRead(items: seq<Value>, level: nat, num: Numbers, x: Cursor, slashes: bool)
    requires Faithful(num) && (forall v | v in items :: WellFormed(v, num)) && Ready(items == [], x, level)
    ensures ReadsValue(PrintItems(items, level, Compact(slashes), num), x,
                       "\n" + PrintItems(items, level, Pretty(slashes), num), level, slashes)
    decreases items
  {
    if items == [] {
      CloseReads(']', level, x, slashes);
    } else {
      var first := Print(items[0], level + 1, Compact(slashes), num);
      var y, more := MoveAll(x, first), |items| > 1;
      ValueReads(items[0], level + 1, num, x, slashes);
      ItemsRead(items[1..], level, num, if more then y.(prev := ',') else y, slashes);
      ItemReads(first, Print(items[0], level + 1, Pretty(slashes), num), more, PrintItems(items[1..], level, Compact(slashes), num),
                PrintItems(items[1..], level, Pretty(slashes), num), level, x, slashes);
    }
  }

  lemma {:induction false} MembersRead(ms: seq<Member>, level: nat, num: Numbers, x: Cursor, slashes: bool)
    requires Faithful(num) && (forall m | m in ms :: WellFormed(m.value, num)) && Ready(ms == [], x, level)
    ensures ReadsValue(PrintMembers(ms, level, Compact(slashes), num), x,
                       "\n" + PrintMembers(ms, level, Pretty(slashes), num), level, slashes)
    decreases ms
  {
    if ms == [] {
      CloseReads('}', level, x, slashes);
    } else {
      var c, p := Compact(slashes), Pretty(slashes);
      var value, value' := Print(ms[0].value, level + 1, c, num), Print(ms[0].value, level + 1, p, num);
      var first, first' := PrintName(ms[0].name, c) + value, PrintName(ms[0].name, p) + value';
      var y, more := MoveAll(x, first), |ms| > 1;
      ValueReads(ms[0].value, level + 1, num, Cursor(Outside, ':', level + 1), slashes);
      PairReads(ms[0].name, value, value', level + 1, x, slashes);
      MembersRead(ms[1..], level, num, if more then y.(prev := ',') else y, slashes);
      ItemReads(first, first', more, PrintMembers(ms[1..], level, c, num), PrintMembers(ms[1..], level, p, num), level, x, slashes);
      MemberGlue(PrintName(ms[0].name, c), value, Comma(more), PrintMembers(ms[1..], level, c, num));
      MemberGlue'(Indent(level + 1, p), PrintName(ms[0].name, p), value', Comma(more), PrintMembers(ms[1..], level, p, num));
    }
  }

  lemma MemberGlue(name: string, value: string, comma: string, rest: string)
    ensures "" + (name + value) + comma + "" + rest == "" + name + value + comma + "" + rest
  {
  }

  lemma MemberGlue'(indent: string, name: string, value: string, comma: string, rest: string)
    ensures indent + (name + value) + comma + "\n" + rest == indent + name + value + comma + "\n" + rest
  {
  }

  // ---------------------------------------------------------------------------------------------
  // The laws of the layout

  /** The compact form has no white space outside strings. */
  lemma CompactIsTight(v: Value, slashes: bool, num: Numbers, k: nat)
    requires WellFormed(v, num) && Faithful(num)
    ensures var t := Print(v, 0, Style(false, slashes), num);
            k < |t| && SpotAt(t, k, Outside) == Outside ==> !IsSpace(t[k])
  {
    ValueReads(v, 0, num, START, slashes);
    TightMeans(Print(v, 0, Style(false, slashes), num), Outside);
  }

  /**
   * The pretty form is the compact form with the gaps in it; and without its white space outside strings it is the
   * compact form again, so that its layout is known from its own text.
   */
  lemma PrettyIsSpaced(v: Value, slashes: bool, num: Numbers)
    requires WellFormed(v, num) && Faithful(num)
    ensures var compact, pretty := Print(v, 0, Style(false, slashes), num), Print(v, 0, Style(true, slashes), num);
            pretty == Spaced(compact, START) && compact == Squeezed(pretty, Outside) &&
            pretty == Spaced(Squeezed(pretty, Outside), START)
  {
    ValueReads(v, 0, num, START, slashes);
    var compact := Print(v, 0, Style(false, slashes), num);
    SqueezedSpaced(compact, START, slashes);
    SqueezedTight(compact, Outside);
  }

  /** With parson_escape_slashes every slash in a string stands behind a backslash of its own, and without it none does; there are no others. */
  lemma SlashesAreEscaped(v: Value, st: Style, num: Numbers, k: nat)
    requires WellFormed(v, num) && Faithful(num)
    ensures var t := Print(v, 0, st, num);
            k < |t| && t[k] == '/' ==> SpotAt(t, k, Outside) == if st.slashes then Escaped else Inside
  {
    ValueReads(v, 0, num, START, st.slashes);
    PrettyIsSpaced(v, st.slashes, num);
    SqueezedSpaced(Print(v, 0, Style(false, st.slashes), num), START, st.slashes);
    var t := Print(v, 0, st, num);
    assert st == Style(false, st.slashes) || st == Style(true, st.slashes);
    if k < |t| && t[k] == '/' {
      SlashesMean(t, Outside, st.slashes, k);
    }
  }

  /** What an array with one item looks like in either form. */
  lemma {:induction false} OneItemLooksLike(num: Numbers)
    ensures Print(Array([Null]), 0, Style(false, false), num) == "[null]"
    ensures Print(Array([Null]), 0, Style(true, false), num) == "[\n    null\n]"
  {
    assert [Null][1..] == [];
    assert Spaces(1) == "    " + Spaces(0);
  }
}
