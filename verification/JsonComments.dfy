/** The comment stripper of parson.c, and the comment-tolerant parser on serialised text. */
module JsonComments {
  import opened CText
  import opened Common
  import opened JsonString
  import opened JsonValue
  import opened JsonPrint
  import opened JsonParse
  import opened JsonGrammar
  import opened JsonRoundTrip

  function Blanks(n: nat): (s: string)
    ensures |s| == n && forall c | c in s :: c == ' '
  {
    seq(n, _ => ' ')
  }

  /** strstr: where p first occurs in u, before any NUL. */
  function Find(u: string, p: string): (r: Option<nat>)
    requires p != ""
    ensures r.Some? ==> r.value + |p| <= |u|
  {
    if p <= u then Some(0)
    else if u == "" || u[0] == NUL then None
    else
      match Find(u[1..], p)
      case None => None
      case Some(k) => Some(k + 1)
  }

  lemma {:induction false} FindIsFirst(u: string, p: string, k: nat)
    requires p != ""
    ensures Find(u, p) == Some(k) <==>
            k <= |u| && p <= u[k..] && NUL !in u[..k] && forall j | 0 <= j < k :: !(p <= u[j..])
    decreases k
  {
    if k > 0 && u != "" {
      FindIsFirst(u[1..], p, k - 1);
      assert k <= |u| ==> u[1..][k - 1..] == u[k..] && u[..k] == [u[0]] + u[1..][..k - 1];
      assert forall j | 0 <= j < k - 1 && j + 1 <= |u| :: u[1..][j..] == u[j + 1..];
      if k <= |u| && p <= u[k..] && NUL !in u[..k] && forall j | 0 <= j < k :: !(p <= u[j..]) {
        assert !(p <= u[0..]) && u[0..] == u;
      }
      if Find(u, p) == Some(k) {
        assert !(p <= u);
        forall j | 0 <= j < k ensures !(p <= u[j..]) {
          if j > 0 {
            assert u[1..][j - 1..] == u[j..];
          }
        }
      }
    }
  }

  /** The length of the comment that u starts with, if it is closed. */
  function CommentLength(u: string, open: string, close: string): (r: Option<nat>)
    requires close != "" && open <= u
    ensures r.Some? ==> |open| + |close| <= r.value <= |u|
  {
    match Find(u[|open|..], close)
    case None => None
    case Some(p) => Some(|open| + p + |close|)
  }

  /** What remove_comments makes of the rest of a text, given the two flags of its scan. */
  function Strip(u: string, inString: bool, escaped: bool, open: string, close: string): (r: string)
    requires open != "" && close != ""
    ensures |r| == |u|
    decreases |u|
  {
    if u == "" || u[0] == NUL then u
    else if u[0] == '\\' && !escaped then [u[0]] + Strip(u[1..], inString, true, open, close)
    else if u[0] == '"' && !escaped then [u[0]] + Strip(u[1..], !inString, false, open, close)
    else if !inString && open <= u then
      match CommentLength(u, open, close)
      case None => Blanks(|open|) + u[|open|..]
      case Some(n) => Blanks(n) + Strip(u[n..], inString, false, open, close)
    else [u[0]] + Strip(u[1..], inString, false, open, close)
  }

  method FindText(a: array<char>, i: nat, p: string) returns (r: Option<nat>)
    requires i <= a.Length && p != ""
    ensures match Find(a[i..], p)
            case None => r == None
            case Some(k) => r == Some(i + k)
  {
    var k := i;
    while k < a.Length && a[k] != NUL && !(p <= a[k..])
      invariant i <= k <= a.Length
      invariant match Find(a[k..], p)
                case None => Find(a[i..], p) == None
                case Some(d) => Find(a[i..], p) == Some(k - i + d)
      decreases a.Length - k
    {
      assert a[k..][1..] == a[k + 1..];
      k := k + 1;
    }
    r := if p <= a[k..] then Some(k) else None;
  }

  method Overwrite(a: array<char>, from: nat, to: nat)
    requires from <= to <= a.Length
    modifies a
    ensures a[..] == old(a[..from]) + Blanks(to - from) + old(a[to..])
  {
    for i := from to to
      invariant forall k | from <= k < i :: a[k] == ' '
      invariant forall k | 0 <= k < a.Length && !(from <= k < i) :: a[k] == old(a[k])
    {
      a[i] := ' ';
    }
  }

  lemma BlankedTwice(t: string, pos: nat, body: nat, end: nat)
    requires pos <= body <= end <= |t|
    ensures var t1 := t[..pos] + Blanks(body - pos) + t[body..];
            t1[body..] == t[body..] && t1[..body] + Blanks(end - body) + t1[end..] == t[..pos] + Blanks(end - pos) + t[end..]
  {
    assert Blanks(end - pos) == Blanks(body - pos) + Blanks(end - body);
  }

  /** A comment that starts at pos is blanked: all of it, or only its opening when it is never closed. */
  method BlankComment(a: array<char>, pos: nat, open: string, close: string) returns (next: Option<nat>)
    requires pos < a.Length && open != "" && close != "" && open <= a[pos..]
    modifies a
    ensures var t := old(a[..]);
            match CommentLength(t[pos..], open, close)
            case None => next == None && a[..] == t[..pos] + Blanks(|open|) + t[pos + |open|..]
            case Some(n) =>
              next == Some(pos + n) && a[..] == t[..pos] + Blanks(n) + t[pos + n..]
  {
    ghost var t := a[..];
    var body := pos + |open|;
    Overwrite(a, pos, body);
    BlankedTwice(t, pos, body, body);
    assert a[body..] == a[..][body..] && t[body..] == t[pos..][|open|..];
    var found := FindText(a, body, close);
    if found == None {
      return None;
    }
    var end := found.value + |close|;
    BlankedTwice(t, pos, body, end);
    Overwrite(a, body, end);
    return Some(end);
  }

  /** What becomes of the rest of a text once the scan has stopped, or as long as it has not. */
  function Remaining(stop: bool, u: string, inString: bool, escaped: bool, open: string, close: string): string
    requires open != "" && close != ""
  {
    if stop then u else Strip(u, inString, escaped, open, close)
  }

  /** The loop body of remove_comments; stop says that the scan met a comment that is never closed. */
  method StripRound(a: array<char>, pos: nat, inString: bool, escaped: bool, open: string, close: string)
    returns (stop: bool, next: nat, inString': bool, escaped': bool)
    requires pos < a.Length && a[pos] != NUL && open != "" && close != ""
    modifies a
    ensures pos < next <= a.Length && a[..pos] == old(a[..pos])
    ensures old(Strip(a[pos..], inString, escaped, open, close)) ==
            a[pos..next] + Remaining(stop, a[next..], inString', escaped', open, close)
  {
    ghost var u := a[pos..];
    assert u[0] == a[pos] && u[1..] == a[pos + 1..] && a[pos..pos + 1] == [u[0]];
    if a[pos] == '\\' && !escaped {
      return false, pos + 1, inString, true;
    } else if a[pos] == '"' && !escaped {
      return false, pos + 1, !inString, false;
    } else if !inString && open <= a[pos..] {
      stop, next := StripComment(a, pos, open, close);
      return stop, next, inString, false;
    } else {
      return false, pos + 1, inString, false;
    }
  }

  method StripComment(a: array<char>, pos: nat, open: string, close: string) returns (stop: bool, next: nat)
    requires pos < a.Length && open != "" && close != "" && open <= a[pos..]
    modifies a
    ensures pos < next <= a.Length && a[..pos] == old(a[..pos])
    ensures var u := old(a[pos..]);
            match CommentLength(u, open, close)
            case None => stop && next == a.Length && a[pos..] == Blanks(|open|) + u[|open|..]
            case Some(n) =>
              !stop && next == pos + n && a[pos..next] == Blanks(n) && a[next..] == u[n..]
  {
    ghost var t, u := a[..], a[pos..];
    assert u[|open|..] == t[pos + |open|..];
    var end := BlankComment(a, pos, open, close);
    if end == None {
      return true, a.Length;
    }
    assert t[end.value..] == u[end.value - pos..];
    return false, end.value;
  }

  /** One round, seen from the whole text. */
  method StripNext(a: array<char>, pos: nat, inString: bool, escaped: bool, open: string, close: string, ghost whole: string)
    returns (stop: bool, next: nat, inString': bool, escaped': bool)
    requires pos < a.Length && a[pos] != NUL && open != "" && close != ""
    requires whole == a[..pos] + Strip(a[pos..], inString, escaped, open, close)
    modifies a
    ensures pos < next <= a.Length
    ensures whole == a[..next] + Remaining(stop, a[next..], inString', escaped', open, close)
  {
    ghost var done := a[..pos];
    stop, next, inString', escaped' := StripRound(a, pos, inString, escaped, open, close);
    assert a[..next] == done + a[pos..next];
    Assoc(done, a[pos..next], Remaining(stop, a[next..], inString', escaped', open, close));
  }

  lemma NothingLeft(u: string, stop: bool, inString: bool, escaped: bool, open: string, close: string)
    requires open != "" && close != "" && (stop || u == "" || u[0] == NUL)
    ensures Remaining(stop, u, inString, escaped, open, close) == u
  {
  }

  /** The loop of remove_comments. */
  method StripAll(a: array<char>, open: string, close: string)
    requires open != "" && close != ""
    modifies a
    ensures a[..] == Strip(old(a[..]), false, false, open, close)
  {
    ghost var whole := Strip(a[..], false, false, open, close);
    var pos, inString, escaped, stop := 0, false, false, false;
    assert a[0..] == a[..] && a[..0] + whole == whole;
    while !stop && pos < a.Length && a[pos] != NUL
      invariant 0 <= pos <= a.Length
      invariant whole == a[..pos] + Remaining(stop, a[pos..], inString, escaped, open, close)
      decreases a.Length - pos
    {
      stop, pos, inString, escaped := StripNext(a, pos, inString, escaped, open, close, whole);
    }
    NothingLeft(a[pos..], stop, inString, escaped, open, close);
    assert a[..] == a[..pos] + a[pos..];
  }

  /** remove_comments, in place. */
  method RemoveComments(a: array<char>, open: string, close: string)
    modifies a
    ensures open == "" || close == "" ==> a[..] == old(a[..])
    ensures open != "" && close != "" ==> a[..] == Strip(old(a[..]), false, false, open, close)
  {
    if open == "" || close == "" {
      return;
    }
    StripAll(a, open, close);
  }

  // ---------------------------------------------------------------------------------------------
  // What the stripper changes

  /** Every byte is kept or becomes a blank. */
  lemma {:induction false} StripOnlyBlanks(u: string, inString: bool, escaped: bool, open: string, close: string, k: nat)
    requires open != "" && close != "" && k < |u|
    ensures var r := Strip(u, inString, escaped, open, close); r[k] == u[k] || r[k] == ' '
    decreases |u|
  {
    if u[0] != NUL {
      if u[0] == '\\' && !escaped {
        if k > 0 { StripOnlyBlanks(u[1..], inString, true, open, close, k - 1); }
      } else if u[0] == '"' && !escaped {
        if k > 0 { StripOnlyBlanks(u[1..], !inString, false, open, close, k - 1); }
      } else if !inString && open <= u {
        var found := CommentLength(u, open, close);
        if found.Some? {
          var n := found.value;
          if k >= n { StripOnlyBlanks(u[n..], inString, false, open, close, k - n); }
        }
      } else {
        if k > 0 { StripOnlyBlanks(u[1..], inString, false, open, close, k - 1); }
      }
    }
  }

  /**
   * The flags after scanning p, or None when the scan meets a NUL, or a slash outside strings, where a comment might
   * start.
   */
  function Scan(p: string, inString: bool, escaped: bool): Option<(bool, bool)> {
    if p == "" then Some((inString, escaped))
    else if p[0] == NUL then None
    else if p[0] == '\\' && !escaped then Scan(p[1..], inString, true)
    else if p[0] == '"' && !escaped then Scan(p[1..], !inString, false)
    else if !inString && p[0] == '/' then None
    else Scan(p[1..], inString, false)
  }

  /** Text in which no comment can start is left alone, and hands its flags to what follows. */
  lemma {:induction false} StripKeepsQuiet(
      p: string, q: string, inString: bool, escaped: bool, open: string, close: string)
    requires open != "" && close != "" && open[0] == '/' && Scan(p, inString, escaped).Some?
    ensures var (s, e) := Scan(p, inString, escaped).value;
            Strip(p + q, inString, escaped, open, close) == p + Strip(q, s, e, open, close)
    decreases |p|
  {
    if p == "" {
      assert p + q == q;
    } else {
      assert (p + q)[1..] == p[1..] + q;
      var (s', e') :=
        if p[0] == '\\' && !escaped then (inString, true)
        else if p[0] == '"' && !escaped then (!inString, false)
        else (inString, false);
      StripKeepsQuiet(p[1..], q, s', e', open, close);
      assert [p[0]] + p[1..] == p;
      assert [p[0]] + (p[1..] + Strip(q, Scan(p, inString, escaped).value.0, Scan(p, inString, escaped).value.1, open, close)) ==
             p + Strip(q, Scan(p, inString, escaped).value.0, Scan(p, inString, escaped).value.1, open, close);
    }
  }

  /** A closed comment outside strings becomes blanks, and the scan goes on behind it. */
  lemma StripRemovesComment(p: string, comment: string, q: string, open: string, close: string)
    requires open != "" && close != "" && open[0] == '/' && Scan(p, false, false) == Some((false, false))
    requires open <= comment && CommentLength(comment + q, open, close) == Some(|comment|)
    ensures Strip(p + (comment + q), false, false, open, close) ==
            p + (Blanks(|comment|) + Strip(q, false, false, open, close))
  {
    StripKeepsQuiet(p, comment + q, false, false, open, close);
    assert (comment + q)[0] == open[0] && (comment + q)[|comment|..] == q;
  }

  // ---------------------------------------------------------------------------------------------
  // Serialised text has no comments

  lemma {:induction false} ScanConcat(p: string, q: string, inString: bool, escaped: bool)
    requires Scan(p, inString, escaped).Some?
    ensures var (s, e) := Scan(p, inString, escaped).value; Scan(p + q, inString, escaped) == Scan(q, s, e)
    decreases |p|
  {
    if p == "" {
      assert p + q == q;
    } else {
      assert (p + q)[1..] == p[1..] + q;
      if p[0] == '\\' && !escaped {
        ScanConcat(p[1..], q, inString, true);
      } else if p[0] == '"' && !escaped {
        ScanConcat(p[1..], q, !inString, false);
      } else {
        ScanConcat(p[1..], q, inString, false);
      }
    }
  }

  /** Text that leaves the scan outside strings, without having met a slash or NUL there. */
  predicate Quiet(p: string) {
    Scan(p, false, false) == Some((false, false))
  }

  lemma QuietConcat(p: string, q: string)
    requires Quiet(p) && Quiet(q)
    ensures Quiet(p + q)
  {
    ScanConcat(p, q, false, false);
  }

  lemma {:induction false} PlainIsQuiet(p: string)
    requires IsPlain(p)
    ensures Quiet(p)
  {
    if p != "" {
      assert p[0] in p && forall c | c in p[1..] :: c in p;
      PlainIsQuiet(p[1..]);
    }
  }

  lemma {:induction false} ScanInside(p: string)
    requires forall k | 0 <= k < |p| :: p[k] != '"' && p[k] != '\\' && p[k] != NUL
    ensures Scan(p, true, false) == Some((true, false))
  {
    if p != "" {
      ScanInside(p[1..]);
    }
  }

  /** An escape leaves the scan inside the string. */
  lemma ScanEscapeChar(c: char, slashes: bool)
    ensures Scan(EscapeChar(c, slashes), true, false) == Some((true, false))
  {
    var e := EscapeChar(c, slashes);
    if |e| > 1 {
      assert e[1..][1..] == e[2..] && e[1] != NUL;
      ScanInside(e[2..]);
      assert Scan(e[1..], true, true) == Scan(e[2..], true, false);
    }
  }

  lemma {:induction false} ScanEscapeBody(s: string, slashes: bool)
    ensures Scan(EscapeBody(s, slashes), true, false) == Some((true, false))
  {
    if s != "" {
      ScanEscapeChar(s[0], slashes);
      ScanEscapeBody(s[1..], slashes);
      ScanConcat(EscapeChar(s[0], slashes), EscapeBody(s[1..], slashes), true, false);
    }
  }

  lemma QuoteIsQuiet(s: string, slashes: bool)
    ensures Quiet(Quote(s, slashes))
  {
    var body := EscapeBody(s, slashes);
    ScanEscapeBody(s, slashes);
    ScanConcat(body, "\"", true, false);
    assert Quote(s, slashes) == "\"" + (body + "\"");
    assert Quote(s, slashes)[1..] == body + "\"";
  }

  lemma SpacesArePlain(level: nat, st: Style)
    ensures IsPlain(Indent(level, st)) && IsPlain(Newline(st))
  {
  }

  lemma {:induction false} PrintIsQuiet(v: Value, level: nat, st: Style, num: Numbers)
    requires WellFormed(v, num) && Faithful(num)
    ensures Quiet(Print(v, level, st, num))
    decreases v
  {
    SpacesArePlain(level, st);
    match v
    case Null => PlainIsQuiet("null");
    case Boolean(b) => PlainIsQuiet(if b then "true" else "false");
    case Number(n) =>
      assert num.double(n);
      assert forall c | c in num.format(n) :: IsNumberByte(c);
      PlainIsQuiet(num.format(n));
    case String(s) => QuoteIsQuiet(s, st.slashes);
    case Array(items) =>
      if items == [] {
        PlainIsQuiet("[]");
      } else {
        PrintItemsIsQuiet(items, level, st, num);
        PlainIsQuiet("[" + Newline(st));
        QuietConcat("[" + Newline(st), PrintItems(items, level, st, num));
      }
    case Object(ms) =>
      if ms == [] {
        PlainIsQuiet("{}");
      } else {
        PrintMembersIsQuiet(ms, level, st, num);
        PlainIsQuiet("{" + Newline(st));
        QuietConcat("{" + Newline(st), PrintMembers(ms, level, st, num));
      }
  }

  lemma {:induction false} PrintItemsIsQuiet(items: seq<Value>, level: nat, st: Style, num: Numbers)
    requires Faithful(num) && forall x | x in items :: WellFormed(x, num)
    ensures Quiet(PrintItems(items, level, st, num))
    decreases items
  {
    SpacesArePlain(level, st);
    SpacesArePlain(level + 1, st);
    if items == [] {
      PlainIsQuiet(Indent(level, st) + "]");
    } else {
      PrintIsQuiet(items[0], level + 1, st, num);
      PrintItemsIsQuiet(items[1..], level, st, num);
      QuietPieces(Indent(level + 1, st), Print(items[0], level + 1, st, num), Comma(|items| > 1), Newline(st),
                  PrintItems(items[1..], level, st, num));
    }
  }

  lemma {:induction false} PrintMembersIsQuiet(ms: seq<Member>, level: nat, st: Style, num: Numbers)
    requires Faithful(num) && forall m | m in ms :: WellFormed(m.value, num)
    ensures Quiet(PrintMembers(ms, level, st, num))
    decreases ms
  {
    SpacesArePlain(level, st);
    SpacesArePlain(level + 1, st);
    if ms == [] {
      PlainIsQuiet(Indent(level, st) + "}");
    } else {
      PrintIsQuiet(ms[0].value, level + 1, st, num);
      PrintMembersIsQuiet(ms[1..], level, st, num);
      NameIsQuiet(ms[0].name, level + 1, st);
      QuietTail(Indent(level + 1, st) + PrintName(ms[0].name, st), Print(ms[0].value, level + 1, st, num),
                Comma(|ms| > 1), Newline(st), PrintMembers(ms[1..], level, st, num));
    }
  }

  lemma NameIsQuiet(name: string, level: nat, st: Style)
    ensures Quiet(Indent(level, st) + PrintName(name, st))
  {
    var colon := ":" + if st.pretty then " " else "";
    SpacesArePlain(level, st);
    PlainIsQuiet(Indent(level, st));
    QuoteIsQuiet(name, st.slashes);
    PlainIsQuiet(colon);
    QuietConcat(Quote(name, st.slashes), colon);
    assert PrintName(name, st) == Quote(name, st.slashes) + colon;
    QuietConcat(Indent(level, st), PrintName(name, st));
  }

  lemma QuietPieces(indent: string, first: string, comma: string, newline: string, more: string)
    requires IsPlain(indent) && IsPlain(comma) && IsPlain(newline) && Quiet(first) && Quiet(more)
    ensures Quiet(indent + first + comma + newline + more)
  {
    PlainIsQuiet(indent);
    QuietTail(indent, first, comma, newline, more);
  }

  lemma QuietTail(head: string, first: string, comma: string, newline: string, more: string)
    requires IsPlain(comma) && IsPlain(newline) && Quiet(head) && Quiet(first) && Quiet(more)
    ensures Quiet(head + first + comma + newline + more)
  {
    PlainIsQuiet(comma);
    PlainIsQuiet(newline);
    QuietConcat(head, first);
    QuietConcat(head + first, comma);
    QuietConcat(head + first + comma, newline);
    QuietConcat(head + first + comma + newline, more);
  }

  // ---------------------------------------------------------------------------------------------
  // The comment-tolerant parser

  /** json_parse_string_with_comments, on a text without NULs. */
  function ParseWithComments(t: string, num: Numbers): Option<Value> {
    var u := Strip(Strip(t, false, false, "/*", "*/"), false, false, "//", "\n");
    match ParseValue(u, 0, 0, num)
    case None => None
    case Some((v, _)) => Some(v)
  }

  /** Neither pass changes serialised text, whatever its strings contain. */
  lemma StripKeepsPrint(v: Value, st: Style, num: Numbers, open: string, close: string)
    requires WellFormed(v, num) && Faithful(num) && open != "" && close != "" && open[0] == '/'
    ensures Strip(Print(v, 0, st, num), false, false, open, close) == Print(v, 0, st, num)
  {
    var p := Print(v, 0, st, num);
    PrintIsQuiet(v, 0, st, num);
    StripKeepsQuiet(p, "", false, false, open, close);
    assert p + "" == p;
  }

  /** The comment-tolerant parser inverts the serialiser on the same trees as the plain one. */
  lemma ParseWithCommentsUndoesPrint(v: Value, st: Style, num: Numbers)
    requires WellFormed(v, num) && Faithful(num)
    ensures ParseWithComments(Print(v, 0, st, num), num) == if Height(v) <= 2048 then Some(v) else None
  {
    StripKeepsPrint(v, st, num, "/*", "*/");
    StripKeepsPrint(v, st, num, "//", "\n");
    ParseUndoesPrint(v, st, num);
    PrintStart(v, 0, st, num);
  }

  // ---------------------------------------------------------------------------------------------
  // Comments are white space

  /** A comment that is never closed loses its opening token, and nothing else changes from there on. */
  lemma StripStopsAtUnclosed(p: string, u: string, open: string, close: string)
    requires open != "" && close != "" && open[0] == '/' && Scan(p, false, false) == Some((false, false))
    requires open <= u && CommentLength(u, open, close) == None
    ensures Strip(p + u, false, false, open, close) == p + (Blanks(|open|) + u[|open|..])
  {
    StripKeepsQuiet(p, u, false, false, open, close);
    assert u[0] == open[0];
  }

  /** Text between the tokens of a comment, in which the closing token does not begin. */
  predicate Commented(body: string, close: string) {
    NUL !in body && forall k | 0 <= k < |body| :: !(close <= body[k..] + close)
  }

  lemma {:induction false} FindBehind(body: string, close: string, q: string)
    requires close != "" && Commented(body, close)
    ensures Find(body + close + q, close) == Some(|body|)
  {
    var u := body + close + q;
    assert u[|body|..] == close + q && close <= close + q;
    assert u[..|body|] == body;
    forall j | 0 <= j < |body| ensures !(close <= u[j..]) {
      assert u[j..] == body[j..] + close + q;
    }
    FindIsFirst(u, close, |body|);
  }

  lemma LengthOfComment(open: string, body: string, close: string, q: string)
    requires close != "" && Commented(body, close)
    ensures open <= open + body + close + q
    ensures CommentLength(open + body + close + q, open, close) == Some(|open + body + close|)
  {
    var u := open + body + close + q;
    assert u[..|open|] == open && u[|open|..] == body + close + q;
    FindBehind(body, close, q);
  }

  /** One pass over a text with a comment of its own kind outside strings. */
  lemma StripBlanksComment(p: string, open: string, body: string, close: string, q: string)
    requires open != "" && close != "" && open[0] == '/' && Quiet(p) && Commented(body, close)
    ensures Strip(p + (open + body + close + q), false, false, open, close) ==
            p + (Blanks(|open + body + close|) + Strip(q, false, false, open, close))
  {
    LengthOfComment(open, body, close, q);
    StripRemovesComment(p, open + body + close, q, open, close);
  }

  lemma BlanksAreQuiet(n: nat)
    ensures Quiet(Blanks(n))
  {
    PlainIsQuiet(Blanks(n));
  }

  lemma StripKeepsBlanks(p: string, n: nat, q: string, open: string, close: string)
    requires open != "" && close != "" && open[0] == '/' && Quiet(p)
    ensures Strip(p + (Blanks(n) + q), false, false, open, close) == p + (Blanks(n) + Strip(q, false, false, open, close))
  {
    BlanksAreQuiet(n);
    StripKeepsQuiet(p, Blanks(n) + q, false, false, open, close);
    StripKeepsQuiet(Blanks(n), q, false, false, open, close);
  }

  /** To the comment-tolerant parser a block comment is as many blanks. */
  lemma BlockCommentIsBlank(p: string, body: string, q: string, num: Numbers)
    requires Quiet(p) && Commented(body, "*/")
    ensures ParseWithComments(p + ("/*" + body + "*/" + q), num) == ParseWithComments(p + (Blanks(|body| + 4) + q), num)
  {
    StripBlanksComment(p, "/*", body, "*/", q);
    assert |"/*" + body + "*/"| == |body| + 4;
    StripKeepsBlanks(p, |body| + 4, q, "/*", "*/");
  }

  lemma SlashesPass(rest: string)
    requires rest != "" && rest[0] != '*' && rest[0] != '/'
    ensures Strip("//" + rest, false, false, "/*", "*/") == "//" + Strip(rest, false, false, "/*", "*/")
  {
    var u := "//" + rest;
    assert u[1..] == "/" + rest && u[1..][1..] == rest;
    assert "/*"[1] == '*' && u[1] == '/' && u[1..][1] == rest[0];
    assert !("/*" <= u) && !("/*" <= u[1..]);
    assert ['/'] + (['/'] + Strip(rest, false, false, "/*", "*/")) == "//" + Strip(rest, false, false, "/*", "*/");
  }

  lemma {:induction false} LinePasses(p: string, line: string, q: string)
    requires Quiet(p) && Quiet(line) && line != "" && line[0] != '*' && line[0] != '/'
    ensures Strip(p + ("//" + (line + q)), false, false, "/*", "*/") ==
            p + ("//" + (line + Strip(q, false, false, "/*", "*/")))
  {
    StripKeepsQuiet(p, "//" + (line + q), false, false, "/*", "*/");
    SlashesPass(line + q);
    StripKeepsQuiet(line, q, false, false, "/*", "*/");
  }

  /** The first pass leaves a line comment alone in which no string and no comment starts. */
  lemma {:induction false} LineCommentPasses(p: string, body: string, q: string)
    requires Quiet(p) && Quiet(body + "\n") && (body != "" ==> body[0] != '*')
    ensures Strip(p + ("//" + body + "\n" + q), false, false, "/*", "*/") ==
            p + ("//" + body + "\n" + Strip(q, false, false, "/*", "*/"))
  {
    var line, q' := body + "\n", Strip(q, false, false, "/*", "*/");
    assert "//" + body + "\n" + q == "//" + (line + q);
    assert "//" + body + "\n" + q' == "//" + (line + q');
    LinePasses(p, line, q);
  }

  /** And a line comment is as many blanks, its line break included. */
  lemma LineCommentIsBlank(p: string, body: string, q: string, num: Numbers)
    requires Quiet(p) && Quiet(body + "\n") && (body != "" ==> body[0] != '*') && Commented(body, "\n")
    ensures ParseWithComments(p + ("//" + body + "\n" + q), num) == ParseWithComments(p + (Blanks(|body| + 3) + q), num)
  {
    var q' := Strip(q, false, false, "/*", "*/");
    LineCommentPasses(p, body, q);
    StripBlanksComment(p, "//", body, "\n", q');
    assert |"//" + body + "\n"| == |body| + 3;
    StripKeepsBlanks(p, |body| + 3, q, "/*", "*/");
    StripKeepsBlanks(p, |body| + 3, q', "//", "\n");
  }
}
