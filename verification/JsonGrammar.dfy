/**
 * The texts that stand for a value, stated without the parser, and the proof that the parser accepts just those: with the
 * one value they stand for.
 */
module JsonGrammar {
  import opened CText
  import opened Common
  import opened JsonString
  import opened JsonStringGrammar
  import opened JsonValue
  import opened JsonPrint
  import opened JsonParse

  /** Where strings stand, and for what: a rule that the grammar of values leaves open, as it does the numbers. */
  type StringRule = (string, nat, nat, string) -> bool

  predicate FollowsAt(str: StringRule, t: string, i: nat, e: nat, s: string) {
    i <= |t| ==> (QuotedString(t, i) == Some((s, e)) <==> str(t, i, e, s))
  }

  /** The rule finds the strings that parson's scanner finds. */
  ghost predicate ScannerFollows(str: StringRule) {
    forall t: string, i: nat, e: nat, s: string :: FollowsAt(str, t, i, e, s)
  }

  lemma ScannerFollowsTheGrammar()
    ensures ScannerFollows(StringAt)
  {
    forall t: string, i: nat, e: nat, s: string ensures FollowsAt(StringAt, t, i, e, s) {
      if i <= |t| {
        QuotedStringIsGrammatical(t, i, e, s);
      }
    }
  }

  lemma StringIsScanned(t: string, i: nat, e: nat, s: string, str: StringRule)
    requires ScannerFollows(str) && i <= |t|
    ensures QuotedString(t, i) == Some((s, e)) <==> str(t, i, e, s)
    ensures str(t, i, e, s) ==> i < e <= |t| && t[i] == '"'
  {
    assert FollowsAt(str, t, i, e, s);
  }

  /**
   * The bytes of t from i up to e stand for v: the grammar of RFC 8259, sections 2 to 7, with white space allowed inside
   * but not in front. Numbers are what the C library scans, strings what the rule says.
   */
  ghost predicate Denotes(t: string, i: nat, e: nat, v: Value, num: Numbers, str: StringRule)
    decreases v
  {
    i < |t| && i <= e <= |t| &&
    match v
    case Null => StartsWith(t, i, NULL_TOKEN) && e == i + 4
    case Boolean(b) => if b then StartsWith(t, i, TRUE_TOKEN) && e == i + 4 else StartsWith(t, i, FALSE_TOKEN) && e == i + 5
    case Number(n) => IsNumberStart(t[i]) && ScanNumber(t, i, num) == Some((n, e))
    case String(s) => str(t, i, e, s)
    case Array(items) =>
      var j := SkipSpaces(t, i + 1);
      t[i] == '[' && if items == [] then At(t, j) == ']' && e == j + 1 else DenotesItems(t, j, e, items, num, str)
    case Object(ms) =>
      var j := SkipSpaces(t, i + 1);
      t[i] == '{' && if ms == [] then At(t, j) == '}' && e == j + 1 else DenotesMembers(t, j, e, ms, num, str)
  }

  /** Items separated by commas, and the closing bracket. */
  ghost predicate DenotesItems(t: string, i: nat, e: nat, items: seq<Value>, num: Numbers, str: StringRule)
    decreases items
  {
    items != [] &&
    exists k :: Denotes(t, i, k, items[0], num, str) && DenotesMoreItems(t, k, e, items, num, str)
  }

  /** What stands behind the first item. */
  ghost predicate DenotesMoreItems(t: string, k: nat, e: nat, items: seq<Value>, num: Numbers, str: StringRule)
    decreases items, 0
  {
    k <= |t| && items != [] &&
    var c := SkipSpaces(t, k);
    if |items| == 1 then At(t, c) == ']' && e == c + 1
    else At(t, c) == ',' && DenotesItems(t, SkipSpaces(t, c + 1), e, items[1..], num, str)
  }

  /** A string without NULs, white space, a colon, and white space up to q. */
  ghost predicate DenotesName(t: string, i: nat, q: nat, name: string, str: StringRule) {
    i < |t| && NUL !in name &&
    exists e: nat ::
      str(t, i, e, name) && e <= |t| && At(t, SkipSpaces(t, e)) == ':' && q == SkipSpaces(t, SkipSpaces(t, e) + 1)
  }

  lemma NameIsParsed(t: string, i: nat, q: nat, name: string, str: StringRule)
    requires ScannerFollows(str) && DenotesName(t, i, q, name, str)
    ensures t[i] == '"'
    ensures ParseName(t, i).Some? && ParseName(t, i).value.0 == name && q == SkipSpaces(t, ParseName(t, i).value.1)
  {
    var e: nat :|
      str(t, i, e, name) && e <= |t| && At(t, SkipSpaces(t, e)) == ':' && q == SkipSpaces(t, SkipSpaces(t, e) + 1);
    StringIsScanned(t, i, e, name, str);
  }

  lemma ParsedIsName(t: string, i: nat, str: StringRule)
    requires ScannerFollows(str) && i <= |t| && ParseName(t, i).Some?
    ensures DenotesName(t, i, SkipSpaces(t, ParseName(t, i).value.1), ParseName(t, i).value.0, str)
  {
    var (s, e) := QuotedString(t, i).value;
    StringIsScanned(t, i, e, s, str);
    assert str(t, i, e, s);
  }

  /** Members separated by commas, and the closing brace. */
  ghost predicate DenotesMembers(t: string, i: nat, e: nat, ms: seq<Member>, num: Numbers, str: StringRule)
    decreases ms
  {
    ms != [] &&
    exists q, k :: DenotesName(t, i, q, ms[0].name, str) && Denotes(t, q, k, ms[0].value, num, str) && DenotesMoreMembers(t, k, e, ms, num, str)
  }

  ghost predicate DenotesMoreMembers(t: string, k: nat, e: nat, ms: seq<Member>, num: Numbers, str: StringRule)
    decreases ms, 0
  {
    k <= |t| && ms != [] &&
    var c := SkipSpaces(t, k);
    if |ms| == 1 then At(t, c) == '}' && e == c + 1
    else At(t, c) == ',' && DenotesMembers(t, SkipSpaces(t, c + 1), e, ms[1..], num, str)
  }

  // ---------------------------------------------------------------------------------------------
  // Nesting

  /** How deep containers nest below v. */
  function Height(v: Value): nat {
    match v
    case Array(items) => if items == [] then 0 else 1 + ItemsHeight(items)
    case Object(ms) => if ms == [] then 0 else 1 + MembersHeight(ms)
    case _ => 0
  }

  function ItemsHeight(items: seq<Value>): nat {
    if items == [] then 0 else Max(Height(items[0]), ItemsHeight(items[1..]))
  }

  function MembersHeight(ms: seq<Member>): nat {
    if ms == [] then 0 else Max(Height(ms[0].value), MembersHeight(ms[1..]))
  }

  /** The parse result for a text that stands for v. */
  function Expected(v: Value, end: nat, nesting: nat): Option<(Value, nat)> {
    if nesting + Height(v) <= MAX_NESTING then Some((v, end)) else None
  }

  function ItemsExpected(sofar: seq<Value>, items: seq<Value>, end: nat, nesting: nat): Option<(Value, nat)> {
    if nesting + ItemsHeight(items) <= MAX_NESTING then Some((Array(sofar + items), end)) else None
  }

  function MembersExpected(sofar: seq<Member>, ms: seq<Member>, end: nat, nesting: nat): Option<(Value, nat)> {
    if nesting + MembersHeight(ms) <= MAX_NESTING then Some((Object(sofar + ms), end)) else None
  }

  // ---------------------------------------------------------------------------------------------
  // The parser accepts every text of the grammar

  /** Which byte a value starts with. */
  lemma DenotesStart(t: string, i: nat, e: nat, v: Value, num: Numbers, str: StringRule)
    requires ScannerFollows(str)
    requires Denotes(t, i, e, v, num, str)
    ensures SkipSpaces(t, i) == i && i <= e
    ensures match v
            case Null => t[i] == 'n'
            case Boolean(b) => t[i] == if b then 't' else 'f'
            case Number(_) => IsNumberStart(t[i])
            case String(_) => t[i] == '"'
            case Array(_) => t[i] == '['
            case Object(_) => t[i] == '{'
  {
    if v.Null? || v.Boolean? {
      assert t[i..][0] == t[i];
    } else if v.String? {
      StringIsScanned(t, i, e, v.s, str);
    }
  }

  lemma {:induction false} ParseDenoted(t: string, i: nat, e: nat, v: Value, nesting: nat, num: Numbers, str: StringRule)
    requires ScannerFollows(str)
    requires Denotes(t, i, e, v, num, str) && Unambiguous(v)
    ensures ParseValue(t, i, nesting, num) == Expected(v, e, nesting)
    decreases v
  {
    DenotesStart(t, i, e, v, num, str);
    match v
    case Array(items) =>
      if items != [] {
        ParseDenotedItems(t, SkipSpaces(t, i + 1), e, items, [], nesting + 1, num, str);
        assert [] + items == items;
      }
    case Object(ms) =>
      if ms != [] {
        assert [] + ms == ms;
        ParseDenotedMembers(t, SkipSpaces(t, i + 1), e, ms, [], nesting + 1, num, str);
      }
    case String(s) => StringIsScanned(t, i, e, s, str);
    case _ =>
  }

  lemma {:induction false} ParseDenotedItems(
      t: string, i: nat, e: nat, items: seq<Value>, sofar: seq<Value>, nesting: nat, num: Numbers, str: StringRule)
    requires ScannerFollows(str)
    requires DenotesItems(t, i, e, items, num, str) && forall x | x in items :: Unambiguous(x)
    ensures i < |t| && At(t, i) != ']'
    ensures ParseItems(t, i, nesting, sofar, num) == ItemsExpected(sofar, items, e, nesting)
    decreases items
  {
    var k :| Denotes(t, i, k, items[0], num, str) && DenotesMoreItems(t, k, e, items, num, str);
    DenotesStart(t, i, k, items[0], num, str);
    ParseDenoted(t, i, k, items[0], nesting, num, str);
    if |items| > 1 {
      ParseDenotedItems(t, SkipSpaces(t, SkipSpaces(t, k) + 1), e, items[1..], sofar + [items[0]], nesting, num, str);
    }
    ParseItemsRound(t, i, k, e, items, sofar, nesting, num, str);
  }

  /** One round of the item loop. */
  lemma ParseItemsRound(
      t: string, i: nat, k: nat, e: nat, items: seq<Value>, sofar: seq<Value>, nesting: nat, num: Numbers, str: StringRule)
    requires i < |t| && At(t, i) != NUL && DenotesMoreItems(t, k, e, items, num, str)
    requires ParseValue(t, i, nesting, num) == Expected(items[0], k, nesting)
    requires |items| > 1 ==>
               ParseItems(t, SkipSpaces(t, SkipSpaces(t, k) + 1), nesting, sofar + [items[0]], num) ==
               ItemsExpected(sofar + [items[0]], items[1..], e, nesting)
    ensures ParseItems(t, i, nesting, sofar, num) == ItemsExpected(sofar, items, e, nesting)
  {
    if |items| > 1 {
      assert sofar + [items[0]] + items[1..] == sofar + items;
    } else {
      assert items[1..] == [] && sofar + items == sofar + [items[0]];
      assert ItemsHeight(items) == Height(items[0]);
      assert AfterItem(t, k, nesting, sofar + [items[0]], num) == Some((Array(sofar + items), e));
    }
  }

  lemma {:induction false} ParseDenotedMembers(
      t: string, i: nat, e: nat, ms: seq<Member>, sofar: seq<Member>, nesting: nat, num: Numbers, str: StringRule)
    requires ScannerFollows(str)
    requires DenotesMembers(t, i, e, ms, num, str) && DistinctNames(sofar + ms)
    requires forall m | m in ms :: Unambiguous(m.value)
    ensures i < |t| && At(t, i) == '"'
    ensures ParseMembers(t, i, nesting, sofar, num) == MembersExpected(sofar, ms, e, nesting)
    decreases ms
  {
    var q, k :| DenotesName(t, i, q, ms[0].name, str) && Denotes(t, q, k, ms[0].value, num, str) && DenotesMoreMembers(t, k, e, ms, num, str);
    ParseDenoted(t, q, k, ms[0].value, nesting, num, str);
    ParseMemberRound(t, i, q, k, ms, sofar, nesting, num, str);
    if |ms| > 1 {
      ParseOtherMembers(t, k, e, ms, sofar, nesting, num, str);
    }
    ParseMembersRound(t, i, k, e, ms, sofar, nesting, num, str);
  }

  /** The members behind the first. */
  lemma {:induction false} ParseOtherMembers(
      t: string, k: nat, e: nat, ms: seq<Member>, sofar: seq<Member>, nesting: nat, num: Numbers, str: StringRule)
    requires ScannerFollows(str)
    requires |ms| > 1 && DenotesMoreMembers(t, k, e, ms, num, str) && DistinctNames(sofar + ms)
    requires forall m | m in ms :: Unambiguous(m.value)
    ensures ParseMembers(t, SkipSpaces(t, SkipSpaces(t, k) + 1), nesting, sofar + [ms[0]], num) ==
            MembersExpected(sofar + [ms[0]], ms[1..], e, nesting)
    decreases ms, 0
  {
    assert sofar + [ms[0]] + ms[1..] == sofar + ms;
    ParseDenotedMembers(t, SkipSpaces(t, SkipSpaces(t, k) + 1), e, ms[1..], sofar + [ms[0]], nesting, num, str);
  }

  /** White space in front of a value makes no difference. */
  lemma ValueAfterSpaces(t: string, p: nat, nesting: nat, num: Numbers)
    requires p <= |t|
    ensures ParseValue(t, p, nesting, num) == ParseValue(t, SkipSpaces(t, p), nesting, num)
  {
    assert SkipSpaces(t, SkipSpaces(t, p)) == SkipSpaces(t, p);
  }

  lemma MemberFromParts(
      t: string, i: nat, p: nat, k: nat, m: Member, fits: bool, sofar: seq<Member>, nesting: nat, num: Numbers)
    requires i <= |t| && p <= k <= |t| && ParseName(t, i) == Some((m.name, p))
    requires ParseValue(t, p, nesting, num) == if fits then Some((m.value, k)) else None
    requires AddMember(sofar, m.name, m.value) == Some(sofar + [m])
    ensures ParseMember(t, i, nesting, sofar, num) == if fits then Some((sofar + [m], k)) else None
  {
  }

  /** A name, its colon and a value make a member, whose name is not taken. */
  lemma ParseMemberRound(
      t: string, i: nat, q: nat, k: nat, ms: seq<Member>, sofar: seq<Member>, nesting: nat, num: Numbers, str: StringRule)
    requires ScannerFollows(str)
    requires ms != [] && DenotesName(t, i, q, ms[0].name, str) && DistinctNames(sofar + ms)
    requires q <= k <= |t| && ParseValue(t, q, nesting, num) == Expected(ms[0].value, k, nesting)
    ensures i < k && At(t, i) == '"'
    ensures ParseMember(t, i, nesting, sofar, num) ==
            if nesting + Height(ms[0].value) <= MAX_NESTING then Some((sofar + [ms[0]], k)) else None
  {
    NameIsParsed(t, i, q, ms[0].name, str);
    var p := ParseName(t, i).value.1;
    ValueAfterSpaces(t, p, nesting, num);
    NameIsFree(sofar, ms);
    MemberFromParts(t, i, p, k, ms[0], nesting + Height(ms[0].value) <= MAX_NESTING, sofar, nesting, num);
  }

  lemma NameIsFree(sofar: seq<Member>, ms: seq<Member>)
    requires ms != [] && DistinctNames(sofar + ms)
    ensures AddMember(sofar, ms[0].name, ms[0].value) == Some(sofar + [ms[0]])
  {
    forall i | 0 <= i < |sofar| ensures sofar[i].name != ms[0].name {
      assert (sofar + ms)[i] == sofar[i] && (sofar + ms)[|sofar|] == ms[0];
    }
  }

  /** One round of the member loop. */
  lemma ParseMembersRound(
      t: string, i: nat, k: nat, e: nat, ms: seq<Member>, sofar: seq<Member>, nesting: nat, num: Numbers, str: StringRule)
    requires i < k && i < |t| && At(t, i) != NUL && DenotesMoreMembers(t, k, e, ms, num, str)
    requires ParseMember(t, i, nesting, sofar, num) ==
             if nesting + Height(ms[0].value) <= MAX_NESTING then Some((sofar + [ms[0]], k)) else None
    requires |ms| > 1 ==>
               ParseMembers(t, SkipSpaces(t, SkipSpaces(t, k) + 1), nesting, sofar + [ms[0]], num) ==
               MembersExpected(sofar + [ms[0]], ms[1..], e, nesting)
    ensures ParseMembers(t, i, nesting, sofar, num) == MembersExpected(sofar, ms, e, nesting)
  {
    if |ms| > 1 {
      assert sofar + [ms[0]] + ms[1..] == sofar + ms;
    } else {
      assert ms[1..] == [] && sofar + ms == sofar + [ms[0]];
      assert MembersHeight(ms) == Height(ms[0].value);
      assert AfterMember(t, k, nesting, sofar + [ms[0]], num) == Some((Object(sofar + ms), e));
    }
  }

  // ---------------------------------------------------------------------------------------------
  // and nothing else

  lemma {:induction false} ParseOnlyDenoted(t: string, i: nat, nesting: nat, num: Numbers, str: StringRule)
    requires ScannerFollows(str)
    requires i <= |t| && ParseValue(t, i, nesting, num).Some?
    ensures var (v, e) := ParseValue(t, i, nesting, num).value;
            Denotes(t, SkipSpaces(t, i), e, v, num, str) && Unambiguous(v) && nesting + Height(v) <= MAX_NESTING
    decreases |t| - i, 0
  {
    var (v, e) := ParseValue(t, i, nesting, num).value;
    var j := SkipSpaces(t, i);
    if At(t, j) == '[' {
      var k := SkipSpaces(t, j + 1);
      if At(t, k) != ']' {
        var items := ParseItemsOnlyDenoted(t, k, [], nesting + 1, num, str);
        assert [] + items == items;
      }
    } else if At(t, j) == '{' {
      var k := SkipSpaces(t, j + 1);
      if At(t, k) != '}' {
        var ms := ParseMembersOnlyDenoted(t, k, [], nesting + 1, num, str);
        assert [] + ms == ms;
      }
    } else if At(t, j) == '"' {
      StringIsScanned(t, j, e, v.s, str);
    }
  }

  lemma ConsFacts<T>(sofar: seq<T>, x: T, rest: seq<T>)
    ensures ([x] + rest)[1..] == rest && sofar + [x] + rest == sofar + ([x] + rest)
  {
  }

  lemma {:induction false} ParseItemsOnlyDenoted(t: string, i: nat, sofar: seq<Value>, nesting: nat, num: Numbers, str: StringRule)
    returns (items: seq<Value>)
    requires ScannerFollows(str)
    requires i <= |t| && !IsSpace(At(t, i)) && ParseItems(t, i, nesting, sofar, num).Some?
    ensures ParseItems(t, i, nesting, sofar, num).value.0 == Array(sofar + items)
    ensures DenotesItems(t, i, ParseItems(t, i, nesting, sofar, num).value.1, items, num, str)
    ensures nesting + ItemsHeight(items) <= MAX_NESTING && forall x | x in items :: Unambiguous(x)
    decreases |t| - i, 1
  {
    ParseOnlyDenoted(t, i, nesting, num, str);
    assert SkipSpaces(t, i) == i;
    var (x, k) := ParseValue(t, i, nesting, num).value;
    items := AfterItemOnlyDenoted(t, k, x, sofar + [x], nesting, num, str);
    ConsFacts(sofar, x, items[1..]);
    assert [x] + items[1..] == items;
  }

  /** What stands behind the item x, which has been added to sofar. */
  lemma {:induction false} AfterItemOnlyDenoted(
      t: string, k: nat, x: Value, sofar: seq<Value>, nesting: nat, num: Numbers, str: StringRule) returns (items: seq<Value>)
    requires ScannerFollows(str)
    requires k <= |t| && AfterItem(t, k, nesting, sofar, num).Some?
    ensures items != [] && items[0] == x
    ensures AfterItem(t, k, nesting, sofar, num).value.0 == Array(sofar + items[1..])
    ensures DenotesMoreItems(t, k, AfterItem(t, k, nesting, sofar, num).value.1, items, num, str)
    ensures items[1..] != [] ==> nesting + ItemsHeight(items[1..]) <= MAX_NESTING
    ensures forall x | x in items[1..] :: Unambiguous(x)
    decreases |t| - k, 0
  {
    var c := SkipSpaces(t, k);
    if At(t, c) == ',' {
      var rest := ParseItemsOnlyDenoted(t, SkipSpaces(t, c + 1), sofar, nesting, num, str);
      items := [x] + rest;
      assert items[1..] == rest;
    } else {
      items := [x];
      assert items[1..] == [] && sofar + [] == sofar;
    }
  }

  lemma {:induction false} ParseMembersOnlyDenoted(t: string, i: nat, sofar: seq<Member>, nesting: nat, num: Numbers, str: StringRule)
    returns (ms: seq<Member>)
    requires ScannerFollows(str)
    requires i <= |t| && DistinctNames(sofar) && ParseMembers(t, i, nesting, sofar, num).Some?
    ensures ParseMembers(t, i, nesting, sofar, num).value.0 == Object(sofar + ms) && DistinctNames(sofar + ms)
    ensures DenotesMembers(t, i, ParseMembers(t, i, nesting, sofar, num).value.1, ms, num, str)
    ensures nesting + MembersHeight(ms) <= MAX_NESTING && forall m | m in ms :: Unambiguous(m.value)
    decreases |t| - i, 1
  {
    var m, q, k := ParseMemberOnlyDenoted(t, i, sofar, nesting, num, str);
    ms := AfterMemberOnlyDenoted(t, k, m, sofar + [m], nesting, num, str);
    ConsFacts(sofar, m, ms[1..]);
    assert [m] + ms[1..] == ms;
  }

  /** What stands behind the member m, which has been added to sofar. */
  lemma {:induction false} AfterMemberOnlyDenoted(
      t: string, k: nat, m: Member, sofar: seq<Member>, nesting: nat, num: Numbers, str: StringRule) returns (ms: seq<Member>)
    requires ScannerFollows(str)
    requires k <= |t| && DistinctNames(sofar) && AfterMember(t, k, nesting, sofar, num).Some?
    ensures ms != [] && ms[0] == m
    ensures AfterMember(t, k, nesting, sofar, num).value.0 == Object(sofar + ms[1..]) && DistinctNames(sofar + ms[1..])
    ensures DenotesMoreMembers(t, k, AfterMember(t, k, nesting, sofar, num).value.1, ms, num, str)
    ensures ms[1..] != [] ==> nesting + MembersHeight(ms[1..]) <= MAX_NESTING
    ensures forall m | m in ms[1..] :: Unambiguous(m.value)
    decreases |t| - k, 0
  {
    var c := SkipSpaces(t, k);
    if At(t, c) == ',' {
      var rest := ParseMembersOnlyDenoted(t, SkipSpaces(t, c + 1), sofar, nesting, num, str);
      ms := [m] + rest;
      assert ms[1..] == rest;
    } else {
      ms := [m];
      assert ms[1..] == [] && sofar + [] == sofar;
    }
  }

  lemma {:induction false} ParseMemberOnlyDenoted(t: string, i: nat, sofar: seq<Member>, nesting: nat, num: Numbers, str: StringRule)
    returns (m: Member, q: nat, k: nat)
    requires ScannerFollows(str)
    requires i <= |t| && DistinctNames(sofar) && ParseMember(t, i, nesting, sofar, num).Some?
    ensures ParseMember(t, i, nesting, sofar, num) == Some((sofar + [m], k)) && DistinctNames(sofar + [m])
    ensures DenotesName(t, i, q, m.name, str) && Denotes(t, q, k, m.value, num, str) && Unambiguous(m.value)
    ensures nesting + Height(m.value) <= MAX_NESTING && i < k
    decreases |t| - i, 0
  {
    var (name, p) := ParseName(t, i).value;
    ParseOnlyDenoted(t, p, nesting, num, str);
    q := SkipSpaces(t, p);
    ParsedIsName(t, i, str);
    k := ParseValue(t, p, nesting, num).value.1;
    m := Member(name, ParseValue(t, p, nesting, num).value.0);
  }

  /** Acceptance in one sentence: the parser takes exactly the grammatical texts of unambiguous, shallow enough values. */
  lemma ParserAcceptsTheGrammar(t: string, i: nat, e: nat, v: Value, nesting: nat, num: Numbers)
    requires i <= |t|
    ensures ParseValue(t, i, nesting, num) == Some((v, e)) <==>
            Denotes(t, SkipSpaces(t, i), e, v, num, StringAt) && Unambiguous(v) && nesting + Height(v) <= MAX_NESTING
  {
    ScannerFollowsTheGrammar();
    ParserAccepts(t, i, e, v, nesting, num, StringAt);
  }

  /** The byte order mark of UTF-8. */
  const MARK: string := ['\U{EF}', '\U{BB}', '\U{BF}']

  lemma ParseTextStarts(t: string, num: Numbers)
    ensures var r := ParseValue(t, if MARK <= t then 3 else 0, 0, num);
            ParseText(t, num) == if r.Some? then Some(r.value.0) else None
  {
    if |t| >= 3 && t[0] == MARK[0] && t[1] == MARK[1] && t[2] == MARK[2] {
      assert t[..3] == MARK;
    }
  }

  /** json_parse_string takes the first value of a text, behind a byte order mark if there is one, whatever follows it. */
  lemma TextIsParsed(t: string, v: Value, num: Numbers)
    ensures var start := if MARK <= t then 3 else 0;
            ParseText(t, num) == Some(v) <==>
            Unambiguous(v) && Height(v) <= 2048 && exists e: nat :: Denotes(t, SkipSpaces(t, start), e, v, num, StringAt)
  {
    var start := if MARK <= t then 3 else 0;
    ParseTextStarts(t, num);
    if ParseText(t, num) == Some(v) {
      var e := ParseValue(t, start, 0, num).value.1;
      ParserAcceptsTheGrammar(t, start, e, v, 0, num);
      assert Denotes(t, SkipSpaces(t, start), e, v, num, StringAt);
    } else if Unambiguous(v) && Height(v) <= 2048 && exists e: nat :: Denotes(t, SkipSpaces(t, start), e, v, num, StringAt) {
      var e: nat :| Denotes(t, SkipSpaces(t, start), e, v, num, StringAt);
      ParserAcceptsTheGrammar(t, start, e, v, 0, num);
      assert false;
    }
  }

  lemma ParserAccepts(t: string, i: nat, e: nat, v: Value, nesting: nat, num: Numbers, str: StringRule)
    requires i <= |t| && ScannerFollows(str)
    ensures ParseValue(t, i, nesting, num) == Some((v, e)) <==>
            Denotes(t, SkipSpaces(t, i), e, v, num, str) && Unambiguous(v) && nesting + Height(v) <= MAX_NESTING
  {
    if ParseValue(t, i, nesting, num) == Some((v, e)) {
      ParseOnlyDenoted(t, i, nesting, num, str);
    }
    if Denotes(t, SkipSpaces(t, i), e, v, num, str) && Unambiguous(v) && nesting + Height(v) <= MAX_NESTING {
      ParseDenoted(t, SkipSpaces(t, i), e, v, nesting, num, str);
      assert ParseValue(t, i, nesting, num) == ParseValue(t, SkipSpaces(t, i), nesting, num);
    }
  }

  // ---------------------------------------------------------------------------------------------
  // A text stands for one value only, however deep it nests

  lemma {:induction false} DenotesOneValue(t: string, i: nat, e: nat, v: Value, e': nat, v': Value, num: Numbers, str: StringRule)
    requires ScannerFollows(str)
    requires Denotes(t, i, e, v, num, str) && Denotes(t, i, e', v', num, str)
    ensures e == e' && v == v'
    decreases v, 0
  {
    DenotesStart(t, i, e, v, num, str);
    DenotesStart(t, i, e', v', num, str);
    match v
    case String(s) =>
      StringIsScanned(t, i, e, s, str);
      StringIsScanned(t, i, e', v'.s, str);
    case Array(items) =>
      var j := SkipSpaces(t, i + 1);
      if items != [] {
        ItemsStart(t, j, e, items, num, str);
      }
      if v'.items != [] {
        ItemsStart(t, j, e', v'.items, num, str);
      }
      if items != [] && v'.items != [] {
        DenotesOneSeq(t, j, e, items, e', v'.items, num, str);
      }
    case Object(ms) =>
      var j := SkipSpaces(t, i + 1);
      if ms != [] {
        MembersStart(t, j, e, ms, num, str);
      }
      if v'.members != [] {
        MembersStart(t, j, e', v'.members, num, str);
      }
      if ms != [] && v'.members != [] {
        DenotesOneObject(t, j, e, ms, e', v'.members, num, str);
      }
    case _ =>
  }

  lemma ItemsStart(t: string, i: nat, e: nat, items: seq<Value>, num: Numbers, str: StringRule)
    requires ScannerFollows(str)
    requires DenotesItems(t, i, e, items, num, str)
    ensures i < |t| && t[i] != ']'
  {
    var k :| Denotes(t, i, k, items[0], num, str) && DenotesMoreItems(t, k, e, items, num, str);
    DenotesStart(t, i, k, items[0], num, str);
  }

  lemma MembersStart(t: string, i: nat, e: nat, ms: seq<Member>, num: Numbers, str: StringRule)
    requires ScannerFollows(str)
    requires DenotesMembers(t, i, e, ms, num, str)
    ensures i < |t| && t[i] == '"'
  {
    var q, k :|
      DenotesName(t, i, q, ms[0].name, str) && Denotes(t, q, k, ms[0].value, num, str) && DenotesMoreMembers(t, k, e, ms, num, str);
    NameIsParsed(t, i, q, ms[0].name, str);
  }

  lemma {:induction false} DenotesOneSeq(
      t: string, i: nat, e: nat, items: seq<Value>, e': nat, items': seq<Value>, num: Numbers, str: StringRule)
    requires ScannerFollows(str)
    requires DenotesItems(t, i, e, items, num, str) && DenotesItems(t, i, e', items', num, str)
    ensures e == e' && items == items'
    decreases items
  {
    var k :| Denotes(t, i, k, items[0], num, str) && DenotesMoreItems(t, k, e, items, num, str);
    var k' :| Denotes(t, i, k', items'[0], num, str) && DenotesMoreItems(t, k', e', items', num, str);
    DenotesOneValue(t, i, k, items[0], k', items'[0], num, str);
    if |items| > 1 && |items'| > 1 {
      DenotesOneSeq(t, SkipSpaces(t, SkipSpaces(t, k) + 1), e, items[1..], e', items'[1..], num, str);
      assert items == [items[0]] + items[1..] && items' == [items'[0]] + items'[1..];
    } else {
      assert items == [items[0]] && items' == [items'[0]];
    }
  }

  /** The first name, its value, and where each ends. */
  lemma DenotesOneMember(
      t: string, i: nat, q: nat, k: nat, name: string, v: Value, q': nat, k': nat, name': string, v': Value,
      num: Numbers, str: StringRule)
    requires ScannerFollows(str)
    requires DenotesName(t, i, q, name, str) && Denotes(t, q, k, v, num, str)
    requires DenotesName(t, i, q', name', str) && Denotes(t, q', k', v', num, str)
    ensures name == name' && k == k' && v == v'
    decreases v, 1
  {
    NameIsParsed(t, i, q, name, str);
    NameIsParsed(t, i, q', name', str);
    DenotesOneValue(t, q, k, v, k', v', num, str);
  }

  lemma {:induction false} DenotesOneObject(
      t: string, i: nat, e: nat, ms: seq<Member>, e': nat, ms': seq<Member>, num: Numbers, str: StringRule)
    requires ScannerFollows(str)
    requires DenotesMembers(t, i, e, ms, num, str) && DenotesMembers(t, i, e', ms', num, str)
    ensures e == e' && ms == ms'
    decreases ms
  {
    var q, k :|
      DenotesName(t, i, q, ms[0].name, str) && Denotes(t, q, k, ms[0].value, num, str) && DenotesMoreMembers(t, k, e, ms, num, str);
    var q', k' :|
      DenotesName(t, i, q', ms'[0].name, str) && Denotes(t, q', k', ms'[0].value, num, str) &&
      DenotesMoreMembers(t, k', e', ms', num, str);
    DenotesOneMember(t, i, q, k, ms[0].name, ms[0].value, q', k', ms'[0].name, ms'[0].value, num, str);
    DenotesOneRest(t, k, e, ms, e', ms', num, str);
  }

  /** What stands behind the first member. */
  lemma {:induction false} DenotesOneRest(
      t: string, k: nat, e: nat, ms: seq<Member>, e': nat, ms': seq<Member>, num: Numbers, str: StringRule)
    requires ScannerFollows(str) && ms != [] && ms' != [] && ms[0] == ms'[0]
    requires DenotesMoreMembers(t, k, e, ms, num, str) && DenotesMoreMembers(t, k, e', ms', num, str)
    ensures e == e' && ms == ms'
    decreases ms, 0
  {
    if |ms| > 1 && |ms'| > 1 {
      DenotesOneObject(t, SkipSpaces(t, SkipSpaces(t, k) + 1), e, ms[1..], e', ms'[1..], num, str);
      assert ms == [ms[0]] + ms[1..] && ms' == [ms'[0]] + ms'[1..];
    } else {
      assert ms == [ms[0]] && ms' == [ms'[0]];
    }
  }
}
