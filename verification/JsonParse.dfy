/** The recursive-descent parser of parson.c, as functions and as the code that moves a cursor. */
module JsonParse {
  import opened CText
  import opened Common
  import opened JsonString
  import opened JsonValue
  import opened JsonPrint

  const MAX_NESTING: nat := 2048

  const TRUE_TOKEN := "true"
  const FALSE_TOKEN := "false"
  const NULL_TOKEN := "null"

  /** The position of the first byte at or after i that is not white space. */
  function SkipSpaces(t: string, i: nat): (r: nat)
    requires i <= |t|
    ensures i <= r <= |t| && !IsSpace(At(t, r))
    decreases |t| - i
  {
    if IsSpace(At(t, i)) then SkipSpaces(t, i + 1) else i
  }

  /** The number scanner, which never moves back nor past the terminator. */
  function ScanNumber(t: string, i: nat, num: Numbers): (r: Option<(real, nat)>)
    requires i <= |t|
    ensures r.Some? ==> i <= r.value.1 <= |t|
  {
    var r := num.scan(t, i);
    if r.Some? && i <= r.value.1 <= |t| then r else None
  }

  // ---------------------------------------------------------------------------------------------
  // What the parser recognises: the value, and the position behind it

  function ParseValue(t: string, i: nat, nesting: nat, num: Numbers): (r: Option<(Value, nat)>)
    requires i <= |t|
    ensures r.Some? ==> i <= r.value.1 <= |t|
    decreases |t| - i, 0
  {
    var j := SkipSpaces(t, i);
    var c := At(t, j);
    if nesting > MAX_NESTING then None
    else if c == '{' then ParseObject(t, j + 1, nesting + 1, num)
    else if c == '[' then ParseArray(t, j + 1, nesting + 1, num)
    else if c == '"' then
      match QuotedString(t, j)
      case None => None
      case Some((s, end)) => Some((String(s), end))
    else if c == 'f' || c == 't' then
      if StartsWith(t, j, TRUE_TOKEN) then Some((Boolean(true), j + 4))
      else if StartsWith(t, j, FALSE_TOKEN) then Some((Boolean(false), j + 5))
      else None
    else if IsNumberStart(c) then
      match ScanNumber(t, j, num)
      case None => None
      case Some((n, end)) => Some((Number(n), end))
    else if c == 'n' && StartsWith(t, j, NULL_TOKEN) then Some((Null, j + 4))
    else None
  }

  /** The rest of an array, the opening bracket having been read. */
  function ParseArray(t: string, i: nat, nesting: nat, num: Numbers): (r: Option<(Value, nat)>)
    requires i <= |t|
    ensures r.Some? ==> i <= r.value.1 <= |t|
    decreases |t| - i, 2
  {
    var j := SkipSpaces(t, i);
    if At(t, j) == ']' then Some((Array([]), j + 1)) else ParseItems(t, j, nesting, [], num)
  }

  /** The item loop, with the items read so far. */
  function ParseItems(t: string, i: nat, nesting: nat, sofar: seq<Value>, num: Numbers): (r: Option<(Value, nat)>)
    requires i <= |t|
    ensures r.Some? ==> i <= r.value.1 <= |t|
    decreases |t| - i, 1
  {
    if At(t, i) == NUL then None
    else
      match ParseValue(t, i, nesting, num)
      case None => None
      case Some((item, end)) =>
        AfterItem(t, end, nesting, sofar + [item], num)
  }

  /** What stands behind an item decides between the next item, the end of the array, and failure. */
  function AfterItem(t: string, end: nat, nesting: nat, items: seq<Value>, num: Numbers): (r: Option<(Value, nat)>)
    requires end <= |t|
    ensures r.Some? ==> end <= r.value.1 <= |t|
    decreases |t| - end, 0
  {
    var j := SkipSpaces(t, end);
    if At(t, j) == ',' then ParseItems(t, SkipSpaces(t, j + 1), nesting, items, num)
    else if At(t, j) == ']' then Some((Array(items), j + 1))
    else None
  }

  /** The rest of an object, the opening brace having been read. */
  function ParseObject(t: string, i: nat, nesting: nat, num: Numbers): (r: Option<(Value, nat)>)
    requires i <= |t|
    ensures r.Some? ==> i <= r.value.1 <= |t|
    decreases |t| - i, 2
  {
    var j := SkipSpaces(t, i);
    if At(t, j) == '}' then Some((Object([]), j + 1)) else ParseMembers(t, j, nesting, [], num)
  }

  /** A member name and its colon; names with embedded NULs are refused. */
  function ParseName(t: string, i: nat): (r: Option<(string, nat)>)
    requires i <= |t|
    ensures r.Some? ==> i < r.value.1 <= |t|
  {
    match QuotedString(t, i)
    case None => None
    case Some((name, end)) =>
      var j := SkipSpaces(t, end);
      if NUL in name || At(t, j) != ':' then None else Some((name, j + 1))
  }

  /** One member, added to those read so far unless its name is taken. */
  function ParseMember(t: string, i: nat, nesting: nat, sofar: seq<Member>, num: Numbers)
    : (r: Option<(seq<Member>, nat)>)
    requires i <= |t|
    ensures r.Some? ==> i <= r.value.1 <= |t|
    decreases |t| - i, 0
  {
    match ParseName(t, i)
    case None => None
    case Some((name, k)) =>
      match ParseValue(t, k, nesting, num)
      case None => None
      case Some((value, end)) =>
        match AddMember(sofar, name, value)
        case None => None
        case Some(members) => Some((members, end))
  }

  /** The member loop, with the members read so far. */
  function ParseMembers(t: string, i: nat, nesting: nat, sofar: seq<Member>, num: Numbers): (r: Option<(Value, nat)>)
    requires i <= |t|
    ensures r.Some? ==> i <= r.value.1 <= |t|
    decreases |t| - i, 1
  {
    if At(t, i) == NUL then None
    else
      match ParseMember(t, i, nesting, sofar, num)
      case None => None
      case Some((members, end)) => AfterMember(t, end, nesting, members, num)
  }

  /** What stands behind a member decides between the next member, the end of the object, and failure. */
  function AfterMember(t: string, end: nat, nesting: nat, members: seq<Member>, num: Numbers): (r: Option<(Value, nat)>)
    requires end <= |t|
    ensures r.Some? ==> end <= r.value.1 <= |t|
    decreases |t| - end, 0
  {
    var j := SkipSpaces(t, end);
    if At(t, j) == ',' then ParseMembers(t, SkipSpaces(t, j + 1), nesting, members, num)
    else if At(t, j) == '}' then Some((Object(members), j + 1))
    else None
  }

  // ---------------------------------------------------------------------------------------------
  // The cursor-moving parser

  method SkipWhitespaces(t: string, start: nat) returns (pos: nat)
    requires start <= |t|
    ensures pos == SkipSpaces(t, start)
  {
    pos := start;
    while IsSpace(At(t, pos))
      invariant start <= pos <= |t|
      invariant SkipSpaces(t, start) == SkipSpaces(t, pos)
      decreases |t| - pos
    {
      pos := pos + 1;
    }
  }

  /** A parse that failed, or one that gave this value and left the cursor at pos. */
  ghost predicate Agrees(spec: Option<(Value, nat)>, r: Option<Value>, pos: nat) {
    match spec
    case None => r == None
    case Some((v, end)) => r == Some(v) && pos == end
  }

  method ReadValue(t: string, start: nat, nesting: nat, num: Numbers) returns (r: Option<Value>, pos: nat)
    requires start <= |t|
    ensures pos <= |t| && Agrees(ParseValue(t, start, nesting, num), r, pos)
    decreases |t| - start, 0
  {
    pos := start;
    if nesting > MAX_NESTING {
      return None, pos;
    }
    pos := SkipWhitespaces(t, pos);
    var c := At(t, pos);
    if c == '{' {
      r, pos := ReadObject(t, pos, nesting + 1, num);
    } else if c == '[' {
      r, pos := ReadArray(t, pos, nesting + 1, num);
    } else if c == '"' {
      var s;
      s, pos := GetQuotedString(t, pos);
      r := if s.Some? then Some(String(s.value)) else None;
    } else if c == 'f' || c == 't' {
      if StartsWith(t, pos, TRUE_TOKEN) {
        r, pos := Some(Boolean(true)), pos + |TRUE_TOKEN|;
      } else if StartsWith(t, pos, FALSE_TOKEN) {
        r, pos := Some(Boolean(false)), pos + |FALSE_TOKEN|;
      } else {
        r := None;
      }
    } else if IsNumberStart(c) {
      var scanned := ScanNumber(t, pos, num);
      if scanned == None {
        return None, pos;
      }
      r, pos := Some(Number(scanned.value.0)), scanned.value.1;
    } else if c == 'n' && StartsWith(t, pos, NULL_TOKEN) {
      r, pos := Some(Null), pos + |NULL_TOKEN|;
    } else {
      r := None;
    }
  }

  method ReadArray(t: string, start: nat, nesting: nat, num: Numbers) returns (r: Option<Value>, pos: nat)
    requires start <= |t| && At(t, start) == '['
    ensures pos <= |t| && Agrees(ParseArray(t, start + 1, nesting, num), r, pos)
    decreases |t| - start - 1, 2
  {
    pos := SkipWhitespaces(t, start + 1);
    if At(t, pos) == ']' {
      return Some(Array([])), pos + 1;
    }
    r, pos := ReadItems(t, pos, nesting, num);
  }

  /** The loop of parse_array_value. */
  method ReadItems(t: string, start: nat, nesting: nat, num: Numbers) returns (r: Option<Value>, pos: nat)
    requires start <= |t|
    ensures pos <= |t| && Agrees(ParseItems(t, start, nesting, [], num), r, pos)
    decreases |t| - start, 1
  {
    var items: seq<Value> := [];
    pos := start;
    ghost var whole := ParseItems(t, pos, nesting, [], num);
    while At(t, pos) != NUL
      invariant start <= pos <= |t|
      invariant whole == ParseItems(t, pos, nesting, items, num)
      decreases |t| - pos
    {
      var item;
      item, pos := ReadValue(t, pos, nesting, num);
      if item == None {
        return None, pos;
      }
      items := items + [item.value];
      pos := SkipWhitespaces(t, pos);
      if At(t, pos) != ',' {
        if At(t, pos) != ']' {
          return None, pos;
        }
        return Some(Array(items)), pos + 1;
      }
      pos := SkipWhitespaces(t, pos + 1);
    }
    r := None;
  }

  method ReadName(t: string, start: nat) returns (name: Option<string>, pos: nat)
    requires start <= |t|
    ensures pos <= |t|
    ensures match ParseName(t, start)
            case None => name == None
            case Some((found, end)) => name == Some(found) && pos == end
  {
    name, pos := GetQuotedString(t, start);
    if name == None || NUL in name.value {
      return None, pos;
    }
    pos := SkipWhitespaces(t, pos);
    if At(t, pos) != ':' {
      return None, pos;
    }
    pos := pos + 1;
  }

  method ReadMember(t: string, start: nat, nesting: nat, sofar: seq<Member>, num: Numbers)
    returns (members: Option<seq<Member>>, pos: nat)
    requires start <= |t|
    ensures pos <= |t|
    ensures match ParseMember(t, start, nesting, sofar, num)
            case None => members == None
            case Some((found, end)) => members == Some(found) && pos == end
    decreases |t| - start, 0
  {
    var name, value;
    name, pos := ReadName(t, start);
    if name == None {
      return None, pos;
    }
    value, pos := ReadValue(t, pos, nesting, num);
    if value == None {
      return None, pos;
    }
    members := AddMember(sofar, name.value, value.value);
  }

  /** One round of the member loop, with the white space around the comma. */
  lemma MembersGoOn(
      t: string, i: nat, nesting: nat, sofar: seq<Member>, members: seq<Member>, end: nat, num: Numbers)
    requires i <= |t| && end <= |t| && At(t, i) != NUL && ParseMember(t, i, nesting, sofar, num) == Some((members, end))
    ensures var j := SkipSpaces(t, end);
            ParseMembers(t, i, nesting, sofar, num) ==
            if At(t, j) == ',' then ParseMembers(t, SkipSpaces(t, j + 1), nesting, members, num)
            else if At(t, j) == '}' then Some((Object(members), j + 1))
            else None
  {
    assert ParseMembers(t, i, nesting, sofar, num) == AfterMember(t, end, nesting, members, num);
  }

  lemma MembersFail(t: string, i: nat, nesting: nat, sofar: seq<Member>, num: Numbers)
    requires i <= |t| && (At(t, i) == NUL || ParseMember(t, i, nesting, sofar, num).None?)
    ensures ParseMembers(t, i, nesting, sofar, num).None?
  {
  }

  /** The body of the loop of parse_object_value: a member and what separates it from the next, or the end. */
  method ReadMemberAndSeparator(t: string, start: nat, nesting: nat, sofar: seq<Member>, num: Numbers)
    returns (more: bool, members: seq<Member>, r: Option<Value>, pos: nat)
    requires start <= |t| && At(t, start) != NUL
    ensures pos <= |t|
    ensures more ==> start < pos && ParseMembers(t, start, nesting, sofar, num) == ParseMembers(t, pos, nesting, members, num)
    ensures !more ==> Agrees(ParseMembers(t, start, nesting, sofar, num), r, pos)
    decreases |t| - start, 1
  {
    var added;
    added, pos := ReadMember(t, start, nesting, sofar, num);
    if added == None {
      MembersFail(t, start, nesting, sofar, num);
      return false, [], None, pos;
    }
    members := added.value;
    MembersGoOn(t, start, nesting, sofar, members, pos, num);
    pos := SkipWhitespaces(t, pos);
    if At(t, pos) == ',' {
      pos := SkipWhitespaces(t, pos + 1);
      return true, members, None, pos;
    }
    if At(t, pos) != '}' {
      return false, members, None, pos;
    }
    return false, members, Some(Object(members)), pos + 1;
  }

  method ReadObject(t: string, start: nat, nesting: nat, num: Numbers) returns (r: Option<Value>, pos: nat)
    requires start <= |t| && At(t, start) == '{'
    ensures pos <= |t| && Agrees(ParseObject(t, start + 1, nesting, num), r, pos)
    decreases |t| - start - 1, 2
  {
    var members: seq<Member> := [];
    pos := SkipWhitespaces(t, start + 1);
    if At(t, pos) == '}' {
      return Some(Object([])), pos + 1;
    }
    ghost var whole := ParseMembers(t, pos, nesting, [], num);
    while At(t, pos) != NUL
      invariant start < pos <= |t|
      invariant whole == ParseMembers(t, pos, nesting, members, num)
      decreases |t| - pos
    {
      var more;
      more, members, r, pos := ReadMemberAndSeparator(t, pos, nesting, members, num);
      if !more {
        return;
      }
    }
    MembersFail(t, pos, nesting, members, num);
    r := None;
  }

  /** json_parse_string: skips a byte order mark, and ignores whatever follows the value. */
  function ParseText(t: string, num: Numbers): Option<Value> {
    var start := if |t| >= 3 && t[0] == 0xEF as char && t[1] == 0xBB as char && t[2] == 0xBF as char then 3 else 0;
    match ParseValue(t, start, 0, num)
    case None => None
    case Some((v, _)) => Some(v)
  }
}
