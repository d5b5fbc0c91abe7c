/** The text that the serialiser of parson.c writes for a tree. */
module JsonPrint {
  import opened CText
  import opened Common
  import opened JsonString
  import opened JsonValue

  /**
   * Number text is libc's: `format` is sprintf with "%1.17g", `scan` is strtod with the checks parson makes on what it
   * read, and `double` holds of the values a double can take.
   */
  datatype Numbers = Numbers(format: real -> string, scan: (string, nat) -> Option<(real, nat)>, double: real -> bool)

  /** The bytes strtod stops at in serialiser output. */
  predicate EndsNumber(c: char) {
    c == NUL || c == ',' || c == ']' || c == '}' || IsSpace(c)
  }

  /** No quote, backslash, slash or NUL: the text of tokens, numbers and layout. */
  predicate IsPlain(p: string) {
    forall c | c in p :: c != '"' && c != '\\' && c != '/' && c != NUL
  }

  /** The bytes of printed numbers. */
  predicate IsNumberByte(c: char) {
    '0' <= c <= '9' || c == '-' || c == '+' || c == '.' || c == 'e' || c == 'E'
  }

  predicate IsNumberStart(c: char) {
    c == '-' || '0' <= c <= '9'
  }

  /** The assumption on libc: number text looks like a number, is short, and is read back as the same number. */
  ghost predicate Faithful(num: Numbers) {
    forall x | num.double(x) ::
      var p := num.format(x);
      0 < |p| < 64 && IsNumberStart(p[0]) && (forall c | c in p :: IsNumberByte(c)) &&
      forall t, i: nat | HasAt(t, i, p) && EndsNumber(At(t, i + |p|)) :: num.scan(t, i) == Some((x, i + |p|))
  }

  /** The assumption can be met: here by the ten digits. */
  lemma DigitsAreFaithful()
    ensures Faithful(Numbers(DigitText, DigitAt, IsDigit)) && IsDigit(7.0)
  {
  }

  predicate IsDigit(x: real) {
    0.0 <= x <= 9.0 && x == x.Floor as real
  }

  function DigitText(x: real): string {
    if IsDigit(x) then [('0' as int + x.Floor) as char] else ""
  }

  function DigitAt(t: string, i: nat): Option<(real, nat)> {
    if i < |t| && '0' <= t[i] <= '9' then Some(((t[i] as int - '0' as int) as real, i + 1)) else None
  }

  /** The trees the library builds: distinct NUL-free names in every object, and numbers that are doubles. */
  predicate WellFormed(v: Value, num: Numbers) {
    match v
    case Number(n) => num.double(n)
    case Array(items) => forall x | x in items :: WellFormed(x, num)
    case Object(ms) => DistinctNames(ms) && forall m | m in ms :: NUL !in m.name && WellFormed(m.value, num)
    case _ => true
  }

  /** The is_pretty argument and the parson_escape_slashes setting. */
  datatype Style = Style(pretty: bool, slashes: bool)

  function Spaces(n: nat): (s: string)
    ensures |s| == 4 * n && forall c | c in s :: c == ' '
  {
    if n == 0 then "" else "    " + Spaces(n - 1)
  }

  function Indent(level: nat, st: Style): string {
    if st.pretty then Spaces(level) else ""
  }

  function Newline(st: Style): string {
    if st.pretty then "\n" else ""
  }

  function Comma(more: bool): string {
    if more then "," else ""
  }

  /** The text json_serialize_to_buffer_r writes for v. */
  function Print(v: Value, level: nat, st: Style, num: Numbers): string
    decreases v
  {
    match v
    case Null => "null"
    case Boolean(b) => if b then "true" else "false"
    case Number(n) => num.format(n)
    case String(s) => Quote(s, st.slashes)
    case Array(items) => if items == [] then "[]" else "[" + Newline(st) + PrintItems(items, level, st, num)
    case Object(ms) => if ms == [] then "{}" else "{" + Newline(st) + PrintMembers(ms, level, st, num)
  }

  /** The remaining items of an array and its closing bracket. */
  function PrintItems(items: seq<Value>, level: nat, st: Style, num: Numbers): string
    decreases items
  {
    if items == [] then Indent(level, st) + "]"
    else
      Indent(level + 1, st) + Print(items[0], level + 1, st, num) +
      Comma(|items| > 1) + Newline(st) + PrintItems(items[1..], level, st, num)
  }

  /** The name of a member, the colon, and the blank that follows it in the pretty form. */
  function PrintName(name: string, st: Style): string {
    Quote(name, st.slashes) + ":" + if st.pretty then " " else ""
  }

  /** The remaining members of an object and its closing brace. */
  function PrintMembers(ms: seq<Member>, level: nat, st: Style, num: Numbers): string
    decreases ms
  {
    if ms == [] then Indent(level, st) + "}"
    else
      Indent(level + 1, st) + PrintName(ms[0].name, st) + Print(ms[0].value, level + 1, st, num) +
      Comma(|ms| > 1) + Newline(st) + PrintMembers(ms[1..], level, st, num)
  }
}
