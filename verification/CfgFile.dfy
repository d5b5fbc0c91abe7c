/** Configuration files: the line reader, the section and item store, and the writer (cfg.c, and trim of utils.c). */
module CfgFile {
  import opened CText
  import opened Common

  const LINE_SIZE: nat := 1022
  const NAME_SIZE: nat := 64

  datatype Item = Item(keyword: string, value: string, desc: Option<string>)

  datatype Section = Section(name: string, items: seq<Item>)

  // ---------------------------------------------------------------------------------------------
  // Text

  function Upper(s: string): (r: string)
    ensures |r| == |s| && forall k | 0 <= k < |s| :: r[k] == ToUpper(s[k])
  {
    if s == "" then "" else [ToUpper(s[0])] + Upper(s[1..])
  }

  function TrimEnd(s: string): (r: string)
    ensures r <= s && (r != "" ==> !IsSpace(r[|r| - 1]))
  {
    if s != "" && IsSpace(s[|s| - 1]) then TrimEnd(s[..|s| - 1]) else s
  }

  /** The bytes that trim drops in front. */
  predicate IsBlank(c: char) {
    IsSpace(c) || NUL < c < ' '
  }

  function TrimStart(s: string): (r: string)
    ensures r != "" ==> !IsBlank(r[0])
  {
    if s != "" && IsBlank(s[0]) then TrimStart(s[1..]) else s
  }

  /** trim. */
  function Trim(s: string): string {
    TrimEnd(TrimStart(s))
  }

  /** strchr: the first position of c, or the length. */
  function IndexOf(s: string, c: char): (i: nat)
    ensures i <= |s| && (i < |s| ==> s[i] == c) && forall k | 0 <= k < i :: s[k] != c
  {
    if s == "" || s[0] == c then 0 else 1 + IndexOf(s[1..], c)
  }

  function Take(s: string, n: nat): string {
    if |s| <= n then s else s[..n]
  }

  /** The C string in a buffer: what stands before the first NUL. */
  function CString(s: string): (r: string)
    ensures r <= s && NUL !in r && (NUL !in s ==> r == s)
  {
    s[..IndexOf(s, NUL)]
  }

  // ---------------------------------------------------------------------------------------------
  // Reading lines (_readline)

  /** A raw line, what of the file is left, and whether the read met the end of the file. */
  datatype Line = Line(raw: string, rest: string, eof: bool)

  /** What _readline does with one byte: whether the line is over, and the bytes collected. */
  function Accept(raw: string, c: char): (bool, string) {
    if c >= 0x80 as char then (false, raw)
    else if c == '\n' then (true, raw)
    else if raw != "" then if |raw| < LINE_SIZE - 1 then (false, raw + [c]) else (true, raw)
    else if IsSpace(c) then (false, "")
    else (false, [c])
  }

  /** What _readline collects from the rest of a file, after the bytes in raw. */
  function ScanLine(u: string, raw: string): (r: Line)
    ensures |r.rest| <= |u| && (!r.eof ==> |r.rest| < |u|)
    decreases |u|
  {
    if u == "" then Line(raw, "", true)
    else
      var (over, raw') := Accept(raw, u[0]);
      if over then Line(raw', u[1..], false) else ScanLine(u[1..], raw')
  }

  /** The lines of a file as cfg_read sees them; text that ends in a newline has an empty line behind it. */
  function Lines(u: string): (r: seq<string>)
    ensures r != []
    decreases |u|
  {
    var l := ScanLine(u, "");
    [CString(TrimEnd(l.raw))] + if l.eof then [] else Lines(l.rest)
  }

  /** A file that is read from the front. */
  class File {
    const text: string
    var pos: nat
    var eof: bool

    ghost predicate Valid()
      reads this
    {
      pos <= |text|
    }

    /** What has not been read yet. */
    ghost function Rest(): string
      requires Valid()
      reads this
    {
      text[pos..]
    }

    constructor (text: string)
      ensures Valid() && Rest() == text && !eof
    {
      this.text, pos, eof := text, 0, false;
    }

    /** fgetc: None is EOF, which sets the end-of-file indicator. */
    method Getc() returns (c: Option<char>)
      requires Valid()
      modifies this
      ensures Valid()
      ensures if old(Rest()) == "" then c == None && eof && Rest() == ""
              else c == Some(old(Rest())[0]) && Rest() == old(Rest())[1..] && eof == old(eof)
    {
      if pos == |text| {
        eof := true;
        return None;
      }
      c := Some(text[pos]);
      pos := pos + 1;
    }

    /** _readline, into a buffer of LINE_SIZE bytes; its callers see the buffer up to its first NUL. */
    method ReadLine() returns (line: Option<string>)
      requires Valid()
      modifies this
      ensures Valid()
      ensures old(eof) ==> line == None && unchanged(this)
      ensures !old(eof) ==>
                var l := ScanLine(old(Rest()), "");
                line == Some(CString(TrimEnd(l.raw))) && Rest() == l.rest && eof == l.eof
    {
      if eof {
        return None;
      }
      ghost var spec := ScanLine(Rest(), "");
      var buffer := new char[LINE_SIZE];
      var ptr, over := 0, false;
      buffer[0] := NUL;
      assert buffer[..0] == "";
      while !over && !eof
        invariant Valid() && 0 <= ptr < LINE_SIZE
        invariant over ==> !eof && spec == Line(buffer[..ptr], Rest(), false)
        invariant eof ==> spec == Line(buffer[..ptr], Rest(), true)
        invariant !over && !eof ==> spec == ScanLine(Rest(), buffer[..ptr])
        decreases |text| - pos, !over, !eof
      {
        var c := Getc();
        if c.Some? {
          over, ptr := Store(buffer, ptr, c.value);
        }
      }
      ptr := TrimLine(buffer, ptr);
      return Some(CString(buffer[..ptr]));
    }
  }

  /** The end of _readline: white space at the end goes. */
  method TrimLine(buffer: array<char>, ptr: nat) returns (ptr': nat)
    requires ptr < buffer.Length
    modifies buffer
    ensures ptr' < buffer.Length && buffer[..ptr'] == TrimEnd(old(buffer[..ptr]))
  {
    ptr' := ptr;
    while ptr' > 0 && IsSpace(buffer[ptr' - 1])
      invariant ptr' <= ptr && TrimEnd(buffer[..ptr']) == TrimEnd(old(buffer[..ptr]))
      invariant buffer[..] == old(buffer[..])
    {
      assert buffer[..ptr'][..ptr' - 1] == buffer[..ptr' - 1];
      ptr' := ptr' - 1;
    }
    buffer[ptr'] := NUL;
  }

  /** The loop body of _readline. */
  method Store(buffer: array<char>, ptr: nat, c: char) returns (over: bool, ptr': nat)
    requires buffer.Length == LINE_SIZE && ptr < LINE_SIZE
    modifies buffer
    ensures ptr' < LINE_SIZE
    ensures var (stop, raw) := Accept(old(buffer[..ptr]), c); over == stop && buffer[..ptr'] == raw
  {
    over, ptr' := false, ptr;
    if c >= 0x80 as char {
    } else if c == '\n' {
      over := true;
    } else if ptr > 0 {
      if ptr < LINE_SIZE - 1 {
        buffer[ptr] := c;
        ptr' := ptr + 1;
      } else {
        over := true;
      }
    } else if !IsSpace(c) {
      buffer[ptr] := c;
      ptr' := ptr + 1;
    }
    assert buffer[..ptr] == old(buffer[..ptr]);
  }

  // ---------------------------------------------------------------------------------------------
  // The store

  /** The index of the section with this exact name, or the number of sections. */
  function FindSection(sections: seq<Section>, name: string): (i: nat)
    ensures i <= |sections| && (i < |sections| ==> sections[i].name == name)
    ensures forall k | 0 <= k < i :: sections[k].name != name
  {
    FirstIndex(sections, (s: Section) => s.name == name)
  }

  /** The index of the item with this exact keyword, or the number of items. */
  function FindItem(items: seq<Item>, keyword: string): (i: nat)
    ensures i <= |items| && (i < |items| ==> items[i].keyword == keyword)
    ensures forall k | 0 <= k < i :: items[k].keyword != keyword
  {
    FirstIndex(items, (x: Item) => x.keyword == keyword)
  }

  /** An item of the same keyword is deleted, and the new one goes to the end. */
  function PutItem(items: seq<Item>, item: Item): seq<Item> {
    var i := FindItem(items, item.keyword);
    (if i < |items| then items[..i] + items[i + 1..] else items) + [item]
  }

  // ---------------------------------------------------------------------------------------------
  // What a line does (cfg_read)

  /** The loop state of cfg_read: the sections, the current one, and the comment waiting for an item. */
  datatype Reader = Reader(sections: seq<Section>, cur: Option<nat>, desc: string)

  predicate IsHeader(line: string) {
    line != "" && line[0] == '[' && ']' in line
  }

  predicate IsComment(line: string) {
    line != "" && (line[0] == ';' || line[0] == '#')
  }

  /** The name in a header, in upper case and cut off at the size of the name buffer. */
  function HeaderName(line: string): string
    requires line != ""
  {
    Take(Upper(line[1..][..IndexOf(line[1..], ']')]), NAME_SIZE - 1)
  }

  /** Where the keyword ends: at the first equals sign, or where its buffer is full. */
  function KeyEnd(line: string): (end: nat)
    ensures end <= |line|
  {
    Min(IndexOf(line, '='), NAME_SIZE - 1)
  }

  /** The item in a line: the byte behind the keyword, in most lines the equals sign, is passed over. */
  function ItemOf(line: string, desc: string): Item {
    var end := KeyEnd(line);
    Item(Trim(Upper(line[..end])), if end < |line| then line[end + 1..] else "", if desc == "" then None else Some(desc))
  }

  predicate ReaderOk(r: Reader) {
    r.cur.Some? ==> r.cur.value < |r.sections|
  }

  /** The line of an item, which is looked at only in a section. */
  predicate IsItem(cur: Option<nat>, line: string) {
    line != "" && !IsHeader(line) && cur.Some? && !IsComment(line)
  }

  /** In a line that makes an item there is a byte behind the keyword, so that the value starts inside the line. */
  predicate LineOk(cur: Option<nat>, line: string) {
    IsItem(cur, line) ==> KeyEnd(line) < |line|
  }

  function ReadLineInto(r: Reader, line: string): (r': Reader)
    requires ReaderOk(r)
    ensures ReaderOk(r')
  {
    if line == "" then r.(cur := None)
    else if IsHeader(line) then
      var name := HeaderName(line);
      var i := FindSection(r.sections, name);
      Reader(if i < |r.sections| then r.sections else r.sections + [Section(name, [])], Some(i), "")
    else if r.cur.None? then r
    else if IsComment(line) then r.(desc := line)
    else
      var i := r.cur.value;
      var section := r.sections[i];
      Reader(r.sections[i := section.(items := PutItem(section.items, ItemOf(line, r.desc)))], r.cur, "")
  }

  function ReadLines(r: Reader, lines: seq<string>): (r': Reader)
    requires ReaderOk(r)
    ensures ReaderOk(r')
    decreases |lines|
  {
    if lines == [] then r else ReadLines(ReadLineInto(r, lines[0]), lines[1..])
  }

  const START := Reader([], None, "")

  /** Every line makes sense where it stands. */
  predicate LinesOk(r: Reader, lines: seq<string>)
    requires ReaderOk(r)
    decreases |lines|
  {
    lines == [] || (LineOk(r.cur, lines[0]) && LinesOk(ReadLineInto(r, lines[0]), lines[1..]))
  }

  /** cfg_read. */
  function Read(text: string): seq<Section> {
    ReadLines(START, Lines(text)).sections
  }

  // ---------------------------------------------------------------------------------------------
  // What is written (cfg_write)

  function CommentLine(desc: string): string {
    if desc != "" && desc[0] == ';' then desc else ";" + desc
  }

  function ItemLines(item: Item): seq<string> {
    (if item.desc.Some? then [CommentLine(item.desc.value)] else []) + [item.keyword + "=" + item.value]
  }

  function ItemsLines(items: seq<Item>): seq<string> {
    if items == [] then [] else ItemLines(items[0]) + ItemsLines(items[1..])
  }

  function SectionLines(section: Section): seq<string> {
    ["[" + section.name + "]"] + ItemsLines(section.items) + [""]
  }

  function StoreLines(sections: seq<Section>): seq<string> {
    if sections == [] then [] else SectionLines(sections[0]) + StoreLines(sections[1..])
  }

  function Joined(lines: seq<string>): string {
    if lines == [] then "" else lines[0] + "\n" + Joined(lines[1..])
  }

  /** cfg_write. */
  function Write(sections: seq<Section>): string {
    Joined(StoreLines(sections))
  }

  /** The name loop of cfg_read. */
  method ReadHeader(line: string) returns (name: string)
    requires IsHeader(line)
    ensures name == HeaderName(line)
  {
    var end := IndexOf(line[1..], ']') + 1;
    ghost var whole := Upper(line[1..][..end - 1]);
    name := "";
    var ptr := 1;
    while ptr < end && |name| < NAME_SIZE - 1
      invariant 1 <= ptr <= end && name == whole[..ptr - 1] && |name| <= NAME_SIZE - 1
    {
      name := name + [ToUpper(line[ptr])];
      ptr := ptr + 1;
    }
  }

  /** The keyword loop of cfg_read. */
  method ReadKeyword(line: string) returns (keyword: string, ptr: nat)
    ensures ptr == KeyEnd(line) && keyword == Upper(line[..ptr])
  {
    ghost var end := KeyEnd(line);
    ghost var whole := Upper(line[..end]);
    keyword, ptr := "", 0;
    while ptr < |line| && line[ptr] != '=' && |keyword| < NAME_SIZE - 1
      invariant ptr <= end && keyword == whole[..ptr]
    {
      keyword := keyword + [ToUpper(line[ptr])];
      ptr := ptr + 1;
    }
  }

  lemma UpperTwice(line: string)
    requires line != ""
    ensures Upper(HeaderName(line)) == HeaderName(line)
  {
  }

  // ---------------------------------------------------------------------------------------------
  // The functions that work on the store

  class Cfg {
    var sections: seq<Section>

    constructor ()
      ensures sections == []
    {
      sections := [];
    }

    /** cfg_get_section: names are compared in upper case. */
    method GetSection(name: string) returns (i: nat)
      ensures i == FindSection(sections, Upper(name))
    {
      var secname := Upper(name);
      i := 0;
      while i < |sections| && sections[i].name != secname
        invariant i <= FindSection(sections, secname)
      {
        i := i + 1;
      }
    }

    /** _cfg_get_item. */
    method FindItemIn(section: nat, keyword: string) returns (i: nat)
      requires section < |sections|
      ensures i == FindItem(sections[section].items, keyword)
    {
      i := 0;
      while i < |sections[section].items| && sections[section].items[i].keyword != keyword
        invariant i <= FindItem(sections[section].items, keyword)
      {
        i := i + 1;
      }
    }

    /** cfg_get_item. */
    method GetItem(name: string, keyword: string) returns (value: Option<string>)
      ensures value == ValueOf(sections, name, keyword)
    {
      var s := GetSection(name);
      if s == |sections| {
        return None;
      }
      var i := FindItemIn(s, Upper(keyword));
      return if i < |sections[s].items| then Some(sections[s].items[i].value) else None;
    }

    /** cfg_set_item, for names and keywords that fit their buffers. */
    method SetItem(name: string, keyword: string, desc: Option<string>, value: string)
      requires |name| < NAME_SIZE && |keyword| < NAME_SIZE - 1
      modifies this
      ensures sections == SetItemIn(old(sections), name, keyword, desc, value)
    {
      var s := GetSection(name);
      if s == |sections| {
        sections := sections + [Section(Upper(name), [])];
      }
      var section := sections[s];
      var i := FindItemIn(s, Upper(keyword));
      if i < |section.items| {
        var item := section.items[i];
        sections := sections[s := section.(items := section.items[i := item.(value := value, desc := if desc.Some? then desc else item.desc)])];
      } else {
        sections := sections[s := section.(items := section.items + [Item(Upper(keyword), value, desc)])];
      }
    }

    /** cfg_read, on the contents of the file. */
    method ReadFrom(text: string)
      requires LinesOk(START, Lines(text))
      modifies this
      ensures sections == Read(text)
    {
      sections := [];
      var file := new File(text);
      var cur: Option<nat>, desc := None, "";
      while true
        invariant file.Valid() && fresh(file)
        invariant ReaderOk(Reader(sections, cur, desc))
        invariant if file.eof then Reader(sections, cur, desc) == ReadLines(START, Lines(text))
                  else ReadLines(Reader(sections, cur, desc), Lines(file.Rest())) == ReadLines(START, Lines(text)) &&
                       LinesOk(Reader(sections, cur, desc), Lines(file.Rest()))
        decreases |file.text| - file.pos, !file.eof
      {
        ghost var rest := if file.eof then [] else Lines(file.Rest());
        var line := file.ReadLine();
        if line == None {
          break;
        }
        assert line.value == rest[0];
        assert rest[1..] == if file.eof then [] else Lines(file.Rest());
        cur, desc := TakeLine(line.value, cur, desc);
      }
    }

    /** The loop body of cfg_read. */
    method TakeLine(line: string, cur: Option<nat>, desc: string) returns (cur': Option<nat>, desc': string)
      requires ReaderOk(Reader(sections, cur, desc)) && LineOk(cur, line)
      modifies this
      ensures Reader(sections, cur', desc') == ReadLineInto(Reader(old(sections), cur, desc), line)
    {
      cur', desc' := cur, desc;
      if line == "" {
        cur' := None;
      } else if line[0] == '[' && ']' in line {
        var name := ReadHeader(line);
        var i := GetSection(name);
        UpperTwice(line);
        if i == |sections| {
          sections := sections + [Section(Upper(name), [])];
        }
        cur', desc' := Some(i), "";
      } else if cur.None? {
      } else if line[0] == ';' || line[0] == '#' {
        desc' := line;
      } else {
        TakeItem(line, cur.value, desc);
        desc' := "";
      }
    }

    /** The last part of the loop body: an item line, which replaces an earlier item of the same keyword. */
    method TakeItem(line: string, at: nat, desc: string)
      requires at < |sections| && KeyEnd(line) < |line|
      modifies this
      ensures var section := old(sections)[at];
              sections == old(sections)[at := section.(items := PutItem(section.items, ItemOf(line, desc)))]
    {
      var keyword, ptr := ReadKeyword(line);
      var item := Item(Trim(keyword), line[ptr + 1..], if desc == "" then None else Some(desc));
      var section := sections[at];
      var i := FindItemIn(at, item.keyword);
      if i < |section.items| {
        section := section.(items := section.items[..i] + section.items[i + 1..]);
      }
      sections := sections[at := section.(items := section.items + [item])];
    }

    /** cfg_write. */
    method WriteTo() returns (text: string)
      ensures text == Write(sections)
    {
      text := "";
      assert sections[..0] == [];
      for i := 0 to |sections|
        invariant text == Write(sections[..i])
      {
        StoreLinesGrow(sections, i);
        text := WriteSection(text, sections[i]);
      }
      assert sections[..|sections|] == sections;
    }
  }

  /** The loop body of cfg_write. */
  method WriteSection(before: string, section: Section) returns (text: string)
    ensures text == before + Joined(SectionLines(section))
  {
    var items := section.items;
    text := before + "[" + section.name + "]\n";
    ghost var start := text;
    assert items[..0] == [];
    for j := 0 to |items|
      invariant text == start + Joined(ItemsLines(items[..j]))
    {
      ItemsLinesGrow(items, j);
      text := WriteItem(text, items[j]);
    }
    assert items[..|items|] == items;
    text := text + "\n";
    SectionText(section);
  }

  /** The loop body of the item loop of cfg_write. */
  method WriteItem(before: string, item: Item) returns (text: string)
    ensures text == before + Joined(ItemLines(item))
  {
    text := before;
    if item.desc.Some? {
      if item.desc.value == "" || item.desc.value[0] != ';' {
        text := text + ";";
      }
      text := text + item.desc.value + "\n";
    }
    text := text + item.keyword + "=" + item.value + "\n";
    ItemText(item);
  }

  lemma ItemText(item: Item)
    ensures Joined(ItemLines(item)) ==
            (if item.desc.Some? then CommentLine(item.desc.value) + "\n" else "") + item.keyword + "=" + item.value + "\n"
  {
    var last := item.keyword + "=" + item.value;
    assert Joined([last]) == last + "\n" + "";
    if item.desc.Some? {
      var comment := CommentLine(item.desc.value);
      assert ItemLines(item) == [comment, last] && [comment, last][1..] == [last];
    } else {
      assert ItemLines(item) == [last];
    }
  }

  lemma SectionText(section: Section)
    ensures Joined(SectionLines(section)) == "[" + section.name + "]\n" + Joined(ItemsLines(section.items)) + "\n"
  {
    var header, items := "[" + section.name + "]", ItemsLines(section.items);
    JoinedConcat([header] + items, [""]);
    JoinedConcat([header], items);
    assert Joined([header]) == header + "\n" + "" && Joined([""]) == "" + "\n" + "";
  }

  lemma {:induction false} JoinedConcat(a: seq<string>, b: seq<string>)
    ensures Joined(a + b) == Joined(a) + Joined(b)
  {
    if a == [] {
      assert a + b == b;
    } else {
      assert (a + b)[1..] == a[1..] + b;
      JoinedConcat(a[1..], b);
      assert a[0] + "\n" + (Joined(a[1..]) + Joined(b)) == a[0] + "\n" + Joined(a[1..]) + Joined(b);
    }
  }

  lemma {:induction false} ItemsLinesConcat(a: seq<Item>, b: seq<Item>)
    ensures ItemsLines(a + b) == ItemsLines(a) + ItemsLines(b)
  {
    if a == [] {
      assert a + b == b;
    } else {
      assert (a + b)[1..] == a[1..] + b;
      ItemsLinesConcat(a[1..], b);
    }
  }

  lemma ItemsLinesGrow(items: seq<Item>, j: nat)
    requires j < |items|
    ensures Joined(ItemsLines(items[..j + 1])) == Joined(ItemsLines(items[..j])) + Joined(ItemLines(items[j]))
  {
    assert items[..j + 1] == items[..j] + [items[j]];
    ItemsLinesConcat(items[..j], [items[j]]);
    assert ItemsLines([items[j]]) == ItemLines(items[j]) + [] == ItemLines(items[j]);
    JoinedConcat(ItemsLines(items[..j]), ItemLines(items[j]));
  }

  lemma {:induction false} StoreLinesConcat(a: seq<Section>, b: seq<Section>)
    ensures StoreLines(a + b) == StoreLines(a) + StoreLines(b)
  {
    if a == [] {
      assert a + b == b;
    } else {
      assert (a + b)[1..] == a[1..] + b;
      StoreLinesConcat(a[1..], b);
    }
  }

  lemma StoreLinesGrow(sections: seq<Section>, i: nat)
    requires i < |sections|
    ensures Write(sections[..i + 1]) == Write(sections[..i]) + Joined(SectionLines(sections[i]))
  {
    assert sections[..i + 1] == sections[..i] + [sections[i]];
    StoreLinesConcat(sections[..i], [sections[i]]);
    assert StoreLines([sections[i]]) == SectionLines(sections[i]) + [] == SectionLines(sections[i]);
    JoinedConcat(StoreLines(sections[..i]), SectionLines(sections[i]));
  }

  // ---------------------------------------------------------------------------------------------
  // Setting and getting items

  function ValueOf(sections: seq<Section>, name: string, keyword: string): Option<string> {
    var s := FindSection(sections, Upper(name));
    if s == |sections| then None
    else
      var i := FindItem(sections[s].items, Upper(keyword));
      if i < |sections[s].items| then Some(sections[s].items[i].value) else None
  }

  function SetItemIn(sections: seq<Section>, name: string, keyword: string, desc: Option<string>, value: string)
    : (r: seq<Section>)
  {
    var s := FindSection(sections, Upper(name));
    var all := if s == |sections| then sections + [Section(Upper(name), [])] else sections;
    var items := all[s].items;
    var i := FindItem(items, Upper(keyword));
    var items' :=
      if i < |items| then items[i := items[i].(value := value, desc := if desc.Some? then desc else items[i].desc)]
      else items + [Item(Upper(keyword), value, desc)];
    all[s := all[s].(items := items')]
  }

  /** Finding after one entry has been overwritten by one of the same name, or has been added at the end. */
  lemma FindSectionAfter(a: seq<Section>, b: seq<Section>, name: string)
    requires |a| <= |b| && forall k | 0 <= k < |a| :: a[k].name == b[k].name
    ensures FindSection(a, name) < |a| ==> FindSection(b, name) == FindSection(a, name)
    ensures FindSection(a, name) == |a| && |b| == |a| + 1 ==>
              FindSection(b, name) == if b[|a|].name == name then |a| else |b|
    ensures FindSection(a, name) == |a| == |b| ==> FindSection(b, name) == |b|
  {
  }

  lemma FindItemAfter(a: seq<Item>, b: seq<Item>, keyword: string)
    requires |a| <= |b| && forall k | 0 <= k < |a| :: a[k].keyword == b[k].keyword
    ensures FindItem(a, keyword) < |a| ==> FindItem(b, keyword) == FindItem(a, keyword)
    ensures FindItem(a, keyword) == |a| && |b| == |a| + 1 ==>
              FindItem(b, keyword) == if b[|a|].keyword == keyword then |a| else |b|
    ensures FindItem(a, keyword) == |a| == |b| ==> FindItem(b, keyword) == |b|
  {
  }

  /** cfg_set_item changes what cfg_get_item finds under its own names, in whatever case, and nothing else. */
  lemma SetThenGet(
      sections: seq<Section>, name: string, keyword: string, desc: Option<string>, value: string, n: string, k: string)
    ensures ValueOf(SetItemIn(sections, name, keyword, desc, value), n, k) ==
            if Upper(n) == Upper(name) && Upper(k) == Upper(keyword) then Some(value) else ValueOf(sections, n, k)
  {
    var s := FindSection(sections, Upper(name));
    var all := if s == |sections| then sections + [Section(Upper(name), [])] else sections;
    var r := SetItemIn(sections, name, keyword, desc, value);
    FindSectionAfter(sections, r, Upper(n));
    FindSectionAfter(sections, r, Upper(name));
    if Upper(n) == Upper(name) {
      FindItemAfter(all[s].items, r[s].items, Upper(k));
      FindItemAfter(all[s].items, r[s].items, Upper(keyword));
    }
  }
}
