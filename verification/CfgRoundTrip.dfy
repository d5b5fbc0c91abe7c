/** Reading back what was written, and the normal form of a configuration file. */
module CfgRoundTrip {
  import opened CText
  import opened Common
  import opened CfgFile

  // ---------------------------------------------------------------------------------------------
  // Which stores cfg_read makes

  /** A byte that neither ends a line nor is dropped from it. */
  predicate CleanChar(c: char) {
    (' ' <= c < 0x80 as char) || (IsSpace(c) && c != '\n')
  }

  /** Nothing in the line is dropped, nor is white space at its ends. */
  predicate CleanText(l: string) {
    (forall c | c in l :: CleanChar(c)) && (l != "" ==> !IsSpace(l[0]) && !IsSpace(l[|l| - 1]))
  }

  /** A line that _readline returns as it stands. */
  predicate CleanLine(l: string) {
    CleanText(l) && |l| < LINE_SIZE
  }

  function KeyValue(item: Item): string {
    item.keyword + "=" + item.value
  }

  predicate KeywordOk(k: string) {
    Upper(k) == k && Trim(k) == k && '=' !in k && |k| < NAME_SIZE
  }

  predicate ItemFair(item: Item) {
    KeywordOk(item.keyword) && (item.desc.Some? ==> IsComment(item.desc.value) && CleanLine(item.desc.value)) &&
    CleanLine(KeyValue(item)) && !IsHeader(KeyValue(item)) && !IsComment(KeyValue(item))
  }

  predicate FairItems(items: seq<Item>) {
    items == [] || (ItemFair(items[0]) && FairItems(items[1..]))
  }

  lemma {:induction false} FairItemsAre(items: seq<Item>)
    ensures FairItems(items) <==> forall i | 0 <= i < |items| :: ItemFair(items[i])
  {
    if items != [] {
      FairItemsAre(items[1..]);
      assert forall i | 0 <= i < |items| - 1 :: items[1..][i] == items[i + 1];
      if forall i | 0 <= i < |items| :: ItemFair(items[i]) {
        forall i | 0 <= i < |items| - 1 ensures ItemFair(items[1..][i]) {
          assert ItemFair(items[i + 1]);
        }
      } else if FairItems(items) {
        forall i | 0 <= i < |items| ensures ItemFair(items[i]) {
          assert i > 0 ==> ItemFair(items[1..][i - 1]);
        }
      }
    }
  }

  predicate DistinctKeywords(items: seq<Item>) {
    forall i, j :: 0 <= i < j < |items| ==> items[i].keyword != items[j].keyword
  }

  predicate NameOk(name: string) {
    Upper(name) == name && ']' !in name && |name| < NAME_SIZE && forall c | c in name :: CleanChar(c)
  }

  predicate SectionFair(section: Section) {
    NameOk(section.name) && DistinctKeywords(section.items) && FairItems(section.items)
  }

  predicate StoreFair(sections: seq<Section>) {
    (forall i | 0 <= i < |sections| :: SectionFair(sections[i])) &&
    forall i, j :: 0 <= i < j < |sections| ==> sections[i].name != sections[j].name
  }

  // ---------------------------------------------------------------------------------------------
  // What a round through the file makes of a store

  /** The comment of the item starts with a hash, so cfg_write puts a semicolon in front of it. */
  predicate HasHash(item: Item) {
    item.desc.Some? && item.desc.value != "" && item.desc.value[0] == '#'
  }

  /** With the semicolon the comment is longer than any line that cfg_read can take. */
  predicate IsTooLong(item: Item) {
    HasHash(item) && |item.desc.value| == LINE_SIZE - 1
  }

  predicate NoHash(items: seq<Item>) {
    forall i | 0 <= i < |items| :: !HasHash(items[i])
  }

  predicate NoneTooLong(items: seq<Item>) {
    forall i | 0 <= i < |items| :: !IsTooLong(items[i])
  }

  function CanonItem(item: Item): Item {
    if item.desc.Some? then item.(desc := Some(CommentLine(item.desc.value))) else item
  }

  /**
   * What comes back of the items of a section: a comment that has become too long is cut in two, the second part reads
   * as a blank line, which ends the section, and the rest of the section is passed over.
   */
  function Kept(items: seq<Item>): (r: seq<Item>)
    ensures |r| <= |items| && forall i | 0 <= i < |r| :: r[i] == CanonItem(items[i]) && !IsTooLong(items[i])
  {
    if items == [] || IsTooLong(items[0]) then [] else [CanonItem(items[0])] + Kept(items[1..])
  }

  function Reread(sections: seq<Section>): (r: seq<Section>)
    ensures |r| == |sections|
    ensures forall i | 0 <= i < |r| :: r[i] == sections[i].(items := Kept(sections[i].items))
  {
    if sections == [] then [] else [sections[0].(items := Kept(sections[0].items))] + Reread(sections[1..])
  }

  // ---------------------------------------------------------------------------------------------
  // Lines come back

  /** What cfg_read sees of a written line: one that fills its buffer is cut, and its newline is left for an empty line. */
  function Seen(l: string): seq<string> {
    if |l| < LINE_SIZE then [l] else [TrimEnd(l[..LINE_SIZE - 1]), ""]
  }

  function SeenAll(lines: seq<string>): seq<string> {
    if lines == [] then [] else Seen(lines[0]) + SeenAll(lines[1..])
  }

  lemma {:induction false} SeenAllConcat(a: seq<string>, b: seq<string>)
    ensures SeenAll(a + b) == SeenAll(a) + SeenAll(b)
  {
    if a == [] {
      assert a + b == b;
    } else {
      assert (a + b)[1..] == a[1..] + b;
      SeenAllConcat(a[1..], b);
    }
  }

  lemma {:induction false} ScanClean(l: string, k: nat, rest: string)
    requires (forall c | c in l :: CleanChar(c)) && (l != "" ==> !IsSpace(l[0]))
    requires |l| <= LINE_SIZE && k <= |l| && k < LINE_SIZE
    ensures ScanLine(l[k..] + "\n" + rest, l[..k]) ==
            if |l| < LINE_SIZE then Line(l, rest, false) else Line(l[..LINE_SIZE - 1], "\n" + rest, false)
    decreases |l| - k
  {
    var u := l[k..] + "\n" + rest;
    if k == |l| {
      assert l[..k] == l && u == "\n" + rest && u[1..] == rest;
    } else {
      assert l[k] in l && CleanChar(l[k]);
      assert u[0] == l[k] && u[1..] == l[k + 1..] + "\n" + rest;
      if k == LINE_SIZE - 1 {
        assert l[k + 1..] == "";
      } else {
        assert l[..k] + [l[k]] == l[..k + 1];
        var (over, raw) := Accept(l[..k], l[k]);
        assert !over && raw == l[..k + 1];
        ScanClean(l, k + 1, rest);
      }
    }
  }

  lemma NoNul(l: string)
    requires forall c | c in l :: CleanChar(c)
    ensures CString(TrimEnd(l)) == TrimEnd(l)
  {
    assert forall c | c in TrimEnd(l) :: c in l;
  }

  lemma {:induction false} LinesOfShortLine(l: string, rest: string)
    requires CleanLine(l)
    ensures Lines(l + "\n" + rest) == [l] + Lines(rest)
  {
    ScanClean(l, 0, rest);
    assert l[0..] == l && l[..0] == "";
    NoNul(l);
  }

  lemma {:induction false} LinesOfLongLine(l: string, rest: string)
    requires CleanText(l) && |l| == LINE_SIZE
    ensures Lines(l + "\n" + rest) == [TrimEnd(l[..LINE_SIZE - 1])] + ([""] + Lines(rest))
  {
    var front := l[..LINE_SIZE - 1];
    ScanClean(l, 0, rest);
    assert l[0..] == l && l[..0] == "";
    assert forall c | c in front :: c in l;
    NoNul(front);
    LinesOfShortLine("", rest);
    assert "" + "\n" + rest == "\n" + rest;
  }

  lemma {:induction false} LinesOfLine(l: string, rest: string)
    requires CleanText(l) && |l| <= LINE_SIZE
    ensures Lines(l + "\n" + rest) == Seen(l) + Lines(rest)
  {
    if |l| < LINE_SIZE {
      LinesOfShortLine(l, rest);
    } else {
      LinesOfLongLine(l, rest);
      var front := TrimEnd(l[..LINE_SIZE - 1]);
      Assoc([front], [""], Lines(rest));
      assert [front] + [""] == [front, ""];
    }
  }

  lemma {:induction false} LinesOfJoined(lines: seq<string>)
    requires forall i | 0 <= i < |lines| :: CleanText(lines[i]) && |lines[i]| <= LINE_SIZE
    ensures Lines(Joined(lines)) == SeenAll(lines) + [""]
  {
    if lines == [] {
      assert TrimEnd("") == "" && CString("") == "";
    } else {
      LinesOfLine(lines[0], Joined(lines[1..]));
      LinesOfJoined(lines[1..]);
      assert Seen(lines[0]) + (SeenAll(lines[1..]) + [""]) == SeenAll(lines) + [""];
    }
  }

  // ---------------------------------------------------------------------------------------------
  // Sections and items come back

  lemma {:induction false} ReadLinesConcat(r: Reader, a: seq<string>, b: seq<string>)
    requires ReaderOk(r)
    ensures ReadLines(r, a + b) == ReadLines(ReadLines(r, a), b)
    decreases |a|
  {
    if a == [] {
      assert a + b == b;
    } else {
      assert (a + b)[1..] == a[1..] + b;
      ReadLinesConcat(ReadLineInto(r, a[0]), a[1..], b);
    }
  }

  lemma {:induction false} ReadPast(r: Reader, lines: seq<string>)
    requires ReaderOk(r) && r.cur == None && forall l | l in lines :: !IsHeader(l)
    ensures ReadLines(r, lines) == r
  {
    if lines != [] {
      assert ReadLineInto(r, lines[0]) == r;
      ReadPast(r, lines[1..]);
    }
  }

  lemma KeyValueEnds(item: Item)
    requires '=' !in item.keyword && |item.keyword| < NAME_SIZE
    ensures KeyEnd(KeyValue(item)) == |item.keyword|
  {
    var line := KeyValue(item);
    assert line[|item.keyword|] == '=';
    assert forall k | 0 <= k < |item.keyword| :: line[k] == item.keyword[k] && line[k] in item.keyword;
  }

  lemma ItemComesBack(item: Item, desc: string)
    requires KeywordOk(item.keyword)
    ensures ItemOf(KeyValue(item), desc) == item.(desc := if desc == "" then None else Some(desc))
  {
    var line := KeyValue(item);
    KeyValueEnds(item);
    assert line[..|item.keyword|] == item.keyword && line[|item.keyword| + 1..] == item.value;
  }

  /** The reader in the last section, which has these items, with no comment waiting. */
  function InSection(before: seq<Section>, name: string, items: seq<Item>): Reader {
    Reader(before + [Section(name, items)], Some(|before|), "")
  }

  /** The line of an item, with its comment waiting, adds the item. */
  lemma {:induction false} ReadKeyValue(before: seq<Section>, name: string, items: seq<Item>, item: Item, desc: string)
    requires ItemFair(item) && forall k | 0 <= k < |items| :: items[k].keyword != item.keyword
    ensures ReadLineInto(InSection(before, name, items).(desc := desc), KeyValue(item)) ==
            InSection(before, name, items + [item.(desc := if desc == "" then None else Some(desc))])
  {
    ItemComesBack(item, desc);
    var item' := ItemOf(KeyValue(item), desc);
    assert PutItem(items, item') == items + [item'];
  }

  lemma {:induction false} OneLine(r: Reader, line: string)
    requires ReaderOk(r)
    ensures ReadLines(r, [line]) == ReadLineInto(r, line)
  {
    assert [line][1..] == [];
  }

  lemma {:induction false} TwoLines(r: Reader, a: string, b: string)
    requires ReaderOk(r)
    ensures ReadLines(r, [a, b]) == ReadLineInto(ReadLineInto(r, a), b)
  {
    assert [a, b][1..] == [b];
    OneLine(ReadLineInto(r, a), b);
  }

  /** A comment that is not too long, and its item. */
  lemma {:induction false} ReadItemLines(before: seq<Section>, name: string, items: seq<Item>, item: Item)
    requires ItemFair(item) && !IsTooLong(item) && forall k | 0 <= k < |items| :: items[k].keyword != item.keyword
    ensures ReadLines(InSection(before, name, items), SeenAll(ItemLines(item))) ==
            InSection(before, name, items + [CanonItem(item)])
  {
    var r, last := InSection(before, name, items), KeyValue(item);
    if item.desc.Some? {
      var desc := CommentLine(item.desc.value);
      assert ItemLines(item) == [desc, last] && [desc, last][1..] == [last] && [last][1..] == [];
      SeenShort([desc, last]);
      TwoLines(r, desc, last);
      assert ReadLineInto(r, desc) == r.(desc := desc);
      ReadKeyValue(before, name, items, item, desc);
    } else {
      assert ItemLines(item) == [last] && [last][1..] == [];
      SeenShort([last]);
      OneLine(r, last);
      ReadKeyValue(before, name, items, item, "");
    }
  }

  /** A comment that is too long ends the section before its item is reached. */
  lemma {:induction false} ReadTooLong(before: seq<Section>, name: string, items: seq<Item>, item: Item)
    requires ItemFair(item) && IsTooLong(item)
    ensures var r := ReadLines(InSection(before, name, items), SeenAll(ItemLines(item)));
            r.sections == before + [Section(name, items)] && r.cur == None
  {
    var r, desc, last := InSection(before, name, items), CommentLine(item.desc.value), KeyValue(item);
    var front := TrimEnd(desc[..LINE_SIZE - 1]);
    TrimEndKeepsFirst(desc[..LINE_SIZE - 1]);
    assert ItemLines(item) == [desc, last] && [desc, last][1..] == [last] && [last][1..] == [];
    assert SeenAll([last]) == [last];
    assert SeenAll([desc, last]) == [front, ""] + [last];
    ReadLinesConcat(r, [front, ""], [last]);
    TwoLines(r, front, "");
    OneLine(ReadLineInto(ReadLineInto(r, front), ""), last);
  }

  lemma {:induction false} NoHeadersSeen(items: seq<Item>)
    requires FairItems(items)
    ensures forall l | l in SeenAll(ItemsLines(items)) :: !IsHeader(l)
  {
    if items != [] {
      var item := items[0];
      NoHeadersSeen(items[1..]);
      SeenAllConcat(ItemLines(item), ItemsLines(items[1..]));
      var last := KeyValue(item);
      assert SeenAll([last]) == [last] + SeenAll([]);
      if item.desc.Some? {
        var desc := CommentLine(item.desc.value);
        assert ItemLines(item) == [desc, last] && [desc, last][1..] == [last];
        assert SeenAll(ItemLines(item)) == Seen(desc) + [last];
        if |desc| >= LINE_SIZE {
          TrimEndKeepsFirst(desc[..LINE_SIZE - 1]);
        }
      } else {
        assert ItemLines(item) == [last];
      }
    }
  }

  lemma {:induction false} ReadEndsAtTooLong(before: seq<Section>, name: string, items: seq<Item>, more: seq<Item>)
    requires more != [] && IsTooLong(more[0]) && FairItems(more)
    ensures ReadLines(InSection(before, name, items), SeenAll(ItemsLines(more))).sections == before + [Section(name, items)]
  {
    var r := InSection(before, name, items);
    var lines, rest := SeenAll(ItemLines(more[0])), SeenAll(ItemsLines(more[1..]));
    SeenAllConcat(ItemLines(more[0]), ItemsLines(more[1..]));
    ReadLinesConcat(r, lines, rest);
    ReadTooLong(before, name, items, more[0]);
    NoHeadersSeen(more[1..]);
    ReadPast(ReadLines(r, lines), rest);
  }

  lemma {:induction false} ReadGoesOn(before: seq<Section>, name: string, items: seq<Item>, more: seq<Item>)
    requires more != [] && !IsTooLong(more[0]) && ItemFair(more[0])
    requires forall k | 0 <= k < |items| :: items[k].keyword != more[0].keyword
    ensures ReadLines(InSection(before, name, items), SeenAll(ItemsLines(more))) ==
            ReadLines(InSection(before, name, items + [CanonItem(more[0])]), SeenAll(ItemsLines(more[1..])))
  {
    var r := InSection(before, name, items);
    var lines, rest := SeenAll(ItemLines(more[0])), SeenAll(ItemsLines(more[1..]));
    SeenAllConcat(ItemLines(more[0]), ItemsLines(more[1..]));
    ReadLinesConcat(r, lines, rest);
    ReadItemLines(before, name, items, more[0]);
  }

  lemma {:induction false} ReadItemsLines(before: seq<Section>, name: string, items: seq<Item>, more: seq<Item>)
    requires DistinctKeywords(items + more) && FairItems(more)
    ensures ReadLines(InSection(before, name, items), SeenAll(ItemsLines(more))).sections ==
            before + [Section(name, items + Kept(more))]
    decreases |more|
  {
    if more == [] || IsTooLong(more[0]) {
      assert items + [] == items;
      if more != [] {
        ReadEndsAtTooLong(before, name, items, more);
      }
    } else {
      DistinctAfter(items, more);
      ReadGoesOn(before, name, items, more);
      ReadItemsLines(before, name, items + [CanonItem(more[0])], more[1..]);
      Assoc(items, [CanonItem(more[0])], Kept(more[1..]));
    }
  }

  lemma {:induction false} DistinctAfter(items: seq<Item>, more: seq<Item>)
    requires more != [] && DistinctKeywords(items + more)
    ensures DistinctKeywords(items + [CanonItem(more[0])] + more[1..])
    ensures forall k | 0 <= k < |items| :: items[k].keyword != more[0].keyword
  {
    var a, b := items + more, items + [CanonItem(more[0])] + more[1..];
    assert a[|items|] == more[0] && forall k | 0 <= k < |items| :: a[k] == items[k];
    assert forall k | 0 <= k < |b| :: b[k].keyword == a[k].keyword;
  }

  lemma HeaderComesBack(name: string)
    requires NameOk(name)
    ensures var line := "[" + name + "]"; IsHeader(line) && HeaderName(line) == name
  {
    var line := "[" + name + "]";
    var tail := line[1..];
    assert tail == name + "]" && tail[|name|] == ']';
    assert forall k | 0 <= k < |name| :: tail[k] == name[k] && name[k] in name;
    assert IndexOf(tail, ']') == |name| && tail[..|name|] == name;
    assert line[|line| - 1] == ']';
  }

  lemma HeaderAndEnd(name: string, items: seq<Item>)
    requires |name| < NAME_SIZE
    ensures SeenAll(SectionLines(Section(name, items))) == ["[" + name + "]"] + (SeenAll(ItemsLines(items)) + [""])
  {
    var header, lines := "[" + name + "]", ItemsLines(items);
    assert [header][1..] == [] && [""][1..] == [];
    assert SeenAll([header]) == [header] && SeenAll([""]) == [""];
    SeenAllConcat([header] + lines, [""]);
    SeenAllConcat([header], lines);
    Assoc([header], SeenAll(lines), [""]);
  }

  lemma {:induction false} ReadSectionLines(r: Reader, section: Section)
    requires ReaderOk(r) && SectionFair(section)
    requires forall k | 0 <= k < |r.sections| :: r.sections[k].name != section.name
    ensures var r' := ReadLines(r, SeenAll(SectionLines(section)));
            r'.sections == r.sections + [section.(items := Kept(section.items))] && r'.cur == None
  {
    var header, lines := "[" + section.name + "]", SeenAll(ItemsLines(section.items));
    HeaderComesBack(section.name);
    var r1 := InSection(r.sections, section.name, []);
    assert ReadLineInto(r, header) == r1;
    HeaderAndEnd(section.name, section.items);
    OneLine(r, header);
    ReadLinesConcat(r, [header], lines + [""]);
    ReadLinesConcat(r1, lines, [""]);
    assert [] + section.items == section.items && [] + Kept(section.items) == Kept(section.items);
    ReadItemsLines(r.sections, section.name, [], section.items);
    OneLine(ReadLines(r1, lines), "");
  }

  predicate NamesApart(a: seq<Section>, b: seq<Section>) {
    forall i, j | 0 <= i < |a| && 0 <= j < |b| :: a[i].name != b[j].name
  }

  predicate FairStore(sections: seq<Section>) {
    sections == [] || (SectionFair(sections[0]) && NamesApart([sections[0]], sections[1..]) && FairStore(sections[1..]))
  }

  lemma {:induction false} FairStoreFrom(sections: seq<Section>)
    requires StoreFair(sections)
    ensures FairStore(sections)
  {
    if sections != [] {
      var rest := sections[1..];
      assert forall i | 0 <= i < |rest| :: rest[i] == sections[i + 1];
      forall i | 0 <= i < |rest| ensures SectionFair(rest[i]) {
        assert SectionFair(sections[i + 1]);
      }
      FairStoreFrom(rest);
    }
  }

  lemma NamesStayApart(a: seq<Section>, x: Section, b: seq<Section>)
    requires b != [] && NamesApart(a, b) && NamesApart([b[0]], b[1..]) && x.name == b[0].name
    ensures NamesApart(a + [x], b[1..]) && forall k | 0 <= k < |a| :: a[k].name != b[0].name
  {
    var rest := b[1..];
    forall i, j | 0 <= i < |a| + 1 && 0 <= j < |rest| ensures (a + [x])[i].name != rest[j].name {
      assert rest[j] == b[j + 1];
      assert [b[0]][0].name != rest[j].name;
    }
  }

  lemma {:induction false} ReadNextSection(r: Reader, more: seq<Section>)
    requires ReaderOk(r) && more != [] && SectionFair(more[0])
    requires forall k | 0 <= k < |r.sections| :: r.sections[k].name != more[0].name
    ensures var r1 := ReadLines(r, SeenAll(SectionLines(more[0])));
            r1.sections == r.sections + [more[0].(items := Kept(more[0].items))] && r1.cur == None &&
            ReadLines(r, SeenAll(StoreLines(more))) == ReadLines(r1, SeenAll(StoreLines(more[1..])))
  {
    var lines, rest := SeenAll(SectionLines(more[0])), SeenAll(StoreLines(more[1..]));
    SeenAllConcat(SectionLines(more[0]), StoreLines(more[1..]));
    ReadLinesConcat(r, lines, rest);
    ReadSectionLines(r, more[0]);
  }

  lemma {:induction false} ReadStoreLines(r: Reader, more: seq<Section>)
    requires ReaderOk(r) && r.cur == None && FairStore(more) && NamesApart(r.sections, more)
    ensures var r' := ReadLines(r, SeenAll(StoreLines(more)));
            r'.sections == r.sections + Reread(more) && r'.cur == None
    decreases |more|
  {
    if more == [] {
      assert r.sections + [] == r.sections;
    } else {
      var x := more[0].(items := Kept(more[0].items));
      NamesStayApart(r.sections, x, more);
      ReadNextSection(r, more);
      ReadStoreLines(ReadLines(r, SeenAll(SectionLines(more[0]))), more[1..]);
      Assoc(r.sections, [x], Reread(more[1..]));
    }
  }

  lemma CommentIsClean(desc: string)
    requires IsComment(desc) && CleanLine(desc)
    ensures CleanText(CommentLine(desc)) && |CommentLine(desc)| <= LINE_SIZE
    ensures |CommentLine(desc)| == LINE_SIZE <==> desc[0] == '#' && |desc| == LINE_SIZE - 1
  {
    var d := CommentLine(desc);
    assert forall c | c in d :: c == ';' || c in desc;
    assert d[|d| - 1] == desc[|desc| - 1];
  }

  lemma {:induction false} ItemsLinesClean(items: seq<Item>)
    requires FairItems(items)
    ensures forall l | l in ItemsLines(items) :: CleanText(l) && |l| <= LINE_SIZE
  {
    if items != [] {
      ItemsLinesClean(items[1..]);
      if items[0].desc.Some? {
        CommentIsClean(items[0].desc.value);
      }
    }
  }

  lemma SectionLinesClean(section: Section)
    requires SectionFair(section)
    ensures forall l | l in SectionLines(section) :: CleanText(l) && |l| <= LINE_SIZE
  {
    var header := "[" + section.name + "]";
    assert forall c | c in header :: c == '[' || c == ']' || c in section.name;
    assert CleanLine(header);
    ItemsLinesClean(section.items);
  }

  lemma {:induction false} StoreLinesClean(sections: seq<Section>)
    requires forall i | 0 <= i < |sections| :: SectionFair(sections[i])
    ensures forall l | l in StoreLines(sections) :: CleanText(l) && |l| <= LINE_SIZE
  {
    if sections != [] {
      SectionLinesClean(sections[0]);
      StoreLinesClean(sections[1..]);
    }
  }

  /** What comes back of any store that cfg_read makes. */
  lemma {:induction false} RereadIs(sections: seq<Section>)
    requires StoreFair(sections)
    ensures Read(Write(sections)) == Reread(sections)
  {
    var lines := StoreLines(sections);
    StoreLinesClean(sections);
    LinesOfJoined(lines);
    FairStoreFrom(sections);
    ReadStoreLines(START, sections);
    ReadLinesConcat(START, SeenAll(lines), [""]);
    OneLine(ReadLines(START, SeenAll(lines)), "");
    assert [] + Reread(sections) == Reread(sections);
  }

  lemma {:induction false} KeptUnchanged(items: seq<Item>)
    requires forall i | 0 <= i < |items| :: items[i].desc.Some? ==> IsComment(items[i].desc.value)
    ensures Kept(items) == items <==> NoHash(items)
  {
    if items != [] {
      KeptUnchanged(items[1..]);
      assert forall i | 0 <= i < |items| - 1 :: items[1..][i] == items[i + 1];
      if HasHash(items[0]) {
        assert |CommentLine(items[0].desc.value)| == |items[0].desc.value| + 1;
        assert Kept(items) != [] ==> Kept(items)[0] == CanonItem(items[0]);
      } else {
        assert CanonItem(items[0]) == items[0];
        assert Kept(items)[1..] == Kept(items[1..]);
      }
    }
  }

  /** A store comes back unchanged, comments included and in order, exactly when no comment starts with a hash. */
  lemma {:induction false} ReadUndoesWrite(sections: seq<Section>)
    requires StoreFair(sections)
    ensures Read(Write(sections)) == sections <==> forall i | 0 <= i < |sections| :: NoHash(sections[i].items)
  {
    RereadIs(sections);
    forall i | 0 <= i < |sections| ensures Reread(sections)[i] == sections[i] <==> NoHash(sections[i].items) {
      assert SectionFair(sections[i]);
      forall j | 0 <= j < |sections[i].items| && sections[i].items[j].desc.Some?
        ensures IsComment(sections[i].items[j].desc.value) {
        FairItemsAre(sections[i].items);
        assert ItemFair(sections[i].items[j]);
      }
      KeptUnchanged(sections[i].items);
    }
    if Reread(sections) == sections {
      forall i | 0 <= i < |sections| ensures NoHash(sections[i].items) {
        assert Reread(sections)[i] == sections[i];
      }
    }
  }

  // ---------------------------------------------------------------------------------------------
  // What is read can be written

  /** ASCII bytes are printable or white space. */
  predicate FairBytes(text: string) {
    forall k | 0 <= k < |text| :: text[k] >= ' ' || IsSpace(text[k])
  }

  /**
   * Texts whose ASCII bytes are printable or white space, and in which the line of an item, where one is expected, has
   * an equals sign or goes on behind a full keyword buffer.
   */
  predicate FairText(text: string) {
    FairBytes(text) && LinesOk(START, Lines(text))
  }

  /** What _readline has collected so far. */
  predicate CleanRaw(raw: string) {
    (forall c | c in raw :: CleanChar(c)) && |raw| < LINE_SIZE && (raw != "" ==> !IsSpace(raw[0]))
  }

  lemma {:induction false} ScanIsClean(u: string, raw: string)
    requires FairBytes(u)
    requires CleanRaw(raw)
    ensures CleanRaw(ScanLine(u, raw).raw)
    ensures FairBytes(ScanLine(u, raw).rest)
    decreases |u|
  {
    if u != "" {
      var (over, raw') := Accept(raw, u[0]);
      if !over {
        ScanIsClean(u[1..], raw');
      }
    }
  }

  lemma TrimIsClean(raw: string)
    requires CleanRaw(raw)
    ensures CleanLine(CString(TrimEnd(raw)))
  {
    var l := TrimEnd(raw);
    assert forall k | 0 <= k < |l| :: l[k] == raw[k];
    NoNul(raw);
  }

  lemma {:induction false} LinesAreClean(u: string)
    requires FairBytes(u)
    ensures forall l | l in Lines(u) :: CleanLine(l)
    decreases |u|
  {
    var l := ScanLine(u, "");
    ScanIsClean(u, "");
    TrimIsClean(l.raw);
    if !l.eof {
      LinesAreClean(l.rest);
    }
  }

  lemma {:induction false} TrimEndTwice(s: string)
    ensures TrimEnd(TrimEnd(s)) == TrimEnd(s)
    decreases |s|
  {
    if s != "" && IsSpace(s[|s| - 1]) {
      TrimEndTwice(s[..|s| - 1]);
    }
  }

  lemma {:induction false} TrimEndKeepsFirst(s: string)
    requires s != "" && !IsSpace(s[0])
    ensures TrimEnd(s) != "" && TrimEnd(s)[0] == s[0]
    decreases |s|
  {
    if IsSpace(s[|s| - 1]) {
      TrimEndKeepsFirst(s[..|s| - 1]);
    }
  }

  lemma UpperIsFixed(k: string, q: string)
    requires |k| <= |q| && forall i | 0 <= i < |k| :: k[i] == ToUpper(q[i])
    ensures Upper(k) == k
  {
    assert forall i | 0 <= i < |k| :: Upper(k)[i] == ToUpper(k[i]) == k[i];
  }

  /** Trimming a text whose front is not blank only shortens it. */
  lemma TrimUpper(q: string)
    requires q != "" ==> !IsBlank(q[0])
    ensures var k := Trim(Upper(q));
            |k| <= |q| && (forall i | 0 <= i < |k| :: k[i] == ToUpper(q[i])) && Trim(k) == k && (k == "" <==> q == "")
  {
    var u := Upper(q);
    var k := TrimEnd(u);
    assert TrimStart(u) == u;
    assert forall i | 0 <= i < |k| :: k[i] == u[i];
    TrimEndTwice(u);
    if q != "" {
      TrimEndKeepsFirst(u);
    }
    assert TrimStart(k) == k;
  }

  /** The keyword of an item line. */
  lemma KeywordIsOk(line: string)
    requires CleanLine(line) && line != "" && KeyEnd(line) < |line|
    ensures var k := Trim(Upper(line[..KeyEnd(line)]));
            KeywordOk(k) && |k| <= KeyEnd(line) &&
            (forall i | 0 <= i < |k| :: k[i] == ToUpper(line[i])) &&
            (k == "" ==> line[0] == '=')
  {
    var q := line[..KeyEnd(line)];
    assert line[0] in line && CleanChar(line[0]) && !IsBlank(line[0]);
    assert q != "" ==> q[0] == line[0];
    TrimUpper(q);
    var k := Trim(Upper(q));
    UpperIsFixed(k, q);
    forall i | 0 <= i < |k| ensures k[i] == ToUpper(line[i]) && k[i] != '=' {
      assert q[i] == line[i];
    }
  }

  /** The line that cfg_write makes of an item, against the one it was read from. */
  lemma MadeLine(line: string, end: nat, k: string, v: string)
    requires CleanLine(line) && end < |line| && v == line[end + 1..] && |k| <= end
    requires forall i | 0 <= i < |k| :: k[i] == ToUpper(line[i])
    requires k != "" ==> !IsSpace(k[0])
    ensures CleanLine(k + "=" + v)
  {
    var made := k + "=" + v;
    forall c | c in made ensures CleanChar(c) {
      if c in k {
        var i :| 0 <= i < |k| && k[i] == c;
        assert line[i] in line;
      } else if c in v {
        var i :| 0 <= i < |v| && v[i] == c;
        assert line[end + 1 + i] in line;
      }
    }
    assert made[0] == if k == "" then '=' else k[0];
    assert made[|made| - 1] == if v == "" then '=' else line[|line| - 1];
  }

  lemma MadeIsItem(line: string, end: nat, k: string, v: string)
    requires end < |line| && v == line[end + 1..] && |k| <= end
    requires forall i | 0 <= i < |k| :: k[i] == ToUpper(line[i])
    requires !IsHeader(line) && !IsComment(line)
    ensures !IsHeader(k + "=" + v) && !IsComment(k + "=" + v)
  {
    var made := k + "=" + v;
    assert made[0] == if k == "" then '=' else k[0];
    if k != "" && k[0] == '[' {
      forall i | 0 <= i < |made| ensures made[i] != ']' {
        if i < |k| {
          assert made[i] == k[i] && line[i] in line;
        } else if i > |k| {
          assert made[i] == line[end + (i - |k|)] && line[end + (i - |k|)] in line;
        }
      }
    }
  }

  lemma ItemIsFair(line: string, desc: string)
    requires CleanLine(line) && line != "" && !IsHeader(line) && !IsComment(line) && KeyEnd(line) < |line|
    requires desc == "" || (IsComment(desc) && CleanLine(desc))
    ensures ItemFair(ItemOf(line, desc))
  {
    var item := ItemOf(line, desc);
    KeywordIsOk(line);
    assert line[0] in line;
    MadeLine(line, KeyEnd(line), item.keyword, item.value);
    MadeIsItem(line, KeyEnd(line), item.keyword, item.value);
  }

  lemma HeaderIsOk(line: string)
    requires CleanLine(line) && IsHeader(line)
    ensures NameOk(HeaderName(line))
  {
    var name := HeaderName(line);
    var tail := line[1..];
    forall i | 0 <= i < |name| ensures CleanChar(name[i]) && name[i] != ']' && ToUpper(name[i]) == name[i] {
      assert tail[i] == line[i + 1] && line[i + 1] in line;
      assert name[i] == ToUpper(tail[i]);
    }
    UpperTwice(line);
  }

  /** The state of cfg_read between lines. */
  ghost predicate ReaderFair(r: Reader) {
    ReaderOk(r) && StoreFair(r.sections) && (r.desc == "" || (IsComment(r.desc) && CleanLine(r.desc)))
  }

  lemma {:induction false} FairItemsConcat(a: seq<Item>, b: seq<Item>)
    ensures FairItems(a + b) <==> FairItems(a) && FairItems(b)
  {
    if a == [] {
      assert a + b == b;
    } else {
      assert (a + b)[1..] == a[1..] + b;
      FairItemsConcat(a[1..], b);
    }
  }

  lemma PutItemDistinct(items: seq<Item>, item: Item)
    requires DistinctKeywords(items)
    ensures DistinctKeywords(PutItem(items, item))
  {
    var at, r := FindItem(items, item.keyword), PutItem(items, item);
    assert forall i | 0 <= i < |r| - 1 :: r[i] == items[if i < at then i else i + 1];
    assert r[|r| - 1] == item;
    if at < |items| {
      assert forall i | at < i < |items| :: items[i].keyword != items[at].keyword;
    }
  }

  /** A section is as fair with one more item. */
  lemma PutItemFair(items: seq<Item>, item: Item)
    requires ItemFair(item) && FairItems(items)
    ensures FairItems(PutItem(items, item))
  {
    var at := FindItem(items, item.keyword);
    FairItemsConcat(if at < |items| then items[..at] + items[at + 1..] else items, [item]);
    if at < |items| {
      FairItemsConcat(items[..at], items[at + 1..]);
      FairItemsConcat(items[..at], items[at..]);
      assert items == items[..at] + items[at..] && items[at..][1..] == items[at + 1..];
    }
  }

  lemma HeaderKeepsFair(r: Reader, line: string)
    requires ReaderFair(r) && CleanLine(line) && IsHeader(line)
    ensures ReaderFair(ReadLineInto(r, line))
  {
    HeaderIsOk(line);
    var r' := ReadLineInto(r, line);
    forall i | 0 <= i < |r'.sections| ensures SectionFair(r'.sections[i]) {
      assert i < |r.sections| ==> SectionFair(r.sections[i]);
    }
  }

  lemma ItemKeepsFair(r: Reader, line: string)
    requires ReaderFair(r) && CleanLine(line) && IsItem(r.cur, line) && KeyEnd(line) < |line|
    ensures ReaderFair(ReadLineInto(r, line))
  {
    ItemIsFair(line, r.desc);
    var r', at := ReadLineInto(r, line), r.cur.value;
    assert SectionFair(r.sections[at]);
    PutItemFair(r.sections[at].items, ItemOf(line, r.desc));
    PutItemDistinct(r.sections[at].items, ItemOf(line, r.desc));
    forall i | 0 <= i < |r'.sections| ensures SectionFair(r'.sections[i]) && r'.sections[i].name == r.sections[i].name {
      assert i != at ==> SectionFair(r.sections[i]);
    }
  }

  lemma {:induction false} ReadLinesKeepFair(r: Reader, lines: seq<string>)
    requires ReaderFair(r) && LinesOk(r, lines) && forall i | 0 <= i < |lines| :: CleanLine(lines[i])
    ensures ReaderFair(ReadLines(r, lines))
    decreases |lines|
  {
    if lines != [] {
      if IsHeader(lines[0]) {
        HeaderKeepsFair(r, lines[0]);
      } else if IsItem(r.cur, lines[0]) {
        ItemKeepsFair(r, lines[0]);
      }
      assert ReaderFair(ReadLineInto(r, lines[0]));
      ReadLinesKeepFair(ReadLineInto(r, lines[0]), lines[1..]);
    }
  }

  /** Whatever is read from a fair text is a store of which RereadIs says what comes back. */
  lemma ReadIsFair(text: string)
    requires FairText(text)
    ensures StoreFair(Read(text))
  {
    LinesAreClean(text);
    var lines := Lines(text);
    assert forall i | 0 <= i < |lines| :: lines[i] in lines;
    ReadLinesKeepFair(START, lines);
  }

  // ---------------------------------------------------------------------------------------------
  // Once and twice through the file

  /** Reading, writing and reading again changes nothing exactly when no comment that was read starts with a hash. */
  lemma ReadWriteRead(text: string)
    requires FairText(text)
    ensures Read(Write(Read(text))) == Reread(Read(text))
    ensures Read(Write(Read(text))) == Read(text) <==>
            forall i | 0 <= i < |Read(text)| :: NoHash(Read(text)[i].items)
  {
    ReadIsFair(text);
    RereadIs(Read(text));
    ReadUndoesWrite(Read(text));
  }

  function TextSize(items: seq<Item>): nat {
    |Joined(ItemsLines(items))|
  }

  lemma ItemsTextSize(item: Item, rest: seq<Item>)
    ensures TextSize([item] + rest) == |Joined(ItemLines(item))| + TextSize(rest) && |Joined(ItemLines(item))| > 0
  {
    assert ([item] + rest)[1..] == rest;
    JoinedConcat(ItemLines(item), ItemsLines(rest));
    ItemText(item);
  }

  lemma CanonItemLines(item: Item)
    ensures ItemLines(CanonItem(item)) == ItemLines(item)
  {
  }

  /** Items that come back have the same text, and those that do not are missing from it. */
  lemma {:induction false} KeptText(items: seq<Item>)
    ensures NoneTooLong(items) ==> ItemsLines(Kept(items)) == ItemsLines(items)
    ensures !NoneTooLong(items) ==> TextSize(Kept(items)) < TextSize(items)
  {
    if items != [] {
      var rest := items[1..];
      assert items == [items[0]] + rest && forall i | 0 <= i < |rest| :: rest[i] == items[i + 1];
      ItemsTextSize(items[0], rest);
      if !IsTooLong(items[0]) {
        KeptText(rest);
        CanonItemLines(items[0]);
        ItemsTextSize(CanonItem(items[0]), Kept(rest));
        assert Kept(items)[1..] == Kept(rest);
        assert NoneTooLong(items) <==> NoneTooLong(rest);
      }
    }
  }

  predicate NoLongHash(sections: seq<Section>) {
    forall i | 0 <= i < |sections| :: NoneTooLong(sections[i].items)
  }

  lemma StoreTextSize(section: Section, rest: seq<Section>)
    ensures |Write([section] + rest)| == |section.name| + 4 + TextSize(section.items) + |Write(rest)|
  {
    assert ([section] + rest)[1..] == rest;
    JoinedConcat(SectionLines(section), StoreLines(rest));
    SectionText(section);
  }

  lemma {:induction false} RereadText(sections: seq<Section>)
    ensures NoLongHash(sections) ==> StoreLines(Reread(sections)) == StoreLines(sections)
    ensures !NoLongHash(sections) ==> |Write(Reread(sections))| < |Write(sections)|
  {
    if sections != [] {
      var first, rest := sections[0], sections[1..];
      var first' := first.(items := Kept(first.items));
      assert sections == [first] + rest && forall i | 0 <= i < |rest| :: rest[i] == sections[i + 1];
      KeptText(first.items);
      RereadText(rest);
      StoreTextSize(first, rest);
      StoreTextSize(first', Reread(rest));
      assert Reread(sections)[1..] == Reread(rest);
      assert NoLongHash(sections) <==> NoneTooLong(first.items) && NoLongHash(rest);
    }
  }

  /**
   * Writing what was read is a normal form, so that doing it twice gives the same text as doing it once, exactly when no
   * comment that was read starts with a hash and fills its line buffer.
   */
  lemma WriteReadIsNormalForm(text: string)
    requires FairText(text)
    ensures Write(Read(Write(Read(text)))) == Write(Read(text)) <==> NoLongHash(Read(text))
  {
    ReadWriteRead(text);
    RereadText(Read(text));
  }

  lemma CanonIsFair(item: Item)
    requires ItemFair(item) && !IsTooLong(item)
    ensures ItemFair(CanonItem(item)) && !HasHash(CanonItem(item))
  {
    if item.desc.Some? {
      CommentIsClean(item.desc.value);
    }
  }

  lemma {:induction false} KeptIsFair(items: seq<Item>)
    requires FairItems(items)
    ensures FairItems(Kept(items)) && NoHash(Kept(items))
  {
    if items != [] && !IsTooLong(items[0]) {
      CanonIsFair(items[0]);
      KeptIsFair(items[1..]);
      assert Kept(items)[1..] == Kept(items[1..]);
    }
  }

  lemma KeptIsDistinct(items: seq<Item>)
    requires DistinctKeywords(items)
    ensures DistinctKeywords(Kept(items))
  {
  }

  /** From the second time on nothing changes any more, whatever the comments. */
  lemma SecondRoundIsStable(text: string)
    requires FairText(text)
    ensures var sections := Read(Write(Read(text))); Read(Write(sections)) == sections
  {
    ReadIsFair(text);
    ReadWriteRead(text);
    var s, r := Read(text), Reread(Read(text));
    forall i | 0 <= i < |r| ensures SectionFair(r[i]) && NoHash(r[i].items) {
      assert SectionFair(s[i]);
      KeptIsFair(s[i].items);
      KeptIsDistinct(s[i].items);
    }
    ReadUndoesWrite(r);
  }

  // ---------------------------------------------------------------------------------------------
  // Two files

  /** A file with one section, one comment and one item. */
  function OneItem(comment: string): string {
    Joined(["[A]", comment, "K=V"])
  }

  lemma {:induction false} SeenShort(lines: seq<string>)
    requires forall i | 0 <= i < |lines| :: |lines[i]| < LINE_SIZE
    ensures SeenAll(lines) == lines
  {
    if lines != [] {
      SeenShort(lines[1..]);
    }
  }

  lemma {:induction false} ReadHeaderAndComment(comment: string)
    requires IsComment(comment)
    ensures ReadLineInto(START, "[A]") == InSection([], "A", [])
    ensures ReadLineInto(InSection([], "A", []), comment) == InSection([], "A", []).(desc := comment)
  {
    HeaderComesBack("A");
    assert "[" + "A" + "]" == "[A]";
  }

  lemma {:induction false} ReadItemAndEnd(comment: string)
    requires IsComment(comment) && CleanLine(comment)
    ensures ReadLines(InSection([], "A", []).(desc := comment), ["K=V", ""]) ==
            Reader([Section("A", [Item("K", "V", Some(comment))])], None, "")
  {
    var item := Item("K", "V", Some(comment));
    ItemIsPlain(item);
    ReadKeyValue([], "A", [], item, comment);
    assert KeyValue(item) == "K=V" && [] + [item] == [item];
    TwoLines(InSection([], "A", []).(desc := comment), "K=V", "");
  }

  /** What the four lines of such a file do. */
  lemma {:induction false} ReadOneItemLines(comment: string)
    requires IsComment(comment) && CleanLine(comment)
    ensures ReadLines(START, ["[A]", comment, "K=V", ""]) == Reader([Section("A", [Item("K", "V", Some(comment))])], None, "")
    ensures LinesOk(START, ["[A]", comment, "K=V", ""])
  {
    var r := InSection([], "A", []);
    ReadHeaderAndComment(comment);
    OneItemIsOk(comment, r, r.(desc := comment));
    TwoLines(START, "[A]", comment);
    ReadLinesConcat(START, ["[A]", comment], ["K=V", ""]);
    ReadItemAndEnd(comment);
    assert ["[A]", comment] + ["K=V", ""] == ["[A]", comment, "K=V", ""];
  }

  lemma {:induction false} OneItemIsOk(comment: string, r: Reader, r1: Reader)
    requires ReaderOk(r) && ReaderOk(r1) && IsComment(comment)
    requires ReadLineInto(START, "[A]") == r && ReadLineInto(r, comment) == r1
    ensures LinesOk(START, ["[A]", comment, "K=V", ""])
  {
    var three, two, one := [comment, "K=V", ""], ["K=V", ""], [""];
    assert ["[A]", comment, "K=V", ""][1..] == three && three[1..] == two && two[1..] == one && one[1..] == [];
    assert "K=V"[1] == '=' && KeyEnd("K=V") < 3;
    assert LinesOk(ReadLineInto(r1, "K=V"), one);
    assert LinesOk(r1, two);
    assert LinesOk(r, three);
  }

  lemma LinesOfOneItem(comment: string)
    requires CleanLine(comment)
    ensures Lines(OneItem(comment)) == ["[A]", comment, "K=V", ""] && FairBytes(OneItem(comment))
  {
    var lines := ["[A]", comment, "K=V"];
    LinesOfJoined(lines);
    SeenShort(lines);
    JoinedIsFair(lines);
    assert lines + [""] == ["[A]", comment, "K=V", ""];
  }

  lemma {:induction false} ReadOneItem(comment: string)
    requires IsComment(comment) && CleanLine(comment)
    ensures FairText(OneItem(comment)) && Read(OneItem(comment)) == [Section("A", [Item("K", "V", Some(comment))])]
  {
    LinesOfOneItem(comment);
    ReadOneItemLines(comment);
  }

  lemma ItemIsPlain(item: Item)
    requires item.keyword == "K" && item.value == "V"
    requires item.desc.Some? ==> IsComment(item.desc.value) && CleanLine(item.desc.value)
    ensures ItemFair(item)
  {
    assert Upper("K") == "K" && Trim("K") == "K";
    assert KeyValue(item) == "K=V";
  }

  lemma {:induction false} JoinedIsFair(lines: seq<string>)
    requires forall i | 0 <= i < |lines| :: CleanText(lines[i])
    ensures FairBytes(Joined(lines))
  {
    if lines != [] {
      JoinedIsFair(lines[1..]);
      forall k | 0 <= k < |lines[0]| ensures lines[0][k] >= ' ' || IsSpace(lines[0][k]) {
        assert lines[0][k] in lines[0];
      }
    }
  }

  /** A comment that starts with a hash gets a semicolon. */
  lemma HashChanges()
    ensures FairText(OneItem("#c")) && Read(OneItem("#c")) == [Section("A", [Item("K", "V", Some("#c"))])]
    ensures Read(Write(Read(OneItem("#c")))) == [Section("A", [Item("K", "V", Some(";#c"))])]
  {
    ReadOneItem("#c");
    ReadWriteRead(OneItem("#c"));
    var item := Item("K", "V", Some("#c"));
    assert [item][1..] == [] && Kept([item]) == [CanonItem(item)];
    assert CommentLine("#c") == ";#c";
  }

  function Hashes(n: nat): (s: string)
    ensures |s| == n && forall k | 0 <= k < n :: s[k] == '#'
  {
    seq(n, _ => '#')
  }

  /** A comment of hashes that fills its line buffer makes its item disappear. */
  lemma LongHashLosesItem()
    ensures var text := OneItem(Hashes(1021));
            FairText(text) && Read(text) == [Section("A", [Item("K", "V", Some(Hashes(1021)))])] &&
            Read(Write(Read(text))) == [Section("A", [])] &&
            Write(Read(Write(Read(text)))) != Write(Read(text))
  {
    var comment := Hashes(1021);
    var item := Item("K", "V", Some(comment));
    ReadOneItem(comment);
    ReadWriteRead(OneItem(comment));
    WriteReadIsNormalForm(OneItem(comment));
    assert IsTooLong(Read(OneItem(comment))[0].items[0]);
  }
}
