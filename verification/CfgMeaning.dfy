/** What a configuration file means: its store, in terms of the lines of the file. */
module CfgMeaning {
  import opened CText
  import opened Common
  import opened CfgFile
  import opened CfgRoundTrip

  // ---------------------------------------------------------------------------------------------
  // The lines of a file

  /** The header in whose section line i stands: the last one before it, with no blank line between them. */
  function Above(lines: seq<string>, i: nat): Option<string>
    requires i <= |lines|
  {
    if i == 0 || lines[i - 1] == "" then None
    else if IsHeader(lines[i - 1]) then Some(HeaderName(lines[i - 1]))
    else Above(lines, i - 1)
  }

  predicate MakesItem(lines: seq<string>, i: nat, name: string)
    requires i < |lines|
  {
    lines[i] != "" && !IsHeader(lines[i]) && !IsComment(lines[i]) && Above(lines, i) == Some(name)
  }

  /** The comment directly above line i. */
  function Comment(lines: seq<string>, i: nat): string
    requires i <= |lines|
  {
    if i > 0 && IsComment(lines[i - 1]) then lines[i - 1] else ""
  }

  function ItemAt(lines: seq<string>, i: nat): Item
    requires i < |lines|
  {
    ItemOf(lines[i], Comment(lines, i))
  }

  function KeywordAt(lines: seq<string>, i: nat): string
    requires i < |lines|
  {
    ItemAt(lines, i).keyword
  }

  /** A line before n makes an item of the same keyword in the same section. */
  predicate Replaced(lines: seq<string>, i: nat, n: nat, name: string)
    requires i < n <= |lines|
  {
    exists j | i < j < n :: MakesItem(lines, j, name) && KeywordAt(lines, j) == KeywordAt(lines, i)
  }

  /** The items of a section that the lines from i up to n make and do not replace, in the order of the lines. */
  function ItemsUnder(lines: seq<string>, i: nat, n: nat, name: string): seq<Item>
    requires i <= n <= |lines|
    decreases n - i
  {
    if i == n then []
    else LastItem(lines, i, n, name) + ItemsUnder(lines, i + 1, n, name)
  }

  /** The item of line i, if it makes one and none replaces it. */
  function LastItem(lines: seq<string>, i: nat, n: nat, name: string): seq<Item>
    requires i < n <= |lines|
  {
    if MakesItem(lines, i, name) && !Replaced(lines, i, n, name) then [ItemAt(lines, i)] else []
  }

  /** The names in the headers, in the order in which they first occur. */
  function HeaderNames(lines: seq<string>, n: nat): seq<string>
    requires n <= |lines|
  {
    if n == 0 then []
    else
      var before := HeaderNames(lines, n - 1);
      if IsHeader(lines[n - 1]) && HeaderName(lines[n - 1]) !in before then before + [HeaderName(lines[n - 1])] else before
  }

  /** The last of the first n lines that makes an item of this keyword in this section. */
  function LastLine(lines: seq<string>, n: nat, name: string, keyword: string): (r: Option<nat>)
    requires n <= |lines|
    ensures r.Some? ==> r.value < n && MakesItem(lines, r.value, name) && KeywordAt(lines, r.value) == keyword
    ensures forall j | 0 <= j < n && (r.Some? ==> r.value < j) :: !(MakesItem(lines, j, name) && KeywordAt(lines, j) == keyword)
  {
    if n == 0 then None
    else if MakesItem(lines, n - 1, name) && KeywordAt(lines, n - 1) == keyword then Some(n - 1)
    else LastLine(lines, n - 1, name, keyword)
  }

  // ---------------------------------------------------------------------------------------------
  // One line more

  /** The items of other keywords, in their order. */
  function Without(items: seq<Item>, keyword: string): seq<Item> {
    if items == [] then []
    else (if items[0].keyword == keyword then [] else [items[0]]) + Without(items[1..], keyword)
  }

  lemma {:induction false} WithoutConcat(a: seq<Item>, b: seq<Item>, keyword: string)
    ensures Without(a + b, keyword) == Without(a, keyword) + Without(b, keyword)
  {
    if a == [] {
      assert a + b == b;
    } else {
      assert (a + b)[1..] == a[1..] + b;
      WithoutConcat(a[1..], b, keyword);
    }
  }

  lemma {:induction false} WithoutNone(items: seq<Item>, keyword: string)
    requires forall i | 0 <= i < |items| :: items[i].keyword != keyword
    ensures Without(items, keyword) == items
  {
    if items != [] {
      WithoutNone(items[1..], keyword);
    }
  }

  lemma {:induction false} WithoutOne(a: seq<Item>, x: Item, b: seq<Item>)
    requires (forall i | 0 <= i < |a| :: a[i].keyword != x.keyword) && forall i | 0 <= i < |b| :: b[i].keyword != x.keyword
    ensures Without(a + [x] + b, x.keyword) == a + b
  {
    WithoutConcat(a + [x], b, x.keyword);
    WithoutConcat(a, [x], x.keyword);
    WithoutNone(a, x.keyword);
    WithoutNone(b, x.keyword);
    assert [x][1..] == [] && Without([x], x.keyword) == [];
  }

  lemma {:induction false} PutItemIs(items: seq<Item>, item: Item)
    requires DistinctKeywords(items)
    ensures PutItem(items, item) == Without(items, item.keyword) + [item]
  {
    var at := FindItem(items, item.keyword);
    if at == |items| {
      WithoutNone(items, item.keyword);
    } else {
      var b := items[at + 1..];
      assert items == items[..at] + [items[at]] + b;
      forall i | 0 <= i < |b| ensures b[i].keyword != item.keyword {
        assert b[i] == items[at + 1 + i];
      }
      WithoutOne(items[..at], items[at], b);
    }
  }

  lemma ReplacedGrows(lines: seq<string>, i: nat, n: nat, name: string)
    requires i < n < |lines|
    ensures Replaced(lines, i, n + 1, name) <==>
            Replaced(lines, i, n, name) || (MakesItem(lines, n, name) && KeywordAt(lines, n) == KeywordAt(lines, i))
  {
    if Replaced(lines, i, n, name) {
      var j :| i < j < n && MakesItem(lines, j, name) && KeywordAt(lines, j) == KeywordAt(lines, i);
      assert i < j < n + 1;
    }
  }

  lemma {:induction false} LastItemGrows(lines: seq<string>, i: nat, n: nat, name: string)
    requires i < n < |lines|
    ensures LastItem(lines, i, n + 1, name) ==
            if MakesItem(lines, n, name) then Without(LastItem(lines, i, n, name), KeywordAt(lines, n))
            else LastItem(lines, i, n, name)
  {
    ReplacedGrows(lines, i, n, name);
    assert [ItemAt(lines, i)][1..] == [];
  }

  /** One more line replaces at most the items of its own keyword. */
  lemma {:induction false} ItemsGrow(lines: seq<string>, i: nat, n: nat, name: string)
    requires i <= n < |lines|
    ensures ItemsUnder(lines, i, n + 1, name) ==
            if MakesItem(lines, n, name) then Without(ItemsUnder(lines, i, n, name), KeywordAt(lines, n)) + [ItemAt(lines, n)]
            else ItemsUnder(lines, i, n, name)
    decreases n - i
  {
    if i == n {
      assert ItemsUnder(lines, n + 1, n + 1, name) == [];
      assert !Replaced(lines, n, n + 1, name);
    } else {
      var first, rest := LastItem(lines, i, n, name), ItemsUnder(lines, i + 1, n, name);
      ItemsGrow(lines, i + 1, n, name);
      LastItemGrows(lines, i, n, name);
      if MakesItem(lines, n, name) {
        WithoutConcat(first, rest, KeywordAt(lines, n));
        Assoc(Without(first, KeywordAt(lines, n)), Without(rest, KeywordAt(lines, n)), [ItemAt(lines, n)]);
      }
    }
  }

  // ---------------------------------------------------------------------------------------------
  // The reader has what the lines so far mean

  predicate SectionMeans(section: Section, lines: seq<string>, n: nat, name: string)
    requires n <= |lines|
  {
    section == Section(name, ItemsUnder(lines, 0, n, name)) && DistinctKeywords(section.items)
  }

  ghost predicate SectionsMean(sections: seq<Section>, lines: seq<string>, n: nat, names: seq<string>)
    requires n <= |lines|
  {
    |sections| == |names| && forall s | 0 <= s < |names| :: SectionMeans(sections[s], lines, n, names[s])
  }

  predicate Apart(names: seq<string>) {
    forall s, t | 0 <= s < t < |names| :: names[s] != names[t]
  }

  predicate StateMeans(r: Reader, lines: seq<string>, n: nat)
    requires n <= |lines| && ReaderOk(r)
  {
    Above(lines, n) == (if r.cur.Some? then Some(r.sections[r.cur.value].name) else None) &&
    (r.cur.Some? ==> r.desc == Comment(lines, n))
  }

  ghost predicate Means(r: Reader, lines: seq<string>, n: nat)
    requires n <= |lines|
  {
    ReaderOk(r) && SectionsMean(r.sections, lines, n, HeaderNames(lines, n)) && Apart(HeaderNames(lines, n)) &&
    StateMeans(r, lines, n)
  }

  lemma {:induction false} AboveIsNamed(lines: seq<string>, i: nat, n: nat)
    requires i <= n <= |lines| && Above(lines, i).Some?
    ensures Above(lines, i).value in HeaderNames(lines, n)
    decreases n
  {
    if i < n {
      AboveIsNamed(lines, i, n - 1);
    } else if !IsHeader(lines[i - 1]) {
      AboveIsNamed(lines, i - 1, n - 1);
    }
  }

  lemma NoItemUnder(lines: seq<string>, i: nat, n: nat, name: string)
    requires i < n <= |lines| && name !in HeaderNames(lines, n)
    ensures !MakesItem(lines, i, name)
  {
    if MakesItem(lines, i, name) {
      AboveIsNamed(lines, i, n);
    }
  }

  lemma {:induction false} NothingMade(lines: seq<string>, i: nat, n: nat, name: string)
    requires i <= n <= |lines| && forall j | i <= j < n :: !MakesItem(lines, j, name)
    ensures ItemsUnder(lines, i, n, name) == []
    decreases n - i
  {
    if i < n {
      NothingMade(lines, i + 1, n, name);
      assert LastItem(lines, i, n, name) == [];
    }
  }

  lemma NothingUnder(lines: seq<string>, n: nat, name: string)
    requires n <= |lines| && name !in HeaderNames(lines, n)
    ensures ItemsUnder(lines, 0, n, name) == []
  {
    forall j | 0 <= j < n ensures !MakesItem(lines, j, name) {
      NoItemUnder(lines, j, n, name);
    }
    NothingMade(lines, 0, n, name);
  }

  lemma SectionStays(section: Section, lines: seq<string>, n: nat, name: string)
    requires n < |lines| && SectionMeans(section, lines, n, name) && !MakesItem(lines, n, name)
    ensures SectionMeans(section, lines, n + 1, name)
  {
    ItemsGrow(lines, 0, n, name);
  }

  lemma SectionGets(section: Section, lines: seq<string>, n: nat, name: string)
    requires n < |lines| && SectionMeans(section, lines, n, name) && MakesItem(lines, n, name)
    ensures SectionMeans(section.(items := PutItem(section.items, ItemAt(lines, n))), lines, n + 1, name)
  {
    ItemsGrow(lines, 0, n, name);
    PutItemIs(section.items, ItemAt(lines, n));
    PutItemDistinct(section.items, ItemAt(lines, n));
  }

  lemma SectionsStay(sections: seq<Section>, lines: seq<string>, n: nat, names: seq<string>)
    requires n < |lines| && SectionsMean(sections, lines, n, names)
    requires lines[n] == "" || IsHeader(lines[n]) || IsComment(lines[n]) || Above(lines, n) == None
    ensures SectionsMean(sections, lines, n + 1, names)
  {
    forall s | 0 <= s < |names| ensures SectionMeans(sections[s], lines, n + 1, names[s]) {
      SectionStays(sections[s], lines, n, names[s]);
    }
  }

  lemma SectionIsNew(lines: seq<string>, n: nat, name: string)
    requires n < |lines| && name !in HeaderNames(lines, n) && IsHeader(lines[n])
    ensures SectionMeans(Section(name, []), lines, n + 1, name)
  {
    NothingUnder(lines, n, name);
    SectionStays(Section(name, []), lines, n, name);
  }

  lemma PassedLineMeans(r: Reader, lines: seq<string>, n: nat)
    requires n < |lines| && Means(r, lines, n) && !IsHeader(lines[n]) && !IsItem(r.cur, lines[n])
    ensures Means(ReadLineInto(r, lines[n]), lines, n + 1)
  {
    SectionsStay(r.sections, lines, n, HeaderNames(lines, n));
  }

  lemma FoundByName(sections: seq<Section>, lines: seq<string>, n: nat, names: seq<string>, name: string)
    requires n <= |lines| && SectionsMean(sections, lines, n, names)
    ensures FindSection(sections, name) < |sections| <==> name in names
  {
    forall s | 0 <= s < |names| ensures sections[s].name == names[s] {
      assert SectionMeans(sections[s], lines, n, names[s]);
    }
  }

  lemma SectionsGrow(sections: seq<Section>, lines: seq<string>, n: nat, names: seq<string>, name: string)
    requires n < |lines| && SectionsMean(sections, lines, n + 1, names) && SectionMeans(Section(name, []), lines, n + 1, name)
    requires Apart(names) && name !in names
    ensures SectionsMean(sections + [Section(name, [])], lines, n + 1, names + [name]) && Apart(names + [name])
  {
  }

  lemma HeaderMeans(r: Reader, lines: seq<string>, n: nat)
    requires n < |lines| && Means(r, lines, n) && IsHeader(lines[n])
    ensures Means(ReadLineInto(r, lines[n]), lines, n + 1)
  {
    var names, name := HeaderNames(lines, n), HeaderName(lines[n]);
    SectionsStay(r.sections, lines, n, names);
    FoundByName(r.sections, lines, n, names, name);
    if name !in names {
      SectionIsNew(lines, n, name);
      SectionsGrow(r.sections, lines, n, names, name);
    }
  }

  lemma ItemMeans(r: Reader, lines: seq<string>, n: nat)
    requires n < |lines| && Means(r, lines, n) && IsItem(r.cur, lines[n])
    ensures Means(ReadLineInto(r, lines[n]), lines, n + 1)
  {
    var names, at, r' := HeaderNames(lines, n), r.cur.value, ReadLineInto(r, lines[n]);
    assert SectionMeans(r.sections[at], lines, n, names[at]);
    forall s | 0 <= s < |names| ensures SectionMeans(r'.sections[s], lines, n + 1, names[s]) {
      assert SectionMeans(r.sections[s], lines, n, names[s]);
      if s == at {
        SectionGets(r.sections[s], lines, n, names[s]);
      } else {
        assert names[s] != names[at];
        SectionStays(r.sections[s], lines, n, names[s]);
      }
    }
  }

  lemma LineMeans(r: Reader, lines: seq<string>, n: nat)
    requires n < |lines| && Means(r, lines, n)
    ensures Means(ReadLineInto(r, lines[n]), lines, n + 1)
  {
    if IsHeader(lines[n]) {
      HeaderMeans(r, lines, n);
    } else if IsItem(r.cur, lines[n]) {
      ItemMeans(r, lines, n);
    } else {
      PassedLineMeans(r, lines, n);
    }
  }

  lemma {:induction false} ReadRest(r: Reader, lines: seq<string>, n: nat)
    requires n < |lines| && ReaderOk(r)
    ensures ReadLines(r, lines[n..]) == ReadLines(ReadLineInto(r, lines[n]), lines[n + 1..])
  {
    assert lines[n..][1..] == lines[n + 1..];
  }

  lemma {:induction false} ReadLinesMean(r: Reader, lines: seq<string>, n: nat)
    requires n <= |lines| && Means(r, lines, n)
    ensures Means(ReadLines(r, lines[n..]), lines, |lines|)
    decreases |lines| - n
  {
    if n < |lines| {
      LineMeans(r, lines, n);
      ReadRest(r, lines, n);
      ReadLinesMean(ReadLineInto(r, lines[n]), lines, n + 1);
    }
  }

  /**
   * The store that cfg_read makes: a section for each name in a header, in the order of their first headers, and in each
   * the items of its last lines for each keyword, in the order of these lines, with the comments directly above them.
   */
  lemma ReadMeans(text: string)
    ensures var lines := Lines(text);
            var names := HeaderNames(lines, |lines|);
            |Read(text)| == |names| &&
            forall s | 0 <= s < |names| :: Read(text)[s] == Section(names[s], ItemsUnder(lines, 0, |lines|, names[s]))
  {
    var lines := Lines(text);
    assert lines[0..] == lines;
    assert Means(START, lines, 0);
    ReadLinesMean(START, lines, 0);
    var names := HeaderNames(lines, |lines|);
    assert SectionsMean(Read(text), lines, |lines|, names);
    assert forall s | 0 <= s < |names| :: SectionMeans(Read(text)[s], lines, |lines|, names[s]);
  }

  // ---------------------------------------------------------------------------------------------
  // What is found afterwards

  function Look(items: seq<Item>, keyword: string): Option<Item> {
    var i := FindItem(items, keyword);
    if i < |items| then Some(items[i]) else None
  }

  lemma LookFront(x: Item, items: seq<Item>, keyword: string)
    ensures Look([x] + items, keyword) == if x.keyword == keyword then Some(x) else Look(items, keyword)
  {
    var all := [x] + items;
    assert forall k | 0 <= k < |items| :: all[k + 1] == items[k];
    var i, j := FindItem(all, keyword), FindItem(items, keyword);
    if x.keyword != keyword {
      if i < |all| {
        assert items[i - 1].keyword == keyword;
      }
      if j < |items| {
        assert all[j + 1].keyword == keyword;
      }
    }
  }

  lemma {:induction false} LookAfter(items: seq<Item>, item: Item, keyword: string)
    ensures Look(Without(items, item.keyword) + [item], keyword) ==
            if keyword == item.keyword then Some(item) else Look(items, keyword)
  {
    if items == [] {
      LookFront(item, [], keyword);
      assert Without(items, item.keyword) + [item] == [item] + [];
    } else {
      var rest := Without(items[1..], item.keyword) + [item];
      LookAfter(items[1..], item, keyword);
      LookFront(items[0], items[1..], keyword);
      assert items == [items[0]] + items[1..];
      if items[0].keyword != item.keyword {
        LookFront(items[0], rest, keyword);
        assert Without(items, item.keyword) + [item] == [items[0]] + rest;
      } else {
        assert Without(items, item.keyword) + [item] == rest;
      }
    }
  }

  lemma LookGrows(lines: seq<string>, n: nat, name: string, keyword: string)
    requires n < |lines|
    ensures Look(ItemsUnder(lines, 0, n + 1, name), keyword) ==
            if MakesItem(lines, n, name) && KeywordAt(lines, n) == keyword then Some(ItemAt(lines, n))
            else Look(ItemsUnder(lines, 0, n, name), keyword)
  {
    ItemsGrow(lines, 0, n, name);
    if MakesItem(lines, n, name) {
      LookAfter(ItemsUnder(lines, 0, n, name), ItemAt(lines, n), keyword);
    }
  }

  lemma {:induction false} LookIsLastLine(lines: seq<string>, n: nat, name: string, keyword: string)
    requires n <= |lines|
    ensures var last := LastLine(lines, n, name, keyword);
            Look(ItemsUnder(lines, 0, n, name), keyword) == if last.Some? then Some(ItemAt(lines, last.value)) else None
  {
    if n > 0 {
      LookIsLastLine(lines, n - 1, name, keyword);
      LookGrows(lines, n - 1, name, keyword);
    }
  }

  /** cfg_get_item finds the value of the last line for the keyword under any header of the name, and nothing if there is none. */
  lemma GetFindsLastLine(text: string, name: string, keyword: string)
    ensures var lines := Lines(text);
            var last := LastLine(lines, |lines|, Upper(name), Upper(keyword));
            ValueOf(Read(text), name, keyword) == if last.Some? then Some(ItemAt(lines, last.value).value) else None
  {
    var lines := Lines(text);
    var names := HeaderNames(lines, |lines|);
    ReadMeans(text);
    LookIsLastLine(lines, |lines|, Upper(name), Upper(keyword));
    var s := FindSection(Read(text), Upper(name));
    if s == |names| {
      assert forall t | 0 <= t < |names| :: Read(text)[t].name == names[t];
      NothingUnder(lines, |lines|, Upper(name));
    }
  }

  /**
   * The line of an item: in its section the item comes last, with the comment that was waiting, and all items of other
   * keywords stay in their order; nothing else changes, for whoever asks for any item of any section.
   */
  lemma ItemLineTakesOver(r: Reader, line: string, name: string, keyword: string)
    requires ReaderOk(r) && IsItem(r.cur, line) && DistinctKeywords(r.sections[r.cur.value].items)
    requires r.sections[r.cur.value].name == Upper(r.sections[r.cur.value].name)
    requires FindSection(r.sections, r.sections[r.cur.value].name) == r.cur.value
    ensures var at, r' := r.cur.value, ReadLineInto(r, line);
            var section, item := r.sections[at], ItemOf(line, r.desc);
            r'.sections == r.sections[at := Section(section.name, Without(section.items, item.keyword) + [item])] &&
            ValueOf(r'.sections, name, keyword) ==
              if Upper(name) == section.name && Upper(keyword) == item.keyword then Some(item.value)
              else ValueOf(r.sections, name, keyword)
  {
    var at, r' := r.cur.value, ReadLineInto(r, line);
    var items, item := r.sections[at].items, ItemOf(line, r.desc);
    PutItemIs(items, item);
    FindSectionAfter(r.sections, r'.sections, Upper(name));
    LookAfter(items, item, Upper(keyword));
  }

  // ---------------------------------------------------------------------------------------------
  // What a line says

  lemma IndexBehind(front: string, c: char, rest: string)
    requires c !in front
    ensures IndexOf(front + [c] + rest, c) == |front|
  {
    var s := front + [c] + rest;
    assert s[|front|] == c;
    forall k | 0 <= k < |front| ensures s[k] != c {
      assert s[k] == front[k] && front[k] in front;
    }
  }

  /** A header gives at most 63 bytes of its name, in upper case. */
  lemma HeaderSays(name: string, rest: string)
    requires ']' !in name
    ensures var line := "[" + (name + "]" + rest);
            IsHeader(line) && HeaderName(line) == if |name| <= 63 then Upper(name) else Upper(name)[..63]
  {
    var tail := name + "]" + rest;
    IndexBehind(name, ']', rest);
    assert tail[..|name|] == name && tail[|name|] == ']';
    HeaderHolds("[" + tail, tail, name);
  }

  lemma HeaderHolds(line: string, tail: string, name: string)
    requires line == "[" + tail && |name| < |tail| && tail[..|name|] == name && tail[|name|] == ']'
    requires IndexOf(tail, ']') == |name|
    ensures IsHeader(line) && HeaderName(line) == if |name| <= 63 then Upper(name) else Upper(name)[..63]
  {
    assert line[1..] == tail && line[|name| + 1] == ']';
  }

  lemma KeywordEnds(key: string, value: string)
    requires '=' !in key
    ensures KeyEnd(key + "=" + value) == if |key| <= 63 then |key| else 63
  {
    IndexBehind(key, '=', value);
  }

  lemma PiecesOfLine(key: string, value: string)
    ensures (key + "=" + value)[..|key|] == key && (key + "=" + value)[|key| + 1..] == value
    ensures |key| > 63 ==>
              (key + "=" + value)[..63] == key[..63] && (key + "=" + value)[64..] == key[64..] + "=" + value
  {
  }

  /** The keyword stands before the first equals sign and the value behind it; a keyword that fills its buffer ends after 63 bytes. */
  lemma ItemLineSays(key: string, value: string, desc: string)
    requires '=' !in key
    ensures var item := ItemOf(key + "=" + value, desc);
            item.desc == (if desc == "" then None else Some(desc)) &&
            (|key| <= 63 ==> item.keyword == Trim(Upper(key)) && item.value == value) &&
            (|key| > 63 ==> item.keyword == Trim(Upper(key[..63])) && item.value == key[64..] + "=" + value)
  {
    KeywordEnds(key, value);
    PiecesOfLine(key, value);
  }

  lemma {:induction false} TrimDropsFront(blank: string, s: string)
    requires forall c | c in blank :: IsBlank(c)
    requires s != "" ==> !IsBlank(s[0])
    ensures TrimStart(blank + s) == s
  {
    if blank == "" {
      assert blank + s == s;
    } else {
      assert (blank + s)[1..] == blank[1..] + s && blank[0] in blank;
      TrimDropsFront(blank[1..], s);
    }
  }

  lemma {:induction false} TrimDropsEnd(s: string, blank: string)
    requires forall c | c in blank :: IsSpace(c)
    requires s != "" ==> !IsSpace(s[|s| - 1])
    ensures TrimEnd(s + blank) == s
    decreases |blank|
  {
    if blank == "" {
      assert s + blank == s;
    } else {
      var front := blank[..|blank| - 1];
      assert (s + blank)[..|s + blank| - 1] == s + front && blank[|blank| - 1] in blank;
      assert forall c | c in front :: c in blank;
      TrimDropsEnd(s, front);
    }
  }

  /** trim takes away all white space at both ends, and nothing else. */
  lemma TrimDropsBlanks(before: string, s: string, behind: string)
    requires (forall c | c in before :: IsBlank(c)) && forall c | c in behind :: IsSpace(c)
    requires s != "" && !IsBlank(s[0]) && !IsSpace(s[|s| - 1])
    ensures Trim(before + s + behind) == s
  {
    assert before + s + behind == before + (s + behind);
    TrimDropsFront(before, s + behind);
    TrimDropsEnd(s, behind);
  }

  /** White space that does not end a line. */
  predicate IsGap(s: string) {
    forall c | c in s :: IsSpace(c) && c != '\n'
  }

  lemma {:induction false} ScanDropsFront(gap: string, u: string)
    requires IsGap(gap)
    ensures ScanLine(gap + u, "") == ScanLine(u, "")
  {
    if gap == "" {
      assert gap + u == u;
    } else {
      assert gap[0] in gap && (gap + u)[1..] == gap[1..] + u;
      ScanDropsFront(gap[1..], u);
    }
  }

  /** White space around the text of a line does not matter. */
  lemma {:induction false} LineIsTrimmed(before: string, l: string, behind: string, rest: string)
    requires IsGap(before) && IsGap(behind) && CleanText(l) && l != "" && |l + behind| < LINE_SIZE
    ensures Lines(before + (l + behind + "\n" + rest)) == [l] + Lines(rest)
  {
    var w := l + behind;
    ScanDropsFront(before, w + "\n" + rest);
    assert forall c | c in w :: CleanChar(c);
    ScanClean(w, 0, rest);
    assert w[0..] == w && w[..0] == "";
    TrimDropsEnd(l, behind);
    NoNul(l);
    assert TrimEnd(l) == l;
  }

  // ---------------------------------------------------------------------------------------------
  // Getting and setting

  /** Where names and keywords do not repeat, cfg_get_item finds exactly the value that is there. */
  lemma GetFindsWhatIsThere(sections: seq<Section>, name: string, keyword: string, value: string)
    requires forall s, t | 0 <= s < t < |sections| :: sections[s].name != sections[t].name
    requires forall s | 0 <= s < |sections| :: DistinctKeywords(sections[s].items)
    ensures ValueOf(sections, name, keyword) == Some(value) <==>
            exists s, i | 0 <= s < |sections| && 0 <= i < |sections[s].items| ::
              sections[s].name == Upper(name) && sections[s].items[i].keyword == Upper(keyword) && sections[s].items[i].value == value
  {
    var s := FindSection(sections, Upper(name));
    if s < |sections| {
      var i := FindItem(sections[s].items, Upper(keyword));
      assert DistinctKeywords(sections[s].items);
      if i < |sections[s].items| && ValueOf(sections, name, keyword) == Some(value) {
        assert sections[s].items[i].value == value;
      }
    }
  }

  function Found(sections: seq<Section>, name: string, keyword: string): Option<Item> {
    var s := FindSection(sections, Upper(name));
    if s == |sections| then None else Look(sections[s].items, Upper(keyword))
  }

  /** What cfg_set_item makes of the comment: the given one, or else the one that was there. */
  lemma SetThenFind(
      sections: seq<Section>, name: string, keyword: string, desc: Option<string>, value: string, n: string, k: string)
    ensures var before := Found(sections, name, keyword);
            Found(SetItemIn(sections, name, keyword, desc, value), n, k) ==
            if Upper(n) == Upper(name) && Upper(k) == Upper(keyword) then
              Some(Item(Upper(keyword), value, if desc.Some? then desc else if before.Some? then before.value.desc else None))
            else Found(sections, n, k)
  {
    var s := FindSection(sections, Upper(name));
    var all := if s == |sections| then sections + [Section(Upper(name), [])] else sections;
    var r := SetItemIn(sections, name, keyword, desc, value);
    FindSectionAfter(sections, r, Upper(n));
    FindSectionAfter(sections, r, Upper(name));
    if Upper(n) == Upper(name) {
      FindItemAfter(all[s].items, r[s].items, Upper(k));
      FindItemAfter(all[s].items, r[s].items, Upper(keyword));
    }
  }

  lemma {:induction false} SectionWritten(k: Item, l: Item)
    requires k == Item("K", "V", Some("c")) && l == Item("L", "W", None)
    ensures Joined(SectionLines(Section("A", [k, l]))) == "[A]\n;c\nK=V\nL=W\n\n"
  {
    assert [k, l][1..] == [l] && [l][1..] == [];
    ItemText(k);
    ItemText(l);
    JoinedConcat(ItemLines(k), ItemsLines([l]));
    JoinedConcat(ItemLines(l), []);
    assert Joined(ItemLines(k)) == ";c\nK=V\n" && Joined(ItemLines(l)) == "L=W\n";
    SectionText(Section("A", [k, l]));
    assert ItemsLines([l]) == ItemLines(l) + [];
    assert Joined(ItemsLines([k, l])) == ";c\nK=V\nL=W\n";
    assert "[" + "A" + "]\n" + ";c\nK=V\nL=W\n" + "\n" == "[A]\n;c\nK=V\nL=W\n\n";
  }

  /** Only letters change case. */
  lemma UpperIs()
    ensures Upper("az_1") == "AZ_1"
  {
  }

  /** What the file of a store looks like. */
  lemma {:induction false} WrittenLooksLike()
    ensures Write([Section("A", [Item("K", "V", Some("c")), Item("L", "W", None)]), Section("B", [])]) ==
            "[A]\n;c\nK=V\nL=W\n\n[B]\n\n"
  {
    var a, b := Section("A", [Item("K", "V", Some("c")), Item("L", "W", None)]), Section("B", []);
    assert [a, b][1..] == [b] && [b][1..] == [];
    SectionWritten(a.items[0], a.items[1]);
    SectionText(b);
    JoinedConcat(SectionLines(a), StoreLines([b]));
    JoinedConcat(SectionLines(b), []);
    assert Joined(SectionLines(b)) == "[B]\n\n";
  }
}
