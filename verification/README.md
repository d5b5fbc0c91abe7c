# A verified model of mybmm

mybmm is a battery management daemon: it polls battery packs and an inverter, decides how to charge, and talks to
serial boards, CAN buses, MQTT and a small TCP device server. This project models the parts of it that carry most of the
logic, in Dafny, and proves what they promise:

- `CText`, `JsonString`, `JsonStringGrammar`, `JsonUtf8`, `JsonValue`, `JsonPrint`, `JsonLayout`, `JsonParse`,
  `JsonGrammar`, `JsonRoundTrip`, `JsonBuffer`, `JsonComments`, `JsonObject`, `JsonDot`: the JSON library (`parson.c`).
  The parser, the serialiser, the string codec, the comment stripper, the object table, and the operations on dotted
  names.
- `WorkerPool`: the thread pool (`worker.c`) and its client `pack_update_all` (`pack.c`), as a transition system.
- `CfgFile`, `CfgRoundTrip`, `CfgMeaning`: the configuration file reader and writer (`cfg.c`, `trim` of `utils.c`).
- `LinkedList`: the doubly linked list with a built-in cursor (`list.c`).
- `Bytes`, `JbdFrame`, `LongDivision`, `CanCrc`: the serial frames and the CAN checksum of JBD boards (`jbd.c`).
- `DevServer`: the packets of the device server and the receiver that resynchronises on them (`dsfuncs.c`).
- `Battery`: the charge controller (`battery.c`, `pct` of `main.c`).
- `Common`: a few definitions that several modules share.

Code that changes things in place is modelled in place: the parser moves a cursor over a NUL-terminated text, the
serialiser writes an array through a cursor object, `Table`, `List`, `Cfg`, `File`, `Wire` and `Controller` are classes
with the fields of the C structures, and the loops of the source are loops. Each of these methods is proved equal to a
function of its inputs or of the old state, and the properties are lemmas about those functions. The worker pool is a
state machine whose steps are the lock regions of the two thread functions; its theorems quantify over every
interleaving.

Conventions. A C string is a `string` whose terminator is the position one past its end; a byte is a `char` below 256 in
the JSON and configuration modules, a `byte` in the frame modules, and a `bv8` in `CanCrc`. Shifts and masks of disjoint
bit fields are written as quotients and remainders, stores into narrow integers as remainders. Reals stand for `float`.
Number text belongs to libc: `JsonPrint.Numbers` bundles a formatter, a scanner and the set of doubles, and
`JsonPrint.Faithful` is the assumption that number text is short, is made of digits, signs, points and exponents, and is scanned back as the same
number when a delimiter or white space follows. Memory allocation never fails.

Findings, each with its exact condition:

- `json_value_equals` is reflexive and symmetric, but a tolerance on numbers keeps it from being transitive
  (`JsonValue.EqualsIsNotTransitive`). It is transitive on the trees over a set of numbers if and only if closeness is
  transitive on that set, as it is on integers (`JsonValue.EqualsTransitiveExactly`).
- Trees nested deeper than 2048 are serialised but refused by the parser, so the round trip holds exactly up to that
  height (`JsonRoundTrip.ParseUndoesPrint`, with an example in `JsonRoundTrip.TooDeepToReadBack`).
- `process_string` can look at the closing quote, and up to three bytes behind it, before it fails. This happens exactly
  at a `u` escape that the quote cuts short, never in a step that succeeds, and never behind the terminator
  (`JsonString.StepLooksAhead`, `JsonString.ProcessLooks`, with an example in `JsonString.LooksPastQuote`).
- `cfg_write` turns comments that start with `#` into `;#` comments. A round through the file changes nothing exactly when
  there are none (`CfgRoundTrip.ReadWriteRead`, `CfgRoundTrip.HashChanges`). When such a comment fills its line buffer of
  1021 bytes, the added semicolon makes it too long to be read: the rest of its section is lost, and writing what was read
  is a normal form exactly when that does not occur (`CfgRoundTrip.WriteReadIsNormalForm`,
  `CfgRoundTrip.LongHashLosesItem`). From the second round on nothing changes any more.
- The room check of `jbd_cmd` counts the data but not the three bytes behind it. The call stays within `pkt_size` if and
  only if the header fits and the data does not end in the last three bytes of it (`JbdFrame.StaysInside`); with a buffer
  of 256 bytes, data of 250 to 252 bytes does (`JbdFrame.WritesBehind`).
- `jbd_verify` leaves byte 1 of a frame unchecked and sees a change of any other single byte (`JbdFrame.OneChangeIsSeen`).
- The local buffer of `devserver_recv` holds a whole packet exactly when it carries at most 251 bytes
  (`DevServer.StoredFits`, `DevServer.WholePacketTooLong`).
- The comment in `battery.c` speaks of reducing the charge rate by a quarter in the cold; the code divides the current by
  four, and does so again at every cold check (`Battery.ChargeGoesOneWay`).

`dafny verify dfyconfig.toml` checks the whole project.

## Model

| member | source | states |
|---|---|---|
| JsonString.SkipQuotes | parson.c:559-577 | the cursor passes exactly the closing quote, the first one that no backslash hides, and never the terminator; it fails exactly when there is none |
| JsonString.PairCodePoint | parson.c:610-610 | the masks of the code compute the code point that a surrogate pair stands for in section 2.2 of RFC 2781 |
| JsonString.ReadHex4 | parson.c:185-199 | the value of four hexadecimal digits, and the last byte looked at, which is the first NUL if there is one |
| JsonString.EscapedCodePoint | parson.c:579-618 | an accepted escape never stands for a surrogate, ends inside the text, and its UTF-8 form is no longer than its own text |
| JsonString.EmitUtf8 | parson.c:589-615 | writes the UTF-8 form of the code point at the output cursor, keeps what stands before it, and leaves the cursor on the last byte written |
| JsonString.ParseUtf16 | parson.c:579-623 | accepts exactly the escapes that stand for a code point, advances both cursors to the last byte read and written, writes nothing on failure, and looks no further than EscapeReach says |
| JsonString.StepStaysInside | parson.c:638-665 | one step of unescaping inside a quoted body never passes the closing quote that the quote search found |
| JsonString.ProcessStopsAtQuote | parson.c:628-681 | on any text, unescaping that succeeds stops exactly at the closing quote and emits no more bytes than the quoted length |
| JsonString.StepLooksAhead | parson.c:638-665 | a step inside a quoted body looks at the closing quote or behind it if and only if the quote cuts a `u` escape short, and then it fails; so a step that succeeds looks at bytes before the quote only |
| JsonString.LooksPastQuote | parson.c:185-199 | two hexadecimal digits and the closing quote: the byte behind the quote is looked at |
| JsonString.ProcessLooks | parson.c:628-681 | over the whole body, when unescaping succeeds the quote is the last byte looked at; when it fails, bytes from the quote on were looked at if and only if it failed at an escape cut short |
| JsonString.ProcessStep | parson.c:638-665 | the in-place loop body writes what the step stands for behind what was written before, and fails exactly on the escapes and control characters the code refuses |
| JsonString.ProcessString | parson.c:628-681 | the loop over two cursors and an output buffer of the quoted length never leaves either, computes the unescaped text, and looks no further than LastLook says, never behind the terminator |
| JsonString.GetQuotedString | parson.c:685-694 | the unescaped text between the quotes, with the cursor behind the closing quote; fails exactly when the quotes do not close or an escape is bad |
| JsonString.StepUndoesEscapeChar | parson.c:1030-1095 | every one of the 256 bytes, escaped, is one step of unescaping that gives the byte back and that the quote search skips |
| JsonString.ProcessUndoesEscape | parson.c:559-681 | the quote search over an escaped body ends at its end, and unescaping gives the original bytes |
| JsonString.QuotedStringUndoesQuote | parson.c:685-694 | reading back a serialised string gives the same bytes, embedded NULs included, with either slash setting, and consumes exactly the serialised text |
| JsonString.IsValidUtf8 | parson.c:258-268 | says yes exactly when the whole text decodes into code points, multi-byte sequences at its end included |
| JsonString.Utf8BytesDecode | parson.c:201-256 | whatever parse_utf16 writes for a code point passes verify_utf8_sequence and decodes to the same code point, whatever follows |
| JsonString.Utf8HeadIsLocal | parson.c:216-256 | an accepted sequence is judged by its own bytes, and all bytes after its first are continuation bytes |
| JsonString.ProcessKeepsUtf8 | parson.c:628-681 | unescaping a quoted body that is valid UTF-8 gives valid UTF-8, for any mix of raw sequences and escapes |
| JsonUtf8.HeadIsExact | parson.c:216-256 | a sequence is accepted exactly when it is the encoding of a code point that is no surrogate; so nothing overlong and nothing above 0x10FFFF is |
| JsonUtf8.ValidIsEncoded | parson.c:258-268 | a text is valid exactly when it encodes code points one after the other, and no text encodes two sequences of them |
| JsonStringGrammar.QuotedStringIsGrammatical | parson.c:559-694 | the scanner reads a string exactly where section 7 of RFC 8259 has one, up to its closing quote and with the bytes it stands for; the grammar is a sequence of raw bytes and escapes, stated without the scanner |
| JsonStringGrammar.QuoteIsShortest | parson.c:1030-1095 | of all texts that stand for a string the serialiser writes one of the shortest, when it does not escape slashes |
| JsonStringGrammar.EscapesAreLower | parson.c:1045-1076 | escapes are written in lower case |
| JsonValue.Lookup | parson.c:429-441 | finds something exactly when the name occurs, and what it finds stands under that name |
| JsonValue.ValueEquals | parson.c:2073-2136 | the recursive comparison with its early exits decides the structural equality |
| JsonValue.ObjectEquality | parson.c:2101-2116 | although only the names of the first object are walked, objects are equal exactly when they have the same names and equal values under each: a pigeonhole argument from equal counts |
| JsonValue.EqualsReflexive | parson.c:2073-2136 | every tree without repeated names equals itself |
| JsonValue.EqualsSymmetric | parson.c:2073-2136 | equality does not depend on which tree is walked |
| JsonValue.EqualsIgnoresOrder | parson.c:2101-2116 | objects with the same members in different order are equal, and compare alike with every other value |
| JsonValue.EqualsIsNotTransitive | parson.c:2127-2128 | three numbers that show that the tolerance breaks transitivity |
| JsonValue.EqualsTransitiveExactly | parson.c:2073-2136 | for any set of numbers, equality is transitive on all trees over them if and only if closeness is transitive on the set |
| JsonValue.ApartIsTransitive | parson.c:2073-2136 | it is so on numbers that are equal or at least a millionth apart |
| JsonValue.IntegersAreTransitive | parson.c:2073-2136 | it is so on whole numbers |
| JsonValue.DeepCopy | parson.c:1459-1537 | a copy is made exactly when no object repeats a name, which is so of every tree the library builds, and is the same tree |
| JsonParse.SkipWhitespaces | parson.c:52-52 | the cursor stops at the first byte that is not white space, at the latest at the terminator |
| JsonParse.ReadValue | parson.c:696-719 | the recursive-descent parser with its moving cursor and nesting check returns the value the specification gives and leaves the cursor behind it, on any text |
| JsonParse.ReadArray | parson.c:785-829 | the item loop agrees with the recursive specification on any text, cursor included |
| JsonParse.ReadMemberAndSeparator | parson.c:740-779 | one round of the member loop: a member and what separates it from the next, or the end, or the failure that the specification gives |
| JsonParse.ReadObject | parson.c:721-783 | the member loop agrees with the recursive specification, cursor included; repeated names and names with NULs are refused |
| JsonGrammar.ParserAcceptsTheGrammar | parson.c:696-880 | the parser accepts a value ending at a position if and only if the text there is grammatical for that value (sections 2 to 7 of RFC 8259 as parson reads them), no name repeats in an object, and nesting stays within 2048 |
| JsonGrammar.ParseDenoted | parson.c:696-829 | completeness: every grammatical text of an unambiguous value is parsed to that value, or refused exactly when it nests too deep |
| JsonGrammar.ParseOnlyDenoted | parson.c:696-829 | soundness: whatever the parser returns is what the text denotes, with distinct names and bounded height |
| JsonGrammar.DenotesOneValue | parson.c:696-880 | no text stands for two values, nor for one value up to two places, however deep it nests |
| JsonGrammar.TextIsParsed | parson.c:1139-1147 | a text is parsed to the first value it denotes, behind a byte order mark if it has one and whatever follows, if names do not repeat and it nests at most 2048 deep; no other text is parsed |
| JsonRoundTrip.PrintDenotes | parson.c:891-1028 | serialised text at any position, level and style is a grammatical text of the value and of its exact length |
| JsonRoundTrip.WellFormedIsUnambiguous | parson.c:379-381 | the trees the serialiser is given repeat no name at any depth |
| JsonRoundTrip.ParseUndoesPrint | parson.c:1139-1147 | parsing the serialiser's output gives back the same tree, member order and string bytes included, in both formats and with either slash setting, if and only if it nests no deeper than 2048 |
| JsonRoundTrip.PrintIsInjective | parson.c:891-1028 | different trees never have the same text, however deep they nest |
| JsonRoundTrip.TooDeepToReadBack | parson.c:697-699 | 2050 arrays in each other have a text, and the parser refuses it; 2049 are read back |
| JsonLayout.CompactIsTight | parson.c:891-1028 | a scan that follows quotes and escapes finds no white space outside the strings of the compact form |
| JsonLayout.PrettyIsSpaced | parson.c:891-1104 | without its white space outside strings the pretty form is the compact form; and it is the compact form with Gap between neighbouring bytes: a line break behind the opening bracket of a container that is not empty, behind each comma and in front of the closing bracket, four blanks for each bracket open on the new line, one blank behind each colon, nothing else |
| JsonLayout.SlashesAreEscaped | parson.c:1077-1083 | with the setting each slash in a string stands behind a backslash of its own, without it none does, and there are no slashes outside strings |
| JsonLayout.OneItemLooksLike | parson.c:905-941 | the two forms of an array with one item |
| JsonPrint.DigitsAreFaithful | parson.c:1006-1019 | the assumption on number text can be met |
| JsonBuffer.Writer.Append | parson.c:881-885 | behind the text written so far, within the buffer, the string and its NUL; nothing else changes, and a dry run only counts |
| JsonBuffer.Writer.AppendNumber | parson.c:1006-1019 | the dry run prints into the 64-byte scratch buffer, the real run into the output, and both count the same |
| JsonBuffer.Writer.AppendIndent | parson.c:1097-1104 | four blanks a level |
| JsonBuffer.SerializeString | parson.c:1030-1095 | the byte-by-byte switch writes the quoted text of the string, NUL-terminated, in both passes |
| JsonBuffer.SerializeValue | parson.c:891-1028 | both passes advance by exactly the text of the value, every write including each terminating NUL stays inside the buffer, and a NUL stands behind the text |
| JsonBuffer.SerializeMember | parson.c:943-978 | looking the value up by name finds the one beside the name, because names are distinct |
| JsonBuffer.SerializationSize | parson.c:1539-1543 | the dry run with a null buffer returns exactly the length of the text that the real run writes, plus one |
| JsonBuffer.SerializeToBuffer | parson.c:1545-1556 | succeeds exactly when the buffer has room for text and NUL, writes them, and leaves every byte behind the NUL, or on failure every byte, as it was |
| JsonBuffer.SerializeToString | parson.c:1580-1597 | the allocated size is exactly filled, so the size check inside never fails; the pretty form (parson.c:1640-1657) likewise |
| JsonComments.FindIsFirst | parson.c:339-339 | the search for the closing token finds its first occurrence, and none behind a NUL |
| JsonComments.BlankComment | parson.c:334-346 | blanks a closed comment with both tokens, or only the opening token of one that is never closed |
| JsonComments.RemoveComments | parson.c:318-351 | terminates and computes the stripped text in place, for any pair of tokens; with an empty token it changes nothing |
| JsonComments.StripOnlyBlanks | parson.c:318-351 | every byte is kept or becomes a blank |
| JsonComments.StripRemovesComment | parson.c:334-349 | a closed comment outside strings disappears, and stripping goes on behind it as if it were not there |
| JsonComments.StripStopsAtUnclosed | parson.c:336-345 | a comment that is never closed loses its opening token, and nothing behind it changes |
| JsonComments.StripKeepsQuiet | parson.c:318-351 | text without a slash outside strings is left alone, and hands its string and escape flags to what follows |
| JsonComments.PrintIsQuiet | parson.c:891-1095 | serialised text has no slash outside its strings and leaves the scan outside a string, whatever quotes, backslashes and slashes the strings contain |
| JsonComments.StripKeepsPrint | parson.c:318-351 | neither the block nor the line comment pass changes serialised text |
| JsonComments.ParseWithCommentsUndoesPrint | parson.c:1149-1162 | the comment-tolerant parser inverts the serialiser on exactly the trees the plain one does |
| JsonComments.BlockCommentIsBlank | parson.c:1149-1162 | to the comment-tolerant parser a closed block comment outside strings is as many blanks, whatever stands in it |
| JsonComments.LineCommentIsBlank | parson.c:1149-1162 | so is a line comment with its line break, if no string and no other comment starts in it |
| JsonObject.Table.Search | parson.c:429-441 | the first index that holds the name, or count |
| JsonObject.Table.Resize | parson.c:399-427 | moves the members into fresh arrays of the new capacity; fails only for capacity 0 |
| JsonObject.Table.Add | parson.c:374-397 | appends, after doubling a full table, unless the name is taken, and then changes nothing |
| JsonObject.Table.Set | parson.c:1824-1843 | overwrites in place or appends; a value that has a parent is refused and nothing changes |
| JsonObject.Table.Remove | parson.c:443-464 | the last member takes the place of the removed one; fails exactly when the name is not there |
| JsonObject.Table.Clear | parson.c:2000-2011 | no member is left, and the capacity is kept |
| JsonObject.Table.Perform | parson.c:374-464 | any run of operations keeps names distinct and count within capacity, across every resize |
| JsonObject.LookupIsIndexOf | parson.c:429-441 | the loop by index and the lookup by name agree |
| JsonObject.ApplyRefines | parson.c:374-464 | each operation on the ordered table is the same operation on a finite map |
| JsonObject.RunRefinesMap | parson.c:374-464 | over every run the table refines a finite map, and names stay pairwise distinct |
| JsonObject.RemoveLosesOne | parson.c:455-459 | the swap with the last member loses the removed member and no other |
| JsonObject.SetKeepsPlaces | parson.c:1824-1843 | setting leaves all members in their places, and a new one stands behind them |
| JsonObject.RemoveKeepsPlaces | parson.c:443-464 | removing leaves all members in their places but the last, which stands where the removed one stood |
| JsonDot.DotGetIsValueAt | parson.c:1197-1204 | the value a dotted name leads to is the one at the end of its path of components |
| JsonDot.BlockedMeans | parson.c:1905-1909 | a path is blocked exactly when some proper prefix of it leads to a value that is no object |
| JsonDot.DotSetSucceeds | parson.c:1890-1930 | dotset succeeds if and only if the value has no parent and nothing but objects stands on the way |
| JsonDot.DotSetFailsCleanly | parson.c:1890-1930 | return by return, with the inner object written back even on failure: a dotset that fails leaves the whole tree as it was, and one that succeeds leaves what the theorems below speak of |
| JsonDot.DotRemoveFailsCleanly | parson.c:466-479 | the same for dotremove |
| JsonDot.FailureChangesNothing | parson.c:1890-1930 | a failing status of either call means unchanged members |
| JsonDot.DotSetThenGet | parson.c:1890-1930 | after a successful dotset, dotget of the same name returns the value |
| JsonDot.DotSetThenBelow | parson.c:1890-1930 | every path that goes on behind the set one leads where it leads in the value itself |
| JsonDot.DotSetKeepsOthers | parson.c:1890-1930 | every path that is neither a prefix nor an extension of the set one leads where it led before, found or not |
| JsonDot.DotSetMakesObjects | parson.c:1913-1929 | objects are created on the way as needed |
| JsonDot.DotSetKeepsUnambiguous | parson.c:1890-1930 | no object anywhere in the tree gets a repeated name |
| JsonDot.DotRemoveSucceeds | parson.c:466-479 | dotremove succeeds if and only if dotget finds something |
| JsonDot.DotRemoveRemoves | parson.c:466-479 | afterwards nothing is left at the path or below it, and every other path is unchanged |
| WorkerPool.ControlKept | worker.c:138-310 | every step keeps the control invariant: a busy slot's worker is not asleep, a running worker's slot is busy, only killed workers' slots carry the kill flag, and the scans know what they have seen |
| WorkerPool.PlacesKeptByWorker | worker.c:138-171 | a worker's step moves its job but neither loses nor duplicates one |
| WorkerPool.PlacesKeptByDispatcher | worker.c:189-228 | the dispatcher places each job once, when it accepts it, and overwrites none |
| WorkerPool.JobsAreConserved | worker.c:138-228 | in every interleaving, every accepted job is in exactly one place: run once, held by a slot, or killed; and what ran is what was accepted |
| WorkerPool.AcceptedIsRanPlusPending | worker.c:138-228 | without worker_killbusy, the jobs accepted are as many as those run to completion plus those held in busy slots |
| WorkerPool.NoKillNoLoss | worker.c:264-310 | only worker_killbusy abandons jobs |
| WorkerPool.NoLostWakeup | worker.c:144-149 | no reachable state has a busy slot whose worker sleeps in the condition wait |
| WorkerPool.BusySlotProgresses | worker.c:138-171 | each step of its own worker brings a busy slot one step closer to being free, and no other step but a kill changes the slot |
| WorkerPool.WaitMeansDone | worker.c:245-261 | when worker_wait returns, other than by its time-out, every job accepted before has completed exactly once (or was killed), and no slot is busy |
| WorkerPool.QuietWaitReturns | worker.c:245-261 | one scan is enough for worker_wait to return when no slot is busy |
| WorkerPool.UpdateRounds | pack.c:248-254 | with as many slots as packs, over any number of rounds and any interleaving, worker_exec always finds a slot in its first sweep, and worker_killbusy ends with every flags word zero |
| WorkerPool.RoundSettlesJobs | pack.c:249-254 | at the end of a round every job handed over so far has completed once or been killed once |
| WorkerPool.EveryPackInItsTurn | pack.c:248-252 | in every interleaving the jobs accepted are the packs in their order, once for each round that is over, followed by those of this round that have been handed over |
| WorkerPool.RoundUpdatesEveryPack | pack.c:248-254 | at the end of a round each pack has, in this round and in each before it, been updated once or killed once |
| WorkerPool.WithoutTimeOutAllAreUpdated | pack.c:248-254 | if no wait times out nothing is ever killed, and each round updates each pack exactly once |
| WorkerPool.RoundsGoOn | pack.c:248-254 | no step of a worker holds the client up, and each step of its own, but for one more scan of busy slots, brings it closer to the end of its round |
| CfgFile.File.Getc | cfg.c:387-387 | the next byte, or EOF and the end-of-file indicator, which fgetc sets only when it reads past the end |
| CfgFile.Store | cfg.c:387-404 | one byte into the line buffer, without leaving it |
| CfgFile.File.ReadLine | cfg.c:374-412 | the next line without leading and trailing white space and without non-ASCII bytes, up to a NUL, over-long lines cut in pieces, and no line once the end was met |
| CfgFile.ReadHeader | cfg.c:459-466 | the name between the brackets in upper case, cut to its buffer |
| CfgFile.ReadKeyword | cfg.c:485-492 | everything before the equals sign in upper case, cut where its buffer is full |
| CfgFile.Cfg.GetSection | cfg.c:528-550 | the first section of that name in upper case |
| CfgFile.Cfg.FindItemIn | cfg.c:173-187 | the first item of exactly that keyword |
| CfgFile.Cfg.GetItem | cfg.c:189-210 | the value under a section and keyword in whatever case |
| CfgFile.Cfg.SetItem | cfg.c:280-342 | overwrites the value, and the comment if one is given, or adds the item, and the section if need be |
| CfgFile.SetThenGet | cfg.c:280-342 | setting an item changes what is found under its own names, compared without case, and nothing else |
| CfgMeaning.SetThenFind | cfg.c:280-342 | with the comment: the given one, or else the one that was there |
| CfgMeaning.GetFindsWhatIsThere | cfg.c:189-210 | where names and keywords do not repeat, a value is found if and only if it is there |
| CfgFile.Cfg.TakeLine | cfg.c:446-519 | one line: a blank line ends the section, a header opens or reopens one, other lines outside a section are passed over, a comment waits for the next item, an item replaces an earlier one |
| CfgFile.Cfg.TakeItem | cfg.c:482-518 | the new item goes to the end of its section, and an earlier one of the same keyword goes away; a keyword too long for its buffer is cut |
| CfgFile.Cfg.ReadFrom | cfg.c:414-526 | the store that the lines of the file make, loop state and all |
| CfgMeaning.ReadMeans | cfg.c:443-520 | the store of any file, in terms of its lines alone: a section for each header name in the order of the first headers, and in each the items of the last lines for each keyword, in the order of these lines, each with the comment directly above it |
| CfgMeaning.GetFindsLastLine | cfg.c:443-520 | what is found under a name and a keyword is the value of the last line for that keyword under any header of that name, and nothing if and only if there is no such line |
| CfgMeaning.ItemLineTakesOver | cfg.c:482-518 | after the line of an item, the item stands last in its section with the waiting comment, the other keywords are there in their old order, and every other name and keyword is found as before |
| CfgMeaning.HeaderSays | cfg.c:459-466 | a header names its section by at most 63 bytes, in upper case |
| CfgMeaning.ItemLineSays | cfg.c:485-498 | keyword and value of a line, split at its first equals sign, or behind 63 bytes if the keyword is longer |
| CfgMeaning.LineIsTrimmed | cfg.c:374-412 | white space around the text of a line does not matter |
| CfgMeaning.TrimDropsBlanks | utils.c:64-83 | trim takes away the white space at both ends, and other control characters in front, and nothing else |
| CfgFile.Cfg.WriteTo | cfg.c:709-741 | the text of all sections, items and comments in order, each section ended by a blank line |
| CfgMeaning.WrittenLooksLike | cfg.c:709-741 | the file of a store with two sections |
| CfgRoundTrip.LinesOfJoined | cfg.c:374-412 | the line automaton gives back clean lines that were written; one that is a byte too long for the buffer comes back cut, with an empty line behind it |
| CfgRoundTrip.RereadIs | cfg.c:709-741 | what comes back of any store that cfg_read makes: all of it, with `;` in front of `#` comments, but for the items of a section from a comment that has become too long on |
| CfgRoundTrip.ReadUndoesWrite | cfg.c:709-741 | reading what was written restores sections, items, values and comments, in order, if and only if no comment starts with a hash |
| CfgRoundTrip.ReadIsFair | cfg.c:443-520 | whatever is read from a fair text, lines outside sections and over-long keywords included, is such a store |
| CfgRoundTrip.ReadWriteRead | cfg.c:443-520 | reading, writing and reading again changes nothing if and only if no comment that was read starts with a hash |
| CfgRoundTrip.WriteReadIsNormalForm | cfg.c:709-741 | write after read is a normal form, applied twice it gives the same text as once, if and only if no comment that was read starts with a hash and fills its line buffer |
| CfgRoundTrip.SecondRoundIsStable | cfg.c:709-741 | from the second round on nothing changes any more, whatever the comments |
| CfgRoundTrip.HashChanges | cfg.c:728-731 | a file whose one comment starts with a hash, and what comes back of it |
| CfgRoundTrip.LongHashLosesItem | cfg.c:392-397 | a file whose one comment is 1021 hashes: its item is lost when it is written and read again |
| LinkedList.List.constructor | list.c:156-175 | an empty list without a cursor |
| LinkedList.List.Add | list.c:78-110 | appends a fresh node and keeps the links; the cursor of an empty list moves onto the new cell, any other stays |
| LinkedList.List.Delete | list.c:177-218 | removes the first cell that holds the item and no other, keeps the links at both ends, and moves a cursor on it to the next cell |
| LinkedList.JoinNeighbours | list.c:189-194 | the surgery on the neighbours leaves a chain without the node |
| LinkedList.List.GetNext | list.c:265-286 | the item under the cursor, which advances, or nothing at the end |
| LinkedList.List.Reset | list.c:293-299 | the cursor is on the first cell again |
| LinkedList.List.IsNext | list.c:288-291 | whether the cursor is on a cell |
| LinkedList.List.Count | list.c:138-154 | the number of cells |
| LinkedList.List.Dup | list.c:236-263 | the same cells in fresh nodes, with the cursor on the first |
| LinkedList.PerformIsTheCall | list.c:78-286 | the walk below is made of what the three calls do |
| LinkedList.EverySurvivorIsReturnedOnce | list.c:265-299 | after a reset, under any interleaving of next, add and delete, each cell of the reset that is still there when the end is reported has been returned exactly once, and cells were returned in list order |
| LinkedList.AddedInTimeIsReturned | list.c:78-110 | a cell that is added while the list is empty or the cursor has not passed its end is returned exactly once as well, if it is still there at the end |
| LinkedList.SwapProgresses | list.c:342-349 | a swap keeps the sorted front and leaves strictly fewer cells out of order with the place being filled: the measure for which the sort terminates |
| LinkedList.List.FindBetter | list.c:334-340 | the first later node out of order with the current one, if there is one |
| LinkedList.List.SwapItems | list.c:343-349 | items and sizes change places, the nodes and the cursor stay |
| LinkedList.List.Sort | list.c:313-357 | for any total preorder returning -1, 0 or 1 the sort terminates, permutes the cells, keeps the cursor's place, and leaves no pair out of order in the requested direction |
| JbdFrame.JbdCrc | jbd.c:30-40 | in 16-bit arithmetic, the value that makes bytes and checksum add up to zero |
| JbdFrame.CrcSeesChange | jbd.c:30-40 | a change of one byte always changes the checksum |
| JbdFrame.JbdVerify | jbd.c:42-84 | returns 0 exactly for the byte sequences that Accepts describes |
| JbdFrame.JbdCmd | jbd.c:86-110 | writes the frame and zeros the rest up to pkt_size, with no data in a read; or returns -1 when the data does not fit, having written the header; nothing behind Extent is written |
| JbdFrame.StaysInside | jbd.c:94-107 | a call stays within pkt_size if and only if the header fits and the data does not end in the last three bytes |
| JbdFrame.WritesBehind | jbd.c:289-293 | with the buffer of 256 bytes that jbd_rw passes, a call goes beyond it if and only if it carries 250 to 252 bytes of data |
| JbdFrame.FrameIsAccepted | jbd.c:42-110 | the verifier accepts a frame the builder makes if and only if its data is at most 255 bytes, so every frame that fits a 256-byte buffer |
| JbdFrame.AcceptedIsFrame | jbd.c:42-110 | the verifier accepts nothing but frames |
| JbdFrame.FrameRule | jbd.c:42-84 | the rule byte by byte: 0xDD, the length in byte 3, 0x77 at the end, and all from byte 2 to the checksum, which is big-endian, adds up to zero in 16 bits |
| JbdFrame.CommandIsUnderstood | jbd.c:86-110 | a command is accepted and says its action, its register and its data, of which a read has none |
| JbdFrame.ReadCommand | jbd.c:86-110 | the seven bytes that read register 3 |
| JbdFrame.OneChangeIsSeen | jbd.c:42-84 | a same-length frame that differs from an accepted one in exactly one byte is accepted if and only if that byte is byte 1 |
| CanCrc.JbdCanCrc | jbd.c:175-192 | the two nested loops compute the checksum of the six bytes |
| CanCrc.CrcIsRemainder | jbd.c:175-192 | what the checksum is: its bits, the lowest first, are the remainder of a long division by x^16 + x^15 + x^2 + 1 (LongDivision.DivisionIsExact shows that it is the only one), where the dividend is the message, each byte with its lowest bit first, followed by sixteen zeros, with the first sixteen bits inverted |
| CanCrc.CrcDivides | jbd.c:181-190 | the same from any start value, which is added to the first sixteen bits instead |
| CanCrc.StepIsLinear | jbd.c:184-189 | the shift step with polynomial 0xA001 is linear over exclusive or |
| CanCrc.StepThenUnstep | jbd.c:184-189 | the shift step can be undone |
| CanCrc.UnstepThenStep | jbd.c:184-189 | the shift step reaches every 16-bit value |
| CanCrc.TwoBytes | jbd.c:181-190 | two bytes enter the checksum exactly like one 16-bit word |
| CanCrc.CrcKeepsApart | jbd.c:181-190 | equal bytes never make different checksums meet again |
| CanCrc.CrcIsLinear | jbd.c:181-190 | the checksum of the exclusive or of two messages is the exclusive or of their checksums, at any length and start value |
| CanCrc.BurstIsSeen | jbd.c:175-192 | messages of equal length that differ only within two adjacent bytes have the same checksum if and only if they are the same, at any length and start value |
| DevServer.Send | dsfuncs.c:54-82 | writes exactly one packet |
| DevServer.Resynchronise | dsfuncs.c:89-97 | skips to just behind the first start byte, or to the end of the stream |
| DevServer.ReadHeader | dsfuncs.c:101-117 | opcode, unit and length as far as the stream has them |
| DevServer.StoredFits | dsfuncs.c:98-160 | the bytes put into the local buffer of 256 fit if and only if the length is at most 251, or it is 252 and no end mark follows, or the stream ends where the data should start |
| DevServer.WholePacketTooLong | dsfuncs.c:98-160 | a whole packet with 252 bytes of data is one byte too long for that buffer |
| DevServer.ReceiveBody | dsfuncs.c:119-164 | data to the caller up to its room, the rest drained, then the end mark |
| DevServer.Recv | dsfuncs.c:84-165 | on any stream whose packet fits the local buffer: the result, what was stored, and what is left in the stream |
| DevServer.ReceivesPacket | dsfuncs.c:84-165 | for any noise without 0xD5, noise, packet and rest are received as the opcode, the unit and as much data as there is room for, and leave exactly the rest, whatever the room |
| DevServer.ReceivesStream | dsfuncs.c:54-165 | a stream of sent packets, with noise between them, is received as the same sequence |
| DevServer.OnlyPacketsAreReceived | dsfuncs.c:84-165 | on any stream: the result is -1 if and only if there is a start byte and no whole packet at the first one; a whole packet gives opcode, unit and as much data as there is room for, and leaves what follows it |
| DevServer.EmptyPacket | dsfuncs.c:54-82 | the five bytes of a packet without data |
| Battery.Controller.Init | battery.c:8-65 | the defaults of the chemistry where the configuration is silent, then a stopped and started charge |
| Battery.Controller.ChargeStart | battery.c:81-100 | no charge starts without a capacity; else constant current at the starting voltage and current |
| Battery.Controller.ChargeStop | battery.c:67-79 | 0.1 amps, the set voltage, and the discharge limits |
| Battery.Controller.ChargeCheck | battery.c:120-183 | one step of the controller, on any sensor readings; the division by the temperature is never by zero |
| Battery.InitEstablishes | battery.c:8-65 | rates and capacity are not negative after battery_init, and the invariant holds |
| Battery.CheckKeeps | battery.c:120-183 | every check keeps the invariant of the charge |
| Battery.EveryRunIsSafe | battery.c:120-183 | over every run after battery_init, with any sensors and any clock: not charging means 0.1 amps, the current never exceeds the starting one, and with constant current the voltage never exceeds the larger of the starting voltage and the maximum |
| Battery.LimitsStand | battery.c:67-79 | over every run after battery_init the discharge limits are those of the configuration, and without a charge the voltage is the set one |
| Battery.IdleUntilWanted | battery.c:174-182 | battery_init starts a charge if and only if a capacity is configured; at any later time a controller that is not charging stays so if and only if no check finds a capacity and either a battery below its discharge voltage or a cell at or below its minimum |
| Battery.OneCharge | battery.c:81-162 | from the check that starts a charge, in terms of the configuration and the sensors alone: how long it keeps to constant current, and its current and its voltage as long as it does |
| Battery.VoltageIsRamped | battery.c:156-161 | with constant current the voltage is the one at the start plus a tenth of a volt for each check that asks for more, up to the maximum |
| Battery.TwoHoursOfConstantVoltage | battery.c:151-172 | the check that finds the target passed turns to constant voltage, at the set voltage, for two hours from the clock reading it takes |
| Battery.DefaultsOfChemistry | battery.c:8-65 | the voltages, cell limits and rates of a battery of which only the chemistry is known |
| Battery.PctMeans | main.c:55-62 | for a positive temperature, more than 5 percent means that the starting temperature is below 95 percent of the present one |
| Battery.ChargeEnds | battery.c:127-173 | a check ends a charge if and only if the battery is freezing or too warm, or two hours of constant voltage are over |
| Battery.ChargeGoesOneWay | battery.c:120-173 | while a charge goes on, constant voltage is never left, its voltage and start time stay, the voltage never falls before it, and the current is divided by four at each cold check and changes in no other way |
| Battery.CurrentNeverRises | battery.c:132-132 | the current never rises while a charge goes on |
| Battery.ConstantVoltageLasts | battery.c:165-173 | a charge in constant voltage survives a run of checks if and only if each finds the battery healthy and the two hours not over, so the first check at or after two hours ends it |
| Battery.ConstantCurrentLasts | battery.c:143-155 | a charge keeps to constant current over a run of checks if and only if each finds the battery healthy, its voltage at most the target and every cell below its maximum |

## Left out

- JsonPrint.Faithful: the text of numbers (`strtod`, `%1.17g`, the decimal check of parson.c:270-283) is assumed to be read back as written, and subnormal numbers and locales are outside that assumption.
- JsonRoundTrip.ParseUndoesPrint: names with embedded NULs cannot be made with the library and are excluded, as are numbers that are no doubles.
- JsonDot.DotSetThenGet: dotget, dotset and dotremove are modelled on values, with the members that each return of the code leaves; which pointers are shared with the caller is not captured. Within one object, updating in place is JsonObject.Table.
- JsonValue.DeepCopy: copies are values, so that a copy shares no memory with its original is not stated.
- JsonBuffer.SerializeValue: the running total is unbounded, while the code keeps it in an int.
- JsonParse.ReadValue: the parser builds values, and the growth of arrays in parson.c:505-534 is not modelled.
- WorkerPool.JobsAreConserved: worker_finish, worker_kill, worker_cancel, worker_destroy_pool and FLAG_DONE are left out; with them a job can be abandoned before its worker wakes.
- WorkerPool.UpdateRounds: writing a flags word and delivering SIGINT are single steps; signals that arrive inside a lock region, and mutexes left locked by a killed thread, are not modelled.
- WorkerPool.BusySlotProgresses: progress is stated per step; that the scheduler lets every worker run is not.
- CfgFile.Cfg.ReadFrom: a line that makes an item has an equals sign or goes on behind a full keyword buffer; the value of any other starts behind the end of the line, and is not modelled.
- CfgFile.Cfg.SetItem: names and keywords fit their buffers; longer ones are not modelled.
- CfgRoundTrip.WriteReadIsNormalForm: the text holds no control characters other than white space.
- LinkedList.List.Add: an item is a value compared for equality, where the code compares pointers; copying size bytes into a fresh item and freeing it are not modelled.
- LinkedList.List.Dup: the copies of sized items are values too, so that they share no memory is not stated.
- LinkedList.List.Sort: the comparison sees item and size only, and the internal strcmp comparison is one instance of it.
- JbdFrame.JbdCmd: the detour of the checksum through a float is exact for 16-bit values and left out; the caller provides memory up to Extent, which JbdFrame.StaysInside compares with pkt_size.
- DevServer.Recv: a read of several bytes returns all of them unless the stream ends, and a negative file descriptor, read errors and the CHKSUM variant are left out; a caller without a buffer passes a size of 0; packets that do not fit the local buffer are excluded by the exact condition of DevServer.StoredFits.
- DevServer.Send: data that is announced but not given (a null pointer with a size) is left out; no caller does it.
- Battery.EveryRunIsSafe: reals replace floats, and the capacity and settings stay as battery_init left them; main.c also starts and stops charges and adds up capacities around charge_check.
- Allocation failures, null pointers, freeing, and reading and writing real files.
- json_validate, the typed getters and setters, the array operations, and json_parse_file in parson.c.
- list_add_list and list_destroy in list.c, and the typed accessors and tables in cfg.c.
- uuid.c, jk.c, si.c, preh.c, can.c, can_ip.c, ip.c, serial.c, bt.c, mqtt.c, inverter.c, module.c, config.c, stredit.c: devices, sockets, threads around drivers and wiring.
