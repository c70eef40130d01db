# mzimeja core, modelled in Dafny

MZ-IME (mzimeja) is a Japanese input method for Windows. This project models
the deterministic core of that input method in Dafny. It states what each
part promises and proves it.

The model covers these parts:

- **The tokenizer bridge** (`VibratoBridge`, over `third_party/vibrato-c/src/lib.rs`).
  This is the C interface to the vibrato morphological analyser. It covers
  loading and freeing a tokenizer handle, marshalling tokens into a
  caller-owned array of records, and releasing that array. Memory is an
  allocator of live allocation ids. The analyser, `File::open` and
  `Dictionary::read` are parameters.
- **The consumer of the tokenizer** (`VibratoEngine`, over `ime/vibrato_engine.cpp`).
  It classifies MeCab-IPADIC feature strings into word classes, turns tokens
  into lattice nodes, and enforces the not-initialised guards.
- **Kana-kanji conversion** (over `ime/convert.cpp` and `ime/mzimeja.h`):
  - `Hinshi`: word classes and the style word of a registered word;
  - `LatticeNodes`: lattice nodes and their costs;
  - `ConnectRules`: the connection-cost table and the connectability relation;
  - `KanaTable`: the hiragana table and its literal maps;
  - `Inflection`: the inflection generators `DoFields` / `Do*`;
  - `LatticeGraph` and `Linking`: the lattice with its chunks and reference counts,
    the linking pass, the cut of unlinked nodes and the last linked index;
  - `UserDict`: the user-dictionary callback;
  - `Candidates`: candidate merging and cost sorting;
  - `ClauseEdit`: clause stretching and storing a result;
  - `Jis`: character-code input, with JIS X 0208 row/cell codes, JIS and
    Shift_JIS as in Annex 1 of JIS X 0208:1997.
- **Postal codes** (`Postal`, over `ime/postal.cpp`). It covers normalisation
  and the per-line lookup in the postal data file, read with `fgets`.
- **Key processing and the IME object** (`Process` and `ImeMain`, over
  `ime/process.cpp` and `ime/main.cpp`). It covers:
  - the key-dispatch decision and its dry run;
  - the bounded translate-message buffer;
  - message routing and menu commands;
  - the window clamp, which `imepad/imepad.cpp` repeats for the pad window;
  - the greedy multi-clause choice.
- **The older IME generation** (the root-level files). It covers:
  - `KeyChar` and `RomajiTables` over `keychar.cpp`: key layout, character
    classes, romaji conversion and typed-character insertion;
  - `CompStrLog` over `comp_str.h` and `InputCtx` over `input_context.cpp`:
    composition editing;
  - `Dic` over `dic.cpp`: the `[section]` dictionary and candidate paging;
  - `Imm` over `imm.cpp`: escapes, candidate notifications and the right-click menu.
- **The IME pad and the setup program** (`ImePadData` and `ImeSetup`, over
  `imepad/imepad.cpp` and `ime_setup/ime_setup.cpp`). It covers:
  - the kanji and radical tables, their indexes and the list filters;
  - removing the IME from the Preload list;
  - the command-line dispatch.

Most source files mix pure logic and state changes. The model follows the
same split:
- Pure decisions are functions with lemmas about them.
- Objects whose fields the source updates in place are classes with
  `modifies` clauses. Examples are the lattice, the input context, the IME
  object, the IME pad and the allocator of the bridge.
- Fixed buffers are arrays. Examples are the translate-message buffer, the
  dictionary output buffer, the Preload array and the menu item array.

Integers are unbounded. The model writes out explicitly the byte and word
truncation, the signed `char` storage of clause offsets, and their
sign-extension into a 32-bit `DWORD`.

Some things the core calls but does not compute are parameters of the model:
- the tokenizer engine;
- file contents;
- registry values;
- locale mapping (`LCMapStringW`) and code-page conversion;
- resource strings;
- the open and conversion status supplied by the IMM.

Where the code has a quirk, the model keeps it as written:
- **Adjective costs.** In `CandConnectCost` the adjective branch switches on
  the left class, so its result is always 10. See
  `ConnectRules.AdjectiveCostIgnoresRight`.
- **Page Down.** Page Down calls the same page-up operation as Page Up. See
  `Process.PageDownPagesUp`.
- **Clause offsets.** The older composition string keeps clause offsets in
  a narrow string. A clause end of 128 or more is read back sign-extended.
  See `CompStrLog.ClauseOffsetReadBack` and
  `InputCtx.LongCompositionClauseEnd`.
- **Moving left past the end.** Moving left from past the end of the text
  reads the NUL terminator and goes to 0. See `InputCtx.LeftStopPastEnd`.
- **Backspace and Delete.** These cut the text at the cursor, because the
  one-argument `erase` removes everything after it.
- **The romaji cursor.** `add_romaji_char` leaves the cursor one past the
  typed character, as counted before the replacement, even when the
  replacement shortens the text. See `KeyChar.AddRomajiChar`.
- **The romaji table index.** `add_romaji_char` takes the replacement from
  the entry indexed by the match position, not by the matched entry. See
  `KeyChar.AddRomajiChar` and Findings.
- **JIS row 0x5E.** `jis2sjis` makes no Shift_JIS code of row 0x5E, so
  `ConvertCode` offers nothing for it. See `Jis.ConvertCode` and Findings.
- **Chunks in UTF-16 units.** The tokenizer engine counts chunks in UTF-16
  units but places tokens by character. See
  `VibratoEngine.Engine.AnalyzeToLattice` and Findings.
- **Empty dictionary values.** In the packed dictionary list, an empty value
  reads as the terminator. See `Dic.EmptyCandidateEndsList`.
- **The わ-row.** It has no euphonic forms in the godan generator. See
  `Inflection.GodanWaRowHasNoOnbin`.
- **The kana mapping.** In `add_hiragana_char` and `add_katakana_char` the
  buffer passed to `LCMapStringW` is cleared to NUL before the call. The
  mapped character therefore does not depend on the typed one, and
  `KeyChar.KanaInserted` takes it as a parameter.

## Model

| member | source | states |
|---|---|---|
| VibratoBridge.CStringBytes | third_party/vibrato-c/src/lib.rs:85-92 | the string made for a surface or feature never holds a NUL, and is the engine's bytes unchanged when they hold none |
| VibratoBridge.StringsOf | third_party/vibrato-c/src/lib.rs:81-99 | tokenizing allocates exactly two strings per token, surface then feature, each a C string of the token's bytes |
| VibratoBridge.Allocator.Load | third_party/vibrato-c/src/lib.rs:20-46 | null (and no allocation) exactly when the path is null or not UTF-8, the file does not open or the dictionary does not read; otherwise a fresh handle owning the tokenizer, nothing else allocated |
| VibratoBridge.Allocator.FreeTokenizer | third_party/vibrato-c/src/lib.rs:50-56 | a null handle is a no-op; a live handle is released and nothing else |
| VibratoBridge.Allocator.Tokenize | third_party/vibrato-c/src/lib.rs:59-108 | returns -1 writing neither output exactly when a pointer is null or the text is not UTF-8; otherwise 0, the count is the number of engine tokens and the array and its strings are the fresh allocations `Marshalled` describes |
| VibratoBridge.Allocator.FreeTokens | third_party/vibrato-c/src/lib.rs:111-127 | a null array is a no-op; otherwise every non-null string of the records and then the array are released |
| VibratoBridge.RecordsOwn | third_party/vibrato-c/src/lib.rs:81-107 | the strings the records point at are exactly the strings tokenizing allocated |
| VibratoBridge.MarshalledFreeable | third_party/vibrato-c/src/lib.rs:94-107 | the returned array is freeable and holds one record per engine token, in order, with its character range |
| VibratoBridge.MarshalledStrings | third_party/vibrato-c/src/lib.rs:85-92 | token k's surface and feature strings hold the engine's bytes, or are empty when those bytes hold a NUL |
| VibratoBridge.TokenizeThenFree | third_party/vibrato-c/src/lib.rs:59-127 | freeing what tokenizing returned brings the live allocations back to what they were before the call |
| VibratoEngine.VerbClass | ime/vibrato_engine.cpp:228-246 | the verb class is decided by the first of 五段, 一段, カ変/カ行変格, サ変/サ行変格 found in the conjugation field, and is 五段 when none is |
| VibratoEngine.ClassOfFields | ime/vibrato_engine.cpp:222-316 | each class is produced exactly for its first-field name; verbs are classed by field 4 (五段 with fewer than five fields), particles by field 1 (格助詞 by default), symbols by 句点/読点, and anything unrecognised is HB_UNKNOWN |
| VibratoEngine.ConvertPartOfSpeech | ime/vibrato_engine.cpp:207-320 | an empty feature is HB_UNKNOWN; otherwise the class of its comma-separated fields; the result is always one of the classes the classifier can produce |
| Text.SplitJoin | ime/vibrato_engine.cpp:217 | splitting comma-joined fields that hold no comma gives the fields back |
| VibratoEngine.CanonicalFeatureClassifies | ime/vibrato_engine.cpp:207-320 | every class the classifier can produce has a feature string that classifies as it, so none of the branches is dead |
| VibratoEngine.CanonicalFieldsClassify | ime/vibrato_engine.cpp:222-316 | the canonical fields of each class classify as that class |
| VibratoEngine.VerbClassOfCanonical | ime/vibrato_engine.cpp:228-246 | 五段, 一段, カ変 and サ変 give the godan, ichidan, ka-hen and sa-hen classes |
| VibratoEngine.TokenNode | ime/vibrato_engine.cpp:184-205 | a token's node has pre and post equal to the surface, no tags, the classified word class, delta cost 0 and the default node fields |
| VibratoEngine.Entry | ime/vibrato_engine.cpp:104-110 | each token gives its start and the node of its decoded surface and feature |
| VibratoEngine.Entries | ime/vibrato_engine.cpp:103-117 | one entry per token, in token order |
| VibratoEngine.NodesAtMembers | ime/vibrato_engine.cpp:112-115 | the chunk at position i holds exactly the token nodes that start at i |
| VibratoEngine.Chunks | ime/vibrato_engine.cpp:90-116 | the lattice has one chunk per position of the text and the tail chunk |
| Text.Utf16Length | ime/vibrato_engine.cpp:92 | `text.size()` counts one unit per character and two for one outside the Basic Multilingual Plane |
| Text.Utf16LengthInBmp | ime/vibrato_engine.cpp:92 | text inside the Basic Multilingual Plane has as many units as characters |
| Text.Utf16LengthPrefixes | ime/vibrato_engine.cpp:92 | characters start at strictly increasing unit offsets |
| VibratoEngine.Utf16Offset | ime/vibrato_engine.cpp:112-115 | the unit offset of a character of the text is the units before it, at most the text's size; a start past the text stays past it |
| VibratoEngine.Utf16Entries | ime/vibrato_engine.cpp:112-115 | each token keeps its node and has its start moved to a unit offset |
| VibratoEngine.ChunksIntended | ime/vibrato_engine.cpp:90-116 | the intended lattice has one chunk per UTF-16 unit and the tail chunk |
| VibratoEngine.ChunksIntendedPlacesByUnits | ime/vibrato_engine.cpp:112-115 | in the intended chunks a node is at unit i exactly when it belongs to a token whose first character begins at unit i |
| VibratoEngine.ChunksAgreeInBmp | ime/vibrato_engine.cpp:90-116 | for text inside the Basic Multilingual Plane the chunks as written are the intended ones |
| VibratoEngine.NonBmpTokenMisplaced | ime/vibrato_engine.cpp:112-115 | as written, for 𠮷か the token か is placed in chunk 1, the low surrogate of 𠮷, where it begins at unit 2 |
| VibratoEngine.ChunksShaped | ime/vibrato_engine.cpp:90-116 | when every token is non-empty and ends inside the text, the chunks satisfy the lattice shape invariant |
| VibratoEngine.TokenHead | ime/vibrato_engine.cpp:93-96 | the head node is HB_HEAD with delta cost 0 |
| VibratoEngine.TokenTail | ime/vibrato_engine.cpp:99-101 | the tail node is HB_TAIL with delta cost 0 |
| VibratoEngine.MarshalledReadsTokens | ime/vibrato_engine.cpp:103-107 | the records the bridge returns can be read back as the engine's tokens |
| VibratoEngine.EntryOfRecord | ime/vibrato_engine.cpp:103-110 | reading record i gives the same entry as the engine's token i |
| VibratoEngine.NodesAtSnoc | ime/vibrato_engine.cpp:112-115 | adding one token appends its node to its own start chunk only |
| VibratoEngine.TokenizedArray | ime/vibrato_engine.cpp:83-120 | the tokenize call returns a freeable array of the engine's tokens, and freeing it restores the allocations |
| VibratoEngine.PlaceTokens | ime/vibrato_engine.cpp:103-117 | the token loop builds exactly the chunks `Chunks` describes from the engine's tokens |
| VibratoEngine.TokenizeIntoChunks | ime/vibrato_engine.cpp:76-120 | tokenizing succeeds exactly for a live tokenizer and UTF-8 text, yields those chunks and leaves the allocations as they were |
| VibratoEngine.Engine.Initialize | ime/vibrato_engine.cpp:33-63 | an empty path fails and changes nothing; otherwise it succeeds exactly when the tokenizer loads, and then owns a fresh handle |
| VibratoEngine.Engine.AnalyzeToLattice | ime/vibrato_engine.cpp:68-129 | fails, leaving the lattice untouched, when not initialised or the text does not convert; otherwise the lattice text is the input, the head and tail nodes are set, and there is one chunk per UTF-16 unit of the text and the tail, each token placed at its start as the analyser counts it, in characters |
| VibratoEngine.Engine.ConvertClauses | ime/vibrato_engine.cpp:131-179 | conversion succeeds exactly when analysis does, on a fresh lattice with head, tail and the token chunks counted in UTF-16 units |
| Hinshi.FromOrdinal | ime/mzimeja.h:184-188 | every ordinal up to HB_MAX is the ordinal of exactly the class it converts to (the enum cast) |
| Hinshi.OrdinalInjective | ime/mzimeja.h:184-194 | converting a class to its ordinal and back gives the class, so distinct classes have distinct ordinals |
| Hinshi.FromByte | ime/mzimeja.h:184-188 | a number names a class exactly when it is at most HB_MAX, and then that class has it as ordinal |
| Hinshi.HinshiToStyleHasBits | ime/mzimeja.h:182-194 | every style `HinshiToStyle` makes carries all the MZIME_REGWORD_STYLE bits |
| Hinshi.StyleRoundTrip | ime/mzimeja.h:184-194 | for every class from HB_MEISHI on, `StyleToHinshi(HinshiToStyle(h))` gives h back |
| Hinshi.StyleRoundTripBack | ime/mzimeja.h:184-194 | a style with the flag bits whose class is in range comes back unchanged from `HinshiToStyle(StyleToHinshi(s))` |
| LatticeNodes.NewNode | ime/mzimeja.h:428-434 | a new node has delta cost 0, subtotal cost MAXLONG, marked 0, linked 0, empty strings and branches, and the given class, row, form and cost |
| LatticeNodes.HasTag | ime/mzimeja.h:442-444 | true exactly when the tag occurs as a substring of the node's tags |
| LatticeNodes.TagCost | ime/convert.cpp:869-877 | +100 for 非標準, +50 for 不謹慎, +30 once for any of 人名/駅名/地名, -30 for a user-dictionary word |
| LatticeNodes.CalcCost | ime/convert.cpp:864-879 | +200 for 漢語, +120 for a symbol, plus the tag costs; always between -30 and 380 |
| LatticeNodes.NoTagIsContained | ime/convert.cpp:868-869 | a node with no tags has none of the cost tags, so the `tags.size()` guard changes nothing |
| LatticeNodes.ArrayAt | ime/mzimeja.h:66-77 | an index is answered exactly when it is below the size, with that element; otherwise the assertion fails (None) |
| ConnectRules.CandConnectCost | ime/convert.cpp:116-178 | a free joint (period, comma, tail, symbol or unknown on either side) costs 0; every other pair costs 1, 5 or 10, never the 3 the verb branch of the adjective case names |
| ConnectRules.AdjectiveCostIgnoresRight | ime/convert.cpp:143-153 | after an adjective the cost is 10 whatever follows, because the inner switch tests the left class again |
| ConnectRules.IsNodeConnectable | ime/convert.cpp:182-492 | free joints always connect; a prefix connects only to a noun; the head rejects only a final particle; a final particle connects only to a noun, prefix or final particle; comma and period reject particles, suffixes and auxiliaries; a noun or suffix never precedes a prefix |
| ConnectRules.HypotheticalTakesBa | ime/convert.cpp:182-492 | a verb or auxiliary in the hypothetical form connects exactly to the conjunctive particles ば, ども and ど |
| ConnectRules.ImperfectiveNeedsTag | ime/convert.cpp:182-492 | a word in the imperfective form connects only to an auxiliary tagged as taking it, and after an adjective only to one starting with な or to う |
| KanaTable.HiraganaShape | ime/convert.cpp:13-32 | the hiragana table has sixteen rows (one per consonant row, the voiced and half-voiced ones included) of five columns |
| KanaTable.LastWrite | ime/convert.cpp:38-53 | the row and column the maps keep for a kana after the first p writes lie inside the table |
| KanaTable.LastWriteFound | ime/convert.cpp:38-53 | a kana is a key exactly when some visited cell holds it |
| KanaTable.LastWriteIs | ime/convert.cpp:38-53 | the maps keep the row and column of the last visited cell holding the kana |
| KanaTable.RowWrite | ime/convert.cpp:44-47 | writing one cell's row extends the written prefix of the row map by one cell |
| KanaTable.ColumnWrite | ime/convert.cpp:48-50 | writing one cell's column extends the written prefix of the column map by one cell |
| KanaTable.CellIsLast | ime/convert.cpp:38-53 | a kana in no later cell of its row and in no later row is last written at its own cell |
| KanaTable.GyouOf | ime/convert.cpp:38-53 | every lookup gives a row of the table, the default row for a kana the table lacks |
| KanaTable.LaterRowsLackI | ime/convert.cpp:13-32 | the i-column kana of a row appears in no later row |
| KanaTable.LaterRowsLackU | ime/convert.cpp:13-32 | the u-column kana of a row appears in no later row |
| KanaTable.CellReadsBack | ime/convert.cpp:13-53 | a kana last written at its own cell reads back as that row and column |
| KanaTable.ContinuativeKanaCell | ime/convert.cpp:13-53 | the maps invert the i-column: き reads back as the か-row and the i-column |
| KanaTable.ConclusiveKanaCell | ime/convert.cpp:13-53 | the maps invert the u-column |
| KanaTable.LiteralMapsOfNul | ime/convert.cpp:13-53 | NUL, the filler of empty cells, is a key too and maps to the ん-row and the お-column |
| KanaTable.LiteralMaps.constructor | ime/convert.cpp:33-34 | both maps start empty |
| KanaTable.LiteralMaps.Make | ime/convert.cpp:38-53 | filled maps are left alone; empty ones are filled from the hiragana table |
| KanaTable.LiteralMaps.Fill | ime/convert.cpp:42-52 | after the loops every cell's row and column is written, last write winning |
| KanaTable.LiteralMaps.WriteRows | ime/convert.cpp:44-47 | the inner loop writes the row of each cell of one table row and leaves the column map alone |
| KanaTable.LiteralMaps.WriteColumns | ime/convert.cpp:48-50 | the inner loop writes the column of each cell of one table row and leaves the row map alone |
| KanaTable.LiteralMaps.FilledMapsAnswer | ime/convert.cpp:38-53 | a filled map answers as the lookups do, and a missing key reads as the first row and column |
| LatticeGraph.DoFieldsSound | ime/convert.cpp:2779-2881 | every node the record expansion yields for a reading reads the text at the index and is no shorter than the reading |
| LatticeGraph.Stamp | ime/convert.cpp:2779-2881 | pushed nodes are new objects numbered consecutively from the next identity |
| LatticeGraph.AddRefs | ime/convert.cpp:2779-2881 | each pushed node adds one reference at the index where it ends, and no other count changes |
| LatticeGraph.EndCountPositive | ime/convert.cpp:1468-1483 | an index gains references from a chunk exactly when some node of the chunk ends there |
| LatticeGraph.StartRefs | ime/convert.cpp:1470-1472 | the counts restart with one reference at the start and none elsewhere |
| LatticeGraph.RefsFrom | ime/convert.cpp:1474-1482 | the counts after the loop has visited a prefix of the indices cover every index of the text |
| LatticeGraph.ReachedBeforeEnough | ime/convert.cpp:1474-1482 | only indices before j can reach j, since nodes are non-empty |
| LatticeGraph.RefsFromReach | ime/convert.cpp:1474-1482 | loop invariant: after the indices before p, an index has references exactly when one of them reaches it |
| LatticeGraph.RefsMeanReachable | ime/convert.cpp:1468-1483 | after UpdateRefs an index has references exactly when it is reachable from the start by a path of nodes |
| LatticeGraph.KeepLinked | ime/convert.cpp:1561-1570 | remove_if keeps only linked nodes of the chunk |
| LatticeGraph.KeepLinkedKeepsAll | ime/convert.cpp:1561-1570 | every linked node survives the cut |
| LatticeGraph.KeepLinkedConcat | ime/convert.cpp:1561-1570 | the survivors keep their relative order |
| LatticeGraph.KeepLinkedIdempotent | ime/convert.cpp:1561-1570 | cutting twice removes nothing more |
| LatticeGraph.RemoveUnlinked | ime/convert.cpp:1564-1568 | the compaction loop over one chunk yields exactly the linked nodes in order |
| LatticeGraph.AppendedShaped | ime/convert.cpp:2779-2881 | pushing nodes that read the text at their index keeps every chunk's nodes inside the text |
| LatticeGraph.PassRefs | ime/convert.cpp:1479-1481 | the inner loop adds one reference at the end of each node of the chunk |
| LatticeGraph.Unlinked | ime/convert.cpp:1534-1544 | an unlinked chunk keeps its nodes with zero links and no branches |
| LatticeGraph.UnlinkAll | ime/convert.cpp:1534-1544 | the chunks before the tail are unlinked and the tail chunk is left as it was |
| LatticeGraph.Marked | ime/convert.cpp:1499-1502 | every node of the first chunk gets one link |
| LatticeGraph.Ids | ime/convert.cpp:1499-1502 | the head's branches are the first chunk's nodes in order |
| LatticeGraph.TailNode | ime/convert.cpp:1507-1512 | the tail node is a fresh unlinked node of the tail class with an empty reading |
| LatticeGraph.HeadNode | ime/convert.cpp:1494-1504 | the head node is linked once and branches to every node of the first chunk |
| LatticeGraph.Prepared | ime/convert.cpp:1492-1512 | the chunks the linking loop starts from keep one entry per index and the tail |
| LatticeGraph.Attach | ime/convert.cpp:1515-1531 | attaching a link state replaces only the links and branches of each node |
| LatticeGraph.AttachCurrent | ime/convert.cpp:1515-1531 | attaching the nodes' own link state changes nothing |
| LatticeGraph.LinkedLattice | ime/convert.cpp:1515-1531 | the linking loop changes nothing but links and branches |
| LatticeGraph.BumpNodes | ime/convert.cpp:1521-1527 | each node the linked node may be followed by gains exactly one link; the others are unchanged |
| LatticeGraph.Frozen | ime/convert.cpp:1515-1531 | a node without its link fields carries no links and no branches |
| LatticeGraph.ConnectIsBlind | ime/convert.cpp:182-492 | IsNodeConnectable reads none of the link fields, so linking cannot change its answers |
| LatticeGraph.AttachNode | ime/convert.cpp:1517-1529 | one step of the loop on the nodes is one step of the pass on the link state |
| LatticeGraph.AttachStep | ime/convert.cpp:1517-1529 | the middle loop on the nodes follows the pass on the link state one node at a time |
| LatticeGraph.PassNode | ime/convert.cpp:1521-1527 | the inner loop gives the node as branches exactly the nodes it may be followed by, in order, and bumps their links |
| LatticeGraph.PassOne | ime/convert.cpp:1517-1529 | an unlinked node is skipped; a linked one passes links to the chunk where it ends |
| LatticeGraph.PassChunk | ime/convert.cpp:1516-1530 | the middle loop over one chunk is the pass over all its nodes |
| LatticeGraph.PassAll | ime/convert.cpp:1515-1531 | the outer loop is the pass over every chunk before the tail |
| LatticeGraph.ClearLinks | ime/convert.cpp:1537-1542 | the inner loop of UnlinkAllNodes clears links and branches of one chunk |
| LatticeGraph.MarkFirst | ime/convert.cpp:1499-1502 | the head's loop marks every node of the first chunk and collects their identities in order |
| LatticeGraph.UnlinkAllShaped | ime/convert.cpp:1534-1544 | unlinking keeps every reading, so the chunks keep their shape |
| LatticeGraph.PreparedShaped | ime/convert.cpp:1492-1512 | the prepared chunks are shaped and carry no branches |
| LatticeGraph.ComplementRecord | ime/convert.cpp:1547-1558 | the complement record is a noun whose reading and conversion are the given characters |
| LatticeGraph.ComplementNodes | ime/convert.cpp:1547-1558 | every node the complement loop adds reads the text at the index and is at least the minimum length |
| LatticeGraph.ComplementNoun | ime/convert.cpp:1547-1558 | the first node a complement record yields is the plain noun for its characters |
| LatticeGraph.ComplementContains | ime/convert.cpp:1547-1558 | the nodes of every length that fits are among the loop's nodes |
| LatticeGraph.ComplementHasNoun | ime/convert.cpp:1547-1558 | every length from the minimum to the maximum that fits in the text adds the plain noun for those characters |
| LatticeGraph.AppendedTwice | ime/convert.cpp:2779-2881 | pushing a and then b onto a chunk pushes a + b |
| LatticeGraph.StampConcat | ime/convert.cpp:2779-2881 | numbering two runs in turn numbers their concatenation |
| LatticeGraph.EndCountConcat | ime/convert.cpp:1468-1483 | end counts over two runs add up |
| LatticeGraph.AddRefsConcat | ime/convert.cpp:2779-2881 | adding the references of a and then of b adds those of a + b |
| LatticeGraph.ComplementNodesNext | ime/convert.cpp:1550-1557 | one more length appends its nodes after those of the shorter lengths |
| LatticeGraph.ComplementNodesEmpty | ime/convert.cpp:1550 | no length is tried when the range is empty |
| LatticeGraph.PushTwice | ime/convert.cpp:2779-2881 | pushing done and then ns, with references and identities, is pushing done + ns |
| LatticeGraph.UnlinkChunks | ime/convert.cpp:1534-1544 | the loop of UnlinkAllNodes yields the unlinked chunks |
| LatticeGraph.Relinked | ime/convert.cpp:1486-1532 | the chunks UpdateLinks leaves stay shaped |
| LatticeGraph.Relink | ime/convert.cpp:1486-1532 | UpdateLinks unlinks, builds the head from the first chunk, and links the chunks |
| LatticeGraph.LinkPrepared | ime/convert.cpp:1494-1531 | after unlinking, the head and tail steps and the linking loop give the relinked chunks |
| LatticeGraph.Lattice.constructor | ime/convert.cpp:2925-2931 | the lattice starts with the text, no head or tail node, one empty chunk per index and the tail, and one reference at the start |
| LatticeGraph.Lattice.AddFields | ime/convert.cpp:2779-2881 | the generated nodes are pushed in order onto the chunk at the index, each adding one reference where it ends, with fresh identities |
| LatticeGraph.Lattice.AddComplementLength | ime/convert.cpp:1550-1557 | one turn of the loop adds the record of one more length after those of the shorter ones |
| LatticeGraph.Lattice.AddComplement | ime/convert.cpp:1547-1558 | for each length from the minimum to the maximum that fits after the index, the characters are added as an unknown noun |
| LatticeGraph.Lattice.UpdateRefs | ime/convert.cpp:1468-1483 | the counts are recomputed from the chunks; nothing else changes |
| LatticeGraph.Lattice.CutUnlinkedNodes | ime/convert.cpp:1561-1570 | every chunk before the tail keeps exactly its linked nodes, in order; the tail chunk is untouched |
| LatticeGraph.Lattice.UnlinkAllNodes | ime/convert.cpp:1534-1544 | every node before the tail chunk loses its links and branches |
| LatticeGraph.Lattice.UpdateLinks | ime/convert.cpp:1486-1532 | the head links the first chunk, one new tail node replaces the tail chunk, two identities are used, and the chunks are relinked |
| LatticeGraph.Lattice.GetLastLinkedIndex | ime/convert.cpp:1573-1590 | the end of the text when the tail is linked; otherwise the last index before it holding a linked node, or 0 |
| LatticeGraph.LinkedMeans | ime/convert.cpp:1515-1531 | after linking, a node's count is its start count plus the linked nodes ending where it starts that may be followed by it |
| LatticeGraph.AttachedBranches | ime/convert.cpp:1515-1531 | branches read through attached nodes are the connectable nodes at the end of a linked node |
| LatticeGraph.BranchesMean | ime/convert.cpp:1515-1531 | a linked node's branches are the nodes it may be followed by where it ends, in order; an unlinked node has none |
| LatticeGraph.HeadLinksFirst | ime/convert.cpp:1494-1504 | every node of the first chunk is linked exactly once, from the head |
| LatticeGraph.LinkedIffConnected | ime/convert.cpp:1486-1532 | a node past the first chunk is linked exactly when a linked node ending where it starts may be followed by it |
| LatticeGraph.TailLinked | ime/convert.cpp:1486-1532 | the tail is linked exactly when some linked node ends at the end of the text |
| Linking.End | ime/convert.cpp:1519-1520 | a node of chunk i ends strictly after i and no later than the tail chunk |
| Linking.Targets | ime/convert.cpp:1521-1527 | a linked node's branches are identities of nodes of the end chunk it may be followed by |
| Linking.TargetsSnoc | ime/convert.cpp:1521-1527 | growing the end chunk by one node appends that node's identity exactly when it may follow |
| Linking.TargetsAgree | ime/convert.cpp:1521-1527 | two rules agreeing position by position give the same branches |
| Linking.Bumped | ime/convert.cpp:1524 | a node gains one link exactly when the linked node may be followed by it |
| Linking.LinkNode | ime/convert.cpp:1517-1529 | the pass over one node keeps the link state well-formed |
| Linking.LinkChunk | ime/convert.cpp:1516-1530 | the pass over a prefix of one chunk keeps the link state well-formed |
| Linking.LinkAll | ime/convert.cpp:1515-1531 | the pass over the chunks before p keeps the link state well-formed |
| Linking.CountBeforeFrame | ime/convert.cpp:1515-1531 | counting incoming links reads only the counts of the chunks counted |
| Linking.CountChunkSame | ime/convert.cpp:1515-1531 | a chunk's count depends only on that chunk's links |
| Linking.CountChunkEarlier | ime/convert.cpp:1515-1531 | nodes of a chunk never end at or before that chunk |
| Linking.CountBeforeUpTo | ime/convert.cpp:1515-1531 | the chunks at or after j add nothing to a node at j |
| Linking.CountChunkPositive | ime/convert.cpp:1521-1527 | a chunk contributes a link exactly when one of its linked nodes ends at the node and may be followed by it |
| Linking.CountBeforePositive | ime/convert.cpp:1515-1531 | the passed chunks contribute a link exactly when one of their linked nodes ends at the node and may be followed by it |
| Linking.LinkChunkKeeps | ime/convert.cpp:1516-1530 | passing chunk p leaves the counts of chunks up to p and the branches of other chunks alone |
| Linking.LinkChunkBranches | ime/convert.cpp:1516-1530 | within chunk p each passed linked node takes its targets as branches; the others take none |
| Linking.LinkChunkCounts | ime/convert.cpp:1516-1530 | each node of a later chunk gains one link per passed linked node that ends at it and may be followed by it |
| Linking.LinkAllBranches | ime/convert.cpp:1515-1531 | after passing the chunks before p, every linked node of them has exactly its targets as branches and the rest have none |
| Linking.LinkAllCounts | ime/convert.cpp:1515-1531 | every count grows by the number of linked nodes of passed chunks ending at the node that may be followed by it |
| Linking.Linked | ime/convert.cpp:1515-1531 | after the whole loop a node is linked exactly when it started linked or some linked earlier node ending at it may be followed by it |
| Linking.Branches | ime/convert.cpp:1515-1531 | after the whole loop a linked node's branches are the nodes it may be followed by where it ends, in order |
| Inflection.MakeWordField | ime/convert.cpp:1550 | a one-unit part-of-speech field holding MAKEWORD(lo, hi) reads back as lo + 256 * hi |
| Inflection.Ext | ime/convert.cpp:1593-1783 | a node for the reading extended by a suffix the text holds next reads the text at the index |
| Inflection.Same | ime/convert.cpp:1593-1783 | a node extended by the same suffix on both sides reads the text at the index |
| Inflection.Head | ime/convert.cpp:1593-1783 | the first m characters of the tail are a prefix of what follows the stem |
| Inflection.Base | ime/convert.cpp:1593-1783 | a generator's base node carries the record's class and tags, no links and no extra cost |
| Inflection.TailStart | ime/convert.cpp:1593-1783 | the tail's first character is the text's character right after the stem |
| Inflection.Form | ime/convert.cpp:1593-1783 | at most one node, reading the text at the index, for a suffix the tail starts with |
| Inflection.FormThenParticle | ime/convert.cpp:1593-1783 | the form and the form with a following sentence-final particle all read the text at the index |
| Inflection.PastForms | ime/convert.cpp:1593-1914 | the continuative and past forms read the text at the index |
| Inflection.IkeiKu | ime/convert.cpp:1593-1783 | the ku and kute forms read the text at the index |
| Inflection.KuFormLeftUnset | ime/convert.cpp:1611-1657 | the 高く node carries a form nobody set: with the stand-in it connects to an auxiliary without the imperfective-link tag, with the imperfective form it does not |
| Inflection.IkeiKuIntended | ime/convert.cpp:1646-1657 | the ku and kute nodes with the continuative form, otherwise unchanged |
| Inflection.IkeiKuIntendedConnects | ime/convert.cpp:1646-1657 | an intended 高く node connects to an auxiliary exactly when it has the continuative-link tag, and to another class exactly when the continuative form takes it |
| Inflection.IkeiNoun | ime/convert.cpp:1720-1753 | the noun forms (sa, mi, me) read the text at the index |
| Inflection.IkeiForms | ime/convert.cpp:1593-1753 | every inflected form of an i-adjective reads the text at the index |
| Inflection.DoIkeiyoushi | ime/convert.cpp:1593-1783 | nothing unless the stem occurs at the index; otherwise every node reads the text at the index |
| Inflection.IkeiConclusive | ime/convert.cpp:1678-1684 | a stem followed by い yields the conclusive i-adjective node: reading and conversion extended by い |
| Inflection.IkeiSou | ime/convert.cpp:1755-1761 | the stem before そう read as a na-adjective reads the text at the index |
| Inflection.IkeiSugi | ime/convert.cpp:1763-1771 | the stem before すぎ read as an ichidan verb, in both spellings, reads the text at the index |
| Inflection.IkeiStem | ime/convert.cpp:1773-1782 | the stem read as a noun before the end of the text or punctuation reads the text at the index |
| Inflection.NakeiForms | ime/convert.cpp:1786-1914 | every inflected form of a na-adjective reads the text at the index |
| Inflection.DoNakeiyoushi | ime/convert.cpp:1786-1914 | nothing unless the stem occurs at the index; otherwise every node reads the text at the index |
| Inflection.NakeiConclusive | ime/convert.cpp:1852-1859 | a stem followed by だ yields the conclusive na-adjective node: reading and conversion extended by だ |
| Inflection.GodanOnbinRow | ime/convert.cpp:1980-1999 | the euphonic ending is looked up through the row of the continuative kana, which reads back as the verb's own row, or NUL's row when the row has no such kana |
| Inflection.GodanWaRowHasNoOnbin | ime/convert.cpp:1980-1999 | the わ-row case of the euphonic switch is never reached, so a わ-row verb gets no euphonic forms |
| Inflection.OnbinForms | ime/convert.cpp:2000-2060 | the euphonic continuative forms read the text at the index |
| Inflection.GodanE | ime/convert.cpp:1917-2139 | the e-column forms read the text at the index |
| Inflection.GodanO | ime/convert.cpp:1917-2139 | the o-column volitional forms read the text at the index |
| Inflection.GodanNoun | ime/convert.cpp:1917-2139 | the i-column noun forms read the text at the index |
| Inflection.GodanVerbForms | ime/convert.cpp:1917-2139 | every verb form of a godan verb reads the text at the index |
| Inflection.DoGodanDoushi | ime/convert.cpp:1917-2139 | nothing unless the stem occurs at the index; otherwise every node reads the text at the index |
| Inflection.GodanConclusive | ime/convert.cpp:2036-2046 | a stem followed by its row's u-column kana yields the conclusive godan node with that kana appended to both sides |
| Inflection.IchidanTeita | ime/convert.cpp:2142-2330 | the teita forms read the text at the index |
| Inflection.IchidanTeta | ime/convert.cpp:2142-2330 | the teta forms read the text at the index |
| Inflection.ConclusiveForms | ime/convert.cpp:2142-2330 | the conclusive and attributive forms read the text at the index |
| Inflection.IchidanTe | ime/convert.cpp:2142-2330 | the te form and its past forms read the text at the index |
| Inflection.IchidanYou | ime/convert.cpp:2142-2330 | the volitional forms read the text at the index |
| Inflection.IchidanRo | ime/convert.cpp:2142-2330 | the imperative forms read the text at the index |
| Inflection.IchidanNoun | ime/convert.cpp:2142-2330 | the noun forms read the text at the index and there is at least one |
| Inflection.IchidanForms | ime/convert.cpp:2142-2330 | every form of an ichidan verb reads the text at the index, and there are at least three |
| Inflection.DoIchidanDoushi | ime/convert.cpp:2142-2330 | nothing unless the stem occurs at the index; otherwise at least three nodes, each reading the text at the index |
| Inflection.IchidanConclusive | ime/convert.cpp:2262-2266 | a stem followed by る yields the conclusive ichidan node: reading and conversion extended by る |
| Inflection.KahenForm | ime/convert.cpp:2333-2482 | each kuru form reads the text at the index |
| Inflection.KahenKuru | ime/convert.cpp:2333-2482 | the kuru forms read the text at the index |
| Inflection.KahenKoi | ime/convert.cpp:2333-2482 | the koi forms read the text at the index |
| Inflection.KahenForms | ime/convert.cpp:2333-2482 | every form of 来る reads the text at the index |
| Inflection.DoKahenDoushi | ime/convert.cpp:2333-2482 | nothing unless the stem occurs at the index; otherwise every node reads the text at the index |
| Inflection.KahenConclusive | ime/convert.cpp:2359-2365 | a stem followed by くる yields the conclusive node reading くる and written 来る |
| Inflection.SahenForm | ime/convert.cpp:2485-2646 | each suru form, in the za- or sa-row spelling, reads the text at the index |
| Inflection.DoSahenDoushi | ime/convert.cpp:2485-2646 | nothing unless the stem occurs at the index; otherwise every node reads the text at the index |
| Inflection.SahenConclusive | ime/convert.cpp:2566-2580 | a stem followed by する, or ずる for a ざ-row record, yields the conclusive suru-verb node with that ending on both sides |
| Inflection.MeishiForms | ime/convert.cpp:2648-2690 | one or two noun nodes, the first with the record's reading and class, and its conversion unless it names an animal or plant |
| Inflection.MeishiSahen | ime/convert.cpp:2700-2713 | the suru-verb readings of a noun stem read the text at the index |
| Inflection.MeishiTaru | ime/convert.cpp:2720-2727 | the godan reading before たる or たれ reads the text at the index |
| Inflection.DoMeishi | ime/convert.cpp:2648-2728 | nothing unless the stem occurs; otherwise the first node is the noun itself, with the record's conversion unless it names an animal or plant |
| Inflection.MeishiPpoi | ime/convert.cpp:2692-2698 | the i-adjective reading before っぽ reads the text at the index |
| Inflection.MeishiNa | ime/convert.cpp:2715-2718 | the na-adjective reading before な reads the text at the index |
| Inflection.DoFukushi | ime/convert.cpp:2730-2777 | nothing unless the stem occurs at the index; otherwise every node reads the text at the index |
| Inflection.FukushiPlain | ime/convert.cpp:2750-2767 | the first node is the adverb itself without inflection, and a following と or に gives the node extended by it |
| Inflection.DirectNodes | ime/convert.cpp:2779-2881 | a plain class gives one node with the record's reading, conversion and class; a split auxiliary class gives one auxiliary node in its form; other classes give none |
| Inflection.VerbNodes | ime/convert.cpp:2858-2878 | the verb generators' nodes read the text at the index |
| Inflection.NominalNodes | ime/convert.cpp:2779-2881 | the noun, adverb and adjective generators' nodes read the text at the index |
| Inflection.DoFields | ime/convert.cpp:2779-2881 | nothing unless the stem occurs at the index; otherwise every node reads the text at the index |
| Inflection.DoFieldsDirect | ime/convert.cpp:2779-2881 | a record of a plain or split auxiliary class yields exactly its one direct node |
| Inflection.DoFieldsNoun | ime/convert.cpp:2779-2881 | a noun record runs the noun generator |
| Inflection.DoFieldsIgnoresOtherClasses | ime/convert.cpp:2779-2881 | an unknown class byte, or a class without a case, yields nothing |
| Candidates.FindConverted | ime/convert.cpp:793-817 | the first candidate with the given converted text, or none exactly when no candidate has it |
| Candidates.AddedKeepsDistinct | ime/convert.cpp:793-817 | add keeps at most one candidate per converted text |
| Candidates.AddedHolds | ime/convert.cpp:793-817 | after add, a candidate converts to the node's text at the lower of the old cost and the node's, or is the node itself when new |
| Candidates.AddedFrame | ime/convert.cpp:793-817 | add appends exactly one candidate for a new text and none otherwise, leaving the others unchanged |
| Candidates.InsertByCost | ime/convert.cpp:826-829 | insertion adds exactly the one candidate |
| Candidates.InsertSorted | ime/convert.cpp:826-829 | inserting into a list sorted by cost keeps it sorted |
| Candidates.SortByCost | ime/convert.cpp:826-829 | the result is sorted by cost and a permutation of the input |
| Candidates.SortKeepsLength | ime/convert.cpp:826-829 | sorting keeps the number of candidates |
| Candidates.ConvClause.constructor | ime/convert.cpp:793-829 | a clause starts without candidates |
| Candidates.ConvClause.Add | ime/convert.cpp:793-817 | the candidate list becomes the merged list |
| Candidates.ConvClause.Sort | ime/convert.cpp:826-829 | the candidates are sorted by cost and are a permutation of the old ones |
| Candidates.MinCost | ime/convert.cpp:832-858 | the minimum connection cost over the class pairs, or the starting bound when there is none |
| Candidates.MinCostUnique | ime/convert.cpp:832-858 | the minimum is unique |
| Candidates.MinConnectCost | ime/convert.cpp:840-848 | the two innermost loops compute the minimum connection cost |
| Candidates.Raised | ime/convert.cpp:832-858 | the first clause is unchanged and every clause keeps its length |
| Candidates.RaisedKeepsCandidates | ime/convert.cpp:832-858 | raising keeps every candidate's text and classes and adds the connection costs from the clause before |
| Candidates.ExtraCostBound | ime/convert.cpp:832-858 | each added cost is between 0 and 10 per candidate of the clause before |
| Candidates.RaiseBy | ime/convert.cpp:838-851 | each candidate gains the minimum connection cost from one candidate of the clause before |
| Candidates.RaiseClause | ime/convert.cpp:837-852 | the loop over the clause before raises every candidate by its connection costs |
| Candidates.RaiseClauses | ime/convert.cpp:834-853 | the loop over clause boundaries computes the raised clauses |
| Candidates.ConvResult.constructor | ime/convert.cpp:832-858 | a result starts without clauses |
| Candidates.ConvResult.Sort | ime/convert.cpp:832-858 | each clause is sorted by cost and is a permutation of its raised candidates |
| Candidates.ExtraCostOfClasses | ime/convert.cpp:832-858 | the costs from a clause depend only on its classes |
| Candidates.RaisedFromRaised | ime/convert.cpp:832-858 | raising from the already-raised clause before gives the same costs as from the original |
| ClauseEdit.ConcatAppend | ime/convert.cpp:3404-3566 | the joined text of two runs of clauses is the join of each |
| ClauseEdit.Spliced | ime/convert.cpp:3404-3483 | replacing two neighbouring clauses keeps the count, and filling a new clause after the last adds one |
| ClauseEdit.Joined | ime/convert.cpp:3536-3543 | joining two neighbouring clauses leaves one clause fewer |
| ClauseEdit.SplicedByUpdates | ime/convert.cpp:3404-3566 | the element assignments and insertions the stretch operations make are a splice |
| ClauseEdit.JoinedByErase | ime/convert.cpp:3536-3543 | erasing entry i + 1 and assigning entry i is a join |
| ClauseEdit.ConcatPair | ime/convert.cpp:3404-3566 | the joined text of one or two clauses |
| ClauseEdit.ConcatSlice | ime/convert.cpp:3404-3566 | the joined text of the one or two clauses from i on |
| ClauseEdit.ConcatAround | ime/convert.cpp:3404-3566 | the joined text of three runs is the join of each |
| ClauseEdit.SplicedKeepsText | ime/convert.cpp:3404-3566 | moving text across the boundary of two clauses keeps the whole reading |
| ClauseEdit.JoinedKeepsText | ime/convert.cpp:3536-3543 | joining two clauses into their concatenation keeps the whole reading |
| ClauseEdit.LeftStrings | ime/convert.cpp:3404-3430 | no strings for a clause of at most one character; otherwise the clause minus its last character and that character before the next clause, together the same text |
| ClauseEdit.RightStrings | ime/convert.cpp:3488-3506 | no strings at the last clause or before an empty one; otherwise the clause with one more character and the rest of the next, together the same text |
| ClauseEdit.Comp.constructor | comp_str.h:33-36 | the composition starts empty, with the cursor and the delta start at 0 and clause 0 current |
| ClauseEdit.StretchClauseLeft | ime/convert.cpp:3404-3483 | fails and changes nothing when the clause is too short or a conversion fails; otherwise splices the two clauses, their conversions and candidate lists, keeps the clause index and the whole reading |
| ClauseEdit.StretchClauseRight | ime/convert.cpp:3486-3566 | fails and changes nothing at the last clause, before an empty clause or when a conversion fails; otherwise moves one character left, joining the clauses when the next becomes empty, and keeps the whole reading |
| ClauseEdit.JoinMisalignsCandidateLists | ime/convert.cpp:3536-3555 | for any aligned clauses and lists, the join `StretchClauseRight` makes leaves one list more than clauses, and every clause after the joined one is shown the list of the clause before it |
| ClauseEdit.StretchClauseRightErasing | ime/convert.cpp:3486-3566 | with the joined clause's list erased too, clauses and candidate lists stay aligned |
| ClauseEdit.MapSeq | ime/convert.cpp:3734-3774 | the mapped sequence has one entry per input, each the function applied |
| ClauseEdit.MapSeqSnoc | ime/convert.cpp:3734-3774 | mapping a sequence grown by one appends one mapped entry |
| ClauseEdit.Firsts | ime/convert.cpp:3734-3774 | at most one first candidate per clause |
| ClauseEdit.FirstsSnoc | ime/convert.cpp:3734-3774 | one more clause adds its first candidate, if any, and its text |
| ClauseEdit.ClauseOffsets | ime/convert.cpp:3734-3774 | one offset per clause plus the end; a clause with a candidate starts at the length of the text before it; others keep the old value or 0 |
| ClauseEdit.FirstsTextPrefix | ime/convert.cpp:3734-3774 | the text of a prefix of the clauses is a prefix of the whole text |
| ClauseEdit.OffsetsDelimitClauses | ime/convert.cpp:3734-3774 | when every clause has a candidate, offsets start at 0 and each clause's text lies between its offset and the next |
| ClauseEdit.OffsetsSoFar | ime/convert.cpp:3734-3774 | the offsets after the loop has passed k clauses keep one entry per clause plus the end |
| ClauseEdit.OffsetsStep | ime/convert.cpp:3734-3774 | passing one more clause sets its offset to the text length so far when it has a candidate |
| ClauseEdit.ComposeClauses | ime/convert.cpp:3734-3774 | the loop yields the joined first conversions, the clause offsets, the readings and their typing strings |
| ClauseEdit.ComposeClause | ime/convert.cpp:3734-3774 | one pass of the loop extends the composition by clause k |
| ClauseEdit.ConversionsOf | ime/convert.cpp:3734-3774 | the candidate list of a clause is its conversions in order |
| ClauseEdit.StoreResult | ime/convert.cpp:3734-3774 | the composition string, offsets, readings and typings come from the first candidates; the cursor is at the end; every clause's candidate list is stored; clause 0 is current |
| ClauseEdit.CandidateLists | ime/convert.cpp:3734-3774 | the candidate lists are the conversions of every clause |
| UserDict.Record | ime/convert.cpp:628-638 | the stored record carries the reading, word, the class byte and row packed by MAKEWORD, and the user tag |
| UserDict.DropLast | ime/convert.cpp:537-639 | drops the last character exactly when it is the given one |
| UserDict.StopsOnShortReading | ime/convert.cpp:537-551 | the enumeration stops exactly at a reading of at most one character |
| UserDict.RecordClass | ime/convert.cpp:537-639 | a stored record is tagged as a user word and keeps the class byte, which decodes back to the class |
| UserDict.RecordTrimsReading | ime/convert.cpp:537-639 | a stored reading is the entry's reading with at most two final characters trimmed |
| UserDict.RecordTrimsWord | ime/convert.cpp:537-639 | a stored word is the entry's word with at most two final characters trimmed |
| UserDict.TrimsOf | ime/convert.cpp:537-639 | each cut the callback makes leaves off at most two characters |
| UserDict.ClassByteDecodes | ime/convert.cpp:537-639 | a style word naming a class keeps that class in its low byte |
| UserDict.GodanRecord | ime/convert.cpp:609-623 | a godan verb is recorded exactly when its reading ends in a u-column kana; the record drops it and carries its row |
| UserDict.SahenRecord | ime/convert.cpp:595-608 | する and ずる themselves are skipped; other suru-verbs drop the ending from reading and word, on its row |
| UserDict.KahenRecord | ime/convert.cpp:584-594 | the くる/来る ending is dropped only from a reading of at least three characters |
| UserDict.KahenShortWordThrows | ime/convert.cpp:585-588 | as written, a ku-verb with a one-character word reads past its end |
| UserDict.UserDictProcChecked | ime/convert.cpp:537-639 | with the word's length checked first, the callback never fails and agrees with the original wherever that does not fail |
| UserDict.ThrowsOnlyOnShortWord | ime/convert.cpp:537-639 | only a ku- or suru-verb entry with a one-character word makes the original fail |
| Jis.Wrap8 | ime/convert.cpp:3595-3620 | a byte sum or difference is cut to its value modulo 256 |
| Jis.TrailOfJisIsSjisTrail | ime/convert.cpp:3595-3620 | the second byte jis2sjis makes from JIS bytes is always a Shift_JIS trail byte, as written and corrected |
| Jis.Row5EAsWrittenIsNoSjis | ime/convert.cpp:3595-3620 | as written, JIS row 0x5E gets the first byte 0xDF, which is no lead byte, so its codes are dropped; the corrected version gives 0x9F |
| Jis.AsWrittenDiffersOnlyOnRow5E | ime/convert.cpp:3595-3620 | the code as written and the corrected one agree exactly on every first byte other than 0x5E |
| Jis.Sjis2Jis | ime/convert.cpp:3595-3620 | the inverse mapping takes a Shift_JIS code to JIS bytes |
| Jis.JisSjisRoundTrip | ime/convert.cpp:3595-3620 | every JIS code becomes a Shift_JIS code that maps back to it |
| Jis.SjisJisRoundTrip | ime/convert.cpp:3595-3620 | every Shift_JIS code with these lead bytes comes from a JIS code |
| Jis.KutenToJis | ime/convert.cpp:3637-3646 | any string not five characters long gives 0 |
| Jis.DecimalDigit | ime/convert.cpp:3637-3646 | the numeral of a digit reads back as that digit |
| Jis.KutenString | ime/convert.cpp:3637-3646 | the kuten notation of a row and a cell is five characters |
| Text.DigitRunOfDigits | ime/convert.cpp:3637-3646 | wcstoul reads a whole string of digits |
| Jis.WcstoulOfDigits | ime/convert.cpp:3637-3646 | wcstoul in base 10 reads up to three digits as their value |
| Jis.DigitsBound | ime/convert.cpp:3637-3646 | three digits are below 1000, so the WORD cast keeps them |
| Jis.ValueOfNumerals | ime/convert.cpp:3637-3646 | numerals of known digits spell their value |
| Jis.KutenFields | ime/convert.cpp:3637-3646 | the row and cell of the notation read back by wcstoul |
| Jis.DigitsOf | ime/convert.cpp:3637-3646 | a row and a cell are recovered from their decimal digits |
| Jis.KutenRoundTrip | ime/convert.cpp:3637-3646 | the notation of row and cell reads back as the JIS code (row + 32, cell + 32), a valid JIS code |
| Jis.ConvertCode | ime/convert.cpp:3649-3720 | between one and five candidates, all with the typed reading and distinct conversions, one of which is the typed text itself; their texts are exactly the code as a UTF-16 unit, as Shift_JIS when it is a Shift_JIS code, as JIS and as kuten notation when `jis2sjis` as written makes a Shift_JIS code of them, and the typed text |
| Jis.ConvertCodeIntended | ime/convert.cpp:3649-3720 | with the corrected `jis2sjis`, the same shape, and every valid JIS code is offered through its Shift_JIS form |
| Jis.ConvertCodeDiffersOnlyOnRow5E | ime/convert.cpp:3595-3720 | the conversion as written and the corrected one give the same candidates unless the code or the kuten code is in JIS row 0x5E |
| Jis.ConvertCodeWith | ime/convert.cpp:3649-3720 | for any `jis2sjis`, the candidates share the reading, are distinct, one to five, include the typed text, and convert to exactly the listed texts |
| Jis.AddedTexts | ime/convert.cpp:793-817 | add leaves the list converting to its old texts plus the node's |
| Jis.CodeNode | ime/convert.cpp:3651-3657 | the node's reading is the typed text |
| Jis.AddCode | ime/convert.cpp:3671-3681 | the cost rises by one exactly when the word is a Shift_JIS code |
| Jis.CodeCandidatesShape | ime/convert.cpp:3649-3712 | the code candidates share the typed reading, are at most four and convert to the listed texts apart from the typed text |
| Jis.CandidatesOfShape | ime/convert.cpp:3659-3712 | the unit, Shift_JIS, JIS and kuten steps keep one reading and distinct conversions, add at most four and add exactly the texts of the valid codes |
| Jis.AddStep | ime/convert.cpp:793-817 | add keeps the reading and distinct conversions and adds at most one candidate |
| Jis.AddCodeStep | ime/convert.cpp:3671-3712 | adding a code candidate keeps the reading, adds at most one, and adds its text exactly when the word is a Shift_JIS code |
| Postal.NormalizePostalCode | ime/postal.cpp:6-30 | the result is the normalised code of the half-width text: empty or exactly seven digits |
| Postal.PostalCodeShape | ime/postal.cpp:6-30 | a normalised code is empty or seven digits |
| Postal.ShortHyphenRejected | ime/postal.cpp:12-17 | a four-character string with a hyphen at index 3 is not a code |
| Postal.NonNumericRejected | ime/postal.cpp:12-17 | any non-digit outside the hyphen position gives no code |
| Postal.ShortFormsPadded | ime/postal.cpp:20-23 | three digits are padded with four zeros and five digits with two |
| Postal.NormalizeIdempotent | ime/postal.cpp:6-30 | normalising a normalised code gives it back |
| Postal.Uncommented | ime/postal.cpp:58-64 | a line without its comment holds no ';' |
| Postal.LineValue | ime/postal.cpp:57-78 | a value is given only by a line with a tab; it is non-empty, has no ';' and no blanks at its ends |
| Postal.FieldValue | ime/postal.cpp:66-78 | a value comes from the text after the tab, trimmed and non-empty |
| Postal.LineMatchesOneKey | ime/postal.cpp:77-78 | a line gives a value for at most one key |
| Postal.EntryLineRead | ime/postal.cpp:57-86 | a line made of a key, a tab, an address and a comment reads back as that address for that key |
| Postal.UncommentedEntry | ime/postal.cpp:58-64 | an entry followed by a comment reads as the entry |
| Postal.IndexOfAt | ime/postal.cpp:61-67 | strchr finds the first occurrence |
| Postal.EntryFields | ime/postal.cpp:66-78 | the fields of an entry are its key and its address |
| Postal.TrimPrefix | ime/postal.cpp:58-74 | trimming keeps a non-blank start whole |
| Postal.FirstSome | ime/postal.cpp:56-88 | the first present value of the lines, or none when no line gives one |
| Postal.FirstPresentBehind | ime/postal.cpp:56-88 | a line that gives nothing does not change the first value found |
| Postal.LineValues | ime/postal.cpp:56-88 | what each line gives for the code |
| Postal.PieceLength | ime/postal.cpp:55-56 | one `fgets` into the `MAX_PATH` buffer reads at least one and fewer than 260 characters, through the first newline and no further |
| Postal.FgetsLines | ime/postal.cpp:55-56 | the lines read are non-empty, shorter than the buffer, and joined give the whole file back |
| Postal.FgetsReadsShortLines | ime/postal.cpp:55-56 | a file of lines shorter than 259 characters is read line by line, each with its newline |
| Postal.LongLineSplit | ime/postal.cpp:55-56 | a line of 259 characters or more is split: its first 259 characters are read as a line of their own |
| Postal.ConvertPostalCode | ime/postal.cpp:33-100 | nothing when disabled, without a configured path or when the file does not open; otherwise the decoded value of the first line, as `fgets` reads the file, giving an address for the code, or nothing |
| Process.OnComposition | ime/process.cpp:141-311 | a composition key is taken exactly while the IME is open with a composition, and acts only when not a dry run |
| Process.DoProcessKey | ime/process.cpp:30-351 | whether a key is taken depends only on the key, the state and the context, never on the dry-run flag; a dry run acts on nothing and an untaken key does nothing |
| Process.DryRunPredicts | ime/process.cpp:30-351 | the dry run and the real run take the same keys |
| Process.DigitSelectsCandidate | ime/process.cpp:330-340 | while candidates are shown, a typed digit 1-9 selects the candidate it names instead of being composed |
| Process.KanaKeyTargets | ime/process.cpp:115-140 | the kana key switches only to full-width katakana with Shift or hiragana without, and from exactly the modes listed |
| Process.PageDownPagesUp | ime/process.cpp:279-296 | Page Down pages up, as Page Up does, and no key pages down |
| Process.ImeProcessKey | ime/process.cpp:353-370 | taken exactly when the context locks and the dry run takes the key, bit 31 of the key data marking a key-up |
| Process.Filled | ime/main.cpp:322-338 | message k lands in slot k while k + 1 is below the announced count; the rest leave the buffer as it was |
| Process.ImeToAsciiEx | ime/process.cpp:372-404 | the buffer is lent and its count reset; the key is processed for real when the context locks; the count of generated messages is returned, the overflow flag is set when they do not fit, and the buffer stays lent when the context does not lock |
| ImeMain.TransMsgList.constructor | ime/process.cpp:372-380 | a translation buffer of n announced slots |
| ImeMain.MzIme.constructor | ime/main.cpp:70-83 | the IME starts with no lent buffer, no generated messages and no overflow |
| ImeMain.MzIme.GenerateMessageToTransKey | ime/main.cpp:322-338 | the count goes up on every call; a message that does not fit below the announced count flags the overflow and writes nothing, otherwise it goes to the next slot |
| ImeMain.MzIme.GenerateMessage | ime/main.cpp:286-308 | with a lent buffer the message goes there; otherwise it is appended to the context's messages when the context is ready, and the result is whether it was generated |
| ImeMain.MzIme.DoCommand | ime/main.cpp:341-388 | a known command succeeds and an unknown one fails; notification commands generate one message and the others hand back their effect without generating any |
| ImeMain.ModeCommand | ime/main.cpp:341-388 | every input mode except disabled has its menu command |
| ImeMain.CommandEffect | ime/main.cpp:341-388 | no effect exactly for an unknown command; mode commands set their own mode; notifications carry 0xDEAD or 0xFACE |
| ImeMain.ModeCommandSetsMode | ime/main.cpp:341-388 | every mode command sets its own mode |
| ImeMain.ClampStart | ime/main.cpp:37-63 | the start is at least the lower edge, the far edge within the upper one when the extent fits, and a start already inside is kept |
| ImeMain.RepositionWindow | ime/main.cpp:37-63 | the window keeps its size and is clamped into the work area along each axis |
| ImeMain.RepositionedInside | ime/main.cpp:37-63 | a window no larger than the work area ends inside it |
| ImeMain.WordCostsOf | ime/main.cpp:579-687 | the walk starts with one word cost per node |
| ImeMain.MaxIsMax | ime/main.cpp:590-667 | the best score is one of the scores and no score is larger |
| ImeMain.PairScores | ime/main.cpp:616-665 | one score per branch of the second node, each the pair score |
| ImeMain.BestPairLenIsMax | ime/main.cpp:616-665 | the best pair score is attained by some pair and no pair scores more |
| ImeMain.BestPairLenSnoc | ime/main.cpp:616-665 | one more branch raises the best pair score to the larger of the two |
| ImeMain.Lower | ime/main.cpp:590-667 | lowering a node's word cost changes that node's cost and no other |
| ImeMain.ScanBranch | ime/main.cpp:591-666 | one branch pass raises the best score to that branch's score when larger and then picks that branch |
| ImeMain.ChooseBranch | ime/main.cpp:590-667 | the chosen branch has the best score, or is 0 when there are none; no later branch with branches of its own ties with it and reads longer, the tie-break on equal pair scores |
| ImeMain.ClausesAlongSingle | ime/main.cpp:674-679 | every clause of the walk holds one candidate with a non-empty reading |
| ImeMain.GreedyWalkSnoc | ime/main.cpp:588-683 | one more best-score step extends a greedy walk |
| ImeMain.ClausesAlongSnoc | ime/main.cpp:674-679 | one more node adds its clause when its reading is non-empty |
| ImeMain.GreedyStep | ime/main.cpp:588-683 | one greedy step extends both the walk and its clauses |
| ImeMain.GreedyClauses | ime/main.cpp:579-685 | the clauses are those of a greedy walk from the head, taking at each step the branch the branch loop picks with its tie-break, that ends at the tail or at a node without branches |
| ImeMain.MakeResultForMulti | ime/main.cpp:579-687 | the result is the clauses of the greedy walk, tie-break included, each sorted by cost and a permutation of its raised candidates |
| KeyChar.KanaKeyLayout | keychar.cpp:1163-1214 | a key gives a kana with or without Shift exactly when it is one of the listed keys (0 otherwise), and Shift changes the kana exactly for E, Z, 0, 3-9, OEM_2, OEM_4, OEM_6, comma and period |
| KeyChar.ClassesAsRanges | keychar.cpp:1216-1247 | the hiragana, full-width katakana and half-width katakana classifiers are exactly the stated code point ranges |
| KeyChar.SharedKanaMarks | keychar.cpp:1216-1237 | a character is both hiragana and full-width katakana exactly for the voicing marks 0x3099-0x309C and the long vowel 0x30FC |
| KeyChar.HankakuInsideFullwidth | keychar.cpp:1239-1259 | every half-width katakana is inside the full-width-ASCII range, and a kanji is in none of the kana or full-width classes |
| KeyChar.Forward | keychar.cpp:1152-1161 | a table read as key-to-value rewriting rules, entry by entry in table order |
| KeyChar.Backward | keychar.cpp:1138-1150 | a table read as value-to-key rewriting rules, entry by entry in table order |
| KeyChar.RewriteAppend | keychar.cpp:1138-1161 | applying a list of replace-all rules in two parts is the same as applying it at once, so each converter is its table passes in sequence |
| KeyChar.RewriteAvoiding | keychar.cpp:1138-1161 | a string containing no first character of any rule key comes out of the replace-all passes unchanged |
| KeyChar.ApplyRules | keychar.cpp:1138-1161 | the loop of replace-all calls equals the rules applied one after another in order |
| KeyChar.RomajiToHiragana | keychar.cpp:1152-1161 | the sokuon table applied key-to-value in table order, then the romaji table the same way |
| KeyChar.HiraganaToRomaji | keychar.cpp:1138-1150 | the sokuon table value-to-key, then the reverse table key-to-value, then the romaji table value-to-key, each in table order |
| KeyChar.Inserted | keychar.cpp:1261-1263 | inserting one character at a position keeps the text before it and shifts the text after it by one |
| KeyChar.KeyEndingAt | keychar.cpp:1265-1285 | the first table entry, in table order, whose key ends exactly at the cursor, or none when no key does |
| KeyChar.ReplaceKeyAt | keychar.cpp:1265-1285 | a table pass reports a replacement exactly when some key ends at the cursor, and then replaces the first such key by its value |
| KeyChar.AddRomajiCharIntended | keychar.cpp:1261-1286 | with the table index the code means: the character is inserted, the cursor advances by one, and the first sokuon key, else the first romaji key, ending at the cursor is replaced by its own entry's value |
| KeyChar.ReplaceFirstKeyShadowed | keychar.cpp:1265-1285 | as written, a table pass makes a replacement exactly when the intended pass does |
| KeyChar.ReplaceKeyAtShadowed | keychar.cpp:1265-1285 | one table pass as written: found exactly when a key ends at the cursor, and then the key is replaced by the value at the key's position in the text |
| KeyChar.AddRomajiChar | keychar.cpp:1261-1286 | as written: the character is inserted at the cursor and the cursor advances by exactly one; then the first sokuon key, else the first romaji key, ending at the cursor is replaced by the value of the entry whose index is the key's position in the text (read past the table's end through a parameter) |
| KeyChar.RomajiTypedShape | keychar.cpp:1261-1286 | with no key ending at the cursor the result is the plain insertion, and the text after the old cursor is always kept as the tail |
| KeyChar.KeepsTail | keychar.cpp:1265-1285 | a key replacement never changes the text after the cursor |
| KeyChar.SokuonHead | keychar.cpp:1265-1272 | the first two sokuon entries are zzyu and zzyo, whose values differ |
| KeyChar.SokuonKeyOfAzzyu | keychar.cpp:1265-1272 | in "azzyu" with the cursor at 5 the matching sokuon entry is entry 0 |
| KeyChar.ShadowedIndexMisreplaces | keychar.cpp:1268-1270 | as written, typing u after "azzy" replaces with the value of the entry indexed by the position (1), giving "aっじょ", where the intended result is "aっじゅ" |
| KeyChar.ShadowedAgreesAtOwnIndex | keychar.cpp:1268-1270 | the pass as written and as meant agree whenever the matched entry's index equals its position, and otherwise differ only in the value inserted |
| KeyChar.AddAsciiChar | keychar.cpp:1316-1319 | one character is inserted at the cursor and the cursor advances by one; nothing else changes |
| KeyChar.KanaInserted | keychar.cpp:1288-1314 | exactly one character is inserted at the cursor; it is the typed character unless it is of the other kana class, in which case it is the mapped one |
| CompStrLog.ToChar | comp_str.h:21-29 | storing a count in a one-byte clause entry keeps it modulo 256, and a count below 0x80 is kept exactly |
| CompStrLog.ToDword | input_context.cpp:667-675 | reading a clause byte back as a DWORD sign-extends it: the value is below 2^32, congruent to the byte, and equal to it when the byte is not negative |
| CompStrLog.ClauseOffsetReadBack | input_context.cpp:186-193 | a clause end below 0x80 reads back as itself; one from 0x80 to 0xFF reads back 2^32 - 256 higher |
| CompStrLog.NewLogCompStr | comp_str.h:18-36 | a new logical composition string has the cursor and delta start at 0 and every string empty |
| CompStrLog.Resized | input_context.cpp:183-184 | resizing keeps the existing prefix and pads with the fill value up to exactly the new length |
| CompStrLog.OneClause | input_context.cpp:186-193 | the clause list of a composition that is one clause is the two entries 0 and the length as stored in a byte |
| CompStrLog.SetClause | comp_str.h:38-41 | writes 0 and then the count into two consecutive DWORDs and nothing else |
| InputCtx.GetCands | input_context.cpp:201-215 | with candidates, the selection advances by one and wraps to 0 after the last; with none, the three fixed test candidates are installed with selection 0; the returned string is the selected candidate |
| InputCtx.GetCandsClimb | input_context.cpp:201-215 | k calls that stay inside the list advance the selection by exactly k and keep the list |
| InputCtx.GetCandsTimesAdd | input_context.cpp:201-215 | a run of calls splits into any two consecutive runs |
| InputCtx.GetCandsWraps | input_context.cpp:204-207 | a call on the last candidate moves the selection back to the first |
| InputCtx.GetCandsCycles | input_context.cpp:201-215 | as many calls as there are candidates bring the list back to where it started |
| InputCtx.WithText | input_context.cpp:181-193 | after an edit, the reading equals the text, both attribute strings have the text's length (new positions marked as input), both clause lists are 0 and the byte-stored length, and the result part is untouched |
| InputCtx.LongCompositionClauseEnd | input_context.cpp:186-193 | with 128 to 255 characters, the clause end read back as a DWORD is 2^32 - 256 more than the length |
| InputCtx.FirstNotBelow | input_context.cpp:666-676 | the first clause entry at or after the start that is not below the cursor, every entry before it being below |
| InputCtx.LastNotAbove | input_context.cpp:713-722 | the last clause entry not above the cursor, every later one being above, or none when all are above |
| InputCtx.ScanLeft | input_context.cpp:664-678 | the clause loop of MoveLeft stops at the specified left stop |
| InputCtx.ScanRight | input_context.cpp:711-724 | the clause loop of MoveRight stops at the specified right stop |
| InputCtx.LeftStopIsPreviousBoundary | input_context.cpp:664-678 | on well-formed clause boundaries, from inside the composition the cursor moves to the greatest boundary below it, and from 0 it wraps to the start of the last clause |
| InputCtx.LeftStopPastEnd | input_context.cpp:666-678 | when every boundary is below the cursor the loop runs off the clause string and reads its terminating zero, so the cursor goes to 0 |
| InputCtx.RightStopIsNextBoundary | input_context.cpp:711-724 | on well-formed boundaries the cursor moves to the least boundary above it, and from the end it wraps to 0 |
| InputCtx.InputContext.constructor | input_context.cpp:8-23 | a context starts with an empty composition, no candidates and the given conversion mode |
| InputCtx.InputContext.AddChar | input_context.cpp:143-199 | the cursor is first clamped to the composition; the character is typed as romaji (as `add_romaji_char` is written), as kana or as it is by the conversion mode; the cursor advances by one and the reading, attributes and clauses are brought in step; candidates and modes are unchanged |
| InputCtx.InputContext.MakeResult | input_context.cpp:285-326 | the composition becomes the result (text, reading and both clause lists), the composition is cleared and the candidate list closed |
| InputCtx.InputContext.CancelText | input_context.cpp:528-544 | the composition is replaced by an empty one and the candidate list is closed |
| InputCtx.InputContext.RevertText | input_context.cpp:546-584 | candidates are closed; with a composition, its text goes back to the reading as one input clause with the cursor at the end and delta start 0; without one, nothing else changes |
| InputCtx.InputContext.DeleteChar | input_context.cpp:586-650 | Backspace at 0 and Delete at the end do nothing; otherwise the text is cut at the cursor (everything after it goes) with the cursor and delta start set as the code does, the reading follows, and candidates close when the text becomes empty; the text never grows |
| InputCtx.InputContext.MoveLeft | input_context.cpp:652-697 | while converting the cursor jumps to the clause left stop; otherwise it moves back by one unless at 0; nothing else changes |
| InputCtx.InputContext.MoveRight | input_context.cpp:699-743 | while converting the cursor jumps to the clause right stop; otherwise it moves on by one unless at the end; nothing else changes |
| InputCtx.InputContext.MoveToBeginning | input_context.cpp:745-765 | only the cursor changes, to 0 |
| InputCtx.InputContext.MoveToEnd | input_context.cpp:767-787 | only the cursor changes, to the composition's length |
| Dic.RunLength | dic.cpp:524-526 | the length of the leading run of non-separator characters, stopping at the first space, CR, LF or tab |
| Dic.Tokens | dic.cpp:526-550 | the successive wcstok tokens of the dictionary text, none of which contains a separator |
| Dic.TokensOfJoined | dic.cpp:526-550 | tokenising separator-free words joined by spaces gives back exactly those words |
| Dic.RunLengthOfToken | dic.cpp:526-550 | a token followed by a separator or the end is read as exactly that token |
| Dic.CutAt | dic.cpp:530-531 | the prefix before the first occurrence of the character (the whole string when it is absent), which does not contain it |
| Dic.FindHeader | dic.cpp:526-538 | the first token from the start position that is a section header whose name equals the reading, or none when no such header exists |
| Dic.Group | dic.cpp:542-551 | the values after a header, up to the next header or the end |
| Dic.GroupShape | dic.cpp:542-551 | each value of the group is its token cut at the first `=`, none of those tokens is a header, and the group stops at a header |
| Dic.Packed | dic.cpp:546-549 | the values written one after another, each followed by a NUL; non-empty for a non-empty list |
| Dic.PackedAppend | dic.cpp:540-551 | packing two lists in turn is packing their concatenation |
| Dic.UnpackPacked | dic.cpp:103-108 | non-empty, NUL-free values packed and terminated by a second NUL are read back as exactly those values |
| Dic.UnpackStep | dic.cpp:103-108 | walking the double-NUL list takes one value and moves past its NUL |
| Dic.IndexOfAfter | dic.cpp:103-108 | the walk finds the NUL right after a NUL-free value |
| Dic.EmptyCandidateEndsList | dic.cpp:103-108 | an empty value in the packed list reads as the terminator, so the values after it are lost |
| Dic.CopyN | dic.cpp:546 | lstrcpyn copies at most n - 1 characters and always a NUL after them, writing nothing else |
| Dic.Append | dic.cpp:546-549 | a value that fits is written at the position, followed by its NUL, and nothing past it changes |
| Dic.PackGroup | dic.cpp:539-555 | the copy loop writes the packed group and its final NUL, and returns that count including the final NUL |
| Dic.PackedCons | dic.cpp:546-549 | packing a list with a first value is that value, its NUL, then the packed rest |
| Dic.PackedSnoc | dic.cpp:546-549 | packing a list with a last value adds that value and its NUL at the end |
| Dic.CopyCandidateStringsFromDictionary | dic.cpp:520-557 | with no section for the reading (or nothing after its header) returns 0 and writes nothing; otherwise writes the section's values, packed and double-NUL terminated, and returns the written count |
| Dic.SetComp | dic.cpp:142-164 | the chosen string becomes the composition, converted, with the cursor at 0, the candidate list unchanged |
| Dic.FirstOther | dic.cpp:140-177 | the first dictionary value different from the composition, or none when all equal it |
| Dic.Paged | dic.cpp:198-214 | the list takes the values, the page size is their number capped at the page maximum, the selection moves to the next value and wraps to 0 (with the page start) after the last, and otherwise the page start stays or moves by one |
| Dic.ConvKanji | dic.cpp:65-229 | too many values changes nothing and fails; no values only marks the text converted and fails; unconverted text takes the first value different from it (failing when there is none); converted text pages the candidate list and shows its selected value |
| Dic.PagedCycles | dic.cpp:207-210 | the selection advances cyclically through the values, and the page size never exceeds the page maximum |
| Imm.ImeEscape | imm.cpp:52-81 | the support query answers TRUE only for the query itself and the help-file request; the help-file request returns TRUE and writes "mzimeja.hlp"; any other subfunction returns FALSE |
| Imm.EscapeQueryIsTruthful | imm.cpp:56-78 | the support query answers TRUE for a subfunction exactly when that subfunction itself returns TRUE |
| Imm.NotifyCandidate | imm.cpp:189-254 | every candidate notification fails and changes nothing unless it is for list 1 of a context with candidates; selection and page start are set only to a value below the count; page size is set to any value; a change of list succeeds and changes nothing |
| Imm.NotifyKeepsInRange | imm.cpp:189-254 | no candidate notification takes the selection or page start outside the list or changes the count |
| Imm.ImeGetImeMenuItems | imm.cpp:327-437 | without an output array, the item count for the top right-click menu and 0 otherwise; with one, the fourteen items are written for that menu (type, check state, command, caption) and nothing else is written |
| Imm.OneInputMethodChecked | imm.cpp:405-417 | exactly one of the roman-input and kana-input items is checked |
| Imm.CheckedModeIsCurrent | imm.cpp:375-404 | a mode item is checked exactly when it is the current mode, so no two mode items are checked |
| Imm.SeparatorsAreBlank | imm.cpp:372-429 | the separator entries have the separator type, no check and an empty string |
| ImePadData.RowsAppend | imepad/imepad.cpp:448-462 | reading two runs of lines in turn gives the rows of both in order, so the table is built line by line |
| ImePadData.RowOfOneLine | imepad/imepad.cpp:449-460 | a comment line (starting with `;`) adds no row; any other line adds exactly its parsed row |
| ImePadData.RowsStep | imepad/imepad.cpp:448-462 | one more line read adds its row to the end of the table unless it is a comment |
| ImePadData.IndexSnoc | imepad/imepad.cpp:461 | indexing one more entry appends its value to the list under its key |
| ImePadData.IndexLists | imepad/imepad.cpp:461-516 | the list under any key is the list it had before followed by the values of the entries with that key, in table order |
| ImePadData.IndexKeys | imepad/imepad.cpp:461-516 | a key is present after indexing exactly when it was present before or some entry has it |
| ImePadData.IdMapLastWins | imepad/imepad.cpp:498 | a radical id maps to the second id of its last entry in the table |
| ImePadData.IdMapKeepsOthers | imepad/imepad.cpp:498 | ids no entry mentions keep their previous mapping, and no new id appears |
| ImePadData.ReadKanjiLine | imepad/imepad.cpp:450-459 | a kanji line's tab-separated fields give the id, the character, the second radical id, the strokes and the readings, as `ParseKanji` reads them; `KanjiLineRead` shows that reading inverts the written line |
| ImePadData.ReadRadicalLine | imepad/imepad.cpp:487-495 | a radical line's fields give the id, the second id, the strokes (fourth field) and the readings, as `ParseRadical` reads them; `RadicalLineRead` shows that reading inverts the written line |
| ImePadData.LineFields | imepad/imepad.cpp:450-453 | a line of fields without tabs or line breaks, joined by tabs and ended by CR LF, trims and splits back into exactly those fields |
| ImePadData.KanjiLineRead | imepad/imepad.cpp:450-459 | a kanji line written as id, kanji, second radical id, strokes and readings, with decimal numbers below 0x10000, is read back as exactly that entry |
| ImePadData.RadicalLineRead | imepad/imepad.cpp:487-494 | a radical line written as id, second id, any third field, strokes and readings is read back as exactly that entry, whatever the third field holds |
| ImePadData.NumeralValue | imepad/imepad.cpp:454 | `_wtoi` cut to a `WORD` reads a decimal numeral below 0x10000 as its value |
| Text.WtoiOfDigits | imepad/imepad.cpp:454 | `_wtoi` reads a string of decimal digits that fits an `int` as its value |
| Text.TrimRightOf | imepad/imepad.cpp:451 | trimming CR and LF removes exactly the trailing break and keeps a break-free line whole |
| ImePadData.ConsSorted | imepad/imepad.cpp:231-234 | an entry with no more strokes than the head of a sorted table keeps it sorted |
| ImePadData.InsertByStrokes | imepad/imepad.cpp:231-234 | inserting into a table sorted by strokes keeps it sorted and adds exactly that entry |
| ImePadData.SortByStrokes | imepad/imepad.cpp:517-518 | the radical table ordered by strokes is sorted and a permutation of the original |
| ImePadData.ListMatching | imepad/imepad.cpp:829-839 | the items listed are exactly the table entries whose key equals the wanted value, in table order, each with its own index and readings |
| ImePadData.ImePad.constructor | imepad/imepad.cpp:93-98 | the pad starts with every table and map empty |
| ImePadData.ImePad.LoadKanjiData | imepad/imepad.cpp:433-468 | an already loaded table is kept and succeeds; otherwise a missing file fails and changes nothing, and a present one fills the table with its non-comment rows and the stroke map with their ids; the radical data is untouched |
| ImePadData.ImePad.LoadRadicalData | imepad/imepad.cpp:470-505 | the same for the radical table, filling the stroke map and mapping each radical id to its second id; the kanji data is untouched |
| ImePadData.ImePad.LoadKanjiAndRadical | imepad/imepad.cpp:507-523 | succeeds exactly when both loads succeed, the radical load being skipped when the kanji load fails; on success with an empty radical-to-kanji map, the map indexes the kanji by second radical id and the radical table is sorted by strokes as a permutation of what was loaded |
| ImePadData.ImePad.OnLB1StrokesChanged | imepad/imepad.cpp:810-841 | with no selection nothing is listed; otherwise exactly the kanji with the selected stroke count are listed in table order |
| ImePadData.ImePad.OnLB2StrokesChanged | imepad/imepad.cpp:843-872 | with no selection nothing is listed; otherwise exactly the kanji whose second radical id is the selected radical's are listed in table order |
| ImeSetup.CountReadable | ime_setup/ime_setup.cpp:421-431 | the number of leading values that can be read: all before it are readable and the one at it is not |
| ImeSetup.ReadCount | ime_setup/ime_setup.cpp:421-431 | the read loop takes at most 128 values, every one of them readable, and stops early only at a value it cannot read |
| ImeSetup.ReadPreload | ime_setup/ime_setup.cpp:417-434 | a fresh 128-slot array holding the parsed values of the slots the loop read and zero everywhere else |
| ImeSetup.FirstZero | ime_setup/ime_setup.cpp:437-448 | the position where the zero-terminated scans stop: a zero with no zero before it |
| ImeSetup.Without | ime_setup/ime_setup.cpp:447-453 | removing a layout never lengthens the list |
| ImeSetup.WithoutAppend | ime_setup/ime_setup.cpp:447-453 | removal works piece by piece, so the kept layouts stay in their order |
| ImeSetup.WithoutCounts | ime_setup/ime_setup.cpp:447-453 | no copy of the removed layout is left, and every other layout is kept as many times as it occurred |
| ImeSetup.WithoutAbsent | ime_setup/ime_setup.cpp:447-453 | a list without the layout is left exactly as it is |
| ImeSetup.RemoveLayout | ime_setup/ime_setup.cpp:447-454 | the two-index loop leaves, before a new zero terminator, the entries up to the old terminator without the layout, and writes nothing past the new terminator |
| ImeSetup.ReadLayouts | ime_setup/ime_setup.cpp:421-437 | the layouts read, up to the first zero: each is the parsed value of its slot and none is zero |
| ImeSetup.UnsetPreload | ime_setup/ime_setup.cpp:405-470 | the Preload list written back is the layouts read, without the IME's own layout |
| ImeSetup.Compact | ime_setup/ime_setup.cpp:417-454 | for any parse of the values, the read loop followed by the compaction gives the layouts read without the removed one |
| ImeSetup.DoMain | ime_setup/ime_setup.cpp:625-662 | with exactly one argument, "/i" installs and "/u" uninstalls (case-insensitively) returning that step's result, and anything else does nothing; otherwise the dialog's choice decides and the exit code is 0 |
| ImeSetup.OptionsIgnoreCase | ime_setup/ime_setup.cpp:627-634 | "/I" installs, "/U" uninstalls, and an unknown option does nothing and returns 0 |

## Left out

- The vibrato analyser itself (`Dictionary::read`, `Tokenizer`, `Worker::tokenize`) is an external crate, so it is a parameter (`Segmenter`, `open`, `read`). The thread-safety of the bridge is not modelled: the model has no concurrency.
- `Dict::Load`, `Unload`, `Lock`, `Unlock` and `GetSize` are not modelled. They are a named mutex, file mapping and `MapViewOfFile`, so they are concurrency and I/O. The dictionary contents are a string parameter.
- `lcmap`, `LCMapStringW`, `MultiByteToWideChar` and `WideCharToMultiByte` are parameters (`toUtf8`, `decode`, `fromSjis`, `mapped`). This includes the final decode in `ConvertCode` and the UTF-8 helpers of `ime/vibrato_engine.cpp`.
- `zenkaku_to_hankaku`, `hankaku_to_zenkaku` and the hiragana/katakana converters (keychar.cpp:1061-1136) are not modelled, because they are built on `LCMapStringW`. The `MakeResultOn*` lcmap variants of `ime/main.cpp` are left out for the same reason.
- `Lattice::AddExtra` is not modelled, because it depends on the clock, the user name and resource strings.
- `ScanUserDict` is not modelled, because it enumerates through `ImeEnumRegisterWord`. Its per-word callback is modelled as `UserDict`.
- `ScanBasicDict` is not modelled, because it reads the live dictionary buffer.
- The Windows UI is not modelled. This covers the candidate and guide windows, the ImePad window procedures, drawing, image lists, fonts and timers, and `MySendInput`. Only the decisions and tables behind them are kept.
- The registry, file copy and process plumbing of the setup program are not modelled: `OpenRegKey`, `MyDeleteRegKey`, `DoSetRegistry*`, `DoCopyFiles`, `ShellExecute` and the WoW64 relaunch. The Preload values are a parameter.
- `DoUnsetRegistry1` formats each layout with `%08X` and stops its delete and write loops on the first registry error. These are not modelled; the model yields the list of layouts that is written back.
- The IMM buffer plumbing is not modelled: `ImmLockIMCC`, `ImmReSizeIMCC`, `CompStr::ReCreate`, `ImmGenerateMessage` and `MakeGuideLine`. The model keeps only the `LogCompStr` values they carry.
- The composition attributes rebuilt by `UpdateFromExtra` and `SetClauseAttr` are not modelled. Nor is the attribute string built by `StoreResult`; only its clause offsets are.
- `ClauseEdit.StretchClauseLeft` says nothing of the composition string, its clause offsets, the typing clauses or the cursor. `UpdateFromExtra` rebuilds them, and it is not part of this model.
- `ClauseEdit.StretchClauseRight` says nothing of the same four, for the same reason.
- The input mode derived from the conversion mode, and whether a context is being converted, are parameters. comp_str.cpp is not part of this model.
- The third column (`extra`) of the romaji tables is kept as `RomajiTables.Entry.extra` but read by no code.
- `unboost`, `mz_vkey_to_hiragana` and `mz_typing_key_to_char` are not part of this model.
- `MAXCANDSTRNUM` and `MAXCANDPAGESIZE` are the parameters `maxNum` and `pageMax`.
- Resource strings are the parameter `caption`.
- `lstrcmp` is modelled as equality.
- Text is a sequence of Unicode scalar values, while the source's `std::wstring` holds UTF-16 units. The two agree inside the Basic Multilingual Plane. Only the tokenizer engine's chunk count is modelled in UTF-16 units (`Text.Utf16Length`); everywhere else, positions count characters.
- `VibratoEngine.Engine.AnalyzeToLattice` does not model `lattice.Fix(text)`. `Lattice::Fix` is declared in ime/mzimeja.h:479 but defined nowhere in the source.
- `VibratoEngine.Engine.AnalyzeToLattice` takes `Lattice::AddNode` to append the node to the chunk at its start. `AddNode` is declared in ime/mzimeja.h:480 but defined nowhere in the source.
- `LatticeNode()` (ime/mzimeja.h:427-434) leaves the inflection form and the row uninitialised. Where no generator sets them, the model uses stand-ins: `KATSUYOU_NONE` for the form and `Inflection.UNSET_GYOU` (that is, `DAN_NO_GYOU`) for the row. The connection rules never read the row. For the form, see Findings. The declarations of `KatsuyouKei` and `Gyou` are not part of this model.
- `lstrcmpiW` case folding is modelled for ASCII letters only, which are all the setup options use.
- A Preload value too long for the 32-character buffer makes the registry query fail. The model treats such a value as one that cannot be read.
- The IME pad reads its data files as lines already decoded from UTF-8. Lines longer than the 256-byte `fgets` buffer are not modelled.
- The test programs of the repository are not part of this model. Their expected strings depend on dictionary data outside the code.
- `Dic.CopyCandidateStringsFromDictionary` requires the packed candidates to fit in the output buffer. When they do not, the source truncates with `lstrcpyn` but advances by the untruncated length, and that path is not modelled.
- `Dic.ConvKanji` requires the selection to lie in the candidate list when it is used.
- `ImeSetup.UnsetPreload` requires fewer than 128 readable Preload values. With all 128 present, the zero-terminated scans run past the end of the array.
- `ImeSetup.Compact` has the same requirement of fewer than 128 readable Preload values.
- `ImePadData.ImePad.LoadKanjiData` requires every data line that is not a comment to have at least five tab-separated fields, because the source indexes them without a check.
- `ImePadData.ImePad.LoadRadicalData` requires every data line that is not a comment to have at least five fields.
- `ImePadData.ImePad.LoadKanjiAndRadical` requires every data line of both files to have at least five fields.
- `LatticeGraph.Lattice.AddFields` requires a non-empty reading. It also takes the inflection generator as a parameter that must be sound. `LatticeGraph.DoFieldsSound` proves that the source's generator is sound.
- `LatticeGraph.Lattice.UpdateLinks` requires a non-empty text, as the source asserts.
- `LatticeGraph.Lattice.GetLastLinkedIndex` requires a node in the final chunk, because the source reads its first element.
- `VibratoBridge.Allocator.Tokenize` requires the two out-pointers to be distinct.
- `VibratoBridge.Allocator.FreeTokens` requires the count passed to be the length of the array, as the C contract of the call demands.
- `Imm.ImeGetImeMenuItems` requires an output array that can hold the fourteen items when it writes them.
- `ClauseEdit.StretchClauseLeft` requires the clause lists to be aligned and the current clause to exist.
- `ClauseEdit.StretchClauseRight` has the same requirement.
- `UserDict.UserDictProcChecked` requires a non-empty reading and word, as the source asserts.

## Findings

| source | as written | input that shows it | evidently intended | confidence | as-written member | corrected member |
|---|---|---|---|---|---|---|
| ime/convert.cpp:3595-3620 | `jis2sjis` gives JIS row byte 0x5E the lead byte 0xDF, which is not a Shift_JIS lead byte, so `ConvertCode` drops the code | JIS code 0x5E21 | lead byte 0x9F, the Shift_JIS form of row 62 | not executed | Jis.Row5EAsWrittenIsNoSjis | Jis.ConvertCodeIntended |
| ime/convert.cpp:583-592 | for a kahen verb whose reading has three or more characters and ends in くる, the last two characters of the word are read with `substr(size() - 2, 2)`, which throws `out_of_range` when the word has one character | reading あくる, word 来, kahen class | the word is checked to be long enough first, so it simply does not end in 来る | not executed | UserDict.KahenShortWordThrows | UserDict.UserDictProcChecked |
| ime/convert.cpp:3536-3555 | when stretching right joins the next clause into the current one, the next clause is erased but its candidate list is not, so every later clause is shown the list of the clause before it | clauses か and な with lists 可 and 名, stretched right from the first: one clause かな is left with two lists | the candidate list of the joined clause is erased too | not executed | ClauseEdit.JoinMisalignsCandidateLists | ClauseEdit.StretchClauseRightErasing |
| keychar.cpp:1268-1270 | the inner `i` (the match position) shadows the table index, so the replacement is taken from the table entry at that position; this affects every match whose table index differs from its position in the text | typing "u" after "azzy" with the cursor at 4 gives "aっじょ" | the replacement of the entry that matched, "aっじゅ" | not executed | KeyChar.ShadowedIndexMisreplaces | KeyChar.AddRomajiCharIntended |
| ime/vibrato_engine.cpp:90-116 | the chunks are counted in UTF-16 units (`text.size()`), but each token is placed at its start as the analyser gives it, in characters, so after a character outside the Basic Multilingual Plane every later token lands one unit early | 𠮷か tokenized as 𠮷 and か: か is placed in chunk 1, the low surrogate of 𠮷 | each token placed at the unit where its first character begins | not executed | VibratoEngine.NonBmpTokenMisplaced | VibratoEngine.ChunksIntended |
| ime/convert.cpp:1611-1657 | the 高く, 高くて, 広う and 美しゅう nodes never get an inflection form, and `LatticeNode()` leaves it uninitialised, so `IsNodeConnectable` reads an indeterminate value for them | an adjective stem followed by く, before an auxiliary without the imperfective-link tag: the node connects or not depending on what the memory held | the ku form carries the continuative form | not executed | Inflection.KuFormLeftUnset | Inflection.IkeiKuIntended |
