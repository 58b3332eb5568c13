# A verified model of the trading client's text, stream and session logic

This project models, in Dafny, the self-contained algorithms of the trading agent's client and scripts, and proves what they keep.

| module | what it models |
|---|---|
| `Characters` | character files that extend other character files: merging and loading |
| `MarkdownBlocks`, `BlockTexts`, `TextWrap`, `TableColumns`, `TranscriptLayout`, `TranscriptDrawing` | the transcript image: block parser and what its blocks say, word wrapper, column widths, measuring pass, drawing pass and canvas |
| `TranscriptRows` | the rows of an exported transcript: focus, deduplication, order |
| `MarkdownNormalizer` | the two normalisers every message passes before it is rendered |
| `HeadingNumbers`, `PhaseGroups` | numbering and grouping in the tables of contents |
| `SettingsLoads` | overlapping loads of the trading settings, guarded by a request number |
| `SseStream` | reassembly and handling of a server-sent event stream |
| `StepMap` | the map of processing steps that is fed ever longer lists |
| `PageSessions` | the page-session tracker |
| `DeployEnv` | the deployment's environment file and the encryption key it carries from run to run |
| `Text`, `StableSort`, `Common` | string operations, the contract of a stable sort, options |

Loops and objects of the source are methods and classes here, each proved equal to a function; the results are lemmas about those functions, which say what they mean without naming how they are computed. Recursive expressions are functions. Text width is an arbitrary function; a lemma that needs it to be monotone says so. `dafny verify dfyconfig.toml` checks everything. Some proofs begin with `hide`, which only takes definitions out of the solver's sight.

## What the proofs turned up

- The block parser never returns when a heading outside code and tables has U+2028 or U+2029 in its title: the outer loop refuses the line and the paragraph loop breaks on it. `MarkdownBlocks.ParserHangsIff` says exactly when, `PlainTextParses` that nothing else can go wrong. Its comment calls the space after the hashes optional; that holds for two or more hashes only, and the model follows the code.
- Measuring and drawing differ by two pixels for every code block and every heading, in opposite directions (`TranscriptDrawing.CursorDrift`). A message paints past its bubble exactly when its code blocks outnumber its headings by more than 11, or 12 or 13 if it ends with a paragraph or a heading (`PaintInsideIff`); with twelve code blocks and nothing else the last box ends two pixels below (`LastCodeBox`).
- A table can be wider than its bubble's text even where all its columns would fit at their minimum (`TableColumns.NarrowColumnsOverflow`).
- Canvas heights between 16384 and 24000 pass the length check but exceed the dimension limit the scale is computed for (`CanvasWithinLimitIff`).
- The list normaliser's comment says it leaves an empty item alone when a list marker follows. The code does so for an empty marker or heading mark only if white space follows it (`EmptySignIsMarkerIff`); otherwise `1.` above `2.` becomes `1. 2.`, and `1.` above `-` becomes `1. -` (`EmptyItemsJoin`).
- Events that follow `[DONE]` are handled or lost depending on where a chunk ends (`ChunkingIndependentIff`); an empty one right behind it makes the reading go on (`EmptyEventResumes`).
- Keys of the step map join name, id and time with hyphens, so two steps can share one and the earlier is lost (`KeysCanCollide`).
- The encryption key is written escaped and read back without unescaping, so a key with a quote or backslash, which only a hand-edited file can bring in, changes on every run and never comes back (`UnplainKeyNeverReturns`). Generated keys are safe.
- Character merging is associative where kinds agree (`MergeAssociates`); mixed kinds can break it (`MixedKindsDoNotAssociate`), and a null facing an object throws.

## Model

| member | source | states |
|---|---|---|
| `Characters.MergeAssociates` | agent/src/index.ts:154-185 | merging never throws, is associative and has the empty document as identity, for any documents that agree on the kind of every key they share (at any depth) |
| `Characters.KeyByKey` | agent/src/index.ts:154-182 | any merge goes key by key: a key of one side keeps its value, a key of both merges as it would alone, and throws if it would |
| `Characters.ChildWins` | agent/src/index.ts:176-179 | of two values that are neither arrays nor both objects the child's is taken |
| `Characters.MixedKindsDoNotAssociate` | agent/src/index.ts:162-181 | without that agreement associativity fails: a scalar between two objects |
| `Characters.NullAgainstObjectThrows` | agent/src/index.ts:163-169 | a null against an object with keys throws, on either side, because null passes the object test |
| `Characters.ArrayAgainstOther` | agent/src/index.ts:171-178 | an array against a falsy value or a string takes nothing or the characters, on its own side; against any other value the merge throws |
| `Characters.LoadCharacter` | agent/src/index.ts:304-329 | the recursive loader with its `extends` loop returns the document, the first missing file or the first failed merge, and terminates on any acyclic graph |
| `Characters.LoadIsOneMerge` | agent/src/index.ts:304-329 | for every acyclic graph without missing files whose ancestors agree, loading equals one merge over the flattened lineage: last parent's lineage first, own document last |
| `Characters.NearestWins` | agent/src/index.ts:304-329 | the file's own scalar wins, and without one that of the first parent in the list that comes loaded with one |
| `Characters.ParentsMeaning` | agent/src/index.ts:312-319 | the parents are the listed paths in their order, each resolved against the file that lists it |
| `Characters.MergeAllAppend` | agent/src/index.ts:154-185 | one merge over a list of documents may be cut anywhere into two |
| `Characters.MergedHolds` | agent/src/index.ts:154-185 | under every path of keys the merged document holds the scalar of the last document that has one, the arrays of all documents end to end in order, or nothing if none has anything |
| `TextWrap.WrapText` | client/src/components/ShareDialog.tsx:1592-1641 | the wrapper's loops compute the lines that the results below are about, for every text, width function and limit |
| `TextWrap.FillLines` | client/src/components/ShareDialog.tsx:1601-1618 | the greedy loop fills each line as far as the next word still fits |
| `TextWrap.BreakLine` | client/src/components/ShareDialog.tsx:1621-1638 | the breaking loop cuts a line into longest fitting prefixes of at most 48 characters and terminates |
| `TextWrap.PiecesAreFull` | client/src/components/ShareDialog.tsx:1626-1637 | of a line that is too wide, every piece but the last has 48 characters, or any longer prefix of what is left, up to 48, is too wide |
| `TextWrap.PieceLength` | client/src/components/ShareDialog.tsx:1628-1634 | a piece is a single character or fits, and no longer prefix within the limit fits |
| `TextWrap.GreedyIsShortest` | client/src/components/ShareDialog.tsx:1601-1618 | the greedy lines are a layout of the words, and no layout into contiguous admissible lines has fewer lines, for any width that is monotone in the word range |
| `TextWrap.GreedyLinesFull` | client/src/components/ShareDialog.tsx:1609-1617 | no line has room for the first word of the next |
| `TextWrap.WrapIsShortest` | client/src/components/ShareDialog.tsx:1592-1641 | when every word fits, no layout of the whole text has fewer lines than the result |
| `TextWrap.WrapConserves` | client/src/components/ShareDialog.tsx:1592-1641 | erasing white space from the text and from the joined result gives equal strings, for every width function |
| `Text.EraseConcat` | client/src/components/ShareDialog.tsx:1602 | erasing, which the results on kept text speak of, goes piece by piece |
| `Text.EraseOne` | client/src/components/ShareDialog.tsx:1602 | and drops a character exactly if it is white space |
| `TextWrap.WrapFits` | client/src/components/ShareDialog.tsx:1592-1641 | every output line fits or is a single character |
| `TextWrap.OnlyWordsBreak` | client/src/components/ShareDialog.tsx:1621-1627 | a non-empty line that reaches the breaking loop is a single word |
| `TextWrap.WrapKeepsWords` | client/src/components/ShareDialog.tsx:1592-1641 | when every word fits, splitting the result into words gives the words of the text: none split, none glued |
| `TextWrap.WordsOfSpaced` | client/src/components/ShareDialog.tsx:1602 | the words of a text are what stands between its stretches of white space |
| `Text.CharactersListed` | client/src/components/ShareDialog.tsx:1602 | the characters that the patterns take for white space, line terminators and digits, one by one |
| `Text.LinesReadBack` | client/src/components/ShareDialog.tsx:1490-1491 | a text put together from lines with any of the three line ends is read back as those lines |
| `TextWrap.WrapNotEmpty` | client/src/components/ShareDialog.tsx:1592-1641 | every text wraps to at least one line per paragraph, as long as the empty line fits |
| `TextWrap.PiecesRejoin` | client/src/components/ShareDialog.tsx:1626-1637 | the pieces put together are the broken line; each has 1 to 48 characters and fits unless it has one |
| `TextWrap.FitSingleLine` | client/src/components/ShareDialog.tsx:1850-1873 | the binary search terminates and, for a width monotone in the prefix, returns what a search through every prefix length returns; without monotonicity still a prefix that fits |
| `TextWrap.LongestCut` | client/src/components/ShareDialog.tsx:1850-1873 | the reference: the longest prefix that fits together with the ellipsis |
| `TextWrap.FittedMeaning` | client/src/components/ShareDialog.tsx:1850-1873 | a title that is too wide becomes its longest prefix that fits with an ellipsis behind it, or the bare ellipsis |
| `TextWrap.FittedLineFits` | client/src/components/ShareDialog.tsx:1855-1872 | the shortened line fits exactly when the whole line or the bare ellipsis does |
| `MarkdownBlocks.ParseMarkdownBlocks` | client/src/components/ShareDialog.tsx:1490-1590 | the parser's outer and inner loops, with a round that leaves the line number unchanged reported as a hang |
| `MarkdownBlocks.RoundAdvances` | client/src/components/ShareDialog.tsx:1511-1587 | a round stays where it is exactly on a heading mark whose title holds a character `.` does not match; on every other line the outer branches refuse, no test of the paragraph loop fires |
| `MarkdownBlocks.ParseTiles` | client/src/components/ShareDialog.tsx:1511-1587 | the consumed ranges are well-formed blocks lying end to end from the first line on, up to the end or up to the line the parser hangs on |
| `MarkdownBlocks.TilingIsParse` | client/src/components/ShareDialog.tsx:1511-1587 | the converse: any such tiling, described without the parser, is the parser's, so there is only one |
| `MarkdownBlocks.ParserAnswersIff` | client/src/components/ShareDialog.tsx:1511-1587 | the parser answers exactly when the lines have a tiling and hangs exactly when a tiling leads to a stuck line |
| `MarkdownBlocks.ParserHangsIff` | client/src/components/ShareDialog.tsx:1490-1590 | the parser hangs on a line exactly when one pass over the lines, keeping only whether it is in code or in a table, finds that line as the first stuck one |
| `MarkdownBlocks.PlainTextParses` | client/src/components/ShareDialog.tsx:1490-1590 | every text free of U+2028 and U+2029 is parsed to the end |
| `MarkdownBlocks.StuckLinesAreInside` | client/src/components/ShareDialog.tsx:1511-1587 | in an answered parse every stuck line is hidden inside a code block or a table |
| `MarkdownBlocks.HeadingWithSeparatorHangs` | client/src/components/ShareDialog.tsx:1531-1587 | a concrete heading with U+2028 in its title hangs the parser |
| `MarkdownBlocks.DoneReachesEnd` | client/src/components/ShareDialog.tsx:1516-1529 | an answered parse ends at the line count, or one past it exactly when the last block is an unclosed fence |
| `BlockTexts.ParseIsTold` | client/src/components/ShareDialog.tsx:1511-1587 | every range the parser consumes is told by its block: code by its lines, a heading by level and title, a table by the cells of each of its lines, a paragraph by its lines without the white space at their ends; what is left blank has no block |
| `BlockTexts.SpanKind` | client/src/components/ShareDialog.tsx:1516-1587 | the first line of a range decides what it is, fences before headings before tables before blank lines before paragraphs |
| `BlockTexts.ParagraphKeepsText` | client/src/components/ShareDialog.tsx:1569-1586 | with inline markdown left alone, a paragraph keeps the text of all its lines but white space |
| `BlockTexts.HeadingKeepsText` | client/src/components/ShareDialog.tsx:1532-1544 | a heading has level one to six and keeps its line's text: as many hashes as its level, and the title |
| `BlockTexts.RowKeepsText` | client/src/components/ShareDialog.tsx:1501-1508 | the cells of a row hold no pipe and, with a pipe between each two and the outer pipes the line had, its text |
| `BlockTexts.FenceMeaning` | client/src/components/ShareDialog.tsx:1516-1522 | a fence is a line that starts with three backticks behind any indentation |
| `BlockTexts.HeadingMeaning` | client/src/components/ShareDialog.tsx:1532-1537 | the two heading patterns, described by the parts of the line: one to six hashes with white space before the title, or two to six without |
| `BlockTexts.SeparatorMeaning` | client/src/components/ShareDialog.tsx:1494-1499 | a separator has nothing but white space, colons, dashes and pipes, and not only pipes between its ends |
| `BlockTexts.PipeMeaning` | client/src/components/ShareDialog.tsx:1549-1556 | white space at the ends never decides whether a line holds a pipe |
| `BlockTexts.BreakMeaning` | client/src/components/ShareDialog.tsx:1575-1579 | a paragraph ends before a blank line, a fence, a heading mark with a title, or a line with a pipe above a separator |
| `MarkdownBlocks.FenceTestsAgree` | client/src/components/ShareDialog.tsx:1516-1522 | the closing-fence test, which trims one end, agrees with the opening test, which trims both |
| `TableColumns.ColumnsMeaning` | client/src/components/ShareDialog.tsx:1687 | a table has as many columns as its longest row, header included, and at least one |
| `TableColumns.PaddingKeepsCells` | client/src/components/ShareDialog.tsx:1688-1691 | padding keeps every cell in its column and adds empty cells behind the last |
| `TableColumns.CellWidthMeaning` | client/src/components/ShareDialog.tsx:1703-1708 | a cell asks for its text rounded up to a pixel and ten pixels on either side, at most 260 |
| `TableColumns.DesiredWidths` | client/src/components/ShareDialog.tsx:1701-1711 | each column wants the widest of its cells, at least 70 and at most 260 |
| `TableColumns.AllocateColumns` | client/src/components/ShareDialog.tsx:1713-1726 | the in-place scaling and padding of the widths |
| `TableColumns.AllocationBounds` | client/src/components/ShareDialog.tsx:1713-1726 | every width is at least 70, the widths fill the room, fill it exactly if the desires fit, and otherwise overflow by at most the pixels the minimum forces |
| `TableColumns.AllocationExact` | client/src/components/ShareDialog.tsx:1714-1722 | the widths sum to the room or to the shares plus the forced pixels, whichever is more, so they overflow exactly when the minimum forces more pixels than rounding down has spared; with no forced column every column but the last has its share, and the last gains fewer pixels than there are columns |
| `TableColumns.AllocationByColumn` | client/src/components/ShareDialog.tsx:1713-1726 | what each column gets: its desire, or its share rounded down or the minimum; what is left over goes to the last one |
| `TableColumns.ManyColumnsOverflow` | client/src/components/ShareDialog.tsx:1714-1722 | columns that cannot all have the minimum always overflow the room |
| `TableColumns.NarrowColumnsOverflow` | client/src/components/ShareDialog.tsx:1714-1722 | a table that overflows although the minimum would fit: two wide and two narrow columns in 644 pixels take 646 |
| `TableColumns.SharesFit` | client/src/components/ShareDialog.tsx:1715-1717 | the floor shares never exceed the room and miss it by less than a pixel a column |
| `TranscriptLayout.MeasureTable` | client/src/components/ShareDialog.tsx:1683-1752 | the measured table has the cells, widths and row heights its content calls for, and a height of all rows plus one |
| `TranscriptLayout.MeasureMessage` | client/src/components/ShareDialog.tsx:1754-1796 | every block is measured from lines wrapped for its font; the bubble height is the sum of the measured heights plus padding; paragraphs have a line, and every block something to draw, as long as the empty line fits |
| `TranscriptLayout.MeasuredConveys` | client/src/components/ShareDialog.tsx:1728-1791 | a measured block carries the text of the parsed one, up to white space, in lines that fit the bubble in the block's font, and for a table cell by cell within its column |
| `TranscriptLayout.RowHeightMeaning` | client/src/components/ShareDialog.tsx:1738-1748 | a table row is twenty pixels high for each line of its longest cell, at least one, and sixteen more |
| `TranscriptLayout.HeightMeaning` | client/src/components/ShareDialog.tsx:1759-1793 | how many pixels each kind of block adds to the height of its message |
| `TranscriptDrawing.DrawMessage` | client/src/components/ShareDialog.tsx:1886-1977 | the drawing loops put every box and every baseline where the paint functions of the results below say, and move the cursor as far as they say |
| `TranscriptDrawing.MessageShown` | client/src/components/ShareDialog.tsx:1886-1977 | every measured line is painted exactly once and in order |
| `TranscriptDrawing.BlockPaintsAt` | client/src/components/ShareDialog.tsx:1900-1974 | the baseline in pixels of line i of a heading, a paragraph or code, and the box of code |
| `TranscriptDrawing.TableCellAt` | client/src/components/ShareDialog.tsx:1927-1964 | line i of a cell is painted below the rows before its own, in a box as high as its row |
| `TranscriptDrawing.CursorMeaning` | client/src/components/ShareDialog.tsx:1894-1975 | how many pixels the cursor moves for each kind of block, which is painted where the cursor was |
| `TranscriptDrawing.MessageSpans` | client/src/components/ShareDialog.tsx:1886-1977 | everything painted starts below the bubble's padding, and the lowest paint lies exactly the gap of the last block above the final cursor |
| `TranscriptDrawing.CursorDrift` | client/src/components/ShareDialog.tsx:1754-1977 | the drawing cursor ends where the measuring pass puts it plus two for each code block less two for each heading |
| `TranscriptDrawing.CursorInsideIff` | client/src/components/ShareDialog.tsx:1793-1977 | the final cursor is inside the bubble exactly when code blocks outnumber headings by at most six |
| `TranscriptDrawing.PaintEnds` | client/src/components/ShareDialog.tsx:1754-1977 | how many pixels above or below the edge of the bubble the lowest paint ends |
| `TranscriptDrawing.PaintInsideIff` | client/src/components/ShareDialog.tsx:1754-1977 | everything painted is inside the bubble exactly when code blocks outnumber headings by at most 13, 12 or 11 if the message ends with a heading, a paragraph, or code or a table |
| `TranscriptDrawing.LastCodeBox` | client/src/components/ShareDialog.tsx:1774-1936 | in a message of n code blocks and nothing else the box painted for the last one ends 2n - 22 pixels below the bubble: two for twelve |
| `TranscriptDrawing.SizeCanvas` | client/src/components/ShareDialog.tsx:1798-1813 | the canvas height is the stacked bubbles with header and footer; more than 24000 is refused |
| `TranscriptDrawing.CanvasForMeaning` | client/src/components/ShareDialog.tsx:1804-1814 | above 24000 pixels the canvas is refused, up to 8192 it is drawn at double size, and in between at single size |
| `TranscriptDrawing.CanvasMeaning` | client/src/components/ShareDialog.tsx:1798-1979 | the first bubble starts at 88 pixels, each next one 14 below the last, and the canvas ends 70 below the last one |
| `TranscriptDrawing.TextMaxWidthMeaning` | client/src/components/ShareDialog.tsx:1455-1667 | the room for text is 692 pixels, or the width less 76 on a canvas narrower than 768 |
| `TranscriptDrawing.BubblesDisjointInside` | client/src/components/ShareDialog.tsx:1798-1979 | bubbles are pairwise disjoint, below the header and above the footer of the computed canvas |
| `TranscriptDrawing.DrawTranscript` | client/src/components/ShareDialog.tsx:1754-1980 | measuring, sizing and drawing together: a chat too long draws nothing; otherwise every message is drawn on its own bubble, below the ones before it, and keeps to that bubble exactly when its lead allows |
| `TranscriptDrawing.BubbleKeepsIff` | client/src/components/ShareDialog.tsx:1883-1980 | wherever a bubble is placed, its message keeps to it exactly under that condition |
| `TranscriptDrawing.BubblesApart` | client/src/components/ShareDialog.tsx:1798-1980 | the drawn bubbles lie a gap apart, between the header and the footer of the canvas they are drawn on |
| `TranscriptDrawing.CanvasWithinLimitIff` | client/src/components/ShareDialog.tsx:1809-1818 | the scaled canvas respects the 16384 limit in width always, and in height exactly when the unscaled height does |
| `TranscriptRows.GetTranscriptMessages` | client/src/components/ShareDialog.tsx:1217-1373 | the export's filters and loops produce the stable sort of the combined rows |
| `TranscriptRows.SnapshotIdsNew` | client/src/components/ShareDialog.tsx:1278-1364 | no accepted snapshot message with an id repeats the id of a stored row or of an earlier accepted one, across both kinds of snapshot |
| `TranscriptRows.IdsMeaning` | client/src/components/ShareDialog.tsx:1265-1269 | the ids that a snapshot message must not repeat are the non-empty ids of the stored rows |
| `TranscriptRows.NothingLost` | client/src/components/ShareDialog.tsx:1306-1319 | a candidate with text is accepted or its id is already there |
| `TranscriptRows.TranscriptIsTheArrangement` | client/src/components/ShareDialog.tsx:1364-1373 | with at most a million stored rows and a million task-chain rows, any arrangement of all rows sorted by time and index is the exported one |
| `TranscriptRows.TranscriptSorted` | client/src/components/ShareDialog.tsx:1364-1373 | for any number of rows the result is sorted and a permutation, and rows that compare equal keep their order |
| `TranscriptRows.TranscriptAscends` | client/src/components/ShareDialog.tsx:1366-1373 | the exported messages are all the rows in ascending order of time, those without a time first, and equal times in ascending order of index |
| `TranscriptRows.StoredRowsMeaning` | client/src/components/ShareDialog.tsx:1246-1263 | a stored row is a message of the source with text, with its own id, text, sender, time and place |
| `TranscriptRows.SnapshotRowMeaning` | client/src/components/ShareDialog.tsx:1302-1309 | a snapshot row has the message's id if it has one, its trimmed text, sender and time, and an index counted from a million or two |
| `TranscriptRows.ChainCandidateIff` | client/src/components/ShareDialog.tsx:1278-1297 | a task-chain message is a candidate exactly if a summary carries it and the focus is off or on its task |
| `TranscriptRows.AnalysisCandidateIff` | client/src/components/ShareDialog.tsx:1318-1341 | an analysis message is a candidate exactly if a memory carries it and the focus is off or a phase and action it matches |
| `TranscriptRows.SourceMeaning` | client/src/components/ShareDialog.tsx:1222-1244 | the stored messages are those that match the focus, or all if none does |
| `TranscriptRows.FilteredMeaning` | client/src/components/ShareDialog.tsx:1222-1240 | every message that matches the focus is kept as often as it is stored, and no other |
| `TranscriptRows.FocusMeaning` | client/src/components/ShareDialog.tsx:1220-1224 | a key without a colon names a task, one with a colon a phase before the first colon and an action after it |
| `MarkdownNormalizer.NormalizeMarkdownAtxHeadingIndent` | client/src/components/MarkdownRenderer.tsx:166-192 | the heading pass with its early return |
| `MarkdownNormalizer.NormalizeOrderedListItemBreak` | client/src/components/MarkdownRenderer.tsx:116-158 | the list pass with its early return, its look-ahead and its jump over the lines it joins |
| `MarkdownNormalizer.RenderIdempotent` | client/src/components/MarkdownRenderer.tsx:872-875 | normalising twice is normalising once, for every text |
| `MarkdownNormalizer.HeadingNotSwallowed` | client/src/components/MarkdownRenderer.tsx:872-875 | the heading pass comes first, so a deep heading below a bare marker is not taken for its content |
| `MarkdownNormalizer.RenderFixpoints` | client/src/components/MarkdownRenderer.tsx:116-192 | both passes leave a text alone exactly when, outside fences, it has no heading indented more than three and no marker torn from its content |
| `MarkdownNormalizer.RenderKeepsFences` | client/src/components/MarkdownRenderer.tsx:116-192 | fence markers and fenced lines come through unchanged and in order |
| `MarkdownNormalizer.RenderKeepsText` | client/src/components/MarkdownRenderer.tsx:116-192 | only white space is added or removed |
| `MarkdownNormalizer.HealFastPathAgrees` | client/src/components/MarkdownRenderer.tsx:117 | the multi-line test for an early return never skips a text the full pass would change |
| `MarkdownNormalizer.FixFastPathAgrees` | client/src/components/MarkdownRenderer.tsx:167 | nor does the test for a hash |
| `MarkdownNormalizer.FixedLineMeaning` | client/src/components/MarkdownRenderer.tsx:182-189 | a deep heading keeps its hashes and title, loses its indentation and has white space before its title |
| `MarkdownNormalizer.FixedByLine` | client/src/components/MarkdownRenderer.tsx:166-192 | the heading pass looks at one line at a time, and fences shield what is between them |
| `MarkdownNormalizer.DeepMeaning` | client/src/components/MarkdownRenderer.tsx:182-183 | a line is fixed exactly if more than three characters of white space stand before one to six hashes |
| `MarkdownNormalizer.HealedMarker` | client/src/components/MarkdownRenderer.tsx:132-156 | outside fences a bare marker and the first line below it that is not blank become one, and the blank lines between them go, unless that line stops the join |
| `MarkdownNormalizer.HealedByLine` | client/src/components/MarkdownRenderer.tsx:122-136 | any other line stays as it is, and fences shield what is between them |
| `MarkdownNormalizer.BareMeaning` | client/src/components/MarkdownRenderer.tsx:132-136 | a bare marker is digits and a period with nothing but white space around them |
| `MarkdownNormalizer.MarkerMeaning` | client/src/components/MarkdownRenderer.tsx:149 | what stops a join: a marker or heading mark with white space after it, whatever follows, or a fence |
| `MarkdownNormalizer.JoinedMeaning` | client/src/components/MarkdownRenderer.tsx:132-155 | a joined item keeps its indentation and marker, gets the content after a space, and is no longer bare, nor a fence or heading |
| `MarkdownNormalizer.EmptySignIsMarkerIff` | client/src/components/MarkdownRenderer.tsx:148-149 | a list marker or heading mark alone on its line (digits and period, dash, asterisk, one to six hashes) is recognised exactly when white space follows it |
| `MarkdownNormalizer.EmptyItemsJoin` | client/src/components/MarkdownRenderer.tsx:136-154 | an empty item above such a line is left alone exactly when white space ends that line, and swallows it otherwise, against the comment |
| `HeadingNumbers.AddNumbering` | client/src/components/TableOfContents.tsx:144-174 | the shared counters give every heading the number that counting headings gives: component j counts the level-j headings since the last shallower one, component 0 one more if the first heading is deeper |
| `HeadingNumbers.ComponentStep` | client/src/components/TableOfContents.tsx:153-165 | what one more heading does to the counted components |
| `HeadingNumbers.NumberMeaning` | client/src/components/TableOfContents.tsx:153-167 | component j of a number is the number of level-j headings so far that no shallower one follows |
| `HeadingNumbers.DepthMeaning` | client/src/components/TableOfContents.tsx:145-152 | a number has as many more components than another one as its heading is deeper |
| `HeadingNumbers.PrintedMeaning` | client/src/components/TableOfContents.tsx:167 | a printed number is its components in decimal numerals with a period between each two |
| `HeadingNumbers.NumbersIncrease` | client/src/components/TableOfContents.tsx:144-174 | numbers strictly increase in lexicographic order, so no two are equal |
| `HeadingNumbers.PrintedNumbersDistinct` | client/src/components/TableOfContents.tsx:167 | no two printed numbers are equal either |
| `HeadingNumbers.ShallowestHaveOneComponent` | client/src/components/TableOfContents.tsx:145-152 | a single component goes to exactly the shallowest headings, and there is one |
| `HeadingNumbers.NumberEnds` | client/src/components/TableOfContents.tsx:157-161 | a number neither starts nor ends with zero |
| `SettingsLoads.Dialog.StartLoad` | client/src/components/SettingsDialog.tsx:561-580 | a load takes the next request number |
| `SettingsLoads.Dialog.FinishLoadExchanges` | client/src/components/SettingsDialog.tsx:246-266 | after its await a load writes the exchanges, or clears them on an error, only if it is the newest |
| `SettingsLoads.Dialog.BeginFetchExchangeAuths` | client/src/components/SettingsDialog.tsx:313-325 | a superseded load ends; an empty list clears both maps |
| `SettingsLoads.Dialog.ContinueFetchExchangeAuths` | client/src/components/SettingsDialog.tsx:328-404 | each answer fills one row of both maps; only the newest load, at its last answer, shows them |
| `SettingsLoads.OnlyNewestWrites` | client/src/components/SettingsDialog.tsx:246-412 | no event of a superseded load, and no start, changes the exchanges or either map |
| `SettingsLoads.RunKeepsInv` | client/src/components/SettingsDialog.tsx:246-412 | over every interleaving, what is shown is the newest load's data as far as that load has come |
| `SettingsLoads.LoadsRecord` | client/src/components/SettingsDialog.tsx:246-412 | a load holds exactly the list and the answers that arrived for it, in order, whatever other loads did in between |
| `SettingsLoads.SettledShowsNewest` | client/src/components/SettingsDialog.tsx:561-580 | when all loads have ended, the dialog shows the newest one's list and answers, and the keys of both maps are the listed ids |
| `SettingsLoads.MapsMeaning` | client/src/components/SettingsDialog.tsx:328-399 | both maps hold for an exchange what the last answer about it gave |
| `SettingsLoads.RowMeaning` | client/src/components/SettingsDialog.tsx:334-389 | the status an answer gives an authentication type, grouped or flat, and the input texts that follow from it |
| `SettingsLoads.SupersededStops` | client/src/components/SettingsDialog.tsx:331-334 | a superseded load stops at its next answer |
| `SseStream.StreamReader.Feed` | scripts/test-taskchain-language-e2e.ts:441-457 | one chunk: every complete event in the buffer is handled |
| `SseStream.StreamReader.ReadAll` | scripts/test-taskchain-language-e2e.ts:435-458 | the reading loop over all chunks |
| `SseStream.SplitMeaning` | scripts/test-taskchain-language-e2e.ts:443-456 | the split puts the text back together, leaves no blank line over, and ends every event at the first blank line |
| `SseStream.PayloadMeaning` | scripts/test-taskchain-language-e2e.ts:447-452 | the payload of an event is what its data lines hold behind the prefix and white space, line by line; other lines do not count |
| `SseStream.HandleMeaning` | scripts/test-taskchain-language-e2e.ts:352-388 | what one event does: it is kept, ends the reading, resumes it, fails it, or has a plan approved that was not before |
| `SseStream.EmptyEventResumes` | scripts/test-taskchain-language-e2e.ts:352-356 | an empty event right behind `[DONE]` in the same chunk makes the reading go on |
| `SseStream.EventsOfLonger` | scripts/test-taskchain-language-e2e.ts:441-457 | events of a longer text are those so far and those of the tail with the new chunk |
| `SseStream.ChunkingIndependent` | scripts/test-taskchain-language-e2e.ts:435-458 | for every way of cutting the text, the payloads handled are those of its leftmost split, up to the first that cannot be parsed, if none follows `[DONE]` |
| `SseStream.ChunkingIndependentIff` | scripts/test-taskchain-language-e2e.ts:352-458 | all cuttings agree exactly when no handleable event follows `[DONE]` |
| `SseStream.PlansApprovedOnce` | scripts/test-taskchain-language-e2e.ts:368-388 | over any chunks a plan is approved exactly once if a handled event asks for it, never otherwise |
| `StepMap.Bubble.SetSteps` | client/src/components/StreamingThinkingBubble.tsx:61-103 | the effect folds a list into the surviving map; an empty list clears it |
| `StepMap.Bubble.MergeStep` | client/src/components/StreamingThinkingBubble.tsx:70-103 | both searches and the update in place |
| `StepMap.BatchesKeepUnique` | client/src/components/StreamingThinkingBubble.tsx:61-103 | over any sequence of lists no two entries share an id or a key |
| `StepMap.MergeById` | client/src/components/StreamingThinkingBubble.tsx:76-82 | the first entry with the id of a step gets the step and keeps its key |
| `StepMap.MergeByName` | client/src/components/StreamingThinkingBubble.tsx:85-98 | a step with a new id that completes or fails takes over the first entry in progress under its name, which keeps its key |
| `StepMap.MergeByKey` | client/src/components/StreamingThinkingBubble.tsx:99-102 | any other step goes under its own key, over the entry that has it or to the end |
| `StepMap.MergeTouchesOne` | client/src/components/StreamingThinkingBubble.tsx:70-103 | whatever the map, the step is in it afterwards, and at most one entry is another than before |
| `StepMap.LatestIffClean` | client/src/components/StreamingThinkingBubble.tsx:70-103 | the map always is the last version of every id in order of first appearance exactly when no new id takes over an unfinished step of its name or meets a used key |
| `StepMap.AnnouncedIsClean` | client/src/components/StreamingThinkingBubble.tsx:85-101 | that holds when every finished step was announced before and different ids have different keys |
| `StepMap.RefeedSame` | client/src/components/StreamingThinkingBubble.tsx:61-103 | feeding a clean list onto its own map changes nothing |
| `StepMap.GrowingEqualsOnce` | client/src/components/StreamingThinkingBubble.tsx:61-103 | a clean list that arrives in any growing pieces, each from the start, ends in the map of the whole |
| `StepMap.KeysCanCollide` | client/src/components/StreamingThinkingBubble.tsx:100-101 | two steps with different ids can form the same key, and then the first is lost |
| `PageSessions.AnalyticsTracker.FlushSession` | client/src/components/AnalyticsTracker.tsx:34-60 | a live session is reported and closed; how the report leaves depends on the beacon and the fallback |
| `PageSessions.AnalyticsTracker.StartSession` | client/src/components/AnalyticsTracker.tsx:62-74 | a session starts now, without clicks, with the last path as referrer |
| `PageSessions.AnalyticsTracker.Handle` | client/src/components/AnalyticsTracker.tsx:76-120 | what each event does |
| `PageSessions.OpenedOnlyWhenNone` | client/src/components/AnalyticsTracker.tsx:88-107 | a session is opened only when none is live: what it would replace has just been reported, and not dropped |
| `PageSessions.LifeAccounts` | client/src/components/AnalyticsTracker.tsx:34-120 | over every life with a clock that never runs back, the reports are those of the visits told by the events alone, one each and in order, with the visit's path, referrer, clicks, start and end; the visit still open is the session; reported intervals are disjoint and together no longer than the life |
| `PageSessions.StepTells` | client/src/components/AnalyticsTracker.tsx:34-120 | every event changes the tracker as it changes the list of visits, whether by a report, a new session or a click |
| `PhaseGroups.CollectPhases` | client/src/components/ComprehensiveTOC.tsx:95-104 | the first loop collects the actions of every phase, phases in order of appearance |
| `PhaseGroups.SortPhases` | client/src/components/ComprehensiveTOC.tsx:107-119 | known phases in their order, then the others as they appeared |
| `PhaseGroups.GroupByPhase` | client/src/components/ComprehensiveTOC.tsx:94-122 | the two loops together compute the groups that the results are about |
| `PhaseGroups.GroupedMeaning` | client/src/components/ComprehensiveTOC.tsx:94-122 | every phase that appears has exactly one group with exactly its actions, in ascending rank |
| `PhaseGroups.GroupsInOrder` | client/src/components/ComprehensiveTOC.tsx:96-119 | known phases come first in their fixed order, the others by their first action |
| `PhaseGroups.OfPhaseMeaning` | client/src/components/ComprehensiveTOC.tsx:98-104 | a group holds the actions of its phase as often as they occur, and an action without a phase is of phase other |
| `PhaseGroups.GroupingIsStableSort` | client/src/components/ComprehensiveTOC.tsx:94-122 | the groups put end to end are the stable sort of the actions by the rank of their phase |
| `DeployEnv.ReplacementsAreOneMap` | scripts/geap/prepare-cloud-run-env.py:83-84 | the two replacements, in their order, are one map over the characters |
| `DeployEnv.EscapedMeaning` | scripts/geap/prepare-cloud-run-env.py:83-84 | escaping goes character by character, and only a quote and a backslash get a backslash |
| `DeployEnv.YamlReadsBack` | scripts/geap/prepare-cloud-run-env.py:83-84 | a reader of double-quoted scalars gets every one-line value back |
| `DeployEnv.WriteEnv` | scripts/geap/prepare-cloud-run-env.py:106-134 | a run keeps the key of the existing file or writes a new one |
| `DeployEnv.EverySettingWritten` | scripts/geap/prepare-cloud-run-env.py:133-134 | the written file is one line for each setting and one for the key, in ascending order of names, and every line gives its name and value back |
| `DeployEnv.KeyInLinesMeaning` | scripts/geap/prepare-cloud-run-env.py:109-112 | the key is what stands on the first line that starts with its name and a colon, without white space and quotes around it |
| `DeployEnv.StripMeaning` | scripts/geap/prepare-cloud-run-env.py:111 | stripping takes as many characters as it may off either end, and no other |
| `DeployEnv.SplitLinesReadsBack` | scripts/geap/prepare-cloud-run-env.py:109 | a text put together from lines with any breaks is split into those lines |
| `DeployEnv.BreaksListed` | scripts/geap/prepare-cloud-run-env.py:109 | the characters that break a line, one by one |
| `DeployEnv.PySpacesListed` | scripts/geap/prepare-cloud-run-env.py:111 | the characters that stripping takes for white space, one by one |
| `DeployEnv.KeyReadsBackIff` | scripts/geap/prepare-cloud-run-env.py:106-134 | the script reads a key back from the file it wrote exactly when the key has no quote, backslash or line break, whatever one-line settings surround it |
| `DeployEnv.KeyReadBack` | scripts/geap/prepare-cloud-run-env.py:106-134 | what is read back for any one-line key: the escaped key without its trailing quotes |
| `DeployEnv.KeySurvives` | scripts/geap/prepare-cloud-run-env.py:106-134 | such a key survives any number of runs |
| `DeployEnv.GeneratedKeySurvives` | scripts/geap/prepare-cloud-run-env.py:113-116 | a base64 key made up by the first run is the key of every later one |
| `DeployEnv.UnplainKeyGrows` | scripts/geap/prepare-cloud-run-env.py:109-134 | a key that is not plain is read back not plain and with more backslashes |
| `DeployEnv.UnplainKeyNeverReturns` | scripts/geap/prepare-cloud-run-env.py:109-134 | once the file holds such a key, any two points of any sequence of runs read different keys: every run changes it and none brings an earlier one back |

## Left out

- Strings are sequences of Unicode scalar values: JavaScript's surrogate halves, which hard breaking can separate, do not occur.
- React rendering and scheduling, canvas painting apart from vertical positions, fonts, colours, network calls and files: their answers are parameters.
- Horizontal positions of table cells and bubbles; the widths of columns are modelled. A line of text is placed by its baseline, so what letters put below it is not counted.
- TranscriptDrawing.PaintInsideIff: assumes that paragraphs, and a heading at the end, have a line to draw, as they do whenever the empty line is no wider than the bubble.
- Characters.MixedKindsDoNotAssociate: gives a counterexample, not every pair of mixed kinds for which the two groupings differ.
- The header and footer texts of the image, apart from the shortening of the title.
- Inline markdown stripping, emoji removal and anchor names: the parser takes the stripping as a function, and no block boundary depends on it.
- IEEE rounding: text widths are real numbers, column shares exact fractions rounded down.
- The order of keys in a merged character, plugin import, secrets from the environment, and validation, apart from `extends` being a list of strings. NaN and infinities are not modelled as values.
- Cyclic `extends`, on which the loader does not return.
- Characters.LoadIsOneMerge: the converse is not stated; ancestors that disagree may still happen to load to the same document.
- Extraction of headings from markdown before they are numbered.
- What saving credentials or changing the default exchange writes, the trading switch, edit mode, the loading flag and the catch-all error branch of the settings dialog: the request number does not guard them.
- Decoding bytes to text across chunks; an undecoded or unterminated rest of the stream is dropped, as in the code. Of the events, approvals are told apart, the others are not.
- The sort by time and the automatic completion of steps that are shown but not stored.
- Reports lost between the beacon and the server; clocks that run backwards.
- How snapshots are turned into messages: TranscriptRows takes those messages as given.
- Parsing of the `.env` file and the choice of settings: DeployEnv takes the other settings as given, one line each. Its reader of double-quoted scalars knows the two escapes the writer uses.
- TextWrap.FitSingleLine: that the result is the longest prefix is stated for widths monotone in the prefix only, since a binary search finds no more.
- TextWrap.WrapIsShortest: assumes that every word fits, since a broken word is not a line of words.
- The trading engine, its ledger and its risk checks.
