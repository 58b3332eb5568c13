/**
 The first of two passes over the messages of the transcript image: it wraps every block for its
 font and measures how high it will be.
 */
module TranscriptLayout {
  import opened Common
  import opened Text
  import TextWrap
  import MarkdownBlocks
  import Columns = TableColumns

  const LINE_BODY: int := 20
  const LINE_HEADING: int := 22
  const LINE_CODE: int := 18
  const CELL_PADDING_Y: int := 8
  const BUBBLE_PADDING_Y: int := 12

  /** The canvas measure under each of the fonts. */
  datatype Fonts = Fonts(body: string -> real, heading1: string -> real, heading2: string -> real, code: string -> real)

  datatype Measured =
    | Heading(level: nat, lines: seq<string>, height: int)
    | Paragraph(lines: seq<string>, height: int)
    | Code(lines: seq<string>, height: int)
    | Table(colWidths: seq<int>, headerCells: seq<seq<string>>, rowCells: seq<seq<seq<string>>>,
            rowHeights: seq<int>, height: int)

  // ----- The measuring pass

  function HeadingFont(level: nat, fonts: Fonts): string -> real {
    if level <= 2 then fonts.heading1 else fonts.heading2
  }

  function CodeLines(lines: seq<string>, fonts: Fonts, maxWidth: real): seq<string> {
    if lines == [] then []
    else TextWrap.Wrapped(lines[0], fonts.code, maxWidth) + CodeLines(lines[1..], fonts, maxWidth)
  }

  function WrapRow(row: seq<string>, colWidths: seq<int>, fonts: Fonts): seq<seq<string>>
    requires |row| <= |colWidths|
  {
    seq(|row|, i requires 0 <= i < |row| =>
      TextWrap.Wrapped(row[i], fonts.body, Max(1, colWidths[i] - Columns.PADDING_X * 2 - 2) as real))
  }

  function WrapRows(rows: seq<seq<string>>, colWidths: seq<int>, fonts: Fonts): seq<seq<seq<string>>>
    requires forall r :: 0 <= r < |rows| ==> |rows[r]| <= |colWidths|
  {
    seq(|rows|, r requires 0 <= r < |rows| => WrapRow(rows[r], colWidths, fonts))
  }

  /** The most lines any cell of the row has, at least one. */
  function RowLines(cells: seq<seq<string>>): (n: int)
    ensures n >= 1
    ensures forall i :: 0 <= i < |cells| ==> |cells[i]| <= n
  {
    if cells == [] then 1 else Max(|cells[0]|, RowLines(cells[1..]))
  }

  function RowHeight(cells: seq<seq<string>>): int {
    RowLines(cells) * LINE_BODY + CELL_PADDING_Y * 2
  }

  function RowHeights(rows: seq<seq<seq<string>>>): seq<int> {
    seq(|rows|, r requires 0 <= r < |rows| => RowHeight(rows[r]))
  }

  /** The cells are padded to a rectangle and wrapped to the widths their columns were allocated. */
  ghost predicate ShowsTable(measured: Measured, header: seq<string>, rows: seq<seq<string>>, fonts: Fonts, room: int) {
    && measured.Table?
    && exists desired ::
         var columns := Columns.Columns(header, rows);
         && columns == |desired| > 0 && Columns.Sum(desired) > 0
         && (forall col :: 0 <= col < columns ==> IsDesiredColumn(desired[col], header, rows, col, fonts))
         && measured.colWidths == Columns.Allocated(desired, room)
         && |measured.colWidths| == columns
         && measured.headerCells == WrapRow(Columns.Padded(header, columns), measured.colWidths, fonts)
         && measured.rowCells == WrapRows(Columns.PaddedRows(rows, columns), measured.colWidths, fonts)
  }

  ghost predicate IsDesiredColumn(w: int, header: seq<string>, rows: seq<seq<string>>, col: nat, fonts: Fonts) {
    var columns := Columns.Columns(header, rows);
    && col < columns
    && Columns.IsDesired(w, [Columns.Padded(header, columns)] + Columns.PaddedRows(rows, columns), col, fonts.body)
  }

  method MeasureTable(header: seq<string>, rows: seq<seq<string>>, fonts: Fonts, textMaxWidth: int)
    returns (measured: Measured)
    ensures WellMeasured(measured) && ShowsTable(measured, header, rows, fonts, textMaxWidth)
  {
    var columns := Columns.Columns(header, rows);
    Columns.MaxLengthBounds(rows, Max(|header|, 1));
    var normalizedHeader := Columns.Padded(header, columns);
    var normalizedRows := Columns.PaddedRows(rows, columns);
    ghost var desired;
    var colWidths;
    colWidths, desired := ColumnWidths([normalizedHeader] + normalizedRows, columns, fonts, textMaxWidth);
    var headerCells := WrapRow(normalizedHeader, colWidths, fonts);
    var rowCells := WrapRows(normalizedRows, colWidths, fonts);
    var rowHeights := MeasureRows(headerCells, rowCells);
    measured := Table(colWidths, headerCells, rowCells, rowHeights, Columns.Sum(rowHeights) + 1);
    assert forall col :: 0 <= col < columns ==> IsDesiredColumn(desired[col], header, rows, col, fonts);
  }

  method ColumnWidths(table: seq<seq<string>>, columns: nat, fonts: Fonts, room: int)
    returns (colWidths: seq<int>, ghost desired: seq<int>)
    requires columns > 0 && forall r :: 0 <= r < |table| ==> |table[r]| == columns
    ensures |desired| == |colWidths| == columns && Columns.Sum(desired) > 0
    ensures forall col :: 0 <= col < columns ==> Columns.IsDesired(desired[col], table, col, fonts.body)
    ensures colWidths == Columns.Allocated(desired, room)
  {
    var colMax := Columns.DesiredWidths(table, columns, fonts.body);
    desired := colMax[..];
    Columns.AllocationBounds(desired, room);
    var widths := Columns.AllocateColumns(colMax, room);
    colWidths := widths[..];
  }

  method MeasureRows(headerCells: seq<seq<string>>, rowCells: seq<seq<seq<string>>>) returns (rowHeights: seq<int>)
    ensures rowHeights == RowHeights([headerCells] + rowCells)
  {
    rowHeights := [RowHeight(headerCells)];
    for r := 0 to |rowCells|
      invariant rowHeights == RowHeights([headerCells] + rowCells[..r])
    {
      rowHeights := rowHeights + [RowHeight(rowCells[r])];
    }
    assert rowCells[..|rowCells|] == rowCells;
  }

  /** What the measuring pass adds to the height of a message for a block. */
  function MeasuredHeight(block: Measured): int {
    match block
    case Heading(_, _, height) => height + 6
    case Code(_, height) => height + 8
    case Table(_, _, _, _, height) => height + 10
    case Paragraph(_, height) => height + 6
  }

  function ContentHeight(blocks: seq<Measured>): int {
    if blocks == [] then 0 else MeasuredHeight(blocks[0]) + ContentHeight(blocks[1..])
  }

  /** The height a measured block carries is the one its lines call for. */
  predicate WellMeasured(block: Measured) {
    match block
    case Heading(_, lines, height) => height == |lines| * LINE_HEADING + 6
    case Code(lines, height) => height == Max(1, |lines|) * LINE_CODE + 16
    case Table(_, headerCells, rowCells, rowHeights, height) =>
      && headerCells != [] && (forall r :: 0 <= r < |rowCells| ==> |rowCells[r]| == |headerCells|)
      && rowHeights == RowHeights([headerCells] + rowCells) && height == Columns.Sum(rowHeights) + 1
    case Paragraph(lines, height) => height == Max(1, |lines|) * LINE_BODY
  }

  /** Paragraphs have a line to draw. */
  predicate HasLines(block: Measured) {
    block.Paragraph? ==> |block.lines| >= 1
  }

  /** There is something to draw: code has its box, a table its cells. */
  predicate Paints(block: Measured) {
    block.Heading? || block.Paragraph? ==> |block.lines| >= 1
  }

  /** The empty line fits, in every font that is wrapped to the full width. */
  predicate EmptyFits(fonts: Fonts, textMaxWidth: int) {
    && fonts.body("") <= textMaxWidth as real
    && fonts.heading1("") <= textMaxWidth as real
    && fonts.heading2("") <= textMaxWidth as real
  }

  /** The measured block shows the content of the parsed one, in lines that were wrapped for its font. */
  ghost predicate Shows(measured: Measured, block: MarkdownBlocks.Block, fonts: Fonts, textMaxWidth: int) {
    match block
    case Heading(level, text) =>
      measured.Heading? && measured.level == level
      && measured.lines == TextWrap.Wrapped(text, HeadingFont(level, fonts), textMaxWidth as real)
    case Paragraph(text) =>
      measured.Paragraph? && measured.lines == TextWrap.Wrapped(text, fonts.body, textMaxWidth as real)
    case Code(text) =>
      measured.Code? && measured.lines == CodeLines(Split(text, '\n'), fonts, (textMaxWidth - 18) as real)
    case Table(header, rows) =>
      ShowsTable(measured, header, rows, fonts, textMaxWidth)
  }

  method MeasureBlock(block: MarkdownBlocks.Block, fonts: Fonts, textMaxWidth: int) returns (measured: Measured)
    ensures WellMeasured(measured) && Shows(measured, block, fonts, textMaxWidth)
    ensures fonts.body("") <= textMaxWidth as real ==> HasLines(measured)
    ensures EmptyFits(fonts, textMaxWidth) ==> Paints(measured)
  {
    match block
    case Heading(level, text) =>
      var lines := TextWrap.WrapText(text, HeadingFont(level, fonts), textMaxWidth as real);
      if EmptyFits(fonts, textMaxWidth) {
        TextWrap.WrapNotEmpty(text, HeadingFont(level, fonts), textMaxWidth as real);
      }
      measured := Heading(level, lines, |lines| * LINE_HEADING + 6);
    case Code(text) =>
      var lines := CodeLines(Split(text, '\n'), fonts, (textMaxWidth - 18) as real);
      measured := Code(lines, Max(1, |lines|) * LINE_CODE + 16);
    case Table(header, rows) =>
      measured := MeasureTable(header, rows, fonts, textMaxWidth);
    case Paragraph(text) =>
      var lines := TextWrap.WrapText(text, fonts.body, textMaxWidth as real);
      if fonts.body("") <= textMaxWidth as real {
        TextWrap.WrapNotEmpty(text, fonts.body, textMaxWidth as real);
      }
      measured := Paragraph(lines, Max(1, |lines|) * LINE_BODY);
  }

  method MeasureMessage(blocks: seq<MarkdownBlocks.Block>, fonts: Fonts, textMaxWidth: int)
    returns (measuredBlocks: seq<Measured>, bubbleHeight: int)
    ensures |measuredBlocks| == |blocks|
    ensures forall i :: 0 <= i < |blocks| ==>
                          WellMeasured(measuredBlocks[i]) && Shows(measuredBlocks[i], blocks[i], fonts, textMaxWidth)
    ensures fonts.body("") <= textMaxWidth as real ==> forall i :: 0 <= i < |blocks| ==> HasLines(measuredBlocks[i])
    ensures EmptyFits(fonts, textMaxWidth) ==> forall i :: 0 <= i < |blocks| ==> Paints(measuredBlocks[i])
    ensures bubbleHeight == BubbleHeight(measuredBlocks)
  {
    hide Shows, WellMeasured, HasLines, Paints, EmptyFits, MeasuredHeight;
    measuredBlocks := [];
    var contentHeight := 0;
    for i := 0 to |blocks|
      invariant |measuredBlocks| == i
      invariant forall k :: 0 <= k < i ==>
                              && WellMeasured(measuredBlocks[k])
                              && Shows(measuredBlocks[k], blocks[k], fonts, textMaxWidth)
      invariant fonts.body("") <= textMaxWidth as real ==> forall k :: 0 <= k < i ==> HasLines(measuredBlocks[k])
      invariant EmptyFits(fonts, textMaxWidth) ==> forall k :: 0 <= k < i ==> Paints(measuredBlocks[k])
      invariant contentHeight == ContentHeight(measuredBlocks)
    {
      var measured := MeasureBlock(blocks[i], fonts, textMaxWidth);
      ContentHeightAppend(measuredBlocks, measured);
      measuredBlocks := measuredBlocks + [measured];
      contentHeight := contentHeight + MeasuredHeight(measured);
    }
    bubbleHeight := contentHeight + BUBBLE_PADDING_Y * 2;
  }

  function BubbleHeight(blocks: seq<Measured>): int {
    ContentHeight(blocks) + BUBBLE_PADDING_Y * 2
  }

  lemma {:induction false} ContentHeightAppend(blocks: seq<Measured>, block: Measured)
    ensures ContentHeight(blocks + [block]) == ContentHeight(blocks) + MeasuredHeight(block)
  {
    if blocks == [] {
      assert blocks + [block] == [block];
    } else {
      assert (blocks + [block])[1..] == blocks[1..] + [block];
      ContentHeightAppend(blocks[1..], block);
    }
  }

  // ----- What measuring keeps of the text

  lemma WrappedFits(text: string, width: string -> real, maxWidth: real)
    ensures Erase(Concat(TextWrap.Wrapped(text, width, maxWidth))) == Erase(text)
    ensures forall i :: 0 <= i < |TextWrap.Wrapped(text, width, maxWidth)| ==>
                          Fits(TextWrap.Wrapped(text, width, maxWidth)[i], width, maxWidth)
  {
    TextWrap.WrapConserves(text, width, maxWidth);
    forall i | 0 <= i < |TextWrap.Wrapped(text, width, maxWidth)|
      ensures Fits(TextWrap.Wrapped(text, width, maxWidth)[i], width, maxWidth)
    {
      TextWrap.WrapFits(text, width, maxWidth, i);
    }
  }

  predicate Fits(line: string, width: string -> real, maxWidth: real) {
    width(line) <= maxWidth || |line| == 1
  }

  /** `lines` hold the text of `text` in lines that fit, up to white space. */
  predicate Carries(lines: seq<string>, text: string, width: string -> real, maxWidth: real) {
    && Erase(Concat(lines)) == Erase(text)
    && forall i :: 0 <= i < |lines| ==> Fits(lines[i], width, maxWidth)
  }

  lemma {:induction false} CodeLinesCarry(texts: seq<string>, fonts: Fonts, maxWidth: real)
    ensures Erase(Concat(CodeLines(texts, fonts, maxWidth))) == Erase(Concat(texts))
    ensures forall i :: 0 <= i < |CodeLines(texts, fonts, maxWidth)| ==>
                          Fits(CodeLines(texts, fonts, maxWidth)[i], fonts.code, maxWidth)
  {
    if texts != [] {
      var first, rest := TextWrap.Wrapped(texts[0], fonts.code, maxWidth), CodeLines(texts[1..], fonts, maxWidth);
      WrappedFits(texts[0], fonts.code, maxWidth);
      CodeLinesCarry(texts[1..], fonts, maxWidth);
      ConcatAppend(first, rest);
      EraseConcat(Concat(first), Concat(rest));
      EraseConcat(texts[0], Concat(texts[1..]));
    }
  }

  /** The cell of a row in a column, or nothing if the row ends before it. */
  function CellText(row: seq<string>, col: nat): string {
    if col < |row| then row[col] else ""
  }

  /** The cells of a measured row carry the texts of the row, each in its column less 22 pixels. */
  predicate RowCarries(cells: seq<seq<string>>, row: seq<string>, colWidths: seq<int>, fonts: Fonts) {
    && |cells| == |colWidths|
    && forall col :: 0 <= col < |cells| ==>
                       Carries(cells[col], CellText(row, col), fonts.body, Max(1, colWidths[col] - 22) as real)
  }

  lemma WrappedRowCarries(row: seq<string>, colWidths: seq<int>, fonts: Fonts)
    requires |row| <= |colWidths|
    ensures RowCarries(WrapRow(Columns.Padded(row, |colWidths|), colWidths, fonts), row, colWidths, fonts)
  {
    var padded := Columns.Padded(row, |colWidths|);
    forall col | 0 <= col < |colWidths|
      ensures Carries(WrapRow(padded, colWidths, fonts)[col], CellText(row, col), fonts.body,
                      Max(1, colWidths[col] - 22) as real)
    {
      WrappedFits(padded[col], fonts.body, Max(1, colWidths[col] - 22) as real);
    }
  }

  /**
   What a measured block shows is what the parsed one says: its text in lines that fit the width of
   the bubble in the block's font, for code less 18 pixels, and for a table cell by cell.
   */
  ghost predicate Conveys(measured: Measured, block: MarkdownBlocks.Block, fonts: Fonts, textMaxWidth: int) {
    && (block.Heading? ==>
          && measured.Heading? && measured.level == block.level
          && Carries(measured.lines, block.text,
                     if block.level == 1 || block.level == 2 then fonts.heading1 else fonts.heading2,
                     textMaxWidth as real))
    && (block.Paragraph? ==>
          measured.Paragraph? && Carries(measured.lines, block.text, fonts.body, textMaxWidth as real))
    && (block.Code? ==>
          measured.Code? && Carries(measured.lines, block.text, fonts.code, (textMaxWidth - 18) as real))
    && (block.Table? ==>
          && measured.Table? && |measured.rowCells| == |block.rows|
          && RowCarries(measured.headerCells, block.header, measured.colWidths, fonts)
          && forall r :: 0 <= r < |block.rows| ==>
                           RowCarries(measured.rowCells[r], block.rows[r], measured.colWidths, fonts))
  }

  lemma MeasuredConveys(measured: Measured, block: MarkdownBlocks.Block, fonts: Fonts, textMaxWidth: int)
    requires Shows(measured, block, fonts, textMaxWidth)
    requires block.Heading? ==> block.level >= 1
    ensures Conveys(measured, block, fonts, textMaxWidth)
  {
    hide Fits, Erase, Concat, TextWrap.Wrapped, WrapRow;
    match block
    case Heading(level, text) => WrappedFits(text, HeadingFont(level, fonts), textMaxWidth as real);
    case Paragraph(text) => WrappedFits(text, fonts.body, textMaxWidth as real);
    case Code(text) =>
      CodeLinesCarry(Split(text, '\n'), fonts, (textMaxWidth - 18) as real);
      JoinSplit(text, '\n');
      EraseJoin(Split(text, '\n'));
    case Table(header, rows) => TableConveys(measured, header, rows, fonts, textMaxWidth);
  }

  lemma TableConveys(measured: Measured, header: seq<string>, rows: seq<seq<string>>, fonts: Fonts, room: int)
    requires ShowsTable(measured, header, rows, fonts, room)
    ensures RowCarries(measured.headerCells, header, measured.colWidths, fonts) && |measured.rowCells| == |rows|
    ensures forall r :: 0 <= r < |rows| ==> RowCarries(measured.rowCells[r], rows[r], measured.colWidths, fonts)
  {
    hide RowCarries, WrapRow;
    var columns := Columns.Columns(header, rows);
    Columns.MaxLengthBounds(rows, Max(|header|, 1));
    WrappedRowCarries(header, measured.colWidths, fonts);
    forall r | 0 <= r < |rows| ensures RowCarries(measured.rowCells[r], rows[r], measured.colWidths, fonts) {
      WrappedRowCarries(rows[r], measured.colWidths, fonts);
    }
  }

  // ----- Heights in pixels

  lemma {:induction false} RowLinesReached(cells: seq<seq<string>>)
    ensures RowLines(cells) == 1 || exists i :: 0 <= i < |cells| && |cells[i]| == RowLines(cells)
  {
    if cells != [] {
      RowLinesReached(cells[1..]);
      if |cells[0]| == RowLines(cells) {
      } else if i :| 0 <= i < |cells[1..]| && |cells[1..][i]| == RowLines(cells[1..]) {
        assert |cells[i + 1]| == RowLines(cells);
      }
    }
  }

  /** A row is twenty pixels high for every line of its longest cell, at least one, and eight above and below. */
  lemma RowHeightMeaning(cells: seq<seq<string>>)
    ensures exists n :: && n >= 1 && RowHeight(cells) == 20 * n + 16
                        && (forall i :: 0 <= i < |cells| ==> |cells[i]| <= n)
                        && (n == 1 || exists i :: 0 <= i < |cells| && |cells[i]| == n)
  {
    RowLinesReached(cells);
    assert RowHeight(cells) == 20 * RowLines(cells) + 16;
  }

  /** The pixels every block adds to the height of its message, and those of the padding around them all. */
  lemma HeightMeaning(blocks: seq<Measured>, block: Measured)
    requires WellMeasured(block)
    ensures BubbleHeight([]) == 24
    ensures BubbleHeight(blocks + [block]) == BubbleHeight(blocks) +
            (match block
             case Heading(_, lines, _) => 22 * |lines| + 12
             case Code(lines, _) => 18 * Max(1, |lines|) + 24
             case Table(_, headerCells, rowCells, _, _) => Columns.Sum(RowHeights([headerCells] + rowCells)) + 11
             case Paragraph(lines, _) => 20 * Max(1, |lines|) + 6)
  {
    ContentHeightAppend(blocks, block);
  }

  lemma RowsTall(rows: seq<seq<seq<string>>>)
    ensures Columns.Sum(RowHeights(rows)) >= 36 * |rows|
  {
    Columns.SumAtLeast(RowHeights(rows), 36);
  }

  /** A measured message is never lower than its padding. */
  lemma {:induction false} BubbleHeightAtLeast(blocks: seq<Measured>)
    requires forall i :: 0 <= i < |blocks| ==> WellMeasured(blocks[i])
    ensures BubbleHeight(blocks) >= 2 * BUBBLE_PADDING_Y + 12 * |blocks|
  {
    if blocks != [] {
      if blocks[0].Table? {
        RowsTall([blocks[0].headerCells] + blocks[0].rowCells);
      }
      BubbleHeightAtLeast(blocks[1..]);
    }
  }
}
