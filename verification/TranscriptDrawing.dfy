/**
 The second pass over the messages of the transcript image: it draws what the first pass measured,
 moving a cursor down. Nothing compares the two at run time.
 */
module TranscriptDrawing {
  import opened Common
  import opened TranscriptLayout
  import Text
  import TextWrap
  import MarkdownBlocks
  import Columns = TableColumns

  const OUTER_PADDING: int := 24
  const BUBBLE_PADDING_X: int := 14
  const HEADER_HEIGHT: int := 64
  const FOOTER_HEIGHT: int := 18
  const MESSAGE_GAP: int := 14
  const MAX_CANVAS_HEIGHT: int := 24000
  const MAX_DIMENSION: int := 16384

  // ----- What is painted where

  /** What is put on the canvas: a line of text at a baseline, or a box. */
  datatype Paint = Line(text: string, baseline: int) | Box(top: int, height: int)

  function Top(paint: Paint): int {
    if paint.Line? then paint.baseline else paint.top
  }

  function Bottom(paint: Paint): int {
    if paint.Line? then paint.baseline else paint.top + paint.height
  }

  /** Every painted thing lies between `top` and `bottom`. */
  predicate PaintedWithin(paints: seq<Paint>, top: int, bottom: int) {
    forall i :: 0 <= i < |paints| ==> top <= Top(paints[i]) && Bottom(paints[i]) <= bottom
  }

  /** How far line `i` is below the first. */
  function Down(i: nat, step: int): int {
    if i == 0 then 0 else Down(i - 1, step) + step
  }

  lemma {:induction false} DownIs(i: nat, step: int)
    ensures Down(i, step) == i * step
  {
    if i > 0 {
      DownIs(i - 1, step);
      Columns.Distribute(i - 1, 1, step);
    }
  }

  function LinePaints(lines: seq<string>, top: int, offset: int, step: int): seq<Paint> {
    seq(|lines|, i requires 0 <= i < |lines| => Line(lines[i], top + Down(i, step) + offset))
  }

  function CellPaints(lines: seq<string>, rowY: int, rowH: int): seq<Paint> {
    [Box(rowY, rowH)] + LinePaints(lines, rowY + CELL_PADDING_Y, LINE_BODY - 6, LINE_BODY)
  }

  /** All cells of a row, each a box with its lines. */
  function RowPaints(cells: seq<seq<string>>, rowY: int, rowH: int): seq<Paint> {
    if cells == [] then []
    else
      var last := |cells| - 1;
      RowPaints(cells[..last], rowY, rowH) + CellPaints(cells[last], rowY, rowH)
  }

  function TablePaints(rows: seq<seq<seq<string>>>, top: int): seq<Paint> {
    if rows == [] then []
    else
      var last := |rows| - 1;
      TablePaints(rows[..last], top)
      + RowPaints(rows[last], top + Columns.Sum(RowHeights(rows[..last])), RowHeight(rows[last]))
  }

  function BlockPaints(block: Measured, top: int): seq<Paint> {
    match block
    case Heading(_, lines, _) => LinePaints(lines, top + 2, LINE_HEADING - 6, LINE_HEADING)
    case Code(lines, height) => [Box(top, height)] + LinePaints(lines, top + 8, LINE_CODE - 6, LINE_CODE)
    case Table(_, headerCells, rowCells, _, _) => TablePaints([headerCells] + rowCells, top)
    case Paragraph(lines, _) => LinePaints(lines, top, LINE_BODY - 6, LINE_BODY)
  }

  /** How far the drawing pass moves the cursor for a block. */
  function DrawnHeight(block: Measured): int {
    match block
    case Heading(_, lines, _) => 2 + |lines| * LINE_HEADING + 8
    case Code(_, height) => height + 10
    case Table(_, _, _, _, height) => height + 10
    case Paragraph(lines, _) => |lines| * LINE_BODY + 6
  }

  function CursorAfter(blocks: seq<Measured>, cursorY: int): int {
    if blocks == [] then cursorY else CursorAfter(blocks[1..], cursorY + DrawnHeight(blocks[0]))
  }

  function MessagePaints(blocks: seq<Measured>, top: int): seq<Paint> {
    if blocks == [] then []
    else
      var last := |blocks| - 1;
      MessagePaints(blocks[..last], top) + BlockPaints(blocks[last], CursorAfter(blocks[..last], top))
  }

  // ----- The drawing loops

  method DrawLines(lines: seq<string>, top: int, offset: int, step: int) returns (paints: seq<Paint>, y: int)
    ensures paints == LinePaints(lines, top, offset, step)
    ensures y == top + |lines| * step
  {
    paints, y := [], top;
    for i := 0 to |lines|
      invariant y == top + Down(i, step)
      invariant paints == LinePaints(lines[..i], top, offset, step)
    {
      paints := paints + [Line(lines[i], y + offset)];
      y := y + step;
    }
    assert lines[..|lines|] == lines;
    DownIs(|lines|, step);
  }

  method DrawRow(cells: seq<seq<string>>, rowY: int, rowH: int) returns (paints: seq<Paint>)
    ensures paints == RowPaints(cells, rowY, rowH)
  {
    paints := [];
    for col := 0 to |cells|
      invariant paints == RowPaints(cells[..col], rowY, rowH)
    {
      var lines, _ := DrawLines(cells[col], rowY + CELL_PADDING_Y, LINE_BODY - 6, LINE_BODY);
      assert cells[..col + 1][..col] == cells[..col];
      paints := paints + ([Box(rowY, rowH)] + lines);
    }
    assert cells[..|cells|] == cells;
  }

  lemma SumAt(rows: seq<seq<seq<string>>>, r: nat)
    requires r < |rows|
    ensures Columns.Sum(RowHeights(rows[..r + 1])) == Columns.Sum(RowHeights(rows[..r])) + RowHeight(rows[r])
  {
    assert RowHeights(rows[..r + 1]) == RowHeights(rows[..r]) + [RowHeight(rows[r])];
    Columns.SumAppend(RowHeights(rows[..r]), RowHeight(rows[r]));
  }

  method DrawTable(block: Measured, cursorY: int) returns (paints: seq<Paint>)
    requires block.Table? && WellMeasured(block)
    ensures paints == BlockPaints(block, cursorY)
  {
    var rows := [block.headerCells] + block.rowCells;
    paints := [];
    var rowY := cursorY;
    for r := 0 to |rows|
      invariant rowY == cursorY + Columns.Sum(RowHeights(rows[..r]))
      invariant paints == TablePaints(rows[..r], cursorY)
    {
      var row := DrawRow(rows[r], rowY, block.rowHeights[r]);
      SumAt(rows, r);
      assert rows[..r + 1][..r] == rows[..r];
      paints := paints + row;
      rowY := rowY + block.rowHeights[r];
    }
    assert rows[..|rows|] == rows;
  }

  method DrawBlock(block: Measured, top: int) returns (paints: seq<Paint>, cursorY: int)
    requires WellMeasured(block)
    ensures paints == BlockPaints(block, top)
    ensures cursorY == top + DrawnHeight(block)
  {
    cursorY := top;
    match block
    case Heading(_, lines, _) =>
      cursorY := cursorY + 2;
      paints, cursorY := DrawLines(lines, cursorY, LINE_HEADING - 6, LINE_HEADING);
      cursorY := cursorY + 8;
    case Code(lines, height) =>
      var drawn, _ := DrawLines(lines, cursorY + 8, LINE_CODE - 6, LINE_CODE);
      paints := [Box(cursorY, height)] + drawn;
      cursorY := cursorY + height + 10;
    case Table(_, _, _, _, height) =>
      paints := DrawTable(block, cursorY);
      cursorY := cursorY + height + 10;
    case Paragraph(lines, _) =>
      paints, cursorY := DrawLines(lines, cursorY, LINE_BODY - 6, LINE_BODY);
      cursorY := cursorY + 6;
  }

  lemma {:induction false} CursorAppend(blocks: seq<Measured>, block: Measured, cursorY: int)
    ensures CursorAfter(blocks + [block], cursorY) == CursorAfter(blocks, cursorY) + DrawnHeight(block)
  {
    if blocks == [] {
      assert blocks + [block] == [block] && [block][1..] == [];
    } else {
      assert (blocks + [block])[1..] == blocks[1..] + [block];
      CursorAppend(blocks[1..], block, cursorY + DrawnHeight(blocks[0]));
    }
  }

  predicate AllWellMeasured(blocks: seq<Measured>) {
    forall k :: 0 <= k < |blocks| ==> WellMeasured(blocks[k])
  }

  lemma NothingPainted(top: int)
    ensures MessagePaints([], top) == [] && CursorAfter([], top) == top
  {
  }

  lemma NextPainted(blocks: seq<Measured>, k: nat, top: int)
    requires k < |blocks|
    ensures CursorAfter(blocks[..k + 1], top) == CursorAfter(blocks[..k], top) + DrawnHeight(blocks[k])
    ensures MessagePaints(blocks[..k + 1], top) ==
            MessagePaints(blocks[..k], top) + BlockPaints(blocks[k], CursorAfter(blocks[..k], top))
  {
    hide DrawnHeight, BlockPaints, CursorAfter;
    assert blocks[..k + 1] == blocks[..k] + [blocks[k]];
    CursorAppend(blocks[..k], blocks[k], top);
    assert blocks[..k + 1][..k] == blocks[..k];
  }

  /** Draws one message whose bubble starts at `y`. */
  method DrawMessage(blocks: seq<Measured>, y: int) returns (paints: seq<Paint>, cursorY: int)
    requires AllWellMeasured(blocks)
    ensures paints == MessagePaints(blocks, y + BUBBLE_PADDING_Y)
    ensures cursorY == CursorAfter(blocks, y + BUBBLE_PADDING_Y)
  {
    hide WellMeasured, DrawnHeight, BlockPaints, CursorAfter, MessagePaints;
    paints := [];
    cursorY := y + BUBBLE_PADDING_Y;
    NothingPainted(cursorY);
    for k := 0 to |blocks|
      invariant cursorY == CursorAfter(blocks[..k], y + BUBBLE_PADDING_Y)
      invariant paints == MessagePaints(blocks[..k], y + BUBBLE_PADDING_Y)
    {
      var painted;
      painted, cursorY := DrawBlock(blocks[k], cursorY);
      NextPainted(blocks, k, y + BUBBLE_PADDING_Y);
      paints := paints + painted;
    }
    assert blocks[..|blocks|] == blocks;
  }

  // ----- Where it is, in pixels

  lemma LineAt(lines: seq<string>, top: int, offset: int, step: int, i: nat)
    requires i < |lines|
    ensures |LinePaints(lines, top, offset, step)| == |lines|
    ensures LinePaints(lines, top, offset, step)[i] == Line(lines[i], top + i * step + offset)
  {
    DownIs(i, step);
  }

  /** Line `i` of a block that starts at `top`, and the box of code. */
  lemma BlockPaintsAt(block: Measured, top: int, i: nat)
    requires WellMeasured(block) && !block.Table? && i < |block.lines|
    ensures block.Heading? ==> BlockPaints(block, top)[i..i + 1] == [Line(block.lines[i], top + 22 * i + 18)]
    ensures block.Paragraph? ==> BlockPaints(block, top)[i..i + 1] == [Line(block.lines[i], top + 20 * i + 14)]
    ensures block.Code? ==>
              && BlockPaints(block, top)[i + 1..i + 2] == [Line(block.lines[i], top + 18 * i + 20)]
              && BlockPaints(block, top)[0] == Box(top, 18 * Max(1, |block.lines|) + 16)
  {
    hide LinePaints;
    match block
    case Heading(_, lines, _) => LineAt(lines, top + 2, LINE_HEADING - 6, LINE_HEADING, i);
    case Code(lines, _) => LineAt(lines, top + 8, LINE_CODE - 6, LINE_CODE, i);
    case Paragraph(lines, _) => LineAt(lines, top, LINE_BODY - 6, LINE_BODY, i);
  }

  lemma {:induction false} CellAt(cells: seq<seq<string>>, rowY: int, rowH: int, col: nat, i: nat)
    requires col < |cells| && i < |cells[col]|
    ensures Box(rowY, rowH) in RowPaints(cells, rowY, rowH)
    ensures Line(cells[col][i], rowY + 20 * i + 22) in RowPaints(cells, rowY, rowH)
    decreases |cells|
  {
    hide LinePaints;
    var last := |cells| - 1;
    if col < last {
      CellAt(cells[..last], rowY, rowH, col, i);
    } else {
      LineAt(cells[last], rowY + CELL_PADDING_Y, LINE_BODY - 6, LINE_BODY, i);
      assert CellPaints(cells[last], rowY, rowH)[0] == Box(rowY, rowH);
      assert CellPaints(cells[last], rowY, rowH)[i + 1] == Line(cells[last][i], rowY + 20 * i + 22);
    }
  }

  /** Line `i` of a cell in row `r` of a table: below the rows before it, in a box as high as its row. */
  lemma {:induction false} TableCellAt(rows: seq<seq<seq<string>>>, top: int, r: nat, col: nat, i: nat)
    requires r < |rows| && col < |rows[r]| && i < |rows[r][col]|
    ensures var rowY := top + Columns.Sum(RowHeights(rows[..r]));
            && Box(rowY, RowHeight(rows[r])) in TablePaints(rows, top)
            && Line(rows[r][col][i], rowY + 20 * i + 22) in TablePaints(rows, top)
    decreases |rows|
  {
    hide RowPaints, Columns.Sum, RowHeight;
    var last := |rows| - 1;
    if r < last {
      TableCellAt(rows[..last], top, r, col, i);
      assert rows[..last][..r] == rows[..r];
    } else {
      CellAt(rows[last], top + Columns.Sum(RowHeights(rows[..last])), RowHeight(rows[last]), col, i);
    }
  }

  /** How many pixels the cursor moves for a block, and that the block is painted where the cursor was. */
  lemma CursorMeaning(blocks: seq<Measured>, block: Measured, top: int)
    requires WellMeasured(block)
    ensures CursorAfter([], top) == top
    ensures CursorAfter(blocks + [block], top) == CursorAfter(blocks, top) +
            (match block
             case Heading(_, lines, _) => 22 * |lines| + 10
             case Code(lines, _) => 18 * Max(1, |lines|) + 26
             case Table(_, headerCells, rowCells, _, _) => Columns.Sum(RowHeights([headerCells] + rowCells)) + 11
             case Paragraph(lines, _) => 20 * |lines| + 6)
    ensures MessagePaints(blocks + [block], top) ==
            MessagePaints(blocks, top) + BlockPaints(block, CursorAfter(blocks, top))
  {
    CursorAppend(blocks, block, top);
    NextPainted(blocks + [block], |blocks|, top);
    assert (blocks + [block])[..|blocks|] == blocks && (blocks + [block])[..|blocks| + 1] == blocks + [block];
  }

  // ----- Every line once and in order

  /** The texts of the painted lines, in order. */
  function LinesOf(paints: seq<Paint>): seq<string> {
    if paints == [] then []
    else (if paints[0].Line? then [paints[0].text] else []) + LinesOf(paints[1..])
  }

  lemma {:induction false} LinesOfAppend(a: seq<Paint>, b: seq<Paint>)
    ensures LinesOf(a + b) == LinesOf(a) + LinesOf(b)
  {
    if a == [] {
      assert a + b == b;
    } else {
      assert (a + b)[1..] == a[1..] + b;
      LinesOfAppend(a[1..], b);
    }
  }

  lemma {:induction false} FlattenAppend<T>(groups: seq<seq<T>>, group: seq<T>)
    ensures TextWrap.Flatten(groups + [group]) == TextWrap.Flatten(groups) + group
  {
    if groups == [] {
      assert groups + [group] == [group] && [group][1..] == [];
    } else {
      assert (groups + [group])[1..] == groups[1..] + [group];
      FlattenAppend(groups[1..], group);
    }
  }

  lemma {:induction false} FlattenSplit<T>(a: seq<seq<T>>, b: seq<seq<T>>)
    ensures TextWrap.Flatten(a + b) == TextWrap.Flatten(a) + TextWrap.Flatten(b)
  {
    if a == [] {
      assert a + b == b;
    } else {
      assert (a + b)[1..] == a[1..] + b;
      FlattenSplit(a[1..], b);
    }
  }

  /** The lines a block has to show, in reading order. */
  function BlockLines(block: Measured): seq<string> {
    match block
    case Heading(_, lines, _) => lines
    case Paragraph(lines, _) => lines
    case Code(lines, _) => lines
    case Table(_, headerCells, rowCells, _, _) => TextWrap.Flatten(TextWrap.Flatten([headerCells] + rowCells))
  }

  function MessageLines(blocks: seq<Measured>): seq<string> {
    TextWrap.Flatten(seq(|blocks|, k requires 0 <= k < |blocks| => BlockLines(blocks[k])))
  }

  lemma {:induction false} LinesShown(lines: seq<string>, top: int, offset: int, step: int)
    ensures LinesOf(LinePaints(lines, top, offset, step)) == lines
    decreases |lines|
  {
    if lines != [] {
      var n := |lines| - 1;
      LinesShown(lines[..n], top, offset, step);
      var last := Line(lines[n], top + Down(n, step) + offset);
      assert LinePaints(lines, top, offset, step) == LinePaints(lines[..n], top, offset, step) + [last];
      LinesOfAppend(LinePaints(lines[..n], top, offset, step), [last]);
      assert LinesOf([last]) == [lines[n]];
    }
  }

  /** A box in front shows no line. */
  lemma BoxedLinesShown(box: Paint, lines: seq<string>, top: int, offset: int, step: int)
    requires box.Box?
    ensures LinesOf([box] + LinePaints(lines, top, offset, step)) == lines
  {
    LinesShown(lines, top, offset, step);
    assert ([box] + LinePaints(lines, top, offset, step))[1..] == LinePaints(lines, top, offset, step);
  }

  lemma NothingShown()
    ensures LinesOf([]) == [] && TextWrap.Flatten<string>([]) == [] && TextWrap.Flatten<seq<string>>([]) == []
  {
  }

  lemma {:induction false} RowShown(cells: seq<seq<string>>, rowY: int, rowH: int)
    ensures LinesOf(RowPaints(cells, rowY, rowH)) == TextWrap.Flatten(cells)
    decreases |cells|
  {
    hide LinePaints, LinesOf, TextWrap.Flatten;
    NothingShown();
    if cells != [] {
      var n := |cells| - 1;
      RowShown(cells[..n], rowY, rowH);
      BoxedLinesShown(Box(rowY, rowH), cells[n], rowY + CELL_PADDING_Y, LINE_BODY - 6, LINE_BODY);
      LinesOfAppend(RowPaints(cells[..n], rowY, rowH), CellPaints(cells[n], rowY, rowH));
      FlattenAppend(cells[..n], cells[n]);
      assert cells == cells[..n] + [cells[n]];
    }
  }

  lemma {:induction false} TableShown(rows: seq<seq<seq<string>>>, top: int)
    ensures LinesOf(TablePaints(rows, top)) == TextWrap.Flatten(TextWrap.Flatten(rows))
    decreases |rows|
  {
    hide RowPaints, LinesOf, TextWrap.Flatten, Columns.Sum, RowHeights, RowHeight;
    NothingShown();
    if rows != [] {
      var n := |rows| - 1;
      var rowY, rowH := top + Columns.Sum(RowHeights(rows[..n])), RowHeight(rows[n]);
      TableShown(rows[..n], top);
      RowShown(rows[n], rowY, rowH);
      LinesOfAppend(TablePaints(rows[..n], top), RowPaints(rows[n], rowY, rowH));
      FlattenAppend(rows[..n], rows[n]);
      FlattenSplit(TextWrap.Flatten(rows[..n]), rows[n]);
      assert rows == rows[..n] + [rows[n]];
    }
  }

  lemma BlockShown(block: Measured, top: int)
    ensures LinesOf(BlockPaints(block, top)) == BlockLines(block)
  {
    hide LinesOf, LinePaints, TablePaints, TextWrap.Flatten;
    match block
    case Heading(_, lines, _) => LinesShown(lines, top + 2, LINE_HEADING - 6, LINE_HEADING);
    case Code(lines, height) => BoxedLinesShown(Box(top, height), lines, top + 8, LINE_CODE - 6, LINE_CODE);
    case Table(_, headerCells, rowCells, _, _) => TableShown([headerCells] + rowCells, top);
    case Paragraph(lines, _) => LinesShown(lines, top, LINE_BODY - 6, LINE_BODY);
  }

  /** Every measured line of a message is painted exactly once, in order. */
  lemma {:induction false} MessageShown(blocks: seq<Measured>, top: int)
    ensures LinesOf(MessagePaints(blocks, top)) == MessageLines(blocks)
    decreases |blocks|
  {
    hide LinesOf, BlockPaints, BlockLines, TextWrap.Flatten, CursorAfter;
    NothingShown();
    if blocks != [] {
      var n := |blocks| - 1;
      var cursorY := CursorAfter(blocks[..n], top);
      MessageShown(blocks[..n], top);
      BlockShown(blocks[n], cursorY);
      LinesOfAppend(MessagePaints(blocks[..n], top), BlockPaints(blocks[n], cursorY));
      var groups := seq(n, k requires 0 <= k < n => BlockLines(blocks[..n][k]));
      FlattenAppend(groups, BlockLines(blocks[n]));
      assert seq(|blocks|, k requires 0 <= k < |blocks| => BlockLines(blocks[k])) == groups + [BlockLines(blocks[n])];
    }
  }

  // ----- How far down the paint reaches

  /** The space a block leaves between the last thing it paints and the cursor. */
  function Gap(block: Measured): int {
    match block
    case Heading(_, _, _) => 14
    case Code(_, _) => 10
    case Table(_, _, _, _, _) => 11
    case Paragraph(_, _) => 12
  }

  /** The paints lie between `top` and `bottom`, and one of them ends at `bottom` unless there are none. */
  ghost predicate Spans(paints: seq<Paint>, top: int, bottom: int) {
    && PaintedWithin(paints, top, bottom)
    && (paints != [] ==> exists i :: 0 <= i < |paints| && Bottom(paints[i]) == bottom)
  }

  lemma LinesSpan(lines: seq<string>, top: int, offset: int, step: int)
    requires 0 <= offset && 0 <= step
    ensures Spans(LinePaints(lines, top, offset, step), top, top + |lines| * step - step + offset)
  {
    hide Down;
    var paints, n := LinePaints(lines, top, offset, step), |lines|;
    forall i | 0 <= i < n
      ensures top <= Top(paints[i]) && Bottom(paints[i]) <= top + Down(n - 1, step) + offset
    {
      DownWithin(i, n - 1, step);
    }
    if n > 0 {
      DownIs(n - 1, step);
      Columns.Distribute(n - 1, 1, step);
    }
    assert paints != [] ==> Bottom(paints[n - 1]) == top + Down(n - 1, step) + offset;
  }

  lemma {:induction false} DownWithin(i: nat, n: nat, step: int)
    requires i <= n && 0 <= step
    ensures 0 <= Down(i, step) <= Down(n, step)
  {
    if i < n {
      DownWithin(i, n - 1, step);
    } else if i > 0 {
      DownWithin(i - 1, n - 1, step);
    }
  }

  /** A box around lines that end inside it. */
  lemma BoxSpans(top: int, height: int, lines: seq<string>, padding: int, offset: int, step: int)
    requires 0 <= padding && 0 <= offset && 0 <= step && 0 <= height
    requires padding + |lines| * step - step + offset <= height
    ensures Spans([Box(top, height)] + LinePaints(lines, top + padding, offset, step), top, top + height)
  {
    LinesSpan(lines, top + padding, offset, step);
    hide LinePaints;
    var paints := [Box(top, height)] + LinePaints(lines, top + padding, offset, step);
    assert Bottom(paints[0]) == top + height;
  }

  lemma NothingSpans(top: int, bottom: int)
    ensures Spans([], top, bottom)
  {
  }

  lemma SpansAppend(a: seq<Paint>, b: seq<Paint>, top: int, middle: int, from: int, bottom: int)
    requires PaintedWithin(a, top, middle) && Spans(b, from, bottom)
    requires top <= from && middle <= bottom && b != []
    ensures Spans(a + b, top, bottom)
  {
    var i :| 0 <= i < |b| && Bottom(b[i]) == bottom;
    assert (a + b)[|a| + i] == b[i];
  }

  lemma {:induction false} RowSpans(cells: seq<seq<string>>, rowY: int, rowH: int)
    requires forall i :: 0 <= i < |cells| ==> |cells[i]| * LINE_BODY + CELL_PADDING_Y * 2 <= rowH
    ensures RowPaints(cells, rowY, rowH) == [] <==> cells == []
    ensures Spans(RowPaints(cells, rowY, rowH), rowY, rowY + rowH)
    decreases |cells|
  {
    hide LinePaints, PaintedWithin;
    if cells == [] {
      NothingSpans(rowY, rowY + rowH);
    } else {
      var n := |cells| - 1;
      RowSpans(cells[..n], rowY, rowH);
      BoxSpans(rowY, rowH, cells[n], CELL_PADDING_Y, LINE_BODY - 6, LINE_BODY);
      SpansAppend(RowPaints(cells[..n], rowY, rowH), CellPaints(cells[n], rowY, rowH), rowY, rowY + rowH,
                  rowY, rowY + rowH);
    }
  }

  lemma {:induction false} TableSpans(rows: seq<seq<seq<string>>>, top: int)
    requires forall r :: 0 <= r < |rows| ==> rows[r] != []
    ensures TablePaints(rows, top) == [] <==> rows == []
    ensures Spans(TablePaints(rows, top), top, top + Columns.Sum(RowHeights(rows)))
    decreases |rows|
  {
    hide PaintedWithin, RowPaints, Columns.Sum, RowHeights;
    if rows == [] {
      NothingSpans(top, top + Columns.Sum(RowHeights(rows)));
    } else {
      var n := |rows| - 1;
      var rowY, rowH := top + Columns.Sum(RowHeights(rows[..n])), RowHeight(rows[n]);
      TableSpans(rows[..n], top);
      RowSpans(rows[n], rowY, rowH);
      RowsTall(rows[..n]);
      SumAt(rows, n);
      assert rows[..n + 1] == rows;
      SpansAppend(TablePaints(rows[..n], top), RowPaints(rows[n], rowY, rowH), top, rowY, rowY, rowY + rowH);
    }
  }

  /** A block that paints anything reaches down to exactly its gap above the cursor. */
  lemma BlockSpans(block: Measured, top: int)
    requires WellMeasured(block)
    ensures BlockPaints(block, top) == [] <==> !Paints(block)
    ensures Spans(BlockPaints(block, top), top, top + DrawnHeight(block) - Gap(block))
    ensures DrawnHeight(block) >= Gap(block) || !Paints(block)
    ensures DrawnHeight(block) >= 0 && Gap(block) >= 0
  {
    hide Spans, LinePaints, TablePaints;
    match block
    case Heading(_, lines, _) => LinesSpanLower(lines, top, 2, LINE_HEADING - 6, LINE_HEADING);
    case Code(lines, height) => BoxSpans(top, height, lines, 8, LINE_CODE - 6, LINE_CODE);
    case Table(_, headerCells, rowCells, _, _) =>
      TableSpans([headerCells] + rowCells, top);
      RowsTall([headerCells] + rowCells);
    case Paragraph(lines, _) => LinesSpanLower(lines, top, 0, LINE_BODY - 6, LINE_BODY);
  }

  lemma LinesSpanLower(lines: seq<string>, top: int, down: int, offset: int, step: int)
    requires 0 <= down && 0 <= offset && 0 <= step
    ensures |LinePaints(lines, top + down, offset, step)| == |lines|
    ensures Spans(LinePaints(lines, top + down, offset, step), top, top + down + |lines| * step - step + offset)
  {
    LinesSpan(lines, top + down, offset, step);
  }

  lemma WithinAppend(a: seq<Paint>, b: seq<Paint>, top: int, from: int, to: int, bottom: int)
    requires PaintedWithin(a, top, from) && PaintedWithin(b, from, to)
    requires top <= from <= bottom && to <= bottom
    ensures PaintedWithin(a + b, top, bottom)
  {
  }

  lemma {:induction false} MessageWithinCursor(blocks: seq<Measured>, top: int)
    requires AllWellMeasured(blocks)
    ensures PaintedWithin(MessagePaints(blocks, top), top, CursorAfter(blocks, top)) && top <= CursorAfter(blocks, top)
    decreases |blocks|
  {
    hide WellMeasured, DrawnHeight, BlockPaints, Gap, PaintedWithin, Paints;
    if blocks == [] {
      NothingSpans(top, top);
      assert PaintedWithin([], top, top);
    } else {
      var n := |blocks| - 1;
      var cursorY := CursorAfter(blocks[..n], top);
      MessageWithinCursor(blocks[..n], top);
      BlockSpans(blocks[n], cursorY);
      assert blocks == blocks[..n] + [blocks[n]];
      CursorAppend(blocks[..n], blocks[n], top);
      WithinAppend(MessagePaints(blocks[..n], top), BlockPaints(blocks[n], cursorY), top, cursorY,
                   cursorY + DrawnHeight(blocks[n]) - Gap(blocks[n]), CursorAfter(blocks, top));
    }
  }

  function Last(blocks: seq<Measured>): Measured
    requires blocks != []
  {
    blocks[|blocks| - 1]
  }

  /** The paint of a message ends exactly at the gap of its last block above the final cursor. */
  lemma MessageSpans(blocks: seq<Measured>, top: int)
    requires blocks != [] && AllWellMeasured(blocks) && Paints(Last(blocks))
    ensures MessagePaints(blocks, top) != []
    ensures Spans(MessagePaints(blocks, top), top, CursorAfter(blocks, top) - Gap(Last(blocks)))
  {
    hide WellMeasured, DrawnHeight, BlockPaints, CursorAfter, Gap, Paints;
    var n := |blocks| - 1;
    var cursorY := CursorAfter(blocks[..n], top);
    MessageWithinCursor(blocks[..n], top);
    BlockSpans(blocks[n], cursorY);
    assert blocks == blocks[..n] + [blocks[n]];
    CursorAppend(blocks[..n], blocks[n], top);
    SpansAppend(MessagePaints(blocks[..n], top), BlockPaints(blocks[n], cursorY), top, cursorY, cursorY,
                cursorY + DrawnHeight(blocks[n]) - Gap(blocks[n]));
  }

  // ----- How far the passes drift apart

  /** Code blocks less headings. */
  function Lead(blocks: seq<Measured>): int {
    if blocks == [] then 0
    else (if blocks[0].Code? then 1 else if blocks[0].Heading? then -1 else 0) + Lead(blocks[1..])
  }

  predicate Measurable(blocks: seq<Measured>) {
    forall i :: 0 <= i < |blocks| ==> WellMeasured(blocks[i]) && HasLines(blocks[i])
  }

  /** The cursor ends where the measured height puts it, plus two for every code block less every heading. */
  lemma {:induction false} CursorDrift(blocks: seq<Measured>, cursorY: int)
    requires Measurable(blocks)
    ensures CursorAfter(blocks, cursorY) == cursorY + ContentHeight(blocks) + 2 * Lead(blocks)
  {
    if blocks != [] {
      CursorDrift(blocks[1..], cursorY + DrawnHeight(blocks[0]));
    }
  }

  /** The final cursor is inside the bubble exactly when code blocks outnumber headings by at most six. */
  lemma CursorInsideIff(blocks: seq<Measured>, y: int)
    requires Measurable(blocks)
    ensures CursorAfter(blocks, y + BUBBLE_PADDING_Y) <= y + BubbleHeight(blocks) <==> Lead(blocks) <= 6
  {
    CursorDrift(blocks, y + BUBBLE_PADDING_Y);
  }

  /** How far below its bubble the paint of a message ends; negative if it ends above the edge. */
  function Overshoot(blocks: seq<Measured>): int
    requires blocks != []
  {
    2 * Lead(blocks) - Gap(Last(blocks)) - BUBBLE_PADDING_Y
  }

  /** The paint of a message ends exactly its overshoot below its bubble. */
  lemma PaintEnds(blocks: seq<Measured>, y: int)
    requires Measurable(blocks) && blocks != [] && Paints(Last(blocks))
    ensures Spans(MessagePaints(blocks, y + BUBBLE_PADDING_Y), y + BUBBLE_PADDING_Y,
                  y + BubbleHeight(blocks) + Overshoot(blocks))
    ensures MessagePaints(blocks, y + BUBBLE_PADDING_Y) != []
  {
    hide WellMeasured, Spans;
    MessageSpans(blocks, y + BUBBLE_PADDING_Y);
    CursorDrift(blocks, y + BUBBLE_PADDING_Y);
  }

  /** The most code blocks may outnumber headings by, given the block the message ends with. */
  function MostLead(last: Measured): int {
    match last
    case Heading(_, _, _) => 13
    case Paragraph(_, _) => 12
    case Code(_, _) => 11
    case Table(_, _, _, _, _) => 11
  }

  predicate FitsBubble(blocks: seq<Measured>) {
    blocks == [] || Lead(blocks) <= MostLead(Last(blocks))
  }

  /** Everything drawn stays inside the bubble exactly when the lead is within what the last block allows. */
  lemma PaintInsideIff(blocks: seq<Measured>, y: int)
    requires Measurable(blocks) && (blocks != [] ==> Paints(Last(blocks)))
    ensures PaintedWithin(MessagePaints(blocks, y + BUBBLE_PADDING_Y), y, y + BubbleHeight(blocks)) <==>
            FitsBubble(blocks)
  {
    if blocks != [] {
      PaintEnds(blocks, y);
      hide MessagePaints, BubbleHeight, Lead;
      var paints, end := MessagePaints(blocks, y + BUBBLE_PADDING_Y), y + BubbleHeight(blocks) + Overshoot(blocks);
      var i :| 0 <= i < |paints| && Bottom(paints[i]) == end;
    }
  }

  lemma {:induction false} LeadOfCode(blocks: seq<Measured>)
    requires forall i :: 0 <= i < |blocks| ==> blocks[i].Code?
    ensures Lead(blocks) == |blocks|
  {
    if blocks != [] {
      LeadOfCode(blocks[1..]);
    }
  }

  /** In a message of nothing but code, the box of the last block ends 2n - 22 pixels below the bubble. */
  lemma LastCodeBox(blocks: seq<Measured>, y: int)
    requires blocks != [] && Measurable(blocks)
    requires forall i :: 0 <= i < |blocks| ==> blocks[i].Code?
    ensures var top := y + BUBBLE_PADDING_Y;
            var box := Box(CursorAfter(blocks[..|blocks| - 1], top), Last(blocks).height);
            && box in MessagePaints(blocks, top)
            && Bottom(box) == y + BubbleHeight(blocks) + 2 * |blocks| - 22
  {
    var top, n := y + BUBBLE_PADDING_Y, |blocks| - 1;
    CursorDrift(blocks, top);
    LeadOfCode(blocks);
    NextPainted(blocks, n, top);
    assert blocks[..n + 1] == blocks;
    var cursorY := CursorAfter(blocks[..n], top);
    assert BlockPaints(blocks[n], cursorY)[0] == Box(cursorY, blocks[n].height);
  }

  // ----- The canvas

  /** The bubbles below each other, each followed by a gap. */
  function Stacked(heights: seq<nat>): nat {
    if heights == [] then 0 else heights[0] + MESSAGE_GAP + Stacked(heights[1..])
  }

  datatype Canvas = TooLong | Canvas(height: int, scale: int)

  function CanvasHeight(heights: seq<nat>): nat {
    OUTER_PADDING + HEADER_HEIGHT + MESSAGE_GAP + Stacked(heights) + FOOTER_HEIGHT + OUTER_PADDING
  }

  function Scale(width: int, height: int): int
    requires width > 0 && height > 0
  {
    var maxScaleW, maxScaleH := Max(1, MAX_DIMENSION / width), Max(1, MAX_DIMENSION / height);
    Max(1, Min(2, Min(maxScaleW, maxScaleH)))
  }

  lemma {:induction false} StackedAppend(heights: seq<nat>, h: nat)
    ensures Stacked(heights + [h]) == Stacked(heights) + h + MESSAGE_GAP
  {
    if heights == [] {
      assert heights + [h] == [h] && [h][1..] == [];
    } else {
      assert (heights + [h])[1..] == heights[1..] + [h];
      StackedAppend(heights[1..], h);
    }
  }

  lemma {:induction false} StackedMonotone(heights: seq<nat>, i: nat, j: nat)
    requires i <= j <= |heights|
    ensures Stacked(heights[..i]) <= Stacked(heights[..j])
    decreases j - i
  {
    if i < j {
      StackedMonotone(heights, i, j - 1);
      assert heights[..j] == heights[..j - 1] + [heights[j - 1]];
      StackedAppend(heights[..j - 1], heights[j - 1]);
    }
  }

  function CanvasFor(heights: seq<nat>, width: nat): Canvas
    requires 720 <= width <= 1100
  {
    if CanvasHeight(heights) > MAX_CANVAS_HEIGHT then TooLong
    else Canvas(CanvasHeight(heights), Scale(width, CanvasHeight(heights)))
  }

  /** The height of the canvas and its scale, or the refusal to draw a chat that is too long. */
  method SizeCanvas(heights: seq<nat>, width: nat) returns (canvas: Canvas)
    requires 720 <= width <= 1100
    ensures canvas == CanvasFor(heights, width)
  {
    var height := OUTER_PADDING + HEADER_HEIGHT + MESSAGE_GAP;
    for i := 0 to |heights|
      invariant height == OUTER_PADDING + HEADER_HEIGHT + MESSAGE_GAP + Stacked(heights[..i]) >= MESSAGE_GAP
    {
      assert heights[..i + 1] == heights[..i] + [heights[i]];
      StackedAppend(heights[..i], heights[i]);
      height := height + heights[i] + MESSAGE_GAP;
    }
    assert heights[..|heights|] == heights;
    height := height + (FOOTER_HEIGHT + OUTER_PADDING);
    if height > MAX_CANVAS_HEIGHT {
      return TooLong;
    }
    canvas := Canvas(height, Scale(width, height));
  }

  function BubbleTop(heights: seq<nat>, i: nat): int
    requires i <= |heights|
  {
    OUTER_PADDING + HEADER_HEIGHT + Stacked(heights[..i])
  }

  /** Bubbles do not overlap, start below the header and end above the footer. */
  lemma BubblesDisjointInside(heights: seq<nat>, i: nat, j: nat)
    requires i < |heights| && j < |heights|
    ensures i < j ==> BubbleTop(heights, i) + heights[i] + MESSAGE_GAP <= BubbleTop(heights, j)
    ensures OUTER_PADDING + HEADER_HEIGHT <= BubbleTop(heights, i)
    ensures BubbleTop(heights, i) + heights[i] + 2 * MESSAGE_GAP + FOOTER_HEIGHT + OUTER_PADDING <=
            CanvasHeight(heights)
  {
    assert heights[..i + 1] == heights[..i] + [heights[i]];
    StackedAppend(heights[..i], heights[i]);
    StackedMonotone(heights, 0, i);
    StackedMonotone(heights, i + 1, |heights|);
    assert heights[..|heights|] == heights;
    if i < j {
      StackedMonotone(heights, i + 1, j);
    }
  }

  /** The scaled canvas respects the largest dimension exactly when the unscaled height already does. */
  lemma CanvasWithinLimitIff(width: int, height: int)
    requires 720 <= width <= 1100 && 0 < height
    ensures width * Scale(width, height) <= MAX_DIMENSION
    ensures height * Scale(width, height) <= MAX_DIMENSION <==> height <= MAX_DIMENSION
  {
    assert MAX_DIMENSION / width >= 2;
    var q := MAX_DIMENSION / height;
    assert q * height <= MAX_DIMENSION < (q + 1) * height;
    if q == 0 {
      assert Scale(width, height) == 1;
    }
  }

  /** Where bubbles start, and where the canvas ends below the last one. */
  lemma CanvasMeaning(heights: seq<nat>, i: nat)
    requires i < |heights|
    ensures BubbleTop(heights, 0) == 88
    ensures BubbleTop(heights, i + 1) == BubbleTop(heights, i) + heights[i] + 14
    ensures i == |heights| - 1 ==> CanvasHeight(heights) == BubbleTop(heights, i) + heights[i] + 70
  {
    assert heights[..i + 1] == heights[..i] + [heights[i]];
    StackedAppend(heights[..i], heights[i]);
    assert heights[..|heights|] == heights;
    StackedNothing();
    assert heights[..0] == [];
  }

  /** The canvas is refused above 24000 pixels, and drawn at double size while that is at most 16384 pixels high. */
  lemma CanvasForMeaning(heights: seq<nat>, width: nat)
    requires 720 <= width <= 1100
    ensures CanvasFor(heights, width).TooLong? <==> CanvasHeight(heights) > 24000
    ensures var height := CanvasHeight(heights);
            height <= 24000 ==> CanvasFor(heights, width) == Canvas(height, if height <= 8192 then 2 else 1)
  {
    var height := CanvasHeight(heights);
    assert MAX_DIMENSION / width >= 2;
    var q := MAX_DIMENSION / height;
    assert q * height <= MAX_DIMENSION < (q + 1) * height;
    assert height <= 8192 ==> q >= 2;
    assert height > 8192 ==> q <= 1;
  }

  // ----- The whole picture

  /** A drawn message: its rounded rectangle, and what is painted on it. */
  datatype Bubble = Bubble(top: int, height: int, paints: seq<Paint>)

  /** Everything painted on a bubble lies inside it. */
  predicate KeepsToBubble(bubble: Bubble) {
    PaintedWithin(bubble.paints, bubble.top, bubble.top + bubble.height)
  }

  ghost predicate IsMeasured(measured: seq<Measured>, blocks: seq<MarkdownBlocks.Block>, fonts: Fonts,
                             textMaxWidth: int)
  {
    && |measured| == |blocks| && AllWellMeasured(measured)
    && (forall i :: 0 <= i < |blocks| ==> Shows(measured[i], blocks[i], fonts, textMaxWidth))
    && (EmptyFits(fonts, textMaxWidth) ==> forall i :: 0 <= i < |blocks| ==> Paints(measured[i]))
  }

  /** The room for text in a bubble on a canvas of this width. */
  function TextMaxWidth(width: nat): int {
    Min(720, width - OUTER_PADDING * 2) - BUBBLE_PADDING_X * 2
  }

  predicate Ready(measured: seq<seq<Measured>>) {
    forall m :: 0 <= m < |measured| ==> AllWellMeasured(measured[m])
  }

  /** The room for text: 692 pixels, or on a narrower canvas its width less 76. */
  lemma TextMaxWidthMeaning(width: nat)
    ensures TextMaxWidth(width) == if width >= 768 then 692 else width - 76
  {
  }

  function HeightOf(blocks: seq<Measured>): nat
    requires AllWellMeasured(blocks)
  {
    BubbleHeightAtLeast(blocks);
    BubbleHeight(blocks)
  }

  function Heights(measured: seq<seq<Measured>>): seq<nat>
    requires Ready(measured)
  {
    seq(|measured|, m requires 0 <= m < |measured| => HeightOf(measured[m]))
  }

  function BubbleOf(measured: seq<seq<Measured>>, m: nat): Bubble
    requires Ready(measured)
    requires m < |measured|
  {
    var top := BubbleTop(Heights(measured), m);
    Bubble(top, HeightOf(measured[m]), MessagePaints(measured[m], top + BUBBLE_PADDING_Y))
  }

  method MeasureMessages(messages: seq<seq<MarkdownBlocks.Block>>, fonts: Fonts, textMaxWidth: int)
    returns (measured: seq<seq<Measured>>, heights: seq<nat>)
    ensures |measured| == |messages|
    ensures forall m :: 0 <= m < |messages| ==> IsMeasured(measured[m], messages[m], fonts, textMaxWidth)
    ensures Ready(measured)
    ensures heights == Heights(measured)
  {
    hide Shows, WellMeasured, Paints, EmptyFits;
    measured, heights := [], [];
    for m := 0 to |messages|
      invariant |measured| == m
      invariant forall k :: 0 <= k < m ==> IsMeasured(measured[k], messages[k], fonts, textMaxWidth)
      invariant Ready(measured) && heights == Heights(measured)
    {
      var measuredBlocks, bubbleHeight := MeasureMessage(messages[m], fonts, textMaxWidth);
      BubbleHeightAtLeast(measuredBlocks);
      measured := measured + [measuredBlocks];
      heights := heights + [bubbleHeight];
    }
  }

  method DrawBubbles(measured: seq<seq<Measured>>) returns (bubbles: seq<Bubble>)
    requires Ready(measured)
    ensures |bubbles| == |measured|
    ensures forall m :: 0 <= m < |measured| ==> bubbles[m] == BubbleOf(measured, m)
  {
    hide AllWellMeasured, MessagePaints, CanvasHeight, Stacked, BubbleHeight;
    bubbles := [];
    ghost var heights := Heights(measured);
    var y := OUTER_PADDING + HEADER_HEIGHT;
    StackedNothing();
    for m := 0 to |measured|
      invariant |bubbles| == m && y == OUTER_PADDING + HEADER_HEIGHT + Stacked(heights[..m])
      invariant forall k :: 0 <= k < m ==> bubbles[k] == BubbleOf(measured, k)
    {
      assert heights[..m + 1] == heights[..m] + [heights[m]];
      StackedAppend(heights[..m], heights[m]);
      var paints, _ := DrawMessage(measured[m], y);
      bubbles := bubbles + [Bubble(y, HeightOf(measured[m]), paints)];
      y := y + HeightOf(measured[m]) + MESSAGE_GAP;
    }
  }

  lemma StackedNothing()
    ensures Stacked([]) == 0
  {
  }

  /** On every transcript a message keeps to its bubble exactly when its lead is within what its last block allows. */
  lemma BubbleKeepsIff(measured: seq<seq<Measured>>, m: nat)
    requires Ready(measured) && m < |measured|
    requires Measurable(measured[m]) && (measured[m] != [] ==> Paints(Last(measured[m])))
    ensures KeepsToBubble(BubbleOf(measured, m)) <==> FitsBubble(measured[m])
  {
    hide AllWellMeasured, Measurable, Paints, MessagePaints, PaintedWithin, FitsBubble, BubbleTop, BubbleHeight;
    PaintInsideIff(measured[m], BubbleTop(Heights(measured), m));
  }

  /** The bubbles of a transcript are disjoint, a gap apart, and lie between header and footer. */
  lemma BubblesApart(measured: seq<seq<Measured>>, m: nat, k: nat)
    requires Ready(measured) && m < |measured| && k < |measured|
    ensures var bubble := BubbleOf(measured, m);
            && (m < k ==> bubble.top + bubble.height + MESSAGE_GAP <= BubbleOf(measured, k).top)
            && OUTER_PADDING + HEADER_HEIGHT <= bubble.top
            && bubble.top + bubble.height + FOOTER_HEIGHT + OUTER_PADDING < CanvasHeight(Heights(measured))
  {
    hide AllWellMeasured, MessagePaints, BubbleTop, CanvasHeight, HeightOf;
    BubblesDisjointInside(Heights(measured), m, k);
  }

  /** Measures all messages, sizes the canvas and draws the bubbles, unless the chat is too long. */
  method DrawTranscript(messages: seq<seq<MarkdownBlocks.Block>>, fonts: Fonts, width: nat)
    returns (canvas: Canvas, measured: seq<seq<Measured>>, bubbles: seq<Bubble>)
    requires 720 <= width <= 1100
    ensures |measured| == |messages|
    ensures forall m :: 0 <= m < |messages| ==> IsMeasured(measured[m], messages[m], fonts, TextMaxWidth(width))
    ensures Ready(measured)
    ensures canvas == CanvasFor(Heights(measured), width)
    ensures canvas.TooLong? ==> bubbles == []
    ensures canvas.Canvas? ==> |bubbles| == |messages|
    ensures canvas.Canvas? ==> forall m :: 0 <= m < |messages| ==> bubbles[m] == BubbleOf(measured, m)
    ensures canvas.Canvas? && EmptyFits(fonts, TextMaxWidth(width)) ==>
              forall m :: 0 <= m < |messages| ==> (KeepsToBubble(bubbles[m]) <==> FitsBubble(measured[m]))
  {
    hide Shows, WellMeasured, EmptyFits, CanvasHeight, Scale, BubbleOf, Stacked, BubbleHeight, PaintedWithin;
    var heights;
    measured, heights := MeasureMessages(messages, fonts, TextMaxWidth(width));
    canvas := SizeCanvas(heights, width);
    bubbles := [];
    if canvas.Canvas? {
      bubbles := DrawBubbles(measured);
      if EmptyFits(fonts, TextMaxWidth(width)) {
        forall m | 0 <= m < |messages| ensures KeepsToBubble(bubbles[m]) <==> FitsBubble(measured[m]) {
          BubbleKeepsIff(measured, m);
        }
      }
    }
  }
}
