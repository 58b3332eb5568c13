/**
 What the blocks of the transcript image say: every line the parser takes into a block is told by
 the block's text, and the tests on single lines are what their patterns describe.
 */
module BlockTexts {
  import opened Text
  import opened MarkdownBlocks

  // ----- The tests on single lines

  ghost predicate FenceParts(line: string, indent: string, rest: string) {
    Blank(indent) && line == indent + ("```" + rest)
  }

  /** A line is a fence exactly if it starts with three backticks, indented or not. */
  lemma FenceMeaning(line: string)
    ensures IsFence(line) <==> exists indent, rest :: FenceParts(line, indent, rest)
  {
    FenceTestsAgree(line);
    TrimStartDrops(line);
    var tail := TrimStart(line);
    if StartsWith(tail, FENCE) {
      var indent, rest := line[..SpaceRun(line)], tail[3..];
      assert line == indent + tail && tail == "```" + rest;
      assert FenceParts(line, indent, rest);
    }
    if indent, rest :| FenceParts(line, indent, rest) {
      TrimStartOfIndented(indent, "```" + rest);
    }
  }

  predicate AllHashes(s: string) {
    forall i :: 0 <= i < |s| ==> s[i] == '#'
  }

  /** A heading mark before a title: one to six hashes with white space after them, or two to six without. */
  ghost predicate MarkParts(line: string, indent: string, hashes: string, gap: string, title: string, tail: string) {
    && line == indent + (hashes + (gap + title)) + tail
    && Blank(indent) && Blank(gap) && Blank(tail) && AllHashes(hashes)
    && title != "" && !IsSpace(title[0]) && !IsSpace(title[|title| - 1])
    && (if gap == "" then 2 <= |hashes| <= 6 && title[0] != '#' else 1 <= |hashes| <= 6)
  }

  predicate IsMarked(line: string) {
    SpacedMark(Lead(line)) || CompactMark(Lead(line))
  }

  /** A line is its lead with white space on both sides. */
  lemma TakeLeadApart(line: string) returns (indent: string, tail: string)
    ensures line == indent + Lead(line) + tail && Blank(indent) && Blank(tail)
    ensures Lead(line) != "" ==> !IsSpace(Lead(line)[|Lead(line)| - 1])
  {
    hide IsSpace, SpaceRun, TrimStart, TrimEnd;
    var front := TrimEnd(line);
    TrimEndKeeps(line);
    TrimStartDrops(front);
    indent, tail := front[..SpaceRun(front)], line[|front|..];
    CutHere(line, |front|);
    CutHere(front, |indent|);
    assert Lead(line) != "" ==> Lead(line)[|Lead(line)| - 1] == front[|front| - 1];
  }

  lemma TakeGapApart(after: string) returns (gap: string, title: string)
    requires after != "" && !IsSpace(after[|after| - 1])
    ensures after == gap + title && Blank(gap) && title == TrimStart(after)
    ensures title != "" && !IsSpace(title[0]) && !IsSpace(title[|title| - 1])
    ensures gap == "" <==> !IsSpace(after[0])
    ensures gap == "" ==> title == after
  {
    hide IsSpace, SpaceRun, TrimStart;
    TrimStartDrops(after);
    gap, title := after[..SpaceRun(after)], TrimStart(after);
    CutHere(after, |gap|);
    assert title[|title| - 1] == after[|after| - 1];
    assert gap != "" ==> gap[0] == after[0];
  }

  lemma TakeTitleApart(lead: string) returns (hashes: string, gap: string, title: string)
    requires SpacedMark(lead) || CompactMark(lead)
    requires !IsSpace(lead[|lead| - 1])
    ensures lead == hashes + (gap + title) && AllHashes(hashes) && Blank(gap)
    ensures title != "" && !IsSpace(title[0]) && !IsSpace(title[|title| - 1])
    ensures if gap == "" then 2 <= |hashes| <= 6 && title[0] != '#' else 1 <= |hashes| <= 6
  {
    hide IsSpace, HashRun, TrimStart, Blank;
    var n := HashRun(lead);
    HashRunMeaning(lead);
    hashes := lead[..n];
    var after := lead[n..];
    assert after[0] == lead[n] && after[|after| - 1] == lead[|lead| - 1];
    gap, title := TakeGapApart(after);
    CutHere(lead, n);
  }

  /** The parts of a marked line. */
  lemma TakeMarkApart(line: string)
    returns (indent: string, hashes: string, gap: string, title: string, tail: string)
    requires IsMarked(line)
    ensures MarkParts(line, indent, hashes, gap, title, tail)
  {
    hide IsSpace, Lead, SpacedMark, CompactMark, Title, IsFence;
    MarkHasTitle(line);
    indent, tail := TakeLeadApart(line);
    hashes, gap, title := TakeTitleApart(Lead(line));
  }

  lemma CutHere(s: string, i: nat)
    requires i <= |s|
    ensures s == s[..i] + s[i..]
  {
  }

  lemma LeadOfParts(indent: string, body: string, tail: string)
    requires Blank(indent) && Blank(tail)
    requires body != "" && !IsSpace(body[0]) && !IsSpace(body[|body| - 1])
    ensures Lead(indent + body + tail) == body
  {
    var front := indent + body;
    TrimEndOfAppended(front, tail);
    TrimEndKeeps(front);
    assert front[|front| - 1] == body[|body| - 1];
    assert TrimEnd(front) == front;
    TrimStartOfIndented(indent, body);
  }

  lemma MarkFromParts(line: string, indent: string, hashes: string, gap: string, title: string, tail: string)
    requires MarkParts(line, indent, hashes, gap, title, tail)
    ensures IsMarked(line) && Title(Lead(line)) == title && HashRun(Lead(line)) == |hashes|
  {
    var after := gap + title;
    var lead := hashes + after;
    assert lead[0] == '#' && !IsSpace(lead[0]) && lead[|lead| - 1] == title[|title| - 1];
    LeadOfParts(indent, lead, tail);
    assert after[0] == if gap == "" then title[0] else gap[0];
    assert lead[|hashes|] == after[0] && lead[|hashes|..] == after;
    HashRunOf(lead, |hashes|);
    TrimStartOfIndented(gap, title);
  }

  /** The two heading patterns: a mark before a title, on one line if the outer loop is to take it. */
  lemma HeadingMeaning(line: string)
    ensures IsMarked(line) <==>
            exists indent, hashes, gap, title, tail :: MarkParts(line, indent, hashes, gap, title, tail)
    ensures IsHeading(Lead(line)) <==>
            exists indent, hashes, gap, title, tail ::
              MarkParts(line, indent, hashes, gap, title, tail) && OneLine(title)
  {
    if IsMarked(line) {
      var indent, hashes, gap, title, tail := TakeMarkApart(line);
      MarkFromParts(line, indent, hashes, gap, title, tail);
    }
    if indent, hashes, gap, title, tail :| MarkParts(line, indent, hashes, gap, title, tail) {
      MarkFromParts(line, indent, hashes, gap, title, tail);
    }
    if indent, hashes, gap, title, tail :| MarkParts(line, indent, hashes, gap, title, tail) && OneLine(title) {
      MarkFromParts(line, indent, hashes, gap, title, tail);
    }
  }

  lemma {:induction false} RemovePipesMeaning(s: string)
    ensures RemovePipes(s) != "" <==> exists i :: 0 <= i < |s| && s[i] != '|'
    ensures forall c :: c in RemovePipes(s) <==> c in s && c != '|'
  {
    if s != "" {
      RemovePipesMeaning(s[1..]);
      assert s == [s[0]] + s[1..];
      if s[0] == '|' {
        if i :| 0 <= i < |s| && s[i] != '|' {
          assert s[1..][i - 1] == s[i];
        }
        if i :| 0 <= i < |s[1..]| && s[1..][i] != '|' {
          assert s[i + 1] != '|';
        }
      } else {
        assert s[0] != '|';
      }
    }
  }

  /** A character that is no white space is in a line exactly if it is in what trimming leaves of it. */
  lemma InTrimmed(line: string, c: char)
    ensures c in Trim(line) ==> c in line
    ensures c in TrimEnd(line) ==> c in line
    ensures !IsSpace(c) && c in line ==> c in Trim(line) && c in TrimEnd(line)
  {
    hide TrimStart, TrimEnd, SpaceRun, IsSpace;
    var tail, front := TrimStart(line), TrimEnd(line);
    TrimStartDrops(line);
    TrimEndKeeps(tail);
    TrimEndKeeps(line);
    InParts(line[..SpaceRun(line)], tail, c);
    InParts(Trim(line), tail[|Trim(line)|..], c);
    InParts(front, line[|front|..], c);
    assert line == line[..SpaceRun(line)] + tail && tail == Trim(line) + tail[|Trim(line)|..];
    assert line == front + line[|front|..];
  }

  lemma InParts(a: string, b: string, c: char)
    ensures c in a + b <==> c in a || c in b
    ensures Blank(a) && c in a ==> IsSpace(c)
    ensures Blank(b) && c in b ==> IsSpace(c)
  {
  }

  predicate IsSeparatorChar(c: char) {
    IsSpace(c) || c == ':' || c == '-' || c == '|'
  }

  /**
   A separator holds nothing but white space, colons, dashes and pipes, and something else than pipes
   between its first and its last character that is not white space.
   */
  lemma SeparatorMeaning(line: string)
    ensures IsSeparator(line) <==>
            (forall c :: c in line ==> IsSeparatorChar(c)) && exists i :: 0 <= i < |Trim(line)| && Trim(line)[i] != '|'
  {
    hide Trim, TrimEnd, RemovePipes;
    var rest := RemovePipes(Trim(line));
    RemovePipesMeaning(Trim(line));
    forall c ensures c in Trim(line) ==> c in line
             ensures !IsSpace(c) && c in line ==> c in Trim(line)
    {
      InTrimmed(line, c);
    }
    if IsSeparator(line) {
      forall c | c in line ensures IsSeparatorChar(c) {
        if !IsSpace(c) && c != '|' {
          var i :| 0 <= i < |rest| && rest[i] == c;
        }
      }
    }
    if forall c :: c in line ==> IsSeparatorChar(c) {
      forall i | 0 <= i < |rest| ensures IsSpace(rest[i]) || rest[i] == ':' || rest[i] == '-' {
        assert rest[i] in rest;
      }
    }
  }

  /** White space at the ends never decides whether a line holds a pipe. */
  lemma PipeMeaning(line: string, next: string)
    ensures IsRow(line) <==> '|' in line
    ensures IsTableHead(line, next) <==> '|' in line && IsSeparator(next)
  {
    hide Trim, TrimEnd, IsSeparator;
    InTrimmed(line, '|');
  }

  /** A paragraph ends before a blank line, a fence, a marked line, or a line with a pipe above a separator. */
  lemma BreakMeaning(line: string, next: string)
    ensures BreaksParagraph(line, next) <==>
            Blank(line) || IsFence(line) || IsMarked(line) || ('|' in line && IsSeparator(next))
  {
    hide IsFence, SpacedMark, CompactMark, IsSeparator, IsTableHead;
    TrimEndKeeps(line);
    TrimStartDrops(TrimEnd(line));
    PipeMeaning(line, next);
  }

  /** The first line of a span decides what it is. */
  lemma SpanKind(lines: seq<string>, s: Span, strip: string -> string)
    requires s.from < |lines| && IsSpan(lines, s, strip)
    ensures var line, next := lines[s.from], Next(lines, s.from);
            if IsFence(line) then s.blocks != [] && s.blocks[0].Code?
            else if IsHeading(Lead(line)) then s.blocks != [] && s.blocks[0].Heading?
            else if '|' in line && IsSeparator(next) then s.blocks != [] && s.blocks[0].Table?
            else if Blank(line) then s.blocks == []
            else s.blocks != [] && s.blocks[0].Paragraph?
  {
    hide IsFence, IsHeading, Lead, HeadingOf, SplitTableRow, IsTableHead, IsRow, IsSeparator;
    SpanIsRound(lines, s, strip);
    PipeMeaning(lines[s.from], Next(lines, s.from));
    BlankLeadIff(lines[s.from]);
    HeadingIsHeading(lines[s.from], strip);
  }

  lemma BlankLeadIff(line: string)
    ensures Lead(line) == "" <==> Blank(line)
  {
    TrimEndKeeps(line);
    TrimStartDrops(TrimEnd(line));
  }

  // ----- What the blocks say

  /** `cells` are the stretches between the pipes of a line, without the outer pipes if it has both. */
  ghost predicate CellsOf(line: string, inner: string, raws: seq<string>, cells: seq<string>, strip: string -> string) {
    var trimmed := Trim(line);
    && (if trimmed != "" && trimmed[0] == '|' == trimmed[|trimmed| - 1] then
          trimmed == "|" + (inner + "|") || (trimmed == "|" && inner == "")
        else trimmed == inner)
    && raws != [] && Join(raws, "|") == inner && |cells| == |raws|
    && forall i :: 0 <= i < |raws| ==> '|' !in raws[i] && cells[i] == strip(Trim(raws[i]))
  }

  lemma RowMeaning(line: string, strip: string -> string) returns (inner: string, raws: seq<string>)
    ensures CellsOf(line, inner, raws, SplitTableRow(line, strip), strip)
  {
    hide Trim, Split, Join;
    var trimmed := Trim(line);
    inner := if trimmed != "" && trimmed[0] == '|' && trimmed[|trimmed| - 1] == '|' then
      if |trimmed| == 1 then "" else trimmed[1..|trimmed| - 1]
    else trimmed;
    raws := Split(inner, '|');
    JoinSplit(inner, '|');
    SplitPieces(inner, '|');
  }

  /** `front` is `line` without the white space at its end. */
  predicate IsFront(front: string, line: string) {
    && |front| <= |line| && line[..|front|] == front && Blank(line[|front|..])
    && (front != "" ==> !IsSpace(front[|front| - 1]))
  }

  ghost predicate ParagraphTold(lines: seq<string>, fronts: seq<string>) {
    |fronts| == |lines| && forall k :: 0 <= k < |lines| ==> IsFront(fronts[k], lines[k])
  }

  ghost predicate HeadingTold(line: string, level: nat, text: string, strip: string -> string) {
    exists indent, hashes, gap, title, tail ::
      MarkParts(line, indent, hashes, gap, title, tail) && level == |hashes| && text == Trim(strip(title))
  }

  ghost predicate RowTold(line: string, cells: seq<string>, strip: string -> string) {
    exists inner, raws :: CellsOf(line, inner, raws, cells, strip)
  }

  ghost predicate TextTold(lines: seq<string>, text: string, strip: string -> string) {
    exists fronts :: ParagraphTold(lines, fronts) && text == Trim(strip(Join(fronts, "\n")))
  }

  /** The blocks of a span tell all its lines, in the way of their kind; a blank line has nothing to tell. */
  ghost predicate Told(lines: seq<string>, s: Span, strip: string -> string)
    requires s.from < |lines| && s.from < s.to <= |lines| + 1
  {
    && (s.blocks == [] ==> s.to == s.from + 1 && Blank(lines[s.from]))
    && (s.blocks != [] ==>
          && |s.blocks| == 1
          && var block := s.blocks[0];
             && (block.Code? ==> s.to >= s.from + 2 && block.text == Join(lines[s.from + 1..s.to - 1], "\n"))
             && (block.Heading? ==> s.to == s.from + 1 && HeadingTold(lines[s.from], block.level, block.text, strip))
             && (block.Table? ==>
                   && s.from + 2 <= s.to <= |lines| && |block.rows| == s.to - s.from - 2
                   && RowTold(lines[s.from], block.header, strip)
                   && forall k :: 0 <= k < |block.rows| ==> RowTold(lines[s.from + 2 + k], block.rows[k], strip))
             && (block.Paragraph? ==> s.to <= |lines| && TextTold(lines[s.from..s.to], block.text, strip)))
  }

  lemma HeadingIsTold(line: string, strip: string -> string)
    requires IsHeading(Lead(line))
    ensures HeadingTold(line, HeadingOf(Lead(line), strip).level, HeadingOf(Lead(line), strip).text, strip)
  {
    var indent, hashes, gap, title, tail := TakeMarkApart(line);
    MarkFromParts(line, indent, hashes, gap, title, tail);
  }

  lemma RowIsTold(line: string, strip: string -> string)
    ensures RowTold(line, SplitTableRow(line, strip), strip)
  {
    var inner, raws := RowMeaning(line, strip);
  }

  lemma ParagraphIsTold(lines: seq<string>, strip: string -> string)
    ensures ParagraphOf(lines, strip).Paragraph? && TextTold(lines, ParagraphOf(lines, strip).text, strip)
  {
    var fronts := TrimmedEnds(lines);
    forall k | 0 <= k < |lines| ensures IsFront(fronts[k], lines[k]) {
      TrimEndKeeps(lines[k]);
    }
    assert ParagraphTold(lines, fronts);
  }

  /** Every well-formed span, and so every range the parser consumes, tells its lines. */
  lemma SpanIsTold(lines: seq<string>, s: Span, strip: string -> string)
    requires s.from < |lines| && IsSpan(lines, s, strip)
    ensures s.from < s.to <= |lines| + 1 && Told(lines, s, strip)
  {
    hide IsFence, IsHeading, Lead, HeadingOf, ParagraphOf, SplitTableRow, IsTableHead, IsRow, BreaksParagraph,
      HeadingTold, RowTold, TextTold;
    if IsCodeSpan(lines, s) {
    } else if IsHeadingSpan(lines, s, strip) {
      HeadingIsTold(lines[s.from], strip);
      HeadingIsHeading(lines[s.from], strip);
    } else if IsTableSpan(lines, s, strip) {
      RowIsTold(lines[s.from], strip);
      forall k | s.from + 2 <= k < s.to ensures RowTold(lines[k], SplitTableRow(lines[k], strip), strip) {
        RowIsTold(lines[k], strip);
      }
    } else if IsBlankSpan(lines, s) {
      BlankLeadIff(lines[s.from]);
    } else {
      ParagraphIsTold(lines[s.from..s.to], strip);
    }
  }

  lemma HeadingIsHeading(line: string, strip: string -> string)
    ensures HeadingOf(Lead(line), strip).Heading?
  {
  }

  /** Everything the parser consumes, whether it answers or hangs, is told by its blocks. */
  lemma {:induction false} TilingIsTold(lines: seq<string>, spans: seq<Span>, from: nat, to: nat, k: nat,
                                        strip: string -> string)
    requires Tiles(lines, spans, from, to, strip) && k < |spans|
    ensures spans[k].from < |lines| && spans[k].from < spans[k].to <= |lines| + 1 && Told(lines, spans[k], strip)
    decreases |spans|
  {
    hide Told, IsSpan;
    if k == 0 {
      SpanIsTold(lines, spans[0], strip);
    } else {
      TilingIsTold(lines, spans[1..], spans[0].to, to, k - 1, strip);
    }
  }

  lemma ParseIsTold(input: string, k: nat, strip: string -> string)
    requires k < |ParseFrom(Lines(input), 0, strip).spans|
    ensures var lines, span := Lines(input), ParseFrom(Lines(input), 0, strip).spans[k];
            span.from < |lines| && span.from < span.to <= |lines| + 1 && Told(lines, span, strip)
  {
    hide Told, Tiles, Lines, ParseFrom;
    var lines := Lines(input);
    ParseTiles(lines, 0, strip);
    match ParseFrom(lines, 0, strip)
    case Done(spans) => TilingIsTold(lines, spans, 0, FinalLine(lines, 0, spans), k, strip);
    case Stuck(spans, at) => TilingIsTold(lines, spans, 0, at, k, strip);
  }

  // ----- Nothing lost but white space

  /** Leaves inline markdown as it is. */
  function Same(s: string): string {
    s
  }

  lemma EraseTrim(s: string)
    ensures Erase(Trim(s)) == Erase(s)
  {
    var front := TrimStart(s);
    EraseTrimStart(s);
    TrimEndKeeps(front);
    assert front == Trim(s) + front[|Trim(s)|..];
    EraseConcat(Trim(s), front[|Trim(s)|..]);
    EraseBlank(front[|Trim(s)|..]);
  }

  lemma {:induction false} EraseFronts(lines: seq<string>, fronts: seq<string>)
    requires ParagraphTold(lines, fronts)
    ensures Erase(Concat(fronts)) == Erase(Concat(lines))
  {
    if lines != [] {
      EraseFronts(lines[1..], fronts[1..]);
      var back := lines[0][|fronts[0]|..];
      assert lines[0] == fronts[0] + back;
      EraseConcat(fronts[0], back);
      EraseBlank(back);
      EraseConcat(lines[0], Concat(lines[1..]));
      EraseConcat(fronts[0], Concat(fronts[1..]));
    }
  }

  /** A paragraph keeps all of its lines' text but white space. */
  lemma ParagraphKeepsText(lines: seq<string>, text: string)
    requires TextTold(lines, text, Same)
    ensures Erase(text) == Erase(Concat(lines))
  {
    var fronts :| ParagraphTold(lines, fronts) && text == Trim(Same(Join(fronts, "\n")));
    EraseTrim(Join(fronts, "\n"));
    EraseJoin(fronts);
    EraseFronts(lines, fronts);
  }

  function Hashes(level: nat): string {
    seq(level, _ => '#')
  }

  /** A heading keeps its line's text: as many hashes as its level, and the title. */
  lemma HeadingKeepsText(line: string, level: nat, text: string)
    requires HeadingTold(line, level, text, Same)
    ensures 1 <= level <= 6 && Erase(Hashes(level) + text) == Erase(line)
  {
    hide Erase, Trim, IsSpace;
    var indent, hashes, gap, title, tail :|
      MarkParts(line, indent, hashes, gap, title, tail) && level == |hashes| && text == Trim(Same(title));
    assert hashes == Hashes(level);
    EraseTrim(title);
    EraseConcat(hashes, text);
    EraseConcat(indent + (hashes + (gap + title)), tail);
    EraseConcat(indent, hashes + (gap + title));
    EraseConcat(hashes, gap + title);
    EraseConcat(gap, title);
    EraseBlank(indent);
    EraseBlank(gap);
    EraseBlank(tail);
  }

  lemma {:induction false} EraseCells(raws: seq<string>, cells: seq<string>)
    requires |cells| == |raws| && forall i :: 0 <= i < |raws| ==> cells[i] == Trim(raws[i])
    ensures Erase(Join(cells, "|")) == Erase(Join(raws, "|"))
  {
    if raws != [] {
      EraseTrim(raws[0]);
      if |raws| > 1 {
        EraseCells(raws[1..], cells[1..]);
        EraseConcat(raws[0] + "|", Join(raws[1..], "|"));
        EraseConcat(raws[0], "|");
        EraseConcat(cells[0] + "|", Join(cells[1..], "|"));
        EraseConcat(cells[0], "|");
      }
    }
  }

  /** A row keeps its line's text: the cells with a pipe between each two, and the outer pipes it had. */
  lemma RowKeepsText(line: string, cells: seq<string>)
    requires RowTold(line, cells, Same)
    ensures forall i :: 0 <= i < |cells| ==> '|' !in cells[i]
    ensures var inside := Erase(Join(cells, "|"));
            Erase(line) == inside || Erase(line) == "|" + (inside + "|") || (Erase(line) == "|" && cells == [""])
  {
    var inner, raws :| CellsOf(line, inner, raws, cells, Same);
    EraseTrim(line);
    EraseCells(raws, cells);
    forall i | 0 <= i < |cells| ensures '|' !in cells[i] {
      TrimStartDrops(raws[i]);
      TrimEndKeeps(TrimStart(raws[i]));
    }
    EraseConcat("|", inner + "|");
    EraseConcat(inner, "|");
    if Trim(line) == "|" && inner == "" {
      assert |raws| > 1 ==> |Join(raws, "|")| >= 1;
      assert raws[0] == "";
      assert cells == [""];
    }
  }
}
