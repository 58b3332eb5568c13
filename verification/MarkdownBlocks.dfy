/**
 The line-oriented block parser of the transcript image.

 `strip` stands for the removal of inline markdown, which never decides where a block begins or ends.
 */
module MarkdownBlocks {
  import opened Common
  import opened Text

  datatype Block =
    | Heading(level: nat, text: string)
    | Paragraph(text: string)
    | Code(text: string)
    | Table(header: seq<string>, rows: seq<seq<string>>)

  /** The lines `from..to` that one round of the parser consumes; a blank line yields no block. */
  datatype Span = Span(from: nat, to: nat, blocks: seq<Block>)

  datatype Parse =
    | Done(spans: seq<Span>)
    | Stuck(spans: seq<Span>, at: nat)

  /**
   What a caller sees: the blocks, or no answer at all. A round of the outer loop that leaves the
   line number alone repeats for ever, because nothing else decides what the next round does.
   */
  datatype Outcome = Blocks(blocks: seq<Block>) | Hangs(at: nat)

  // ----- The tests on single lines

  predicate OneLine(s: string) {
    forall i :: 0 <= i < |s| ==> !IsTerminator(s[i])
  }

  function Lead(line: string): string {
    TrimStart(TrimEnd(line))
  }

  predicate IsFence(line: string) {
    StartsWith(Lead(line), FENCE)
  }

  /** `/^(#{1,6})\s+/` */
  predicate SpacedMark(lead: string) {
    var n := HashRun(lead);
    1 <= n <= 6 && n < |lead| && IsSpace(lead[n])
  }

  /** `/^#{2,6}[^\s#]/` */
  predicate CompactMark(lead: string) {
    var n := HashRun(lead);
    2 <= n <= 6 && n < |lead| && !IsSpace(lead[n]) && lead[n] != '#'
  }

  /** The title captured by `/^(#{1,6})\s+(.+)$/`, or else by `/^(#{2,6})([^\s#].*)$/`. */
  function Title(lead: string): string {
    var n := HashRun(lead);
    if n <= |lead| then TrimStart(lead[n..]) else ""
  }

  /** One of the two heading patterns matches: the mark is there, and `.` gets to the end of the title. */
  predicate IsHeading(lead: string) {
    (SpacedMark(lead) || CompactMark(lead)) && Title(lead) != "" && OneLine(Title(lead))
  }

  function RemovePipes(s: string): string {
    if s == "" then "" else (if s[0] == '|' then "" else [s[0]]) + RemovePipes(s[1..])
  }

  predicate IsSeparator(line: string) {
    var rest := RemovePipes(Trim(line));
    rest != "" && forall i :: 0 <= i < |rest| ==> IsSpace(rest[i]) || rest[i] == ':' || rest[i] == '-'
  }

  predicate HasPipe(s: string) {
    '|' in s
  }

  predicate IsTableHead(line: string, next: string) {
    HasPipe(TrimEnd(line)) && IsSeparator(next)
  }

  predicate IsRow(line: string) {
    Trim(line) != "" && HasPipe(Trim(line))
  }

  /** One of the tests that end a paragraph fires. */
  predicate BreaksParagraph(line: string, next: string) {
    var lead := Lead(line);
    lead == "" || IsFence(line) || SpacedMark(lead) || CompactMark(lead) || IsTableHead(line, next)
  }

  /**
   The paragraph loop refuses the line as a heading, but neither heading pattern takes it: its title
   holds a character `.` does not match.
   */
  predicate IsStuck(line: string, next: string) {
    var lead := Lead(line);
    && (SpacedMark(lead) || CompactMark(lead))
    && !OneLine(Title(lead))
    && !IsTableHead(line, next)
  }

  function Next(lines: seq<string>, i: nat): string {
    if i + 1 < |lines| then lines[i + 1] else ""
  }

  function MapCells(cells: seq<string>, strip: string -> string): seq<string> {
    seq(|cells|, i requires 0 <= i < |cells| => strip(Trim(cells[i])))
  }

  function SplitTableRow(line: string, strip: string -> string): seq<string> {
    var trimmed := Trim(line);
    var withoutOuter :=
      if trimmed != "" && trimmed[0] == '|' && trimmed[|trimmed| - 1] == '|' then
        if |trimmed| == 1 then "" else trimmed[1..|trimmed| - 1]
      else trimmed;
    MapCells(Split(withoutOuter, '|'), strip)
  }

  // ----- One round of the parser

  function CodeEnd(lines: seq<string>, i: nat): (e: nat)
    requires i <= |lines|
    ensures i <= e <= |lines|
    decreases |lines| - i
  {
    if i < |lines| && !IsFence(lines[i]) then CodeEnd(lines, i + 1) else i
  }

  function RowsEnd(lines: seq<string>, i: nat): (e: nat)
    requires i <= |lines|
    ensures i <= e <= |lines|
    decreases |lines| - i
  {
    if i < |lines| && IsRow(lines[i]) then RowsEnd(lines, i + 1) else i
  }

  function TextEnd(lines: seq<string>, i: nat): (e: nat)
    requires i <= |lines|
    ensures i <= e <= |lines|
    decreases |lines| - i
  {
    if i < |lines| && !BreaksParagraph(lines[i], Next(lines, i)) then TextEnd(lines, i + 1) else i
  }

  function Rows(lines: seq<string>, strip: string -> string): seq<seq<string>> {
    seq(|lines|, i requires 0 <= i < |lines| => SplitTableRow(lines[i], strip))
  }

  function TrimmedEnds(lines: seq<string>): seq<string> {
    seq(|lines|, i requires 0 <= i < |lines| => TrimEnd(lines[i]))
  }

  function HeadingOf(lead: string, strip: string -> string): Block {
    Heading(if HashRun(lead) < 6 then HashRun(lead) else 6, Trim(strip(Title(lead))))
  }

  function ParagraphOf(lines: seq<string>, strip: string -> string): Block {
    Paragraph(Trim(strip(Join(TrimmedEnds(lines), "\n"))))
  }

  /** What the round that starts at line `i` consumes. */
  function Round(lines: seq<string>, i: nat, strip: string -> string): (span: Span)
    requires i < |lines|
    ensures span.from == i <= span.to
  {
    if IsFence(lines[i]) then
      var end := CodeEnd(lines, i + 1);
      Span(i, end + 1, [Code(Join(lines[i + 1..end], "\n"))])
    else if IsHeading(Lead(lines[i])) then
      Span(i, i + 1, [HeadingOf(Lead(lines[i]), strip)])
    else if IsTableHead(lines[i], Next(lines, i)) then
      assert i + 2 <= |lines|;
      var end := RowsEnd(lines, i + 2);
      Span(i, end, [Table(SplitTableRow(lines[i], strip), Rows(lines[i + 2..end], strip))])
    else if Lead(lines[i]) == "" then
      Span(i, i + 1, [])
    else
      var end := TextEnd(lines, i);
      Span(i, end, [ParagraphOf(lines[i..end], strip)])
  }

  function ParseFrom(lines: seq<string>, i: nat, strip: string -> string): Parse
    decreases |lines| - i
  {
    if i >= |lines| then Done([])
    else
      var span := Round(lines, i, strip);
      if span.to == i then Stuck([], i)
      else
        match ParseFrom(lines, span.to, strip)
        case Done(spans) => Done([span] + spans)
        case Stuck(spans, at) => Stuck([span] + spans, at)
  }

  function BlocksOf(spans: seq<Span>): seq<Block> {
    if spans == [] then [] else spans[0].blocks + BlocksOf(spans[1..])
  }

  function OutcomeOf(parse: Parse): Outcome {
    match parse
    case Done(spans) => Blocks(BlocksOf(spans))
    case Stuck(_, at) => Hangs(at)
  }

  // ----- The parser, loop by loop

  /** A fence test that trims only the front of the line agrees with one that trims both ends. */
  lemma FenceTestsAgree(line: string)
    ensures StartsWith(TrimStart(line), FENCE) <==> IsFence(line)
  {
    hide TrimStart, TrimEnd, SpaceRun;
    TrimEndKeeps(line);
    var front := TrimEnd(line);
    var back := line[|front|..];
    assert line == front + back;
    TrimStartDrops(front);
    TrimStartDrops(line);
    if !Blank(front) {
      TrimStartOfAppended(front, back);
      PrefixBeforeBlanks(TrimStart(front), back, FENCE);
    }
  }

  lemma PrefixBeforeBlanks(lead: string, back: string, prefix: string)
    requires Blank(back)
    requires forall i :: 0 <= i < |prefix| ==> !IsSpace(prefix[i])
    ensures StartsWith(lead + back, prefix) <==> StartsWith(lead, prefix)
  {
    if |prefix| <= |lead| {
      assert (lead + back)[..|prefix|] == lead[..|prefix|];
    } else if |prefix| <= |lead + back| {
      assert (lead + back)[..|prefix|][|lead|] == back[0];
    }
  }

  lemma {:induction false} TrimStartOfAppended(front: string, back: string)
    requires !Blank(front)
    ensures TrimStart(front + back) == TrimStart(front) + back
  {
    if IsSpace(front[0]) {
      assert (front + back)[1..] == front[1..] + back;
      TrimStartOfAppended(front[1..], back);
    }
  }

  lemma {:induction false} BlocksOfAppend(a: seq<Span>, b: seq<Span>)
    ensures BlocksOf(a + b) == BlocksOf(a) + BlocksOf(b)
  {
    if a == [] {
      assert a + b == b;
    } else {
      assert (a + b)[1..] == a[1..] + b;
      BlocksOfAppend(a[1..], b);
    }
  }

  function Prepend(spans: seq<Span>, parse: Parse): Parse {
    match parse
    case Done(rest) => Done(spans + rest)
    case Stuck(rest, at) => Stuck(spans + rest, at)
  }

  /** The code lines, up to but without the closing fence. */
  method ReadCode(lines: seq<string>, start: nat) returns (i: nat, codeLines: seq<string>)
    requires start <= |lines|
    ensures i == CodeEnd(lines, start) && codeLines == lines[start..i]
  {
    hide IsFence, StartsWith, TrimStart;
    i, codeLines := start, [];
    while i < |lines|
      invariant start <= i <= |lines|
      invariant codeLines == lines[start..i]
      invariant CodeEnd(lines, start) == CodeEnd(lines, i)
    {
      FenceTestsAgree(lines[i]);
      if StartsWith(TrimStart(lines[i]), FENCE) {
        break;
      }
      codeLines := codeLines + [lines[i]];
      i := i + 1;
    }
  }

  method ReadRows(lines: seq<string>, start: nat, strip: string -> string) returns (i: nat, rows: seq<seq<string>>)
    requires start <= |lines|
    ensures i == RowsEnd(lines, start) && rows == Rows(lines[start..i], strip)
  {
    hide HasPipe, Trim, MapCells;
    i, rows := start, [];
    while i < |lines|
      invariant start <= i <= |lines|
      invariant rows == Rows(lines[start..i], strip)
      invariant RowsEnd(lines, start) == RowsEnd(lines, i)
    {
      var rowLine := Trim(lines[i]);
      if rowLine == "" || !HasPipe(rowLine) {
        break;
      }
      TrimTwice(lines[i]);
      rows := rows + [SplitTableRow(rowLine, strip)];
      i := i + 1;
    }
  }

  lemma TrimTwice(line: string)
    ensures Trim(Trim(line)) == Trim(line)
  {
    TrimStartDrops(line);
    var front := TrimStart(line);
    TrimEndKeeps(front);
    if TrimEnd(front) != "" {
      assert TrimEnd(front)[0] == front[0];
    }
  }

  method ReadParagraph(lines: seq<string>, start: nat) returns (i: nat, paragraphLines: seq<string>)
    requires start <= |lines|
    ensures i == TextEnd(lines, start) && paragraphLines == TrimmedEnds(lines[start..i])
  {
    hide SpacedMark, CompactMark, HasPipe, IsSeparator, StartsWith, TrimStart, TrimEnd;
    i, paragraphLines := start, [];
    while i < |lines|
      invariant start <= i <= |lines|
      invariant paragraphLines == TrimmedEnds(lines[start..i])
      invariant TextEnd(lines, start) == TextEnd(lines, i)
    {
      var currentTrim := TrimEnd(lines[i]);
      var currentLead := TrimStart(currentTrim);
      var upcoming := Next(lines, i);
      if currentLead == "" { break; }
      if StartsWith(currentLead, FENCE) { break; }
      if SpacedMark(currentLead) { break; }
      if CompactMark(currentLead) { break; }
      if HasPipe(currentTrim) && IsSeparator(upcoming) { break; }
      paragraphLines := paragraphLines + [currentTrim];
      i := i + 1;
    }
  }

  lemma SeparatorFollows(lines: seq<string>, i: nat)
    requires i < |lines| && IsSeparator(Next(lines, i))
    ensures i + 2 <= |lines|
  {
  }

  /** One round of the outer loop. */
  method ReadBlock(lines: seq<string>, start: nat, strip: string -> string) returns (i: nat, blocks: seq<Block>)
    requires start < |lines|
    ensures Span(start, i, blocks) == Round(lines, start, strip)
  {
    hide IsHeading, HasPipe, StartsWith, TrimStart, TrimEnd, HeadingOf;
    i := start;
    var leadTrimmed := Lead(lines[i]);
    if StartsWith(leadTrimmed, FENCE) {
      var end, codeLines := ReadCode(lines, i + 1);
      return end + 1, [Code(Join(codeLines, "\n"))];
    }
    if IsHeading(leadTrimmed) {
      return i + 1, [HeadingOf(leadTrimmed, strip)];
    }
    if HasPipe(TrimEnd(lines[i])) && IsSeparator(Next(lines, i)) {
      SeparatorFollows(lines, i);
      TrimAfterTrimEnd(lines[i]);
      var header := SplitTableRow(TrimEnd(lines[i]), strip);
      var end, rows := ReadRows(lines, i + 2, strip);
      return end, [Table(header, rows)];
    }
    if leadTrimmed == "" {
      return i + 1, [];
    }
    var end, paragraphLines := ReadParagraph(lines, i);
    return end, [Paragraph(Trim(strip(Join(paragraphLines, "\n"))))];
  }

  method ParseMarkdownBlocks(input: string, strip: string -> string) returns (outcome: Outcome)
    ensures outcome == OutcomeOf(ParseFrom(Lines(input), 0, strip))
  {
    var lines := Lines(input);
    var blocks := [];
    var i := 0;
    ghost var spans := [];
    while i < |lines|
      invariant blocks == BlocksOf(spans)
      invariant Parsed(lines, spans, i, strip)
      decreases |lines| - i
    {
      var end, found := ReadBlock(lines, i, strip);
      ParseRound(lines, spans, i, strip);
      if end == i {
        return Hangs(i);
      }
      spans := spans + [Span(i, end, found)];
      blocks := blocks + found;
      i := end;
    }
    outcome := Blocks(blocks);
  }

  /** The rounds up to line `i` have produced `spans`. */
  ghost predicate Parsed(lines: seq<string>, spans: seq<Span>, i: nat, strip: string -> string) {
    && (i >= |lines| ==> ParseFrom(lines, 0, strip) == Done(spans))
    && ParseFrom(lines, 0, strip) == Prepend(spans, ParseFrom(lines, i, strip))
  }

  lemma ParseRound(lines: seq<string>, spans: seq<Span>, i: nat, strip: string -> string)
    requires i < |lines|
    requires Parsed(lines, spans, i, strip)
    ensures var span := Round(lines, i, strip);
            && (span.to == i ==> OutcomeOf(ParseFrom(lines, 0, strip)) == Hangs(i))
            && (span.to > i ==> Parsed(lines, spans + [span], span.to, strip))
            && BlocksOf(spans + [span]) == BlocksOf(spans) + span.blocks
  {
    var span := Round(lines, i, strip);
    var rest := ParseFrom(lines, span.to, strip);
    BlocksOfAppend(spans, [span]);
    assert BlocksOf([span]) == span.blocks;
    PrependTwice(spans, [span], rest);
    if span.to >= |lines| {
      assert spans + [span] + [] == spans + [span];
    }
  }

  lemma PrependTwice(a: seq<Span>, b: seq<Span>, parse: Parse)
    ensures Prepend(a, Prepend(b, parse)) == Prepend(a + b, parse)
  {
    assert forall rest :: a + (b + rest) == a + b + rest;
  }

  lemma TrimAfterTrimEnd(line: string)
    ensures Trim(TrimEnd(line)) == Trim(line)
  {
    TrimEndKeeps(line);
    var front := TrimEnd(line);
    var back := line[|front|..];
    assert line == front + back;
    if Blank(front) {
      TrimStartDrops(front);
      assert Blank(line);
      TrimStartDrops(line);
    } else {
      TrimStartOfAppended(front, back);
      TrimEndOfAppended(TrimStart(front), back);
    }
  }

  // ----- What the consumed ranges are, said without the parser

  predicate NoFence(lines: seq<string>, from: nat, to: nat)
    requires to <= |lines|
  {
    forall k :: from <= k < to ==> !IsFence(lines[k])
  }

  predicate AllRows(lines: seq<string>, from: nat, to: nat)
    requires to <= |lines|
  {
    forall k :: from <= k < to ==> IsRow(lines[k])
  }

  predicate AllText(lines: seq<string>, from: nat, to: nat)
    requires to <= |lines|
  {
    forall k :: from <= k < to ==> !BreaksParagraph(lines[k], Next(lines, k))
  }

  /** A fenced block up to its closing fence or, left open, one past the last line. */
  predicate IsCodeSpan(lines: seq<string>, s: Span) {
    && s.from + 2 <= s.to <= |lines| + 1
    && IsFence(lines[s.from])
    && NoFence(lines, s.from + 1, s.to - 1)
    && (s.to - 1 == |lines| || IsFence(lines[s.to - 1]))
    && s.blocks == [Code(Join(lines[s.from + 1..s.to - 1], "\n"))]
  }

  predicate IsHeadingSpan(lines: seq<string>, s: Span, strip: string -> string) {
    && s.to == s.from + 1 <= |lines|
    && !IsFence(lines[s.from])
    && IsHeading(Lead(lines[s.from]))
    && s.blocks == [HeadingOf(Lead(lines[s.from]), strip)]
  }

  /** A head, its separator and as many rows as follow. */
  predicate IsTableSpan(lines: seq<string>, s: Span, strip: string -> string) {
    && s.from + 2 <= s.to <= |lines|
    && !IsFence(lines[s.from]) && !IsHeading(Lead(lines[s.from]))
    && IsTableHead(lines[s.from], lines[s.from + 1])
    && AllRows(lines, s.from + 2, s.to)
    && (s.to == |lines| || !IsRow(lines[s.to]))
    && s.blocks == [Table(SplitTableRow(lines[s.from], strip), Rows(lines[s.from + 2..s.to], strip))]
  }

  predicate IsBlankSpan(lines: seq<string>, s: Span) {
    && s.to == s.from + 1 <= |lines|
    && !IsTableHead(lines[s.from], Next(lines, s.from))
    && Lead(lines[s.from]) == ""
    && s.blocks == []
  }

  /** As many lines as end no paragraph. */
  predicate IsParagraphSpan(lines: seq<string>, s: Span, strip: string -> string) {
    && s.from < s.to <= |lines|
    && AllText(lines, s.from, s.to)
    && (s.to == |lines| || BreaksParagraph(lines[s.to], Next(lines, s.to)))
    && s.blocks == [ParagraphOf(lines[s.from..s.to], strip)]
  }

  predicate IsSpan(lines: seq<string>, s: Span, strip: string -> string) {
    || IsCodeSpan(lines, s)
    || IsHeadingSpan(lines, s, strip)
    || IsTableSpan(lines, s, strip)
    || IsBlankSpan(lines, s)
    || IsParagraphSpan(lines, s, strip)
  }

  /** `spans` are well-formed and lie end to end from line `from` to line `to`. */
  ghost predicate Tiles(lines: seq<string>, spans: seq<Span>, from: nat, to: nat, strip: string -> string)
    decreases |spans|
  {
    if spans == [] then from == to
    else
      && spans[0].from == from < |lines|
      && IsSpan(lines, spans[0], strip)
      && Tiles(lines, spans[1..], spans[0].to, to, strip)
  }

  predicate StuckAt(lines: seq<string>, i: nat) {
    && i < |lines|
    && !IsFence(lines[i])
    && IsStuck(lines[i], Next(lines, i))
  }

  lemma {:induction false} CodeEndMeaning(lines: seq<string>, i: nat, e: nat)
    requires i <= e <= |lines|
    ensures e == CodeEnd(lines, i) <==> NoFence(lines, i, e) && (e == |lines| || IsFence(lines[e]))
    decreases |lines| - i
  {
    if i < |lines| && !IsFence(lines[i]) {
      if i < e {
        CodeEndMeaning(lines, i + 1, e);
      }
    }
  }

  lemma {:induction false} RowsEndMeaning(lines: seq<string>, i: nat, e: nat)
    requires i <= e <= |lines|
    ensures e == RowsEnd(lines, i) <==> AllRows(lines, i, e) && (e == |lines| || !IsRow(lines[e]))
    decreases |lines| - i
  {
    if i < |lines| && IsRow(lines[i]) {
      if i < e {
        RowsEndMeaning(lines, i + 1, e);
      }
    }
  }

  lemma {:induction false} TextEndMeaning(lines: seq<string>, i: nat, e: nat)
    requires i <= e <= |lines|
    ensures e == TextEnd(lines, i) <==>
            AllText(lines, i, e) && (e == |lines| || BreaksParagraph(lines[e], Next(lines, e)))
    decreases |lines| - i
  {
    if i < |lines| && !BreaksParagraph(lines[i], Next(lines, i)) {
      if i < e {
        TextEndMeaning(lines, i + 1, e);
      }
    }
  }

  lemma FenceIsNoMark(lead: string)
    requires StartsWith(lead, FENCE)
    ensures HashRun(lead) == 0 && lead != ""
  {
    assert lead[0] == lead[..|FENCE|][0] == FENCE[0] == '`';
  }

  /** A heading mark is never a fence and always has a title after it. */
  lemma MarkHasTitle(line: string)
    requires SpacedMark(Lead(line)) || CompactMark(Lead(line))
    ensures !IsFence(line) && Lead(line) != "" && Title(Lead(line)) != ""
  {
    var lead := Lead(line);
    var n := HashRun(lead);
    HashRunMeaning(lead);
    TrimStartDrops(lead[n..]);
    TrimEndKeeps(line);
    TrimStartDrops(TrimEnd(line));
    assert lead[|lead| - 1] == TrimEnd(line)[|TrimEnd(line)| - 1];
    assert !IsSpace(lead[n..][|lead| - 1 - n]);
    if IsFence(line) {
      FenceIsNoMark(lead);
    }
  }

  /**
   When the outer branches refuse a line, no test of the paragraph loop fires on it and the round
   moves on; the one exception is a heading mark before a title that `.` cannot cross.
   */
  lemma RoundAdvances(lines: seq<string>, i: nat, strip: string -> string)
    requires i < |lines|
    ensures Round(lines, i, strip).to == i <==> StuckAt(lines, i)
  {
    var line, next := lines[i], Next(lines, i);
    if SpacedMark(Lead(line)) || CompactMark(Lead(line)) {
      MarkHasTitle(line);
    }
    assert BreaksParagraph(line, next) ==> TextEnd(lines, i) == i;
  }

  /** A round that moves on consumes a well-formed span. */
  lemma RoundIsSpan(lines: seq<string>, i: nat, strip: string -> string)
    requires i < |lines|
    requires Round(lines, i, strip).to > i
    ensures IsSpan(lines, Round(lines, i, strip), strip)
  {
    hide IsFence, IsHeading, IsTableHead, Lead, HeadingOf, ParagraphOf, IsRow, BreaksParagraph;
    var s := Round(lines, i, strip);
    if IsFence(lines[i]) {
      CodeEndMeaning(lines, i + 1, CodeEnd(lines, i + 1));
      assert IsCodeSpan(lines, s);
    } else if IsHeading(Lead(lines[i])) {
      assert IsHeadingSpan(lines, s, strip);
    } else if IsTableHead(lines[i], Next(lines, i)) {
      assert i + 2 <= |lines|;
      RowsEndMeaning(lines, i + 2, RowsEnd(lines, i + 2));
      assert IsTableSpan(lines, s, strip);
    } else if Lead(lines[i]) == "" {
      assert IsBlankSpan(lines, s);
    } else {
      TextEndMeaning(lines, i, TextEnd(lines, i));
      assert IsParagraphSpan(lines, s, strip);
    }
  }

  lemma CodeSpanIsRound(lines: seq<string>, s: Span, strip: string -> string)
    requires s.from < |lines|
    requires IsCodeSpan(lines, s)
    ensures s == Round(lines, s.from, strip)
  {
    hide IsFence, IsHeading, Lead, IsTableHead, HeadingOf, ParagraphOf;
    CodeEndMeaning(lines, s.from + 1, s.to - 1);
  }

  lemma TableSpanIsRound(lines: seq<string>, s: Span, strip: string -> string)
    requires s.from < |lines|
    requires IsTableSpan(lines, s, strip)
    ensures s == Round(lines, s.from, strip)
  {
    hide IsFence, IsHeading, Lead, IsRow, HeadingOf, ParagraphOf, SplitTableRow;
    RowsEndMeaning(lines, s.from + 2, s.to);
  }

  lemma ParagraphSpanIsRound(lines: seq<string>, s: Span, strip: string -> string)
    requires s.from < |lines|
    requires IsParagraphSpan(lines, s, strip)
    ensures s == Round(lines, s.from, strip)
  {
    TextEndMeaning(lines, s.from, s.to);
    assert !BreaksParagraph(lines[s.from], Next(lines, s.from));
  }

  /** A line starts at most one well-formed span. */
  lemma SpanIsRound(lines: seq<string>, s: Span, strip: string -> string)
    requires s.from < |lines|
    requires IsSpan(lines, s, strip)
    ensures s == Round(lines, s.from, strip) && s.to > s.from
  {
    if IsCodeSpan(lines, s) {
      CodeSpanIsRound(lines, s, strip);
    } else if IsTableSpan(lines, s, strip) {
      TableSpanIsRound(lines, s, strip);
    } else if IsParagraphSpan(lines, s, strip) {
      ParagraphSpanIsRound(lines, s, strip);
    }
  }

  // ----- Main results

  /** Whether the parser answers or hangs, what it has consumed is a tiling up to where it stands. */
  lemma {:induction false} ParseTiles(lines: seq<string>, i: nat, strip: string -> string)
    requires i <= |lines|
    ensures match ParseFrom(lines, i, strip)
            case Done(spans) => Tiles(lines, spans, i, FinalLine(lines, i, spans), strip)
            case Stuck(spans, at) => Tiles(lines, spans, i, at, strip) && StuckAt(lines, at)
    decreases |lines| - i
  {
    if i < |lines| {
      var span := Round(lines, i, strip);
      RoundAdvances(lines, i, strip);
      if span.to > i {
        RoundIsSpan(lines, i, strip);
        RoundStaysInside(lines, i, strip);
        if span.to <= |lines| {
          ParseTiles(lines, span.to, strip);
          var rest := ParseFrom(lines, span.to, strip).spans;
          assert ([span] + rest)[1..] == rest;
        } else {
          assert ([span] + [])[1..] == [];
        }
      }
    }
  }

  /** Where the last span ends. */
  function FinalLine(lines: seq<string>, i: nat, spans: seq<Span>): nat {
    if spans == [] then i else spans[|spans| - 1].to
  }

  lemma RoundStaysInside(lines: seq<string>, i: nat, strip: string -> string)
    requires i < |lines|
    ensures Round(lines, i, strip).to <= |lines| + 1
    ensures Round(lines, i, strip).to == |lines| + 1 <==> IsFence(lines[i]) && NoFence(lines, i + 1, |lines|)
  {
    CodeEndMeaning(lines, i + 1, CodeEnd(lines, i + 1));
    CodeEndMeaning(lines, i + 1, |lines|);
  }

  /** There is only one tiling, and it is the parser's: up to the end of the lines or up to a stuck line. */
  lemma {:induction false} TilingIsParse(lines: seq<string>, spans: seq<Span>, i: nat, to: nat, strip: string -> string)
    requires Tiles(lines, spans, i, to, strip)
    ensures to >= |lines| ==> ParseFrom(lines, i, strip) == Done(spans)
    ensures StuckAt(lines, to) ==> ParseFrom(lines, i, strip) == Stuck(spans, to)
    decreases |spans|
  {
    hide IsSpan, Round, IsStuck;
    if spans == [] {
      if i < |lines| && StuckAt(lines, to) {
        RoundAdvances(lines, i, strip);
      }
    } else {
      SpanIsRound(lines, spans[0], strip);
      TilingIsParse(lines, spans[1..], spans[0].to, to, strip);
      assert spans == [spans[0]] + spans[1..];
    }
  }

  /** Some tiling leads from the first line to line `to`. */
  ghost predicate Reaches(lines: seq<string>, to: nat, strip: string -> string) {
    exists spans :: Tiles(lines, spans, 0, to, strip)
  }

  lemma ReachedLine(lines: seq<string>, strip: string -> string)
    ensures var parse := ParseFrom(lines, 0, strip);
            && (parse.Done? ==> FinalLine(lines, 0, parse.spans) >= |lines|
                                && Reaches(lines, FinalLine(lines, 0, parse.spans), strip))
            && (parse.Stuck? ==> StuckAt(lines, parse.at) && Reaches(lines, parse.at, strip))
  {
    ParseTiles(lines, 0, strip);
    if ParseFrom(lines, 0, strip).Done? {
      DoneReachesEnd(lines, 0, strip);
    }
  }

  lemma ReachedOutcome(lines: seq<string>, to: nat, strip: string -> string)
    requires Reaches(lines, to, strip)
    ensures to >= |lines| ==> ParseFrom(lines, 0, strip).Done?
    ensures StuckAt(lines, to) ==> ParseFrom(lines, 0, strip).Stuck?
  {
    var spans :| Tiles(lines, spans, 0, to, strip);
    TilingIsParse(lines, spans, 0, to, strip);
  }

  /**
   The parser answers exactly when the lines have a tiling, and hangs exactly when a tiling of the
   lines before it leads to a line that is stuck.
   */
  lemma ParserAnswersIff(lines: seq<string>, strip: string -> string)
    ensures ParseFrom(lines, 0, strip).Done? <==> exists to :: to >= |lines| && Reaches(lines, to, strip)
    ensures ParseFrom(lines, 0, strip).Stuck? <==> exists to :: StuckAt(lines, to) && Reaches(lines, to, strip)
  {
    ReachedLine(lines, strip);
    forall to | 0 <= to && Reaches(lines, to, strip)
      ensures to >= |lines| ==> ParseFrom(lines, 0, strip).Done?
      ensures StuckAt(lines, to) ==> ParseFrom(lines, 0, strip).Stuck?
    {
      ReachedOutcome(lines, to, strip);
    }
  }

  // ----- Whether the parser hangs, in one pass over the lines

  datatype Mode = Outside | InCode | BeforeSeparator | InRows

  /** The mode after a line that is read in mode `mode`. */
  function ModeAfter(lines: seq<string>, i: nat, mode: Mode): Mode
    requires i < |lines|
  {
    match ModeAt(lines[i], mode)
    case InCode => if IsFence(lines[i]) then Outside else InCode
    case BeforeSeparator => InRows
    case InRows => InRows
    case Outside =>
      if IsFence(lines[i]) then InCode
      else if IsHeading(Lead(lines[i])) then Outside
      else if IsTableHead(lines[i], Next(lines, i)) then BeforeSeparator
      else Outside
  }

  /** A line that is no row ends the rows. */
  function ModeAt(line: string, mode: Mode): Mode {
    if mode == InRows && !IsRow(line) then Outside else mode
  }

  /** The first stuck line outside code and tables, reading from line `i` on. */
  function FirstStuck(lines: seq<string>, i: nat, mode: Mode): Option<nat>
    decreases |lines| - i
  {
    if i >= |lines| then None
    else if ModeAt(lines[i], mode) == Outside && StuckAt(lines, i) then Some(i)
    else FirstStuck(lines, i + 1, ModeAfter(lines, i, mode))
  }

  lemma {:induction false} FirstStuckAfterCode(lines: seq<string>, i: nat)
    requires i <= |lines|
    ensures FirstStuck(lines, i, InCode) == FirstStuck(lines, CodeEnd(lines, i) + 1, Outside)
    decreases |lines| - i
  {
    hide IsFence, StuckAt, IsHeading, IsTableHead;
    if i < |lines| && !IsFence(lines[i]) {
      FirstStuckAfterCode(lines, i + 1);
    }
  }

  lemma {:induction false} FirstStuckAfterRows(lines: seq<string>, i: nat)
    requires i <= |lines|
    ensures FirstStuck(lines, i, InRows) == FirstStuck(lines, RowsEnd(lines, i), Outside)
    decreases |lines| - i
  {
    hide IsFence, StuckAt, IsHeading, IsTableHead, IsRow;
    if i < |lines| && IsRow(lines[i]) {
      FirstStuckAfterRows(lines, i + 1);
    }
  }

  lemma {:induction false} FirstStuckAfterText(lines: seq<string>, i: nat)
    requires i <= |lines|
    ensures FirstStuck(lines, i, Outside) == FirstStuck(lines, TextEnd(lines, i), Outside)
    decreases |lines| - i
  {
    hide IsFence, IsTableHead, SpacedMark, CompactMark, Lead;
    if i < |lines| && !BreaksParagraph(lines[i], Next(lines, i)) {
      FirstStuckAfterText(lines, i + 1);
    }
  }

  /** Reading the lines of one round, the pass finds nothing and is outside again. */
  lemma FirstStuckAfterRound(lines: seq<string>, i: nat, strip: string -> string)
    requires i < |lines| && !StuckAt(lines, i)
    ensures FirstStuck(lines, i, Outside) == FirstStuck(lines, Round(lines, i, strip).to, Outside)
  {
    hide IsFence, IsHeading, Lead, StuckAt, BreaksParagraph, IsRow, HeadingOf, ParagraphOf, SplitTableRow;
    if IsFence(lines[i]) {
      FirstStuckAfterCode(lines, i + 1);
    } else if IsHeading(Lead(lines[i])) {
    } else if IsTableHead(lines[i], Next(lines, i)) {
      SeparatorFollows(lines, i);
      FirstStuckAfterRows(lines, i + 2);
    } else if Lead(lines[i]) != "" {
      FirstStuckAfterText(lines, i);
    }
  }

  lemma {:induction false} HangsFromIff(lines: seq<string>, i: nat, strip: string -> string)
    ensures var parse := ParseFrom(lines, i, strip);
            FirstStuck(lines, i, Outside) == if parse.Stuck? then Some(parse.at) else None
    decreases |lines| - i
  {
    hide Round, StuckAt, ModeAfter;
    if i < |lines| {
      RoundAdvances(lines, i, strip);
      if !StuckAt(lines, i) {
        FirstStuckAfterRound(lines, i, strip);
        HangsFromIff(lines, Round(lines, i, strip).to, strip);
      }
    }
  }

  /** The parser hangs exactly on the texts in which one pass finds a stuck line, and on that line. */
  lemma ParserHangsIff(input: string, at: nat, strip: string -> string)
    ensures OutcomeOf(ParseFrom(Lines(input), 0, strip)) == Hangs(at) <==>
            FirstStuck(Lines(input), 0, Outside) == Some(at)
  {
    HangsFromIff(Lines(input), 0, strip);
  }

  /**
   An answered parse ends at the end of the lines, or one past it: exactly when the last block is a
   fence left open.
   */
  lemma {:induction false} DoneReachesEnd(lines: seq<string>, i: nat, strip: string -> string)
    requires i <= |lines|
    requires ParseFrom(lines, i, strip).Done?
    ensures var spans := ParseFrom(lines, i, strip).spans;
            && |lines| <= FinalLine(lines, i, spans) <= |lines| + 1
            && (FinalLine(lines, i, spans) == |lines| + 1 <==>
                spans != [] && var last := spans[|spans| - 1].from;
                               last < |lines| && IsFence(lines[last]) && NoFence(lines, last + 1, |lines|))
    decreases |lines| - i
  {
    hide Round, IsFence, NoFence;
    if i < |lines| {
      var span := Round(lines, i, strip);
      RoundStaysInside(lines, i, strip);
      if span.to < |lines| {
        DoneReachesEnd(lines, span.to, strip);
        assert ParseFrom(lines, span.to, strip).spans != [];
      }
    }
  }

  lemma TrimOneLine(s: string)
    requires OneLine(s)
    ensures OneLine(TrimStart(s)) && OneLine(TrimEnd(s))
  {
    TrimStartDrops(s);
    TrimEndKeeps(s);
  }

  /** Lines without the characters that only `.` refuses are never stuck. */
  lemma OneLineNeverStuck(lines: seq<string>, i: nat)
    requires i < |lines| && OneLine(lines[i])
    ensures !StuckAt(lines, i)
  {
    var lead := Lead(lines[i]);
    TrimOneLine(lines[i]);
    TrimOneLine(TrimEnd(lines[i]));
    HashRunMeaning(lead);
    var rest := lead[HashRun(lead)..];
    assert OneLine(rest);
    TrimOneLine(rest);
  }

  /** Free of U+2028 and U+2029. */
  predicate Plain(s: string) {
    forall i :: 0 <= i < |s| ==> s[i] != '\U{2028}' && s[i] != '\U{2029}'
  }

  lemma {:induction false} PlainSplit(s: string)
    requires Plain(s) && '\r' !in s
    ensures forall k :: 0 <= k < |Split(s, '\n')| ==> OneLine(Split(s, '\n')[k])
  {
    if s != "" {
      PlainSplit(s[1..]);
    }
  }

  lemma {:induction false} PlainReplaceCrLf(s: string)
    requires Plain(s)
    ensures Plain(ReplaceCrLf(s))
  {
    if s == "" {
    } else if |s| >= 2 && s[0] == '\r' && s[1] == '\n' {
      PlainReplaceCrLf(s[2..]);
    } else {
      PlainReplaceCrLf(s[1..]);
    }
  }

  lemma {:induction false} PlainReplaceCr(s: string)
    requires Plain(s)
    ensures Plain(ReplaceCr(s))
  {
    if s != "" {
      PlainReplaceCr(s[1..]);
    }
  }

  /** Text free of U+2028 and U+2029 is parsed to the end. */
  lemma PlainTextParses(input: string, strip: string -> string)
    requires Plain(input)
    ensures ParseFrom(Lines(input), 0, strip).Done?
  {
    PlainReplaceCrLf(input);
    PlainReplaceCr(ReplaceCrLf(input));
    EraseReplaceCr(ReplaceCrLf(input));
    PlainSplit(ReplaceCr(ReplaceCrLf(input)));
    NoStuckLineParses(Lines(input), strip);
  }

  lemma NoStuckLineParses(lines: seq<string>, strip: string -> string)
    requires forall k :: 0 <= k < |lines| ==> OneLine(lines[k])
    ensures ParseFrom(lines, 0, strip).Done?
  {
    ReachedLine(lines, strip);
    match ParseFrom(lines, 0, strip)
    case Done(_) =>
    case Stuck(_, at) => OneLineNeverStuck(lines, at);
  }

  /** A stuck line of an answered parse is hidden inside a code block or among the rows of a table. */
  lemma {:induction false} StuckLinesAreInside(lines: seq<string>, spans: seq<Span>, from: nat, to: nat, k: nat,
                                               strip: string -> string)
    requires Tiles(lines, spans, from, to, strip)
    requires from <= k < to && StuckAt(lines, k)
    ensures exists j :: && 0 <= j < |spans| && spans[j].from < k < spans[j].to
                        && (IsCodeSpan(lines, spans[j]) || IsTableSpan(lines, spans[j], strip))
    decreases |spans|
  {
    var s := spans[0];
    if k < s.to {
      SpanIsRound(lines, s, strip);
      MarkHasTitle(lines[k]);
      if k == s.from {
        RoundAdvances(lines, k, strip);
      }
      assert IsParagraphSpan(lines, s, strip) ==> !BreaksParagraph(lines[k], Next(lines, k));
      assert spans[0].from < k < spans[0].to;
    } else {
      StuckLinesAreInside(lines, spans[1..], s.to, to, k, strip);
      var j :| && 0 <= j < |spans[1..]| && spans[1..][j].from < k < spans[1..][j].to
               && (IsCodeSpan(lines, spans[1..][j]) || IsTableSpan(lines, spans[1..][j], strip));
      assert spans[1..][j] == spans[j + 1];
    }
  }

  const HANGING_HEADING: string := "# a\U{2028}b"

  lemma HangingHeadingIsStuck()
    ensures StuckAt([HANGING_HEADING], 0)
  {
    var lead := Lead(HANGING_HEADING);
    assert !IsSpace(HANGING_HEADING[4]) && TrimEnd(HANGING_HEADING) == HANGING_HEADING;
    assert !IsSpace(HANGING_HEADING[0]) && lead == HANGING_HEADING;
    HashRunMeaning(lead);
    assert lead[1..][0] == ' ' && HashRun(lead[1..]) == 0 && HashRun(lead) == 1;
    TrimStartDrops(lead[1..]);
    var title := Title(lead);
    assert lead[1..][1..][0] == 'a' && SpaceRun(lead[1..][1..]) == 0 && SpaceRun(lead[1..]) == 1;
    assert title == lead[1..][1..];
    assert title[1] == lead[3] == '\U{2028}';
    if IsFence(HANGING_HEADING) {
      FenceIsNoMark(lead);
    }
  }

  lemma HangingHeadingIsOneLine()
    ensures Lines(HANGING_HEADING) == [HANGING_HEADING]
  {
    NothingToReplace(HANGING_HEADING);
    hide ReplaceCr, ReplaceCrLf, Split;
    SplitJoin([HANGING_HEADING], '\n');
  }

  /** A heading whose title holds a line separator hangs the parser. */
  lemma HeadingWithSeparatorHangs(strip: string -> string)
    ensures OutcomeOf(ParseFrom(Lines(HANGING_HEADING), 0, strip)) == Hangs(0)
  {
    hide Lines, StuckAt, Round, HANGING_HEADING;
    HangingHeadingIsOneLine();
    HangingHeadingIsStuck();
    RoundAdvances([HANGING_HEADING], 0, strip);
  }

  lemma {:induction false} NothingToReplace(s: string)
    requires '\r' !in s
    ensures ReplaceCrLf(s) == s && ReplaceCr(s) == s
  {
    if s != "" {
      NothingToReplace(s[1..]);
    }
  }
}
