/**
 The word wrapper of the transcript image: greedy line filling followed by hard breaking,
 and the binary search that shortens a title to one line.

 `width` stands for the canvas measure. Nothing is known about it but what a lemma requires.
 */
module TextWrap {
  import opened Text

  /** No broken piece is longer than this. */
  const MAX_PIECE: nat := 48

  /** How many leading characters of `s` are not white space. */
  function WordRun(s: string): (n: nat)
    ensures n <= |s|
  {
    if s != "" && !IsSpace(s[0]) then 1 + WordRun(s[1..]) else 0
  }

  /** `paragraph.split(/\s+/).filter(Boolean)` */
  function Words(paragraph: string): seq<string> {
    if paragraph == "" then []
    else if IsSpace(paragraph[0]) then Words(paragraph[1..])
    else
      var n := WordRun(paragraph);
      [paragraph[..n]] + Words(paragraph[n..])
  }

  function Phrase(words: seq<string>): string {
    Join(words, " ")
  }

  function Flatten<T>(groups: seq<seq<T>>): seq<T> {
    if groups == [] then [] else groups[0] + Flatten(groups[1..])
  }

  /** The end of the line that starts at word `start` and already holds the words before `end`. */
  function LineEnd(words: seq<string>, start: nat, end: nat, width: string -> real, maxWidth: real): (e: nat)
    requires start < end <= |words|
    ensures end <= e <= |words|
    decreases |words| - end
  {
    if end < |words| && width(Phrase(words[start..end + 1])) <= maxWidth then
      LineEnd(words, start, end + 1, width, maxWidth)
    else
      end
  }

  /** The words from `start` on, grouped by the line the wrapper puts them on. */
  function GreedyGroups(words: seq<string>, start: nat, width: string -> real, maxWidth: real): seq<seq<string>>
    requires start <= |words|
    decreases |words| - start
  {
    if start == |words| then []
    else
      var end := LineEnd(words, start, start + 1, width, maxWidth);
      [words[start..end]] + GreedyGroups(words, end, width, maxWidth)
  }

  function Phrases(groups: seq<seq<string>>): seq<string> {
    if groups == [] then [] else [Phrase(groups[0])] + Phrases(groups[1..])
  }

  /** The lines of one paragraph before any hard breaking. */
  function ParagraphLines(paragraph: string, width: string -> real, maxWidth: real): seq<string> {
    var words := Words(paragraph);
    if words == [] then [""] else Phrases(GreedyGroups(words, 0, width, maxWidth))
  }

  function SoftLines(paragraphs: seq<string>, width: string -> real, maxWidth: real): seq<string> {
    if paragraphs == [] then []
    else ParagraphLines(paragraphs[0], width, maxWidth) + SoftLines(paragraphs[1..], width, maxWidth)
  }

  /** The longest prefix of at most `limit` characters that fits, or a single character. */
  function PieceLength(s: string, limit: nat, width: string -> real, maxWidth: real): (n: nat)
    requires 1 <= limit <= |s|
    ensures 1 <= n <= limit
    ensures n == 1 || width(s[..n]) <= maxWidth
    ensures forall longer :: n < longer <= limit ==> width(s[..longer]) > maxWidth
  {
    if limit > 1 && width(s[..limit]) > maxWidth then PieceLength(s, limit - 1, width, maxWidth) else limit
  }

  function Pieces(s: string, width: string -> real, maxWidth: real): seq<string> {
    if s == "" then []
    else
      var n := PieceLength(s, if |s| < MAX_PIECE then |s| else MAX_PIECE, width, maxWidth);
      [s[..n]] + Pieces(s[n..], width, maxWidth)
  }

  function BrokenLine(line: string, width: string -> real, maxWidth: real): seq<string> {
    if width(line) <= maxWidth then [line] else Pieces(line, width, maxWidth)
  }

  function BrokenLines(lines: seq<string>, width: string -> real, maxWidth: real): seq<string> {
    if lines == [] then []
    else BrokenLine(lines[0], width, maxWidth) + BrokenLines(lines[1..], width, maxWidth)
  }

  /** What the wrapper returns for `text`. */
  function Wrapped(text: string, width: string -> real, maxWidth: real): seq<string> {
    BrokenLines(SoftLines(Lines(text), width, maxWidth), width, maxWidth)
  }

  // ----- The wrapper, loop by loop

  lemma {:induction false} PhraseAppend(words: seq<string>, word: string)
    requires words != []
    ensures Phrase(words + [word]) == Phrase(words) + " " + word
  {
    if |words| == 1 {
      assert (words + [word])[1..] == [word] && Phrase([word]) == word;
      assert words[0] + (" " + word) == words[0] + " " + word;
    } else {
      assert (words + [word])[1..] == words[1..] + [word];
      PhraseAppend(words[1..], word);
      assert Phrase(words) == words[0] + " " + Phrase(words[1..]);
    }
  }

  lemma {:induction false} SoftLinesAppend(a: seq<string>, b: seq<string>, width: string -> real, maxWidth: real)
    ensures SoftLines(a + b, width, maxWidth) == SoftLines(a, width, maxWidth) + SoftLines(b, width, maxWidth)
  {
    if a == [] {
      assert a + b == b;
    } else {
      assert (a + b)[1..] == a[1..] + b;
      SoftLinesAppend(a[1..], b, width, maxWidth);
    }
  }

  lemma {:induction false} BrokenLinesAppend(a: seq<string>, b: seq<string>, width: string -> real, maxWidth: real)
    ensures BrokenLines(a + b, width, maxWidth) == BrokenLines(a, width, maxWidth) + BrokenLines(b, width, maxWidth)
  {
    if a == [] {
      assert a + b == b;
    } else {
      assert (a + b)[1..] == a[1..] + b;
      BrokenLinesAppend(a[1..], b, width, maxWidth);
    }
  }

  /** The lines still to come when the current line holds the words `start..end`. */
  function Remaining(words: seq<string>, start: nat, end: nat, width: string -> real, maxWidth: real): seq<string>
    requires start < end <= |words|
  {
    var e := LineEnd(words, start, end, width, maxWidth);
    [Phrase(words[start..e])] + Phrases(GreedyGroups(words, e, width, maxWidth))
  }

  lemma RemainingStep(words: seq<string>, start: nat, end: nat, width: string -> real, maxWidth: real,
                      lines: seq<string>)
    requires start < end < |words|
    ensures var now := Phrase(words[start..end]);
            && Phrase(words[end..end + 1]) == words[end]
            && Phrase(words[start..end + 1]) == now + " " + words[end]
            && (if width(now + " " + words[end]) <= maxWidth then
                  Remaining(words, start, end, width, maxWidth) == Remaining(words, start, end + 1, width, maxWidth)
                else
                  lines + Remaining(words, start, end, width, maxWidth) ==
                  lines + [now] + Remaining(words, end, end + 1, width, maxWidth))
  {
    assert words[start..end + 1] == words[start..end] + [words[end]];
    PhraseAppend(words[start..end], words[end]);
    AppendAssociates(lines, [Phrase(words[start..end])], Remaining(words, end, end + 1, width, maxWidth));
  }

  /** The greedy phase on one paragraph. */
  method FillLines(paragraph: string, width: string -> real, maxWidth: real) returns (lines: seq<string>)
    ensures lines == ParagraphLines(paragraph, width, maxWidth)
  {
    var words := Words(paragraph);
    if |words| == 0 {
      return [""];
    }
    lines := [];
    var current := words[0];
    ghost var start := 0;
    ghost var all := Phrases(GreedyGroups(words, 0, width, maxWidth));
    assert all == lines + Remaining(words, 0, 1, width, maxWidth);
    for index := 1 to |words|
      invariant start < index
      invariant current == Phrase(words[start..index])
      invariant all == lines + Remaining(words, start, index, width, maxWidth)
    {
      RemainingStep(words, start, index, width, maxWidth, lines);
      var next := current + " " + words[index];
      if width(next) <= maxWidth {
        current := next;
      } else {
        lines := lines + [current];
        current := words[index];
        start := index;
      }
    }
    lines := lines + [current];
  }

  /** The hard breaking of one line. */
  method BreakLine(line: string, width: string -> real, maxWidth: real) returns (pieces: seq<string>)
    ensures pieces == BrokenLine(line, width, maxWidth)
  {
    if width(line) <= maxWidth {
      return [line];
    }
    pieces := [];
    var remaining := line;
    assert pieces + Pieces(line, width, maxWidth) == Pieces(line, width, maxWidth);
    while |remaining| > 0
      invariant pieces + Pieces(remaining, width, maxWidth) == Pieces(line, width, maxWidth)
      decreases |remaining|
    {
      ghost var limit := if |remaining| < MAX_PIECE then |remaining| else MAX_PIECE;
      var splitIndex := if |remaining| < MAX_PIECE then |remaining| else MAX_PIECE;
      while splitIndex > 1 && width(remaining[..splitIndex]) > maxWidth
        invariant 1 <= splitIndex <= limit
        invariant PieceLength(remaining, limit, width, maxWidth) == PieceLength(remaining, splitIndex, width, maxWidth)
      {
        splitIndex := splitIndex - 1;
      }
      AppendAssociates(pieces, [remaining[..splitIndex]], Pieces(remaining[splitIndex..], width, maxWidth));
      pieces := pieces + [remaining[..splitIndex]];
      remaining := remaining[splitIndex..];
    }
  }

  method WrapText(text: string, width: string -> real, maxWidth: real) returns (hardBroken: seq<string>)
    ensures hardBroken == Wrapped(text, width, maxWidth)
  {
    hide ParagraphLines, BrokenLine, Lines;
    var paragraphs := Lines(text);
    var lines := [];
    for i := 0 to |paragraphs|
      invariant lines == SoftLines(paragraphs[..i], width, maxWidth)
    {
      var filled := FillLines(paragraphs[i], width, maxWidth);
      lines := lines + filled;
      assert paragraphs[..i + 1] == paragraphs[..i] + [paragraphs[i]];
      SoftLinesAppend(paragraphs[..i], [paragraphs[i]], width, maxWidth);
      assert SoftLines([paragraphs[i]], width, maxWidth) == filled + [];
    }
    assert paragraphs[..|paragraphs|] == paragraphs;
    hardBroken := [];
    for i := 0 to |lines|
      invariant hardBroken == BrokenLines(lines[..i], width, maxWidth)
    {
      var pieces := BreakLine(lines[i], width, maxWidth);
      hardBroken := hardBroken + pieces;
      assert lines[..i + 1] == lines[..i] + [lines[i]];
      BrokenLinesAppend(lines[..i], [lines[i]], width, maxWidth);
      assert BrokenLines([lines[i]], width, maxWidth) == pieces + [];
    }
    assert lines[..|lines|] == lines;
  }

  // ----- The greedy phase uses as few lines as any layout

  /** A line can be given to the drawing pass unbroken if it fits, and a single word has no choice. */
  ghost predicate Admissible(group: seq<string>, width: string -> real, maxWidth: real) {
    group != [] && (|group| == 1 || width(Phrase(group)) <= maxWidth)
  }

  /** `layout` cuts `words` into contiguous admissible lines. */
  ghost predicate LaysOut(layout: seq<seq<string>>, words: seq<string>, width: string -> real, maxWidth: real) {
    && Flatten(layout) == words
    && forall i :: 0 <= i < |layout| ==> Admissible(layout[i], width, maxWidth)
  }

  /** A range of words is no wider than a range that contains it. */
  ghost predicate Monotone(words: seq<string>, width: string -> real) {
    forall a, b, c, d :: NoWider(words, a, b, c, d, width)
  }

  ghost predicate NoWider(words: seq<string>, a: int, b: int, c: int, d: int, width: string -> real) {
    0 <= a <= b < c <= d <= |words| ==> width(Phrase(words[b..c])) <= width(Phrase(words[a..d]))
  }

  lemma {:induction false} LineEndFits(words: seq<string>, start: nat, end: nat, width: string -> real, maxWidth: real)
    requires start < end <= |words|
    requires Admissible(words[start..end], width, maxWidth)
    ensures Admissible(words[start..LineEnd(words, start, end, width, maxWidth)], width, maxWidth)
    decreases |words| - end
  {
    if end < |words| && width(Phrase(words[start..end + 1])) <= maxWidth {
      LineEndFits(words, start, end + 1, width, maxWidth);
    }
  }

  /** The wrapper's own lines are a layout of the words. */
  lemma {:induction false} GreedyLaysOut(words: seq<string>, start: nat, width: string -> real, maxWidth: real)
    requires start <= |words|
    ensures LaysOut(GreedyGroups(words, start, width, maxWidth), words[start..], width, maxWidth)
    decreases |words| - start
  {
    if start < |words| {
      var end := LineEnd(words, start, start + 1, width, maxWidth);
      LineEndFits(words, start, start + 1, width, maxWidth);
      GreedyLaysOut(words, end, width, maxWidth);
      assert words[start..] == words[start..end] + words[end..];
    }
  }

  lemma {:induction false} LineEndFull(words: seq<string>, start: nat, end: nat, width: string -> real, maxWidth: real)
    requires start < end <= |words|
    ensures var e := LineEnd(words, start, end, width, maxWidth);
            e < |words| ==> width(Phrase(words[start..e + 1])) > maxWidth
    decreases |words| - end
  {
    if end < |words| && width(Phrase(words[start..end + 1])) <= maxWidth {
      LineEndFull(words, start, end + 1, width, maxWidth);
    }
  }

  /** No line has room for the first word of the next one. */
  lemma {:induction false} GreedyLinesFull(words: seq<string>, start: nat, width: string -> real, maxWidth: real,
                                           i: nat)
    requires start <= |words|
    requires i + 1 < |GreedyGroups(words, start, width, maxWidth)|
    ensures var groups := GreedyGroups(words, start, width, maxWidth);
            groups[i + 1] != [] && width(Phrase(groups[i] + [groups[i + 1][0]])) > maxWidth
    decreases |words| - start
  {
    hide LineEnd, Phrase;
    var end := LineEnd(words, start, start + 1, width, maxWidth);
    if i == 0 {
      LineEndFull(words, start, start + 1, width, maxWidth);
      assert words[end..LineEnd(words, end, end + 1, width, maxWidth)][0] == words[end];
      assert words[start..end] + [words[end]] == words[start..end + 1];
    } else {
      GreedyLinesFull(words, end, width, maxWidth, i - 1);
    }
  }

  /** A line that fits ends no later than the greedy line with the same start. */
  lemma {:induction false} LineEndReaches(words: seq<string>, start: nat, end: nat, goal: nat,
                                          width: string -> real, maxWidth: real)
    requires Monotone(words, width)
    requires start < end <= goal <= |words|
    requires width(Phrase(words[start..goal])) <= maxWidth
    ensures goal <= LineEnd(words, start, end, width, maxWidth)
    decreases goal - end
  {
    if end < goal {
      assert NoWider(words, start, start, end + 1, goal, width);
      LineEndReaches(words, start, end + 1, goal, width, maxWidth);
    }
  }

  /** Greedy stays ahead: started no earlier than a rival layout, it needs no more lines. */
  lemma {:induction false} StaysAhead(words: seq<string>, start: nat, behind: nat, layout: seq<seq<string>>,
                                      width: string -> real, maxWidth: real)
    requires Monotone(words, width)
    requires behind <= start <= |words|
    requires LaysOut(layout, words[behind..], width, maxWidth)
    ensures |GreedyGroups(words, start, width, maxWidth)| <= |layout|
    decreases |layout|
  {
    if start < |words| {
      assert layout != [];
      var group := layout[0];
      assert Admissible(group, width, maxWidth);
      var goal := behind + |group|;
      assert group == words[behind..][..|group|] == words[behind..goal];
      var end := LineEnd(words, start, start + 1, width, maxWidth);
      if goal > start + 1 {
        assert NoWider(words, behind, start, goal, goal, width);
        LineEndReaches(words, start, start + 1, goal, width, maxWidth);
      }
      assert Flatten(layout[1..]) == words[behind..][|group|..] == words[goal..];
      StaysAhead(words, end, goal, layout[1..], width, maxWidth);
    }
  }

  /**
   The greedy phase needs the fewest lines: its own lines are a layout of the paragraph's words, and
   no layout has fewer.
   */
  lemma GreedyIsShortest(words: seq<string>, layout: seq<seq<string>>, width: string -> real, maxWidth: real)
    requires Monotone(words, width)
    requires LaysOut(layout, words, width, maxWidth)
    ensures LaysOut(GreedyGroups(words, 0, width, maxWidth), words, width, maxWidth)
    ensures |GreedyGroups(words, 0, width, maxWidth)| <= |layout|
  {
    assert words[0..] == words;
    GreedyLaysOut(words, 0, width, maxWidth);
    StaysAhead(words, 0, 0, layout, width, maxWidth);
  }

  // ----- Conservation

  lemma {:induction false} EraseWords(paragraph: string)
    ensures Erase(Concat(Words(paragraph))) == Erase(paragraph)
  {
    if paragraph == "" {
    } else if IsSpace(paragraph[0]) {
      EraseWords(paragraph[1..]);
    } else {
      var n := WordRun(paragraph);
      EraseWords(paragraph[n..]);
      assert paragraph == paragraph[..n] + paragraph[n..];
      EraseConcat(paragraph[..n], paragraph[n..]);
      EraseConcat(paragraph[..n], Concat(Words(paragraph[n..])));
    }
  }

  lemma {:induction false} ErasePhrase(words: seq<string>)
    ensures Erase(Phrase(words)) == Erase(Concat(words))
  {
    if |words| == 1 {
      assert words[1..] == [] && words[0] + "" == words[0];
    } else if |words| > 1 {
      ErasePhrase(words[1..]);
      EraseConcat(words[0], Concat(words[1..]));
      EraseConcat(words[0] + " ", Phrase(words[1..]));
      EraseConcat(words[0], " ");
      EraseBlank(" ");
    }
  }

  lemma {:induction false} ErasePhrases(groups: seq<seq<string>>)
    ensures Erase(Concat(Phrases(groups))) == Erase(Concat(Flatten(groups)))
  {
    if groups != [] {
      ErasePhrases(groups[1..]);
      ErasePhrase(groups[0]);
      assert Phrases(groups)[1..] == Phrases(groups[1..]);
      EraseConcat(Phrase(groups[0]), Concat(Phrases(groups[1..])));
      ConcatAppend(groups[0], Flatten(groups[1..]));
      EraseConcat(Concat(groups[0]), Concat(Flatten(groups[1..])));
    }
  }

  lemma EraseParagraph(paragraph: string, width: string -> real, maxWidth: real)
    ensures Erase(Concat(ParagraphLines(paragraph, width, maxWidth))) == Erase(paragraph)
  {
    var words := Words(paragraph);
    EraseWords(paragraph);
    if words == [] {
      assert [""][1..] == [] && Concat([""]) == "";
    } else {
      assert words[0..] == words;
      GreedyLaysOut(words, 0, width, maxWidth);
      ErasePhrases(GreedyGroups(words, 0, width, maxWidth));
    }
  }

  lemma {:induction false} EraseSoftLines(paragraphs: seq<string>, width: string -> real, maxWidth: real)
    ensures Erase(Concat(SoftLines(paragraphs, width, maxWidth))) == Erase(Concat(paragraphs))
  {
    if paragraphs != [] {
      var first := ParagraphLines(paragraphs[0], width, maxWidth);
      var rest := SoftLines(paragraphs[1..], width, maxWidth);
      EraseParagraph(paragraphs[0], width, maxWidth);
      EraseSoftLines(paragraphs[1..], width, maxWidth);
      ConcatAppend(first, rest);
      EraseConcat(Concat(first), Concat(rest));
      EraseConcat(paragraphs[0], Concat(paragraphs[1..]));
    }
  }

  lemma {:induction false} PiecesRejoin(s: string, width: string -> real, maxWidth: real)
    ensures Concat(Pieces(s, width, maxWidth)) == s
    ensures forall i :: 0 <= i < |Pieces(s, width, maxWidth)| ==>
                          var piece := Pieces(s, width, maxWidth)[i];
                          1 <= |piece| <= MAX_PIECE && (|piece| == 1 || width(piece) <= maxWidth)
  {
    if s != "" {
      var n := PieceLength(s, if |s| < MAX_PIECE then |s| else MAX_PIECE, width, maxWidth);
      PiecesRejoin(s[n..], width, maxWidth);
      assert s == s[..n] + s[n..];
    }
  }

  /**
   Hard breaking takes as much as it may: every piece but the last has 48 characters, or any longer
   prefix of what is left, up to 48 characters, is too wide.
   */
  lemma PiecesAreFull(line: string, width: string -> real, maxWidth: real, i: nat)
    requires width(line) > maxWidth
    requires i + 1 < |BrokenLine(line, width, maxWidth)|
    ensures var pieces := BrokenLine(line, width, maxWidth);
            var left := Concat(pieces[i..]);
            && |pieces[i]| <= 48
            && (|pieces[i]| == 48 || forall m :: |pieces[i]| < m <= 48 && m <= |left| ==> width(left[..m]) > maxWidth)
            && (|pieces[i]| == 48 || (pieces[i + 1] != "" && width(pieces[i] + pieces[i + 1][..1]) > maxWidth))
  {
    PiecesFull(line, width, maxWidth, i);
    var pieces := Pieces(line, width, maxWidth);
    PiecesRejoin(line, width, maxWidth);
    var left := Concat(pieces[i..]);
    assert pieces[i..][1..] == pieces[i + 1..] && pieces[i + 1..][0] == pieces[i + 1];
    assert left == pieces[i] + Concat(pieces[i + 1..]);
    assert Concat(pieces[i + 1..]) == pieces[i + 1] + Concat(pieces[i + 1..][1..]);
    assert left[..|pieces[i]| + 1] == pieces[i] + pieces[i + 1][..1];
  }

  lemma {:induction false} PiecesFull(s: string, width: string -> real, maxWidth: real, i: nat)
    requires i < |Pieces(s, width, maxWidth)|
    ensures var pieces := Pieces(s, width, maxWidth);
            var left := Concat(pieces[i..]);
            && |pieces[i]| <= 48
            && (|pieces[i]| == 48 || forall m :: |pieces[i]| < m <= 48 && m <= |left| ==> width(left[..m]) > maxWidth)
    decreases |s|
  {
    var pieces := Pieces(s, width, maxWidth);
    var n := PieceLength(s, if |s| < MAX_PIECE then |s| else MAX_PIECE, width, maxWidth);
    if i == 0 {
      PiecesRejoin(s, width, maxWidth);
      assert pieces[0..] == pieces;
    } else {
      PiecesFull(s[n..], width, maxWidth, i - 1);
      assert pieces[i..] == Pieces(s[n..], width, maxWidth)[i - 1..];
    }
  }

  lemma {:induction false} BrokenLinesRejoin(lines: seq<string>, width: string -> real, maxWidth: real)
    ensures Concat(BrokenLines(lines, width, maxWidth)) == Concat(lines)
  {
    if lines != [] {
      BrokenLinesRejoin(lines[1..], width, maxWidth);
      PiecesRejoin(lines[0], width, maxWidth);
      ConcatAppend(BrokenLine(lines[0], width, maxWidth), BrokenLines(lines[1..], width, maxWidth));
      assert Concat([lines[0]]) == lines[0] + Concat([]);
    }
  }

  /** Wrapping loses, adds and reorders nothing but white space. */
  lemma WrapConserves(text: string, width: string -> real, maxWidth: real)
    ensures Erase(Concat(Wrapped(text, width, maxWidth))) == Erase(text)
  {
    EraseLines(text);
    EraseSoftLines(Lines(text), width, maxWidth);
    BrokenLinesRejoin(SoftLines(Lines(text), width, maxWidth), width, maxWidth);
  }

  // ----- What a wrapped line can look like

  lemma {:induction false} BrokenLinesFit(lines: seq<string>, width: string -> real, maxWidth: real)
    ensures forall i :: 0 <= i < |BrokenLines(lines, width, maxWidth)| ==>
                          var line := BrokenLines(lines, width, maxWidth)[i];
                          width(line) <= maxWidth || |line| == 1
  {
    if lines != [] {
      PiecesRejoin(lines[0], width, maxWidth);
      BrokenLinesFit(lines[1..], width, maxWidth);
    }
  }

  /** Every line of the result fits, or is a single character that cannot be broken further. */
  lemma WrapFits(text: string, width: string -> real, maxWidth: real, i: nat)
    requires i < |Wrapped(text, width, maxWidth)|
    ensures width(Wrapped(text, width, maxWidth)[i]) <= maxWidth || |Wrapped(text, width, maxWidth)[i]| == 1
  {
    BrokenLinesFit(SoftLines(Lines(text), width, maxWidth), width, maxWidth);
  }

  lemma {:induction false} WordsAreWords(paragraph: string)
    ensures forall i :: 0 <= i < |Words(paragraph)| ==> IsWord(Words(paragraph)[i])
  {
    if paragraph == "" {
    } else if IsSpace(paragraph[0]) {
      WordsAreWords(paragraph[1..]);
    } else {
      WordRunSolid(paragraph);
      WordsAreWords(paragraph[WordRun(paragraph)..]);
    }
  }

  predicate IsWord(s: string) {
    s != "" && forall i :: 0 <= i < |s| ==> !IsSpace(s[i])
  }

  lemma {:induction false} WordRunSolid(s: string)
    ensures forall i :: 0 <= i < WordRun(s) ==> !IsSpace(s[i])
  {
    if s != "" && !IsSpace(s[0]) {
      WordRunSolid(s[1..]);
    }
  }

  lemma {:induction false} PhrasesPick(groups: seq<seq<string>>, i: nat)
    requires i < |groups|
    ensures |Phrases(groups)| == |groups| && Phrases(groups)[i] == Phrase(groups[i])
  {
    if i > 0 {
      PhrasesPick(groups[1..], i - 1);
    } else if |groups| > 1 {
      PhrasesPick(groups[1..], 0);
    }
  }

  lemma {:induction false} FlattenContains<T>(groups: seq<seq<T>>, i: nat, j: nat)
    requires i < |groups| && j < |groups[i]|
    ensures groups[i][j] in Flatten(groups)
  {
    if i > 0 {
      FlattenContains(groups[1..], i - 1, j);
    }
  }

  /** Only a single word ever reaches the breaking loop: a line of several words always fits. */
  lemma {:induction false} OnlyWordsBreak(paragraphs: seq<string>, width: string -> real, maxWidth: real, i: nat)
    requires i < |SoftLines(paragraphs, width, maxWidth)|
    requires width(SoftLines(paragraphs, width, maxWidth)[i]) > maxWidth
    requires SoftLines(paragraphs, width, maxWidth)[i] != ""
    ensures IsWord(SoftLines(paragraphs, width, maxWidth)[i])
  {
    var first := ParagraphLines(paragraphs[0], width, maxWidth);
    if i < |first| {
      var words := Words(paragraphs[0]);
      var groups := GreedyGroups(words, 0, width, maxWidth);
      assert words[0..] == words;
      GreedyLaysOut(words, 0, width, maxWidth);
      assert |groups| > 0;
      PhrasesPick(groups, 0);
      PhrasesPick(groups, i);
      assert Admissible(groups[i], width, maxWidth);
      FlattenContains(groups, i, 0);
      WordsAreWords(paragraphs[0]);
    } else {
      OnlyWordsBreak(paragraphs[1..], width, maxWidth, i - |first|);
    }
  }

  // ----- Whole texts

  ghost predicate WordsFit(paragraphs: seq<string>, width: string -> real, maxWidth: real) {
    forall p, i :: 0 <= p < |paragraphs| && 0 <= i < |Words(paragraphs[p])| ==>
                     width(Words(paragraphs[p])[i]) <= maxWidth
  }

  /** The number of lines a layout of every paragraph takes; a blank paragraph still takes one. */
  function LayoutSize(layouts: seq<seq<seq<string>>>): nat {
    if layouts == [] then 0
    else (if layouts[0] == [] then 1 else |layouts[0]|) + LayoutSize(layouts[1..])
  }

  lemma {:induction false} UnbrokenLines(lines: seq<string>, width: string -> real, maxWidth: real)
    requires forall i :: 0 <= i < |lines| ==> width(lines[i]) <= maxWidth
    ensures BrokenLines(lines, width, maxWidth) == lines
  {
    if lines != [] {
      UnbrokenLines(lines[1..], width, maxWidth);
    }
  }

  lemma FittingParagraph(paragraph: string, width: string -> real, maxWidth: real)
    requires width("") <= maxWidth
    requires forall i :: 0 <= i < |Words(paragraph)| ==> width(Words(paragraph)[i]) <= maxWidth
    ensures forall i :: 0 <= i < |ParagraphLines(paragraph, width, maxWidth)| ==>
                          width(ParagraphLines(paragraph, width, maxWidth)[i]) <= maxWidth
  {
    var words := Words(paragraph);
    var groups := GreedyGroups(words, 0, width, maxWidth);
    var lines := ParagraphLines(paragraph, width, maxWidth);
    assert words[0..] == words;
    GreedyLaysOut(words, 0, width, maxWidth);
    forall i | 0 <= i < |lines| ensures width(lines[i]) <= maxWidth {
      if words != [] {
        assert groups != [];
        PhrasesPick(groups, 0);
        PhrasesPick(groups, i);
        assert Admissible(groups[i], width, maxWidth);
        FlattenContains(groups, i, 0);
      }
    }
  }

  /** When every word fits, nothing is broken: each paragraph keeps its greedy lines. */
  lemma {:induction false} FittingWordsStayWhole(paragraphs: seq<string>, width: string -> real, maxWidth: real)
    requires width("") <= maxWidth
    requires WordsFit(paragraphs, width, maxWidth)
    ensures var lines := SoftLines(paragraphs, width, maxWidth);
            BrokenLines(lines, width, maxWidth) == lines
  {
    if paragraphs != [] {
      var first := ParagraphLines(paragraphs[0], width, maxWidth);
      FittingParagraph(paragraphs[0], width, maxWidth);
      FittingWordsStayWhole(paragraphs[1..], width, maxWidth);
      UnbrokenLines(first, width, maxWidth);
      BrokenLinesAppend(first, SoftLines(paragraphs[1..], width, maxWidth), width, maxWidth);
    }
  }

  lemma {:induction false} SoftLinesShortest(paragraphs: seq<string>, layouts: seq<seq<seq<string>>>,
                                             width: string -> real, maxWidth: real)
    requires |layouts| == |paragraphs|
    requires forall p :: 0 <= p < |paragraphs| ==>
                           && Monotone(Words(paragraphs[p]), width)
                           && LaysOut(layouts[p], Words(paragraphs[p]), width, maxWidth)
    ensures |SoftLines(paragraphs, width, maxWidth)| <= LayoutSize(layouts)
  {
    if paragraphs != [] {
      var words := Words(paragraphs[0]);
      SoftLinesShortest(paragraphs[1..], layouts[1..], width, maxWidth);
      GreedyIsShortest(words, layouts[0], width, maxWidth);
      if words != [] {
        PhrasesPick(GreedyGroups(words, 0, width, maxWidth), 0);
        assert layouts[0] != [];
      }
    }
  }

  /** When every word fits, no layout of the whole text has fewer lines than the wrapper's result. */
  lemma WrapIsShortest(text: string, layouts: seq<seq<seq<string>>>, width: string -> real, maxWidth: real)
    requires width("") <= maxWidth
    requires WordsFit(Lines(text), width, maxWidth)
    requires |layouts| == |Lines(text)|
    requires forall p :: 0 <= p < |layouts| ==>
                           && Monotone(Words(Lines(text)[p]), width)
                           && LaysOut(layouts[p], Words(Lines(text)[p]), width, maxWidth)
    ensures |Wrapped(text, width, maxWidth)| <= LayoutSize(layouts)
  {
    FittingWordsStayWhole(Lines(text), width, maxWidth);
    SoftLinesShortest(Lines(text), layouts, width, maxWidth);
  }

  function WordsOf(lines: seq<string>): seq<string> {
    if lines == [] then [] else Words(lines[0]) + WordsOf(lines[1..])
  }

  lemma {:induction false} WordsOfAppend(a: seq<string>, b: seq<string>)
    ensures WordsOf(a + b) == WordsOf(a) + WordsOf(b)
  {
    if a == [] {
      assert a + b == b;
    } else {
      assert (a + b)[1..] == a[1..] + b;
      WordsOfAppend(a[1..], b);
    }
  }

  lemma {:induction false} WordRunOfWord(word: string, rest: string)
    requires forall i :: 0 <= i < |word| ==> !IsSpace(word[i])
    requires rest == "" || IsSpace(rest[0])
    ensures WordRun(word + rest) == |word|
  {
    if word != "" {
      assert (word + rest)[1..] == word[1..] + rest;
      WordRunOfWord(word[1..], rest);
    } else {
      assert word + rest == rest;
    }
  }

  lemma {:induction false} WordsOfPhrase(words: seq<string>)
    requires forall i :: 0 <= i < |words| ==> IsWord(words[i])
    ensures Words(Phrase(words)) == words
  {
    if words != [] {
      var tail := if |words| == 1 then "" else " " + Phrase(words[1..]);
      assert Phrase(words) == words[0] + tail;
      WordRunOfWord(words[0], tail);
      assert (words[0] + tail)[..|words[0]|] == words[0] && (words[0] + tail)[|words[0]|..] == tail;
      WordsOfPhrase(words[1..]);
      if |words| > 1 {
        assert tail[1..] == Phrase(words[1..]);
      }
      assert words == [words[0]] + words[1..];
    }
  }

  /** Words with white space between them, before the first and after the last. */
  function Spaced(gaps: seq<string>, words: seq<string>): string
    requires |gaps| == |words| + 1
  {
    if words == [] then gaps[0] else gaps[0] + (words[0] + Spaced(gaps[1..], words[1..]))
  }

  lemma {:induction false} WordsAfterBlank(gap: string, rest: string)
    requires Blank(gap)
    ensures Words(gap + rest) == Words(rest)
  {
    if gap == "" {
      assert gap + rest == rest;
    } else {
      assert (gap + rest)[1..] == gap[1..] + rest;
      WordsAfterBlank(gap[1..], rest);
    }
  }

  /** The words of a text are what stands between its stretches of white space. */
  lemma {:induction false} WordsOfSpaced(gaps: seq<string>, words: seq<string>)
    requires |gaps| == |words| + 1
    requires forall i :: 0 <= i < |words| ==> IsWord(words[i])
    requires forall i :: 0 <= i < |gaps| ==> Blank(gaps[i]) && (0 < i < |words| ==> gaps[i] != "")
    ensures Words(Spaced(gaps, words)) == words
    decreases |words|
  {
    if words == [] {
      assert gaps[0] + "" == gaps[0];
      WordsAfterBlank(gaps[0], "");
    } else {
      var rest := Spaced(gaps[1..], words[1..]);
      assert forall i :: 0 <= i < |words| - 1 ==> words[1..][i] == words[i + 1];
      assert forall i :: 0 <= i < |words| ==> gaps[1..][i] == gaps[i + 1];
      WordsAfterBlank(gaps[0], words[0] + rest);
      assert rest == "" || IsSpace(rest[0]) by {
        if |words| > 1 {
          assert rest[0] == gaps[1][0];
        }
      }
      WordRunOfWord(words[0], rest);
      assert (words[0] + rest)[..|words[0]|] == words[0] && (words[0] + rest)[|words[0]|..] == rest;
      assert words == [words[0]] + words[1..];
      WordsOfSpaced(gaps[1..], words[1..]);
    }
  }

  lemma {:induction false} WordsOfPhrases(groups: seq<seq<string>>)
    requires forall i :: 0 <= i < |Flatten(groups)| ==> IsWord(Flatten(groups)[i])
    ensures WordsOf(Phrases(groups)) == Flatten(groups)
  {
    if groups != [] {
      var first, rest := groups[0], Flatten(groups[1..]);
      assert forall i :: 0 <= i < |first| ==> first[i] == Flatten(groups)[i];
      assert forall i :: 0 <= i < |rest| ==> rest[i] == Flatten(groups)[|first| + i];
      WordsOfPhrase(first);
      WordsOfPhrases(groups[1..]);
      assert Phrases(groups)[1..] == Phrases(groups[1..]);
    }
  }

  /** When every word fits, splitting the result into words gives exactly the words of the text. */
  lemma WrapKeepsWords(text: string, width: string -> real, maxWidth: real)
    requires width("") <= maxWidth
    requires WordsFit(Lines(text), width, maxWidth)
    ensures WordsOf(Wrapped(text, width, maxWidth)) == WordsOf(Lines(text))
  {
    FittingWordsStayWhole(Lines(text), width, maxWidth);
    SoftLinesKeepWords(Lines(text), width, maxWidth);
  }

  lemma {:induction false} SoftLinesKeepWords(paragraphs: seq<string>, width: string -> real, maxWidth: real)
    ensures WordsOf(SoftLines(paragraphs, width, maxWidth)) == WordsOf(paragraphs)
  {
    if paragraphs != [] {
      var words := Words(paragraphs[0]);
      var first := ParagraphLines(paragraphs[0], width, maxWidth);
      assert words[0..] == words;
      GreedyLaysOut(words, 0, width, maxWidth);
      WordsAreWords(paragraphs[0]);
      WordsOfPhrases(GreedyGroups(words, 0, width, maxWidth));
      assert words == [] ==> WordsOf(first) == Words("") + WordsOf([]);
      SoftLinesKeepWords(paragraphs[1..], width, maxWidth);
      WordsOfAppend(first, SoftLines(paragraphs[1..], width, maxWidth));
    }
  }

  lemma {:induction false} PiecesExist(lines: seq<string>, width: string -> real, maxWidth: real)
    requires width("") <= maxWidth
    ensures |BrokenLines(lines, width, maxWidth)| >= |lines|
  {
    if lines != [] {
      PiecesExist(lines[1..], width, maxWidth);
    }
  }

  lemma {:induction false} ParagraphsTakeLines(paragraphs: seq<string>, width: string -> real, maxWidth: real)
    ensures |SoftLines(paragraphs, width, maxWidth)| >= |paragraphs|
  {
    if paragraphs != [] {
      var words := Words(paragraphs[0]);
      if words != [] {
        PhrasesPick(GreedyGroups(words, 0, width, maxWidth), 0);
      }
      ParagraphsTakeLines(paragraphs[1..], width, maxWidth);
    }
  }

  /** As long as an empty line fits, every text, the empty one too, wraps to at least one line. */
  lemma WrapNotEmpty(text: string, width: string -> real, maxWidth: real)
    requires width("") <= maxWidth
    ensures |Wrapped(text, width, maxWidth)| >= |Lines(text)| >= 1
  {
    ParagraphsTakeLines(Lines(text), width, maxWidth);
    PiecesExist(SoftLines(Lines(text), width, maxWidth), width, maxWidth);
  }

  // ----- Shortening a title to one line

  const ELLIPSIS: string := "\U{2026}"

  predicate CutFits(text: string, cut: nat, width: string -> real, maxWidth: real)
    requires cut <= |text|
  {
    width(text[..cut] + ELLIPSIS) <= maxWidth
  }

  /** The longest cut no longer than `cut` that fits, or no characters at all. */
  function LongestCut(text: string, cut: nat, width: string -> real, maxWidth: real): (longest: nat)
    requires cut <= |text|
    ensures longest <= cut
    ensures longest == 0 || CutFits(text, longest, width, maxWidth)
    ensures forall longer :: longest < longer <= cut ==> !CutFits(text, longer, width, maxWidth)
  {
    if cut == 0 || CutFits(text, cut, width, maxWidth) then cut else LongestCut(text, cut - 1, width, maxWidth)
  }

  /** The line as it should be: whole if it fits, else the longest prefix that fits with an ellipsis. */
  function FittedLine(text: string, width: string -> real, maxWidth: real): string {
    var trimmed := Trim(text);
    if width(trimmed) <= maxWidth then trimmed
    else trimmed[..LongestCut(trimmed, |trimmed|, width, maxWidth)] + ELLIPSIS
  }

  /** A longer prefix with the ellipsis is no narrower, and the ellipsis itself takes no negative room. */
  ghost predicate PrefixMonotone(text: string, width: string -> real) {
    && (forall a, b :: 0 <= a <= b <= |text| ==> width(text[..a] + ELLIPSIS) <= width(text[..b] + ELLIPSIS))
    && width(text) <= width(text + ELLIPSIS)
  }

  /** The binary search agrees with a search through every prefix length. */
  method FitSingleLine(text: string, width: string -> real, maxWidth: real) returns (line: string)
    ensures width(Trim(text)) <= maxWidth ==> line == Trim(text)
    ensures PrefixMonotone(Trim(text), width) ==> line == FittedLine(text, width, maxWidth)
    ensures width(Trim(text)) > maxWidth ==>
              exists cut :: 0 <= cut <= |Trim(text)| && line == Trim(text)[..cut] + ELLIPSIS
                            && (cut == 0 || CutFits(Trim(text), cut, width, maxWidth))
  {
    var trimmed := Trim(text);
    if width(trimmed) <= maxWidth {
      return trimmed;
    }
    var lo, hi := 0, |trimmed|;
    while lo < hi
      invariant 0 <= lo <= hi <= |trimmed|
      invariant lo == 0 || CutFits(trimmed, lo - 1, width, maxWidth)
      invariant hi == |trimmed| || !CutFits(trimmed, hi, width, maxWidth)
      decreases hi - lo
    {
      var mid := (lo + hi) / 2;
      var candidate := trimmed[..mid] + ELLIPSIS;
      if width(candidate) <= maxWidth {
        lo := mid + 1;
      } else {
        hi := mid;
      }
    }
    var cut := if lo - 1 < 0 then 0 else lo - 1;
    line := trimmed[..cut] + ELLIPSIS;
    if PrefixMonotone(trimmed, width) {
      CutIsLongest(trimmed, cut, lo, width, maxWidth);
    }
  }

  lemma CutIsLongest(text: string, cut: nat, lo: nat, width: string -> real, maxWidth: real)
    requires PrefixMonotone(text, width)
    requires width(text) > maxWidth
    requires lo <= |text| && cut == (if lo == 0 then 0 else lo - 1)
    requires lo == 0 || CutFits(text, cut, width, maxWidth)
    requires lo == |text| || !CutFits(text, lo, width, maxWidth)
    ensures cut == LongestCut(text, |text|, width, maxWidth)
  {
    assert text[..|text|] == text;
    forall longer | cut < longer <= |text| ensures !CutFits(text, longer, width, maxWidth) {
      if longer < |text| {
        assert width(text[..lo] + ELLIPSIS) <= width(text[..longer] + ELLIPSIS);
      }
    }
  }

  /** The shortened line fits exactly when the whole line or the bare ellipsis does. */
  lemma FittedLineFits(text: string, width: string -> real, maxWidth: real)
    requires PrefixMonotone(Trim(text), width)
    ensures width(FittedLine(text, width, maxWidth)) <= maxWidth <==>
            width(Trim(text)) <= maxWidth || width(ELLIPSIS) <= maxWidth
  {
    var trimmed := Trim(text);
    assert trimmed[..0] + ELLIPSIS == ELLIPSIS;
    if width(trimmed) > maxWidth {
      var cut := LongestCut(trimmed, |trimmed|, width, maxWidth);
      assert width(trimmed[..0] + ELLIPSIS) <= width(trimmed[..cut] + ELLIPSIS);
    }
  }

  /** A title that is too wide becomes its longest prefix that fits with an ellipsis behind it, or the bare ellipsis. */
  lemma FittedMeaning(text: string, width: string -> real, maxWidth: real) returns (cut: nat)
    requires width(Trim(text)) > maxWidth
    ensures var title := Trim(text);
            && cut <= |title| && FittedLine(text, width, maxWidth) == title[..cut] + "\U{2026}"
            && (cut == 0 || width(title[..cut] + "\U{2026}") <= maxWidth)
            && forall longer :: cut < longer <= |title| ==> width(title[..longer] + "\U{2026}") > maxWidth
  {
    var title := Trim(text);
    cut := LongestCut(title, |title|, width, maxWidth);
    forall longer | cut < longer <= |title| ensures width(title[..longer] + "\U{2026}") > maxWidth {
      assert !CutFits(title, longer, width, maxWidth);
    }
  }
}
