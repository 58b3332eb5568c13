/**
 The two passes every message goes through before it is rendered: deep ATX headings lose their
 indentation, and ordered-list markers torn from their content are joined to it again.
 */
module MarkdownNormalizer {
  import opened Text

  predicate IsFence(line: string) {
    StartsWith(TrimStart(line), FENCE)
  }

  // ----- Heading indentation

  /** `/^(\s*)(#{1,6})(?!#)/` matches. */
  predicate IsAtx(line: string) {
    1 <= HashRun(TrimStart(line)) <= 6
  }

  predicate IsDeepAtx(line: string) {
    IsAtx(line) && SpaceRun(line) > 3
  }

  function FixedLine(line: string): string {
    if !IsDeepAtx(line) then line
    else
      var tail := TrimStart(line);
      HashRunMeaning(tail);
      var hashes, after := tail[..HashRun(tail)], tail[HashRun(tail)..];
      TrimStartDrops(after);
      var space, rest := after[..SpaceRun(after)], TrimStart(after);
      var separator := if space != "" then space else if Trim(rest) != "" then " " else "";
      hashes + (separator + rest)
  }

  function FixedLines(lines: seq<string>, inFence: bool): seq<string> {
    if lines == [] then []
    else if IsFence(lines[0]) then [lines[0]] + FixedLines(lines[1..], !inFence)
    else if inFence then [lines[0]] + FixedLines(lines[1..], inFence)
    else [FixedLine(lines[0])] + FixedLines(lines[1..], inFence)
  }

  function FixedText(text: string): string {
    if '#' !in text then text else Join(FixedLines(Split(text, '\n'), false), "\n")
  }

  method NormalizeMarkdownAtxHeadingIndent(text: string) returns (fixed: string)
    ensures fixed == FixedText(text)
  {
    if '#' !in text {
      return text;
    }
    var lines := Split(text, '\n');
    var inFence := false;
    var out := [];
    assert lines[0..] == lines;
    for i := 0 to |lines|
      invariant FixedLines(lines, false) == out + FixedLines(lines[i..], inFence)
    {
      FixedStep(lines, i, inFence, out);
      var line := lines[i];
      if IsFence(line) {
        inFence := !inFence;
        out := out + [line];
      } else if inFence || !IsAtx(line) || SpaceRun(line) <= 3 {
        out := out + [line];
      } else {
        out := out + [FixedLine(line)];
      }
    }
    assert lines[|lines|..] == [] && out + [] == out;
    fixed := Join(out, "\n");
  }

  lemma FixedStep(lines: seq<string>, i: nat, inFence: bool, out: seq<string>)
    requires i < |lines|
    ensures out + FixedLines(lines[i..], inFence) ==
            out + [if IsFence(lines[i]) || inFence then lines[i] else FixedLine(lines[i])]
            + FixedLines(lines[i + 1..], if IsFence(lines[i]) then !inFence else inFence)
  {
    hide IsFence, FixedLine;
    var rest := lines[i..];
    assert rest[0] == lines[i] && rest[1..] == lines[i + 1..];
    var line := if IsFence(lines[i]) || inFence then lines[i] else FixedLine(lines[i]);
    var nowInFence := if IsFence(lines[i]) then !inFence else inFence;
    assert FixedLines(rest, inFence) == [line] + FixedLines(rest[1..], nowInFence);
    AppendAssociates(out, [line], FixedLines(lines[i + 1..], nowInFence));
  }

  // ----- Torn list items

  /** `/^(\s*)(\d+\.)\s*$/` */
  predicate IsBareMarker(line: string) {
    var tail := TrimStart(line);
    var n := DigitRun(tail);
    1 <= n < |tail| && tail[n] == '.' && Blank(tail[n + 1..])
  }

  /** `/^(?:\d+\.\s|[-*]\s|#{1,6}\s|```)/` */
  predicate LooksLikeMarker(tail: string) {
    || (var n := DigitRun(tail); n >= 1 && n + 1 < |tail| && tail[n] == '.' && IsSpace(tail[n + 1]))
    || (|tail| >= 2 && (tail[0] == '-' || tail[0] == '*') && IsSpace(tail[1]))
    || (var n := HashRun(tail); 1 <= n <= 6 && n < |tail| && IsSpace(tail[n]))
    || StartsWith(tail, FENCE)
  }

  /** The index of the first line that is not blank, or the number of lines. */
  function FirstFilled(lines: seq<string>): (j: nat)
    ensures j <= |lines|
    ensures forall k :: 0 <= k < j ==> Blank(lines[k])
    ensures j < |lines| ==> !Blank(lines[j])
  {
    if lines != [] && Blank(lines[0]) then 1 + FirstFilled(lines[1..]) else 0
  }

  /** The lines after a bare marker hold nothing that belongs to it. */
  predicate NothingToJoin(lines: seq<string>) {
    var j := FirstFilled(lines);
    j == |lines| || LooksLikeMarker(TrimStart(lines[j]))
  }

  /** The indentation and the marker, a space, and the content without its indentation. */
  function Joined(line: string, next: string): string
    requires IsBareMarker(line)
  {
    TrimStartDrops(line);
    line[..SpaceRun(line)] + (TrimStart(line)[..DigitRun(TrimStart(line)) + 1] + (" " + TrimStart(next)))
  }

  /** Whether the marker on line `i` takes the next filled line with it. */
  predicate JoinsNext(lines: seq<string>, i: nat, inFence: bool)
    requires i < |lines|
  {
    !inFence && !IsFence(lines[i]) && IsBareMarker(lines[i]) && !NothingToJoin(lines[i + 1..])
  }

  /** The last of the lines that line `i` is replaced with. */
  function LastHealed(lines: seq<string>, i: nat, inFence: bool): (last: nat)
    requires i < |lines|
    ensures i <= last < |lines|
  {
    if JoinsNext(lines, i, inFence) then i + 1 + FirstFilled(lines[i + 1..]) else i
  }

  function HealedLine(lines: seq<string>, i: nat, inFence: bool): string
    requires i < |lines|
  {
    if JoinsNext(lines, i, inFence) then Joined(lines[i], lines[LastHealed(lines, i, inFence)]) else lines[i]
  }

  /** One round of the list pass: the line it puts out, the last line it takes, the new fence state. */
  function Heal(lines: seq<string>, i: nat, inFence: bool): (round: (string, nat, bool))
    requires i < |lines|
    ensures i <= round.1 < |lines|
  {
    (HealedLine(lines, i, inFence), LastHealed(lines, i, inFence), if IsFence(lines[i]) then !inFence else inFence)
  }

  function HealedLines(lines: seq<string>, inFence: bool): seq<string>
    decreases |lines|
  {
    if lines == [] then []
    else
      var (line, last, nowInFence) := Heal(lines, 0, inFence);
      [line] + HealedLines(lines[last + 1..], nowInFence)
  }

  /** `/^\s*\d+\.\s*$/m.test(text)`: between two line boundaries, possibly across several lines. */
  predicate HasBareMarker(text: string) {
    exists a, b :: 0 <= a <= b <= |text| && IsBareMarker(text[a..b]) && IsLineStart(text, a) && IsLineEnd(text, b)
  }

  predicate IsLineStart(text: string, a: nat) {
    a == 0 || (a <= |text| && IsTerminator(text[a - 1]))
  }

  predicate IsLineEnd(text: string, b: nat) {
    b >= |text| || IsTerminator(text[b])
  }

  function HealedText(text: string): string {
    if !HasBareMarker(text) then text else Join(HealedLines(Split(text, '\n'), false), "\n")
  }

  method NormalizeOrderedListItemBreak(text: string) returns (healed: string)
    ensures healed == HealedText(text)
  {
    if !HasBareMarker(text) {
      return text;
    }
    var out := HealLines(Split(text, '\n'));
    healed := Join(out, "\n");
  }

  method HealLines(lines: seq<string>) returns (out: seq<string>)
    ensures out == HealedLines(lines, false)
  {
    hide Heal;
    var inFence := false;
    out := [];
    var i := 0;
    assert lines[0..] == lines;
    while i < |lines|
      invariant i <= |lines|
      invariant HealedLines(lines, false) == out + HealedLines(lines[i..], inFence)
    {
      var line, last, nowInFence := HealLine(lines, i, inFence);
      HealedStep(lines, i, inFence, out);
      out := out + [line];
      i, inFence := last + 1, nowInFence;
    }
    assert lines[|lines|..] == [] && out + [] == out;
  }

  /** The line that replaces lines `i..last`, and whether a fence is open after it. */
  method HealLine(lines: seq<string>, i: nat, inFence: bool) returns (line: string, last: nat, nowInFence: bool)
    requires i < |lines|
    ensures i <= last < |lines|
    ensures (line, last, nowInFence) == Heal(lines, i, inFence)
  {
    line, last, nowInFence := lines[i], i, inFence;
    if IsFence(line) {
      nowInFence := !inFence;
    } else if !inFence && IsBareMarker(line) {
      var j := SkipBlank(lines, i + 1);
      if j < |lines| && !LooksLikeMarker(TrimStart(lines[j])) {
        line, last := Joined(line, lines[j]), j;
      }
    }
  }

  /** The look-ahead loop. */
  method SkipBlank(lines: seq<string>, start: nat) returns (j: nat)
    requires start <= |lines|
    ensures j == start + FirstFilled(lines[start..])
  {
    j := start;
    while j < |lines| && Blank(lines[j])
      invariant start <= j <= |lines|
      invariant start + FirstFilled(lines[start..]) == j + FirstFilled(lines[j..])
    {
      assert lines[j..][1..] == lines[j + 1..];
      j := j + 1;
    }
  }

  lemma RoundOfSuffix(lines: seq<string>, i: nat, inFence: bool)
    requires i < |lines|
    ensures Heal(lines[i..], 0, inFence) ==
            (Heal(lines, i, inFence).0, Heal(lines, i, inFence).1 - i, Heal(lines, i, inFence).2)
  {
    var rest := lines[i..];
    assert rest[0] == lines[i] && rest[1..] == lines[i + 1..];
    var last := LastHealed(lines, i, inFence);
    assert rest[last - i] == lines[last];
  }

  lemma HealedStep(lines: seq<string>, i: nat, inFence: bool, out: seq<string>)
    requires i < |lines|
    ensures var round := Heal(lines, i, inFence);
            out + HealedLines(lines[i..], inFence) == out + [round.0] + HealedLines(lines[round.1 + 1..], round.2)
  {
    hide Heal;
    RoundOfSuffix(lines, i, inFence);
    var round := Heal(lines, i, inFence);
    var suffix := Heal(lines[i..], 0, inFence);
    assert HealedLines(lines[i..], inFence) == [suffix.0] + HealedLines(lines[i..][suffix.1 + 1..], suffix.2);
    assert lines[i..][suffix.1 + 1..] == lines[round.1 + 1..];
    AppendAssociates(out, [round.0], HealedLines(lines[round.1 + 1..], round.2));
  }

  /** What is handed to the renderer. */
  function Rendered(text: string): string {
    HealedText(FixedText(text))
  }

  // ----- Runs of characters

  lemma {:induction false} DigitRunMeaning(s: string)
    ensures DigitRun(s) <= |s|
    ensures forall i :: 0 <= i < DigitRun(s) ==> IsDigit(s[i])
    ensures DigitRun(s) < |s| ==> !IsDigit(s[DigitRun(s)])
  {
    if s != "" && IsDigit(s[0]) {
      DigitRunMeaning(s[1..]);
    }
  }

  lemma {:induction false} DigitRunOf(s: string, n: nat)
    requires n <= |s|
    requires forall i :: 0 <= i < n ==> IsDigit(s[i])
    requires n < |s| ==> !IsDigit(s[n])
    ensures DigitRun(s) == n
  {
    if n > 0 {
      DigitRunOf(s[1..], n - 1);
    }
  }

  // ----- One line of each pass

  predicate AllHashes(s: string) {
    forall i :: 0 <= i < |s| ==> s[i] == '#'
  }

  /** The separator the heading pass puts between hashes and title. */
  function Separator(space: string, rest: string): string {
    if space != "" then space else if rest != "" then " " else ""
  }

  /** A heading line taken apart: indentation, hashes, white space, title. */
  predicate AtxParts(line: string, indent: string, hashes: string, space: string, rest: string) {
    && line == indent + (hashes + (space + rest))
    && Blank(indent) && Blank(space)
    && 1 <= |hashes| <= 6 && AllHashes(hashes)
    && (rest != "" ==> !IsSpace(rest[0]))
    && (rest != "" && space == "" ==> rest[0] != '#')
  }

  lemma TakeAtxApart(line: string) returns (indent: string, hashes: string, space: string, rest: string)
    requires IsAtx(line)
    ensures AtxParts(line, indent, hashes, space, rest)
    ensures SpaceRun(line) == |indent| && TrimStart(line) == hashes + (space + rest)
    ensures IsDeepAtx(line) ==> FixedLine(line) == hashes + (Separator(space, rest) + rest)
  {
    hide IsSpace, Trim;
    var tail := TrimStart(line);
    TrimStartDrops(line);
    HashRunMeaning(tail);
    var n := HashRun(tail);
    var after := tail[n..];
    TrimStartDrops(after);
    indent, hashes, space, rest := line[..SpaceRun(line)], tail[..n], after[..SpaceRun(after)], TrimStart(after);
    SlicesJoin(line, |indent|);
    SlicesJoin(tail, n);
    SlicesJoin(after, |space|);
    assert rest != "" && space == "" ==> rest[0] == tail[n];
    TrimOfTitle(rest);
  }

  lemma SlicesJoin(s: string, n: nat)
    requires n <= |s|
    ensures s[..n] + s[n..] == s
  {
  }

  lemma TrimOfTitle(rest: string)
    requires rest != "" ==> !IsSpace(rest[0])
    ensures Trim(rest) == "" <==> rest == ""
  {
    TrimEndKeeps(TrimStart(rest));
  }

  lemma HashesAtFront(hashes: string, after: string)
    requires AllHashes(hashes) && hashes != ""
    requires after != "" ==> after[0] != '#'
    ensures TrimStart(hashes + after) == hashes + after && SpaceRun(hashes + after) == 0
    ensures HashRun(hashes + after) == |hashes|
    ensures !StartsWith(hashes + after, FENCE)
  {
    var s := hashes + after;
    assert s[0] == '#';
    HashRunOf(s, |hashes|);
  }

  /**
   A deep heading comes out with the same hashes and title, no indentation, and white space (or
   nothing) after the hashes.
   */
  lemma FixedLineMeaning(line: string)
    requires IsDeepAtx(line)
    ensures exists indent, hashes, space, rest ::
              && AtxParts(line, indent, hashes, space, rest) && |indent| > 3
              && AtxParts(FixedLine(line), "", hashes, Separator(space, rest), rest)
              && (rest != "" ==> Separator(space, rest) != "")
    ensures Erase(FixedLine(line)) == Erase(line)
    ensures !IsDeepAtx(FixedLine(line)) && !IsFence(line) && !IsFence(FixedLine(line))
    ensures '\n' !in line ==> '\n' !in FixedLine(line)
  {
    hide Erase, HashRun, SpaceRun, TrimStart, StartsWith, Trim;
    var indent, hashes, space, rest := TakeAtxApart(line);
    var separator := Separator(space, rest);
    var fixed := FixedLine(line);
    assert fixed == "" + fixed;
    HashesAtFront(hashes, space + rest);
    HashesAtFront(hashes, separator + rest);
    EraseParts(indent, hashes, space, rest);
    EraseParts("", hashes, separator, rest);
  }

  lemma EraseParts(indent: string, mark: string, space: string, rest: string)
    requires Blank(indent) && Blank(space)
    ensures Erase(indent + (mark + (space + rest))) == Erase(mark) + Erase(rest)
  {
    EraseConcat(indent, mark + (space + rest));
    EraseConcat(mark, space + rest);
    EraseConcat(space, rest);
    EraseBlank(indent);
    EraseBlank(space);
  }

  predicate IsMark(mark: string) {
    |mark| >= 2 && mark[|mark| - 1] == '.' && forall i :: 0 <= i < |mark| - 1 ==> IsDigit(mark[i])
  }

  lemma TakeMarkerApart(line: string) returns (indent: string, mark: string, space: string)
    requires IsBareMarker(line)
    ensures SpaceRun(line) == |indent| && TrimStart(line) == mark + space && DigitRun(TrimStart(line)) + 1 == |mark|
    ensures line == indent + (mark + space) && Blank(indent) && Blank(space) && IsMark(mark)
  {
    TrimStartDrops(line);
    var tail := TrimStart(line);
    var n := DigitRun(tail);
    DigitRunMeaning(tail);
    indent, mark, space := line[..SpaceRun(line)], tail[..n + 1], tail[n + 1..];
    assert line == indent + tail && tail == mark + space;
  }

  lemma MarkAtFront(indent: string, mark: string, after: string)
    requires Blank(indent) && IsMark(mark)
    ensures var line := indent + (mark + after);
            && TrimStart(line) == mark + after && SpaceRun(line) == |indent|
            && !IsFence(line) && !IsAtx(line) && !Blank(line)
            && (IsBareMarker(line) <==> Blank(after))
            && (after != "" && IsSpace(after[0]) ==> LooksLikeMarker(mark + after))
  {
    var body := mark + after;
    assert IsDigit(body[0]) && body[0] == mark[0];
    TrimStartOfIndented(indent, body);
    HashRunOf(body, 0);
    DigitRunOf(body, |mark| - 1);
    assert body[|mark|..] == after;
    assert (indent + body)[|indent|] == body[0];
  }

  /**
   A joined item is the old marker under its old indentation, a space and the content: not bare, not a
   fence, not a heading.
   */
  lemma JoinedMeaning(line: string, next: string)
    requires IsBareMarker(line) && !Blank(next)
    ensures !IsBareMarker(Joined(line, next)) && !IsFence(Joined(line, next)) && !IsAtx(Joined(line, next))
    ensures LooksLikeMarker(TrimStart(Joined(line, next))) && !Blank(Joined(line, next))
    ensures SpaceRun(Joined(line, next)) == SpaceRun(line)
    ensures exists mark :: IsMark(mark) && mark <= TrimStart(line)
                           && TrimStart(Joined(line, next)) == mark + (" " + TrimStart(next))
  {
    var indent, mark, space := TakeMarkerApart(line);
    TrimStartDrops(next);
    JoinedParts(indent, mark, TrimStart(next));
    assert mark <= TrimStart(line);
  }

  lemma EraseJoined(indent: string, mark: string, space: string, content: string)
    requires Blank(indent) && Blank(space)
    ensures Erase(indent + (mark + (" " + content))) == Erase(indent + (mark + space)) + Erase(content)
  {
    EraseParts(indent, mark, space, "");
    assert space + "" == space;
    EraseParts(indent, mark, " ", content);
  }

  lemma JoinedKeepsText(line: string, next: string)
    requires IsBareMarker(line)
    ensures Erase(Joined(line, next)) == Erase(line) + Erase(next)
    ensures '\n' !in line && '\n' !in next ==> '\n' !in Joined(line, next)
  {
    hide IsBareMarker, IsSpace, IsMark;
    var indent, mark, space := TakeMarkerApart(line);
    assert Joined(line, next) == indent + (mark + (" " + TrimStart(next)));
    TrimStartDrops(next);
    EraseTrimStart(next);
    EraseJoined(indent, mark, space, TrimStart(next));
  }

  lemma JoinedParts(indent: string, mark: string, content: string)
    requires Blank(indent) && IsMark(mark) && content != "" && !IsSpace(content[0])
    ensures var line := indent + (mark + (" " + content));
            && !IsBareMarker(line) && !IsFence(line) && !IsAtx(line) && !Blank(line)
            && LooksLikeMarker(TrimStart(line))
            && SpaceRun(line) == |indent| && TrimStart(line) == mark + (" " + content)
  {
    var after := " " + content;
    assert after[0] == ' ' && after[1] == content[0];
    MarkAtFront(indent, mark, after);
  }

  // ----- The heading pass on all lines

  /** The lines inside a fence, and the fence markers, in order. */
  function FencedLines(lines: seq<string>, inFence: bool): seq<string> {
    if lines == [] then []
    else if IsFence(lines[0]) then [lines[0]] + FencedLines(lines[1..], !inFence)
    else if inFence then [lines[0]] + FencedLines(lines[1..], inFence)
    else FencedLines(lines[1..], inFence)
  }

  /** No heading outside a fence is indented too deep. */
  predicate AllFixed(lines: seq<string>, inFence: bool) {
    lines == [] ||
    if IsFence(lines[0]) then AllFixed(lines[1..], !inFence)
    else (inFence || !IsDeepAtx(lines[0])) && AllFixed(lines[1..], inFence)
  }

  predicate NoLineFeeds(lines: seq<string>) {
    forall i :: 0 <= i < |lines| ==> '\n' !in lines[i]
  }

  lemma FixedLineEffect(line: string)
    ensures Erase(FixedLine(line)) == Erase(line)
    ensures !IsDeepAtx(FixedLine(line)) && (IsFence(FixedLine(line)) <==> IsFence(line))
    ensures '\n' !in line ==> '\n' !in FixedLine(line)
  {
    if IsDeepAtx(line) {
      FixedLineMeaning(line);
    }
  }

  lemma {:induction false} FixedLinesEffect(lines: seq<string>, inFence: bool)
    ensures |FixedLines(lines, inFence)| == |lines|
    ensures AllFixed(FixedLines(lines, inFence), inFence)
    ensures FencedLines(FixedLines(lines, inFence), inFence) == FencedLines(lines, inFence)
    ensures Erase(Concat(FixedLines(lines, inFence))) == Erase(Concat(lines))
    ensures NoLineFeeds(lines) ==> NoLineFeeds(FixedLines(lines, inFence))
  {
    if lines != [] {
      var line := lines[0];
      var nowInFence := if IsFence(line) then !inFence else inFence;
      var fixed := if IsFence(line) || inFence then line else FixedLine(line);
      var rest := FixedLines(lines[1..], nowInFence);
      FixedLinesEffect(lines[1..], nowInFence);
      FixedLineEffect(line);
      var all := FixedLines(lines, inFence);
      assert all == [fixed] + rest;
      assert all[0] == fixed && all[1..] == rest;
      EraseConcat(line, Concat(lines[1..]));
      EraseConcat(fixed, Concat(rest));
    }
  }

  lemma {:induction false} FixedLinesSame(lines: seq<string>, inFence: bool)
    requires AllFixed(lines, inFence)
    ensures FixedLines(lines, inFence) == lines
  {
    if lines != [] {
      FixedLinesSame(lines[1..], if IsFence(lines[0]) then !inFence else inFence);
    }
  }

  // ----- The list pass on all lines

  /** No marker outside a fence stands torn from content that could be joined to it. */
  predicate AllHealed(lines: seq<string>, inFence: bool) {
    lines == [] ||
    (!JoinsNext(lines, 0, inFence) && AllHealed(lines[1..], if IsFence(lines[0]) then !inFence else inFence))
  }

  lemma BlankIsPlain(line: string)
    requires Blank(line)
    ensures !IsFence(line) && !IsBareMarker(line) && !IsAtx(line) && Erase(line) == ""
  {
    TrimStartDrops(line);
    EraseBlank(line);
  }

  /** What stops a marker from joining is still there after the lines below it are healed. */
  lemma {:induction false} NothingToJoinStays(lines: seq<string>)
    requires NothingToJoin(lines)
    ensures NothingToJoin(HealedLines(lines, false))
  {
    if lines != [] {
      var healed := HealedLines(lines, false);
      if Blank(lines[0]) {
        BlankIsPlain(lines[0]);
        NothingToJoinStays(lines[1..]);
        assert healed[1..] == HealedLines(lines[1..], false);
      } else if JoinsNext(lines, 0, false) {
        JoinedMeaning(lines[0], lines[LastHealed(lines, 0, false)]);
      }
    }
  }

  lemma {:induction false} HealedLinesHealed(lines: seq<string>, inFence: bool)
    ensures AllHealed(HealedLines(lines, inFence), inFence)
    decreases |lines|
  {
    if lines != [] {
      var (line, last, nowInFence) := Heal(lines, 0, inFence);
      var rest := HealedLines(lines[last + 1..], nowInFence);
      var healed := HealedLines(lines, inFence);
      assert healed == [line] + rest && healed[1..] == rest;
      HealedLinesHealed(lines[last + 1..], nowInFence);
      HealedRound(lines, inFence, rest);
    }
  }

  /** What a round puts out has nothing more to join, whatever healed lines follow. */
  lemma HealedRound(lines: seq<string>, inFence: bool, rest: seq<string>)
    requires lines != []
    requires var (_, last, nowInFence) := Heal(lines, 0, inFence); rest == HealedLines(lines[last + 1..], nowInFence)
    ensures var (line, _, nowInFence) := Heal(lines, 0, inFence);
            !JoinsNext([line] + rest, 0, inFence) && nowInFence == (if IsFence(line) then !inFence else inFence)
  {
    var (line, last, nowInFence) := Heal(lines, 0, inFence);
    assert ([line] + rest)[1..] == rest;
    if JoinsNext(lines, 0, inFence) {
      JoinedMeaning(lines[0], lines[last]);
    } else if !inFence && !IsFence(line) && IsBareMarker(line) {
      NothingToJoinStays(lines[1..]);
    }
  }

  lemma {:induction false} HealedLinesSame(lines: seq<string>, inFence: bool)
    requires AllHealed(lines, inFence)
    ensures HealedLines(lines, inFence) == lines
  {
    if lines != [] {
      HealedLinesSame(lines[1..], if IsFence(lines[0]) then !inFence else inFence);
    }
  }

  /** The blank lines a joined item swallows, and the line it takes, are outside every fence. */
  lemma {:induction false} SkippedLines(lines: seq<string>, j: nat)
    requires j < |lines|
    requires forall k :: 0 <= k < j ==> Blank(lines[k])
    requires !IsFence(lines[j])
    ensures FencedLines(lines, false) == FencedLines(lines[j + 1..], false)
    ensures AllFixed(lines, false) ==> AllFixed(lines[j + 1..], false)
    ensures Erase(Concat(lines)) == Erase(lines[j]) + Erase(Concat(lines[j + 1..]))
  {
    EraseConcat(lines[0], Concat(lines[1..]));
    if j > 0 {
      BlankIsPlain(lines[0]);
      SkippedLines(lines[1..], j - 1);
      assert lines[1..][j - 1 + 1..] == lines[j + 1..];
    }
  }

  lemma {:induction false} HealedLinesEffect(lines: seq<string>, inFence: bool)
    ensures lines != [] ==> HealedLines(lines, inFence) != []
    ensures FencedLines(HealedLines(lines, inFence), inFence) == FencedLines(lines, inFence)
    ensures AllFixed(lines, inFence) ==> AllFixed(HealedLines(lines, inFence), inFence)
    ensures Erase(Concat(HealedLines(lines, inFence))) == Erase(Concat(lines))
    ensures NoLineFeeds(lines) ==> NoLineFeeds(HealedLines(lines, inFence))
    decreases |lines|
  {
    hide Heal, IsFence, IsDeepAtx, Erase, Concat;
    if lines != [] {
      var (line, last, nowInFence) := Heal(lines, 0, inFence);
      var rest := HealedLines(lines[last + 1..], nowInFence);
      var healed := HealedLines(lines, inFence);
      assert healed == [line] + rest && healed[1..] == rest && healed[0] == line;
      HealedLinesEffect(lines[last + 1..], nowInFence);
      RoundEffect(lines, inFence);
      EraseFirst(healed);
    }
  }

  lemma RoundEffect(lines: seq<string>, inFence: bool)
    requires lines != []
    ensures var (line, last, nowInFence) := Heal(lines, 0, inFence);
            var below := lines[last + 1..];
            && nowInFence == (if IsFence(line) then !inFence else inFence)
            && FencedLines(lines, inFence) ==
               (if IsFence(line) || inFence then [line] else []) + FencedLines(below, nowInFence)
            && (AllFixed(lines, inFence) ==>
                  (IsFence(line) || inFence || !IsDeepAtx(line)) && AllFixed(below, nowInFence))
            && Erase(line) + Erase(Concat(below)) == Erase(Concat(lines))
            && (NoLineFeeds(lines) ==> '\n' !in line)
  {
    if JoinsNext(lines, 0, inFence) {
      JoinEffect(lines);
    } else {
      EraseFirst(lines);
    }
  }

  lemma FenceIsMarker(line: string)
    requires IsFence(line)
    ensures !Blank(line) && LooksLikeMarker(TrimStart(line))
  {
    TrimStartDrops(line);
  }

  lemma JoinTarget(lines: seq<string>)
    requires lines != [] && JoinsNext(lines, 0, false)
    ensures var j := FirstFilled(lines[1..]);
            var last := LastHealed(lines, 0, false);
            && last == j + 1 && !Blank(lines[last]) && !IsFence(lines[last])
            && forall k :: 0 <= k < j ==> Blank(lines[1..][k])
  {
    var j := FirstFilled(lines[1..]);
    assert lines[1..][j] == lines[j + 1];
    if IsFence(lines[j + 1]) {
      FenceIsMarker(lines[j + 1]);
    }
  }

  lemma JoinEffect(lines: seq<string>)
    requires lines != [] && JoinsNext(lines, 0, false)
    ensures var last := LastHealed(lines, 0, false);
            var line := HealedLine(lines, 0, false);
            && !IsFence(line) && !IsDeepAtx(line)
            && FencedLines(lines, false) == FencedLines(lines[last + 1..], false)
            && (AllFixed(lines, false) ==> AllFixed(lines[last + 1..], false))
            && Erase(line) + Erase(Concat(lines[last + 1..])) == Erase(Concat(lines))
            && (NoLineFeeds(lines) ==> '\n' !in line)
  {
    hide Joined, IsSpace, TrimStart, SpaceRun, HashRun, Erase, FencedLines, AllFixed, LooksLikeMarker, IsBareMarker,
      StartsWith, IsFence;
    var last := LastHealed(lines, 0, false);
    JoinTarget(lines);
    JoinedMeaning(lines[0], lines[last]);
    JoinedKeepsText(lines[0], lines[last]);
    JoinSkips(lines[0], lines[1..], last - 1);
    AppendAssociates(Erase(lines[0]), Erase(lines[last]), Erase(Concat(lines[last + 1..])));
    assert [lines[0]] + lines[1..] == lines;
    assert lines[1..][last - 1] == lines[last] && lines[1..][last..] == lines[last + 1..];
  }

  lemma JoinSkips(first: string, below: seq<string>, j: nat)
    requires j < |below|
    requires forall k :: 0 <= k < j ==> Blank(below[k])
    requires !IsFence(first) && !IsFence(below[j])
    ensures FencedLines([first] + below, false) == FencedLines(below[j + 1..], false)
    ensures AllFixed([first] + below, false) ==> AllFixed(below[j + 1..], false)
    ensures Erase(Concat([first] + below)) == Erase(first) + (Erase(below[j]) + Erase(Concat(below[j + 1..])))
  {
    var all := [first] + below;
    assert all[0] == first && all[1..] == below;
    SkippedLines(below, j);
    EraseFirst(all);
  }

  lemma EraseFirst(lines: seq<string>)
    requires lines != []
    ensures Erase(Concat(lines)) == Erase(lines[0]) + Erase(Concat(lines[1..]))
  {
    EraseConcat(lines[0], Concat(lines[1..]));
  }

  // ----- The fast paths

  /** Line `k` of a text, as the range of characters between two line feeds. */
  lemma {:induction false} LineRange(text: string, k: nat) returns (a: nat, b: nat)
    requires k < |Split(text, '\n')|
    ensures a <= b <= |text| && text[a..b] == Split(text, '\n')[k]
    ensures if k == 0 then a == 0 else a > 0 && text[a - 1] == '\n'
    ensures b == |text| || text[b] == '\n'
  {
    if text == "" || (text[0] == '\n' && k == 0) {
      a, b := 0, 0;
    } else {
      a, b := LineRange(text[1..], if text[0] == '\n' then k - 1 else k);
      TailRange(text, a, b);
      if text[0] != '\n' && k == 0 {
        assert text[..b + 1] == [text[0]] + text[1..][..b];
        a, b := 0, b + 1;
      } else {
        a, b := a + 1, b + 1;
      }
    }
  }

  lemma TailRange(text: string, a: nat, b: nat)
    requires text != "" && a <= b < |text|
    ensures text[1..][a..b] == text[a + 1..b + 1]
  {
  }

  lemma {:induction false} NoMarkerToHeal(lines: seq<string>, inFence: bool)
    requires forall k :: 0 <= k < |lines| ==> !IsBareMarker(lines[k])
    ensures AllHealed(lines, inFence)
  {
    if lines != [] {
      NoMarkerToHeal(lines[1..], if IsFence(lines[0]) then !inFence else inFence);
    }
  }

  /** The early return of the list pass gives what the full pass would. */
  lemma HealFastPathAgrees(text: string)
    ensures HealedText(text) == Join(HealedLines(Split(text, '\n'), false), "\n")
  {
    var lines := Split(text, '\n');
    if !HasBareMarker(text) {
      forall k | 0 <= k < |lines| ensures !IsBareMarker(lines[k]) {
        var a, b := LineRange(text, k);
        assert IsLineStart(text, a) && IsLineEnd(text, b);
      }
      NoMarkerToHeal(lines, false);
      HealedLinesSame(lines, false);
      JoinSplit(text, '\n');
    }
  }

  lemma {:induction false} NoHashToFix(lines: seq<string>, inFence: bool)
    requires forall k :: 0 <= k < |lines| ==> '#' !in lines[k]
    ensures AllFixed(lines, inFence)
  {
    if lines != [] {
      TrimStartDrops(lines[0]);
      HashRunMeaning(TrimStart(lines[0]));
      NoHashToFix(lines[1..], if IsFence(lines[0]) then !inFence else inFence);
    }
  }

  /** The early return of the heading pass gives what the full pass would. */
  lemma FixFastPathAgrees(text: string)
    ensures FixedText(text) == Join(FixedLines(Split(text, '\n'), false), "\n")
  {
    var lines := Split(text, '\n');
    if '#' !in text {
      forall k | 0 <= k < |lines| ensures '#' !in lines[k] {
        var a, b := LineRange(text, k);
        assert forall i :: 0 <= i < b - a ==> lines[k][i] == text[a + i];
      }
      NoHashToFix(lines, false);
      FixedLinesSame(lines, false);
      JoinSplit(text, '\n');
    }
  }

  // ----- Main results

  /** The lines of the rendered text are those of the text, fixed and then healed. */
  lemma RenderedLines(text: string)
    ensures Split(Rendered(text), '\n') == HealedLines(FixedLines(Split(text, '\n'), false), false)
    ensures Rendered(text) == Join(Split(Rendered(text), '\n'), "\n")
  {
    var lines := Split(text, '\n');
    SplitPieces(text, '\n');
    FixFastPathAgrees(text);
    FixedLinesEffect(lines, false);
    var fixed := FixedLines(lines, false);
    SplitJoin(fixed, '\n');
    HealFastPathAgrees(FixedText(text));
    HealedLinesEffect(fixed, false);
    SplitJoin(HealedLines(fixed, false), '\n');
  }

  /** After both passes nothing is left for either of them to do. */
  lemma RenderedIsNormal(text: string)
    ensures AllFixed(Split(Rendered(text), '\n'), false)
    ensures AllHealed(Split(Rendered(text), '\n'), false)
  {
    RenderedLines(text);
    FixedLinesEffect(Split(text, '\n'), false);
    HealedLinesEffect(FixedLines(Split(text, '\n'), false), false);
    HealedLinesHealed(FixedLines(Split(text, '\n'), false), false);
  }

  /** Both passes leave a text alone exactly when it has no deep heading and no torn item outside fences. */
  lemma RenderFixpoints(text: string)
    ensures Rendered(text) == text <==> AllFixed(Split(text, '\n'), false) && AllHealed(Split(text, '\n'), false)
  {
    var lines := Split(text, '\n');
    RenderedIsNormal(text);
    RenderedLines(text);
    JoinSplit(text, '\n');
    if AllFixed(lines, false) && AllHealed(lines, false) {
      FixedLinesSame(lines, false);
      HealedLinesSame(lines, false);
    }
  }

  /** Normalising twice is normalising once. */
  lemma RenderIdempotent(text: string)
    ensures Rendered(Rendered(text)) == Rendered(text)
  {
    RenderedIsNormal(text);
    RenderFixpoints(Rendered(text));
  }

  /** Fence markers and the lines between them come through unchanged and in order. */
  lemma RenderKeepsFences(text: string)
    ensures FencedLines(Split(Rendered(text), '\n'), false) == FencedLines(Split(text, '\n'), false)
  {
    RenderedLines(text);
    FixedLinesEffect(Split(text, '\n'), false);
    HealedLinesEffect(FixedLines(Split(text, '\n'), false), false);
  }

  /** Only white space is added or removed. */
  lemma RenderKeepsText(text: string)
    ensures Erase(Rendered(text)) == Erase(text)
  {
    var lines := Split(text, '\n');
    RenderedLines(text);
    FixedLinesEffect(lines, false);
    HealedLinesEffect(FixedLines(lines, false), false);
    EraseJoin(Split(Rendered(text), '\n'));
    JoinSplit(text, '\n');
    EraseJoin(lines);
  }

  // ----- Empty items

  /** A list marker or heading mark: digits with a period, a dash, an asterisk, or up to six hashes. */
  predicate IsSign(sign: string) {
    || IsMark(sign) || sign == "-" || sign == "*"
    || (1 <= |sign| <= 6 && forall i :: 0 <= i < |sign| ==> sign[i] == '#')
  }

  /** Alone on its line, a marker or heading mark is recognised exactly when white space follows it. */
  lemma EmptySignIsMarkerIff(line: string)
    requires IsSign(Trim(line))
    ensures LooksLikeMarker(TrimStart(line)) <==> IsSpace(line[|line| - 1])
  {
    hide IsSpace, IsSign, LooksLikeMarker, SpaceRun, DigitRun, TrimEnd, TrimStart;
    var tail, sign := TrimStart(line), Trim(line);
    TrimStartDrops(line);
    TrimEndKeeps(tail);
    var space := tail[|sign|..];
    assert tail == sign + space;
    SignNotEmpty(sign);
    if IsMark(sign) {
      MarkLooksIff(sign, space);
    } else {
      SignLooksIff(sign, space);
    }
  }

  lemma SignNotEmpty(sign: string)
    requires IsSign(sign)
    ensures sign != "" && !IsSpace(sign[|sign| - 1])
  {
  }

  lemma MarkLooksIff(mark: string, space: string)
    requires IsMark(mark) && Blank(space)
    ensures LooksLikeMarker(mark + space) <==> space != ""
  {
    var tail := mark + space;
    assert IsDigit(tail[0]) && tail[0] == mark[0];
    DigitRunOf(tail, |mark| - 1);
    HashRunOf(tail, 0);
    assert space != "" ==> tail[|mark|] == space[0];
  }

  lemma SignLooksIff(sign: string, space: string)
    requires IsSign(sign) && !IsMark(sign) && Blank(space)
    ensures LooksLikeMarker(sign + space) <==> space != ""
  {
    var tail := sign + space;
    assert tail[0] == sign[0] && !IsDigit(tail[0]);
    DigitRunOf(tail, 0);
    assert space != "" ==> tail[|sign|] == space[0] && !IsDigit(space[0]) && space[0] != '#';
    if sign[0] == '#' {
      HashRunOf(tail, |sign|);
    } else {
      HashRunOf(tail, 0);
    }
  }

  /**
   What becomes of an empty item above a line that holds a marker or heading mark and nothing else:
   they stay apart exactly when white space follows the second, and become one item otherwise.
   */
  lemma EmptyItemsJoin(first: string, second: string)
    requires IsBareMarker(first) && IsSign(Trim(second))
    ensures HealedLines([first, second], false) ==
            if IsSpace(second[|second| - 1]) then [first, second] else [Joined(first, second)]
  {
    hide IsSpace, IsSign, LooksLikeMarker, SpaceRun, DigitRun, TrimEnd, TrimStart, IsBareMarker;
    EmptySignIsMarkerIff(second);
    var lines := [first, second];
    assert lines[1..] == [second] && lines[2..] == [];
    SignIsFilled(second);
    assert FirstFilled([second]) == 0;
    var indent, mark, space := TakeMarkerApart(first);
    MarkAtFront(indent, mark, space);
    assert JoinsNext(lines, 0, false) <==> !IsSpace(second[|second| - 1]);
    assert !JoinsNext([second], 0, false);
    assert [second][1..] == [];
    assert HealedLines([second], false) == [second];
  }

  lemma SignIsFilled(line: string)
    requires IsSign(Trim(line))
    ensures line != "" && !Blank(line)
  {
    TrimStartDrops(line);
    TrimEndKeeps(TrimStart(line));
    SignNotEmpty(Trim(line));
  }

  // ----- What the tests and the passes do, line by line

  /** A heading mark is deep exactly if more than three characters of white space stand before one to six hashes. */
  lemma DeepMeaning(line: string)
    ensures IsDeepAtx(line) <==>
            exists indent, hashes, space, rest :: AtxParts(line, indent, hashes, space, rest) && |indent| > 3
  {
    if IsDeepAtx(line) {
      var indent, hashes, space, rest := TakeAtxApart(line);
    }
    if indent, hashes, space, rest :| AtxParts(line, indent, hashes, space, rest) && |indent| > 3 {
      var after := space + rest;
      HashesAtFront(hashes, after);
      TrimStartOfIndented(indent, hashes + after);
      IndentRun(indent, hashes + after);
    }
  }

  lemma {:induction false} IndentRun(indent: string, body: string)
    requires Blank(indent) && (body != "" ==> !IsSpace(body[0]))
    ensures SpaceRun(indent + body) == |indent|
  {
    if indent == "" {
      assert indent + body == body;
    } else {
      assert (indent + body)[1..] == indent[1..] + body;
      IndentRun(indent[1..], body);
    }
  }

  ghost predicate BareParts(line: string, indent: string, mark: string, space: string) {
    line == indent + (mark + space) && Blank(indent) && Blank(space) && IsMark(mark)
  }

  /** A bare marker is digits with a period, and nothing but white space around them. */
  lemma BareMeaning(line: string)
    ensures IsBareMarker(line) <==> exists indent, mark, space :: BareParts(line, indent, mark, space)
  {
    if IsBareMarker(line) {
      var indent, mark, space := TakeMarkerApart(line);
      assert BareParts(line, indent, mark, space);
    }
    if indent, mark, space :| BareParts(line, indent, mark, space) {
      MarkAtFront(indent, mark, space);
    }
  }

  /** A marker or heading mark of `n` characters with white space after it. */
  predicate IsSignThenSpace(tail: string, n: nat) {
    0 < n < |tail| && IsSign(tail[..n]) && IsSpace(tail[n])
  }

  lemma SignOfMarker(tail: string)
    requires LooksLikeMarker(tail) && !StartsWith(tail, FENCE)
    ensures exists n: nat :: IsSignThenSpace(tail, n)
  {
    hide HashRun, DigitRun, IsSpace;
    DigitRunMeaning(tail);
    HashRunMeaning(tail);
    var digits, hashes := DigitRun(tail), HashRun(tail);
    var n: nat := if digits >= 1 then digits + 1 else if tail[0] == '-' || tail[0] == '*' then 1 else hashes;
    assert forall i :: 0 <= i < n ==> tail[..n][i] == tail[i];
    assert IsSignThenSpace(tail, n);
  }

  lemma MarkerOfSign(tail: string, n: nat)
    requires IsSignThenSpace(tail, n)
    ensures LooksLikeMarker(tail)
  {
    var sign := tail[..n];
    assert forall i :: 0 <= i < n ==> sign[i] == tail[i];
    if IsMark(sign) {
      DigitRunOf(tail, n - 1);
    } else if sign[0] == '#' {
      HashRunOf(tail, n);
    }
  }

  /** What stops a join: a marker or heading mark with white space after it, whatever follows, or a fence. */
  lemma MarkerMeaning(tail: string)
    ensures LooksLikeMarker(tail) <==> StartsWith(tail, "```") || exists n: nat :: IsSignThenSpace(tail, n)
  {
    hide IsSignThenSpace, IsSign;
    if LooksLikeMarker(tail) && !StartsWith(tail, FENCE) {
      SignOfMarker(tail);
    }
    if n: nat :| IsSignThenSpace(tail, n) {
      MarkerOfSign(tail, n);
    }
  }

  /** The heading pass looks at one line at a time; fences open and close, and shield what is between them. */
  lemma FixedByLine(line: string, rest: seq<string>, inFence: bool)
    ensures FixedLines([line] + rest, inFence) ==
            if StartsWith(TrimStart(line), "```") then [line] + FixedLines(rest, !inFence)
            else [if inFence || !IsDeepAtx(line) then line else FixedLine(line)] + FixedLines(rest, inFence)
  {
    assert ([line] + rest)[1..] == rest;
  }

  lemma {:induction false} FirstFilledIs(blanks: seq<string>, rest: seq<string>)
    requires forall i :: 0 <= i < |blanks| ==> Blank(blanks[i])
    requires rest != [] ==> !Blank(rest[0])
    ensures FirstFilled(blanks + rest) == |blanks|
  {
    if blanks == [] {
      assert blanks + rest == rest;
    } else {
      assert (blanks + rest)[1..] == blanks[1..] + rest;
      FirstFilledIs(blanks[1..], rest);
    }
  }

  /**
   Outside fences, a bare marker and the first line below it that is not blank become one line, and
   the blank lines between them go, unless that line stops a join or there is none.
   */
  lemma HealedMarker(line: string, blanks: seq<string>, rest: seq<string>)
    requires IsBareMarker(line)
    requires forall i :: 0 <= i < |blanks| ==> Blank(blanks[i])
    requires rest != [] ==> !Blank(rest[0])
    ensures HealedLines([line] + (blanks + rest), false) ==
            if rest == [] || LooksLikeMarker(TrimStart(rest[0])) then [line] + HealedLines(blanks + rest, false)
            else [Joined(line, rest[0])] + HealedLines(rest[1..], false)
  {
    var lines := [line] + (blanks + rest);
    assert lines[1..] == blanks + rest;
    FirstFilledIs(blanks, rest);
    BareIsNoFence(line);
    if rest != [] {
      assert lines[1..][|blanks|] == rest[0] && lines[|blanks| + 1] == rest[0];
      assert lines[|blanks| + 2..] == rest[1..];
    }
  }

  lemma BareIsNoFence(line: string)
    requires IsBareMarker(line)
    ensures !IsFence(line)
  {
    var indent, mark, space := TakeMarkerApart(line);
    MarkAtFront(indent, mark, space);
  }

  /** Any other line stays as it is; fences open and close, and shield what is between them. */
  lemma HealedByLine(line: string, rest: seq<string>, inFence: bool)
    requires inFence || !IsBareMarker(line)
    ensures HealedLines([line] + rest, inFence) ==
            [line] + HealedLines(rest, if StartsWith(TrimStart(line), "```") then !inFence else inFence)
  {
    assert ([line] + rest)[1..] == rest;
  }

  /** The heading pass comes first: a deep heading below a bare marker is a heading by the time the list pass looks. */
  lemma HeadingNotSwallowed(marker: string, heading: string)
    requires IsBareMarker(marker) && IsDeepAtx(heading) && LooksLikeMarker(FixedLine(heading))
    requires '\n' !in marker && '\n' !in heading
    ensures Rendered(Join([marker, heading], "\n")) == Join([marker, FixedLine(heading)], "\n")
  {
    hide LooksLikeMarker, IsDeepAtx, FixedLine, IsBareMarker, HealedLines, FixedLines, Rendered, TrimStart, IsFence;
    var text, fixed := Join([marker, heading], "\n"), FixedLine(heading);
    SplitJoin([marker, heading], '\n');
    RenderedLines(text);
    FixedPair(marker, heading);
    FixedStartsWithHash(heading);
    HealedPair(marker, fixed);
  }

  lemma FixedStartsWithHash(heading: string)
    requires IsDeepAtx(heading)
    ensures var fixed := FixedLine(heading);
            fixed != "" && fixed[0] == '#' && TrimStart(fixed) == fixed && !IsBareMarker(fixed) && !IsFence(heading)
  {
    FixedLineMeaning(heading);
    var indent, hashes, space, rest := TakeAtxApart(heading);
    assert FixedLine(heading)[0] == hashes[0];
    DigitRunMeaning(FixedLine(heading));
  }

  lemma FixedPair(marker: string, heading: string)
    requires IsBareMarker(marker) && IsDeepAtx(heading)
    ensures FixedLines([marker, heading], false) == [marker, FixedLine(heading)]
  {
    hide FixedLine, TrimStart, StartsWith, IsDeepAtx, IsBareMarker;
    BareIsNoFence(marker);
    FixedStartsWithHash(heading);
    BareIsNotDeep(marker);
    FixedByLine(marker, [heading], false);
    FixedByLine(heading, [], false);
    assert [marker] + [heading] == [marker, heading] && [heading] + [] == [heading];
    assert FixedLines([], false) == [];
  }

  lemma BareIsNotDeep(marker: string)
    requires IsBareMarker(marker)
    ensures !IsDeepAtx(marker)
  {
    var indent, mark, space := TakeMarkerApart(marker);
    MarkAtFront(indent, mark, space);
  }

  lemma HealedPair(marker: string, fixed: string)
    requires IsBareMarker(marker)
    requires TrimStart(fixed) == fixed && fixed != "" && LooksLikeMarker(fixed)
    requires !IsBareMarker(fixed)
    ensures HealedLines([marker, fixed], false) == [marker, fixed]
  {
    TrimStartDrops(fixed);
    assert [marker, fixed] == [marker] + ([] + [fixed]) && [] + [fixed] == [fixed] == [fixed] + [];
    HealedMarker(marker, [], [fixed]);
    HealedByLine(fixed, [], false);
    assert HealedLines([], false) == [] && HealedLines([], true) == [];
  }
}
