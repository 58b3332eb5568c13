/** The string operations of the host languages that the models below share. */
module Text {

  /** The class `\s` of a JavaScript regular expression, which is also what `trim` removes. */
  predicate IsSpace(c: char) {
    || '\t' <= c <= '\r'
    || c == ' '
    || c == '\U{00A0}'
    || c == '\U{1680}'
    || '\U{2000}' <= c <= '\U{200A}'
    || c == '\U{2028}'
    || c == '\U{2029}'
    || c == '\U{202F}'
    || c == '\U{205F}'
    || c == '\U{3000}'
    || c == '\U{FEFF}'
  }

  /** The line terminators: what `.` does not match, and where `^` and `$` match in a multi-line pattern. */
  predicate IsTerminator(c: char) {
    c == '\n' || c == '\r' || c == '\U{2028}' || c == '\U{2029}'
  }

  predicate IsDigit(c: char) {
    '0' <= c <= '9'
  }

  /** White space, line terminators and digits one by one. */
  lemma CharactersListed(c: char)
    ensures IsSpace(c) <==>
            || c in "\t\n\U{000B}\U{000C}\r \U{00A0}\U{1680}"
            || c in "\U{2000}\U{2001}\U{2002}\U{2003}\U{2004}\U{2005}\U{2006}\U{2007}\U{2008}\U{2009}\U{200A}"
            || c in "\U{2028}\U{2029}\U{202F}\U{205F}\U{3000}\U{FEFF}"
    ensures IsTerminator(c) <==> c in "\n\r\U{2028}\U{2029}"
    ensures IsDigit(c) <==> c in "0123456789"
  {
  }

  /** What opens and closes a fenced code block. */
  const FENCE: string := "```"

  predicate Blank(s: string) {
    forall i :: 0 <= i < |s| ==> IsSpace(s[i])
  }

  predicate StartsWith(s: string, prefix: string) {
    |prefix| <= |s| && s[..|prefix|] == prefix
  }

  function TrimStart(s: string): string {
    if s != "" && IsSpace(s[0]) then TrimStart(s[1..]) else s
  }

  function TrimEnd(s: string): string {
    if s != "" && IsSpace(s[|s| - 1]) then TrimEnd(s[..|s| - 1]) else s
  }

  function Trim(s: string): string {
    TrimEnd(TrimStart(s))
  }

  /** How many leading characters of `s` are white space. */
  function SpaceRun(s: string): nat {
    if s != "" && IsSpace(s[0]) then 1 + SpaceRun(s[1..]) else 0
  }

  /** How many leading characters of `s` are `#`. */
  function HashRun(s: string): nat {
    if s != "" && s[0] == '#' then 1 + HashRun(s[1..]) else 0
  }

  /** How many leading characters of `s` are decimal digits. */
  function DigitRun(s: string): nat {
    if s != "" && IsDigit(s[0]) then 1 + DigitRun(s[1..]) else 0
  }

  function Split(s: string, separator: char): (parts: seq<string>)
    ensures parts != []
  {
    if s == "" then [""]
    else
      var rest := Split(s[1..], separator);
      if s[0] == separator then [""] + rest else [[s[0]] + rest[0]] + rest[1..]
  }

  function Join(parts: seq<string>, separator: string): string {
    if |parts| == 0 then ""
    else if |parts| == 1 then parts[0]
    else parts[0] + separator + Join(parts[1..], separator)
  }

  function Concat(parts: seq<string>): string {
    if parts == [] then "" else parts[0] + Concat(parts[1..])
  }

  /** `s` without its white space. */
  function Erase(s: string): string {
    if s == "" then ""
    else if IsSpace(s[0]) then Erase(s[1..])
    else [s[0]] + Erase(s[1..])
  }

  lemma {:induction false} HashRunMeaning(s: string)
    ensures HashRun(s) <= |s|
    ensures forall i :: 0 <= i < HashRun(s) ==> s[i] == '#'
    ensures HashRun(s) < |s| ==> s[HashRun(s)] != '#'
  {
    if s != "" && s[0] == '#' {
      HashRunMeaning(s[1..]);
    }
  }

  lemma {:induction false} TrimStartDrops(s: string)
    ensures SpaceRun(s) <= |s|
    ensures TrimStart(s) == s[SpaceRun(s)..]
    ensures Blank(s[..SpaceRun(s)])
    ensures TrimStart(s) != "" ==> !IsSpace(TrimStart(s)[0])
    ensures TrimStart(s) == "" <==> Blank(s)
  {
    if s != "" && IsSpace(s[0]) {
      TrimStartDrops(s[1..]);
      assert s[..SpaceRun(s)] == [s[0]] + s[1..][..SpaceRun(s[1..])];
      assert s == [s[0]] + s[1..];
    }
  }

  lemma {:induction false} TrimStartOfIndented(blank: string, s: string)
    requires Blank(blank)
    requires s != "" && !IsSpace(s[0])
    ensures TrimStart(blank + s) == s
    ensures SpaceRun(blank + s) == |blank|
  {
    if blank == "" {
      assert blank + s == s;
    } else {
      assert (blank + s)[1..] == blank[1..] + s;
      TrimStartOfIndented(blank[1..], s);
    }
  }

  lemma {:induction false} HashRunOf(s: string, n: nat)
    requires n <= |s|
    requires forall i :: 0 <= i < n ==> s[i] == '#'
    requires n < |s| ==> s[n] != '#'
    ensures HashRun(s) == n
  {
    if n > 0 {
      HashRunOf(s[1..], n - 1);
    }
  }

  lemma {:induction false} TrimEndKeeps(s: string)
    ensures |TrimEnd(s)| <= |s|
    ensures TrimEnd(s) == s[..|TrimEnd(s)|]
    ensures Blank(s[|TrimEnd(s)|..])
    ensures TrimEnd(s) != "" ==> !IsSpace(TrimEnd(s)[|TrimEnd(s)| - 1])
    ensures TrimEnd(s) == "" <==> Blank(s)
  {
    if s != "" && IsSpace(s[|s| - 1]) {
      var front := s[..|s| - 1];
      TrimEndKeeps(front);
      assert s == front + [s[|s| - 1]];
      assert s[|TrimEnd(s)|..] == front[|TrimEnd(s)|..] + [s[|s| - 1]];
    }
  }

  lemma {:induction false} TrimEndOfAppended(s: string, t: string)
    requires Blank(t)
    ensures TrimEnd(s + t) == TrimEnd(s)
  {
    if t == "" {
      assert s + t == s;
    } else {
      var front := t[..|t| - 1];
      assert s + t == (s + front) + [t[|t| - 1]];
      assert (s + t)[..|s + t| - 1] == s + front;
      TrimEndOfAppended(s, front);
    }
  }

  lemma {:induction false} EraseConcat(s: string, t: string)
    ensures Erase(s + t) == Erase(s) + Erase(t)
  {
    if s == "" {
      assert s + t == t;
    } else {
      assert (s + t)[1..] == s[1..] + t;
      EraseConcat(s[1..], t);
    }
  }

  /** Erasing drops a character exactly if it is white space. */
  lemma EraseOne(c: char)
    ensures Erase([c]) == if IsSpace(c) then "" else [c]
  {
    assert [c][1..] == "" && [c] + "" == [c];
  }

  lemma StartsWithMeaning(s: string, prefix: string)
    ensures StartsWith(s, prefix) <==> exists rest :: s == prefix + rest
  {
    if StartsWith(s, prefix) {
      assert s == prefix + s[|prefix|..];
    }
  }

  lemma {:induction false} EraseBlank(s: string)
    requires Blank(s)
    ensures Erase(s) == ""
  {
    if s != "" {
      EraseBlank(s[1..]);
    }
  }

  lemma EraseTrimStart(s: string)
    ensures Erase(TrimStart(s)) == Erase(s)
  {
    TrimStartDrops(s);
    var k := SpaceRun(s);
    assert s == s[..k] + s[k..];
    EraseConcat(s[..k], s[k..]);
    EraseBlank(s[..k]);
  }

  /** Joining the pieces of a split text gives the text back. */
  lemma {:induction false} JoinSplit(s: string, separator: char)
    ensures Join(Split(s, separator), [separator]) == s
  {
    if s != "" {
      JoinSplit(s[1..], separator);
      var rest := Split(s[1..], separator);
      var parts := Split(s, separator);
      if s[0] == separator {
        assert parts[1..] == rest;
      } else if |rest| > 1 {
        assert parts[1..] == rest[1..];
      }
    }
  }

  /** Pieces free of the separator are what the split of their join returns. */
  lemma {:induction false} SplitJoin(parts: seq<string>, separator: char)
    requires parts != []
    requires forall i :: 0 <= i < |parts| ==> separator !in parts[i]
    ensures Split(Join(parts, [separator]), separator) == parts
    decreases |parts|, |parts[0]|
  {
    var s := Join(parts, [separator]);
    if parts[0] == "" {
      if |parts| > 1 {
        SplitJoin(parts[1..], separator);
        assert s[1..] == Join(parts[1..], [separator]);
      }
    } else {
      var shorter := [parts[0][1..]] + parts[1..];
      assert shorter[1..] == parts[1..];
      assert s[0] == parts[0][0] && s[1..] == Join(shorter, [separator]);
      SplitJoin(shorter, separator);
      assert [s[0]] + shorter[0] == parts[0];
      assert [parts[0]] + parts[1..] == parts;
    }
  }

  lemma {:induction false} SplitPieces(s: string, separator: char)
    ensures forall i :: 0 <= i < |Split(s, separator)| ==> separator !in Split(s, separator)[i]
  {
    if s != "" {
      SplitPieces(s[1..], separator);
    }
  }

  /** A line feed counts as white space, so joining or splitting lines erases to the same text. */
  lemma {:induction false} EraseJoin(parts: seq<string>)
    ensures Erase(Join(parts, "\n")) == Erase(Concat(parts))
  {
    if |parts| > 1 {
      EraseJoin(parts[1..]);
      EraseConcat(parts[0], Concat(parts[1..]));
      EraseConcat(parts[0] + "\n", Join(parts[1..], "\n"));
      EraseConcat(parts[0], "\n");
      EraseBlank("\n");
    } else if |parts| == 1 {
      assert parts[1..] == [] && parts[0] + "" == parts[0];
    }
  }

  lemma AppendAssociates<T>(a: seq<T>, b: seq<T>, c: seq<T>)
    ensures a + (b + c) == a + b + c
  {
  }

  /** Cutting an appended sequence inside its first part. */
  lemma CutFirstPart<T>(a: seq<T>, b: seq<T>, i: nat)
    requires i <= |a|
    ensures (a + b)[..i] == a[..i] && (a + b)[i..] == a[i..] + b
  {
  }

  lemma {:induction false} ConcatAppend(a: seq<string>, b: seq<string>)
    ensures Concat(a + b) == Concat(a) + Concat(b)
  {
    if a == [] {
      assert a + b == b;
    } else {
      assert (a + b)[1..] == a[1..] + b;
      ConcatAppend(a[1..], b);
    }
  }

  /** `text.replace(/\r\n/g, "\n")` */
  function ReplaceCrLf(s: string): string {
    if s == "" then ""
    else if |s| >= 2 && s[0] == '\r' && s[1] == '\n' then "\n" + ReplaceCrLf(s[2..])
    else [s[0]] + ReplaceCrLf(s[1..])
  }

  /** `text.replace(/\r/g, "\n")` */
  function ReplaceCr(s: string): string {
    if s == "" then ""
    else (if s[0] == '\r' then "\n" else [s[0]]) + ReplaceCr(s[1..])
  }

  /** The lines of a text whose lines may end in `\r\n`, `\r` or `\n`. */
  function Lines(s: string): (lines: seq<string>)
    ensures lines != []
  {
    Split(ReplaceCr(ReplaceCrLf(s)), '\n')
  }

  lemma {:induction false} EraseReplaceCrLf(s: string)
    ensures Erase(ReplaceCrLf(s)) == Erase(s)
  {
    if s == "" {
    } else if |s| >= 2 && s[0] == '\r' && s[1] == '\n' {
      EraseReplaceCrLf(s[2..]);
      assert s[1..][1..] == s[2..];
    } else {
      EraseReplaceCrLf(s[1..]);
    }
  }

  lemma {:induction false} EraseReplaceCr(s: string)
    ensures Erase(ReplaceCr(s)) == Erase(s)
    ensures '\r' !in ReplaceCr(s)
  {
    if s != "" {
      EraseReplaceCr(s[1..]);
    }
  }

  lemma EraseLines(s: string)
    ensures Erase(Concat(Lines(s))) == Erase(s)
  {
    var normal := ReplaceCr(ReplaceCrLf(s));
    EraseReplaceCrLf(s);
    EraseReplaceCr(ReplaceCrLf(s));
    JoinSplit(normal, '\n');
    EraseJoin(Lines(s));
  }

  /** Lines with the ends given for all but the last. */
  function Ended(lines: seq<string>, ends: seq<string>): string
    requires |lines| == |ends| + 1
  {
    if ends == [] then lines[0] else lines[0] + (ends[0] + Ended(lines[1..], ends[1..]))
  }

  predicate IsLineText(s: string) {
    '\r' !in s && '\n' !in s
  }

  /** A line may end in a line feed, a carriage return or both, but `\r` before `\n` is one end. */
  predicate AreEnds(lines: seq<string>, ends: seq<string>)
    requires |lines| == |ends| + 1
  {
    && (forall i :: 0 <= i < |ends| ==> ends[i] == "\n" || ends[i] == "\r" || ends[i] == "\r\n")
    && (forall i :: 0 <= i < |ends| - 1 ==> ends[i] == "\r" && lines[i + 1] == "" ==> ends[i + 1] != "\n")
  }

  lemma {:induction false} ReplaceCrLfInLine(line: string, rest: string)
    requires IsLineText(line)
    ensures ReplaceCrLf(line + rest) == line + ReplaceCrLf(rest)
  {
    if line == "" {
      assert line + rest == rest && "" + ReplaceCrLf(rest) == ReplaceCrLf(rest);
    } else {
      assert (line + rest)[1..] == line[1..] + rest && (line + rest)[0] == line[0];
      ReplaceCrLfInLine(line[1..], rest);
      AppendAssociates([line[0]], line[1..], ReplaceCrLf(rest));
      assert line == [line[0]] + line[1..];
    }
  }

  lemma {:induction false} ReplaceCrInLine(line: string, rest: string)
    requires IsLineText(line)
    ensures ReplaceCr(line + rest) == line + ReplaceCr(rest)
  {
    if line == "" {
      assert line + rest == rest && "" + ReplaceCr(rest) == ReplaceCr(rest);
    } else {
      assert (line + rest)[1..] == line[1..] + rest && (line + rest)[0] == line[0];
      ReplaceCrInLine(line[1..], rest);
      AppendAssociates([line[0]], line[1..], ReplaceCr(rest));
      assert line == [line[0]] + line[1..];
    }
  }

  lemma ReplaceInLine(line: string, rest: string)
    requires IsLineText(line)
    ensures ReplaceCr(ReplaceCrLf(line + rest)) == line + ReplaceCr(ReplaceCrLf(rest))
  {
    ReplaceCrLfInLine(line, rest);
    ReplaceCrInLine(line, ReplaceCrLf(rest));
  }

  /** Reading the lines of a text gives back what it was put together from. */
  lemma {:induction false} LinesReadBack(lines: seq<string>, ends: seq<string>)
    requires |lines| == |ends| + 1 && AreEnds(lines, ends)
    requires forall i :: 0 <= i < |lines| ==> IsLineText(lines[i])
    ensures Lines(Ended(lines, ends)) == lines
  {
    NormalizedEnds(lines, ends);
    SplitJoin(lines, '\n');
  }

  lemma EmptyStaysEmpty()
    ensures ReplaceCr(ReplaceCrLf("")) == ""
  {
  }

  lemma {:induction false} NormalizedEnds(lines: seq<string>, ends: seq<string>)
    requires |lines| == |ends| + 1 && AreEnds(lines, ends)
    requires forall i :: 0 <= i < |lines| ==> IsLineText(lines[i])
    ensures ReplaceCr(ReplaceCrLf(Ended(lines, ends))) == Join(lines, "\n")
    decreases |lines|
  {
    hide ReplaceCr, ReplaceCrLf;
    if ends == [] {
      assert lines[0] + "" == lines[0];
      ReplaceInLine(lines[0], "");
      EmptyStaysEmpty();
      assert lines == [lines[0]];
    } else {
      var rest := Ended(lines[1..], ends[1..]);
      NormalizedEnds(lines[1..], ends[1..]);
      if ends[0] == "\r" {
        assert |ends| > 1 ==> ends[1..][0] == ends[1] && lines[1..][0] == lines[1];
        NoFeedFirst(lines[1..], ends[1..]);
      }
      OneEnd(ends[0], rest);
      ReplaceInLine(lines[0], ends[0] + rest);
    }
  }

  lemma NoFeedFirst(lines: seq<string>, ends: seq<string>)
    requires |lines| == |ends| + 1 && IsLineText(lines[0])
    requires ends != [] && lines[0] == "" ==> ends[0] == "\r" || ends[0] == "\r\n"
    ensures var text := Ended(lines, ends); text == "" || text[0] != '\n'
  {
  }

  lemma OneEnd(end: string, rest: string)
    requires end == "\n" || end == "\r\n" || (end == "\r" && (rest == "" || rest[0] != '\n'))
    ensures ReplaceCr(ReplaceCrLf(end + rest)) == "\n" + ReplaceCr(ReplaceCrLf(rest))
  {
    var text, normal := end + rest, ReplaceCrLf(rest);
    if end == "\r\n" {
      assert text[2..] == rest;
    } else {
      assert text[1..] == rest;
    }
    assert ReplaceCrLf(text) == (if end == "\r" then "\r" else "\n") + normal;
    assert ReplaceCrLf(text)[1..] == normal;
  }

  // ----- Decimal numerals

  function Decimal(n: nat): string {
    if n < 10 then ['0' + n as char] else Decimal(n / 10) + ['0' + (n % 10) as char]
  }

  function Value(s: string): int {
    if s == "" then 0 else Value(s[..|s| - 1]) * 10 + (s[|s| - 1] as int - '0' as int)
  }

  /** A numeral has digits only, and no leading zero unless it is one digit. */
  lemma {:induction false} DecimalDigits(n: nat)
    ensures |Decimal(n)| >= 1 && forall i :: 0 <= i < |Decimal(n)| ==> IsDigit(Decimal(n)[i])
    ensures n > 0 ==> Decimal(n)[0] != '0'
    ensures n < 10 ==> |Decimal(n)| == 1
  {
    if n >= 10 {
      DecimalDigits(n / 10);
    }
  }

  lemma {:induction false} DecimalReadsBack(n: nat)
    ensures Value(Decimal(n)) == n
    ensures '.' !in Decimal(n)
  {
    if n < 10 {
      assert Value([]) == 0;
      assert Decimal(n)[..0] == [];
    } else {
      DecimalReadsBack(n / 10);
      assert Decimal(n)[..|Decimal(n)| - 1] == Decimal(n / 10);
    }
  }
}
