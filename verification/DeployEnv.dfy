/**
 The environment file of a deployment: values are written double-quoted, and each run takes the
 encryption key over from the file the previous run wrote, without undoing the quoting.
 */
module DeployEnv {
  import opened Common
  import opened Text
  import StableSort

  const KEY: string := "EXCHANGE_TOKEN_ENCRYPTION_KEY"

  // ----- Strings in Python

  /** What `str.splitlines` breaks at. */
  predicate IsBreak(c: char) {
    || '\n' <= c <= '\r'
    || '\U{001C}' <= c <= '\U{001E}'
    || c == '\U{0085}' || c == '\U{2028}' || c == '\U{2029}'
  }

  /** What `str.strip()` removes. */
  predicate IsPySpace(c: char) {
    || '\t' <= c <= '\r' || '\U{001C}' <= c <= '\U{0020}'
    || c == '\U{0085}' || c == '\U{00A0}' || c == '\U{1680}'
    || '\U{2000}' <= c <= '\U{200A}'
    || c == '\U{2028}' || c == '\U{2029}' || c == '\U{202F}' || c == '\U{205F}' || c == '\U{3000}'
  }

  /** The line breaks one by one. */
  lemma BreaksListed(c: char)
    ensures IsBreak(c) <==> c in "\n\U{000B}\U{000C}\r\U{001C}\U{001D}\U{001E}\U{0085}\U{2028}\U{2029}"
  {
  }

  /** The white space one by one, that of one byte first. */
  lemma PySpacesListed(c: char)
    ensures IsPySpace(c) <==>
            || c in "\t\n\U{000B}\U{000C}\r\U{001C}\U{001D}\U{001E}\U{001F} \U{0085}\U{00A0}"
            || c in "\U{1680}\U{2000}\U{2001}\U{2002}\U{2003}\U{2004}\U{2005}\U{2006}\U{2007}\U{2008}\U{2009}\U{200A}"
            || c in "\U{2028}\U{2029}\U{202F}\U{205F}\U{3000}"
  {
  }

  predicate OneLine(s: string) {
    forall i :: 0 <= i < |s| ==> !IsBreak(s[i])
  }

  function Replace(s: string, c: char, substitute: string): string {
    if s == "" then "" else (if s[0] == c then substitute else [s[0]]) + Replace(s[1..], c, substitute)
  }

  function LineRun(s: string): (n: nat)
    ensures n <= |s|
  {
    if s != "" && !IsBreak(s[0]) then 1 + LineRun(s[1..]) else 0
  }

  /** `s.splitlines()` */
  function SplitLines(s: string): seq<string> {
    if s == "" then []
    else
      var n := LineRun(s);
      if n == |s| then [s]
      else
        var skip := if n + 1 < |s| && s[n] == '\r' && s[n + 1] == '\n' then 2 else 1;
        [s[..n]] + SplitLines(s[n + skip..])
  }

  function StripLeft(s: string, drop: char -> bool): string {
    if s != "" && drop(s[0]) then StripLeft(s[1..], drop) else s
  }

  function StripRight(s: string, drop: char -> bool): string {
    if s != "" && drop(s[|s| - 1]) then StripRight(s[..|s| - 1], drop) else s
  }

  function Strip(s: string, drop: char -> bool): string {
    StripRight(StripLeft(s, drop), drop)
  }

  const SPACE: char -> bool := c => IsPySpace(c)
  const QUOTE: char -> bool := c => c == '"'

  // ----- Writing and reading a value

  function YamlEscape(value: string): string {
    "\"" + Replace(Replace(value, '\\', "\\\\"), '"', "\\\"") + "\""
  }

  /** Both replacements at once: a backslash before every backslash and every quote. */
  function Escaped(s: string): string {
    if s == "" then ""
    else (if s[0] == '\\' || s[0] == '"' then ['\\', s[0]] else [s[0]]) + Escaped(s[1..])
  }

  /** The content of a one-line double-quoted scalar, as far as it uses the two escapes above. */
  function Unescaped(s: string): Option<string>
    decreases |s|
  {
    if s == "" then Some("")
    else if s[0] == '"' then None
    else if s[0] == '\\' then
      if |s| < 2 || (s[1] != '\\' && s[1] != '"') then None
      else
        match Unescaped(s[2..])
        case None => None
        case Some(rest) => Some([s[1]] + rest)
    else
      match Unescaped(s[1..])
      case None => None
      case Some(rest) => Some([s[0]] + rest)
  }

  function YamlScalar(s: string): Option<string> {
    if |s| >= 2 && s[0] == '"' && s[|s| - 1] == '"' && OneLine(s) then Unescaped(s[1..|s| - 1]) else None
  }

  // ----- The file

  type Entries = seq<(string, string)>

  function LineOf(entry: (string, string)): string {
    entry.0 + ": " + YamlEscape(entry.1)
  }

  function LinesOf(entries: Entries): seq<string> {
    seq(|entries|, i requires 0 <= i < |entries| => LineOf(entries[i]))
  }

  predicate TextAtMost(a: string, b: string) {
    a == "" || (b != "" && (a[0] < b[0] || (a[0] == b[0] && TextAtMost(a[1..], b[1..]))))
  }

  const BY_KEY: ((string, string), (string, string)) -> bool :=
    (a: (string, string), b: (string, string)) => TextAtMost(a.0, b.0)

  function Render(entries: Entries): string {
    Join(LinesOf(StableSort.Sort(entries, BY_KEY)), "\n") + "\n"
  }

  predicate IsKeyLine(line: string) {
    StartsWith(line, KEY + ":")
  }

  /** `line.split(":", 1)[1].strip().strip('"')` */
  function KeyOnLine(line: string): string
    requires IsKeyLine(line)
  {
    Strip(Strip(line[|KEY| + 1..], SPACE), QUOTE)
  }

  function KeyInLines(lines: seq<string>): Option<string> {
    if lines == [] then None
    else if IsKeyLine(lines[0]) then Some(KeyOnLine(lines[0]))
    else KeyInLines(lines[1..])
  }

  function KeyInFile(file: Option<string>): Option<string> {
    match file
    case None => None
    case Some(text) => KeyInLines(SplitLines(text))
  }

  /** What a run writes: the other settings, and the key of the previous file or a new one. */
  function Rewritten(file: Option<string>, others: Entries, freshKey: string): string {
    Render(others + [(KEY, match KeyInFile(file) case Some(key) => key case None => freshKey)])
  }

  method FindKey(text: string) returns (key: Option<string>)
    ensures key == KeyInFile(Some(text))
  {
    var lines := SplitLines(text);
    key := None;
    assert lines[0..] == lines;
    for i := 0 to |lines|
      invariant key == None
      invariant KeyInLines(lines) == KeyInLines(lines[i..])
    {
      assert lines[i..][0] == lines[i] && lines[i..][1..] == lines[i + 1..];
      if IsKeyLine(lines[i]) {
        return Some(KeyOnLine(lines[i]));
      }
    }
    assert lines[|lines|..] == [];
  }

  method WriteEnv(file: Option<string>, others: Entries, freshKey: string) returns (text: string)
    ensures text == Rewritten(file, others, freshKey)
  {
    var merged := others;
    var key := None;
    if file.Some? {
      key := FindKey(file.value);
    }
    if key.None? {
      key := Some(freshKey);
    }
    merged := merged + [(KEY, key.value)];
    text := Render(merged);
  }

  // ----- Escaping

  lemma {:induction false} ReplaceAppend(s: string, t: string, c: char, substitute: string)
    ensures Replace(s + t, c, substitute) == Replace(s, c, substitute) + Replace(t, c, substitute)
  {
    if s == "" {
      assert s + t == t;
    } else {
      assert (s + t)[1..] == s[1..] + t;
      ReplaceAppend(s[1..], t, c, substitute);
    }
  }

  /** The two replacements, in this order, are one map over the characters. */
  lemma {:induction false} ReplacementsAreOneMap(s: string)
    ensures Replace(Replace(s, '\\', "\\\\"), '"', "\\\"") == Escaped(s)
  {
    if s != "" {
      ReplacementsAreOneMap(s[1..]);
      var first := if s[0] == '\\' then "\\\\" else [s[0]];
      ReplaceAppend(first, Replace(s[1..], '\\', "\\\\"), '"', "\\\"");
      assert "\\\\"[1..] == "\\" && "\\"[1..] == "" && [s[0]][1..] == "";
      assert Replace("\\", '"', "\\\"") == "\\";
      assert Replace(first, '"', "\\\"") == if s[0] == '\\' || s[0] == '"' then ['\\', s[0]] else [s[0]];
    }
  }

  lemma {:induction false} EscapedReads(s: string)
    ensures Unescaped(Escaped(s)) == Some(s)
  {
    if s != "" {
      EscapedReads(s[1..]);
      assert s == [s[0]] + s[1..];
      var escaped := Escaped(s);
      if s[0] == '\\' || s[0] == '"' {
        assert escaped[0] == '\\' && escaped[1] == s[0] && escaped[2..] == Escaped(s[1..]);
      } else {
        assert escaped[1..] == Escaped(s[1..]);
      }
    }
  }

  lemma {:induction false} EscapedOneLine(s: string)
    requires OneLine(s)
    ensures OneLine(Escaped(s))
  {
    if s != "" {
      EscapedOneLine(s[1..]);
    }
  }

  /** A reader of double-quoted scalars gets every one-line value back. */
  lemma YamlReadsBack(value: string)
    requires OneLine(value)
    ensures YamlScalar(YamlEscape(value)) == Some(value)
  {
    ReplacementsAreOneMap(value);
    EscapedReads(value);
    EscapedOneLine(value);
    var s := YamlEscape(value);
    assert s == "\"" + Escaped(value) + "\"";
    assert s[1..|s| - 1] == Escaped(value);
  }

  // ----- Reading the key back

  predicate IsPlain(s: string) {
    OneLine(s) && '"' !in s && '\\' !in s
  }

  lemma {:induction false} EscapedLength(s: string)
    ensures |Escaped(s)| >= |s|
    ensures '"' !in s && '\\' !in s ==> Escaped(s) == s
    ensures '"' in s || '\\' in s ==> |Escaped(s)| > |s|
    ensures s != "" ==> Escaped(s) != "" && Escaped(s)[0] != '"' && Escaped(s)[|Escaped(s)| - 1] == s[|s| - 1]
  {
    if s != "" {
      EscapedLength(s[1..]);
      assert s == [s[0]] + s[1..];
    }
  }

  lemma {:induction false} StripRightEnds(s: string, drop: char -> bool)
    ensures var r := StripRight(s, drop); r == "" || !drop(r[|r| - 1])
    ensures s != "" && !drop(s[|s| - 1]) ==> StripRight(s, drop) == s
  {
    if s != "" && drop(s[|s| - 1]) {
      StripRightEnds(s[..|s| - 1], drop);
    }
  }

  /** Stripping white space, then quotes, from a quoted text behind a space. */
  lemma StripQuoted(text: string)
    requires text != "" ==> text[0] != '"'
    ensures Strip(Strip(" \"" + text + "\"", SPACE), QUOTE) == StripRight(text, QUOTE)
  {
    var inner := text + "\"";
    var quoted := "\"" + inner;
    var all := " \"" + text + "\"";
    assert all == " " + quoted && all[1..] == quoted;
    assert StripLeft(all, SPACE) == StripLeft(quoted, SPACE) == quoted;
    assert quoted[|quoted| - 1] == '"';
    StripRightEnds(quoted, SPACE);
    assert quoted[1..] == inner && inner[..|inner| - 1] == text;
    StripFrontQuote(text);
    if text == "" {
      assert inner[1..] == "";
    }
  }

  lemma StripFrontQuote(text: string)
    requires text != "" ==> text[0] != '"'
    ensures StripLeft("\"" + (text + "\""), QUOTE) == if text == "" then "" else text + "\""
  {
    var inner := text + "\"";
    assert ("\"" + inner)[1..] == inner;
    assert StripLeft("\"" + inner, QUOTE) == StripLeft(inner, QUOTE);
    if text == "" {
      assert inner == "\"" && inner[0] == '"' && inner[1..] == "" && QUOTE('"');
      assert StripLeft(inner, QUOTE) == StripLeft(inner[1..], QUOTE);
    } else {
      assert inner[0] == text[0];
    }
  }

  /** What is read from the line written for a one-line key. */
  lemma WrittenKey(key: string)
    requires OneLine(key)
    ensures var line := LineOf((KEY, key));
            IsKeyLine(line) && OneLine(line) && KeyOnLine(line) == StripRight(Escaped(key), QUOTE)
  {
    hide Strip, StripRight, StripLeft;
    var line, escaped := LineOf((KEY, key)), Escaped(key);
    ReplacementsAreOneMap(key);
    EscapedOneLine(key);
    EscapedLength(key);
    KeyTextOneLine();
    assert line == KEY + ": " + ("\"" + escaped + "\"");
    assert line[|KEY| + 1..] == " \"" + escaped + "\"";
    assert line[..|KEY + ":"|] == KEY + ":";
    StripQuoted(escaped);
  }

  lemma KeyTextOneLine()
    ensures OneLine(KEY) && ':' !in KEY
  {
  }

  /** Stripping the quotes returns a one-line key exactly when it holds no quote and no backslash. */
  lemma WrittenKeyIff(key: string)
    requires OneLine(key)
    ensures KeyOnLine(LineOf((KEY, key))) == key <==> IsPlain(key)
  {
    WrittenKey(key);
    EscapedLength(key);
    StripRightEnds(Escaped(key), QUOTE);
    if key != "" && key[|key| - 1] == '"' {
      assert key[|key| - 1] in key;
    }
  }

  lemma {:induction false} LineRunOf(line: string, rest: string)
    requires OneLine(line) && (rest == "" || IsBreak(rest[0]))
    ensures LineRun(line + rest) == |line|
  {
    if line == "" {
      assert line + rest == rest;
    } else {
      assert (line + rest)[1..] == line[1..] + rest;
      LineRunOf(line[1..], rest);
    }
  }

  /** One-line pieces, each ended by a line feed, are what splitting into lines returns. */
  lemma {:induction false} SplitLinesJoin(lines: seq<string>)
    requires lines != []
    requires forall i :: 0 <= i < |lines| ==> OneLine(lines[i])
    ensures SplitLines(Join(lines, "\n") + "\n") == lines
  {
    var first := lines[0];
    var rest := if |lines| == 1 then "" else Join(lines[1..], "\n") + "\n";
    var text := Join(lines, "\n") + "\n";
    assert text == first + ("\n" + rest);
    LineRunOf(first, "\n" + rest);
    assert text[|first|] == '\n' && text[|first| + 1..] == rest && text[..|first|] == first;
    if |lines| > 1 {
      SplitLinesJoin(lines[1..]);
    }
    assert lines == [first] + lines[1..];
  }

  lemma {:induction false} LineRunSolid(s: string)
    ensures OneLine(s[..LineRun(s)])
  {
    if s != "" && !IsBreak(s[0]) {
      LineRunSolid(s[1..]);
      assert s[..LineRun(s)] == [s[0]] + s[1..][..LineRun(s[1..])];
    }
  }

  lemma {:induction false} SplitLinesOneLine(s: string)
    ensures forall i :: 0 <= i < |SplitLines(s)| ==> OneLine(SplitLines(s)[i])
    decreases |s|
  {
    if s != "" {
      var n := LineRun(s);
      LineRunSolid(s);
      if n == |s| {
        assert s[..n] == s;
      } else {
        var skip := if n + 1 < |s| && s[n] == '\r' && s[n + 1] == '\n' then 2 else 1;
        SplitLinesOneLine(s[n + skip..]);
      }
    }
  }

  lemma StripOneLine(s: string, drop: char -> bool)
    requires OneLine(s)
    ensures OneLine(StripLeft(s, drop)) && OneLine(StripRight(s, drop))
  {
    if s != "" {
      StripLeftOneLine(s, drop);
      StripRightOneLine(s, drop);
    }
  }

  lemma {:induction false} StripLeftOneLine(s: string, drop: char -> bool)
    requires OneLine(s)
    ensures OneLine(StripLeft(s, drop))
  {
    if s != "" && drop(s[0]) {
      StripLeftOneLine(s[1..], drop);
    }
  }

  lemma {:induction false} StripRightOneLine(s: string, drop: char -> bool)
    requires OneLine(s)
    ensures OneLine(StripRight(s, drop))
  {
    if s != "" && drop(s[|s| - 1]) {
      StripRightOneLine(s[..|s| - 1], drop);
    }
  }

  lemma {:induction false} KeyInLinesOneLine(lines: seq<string>)
    requires forall i :: 0 <= i < |lines| ==> OneLine(lines[i])
    ensures KeyInLines(lines).Some? ==> OneLine(KeyInLines(lines).value)
  {
    if lines != [] {
      if IsKeyLine(lines[0]) {
        var rest := lines[0][|KEY| + 1..];
        assert OneLine(lines[0]);
        StripOneLine(rest, SPACE);
        StripOneLine(StripLeft(rest, SPACE), SPACE);
        StripOneLine(Strip(rest, SPACE), QUOTE);
        StripOneLine(StripLeft(Strip(rest, SPACE), QUOTE), QUOTE);
      } else {
        KeyInLinesOneLine(lines[1..]);
      }
    }
  }

  /** Settings on one line each, none of them the encryption key. */
  predicate IsSetting(entry: (string, string)) {
    entry.0 != KEY && ':' !in entry.0 && OneLine(entry.0) && OneLine(entry.1)
  }

  predicate AreSettings(entries: Entries) {
    forall i :: 0 <= i < |entries| ==> IsSetting(entries[i])
  }

  lemma SettingLine(entry: (string, string))
    requires IsSetting(entry)
    ensures OneLine(LineOf(entry)) && !IsKeyLine(LineOf(entry))
  {
    ReplacementsAreOneMap(entry.1);
    EscapedOneLine(entry.1);
    KeyTextOneLine();
    var line, name := LineOf(entry), entry.0;
    assert line == name + (": " + YamlEscape(entry.1));
    var start := KEY + ":";
    if |name| < |KEY| {
      assert line[|name|] == ':' && start[|name|] == KEY[|name|];
      assert |line| >= |start| ==> line[..|start|][|name|] == ':';
    } else {
      assert start[|KEY|] == ':';
      assert |line| >= |start| ==> line[..|start|][|KEY|] == line[|KEY|];
      assert |line| >= |start| ==> line[..|start|][..|KEY|] == name[..|KEY|];
      assert start[..|KEY|] == KEY;
      assert |name| == |KEY| ==> name[..|KEY|] == name;
    }
  }

  lemma {:induction false} KeyAmongSettings(entries: Entries, key: string)
    requires OneLine(key)
    requires forall i :: 0 <= i < |entries| ==> entries[i] == (KEY, key) || IsSetting(entries[i])
    ensures forall i :: 0 <= i < |entries| ==> OneLine(LinesOf(entries)[i])
    ensures (KEY, key) in entries ==> KeyInLines(LinesOf(entries)) == Some(KeyOnLine(LineOf((KEY, key))))
    decreases |entries|
  {
    WrittenKey(key);
    if entries != [] {
      KeyAmongSettings(entries[1..], key);
      assert LinesOf(entries)[1..] == LinesOf(entries[1..]);
      assert entries == [entries[0]] + entries[1..];
      forall i | 0 <= i < |entries| ensures OneLine(LinesOf(entries)[i]) {
        assert i > 0 ==> LinesOf(entries)[i] == LinesOf(entries[1..])[i - 1];
        if i == 0 && entries[0] != (KEY, key) {
          SettingLine(entries[0]);
        }
      }
      if entries[0] != (KEY, key) {
        SettingLine(entries[0]);
      }
    }
  }

  /** What a run reads back for a one-line key that the run before wrote, among any settings. */
  lemma KeyReadBack(others: Entries, key: string)
    requires AreSettings(others) && OneLine(key)
    ensures KeyInFile(Some(Render(others + [(KEY, key)]))) == Some(StripRight(Escaped(key), QUOTE))
  {
    var entries := others + [(KEY, key)];
    var sorted := StableSort.Sort(entries, BY_KEY);
    StableSort.SortPermutes(entries, BY_KEY);
    forall i | 0 <= i < |sorted| ensures sorted[i] == (KEY, key) || IsSetting(sorted[i]) {
      assert sorted[i] in multiset(sorted);
      assert sorted[i] in entries;
    }
    assert entries[|others|] == (KEY, key) && (KEY, key) in multiset(sorted);
    KeyAmongSettings(sorted, key);
    SplitLinesJoin(LinesOf(sorted));
    WrittenKey(key);
  }

  /** The key comes back from the file it is written to exactly when it has no quote, backslash or line break. */
  lemma KeyReadsBackIff(others: Entries, key: string)
    requires AreSettings(others)
    ensures KeyInFile(Some(Render(others + [(KEY, key)]))) == Some(key) <==> IsPlain(key)
  {
    if OneLine(key) {
      KeyReadBack(others, key);
      WrittenKey(key);
      WrittenKeyIff(key);
    } else {
      KeyInFileOneLine(Some(Render(others + [(KEY, key)])));
    }
  }

  /** Every run with its other settings and the key it would make up. */
  function RunAll(file: Option<string>, runs: seq<(Entries, string)>): Option<string>
    decreases |runs|
  {
    if runs == [] then file
    else RunAll(Some(Rewritten(file, runs[0].0, runs[0].1)), runs[1..])
  }

  /** A plain key survives any number of runs. */
  lemma {:induction false} KeySurvives(file: Option<string>, runs: seq<(Entries, string)>, key: string)
    requires KeyInFile(file) == Some(key) && IsPlain(key)
    requires forall i :: 0 <= i < |runs| ==> AreSettings(runs[i].0)
    ensures KeyInFile(RunAll(file, runs)) == Some(key)
    decreases |runs|
  {
    if runs != [] {
      KeyReadsBackIff(runs[0].0, key);
      KeySurvives(Some(Rewritten(file, runs[0].0, runs[0].1)), runs[1..], key);
    }
  }

  predicate IsBase64(s: string) {
    forall i :: 0 <= i < |s| ==> 'A' <= s[i] <= 'Z' || 'a' <= s[i] <= 'z' || '0' <= s[i] <= '9' || s[i] in "+/="
  }

  /** From the first run on, every run writes the key the first one made up. */
  lemma {:induction false} GeneratedKeySurvives(runs: seq<(Entries, string)>)
    requires runs != [] && IsBase64(runs[0].1)
    requires forall i :: 0 <= i < |runs| ==> AreSettings(runs[i].0)
    ensures KeyInFile(RunAll(None, runs)) == Some(runs[0].1)
  {
    assert IsPlain(runs[0].1);
    KeyReadsBackIff(runs[0].0, runs[0].1);
    KeySurvives(Some(Rewritten(None, runs[0].0, runs[0].1)), runs[1..], runs[0].1);
  }

  // ----- A key with a quote or a backslash

  /** The file holds a key that is not plain. */
  predicate HoldsUnplain(file: Option<string>) {
    KeyInFile(file).Some? && !IsPlain(KeyInFile(file).value)
  }

  function Backslashes(s: string): nat {
    multiset(s)['\\']
  }

  lemma {:induction false} EscapedBackslashes(s: string)
    ensures Backslashes(Escaped(s)) == 2 * Backslashes(s) + multiset(s)['"']
  {
    if s != "" {
      EscapedBackslashes(s[1..]);
      assert s == [s[0]] + s[1..];
    }
  }

  lemma {:induction false} StripKeepsBackslashes(s: string)
    ensures Backslashes(StripRight(s, QUOTE)) == Backslashes(s)
  {
    if s != "" && QUOTE(s[|s| - 1]) {
      StripKeepsBackslashes(s[..|s| - 1]);
      assert s == s[..|s| - 1] + [s[|s| - 1]];
    }
  }

  lemma KeyInFileOneLine(file: Option<string>)
    ensures KeyInFile(file).Some? ==> OneLine(KeyInFile(file).value)
  {
    if file.Some? {
      SplitLinesOneLine(file.value);
      KeyInLinesOneLine(SplitLines(file.value));
    }
  }

  /** A run puts a backslash before every quote and backslash of the key, and the next one drops only quotes. */
  lemma UnplainKeyGrows(file: Option<string>, others: Entries, freshKey: string)
    requires AreSettings(others) && HoldsUnplain(file)
    ensures var next := Some(Rewritten(file, others, freshKey));
            HoldsUnplain(next) && Backslashes(KeyInFile(next).value) > Backslashes(KeyInFile(file).value)
  {
    hide KeyInFile, Render, OneLine, AreSettings;
    var key := KeyInFile(file).value;
    KeyInFileOneLine(file);
    KeyReadBack(others, key);
    EscapedBackslashes(key);
    StripKeepsBackslashes(Escaped(key));
    assert Backslashes(StripRight(Escaped(key), QUOTE)) > 0;
  }

  lemma {:induction false} UnplainKeyKeepsGrowing(file: Option<string>, runs: seq<(Entries, string)>)
    requires HoldsUnplain(file)
    requires forall i :: 0 <= i < |runs| ==> AreSettings(runs[i].0)
    ensures HoldsUnplain(RunAll(file, runs))
    ensures runs != [] ==> Backslashes(KeyInFile(RunAll(file, runs)).value) > Backslashes(KeyInFile(file).value)
    decreases |runs|
  {
    hide HoldsUnplain, Backslashes, Rewritten, AreSettings;
    if runs != [] {
      UnplainKeyGrows(file, runs[0].0, runs[0].1);
      UnplainKeyKeepsGrowing(Some(Rewritten(file, runs[0].0, runs[0].1)), runs[1..]);
    }
  }

  lemma {:induction false} RunAllSplit(file: Option<string>, runs: seq<(Entries, string)>, i: nat)
    requires i <= |runs|
    ensures RunAll(RunAll(file, runs[..i]), runs[i..]) == RunAll(file, runs)
    decreases i
  {
    if i == 0 {
      assert runs[..0] == [] && runs[0..] == runs;
    } else {
      RunAllSplit(Some(Rewritten(file, runs[0].0, runs[0].1)), runs[1..], i - 1);
      assert runs[..i][0] == runs[0] && runs[..i][1..] == runs[1..][..i - 1] && runs[1..][i - 1..] == runs[i..];
    }
  }

  /** Once a file holds an unplain key, every run changes the key, and no run ever brings an earlier one back. */
  lemma UnplainKeyNeverReturns(file: Option<string>, runs: seq<(Entries, string)>, i: nat, j: nat)
    requires HoldsUnplain(file) && i < j <= |runs|
    requires forall k :: 0 <= k < |runs| ==> AreSettings(runs[k].0)
    ensures KeyInFile(RunAll(file, runs[..j])).Some?
    ensures KeyInFile(RunAll(file, runs[..i])) != KeyInFile(RunAll(file, runs[..j]))
  {
    hide KeyInFile, AreSettings, Backslashes;
    UnplainKeyKeepsGrowing(file, runs[..i]);
    UnplainKeyKeepsGrowing(RunAll(file, runs[..i]), runs[..j][i..]);
    RunAllSplit(file, runs[..j], i);
    assert runs[..j][..i] == runs[..i];
  }

  // ----- What a run writes

  /** The line holds the name before its first colon, and behind a space a scalar that reads as the value. */
  predicate IsLineFor(line: string, name: string, value: string) {
    && |line| >= |name| + 2 && ':' !in name
    && line[..|name|] == name && line[|name|] == ':' && line[|name| + 1] == ' '
    && YamlScalar(line[|name| + 2..]) == Some(value)
  }

  /** `a` and `b` agree up to `k`, where `a` ends or has the smaller character. */
  predicate DiffersAt(a: string, b: string, k: nat) {
    k <= |a| && k <= |b| && a[..k] == b[..k] && (k == |a| || (k < |b| && a[k] < b[k]))
  }

  ghost predicate Ascends(a: string, b: string) {
    exists k: nat :: DiffersAt(a, b, k)
  }

  lemma {:induction false} TextAtMostMeaning(a: string, b: string)
    requires TextAtMost(a, b)
    ensures Ascends(a, b)
  {
    if a == "" || a[0] < b[0] {
      assert DiffersAt(a, b, 0);
    } else {
      TextAtMostMeaning(a[1..], b[1..]);
      var k: nat :| DiffersAt(a[1..], b[1..], k);
      assert a == [a[0]] + a[1..] && b == [b[0]] + b[1..];
      assert a[..k + 1] == [a[0]] + a[1..][..k] && b[..k + 1] == [b[0]] + b[1..][..k];
      assert DiffersAt(a, b, k + 1);
    }
  }

  lemma {:induction false} TextAtMostTotal(a: string, b: string)
    ensures TextAtMost(a, b) || TextAtMost(b, a)
  {
    if a != "" && b != "" {
      TextAtMostTotal(a[1..], b[1..]);
    }
  }

  lemma {:induction false} TextAtMostTransitive(a: string, b: string, c: string)
    requires TextAtMost(a, b) && TextAtMost(b, c)
    ensures TextAtMost(a, c)
  {
    if a != "" && a[0] == b[0] == c[0] {
      TextAtMostTransitive(a[1..], b[1..], c[1..]);
    }
  }

  lemma ByKeyTotal()
    ensures StableSort.TotalPreorder(BY_KEY)
  {
    forall x: (string, string), y: (string, string) ensures BY_KEY(x, y) || BY_KEY(y, x) {
      TextAtMostTotal(x.0, y.0);
    }
    forall x: (string, string), y: (string, string), z: (string, string)
      ensures BY_KEY(x, y) && BY_KEY(y, z) ==> BY_KEY(x, z)
    {
      if BY_KEY(x, y) && BY_KEY(y, z) {
        TextAtMostTransitive(x.0, y.0, z.0);
      }
    }
  }

  lemma WrittenLine(name: string, value: string)
    requires ':' !in name && OneLine(value)
    ensures IsLineFor(LineOf((name, value)), name, value)
  {
    hide YamlScalar, YamlEscape;
    YamlReadsBack(value);
    var line := LineOf((name, value));
    assert line == name + (": " + YamlEscape(value));
    assert line[|name| + 2..] == YamlEscape(value);
  }

  lemma LinesWritten(entries: Entries, key: string)
    requires OneLine(key)
    requires forall i :: 0 <= i < |entries| ==> entries[i] == (KEY, key) || IsSetting(entries[i])
    ensures forall i :: 0 <= i < |entries| ==> OneLine(LinesOf(entries)[i])
    ensures forall i :: 0 <= i < |entries| ==> IsLineFor(LinesOf(entries)[i], entries[i].0, entries[i].1)
  {
    hide IsLineFor, YamlEscape, IsKeyLine, KeyOnLine, StripRight;
    KeyTextOneLine();
    WrittenKey(key);
    forall i | 0 <= i < |entries|
      ensures OneLine(LinesOf(entries)[i]) && IsLineFor(LinesOf(entries)[i], entries[i].0, entries[i].1)
    {
      WrittenLine(entries[i].0, entries[i].1);
      if entries[i] != (KEY, key) {
        SettingLine(entries[i]);
      }
    }
  }

  lemma NamesAscend(all: Entries)
    ensures var entries := StableSort.Sort(all, BY_KEY);
            && multiset(entries) == multiset(all)
            && forall i, j :: 0 <= i < j < |entries| ==> Ascends(entries[i].0, entries[j].0)
  {
    hide TextAtMost, Ascends;
    var entries := StableSort.Sort(all, BY_KEY);
    ByKeyTotal();
    StableSort.SortIsStable(all, BY_KEY);
    forall i, j | 0 <= i < j < |entries| ensures Ascends(entries[i].0, entries[j].0) {
      assert BY_KEY(entries[i], entries[j]);
      TextAtMostMeaning(entries[i].0, entries[j].0);
    }
  }

  lemma SettingsAmong(entries: Entries, others: Entries, key: string)
    requires AreSettings(others) && multiset(entries) == multiset(others + [(KEY, key)])
    ensures forall i :: 0 <= i < |entries| ==> entries[i] == (KEY, key) || IsSetting(entries[i])
  {
    hide IsSetting;
    forall i | 0 <= i < |entries| ensures entries[i] == (KEY, key) || IsSetting(entries[i]) {
      assert entries[i] in multiset(entries);
      assert entries[i] in others + [(KEY, key)];
    }
  }

  /**
   A run writes every setting and the key, one line each and nothing else, in ascending order of
   names; each line gives its name and its value back.
   */
  lemma EverySettingWritten(file: Option<string>, others: Entries, freshKey: string) returns (entries: Entries)
    requires AreSettings(others)
    requires OneLine(if KeyInFile(file).Some? then KeyInFile(file).value else freshKey)
    ensures var lines := SplitLines(Rewritten(file, others, freshKey));
            var key := if KeyInFile(file).Some? then KeyInFile(file).value else freshKey;
            && multiset(entries) == multiset(others + [("EXCHANGE_TOKEN_ENCRYPTION_KEY", key)])
            && |lines| == |entries|
            && forall i :: 0 <= i < |entries| ==> IsLineFor(lines[i], entries[i].0, entries[i].1)
    ensures forall i, j :: 0 <= i < j < |entries| ==> Ascends(entries[i].0, entries[j].0)
  {
    hide IsLineFor, Ascends, KeyInFile, OneLine, AreSettings, IsSetting, SplitLines, StableSort.Sort, Join, LineOf;
    var key := if KeyInFile(file).Some? then KeyInFile(file).value else freshKey;
    var all := others + [(KEY, key)];
    entries := StableSort.Sort(all, BY_KEY);
    NamesAscend(all);
    SettingsAmong(entries, others, key);
    LinesWritten(entries, key);
    assert |entries| == |multiset(entries)| == |multiset(all)| == |all|;
    SplitLinesJoin(LinesOf(entries));
  }

  /** Escaping goes character by character, and only the quote and the backslash get a backslash. */
  lemma {:induction false} EscapedMeaning(s: string, c: char, t: string)
    ensures Escaped(s + t) == Escaped(s) + Escaped(t)
    ensures Escaped([c]) == if c == '"' then "\\\"" else if c == '\\' then "\\\\" else [c]
  {
    assert [c][1..] == "";
    if s == "" {
      assert s + t == t;
    } else {
      assert (s + t)[1..] == s[1..] + t;
      EscapedMeaning(s[1..], c, t);
    }
  }

  // ----- What a run reads

  /** Stripping takes off as many characters as it may at either end, and no other. */
  lemma StripMeaning(s: string, drop: char -> bool) returns (front: string, back: string)
    ensures s == front + Strip(s, drop) + back
    ensures (forall i :: 0 <= i < |front| ==> drop(front[i])) && forall i :: 0 <= i < |back| ==> drop(back[i])
    ensures var rest := Strip(s, drop); rest != "" ==> !drop(rest[0]) && !drop(rest[|rest| - 1])
  {
    front := StripLeftMeaning(s, drop);
    back := StripRightMeaning(StripLeft(s, drop), drop);
    assert s == front + (Strip(s, drop) + back);
  }

  lemma {:induction false} StripLeftMeaning(s: string, drop: char -> bool) returns (front: string)
    ensures s == front + StripLeft(s, drop)
    ensures forall i :: 0 <= i < |front| ==> drop(front[i])
    ensures StripLeft(s, drop) != "" ==> !drop(StripLeft(s, drop)[0])
  {
    front := "";
    if s != "" && drop(s[0]) {
      var rest := StripLeftMeaning(s[1..], drop);
      front := [s[0]] + rest;
      assert s == [s[0]] + s[1..];
    }
  }

  lemma {:induction false} StripRightMeaning(s: string, drop: char -> bool) returns (back: string)
    ensures s == StripRight(s, drop) + back
    ensures forall i :: 0 <= i < |back| ==> drop(back[i])
    ensures StripRight(s, drop) != "" ==> !drop(StripRight(s, drop)[|StripRight(s, drop)| - 1])
    ensures StripRight(s, drop) != "" ==> StripRight(s, drop)[0] == s[0]
  {
    back := "";
    if s != "" && drop(s[|s| - 1]) {
      var rest := StripRightMeaning(s[..|s| - 1], drop);
      back := rest + [s[|s| - 1]];
      assert s == s[..|s| - 1] + [s[|s| - 1]];
    }
  }

  /** The key is what stands on the first line that starts with its name and a colon, without spaces and quotes. */
  lemma {:induction false} KeyInLinesMeaning(lines: seq<string>, i: nat)
    requires i < |lines| && StartsWith(lines[i], "EXCHANGE_TOKEN_ENCRYPTION_KEY:")
    requires forall k :: 0 <= k < i ==> !StartsWith(lines[k], "EXCHANGE_TOKEN_ENCRYPTION_KEY:")
    ensures KeyInLines(lines) == Some(Strip(Strip(lines[i][30..], c => IsPySpace(c)), c => c == '"'))
    decreases i
  {
    assert KEY + ":" == "EXCHANGE_TOKEN_ENCRYPTION_KEY:";
    if i > 0 {
      assert lines[1..][i - 1] == lines[i];
      KeyInLinesMeaning(lines[1..], i - 1);
    }
  }

  lemma {:induction false} NoKeyLine(lines: seq<string>)
    requires forall k :: 0 <= k < |lines| ==> !StartsWith(lines[k], "EXCHANGE_TOKEN_ENCRYPTION_KEY:")
    ensures KeyInLines(lines) == None
  {
    assert KEY + ":" == "EXCHANGE_TOKEN_ENCRYPTION_KEY:";
    if lines != [] {
      NoKeyLine(lines[1..]);
    }
  }

  /** Lines with an end each. */
  function Broken(lines: seq<string>, ends: seq<string>): string
    requires |lines| == |ends|
  {
    if lines == [] then "" else lines[0] + (ends[0] + Broken(lines[1..], ends[1..]))
  }

  /** Every end is one break, or a carriage return with its line feed. */
  predicate AreBreaks(lines: seq<string>, ends: seq<string>)
    requires |lines| == |ends|
  {
    && (forall i :: 0 <= i < |ends| ==> ends[i] == "\r\n" || (|ends[i]| == 1 && IsBreak(ends[i][0])))
    && (forall i :: 0 <= i < |ends| - 1 ==> ends[i] == "\r" && lines[i + 1] == "" ==> ends[i + 1][0] != '\n')
  }

  lemma OneBreak(line: string, end: string, rest: string)
    requires OneLine(line)
    requires end == "\r\n" || (|end| == 1 && IsBreak(end[0]))
    requires end == "\r" ==> rest == "" || rest[0] != '\n'
    ensures SplitLines(line + (end + rest)) == [line] + SplitLines(rest)
  {
    hide IsBreak, OneLine, LineRun;
    assert IsBreak('\r') by {
      CarriageReturnBreaks();
    }
    var text := line + (end + rest);
    LineRunOf(line, end + rest);
    assert text[..|line|] == line;
    assert text[|line|] == end[0];
    assert |end + rest| > 1 ==> text[|line| + 1] == (end + rest)[1];
    assert text[|line| + |end|..] == rest;
    assert |end| == 1 ==> end == [end[0]];
  }

  lemma CarriageReturnBreaks()
    ensures IsBreak('\r')
  {
  }

  /** Splitting a text into lines gives back what it was put together from. */
  lemma {:induction false} SplitLinesReadsBack(lines: seq<string>, ends: seq<string>)
    requires |lines| == |ends| && AreBreaks(lines, ends)
    requires forall i :: 0 <= i < |lines| ==> OneLine(lines[i])
    ensures SplitLines(Broken(lines, ends)) == lines
    decreases |lines|
  {
    hide OneLine;
    if lines != [] {
      var rest := Broken(lines[1..], ends[1..]);
      RestOfBroken(lines, ends);
      OneBreak(lines[0], ends[0], rest);
      SplitLinesReadsBack(lines[1..], ends[1..]);
      assert lines == [lines[0]] + lines[1..];
    }
  }

  lemma RestOfBroken(lines: seq<string>, ends: seq<string>)
    requires |lines| == |ends| && AreBreaks(lines, ends) && lines != []
    requires forall i :: 0 <= i < |lines| ==> OneLine(lines[i])
    ensures AreBreaks(lines[1..], ends[1..])
    ensures var rest := Broken(lines[1..], ends[1..]);
            ends[0] == "\r" ==> rest == "" || rest[0] != '\n'
  {
    if |lines| > 1 {
      assert lines[1..][0] == lines[1] && ends[1..][0] == ends[1];
      assert lines[1] != "" ==> lines[1][0] != '\n';
    }
  }
}
