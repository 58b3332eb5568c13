/**
 The rows of an exported transcript: the stored messages in focus, the messages that only exist in
 snapshots, without repeating an id, and all of them in order of time.
 */
module TranscriptRows {
  import opened Common
  import opened Text
  import StableSort

  /** A message inside a snapshot; missing strings are empty. */
  datatype Extra = Extra(id: string, text: string, fromSystem: bool, createdAt: Option<real>,
                         taskId: string, phase: string, action: string, actionName: string)

  /** A stored message, with the messages of the snapshots it carries. */
  datatype Memory = Memory(id: Option<string>, text: string, fromAgent: bool, createdAt: Option<real>,
                           phase: string, action: string, taskId: string,
                           isSummary: bool, chainExtras: seq<Extra>, analysisExtras: seq<Extra>)

  datatype Row = Row(id: Option<string>, text: string, fromSystem: bool, createdAt: Option<real>, index: nat)

  datatype Message = Message(id: Option<string>, text: string, fromSystem: bool, createdAt: Option<real>)

  const CHAIN_BASE: nat := 1_000_000
  const ANALYSIS_BASE: nat := 2_000_000
  const ALL_PHASES: string := "__phase_all__"

  // ----- The focus

  datatype Focus = Everything | OneTask(taskId: string) | OnePhase(phase: string, action: string)

  function FocusOf(key: Option<string>): Focus {
    if key.None? || key.value == "" then Everything
    else if ':' in key.value then
      var parts := Split(key.value, ':');
      OnePhase(parts[0], Join(parts[1..], ":"))
    else OneTask(key.value)
  }

  predicate InFocus(memory: Memory, focus: Focus) {
    match focus
    case Everything => true
    case OneTask(taskId) => memory.taskId == taskId
    case OnePhase(phase, action) =>
      if phase != "" && action != "" && action != ALL_PHASES then memory.phase == phase && memory.action == action
      else phase != "" ==> memory.phase == phase
  }

  function Filtered(memories: seq<Memory>, focus: Focus): seq<Memory> {
    if memories == [] then []
    else (if InFocus(memories[0], focus) then [memories[0]] else []) + Filtered(memories[1..], focus)
  }

  /** Metadata that does not match the focus at all counts as no focus. */
  function Source(memories: seq<Memory>, focus: Focus): seq<Memory> {
    if Filtered(memories, focus) == [] then memories else Filtered(memories, focus)
  }

  predicate ChainExtraInFocus(extra: Extra, focus: Focus) {
    match focus
    case Everything => true
    case OneTask(taskId) => extra.taskId == taskId
    case OnePhase(_, _) => false
  }

  predicate AnalysisExtraInFocus(extra: Extra, focus: Focus) {
    match focus
    case Everything => true
    case OneTask(_) => false
    case OnePhase(phase, action) =>
      && (phase != "" ==> extra.phase == phase)
      && (action != "" && action != ALL_PHASES ==> extra.action == action || extra.actionName == action)
  }

  function ChainExtras(extras: seq<Extra>, focus: Focus): seq<Extra> {
    if extras == [] then []
    else (if ChainExtraInFocus(extras[0], focus) then [extras[0]] else []) + ChainExtras(extras[1..], focus)
  }

  function AnalysisExtras(extras: seq<Extra>, focus: Focus): seq<Extra> {
    if extras == [] then []
    else (if AnalysisExtraInFocus(extras[0], focus) then [extras[0]] else []) + AnalysisExtras(extras[1..], focus)
  }

  /** All snapshot messages of one kind that are in focus, memory by memory. */
  function ChainCandidates(memories: seq<Memory>, focus: Focus): seq<Extra> {
    if memories == [] then []
    else
      (if memories[0].isSummary then ChainExtras(memories[0].chainExtras, focus) else [])
      + ChainCandidates(memories[1..], focus)
  }

  function AnalysisCandidates(memories: seq<Memory>, focus: Focus): seq<Extra> {
    if memories == [] then []
    else AnalysisExtras(memories[0].analysisExtras, focus) + AnalysisCandidates(memories[1..], focus)
  }

  // ----- Rows

  /** Blank messages are dropped but keep their place in the count. */
  function StoredRows(source: seq<Memory>): seq<Row> {
    if source == [] then []
    else
      var n := |source| - 1;
      var memory := source[n];
      StoredRows(source[..n])
      + if Trim(memory.text) != "" then [Row(memory.id, memory.text, memory.fromAgent, memory.createdAt, n)] else []
  }

  function IdsOf(rows: seq<Row>): set<string> {
    set i | 0 <= i < |rows| && rows[i].id.Some? && rows[i].id.value != "" :: rows[i].id.value
  }

  predicate Accepts(extra: Extra, seen: set<string>) {
    !(extra.id != "" && extra.id in seen) && Trim(extra.text) != ""
  }

  function See(extra: Extra, seen: set<string>): set<string> {
    if extra.id != "" then seen + {extra.id} else seen
  }

  function RowOf(extra: Extra, index: nat): Row {
    Row(if extra.id != "" then Some(extra.id) else None, Trim(extra.text), extra.fromSystem, extra.createdAt, index)
  }

  /** The snapshot messages that add something to what has been seen. */
  function Accepted(extras: seq<Extra>, seen: set<string>): seq<Extra> {
    if extras == [] then []
    else if Accepts(extras[0], seen) then [extras[0]] + Accepted(extras[1..], See(extras[0], seen))
    else Accepted(extras[1..], seen)
  }

  function SeenAfter(extras: seq<Extra>, seen: set<string>): set<string> {
    if extras == [] then seen
    else if Accepts(extras[0], seen) then SeenAfter(extras[1..], See(extras[0], seen))
    else SeenAfter(extras[1..], seen)
  }

  function RowsOf(extras: seq<Extra>, base: nat): (rows: seq<Row>)
    ensures |rows| == |extras|
  {
    seq(|extras|, i requires 0 <= i < |extras| => RowOf(extras[i], base + i))
  }

  function Combined(memories: seq<Memory>, focus: Focus): seq<Row> {
    var stored := StoredRows(Source(memories, focus));
    var chain := ChainCandidates(memories, focus);
    var analysis := AnalysisCandidates(memories, focus);
    stored
    + RowsOf(Accepted(chain, IdsOf(stored)), CHAIN_BASE)
    + RowsOf(Accepted(analysis, SeenAfter(chain, IdsOf(stored))), ANALYSIS_BASE)
  }

  /** A missing time is before every time; equal times keep the order of the indices. */
  predicate NotAfter(a: Row, b: Row) {
    if a.createdAt == b.createdAt then a.index <= b.index
    else a.createdAt.None? || (b.createdAt.Some? && a.createdAt.value < b.createdAt.value)
  }

  const BY_TIME: (Row, Row) -> bool := (a, b) => NotAfter(a, b)

  function Messages(rows: seq<Row>): seq<Message> {
    seq(|rows|, i requires 0 <= i < |rows| =>
      Message(rows[i].id, rows[i].text, rows[i].fromSystem, rows[i].createdAt))
  }

  function Transcript(memories: seq<Memory>, focus: Focus): seq<Message> {
    Messages(StableSort.Sort(Combined(memories, focus), BY_TIME))
  }

  // ----- The export, loop by loop

  method MapStored(source: seq<Memory>) returns (rows: seq<Row>)
    ensures rows == StoredRows(source)
  {
    rows := [];
    for index := 0 to |source|
      invariant rows == StoredRows(source[..index])
    {
      assert source[..index + 1][..index] == source[..index];
      var text := if Trim(source[index].text) != "" then source[index].text else "";
      if Trim(text) != "" {
        rows := rows + [Row(source[index].id, text, source[index].fromAgent, source[index].createdAt, index)];
      }
    }
    assert source[..|source|] == source;
  }

  /** The loop over one snapshot's messages; `seenIds` and the row counter outlive it. */
  method AppendExtras(extras: seq<Extra>, seenIds: set<string>, base: nat, synIdx: nat)
    returns (rows: seq<Row>, seen: set<string>, nextIdx: nat)
    ensures rows == RowsOf(Accepted(extras, seenIds), base + synIdx)
    ensures seen == SeenAfter(extras, seenIds)
    ensures nextIdx == synIdx + |rows|
  {
    rows, seen, nextIdx := [], seenIds, synIdx;
    ghost var accepted := [];
    assert extras[0..] == extras;
    for i := 0 to |extras|
      invariant nextIdx == synIdx + |accepted|
      invariant rows == RowsOf(accepted, base + synIdx)
      invariant Accepted(extras, seenIds) == accepted + Accepted(extras[i..], seen)
      invariant SeenAfter(extras, seenIds) == SeenAfter(extras[i..], seen)
    {
      var extra := extras[i];
      assert extras[i..][0] == extra && extras[i..][1..] == extras[i + 1..];
      if extra.id != "" && extra.id in seen { continue; }
      var text := Trim(extra.text);
      if text == "" { continue; }
      rows := rows + [Row(if extra.id != "" then Some(extra.id) else None, text, extra.fromSystem, extra.createdAt,
                          base + nextIdx)];
      AppendAssociates(accepted, [extra], Accepted(extras[i + 1..], See(extra, seen)));
      accepted := accepted + [extra];
      nextIdx := nextIdx + 1;
      if extra.id != "" {
        seen := seen + {extra.id};
      }
    }
    assert extras[|extras|..] == [] && accepted + [] == accepted;
  }

  lemma {:induction false} AcceptedAppend(a: seq<Extra>, b: seq<Extra>, seen: set<string>)
    ensures Accepted(a + b, seen) == Accepted(a, seen) + Accepted(b, SeenAfter(a, seen))
    ensures SeenAfter(a + b, seen) == SeenAfter(b, SeenAfter(a, seen))
  {
    if a == [] {
      assert a + b == b;
    } else {
      assert (a + b)[1..] == a[1..] + b;
      AcceptedAppend(a[1..], b, if Accepts(a[0], seen) then See(a[0], seen) else seen);
    }
  }

  lemma RowsOfAppend(a: seq<Extra>, b: seq<Extra>, base: nat)
    ensures RowsOf(a + b, base) == RowsOf(a, base) + RowsOf(b, base + |a|)
  {
  }

  lemma {:induction false} ChainCandidatesAppend(a: seq<Memory>, memory: Memory, focus: Focus)
    ensures ChainCandidates(a + [memory], focus) ==
            ChainCandidates(a, focus) + if memory.isSummary then ChainExtras(memory.chainExtras, focus) else []
  {
    if a == [] {
      assert a + [memory] == [memory] && [memory][1..] == [];
    } else {
      CutFirstPart(a, [memory], 1);
      ChainCandidatesAppend(a[1..], memory, focus);
      AppendAssociates(if a[0].isSummary then ChainExtras(a[0].chainExtras, focus) else [],
                       ChainCandidates(a[1..], focus),
                       if memory.isSummary then ChainExtras(memory.chainExtras, focus) else []);
    }
  }

  lemma {:induction false} AnalysisCandidatesAppend(a: seq<Memory>, memory: Memory, focus: Focus)
    ensures AnalysisCandidates(a + [memory], focus) ==
            AnalysisCandidates(a, focus) + AnalysisExtras(memory.analysisExtras, focus)
  {
    if a == [] {
      assert a + [memory] == [memory] && [memory][1..] == [];
    } else {
      CutFirstPart(a, [memory], 1);
      AnalysisCandidatesAppend(a[1..], memory, focus);
      AppendAssociates(AnalysisExtras(a[0].analysisExtras, focus), AnalysisCandidates(a[1..], focus),
                       AnalysisExtras(memory.analysisExtras, focus));
    }
  }

  /** Rows and ids after more candidates, from the rows and ids before them. */
  lemma MoreRows(before: seq<Extra>, more: seq<Extra>, seen: set<string>, base: nat)
    ensures RowsOf(Accepted(before + more, seen), base) ==
            RowsOf(Accepted(before, seen), base)
            + RowsOf(Accepted(more, SeenAfter(before, seen)), base + |Accepted(before, seen)|)
    ensures SeenAfter(before + more, seen) == SeenAfter(more, SeenAfter(before, seen))
  {
    AcceptedAppend(before, more, seen);
    RowsOfAppend(Accepted(before, seen), Accepted(more, SeenAfter(before, seen)), base);
  }

  method ChainRows(memories: seq<Memory>, focus: Focus, seenIds: set<string>)
    returns (rows: seq<Row>, seen: set<string>)
    ensures rows == RowsOf(Accepted(ChainCandidates(memories, focus), seenIds), CHAIN_BASE)
    ensures seen == SeenAfter(ChainCandidates(memories, focus), seenIds)
  {
    rows, seen := [], seenIds;
    var synIdx := 0;
    for n := 0 to |memories|
      invariant rows == RowsOf(Accepted(ChainCandidates(memories[..n], focus), seenIds), CHAIN_BASE)
      invariant seen == SeenAfter(ChainCandidates(memories[..n], focus), seenIds)
      invariant synIdx == |rows|
    {
      assert memories[..n + 1] == memories[..n] + [memories[n]];
      ChainCandidatesAppend(memories[..n], memories[n], focus);
      ghost var before := ChainCandidates(memories[..n], focus);
      if memories[n].isSummary {
        var extras := ChainExtras(memories[n].chainExtras, focus);
        MoreRows(before, extras, seenIds, CHAIN_BASE);
        var more;
        more, seen, synIdx := AppendExtras(extras, seen, CHAIN_BASE, synIdx);
        rows := rows + more;
      } else {
        assert before + [] == before;
      }
    }
    assert memories[..|memories|] == memories;
  }

  method AnalysisRows(memories: seq<Memory>, focus: Focus, seenIds: set<string>) returns (rows: seq<Row>)
    ensures rows == RowsOf(Accepted(AnalysisCandidates(memories, focus), seenIds), ANALYSIS_BASE)
  {
    rows := [];
    var seen, compSynIdx := seenIds, 0;
    for n := 0 to |memories|
      invariant rows == RowsOf(Accepted(AnalysisCandidates(memories[..n], focus), seenIds), ANALYSIS_BASE)
      invariant seen == SeenAfter(AnalysisCandidates(memories[..n], focus), seenIds)
      invariant compSynIdx == |rows|
    {
      assert memories[..n + 1] == memories[..n] + [memories[n]];
      AnalysisCandidatesAppend(memories[..n], memories[n], focus);
      var extras := AnalysisExtras(memories[n].analysisExtras, focus);
      MoreRows(AnalysisCandidates(memories[..n], focus), extras, seenIds, ANALYSIS_BASE);
      var more;
      more, seen, compSynIdx := AppendExtras(extras, seen, ANALYSIS_BASE, compSynIdx);
      rows := rows + more;
    }
    assert memories[..|memories|] == memories;
  }

  method GetTranscriptMessages(memories: seq<Memory>, focusKey: Option<string>) returns (messages: seq<Message>)
    ensures messages == Transcript(memories, FocusOf(focusKey))
  {
    var focus := FocusOf(focusKey);
    var sourceMemories := Filtered(memories, focus);
    if |sourceMemories| == 0 {
      sourceMemories := memories;
    }
    var mapped := MapStored(sourceMemories);
    var chain, seenIds := ChainRows(memories, focus, IdsOf(mapped));
    var analysis := AnalysisRows(memories, focus, seenIds);
    messages := Messages(StableSort.Sort(mapped + chain + analysis, BY_TIME));
  }

  // ----- No id twice, nothing lost

  predicate HasId(extras: seq<Extra>, id: string) {
    id != "" && exists i :: 0 <= i < |extras| && extras[i].id == id
  }

  lemma HasIdFirst(extra: Extra, rest: seq<Extra>, id: string)
    ensures HasId([extra] + rest, id) <==> (id != "" && extra.id == id) || HasId(rest, id)
  {
    var all := [extra] + rest;
    assert all[0] == extra;
    if id != "" {
      if i :| 0 <= i < |all| && all[i].id == id {
        assert i > 0 ==> rest[i - 1].id == id;
      }
      if i :| 0 <= i < |rest| && rest[i].id == id {
        assert all[i + 1].id == id;
      }
    }
  }

  /** The ids seen in the end: those seen before, and those of the accepted candidates. */
  lemma {:induction false} SeenMeaning(extras: seq<Extra>, seen: set<string>, id: string)
    ensures id in SeenAfter(extras, seen) <==> id in seen || HasId(Accepted(extras, seen), id)
  {
    if extras != [] {
      var now := if Accepts(extras[0], seen) then See(extras[0], seen) else seen;
      SeenMeaning(extras[1..], now, id);
      HasIdFirst(extras[0], Accepted(extras[1..], now), id);
    }
  }

  /** An accepted candidate has text, and its id repeats neither a seen one nor an earlier accepted one. */
  lemma {:induction false} AcceptedFresh(extras: seq<Extra>, seen: set<string>, j: nat)
    requires j < |Accepted(extras, seen)|
    ensures var accepted := Accepted(extras, seen);
            && accepted[j] in extras && Trim(accepted[j].text) != ""
            && (accepted[j].id != "" ==> accepted[j].id !in seen
                                         && forall i :: 0 <= i < j ==> accepted[i].id != accepted[j].id)
    decreases |extras|
  {
    var taken := Accepts(extras[0], seen);
    var now := if taken then See(extras[0], seen) else seen;
    var accepted, rest := Accepted(extras, seen), Accepted(extras[1..], now);
    if taken && j == 0 {
      assert accepted[0] == extras[0];
    } else {
      var k := if taken then j - 1 else j;
      AcceptedFresh(extras[1..], now, k);
      assert accepted[j] == rest[k];
      forall i | 0 <= i < j && accepted[j].id != "" ensures accepted[i].id != accepted[j].id {
        if taken && i > 0 {
          assert accepted[i] == rest[i - 1];
        }
      }
    }
  }

  /** A candidate with text is accepted, or has an id that is already there. */
  lemma {:induction false} NothingLost(extras: seq<Extra>, seen: set<string>, k: nat)
    requires k < |extras| && Trim(extras[k].text) != ""
    ensures extras[k] in Accepted(extras, seen) || (extras[k].id != "" && extras[k].id in SeenAfter(extras, seen))
    decreases |extras|
  {
    var taken := Accepts(extras[0], seen);
    var now := if taken then See(extras[0], seen) else seen;
    if k == 0 {
      SeenMeaning(extras[1..], now, extras[0].id);
    } else {
      NothingLost(extras[1..], now, k - 1);
    }
  }

  lemma {:induction false} StoredIndices(source: seq<Memory>, i: nat)
    requires i < |StoredRows(source)|
    ensures StoredRows(source)[i].index < |source|
    ensures forall k :: 0 <= k < i ==> StoredRows(source)[k].index < StoredRows(source)[i].index
    decreases |source|
  {
    var n := |source| - 1;
    if i < |StoredRows(source[..n])| {
      StoredIndices(source[..n], i);
    } else {
      forall k | 0 <= k < i ensures StoredRows(source)[k].index < n {
        StoredIndices(source[..n], k);
      }
    }
  }

  /** The two lists of accepted snapshot messages. */
  function AcceptedChain(memories: seq<Memory>, focus: Focus): seq<Extra> {
    Accepted(ChainCandidates(memories, focus), IdsOf(StoredRows(Source(memories, focus))))
  }

  function AcceptedAnalysis(memories: seq<Memory>, focus: Focus): seq<Extra> {
    var stored := IdsOf(StoredRows(Source(memories, focus)));
    Accepted(AnalysisCandidates(memories, focus), SeenAfter(ChainCandidates(memories, focus), stored))
  }

  /**
   Among the accepted snapshot messages of both kinds, no id is repeated, and none is the id of a
   stored row.
   */
  lemma SnapshotIdsNew(memories: seq<Memory>, focus: Focus, j: nat)
    requires j < |AcceptedChain(memories, focus) + AcceptedAnalysis(memories, focus)|
    ensures var extras := AcceptedChain(memories, focus) + AcceptedAnalysis(memories, focus);
            extras[j].id != "" ==>
              && extras[j].id !in IdsOf(StoredRows(Source(memories, focus)))
              && forall i :: 0 <= i < j ==> extras[i].id != extras[j].id
  {
    hide Accepted, SeenAfter, ChainCandidates, AnalysisCandidates, Source, StoredRows, IdsOf;
    var stored := IdsOf(StoredRows(Source(memories, focus)));
    var candidates := ChainCandidates(memories, focus);
    var chain, analysis := AcceptedChain(memories, focus), AcceptedAnalysis(memories, focus);
    if j < |chain| {
      AcceptedFresh(candidates, stored, j);
    } else {
      var id := analysis[j - |chain|].id;
      AcceptedFresh(AnalysisCandidates(memories, focus), SeenAfter(candidates, stored), j - |chain|);
      SeenMeaning(candidates, stored, id);
      forall i | 0 <= i < j && id != "" ensures (chain + analysis)[i].id != id {
        if i >= |chain| {
          assert (chain + analysis)[i] == analysis[i - |chain|];
        }
      }
    }
  }

  // ----- The order of the rows

  predicate FewEnough(memories: seq<Memory>, focus: Focus) {
    && |Source(memories, focus)| <= CHAIN_BASE
    && |AcceptedChain(memories, focus)| <= ANALYSIS_BASE - CHAIN_BASE
  }

  /** With at most a million rows from each source, indices increase along the combined rows. */
  lemma IndicesIncrease(memories: seq<Memory>, focus: Focus, i: nat, j: nat)
    requires FewEnough(memories, focus)
    requires i < j < |Combined(memories, focus)|
    ensures Combined(memories, focus)[i].index < Combined(memories, focus)[j].index
  {
    hide StoredRows, Source, Accepted, SeenAfter, IdsOf, ChainCandidates, AnalysisCandidates;
    var stored := StoredRows(Source(memories, focus));
    if i < |stored| {
      StoredIndices(Source(memories, focus), i);
    }
    if j < |stored| {
      StoredIndices(Source(memories, focus), j);
    }
  }

  lemma ByTimeTotal()
    ensures StableSort.TotalPreorder(BY_TIME)
  {
    forall x, y, z ensures BY_TIME(x, y) && BY_TIME(y, z) ==> BY_TIME(x, z) {
    }
  }

  /** An element that occurs at two places has multiplicity two. */
  lemma TwicePresent<T>(s: seq<T>, i: nat, j: nat)
    requires i < j < |s| && s[i] == s[j]
    ensures multiset(s)[s[i]] >= 2
  {
    assert s == s[..j] + s[j..];
    assert s[..j][i] == s[i] && s[j..][0] == s[j];
    assert s[i] in multiset(s[..j]) && s[j] in multiset(s[j..]);
  }

  lemma {:induction false} OncePresent<T>(s: seq<T>, i: nat)
    requires i < |s|
    requires forall j, k :: 0 <= j < k < |s| ==> s[j] != s[k]
    ensures multiset(s)[s[i]] == 1
    decreases |s|
  {
    assert s == s[..|s| - 1] + [s[|s| - 1]];
    if i < |s| - 1 {
      OncePresent(s[..|s| - 1], i);
    } else {
      assert s[i] !in s[..|s| - 1];
    }
  }

  /**
   The transcript is in order of time, equal times in order of index, with every row there once; it
   is the only such arrangement as long as no source has more than a million rows.
   */
  lemma TranscriptIsTheArrangement(memories: seq<Memory>, focus: Focus, rows: seq<Row>)
    requires FewEnough(memories, focus)
    requires multiset(rows) == multiset(Combined(memories, focus))
    requires StableSort.Sorted(rows, BY_TIME)
    ensures Messages(rows) == Transcript(memories, focus)
  {
    hide Combined, FewEnough, StableSort.Sort;
    var combined := Combined(memories, focus);
    var sorted := StableSort.Sort(combined, BY_TIME);
    ByTimeTotal();
    StableSort.SortIsStable(combined, BY_TIME);
    forall i, j | 0 <= i < j < |sorted|
      ensures BY_TIME(sorted[i], sorted[j]) && !BY_TIME(sorted[j], sorted[i])
    {
      if BY_TIME(sorted[j], sorted[i]) {
        SameIndexSameRow(memories, focus, sorted[i], sorted[j]);
        TwicePresent(sorted, i, j);
        CombinedOnce(memories, focus, sorted[i]);
      }
    }
    StableSort.SortedPermutationUnique(sorted, rows, BY_TIME);
  }

  lemma SameIndexSameRow(memories: seq<Memory>, focus: Focus, x: Row, y: Row)
    requires FewEnough(memories, focus)
    requires x in multiset(Combined(memories, focus)) && y in multiset(Combined(memories, focus))
    requires x.index == y.index
    ensures x == y
  {
    hide Combined, FewEnough;
    var combined := Combined(memories, focus);
    var i :| 0 <= i < |combined| && combined[i] == x;
    var j :| 0 <= j < |combined| && combined[j] == y;
    if i < j {
      IndicesIncrease(memories, focus, i, j);
    } else if j < i {
      IndicesIncrease(memories, focus, j, i);
    }
  }

  lemma CombinedOnce(memories: seq<Memory>, focus: Focus, x: Row)
    requires FewEnough(memories, focus)
    requires x in multiset(Combined(memories, focus))
    ensures multiset(Combined(memories, focus))[x] == 1
  {
    hide Combined, FewEnough;
    var combined := Combined(memories, focus);
    var i :| 0 <= i < |combined| && combined[i] == x;
    forall j, k | 0 <= j < k < |combined| ensures combined[j] != combined[k] {
      IndicesIncrease(memories, focus, j, k);
    }
    OncePresent(combined, i);
  }

  /** Any number of rows: sorted, complete, and rows that compare equal keep the order they came in. */
  lemma TranscriptSorted(memories: seq<Memory>, focus: Focus)
    ensures var rows := StableSort.Sort(Combined(memories, focus), BY_TIME);
            && Transcript(memories, focus) == Messages(rows)
            && StableSort.Sorted(rows, BY_TIME)
            && multiset(rows) == multiset(Combined(memories, focus))
            && forall row ::
                 StableSort.Class(rows, row, BY_TIME) == StableSort.Class(Combined(memories, focus), row, BY_TIME)
  {
    ByTimeTotal();
    StableSort.SortIsStable(Combined(memories, focus), BY_TIME);
  }

  /** A row comes before another one by its time, a missing time first, and among equal times by its index. */
  predicate InTimeOrder(a: Row, b: Row) {
    && (b.createdAt.None? ==> a.createdAt.None?)
    && (a.createdAt.Some? && b.createdAt.Some? ==> a.createdAt.value <= b.createdAt.value)
    && (a.createdAt == b.createdAt ==> a.index <= b.index)
  }

  /** The exported messages are all the rows, in ascending order of time; rows without a time come first. */
  lemma TranscriptAscends(memories: seq<Memory>, focus: Focus) returns (rows: seq<Row>)
    ensures multiset(rows) == multiset(Combined(memories, focus))
    ensures |Transcript(memories, focus)| == |rows|
    ensures forall i :: 0 <= i < |rows| ==>
                          Transcript(memories, focus)[i] ==
                          Message(rows[i].id, rows[i].text, rows[i].fromSystem, rows[i].createdAt)
    ensures forall i, j :: 0 <= i < j < |rows| ==> InTimeOrder(rows[i], rows[j])
  {
    hide Combined;
    rows := StableSort.Sort(Combined(memories, focus), BY_TIME);
    TranscriptSorted(memories, focus);
    forall i, j | 0 <= i < j < |rows| ensures InTimeOrder(rows[i], rows[j]) {
      assert BY_TIME(rows[i], rows[j]);
    }
  }

  // ----- Which rows there are

  /** The stored rows are the messages of the source that have text, each with its place in the source. */
  lemma {:induction false} StoredRowsMeaning(source: seq<Memory>, row: Row)
    ensures row in StoredRows(source) <==>
            && row.index < |source|
            && var memory := source[row.index];
               && (exists i :: 0 <= i < |memory.text| && !IsSpace(memory.text[i]))
               && row.id == memory.id && row.text == memory.text && row.fromSystem == memory.fromAgent
               && row.createdAt == memory.createdAt
    decreases |source|
  {
    hide StoredRows, Trim;
    if source == [] {
      NothingStored();
    } else {
      var n := |source| - 1;
      StoredRowsMeaning(source[..n], row);
      HasText(source[n].text);
      LastStored(source, row);
    }
  }

  lemma NothingStored()
    ensures StoredRows([]) == []
  {
  }

  lemma LastStored(source: seq<Memory>, row: Row)
    requires source != []
    ensures var n := |source| - 1;
            row in StoredRows(source) <==>
            || row in StoredRows(source[..n])
            || (Trim(source[n].text) != ""
                && row == Row(source[n].id, source[n].text, source[n].fromAgent, source[n].createdAt, n))
  {
    hide Trim;
  }

  lemma HasText(text: string)
    ensures Trim(text) != "" <==> exists i :: 0 <= i < |text| && !IsSpace(text[i])
  {
    TrimStartDrops(text);
    TrimEndKeeps(TrimStart(text));
  }

  /** What a snapshot message is exported as. */
  lemma SnapshotRowMeaning(memories: seq<Memory>, focus: Focus, k: nat)
    requires k < |AcceptedChain(memories, focus)| + |AcceptedAnalysis(memories, focus)|
    ensures var chain, analysis := AcceptedChain(memories, focus), AcceptedAnalysis(memories, focus);
            var extra := if k < |chain| then chain[k] else analysis[k - |chain|];
            var stored := |StoredRows(Source(memories, focus))|;
            && |Combined(memories, focus)| == stored + |chain| + |analysis|
            && var row := Combined(memories, focus)[stored + k];
               && row.id == (if extra.id == "" then None else Some(extra.id))
               && row.text == Trim(extra.text) && row.fromSystem == extra.fromSystem
               && row.createdAt == extra.createdAt
               && row.index == if k < |chain| then 1000000 + k else 2000000 + (k - |chain|)
  {
    hide Source, StoredRows, Accepted, SeenAfter, ChainCandidates, AnalysisCandidates, Trim;
  }

  /** A task-chain message is a candidate exactly if a summary carries it and the focus is off or on its task. */
  lemma {:induction false} ChainCandidateIff(memories: seq<Memory>, focus: Focus, extra: Extra)
    ensures extra in ChainCandidates(memories, focus) <==>
            && (focus.Everything? || (focus.OneTask? && extra.taskId == focus.taskId))
            && exists m :: 0 <= m < |memories| && memories[m].isSummary && extra in memories[m].chainExtras
    decreases |memories|
  {
    if memories != [] {
      ChainCandidateIff(memories[1..], focus, extra);
      ChainExtraIff(memories[0].chainExtras, focus, extra);
      if m :| 0 <= m < |memories| && memories[m].isSummary && extra in memories[m].chainExtras {
        assert m > 0 ==> memories[1..][m - 1] == memories[m];
      }
      if m :| 0 <= m < |memories[1..]| && memories[1..][m].isSummary && extra in memories[1..][m].chainExtras {
        assert memories[m + 1] == memories[1..][m];
      }
    }
  }

  lemma {:induction false} ChainExtraIff(extras: seq<Extra>, focus: Focus, extra: Extra)
    ensures extra in ChainExtras(extras, focus) <==>
            extra in extras && (focus.Everything? || (focus.OneTask? && extra.taskId == focus.taskId))
    decreases |extras|
  {
    if extras != [] {
      ChainExtraIff(extras[1..], focus, extra);
      assert extras == [extras[0]] + extras[1..];
    }
  }

  /** What a phase focus asks of an analysis message. */
  predicate OfPhaseFocus(extra: Extra, phase: string, action: string) {
    && (phase == "" || extra.phase == phase)
    && (action == "" || action == "__phase_all__" || extra.action == action || extra.actionName == action)
  }

  /** An analysis message is a candidate exactly if a memory carries it and the focus is off or a phase it matches. */
  lemma {:induction false} AnalysisCandidateIff(memories: seq<Memory>, focus: Focus, extra: Extra)
    ensures extra in AnalysisCandidates(memories, focus) <==>
            && (focus.Everything? || (focus.OnePhase? && OfPhaseFocus(extra, focus.phase, focus.action)))
            && exists m :: 0 <= m < |memories| && extra in memories[m].analysisExtras
    decreases |memories|
  {
    if memories != [] {
      AnalysisCandidateIff(memories[1..], focus, extra);
      AnalysisExtraIff(memories[0].analysisExtras, focus, extra);
      if m :| 0 <= m < |memories| && extra in memories[m].analysisExtras {
        assert m > 0 ==> memories[1..][m - 1] == memories[m];
      }
      if m :| 0 <= m < |memories[1..]| && extra in memories[1..][m].analysisExtras {
        assert memories[m + 1] == memories[1..][m];
      }
    }
  }

  lemma {:induction false} AnalysisExtraIff(extras: seq<Extra>, focus: Focus, extra: Extra)
    ensures extra in AnalysisExtras(extras, focus) <==>
            && extra in extras
            && (focus.Everything? || (focus.OnePhase? && OfPhaseFocus(extra, focus.phase, focus.action)))
    decreases |extras|
  {
    if extras != [] {
      AnalysisExtraIff(extras[1..], focus, extra);
      assert extras == [extras[0]] + extras[1..];
    }
  }

  /** A key without a colon names a task, one with a colon a phase before the first one and an action after it. */
  lemma FocusMeaning(key: string)
    ensures FocusOf(None) == FocusOf(Some("")) == Everything
    ensures key != "" && ':' !in key ==> FocusOf(Some(key)) == OneTask(key)
    ensures ':' in key ==>
              && FocusOf(Some(key)).OnePhase?
              && key == FocusOf(Some(key)).phase + ":" + FocusOf(Some(key)).action
              && ':' !in FocusOf(Some(key)).phase
  {
    if ':' in key {
      JoinSplit(key, ':');
      SplitPieces(key, ':');
      JoinOne(Split(key, ':'));
    }
  }

  /** What a stored message must be to be in focus; an empty phase asks nothing. */
  predicate Matches(memory: Memory, focus: Focus) {
    && (focus.OneTask? ==> memory.taskId == focus.taskId)
    && (focus.OnePhase? && focus.phase != "" ==>
          && memory.phase == focus.phase
          && (focus.action == "" || focus.action == "__phase_all__" || memory.action == focus.action))
  }

  lemma JoinOne(parts: seq<string>)
    ensures |parts| == 1 ==> Join(parts, ":") == parts[0]
  {
  }

  /** The messages in focus are those that match, each as often as it is stored. */
  lemma {:induction false} FilteredMeaning(memories: seq<Memory>, focus: Focus, memory: Memory)
    ensures multiset(Filtered(memories, focus))[memory] ==
            if Matches(memory, focus) then multiset(memories)[memory] else 0
    decreases |memories|
  {
    if memories != [] {
      FilteredMeaning(memories[1..], focus, memory);
      assert memories == [memories[0]] + memories[1..];
      assert InFocus(memories[0], focus) <==> Matches(memories[0], focus);
    }
  }

  /** They keep their order. */
  lemma {:induction false} FilteredAppend(a: seq<Memory>, b: seq<Memory>, focus: Focus)
    ensures Filtered(a + b, focus) == Filtered(a, focus) + Filtered(b, focus)
    decreases |a|
  {
    hide InFocus;
    if a == [] {
      assert a + b == b;
    } else {
      CutFirstPart(a, b, 1);
      FilteredAppend(a[1..], b, focus);
      AppendAssociates(if InFocus(a[0], focus) then [a[0]] else [], Filtered(a[1..], focus), Filtered(b, focus));
    }
  }

  /** The stored rows come from the messages in focus, or from all messages if none is in focus. */
  lemma SourceMeaning(memories: seq<Memory>, focus: Focus)
    ensures Source(memories, focus) ==
            if exists m :: m in memories && Matches(m, focus) then Filtered(memories, focus) else memories
  {
    if m :| m in memories && Matches(m, focus) {
      FilteredMeaning(memories, focus, m);
      assert m in multiset(Filtered(memories, focus));
    }
    if Filtered(memories, focus) != [] {
      var m := Filtered(memories, focus)[0];
      FilteredMeaning(memories, focus, m);
      assert m in multiset(Filtered(memories, focus));
      assert m in memories && Matches(m, focus);
    }
  }

  /** The ids a snapshot message must not repeat: those of the stored rows that have one. */
  lemma IdsMeaning(rows: seq<Row>, id: string)
    ensures id in IdsOf(rows) <==> id != "" && exists row :: row in rows && row.id == Some(id)
  {
    if row :| row in rows && row.id == Some(id) {
      var i :| 0 <= i < |rows| && rows[i] == row;
    }
  }
}
