/**
 The table of contents of a comprehensive analysis: actions grouped by phase, the known phases in
 their fixed order and the others as they first appear. A map here keeps its insertion order.
 */
module PhaseGroups {
  import opened Common
  import StableSort

  datatype Action = Action(phase: string, name: string)

  type Groups = seq<(string, seq<Action>)>

  const PHASE_ORDER: seq<string> := ["data_gathering", "analysis", "prediction", "writing_report"]

  /** `action.phase || 'other'` */
  function PhaseOf(action: Action): string {
    if action.phase == "" then "other" else action.phase
  }

  predicate Has(groups: Groups, phase: string) {
    Position(groups, phase) < |groups|
  }

  function OfPhase(actions: seq<Action>, phase: string): seq<Action> {
    if actions == [] then []
    else
      var n := |actions| - 1;
      OfPhase(actions[..n], phase) + if PhaseOf(actions[n]) == phase then [actions[n]] else []
  }

  /** The phases that occur, each once, in order of first appearance. */
  function Appearing(actions: seq<Action>): seq<string> {
    if actions == [] then []
    else
      var n := |actions| - 1;
      var before := Appearing(actions[..n]);
      if PhaseOf(actions[n]) in before then before else before + [PhaseOf(actions[n])]
  }

  function Keys(groups: Groups): seq<string> {
    seq(|groups|, i requires 0 <= i < |groups| => groups[i].0)
  }

  /** Every group holds the actions of its phase, in order. */
  ghost predicate Collects(groups: Groups, actions: seq<Action>) {
    forall i :: 0 <= i < |groups| ==> groups[i].1 == OfPhase(actions, groups[i].0)
  }

  // ----- The grouping, loop by loop

  method CollectPhases(actions: seq<Action>) returns (phases: Groups)
    ensures Keys(phases) == Appearing(actions) && Collects(phases, actions)
  {
    hide PhaseOf;
    phases := [];
    for n := 0 to |actions|
      invariant Keys(phases) == Appearing(actions[..n]) && Collects(phases, actions[..n])
    {
      var phase := PhaseOf(actions[n]);
      ghost var before := phases;
      if !Has(phases, phase) {
        FindAppended(phases, phase);
        phases := phases + [(phase, [])];
      }
      var k := Position(phases, phase);
      phases := phases[k := (phase, phases[k].1 + [actions[n]])];
      ghost var group := (phase, (if k < |before| then before[k].1 else []) + [actions[n]]);
      assert phases == Place(before, k, group);
      OneMore(actions, n, before, k);
    }
    assert actions[..|actions|] == actions;
  }

  lemma {:induction false} FindAppended(groups: Groups, phase: string)
    requires !Has(groups, phase)
    ensures Position(groups + [(phase, [])], phase) == |groups|
  {
    if groups != [] {
      assert (groups + [(phase, [])])[1..] == groups[1..] + [(phase, [])];
      FindAppended(groups[1..], phase);
    }
  }

  lemma {:induction false} AppearingDistinct(actions: seq<Action>)
    ensures forall i, j :: 0 <= i < j < |Appearing(actions)| ==> Appearing(actions)[i] != Appearing(actions)[j]
    ensures forall i :: 0 <= i < |actions| ==> PhaseOf(actions[i]) in Appearing(actions)
    decreases |actions|
  {
    if actions != [] {
      AppearingDistinct(actions[..|actions| - 1]);
    }
  }

  /** A phase that has not appeared has no actions. */
  lemma {:induction false} NewPhase(actions: seq<Action>, phase: string)
    ensures phase !in Appearing(actions) ==> OfPhase(actions, phase) == []
    decreases |actions|
  {
    if actions != [] {
      NewPhase(actions[..|actions| - 1], phase);
    }
  }

  /** Setting entry `k`, or a new one behind the last. */
  function Place(groups: Groups, k: nat, group: (string, seq<Action>)): Groups
    requires k <= |groups|
  {
    if k < |groups| then groups[k := group] else groups + [group]
  }

  lemma OneMore(actions: seq<Action>, n: nat, before: Groups, k: nat)
    requires n < |actions|
    requires Keys(before) == Appearing(actions[..n]) && Collects(before, actions[..n])
    requires k == (if Has(before, PhaseOf(actions[n])) then Position(before, PhaseOf(actions[n])) else |before|)
    ensures var group := (PhaseOf(actions[n]), (if k < |before| then before[k].1 else []) + [actions[n]]);
            && Keys(Place(before, k, group)) == Appearing(actions[..n + 1])
            && Collects(Place(before, k, group), actions[..n + 1])
  {
    var phase := PhaseOf(actions[n]);
    var group := (phase, (if k < |before| then before[k].1 else []) + [actions[n]]);
    AppearingStep(actions, n);
    KeyAt(before, phase);
    KeysAfter(before, k, group);
    hide Has, Position, Appearing;
    CollectsAfter(actions, n, before, k, group);
  }

  lemma CollectsAfter(actions: seq<Action>, n: nat, before: Groups, k: nat, group: (string, seq<Action>))
    requires n < |actions| && k <= |before|
    requires Keys(before) == Appearing(actions[..n]) && Collects(before, actions[..n])
    requires k < |before| <==> PhaseOf(actions[n]) in Keys(before)
    requires k < |before| ==> Keys(before)[k] == PhaseOf(actions[n])
    requires group == (PhaseOf(actions[n]), (if k < |before| then before[k].1 else []) + [actions[n]])
    ensures Collects(Place(before, k, group), actions[..n + 1])
  {
    hide PhaseOf, Appearing, OfPhase;
    var after := Place(before, k, group);
    AppearingDistinct(actions[..n]);
    forall i | 0 <= i < |after| ensures after[i].1 == OfPhase(actions[..n + 1], after[i].0) {
      OfPhaseStep(actions, n, after[i].0);
      if i < |before| {
        assert before[i].1 == OfPhase(actions[..n], before[i].0);
        assert Keys(before)[i] == before[i].0;
      } else {
        NewPhase(actions[..n], group.0);
      }
    }
  }

  lemma KeysAfter(groups: Groups, k: nat, group: (string, seq<Action>))
    requires k <= |groups| && (k < |groups| ==> Keys(groups)[k] == group.0)
    ensures Keys(Place(groups, k, group)) == if k < |groups| then Keys(groups) else Keys(groups) + [group.0]
  {
  }

  lemma AppearingStep(actions: seq<Action>, n: nat)
    requires n < |actions|
    ensures var before, phase := Appearing(actions[..n]), PhaseOf(actions[n]);
            Appearing(actions[..n + 1]) == if phase in before then before else before + [phase]
  {
    assert actions[..n + 1][..n] == actions[..n];
  }

  lemma OfPhaseStep(actions: seq<Action>, n: nat, phase: string)
    requires n < |actions|
    ensures OfPhase(actions[..n + 1], phase) ==
            if PhaseOf(actions[n]) == phase then OfPhase(actions[..n], phase) + [actions[n]]
            else OfPhase(actions[..n], phase)
  {
    assert actions[..n + 1][..n] == actions[..n];
  }

  lemma KeyAt(groups: Groups, phase: string)
    ensures Has(groups, phase) <==> phase in Keys(groups)
    ensures Has(groups, phase) ==> Keys(groups)[Position(groups, phase)] == phase
  {
    assert forall i :: 0 <= i < |groups| ==> Keys(groups)[i] == groups[i].0;
    if phase in Keys(groups) {
      var i :| 0 <= i < |groups| && Keys(groups)[i] == phase;
      FindFirst(groups, phase, i);
    }
  }

  /** The fixed order first, then the rest as they appeared. */
  method SortPhases(phases: Groups) returns (sorted: Groups)
    requires forall i, j :: 0 <= i < j < |phases| ==> phases[i].0 != phases[j].0
    ensures sorted == Known(phases, PHASE_ORDER) + Unknown(phases)
  {
    sorted := [];
    for i := 0 to |PHASE_ORDER|
      invariant sorted == Known(phases, PHASE_ORDER[..i])
    {
      assert PHASE_ORDER[..i + 1][..i] == PHASE_ORDER[..i];
      if Has(phases, PHASE_ORDER[i]) {
        sorted := sorted + [phases[Position(phases, PHASE_ORDER[i])]];
      }
    }
    assert PHASE_ORDER[..|PHASE_ORDER|] == PHASE_ORDER;
    for n := 0 to |phases|
      invariant sorted == Known(phases, PHASE_ORDER) + Unknown(phases[..n])
    {
      assert phases[..n + 1][..n] == phases[..n];
      PlacedIffKnown(phases, n, sorted);
      if !Has(sorted, phases[n].0) {
        sorted := sorted + [phases[n]];
      }
    }
    assert phases[..|phases|] == phases;
  }

  /** The groups of the phases in `order` that occur. */
  function Known(phases: Groups, order: seq<string>): Groups {
    if order == [] then []
    else
      var n := |order| - 1;
      Known(phases, order[..n]) + if Has(phases, order[n]) then [phases[Position(phases, order[n])]] else []
  }

  function Unknown(phases: Groups): Groups {
    if phases == [] then []
    else
      var n := |phases| - 1;
      Unknown(phases[..n]) + if phases[n].0 in PHASE_ORDER then [] else [phases[n]]
  }

  lemma {:induction false} FindFirst(groups: Groups, phase: string, k: nat)
    requires k < |groups| && groups[k].0 == phase
    ensures Has(groups, phase) && Position(groups, phase) <= k
  {
    if k > 0 && groups[0].0 != phase {
      FindFirst(groups[1..], phase, k - 1);
    }
  }

  lemma {:induction false} KnownKeys(phases: Groups, order: seq<string>)
    ensures forall g :: g in Known(phases, order) ==> g in phases && g.0 in order
    ensures forall i :: 0 <= i < |order| && Has(phases, order[i]) ==>
                          phases[Position(phases, order[i])] in Known(phases, order)
    decreases |order|
  {
    if order != [] {
      KnownKeys(phases, order[..|order| - 1]);
    }
  }

  lemma {:induction false} UnknownKeys(phases: Groups)
    ensures forall g :: g in Unknown(phases) <==> g in phases && g.0 !in PHASE_ORDER
    decreases |phases|
  {
    if phases != [] {
      UnknownKeys(phases[..|phases| - 1]);
      assert phases == phases[..|phases| - 1] + [phases[|phases| - 1]];
    }
  }

  lemma {:induction false} PlacedIffKnown(phases: Groups, n: nat, sorted: Groups)
    requires n < |phases|
    requires forall i, j :: 0 <= i < j < |phases| ==> phases[i].0 != phases[j].0
    requires sorted == Known(phases, PHASE_ORDER) + Unknown(phases[..n])
    ensures Has(sorted, phases[n].0) <==> phases[n].0 in PHASE_ORDER
  {
    var phase := phases[n].0;
    KnownKeys(phases, PHASE_ORDER);
    UnknownKeys(phases[..n]);
    FindFirst(phases, phase, n);
    if phase in PHASE_ORDER {
      var i :| 0 <= i < |PHASE_ORDER| && PHASE_ORDER[i] == phase;
      var group := phases[Position(phases, phase)];
      assert group in sorted;
      var k :| 0 <= k < |sorted| && sorted[k] == group;
      FindFirst(sorted, phase, k);
    } else {
      forall k | 0 <= k < |sorted| ensures sorted[k].0 != phase {
        assert sorted[k] in sorted;
        assert sorted[k] in Known(phases, PHASE_ORDER) || sorted[k] in Unknown(phases[..n]);
      }
    }
  }

  method GroupByPhase(actions: seq<Action>) returns (groups: Groups)
    ensures groups == Grouped(actions)
  {
    var phases := CollectPhases(actions);
    AppearingDistinct(actions);
    assert forall i :: 0 <= i < |phases| ==> phases[i].0 == Keys(phases)[i];
    groups := SortPhases(phases);
    SameGroups(phases, actions);
  }

  /** The groups in order of first appearance. */
  function Phases(actions: seq<Action>): Groups {
    var keys := Appearing(actions);
    seq(|keys|, i requires 0 <= i < |keys| => (keys[i], OfPhase(actions, keys[i])))
  }

  function Grouped(actions: seq<Action>): Groups {
    Known(Phases(actions), PHASE_ORDER) + Unknown(Phases(actions))
  }

  lemma SameGroups(phases: Groups, actions: seq<Action>)
    requires Keys(phases) == Appearing(actions) && Collects(phases, actions)
    ensures phases == Phases(actions)
  {
    assert |phases| == |Keys(phases)|;
    forall i | 0 <= i < |phases| ensures phases[i] == Phases(actions)[i] {
      assert phases[i].0 == Keys(phases)[i];
    }
  }

  // ----- Grouping is a stable sort

  function IndexOf(keys: seq<string>, key: string): (k: nat)
    ensures k <= |keys|
    ensures forall i :: 0 <= i < k ==> keys[i] != key
    ensures k < |keys| ==> keys[k] == key
  {
    if keys != [] && keys[0] != key then 1 + IndexOf(keys[1..], key) else 0
  }

  /** A known phase ranks by the fixed order, any other after those by its first appearance. */
  function Rank(actions: seq<Action>, phase: string): nat {
    if phase in PHASE_ORDER then IndexOf(PHASE_ORDER, phase) else |PHASE_ORDER| + IndexOf(Appearing(actions), phase)
  }

  function ByRank(actions: seq<Action>): (Action, Action) -> bool {
    (a, b) => Rank(actions, PhaseOf(a)) <= Rank(actions, PhaseOf(b))
  }

  function Concat(groups: Groups): seq<Action> {
    if groups == [] then [] else groups[0].1 + Concat(groups[1..])
  }

  lemma OrderIndex(i: nat)
    requires i < |PHASE_ORDER|
    ensures IndexOf(PHASE_ORDER, PHASE_ORDER[i]) == i
  {
    assert PHASE_ORDER[0][0] == 'd' && PHASE_ORDER[1][0] == 'a' && PHASE_ORDER[2][0] == 'p' && PHASE_ORDER[3][0] == 'w';
    var k := IndexOf(PHASE_ORDER, PHASE_ORDER[i]);
    assert k <= i;
    assert PHASE_ORDER[k][0] == PHASE_ORDER[i][0];
  }

  lemma AppearingIndex(actions: seq<Action>, i: nat)
    requires i < |Appearing(actions)|
    ensures IndexOf(Appearing(actions), Appearing(actions)[i]) == i
  {
    AppearingDistinct(actions);
  }

  /** Among the phases that appear, the rank tells them apart. */
  lemma RankInjective(actions: seq<Action>, p: string, q: string)
    requires p in Appearing(actions) && Rank(actions, p) == Rank(actions, q)
    ensures p == q
  {
    if p in PHASE_ORDER {
      var i :| 0 <= i < |PHASE_ORDER| && PHASE_ORDER[i] == p;
      OrderIndex(i);
    } else {
      var i :| 0 <= i < |Appearing(actions)| && Appearing(actions)[i] == p;
      AppearingIndex(actions, i);
    }
    if q in PHASE_ORDER {
      var i :| 0 <= i < |PHASE_ORDER| && PHASE_ORDER[i] == q;
      OrderIndex(i);
    }
  }

  ghost predicate Ascending(groups: Groups, actions: seq<Action>) {
    forall i, j :: 0 <= i < j < |groups| ==> Rank(actions, groups[i].0) < Rank(actions, groups[j].0)
  }

  lemma {:induction false} KnownAscending(actions: seq<Action>, n: nat)
    requires n <= |PHASE_ORDER|
    ensures var known := Known(Phases(actions), PHASE_ORDER[..n]);
            Ascending(known, actions) && forall i :: 0 <= i < |known| ==> Rank(actions, known[i].0) < n
  {
    if n > 0 {
      assert PHASE_ORDER[..n][..n - 1] == PHASE_ORDER[..n - 1];
      KnownAscending(actions, n - 1);
      OrderIndex(n - 1);
    }
  }

  lemma {:induction false} UnknownAscending(actions: seq<Action>, n: nat)
    requires n <= |Phases(actions)|
    ensures var unknown := Unknown(Phases(actions)[..n]);
            && Ascending(unknown, actions)
            && forall i :: 0 <= i < |unknown| ==> |PHASE_ORDER| <= Rank(actions, unknown[i].0) < |PHASE_ORDER| + n
  {
    if n > 0 {
      assert Phases(actions)[..n][..n - 1] == Phases(actions)[..n - 1];
      UnknownAscending(actions, n - 1);
      AppearingIndex(actions, n - 1);
    }
  }

  /** The groups: every phase that appears once, with its actions, in ascending rank. */
  lemma GroupedMeaning(actions: seq<Action>)
    ensures Ascending(Grouped(actions), actions)
    ensures Collects(Grouped(actions), actions)
    ensures forall i :: 0 <= i < |Grouped(actions)| ==> Grouped(actions)[i].0 in Appearing(actions)
    ensures forall phase :: phase in Appearing(actions) ==> HasKey(Grouped(actions), phase)
  {
    var phases := Phases(actions);
    var known, unknown, groups := Known(phases, PHASE_ORDER), Unknown(phases), Grouped(actions);
    assert PHASE_ORDER[..|PHASE_ORDER|] == PHASE_ORDER && phases[..|phases|] == phases;
    KnownAscending(actions, |PHASE_ORDER|);
    UnknownAscending(actions, |phases|);
    KnownKeys(phases, PHASE_ORDER);
    UnknownKeys(phases);
    forall i | 0 <= i < |groups| ensures groups[i] in phases {
      assert groups[i] in known || groups[i] in unknown;
    }
    forall phase | phase in Appearing(actions) ensures HasKey(groups, phase) {
      var k :| 0 <= k < |Appearing(actions)| && Appearing(actions)[k] == phase;
      FindFirst(phases, phase, k);
      var group := if phase in PHASE_ORDER then phases[Position(phases, phase)] else phases[k];
      assert group in known || group in unknown;
      assert group in groups && group.0 == phase;
    }
  }

  lemma {:induction false} OfPhaseMembers(actions: seq<Action>, phase: string)
    ensures forall a :: a in OfPhase(actions, phase) <==> a in actions && PhaseOf(a) == phase
    decreases |actions|
  {
    if actions != [] {
      OfPhaseMembers(actions[..|actions| - 1], phase);
      assert actions == actions[..|actions| - 1] + [actions[|actions| - 1]];
    }
  }

  lemma SameRankSamePhase(all: seq<Action>, a: Action, y: Action)
    requires PhaseOf(a) in Appearing(all)
    ensures ByRank(all)(a, y) && ByRank(all)(y, a) <==> PhaseOf(a) == PhaseOf(y)
  {
    if ByRank(all)(a, y) && ByRank(all)(y, a) {
      RankInjective(all, PhaseOf(a), PhaseOf(y));
    }
  }

  /** What ranks with `y` are the actions of its phase. */
  lemma {:induction false} ClassOfActions(all: seq<Action>, actions: seq<Action>, y: Action)
    requires forall a :: a in actions ==> PhaseOf(a) in Appearing(all)
    ensures StableSort.Class(actions, y, ByRank(all)) == OfPhase(actions, PhaseOf(y))
    decreases |actions|
  {
    if actions != [] {
      var front, last := actions[..|actions| - 1], actions[|actions| - 1];
      assert actions == front + [last];
      ClassOfActions(all, front, y);
      SameRankSamePhase(all, last, y);
      StableSort.ClassLast(front, last, y, ByRank(all));
    }
  }

  lemma {:induction false} OfPhaseOfPhase(actions: seq<Action>, p: string, q: string)
    ensures OfPhase(OfPhase(actions, p), q) == if p == q then OfPhase(actions, p) else []
    decreases |actions|
  {
    if actions != [] {
      var front, last := actions[..|actions| - 1], actions[|actions| - 1];
      OfPhaseOfPhase(front, p, q);
      var before := OfPhase(front, p);
      if PhaseOf(last) == p {
        assert (before + [last])[..|before|] == before;
      } else {
        assert before + [] == before;
      }
    }
  }

  lemma ClassOfGroup(actions: seq<Action>, phase: string, y: Action)
    ensures StableSort.Class(OfPhase(actions, phase), y, ByRank(actions)) ==
            if phase == PhaseOf(y) then OfPhase(actions, phase) else []
  {
    var group := OfPhase(actions, phase);
    OfPhaseMembers(actions, phase);
    AppearingDistinct(actions);
    forall a | a in group ensures PhaseOf(a) in Appearing(actions) {
      var i :| 0 <= i < |actions| && actions[i] == a;
    }
    ClassOfActions(actions, group, y);
    OfPhaseOfPhase(actions, phase, PhaseOf(y));
  }

  predicate HasKey(groups: Groups, phase: string) {
    exists i :: 0 <= i < |groups| && groups[i].0 == phase
  }

  lemma HasKeyFirst(groups: Groups, phase: string)
    requires groups != []
    ensures HasKey(groups, phase) <==> groups[0].0 == phase || HasKey(groups[1..], phase)
  {
    if i :| 0 <= i < |groups| && groups[i].0 == phase {
      assert i > 0 ==> groups[1..][i - 1].0 == phase;
    }
    if i :| 0 <= i < |groups[1..]| && groups[1..][i].0 == phase {
      assert groups[i + 1].0 == phase;
    }
  }

  lemma RestAscends(groups: Groups, actions: seq<Action>)
    requires groups != [] && Ascending(groups, actions)
    ensures Ascending(groups[1..], actions) && !HasKey(groups[1..], groups[0].0)
    ensures forall i :: 0 <= i < |groups[1..]| ==> Rank(actions, groups[0].0) < Rank(actions, groups[1..][i].0)
  {
    hide Rank;
    assert forall i :: 0 <= i < |groups[1..]| ==> groups[1..][i] == groups[i + 1];
  }

  lemma {:induction false} ClassOfGroups(actions: seq<Action>, groups: Groups, y: Action)
    requires Collects(groups, actions) && Ascending(groups, actions)
    ensures StableSort.Class(Concat(groups), y, ByRank(actions)) ==
            if HasKey(groups, PhaseOf(y)) then OfPhase(actions, PhaseOf(y)) else []
  {
    if groups != [] {
      var phase, rest := groups[0].0, groups[1..];
      assert Collects(rest, actions) && groups[0].1 == OfPhase(actions, phase);
      RestAscends(groups, actions);
      ClassOfGroups(actions, rest, y);
      ClassOfGroup(actions, phase, y);
      HasKeyFirst(groups, PhaseOf(y));
      StableSort.ClassAppend(groups[0].1, Concat(rest), y, ByRank(actions));
      var own, later := OfPhase(actions, PhaseOf(y)), StableSort.Class(Concat(rest), y, ByRank(actions));
      assert own + [] == own && [] + later == later;
    } else {
      assert !HasKey(groups, PhaseOf(y));
    }
  }

  lemma {:induction false} ConcatMembers(actions: seq<Action>, groups: Groups, a: Action)
    requires Collects(groups, actions) && a in Concat(groups)
    ensures HasKey(groups, PhaseOf(a))
  {
    var phase, rest := groups[0].0, groups[1..];
    assert groups[0].1 == OfPhase(actions, phase);
    assert Collects(rest, actions);
    HasKeyFirst(groups, PhaseOf(a));
    OfPhaseMembers(actions, phase);
    if a !in groups[0].1 {
      ConcatMembers(actions, rest, a);
    }
  }

  lemma {:induction false} ConcatSorted(actions: seq<Action>, groups: Groups)
    requires Collects(groups, actions) && Ascending(groups, actions)
    ensures StableSort.Sorted(Concat(groups), ByRank(actions))
  {
    if groups != [] {
      hide Rank, PhaseOf, OfPhase, Ascending;
      var phase, group, rest := groups[0].0, groups[0].1, groups[1..];
      RestAscends(groups, actions);
      assert group == OfPhase(actions, phase) && Collects(rest, actions);
      ConcatSorted(actions, rest);
      OfPhaseMembers(actions, phase);
      var later := Concat(rest);
      forall a | a in later ensures Rank(actions, phase) <= Rank(actions, PhaseOf(a)) {
        ConcatMembers(actions, rest, a);
        var k :| 0 <= k < |rest| && rest[k].0 == PhaseOf(a);
      }
      forall a | a in group ensures PhaseOf(a) == phase {
      }
      SortedHalves(group, later, ByRank(actions));
    }
  }

  lemma SortedHalves(a: seq<Action>, b: seq<Action>, le: (Action, Action) -> bool)
    requires StableSort.Sorted(b, le)
    requires forall x, y :: x in a && (y in a || y in b) ==> le(x, y)
    ensures StableSort.Sorted(a + b, le)
  {
    var all := a + b;
    forall i, j | 0 <= i < j < |all| ensures le(all[i], all[j]) {
      if i < |a| {
        assert all[i] in a && (all[j] in a || all[j] in b);
      } else {
        assert all[i] == b[i - |a|] && all[j] == b[j - |a|];
      }
    }
  }

  /** Put end to end, the groups are the stable sort of the actions by the rank of their phase. */
  lemma GroupingIsStableSort(actions: seq<Action>)
    ensures Concat(Grouped(actions)) == StableSort.Sort(actions, ByRank(actions))
  {
    var groups, le := Grouped(actions), ByRank(actions);
    GroupedMeaning(actions);
    ConcatSorted(actions, groups);
    AppearingDistinct(actions);
    forall a | a in actions ensures PhaseOf(a) in Appearing(actions) {
      var i :| 0 <= i < |actions| && actions[i] == a;
    }
    forall y ensures StableSort.Class(Concat(groups), y, le) == StableSort.Class(actions, y, le) {
      ClassOfGroups(actions, groups, y);
      ClassOfActions(actions, actions, y);
      NewPhase(actions, PhaseOf(y));
      if PhaseOf(y) in Appearing(actions) {
        assert HasKey(groups, PhaseOf(y));
      }
    }
    StableSort.StableSortUnique(Concat(groups), actions, le);
  }

  // ----- The order of the groups

  /** The place of a phase in the fixed order; all others come after. */
  function FixedPlace(phase: string): nat {
    if phase == "data_gathering" then 0
    else if phase == "analysis" then 1
    else if phase == "prediction" then 2
    else if phase == "writing_report" then 3
    else 4
  }

  /** An action of phase `p`, with no action of phase `q` up to it; no phase reads as "other". */
  predicate ComesFirst(actions: seq<Action>, p: string, q: string, a: nat) {
    && a < |actions|
    && (actions[a].phase == p || (actions[a].phase == "" && p == "other"))
    && forall b :: 0 <= b <= a ==> actions[b].phase != q && (actions[b].phase == "" ==> q != "other")
  }

  lemma {:induction false} AppearsBefore(actions: seq<Action>, i: nat, j: nat)
    requires i < j < |Appearing(actions)|
    ensures exists a: nat :: ComesFirst(actions, Appearing(actions)[i], Appearing(actions)[j], a)
    decreases |actions|
  {
    var n := |actions| - 1;
    var front, before := actions[..n], Appearing(actions[..n]);
    AppearingDistinct(front);
    if j < |before| {
      AppearsBefore(front, i, j);
      var a: nat :| ComesFirst(front, before[i], before[j], a);
      assert forall b :: 0 <= b <= a ==> front[b] == actions[b];
      assert ComesFirst(actions, Appearing(actions)[i], Appearing(actions)[j], a);
    } else {
      var a := FirstOf(front, before[i]);
      assert forall b :: 0 <= b <= a ==> front[b] == actions[b] && PhaseOf(front[b]) in before;
      assert ComesFirst(actions, Appearing(actions)[i], Appearing(actions)[j], a);
    }
  }

  lemma {:induction false} FirstOf(actions: seq<Action>, phase: string) returns (a: nat)
    requires phase in Appearing(actions)
    ensures a < |actions| && PhaseOf(actions[a]) == phase
    decreases |actions|
  {
    var n := |actions| - 1;
    a := n;
    if PhaseOf(actions[n]) != phase {
      a := FirstOf(actions[..n], phase);
    }
  }

  lemma FixedPlaceIsRank(actions: seq<Action>, phase: string)
    ensures FixedPlace(phase) < 4 ==> Rank(actions, phase) == FixedPlace(phase)
    ensures FixedPlace(phase) == 4 ==>
              phase !in PHASE_ORDER && Rank(actions, phase) == 4 + IndexOf(Appearing(actions), phase)
  {
    if FixedPlace(phase) < 4 {
      OrderIndex(FixedPlace(phase));
    }
  }

  /** Known phases come in their fixed order, before all others, and these by their first action. */
  lemma GroupsInOrder(actions: seq<Action>, i: nat, j: nat)
    requires i < j < |Grouped(actions)|
    ensures var p, q := Grouped(actions)[i].0, Grouped(actions)[j].0;
            || FixedPlace(p) < FixedPlace(q)
            || (FixedPlace(p) == FixedPlace(q) == 4 && exists a: nat :: ComesFirst(actions, p, q, a))
  {
    hide Grouped, Rank;
    GroupedMeaning(actions);
    var p, q := Grouped(actions)[i].0, Grouped(actions)[j].0;
    FixedPlaceIsRank(actions, p);
    FixedPlaceIsRank(actions, q);
    assert Rank(actions, p) < Rank(actions, q);
    if FixedPlace(p) == FixedPlace(q) == 4 {
      var m: nat :| m < |Appearing(actions)| && Appearing(actions)[m] == p;
      var n: nat :| n < |Appearing(actions)| && Appearing(actions)[n] == q;
      AppearingIndex(actions, m);
      AppearingIndex(actions, n);
      AppearsBefore(actions, m, n);
    }
  }

  /** A group holds exactly the actions of its phase, as often as they occur. */
  lemma {:induction false} OfPhaseMeaning(actions: seq<Action>, phase: string, a: Action)
    ensures multiset(OfPhase(actions, phase))[a] ==
            if phase == (if a.phase == "" then "other" else a.phase) then multiset(actions)[a] else 0
    decreases |actions|
  {
    if actions != [] {
      var n := |actions| - 1;
      OfPhaseMeaning(actions[..n], phase, a);
      assert actions == actions[..n] + [actions[n]];
    }
  }
}
