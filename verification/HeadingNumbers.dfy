/**
 Hierarchical numbering of the headings in a table of contents: 1, 1.1, 1.2, 2, ...
 The counters are shared by all headings; the numbers are what a count of the headings says.
 */
module HeadingNumbers {
  import opened Common
  import opened Text

  function MinLevel(levels: seq<nat>): nat
    requires levels != []
  {
    if |levels| == 1 then levels[0] else Min(levels[0], MinLevel(levels[1..]))
  }

  function Adjusted(levels: seq<nat>, minLevel: nat): seq<nat> {
    seq(|levels|, i requires 0 <= i < |levels| => if levels[i] >= minLevel then levels[i] - minLevel else 0)
  }

  // ----- What a number says

  /** Where counting for component `j` of heading `i` starts: after the last shallower heading. */
  function SectionStart(levels: seq<nat>, i: nat, j: nat): (start: nat)
    requires i <= |levels|
    ensures start <= i
    ensures forall k :: start <= k < i ==> levels[k] >= j
    ensures start > 0 ==> levels[start - 1] < j
  {
    if i > 0 && levels[i - 1] >= j then SectionStart(levels, i - 1, j) else i
  }

  function CountLevel(levels: seq<nat>, from: nat, end: nat, j: nat): nat
    requires from <= end <= |levels|
  {
    if from == end then 0
    else CountLevel(levels, from, end - 1, j) + if levels[end - 1] == j then 1 else 0
  }

  /** Component `j` after the first `i` headings: the headings of level `j` since the last shallower one. */
  function Component(levels: seq<nat>, i: nat, j: nat): nat
    requires i <= |levels|
  {
    if j == 0 then CountLevel(levels, 0, i, 0) + if i > 0 && levels[0] > 0 then 1 else 0
    else CountLevel(levels, SectionStart(levels, i, j), i, j)
  }

  /** The number of heading `i`. */
  function Number(levels: seq<nat>, i: nat): seq<nat>
    requires i < |levels|
  {
    seq(levels[i] + 1, (j: nat) => Component(levels, i + 1, j))
  }

  // ----- The numbering, heading by heading

  /** Counters hold the components, or nothing yet where no heading has been that deep. */
  ghost predicate Tracks(counters: seq<nat>, levels: seq<nat>, i: nat)
    requires i <= |levels|
  {
    && (forall j :: 0 <= j < |counters| ==> counters[j] == Component(levels, i, j))
    && (forall k :: 0 <= k < i ==> levels[k] < |counters|)
    && (i == 0 ==> counters == [])
  }

  method AddNumbering(headings: seq<nat>) returns (numbers: seq<string>)
    ensures |numbers| == |headings|
    ensures headings != [] ==>
              forall i :: 0 <= i < |headings| ==>
                            numbers[i] == Printed(Number(Adjusted(headings, MinLevel(headings)), i))
  {
    if |headings| == 0 {
      return [];
    }
    var minLevel := MinLevel(headings);
    ghost var levels := Adjusted(headings, minLevel);
    var counters := [];
    numbers := [];
    for n := 0 to |headings|
      invariant |numbers| == n
      invariant Tracks(counters, levels, n)
      invariant forall i :: 0 <= i < n ==> numbers[i] == Printed(Number(levels, i))
    {
      var adjustedLevel := if headings[n] >= minLevel then headings[n] - minLevel else 0;
      var number;
      counters, number := NextNumber(counters, adjustedLevel, levels, n);
      numbers := numbers + [Printed(number)];
    }
  }

  /** One heading: grow the counters, bump its own, reset the deeper ones. */
  method NextNumber(before: seq<nat>, adjustedLevel: nat, ghost levels: seq<nat>, ghost n: nat)
    returns (counters: seq<nat>, number: seq<nat>)
    requires n < |levels| && levels[n] == adjustedLevel
    requires Tracks(before, levels, n)
    ensures Tracks(counters, levels, n + 1)
    ensures number == Number(levels, n)
  {
    counters := before;
    while |counters| <= adjustedLevel
      invariant |before| <= |counters|
      invariant forall j :: 0 <= j < |before| ==> counters[j] == before[j]
      invariant forall j :: |before| <= j < |counters| ==> counters[j] == 0
      decreases adjustedLevel + 1 - |counters|
    {
      counters := counters + [0];
    }
    assert forall j :: 0 <= j < |counters| ==> counters[j] == Component(levels, n, j);
    if n > 0 {
      FirstCounter(levels, n);
    }
    ghost var grown := counters;
    if adjustedLevel > 0 && counters[0] == 0 {
      counters := counters[0 := 1];
    }
    counters := counters[adjustedLevel := counters[adjustedLevel] + 1];
    ghost var bumped := counters;
    for i := adjustedLevel + 1 to |counters|
      invariant |counters| == |bumped|
      invariant forall j :: 0 <= j < |counters| ==>
                              counters[j] == if adjustedLevel < j < i then 0 else bumped[j]
    {
      counters := counters[i := 0];
    }
    forall j | 0 <= j < |counters| ensures counters[j] == Component(levels, n + 1, j) {
      ComponentStep(levels, n, j);
    }
    number := counters[..adjustedLevel + 1];
  }

  /** Once there is a heading, the first counter is not zero. */
  lemma FirstCounter(levels: seq<nat>, n: nat)
    requires 0 < n <= |levels|
    ensures Component(levels, n, 0) > 0
  {
    if levels[0] == 0 {
      CountSome(levels, 0, n, 0, 0);
    }
  }

  lemma {:induction false} CountSome(levels: seq<nat>, from: nat, end: nat, j: nat, k: nat)
    requires from <= k < end <= |levels|
    requires levels[k] == j
    ensures CountLevel(levels, from, end, j) > 0
    decreases end
  {
    if k < end - 1 {
      CountSome(levels, from, end - 1, j, k);
    }
  }

  /** What one more heading does to a component: deeper ones restart, its own grows, the others stay. */
  lemma ComponentStep(levels: seq<nat>, n: nat, j: nat)
    requires n < |levels|
    ensures Component(levels, n + 1, j) ==
            if levels[n] < j then 0
            else if levels[n] == j then Component(levels, n, j) + 1
            else if j == 0 && n == 0 then 1
            else Component(levels, n, j)
  {
    if levels[n] >= j {
      assert SectionStart(levels, n + 1, j) == SectionStart(levels, n, j);
      assert CountLevel(levels, 0, n + 1, j) == CountLevel(levels, 0, n, j) + if levels[n] == j then 1 else 0;
    }
  }

  // ----- Order

  /** Lexicographic order of numbers; a proper prefix comes first. */
  predicate Before(a: seq<nat>, b: seq<nat>) {
    b != [] && (a == [] || a[0] < b[0] || (a[0] == b[0] && Before(a[1..], b[1..])))
  }

  lemma {:induction false} BeforeTransitive(a: seq<nat>, b: seq<nat>, c: seq<nat>)
    requires Before(a, b) && Before(b, c)
    ensures Before(a, c)
  {
    if a != [] && a[0] == b[0] == c[0] {
      BeforeTransitive(a[1..], b[1..], c[1..]);
    }
  }

  lemma {:induction false} BeforeIrreflexive(a: seq<nat>)
    ensures !Before(a, a)
  {
    if a != [] {
      BeforeIrreflexive(a[1..]);
    }
  }

  /** Two numbers that agree up to component `k`, where the second is larger or goes on alone. */
  lemma {:induction false} BeforeAt(a: seq<nat>, b: seq<nat>, k: nat)
    requires k < |b| && k <= |a| && a[..k] == b[..k]
    requires k < |a| ==> a[k] < b[k]
    ensures Before(a, b)
  {
    if k > 0 {
      assert a[0] == a[..k][0] == b[..k][0] == b[0];
      assert a[1..][..k - 1] == a[..k][1..] == b[..k][1..] == b[1..][..k - 1];
      BeforeAt(a[1..], b[1..], k - 1);
    }
  }

  /** Each number comes before the next one. */
  lemma NextIsLater(levels: seq<nat>, i: nat)
    requires i + 1 < |levels|
    ensures Before(Number(levels, i), Number(levels, i + 1))
  {
    var a, b := Number(levels, i), Number(levels, i + 1);
    var shallower, deeper := levels[i], levels[i + 1];
    FirstCounter(levels, i + 1);
    if deeper <= shallower {
      forall j | 0 <= j < deeper ensures a[j] == b[j] {
        ComponentStep(levels, i + 1, j);
      }
      ComponentStep(levels, i + 1, deeper);
      assert a[..deeper] == b[..deeper];
      BeforeAt(a, b, deeper);
    } else {
      forall j | 0 <= j <= shallower ensures a[j] == b[j] {
        ComponentStep(levels, i + 1, j);
      }
      assert a[..|a|] == b[..|a|];
      BeforeAt(a, b, |a|);
    }
  }

  /** Numbers strictly increase from heading to heading, so no two are the same. */
  lemma {:induction false} NumbersIncrease(levels: seq<nat>, i: nat, k: nat)
    requires i < k < |levels|
    ensures Before(Number(levels, i), Number(levels, k))
    ensures Number(levels, i) != Number(levels, k)
    decreases k
  {
    NextIsLater(levels, k - 1);
    if i < k - 1 {
      NumbersIncrease(levels, i, k - 1);
      BeforeTransitive(Number(levels, i), Number(levels, k - 1), Number(levels, k));
    }
    BeforeIrreflexive(Number(levels, i));
  }

  /** A number starts with a positive component and ends with one. */
  lemma NumberEnds(levels: seq<nat>, i: nat)
    requires i < |levels|
    ensures Number(levels, i)[0] >= 1 && Number(levels, i)[levels[i]] >= 1
  {
    FirstCounter(levels, i + 1);
    ComponentStep(levels, i, levels[i]);
  }

  // ----- Printed numbers

  function Decimals(number: seq<nat>): seq<string> {
    seq(|number|, i requires 0 <= i < |number| => Decimal(number[i]))
  }

  /** `counters.slice(0, adjustedLevel + 1).join(".")` */
  function Printed(number: seq<nat>): string {
    Join(Decimals(number), ".")
  }

  lemma PrintedReadsBack(a: seq<nat>, b: seq<nat>)
    requires a != [] && b != []
    ensures Printed(a) == Printed(b) ==> a == b
  {
    forall i | 0 <= i < |a| ensures '.' !in Decimals(a)[i] && Value(Decimals(a)[i]) == a[i] {
      DecimalReadsBack(a[i]);
    }
    forall i | 0 <= i < |b| ensures '.' !in Decimals(b)[i] && Value(Decimals(b)[i]) == b[i] {
      DecimalReadsBack(b[i]);
    }
    SplitJoin(Decimals(a), '.');
    SplitJoin(Decimals(b), '.');
    if Printed(a) == Printed(b) {
      assert |a| == |Decimals(a)| == |Decimals(b)| == |b|;
    }
  }

  /** No two headings of a table of contents are printed with the same number. */
  lemma PrintedNumbersDistinct(levels: seq<nat>, i: nat, k: nat)
    requires i < k < |levels|
    ensures Printed(Number(levels, i)) != Printed(Number(levels, k))
  {
    NumbersIncrease(levels, i, k);
    PrintedReadsBack(Number(levels, i), Number(levels, k));
  }

  /** A printed number is its components in decimal numerals with a period between each two. */
  lemma PrintedMeaning(number: seq<nat>)
    requires number != []
    ensures |Split(Printed(number), '.')| == |number|
    ensures forall i :: 0 <= i < |number| ==> Split(Printed(number), '.')[i] == Decimal(number[i])
  {
    forall i | 0 <= i < |number| ensures '.' !in Decimals(number)[i] {
      DecimalReadsBack(number[i]);
    }
    SplitJoin(Decimals(number), '.');
  }

  // ----- What a number counts

  /** The headings of level `j` among the first `i` that no shallower heading follows. */
  ghost function Counted(levels: seq<nat>, i: nat, j: nat): set<int>
    requires i <= |levels|
  {
    set k | 0 <= k < i && levels[k] == j && forall m :: k < m < i ==> levels[m] >= j
  }

  lemma {:induction false} CountLevelIsSize(levels: seq<nat>, from: nat, end: nat, j: nat)
    requires from <= end <= |levels|
    ensures CountLevel(levels, from, end, j) == |set k | from <= k < end && levels[k] == j|
    decreases end
  {
    var all := set k | from <= k < end && levels[k] == j;
    if from == end {
      assert all == {};
    } else {
      var before := set k | from <= k < end - 1 && levels[k] == j;
      CountLevelIsSize(levels, from, end - 1, j);
      assert all == if levels[end - 1] == j then before + {end - 1} else before;
    }
  }

  /**
   Component `j` of the number of heading `i` is how many headings of level `j` there have been since
   the last shallower one; the first component counts a missing first heading of level 0 as well.
   */
  lemma NumberMeaning(levels: seq<nat>, i: nat, j: nat)
    requires i < |levels| && j <= levels[i]
    ensures |Number(levels, i)| == levels[i] + 1
    ensures Number(levels, i)[j] == |Counted(levels, i + 1, j)| + if j == 0 && levels[0] > 0 then 1 else 0
  {
    var start := if j == 0 then 0 else SectionStart(levels, i + 1, j);
    CountLevelIsSize(levels, start, i + 1, j);
    assert Counted(levels, i + 1, j) == set k | start <= k < i + 1 && levels[k] == j;
  }

  /** A number has as many more components than another one as its heading is deeper. */
  lemma DepthMeaning(levels: seq<nat>, i: nat, k: nat)
    requires i < |levels| && k < |levels|
    ensures var adjusted := Adjusted(levels, MinLevel(levels));
            |Number(adjusted, i)| + levels[k] == |Number(adjusted, k)| + levels[i]
  {
    MinLevelMeaning(levels);
  }

  /** A single component goes to the headings no other is shallower than, and to nothing else; there is one. */
  lemma ShallowestHaveOneComponent(levels: seq<nat>, i: nat)
    requires i < |levels|
    ensures |Number(Adjusted(levels, MinLevel(levels)), i)| == 1 <==>
            forall k :: 0 <= k < |levels| ==> levels[i] <= levels[k]
    ensures exists k :: 0 <= k < |levels| && |Number(Adjusted(levels, MinLevel(levels)), k)| == 1
  {
    MinLevelMeaning(levels);
    var k :| 0 <= k < |levels| && levels[k] == MinLevel(levels);
    assert |Number(Adjusted(levels, MinLevel(levels)), k)| == 1;
  }

  lemma {:induction false} MinLevelMeaning(levels: seq<nat>)
    requires levels != []
    ensures forall i :: 0 <= i < |levels| ==> levels[i] >= MinLevel(levels)
    ensures exists i :: 0 <= i < |levels| && levels[i] == MinLevel(levels)
  {
    if |levels| > 1 {
      MinLevelMeaning(levels[1..]);
      if levels[0] > MinLevel(levels) {
        var i :| 0 <= i < |levels| - 1 && levels[1..][i] == MinLevel(levels[1..]);
        assert levels[i + 1] == MinLevel(levels);
      } else {
        assert levels[0] == MinLevel(levels);
      }
    } else {
      assert levels[0] == MinLevel(levels);
    }
  }
}
