/**
 The steps of a streaming bubble. The component is handed the whole list of steps again and again,
 each time a little longer, and folds it into a map that survives from one time to the next.
 */
module StepMap {
  import opened Common
  import opened Text

  datatype Status = Pending | InProgress | Completed | Error

  datatype Step = Step(name: string, id: string, timestamp: nat, status: Status, message: string)

  /** An insertion-ordered map: setting a key that is there keeps its place. */
  type Entries = seq<(string, Step)>

  predicate Ends(step: Step) {
    step.status == Completed || step.status == Error
  }

  /** `${step.name}-${step.id}-${step.timestamp}` */
  function Key(step: Step): string {
    step.name + "-" + step.id + "-" + Decimal(step.timestamp)
  }

  /** The first entry with the id of `step`, or the number of entries. */
  function FindId(entries: Entries, id: string): (k: nat)
    ensures k <= |entries|
    ensures forall i :: 0 <= i < k ==> entries[i].1.id != id
    ensures k < |entries| ==> entries[k].1.id == id
  {
    if entries != [] && entries[0].1.id != id then 1 + FindId(entries[1..], id) else 0
  }

  /** An unfinished entry that a finished step of the same name may stand for. */
  predicate TakenOver(existing: Step, step: Step) {
    existing.name == step.name && existing.status == InProgress && Ends(step)
  }

  function FindName(entries: Entries, step: Step): (k: nat)
    ensures k <= |entries|
    ensures forall i :: 0 <= i < k ==> !TakenOver(entries[i].1, step)
    ensures k < |entries| ==> TakenOver(entries[k].1, step)
  {
    if entries != [] && !TakenOver(entries[0].1, step) then 1 + FindName(entries[1..], step) else 0
  }

  function SetKey(entries: Entries, key: string, step: Step): Entries {
    var k := Position(entries, key);
    if k < |entries| then entries[k := (key, step)] else entries + [(key, step)]
  }

  /** Where `step` goes: over the entry with its id, else over one it finishes, else under its own key. */
  function Merge(entries: Entries, step: Step): Entries {
    var byId := FindId(entries, step.id);
    if byId < |entries| then entries[byId := (entries[byId].0, step)]
    else
      var byName := FindName(entries, step);
      if byName < |entries| then entries[byName := (entries[byName].0, step)]
      else SetKey(entries, Key(step), step)
  }

  function MergeAll(entries: Entries, steps: seq<Step>): Entries
    decreases |steps|
  {
    if steps == [] then entries else MergeAll(Merge(entries, steps[0]), steps[1..])
  }

  /** One run of the effect: an empty list clears the map. */
  function Update(entries: Entries, steps: seq<Step>): Entries {
    if steps == [] then [] else MergeAll(entries, steps)
  }

  class Bubble {
    var stepMap: Entries

    constructor ()
      ensures stepMap == []
    {
      stepMap := [];
    }

    method SetSteps(steps: seq<Step>)
      modifies this
      ensures stepMap == Update(old(stepMap), steps)
    {
      if |steps| == 0 {
        stepMap := [];
        return;
      }
      ghost var all := MergeAll(stepMap, steps);
      assert steps[0..] == steps;
      for i := 0 to |steps|
        invariant all == MergeAll(stepMap, steps[i..])
      {
        assert steps[i..][0] == steps[i] && steps[i..][1..] == steps[i + 1..];
        MergeStep(steps[i]);
      }
    }

    method MergeStep(step: Step)
      modifies this
      ensures stepMap == Merge(old(stepMap), step)
    {
      var existing := |stepMap|;
      for k := 0 to |stepMap|
        invariant existing == |stepMap| && forall i :: 0 <= i < k ==> stepMap[i].1.id != step.id
      {
        if stepMap[k].1.id == step.id {
          existing := k;
          break;
        }
      }
      if existing == |stepMap| {
        for k := 0 to |stepMap|
          invariant existing == |stepMap| && forall i :: 0 <= i < k ==> !TakenOver(stepMap[i].1, step)
        {
          if TakenOver(stepMap[k].1, step) {
            existing := k;
            break;
          }
        }
      }
      if existing < |stepMap| {
        stepMap := stepMap[existing := (stepMap[existing].0, step)];
      } else {
        stepMap := SetKey(stepMap, Key(step), step);
      }
    }
  }

  lemma {:induction false} NoKey(entries: Entries, key: string)
    requires forall i :: 0 <= i < |entries| ==> entries[i].0 != key
    ensures Position(entries, key) == |entries|
  {
    if entries != [] {
      NoKey(entries[1..], key);
    }
  }

  // ----- Where one step goes

  predicate HoldsId(entries: Entries, id: string) {
    exists i :: 0 <= i < |entries| && entries[i].1.id == id
  }

  /** An entry in progress under the name of a step that completes or fails. */
  predicate WaitsFor(existing: Step, step: Step) {
    && existing.name == step.name && existing.status.InProgress?
    && (step.status.Completed? || step.status.Error?)
  }

  /** The first entry with the step's id gets the step and keeps its key. */
  lemma MergeById(entries: Entries, step: Step, i: nat)
    requires i < |entries| && entries[i].1.id == step.id
    requires forall k :: 0 <= k < i ==> entries[k].1.id != step.id
    ensures Merge(entries, step) == entries[i := (entries[i].0, step)]
  {
    assert FindId(entries, step.id) == i;
  }

  /** A new id that ends a step in progress under the same name: the first such entry gets it and keeps its key. */
  lemma MergeByName(entries: Entries, step: Step, i: nat)
    requires !HoldsId(entries, step.id)
    requires i < |entries| && WaitsFor(entries[i].1, step)
    requires forall k :: 0 <= k < i ==> !WaitsFor(entries[k].1, step)
    ensures Merge(entries, step) == entries[i := (entries[i].0, step)]
  {
    assert FindId(entries, step.id) == |entries|;
    assert FindName(entries, step) == i;
  }

  /** Any other new id goes under its own key: over the entry that has it, or to the end. */
  lemma MergeByKey(entries: Entries, step: Step)
    requires !HoldsId(entries, step.id)
    requires forall k :: 0 <= k < |entries| ==> !WaitsFor(entries[k].1, step)
    ensures var key := step.name + "-" + step.id + "-" + Decimal(step.timestamp);
            && ((forall k :: 0 <= k < |entries| ==> entries[k].0 != key) ==>
                  Merge(entries, step) == entries + [(key, step)])
            && forall i :: 0 <= i < |entries| && entries[i].0 == key
                           && (forall k :: 0 <= k < i ==> entries[k].0 != key) ==>
                             Merge(entries, step) == entries[i := (key, step)]
  {
    assert FindId(entries, step.id) == |entries|;
    assert FindName(entries, step) == |entries|;
  }

  /** Whatever the map: the step is in it afterwards, and at most one entry is another than before. */
  lemma MergeTouchesOne(entries: Entries, step: Step) returns (at: nat)
    ensures var next := Merge(entries, step);
            && at < |next| && next[at].1 == step
            && |entries| <= |next| <= |entries| + 1 && (|next| > |entries| ==> at == |entries|)
            && (at < |entries| ==> next[at].0 == entries[at].0)
            && forall i :: 0 <= i < |entries| && i != at ==> next[i] == entries[i]
  {
    var byId, byName := FindId(entries, step.id), FindName(entries, step);
    at := if byId < |entries| then byId else if byName < |entries| then byName else Position(entries, Key(step));
  }

  // ----- No id twice

  predicate Unique(entries: Entries) {
    && (forall i, j :: 0 <= i < j < |entries| ==> entries[i].1.id != entries[j].1.id)
    && (forall i, j :: 0 <= i < j < |entries| ==> entries[i].0 != entries[j].0)
  }

  lemma {:induction false} MergeAllKeepsUnique(entries: Entries, steps: seq<Step>)
    requires Unique(entries)
    ensures Unique(MergeAll(entries, steps))
    decreases |steps|
  {
    if steps != [] {
      MergeAllKeepsUnique(Merge(entries, steps[0]), steps[1..]);
    }
  }

  function Batches(entries: Entries, batches: seq<seq<Step>>): Entries
    decreases |batches|
  {
    if batches == [] then entries else Batches(Update(entries, batches[0]), batches[1..])
  }

  /** Whatever lists come in, growing or not: no two entries ever share an id or a key. */
  lemma {:induction false} BatchesKeepUnique(entries: Entries, batches: seq<seq<Step>>)
    requires Unique(entries)
    ensures Unique(Batches(entries, batches))
    decreases |batches|
  {
    if batches != [] {
      MergeAllKeepsUnique(entries, batches[0]);
      BatchesKeepUnique(Update(entries, batches[0]), batches[1..]);
    }
  }

  // ----- The last version of every id

  /** Index of the first step with that id, or the number of steps. */
  function IndexOf(steps: seq<Step>, id: string): (k: nat)
    ensures k <= |steps|
    ensures forall i :: 0 <= i < k ==> steps[i].id != id
    ensures k < |steps| ==> steps[k].id == id
  {
    if steps != [] && steps[0].id != id then 1 + IndexOf(steps[1..], id) else 0
  }

  /** The last version of every id, ids in the order of their first appearance. */
  function Latest(steps: seq<Step>): seq<Step> {
    if steps == [] then []
    else
      var before, step := Latest(steps[..|steps| - 1]), steps[|steps| - 1];
      var k := IndexOf(before, step.id);
      if k < |before| then before[k := step] else before + [step]
  }

  /** The keys of the first versions, in the same order. */
  function FirstKeys(steps: seq<Step>): seq<string> {
    if steps == [] then []
    else
      var n := |steps| - 1;
      var before, step := FirstKeys(steps[..n]), steps[n];
      if IndexOf(Latest(steps[..n]), step.id) < |Latest(steps[..n])| then before else before + [Key(step)]
  }

  function Zip(keys: seq<string>, steps: seq<Step>): Entries
    requires |keys| == |steps|
  {
    seq(|keys|, i requires 0 <= i < |keys| => (keys[i], steps[i]))
  }

  function StepsOf(entries: Entries): seq<Step> {
    seq(|entries|, i requires 0 <= i < |entries| => entries[i].1)
  }

  /** Step `n` brings a new id: it finishes no unfinished step of its name, and its key is new. */
  predicate CleanAt(steps: seq<Step>, n: nat)
    requires n < |steps|
  {
    var before := Latest(steps[..n]);
    IndexOf(before, steps[n].id) == |before| ==>
      && (forall i :: 0 <= i < |before| ==> !TakenOver(before[i], steps[n]))
      && Key(steps[n]) !in FirstKeys(steps[..n])
  }

  predicate Clean(steps: seq<Step>) {
    forall n :: 0 <= n < |steps| ==> CleanAt(steps, n)
  }

  lemma {:induction false} SameLength(steps: seq<Step>)
    ensures |FirstKeys(steps)| == |Latest(steps)|
  {
    if steps != [] {
      SameLength(steps[..|steps| - 1]);
    }
  }

  lemma {:induction false} MergeAllLast(entries: Entries, steps: seq<Step>, step: Step)
    ensures MergeAll(entries, steps + [step]) == Merge(MergeAll(entries, steps), step)
    decreases |steps|
  {
    if steps == [] {
      assert steps + [step] == [step] && [step][1..] == [];
    } else {
      assert (steps + [step])[1..] == steps[1..] + [step];
      MergeAllLast(Merge(entries, steps[0]), steps[1..], step);
    }
  }

  lemma SameIds(keys: seq<string>, steps: seq<Step>, id: string)
    requires |keys| == |steps|
    ensures FindId(Zip(keys, steps), id) == IndexOf(steps, id)
  {
    var entries := Zip(keys, steps);
    assert forall i :: 0 <= i < |steps| ==> entries[i].1 == steps[i];
  }

  /** A clean stream, fed into an empty map: the last version of every id, under the key of its first. */
  lemma {:induction false} CleanMap(steps: seq<Step>)
    requires Clean(steps)
    ensures |FirstKeys(steps)| == |Latest(steps)|
    ensures MergeAll([], steps) == Zip(FirstKeys(steps), Latest(steps))
  {
    SameLength(steps);
    if steps != [] {
      var n := |steps| - 1;
      var before, step := steps[..n], steps[n];
      assert steps == before + [step];
      CleanPrefix(steps, n);
      CleanMap(before);
      MergeAllLast([], before, step);
      CleanMerge(steps);
    }
  }

  lemma CleanPrefix(steps: seq<Step>, n: nat)
    requires n <= |steps| && Clean(steps)
    ensures Clean(steps[..n])
  {
    forall k | 0 <= k < n ensures CleanAt(steps[..n], k) {
      assert steps[..n][..k] == steps[..k];
      assert CleanAt(steps, k);
    }
  }

  lemma CleanMerge(steps: seq<Step>)
    requires steps != [] && CleanAt(steps, |steps| - 1)
    ensures var before := steps[..|steps| - 1];
            && |FirstKeys(before)| == |Latest(before)| && |FirstKeys(steps)| == |Latest(steps)|
            && Merge(Zip(FirstKeys(before), Latest(before)), steps[|steps| - 1]) == Zip(FirstKeys(steps), Latest(steps))
  {
    var before, step := steps[..|steps| - 1], steps[|steps| - 1];
    SameLength(before);
    SameLength(steps);
    var keys, latest := FirstKeys(before), Latest(before);
    var entries := Zip(keys, latest);
    SameIds(keys, latest, step.id);
    if FindId(entries, step.id) == |entries| {
      NoKey(entries, Key(step));
    }
  }

  /** At every moment the map holds the last version of every id. */
  ghost predicate AlwaysLatest(steps: seq<Step>) {
    forall n :: 0 <= n <= |steps| ==> StepsOf(MergeAll([], steps[..n])) == Latest(steps[..n])
  }

  /** A stream that is clean up to a step that is not: that step replaces another id instead of adding its own. */
  lemma {:induction false} UncleanLosesId(steps: seq<Step>)
    requires steps != [] && Clean(steps[..|steps| - 1]) && !CleanAt(steps, |steps| - 1)
    ensures StepsOf(MergeAll([], steps)) != Latest(steps)
  {
    var before, step := steps[..|steps| - 1], steps[|steps| - 1];
    assert steps == before + [step];
    CleanMap(before);
    MergeAllLast([], before, step);
    var keys, latest := FirstKeys(before), Latest(before);
    var entries := Zip(keys, latest);
    SameIds(keys, latest, step.id);
    if i :| 0 <= i < |latest| && TakenOver(latest[i], step) {
      assert TakenOver(entries[i].1, step);
    } else {
      var i :| 0 <= i < |keys| && keys[i] == Key(step);
      assert entries[i].0 == Key(step);
    }
    assert |Merge(entries, step)| == |entries| < |Latest(steps)|;
  }

  lemma {:induction false} AlwaysLatestIsClean(steps: seq<Step>, n: nat)
    requires AlwaysLatest(steps) && n <= |steps|
    ensures Clean(steps[..n])
    decreases n
  {
    if n > 0 {
      AlwaysLatestIsClean(steps, n - 1);
      var upTo := steps[..n];
      assert upTo[..n - 1] == steps[..n - 1];
      if !CleanAt(upTo, n - 1) {
        UncleanLosesId(upTo);
      }
      forall k | 0 <= k < n ensures CleanAt(upTo, k) {
        if k < n - 1 {
          assert CleanAt(steps[..n - 1], k);
          assert steps[..n - 1][..k] == upTo[..k];
        }
      }
    }
  }

  /** While a stream comes in, the map always is "last version per id, in order of appearance" iff it is clean. */
  lemma LatestIffClean(steps: seq<Step>)
    ensures AlwaysLatest(steps) <==> Clean(steps)
  {
    if Clean(steps) {
      forall n | 0 <= n <= |steps| ensures StepsOf(MergeAll([], steps[..n])) == Latest(steps[..n]) {
        CleanPrefix(steps, n);
        CleanMap(steps[..n]);
      }
    }
    if AlwaysLatest(steps) {
      AlwaysLatestIsClean(steps, |steps|);
      assert steps[..|steps|] == steps;
    }
  }

  /** Every step's id is in the latest versions. */
  lemma {:induction false} LatestHas(steps: seq<Step>, k: nat)
    requires k < |steps|
    ensures IndexOf(Latest(steps), steps[k].id) < |Latest(steps)|
    decreases |steps|
  {
    var n := |steps| - 1;
    var before := Latest(steps[..n]);
    if k < n {
      LatestHas(steps[..n], k);
      var i := IndexOf(before, steps[k].id);
      assert Latest(steps)[i].id == steps[k].id;
    } else {
      assert Latest(steps)[IndexOf(before, steps[n].id)].id == steps[n].id;
    }
  }

  lemma NewId(steps: seq<Step>, n: nat)
    requires n < |steps| && IndexOf(Latest(steps[..n]), steps[n].id) == |Latest(steps[..n])|
    ensures forall k :: 0 <= k < n ==> steps[k].id != steps[n].id
  {
    forall k | 0 <= k < n ensures steps[k].id != steps[n].id {
      LatestHas(steps[..n], k);
    }
  }

  /** Steps that end have been seen before, and new ids have keys of their own: such a stream is clean. */
  lemma AnnouncedIsClean(steps: seq<Step>)
    requires forall n :: 0 <= n < |steps| && Ends(steps[n]) ==> exists k :: 0 <= k < n && steps[k].id == steps[n].id
    requires forall k, n :: 0 <= k < n < |steps| && steps[k].id != steps[n].id ==> Key(steps[k]) != Key(steps[n])
    ensures Clean(steps)
  {
    hide Key;
    forall n | 0 <= n < |steps| ensures CleanAt(steps, n) {
      if IndexOf(Latest(steps[..n]), steps[n].id) == |Latest(steps[..n])| {
        NewId(steps, n);
        forall key | key in FirstKeys(steps[..n]) ensures key != Key(steps[n]) {
          FirstKeysAreKeys(steps[..n], key);
          var k :| 0 <= k < n && Key(steps[..n][k]) == key;
          assert steps[..n][k] == steps[k];
        }
      }
    }
  }

  lemma {:induction false} FirstKeysAreKeys(steps: seq<Step>, key: string)
    requires key in FirstKeys(steps)
    ensures exists k :: 0 <= k < |steps| && Key(steps[k]) == key
    decreases |steps|
  {
    hide Key;
    var n := |steps| - 1;
    if key in FirstKeys(steps[..n]) {
      FirstKeysAreKeys(steps[..n], key);
      var k :| 0 <= k < n && Key(steps[..n][k]) == key;
      assert steps[..n][k] == steps[k];
    } else {
      assert Key(steps[n]) == key;
    }
  }

  // ----- Lists that grow

  /** The last step with that id, or `current` if there is none. */
  function LastWith(steps: seq<Step>, id: string, current: Step): Step {
    if steps == [] then current
    else LastWith(steps[1..], id, if steps[0].id == id then steps[0] else current)
  }

  /** Feeding steps whose ids are all in the map only exchanges versions. */
  lemma {:induction false} FeedKnown(entries: Entries, steps: seq<Step>)
    requires Unique(entries)
    requires forall k :: 0 <= k < |steps| ==> FindId(entries, steps[k].id) < |entries|
    ensures |MergeAll(entries, steps)| == |entries|
    ensures forall i :: 0 <= i < |entries| ==>
                          MergeAll(entries, steps)[i] ==
                          (entries[i].0, LastWith(steps, entries[i].1.id, entries[i].1))
    decreases |steps|
  {
    if steps != [] {
      var step := steps[0];
      var at := FindId(entries, step.id);
      var next := Merge(entries, step);
      forall k | 0 <= k < |steps| - 1 ensures FindId(next, steps[1..][k].id) < |next| {
        var known := FindId(entries, steps[k + 1].id);
        assert next[known].1.id == entries[known].1.id;
      }
      FeedKnown(next, steps[1..]);
    }
  }

  lemma {:induction false} LastWithAppend(steps: seq<Step>, step: Step, id: string, current: Step)
    ensures LastWith(steps + [step], id, current) == if step.id == id then step else LastWith(steps, id, current)
    decreases |steps|
  {
    if steps == [] {
      assert steps + [step] == [step] && [step][1..] == [];
    } else {
      assert (steps + [step])[1..] == steps[1..] + [step];
      LastWithAppend(steps[1..], step, id, if steps[0].id == id then steps[0] else current);
    }
  }

  lemma {:induction false} LatestIsLast(steps: seq<Step>, i: nat)
    requires i < |Latest(steps)|
    ensures forall current :: LastWith(steps, Latest(steps)[i].id, current) == Latest(steps)[i]
    ensures forall j :: 0 <= j < |Latest(steps)| && j != i ==> Latest(steps)[j].id != Latest(steps)[i].id
  {
    var n := |steps| - 1;
    var before, step := steps[..n], steps[n];
    assert steps == before + [step];
    var id := Latest(steps)[i].id;
    var at := IndexOf(Latest(before), step.id);
    if i < |Latest(before)| {
      LatestIsLast(before, i);
    }
    forall current ensures LastWith(steps, id, current) == Latest(steps)[i] {
      LastWithAppend(before, step, id, current);
    }
  }

  /** Feeding a clean list once more onto its own map changes nothing. */
  lemma RefeedSame(steps: seq<Step>)
    requires Clean(steps)
    ensures MergeAll(MergeAll([], steps), steps) == MergeAll([], steps)
  {
    var keys, latest := FirstKeys(steps), Latest(steps);
    CleanMap(steps);
    MergeAllKeepsUnique([], steps);
    hide Clean, Latest, FirstKeys, MergeAll;
    var entries := Zip(keys, latest);
    forall k | 0 <= k < |steps| ensures FindId(entries, steps[k].id) < |entries| {
      LatestHas(steps, k);
      SameIds(keys, latest, steps[k].id);
    }
    FeedKnown(entries, steps);
    forall i | 0 <= i < |entries| ensures MergeAll(entries, steps)[i] == entries[i] {
      LatestIsLast(steps, i);
      assert entries[i] == (keys[i], latest[i]);
    }
  }

  lemma {:induction false} MergeAllAppend(entries: Entries, a: seq<Step>, b: seq<Step>)
    ensures MergeAll(entries, a + b) == MergeAll(MergeAll(entries, a), b)
    decreases |a|
  {
    if a == [] {
      assert a + b == b;
    } else {
      assert (a + b)[1..] == a[1..] + b;
      MergeAllAppend(Merge(entries, a[0]), a[1..], b);
    }
  }

  /** Every list is a prefix of the next. */
  predicate Growing(batches: seq<seq<Step>>) {
    forall i :: 0 < i < |batches| ==> batches[i - 1] <= batches[i]
  }

  lemma Refeed(shorter: seq<Step>, longer: seq<Step>)
    requires shorter <= longer && Clean(longer)
    ensures Update(MergeAll([], shorter), longer) == MergeAll([], longer)
  {
    CleanPrefix(longer, |shorter|);
    assert shorter == longer[..|shorter|];
    var rest := longer[|shorter|..];
    assert longer == shorter + rest;
    RefeedSame(shorter);
    MergeAllAppend([], shorter, rest);
    MergeAllAppend(MergeAll([], shorter), shorter, rest);
  }

  /**
   A clean list that arrives in any number of growing pieces, each from the start, ends in the same
   map as if it had arrived once.
   */
  lemma {:induction false} GrowingEqualsOnce(batches: seq<seq<Step>>)
    requires batches != [] && Growing(batches) && Clean(batches[|batches| - 1])
    ensures Batches([], batches) == MergeAll([], batches[|batches| - 1])
    ensures StepsOf(Batches([], batches)) == Latest(batches[|batches| - 1])
  {
    hide Latest, FirstKeys, Clean, Merge;
    var n := |batches| - 1;
    var last := batches[n];
    CleanMap(last);
    BatchesLast([], batches);
    if n > 0 {
      var before := batches[..n];
      assert before[n - 1] == batches[n - 1] <= last;
      CleanPrefix(last, |batches[n - 1]|);
      assert last[..|batches[n - 1]|] == batches[n - 1];
      forall i | 0 < i < n ensures before[i - 1] <= before[i] {
        assert batches[i - 1] <= batches[i];
      }
      GrowingEqualsOnce(before);
      Refeed(batches[n - 1], last);
    }
  }

  lemma {:induction false} BatchesLast(entries: Entries, batches: seq<seq<Step>>)
    requires batches != []
    ensures Batches(entries, batches) == Update(Batches(entries, batches[..|batches| - 1]), batches[|batches| - 1])
    decreases |batches|
  {
    if |batches| > 1 {
      BatchesLast(Update(entries, batches[0]), batches[1..]);
      assert batches[1..][..|batches| - 2] == batches[..|batches| - 1][1..];
    }
  }

  /** Two steps whose names and ids run into the same key: the second displaces the first. */
  lemma KeysCanCollide()
    ensures var a, b := Step("a-b", "c", 1, Pending, ""), Step("a", "b-c", 1, Pending, "");
            a.id != b.id && MergeAll([], [a, b]) == [(Key(a), b)]
  {
    var a, b := Step("a-b", "c", 1, Pending, ""), Step("a", "b-c", 1, Pending, "");
    assert "a-b" + "-" + "c" == "a" + "-" + "b-c";
    var one := [(Key(a), a)];
    assert [a, b][1..] == [b] && [b][1..] == [];
    assert Merge([], a) == one;
    assert one[0].0 == Key(b);
    assert Merge(one, b) == one[0 := (Key(b), b)] == [(Key(a), b)];
    assert MergeAll([], [a, b]) == MergeAll(one, [b]) == MergeAll(Merge(one, b), []);
  }
}
