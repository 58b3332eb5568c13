/**
 Overlapping loads of the trading tab of the settings dialog. Every load takes a request number;
 between two awaits it runs alone, so a run is any interleaving of those uninterrupted pieces.
 */
module SettingsLoads {
  import opened Common
  import opened Text

  datatype AuthType = AuthType(id: string, fields: seq<string>)

  datatype Exchange = Exchange(id: string, authTypes: seq<AuthType>, defaultAuthType: Option<string>)

  /** Which fields of an authentication are saved, and the preview of each saved one. */
  datatype Saved = Saved(present: set<string>, preview: map<string, string>)

  /** An answer about one exchange: grouped by authentication type, or flat, or an error. */
  datatype Reply =
    | Grouped(isDefault: bool, byType: map<string, Saved>)
    | Flat(isDefault: bool, saved: Saved)
    | Empty(isDefault: bool)
    | Failed

  datatype Status = Status(saved: Saved, isDefault: bool)

  type AuthRow = map<string, Option<Status>>
  type InputRow = map<string, map<string, string>>

  // ----- What a reply puts into the two maps

  function TargetType(exchange: Exchange): Option<string> {
    if exchange.defaultAuthType.Some? then exchange.defaultAuthType
    else if exchange.authTypes != [] then Some(exchange.authTypes[0].id)
    else None
  }

  function StatusFor(exchange: Exchange, reply: Reply, authType: string): Option<Status> {
    match reply
    case Failed => None
    case Empty(_) => None
    case Grouped(isDefault, byType) => if authType in byType then Some(Status(byType[authType], isDefault)) else None
    case Flat(isDefault, saved) =>
      if TargetType(exchange) == Some(authType) then Some(Status(saved, isDefault)) else None
  }

  function InputFor(status: Option<Status>, field: string): string {
    if status.Some? && field in status.value.saved.present && field in status.value.saved.preview
    then status.value.saved.preview[field] else ""
  }

  function InputsFor(status: Option<Status>, fields: seq<string>): map<string, string> {
    map field | field in fields :: InputFor(status, field)
  }

  function AuthRowOf(exchange: Exchange, reply: Reply, types: seq<AuthType>): AuthRow {
    if types == [] then map[]
    else
      var last := types[|types| - 1];
      AuthRowOf(exchange, reply, types[..|types| - 1])[last.id := StatusFor(exchange, reply, last.id)]
  }

  function InputRowOf(exchange: Exchange, reply: Reply, types: seq<AuthType>): InputRow {
    if types == [] then map[]
    else
      var last := types[|types| - 1];
      InputRowOf(exchange, reply, types[..|types| - 1])[
        last.id := InputsFor(StatusFor(exchange, reply, last.id), last.fields)]
  }

  /** The answers so far, exchange by exchange. */
  function Auths(list: seq<Exchange>, replies: seq<Reply>): map<string, AuthRow>
    requires |replies| <= |list|
  {
    if replies == [] then map[]
    else
      var n := |replies| - 1;
      Auths(list, replies[..n])[list[n].id := AuthRowOf(list[n], replies[n], list[n].authTypes)]
  }

  function Inputs(list: seq<Exchange>, replies: seq<Reply>): map<string, InputRow>
    requires |replies| <= |list|
  {
    if replies == [] then map[]
    else
      var n := |replies| - 1;
      Inputs(list, replies[..n])[list[n].id := InputRowOf(list[n], replies[n], list[n].authTypes)]
  }

  // ----- What the two maps hold

  /** The status that an answer gives an authentication type. */
  predicate Answers(exchange: Exchange, reply: Reply, authType: string, status: Option<Status>) {
    match reply
    case Grouped(isDefault, byType) =>
      if authType in byType then status == Some(Status(byType[authType], isDefault)) else status == None
    case Flat(isDefault, saved) =>
      var isTarget := if exchange.defaultAuthType.Some? then authType == exchange.defaultAuthType.value
                      else exchange.authTypes != [] && authType == exchange.authTypes[0].id;
      if isTarget then status == Some(Status(saved, isDefault)) else status == None
    case Empty(_) => status == None
    case Failed => status == None
  }

  /** The text of an input: the preview of a saved field, if there is one, else nothing. */
  predicate Fills(status: Option<Status>, field: string, text: string) {
    if status.None? || field !in status.value.saved.present || field !in status.value.saved.preview then text == ""
    else text == status.value.saved.preview[field]
  }

  lemma {:induction false} RowMeaning(exchange: Exchange, reply: Reply, types: seq<AuthType>, t: nat)
    requires t < |types| && forall k :: t < k < |types| ==> types[k].id != types[t].id
    ensures var auths, inputs := AuthRowOf(exchange, reply, types), InputRowOf(exchange, reply, types);
            && types[t].id in auths && types[t].id in inputs
            && Answers(exchange, reply, types[t].id, auths[types[t].id])
            && inputs[types[t].id].Keys == (set field | field in types[t].fields)
            && forall field :: field in types[t].fields ==>
                                 Fills(auths[types[t].id], field, inputs[types[t].id][field])
    decreases |types|
  {
    var n := |types| - 1;
    if t < n {
      RowMeaning(exchange, reply, types[..n], t);
    }
  }

  lemma {:induction false} RowKeysMeaning(exchange: Exchange, reply: Reply, types: seq<AuthType>, id: string)
    ensures id in AuthRowOf(exchange, reply, types) <==> exists t :: 0 <= t < |types| && types[t].id == id
    ensures id in InputRowOf(exchange, reply, types) <==> exists t :: 0 <= t < |types| && types[t].id == id
    decreases |types|
  {
    if types != [] {
      var n := |types| - 1;
      RowKeysMeaning(exchange, reply, types[..n], id);
      if t :| 0 <= t < |types[..n]| && types[..n][t].id == id {
        assert types[t].id == id;
      }
      if t :| 0 <= t < |types| && types[t].id == id {
        assert t < n ==> types[..n][t].id == id;
      }
    }
  }

  /** The last answer about an exchange is what both maps hold for it, one entry for each authentication type. */
  lemma {:induction false} MapsMeaning(list: seq<Exchange>, replies: seq<Reply>, k: nat)
    requires k < |replies| <= |list|
    requires forall m :: k < m < |replies| ==> list[m].id != list[k].id
    ensures var id := list[k].id;
            && id in Auths(list, replies) && id in Inputs(list, replies)
            && Auths(list, replies)[id] == AuthRowOf(list[k], replies[k], list[k].authTypes)
            && Inputs(list, replies)[id] == InputRowOf(list[k], replies[k], list[k].authTypes)
    decreases |replies|
  {
    var n := |replies| - 1;
    if k < n {
      MapsMeaning(list, replies[..n], k);
    }
  }

  // ----- One load, and the dialog with all of them

  datatype Load =
    | Listing                                                         // awaiting the exchanges
    | Listed(list: seq<Exchange>)                                     // has its list, not yet at the second phase
    | Asking(list: seq<Exchange>, replies: seq<Reply>,
             authMap: map<string, AuthRow>, inputMap: map<string, InputRow>) // awaiting the next answer
    | Finished(list: seq<Exchange>, replies: seq<Reply>)              // has written its results
    | Abandoned                                                       // found itself superseded

  datatype State = State(newest: nat, exchanges: seq<Exchange>, auths: map<string, AuthRow>,
                         inputs: map<string, InputRow>, loads: map<nat, Load>)

  datatype Event =
    | Start
    | ListArrives(id: nat, list: Option<seq<Exchange>>)
    | AskBegins(id: nat)
    | ReplyArrives(id: nat, reply: Reply)

  const INITIAL: State := State(0, [], map[], map[], map[])

  /** The component state the guard protects. */
  function Shown(s: State): (seq<Exchange>, map<string, AuthRow>, map<string, InputRow>) {
    (s.exchanges, s.auths, s.inputs)
  }

  /** The event continues a load that waits for it. */
  predicate Enabled(s: State, e: Event) {
    match e
    case Start => true
    case ListArrives(id, _) => id in s.loads && s.loads[id].Listing?
    case AskBegins(id) => id in s.loads && s.loads[id].Listed?
    case ReplyArrives(id, _) =>
      id in s.loads && s.loads[id].Asking? && |s.loads[id].replies| < |s.loads[id].list|
  }

  function Step(s: State, e: Event): State
    requires Enabled(s, e)
  {
    match e
    case Start =>
      s.(newest := s.newest + 1, loads := s.loads[s.newest + 1 := Listing])
    case ListArrives(id, list) =>
      if id != s.newest then s.(loads := s.loads[id := Listed([])])
      else if list.Some? then s.(exchanges := list.value, loads := s.loads[id := Listed(list.value)])
      else s.(exchanges := [], auths := map[], loads := s.loads[id := Listed([])])
    case AskBegins(id) =>
      var list := s.loads[id].list;
      if id != s.newest then s.(loads := s.loads[id := Abandoned])
      else if list == [] then s.(auths := map[], inputs := map[], loads := s.loads[id := Finished([], [])])
      else s.(loads := s.loads[id := Asking(list, [], map[], map[])])
    case ReplyArrives(id, reply) =>
      var Asking(list, replies, authMap, inputMap) := s.loads[id];
      var n := |replies|;
      var replies', authMap', inputMap' :=
        replies + [reply],
        authMap[list[n].id := AuthRowOf(list[n], reply, list[n].authTypes)],
        inputMap[list[n].id := InputRowOf(list[n], reply, list[n].authTypes)];
      if id != s.newest then s.(loads := s.loads[id := Abandoned])
      else if n + 1 < |list| then s.(loads := s.loads[id := Asking(list, replies', authMap', inputMap')])
      else s.(auths := authMap', inputs := inputMap', loads := s.loads[id := Finished(list, replies')])
  }

  // ----- The dialog

  class Dialog {
    var tradingLoadRequestId: nat
    var exchanges: seq<Exchange>
    var exchangeAuths: map<string, AuthRow>
    var exchangeInputFields: map<string, InputRow>
    var loads: map<nat, Load>

    constructor ()
      ensures Snapshot() == INITIAL
    {
      tradingLoadRequestId, exchanges, exchangeAuths, exchangeInputFields, loads := 0, [], map[], map[], map[];
    }

    function Snapshot(): State
      reads this
    {
      State(tradingLoadRequestId, exchanges, exchangeAuths, exchangeInputFields, loads)
    }

    /** A load effect fires: it takes the next number and asks for the exchanges. */
    method StartLoad() returns (requestId: nat)
      modifies this
      ensures Snapshot() == Step(old(Snapshot()), Start)
      ensures requestId == tradingLoadRequestId
    {
      tradingLoadRequestId := tradingLoadRequestId + 1;
      requestId := tradingLoadRequestId;
      loads := loads[requestId := Listing];
    }

    /** `loadExchanges` after its await; no list stands for a rejected call. */
    method FinishLoadExchanges(requestId: nat, list: Option<seq<Exchange>>)
      requires Enabled(Snapshot(), ListArrives(requestId, list))
      modifies this
      ensures Snapshot() == Step(old(Snapshot()), ListArrives(requestId, list))
    {
      var result := [];
      if requestId == tradingLoadRequestId {
        if list.Some? {
          exchanges := list.value;
          result := list.value;
        } else {
          exchanges := [];
          exchangeAuths := map[];
        }
      }
      loads := loads[requestId := Listed(result)];
    }

    /** `fetchExchangeAuths` up to its first await. */
    method BeginFetchExchangeAuths(requestId: nat)
      requires Enabled(Snapshot(), AskBegins(requestId))
      modifies this
      ensures Snapshot() == Step(old(Snapshot()), AskBegins(requestId))
    {
      var list := loads[requestId].list;
      if requestId != tradingLoadRequestId {
        loads := loads[requestId := Abandoned];
        return;
      }
      if |list| == 0 {
        exchangeAuths := map[];
        exchangeInputFields := map[];
        loads := loads[requestId := Finished([], [])];
        return;
      }
      loads := loads[requestId := Asking(list, [], map[], map[])];
    }

    /** `fetchExchangeAuths` from one await to the next, or to its end. */
    method ContinueFetchExchangeAuths(requestId: nat, reply: Reply)
      requires Enabled(Snapshot(), ReplyArrives(requestId, reply))
      modifies this
      ensures Snapshot() == Step(old(Snapshot()), ReplyArrives(requestId, reply))
    {
      var Asking(list, replies, authMap, nextInputFields) := loads[requestId];
      var exchange := list[|replies|];
      var auths, inputs := FillRows(exchange, reply);
      authMap := authMap[exchange.id := auths];
      nextInputFields := nextInputFields[exchange.id := inputs];
      replies := replies + [reply];
      if requestId != tradingLoadRequestId {
        loads := loads[requestId := Abandoned];
      } else if |replies| < |list| {
        loads := loads[requestId := Asking(list, replies, authMap, nextInputFields)];
      } else {
        exchangeAuths := authMap;
        exchangeInputFields := nextInputFields;
        loads := loads[requestId := Finished(list, replies)];
      }
    }
  }

  /** The loop over the authentication types of one exchange. */
  method FillRows(exchange: Exchange, reply: Reply) returns (auths: AuthRow, inputs: InputRow)
    ensures auths == AuthRowOf(exchange, reply, exchange.authTypes)
    ensures inputs == InputRowOf(exchange, reply, exchange.authTypes)
  {
    auths, inputs := map[], map[];
    var types := exchange.authTypes;
    for i := 0 to |types|
      invariant auths == AuthRowOf(exchange, reply, types[..i])
      invariant inputs == InputRowOf(exchange, reply, types[..i])
    {
      assert types[..i + 1][..i] == types[..i];
      var status := StatusFor(exchange, reply, types[i].id);
      auths := auths[types[i].id := status];
      inputs := inputs[types[i].id := InputsFor(status, types[i].fields)];
    }
    assert types[..|types|] == types;
  }

  // ----- Every run

  predicate Runs(s: State, events: seq<Event>)
    decreases |events|
  {
    events == [] || (Enabled(s, events[0]) && Runs(Step(s, events[0]), events[1..]))
  }

  function After(s: State, events: seq<Event>): State
    requires Runs(s, events)
    decreases |events|
  {
    if events == [] then s else After(Step(s, events[0]), events[1..])
  }

  function Ids(list: seq<Exchange>): set<string> {
    set i | 0 <= i < |list| :: list[i].id
  }

  /** What is shown is the data of the newest load, as far as that load has come. */
  ghost predicate ShowsNewest(s: State, load: Load) {
    match load
    case Listing => true
    case Listed(list) => s.exchanges == list
    case Asking(list, _, _, _) => s.exchanges == list
    case Finished(list, replies) =>
      && s.exchanges == list && |replies| == |list|
      && s.auths == Auths(list, replies) && s.inputs == Inputs(list, replies)
    case Abandoned => false
  }

  predicate Collects(load: Load) {
    load.Asking? ==>
      && |load.replies| < |load.list|
      && load.authMap == Auths(load.list, load.replies)
      && load.inputMap == Inputs(load.list, load.replies)
  }

  ghost predicate Inv(s: State) {
    && KnowsItsLoads(s)
    && AllCollect(s)
    && (s.newest > 0 ==> ShowsNewest(s, s.loads[s.newest]))
  }

  /** One more answer extends what a load has collected. */
  lemma OneMoreReply(load: Load, reply: Reply)
    requires load.Asking? && Collects(load)
    ensures var Asking(list, replies, authMap, inputMap) := load;
            var n := |replies|;
            && Auths(list, replies + [reply]) == authMap[list[n].id := AuthRowOf(list[n], reply, list[n].authTypes)]
            && Inputs(list, replies + [reply]) == inputMap[list[n].id := InputRowOf(list[n], reply, list[n].authTypes)]
  {
    assert (load.replies + [reply])[..|load.replies|] == load.replies;
  }

  lemma NoReplies(list: seq<Exchange>)
    ensures Auths(list, []) == map[] && Inputs(list, []) == map[]
  {
  }

  predicate AllCollect(s: State) {
    forall id :: id in s.loads ==> Collects(s.loads[id])
  }

  lemma StepKeepsCollecting(s: State, e: Event)
    requires AllCollect(s) && Enabled(s, e)
    ensures AllCollect(Step(s, e))
  {
    hide AuthRowOf, InputRowOf, Auths, Inputs;
    if e.AskBegins? {
      NoReplies(s.loads[e.id].list);
    }
    if e.ReplyArrives? {
      assert Collects(s.loads[e.id]);
      OneMoreReply(s.loads[e.id], e.reply);
    }
  }

  ghost predicate KnowsItsLoads(s: State) {
    forall id :: id in s.loads <==> 1 <= id <= s.newest
  }

  lemma StepKeepsLoads(s: State, e: Event)
    requires KnowsItsLoads(s) && Enabled(s, e)
    ensures KnowsItsLoads(Step(s, e))
  {
    hide AuthRowOf, InputRowOf;
  }

  lemma StepKeepsShown(s: State, e: Event)
    requires Inv(s) && Enabled(s, e)
    ensures var s' := Step(s, e); s'.newest > 0 ==> s'.newest in s'.loads && ShowsNewest(s', s'.loads[s'.newest])
  {
    hide AuthRowOf, InputRowOf, Auths, Inputs;
    StepKeepsLoads(s, e);
    NoReplies([]);
    if e.ReplyArrives? {
      assert Collects(s.loads[e.id]);
      OneMoreReply(s.loads[e.id], e.reply);
    }
  }

  lemma StepKeepsInv(s: State, e: Event)
    requires Inv(s) && Enabled(s, e)
    ensures Inv(Step(s, e))
  {
    hide ShowsNewest, Step, AllCollect;
    StepKeepsLoads(s, e);
    StepKeepsCollecting(s, e);
    StepKeepsShown(s, e);
  }

  /** Only the newest load ever writes what is shown; starting a load writes nothing. */
  lemma OnlyNewestWrites(s: State, e: Event)
    requires Enabled(s, e)
    requires e.Start? || e.id != s.newest
    ensures Shown(Step(s, e)) == Shown(s)
  {
  }

  /** At every moment of every run, whatever is shown was written by the load that is newest then. */
  lemma {:induction false} RunKeepsInv(s: State, events: seq<Event>)
    requires Inv(s) && Runs(s, events)
    ensures Inv(After(s, events))
    decreases |events|
  {
    if events != [] {
      StepKeepsInv(s, events[0]);
      RunKeepsInv(Step(s, events[0]), events[1..]);
    }
  }

  predicate Settled(s: State) {
    forall id :: id in s.loads ==> s.loads[id].Finished? || s.loads[id].Abandoned?
  }

  lemma {:induction false} RowKeys(list: seq<Exchange>, replies: seq<Reply>)
    requires |replies| <= |list|
    ensures Auths(list, replies).Keys == Inputs(list, replies).Keys == Ids(list[..|replies|])
    decreases |replies|
  {
    if replies != [] {
      var n := |replies| - 1;
      RowKeys(list, replies[..n]);
      assert list[..n + 1] == list[..n] + [list[n]];
      assert Ids(list[..n + 1]) == Ids(list[..n]) + {list[n].id} by {
        assert forall i :: 0 <= i < n ==> list[..n + 1][i] == list[..n][i];
        assert list[..n + 1][n] == list[n];
        forall id | id in Ids(list[..n]) ensures id in Ids(list[..n + 1]) {
          var i :| 0 <= i < n && list[..n][i].id == id;
          assert list[..n + 1][i].id == id;
        }
      }
    }
  }

  /** The exchanges that arrived for load `id`; a rejected call counts as none. */
  function ListFor(events: seq<Event>, id: nat): seq<Exchange> {
    if events == [] then []
    else if events[0].ListArrives? && events[0].id == id then
      if events[0].list.Some? then events[0].list.value else []
    else ListFor(events[1..], id)
  }

  /** The answers that arrived for load `id`, in order. */
  function RepliesFor(events: seq<Event>, id: nat): seq<Reply> {
    if events == [] then []
    else
      (if events[0].ReplyArrives? && events[0].id == id then [events[0].reply] else []) + RepliesFor(events[1..], id)
  }

  predicate HasAsked(s: State, id: nat) {
    id in s.loads && (s.loads[id].Asking? || s.loads[id].Finished?)
  }

  /** The load has got its list. */
  predicate HasList(s: State, id: nat) {
    id in s.loads && (s.loads[id].Listed? || HasAsked(s, id))
  }

  function RepliesOf(s: State, id: nat): seq<Reply> {
    if HasAsked(s, id) then s.loads[id].replies else []
  }

  /** What one event does to a load, the newest or not: a superseded one never asks again. */
  lemma StepRecordsReplies(s: State, e: Event, id: nat)
    requires Inv(s) && Enabled(s, e)
    ensures var s' := Step(s, e);
            && (id in s.loads && id < s.newest ==> id in s'.loads && id < s'.newest)
            && (id in s.loads && id < s.newest && !HasAsked(s, id) ==> !HasAsked(s', id))
            && (HasAsked(s', id) ==> RepliesOf(s', id) == RepliesOf(s, id) + RepliesFor([e], id))
            && (!HasAsked(s, id) ==> RepliesFor([e], id) == [])
  {
    hide AuthRowOf, InputRowOf, Auths, Inputs, AllCollect, ShowsNewest;
    assert RepliesFor([e], id) == if e.ReplyArrives? && e.id == id then [e.reply] + [] else [] + [];
  }

  /** A load keeps the list that arrived for it, unless it was superseded by then. */
  lemma StepRecordsList(s: State, e: Event, id: nat)
    requires Inv(s) && Enabled(s, e)
    ensures var s' := Step(s, e);
            && (HasList(s, id) ==> if HasList(s', id) then s'.loads[id].list == s.loads[id].list
                                   else id < s'.newest && id in s'.loads)
            && (!HasList(s, id) && HasList(s', id) ==>
                  e.ListArrives? && e.id == id && !HasAsked(s', id)
                  && (s'.loads[id].list == ListFor([e], id) || id < s'.newest))
            && (!HasList(s, id) && !HasList(s', id) && id !in s.loads ==> !(e.ListArrives? && e.id == id))
            && (!HasList(s, id) && id in s.loads && e.ListArrives? && e.id == id ==> HasList(s', id))
  {
    hide AuthRowOf, InputRowOf, Auths, Inputs, AllCollect;
  }

  lemma FirstEvent(events: seq<Event>, id: nat)
    requires events != []
    ensures RepliesFor(events, id) == RepliesFor([events[0]], id) + RepliesFor(events[1..], id)
    ensures ListFor(events, id) ==
            ListFor(if events[0].ListArrives? && events[0].id == id then [events[0]] else events[1..], id)
  {
  }

  /** A load that asks or has finished holds exactly the list and the answers that arrived for it. */
  lemma {:induction false} LoadsRecord(s: State, events: seq<Event>, id: nat)
    requires Inv(s) && Runs(s, events)
    ensures id in s.loads && id < s.newest && !HasAsked(s, id) ==> !HasAsked(After(s, events), id)
    ensures HasAsked(After(s, events), id) ==>
              var load := After(s, events).loads[id];
              && load.list == (if HasList(s, id) then s.loads[id].list else ListFor(events, id))
              && load.replies == RepliesOf(s, id) + RepliesFor(events, id)
    decreases |events|
  {
    if events != [] {
      hide Inv, Enabled, Step, ListFor, RepliesFor, HasAsked;
      var e, s' := events[0], Step(s, events[0]);
      StepKeepsInv(s, e);
      StepRecordsReplies(s, e, id);
      StepRecordsList(s, e, id);
      LoadsRecord(s', events[1..], id);
      FirstEvent(events, id);
      AppendAssociates(RepliesOf(s, id), RepliesFor([e], id), RepliesFor(events[1..], id));
    }
  }

  /**
   When every load of a run has come to its end, the dialog shows the newest one's answers, and
   nothing of the others: both maps have exactly the listed exchanges as their keys.
   */
  lemma SettledShowsNewest(events: seq<Event>)
    requires Runs(INITIAL, events)
    requires Settled(After(INITIAL, events)) && After(INITIAL, events).newest > 0
    ensures var s := After(INITIAL, events);
            && s.newest in s.loads && s.loads[s.newest].Finished?
            && var load := s.loads[s.newest];
            && load.list == ListFor(events, s.newest) && load.replies == RepliesFor(events, s.newest)
            && |load.replies| == |load.list|
            && Shown(s) == (load.list, Auths(load.list, load.replies), Inputs(load.list, load.replies))
            && s.auths.Keys == s.inputs.Keys == Ids(s.exchanges)
  {
    RunKeepsInv(INITIAL, events);
    var s := After(INITIAL, events);
    var load := s.loads[s.newest];
    RowKeys(load.list, load.replies);
    assert load.list[..|load.list|] == load.list;
    LoadsRecord(INITIAL, events, s.newest);
  }

  /** A superseded load writes nothing and stops at its next answer. */
  lemma SupersededStops(s: State, e: Event)
    requires Inv(s) && Enabled(s, e) && !e.Start? && e.id != s.newest
    ensures Shown(Step(s, e)) == Shown(s)
    ensures Step(s, e).loads[e.id].Abandoned? || Step(s, e).loads[e.id] == Listed([])
    ensures e.ListArrives? <==> Step(s, e).loads[e.id] == Listed([])
  {
  }
}
