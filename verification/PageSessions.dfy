/**
 The page-session tracker: sessions are opened and closed by navigation, visibility and the life of
 the component, and every closed one is reported. Each handler runs alone.
 */
module PageSessions {
  import opened Common

  datatype Session = Session(path: string, startTime: int, clickCount: nat, referrer: Option<string>)

  /** How a report left the page. A report the beacon refuses while the page goes away is dropped. */
  datatype Delivery = Beacon | Api | Dropped

  datatype Report = Report(path: string, referrer: Option<string>, durationMs: int, clickCount: nat, startedAt: int,
                           delivery: Delivery)

  /** The page the tracker lives in: its origin, and the referrer it was opened with. */
  datatype Page = Page(origin: string, documentReferrer: Option<string>)

  datatype Tracker = Tracker(mounted: bool, path: string, session: Option<Session>, lastPath: Option<string>,
                             reports: seq<Report>)

  const FRESH: Tracker := Tracker(false, "", None, None, [])

  datatype Kind =
    | Mount(path: string)
    | Change(path: string) // another path, or another user on the same one
    | Hide
    | Show
    | PageHide
    | Click
    | Unmount

  /** An event, the time on the clock, and whether the beacon would take a report now. */
  datatype Event = Event(kind: Kind, now: int, beacon: bool)

  predicate Enabled(t: Tracker, e: Event) {
    t.mounted <==> !e.kind.Mount?
  }

  function Flush(t: Tracker, now: int, beacon: bool, fallbackToApi: bool): Tracker {
    match t.session
    case None => t
    case Some(current) =>
      var delivery := if beacon then Beacon else if fallbackToApi then Api else Dropped;
      var report := Report(current.path, current.referrer, Max(0, now - current.startTime), current.clickCount,
                           current.startTime, delivery);
      t.(session := None, reports := t.reports + [report])
  }

  function Start(t: Tracker, page: Page, path: string, now: int): Tracker {
    var referrer := if t.lastPath.Some? && t.lastPath.value != "" then Some(page.origin + t.lastPath.value)
                    else page.documentReferrer;
    t.(session := Some(Session(path, now, 0, referrer)), lastPath := Some(path))
  }

  function Step(t: Tracker, page: Page, e: Event): Tracker
    requires Enabled(t, e)
  {
    match e.kind
    case Mount(path) => Start(t.(mounted := true, path := path, session := None, lastPath := None), page, path, e.now)
    case Change(path) => Start(Flush(t, e.now, e.beacon, true).(path := path), page, path, e.now)
    case Hide => Flush(t, e.now, e.beacon, false)
    case Show => if t.session.None? then Start(t, page, t.path, e.now) else t
    case PageHide => Flush(t, e.now, e.beacon, false)
    case Click =>
      if t.session.None? then t
      else t.(session := Some(t.session.value.(clickCount := t.session.value.clickCount + 1)))
    case Unmount => Flush(t, e.now, e.beacon, true).(mounted := false)
  }

  class AnalyticsTracker {
    const page: Page
    var mounted: bool
    var path: string
    var session: Option<Session>
    var lastPath: Option<string>
    var reports: seq<Report>

    constructor (page: Page)
      ensures this.page == page && Snapshot() == FRESH
    {
      this.page := page;
      mounted, path, session, lastPath, reports := false, "", None, None, [];
    }

    function Snapshot(): Tracker
      reads this
    {
      Tracker(mounted, path, session, lastPath, reports)
    }

    method FlushSession(now: int, beacon: bool, fallbackToApi: bool)
      modifies this
      ensures Snapshot() == Flush(old(Snapshot()), now, beacon, fallbackToApi)
    {
      if session.None? {
        return;
      }
      var current := session.value;
      var durationMs := if now - current.startTime > 0 then now - current.startTime else 0;
      var sent := beacon;
      var delivery := Dropped;
      if sent {
        delivery := Beacon;
      } else if fallbackToApi {
        delivery := Api;
      }
      reports := reports + [Report(current.path, current.referrer, durationMs, current.clickCount, current.startTime,
                                   delivery)];
      session := None;
    }

    method StartSession(newPath: string, now: int)
      modifies this
      ensures Snapshot() == Start(old(Snapshot()), page, newPath, now)
    {
      var referrer := page.documentReferrer;
      if lastPath.Some? && lastPath.value != "" {
        referrer := Some(page.origin + lastPath.value);
      }
      session := Some(Session(newPath, now, 0, referrer));
      lastPath := Some(newPath);
    }

    method Handle(e: Event)
      requires Enabled(Snapshot(), e)
      modifies this
      ensures Snapshot() == Step(old(Snapshot()), page, e)
    {
      match e.kind
      case Mount(p) =>
        mounted, path, session, lastPath := true, p, None, None;
        StartSession(p, e.now);
      case Change(p) =>
        FlushSession(e.now, e.beacon, true);
        path := p;
        StartSession(p, e.now);
      case Hide =>
        FlushSession(e.now, e.beacon, false);
      case Show =>
        if session.None? {
          StartSession(path, e.now);
        }
      case PageHide =>
        FlushSession(e.now, e.beacon, false);
      case Click =>
        if session.Some? {
          session := Some(session.value.(clickCount := session.value.clickCount + 1));
        }
      case Unmount =>
        FlushSession(e.now, e.beacon, true);
        mounted := false;
    }
  }

  // ----- Runs

  /** Events that can happen one after the other, on a clock that does not run backwards. */
  predicate Runs(t: Tracker, page: Page, since: int, events: seq<Event>)
    decreases |events|
  {
    events != [] ==>
      && Enabled(t, events[0]) && since <= events[0].now
      && Runs(Step(t, page, events[0]), page, events[0].now, events[1..])
  }

  function After(t: Tracker, page: Page, since: int, events: seq<Event>): Tracker
    requires Runs(t, page, since, events)
    decreases |events|
  {
    if events == [] then t else After(Step(t, page, events[0]), page, events[0].now, events[1..])
  }

  function LastTime(since: int, events: seq<Event>): int {
    if events == [] then since else events[|events| - 1].now
  }

  /** The event opens a session. */
  predicate Opens(t: Tracker, e: Event) {
    e.kind.Mount? || e.kind.Change? || (e.kind.Show? && t.session.None?)
  }

  /** The event ends the session that is open. */
  predicate Closes(e: Event) {
    e.kind.Change? || e.kind.Hide? || e.kind.PageHide? || e.kind.Unmount?
  }

  // ----- What happened, told by the events alone

  /** One visit to a page: where it began and from where, the clicks it saw, and how it ended if it did. */
  datatype Visit = Visit(path: string, referrer: Option<string>, start: int, clicks: nat, ending: Option<Ending>)

  datatype Ending = Ending(at: int, delivery: Delivery)

  /** The path of the page and of the visit before, if any, since the component was mounted. */
  datatype Diary = Diary(path: string, previous: Option<string>, visits: seq<Visit>)

  predicate IsOpen(visits: seq<Visit>) {
    visits != [] && visits[|visits| - 1].ending.None?
  }

  function Referrer(page: Page, previous: Option<string>): Option<string> {
    match previous
    case None => page.documentReferrer
    case Some(path) => if path == "" then page.documentReferrer else Some(page.origin + path)
  }

  /** How a report that ends a visit leaves: the beacon first; the fallback exists unless the page goes away. */
  function DeliveryOf(e: Event): Delivery {
    if e.beacon then Beacon else if e.kind.Hide? || e.kind.PageHide? then Dropped else Api
  }

  /** The last visit ends now, if it is open. */
  function Ended(visits: seq<Visit>, e: Event): seq<Visit> {
    if !IsOpen(visits) then visits
    else
      var last := |visits| - 1;
      visits[last := visits[last].(ending := Some(Ending(e.now, DeliveryOf(e))))]
  }

  function Clicked(visits: seq<Visit>): seq<Visit> {
    if !IsOpen(visits) then visits
    else
      var last := |visits| - 1;
      visits[last := visits[last].(clicks := visits[last].clicks + 1)]
  }

  /** What an event adds to the diary, without sessions, references or reports. */
  function Noted(d: Diary, page: Page, e: Event): Diary {
    var path := if e.kind.Mount? || e.kind.Change? then e.kind.path else d.path;
    var previous := if e.kind.Mount? then None else d.previous;
    var visits := if Closes(e) then Ended(d.visits, e) else if e.kind.Click? then Clicked(d.visits) else d.visits;
    var opens := e.kind.Mount? || e.kind.Change? || (e.kind.Show? && !IsOpen(visits));
    if opens then Diary(path, Some(path), visits + [Visit(path, Referrer(page, previous), e.now, 0, None)])
    else Diary(path, previous, visits)
  }

  function Notes(d: Diary, page: Page, events: seq<Event>): Diary
    decreases |events|
  {
    if events == [] then d else Notes(Noted(d, page, events[0]), page, events[1..])
  }

  const BLANK: Diary := Diary("", None, [])

  // ----- Reports and visits

  /** The report of an ended visit. */
  function ReportOf(visit: Visit): Report
    requires visit.ending.Some?
  {
    Report(visit.path, visit.referrer, Max(0, visit.ending.value.at - visit.start), visit.clicks, visit.start,
           visit.ending.value.delivery)
  }

  /** The report for visit `i` is the `i`th, and the visit still open, which can only be the last, is the session. */
  predicate Tells(t: Tracker, d: Diary) {
    var ended := if IsOpen(d.visits) then |d.visits| - 1 else |d.visits|;
    && t.path == d.path && t.lastPath == d.previous
    && (t.session.Some? <==> IsOpen(d.visits))
    && (t.session.Some? ==> t.mounted && IsSession(t.session.value, d.visits[|d.visits| - 1]))
    && |t.reports| == ended
    && (forall i :: 0 <= i < ended ==> d.visits[i].ending.Some? && t.reports[i] == ReportOf(d.visits[i]))
  }

  predicate IsSession(session: Session, visit: Visit) {
    session == Session(visit.path, visit.start, visit.clicks, visit.referrer)
  }

  lemma FlushTells(t: Tracker, d: Diary, e: Event)
    requires Tells(t, d)
    ensures Tells(Flush(t, e.now, e.beacon, !e.kind.Hide? && !e.kind.PageHide?), d.(visits := Ended(d.visits, e)))
    ensures !IsOpen(Ended(d.visits, e))
  {
  }

  lemma StartTells(t: Tracker, d: Diary, page: Page, path: string, now: int)
    requires Tells(t, d) && !IsOpen(d.visits) && t.mounted && t.path == path
    ensures Tells(Start(t, page, path, now),
                  Diary(path, Some(path), d.visits + [Visit(path, Referrer(page, d.previous), now, 0, None)]))
  {
  }

  lemma ClickTells(t: Tracker, d: Diary, page: Page, e: Event)
    requires Enabled(t, e) && Tells(t, d) && e.kind.Click?
    ensures Tells(Step(t, page, e), d.(visits := Clicked(d.visits)))
  {
  }

  lemma StepTells(t: Tracker, d: Diary, page: Page, e: Event)
    requires Enabled(t, e) && Tells(t, d)
    ensures Tells(Step(t, page, e), Noted(d, page, e))
  {
    match e.kind
    case Mount(path) =>
      StartTells(t.(mounted := true, path := path, lastPath := None), d.(path := path, previous := None), page, path,
                 e.now);
    case Change(path) =>
      FlushTells(t, d, e);
      StartTells(Flush(t, e.now, e.beacon, true).(path := path), Diary(path, d.previous, Ended(d.visits, e)), page,
                 path, e.now);
    case Show =>
      if t.session.None? {
        StartTells(t, d, page, t.path, e.now);
      }
    case Click => ClickTells(t, d, page, e);
    case _ => FlushTells(t, d, e);
  }

  /** The clicks that found a session open. */
  function Counted(t: Tracker, page: Page, since: int, events: seq<Event>): nat
    requires Runs(t, page, since, events)
    decreases |events|
  {
    if events == [] then 0
    else
      (if events[0].kind.Click? && t.session.Some? then 1 else 0)
      + Counted(Step(t, page, events[0]), page, events[0].now, events[1..])
  }

  // ----- What reports add up to

  function Live(t: Tracker): nat {
    if t.session.Some? then 1 else 0
  }

  function LiveClicks(t: Tracker): nat {
    if t.session.Some? then t.session.value.clickCount else 0
  }

  function Clicks(reports: seq<Report>): nat {
    if reports == [] then 0 else Clicks(reports[..|reports| - 1]) + reports[|reports| - 1].clickCount
  }

  function Durations(reports: seq<Report>): int {
    if reports == [] then 0 else Durations(reports[..|reports| - 1]) + reports[|reports| - 1].durationMs
  }

  function End(report: Report): int {
    report.startedAt + report.durationMs
  }

  /** Reported intervals follow each other, from `begin` on, up to the open session or to now. */
  ghost predicate InOrder(reports: seq<Report>, session: Option<Session>, begin: int, now: int) {
    var limit := if session.Some? then session.value.startTime else now;
    && begin <= limit <= now
    && (forall i :: 0 <= i < |reports| ==> begin <= reports[i].startedAt <= End(reports[i]) <= limit)
    && (forall i, j :: 0 <= i < j < |reports| ==> End(reports[i]) <= reports[j].startedAt)
    && Durations(reports) <= limit - begin
  }

  ghost predicate Inv(t: Tracker, begin: int, now: int) {
    && InOrder(t.reports, t.session, begin, now)
    && (t.session.Some? ==> t.mounted && t.lastPath == Some(t.session.value.path) && t.session.value.path == t.path)
  }

  lemma OneMoreReport(reports: seq<Report>, report: Report)
    ensures Clicks(reports + [report]) == Clicks(reports) + report.clickCount
    ensures Durations(reports + [report]) == Durations(reports) + report.durationMs
  {
    assert (reports + [report])[..|reports|] == reports;
  }

  lemma FlushKeeps(t: Tracker, begin: int, since: int, now: int, beacon: bool, fallbackToApi: bool)
    requires InOrder(t.reports, t.session, begin, since) && since <= now
    ensures var u := Flush(t, now, beacon, fallbackToApi);
            && InOrder(u.reports, None, begin, now) && u.session.None?
            && |u.reports| == |t.reports| + Live(t)
            && Clicks(u.reports) == Clicks(t.reports) + LiveClicks(t)
            && u.mounted == t.mounted && u.path == t.path && u.lastPath == t.lastPath
  {
    if t.session.Some? {
      OneMoreReport(t.reports, Flush(t, now, beacon, fallbackToApi).reports[|t.reports|]);
    }
  }

  lemma LaterKeeps(reports: seq<Report>, session: Option<Session>, begin: int, since: int, now: int)
    requires InOrder(reports, session, begin, since) && since <= now
    ensures InOrder(reports, session, begin, now)
  {
  }

  /** Opening a session now, or counting a click in the open one, leaves the intervals as they are. */
  lemma SessionKeeps(reports: seq<Report>, before: Option<Session>, after: Session, begin: int, now: int)
    requires InOrder(reports, before, begin, now)
    requires after.startTime == (if before.Some? then before.value.startTime else now)
    ensures InOrder(reports, Some(after), begin, now)
  {
  }

  /** What one event leaves: the invariant, and one more counted click where there was one. */
  ghost predicate Kept(t: Tracker, u: Tracker, begin: int, e: Event) {
    && Inv(u, begin, e.now)
    && Clicks(u.reports) + LiveClicks(u) ==
       Clicks(t.reports) + LiveClicks(t) + (if e.kind.Click? && t.session.Some? then 1 else 0)
  }

  lemma OpeningKeeps(t: Tracker, page: Page, begin: int, since: int, e: Event)
    requires Inv(t, begin, since) && Enabled(t, e) && since <= e.now && Opens(t, e)
    ensures Kept(t, Step(t, page, e), begin, e)
  {
    FlushKeeps(t, begin, since, e.now, e.beacon, true);
    hide InOrder, Clicks, Flush;
    var u := Step(t, page, e);
    SessionKeeps(u.reports, None, u.session.value, begin, e.now);
  }

  lemma ClosingKeeps(t: Tracker, page: Page, begin: int, since: int, e: Event)
    requires Inv(t, begin, since) && Enabled(t, e) && since <= e.now
    requires e.kind.Hide? || e.kind.PageHide? || e.kind.Unmount?
    ensures Kept(t, Step(t, page, e), begin, e)
  {
    FlushKeeps(t, begin, since, e.now, e.beacon, e.kind.Unmount?);
    hide InOrder, Clicks, Flush;
  }

  lemma StepKeeps(t: Tracker, page: Page, begin: int, since: int, e: Event)
    requires Inv(t, begin, since) && Enabled(t, e) && since <= e.now
    ensures Kept(t, Step(t, page, e), begin, e)
  {
    if Opens(t, e) {
      OpeningKeeps(t, page, begin, since, e);
    } else if e.kind.Hide? || e.kind.PageHide? || e.kind.Unmount? {
      ClosingKeeps(t, page, begin, since, e);
    } else {
      LaterKeeps(t.reports, t.session, begin, since, e.now);
      if e.kind.Click? && t.session.Some? {
        SessionKeeps(t.reports, t.session, Step(t, page, e).session.value, begin, e.now);
      }
    }
  }

  /** A session is only ever opened when none is open: what a new one would replace has just been reported. */
  lemma OpenedOnlyWhenNone(t: Tracker, page: Page, e: Event)
    requires Enabled(t, e) && (t.session.Some? ==> t.mounted) && Opens(t, e)
    ensures var u := Step(t, page, e);
            && u.session.Some? && u.session.value.startTime == e.now && u.session.value.clickCount == 0
            && |u.reports| == |t.reports| + Live(t)
            && (t.session.Some? ==> var r := u.reports[|t.reports|];
                                    r.path == t.session.value.path && r.startedAt == t.session.value.startTime
                                    && r.clickCount == t.session.value.clickCount && r.delivery != Dropped)
  {
  }

  /**
   Over any run, reported intervals do not overlap and together last no longer than the run, and the
   clicks that found a session open are those reported and those of the open session.
   */
  lemma {:induction false} RunAccounts(t: Tracker, page: Page, begin: int, since: int, events: seq<Event>)
    requires Inv(t, begin, since) && Runs(t, page, since, events)
    ensures var u := After(t, page, since, events);
            && Inv(u, begin, LastTime(since, events))
            && Clicks(u.reports) + LiveClicks(u) == Clicks(t.reports) + LiveClicks(t) + Counted(t, page, since, events)
    decreases |events|
  {
    if events != [] {
      hide Inv, Step;
      StepKeeps(t, page, begin, since, events[0]);
      RunAccounts(Step(t, page, events[0]), page, begin, events[0].now, events[1..]);
      assert LastTime(since, events) == LastTime(events[0].now, events[1..]);
    }
  }

  function ClickEvents(events: seq<Event>): nat {
    if events == [] then 0 else (if events[0].kind.Click? then 1 else 0) + ClickEvents(events[1..])
  }

  lemma {:induction false} CountedAtMost(t: Tracker, page: Page, since: int, events: seq<Event>)
    requires Runs(t, page, since, events)
    ensures Counted(t, page, since, events) <= ClickEvents(events)
    decreases |events|
  {
    if events != [] {
      CountedAtMost(Step(t, page, events[0]), page, events[0].now, events[1..]);
    }
  }

  /** On a clock that does not run backwards, no visit ends before it starts. */
  predicate Timely(visits: seq<Visit>, now: int) {
    forall i :: 0 <= i < |visits| ==>
                  visits[i].start <= now && (visits[i].ending.Some? ==> visits[i].start <= visits[i].ending.value.at)
  }

  lemma {:induction false} RunTells(t: Tracker, d: Diary, page: Page, since: int, events: seq<Event>)
    requires Tells(t, d) && Timely(d.visits, since) && Runs(t, page, since, events)
    ensures Tells(After(t, page, since, events), Notes(d, page, events))
    ensures Timely(Notes(d, page, events).visits, LastTime(since, events))
    decreases |events|
  {
    hide Tells, Step;
    if events != [] {
      StepTells(t, d, page, events[0]);
      RunTells(Step(t, page, events[0]), Noted(d, page, events[0]), page, events[0].now, events[1..]);
      assert LastTime(since, events) == LastTime(events[0].now, events[1..]);
    }
  }

  /**
   The whole life of a tracker, from before it is first mounted. The reports are those of the visits
   in the diary of the events, one each and in order, each from the start to the end of its visit;
   the visit still open is the session. The intervals are disjoint and within the life.
   */
  lemma LifeAccounts(page: Page, begin: int, events: seq<Event>)
    requires Runs(FRESH, page, begin, events)
    ensures var t, d := After(FRESH, page, begin, events), Notes(BLANK, page, events);
            && Tells(t, d)
            && |t.reports| + Live(t) == |d.visits|
            && (forall i :: 0 <= i < |t.reports| ==> End(t.reports[i]) == d.visits[i].ending.value.at)
            && (forall i, j :: 0 <= i < j < |t.reports| ==> End(t.reports[i]) <= t.reports[j].startedAt)
            && (forall i :: 0 <= i < |t.reports| ==>
                              begin <= t.reports[i].startedAt <= End(t.reports[i]) <= LastTime(begin, events))
            && Durations(t.reports) <= LastTime(begin, events) - begin
            && Clicks(t.reports) + LiveClicks(t) == Counted(FRESH, page, begin, events) <= ClickEvents(events)
  {
    RunTells(FRESH, BLANK, page, begin, events);
    RunAccounts(FRESH, page, begin, begin, events);
    CountedAtMost(FRESH, page, begin, events);
  }
}
