/** The append-only audit log, its keyset pages, and walks over a log that may grow meanwhile. */
module AuditLog {
  import opened Wrappers
  import opened Ordering
  import opened Database

  type EventId = nat

  datatype Scope = System | Space(id: nat)

  // An event with its key; what it records does not matter to paging.
  datatype LoggedEvent = LoggedEvent(id: EventId, scope: Scope, occurredAt: int, event: AuditEvent)

  type Log = map<EventId, LoggedEvent>

  predicate WellKeyed(log: Log) {
    forall id :: id in log ==> log[id].id == id
  }

  // A place in the log: a time, and an event id among events of the same time.
  datatype Cursor = Cursor(occurredAt: int, eventId: EventId)

  predicate Newer(a: Cursor, b: Cursor) {
    a.occurredAt > b.occurredAt || (a.occurredAt == b.occurredAt && a.eventId > b.eventId)
  }

  function Place(e: LoggedEvent): Cursor {
    Cursor(e.occurredAt, e.id)
  }

  predicate Below(place: Cursor, cursor: Option<Cursor>) {
    cursor.Some? ==> Newer(cursor.value, place)
  }

  // The places of the events of a scope below a cursor.
  function Selected(log: Log, scope: Scope, cursor: Option<Cursor>): set<Cursor> {
    set id | id in log && log[id].scope == scope && Below(Place(log[id]), cursor) :: Place(log[id])
  }

  function Prefix<T>(list: seq<T>, n: nat): seq<T> {
    if n <= |list| then list[..n] else list
  }

  // What the repository reads: the places of one page, newest first, and whether there are more.
  datatype Slice = Slice(places: seq<Cursor>, more: bool)

  function SliceOf(records: seq<Cursor>, limit: nat): Slice {
    Slice(Prefix(records, limit), |records| > limit)
  }

  // One record more than the limit is read.
  ghost function Read(log: Log, scope: Scope, limit: nat, cursor: Option<Cursor>): Slice {
    SliceOf(Prefix(Listed(Selected(log, scope, cursor), Newer), limit + 1), limit)
  }

  datatype AuditPage = AuditPage(events: seq<LoggedEvent>, next: Option<Cursor>)

  predicate AllLogged(log: Log, places: seq<Cursor>) {
    forall p :: p in places ==> p.eventId in log
  }

  function EventsAt(log: Log, places: seq<Cursor>): (events: seq<LoggedEvent>)
    requires AllLogged(log, places)
  {
    seq(|places|, i requires 0 <= i < |places| => assert places[i] in places; log[places[i].eventId])
  }

  function PageOf(log: Log, slice: Slice): AuditPage
    requires AllLogged(log, slice.places)
  {
    var events := EventsAt(log, slice.places);
    AuditPage(events, if slice.more && events != [] then Some(Place(events[|events| - 1])) else None)
  }

  ghost function Page(log: Log, scope: Scope, limit: nat, cursor: Option<Cursor>): AuditPage
    requires WellKeyed(log)
  {
    ReadIsLogged(log, scope, limit, cursor);
    PageOf(log, Read(log, scope, limit, cursor))
  }

  lemma ReadIsLogged(log: Log, scope: Scope, limit: nat, cursor: Option<Cursor>)
    requires WellKeyed(log)
    ensures AllLogged(log, Read(log, scope, limit, cursor).places)
    ensures forall p :: p in Read(log, scope, limit, cursor).places ==> p in Selected(log, scope, cursor)
  {
    var all := Listed(Selected(log, scope, cursor), Newer);
    forall p | p in Read(log, scope, limit, cursor).places
      ensures p in Selected(log, scope, cursor) && p.eventId in log
    {
      assert p in all;
    }
  }

  // The events of a scope below a cursor.
  predicate Due(log: Log, scope: Scope, cursor: Option<Cursor>, e: LoggedEvent) {
    e.id in log && log[e.id] == e && e.scope == scope && Below(Place(e), cursor)
  }

  ghost predicate Descending(events: seq<LoggedEvent>) {
    forall i, j :: 0 <= i < j < |events| ==> Newer(Place(events[i]), Place(events[j]))
  }

  ghost function AllPlaces(log: Log, scope: Scope, cursor: Option<Cursor>): seq<Cursor> {
    Listed(Selected(log, scope, cursor), Newer)
  }

  lemma PageShape(log: Log, scope: Scope, limit: nat, cursor: Option<Cursor>)
    requires WellKeyed(log) && limit >= 1
    ensures var page, all := Page(log, scope, limit, cursor), AllPlaces(log, scope, cursor);
            && |page.events| == (if |all| > limit then limit else |all|)
            && (forall i :: 0 <= i < |page.events| ==> all[i].eventId in log && page.events[i] == log[all[i].eventId])
            && page.next == (if |all| > limit then Some(Place(page.events[limit - 1])) else None)
  {
    hide Selected, WellKeyed;
    var all := AllPlaces(log, scope, cursor);
    assert Read(log, scope, limit, cursor) == Slice(Prefix(all, limit), |all| > limit) by {
      hide AllLogged;
    }
    ReadIsLogged(log, scope, limit, cursor);
  }

  lemma PlacesMean(log: Log, scope: Scope, cursor: Option<Cursor>)
    requires WellKeyed(log)
    ensures Increasing(AllPlaces(log, scope, cursor), Newer)
    ensures forall p :: p in AllPlaces(log, scope, cursor) ==>
              p.eventId in log && p == Place(log[p.eventId]) && Due(log, scope, cursor, log[p.eventId])
    ensures forall e :: Due(log, scope, cursor, e) ==> Place(e) in AllPlaces(log, scope, cursor)
  {
    var all := AllPlaces(log, scope, cursor);
    forall e | Due(log, scope, cursor, e) ensures Place(e) in all {
      assert Place(e) in Selected(log, scope, cursor);
    }
  }

  /**
   One page: due events in descending order, all of them or as many as asked for, and then a cursor above the rest.
   */
  lemma PageMeans(log: Log, scope: Scope, limit: nat, cursor: Option<Cursor>)
    requires WellKeyed(log) && limit >= 1
    ensures var page := Page(log, scope, limit, cursor);
            && Descending(page.events)
            && |page.events| <= limit
            && (forall e :: e in page.events ==> Due(log, scope, cursor, e))
            && (page.next.None? ==> forall e :: Due(log, scope, cursor, e) ==> e in page.events)
            && (page.next.Some? ==> |page.events| == limit && page.next.value == Place(page.events[limit - 1]))
            && (page.next.Some? ==> forall e :: Due(log, scope, cursor, e) ==>
                  e in page.events || Newer(page.next.value, Place(e)))
  {
    hide Page, AllPlaces, Due, Newer;
    var page, all := Page(log, scope, limit, cursor), AllPlaces(log, scope, cursor);
    PageShape(log, scope, limit, cursor);
    PlacesMean(log, scope, cursor);
    forall i | 0 <= i < |page.events|
      ensures Place(page.events[i]) == all[i] && Due(log, scope, cursor, page.events[i])
    {
      assert all[i] in all;
    }
    forall e | Due(log, scope, cursor, e)
      ensures e in page.events || (page.next.Some? && Newer(page.next.value, Place(e)))
    {
      assert Place(e) in all;
      var k :| 0 <= k < |all| && all[k] == Place(e);
      DueIsLogged(log, scope, cursor, e);
      if k < |page.events| {
        assert page.events[k] == e;
      }
    }
  }

  lemma DueIsLogged(log: Log, scope: Scope, cursor: Option<Cursor>, e: LoggedEvent)
    requires Due(log, scope, cursor, e)
    ensures e.id in log && log[e.id] == e
  {
  }

  // A walk by next cursor, each visit at its own limit and on the log as it is by then

  datatype Visit = Visit(log: Log, limit: nat)

  datatype Walked = Walked(events: seq<LoggedEvent>, ended: bool)

  predicate Extends(log: Log, later: Log) {
    forall id :: id in log ==> id in later && later[id] == log[id]
  }

  // Events are only ever appended, and limits are those the service accepts.
  ghost predicate Visits(visits: seq<Visit>) {
    && (forall i :: 0 <= i < |visits| ==> WellKeyed(visits[i].log) && LimitOk(visits[i].limit))
    && (forall i, j :: 0 <= i < j < |visits| ==> Extends(visits[i].log, visits[j].log))
  }

  predicate LimitOk(limit: int) {
    1 <= limit <= 200
  }

  ghost function Walk(visits: seq<Visit>, scope: Scope, cursor: Option<Cursor>): Walked
    requires Visits(visits)
    decreases |visits|
  {
    if visits == [] then Walked([], false)
    else
      var page := Page(visits[0].log, scope, visits[0].limit, cursor);
      if page.next.None? then Walked(page.events, true)
      else
        var rest := Walk(visits[1..], scope, page.next);
        Walked(page.events + rest.events, rest.ended)
  }

  lemma DescendingJoin(a: seq<LoggedEvent>, b: seq<LoggedEvent>)
    requires Descending(a) && Descending(b) && a != []
    requires forall e :: e in b ==> Newer(Place(a[|a| - 1]), Place(e))
    ensures Descending(a + b)
  {
    forall i, j | 0 <= i < j < |a + b| ensures Newer(Place((a + b)[i]), Place((a + b)[j])) {
      if i < |a| <= j {
        assert b[j - |a|] in b;
        assert i == |a| - 1 || Newer(Place(a[i]), Place(a[|a| - 1]));
      }
    }
  }

  lemma BelowNext(log: Log, later: Log, scope: Scope, cursor: Option<Cursor>, next: Cursor, e: LoggedEvent)
    requires Below(next, cursor) && Extends(log, later)
    ensures Due(later, scope, Some(next), e) ==> Due(later, scope, cursor, e)
    ensures Due(log, scope, cursor, e) && Newer(next, Place(e)) ==> Due(later, scope, Some(next), e)
  {
  }

  /**
   However the log grows during a walk, its events come in strictly descending order of time and id, so that none is
   repeated; each is a logged event of the scope below the cursor it began at.
   */
  lemma {:induction false} WalkDescends(visits: seq<Visit>, scope: Scope, cursor: Option<Cursor>)
    requires Visits(visits) && visits != []
    ensures Descending(Walk(visits, scope, cursor).events)
    ensures forall e :: e in Walk(visits, scope, cursor).events ==> Due(visits[|visits| - 1].log, scope, cursor, e)
    decreases |visits|
  {
    hide Page;
    var log, last := visits[0].log, visits[|visits| - 1].log;
    var page := Page(log, scope, visits[0].limit, cursor);
    PageMeans(log, scope, visits[0].limit, cursor);
    if page.next.Some? && |visits| > 1 {
      var rest := visits[1..];
      var walked := Walk(rest, scope, page.next);
      WalkDescends(rest, scope, page.next);
      assert rest[|rest| - 1] == visits[|visits| - 1];
      assert page.events[|page.events| - 1] in page.events;
      DescendingJoin(page.events, walked.events);
      forall e | e in walked.events ensures Due(last, scope, cursor, e) {
        BelowNext(last, last, scope, cursor, page.next.value, e);
      }
    }
  }

  /** A walk that has ended has returned every event that was due when it began. */
  lemma {:induction false} WalkIsComplete(visits: seq<Visit>, scope: Scope, cursor: Option<Cursor>, e: LoggedEvent)
    requires Visits(visits) && visits != [] && Walk(visits, scope, cursor).ended
    requires Due(visits[0].log, scope, cursor, e)
    ensures e in Walk(visits, scope, cursor).events
    decreases |visits|
  {
    hide Page;
    var log := visits[0].log;
    var page := Page(log, scope, visits[0].limit, cursor);
    PageMeans(log, scope, visits[0].limit, cursor);
    if page.next.Some? && e !in page.events {
      var rest := visits[1..];
      assert rest != [] && rest[0] == visits[1];
      assert page.events[|page.events| - 1] in page.events;
      BelowNext(log, rest[0].log, scope, cursor, page.next.value, e);
      WalkIsComplete(rest, scope, page.next, e);
    }
  }

  lemma {:induction false} EveryVisitReturnsEvents(visits: seq<Visit>, scope: Scope, cursor: Option<Cursor>)
    requires Visits(visits) && !Walk(visits, scope, cursor).ended
    ensures |Walk(visits, scope, cursor).events| >= |visits|
    decreases |visits|
  {
    hide Page;
    if visits != [] {
      var page := Page(visits[0].log, scope, visits[0].limit, cursor);
      PageMeans(visits[0].log, scope, visits[0].limit, cursor);
      EveryVisitReturnsEvents(visits[1..], scope, page.next);
    }
  }

  lemma {:induction false} DistinctEvents(events: seq<LoggedEvent>, log: Log)
    requires Descending(events) && forall e :: e in events ==> e.id in log
    requires WellKeyed(log) && forall e :: e in events ==> log[e.id] == e
    ensures |events| <= |log|
  {
    var ids := set e | e in events :: e.id;
    IdsCount(events);
    assert ids <= log.Keys;
    SubsetSize(ids, log.Keys);
    assert |log.Keys| == |log|;
  }

  lemma {:induction false} IdsCount(events: seq<LoggedEvent>)
    requires forall i, j :: 0 <= i < j < |events| ==> events[i].id != events[j].id
    ensures |set e | e in events :: e.id| == |events|
  {
    if events != [] {
      var n := |events| - 1;
      var before := set e | e in events[..n] :: e.id;
      IdsCount(events[..n]);
      assert events == events[..n] + [events[n]];
      assert events[n].id !in before;
      assert (set e | e in events :: e.id) == before + {events[n].id};
    }
  }

  /** A walk makes no more visits than the log has events, so that it ends once appends stop. */
  lemma WalkEnds(visits: seq<Visit>, scope: Scope, cursor: Option<Cursor>)
    requires Visits(visits) && visits != [] && |visits| > |visits[|visits| - 1].log|
    ensures Walk(visits, scope, cursor).ended
  {
    hide Walk;
    if !Walk(visits, scope, cursor).ended {
      EveryVisitReturnsEvents(visits, scope, cursor);
      WalkDescends(visits, scope, cursor);
      DistinctEvents(Walk(visits, scope, cursor).events, visits[|visits| - 1].log);
    }
  }

  /** Every event present when a walk began is returned exactly once by the time it ends. */
  lemma WalkReturnsEachOnce(visits: seq<Visit>, scope: Scope, e: LoggedEvent)
    requires Visits(visits) && visits != [] && Walk(visits, scope, None).ended
    requires e.id in visits[0].log && visits[0].log[e.id] == e && e.scope == scope
    ensures var events := Walk(visits, scope, None).events;
            exists i :: 0 <= i < |events| && events[i] == e && forall j ::
              0 <= j < |events| && j != i ==> events[j].id != e.id
  {
    hide Walk;
    var events := Walk(visits, scope, None).events;
    WalkIsComplete(visits, scope, None, e);
    WalkDescends(visits, scope, None);
    var last := visits[|visits| - 1].log;
    var i :| 0 <= i < |events| && events[i] == e;
    forall j | 0 <= j < |events| && j != i ensures events[j].id != e.id {
      assert Due(last, scope, None, events[j]) && Due(last, scope, None, e) by { assert events[j] in events; }
      assert Newer(Place(events[j]), Place(events[i])) || Newer(Place(events[i]), Place(events[j]));
    }
  }

  // The repository and the query service

  datatype Answer = Answered(page: AuditPage) | LimitOutOfRange

  class AuditRepository {
    var log: Log

    constructor ()
      ensures log == map[]
    {
      log := map[];
    }

    // Adds a row; the primary key refuses an id that is taken.
    method Append(event: LoggedEvent) returns (r: Result<()>)
      requires WellKeyed(log)
      modifies this
      ensures WellKeyed(log) && Extends(old(log), log)
      ensures r.Ok? <==> event.id !in old(log)
      ensures log == if r.Ok? then old(log)[event.id := event] else old(log)
    {
      if event.id in log {
        return Err(IntegrityViolation);
      }
      log := log[event.id := event];
      return Ok(());
    }

    method ReadSlice(scope: Scope, limit: nat, cursor: Option<Cursor>) returns (slice: Slice)
      ensures slice == Read(log, scope, limit, cursor)
    {
      hide Selected;
      var all := Sorted(Selected(log, scope, cursor), Newer);
      slice := SliceOf(Prefix(all, limit + 1), limit);
    }

    method Query(scope: Scope, limit: int, cursor: Option<Cursor>) returns (r: Answer)
      requires WellKeyed(log)
      ensures r.LimitOutOfRange? <==> !LimitOk(limit)
      ensures r.Answered? ==> r.page == Page(log, scope, limit, cursor)
    {
      if !LimitOk(limit) {
        return LimitOutOfRange;
      }
      var slice := ReadSlice(scope, limit, cursor);
      ReadIsLogged(log, scope, limit, cursor);
      return Answered(PageOf(log, slice));
    }
  }
}
