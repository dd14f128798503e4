/** The ledger's own audit events as the paged log: what a walk sees while the ledger runs on. */
module AuditTrail {
  import opened Wrappers
  import opened Database
  import opened Machine
  import opened AuditLog
  import Lifecycle

  // The id and time event number i of the audit log was given.
  datatype Stamp = Stamp(id: EventId, occurredAt: int)

  type Clock = nat -> Stamp

  // Ids are unique; times need not grow with the log.
  ghost predicate FreshIds(clock: Clock) {
    forall i: nat, j: nat :: clock(i).id == clock(j).id ==> i == j
  }

  function Logged(clock: Clock, i: nat, event: AuditEvent): LoggedEvent {
    LoggedEvent(clock(i).id, Space(event.space), clock(i).occurredAt, event)
  }

  ghost function LogOf(audit: seq<AuditEvent>, clock: Clock): (log: Log)
    requires FreshIds(clock)
    ensures WellKeyed(log)
    ensures forall i: nat :: i < |audit| ==> clock(i).id in log && log[clock(i).id] == Logged(clock, i, audit[i])
    ensures forall id :: id in log ==> exists i: nat :: i < |audit| && id == clock(i).id
  {
    if audit == [] then map[]
    else
      var n := |audit| - 1;
      LogOf(audit[..n], clock)[clock(n).id := Logged(clock, n, audit[n])]
  }

  lemma LogExtends(audit: seq<AuditEvent>, later: seq<AuditEvent>, clock: Clock)
    requires FreshIds(clock) && audit <= later
    ensures Extends(LogOf(audit, clock), LogOf(later, clock))
  {
  }

  // A walk whose i-th visit comes after the first times[i] steps of a run.
  ghost function VisitsOf(steps: seq<Step>, times: seq<nat>, limits: seq<nat>, clock: Clock): seq<Visit>
    requires FreshIds(clock) && |times| == |limits| && forall i :: 0 <= i < |times| ==> times[i] <= |steps|
  {
    seq(|times|, i requires 0 <= i < |times| => Visit(LogOf(Run(EMPTY, steps[..times[i]]).audit, clock), limits[i]))
  }

  ghost predicate Walks(steps: seq<Step>, times: seq<nat>, limits: seq<nat>) {
    && |times| == |limits| && times != []
    && (forall i :: 0 <= i < |times| ==> times[i] <= |steps| && LimitOk(limits[i]))
    && (forall i, j :: 0 <= i < j < |times| ==> times[i] <= times[j])
  }

  lemma AuditPrefix(steps: seq<Step>, i: nat, j: nat)
    requires i <= j <= |steps|
    ensures Run(EMPTY, steps[..i]).audit <= Run(EMPTY, steps[..j]).audit
  {
    assert steps[..j] == steps[..i] + steps[i..j];
    Lifecycle.RunSplit(EMPTY, steps[..i], steps[i..j]);
    Lifecycle.AuditOnlyGrows(Run(EMPTY, steps[..i]), steps[i..j]);
  }

  /** The audit logs of a run, seen at any later and later times, are the growing log a walk is proved for. */
  lemma RunsAreVisits(steps: seq<Step>, times: seq<nat>, limits: seq<nat>, clock: Clock)
    requires FreshIds(clock) && Walks(steps, times, limits)
    ensures Visits(VisitsOf(steps, times, limits, clock))
  {
    hide Run, LogOf;
    var visits := VisitsOf(steps, times, limits, clock);
    forall i, j | 0 <= i < j < |visits| ensures Extends(visits[i].log, visits[j].log) {
      AuditPrefix(steps, times[i], times[j]);
      LogExtends(Run(EMPTY, steps[..times[i]]).audit, Run(EMPTY, steps[..times[j]]).audit, clock);
    }
  }

  lemma TrailBegins(steps: seq<Step>, times: seq<nat>, limits: seq<nat>, clock: Clock, i: nat)
    requires FreshIds(clock) && Walks(steps, times, limits)
    requires i < |Run(EMPTY, steps[..times[0]]).audit|
    ensures var visits := VisitsOf(steps, times, limits, clock);
            var e := Logged(clock, i, Run(EMPTY, steps[..times[0]]).audit[i]);
            Visits(visits) && visits != [] && e.id in visits[0].log && visits[0].log[e.id] == e
  {
    hide Run, Visits;
    RunsAreVisits(steps, times, limits, clock);
  }

  /**
   While the ledger runs on, a walk by next cursor over the audit events of a space returns every event that had been
   recorded when it began exactly once by the time it ends, and it ends after no more visits than there are events.
   */
  lemma WalkSeesTheTrail(steps: seq<Step>, times: seq<nat>, limits: seq<nat>, clock: Clock, i: nat)
    requires FreshIds(clock) && Walks(steps, times, limits)
    requires i < |Run(EMPTY, steps[..times[0]]).audit|
    ensures var visits := VisitsOf(steps, times, limits, clock);
            var event := Run(EMPTY, steps[..times[0]]).audit[i];
            && Visits(visits)
            && (|visits| > |visits[|visits| - 1].log| ==> Walk(visits, Space(event.space), None).ended)
            && (Walk(visits, Space(event.space), None).ended ==>
                 OnceIn(Walk(visits, Space(event.space), None).events, Logged(clock, i, event)))
  {
    hide Walk, Run, Visits, OnceIn, VisitsOf;
    var visits := VisitsOf(steps, times, limits, clock);
    var event := Run(EMPTY, steps[..times[0]]).audit[i];
    TrailBegins(steps, times, limits, clock, i);
    if |visits| > |visits[|visits| - 1].log| {
      WalkEnds(visits, Space(event.space), None);
    }
    if Walk(visits, Space(event.space), None).ended {
      ReturnedOnce(visits, Logged(clock, i, event));
    }
  }

  lemma ReturnedOnce(visits: seq<Visit>, e: LoggedEvent)
    requires Visits(visits) && visits != [] && Walk(visits, e.scope, None).ended
    requires e.id in visits[0].log && visits[0].log[e.id] == e
    ensures OnceIn(Walk(visits, e.scope, None).events, e)
  {
    hide Walk, Visits;
    WalkReturnsEachOnce(visits, e.scope, e);
  }

  ghost predicate OnceIn(events: seq<LoggedEvent>, e: LoggedEvent) {
    exists k :: 0 <= k < |events| && events[k] == e && forall j :: 0 <= j < |events| && j != k ==> events[j].id != e.id
  }
}
