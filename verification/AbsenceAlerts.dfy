/**
 Where the resolver and the guardian notifications meet: does an arrival take the absence alert back
 (backend/app/attendance/resolver.py, backend/app/notifications/service.py)?
 */
module AbsenceAlerts {
  import opened Basics
  import opened Attendance
  import Notifications
  import Resolver

  type Outbox = map<Notifications.Key, Notifications.Notification>

  ghost predicate NoneWaits(rows: Outbox, grain: Grain) {
    forall key :: !Notifications.AlertIsWaiting(rows, grain, key)
  }

  /** The outbox after the service is told of the record the resolver writes at `asOf`. */
  function Told(rows: Outbox, grain: Grain, env: Resolver.Inputs, row: Resolver.Expected, events: seq<Event>,
                asOf: Time,
                oldStatus: Option<Status>, setting: Notifications.Setting): Outbox
  {
    Notifications.Processed(rows, grain, Resolver.ScheduledRecord(env, row, events, asOf).status, oldStatus, setting)
  }

  /** On time or late, read off the events. */
  ghost function Punctuality(env: Resolver.Inputs, row: Resolver.Expected, events: seq<Event>): Status {
    var limit := row.start + env.settings(row.locationId).graceIn * MINUTE;
    if exists e :: Resolver.Arrives(row, events, e) && e.occurredAt <= limit then OnTime else Late
  }

  /**
   When the resolver records an arrival, no absence alert of the grain is waiting afterwards exactly if none was
   waiting before, or the row is not auto-closed by then and the change to on time or late is heeded.
   */
  lemma RecordedArrivalClearsAlertsExactly(rows: Outbox, grain: Grain, env: Resolver.Inputs, row: Resolver.Expected,
                                           events: seq<Event>, asOf: Time, oldStatus: Option<Status>,
                                           setting: Notifications.Setting)
    requires Resolver.ByEvents(env, row)
    requires exists e :: Resolver.Arrives(row, events, e)
    ensures var st := env.settings(row.locationId);
            var closes := st.autoClose && asOf > row.end + Resolver.AUTO_CLOSE
                          && !Resolver.Departs(row, events, st.minDwell);
            NoneWaits(Told(rows, grain, env, row, events, asOf, oldStatus, setting), grain)
            <==> NoneWaits(rows, grain)
                 || (!closes && Notifications.Heeded(oldStatus, Punctuality(env, row, events), setting))
  {
    Resolver.StatusMeans(env, row, events, asOf);
    var status := Resolver.ScheduledRecord(env, row, events, asOf).status;
    if Notifications.IsArrival(status) {
      Notifications.ArrivalClearsAlerts(rows, grain, status, oldStatus, setting);
    }
  }

  /**
   It happens: absent at first, the guardian's alert queued; then the scan that had waited offline is uploaded, and the
   row is resolved after its auto-close time. The record names the arrival, and the alert stays in the queue.
   */
  lemma LateUploadLeavesTheAlert(grain: Grain)
    ensures var env := Resolver.Inputs(0, 0, 0, [], map[], false, map[], _ => Resolver.Settings(10, 10, 60, 5, true));
            var row := Resolver.Expected(1, Resolver.DayGrain(1, ""), None, 0, 60 * MINUTE, true);
            var upload := Event(1, Some(1), None, None, "", 5 * MINUTE, Accepted, None, false);
            var guardian := Notifications.Guardian(1, Notifications.Sms, Some("+63"), None);
            var p := Notifications.Person(true, [Notifications.Link(guardian, true)], "student", {});
            var setting := Notifications.Setting(Some(p), map[], Some(0), [], [], 240, 0);
            var queued := Told(map[], grain, env, row, [], 61 * MINUTE, None, setting);
            var later := Told(queued, grain, env, row, [upload], 181 * MINUTE, Some(Absent), setting);
            && Resolver.ScheduledRecord(env, row, [], 61 * MINUTE).status == Absent
            && Resolver.ScheduledRecord(env, row, [upload], 181 * MINUTE).firstEventId == Some(1)
            && !NoneWaits(later, grain)
  {
    var env := Resolver.Inputs(0, 0, 0, [], map[], false, map[], _ => Resolver.Settings(10, 10, 60, 5, true));
    var row := Resolver.Expected(1, Resolver.DayGrain(1, ""), None, 0, 60 * MINUTE, true);
    var upload := Event(1, Some(1), None, None, "", 5 * MINUTE, Accepted, None, false);
    Resolver.SoleArrival(row, upload, 5);
    var guardian := Notifications.Guardian(1, Notifications.Sms, Some("+63"), None);
    var link := Notifications.Link(guardian, true);
    var setting := Notifications.Setting(Some(Notifications.Person(true, [link], "student", {})), map[], Some(0), [],
                                         [], 240, 0);
    assert Notifications.AlertedBy([link][..0], 1).None? && Notifications.AlertedBy([link], 1) == Some(link);
    var key := Notifications.Key(Notifications.Absence, grain, 1);
    Notifications.AbsenceAlertsEveryGuardian(map[], grain, None, setting, key);
    assert Notifications.AlertIsWaiting(Told(map[], grain, env, row, [], 61 * MINUTE, None, setting), grain, key);
  }
}
