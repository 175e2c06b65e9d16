/**
 * `ReminderWorker`: the periodic reminder. Outside the night hours, and
 * only when a cached stats row says today is not yet validated, it posts
 * one notification; it reports success unless reading the store throws.
 */
module ReminderWorker {
  import opened Wrappers
  import opened Dao
  import opened Platform

  /** The id every reminder notification is posted under, so a new one replaces the last. */
  const NOTIFICATION_ID: int := 1001

  /** No reminder before 6 o'clock. */
  const QUIET_UNTIL_HOUR: int := 6

  /**
   * `doWork` at hour `hour` (`HOUR_OF_DAY`): returns the id of the
   * notification it posts, if any. During the quiet hours it returns before
   * the store is opened, so it does not need a store at all. The read of the
   * stats is not guarded: when it throws (`readFails`) the exception leaves
   * `doWork` and WorkManager records a failure.
   */
  method DoWork(hour: int, dao: PushUpDao?, readFails: bool) returns (result: WorkResult, notification: Option<int>)
    requires hour >= QUIET_UNTIL_HOUR ==> dao != null && dao.Valid()
    ensures result == WorkFailure <==> hour >= QUIET_UNTIL_HOUR && readFails
    ensures result != WorkRetry
    ensures hour < QUIET_UNTIL_HOUR || readFails ==> notification == None
    ensures hour >= QUIET_UNTIL_HOUR && !readFails ==>
              (notification.Some? <==> dao.GetStats().Some? && !dao.GetStats().value.todayValidated)
    ensures notification.Some? ==> notification.value == NOTIFICATION_ID
  {
    if hour < QUIET_UNTIL_HOUR {
      return WorkSuccess, None;
    }
    if readFails {
      return WorkFailure, None;
    }
    var stats := dao.GetStats();
    if stats.None? || stats.value.todayValidated {
      return WorkSuccess, None;
    }
    notification := SendNotification();
    result := WorkSuccess;
  }

  /** `sendNotification`: one notification, under the fixed id. */
  method SendNotification() returns (id: Option<int>)
    ensures id == Some(NOTIFICATION_ID)
  {
    id := Some(NOTIFICATION_ID);
  }
}
