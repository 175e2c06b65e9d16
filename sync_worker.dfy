/**
 * `SyncWorker`: the periodic background job. It runs one sync against the
 * shared store, refreshes every widget from what the store then holds, and
 * reports success or asks WorkManager to retry.
 */
module SyncWorker {
  import opened Wrappers
  import opened Api
  import opened Dao
  import opened Repository
  import opened Platform
  import WidgetProvider

  /** The result mapping: a completed sync is a success, a failed one a retry. */
  function ResultFor(sync: Result<()>): (w: WorkResult)
    ensures w != WorkFailure
    ensures w == WorkSuccess <==> sync.Success?
    ensures w == WorkRetry <==> sync.Failure?
  {
    if sync.Success? then WorkSuccess else WorkRetry
  }

  /**
   * `doWork`: exactly one sync, then all widgets (`widgetIds`) redrawn from
   * the stats row the sync left, whether the sync succeeded or not. The
   * `updateAllWidgets` broadcast is taken as delivered within the same
   * step: its `onUpdate` runs directly. `failedReads` are the widgets whose
   * read of the stats throws.
   */
  method DoWork(dao: PushUpDao, widgetIds: seq<int>, failedReads: set<int>, server: Server, now: int,
                fault: Option<StoreFault>)
    returns (result: WorkResult, widgets: seq<WidgetProvider.WidgetUpdate>)
    requires dao.Valid()
    modifies dao
    ensures dao.Valid()
    ensures var o := SyncOutcome(old(dao.Snapshot()), server, now, fault);
            dao.Snapshot() == o.tables && result == ResultFor(o.result)
    ensures |widgets| == |widgetIds|
    ensures forall i :: 0 <= i < |widgetIds| ==>
              widgets[i] == WidgetProvider.WidgetUpdate(widgetIds[i],
                                                        WidgetProvider.ShownTexts(dao.GetStats(), widgetIds[i] in failedReads))
  {
    var repo := new PushUpRepository(dao);
    var sync := repo.Sync(server, now, fault);
    var provider := new WidgetProvider.PushUpWidgetProvider(dao);
    widgets := provider.OnUpdate(widgetIds, failedReads);
    result := ResultFor(sync);
  }
}
