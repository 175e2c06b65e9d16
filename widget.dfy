/**
 * `PushUpWidgetProvider`: the home-screen widget. Its validate button posts
 * a fixed count and caches the stats the server then reports; each widget
 * shows the streak and a done/not-done label taken from the cached stats.
 */
module WidgetProvider {
  import opened Wrappers
  import opened Entities
  import opened Api
  import opened Dao
  import opened Repository
  import Lang

  /** The intent action of the widget's validate button. */
  const ACTION_VALIDATE: string := "com.cyin.daily_push_up.ACTION_VALIDATE"

  /** The count the widget always submits. */
  const WIDGET_PUSHUPS: int := 30

  /** The two status texts ("Done today!" and "Not done yet", with their emoji). */
  datatype StatusText = DoneToday | NotDoneYet

  /** The two labels of the validate button ("Done" and "Validate"). */
  datatype ButtonText = DoneButton | ValidateButton

  /** The texts `updateWidget` sets; none at all when there is no cached stats row. */
  datatype WidgetTexts = WidgetTexts(streak: string, status: StatusText, button: ButtonText)

  /** What one widget is pushed: its id and the texts set on its views. */
  datatype WidgetUpdate = WidgetUpdate(widgetId: int, texts: Option<WidgetTexts>)

  /**
   * The text choice of `updateWidget`: the current streak in decimal, and
   * the done texts exactly when today is validated.
   */
  function TextsFor(stats: Option<CachedStats>): (t: Option<WidgetTexts>)
    ensures t.Some? <==> stats.Some?
    ensures t.Some? ==> Lang.IntValue(t.value.streak) == stats.value.currentStreak
    ensures t.Some? ==> (t.value.status == DoneToday <==> stats.value.todayValidated)
    ensures t.Some? ==> (t.value.button == DoneButton <==> stats.value.todayValidated)
  {
    if stats.None? then None
    else if stats.value.todayValidated then
      Some(WidgetTexts(Lang.IntToString(stats.value.currentStreak), DoneToday, DoneButton))
    else
      Some(WidgetTexts(Lang.IntToString(stats.value.currentStreak), NotDoneYet, ValidateButton))
  }

  /** The texts a widget ends up with: none when its read of the stats throws. */
  function ShownTexts(stats: Option<CachedStats>, readFails: bool): Option<WidgetTexts> {
    if readFails then None else TextsFor(stats)
  }

  /**
   * The `ACTION_VALIDATE` flow on the tables: post 30, fetch the stats,
   * insert them as row 0 stamped `now`. The answer to the post is not
   * inspected; an exception from any of the three calls ends the flow with
   * nothing written.
   */
  function WidgetValidateOutcome(before: Tables, server: Server, now: int, fault: Option<StoreFault>): (after: Tables)
    ensures after.entries == before.entries
    ensures after.stats == before.stats ||
            (server.getStats.Success? && after.stats == before.stats[STATS_ID := StatsRow(server.getStats.value, now)])
  {
    if server.validate(ValidateRequest(WIDGET_PUSHUPS)).Failure? then before
    else if server.getStats.Failure? then before
    else if FailsAt(fault, InsertStatsStep) then before
    else before.(stats := before.stats[STATS_ID := StatsRow(server.getStats.value, now)])
  }

  /** The flow never touches the entries table, and writes at most the stats row 0. */
  lemma WidgetWritesOnlyStatsRow(before: Tables, server: Server, now: int, fault: Option<StoreFault>)
    ensures var after := WidgetValidateOutcome(before, server, now, fault);
            after.entries == before.entries &&
            after.stats.Keys <= before.stats.Keys + {STATS_ID} &&
            forall k :: k in before.stats && k != STATS_ID ==> k in after.stats && after.stats[k] == before.stats[k]
  {
  }

  /** An exception from either remote call, or from the insert, leaves both tables as they were. */
  lemma WidgetFailureWritesNothing(before: Tables, server: Server, now: int, fault: Option<StoreFault>)
    requires server.validate(ValidateRequest(WIDGET_PUSHUPS)).Failure? || server.getStats.Failure? ||
             FailsAt(fault, InsertStatsStep)
    ensures WidgetValidateOutcome(before, server, now, fault) == before
  {
  }

  /** A refused validation (`success = false`) still caches the stats. */
  lemma WidgetIgnoresRefusal(before: Tables, server: Server, now: int)
    requires server.validate(ValidateRequest(WIDGET_PUSHUPS)).Success?
    requires !server.validate(ValidateRequest(WIDGET_PUSHUPS)).value.success
    requires server.getStats.Success?
    ensures WidgetValidateOutcome(before, server, now, None).stats[STATS_ID] == StatsRow(server.getStats.value, now)
  {
  }

  /**
   * Against the app's own validate of 30 that the server accepts and whose
   * resync completes, the widget leaves the same stats table but the
   * entries table as it was.
   */
  lemma WidgetAgreesWithAppOnStats(before: Tables, server: Server, now: int)
    requires server.validate(ValidateRequest(WIDGET_PUSHUPS)).Success?
    requires server.validate(ValidateRequest(WIDGET_PUSHUPS)).value.success
    requires server.getStats.Success? && server.getEntries.Success?
    ensures var app := ValidateOutcome(before, WIDGET_PUSHUPS, server, now, None).tables;
            var widget := WidgetValidateOutcome(before, server, now, None);
            widget.stats == app.stats && widget.entries == before.entries
  {
  }

  class PushUpWidgetProvider {
    const dao: PushUpDao

    constructor (dao: PushUpDao)
      ensures this.dao == dao
    {
      this.dao := dao;
    }

    /**
     * `onReceive`: only `ACTION_VALIDATE` runs the validate flow; it returns
     * whether all widgets are then refreshed, which they are whenever the
     * flow ran, whatever its outcome.
     */
    method OnReceive(action: string, server: Server, now: int, fault: Option<StoreFault>) returns (refreshed: bool)
      requires dao.Valid()
      modifies dao`stats
      ensures dao.Valid()
      ensures refreshed <==> action == ACTION_VALIDATE
      ensures dao.Snapshot() ==
              if action == ACTION_VALIDATE then WidgetValidateOutcome(old(dao.Snapshot()), server, now, fault)
              else old(dao.Snapshot())
    {
      refreshed := false;
      if action == ACTION_VALIDATE {
        var answer := server.validate(ValidateRequest(WIDGET_PUSHUPS));
        if answer.Success? {
          var stats := server.getStats;
          if stats.Success? && !FailsAt(fault, InsertStatsStep) {
            dao.InsertStats(StatsRow(stats.value, now));
          }
        }
        refreshed := true;
      }
    }

    /**
     * `onUpdate`: one update per widget id, in order. `failedReads` holds
     * the ids whose `getStats` throws; those widgets are pushed without texts.
     */
    method OnUpdate(widgetIds: seq<int>, failedReads: set<int>) returns (updates: seq<WidgetUpdate>)
      requires dao.Valid()
      ensures |updates| == |widgetIds|
      ensures forall i :: 0 <= i < |widgetIds| ==>
                updates[i] == WidgetUpdate(widgetIds[i], ShownTexts(dao.GetStats(), widgetIds[i] in failedReads))
    {
      updates := [];
      for i := 0 to |widgetIds|
        invariant |updates| == i
        invariant forall j :: 0 <= j < i ==>
                    updates[j] == WidgetUpdate(widgetIds[j], ShownTexts(dao.GetStats(), widgetIds[j] in failedReads))
      {
        var update := UpdateWidget(widgetIds[i], widgetIds[i] in failedReads);
        updates := updates + [update];
      }
    }

    /**
     * `updateWidget`: the texts for the cached stats, pushed whether or not
     * there is a row; when the read throws (`readFails`), the views are
     * pushed as they are, without texts.
     */
    method UpdateWidget(widgetId: int, readFails: bool) returns (update: WidgetUpdate)
      requires dao.Valid()
      ensures update.widgetId == widgetId
      ensures readFails ==> update.texts == None
      ensures !readFails ==> update.texts == TextsFor(dao.GetStats())
    {
      if readFails {
        return WidgetUpdate(widgetId, None);
      }
      var stats := dao.GetStats();
      update := WidgetUpdate(widgetId, TextsFor(stats));
    }
  }
}
