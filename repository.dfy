/**
 * `PushUpRepository`: the sync engine. `Sync` pulls the stats and the
 * entry list and replaces the local cache; `ValidateToday` posts a
 * validation and, when the server accepts it, resyncs. Each call is one
 * atomic step; the remote answers and any DAO exception are inputs.
 */
module Repository {
  import opened Wrappers
  import opened Entities
  import opened Api
  import opened Dao

  /** The six server-computed values a stats row carries. */
  function ServerValues(row: CachedStats): StatsResponse {
    StatsResponse(row.totalPushups, row.totalDays, row.currentStreak, row.longestStreak,
                  row.todayValidated, row.todayTarget)
  }

  /** The stats row `sync` caches: key 0, the server's six values, stamped `now`. */
  function StatsRow(r: StatsResponse, now: int): (row: CachedStats)
    ensures row.id == STATS_ID && row.lastSyncedAt == now
    ensures ServerValues(row) == r
  {
    CachedStats(id := STATS_ID,
                totalPushups := r.totalPushups,
                totalDays := r.totalDays,
                currentStreak := r.currentStreak,
                longestStreak := r.longestStreak,
                todayValidated := r.todayValidated,
                todayTarget := r.todayTarget,
                lastSyncedAt := now)
  }

  /** The entry row for one element of the server's list: `id` is dropped. */
  function ToEntry(r: EntryResponse): Entry {
    Entry(r.date, r.pushups, r.validated, r.validatedAt, r.createdAt)
  }

  /** Two responses give the same row exactly when they differ at most in `id`. */
  lemma ToEntryForgetsOnlyId(a: EntryResponse, b: EntryResponse)
    ensures ToEntry(a) == ToEntry(b) <==> a.(id := b.id) == b
  {
  }

  function ToEntries(rs: seq<EntryResponse>): (es: seq<Entry>)
    ensures |es| == |rs| && forall i :: 0 <= i < |rs| ==> es[i] == ToEntry(rs[i])
  {
    seq(|rs|, i requires 0 <= i < |rs| => ToEntry(rs[i]))
  }

  predicate ResponseHasDate(rs: seq<EntryResponse>, d: string) {
    exists i :: 0 <= i < |rs| && rs[i].date == d
  }

  /** What a step returns and the tables it leaves. */
  datatype Step<T> = Step(result: Result<T>, tables: Tables)

  /**
   * `sync`, step by step: both remote calls, then `insertStats`, then
   * `clearEntries`, then `insertEntries`; the first exception ends the step
   * as a failure, with what was written before it still in place.
   */
  function SyncOutcome(before: Tables, server: Server, now: int, fault: Option<StoreFault>): (o: Step<()>)
    ensures o.tables.stats == before.stats ||
            (server.getStats.Success? && o.tables.stats == before.stats[STATS_ID := StatsRow(server.getStats.value, now)])
    ensures o.result.Success? ==>
              server.getEntries.Success? && o.tables.entries == KeyByDate(ToEntries(server.getEntries.value))
    ensures o.result.Failure? ==> o.tables.entries == before.entries || o.tables.entries == map[]
  {
    if server.getStats.Failure? then Step(Failure(server.getStats.message), before)
    else if server.getEntries.Failure? then Step(Failure(server.getEntries.message), before)
    else
      var row := StatsRow(server.getStats.value, now);
      if FailsAt(fault, InsertStatsStep) then Step(Failure(fault.value.message), before)
      else
        var withStats := before.(stats := before.stats[row.id := row]);
        if FailsAt(fault, ClearEntriesStep) then Step(Failure(fault.value.message), withStats)
        else
          var cleared := withStats.(entries := map[]);
          if FailsAt(fault, InsertEntriesStep) then Step(Failure(fault.value.message), cleared)
          else Step(Success(()), cleared.(entries := KeyByDate(ToEntries(server.getEntries.value))))
  }

  /** Both fetches come before any write: a remote failure is reported and writes nothing. */
  lemma SyncRemoteFailureWritesNothing(before: Tables, server: Server, now: int, fault: Option<StoreFault>)
    requires server.getStats.Failure? || server.getEntries.Failure?
    ensures var o := SyncOutcome(before, server, now, fault);
            o.tables == before &&
            o.result == Failure(if server.getStats.Failure? then server.getStats.message
                                else server.getEntries.message)
  {
  }

  /** `sync` succeeds exactly when both calls and all three writes do. */
  lemma SyncSucceedsIff(before: Tables, server: Server, now: int, fault: Option<StoreFault>)
    ensures SyncOutcome(before, server, now, fault).result.Success? <==>
            server.getStats.Success? && server.getEntries.Success? && fault.None?
  {
  }

  /**
   * After a successful `sync` the stats row is the server's stats stamped
   * `now`, other stats rows are untouched, and the entry table mirrors the
   * server's list: its dates are exactly the listed ones (so a cached
   * date the server no longer lists is gone), and each holds the row of
   * the last listed element with that date, field for field.
   */
  lemma {:induction false} SyncSuccessContents(before: Tables, server: Server, now: int)
    requires server.getStats.Success? && server.getEntries.Success?
    ensures var t := SyncOutcome(before, server, now, None).tables;
            var rs := server.getEntries.value;
            t.stats == before.stats[STATS_ID := StatsRow(server.getStats.value, now)] &&
            KeyedByDate(t.entries) &&
            (forall d :: d in t.entries <==> ResponseHasDate(rs, d)) &&
            (forall i :: 0 <= i < |rs| && (forall j :: i < j < |rs| ==> rs[j].date != rs[i].date) ==>
               rs[i].date in t.entries && t.entries[rs[i].date] == ToEntry(rs[i]))
  {
    var rs := server.getEntries.value;
    var es := ToEntries(rs);
    forall d ensures d in KeyByDate(es) <==> ResponseHasDate(rs, d) {
      KeyByDateKeys(es, d);
      if ResponseHasDate(rs, d) {
        var i :| 0 <= i < |rs| && rs[i].date == d;
        assert es[i].date == d;
      }
      if HasDate(es, d) {
        var i :| 0 <= i < |es| && es[i].date == d;
        assert rs[i].date == d;
      }
    }
    forall i | 0 <= i < |rs| && (forall j :: i < j < |rs| ==> rs[j].date != rs[i].date)
      ensures rs[i].date in KeyByDate(es) && KeyByDate(es)[rs[i].date] == ToEntry(rs[i])
    {
      assert LastOfItsDate(es, i);
      KeyByDateLastWins(es, i);
    }
  }

  /** Full replace: a cached date that the server's list lacks is gone after a successful `sync`. */
  lemma SyncDropsUnlistedDates(before: Tables, server: Server, now: int, d: string)
    requires server.getStats.Success? && server.getEntries.Success?
    requires d in before.entries && !ResponseHasDate(server.getEntries.value, d)
    ensures d !in SyncOutcome(before, server, now, None).tables.entries
  {
    SyncSuccessContents(before, server, now);
  }

  /**
   * The writes are not atomic: a DAO exception after `insertStats` leaves
   * the new stats row beside the old entries (`clearEntries` failed) or
   * beside an empty entry table (`insertEntries` failed).
   */
  lemma SyncPartialWrites(before: Tables, server: Server, now: int, fault: StoreFault)
    requires server.getStats.Success? && server.getEntries.Success?
    ensures var o := SyncOutcome(before, server, now, Some(fault));
            var newStats := before.stats[STATS_ID := StatsRow(server.getStats.value, now)];
            o.result == Failure(fault.message) &&
            (fault.step == InsertStatsStep ==> o.tables == before) &&
            (fault.step == ClearEntriesStep ==> o.tables == Tables(before.entries, newStats)) &&
            (fault.step == InsertEntriesStep ==> o.tables == Tables(map[], newStats))
  {
  }

  /**
   * Two successful syncs against the same answers leave the same tables,
   * except for the `lastSyncedAt` stamp of the stats row.
   */
  lemma SyncIdempotent(before: Tables, server: Server, now1: int, now2: int)
    requires server.getStats.Success? && server.getEntries.Success?
    ensures var t1 := SyncOutcome(before, server, now1, None).tables;
            var t2 := SyncOutcome(t1, server, now2, None).tables;
            STATS_ID in t1.stats &&
            t2.entries == t1.entries &&
            t2.stats == t1.stats[STATS_ID := t1.stats[STATS_ID].(lastSyncedAt := now2)]
  {
  }

  /**
   * `validateToday`: post the count; on an accepted validation run `sync`
   * and report `true` whatever the sync did; on a refused one report
   * `false` without syncing; a failed post is reported and writes nothing.
   */
  function ValidateOutcome(before: Tables, pushups: int, server: Server, now: int, fault: Option<StoreFault>): (o: Step<bool>)
    ensures o.result.Failure? <==> server.validate(ValidateRequest(pushups)).Failure?
    ensures o.result.Success? ==> o.result.value == server.validate(ValidateRequest(pushups)).value.success
    ensures (o.result.Failure? || !o.result.value) ==> o.tables == before
  {
    var answer := server.validate(ValidateRequest(pushups));
    if answer.Failure? then Step(Failure(answer.message), before)
    else if answer.value.success then Step(Success(true), SyncOutcome(before, server, now, fault).tables)
    else Step(Success(false), before)
  }

  /** A failed validate call is reported with its message and no store write. */
  lemma ValidateFailureWritesNothing(before: Tables, pushups: int, server: Server, now: int, fault: Option<StoreFault>)
    requires server.validate(ValidateRequest(pushups)).Failure?
    ensures ValidateOutcome(before, pushups, server, now, fault) ==
            Step(Failure(server.validate(ValidateRequest(pushups)).message), before)
  {
  }

  /**
   * A validate call that returns reports the server's `success` flag: on
   * `true` the tables are those of the resync even when the resync failed,
   * on `false` nothing is written.
   */
  lemma ValidateReportsServerFlag(before: Tables, pushups: int, server: Server, now: int, fault: Option<StoreFault>)
    requires server.validate(ValidateRequest(pushups)).Success?
    ensures var answer := server.validate(ValidateRequest(pushups)).value;
            var o := ValidateOutcome(before, pushups, server, now, fault);
            o.result == Success(answer.success) &&
            o.tables == (if answer.success then SyncOutcome(before, server, now, fault).tables else before)
  {
  }

  class PushUpRepository {
    const dao: PushUpDao

    constructor (dao: PushUpDao)
      ensures this.dao == dao
    {
      this.dao := dao;
    }

    method Sync(server: Server, now: int, fault: Option<StoreFault>) returns (r: Result<()>)
      requires dao.Valid()
      modifies dao
      ensures dao.Valid()
      ensures Step(r, dao.Snapshot()) == SyncOutcome(old(dao.Snapshot()), server, now, fault)
    {
      if server.getStats.Failure? {
        return Failure(server.getStats.message);
      }
      if server.getEntries.Failure? {
        return Failure(server.getEntries.message);
      }
      var stats := StatsRow(server.getStats.value, now);
      if FailsAt(fault, InsertStatsStep) {
        return Failure(fault.value.message);
      }
      dao.InsertStats(stats);
      var entries := ToEntries(server.getEntries.value);
      if FailsAt(fault, ClearEntriesStep) {
        return Failure(fault.value.message);
      }
      dao.ClearEntries();
      if FailsAt(fault, InsertEntriesStep) {
        return Failure(fault.value.message);
      }
      dao.InsertEntries(entries);
      assert dao.entries == KeyByDate(entries);
      r := Success(());
    }

    method ValidateToday(pushups: int, server: Server, now: int, fault: Option<StoreFault>) returns (r: Result<bool>)
      requires dao.Valid()
      modifies dao
      ensures dao.Valid()
      ensures Step(r, dao.Snapshot()) == ValidateOutcome(old(dao.Snapshot()), pushups, server, now, fault)
    {
      var response := server.validate(ValidateRequest(pushups));
      if response.Failure? {
        return Failure(response.message);
      }
      if response.value.success {
        var _ := Sync(server, now, fault);
      }
      r := Success(response.value.success);
    }

    method GetAllEntries() returns (rows: seq<Entry>)
      requires dao.Valid()
      ensures IsListing(rows, dao.entries)
    {
      rows := dao.GetAllEntries();
    }

    function GetStats(): (r: Option<CachedStats>)
      requires dao.Valid()
      reads dao
      ensures r.Some? <==> STATS_ID in dao.stats
      ensures r.Some? ==> r.value.id == STATS_ID && r.value == dao.stats[STATS_ID]
    {
      dao.GetStats()
    }
  }
}
