/** The two Room entities: `PushUpEntry` and `CachedStats`. */
module Entities {
  import opened Wrappers

  /**
   * A row of table `pushup_entries`. `date` is the primary key and holds a
   * `yyyy-MM-dd` string; `pushups` and `validated` are always present,
   * `validatedAt` and `createdAt` may be null.
   */
  datatype Entry = Entry(
    date: string,
    pushups: int,
    validated: bool,
    validatedAt: Option<string>,
    createdAt: Option<string>)

  /** The fixed primary key of the one row of `cached_stats` that is ever read. */
  const STATS_ID: int := 0

  /** A row of table `cached_stats`, with the Kotlin defaults of its constructor. */
  datatype CachedStats = CachedStats(
    id: int := 0,
    totalPushups: int := 0,
    totalDays: int := 0,
    currentStreak: int := 0,
    longestStreak: int := 0,
    todayValidated: bool := false,
    todayTarget: int := 0,
    lastSyncedAt: int := 0)

  /** Every row is stored under its own primary key: at most one entry per date. */
  predicate KeyedByDate(t: map<string, Entry>) {
    forall d :: d in t ==> t[d].date == d
  }

  predicate HasDate(rows: seq<Entry>, d: string) {
    exists i :: 0 <= i < |rows| && rows[i].date == d
  }

  /** No row after position `i` has the date of row `i`. */
  predicate LastOfItsDate(rows: seq<Entry>, i: int)
    requires 0 <= i < |rows|
  {
    forall j :: i < j < |rows| ==> rows[j].date != rows[i].date
  }

  /**
   * The table that keying `rows` by date gives when a later row replaces an
   * earlier row of the same date: the effect of Room's REPLACE insert of a
   * batch into an empty table, and Kotlin's `associateBy { it.date }`.
   */
  function KeyByDate(rows: seq<Entry>): (t: map<string, Entry>)
    ensures KeyedByDate(t)
  {
    if rows == [] then map[]
    else KeyByDate(rows[..|rows| - 1])[rows[|rows| - 1].date := rows[|rows| - 1]]
  }

  /** `KeyByDate` holds exactly the dates of `rows`. */
  lemma {:induction false} KeyByDateKeys(rows: seq<Entry>, d: string)
    ensures d in KeyByDate(rows) <==> HasDate(rows, d)
  {
    if rows != [] {
      var init, last := rows[..|rows| - 1], rows[|rows| - 1];
      KeyByDateKeys(init, d);
      if HasDate(init, d) {
        var i :| 0 <= i < |init| && init[i].date == d;
        assert rows[i].date == d;
      }
      if HasDate(rows, d) && d != last.date {
        var i :| 0 <= i < |rows| && rows[i].date == d;
        assert init[i].date == d;
      }
      assert d == last.date ==> rows[|rows| - 1].date == d;
    }
  }

  /** Under each date `KeyByDate` holds the last row of `rows` that has it. */
  lemma {:induction false} KeyByDateLastWins(rows: seq<Entry>, i: int)
    requires 0 <= i < |rows| && LastOfItsDate(rows, i)
    ensures rows[i].date in KeyByDate(rows) && KeyByDate(rows)[rows[i].date] == rows[i]
  {
    var init, last := rows[..|rows| - 1], rows[|rows| - 1];
    if i < |init| {
      assert init[i] == rows[i];
      assert LastOfItsDate(init, i) by {
        forall j | i < j < |init| ensures init[j].date != init[i].date {
          assert init[j] == rows[j];
        }
      }
      KeyByDateLastWins(init, i);
      assert last.date != rows[i].date;
    }
  }

  /** The default stats row is the singleton key with every counter zero and nothing validated. */
  lemma DefaultStats()
    ensures var s := CachedStats();
            s.id == STATS_ID &&
            s.totalPushups == 0 && s.totalDays == 0 && s.currentStreak == 0 && s.longestStreak == 0 &&
            !s.todayValidated && s.todayTarget == 0 && s.lastSyncedAt == 0
  {
  }
}
