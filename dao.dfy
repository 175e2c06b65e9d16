/**
 * `PushUpDao`: the two Room tables and the queries over them, with the
 * semantics of their `@Insert(onConflict = REPLACE)` and `@Query`
 * annotations.
 */
module Dao {
  import opened Wrappers
  import opened Entities

  /**
   * SQLite's BINARY collation on TEXT: code-point order, a proper prefix
   * first. `Before(a, b)` is `a < b`.
   */
  predicate Before(a: string, b: string)
    decreases |a|
  {
    if a == [] then b != []
    else if b == [] then false
    else if a[0] != b[0] then a[0] < b[0]
    else Before(a[1..], b[1..])
  }

  lemma {:induction false} BeforeIrreflexive(a: string)
    ensures !Before(a, a)
    decreases |a|
  {
    if a != [] { BeforeIrreflexive(a[1..]); }
  }

  lemma {:induction false} BeforeTransitive(a: string, b: string, c: string)
    requires Before(a, b) && Before(b, c)
    ensures Before(a, c)
    decreases |a|
  {
    if a != [] && a[0] == b[0] && b[0] == c[0] {
      BeforeTransitive(a[1..], b[1..], c[1..]);
    }
  }

  lemma {:induction false} BeforeTotal(a: string, b: string)
    requires a != b
    ensures Before(a, b) || Before(b, a)
    decreases |a|
  {
    if a != [] && b != [] && a[0] == b[0] {
      assert a == [a[0]] + a[1..] && b == [b[0]] + b[1..];
      BeforeTotal(a[1..], b[1..]);
    }
  }

  lemma BeforeAsymmetric(a: string, b: string)
    requires Before(a, b)
    ensures !Before(b, a)
  {
    if Before(b, a) {
      BeforeTransitive(a, b, a);
      BeforeIrreflexive(a);
    }
  }

  /** `m` sorts after every other date of `keys`. */
  predicate IsLatest(m: string, keys: set<string>) {
    forall k :: k in keys && k != m ==> Before(k, m)
  }

  /** A non-empty set of dates has a latest one. */
  lemma {:induction false} LatestExists(keys: set<string>)
    requires keys != {}
    ensures exists m :: m in keys && IsLatest(m, keys)
    decreases keys
  {
    var x :| x in keys;
    var rest := keys - {x};
    if rest != {} {
      LatestExists(rest);
      var m :| m in rest && IsLatest(m, rest);
      BeforeTotal(x, m);
      if Before(m, x) {
        forall k | k in keys && k != x ensures Before(k, x) {
          if k != m { BeforeTransitive(k, m, x); }
        }
        assert IsLatest(x, keys);
      } else {
        assert IsLatest(m, keys);
      }
    } else {
      assert keys == {x};
    }
  }

  /**
   * The result of `SELECT * FROM pushup_entries ORDER BY date DESC` on
   * table `t`: every row of `t` exactly once, latest date first.
   */
  ghost predicate IsListing(rows: seq<Entry>, t: map<string, Entry>) {
    (forall i, j :: 0 <= i < j < |rows| ==> Before(rows[j].date, rows[i].date)) &&
    (forall i :: 0 <= i < |rows| ==> rows[i].date in t && t[rows[i].date] == rows[i]) &&
    (forall d :: d in t ==> exists i :: 0 <= i < |rows| && rows[i].date == d)
  }

  /** A listing repeats no row. */
  lemma ListingHasNoDuplicates(rows: seq<Entry>, t: map<string, Entry>, i: int, j: int)
    requires IsListing(rows, t)
    requires 0 <= i < |rows| && 0 <= j < |rows| && i != j
    ensures rows[i] != rows[j]
  {
    if i < j { BeforeIrreflexive(rows[i].date); } else { BeforeIrreflexive(rows[j].date); }
  }

  /** The first row of a listing carries the latest date of the table. */
  lemma ListingHead(rows: seq<Entry>, t: map<string, Entry>)
    requires IsListing(rows, t) && rows != []
    ensures rows[0].date in t && IsLatest(rows[0].date, t.Keys)
  {
    forall k | k in t.Keys && k != rows[0].date ensures Before(k, rows[0].date) {
      var i :| 0 <= i < |rows| && rows[i].date == k;
      assert i != 0;
    }
  }

  /** Dropping the first row of a listing lists the table without that row. */
  lemma ListingTail(rows: seq<Entry>, t: map<string, Entry>)
    requires IsListing(rows, t) && rows != []
    ensures IsListing(rows[1..], t - {rows[0].date})
  {
    var d, tail, rest := rows[0].date, rows[1..], t - {rows[0].date};
    BeforeIrreflexive(d);
    forall i, j | 0 <= i < j < |tail| ensures Before(tail[j].date, tail[i].date) {
      assert tail[i] == rows[i + 1] && tail[j] == rows[j + 1];
    }
    forall i | 0 <= i < |tail| ensures tail[i].date in rest && rest[tail[i].date] == tail[i] {
      assert tail[i] == rows[i + 1];
      assert Before(rows[i + 1].date, d);
    }
    forall e | e in rest ensures exists i :: 0 <= i < |tail| && tail[i].date == e {
      var i :| 0 <= i < |rows| && rows[i].date == e;
      assert tail[i - 1].date == e;
    }
  }

  /** Two listings of one table start with the same row. */
  lemma ListingHeadsAgree(r1: seq<Entry>, r2: seq<Entry>, t: map<string, Entry>)
    requires IsListing(r1, t) && IsListing(r2, t) && r1 != [] && r2 != []
    ensures r1[0] == r2[0]
  {
    ListingHead(r1, t);
    ListingHead(r2, t);
    var d1, d2 := r1[0].date, r2[0].date;
    if d1 != d2 {
      BeforeAsymmetric(d1, d2);
    }
  }

  /** A listing is empty exactly when its table is. */
  lemma ListingEmpty(rows: seq<Entry>, t: map<string, Entry>)
    requires IsListing(rows, t)
    ensures rows == [] <==> t == map[]
  {
    if rows != [] {
      assert rows[0].date in t;
    } else {
      assert forall d :: d !in t;
    }
  }

  /**
   * A selection in progress: `rows` lists, latest first, the rows of `t`
   * whose dates are no longer in `rest`, and every date left in `rest`
   * sorts before all of them.
   */
  ghost predicate Selected(rows: seq<Entry>, rest: set<string>, t: map<string, Entry>) {
    rest <= t.Keys &&
    (forall i, j :: 0 <= i < j < |rows| ==> Before(rows[j].date, rows[i].date)) &&
    (forall i :: 0 <= i < |rows| ==> rows[i].date in t && t[rows[i].date] == rows[i] && rows[i].date !in rest) &&
    (forall i, k :: 0 <= i < |rows| && k in rest ==> Before(k, rows[i].date)) &&
    (forall d :: d in t && d !in rest ==> exists i :: 0 <= i < |rows| && rows[i].date == d)
  }

  /** Moving the latest remaining date to the end of the rows keeps the selection going. */
  lemma SelectNext(rows: seq<Entry>, rest: set<string>, t: map<string, Entry>, top: string)
    requires KeyedByDate(t) && Selected(rows, rest, t)
    requires top in rest && IsLatest(top, rest)
    ensures Selected(rows + [t[top]], rest - {top}, t)
  {
    var rows', rest' := rows + [t[top]], rest - {top};
    var n := |rows|;
    assert forall i :: 0 <= i < n ==> rows'[i] == rows[i];
    assert rows'[n].date == top;
    forall i, j | 0 <= i < j < |rows'| ensures Before(rows'[j].date, rows'[i].date) {
      if j == n { assert Before(top, rows[i].date); }
    }
    forall i, k | 0 <= i < |rows'| && k in rest' ensures Before(k, rows'[i].date) {
      if i == n { assert k != top; }
    }
    forall d | d in t && d !in rest' ensures exists i :: 0 <= i < |rows'| && rows'[i].date == d {
      if d == top {
        assert rows'[n].date == d;
      } else {
        var i :| 0 <= i < n && rows[i].date == d;
        assert rows'[i].date == d;
      }
    }
  }

  /** The order is total on dates, so a table has one listing only. */
  lemma {:induction false} ListingUnique(r1: seq<Entry>, r2: seq<Entry>, t: map<string, Entry>)
    requires IsListing(r1, t) && IsListing(r2, t)
    ensures r1 == r2
    decreases |r1|
  {
    ListingEmpty(r1, t);
    ListingEmpty(r2, t);
    if r1 != [] {
      ListingHeadsAgree(r1, r2, t);
      var rest := t - {r1[0].date};
      assert IsListing(r1[1..], rest) by { ListingTail(r1, t); }
      assert IsListing(r2[1..], rest) by { ListingTail(r2, t); }
      ListingUnique(r1[1..], r2[1..], rest);
      SameHeadSameTail(r1, r2);
    }
  }

  /** Sequences that agree in their first element and in the rest are equal. */
  lemma SameHeadSameTail(r1: seq<Entry>, r2: seq<Entry>)
    requires r1 != [] && r2 != [] && r1[0] == r2[0] && r1[1..] == r2[1..]
    ensures r1 == r2
  {
    assert r1 == [r1[0]] + r1[1..] && r2 == [r2[0]] + r2[1..];
  }

  /** A snapshot of both tables. */
  datatype Tables = Tables(entries: map<string, Entry>, stats: map<int, CachedStats>)

  /** Which DAO call of a sequence throws, and the exception message. */
  datatype StoreStep = InsertStatsStep | ClearEntriesStep | InsertEntriesStep
  datatype StoreFault = StoreFault(step: StoreStep, message: Option<string>)

  predicate FailsAt(fault: Option<StoreFault>, step: StoreStep) {
    fault.Some? && fault.value.step == step
  }

  class PushUpDao {
    /** Table `pushup_entries`, by primary key `date`. */
    var entries: map<string, Entry>
    /** Table `cached_stats`, by primary key `id`. */
    var stats: map<int, CachedStats>

    /** Every row sits under its own primary key. */
    ghost predicate Valid()
      reads this
    {
      KeyedByDate(entries) && forall k :: k in stats ==> stats[k].id == k
    }

    function Snapshot(): Tables
      reads this
    {
      Tables(entries, stats)
    }

    constructor ()
      ensures Valid() && entries == map[] && stats == map[]
    {
      entries := map[];
      stats := map[];
    }

    /** REPLACE insert of a batch: each row replaces the row with its date; later rows of the batch win. */
    method InsertEntries(batch: seq<Entry>)
      requires Valid()
      modifies this`entries
      ensures Valid()
      ensures entries == old(entries) + KeyByDate(batch)
      ensures forall d :: d in old(entries) && !HasDate(batch, d) ==> d in entries && entries[d] == old(entries)[d]
    {
      forall d | d in old(entries) && !HasDate(batch, d) ensures d !in KeyByDate(batch) {
        KeyByDateKeys(batch, d);
      }
      entries := entries + KeyByDate(batch);
    }

    /** REPLACE insert of one row. */
    method InsertEntry(entry: Entry)
      requires Valid()
      modifies this`entries
      ensures Valid()
      ensures entries == old(entries)[entry.date := entry]
    {
      entries := entries[entry.date := entry];
    }

    /** `ORDER BY date DESC` over the whole table. */
    method GetAllEntries() returns (rows: seq<Entry>)
      requires Valid()
      ensures IsListing(rows, entries)
    {
      rows := [];
      var rest := entries.Keys;
      while rest != {}
        invariant Selected(rows, rest, entries)
        decreases rest
      {
        LatestExists(rest);
        var top :| top in rest && IsLatest(top, rest);
        SelectNext(rows, rest, entries, top);
        rows := rows + [entries[top]];
        rest := rest - {top};
      }
    }

    /** `WHERE date = :date`: the row with that key, or null. */
    function GetEntryByDate(date: string): (r: Option<Entry>)
      requires Valid()
      reads this
      ensures r.Some? <==> date in entries
      ensures r.Some? ==> r.value.date == date && r.value == entries[date]
    {
      if date in entries then Some(entries[date]) else None
    }

    /** `DELETE FROM pushup_entries`; the stats table is outside the frame. */
    method ClearEntries()
      modifies this`entries
      ensures entries == map[]
    {
      entries := map[];
    }

    /** REPLACE insert of a stats row, under its own id. */
    method InsertStats(row: CachedStats)
      requires Valid()
      modifies this`stats
      ensures Valid()
      ensures stats == old(stats)[row.id := row]
    {
      stats := stats[row.id := row];
    }

    /** `SELECT * FROM cached_stats WHERE id = 0`: the singleton row, or null. */
    function GetStats(): (r: Option<CachedStats>)
      requires Valid()
      reads this
      ensures r.Some? <==> STATS_ID in stats
      ensures r.Some? ==> r.value.id == STATS_ID && r.value == stats[STATS_ID]
    {
      if STATS_ID in stats then Some(stats[STATS_ID]) else None
    }
  }
}
