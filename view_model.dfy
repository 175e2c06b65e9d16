/**
 * `MainViewModel`: the observable state of the main screen and the user
 * actions that update it. Each `viewModelScope.launch` block runs as part
 * of one atomic step, so `isLoading` is seen true only inside a step.
 */
module ViewModel {
  import opened Wrappers
  import opened Entities
  import opened Api
  import opened Dao
  import opened Repository
  import Lang

  /** The count the stepper starts at, and the fallback when it has no value. */
  const DEFAULT_PUSHUPS: Lang.Int32 := 30

  /** `adjustPushups`: the count moved by `delta` in 32-bit arithmetic, floored at 0. */
  function AdjustedCount(current: Option<Lang.Int32>, delta: Lang.Int32): (n: Lang.Int32)
    ensures n >= 0
    ensures Lang.INT_MIN <= current.GetOr(DEFAULT_PUSHUPS) + delta <= Lang.INT_MAX ==>
              n == if current.GetOr(DEFAULT_PUSHUPS) + delta < 0 then 0 else current.GetOr(DEFAULT_PUSHUPS) + delta
  {
    Lang.CoerceAtLeast(Lang.AddInt32(current.GetOr(DEFAULT_PUSHUPS), delta), 0)
  }

  class MainViewModel {
    const repo: PushUpRepository
    var entries: seq<Entry>
    var isLoading: bool
    var pushupCount: Option<Lang.Int32>
    var validateResult: Option<bool>
    var error: Option<string>

    ghost predicate Valid()
      reads this, repo.dao
    {
      repo.dao.Valid()
    }

    /** The initial field values, then `refresh` (the `init` block). */
    constructor (repo: PushUpRepository, server: Server, now: int, fault: Option<StoreFault>)
      requires repo.dao.Valid()
      modifies repo.dao
      ensures this.repo == repo && Valid()
      ensures pushupCount == Some(DEFAULT_PUSHUPS) && validateResult == None && !isLoading
      ensures var o := SyncOutcome(old(repo.dao.Snapshot()), server, now, fault);
              repo.dao.Snapshot() == o.tables &&
              error == (if o.result.Failure? then o.result.message else None)
      ensures IsListing(entries, repo.dao.entries)
    {
      this.repo := repo;
      entries := [];
      isLoading := false;
      pushupCount := Some(DEFAULT_PUSHUPS);
      validateResult := None;
      error := None;
      new;
      Refresh(server, now, fault);
    }

    /**
     * Sync; on failure publish its message (which may be null); reload the
     * entries from the store whether or not the sync succeeded.
     */
    method Refresh(server: Server, now: int, fault: Option<StoreFault>)
      requires Valid()
      modifies this, repo.dao
      ensures Valid()
      ensures var o := SyncOutcome(old(repo.dao.Snapshot()), server, now, fault);
              repo.dao.Snapshot() == o.tables &&
              error == (if o.result.Failure? then o.result.message else old(error))
      ensures IsListing(entries, repo.dao.entries)
      ensures !isLoading
      ensures pushupCount == old(pushupCount) && validateResult == old(validateResult)
    {
      isLoading := true;
      var result := repo.Sync(server, now, fault);
      if result.Failure? {
        error := result.message;
      }
      entries := repo.GetAllEntries();
      isLoading := false;
    }

    /** The stepper: only `pushupCount` changes, and it is never negative. */
    method AdjustPushups(delta: Lang.Int32)
      modifies this`pushupCount
      ensures pushupCount == Some(AdjustedCount(old(pushupCount), delta))
      ensures pushupCount.value >= 0
    {
      var current := pushupCount.GetOr(DEFAULT_PUSHUPS);
      var newValue := Lang.CoerceAtLeast(Lang.AddInt32(current, delta), 0);
      pushupCount := Some(newValue);
    }

    /**
     * Without a count nothing happens. Otherwise validate the count: on
     * success publish the server's flag and reload the entries, on failure
     * publish the error and keep the entries and the last result.
     */
    method Validate(server: Server, now: int, fault: Option<StoreFault>)
      requires Valid()
      modifies this, repo.dao
      ensures Valid()
      ensures old(pushupCount).None? ==> unchanged(this) && unchanged(repo.dao)
      ensures old(pushupCount).Some? ==>
                var o := ValidateOutcome(old(repo.dao.Snapshot()), old(pushupCount).value, server, now, fault);
                repo.dao.Snapshot() == o.tables && !isLoading &&
                (o.result.Success? ==>
                   validateResult == Some(o.result.value) && IsListing(entries, repo.dao.entries) &&
                   error == old(error)) &&
                (o.result.Failure? ==>
                   error == o.result.message && entries == old(entries) &&
                   validateResult == old(validateResult))
      ensures pushupCount == old(pushupCount)
    {
      if pushupCount.None? {
        return;
      }
      var count := pushupCount.value;
      isLoading := true;
      var result := repo.ValidateToday(count, server, now, fault);
      if result.Success? {
        validateResult := Some(result.value);
        entries := repo.GetAllEntries();
      } else {
        error := result.message;
      }
      isLoading := false;
    }

    method ClearValidateResult()
      modifies this`validateResult
      ensures validateResult == None
    {
      validateResult := None;
    }

    method ClearError()
      modifies this`error
      ensures error == None
    {
      error := None;
    }
  }
}
