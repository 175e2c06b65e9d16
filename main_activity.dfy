/**
 * The decision logic of `MainActivity`: month navigation, the calendar
 * grid of `renderCalendar` (leading blanks, the `yyyy-MM-dd` lookup and the
 * precedence-ordered classification of each day) and the auth-error rule
 * of the error observer. "Today" is a parameter instead of a clock read.
 */
module MainScreen {
  import opened Wrappers
  import opened Entities
  import opened Gregorian
  import Lang
  import Auth
  import ViewModel

  // ---------------------------------------------------------------------
  // Month navigation

  datatype YearMonth = YearMonth(year: int, month: int)

  /** Months counted from January of year 0; consecutive months differ by one. */
  function MonthIndex(ym: YearMonth): int {
    12 * ym.year + ym.month
  }

  /** The month with a given index; the reference for both navigation buttons. */
  function MonthAt(k: int): (ym: YearMonth)
    ensures 0 <= ym.month <= 11
    ensures MonthIndex(ym) == k
  {
    YearMonth(k / 12, k % 12)
  }

  /** Every month with a 0-based month field in range is the month at its index. */
  lemma MonthAtIndex(ym: YearMonth)
    requires 0 <= ym.month <= 11
    ensures MonthAt(MonthIndex(ym)) == ym
  {
    var k := MonthIndex(ym);
    assert k / 12 == ym.year by {
      assert 12 * ym.year <= k < 12 * (ym.year + 1);
    }
  }

  /** Going back a month and then forward (or the other way round) returns to the same month. */
  lemma NavigationRoundTrip(ym: YearMonth)
    requires 0 <= ym.month <= 11
    ensures MonthAt(MonthIndex(MonthAt(MonthIndex(ym) - 1)) + 1) == ym
    ensures MonthAt(MonthIndex(MonthAt(MonthIndex(ym) + 1)) - 1) == ym
  {
    MonthAtIndex(ym);
  }

  // ---------------------------------------------------------------------
  // Day classification

  /**
   * The style `renderCalendar` gives a day. `Unstyled` is what the `when`
   * would leave if none of its branches fired.
   */
  datatype DayStatus = Validated | Today | Future | Missed | Unstyled

  /** The `when` of `renderCalendar`, branch by branch and in its order. */
  function StatusOf(entry: Option<Entry>, isToday: bool, isFuture: bool): DayStatus {
    if entry.Some? && entry.value.validated then Validated
    else if isToday then Today
    else if isFuture then Future
    else if entry.Some? && !entry.value.validated then Missed
    else if !isFuture then Missed
    else Unstyled
  }

  /**
   * Every day gets exactly one style, by precedence: a validated entry wins,
   * then today, then the future; everything else, with or without an entry,
   * is missed.
   */
  lemma StatusPrecedence(entry: Option<Entry>, isToday: bool, isFuture: bool)
    ensures var s := StatusOf(entry, isToday, isFuture);
            var validated := entry.Some? && entry.value.validated;
            s != Unstyled &&
            (s == Validated <==> validated) &&
            (s == Today <==> !validated && isToday) &&
            (s == Future <==> !validated && !isToday && isFuture) &&
            (s == Missed <==> !validated && !isToday && !isFuture)
  {
  }

  /**
   * Day `day` of month `m` of year `y`: looked up by its `yyyy-MM-dd` key;
   * today when its key equals today's, which `DateKeyEquality` shows is
   * agreement of year of era, month and day; in the future when it comes
   * after today in calendar order, which `DayNumberOrder` shows is the order
   * of the two calendars' instants (their clock times only matter on the
   * same day, which the key comparison excludes).
   */
  function ClassifyDay(y: int, m: int, day: int, entryMap: map<string, Entry>, today: Date): (s: DayStatus)
    requires 0 <= m < 12 && 1 <= day
    requires 0 <= today.month < 12 && 1 <= today.day
    ensures s != Unstyled
    ensures s == Validated <==> DateKey(Date(y, m, day)) in entryMap && entryMap[DateKey(Date(y, m, day))].validated
  {
    var date := Date(y, m, day);
    var key := DateKey(date);
    var entry := if key in entryMap then Some(entryMap[key]) else None;
    var isToday := YearOfEra(y) == YearOfEra(today.year) && m == today.month && day == today.day;
    var isFuture := DateBefore(today, date) && !isToday;
    StatusOf(entry, isToday, isFuture)
  }

  /**
   * For dates of years 1 to 9999: a validated entry under the day's key reads
   * as validated; otherwise the day is today, after today or before today in
   * calendar order.
   */
  lemma ClassifyDayMeaning(date: Date, entryMap: map<string, Entry>, today: Date)
    requires ValidDate(date) && ValidDate(today)
    requires 1 <= date.year && 1 <= today.year
    ensures var s := ClassifyDay(date.year, date.month, date.day, entryMap, today);
            var key := DateKey(date);
            var validated := key in entryMap && entryMap[key].validated;
            (s == Validated <==> validated) &&
            (s == Today <==> !validated && date == today) &&
            (s == Future <==> !validated && DateBefore(today, date)) &&
            (s == Missed <==> !validated && DateBefore(date, today))
  {
    DayNumberOrder(date, today);
    DayNumberOrder(today, date);
  }

  // ---------------------------------------------------------------------
  // The calendar grid

  /** `firstDayOfWeek`: the blank cells before the 1st, in a week that starts on Monday. */
  function LeadingBlanks(y: int, m: int): (n: int)
    requires 0 <= m < 12
    ensures 0 <= n <= 6
    ensures n == 0 <==> DayOfWeek(Date(y, m, 1)) == MONDAY
  {
    var f := DayOfWeek(Date(y, m, 1)) - MONDAY;
    if f < 0 then 6 else f
  }

  /** The blanks count the days since the last Monday (0001-01-01, day 1, was a Monday). */
  lemma LeadingBlanksSinceMonday(y: int, m: int)
    requires 0 <= m < 12
    ensures LeadingBlanks(y, m) == (DayNumber(Date(y, m, 1)) - 1) % 7
  {
    PreviousRemainder(DayNumber(Date(y, m, 1)));
  }

  /** The remainder of the day before: one less, wrapping from 0 to 6. */
  lemma PreviousRemainder(n: int)
    ensures (n - 1) % 7 == if n % 7 == 0 then 6 else n % 7 - 1
  {
    var q, r := n / 7, n % 7;
    assert n == 7 * q + r;
    if r == 0 {
      assert n - 1 == 7 * (q - 1) + 6;
    } else {
      assert n - 1 == 7 * q + (r - 1);
    }
  }

  lemma WeekdayShift(a: int, b: int)
    ensures (a + b) % 7 == (a % 7 + b) % 7
  {
    var q := a / 7;
    assert a == 7 * q + a % 7;
    assert a + b == 7 * q + (a % 7 + b);
  }

  /** The first of the month after `(y, m)` is the month at the next index. */
  lemma FollowingMonth(y: int, m: int)
    requires 0 <= m < 12
    ensures MonthAt(MonthIndex(YearMonth(y, m)) + 1) == if m == 11 then YearMonth(y + 1, 0) else YearMonth(y, m + 1)
  {
    if m == 11 {
      MonthAtIndex(YearMonth(y + 1, 0));
    } else {
      MonthAtIndex(YearMonth(y, m + 1));
    }
  }

  /** Each month's grid starts in the column where the previous month's grid stopped. */
  lemma BlanksContinue(y: int, m: int)
    requires 0 <= m < 12
    ensures var next := MonthAt(MonthIndex(YearMonth(y, m)) + 1);
            LeadingBlanks(next.year, next.month) == (LeadingBlanks(y, m) + DaysInMonth(y, m)) % 7
  {
    FollowingMonth(y, m);
    var next := MonthAt(MonthIndex(YearMonth(y, m)) + 1);
    NextFirstOfMonth(y, m);
    LeadingBlanksSinceMonday(y, m);
    LeadingBlanksSinceMonday(next.year, next.month);
    WeekdayShift(DayNumber(Date(y, m, 1)) - 1, DaysInMonth(y, m));
  }

  /** One cell of the grid: an empty cell or a numbered, styled day. */
  datatype Cell = Blank | DayCell(day: int, status: DayStatus)

  /** The cells of days 1 to `n`. */
  function DayCells(y: int, m: int, n: nat, entryMap: map<string, Entry>, today: Date): seq<Cell>
    requires 0 <= m < 12
    requires 0 <= today.month < 12 && 1 <= today.day
  {
    if n == 0 then []
    else DayCells(y, m, n - 1, entryMap, today) + [DayCell(n, ClassifyDay(y, m, n, entryMap, today))]
  }

  /** The grid of month `m` of year `y`, entries keyed by date with the last one per date winning. */
  function CalendarCells(y: int, m: int, entries: seq<Entry>, today: Date): seq<Cell>
    requires 0 <= m < 12
    requires 0 <= today.month < 12 && 1 <= today.day
  {
    seq(LeadingBlanks(y, m), _ => Blank) + DayCells(y, m, DaysInMonth(y, m), KeyByDate(entries), today)
  }

  lemma {:induction false} DayCellsAt(y: int, m: int, n: nat, entryMap: map<string, Entry>, today: Date)
    requires 0 <= m < 12
    requires 0 <= today.month < 12 && 1 <= today.day
    ensures var cells := DayCells(y, m, n, entryMap, today);
            |cells| == n &&
            forall d :: 1 <= d <= n ==> cells[d - 1] == DayCell(d, ClassifyDay(y, m, d, entryMap, today))
  {
    if n > 0 {
      DayCellsAt(y, m, n - 1, entryMap, today);
    }
  }

  /**
   * The grid is the leading blanks followed by exactly one cell per day of
   * the month, day `d` in position `blanks + d - 1`.
   */
  lemma CalendarLayout(y: int, m: int, entries: seq<Entry>, today: Date)
    requires 0 <= m < 12
    requires 0 <= today.month < 12 && 1 <= today.day
    ensures var cells := CalendarCells(y, m, entries, today);
            var blanks, days := LeadingBlanks(y, m), DaysInMonth(y, m);
            |cells| == blanks + days &&
            (forall i :: 0 <= i < blanks ==> cells[i] == Blank) &&
            (forall d :: 1 <= d <= days ==>
               cells[blanks + d - 1] == DayCell(d, ClassifyDay(y, m, d, KeyByDate(entries), today)))
  {
    DayCellsAt(y, m, DaysInMonth(y, m), KeyByDate(entries), today);
  }

  /** June 2024: the 1st is a Saturday, so five blanks come first. */
  lemma June2024()
    ensures DayOfWeek(Date(2024, 5, 1)) == SATURDAY
    ensures LeadingBlanks(2024, 5) == 5
  {
    assert DaysBeforeMonth(2024, 5) == 152;
  }

  /** June 10 of 2024 is looked up under the key "2024-06-10". */
  lemma June10Key()
    ensures DateKey(Date(2024, 5, 10)) == "2024-06-10"
  {
    assert Lang.ZeroPad(2024, 4) == "2024" by {
      assert Lang.Digits(2024) == "2024" by {
        assert Lang.Digits(2) == "2";
        assert Lang.Digits(20) == "20";
        assert Lang.Digits(202) == "202";
      }
    }
    assert Lang.ZeroPad(6, 2) == "06" by {
      assert Lang.Digits(6) == "6";
      assert Lang.Zeros(1) == "0";
    }
    assert Lang.ZeroPad(10, 2) == "10" by {
      assert Lang.Digits(1) == "1";
      assert Lang.Digits(10) == "10";
    }
  }

  // ---------------------------------------------------------------------
  // The error observer

  /** What the observer does with the current error. */
  datatype ErrorReaction = NoReaction | StartSignIn | ShowAndClear(message: string)

  /** `error.contains("401") || error.contains("Unauthorized", ignoreCase = true)`. */
  predicate LooksLikeAuthError(e: string) {
    Lang.Contains(e, "401", false) || Lang.Contains(e, "Unauthorized", true)
  }

  /** The observer's reaction to the current error, given whether a token is stored. */
  function ReactToError(error: Option<string>, loggedIn: bool): (r: ErrorReaction)
    ensures r == NoReaction <==> error.None?
    ensures r.ShowAndClear? ==> error == Some(r.message)
    ensures r == StartSignIn ==> !loggedIn
  {
    if error.None? then NoReaction
    else if LooksLikeAuthError(error.value) && !loggedIn then StartSignIn
    else ShowAndClear(error.value)
  }

  /**
   * Sign-in starts exactly when there is an error in which "401" or
   * "Unauthorized" (in any ASCII case) occurs at some position and no token
   * is stored; every other error is shown and cleared; no error, no reaction.
   */
  lemma ErrorReactionCases(error: Option<string>, loggedIn: bool)
    ensures var r := ReactToError(error, loggedIn);
            (r == NoReaction <==> error.None?) &&
            (r == StartSignIn <==>
               error.Some? && !loggedIn &&
               ((exists i :: 0 <= i <= |error.value| - 3 && Lang.MatchesAt(error.value, "401", i, false)) ||
                (exists i :: 0 <= i <= |error.value| - 12 && Lang.MatchesAt(error.value, "Unauthorized", i, true)))) &&
            (r.ShowAndClear? ==> error == Some(r.message))
  {
    if error.Some? {
      Lang.ContainsIffOccurs(error.value, "401", false);
      Lang.ContainsIffOccurs(error.value, "Unauthorized", true);
    }
  }

  /** A signed-in user never gets sent back to sign-in, whatever the error says. */
  lemma SignedInNeverSignsInAgain(error: Option<string>)
    ensures ReactToError(error, true) != StartSignIn
  {
  }

  /** Retrofit's "HTTP 401 " message triggers sign-in only when signed out. */
  lemma Http401Example()
    ensures ReactToError(Some("HTTP 401 "), false) == StartSignIn
    ensures ReactToError(Some("HTTP 401 "), true) == ShowAndClear("HTTP 401 ")
  {
    Lang.ContainsIffOccurs("HTTP 401 ", "401", false);
    assert Lang.MatchesAt("HTTP 401 ", "401", 5, false);
  }

  // ---------------------------------------------------------------------
  // The activity

  class MainActivity {
    var displayedYear: int
    /** 0-based, as `Calendar.MONTH`. */
    var displayedMonth: int

    ghost predicate Valid()
      reads this
    {
      0 <= displayedMonth <= 11
    }

    ghost function Displayed(): YearMonth
      reads this
    {
      YearMonth(displayedYear, displayedMonth)
    }

    /** `initApp`: the calendar opens on the current month. */
    constructor (now: Date)
      requires 0 <= now.month < 12
      ensures Valid() && displayedYear == now.year && displayedMonth == now.month
    {
      displayedYear := now.year;
      displayedMonth := now.month;
    }

    /** The previous-month button: one month back, then the grid of the entries the view model holds. */
    method OnPreviousMonth(vm: ViewModel.MainViewModel, today: Date) returns (cells: seq<Cell>)
      requires Valid() && ValidDate(today)
      modifies this
      ensures Valid()
      ensures Displayed() == MonthAt(MonthIndex(old(Displayed())) - 1)
      ensures cells == CalendarCells(displayedYear, displayedMonth, vm.entries, today)
    {
      ghost var before := Displayed();
      displayedMonth := displayedMonth - 1;
      if displayedMonth < 0 {
        displayedMonth := 11;
        displayedYear := displayedYear - 1;
      }
      MonthAtIndex(Displayed());
      assert MonthIndex(Displayed()) == MonthIndex(before) - 1;
      cells := RenderCalendar(vm.entries, today);
    }

    /** The next-month button: one month forward, then the grid. */
    method OnNextMonth(vm: ViewModel.MainViewModel, today: Date) returns (cells: seq<Cell>)
      requires Valid() && ValidDate(today)
      modifies this
      ensures Valid()
      ensures Displayed() == MonthAt(MonthIndex(old(Displayed())) + 1)
      ensures cells == CalendarCells(displayedYear, displayedMonth, vm.entries, today)
    {
      ghost var before := Displayed();
      displayedMonth := displayedMonth + 1;
      if displayedMonth > 11 {
        displayedMonth := 0;
        displayedYear := displayedYear + 1;
      }
      MonthAtIndex(Displayed());
      assert MonthIndex(Displayed()) == MonthIndex(before) + 1;
      cells := RenderCalendar(vm.entries, today);
    }

    /** `renderCalendar`: the blank cells, then one classified cell per day of the displayed month. */
    method RenderCalendar(entries: seq<Entry>, today: Date) returns (cells: seq<Cell>)
      requires Valid() && ValidDate(today)
      ensures cells == CalendarCells(displayedYear, displayedMonth, entries, today)
    {
      var entryMap := KeyByDate(entries);
      var todayStr := DateKey(today);
      var firstDayOfWeek := DayOfWeek(Date(displayedYear, displayedMonth, 1)) - MONDAY;
      if firstDayOfWeek < 0 {
        firstDayOfWeek := 6;
      }
      var daysInMonth := DaysInMonth(displayedYear, displayedMonth);
      cells := [];
      for i := 0 to firstDayOfWeek
        invariant cells == seq(i, _ => Blank)
      {
        cells := cells + [Blank];
      }
      ghost var blanks := cells;
      for day := 1 to daysInMonth + 1
        invariant cells == blanks + DayCells(displayedYear, displayedMonth, day - 1, entryMap, today)
      {
        var status := StyleDay(displayedYear, displayedMonth, day, entryMap, todayStr, today);
        cells := cells + [DayCell(day, status)];
      }
      assert firstDayOfWeek == LeadingBlanks(displayedYear, displayedMonth);
    }

    /** One day of `renderCalendar`'s loop: its key, its entry, and the `when` over them. */
    static method StyleDay(y: int, m: int, day: int, entryMap: map<string, Entry>, todayStr: string, today: Date)
      returns (status: DayStatus)
      requires ValidDate(Date(y, m, day)) && ValidDate(today) && todayStr == DateKey(today)
      ensures status == ClassifyDay(y, m, day, entryMap, today)
    {
      var date := Date(y, m, day);
      var dateStr := DateKey(date);
      var entry := if dateStr in entryMap then Some(entryMap[dateStr]) else None;
      var isToday := dateStr == todayStr;
      DateKeyEquality(date, today);
      var isFuture := DateBefore(today, date) && !isToday;
      status := StatusOf(entry, isToday, isFuture);
    }

    /**
     * The validate-result observer: a result of `true` is toasted, and any
     * non-null result is then cleared, so the next validate is observed anew.
     */
    method ObserveValidateResult(vm: ViewModel.MainViewModel) returns (toast: bool)
      modifies vm`validateResult
      ensures toast <==> old(vm.validateResult) == Some(true)
      ensures vm.validateResult == None
    {
      toast := false;
      if vm.validateResult.Some? {
        toast := vm.validateResult.value;
        vm.ClearValidateResult();
      }
    }

    /**
     * The error observer: on an auth-looking error while signed out it starts
     * sign-in and keeps the error; any other error is shown and cleared.
     */
    method ObserveError(vm: ViewModel.MainViewModel, tokens: Auth.TokenStore) returns (reaction: ErrorReaction)
      modifies vm`error
      ensures reaction == ReactToError(old(vm.error), tokens.IsLoggedIn())
      ensures reaction.ShowAndClear? ==> vm.error == None
      ensures !reaction.ShowAndClear? ==> vm.error == old(vm.error)
    {
      reaction := NoReaction;
      if vm.error.Some? {
        var error := vm.error.value;
        if LooksLikeAuthError(error) {
          if !tokens.IsLoggedIn() {
            reaction := StartSignIn;
            return;
          }
        }
        reaction := ShowAndClear(error);
        vm.ClearError();
      }
    }
  }
}
