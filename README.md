# daily_push_up: client-side data consistency

A Dafny model of the client core of the daily_push_up Android app: a
habit tracker in which the user validates a daily push-up count against a
health server, and the app keeps a local Room cache (one stats row, one row
per calendar day) that the main screen, the home-screen widget and two
background workers read.

The model follows the Kotlin sources component by component:

- `Entities` holds the two Room rows, `PushUpEntry` (primary key `date`) and `CachedStats` (the singleton id 0).
- `Dao.PushUpDao` is a class over the two tables.
  `@Insert(onConflict = REPLACE)` and the queries follow their SQL semantics; the reads are taken never to throw (see "## Left out").
  `getAllEntries` is a selection loop that yields the entries in SQLite's BINARY order, latest date first.
- `Repository.PushUpRepository` holds `sync` and `validateToday`.
  Each is a method proved against a step function (`SyncOutcome`, `ValidateOutcome`) over a snapshot of the tables.
  The answers of the remote calls are an input (`Api.Server`).
  The DAO write that throws, if any, is an input as well (`Dao.StoreFault`).
- `ViewModel.MainViewModel` holds the observable screen state and the user actions.
- `MainScreen` is the month calendar of `MainActivity` and its error and validate-result observers:
  - month navigation;
  - leading blanks from `Calendar.DAY_OF_WEEK`;
  - the `yyyy-MM-dd` key of each day;
  - the five-branch `when` that styles a day;
  - the reaction to an error message.
- `Gregorian` holds the calendar arithmetic behind `java.util.Calendar` and `SimpleDateFormat`.
  It uses the proleptic Gregorian calendar.
- `WidgetProvider`, `SyncWorker` and `ReminderWorker` are the widget and the two WorkManager jobs.
- `Auth.TokenStore` is the preferences-backed sign-in state.
  `RetrofitClient.Intercept` is the OkHttp interceptor that adds the bearer token and clears the sign-in on a 401.
- Two helper modules support the rest:
  - `Lang` holds Kotlin's 32-bit `Int` addition, `coerceAtLeast`, decimal text and `contains(…, ignoreCase)`.
  - `Wrappers` holds `Option` and a `Result` whose failure carries the exception's nullable message.

Each coroutine launch is one atomic step. Clock readings such as
`System.currentTimeMillis()`, the current date and `HOUR_OF_DAY` are parameters.

## Model

| member | source | states |
|---|---|---|
| Dao.BeforeIrreflexive | app/src/main/java/com/cyin/daily_push_up/data/PushUpDao.kt:18-19 | no date sorts before itself under the BINARY collation used by `ORDER BY date` |
| Dao.BeforeTransitive | app/src/main/java/com/cyin/daily_push_up/data/PushUpDao.kt:18-19 | the collation order is transitive |
| Dao.BeforeTotal | app/src/main/java/com/cyin/daily_push_up/data/PushUpDao.kt:18-19 | any two distinct dates are ordered one way or the other |
| Dao.BeforeAsymmetric | app/src/main/java/com/cyin/daily_push_up/data/PushUpDao.kt:18-19 | two dates are never ordered both ways |
| Dao.LatestExists | app/src/main/java/com/cyin/daily_push_up/data/PushUpDao.kt:18-19 | every non-empty set of dates has a latest one, so `DESC` has a first row |
| Dao.ListingHasNoDuplicates | app/src/main/java/com/cyin/daily_push_up/data/PushUpDao.kt:18-19 | the rows of a listing are pairwise distinct |
| Dao.ListingHead | app/src/main/java/com/cyin/daily_push_up/data/PushUpDao.kt:18-19 | the first row of a listing is the table's latest date |
| Dao.ListingHeadsAgree | app/src/main/java/com/cyin/daily_push_up/data/PushUpDao.kt:18-19 | two listings of one table start with the same row |
| Dao.ListingEmpty | app/src/main/java/com/cyin/daily_push_up/data/PushUpDao.kt:18-19 | the query returns an empty list exactly when the table is empty |
| Dao.ListingTail | app/src/main/java/com/cyin/daily_push_up/data/PushUpDao.kt:18-19 | the rest of a listing lists the table without its first row |
| Dao.ListingUnique | app/src/main/java/com/cyin/daily_push_up/data/PushUpDao.kt:18-19 | a table has exactly one descending listing, so the query's result is determined |
| Dao.PushUpDao.constructor | app/src/main/java/com/cyin/daily_push_up/data/AppDatabase.kt:1-13 | a fresh database has both tables empty |
| Dao.PushUpDao.InsertEntries | app/src/main/java/com/cyin/daily_push_up/data/PushUpDao.kt:12-13 | a REPLACE batch insert overwrites the rows with the batch's dates (the last batch row per date wins) and keeps every other row |
| Dao.PushUpDao.InsertEntry | app/src/main/java/com/cyin/daily_push_up/data/PushUpDao.kt:15-16 | a REPLACE insert puts the row under its date and keeps the others |
| Dao.PushUpDao.GetAllEntries | app/src/main/java/com/cyin/daily_push_up/data/PushUpDao.kt:18-19 | the result holds every row of the table exactly once, in strictly descending date order |
| Dao.PushUpDao.GetEntryByDate | app/src/main/java/com/cyin/daily_push_up/data/PushUpDao.kt:21-22 | the row with that key, or null exactly when no row has it |
| Dao.PushUpDao.ClearEntries | app/src/main/java/com/cyin/daily_push_up/data/PushUpDao.kt:24-25 | the entry table is empty and the stats table is untouched |
| Dao.PushUpDao.InsertStats | app/src/main/java/com/cyin/daily_push_up/data/PushUpDao.kt:27-28 | a REPLACE insert puts the row under its id and keeps the other rows |
| Dao.PushUpDao.GetStats | app/src/main/java/com/cyin/daily_push_up/data/PushUpDao.kt:33-34 | the row with id 0, or null exactly when there is none |
| Entities.KeyByDate | app/src/main/java/com/cyin/daily_push_up/MainActivity.kt:291 | keying rows by date always gives a table whose rows sit under their own date |
| Entities.KeyByDateKeys | app/src/main/java/com/cyin/daily_push_up/MainActivity.kt:291 | the keyed table holds exactly the dates that occur in the rows |
| Entities.KeyByDateLastWins | app/src/main/java/com/cyin/daily_push_up/MainActivity.kt:291 | under each date the keyed table holds the last row with that date |
| Entities.DefaultStats | app/src/main/java/com/cyin/daily_push_up/data/CachedStats.kt:6-17 | the default stats row has id 0, zero counters, nothing validated and a zero sync stamp |
| Repository.StatsRow | app/src/main/java/com/cyin/daily_push_up/data/PushUpRepository.kt:18-27 | the cached row has id 0, the server's six values unchanged and the stamp `now` |
| Repository.ToEntryForgetsOnlyId | app/src/main/java/com/cyin/daily_push_up/data/PushUpRepository.kt:30-38 | two server entries give the same row exactly when they differ at most in `id` |
| Repository.ToEntries | app/src/main/java/com/cyin/daily_push_up/data/PushUpRepository.kt:30-38 | the mapped list has one row per server entry, in the same order |
| Repository.SyncOutcome | app/src/main/java/com/cyin/daily_push_up/data/PushUpRepository.kt:13-46 | sync writes at most the stats row 0 (as the server reports it, stamped `now`); a success leaves exactly the server's entries keyed by date; a failure leaves the old entries or an empty table |
| Repository.SyncRemoteFailureWritesNothing | app/src/main/java/com/cyin/daily_push_up/data/PushUpRepository.kt:15-16 | a failed fetch is reported with its message and nothing is written |
| Repository.SyncSucceedsIff | app/src/main/java/com/cyin/daily_push_up/data/PushUpRepository.kt:13-46 | sync succeeds exactly when both fetches and all three DAO writes succeed |
| Repository.SyncSuccessContents | app/src/main/java/com/cyin/daily_push_up/data/PushUpRepository.kt:18-42 | after a successful sync the stats row is the server's, stamped `now`; the entry dates are exactly the server's; each date holds the last server entry with that date |
| Repository.SyncDropsUnlistedDates | app/src/main/java/com/cyin/daily_push_up/data/PushUpRepository.kt:39-40 | a cached date that the server no longer lists is gone after a successful sync |
| Repository.SyncPartialWrites | app/src/main/java/com/cyin/daily_push_up/data/PushUpRepository.kt:28-45 | a DAO exception after `insertStats` is a failure that leaves the new stats row beside the old entries or beside an empty entry table |
| Repository.SyncIdempotent | app/src/main/java/com/cyin/daily_push_up/data/PushUpRepository.kt:13-46 | syncing twice against the same answers changes only the stats row's sync stamp |
| Repository.ValidateOutcome | app/src/main/java/com/cyin/daily_push_up/data/PushUpRepository.kt:48-58 | a failure exactly when the validate call fails; a success reports the server's flag; a failure or a refusal writes nothing |
| Repository.ValidateFailureWritesNothing | app/src/main/java/com/cyin/daily_push_up/data/PushUpRepository.kt:55-57 | a failed validate call is reported with its message, and no resync happens |
| Repository.ValidateReportsServerFlag | app/src/main/java/com/cyin/daily_push_up/data/PushUpRepository.kt:50-54 | a returned call reports the server's flag; an accepted one leaves the resync's tables even when the resync fails, a refused one writes nothing |
| Repository.PushUpRepository.constructor | app/src/main/java/com/cyin/daily_push_up/data/PushUpRepository.kt:7 | the repository wraps the given DAO |
| Repository.PushUpRepository.Sync | app/src/main/java/com/cyin/daily_push_up/data/PushUpRepository.kt:13-46 | the result and the new tables are those of `SyncOutcome` on the old tables |
| Repository.PushUpRepository.ValidateToday | app/src/main/java/com/cyin/daily_push_up/data/PushUpRepository.kt:48-58 | the result and the new tables are those of `ValidateOutcome` on the old tables |
| Repository.PushUpRepository.GetAllEntries | app/src/main/java/com/cyin/daily_push_up/data/PushUpRepository.kt:60-62 | the entry table in descending date order, every row once |
| Repository.PushUpRepository.GetStats | app/src/main/java/com/cyin/daily_push_up/data/PushUpRepository.kt:64-66 | the cached row 0, or null exactly when there is none |
| ViewModel.AdjustedCount | app/src/main/java/com/cyin/daily_push_up/MainViewModel.kt:50-54 | the adjusted count is never negative; without overflow it is `current + delta`, floored at 0, with 30 for a missing current value |
| ViewModel.MainViewModel.constructor | app/src/main/java/com/cyin/daily_push_up/MainViewModel.kt:19-36 | the count starts at 30 with no validate result; the initial refresh leaves the tables of one sync, publishes its failure message and lists the entries |
| ViewModel.MainViewModel.Refresh | app/src/main/java/com/cyin/daily_push_up/MainViewModel.kt:38-48 | the tables are those of one sync; a failure publishes its (nullable) message; the entries are relisted whether or not the sync succeeded; loading ends false |
| ViewModel.MainViewModel.AdjustPushups | app/src/main/java/com/cyin/daily_push_up/MainViewModel.kt:50-54 | only the count changes, and it becomes `AdjustedCount`, which is never negative |
| ViewModel.MainViewModel.Validate | app/src/main/java/com/cyin/daily_push_up/MainViewModel.kt:56-69 | without a count nothing changes. Otherwise the tables are `ValidateOutcome`'s. Success publishes the server flag and relists the entries. Failure publishes the message and keeps the entries and the last result |
| ViewModel.MainViewModel.ClearValidateResult | app/src/main/java/com/cyin/daily_push_up/MainViewModel.kt:71-73 | the validate result becomes null |
| ViewModel.MainViewModel.ClearError | app/src/main/java/com/cyin/daily_push_up/MainViewModel.kt:75-77 | the error becomes null |
| Auth.PutString | app/src/main/java/com/cyin/daily_push_up/auth/TokenStore.kt:15-21 | putting a value stores it under the key, putting null removes the key, and other keys are untouched |
| Auth.TokenStore.constructor | app/src/main/java/com/cyin/daily_push_up/auth/TokenStore.kt:12-13 | the store reads the given preferences file |
| Auth.TokenStore.GetString | app/src/main/java/com/cyin/daily_push_up/auth/TokenStore.kt:23-33 | the stored string, or null exactly when the key is absent |
| Auth.TokenStore.GetToken | app/src/main/java/com/cyin/daily_push_up/auth/TokenStore.kt:23-24 | the stored id token, or null exactly when none is stored |
| Auth.TokenStore.IsLoggedIn | app/src/main/java/com/cyin/daily_push_up/auth/TokenStore.kt:26-27 | logged in exactly when a token is stored |
| Auth.TokenStore.GetUserEmail | app/src/main/java/com/cyin/daily_push_up/auth/TokenStore.kt:29-30 | the stored email, or null exactly when none is stored |
| Auth.TokenStore.GetUserName | app/src/main/java/com/cyin/daily_push_up/auth/TokenStore.kt:32-33 | the stored name, or null exactly when none is stored |
| Auth.TokenStore.SaveToken | app/src/main/java/com/cyin/daily_push_up/auth/TokenStore.kt:15-21 | the token, email and name read back as given (a null email or name reads back null), and the user is logged in |
| Auth.TokenStore.Clear | app/src/main/java/com/cyin/daily_push_up/auth/TokenStore.kt:35-37 | nothing is stored and the user is logged out |
| RetrofitClient.Authorize | app/src/main/java/com/cyin/daily_push_up/api/RetrofitClient.kt:24-31 | with a token the request gains exactly one `Authorization: Bearer <token>` header and is otherwise unchanged; without one it is sent as is |
| RetrofitClient.Intercept | app/src/main/java/com/cyin/daily_push_up/api/RetrofitClient.kt:22-38 | the authorized request is sent and its response returned unchanged; a 401 clears the sign-in, any other code leaves it |
| Gregorian.DaysInMonth | app/src/main/java/com/cyin/daily_push_up/MainActivity.kt:300 | a month has 28 to 31 days, and February has 29 exactly in leap years |
| Gregorian.DayOfWeek | app/src/main/java/com/cyin/daily_push_up/MainActivity.kt:297 | the weekday is SUNDAY (1) to SATURDAY (7) |
| Gregorian.MonthsFillYear | app/src/main/java/com/cyin/daily_push_up/MainActivity.kt:300 | the months' lengths add up to the year's length |
| Gregorian.YearStep | app/src/main/java/com/cyin/daily_push_up/MainActivity.kt:297 | the leap-day count of the day numbering agrees with the leap-year rule |
| Gregorian.NextFirstOfMonth | app/src/main/java/com/cyin/daily_push_up/MainActivity.kt:297-300 | the first of the next month is the month's length after the first of this one |
| Gregorian.DayNumberOrder | app/src/main/java/com/cyin/daily_push_up/MainActivity.kt:320 | on valid dates the day numbers are ordered as the calendar is, and are equal only for equal dates |
| Gregorian.YearOfEra | app/src/main/java/com/cyin/daily_push_up/MainActivity.kt:290 | the printed year is at least 1 |
| Gregorian.DateKeyEquality | app/src/main/java/com/cyin/daily_push_up/MainActivity.kt:317-319 | for any year, two keys are equal exactly when the year of era, the month and the day agree, so comparing `dateStr == todayStr` compares the fields |
| Gregorian.ZeroPadInjective | app/src/main/java/com/cyin/daily_push_up/MainActivity.kt:290 | two numbers padded to the same width give the same text exactly when they are equal |
| Gregorian.DateKeyFields | app/src/main/java/com/cyin/daily_push_up/MainActivity.kt:290 | for years 1 to 9999 the key has the fixed `yyyy-MM-dd` shape, and its year, month and day fields read back as the date |
| Gregorian.DateKeyInjective | app/src/main/java/com/cyin/daily_push_up/MainActivity.kt:317-319 | for years 1 to 9999, distinct dates have distinct keys |
| Lang.AddInt32 | app/src/main/java/com/cyin/daily_push_up/MainViewModel.kt:52 | Kotlin `Int` addition: the exact sum when it fits, otherwise the sum wrapped by 2^32 |
| Lang.CoerceAtLeast | app/src/main/java/com/cyin/daily_push_up/MainViewModel.kt:52 | the result is the value or the floor, and is at least both |
| Lang.ZeroPadValue | app/src/main/java/com/cyin/daily_push_up/MainActivity.kt:290 | a zero-padded field is all digits and reads back as the number |
| Lang.ZeroPadWidth | app/src/main/java/com/cyin/daily_push_up/MainActivity.kt:290 | a number below 10^width is padded to exactly width digits |
| Lang.IntToString | app/src/main/java/com/cyin/daily_push_up/widget/PushUpWidgetProvider.kt:101-111 | `Int.toString()` reads back as the number |
| Lang.ValueOfDigits | app/src/main/java/com/cyin/daily_push_up/widget/PushUpWidgetProvider.kt:101-111 | the decimal spelling of a natural number reads back as the number |
| Lang.ContainsIffOccurs | app/src/main/java/com/cyin/daily_push_up/MainActivity.kt:256 | `contains` is true exactly when the pattern matches at some offset |
| MainScreen.MonthAt | app/src/main/java/com/cyin/daily_push_up/MainActivity.kt:154-169 | the month at an index has a 0-based month in 0..11 and has that index |
| MainScreen.MonthAtIndex | app/src/main/java/com/cyin/daily_push_up/MainActivity.kt:119-121 | every in-range `(year, month)` is the month at its own index |
| MainScreen.NavigationRoundTrip | app/src/main/java/com/cyin/daily_push_up/MainActivity.kt:154-169 | previous then next (or next then previous) returns to the same month |
| MainScreen.StatusPrecedence | app/src/main/java/com/cyin/daily_push_up/MainActivity.kt:328-352 | every day gets exactly one of the four styles: a validated entry, else today, else the future, else missed |
| MainScreen.ClassifyDay | app/src/main/java/com/cyin/daily_push_up/MainActivity.kt:314-352 | every day of the grid gets one of the four styles, and it is validated exactly when the entry under its `yyyy-MM-dd` key is validated |
| MainScreen.ClassifyDayMeaning | app/src/main/java/com/cyin/daily_push_up/MainActivity.kt:314-352 | for every year from 1 on: a day is validated exactly when its entry is; otherwise it is today, future or missed exactly when it equals, follows or precedes today |
| MainScreen.LeadingBlanks | app/src/main/java/com/cyin/daily_push_up/MainActivity.kt:296-298 | 0 to 6 blanks, none exactly when the month starts on a Monday |
| MainScreen.LeadingBlanksSinceMonday | app/src/main/java/com/cyin/daily_push_up/MainActivity.kt:296-298 | the blanks are the days since the last Monday |
| MainScreen.FollowingMonth | app/src/main/java/com/cyin/daily_push_up/MainActivity.kt:162-169 | the month after December is January of the next year, and otherwise the next month of the same year |
| MainScreen.BlanksContinue | app/src/main/java/com/cyin/daily_push_up/MainActivity.kt:296-300 | each month's grid starts in the column where the previous month's grid stopped |
| MainScreen.DayCellsAt | app/src/main/java/com/cyin/daily_push_up/MainActivity.kt:314-352 | the day cells are numbered 1..n and each carries its own classification |
| MainScreen.CalendarLayout | app/src/main/java/com/cyin/daily_push_up/MainActivity.kt:281-363 | the grid is the blanks, then one cell per day with day d at blanks + d - 1 |
| MainScreen.June2024 | app/src/main/java/com/cyin/daily_push_up/MainActivity.kt:296-298 | 2024-06-01 is a Saturday, so the June 2024 grid starts with 5 blanks |
| MainScreen.June10Key | app/src/main/java/com/cyin/daily_push_up/MainActivity.kt:290 | June 10 of 2024 is looked up under the key "2024-06-10" |
| MainScreen.ReactToError | app/src/main/java/com/cyin/daily_push_up/MainActivity.kt:253-265 | no reaction exactly when there is no error; a shown error is the current one; sign-in starts only while signed out |
| MainScreen.ErrorReactionCases | app/src/main/java/com/cyin/daily_push_up/MainActivity.kt:253-265 | sign-in starts exactly on an error containing "401", or "Unauthorized" in any ASCII case, while signed out; any other error is shown and cleared; no error, no reaction |
| MainScreen.SignedInNeverSignsInAgain | app/src/main/java/com/cyin/daily_push_up/MainActivity.kt:256-261 | while signed in, no error starts sign-in |
| MainScreen.Http401Example | app/src/main/java/com/cyin/daily_push_up/MainActivity.kt:253-265 | Retrofit's "HTTP 401 " message starts sign-in when signed out and is shown when signed in |
| MainScreen.MainActivity.constructor | app/src/main/java/com/cyin/daily_push_up/MainActivity.kt:119-121 | the calendar opens on the current month |
| MainScreen.MainActivity.OnPreviousMonth | app/src/main/java/com/cyin/daily_push_up/MainActivity.kt:154-161 | the displayed month is the previous month index, and the grid is that month's |
| MainScreen.MainActivity.OnNextMonth | app/src/main/java/com/cyin/daily_push_up/MainActivity.kt:162-169 | the displayed month is the next month index, and the grid is that month's |
| MainScreen.MainActivity.RenderCalendar | app/src/main/java/com/cyin/daily_push_up/MainActivity.kt:281-363 | the cells are the month's `CalendarCells` for the entries keyed by date and today |
| MainScreen.MainActivity.StyleDay | app/src/main/java/com/cyin/daily_push_up/MainActivity.kt:315-352 | the string comparison of the day's key with today's key styles the day as `ClassifyDay` does |
| MainScreen.MainActivity.ObserveError | app/src/main/java/com/cyin/daily_push_up/MainActivity.kt:253-265 | the reaction is `ReactToError` of the error and the sign-in state; the error is cleared only when shown |
| MainScreen.MainActivity.ObserveValidateResult | app/src/main/java/com/cyin/daily_push_up/MainActivity.kt:244-251 | a toast exactly when the result is `true`; afterwards the result is null, so the next validate is observed anew |
| WidgetProvider.TextsFor | app/src/main/java/com/cyin/daily_push_up/widget/PushUpWidgetProvider.kt:71-111 | texts exist exactly when a stats row does; the streak text reads back as the current streak; the done texts show exactly when today is validated |
| WidgetProvider.WidgetValidateOutcome | app/src/main/java/com/cyin/daily_push_up/widget/PushUpWidgetProvider.kt:47-66 | the validate button never touches the entries, and leaves the stats table as it was or with row 0 replaced by the server's stats stamped `now` |
| WidgetProvider.WidgetWritesOnlyStatsRow | app/src/main/java/com/cyin/daily_push_up/widget/PushUpWidgetProvider.kt:47-66 | the validate button never touches the entry table and writes at most stats row 0 |
| WidgetProvider.WidgetFailureWritesNothing | app/src/main/java/com/cyin/daily_push_up/widget/PushUpWidgetProvider.kt:49-65 | an exception from either call or from the insert leaves both tables as they were |
| WidgetProvider.WidgetIgnoresRefusal | app/src/main/java/com/cyin/daily_push_up/widget/PushUpWidgetProvider.kt:50-63 | a refused validation still caches the server's stats |
| WidgetProvider.WidgetAgreesWithAppOnStats | app/src/main/java/com/cyin/daily_push_up/widget/PushUpWidgetProvider.kt:45-69 | for an accepted 30 push-ups, the widget leaves the same stats table as the app's validate-and-resync, and keeps the old entries |
| WidgetProvider.PushUpWidgetProvider.constructor | app/src/main/java/com/cyin/daily_push_up/widget/PushUpWidgetProvider.kt:51 | the provider uses the given DAO |
| WidgetProvider.PushUpWidgetProvider.OnReceive | app/src/main/java/com/cyin/daily_push_up/widget/PushUpWidgetProvider.kt:45-69 | only `ACTION_VALIDATE` runs the flow and refreshes the widgets; the tables are then `WidgetValidateOutcome`'s, and otherwise unchanged |
| WidgetProvider.PushUpWidgetProvider.OnUpdate | app/src/main/java/com/cyin/daily_push_up/widget/PushUpWidgetProvider.kt:35-43 | one update per widget id, in order: the texts of the cached stats, or none for a widget whose read throws |
| WidgetProvider.PushUpWidgetProvider.UpdateWidget | app/src/main/java/com/cyin/daily_push_up/widget/PushUpWidgetProvider.kt:71-117 | the widget is pushed the texts of the cached stats (none without a row), and pushed without texts when `getStats` throws |
| SyncWorker.ResultFor | app/src/main/java/com/cyin/daily_push_up/widget/SyncWorker.kt:14-19 | never a failure: success exactly when the sync succeeded, retry exactly when it failed |
| SyncWorker.DoWork | app/src/main/java/com/cyin/daily_push_up/widget/SyncWorker.kt:14-19 | the tables are those of one sync, the result is `ResultFor` of it, and every widget is redrawn from the stats the sync left |
| ReminderWorker.DoWork | app/src/main/java/com/cyin/daily_push_up/widget/ReminderWorker.kt:38-47 | before 6 o'clock success without a notification; otherwise a failure exactly when reading the stats throws, and else success with a notification exactly when a stats row says today is not validated, always under id 1001 |
| ReminderWorker.SendNotification | app/src/main/java/com/cyin/daily_push_up/widget/ReminderWorker.kt:49-70 | a notification is posted under the fixed id 1001 |

## Left out

- Android views, toasts, dialogs, drawables and colours are not modelled. The calendar cell carries the style of the `when`, not its drawables.
- LiveData and observers are not modelled as streams. Each `viewModelScope.launch` or `CoroutineScope(Dispatchers.IO).launch` block is one atomic step, so interleavings between them, and the `isLoading == true` state seen between steps, are not modelled.
- `observeStats` and `statsLiveData` (a LiveData of row 0) are modelled only by the one-shot `GetStats`.
- The stats observer of `MainActivity` only sets visibility and text, so it is left out. Of the validate-result observer only the toast is left out; `ObserveValidateResult` models its clearing of the result.
- Gson decoding and the HTTP transport are not modelled: a remote call is its decoded answer or a failure with a message.
- The interceptor is modelled on its own and is not composed into the sync calls.
- `GoogleAuthManager`, the sign-in and sign-out flows and `onResume` are left out, because they call Google sign-in APIs that cannot be seen.
- `isExpiringSoon` is not defined in `auth/TokenStore.kt`, so it is not modelled.
- `MyApplication` (database and worker setup) and `AppDatabase` are not part of this model beyond an empty fresh database.
- The notification channel, the pending intents and the `updateAllWidgets` broadcast are not modelled as messages. After the widget's validate flow, `OnReceive` only returns that a refresh is due. `SyncWorker.DoWork` instead runs `OnUpdate` within the same step, as if the broadcast were delivered at once. `super.onReceive` dispatch is not modelled.
- A DAO read exception in `MainViewModel` is not modelled: `getAllEntries` at MainViewModel.kt lines 45 and 63 is outside any try, so an exception there escapes the coroutine. The model takes these reads as never throwing. Read exceptions are modelled only where the code reacts to them, in `updateWidget` and in `ReminderWorker.doWork`.
- Clock reads (`System.currentTimeMillis()`, `Calendar.getInstance()`, `HOUR_OF_DAY`) are parameters.
- Calendar arithmetic is proleptic Gregorian; `java.util.GregorianCalendar` switches to the Julian calendar before October 1582, which the model does not.
- `Calendar.after` compares instants. The day cell keeps the current time of day, so the model compares calendar dates; the same-day case is excluded by `!isToday` in any case.
- `contains(…, ignoreCase = true)` is modelled with ASCII case folding only; Kotlin also folds non-ASCII letters.
- The DTO and entity numbers other than the pushup counter are unbounded integers; the Kotlin `Int` and `Long` widths are not modelled there, since nothing in the core does arithmetic on them.

## Behaviour as written

- Sync is not atomic. The code writes the stats row first, then clears the entries, then inserts them, and each call can throw on its own. The model does the same, and `Repository.SyncPartialWrites` states the states it can leave. It does not model sync as one atomic replacement of the cache.
- There is no distinct authentication error type. An auth error is recognised only by the text of its message, as the observer in `MainActivity` does.
