# EmployerReportsViewer core, modelled in Dafny

EmployerReportsViewer is an Android app. An employer uses it to browse the
attendance records (punch-in and punch-out times with selfies) kept in a
Supabase `attendance` table. This project models the app's sequential logic
and proves properties of it:

- **The reports state holder** (`Reports`, `reports_view_model.dfy`). It
  covers the two-stage attendance filter: by employee, then by one of the
  date buckets `ALL`, `TODAY`, `THIS_WEEK`, `THIS_MONTH`. It also covers the
  sorted list of employee ids and the updates of `ReportsUiState` made by
  `checkConfiguration`, `loadRecords`, `selectEmployee`, `selectDateFilter`
  and `clearError`. The view model is a class with the state record and the
  two remembered credentials as fields.
- **The client cache** (`SupabaseClients`, `supabase_manager.dfy`). This is
  the singleton holding at most one Supabase client, rebuilt only when the
  url or the key changes. Each client is built with the extended timeout
  configuration.
- **The settings state holder** (`Settings`, `settings_view_model.dfy`). It
  covers editing, saving and testing the url and key, and the two-key
  preference store it reads and writes.
- **The dashboard's computations** (`Dashboard`, `reports_dashboard.dfy`).
  These are a record card's status, shift duration and time texts, the
  details dialog's punch-out section, and the two counters.
- **The record** (`AttendanceRecords`, `attendance_record.dfy`). This is
  `SupabaseAttendanceRecord`, with its defaults and its column names.

Supporting modules model the library behaviour the app relies on:

- `KotlinStd` (`kotlin_std.dfy`) covers Kotlin's whitespace, `trim`,
  `isBlank`, `take`, `replace`, `Long.toString`, the truncating `/` and `%`,
  and `String.compareTo`.
- `JavaTime` (`java_time.dfy`) covers `LocalDate`/`LocalDateTime`, the strict
  `ISO_LOCAL_DATE_TIME` parser, `toEpochDay`, `dayOfWeek`, and
  `ChronoUnit.MINUTES.between`.
- `Timestamps` (`timestamps.dfy`) covers the app's normalisation, which
  replaces every space by `T` and keeps the first 19 characters before
  parsing.
- `Sequences` (`sequences.dfy`) covers order-preserving filtering,
  sub-lists, distinct, and sorting.
- `Wrappers` (`wrappers.dfy`) defines `Option`, and `Outcome`, the result of
  a foreign call: a value, or a failure with an optional message.

Dates are triples. Comparisons and the week arithmetic go through the epoch
day, computed with the JDK's own formula. `EpochDayOrder` proves that the
order of epoch days is the calendar order.

`today` is a parameter wherever the app reads the clock. The day of the
week follows ISO 8601:2004 section 4.1.4, where Monday is day 1. The accepted
timestamp shapes are the extended local date-time format of ISO 8601:2004
section 4.3.2, with or without seconds. The space separator is the one that
section 5.6 of RFC 3339 allows.

Each asynchronous operation is split into two methods. A begin step does
what happens before the foreign call. A completion step takes that call's
outcome as a parameter. The preference store is a `map<string, string>`,
passed in and returned.

`loadRecords`' success path recomputes the shown list from the date bucket
alone. It passes `null` as the employee, so an employee selected before a
reload stays selected in the drop-down while the list shows every
employee's records. `Reports.ReportsViewModel.CompleteLoad` states exactly
this behaviour.

## Model

| member | source | states |
|---|---|---|
| AttendanceRecords.AttendanceRecord | app/src/main/java/com/pragament/employerreportsviewer/data/model/SupabaseAttendanceRecord.kt:7-16 | `SupabaseAttendanceRecord`: an optional id, the employee id, optional punch times and image urls, `isSynced` and an optional creation time |
| AttendanceRecords.NewRecord | app/src/main/java/com/pragament/employerreportsviewer/data/model/SupabaseAttendanceRecord.kt:7-16 | a record needs only an employee id; id, times, image urls and creation time default to absent and `isSynced` to true |
| AttendanceRecords.ColumnName | app/src/main/java/com/pragament/employerreportsviewer/data/model/SupabaseAttendanceRecord.kt:8-15 | each field's column: its `@SerialName` (`employee_id`, `punch_in_time`, …), or `id` for the unannotated id |
| AttendanceRecords.FieldOfColumn | app/src/main/java/com/pragament/employerreportsviewer/data/model/SupabaseAttendanceRecord.kt:8-15 | a column found in a decoded row names the field it was looked up for |
| AttendanceRecords.ColumnRoundTrip | app/src/main/java/com/pragament/employerreportsviewer/data/model/SupabaseAttendanceRecord.kt:8-15 | every field is found again under its snake_case column name (`employee_id`, `punch_out_image_url`, …) |
| AttendanceRecords.ColumnNameInjective | app/src/main/java/com/pragament/employerreportsviewer/data/model/SupabaseAttendanceRecord.kt:8-15 | no two fields share a column |
| AttendanceRecords.Ids | app/src/main/java/com/pragament/employerreportsviewer/viewmodel/ReportsViewModel.kt:82 | `map { it.employeeId }`: one id per record, in record order |
| AttendanceRecords.IdsOfSubsequence | app/src/main/java/com/pragament/employerreportsviewer/ui/screens/ReportsDashboard.kt:242 | the ids of a sub-list of records form a sub-list of the ids |
| KotlinStd.Trim | app/src/main/java/com/pragament/employerreportsviewer/viewmodel/SettingsViewModel.kt:86-87 | `trim()` removes leading and trailing whitespace only; the result neither starts nor ends with whitespace |
| KotlinStd.BlankIffTrimsToEmpty | app/src/main/java/com/pragament/employerreportsviewer/viewmodel/SettingsViewModel.kt:89 | a string is blank exactly when trimming leaves nothing |
| KotlinStd.TrimIdempotent | app/src/main/java/com/pragament/employerreportsviewer/viewmodel/SettingsViewModel.kt:69-70 | trimming twice is trimming once |
| KotlinStd.TrimPreservesBlankness | app/src/main/java/com/pragament/employerreportsviewer/viewmodel/SettingsViewModel.kt:86-89 | trimming neither makes nor unmakes a blank string |
| KotlinStd.IsWhitespace | app/src/main/java/com/pragament/employerreportsviewer/viewmodel/SettingsViewModel.kt:86-89 | `Char.isWhitespace()`: the controls TAB to CR and FS to US, and every Unicode space separator (the no-break spaces included), line separator and paragraph separator |
| KotlinStd.IsBlank | app/src/main/java/com/pragament/employerreportsviewer/viewmodel/SettingsViewModel.kt:89 | `isBlank()`: every character is whitespace, so the empty string is blank |
| KotlinStd.Take | app/src/main/java/com/pragament/employerreportsviewer/viewmodel/ReportsViewModel.kt:143 | `take(n)` is the prefix of length `n`, or the whole string when it is shorter |
| KotlinStd.ReplaceAll | app/src/main/java/com/pragament/employerreportsviewer/viewmodel/ReportsViewModel.kt:143 | `replace(" ", "T")` keeps the length, replaces every occurrence of the character and nothing else, and leaves none behind |
| KotlinStd.IntToString | app/src/main/java/com/pragament/employerreportsviewer/ui/screens/ReportsDashboard.kt:520 | `Long.toString()`: a non-empty text of digits and a leading `-` for a negative number |
| KotlinStd.TruncDiv | app/src/main/java/com/pragament/employerreportsviewer/ui/screens/ReportsDashboard.kt:518 | Kotlin's `/` on `Long` rounds the quotient toward zero |
| KotlinStd.TruncRem | app/src/main/java/com/pragament/employerreportsviewer/ui/screens/ReportsDashboard.kt:519 | Kotlin's `%` on `Long` is what the truncated quotient leaves |
| KotlinStd.LexLess | app/src/main/java/com/pragament/employerreportsviewer/viewmodel/ReportsViewModel.kt:82 | `String.compareTo(...) < 0`: lexicographic on characters, a proper prefix before its extensions |
| KotlinStd.IntToStringRoundTrip | app/src/main/java/com/pragament/employerreportsviewer/ui/screens/ReportsDashboard.kt:520 | a `Long`'s decimal text reads back as the number |
| KotlinStd.IntToStringInjective | app/src/main/java/com/pragament/employerreportsviewer/ui/screens/ReportsDashboard.kt:520 | different numbers have different texts |
| KotlinStd.NatToStringRoundTrip | app/src/main/java/com/pragament/employerreportsviewer/ui/screens/ReportsDashboard.kt:520 | the digits `IntToString` writes for a duration part's magnitude read back as that magnitude |
| KotlinStd.TruncDivRem | app/src/main/java/com/pragament/employerreportsviewer/ui/screens/ReportsDashboard.kt:518-519 | `/` and `%` on `Long` recombine to the dividend, the remainder is smaller than the divisor and has the dividend's sign |
| KotlinStd.TruncDivNegate | app/src/main/java/com/pragament/employerreportsviewer/ui/screens/ReportsDashboard.kt:518 | truncating division commutes with negation |
| KotlinStd.LexLessIrreflexive | app/src/main/java/com/pragament/employerreportsviewer/viewmodel/ReportsViewModel.kt:82 | `String.compareTo` is a strict order: irreflexive |
| KotlinStd.LexLessTransitive | app/src/main/java/com/pragament/employerreportsviewer/viewmodel/ReportsViewModel.kt:82 | … transitive |
| KotlinStd.LexLessTotal | app/src/main/java/com/pragament/employerreportsviewer/viewmodel/ReportsViewModel.kt:82 | … and total on different strings |
| KotlinStd.LexLessAsymmetric | app/src/main/java/com/pragament/employerreportsviewer/viewmodel/ReportsViewModel.kt:82 | … and asymmetric |
| Sequences.Filter | app/src/main/java/com/pragament/employerreportsviewer/viewmodel/ReportsViewModel.kt:133 | `filter` keeps exactly the elements satisfying the predicate, in order and with their multiplicity |
| Sequences.FilterFilter | app/src/main/java/com/pragament/employerreportsviewer/viewmodel/ReportsViewModel.kt:132-174 | two filters in a row are one filter by the conjunction |
| Sequences.FilterMonotone | app/src/main/java/com/pragament/employerreportsviewer/viewmodel/ReportsViewModel.kt:138-174 | a weaker predicate keeps a super-list |
| Sequences.Distinct | app/src/main/java/com/pragament/employerreportsviewer/ui/screens/ReportsDashboard.kt:242 | `distinct()` keeps each element once and no other, as a sub-list of the input whose elements appear in the order of their first occurrences |
| Sequences.SortStrings | app/src/main/java/com/pragament/employerreportsviewer/viewmodel/ReportsViewModel.kt:82 | `sorted()` returns a sorted permutation |
| Sequences.SortedDistinct | app/src/main/java/com/pragament/employerreportsviewer/viewmodel/ReportsViewModel.kt:82 | `distinct().sorted()` is strictly increasing and holds exactly the input's elements |
| Sequences.SortedPermutationOfDistinct | app/src/main/java/com/pragament/employerreportsviewer/viewmodel/ReportsViewModel.kt:82 | a sorted permutation of a list without repeats is strictly increasing, so `distinct().sorted()` has no equal neighbours |
| Sequences.StrictlySortedUnique | app/src/main/java/com/pragament/employerreportsviewer/viewmodel/ReportsViewModel.kt:82 | a strictly sorted list is determined by its elements |
| JavaTime.ToEpochDayCountsDays | app/src/main/java/com/pragament/employerreportsviewer/viewmodel/ReportsViewModel.kt:156 | the epoch-day formula counts the days of the years and months before the date |
| JavaTime.ToEpochDay | app/src/main/java/com/pragament/employerreportsviewer/viewmodel/ReportsViewModel.kt:156-157 | `toEpochDay()` by the JDK's formula, with truncating division; 1970-01-01 is day 0 |
| JavaTime.MonthStep | app/src/main/java/com/pragament/employerreportsviewer/viewmodel/ReportsViewModel.kt:156-157 | the month-start table agrees with the month lengths: January starts at 0, and each month starts where the one before ends |
| JavaTime.DayOfWeek | app/src/main/java/com/pragament/employerreportsviewer/viewmodel/ReportsViewModel.kt:156 | `dayOfWeek.value` lies between 1 (Monday) and 7 (Sunday) |
| JavaTime.EpochDayOrder | app/src/main/java/com/pragament/employerreportsviewer/viewmodel/ReportsViewModel.kt:157 | for valid dates, `<` and `==` on `LocalDate` are `<` and `==` on epoch days |
| JavaTime.UnixEpochIsThursday | app/src/main/java/com/pragament/employerreportsviewer/viewmodel/ReportsViewModel.kt:156 | 1970-01-01 is a Thursday (ISO day 4) |
| JavaTime.UnixEpoch | app/src/main/java/com/pragament/employerreportsviewer/viewmodel/ReportsViewModel.kt:156 | 1970-01-01 is epoch day 0 |
| JavaTime.DayOfWeekSucc | app/src/main/java/com/pragament/employerreportsviewer/viewmodel/ReportsViewModel.kt:156 | the weekday advances by one a day, Sunday (7) wrapping to Monday (1) |
| JavaTime.ParseLocalDateTime | app/src/main/java/com/pragament/employerreportsviewer/viewmodel/ReportsViewModel.kt:143 | a successful strict parse yields a valid date-time: month length and leap years respected, hour below 24 |
| JavaTime.ParseFormatRoundTrip | app/src/main/java/com/pragament/employerreportsviewer/viewmodel/ReportsViewModel.kt:143 | every valid date-time with a 4-digit year is parsed back from its ISO text, with separator `T` or `t` |
| JavaTime.ParseFormatMinutesRoundTrip | app/src/main/java/com/pragament/employerreportsviewer/viewmodel/ReportsViewModel.kt:143 | … and from its seconds-less 16-character text |
| JavaTime.ParsedIsCanonical | app/src/main/java/com/pragament/employerreportsviewer/viewmodel/ReportsViewModel.kt:143 | a parsed text is the canonical text of its value, so the parser accepts exactly the well-formed texts |
| JavaTime.MinutesBetweenTruncates | app/src/main/java/com/pragament/employerreportsviewer/ui/screens/ReportsDashboard.kt:517 | `MINUTES.between` is the elapsed seconds divided by 60, truncated toward zero |
| JavaTime.MinutesBetween | app/src/main/java/com/pragament/employerreportsviewer/ui/screens/ReportsDashboard.kt:517 | `MINUTES.between` as the JDK computes it: whole days, then the time part brought to the same sign, each divided with truncation |
| JavaTime.MinutesBetweenAntisymmetric | app/src/main/java/com/pragament/employerreportsviewer/ui/screens/ReportsDashboard.kt:517 | swapping the two instants negates the minute count |
| Timestamps.Normalize | app/src/main/java/com/pragament/employerreportsviewer/viewmodel/ReportsViewModel.kt:143 | `replace(" ", "T").take(19)` has no space, at most 19 characters, and otherwise the input's characters |
| Timestamps.ParseTimestamp | app/src/main/java/com/pragament/employerreportsviewer/viewmodel/ReportsViewModel.kt:143 | a timestamp that parses denotes a valid date-time |
| Timestamps.TimestampRoundTrip | app/src/main/java/com/pragament/employerreportsviewer/viewmodel/ReportsViewModel.kt:143 | a stored `YYYY-MM-DD HH:MM:SS` (or `T`/`t`-separated) time followed by anything, such as fractional seconds or an offset, parses to that time |
| Timestamps.MinutesTimestampRoundTrip | app/src/main/java/com/pragament/employerreportsviewer/viewmodel/ReportsViewModel.kt:143 | a 16-character `YYYY-MM-DD HH:MM` time parses to that time with zero seconds |
| Timestamps.ParsedTimestampShape | app/src/main/java/com/pragament/employerreportsviewer/viewmodel/ReportsViewModel.kt:143 | a timestamp parses only if it has exactly 16 or at least 19 characters and its normalised prefix is canonical |
| Timestamps.LeapDayRejectedInCommonYear | app/src/main/java/com/pragament/employerreportsviewer/viewmodel/ReportsViewModel.kt:143-148 | `2023-02-29 10:00:00` does not parse |
| Timestamps.LeapDayAcceptedInLeapYear | app/src/main/java/com/pragament/employerreportsviewer/viewmodel/ReportsViewModel.kt:143 | `2024-02-29 10:00:00` parses |
| Timestamps.HourTwentyFourRejected | app/src/main/java/com/pragament/employerreportsviewer/viewmodel/ReportsViewModel.kt:143-148 | `2024-05-01 24:00:00` does not parse |
| Timestamps.ShortSecondsRejected | app/src/main/java/com/pragament/employerreportsviewer/viewmodel/ReportsViewModel.kt:143-148 | a time with a one-digit seconds field does not parse |
| Reports.DateFilter | app/src/main/java/com/pragament/employerreportsviewer/viewmodel/ReportsViewModel.kt:18-23 | the four buckets `ALL`, `TODAY`, `THIS_WEEK`, `THIS_MONTH` |
| Reports.ReportsUiState | app/src/main/java/com/pragament/employerreportsviewer/viewmodel/ReportsViewModel.kt:25-35 | the reports screen state with its defaults: not loading, unconfigured, no records, no shown records, no employee ids, no selection, `ALL`, no error and no refresh time |
| Reports.WeekStart | app/src/main/java/com/pragament/employerreportsviewer/viewmodel/ReportsViewModel.kt:156 | the week's Monday, `today.minusDays(dayOfWeek - 1)`, is at most six days before today |
| Reports.InBucket | app/src/main/java/com/pragament/employerreportsviewer/viewmodel/ReportsViewModel.kt:140-173 | `TODAY` is the same date; `THIS_WEEK` from the week's Monday to today inclusive; `THIS_MONTH` the same month of the same year; `ALL` every date |
| Reports.InDateBucket | app/src/main/java/com/pragament/employerreportsviewer/viewmodel/ReportsViewModel.kt:137-174 | `ALL` keeps every record; any other bucket needs a present punch-in time that parses to a date in the bucket |
| Reports.MatchesEmployee | app/src/main/java/com/pragament/employerreportsviewer/viewmodel/ReportsViewModel.kt:131-134 | no selection matches every record; a selection matches records with exactly that employee id |
| Reports.Selected | app/src/main/java/com/pragament/employerreportsviewer/viewmodel/ReportsViewModel.kt:124-177 | a record is shown when it matches the employee and is in the date bucket |
| Reports.EmployeeStage | app/src/main/java/com/pragament/employerreportsviewer/viewmodel/ReportsViewModel.kt:129-134 | the employee stage keeps, in order, exactly the records of the selected employee, or every record when none is selected |
| Reports.DateStage | app/src/main/java/com/pragament/employerreportsviewer/viewmodel/ReportsViewModel.kt:137-174 | the date stage keeps, in order, exactly the records in the bucket; `ALL` keeps all |
| Reports.ApplyFilters | app/src/main/java/com/pragament/employerreportsviewer/viewmodel/ReportsViewModel.kt:124-177 | the result is an order-preserving sub-list holding exactly the records both criteria select, each as often as in the input; with no criteria it is the input |
| Reports.FilterEquivalent | app/src/main/java/com/pragament/employerreportsviewer/viewmodel/ReportsViewModel.kt:124-177 | the two-stage filter is a single filter by the combined criterion |
| Reports.EmployeeFilterIsExact | app/src/main/java/com/pragament/employerreportsviewer/viewmodel/ReportsViewModel.kt:132-134 | with an employee selected, every kept record is that employee's, and every record of that employee passes the employee stage |
| Reports.TodayBucket | app/src/main/java/com/pragament/employerreportsviewer/viewmodel/ReportsViewModel.kt:140-150 | `TODAY` keeps a record exactly when its punch-in time is present, parses, and falls on today |
| Reports.WeekStartIsMonday | app/src/main/java/com/pragament/employerreportsviewer/viewmodel/ReportsViewModel.kt:156 | `today.minusDays(dayOfWeek - 1)` is a Monday at most six days back |
| Reports.MondayOfDayInWeek | app/src/main/java/com/pragament/employerreportsviewer/viewmodel/ReportsViewModel.kt:156 | the seven days from a Monday all have that Monday as their week's Monday |
| Reports.ThisWeekIsCurrentIsoWeek | app/src/main/java/com/pragament/employerreportsviewer/viewmodel/ReportsViewModel.kt:151-162 | `THIS_WEEK` holds exactly the dates up to today in today's Monday-based week |
| Reports.WeekBoundaries | app/src/main/java/com/pragament/employerreportsviewer/viewmodel/ReportsViewModel.kt:156-157 | this week's Monday is kept, the Sunday before it is dropped, and any future date is dropped from `THIS_WEEK` and `TODAY` |
| Reports.WeekAcrossNewYear | app/src/main/java/com/pragament/employerreportsviewer/viewmodel/ReportsViewModel.kt:151-173 | on Wednesday 2025-01-01 the date Monday 2024-12-30 is in this week but not this month, and Sunday 2024-12-29 is not in this week |
| Reports.ParseLateDecember | app/src/main/java/com/pragament/employerreportsviewer/viewmodel/ReportsViewModel.kt:154 | `2024-12-30 08:15:00` and `2024-12-29 18:00:00` parse to those date-times |
| Reports.ParsedRecordBucket | app/src/main/java/com/pragament/employerreportsviewer/viewmodel/ReportsViewModel.kt:140-173 | a record whose punch-in time parses is in a bucket exactly when its parsed date is |
| Reports.TodayInEveryBucket | app/src/main/java/com/pragament/employerreportsviewer/viewmodel/ReportsViewModel.kt:138-173 | a date in the `TODAY` bucket is in every bucket |
| Reports.TodaySublistOfWider | app/src/main/java/com/pragament/employerreportsviewer/viewmodel/ReportsViewModel.kt:124-177 | the `TODAY` list is a sub-list of every other bucket's list, for any employee criterion |
| Reports.UnparseableExcluded | app/src/main/java/com/pragament/employerreportsviewer/viewmodel/ReportsViewModel.kt:141-149 | a missing or unparseable punch-in time keeps a record out of every bucket but `ALL`, without an error |
| Reports.SortedEmployeeIds | app/src/main/java/com/pragament/employerreportsviewer/viewmodel/ReportsViewModel.kt:82 | the id list is strictly increasing in `LexLess` order and holds exactly the records' ids |
| Reports.SortedEmployeeIdsUnique | app/src/main/java/com/pragament/employerreportsviewer/viewmodel/ReportsViewModel.kt:82 | it is the only such list |
| Reports.ReportsViewModel.constructor | app/src/main/java/com/pragament/employerreportsviewer/viewmodel/ReportsViewModel.kt:25-50 | a new view model has the default `ReportsUiState` and empty credentials |
| Reports.ReportsViewModel.CheckConfiguration | app/src/main/java/com/pragament/employerreportsviewer/viewmodel/ReportsViewModel.kt:52-64 | the stored credentials are remembered; the screen is configured exactly when both are non-blank, and then the fetch starts |
| Reports.ReportsViewModel.LoadRecords | app/src/main/java/com/pragament/employerreportsviewer/viewmodel/ReportsViewModel.kt:66-76 | blank credentials: unconfigured, the "Please configure Supabase in Settings" error, no fetch; otherwise spinner on, error cleared, fetch started; nothing else changes |
| Reports.ReportsViewModel.CompleteLoad | app/src/main/java/com/pragament/employerreportsviewer/viewmodel/ReportsViewModel.kt:78-98 | success: records replaced, sorted distinct ids, shown list filtered by the current bucket with no employee, refresh time set; failure: only the spinner and the message ("Failed to load records" by default) change |
| Reports.ReportsViewModel.SelectEmployee | app/src/main/java/com/pragament/employerreportsviewer/viewmodel/ReportsViewModel.kt:102-111 | only the selection and the shown list change; the list is the loaded records filtered with the current bucket |
| Reports.ReportsViewModel.SelectDateFilter | app/src/main/java/com/pragament/employerreportsviewer/viewmodel/ReportsViewModel.kt:113-122 | the same for the date bucket |
| Reports.ReportsViewModel.ClearError | app/src/main/java/com/pragament/employerreportsviewer/viewmodel/ReportsViewModel.kt:183-185 | only the error message is cleared |
| SupabaseClients.SupabaseManager.constructor | app/src/main/java/com/pragament/employerreportsviewer/data/SupabaseManager.kt:21-23 | the cache starts empty with empty credentials |
| SupabaseClients.SupabaseManager.GetClient | app/src/main/java/com/pragament/employerreportsviewer/data/SupabaseManager.kt:26-62 | same url and key as a cached client: that client, with nothing changed; otherwise a successful build returns a new client with connect and socket timeouts of 30 000 ms and a 60 000 ms request timeout and caches it under exactly these credentials; a failed build returns the failure and leaves the cache and the credentials as they were |
| SupabaseClients.SupabaseManager.IsConfigured | app/src/main/java/com/pragament/employerreportsviewer/data/SupabaseManager.kt:64-66 | true exactly when both cached credentials are non-blank, and then a client is cached |
| SupabaseClients.SupabaseManager.GetCurrentClient | app/src/main/java/com/pragament/employerreportsviewer/data/SupabaseManager.kt:68 | the cached client, with nothing changed |
| SupabaseClients.SupabaseManager.ClearClient | app/src/main/java/com/pragament/employerreportsviewer/data/SupabaseManager.kt:70-74 | the cache is emptied and the credentials forgotten |
| SupabaseClients.CacheLifecycle | app/src/main/java/com/pragament/employerreportsviewer/data/SupabaseManager.kt:26-74 | asking twice gives the same client; after clearing nothing is configured and the next request builds a different client; after a request with a blank url nothing is configured if the build succeeded, and a failed build leaves the earlier credentials deciding |
| Settings.SettingsUiState | app/src/main/java/com/pragament/employerreportsviewer/viewmodel/SettingsViewModel.kt:14-22 | the settings screen state with its defaults: empty url and key, no progress, no verdicts, no error |
| Settings.ReadConfig | app/src/main/java/com/pragament/employerreportsviewer/data/AppPreferences.kt:19-24 | a stored url or key is read as stored, and a missing one as `""` |
| Settings.SaveConfig | app/src/main/java/com/pragament/employerreportsviewer/data/AppPreferences.kt:34-39 | saving stores the url and the key under their two keys and keeps every other entry |
| Settings.ReadAfterSave | app/src/main/java/com/pragament/employerreportsviewer/data/AppPreferences.kt:19-39 | what was saved is read back |
| Settings.SaveWhatWasRead | app/src/main/java/com/pragament/employerreportsviewer/data/AppPreferences.kt:19-39 | saving what was read changes what is read by nothing |
| Settings.SettingsViewModel.constructor | app/src/main/java/com/pragament/employerreportsviewer/viewmodel/SettingsViewModel.kt:14-29 | a new view model has the default `SettingsUiState` |
| Settings.SettingsViewModel.LoadSettings | app/src/main/java/com/pragament/employerreportsviewer/viewmodel/SettingsViewModel.kt:36-44 | the fields show the stored url and key; nothing else changes |
| Settings.SettingsViewModel.UpdateSupabaseUrl | app/src/main/java/com/pragament/employerreportsviewer/viewmodel/SettingsViewModel.kt:46-53 | the url is replaced and the save verdict, test verdict and error are cleared; the key and both progress flags are kept |
| Settings.SettingsViewModel.UpdateSupabaseKey | app/src/main/java/com/pragament/employerreportsviewer/viewmodel/SettingsViewModel.kt:55-62 | the same for the key |
| Settings.SettingsViewModel.SaveSettingsBegin | app/src/main/java/com/pragament/employerreportsviewer/viewmodel/SettingsViewModel.kt:64-71 | saving flag raised, error cleared, the trimmed url and key are what will be stored, the fields keep their text |
| Settings.SettingsViewModel.SaveSettingsComplete | app/src/main/java/com/pragament/employerreportsviewer/viewmodel/SettingsViewModel.kt:72-82 | success: the store holds both values and the save is reported; failure: store unchanged, the message or "Failed to save settings", `saveSuccess` untouched |
| Settings.SettingsViewModel.TestConnectionBegin | app/src/main/java/com/pragament/employerreportsviewer/viewmodel/SettingsViewModel.kt:85-101 | a blank trimmed url or key sets only "Please enter both URL and Key" and issues no test; otherwise testing flag raised, error and verdict cleared, and the trimmed credentials go to the connection test; the fields keep their text |
| Settings.SettingsViewModel.TestConnectionComplete | app/src/main/java/com/pragament/employerreportsviewer/viewmodel/SettingsViewModel.kt:103-119 | testing flag lowered; success: verdict true; failure: verdict false with the message or "Connection failed" |
| Settings.SettingsViewModel.ClearError | app/src/main/java/com/pragament/employerreportsviewer/viewmodel/SettingsViewModel.kt:123-125 | only the error message is cleared |
| Settings.SettingsViewModel.ClearSuccessStates | app/src/main/java/com/pragament/employerreportsviewer/viewmodel/SettingsViewModel.kt:127-132 | only the two verdicts are reset |
| Settings.TrimmedBlankIffFieldBlank | app/src/main/java/com/pragament/employerreportsviewer/viewmodel/SettingsViewModel.kt:86-89 | the blank guard on the trimmed values rejects exactly the blank fields |
| Settings.SaveThenReload | app/src/main/java/com/pragament/employerreportsviewer/viewmodel/SettingsViewModel.kt:36-83 | after editing, a successful save and a fresh load, the screen shows the trimmed url and key |
| Dashboard.StatusText | app/src/main/java/com/pragament/employerreportsviewer/ui/screens/ReportsDashboard.kt:508-510 | "Checked Out" exactly when there is a punch-out time, "Working" exactly when there is none |
| Dashboard.DurationMinutes | app/src/main/java/com/pragament/employerreportsviewer/ui/screens/ReportsDashboard.kt:513-517 | a duration exists exactly when both times are present and parse, and is the elapsed seconds over 60 truncated toward zero |
| Dashboard.CardDuration | app/src/main/java/com/pragament/employerreportsviewer/ui/screens/ReportsDashboard.kt:513-524 | the duration line exists exactly when the duration does and is its `Xh Ym` text |
| Dashboard.DurationTextInjective | app/src/main/java/com/pragament/employerreportsviewer/ui/screens/ReportsDashboard.kt:518-520 | different minute counts, negative ones included, get different `Xh Ym` texts |
| Dashboard.DurationTextExamples | app/src/main/java/com/pragament/employerreportsviewer/ui/screens/ReportsDashboard.kt:518-520 | 135 minutes is "2h 15m", -90 is "-1h -30m", -30 is "0h -30m" |
| Dashboard.DurationParts | app/src/main/java/com/pragament/employerreportsviewer/ui/screens/ReportsDashboard.kt:518-519 | hours and minutes recombine to the duration, the minutes part is below 60 in size, and both parts share the duration's sign |
| Dashboard.DurationText | app/src/main/java/com/pragament/employerreportsviewer/ui/screens/ReportsDashboard.kt:518-520 | the `Xh Ym` text of a minute count, with the JVM's truncating `/` and `%` |
| Dashboard.FormatTime | app/src/main/java/com/pragament/employerreportsviewer/ui/screens/ReportsDashboard.kt:671-678 | a parsed timestamp is formatted with `hh:mm a`; otherwise the text is the input's first 8 characters |
| Dashboard.FormatDate | app/src/main/java/com/pragament/employerreportsviewer/ui/screens/ReportsDashboard.kt:680-687 | a parsed timestamp is formatted with `EEE, MMM d, yyyy`; otherwise the text is the input's first 10 characters |
| Dashboard.DateOnlyTimestampFallback | app/src/main/java/com/pragament/employerreportsviewer/ui/screens/ReportsDashboard.kt:671-687 | a date-only value `2024-05-01` shows "2024-05-" as the time and the whole date as the date |
| Dashboard.CardPunchIn | app/src/main/java/com/pragament/employerreportsviewer/ui/screens/ReportsDashboard.kt:527 | the card's punch-in text: the formatted time, or "N/A" with no time |
| Dashboard.CardPunchOut | app/src/main/java/com/pragament/employerreportsviewer/ui/screens/ReportsDashboard.kt:528 | the card's punch-out text: the formatted time, or "Still working..." with no time |
| Dashboard.CardDate | app/src/main/java/com/pragament/employerreportsviewer/ui/screens/ReportsDashboard.kt:529 | the card's date: the formatted punch-in date, or "" with no time |
| Dashboard.CardPlaceholders | app/src/main/java/com/pragament/employerreportsviewer/ui/screens/ReportsDashboard.kt:527-529 | "N/A" exactly for a missing punch-in time (or the literal text "N/A"), "" as date exactly for a missing or empty one, "Still working..." exactly for a missing punch-out time |
| Dashboard.CardConsistency | app/src/main/java/com/pragament/employerreportsviewer/ui/screens/ReportsDashboard.kt:508-529 | the card shows "Still working..." exactly when the status is "Working", and then there is no duration |
| Dashboard.SectionHeaderLine | app/src/main/java/com/pragament/employerreportsviewer/ui/screens/ReportsDashboard.kt:402-418 | the header's time line exists exactly when a time is given, and is its time and date texts |
| Dashboard.PunchOutHeader | app/src/main/java/com/pragament/employerreportsviewer/ui/screens/ReportsDashboard.kt:365 | the punch-out section header is given the punch-out time, or "Pending" for an open shift |
| Dashboard.PendingHeader | app/src/main/java/com/pragament/employerreportsviewer/ui/screens/ReportsDashboard.kt:365 | an open shift's punch-out header reads "Pending - Pending" |
| Dashboard.PunchInImageMessage | app/src/main/java/com/pragament/employerreportsviewer/ui/screens/ReportsDashboard.kt:353-360 | "No punch in image available" exactly when there is no punch-in photo |
| Dashboard.PunchOutImageMessage | app/src/main/java/com/pragament/employerreportsviewer/ui/screens/ReportsDashboard.kt:367-383 | with no punch-out photo: "User is still working" exactly for an open shift, "No punch out image available" exactly for a closed one |
| Dashboard.DialogAgreesWithCard | app/src/main/java/com/pragament/employerreportsviewer/ui/screens/ReportsDashboard.kt:374-383 | "User is still working" appears only for a record the card shows as "Working" / "Still working..." |
| Dashboard.TotalRecordsBound | app/src/main/java/com/pragament/employerreportsviewer/ui/screens/ReportsDashboard.kt:235 | the "Total Records" counter is at most the number of loaded records, and equals it with no employee and `ALL` |
| Dashboard.TodayTotalAtMostWider | app/src/main/java/com/pragament/employerreportsviewer/ui/screens/ReportsDashboard.kt:235 | the `TODAY` total never exceeds the total of another bucket for the same employee criterion |
| Dashboard.EmployeeCount | app/src/main/java/com/pragament/employerreportsviewer/ui/screens/ReportsDashboard.kt:242 | the number of different employee ids shown: at most the total, and at least one when any record is shown |
| Dashboard.EmployeeCountMonotone | app/src/main/java/com/pragament/employerreportsviewer/ui/screens/ReportsDashboard.kt:242 | narrowing the shown list never raises the employee count |

## Left out

- Compose layout, toasts, dialogs' visibility, drop-down state, navigation and colours are presentation and are not modelled.
- `AttendanceRepository` (network queries, Postgrest filtering and ordering) is foreign code. Its results reach the model as `Outcome` parameters of the completion steps.
- `AppPreferences`' DataStore is a `map<string, string>` passed in and returned. Persistence across process restarts, `clearAll` and the separate `supabaseUrl`/`supabaseKey` flows are not modelled.
- Coroutines, `viewModelScope` and the unlocked global singleton are not modelled. The begin and completion steps may be called in any order; interleavings are not analysed.
- `Reports.ReportsViewModel.CheckConfiguration`: the coroutine reads the store, then `loadRecords` launches a second coroutine whose first step runs later. The model runs both first steps at once.
- The `init` blocks' calls of `checkConfiguration` and `loadSettings` are not part of the constructors. They are the caller's next step.
- `refresh()` only calls `loadRecords()` and has no separate member.
- Clock reads become parameters: `LocalDate.now()` is `today`, and `lastRefresh`'s `HH:mm:ss` text is the parameter `refreshedAt`.
- The locale-dependent patterns `hh:mm a` and `EEE, MMM d, yyyy` are not rendered. A `Formatted` display names the value and the pattern.
- `JavaTime.ParseLocalDateTime`: signed years and years above 9999 are out; only 4-digit years are modelled. Nanoseconds cannot occur after the 19-character cut.
- `KotlinStd.Take`: the model counts Unicode scalar values, while Kotlin's `take` counts UTF-16 code units. The two differ for text with characters outside the Basic Multilingual Plane, and a lone surrogate cannot be represented.
- `Dashboard.FormatTime`: its fallback `take(8)` inherits `KotlinStd.Take`'s counting. For five emoji the model keeps all five, while the app keeps four.
- `Dashboard.FormatDate`: the same for its fallback `take(10)`.
- `KotlinStd.LexLess`: the order is on `char` values as Dafny stores them. The JVM compares UTF-16 code units; the two differ only for characters outside the Basic Multilingual Plane.
- `Sequences.SortStrings`: it sorts by `KotlinStd.LexLess` and inherits its order. For the ids `"\uE000"` and `"😀"` (U+1F600), the JVM puts the emoji first, because its high surrogate 0xD83D is below 0xE000, while the model puts it second.
- `Sequences.SortedDistinct`: the same order as `Sequences.SortStrings`.
- `Reports.SortedEmployeeIds`: the id list is increasing in `LexLess` order, which agrees with `String.compareTo` order when every id lies inside the Basic Multilingual Plane.
- `KotlinStd.IsWhitespace`: `Character.isWhitespace || isSpaceChar` under current Unicode, so U+180E is not whitespace.
- `AttendanceRecords.AttendanceRecord`: `id` is a `Long` in the app and an unbounded integer here; `Long` overflow in durations is not modelled.
- JSON decoding is modelled only as far as the column names go. The snake_case form of each column is stated literally, not derived from the property name.
- `SupabaseManager`'s `createSupabaseClient`, the Postgrest and Storage plugins and the HTTP engine are foreign code. A client is an opaque handle recording its credentials and timeouts, and `Log` calls are left out. Whether building succeeds is an `Outcome` parameter of `SupabaseClients.SupabaseManager.GetClient`; the library's own checks on a blank or malformed url are not modelled.
- `AttendanceDisplayRecord` and `EmployeeDailySummary` are not used by the app and are not modelled.
