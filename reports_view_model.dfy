/** The reports screen's state holder: the attendance filter (by employee and
    by date bucket) and the updates of `ReportsUiState`. The current date,
    which the app reads from the clock, is a parameter `today`. */
module Reports {
  import opened Wrappers
  import opened KotlinStd
  import opened JavaTime
  import opened Sequences
  import opened Timestamps
  import opened AttendanceRecords

  datatype DateFilter = All | Today | ThisWeek | ThisMonth

  datatype ReportsUiState = ReportsUiState(
    isLoading: bool := false,
    isConfigured: bool := false,
    records: seq<AttendanceRecord> := [],
    filteredRecords: seq<AttendanceRecord> := [],
    employeeIds: seq<string> := [],
    selectedEmployeeId: Option<string> := None,
    selectedDateFilter: DateFilter := All,
    errorMessage: Option<string> := None,
    lastRefresh: Option<string> := None)

  const NotConfiguredMessage: string := "Please configure Supabase in Settings"
  const LoadFailedMessage: string := "Failed to load records"

  // ---------------------------------------------------------------------------
  // The date buckets

  /** The epoch day of the Monday that starts `today`'s week:
      `today.minusDays(dayOfWeek - 1)`. */
  function WeekStart(today: LocalDate): (monday: int)
    ensures ToEpochDay(today) - 6 <= monday <= ToEpochDay(today)
  {
    ToEpochDay(today) - (DayOfWeek(today) - 1)
  }

  /** Whether a record's date falls in the bucket. The week bucket compares
      with `>=` and `<=` on dates, i.e. on epoch days (`EpochDayOrder`). */
  predicate InBucket(filter: DateFilter, date: LocalDate, today: LocalDate) {
    match filter
    case All => true
    case Today => date == today
    case ThisWeek => WeekStart(today) <= ToEpochDay(date) <= ToEpochDay(today)
    case ThisMonth => date.month == today.month && date.year == today.year
  }

  /** A record passes the date stage: any record for `ALL`; otherwise its
      punch-in time must be present, must parse, and its date must fall in
      the bucket. A missing or unparseable time drops the record quietly. */
  predicate InDateBucket(filter: DateFilter, today: LocalDate, r: AttendanceRecord) {
    filter == All ||
    (r.punchInTime.Some? &&
     var t := ParseTimestamp(r.punchInTime.value);
     t.Some? && InBucket(filter, t.value.date, today))
  }

  predicate MatchesEmployee(employeeId: Option<string>, r: AttendanceRecord) {
    employeeId.None? || r.employeeId == employeeId.value
  }

  /** Both criteria at once: what the filter keeps. */
  predicate Selected(employeeId: Option<string>, filter: DateFilter, today: LocalDate, r: AttendanceRecord) {
    MatchesEmployee(employeeId, r) && InDateBucket(filter, today, r)
  }

  /** The employee stage: applied only when an employee is selected. */
  function EmployeeStage(records: seq<AttendanceRecord>, employeeId: Option<string>): (r: seq<AttendanceRecord>)
    ensures IsSubsequence(r, records)
    ensures forall x :: x in r <==> x in records && MatchesEmployee(employeeId, x)
    ensures forall x :: multiset(r)[x] == if MatchesEmployee(employeeId, x) then multiset(records)[x] else 0
  {
    match employeeId
    case None =>
      SubsequenceReflexive(records);
      records
    case Some(e) => Filter(records, (x: AttendanceRecord) => x.employeeId == e)
  }

  /** The date stage: `ALL` passes the list through untouched. */
  function DateStage(records: seq<AttendanceRecord>, filter: DateFilter, today: LocalDate): (r: seq<AttendanceRecord>)
    ensures IsSubsequence(r, records)
    ensures forall x :: x in r <==> x in records && InDateBucket(filter, today, x)
    ensures forall x :: multiset(r)[x] == if InDateBucket(filter, today, x) then multiset(records)[x] else 0
  {
    if filter == All then
      SubsequenceReflexive(records);
      records
    else Filter(records, (x: AttendanceRecord) => InDateBucket(filter, today, x))
  }

  /** `applyFilters(records, employeeId, dateFilter)` on the day `today`: the
      records both criteria select, in their original order and with their
      multiplicity, so the result never gains, loses a selected, or reorders
      a record; with no criteria at all it is the input itself. */
  function ApplyFilters(records: seq<AttendanceRecord>, employeeId: Option<string>, filter: DateFilter, today: LocalDate): (r: seq<AttendanceRecord>)
    ensures IsSubsequence(r, records) && |r| <= |records|
    ensures forall x :: x in r <==> x in records && Selected(employeeId, filter, today, x)
    ensures forall x :: multiset(r)[x] == if Selected(employeeId, filter, today, x) then multiset(records)[x] else 0
    ensures employeeId.None? && filter == All ==> r == records
  {
    var byEmployee := EmployeeStage(records, employeeId);
    var r := DateStage(byEmployee, filter, today);
    SubsequenceTransitive(r, byEmployee, records);
    SubsequenceLength(r, records);
    r
  }

  /** With an employee selected, every kept record is that employee's, and
      every record of that employee passes the employee stage. */
  lemma EmployeeFilterIsExact(records: seq<AttendanceRecord>, e: string, filter: DateFilter, today: LocalDate)
    ensures forall x :: x in ApplyFilters(records, Some(e), filter, today) ==> x.employeeId == e
    ensures forall x :: x in records && x.employeeId == e <==> x in EmployeeStage(records, Some(e))
  {
  }

  /** The `TODAY` bucket: a record is kept exactly when its punch-in time is
      present, parses, and is on `today`. */
  lemma TodayBucket(records: seq<AttendanceRecord>, today: LocalDate, x: AttendanceRecord)
    requires x in records
    ensures x in ApplyFilters(records, None, Today, today) <==>
      x.punchInTime.Some? && ParseTimestamp(x.punchInTime.value).Some? &&
      ParseTimestamp(x.punchInTime.value).value.date == today
  {
  }

  /** The week start is a Monday, at most six days back. */
  lemma WeekStartIsMonday(today: LocalDate)
    ensures DayOfWeekOfEpochDay(WeekStart(today)) == 1
    ensures ToEpochDay(today) - 6 <= WeekStart(today) <= ToEpochDay(today)
  {
    var e := ToEpochDay(today);
    var k := (e + 3) % 7;
    assert WeekStart(today) + 3 == 7 * ((e + 3) / 7);
  }

  /** The epoch day of the Monday of the ISO week holding epoch day `e`. */
  function MondayOf(e: int): int {
    e - (DayOfWeekOfEpochDay(e) - 1)
  }

  /** The days of the week starting on Monday `m` all have `m` as Monday. */
  lemma MondayOfDayInWeek(m: int, k: int)
    requires DayOfWeekOfEpochDay(m) == 1 && 0 <= k < 7
    ensures MondayOf(m + k) == m
  {
    assert (m + 3) % 7 == 0;
    assert m + 3 == 7 * ((m + 3) / 7);
    assert (m + k + 3) % 7 == k;
  }

  /** The `THIS_WEEK` bucket holds exactly the dates up to `today` that are in
      `today`'s ISO week (the week whose Monday is `today`'s Monday). */
  lemma ThisWeekIsCurrentIsoWeek(date: LocalDate, today: LocalDate)
    ensures InBucket(ThisWeek, date, today) <==>
      ToEpochDay(date) <= ToEpochDay(today) && MondayOf(ToEpochDay(date)) == MondayOf(ToEpochDay(today))
  {
    var e := ToEpochDay(date);
    var m := WeekStart(today);
    WeekStartIsMonday(today);
    assert m == MondayOf(ToEpochDay(today));
    if m <= e <= ToEpochDay(today) {
      MondayOfDayInWeek(m, e - m);
    }
    if e <= ToEpochDay(today) && MondayOf(e) == m {
      assert DayOfWeekOfEpochDay(e) >= 1;
    }
  }

  /** The Monday of this week is kept; the Sunday before it and any day
      after today are not. */
  lemma WeekBoundaries(date: LocalDate, today: LocalDate)
    requires ValidDate(date) && ValidDate(today)
    ensures ToEpochDay(date) == WeekStart(today) ==> InBucket(ThisWeek, date, today) && DayOfWeek(date) == 1
    ensures ToEpochDay(date) == WeekStart(today) - 1 ==> !InBucket(ThisWeek, date, today) && DayOfWeek(date) == 7
    ensures IsBefore(today, date) ==> !InBucket(ThisWeek, date, today) && !InBucket(Today, date, today)
  {
    WeekStartIsMonday(today);
    EpochDayOrder(today, date);
    DayOfWeekSucc(WeekStart(today) - 1);
  }

  /** Today's records are in this week's and this month's buckets too. */
  lemma TodayInEveryBucket(date: LocalDate, today: LocalDate, filter: DateFilter)
    requires InBucket(Today, date, today)
    ensures InBucket(filter, date, today)
  {
    WeekStartIsMonday(today);
  }

  /** So the `TODAY` list is a sub-list of the `THIS_WEEK` and `THIS_MONTH`
      lists, whatever the employee criterion. */
  lemma TodaySublistOfWider(records: seq<AttendanceRecord>, employeeId: Option<string>, today: LocalDate, wider: DateFilter)
    ensures IsSubsequence(ApplyFilters(records, employeeId, Today, today), ApplyFilters(records, employeeId, wider, today))
  {
    var p := (x: AttendanceRecord) => Selected(employeeId, Today, today, x);
    var q := (x: AttendanceRecord) => Selected(employeeId, wider, today, x);
    forall x | p(x) ensures q(x) {
      TodayInEveryBucket(ParseTimestamp(x.punchInTime.value).value.date, today, wider);
    }
    FilterEquivalent(records, employeeId, Today, today);
    FilterEquivalent(records, employeeId, wider, today);
    FilterMonotone(records, p, q);
  }

  /** The two-stage filter is one filter with the combined criterion. */
  lemma FilterEquivalent(records: seq<AttendanceRecord>, employeeId: Option<string>, filter: DateFilter, today: LocalDate)
    ensures ApplyFilters(records, employeeId, filter, today) ==
      Filter(records, (x: AttendanceRecord) => Selected(employeeId, filter, today, x))
  {
    var sel := (x: AttendanceRecord) => Selected(employeeId, filter, today, x);
    var date := (x: AttendanceRecord) => InDateBucket(filter, today, x);
    match employeeId
    case None =>
      if filter == All {
        FilterAll(records, sel);
      } else {
        FilterExtensional(records, date, sel);
      }
    case Some(e) =>
      var emp := (x: AttendanceRecord) => x.employeeId == e;
      if filter == All {
        FilterExtensional(records, emp, sel);
      } else {
        FilterFilter(records, emp, date, sel);
      }
  }

  /** A missing or unparseable punch-in time keeps a record out of every
      bucket but `ALL`; nothing is raised. */
  lemma UnparseableExcluded(r: AttendanceRecord, filter: DateFilter, today: LocalDate)
    requires r.punchInTime.None? || ParseTimestamp(r.punchInTime.value).None?
    ensures InDateBucket(filter, today, r) <==> filter == All
  {
  }

  /** A week that starts in the previous year: on Wednesday 1 January 2025
      the week began on Monday 30 December 2024, so that Monday is in
      `THIS_WEEK` and Sunday 29 December is not; neither is in `THIS_MONTH`.
      With `ParseLateDecember` and `ParsedRecordBucket` this places punch-ins
      stored as "2024-12-30 08:15:00" and "2024-12-29 18:00:00". */
  lemma WeekAcrossNewYear()
    ensures var today := LocalDate(2025, 1, 1);
      InBucket(ThisWeek, LocalDate(2024, 12, 30), today) &&
      !InBucket(ThisWeek, LocalDate(2024, 12, 29), today) &&
      !InBucket(ThisMonth, LocalDate(2024, 12, 30), today)
  {
    LateDecemberDays();
  }

  /** A record whose punch-in time parses to `t` is in a bucket other than
      `ALL` exactly when `t`'s date is. */
  lemma ParsedRecordBucket(r: AttendanceRecord, t: LocalDateTime, filter: DateFilter, today: LocalDate)
    requires r.punchInTime.Some? && ParseTimestamp(r.punchInTime.value) == Some(t)
    ensures InDateBucket(filter, today, r) <==> filter == All || InBucket(filter, t.date, today)
  {
  }

  lemma LateDecemberDays()
    ensures ToEpochDay(LocalDate(2025, 1, 1)) == 20089 && DayOfWeek(LocalDate(2025, 1, 1)) == 3
    ensures ToEpochDay(LocalDate(2024, 12, 30)) == 20087
    ensures ToEpochDay(LocalDate(2024, 12, 29)) == 20086
  {
    ToEpochDayCountsDays(LocalDate(2025, 1, 1));
    ToEpochDayCountsDays(LocalDate(2024, 12, 30));
    ToEpochDayCountsDays(LocalDate(2024, 12, 29));
  }

  lemma ParseLateDecember()
    ensures ParseTimestamp("2024-12-30 08:15:00") == Some(LocalDateTime(LocalDate(2024, 12, 30), 8, 15, 0))
    ensures ParseTimestamp("2024-12-29 18:00:00") == Some(LocalDateTime(LocalDate(2024, 12, 29), 18, 0, 0))
  {
    var mon := LocalDateTime(LocalDate(2024, 12, 30), 8, 15, 0);
    var sun := LocalDateTime(LocalDate(2024, 12, 29), 18, 0, 0);
    assert FormatIso(mon, ' ') + "" == "2024-12-30 08:15:00";
    assert FormatIso(sun, ' ') + "" == "2024-12-29 18:00:00";
    TimestampRoundTrip(mon, ' ', "");
    TimestampRoundTrip(sun, ' ', "");
  }

  /** `records.map { it.employeeId }.distinct().sorted()`: each id once, in
      increasing `String.compareTo` order, and no other strings. */
  function SortedEmployeeIds(records: seq<AttendanceRecord>): (r: seq<string>)
    ensures StrictlySorted(r)
    ensures forall e :: e in r <==> e in Ids(records)
  {
    SortedDistinct(Ids(records))
  }

  /** That list is determined by its elements: any strictly increasing list
      of exactly the ids is it. */
  lemma SortedEmployeeIdsUnique(records: seq<AttendanceRecord>, ids: seq<string>)
    requires StrictlySorted(ids) && forall e :: e in ids <==> e in Ids(records)
    ensures ids == SortedEmployeeIds(records)
  {
    StrictlySortedUnique(ids, SortedEmployeeIds(records));
  }

  /** The reports view model: `_uiState` and the credentials it last read. */
  class ReportsViewModel {
    var state: ReportsUiState
    var supabaseUrl: string
    var supabaseKey: string

    /** What every step keeps: the shown list is a sub-list of the loaded
        one, the id list is the sorted distinct ids of the loaded records,
        and the screen is marked configured only with non-blank credentials. */
    ghost predicate Valid()
      reads this
    {
      && IsSubsequence(state.filteredRecords, state.records)
      && state.employeeIds == SortedEmployeeIds(state.records)
      && (state.isConfigured ==> !IsBlank(supabaseUrl) && !IsBlank(supabaseKey))
    }

    /** A new view model, before `init`'s `checkConfiguration` has run. */
    constructor ()
      ensures Valid()
      ensures state == ReportsUiState() && supabaseUrl == "" && supabaseKey == ""
    {
      state := ReportsUiState();
      supabaseUrl := "";
      supabaseKey := "";
      new;
      assert SortedEmployeeIds([]) == [] by {
        assert forall e :: e !in SortedEmployeeIds([]);
      }
    }

    /** `loadRecords`, up to the fetch: with a blank url or key it marks the
        screen unconfigured with an error and fetches nothing; otherwise it
        shows the spinner, clears the error, and the fetch (`fetch`) starts. */
    method LoadRecords() returns (fetch: bool)
      requires Valid()
      modifies this
      ensures Valid()
      ensures fetch == (!IsBlank(supabaseUrl) && !IsBlank(supabaseKey))
      ensures supabaseUrl == old(supabaseUrl) && supabaseKey == old(supabaseKey)
      ensures !fetch ==> state == old(state).(isConfigured := false, errorMessage := Some(NotConfiguredMessage))
      ensures fetch ==> state == old(state).(isLoading := true, errorMessage := None)
    {
      if IsBlank(supabaseUrl) || IsBlank(supabaseKey) {
        state := state.(isConfigured := false, errorMessage := Some(NotConfiguredMessage));
        return false;
      }
      state := state.(isLoading := true, errorMessage := None);
      return true;
    }

    /** The coroutine of `checkConfiguration`, given the stored url and key:
        it remembers them, marks the screen configured exactly when both are
        non-blank, and then starts `loadRecords`, whose fetch begins. */
    method CheckConfiguration(url: string, key: string) returns (fetch: bool)
      requires Valid()
      modifies this
      ensures Valid()
      ensures supabaseUrl == url && supabaseKey == key
      ensures fetch == (!IsBlank(url) && !IsBlank(key))
      ensures fetch ==> state == old(state).(isConfigured := true, isLoading := true, errorMessage := None)
      ensures !fetch ==> state == old(state).(isConfigured := false)
    {
      supabaseUrl := url;
      supabaseKey := key;
      var configured := !IsBlank(url) && !IsBlank(key);
      state := state.(isConfigured := configured);
      fetch := false;
      if configured {
        fetch := LoadRecords();
      }
    }

    /** The end of `loadRecords`' coroutine, given the repository's result,
        the day and the formatted time of the refresh. A success replaces the
        records, recomputes the id list and the shown list (by the current
        date bucket only: the employee selection is not applied); a failure
        keeps everything but shows the exception's message or a fallback. */
    method CompleteLoad(result: Outcome<seq<AttendanceRecord>>, today: LocalDate, refreshedAt: string)
      requires Valid()
      modifies this
      ensures Valid()
      ensures supabaseUrl == old(supabaseUrl) && supabaseKey == old(supabaseKey)
      ensures result.Success? ==> state == old(state).(
        isLoading := false,
        records := result.value,
        filteredRecords := ApplyFilters(result.value, None, old(state).selectedDateFilter, today),
        employeeIds := SortedEmployeeIds(result.value),
        lastRefresh := Some(refreshedAt))
      ensures result.Failure? ==> state == old(state).(
        isLoading := false,
        errorMessage := Some(result.message.GetOr(LoadFailedMessage)))
    {
      match result
      case Success(records) =>
        state := state.(
          isLoading := false,
          records := records,
          filteredRecords := ApplyFilters(records, None, state.selectedDateFilter, today),
          employeeIds := SortedEmployeeIds(records),
          lastRefresh := Some(refreshedAt));
      case Failure(message) =>
        state := state.(isLoading := false, errorMessage := Some(message.GetOr(LoadFailedMessage)));
    }

    /** `selectEmployee`: only the selection and the shown list change; the
        list is recomputed from the loaded records with the current bucket. */
    method SelectEmployee(employeeId: Option<string>, today: LocalDate)
      requires Valid()
      modifies this`state
      ensures Valid()
      ensures state == old(state).(
        selectedEmployeeId := employeeId,
        filteredRecords := ApplyFilters(old(state).records, employeeId, old(state).selectedDateFilter, today))
    {
      state := state.(
        selectedEmployeeId := employeeId,
        filteredRecords := ApplyFilters(state.records, employeeId, state.selectedDateFilter, today));
    }

    /** `selectDateFilter`: the same, for the date bucket. */
    method SelectDateFilter(filter: DateFilter, today: LocalDate)
      requires Valid()
      modifies this`state
      ensures Valid()
      ensures state == old(state).(
        selectedDateFilter := filter,
        filteredRecords := ApplyFilters(old(state).records, old(state).selectedEmployeeId, filter, today))
    {
      state := state.(
        selectedDateFilter := filter,
        filteredRecords := ApplyFilters(state.records, state.selectedEmployeeId, filter, today));
    }

    /** `clearError`. */
    method ClearError()
      requires Valid()
      modifies this`state
      ensures Valid()
      ensures state == old(state).(errorMessage := None)
    {
      state := state.(errorMessage := None);
    }
  }
}
