/** The computations inside the reports dashboard: a record card's status,
    shift duration and time texts, the details dialog's punch-out section,
    and the two counters. Output patterns that depend on the locale
    (`hh:mm a`, `EEE, MMM d, yyyy`) are kept symbolic: a `Formatted` text
    says what is formatted with which pattern. */
module Dashboard {
  import opened Wrappers
  import opened KotlinStd
  import opened JavaTime
  import opened Sequences
  import opened Timestamps
  import opened AttendanceRecords
  import opened Reports

  /** A text on screen: a literal string, or a date-time under a pattern. */
  datatype Display = Literal(text: string) | Formatted(dateTime: LocalDateTime, pattern: string)

  const TimePattern: string := "hh:mm a"
  const DatePattern: string := "EEE, MMM d, yyyy"

  // ---------------------------------------------------------------------------
  // The record card

  /** The status label: "Checked Out" once there is a punch-out time. */
  function StatusText(r: AttendanceRecord): (status: string)
    ensures status == "Checked Out" <==> r.punchOutTime.Some?
    ensures status == "Working" <==> r.punchOutTime.None?
  {
    if r.punchOutTime.Some? then "Checked Out" else "Working"
  }

  /** The shift length in whole minutes: present only when both times are
      present and both parse, and then the elapsed time truncated toward
      zero (negative when the punch-out is before the punch-in). */
  function DurationMinutes(r: AttendanceRecord): (m: Option<int>)
    ensures m.Some? <==>
      r.punchInTime.Some? && r.punchOutTime.Some? &&
      ParseTimestamp(r.punchInTime.value).Some? && ParseTimestamp(r.punchOutTime.value).Some?
    ensures m.Some? ==>
      var a := ParseTimestamp(r.punchInTime.value).value;
      var b := ParseTimestamp(r.punchOutTime.value).value;
      m.value == TruncDiv(EpochSecond(b) - EpochSecond(a), 60)
  {
    if r.punchInTime.Some? && r.punchOutTime.Some? then
      match (ParseTimestamp(r.punchInTime.value), ParseTimestamp(r.punchOutTime.value))
      case (Some(a), Some(b)) =>
        MinutesBetweenTruncates(a, b);
        Some(MinutesBetween(a, b))
      case _ => None
    else None
  }

  /** `"${minutes / 60}h ${minutes % 60}m"` with the JVM's truncating `/`
      and `%`. */
  function DurationText(minutes: int): string {
    IntToString(TruncDiv(minutes, 60)) + "h " + IntToString(TruncRem(minutes, 60)) + "m"
  }

  /** The text of the duration line, if there is one. */
  function CardDuration(r: AttendanceRecord): (text: Option<string>)
    ensures text.Some? <==> DurationMinutes(r).Some?
    ensures text.Some? ==> text.value == DurationText(DurationMinutes(r).value)
  {
    match DurationMinutes(r)
    case Some(m) => Some(DurationText(m))
    case None => None
  }

  /** The marker after `x` is the first one in `x + [c] + y`. */
  lemma FirstMarker(x: string, y: string, c: char)
    requires c !in x
    ensures (x + [c] + y)[|x|] == c
    ensures forall i :: 0 <= i < |x| ==> (x + [c] + y)[i] != c
  {
    assert forall i :: 0 <= i < |x| ==> (x + [c] + y)[i] == x[i];
  }

  /** Splitting at the first occurrence of a marker character. */
  lemma SplitAtMarker(x1: string, y1: string, x2: string, y2: string, c: char)
    requires c !in x1 && c !in x2
    requires x1 + [c] + y1 == x2 + [c] + y2
    ensures x1 == x2 && y1 == y2
  {
    var w := x1 + [c] + y1;
    FirstMarker(x1, y1, c);
    FirstMarker(x2, y2, c);
    assert |x1| == |x2|;
    assert x1 == w[..|x1|] && x2 == w[..|x2|];
    assert y1 == w[|x1| + 1..] && y2 == w[|x2| + 1..];
  }

  /** The duration text loses nothing: different minute counts are shown
      differently, negative ones included. */
  lemma DurationTextInjective(a: int, b: int)
    requires DurationText(a) == DurationText(b)
    ensures a == b
  {
    var ha, ma := IntToString(TruncDiv(a, 60)), IntToString(TruncRem(a, 60));
    var hb, mb := IntToString(TruncDiv(b, 60)), IntToString(TruncRem(b, 60));
    assert 'h' !in ha && 'h' !in hb;
    assert DurationText(a) == ha + ['h'] + ([' '] + ma + "m");
    assert DurationText(b) == hb + ['h'] + ([' '] + mb + "m");
    SplitAtMarker(ha, [' '] + ma + "m", hb, [' '] + mb + "m", 'h');
    assert ma == ([' '] + ma + "m")[1..|ma| + 1];
    assert mb == ([' '] + mb + "m")[1..|mb| + 1];
    IntToStringInjective(TruncDiv(a, 60), TruncDiv(b, 60));
    IntToStringInjective(TruncRem(a, 60), TruncRem(b, 60));
  }

  /** Both parts carry the sign of the duration: 135 minutes is "2h 15m",
      -90 is "-1h -30m" and -30 is "0h -30m". */
  lemma DurationTextExamples()
    ensures DurationText(135) == "2h 15m"
    ensures DurationText(-90) == "-1h -30m"
    ensures DurationText(-30) == "0h -30m"
  {
    assert IntToString(2) == "2" && IntToString(15) == "15";
    assert IntToString(-1) == "-1" && IntToString(-30) == "-30" && IntToString(0) == "0";
  }

  /** The minutes part is below 60 in size and never has the opposite sign
      to the hours part, so the two parts recombine to the duration. */
  lemma DurationParts(minutes: int)
    ensures minutes == 60 * TruncDiv(minutes, 60) + TruncRem(minutes, 60)
    ensures -60 < TruncRem(minutes, 60) < 60
    ensures minutes >= 0 ==> TruncDiv(minutes, 60) >= 0 && TruncRem(minutes, 60) >= 0
    ensures minutes <= 0 ==> TruncDiv(minutes, 60) <= 0 && TruncRem(minutes, 60) <= 0
  {
    TruncDivRem(minutes, 60);
  }

  /** `formatTime`: the time under `hh:mm a` when the timestamp parses,
      otherwise its first 8 characters. */
  function FormatTime(isoTime: string): (d: Display)
    ensures d.Formatted? <==> ParseTimestamp(isoTime).Some?
    ensures d.Formatted? ==> d.dateTime == ParseTimestamp(isoTime).value && d.pattern == TimePattern
    ensures d.Literal? ==> |d.text| == (if |isoTime| < 8 then |isoTime| else 8) && d.text == isoTime[..|d.text|]
  {
    match ParseTimestamp(isoTime)
    case Some(t) => Formatted(t, TimePattern)
    case None => Literal(Take(isoTime, 8))
  }

  /** `formatDate`: the date under `EEE, MMM d, yyyy`, otherwise the first
      10 characters. */
  function FormatDate(isoTime: string): (d: Display)
    ensures d.Formatted? <==> ParseTimestamp(isoTime).Some?
    ensures d.Formatted? ==> d.dateTime == ParseTimestamp(isoTime).value && d.pattern == DatePattern
    ensures d.Literal? ==> |d.text| == (if |isoTime| < 10 then |isoTime| else 10) && d.text == isoTime[..|d.text|]
  {
    match ParseTimestamp(isoTime)
    case Some(t) => Formatted(t, DatePattern)
    case None => Literal(Take(isoTime, 10))
  }

  /** When a row holds only a date, the fallbacks show a cut-off "2024-05-"
      as the time and the whole date as the date. */
  lemma DateOnlyTimestampFallback()
    ensures FormatTime("2024-05-01") == Literal("2024-05-")
    ensures FormatDate("2024-05-01") == Literal("2024-05-01")
  {
    assert |Normalize("2024-05-01")| == 10;
  }

  function CardPunchIn(r: AttendanceRecord): Display {
    match r.punchInTime
    case Some(t) => FormatTime(t)
    case None => Literal("N/A")
  }

  function CardPunchOut(r: AttendanceRecord): Display {
    match r.punchOutTime
    case Some(t) => FormatTime(t)
    case None => Literal("Still working...")
  }

  function CardDate(r: AttendanceRecord): Display {
    match r.punchInTime
    case Some(t) => FormatDate(t)
    case None => Literal("")
  }

  /** The placeholders: "N/A" is shown exactly for a missing punch-in time
      (or one that is literally "N/A"), the empty date exactly for a missing
      or empty punch-in time, and "Still working..." exactly for a missing
      punch-out time, which no fallback of at most 8 characters can imitate. */
  lemma CardPlaceholders(r: AttendanceRecord)
    ensures CardPunchIn(r) == Literal("N/A") <==> r.punchInTime.None? || r.punchInTime == Some("N/A")
    ensures CardDate(r) == Literal("") <==> r.punchInTime.None? || r.punchInTime == Some("")
    ensures CardPunchOut(r) == Literal("Still working...") <==> r.punchOutTime.None?
  {
    assert |Normalize("N/A")| == 3;
  }

  /** The card is consistent: it says "Still working..." exactly when the
      status is "Working" (a fallback text has at most 8 characters), and a
      working shift has no duration. */
  lemma CardConsistency(r: AttendanceRecord)
    ensures CardPunchOut(r) == Literal("Still working...") <==> StatusText(r) == "Working"
    ensures StatusText(r) == "Working" ==> CardDuration(r) == None
  {
  }

  // ---------------------------------------------------------------------------
  // The details dialog

  /** A section header's second line, `formatTime(t) + " - " + formatDate(t)`,
      shown only when there is a time. */
  function SectionHeaderLine(time: Option<string>): (line: Option<(Display, Display)>)
    ensures line.Some? <==> time.Some?
    ensures line.Some? ==> line.value == (FormatTime(time.value), FormatDate(time.value))
  {
    match time
    case Some(t) => Some((FormatTime(t), FormatDate(t)))
    case None => None
  }

  /** The punch-out header is given `punchOutTime ?: "Pending"`. */
  function PunchOutHeader(r: AttendanceRecord): Option<(Display, Display)> {
    SectionHeaderLine(Some(r.punchOutTime.GetOr("Pending")))
  }

  /** An open shift's punch-out header always has a line, and it reads
      "Pending - Pending": the word does not parse and is shorter than both
      cut-offs. */
  lemma PendingHeader(r: AttendanceRecord)
    requires r.punchOutTime.None?
    ensures PunchOutHeader(r) == Some((Literal("Pending"), Literal("Pending")))
  {
    assert |Normalize("Pending")| == 7;
  }

  /** The message instead of the punch-in photo, when there is none. */
  function PunchInImageMessage(r: AttendanceRecord): (message: Option<string>)
    ensures message.Some? <==> r.imageUrl.None?
    ensures message.Some? ==> message.value == "No punch in image available"
  {
    if r.imageUrl.None? then Some("No punch in image available") else None
  }

  /** The message instead of the punch-out photo: "still working" for an open
      shift, "no image" for a closed one without a photo. */
  function PunchOutImageMessage(r: AttendanceRecord): (message: Option<string>)
    ensures message.Some? <==> r.punchOutImageUrl.None?
    ensures message.Some? ==> (message.value == "User is still working" <==> r.punchOutTime.None?)
    ensures message.Some? ==> (message.value == "No punch out image available" <==> r.punchOutTime.Some?)
  {
    if r.punchOutImageUrl.Some? then None
    else if r.punchOutTime.None? then Some("User is still working")
    else Some("No punch out image available")
  }

  /** The dialog agrees with the card: "User is still working" appears only
      for a record whose status is "Working". */
  lemma DialogAgreesWithCard(r: AttendanceRecord)
    requires PunchOutImageMessage(r) == Some("User is still working")
    ensures StatusText(r) == "Working" && CardPunchOut(r) == Literal("Still working...")
  {
  }

  // ---------------------------------------------------------------------------
  // The counters

  /** "Total Records" is the size of the shown list. Filtering never raises
      it, and with no criteria it is the number of loaded records. */
  lemma TotalRecordsBound(records: seq<AttendanceRecord>, employeeId: Option<string>, filter: DateFilter, today: LocalDate)
    ensures |ApplyFilters(records, employeeId, filter, today)| <= |records|
    ensures employeeId.None? && filter == All ==> |ApplyFilters(records, employeeId, filter, today)| == |records|
  {
  }

  /** The `TODAY` total is at most the total of any other bucket. */
  lemma TodayTotalAtMostWider(records: seq<AttendanceRecord>, employeeId: Option<string>, today: LocalDate, wider: DateFilter)
    ensures |ApplyFilters(records, employeeId, Today, today)| <=
      |ApplyFilters(records, employeeId, wider, today)|
  {
    TodaySublistOfWider(records, employeeId, today, wider);
    SubsequenceLength(ApplyFilters(records, employeeId, Today, today), ApplyFilters(records, employeeId, wider, today));
  }

  /** "Employees": `map { it.employeeId }.distinct().size`, the number of
      different employee ids among the shown records: never more than the
      records, and at least one when any record is shown. */
  function EmployeeCount(filtered: seq<AttendanceRecord>): (n: nat)
    ensures n == |ToSet(Ids(filtered))|
    ensures n <= |filtered|
    ensures filtered != [] ==> n >= 1
  {
    var d := Distinct(Ids(filtered));
    DistinctCountsElements(Ids(filtered));
    assert filtered != [] ==> Ids(filtered)[0] in d;
    |d|
  }

  /** Narrowing the list cannot raise the employee count. */
  lemma EmployeeCountMonotone(a: seq<AttendanceRecord>, b: seq<AttendanceRecord>)
    requires IsSubsequence(a, b)
    ensures EmployeeCount(a) <= EmployeeCount(b)
  {
    IdsOfSubsequence(a, b);
    SubsequenceMembers(Ids(a), Ids(b));
    assert ToSet(Ids(a)) <= ToSet(Ids(b));
    SubsetCardinality(ToSet(Ids(a)), ToSet(Ids(b)));
  }
}
