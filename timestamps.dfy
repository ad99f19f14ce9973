/** How the app reads the timestamps stored in attendance rows: every space
    becomes 'T', the string is cut to its first 19 characters, and the result
    goes to `LocalDateTime.parse`. A Postgres `timestamp` rendered as
    `2024-05-01 08:15:00.123+00` therefore loses its fraction and offset and
    parses; anything the JDK would reject becomes `None` (the app catches the
    exception). */
module Timestamps {
  import opened Wrappers
  import opened KotlinStd
  import opened JavaTime

  /** `time.replace(" ", "T").take(19)`. */
  function Normalize(time: string): (r: string)
    ensures |r| == if |time| < 19 then |time| else 19
    ensures ' ' !in r
    ensures forall i :: 0 <= i < |r| ==> r[i] == if time[i] == ' ' then 'T' else time[i]
  {
    Take(ReplaceAll(time, ' ', 'T'), 19)
  }

  /** The date-time a stored timestamp denotes, or `None` where parsing throws. */
  function ParseTimestamp(time: string): (r: Option<LocalDateTime>)
    ensures r.Some? ==> Printable(r.value)
  {
    ParseLocalDateTime(Normalize(time))
  }

  /** A separator the app's normalisation turns into one the parser accepts. */
  predicate TimestampSeparator(c: char) {
    c == ' ' || c == 'T' || c == 't'
  }

  /** Normalising the canonical form with any accepted separator, followed
      by anything at all, leaves the canonical form with that separator
      turned into 'T' (a space) or kept ('T', 't'). */
  lemma NormalizeCanonical(t: LocalDateTime, sep: char, suffix: string)
    requires Printable(t) && TimestampSeparator(sep)
    ensures Normalize(FormatIso(t, sep) + suffix) == FormatIso(t, if sep == ' ' then 'T' else sep)
  {
    var s := FormatIso(t, sep) + suffix;
    var f := FormatIso(t, if sep == ' ' then 'T' else sep);
    var n := Normalize(s);
    forall i | 0 <= i < 19 ensures n[i] == f[i] {
      if i != 10 {
        assert s[i] == FormatIso(t, sep)[i] == f[i];
      }
    }
  }

  /** A stored timestamp in the canonical form, with a space or a 'T'
      between date and time and with any fraction or zone after the seconds,
      is read back as exactly the date-time it renders. */
  lemma TimestampRoundTrip(t: LocalDateTime, sep: char, suffix: string)
    requires Printable(t) && TimestampSeparator(sep)
    ensures ParseTimestamp(FormatIso(t, sep) + suffix) == Some(t)
  {
    NormalizeCanonical(t, sep, suffix);
    ParseFormatRoundTrip(t, if sep == ' ' then 'T' else sep);
  }

  /** A timestamp stored to the minute (exactly 16 characters) reads back
      with zero seconds. */
  lemma MinutesTimestampRoundTrip(t: LocalDateTime, sep: char)
    requires Printable(t) && TimestampSeparator(sep)
    ensures ParseTimestamp(FormatIso(t, sep)[..16]) == Some(t.(second := 0))
  {
    var sep' := if sep == ' ' then 'T' else sep;
    var s := FormatIso(t, sep)[..16];
    var f := FormatIso(t, sep')[..16];
    forall i | 0 <= i < 16 ensures Normalize(s)[i] == f[i] {
      if i != 10 {
        assert s[i] == FormatIso(t, sep)[i] == f[i];
      }
    }
    assert Normalize(s) == f;
    ParseFormatMinutesRoundTrip(t, sep');
  }

  /** What a timestamp that parses looks like: exactly 16 characters, or 19
      and more, with a space, 'T' or 't' between date and time; the part the
      parser sees is the canonical rendering of the result (to the minute for
      16 characters). */
  lemma ParsedTimestampShape(time: string)
    requires ParseTimestamp(time).Some?
    ensures TimestampSeparator(time[10])
    ensures |time| == 16 || |time| >= 19
    ensures var t := ParseTimestamp(time).value;
      var s := Normalize(time);
      if |time| == 16 then t.second == 0 && s == FormatIso(t, s[10])[..16] else s == FormatIso(t, s[10])
  {
    ParsedIsCanonical(Normalize(time));
  }

  /** 29 February is not a date in a common year... */
  lemma LeapDayRejectedInCommonYear()
    ensures ParseTimestamp("2023-02-29 10:00:00") == None
  {
    var n := Normalize("2023-02-29 10:00:00");
    assert n == "2023-02-29T10:00:00";
    assert Num4(n, 0) == 2023 && Num2(n, 5) == 2 && Num2(n, 8) == 29;
  }

  /** ...and is one in a leap year. */
  lemma LeapDayAcceptedInLeapYear()
    ensures ParseTimestamp("2024-02-29 10:00:00") == Some(LocalDateTime(LocalDate(2024, 2, 29), 10, 0, 0))
  {
    var t := LocalDateTime(LocalDate(2024, 2, 29), 10, 0, 0);
    assert FormatIso(t, ' ') + "" == "2024-02-29 10:00:00";
    TimestampRoundTrip(t, ' ', "");
  }

  /** Strict resolution has no hour 24 (no "end of day" midnight). */
  lemma HourTwentyFourRejected()
    ensures ParseTimestamp("2024-05-01 24:00:00") == None
  {
    var n := Normalize("2024-05-01 24:00:00");
    assert n == "2024-05-01T24:00:00";
    assert Num2(n, 11) == 24;
  }

  /** Seconds must have two digits. */
  lemma ShortSecondsRejected()
    ensures ParseTimestamp("2024-05-01 08:15:0") == None
  {
    assert |Normalize("2024-05-01 08:15:0")| == 18;
  }
}
