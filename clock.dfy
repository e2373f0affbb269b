/** Calendar dates and timestamps (java.time.LocalDate / LocalDateTime) and
    the two text forms the backend uses: ISO `yyyy-MM-dd` (LocalDate.toString
    and LocalDate.parse) and the comment timestamp pattern `yyyy-MM-dd HH:mm:ss`. */
module Clock {
  import opened Common
  import opened Text

  type Year = y: int | 0 <= y <= 9999
  type Month = m: int | 1 <= m <= 12 witness 1
  type Hour = h: int | 0 <= h < 24
  type Minute = m: int | 0 <= m < 60
  type Second = s: int | 0 <= s < 60

  /** Proleptic Gregorian leap years, as java.time uses them. */
  predicate IsLeapYear(y: int) {
    y % 4 == 0 && (y % 100 != 0 || y % 400 == 0)
  }

  function DaysInMonth(y: Year, m: Month): int {
    if m == 2 then (if IsLeapYear(y) then 29 else 28)
    else if m == 4 || m == 6 || m == 9 || m == 11 then 30
    else 31
  }

  datatype Date = Date(year: Year, month: Month, day: int)

  predicate IsCalendarDate(d: Date) {
    1 <= d.day <= DaysInMonth(d.year, d.month)
  }

  /** A date that exists in the calendar (February 29 only in leap years). */
  type LocalDate = d: Date | IsCalendarDate(d) witness Date(2000, 1, 1)

  /** A timestamp to the second; the sub-second part of LocalDateTime is not
      part of any rendering the model states. */
  datatype LocalDateTime = LocalDateTime(date: LocalDate, hour: Hour, minute: Minute, second: Second)

  /** LocalDate.atStartOfDay() */
  function AtStartOfDay(d: LocalDate): LocalDateTime {
    LocalDateTime(d, 0, 0, 0)
  }

  // ---------------------------------------------------------------------------
  // Fixed-width digit fields
  // ---------------------------------------------------------------------------

  function Pad2(n: nat): (s: string)
    requires n < 100
    ensures |s| == 2 && IsDigit(s[0]) && IsDigit(s[1])
    ensures 10 * DigitValue(s[0]) + DigitValue(s[1]) == n
  {
    [DigitChar(n / 10), DigitChar(n % 10)]
  }

  function Pad4(n: nat): (s: string)
    requires n < 10000
    ensures |s| == 4 && IsDigit(s[0]) && IsDigit(s[1]) && IsDigit(s[2]) && IsDigit(s[3])
    ensures Num4(s[0], s[1], s[2], s[3]) == n
  {
    Pad2(n / 100) + Pad2(n % 100)
  }

  function Num2(a: char, b: char): nat
    requires IsDigit(a) && IsDigit(b)
  {
    10 * DigitValue(a) + DigitValue(b)
  }

  function Num4(a: char, b: char, c: char, d: char): nat
    requires IsDigit(a) && IsDigit(b) && IsDigit(c) && IsDigit(d)
  {
    100 * Num2(a, b) + Num2(c, d)
  }

  /** Two digits are the rendering of the number they spell. */
  lemma Pad2OfDigits(a: char, b: char)
    requires IsDigit(a) && IsDigit(b)
    ensures Pad2(Num2(a, b)) == [a, b]
  {
    var n := Num2(a, b);
    assert n / 10 == DigitValue(a) && n % 10 == DigitValue(b);
  }

  /** Four digits are the rendering of the number they spell. */
  lemma Pad4OfDigits(a: char, b: char, c: char, d: char)
    requires IsDigit(a) && IsDigit(b) && IsDigit(c) && IsDigit(d)
    ensures Pad4(Num4(a, b, c, d)) == [a, b, c, d]
  {
    var n := Num4(a, b, c, d);
    assert n / 100 == Num2(a, b) && n % 100 == Num2(c, d);
    Pad2OfDigits(a, b);
    Pad2OfDigits(c, d);
  }

  // ---------------------------------------------------------------------------
  // ISO-8601 calendar dates: `full-date` of section 5.6 of RFC 3339
  // ---------------------------------------------------------------------------

  /** Ten characters `dddd-dd-dd`. */
  predicate IsFullDateText(s: string) {
    && |s| == 10
    && IsDigit(s[0]) && IsDigit(s[1]) && IsDigit(s[2]) && IsDigit(s[3])
    && s[4] == '-'
    && IsDigit(s[5]) && IsDigit(s[6])
    && s[7] == '-'
    && IsDigit(s[8]) && IsDigit(s[9])
  }

  /** LocalDate.toString() for a four-digit year. */
  function FormatDate(d: LocalDate): (s: string)
    ensures IsFullDateText(s)
  {
    Pad4(d.year) + "-" + Pad2(d.month) + "-" + Pad2(d.day)
  }

  /** LocalDate.parse: the text must be `dddd-dd-dd` naming a date that exists;
      anything else is a parse failure. */
  function ParseDate(s: string): Option<LocalDate> {
    if !IsFullDateText(s) then None
    else
      var y := Num4(s[0], s[1], s[2], s[3]);
      var m := Num2(s[5], s[6]);
      var d := Num2(s[8], s[9]);
      if 1 <= m <= 12 && 1 <= d <= DaysInMonth(y, m) then Some(Date(y, m, d)) else None
  }

  /** Every date survives rendering and parsing back. */
  lemma ParseFormattedDate(d: LocalDate)
    ensures ParseDate(FormatDate(d)) == Some(d)
  {
    var s := FormatDate(d);
    assert s[0..4] == Pad4(d.year);
    assert s[5..7] == Pad2(d.month);
    assert s[8..10] == Pad2(d.day);
  }

  /** A parsable date text is exactly the rendering of the date it names, so
      a stored date is reported back in the same text it was given in. */
  lemma FormatParsedDate(s: string)
    requires ParseDate(s).Some?
    ensures FormatDate(ParseDate(s).value) == s
  {
    Pad4OfDigits(s[0], s[1], s[2], s[3]);
    Pad2OfDigits(s[5], s[6]);
    Pad2OfDigits(s[8], s[9]);
  }

  // ---------------------------------------------------------------------------
  // DateTimeFormatter.ofPattern("yyyy-MM-dd HH:mm:ss")
  // ---------------------------------------------------------------------------

  /** Pattern letter `y` is the year of era: the proleptic year 0 is 1 BC. */
  function YearOfEra(y: Year): nat {
    if y >= 1 then y else 1 - y
  }

  /** Nineteen characters `dddd-dd-dd dd:dd:dd`. */
  predicate IsTimestampText(s: string) {
    && |s| == 19
    && IsFullDateText(s[..10])
    && s[10] == ' '
    && IsDigit(s[11]) && IsDigit(s[12]) && s[13] == ':'
    && IsDigit(s[14]) && IsDigit(s[15]) && s[16] == ':'
    && IsDigit(s[17]) && IsDigit(s[18])
  }

  function FormatTimestamp(t: LocalDateTime): (s: string)
    ensures IsTimestampText(s)
    ensures t.date.year >= 1 ==> s[..10] == FormatDate(t.date)
    ensures Num2(s[11], s[12]) == t.hour && Num2(s[14], s[15]) == t.minute
            && Num2(s[17], s[18]) == t.second
  {
    var date := Pad4(YearOfEra(t.date.year)) + "-" + Pad2(t.date.month) + "-" + Pad2(t.date.day);
    var s := date + " " + Pad2(t.hour) + ":" + Pad2(t.minute) + ":" + Pad2(t.second);
    assert s[..10] == date;
    s
  }
}
