/**
  The photo record and the date formatter of format.go: an asset's creation
  timestamp becomes "<day> <Turkish month name> <year>", or "" when the
  timestamp cannot be read.
 */
module Format {
  import opened Wrappers
  import opened Decimal

  /**
    One photo as handed to the frame. `city` is filled lazily by the server
    layer, which records with `cityDone` that it has done so; `index` and
    `total` are part of the JSON shape and stay 0 in this cache.
   */
  datatype PhotoInfo = PhotoInfo(id: string, date: string, city: string, index: int, total: int, cityDone: bool)

  const TurkishMonths: seq<string> :=
    ["Ocak", "Şubat", "Mart", "Nisan", "Mayıs", "Haziran",
     "Temmuz", "Ağustos", "Eylül", "Ekim", "Kasım", "Aralık"]

  /** The calendar fields of a parsed timestamp, in the offset written in it. */
  datatype CalendarDate = CalendarDate(year: nat, month: nat, day: nat)

  predicate IsLeap(year: nat) {
    year % 4 == 0 && (year % 100 != 0 || year % 400 == 0)
  }

  function DaysIn(month: nat, year: nat): nat
    requires 1 <= month <= 12
  {
    if month == 2 then (if IsLeap(year) then 29 else 28)
    else if month == 4 || month == 6 || month == 9 || month == 11 then 30
    else 31
  }

  predicate ValidDate(d: CalendarDate) {
    1 <= d.month <= 12 && 1 <= d.day <= DaysIn(d.month, d.year)
  }

  /** The numeric field `s[i..j]`, when it is all digits. */
  function Field(s: string, i: nat, j: nat): Option<nat>
    requires i <= j <= |s|
  {
    if AllDigits(s[i..j]) then Some(DigitsValue(s[i..j])) else None
  }

  /**
    The fixed-width "YYYY-MM-DDThh:mm:ss" prefix that both layouts share,
    with the range checks of Go's time package: month 1..12, day within its
    month (leap years included), hour up to 23, minute and second up to 59.
   */
  function ParseDateTime(s: string): (r: Option<CalendarDate>)
    requires |s| >= 19
    ensures r.Some? ==> ValidDate(r.value)
  {
    if !(s[4] == '-' && s[7] == '-' && s[10] == 'T' && s[13] == ':' && s[16] == ':') then
      None
    else
      match (Field(s, 0, 4), Field(s, 5, 7), Field(s, 8, 10), Field(s, 11, 13), Field(s, 14, 16), Field(s, 17, 19))
      case (Some(year), Some(month), Some(day), Some(hour), Some(minute), Some(second)) =>
        if 1 <= month <= 12 && 1 <= day <= DaysIn(month, year) && hour <= 23 && minute <= 59 && second <= 59
        then Some(CalendarDate(year, month, day))
        else None
      case _ => None
  }

  /** The number of decimal digits at the start of `t`. */
  function LeadingDigits(t: string): (n: nat)
    ensures n <= |t| && AllDigits(t[..n])
    ensures n < |t| ==> !IsDigit(t[n])
  {
    if t == [] || !IsDigit(t[0]) then
      0
    else
      var n := 1 + LeadingDigits(t[1..]);
      assert t[..n] == [t[0]] + t[1..][..n - 1];
      n
  }

  /** A numeric zone offset "+hh:mm" or "-hh:mm" with hh <= 23 and mm <= 59. */
  predicate IsNumericOffset(z: string) {
    |z| == 6 && (z[0] == '+' || z[0] == '-') && z[3] == ':' &&
    AllDigits(z[1..3]) && AllDigits(z[4..6]) &&
    DigitsValue(z[1..3]) <= 23 && DigitsValue(z[4..6]) <= 59
  }

  /** The text after the seconds with an optional ".digits" fraction removed. */
  function ZoneText(tail: string): (z: string)
    ensures |z| <= |tail|
  {
    if |tail| >= 2 && tail[0] == '.' && IsDigit(tail[1]) then tail[1 + LeadingDigits(tail[1..])..] else tail
  }

  /**
    `time.Parse(time.RFC3339Nano, s)`: the date-time prefix, an optional
    fraction of any number of digits, then "Z" or a numeric offset.
   */
  function ParseRfc3339(s: string): (r: Option<CalendarDate>)
    ensures r.Some? ==> ValidDate(r.value)
  {
    if |s| < 19 then
      None
    else
      var zone := ZoneText(s[19..]);
      if zone == "Z" || IsNumericOffset(zone) then ParseDateTime(s) else None
  }

  /**
    `time.Parse("2006-01-02T15:04:05.000Z", s)`, in its strict form: the
    two-digit date-time prefix, '.', exactly three fraction digits and a
    literal 'Z'. Go's general parser also takes a one-digit hour, a ','
    before the fraction and a signed fraction such as ".+12"; those texts
    are rejected here.
   */
  function ParseMillisLayout(s: string): (r: Option<CalendarDate>)
    ensures r.Some? ==> ValidDate(r.value)
  {
    if |s| == 24 && s[19] == '.' && AllDigits(s[20..23]) && s[23] == 'Z' then ParseDateTime(s) else None
  }

  /**
    The month's name, written as one case per month so that a use of one
    name does not bring the whole table into a proof; `MonthNameIsTableEntry`
    shows it is `TurkishMonths[month - 1]`.
   */
  function MonthName(month: nat): (name: string)
    requires 1 <= month <= 12
    ensures name != [] && NoSpace(name) && !IsDigit(name[0])
  {
    if month == 1 then "Ocak" else if month == 2 then "Şubat" else if month == 3 then "Mart"
    else if month == 4 then "Nisan" else if month == 5 then "Mayıs" else if month == 6 then "Haziran"
    else if month == 7 then "Temmuz" else if month == 8 then "Ağustos" else if month == 9 then "Eylül"
    else if month == 10 then "Ekim" else if month == 11 then "Kasım" else "Aralık"
  }

  /** The table has twelve entries, so `month - 1` is in bounds for every month, and each entry is that month's name. */
  lemma MonthNameIsTableEntry(month: nat)
    requires 1 <= month <= 12
    ensures |TurkishMonths| == 12 && MonthName(month) == TurkishMonths[month - 1]
  {
  }

  predicate NoSpace(s: string) {
    forall i :: 0 <= i < |s| ==> s[i] != ' '
  }

  /** `fmt.Sprintf("%d %s %d", day, month name, year)`. */
  function Display(d: CalendarDate): (r: string)
    requires ValidDate(d)
    ensures r != []
  {
    NatToDecimal(d.day) + " " + MonthName(d.month) + " " + NatToDecimal(d.year)
  }

  /** `formatDate`: the RFC 3339 reading, else the millisecond layout, else "". */
  function FormatDate(isoDate: string): string {
    match ParseRfc3339(isoDate)
    case Some(d) => Display(d)
    case None =>
      match ParseMillisLayout(isoDate)
      case Some(d) => Display(d)
      case None => ""
  }

  /** The result is empty exactly when neither layout accepts the input. */
  lemma FormatDateEmptyIff(isoDate: string)
    ensures FormatDate(isoDate) == "" <==> ParseRfc3339(isoDate).None? && ParseMillisLayout(isoDate).None?
  {
  }

  /** In the strict layouts modelled here, every millisecond timestamp is also an RFC 3339 timestamp, with the same date. */
  lemma MillisLayoutIsRfc3339(s: string)
    requires ParseMillisLayout(s).Some?
    ensures ParseRfc3339(s) == ParseMillisLayout(s)
  {
    var tail := s[19..];
    assert tail[1..] == s[20..23] + "Z";
    assert LeadingDigits(tail[1..][3..]) == 0;
    assert LeadingDigits(tail[1..][2..]) == 1;
    assert LeadingDigits(tail[1..][1..]) == 2;
    assert LeadingDigits(tail[1..]) == 3;
    assert ZoneText(tail) == "Z";
  }

  /** Hence, for the strict layouts, the fallback never decides the result: only the RFC 3339 reading matters. */
  lemma FallbackNeverDecides(isoDate: string)
    ensures FormatDate(isoDate) == (if ParseRfc3339(isoDate).Some? then Display(ParseRfc3339(isoDate).value) else "")
  {
    if ParseMillisLayout(isoDate).Some? {
      MillisLayoutIsRfc3339(isoDate);
    }
  }

  /** The index of the first space in `s`, or `|s|` when there is none. */
  function SpaceIndex(s: string): (k: nat)
    ensures k <= |s|
  {
    if s == [] || s[0] == ' ' then 0 else 1 + SpaceIndex(s[1..])
  }

  lemma {:induction false} SpaceIndexAfterWord(a: string, b: string)
    requires NoSpace(a)
    ensures SpaceIndex(a + " " + b) == |a|
  {
    if a != [] {
      assert (a + " " + b)[1..] == a[1..] + " " + b;
      SpaceIndexAfterWord(a[1..], b);
    }
  }

  /** Two words joined by a space can be split back at the first space. */
  lemma SplitAtSpace(a: string, b: string, c: string, e: string)
    requires NoSpace(a) && NoSpace(c)
    requires a + " " + b == c + " " + e
    ensures a == c && b == e
  {
    SpaceIndexAfterWord(a, b);
    SpaceIndexAfterWord(c, e);
    var s := a + " " + b;
    assert a == s[..|a|] && b == s[|a| + 1..];
    assert c == s[..|c|] && e == s[|c| + 1..];
  }

  lemma DigitsHaveNoSpace(s: string)
    requires AllDigits(s)
    ensures NoSpace(s)
  {
  }

  /** Month names are pairwise distinct, so the name identifies the month. */
  lemma MonthNameInjective(m1: nat, m2: nat)
    requires 1 <= m1 <= 12 && 1 <= m2 <= 12
    requires MonthName(m1) == MonthName(m2)
    ensures m1 == m2
  {
  }

  /** Three space-free-headed words joined by spaces can be split back into the same words. */
  lemma ThreeWordsInjective(a1: string, m1: string, y1: string, a2: string, m2: string, y2: string)
    requires NoSpace(a1) && NoSpace(m1) && NoSpace(a2) && NoSpace(m2)
    requires a1 + " " + m1 + " " + y1 == a2 + " " + m2 + " " + y2
    ensures a1 == a2 && m1 == m2 && y1 == y2
  {
    assert a1 + " " + m1 + " " + y1 == a1 + " " + (m1 + " " + y1);
    assert a2 + " " + m2 + " " + y2 == a2 + " " + (m2 + " " + y2);
    SplitAtSpace(a1, m1 + " " + y1, a2, m2 + " " + y2);
    SplitAtSpace(m1, y1, m2, y2);
  }

  /** Distinct dates are displayed differently: the display string determines the date. */
  lemma DisplayInjective(d1: CalendarDate, d2: CalendarDate)
    requires ValidDate(d1) && ValidDate(d2)
    requires Display(d1) == Display(d2)
    ensures d1 == d2
  {
    DigitsHaveNoSpace(NatToDecimal(d1.day));
    DigitsHaveNoSpace(NatToDecimal(d2.day));
    ThreeWordsInjective(NatToDecimal(d1.day), MonthName(d1.month), NatToDecimal(d1.year),
                        NatToDecimal(d2.day), MonthName(d2.month), NatToDecimal(d2.year));
    MonthNameInjective(d1.month, d2.month);
  }

  lemma TwoDigitValue(t: string)
    requires |t| == 2 && AllDigits(t)
    ensures DigitsValue(t) == DigitValue(t[0]) * 10 + DigitValue(t[1])
  {
    var p := t[..1];
    assert p[..0] == [] && p[0] == t[0];
    assert DigitsValue(p) == DigitValue(t[0]);
  }

  lemma FourDigitValue(t: string)
    requires |t| == 4 && AllDigits(t)
    ensures DigitsValue(t) == DigitValue(t[0]) * 1000 + DigitValue(t[1]) * 100 + DigitValue(t[2]) * 10 + DigitValue(t[3])
  {
    assert t[..3][..2] == t[..2];
    TwoDigitValue(t[..2]);
  }

  /** A two-digit field and its value. */
  lemma TwoDigitField(s: string, i: nat)
    requires i + 2 <= |s| && IsDigit(s[i]) && IsDigit(s[i + 1])
    ensures Field(s, i, i + 2) == Some(DigitValue(s[i]) * 10 + DigitValue(s[i + 1]))
  {
    var t := s[i..i + 2];
    assert t[0] == s[i] && t[1] == s[i + 1];
    TwoDigitValue(t);
  }

  /** A four-digit field and its value. */
  lemma FourDigitField(s: string, i: nat)
    requires i + 4 <= |s| && IsDigit(s[i]) && IsDigit(s[i + 1]) && IsDigit(s[i + 2]) && IsDigit(s[i + 3])
    ensures Field(s, i, i + 4) ==
            Some(DigitValue(s[i]) * 1000 + DigitValue(s[i + 1]) * 100 + DigitValue(s[i + 2]) * 10 + DigitValue(s[i + 3]))
  {
    var t := s[i..i + 4];
    assert t[0] == s[i] && t[1] == s[i + 1] && t[2] == s[i + 2] && t[3] == s[i + 3];
    FourDigitValue(t);
  }

  /** A date-time prefix whose separators and fields are in place, with fields in range, is accepted. */
  lemma ParseDateTimeAccepts(s: string, year: nat, month: nat, day: nat, hour: nat, minute: nat, second: nat)
    requires |s| >= 19 && s[4] == '-' && s[7] == '-' && s[10] == 'T' && s[13] == ':' && s[16] == ':'
    requires Field(s, 0, 4) == Some(year) && Field(s, 5, 7) == Some(month) && Field(s, 8, 10) == Some(day)
    requires Field(s, 11, 13) == Some(hour) && Field(s, 14, 16) == Some(minute) && Field(s, 17, 19) == Some(second)
    requires 1 <= month <= 12 && 1 <= day <= DaysIn(month, year) && hour <= 23 && minute <= 59 && second <= 59
    ensures ParseDateTime(s) == Some(CalendarDate(year, month, day))
  {
  }

  /**
    Conversely, what the prefix parser accepts has its separators in place,
    every field numeric and in range, and the returned date is the one
    written in the year, month and day fields.
   */
  lemma ParseDateTimeSound(s: string)
    requires |s| >= 19 && ParseDateTime(s).Some?
    ensures s[4] == '-' && s[7] == '-' && s[10] == 'T' && s[13] == ':' && s[16] == ':'
    ensures Field(s, 0, 4) == Some(ParseDateTime(s).value.year)
    ensures Field(s, 5, 7) == Some(ParseDateTime(s).value.month)
    ensures Field(s, 8, 10) == Some(ParseDateTime(s).value.day)
    ensures Field(s, 11, 13).Some? && Field(s, 11, 13).value <= 23
    ensures Field(s, 14, 16).Some? && Field(s, 14, 16).value <= 59
    ensures Field(s, 17, 19).Some? && Field(s, 17, 19).value <= 59
  {
  }

  /** An accepted RFC 3339 timestamp is its date-time prefix followed by an optional fraction and a zone. */
  lemma ParseRfc3339Sound(s: string)
    requires ParseRfc3339(s).Some?
    ensures |s| >= 19 && ParseDateTime(s) == ParseRfc3339(s)
    ensures ZoneText(s[19..]) == "Z" || IsNumericOffset(ZoneText(s[19..]))
  {
  }

  /** An accepted millisecond timestamp is its date-time prefix, '.', three digits and 'Z'. */
  lemma ParseMillisLayoutSound(s: string)
    requires ParseMillisLayout(s).Some?
    ensures |s| == 24 && s[19] == '.' && AllDigits(s[20..23]) && s[23] == 'Z'
    ensures ParseDateTime(s) == ParseMillisLayout(s)
  {
  }

  /** The zero-padded "YYYY-MM-DDThh:mm:ss" rendering of Go's reference layout "2006-01-02T15:04:05". */
  function DateTimeText(d: CalendarDate, hour: nat, minute: nat, second: nat): (t: string)
    requires d.year < 10000 && d.month < 100 && d.day < 100 && hour < 100 && minute < 100 && second < 100
    ensures |t| == 19
  {
    [DigitChar(d.year / 100 / 10), DigitChar(d.year / 100 % 10), DigitChar(d.year % 100 / 10), DigitChar(d.year % 100 % 10), '-',
     DigitChar(d.month / 10), DigitChar(d.month % 10), '-', DigitChar(d.day / 10), DigitChar(d.day % 10), 'T',
     DigitChar(hour / 10), DigitChar(hour % 10), ':', DigitChar(minute / 10), DigitChar(minute % 10), ':',
     DigitChar(second / 10), DigitChar(second % 10)]
  }

  /** The year, month and day fields of a rendered prefix read back as the date. */
  lemma DateTimeTextDateFields(d: CalendarDate, hour: nat, minute: nat, second: nat)
    requires d.year < 10000 && d.month < 100 && d.day < 100 && hour < 100 && minute < 100 && second < 100
    ensures var t := DateTimeText(d, hour, minute, second);
            Field(t, 0, 4) == Some(d.year) && Field(t, 5, 7) == Some(d.month) && Field(t, 8, 10) == Some(d.day)
  {
    var t := DateTimeText(d, hour, minute, second);
    FourDigitField(t, 0);
    FourDigitsOf(d.year);
    TwoDigitField(t, 5);
    TwoDigitField(t, 8);
  }

  /** A number below 10000 is its four decimal digits. */
  lemma FourDigitsOf(n: nat)
    requires n < 10000
    ensures n / 100 / 10 * 1000 + n / 100 % 10 * 100 + n % 100 / 10 * 10 + n % 100 % 10 == n
  {
    var hi, lo := n / 100, n % 100;
    assert hi / 10 * 10 + hi % 10 == hi;
    assert lo / 10 * 10 + lo % 10 == lo;
    assert hi * 100 + lo == n;
  }

  /** The clock fields of a rendered prefix read back as the time of day. */
  lemma DateTimeTextClockFields(d: CalendarDate, hour: nat, minute: nat, second: nat)
    requires d.year < 10000 && d.month < 100 && d.day < 100 && hour < 100 && minute < 100 && second < 100
    ensures var t := DateTimeText(d, hour, minute, second);
            Field(t, 11, 13) == Some(hour) && Field(t, 14, 16) == Some(minute) && Field(t, 17, 19) == Some(second)
  {
    var t := DateTimeText(d, hour, minute, second);
    TwoDigitField(t, 11);
    TwoDigitField(t, 14);
    TwoDigitField(t, 17);
  }

  /** The prefix parser looks at the first nineteen characters only. */
  lemma ParseDateTimeOnPrefix(s: string)
    requires |s| >= 19
    ensures ParseDateTime(s) == ParseDateTime(s[..19])
  {
    var p := s[..19];
    assert s[0..4] == p[0..4] && s[5..7] == p[5..7] && s[8..10] == p[8..10];
    assert s[11..13] == p[11..13] && s[14..16] == p[14..16] && s[17..19] == p[17..19];
  }

  /** A rendered prefix of a valid date and time of day parses back to that date, whatever follows it. */
  lemma DateTimeTextParses(d: CalendarDate, hour: nat, minute: nat, second: nat, rest: string)
    requires ValidDate(d) && d.year < 10000 && hour <= 23 && minute <= 59 && second <= 59
    ensures ParseDateTime(DateTimeText(d, hour, minute, second) + rest) == Some(d)
  {
    var t := DateTimeText(d, hour, minute, second);
    DateTimeTextDateFields(d, hour, minute, second);
    DateTimeTextClockFields(d, hour, minute, second);
    ParseDateTimeAccepts(t, d.year, d.month, d.day, hour, minute, second);
    ParseDateTimeOnPrefix(t + rest);
    assert (t + rest)[..19] == t;
  }

  /** The zone text of a tail is the zone after an optional fraction. */
  lemma ZoneTextAfterFraction(frac: string, zone: string)
    requires AllDigits(frac) && (zone == "Z" || IsNumericOffset(zone))
    ensures ZoneText((if frac == [] then "" else "." + frac) + zone) == zone
  {
    if frac == [] {
      assert "" + zone == zone;
    } else {
      var tail := "." + frac + zone;
      assert tail[1..] == frac + zone && IsDigit(tail[1]);
      LeadingDigitsStopAtZone(frac, zone);
      assert tail[1 + |frac|..] == zone;
    }
  }

  /** The digits at the start of a fraction stop at the zone that follows it. */
  lemma {:induction false} LeadingDigitsStopAtZone(frac: string, zone: string)
    requires AllDigits(frac) && zone != [] && !IsDigit(zone[0])
    ensures LeadingDigits(frac + zone) == |frac|
  {
    if frac != [] {
      assert (frac + zone)[1..] == frac[1..] + zone;
      LeadingDigitsStopAtZone(frac[1..], zone);
    }
  }

  /**
    Round trip of the RFC 3339 layout: a valid date and time of day, written
    as "YYYY-MM-DDThh:mm:ss", an optional fraction of any length, and "Z" or a
    numeric offset, parses back to that date.
   */
  lemma Rfc3339RoundTrip(d: CalendarDate, hour: nat, minute: nat, second: nat, frac: string, zone: string)
    requires ValidDate(d) && d.year < 10000 && hour <= 23 && minute <= 59 && second <= 59
    requires AllDigits(frac) && (zone == "Z" || IsNumericOffset(zone))
    ensures ParseRfc3339(DateTimeText(d, hour, minute, second) + (if frac == [] then "" else "." + frac) + zone) == Some(d)
  {
    var t, tail := DateTimeText(d, hour, minute, second), (if frac == [] then "" else "." + frac) + zone;
    assert t + (if frac == [] then "" else "." + frac) + zone == t + tail;
    DateTimeTextParses(d, hour, minute, second, tail);
    assert (t + tail)[19..] == tail;
    ZoneTextAfterFraction(frac, zone);
  }

  /** Round trip of the millisecond layout: "YYYY-MM-DDThh:mm:ss.fffZ" parses back to its date. */
  lemma MillisLayoutRoundTrip(d: CalendarDate, hour: nat, minute: nat, second: nat, millis: string)
    requires ValidDate(d) && d.year < 10000 && hour <= 23 && minute <= 59 && second <= 59
    requires |millis| == 3 && AllDigits(millis)
    ensures ParseMillisLayout(DateTimeText(d, hour, minute, second) + "." + millis + "Z") == Some(d)
  {
    var tail := "." + millis + "Z";
    var s := DateTimeText(d, hour, minute, second) + tail;
    assert DateTimeText(d, hour, minute, second) + "." + millis + "Z" == s;
    DateTimeTextParses(d, hour, minute, second, tail);
    assert s[19] == '.' && s[20..23] == millis && s[23] == 'Z';
  }

  /** Hence `formatDate` displays the date of every well-formed RFC 3339 timestamp. */
  lemma FormatDateRoundTrip(d: CalendarDate, hour: nat, minute: nat, second: nat, frac: string, zone: string)
    requires ValidDate(d) && d.year < 10000 && hour <= 23 && minute <= 59 && second <= 59
    requires AllDigits(frac) && (zone == "Z" || IsNumericOffset(zone))
    ensures FormatDate(DateTimeText(d, hour, minute, second) + (if frac == [] then "" else "." + frac) + zone) == Display(d)
  {
    Rfc3339RoundTrip(d, hour, minute, second, frac, zone);
  }

  /** An hour field past 23 makes the prefix parser reject the text. */
  lemma ParseDateTimeRejectsHour(s: string)
    requires |s| >= 19 && Field(s, 11, 13).Some? && Field(s, 11, 13).value > 23
    ensures ParseDateTime(s).None?
  {
  }

  /** So a timestamp at hour 24 is rejected by both layouts and formats as "". */
  lemma FormatDateRejectsHour24()
    ensures FormatDate("2023-05-04T24:00:00Z") == ""
  {
    var s := "2023-05-04T24:00:00Z";
    TwoDigitField(s, 11);
    ParseDateTimeRejectsHour(s);
    FormatDateEmptyIff(s);
  }

  /** The year field of the worked example timestamp. */
  lemma ExampleYearField(s: string)
    requires s == "2023-05-04T10:00:00.000Z"
    ensures Field(s, 0, 4) == Some(2023)
  {
    FourDigitField(s, 0);
  }

  /** The month and day fields of the worked example timestamp. */
  lemma ExampleDayFields(s: string)
    requires s == "2023-05-04T10:00:00.000Z"
    ensures Field(s, 5, 7) == Some(5) && Field(s, 8, 10) == Some(4)
  {
    TwoDigitField(s, 5);
    TwoDigitField(s, 8);
  }

  /** The clock fields of the worked example timestamp. */
  lemma ExampleClockFields(s: string)
    requires s == "2023-05-04T10:00:00.000Z"
    ensures Field(s, 11, 13) == Some(10) && Field(s, 14, 16) == Some(0) && Field(s, 17, 19) == Some(0)
  {
    TwoDigitField(s, 11);
    TwoDigitField(s, 14);
    TwoDigitField(s, 17);
  }

  /** The worked example timestamp of the millisecond layout, read field by field. */
  lemma ExampleTimestampFields(s: string)
    requires s == "2023-05-04T10:00:00.000Z"
    ensures ParseDateTime(s) == Some(CalendarDate(2023, 5, 4))
  {
    ExampleYearField(s);
    ExampleDayFields(s);
    ExampleClockFields(s);
    ParseDateTimeAccepts(s, 2023, 5, 4, 10, 0, 0);
  }

  lemma ExampleTimestampParses(s: string)
    requires s == "2023-05-04T10:00:00.000Z"
    ensures ParseRfc3339(s) == Some(CalendarDate(2023, 5, 4))
  {
    ExampleTimestampFields(s);
    assert s[19] == '.' && s[20..23] == "000" && s[23] == 'Z';
    assert ParseMillisLayout(s) == Some(CalendarDate(2023, 5, 4));
    MillisLayoutIsRfc3339(s);
  }

  lemma ExampleDisplay()
    ensures Display(CalendarDate(2023, 5, 4)) == "4 Mayıs 2023"
  {
  }

  /** The worked example: a millisecond timestamp of 4 May 2023. */
  lemma FormatDateExample()
    ensures FormatDate("2023-05-04T10:00:00.000Z") == "4 Mayıs 2023"
  {
    ExampleTimestampParses("2023-05-04T10:00:00.000Z");
    ExampleDisplay();
  }

  /** Text that is no timestamp at all formats as "". */
  lemma FormatDateRejectsText()
    ensures FormatDate("not-a-date") == ""
  {
  }
}
