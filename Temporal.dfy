/**
 * Calendar dates and local date-times (java.time.LocalDate and
 * LocalDateTime) with their ISO-8601 text forms: toString and the parse of
 * ISO_LOCAL_DATE / ISO_LOCAL_DATE_TIME, restricted to years 0..9999 and to
 * whole seconds.
 */
module Temporal {
  import opened Wrappers
  import opened JavaText

  datatype Date = Date(year: int, month: int, day: int)

  datatype DateTime = DateTime(date: Date, hour: int, minute: int, second: int)

  /** The proleptic Gregorian leap-year rule of java.time. */
  predicate IsLeapYear(y: int) {
    y % 4 == 0 && (y % 100 != 0 || y % 400 == 0)
  }

  function DaysInMonth(y: int, m: int): (n: int)
    requires 1 <= m <= 12
    ensures 28 <= n <= 31
    ensures m == 2 ==> (n == 29 <==> IsLeapYear(y))
  {
    if m == 2 then (if IsLeapYear(y) then 29 else 28)
    else if m == 4 || m == 6 || m == 9 || m == 11 then 30
    else 31
  }

  /** A date that java.time can represent and that its ISO form writes with four year digits. */
  predicate IsDate(d: Date) {
    && 0 <= d.year <= 9999
    && 1 <= d.month <= 12
    && 1 <= d.day <= DaysInMonth(d.year, d.month)
  }

  predicate IsDateTime(t: DateTime) {
    && IsDate(t.date)
    && 0 <= t.hour < 24
    && 0 <= t.minute < 60
    && 0 <= t.second < 60
  }

  /** The dates and date-times the model's values may hold. */
  type LocalDate = d: Date | IsDate(d) witness Date(1970, 1, 1)

  type LocalDateTime = t: DateTime | IsDateTime(t) witness DateTime(Date(1970, 1, 1), 0, 0, 0)

  /** The order of LocalDate.compareTo: year, then month, then day. */
  predicate DateBefore(a: Date, b: Date) {
    || a.year < b.year
    || (a.year == b.year && a.month < b.month)
    || (a.year == b.year && a.month == b.month && a.day < b.day)
  }

  // ------------------------------------------------------------- format

  /** n (below 100) written with two digits, zero padded. */
  function TwoDigits(n: nat): (s: string)
    requires n < 100
    ensures |s| == 2 && AllDigits(s)
  {
    [DigitChar(n / 10), DigitChar(n % 10)]
  }

  /** n (below 10000) written with four digits, zero padded. */
  function FourDigits(n: nat): (s: string)
    requires n < 10000
    ensures |s| == 4 && AllDigits(s)
  {
    TwoDigits(n / 100) + TwoDigits(n % 100)
  }

  /** LocalDate.toString: uuuu-MM-dd. */
  function FormatDate(d: Date): (s: string)
    requires IsDate(d)
    ensures |s| == 10
  {
    FourDigits(d.year) + "-" + TwoDigits(d.month) + "-" + TwoDigits(d.day)
  }

  /** LocalDateTime.toString: the date, 'T', HH:mm, and :ss only when the seconds are not zero. */
  function FormatDateTime(t: DateTime): (s: string)
    requires IsDateTime(t)
    ensures |s| == (if t.second == 0 then 16 else 19)
  {
    FormatDate(t.date) + "T" + TwoDigits(t.hour) + ":" + TwoDigits(t.minute)
      + (if t.second == 0 then "" else ":" + TwoDigits(t.second))
  }

  // -------------------------------------------------------------- parse

  /** The value of a fixed-width digit field, if it holds digits only. */
  function Field(s: string, from: nat, to: nat): (r: Option<nat>)
    requires from <= to <= |s|
    ensures r.Some? <==> AllDigits(s[from..to])
    ensures r.Some? ==> r.value == DigitsValue(s[from..to])
  {
    if AllDigits(s[from..to]) then Some(DigitsValue(s[from..to])) else None
  }

  /** LocalDate.parse of the four-digit-year ISO form; None is a DateTimeParseException. */
  function ParseDate(s: string): (r: Option<Date>)
    ensures r.Some? ==> IsDate(r.value)
    ensures r.Some? ==> |s| == 10
  {
    if |s| != 10 || s[4] != '-' || s[7] != '-' then None
    else
      var y := Field(s, 0, 4);
      var m := Field(s, 5, 7);
      var d := Field(s, 8, 10);
      if y.None? || m.None? || d.None? then None
      else
        var date := Date(y.value, m.value, d.value);
        if IsDate(date) then Some(date) else None
  }

  /** LocalDateTime.parse: a date, 'T' (either case), HH:mm and optionally :ss. */
  function ParseDateTime(s: string): (r: Option<DateTime>)
    ensures r.Some? ==> IsDateTime(r.value)
    ensures r.Some? ==> |s| == 16 || |s| == 19
  {
    if |s| != 16 && |s| != 19 then None
    else if (s[10] != 'T' && s[10] != 't') || s[13] != ':' then None
    else if |s| == 19 && s[16] != ':' then None
    else
      var date := ParseDate(s[..10]);
      var h := Field(s, 11, 13);
      var m := Field(s, 14, 16);
      var sec := if |s| == 16 then Some(0) else Field(s, 17, 19);
      if date.None? || h.None? || m.None? || sec.None? then None
      else
        var t := DateTime(date.value, h.value, m.value, sec.value);
        if IsDateTime(t) then Some(t) else None
  }

  // --------------------------------------------------------- round trips

  lemma TwoDigitsValue(n: nat)
    requires n < 100
    ensures DigitsValue(TwoDigits(n)) == n
  {
    var s := TwoDigits(n);
    assert s[..1][..0] == [];
    assert s[..1] == [DigitChar(n / 10)];
    assert DigitsValue(s[..1]) == n / 10;
  }

  lemma FourDigitsValue(n: nat)
    requires n < 10000
    ensures DigitsValue(FourDigits(n)) == n
  {
    var hi := TwoDigits(n / 100);
    var lo := TwoDigits(n % 100);
    var s := FourDigits(n);
    TwoDigitsValue(n / 100);
    assert s[..2] == hi && s[..3][..2] == hi && s[..4] == s;
    assert s[..3] == hi + [lo[0]];
    assert DigitsValue(s[..3]) == n / 100 * 10 + n % 100 / 10;
  }

  /** LocalDate.parse undoes LocalDate.toString. */
  lemma ParseFormatDate(d: Date)
    requires IsDate(d)
    ensures ParseDate(FormatDate(d)) == Some(d)
  {
    var s := FormatDate(d);
    assert s[0..4] == FourDigits(d.year);
    assert s[5..7] == TwoDigits(d.month);
    assert s[8..10] == TwoDigits(d.day);
    FourDigitsValue(d.year);
    TwoDigitsValue(d.month);
    TwoDigitsValue(d.day);
  }

  /** LocalDateTime.parse undoes LocalDateTime.toString. */
  lemma ParseFormatDateTime(t: DateTime)
    requires IsDateTime(t)
    ensures ParseDateTime(FormatDateTime(t)) == Some(t)
  {
    var s := FormatDateTime(t);
    assert s[..10] == FormatDate(t.date);
    ParseFormatDate(t.date);
    assert s[11..13] == TwoDigits(t.hour);
    assert s[14..16] == TwoDigits(t.minute);
    TwoDigitsValue(t.hour);
    TwoDigitsValue(t.minute);
    if t.second != 0 {
      assert s[17..19] == TwoDigits(t.second);
      TwoDigitsValue(t.second);
    }
  }

  /** The ISO forms are written with digits and the separators '-', 'T' and ':' only. */
  lemma FormattedCharacters(d: Date, t: DateTime)
    requires IsDate(d) && IsDateTime(t)
    ensures forall i :: 0 <= i < |FormatDate(d)| ==> IsDigit(FormatDate(d)[i]) || FormatDate(d)[i] == '-'
    ensures forall i :: 0 <= i < |FormatDateTime(t)| ==>
      IsDigit(FormatDateTime(t)[i]) || FormatDateTime(t)[i] in "-T:"
  {
    var s := FormatDate(t.date);
    assert forall i :: 0 <= i < |s| ==> IsDigit(s[i]) || s[i] == '-';
    assert forall i :: 0 <= i < 10 ==> FormatDateTime(t)[i] == s[i];
    var u := FormatDate(d);
    assert forall i :: 0 <= i < |u| ==> IsDigit(u[i]) || u[i] == '-';
  }

  /** A formatted date or date-time is never empty and never holds the CSV separator. */
  lemma FormattedHasNoSeparator(d: Date, t: DateTime)
    requires IsDate(d) && IsDateTime(t)
    ensures FormatDate(d) != "" && ';' !in FormatDate(d)
    ensures FormatDateTime(t) != "" && ';' !in FormatDateTime(t)
  {
    FormattedCharacters(d, t);
    var s := FormatDate(d);
    var u := FormatDateTime(t);
    assert forall i :: 0 <= i < |s| ==> s[i] != ';';
    assert forall i :: 0 <= i < |u| ==> u[i] != ';';
  }
}
