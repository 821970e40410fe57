/** Commit dates. The converter reads a header's date with
    `datetime.strptime(date, "%a %b %d %H:%M:%S %Y")` and sorts commits by
    the resulting `datetime`. Here a date is a tuple of bounded integers;
    ordering is lexicographic on (year, month, day, hour, minute, second),
    which is how `datetime` values compare. */
module Timestamps {
  import opened Wrappers
  import opened Text

  type Year = y: int | 1 <= y <= 9999 witness 1
  type Month = m: int | 1 <= m <= 12 witness 1
  type Day = d: int | 1 <= d <= 31 witness 1
  type Hour = h: int | 0 <= h <= 23
  type Minute = m: int | 0 <= m <= 59
  type Second = s: int | 0 <= s <= 59

  datatype Timestamp = Timestamp(year: Year, month: Month, day: Day, hour: Hour, minute: Minute, second: Second)

  /** `a < b` on `datetime`: the earlier of two points in time. */
  predicate Before(a: Timestamp, b: Timestamp) {
    || a.year < b.year
    || (a.year == b.year && a.month < b.month)
    || (a.year == b.year && a.month == b.month && a.day < b.day)
    || (a.year == b.year && a.month == b.month && a.day == b.day && a.hour < b.hour)
    || (a.year == b.year && a.month == b.month && a.day == b.day && a.hour == b.hour && a.minute < b.minute)
    || (a.year == b.year && a.month == b.month && a.day == b.day && a.hour == b.hour && a.minute == b.minute
        && a.second < b.second)
  }

  /** The fields of a timestamp, most significant first. */
  function Fields(t: Timestamp): seq<int> {
    [t.year, t.month, t.day, t.hour, t.minute, t.second]
  }

  /** Numbers written side by side as base-100 digits. */
  function Pack(digits: seq<int>): int
    decreases |digits|
  {
    if |digits| == 0 then 0 else Pack(digits[..|digits| - 1]) * 100 + digits[|digits| - 1]
  }

  /** A single integer that orders timestamps as `Before` does: the fields
      packed as base-100 digits (the year takes two). */
  function Ordinal(t: Timestamp): int {
    Pack(Fields(t))
  }

  lemma OrdinalValue(t: Timestamp)
    ensures Ordinal(t) == t.year * 10000000000 + t.month * 100000000 + t.day * 1000000 + t.hour * 10000 + t.minute * 100 + t.second
  {
    var f := Fields(t);
    assert f[..5][..4] == f[..4] && f[..4][..3] == f[..3] && f[..3][..2] == f[..2];
    assert f[..2][..1] == f[..1] && f[..1][..0] == [];
    assert Pack(f[..1]) == t.year;
    assert Pack(f[..2]) == t.year * 100 + t.month;
    assert Pack(f[..3]) == (t.year * 100 + t.month) * 100 + t.day;
    assert Pack(f[..4]) == ((t.year * 100 + t.month) * 100 + t.day) * 100 + t.hour;
    assert Pack(f[..5]) == (((t.year * 100 + t.month) * 100 + t.day) * 100 + t.hour) * 100 + t.minute;
  }

  /** Comparing ordinals is comparing timestamps, and equal ordinals mean
      equal timestamps. */
  lemma OrdinalOrder(a: Timestamp, b: Timestamp)
    ensures Before(a, b) <==> Ordinal(a) < Ordinal(b)
    ensures a == b <==> Ordinal(a) == Ordinal(b)
  {
    OrdinalValue(a);
    OrdinalValue(b);
  }

  // ----- reading `%a %b %d %H:%M:%S %Y` -----

  function LowerChar(c: char): char {
    if 'A' <= c <= 'Z' then (c as int + 32) as char else c
  }

  /** ASCII lower case; `strptime` matches names ignoring case. */
  function Lower(s: string): (r: string)
    ensures |r| == |s|
  {
    seq(|s|, i requires 0 <= i < |s| => LowerChar(s[i]))
  }

  /** `%a`: an abbreviated weekday name, in lower case. */
  predicate IsWeekdayName(name: string) {
    name in WeekdayNames
  }

  const WeekdayNames: seq<string> := ["mon", "tue", "wed", "thu", "fri", "sat", "sun"]

  /** `%b`: the month an abbreviated month name (in lower case) stands for. */
  function MonthNumber(name: string): Option<Month> {
    if name == "jan" then Some(1) else if name == "feb" then Some(2) else if name == "mar" then Some(3)
    else if name == "apr" then Some(4) else if name == "may" then Some(5) else if name == "jun" then Some(6)
    else if name == "jul" then Some(7) else if name == "aug" then Some(8) else if name == "sep" then Some(9)
    else if name == "oct" then Some(10) else if name == "nov" then Some(11) else if name == "dec" then Some(12)
    else None
  }

  predicate AllDigits(s: string) {
    forall i :: 0 <= i < |s| ==> IsDigit(s[i])
  }

  /** The value of a string of decimal digits. */
  function Decimal(s: string): nat
    requires AllDigits(s)
    decreases |s|
  {
    if |s| == 0 then 0 else Decimal(s[..|s| - 1]) * 10 + (s[|s| - 1] as int - '0' as int)
  }

  /** A numeric field of `minLen` to `maxLen` digits whose value lies in `lo..hi`. */
  function Field(tok: string, minLen: nat, maxLen: nat, lo: int, hi: int): (r: Option<int>)
    ensures r.Some? <==> minLen <= |tok| <= maxLen && AllDigits(tok) && lo <= Decimal(tok) <= hi
    ensures r.Some? ==> r.value == Decimal(tok) && lo <= r.value <= hi
  {
    if minLen <= |tok| <= maxLen && AllDigits(tok) && lo <= Decimal(tok) <= hi then Some(Decimal(tok)) else None
  }

  datatype Clock = Clock(hour: Hour, minute: Minute, second: Second)

  /** `%H:%M:%S`, each part one or two digits. `%S` admits 60 and 61, which
      `datetime` then refuses, so 59 is the bound that survives. */
  function ClockOf(tok: string): Option<Clock> {
    var parts := SplitOn(tok, ':');
    if |parts| != 3 then None
    else
      var hh := Field(parts[0], 1, 2, 0, 23);
      var mm := Field(parts[1], 1, 2, 0, 59);
      var ss := Field(parts[2], 1, 2, 0, 59);
      if hh.None? || mm.None? || ss.None? then None
      else Some(Clock(hh.value, mm.value, ss.value))
  }

  /** The five fields of a date, already split. */
  function DateOfFields(t: seq<string>): Option<Timestamp>
    requires |t| == 5
  {
    var mo := MonthNumber(Lower(t[1]));
    var day := Field(t[2], 1, 2, 1, 31);
    var clock := ClockOf(t[3]);
    var year := Field(t[4], 4, 4, 1, 9999);
    if !IsWeekdayName(Lower(t[0])) || mo.None? || day.None? || clock.None? || year.None? then None
    else Some(Timestamp(year.value, mo.value, day.value, clock.value.hour, clock.value.minute, clock.value.second))
  }

  /** `datetime.strptime(date, "%a %b %d %H:%M:%S %Y")`: five blank-separated
      fields, an abbreviated weekday and month name in any case, a day of one
      or two digits, a clock `H:M:S` of one or two digits each, a four-digit
      year; no blank before or after. `None` where Python raises ValueError. */
  function ParseDate(date: string): (r: Option<Timestamp>)
    ensures r.None? <==>
      || |date| == 0 || IsSpace(date[0]) || IsSpace(date[|date| - 1]) || |Split(date)| != 5
      || !IsWeekdayName(Lower(Split(date)[0])) || MonthNumber(Lower(Split(date)[1])).None?
      || Field(Split(date)[2], 1, 2, 1, 31).None? || ClockOf(Split(date)[3]).None?
      || Field(Split(date)[4], 4, 4, 1, 9999).None?
    ensures r.Some? ==> var t := Split(date);
      && MonthNumber(Lower(t[1])) == Some(r.value.month)
      && Field(t[2], 1, 2, 1, 31) == Some(r.value.day)
      && ClockOf(t[3]) == Some(Clock(r.value.hour, r.value.minute, r.value.second))
      && Field(t[4], 4, 4, 1, 9999) == Some(r.value.year)
  {
    var t := Split(date);
    if |date| == 0 || IsSpace(date[0]) || IsSpace(date[|date| - 1]) || |t| != 5 then None
    else DateOfFields(t)
  }

  // ----- writing `%a %b %d %H:%M:%S %Y` -----

  const WeekdayAbbrevs: seq<string> := ["Mon", "Tue", "Wed", "Thu", "Fri", "Sat", "Sun"]
  const MonthAbbrevs: seq<string> := ["Jan", "Feb", "Mar", "Apr", "May", "Jun", "Jul", "Aug", "Sep", "Oct", "Nov", "Dec"]

  function DigitChar(d: int): char
    requires 0 <= d <= 9
  {
    ('0' as int + d) as char
  }

  function Pow10(k: nat): nat {
    if k == 0 then 1 else 10 * Pow10(k - 1)
  }

  /** `n` as exactly `width` decimal digits, zero-padded. */
  function Padded(n: nat, width: nat): (r: string)
    ensures |r| == width
    decreases width
  {
    if width == 0 then "" else Padded(n / 10, width - 1) + [DigitChar(n % 10)]
  }

  /** `%H:%M:%S`, two digits each. */
  function ClockText(t: Timestamp): string {
    Join(":", [Padded(t.hour, 2), Padded(t.minute, 2), Padded(t.second, 2)])
  }

  /** The five fields `strftime("%a %b %d %H:%M:%S %Y")` writes. */
  function DateFields(weekday: nat, t: Timestamp): seq<string>
    requires weekday < 7
  {
    [WeekdayAbbrevs[weekday], MonthAbbrevs[t.month - 1], Padded(t.day, 2),
     ClockText(t), Padded(t.year, 4)]
  }

  /** `strftime("%a %b %d %H:%M:%S %Y")` for a date falling on weekday
      `weekday` (0 is Monday); the weekday itself is calendar arithmetic and
      is supplied by the caller. */
  function FormatDate(weekday: nat, t: Timestamp): string
    requires weekday < 7
  {
    Join(" ", DateFields(weekday, t))
  }

  lemma {:induction false} PaddedDecimal(n: nat, width: nat)
    ensures AllDigits(Padded(n, width))
    ensures n < Pow10(width) ==> Decimal(Padded(n, width)) == n
    decreases width
  {
    if width > 0 {
      PaddedDecimal(n / 10, width - 1);
      var p := Padded(n, width);
      assert p[..|p| - 1] == Padded(n / 10, width - 1);
    }
  }

  lemma PaddedField(n: nat, width: nat, minLen: nat, lo: int, hi: int)
    requires width > 0 && n < Pow10(width)
    requires minLen <= width && lo <= n <= hi
    ensures Field(Padded(n, width), minLen, width, lo, hi) == Some(n)
    ensures IsToken(Padded(n, width)) && ':' !in Padded(n, width)
  {
    PaddedDecimal(n, width);
  }

  lemma NamesRoundTrip(weekday: nat, month: Month)
    requires weekday < 7
    ensures IsWeekdayName(Lower(WeekdayAbbrevs[weekday]))
    ensures MonthNumber(Lower(MonthAbbrevs[month - 1])) == Some(month)
    ensures IsToken(WeekdayAbbrevs[weekday]) && IsToken(MonthAbbrevs[month - 1])
  {
    LowerAbbrevs();
    MonthNumbers();
    AbbrevTokens();
    assert Lower(WeekdayAbbrevs[weekday]) == WeekdayNames[weekday];
  }

  lemma AbbrevTokens()
    ensures forall k :: 0 <= k < 7 ==> IsToken(WeekdayAbbrevs[k])
    ensures forall k :: 0 <= k < 12 ==> IsToken(MonthAbbrevs[k])
  {
  }

  lemma LowerAbbrevs()
    ensures forall k :: 0 <= k < 7 ==> Lower(WeekdayAbbrevs[k]) == WeekdayNames[k]
    ensures forall k :: 0 <= k < 12 ==> Lower(MonthAbbrevs[k]) == MonthNames[k]
  {
  }

  lemma MonthNumbers()
    ensures forall k :: 0 <= k < 12 ==> MonthNumber(MonthNames[k]) == Some(k + 1)
  {
  }

  const MonthNames: seq<string> := ["jan", "feb", "mar", "apr", "may", "jun", "jul", "aug", "sep", "oct", "nov", "dec"]

  lemma ClockRoundTrip(t: Timestamp)
    ensures ClockOf(ClockText(t)) == Some(Clock(t.hour, t.minute, t.second)) && IsToken(ClockText(t))
  {
    ClockParses(t);
    ClockIsToken(t);
  }

  lemma ClockParses(t: Timestamp)
    ensures ClockOf(ClockText(t)) == Some(Clock(t.hour, t.minute, t.second))
  {
    var hh, mm, ss := Padded(t.hour, 2), Padded(t.minute, 2), Padded(t.second, 2);
    PaddedField(t.hour, 2, 1, 0, 23);
    PaddedField(t.minute, 2, 1, 0, 59);
    PaddedField(t.second, 2, 1, 0, 59);
    SplitOnJoin([hh, mm, ss], ':');
  }

  lemma ClockIsToken(t: Timestamp)
    ensures IsToken(ClockText(t))
  {
    var hh, mm, ss := Padded(t.hour, 2), Padded(t.minute, 2), Padded(t.second, 2);
    PaddedField(t.hour, 2, 1, 0, 23);
    PaddedField(t.minute, 2, 1, 0, 59);
    PaddedField(t.second, 2, 1, 0, 59);
    var c := ClockText(t);
    assert [hh, mm, ss][1..] == [mm, ss];
    assert [mm, ss][1..] == [ss];
    assert Join(":", [mm, ss]) == mm + ":" + ss;
    assert c == hh + ":" + Join(":", [mm, ss]);
    assert forall i :: 0 <= i < |c| ==> c[i] == ':' || c[i] in hh || c[i] in mm || c[i] in ss;
  }

  /** Each written date field is one blank-free token. */
  lemma DateFieldTokens(weekday: nat, t: Timestamp)
    requires weekday < 7
    ensures |DateFields(weekday, t)| == 5
    ensures forall k :: 0 <= k < 5 ==> IsToken(DateFields(weekday, t)[k])
  {
    FieldsRoundTrip(weekday, t);
  }

  lemma FieldsRoundTrip(weekday: nat, t: Timestamp)
    requires weekday < 7
    ensures forall k :: 0 <= k < 5 ==> IsToken(DateFields(weekday, t)[k])
    ensures DateOfFields(DateFields(weekday, t)) == Some(t)
  {
    NamesRoundTrip(weekday, t.month);
    ClockRoundTrip(t);
    PaddedField(t.day, 2, 1, 1, 31);
    PaddedField(t.year, 4, 4, 1, 9999);
  }

  /** The fields as `cvc log` prints a date, with the day in `dayWidth`
      digits: `Mon Jan  5 18:02:31 2009` has a one-digit day after two
      blanks. */
  function LogDateFields(weekday: nat, t: Timestamp, dayWidth: nat): seq<string>
    requires weekday < 7
  {
    [WeekdayAbbrevs[weekday], MonthAbbrevs[t.month - 1], Padded(t.day, dayWidth), ClockText(t), Padded(t.year, 4)]
  }

  /** A layout with no blank at either end ends with its last token. */
  lemma {:induction false} WeaveEnd(gaps: seq<string>, ts: seq<string>)
    requires |gaps| == |ts| + 1 && |ts| > 0 && gaps[|ts|] == ""
    requires forall k :: 0 <= k < |ts| ==> IsToken(ts[k])
    ensures |Weave(gaps, ts)| > 0 && IsToken(ts[|ts| - 1])
    ensures Weave(gaps, ts)[|Weave(gaps, ts)| - 1] == ts[|ts| - 1][|ts[|ts| - 1]| - 1]
    decreases |ts|
  {
    var w := Weave(gaps, ts);
    var rest := Weave(gaps[1..], ts[1..]);
    assert w == gaps[0] + ts[0] + rest;
    if |ts| == 1 {
      assert rest == gaps[1];
    } else {
      WeaveEnd(gaps[1..], ts[1..]);
      assert ts[1..][|ts| - 2] == ts[|ts| - 1];
    }
  }

  /** `strptime` reads a date back whatever the blank runs between its
      fields, with a one-digit or a two-digit day, so the dates `cvc log`
      prints parse to the timestamp they stand for. */
  lemma ParseLogDate(weekday: nat, t: Timestamp, dayWidth: nat, gaps: seq<string>)
    requires weekday < 7
    requires 1 <= dayWidth <= 2 && t.day < Pow10(dayWidth)
    requires Separates(gaps, 5) && gaps[0] == "" && gaps[5] == ""
    ensures ParseDate(Weave(gaps, LogDateFields(weekday, t, dayWidth))) == Some(t)
  {
    var fs := LogDateFields(weekday, t, dayWidth);
    NamesRoundTrip(weekday, t.month);
    ClockRoundTrip(t);
    PaddedField(t.day, dayWidth, 1, 1, 31);
    PaddedField(t.year, 4, 4, 1, 9999);
    assert DateOfFields(fs) == Some(t);
    SplitWeave(gaps, fs);
    WeaveStart(gaps, fs);
    WeaveEnd(gaps, fs);
  }

  /** The log's date fields joined by single blanks, as the header parser
      re-joins them, read back as the same timestamp. */
  lemma ParseJoinedLogDate(weekday: nat, t: Timestamp, dayWidth: nat)
    requires weekday < 7
    requires 1 <= dayWidth <= 2 && t.day < Pow10(dayWidth)
    ensures forall k :: 0 <= k < 5 ==> IsToken(LogDateFields(weekday, t, dayWidth)[k])
    ensures ParseDate(Join(" ", LogDateFields(weekday, t, dayWidth))) == Some(t)
  {
    var fs := LogDateFields(weekday, t, dayWidth);
    NamesRoundTrip(weekday, t.month);
    ClockRoundTrip(t);
    PaddedField(t.day, dayWidth, 1, 1, 31);
    PaddedField(t.year, 4, 4, 1, 9999);
    assert DateOfFields(fs) == Some(t);
    SplitJoin(fs);
    JoinEnds(" ", fs);
  }

  /** Reading back a formatted date gives the same timestamp. */
  lemma ParseFormatDate(weekday: nat, t: Timestamp)
    requires weekday < 7
    ensures ParseDate(FormatDate(weekday, t)) == Some(t)
  {
    var fs := DateFields(weekday, t);
    FieldsRoundTrip(weekday, t);
    SplitJoin(fs);
    JoinEnds(" ", fs);
  }
}
