/** Python's `datetime.strptime(s, '%Y-%m-%d %H:%M:%S')`, the ordering of the
    naive `datetime` values it builds, and `isoformat(timespec='minutes')`.

    Parsing follows CPython's strptime: every directive becomes a regular
    expression (`%Y` exactly four digits; `%m`, `%d`, `%H`, `%M`, `%S` one or
    two digits within their range, `%d` also a space and one digit), the
    format's single space becomes `\s+`, the match must consume the whole
    string, and the `date`/`datetime` constructors then reject year 0, days past
    the end of the month and the seconds 60 and 61 that the `%S` pattern lets
    through. */
module DateTimes {
  import opened Wrappers

  /** A naive datetime with second precision (the microsecond is always 0 here). */
  datatype DateTime = DateTime(year: int, month: int, day: int, hour: int, minute: int, second: int)

  /** The Gregorian leap-year rule of Python's `calendar.isleap`. */
  predicate IsLeapYear(y: int) {
    y % 4 == 0 && (y % 100 != 0 || y % 400 == 0)
  }

  function DaysInMonth(y: int, m: int): (n: int)
    requires 1 <= m <= 12
    ensures 28 <= n <= 31
    ensures m == 2 ==> (n == 29 <==> IsLeapYear(y))
  {
    if m == 2 then (if IsLeapYear(y) then 29 else 28)
    else if m == 4 || m == 6 || m == 9 || m == 11 then 30
    else 31
  }

  /** What the `datetime` constructor accepts (MINYEAR is 1, MAXYEAR is 9999). */
  predicate Valid(t: DateTime) {
    && 1 <= t.year <= 9999
    && 1 <= t.month <= 12
    && 1 <= t.day <= DaysInMonth(t.year, t.month)
    && 0 <= t.hour < 24
    && 0 <= t.minute < 60
    && 0 <= t.second < 60
  }

  /** The ranges the directive patterns admit before the constructor checks:
      `%Y` any four digits, `%d` up to 31 whatever the month, `%S` up to 61. */
  predicate InPatternRanges(t: DateTime) {
    && 0 <= t.year <= 9999
    && 1 <= t.month <= 12
    && 1 <= t.day <= 31
    && 0 <= t.hour <= 23
    && 0 <= t.minute <= 59
    && 0 <= t.second <= 61
  }

  // ---------------------------------------------------------------------------
  // Characters

  predicate IsDigit(c: char) { '0' <= c <= '9' }

  function DigitValue(c: char): (d: int)
    requires IsDigit(c)
    ensures 0 <= d <= 9
  {
    c as int - '0' as int
  }

  function DigitChar(d: int): (c: char)
    requires 0 <= d <= 9
    ensures IsDigit(c) && DigitValue(c) == d
  {
    ('0' as int + d) as char
  }

  /** The characters Python's `\s` matches in a str pattern (those for which
      `str.isspace()` holds). */
  predicate IsSpace(c: char) {
    || '\t' <= c <= '\r'
    || '\U{1C}' <= c <= ' '
    || c == '\U{85}' || c == '\U{A0}' || c == '\U{1680}'
    || '\U{2000}' <= c <= '\U{200A}'
    || c == '\U{2028}' || c == '\U{2029}' || c == '\U{202F}' || c == '\U{205F}' || c == '\U{3000}'
  }

  // ---------------------------------------------------------------------------
  // Scanning, one directive at a time. Each step takes the index where the
  // directive starts and yields what it matched with the index just past it.

  /** `%Y`: exactly four digits at the start. */
  function Year(s: string): (r: Option<int>)
    ensures r.Some? ==> |s| >= 4 && 0 <= r.value <= 9999
  {
    if |s| >= 4 && IsDigit(s[0]) && IsDigit(s[1]) && IsDigit(s[2]) && IsDigit(s[3]) then
      Some(1000 * DigitValue(s[0]) + 100 * DigitValue(s[1]) + 10 * DigitValue(s[2]) + DigitValue(s[3]))
    else
      None
  }

  /** `%m`, `%H`, `%M`, `%S` (and `%d` without its leading-space form): a run of
      one or two digits at `s[i]`, not followed by a third, whose value is in
      `lo..hi`. */
  function Field(s: string, i: nat, lo: int, hi: int): (r: Option<(int, nat)>)
    ensures r.Some? ==> i < r.value.1 <= i + 2 && r.value.1 <= |s| && lo <= r.value.0 <= hi
    ensures r.Some? ==> r.value.1 == |s| || !IsDigit(s[r.value.1])
  {
    if i < |s| && IsDigit(s[i]) then
      if i + 1 < |s| && IsDigit(s[i + 1]) then
        if i + 2 < |s| && IsDigit(s[i + 2]) then None
        else
          var v := 10 * DigitValue(s[i]) + DigitValue(s[i + 1]);
          if lo <= v <= hi then Some((v, i + 2)) else None
      else
        var v := DigitValue(s[i]);
        if lo <= v <= hi then Some((v, i + 1)) else None
    else
      None
  }

  /** `%d`: a day field, or a space followed by a single digit 1-9. */
  function DayField(s: string, i: nat): (r: Option<(int, nat)>)
    ensures r.Some? ==> i < r.value.1 <= |s| && 1 <= r.value.0 <= 31
  {
    if i + 1 < |s| && s[i] == ' ' && '1' <= s[i + 1] <= '9' then Some((DigitValue(s[i + 1]), i + 2))
    else Field(s, i, 1, 31)
  }

  /** A literal separator character of the format. */
  function Literal(s: string, i: nat, c: char): (r: Option<nat>)
    ensures r.Some? ==> r.value == i + 1 <= |s| && s[i] == c
  {
    if i < |s| && s[i] == c then Some(i + 1) else None
  }

  /** The index just past the run of whitespace starting at `s[i]`. */
  function SkipSpaces(s: string, i: nat): (j: nat)
    requires i <= |s|
    ensures i <= j <= |s|
    ensures forall k :: i <= k < j ==> IsSpace(s[k])
    ensures j == |s| || !IsSpace(s[j])
    decreases |s| - i
  {
    if i < |s| && IsSpace(s[i]) then SkipSpaces(s, i + 1) else i
  }

  /** `\s+`, the format's single space. */
  function Spaces(s: string, i: nat): (r: Option<nat>)
    requires i <= |s|
    ensures r.Some? ==> i < r.value <= |s|
  {
    var j := SkipSpaces(s, i);
    if j > i then Some(j) else None
  }

  /** Parsing under the format `%Y-%m-%d %H:%M:%S`: `None` where Python raises
      `ValueError`. */
  function Parse(s: string): (r: Option<DateTime>)
    ensures r.Some? ==> Valid(r.value)
  {
    var year :- Year(s);
    var i1 :- Literal(s, 4, '-');
    var month :- Field(s, i1, 1, 12);
    var i2 :- Literal(s, month.1, '-');
    var day :- DayField(s, i2);
    var i3 :- Spaces(s, day.1);
    var hour :- Field(s, i3, 0, 23);
    var i4 :- Literal(s, hour.1, ':');
    var minute :- Field(s, i4, 0, 59);
    var i5 :- Literal(s, minute.1, ':');
    var second :- Field(s, i5, 0, 61);
    // "unconverted data remains" when the match stops short of the end
    if second.1 != |s| then None
    else
      var t := DateTime(year, month.0, day.0, hour.0, minute.0, second.0);
      if Valid(t) then Some(t) else None
  }

  // ---------------------------------------------------------------------------
  // Rendering

  function Digits2(n: int): (s: string)
    requires 0 <= n <= 99
    ensures |s| == 2 && IsDigit(s[0]) && IsDigit(s[1])
    ensures 10 * DigitValue(s[0]) + DigitValue(s[1]) == n
  {
    [DigitChar(n / 10), DigitChar(n % 10)]
  }

  function Digits4(n: int): (s: string)
    requires 0 <= n <= 9999
    ensures |s| == 4 && IsDigit(s[0]) && IsDigit(s[1]) && IsDigit(s[2]) && IsDigit(s[3])
    ensures 1000 * DigitValue(s[0]) + 100 * DigitValue(s[1]) + 10 * DigitValue(s[2]) + DigitValue(s[3]) == n
  {
    Digits2(n / 100) + Digits2(n % 100)
  }

  /** How a spelling writes each field: month, hour, minute and second padded
      or `short` (one digit), the day in one of the three forms `%d` accepts,
      and the run `ws` the format's space matches. */
  datatype Spelling = Spelling(shortMonth: bool, day: DayForm, ws: string,
                               shortHour: bool, shortMinute: bool, shortSecond: bool)

  /** The spellings of `%d`: two digits, one digit, or a space and one digit. */
  datatype DayForm = PaddedDay | BareDay | SpacedDay

  function Width(short: bool): nat { if short then 1 else 2 }

  function DayWidth(form: DayForm): nat { if form == BareDay then 1 else 2 }

  /** `sp` can spell `t`: the fields fit their patterns, only one-digit values
      are written short, and `ws` is a non-empty run of whitespace. */
  predicate Admits(t: DateTime, sp: Spelling) {
    && InPatternRanges(t)
    && (sp.shortMonth ==> t.month <= 9) && (sp.day != PaddedDay ==> t.day <= 9)
    && (sp.shortHour ==> t.hour <= 9) && (sp.shortMinute ==> t.minute <= 9) && (sp.shortSecond ==> t.second <= 9)
    && sp.ws != [] && forall k :: 0 <= k < |sp.ws| ==> IsSpace(sp.ws[k])
  }

  /** A field written zero-padded to two digits, or as its single digit when
      `short`. */
  function Written(n: int, short: bool): (s: string)
    requires 0 <= n <= 99 && (short ==> n <= 9)
    ensures |s| == Width(short) && IsDigit(s[0])
  {
    if short then [DigitChar(n)] else Digits2(n)
  }

  function WrittenDay(d: int, form: DayForm): (s: string)
    requires 1 <= d <= 31 && (form != PaddedDay ==> d <= 9)
    ensures |s| == DayWidth(form) && IsDigit(s[|s| - 1])
  {
    match form
    case PaddedDay => Digits2(d)
    case BareDay => [DigitChar(d)]
    case SpacedDay => [' ', DigitChar(d)]
  }

  /** The date part of a spelling: `YYYY-M-D`. */
  function SpelledDate(t: DateTime, sp: Spelling): (s: string)
    requires Admits(t, sp)
    ensures |s| == 6 + Width(sp.shortMonth) + DayWidth(sp.day)
  {
    Digits4(t.year) + "-" + Written(t.month, sp.shortMonth) + "-" + WrittenDay(t.day, sp.day)
  }

  /** The time part of a spelling: `H:M:S`. */
  function SpelledTime(t: DateTime, sp: Spelling): (s: string)
    requires Admits(t, sp)
    ensures |s| == 2 + Width(sp.shortHour) + Width(sp.shortMinute) + Width(sp.shortSecond)
    ensures IsDigit(s[0])
  {
    Written(t.hour, sp.shortHour) + ":" + Written(t.minute, sp.shortMinute) + ":" + Written(t.second, sp.shortSecond)
  }

  /** The text `sp` spells for `t`. */
  function Spelled(t: DateTime, sp: Spelling): string
    requires Admits(t, sp)
  {
    SpelledDate(t, sp) + sp.ws + SpelledTime(t, sp)
  }

  /** The zero-padded `YYYY-MM-DD HH:MM:SS` text of `t`; for a valid `t`, its
      canonical text under the format. */
  function Render(t: DateTime): (s: string)
    requires InPatternRanges(t)
  {
    Digits4(t.year) + "-" + Digits2(t.month) + "-" + Digits2(t.day) + " "
      + Digits2(t.hour) + ":" + Digits2(t.minute) + ":" + Digits2(t.second)
  }

  /** `t.isoformat(timespec='minutes')`: `YYYY-MM-DDTHH:MM`. */
  function IsoMinutes(t: DateTime): (s: string)
    requires Valid(t)
  {
    Digits4(t.year) + "-" + Digits2(t.month) + "-" + Digits2(t.day) + "T"
      + Digits2(t.hour) + ":" + Digits2(t.minute)
  }

  // ---------------------------------------------------------------------------
  // Ordering

  /** `a < b` on naive datetimes: the field tuples compared lexicographically. */
  predicate Before(a: DateTime, b: DateTime) {
    || a.year < b.year
    || (a.year == b.year && a.month < b.month)
    || (a.year == b.year && a.month == b.month && a.day < b.day)
    || (a.year == b.year && a.month == b.month && a.day == b.day && a.hour < b.hour)
    || (a.year == b.year && a.month == b.month && a.day == b.day && a.hour == b.hour && a.minute < b.minute)
    || (a.year == b.year && a.month == b.month && a.day == b.day && a.hour == b.hour && a.minute == b.minute
        && a.second < b.second)
  }

  function DaysInYear(y: int): int {
    if IsLeapYear(y) then 366 else 365
  }

  /** Days from 0001-01-01 to the first day of year `y`. */
  function DaysBeforeYear(y: int): nat
    requires y >= 1
    decreases y
  {
    if y == 1 then 0 else DaysBeforeYear(y - 1) + DaysInYear(y - 1)
  }

  /** Days from the first day of year `y` to the first day of month `m`. */
  function DaysBeforeMonth(y: int, m: int): nat
    requires 1 <= m <= 13
    decreases m
  {
    if m == 1 then 0 else DaysBeforeMonth(y, m - 1) + DaysInMonth(y, m - 1)
  }

  /** Seconds elapsed from 0001-01-01 00:00:00 to `t`: an independent
      reference for what "earlier" means. */
  function ElapsedSeconds(t: DateTime): int
    requires Valid(t)
  {
    var days := DaysBeforeYear(t.year) + DaysBeforeMonth(t.year, t.month) + t.day - 1;
    ((days * 24 + t.hour) * 60 + t.minute) * 60 + t.second
  }

  // ---------------------------------------------------------------------------
  // Lemmas

  /** Two zero-padded digits followed by a non-digit are read back as their value. */
  lemma FieldOfDigits2(s: string, i: nat, lo: int, hi: int, n: int)
    requires 0 <= n <= 99 && lo <= n <= hi
    requires i + 2 <= |s| && s[i] == Digits2(n)[0] && s[i + 1] == Digits2(n)[1]
    requires i + 2 == |s| || !IsDigit(s[i + 2])
    ensures Field(s, i, lo, hi) == Some((n, i + 2))
  {
  }

  /** `Parse` on text laid out as `YYYY-MM-DD HH:MM:SS` up to the minutes,
      given what each of its steps reads there: the seconds then decide, the
      text must end right after them, and the constructor must accept `t`. */
  lemma ParseOfLayout(s: string, t: DateTime)
    requires InPatternRanges(t) && |s| >= 19
    requires Year(s) == Some(t.year) && s[4] == '-' && s[7] == '-' && s[13] == ':' && s[16] == ':'
    requires Field(s, 5, 1, 12) == Some((t.month, 7))
    requires DayField(s, 8) == Some((t.day, 10))
    requires Spaces(s, 10) == Some(11)
    requires Field(s, 11, 0, 23) == Some((t.hour, 13))
    requires Field(s, 14, 0, 59) == Some((t.minute, 16))
    requires Field(s, 17, 0, 61).None? || Field(s, 17, 0, 61) == Some((t.second, 19))
    ensures Parse(s) == if Field(s, 17, 0, 61).Some? && |s| == 19 && Valid(t) then Some(t) else None
  {
  }

  /** The digits of `t` at their zero-padded positions, up to the minutes, are
      read back by the steps of `Parse` whatever text follows. */
  lemma LayoutOfRender(t: DateTime, rest: string)
    requires InPatternRanges(t)
    ensures var s := Render(t) + rest;
      && Year(s) == Some(t.year) && s[4] == '-' && s[7] == '-' && s[13] == ':' && s[16] == ':'
      && Field(s, 5, 1, 12) == Some((t.month, 7))
      && DayField(s, 8) == Some((t.day, 10))
      && Spaces(s, 10) == Some(11)
      && Field(s, 11, 0, 23) == Some((t.hour, 13))
      && Field(s, 14, 0, 59) == Some((t.minute, 16))
  {
    var s := Render(t) + rest;
    var y, mo, d, h, mi, se := Digits4(t.year), Digits2(t.month), Digits2(t.day),
                               Digits2(t.hour), Digits2(t.minute), Digits2(t.second);
    assert s == [y[0], y[1], y[2], y[3], '-', mo[0], mo[1], '-', d[0], d[1], ' ',
                 h[0], h[1], ':', mi[0], mi[1], ':', se[0], se[1]] + rest;
    FieldOfDigits2(s, 5, 1, 12, t.month);
    FieldOfDigits2(s, 8, 1, 31, t.day);
    assert SkipSpaces(s, 11) == 11;
    FieldOfDigits2(s, 11, 0, 23, t.hour);
    FieldOfDigits2(s, 14, 0, 59, t.minute);
  }

  /** Zero-padded text whose fields fit the directive patterns parses exactly
      when the `datetime` constructor accepts the fields, and then to them:
      year 0, a day past the end of its month and seconds 60 and 61 are
      refused, everything else is read back. */
  lemma ParsePadded(t: DateTime)
    requires InPatternRanges(t)
    ensures Parse(Render(t)) == if Valid(t) then Some(t) else None
  {
    var s := Render(t);
    LayoutOfRender(t, []);
    assert s + [] == s;
    FieldOfDigits2(s, 17, 0, 61, t.second);
    ParseOfLayout(s, t);
  }

  /** Parsing the canonical text of a valid datetime gives it back. */
  lemma ParseRender(t: DateTime)
    requires Valid(t)
    ensures Parse(Render(t)) == Some(t)
  {
    ParsePadded(t);
  }

  /** February 29th is refused outside leap years. */
  lemma LeapDayOnlyInLeapYears(y: int, hour: int, minute: int, second: int)
    requires 1 <= y <= 9999 && 0 <= hour <= 23 && 0 <= minute <= 59 && 0 <= second <= 59
    ensures Parse(Render(DateTime(y, 2, 29, hour, minute, second))).Some? <==> IsLeapYear(y)
  {
    ParsePadded(DateTime(y, 2, 29, hour, minute, second));
  }

  /** A match that stops short of the end is refused ("unconverted data
      remains"), whatever character follows the zero-padded text. */
  lemma TrailingDataRejected(t: DateTime, c: char)
    requires InPatternRanges(t)
    ensures Parse(Render(t) + [c]) == None
  {
    var s := Render(t) + [c];
    LayoutOfRender(t, [c]);
    if !IsDigit(c) {
      FieldOfDigits2(s, 17, 0, 61, t.second);
    }
    ParseOfLayout(s, t);
  }

  /** A field written at `s[i]` and followed by a non-digit is read back by
      `Field`. */
  lemma FieldAt(s: string, i: nat, n: int, short: bool, lo: int, hi: int)
    requires 0 <= n <= 99 && (short ==> n <= 9) && lo <= n <= hi
    requires i + Width(short) <= |s| && s[i] == Written(n, short)[0]
    requires !short ==> s[i + 1] == Written(n, short)[1]
    requires i + Width(short) == |s| || !IsDigit(s[i + Width(short)])
    ensures Field(s, i, lo, hi) == Some((n, i + Width(short)))
  {
    if !short {
      FieldOfDigits2(s, i, lo, hi, n);
    }
  }

  /** A day written at `s[i]` in any form and followed by a non-digit is read
      back by `DayField`. */
  lemma DayAt(s: string, i: nat, d: int, form: DayForm)
    requires 1 <= d <= 31 && (form != PaddedDay ==> d <= 9)
    requires i + DayWidth(form) <= |s| && s[i] == WrittenDay(d, form)[0]
    requires form != BareDay ==> s[i + 1] == WrittenDay(d, form)[1]
    requires i + DayWidth(form) == |s| || !IsDigit(s[i + DayWidth(form)])
    ensures DayField(s, i) == Some((d, i + DayWidth(form)))
  {
    if form == PaddedDay {
      FieldOfDigits2(s, i, 1, 31, d);
    }
  }

  /** The steps of `Parse` up to the day read back the date part of a
      spelling, whatever non-digit follows it. */
  lemma DateSteps(s: string, t: DateTime, sp: Spelling, post: string)
    requires Admits(t, sp) && s == SpelledDate(t, sp) + post
    requires post == [] || !IsDigit(post[0])
    ensures var a := 5 + Width(sp.shortMonth);
      && Year(s) == Some(t.year) && Literal(s, 4, '-') == Some(5)
      && Field(s, 5, 1, 12) == Some((t.month, a)) && Literal(s, a, '-') == Some(a + 1)
      && DayField(s, a + 1) == Some((t.day, a + 1 + DayWidth(sp.day)))
  {
    var y, mo, d := Digits4(t.year), Written(t.month, sp.shortMonth), WrittenDay(t.day, sp.day);
    var a := 5 + |mo|;
    assert s[0] == y[0] && s[1] == y[1] && s[2] == y[2] && s[3] == y[3] && s[4] == '-';
    assert s[5] == mo[0] && (!sp.shortMonth ==> s[6] == mo[1]) && s[a] == '-';
    FieldAt(s, 5, t.month, sp.shortMonth, 1, 12);
    assert s[a + 1] == d[0] && (sp.day != BareDay ==> s[a + 2] == d[1]);
    assert a + 1 + |d| == |s| || s[a + 1 + |d|] == post[0];
    DayAt(s, a + 1, t.day, sp.day);
  }

  /** The steps of `Parse` from the hour on read back the time part of a
      spelling, whatever precedes it, up to the end of the text. */
  lemma TimeSteps(s: string, i: nat, t: DateTime, sp: Spelling, pre: string)
    requires Admits(t, sp) && s == pre + SpelledTime(t, sp) && i == |pre|
    ensures var a := i + Width(sp.shortHour);
      var b := a + 1 + Width(sp.shortMinute);
      && Field(s, i, 0, 23) == Some((t.hour, a)) && Literal(s, a, ':') == Some(a + 1)
      && Field(s, a + 1, 0, 59) == Some((t.minute, b)) && Literal(s, b, ':') == Some(b + 1)
      && Field(s, b + 1, 0, 61) == Some((t.second, |s|))
  {
    HourStep(s, i, t, sp, pre);
    MinuteStep(s, i, t, sp, pre);
    SecondStep(s, i, t, sp, pre);
  }

  lemma HourStep(s: string, i: nat, t: DateTime, sp: Spelling, pre: string)
    requires Admits(t, sp) && s == pre + SpelledTime(t, sp) && i == |pre|
    ensures var a := i + Width(sp.shortHour);
      Field(s, i, 0, 23) == Some((t.hour, a)) && Literal(s, a, ':') == Some(a + 1)
  {
    var h := Written(t.hour, sp.shortHour);
    assert s[i] == h[0] && (!sp.shortHour ==> s[i + 1] == h[1]) && s[i + |h|] == ':';
    FieldAt(s, i, t.hour, sp.shortHour, 0, 23);
  }

  lemma MinuteStep(s: string, i: nat, t: DateTime, sp: Spelling, pre: string)
    requires Admits(t, sp) && s == pre + SpelledTime(t, sp) && i == |pre|
    ensures var a := i + Width(sp.shortHour) + 1;
      var b := a + Width(sp.shortMinute);
      Field(s, a, 0, 59) == Some((t.minute, b)) && Literal(s, b, ':') == Some(b + 1)
  {
    var mi := Written(t.minute, sp.shortMinute);
    var a := i + Width(sp.shortHour) + 1;
    assert s[a] == mi[0] && (!sp.shortMinute ==> s[a + 1] == mi[1]) && s[a + |mi|] == ':';
    FieldAt(s, a, t.minute, sp.shortMinute, 0, 59);
  }

  lemma SecondStep(s: string, i: nat, t: DateTime, sp: Spelling, pre: string)
    requires Admits(t, sp) && s == pre + SpelledTime(t, sp) && i == |pre|
    ensures var b := i + Width(sp.shortHour) + 1 + Width(sp.shortMinute) + 1;
      Field(s, b, 0, 61) == Some((t.second, |s|))
  {
    var se := Written(t.second, sp.shortSecond);
    var b := i + Width(sp.shortHour) + 1 + Width(sp.shortMinute) + 1;
    assert s[b] == se[0] && (!sp.shortSecond ==> s[b + 1] == se[1]) && |s| == b + |se|;
    FieldAt(s, b, t.second, sp.shortSecond, 0, 61);
  }

  /** A spelling read as its date followed by the rest, or as everything up
      to its time followed by the time. */
  lemma SpelledSplits(t: DateTime, sp: Spelling)
    requires Admits(t, sp)
    ensures var date, time := SpelledDate(t, sp), SpelledTime(t, sp);
      && Spelled(t, sp) == date + (sp.ws + time) && Spelled(t, sp) == (date + sp.ws) + time
      && |date + sp.ws| == 6 + Width(sp.shortMonth) + DayWidth(sp.day) + |sp.ws|
      && (sp.ws + time == [] || !IsDigit((sp.ws + time)[0]))
  {
    var date, time := SpelledDate(t, sp), SpelledTime(t, sp);
    assert date + sp.ws + time == date + (sp.ws + time);
    assert (sp.ws + time)[0] == sp.ws[0];
  }

  /** A whitespace run followed by a non-space is matched by `\s+` up to its
      end. */
  lemma SpacesBetween(s: string, pre: string, ws: string, post: string)
    requires s == pre + ws + post && ws != [] && forall k :: 0 <= k < |ws| ==> IsSpace(ws[k])
    requires post != [] && !IsSpace(post[0])
    ensures Spaces(s, |pre|) == Some(|pre| + |ws|)
  {
    var b := |pre|;
    forall k | b <= k < b + |ws| ensures IsSpace(s[k]) {
      assert s[k] == ws[k - b];
    }
    assert s[b + |ws|] == post[0];
  }

  /** Once each step of `Parse` has matched its part of `t`, one after the
      other, up to the end of `s`, the constructor check alone decides. */
  lemma ParseOfSteps(s: string, t: DateTime, a: nat, b: nat, c: nat, e: nat, f: nat)
    requires Year(s) == Some(t.year) && Literal(s, 4, '-') == Some(5)
    requires Field(s, 5, 1, 12) == Some((t.month, a)) && Literal(s, a, '-') == Some(a + 1)
    requires DayField(s, a + 1) == Some((t.day, b)) && b <= |s| && Spaces(s, b) == Some(c)
    requires Field(s, c, 0, 23) == Some((t.hour, e)) && Literal(s, e, ':') == Some(e + 1)
    requires Field(s, e + 1, 0, 59) == Some((t.minute, f)) && Literal(s, f, ':') == Some(f + 1)
    requires Field(s, f + 1, 0, 61) == Some((t.second, |s|))
    ensures Parse(s) == if Valid(t) then Some(t) else None
  {
  }

  /** Every spelling the format admits parses to the datetime it spells:
      short and padded fields may be mixed freely, the day may take any of
      its three forms, and any whitespace run may separate date and time. */
  lemma ParseSpelled(t: DateTime, sp: Spelling)
    requires Valid(t) && Admits(t, sp)
    ensures Parse(Spelled(t, sp)) == Some(t)
  {
    var a := 5 + Width(sp.shortMonth);
    var b := a + 1 + DayWidth(sp.day);
    var c := b + |sp.ws|;
    var e := c + Width(sp.shortHour);
    SpelledSteps(Spelled(t, sp), t, sp, a, b, c, e, e + 1 + Width(sp.shortMinute));
    ParseOfSteps(Spelled(t, sp), t, a, b, c, e, e + 1 + Width(sp.shortMinute));
  }

  /** Each step of `Parse` matches its part of a spelling. */
  lemma SpelledSteps(s: string, t: DateTime, sp: Spelling, a: nat, b: nat, c: nat, e: nat, f: nat)
    requires Admits(t, sp) && s == Spelled(t, sp)
    requires a == 5 + Width(sp.shortMonth) && b == a + 1 + DayWidth(sp.day) && c == b + |sp.ws|
    requires e == c + Width(sp.shortHour) && f == e + 1 + Width(sp.shortMinute)
    ensures Year(s) == Some(t.year) && Literal(s, 4, '-') == Some(5)
    ensures Field(s, 5, 1, 12) == Some((t.month, a)) && Literal(s, a, '-') == Some(a + 1)
    ensures DayField(s, a + 1) == Some((t.day, b)) && b <= |s| && Spaces(s, b) == Some(c)
    ensures Field(s, c, 0, 23) == Some((t.hour, e)) && Literal(s, e, ':') == Some(e + 1)
    ensures Field(s, e + 1, 0, 59) == Some((t.minute, f)) && Literal(s, f, ':') == Some(f + 1)
    ensures Field(s, f + 1, 0, 61) == Some((t.second, |s|))
  {
    SpelledDateSteps(s, t, sp, a, b, c);
    SpelledTimeSteps(s, t, sp, c, e, f);
  }

  /** The date steps of `Parse`, and the whitespace run, match their parts
      of a spelling. */
  lemma SpelledDateSteps(s: string, t: DateTime, sp: Spelling, a: nat, b: nat, c: nat)
    requires Admits(t, sp) && s == Spelled(t, sp)
    requires a == 5 + Width(sp.shortMonth) && b == a + 1 + DayWidth(sp.day) && c == b + |sp.ws|
    ensures Year(s) == Some(t.year) && Literal(s, 4, '-') == Some(5)
    ensures Field(s, 5, 1, 12) == Some((t.month, a)) && Literal(s, a, '-') == Some(a + 1)
    ensures DayField(s, a + 1) == Some((t.day, b)) && b <= |s| && Spaces(s, b) == Some(c)
  {
    SpelledSplits(t, sp);
    DateSteps(s, t, sp, sp.ws + SpelledTime(t, sp));
    SpacesBetween(s, SpelledDate(t, sp), sp.ws, SpelledTime(t, sp));
  }

  /** The time steps of `Parse` match the time part of a spelling. */
  lemma SpelledTimeSteps(s: string, t: DateTime, sp: Spelling, c: nat, e: nat, f: nat)
    requires Admits(t, sp) && s == Spelled(t, sp)
    requires c == 6 + Width(sp.shortMonth) + DayWidth(sp.day) + |sp.ws|
    requires e == c + Width(sp.shortHour) && f == e + 1 + Width(sp.shortMinute)
    ensures Field(s, c, 0, 23) == Some((t.hour, e)) && Literal(s, e, ':') == Some(e + 1)
    ensures Field(s, e + 1, 0, 59) == Some((t.minute, f)) && Literal(s, f, ':') == Some(f + 1)
    ensures Field(s, f + 1, 0, 61) == Some((t.second, |s|))
  {
    SpelledSplits(t, sp);
    TimeSteps(s, c, t, sp, SpelledDate(t, sp) + sp.ws);
  }

  /** The all-short spelling: single-digit month, hour, minute and second, the
      day as a space and one digit, and any run of whitespace between date and
      time. */
  lemma ParseLenient(t: DateTime, ws: string)
    requires Valid(t) && t.month <= 9 && t.day <= 9 && t.hour <= 9 && t.minute <= 9 && t.second <= 9
    requires ws != [] && forall k :: 0 <= k < |ws| ==> IsSpace(ws[k])
    ensures var date := Digits4(t.year) + "-" + [DigitChar(t.month)] + "- " + [DigitChar(t.day)];
      var time := [DigitChar(t.hour)] + ":" + [DigitChar(t.minute)] + ":" + [DigitChar(t.second)];
      Parse(date + ws + time) == Some(t)
  {
    var sp := Spelling(true, SpacedDay, ws, true, true, true);
    ParseSpelled(t, sp);
    assert Digits4(t.year) + "-" + [DigitChar(t.month)] + "- " + [DigitChar(t.day)] == SpelledDate(t, sp);
    assert [DigitChar(t.hour)] + ":" + [DigitChar(t.minute)] + ":" + [DigitChar(t.second)] == SpelledTime(t, sp);
  }

  /** The form of the day `DayField` matched from `s[i]` up to `j`. */
  function DayFormAt(s: string, i: nat, j: nat): DayForm
    requires i < |s|
  {
    if s[i] == ' ' then SpacedDay else if j == i + 2 then PaddedDay else BareDay
  }

  /** The four digits `Year` reads are the padded spelling of the year. */
  lemma YearWritten(s: string, y: int)
    requires Year(s) == Some(y)
    ensures s[..4] == Digits4(y)
  {
    var hi, lo := 10 * DigitValue(s[0]) + DigitValue(s[1]), 10 * DigitValue(s[2]) + DigitValue(s[3]);
    HundredsOf(hi, lo);
    assert Digits2(hi) == [s[0], s[1]] && Digits2(lo) == [s[2], s[3]];
  }

  lemma HundredsOf(hi: int, lo: int)
    requires 0 <= lo < 100
    ensures (100 * hi + lo) / 100 == hi && (100 * hi + lo) % 100 == lo
  {
  }

  /** The digits a `Field` match covers are the field written padded, or short
      when it took one digit. */
  lemma FieldWritten(s: string, i: nat, lo: int, hi: int, v: int, j: nat)
    requires 0 <= lo && hi <= 99 && Field(s, i, lo, hi) == Some((v, j))
    ensures j == i + 1 ==> v <= 9
    ensures s[i..j] == Written(v, j == i + 1)
  {
    if j == i + 2 {
      assert v / 10 == DigitValue(s[i]) && v % 10 == DigitValue(s[i + 1]);
    }
  }

  /** The text a `DayField` match covers is the day written in the form the
      match took. */
  lemma DayWritten(s: string, i: nat, v: int, j: nat)
    requires DayField(s, i) == Some((v, j))
    ensures DayFormAt(s, i, j) != PaddedDay ==> v <= 9
    ensures s[i..j] == WrittenDay(v, DayFormAt(s, i, j))
  {
    if s[i] != ' ' {
      FieldWritten(s, i, 1, 31, v, j);
    }
  }

  /** What the steps of a successful `Parse` read, and where each stopped. */
  lemma StepsOfParse(s: string) returns (t: DateTime, a: nat, b: nat, c: nat, e: nat, f: nat)
    requires Parse(s).Some?
    ensures && Year(s) == Some(t.year) && Literal(s, 4, '-') == Some(5)
      && Field(s, 5, 1, 12) == Some((t.month, a)) && Literal(s, a, '-') == Some(a + 1)
      && DayField(s, a + 1) == Some((t.day, b)) && b <= |s| && Spaces(s, b) == Some(c)
      && Field(s, c, 0, 23) == Some((t.hour, e)) && Literal(s, e, ':') == Some(e + 1)
      && Field(s, e + 1, 0, 59) == Some((t.minute, f)) && Literal(s, f, ':') == Some(f + 1)
      && Field(s, f + 1, 0, 61) == Some((t.second, |s|))
  {
    var year, month, day;
    year, month, day, a, b, c := DateStepsOfParse(s);
    var hour, minute, second;
    hour, minute, second, e, f := TimeStepsOfParse(s, year, month, day, a, b, c);
    t := DateTime(year, month, day, hour, minute, second);
  }

  /** The date steps of a successful `Parse` all match. */
  lemma DateStepsOfParse(s: string) returns (year: int, month: int, day: int, a: nat, b: nat, c: nat)
    requires Parse(s).Some?
    ensures && Year(s) == Some(year) && Literal(s, 4, '-') == Some(5)
      && Field(s, 5, 1, 12) == Some((month, a)) && Literal(s, a, '-') == Some(a + 1)
      && DayField(s, a + 1) == Some((day, b)) && b <= |s| && Spaces(s, b) == Some(c)
  {
    year := Year(s).value;
    assert Literal(s, 4, '-') == Some(5) && Field(s, 5, 1, 12).Some?;
    month, a := Field(s, 5, 1, 12).value.0, Field(s, 5, 1, 12).value.1;
    assert Literal(s, a, '-') == Some(a + 1) && DayField(s, a + 1).Some?;
    day, b := DayField(s, a + 1).value.0, DayField(s, a + 1).value.1;
    c := Spaces(s, b).value;
  }

  /** The time steps of a successful `Parse` all match, up to the end. */
  lemma TimeStepsOfParse(s: string, year: int, month: int, day: int, a: nat, b: nat, c: nat)
    returns (hour: int, minute: int, second: int, e: nat, f: nat)
    requires Parse(s).Some?
    requires Year(s) == Some(year) && Literal(s, 4, '-') == Some(5)
    requires Field(s, 5, 1, 12) == Some((month, a)) && Literal(s, a, '-') == Some(a + 1)
    requires DayField(s, a + 1) == Some((day, b)) && b <= |s| && Spaces(s, b) == Some(c)
    ensures && Field(s, c, 0, 23) == Some((hour, e)) && Literal(s, e, ':') == Some(e + 1)
      && Field(s, e + 1, 0, 59) == Some((minute, f)) && Literal(s, f, ':') == Some(f + 1)
      && Field(s, f + 1, 0, 61) == Some((second, |s|))
  {
    hour, e := HourOfParse(s, year, month, day, a, b, c);
    minute, f := MinuteOfParse(s, year, month, day, a, b, c, hour, e);
    second := SecondOfParse(s, year, month, day, a, b, c, hour, e, minute, f);
  }

  lemma HourOfParse(s: string, year: int, month: int, day: int, a: nat, b: nat, c: nat) returns (hour: int, e: nat)
    requires Parse(s).Some?
    requires Year(s) == Some(year) && Literal(s, 4, '-') == Some(5)
    requires Field(s, 5, 1, 12) == Some((month, a)) && Literal(s, a, '-') == Some(a + 1)
    requires DayField(s, a + 1) == Some((day, b)) && b <= |s| && Spaces(s, b) == Some(c)
    ensures Field(s, c, 0, 23) == Some((hour, e)) && Literal(s, e, ':') == Some(e + 1)
  {
    hour, e := Field(s, c, 0, 23).value.0, Field(s, c, 0, 23).value.1;
  }

  lemma MinuteOfParse(s: string, year: int, month: int, day: int, a: nat, b: nat, c: nat, hour: int, e: nat)
    returns (minute: int, f: nat)
    requires Parse(s).Some?
    requires Year(s) == Some(year) && Literal(s, 4, '-') == Some(5)
    requires Field(s, 5, 1, 12) == Some((month, a)) && Literal(s, a, '-') == Some(a + 1)
    requires DayField(s, a + 1) == Some((day, b)) && b <= |s| && Spaces(s, b) == Some(c)
    requires Field(s, c, 0, 23) == Some((hour, e)) && Literal(s, e, ':') == Some(e + 1)
    ensures Field(s, e + 1, 0, 59) == Some((minute, f)) && Literal(s, f, ':') == Some(f + 1)
  {
    minute, f := Field(s, e + 1, 0, 59).value.0, Field(s, e + 1, 0, 59).value.1;
  }

  lemma SecondOfParse(s: string, year: int, month: int, day: int, a: nat, b: nat, c: nat,
                      hour: int, e: nat, minute: int, f: nat) returns (second: int)
    requires Parse(s).Some?
    requires Year(s) == Some(year) && Literal(s, 4, '-') == Some(5)
    requires Field(s, 5, 1, 12) == Some((month, a)) && Literal(s, a, '-') == Some(a + 1)
    requires DayField(s, a + 1) == Some((day, b)) && b <= |s| && Spaces(s, b) == Some(c)
    requires Field(s, c, 0, 23) == Some((hour, e)) && Literal(s, e, ':') == Some(e + 1)
    requires Field(s, e + 1, 0, 59) == Some((minute, f)) && Literal(s, f, ':') == Some(f + 1)
    ensures Field(s, f + 1, 0, 61) == Some((second, |s|))
  {
    second := Field(s, f + 1, 0, 61).value.0;
  }

  /** The spelling the steps of a successful `Parse` took. */
  function SpellingOfSteps(s: string, a: nat, b: nat, c: nat, e: nat, f: nat): Spelling
    requires a + 1 < |s| && b <= c <= |s|
  {
    Spelling(a == 6, DayFormAt(s, a + 1, b), s[b..c], e == c + 1, f == e + 2, |s| == f + 2)
  }

  /** Text that `Parse` accepts is one of the spellings `Admits` allows for its
      result, and that spelling is the text: together with `ParseSpelled`,
      `Parse` accepts exactly the spellings of valid datetimes. */
  lemma ParseIsSpelled(s: string)
    requires Parse(s).Some?
    ensures exists sp :: Admits(Parse(s).value, sp) && s == Spelled(Parse(s).value, sp)
  {
    var t, a, b, c, e, f := StepsOfParse(s);
    ParseOfSteps(s, t, a, b, c, e, f);
    var sp := SpellingOfSteps(s, a, b, c, e, f);
    AdmitsOfSteps(s, t, sp, a, b, c, e, f);
    DateOfSteps(s, t, sp, a, b);
    TimeOfSteps(s, t, sp, c, e, f);
    SplitAt(s, b, c);
  }

  lemma SplitAt(s: string, b: nat, c: nat)
    requires b <= c <= |s|
    ensures s == s[..b] + s[b..c] + s[c..]
  {
  }

  /** The spelling the steps took admits the parsed datetime. */
  lemma AdmitsOfSteps(s: string, t: DateTime, sp: Spelling, a: nat, b: nat, c: nat, e: nat, f: nat)
    requires Valid(t) && Field(s, 5, 1, 12) == Some((t.month, a))
    requires DayField(s, a + 1) == Some((t.day, b)) && b <= |s| && Spaces(s, b) == Some(c)
    requires Field(s, c, 0, 23) == Some((t.hour, e)) && Field(s, e + 1, 0, 59) == Some((t.minute, f))
    requires Field(s, f + 1, 0, 61) == Some((t.second, |s|))
    requires sp == SpellingOfSteps(s, a, b, c, e, f)
    ensures Admits(t, sp)
  {
    FieldShort(s, 5, 1, 12);
    DayShort(s, a + 1);
    FieldShort(s, c, 0, 23);
    FieldShort(s, e + 1, 0, 59);
    FieldShort(s, f + 1, 0, 61);
    SpacesRun(s, b, c);
  }

  /** A field matched as one digit is at most 9. */
  lemma FieldShort(s: string, i: nat, lo: int, hi: int)
    requires Field(s, i, lo, hi).Some?
    ensures Field(s, i, lo, hi).value.1 == i + 1 ==> Field(s, i, lo, hi).value.0 <= 9
  {
  }

  /** A day matched as one digit, bare or after a space, is at most 9. */
  lemma DayShort(s: string, i: nat)
    requires DayField(s, i).Some?
    ensures s[i] == ' ' || DayField(s, i).value.1 == i + 1 ==> DayField(s, i).value.0 <= 9
  {
  }

  /** What `\s+` matched is a non-empty run of whitespace. */
  lemma SpacesRun(s: string, b: nat, c: nat)
    requires b <= |s| && Spaces(s, b) == Some(c)
    ensures s[b..c] != [] && forall k :: 0 <= k < c - b ==> IsSpace(s[b..c][k])
  {
    forall k | 0 <= k < c - b ensures IsSpace(s[b..c][k]) {
      assert s[b..c][k] == s[b + k];
    }
  }

  /** The date steps of a successful `Parse` covered the date part of the
      spelling they took. */
  lemma DateOfSteps(s: string, t: DateTime, sp: Spelling, a: nat, b: nat)
    requires Admits(t, sp) && Year(s) == Some(t.year) && Literal(s, 4, '-') == Some(5)
    requires Field(s, 5, 1, 12) == Some((t.month, a)) && Literal(s, a, '-') == Some(a + 1)
    requires DayField(s, a + 1) == Some((t.day, b))
    requires sp.shortMonth == (a == 6) && sp.day == DayFormAt(s, a + 1, b)
    ensures s[..b] == SpelledDate(t, sp)
  {
    YearWritten(s, t.year);
    FieldWritten(s, 5, 1, 12, t.month, a);
    DayWritten(s, a + 1, t.day, b);
    assert s[..b] == s[..4] + [s[4]] + s[5..a] + [s[a]] + s[a + 1..b];
  }

  /** The time steps of a successful `Parse` covered the time part of the
      spelling they took, up to the end of the text. */
  lemma TimeOfSteps(s: string, t: DateTime, sp: Spelling, c: nat, e: nat, f: nat)
    requires Admits(t, sp)
    requires Field(s, c, 0, 23) == Some((t.hour, e)) && Literal(s, e, ':') == Some(e + 1)
    requires Field(s, e + 1, 0, 59) == Some((t.minute, f)) && Literal(s, f, ':') == Some(f + 1)
    requires Field(s, f + 1, 0, 61) == Some((t.second, |s|))
    requires sp.shortHour == (e == c + 1) && sp.shortMinute == (f == e + 2) && sp.shortSecond == (|s| == f + 2)
    ensures s[c..] == SpelledTime(t, sp)
  {
    FieldWritten(s, c, 0, 23, t.hour, e);
    FieldWritten(s, e + 1, 0, 59, t.minute, f);
    FieldWritten(s, f + 1, 0, 61, t.second, |s|);
    assert s[c..] == s[c..e] + [s[e]] + s[e + 1..f] + [s[f]] + s[f + 1..];
  }

  /** The shape of `isoformat(timespec='minutes')`: sixteen characters with the
      date and time separators in place. */
  lemma IsoMinutesShape(t: DateTime)
    requires Valid(t)
    ensures |IsoMinutes(t)| == 16
    ensures IsoMinutes(t)[4] == '-' && IsoMinutes(t)[7] == '-' && IsoMinutes(t)[10] == 'T' && IsoMinutes(t)[13] == ':'
  {
  }

  /** `isoformat(timespec='minutes')` of a datetime is its canonical text with
      the space replaced by `T` and the seconds dropped. */
  lemma IsoMinutesOfRender(t: DateTime)
    requires Valid(t)
    ensures |IsoMinutes(t)| == 16
    ensures IsoMinutes(t) == Render(t)[..10] + "T" + Render(t)[11..16]
  {
    var y, mo, d, h, mi := Digits4(t.year), Digits2(t.month), Digits2(t.day),
                           Digits2(t.hour), Digits2(t.minute);
    assert Render(t)[..10] == y + "-" + mo + "-" + d;
    assert Render(t)[11..16] == h + ":" + mi;
  }

  lemma {:induction false} DaysBeforeMonthGrows(y: int, m1: int, m2: int)
    requires 1 <= m1 < m2 <= 13
    ensures DaysBeforeMonth(y, m1) + DaysInMonth(y, m1) <= DaysBeforeMonth(y, m2)
    decreases m2
  {
    if m1 + 1 < m2 {
      DaysBeforeMonthGrows(y, m1, m2 - 1);
    }
  }

  lemma DaysBeforeMonthInYear(y: int)
    ensures DaysBeforeMonth(y, 13) == DaysInYear(y)
  {
    assert DaysBeforeMonth(y, 3) == 31 + DaysInMonth(y, 2);
    assert DaysBeforeMonth(y, 7) == DaysBeforeMonth(y, 3) + 31 + 30 + 31 + 30;
    assert DaysBeforeMonth(y, 13) == DaysBeforeMonth(y, 7) + 31 + 31 + 30 + 31 + 30 + 31;
  }

  lemma {:induction false} DaysBeforeYearGrows(y1: int, y2: int)
    requires 1 <= y1 < y2
    ensures DaysBeforeYear(y1) + DaysInYear(y1) <= DaysBeforeYear(y2)
    decreases y2
  {
    if y1 + 1 < y2 {
      DaysBeforeYearGrows(y1, y2 - 1);
    }
  }

  /** The day of the year of a valid datetime, counted from 0, stays inside its year. */
  lemma DayOfYearBound(t: DateTime)
    requires Valid(t)
    ensures DaysBeforeMonth(t.year, t.month) + t.day - 1 < DaysInYear(t.year)
  {
    DaysBeforeMonthGrows(t.year, t.month, 13);
    DaysBeforeMonthInYear(t.year);
  }

  /** The field-by-field comparison Python uses agrees with comparing the
      elapsed time. */
  lemma BeforeIsEarlier(a: DateTime, b: DateTime)
    requires Valid(a) && Valid(b)
    ensures Before(a, b) ==> ElapsedSeconds(a) < ElapsedSeconds(b)
  {
    if Before(a, b) {
      var da := DaysBeforeYear(a.year) + DaysBeforeMonth(a.year, a.month) + a.day - 1;
      var db := DaysBeforeYear(b.year) + DaysBeforeMonth(b.year, b.month) + b.day - 1;
      if a.year < b.year {
        DayOfYearBound(a);
        DaysBeforeYearGrows(a.year, b.year);
        assert da < db;
      } else if a.month < b.month {
        DaysBeforeMonthGrows(a.year, a.month, b.month);
        assert da < db;
      }
    }
  }

  /** `Before` is exactly "strictly earlier in elapsed time". */
  lemma BeforeIffEarlier(a: DateTime, b: DateTime)
    requires Valid(a) && Valid(b)
    ensures Before(a, b) <==> ElapsedSeconds(a) < ElapsedSeconds(b)
  {
    BeforeIsEarlier(a, b);
    BeforeIsEarlier(b, a);
  }

  /** `Before` is a strict total order on datetimes. */
  lemma BeforeIsStrictTotalOrder(a: DateTime, b: DateTime, c: DateTime)
    ensures !Before(a, a)
    ensures Before(a, b) ==> !Before(b, a)
    ensures Before(a, b) && Before(b, c) ==> Before(a, c)
    ensures a == b || Before(a, b) || Before(b, a)
  {
  }
}
