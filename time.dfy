/**
 * HTTP dates (time.c, taken from nginx): the parser of the three date forms of
 * section 7.1.1.1 of RFC 7231 into seconds since 1970-01-01 00:00:00 UTC, the
 * split of such seconds into a calendar date and time, and the text layout the
 * server writes.  `time_t` is taken to be 64 bits wide, so the parser's
 * `sizeof(time_t) <= 4` branch never applies.
 */
module HttpTime {
  import opened Base

  /** time.c:10: the days of each month of a common year, January first. */
  const MonthDays: seq<int> := [31, 28, 31, 30, 31, 30, 31, 31, 30, 31, 30, 31]

  /** A Gregorian leap year.  The source tests `year & 3` in the parser and
      `year % 4` in gmtime; both agree with this on the years each applies to. */
  predicate IsLeap(y: int)
  {
    y % 4 == 0 && (y % 100 != 0 || y % 400 == 0)
  }

  /** How many days month `m` (0 for January) of year `y` has. */
  function MonthLength(y: int, m: int): (n: int)
    requires 0 <= m < 12
    ensures 28 <= n <= 31
    ensures n == 29 <==> m == 1 && IsLeap(y)
  {
    if m == 1 && IsLeap(y) then 29 else MonthDays[m]
  }

  /** Days from 1 March of year 0 to 1 March of year `y`, in C's `int`
      division (time.c:242, 276). */
  function YearDays(y: int): int
  {
    365 * y + CDiv(y, 4) - CDiv(y, 100) + CDiv(y, 400)
  }

  /** The day of the March-based year just before month `m` begins, for months
      counted 1 for March up to 12 for February (time.c:243, 279). */
  function MonthStart(m: int): int
  {
    CDiv(367 * m, 12) - 31
  }

  /** A year of days is 365.2425 days on average: 400 years make 146097 days,
      and YearDays stays within a day and a half of that line. */
  lemma YearDaysNearLine(y: int)
    requires y >= 0
    ensures -591 <= 400 * YearDays(y) - 146097 * y <= 288
  {
    var q, r := y / 400, y % 400;
    var c, d := r / 100, r % 100;
    var a, b := d / 4, d % 4;
    assert y == 400 * q + 100 * c + 4 * a + b;
    assert y / 4 == 100 * q + 25 * c + a;
    assert y / 100 == 4 * q + c;
    assert y / 400 == q;
    assert 400 * YearDays(y) - 146097 * y == 12 * a - 100 * c - 97 * b;
  }

  /** The year after `y` starts 365 days later, 366 when its February has 29. */
  lemma YearDaysNext(y: int)
    requires y >= 0
    ensures YearDays(y + 1) - YearDays(y) == if IsLeap(y + 1) then 366 else 365
  {
    assert (y + 1) / 4 - y / 4 == if (y + 1) % 4 == 0 then 1 else 0;
    assert (y + 1) / 100 - y / 100 == if (y + 1) % 100 == 0 then 1 else 0;
    assert (y + 1) / 400 - y / 400 == if (y + 1) % 400 == 0 then 1 else 0;
  }

  /** The broken-down time gmtime fills in (struct tm): a 1-based month, the full
      year and the weekday counted from Sunday. */
  datatype Tm = Tm(sec: int, min: int, hour: int, mday: int, mon: int, year: int, wday: int)

  /** A calendar date: day of the month, month from 1 for January, full year. */
  datatype Date = Date(mday: int, mon: int, year: int)

  /** A day that exists in the Gregorian calendar: a month from 1 to 12 and a
      day within that month of that year. */
  predicate IsDate(d: Date)
  {
    1 <= d.mon <= 12 && 1 <= d.mday <= MonthLength(d.year, d.mon - 1)
  }

  /** The date part of a broken-down time. */
  function DateOf(tm: Tm): Date
  {
    Date(tm.mday, tm.mon, tm.year)
  }

  /** The date of the day `marchDays` days after 1 March of year 0, as gmtime
      finds it (time.c:275-276): it guesses the year from the average year
      length and goes on from the day of that year. */
  function CivilDate(marchDays: int): Date
  {
    var year := CDiv(marchDays * 400, 365 * 400 + 100 - 4 + 1);
    FromYday(year, marchDays - YearDays(year))
  }

  /** The date of day `yday` of the March-based year `year` (time.c:278-312): the
      month is guessed from the average month length, and the days that land on
      31 January or past the end of February are corrected. */
  function FromYday(year: int, yday: int): Date
  {
    var mon := CDiv((yday + 31) * 12, 367);
    var mday := yday - MonthStart(mon);
    if yday < 306 then Date(mday, mon + 2, year)
    else if mday == 0 then Date(31, 1, year + 1)
    else if mon + 2 - 12 != 2 then Date(mday, mon + 2 - 12, year + 1)
    else if IsLeap(year + 1) then
      if mday > 29 then Date(mday - 29, 3, year + 1) else Date(mday, 2, year + 1)
    else if mday > 28 then Date(mday - 28, 3, year + 1)
    else Date(mday, 2, year + 1)
  }

  /** bolt_gmtime (time.c:255-321), in C's truncating `int` division. */
  function Gmtime(t: int): Tm
  {
    var days := CDiv(t, 86400);
    var daySecs := CRem(t, 86400);
    var hourSecs := CRem(daySecs, 3600);
    var date := CivilDate(days - (31 + 28) + 719527);
    Tm(CRem(hourSecs, 60), CDiv(hourSecs, 60), CDiv(daySecs, 3600),
       date.mday, date.mon, date.year, CRem(4 + days, 7))
  }

  /** For a time at or after the epoch, gmtime's division and remainder are the
      mathematical ones: the weekday counts on from Thursday, 1 January 1970,
      and the seconds of the day split into hour, minute and second
      (time.c:260-269). */
  lemma GmtimeSplit(t: int)
    requires t >= 0
    ensures Gmtime(t) == Tm(t % 86400 % 3600 % 60, t % 86400 % 3600 / 60, t % 86400 / 3600,
                            CivilDate(t / 86400 + 719468).mday, CivilDate(t / 86400 + 719468).mon,
                            CivilDate(t / 86400 + 719468).year, (4 + t / 86400) % 7)
  {
  }

  /** For a time at or after the epoch, the seconds of its day split exactly
      into an hour, a minute and a second in range, and the weekday is one of
      the seven. */
  lemma GmtimeClock(t: int)
    requires t >= 0
    ensures var tm := Gmtime(t);
            && 0 <= tm.hour < 24 && 0 <= tm.min < 60 && 0 <= tm.sec < 60
            && t == t / 86400 * 86400 + tm.hour * 3600 + tm.min * 60 + tm.sec
            && tm.wday == (4 + t / 86400) % 7 && 0 <= tm.wday < 7
  {
    GmtimeSplit(t);
  }

  /** The guessed year is the March-based year holding the day or the one
      before it, so the day of that year is at most 366. */
  lemma YdayInRange(marchDays: int)
    requires marchDays >= 0
    ensures var year := marchDays * 400 / 146097;
            year >= 0 && 0 <= marchDays - YearDays(year) <= 366
  {
    var year := marchDays * 400 / 146097;
    YearDaysNearLine(year);
    var yday := marchDays - YearDays(year);
    assert 400 * yday >= -288;
    assert 400 * yday < 146097 + 591;
  }

  /** The month guess of gmtime (time.c:278-279) on a day of the March-based
      year: months 1 to 10 (March to December) and 11 (January) come out with a
      day inside the month; month 12 comes out with a day from 0 (standing for
      31 January) to 30 (past the end of February, to be moved into March). */
  lemma {:induction false} MonthGuess(yday: int)
    requires 0 <= yday <= 366
    ensures var mon := (yday + 31) * 12 / 367;
            var mday := yday - MonthStart(mon);
            && 1 <= mon <= 12
            && (yday < 306 <==> mon <= 10)
            && (mon <= 10 ==> 1 <= mday <= MonthDays[mon + 1])
            && (mon == 11 ==> 1 <= mday <= 30)
            && (mon == 12 ==> 0 <= mday <= 30 && yday == 336 + mday)
  {
    var mon := (yday + 31) * 12 / 367;
    assert 367 * mon <= (yday + 31) * 12 < 367 * mon + 367;
    assert 1 <= mon <= 12;
    assert MonthStart(mon) == 367 * mon / 12 - 31;
    if mon == 1 { assert MonthStart(1) == -1; }
    else if mon == 2 { assert MonthStart(2) == 30; }
    else if mon == 3 { assert MonthStart(3) == 60; }
    else if mon == 4 { assert MonthStart(4) == 91; }
    else if mon == 5 { assert MonthStart(5) == 121; }
    else if mon == 6 { assert MonthStart(6) == 152; }
    else if mon == 7 { assert MonthStart(7) == 183; }
    else if mon == 8 { assert MonthStart(8) == 213; }
    else if mon == 9 { assert MonthStart(9) == 244; }
    else if mon == 10 { assert MonthStart(10) == 274; }
    else if mon == 11 { assert MonthStart(11) == 305; }
    else { assert MonthStart(12) == 336; }
  }

  /** A date and time as the parser reads it: the day of the month, the month
      counted from 0 for January, the full year, hour, minute and second. */
  datatype Stamp = Stamp(day: int, month: int, year: int, hour: int, min: int, sec: int)

  /** Gauss's formula for the days from 1 January 1970 to a date (time.c:235-251):
      the year is moved to start on 1 March, so January and February count as
      months 11 and 12 of the year before. */
  function DayNumber(day: int, month: int, year: int): int
  {
    var m := month - 1;
    if m <= 0 then YearDays(year - 1) + MonthStart(m + 12) + day - 719527 + 31 + 28
    else YearDays(year) + MonthStart(m) + day - 719527 + 31 + 28
  }

  /** Gauss's day count of a calendar date. */
  function DateDays(d: Date): int
  {
    DayNumber(d.mday, d.mon - 1, d.year)
  }

  /** The seconds since the epoch the parser returns for a date and time. */
  function Gauss(d: Stamp): int
  {
    DayNumber(d.day, d.month, d.year) * 86400 + d.hour * 3600 + d.min * 60 + d.sec
  }

  /** The date gmtime gives, as a parser stamp (0-based month). */
  function StampOf(tm: Tm): Stamp
  {
    Stamp(tm.mday, tm.mon - 1, tm.year, tm.hour, tm.min, tm.sec)
  }

  /** On a day 0 to 366 of a year from 0 on, the date is a real calendar date:
      a month from 1 to 12 and a day within that month of that year; and it is
      in the same year, or in the next from January on. */
  lemma FromYdayValid(year: int, yday: int)
    requires year >= 0 && 0 <= yday <= 366
    ensures var d := FromYday(year, yday);
            IsDate(d) && d.year == if yday < 306 then year else year + 1
  {
    MonthGuess(yday);
  }

  /** Gauss's formula turns the date of day `yday` of a year back into that day. */
  lemma FromYdayInverse(year: int, yday: int)
    requires year >= 0 && 0 <= yday <= 366
    ensures DateDays(FromYday(year, yday)) == YearDays(year) + yday - 719468
  {
    MonthGuess(yday);
    YearDaysNext(year);
  }

  /** From 1 March of year 0 on, gmtime's year guess is the mathematical
      quotient. */
  lemma CivilDateIs(marchDays: int)
    requires marchDays >= 0
    ensures var year := marchDays * 400 / 146097;
            CivilDate(marchDays) == FromYday(year, marchDays - YearDays(year))
  {
  }

  /** From 1 March of year 0 on, gmtime's date is a real calendar date. */
  lemma CivilDateValid(marchDays: int)
    requires marchDays >= 0
    ensures IsDate(CivilDate(marchDays))
  {
    CivilDateIs(marchDays);
    YdayInRange(marchDays);
    var year := marchDays * 400 / 146097;
    FromYdayValid(year, marchDays - YearDays(year));
  }

  /** From 1 March of year 0 on, Gauss's formula turns gmtime's date back into
      the same day. */
  lemma CivilDateInverse(marchDays: int)
    requires marchDays >= 0
    ensures DateDays(CivilDate(marchDays)) == marchDays - 719468
  {
    CivilDateIs(marchDays);
    YdayInRange(marchDays);
    var year := marchDays * 400 / 146097;
    FromYdayInverse(year, marchDays - YearDays(year));
  }

  /** Days from 1 January 1970 on fall in 1970 or later. */
  lemma CivilDateFrom1970(marchDays: int)
    requires marchDays >= 719468
    ensures CivilDate(marchDays).year >= 1970
  {
    var year := marchDays * 400 / 146097;
    assert year >= 1969;
    CivilDateIs(marchDays);
    YdayInRange(marchDays);
    FromYdayValid(year, marchDays - YearDays(year));
    if year == 1969 {
      assert YearDays(1969) == 719162;
    }
  }

  /** A time at or after the epoch is its whole days and the hour, minute and
      second of its last day. */
  lemma ClockSplit(t: int)
    requires t >= 0
    ensures t == t / 86400 * 86400 + t % 86400 / 3600 * 3600 + t % 86400 % 3600 / 60 * 60 + t % 86400 % 3600 % 60
  {
  }

  /** Gauss's formula on the day of a time and the clock split of its seconds of
      the day gives back that time. */
  lemma SplitInverse(t: int, tm: Tm)
    requires t >= 0 && DateDays(DateOf(tm)) == t / 86400
    requires tm.hour == t % 86400 / 3600 && tm.min == t % 86400 % 3600 / 60 && tm.sec == t % 86400 % 3600 % 60
    ensures Gauss(StampOf(tm)) == t
  {
    ClockSplit(t);
  }

  /** For a time at or after the epoch gmtime gives a real calendar date from
      1970 on: a month from 1 to 12 and a day within that month of that year. */
  lemma GmtimeDate(t: int)
    requires t >= 0
    ensures IsDate(DateOf(Gmtime(t))) && Gmtime(t).year >= 1970
  {
    GmtimeSplit(t);
    CivilDateValid(t / 86400 + 719468);
    CivilDateFrom1970(t / 86400 + 719468);
  }

  /** gmtime inverts Gauss's formula: for a time at or after the epoch, its date
      and time are turned back into that time. */
  lemma GmtimeInverse(t: int)
    requires t >= 0
    ensures Gauss(StampOf(Gmtime(t))) == t
  {
    GmtimeSplit(t);
    CivilDateInverse(t / 86400 + 719468);
    SplitInverse(t, Gmtime(t));
  }

  // The parser (time.c:12-252).

  predicate IsDigit(c: char)
  {
    '0' <= c <= '9'
  }

  function Digit(c: char): int
  {
    c as int - '0' as int
  }

  /** The two characters at `i` are digits. */
  predicate Digits2(s: string, i: nat)
    requires i + 2 <= |s|
  {
    IsDigit(s[i]) && IsDigit(s[i + 1])
  }

  /** The four characters at `i` are digits. */
  predicate Digits4(s: string, i: nat)
    requires i + 4 <= |s|
  {
    Digits2(s, i) && Digits2(s, i + 2)
  }

  /** The value of the two digits at `i`. */
  function Num2(s: string, i: nat): (n: int)
    requires i + 2 <= |s| && Digits2(s, i)
    ensures 0 <= n <= 99
  {
    Digit(s[i]) * 10 + Digit(s[i + 1])
  }

  /** The value of the four digits at `i`. */
  function Num4(s: string, i: nat): (n: int)
    requires i + 4 <= |s| && Digits4(s, i)
    ensures 0 <= n <= 9999
  {
    Num2(s, i) * 100 + Num2(s, i + 2)
  }

  /** Where the weekday ends: the first ',' or ' ' from `i` on, or the end of
      the text (time.c:27-36). */
  function SepFrom(s: string, i: nat): (r: nat)
    requires i <= |s|
    ensures i <= r <= |s|
    ensures forall k | i <= k < r :: s[k] != ',' && s[k] != ' '
    ensures r < |s| ==> s[r] == ',' || s[r] == ' '
    decreases |s| - i
  {
    if i == |s| || s[i] == ',' || s[i] == ' ' then i else SepFrom(s, i + 1)
  }

  /** The first position from `i` on that holds no space; `i` itself once past
      the end (time.c:38-41). */
  function SkipSpaces(s: string, i: nat): (r: nat)
    ensures i <= r
    ensures forall k | i <= k < r :: k < |s| && s[k] == ' '
    ensures r < |s| ==> s[r] != ' '
    decreases |s| - i
  {
    if i >= |s| || s[i] != ' ' then i else SkipSpaces(s, i + 1)
  }

  /** The month named by the three letters at `i`, counted from 0 for January
      (time.c:71-107).  Only the letters that tell the English names apart are
      looked at; a first letter that starts no month name gives no month. */
  function MonthAt(s: string, i: nat): (m: Option<int>)
    requires i + 3 <= |s|
    ensures m.Some? ==> 0 <= m.value < 12
    ensures m.Some? <==> s[i] in "JFMASOND"
  {
    match s[i]
    case 'J' => Some(if s[i + 1] == 'a' then 0 else if s[i + 2] == 'n' then 5 else 6)
    case 'F' => Some(1)
    case 'M' => Some(if s[i + 2] == 'r' then 2 else 4)
    case 'A' => Some(if s[i + 1] == 'p' then 3 else 7)
    case 'S' => Some(8)
    case 'O' => Some(9)
    case 'N' => Some(10)
    case 'D' => Some(11)
    case _ => None
  }

  /** An hour, minute and second as read from the text. */
  datatype Clock = Clock(hour: int, min: int, sec: int)

  /** "hh:mm:ss" at `i` (time.c:167-193). */
  function ClockAt(s: string, i: nat): (c: Option<Clock>)
    requires i + 8 <= |s|
    ensures c.Some? ==> 0 <= c.value.hour <= 99 && 0 <= c.value.min <= 99 && 0 <= c.value.sec <= 99
  {
    if Digits2(s, i) && s[i + 2] == ':' && Digits2(s, i + 3) && s[i + 5] == ':' && Digits2(s, i + 6)
    then Some(Clock(Num2(s, i), Num2(s, i + 3), Num2(s, i + 6)))
    else None
  }

  /** Parsed fields in the ranges their digits allow, with a month name read. */
  predicate InRange(d: Stamp)
  {
    && 0 <= d.day <= 99 && 0 <= d.month < 12 && 0 <= d.year <= 9999
    && 0 <= d.hour <= 99 && 0 <= d.min <= 99 && 0 <= d.sec <= 99
  }

  /** The RFC 1123 form "DD Mon YYYY hh:mm:ss", the two day digits at `p`. */
  function Rfc822At(s: string, p: nat): (d: Option<Stamp>)
    requires p + 20 <= |s| && Digits2(s, p)
    ensures d.Some? ==> InRange(d.value)
  {
    var m := MonthAt(s, p + 3);
    if m.None? || s[p + 6] != ' ' || !Digits4(s, p + 7) || s[p + 11] != ' ' then None
    else match ClockAt(s, p + 12)
      case None => None
      case Some(c) => Some(Stamp(Num2(s, p), m.value, Num4(s, p + 7), c.hour, c.min, c.sec))
  }

  /** The year of a two-digit RFC 850 year: 70 to 99 are 1970 to 1999, 00 to 69
      are 2000 to 2069 (time.c:134-135). */
  function Century(yy: int): (y: int)
    requires 0 <= yy <= 99
    ensures 1970 <= y <= 2069 && y % 100 == yy
  {
    yy + if yy < 70 then 2000 else 1900
  }

  /** The RFC 850 form "DD-Mon-YY hh:mm:ss", the two day digits at `p`. */
  function Rfc850At(s: string, p: nat): (d: Option<Stamp>)
    requires p + 18 <= |s| && Digits2(s, p)
    ensures d.Some? ==> InRange(d.value) && 1970 <= d.value.year <= 2069
  {
    var m := MonthAt(s, p + 3);
    if m.None? || s[p + 6] != '-' || !Digits2(s, p + 7) || s[p + 9] != ' ' then None
    else match ClockAt(s, p + 10)
      case None => None
      case Some(c) => Some(Stamp(Num2(s, p), m.value, Century(Num2(s, p + 7)), c.hour, c.min, c.sec))
  }

  /** The asctime form "Mon D hh:mm:ss YYYY", the month at `p`: the day has one
      or two digits and may follow two spaces; the character after the month
      is not looked at. */
  function IsocAt(s: string, p: nat): (d: Option<Stamp>)
    requires p + 18 <= |s|
    ensures d.Some? ==> InRange(d.value)
  {
    var m := MonthAt(s, p);
    var q := if s[p + 4] == ' ' then p + 5 else p + 4;
    if m.None? || !IsDigit(s[q]) || (s[q + 1] != ' ' && !IsDigit(s[q + 1])) then None
    else
      var r := if s[q + 1] != ' ' then q + 2 else q + 1;
      if |s| - r < 14 || s[r] != ' ' || s[r + 9] != ' ' || !Digits4(s, r + 10) then None
      else match ClockAt(s, r + 1)
        case None => None
        case Some(c) =>
          var day := if s[q + 1] != ' ' then Num2(s, q) else Digit(s[q]);
          Some(Stamp(day, m.value, Num4(s, r + 10), c.hour, c.min, c.sec))
  }

  /** The fields of a date in one of the three forms (time.c:24-211): the
      weekday is skipped up to a ',' (RFC 1123 or RFC 850) or a ' ' (asctime),
      then the spaces after it; fewer than 18 characters left is no date. */
  function Fields(s: string): (d: Option<Stamp>)
    ensures d.Some? ==> InRange(d.value)
  {
    var w := SepFrom(s, 0);
    var p := SkipSpaces(s, w + 1);
    if |s| - p < 18 then None
    else if w < |s| && s[w] == ' ' then IsocAt(s, p)
    else if !Digits2(s, p) then None
    else if s[p + 2] == ' ' then (if |s| - (p + 2) < 18 then None else Rfc822At(s, p))
    else if s[p + 2] == '-' then Rfc850At(s, p)
    else None
  }

  /** The checks on the fields (time.c:213-224): the clock in range; 29 February
      only in a leap year; any other day at most the month's common-year
      length. */
  predicate ValidStamp(d: Stamp)
    requires 0 <= d.month < 12
  {
    && d.hour <= 23 && d.min <= 59 && d.sec <= 59
    && if d.day == 29 && d.month == 1 then IsLeap(d.year) else d.day <= MonthDays[d.month]
  }

  /** What bolt_parse_time returns: the seconds since the epoch of a well-formed
      date, -1 for anything else. */
  function TimeOf(s: string): int
  {
    match Fields(s)
    case None => -1
    case Some(d) => if ValidStamp(d) then Gauss(d) else -1
  }

  /** The date forms of the parser's `fmt` (time.c:17-22); `NoForm` until the
      text has told which. */
  datatype Form = NoForm | Rfc822 | Rfc850 | Isoc

  /** bolt_parse_time (time.c:12-252): a cursor walks the text field by field
      and gives up with -1 at the first character out of place.  The fields of
      each form are read by a helper, and the checks and Gauss's formula are
      applied by Convert. */
  method ParseTime(value: string) returns (t: int)
    ensures t == TimeOf(value)
  {
    var p, fmt := SkipWeekday(value);
    if |value| - p < 18 {
      return -1;
    }
    var d := ReadFields(value, p, fmt);
    if d.None? {
      return -1;
    }
    t := Convert(d.value);
  }

  /** The two loops of time.c:27-41: past the weekday up to its ',' or ' ' (the
      latter telling the asctime form), then past the spaces that follow. */
  method SkipWeekday(value: string) returns (p: nat, fmt: Form)
    ensures p == SkipSpaces(value, SepFrom(value, 0) + 1)
    ensures fmt == NoForm || fmt == Isoc
    ensures fmt == Isoc <==> SepFrom(value, 0) < |value| && value[SepFrom(value, 0)] == ' '
  {
    fmt := NoForm;
    var end := |value|;
    p := 0;
    while p < end && value[p] != ',' && value[p] != ' '
      invariant 0 <= p <= end
      invariant SepFrom(value, p) == SepFrom(value, 0)
    {
      p := p + 1;
    }
    if p < end && value[p] == ' ' {
      fmt := Isoc;
    }
    ghost var w := p;
    p := p + 1;
    while p < end && value[p] == ' '
      invariant w + 1 <= p
      invariant SkipSpaces(value, p) == SkipSpaces(value, w + 1)
    {
      p := p + 1;
    }
  }

  /** The fields from the first one after the weekday (time.c:47-211): the
      asctime form by its month, the other two by the character after the day. */
  method ReadFields(value: string, p: nat, fmt: Form) returns (d: Option<Stamp>)
    requires p == SkipSpaces(value, SepFrom(value, 0) + 1) && p + 18 <= |value|
    requires fmt == NoForm || fmt == Isoc
    requires fmt == Isoc <==> SepFrom(value, 0) < |value| && value[SepFrom(value, 0)] == ' '
    ensures d == Fields(value)
  {
    if fmt == Isoc {
      d := ReadIsoc(value, p);
      return;
    }
    if !IsDigit(value[p]) || !IsDigit(value[p + 1]) {
      return None;
    }
    if value[p + 2] == ' ' {
      if |value| - (p + 2) < 18 {
        return None;
      }
      d := ReadRfc822(value, p);
    } else if value[p + 2] == '-' {
      d := ReadRfc850(value, p);
    } else {
      d := None;
    }
  }

  /** "hh:mm:ss" at `p` (time.c:167-193). */
  method ReadClock(value: string, p: nat) returns (c: Option<Clock>)
    requires p + 8 <= |value|
    ensures c == ClockAt(value, p)
  {
    var q := p;
    if !IsDigit(value[q]) || !IsDigit(value[q + 1]) {
      return None;
    }
    var hour := Digit(value[q]) * 10 + Digit(value[q + 1]);
    q := q + 2;
    if value[q] != ':' {
      return None;
    }
    q := q + 1;
    if !IsDigit(value[q]) || !IsDigit(value[q + 1]) {
      return None;
    }
    var min := Digit(value[q]) * 10 + Digit(value[q + 1]);
    q := q + 2;
    if value[q] != ':' {
      return None;
    }
    q := q + 1;
    if !IsDigit(value[q]) || !IsDigit(value[q + 1]) {
      return None;
    }
    var sec := Digit(value[q]) * 10 + Digit(value[q + 1]);
    return Some(Clock(hour, min, sec));
  }

  /** The RFC 1123 form from the day digits at `p` (time.c:52-59, 71-127, 163-193). */
  method ReadRfc822(value: string, p: nat) returns (d: Option<Stamp>)
    requires p + 20 <= |value| && Digits2(value, p)
    ensures d == Rfc822At(value, p)
  {
    var day := Digit(value[p]) * 10 + Digit(value[p + 1]);
    var q := p + 3;
    var month := MonthAt(value, q);
    if month.None? {
      return None;
    }
    q := q + 3;
    if value[q] != ' ' {
      return None;
    }
    q := q + 1;
    if !IsDigit(value[q]) || !IsDigit(value[q + 1]) || !IsDigit(value[q + 2]) || !IsDigit(value[q + 3]) {
      return None;
    }
    var year := Digit(value[q]) * 1000 + Digit(value[q + 1]) * 100 + Digit(value[q + 2]) * 10 + Digit(value[q + 3]);
    q := q + 4;
    if value[q] != ' ' {
      return None;
    }
    q := q + 1;
    var c := ReadClock(value, q);
    if c.None? {
      return None;
    }
    return Some(Stamp(day, month.value, year, c.value.hour, c.value.min, c.value.sec));
  }

  /** The RFC 850 form from the day digits at `p` (time.c:52-68, 71-115, 129-137, 163-193). */
  method ReadRfc850(value: string, p: nat) returns (d: Option<Stamp>)
    requires p + 18 <= |value| && Digits2(value, p)
    ensures d == Rfc850At(value, p)
  {
    var day := Digit(value[p]) * 10 + Digit(value[p + 1]);
    var q := p + 3;
    var month := MonthAt(value, q);
    if month.None? {
      return None;
    }
    q := q + 3;
    if value[q] != '-' {
      return None;
    }
    q := q + 1;
    if !IsDigit(value[q]) || !IsDigit(value[q + 1]) {
      return None;
    }
    var year := Digit(value[q]) * 10 + Digit(value[q + 1]);
    year := year + if year < 70 then 2000 else 1900;
    q := q + 2;
    if value[q] != ' ' {
      return None;
    }
    q := q + 1;
    var c := ReadClock(value, q);
    if c.None? {
      return None;
    }
    return Some(Stamp(day, month.value, year, c.value.hour, c.value.min, c.value.sec));
  }

  /** The asctime form from the month at `p` (time.c:71-115, 139-211). */
  method ReadIsoc(value: string, p: nat) returns (d: Option<Stamp>)
    requires p + 18 <= |value|
    ensures d == IsocAt(value, p)
  {
    var month := MonthAt(value, p);
    if month.None? {
      return None;
    }
    var q := p + 4;
    if value[q] == ' ' {
      q := q + 1;
    }
    if !IsDigit(value[q]) {
      return None;
    }
    var day := Digit(value[q]);
    q := q + 1;
    if value[q] != ' ' {
      if !IsDigit(value[q]) {
        return None;
      }
      day := day * 10 + Digit(value[q]);
      q := q + 1;
    }
    if |value| - q < 14 {
      return None;
    }
    if value[q] != ' ' {
      return None;
    }
    q := q + 1;
    var c := ReadClock(value, q);
    if c.None? {
      return None;
    }
    q := q + 8;
    if value[q] != ' ' {
      return None;
    }
    q := q + 1;
    if !IsDigit(value[q]) || !IsDigit(value[q + 1]) || !IsDigit(value[q + 2]) || !IsDigit(value[q + 3]) {
      return None;
    }
    var year := Digit(value[q]) * 1000 + Digit(value[q + 1]) * 100 + Digit(value[q + 2]) * 10 + Digit(value[q + 3]);
    return Some(Stamp(day, month.value, year, c.value.hour, c.value.min, c.value.sec));
  }

  /** The checks on the fields and Gauss's formula (time.c:213-251). */
  method Convert(d: Stamp) returns (t: int)
    requires InRange(d)
    ensures t == if ValidStamp(d) then Gauss(d) else -1
  {
    var day, month, year := d.day, d.month, d.year;
    if d.hour > 23 || d.min > 59 || d.sec > 59 {
      return -1;
    }
    // `year & 3` of the source is `year % 4` for the years four digits give.
    if day == 29 && month == 1 {
      if year % 4 != 0 || (year % 100 == 0 && year % 400 != 0) {
        return -1;
      }
    } else if day > MonthDays[month] {
      return -1;
    }
    month := month - 1;
    if month <= 0 {
      month := month + 12;
      year := year - 1;
    }
    t := (YearDays(year) + MonthStart(month) + day - 719527 + 31 + 28) * 86400 + d.hour * 3600 + d.min * 60 + d.sec;
  }

  /** The parser's checks describe calendar dates: a stamp with a day from 1
      passes them exactly when its clock is in range and its date exists. */
  lemma ValidStampIsDate(d: Stamp)
    requires 0 <= d.month < 12 && d.day >= 1
    ensures ValidStamp(d) <==> d.hour <= 23 && d.min <= 59 && d.sec <= 59 && IsDate(Date(d.day, d.month + 1, d.year))
  {
  }

  /** The checks let day 00 through (time.c:217-224 only bound the day from
      above), and Gauss's formula then reads it as the day before the 1st: the
      last day of the month before. */
  lemma DayZeroAccepted(d: Stamp)
    requires d.day == 0 && 0 <= d.month < 12 && d.hour <= 23 && d.min <= 59 && d.sec <= 59
    ensures ValidStamp(d)
    ensures Gauss(d) == Gauss(d.(day := 1)) - 86400
  {
  }

  /** For a time at or after the epoch, the parser's checks accept gmtime's
      date and time, and Gauss's formula gives the time back: what gmtime
      splits, the parser puts together again. */
  lemma GmtimeAccepted(t: int)
    requires t >= 0
    ensures 0 <= StampOf(Gmtime(t)).month < 12
    ensures ValidStamp(StampOf(Gmtime(t))) && Gauss(StampOf(Gmtime(t))) == t
  {
    GmtimeDate(t);
    GmtimeClock(t);
    GmtimeInverse(t);
    ValidStampIsDate(StampOf(Gmtime(t)));
  }

  // The text bolt_format_time writes (time.c:324-340).

  /** The English weekday abbreviations, Sunday first, and month abbreviations,
      January first, of the HTTP date (section 7.1.1.1 of RFC 7231); the
      server's tables are not part of this model and are taken to be these. */
  const WeekNames: seq<string> := ["Sun", "Mon", "Tue", "Wed", "Thu", "Fri", "Sat"]
  const MonthNames: seq<string> :=
    ["Jan", "Feb", "Mar", "Apr", "May", "Jun", "Jul", "Aug", "Sep", "Oct", "Nov", "Dec"]

  function DigitChar(n: int): (c: char)
    requires 0 <= n <= 9
    ensures IsDigit(c) && Digit(c) == n
  {
    ('0' as int + n) as char
  }

  /** The decimal digits of `n`, without leading zeros. */
  function Decimal(n: nat): (s: string)
    ensures 1 <= |s| && forall k | 0 <= k < |s| :: IsDigit(s[k])
  {
    if n < 10 then [DigitChar(n)] else Decimal(n / 10) + [DigitChar(n % 10)]
  }

  /** `%02d`: at least two digits, a zero in front of a single one. */
  function ZeroPad2(n: nat): string
  {
    if n < 10 then ['0'] + Decimal(n) else Decimal(n)
  }

  /** `%4d`: at least four characters, spaces in front of shorter numbers. */
  function SpacePad4(n: nat): string
  {
    var s := Decimal(n);
    if |s| < 4 then seq(4 - |s|, _ => ' ') + s else s
  }

  /** A broken-down time whose fields the format can print: a weekday and a
      month that index the name tables, the other fields not negative. */
  predicate Printable(tm: Tm)
  {
    && 0 <= tm.wday < 7 && 1 <= tm.mon <= 12 && tm.mday >= 0 && tm.year >= 0
    && tm.hour >= 0 && tm.min >= 0 && tm.sec >= 0
  }

  /** "%s, %02d %s %4d %02d:%02d:%02d GMT" (time.c:332-339). */
  function Text(tm: Tm): string
    requires Printable(tm)
  {
    DatePart(tm) + ClockPart(tm)
  }

  /** The date half of the printed text: weekday, day and month name. */
  function DatePart(tm: Tm): string
    requires Printable(tm)
  {
    WeekNames[tm.wday] + ", " + ZeroPad2(tm.mday) + " " + MonthNames[tm.mon - 1] + " "
  }

  /** The year and clock half of the printed text. */
  function ClockPart(tm: Tm): string
    requires Printable(tm)
  {
    SpacePad4(tm.year) + " " + ZeroPad2(tm.hour) + ":" + ZeroPad2(tm.min) + ":" + ZeroPad2(tm.sec) + " GMT"
  }

  /** What snprintf leaves in the buffer and what it returns: the text cut to
      the 29 characters the 30-byte buffer holds besides its terminator, and
      the length of the whole text. */
  datatype Formatted = Formatted(text: string, length: nat)

  /** bolt_format_time (time.c:324-340), for a time at or after the epoch (the
      name tables are indexed by gmtime's weekday and month). */
  function FormatTime(t: int): (f: Formatted)
    requires t >= 0
    ensures |f.text| <= 29 && |f.text| <= f.length
  {
    GmtimePrintable(t);
    var full := Text(Gmtime(t));
    Formatted(if |full| <= 29 then full else full[..29], |full|)
  }

  /** For a time at or after the epoch, gmtime's fields are printable, with a
      day, hour, minute and second of at most two digits. */
  lemma GmtimePrintable(t: int)
    requires t >= 0
    ensures var tm := Gmtime(t);
            Printable(tm) && tm.year >= 1970 && tm.mday <= 31 && tm.hour <= 23 && tm.min <= 59 && tm.sec <= 59
  {
    GmtimeDate(t);
    GmtimeClock(t);
  }

  /** A number below 100 printed with `%02d` is two digits that read back as it. */
  lemma ZeroPad2Reads(n: nat)
    requires n <= 99
    ensures |ZeroPad2(n)| == 2 && Digits2(ZeroPad2(n), 0) && Num2(ZeroPad2(n), 0) == n
  {
    if n >= 10 {
      assert Decimal(n) == Decimal(n / 10) + [DigitChar(n % 10)];
    }
  }

  /** A four-digit year printed with `%4d` is four digits that read back as it. */
  lemma SpacePad4Reads(n: nat)
    requires 1000 <= n <= 9999
    ensures |SpacePad4(n)| == 4 && Digits4(SpacePad4(n), 0) && Num4(SpacePad4(n), 0) == n
  {
    assert Decimal(n) == Decimal(n / 10) + [DigitChar(n % 10)];
    assert Decimal(n / 10) == Decimal(n / 100) + [DigitChar(n / 10 % 10)];
    assert Decimal(n / 100) == Decimal(n / 1000) + [DigitChar(n / 100 % 10)];
    assert Decimal(n / 1000) == [DigitChar(n / 1000)];
  }

  /** Every month name is read back as its month. */
  lemma MonthNameReads(m: int)
    requires 0 <= m < 12
    ensures |MonthNames[m]| == 3 && MonthAt(MonthNames[m], 0) == Some(m)
  {
  }

  /** Where the pieces of the date half stand. */
  lemma DatePartLayout(tm: Tm)
    requires Printable(tm) && tm.mday <= 99
    ensures var s := DatePart(tm);
            && |s| == 12 && s[..3] == WeekNames[tm.wday] && s[3] == ',' && s[4] == ' '
            && s[5..7] == ZeroPad2(tm.mday) && s[7] == ' ' && s[8..11] == MonthNames[tm.mon - 1] && s[11] == ' '
  {
    ZeroPad2Reads(tm.mday);
    MonthNameReads(tm.mon - 1);
    WeekNameLength(tm.wday);
    DateJoin(WeekNames[tm.wday], ZeroPad2(tm.mday), MonthNames[tm.mon - 1]);
  }

  lemma WeekNameLength(k: int)
    requires 0 <= k < 7
    ensures |WeekNames[k]| == 3
  {
  }

  /** Where three pieces of lengths 3, 2 and 3 stand in the date half. */
  lemma DateJoin(w: string, d: string, m: string)
    requires |w| == 3 && |d| == 2 && |m| == 3
    ensures var s := w + ", " + d + " " + m + " ";
            && |s| == 12 && s[..3] == w && s[3] == ',' && s[4] == ' '
            && s[5..7] == d && s[7] == ' ' && s[8..11] == m && s[11] == ' '
  {
  }

  /** Where the pieces of the clock half stand. */
  lemma ClockPartLayout(tm: Tm)
    requires Printable(tm) && 1000 <= tm.year <= 9999 && tm.hour <= 99 && tm.min <= 99 && tm.sec <= 99
    ensures var s := ClockPart(tm);
            && |s| == 17 && s[..4] == SpacePad4(tm.year) && s[4] == ' ' && s[5..7] == ZeroPad2(tm.hour) && s[7] == ':'
            && s[8..10] == ZeroPad2(tm.min) && s[10] == ':' && s[11..13] == ZeroPad2(tm.sec)
  {
    ZeroPad2Reads(tm.hour);
    ZeroPad2Reads(tm.min);
    ZeroPad2Reads(tm.sec);
    SpacePad4Reads(tm.year);
  }

  /** The fields of a printed date are where the RFC 1123 form wants them:
      the parser finds the weekday's ',' at 3, the day at 5, the month at 8,
      the year at 12 and the clock at 17, and reads the date back. */
  lemma TextFields(tm: Tm)
    requires Printable(tm) && 1000 <= tm.year <= 9999
    requires tm.mday <= 99 && tm.hour <= 99 && tm.min <= 99 && tm.sec <= 99
    ensures |Text(tm)| == 29 && Fields(Text(tm)) == Some(StampOf(tm))
  {
    DatePartLayout(tm);
    ClockPartLayout(tm);
    var d, c := DatePart(tm), ClockPart(tm);
    JoinAt(d, c);
    ClockReads(c, 5, tm);
    WeekdayPrefix(d + c, tm);
    LayoutFields(d + c, tm);
  }

  /** The pieces of the two halves inside the whole text. */
  lemma JoinAt(d: string, c: string)
    requires |d| == 12 && |c| == 17
    ensures var s := d + c;
            && |s| == 29 && s[..3] == d[..3] && s[3] == d[3] && s[4] == d[4] && s[5..7] == d[5..7] && s[7] == d[7]
            && s[8..11] == d[8..11] && s[11] == d[11]
            && s[12..16] == c[..4] && s[16] == c[4] && ClockAt(s, 17) == ClockAt(c, 5)
  {
    var s := d + c;
    assert s[17..25] == c[5..13];
  }

  /** A text whose weekday is followed by ',' and a space and then a two-digit
      day followed by a space has its fields in the RFC 1123 form from 5 on. */
  lemma {:induction false} WeekdayPrefix(s: string, tm: Tm)
    requires 0 <= tm.wday < 7 && 0 <= tm.mday <= 99
    requires |s| == 29 && s[..3] == WeekNames[tm.wday] && s[3] == ',' && s[4] == ' '
    requires s[5..7] == ZeroPad2(tm.mday) && s[7] == ' '
    ensures Digits2(s, 5) && Fields(s) == Rfc822At(s, 5)
  {
    ZeroPad2Reads(tm.mday);
    assert s[0] == WeekNames[tm.wday][0] && s[1] == WeekNames[tm.wday][1] && s[2] == WeekNames[tm.wday][2];
    assert SepFrom(s, 2) == 3;
    assert SepFrom(s, 1) == 3;
    assert SepFrom(s, 0) == 3;
    assert s[5] == ZeroPad2(tm.mday)[0];
    assert SkipSpaces(s, 5) == 5;
    assert SkipSpaces(s, 4) == 5;
    ReadsAt(s, 5, ZeroPad2(tm.mday));
  }

  /** "hh:mm:ss" printed with `%02d` reads back as its clock. */
  lemma {:induction false} ClockReads(s: string, i: nat, tm: Tm)
    requires 0 <= tm.hour <= 99 && 0 <= tm.min <= 99 && 0 <= tm.sec <= 99
    requires i + 8 <= |s| && s[i..i + 2] == ZeroPad2(tm.hour) && s[i + 2] == ':'
    requires s[i + 3..i + 5] == ZeroPad2(tm.min) && s[i + 5] == ':' && s[i + 6..i + 8] == ZeroPad2(tm.sec)
    ensures ClockAt(s, i) == Some(Clock(tm.hour, tm.min, tm.sec))
  {
    ZeroPad2Reads(tm.hour);
    ZeroPad2Reads(tm.min);
    ZeroPad2Reads(tm.sec);
    ReadsAt(s, i, ZeroPad2(tm.hour));
    ReadsAt(s, i + 3, ZeroPad2(tm.min));
    ReadsAt(s, i + 6, ZeroPad2(tm.sec));
  }

  /** The RFC 1123 fields from 5 on, laid out as the format prints `tm`, read
      back as `tm`. */
  lemma {:induction false} LayoutFields(s: string, tm: Tm)
    requires 1 <= tm.mon <= 12 && 1000 <= tm.year <= 9999 && 0 <= tm.mday <= 99
    requires |s| == 29 && Digits2(s, 5) && s[5..7] == ZeroPad2(tm.mday)
    requires s[8..11] == MonthNames[tm.mon - 1] && s[11] == ' ' && s[12..16] == SpacePad4(tm.year) && s[16] == ' '
    requires ClockAt(s, 17) == Some(Clock(tm.hour, tm.min, tm.sec))
    ensures Rfc822At(s, 5) == Some(StampOf(tm))
  {
    ZeroPad2Reads(tm.mday);
    SpacePad4Reads(tm.year);
    MonthNameReads(tm.mon - 1);
    ReadsAt(s, 5, ZeroPad2(tm.mday));
    var yyyy := SpacePad4(tm.year);
    assert Digits4(s, 12) && Num4(s, 12) == tm.year by {
      ReadsAt(s, 12, yyyy[..2]);
      ReadsAt(s, 14, yyyy[2..]);
    }
    var mn := MonthNames[tm.mon - 1];
    assert MonthAt(s, 8) == Some(tm.mon - 1) by {
      assert s[8] == mn[0] && s[9] == mn[1] && s[10] == mn[2];
    }
  }

  /** Two digits at `i` read as the two-character text they copy. */
  lemma ReadsAt(s: string, i: nat, u: string)
    requires i + 2 <= |s| && |u| == 2 && s[i..i + 2] == u
    ensures Digits2(s, i) == Digits2(u, 0)
    ensures Digits2(s, i) ==> Num2(s, i) == Num2(u, 0)
  {
    assert s[i] == u[0] && s[i + 1] == u[1];
  }

  /** Days before 1 March 10000 fall in a year of at most four digits. */
  lemma CivilDateBefore10000(marchDays: int)
    requires 0 <= marchDays < 3652365
    ensures CivilDate(marchDays).year <= 9999
  {
    var year := marchDays * 400 / 146097;
    assert year <= 9999;
    CivilDateIs(marchDays);
    YdayInRange(marchDays);
    FromYdayValid(year, marchDays - YearDays(year));
    if year == 9999 {
      assert YearDays(9999) == 3652059;
    }
  }

  /** Times before 10000-01-01 00:00:00 have a year of at most four digits. */
  lemma GmtimeBefore10000(t: int)
    requires 0 <= t < 253402300800
    ensures Gmtime(t).year <= 9999
  {
    GmtimeSplit(t);
    CivilDateBefore10000(t / 86400 + 719468);
  }

  /** The round trip of the server's dates: for a time from the epoch up to the
      end of year 9999 the format writes all 29 characters, and the parser reads
      them back as the same time. */
  lemma FormatParse(t: int)
    requires 0 <= t < 253402300800
    ensures FormatTime(t).length == 29 && TimeOf(FormatTime(t).text) == t
  {
    GmtimePrintable(t);
    GmtimeBefore10000(t);
    GmtimeAccepted(t);
    TextFields(Gmtime(t));
  }

  /** The epoch, printed "Thu, 01 Jan 1970 00:00:00 GMT", is read as 0. */
  lemma EpochParses()
    ensures TimeOf(Text(Tm(0, 0, 0, 1, 1, 1970, 4))) == 0
  {
    var tm := Tm(0, 0, 0, 1, 1, 1970, 4);
    TextFields(tm);
    assert YearDays(1969) == 719162 && MonthStart(11) == 305;
    assert ValidStamp(StampOf(tm)) && Gauss(StampOf(tm)) == 0;
  }

  /** The example date of section 7.1.1.1 of RFC 7231, printed
      "Sun, 06 Nov 1994 08:49:37 GMT", is read as 784111777. */
  lemma ExampleParses()
    ensures TimeOf(Text(Tm(37, 49, 8, 6, 11, 1994, 0))) == 784111777
  {
    var tm := Tm(37, 49, 8, 6, 11, 1994, 0);
    TextFields(tm);
    assert YearDays(1994) == 728293 && MonthStart(9) == 244;
    assert ValidStamp(StampOf(tm)) && Gauss(StampOf(tm)) == 784111777;
  }

  /** bolt_parse_time as written (time.c:242-251): Gauss's formula is worked out
      in 32-bit `int` and only then widened to `time_t`, so the result wraps
      around from 2038-01-19 03:14:08 on. */
  function TimeOfAsWritten(s: string): (t: int)
    ensures INT_MIN <= t <= INT_MAX
    ensures INT_MIN <= TimeOf(s) <= INT_MAX ==> t == TimeOf(s)
  {
    Wrap32(TimeOf(s))
  }

  /** The first second past 32 bits, printed "Tue, 19 Jan 2038 03:14:08 GMT",
      comes back from the parser as written as the most negative `int`, a date
      in 1901, instead of 2^31. */
  lemma TimeOfOverflows()
    ensures TimeOf(Text(Tm(8, 14, 3, 19, 1, 2038, 2))) == 0x8000_0000
    ensures TimeOfAsWritten(Text(Tm(8, 14, 3, 19, 1, 2038, 2))) == -0x8000_0000
  {
    var tm := Tm(8, 14, 3, 19, 1, 2038, 2);
    var s := Text(tm);
    assert TimeOf(s) == 0x8000_0000 by {
      TextFields(tm);
      assert YearDays(2037) == 743999 && MonthStart(11) == 305;
      assert ValidStamp(StampOf(tm)) && Gauss(StampOf(tm)) == 0x8000_0000;
    }
    WrapsAt(s);
  }

  /** A text the parser reads as 2^31 comes back as written as -2^31. */
  lemma WrapsAt(s: string)
    requires TimeOf(s) == 0x8000_0000
    ensures TimeOfAsWritten(s) == -0x8000_0000
  {
    WrapPastMax();
  }
}
