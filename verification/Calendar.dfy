/** `secs_to_civil` (src/routes/profiles.rs) against a naive Gregorian calendar that starts on
    1970-01-01 and advances one day at a time. */
module Calendar {
  import opened MachineInts

  datatype Date = Date(year: int, month: int, day: int)
  datatype Civil = Civil(year: i64, month: u32, day: u32, hour: u32, minute: u32, second: u32)

  // ---------- the naive calendar ----------

  predicate LeapYear(y: int) {
    y % 4 == 0 && (y % 100 != 0 || y % 400 == 0)
  }

  function DaysInMonth(y: int, m: int): int {
    if m == 2 then (if LeapYear(y) then 29 else 28)
    else if m == 4 || m == 6 || m == 9 || m == 11 then 30
    else 31
  }

  predicate ValidDate(t: Date) {
    1 <= t.month <= 12 && 1 <= t.day <= DaysInMonth(t.year, t.month)
  }

  const EPOCH := Date(1970, 1, 1)

  function NextDay(t: Date): Date {
    if t.day < DaysInMonth(t.year, t.month) then t.(day := t.day + 1)
    else if t.month < 12 then Date(t.year, t.month + 1, 1)
    else Date(t.year + 1, 1, 1)
  }

  /** The date `n` days after the epoch, one day at a time. */
  function NaiveDate(n: nat): Date {
    if n == 0 then EPOCH else NextDay(NaiveDate(n - 1))
  }

  /** Days in the whole years 1970 .. y-1. */
  function DaysInYearsBefore(y: int): int
    requires 1970 <= y
  {
    if y == 1970 then 0 else DaysInYearsBefore(y - 1) + (if LeapYear(y - 1) then 366 else 365)
  }

  /** Days in the whole months 1 .. m-1 of year y. */
  function DaysInMonthsBefore(y: int, m: int): int
    requires 1 <= m <= 13
  {
    if m == 1 then 0 else DaysInMonthsBefore(y, m - 1) + DaysInMonth(y, m - 1)
  }

  /** Days since the epoch, by summing year and month lengths. */
  function SummedDays(t: Date): int
    requires 1970 <= t.year && 1 <= t.month <= 12
  {
    DaysInYearsBefore(t.year) + DaysInMonthsBefore(t.year, t.month) + t.day - 1
  }

  // ---------- the source's formula ----------

  /** Year of the 400-year era from day of era. */
  function YearOfEra(doe: int): int {
    (doe - doe / 1_460 + doe / 36_524 - doe / 146_096) / 365
  }

  /** Day of era on which year `yoe` of the era (1 March) begins. */
  function EraYearStart(yoe: int): int {
    365 * yoe + yoe / 4 - yoe / 100
  }

  /** Day of the March-based year on which its month `mp` begins. */
  function MarchMonthStart(mp: int): int {
    (153 * mp + 2) / 5
  }

  /** Unix seconds to civil UTC fields, on the source's own integer types: that these bodies are
      well formed is the proof that no unsigned subtraction underflows and no cast loses a value. */
  function SecsToCivil(secs: u64): (c: Civil) {
    var days := (secs / 86_400) as i64;
    var s := (secs % 86_400) as u32;
    var hh := s / 3600;
    var mm := (s / 60) % 60;
    var ss := s % 60;

    var z := days + 719_468;
    var era := z / 146_097;
    var doe := (z - era * 146_097) as u64;
    var (yoe, d, m) := EraDayToCivil(doe);
    var yInt := yoe as i64 + era * 400;
    var y := if m <= 2 then yInt + 1 else yInt;
    Civil(y, m as u32, d, hh, mm, ss)
  }

  /** Year of era, day of month and month of a day of era. */
  function EraDayToCivil(doe: u64): (u64, u32, u64)
    requires doe < 146_097
  {
    YearOfEraBrackets(doe as int);
    var yoe := (doe - doe / 1_460 + doe / 36_524 - doe / 146_096) / 365;
    var doy := doe - (365 * yoe + yoe / 4 - yoe / 100);
    var mp := (5 * doy + 2) / 153;
    MarchMonthBrackets(doy as int);
    var d := doy as u32 - (153 * (mp as u32) + 2) / 5 + 1;
    var m := if mp < 10 then mp + 3 else mp - 9;
    (yoe, d, m)
  }

  /** Day `doy` of the year that starts on 1 March of year `y`. */
  function MarchDate(y: int, doy: int): Date {
    var mp := (5 * doy + 2) / 153;
    var m := if mp < 10 then mp + 3 else mp - 9;
    Date(y + (if m <= 2 then 1 else 0), m, doy - MarchMonthStart(mp) + 1)
  }

  /** Day `doe` of a 400-year era. */
  function EraDate(era: int, doe: int): Date {
    var yoe := YearOfEra(doe);
    MarchDate(yoe + era * 400, doe - EraYearStart(yoe))
  }

  /** The date part of the formula on unbounded integers. */
  function FormulaDate(days: int): Date {
    var era := (days + 719_468) / 146_097;
    EraDate(era, days + 719_468 - era * 146_097)
  }

  /** March-based year and month of a date. */
  function MarchYear(t: Date): int {
    if t.month <= 2 then t.year - 1 else t.year
  }

  function MarchMonth(t: Date): int {
    if t.month <= 2 then t.month + 9 else t.month - 3
  }

  function MarchYearNumber(y: int): int {
    y / 400 * 146_097 + EraYearStart(y % 400)
  }

  /** Day number of a date relative to the epoch, in closed form: the inverse of `FormulaDate`. */
  function DayNumber(t: Date): int {
    MarchYearNumber(MarchYear(t)) + MarchMonthStart(MarchMonth(t)) + t.day - 1 - 719_468
  }

  // ---------- the year of the era ----------

  predicate EraYear(yoe: int, doe: int) {
    0 <= yoe <= 399 && EraYearStart(yoe) <= doe && (yoe < 399 ==> doe < EraYearStart(yoe + 1))
  }

  /** Splits a day of era into century, four-year cycle, year and day. */
  lemma EraOdometer(doe: int) returns (c: int, q: int, r: int, doy: int)
    requires 0 <= doe < 146_097
    ensures 0 <= c <= 3 && 0 <= q <= 24 && 0 <= r <= 3 && 0 <= doy <= 365
    ensures doe == 36_524 * c + 1_461 * q + 365 * r + doy
    ensures doy == 365 ==> r == 3 && (q < 24 || c == 3)
  {
    c := if doe == 146_096 then 3 else doe / 36_524;
    var inCentury := doe - 36_524 * c;
    q := inCentury / 1_461;
    var inCycle := inCentury - 1_461 * q;
    r := if inCycle == 1_460 then 3 else inCycle / 365;
    doy := inCycle - 365 * r;
  }

  lemma YearOfEraFromOdometer(doe: int, c: int, q: int, r: int, doy: int)
    requires 0 <= c <= 3 && 0 <= q <= 24 && 0 <= r <= 3 && 0 <= doy <= 365
    requires doe == 36_524 * c + 1_461 * q + 365 * r + doy
    requires doy == 365 ==> r == 3 && (q < 24 || c == 3)
    ensures YearOfEra(doe) == 100 * c + 4 * q + r
    ensures EraYearStart(100 * c + 4 * q + r) == doe - doy
  {
    var yoe := 100 * c + 4 * q + r;
    assert yoe / 4 == 25 * c + q && yoe / 100 == c;
    var e := if 24 * c + q + 365 * r + doy >= 1_460 then 1 else 0;
    assert doe / 1_460 == 25 * c + q + e;
    if doe != 146_096 {
      assert doe / 36_524 == c;
      assert doe / 146_096 == 0;
    }
  }

  /** A March-based year is as long as the calendar year in which it ends. */
  lemma EraYearLength(c: int, q: int, r: int)
    requires 0 <= c <= 3 && 0 <= q <= 24 && 0 <= r <= 3
    ensures var yoe := 100 * c + 4 * q + r;
            && LeapYear(yoe + 1) == (r == 3 && (q < 24 || c == 3))
            && (yoe < 399 ==> EraYearStart(yoe + 1) - EraYearStart(yoe) == if LeapYear(yoe + 1) then 366 else 365)
  {
    var yoe := 100 * c + 4 * q + r;
    assert yoe / 4 == 25 * c + q && yoe / 100 == c;
    if r < 3 {
      assert (yoe + 1) / 4 == 25 * c + q && (yoe + 1) / 100 == c && (yoe + 1) % 4 == r + 1;
    } else if q < 24 {
      assert (yoe + 1) / 4 == 25 * c + q + 1 && (yoe + 1) / 100 == c && (yoe + 1) % 100 == 4 * (q + 1);
    } else {
      assert (yoe + 1) / 4 == 25 * (c + 1) && (yoe + 1) / 100 == c + 1;
      assert yoe + 1 == 100 * (c + 1);
    }
  }

  lemma YearOfEraBrackets(doe: int)
    requires 0 <= doe < 146_097
    ensures EraYear(YearOfEra(doe), doe)
    ensures 0 <= doe - EraYearStart(YearOfEra(doe)) <= 365
    ensures doe - EraYearStart(YearOfEra(doe)) == 365 ==> LeapYear(YearOfEra(doe) + 1)
  {
    var c, q, r, doy := EraOdometer(doe);
    YearOfEraFromOdometer(doe, c, q, r, doy);
    EraYearLength(c, q, r);
  }

  lemma EraYearStartMonotone(a: int, b: int)
    requires 0 <= a <= b
    ensures EraYearStart(a) <= EraYearStart(b)
  {
  }

  /** Only one year of the era brackets a given day. */
  lemma EraYearUnique(yoe: int, doe: int)
    requires 0 <= doe < 146_097
    requires EraYear(yoe, doe)
    ensures YearOfEra(doe) == yoe
  {
    YearOfEraBrackets(doe);
    var f := YearOfEra(doe);
    if yoe < f {
      EraYearStartMonotone(yoe + 1, f);
    } else if f < yoe {
      EraYearStartMonotone(f + 1, yoe);
    }
  }

  // ---------- the month of the year ----------

  lemma MarchMonthBrackets(doy: int)
    requires 0 <= doy <= 365
    ensures var mp := (5 * doy + 2) / 153;
            0 <= mp <= 11 && MarchMonthStart(mp) <= doy && (mp < 11 ==> doy < MarchMonthStart(mp + 1))
  {
  }

  lemma MarchMonthUnique(mp: int, doy: int)
    requires 0 <= mp <= 11 && 0 <= doy <= 365
    requires MarchMonthStart(mp) <= doy && (mp < 11 ==> doy < MarchMonthStart(mp + 1))
    ensures (5 * doy + 2) / 153 == mp
  {
  }

  // ---------- the two inverses ----------

  lemma FormulaDateValid(days: int)
    ensures ValidDate(FormulaDate(days))
  {
    hide FormulaDate, MarchDate, YearOfEra, EraYearStart, ValidDate, LeapYear;
    var era := (days + 719_468) / 146_097;
    var doe := days + 719_468 - era * 146_097;
    FormulaDateAt(days, era, doe);
    YearOfEraBrackets(doe);
    var yoe := YearOfEra(doe);
    LeapYearPeriodic(yoe + 1, era);
    MonthOfYearValid(yoe + era * 400, doe - EraYearStart(yoe));
  }

  /** Day `doy` of a March-based year is a date of the calendar, and numbers as expected. */
  lemma MonthOfYearValid(y: int, doy: int)
    requires 0 <= doy <= 365 && (doy == 365 ==> LeapYear(y + 1))
    ensures var t := MarchDate(y, doy);
            ValidDate(t) && MarchYear(t) == y && MarchMonthStart(MarchMonth(t)) + t.day - 1 == doy
  {
    MarchMonthBrackets(doy);
  }

  lemma LeapYearPeriodic(y: int, era: int)
    ensures LeapYear(y + era * 400) == LeapYear(y)
  {
    ModShift(y, 100 * era, 4);
    ModShift(y, 4 * era, 100);
    ModShift(y, era, 400);
  }

  lemma ModShift(y: int, k: int, n: int)
    requires n == 4 || n == 100 || n == 400
    ensures (y + k * n) % n == y % n
  {
    if n == 4 {
      assert (y + k * 4) / 4 == y / 4 + k;
    } else if n == 100 {
      assert (y + k * 100) / 100 == y / 100 + k;
    } else {
      assert (y + k * 400) / 400 == y / 400 + k;
    }
  }

  lemma DayNumberOfFormula(days: int)
    ensures DayNumber(FormulaDate(days)) == days
  {
    hide FormulaDate, MarchDate, MarchYearNumber, YearOfEra, EraYearStart;
    var era := (days + 719_468) / 146_097;
    var doe := days + 719_468 - era * 146_097;
    FormulaDateAt(days, era, doe);
    YearOfEraBrackets(doe);
    var yoe := YearOfEra(doe);
    LeapYearPeriodic(yoe + 1, era);
    MonthOfYearValid(yoe + era * 400, doe - EraYearStart(yoe));
    MarchYearNumberAt(yoe + era * 400, era, yoe);
  }

  lemma FormulaOfEraDay(era: int, yoe: int, doy: int)
    requires 0 <= yoe <= 399 && 0 <= doy <= 365 && (doy == 365 ==> LeapYear(yoe + 1))
    ensures FormulaDate(era * 146_097 + EraYearStart(yoe) + doy - 719_468) == MarchDate(yoe + era * 400, doy)
  {
    hide FormulaDate, MarchDate, YearOfEra, EraYearStart, EraYear, LeapYear;
    var doe := EraYearStart(yoe) + doy;
    EraDayInYear(yoe, doy);
    EraYearUnique(yoe, doe);
    FormulaDateAt(era * 146_097 + doe - 719_468, era, doe);
  }

  lemma FormulaDateAt(days: int, era: int, doe: int)
    requires 0 <= doe < 146_097 && days + 719_468 == era * 146_097 + doe
    ensures FormulaDate(days) == EraDate(era, doe)
  {
    DivEra(days + 719_468, era, doe);
  }

  lemma DivEra(x: int, era: int, doe: int)
    requires 0 <= doe < 146_097 && x == era * 146_097 + doe
    ensures x / 146_097 == era
  {
  }

  lemma Div400(x: int, era: int, yoe: int)
    requires 0 <= yoe < 400 && x == era * 400 + yoe
    ensures x / 400 == era && x % 400 == yoe
  {
  }

  lemma EraDayInYear(yoe: int, doy: int)
    requires 0 <= yoe <= 399 && 0 <= doy <= 365 && (doy == 365 ==> LeapYear(yoe + 1))
    ensures 0 <= EraYearStart(yoe) + doy < 146_097 && EraYear(yoe, EraYearStart(yoe) + doy)
  {
    var c, q, r := YearOdometer(yoe);
    EraYearLength(c, q, r);
    EraYearStartMonotone(yoe, 399);
  }

  lemma FormulaOfMarchDay(y: int, doy: int)
    requires 0 <= doy <= 365 && (doy == 365 ==> LeapYear(y + 1))
    ensures FormulaDate(MarchYearNumber(y) + doy - 719_468) == MarchDate(y, doy)
  {
    var era, yoe := y / 400, y % 400;
    assert y + 1 == yoe + 1 + era * 400;
    LeapYearPeriodic(yoe + 1, era);
    FormulaOfEraDay(era, yoe, doy);
  }

  lemma FormulaOfDayNumber(t: Date)
    requires ValidDate(t)
    ensures FormulaDate(DayNumber(t)) == t
  {
    hide FormulaDate, MarchDate, MarchYearNumber;
    MarchMonthOfValid(t);
    MarchDateOfValid(t);
    FormulaOfMarchDay(MarchYear(t), MarchMonthStart(MarchMonth(t)) + t.day - 1);
  }

  lemma MarchDateOfValid(t: Date)
    requires ValidDate(t)
    ensures MarchDate(MarchYear(t), MarchMonthStart(MarchMonth(t)) + t.day - 1) == t
  {
    MarchMonthOfValid(t);
    MarchMonthUnique(MarchMonth(t), MarchMonthStart(MarchMonth(t)) + t.day - 1);
  }

  lemma MarchMonthOfValid(t: Date)
    requires ValidDate(t)
    ensures var mp := MarchMonth(t); var doy := MarchMonthStart(mp) + t.day - 1;
            && 0 <= doy <= 365 && (mp < 11 ==> doy < MarchMonthStart(mp + 1))
            && (doy == 365 ==> LeapYear(MarchYear(t) + 1))
  {
  }

  /** The closed form grows by one each day. */
  lemma DayNumberNext(t: Date)
    requires ValidDate(t)
    ensures ValidDate(NextDay(t)) && DayNumber(NextDay(t)) == DayNumber(t) + 1
  {
    hide DayNumber, NextDay, DaysInMonth, LeapYear;
    NextDayValid(t);
    if t.day < DaysInMonth(t.year, t.month) {
      NextInMonth(t);
    } else if t.month == 2 {
      NextAfterFebruary(t);
    } else {
      NextMonth(t);
    }
  }

  lemma NextDayValid(t: Date)
    requires ValidDate(t)
    ensures ValidDate(NextDay(t))
  {
    hide LeapYear;
  }

  lemma NextInMonth(t: Date)
    requires ValidDate(t) && t.day < DaysInMonth(t.year, t.month)
    ensures DayNumber(NextDay(t)) == DayNumber(t) + 1
  {
    hide MarchYearNumber, LeapYear, DaysInMonth;
  }

  lemma NextMonth(t: Date)
    requires ValidDate(t) && t.day == DaysInMonth(t.year, t.month) && t.month != 2
    ensures DayNumber(NextDay(t)) == DayNumber(t) + 1
  {
    hide MarchYearNumber, LeapYear;
  }

  lemma NextAfterFebruary(t: Date)
    requires t.month == 2 && t.day == DaysInMonth(t.year, 2)
    ensures DayNumber(NextDay(t)) == DayNumber(t) + 1
  {
    hide MarchYearNumber, LeapYear;
    MarchYearNumberNext(t.year - 1);
  }

  lemma MarchYearNumberNext(y: int)
    ensures MarchYearNumber(y + 1) == MarchYearNumber(y) + (if LeapYear(y + 1) then 366 else 365)
  {
    var era, yoe := y / 400, y % 400;
    MarchYearNumberAt(y, era, yoe);
    assert y + 1 == yoe + 1 + era * 400;
    LeapYearPeriodic(yoe + 1, era);
    if yoe < 399 {
      EraYearNext(yoe);
      MarchYearNumberAt(y + 1, era, yoe + 1);
    } else {
      MarchYearNumberAt(y + 1, era + 1, 0);
    }
  }

  lemma EraYearNext(yoe: int)
    requires 0 <= yoe < 399
    ensures EraYearStart(yoe + 1) == EraYearStart(yoe) + (if LeapYear(yoe + 1) then 366 else 365)
  {
    var c, q, r := YearOdometer(yoe);
    EraYearLength(c, q, r);
  }

  lemma YearOdometer(yoe: int) returns (c: int, q: int, r: int)
    requires 0 <= yoe <= 399
    ensures 0 <= c <= 3 && 0 <= q <= 24 && 0 <= r <= 3 && yoe == 100 * c + 4 * q + r
  {
    c := yoe / 100;
    q := (yoe - 100 * c) / 4;
    r := yoe - 100 * c - 4 * q;
  }

  lemma MarchYearNumberAt(y: int, era: int, yoe: int)
    requires 0 <= yoe < 400 && y == era * 400 + yoe
    ensures MarchYearNumber(y) == era * 146_097 + EraYearStart(yoe)
  {
    Div400(y, era, yoe);
  }

  // ---------- main results ----------

  /** The formula is the naive calendar, for every day since the epoch. */
  lemma {:induction false} FormulaIsNaive(n: nat)
    ensures FormulaDate(n) == NaiveDate(n)
  {
    hide FormulaDate, DayNumber;
    if n == 0 {
      FormulaOfEpoch();
    } else {
      FormulaIsNaive(n - 1);
      FormulaDateNext(n - 1, FormulaDate(n - 1));
    }
  }

  lemma FormulaOfEpoch()
    ensures FormulaDate(0) == EPOCH
  {
    hide FormulaDate, YearOfEra;
    MarchYearNumberAt(1969, 4, 369);
    FormulaOfMarchDay(1969, 306);
  }

  lemma FormulaDateNext(days: int, t: Date)
    requires t == FormulaDate(days)
    ensures FormulaDate(days + 1) == NextDay(t)
  {
    hide FormulaDate, DayNumber, NextDay, ValidDate;
    DayNumberOfFormula(days);
    FormulaDateValid(days);
    DayNumberNext(t);
    FormulaOfDayNumber(NextDay(t));
  }

  /** Naive dates are valid and summing year and month lengths gives the day back. */
  lemma {:induction false} NaiveDateSums(n: nat)
    ensures ValidDate(NaiveDate(n)) && NaiveDate(n).year >= 1970
    ensures SummedDays(NaiveDate(n)) == n
  {
    if n == 0 {
    } else {
      NaiveDateSums(n - 1);
      YearLength(NaiveDate(n - 1).year);
    }
  }

  lemma YearLength(y: int)
    ensures DaysInMonthsBefore(y, 13) == if LeapYear(y) then 366 else 365
  {
    assert DaysInMonthsBefore(y, 2) == 31;
    assert DaysInMonthsBefore(y, 3) == 31 + DaysInMonth(y, 2);
    assert DaysInMonthsBefore(y, 5) == DaysInMonthsBefore(y, 3) + 61;
    assert DaysInMonthsBefore(y, 7) == DaysInMonthsBefore(y, 5) + 61;
    assert DaysInMonthsBefore(y, 9) == DaysInMonthsBefore(y, 7) + 62;
    assert DaysInMonthsBefore(y, 11) == DaysInMonthsBefore(y, 9) + 61;
  }

  /** For every u64 number of seconds: the date is the naive calendar's, it is a valid date whose
      summed length is the day number, and the time of day is the unique split of the remainder. */
  lemma {:induction false} SecsToCivilIsNaive(secs: u64)
    ensures var c := SecsToCivil(secs); var t := Date(c.year as int, c.month as int, c.day as int);
            && t == NaiveDate(secs as int / 86_400)
            && ValidDate(t) && t.year >= 1970
            && SummedDays(t) == secs as int / 86_400
            && c.hour < 24 && c.minute < 60 && c.second < 60
            && c.hour as int * 3600 + c.minute as int * 60 + c.second as int == secs as int % 86_400
  {
    var days := secs as int / 86_400;
    FormulaIsNaive(days);
    NaiveDateSums(days);
    SecsToCivilDate(secs);
    SecsToCivilTime(secs);
  }

  lemma EraDayToCivilIsMarchDate(doe: u64)
    requires doe < 146_097
    ensures var (yoe, d, m) := EraDayToCivil(doe);
        var t := MarchDate(yoe as int, doe as int - EraYearStart(yoe as int));
            yoe as int == YearOfEra(doe as int) && d as int == t.day && m as int == t.month
  {
    YearOfEraBrackets(doe as int);
    MarchMonthBrackets(doe as int - EraYearStart(YearOfEra(doe as int)));
  }

  lemma MarchDateShift(y: int, k: int, doy: int)
    ensures MarchDate(y + k, doy) == MarchDate(y, doy).(year := MarchDate(y, doy).year + k)
  {
  }

  lemma SecsToCivilDate(secs: u64)
    ensures var c := SecsToCivil(secs);
            Date(c.year as int, c.month as int, c.day as int) == FormulaDate(secs as int / 86_400)
  {
    hide FormulaDate, MarchDate, YearOfEra, EraYearStart, EraDayToCivil;
    var z := (secs / 86_400) as i64 + 719_468;
    var era := z / 146_097;
    var doe := (z - era * 146_097) as u64;
    FormulaDateAt(secs as int / 86_400, era as int, doe as int);
    EraDayToCivilIsMarchDate(doe);
    var yoe := YearOfEra(doe as int);
    var doy := doe as int - EraYearStart(yoe);
    MarchDateShift(yoe, era as int * 400, doy);
    MarchDateYear(yoe, doy);
  }

  lemma MarchDateYear(y: int, doy: int)
    ensures MarchDate(y, doy).year == if MarchDate(y, doy).month <= 2 then y + 1 else y
  {
  }

  lemma SecsToCivilTime(secs: u64)
    ensures var c := SecsToCivil(secs);
            && c.hour < 24 && c.minute < 60 && c.second < 60
            && c.hour as int * 3600 + c.minute as int * 60 + c.second as int == secs as int % 86_400
  {
    var s := secs as int % 86_400;
    assert s / 3600 * 3600 + s / 60 % 60 * 60 + s % 60 == s;
  }

  predicate Before(a: Date, b: Date) {
    a.year < b.year || (a.year == b.year && (a.month < b.month || (a.month == b.month && a.day < b.day)))
  }

  /** Later days have later dates. */
  lemma {:induction false} NaiveDateMonotone(m: nat, n: nat)
    requires m < n
    ensures Before(NaiveDate(m), NaiveDate(n))
    decreases n
  {
    NaiveDateSums(n - 1);
    if m == n - 1 {
    } else {
      NaiveDateMonotone(m, n - 1);
    }
  }
}
