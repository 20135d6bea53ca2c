/** Through the year 9999 the ISO strings have a fixed length and sort like the instants. */
module IsoOrder {
  import opened MachineInts
  import opened Calendar
  import opened Decimal
  import opened IsoFormat

  /** Lexicographic order of strings. */
  predicate LexLess(a: string, b: string) {
    if b == "" then false
    else if a == "" then true
    else a[0] < b[0] || (a[0] == b[0] && LexLess(a[1..], b[1..]))
  }

  /** 10000-01-01T00:00:00Z */
  const YEAR_10000 := 253_402_300_800

  lemma {:induction false} LexConcat(a: string, b: string, c: string, d: string)
    requires |a| == |b|
    ensures LexLess(a + c, b + d) <==> LexLess(a, b) || (a == b && LexLess(c, d))
  {
    if a == "" {
      assert a + c == c && b + d == d;
    } else {
      assert (a + c)[1..] == a[1..] + c && (b + d)[1..] == b[1..] + d;
      LexConcat(a[1..], b[1..], c, d);
      assert a == [a[0]] + a[1..] && b == [b[0]] + b[1..];
    }
  }

  lemma {:induction false} LexIrreflexive(a: string)
    ensures !LexLess(a, a)
  {
    if a == "" {
    } else {
      LexIrreflexive(a[1..]);
    }
  }

  lemma {:induction false} LexAsymmetric(a: string, b: string)
    requires LexLess(a, b)
    ensures !LexLess(b, a)
  {
    if a == "" || a[0] != b[0] {
    } else {
      LexAsymmetric(a[1..], b[1..]);
    }
  }

  lemma DigitOrder(a: nat, b: nat)
    requires a < 10 && b < 10
    ensures LexLess([Digit(a)], [Digit(b)]) <==> a < b
    ensures [Digit(a)] == [Digit(b)] <==> a == b
  {
    LexIrreflexive([]);
    assert [Digit(a)][1..] == [] && [Digit(b)][1..] == [] && [Digit(a)][0] == Digit(a) && [Digit(b)][0] == Digit(b);
  }

  lemma LastDigit(n: nat, w: nat)
    requires w >= 1 && n < Pow10(w)
    ensures w == 1 ==> n < 10 && Padded(n, w) == [Digit(n)]
    ensures w > 1 ==> n / 10 < Pow10(w - 1) && Padded(n, w) == Padded(n / 10, w - 1) + [Digit(n % 10)]
  {
    assert Pow10(1) == 10 * Pow10(0);
  }

  /** Decimals of one width sort like their numbers. */
  lemma {:induction false} PaddedOrder(m: nat, n: nat, w: nat)
    requires w >= 1 && m < Pow10(w) && n < Pow10(w)
    ensures LexLess(Padded(m, w), Padded(n, w)) <==> m < n
    ensures Padded(m, w) == Padded(n, w) <==> m == n
    decreases w
  {
    hide LexLess, Padded, Pow10;
    LastDigit(m, w);
    LastDigit(n, w);
    if w == 1 {
      DigitOrder(m, n);
    } else {
      PaddedValue(m, w);
      PaddedValue(n, w);
      PaddedOrder(m / 10, n / 10, w - 1);
      PaddedLength(m / 10, w - 1);
      PaddedLength(n / 10, w - 1);
      LexConcat(Padded(m / 10, w - 1), Padded(n / 10, w - 1), [Digit(m % 10)], [Digit(n % 10)]);
      DigitOrder(m % 10, n % 10);
    }
  }

  lemma FieldOrder(m: nat, n: nat, w: nat, sep: char, c: string, d: string)
    requires w >= 1 && m < Pow10(w) && n < Pow10(w)
    ensures LexLess(Field(m, w, sep, c), Field(n, w, sep, d)) <==> m < n || (m == n && LexLess(c, d))
  {
    PaddedOrder(m, n, w);
    PaddedLength(m, w);
    PaddedLength(n, w);
    assert Field(m, w, sep, c) == Padded(m, w) + ([sep] + c);
    assert Field(n, w, sep, d) == Padded(n, w) + ([sep] + d);
    LexConcat(Padded(m, w), Padded(n, w), [sep] + c, [sep] + d);
    LexConcat([sep], [sep], c, d);
    LexIrreflexive([sep]);
  }

  lemma FieldLength(n: nat, w: nat, sep: char, rest: string)
    requires w >= 1
    ensures |Field(n, w, sep, rest)| == w + 1 + |rest| <==> n < Pow10(w)
    ensures |Field(n, w, sep, rest)| >= w + 1 + |rest|
  {
    PaddedLength(n, w);
  }

  /** A date and time as the six numbers the format prints, most significant first. */
  datatype Fields = Fields(y: nat, m: nat, d: nat, hh: nat, mm: nat, ss: nat)

  function Printed(f: Fields): string {
    FormatCivil(f.y, f.m, f.d, f.hh, f.mm, f.ss)
  }

  predicate TwoDigits(f: Fields) {
    f.m < 100 && f.d < 100 && f.hh < 100 && f.mm < 100 && f.ss < 100
  }

  predicate FieldsLess(a: Fields, b: Fields) {
    a.y < b.y || (a.y == b.y && (a.m < b.m || (a.m == b.m && (a.d < b.d || (a.d == b.d &&
    (a.hh < b.hh || (a.hh == b.hh && (a.mm < b.mm || (a.mm == b.mm && a.ss < b.ss)))))))))
  }

  lemma PrintedOrder(a: Fields, b: Fields)
    requires TwoDigits(a) && TwoDigits(b) && a.y < 10_000 && b.y < 10_000
    ensures LexLess(Printed(a), Printed(b)) <==> FieldsLess(a, b)
  {
    Powers();
    hide Field, Pow10;
    var a6, b6 := Field(a.ss, 2, 'Z', ""), Field(b.ss, 2, 'Z', "");
    var a5, b5 := Field(a.mm, 2, ':', a6), Field(b.mm, 2, ':', b6);
    var a4, b4 := Field(a.hh, 2, ':', a5), Field(b.hh, 2, ':', b5);
    var a3, b3 := Field(a.d, 2, 'T', a4), Field(b.d, 2, 'T', b4);
    var a2, b2 := Field(a.m, 2, '-', a3), Field(b.m, 2, '-', b3);
    FieldOrder(a.ss, b.ss, 2, 'Z', "", "");
    FieldOrder(a.mm, b.mm, 2, ':', a6, b6);
    FieldOrder(a.hh, b.hh, 2, ':', a5, b5);
    FieldOrder(a.d, b.d, 2, 'T', a4, b4);
    FieldOrder(a.m, b.m, 2, '-', a3, b3);
    FieldOrder(a.y, b.y, 4, '-', a2, b2);
  }

  lemma PrintedLength(f: Fields)
    requires TwoDigits(f)
    ensures |Printed(f)| == 20 <==> f.y < 10_000
    ensures |Printed(f)| >= 20
  {
    Powers();
    hide Field, Pow10;
    var f6 := Field(f.ss, 2, 'Z', "");
    var f5 := Field(f.mm, 2, ':', f6);
    var f4 := Field(f.hh, 2, ':', f5);
    var f3 := Field(f.d, 2, 'T', f4);
    var f2 := Field(f.m, 2, '-', f3);
    FieldLength(f.ss, 2, 'Z', "");
    FieldLength(f.mm, 2, ':', f6);
    FieldLength(f.hh, 2, ':', f5);
    FieldLength(f.d, 2, 'T', f4);
    FieldLength(f.m, 2, '-', f3);
    FieldLength(f.y, 4, '-', f2);
  }

  lemma Powers()
    ensures Pow10(2) == 100 && Pow10(4) == 10_000
  {
    assert Pow10(1) == 10 && Pow10(3) == 1_000;
  }

  // ---------- the fields of an instant ----------

  function FieldsOf(secs: i64): Fields
    requires secs >= 0
  {
    SecsToCivilIsNaive(secs as u64);
    var c := SecsToCivil(secs as u64);
    Fields(c.year as int, c.month as int, c.day as int, c.hour as int, c.minute as int, c.second as int)
  }

  lemma FieldsOfSpec(secs: i64)
    requires secs >= 0
    ensures var f := FieldsOf(secs);
            && Date(f.y, f.m, f.d) == NaiveDate(secs as int / 86_400)
            && f.hh * 3600 + f.mm * 60 + f.ss == secs as int % 86_400 && f.hh < 24 && f.mm < 60 && f.ss < 60
            && TwoDigits(f) && Printed(f) == FormatIso(secs)
  {
    SecsToCivilIsNaive(secs as u64);
  }

  lemma Epoch10000()
    ensures NaiveDate(2_932_897) == Date(10_000, 1, 1)
  {
    hide NaiveDate, DaysInYearsBefore, DaysInMonthsBefore;
    FormulaIsNaive(2_932_897);
    MarchYearNumberAt(9_999, 24, 399);
    FormulaOfMarchDay(9_999, 306);
  }

  lemma YearBefore10000(n: nat)
    ensures NaiveDate(n).year < 10_000 <==> n < 2_932_897
  {
    hide NaiveDate;
    Epoch10000();
    if n < 2_932_897 {
      NaiveDateMonotone(n, 2_932_897);
      NaiveDateSums(n);
    } else if n > 2_932_897 {
      NaiveDateMonotone(2_932_897, n);
    }
  }

  lemma FieldsLater(a: i64, b: i64)
    requires 0 <= a < b
    ensures FieldsLess(FieldsOf(a), FieldsOf(b))
  {
    hide NaiveDate, SecsToCivil, FieldsOf, FormatIso, Printed, TwoDigits;
    FieldsOfSpec(a);
    FieldsOfSpec(b);
    var m, n := a as int / 86_400, b as int / 86_400;
    if m < n {
      NaiveDateMonotone(m, n);
    }
  }

  /** Every non-negative instant prints in at least 20 characters, and in exactly 20 through 9999. */
  lemma {:induction false} FormatIsoLength(secs: i64)
    requires secs >= 0
    ensures |FormatIso(secs)| >= 20
    ensures |FormatIso(secs)| == 20 <==> secs as int < YEAR_10000
  {
    hide NaiveDate, SecsToCivil, FieldsOf, FormatIso, Printed;
    FieldsOfSpec(secs);
    PrintedLength(FieldsOf(secs));
    YearBefore10000(secs as int / 86_400);
  }

  /** Through the year 9999 the strings sort exactly like the instants. */
  lemma {:induction false} FormatIsoOrder(a: i64, b: i64)
    requires 0 <= a && 0 <= b && a as int < YEAR_10000 && b as int < YEAR_10000
    ensures LexLess(FormatIso(a), FormatIso(b)) <==> a < b
  {
    hide NaiveDate, SecsToCivil, FieldsOf, FormatIso, Printed, LexLess;
    FieldsOfSpec(a);
    FieldsOfSpec(b);
    YearBefore10000(a as int / 86_400);
    YearBefore10000(b as int / 86_400);
    PrintedOrder(FieldsOf(a), FieldsOf(b));
    if a < b {
      FieldsLater(a, b);
    } else if b < a {
      FieldsLater(b, a);
    }
  }

  /** The order stops there: the last second of 9999 sorts after the first of 10000. */
  lemma OrderEndsAt10000()
    ensures !LexLess(FormatIso((YEAR_10000 - 1) as i64), FormatIso(YEAR_10000 as i64))
  {
    hide NaiveDate, SecsToCivil, FieldsOf, FormatIso, Padded, Printed;
    var a, b := (YEAR_10000 - 1) as i64, YEAR_10000 as i64;
    FieldsOfSpec(a);
    FieldsOfSpec(b);
    LastDayOf9999();
    Epoch10000();
    FormatIsoStarts(a);
    FormatIsoStarts(b);
    FirstDigits();
  }

  lemma FirstDigits()
    ensures |Padded(9_999, 4)| > 0 && Padded(9_999, 4)[0] == '9'
    ensures |Padded(10_000, 4)| > 0 && Padded(10_000, 4)[0] == '1'
  {
    assert Padded(9, 1) == "9" && Padded(99, 2)[0] == '9' && Padded(999, 3)[0] == '9';
    assert Padded(1, 0) == "1" && Padded(10, 1)[0] == '1' && Padded(100, 2)[0] == '1' && Padded(1_000, 3)[0] == '1';
  }

  lemma LastDayOf9999()
    ensures NaiveDate(2_932_896).year == 9_999
  {
    Epoch10000();
    assert NaiveDate(2_932_897) == NextDay(NaiveDate(2_932_896));
    NaiveDateSums(2_932_896);
  }

  lemma FormatIsoStarts(a: i64)
    requires a >= 0
    ensures |FormatIso(a)| > 0 && |Padded(FieldsOf(a).y, 4)| > 0
    ensures FormatIso(a)[0] == Padded(FieldsOf(a).y, 4)[0]
  {
  }
}
