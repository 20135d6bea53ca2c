/** `format_iso` (src/routes/profiles.rs): Unix seconds as an ISO 8601 UTC string. */
module IsoFormat {
  import opened MachineInts
  import opened Wrappers
  import opened Calendar
  import opened Decimal

  // ---------- the format ----------

  /** A padded number, a separator and what follows. */
  function Field(n: nat, w: nat, sep: char, rest: string): string {
    Padded(n, w) + [sep] + rest
  }

  function FormatCivil(y: nat, m: nat, d: nat, hh: nat, mm: nat, ss: nat): string {
    Field(y, 4, '-', Field(m, 2, '-', Field(d, 2, 'T', Field(hh, 2, ':', Field(mm, 2, ':', Field(ss, 2, 'Z', ""))))))
  }

  /** `secs.max(0) as u64` */
  function Clamp(secs: i64): u64 {
    if secs < 0 then 0 else secs as u64
  }

  function FormatIso(secs: i64): string {
    var c := SecsToCivil(Clamp(secs));
    SecsToCivilIsNaive(Clamp(secs));
    FormatCivil(c.year as int, c.month as int, c.day as int, c.hour as int, c.minute as int, c.second as int)
  }

  // ---------- parsing it back ----------

  function ReadField(s: string, sep: char): Option<(nat, string)> {
    var (n, rest) := ReadDigits(s, 0);
    if rest != "" && rest[0] == sep then Some((n, rest[1..])) else None
  }

  lemma FieldReads(n: nat, w: nat, sep: char, rest: string)
    requires !IsDigit(sep)
    ensures ReadField(Field(n, w, sep, rest), sep) == Some((n, rest))
  {
    PaddedValue(n, w);
    ReadDigitsStops(Padded(n, w), [sep] + rest, 0);
    assert Field(n, w, sep, rest) == Padded(n, w) + ([sep] + rest);
    assert ([sep] + rest)[1..] == rest;
  }

  /** Reads `year-month-dayThour:minute:secondZ` and sums the year, month and day lengths. */
  function ParseIso(s: string): Option<int> {
    var f1 := ReadField(s, '-');
    if f1.None? then None else
    var f2 := ReadField(f1.value.1, '-');
    if f2.None? then None else
    var f3 := ReadField(f2.value.1, 'T');
    if f3.None? then None else
    var f4 := ReadField(f3.value.1, ':');
    if f4.None? then None else
    var f5 := ReadField(f4.value.1, ':');
    if f5.None? then None else
    var f6 := ReadField(f5.value.1, 'Z');
    if f6.None? || f6.value.1 != "" then None else
    var t := Date(f1.value.0, f2.value.0, f3.value.0);
    if t.year < 1970 || !(1 <= t.month <= 12) then None
    else Some(SummedDays(t) * 86_400 + f4.value.0 * 3600 + f5.value.0 * 60 + f6.value.0)
  }

  lemma FormatCivilParses(y: nat, m: nat, d: nat, hh: nat, mm: nat, ss: nat)
    requires y >= 1970 && 1 <= m <= 12
    ensures ParseIso(FormatCivil(y, m, d, hh, mm, ss)) ==
        Some(SummedDays(Date(y, m, d)) * 86_400 + hh * 3600 + mm * 60 + ss)
  {
    hide Padded, ReadDigits, ReadField, Field, DaysInYearsBefore, DaysInMonthsBefore;
    var s6 := Field(ss, 2, 'Z', "");
    var s5 := Field(mm, 2, ':', s6);
    var s4 := Field(hh, 2, ':', s5);
    var s3 := Field(d, 2, 'T', s4);
    var s2 := Field(m, 2, '-', s3);
    FieldReads(ss, 2, 'Z', "");
    FieldReads(mm, 2, ':', s6);
    FieldReads(hh, 2, ':', s5);
    FieldReads(d, 2, 'T', s4);
    FieldReads(m, 2, '-', s3);
    FieldReads(y, 4, '-', s2);
  }

  /** The format is undone by the parser for every i64; negative instants print as the epoch. */
  lemma {:induction false} FormatIsoParses(secs: i64)
    ensures ParseIso(FormatIso(secs)) == Some(if secs < 0 then 0 else secs as int)
  {
    hide SecsToCivil, FormatCivil, ParseIso, DaysInYearsBefore, DaysInMonthsBefore, NaiveDate;
    var c := SecsToCivil(Clamp(secs));
    SecsToCivilIsNaive(Clamp(secs));
    FormatCivilParses(c.year as int, c.month as int, c.day as int, c.hour as int, c.minute as int, c.second as int);
  }
}
