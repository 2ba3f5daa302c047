/** Calendar timestamps and the textual formats the ingestion layer parses:
    the primary `%m/%d/%Y %H:%M` format and, for the flexible re-parse, the
    ISO-like `YYYY-MM-DD HH:MM:SS` form. */
module Timestamps {
  import opened Wrappers
  import opened Decimal

  datatype DateTime = DateTime(year: int, month: int, day: int, hour: int, minute: int, second: int)

  /** Gregorian leap-year rule. */
  predicate IsLeapYear(y: int) {
    y % 4 == 0 && (y % 100 != 0 || y % 400 == 0)
  }

  function DaysInMonth(y: int, m: int): (d: int)
    requires 1 <= m <= 12
    ensures m == 2 && IsLeapYear(y) ==> d == 29
    ensures m == 2 && !IsLeapYear(y) ==> d == 28
    ensures m in {4, 6, 9, 11} ==> d == 30
    ensures m in {1, 3, 5, 7, 8, 10, 12} ==> d == 31
  {
    if m == 2 then (if IsLeapYear(y) then 29 else 28)
    else if m == 4 || m == 6 || m == 9 || m == 11 then 30
    else 31
  }

  /** A point in time Python's `datetime` can hold (years 1 to 9999). */
  predicate ValidDateTime(t: DateTime) {
    && 1 <= t.year <= 9999
    && 1 <= t.month <= 12
    && 1 <= t.day <= DaysInMonth(t.year, t.month)
    && 0 <= t.hour < 24
    && 0 <= t.minute < 60
    && 0 <= t.second < 60
  }

  // ---- lexing helpers -------------------------------------------------

  /** One or two leading digits, read greedily (strptime's `%m`, `%d`, `%H`, `%M`). */
  function Digits12(s: string): (r: Option<(nat, string)>)
    ensures r.Some? ==> r.value.0 < 100 && |r.value.1| < |s| && r.value.1 == s[|s| - |r.value.1|..]
  {
    if |s| >= 2 && IsDigit(s[0]) && IsDigit(s[1]) then Some((10 * DigitValue(s[0]) + DigitValue(s[1]), s[2..]))
    else if |s| >= 1 && IsDigit(s[0]) then Some((DigitValue(s[0]), s[1..]))
    else None
  }

  /** Exactly two leading digits. */
  function Digits2(s: string): (r: Option<(nat, string)>)
    ensures r.Some? ==> |s| >= 2 && r.value.0 < 100 && r.value.1 == s[2..]
  {
    if |s| >= 2 && IsDigit(s[0]) && IsDigit(s[1]) then Some((10 * DigitValue(s[0]) + DigitValue(s[1]), s[2..]))
    else None
  }

  /** Exactly four leading digits (strptime's `%Y`). */
  function Digits4(s: string): (r: Option<(nat, string)>)
    ensures r.Some? ==> |s| >= 4 && r.value.0 < 10000 && r.value.1 == s[4..]
  {
    if |s| >= 4 && IsDigit(s[0]) && IsDigit(s[1]) && IsDigit(s[2]) && IsDigit(s[3]) then
      Some((1000 * DigitValue(s[0]) + 100 * DigitValue(s[1]) + 10 * DigitValue(s[2]) + DigitValue(s[3]), s[4..]))
    else None
  }

  /** Whitespace as Python's `\s` matches it among ASCII characters: space,
      tab to carriage return, and the four separators 0x1C-0x1F. */
  predicate IsSpace(c: char) {
    c == ' ' || '\t' <= c <= '\r' || '\U{1C}' <= c <= '\U{1F}'
  }

  /** s without its leading whitespace. */
  function SkipSpaces(s: string): (r: string)
    ensures |r| <= |s|
    ensures r == [] || !IsSpace(r[0])
    decreases |s|
  {
    if |s| > 0 && IsSpace(s[0]) then SkipSpaces(s[1..]) else s
  }

  /** A run of one or more whitespace characters: strptime turns each space
      of the format into `\s+`. */
  function Whitespace(s: string): (r: Option<string>)
    ensures r.Some? <==> |s| > 0 && IsSpace(s[0])
    ensures r.Some? ==> r.value == SkipSpaces(s[1..])
  {
    if |s| > 0 && IsSpace(s[0]) then Some(SkipSpaces(s[1..])) else None
  }

  function Literal(s: string, c: char): (r: Option<string>)
    ensures r.Some? <==> |s| > 0 && s[0] == c
    ensures r.Some? ==> r.value == s[1..]
  {
    if |s| > 0 && s[0] == c then Some(s[1..]) else None
  }

  /** The calendar and clock range checks strptime applies once the fields are read. */
  function Checked(year: int, month: int, day: int, hour: int, minute: int, second: int): Option<DateTime> {
    var t := DateTime(year, month, day, hour, minute, second);
    if ValidDateTime(t) then Some(t) else None
  }

  // ---- the primary format ---------------------------------------------

  /** `pd.to_datetime(value, format='%m/%d/%Y %H:%M')` on one string:
      M/D/YYYY H:MM with one- or two-digit month, day, hour and minute, the
      date and the time separated by a run of whitespace. */
  function ParsePrimary(s: string): (r: Option<DateTime>)
    ensures r.Some? ==> ValidDateTime(r.value) && r.value.second == 0
  {
    var month :- Digits12(s);
    var s1 :- Literal(month.1, '/');
    var day :- Digits12(s1);
    var s2 :- Literal(day.1, '/');
    var year :- Digits4(s2);
    var s3 :- Whitespace(year.1);
    var hour :- Digits12(s3);
    var s4 :- Literal(hour.1, ':');
    var minute :- Digits12(s4);
    if minute.1 != [] then None
    else Checked(year.0, month.0, day.0, hour.0, minute.0, 0)
  }

  function Pad2(n: nat): (s: string)
    requires n < 100
  {
    [DigitChar(n / 10), DigitChar(n % 10)]
  }

  function Pad4(n: nat): (s: string)
    requires n < 10000
  {
    Pad2(n / 100) + Pad2(n % 100)
  }

  /** Text in the primary format for the given field values, written as in
      "1/12/2025 14:12": month, day and hour without leading zeros, a
      four-digit year, one space, a two-digit minute. */
  function PrimaryText(month: nat, day: nat, year: nat, hour: nat, minute: nat): string
    requires month < 100 && day < 100 && year < 10000 && hour < 100 && minute < 100
  {
    ShowNat(month) + ("/" + (ShowNat(day) + ("/" + (Pad4(year) + (" " + (ShowNat(hour) + (":" + Pad2(minute))))))))
  }

  /** The same text with any separator between the date and the time. */
  function SpacedText(month: nat, day: nat, year: nat, gap: string, hour: nat, minute: nat): string
    requires month < 100 && day < 100 && year < 10000 && hour < 100 && minute < 100
  {
    ShowNat(month) + ("/" + (ShowNat(day) + ("/" + (Pad4(year) + (gap + (ShowNat(hour) + (":" + Pad2(minute))))))))
  }

  function FormatPrimary(t: DateTime): string
    requires ValidDateTime(t)
  {
    PrimaryText(t.month, t.day, t.year, t.hour, t.minute)
  }

  // ---- the ISO-like format --------------------------------------------

  /** YYYY-MM-DD HH:MM:SS with two-digit fields: the subset of the flexible
      parser's inputs the model covers. */
  function ParseIso(s: string): (r: Option<DateTime>)
    ensures r.Some? ==> ValidDateTime(r.value)
  {
    var year :- Digits4(s);
    var s1 :- Literal(year.1, '-');
    var month :- Digits2(s1);
    var s2 :- Literal(month.1, '-');
    var day :- Digits2(s2);
    var s3 :- Literal(day.1, ' ');
    var hour :- Digits2(s3);
    var s4 :- Literal(hour.1, ':');
    var minute :- Digits2(s4);
    var s5 :- Literal(minute.1, ':');
    var second :- Digits2(s5);
    if second.1 != [] then None
    else Checked(year.0, month.0, day.0, hour.0, minute.0, second.0)
  }

  function FormatIso(t: DateTime): string
    requires ValidDateTime(t)
  {
    Pad4(t.year) + ("-" + (Pad2(t.month) + ("-" + (Pad2(t.day) + (" " + (Pad2(t.hour) + (":" + (Pad2(t.minute) + (":" + Pad2(t.second))))))))))
  }

  // ---- epoch arithmetic (what `pd.to_numeric` yields for a timestamp) ---

  /** Days from 1970-01-01 to the given proleptic Gregorian date. */
  function DaysFromCivil(y: int, m: int, d: int): int
    requires 1 <= m <= 12
  {
    var y' := if m <= 2 then y - 1 else y;
    var era := y' / 400;
    var yoe := y' - era * 400;
    var mp := (m + 9) % 12;
    var doy := (153 * mp + 2) / 5 + d - 1;
    var doe := yoe * 365 + yoe / 4 - yoe / 100 + doy;
    era * 146097 + doe - 719468
  }

  /** Nanoseconds since the Unix epoch, the int64 value pandas stores. */
  function EpochNanoseconds(t: DateTime): int
    requires 1 <= t.month <= 12
  {
    ((DaysFromCivil(t.year, t.month, t.day) * 24 + t.hour) * 60 + t.minute) * 60 * 1000000000
      + t.second * 1000000000
  }

  // ---- properties -----------------------------------------------------

  lemma Digits12Show(n: nat, rest: string)
    requires n < 100
    requires rest == [] || !IsDigit(rest[0])
    ensures Digits12(ShowNat(n) + rest) == Some((n, rest))
  {
    var s := ShowNat(n) + rest;
    if n >= 10 {
      assert ShowNat(n) == [DigitChar(n / 10), DigitChar(n % 10)];
      assert s[2..] == rest;
    } else {
      assert s[1..] == rest;
    }
  }

  lemma Digits12Pad2(n: nat, rest: string)
    requires n < 100
    requires rest == [] || !IsDigit(rest[0])
    ensures Digits12(Pad2(n) + rest) == Some((n, rest))
    ensures Digits2(Pad2(n) + rest) == Some((n, rest))
  {
    assert (Pad2(n) + rest)[2..] == rest;
  }

  lemma Digits4Pad4(n: nat, rest: string)
    requires n < 10000
    ensures Digits4(Pad4(n) + rest) == Some((n, rest))
  {
    var s := Pad4(n) + rest;
    var hi, lo := n / 100, n % 100;
    assert s[0] == DigitChar(hi / 10) && s[1] == DigitChar(hi % 10);
    assert s[2] == DigitChar(lo / 10) && s[3] == DigitChar(lo % 10);
    assert s[4..] == rest;
  }

  /** strptime's `\s+` consumes a whole run of whitespace. */
  lemma {:induction false} SkipSpacesRun(gap: string, rest: string)
    requires forall i :: 0 <= i < |gap| ==> IsSpace(gap[i])
    requires rest == [] || !IsSpace(rest[0])
    ensures SkipSpaces(gap + rest) == rest
    decreases |gap|
  {
    if gap == [] {
      assert gap + rest == rest;
    } else {
      assert (gap + rest)[1..] == gap[1..] + rest;
      SkipSpacesRun(gap[1..], rest);
    }
  }

  /** SkipSpaces drops a prefix: what it returns is a suffix of its input. */
  lemma {:induction false} SkipSpacesSuffix(s: string)
    ensures SkipSpaces(s) == s[|s| - |SkipSpaces(s)|..]
    decreases |s|
  {
    if |s| > 0 && IsSpace(s[0]) {
      SkipSpacesSuffix(s[1..]);
    }
  }

  lemma DigitsValueOne(x: string)
    requires |x| == 1 && IsDigit(x[0])
    ensures AllDigits(x) && DigitsValue(x) == DigitValue(x[0])
  {
    assert x[..0] == [];
  }

  lemma DigitsValueTwo(x: string)
    requires |x| == 2 && IsDigit(x[0]) && IsDigit(x[1])
    ensures AllDigits(x) && DigitsValue(x) == 10 * DigitValue(x[0]) + DigitValue(x[1])
  {
    DigitsValueOne(x[..1]);
  }

  lemma DigitsValueFour(x: string)
    requires |x| == 4 && AllDigits(x)
    ensures DigitsValue(x) == 1000 * DigitValue(x[0]) + 100 * DigitValue(x[1]) + 10 * DigitValue(x[2]) + DigitValue(x[3])
  {
    var x2, x3 := x[..2], x[..3];
    assert IsDigit(x[0]) && IsDigit(x[1]) && IsDigit(x[2]) && IsDigit(x[3]);
    DigitsValueTwo(x2);
    assert x3[..2] == x2;
    assert x[..3] == x3;
  }

  lemma Digits12Two(x: string, rest: string)
    requires |x| == 2 && IsDigit(x[0]) && IsDigit(x[1])
    ensures AllDigits(x) && Digits12(x + rest) == Some((DigitsValue(x), rest))
  {
    DigitsValueTwo(x);
    var s := x + rest;
    assert s[0] == x[0] && s[1] == x[1];
    assert s[2..] == rest;
  }

  lemma Digits12One(x: string, rest: string)
    requires |x| == 1 && IsDigit(x[0])
    requires rest == [] || !IsDigit(rest[0])
    ensures AllDigits(x) && Digits12(x + rest) == Some((DigitsValue(x), rest))
  {
    DigitsValueOne(x);
    var s := x + rest;
    assert s[0] == x[0];
    assert |s| >= 2 ==> s[1] == rest[0];
    assert s[1..] == rest;
  }

  /** A field of one or two digits is read as the value of those digits,
      leading zero or not, when no further digit follows. */
  lemma Digits12Field(x: string, rest: string)
    requires 1 <= |x| <= 2 && AllDigits(x)
    requires rest == [] || !IsDigit(rest[0])
    ensures Digits12(x + rest) == Some((DigitsValue(x), rest))
  {
    assert IsDigit(x[0]);
    if |x| == 2 {
      assert IsDigit(x[1]);
      Digits12Two(x, rest);
    } else {
      Digits12One(x, rest);
    }
  }

  /** Four digits are read as their value. */
  lemma Digits4Field(x: string, rest: string)
    requires |x| == 4 && AllDigits(x)
    ensures Digits4(x + rest) == Some((DigitsValue(x), rest))
  {
    DigitsValueFour(x);
    var s := x + rest;
    assert s[0] == x[0] && s[1] == x[1] && s[2] == x[2] && s[3] == x[3];
    assert s[4..] == rest;
  }

  /** The parser reads any spelling of the fields strptime accepts: month,
      day, hour and minute as one or two digits (so "01/12/2025 09:05" and
      "1/12/2025 14:5" alike), a four-digit year, and any whitespace run
      between the date and the time; only the range checks then decide. */
  lemma {:induction false} ParseFieldText(ms: string, ds: string, ys: string, gap: string, hs: string, ns: string)
    requires 1 <= |ms| <= 2 && AllDigits(ms) && 1 <= |ds| <= 2 && AllDigits(ds)
    requires |ys| == 4 && AllDigits(ys)
    requires 1 <= |hs| <= 2 && AllDigits(hs) && 1 <= |ns| <= 2 && AllDigits(ns)
    requires |gap| > 0 && forall i :: 0 <= i < |gap| ==> IsSpace(gap[i])
    ensures ParsePrimary(ms + ("/" + (ds + ("/" + (ys + (gap + (hs + (":" + ns)))))))) ==
            Checked(DigitsValue(ys), DigitsValue(ms), DigitsValue(ds), DigitsValue(hs), DigitsValue(ns), 0)
  {
    var tail4 := ":" + ns;
    var tail3 := hs + tail4;
    var tail2 := gap + tail3;
    var tail1 := "/" + (ys + tail2);
    var tail0 := "/" + (ds + tail1);
    Digits12Field(ms, tail0);
    Digits12Field(ds, tail1);
    Digits4Field(ys, tail2);
    assert tail3[0] == hs[0];
    assert tail2[1..] == gap[1..] + tail3;
    SkipSpacesRun(gap[1..], tail3);
    assert Whitespace(tail2) == Some(tail3);
    Digits12Field(hs, tail4);
    assert ns + [] == ns;
    Digits12Field(ns, []);
  }

  /** The parser reads the fields back exactly from text whose date and time
      are separated by any run of whitespace, and then applies only the
      calendar and clock range checks. */
  lemma {:induction false} ParseSpacedText(month: nat, day: nat, year: nat, gap: string, hour: nat, minute: nat)
    requires month < 100 && day < 100 && year < 10000 && hour < 100 && minute < 100
    requires |gap| > 0 && forall i :: 0 <= i < |gap| ==> IsSpace(gap[i])
    ensures ParsePrimary(SpacedText(month, day, year, gap, hour, minute)) == Checked(year, month, day, hour, minute, 0)
  {
    var tail4 := ":" + Pad2(minute);
    var tail3 := ShowNat(hour) + tail4;
    var tail2 := gap + tail3;
    var yearText := Pad4(year) + tail2;
    var tail1 := "/" + yearText;
    var dayText := ShowNat(day) + tail1;
    var tail0 := "/" + dayText;
    assert SpacedText(month, day, year, gap, hour, minute) == ShowNat(month) + tail0;
    Digits12Show(month, tail0);
    Digits12Show(day, tail1);
    Digits4Pad4(year, tail2);
    ShowNatDigits(hour);
    assert tail3[0] == ShowNat(hour)[0];
    assert tail2[1..] == gap[1..] + tail3;
    SkipSpacesRun(gap[1..], tail3);
    assert Whitespace(tail2) == Some(tail3);
    Digits12Show(hour, tail4);
    assert Pad2(minute) + [] == Pad2(minute);
    Digits12Pad2(minute, []);
  }

  /** With the single space of the primary format in particular. */
  lemma ParsePrimaryText(month: nat, day: nat, year: nat, hour: nat, minute: nat)
    requires month < 100 && day < 100 && year < 10000 && hour < 100 && minute < 100
    ensures ParsePrimary(PrimaryText(month, day, year, hour, minute)) == Checked(year, month, day, hour, minute, 0)
  {
    assert PrimaryText(month, day, year, hour, minute) == SpacedText(month, day, year, " ", hour, minute);
    ParseSpacedText(month, day, year, " ", hour, minute);
  }

  /** Every timestamp written in the primary format reads back as itself. */
  lemma PrimaryRoundTrip(t: DateTime)
    requires ValidDateTime(t) && t.second == 0
    ensures ParsePrimary(FormatPrimary(t)) == Some(t)
  {
    ParsePrimaryText(t.month, t.day, t.year, t.hour, t.minute);
  }

  /** Every timestamp written in the ISO-like format reads back as itself. */
  lemma {:induction false} IsoRoundTrip(t: DateTime)
    requires ValidDateTime(t)
    ensures ParseIso(FormatIso(t)) == Some(t)
  {
    var t5 := ":" + Pad2(t.second);
    var t4 := Pad2(t.minute) + t5;
    var t3 := ":" + t4;
    var t2 := Pad2(t.hour) + t3;
    var t1 := " " + t2;
    var d := Pad2(t.day) + t1;
    var t0 := "-" + d;
    var m := Pad2(t.month) + t0;
    var y := "-" + m;
    assert FormatIso(t) == Pad4(t.year) + y;
    Digits4Pad4(t.year, y);
    Digits12Pad2(t.month, t0);
    Digits12Pad2(t.day, t1);
    Digits12Pad2(t.hour, t3);
    Digits12Pad2(t.minute, t5);
    assert Pad2(t.second) + [] == Pad2(t.second);
    Digits12Pad2(t.second, []);
  }

  /** The epoch itself is day 0, and consecutive days of a month are
      consecutive day numbers. */
  lemma EpochOrigin(y: int, m: int, d: int)
    requires 1 <= m <= 12
    ensures DaysFromCivil(1970, 1, 1) == 0
    ensures EpochNanoseconds(DateTime(1970, 1, 1, 0, 0, 0)) == 0
    ensures DaysFromCivil(y, m, d + 1) == DaysFromCivil(y, m, d) + 1
  {
  }

  /** The day count at the start of the March-based year y' that
      DaysFromCivil uses, before its shift to the epoch. */
  function MarchYearStart(y': int): int {
    var era := y' / 400;
    var yoe := y' - era * 400;
    era * 146097 + yoe * 365 + yoe / 4 - yoe / 100
  }

  /** Days from March 1 to the first of month m within a March-based year. */
  function MonthOffset(m: int): int
    requires 1 <= m <= 12
  {
    (153 * ((m + 9) % 12) + 2) / 5
  }

  lemma DaysFromCivilSplit(y: int, m: int, d: int)
    requires 1 <= m <= 12
    ensures DaysFromCivil(y, m, d) == MarchYearStart(if m <= 2 then y - 1 else y) + MonthOffset(m) + d - 1 - 719468
  {
  }

  /** Within a March-based year, month m + 1 starts DaysInMonth(y, m) days
      after month m (January and February belong to the year before). */
  lemma MonthOffsetStep(y: int, m: int)
    requires 1 <= m <= 12 && m != 2
    ensures MonthOffset(if m == 12 then 1 else m + 1) == MonthOffset(m) + DaysInMonth(y, m)
  {
    if m == 1 { assert MonthOffset(2) == 337 && MonthOffset(1) == 306; }
    else if m == 3 { assert MonthOffset(4) == 31 && MonthOffset(3) == 0; }
    else if m == 4 { assert MonthOffset(5) == 61 && MonthOffset(4) == 31; }
    else if m == 5 { assert MonthOffset(6) == 92 && MonthOffset(5) == 61; }
    else if m == 6 { assert MonthOffset(7) == 122 && MonthOffset(6) == 92; }
    else if m == 7 { assert MonthOffset(8) == 153 && MonthOffset(7) == 122; }
    else if m == 8 { assert MonthOffset(9) == 184 && MonthOffset(8) == 153; }
    else if m == 9 { assert MonthOffset(10) == 214 && MonthOffset(9) == 184; }
    else if m == 10 { assert MonthOffset(11) == 245 && MonthOffset(10) == 214; }
    else if m == 11 { assert MonthOffset(12) == 275 && MonthOffset(11) == 245; }
    else { assert MonthOffset(1) == 306 && MonthOffset(12) == 275; }
  }

  lemma LeapCount(k: int)
    requires 1 <= k < 400
    ensures k / 4 - (k - 1) / 4 == (if k % 4 == 0 then 1 else 0)
    ensures k / 100 - (k - 1) / 100 == (if k % 100 == 0 then 1 else 0)
  {
  }

  lemma YearOfEra(y: int)
    ensures y % 4 == (y % 400) % 4 && y % 100 == (y % 400) % 100
  {
    var e, r := y / 400, y % 400;
    var q4, q100 := r / 4, r / 100;
    assert r == 4 * q4 + r % 4 && r == 100 * q100 + r % 100;
    assert y == 4 * (100 * e + q4) + r % 4;
    assert y / 4 == 100 * e + q4;
    assert y == 100 * (4 * e + q100) + r % 100;
    assert y / 100 == 4 * e + q100;
  }

  /** The March-based year that ends in February of year y is 366 days long
      exactly when y is a leap year. */
  lemma MarchYearLength(y: int)
    ensures MarchYearStart(y) - MarchYearStart(y - 1) == if IsLeapYear(y) then 366 else 365
  {
    var era, yoe := y / 400, y % 400;
    assert y - era * 400 == yoe;
    YearOfEra(y);
    if yoe == 0 {
      assert (y - 1) / 400 == era - 1;
      assert (y - 1) - (era - 1) * 400 == 399;
      assert MarchYearStart(y - 1) == (era - 1) * 146097 + 399 * 365 + 99 - 3;
    } else {
      assert (y - 1) / 400 == era;
      assert (y - 1) - era * 400 == yoe - 1;
      LeapCount(yoe);
      assert MarchYearStart(y - 1) == era * 146097 + (yoe - 1) * 365 + (yoe - 1) / 4 - (yoe - 1) / 100;
    }
  }

  /** The last day of a month and the first day of the next one have
      consecutive day numbers, across a year's end too. */
  lemma NextMonthDay(y: int, m: int)
    requires 1 <= m <= 12
    ensures m < 12 ==> DaysFromCivil(y, m + 1, 1) == DaysFromCivil(y, m, DaysInMonth(y, m)) + 1
    ensures m == 12 ==> DaysFromCivil(y + 1, 1, 1) == DaysFromCivil(y, 12, 31) + 1
  {
    if m == 2 {
      DaysFromCivilSplit(y, 3, 1);
      DaysFromCivilSplit(y, 2, DaysInMonth(y, 2));
      assert MonthOffset(3) == 0 && MonthOffset(2) == 337;
      MarchYearLength(y);
    } else if m < 12 {
      DaysFromCivilSplit(y, m + 1, 1);
      DaysFromCivilSplit(y, m, DaysInMonth(y, m));
      MonthOffsetStep(y, m);
    } else {
      DaysFromCivilSplit(y + 1, 1, 1);
      DaysFromCivilSplit(y, 12, 31);
      MonthOffsetStep(y, 12);
    }
  }

  /** February 29 is a valid day exactly in leap years. */
  lemma LeapDay(y: int)
    requires 1 <= y <= 9999
    ensures ValidDateTime(DateTime(y, 2, 29, 0, 0, 0)) <==> IsLeapYear(y)
  {
  }
}
