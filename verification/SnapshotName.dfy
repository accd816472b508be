/**
  The snapshot-name codec (src/shared/snapshot-name.ts over src/shared/format.ts)
  and the classification of archive entries by name.
 */
module SnapshotName {
  import opened Prelude
  import opened Calendar

  // ---- formatting --------------------------------------------------------

  function DigitChar(d: int): char
    requires 0 <= d < 10
  {
    (d + '0' as int) as char
  }

  function Decimal(n: nat): string {
    if n < 10 then [DigitChar(n)] else Decimal(n / 10) + [DigitChar(n % 10)]
  }

  function Zeros(n: nat): (s: string)
    ensures |s| == n
  {
    seq(n, _ => '0')
  }

  /** `String(value).padStart(width, "0")`. */
  function Pad(value: int, width: nat): string {
    var s := if value < 0 then "-" + Decimal(-value) else Decimal(value);
    if |s| >= width then s else Zeros(width - |s|) + s
  }

  /** The six UTC fields of an instant, the month counted from 1 as it is written. */
  datatype Fields = Fields(year: int, month: int, day: int, hour: int, minute: int, second: int)

  function FieldsOf(t: int): Fields {
    var c := CivilOf(DayOf(t));
    Fields(c.year, c.month + 1, c.day, t / HOUR_MS % 24, t / MINUTE_MS % 60, t / SECOND_MS % 60)
  }

  function WriteUtc(f: Fields): string {
    Pad(f.year, 4) + "-" + Pad(f.month, 2) + "-" + Pad(f.day, 2)
    + "T" + Pad(f.hour, 2) + ":" + Pad(f.minute, 2) + ":" + Pad(f.second, 2) + "Z"
  }

  function FormatUtc(t: int): string {
    WriteUtc(FieldsOf(t))
  }

  function RemoveColons(s: string): string {
    if s == "" then "" else (if s[0] == ':' then "" else [s[0]]) + RemoveColons(s[1..])
  }

  function Format(t: int): string {
    RemoveColons(FormatUtc(t))
  }

  // ---- parsing -----------------------------------------------------------

  predicate IsDigit(c: char) { '0' <= c <= '9' }

  predicate AllDigits(s: string) { forall i :: 0 <= i < |s| ==> IsDigit(s[i]) }

  /** `^(\d{4})-(\d{2})-(\d{2})T(\d{2})(\d{2})(\d{2})Z$` */
  predicate MatchesPattern(name: string) {
    && |name| == 18
    && AllDigits(name[0..4]) && name[4] == '-'
    && AllDigits(name[5..7]) && name[7] == '-'
    && AllDigits(name[8..10]) && name[10] == 'T'
    && AllDigits(name[11..17]) && name[17] == 'Z'
  }

  /** `Number` of a string of digits. */
  function Number(s: string): (n: int)
    requires AllDigits(s)
    ensures n >= 0
  {
    if s == "" then 0 else Number(s[..|s| - 1]) * 10 + (s[|s| - 1] as int - '0' as int)
  }

  function WrittenFields(name: string): Fields
    requires MatchesPattern(name)
  {
    assert AllDigits(name[11..13]) by { assert forall i :: 0 <= i < 2 ==> name[11..13][i] == name[11..17][i]; }
    assert AllDigits(name[13..15]) by { assert forall i :: 0 <= i < 2 ==> name[13..15][i] == name[11..17][i + 2]; }
    assert AllDigits(name[15..17]) by { assert forall i :: 0 <= i < 2 ==> name[15..17][i] == name[11..17][i + 4]; }
    Fields(Number(name[0..4]), Number(name[5..7]), Number(name[8..10]),
           Number(name[11..13]), Number(name[13..15]), Number(name[15..17]))
  }

  function InstantOf(f: Fields): int {
    UtcMs(f.year, f.month - 1, f.day, f.hour, f.minute, f.second)
  }

  function Parse(name: string): Option<int> {
    if !MatchesPattern(name) then None
    else
      var t := InstantOf(WrittenFields(name));
      if Format(t) == name then Some(t) else None
  }

  // ---- the written shape -------------------------------------------------

  function D2(n: int): (s: string)
    requires 0 <= n < 100
    ensures |s| == 2 && AllDigits(s)
  {
    [DigitChar(n / 10), DigitChar(n % 10)]
  }

  function D4(n: int): (s: string)
    requires 0 <= n < 10_000
    ensures |s| == 4 && AllDigits(s)
  {
    D2(n / 100) + D2(n % 100)
  }

  predicate Writable(f: Fields) {
    && 0 <= f.year < 10_000 && 0 <= f.month < 100 && 0 <= f.day < 100
    && 0 <= f.hour < 100 && 0 <= f.minute < 100 && 0 <= f.second < 100
  }

  /** The eighteen characters a writable set of fields is spelt with. */
  function Stamp(f: Fields): (s: string)
    requires Writable(f)
    ensures |s| == 18
  {
    D4(f.year) + "-" + D2(f.month) + "-" + D2(f.day) + "T" + D2(f.hour) + D2(f.minute) + D2(f.second) + "Z"
  }

  lemma {:induction false} Pad2(n: int)
    requires 0 <= n < 100
    ensures Pad(n, 2) == D2(n)
  {
    if n < 10 {
      assert Decimal(n) == [DigitChar(n)];
      assert Zeros(1) == "0";
    } else {
      assert Decimal(n) == Decimal(n / 10) + [DigitChar(n % 10)];
    }
  }

  lemma {:induction false} DecimalStep(q: int, d: int)
    requires q >= 1 && 0 <= d < 10
    ensures Decimal(10 * q + d) == Decimal(q) + [DigitChar(d)]
  {
    DivIs(10 * q + d, 10, q, d);
  }

  lemma {:induction false} Pad4(n: int)
    requires 0 <= n < 10_000
    ensures Pad(n, 4) == D4(n)
  {
    var a, b, c, d := n / 1000, n / 100 % 10, n / 10 % 10, n % 10;
    FourDigits(n);
    PadDigits(a, b, c, d);
  }

  lemma {:induction false} PadDigits(a: int, b: int, c: int, d: int)
    requires 0 <= a < 10 && 0 <= b < 10 && 0 <= c < 10 && 0 <= d < 10
    ensures Pad(10 * (10 * (10 * a + b) + c) + d, 4) == [DigitChar(a), DigitChar(b), DigitChar(c), DigitChar(d)]
  {
    var q1 := 10 * a + b;
    var q2 := 10 * q1 + c;
    var n := 10 * q2 + d;
    var digits :=
      if a >= 1 then [DigitChar(a), DigitChar(b), DigitChar(c), DigitChar(d)]
      else if b >= 1 then [DigitChar(b), DigitChar(c), DigitChar(d)]
      else if c >= 1 then [DigitChar(c), DigitChar(d)]
      else [DigitChar(d)];
    if q1 >= 10 { DecimalStep(a, b); }
    if q2 >= 10 { DecimalStep(q1, c); }
    if n >= 10 { DecimalStep(q2, d); }
    assert Decimal(n) == digits;
    if a == 0 { PadZeros(n, digits); }
  }

  lemma {:induction false} PadZeros(n: nat, digits: string)
    requires Decimal(n) == digits && |digits| < 4
    ensures |Pad(n, 4)| == 4
    ensures forall i :: 0 <= i < 4 ==> Pad(n, 4)[i] == if i < 4 - |digits| then '0' else digits[i - 4 + |digits|]
  {
  }

  lemma {:induction false} FourDigits(n: int)
    requires 0 <= n < 10_000
    ensures var a, b, c, d := n / 1000, n / 100 % 10, n / 10 % 10, n % 10;
            && n == 10 * (10 * (10 * a + b) + c) + d
            && 0 <= a < 10
            && D4(n) == [DigitChar(a), DigitChar(b), DigitChar(c), DigitChar(d)]
  {
    var h, l := n / 100, n % 100;
    assert n == 100 * h + l && h == 10 * (h / 10) + h % 10 && l == 10 * (l / 10) + l % 10;
    DivIs(n, 1000, h / 10, 100 * (h % 10) + l);
    DivIs(n, 10, 10 * h + l / 10, l % 10);
    DivIs(10 * h + l / 10, 10, h, l / 10);
  }

  lemma {:induction false} RemoveColonsConcat(a: string, b: string)
    ensures RemoveColons(a + b) == RemoveColons(a) + RemoveColons(b)
  {
    if a == "" {
      assert a + b == b;
    } else {
      assert (a + b)[1..] == a[1..] + b;
      RemoveColonsConcat(a[1..], b);
    }
  }

  lemma NoColons(s: string)
    requires ':' !in s
    ensures RemoveColons(s) == s
  {
  }

  lemma {:induction false} FieldsWritable(t: int)
    ensures var f := FieldsOf(t);
            1 <= f.month <= 12 && 1 <= f.day <= 31 && 0 <= f.hour < 24 && 0 <= f.minute < 60 && 0 <= f.second < 60
  {
  }

  /** Stripping the colons from a written timestamp leaves everything else in place. */
  lemma {:induction false} CompactStrings(head: string, minute: string, second: string)
    requires ':' !in head && ':' !in minute && ':' !in second
    ensures RemoveColons(head + ":" + minute + ":" + second + "Z") == head + minute + second + "Z"
  {
    var tail := second + "Z";
    NoColons(tail);
    DropColon(minute, tail);
    DropColon(head, minute + ":" + tail);
    assert head + ":" + minute + ":" + second + "Z" == head + ":" + (minute + ":" + tail);
  }

  lemma {:induction false} DropColon(a: string, b: string)
    requires ':' !in a
    ensures RemoveColons(a + ":" + b) == a + RemoveColons(b)
  {
    RemoveColonsConcat(a + ":", b);
    RemoveColonsConcat(a, ":");
    NoColons(a);
    assert RemoveColons(":") == "" by { assert ":"[1..] == ""; }
  }

  /** The colon-free text the formatter leaves, whatever the year is written as. */
  lemma {:induction false} WriteCompacts(f: Fields, year: string)
    requires 0 <= f.month < 100 && 0 <= f.day < 100 && 0 <= f.hour < 100 && 0 <= f.minute < 100 && 0 <= f.second < 100
    requires year == Pad(f.year, 4) && ':' !in year
    ensures RemoveColons(WriteUtc(f)) ==
            year + "-" + D2(f.month) + "-" + D2(f.day) + "T" + D2(f.hour) + D2(f.minute) + D2(f.second) + "Z"
  {
    Pad2(f.month); Pad2(f.day); Pad2(f.hour); Pad2(f.minute); Pad2(f.second);
    var head := year + "-" + Pad(f.month, 2) + "-" + Pad(f.day, 2) + "T" + Pad(f.hour, 2);
    assert ':' !in head;
    CompactStrings(head, Pad(f.minute, 2), Pad(f.second, 2));
  }

  /** In years 0..9999 the formatter writes exactly the stamp of the instant's fields. */
  lemma {:induction false} FormatIsStamp(t: int)
    requires 0 <= YearOf(t) <= 9999
    ensures Writable(FieldsOf(t)) && Format(t) == Stamp(FieldsOf(t))
  {
    FieldsWritable(t);
    Pad4(FieldsOf(t).year);
    WriteCompacts(FieldsOf(t), D4(FieldsOf(t).year));
  }

  lemma {:induction false} NumberD2(n: int)
    requires 0 <= n < 100
    ensures Number(D2(n)) == n
  {
    var s := D2(n);
    assert s[..1][..0] == "";
    assert Number(s[..1]) == n / 10;
    assert n == 10 * (n / 10) + n % 10;
  }

  lemma {:induction false} NumberD4(n: int)
    requires 0 <= n < 10_000
    ensures Number(D4(n)) == n
  {
    var s := D4(n);
    assert s[..3][..2] == D2(n / 100);
    NumberD2(n / 100);
    assert s[2] == DigitChar(n % 100 / 10) && s[3] == DigitChar(n % 100 % 10);
    assert Number(s[..3]) == n / 100 * 10 + n % 100 / 10;
  }

  /** A stamp reads back as the fields it was written from. */
  lemma {:induction false} StampReadsBack(f: Fields)
    requires Writable(f)
    ensures MatchesPattern(Stamp(f)) && WrittenFields(Stamp(f)) == f
  {
    var s := Stamp(f);
    assert s[0..4] == D4(f.year) && s[5..7] == D2(f.month) && s[8..10] == D2(f.day);
    assert s[11..13] == D2(f.hour) && s[13..15] == D2(f.minute) && s[15..17] == D2(f.second);
    assert s[11..17] == D2(f.hour) + D2(f.minute) + D2(f.second);
    NumberD4(f.year);
    NumberD2(f.month); NumberD2(f.day); NumberD2(f.hour); NumberD2(f.minute); NumberD2(f.second);
  }

  // ---- exactness ---------------------------------------------------------

  /** The instants a snapshot name can denote: whole seconds of years 0100 to 9999. */
  predicate Nameable(t: int) {
    t % SECOND_MS == 0 && 100 <= YearOf(t) <= 9999
  }

  lemma {:induction false} TimeOfDay(t: int)
    ensures t / SECOND_MS * SECOND_MS ==
            DayOf(t) * DAY_MS + t / HOUR_MS % 24 * HOUR_MS + t / MINUTE_MS % 60 * MINUTE_MS + t / SECOND_MS % 60 * SECOND_MS
  {
    var s := t / SECOND_MS;
    assert t / MINUTE_MS == s / 60 && t / HOUR_MS == s / 3_600 && t / DAY_MS == s / 86_400;
    var m := s / 60;
    assert s / 3_600 == m / 60 && s / 86_400 == m / 1_440;
    var h := m / 60;
    assert m / 1_440 == h / 24;
  }

  /** From year 100 on, the fields of an instant give back its whole seconds. */
  lemma {:induction false} InstantOfFields(t: int)
    requires YearOf(t) >= 100
    ensures InstantOf(FieldsOf(t)) == t / SECOND_MS * SECOND_MS
  {
    CivilUtcDay(CivilOf(DayOf(t)));
    TimeOfDay(t);
  }

  lemma {:induction false} CivilUtcDay(c: Civil)
    requires ValidCivil(c) && c.year >= 100
    ensures UtcDay(c.year, c.month, c.day) == DayNumber(c.year, c.month, c.day)
  {
    DivIs(c.month, 12, 0, c.month);
  }

  /** Formatting looks at whole seconds only. */
  lemma {:induction false} FormatTruncates(t: int)
    ensures FieldsOf(t / SECOND_MS * SECOND_MS) == FieldsOf(t)
    ensures Format(t / SECOND_MS * SECOND_MS) == Format(t)
    ensures YearOf(t / SECOND_MS * SECOND_MS) == YearOf(t)
  {
    UnitIgnoresSubseconds(t, 1);
    UnitIgnoresSubseconds(t, 60);
    UnitIgnoresSubseconds(t, 3_600);
    UnitIgnoresSubseconds(t, 86_400);
  }

  lemma {:induction false} DecimalLength(n: nat)
    requires n >= 10_000
    ensures |Decimal(n)| >= 5
  {
    assert n / 10 >= 1000 && n / 10 / 10 >= 100 && n / 10 / 10 / 10 >= 10;
    assert |Decimal(n / 10 / 10 / 10)| >= 2;
    assert |Decimal(n / 10 / 10)| >= 3;
    assert |Decimal(n / 10)| >= 4;
  }

  lemma DecimalHasNoColon(n: nat)
    ensures ':' !in Decimal(n)
  {
  }

  /** Years past 9999 never format to the eighteen characters of a name. */
  lemma {:induction false} LateYearsAreLonger(f: Fields)
    requires f.year > 9999
    requires 0 <= f.month < 100 && 0 <= f.day < 100 && 0 <= f.hour < 100 && 0 <= f.minute < 100 && 0 <= f.second < 100
    ensures |RemoveColons(WriteUtc(f))| > 18
  {
    DecimalLength(f.year);
    DecimalHasNoColon(f.year);
    WriteCompacts(f, Decimal(f.year));
  }

  lemma {:induction false} YearAtLeast(day: int, year: int)
    requires DayFromYear(year) <= day
    ensures CivilOf(day).year >= year
  {
    YearContains(day, CivilOf(day).year, year);
  }

  /** However the written fields overflow, the day is at most a year early. */
  lemma {:induction false} UtcDayAtLeast(f: Fields)
    requires Writable(f)
    ensures UtcDay(f.year, f.month - 1, f.day) >= DayFromYear(RemapYear(f.year) - 1)
  {
    var y := RemapYear(f.year);
    var year, month := y + (f.month - 1) / 12, (f.month - 1) % 12;
    MonthsIncrease(year, 0, month);
    if month == 0 {
      YearsIncrease(y, year);
      YearStep(y - 1);
    } else {
      YearsIncrease(y - 1, year);
    }
  }

  lemma {:induction false} InstantYear(f: Fields)
    requires Writable(f)
    ensures YearOf(InstantOf(f)) >= RemapYear(f.year) - 1
  {
    UtcDayAtLeast(f);
    YearAtLeast(DayOf(InstantOf(f)), RemapYear(f.year) - 1);
  }

  /**
    The parser accepts exactly the formatted whole seconds of years 0100 to
    9999: overflowing fields (month 13, February 30th, hour 25) and years
    0000 to 0099 fail its round trip.
   */
  lemma {:induction false} ParseIsExact(name: string, t: int)
    ensures Parse(name) == Some(t) <==> Nameable(t) && name == Format(t)
  {
    if Nameable(t) && name == Format(t) {
      NameableParses(t);
    }
    if Parse(name) == Some(t) {
      ParsedIsNameable(name, t);
    }
  }

  lemma {:induction false} NameableParses(t: int)
    requires Nameable(t)
    ensures Parse(Format(t)) == Some(t)
  {
    var f := FieldsOf(t);
    FormatIsStamp(t);
    StampReadsBack(f);
    InstantOfFields(t);
    assert t / SECOND_MS * SECOND_MS == t;
    assert WrittenFields(Format(t)) == f && InstantOf(f) == t;
  }

  lemma {:induction false} ParsedIsNameable(name: string, t: int)
    requires Parse(name) == Some(t)
    ensures Nameable(t)
  {
    var f := WrittenFields(name);
    FieldsRange(name);
    InstantYear(f);
    FieldsWritable(t);
    if YearOf(t) > 9999 {
      LateYearsAreLonger(FieldsOf(t));
      assert false;
    }
    FormatIsStamp(t);
    StampReadsBack(FieldsOf(t));
    WholeSeconds(f);
  }

  lemma {:induction false} WholeSeconds(f: Fields)
    ensures InstantOf(f) % SECOND_MS == 0
  {
    var seconds := UtcDay(f.year, f.month - 1, f.day) * 86_400 + f.hour * 3_600 + f.minute * 60 + f.second;
    DivIs(InstantOf(f), SECOND_MS, seconds, 0);
  }

  lemma {:induction false} FieldsRange(name: string)
    requires MatchesPattern(name)
    ensures Writable(WrittenFields(name))
  {
    NumberRange2(name[5..7]); NumberRange2(name[8..10]);
    NumberRange4(name[0..4]);
    var time := name[11..17];
    assert name[11..13] == time[0..2];
    assert name[13..15] == time[2..4];
    assert name[15..17] == time[4..6];
    NumberRange2(name[11..13]); NumberRange2(name[13..15]); NumberRange2(name[15..17]);
  }

  lemma {:induction false} NumberRange2(s: string)
    requires |s| == 2 && AllDigits(s)
    ensures Number(s) < 100
  {
    assert Number(s[..1][..0]) == 0;
    assert Number(s[..1]) <= 9;
  }

  lemma {:induction false} NumberRange4(s: string)
    requires |s| == 4 && AllDigits(s)
    ensures Number(s) < 10_000
  {
    NumberRange2(s[..2]);
    assert s[..3][..2] == s[..2];
    assert Number(s[..3]) < 1000;
  }

  /** Round trip from instants: a name gives its instant back to the second. */
  lemma {:induction false} FormatParses(t: int)
    requires 100 <= YearOf(t) <= 9999
    ensures Parse(Format(t)) == Some(t / SECOND_MS * SECOND_MS)
  {
    var whole := t / SECOND_MS * SECOND_MS;
    FormatTruncates(t);
    DivIs(whole, SECOND_MS, t / SECOND_MS, 0);
    ParseIsExact(Format(t), whole);
  }

  // ---- lexical order -----------------------------------------------------

  /** JavaScript's `<` on strings. */
  predicate LexLess(a: string, b: string) {
    b != "" && (a == "" || a[0] < b[0] || (a[0] == b[0] && LexLess(a[1..], b[1..])))
  }

  /** Equal-length prefixes decide first. */
  lemma {:induction false} LexConcat(a: string, c: string, b: string, d: string)
    requires |a| == |b|
    ensures LexLess(a + c, b + d) <==> LexLess(a, b) || (a == b && LexLess(c, d))
  {
    if a == "" {
      assert a + c == c && b + d == d;
    } else {
      assert (a + c)[1..] == a[1..] + c && (b + d)[1..] == b[1..] + d;
      LexConcat(a[1..], c, b[1..], d);
      assert a == [a[0]] + a[1..] && b == [b[0]] + b[1..];
    }
  }

  lemma {:induction false} LexPair(a0: char, a1: char, b0: char, b1: char)
    ensures LexLess([a0, a1], [b0, b1]) <==> a0 < b0 || (a0 == b0 && a1 < b1)
  {
    var a, b := [a0, a1], [b0, b1];
    assert a[1..] == [a1] && b[1..] == [b1];
    assert LexLess([a1], [b1]) <==> a1 < b1 by { assert [a1][1..] == "" && [b1][1..] == ""; }
  }

  lemma {:induction false} LexD2(m: int, n: int)
    requires 0 <= m < 100 && 0 <= n < 100
    ensures LexLess(D2(m), D2(n)) <==> m < n
    ensures D2(m) == D2(n) <==> m == n
  {
    LexPair(DigitChar(m / 10), DigitChar(m % 10), DigitChar(n / 10), DigitChar(n % 10));
    DigitOrder(m / 10, n / 10);
    DigitOrder(m % 10, n % 10);
    NumberD2(m); NumberD2(n);
  }

  lemma {:induction false} DigitOrder(a: int, b: int)
    requires 0 <= a < 10 && 0 <= b < 10
    ensures DigitChar(a) < DigitChar(b) <==> a < b
    ensures DigitChar(a) as int == '0' as int + a
  {
  }

  lemma {:induction false} LexD4(m: int, n: int)
    requires 0 <= m < 10_000 && 0 <= n < 10_000
    ensures LexLess(D4(m), D4(n)) <==> m < n
    ensures D4(m) == D4(n) <==> m == n
  {
    NumberD4(m); NumberD4(n);
    LexConcat(D2(m / 100), D2(m % 100), D2(n / 100), D2(n % 100));
    LexD2(m / 100, n / 100);
    LexD2(m % 100, n % 100);
  }

  predicate FieldsLess(f: Fields, g: Fields) {
    f.year < g.year || (f.year == g.year && (f.month < g.month || (f.month == g.month && (f.day < g.day || (f.day == g.day &&
    (f.hour < g.hour || (f.hour == g.hour && (f.minute < g.minute || (f.minute == g.minute && f.second < g.second)))))))))
  }

  lemma {:induction false} LexStamp(f: Fields, g: Fields)
    requires Writable(f) && Writable(g)
    ensures LexLess(Stamp(f), Stamp(g)) <==> FieldsLess(f, g)
  {
    var f5, g5 := D2(f.second) + "Z", D2(g.second) + "Z";
    var f4, g4 := D2(f.minute) + f5, D2(g.minute) + g5;
    var f3, g3 := D2(f.hour) + f4, D2(g.hour) + g4;
    var f2, g2 := (D2(f.day) + "T") + f3, (D2(g.day) + "T") + g3;
    var f1, g1 := (D2(f.month) + "-") + f2, (D2(g.month) + "-") + g2;
    assert Stamp(f) == (D4(f.year) + "-") + f1 && Stamp(g) == (D4(g.year) + "-") + g1;
    LexSeparated(D4(f.year), "-", f1, D4(g.year), g1);
    LexSeparated(D2(f.month), "-", f2, D2(g.month), g2);
    LexSeparated(D2(f.day), "T", f3, D2(g.day), g3);
    LexConcat(D2(f.hour), f4, D2(g.hour), g4);
    LexConcat(D2(f.minute), f5, D2(g.minute), g5);
    LexSeparated(D2(f.second), "Z", "", D2(g.second), "");
    assert f5 == (D2(f.second) + "Z") + "" && g5 == (D2(g.second) + "Z") + "";
    LexD4(f.year, g.year);
    LexD2(f.month, g.month); LexD2(f.day, g.day); LexD2(f.hour, g.hour);
    LexD2(f.minute, g.minute); LexD2(f.second, g.second);
  }

  lemma {:induction false} LexSeparated(a: string, sep: string, c: string, b: string, d: string)
    requires |a| == |b| && |sep| == 1
    ensures LexLess((a + sep) + c, (b + sep) + d) <==> LexLess(a, b) || (a == b && LexLess(c, d))
  {
    assert (a + sep) + c == a + (sep + c) && (b + sep) + d == b + (sep + d);
    LexConcat(a, sep + c, b, sep + d);
    LexConcat(sep, c, sep, d);
    assert sep[1..] == "";
  }

  /** Field order is chronological order of whole seconds. */
  lemma {:induction false} FieldsOrder(t: int, u: int)
    requires YearOf(t) >= 100 && YearOf(u) >= 100
    ensures FieldsLess(FieldsOf(t), FieldsOf(u)) <==> t / SECOND_MS < u / SECOND_MS
  {
    CivilOrder(CivilOf(DayOf(t)), CivilOf(DayOf(u)));
    CivilOrder(CivilOf(DayOf(u)), CivilOf(DayOf(t)));
    TimeOfDay(t);
    TimeOfDay(u);
  }

  /** Sorting names lexically sorts their instants. */
  lemma {:induction false} LexicalIsChronological(t: int, u: int)
    requires 100 <= YearOf(t) <= 9999 && 100 <= YearOf(u) <= 9999
    ensures LexLess(Format(t), Format(u)) <==> t / SECOND_MS < u / SECOND_MS
  {
    FormatIsStamp(t);
    FormatIsStamp(u);
    LexStamp(FieldsOf(t), FieldsOf(u));
    FieldsOrder(t, u);
  }

  // ---- archive entries ---------------------------------------------------

  const PARTIAL := ".partial"
  const DELETING := ".deleting"

  predicate EndsWith(s: string, suffix: string) {
    |suffix| <= |s| && s[|s| - |suffix|..] == suffix
  }

  predicate IsPartialName(entry: string) {
    EndsWith(entry, PARTIAL) && Parse(entry[..|entry| - |PARTIAL|]).Some?
  }

  predicate IsDeletingName(entry: string) {
    EndsWith(entry, DELETING) && Parse(entry[..|entry| - |DELETING|]).Some?
  }

  /** What an entry of an archive root is, by name alone. */
  datatype Entry = Complete(at: int) | Partial(at: int) | Deleting(at: int) | Foreign(name: string)

  function Classify(name: string): Entry {
    if Parse(name).Some? then Complete(Parse(name).value)
    else if IsPartialName(name) then Partial(Parse(name[..|name| - |PARTIAL|]).value)
    else if IsDeletingName(name) then Deleting(Parse(name[..|name| - |DELETING|]).value)
    else Foreign(name)
  }

  function Spell(e: Entry): string {
    match e
    case Complete(at) => Format(at)
    case Partial(at) => Format(at) + PARTIAL
    case Deleting(at) => Format(at) + DELETING
    case Foreign(name) => name
  }

  /** The entries that classification produces. */
  predicate Proper(e: Entry) {
    if e.Foreign? then Classify(e.name) == e else Nameable(e.at)
  }

  /** How names are spelt: the date, and the time of day without colons. */
  lemma {:induction false} EpochIsSpelt()
    ensures Format(0) == "1970-01-01T000000Z"
  {
    hide *;
    EpochFields();
    EpochInRange();
    FormatIsStamp(0);
    EpochStamp();
  }

  lemma EpochInRange()
    requires YearOf(0) == 1970
    ensures 0 <= YearOf(0) <= 9999
  {
  }

  /** An unfinished snapshot, and one that is being removed, add their suffix to the name. */
  lemma SuffixesAreSpelt(at: int)
    ensures Spell(Partial(at)) == Format(at) + ".partial" && Spell(Deleting(at)) == Format(at) + ".deleting"
    ensures Spell(Complete(at)) == Format(at)
  {
    hide Format;
  }

  lemma {:induction false} EpochStamp()
    ensures Stamp(Fields(1970, 1, 1, 0, 0, 0)) == "1970-01-01T000000Z"
  {
    hide D4, D2;
    EpochDigits();
    var date := D4(1970) + "-" + D2(1) + "-" + D2(1);
    assert date == "1970-01-01";
    var time := D2(0) + D2(0) + D2(0);
    assert time == "000000";
    assert Stamp(Fields(1970, 1, 1, 0, 0, 0)) == date + "T" + time + "Z";
  }

  lemma EpochDigits()
    ensures D4(1970) == ['1', '9', '7', '0'] && D2(1) == ['0', '1'] && D2(0) == ['0', '0']
  {
    assert DigitChar(0) == '0' && DigitChar(1) == '1' && DigitChar(9) == '9' && DigitChar(7) == '7';
    assert 1970 / 100 == 19 && 1970 % 100 == 70;
    assert D2(19) == ['1', '9'] && D2(70) == ['7', '0'];
  }

  lemma {:induction false} EpochFields()
    ensures FieldsOf(0) == Fields(1970, 1, 1, 0, 0, 0) && YearOf(0) == 1970
  {
    hide CivilOf, DayNumber, DaysInMonth;
    DaysByGauss(1970, 0, 1);
    assert ValidCivil(Civil(1970, 0, 1)) by { JanuaryFirst(1970); }
    CivilRoundTrip(Civil(1970, 0, 1));
    assert DayNumber(1970, 0, 1) == 0;
  }

  lemma JanuaryFirst(year: int)
    ensures ValidCivil(Civil(year, 0, 1))
  {
  }

  /** The three families are disjoint, so each test alone decides the class. */
  lemma {:induction false} FamiliesAreDisjoint(name: string)
    ensures Parse(name).Some? <==> Classify(name).Complete?
    ensures IsPartialName(name) <==> Classify(name).Partial?
    ensures IsDeletingName(name) <==> Classify(name).Deleting?
  {
    if IsPartialName(name) {
      assert |name| == 26;
    }
    if IsDeletingName(name) {
      assert |name| == 27;
    }
  }

  /** Names and proper entries are in bijection. */
  lemma {:induction false} SpellClassify(name: string)
    ensures Proper(Classify(name)) && Spell(Classify(name)) == name
  {
    FamiliesAreDisjoint(name);
    if Parse(name).Some? {
      ParseIsExact(name, Parse(name).value);
    } else if IsPartialName(name) {
      SuffixedName(name, PARTIAL);
    } else if IsDeletingName(name) {
      SuffixedName(name, DELETING);
    }
  }

  lemma {:induction false} SuffixedName(name: string, suffix: string)
    requires EndsWith(name, suffix) && Parse(name[..|name| - |suffix|]).Some?
    ensures var at := Parse(name[..|name| - |suffix|]).value;
            Nameable(at) && Format(at) + suffix == name
  {
    var base := name[..|name| - |suffix|];
    ParseIsExact(base, Parse(base).value);
    assert name == base + suffix;
  }

  lemma {:induction false} ClassifySpell(e: Entry)
    requires Proper(e)
    ensures Classify(Spell(e)) == e
  {
    if !e.Foreign? {
      var n := Format(e.at);
      ParseIsExact(n, e.at);
      assert (n + PARTIAL)[..|n|] == n && (n + DELETING)[..|n|] == n;
      assert (n + PARTIAL)[|n|..] == PARTIAL && (n + DELETING)[|n|..] == DELETING;
      FamiliesAreDisjoint(Spell(e));
    }
  }

  /** Listings sort complete names, and partial names, by instant. */
  lemma {:induction false} EntriesSortByInstant(t: int, u: int)
    requires Nameable(t) && Nameable(u)
    ensures LexLess(Spell(Complete(t)), Spell(Complete(u))) <==> t < u
    ensures LexLess(Spell(Partial(t)), Spell(Partial(u))) <==> t < u
  {
    NameOrder(t, u);
    FormatIsStamp(t);
    FormatIsStamp(u);
    LexConcat(Format(t), PARTIAL, Format(u), PARTIAL);
    LexIrreflexive(PARTIAL);
  }

  lemma {:induction false} NameOrder(t: int, u: int)
    requires Nameable(t) && Nameable(u)
    ensures LexLess(Format(t), Format(u)) <==> t < u
  {
    LexicalIsChronological(t, u);
    assert t == t / SECOND_MS * SECOND_MS && u == u / SECOND_MS * SECOND_MS;
  }

  lemma LexIrreflexive(s: string)
    ensures !LexLess(s, s)
  {
  }
}
