/** The rendering of `now_rfc3339`, and its promise that timestamp strings sort as time. */
module Timestamps {
  import opened Calendar

  /** Decimal digits of `n`, zero-padded on the left to at least `width` (Rust's `{:0width}`). */
  function Padded(n: nat, width: nat): string
    decreases n, width
  {
    if n < 10 && width <= 1 then [Digit(n)]
    else Padded(n / 10, if width == 0 then 0 else width - 1) + [Digit(n % 10)]
  }

  function Digit(n: nat): char
    requires n < 10
  {
    '0' + n as char
  }

  /** Each field at its width, followed by its separator. */
  function Text(fields: seq<nat>, widths: seq<nat>, separators: string): string
    requires |fields| == |widths| == |separators|
  {
    if fields == [] then ""
    else Padded(fields[0], widths[0]) + [separators[0]] + Text(fields[1..], widths[1..], separators[1..])
  }

  const WIDTHS: seq<nat> := [4, 2, 2, 2, 2, 2]
  const SEPARATORS := "--T::Z"

  function Fields(secs: nat): (fields: seq<nat>)
    ensures |fields| == 6
  {
    var date := CivilFromDays(secs / 86_400);
    var rem := secs % 86_400;
    YearNotBefore1970(secs / 86_400);
    [date.year, date.month, date.day, rem / 3600, (rem % 3600) / 60, rem % 60]
  }

  /** `now_rfc3339` at `secs` seconds after the Unix epoch. */
  function Rfc3339(secs: nat): string {
    Text(Fields(secs), WIDTHS, SEPARATORS)
  }

  lemma YearNotBefore1970(days: nat)
    ensures ValidDate(CivilFromDays(days)) && CivilFromDays(days).year >= 1970
  {
    CivilHasOrdinal(days);
    Epoch();
    CivilIsMonotonic(days, 0);
  }

  // ----- order -----

  predicate StrLess(a: string, b: string) {
    b != "" && (a == "" || a[0] < b[0] || (a[0] == b[0] && StrLess(a[1..], b[1..])))
  }

  predicate FieldsLess(a: seq<nat>, b: seq<nat>)
    requires |a| == |b|
  {
    a != [] && (a[0] < b[0] || (a[0] == b[0] && FieldsLess(a[1..], b[1..])))
  }

  lemma {:induction false} LessConcat(a: string, a': string, b: string, b': string)
    requires |a| == |b|
    ensures StrLess(a + a', b + b') <==> StrLess(a, b) || (a == b && StrLess(a', b'))
  {
    if a == "" {
      assert a + a' == a' && b + b' == b';
    } else {
      LessConcat(a[1..], a', b[1..], b');
      assert (a + a')[1..] == a[1..] + a' && (b + b')[1..] == b[1..] + b';
      assert a == [a[0]] + a[1..] && b == [b[0]] + b[1..];
    }
  }

  function Pow10(n: nat): (p: nat)
    ensures p > 0
  {
    if n == 0 then 1 else 10 * Pow10(n - 1)
  }

  /** Numbers that fit their width compare as their zero-padded digits do. */
  lemma {:induction false} PaddedOrder(a: nat, b: nat, width: nat)
    requires width > 0 && a < Pow10(width) && b < Pow10(width)
    ensures |Padded(a, width)| == |Padded(b, width)| == width
    ensures StrLess(Padded(a, width), Padded(b, width)) <==> a < b
    ensures Padded(a, width) == Padded(b, width) <==> a == b
  {
    if width > 1 {
      PaddedOrder(a / 10, b / 10, width - 1);
      LessConcat(Padded(a / 10, width - 1), [Digit(a % 10)], Padded(b / 10, width - 1), [Digit(b % 10)]);
      var p, q := Padded(a, width), Padded(b, width);
      assert p[..width - 1] == Padded(a / 10, width - 1) && p[width - 1] == Digit(a % 10);
      assert q[..width - 1] == Padded(b / 10, width - 1) && q[width - 1] == Digit(b % 10);
    } else {
      assert Pow10(1) == 10 * Pow10(0);
    }
  }

  predicate Fit(fields: seq<nat>, widths: seq<nat>)
    requires |fields| == |widths|
  {
    forall i :: 0 <= i < |fields| ==> widths[i] > 0 && fields[i] < Pow10(widths[i])
  }

  lemma {:induction false} TextOrder(a: seq<nat>, b: seq<nat>, widths: seq<nat>, separators: string)
    requires |a| == |b| == |widths| == |separators|
    requires Fit(a, widths) && Fit(b, widths)
    ensures StrLess(Text(a, widths, separators), Text(b, widths, separators)) <==> FieldsLess(a, b)
  {
    if a != [] {
      TextOrder(a[1..], b[1..], widths[1..], separators[1..]);
      PaddedOrder(a[0], b[0], widths[0]);
      HeadOrder(Padded(a[0], widths[0]), Text(a[1..], widths[1..], separators[1..]),
                Padded(b[0], widths[0]), Text(b[1..], widths[1..], separators[1..]), separators[0]);
    }
  }

  lemma HeadOrder(a: string, a': string, b: string, b': string, separator: char)
    requires |a| == |b|
    ensures StrLess(a + [separator] + a', b + [separator] + b') <==> StrLess(a, b) || (a == b && StrLess(a', b'))
  {
    LessConcat(a, [separator] + a', b, [separator] + b');
    assert a + [separator] + a' == a + ([separator] + a');
    assert b + [separator] + b' == b + ([separator] + b');
    LessConcat([separator], a', [separator], b');
  }

  lemma FieldsFit(secs: nat)
    requires Fields(secs)[0] <= 9999
    ensures Fit(Fields(secs), WIDTHS)
  {
    YearNotBefore1970(secs / 86_400);
    assert Pow10(1) == 10 && Pow10(2) == 100 && Pow10(3) == 1000 && Pow10(4) == 10_000;
  }

  lemma FieldsOrder(a: nat, b: nat)
    ensures FieldsLess(Fields(a), Fields(b)) <==> a < b
  {
    DateOrder(a / 86_400, b / 86_400);
    LexSix(Fields(a), Fields(b));
    ClockOrder(a % 86_400, b % 86_400);
  }

  /** Dates compare as their days do. */
  lemma DateOrder(a: int, b: int)
    ensures var x, y := CivilFromDays(a), CivilFromDays(b);
            && (x == y <==> a == b)
            && (a < b <==> x.year < y.year || (x.year == y.year && (x.month < y.month || (x.month == y.month && x.day < y.day))))
  {
    CivilIsMonotonic(a, b);
    CivilIsMonotonic(b, a);
  }

  lemma LexSix(a: seq<nat>, b: seq<nat>)
    requires |a| == |b| == 6
    ensures FieldsLess(a, b) <==>
            a[0] < b[0] || (a[0] == b[0] && (a[1] < b[1] || (a[1] == b[1] && (a[2] < b[2] || (a[2] == b[2] &&
            (a[3] < b[3] || (a[3] == b[3] && (a[4] < b[4] || (a[4] == b[4] && a[5] < b[5])))))))))
  {
    assert a[4..][1..] == a[5..] && b[4..][1..] == b[5..];
    assert a[3..][1..] == a[4..] && b[3..][1..] == b[4..];
    assert a[2..][1..] == a[3..] && b[2..][1..] == b[3..];
    assert a[1..][1..] == a[2..] && b[1..][1..] == b[2..];
    assert a[5..][1..] == [] && b[5..][1..] == [];
    assert FieldsLess(a[5..], b[5..]) <==> a[5] < b[5];
    assert FieldsLess(a[4..], b[4..]) <==> a[4] < b[4] || (a[4] == b[4] && FieldsLess(a[5..], b[5..]));
    assert FieldsLess(a[3..], b[3..]) <==> a[3] < b[3] || (a[3] == b[3] && FieldsLess(a[4..], b[4..]));
    assert FieldsLess(a[2..], b[2..]) <==> a[2] < b[2] || (a[2] == b[2] && FieldsLess(a[3..], b[3..]));
    assert FieldsLess(a[1..], b[1..]) <==> a[1] < b[1] || (a[1] == b[1] && FieldsLess(a[2..], b[2..]));
  }

  lemma ClockOrder(a: nat, b: nat)
    requires a < 86_400 && b < 86_400
    ensures a < b <==> (a / 3600 < b / 3600 || (a / 3600 == b / 3600 && ((a % 3600) / 60 < (b % 3600) / 60 ||
                       ((a % 3600) / 60 == (b % 3600) / 60 && a % 60 < b % 60))))
  {
    SplitClock(a);
    SplitClock(b);
  }

  lemma SplitClock(a: nat)
    ensures a == 3600 * (a / 3600) + 60 * ((a % 3600) / 60) + a % 60
  {
    assert a % 3600 == 60 * ((a % 3600) / 60) + (a % 3600) % 60;
    assert (a % 3600) % 60 == a % 60;
  }

  /** Up to year 9999 the strings compare exactly as the instants do. */
  lemma TimestampsSortAsTime(a: nat, b: nat)
    requires Fields(a)[0] <= 9999 && Fields(b)[0] <= 9999
    ensures StrLess(Rfc3339(a), Rfc3339(b)) <==> a < b
    ensures Rfc3339(a) == Rfc3339(b) <==> a == b
  {
    FieldsFit(a);
    FieldsFit(b);
    TextOrder(Fields(a), Fields(b), WIDTHS, SEPARATORS);
    FieldsOrder(a, b);
    TextOrder(Fields(b), Fields(a), WIDTHS, SEPARATORS);
    FieldsOrder(b, a);
    StrLessIrreflexive(Rfc3339(a));
  }

  lemma {:induction false} StrLessIrreflexive(s: string)
    ensures !StrLess(s, s)
  {
    if s != "" {
      StrLessIrreflexive(s[1..]);
    }
  }

  // ----- past year 9999 -----

  /** The digits a year is rendered with: four, or as many as it has. */
  function Width(year: nat): (width: nat)
    ensures width >= 4 && year < Pow10(width)
    ensures year >= 1000 ==> Pow10(width - 1) <= year
  {
    assert Pow10(1) == 10 && Pow10(2) == 100 && Pow10(3) == 1000 && Pow10(4) == 10_000;
    if year < 10_000 then 4 else 1 + Width(year / 10)
  }

  /** The number without its last `k` digits. */
  function Leading(n: nat, k: nat): nat {
    if k == 0 then n else Leading(n / 10, k - 1)
  }

  /** Padding to no more digits than there are adds none. */
  lemma {:induction false} NoPadding(n: nat, width: nat)
    requires width > 0 ==> Pow10(width - 1) <= n
    ensures Padded(n, width) == Padded(n, 0)
    decreases n
  {
    if n >= 10 {
      NoPadding(n / 10, if width == 0 then 0 else width - 1);
    }
  }

  lemma {:induction false} PaddedLeading(n: nat, width: nat, k: nat)
    requires k < width && n < Pow10(width)
    ensures Leading(n, k) < Pow10(width - k)
    ensures |Padded(n, width)| == width && Padded(n, width)[..width - k] == Padded(Leading(n, k), width - k)
    decreases width
  {
    PaddedOrder(n, n, width);
    if k > 0 {
      PaddedLeading(n / 10, width - 1, k - 1);
      assert Padded(n, width) == Padded(n / 10, width - 1) + [Digit(n % 10)];
    }
  }

  lemma {:induction false} AllDigits(n: nat, width: nat, i: nat)
    requires width > 0 && n < Pow10(width) && i < width
    ensures |Padded(n, width)| == width && '0' <= Padded(n, width)[i] <= '9'
    decreases width
  {
    PaddedOrder(n, n, width);
    if width > 1 {
      assert Padded(n, width) == Padded(n / 10, width - 1) + [Digit(n % 10)];
      if i < width - 1 {
        AllDigits(n / 10, width - 1, i);
      }
    }
  }

  /** Everything after the year. */
  function AfterYear(secs: nat): string {
    "-" + Text(Fields(secs)[1..], WIDTHS[1..], SEPARATORS[1..])
  }

  lemma YearFirst(secs: nat)
    ensures var year := Fields(secs)[0];
            Rfc3339(secs) == Padded(year, Width(year)) + AfterYear(secs)
  {
    var year := Fields(secs)[0];
    YearAtWidth(year, secs);
    Dashed(Padded(year, 4), Text(Fields(secs)[1..], WIDTHS[1..], SEPARATORS[1..]));
    assert SEPARATORS[0] == '-' && WIDTHS[0] == 4;
  }

  lemma YearAtWidth(year: nat, secs: nat)
    requires year == Fields(secs)[0]
    ensures Padded(year, 4) == Padded(year, Width(year))
  {
    YearNotBefore1970(secs / 86_400);
    assert Pow10(1) == 10 && Pow10(2) == 100 && Pow10(3) == 1000;
    NoPadding(year, Width(year));
    NoPadding(year, 4);
  }

  /** A number's leading digits, and at least one more. */
  lemma LongerSplits(y: nat, w: nat, v: nat) returns (tail: string)
    requires 0 < v < w && y < Pow10(w)
    ensures Padded(y, w) == Padded(Leading(y, w - v), v) + tail && Leading(y, w - v) < Pow10(v)
    ensures tail != "" && tail[0] >= '0'
  {
    PaddedLeading(y, w, w - v);
    AllDigits(y, w, v);
    tail := Padded(y, w)[v..];
    assert Padded(y, w) == Padded(y, w)[..v] + tail;
  }

  lemma DashFirst(a: string, a': string, b: string, tail: string, b': string)
    requires |a| == |b| && a' != "" && a'[0] == '-' && tail != "" && tail[0] >= '0'
    ensures StrLess(a + a', (b + tail) + b') <==> StrLess(a, b) || a == b
  {
    assert (b + tail) + b' == b + (tail + b');
    LessConcat(a, a', b, tail + b');
  }

  /** A shorter number before a dash sorts first up to the leading digits of a longer one: a dash is below
      every digit. */
  lemma ShorterFirst(x: nat, v: nat, afterX: string, y: nat, w: nat, afterY: string)
    requires 0 < v < w && x < Pow10(v) && y < Pow10(w) && afterX != "" && afterX[0] == '-'
    ensures StrLess(Padded(x, v) + afterX, Padded(y, w) + afterY) <==> x <= Leading(y, w - v)
  {
    var tail := LongerSplits(y, w, v);
    PaddedOrder(x, Leading(y, w - v), v);
    DashFirst(Padded(x, v), afterX, Padded(Leading(y, w - v), v), tail, afterY);
  }

  lemma ShorterYear(a: nat, b: nat)
    requires Width(Fields(a)[0]) < Width(Fields(b)[0])
    ensures StrLess(Rfc3339(a), Rfc3339(b)) <==>
            Fields(a)[0] <= Leading(Fields(b)[0], Width(Fields(b)[0]) - Width(Fields(a)[0]))
  {
    YearFirst(a);
    YearFirst(b);
    var x, y := Fields(a)[0], Fields(b)[0];
    var v, w, afterA, afterB := Width(x), Width(y), AfterYear(a), AfterYear(b);
    ShorterFirst(x, v, afterA, y, w, afterB);
    assert Rfc3339(a) == Padded(x, v) + afterA && Rfc3339(b) == Padded(y, w) + afterB;
  }

  /** The timestamp with the year at its own width. */
  lemma TextAtWidth(secs: nat)
    ensures var widths := WIDTHS[0 := Width(Fields(secs)[0])];
            Rfc3339(secs) == Text(Fields(secs), widths, SEPARATORS) && Fit(Fields(secs), widths)
  {
    var widths := WIDTHS[0 := Width(Fields(secs)[0])];
    YearFirst(secs);
    ClockFits(secs);
    assert widths[1..] == WIDTHS[1..] && SEPARATORS[0] == '-';
    Dashed(Padded(Fields(secs)[0], widths[0]), Text(Fields(secs)[1..], WIDTHS[1..], SEPARATORS[1..]));
  }

  lemma Dashed(year: string, rest: string)
    ensures year + ("-" + rest) == year + ['-'] + rest
  {
  }

  /** Years of one width compare as their instants do, whatever the width. */
  lemma SameWidth(a: nat, b: nat)
    requires Width(Fields(a)[0]) == Width(Fields(b)[0])
    ensures StrLess(Rfc3339(a), Rfc3339(b)) <==> a < b
  {
    TextAtWidth(a);
    TextAtWidth(b);
    TextOrder(Fields(a), Fields(b), WIDTHS[0 := Width(Fields(a)[0])], SEPARATORS);
    FieldsOrder(a, b);
  }

  lemma ClockFits(secs: nat)
    ensures forall i :: 0 < i < 6 ==> Fields(secs)[i] < Pow10(WIDTHS[i])
  {
    YearNotBefore1970(secs / 86_400);
    assert Pow10(1) == 10 && Pow10(2) == 100;
  }

  lemma {:induction false} WiderIsLater(x: nat, y: nat)
    requires x <= y
    ensures Width(x) <= Width(y)
  {
    if x >= 10_000 {
      WiderIsLater(x / 10, y / 10);
    }
  }

  /** The limit, exactly: two instants in order sort in order if and only if the earlier year is at most the
      leading digits of the later one, as many as the earlier year has. */
  lemma SortsAsTimeExactly(a: nat, b: nat)
    requires a < b
    ensures Width(Fields(a)[0]) <= Width(Fields(b)[0])
    ensures StrLess(Rfc3339(a), Rfc3339(b)) <==>
            Fields(a)[0] <= Leading(Fields(b)[0], Width(Fields(b)[0]) - Width(Fields(a)[0]))
  {
    var x, y := Fields(a)[0], Fields(b)[0];
    DateOrder(a / 86_400, b / 86_400);
    assert x <= y;
    WiderIsLater(x, y);
    if Width(x) == Width(y) {
      SameWidth(a, b);
    } else {
      ShorterYear(a, b);
    }
  }

  lemma LeadingDigit(n: nat)
    ensures 2000 <= n < 10_000 ==> |Padded(n, 4)| > 0 && Padded(n, 4)[0] >= '2'
    ensures 10_000 <= n < 20_000 ==> |Padded(n, 4)| > 0 && Padded(n, 4)[0] == '1'
  {
    assert Padded(n, 4) == Padded(n / 10, 3) + [Digit(n % 10)];
    assert Padded(n / 10, 3) == Padded(n / 10 / 10, 2) + [Digit(n / 10 % 10)];
    assert Padded(n / 10 / 10, 2) == Padded(n / 10 / 10 / 10, 1) + [Digit(n / 10 / 10 % 10)];
  }

  /** The limit is real: an instant of the years 10000 to 19999 sorts before every one of 2000 to 9999. */
  lemma FiveDigitYearSortsEarly(a: nat, b: nat)
    requires 2000 <= Fields(a)[0] <= 9999 && 10_000 <= Fields(b)[0] < 20_000
    ensures a < b && StrLess(Rfc3339(b), Rfc3339(a))
  {
    FieldsOrder(a, b);
    LeadingDigit(Fields(a)[0]);
    LeadingDigit(Fields(b)[0]);
  }

  lemma TurnOfYear10000()
    ensures Fields(253_402_300_799)[0] == 9999 && Fields(253_402_300_800)[0] == 10_000
  {
    var x := Date(10_000, 1, 1);
    assert DayNumber(x) == 2_932_897;
    CivilIsOnto(x);
    CivilStepsByOneDay(2_932_896);
    assert 253_402_300_799 / 86_400 == 2_932_896 && 253_402_300_800 / 86_400 == 2_932_897;
    CivilHasOrdinal(2_932_896);
  }

  // ----- the rendered text -----

  /** The number a run of decimal digits stands for. */
  function Value(digits: string): int {
    if digits == "" then 0
    else 10 * Value(digits[..|digits| - 1]) + (digits[|digits| - 1] as int - '0' as int)
  }

  lemma {:induction false} PaddedValue(n: nat, width: nat)
    ensures Value(Padded(n, width)) == n
    decreases n, width
  {
    if n < 10 && width <= 1 {
      assert [Digit(n)][..0] == "";
    } else {
      var narrower := if width == 0 then 0 else width - 1;
      PaddedValue(n / 10, narrower);
      assert Padded(n, width)[..|Padded(n, width)| - 1] == Padded(n / 10, narrower);
    }
  }

  /** Six fields of the widths of a timestamp, laid out. */
  lemma Layout(fields: seq<nat>, widths: seq<nat>)
    requires |fields| == |widths| == 6 && widths == [4, 2, 2, 2, 2, 2] && Fit(fields, widths)
    ensures var text := Text(fields, widths, SEPARATORS);
            && |text| == 20
            && text[4] == '-' && text[7] == '-' && text[10] == 'T' && text[13] == ':' && text[16] == ':' && text[19] == 'Z'
            && text[0..4] == Padded(fields[0], 4) && text[5..7] == Padded(fields[1], 2) && text[8..10] == Padded(fields[2], 2)
            && text[11..13] == Padded(fields[3], 2) && text[14..16] == Padded(fields[4], 2) && text[17..19] == Padded(fields[5], 2)
  {
    var a, b, c := Padded(fields[0], 4), Padded(fields[1], 2), Padded(fields[2], 2);
    var d, e, f := Padded(fields[3], 2), Padded(fields[4], 2), Padded(fields[5], 2);
    PaddedOrder(fields[0], fields[0], 4);
    PaddedOrder(fields[1], fields[1], 2);
    PaddedOrder(fields[2], fields[2], 2);
    PaddedOrder(fields[3], fields[3], 2);
    PaddedOrder(fields[4], fields[4], 2);
    PaddedOrder(fields[5], fields[5], 2);
    SixFields(fields, widths);
    LaidOut(a, b, c, d, e, f);
  }

  lemma SixFields(fields: seq<nat>, widths: seq<nat>)
    requires |fields| == |widths| == 6
    ensures Text(fields, widths, SEPARATORS) ==
            Padded(fields[0], widths[0]) + ['-'] + (Padded(fields[1], widths[1]) + ['-'] + (Padded(fields[2], widths[2]) + ['T']
            + (Padded(fields[3], widths[3]) + [':'] + (Padded(fields[4], widths[4]) + [':'] + (Padded(fields[5], widths[5]) + ['Z'] + "")))))
  {
    TextStep(fields, widths, 0);
    TextStep(fields, widths, 1);
    TextStep(fields, widths, 2);
    TextStep(fields, widths, 3);
    TextStep(fields, widths, 4);
    TextStep(fields, widths, 5);
    assert fields[0..] == fields && widths[0..] == widths && SEPARATORS[0..] == SEPARATORS;
  }

  lemma TextStep(fields: seq<nat>, widths: seq<nat>, i: nat)
    requires |fields| == |widths| == 6 && i < 6
    ensures Text(fields[i..], widths[i..], SEPARATORS[i..]) ==
            Padded(fields[i], widths[i]) + [SEPARATORS[i]] + Text(fields[i + 1..], widths[i + 1..], SEPARATORS[i + 1..])
  {
    assert fields[i..][1..] == fields[i + 1..] && widths[i..][1..] == widths[i + 1..] && SEPARATORS[i..][1..] == SEPARATORS[i + 1..];
  }

  lemma LaidOut(a: string, b: string, c: string, d: string, e: string, f: string)
    requires |a| == 4 && |b| == |c| == |d| == |e| == |f| == 2
    ensures var text := a + ['-'] + (b + ['-'] + (c + ['T'] + (d + [':'] + (e + [':'] + (f + ['Z'] + "")))));
            && |text| == 20
            && text[4] == '-' && text[7] == '-' && text[10] == 'T' && text[13] == ':' && text[16] == ':' && text[19] == 'Z'
            && text[0..4] == a && text[5..7] == b && text[8..10] == c && text[11..13] == d && text[14..16] == e && text[17..19] == f
  {
  }

  /** Up to year 9999 a timestamp is twenty characters, `YYYY-MM-DDThh:mm:ssZ`, and can be read back: its date is a
      calendar date and its parts add up to the instant. */
  lemma TimestampReadsBack(secs: nat)
    requires Fields(secs)[0] <= 9999
    ensures var text := Rfc3339(secs);
            && |text| == 20
            && text[4] == '-' && text[7] == '-' && text[10] == 'T' && text[13] == ':' && text[16] == ':' && text[19] == 'Z'
            && var date := Date(Value(text[0..4]), Value(text[5..7]), Value(text[8..10]));
               var hour, minute, second := Value(text[11..13]), Value(text[14..16]), Value(text[17..19]);
               && ValidDate(date) && 0 <= hour < 24 && 0 <= minute < 60 && 0 <= second < 60
               && secs == 86_400 * DayNumber(date) + 3600 * hour + 60 * minute + second
  {
    var fields := Fields(secs);
    FieldsFit(secs);
    Layout(fields, WIDTHS);
    PaddedValue(fields[0], 4);
    PaddedValue(fields[1], 2);
    PaddedValue(fields[2], 2);
    PaddedValue(fields[3], 2);
    PaddedValue(fields[4], 2);
    PaddedValue(fields[5], 2);
    CivilHasOrdinal(secs / 86_400);
    SplitClock(secs % 86_400);
  }
}
