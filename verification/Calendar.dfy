/**
 The proleptic Gregorian calendar as the ECMAScript Date functions count it, and the fixed-width
 text of dates: day numbers, dates and texts are in order-preserving correspondence.
 */
module Calendar {
  import opened Numerals
  import opened Splitting
  import opened Lexicographic

  datatype Date = Date(year: int, month: int, day: int)

  predicate Leap(y: int) { y % 4 == 0 && (y % 100 != 0 || y % 400 == 0) }

  function MonthLength(y: int, m: int): int {
    if m == 2 then (if Leap(y) then 29 else 28)
    else if m == 4 || m == 6 || m == 9 || m == 11 then 30
    else 31
  }

  predicate IsDate(d: Date) { 1 <= d.month <= 12 && 1 <= d.day <= MonthLength(d.year, d.month) }

  /** Dates that have a text of ten characters and that `Date.UTC` does not move by 1900 years. */
  predicate Plain(d: Date) { IsDate(d) && 100 <= d.year <= 9999 }

  predicate Before(d: Date, e: Date) {
    d.year < e.year || (d.year == e.year && (d.month < e.month || (d.month == e.month && d.day < e.day)))
  }

  // ---------------------------------------------------------------- day numbers

  function YearLength(y: int): int { if Leap(y) then 366 else 365 }

  /** The number of a year's first day, counted from 1 January 1970. */
  function YearStart(y: int): int
    decreases if y < 1970 then 1970 - y else y - 1970
  {
    if y == 1970 then 0
    else if y > 1970 then YearStart(y - 1) + YearLength(y - 1)
    else YearStart(y + 1) - YearLength(y)
  }

  /** DayFromYear of section 21.4.1.3 of ECMA-262 counts the same days. */
  lemma {:induction false} DayFromYear(y: int)
    ensures YearStart(y) == 365 * (y - 1970) + LeapDays(y)
    decreases if y < 1970 then 1970 - y else y - 1970
  {
    if y > 1970 {
      DayFromYear(y - 1);
      LeapDayStep(y - 1);
    } else if y < 1970 {
      DayFromYear(y + 1);
      LeapDayStep(y);
    }
  }

  function LeapDays(y: int): int { (y - 1969) / 4 - (y - 1901) / 100 + (y - 1601) / 400 }

  lemma LeapDayStep(y: int)
    ensures LeapDays(y + 1) == LeapDays(y) + if Leap(y) then 1 else 0
  {
    FourthStep(y);
    HundredthStep(y);
    FourHundredthStep(y);
    HundredsAreFours(y);
  }

  lemma HundredsAreFours(y: int)
    ensures y % 100 == 0 ==> y % 4 == 0
    ensures y % 400 == 0 ==> y % 100 == 0
  {
    if y % 100 == 0 {
      assert y == 4 * (25 * (y / 100));
      Multiples(25 * (y / 100));
    }
    if y % 400 == 0 {
      assert y == 100 * (4 * (y / 400));
      Multiples(4 * (y / 400));
    }
  }

  lemma Multiples(q: int)
    ensures (4 * q) % 4 == 0 && (100 * q) % 100 == 0
  {
  }

  lemma FourthStep(y: int)
    ensures (y - 1968) / 4 == (y - 1969) / 4 + if y % 4 == 0 then 1 else 0
  {
    var q, r := y / 4, y % 4;
    assert y - 1968 == 4 * (q - 492) + r;
    assert r == 0 ==> y - 1969 == 4 * (q - 493) + 3;
  }

  lemma HundredthStep(y: int)
    ensures (y - 1900) / 100 == (y - 1901) / 100 + if y % 100 == 0 then 1 else 0
  {
    var q, r := y / 100, y % 100;
    assert y - 1900 == 100 * (q - 19) + r;
    assert r == 0 ==> y - 1901 == 100 * (q - 20) + 99;
  }

  lemma FourHundredthStep(y: int)
    ensures (y - 1600) / 400 == (y - 1601) / 400 + if y % 400 == 0 then 1 else 0
  {
    var q, r := y / 400, y % 400;
    assert y - 1600 == 400 * (q - 4) + r;
    assert r == 0 ==> y - 1601 == 400 * (q - 5) + 399;
  }

  /** Days of the year before the month. */
  function MonthStart(y: int, m: int): int
    requires 1 <= m <= 13
    decreases m
  {
    if m == 1 then 0 else MonthStart(y, m - 1) + MonthLength(y, m - 1)
  }

  /** `Date.UTC`: a month outside 1 to 12 belongs to another year, a day outside the month to another month. */
  function DayNumber(y: int, m: int, d: int): int {
    var year := y + (m - 1) / 12;
    YearStart(year) + MonthStart(year, (m - 1) % 12 + 1) + d - 1
  }

  /** Days from 1 January 1970 to a date. */
  function Number(d: Date): int
    requires IsDate(d)
  {
    YearStart(d.year) + MonthStart(d.year, d.month) + d.day - 1
  }

  /** `Date.UTC` of a date is its number; a thirteenth month is January of the next year. */
  lemma DayNumbers(d: Date)
    requires IsDate(d)
    ensures DayNumber(d.year, d.month, d.day) == Number(d)
    ensures DayNumber(d.year, d.month + 1, 1) == Number(MonthAfter(d))
  {
    var y, m := d.year, d.month;
    assert (m - 1) / 12 == 0 && (m - 1) % 12 == m - 1;
    if m < 12 {
      assert m / 12 == 0 && m % 12 == m;
    } else {
      assert m / 12 == 1 && m % 12 == 0;
    }
  }

  /** Months counted from January 1970. */
  function MonthIndex(d: Date): int { 12 * (d.year - 1970) + d.month - 1 }

  function MonthAfter(d: Date): Date {
    if d.month < 12 then Date(d.year, d.month + 1, 1) else Date(d.year + 1, 1, 1)
  }

  function MonthBefore(d: Date): Date {
    if d.month > 1 then Date(d.year, d.month - 1, 1) else Date(d.year - 1, 12, 1)
  }

  /** The first day of a month. */
  function MonthAt(k: int): Date
    decreases if k < 0 then -k else k
  {
    if k == 0 then Date(1970, 1, 1)
    else if k > 0 then MonthAfter(MonthAt(k - 1))
    else MonthBefore(MonthAt(k + 1))
  }

  lemma {:induction false} MonthIndexAt(k: int)
    ensures IsDate(MonthAt(k)) && MonthAt(k).day == 1 && MonthIndex(MonthAt(k)) == k
    decreases if k < 0 then -k else k
  {
    if k > 0 { MonthIndexAt(k - 1); } else if k < 0 { MonthIndexAt(k + 1); }
  }

  lemma MonthAtIndex(d: Date)
    requires IsDate(d)
    ensures MonthAt(MonthIndex(d)) == Date(d.year, d.month, 1)
  {
    MonthIndexAt(MonthIndex(d));
  }

  /** A year has its twelve months' days. */
  lemma YearStep(y: int)
    ensures YearStart(y + 1) == YearStart(y) + YearLength(y) == YearStart(y) + MonthStart(y, 13)
  {
    assert MonthStart(y, 4) == 59 + 31 + if Leap(y) then 1 else 0;
    assert MonthStart(y, 7) == MonthStart(y, 4) + 91;
    assert MonthStart(y, 10) == MonthStart(y, 7) + 92;
  }

  lemma {:induction false} YearsAscend(y: int, z: int)
    requires y <= z
    ensures YearStart(y) + 365 * (z - y) <= YearStart(z)
    decreases z - y
  {
    if y < z {
      YearsAscend(y, z - 1);
      YearStep(z - 1);
    }
  }

  lemma {:induction false} MonthsAscend(y: int, m: int, k: int)
    requires 1 <= m <= k <= 13
    ensures MonthStart(y, m) + 28 * (k - m) <= MonthStart(y, k)
    decreases k - m
  {
    if m < k { MonthsAscend(y, m, k - 1); }
  }

  /** A date's number lies in its year and its month. */
  lemma NumberLies(d: Date)
    requires IsDate(d)
    ensures YearStart(d.year) <= Number(d) < YearStart(d.year + 1)
    ensures MonthStart(d.year, d.month) <= Number(d) - YearStart(d.year) < MonthStart(d.year, d.month + 1)
  {
    YearStep(d.year);
    MonthsAscend(d.year, 1, d.month);
    MonthsAscend(d.year, d.month + 1, 13);
  }

  lemma EarlierYear(d: Date, e: Date)
    requires IsDate(d) && IsDate(e) && d.year < e.year
    ensures Number(d) < Number(e)
  {
    NumberLies(d);
    NumberLies(e);
    YearsAscend(d.year + 1, e.year);
  }

  lemma EarlierInYear(d: Date, e: Date)
    requires IsDate(d) && IsDate(e) && d.year == e.year && Before(d, e)
    ensures Number(d) < Number(e)
  {
    if d.month < e.month { MonthsAscend(d.year, d.month + 1, e.month); }
  }

  lemma NumbersAscend(d: Date, e: Date)
    requires IsDate(d) && IsDate(e) && Before(d, e)
    ensures Number(d) < Number(e)
  {
    if d.year < e.year { EarlierYear(d, e); } else { EarlierInYear(d, e); }
  }

  /** Day numbers order dates as the calendar does, and tell them apart. */
  lemma NumberOrder(d: Date, e: Date)
    requires IsDate(d) && IsDate(e)
    ensures Before(d, e) <==> Number(d) < Number(e)
    ensures Number(d) == Number(e) ==> d == e
  {
    if Before(d, e) { NumbersAscend(d, e); }
    if Before(e, d) { NumbersAscend(e, d); }
  }

  // ---------------------------------------------------------------- dates of numbers

  function Tomorrow(d: Date): Date {
    if d.day < MonthLength(d.year, d.month) then Date(d.year, d.month, d.day + 1)
    else if d.month < 12 then Date(d.year, d.month + 1, 1)
    else Date(d.year + 1, 1, 1)
  }

  function Yesterday(d: Date): Date {
    if d.day > 1 then Date(d.year, d.month, d.day - 1)
    else if d.month > 1 then Date(d.year, d.month - 1, MonthLength(d.year, d.month - 1))
    else Date(d.year - 1, 12, 31)
  }

  /** The date `toISOString` shows for day number `n`, found day by day from 1 January 1970. */
  function DateOf(n: int): Date
    decreases if n < 0 then -n else n
  {
    if n == 0 then Date(1970, 1, 1)
    else if n > 0 then Tomorrow(DateOf(n - 1))
    else Yesterday(DateOf(n + 1))
  }

  lemma NextDay(d: Date)
    requires IsDate(d)
    ensures IsDate(Tomorrow(d)) && Number(Tomorrow(d)) == Number(d) + 1
  {
    if d.day >= MonthLength(d.year, d.month) && d.month == 12 { NewYearsEve(d.year); }
  }

  lemma DayBefore(d: Date)
    requires IsDate(d)
    ensures IsDate(Yesterday(d)) && Number(Yesterday(d)) == Number(d) - 1
  {
    if d.day == 1 && d.month == 1 { NewYearsEve(d.year - 1); }
  }

  lemma NewYearsEve(y: int)
    ensures Number(Date(y, 12, 31)) + 1 == Number(Date(y + 1, 1, 1))
  {
    YearStep(y);
    assert MonthStart(y, 13) == MonthStart(y, 12) + 31;
  }

  /** Every day number is the number of exactly one date, namely `DateOf`. */
  lemma {:induction false} NumberOfDate(n: int)
    ensures IsDate(DateOf(n)) && Number(DateOf(n)) == n
    decreases if n < 0 then -n else n
  {
    if n > 0 {
      NumberOfDate(n - 1);
      NextDay(DateOf(n - 1));
    } else if n < 0 {
      NumberOfDate(n + 1);
      DayBefore(DateOf(n + 1));
    }
  }

  lemma DateOfNumber(d: Date)
    requires IsDate(d)
    ensures DateOf(Number(d)) == d
  {
    NumberOfDate(Number(d));
    NumberOrder(d, DateOf(Number(d)));
  }

  lemma PlainBetween(d: Date, n: int, e: Date)
    requires Plain(d) && Plain(e) && Number(d) <= n <= Number(e)
    ensures Plain(DateOf(n))
  {
    NumberOfDate(n);
    NumberOrder(DateOf(n), d);
    NumberOrder(e, DateOf(n));
  }

  // ---------------------------------------------------------------- texts

  /** `String(n).padStart(w, "0")` for numbers of at most `w` digits. */
  function Padded(n: int, w: nat): (s: string)
    ensures |s| == w && AllDigits(s)
    decreases w, n
  {
    CharIsDigit(n % 10);
    if w == 0 then "" else Padded(n / 10, w - 1) + [DigitChar(n % 10)]
  }

  /** `YYYY-MM`. */
  function MonthText(y: int, m: int): (s: string)
    ensures |s| == 7
  {
    Padded(y, 4) + "-" + Padded(m, 2)
  }

  /** `YYYY-MM-DD`. */
  function Text(d: Date): (s: string)
    ensures |s| == 10 && s[..7] == MonthText(d.year, d.month)
  {
    MonthText(d.year, d.month) + "-" + Padded(d.day, 2)
  }

  /** Padded numbers compare as the numbers do, and read back. */
  lemma {:induction false} PaddedOrder(a: int, b: int, w: nat)
    requires 0 <= a < Power10(w) && 0 <= b < Power10(w)
    ensures Less(Padded(a, w), Padded(b, w)) <==> a < b
    ensures Padded(a, w) == Padded(b, w) ==> a == b
  {
    if w > 0 {
      PaddedOrder(a / 10, b / 10, w - 1);
      var x, y := DigitChar(a % 10), DigitChar(b % 10);
      LessAppended(Padded(a / 10, w - 1), Padded(b / 10, w - 1), [x], [y]);
      DigitOrder(a % 10, b % 10);
      SnocInjective(Padded(a / 10, w - 1), x, Padded(b / 10, w - 1), y);
    }
  }

  lemma SnocInjective(s: string, x: char, t: string, y: char)
    requires |s| == |t|
    ensures s + [x] == t + [y] <==> s == t && x == y
  {
    if s + [x] == t + [y] {
      assert s == (s + [x])[..|s|] == (t + [y])[..|t|] == t;
      assert x == (s + [x])[|s|] == (t + [y])[|t|] == y;
    }
  }

  lemma DigitOrder(a: int, b: int)
    requires 0 <= a < 10 && 0 <= b < 10
    ensures Less([DigitChar(a)], [DigitChar(b)]) <==> a < b
    ensures DigitChar(a) == DigitChar(b) ==> a == b
  {
  }

  lemma {:induction false} PaddedValue(n: int, w: nat)
    requires 0 <= n < Power10(w)
    ensures ValueIn(Padded(n, w), 10) == n
  {
    if w > 0 {
      PaddedValue(n / 10, w - 1);
      CharIsDigit(n % 10);
      assert Padded(n, w)[..w - 1] == Padded(n / 10, w - 1);
    }
  }

  /** Two texts joined by a dash. */
  lemma DashOrder(p: string, q: string, s: string, t: string)
    requires |p| == |q| && |s| == |t|
    ensures Less(p + "-" + s, q + "-" + t) <==> Less(p, q) || (p == q && Less(s, t))
    ensures p + "-" + s == q + "-" + t ==> p == q && s == t
  {
    LessAppended(p, q, "-" + s, "-" + t);
    LessAppended("-", "-", s, t);
    Irreflexive("-");
    DashParts(p, s);
    DashParts(q, t);
  }

  lemma DashParts(p: string, s: string)
    ensures var all := p + "-" + s; all == p + ("-" + s) && all[..|p|] == p && all[|p| + 1..] == s
  {
  }

  lemma MonthTextOrder(y: int, m: int, z: int, k: int)
    requires 0 <= y < 10000 && 0 <= z < 10000 && 0 <= m < 100 && 0 <= k < 100
    ensures Less(MonthText(y, m), MonthText(z, k)) <==> y < z || (y == z && m < k)
    ensures MonthText(y, m) == MonthText(z, k) ==> y == z && m == k
  {
    PaddedOrder(y, z, 4);
    PaddedOrder(m, k, 2);
    DashOrder(Padded(y, 4), Padded(z, 4), Padded(m, 2), Padded(k, 2));
  }

  lemma TextInjective(d: Date, e: Date)
    requires Text(d) == Text(e)
    requires 0 <= d.year < 10000 && 0 <= e.year < 10000 && 0 <= d.month < 100 && 0 <= e.month < 100
    requires 0 <= d.day < 100 && 0 <= e.day < 100
    ensures d == e
  {
    DashOrder(MonthText(d.year, d.month), MonthText(e.year, e.month), Padded(d.day, 2), Padded(e.day, 2));
    MonthTextOrder(d.year, d.month, e.year, e.month);
    PaddedOrder(d.day, e.day, 2);
  }

  /** String comparison of date texts is comparison of dates. */
  lemma TextOrder(d: Date, e: Date)
    requires Plain(d) && Plain(e)
    ensures Less(Text(d), Text(e)) <==> Number(d) < Number(e)
  {
    DashOrder(MonthText(d.year, d.month), MonthText(e.year, e.month), Padded(d.day, 2), Padded(e.day, 2));
    MonthTextOrder(d.year, d.month, e.year, e.month);
    PaddedOrder(d.day, e.day, 2);
    NumberOrder(d, e);
  }

  // ---------------------------------------------------------------- reading texts

  function FieldAt(parts: seq<string>, i: nat): int {
    if i < |parts| && AllDigits(parts[i]) then ValueIn(parts[i], 10) else 0
  }

  /** `date.split("-")` and `Number` of its pieces. */
  function ParseDate(s: string): Date {
    var parts := Split(s, '-');
    Date(FieldAt(parts, 0), FieldAt(parts, 1), FieldAt(parts, 2))
  }

  function ParseMonth(s: string): Date {
    var parts := Split(s, '-');
    Date(FieldAt(parts, 0), FieldAt(parts, 1), 1)
  }

  /** The texts of dates, and of their months. */
  predicate IsDayText(s: string) { var d := ParseDate(s); Plain(d) && s == Text(d) }

  predicate IsMonthText(s: string) { var d := ParseMonth(s); Plain(d) && s == MonthText(d.year, d.month) }

  /** A date's text reads back as that date. */
  lemma ParseText(d: Date)
    requires Plain(d)
    ensures ParseDate(Text(d)) == d && ParseMonth(MonthText(d.year, d.month)) == Date(d.year, d.month, 1)
  {
    var y, m, day := Padded(d.year, 4), Padded(d.month, 2), Padded(d.day, 2);
    PaddedValue(d.year, 4);
    PaddedValue(d.month, 2);
    PaddedValue(d.day, 2);
    DashSplit(y, m, day);
  }

  lemma DashSplit(y: string, m: string, day: string)
    requires AllDigits(y) && AllDigits(m) && AllDigits(day)
    ensures Split(y + "-" + m + "-" + day, '-') == [y, m, day] && Split(y + "-" + m, '-') == [y, m]
  {
    SplitStep(y, '-', m);
    SplitWithout(m, '-');
    SplitWithout(day, '-');
    SplitStep(m, '-', day);
    SplitStep(y, '-', m + "-" + day);
    assert y + "-" + m + "-" + day == y + "-" + (m + "-" + day);
  }

  // ---------------------------------------------------------------- days by number

  function DayText(n: int): string { Text(DateOf(n)) }

  predicate PlainDay(n: int) { Plain(DateOf(n)) }

  /** `Date.UTC` of a date's text. */
  function DayOf(s: string): int { var d := ParseDate(s); DayNumber(d.year, d.month, d.day) }

  lemma DayOfText(s: string)
    requires IsDayText(s)
    ensures PlainDay(DayOf(s)) && DayText(DayOf(s)) == s
  {
    var d := ParseDate(s);
    DayNumbers(d);
    DateOfNumber(d);
  }

  lemma TextOfDay(n: int)
    requires PlainDay(n)
    ensures IsDayText(DayText(n)) && DayOf(DayText(n)) == n
  {
    var d := DateOf(n);
    ParseText(d);
    NumberOfDate(n);
    DayNumbers(d);
  }

  lemma PlainConvex(a: int, n: int, b: int)
    requires PlainDay(a) && PlainDay(b) && a <= n <= b
    ensures PlainDay(n)
  {
    NumberOfDate(a);
    NumberOfDate(b);
    PlainBetween(DateOf(a), n, DateOf(b));
  }

  /** String comparison of the days' texts is comparison of their numbers. */
  lemma DayTextOrder(a: int, b: int)
    requires PlainDay(a) && PlainDay(b)
    ensures Less(DayText(a), DayText(b)) <==> a < b
  {
    NumberOfDate(a);
    NumberOfDate(b);
    TextOrder(DateOf(a), DateOf(b));
  }
}
