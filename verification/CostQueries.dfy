/**
 Daily and monthly rollups of the cost ledger (plugins/autonomous-dev-portal/server/cost/queries.ts),
 over exact reals: the rollup of Rollups.dfy along the calendar of Calendar.dfy.
 */
module CostQueries {
  import opened Calendar
  import opened Lexicographic
  import opened Numerals
  import opened Rollups

  const DAY := 10
  const MONTH := 7

  // ---------------------------------------------------------------- by day

  lemma DaysAscend(a: int, b: int)
    requires PlainDay(a) && PlainDay(b)
    ensures Ascending(DayText, a, b)
  {
    forall i, j | a <= i <= b && a <= j <= b ensures Less(DayText(i), DayText(j)) <==> i < j {
      PlainConvex(a, i, b);
      PlainConvex(a, j, b);
      DayTextOrder(i, j);
    }
  }

  method AggregateByDay(entries: seq<Entry>, startDate: string, endDate: string) returns (out: seq<Summary>)
    requires IsDayText(startDate) && IsDayText(endDate)
    ensures var a, b := DayOf(startDate), DayOf(endDate); out == Rows(entries, DAY, Names(DayText, a, Span(a, b)))
  {
    var byDay := FillBuckets(entries, DAY, startDate, endDate);
    var start, end := DayOf(startDate), DayOf(endDate);
    DayOfText(startDate);
    DayOfText(endDate);
    DaysAscend(start, end);
    HoldsNamed(byDay, entries, DAY, DayText, start, end);
    out := WalkRows(entries, byDay, DAY, DayText, (t: int) => t + 1, start, end, (k: int) => k, DayText, start, end);
  }

  // ---------------------------------------------------------------- by month

  function MonthKey(k: int): string { MonthText(MonthAt(k).year, MonthAt(k).month) }

  /** The clock at the first of month `k`. */
  function Clock(k: int): int {
    MonthIndexAt(k);
    Number(MonthAt(k))
  }

  lemma ClockOf(s: string)
    requires IsMonthText(s)
    ensures var d := ParseMonth(s); var k := MonthIndex(d);
            DayNumber(d.year, d.month, 1) == Clock(k) && MonthKey(k) == s && Plain(MonthAt(k))
  {
    DayNumbers(ParseMonth(s));
    MonthAtIndex(ParseMonth(s));
  }

  function FirstOfNext(n: int): int { DayNumber(DateOf(n).year, DateOf(n).month + 1, 1) }

  lemma MonthAfterAt(c: Date, k: int)
    requires IsDate(c) && k == MonthIndex(c)
    ensures MonthAfter(c) == MonthAt(k + 1) && IsDate(MonthAfter(c))
  {
    MonthAtIndex(MonthAfter(c));
  }

  lemma ClockDate(k: int)
    ensures DateOf(Clock(k)) == MonthAt(k)
  {
    MonthIndexAt(k);
    DateOfNumber(MonthAt(k));
  }

  lemma FirstAfter(n: int, c: Date)
    requires DateOf(n) == c && IsDate(c)
    ensures IsDate(MonthAfter(c)) && FirstOfNext(n) == Number(MonthAfter(c))
  {
    DayNumbers(c);
  }

  lemma ClockAfter(k: int)
    ensures IsDate(MonthAfter(MonthAt(k))) && Number(MonthAfter(MonthAt(k))) == Clock(k + 1)
  {
    MonthIndexAt(k);
    MonthAfterAt(MonthAt(k), k);
  }

  /** From the first of a month the cursor moves to the first of the next. */
  lemma NextClock(k: int)
    ensures FirstOfNext(Clock(k)) == Clock(k + 1)
  {
    ClockDate(k);
    MonthIndexAt(k);
    FirstAfter(Clock(k), MonthAt(k));
    ClockAfter(k);
  }

  lemma ClocksAscend(k: int, l: int)
    ensures Clock(k) <= Clock(l) <==> k <= l
  {
    MonthIndexAt(k);
    MonthIndexAt(l);
    NumberOrder(MonthAt(l), MonthAt(k));
  }

  lemma MonthsAscend(k: int, l: int)
    requires Plain(MonthAt(k)) && Plain(MonthAt(l))
    ensures Ascending(MonthKey, k, l)
  {
    forall i, j | k <= i <= l && k <= j <= l ensures Less(MonthKey(i), MonthKey(j)) <==> i < j {
      PlainMonths(k, i, l);
      PlainMonths(k, j, l);
      MonthKeyOrder(i, j);
    }
  }

  lemma PlainMonths(k: int, i: int, l: int)
    requires Plain(MonthAt(k)) && Plain(MonthAt(l)) && k <= i <= l
    ensures Plain(MonthAt(i))
  {
    MonthIndexAt(k);
    MonthIndexAt(i);
    MonthIndexAt(l);
  }

  lemma MonthKeyOrder(i: int, j: int)
    requires Plain(MonthAt(i)) && Plain(MonthAt(j))
    ensures Less(MonthKey(i), MonthKey(j)) <==> i < j
  {
    var c, d := MonthAt(i), MonthAt(j);
    MonthIndexAt(i);
    MonthIndexAt(j);
    MonthTextOrder(c.year, c.month, d.year, d.month);
  }

  method AggregateByMonth(entries: seq<Entry>, startMonth: string, endMonth: string) returns (out: seq<Summary>)
    requires IsMonthText(startMonth) && IsMonthText(endMonth)
    ensures var k, l := MonthIndex(ParseMonth(startMonth)), MonthIndex(ParseMonth(endMonth));
            out == Rows(entries, MONTH, Names(MonthKey, k, Span(k, l)))
  {
    var byMonth := FillBuckets(entries, MONTH, startMonth, endMonth);
    var d, l := ParseMonth(startMonth), ParseMonth(endMonth);
    ClockOf(startMonth);
    ClockOf(endMonth);
    MonthsAscend(MonthIndex(d), MonthIndex(l));
    HoldsNamed(byMonth, entries, MONTH, MonthKey, MonthIndex(d), MonthIndex(l));
    MonthCursor();
    out := WalkRows(entries, byMonth, MONTH, MonthShown, FirstOfNext, DayNumber(d.year, d.month, 1),
                    DayNumber(l.year, l.month, 1), Clock, MonthKey, MonthIndex(d), MonthIndex(l));
  }

  /** `fmtMonth`. */
  function MonthShown(n: int): string { MonthText(DateOf(n).year, DateOf(n).month) }

  lemma MonthCursor()
    ensures Cursor(MonthShown, FirstOfNext, Clock, MonthKey)
  {
    forall k ensures MonthShown(Clock(k)) == MonthKey(k) { ClockDate(k); }
    forall k ensures FirstOfNext(Clock(k)) == Clock(k + 1) { NextClock(k); }
    forall k, l ensures Clock(k) <= Clock(l) <==> k <= l { ClocksAscend(k, l); }
  }

  // ---------------------------------------------------------------- one row per day, in order

  /** The keys of the rows are the texts of real dates in range, each at its distance from the first day. */
  lemma DayKeysAre(a: int, b: int, key: string)
    requires PlainDay(a) && PlainDay(b)
    ensures var keys := Names(DayText, a, Span(a, b));
            && (key in keys <==> IsDayText(key) && InRange(key, DayText(a), DayText(b)))
            && (key in keys ==> 0 <= DayOf(key) - a < |keys| && keys[DayOf(key) - a] == key)
  {
    if key in Names(DayText, a, Span(a, b)) {
      var i := IndexOfName(DayText, a, Span(a, b), key);
      KeyAt(a, b, i, key);
    }
    if IsDayText(key) && InRange(key, DayText(a), DayText(b)) { var n := DayOfKey(a, b, key); }
  }

  lemma IndexOfName(name: int -> string, a: int, n: nat, key: string) returns (i: nat)
    requires key in Names(name, a, n)
    ensures i < n && Names(name, a, n)[i] == key == name(a + i)
  {
    i :| i < n && Names(name, a, n)[i] == key;
    NameAt(name, a, n, i);
  }

  lemma KeyAt(a: int, b: int, i: nat, key: string)
    requires PlainDay(a) && PlainDay(b) && i < Span(a, b) && key == DayText(a + i)
    ensures IsDayText(key) && InRange(key, DayText(a), DayText(b)) && DayOf(key) - a == i
  {
    DayKeyIs(a, b, i);
  }

  lemma DayOfKey(a: int, b: int, key: string) returns (n: int)
    requires PlainDay(a) && PlainDay(b) && IsDayText(key) && InRange(key, DayText(a), DayText(b))
    ensures n == DayOf(key) && 0 <= n - a < Span(a, b) && Names(DayText, a, Span(a, b))[n - a] == key
  {
    n := DayOf(key);
    DayOfText(key);
    KeyOfDay(a, b, key, n);
  }

  lemma KeyOfDay(a: int, b: int, key: string, n: int)
    requires PlainDay(a) && PlainDay(b) && PlainDay(n) && key == DayText(n) && InRange(key, DayText(a), DayText(b))
    ensures 0 <= n - a < Span(a, b) && Names(DayText, a, Span(a, b))[n - a] == key
  {
    DayInRange(a, n, b);
    NameOf(DayText, a, b, n);
  }

  lemma DayKeyIs(a: int, b: int, i: nat)
    requires PlainDay(a) && PlainDay(b) && i < Span(a, b)
    ensures var key := DayText(a + i); IsDayText(key) && InRange(key, DayText(a), DayText(b)) && DayOf(key) == a + i
  {
    PlainConvex(a, a + i, b);
    TextOfDay(a + i);
    DayInRange(a, a + i, b);
  }

  lemma DayInRange(a: int, n: int, b: int)
    requires PlainDay(a) && PlainDay(n) && PlainDay(b)
    ensures InRange(DayText(n), DayText(a), DayText(b)) <==> a <= n <= b
  {
    DayTextOrder(n, a);
    DayTextOrder(b, n);
  }

  // ---------------------------------------------------------------- conservation

  /** An entry dated in the range: its timestamp starts with the text of a real date between the ends. */
  predicate Dated(e: Entry, a: int, b: int) {
    IsDayText(Key(e, DAY)) && InRange(Key(e, DAY), DayText(a), DayText(b))
  }

  lemma DatedBucketIs(es: seq<Entry>, a: int, b: int)
    requires PlainDay(a) && PlainDay(b)
    ensures BucketWhere(es, (e: Entry) => Dated(e, a, b)) == BucketIn(es, DAY, Elements(Names(DayText, a, Span(a, b))))
  {
    var keys := Names(DayText, a, Span(a, b));
    forall e | e in es ensures Dated(e, a, b) <==> Key(e, DAY) in Elements(keys) { DayKeysAre(a, b, Key(e, DAY)); }
    WhereAlike(es, (e: Entry) => Dated(e, a, b), Under(DAY, Elements(keys)));
  }

  /**
   The daily rollup loses nothing and counts nothing twice. Each row tells its day's entries; all
   rows' tokens are those of the entries whose timestamps start with a real date in range, and
   their costs theirs to half a cent a row.
   */
  lemma DailyRollup(es: seq<Entry>, a: int, b: int)
    requires PlainDay(a) && PlainDay(b)
    ensures var rows, dated := Rows(es, DAY, Names(DayText, a, Span(a, b))), (e: Entry) => Dated(e, a, b);
            && |rows| == (if a <= b then b - a + 1 else 0)
            && (forall i :: 0 <= i < |rows| ==> Tells(rows[i], es, DAY, DayText(a + i)))
            && TokensOf(rows) == TokensWhere(es, dated)
            && -0.005 * |rows| as real <= CostOf(rows) - CostWhere(es, dated) <= 0.005 * |rows| as real
  {
    var keys := Names(DayText, a, Span(a, b));
    DaysAscend(a, b);
    NamesDistinct(DayText, a, Span(a, b));
    DatedBucketIs(es, a, b);
    RowsConserve(es, DAY, keys);
    RoundingBound(es, DAY, keys);
    forall i | 0 <= i < |keys| ensures Tells(Rows(es, DAY, keys)[i], es, DAY, DayText(a + i)) {
      RowsTell(es, DAY, keys, i);
      NameAt(DayText, a, Span(a, b), i);
    }
  }

  /** Each row of the monthly rollup tells its month's entries. */
  lemma MonthlyRollup(es: seq<Entry>, k: int, l: int)
    ensures var rows := Rows(es, MONTH, Names(MonthKey, k, Span(k, l)));
            && |rows| == (if k <= l then l - k + 1 else 0)
            && forall i :: 0 <= i < |rows| ==> Tells(rows[i], es, MONTH, MonthKey(k + i))
  {
    var keys := Names(MonthKey, k, Span(k, l));
    forall i | 0 <= i < |keys| ensures Tells(Rows(es, MONTH, keys)[i], es, MONTH, MonthKey(k + i)) {
      RowsTell(es, MONTH, keys, i);
      NameAt(MonthKey, k, Span(k, l), i);
    }
  }

  // ---------------------------------------------------------------- a month and its days

  /** A month: its year, its number, and a day number of 1. */
  predicate PlainMonth(d: Date) { Plain(d) && d.day == 1 }

  function MonthName(d: Date): string { MonthText(d.year, d.month) }

  function MonthDays(d: Date): (keys: seq<string>)
    requires PlainMonth(d)
    ensures |keys| == MonthLength(d.year, d.month)
  {
    Names(DayText, Number(d), MonthLength(d.year, d.month))
  }

  lemma MonthEnds(d: Date)
    requires PlainMonth(d)
    ensures var last := Date(d.year, d.month, MonthLength(d.year, d.month));
            && IsDate(last) && Number(last) == Number(d) + MonthLength(d.year, d.month) - 1
            && DayOfDate(d, Number(d)) && DayOfDate(last, Number(last))
  {
    IsDayOfDate(d);
    IsDayOfDate(Date(d.year, d.month, MonthLength(d.year, d.month)));
  }

  predicate DayOfDate(d: Date, n: int) { PlainDay(n) && DateOf(n) == d }

  lemma IsDayOfDate(d: Date)
    requires Plain(d)
    ensures DayOfDate(d, Number(d))
  {
    DateOfNumber(d);
  }

  lemma MonthDaysDistinct(d: Date)
    requires PlainMonth(d)
    ensures Distinct(MonthDays(d))
  {
    MonthEnds(d);
    DaysDistinct(Number(d), MonthLength(d.year, d.month), Number(d) + MonthLength(d.year, d.month) - 1);
  }

  lemma DaysDistinct(a: int, n: nat, b: int)
    requires PlainDay(a) && PlainDay(b) && b == a + n - 1
    ensures Distinct(Names(DayText, a, n))
  {
    DaysAscend(a, b);
    NamesDistinct(DayText, a, n);
  }

  lemma SameMonth(c: Date, d: Date)
    requires Plain(c) && PlainMonth(d)
    ensures var last := Date(d.year, d.month, MonthLength(d.year, d.month));
            MonthName(c) == MonthName(d) <==> InRange(Text(c), Text(d), Text(last))
  {
    var last := Date(d.year, d.month, MonthLength(d.year, d.month));
    MonthTextOrder(c.year, c.month, d.year, d.month);
    TextOrder(c, d);
    TextOrder(last, c);
    NumberOrder(c, d);
    NumberOrder(last, c);
  }

  /** The days of a month are the real dates whose text starts with the month's. */
  lemma MonthOfDay(ts: string, d: Date)
    requires PlainMonth(d)
    ensures Prefix(ts, DAY) in MonthDays(d) <==> Prefix(ts, MONTH) == MonthName(d) && IsDayText(Prefix(ts, DAY))
  {
    var key := Prefix(ts, DAY);
    MonthKeysAre(key, d);
    if IsDayText(key) { assert Prefix(ts, MONTH) == key[..7]; }
  }

  lemma MonthKeysAre(key: string, d: Date)
    requires PlainMonth(d)
    ensures key in MonthDays(d) <==> IsDayText(key) && key[..7] == MonthName(d)
  {
    MonthDaysAre(key, d);
    if IsDayText(key) { SameMonth(ParseDate(key), d); }
  }

  lemma MonthDaysAre(key: string, d: Date)
    requires PlainMonth(d)
    ensures var last := Date(d.year, d.month, MonthLength(d.year, d.month));
            key in MonthDays(d) <==> IsDayText(key) && InRange(key, Text(d), Text(last))
  {
    MonthEnds(d);
    DayKeysAre(Number(d), Number(d) + MonthLength(d.year, d.month) - 1, key);
  }

  /** An entry of the month that names no real day. */
  predicate IsStray(e: Entry, m: string) { Key(e, MONTH) == m && !IsDayText(Key(e, DAY)) }

  /** What the month's entries that name no real day amount to. */
  function Strays(es: seq<Entry>, m: string): Bucket { BucketWhere(es, (e: Entry) => IsStray(e, m)) }

  lemma NoStrays(es: seq<Entry>, m: string)
    requires forall e :: e in es ==> !IsStray(e, m)
    ensures Strays(es, m) == EMPTY_BUCKET
  {
    WhereNone(es, (e: Entry) => IsStray(e, m));
  }

  /** A month's bucket is its days' and its strays', for every ledger. */
  lemma MonthIsDaysAndStrays(es: seq<Entry>, d: Date)
    requires PlainMonth(d)
    ensures BucketIn(es, MONTH, {MonthName(d)})
            == Both(BucketIn(es, DAY, Elements(MonthDays(d))), Strays(es, MonthName(d)))
  {
    var m, days := MonthName(d), Elements(MonthDays(d));
    forall e | e in es
      ensures (Key(e, MONTH) in {m} <==> Key(e, DAY) in days || IsStray(e, m)) && !(Key(e, DAY) in days && IsStray(e, m))
    {
      MonthOfDay(e.timestamp, d);
    }
    WhereAdds(es, Under(DAY, days), (e: Entry) => IsStray(e, m), Under(MONTH, {m}));
  }

  /**
   A full month beside its days, for every ledger. The month's row tells the month's entries. Its
   tokens and its cost before rounding exceed those of the days' rows by those of its strays, so
   that they agree exactly if the strays' add up to zero; and its requests lie between those of
   any day and those of all days and strays together.
   */
  lemma FullMonth(es: seq<Entry>, d: Date, i: nat)
    requires PlainMonth(d) && i < MonthLength(d.year, d.month)
    ensures var name, stray := MonthName(d), (e: Entry) => IsStray(e, MonthName(d));
            var days, month := Rows(es, DAY, MonthDays(d)), Rows(es, MONTH, [name])[0];
            var cost, daily := CostWhere(es, (e: Entry) => Key(e, MONTH) == name), CostWhere(es, (e: Entry) => Key(e, DAY) in MonthDays(d));
            && Tells(month, es, MONTH, name)
            && month.tokens == TokensOf(days) + TokensWhere(es, stray)
            && cost == daily + CostWhere(es, stray)
            && -0.005 * |days| as real <= CostOf(days) - daily <= 0.005 * |days| as real
            && (month.tokens == TokensOf(days) <==> TokensWhere(es, stray) == 0)
            && (cost == daily <==> CostWhere(es, stray) == 0.0)
            && days[i].requests <= month.requests <= RequestsOf(days) + |RequestsWhere(es, stray)|
  {
    var keys, name := MonthDays(d), MonthName(d);
    MonthDaysDistinct(d);
    MonthIsDaysAndStrays(es, d);
    RowsConserve(es, DAY, keys);
    RoundingBound(es, DAY, keys);
    RequestsBetween(es, DAY, keys, i);
    CardOfUnion(BucketIn(es, DAY, Elements(keys)).reqs, Strays(es, name).reqs);
    RowsTell(es, MONTH, [name], 0);
    RowAt(es, MONTH, [name], 0);
    WhereAlike(es, Under(MONTH, {name}), (e: Entry) => Key(e, MONTH) == name);
    WhereAlike(es, Under(DAY, Elements(keys)), (e: Entry) => Key(e, DAY) in keys);
  }

  /** A stray: any entry of 30 February 2024. */
  lemma NoSuchDay(e: Entry, rest: string)
    requires e.timestamp == "2024-02-30" + rest
    ensures IsStray(e, "2024-02") && MonthName(Date(2024, 2, 1)) == "2024-02"
    ensures Strays([e], "2024-02") == Bucket(e.cost, e.tokens, {e.request})
  {
    var bad := Date(2024, 2, 30);
    TextLooks();
    NotADay(bad);
    PrefixIs(Text(bad), rest);
    OneStray(e, MonthName(Date(2024, 2, 1)));
  }

  lemma TextLooks()
    ensures Text(Date(2024, 2, 30)) == "2024-02-30" && MonthText(2024, 2) == "2024-02"
    ensures "2024-02-30"[..7] == "2024-02"
  {
    TwoDigits(0, 2, "02");
    TwoDigits(3, 0, "30");
    YearLooks(2024);
  }

  lemma YearLooks(y: int)
    requires y == 10 * (10 * 20 + 2) + 4
    ensures Padded(y, 4) == "2024"
  {
    TwoDigits(2, 0, "20");
    TwoMoreDigits(20, 2, 4, 2);
    Digits2024();
  }

  lemma Digits2024()
    ensures "20" + [DigitChar(2)] + [DigitChar(4)] == "2024"
  {
  }

  lemma TwoMoreDigits(high: nat, a: nat, b: nat, w: nat)
    requires a < 10 && b < 10
    ensures Padded(10 * (10 * high + a) + b, w + 2) == Padded(high, w) + [DigitChar(a)] + [DigitChar(b)]
  {
    OneMoreDigit(10 * high + a, b, w + 1);
    OneMoreDigit(high, a, w);
  }

  lemma OneMoreDigit(high: nat, a: nat, w: nat)
    requires a < 10
    ensures Padded(10 * high + a, w + 1) == Padded(high, w) + [DigitChar(a)]
  {
    LastDigit(high, a);
  }

  lemma TwoDigits(a: nat, b: nat, text: string)
    requires a < 10 && b < 10 && text == [DigitChar(a), DigitChar(b)]
    ensures Padded(10 * a + b, 2) == text
  {
    OneDigit(a);
    LastDigit(a, b);
    assert Padded(10 * a + b, 2) == Padded(a, 1) + [DigitChar(b)];
  }

  lemma OneDigit(a: nat)
    requires a < 10
    ensures Padded(a, 1) == [DigitChar(a)]
  {
    assert a % 10 == a && Padded(a / 10, 0) == "";
  }

  lemma LastDigit(a: nat, b: nat)
    requires b < 10
    ensures (10 * a + b) / 10 == a && (10 * a + b) % 10 == b
  {
  }

  lemma OneStray(e: Entry, m: string)
    requires IsStray(e, m)
    ensures Strays([e], m) == Bucket(e.cost, e.tokens, {e.request})
  {
    assert [] + [e] == [e];
    WhereSnoc([], e, (x: Entry) => IsStray(x, m));
  }

  lemma PrefixIs(day: string, rest: string)
    requires |day| == DAY
    ensures Prefix(day + rest, DAY) == day && Prefix(day + rest, MONTH) == day[..MONTH]
  {
  }

  lemma NotADay(bad: Date)
    requires bad == Date(2024, 2, 30)
    ensures !IsDayText(Text(bad))
  {
    if IsDayText(Text(bad)) {
      var c := ParseDate(Text(bad));
      TextInjective(c, bad);
    }
  }
}
