/**
 The bucket-and-row rollup both queries of plugins/autonomous-dev-portal/server/cost/queries.ts
 share: an entry falls into the bucket its timestamp's first characters name, and each key asked
 for becomes a row. Nothing here knows about the calendar.
 */
module Rollups {
  import opened Lexicographic
  import opened Rounding

  datatype Entry = Entry(timestamp: string, request: string, tokens: int, cost: real)

  datatype Bucket = Bucket(cost: real, tokens: int, reqs: set<string>)

  datatype Summary = Summary(key: string, cost: real, tokens: int, requests: nat)

  const EMPTY_BUCKET := Bucket(0.0, 0, {})

  /** `ts.slice(0, width)`. */
  function Prefix(ts: string, width: nat): string { if |ts| < width then ts else ts[..width] }

  function Key(e: Entry, width: nat): string { Prefix(e.timestamp, width) }

  function Both(a: Bucket, b: Bucket): Bucket { Bucket(a.cost + b.cost, a.tokens + b.tokens, a.reqs + b.reqs) }

  // ---------------------------------------------------------------- sums over entries

  function CostWhere(es: seq<Entry>, p: Entry -> bool): real {
    if es == [] then 0.0
    else CostWhere(es[..|es| - 1], p) + if p(es[|es| - 1]) then es[|es| - 1].cost else 0.0
  }

  function TokensWhere(es: seq<Entry>, p: Entry -> bool): int {
    if es == [] then 0
    else TokensWhere(es[..|es| - 1], p) + if p(es[|es| - 1]) then es[|es| - 1].tokens else 0
  }

  function RequestsWhere(es: seq<Entry>, p: Entry -> bool): set<string> { set e | e in es && p(e) :: e.request }

  /** What the entries that satisfy a test amount to. */
  function BucketWhere(es: seq<Entry>, p: Entry -> bool): Bucket {
    Bucket(CostWhere(es, p), TokensWhere(es, p), RequestsWhere(es, p))
  }

  function Plus(b: Bucket, e: Entry): Bucket { Bucket(b.cost + e.cost, b.tokens + e.tokens, b.reqs + {e.request}) }

  lemma WhereSnoc(es: seq<Entry>, e: Entry, p: Entry -> bool)
    ensures BucketWhere(es + [e], p) == if p(e) then Plus(BucketWhere(es, p), e) else BucketWhere(es, p)
  {
    assert (es + [e])[..|es|] == es;
    assert forall x :: x in es + [e] <==> x in es || x == e;
  }

  lemma WhereLast(es: seq<Entry>, p: Entry -> bool)
    requires es != []
    ensures var init, e := es[..|es| - 1], es[|es| - 1];
            BucketWhere(es, p) == if p(e) then Plus(BucketWhere(init, p), e) else BucketWhere(init, p)
  {
    assert es == es[..|es| - 1] + [es[|es| - 1]];
    WhereSnoc(es[..|es| - 1], es[|es| - 1], p);
  }

  /** Two tests that exclude each other, and the test for either. */
  lemma {:induction false} WhereAdds(es: seq<Entry>, p: Entry -> bool, q: Entry -> bool, either: Entry -> bool)
    requires forall e :: e in es ==> (either(e) <==> p(e) || q(e)) && !(p(e) && q(e))
    ensures BucketWhere(es, either) == Both(BucketWhere(es, p), BucketWhere(es, q))
  {
    if es != [] {
      var init, e := es[..|es| - 1], es[|es| - 1];
      assert e in es && forall x :: x in init ==> x in es;
      WhereAdds(init, p, q, either);
      WhereLast(es, p);
      WhereLast(es, q);
      WhereLast(es, either);
    }
  }

  lemma {:induction false} WhereNone(es: seq<Entry>, p: Entry -> bool)
    requires forall e :: e in es ==> !p(e)
    ensures BucketWhere(es, p) == EMPTY_BUCKET
  {
    if es != [] {
      assert es[|es| - 1] in es && forall x :: x in es[..|es| - 1] ==> x in es;
      WhereNone(es[..|es| - 1], p);
      WhereLast(es, p);
    }
  }

  lemma {:induction false} WhereAlike(es: seq<Entry>, p: Entry -> bool, q: Entry -> bool)
    requires forall e :: e in es ==> (p(e) <==> q(e))
    ensures BucketWhere(es, p) == BucketWhere(es, q)
  {
    if es != [] {
      assert es[|es| - 1] in es && forall x :: x in es[..|es| - 1] ==> x in es;
      WhereAlike(es[..|es| - 1], p, q);
      WhereLast(es, p);
      WhereLast(es, q);
    }
  }

  // ---------------------------------------------------------------- rows

  function Under(width: nat, keys: set<string>): Entry -> bool { (e: Entry) => Key(e, width) in keys }

  /** What the entries under the given keys amount to. */
  function BucketIn(es: seq<Entry>, width: nat, keys: set<string>): Bucket { BucketWhere(es, Under(width, keys)) }

  function RowOf(key: string, b: Bucket): Summary { Summary(key, Round2(b.cost), b.tokens, |b.reqs|) }

  /** One row per key. */
  function Rows(es: seq<Entry>, width: nat, keys: seq<string>): (rows: seq<Summary>)
    ensures |rows| == |keys|
  {
    if keys == [] then []
    else
      var key := keys[|keys| - 1];
      Rows(es, width, keys[..|keys| - 1]) + [RowOf(key, BucketIn(es, width, {key}))]
  }

  lemma {:induction false} RowAt(es: seq<Entry>, width: nat, keys: seq<string>, i: nat)
    requires i < |keys|
    ensures Rows(es, width, keys)[i] == RowOf(keys[i], BucketIn(es, width, {keys[i]}))
  {
    if i < |keys| - 1 { RowAt(es, width, keys[..|keys| - 1], i); }
  }

  /** A row tells the tokens, the cost in whole cents and the distinct requests of the entries it is named after. */
  predicate Tells(row: Summary, es: seq<Entry>, width: nat, key: string) {
    && row.key == key
    && row.tokens == TokensWhere(es, (e: Entry) => Key(e, width) == key)
    && row.cost == Round2(CostWhere(es, (e: Entry) => Key(e, width) == key))
    && row.requests == |set e | e in es && Key(e, width) == key :: e.request|
  }

  lemma RowsTell(es: seq<Entry>, width: nat, keys: seq<string>, i: nat)
    requires i < |keys|
    ensures Tells(Rows(es, width, keys)[i], es, width, keys[i])
  {
    var named := (e: Entry) => Key(e, width) == keys[i];
    RowAt(es, width, keys, i);
    WhereAlike(es, Under(width, {keys[i]}), named);
    assert RequestsWhere(es, named) == set e | e in es && Key(e, width) == keys[i] :: e.request;
  }

  // ---------------------------------------------------------------- filling buckets

  predicate InRange(key: string, lo: string, hi: string) { !Less(key, lo) && !Less(hi, key) }

  type Buckets = map<string, Bucket>

  function BucketFor(m: Buckets, key: string): Bucket { if key in m then m[key] else EMPTY_BUCKET }

  /** Every key in range has the bucket its entries make. */
  ghost predicate Holds(m: Buckets, es: seq<Entry>, width: nat, lo: string, hi: string) {
    forall key :: InRange(key, lo, hi) ==> BucketFor(m, key) == BucketIn(es, width, {key})
  }

  lemma HoldsSnoc(was: Buckets, m: Buckets, es: seq<Entry>, e: Entry, width: nat, lo: string, hi: string)
    requires Holds(was, es, width, lo, hi)
    requires var k := Key(e, width);
             m == if InRange(k, lo, hi) then was[k := Plus(BucketFor(was, k), e)] else was
    ensures Holds(m, es + [e], width, lo, hi)
  {
    forall key | InRange(key, lo, hi) ensures BucketFor(m, key) == BucketIn(es + [e], width, {key}) {
      WhereSnoc(es, e, Under(width, {key}));
    }
  }

  /** The first loop of both queries. */
  method FillBuckets(entries: seq<Entry>, width: nat, lo: string, hi: string) returns (m: Buckets)
    ensures Holds(m, entries, width, lo, hi)
  {
    m := map[];
    for i := 0 to |entries|
      invariant Holds(m, entries[..i], width, lo, hi)
    {
      var e := entries[i];
      ghost var was := m;
      assert entries[..i + 1] == entries[..i] + [e];
      var k := Key(e, width);
      if !(Less(k, lo) || Less(hi, k)) {
        var b := if k in m then m[k] else EMPTY_BUCKET;
        m := m[k := Bucket(b.cost + e.cost, b.tokens + e.tokens, b.reqs + {e.request})];
      }
      HoldsSnoc(was, m, entries[..i], e, width, lo, hi);
    }
    assert entries[..|entries|] == entries;
  }

  /** A row from its bucket, or the row of zeros. */
  method MakeRow(m: Buckets, key: string) returns (s: Summary)
    ensures s == RowOf(key, BucketFor(m, key))
  {
    if key in m {
      s := Summary(key, Round2(m[key].cost), m[key].tokens, |m[key].reqs|);
    } else {
      HalfCent(0.0, 0);
      s := Summary(key, 0.0, 0, 0);
    }
  }

  // ---------------------------------------------------------------- consecutive names

  /** The names of `n` consecutive days or months from number `a` on. */
  function Names(name: int -> string, a: int, n: nat): (keys: seq<string>)
    ensures |keys| == n
    decreases n
  {
    if n == 0 then [] else Names(name, a, n - 1) + [name(a + n - 1)]
  }

  function Span(from: int, to: int): nat { if from <= to then to - from + 1 else 0 }

  /** Comparing the names between `a` and `b` compares their numbers. */
  ghost predicate Ascending(name: int -> string, a: int, b: int) {
    forall i, j :: a <= i <= b && a <= j <= b ==> (Less(name(i), name(j)) <==> i < j)
  }

  lemma {:induction false} NameAt(name: int -> string, a: int, n: nat, i: nat)
    requires i < n
    ensures Names(name, a, n)[i] == name(a + i)
    decreases n
  {
    if i < n - 1 { NameAt(name, a, n - 1, i); }
  }

  /** The rows of the names from `a` to before `t`. */
  function RowsTo(es: seq<Entry>, width: nat, name: int -> string, a: int, t: int): (rows: seq<Summary>)
    requires a <= t
  {
    Rows(es, width, Names(name, a, t - a))
  }

  lemma AllRows(es: seq<Entry>, width: nat, name: int -> string, a: int, b: int)
    ensures RowsTo(es, width, name, a, a + Span(a, b)) == Rows(es, width, Names(name, a, Span(a, b)))
  {
  }

  lemma OneMoreRow(es: seq<Entry>, width: nat, name: int -> string, a: int, t: int, row: Summary)
    requires a <= t && row == RowOf(name(t), BucketIn(es, width, {name(t)}))
    ensures RowsTo(es, width, name, a, t + 1) == RowsTo(es, width, name, a, t) + [row]
  {
    var keys := Names(name, a, t + 1 - a);
    assert keys[..t - a] == Names(name, a, t - a);
  }

  lemma NameOf(name: int -> string, a: int, b: int, t: int)
    requires a <= t <= b
    ensures Names(name, a, Span(a, b))[t - a] == name(t)
  {
    NameAt(name, a, Span(a, b), t - a);
  }

  lemma NamesAscend(name: int -> string, a: int, n: nat, i: nat, j: nat)
    requires Ascending(name, a, a + n - 1) && i < j < n
    ensures Less(Names(name, a, n)[i], Names(name, a, n)[j]) && Names(name, a, n)[i] != Names(name, a, n)[j]
  {
    NameAt(name, a, n, i);
    NameAt(name, a, n, j);
    Irreflexive(name(a + i));
  }

  lemma NamesDistinct(name: int -> string, a: int, n: nat)
    requires Ascending(name, a, a + n - 1)
    ensures Distinct(Names(name, a, n))
  {
    var keys := Names(name, a, n);
    forall i, j | 0 <= i < j < |keys| ensures keys[i] != keys[j] { NamesAscend(name, a, n, i, j); }
  }

  /** The buckets are right for every name from `a` to `b`. */
  ghost predicate HoldsFrom(m: Buckets, es: seq<Entry>, width: nat, name: int -> string, a: int, b: int) {
    forall t :: a <= t <= b ==> BucketFor(m, name(t)) == BucketIn(es, width, {name(t)})
  }

  lemma HoldsNamed(m: Buckets, es: seq<Entry>, width: nat, name: int -> string, a: int, b: int)
    requires Holds(m, es, width, name(a), name(b)) && Ascending(name, a, b)
    ensures HoldsFrom(m, es, width, name, a, b)
  {
    forall t | a <= t <= b ensures BucketFor(m, name(t)) == BucketIn(es, width, {name(t)}) {
      assert InRange(name(t), name(a), name(b));
    }
  }

  /** A cursor that is at `clock(k)` for the `k`th name shows that name, and `next` takes it to the one after. */
  ghost predicate Cursor(show: int -> string, next: int -> int, clock: int -> int, name: int -> string) {
    && (forall k :: show(clock(k)) == name(k))
    && (forall k :: next(clock(k)) == clock(k + 1))
    && (forall k, l :: clock(k) <= clock(l) <==> k <= l)
  }

  /** The second loop of both queries: a row for every stop of the cursor up to `end`. */
  method WalkRows(ghost entries: seq<Entry>, m: Buckets, ghost width: nat, show: int -> string, next: int -> int,
                  start: int, end: int, ghost clock: int -> int, ghost name: int -> string, ghost first: int, ghost last: int)
    returns (out: seq<Summary>)
    requires Cursor(show, next, clock, name) && start == clock(first) && end == clock(last)
    requires HoldsFrom(m, entries, width, name, first, last)
    ensures out == Rows(entries, width, Names(name, first, Span(first, last)))
  {
    out := [];
    var cur := start;
    ghost var k, stop := first, first + Span(first, last);
    while cur <= end
      invariant first <= k <= stop && cur == clock(k)
      invariant out == RowsTo(entries, width, name, first, k)
      decreases stop - k
    {
      AtStop(show, next, clock, name, k, last);
      StopBucket(m, entries, width, name, first, last, k);
      var row := MakeRow(m, show(cur));
      OneMoreRow(entries, width, name, first, k, row);
      out := out + [row];
      cur := next(cur);
      k := k + 1;
    }
    AtStop(show, next, clock, name, k, last);
    AllRows(entries, width, name, first, last);
  }

  lemma AtStop(show: int -> string, next: int -> int, clock: int -> int, name: int -> string, k: int, last: int)
    requires Cursor(show, next, clock, name)
    ensures show(clock(k)) == name(k) && next(clock(k)) == clock(k + 1) && (clock(k) <= clock(last) <==> k <= last)
  {
  }

  lemma StopBucket(m: Buckets, es: seq<Entry>, width: nat, name: int -> string, a: int, b: int, k: int)
    requires HoldsFrom(m, es, width, name, a, b) && a <= k <= b
    ensures BucketFor(m, name(k)) == BucketIn(es, width, {name(k)})
  {
  }

  // ---------------------------------------------------------------- conservation

  function Elements(keys: seq<string>): set<string> { set k | k in keys }

  predicate Distinct(keys: seq<string>) { forall i, j :: 0 <= i < j < |keys| ==> keys[i] != keys[j] }

  function TokensOf(rows: seq<Summary>): int {
    if rows == [] then 0 else TokensOf(rows[..|rows| - 1]) + rows[|rows| - 1].tokens
  }

  function CostOf(rows: seq<Summary>): real {
    if rows == [] then 0.0 else CostOf(rows[..|rows| - 1]) + rows[|rows| - 1].cost
  }

  function RequestsOf(rows: seq<Summary>): int {
    if rows == [] then 0 else RequestsOf(rows[..|rows| - 1]) + rows[|rows| - 1].requests
  }

  /** The rows' costs before rounding. */
  function UnroundedCost(es: seq<Entry>, width: nat, keys: seq<string>): real {
    if keys == [] then 0.0
    else UnroundedCost(es, width, keys[..|keys| - 1]) + BucketIn(es, width, {keys[|keys| - 1]}).cost
  }

  lemma RowsSnoc(es: seq<Entry>, width: nat, keys: seq<string>)
    requires keys != []
    ensures var init, b := keys[..|keys| - 1], BucketIn(es, width, {keys[|keys| - 1]});
            && TokensOf(Rows(es, width, keys)) == TokensOf(Rows(es, width, init)) + b.tokens
            && CostOf(Rows(es, width, keys)) == CostOf(Rows(es, width, init)) + Round2(b.cost)
            && RequestsOf(Rows(es, width, keys)) == RequestsOf(Rows(es, width, init)) + |b.reqs|
  {
    var rows := Rows(es, width, keys);
    assert rows[..|rows| - 1] == Rows(es, width, keys[..|keys| - 1]);
  }

  /** Disjoint keys add up. */
  lemma BucketsAdd(es: seq<Entry>, width: nat, keys: set<string>, key: string)
    requires key !in keys
    ensures BucketIn(es, width, keys + {key}) == Both(BucketIn(es, width, keys), BucketIn(es, width, {key}))
  {
    WhereAdds(es, Under(width, keys), Under(width, {key}), Under(width, keys + {key}));
  }

  lemma NoKeys(es: seq<Entry>, width: nat)
    ensures BucketIn(es, width, {}) == EMPTY_BUCKET
  {
    WhereNone(es, Under(width, {}));
  }

  lemma ElementsSnoc(keys: seq<string>)
    requires keys != [] && Distinct(keys)
    ensures var init, key := keys[..|keys| - 1], keys[|keys| - 1];
            Elements(keys) == Elements(init) + {key} && key !in Elements(init) && Distinct(init)
  {
  }

  /** Rows of distinct keys count each entry under those keys exactly once. */
  lemma {:induction false} RowsConserve(es: seq<Entry>, width: nat, keys: seq<string>)
    requires Distinct(keys)
    ensures var b := BucketIn(es, width, Elements(keys));
            TokensOf(Rows(es, width, keys)) == b.tokens && UnroundedCost(es, width, keys) == b.cost
  {
    if keys == [] {
      assert Elements(keys) == {};
      NoKeys(es, width);
    } else {
      var init, key := keys[..|keys| - 1], keys[|keys| - 1];
      ElementsSnoc(keys);
      RowsConserve(es, width, init);
      BucketsAdd(es, width, Elements(init), key);
      RowsSnoc(es, width, keys);
    }
  }

  /** Rounding moves a sum of rows by half a cent a row at most. */
  lemma {:induction false} RoundingBound(es: seq<Entry>, width: nat, keys: seq<string>)
    ensures var d := CostOf(Rows(es, width, keys)) - UnroundedCost(es, width, keys);
            -0.005 * |keys| as real <= d <= 0.005 * |keys| as real
  {
    if keys != [] {
      RoundingBound(es, width, keys[..|keys| - 1]);
      RowsSnoc(es, width, keys);
      HalfCent(BucketIn(es, width, {keys[|keys| - 1]}).cost, 0);
    }
  }

  lemma CardOfUnion(a: set<string>, b: set<string>)
    ensures |a| <= |a + b| <= |a| + |b| && |b| <= |a + b|
  {
    Subset((a + b) - a, b);
    Subset(b, a + b);
    assert a + b == a + ((a + b) - a);
  }

  lemma {:induction false} Subset(a: set<string>, b: set<string>)
    requires a <= b
    ensures |a| <= |b|
  {
    if x :| x in a { Subset(a - {x}, b - {x}); }
  }

  /** Distinct requests of all keys: at least those of each row, at most those of the rows together. */
  lemma {:induction false} RequestsBetween(es: seq<Entry>, width: nat, keys: seq<string>, i: nat)
    requires Distinct(keys)
    ensures |BucketIn(es, width, Elements(keys)).reqs| <= RequestsOf(Rows(es, width, keys))
    ensures i < |keys| ==> Rows(es, width, keys)[i].requests <= |BucketIn(es, width, Elements(keys)).reqs|
  {
    if keys == [] {
      assert Elements(keys) == {};
      NoKeys(es, width);
    } else {
      var init, key := keys[..|keys| - 1], keys[|keys| - 1];
      ElementsSnoc(keys);
      RequestsBetween(es, width, init, i);
      BucketsAdd(es, width, Elements(init), key);
      CardOfUnion(BucketIn(es, width, Elements(init)).reqs, BucketIn(es, width, {key}).reqs);
      RowsSnoc(es, width, keys);
    }
  }
}
