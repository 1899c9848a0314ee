/**
 The in-memory cache of server/cache/AggregationCache.ts: TTL, least-recently-used and
 memory eviction over an insertion-ordered map.

 `CacheState` holds the class's fields as a value and one function per operation says what
 the operation does to them; the class's methods are proved to do that. Whole runs are
 compared with the history of calls: a hit returns what the latest `set` stored.
 */
module AggregationCaches {
  import opened Wrappers

  /** A cached value: its identity, and its JSON text unless it cannot be serialised. */
  datatype Value = Value(id: int, json: Option<string>)

  datatype Entry = Entry(key: string, value: Value, timestamp: int, ttl: int, lastAccess: int, sizeBytes: nat)

  /** A JavaScript Map: entries in insertion order, keys distinct. */
  type Entries = seq<Entry>

  datatype Evictions = Evictions(ttl: nat, size: nat, memory: nat, manual: nat)

  const NO_EVICTIONS := Evictions(0, 0, 0, 0)

  datatype CacheState = CacheState(
    entries: Entries, hitCount: nat, missCount: nat, evictions: Evictions, shuttingDown: bool)

  datatype Options = Options(defaultTtl: int, maxEntries: int, maxMemoryMB: real)

  const ENTRY_OVERHEAD := 200

  function EstimateSize(v: Value): nat {
    match v.json case Some(text) => |text| * 2 case None => 1024
  }

  // ---------------------------------------------------------------- the ordered map

  function Find(es: Entries, key: string): (i: int)
    ensures -1 <= i < |es|
    ensures i >= 0 ==> es[i].key == key
    ensures i == -1 <==> forall e :: e in es ==> e.key != key
  {
    if es == [] then -1
    else if es[|es| - 1].key == key then |es| - 1
    else Find(es[..|es| - 1], key)
  }

  ghost predicate Distinct(es: Entries) {
    forall i, j :: 0 <= i < j < |es| ==> es[i].key != es[j].key
  }

  /** `entries.set`: an existing key keeps its place. */
  function Put(es: Entries, e: Entry): Entries {
    var i := Find(es, e.key);
    if i == -1 then es + [e] else es[i := e]
  }

  /** `entries.delete`. */
  function Delete(es: Entries, key: string): Entries {
    var i := Find(es, key);
    if i == -1 then es else es[..i] + es[i + 1..]
  }

  function DeleteAll(es: Entries, keys: seq<string>): Entries {
    if keys == [] then es else Delete(DeleteAll(es, keys[..|keys| - 1]), keys[|keys| - 1])
  }

  lemma PutKeepsOthers(es: Entries, e: Entry)
    requires Distinct(es)
    ensures Distinct(Put(es, e))
    ensures forall x :: x in Put(es, e) <==> x == e || (x in es && x.key != e.key)
    ensures |Put(es, e)| == |es| + if Find(es, e.key) == -1 then 1 else 0
  {
    var i, r := Find(es, e.key), Put(es, e);
    if i >= 0 {
      forall x ensures x in r <==> x == e || (x in es && x.key != e.key) {
        if x == e { assert r[i] == x; }
        if x in es && x.key != e.key {
          var k :| 0 <= k < |es| && es[k] == x;
          assert r[k] == x;
        }
      }
    } else {
      assert forall k :: 0 <= k < |es| ==> es[k] in es;
    }
  }

  lemma DeleteKeepsOthers(es: Entries, key: string)
    requires Distinct(es)
    ensures Distinct(Delete(es, key))
    ensures forall x :: x in Delete(es, key) <==> x in es && x.key != key
    ensures |Delete(es, key)| == |es| - if Find(es, key) == -1 then 0 else 1
  {
    var i := Find(es, key);
    if i >= 0 {
      RemoveAt(es, i);
    }
  }

  lemma RemoveAt(es: Entries, i: nat)
    requires Distinct(es) && i < |es|
    ensures Distinct(es[..i] + es[i + 1..])
    ensures forall x :: x in es[..i] + es[i + 1..] <==> x in es && x.key != es[i].key
  {
    var r := es[..i] + es[i + 1..];
    assert forall k :: 0 <= k < |r| ==> r[k] == es[if k < i then k else k + 1];
    forall x | x in es && x.key != es[i].key ensures x in r {
      var k :| 0 <= k < |es| && es[k] == x;
      assert r[if k < i then k else k - 1] == x;
    }
  }

  lemma {:induction false} DeleteAllKeepsOthers(es: Entries, keys: seq<string>)
    requires Distinct(es)
    ensures Distinct(DeleteAll(es, keys))
    ensures forall x :: x in DeleteAll(es, keys) <==> x in es && x.key !in keys
  {
    if keys != [] {
      var init, last := keys[..|keys| - 1], keys[|keys| - 1];
      DeleteAllKeepsOthers(es, init);
      DeleteKeepsOthers(DeleteAll(es, init), last);
      LastOrBefore(keys);
    }
  }

  lemma LastOrBefore(keys: seq<string>)
    requires keys != []
    ensures forall k :: k in keys <==> k in keys[..|keys| - 1] || k == keys[|keys| - 1]
  {
    assert keys == keys[..|keys| - 1] + [keys[|keys| - 1]];
  }

  predicate DistinctKeys(keys: seq<string>) {
    forall i, j :: 0 <= i < j < |keys| ==> keys[i] != keys[j]
  }

  ghost predicate Present(es: Entries, key: string) { exists e :: e in es && e.key == key }

  /** Deleting distinct present keys removes one entry each. */
  lemma {:induction false} DeleteAllCount(es: Entries, keys: seq<string>)
    requires Distinct(es) && DistinctKeys(keys) && forall k :: k in keys ==> Present(es, k)
    ensures |DeleteAll(es, keys)| == |es| - |keys|
  {
    if keys != [] {
      var init, last := keys[..|keys| - 1], keys[|keys| - 1];
      assert forall k :: k in init ==> k in keys;
      DeleteAllCount(es, init);
      DeleteAllKeepsOthers(es, init);
      DeleteKeepsOthers(DeleteAll(es, init), last);
      assert last in keys && Present(es, last);
      var e :| e in es && e.key == last;
      assert last !in init && e in DeleteAll(es, init);
    }
  }

  // ---------------------------------------------------------------- least recently used

  /** `sort` by `lastAccess`, stable: an equal entry goes behind. */
  function SortByAccess(es: Entries): Entries {
    if es == [] then [] else InsertByAccess(SortByAccess(es[..|es| - 1]), es[|es| - 1])
  }

  function InsertByAccess(sorted: Entries, e: Entry): Entries {
    if sorted == [] || sorted[|sorted| - 1].lastAccess <= e.lastAccess then sorted + [e]
    else InsertByAccess(sorted[..|sorted| - 1], e) + [sorted[|sorted| - 1]]
  }

  ghost predicate Ascending(es: Entries) {
    forall i, j :: 0 <= i < j < |es| ==> es[i].lastAccess <= es[j].lastAccess
  }

  lemma {:induction false} InsertByAccessMembers(sorted: Entries, e: Entry)
    ensures var r := InsertByAccess(sorted, e);
            |r| == |sorted| + 1 && forall x :: x in r <==> x == e || x in sorted
  {
    if sorted != [] && sorted[|sorted| - 1].lastAccess > e.lastAccess {
      var init, last := sorted[..|sorted| - 1], sorted[|sorted| - 1];
      InsertByAccessMembers(init, e);
      assert sorted == init + [last];
    }
  }

  lemma {:induction false} InsertByAccessAscending(sorted: Entries, e: Entry)
    requires Ascending(sorted)
    ensures Ascending(InsertByAccess(sorted, e))
  {
    if sorted != [] && sorted[|sorted| - 1].lastAccess > e.lastAccess {
      var init, last := sorted[..|sorted| - 1], sorted[|sorted| - 1];
      var r := InsertByAccess(init, e);
      InsertByAccessAscending(init, e);
      InsertByAccessMembers(init, e);
      assert forall k :: 0 <= k < |r| ==> r[k] in r;
      assert forall x :: x in init ==> x.lastAccess <= last.lastAccess;
    }
  }

  lemma {:induction false} InsertByAccessDistinct(sorted: Entries, e: Entry)
    requires Distinct(sorted) && forall x :: x in sorted ==> x.key != e.key
    ensures Distinct(InsertByAccess(sorted, e))
  {
    if sorted != [] && sorted[|sorted| - 1].lastAccess > e.lastAccess {
      var init, last := sorted[..|sorted| - 1], sorted[|sorted| - 1];
      var r := InsertByAccess(init, e);
      assert forall x :: x in init ==> x in sorted && x.key != last.key;
      InsertByAccessDistinct(init, e);
      InsertByAccessMembers(init, e);
      assert last in sorted;
      assert forall k :: 0 <= k < |r| ==> r[k] in r;
    } else {
      assert forall k :: 0 <= k < |sorted| ==> sorted[k] in sorted;
    }
  }

  lemma {:induction false} SortByAccessSorts(es: Entries)
    requires Distinct(es)
    ensures var r := SortByAccess(es);
            Ascending(r) && Distinct(r) && |r| == |es| && (forall x :: x in r <==> x in es)
  {
    if es != [] {
      var init, last := es[..|es| - 1], es[|es| - 1];
      assert es == init + [last];
      LastIsNew(init, last);
      SortByAccessSorts(init);
      InsertByAccessMembers(SortByAccess(init), last);
      InsertByAccessAscending(SortByAccess(init), last);
      InsertByAccessDistinct(SortByAccess(init), last);
    }
  }

  lemma LastIsNew(init: Entries, last: Entry)
    requires Distinct(init + [last])
    ensures Distinct(init) && forall x :: x in init ==> x.key != last.key
  {
    FirstDistinct(init, last);
    forall x | x in init ensures x.key != last.key {
      var i :| 0 <= i < |init| && init[i] == x;
      assert (init + [last])[i] == x && (init + [last])[|init|] == last;
    }
  }

  function KeysOf(es: Entries): (keys: seq<string>)
    ensures |keys| == |es| && forall i :: 0 <= i < |es| ==> keys[i] == es[i].key
  {
    seq(|es|, i requires 0 <= i < |es| => es[i].key)
  }

  function Min(a: int, b: int): int { if a < b then a else b }

  function Max(a: int, b: int): int { if a > b then a else b }

  /** The keys of the `n` least recently used entries. */
  function VictimKeys(es: Entries, n: int): seq<string>
    requires n >= 0 && Distinct(es)
  {
    SortByAccessSorts(es);
    KeysOf(SortByAccess(es)[..Min(n, |es|)])
  }

  function Evict(es: Entries, n: int): Entries
    requires n >= 0 && Distinct(es)
  {
    DeleteAll(es, VictimKeys(es, n))
  }

  /** Eviction removes exactly `n` entries (or all), and none that was used after a survivor. */
  lemma EvictChoosesOldest(es: Entries, n: int)
    requires n >= 0 && Distinct(es)
    ensures Distinct(Evict(es, n)) && |Evict(es, n)| == |es| - Min(n, |es|)
    ensures forall x :: x in Evict(es, n) ==> x in es
    ensures forall v, s :: v in es && v !in Evict(es, n) && s in Evict(es, n) ==> v.lastAccess <= s.lastAccess
  {
    var keys := VictimKeys(es, n);
    VictimsDistinct(es, n);
    DeleteAllCount(es, keys);
    DeleteAllKeepsOthers(es, keys);
    forall v, s | v in es && v !in Evict(es, n) && s in Evict(es, n) ensures v.lastAccess <= s.lastAccess {
      assert v.key in keys && s in es && s.key !in keys;
      VictimsBeforeSurvivors(es, n, v, s);
    }
  }

  lemma VictimsDistinct(es: Entries, n: int)
    requires n >= 0 && Distinct(es)
    ensures DistinctKeys(VictimKeys(es, n)) && |VictimKeys(es, n)| == Min(n, |es|)
    ensures forall k :: k in VictimKeys(es, n) ==> Present(es, k)
  {
    SortByAccessSorts(es);
    var sorted, keys := SortByAccess(es), VictimKeys(es, n);
    assert forall i :: 0 <= i < |keys| ==> sorted[i] in sorted && keys[i] == sorted[i].key;
  }

  lemma VictimsBeforeSurvivors(es: Entries, n: int, v: Entry, s: Entry)
    requires n >= 0 && Distinct(es) && v in es && s in es
    requires v.key in VictimKeys(es, n) && s.key !in VictimKeys(es, n)
    ensures v.lastAccess <= s.lastAccess
  {
    SortByAccessSorts(es);
    var sorted, keys := SortByAccess(es), VictimKeys(es, n);
    var i :| 0 <= i < |keys| && keys[i] == v.key;
    var iv :| 0 <= iv < |sorted| && sorted[iv] == v;
    var js :| 0 <= js < |sorted| && sorted[js] == s;
    assert i == iv;
    assert forall j :: 0 <= j < |keys| ==> keys[j] == sorted[j].key;
  }

  /** The entry used last, with ties broken by insertion order, is not evicted while another one can be. */
  lemma NewestSurvives(es: Entries, e: Entry, n: int)
    requires Distinct(es + [e]) && 0 <= n <= |es|
    requires forall x :: x in es ==> x.lastAccess <= e.lastAccess
    ensures e in Evict(es + [e], n)
  {
    var all := es + [e];
    NewestIsLast(es, e);
    VictimsDistinct(all, n);
    DeleteAllKeepsOthers(all, VictimKeys(all, n));
    assert all[|es|] == e;
    var sorted, keys := SortByAccess(all), VictimKeys(all, n);
    assert forall i :: 0 <= i < |keys| ==> keys[i] == sorted[i].key;
    SortByAccessSorts(all);
    assert e == sorted[|es|];
  }

  lemma DeleteKeepsLast(es: Entries, e: Entry, key: string)
    requires e.key != key
    ensures Delete(es + [e], key) == Delete(es, key) + [e]
  {
    var all := es + [e];
    assert all[..|all| - 1] == es;
    var i := Find(es, key);
    assert Find(all, key) == i;
    if i >= 0 { CutBeforeLast(es, e, i); }
  }

  lemma CutBeforeLast(es: Entries, e: Entry, i: nat)
    requires i < |es|
    ensures (es + [e])[..i] + (es + [e])[i + 1..] == es[..i] + es[i + 1..] + [e]
  {
  }

  lemma {:induction false} DeleteAllKeepsLast(es: Entries, e: Entry, keys: seq<string>)
    requires e.key !in keys
    ensures DeleteAll(es + [e], keys) == DeleteAll(es, keys) + [e]
  {
    if keys != [] {
      var init, last := keys[..|keys| - 1], keys[|keys| - 1];
      LastOrBefore(keys);
      DeleteAllKeepsLast(es, e, init);
      DeleteKeepsLast(DeleteAll(es, init), e, last);
    }
  }

  /** It stays the last one. */
  lemma NewestStaysLast(es: Entries, e: Entry, n: int) returns (rest: Entries)
    requires Distinct(es + [e]) && 0 <= n <= |es|
    requires forall x :: x in es ==> x.lastAccess <= e.lastAccess
    ensures Evict(es + [e], n) == rest + [e] && forall x :: x in rest ==> x in es
  {
    var all := es + [e];
    var keys := VictimKeys(all, n);
    NewestSurvives(es, e, n);
    DeleteAllKeepsOthers(all, keys);
    DeleteAllKeepsLast(es, e, keys);
    rest := DeleteAll(es, keys);
    FirstDistinct(es, e);
    DeleteAllKeepsOthers(es, keys);
  }

  lemma FirstDistinct(es: Entries, e: Entry)
    requires Distinct(es + [e])
    ensures Distinct(es)
  {
    assert forall i :: 0 <= i < |es| ==> (es + [e])[i] == es[i];
  }

  lemma NewestIsLast(es: Entries, e: Entry)
    requires Distinct(es + [e])
    requires forall x :: x in es ==> x.lastAccess <= e.lastAccess
    ensures SortByAccess(es + [e]) == SortByAccess(es) + [e] && |SortByAccess(es)| == |es|
  {
    var all := es + [e];
    assert all[..|es|] == es && all[|es|] == e;
    assert Distinct(es) by {
      assert forall i :: 0 <= i < |es| ==> all[i] == es[i];
    }
    SortByAccessSorts(es);
    var sorted := SortByAccess(es);
    assert forall i :: 0 <= i < |sorted| ==> sorted[i] in sorted;
  }

  // ---------------------------------------------------------------- operations on the fields

  function MemoryBytes(es: Entries): nat {
    if es == [] then 0
    else
      var e := es[|es| - 1];
      MemoryBytes(es[..|es| - 1]) + |e.key| * 2 + e.sizeBytes + ENTRY_OVERHEAD
  }

  predicate OverMemory(es: Entries, maxMemoryMB: real) {
    MemoryBytes(es) as real / 1048576.0 > maxMemoryMB
  }

  predicate Expired(e: Entry, now: int) { now - e.timestamp > e.ttl }

  /** `Math.max(1, Math.ceil(size * 0.2))`. */
  function DropCount(size: nat): nat { Max(1, (size + 4) / 5) }

  function EvictLRU(c: CacheState, n: int): CacheState
    requires n >= 0 && Distinct(c.entries)
  {
    c.(entries := Evict(c.entries, n),
       evictions := c.evictions.(size := c.evictions.size + Min(n, |c.entries|)))
  }

  function EvictByMemory(c: CacheState): CacheState
    requires Distinct(c.entries)
  {
    var n := DropCount(|c.entries|);
    c.(entries := Evict(c.entries, n),
       evictions := c.evictions.(memory := c.evictions.memory + Min(n, |c.entries|)))
  }

  function Get(c: CacheState, key: string, now: int): (CacheState, Option<Value>) {
    var i := Find(c.entries, key);
    if c.shuttingDown then (c, None)
    else if i == -1 then (c.(missCount := c.missCount + 1), None)
    else if Expired(c.entries[i], now) then
      (c.(entries := Delete(c.entries, key), missCount := c.missCount + 1,
          evictions := c.evictions.(ttl := c.evictions.ttl + 1)), None)
    else
      (c.(entries := c.entries[i := c.entries[i].(lastAccess := now)], hitCount := c.hitCount + 1),
       Some(c.entries[i].value))
  }

  function NewEntry(o: Options, key: string, value: Value, ttl: Option<int>, now: int): Entry {
    Entry(key, value, now, if ttl.Some? then ttl.value else o.defaultTtl, now, EstimateSize(value))
  }

  /** `set` before any eviction. */
  function Written(o: Options, c: CacheState, key: string, value: Value, ttl: Option<int>, now: int): (w: CacheState)
    requires Distinct(c.entries)
    ensures Distinct(w.entries)
  {
    PutKeepsOthers(c.entries, NewEntry(o, key, value, ttl, now));
    c.(entries := Put(c.entries, NewEntry(o, key, value, ttl, now)))
  }

  /** `set` after the size eviction, before the memory eviction. */
  function Trimmed(o: Options, c: CacheState): CacheState
    requires Distinct(c.entries)
  {
    if |c.entries| > o.maxEntries then EvictLRU(c, |c.entries| - o.maxEntries) else c
  }

  function Set(o: Options, c: CacheState, key: string, value: Value, ttl: Option<int>, now: int): CacheState
    requires Distinct(c.entries)
  {
    if c.shuttingDown then c
    else
      var w := Written(o, c, key, value, ttl, now);
      var t := Trimmed(o, w);
      TrimmedFits(o, w);
      if OverMemory(t.entries, o.maxMemoryMB) then EvictByMemory(t) else t
  }

  lemma TrimmedFits(o: Options, c: CacheState)
    requires Distinct(c.entries)
    ensures Distinct(Trimmed(o, c).entries)
    ensures |Trimmed(o, c).entries| <= Max(0, o.maxEntries)
    ensures forall x :: x in Trimmed(o, c).entries ==> x in c.entries
  {
    if |c.entries| > o.maxEntries { EvictChoosesOldest(c.entries, |c.entries| - o.maxEntries); }
  }

  /** The keys a pattern matches, in map order. */
  function Matching(es: Entries, pattern: string -> bool): (keys: seq<string>) {
    if es == [] then []
    else
      var init, last := es[..|es| - 1], es[|es| - 1];
      Matching(init, pattern) + if pattern(last.key) then [last.key] else []
  }

  function ExpiredKeys(es: Entries, now: int): (keys: seq<string>) {
    if es == [] then []
    else
      var init, last := es[..|es| - 1], es[|es| - 1];
      ExpiredKeys(init, now) + if Expired(last, now) then [last.key] else []
  }

  function InvalidateKeys(c: CacheState, keys: seq<string>): CacheState {
    c.(entries := DeleteAll(c.entries, keys),
       evictions := c.evictions.(manual := c.evictions.manual + |keys|))
  }

  function Invalidate(c: CacheState, key: string): CacheState {
    if Find(c.entries, key) == -1 then c else InvalidateKeys(c, [key])
  }

  function InvalidatePattern(c: CacheState, pattern: string -> bool): CacheState {
    InvalidateKeys(c, Matching(c.entries, pattern))
  }

  function SweepExpired(c: CacheState, now: int): CacheState {
    var keys := ExpiredKeys(c.entries, now);
    c.(entries := DeleteAll(c.entries, keys), evictions := c.evictions.(ttl := c.evictions.ttl + |keys|))
  }

  function Clear(c: CacheState): CacheState { CacheState([], 0, 0, NO_EVICTIONS, c.shuttingDown) }

  function Shutdown(c: CacheState): CacheState {
    if c.shuttingDown then c else c.(entries := [], shuttingDown := true)
  }

  class AggregationCache {
    const opts: Options
    var entries: Entries
    var hitCount: nat
    var missCount: nat
    var evictions: Evictions
    var shuttingDown: bool

    function State(): CacheState reads this {
      CacheState(entries, hitCount, missCount, evictions, shuttingDown)
    }

    constructor (opts: Options)
      ensures this.opts == opts && State() == CacheState([], 0, 0, NO_EVICTIONS, false)
    {
      this.opts := opts;
      entries, hitCount, missCount, evictions, shuttingDown := [], 0, 0, NO_EVICTIONS, false;
    }

    method GetKey(key: string, now: int) returns (r: Option<Value>)
      modifies this
      ensures (State(), r) == Get(old(State()), key, now)
    {
      if shuttingDown { return None; }
      var i := Find(entries, key);
      if i == -1 {
        missCount := missCount + 1;
        return None;
      }
      if now - entries[i].timestamp > entries[i].ttl {
        entries := Delete(entries, key);
        evictions := evictions.(ttl := evictions.ttl + 1);
        missCount := missCount + 1;
        return None;
      }
      r := Some(entries[i].value);
      entries := entries[i := entries[i].(lastAccess := now)];
      hitCount := hitCount + 1;
    }

    method SetKey(key: string, value: Value, ttlMs: Option<int>, now: int)
      requires Distinct(entries)
      modifies this
      ensures Distinct(entries) && State() == Set(opts, old(State()), key, value, ttlMs, now)
    {
      if shuttingDown { return; }
      Store(Entry(key, value, now, if ttlMs.Some? then ttlMs.value else opts.defaultTtl, now, EstimateSize(value)));
      ghost var w := State();
      if |entries| > opts.maxEntries {
        EvictLeastRecent(|entries| - opts.maxEntries);
      }
      assert State() == Trimmed(opts, w);
      var memory := EstimateMemoryMB();
      if memory > opts.maxMemoryMB {
        EvictForMemory();
      }
    }

    method Store(entry: Entry)
      requires Distinct(entries)
      modifies this`entries
      ensures Distinct(entries) && entries == Put(old(entries), entry)
    {
      PutKeepsOthers(entries, entry);
      entries := Put(entries, entry);
    }

    method EvictLeastRecent(count: nat)
      requires Distinct(entries)
      modifies this
      ensures Distinct(entries) && State() == EvictLRU(old(State()), count)
    {
      EvictChoosesOldest(entries, count);
      var dropped := DropOldest(count);
      evictions := evictions.(size := evictions.size + dropped);
    }

    method EvictForMemory()
      requires Distinct(entries)
      modifies this
      ensures Distinct(entries) && State() == EvictByMemory(old(State()))
    {
      EvictChoosesOldest(entries, DropCount(|entries|));
      var dropped := DropOldest(DropCount(|entries|));
      evictions := evictions.(memory := evictions.memory + dropped);
    }

    /** The sort and delete loop shared by `evictLRU` and `evictByMemory`. */
    method DropOldest(count: nat) returns (dropped: nat)
      requires Distinct(entries)
      modifies this`entries
      ensures entries == Evict(old(entries), count) && dropped == Min(count, |old(entries)|)
    {
      SortByAccessSorts(entries);
      var sorted := SortByAccess(entries);
      dropped := Min(count, |sorted|);
      assert KeysOf(sorted[..0]) == [];
      for i := 0 to dropped
        invariant entries == DeleteAll(old(entries), KeysOf(sorted[..i]))
      {
        DropOneMore(old(entries), sorted, i);
        entries := Delete(entries, sorted[i].key);
      }
    }

    method EstimateMemoryMB() returns (mb: real)
      ensures mb == MemoryBytes(entries) as real / 1048576.0
    {
      var total := 0;
      for i := 0 to |entries|
        invariant total == MemoryBytes(entries[..i])
      {
        total := total + |entries[i].key| * 2 + entries[i].sizeBytes + ENTRY_OVERHEAD;
        assert entries[..i + 1][..i] == entries[..i];
      }
      assert entries[..|entries|] == entries;
      mb := total as real / 1048576.0;
    }

    method InvalidateKey(key: string) returns (removed: bool)
      modifies this
      ensures State() == Invalidate(old(State()), key) && (removed <==> Find(old(entries), key) != -1)
    {
      removed := Find(entries, key) != -1;
      DeleteAllSnoc(entries, [], key);
      assert [] + [key] == [key];
      entries := Delete(entries, key);
      if removed { evictions := evictions.(manual := evictions.manual + 1); }
    }

    method InvalidateMatching(pattern: string -> bool) returns (count: nat)
      modifies this`entries, this`evictions
      ensures State() == InvalidatePattern(old(State()), pattern) && count == |Matching(old(entries), pattern)|
    {
      count := DropMatching(pattern);
      if count > 0 { evictions := evictions.(manual := evictions.manual + count); }
    }

    /** The loop of `invalidatePattern`. */
    method DropMatching(pattern: string -> bool) returns (count: nat)
      modifies this`entries
      ensures entries == DeleteAll(old(entries), Matching(old(entries), pattern))
      ensures count == |Matching(old(entries), pattern)|
    {
      var all := entries;
      count := 0;
      for i := 0 to |all|
        invariant entries == DeleteAll(all, Matching(all[..i], pattern)) && count == |Matching(all[..i], pattern)|
      {
        MatchingSnoc(all, i, pattern);
        if pattern(all[i].key) {
          DeleteAllSnoc(all, Matching(all[..i], pattern), all[i].key);
          entries := Delete(entries, all[i].key);
          count := count + 1;
        }
      }
      assert all[..|all|] == all;
    }

    method Sweep(now: int)
      modifies this`entries, this`evictions
      ensures State() == SweepExpired(old(State()), now)
    {
      var all := entries;
      for i := 0 to |all|
        invariant entries == DeleteAll(all, ExpiredKeys(all[..i], now))
        invariant evictions == old(evictions).(ttl := old(evictions).ttl + |ExpiredKeys(all[..i], now)|)
      {
        ExpiredSnoc(all, i, now);
        if now - all[i].timestamp > all[i].ttl {
          DeleteAllSnoc(all, ExpiredKeys(all[..i], now), all[i].key);
          entries := Delete(entries, all[i].key);
          evictions := evictions.(ttl := evictions.ttl + 1);
        }
      }
      assert all[..|all|] == all;
    }

    method ClearAll()
      modifies this
      ensures State() == Clear(old(State()))
    {
      entries, hitCount, missCount, evictions := [], 0, 0, NO_EVICTIONS;
    }

    method ShutDown()
      modifies this
      ensures State() == Shutdown(old(State()))
    {
      if shuttingDown { return; }
      shuttingDown := true;
      entries := [];
    }
  }

  lemma DeleteAllSnoc(es: Entries, keys: seq<string>, key: string)
    ensures DeleteAll(es, keys + [key]) == Delete(DeleteAll(es, keys), key)
  {
    assert (keys + [key])[..|keys|] == keys;
  }

  lemma DropOneMore(es: Entries, sorted: Entries, i: nat)
    requires i < |sorted|
    ensures DeleteAll(es, KeysOf(sorted[..i + 1])) == Delete(DeleteAll(es, KeysOf(sorted[..i])), sorted[i].key)
  {
    DeleteAllSnoc(es, KeysOf(sorted[..i]), sorted[i].key);
    KeysSnoc(sorted, i);
  }

  lemma KeysSnoc(es: Entries, i: nat)
    requires i < |es|
    ensures KeysOf(es[..i + 1]) == KeysOf(es[..i]) + [es[i].key]
  {
  }

  lemma MatchingSnoc(es: Entries, i: nat, pattern: string -> bool)
    requires i < |es|
    ensures Matching(es[..i + 1], pattern)
            == if pattern(es[i].key) then Matching(es[..i], pattern) + [es[i].key] else Matching(es[..i], pattern)
  {
    assert es[..i + 1][..i] == es[..i];
  }

  lemma ExpiredSnoc(es: Entries, i: nat, now: int)
    requires i < |es|
    ensures ExpiredKeys(es[..i + 1], now)
            == if Expired(es[i], now) then ExpiredKeys(es[..i], now) + [es[i].key] else ExpiredKeys(es[..i], now)
  {
    assert es[..i + 1][..i] == es[..i];
  }

  // ---------------------------------------------------------------- single calls

  /**
   What one `set` of an open cache does besides writing: the size never exceeds
   `maxEntries`, whoever was evicted was used no later than whoever stayed, and a memory
   eviction takes a fifth of the entries, rounded up and at least one.
   */
  lemma SetEvicts(o: Options, c: CacheState, key: string, value: Value, ttl: Option<int>, now: int)
    requires Distinct(c.entries) && !c.shuttingDown
    ensures var w := Written(o, c, key, value, ttl, now).entries;
            var t := Trimmed(o, Written(o, c, key, value, ttl, now)).entries;
            var r := Set(o, c, key, value, ttl, now).entries;
            && |t| == Min(|w|, Max(0, o.maxEntries)) && |r| <= Max(0, o.maxEntries)
            && (|r| == if OverMemory(t, o.maxMemoryMB) then |t| - Min(DropCount(|t|), |t|) else |t|)
            && (forall v, s :: v in w && v !in t && s in t ==> v.lastAccess <= s.lastAccess)
            && (forall v, s :: v in t && v !in r && s in r ==> v.lastAccess <= s.lastAccess)
  {
    var w := Written(o, c, key, value, ttl, now);
    var t := Trimmed(o, w);
    TrimmedFits(o, w);
    TrimmedOldest(o, w);
    EvictChoosesOldest(t.entries, DropCount(|t.entries|));
  }

  lemma TrimmedOldest(o: Options, w: CacheState)
    requires Distinct(w.entries)
    ensures var t := Trimmed(o, w).entries;
            && |t| == Min(|w.entries|, Max(0, o.maxEntries))
            && forall v, s :: v in w.entries && v !in t && s in t ==> v.lastAccess <= s.lastAccess
  {
    if |w.entries| > o.maxEntries { EvictChoosesOldest(w.entries, |w.entries| - o.maxEntries); }
  }

  // ---------------------------------------------------------------- runs

  datatype Op =
    | GetOp(key: string, now: int)
    | SetOp(key: string, value: Value, ttl: Option<int>, now: int)
    | InvalidateOp(key: string)
    | InvalidatePatternOp(pattern: string -> bool)
    | SweepOp(now: int)
    | ClearOp
    | ShutdownOp

  function Apply(o: Options, c: CacheState, op: Op): (n: CacheState)
    requires Distinct(c.entries)
    ensures Distinct(n.entries)
  {
    ApplyDistinct(o, c, op);
    match op
    case GetOp(key, now) => Get(c, key, now).0
    case SetOp(key, value, ttl, now) => Set(o, c, key, value, ttl, now)
    case InvalidateOp(key) => Invalidate(c, key)
    case InvalidatePatternOp(pattern) => InvalidatePattern(c, pattern)
    case SweepOp(now) => SweepExpired(c, now)
    case ClearOp => Clear(c)
    case ShutdownOp => Shutdown(c)
  }

  lemma ApplyDistinct(o: Options, c: CacheState, op: Op)
    requires Distinct(c.entries)
    ensures match op
            case GetOp(key, now) => Distinct(Get(c, key, now).0.entries)
            case SetOp(key, value, ttl, now) => Distinct(Set(o, c, key, value, ttl, now).entries)
            case InvalidateOp(key) => Distinct(Invalidate(c, key).entries)
            case InvalidatePatternOp(pattern) => Distinct(InvalidatePattern(c, pattern).entries)
            case SweepOp(now) => Distinct(SweepExpired(c, now).entries)
            case _ => true
  {
    match op
    case GetOp(key, now) => DeleteKeepsOthers(c.entries, key);
    case SetOp(key, value, ttl, now) =>
      if !c.shuttingDown {
        var t := Trimmed(o, Written(o, c, key, value, ttl, now));
        TrimmedFits(o, Written(o, c, key, value, ttl, now));
        EvictChoosesOldest(t.entries, DropCount(|t.entries|));
      }
    case InvalidateOp(key) => DeleteAllKeepsOthers(c.entries, [key]);
    case InvalidatePatternOp(pattern) => DeleteAllKeepsOthers(c.entries, Matching(c.entries, pattern));
    case SweepOp(now) => DeleteAllKeepsOthers(c.entries, ExpiredKeys(c.entries, now));
    case _ =>
  }

  const EMPTY := CacheState([], 0, 0, NO_EVICTIONS, false)

  function Run(o: Options, ops: seq<Op>): (c: CacheState)
    ensures Distinct(c.entries)
  {
    if ops == [] then EMPTY else Apply(o, Run(o, ops[..|ops| - 1]), ops[|ops| - 1])
  }

  predicate Down(ops: seq<Op>) { ops != [] && (ops[|ops| - 1].ShutdownOp? || Down(ops[..|ops| - 1])) }

  datatype Stored = Stored(value: Value, at: int, ttl: int)

  predicate Alive(s: Stored, now: int) { now - s.at <= s.ttl }

  /**
   The plain map a cache stands for, read off the history of calls: what the latest `set`
   of the key stored, unless it was invalidated or cleared since.
   */
  function Latest(o: Options, ops: seq<Op>, key: string): Option<Stored> {
    if ops == [] then None
    else
      var init, last := ops[..|ops| - 1], ops[|ops| - 1];
      match last
      case SetOp(k, value, ttl, now) =>
        if k == key && !Down(init) then Some(Stored(value, now, if ttl.Some? then ttl.value else o.defaultTtl))
        else Latest(o, init, key)
      case InvalidateOp(k) => if k == key then None else Latest(o, init, key)
      case InvalidatePatternOp(pattern) => if pattern(key) then None else Latest(o, init, key)
      case ClearOp => None
      case ShutdownOp => None
      case _ => Latest(o, init, key)
  }

  function StoredOf(e: Entry): Stored { Stored(e.value, e.timestamp, e.ttl) }

  /** Everything cached is what the history says. */
  ghost predicate Agrees(o: Options, ops: seq<Op>) {
    && (Run(o, ops).shuttingDown <==> Down(ops))
    && (Down(ops) ==> Run(o, ops).entries == [])
    && forall e :: e in Run(o, ops).entries ==> Latest(o, ops, e.key) == Some(StoredOf(e))
  }

  lemma {:induction false} RunAgrees(o: Options, ops: seq<Op>)
    ensures Agrees(o, ops)
  {
    if ops == [] {
      NothingAgrees(o);
    } else {
      var init, last := ops[..|ops| - 1], ops[|ops| - 1];
      assert ops == init + [last];
      RunAgrees(o, init);
      AgreesStep(o, init, last, ops);
    }
  }

  lemma NothingAgrees(o: Options)
    ensures Agrees(o, [])
  {
  }

  lemma AgreesStep(o: Options, init: seq<Op>, last: Op, ops: seq<Op>)
    requires Agrees(o, init) && ops == init + [last]
    ensures Agrees(o, ops)
  {
    assert ops[..|ops| - 1] == init;
    var c, n := Run(o, init), Run(o, ops);
    if !c.shuttingDown {
      match last
      case GetOp(key, now) => GetMembers(c, key, now);
      case SetOp(key, value, ttl, now) => SetMembers(o, c, key, value, ttl, now);
      case InvalidateOp(key) => DeleteAllKeepsOthers(c.entries, [key]);
      case InvalidatePatternOp(pattern) =>
        MatchingKeys(c.entries, pattern);
        DeleteAllKeepsOthers(c.entries, Matching(c.entries, pattern));
      case SweepOp(now) => DeleteAllKeepsOthers(c.entries, ExpiredKeys(c.entries, now));
      case _ =>
    }
    if c.shuttingDown { ClosedStaysEmpty(o, c, last); }
  }

  lemma ClosedStaysEmpty(o: Options, c: CacheState, op: Op)
    requires c.shuttingDown && c.entries == []
    ensures Apply(o, c, op).entries == [] && Apply(o, c, op).shuttingDown
  {
    match op
    case InvalidatePatternOp(pattern) => assert Matching([], pattern) == [];
    case SweepOp(now) => assert ExpiredKeys([], now) == [];
    case _ =>
  }

  /** Recording an access changes no key and nothing that is stored. */
  lemma TouchMembers(es: Entries, i: nat, now: int)
    requires i < |es|
    ensures var r := es[i := es[i].(lastAccess := now)];
            && (forall e :: e in r ==> exists x :: x in es && x.key == e.key && StoredOf(x) == StoredOf(e))
            && (forall x :: x in es ==> Present(r, x.key))
  {
    var r := es[i := es[i].(lastAccess := now)];
    forall e | e in r ensures exists x :: x in es && x.key == e.key && StoredOf(x) == StoredOf(e) {
      var k :| 0 <= k < |r| && r[k] == e;
      assert es[k] in es;
    }
    forall x | x in es ensures Present(r, x.key) {
      var k :| 0 <= k < |es| && es[k] == x;
      assert r[k] in r;
    }
  }

  /** A `get` keeps what every entry stores, but drops the entry it looked for when that has expired. */
  lemma GetMembers(c: CacheState, key: string, now: int)
    requires Distinct(c.entries)
    ensures var r := Get(c, key, now).0.entries;
            && (forall e :: e in r ==> exists x :: x in c.entries && x.key == e.key && StoredOf(x) == StoredOf(e))
            && (forall x :: x in c.entries && (x.key != key || !Expired(x, now)) ==> Present(r, x.key))
  {
    var i := Find(c.entries, key);
    if !c.shuttingDown && i >= 0 {
      if Expired(c.entries[i], now) {
        DeleteKeepsOthers(c.entries, key);
        assert forall x :: x in c.entries && x.key == key ==> x == c.entries[i];
      } else {
        TouchMembers(c.entries, i, now);
      }
    }
  }

  /** After a `set` only the new entry and untouched old ones can be there. */
  lemma SetMembers(o: Options, c: CacheState, key: string, value: Value, ttl: Option<int>, now: int)
    requires Distinct(c.entries) && !c.shuttingDown
    ensures forall e :: e in Set(o, c, key, value, ttl, now).entries ==>
      e == NewEntry(o, key, value, ttl, now) || (e in c.entries && e.key != key)
  {
    PutKeepsOthers(c.entries, NewEntry(o, key, value, ttl, now));
    var w := Written(o, c, key, value, ttl, now);
    var t := Trimmed(o, w);
    TrimmedFits(o, w);
    EvictChoosesOldest(t.entries, DropCount(|t.entries|));
  }

  lemma {:induction false} MatchingKeys(es: Entries, pattern: string -> bool)
    ensures forall k :: k in Matching(es, pattern) <==> Present(es, k) && pattern(k)
  {
    if es != [] {
      var init, last := es[..|es| - 1], es[|es| - 1];
      MatchingKeys(init, pattern);
      assert es == init + [last];
      assert forall k :: Present(es, k) <==> Present(init, k) || k == last.key;
    }
  }

  /** Cache refinement: a hit is what the latest `set` stored, not invalidated since and within its TTL. */
  lemma HitIsLatest(o: Options, ops: seq<Op>, key: string, now: int)
    ensures var r := Get(Run(o, ops), key, now).1;
            r.Some? ==> && Latest(o, ops, key).Some? && Latest(o, ops, key).value.value == r.value
                        && Alive(Latest(o, ops, key).value, now)
  {
    RunAgrees(o, ops);
    var c := Run(o, ops);
    var i := Find(c.entries, key);
    if i >= 0 { assert c.entries[i] in c.entries; }
  }

  // ---------------------------------------------------------------- what a use is

  /** When a key was used last, read off the history: the time of the latest `get` or `set` of it. */
  function LastUse(ops: seq<Op>, key: string): int {
    if ops == [] then 0
    else
      match ops[|ops| - 1]
      case GetOp(k, now) => if k == key then now else LastUse(ops[..|ops| - 1], key)
      case SetOp(k, _, _, now) => if k == key then now else LastUse(ops[..|ops| - 1], key)
      case _ => LastUse(ops[..|ops| - 1], key)
  }

  /** The entry was used when the history says, and is as large as its value's text. */
  predicate Kept(ops: seq<Op>, e: Entry) {
    && e.lastAccess == LastUse(ops, e.key)
    && e.sizeBytes == (if e.value.json.Some? then 2 * |e.value.json.value| else 1024)
  }

  /** After any run every entry there is was used last when the history says. */
  lemma {:induction false} UsesAreRecorded(o: Options, ops: seq<Op>)
    ensures forall e :: e in Run(o, ops).entries ==> Kept(ops, e)
  {
    if ops != [] {
      var init, last := ops[..|ops| - 1], ops[|ops| - 1];
      UsesAreRecorded(o, init);
      RunAgrees(o, init);
      forall e | e in Run(o, ops).entries ensures Kept(ops, e) { UsesStep(o, init, last, ops, e); }
    }
  }

  lemma UsesStep(o: Options, init: seq<Op>, last: Op, ops: seq<Op>, e: Entry)
    requires ops != [] && init == ops[..|ops| - 1] && last == ops[|ops| - 1] && e in Run(o, ops).entries
    requires Agrees(o, init) && forall x :: x in Run(o, init).entries ==> Kept(init, x)
    ensures Kept(ops, e)
  {
    var c := Run(o, init);
    if c.shuttingDown {
      ClosedStaysEmpty(o, c, last);
    } else {
      Members(o, c, last, e);
    }
  }

  /** What is there after an operation was there before, unless the operation wrote or touched it. */
  lemma Members(o: Options, c: CacheState, op: Op, e: Entry)
    requires Distinct(c.entries) && !c.shuttingDown && e in Apply(o, c, op).entries
    ensures match op
            case GetOp(key, now) =>
              if e.key == key then exists x :: x in c.entries && x.key == key && e == x.(lastAccess := now) else e in c.entries
            case SetOp(key, value, ttl, now) =>
              if e.key == key then e == NewEntry(o, key, value, ttl, now) else e in c.entries
            case _ => e in c.entries
  {
    match op
    case GetOp(key, now) => Touched(c, key, now, e);
    case SetOp(key, value, ttl, now) => SetMembers(o, c, key, value, ttl, now);
    case InvalidateOp(key) => DeleteAllKeepsOthers(c.entries, [key]);
    case InvalidatePatternOp(pattern) => DeleteAllKeepsOthers(c.entries, Matching(c.entries, pattern));
    case SweepOp(now) => DeleteAllKeepsOthers(c.entries, ExpiredKeys(c.entries, now));
    case _ =>
  }

  lemma Touched(c: CacheState, key: string, now: int, e: Entry)
    requires Distinct(c.entries) && !c.shuttingDown && e in Get(c, key, now).0.entries
    ensures if e.key == key then exists x :: x in c.entries && x.key == key && e == x.(lastAccess := now) else e in c.entries
  {
    var es, i := c.entries, Find(c.entries, key);
    DeleteKeepsOthers(es, key);
    if i >= 0 && !Expired(es[i], now) {
      var r := es[i := es[i].(lastAccess := now)];
      var k :| 0 <= k < |r| && r[k] == e;
      assert es[k] in es && es[i] in es;
    }
  }

  /**
   Least recently used, by the history alone: of the keys that were there or are being set, those
   that either eviction of a `set` drops were used no later than those it leaves. The size
   eviction goes down to the bound, the memory eviction drops a fifth, rounded up.
   */
  lemma EvictsLeastRecentlyUsed(o: Options, ops: seq<Op>, key: string, value: Value, ttl: Option<int>, now: int)
    requires !Down(ops)
    ensures var h := ops + [SetOp(key, value, ttl, now)];
            var w := Written(o, Run(o, ops), key, value, ttl, now).entries;
            var t, r := Trimmed(o, Written(o, Run(o, ops), key, value, ttl, now)).entries, Run(o, h).entries;
            && (forall k :: Present(w, k) <==> k == key || Present(Run(o, ops).entries, k))
            && (forall v, s :: Present(w, v) && !Present(t, v) && Present(t, s) ==> LastUse(h, v) <= LastUse(h, s))
            && (forall v, s :: Present(t, v) && !Present(r, v) && Present(r, s) ==> LastUse(h, v) <= LastUse(h, s))
            && |t| == Min(|w|, Max(0, o.maxEntries))
            && var megabytes := (200 * |t| + 2 * KeyChars(t) + TextBytes(t)) as real / 1048576.0;
            && |r| == (if megabytes > o.maxMemoryMB then |t| - (|t| + 4) / 5 else |t|)
  {
    var h, c := ops + [SetOp(key, value, ttl, now)], Run(o, ops);
    assert h[..|h| - 1] == ops;
    RunAgrees(o, ops);
    SetEvicts(o, c, key, value, ttl, now);
    WrittenKeys(o, c, key, value, ttl, now);
    WrittenUses(o, ops, key, value, ttl, now);
    var w := Written(o, c, key, value, ttl, now);
    TrimmedFits(o, w);
    EvictChoosesOldest(Trimmed(o, w).entries, DropCount(|Trimmed(o, w).entries|));
    ByUse(h, w.entries, Trimmed(o, w).entries);
    assert forall x :: x in Trimmed(o, w).entries ==> x in w.entries;
    ByUse(h, Trimmed(o, w).entries, Run(o, h).entries);
    MemorySum(h, Trimmed(o, w).entries);
  }

  lemma WrittenKeys(o: Options, c: CacheState, key: string, value: Value, ttl: Option<int>, now: int)
    requires Distinct(c.entries)
    ensures forall k :: Present(Written(o, c, key, value, ttl, now).entries, k) <==> k == key || Present(c.entries, k)
  {
    var e := NewEntry(o, key, value, ttl, now);
    PutKeepsOthers(c.entries, e);
    assert e in Put(c.entries, e);
  }

  lemma WrittenUses(o: Options, ops: seq<Op>, key: string, value: Value, ttl: Option<int>, now: int)
    ensures var h := ops + [SetOp(key, value, ttl, now)];
            forall e :: e in Written(o, Run(o, ops), key, value, ttl, now).entries ==> Kept(h, e)
  {
    var h := ops + [SetOp(key, value, ttl, now)];
    assert h[..|h| - 1] == ops;
    UsesAreRecorded(o, ops);
    PutKeepsOthers(Run(o, ops).entries, NewEntry(o, key, value, ttl, now));
  }

  /** Where the field holds the last use, choosing by the field is choosing by use. */
  lemma ByUse(h: seq<Op>, w: Entries, t: Entries)
    requires (forall x :: x in t ==> x in w) && forall e :: e in w ==> e.lastAccess == LastUse(h, e.key)
    requires forall v, s :: v in w && v !in t && s in t ==> v.lastAccess <= s.lastAccess
    ensures forall v, s :: Present(w, v) && !Present(t, v) && Present(t, s) ==> LastUse(h, v) <= LastUse(h, s)
  {
    forall v, s | Present(w, v) && !Present(t, v) && Present(t, s) ensures LastUse(h, v) <= LastUse(h, s) {
      var x :| x in w && x.key == v;
      var y :| y in t && y.key == s;
      assert x !in t;
    }
  }

  function KeyChars(es: Entries): nat { if es == [] then 0 else KeyChars(es[..|es| - 1]) + |es[|es| - 1].key| }

  /** Two bytes for each character of a value's text, a flat amount for a value without one. */
  function TextBytes(es: Entries): nat {
    if es == [] then 0
    else
      var json := es[|es| - 1].value.json;
      TextBytes(es[..|es| - 1]) + if json.Some? then 2 * |json.value| else 1024
  }

  /** What the memory bound is compared with, after any run. */
  lemma MemoryIs(o: Options, ops: seq<Op>)
    ensures var es := Run(o, ops).entries; MemoryBytes(es) == 200 * |es| + 2 * KeyChars(es) + TextBytes(es)
  {
    UsesAreRecorded(o, ops);
    MemorySum(ops, Run(o, ops).entries);
  }

  lemma {:induction false} MemorySum(ops: seq<Op>, es: Entries)
    requires forall e :: e in es ==> Kept(ops, e)
    ensures MemoryBytes(es) == 200 * |es| + 2 * KeyChars(es) + TextBytes(es)
  {
    if es != [] {
      assert es[|es| - 1] in es && forall e :: e in es[..|es| - 1] ==> e in es;
      MemorySum(ops, es[..|es| - 1]);
    }
  }

  /** How many `get` calls since the last `clear` were answered, or not answered, before the shutdown. */
  function Answers(o: Options, ops: seq<Op>, answered: bool): nat {
    if ops == [] then 0
    else
      var init, last := ops[..|ops| - 1], ops[|ops| - 1];
      match last
      case GetOp(key, now) =>
        Answers(o, init, answered) + if !Down(init) && Get(Run(o, init), key, now).1.Some? == answered then 1 else 0
      case ClearOp => 0
      case _ => Answers(o, init, answered)
  }

  /** The counters count the answered calls as hits and the others as misses. */
  lemma {:induction false} CountersCountAnswers(o: Options, ops: seq<Op>)
    ensures Run(o, ops).hitCount == Answers(o, ops, true) && Run(o, ops).missCount == Answers(o, ops, false)
  {
    if ops != [] {
      CountersCountAnswers(o, ops[..|ops| - 1]);
      RunAgrees(o, ops[..|ops| - 1]);
    }
  }

  // ---------------------------------------------------------------- accounting

  /** How often an absent key was inserted since the last `clear`. */
  function Inserted(o: Options, ops: seq<Op>): nat {
    if ops == [] then 0
    else
      var init, last := ops[..|ops| - 1], ops[|ops| - 1];
      match last
      case SetOp(key, _, _, _) =>
        Inserted(o, init) + if !Down(init) && Find(Run(o, init).entries, key) == -1 then 1 else 0
      case ClearOp => 0
      case _ => Inserted(o, init)
  }

  function Evicted(e: Evictions): nat { e.ttl + e.size + e.memory + e.manual }

  /** Until shutdown every insertion since the last `clear` is still there or was counted as an eviction. */
  lemma {:induction false} EveryInsertionAccounted(o: Options, ops: seq<Op>)
    requires !Down(ops)
    ensures Inserted(o, ops) == |Run(o, ops).entries| + Evicted(Run(o, ops).evictions)
  {
    if ops != [] {
      var init, last := ops[..|ops| - 1], ops[|ops| - 1];
      EveryInsertionAccounted(o, init);
      RunAgrees(o, init);
      if !last.ClearOp? { AccountStep(o, Run(o, init), last); }
    }
  }

  function Balance(c: CacheState): nat { |c.entries| + Evicted(c.evictions) }

  lemma EvictionBalances(o: Options, w: CacheState)
    requires Distinct(w.entries)
    ensures Distinct(Trimmed(o, w).entries) && Balance(Trimmed(o, w)) == Balance(w)
    ensures Balance(EvictByMemory(Trimmed(o, w))) == Balance(w)
  {
    if |w.entries| > o.maxEntries { EvictChoosesOldest(w.entries, |w.entries| - o.maxEntries); }
    MemoryBalances(Trimmed(o, w));
  }

  lemma MemoryBalances(c: CacheState)
    requires Distinct(c.entries)
    ensures Balance(EvictByMemory(c)) == Balance(c)
  {
    EvictChoosesOldest(c.entries, DropCount(|c.entries|));
  }

  /** One operation of an open cache: what enters, leaves and is counted balances. */
  lemma AccountStep(o: Options, c: CacheState, op: Op)
    requires Distinct(c.entries) && !c.shuttingDown && !op.ShutdownOp? && !op.ClearOp?
    ensures Balance(Apply(o, c, op)) == Balance(c) + if op.SetOp? && Find(c.entries, op.key) == -1 then 1 else 0
  {
    match op
    case GetOp(key, now) => DeleteKeepsOthers(c.entries, key);
    case SetOp(key, value, ttl, now) =>
      PutKeepsOthers(c.entries, NewEntry(o, key, value, ttl, now));
      EvictionBalances(o, Written(o, c, key, value, ttl, now));
    case InvalidateOp(key) =>
      if Find(c.entries, key) != -1 {
        assert c.entries[Find(c.entries, key)] in c.entries;
        DeleteAllCount(c.entries, [key]);
      }
    case InvalidatePatternOp(pattern) =>
      MatchingKeys(c.entries, pattern);
      MatchingDistinct(c.entries, pattern);
      DeleteAllCount(c.entries, Matching(c.entries, pattern));
    case SweepOp(now) =>
      ExpiredDistinct(c.entries, now);
      DeleteAllCount(c.entries, ExpiredKeys(c.entries, now));
    case _ =>
  }

  lemma {:induction false} MatchingDistinct(es: Entries, pattern: string -> bool)
    requires Distinct(es)
    ensures DistinctKeys(Matching(es, pattern))
  {
    if es != [] {
      MatchingDistinct(es[..|es| - 1], pattern);
      MatchingKeys(es[..|es| - 1], pattern);
    }
  }

  lemma {:induction false} ExpiredDistinct(es: Entries, now: int)
    requires Distinct(es)
    ensures DistinctKeys(ExpiredKeys(es, now))
    ensures forall k :: k in ExpiredKeys(es, now) <==> exists e :: e in es && e.key == k && Expired(e, now)
    ensures forall k :: k in ExpiredKeys(es, now) ==> Present(es, k)
  {
    if es != [] {
      var init, last := es[..|es| - 1], es[|es| - 1];
      ExpiredDistinct(init, now);
      assert es == init + [last];
      assert forall e :: e in init ==> e.key != last.key;
      assert last.key !in ExpiredKeys(init, now);
    }
  }

  predicate Grew(e: Evictions, f: Evictions, ttl: int, size: int, memory: int, manual: int) {
    f.ttl == e.ttl + ttl && f.size == e.size + size && f.memory == e.memory + memory && f.manual == e.manual + manual
  }

  /** Who counts what: each operation's losses are counted under its own kind, and nothing else is. */
  lemma LossesByKind(o: Options, c: CacheState, op: Op)
    requires Distinct(c.entries) && !c.shuttingDown && !op.ShutdownOp? && !op.ClearOp?
    ensures var n := Apply(o, c, op);
            var lost := |c.entries| + (if op.SetOp? && Find(c.entries, op.key) == -1 then 1 else 0) - |n.entries|;
            && (op.GetOp? || op.SweepOp? ==> Grew(c.evictions, n.evictions, lost, 0, 0, 0))
            && (op.InvalidateOp? || op.InvalidatePatternOp? ==> Grew(c.evictions, n.evictions, 0, 0, 0, lost))
            && (op.SetOp? ==>
                  var w := Written(o, c, op.key, op.value, op.ttl, op.now); var t := Trimmed(o, w);
                  Grew(c.evictions, n.evictions, 0, |w.entries| - |t.entries|, |t.entries| - |n.entries|, 0))
  {
    AccountStep(o, c, op);
    if op.SetOp? { SetLosses(o, c, op.key, op.value, op.ttl, op.now); }
  }

  lemma SetLosses(o: Options, c: CacheState, key: string, value: Value, ttl: Option<int>, now: int)
    requires Distinct(c.entries) && !c.shuttingDown
    ensures var w := Written(o, c, key, value, ttl, now); var t, n := Trimmed(o, w), Set(o, c, key, value, ttl, now);
            Grew(c.evictions, n.evictions, 0, |w.entries| - |t.entries|, |t.entries| - |n.entries|, 0)
  {
    var w := Written(o, c, key, value, ttl, now);
    TrimmedFits(o, w);
    SetEvicts(o, c, key, value, ttl, now);
    EvictChoosesOldest(w.entries, if |w.entries| > o.maxEntries then |w.entries| - o.maxEntries else 0);
    EvictChoosesOldest(Trimmed(o, w).entries, DropCount(|Trimmed(o, w).entries|));
  }

  /** A sweep leaves exactly the entries that are still within their TTL. */
  lemma SweepLeavesAlive(o: Options, ops: seq<Op>, now: int)
    ensures forall e :: e in Run(o, ops + [SweepOp(now)]).entries <==> e in Run(o, ops).entries && now - e.timestamp <= e.ttl
  {
    var h, c := ops + [SweepOp(now)], Run(o, ops);
    assert h[..|h| - 1] == ops;
    ExpiredDistinct(c.entries, now);
    DeleteAllKeepsOthers(c.entries, ExpiredKeys(c.entries, now));
    forall e, x | e in c.entries && x in c.entries && e.key == x.key ensures e == x {
      var i :| 0 <= i < |c.entries| && c.entries[i] == e;
      var j :| 0 <= j < |c.entries| && c.entries[j] == x;
    }
  }

  // ---------------------------------------------------------------- with a clock that never goes back

  function TimeOf(op: Op, before: int): int {
    match op
    case GetOp(_, now) => now
    case SetOp(_, _, _, now) => now
    case SweepOp(now) => now
    case _ => before
  }

  /** The clock after a run, started at `zero`. */
  function Clock(ops: seq<Op>, zero: int): int {
    if ops == [] then zero else TimeOf(ops[|ops| - 1], Clock(ops[..|ops| - 1], zero))
  }

  predicate Monotone(ops: seq<Op>, zero: int) {
    ops == [] || (Monotone(ops[..|ops| - 1], zero) && Clock(ops[..|ops| - 1], zero) <= Clock(ops, zero))
  }

  ghost predicate NotNewer(es: Entries, now: int) { forall e :: e in es ==> e.lastAccess <= now }

  lemma {:induction false} RunNotNewer(o: Options, ops: seq<Op>, zero: int)
    requires Monotone(ops, zero)
    ensures NotNewer(Run(o, ops).entries, Clock(ops, zero))
    ensures |Run(o, ops).entries| <= Max(0, o.maxEntries)
  {
    if ops != [] {
      var init, last := ops[..|ops| - 1], ops[|ops| - 1];
      RunNotNewer(o, init, zero);
      NotNewerStep(o, Run(o, init), last, Clock(init, zero));
    }
  }

  lemma NotNewerStep(o: Options, c: CacheState, op: Op, before: int)
    requires Distinct(c.entries) && NotNewer(c.entries, before) && before <= TimeOf(op, before)
    requires |c.entries| <= Max(0, o.maxEntries)
    ensures NotNewer(Apply(o, c, op).entries, TimeOf(op, before))
    ensures |Apply(o, c, op).entries| <= Max(0, o.maxEntries)
  {
    match op
    case GetOp(key, now) => DeleteKeepsOthers(c.entries, key);
    case SetOp(key, value, ttl, now) =>
      if !c.shuttingDown {
        SetMembers(o, c, key, value, ttl, now);
        SetEvicts(o, c, key, value, ttl, now);
      }
    case InvalidateOp(key) => DropsOnly(c.entries, [key]);
    case InvalidatePatternOp(pattern) => DropsOnly(c.entries, Matching(c.entries, pattern));
    case SweepOp(now) => DropsOnly(c.entries, ExpiredKeys(c.entries, now));
    case _ =>
  }

  lemma {:induction false} DropsOnly(es: Entries, keys: seq<string>)
    requires Distinct(es)
    ensures |DeleteAll(es, keys)| <= |es| && forall x :: x in DeleteAll(es, keys) ==> x in es
  {
    DeleteAllKeepsOthers(es, keys);
    if keys != [] { DropsOnly(es, keys[..|keys| - 1]); }
  }

  /** The size eviction of a `set` never drops the key just written, if one entry may stay. */
  lemma JustWrittenSurvives(o: Options, ops: seq<Op>, zero: int, key: string, value: Value, ttl: Option<int>, now: int)
    requires o.maxEntries >= 1 && !Down(ops)
    requires Monotone(ops, zero) && Clock(ops, zero) <= now
    ensures NewEntry(o, key, value, ttl, now) in Trimmed(o, Written(o, Run(o, ops), key, value, ttl, now)).entries
  {
    RunNotNewer(o, ops, zero);
    var es, e := Run(o, ops).entries, NewEntry(o, key, value, ttl, now);
    PutKeepsOthers(es, e);
    if Find(es, key) == -1 && |es| + 1 > o.maxEntries {
      NewestSurvives(es, e, |es| + 1 - o.maxEntries);
    }
  }

  /**
   A new key outlives the whole `set` exactly if the memory bound is kept after the size eviction,
   or another entry is left that can go.
   */
  lemma NewKeySurvivesIff(o: Options, ops: seq<Op>, zero: int, key: string, value: Value, ttl: Option<int>, now: int)
    requires o.maxEntries >= 1 && !Down(ops) && !Present(Run(o, ops).entries, key)
    requires Monotone(ops, zero) && Clock(ops, zero) <= now
    ensures var t := Trimmed(o, Written(o, Run(o, ops), key, value, ttl, now)).entries;
            NewEntry(o, key, value, ttl, now) in Set(o, Run(o, ops), key, value, ttl, now).entries
            <==> !OverMemory(t, o.maxMemoryMB) || |t| >= 2
  {
    RunNotNewer(o, ops, zero);
    RunAgrees(o, ops);
    NewKeyOutlivesSet(o, Run(o, ops), key, value, ttl, now);
  }

  lemma NewKeyOutlivesSet(o: Options, c: CacheState, key: string, value: Value, ttl: Option<int>, now: int)
    requires o.maxEntries >= 1 && Distinct(c.entries) && !c.shuttingDown && !Present(c.entries, key)
    requires NotNewer(c.entries, now) && |c.entries| <= o.maxEntries
    ensures var t := Trimmed(o, Written(o, c, key, value, ttl, now)).entries;
            NewEntry(o, key, value, ttl, now) in Set(o, c, key, value, ttl, now).entries
            <==> !OverMemory(t, o.maxMemoryMB) || |t| >= 2
  {
    var t := Trimmed(o, Written(o, c, key, value, ttl, now));
    var rest := NewKeyLast(o, c, key, value, ttl, now);
    TrimmedFits(o, Written(o, c, key, value, ttl, now));
    LastOfTwoSurvives(rest, NewEntry(o, key, value, ttl, now));
    assert t.entries == rest + [NewEntry(o, key, value, ttl, now)];
  }

  lemma LastOfTwoSurvives(rest: Entries, e: Entry)
    requires Distinct(rest + [e]) && forall x :: x in rest ==> x.lastAccess <= e.lastAccess
    ensures e in Evict(rest + [e], DropCount(|rest + [e]|)) <==> |rest + [e]| >= 2
    ensures e in rest + [e]
  {
    var n := DropCount(|rest + [e]|);
    assert (rest + [e])[|rest|] == e;
    if rest == [] { EvictChoosesOldest(rest + [e], n); } else { NewestSurvives(rest, e, n); }
  }

  lemma NewKeyLast(o: Options, c: CacheState, key: string, value: Value, ttl: Option<int>, now: int) returns (rest: Entries)
    requires o.maxEntries >= 1 && Distinct(c.entries) && !Present(c.entries, key)
    requires NotNewer(c.entries, now) && |c.entries| <= o.maxEntries
    ensures Trimmed(o, Written(o, c, key, value, ttl, now)).entries == rest + [NewEntry(o, key, value, ttl, now)]
    ensures NotNewer(rest, now)
  {
    var e := NewEntry(o, key, value, ttl, now);
    rest := c.entries;
    PutKeepsOthers(c.entries, e);
    if |c.entries| + 1 > o.maxEntries {
      rest := NewestStaysLast(c.entries, e, |c.entries| + 1 - o.maxEntries);
    }
  }

  /** Every stored value that is not cached any more has run out of time. */
  ghost predicate OnlyExpiredGone(o: Options, ops: seq<Op>, now: int) {
    forall k :: Latest(o, ops, k).Some? && !Present(Run(o, ops).entries, k) ==> !Alive(Latest(o, ops, k).value, now)
  }

  /**
   As long as nothing was evicted for size or memory the cache is its plain map: a `get`
   hits exactly when the latest stored value is still alive.
   */
  lemma HitIffAlive(o: Options, ops: seq<Op>, zero: int, key: string, now: int)
    requires Monotone(ops, zero) && Clock(ops, zero) <= now && !Down(ops)
    requires Run(o, ops).evictions.size == Run(o, ops).evictions.memory == 0
    ensures Get(Run(o, ops), key, now).1
            == match Latest(o, ops, key)
               case Some(s) => if Alive(s, now) then Some(s.value) else None
               case None => None
  {
    RunAgrees(o, ops);
    GoneIsExpired(o, ops, zero);
    var es := Run(o, ops).entries;
    var i := Find(es, key);
    if i >= 0 { assert es[i] in es; }
  }

  lemma {:induction false} GoneIsExpired(o: Options, ops: seq<Op>, zero: int)
    requires Monotone(ops, zero) && !Down(ops)
    requires Run(o, ops).evictions.size == Run(o, ops).evictions.memory == 0
    ensures OnlyExpiredGone(o, ops, Clock(ops, zero))
  {
    if ops != [] {
      var init, last := ops[..|ops| - 1], ops[|ops| - 1];
      if !last.ClearOp? {
        StillNone(o, init, last, ops);
        GoneIsExpired(o, init, zero);
        RunAgrees(o, init);
        GoneStep(o, init, last, ops, Clock(init, zero), Clock(ops, zero));
      }
    }
  }

  lemma StillNone(o: Options, init: seq<Op>, last: Op, ops: seq<Op>)
    requires ops == init + [last] && !last.ClearOp?
    requires Run(o, ops).evictions.size == Run(o, ops).evictions.memory == 0
    ensures Run(o, init).evictions.size == Run(o, init).evictions.memory == 0
  {
    assert ops[..|ops| - 1] == init;
    CountersGrow(o, Run(o, init), last);
  }

  lemma CountersGrow(o: Options, c: CacheState, op: Op)
    requires Distinct(c.entries) && !op.ClearOp?
    ensures var n := Apply(o, c, op);
            n.evictions.size >= c.evictions.size && n.evictions.memory >= c.evictions.memory
  {
  }

  lemma GoneStep(o: Options, init: seq<Op>, last: Op, ops: seq<Op>, before: int, now: int)
    requires ops == init + [last] && !Down(ops) && !last.ClearOp?
    requires Agrees(o, init) && OnlyExpiredGone(o, init, before) && before <= now == TimeOf(last, before)
    requires Run(o, ops).evictions.size == Run(o, init).evictions.size
    requires Run(o, ops).evictions.memory == Run(o, init).evictions.memory
    ensures OnlyExpiredGone(o, ops, now)
  {
    assert ops[..|ops| - 1] == init;
    var c := Run(o, init);
    match last
    case GetOp(key, t) => GetMembers(c, key, t);
    case SetOp(key, value, ttl, t) =>
      SetWithoutEviction(o, c, key, value, ttl, t);
      PutKeepsOthers(c.entries, NewEntry(o, key, value, ttl, t));
    case InvalidateOp(key) => DeleteAllKeepsOthers(c.entries, [key]);
    case InvalidatePatternOp(pattern) =>
      MatchingKeys(c.entries, pattern);
      DeleteAllKeepsOthers(c.entries, Matching(c.entries, pattern));
    case SweepOp(t) =>
      ExpiredDistinct(c.entries, t);
      DeleteAllKeepsOthers(c.entries, ExpiredKeys(c.entries, t));
    case _ =>
  }

  lemma SetWithoutEviction(o: Options, c: CacheState, key: string, value: Value, ttl: Option<int>, now: int)
    requires Distinct(c.entries) && !c.shuttingDown
    requires Set(o, c, key, value, ttl, now).evictions.size == c.evictions.size
    requires Set(o, c, key, value, ttl, now).evictions.memory == c.evictions.memory
    ensures Set(o, c, key, value, ttl, now).entries == Put(c.entries, NewEntry(o, key, value, ttl, now))
            || Set(o, c, key, value, ttl, now).entries == [] == Put(c.entries, NewEntry(o, key, value, ttl, now))
  {
    var w := Written(o, c, key, value, ttl, now);
    PutKeepsOthers(c.entries, NewEntry(o, key, value, ttl, now));
    assert NewEntry(o, key, value, ttl, now) in w.entries;
  }
}
