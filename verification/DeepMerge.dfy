/**
 `deepMerge` of server/lib/config.ts, on objects as JavaScript has them: own properties in their
 order, and a prototype. `Object.entries` lists own properties only, but `out[key]` also reads
 inherited ones, and assigning `out["__proto__"]` sets the prototype of `out`.

 `Object.prototype` is taken to have its built-in properties only, none of which is enumerable.
 */
module DeepMerge {
  import opened ConfigTrees
  import opened MergeLaws
  import opened Numerals
  import opened Prototypes
  import opened Wrappers

  type Primitive = v: Value | !v.Obj? && !v.Arr? witness Null

  datatype Node = Prim(v: Primitive) | List(items: seq<Node>) | Object(entries: Entries, proto: Prototype)

  datatype Entry = Entry(name: string, value: Node)

  type Entries = seq<Entry>

  /** `Object.prototype`, no prototype, or an object or array that was assigned. */
  datatype Prototype = Builtin | Nothing | Given(of: Node)

  const NEW := Object([], Builtin)

  // ---------------------------------------------------------------- nesting

  function Max(a: nat, b: nat): nat { if a < b then b else a }

  function Depth(n: Node): nat {
    match n
    case Prim(_) => 0
    case List(items) => DepthOfItems(items)
    case Object(entries, proto) => Max(DepthOfEntries(entries), if proto.Given? then 1 + Depth(proto.of) else 0)
  }

  function DepthOfItems(items: seq<Node>): (d: nat)
    ensures d >= 1
  {
    if items == [] then 1 else Max(DepthOfItems(items[..|items| - 1]), 1 + Depth(items[|items| - 1]))
  }

  function DepthOfEntries(es: Entries): (d: nat)
    ensures d >= 1
  {
    if es == [] then 1 else Max(DepthOfEntries(es[..|es| - 1]), 1 + Depth(es[|es| - 1].value))
  }

  // ---------------------------------------------------------------- own properties

  function Lookup(es: Entries, name: string): (r: Option<Node>)
    ensures r.Some? ==> Depth(r.value) < DepthOfEntries(es)
  {
    if es == [] then None
    else if es[|es| - 1].name == name then Some(es[|es| - 1].value)
    else Lookup(es[..|es| - 1], name)
  }

  /** An array index: a name that keeps its place in numerical order in front of the others. */
  predicate IsIndex(name: string) {
    name != "" && AllDigits(name) && (|name| == 1 || name[0] != '0') && ValueIn(name, 10) < 0xFFFF_FFFF
  }

  predicate Before(a: string, b: string) {
    IsIndex(a) && (IsIndex(b) ==> ValueIn(a, 10) < ValueIn(b, 10))
  }

  /** Sets an own property in its place, or adds it. */
  function Put(es: Entries, name: string, x: Node): (r: Entries)
    ensures DepthOfEntries(r) <= Max(DepthOfEntries(es), 1 + Depth(x))
  {
    if es == [] then [Entry(name, x)]
    else
      var init, last := es[..|es| - 1], es[|es| - 1];
      if last.name == name then
        var r := init + [Entry(name, x)];
        assert r[..|r| - 1] == init;
        r
      else if Lookup(init, name).Some? || Before(name, last.name) then
        var r := Put(init, name, x) + [last];
        assert r[..|r| - 1] == Put(init, name, x);
        r
      else
        var r := es + [Entry(name, x)];
        assert r[..|r| - 1] == es;
        r
  }

  // ---------------------------------------------------------------- reading and assigning

  function Item(items: seq<Node>, name: string): (r: Option<Node>)
    ensures r.Some? ==> Depth(r.value) < DepthOfItems(items)
  {
    if items == [] then None
    else if TextIn(|items| - 1, 10) == name then Some(items[|items| - 1])
    else Item(items[..|items| - 1], name)
  }

  /** An own or inherited property other than the built-in ones. */
  function Inherited(n: Node, name: string): (r: Option<Node>)
    ensures r.Some? ==> Depth(r.value) < Depth(n)
  {
    match n
    case Prim(_) => None
    case List(items) => Item(items, name)
    case Object(entries, proto) =>
      if Lookup(entries, name).Some? then Lookup(entries, name)
      else if proto.Given? then Inherited(proto.of, name)
      else None
  }

  /** Whether `__proto__` is the accessor of `Object.prototype`: nothing hides it and the chain ends there. */
  predicate Accessor(n: Node) {
    match n
    case Prim(_) => false
    case List(_) => true
    case Object(entries, proto) =>
      Lookup(entries, PROTO).None? && (proto.Builtin? || (proto.Given? && Accessor(proto.of)))
  }

  /** `out[name]`, if it is an object and no array. */
  function Existing(out: Node, name: string): (r: Option<Node>)
    requires out.Object?
    ensures r.Some? ==> r.value.Object? && (r.value == NEW || Depth(r.value) < Depth(out))
  {
    var found :=
      if name != PROTO || !Accessor(out) then Inherited(out, name)
      else if out.proto.Given? then Some(out.proto.of)
      else Some(NEW);
    if found.Some? && found.value.Object? then found else None
  }

  /** `out[name] = x`. */
  function Assign(out: Node, name: string, x: Node): (r: Node)
    requires out.Object?
    ensures r.Object? && Depth(r) <= Max(Depth(out), 1 + Depth(x))
  {
    if name != PROTO || !Accessor(out) then out.(entries := Put(out.entries, name, x))
    else if x == Prim(Null) then out.(proto := Nothing)
    else if x.Prim? then out
    else out.(proto := Given(x))
  }

  // ---------------------------------------------------------------- the merge

  /** The entries of one source, in order, into `out`. */
  function MergeEntries(out: Node, es: Entries): (r: Node)
    requires out.Object?
    ensures r.Object? && Depth(r) <= Max(Depth(out), DepthOfEntries(es))
    decreases Max(Depth(out), DepthOfEntries(es)), 0, |es|
  {
    if es == [] then out
    else
      var before, e := MergeEntries(out, es[..|es| - 1]), es[|es| - 1];
      var existing := Existing(before, e.name);
      Assign(before, e.name, if e.value.Object? && existing.Some? then MergeTwo(existing.value, e.value) else e.value)
  }

  function MergeTwo(x: Node, y: Node): (r: Node)
    requires x.Object? && y.Object?
    ensures r.Object? && Depth(r) <= Max(Depth(x), Depth(y))
    decreases Max(Depth(x), Depth(y)), 1, 0
  {
    MergeEntries(MergeEntries(NEW, x.entries), y.entries)
  }

  predicate AreObjects(sources: seq<Option<Node>>) { forall s :: s in sources && s.Some? ==> s.value.Object? }

  function MergeSources(sources: seq<Option<Node>>): (r: Node)
    requires AreObjects(sources)
    ensures r.Object?
  {
    if sources == [] then NEW
    else
      var before, last := MergeSources(sources[..|sources| - 1]), sources[|sources| - 1];
      if last.None? then before else MergeEntries(before, last.value.entries)
  }

  function DepthOfSources(sources: seq<Option<Node>>): nat {
    if sources == [] then 1
    else
      var last := sources[|sources| - 1];
      Max(DepthOfSources(sources[..|sources| - 1]), if last.Some? then Depth(last.value) else 1)
  }

  /** `deepMerge`. */
  method DeepMerge(sources: seq<Option<Node>>) returns (out: Node)
    requires AreObjects(sources)
    ensures out == MergeSources(sources)
    decreases DepthOfSources(sources), 1
  {
    out := NEW;
    for i := 0 to |sources|
      invariant out.Object? && out == MergeSources(sources[..i]) && Depth(out) <= DepthOfSources(sources[..i])
    {
      assert sources[..i + 1][..i] == sources[..i];
      SourcesGrow(sources, i + 1);
      if sources[i].None? { continue; }
      out := MergeInto(out, sources[i].value);
    }
    assert sources[..|sources|] == sources;
  }

  /** The loop over the entries of one source. */
  method MergeInto(into: Node, src: Node) returns (out: Node)
    requires into.Object? && src.Object?
    ensures out == MergeEntries(into, src.entries)
    decreases Max(Depth(into), Depth(src)), 0
  {
    out := into;
    for i := 0 to |src.entries|
      invariant out.Object? && out == MergeEntries(into, src.entries[..i])
    {
      var key, value := src.entries[i].name, src.entries[i].value;
      var existing := Existing(out, key);
      OneEntry(into, src, i);
      if value.Object? && existing.Some? {
        var merged := DeepMerge([existing, Some(value)]);
        out := Assign(out, key, merged);
      } else {
        out := Assign(out, key, value);
      }
    }
    assert src.entries[..|src.entries|] == src.entries;
  }

  /** What an entry does, and that the recursive call works on less nested objects. */
  lemma OneEntry(into: Node, src: Node, i: nat)
    requires into.Object? && src.Object? && i < |src.entries|
    ensures var before, e := MergeEntries(into, src.entries[..i]), src.entries[i];
            var existing := Existing(before, e.name);
            if e.value.Object? && existing.Some? then
              && MergeEntries(into, src.entries[..i + 1]) == Assign(before, e.name, MergeSources([existing, Some(e.value)]))
              && DepthOfSources([existing, Some(e.value)]) < Max(Depth(into), Depth(src))
            else MergeEntries(into, src.entries[..i + 1]) == Assign(before, e.name, e.value)
  {
    var before, e := MergeEntries(into, src.entries[..i]), src.entries[i];
    var existing := Existing(before, e.name);
    EntriesSnoc(into, src.entries, i);
    if e.value.Object? && existing.Some? {
      TwoSources(existing.value, e.value);
      LessNested(into, src, i, existing.value);
    }
  }

  lemma EntriesSnoc(out: Node, es: Entries, i: nat)
    requires out.Object? && i < |es|
    ensures var before, e := MergeEntries(out, es[..i]), es[i];
            var existing := Existing(before, e.name);
            MergeEntries(out, es[..i + 1])
            == Assign(before, e.name, if e.value.Object? && existing.Some? then MergeTwo(existing.value, e.value) else e.value)
  {
    assert es[..i + 1][..i] == es[..i];
  }

  lemma LessNested(into: Node, src: Node, i: nat, existing: Node)
    requires into.Object? && src.Object? && i < |src.entries| && src.entries[i].value.Object?
    requires existing == NEW || Depth(existing) < Depth(MergeEntries(into, src.entries[..i]))
    ensures DepthOfSources([Some(existing), Some(src.entries[i].value)]) < Max(Depth(into), Depth(src))
  {
    var value, es := src.entries[i].value, src.entries;
    DepthOfTwo(existing, value);
    EntriesGrow(es, i);
    EntriesGrow(es, i + 1);
    assert es[..i + 1][..i] == es[..i];
    assert DepthOfEntries(es[..i + 1]) >= 1 + Depth(value);
  }

  lemma {:induction false} SourcesGrow(sources: seq<Option<Node>>, i: nat)
    requires i <= |sources|
    ensures DepthOfSources(sources[..i]) <= DepthOfSources(sources)
    decreases |sources|
  {
    if i < |sources| {
      SourcesGrow(sources[..|sources| - 1], i);
      assert sources[..|sources| - 1][..i] == sources[..i];
    } else {
      assert sources[..i] == sources;
    }
  }

  lemma {:induction false} EntriesGrow(es: Entries, i: nat)
    requires i <= |es|
    ensures DepthOfEntries(es[..i]) <= DepthOfEntries(es)
    decreases |es|
  {
    if i < |es| {
      EntriesGrow(es[..|es| - 1], i);
      assert es[..|es| - 1][..i] == es[..i];
    } else {
      assert es[..i] == es;
    }
  }

  lemma OneDeeper(sources: seq<Option<Node>>, x: Node)
    ensures DepthOfSources(sources + [Some(x)]) == Max(DepthOfSources(sources), Depth(x))
  {
    var more := sources + [Some(x)];
    assert more[..|more| - 1] == sources;
  }

  lemma DepthOfTwo(x: Node, y: Node)
    ensures DepthOfSources([Some(x), Some(y)]) == Max(Max(1, Depth(x)), Depth(y))
  {
    var none: seq<Option<Node>>, one: seq<Option<Node>> := [], [Some(x)];
    OneDeeper(none, x);
    OneDeeper(one, y);
    assert none + one == one && one + [Some(y)] == [Some(x), Some(y)];
  }

  lemma OneMore(sources: seq<Option<Node>>, x: Node)
    requires AreObjects(sources) && x.Object?
    ensures AreObjects(sources + [Some(x)])
    ensures MergeSources(sources + [Some(x)]) == MergeEntries(MergeSources(sources), x.entries)
  {
    var more := sources + [Some(x)];
    assert more[..|more| - 1] == sources;
  }

  /** Two sources: the recursive call. */
  lemma TwoSources(x: Node, y: Node)
    requires x.Object? && y.Object?
    ensures MergeSources([Some(x), Some(y)]) == MergeTwo(x, y)
  {
    var none: seq<Option<Node>>, one: seq<Option<Node>> := [], [Some(x)];
    OneMore(none, x);
    OneMore(one, y);
    assert none + one == one && one + [Some(y)] == [Some(x), Some(y)];
  }

  // ---------------------------------------------------------------- own properties, as a tree

  /** What `Object.entries` shows at every level, in no order. */
  function View(n: Node): Value {
    match n
    case Prim(v) => v
    case List(items) => Arr(Views(items))
    case Object(entries, _) => Obj(Fields(entries))
  }

  function Views(items: seq<Node>): seq<Value> {
    if items == [] then [] else Views(items[..|items| - 1]) + [View(items[|items| - 1])]
  }

  function Fields(es: Entries): map<string, Value> {
    if es == [] then map[] else Fields(es[..|es| - 1])[es[|es| - 1].name := View(es[|es| - 1].value)]
  }

  function OptView(n: Option<Node>): Option<Value> { if n.Some? then Some(View(n.value)) else None }

  lemma {:induction false} FieldIsLookup(n: Node, k: string)
    requires n.Object?
    ensures Field(View(n), k) == OptView(Lookup(n.entries, k))
    decreases |n.entries|
  {
    if n.entries != [] { FieldIsLookup(n.(entries := n.entries[..|n.entries| - 1]), k); }
  }

  predicate Distinct(es: Entries) {
    es == [] || (Distinct(es[..|es| - 1]) && Lookup(es[..|es| - 1], es[|es| - 1].name).None?)
  }

  /** A parsed text or a literal: at every level the names are distinct and the prototype is the built-in one. */
  ghost predicate Ordinary(n: Node)
    decreases Depth(n)
  {
    n.Object? ==>
      && n.proto.Builtin? && Distinct(n.entries)
      && forall k :: Lookup(n.entries, k).Some? ==> Ordinary(Lookup(n.entries, k).value)
  }

  /** An ordinary object with no own `__proto__` on any path. */
  ghost predicate Source(n: Node) { n.Object? && Ordinary(n) && Plain(View(n)) }

  predicate HasProto(n: Node) { n.Object? && Lookup(n.entries, PROTO).Some? }

  lemma SnocFacts(es: Entries, k: string, x: Node, i: string)
    ensures var more := es + [Entry(k, x)];
            && Lookup(more, i) == (if i == k then Some(x) else Lookup(es, i))
            && Fields(more) == Fields(es)[k := View(x)]
            && (Distinct(more) <==> Distinct(es) && Lookup(es, k).None?)
  {
    var more := es + [Entry(k, x)];
    assert more[..|more| - 1] == es;
  }

  lemma {:induction false} LookupPut(es: Entries, name: string, x: Node, k: string)
    ensures Lookup(Put(es, name, x), k) == if k == name then Some(x) else Lookup(es, k)
    ensures Distinct(es) ==> Distinct(Put(es, name, x))
    decreases |es|
  {
    if es == [] {
      assert [] + [Entry(name, x)] == [Entry(name, x)];
      SnocFacts([], name, x, k);
    } else {
      var init, last := es[..|es| - 1], es[|es| - 1];
      assert last == Entry(last.name, last.value);
      if last.name == name {
        SnocFacts(init, name, x, k);
      } else if Lookup(init, name).Some? || Before(name, last.name) {
        LookupPut(init, name, x, k);
        LookupPut(init, name, x, last.name);
        SnocFacts(Put(init, name, x), last.name, last.value, k);
      } else {
        SnocFacts(es, name, x, k);
      }
    }
  }

  // ---------------------------------------------------------------- one level

  function MergedEntry(x: Option<Node>, y: Option<Node>): Option<Node> {
    if y.None? then x
    else if x.Some? && x.value.Object? && y.value.Object? then Some(MergeTwo(x.value, y.value))
    else y
  }

  /** Where nothing is called `__proto__` the entries are merged name by name. */
  lemma {:induction false} PlainLevel(out: Node, es: Entries, k: string)
    requires out.Object? && out.proto.Builtin? && !HasProto(out)
    requires Distinct(es) && Lookup(es, PROTO).None?
    ensures var r := MergeEntries(out, es);
            && r.proto.Builtin? && !HasProto(r)
            && Lookup(r.entries, k) == MergedEntry(Lookup(out.entries, k), Lookup(es, k))
            && (Distinct(out.entries) ==> Distinct(r.entries))
    decreases |es|
  {
    if es != [] {
      var init, e := es[..|es| - 1], es[|es| - 1];
      PlainLevel(out, init, k);
      PlainLevel(out, init, e.name);
      var before := MergeEntries(out, init);
      var x := if e.value.Object? && Existing(before, e.name).Some? then MergeTwo(Existing(before, e.name).value, e.value)
               else e.value;
      LookupPut(before.entries, e.name, x, k);
      LookupPut(before.entries, e.name, x, PROTO);
    }
  }

  lemma PlainTwo(x: Node, y: Node, k: string)
    requires x.Object? && Ordinary(x) && !HasProto(x)
    requires y.Object? && Ordinary(y) && !HasProto(y)
    ensures var r := MergeTwo(x, y);
            && r.proto.Builtin? && !HasProto(r) && Distinct(r.entries)
            && Lookup(r.entries, k) == MergedEntry(Lookup(x.entries, k), Lookup(y.entries, k))
  {
    PlainLevel(NEW, x.entries, k);
    PlainLevel(MergeEntries(NEW, x.entries), y.entries, k);
  }

  lemma AssignHidesProto(out: Node, name: string, x: Node)
    requires out.Object? && !HasProto(out) && (name == PROTO ==> out.proto.Builtin?)
    ensures var r := Assign(out, name, x); !HasProto(r) && (name != PROTO ==> r.proto == out.proto)
  {
    LookupPut(out.entries, name, x, PROTO);
  }

  /** An own `__proto__` of a source is no own property of the result. */
  lemma {:induction false} ProtoIsLost(out: Node, es: Entries)
    requires out.Object? && out.proto.Builtin? && !HasProto(out) && Distinct(es)
    ensures var r := MergeEntries(out, es); !HasProto(r) && (Lookup(es, PROTO).None? ==> r.proto.Builtin?)
    decreases |es|
  {
    if es != [] {
      var init, e := es[..|es| - 1], es[|es| - 1];
      ProtoIsLost(out, init);
      var before := MergeEntries(out, init);
      var existing := Existing(before, e.name);
      AssignHidesProto(before, e.name,
                       if e.value.Object? && existing.Some? then MergeTwo(existing.value, e.value) else e.value);
    }
  }

  // ---------------------------------------------------------------- sources without `__proto__`

  lemma PlainField(v: Value, k: string)
    requires v.Obj? && Plain(v) && k in v.fields
    ensures k != PROTO && Plain(v.fields[k])
  {
    assert At(v, [k]).Some? by { assert [k][1..] == []; }
    forall q | At(v.fields[k], q).Some? ensures PROTO !in q {
      assert ([k] + q)[0] == k && ([k] + q)[1..] == q;
      assert At(v, [k] + q).Some?;
    }
  }

  lemma PlainFields(v: Value)
    requires v.Obj? && forall k :: k in v.fields ==> k != PROTO && Plain(v.fields[k])
    ensures Plain(v)
  {
    forall q | At(v, q).Some? ensures PROTO !in q {
      if q != [] {
        assert At(v.fields[q[0]], q[1..]).Some?;
        assert q == [q[0]] + q[1..];
      }
    }
  }

  lemma SourceField(n: Node, k: string)
    requires Source(n)
    ensures !HasProto(n)
    ensures var e := Lookup(n.entries, k);
            e.Some? ==> Ordinary(e.value) && Plain(View(e.value)) && (e.value.Object? ==> Source(e.value))
  {
    FieldIsLookup(n, k);
    FieldIsLookup(n, PROTO);
    if Lookup(n.entries, k).Some? { PlainField(View(n), k); }
    if HasProto(n) { PlainField(View(n), PROTO); }
  }

  /** Two sources merge as their trees do, into a source. */
  lemma {:induction false} PlainMerge(x: Node, y: Node)
    requires Source(x) && Source(y)
    ensures Source(MergeTwo(x, y)) && View(MergeTwo(x, y)) == Merge(View(x), View(y))
    decreases Max(Depth(x), Depth(y)), 2
  {
    EmptySource();
    EmptyMerge(View(x));
    PlainInto(NEW, x);
    PlainInto(MergeEntries(NEW, x.entries), y);
  }

  lemma {:induction false} PlainInto(out: Node, src: Node)
    requires Source(out) && Source(src)
    ensures Source(MergeEntries(out, src.entries))
    ensures View(MergeEntries(out, src.entries)) == Merge(View(out), View(src))
    decreases Max(Depth(out), Depth(src)), 1
  {
    var r := MergeEntries(out, src.entries);
    forall k ensures FieldFits(r, Merge(View(out), View(src)), k) { PlainIntoField(out, src, k); }
    SourceField(out, PROTO);
    SourceField(src, PROTO);
    PlainLevel(out, src.entries, PROTO);
    FromFields(r, Merge(View(out), View(src)));
  }

  ghost predicate FieldFits(r: Node, m: Value, k: string)
    requires r.Object? && m.Obj?
  {
    var e := Lookup(r.entries, k);
    OptView(e) == Field(m, k) && (e.Some? ==> Ordinary(e.value) && Plain(View(e.value)))
  }

  lemma {:induction false} PlainIntoField(out: Node, src: Node, k: string)
    requires Source(out) && Source(src)
    ensures FieldFits(MergeEntries(out, src.entries), Merge(View(out), View(src)), k)
    decreases Max(Depth(out), Depth(src)), 0
  {
    SourceField(out, k);
    SourceField(src, k);
    PlainLevel(out, src.entries, k);
    FieldIsLookup(out, k);
    FieldIsLookup(src, k);
    FieldOfMerge(View(out), View(src), k);
    var a, b := Lookup(out.entries, k), Lookup(src.entries, k);
    if a.Some? && b.Some? && a.value.Object? && b.value.Object? { PlainMerge(a.value, b.value); }
  }

  lemma FromFields(r: Node, m: Value)
    requires r.Object? && m.Obj? && r.proto.Builtin? && !HasProto(r) && Distinct(r.entries)
    requires forall k :: FieldFits(r, m, k)
    ensures Source(r) && View(r) == m
  {
    forall k ensures Field(View(r), k) == Field(m, k) {
      assert FieldFits(r, m, k);
      FieldIsLookup(r, k);
    }
    SameFields(View(r), m);
    forall k | k in View(r).fields ensures k != PROTO && Plain(View(r).fields[k]) {
      assert FieldFits(r, m, k);
      FieldIsLookup(r, k);
      FieldIsLookup(r, PROTO);
    }
    PlainFields(View(r));
    forall k | Lookup(r.entries, k).Some? ensures Ordinary(Lookup(r.entries, k).value) { assert FieldFits(r, m, k); }
  }

  ghost predicate AllSources(sources: seq<Option<Node>>) { forall s :: s in sources && s.Some? ==> Source(s.value) }

  function TreesOf(sources: seq<Option<Node>>): (trees: seq<Option<Value>>)
    requires AreObjects(sources)
    ensures |trees| == |sources| && forall s :: s in trees && s.Some? ==> s.value.Obj?
  {
    seq(|sources|, i requires 0 <= i < |sources| => assert sources[i] in sources; OptView(sources[i]))
  }

  lemma EmptySource()
    ensures Source(NEW) && View(NEW) == EMPTY
  {
    PlainEmpty();
  }

  /** Any number of sources. */
  lemma {:induction false} PlainMergeAll(sources: seq<Option<Node>>)
    requires AllSources(sources)
    ensures AreObjects(sources)
    ensures Source(MergeSources(sources)) && View(MergeSources(sources)) == MergeAll(TreesOf(sources))
    decreases |sources|
  {
    if sources == [] {
      EmptySource();
    } else {
      var init, last := sources[..|sources| - 1], sources[|sources| - 1];
      PlainMergeAll(init);
      assert TreesOf(sources)[..|sources| - 1] == TreesOf(init);
      if last.Some? {
        PlainInto(MergeSources(init), last.value);
      }
    }
  }

  // ---------------------------------------------------------------- objects with one entry

  function Single(k: string, x: Node): Node { Object([Entry(k, x)], Builtin) }

  lemma SingleTree(k: string, x: Node)
    ensures View(Single(k, x)) == Obj(map[k := View(x)])
    ensures Lookup(Single(k, x).entries, k) == Some(x)
  {
    var es := Single(k, x).entries;
    assert es[..|es| - 1] == [];
    assert Fields(es) == Fields([])[k := View(x)];
  }

  lemma SingleSource(k: string, x: Node)
    requires Ordinary(x)
    ensures Ordinary(Single(k, x))
    ensures k != PROTO && Plain(View(x)) ==> Source(Single(k, x))
  {
    var b := Single(k, x);
    SingleTree(k, x);
    assert b.entries[..0] == [];
    assert forall j :: Lookup(b.entries, j) == if j == k then Some(x) else None;
    if k != PROTO && Plain(View(x)) { PlainFields(View(b)); }
  }

  lemma SingleEntry(out: Node, k: string, x: Node)
    requires out.Object?
    ensures var existing := Existing(out, k);
            MergeEntries(out, Single(k, x).entries)
            == Assign(out, k, if x.Object? && existing.Some? then MergeTwo(existing.value, x) else x)
  {
    var es := Single(k, x).entries;
    assert es[..0] == [] && es[..1] == es;
    EntriesSnoc(out, es, 0);
  }

  // ---------------------------------------------------------------- laws

  /** The two sources merge as the trees of their own properties do. */
  predicate MergesPlainly(x: Node, y: Node)
    requires x.Object? && y.Object?
  {
    View(MergeTwo(x, y)) == Merge(View(x), View(y))
  }

  /**
   An object merges like its tree with every source, on its left or on its right, exactly when
   no path in it goes through an own `__proto__`.
   */
  lemma MergesPlainlyIff(a: Node)
    requires a.Object? && Ordinary(a)
    ensures Plain(View(a)) <==> forall b :: Source(b) ==> MergesPlainly(a, b)
    ensures Plain(View(a)) <==> forall b :: Source(b) ==> MergesPlainly(b, a)
  {
    if Plain(View(a)) {
      forall b | Source(b) ensures MergesPlainly(a, b) && MergesPlainly(b, a) {
        PlainMerge(a, b);
        PlainMerge(b, a);
      }
    } else {
      var q :| At(View(a), q).Some? && PROTO in q;
      var b := Spoiler(a, q);
    }
  }

  /** A source that shows it: objects on the way to the `__proto__`. */
  lemma {:induction false} Spoiler(a: Node, q: Path) returns (b: Node)
    requires a.Object? && Ordinary(a) && At(View(a), q).Some? && PROTO in q
    ensures Source(b) && !MergesPlainly(a, b) && !MergesPlainly(b, a)
    decreases q
  {
    if HasProto(a) {
      b := NEW;
      EmptySource();
      LostProto(a);
    } else {
      var k := q[0];
      StepToProto(a, q);
      var inner := Spoiler(Lookup(a.entries, k).value, q[1..]);
      b := Single(k, inner);
      SingleTree(k, inner);
      SingleSource(k, inner);
      SourceField(b, PROTO);
      if MergesPlainly(a, b) { PlainOnField(a, b, k); }
      if MergesPlainly(b, a) { PlainOnField(b, a, k); }
    }
  }

  lemma StepToProto(a: Node, q: Path)
    requires a.Object? && Ordinary(a) && !HasProto(a) && At(View(a), q).Some? && PROTO in q
    ensures q[0] != PROTO && PROTO in q[1..]
    ensures var e := Lookup(a.entries, q[0]);
            e.Some? && e.value.Object? && Ordinary(e.value) && At(View(e.value), q[1..]).Some?
  {
    FieldIsLookup(a, q[0]);
    FieldIsLookup(a, PROTO);
    assert q == [q[0]] + q[1..];
  }

  lemma CopyOf(a: Node)
    requires a.Object?
    ensures MergeTwo(NEW, a) == MergeTwo(a, NEW) == MergeEntries(NEW, a.entries)
  {
  }

  lemma LostProto(a: Node)
    requires a.Object? && Ordinary(a) && HasProto(a)
    ensures !MergesPlainly(a, NEW) && !MergesPlainly(NEW, a)
    ensures View(MergeTwo(a, NEW)) != View(a) && View(MergeTwo(NEW, a)) != View(a)
  {
    CopyOf(a);
    ProtoIsLost(NEW, a.entries);
    EmptySource();
    EmptyMerge(View(a));
    FieldIsLookup(a, PROTO);
    FieldIsLookup(MergeEntries(NEW, a.entries), PROTO);
  }

  lemma PlainOnField(x: Node, y: Node, k: string)
    requires x.Object? && Ordinary(x) && !HasProto(x) && y.Object? && Ordinary(y) && !HasProto(y) && MergesPlainly(x, y)
    requires var a, b := Lookup(x.entries, k), Lookup(y.entries, k); a.Some? && b.Some? && a.value.Object? && b.value.Object?
    ensures MergesPlainly(Lookup(x.entries, k).value, Lookup(y.entries, k).value)
  {
    PlainTwo(x, y, k);
    FieldIsLookup(x, k);
    FieldIsLookup(y, k);
    FieldIsLookup(MergeTwo(x, y), k);
    FieldOfMerge(View(x), View(y), k);
  }

  /** `{}` is neutral, on either side, exactly for objects without an own `__proto__`. */
  lemma EmptyIsNeutral(a: Node)
    requires a.Object? && Ordinary(a)
    ensures View(MergeTwo(NEW, a)) == View(a) <==> !HasProto(a)
    ensures View(MergeTwo(a, NEW)) == View(a) <==> !HasProto(a)
  {
    if HasProto(a) {
      LostProto(a);
    } else {
      CopyOf(a);
      SameTree(a);
    }
  }

  lemma SameTree(a: Node)
    requires a.Object? && Ordinary(a) && !HasProto(a)
    ensures View(MergeEntries(NEW, a.entries)) == View(a)
  {
    var r := MergeEntries(NEW, a.entries);
    forall k ensures Field(View(r), k) == Field(View(a), k) {
      PlainLevel(NEW, a.entries, k);
      FieldIsLookup(r, k);
      FieldIsLookup(a, k);
    }
    SameFields(View(r), View(a));
  }

  /**
   What any path reads: the right source where it has a leaf there or on the way, the merge of
   both where both have objects, the right source's object where the left has none, and the
   left source where the right one has nothing.
   */
  lemma ReadsMerged(x: Node, y: Node, p: Path)
    requires Source(x) && Source(y)
    ensures var a, b := View(x), View(y);
            At(View(MergeTwo(x, y)), p) == if LeafOnTheWay(b, p) then At(b, p)
                                           else if At(b, p).None? then At(a, p)
                                           else if ObjectAt(a, p) && ObjectAt(b, p) then Some(Merge(At(a, p).value, At(b, p).value))
                                           else At(b, p)
  {
    PlainMerge(x, y);
    AtMerge(View(x), View(y), p);
  }

  /** Merging `x` below `y` gives `y` exactly when everything in `x` is in `y` or replaced by it. */
  lemma AddsNothingIff(x: Node, y: Node)
    requires Source(x) && Source(y)
    ensures View(MergeTwo(x, y)) == View(y) <==> Absorbed(View(x), View(y))
  {
    PlainMerge(x, y);
    AbsorbedIff(View(x), View(y));
  }

  /** Both groupings of three sources, and the merge in one go, read the same. */
  predicate GroupsAlike(a: Node, b: Node, c: Node)
    requires a.Object? && b.Object? && c.Object?
  {
    View(MergeTwo(a, MergeTwo(b, c))) == View(MergeTwo(MergeTwo(a, b), c)) == View(MergeSources([Some(a), Some(b), Some(c)]))
  }

  /**
   The grouping of three sources does not matter exactly when, wherever the middle one replaces
   an object of the first by a leaf and the last has an object, the last absorbs the first one's
   object.
   */
  lemma GroupsAlikeIff(a: Node, b: Node, c: Node)
    requires Source(a) && Source(b) && Source(c)
    ensures GroupsAlike(a, b, c) <==> Harmless(View(a), View(b), View(c))
  {
    PlainMerge(a, b);
    PlainMerge(b, c);
    PlainMerge(a, MergeTwo(b, c));
    PlainMerge(MergeTwo(a, b), c);
    PlainInto(MergeTwo(a, b), c);
    ThreeSources(a, b, c);
    AssociatesIffHarmless(View(a), View(b), View(c));
  }

  lemma ThreeSources(a: Node, b: Node, c: Node)
    requires a.Object? && b.Object? && c.Object?
    ensures MergeSources([Some(a), Some(b), Some(c)]) == MergeEntries(MergeTwo(a, b), c.entries)
  {
    var two: seq<Option<Node>> := [Some(a), Some(b)];
    TwoSources(a, b);
    OneMore(two, c);
    assert two + [Some(c)] == [Some(a), Some(b), Some(c)];
  }

  // ---------------------------------------------------------------- where the laws fail

  lemma Leaf(v: Primitive)
    ensures Ordinary(Prim(v)) && Plain(View(Prim(v)))
  {
    PlainLeaf(v);
  }

  /** A middle source's `false` is undone in one grouping only. */
  lemma NotAlwaysAssociative()
    ensures var a, b, c := Single("x", Single("y", Prim(Null))), Single("x", Prim(Bool(false))), Single("x", NEW);
            Source(a) && Source(b) && Source(c) && !GroupsAlike(a, b, c)
  {
    UndoneOnce("x", "y", Null, Bool(false));
  }

  lemma UndoneOnce(x: string, y: string, u: Primitive, v: Primitive)
    requires x != PROTO && y != PROTO
    ensures var a, b, c := Single(x, Single(y, Prim(u))), Single(x, Prim(v)), Single(x, NEW);
            Source(a) && Source(b) && Source(c) && !GroupsAlike(a, b, c)
  {
    Leaf(u);
    Leaf(v);
    EmptySource();
    SingleSource(y, Prim(u));
    SingleSource(x, Single(y, Prim(u)));
    SingleSource(x, Prim(v));
    SingleSource(x, NEW);
    SingleTree(y, Prim(u));
    SingleTree(x, Single(y, Prim(u)));
    SingleTree(x, Prim(v));
    SingleTree(x, NEW);
    GroupsAlikeIff(Single(x, Single(y, Prim(u))), Single(x, Prim(v)), Single(x, NEW));
    CutOff(x, y, u, v);
  }

  /** An object with one entry and a prototype it was given. */
  function Heir(p: Node, k: string, x: Node): Node { Object([Entry(k, x)], Given(p)) }

  lemma CopySingle(x: string, e: Node)
    requires x != PROTO
    ensures MergeTwo(NEW, Single(x, e)) == MergeEntries(NEW, Single(x, e).entries) == Single(x, e)
  {
    CopyOf(Single(x, e));
    SingleEntry(NEW, x, e);
  }

  /** Merging an object under `__proto__` into a new one gives the new one that object's copy as prototype. */
  lemma GivenPrototype(x: string, e: Node)
    requires x != PROTO && e.Object?
    ensures MergeEntries(NEW, Single(PROTO, Single(x, e)).entries) == NEW.(proto := Given(Single(x, e)))
  {
    CopySingle(x, e);
    SingleEntry(NEW, PROTO, Single(x, e));
  }

  /** Where an object would be merged into `x`, it is merged with the inherited `x`. */
  lemma InheritedIsMerged(x: string, e: Node, f: Node)
    requires x != PROTO && e.Object? && f.Object?
    ensures var out := NEW.(proto := Given(Single(x, e)));
            MergeEntries(out, Single(x, f).entries) == Heir(Single(x, e), x, MergeTwo(e, f))
  {
    var out := NEW.(proto := Given(Single(x, e)));
    SingleTree(x, e);
    assert Inherited(out.proto.of, x) == Some(e);
    SingleEntry(out, x, f);
  }

  /** Objects of one entry each. */
  lemma PairMerge(y: string, z: string, u: Primitive)
    requires y != PROTO && z != PROTO && y != z
    ensures var e, f := Single(y, Prim(u)), Single(z, Prim(u));
            Source(e) && Source(f) && At(View(MergeTwo(e, f)), [y]) == Some(u) && At(View(f), [y]) == None
  {
    var e, f := Single(y, Prim(u)), Single(z, Prim(u));
    Leaf(u);
    SingleSource(y, Prim(u));
    SingleSource(z, Prim(u));
    SingleTree(y, Prim(u));
    SingleTree(z, Prim(u));
    PlainMerge(e, f);
    assert [y][1..] == [];
  }

  /** The groupings of a source with `e` inherited as `x`, nothing, and a source with `f` at `x`. */
  lemma InheritedGroups(x: string, e: Node, f: Node)
    requires x != PROTO && Source(e) && Source(f)
    ensures var a, b, c := Single(PROTO, Single(x, e)), NEW, Single(x, f);
            var all := Heir(Single(x, e), x, MergeTwo(e, f));
            && MergeSources([Some(a), Some(b), Some(c)]) == all == MergeTwo(a, MergeTwo(b, c))
            && MergeTwo(MergeTwo(a, b), c) == c
  {
    var a, b, c := Single(PROTO, Single(x, e)), NEW, Single(x, f);
    GivenPrototype(x, e);
    InheritedIsMerged(x, e, f);
    SingleEntry(NEW, x, f);
    ThreeSources(a, b, c);
  }

  lemma ReadsBelow(x: string, y: string, r: Node, e: Node)
    requires r.Object? && r.entries == Single(x, e).entries
    ensures At(View(r), [x, y]) == At(View(e), [y])
  {
    SingleTree(x, e);
    assert View(r) == View(Single(x, e));
    assert [x, y][1..] == [y];
  }

  /**
   With an own `__proto__` the grouping matters though no leaf cuts anything off: the prototype
   that the first source gives to the result is lost where the result is merged again.
   */
  lemma InheritedObjectsMerge()
    ensures var a, b, c := Single(PROTO, Single("x", Single("y", Prim(Null)))), NEW, Single("x", Single("z", Prim(Null)));
            && Ordinary(a) && Source(b) && Source(c) && Harmless(View(a), View(b), View(c))
            && MergeSources([Some(a), Some(b), Some(c)]) == MergeTwo(a, MergeTwo(b, c))
            && At(View(MergeTwo(a, MergeTwo(b, c))), ["x", "y"]) == Some(Null)
            && MergeTwo(MergeTwo(a, b), c) == c && At(View(c), ["x", "y"]) == None
  {
    Inherits("x", "y", "z", Null);
  }

  lemma Inherits(x: string, y: string, z: string, u: Primitive)
    requires x != PROTO && y != PROTO && z != PROTO && y != z
    ensures var a, b, c := Single(PROTO, Single(x, Single(y, Prim(u)))), NEW, Single(x, Single(z, Prim(u)));
            && Ordinary(a) && Source(b) && Source(c) && Harmless(View(a), View(b), View(c))
            && MergeSources([Some(a), Some(b), Some(c)]) == MergeTwo(a, MergeTwo(b, c))
            && At(View(MergeTwo(a, MergeTwo(b, c))), [x, y]) == Some(u)
            && MergeTwo(MergeTwo(a, b), c) == c && At(View(c), [x, y]) == None
  {
    var e, f := Single(y, Prim(u)), Single(z, Prim(u));
    PairMerge(y, z, u);
    InheritedGroups(x, e, f);
    ReadsBelow(x, y, MergeTwo(Single(PROTO, Single(x, e)), MergeTwo(NEW, Single(x, f))), MergeTwo(e, f));
    ReadsBelow(x, y, Single(x, f), f);
    SingleSource(x, e);
    SingleSource(x, f);
    SingleSource(PROTO, Single(x, e));
    EmptySource();
    NothingCutOff(View(Single(PROTO, Single(x, e))), View(Single(x, f)));
  }

  lemma NothingCutOff(a: Value, c: Value)
    ensures Harmless(a, EMPTY, c)
  {
    forall p ensures !LeafAt(EMPTY, p) { EmptyHasNothing(p); }
  }

  /** The same entries in another order merge to another tree. */
  lemma KeyOrderMatters()
    ensures var p, e := Single("x", Single("y", Prim(Null))), Single("z", Prim(Null));
            var a, b := Pair(PROTO, p, "x", e), Pair("x", e, PROTO, p);
            && Ordinary(a) && Ordinary(b) && View(a) == View(b)
            && At(View(MergeTwo(NEW, a)), ["x", "y"]) == Some(Null)
            && At(View(MergeTwo(NEW, b)), ["x", "y"]) == None
  {
    OrderMatters("x", "y", "z", Null);
  }

  lemma OrderMatters(x: string, y: string, z: string, u: Primitive)
    requires x != PROTO && y != PROTO && z != PROTO && y != z
    ensures var p, f := Single(x, Single(y, Prim(u))), Single(z, Prim(u));
            var a, b := Pair(PROTO, p, x, f), Pair(x, f, PROTO, p);
            && Ordinary(a) && Ordinary(b) && View(a) == View(b)
            && At(View(MergeTwo(NEW, a)), [x, y]) == Some(u)
            && At(View(MergeTwo(NEW, b)), [x, y]) == None
  {
    var e, f := Single(y, Prim(u)), Single(z, Prim(u));
    PairMerge(y, z, u);
    SingleSource(x, e);
    BothOrders(x, e, f);
    ReadsBelow(x, y, Heir(Single(x, e), x, MergeTwo(e, f)), MergeTwo(e, f));
    ReadsBelow(x, y, Heir(Single(x, e), x, f), f);
  }

  lemma BothOrders(x: string, e: Node, f: Node)
    requires x != PROTO && Source(e) && Source(f) && Ordinary(Single(x, e))
    ensures var a, b := Pair(PROTO, Single(x, e), x, f), Pair(x, f, PROTO, Single(x, e));
            && Ordinary(a) && Ordinary(b) && View(a) == View(b)
            && MergeTwo(NEW, a) == Heir(Single(x, e), x, MergeTwo(e, f))
            && MergeTwo(NEW, b) == Heir(Single(x, e), x, f)
  {
    var p := Single(x, e);
    PairOrdinary(PROTO, p, x, f);
    PairOrdinary(x, f, PROTO, p);
    BothTrees(PROTO, p, x, f);
    ProtoFirst(x, e, f);
    ProtoLast(x, e, f);
  }

  lemma BothTrees(j: string, e: Node, k: string, f: Node)
    requires j != k
    ensures View(Pair(j, e, k, f)) == View(Pair(k, f, j, e))
  {
    PairTree(j, e, k, f);
    PairTree(k, f, j, e);
  }

  lemma ProtoFirst(x: string, e: Node, f: Node)
    requires x != PROTO && e.Object? && f.Object?
    ensures MergeTwo(NEW, Pair(PROTO, Single(x, e), x, f))
            == Heir(Single(x, e), x, MergeTwo(e, f))
  {
    OneThenOther(PROTO, Single(x, e), x, f);
    GivenPrototype(x, e);
    InheritedIsMerged(x, e, f);
  }

  lemma ProtoLast(x: string, e: Node, f: Node)
    requires x != PROTO && e.Object? && f.Object?
    ensures MergeTwo(NEW, Pair(x, f, PROTO, Single(x, e))) == Heir(Single(x, e), x, f)
  {
    OneThenOther(x, f, PROTO, Single(x, e));
    CopySingle(x, f);
    ProtoAfter(x, e, f);
  }

  function Pair(j: string, e: Node, k: string, f: Node): Node { Object([Entry(j, e), Entry(k, f)], Builtin) }

  lemma PairTree(j: string, e: Node, k: string, f: Node)
    ensures View(Pair(j, e, k, f)) == Obj(map[j := View(e), k := View(f)])
  {
    var one := Single(j, e).entries;
    assert one + [Entry(k, f)] == Pair(j, e, k, f).entries;
    SnocFacts(one, k, f, k);
    SingleTree(j, e);
  }

  lemma PairOrdinary(j: string, e: Node, k: string, f: Node)
    requires j != k && Ordinary(e) && Ordinary(f)
    ensures Ordinary(Pair(j, e, k, f))
  {
    var none: Entries, one, es := [], Single(j, e).entries, Pair(j, e, k, f).entries;
    assert none + [Entry(j, e)] == one && one + [Entry(k, f)] == es;
    forall i ensures Lookup(es, i) == if i == k then Some(f) else if i == j then Some(e) else None {
      SnocFacts(none, j, e, i);
      SnocFacts(one, k, f, i);
    }
    SnocFacts(none, j, e, k);
    SnocFacts(one, k, f, k);
  }

  /** Two entries are merged one after the other. */
  lemma OneThenOther(j: string, e: Node, k: string, f: Node)
    requires j != k
    ensures MergeTwo(NEW, Pair(j, e, k, f))
            == MergeEntries(MergeEntries(NEW, Single(j, e).entries), Single(k, f).entries)
  {
    var es := Pair(j, e, k, f).entries;
    assert es[..1] == Single(j, e).entries && es[..2] == es;
    CopyOf(Pair(j, e, k, f));
    EntriesSnoc(NEW, es, 1);
    SingleEntry(MergeEntries(NEW, Single(j, e).entries), k, f);
  }

  lemma ProtoOfSingle(x: string, f: Node)
    requires x != PROTO
    ensures Accessor(Single(x, f)) && Existing(Single(x, f), PROTO) == Some(NEW)
  {
    assert Single(x, f).entries[..0] == [];
  }

  lemma ProtoAfter(x: string, e: Node, f: Node)
    requires x != PROTO && e.Object? && f.Object?
    ensures MergeEntries(Single(x, f), Single(PROTO, Single(x, e)).entries) == Heir(Single(x, e), x, f)
  {
    var out, p := Single(x, f), Single(x, e);
    CopySingle(x, e);
    ProtoOfSingle(x, f);
    SingleEntry(out, PROTO, p);
  }
}