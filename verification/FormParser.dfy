/**
 Form data to configuration, server/lib/form-parser.ts: dotted keys walk into nested
 objects, `[]` keys collect arrays, keys outside the whitelist are dropped.

 A cursor into the object under construction is the place it has walked to; `setNested` and
 `pushNested` are loops that move it and update what is there. A segment `__proto__` takes it
 out of the object, to the prototype all objects share.
 */
module FormParser {
  import opened ConfigTrees
  import opened Prototypes
  import opened Splitting
  import opened Wrappers

  const SETTINGS_SCHEMA_KEYS: seq<string> := [
    "costCaps.daily", "costCaps.monthly", "allowlist[]", "notifications.slack.webhook",
    "notifications.email.to", "circuitBreaker.enabled", "killSwitch.engaged"]

  const SETTINGS_SCHEMA_PREFIXES: seq<string> := ["trustLevels."]

  const NUMERIC_FIELDS := {"costCaps.daily", "costCaps.monthly"}

  const BOOLEAN_FIELDS := {"circuitBreaker.enabled", "killSwitch.engaged"}

  datatype Pair = Pair(key: string, value: string)

  /** Form data: pairs in insertion order. */
  type Form = seq<Pair>

  /** `Number(value.trim())` where it is finite; `None` for empty or non-numeric text. */
  type Numeric = string -> Option<real>

  function GetAll(form: Form, key: string): seq<string> {
    if form == [] then []
    else (if form[0].key == key then [form[0].value] else []) + GetAll(form[1..], key)
  }

  predicate HasKey(form: Form, key: string) { exists p :: p in form && p.key == key }

  /** `list.includes(key)`. */
  predicate Listed(list: seq<string>, key: string) { list != [] && (list[0] == key || Listed(list[1..], key)) }

  /** `list.some((p) => key.startsWith(p))`. */
  predicate StartsWithSome(list: seq<string>, key: string) { list != [] && (list[0] <= key || StartsWithSome(list[1..], key)) }

  predicate KeyAllowed(key: string) { Listed(SETTINGS_SCHEMA_KEYS, key) || StartsWithSome(SETTINGS_SCHEMA_PREFIXES, key) }

  predicate IsArrayKey(key: string) { |key| >= 2 && key[|key| - 2..] == "[]" }

  function BaseKey(key: string): string { if IsArrayKey(key) then key[..|key| - 2] else key }

  function PathOf(key: string): (p: Path)
    ensures p != []
  {
    Split(BaseKey(key), '.')
  }

  function Coerce(number: Numeric, rawKey: string, value: string): (v: Value)
    ensures !v.Obj? && !v.Arr?
  {
    if BaseKey(rawKey) in NUMERIC_FIELDS then
      match number(value) case None => Null case Some(n) => Num(n)
    else if BaseKey(rawKey) in BOOLEAN_FIELDS then Bool(value == "true" || value == "on" || value == "1")
    else Str(value)
  }

  // ---------------------------------------------------------------- one key, where prototypes play no part

  function PushAll(v: Value, path: Path, xs: seq<Value>): Value {
    if xs == [] then v else Push(PushAll(v, path, xs[..|xs| - 1]), path, xs[|xs| - 1])
  }

  function CoerceAll(number: Numeric, rawKey: string, values: seq<string>): (xs: seq<Value>)
    ensures |xs| == |values|
  {
    if values == [] then []
    else CoerceAll(number, rawKey, values[..|values| - 1]) + [Coerce(number, rawKey, values[|values| - 1])]
  }

  /** What one allowed key contributes: the list for a `[]` key, else the coerced last value. */
  function Expected(number: Numeric, form: Form, key: string): (v: Value)
    ensures !v.Obj? && (v.Arr? <==> IsArrayKey(key))
  {
    var values := GetAll(form, key);
    if IsArrayKey(key) then Arr(CoerceAll(number, key, values))
    else Coerce(number, key, if values == [] then "" else values[|values| - 1])
  }

  function AddKey(number: Numeric, form: Form, v: Value, key: string): Value {
    if !KeyAllowed(key) then v
    else if IsArrayKey(key) then PushAll(v, PathOf(key), CoerceAll(number, key, GetAll(form, key)))
    else Put(v, PathOf(key), Expected(number, form, key))
  }

  /** The tree after the first `n` pairs, should no key name a prototype: each key counts once, at its first place. */
  function ParseTo(number: Numeric, form: Form, n: nat): Value
    requires n <= |form|
  {
    if n == 0 then EMPTY
    else
      var before := ParseTo(number, form, n - 1);
      if HasKey(form[..n - 1], form[n - 1].key) then before else AddKey(number, form, before, form[n - 1].key)
  }

  function Parse(number: Numeric, form: Form): Value { ParseTo(number, form, |form|) }

  // ---------------------------------------------------------------- one key, in any state

  /** Only a numeric field is ever set to null ... */
  lemma NullIsNumeric(number: Numeric, key: string, value: string)
    ensures Coerce(number, key, value).Null? ==> BaseKey(key) in NUMERIC_FIELDS
  {
  }

  /** ... so a prototype never is. */
  lemma PrototypeNeverNull(number: Numeric, key: string, value: string)
    ensures Coerce(number, key, value).Null? ==> var path := PathOf(key); path[|path| - 1] != PROTO
  {
    if Coerce(number, key, value).Null? {
      NullIsNumeric(number, key, value);
      NumericLast(key);
    }
  }

  lemma NumericLast(key: string)
    requires BaseKey(key) in NUMERIC_FIELDS
    ensures var path := PathOf(key); path[|path| - 1] != PROTO
  {
    NumericEnd(BaseKey(key));
    LastIsNotProto(BaseKey(key));
  }

  lemma LastIsNotProto(base: string)
    requires base != "" && base[|base| - 1] == 'y'
    ensures var path := Split(base, '.'); path[|path| - 1] != PROTO
  {
    LastSegmentEnds(base, '.');
    ProtoEnd();
  }

  lemma NumericEnd(base: string)
    requires base in NUMERIC_FIELDS
    ensures base != "" && base[|base| - 1] == 'y'
  {
  }

  lemma ProtoEnd()
    ensures PROTO != "" && PROTO[|PROTO| - 1] != 'y'
  {
  }

  lemma {:induction false} LastSegmentEnds(s: string, sep: char)
    requires s != "" && s[|s| - 1] != sep
    ensures var parts := Split(s, sep); var last := parts[|parts| - 1]; last != "" && last[|last| - 1] == s[|s| - 1]
  {
    if |s| > 1 { LastSegmentEnds(s[1..], sep); } else { assert s[1..] == []; }
  }

  lemma TwoSegments(a: string, b: string)
    requires '.' !in a && '.' !in b
    ensures Split(a + "." + b, '.') == [a, b]
  {
    SplitStep(a, '.', b);
    SplitWithout(b, '.');
  }

  function SetKey(number: Numeric, h: Heap, key: string, value: string): (o: Outcome)
    requires Sound(h)
    ensures Sound(o.heap)
  {
    NestedSet(h, PathOf(key), Coerce(number, key, value))
  }

  /** Pushing values until one push throws. */
  function PushValues(h: Heap, path: Path, xs: seq<Value>): (o: Outcome)
    requires Sound(h) && path != []
    ensures Sound(o.heap)
  {
    if xs == [] then Outcome(h, false)
    else
      var o := PushValues(h, path, xs[..|xs| - 1]);
      if o.threw then o else NestedPush(o.heap, path, xs[|xs| - 1])
  }

  function AddValues(number: Numeric, h: Heap, key: string, values: seq<string>): (o: Outcome)
    requires Sound(h)
    ensures Sound(o.heap)
  {
    if IsArrayKey(key) then PushValues(h, PathOf(key), CoerceAll(number, key, values))
    else SetKey(number, h, key, if values == [] then "" else values[|values| - 1])
  }

  function AddKeyTo(number: Numeric, form: Form, h: Heap, key: string): (o: Outcome)
    requires Sound(h)
    ensures Sound(o.heap)
  {
    if KeyAllowed(key) then AddValues(number, h, key, GetAll(form, key)) else Outcome(h, false)
  }

  /** The state after the first `n` pairs, or after the TypeError. */
  function ParsePairs(number: Numeric, form: Form, shared: Value, n: nat): (o: Outcome)
    requires n <= |form| && shared.Obj?
    ensures Sound(o.heap)
  {
    if n == 0 then Outcome(Heap(EMPTY, shared), false)
    else
      var before := ParsePairs(number, form, shared, n - 1);
      if before.threw || HasKey(form[..n - 1], form[n - 1].key) then before
      else AddKeyTo(number, form, before.heap, form[n - 1].key)
  }

  /** Parsing a form when `Object.prototype` holds the properties `shared` besides its own. */
  function ParseForm(number: Numeric, form: Form, shared: Value): (o: Outcome)
    requires shared.Obj?
    ensures Sound(o.heap)
  {
    ParsePairs(number, form, shared, |form|)
  }

  // ---------------------------------------------------------------- the loops

  /** The object under construction, and what has been added to the prototype it shares with all others. */
  class ConfigTree {
    var root: Value
    var shared: Value

    function State(): Heap reads this { Heap(root, shared) }

    constructor (shared: Value)
      ensures State() == Heap(EMPTY, shared)
    {
      root, this.shared := EMPTY, shared;
    }

    /** The walk that `setNested` and `pushNested` share: every missing object is made. */
    method Descend(path: Path) returns (at: Option<Place>)
      requires path != [] && Sound(State())
      modifies this
      ensures Walked(State(), at) == Walk(old(State()), path[..|path| - 1])
    {
      var cursor := ROOT;
      assert path[..0] == [];
      for i := 0 to |path| - 1
        invariant Sound(State()) && IsObject(State(), cursor)
        invariant Walked(State(), Some(cursor)) == Walk(old(State()), path[..i])
      {
        var seg := path[i];
        assert path[..i + 1][..i] == path[..i];
        StepSound(State(), cursor, seg);
        var next := Target(State(), cursor, seg);
        if next.Some? && IsObject(State(), next.value) {
          cursor := next.value;
        } else {
          if seg == PROTO && cursor == SHARED_ROOT {
            assert path[..|path| - 1][..i + 1] == path[..i + 1];
            WalkEnds(old(State()), path[..|path| - 1], i + 1);
            return None;
          }
          SetHeap(Write(State(), Below(cursor, seg), EMPTY));
          cursor := Below(cursor, seg);
        }
      }
      at := Some(cursor);
    }

    method SetHeap(h: Heap)
      modifies this
      ensures State() == h
    {
      root, shared := h.root, h.shared;
    }

    method SetNested(path: Path, value: Value) returns (threw: bool)
      requires path != [] && Sound(State())
      modifies this
      ensures Outcome(State(), threw) == NestedSet(old(State()), path, value)
    {
      var cursor := Descend(path);
      if cursor.None? { return true; }
      var next := Assigned(State(), cursor.value, path[|path| - 1], value);
      if next.None? { return true; }
      SetHeap(next.value);
      threw := false;
    }

    method PushNested(path: Path, value: Value) returns (threw: bool)
      requires path != [] && Sound(State())
      modifies this
      ensures Outcome(State(), threw) == NestedPush(old(State()), path, value)
    {
      var cursor := Descend(path);
      if cursor.None? { return true; }
      var leaf := path[|path| - 1];
      var existing := Target(State(), cursor.value, leaf);
      if existing.Some? && IsArray(State(), existing.value) {
        var items := ValueAt(State(), existing.value).value.items;
        SetHeap(Write(State(), existing.value, Arr(items + [value])));
        return false;
      }
      var next := Assigned(State(), cursor.value, leaf, Arr([value]));
      if next.None? { return true; }
      SetHeap(next.value);
      threw := false;
    }
  }

  /** The configuration, none if the parse threw, and the shared prototype it leaves behind. */
  method ParseFormDataToConfig(number: Numeric, form: Form, shared: Value) returns (config: Option<Value>, left: Value)
    requires shared.Obj?
    ensures var o := ParseForm(number, form, shared);
            left == o.heap.shared && config == if o.threw then None else Some(o.heap.root)
  {
    var out := new ConfigTree(shared);
    var seen: set<string> := {};
    for i := 0 to |form|
      invariant fresh(out) && Outcome(out.State(), false) == ParsePairs(number, form, shared, i)
      invariant forall k :: k in seen <==> HasKey(form[..i], k)
    {
      var rawKey := form[i].key;
      HasKeySnoc(form, i);
      if rawKey in seen { continue; }
      seen := seen + {rawKey};
      if !KeyAllowed(rawKey) { continue; }
      var threw := AddRaw(out, number, rawKey, GetAll(form, rawKey));
      if threw {
        ThrownStays(number, form, shared, i + 1);
        return None, out.shared;
      }
    }
    config, left := Some(out.root), out.shared;
  }

  /** Lines 148-160 of the source. */
  method AddRaw(out: ConfigTree, number: Numeric, rawKey: string, values: seq<string>) returns (threw: bool)
    requires Sound(out.State())
    modifies out
    ensures Outcome(out.State(), threw) == AddValues(number, old(out.State()), rawKey, values)
  {
    if IsArrayKey(rawKey) {
      threw := AddList(out, number, rawKey, values);
    } else {
      threw := AddLast(out, number, rawKey, if values == [] then "" else values[|values| - 1]);
    }
  }

  method AddLast(out: ConfigTree, number: Numeric, rawKey: string, v: string) returns (threw: bool)
    requires Sound(out.State())
    modifies out
    ensures Outcome(out.State(), threw) == SetKey(number, old(out.State()), rawKey, v)
  {
    var path, x := PathOf(rawKey), Coerce(number, rawKey, v);
    threw := out.SetNested(path, x);
  }

  method AddList(out: ConfigTree, number: Numeric, rawKey: string, values: seq<string>) returns (threw: bool)
    requires Sound(out.State())
    modifies out
    ensures Outcome(out.State(), threw) == PushValues(old(out.State()), PathOf(rawKey), CoerceAll(number, rawKey, values))
  {
    var path := PathOf(rawKey);
    for i := 0 to |values|
      invariant Sound(out.State())
      invariant Outcome(out.State(), false) == PushValues(old(out.State()), path, CoerceAll(number, rawKey, values[..i]))
    {
      var x := Coerce(number, rawKey, values[i]);
      CoerceAllSnoc(number, rawKey, values, i);
      PushOneMore(old(out.State()), path, CoerceAll(number, rawKey, values[..i]), x);
      threw := out.PushNested(path, x);
      if threw {
        CoerceAllPrefix(number, rawKey, values, i + 1);
        PushesEnd(old(out.State()), path, CoerceAll(number, rawKey, values), i + 1);
        return;
      }
    }
    assert values[..|values|] == values;
    threw := false;
  }

  lemma {:induction false} CoerceAllPrefix(number: Numeric, rawKey: string, values: seq<string>, n: nat)
    requires n <= |values|
    ensures CoerceAll(number, rawKey, values)[..n] == CoerceAll(number, rawKey, values[..n])
    decreases |values|
  {
    if n < |values| {
      CoerceAllPrefix(number, rawKey, values[..|values| - 1], n);
      assert values[..|values| - 1][..n] == values[..n];
    } else {
      assert values[..n] == values;
    }
  }

  lemma PushOneMore(h: Heap, path: Path, xs: seq<Value>, x: Value)
    requires Sound(h) && path != [] && !PushValues(h, path, xs).threw
    ensures PushValues(h, path, xs + [x]) == NestedPush(PushValues(h, path, xs).heap, path, x)
  {
    assert (xs + [x])[..|xs|] == xs;
  }

  lemma {:induction false} PushesEnd(h: Heap, path: Path, xs: seq<Value>, n: nat)
    requires Sound(h) && path != [] && n <= |xs| && PushValues(h, path, xs[..n]).threw
    ensures PushValues(h, path, xs) == PushValues(h, path, xs[..n])
    decreases |xs|
  {
    if n < |xs| {
      assert xs[..|xs| - 1][..n] == xs[..n];
      PushesEnd(h, path, xs[..|xs| - 1], n);
    } else {
      assert xs[..n] == xs;
    }
  }

  lemma {:induction false} ThrownStays(number: Numeric, form: Form, shared: Value, n: nat)
    requires n <= |form| && shared.Obj? && ParsePairs(number, form, shared, n).threw
    ensures ParseForm(number, form, shared) == ParsePairs(number, form, shared, n)
    decreases |form| - n
  {
    if n < |form| { ThrownStays(number, form, shared, n + 1); }
  }

  lemma HasKeySnoc(form: Form, i: nat)
    requires i < |form|
    ensures forall k :: HasKey(form[..i + 1], k) <==> HasKey(form[..i], k) || k == form[i].key
  {
    var before, after := form[..i], form[..i + 1];
    assert after == before + [form[i]];
    forall k ensures HasKey(after, k) <==> HasKey(before, k) || k == form[i].key {
      if HasKey(before, k) {
        var p :| p in before && p.key == k;
        assert p in after;
      }
      if k == form[i].key { assert form[i] in after; }
    }
  }

  lemma CoerceAllSnoc(number: Numeric, rawKey: string, values: seq<string>, i: nat)
    requires i < |values|
    ensures CoerceAll(number, rawKey, values[..i + 1])
            == CoerceAll(number, rawKey, values[..i]) + [Coerce(number, rawKey, values[i])]
  {
    assert values[..i + 1][..i] == values[..i];
  }

  // ---------------------------------------------------------------- what a form can produce

  /** The allowed keys among the first `n` pairs. */
  ghost predicate Counts(form: Form, n: nat, key: string)
    requires n <= |form|
  {
    HasKey(form[..n], key) && KeyAllowed(key)
  }

  lemma {:induction false} PushAllIsPut(v: Value, path: Path, xs: seq<Value>)
    requires xs != []
    ensures PushAll(v, path, xs) == Put(v, path, Arr(ItemsAt(v, path) + xs))
  {
    var init, last, items := xs[..|xs| - 1], xs[|xs| - 1], ItemsAt(v, path);
    if init == [] {
      assert xs == [last] && PushAll(v, path, init) == v;
    } else {
      PushAllIsPut(v, path, init);
      AtPutSame(v, path, Arr(items + init), path);
      PutSamePath(v, path, Arr(items + init), Arr(items + init + [last]));
      assert items + init + [last] == items + xs;
    }
  }

  lemma {:induction false} PutSamePath(v: Value, path: Path, y: Value, x: Value)
    ensures Put(Put(v, path, y), path, x) == Put(v, path, x)
    decreases path
  {
    if path != [] {
      PutSamePath(ChildOf(v, path[0]), path[1..], y, x);
      PutTwice(v, path, y, path, x);
    }
  }

  lemma {:induction false} GetAllOfPresent(form: Form, key: string)
    ensures GetAll(form, key) != [] <==> HasKey(form, key)
  {
    if form != [] {
      GetAllOfPresent(form[1..], key);
      assert form == [form[0]] + form[1..];
    }
  }

  lemma ListWrites(v: Value, path: Path, xs: seq<Value>) returns (x: Value)
    requires xs != []
    ensures PushAll(v, path, xs) == Put(v, path, x) && x.Arr?
    ensures !LeafAt(v, path) ==> x == Arr(xs)
  {
    PushAllIsPut(v, path, xs);
    x := Arr(ItemsAt(v, path) + xs);
    ConcatFacts<Value>([], xs, []);
  }

  /** An allowed key writes one leaf at its path; its value is the expected one unless an array was there. */
  lemma AddKeyWrites(number: Numeric, form: Form, v: Value, key: string) returns (x: Value)
    requires KeyAllowed(key) && HasKey(form, key)
    ensures AddKey(number, form, v, key) == Put(v, PathOf(key), x) && !x.Obj?
    ensures !LeafAt(v, PathOf(key)) ==> x == Expected(number, form, key)
  {
    if IsArrayKey(key) {
      GetAllOfPresent(form, key);
      x := ListWrites(v, PathOf(key), CoerceAll(number, key, GetAll(form, key)));
    } else {
      x := Expected(number, form, key);
    }
  }

  /** Whose leaf is where after one more write. */
  lemma LeafAfterPut(v: Value, p: Path, x: Value, q: Path)
    requires !x.Obj?
    ensures LeafAt(Put(v, p, x), q) <==> q == p || (Incomparable(p, q) && LeafAt(v, q))
  {
    AtPutSame(v, p, x, q);
    if Prefix(p, q) {
      AtPutBelow(v, p, x, q);
      if q != p { NothingBelowLeaf(x, [], q[|p|..]); }
    } else if !Prefix(q, p) {
      AtPutElsewhere(v, p, x, q);
    }
  }

  lemma {:induction false} OnlyAllowedPlain(number: Numeric, form: Form, n: nat, q: Path)
    requires n <= |form| && LeafAt(ParseTo(number, form, n), q)
    ensures exists k :: Counts(form, n, k) && q == PathOf(k)
  {
    if n > 0 {
      var before, key := ParseTo(number, form, n - 1), form[n - 1].key;
      HasKeySnoc(form, n - 1);
      if HasKey(form[..n - 1], key) || !KeyAllowed(key) {
        OnlyAllowedPlain(number, form, n - 1, q);
        var k :| Counts(form, n - 1, k) && q == PathOf(k);
        assert Counts(form, n, k);
      } else {
        assert form[n - 1] in form;
        var x := AddKeyWrites(number, form, before, key);
        LeafAfterPut(before, PathOf(key), x, q);
        if q == PathOf(key) {
          assert Counts(form, n, key);
        } else {
          OnlyAllowedPlain(number, form, n - 1, q);
          var k :| Counts(form, n - 1, k) && q == PathOf(k);
          assert Counts(form, n, k);
        }
      }
    }
  }

  // ---------------------------------------------------------------- the round trip

  /** No allowed key of the form has a path that starts with, or equals, another's. */
  ghost predicate NoClash(form: Form, n: nat)
    requires n <= |form|
  {
    forall j, k :: Counts(form, n, j) && Counts(form, n, k) && j != k ==> Incomparable(PathOf(j), PathOf(k))
  }

  lemma NoClashBefore(form: Form, n: nat)
    requires 0 < n <= |form| && NoClash(form, n)
    ensures NoClash(form, n - 1)
  {
    HasKeySnoc(form, n - 1);
    assert forall k :: Counts(form, n - 1, k) ==> Counts(form, n, k);
  }

  lemma {:induction false} EveryKeyThere(number: Numeric, form: Form, n: nat, key: string)
    requires n <= |form| && NoClash(form, n) && Counts(form, n, key)
    ensures At(ParseTo(number, form, n), PathOf(key)) == Some(Expected(number, form, key))
  {
    CountsBefore(form, n, key);
    NoClashBefore(form, n);
    if Counts(form, n - 1, key) { EveryKeyThere(number, form, n - 1, key); }
    KeyStep(number, form, n, key);
  }

  lemma KeyStep(number: Numeric, form: Form, n: nat, key: string)
    requires 0 < n <= |form| && NoClash(form, n) && Counts(form, n, key)
    requires key == form[n - 1].key || Counts(form, n - 1, key)
    requires Counts(form, n - 1, key) ==> At(ParseTo(number, form, n - 1), PathOf(key)) == Some(Expected(number, form, key))
    ensures At(ParseTo(number, form, n), PathOf(key)) == Some(Expected(number, form, key))
  {
    var last := form[n - 1].key;
    if HasKey(form[..n - 1], last) || !KeyAllowed(last) {
      assert Counts(form, n - 1, key);
    } else if key == last {
      LastKeyThere(number, form, n);
    } else {
      OtherKeyKeeps(number, form, n, key);
    }
  }

  lemma CountsBefore(form: Form, n: nat, key: string)
    requires n <= |form| && Counts(form, n, key)
    ensures n > 0 && (key == form[n - 1].key || Counts(form, n - 1, key))
  {
    if n > 0 { HasKeySnoc(form, n - 1); }
  }

  lemma OtherKeyKeeps(number: Numeric, form: Form, n: nat, key: string)
    requires 0 < n <= |form| && NoClash(form, n) && Counts(form, n, key)
    requires form[n - 1].key != key && KeyAllowed(form[n - 1].key)
    ensures var before := ParseTo(number, form, n - 1);
            At(AddKey(number, form, before, form[n - 1].key), PathOf(key)) == At(before, PathOf(key))
  {
    var last, before := form[n - 1].key, ParseTo(number, form, n - 1);
    HasKeySnoc(form, n - 1);
    assert form[n - 1] in form && Counts(form, n, last);
    var x := AddKeyWrites(number, form, before, last);
    AtPutElsewhere(before, PathOf(last), x, PathOf(key));
  }

  lemma LastKeyThere(number: Numeric, form: Form, n: nat)
    requires 0 < n <= |form| && NoClash(form, n)
    requires KeyAllowed(form[n - 1].key) && !HasKey(form[..n - 1], form[n - 1].key)
    ensures var key := form[n - 1].key;
            At(ParseTo(number, form, n), PathOf(key)) == Some(Expected(number, form, key))
  {
    var key, before := form[n - 1].key, ParseTo(number, form, n - 1);
    HasKeySnoc(form, n - 1);
    assert form[n - 1] in form;
    var x := AddKeyWrites(number, form, before, key);
    AtPutSame(before, PathOf(key), x, PathOf(key));
    FreshPath(number, form, n, key);
  }

  /** Before a key is processed its path holds no leaf. */
  lemma FreshPath(number: Numeric, form: Form, n: nat, key: string)
    requires 0 < n <= |form| && NoClash(form, n) && Counts(form, n, key)
    requires form[n - 1].key == key && !HasKey(form[..n - 1], key)
    ensures !LeafAt(ParseTo(number, form, n - 1), PathOf(key))
  {
    if LeafAt(ParseTo(number, form, n - 1), PathOf(key)) {
      OnlyAllowedPlain(number, form, n - 1, PathOf(key));
      var k :| Counts(form, n - 1, k) && PathOf(key) == PathOf(k);
      HasKeySnoc(form, n - 1);
      assert Counts(form, n, k) && k != key;
      assert false;
    }
  }

  // ---------------------------------------------------------------- every form

  /** The path of an allowed key among the first `n` pairs. */
  ghost predicate Accounted(form: Form, n: nat, q: Path)
    requires n <= |form|
  {
    exists k :: Counts(form, n, k) && q == PathOf(k)
  }

  lemma StillAccounted(form: Form, n: nat, q: Path)
    requires n < |form|
    ensures Accounted(form, n, q) ==> Accounted(form, n + 1, q)
    ensures KeyAllowed(form[n].key) && q == PathOf(form[n].key) ==> Accounted(form, n + 1, q)
  {
    HasKeySnoc(form, n);
    if Accounted(form, n, q) {
      var k :| Counts(form, n, k) && q == PathOf(k);
      assert Counts(form, n + 1, k);
    }
    if KeyAllowed(form[n].key) { assert Counts(form, n + 1, form[n].key); }
  }

  /** With no precondition at all, every own leaf comes from an allowed key of the form. */
  lemma {:induction false} OnlyAllowedLeaves(number: Numeric, form: Form, shared: Value, n: nat, q: Path)
    requires n <= |form| && shared.Obj? && OwnLeafAt(ParsePairs(number, form, shared, n).heap.root, q)
    ensures Accounted(form, n, q)
  {
    if n == 0 {
      EmptyHasNothing(q);
    } else {
      if OwnLeafAt(ParsePairs(number, form, shared, n - 1).heap.root, q) { OnlyAllowedLeaves(number, form, shared, n - 1, q); }
      LeafAccounted(number, form, shared, n, q);
    }
  }

  lemma LeafAccounted(number: Numeric, form: Form, shared: Value, n: nat, q: Path)
    requires 0 < n <= |form| && shared.Obj? && OwnLeafAt(ParsePairs(number, form, shared, n).heap.root, q)
    requires OwnLeafAt(ParsePairs(number, form, shared, n - 1).heap.root, q) ==> Accounted(form, n - 1, q)
    ensures Accounted(form, n, q)
  {
    PairMakesLeaf(number, form, shared, n, q);
    AccountedStep(form, n, q);
  }

  lemma AccountedStep(form: Form, n: nat, q: Path)
    requires 0 < n <= |form|
    requires Accounted(form, n - 1, q) || (KeyAllowed(form[n - 1].key) && q == PathOf(form[n - 1].key))
    ensures Accounted(form, n, q)
  {
    StillAccounted(form, n - 1, q);
  }

  lemma PairMakesLeaf(number: Numeric, form: Form, shared: Value, n: nat, q: Path)
    requires 0 < n <= |form| && shared.Obj? && OwnLeafAt(ParsePairs(number, form, shared, n).heap.root, q)
    ensures OwnLeafAt(ParsePairs(number, form, shared, n - 1).heap.root, q)
            || (KeyAllowed(form[n - 1].key) && q == PathOf(form[n - 1].key))
  {
    AddKeyMakesLeaf(number, form, ParsePairs(number, form, shared, n - 1).heap, form[n - 1].key, q);
  }

  lemma AddKeyMakesLeaf(number: Numeric, form: Form, h: Heap, key: string, q: Path)
    requires Sound(h)
    ensures OwnLeafAt(AddKeyTo(number, form, h, key).heap.root, q) ==>
      (KeyAllowed(key) && q == PathOf(key)) || OwnLeafAt(h.root, q)
  {
    if KeyAllowed(key) { AddValuesMakeLeaf(number, h, key, GetAll(form, key), q); }
  }

  lemma AddValuesMakeLeaf(number: Numeric, h: Heap, key: string, values: seq<string>, q: Path)
    requires Sound(h)
    ensures OwnLeafAt(AddValues(number, h, key, values).heap.root, q) ==> q == PathOf(key) || OwnLeafAt(h.root, q)
  {
    if IsArrayKey(key) {
      PushesMakeLeaf(h, PathOf(key), CoerceAll(number, key, values), q);
    } else {
      SetMakesLeaf(h, PathOf(key), Coerce(number, key, if values == [] then "" else values[|values| - 1]), q);
    }
  }

  lemma {:induction false} PushesMakeLeaf(h: Heap, path: Path, xs: seq<Value>, q: Path)
    requires Sound(h) && path != []
    ensures OwnLeafAt(PushValues(h, path, xs).heap.root, q) ==> q == path || OwnLeafAt(h.root, q)
  {
    if xs != [] {
      var o := PushValues(h, path, xs[..|xs| - 1]);
      PushesMakeLeaf(h, path, xs[..|xs| - 1], q);
      PushMakesLeaf(o.heap, path, xs[|xs| - 1], q);
    }
  }

  // ---------------------------------------------------------------- forms that name no prototype

  /** No allowed key of the form has a segment `__proto__`. */
  ghost predicate NoProto(form: Form, n: nat)
    requires n <= |form|
  {
    forall k :: Counts(form, n, k) ==> PROTO !in PathOf(k)
  }

  /** Such a form is parsed as if there were no prototypes, leaves the shared one alone and does not throw. */
  lemma {:induction false} NoProtoParse(number: Numeric, form: Form, n: nat)
    requires n <= |form| && NoProto(form, n)
    ensures ParsePairs(number, form, EMPTY, n) == Outcome(Heap(ParseTo(number, form, n), EMPTY), false)
    ensures Pristine(Heap(ParseTo(number, form, n), EMPTY))
  {
    if n == 0 {
      PlainEmpty();
    } else {
      HasKeySnoc(form, n - 1);
      assert forall k :: Counts(form, n - 1, k) ==> Counts(form, n, k);
      NoProtoParse(number, form, n - 1);
      var key := form[n - 1].key;
      if KeyAllowed(key) && !HasKey(form[..n - 1], key) {
        assert Counts(form, n, key);
        NoProtoKey(number, form, Heap(ParseTo(number, form, n - 1), EMPTY), key);
      }
    }
  }

  lemma NoProtoKey(number: Numeric, form: Form, h: Heap, key: string)
    requires Pristine(h) && KeyAllowed(key) && PROTO !in PathOf(key)
    ensures AddKeyTo(number, form, h, key) == Outcome(Heap(AddKey(number, form, h.root, key), EMPTY), false)
    ensures Pristine(Heap(AddKey(number, form, h.root, key), EMPTY))
  {
    if IsArrayKey(key) {
      NoProtoPushes(h, PathOf(key), CoerceAll(number, key, GetAll(form, key)));
    } else {
      NoProtoSet(h, PathOf(key), Expected(number, form, key));
    }
  }

  lemma NoProtoSet(h: Heap, path: Path, x: Value)
    requires Pristine(h) && path != [] && PROTO !in path && !x.Obj?
    ensures NestedSet(h, path, x) == Outcome(Heap(Put(h.root, path, x), EMPTY), false)
    ensures Pristine(Heap(Put(h.root, path, x), EMPTY))
  {
    PlainLeaf(x);
    PristineSet(h, path, x);
  }

  lemma {:induction false} NoProtoPushes(h: Heap, path: Path, xs: seq<Value>)
    requires Pristine(h) && path != [] && PROTO !in path
    ensures PushValues(h, path, xs) == Outcome(Heap(PushAll(h.root, path, xs), EMPTY), false)
    ensures Pristine(Heap(PushAll(h.root, path, xs), EMPTY))
  {
    if xs != [] {
      NoProtoPushes(h, path, xs[..|xs| - 1]);
      PristinePush(Heap(PushAll(h.root, path, xs[..|xs| - 1]), EMPTY), path, xs[|xs| - 1]);
    }
  }

  // ---------------------------------------------------------------- the round trip

  /**
   The parse of a form, from an untouched `Object.prototype`, does not throw; every allowed key
   reads back as expected; the leaves are exactly those keys' paths.
   */
  ghost predicate RoundTrips(number: Numeric, form: Form) {
    var o := ParseForm(number, form, EMPTY);
    && !o.threw
    && (forall k :: Counts(form, |form|, k) ==>
          GetDeep(o.heap.shared, Found(o.heap.root), PathOf(k)) == Found(Expected(number, form, k)))
    && (forall q :: OwnLeafAt(o.heap.root, q) <==> exists k :: Counts(form, |form|, k) && q == PathOf(k))
  }

  ghost predicate LeavesPrototypeAlone(number: Numeric, form: Form) {
    ParseForm(number, form, EMPTY).heap.shared == EMPTY
  }

  /**
   A form comes back as sent exactly when no two allowed keys clash and none names a prototype;
   and then the shared prototype stays as it was.
   */
  lemma RoundTripsIffNoClash(number: Numeric, form: Form)
    ensures RoundTrips(number, form) <==> NoClash(form, |form|) && NoProto(form, |form|)
    ensures RoundTrips(number, form) ==> LeavesPrototypeAlone(number, form)
  {
    if RoundTrips(number, form) {
      forall k | Counts(form, |form|, k) ensures PROTO !in PathOf(k) {
        assert OwnLeafAt(ParseForm(number, form, EMPTY).heap.root, PathOf(k));
      }
    }
    if NoProto(form, |form|) {
      NoProtoParse(number, form, |form|);
      PlainRoundTrip(number, form);
    }
  }

  // ---------------------------------------------------------------- what a key reads back as

  /** The value a field gets from a text: a finite number or null, true for three texts alone, or the text. */
  function FieldValue(number: Numeric, field: string, text: string): Value {
    if field == "costCaps.daily" || field == "costCaps.monthly" then
      var n := number(text);
      if n == None then Null else Num(n.value)
    else if field == "circuitBreaker.enabled" || field == "killSwitch.engaged" then Bool(text in {"true", "on", "1"})
    else Str(text)
  }

  /** What the values of all pairs with a key become, in order. */
  function ValuesOf(meaning: string -> Value, form: Form, key: string): seq<Value> {
    if form == [] then []
    else (if form[0].key == key then [meaning(form[0].value)] else []) + ValuesOf(meaning, form[1..], key)
  }

  function KeyFor(path: Path, list: bool): string { Join(path, '.') + if list then "[]" else "" }

  /**
   A form that parses plainly reads back, at an allowed key's dotted path, the value of the last
   pair with that key, or for a list the values of all of them.
   */
  lemma KeyReadsBack(number: Numeric, form: Form, path: Path, list: bool, last: nat)
    requires NoClash(form, |form|) && NoProto(form, |form|)
    requires path != [] && (forall s :: s in path ==> '.' !in s) && KeyAllowed(KeyFor(path, list))
    requires var field := Join(path, '.'); list || |field| < 2 || field[|field| - 2..] != "[]"
    requires last < |form| && form[last].key == KeyFor(path, list)
    requires forall j :: last < j < |form| ==> form[j].key != KeyFor(path, list)
    ensures var o, field := ParseForm(number, form, EMPTY), Join(path, '.');
            && !o.threw
            && GetDeep(o.heap.shared, Found(o.heap.root), path)
               == Found(if list then Arr(ValuesOf((text: string) => FieldValue(number, field, text), form, KeyFor(path, list)))
                        else FieldValue(number, field, form[last].value))
  {
    var key := KeyFor(path, list);
    KeyParts(path, list);
    assert form[..|form|] == form && form[last] in form;
    assert Counts(form, |form|, key);
    RoundTripsIffNoClash(number, form);
    LastOfAll(form, key, last);
    if list {
      var meaning := (text: string) => FieldValue(number, Join(path, '.'), text);
      forall text ensures meaning(text) == Coerce(number, key, text) { CoerceIs(number, key, Join(path, '.'), text); }
      CoerceAllIs(number, key, GetAll(form, key), meaning);
      ValuesAre(form, key, meaning);
    } else {
      CoerceIs(number, key, Join(path, '.'), form[last].value);
    }
  }

  lemma KeyParts(path: Path, list: bool)
    requires path != [] && forall s :: s in path ==> '.' !in s
    requires var field := Join(path, '.'); list || |field| < 2 || field[|field| - 2..] != "[]"
    ensures var key := KeyFor(path, list); IsArrayKey(key) == list && BaseKey(key) == Join(path, '.') && PathOf(key) == path
  {
    var field := Join(path, '.');
    assert forall k :: 0 <= k < |path| ==> path[k] in path;
    SplitOfJoin(path, '.');
    assert (field + "[]")[|field|..] == "[]" && (field + "[]")[..|field|] == field && field + "" == field;
  }

  lemma CoerceIs(number: Numeric, key: string, field: string, text: string)
    requires BaseKey(key) == field
    ensures Coerce(number, key, text) == FieldValue(number, field, text)
  {
    assert field in NUMERIC_FIELDS <==> field == "costCaps.daily" || field == "costCaps.monthly";
    assert field in BOOLEAN_FIELDS <==> field == "circuitBreaker.enabled" || field == "killSwitch.engaged";
  }

  lemma {:induction false} LastOfAll(form: Form, key: string, last: nat)
    requires last < |form| && form[last].key == key && forall j :: last < j < |form| ==> form[j].key != key
    ensures var values := GetAll(form, key); values != [] && values[|values| - 1] == form[last].value
  {
    if last > 0 {
      assert forall j :: 0 <= j < |form| - 1 ==> form[1..][j] == form[j + 1];
      LastOfAll(form[1..], key, last - 1);
    } else {
      assert forall j :: 0 <= j < |form| - 1 ==> form[1..][j] == form[j + 1];
      NoneOfKey(form[1..], key);
    }
  }

  lemma {:induction false} NoneOfKey(form: Form, key: string)
    requires forall j :: 0 <= j < |form| ==> form[j].key != key
    ensures GetAll(form, key) == []
  {
    if form != [] {
      assert forall j :: 0 <= j < |form| - 1 ==> form[1..][j] == form[j + 1];
      NoneOfKey(form[1..], key);
    }
  }

  function MapAll(meaning: string -> Value, values: seq<string>): seq<Value> {
    if values == [] then [] else [meaning(values[0])] + MapAll(meaning, values[1..])
  }

  lemma {:induction false} ValuesAre(form: Form, key: string, meaning: string -> Value)
    ensures MapAll(meaning, GetAll(form, key)) == ValuesOf(meaning, form, key)
  {
    if form != [] {
      ValuesAre(form[1..], key, meaning);
      var rest := GetAll(form[1..], key);
      if form[0].key == key {
        assert ([form[0].value] + rest)[1..] == rest;
      } else {
        ConcatFacts(rest, [], []);
        ConcatFacts(ValuesOf(meaning, form[1..], key), [], []);
        assert GetAll(form, key) == rest;
      }
    }
  }

  lemma {:induction false} MapSnoc(meaning: string -> Value, values: seq<string>, last: string)
    ensures MapAll(meaning, values + [last]) == MapAll(meaning, values) + [meaning(last)]
  {
    if values == [] {
      assert [] + [last] == [last] && [last][1..] == [];
    } else {
      MapSnoc(meaning, values[1..], last);
      assert (values + [last])[1..] == values[1..] + [last];
    }
  }

  lemma {:induction false} CoerceAllIs(number: Numeric, key: string, values: seq<string>, meaning: string -> Value)
    requires forall text :: meaning(text) == Coerce(number, key, text)
    ensures CoerceAll(number, key, values) == MapAll(meaning, values)
  {
    if values != [] {
      var init, last := values[..|values| - 1], values[|values| - 1];
      CoerceAllIs(number, key, init, meaning);
      MapSnoc(meaning, init, last);
      assert values == init + [last] && meaning(last) == Coerce(number, key, last);
    }
  }

  /** The keys a form may set. */
  lemma AllowedIs(key: string)
    ensures KeyAllowed(key) <==>
              || key in {"costCaps.daily", "costCaps.monthly", "allowlist[]", "notifications.slack.webhook",
                         "notifications.email.to", "circuitBreaker.enabled", "killSwitch.engaged"}
              || "trustLevels." <= key
  {
    ListedIsIn(SETTINGS_SCHEMA_KEYS, key);
    StartsIs(SETTINGS_SCHEMA_PREFIXES, key);
  }

  lemma {:induction false} StartsIs(list: seq<string>, key: string)
    ensures StartsWithSome(list, key) <==> exists i :: 0 <= i < |list| && list[i] <= key
  {
    if list != [] {
      StartsIs(list[1..], key);
      assert forall i :: 0 < i < |list| ==> list[i] == list[1..][i - 1];
      if i :| 0 <= i < |list[1..]| && list[1..][i] <= key { assert list[i + 1] <= key; }
    }
  }

  lemma PlainRoundTrip(number: Numeric, form: Form)
    requires NoProto(form, |form|)
    requires ParseForm(number, form, EMPTY) == Outcome(Heap(Parse(number, form), EMPTY), false) && Plain(Parse(number, form))
    ensures RoundTrips(number, form) <==> NoClash(form, |form|)
  {
    if NoClash(form, |form|) {
      NoClashReads(number, form);
    }
    if RoundTrips(number, form) {
      forall j, k | Counts(form, |form|, j) && Counts(form, |form|, k) && j != k
        ensures Incomparable(PathOf(j), PathOf(k))
      {
        Unlike(number, form, Parse(number, form), j, k);
      }
    }
  }

  /** Two keys of a form that comes back. */
  lemma Unlike(number: Numeric, form: Form, v: Value, j: string, k: string)
    requires RoundTrips(number, form) && ParseForm(number, form, EMPTY).heap == Heap(v, EMPTY)
    requires Counts(form, |form|, j) && Counts(form, |form|, k) && j != k
    ensures Incomparable(PathOf(j), PathOf(k))
  {
    assert OwnLeafAt(v, PathOf(j)) && OwnLeafAt(v, PathOf(k));
    ClashSpoils(number, form, v, j, k);
    ClashSpoils(number, form, v, k, j);
  }

  lemma NoClashReads(number: Numeric, form: Form)
    requires NoProto(form, |form|) && NoClash(form, |form|)
    ensures forall k :: Counts(form, |form|, k) ==>
      GetDeep(EMPTY, Found(Parse(number, form)), PathOf(k)) == Found(Expected(number, form, k))
    ensures forall q :: OwnLeafAt(Parse(number, form), q) <==> exists k :: Counts(form, |form|, k) && q == PathOf(k)
  {
    var v := Parse(number, form);
    forall k | Counts(form, |form|, k)
      ensures GetDeep(EMPTY, Found(v), PathOf(k)) == Found(Expected(number, form, k)) && OwnLeafAt(v, PathOf(k))
    {
      EveryKeyThere(number, form, |form|, k);
      GetDeepIsAt(EMPTY, v, PathOf(k));
    }
    forall q | OwnLeafAt(v, q) ensures exists k :: Counts(form, |form|, k) && q == PathOf(k) {
      OnlyAllowedPlain(number, form, |form|, q);
    }
  }

  lemma ClashSpoils(number: Numeric, form: Form, v: Value, j: string, k: string)
    requires j != k && LeafAt(v, PathOf(j)) && LeafAt(v, PathOf(k))
    requires GetDeep(EMPTY, Found(v), PathOf(j)) == Found(Expected(number, form, j))
    requires GetDeep(EMPTY, Found(v), PathOf(k)) == Found(Expected(number, form, k))
    ensures !Prefix(PathOf(j), PathOf(k))
  {
    if PathOf(j) == PathOf(k) {
      JoinOfSplit(BaseKey(j), '.');
      JoinOfSplit(BaseKey(k), '.');
      SameBase(j, k);
    } else if Prefix(PathOf(j), PathOf(k)) {
      NothingBelowLeaf(v, PathOf(j), PathOf(k));
    }
  }

  /** Two keys with one base differ in their `[]`. */
  lemma SameBase(j: string, k: string)
    requires BaseKey(j) == BaseKey(k) && j != k
    ensures IsArrayKey(j) != IsArrayKey(k)
  {
    ArrayKeyText(j);
    ArrayKeyText(k);
  }

  lemma ArrayKeyText(k: string)
    ensures k == BaseKey(k) + if IsArrayKey(k) then "[]" else ""
  {
  }

  // ---------------------------------------------------------------- forms that do not come back

  lemma OneKey(form: Form, key: string, value: string)
    requires form == [Pair(key, value)] && KeyAllowed(key)
    ensures forall k :: Counts(form, |form|, k) <==> k == key
    ensures GetAll(form, key) == [value] && NoClash(form, |form|)
  {
    assert form[..1] == form && form[0] in form && form[1..] == [];
    assert GetAll(form[1..], key) == [];
  }

  lemma ParseFirst(number: Numeric, form: Form)
    requires |form| == 1
    ensures ParseForm(number, form, EMPTY) == AddKeyTo(number, form, Heap(EMPTY, EMPTY), form[0].key)
  {
    assert form[..0] == [];
    assert ParsePairs(number, form, EMPTY, 0) == Outcome(Heap(EMPTY, EMPTY), false);
  }

  /** A form of one plain key whose value stays text. */
  lemma ParseOne(number: Numeric, form: Form, key: string, value: string)
    requires form == [Pair(key, value)] && KeyAllowed(key) && !IsArrayKey(key) && Coerce(number, key, value) == Str(value)
    ensures ParseForm(number, form, EMPTY) == NestedSet(Heap(EMPTY, EMPTY), PathOf(key), Str(value))
    ensures forall k :: Counts(form, |form|, k) <==> k == key
    ensures NoClash(form, |form|)
  {
    OneKey(form, key, value);
    ParseFirst(number, form);
  }

  const TRUST := "trustLevels"

  function TrustKey(rest: string): string { TRUST + "." + rest }

  lemma TrustKeyAllowed(rest: string)
    ensures KeyAllowed(TrustKey(rest))
  {
    var p := SETTINGS_SCHEMA_PREFIXES[0];
    assert p == TRUST + "." && p <= TrustKey(rest);
  }

  lemma PlainKeyPath(key: string, head: string, rest: string)
    requires key == head + "." + rest && '.' !in head && rest != "" && rest[|rest| - 1] != ']'
    ensures !IsArrayKey(key) && PathOf(key) == [head] + Split(rest, '.')
  {
    assert key[|key| - 1] == rest[|rest| - 1] == key[|key| - 2..][1];
    SplitStep(head, '.', rest);
  }

  lemma TrustKeyPath(rest: string)
    requires rest != "" && rest[|rest| - 1] != ']'
    ensures !IsArrayKey(TrustKey(rest)) && PathOf(TrustKey(rest)) == [TRUST] + Split(rest, '.')
  {
    TrustHasNoDot();
    PlainKeyPath(TrustKey(rest), TRUST, rest);
  }

  lemma TrustHasNoDot()
    ensures '.' !in TRUST && TRUST != PROTO
  {
  }

  lemma TrustKeyText(number: Numeric, rest: string, value: string)
    requires rest != "" && rest[|rest| - 1] != ']'
    ensures Coerce(number, TrustKey(rest), value) == Str(value)
  {
    TrustKeyPath(rest);
    assert TrustKey(rest)[0] == 't';
  }

  lemma TrustForm(number: Numeric, form: Form, rest: string, value: string)
    requires form == [Pair(TrustKey(rest), value)] && rest != "" && rest[|rest| - 1] != ']'
    ensures ParseForm(number, form, EMPTY) == NestedSet(Heap(EMPTY, EMPTY), [TRUST] + Split(rest, '.'), Str(value))
    ensures Counts(form, |form|, TrustKey(rest)) && NoClash(form, |form|)
    ensures PathOf(TrustKey(rest)) == [TRUST] + Split(rest, '.')
  {
    TrustKeyAllowed(rest);
    TrustKeyPath(rest);
    TrustKeyText(number, rest, value);
    ParseOne(number, form, TrustKey(rest), value);
  }

  /** `trustLevels.__proto__` clashes with nothing, and yet is not stored: what reads back is the prototype. */
  lemma ProtoKeyIsLost(number: Numeric, form: Form, value: string)
    requires form == [Pair(TrustKey(PROTO), value)]
    ensures Counts(form, |form|, TrustKey(PROTO)) && PathOf(TrustKey(PROTO)) == [TRUST, PROTO]
    ensures NoClash(form, |form|) && !RoundTrips(number, form)
    ensures var o := ParseForm(number, form, EMPTY);
            !o.threw && GetDeep(o.heap.shared, Found(o.heap.root), [TRUST, PROTO]) == ObjectPrototype
  {
    ProtoHasNoDot();
    TrustForm(number, form, PROTO, value);
    TrustHasNoDot();
    SetProto(TRUST, value);
    NotBack(number, form, TrustKey(PROTO));
  }

  lemma ProtoHasNoDot()
    ensures '.' !in PROTO && PROTO != "" && PROTO[|PROTO| - 1] != ']'
    ensures [TRUST] + Split(PROTO, '.') == [TRUST, PROTO]
  {
    SplitWithout(PROTO, '.');
  }

  lemma NotBack(number: Numeric, form: Form, key: string)
    requires Counts(form, |form|, key) && PROTO in PathOf(key)
    ensures !RoundTrips(number, form)
  {
    RoundTripsIffNoClash(number, form);
  }

  lemma SetProto(name: string, value: string)
    requires name != PROTO
    ensures NestedSet(Heap(EMPTY, EMPTY), [name, PROTO], Str(value)) == Outcome(Heap(Obj(map[name := EMPTY]), EMPTY), false)
    ensures GetDeep(EMPTY, Found(Obj(map[name := EMPTY])), [name, PROTO]) == ObjectPrototype
  {
    var path: Path := [name, PROTO];
    WalkOne(name);
    assert path[..|path| - 1] == [name] && path[|path| - 1] == PROTO;
    assert path[0] == name && path[1..] == [PROTO] && path[1..][0] == PROTO && path[1..][1..] == [];
    var one := Found(Obj(map[name := EMPTY]));
    assert Property(EMPTY, one, name) == Found(EMPTY) && Property(EMPTY, Found(EMPTY), PROTO) == ObjectPrototype;
    assert GetDeep(EMPTY, ObjectPrototype, []) == ObjectPrototype;
  }

  lemma PutOne(v: Value, name: string, x: Value)
    requires v.Obj?
    ensures Put(v, [name], x) == Obj(v.fields[name := x])
    ensures At(v, [name]) == if name in v.fields then Some(v.fields[name]) else None
  {
    var p: Path := [name];
    assert p[0] == name && p[1..] == [];
    assert forall w :: At(w, []) == Some(w) && Put(w, [], x) == x;
  }

  /** The first segment makes an object. */
  lemma WalkOne(name: string)
    requires name != PROTO
    ensures var h := Heap(EMPTY, EMPTY);
            Walk(h, [name]) == Walked(Heap(Obj(map[name := EMPTY]), EMPTY), Some(Place(false, [name])))
  {
    var h := Heap(EMPTY, EMPTY);
    assert [name][..0] == [] && [] + [name] == [name];
    PutOne(EMPTY, name, EMPTY);
    assert Walk(h, []) == Walked(h, Some(ROOT));
    assert Step(h, ROOT, name) == Walked(Write(h, Place(false, [name]), EMPTY), Some(Place(false, [name])));
  }

  /**
   A longer path through `__proto__` ends in the shared prototype: whatever path comes after it, an
   allowed key's or not, then reads in every object.
   */
  lemma ProtoPathIsShared(number: Numeric, form: Form, a: string, b: string, value: string, fields: map<string, Value>)
    requires '.' !in a && '.' !in b && b != "" && b[|b| - 1] != ']' && a != PROTO && b != PROTO
    requires form == [Pair(TrustKey(PROTO + "." + (a + "." + b)), value)]
    requires a !in fields && PROTO !in fields
    ensures var o := ParseForm(number, form, EMPTY);
            !o.threw && !LeavesPrototypeAlone(number, form)
            && GetDeep(o.heap.shared, Found(Obj(fields)), [a, b]) == Found(Str(value))
  {
    ProtoPath(PROTO, a, b);
    TrustForm(number, form, PROTO + "." + (a + "." + b), value);
    TrustHasNoDot();
    ThreeAfter(TRUST, PROTO, a, b);
    SetShared(TRUST, a, b, value);
    ReadShared(a, b, value, fields);
  }

  /**
   What a form with one allowed key does to the shared prototype: nothing, exactly if the first
   segment `__proto__`, if any, is the last one or is followed by another.
   */
  lemma LeavesAloneIffStaysOff(number: Numeric, form: Form, key: string, value: string)
    requires form == [Pair(key, value)] && KeyAllowed(key)
    ensures LeavesPrototypeAlone(number, form) <==> StaysOff(PathOf(key))
  {
    var h := Heap(EMPTY, EMPTY);
    PlainEmpty();
    OneKey(form, key, value);
    ParseFirst(number, form);
    if IsArrayKey(key) {
      var x := Coerce(number, key, value);
      OnePush(number, h, key, value);
      PushStaysOffIff(h, PathOf(key), x);
    } else {
      SetStaysOffIff(h, PathOf(key), Coerce(number, key, value));
    }
  }

  lemma OnePush(number: Numeric, h: Heap, key: string, value: string)
    requires Sound(h)
    ensures PushValues(h, PathOf(key), CoerceAll(number, key, [value])) == NestedPush(h, PathOf(key), Coerce(number, key, value))
  {
    var values, xs := [value], [Coerce(number, key, value)];
    assert values[..0] == [] && xs[..0] == [];
    assert CoerceAll(number, key, values) == xs;
  }

  lemma ProtoPath(proto: string, a: string, b: string)
    requires '.' !in proto && '.' !in a && '.' !in b && b != ""
    ensures var rest := proto + "." + (a + "." + b);
            Split(rest, '.') == [proto, a, b] && rest != "" && rest[|rest| - 1] == b[|b| - 1]
  {
    SplitStep(proto, '.', a + "." + b);
    TwoSegments(a, b);
  }

  lemma ThreeAfter(t: string, p: string, a: string, b: string)
    ensures [t] + [p, a, b] == [t, p, a, b]
  {
  }

  lemma SetShared(name: string, a: string, b: string, value: string)
    requires name != PROTO && a != PROTO && b != PROTO
    ensures var shared := Obj(map[a := Obj(map[b := Str(value)])]);
            NestedSet(Heap(EMPTY, EMPTY), [name, PROTO, a, b], Str(value)) == Outcome(Heap(Obj(map[name := EMPTY]), shared), false)
  {
    var path: Path := [name, PROTO, a, b];
    var h := Heap(Obj(map[name := EMPTY]), EMPTY);
    WalkProto(name);
    WalkShared(name, a, b, value);
    assert path[..|path| - 1] == [name, PROTO, a] && path[|path| - 1] == b;
    StepShared(h, a, b, value);
  }

  lemma WalkShared(name: string, a: string, b: string, value: string)
    requires name != PROTO && a != PROTO && b != PROTO
    ensures Walk(Heap(EMPTY, EMPTY), [name, PROTO, a])
            == Walked(Heap(Obj(map[name := EMPTY]), Obj(map[a := EMPTY])), Some(Place(true, [a])))
  {
    var path: Path := [name, PROTO, a];
    WalkProto(name);
    assert path[..|path| - 1] == [name, PROTO] && path[|path| - 1] == a;
    StepShared(Heap(Obj(map[name := EMPTY]), EMPTY), a, b, value);
  }

  lemma WalkProto(name: string)
    requires name != PROTO
    ensures Walk(Heap(EMPTY, EMPTY), [name, PROTO]) == Walked(Heap(Obj(map[name := EMPTY]), EMPTY), Some(SHARED_ROOT))
  {
    var path: Path := [name, PROTO];
    WalkOne(name);
    assert path[..|path| - 1] == [name] && path[|path| - 1] == PROTO;
    PutOne(Obj(map[name := EMPTY]), name, EMPTY);
    assert IsObject(Heap(Obj(map[name := EMPTY]), EMPTY), Place(false, [name]));
    assert IsObject(Heap(Obj(map[name := EMPTY]), EMPTY), SHARED_ROOT);
  }

  lemma StepShared(h: Heap, a: string, b: string, value: string)
    requires h.shared == EMPTY && h.root.Obj? && a != PROTO && b != PROTO
    ensures var at := Place(true, [a]); var n := h.(shared := Obj(map[a := EMPTY]));
            && Step(h, SHARED_ROOT, a) == Walked(n, Some(at))
            && Assigned(n, at, b, Str(value)) == Some(h.(shared := Obj(map[a := Obj(map[b := Str(value)])])))
  {
    PutOne(EMPTY, a, EMPTY);
    PutOne(EMPTY, b, Str(value));
    assert [] + [a] == [a] && [a] + [b] == [a, b];
    assert Target(h, SHARED_ROOT, a) == None;
    var shared, p: Path := Obj(map[a := EMPTY]), [a, b];
    assert p[0] == a && p[1..] == [b];
    var inner := Obj(map[b := Str(value)]);
    assert Put(EMPTY, [b], Str(value)) == inner;
    assert Put(shared, p, Str(value)) == Obj(shared.fields[a := inner]);
    assert shared.fields[a := inner] == map[a := inner];
  }

  lemma ReadShared(a: string, b: string, value: string, fields: map<string, Value>)
    requires a !in fields && PROTO !in fields && a != PROTO
    ensures GetDeep(Obj(map[a := Obj(map[b := Str(value)])]), Found(Obj(fields)), [a, b]) == Found(Str(value))
  {
    var p: Path := [a, b];
    var inner := Obj(map[b := Str(value)]);
    var shared := Obj(map[a := inner]);
    assert p[0] == a && p[1..] == [b] && p[1..][0] == b && p[1..][1..] == [];
    assert Property(shared, Found(Obj(fields)), a) == Found(inner);
    assert Property(shared, Found(inner), b) == Found(Str(value));
    assert GetDeep(shared, Found(Str(value)), []) == Found(Str(value));
  }

  /** A slug and another that goes on after a dot clash, as `trustLevels.a` and `trustLevels.a.b`, and do not come back. */
  lemma NestedSlugsClash(number: Numeric, form: Form, a: string, b: string)
    requires '.' !in a && '.' !in b && a != "" && b != "" && a[|a| - 1] != ']' && b[|b| - 1] != ']'
    requires |form| == 2 && form[0].key == TrustKey(a) && form[1].key == TrustKey(a + "." + b)
    ensures !NoClash(form, |form|) && !RoundTrips(number, form)
  {
    TrustKeyAllowed(a);
    TrustKeyAllowed(a + "." + b);
    TrustKeyPath(a);
    TrustKeyPath(a + "." + b);
    SplitWithout(a, '.');
    TwoSegments(a, b);
    TwoClash(form);
    RoundTripsIffNoClash(number, form);
  }

  lemma TwoClash(form: Form)
    requires |form| == 2 && form[0].key != form[1].key && KeyAllowed(form[0].key) && KeyAllowed(form[1].key)
    requires Prefix(PathOf(form[0].key), PathOf(form[1].key))
    ensures !NoClash(form, |form|)
  {
    assert form[..2] == form && form[0] in form && form[1] in form;
    assert Counts(form, |form|, form[0].key) && Counts(form, |form|, form[1].key);
  }

  // ---------------------------------------------------------------- flattening

  /** The dotted name of a path, as the recursion builds it below a prefix. */
  function NamedFrom(prefix: string, q: Path): string
    decreases q
  {
    if q == [] then prefix else NamedFrom(if prefix == "" then q[0] else prefix + "." + q[0], q[1..])
  }

  ghost predicate IsLeafName(v: Value, prefix: string, name: string) {
    exists q :: q != [] && OwnLeafAt(v, q) && name == NamedFrom(prefix, q)
  }

  /** Leaf names below one field. */
  ghost predicate IsFieldName(v: Value, prefix: string, k: string, name: string)
    requires v.Obj? && k in v.fields
  {
    var path := if prefix == "" then k else prefix + "." + k;
    if v.fields[k].Obj? then IsLeafName(v.fields[k], path, name) else name == path
  }

  lemma LeafNamesByField(v: Value, prefix: string, name: string)
    requires v.Obj?
    ensures IsLeafName(v, prefix, name) <==> exists k :: k in v.fields && k != PROTO && IsFieldName(v, prefix, k, name)
  {
    if IsLeafName(v, prefix, name) {
      var q :| q != [] && OwnLeafAt(v, q) && name == NamedFrom(prefix, q);
      var path := if prefix == "" then q[0] else prefix + "." + q[0];
      assert OwnLeafAt(v.fields[q[0]], q[1..]) && name == NamedFrom(path, q[1..]);
      if v.fields[q[0]].Obj? {
        assert q[1..] != [] && IsLeafName(v.fields[q[0]], path, name);
      } else {
        assert q[1..] == [];
      }
      assert IsFieldName(v, prefix, q[0], name);
    }
    if exists k :: k in v.fields && k != PROTO && IsFieldName(v, prefix, k, name) {
      var k :| k in v.fields && k != PROTO && IsFieldName(v, prefix, k, name);
      var path := if prefix == "" then k else prefix + "." + k;
      var rest: Path := [];
      if v.fields[k].Obj? {
        rest :| rest != [] && OwnLeafAt(v.fields[k], rest) && name == NamedFrom(path, rest);
      }
      var q := [k] + rest;
      assert q[0] == k && q[1..] == rest;
      assert At(v, q) == At(v.fields[k], rest);
      assert NamedFrom(prefix, q) == NamedFrom(path, rest);
      assert OwnLeafAt(v, q) && name == NamedFrom(prefix, q);
    }
  }

  /** `flattenKeys`: the names of the own leaves, each path of objects joined by dots. */
  method FlattenKeys(obj: Value, prefix: string) returns (out: seq<string>)
    requires obj.Obj?
    ensures forall name :: name in out <==> IsLeafName(obj, prefix, name)
    decreases obj
  {
    out := [];
    var rest := obj.fields.Keys - {PROTO};
    while rest != {}
      invariant rest <= obj.fields.Keys - {PROTO}
      invariant forall name :: name in out <==>
        exists k :: k in obj.fields && k != PROTO && k !in rest && IsFieldName(obj, prefix, k, name)
      decreases rest
    {
      var k :| k in rest;
      var v := obj.fields[k];
      var path := if prefix == "" then k else prefix + "." + k;
      var more := [path];
      if v.Obj? {
        more := FlattenKeys(v, path);
      }
      assert forall name :: name in more <==> IsFieldName(obj, prefix, k, name);
      out := out + more;
      rest := rest - {k};
    }
    forall name ensures name in out <==> IsLeafName(obj, prefix, name) {
      LeafNamesByField(obj, prefix, name);
    }
  }

  lemma {:induction false} NamedIsJoined(prefix: string, q: Path)
    requires q != [] && (prefix == "" ==> q[0] != "")
    ensures NamedFrom(prefix, q) == (if prefix == "" then "" else prefix + ".") + Join(q, '.')
    decreases q
  {
    var path := if prefix == "" then q[0] else prefix + "." + q[0];
    if |q| == 1 {
      assert NamedFrom(path, q[1..]) == path;
    } else {
      NamedIsJoined(path, q[1..]);
      assert Join(q, '.') == q[0] + "." + Join(q[1..], '.');
    }
  }

  lemma {:induction false} ListedIsIn(list: seq<string>, key: string)
    ensures Listed(list, key) <==> key in list
  {
    if list != [] { ListedIsIn(list[1..], key); }
  }

  /** No allowed key starts with a dot, or is `[]`. */
  lemma AllowedKeyStart(key: string)
    requires KeyAllowed(key)
    ensures BaseKey(key) != "" && BaseKey(key)[0] != '.'
  {
    if Listed(SETTINGS_SCHEMA_KEYS, key) {
      ListedIsIn(SETTINGS_SCHEMA_KEYS, key);
      SchemaKeyStart(key);
    } else {
      PrefixStart(key);
    }
    BaseStart(key);
  }

  lemma SchemaKeyStart(key: string)
    requires key in SETTINGS_SCHEMA_KEYS
    ensures |key| > 2 && key[0] != '.'
  {
  }

  lemma PrefixStart(key: string)
    requires StartsWithSome(SETTINGS_SCHEMA_PREFIXES, key)
    ensures |key| > 2 && key[0] != '.'
  {
    var p := SETTINGS_SCHEMA_PREFIXES[0];
    assert SETTINGS_SCHEMA_PREFIXES[1..] == [];
    assert p <= key && |p| == 12 && p[0] == 't';
  }

  lemma BaseStart(key: string)
    requires |key| > 2
    ensures BaseKey(key) != "" && BaseKey(key)[0] == key[0]
  {
  }

  lemma AllowedKeyHead(key: string)
    requires KeyAllowed(key)
    ensures PathOf(key)[0] != "" && NamedFrom("", PathOf(key)) == BaseKey(key)
  {
    var base := BaseKey(key);
    AllowedKeyStart(key);
    assert [base[0]] + Split(base[1..], '.')[0] == Split(base, '.')[0];
    NamedIsJoined("", PathOf(key));
    JoinOfSplit(base, '.');
  }

  /**
   Flattening a parsed form lists allowed base keys only, and all of them when no two clash
   and none names a prototype.
   */
  lemma FlattenedForm(number: Numeric, form: Form, shared: Value, name: string)
    requires shared.Obj?
    ensures IsLeafName(ParseForm(number, form, shared).heap.root, "", name) ==>
      exists k :: Counts(form, |form|, k) && name == BaseKey(k)
    ensures RoundTrips(number, form) ==>
      (IsLeafName(ParseForm(number, form, EMPTY).heap.root, "", name) <==> exists k :: Counts(form, |form|, k) && name == BaseKey(k))
  {
    OnlyAllowedNames(number, form, shared, name);
    OnlyAllowedNames(number, form, EMPTY, name);
    if RoundTrips(number, form) && exists k :: Counts(form, |form|, k) && name == BaseKey(k) {
      var k :| Counts(form, |form|, k) && name == BaseKey(k);
      AllowedKeyHead(k);
      assert OwnLeafAt(ParseForm(number, form, EMPTY).heap.root, PathOf(k)) && NamedFrom("", PathOf(k)) == name;
    }
  }

  lemma OnlyAllowedNames(number: Numeric, form: Form, shared: Value, name: string)
    requires shared.Obj?
    ensures IsLeafName(ParseForm(number, form, shared).heap.root, "", name) ==>
      exists k :: Counts(form, |form|, k) && name == BaseKey(k)
  {
    var v := ParseForm(number, form, shared).heap.root;
    if IsLeafName(v, "", name) {
      var q :| q != [] && OwnLeafAt(v, q) && name == NamedFrom("", q);
      OnlyAllowedLeaves(number, form, shared, |form|, q);
      var k :| Counts(form, |form|, k) && q == PathOf(k);
      AllowedKeyHead(k);
    }
  }
}
