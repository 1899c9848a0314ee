/**
 Property access on the plain objects a configuration is built from. A read that finds no own
 property goes on in the object's prototype, `__proto__` reads the prototype itself, and an
 assignment to `__proto__` replaces it or, for anything but an object, does nothing.

 Two trees hold all objects there are: the one under construction, and the properties added to
 `Object.prototype`, which all objects share. In either a field `__proto__` is no own property:
 it stands for the prototype an object was given in place of the shared one.
 */
module Prototypes {
  import opened ConfigTrees
  import opened Numerals
  import opened Wrappers

  datatype Heap = Heap(root: Value, shared: Value)

  /** An object or value in one of the two trees. */
  datatype Place = Place(inShared: bool, path: Path)

  const ROOT := Place(false, [])
  const SHARED_ROOT := Place(true, [])

  predicate Sound(h: Heap) { h.root.Obj? && h.shared.Obj? }

  function ValueAt(h: Heap, at: Place): Option<Value> { At(if at.inShared then h.shared else h.root, at.path) }

  predicate IsObject(h: Heap, at: Place) { ValueAt(h, at).Some? && ValueAt(h, at).value.Obj? }

  predicate IsArray(h: Heap, at: Place) { ValueAt(h, at).Some? && ValueAt(h, at).value.Arr? }

  function Below(at: Place, name: string): Place { at.(path := at.path + [name]) }

  function Write(h: Heap, at: Place, x: Value): Heap {
    if at.inShared then h.(shared := Put(h.shared, at.path, x)) else h.(root := Put(h.root, at.path, x))
  }

  // ---------------------------------------------------------------- arrays

  /** What an array has of its own, or from `Array.prototype`. */
  const ARRAY_PROPERTIES: set<string> := {
    "at", "concat", "constructor", "copyWithin", "entries", "every", "fill", "filter", "find", "findIndex", "findLast",
    "findLastIndex", "flat", "flatMap", "forEach", "includes", "indexOf", "join", "keys", "lastIndexOf", "length", "map",
    "pop", "push", "reduce", "reduceRight", "reverse", "shift", "slice", "some", "sort", "splice", "toLocaleString",
    "toReversed", "toSorted", "toSpliced", "toString", "unshift", "values", "with"}

  function Element(items: seq<Value>, name: string): Option<Value> {
    if items == [] then None
    else if TextIn(|items| - 1, 10) == name then Some(items[|items| - 1])
    else Element(items[..|items| - 1], name)
  }

  // ---------------------------------------------------------------- where a property is

  /** Along a chain of prototypes: found, hidden by a property of an array, or left to the shared prototype. */
  datatype Hit = Here(path: Path) | Hidden | Above

  function Chain(v: Value, name: string): Hit
    requires v.Obj?
    decreases v
  {
    if name in v.fields then Here([name])
    else if PROTO !in v.fields then Above
    else
      match v.fields[PROTO]
      case Obj(_) => (match Chain(v.fields[PROTO], name) case Here(p) => Here([PROTO] + p) case hit => hit)
      case Arr(items) => if name in ARRAY_PROPERTIES || Element(items, name).Some? then Hidden else Above
      case _ => Hidden
  }

  /** Where the object or array `cursor[name]` is kept, if it is one; built-in functions are neither. */
  function Target(h: Heap, at: Place, name: string): Option<Place>
    requires IsObject(h, at)
  {
    var v := ValueAt(h, at).value;
    if name == PROTO then
      if at == SHARED_ROOT then None
      else if PROTO in v.fields then Some(Below(at, PROTO))
      else Some(SHARED_ROOT)
    else
      match Chain(v, name)
      case Here(p) => Some(at.(path := at.path + p))
      case Hidden => None
      case Above => if at != SHARED_ROOT && name in FieldsOf(h.shared) then Some(Place(true, [name])) else None
  }

  /**
   `cursor[name] = x`: the new state, or none for the TypeError of giving `Object.prototype` a
   prototype. Null, which would take a prototype away, is never assigned to one.
   */
  function Assigned(h: Heap, at: Place, name: string, x: Value): Option<Heap> {
    if name != PROTO then Some(Write(h, Below(at, name), x))
    else if !x.Obj? && !x.Arr? then Some(h)
    else if at == SHARED_ROOT then None
    else Some(Write(h, Below(at, PROTO), x))
  }

  // ---------------------------------------------------------------- reading

  /** What a chain of reads ends in; `Undefined` also stands for built-in functions. */
  datatype Read = Undefined | Found(v: Value) | ObjectPrototype | ArrayPrototype

  function SharedProperty(shared: Value, name: string): Read {
    if name in FieldsOf(shared) then Found(FieldsOf(shared)[name]) else Undefined
  }

  function Property(shared: Value, r: Read, name: string): Read {
    match r
    case Found(Obj(fields)) => ObjectProperty(shared, r.v, name)
    case Found(Arr(items)) => if name == PROTO then ArrayPrototype else ArrayProperty(shared, items, name)
    case ObjectPrototype => if name == PROTO then Found(Null) else SharedProperty(shared, name)
    case ArrayPrototype => if name == PROTO then ObjectPrototype else ArrayProperty(shared, [], name)
    case _ => Undefined
  }

  function ObjectProperty(shared: Value, v: Value, name: string): Read
    requires v.Obj?
    decreases v
  {
    if name in v.fields then Found(v.fields[name])
    else if PROTO !in v.fields then if name == PROTO then ObjectPrototype else SharedProperty(shared, name)
    else
      match v.fields[PROTO]
      case Obj(_) => ObjectProperty(shared, v.fields[PROTO], name)
      case Arr(items) => ArrayProperty(shared, items, name)
      case _ => Undefined
  }

  function ArrayProperty(shared: Value, items: seq<Value>, name: string): Read {
    if name == "length" then Found(Num(|items| as real))
    else if Element(items, name).Some? then Found(Element(items, name).value)
    else if name in ARRAY_PROPERTIES then Undefined
    else SharedProperty(shared, name)
  }

  /** `getDeep` of server/lib/config-validator.ts. */
  function GetDeep(shared: Value, r: Read, path: Path): Read
    decreases path
  {
    if path == [] then r else GetDeep(shared, Property(shared, r, path[0]), path[1..])
  }

  /** Along own properties reading is following the path. */
  lemma {:induction false} GetDeepIsAt(shared: Value, v: Value, path: Path)
    requires At(v, path).Some?
    ensures GetDeep(shared, Found(v), path) == Found(At(v, path).value)
    decreases path
  {
    if path != [] { GetDeepIsAt(shared, v.fields[path[0]], path[1..]); }
  }

  // ---------------------------------------------------------------- objects with the shared prototype only

  /** No object of the tree was given a prototype. */
  ghost predicate Plain(v: Value) { forall q :: At(v, q).Some? ==> PROTO !in q }

  /** A state in which prototypes play no part. */
  ghost predicate Pristine(h: Heap) { Sound(h) && Plain(h.root) && h.shared == EMPTY }

  lemma {:induction false} AtSnoc(v: Value, p: Path, name: string)
    ensures At(v, p + [name])
            == if ObjectAt(v, p) && name in At(v, p).value.fields then Some(At(v, p).value.fields[name]) else None
    decreases p
  {
    if p == [] {
      assert p + [name] == [name] && [name][1..] == [];
    } else {
      assert (p + [name])[0] == p[0] && (p + [name])[1..] == p[1..] + [name];
      if v.Obj? && p[0] in v.fields { AtSnoc(v.fields[p[0]], p[1..], name); }
    }
  }

  /** There a property is an own one or none. */
  lemma PristineTarget(h: Heap, at: Place, name: string)
    requires Pristine(h) && !at.inShared && IsObject(h, at) && name != PROTO
    ensures Target(h, at, name) == if ValueAt(h, Below(at, name)).Some? then Some(Below(at, name)) else None
  {
    AtSnoc(h.root, at.path, name);
    AtSnoc(h.root, at.path, PROTO);
    assert PROTO in at.path + [PROTO];
  }

  /** A write beside the prototypes keeps them out. */
  lemma PlainPut(v: Value, p: Path, x: Value)
    requires Plain(v) && Plain(x) && PROTO !in p
    ensures Plain(Put(v, p, x))
  {
    forall q | At(Put(v, p, x), q).Some? ensures PROTO !in q {
      if Prefix(p, q) {
        AtPutBelow(v, p, x, q);
        assert q == p + q[|p|..];
      } else if Prefix(q, p) {
      } else {
        AtPutElsewhere(v, p, x, q);
      }
    }
  }

  lemma PlainEmpty()
    ensures Plain(EMPTY)
  {
    forall q | At(EMPTY, q).Some? ensures PROTO !in q { EmptyHasNothing(q); }
  }

  // ---------------------------------------------------------------- walking and writing

  /** The state and the cursor after a walk; no cursor after the TypeError. */
  datatype Walked = Walked(heap: Heap, at: Option<Place>)

  /** One step: into the object that is there, or into a new one. */
  function Step(h: Heap, at: Place, name: string): Walked
    requires IsObject(h, at)
  {
    var next := Target(h, at, name);
    if next.Some? && IsObject(h, next.value) then Walked(h, next)
    else if name == PROTO && at == SHARED_ROOT then Walked(h, None)
    else Walked(Write(h, Below(at, name), EMPTY), Some(Below(at, name)))
  }

  lemma StepSound(h: Heap, at: Place, name: string)
    requires Sound(h) && IsObject(h, at)
    ensures var w := Step(h, at, name); Sound(w.heap) && (w.at.Some? ==> IsObject(w.heap, w.at.value))
  {
    AtPutSame(h.root, Below(at, name).path, EMPTY, []);
    AtPutSame(h.shared, Below(at, name).path, EMPTY, []);
  }

  /** From the root along a path. */
  function Walk(h: Heap, path: Path): (w: Walked)
    requires Sound(h)
    ensures Sound(w.heap) && (w.at.Some? ==> IsObject(w.heap, w.at.value))
  {
    if path == [] then Walked(h, Some(ROOT))
    else
      var w := Walk(h, path[..|path| - 1]);
      if w.at.None? then w
      else
        StepSound(w.heap, w.at.value, path[|path| - 1]);
        Step(w.heap, w.at.value, path[|path| - 1])
  }

  lemma {:induction false} WalkEnds(h: Heap, path: Path, n: nat)
    requires Sound(h) && n <= |path| && Walk(h, path[..n]).at.None?
    ensures Walk(h, path) == Walk(h, path[..n])
    decreases |path|
  {
    if n < |path| {
      assert path[..|path| - 1][..n] == path[..n];
      WalkEnds(h, path[..|path| - 1], n);
    } else {
      assert path[..n] == path;
    }
  }

  /** A state, and whether the TypeError was thrown on the way to it. */
  datatype Outcome = Outcome(heap: Heap, threw: bool)

  function Done(h: Heap, next: Option<Heap>): Outcome {
    match next case Some(n) => Outcome(n, false) case None => Outcome(h, true)
  }

  /** `setNested`. */
  function NestedSet(h: Heap, path: Path, x: Value): (o: Outcome)
    requires Sound(h) && path != []
    ensures Sound(o.heap)
  {
    var w, last := Walk(h, path[..|path| - 1]), path[|path| - 1];
    if w.at.None? then Outcome(w.heap, true) else Done(w.heap, Assigned(w.heap, w.at.value, last, x))
  }

  /** `pushNested`. */
  function NestedPush(h: Heap, path: Path, x: Value): (o: Outcome)
    requires Sound(h) && path != []
    ensures Sound(o.heap)
  {
    var w, last := Walk(h, path[..|path| - 1]), path[|path| - 1];
    if w.at.None? then Outcome(w.heap, true)
    else
      var existing := Target(w.heap, w.at.value, last);
      if existing.Some? && IsArray(w.heap, existing.value) then
        Outcome(Write(w.heap, existing.value, Arr(ValueAt(w.heap, existing.value).value.items + [x])), false)
      else Done(w.heap, Assigned(w.heap, w.at.value, last, Arr([x])))
  }

  // ---------------------------------------------------------------- writing where prototypes play no part

  /** A walk beside the prototypes makes the missing objects and changes no later write. */
  lemma {:induction false} PristineWalk(h: Heap, path: Path, n: nat, x: Value)
    requires Pristine(h) && n < |path| && PROTO !in path
    ensures var w := Walk(h, path[..n]);
            && Pristine(w.heap) && w.at == Some(Place(false, path[..n]))
            && Put(w.heap.root, path, x) == Put(h.root, path, x) && At(w.heap.root, path) == At(h.root, path)
    decreases n
  {
    if n == 0 {
      assert path[..0] == [];
    } else {
      PristineWalk(h, path, n - 1, x);
      WalkOn(h, path, n);
      PristineStep(Walk(h, path[..n - 1]).heap, path, n, x);
    }
  }

  lemma WalkOn(h: Heap, path: Path, n: nat)
    requires Sound(h) && 0 < n <= |path|
    ensures var w := Walk(h, path[..n - 1]);
            Walk(h, path[..n]) == if w.at.None? then w else Step(w.heap, w.at.value, path[n - 1])
  {
    assert path[..n][..n - 1] == path[..n - 1] && path[..n][n - 1] == path[n - 1];
  }

  lemma PristineStep(h: Heap, path: Path, n: nat, x: Value)
    requires Pristine(h) && 0 < n < |path| && PROTO !in path && IsObject(h, Place(false, path[..n - 1]))
    ensures var w := Step(h, Place(false, path[..n - 1]), path[n - 1]);
            && Pristine(w.heap) && w.at == Some(Place(false, path[..n]))
            && Put(w.heap.root, path, x) == Put(h.root, path, x) && At(w.heap.root, path) == At(h.root, path)
  {
    var at, name, p := Place(false, path[..n - 1]), path[n - 1], path[..n];
    assert p == path[..n - 1] + [name] && Below(at, name) == Place(false, p);
    PristineTarget(h, at, name);
    if !ObjectAt(h.root, p) {
      PlainEmpty();
      PlainPut(h.root, p, EMPTY);
      PutOverFresh(h.root, p, path, x);
      StepSound(h, at, name);
    }
  }

  lemma PristineParent(h: Heap, path: Path, x: Value)
    requires Pristine(h) && path != [] && PROTO !in path
    ensures var w := Walk(h, path[..|path| - 1]); var at := Place(false, path[..|path| - 1]);
            && Pristine(w.heap) && w.at == Some(at) && IsObject(w.heap, at) && Below(at, path[|path| - 1]) == Place(false, path)
            && Put(w.heap.root, path, x) == Put(h.root, path, x) && At(w.heap.root, path) == At(h.root, path)
  {
    PristineWalk(h, path, |path| - 1, x);
    assert path == path[..|path| - 1] + [path[|path| - 1]];
  }

  /** There `setNested` writes at the path, and nothing else. */
  lemma PristineSet(h: Heap, path: Path, x: Value)
    requires Pristine(h) && path != [] && PROTO !in path && Plain(x)
    ensures NestedSet(h, path, x) == Outcome(Heap(Put(h.root, path, x), EMPTY), false)
    ensures Pristine(NestedSet(h, path, x).heap)
  {
    PristineParent(h, path, x);
    PlainPut(h.root, path, x);
  }

  /** There `pushNested` appends at the path, and nothing else. */
  lemma PristinePush(h: Heap, path: Path, x: Value)
    requires Pristine(h) && path != [] && PROTO !in path
    ensures NestedPush(h, path, x) == Outcome(Heap(Push(h.root, path, x), EMPTY), false)
    ensures Pristine(NestedPush(h, path, x).heap)
  {
    var items := ItemsAt(h.root, path) + [x];
    PristineParent(h, path, Arr(items));
    var w := Walk(h, path[..|path| - 1]);
    PristineAppend(w.heap, w.at.value, path[|path| - 1], path, x);
    PlainLeaf(Arr(items));
    PlainPut(h.root, path, Arr(items));
  }

  lemma PristineAppend(h: Heap, at: Place, name: string, path: Path, x: Value)
    requires Pristine(h) && !at.inShared && IsObject(h, at) && name != PROTO && Below(at, name) == Place(false, path)
    ensures var t, appended := Target(h, at, name), Heap(Put(h.root, path, Arr(ItemsAt(h.root, path) + [x])), EMPTY);
            if t.Some? && IsArray(h, t.value) then Write(h, t.value, Arr(ValueAt(h, t.value).value.items + [x])) == appended
            else Assigned(h, at, name, Arr([x])) == Some(appended)
  {
    PristineItems(h, at, name, path);
    ConcatOne(x);
  }

  /** The array that `pushNested` finds, if any, is the one at the path. */
  lemma PristineItems(h: Heap, at: Place, name: string, path: Path)
    requires Pristine(h) && !at.inShared && IsObject(h, at) && name != PROTO && Below(at, name) == Place(false, path)
    ensures var t := Target(h, at, name);
            if t.Some? && IsArray(h, t.value) then t.value == Place(false, path) && ValueAt(h, t.value).value.items == ItemsAt(h.root, path)
            else ItemsAt(h.root, path) == []
  {
    PristineTarget(h, at, name);
  }

  lemma ConcatOne(x: Value)
    ensures [] + [x] == [x]
  {
  }

  lemma PlainLeaf(x: Value)
    requires !x.Obj?
    ensures Plain(x)
  {
  }

  // ---------------------------------------------------------------- own leaves, in any state

  /** A leaf that `Object.entries` reaches. */
  predicate OwnLeafAt(v: Value, q: Path) { PROTO !in q && LeafAt(v, q) }

  /** Off the tree's own properties, or at the end of the path. */
  predicate Strayed(at: Place, path: Path) { at.inShared || PROTO in at.path || at.path == path }

  lemma TargetStrays(h: Heap, at: Place, path: Path, name: string)
    requires IsObject(h, at) && Strayed(at, path)
    ensures var t := Target(h, at, name); t.Some? ==> Strayed(t.value, path + [name])
  {
    if name != PROTO { ChainStrays(ValueAt(h, at).value, name); }
  }

  lemma ChainStrays(v: Value, name: string)
    requires v.Obj?
    ensures var hit := Chain(v, name); hit.Here? ==> hit.path == [name] || PROTO in hit.path
  {
  }

  /** A write makes a leaf where it writes or not at all. */
  lemma LeafAfterWrite(v: Value, p: Path, x: Value, q: Path)
    requires LeafAt(Put(v, p, x), q)
    requires x.Obj? ==> x == EMPTY
    ensures q == p || LeafAt(v, q)
  {
    AtPutSame(v, p, x, q);
    if Prefix(p, q) {
      AtPutBelow(v, p, x, q);
      Shallow(x, q[|p|..]);
    } else if !Prefix(q, p) {
      AtPutElsewhere(v, p, x, q);
    }
  }

  lemma Shallow(x: Value, r: Path)
    requires (x.Obj? ==> x == EMPTY) && LeafAt(x, r)
    ensures r == []
  {
  }

  lemma {:induction false} WalkMakesNoLeaf(h: Heap, path: Path, q: Path)
    requires Sound(h)
    ensures var w := Walk(h, path);
            && (w.at.Some? ==> Strayed(w.at.value, path))
            && (OwnLeafAt(w.heap.root, q) ==> OwnLeafAt(h.root, q))
  {
    if path != [] {
      var init, name := path[..|path| - 1], path[|path| - 1];
      WalkMakesNoLeaf(h, init, q);
      var w := Walk(h, init);
      assert path == init + [name];
      if w.at.Some? { StepMakesNoLeaf(w.heap, w.at.value, init, name, q); }
    }
  }

  lemma StepMakesNoLeaf(h: Heap, at: Place, path: Path, name: string, q: Path)
    requires Sound(h) && IsObject(h, at) && Strayed(at, path)
    ensures var w := Step(h, at, name);
            && (w.at.Some? ==> Strayed(w.at.value, path + [name]))
            && (OwnLeafAt(w.heap.root, q) ==> OwnLeafAt(h.root, q))
  {
    TargetStrays(h, at, path, name);
    var w := Step(h, at, name);
    if OwnLeafAt(w.heap.root, q) && w.heap != h && !at.inShared {
      var p := Below(at, name).path;
      LeafAfterWrite(h.root, p, EMPTY, q);
      AtPutSame(h.root, p, EMPTY, q);
    }
  }

  /** Whatever the state, `setNested` makes no own leaf but at the path it is given. */
  lemma SetMakesLeaf(h: Heap, path: Path, x: Value, q: Path)
    requires Sound(h) && path != [] && !x.Obj?
    ensures OwnLeafAt(NestedSet(h, path, x).heap.root, q) ==> q == path || OwnLeafAt(h.root, q)
  {
    ParentStrays(h, path, q);
    var w, last := Walk(h, path[..|path| - 1]), path[|path| - 1];
    if w.at.Some? && !w.at.value.inShared && OwnLeafAt(NestedSet(h, path, x).heap.root, q) {
      AssignMakesLeaf(w.heap, w.at.value, path, x, q);
    }
  }

  lemma ParentStrays(h: Heap, path: Path, q: Path)
    requires Sound(h) && path != []
    ensures var w := Walk(h, path[..|path| - 1]);
            && (w.at.Some? ==> Strayed(Below(w.at.value, path[|path| - 1]), path))
            && (OwnLeafAt(w.heap.root, q) ==> OwnLeafAt(h.root, q))
  {
    WalkMakesNoLeaf(h, path[..|path| - 1], q);
    assert path == path[..|path| - 1] + [path[|path| - 1]];
  }

  lemma AssignMakesLeaf(h: Heap, at: Place, path: Path, x: Value, q: Path)
    requires path != [] && Strayed(Below(at, path[|path| - 1]), path) && !x.Obj? && !at.inShared
    ensures var n := Assigned(h, at, path[|path| - 1], x);
            n.Some? && OwnLeafAt(n.value.root, q) ==> q == path || OwnLeafAt(h.root, q)
  {
    var n, p := Assigned(h, at, path[|path| - 1], x), Below(at, path[|path| - 1]).path;
    if n.Some? && n.value != h && OwnLeafAt(n.value.root, q) { LeafAfterWrite(h.root, p, x, q); }
  }

  /** Nor does `pushNested`. */
  lemma PushMakesLeaf(h: Heap, path: Path, x: Value, q: Path)
    requires Sound(h) && path != []
    ensures OwnLeafAt(NestedPush(h, path, x).heap.root, q) ==> q == path || OwnLeafAt(h.root, q)
  {
    ParentStrays(h, path, q);
    var w, last := Walk(h, path[..|path| - 1]), path[|path| - 1];
    if w.at.Some? && OwnLeafAt(NestedPush(h, path, x).heap.root, q) {
      var t := Target(w.heap, w.at.value, last);
      if t.Some? && IsArray(w.heap, t.value) {
        var items := ValueAt(w.heap, t.value).value.items;
        if !t.value.inShared { LeafAfterWrite(w.heap.root, t.value.path, Arr(items + [x]), q); }
      } else if !w.at.value.inShared {
        AssignMakesLeaf(w.heap, w.at.value, path, Arr([x]), q);
      }
    }
  }

  // ---------------------------------------------------------------- when a write reaches the shared prototype

  /** The first segment `__proto__`, if any, is the last one or is followed by another. */
  predicate StaysOff(path: Path) {
    path != [] ==> if path[0] == PROTO then |path| == 1 || path[1] == PROTO else StaysOff(path[1..])
  }

  lemma {:induction false} AtFirstProto(path: Path) returns (pre: Path, rest: Path)
    requires PROTO in path
    ensures path == pre + [PROTO] + rest && PROTO !in pre
    ensures StaysOff(path) <==> rest == [] || rest[0] == PROTO
    decreases path
  {
    if path[0] == PROTO {
      pre, rest := [], path[1..];
    } else {
      assert path == [path[0]] + path[1..];
      pre, rest := AtFirstProto(path[1..]);
      pre := [path[0]] + pre;
    }
  }

  lemma {:induction false} NoProtoStaysOff(path: Path)
    requires PROTO !in path
    ensures StaysOff(path)
    decreases path
  {
    if path != [] { NoProtoStaysOff(path[1..]); }
  }

  lemma NotProto()
    ensures "" != PROTO
  {
  }

  /** The walk to the first `__proto__` ends in the shared prototype. */
  lemma WalkToShared(h: Heap, pre: Path)
    requires Pristine(h) && PROTO !in pre
    ensures var w := Walk(h, pre); w.at == Some(Place(false, pre)) && Pristine(w.heap)
    ensures Walk(h, pre + [PROTO]) == Walked(Walk(h, pre).heap, Some(SHARED_ROOT))
  {
    NotProto();
    var p, q := pre + [""], pre + [PROTO];
    assert p[..|p| - 1] == pre && q[..|q| - 1] == pre && q[|q| - 1] == PROTO;
    PristineParent(h, p, Null);
    StepToShared(Walk(h, pre).heap, Place(false, pre));
  }

  lemma StepToShared(h: Heap, at: Place)
    requires Pristine(h) && !at.inShared && IsObject(h, at)
    ensures Step(h, at, PROTO) == Walked(h, Some(SHARED_ROOT))
  {
    AtSnoc(h.root, at.path, PROTO);
    assert PROTO in at.path + [PROTO];
  }

  /** What was once added to the shared prototype stays. */
  lemma {:induction false} WalkKeepsShared(h: Heap, path: Path, n: nat)
    requires Sound(h) && n <= |path| && Walk(h, path[..n]).heap.shared != EMPTY
    ensures Walk(h, path).heap.shared != EMPTY
    decreases |path|
  {
    if n == |path| {
      assert path[..n] == path;
    } else {
      assert path[..|path| - 1][..n] == path[..n];
      WalkKeepsShared(h, path[..|path| - 1], n);
    }
  }

  /** Beyond the shared prototype: a name adds to it, `__proto__` throws. */
  lemma BeyondShared(h: Heap, path: Path, pre: Path, rest: Path, n: nat)
    requires Pristine(h) && PROTO !in pre && path == pre + [PROTO] + rest && rest != [] && n == |pre| + 2
    ensures path[..n] == pre + [PROTO] + [rest[0]] && path[..n][..n - 1] == pre + [PROTO]
    ensures var w := Walk(h, path[..n]);
            if rest[0] == PROTO then w.at == None && w.heap.shared == EMPTY else w.heap.shared != EMPTY
  {
    var m := path[..n];
    assert m == pre + [PROTO] + [rest[0]] && m[..|m| - 1] == pre + [PROTO];
    WalkToShared(h, pre);
  }

  /** The parent's place of a write, when the path goes on after the first `__proto__`. */
  lemma ParentBeyond(h: Heap, path: Path, pre: Path, rest: Path)
    requires Pristine(h) && PROTO !in pre && path == pre + [PROTO] + rest && rest != []
    ensures var w, last := Walk(h, path[..|path| - 1]), path[|path| - 1];
            && (|rest| == 1 ==> w.at == Some(SHARED_ROOT) && Pristine(w.heap) && last == rest[0])
            && (|rest| > 1 && rest[0] == PROTO ==> w.at == None && w.heap.shared == EMPTY)
            && (|rest| > 1 && rest[0] != PROTO ==> w.heap.shared != EMPTY)
  {
    var n := |pre| + 2;
    if |rest| == 1 {
      assert path[..|path| - 1] == pre + [PROTO];
      WalkToShared(h, pre);
    } else {
      var parent := path[..|path| - 1];
      assert parent[..n] == path[..n];
      BeyondShared(h, path, pre, rest, n);
      if rest[0] == PROTO { WalkEnds(h, parent, n); } else { WalkKeepsShared(h, parent, n); }
    }
  }

  /** An assignment, wherever it is made, to the prototype it is made in. */
  lemma AssignedShared(h: Heap, at: Place, name: string, x: Value)
    requires Sound(h)
    ensures var n := Done(h, Assigned(h, at, name, x)).heap;
            && (!at.inShared || (name == PROTO && at == SHARED_ROOT) ==> n.shared == h.shared)
            && ((at.inShared && name != PROTO) || h.shared != EMPTY ==> n.shared != EMPTY)
  {
    PutNotEmpty(h.shared, Below(at, name).path, x);
  }

  lemma PutNotEmpty(v: Value, p: Path, x: Value)
    requires p != []
    ensures Put(v, p, x) != EMPTY
  {
    assert p[0] in Put(v, p, x).fields;
  }

  /** Nor does an append to an array take away what is in it. */
  lemma PushedShared(h: Heap, at: Place, name: string, x: Value)
    requires Sound(h) && IsObject(h, at) && h.shared != EMPTY
    ensures var t := Target(h, at, name);
            t.Some? && IsArray(h, t.value) ==> Write(h, t.value, Arr(ValueAt(h, t.value).value.items + [x])).shared != EMPTY
  {
    var t := Target(h, at, name);
    if t.Some? && IsArray(h, t.value) && t.value.path != [] {
      PutNotEmpty(h.shared, t.value.path, Arr(ValueAt(h, t.value).value.items + [x]));
    }
  }

  /** With untouched prototypes a write leaves the shared one alone exactly for the paths that stay off it. */
  lemma SetStaysOffIff(h: Heap, path: Path, x: Value)
    requires Pristine(h) && path != [] && !x.Obj?
    ensures NestedSet(h, path, x).heap.shared == EMPTY <==> StaysOff(path)
  {
    if PROTO !in path {
      NoProtoStaysOff(path);
      PlainLeaf(x);
      PristineSet(h, path, x);
    } else {
      var w, last := ParentOf(h, path);
      if w.at.Some? { AssignedShared(w.heap, w.at.value, last, x); }
    }
  }

  /** The last step of a write to a path with a `__proto__`, and what it means that the path stays off. */
  lemma ParentOf(h: Heap, path: Path) returns (w: Walked, last: string)
    requires Pristine(h) && PROTO in path
    ensures w == Walk(h, path[..|path| - 1]) && last == path[|path| - 1]
    ensures w.at.None? ==> (w.heap.shared == EMPTY <==> StaysOff(path))
    ensures w.at.Some? && w.heap.shared != EMPTY ==> !StaysOff(path)
    ensures w.at.Some? && w.heap.shared == EMPTY ==>
      && Pristine(w.heap) && (StaysOff(path) <==> last == PROTO) && IsObject(w.heap, w.at.value)
      && (w.at.value == SHARED_ROOT || (!w.at.value.inShared && last == PROTO))
  {
    w, last := Walk(h, path[..|path| - 1]), path[|path| - 1];
    var pre, rest := AtFirstProto(path);
    if rest == [] {
      assert path[..|path| - 1] == pre && path[|path| - 1] == PROTO;
      WalkToShared(h, pre);
    } else {
      ParentBeyond(h, path, pre, rest);
    }
  }

  /** And so does an append. */
  lemma PushStaysOffIff(h: Heap, path: Path, x: Value)
    requires Pristine(h) && path != []
    ensures NestedPush(h, path, x).heap.shared == EMPTY <==> StaysOff(path)
  {
    if PROTO !in path {
      NoProtoStaysOff(path);
      PristinePush(h, path, x);
    } else {
      var w, last := ParentOf(h, path);
      if w.at.Some? {
        AssignedShared(w.heap, w.at.value, last, Arr([x]));
        if w.heap.shared == EMPTY {
          PristineProto(w.heap, w.at.value, last);
        } else {
          PushedShared(w.heap, w.at.value, last, x);
        }
      }
    }
  }

  lemma PristineProto(h: Heap, at: Place, name: string)
    requires Pristine(h) && IsObject(h, at) && (at == SHARED_ROOT || (!at.inShared && name == PROTO))
    ensures var t := Target(h, at, name); t.Some? ==> !IsArray(h, t.value)
  {
    if at != SHARED_ROOT { StepToShared(h, at); }
  }
}
