/**
 Configuration values and paths into them: what the form parser builds and what the
 configuration loader merges. Objects are plain maps from names to values.
 */
module ConfigTrees {
  import opened Wrappers

  datatype Value =
    | Null
    | Bool(b: bool)
    | Num(n: real)
    | Str(s: string)
    | Arr(items: seq<Value>)
    | Obj(fields: map<string, Value>)

  type Path = seq<string>

  const EMPTY := Obj(map[])

  /** The property that is an object's prototype. */
  const PROTO := "__proto__"

  /** The value a path of object fields leads to. */
  function At(v: Value, path: Path): Option<Value> {
    if path == [] then Some(v)
    else if v.Obj? && path[0] in v.fields then At(v.fields[path[0]], path[1..])
    else None
  }

  predicate ObjectAt(v: Value, path: Path) { At(v, path).Some? && At(v, path).value.Obj? }

  /** A leaf is anything but an object. */
  predicate LeafAt(v: Value, path: Path) { At(v, path).Some? && !At(v, path).value.Obj? }

  function FieldsOf(v: Value): map<string, Value> { if v.Obj? then v.fields else map[] }

  /** Writing a value at a path, making objects of whatever stands in the way. */
  function Put(v: Value, path: Path, x: Value): Value
    decreases path
  {
    if path == [] then x
    else
      var fields := FieldsOf(v);
      var child := if path[0] in fields then fields[path[0]] else EMPTY;
      Obj(fields[path[0] := Put(child, path[1..], x)])
  }

  /** Appending to the array at a path, or starting one there. */
  function Push(v: Value, path: Path, x: Value): Value {
    Put(v, path, Arr(ItemsAt(v, path) + [x]))
  }

  function ItemsAt(v: Value, path: Path): seq<Value> {
    var there := At(v, path);
    if there.Some? && there.value.Arr? then there.value.items else []
  }

  predicate Prefix(p: Path, q: Path) { p <= q }

  predicate Incomparable(p: Path, q: Path) { !Prefix(p, q) && !Prefix(q, p) }

  function ChildOf(v: Value, name: string): Value {
    if name in FieldsOf(v) then FieldsOf(v)[name] else EMPTY
  }

  lemma PutStep(v: Value, p: Path, x: Value, q: Path)
    requires p != [] && q != []
    ensures At(Put(v, p, x), q) == if q[0] == p[0] then At(Put(ChildOf(v, p[0]), p[1..], x), q[1..]) else At(v, q)
  {
  }

  lemma PathStep(p: Path, q: Path)
    requires p != [] && q != [] && p[0] == q[0]
    ensures Prefix(p, q) <==> Prefix(p[1..], q[1..])
    ensures Prefix(q, p) <==> Prefix(q[1..], p[1..])
    ensures Prefix(p, q) ==> q[|p|..] == q[1..][|p[1..]|..]
    ensures p == q <==> p[1..] == q[1..]
  {
    assert p == [p[0]] + p[1..] && q == [q[0]] + q[1..];
  }

  /** A write can be read back, and on the way to it there are objects. */
  lemma {:induction false} AtPutSame(v: Value, p: Path, x: Value, q: Path)
    ensures At(Put(v, p, x), p) == Some(x)
    ensures Prefix(q, p) && q != p ==> ObjectAt(Put(v, p, x), q)
    decreases p
  {
    if p != [] {
      AtPutSame(ChildOf(v, p[0]), p[1..], x, if q == [] then [] else q[1..]);
      if q != [] && q[0] == p[0] { PathStep(p, q); }
    }
  }

  /** Below a written value one reads in that value. */
  lemma {:induction false} AtPutBelow(v: Value, p: Path, x: Value, q: Path)
    requires Prefix(p, q)
    ensures At(Put(v, p, x), q) == At(x, q[|p|..])
    decreases p
  {
    if p == [] {
      assert q[0..] == q;
    } else {
      PathStep(p, q);
      PutStep(v, p, x, q);
      AtPutBelow(ChildOf(v, p[0]), p[1..], x, q[1..]);
    }
  }

  /** Elsewhere a write changes nothing. */
  lemma {:induction false} AtPutElsewhere(v: Value, p: Path, x: Value, q: Path)
    requires Incomparable(p, q)
    ensures At(Put(v, p, x), q) == At(v, q)
    decreases p
  {
    PutStep(v, p, x, q);
    if q[0] == p[0] {
      PathStep(p, q);
      AtPutElsewhere(ChildOf(v, p[0]), p[1..], x, q[1..]);
    }
  }

  lemma EmptyHasNothing(q: Path)
    ensures q != [] ==> At(EMPTY, q) == None
  {
  }

  /** Below a leaf there is nothing. */
  lemma {:induction false} NothingBelowLeaf(v: Value, p: Path, q: Path)
    requires LeafAt(v, p) && Prefix(p, q) && p != q
    ensures At(v, q) == None
  {
    if p == [] {
    } else {
      assert p[0] == q[0] && Prefix(p[1..], q[1..]);
      assert p == [p[0]] + p[1..] && q == [q[0]] + q[1..];
      NothingBelowLeaf(v.fields[p[0]], p[1..], q[1..]);
    }
  }

  /** Making an empty object where none is does not change what a deeper write gives. */
  lemma {:induction false} PutOverFresh(v: Value, p: Path, path: Path, x: Value)
    requires Prefix(p, path) && p != path && !ObjectAt(v, p)
    ensures Put(Put(v, p, EMPTY), path, x) == Put(v, path, x)
    ensures At(v, path) == None == At(Put(v, p, EMPTY), path)
    decreases p
  {
    AtPutBelow(v, p, EMPTY, path);
    EmptyHasNothing(path[|p|..]);
    if p != [] {
      PathStep(p, path);
      var child := ChildOf(v, p[0]);
      if p[0] in FieldsOf(v) || p[1..] != [] { PutOverFresh(child, p[1..], path[1..], x); }
      PutTwice(v, p, EMPTY, path, x);
    }
  }

  lemma PutTwice(v: Value, p: Path, y: Value, path: Path, x: Value)
    requires p != [] && path != [] && p[0] == path[0]
    requires var child := ChildOf(v, p[0]);
             Put(Put(child, p[1..], y), path[1..], x) == Put(child, path[1..], x)
    ensures Put(Put(v, p, y), path, x) == Put(v, path, x)
  {
    var fields, name := FieldsOf(v), p[0];
    var a, b := Put(ChildOf(v, name), p[1..], y), Put(ChildOf(v, name), path[1..], x);
    assert fields[name := a][name := b] == fields[name := b];
  }
}
