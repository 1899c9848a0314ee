/**
 The right-biased merge of nested maps: objects are merged field by field, anything else is
 replaced. This is what `deepMerge` of server/lib/config.ts is meant to compute.
 */
module MergeLaws {
  import opened ConfigTrees
  import opened Wrappers

  function Merge(a: Value, b: Value): (m: Value)
    requires a.Obj? && b.Obj?
    ensures m.Obj?
    decreases b
  {
    Obj(map k | k in a.fields.Keys + b.fields.Keys ::
          if k !in b.fields then a.fields[k]
          else if k in a.fields && a.fields[k].Obj? && b.fields[k].Obj? then Merge(a.fields[k], b.fields[k])
          else b.fields[k])
  }

  /** Left merges from the empty object on; an absent source counts for nothing. */
  function MergeAll(sources: seq<Option<Value>>): (m: Value)
    requires forall s :: s in sources && s.Some? ==> s.value.Obj?
    ensures m.Obj?
  {
    if sources == [] then EMPTY
    else
      var last := sources[|sources| - 1];
      if last.None? then MergeAll(sources[..|sources| - 1])
      else Merge(MergeAll(sources[..|sources| - 1]), last.value)
  }

  // ---------------------------------------------------------------- field by field

  function Field(v: Value, k: string): Option<Value>
    requires v.Obj?
  {
    if k in v.fields then Some(v.fields[k]) else None
  }

  /** What merging does to one field. */
  function MergeField(x: Option<Value>, y: Option<Value>): Option<Value> {
    if y.None? then x
    else if x.Some? && x.value.Obj? && y.value.Obj? then Some(Merge(x.value, y.value))
    else y
  }

  lemma FieldOfMerge(a: Value, b: Value, k: string)
    requires a.Obj? && b.Obj?
    ensures Field(Merge(a, b), k) == MergeField(Field(a, k), Field(b, k))
  {
  }

  lemma SameFields(a: Value, b: Value)
    requires a.Obj? && b.Obj? && forall k :: Field(a, k) == Field(b, k)
    ensures a == b
  {
    assert forall k :: k in a.fields <==> Field(a, k).Some?;
    assert forall k :: k in b.fields <==> Field(b, k).Some?;
    assert forall k :: k in a.fields ==> Field(a, k) == Some(a.fields[k]) && Field(b, k) == Some(b.fields[k]);
    assert a.fields == b.fields;
  }

  // ---------------------------------------------------------------- laws

  lemma EmptyMerge(a: Value)
    requires a.Obj?
    ensures Merge(EMPTY, a) == a && Merge(a, EMPTY) == a
  {
    SameFields(Merge(EMPTY, a), a);
    SameFields(Merge(a, EMPTY), a);
  }

  /** A leaf of the right source at the path or on the way to it. */
  predicate LeafOnTheWay(b: Value, p: Path) { exists n :: 0 <= n <= |p| && LeafAt(b, p[..n]) }

  /**
   Reading a merge, for every path: the right source where it has a leaf there or on the way, the merge of both where both have objects, the right source's
   object where the left has none, and the left source where the right one has nothing.
   */
  lemma {:induction false} AtMerge(a: Value, b: Value, p: Path)
    requires a.Obj? && b.Obj?
    ensures At(Merge(a, b), p) == if LeafOnTheWay(b, p) then At(b, p)
                                  else if At(b, p).None? then At(a, p)
                                  else if ObjectAt(a, p) && ObjectAt(b, p) then Some(Merge(At(a, p).value, At(b, p).value))
                                  else At(b, p)
    decreases p
  {
    if p == [] {
      assert !LeafOnTheWay(b, p);
    } else {
      var k, rest := p[0], p[1..];
      FieldOfMerge(a, b, k);
      LeafStep(b, p);
      if k in a.fields && k in b.fields && a.fields[k].Obj? && b.fields[k].Obj? {
        AtMerge(a.fields[k], b.fields[k], rest);
      } else if k in b.fields && !b.fields[k].Obj? {
        assert rest[..0] == [];
        assert LeafAt(b.fields[k], rest[..0]);
      } else if k in a.fields {
        assert !a.fields[k].Obj? && rest != [] ==> At(a, p) == None;
      }
    }
  }

  lemma LeafStep(b: Value, p: Path)
    requires b.Obj? && p != []
    ensures LeafOnTheWay(b, p) <==> p[0] in b.fields && LeafOnTheWay(b.fields[p[0]], p[1..])
  {
    if LeafOnTheWay(b, p) {
      var n :| 0 <= n <= |p| && LeafAt(b, p[..n]);
      assert n > 0 && p[..n][1..] == p[1..][..n - 1];
      assert LeafAt(b.fields[p[0]], p[1..][..n - 1]);
    }
    if p[0] in b.fields && LeafOnTheWay(b.fields[p[0]], p[1..]) {
      var n :| 0 <= n <= |p[1..]| && LeafAt(b.fields[p[0]], p[1..][..n]);
      assert p[..n + 1][1..] == p[1..][..n];
      assert LeafAt(b, p[..n + 1]);
    }
  }

  // ---------------------------------------------------------------- associativity

  /** Everything in `x` is already in `y` or replaced by it. */
  ghost predicate Absorbed(x: Value, y: Value)
    requires x.Obj? && y.Obj?
    decreases y
  {
    forall k :: k in x.fields ==>
      k in y.fields && (x.fields[k].Obj? && y.fields[k].Obj? ==> Absorbed(x.fields[k], y.fields[k]))
  }

  lemma {:induction false} AbsorbedIff(x: Value, y: Value)
    requires x.Obj? && y.Obj?
    ensures Merge(x, y) == y <==> Absorbed(x, y)
    decreases y
  {
    forall k | k in x.fields && k in y.fields && x.fields[k].Obj? && y.fields[k].Obj?
      ensures Merge(x.fields[k], y.fields[k]) == y.fields[k] <==> Absorbed(x.fields[k], y.fields[k])
    {
      AbsorbedIff(x.fields[k], y.fields[k]);
    }
    if Absorbed(x, y) {
      SameFields(Merge(x, y), y);
    }
    if Merge(x, y) == y {
      forall k | k in x.fields
        ensures k in y.fields && (x.fields[k].Obj? && y.fields[k].Obj? ==> Absorbed(x.fields[k], y.fields[k]))
      {
        FieldOfMerge(x, y, k);
        assert Field(y, k) == MergeField(Field(x, k), Field(y, k));
      }
    }
  }

  /** A path where the middle source cuts off an object of the first that the last brings back. */
  predicate Conflict(a: Value, b: Value, c: Value, p: Path) {
    ObjectAt(a, p) && LeafAt(b, p) && ObjectAt(c, p)
  }

  ghost predicate Harmless(a: Value, b: Value, c: Value) {
    forall p :: Conflict(a, b, c, p) ==> Absorbed(At(a, p).value, At(c, p).value)
  }

  /** `Harmless`, field by field. */
  ghost predicate HarmlessField(a: Value, b: Value, c: Value, k: string)
    requires a.Obj? && b.Obj? && c.Obj?
  {
    k in a.fields && k in b.fields && k in c.fields && a.fields[k].Obj? && c.fields[k].Obj? ==>
      if b.fields[k].Obj? then Harmless(a.fields[k], b.fields[k], c.fields[k])
      else Absorbed(a.fields[k], c.fields[k])
  }

  lemma HarmlessByField(a: Value, b: Value, c: Value)
    requires a.Obj? && b.Obj? && c.Obj?
    ensures Harmless(a, b, c) <==> forall k :: HarmlessField(a, b, c, k)
  {
    if Harmless(a, b, c) {
      forall k ensures HarmlessField(a, b, c, k) {
        if k in a.fields && k in b.fields && k in c.fields && a.fields[k].Obj? && c.fields[k].Obj? {
          HarmlessBelow(a, b, c, k);
        }
      }
    }
    if forall k :: HarmlessField(a, b, c, k) {
      forall p | Conflict(a, b, c, p) ensures Absorbed(At(a, p).value, At(c, p).value) {
        ConflictBelow(a, b, c, p);
      }
    }
  }

  lemma HarmlessBelow(a: Value, b: Value, c: Value, k: string)
    requires a.Obj? && b.Obj? && c.Obj? && Harmless(a, b, c)
    requires k in a.fields && k in b.fields && k in c.fields && a.fields[k].Obj? && c.fields[k].Obj?
    ensures HarmlessField(a, b, c, k)
  {
    forall p | Conflict(a.fields[k], b.fields[k], c.fields[k], p)
      ensures Absorbed(At(a.fields[k], p).value, At(c.fields[k], p).value)
    {
      var q := [k] + p;
      assert q[0] == k && q[1..] == p;
      assert Conflict(a, b, c, q);
    }
    if !b.fields[k].Obj? {
      assert Conflict(a.fields[k], b.fields[k], c.fields[k], []);
    }
  }

  lemma ConflictBelow(a: Value, b: Value, c: Value, p: Path)
    requires a.Obj? && b.Obj? && c.Obj? && Conflict(a, b, c, p)
    requires forall k :: HarmlessField(a, b, c, k)
    ensures Absorbed(At(a, p).value, At(c, p).value)
  {
    assert p != [];
    var k, rest := p[0], p[1..];
    assert p == [k] + rest;
    assert At(b, p) == At(b.fields[k], rest);
    assert HarmlessField(a, b, c, k);
    if b.fields[k].Obj? {
      assert Conflict(a.fields[k], b.fields[k], c.fields[k], rest);
    } else {
      NothingUnder(b.fields[k], rest);
    }
  }

  lemma NothingUnder(x: Value, rest: Path)
    requires !x.Obj? && At(x, rest).Some?
    ensures rest == []
  {
  }

  ghost predicate Associates(a: Value, b: Value, c: Value)
    requires a.Obj? && b.Obj? && c.Obj?
  {
    Merge(a, Merge(b, c)) == Merge(Merge(a, b), c)
  }

  /**
   Merging in one go and merging the last two first agree exactly when, wherever the middle
   source replaces an object of the first by a leaf and the last has an object, the last
   absorbs the first one's object.
   */
  lemma {:induction false} AssociatesIffHarmless(a: Value, b: Value, c: Value)
    requires a.Obj? && b.Obj? && c.Obj?
    ensures Associates(a, b, c) <==> Harmless(a, b, c)
    decreases b
  {
    forall k
      ensures MergeField(Field(a, k), MergeField(Field(b, k), Field(c, k)))
              == MergeField(MergeField(Field(a, k), Field(b, k)), Field(c, k))
              <==> HarmlessField(a, b, c, k)
    {
      if k in a.fields && k in b.fields && k in c.fields && a.fields[k].Obj? && c.fields[k].Obj? {
        if b.fields[k].Obj? {
          AssociatesIffHarmless(a.fields[k], b.fields[k], c.fields[k]);
        } else {
          AbsorbedIff(a.fields[k], c.fields[k]);
        }
      }
    }
    AssociatesByField(a, b, c);
    HarmlessByField(a, b, c);
  }

  lemma AssociatesByField(a: Value, b: Value, c: Value)
    requires a.Obj? && b.Obj? && c.Obj?
    ensures Associates(a, b, c) <==>
      forall k :: MergeField(Field(a, k), MergeField(Field(b, k), Field(c, k)))
                  == MergeField(MergeField(Field(a, k), Field(b, k)), Field(c, k))
  {
    var l, r := Merge(a, Merge(b, c)), Merge(Merge(a, b), c);
    forall k ensures Field(l, k) == MergeField(Field(a, k), MergeField(Field(b, k), Field(c, k)))
             ensures Field(r, k) == MergeField(MergeField(Field(a, k), Field(b, k)), Field(c, k))
    {
      FieldOfMerge(b, c, k);
      FieldOfMerge(a, Merge(b, c), k);
      FieldOfMerge(a, b, k);
      FieldOfMerge(Merge(a, b), c, k);
    }
    if forall k :: Field(l, k) == Field(r, k) { SameFields(l, r); }
  }

  /** A conflict that matters. */
  lemma CutOff(x: string, y: string, u: Value, v: Value)
    requires !v.Obj?
    ensures !Harmless(Obj(map[x := Obj(map[y := u])]), Obj(map[x := v]), Obj(map[x := EMPTY]))
  {
    var a, b, c := Obj(map[x := Obj(map[y := u])]), Obj(map[x := v]), Obj(map[x := EMPTY]);
    var p: Path := [x];
    assert p[1..] == [];
    assert At(a, p) == Some(a.fields[x]) && At(b, p) == Some(v) && At(c, p) == Some(EMPTY);
    assert Conflict(a, b, c, p);
    assert At(a, p).value.fields[y] == u;
    assert !Absorbed(At(a, p).value, At(c, p).value);
  }
}
