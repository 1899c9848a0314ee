/**
 `canonicalize` of scripts/ci/canonical-json.js: the text that the spend-artifact
 producer and the budget-gate verifier both sign.

 The partner of the printer is an independent reader of JSON text (RFC 8259, without
 whitespace). Reading a canonical text back gives the value in normal form, whatever
 delimiter follows; from this the printer is injective up to key order.
 */
module CanonicalJson {
  import opened Wrappers
  import opened Splitting

  /** JavaScript strings are sequences of UTF-16 code units. */
  type Unit = x: int | 0 <= x < 0x1_0000
  type Text = seq<Unit>

  const QUOTE: Unit := 0x22
  const COMMA: Unit := 0x2C
  const COLON: Unit := 0x3A
  const BACKSLASH: Unit := 0x5C
  const LEFT_BRACKET: Unit := 0x5B
  const RIGHT_BRACKET: Unit := 0x5D
  const LEFT_BRACE: Unit := 0x7B
  const RIGHT_BRACE: Unit := 0x7D
  const LOWER_U: Unit := 0x75
  const ZERO: Unit := 0x30
  const NULL_WORD: Text := [0x6E, 0x75, 0x6C, 0x6C]
  const TRUE_WORD: Text := [0x74, 0x72, 0x75, 0x65]
  const FALSE_WORD: Text := [0x66, 0x61, 0x6C, 0x73, 0x65]

  /**
   A number as `JSON.parse` yields it. A finite number is identified with the token that
   `JSON.stringify` prints for it; minus zero (from `-0`) and the infinities (from
   `1e999`) have no token of their own.
   */
  datatype Number = Finite(token: Text) | MinusZero | Infinite(negative: bool)

  datatype Json =
    | Null
    | Bool(b: bool)
    | Num(n: Number)
    | Str(s: Text)
    | Arr(items: seq<Json>)
    | Obj(members: seq<Member>)

  datatype Member = Member(key: Text, value: Json)

  // ---------------------------------------------------------------- values

  predicate NumberUnit(u: Unit) {
    0x30 <= u <= 0x39 || u == 0x2B || u == 0x2D || u == 0x2E || u == 0x65
  }

  predicate NumberToken(t: Text) {
    t != [] && (0x30 <= t[0] <= 0x39 || t[0] == 0x2D) && forall k :: 0 <= k < |t| ==> NumberUnit(t[k])
  }

  predicate Distinct(keys: seq<Text>) {
    forall i, j :: 0 <= i < j < |keys| ==> keys[i] != keys[j]
  }

  function Keys(ms: seq<Member>): (keys: seq<Text>)
    ensures |keys| == |ms|
    ensures forall i :: 0 <= i < |ms| ==> keys[i] == ms[i].key
  {
    if ms == [] then [] else [ms[0].key] + Keys(ms[1..])
  }

  /** `value[k]`. */
  function Lookup(ms: seq<Member>, k: Text): (m: Member)
    requires k in Keys(ms)
    ensures m in ms && m.key == k
  {
    if ms[0].key == k then ms[0] else Lookup(ms[1..], k)
  }

  /** What `JSON.parse` can return: number tokens are number text, keys are distinct. */
  predicate WellFormed(v: Json) {
    match v
    case Num(Finite(token)) => NumberToken(token)
    case Arr(items) => forall x | x in items :: WellFormed(x)
    case Obj(ms) => Distinct(Keys(ms)) && forall m | m in ms :: WellFormed(m.value)
    case _ => true
  }

  /** A number as `JSON.stringify` sees it: minus zero is `0`, an infinity is `null`. */
  function Plain(v: Json): Json {
    match v
    case Num(MinusZero) => Num(Finite([ZERO]))
    case Num(Infinite(_)) => Null
    case _ => v
  }

  /** Equality of values with objects read as unordered maps, numbers read by `Plain`. */
  ghost predicate SameValue(a: Json, b: Json)
    decreases a
  {
    match a
    case Arr(xs) =>
      b.Arr? && |xs| == |b.items| && forall i :: 0 <= i < |xs| ==> SameValue(xs[i], b.items[i])
    case Obj(ms) =>
      && b.Obj?
      && (forall k :: k in Keys(ms) <==> k in Keys(b.members))
      && (forall k | k in Keys(ms) :: SameValue(Lookup(ms, k).value, Lookup(b.members, k).value))
    case _ => Plain(a) == Plain(b)
  }

  // ---------------------------------------------------------------- key order

  /** JavaScript's `<` on strings: lexicographic by code unit. */
  predicate Less(a: Text, b: Text) {
    if b == [] then false
    else if a == [] then true
    else if a[0] != b[0] then a[0] < b[0]
    else Less(a[1..], b[1..])
  }

  /** Exactly one of: equal, before, after. */
  lemma {:induction false} LessTotal(a: Text, b: Text)
    ensures a != b <==> Less(a, b) || Less(b, a)
    ensures !(Less(a, b) && Less(b, a))
  {
    if a != [] && b != [] && a[0] == b[0] {
      LessTotal(a[1..], b[1..]);
      assert a == [a[0]] + a[1..] && b == [b[0]] + b[1..];
    }
  }

  /** The order of keys: a proper prefix comes first, else the first unit that differs decides. */
  lemma {:induction false} KeyOrder(a: Text, b: Text)
    ensures Less(a, b) <==> (a <= b && a != b) || exists i :: Decides(a, b, i)
  {
    if a != [] && b != [] && a[0] == b[0] {
      KeyOrder(a[1..], b[1..]);
      assert a == [a[0]] + a[1..] && b == [b[0]] + b[1..];
      if i :| Decides(a[1..], b[1..], i) {
        assert a[..i + 1] == [a[0]] + a[1..][..i] && b[..i + 1] == [b[0]] + b[1..][..i];
        assert Decides(a, b, i + 1);
      }
      if i :| Decides(a, b, i) {
        assert i > 0 && a[1..][..i - 1] == a[..i][1..] && b[1..][..i - 1] == b[..i][1..];
        assert Decides(a[1..], b[1..], i - 1);
      }
    } else if a != [] && b != [] {
      assert Decides(a, b, 0) <==> a[0] < b[0];
    }
  }

  predicate Decides(a: Text, b: Text, i: int) { 0 <= i < |a| && i < |b| && a[..i] == b[..i] && a[i] < b[i] }

  lemma {:induction false} LessTransitive(a: Text, b: Text, c: Text)
    requires Less(a, b) && Less(b, c)
    ensures Less(a, c)
  {
    if a != [] && b != [] && c != [] && a[0] == b[0] == c[0] {
      LessTransitive(a[1..], b[1..], c[1..]);
    }
  }

  predicate Ascending(keys: seq<Text>) {
    forall i, j :: 0 <= i < j < |keys| ==> Less(keys[i], keys[j])
  }

  /** `Object.keys(value).sort()`. */
  function SortKeys(keys: seq<Text>): (sorted: seq<Text>)
    ensures forall k :: k in sorted <==> k in keys
    ensures Distinct(keys) ==> Ascending(sorted)
  {
    if keys == [] then [] else
      var rest := SortKeys(keys[1..]);
      assert forall k :: k in keys <==> k == keys[0] || k in keys[1..];
      assert Distinct(keys) ==> Distinct(keys[1..]) && keys[0] !in keys[1..];
      InsertKey(keys[0], rest)
  }

  function InsertKey(k: Text, sorted: seq<Text>): (r: seq<Text>)
    ensures forall x :: x in r <==> x == k || x in sorted
    ensures Ascending(sorted) && k !in sorted ==> Ascending(r)
  {
    if sorted == [] then [k]
    else if Less(sorted[0], k) then
      var rest := InsertKey(k, sorted[1..]);
      assert Ascending(sorted) ==> forall j :: 1 <= j < |sorted| ==> Less(sorted[0], sorted[j]);
      assert forall x :: x in sorted <==> x == sorted[0] || x in sorted[1..];
      assert Ascending(sorted) && k !in sorted ==>
        forall x :: x in rest ==> Less(sorted[0], x);
      [sorted[0]] + rest
    else
      InsertInFront(k, sorted);
      [k] + sorted
  }

  lemma {:induction false} InsertInFront(k: Text, sorted: seq<Text>)
    requires sorted != [] && !Less(sorted[0], k)
    ensures Ascending(sorted) && k !in sorted ==> Ascending([k] + sorted)
  {
    if Ascending(sorted) && k !in sorted {
      LessTotal(k, sorted[0]);
      forall j | 1 <= j < |sorted| ensures Less(k, sorted[j]) {
        LessTransitive(k, sorted[0], sorted[j]);
      }
    }
  }

  /** A set of keys has one ascending list. */
  lemma {:induction false} AscendingUnique(a: seq<Text>, b: seq<Text>)
    requires Ascending(a) && Ascending(b)
    requires forall k :: k in a <==> k in b
    ensures a == b
  {
    assert a == [] <==> b == [] by {
      if a != [] { assert a[0] in b; }
      if b != [] { assert b[0] in a; }
    }
    if a != [] && b != [] {
      assert a[0] in b && b[0] in a;
      LessTotal(a[0], b[0]);
      assert a[0] == b[0];
      LessTotal(a[0], a[0]);
      forall k ensures k in a[1..] <==> k in b[1..] {
        assert k in a[1..] <==> k in a && k != a[0];
        assert k in b[1..] <==> k in b && k != b[0];
      }
      AscendingUnique(a[1..], b[1..]);
    }
  }

  // ---------------------------------------------------------------- the printer

  function Hex(d: int): Unit
    requires 0 <= d < 16
  {
    if d < 10 then 0x30 + d else 0x61 + d - 10
  }

  function UnicodeEscape(u: Unit): Text {
    [BACKSLASH, LOWER_U, Hex(u / 4096), Hex(u / 256 % 16), Hex(u / 16 % 16), Hex(u % 16)]
  }

  function EscapeUnit(u: Unit): Text {
    if u == QUOTE || u == BACKSLASH then [BACKSLASH, u]
    else if u == 0x08 then [BACKSLASH, 0x62]
    else if u == 0x09 then [BACKSLASH, 0x74]
    else if u == 0x0A then [BACKSLASH, 0x6E]
    else if u == 0x0C then [BACKSLASH, 0x66]
    else if u == 0x0D then [BACKSLASH, 0x72]
    else if u < 0x20 then UnicodeEscape(u)
    else [u]
  }

  predicate HighSurrogate(u: Unit) { 0xD800 <= u <= 0xDBFF }

  predicate LowSurrogate(u: Unit) { 0xDC00 <= u <= 0xDFFF }

  /** The inside of a string literal; a surrogate without its partner is escaped. */
  function Escape(s: Text): Text {
    if s == [] then []
    else if |s| >= 2 && HighSurrogate(s[0]) && LowSurrogate(s[1]) then s[..2] + Escape(s[2..])
    else if HighSurrogate(s[0]) || LowSurrogate(s[0]) then UnicodeEscape(s[0]) + Escape(s[1..])
    else EscapeUnit(s[0]) + Escape(s[1..])
  }

  function Quote(s: Text): Text { [QUOTE] + Escape(s) + [QUOTE] }

  function PrintNumber(n: Number): Text {
    match n
    case Finite(token) => token
    case MinusZero => [ZERO]
    case Infinite(_) => NULL_WORD
  }

  function Canonicalize(v: Json): Text {
    match v
    case Null => NULL_WORD
    case Bool(b) => if b then TRUE_WORD else FALSE_WORD
    case Num(n) => PrintNumber(n)
    case Str(s) => Quote(s)
    case Arr(items) => [LEFT_BRACKET] + Join(CanonicalItems(items), COMMA) + [RIGHT_BRACKET]
    case Obj(ms) =>
      [LEFT_BRACE] + Join(CanonicalMembers(SortKeys(Keys(ms)), ms), COMMA) + [RIGHT_BRACE]
  }

  function CanonicalItems(items: seq<Json>): (parts: seq<Text>)
    ensures |parts| == |items|
    decreases items
  {
    if items == [] then [] else [Canonicalize(items[0])] + CanonicalItems(items[1..])
  }

  function CanonicalMembers(keys: seq<Text>, ms: seq<Member>): (parts: seq<Text>)
    requires forall k :: k in keys ==> k in Keys(ms)
    ensures |parts| == |keys|
    decreases ms, |keys|
  {
    if keys == [] then [] else
      [Quote(keys[0]) + [COLON] + Canonicalize(Lookup(ms, keys[0]).value)] + CanonicalMembers(keys[1..], ms)
  }

  // ---------------------------------------------------------------- normal form

  /** Members in key order at every level, numbers as printed. */
  function Norm(v: Json): Json {
    match v
    case Arr(items) => Arr(NormItems(items))
    case Obj(ms) => Obj(NormMembers(SortKeys(Keys(ms)), ms))
    case _ => Plain(v)
  }

  function NormItems(items: seq<Json>): (r: seq<Json>)
    ensures |r| == |items|
    ensures forall i :: 0 <= i < |items| ==> r[i] == Norm(items[i])
    decreases items
  {
    if items == [] then [] else [Norm(items[0])] + NormItems(items[1..])
  }

  function NormMembers(keys: seq<Text>, ms: seq<Member>): (r: seq<Member>)
    requires forall k :: k in keys ==> k in Keys(ms)
    ensures |r| == |keys|
    ensures forall i :: 0 <= i < |keys| ==> keys[i] in Keys(ms)
    ensures forall i :: 0 <= i < |keys| ==> r[i] == Member(keys[i], Norm(Lookup(ms, keys[i]).value))
    decreases ms, |keys|
  {
    seq(|keys|, i requires 0 <= i < |keys| => Member(keys[i], Norm(Lookup(ms, keys[i]).value)))
  }

  lemma NormMembersCons(keys: seq<Text>, ms: seq<Member>)
    requires keys != [] && forall k :: k in keys ==> k in Keys(ms)
    ensures NormMembers(keys, ms) == [Member(keys[0], Norm(Lookup(ms, keys[0]).value))] + NormMembers(keys[1..], ms)
  {
    var all, rest := NormMembers(keys, ms), NormMembers(keys[1..], ms);
    forall i | 0 <= i < |rest| ensures all[i + 1] == rest[i] { assert keys[i + 1] == keys[1..][i]; }
    ConsOf(all, rest);
  }

  lemma ConsOf(all: seq<Member>, rest: seq<Member>)
    requires |all| == |rest| + 1 && forall i :: 0 <= i < |rest| ==> all[i + 1] == rest[i]
    ensures all == [all[0]] + rest
  {
  }

  lemma {:induction false} SameNorm(a: Json, b: Json)
    requires WellFormed(a) && WellFormed(b)
    ensures Norm(a) == Norm(b) <==> SameValue(a, b)
    decreases a, 1
  {
    match a
    case Arr(xs) => if b.Arr? { SameNormItems(xs, b.items); }
    case Obj(ms) => if b.Obj? { SameNormMembers(ms, b.members); }
    case _ =>
  }

  lemma {:induction false} SameNormItems(xs: seq<Json>, ys: seq<Json>)
    requires WellFormed(Arr(xs)) && WellFormed(Arr(ys))
    ensures NormItems(xs) == NormItems(ys) <==> SameValue(Arr(xs), Arr(ys))
    decreases xs, 0
  {
    if |xs| == |ys| {
      forall i | 0 <= i < |xs| ensures Norm(xs[i]) == Norm(ys[i]) <==> SameValue(xs[i], ys[i]) {
        SameNorm(xs[i], ys[i]);
      }
      assert NormItems(xs) == NormItems(ys) <==> forall i :: 0 <= i < |xs| ==> Norm(xs[i]) == Norm(ys[i]);
    }
  }

  lemma {:induction false} SameNormMembers(ms: seq<Member>, ns: seq<Member>)
    requires WellFormed(Obj(ms)) && WellFormed(Obj(ns))
    ensures Norm(Obj(ms)) == Norm(Obj(ns)) <==> SameValue(Obj(ms), Obj(ns))
    decreases ms, 1
  {
    var ka, kb := SortKeys(Keys(ms)), SortKeys(Keys(ns));
    if NormMembers(ka, ms) == NormMembers(kb, ns) {
      NormMembersKeys(ka, kb, ms, ns);
    }
    if forall k :: k in Keys(ms) <==> k in Keys(ns) {
      AscendingUnique(ka, kb);
      NormMembersAlike(ka, ms, ns);
      SameNormLookups(ms, ns);
    }
  }

  lemma SameNormLookups(ms: seq<Member>, ns: seq<Member>)
    requires WellFormed(Obj(ms)) && WellFormed(Obj(ns))
    requires forall k :: k in Keys(ms) <==> k in Keys(ns)
    ensures SameNorms(ms, ns) <==> SameValue(Obj(ms), Obj(ns))
    decreases ms, 0
  {
    if SameNorms(ms, ns) { SameByLookups(ms, ns); }
    if SameValue(Obj(ms), Obj(ns)) { LookupsBySame(ms, ns); }
  }

  /** The values of all keys have the same normal forms. */
  predicate SameNorms(ms: seq<Member>, ns: seq<Member>)
    requires forall k :: k in Keys(ms) <==> k in Keys(ns)
  {
    forall k | k in Keys(ms) :: Norm(Lookup(ms, k).value) == Norm(Lookup(ns, k).value)
  }

  lemma {:induction false} SameByLookups(ms: seq<Member>, ns: seq<Member>)
    requires WellFormed(Obj(ms)) && WellFormed(Obj(ns))
    requires (forall k :: k in Keys(ms) <==> k in Keys(ns)) && SameNorms(ms, ns)
    ensures SameValue(Obj(ms), Obj(ns))
    decreases ms, 0, 0
  {
    forall k | k in Keys(ms) ensures SameValue(Lookup(ms, k).value, Lookup(ns, k).value) {
      SameNorm(Lookup(ms, k).value, Lookup(ns, k).value);
    }
  }

  lemma {:induction false} LookupsBySame(ms: seq<Member>, ns: seq<Member>)
    requires WellFormed(Obj(ms)) && WellFormed(Obj(ns)) && SameValue(Obj(ms), Obj(ns))
    ensures SameNorms(ms, ns)
    decreases ms, 0, 0
  {
    forall k | k in Keys(ms) ensures Norm(Lookup(ms, k).value) == Norm(Lookup(ns, k).value) {
      SameNorm(Lookup(ms, k).value, Lookup(ns, k).value);
    }
  }

  lemma {:induction false} NormMembersKeys(ka: seq<Text>, kb: seq<Text>, ms: seq<Member>, ns: seq<Member>)
    requires (forall k :: k in ka ==> k in Keys(ms)) && (forall k :: k in kb ==> k in Keys(ns))
    requires NormMembers(ka, ms) == NormMembers(kb, ns)
    ensures ka == kb
  {
    assert |ka| == |kb|;
    forall i | 0 <= i < |ka| ensures ka[i] == kb[i] {
      assert NormMembers(ka, ms)[i] == NormMembers(kb, ns)[i];
    }
  }

  lemma {:induction false} NormMembersAlike(keys: seq<Text>, ms: seq<Member>, ns: seq<Member>)
    requires forall k :: k in keys ==> k in Keys(ms) && k in Keys(ns)
    ensures NormMembers(keys, ms) == NormMembers(keys, ns)
            <==> forall k | k in keys :: Norm(Lookup(ms, k).value) == Norm(Lookup(ns, k).value)
  {
    var a, b := NormMembers(keys, ms), NormMembers(keys, ns);
    if a == b {
      forall k | k in keys ensures Norm(Lookup(ms, k).value) == Norm(Lookup(ns, k).value) {
        var i :| 0 <= i < |keys| && keys[i] == k;
        assert a[i] == b[i];
      }
    }
  }

  // ---------------------------------------------------------------- the reader

  function HexValue(u: Unit): Option<int> {
    if 0x30 <= u <= 0x39 then Some(u - 0x30)
    else if 0x61 <= u <= 0x66 then Some(u - 0x61 + 10)
    else if 0x41 <= u <= 0x46 then Some(u - 0x41 + 10)
    else None
  }

  /** The unit a two-character escape stands for (section 7 of RFC 8259). */
  function ShortEscape(u: Unit): Option<Unit> {
    if u == QUOTE || u == BACKSLASH || u == 0x2F then Some(u)
    else if u == 0x62 then Some(0x08)
    else if u == 0x66 then Some(0x0C)
    else if u == 0x6E then Some(0x0A)
    else if u == 0x72 then Some(0x0D)
    else if u == 0x74 then Some(0x09)
    else None
  }

  function Prepend(u: Unit, r: Option<(Text, Text)>): Option<(Text, Text)> {
    match r case None => None case Some((s, rest)) => Some(([u] + s, rest))
  }

  /** The string whose opening quote has been read, and the text after its closing one. */
  function ReadString(t: Text): (r: Option<(Text, Text)>)
    ensures r.Some? ==> |r.value.1| < |t|
  {
    if t == [] || t[0] < 0x20 then None
    else if t[0] == QUOTE then Some(([], t[1..]))
    else if t[0] != BACKSLASH then Prepend(t[0], ReadString(t[1..]))
    else if |t| >= 2 && ShortEscape(t[1]).Some? then
      Prepend(ShortEscape(t[1]).value, ReadString(t[2..]))
    else if |t| >= 6 && t[1] == LOWER_U && HexValue(t[2]).Some? && HexValue(t[3]).Some?
            && HexValue(t[4]).Some? && HexValue(t[5]).Some? then
      Prepend(HexValue(t[2]).value * 4096 + HexValue(t[3]).value * 256
              + HexValue(t[4]).value * 16 + HexValue(t[5]).value, ReadString(t[6..]))
    else None
  }

  /** How many number characters the text starts with. */
  function NumberRun(t: Text): (n: nat)
    ensures n <= |t|
  {
    if t == [] || !NumberUnit(t[0]) then 0 else 1 + NumberRun(t[1..])
  }

  function ReadValue(t: Text): (r: Option<(Json, Text)>)
    ensures r.Some? ==> |r.value.1| < |t|
    decreases |t|, 0
  {
    if t == [] then None
    else if t[0] == QUOTE then
      (match ReadString(t[1..]) case None => None case Some((s, rest)) => Some((Str(s), rest)))
    else if t[0] == LEFT_BRACKET then
      if |t| >= 2 && t[1] == RIGHT_BRACKET then Some((Arr([]), t[2..]))
      else (match ReadItems(t[1..]) case None => None case Some((xs, rest)) => Some((Arr(xs), rest)))
    else if t[0] == LEFT_BRACE then
      if |t| >= 2 && t[1] == RIGHT_BRACE then Some((Obj([]), t[2..]))
      else (match ReadMembers(t[1..]) case None => None case Some((ms, rest)) => Some((Obj(ms), rest)))
    else if NULL_WORD <= t then Some((Null, t[4..]))
    else if TRUE_WORD <= t then Some((Bool(true), t[4..]))
    else if FALSE_WORD <= t then Some((Bool(false), t[5..]))
    else
      var n := NumberRun(t);
      if NumberToken(t[..n]) then Some((Num(Finite(t[..n])), t[n..])) else None
  }

  /** Items up to and including the closing bracket. */
  function ReadItems(t: Text): (r: Option<(seq<Json>, Text)>)
    ensures r.Some? ==> |r.value.1| < |t|
    decreases |t|, 1
  {
    match ReadValue(t)
    case None => None
    case Some((x, rest)) =>
      if rest == [] then None
      else if rest[0] == RIGHT_BRACKET then Some(([x], rest[1..]))
      else if rest[0] != COMMA then None
      else match ReadItems(rest[1..]) case None => None case Some((xs, end)) => Some(([x] + xs, end))
  }

  /** One member: a quoted key, a colon, a value. */
  function ReadMember(t: Text): (r: Option<(Member, Text)>)
    ensures r.Some? ==> |r.value.1| < |t|
    decreases |t|, 1
  {
    if t == [] || t[0] != QUOTE then None else
    match ReadString(t[1..])
    case None => None
    case Some((k, rest)) =>
      if rest == [] || rest[0] != COLON then None
      else match ReadValue(rest[1..]) case None => None case Some((x, end)) => Some((Member(k, x), end))
  }

  /** Members up to and including the closing brace. */
  function ReadMembers(t: Text): (r: Option<(seq<Member>, Text)>)
    ensures r.Some? ==> |r.value.1| < |t|
    decreases |t|, 2
  {
    match ReadMember(t)
    case None => None
    case Some((m, rest)) =>
      if rest == [] then None
      else if rest[0] == RIGHT_BRACE then Some(([m], rest[1..]))
      else if rest[0] != COMMA then None
      else match ReadMembers(rest[1..]) case None => None case Some((ms, end)) => Some(([m] + ms, end))
  }

  // ---------------------------------------------------------------- reading undoes printing

  lemma {:induction false} HexDigits(u: Unit)
    ensures HexValue(Hex(u / 4096)) == Some(u / 4096)
    ensures HexValue(Hex(u / 256 % 16)) == Some(u / 256 % 16)
    ensures HexValue(Hex(u / 16 % 16)) == Some(u / 16 % 16)
    ensures HexValue(Hex(u % 16)) == Some(u % 16)
    ensures u == u / 4096 * 4096 + u / 256 % 16 * 256 + u / 16 % 16 * 16 + u % 16
  {
    var d3, d2, d1 := u / 4096, u / 256, u / 16;
    assert d2 / 16 == d3 && d1 / 16 == d2;
  }

  lemma {:induction false} ReadUnicodeEscape(u: Unit, t: Text)
    ensures ReadString(UnicodeEscape(u) + t) == Prepend(u, ReadString(t))
  {
    var all := UnicodeEscape(u) + t;
    HexDigits(u);
    assert all[6..] == t;
    assert all[0] == BACKSLASH && all[1] == LOWER_U && ShortEscape(LOWER_U) == None;
    assert all[2] == Hex(u / 4096) && all[3] == Hex(u / 256 % 16);
    assert all[4] == Hex(u / 16 % 16) && all[5] == Hex(u % 16);
  }

  lemma {:induction false} ReadEscapedUnit(u: Unit, t: Text)
    ensures ReadString(EscapeUnit(u) + t) == Prepend(u, ReadString(t))
  {
    var e := EscapeUnit(u);
    assert (e + t)[|e|..] == t;
    if u < 0x20 && |e| == 6 { ReadUnicodeEscape(u, t); }
  }

  /** No shorter text, with its closing quote, reads as the unit. */
  lemma EscapeIsShortest(u: Unit, t: Text)
    requires ReadString(t) == Some(([u], []))
    ensures |EscapeUnit(u)| + 1 <= |t|
  {
    var n := OnlyUnitRead(t, u);
    LengthOfEscape(u, t, n);
  }

  lemma OnlyUnitRead(t: Text, u: Unit) returns (n: nat)
    requires ReadString(t) == Some(([u], []))
    ensures ReadsFirst(t, u, n) && |t| == n + 1
  {
    n := FirstUnitRead(t);
    NothingRead(t[n..]);
  }

  predicate ReadsFirst(t: Text, u: Unit, n: nat) {
    || (n == 1 <= |t| && u == t[0] && u >= 0x20 && u != QUOTE && u != BACKSLASH)
    || (n == 2 <= |t| && t[0] == BACKSLASH && ShortEscape(t[1]) == Some(u))
    || (n == 6 <= |t| && t[0] == BACKSLASH && t[1] == LOWER_U)
  }

  /** The first unit of a string that is read: as it stands, a short escape, or four hexadecimal digits. */
  lemma FirstUnitRead(t: Text) returns (n: nat)
    requires ReadString(t).Some? && ReadString(t).value.0 != []
    ensures ReadsFirst(t, ReadString(t).value.0[0], n)
    ensures ReadString(t[n..]) == Some((ReadString(t).value.0[1..], ReadString(t).value.1))
  {
    n := if t[0] != BACKSLASH then 1 else if |t| >= 2 && ShortEscape(t[1]).Some? then 2 else 6;
    var r := ReadString(t[n..]).value;
    assert ([ReadString(t).value.0[0]] + r.0)[1..] == r.0;
  }

  lemma NothingRead(t: Text)
    requires ReadString(t) == Some(([], []))
    ensures t == [QUOTE]
  {
  }

  lemma LengthOfEscape(u: Unit, t: Text, n: nat)
    requires ReadsFirst(t, u, n)
    ensures |EscapeUnit(u)| <= n
  {
  }

  /** Hexadecimal digits are written in lower case. */
  lemma EscapesAreLowerCase(u: Unit, k: nat)
    requires k < |EscapeUnit(u)| && 0x41 <= EscapeUnit(u)[k] <= 0x46
    ensures EscapeUnit(u) == [u]
  {
  }

  lemma {:induction false} ReadPair(high: Unit, low: Unit, t: Text)
    requires HighSurrogate(high) && LowSurrogate(low)
    ensures ReadString([high, low] + t) == Prepend(high, Prepend(low, ReadString(t)))
  {
    assert ([high, low] + t)[1..] == [low] + t;
    assert ([low] + t)[1..] == t;
  }

  /** The first escaped piece of a string, and how many units it stands for. */
  function EscapedHead(s: Text): (Text, nat)
    requires s != []
  {
    if |s| >= 2 && HighSurrogate(s[0]) && LowSurrogate(s[1]) then (s[..2], 2)
    else if HighSurrogate(s[0]) || LowSurrogate(s[0]) then (UnicodeEscape(s[0]), 1)
    else (EscapeUnit(s[0]), 1)
  }

  lemma {:induction false} ReadEscapedHead(s: Text, t: Text, r: Text)
    requires s != []
    requires ReadString(t) == Some((s[EscapedHead(s).1..], r))
    ensures ReadString(EscapedHead(s).0 + t) == Some((s, r))
  {
    if |s| >= 2 && HighSurrogate(s[0]) && LowSurrogate(s[1]) {
      ReadPair(s[0], s[1], t);
      FirstTwo(s);
    } else if HighSurrogate(s[0]) || LowSurrogate(s[0]) {
      ReadUnicodeEscape(s[0], t);
      FirstOne(s);
    } else {
      ReadEscapedUnit(s[0], t);
      FirstOne(s);
    }
  }

  lemma FirstOne(s: Text)
    requires s != []
    ensures s == [s[0]] + s[1..]
  {
  }

  lemma FirstTwo(s: Text)
    requires |s| >= 2
    ensures s[..2] == [s[0], s[1]] && s == [s[0]] + ([s[1]] + s[2..])
  {
  }

  lemma {:induction false} EscapeStep(s: Text, t: Text)
    requires s != []
    ensures Escape(s) + t == EscapedHead(s).0 + (Escape(s[EscapedHead(s).1..]) + t)
  {
    assert Escape(s) == EscapedHead(s).0 + Escape(s[EscapedHead(s).1..]);
  }

  lemma {:induction false} ReadEscaped(s: Text, t: Text)
    ensures ReadString(Escape(s) + ([QUOTE] + t)) == Some((s, t))
  {
    var end := [QUOTE] + t;
    if s == [] {
      assert Escape(s) + end == end && end[1..] == t;
    } else {
      var n := EscapedHead(s).1;
      ReadEscaped(s[n..], t);
      ReadEscapedHead(s, Escape(s[n..]) + end, t);
      EscapeStep(s, end);
    }
  }

  lemma {:induction false} ReadQuoted(s: Text, t: Text)
    ensures ReadString((Quote(s) + t)[1..]) == Some((s, t)) && (Quote(s) + t)[0] == QUOTE
  {
    ReadEscaped(s, t);
    QuotedText(Escape(s), t);
  }

  lemma QuotedText(inside: Text, t: Text)
    ensures var all := [QUOTE] + inside + [QUOTE] + t; all[1..] == inside + ([QUOTE] + t) && all[0] == QUOTE
  {
  }

  /** What may follow a value inside a canonical text. */
  predicate Delimited(t: Text) {
    t == [] || t[0] == COMMA || t[0] == RIGHT_BRACKET || t[0] == RIGHT_BRACE
  }

  lemma {:induction false} NumberRunOfToken(token: Text, t: Text)
    requires forall k :: 0 <= k < |token| ==> NumberUnit(token[k])
    requires Delimited(t)
    ensures NumberRun(token + t) == |token|
  {
    if token == [] {
      assert token + t == t;
    } else {
      NumberRunOfToken(token[1..], t);
      assert (token + t)[1..] == token[1..] + t;
    }
  }

  /** A canonical text is not empty and does not start like the end of a list. */
  lemma {:induction false} FirstUnit(v: Json)
    requires WellFormed(v)
    ensures Canonicalize(v) != [] && Canonicalize(v)[0] != RIGHT_BRACKET
  {
  }

  /** Reading a canonical text gives the value's normal form and leaves what follows. */
  lemma {:induction false} ReadCanonical(v: Json, t: Text)
    requires WellFormed(v) && Delimited(t)
    ensures ReadValue(Canonicalize(v) + t) == Some((Norm(v), t))
    decreases v, 1
  {
    match v
    case Str(s) =>
      ReadQuoted(s, t);
    case Num(Finite(token)) => ReadNumber(token, t);
    case Arr(items) =>
      if items == [] {
        ReadEmpty(t);
      } else {
        ReadCanonicalItems(items, t);
        FirstUnit(items[0]);
        assert Join(CanonicalItems(items), COMMA)[0] == Canonicalize(items[0])[0];
        ReadArray(Join(CanonicalItems(items), COMMA), NormItems(items), t);
      }
    case Obj(ms) => ReadCanonicalObject(ms, t);
    case _ => ReadWord(v, t);
  }

  lemma {:induction false} ReadCanonicalObject(ms: seq<Member>, t: Text)
    requires WellFormed(Obj(ms)) && Delimited(t)
    ensures ReadValue(Canonicalize(Obj(ms)) + t) == Some((Norm(Obj(ms)), t))
    decreases ms, 2
  {
    var keys := SortKeys(Keys(ms));
    if keys == [] {
      ReadEmpty(t);
    } else {
      ReadCanonicalMembers(keys, ms, t);
      assert CanonicalMembers(keys, ms)[0][0] == QUOTE;
      ReadObject(Join(CanonicalMembers(keys, ms), COMMA), NormMembers(keys, ms), t);
    }
  }

  lemma {:induction false} ReadNumber(token: Text, t: Text)
    requires NumberToken(token) && Delimited(t)
    ensures ReadValue(token + t) == Some((Num(Finite(token)), t))
  {
    NumberRunOfToken(token, t);
    assert (token + t)[..|token|] == token && (token + t)[|token|..] == t;
    assert (token + t)[0] == token[0];
  }

  lemma {:induction false} ReadWord(v: Json, t: Text)
    requires v.Null? || v.Bool? || (v.Num? && !v.n.Finite?)
    requires Delimited(t)
    ensures ReadValue(Canonicalize(v) + t) == Some((Norm(v), t))
  {
    var c := Canonicalize(v);
    assert (c + t)[..|c|] == c && (c + t)[|c|..] == t;
    if v.Num? && v.n.MinusZero? { NumberRunOfToken(c, t); }
  }

  lemma {:induction false} ReadEmpty(t: Text)
    ensures ReadValue([LEFT_BRACKET] + [] + [RIGHT_BRACKET] + t) == Some((Arr([]), t))
    ensures ReadValue([LEFT_BRACE] + [] + [RIGHT_BRACE] + t) == Some((Obj([]), t))
  {
    assert ([LEFT_BRACKET] + [] + [RIGHT_BRACKET] + t)[2..] == t;
    assert ([LEFT_BRACE] + [] + [RIGHT_BRACE] + t)[2..] == t;
  }

  lemma {:induction false} ReadArray(body: Text, xs: seq<Json>, t: Text)
    requires body != [] && body[0] != RIGHT_BRACKET
    requires ReadItems(body + ([RIGHT_BRACKET] + t)) == Some((xs, t))
    ensures ReadValue([LEFT_BRACKET] + body + [RIGHT_BRACKET] + t) == Some((Arr(xs), t))
  {
    var text := [LEFT_BRACKET] + body + [RIGHT_BRACKET] + t;
    assert text[1..] == body + ([RIGHT_BRACKET] + t);
    assert text[0] == LEFT_BRACKET && text[1] == body[0];
  }

  lemma {:induction false} ReadObject(body: Text, ms: seq<Member>, t: Text)
    requires body != [] && body[0] == QUOTE
    requires ReadMembers(body + ([RIGHT_BRACE] + t)) == Some((ms, t))
    ensures ReadValue([LEFT_BRACE] + body + [RIGHT_BRACE] + t) == Some((Obj(ms), t))
  {
    var text := [LEFT_BRACE] + body + [RIGHT_BRACE] + t;
    assert text[1..] == body + ([RIGHT_BRACE] + t);
    assert text[0] == LEFT_BRACE && text[1] == body[0];
  }

  lemma {:induction false} JoinMore(part: Text, parts: seq<Text>, end: Text)
    requires parts != []
    ensures Join([part] + parts, COMMA) + end == part + ([COMMA] + (Join(parts, COMMA) + end))
  {
    assert ([part] + parts)[1..] == parts;
  }

  lemma {:induction false} ReadLastItem(c: Text, x: Json, t: Text)
    requires ReadValue(c + ([RIGHT_BRACKET] + t)) == Some((x, [RIGHT_BRACKET] + t))
    ensures ReadItems(c + ([RIGHT_BRACKET] + t)) == Some(([x], t))
  {
    assert ([RIGHT_BRACKET] + t)[1..] == t;
  }

  lemma {:induction false} ReadFirstItem(c: Text, x: Json, xs: seq<Json>, t: Text, end: Text)
    requires ReadValue(c + ([COMMA] + t)) == Some((x, [COMMA] + t)) && ReadItems(t) == Some((xs, end))
    ensures ReadItems(c + ([COMMA] + t)) == Some(([x] + xs, end))
  {
    assert ([COMMA] + t)[1..] == t;
  }

  lemma {:induction false} ReadCanonicalItems(items: seq<Json>, t: Text)
    requires items != [] && forall x | x in items :: WellFormed(x)
    ensures ReadItems(Join(CanonicalItems(items), COMMA) + ([RIGHT_BRACKET] + t)) == Some((NormItems(items), t))
    decreases items, 0
  {
    var c, x, more, end := Canonicalize(items[0]), Norm(items[0]), items[1..], [RIGHT_BRACKET] + t;
    if more == [] {
      ReadCanonical(items[0], end);
      ReadLastItem(c, x, t);
      assert CanonicalItems(items) == [c] && NormItems(items) == [x];
    } else {
      var rest := Join(CanonicalItems(more), COMMA) + end;
      ReadCanonical(items[0], [COMMA] + rest);
      ReadCanonicalItems(more, t);
      ReadFirstItem(c, x, NormItems(more), rest, t);
      JoinMore(c, CanonicalItems(more), end);
    }
  }

  lemma {:induction false} ReadKeyThenValue(k: Text, t: Text)
    requires ReadValue(t).Some?
    ensures ReadMember(Quote(k) + [COLON] + t) == Some((Member(k, ReadValue(t).value.0), ReadValue(t).value.1))
  {
    var text, tail := Quote(k) + [COLON] + t, [COLON] + t;
    ReadQuoted(k, tail);
    assert text == Quote(k) + tail && tail[1..] == t;
  }

  lemma {:induction false} ReadCanonicalMember(k: Text, ms: seq<Member>, t: Text)
    requires k in Keys(ms) && (forall m | m in ms :: WellFormed(m.value)) && Delimited(t)
    ensures var x := Lookup(ms, k).value;
            ReadMember(Quote(k) + [COLON] + Canonicalize(x) + t) == Some((Member(k, Norm(x)), t))
    decreases ms, 0
  {
    var x := Lookup(ms, k).value;
    ReadCanonical(x, t);
    ReadKeyThenValue(k, Canonicalize(x) + t);
    assert Quote(k) + [COLON] + Canonicalize(x) + t == Quote(k) + [COLON] + (Canonicalize(x) + t);
  }

  lemma {:induction false} ReadLastMember(c: Text, m: Member, t: Text)
    requires ReadMember(c + ([RIGHT_BRACE] + t)) == Some((m, [RIGHT_BRACE] + t))
    ensures ReadMembers(c + ([RIGHT_BRACE] + t)) == Some(([m], t))
  {
    assert ([RIGHT_BRACE] + t)[1..] == t;
  }

  lemma {:induction false} ReadFirstMember(c: Text, m: Member, ms: seq<Member>, t: Text, end: Text)
    requires ReadMember(c + ([COMMA] + t)) == Some((m, [COMMA] + t)) && ReadMembers(t) == Some((ms, end))
    ensures ReadMembers(c + ([COMMA] + t)) == Some(([m] + ms, end))
  {
    assert ([COMMA] + t)[1..] == t;
  }

  lemma {:induction false} ReadCanonicalMembers(keys: seq<Text>, ms: seq<Member>, t: Text)
    requires keys != [] && (forall k :: k in keys ==> k in Keys(ms))
    requires forall m | m in ms :: WellFormed(m.value)
    ensures ReadMembers(Join(CanonicalMembers(keys, ms), COMMA) + ([RIGHT_BRACE] + t))
            == Some((NormMembers(keys, ms), t))
    decreases ms, 1, |keys|
  {
    var x, more, end := Lookup(ms, keys[0]).value, keys[1..], [RIGHT_BRACE] + t;
    var c, m := Quote(keys[0]) + [COLON] + Canonicalize(x), Member(keys[0], Norm(x));
    NormMembersCons(keys, ms);
    if more == [] {
      ReadCanonicalMember(keys[0], ms, end);
      ReadLastMember(c, m, t);
      assert CanonicalMembers(keys, ms) == [c] && NormMembers(more, ms) == [] && [m] + [] == [m];
    } else {
      var rest := Join(CanonicalMembers(more, ms), COMMA) + end;
      ReadCanonicalMember(keys[0], ms, [COMMA] + rest);
      ReadCanonicalMembers(more, ms, t);
      ReadFirstMember(c, m, NormMembers(more, ms), rest, t);
      JoinMore(c, CanonicalMembers(more, ms), end);
    }
  }

  // ---------------------------------------------------------------- main results

  /**
   Canonical texts form a prefix code: two of them, each followed by nothing or by a
   delimiter, agree only if the values and the remainders agree.
   */
  lemma PrefixCode(a: Json, b: Json, ta: Text, tb: Text)
    requires WellFormed(a) && WellFormed(b) && Delimited(ta) && Delimited(tb)
    ensures Canonicalize(a) + ta == Canonicalize(b) + tb <==> SameValue(a, b) && ta == tb
  {
    ReadCanonical(a, ta);
    ReadCanonical(b, tb);
    SameNorm(a, b);
    if SameValue(a, b) { CanonicalByNorm(a, b); }
  }

  /** Values with the same normal form print alike. */
  lemma {:induction false} CanonicalByNorm(a: Json, b: Json)
    requires WellFormed(a) && WellFormed(b) && Norm(a) == Norm(b)
    ensures Canonicalize(a) == Canonicalize(b)
    decreases a, 1
  {
    match a
    case Arr(xs) =>
      assert b.Arr?;
      CanonicalItemsByNorm(xs, b.items);
    case Obj(ms) =>
      assert b.Obj?;
      var ka, kb := SortKeys(Keys(ms)), SortKeys(Keys(b.members));
      NormMembersKeys(ka, kb, ms, b.members);
      CanonicalMembersByNorm(ka, ms, b.members);
    case _ =>
  }

  lemma {:induction false} CanonicalItemsByNorm(xs: seq<Json>, ys: seq<Json>)
    requires (forall x | x in xs :: WellFormed(x)) && (forall y | y in ys :: WellFormed(y))
    requires NormItems(xs) == NormItems(ys)
    ensures CanonicalItems(xs) == CanonicalItems(ys)
    decreases xs, 0
  {
    assert |xs| == |ys|;
    if xs != [] {
      assert NormItems(xs)[0] == NormItems(ys)[0];
      CanonicalByNorm(xs[0], ys[0]);
      assert NormItems(xs[1..]) == NormItems(xs)[1..] == NormItems(ys)[1..] == NormItems(ys[1..]);
      CanonicalItemsByNorm(xs[1..], ys[1..]);
    }
  }

  lemma {:induction false} CanonicalMembersByNorm(keys: seq<Text>, ms: seq<Member>, ns: seq<Member>)
    requires forall k :: k in keys ==> k in Keys(ms) && k in Keys(ns)
    requires (forall m | m in ms :: WellFormed(m.value)) && (forall n | n in ns :: WellFormed(n.value))
    requires NormMembers(keys, ms) == NormMembers(keys, ns)
    ensures CanonicalMembers(keys, ms) == CanonicalMembers(keys, ns)
    decreases ms, 0, |keys|
  {
    if keys != [] {
      assert NormMembers(keys, ms)[0] == NormMembers(keys, ns)[0];
      CanonicalByNorm(Lookup(ms, keys[0]).value, Lookup(ns, keys[0]).value);
      assert NormMembers(keys[1..], ms) == NormMembers(keys, ms)[1..]
          == NormMembers(keys, ns)[1..] == NormMembers(keys[1..], ns);
      CanonicalMembersByNorm(keys[1..], ms, ns);
    }
  }

  /** The signed text determines the value, and nothing but the value determines the text. */
  lemma CanonicalInjective(a: Json, b: Json)
    requires WellFormed(a) && WellFormed(b)
    ensures Canonicalize(a) == Canonicalize(b) <==> SameValue(a, b)
  {
    PrefixCode(a, b, [], []);
    assert Canonicalize(a) + [] == Canonicalize(a) && Canonicalize(b) + [] == Canonicalize(b);
  }

  /** A text of ASCII characters, in code units. */
  function Ascii(s: string): (t: Text)
    requires forall k :: 0 <= k < |s| ==> s[k] < 128 as char
    ensures |t| == |s| && forall k :: 0 <= k < |s| ==> t[k] == s[k] as int
  {
    seq(|s|, k requires 0 <= k < |s| => s[k] as int)
  }

  lemma AsciiMarks()
    ensures Ascii("{") == [LEFT_BRACE] && Ascii("}") == [RIGHT_BRACE] && Ascii("[") == [LEFT_BRACKET] && Ascii("]") == [RIGHT_BRACKET]
    ensures Ascii(",") == [COMMA] && Ascii(":") == [COLON] && Ascii("\"") == [QUOTE]
  {
  }

  /** The words of JSON. */
  lemma WordsLookLikeJson()
    ensures Canonicalize(Null) == Ascii("null") && Canonicalize(Bool(true)) == Ascii("true") && Canonicalize(Bool(false)) == Ascii("false")
  {
    assert Ascii("null") == NULL_WORD && Ascii("true") == TRUE_WORD && Ascii("false") == FALSE_WORD;
  }

  /** Brackets and separators of JSON, no whitespace, and members in key order. */
  lemma ListsLookLikeJson(x: Json, y: Json, j: Text, k: Text)
    requires Less(j, k)
    ensures Canonicalize(Str(j)) == Ascii("\"") + Escape(j) + Ascii("\"")
    ensures Canonicalize(Arr([x, y])) == Ascii("[") + (Canonicalize(x) + Ascii(",") + Canonicalize(y)) + Ascii("]")
    ensures Canonicalize(Obj([Member(k, y), Member(j, x)]))
            == Ascii("{") + ((Canonicalize(Str(j)) + Ascii(":") + Canonicalize(x)) + Ascii(",")
                             + (Canonicalize(Str(k)) + Ascii(":") + Canonicalize(y))) + Ascii("}")
  {
    AsciiMarks();
    ArrayOfTwo(x, y);
    ObjectOfTwo(j, k, x, y);
    assert Canonicalize(Str(j)) == Quote(j) && Canonicalize(Str(k)) == Quote(k);
  }

  lemma ArrayOfTwo(x: Json, y: Json)
    ensures Canonicalize(Arr([x, y])) == [LEFT_BRACKET] + (Canonicalize(x) + [COMMA] + Canonicalize(y)) + [RIGHT_BRACKET]
  {
    TwoItems(x, y);
  }

  lemma ObjectOfTwo(j: Text, k: Text, x: Json, y: Json)
    requires Less(j, k)
    ensures Canonicalize(Obj([Member(k, y), Member(j, x)]))
            == [LEFT_BRACE] + ((Quote(j) + [COLON] + Canonicalize(x)) + [COMMA] + (Quote(k) + [COLON] + Canonicalize(y))) + [RIGHT_BRACE]
  {
    TwoMembers(j, k, x, y);
  }

  lemma JoinTwo(a: Text, b: Text)
    ensures Join([a, b], COMMA) == a + [COMMA] + b
  {
    assert [a, b][1..] == [b];
  }

  lemma TwoItems(x: Json, y: Json)
    ensures Join(CanonicalItems([x, y]), COMMA) == Canonicalize(x) + [COMMA] + Canonicalize(y)
  {
    assert [x, y][1..] == [y] && [y][1..] == [];
    assert CanonicalItems([x, y]) == [Canonicalize(x), Canonicalize(y)];
    JoinTwo(Canonicalize(x), Canonicalize(y));
  }

  lemma TwoMembers(j: Text, k: Text, x: Json, y: Json)
    requires Less(j, k)
    ensures var ms := [Member(k, y), Member(j, x)];
            Join(CanonicalMembers(SortKeys(Keys(ms)), ms), COMMA)
            == (Quote(j) + [COLON] + Canonicalize(x)) + [COMMA] + (Quote(k) + [COLON] + Canonicalize(y))
  {
    var ms := [Member(k, y), Member(j, x)];
    LessTotal(j, k);
    KeysOfTwo(j, k, x, y);
    MembersOfTwo(j, k, x, y);
    JoinTwo(Quote(j) + [COLON] + Canonicalize(x), Quote(k) + [COLON] + Canonicalize(y));
  }

  lemma KeysOfTwo(j: Text, k: Text, x: Json, y: Json)
    requires Less(j, k)
    ensures SortKeys(Keys([Member(k, y), Member(j, x)])) == [j, k]
  {
    var keys := Keys([Member(k, y), Member(j, x)]);
    assert keys == [k, j];
    LessTotal(j, k);
    AscendingUnique(SortKeys(keys), [j, k]);
  }

  lemma MembersOfTwo(j: Text, k: Text, x: Json, y: Json)
    requires j != k
    ensures var ms := [Member(k, y), Member(j, x)];
            && j in Keys(ms) && k in Keys(ms)
            && CanonicalMembers([j, k], ms) == [Quote(j) + [COLON] + Canonicalize(x), Quote(k) + [COLON] + Canonicalize(y)]
  {
    var ms := [Member(k, y), Member(j, x)];
    assert Keys(ms) == [k, j] by { assert ms[1..] == [Member(j, x)]; }
    assert ms[1..] == [Member(j, x)];
    assert Lookup(ms, j) == Member(j, x) && Lookup(ms, k) == Member(k, y);
    assert [j, k][1..] == [k] && [k][1..] == [];
  }

  /** Why `SameValue` reads numbers by `Plain`: these different values share a text. */
  lemma NumbersThatCollide()
    ensures Num(MinusZero) != Num(Finite([ZERO]))
            && Canonicalize(Num(MinusZero)) == Canonicalize(Num(Finite([ZERO])))
    ensures Canonicalize(Arr([Num(Infinite(true))])) == Canonicalize(Arr([Null]))
            && Canonicalize(Arr([Num(Infinite(false))])) == Canonicalize(Arr([Null]))
  {
    assert CanonicalItems([Null]) == [NULL_WORD];
    forall sign ensures CanonicalItems([Num(Infinite(sign))]) == [NULL_WORD] {
      assert [Num(Infinite(sign))][1..] == [];
    }
  }

  lemma NormLookup(keys: seq<Text>, ms: seq<Member>, k: Text)
    requires forall x :: x in keys ==> x in Keys(ms)
    ensures k in Keys(NormMembers(keys, ms)) <==> k in keys
    ensures k in keys ==> Lookup(NormMembers(keys, ms), k).value == Norm(Lookup(ms, k).value)
  {
    var r := NormMembers(keys, ms);
    assert forall i :: 0 <= i < |keys| ==> Keys(r)[i] == keys[i];
    if k in keys {
      var j :| 0 <= j < |keys| && keys[j] == k;
      assert Keys(r)[j] == k;
    }
  }

  /** A value and its normal form are the same value. */
  lemma {:induction false} NormIsSame(v: Json)
    ensures SameValue(v, Norm(v))
    decreases v, 1
  {
    match v
    case Arr(items) =>
      forall i | 0 <= i < |items| ensures SameValue(items[i], NormItems(items)[i]) { NormIsSame(items[i]); }
    case Obj(ms) => NormMembersSame(ms);
    case _ =>
  }

  lemma {:induction false} NormMembersSame(ms: seq<Member>)
    ensures SameValue(Obj(ms), Norm(Obj(ms)))
    decreases ms, 0
  {
    var keys := SortKeys(Keys(ms));
    forall k ensures k in Keys(ms) <==> k in Keys(NormMembers(keys, ms)) { NormLookup(keys, ms, k); }
    forall k | k in Keys(ms) ensures SameValue(Lookup(ms, k).value, Lookup(NormMembers(keys, ms), k).value) {
      NormLookup(keys, ms, k);
      NormIsSame(Lookup(ms, k).value);
    }
  }

  /** Reading the whole text succeeds, consumes it and yields a value equal to the printed one. */
  lemma CanonicalRoundTrip(v: Json)
    requires WellFormed(v)
    ensures ReadValue(Canonicalize(v)) == Some((Norm(v), [])) && SameValue(v, Norm(v))
  {
    ReadCanonical(v, []);
    NormIsSame(v);
    assert Canonicalize(v) + [] == Canonicalize(v);
  }
}
