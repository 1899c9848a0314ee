/**
 CIDR membership of server/auth/cidr-utils.ts: address text to bytes, byte-wise masking,
 and the verdict. The text parsers are proved against the notation of sections 2.2 and
 2.5.5.2 of RFC 4291, the masks against prefix arithmetic (section 3.1 of RFC 4632).
 */
module Cidr {
  import opened Numerals
  import opened Octets
  import opened Splitting
  import opened Wrappers

  datatype Kind = V4 | V6

  datatype Range = Range(kind: Kind, bytes: Bytes, prefixLen: int)

  datatype CidrError = BadPrefix | PrefixTooLong | Unparseable

  // ---------------------------------------------------------------- dotted quads

  function Octet(p: string): Option<Byte> {
    if 1 <= |p| <= 3 && AllDigits(p) && ValueIn(p, 10) <= 255 then Some(ValueIn(p, 10)) else None
  }

  function V4Of(ip: string): (r: Option<Bytes>)
    ensures r.Some? ==> |r.value| == 4
  {
    var p := Split(ip, '.');
    if |p| == 4 && forall i :: 0 <= i < 4 ==> Octet(p[i]).Some? then
      Some([Octet(p[0]).value, Octet(p[1]).value, Octet(p[2]).value, Octet(p[3]).value])
    else None
  }

  method ParseIPv4Bytes(ip: string) returns (r: Option<Bytes>)
    ensures r == V4Of(ip)
  {
    var parts := Split(ip, '.');
    if |parts| != 4 { return None; }
    var out := new Byte[4](_ => 0);
    for i := 0 to 4
      invariant forall k :: 0 <= k < i ==> Octet(parts[k]) == Some(out[k])
    {
      var p := parts[i];
      if !(1 <= |p| <= 3 && AllDigits(p)) {
        NoOctet(ip, i);
        return None;
      }
      var n := ValueIn(p, 10);
      if n > 255 {
        NoOctet(ip, i);
        return None;
      }
      out[i] := n;
    }
    FourOctets(ip, out[..]);
    r := Some(out[..]);
  }

  lemma NoOctet(ip: string, i: nat)
    requires i < 4 && |Split(ip, '.')| == 4 && Octet(Split(ip, '.')[i]).None?
    ensures V4Of(ip) == None
  {
  }

  lemma FourOctets(ip: string, b: Bytes)
    requires |b| == 4 == |Split(ip, '.')| && forall k :: 0 <= k < 4 ==> Octet(Split(ip, '.')[k]) == Some(b[k])
    ensures V4Of(ip) == Some(b)
  {
    assert b == [b[0], b[1], b[2], b[3]];
  }

  /** `a.b.c.d`. */
  function Dotted(b: Bytes): string
    requires |b| == 4
  {
    Join([TextIn(b[0], 10), TextIn(b[1], 10), TextIn(b[2], 10), TextIn(b[3], 10)], '.')
  }

  lemma OctetOfText(b: Byte)
    ensures Octet(TextIn(b, 10)) == Some(b) && '.' !in TextIn(b, 10)
  {
    var text := TextIn(b, 10);
    TextLength(b);
    TextIsDigits(b, 10);
    ValueOfText(b, 10);
    OctetOfDigits(text);
  }

  lemma OctetOfDigits(p: string)
    requires 1 <= |p| <= 3 && AllDigits(p) && ValueIn(p, 10) <= 255
    ensures Octet(p) == Some(ValueIn(p, 10)) && '.' !in p
  {
  }

  /** Printing a quad and parsing it gives its bytes back. */
  lemma V4RoundTrip(b: Bytes)
    requires |b| == 4
    ensures V4Of(Dotted(b)) == Some(b)
  {
    var parts := [TextIn(b[0], 10), TextIn(b[1], 10), TextIn(b[2], 10), TextIn(b[3], 10)];
    OctetOfText(b[0]);
    OctetOfText(b[1]);
    OctetOfText(b[2]);
    OctetOfText(b[3]);
    SplitOfJoin(parts, '.');
    assert forall i :: 0 <= i < 4 ==> Octet(parts[i]) == Some(b[i]);
    assert b == [b[0], b[1], b[2], b[3]];
  }

  // ---------------------------------------------------------------- IPv6 text

  predicate AddressChar(c: char) { IsHexDigit(c) || c == ':' || c == '.' }

  predicate AddressChars(s: string) { forall i :: 0 <= i < |s| ==> AddressChar(s[i]) }

  function LastIndexOf(s: string, c: char): (i: int)
    ensures -1 <= i < |s|
    ensures i >= 0 ==> s[i] == c
    ensures forall k :: i < k < |s| ==> s[k] != c
  {
    if s == [] then -1
    else if s[|s| - 1] == c then |s| - 1
    else LastIndexOf(s[..|s| - 1], c)
  }

  predicate DoubleAt(s: string, i: int) { 0 <= i < |s| - 1 && s[i] == ':' && s[i + 1] == ':' }

  /** `s.indexOf("::")`. */
  function IndexOfDouble(s: string): (i: int)
    ensures i == -1 || DoubleAt(s, i)
    ensures forall k :: DoubleAt(s, k) ==> 0 <= i <= k
  {
    if |s| < 2 then -1
    else if DoubleAt(s, 0) then 0
    else
      var i := IndexOfDouble(s[1..]);
      assert forall k :: DoubleAt(s, k) ==> k >= 1 && DoubleAt(s[1..], k - 1);
      if i == -1 then -1 else i + 1
  }

  /** `(hi << 8) | lo` for two bytes. */
  function Word(hi: int, lo: int): nat
    requires 0 <= hi < 256 && 0 <= lo < 256
  {
    hi * 256 + lo
  }

  /** The two 16-bit groups that replace a dotted quad. */
  function QuadGroups(b: Bytes): seq<string>
    requires |b| == 4
  {
    [TextIn(Word(b[0], b[1]), 16), TextIn(Word(b[2], b[3]), 16)]
  }

  function TranslateQuad(ip: string): Option<string> {
    var last := LastIndexOf(ip, ':');
    if last == -1 || '.' !in ip[last..] then Some(ip)
    else
      match V4Of(ip[last + 1..])
      case None => None
      case Some(b) => Some(ip[..last + 1] + QuadGroups(b)[0] + ":" + QuadGroups(b)[1])
  }

  function Zeros(n: nat): (z: seq<string>)
    ensures |z| == n && forall k :: 0 <= k < n ==> z[k] == "0"
  {
    seq(n, _ => "0")
  }

  function PartsOf(s: string): seq<string> { if s == "" then [] else Split(s, ':') }

  function GroupsOf(work: string): Option<seq<string>> {
    var d := IndexOfDouble(work);
    if d == -1 then Some(Split(work, ':'))
    else
      var left, right := PartsOf(work[..d]), PartsOf(work[d + 2..]);
      var missing := 8 - |left| - |right|;
      if missing < 0 then None else Some(left + Zeros(missing) + right)
  }

  predicate IsGroup(g: string) { 1 <= |g| <= 4 && AllHex(g) }

  predicate AllGroups(gs: seq<string>) { forall k :: 0 <= k < |gs| ==> IsGroup(gs[k]) }

  function GroupValue(g: string): (v: nat)
    requires IsGroup(g)
    ensures v < 0x1_0000
  {
    ValueBound(g);
    ValueIn(g, 16)
  }

  function BytesOf(groups: seq<string>): (b: Bytes)
    requires AllGroups(groups)
    ensures |b| == 2 * |groups|
  {
    if groups == [] then []
    else
      var init, v := groups[..|groups| - 1], GroupValue(groups[|groups| - 1]);
      BytesOf(init) + [v / 256, v % 256]
  }

  function GroupBytes(groups: seq<string>): (r: Option<Bytes>)
    ensures r.Some? ==> |r.value| == 16
  {
    if |groups| == 8 && AllGroups(groups) then Some(BytesOf(groups)) else None
  }

  function V6Of(ip: string): (r: Option<Bytes>)
    ensures r.Some? ==> |r.value| == 16
  {
    if ip == "" || !AddressChars(ip) then None
    else
      match TranslateQuad(ip)
      case None => None
      case Some(work) => match GroupsOf(work) case None => None case Some(groups) => GroupBytes(groups)
  }

  method ParseIPv6Bytes(ip: string) returns (r: Option<Bytes>)
    ensures r == V6Of(ip)
  {
    if ip == "" || !AddressChars(ip) { return None; }
    var work := ReplaceQuad(ip);
    if work.None? { return None; }
    var groups := ExpandDouble(work.value);
    if groups.None? { return None; }
    r := FillGroups(groups.value);
  }

  /** Lines 45-57 of the source. */
  method ReplaceQuad(ip: string) returns (work: Option<string>)
    ensures work == TranslateQuad(ip)
  {
    var lastColon := LastIndexOf(ip, ':');
    if lastColon == -1 || '.' !in ip[lastColon..] { return Some(ip); }
    var v4 := ParseIPv4Bytes(ip[lastColon + 1..]);
    if v4.None? { return None; }
    var hi := Word(v4.value[0], v4.value[1]);
    var lo := Word(v4.value[2], v4.value[3]);
    work := Some(ip[..lastColon + 1] + TextIn(hi, 16) + ":" + TextIn(lo, 16));
  }

  /** Lines 59-75 of the source. */
  method ExpandDouble(work: string) returns (groups: Option<seq<string>>)
    ensures groups == GroupsOf(work)
  {
    var dblIdx := IndexOfDouble(work);
    if dblIdx == -1 { return Some(Split(work, ':')); }
    var left, right := work[..dblIdx], work[dblIdx + 2..];
    var lParts := if left == "" then [] else Split(left, ':');
    var rParts := if right == "" then [] else Split(right, ':');
    var missing := 8 - |lParts| - |rParts|;
    if missing < 0 { return None; }
    groups := Some(lParts + Zeros(missing) + rParts);
  }

  /** Lines 76-87 of the source. */
  method FillGroups(groups: seq<string>) returns (r: Option<Bytes>)
    ensures r == GroupBytes(groups)
  {
    if |groups| != 8 { return None; }
    var out := new Byte[16](_ => 0);
    for i := 0 to 8
      invariant forall k :: 0 <= k < i ==> IsGroup(groups[k])
      invariant out[..2 * i] == BytesOf(groups[..i])
    {
      var g := groups[i];
      if |g| == 0 || |g| > 4 || !AllHex(g) { return None; }
      var v := GroupValue(g);
      out[i * 2] := v / 256;
      out[i * 2 + 1] := v % 256;
      assert groups[..i + 1][..i] == groups[..i];
      assert out[..2 * (i + 1)] == out[..2 * i] + [v / 256, v % 256];
    }
    assert groups[..8] == groups && out[..16] == out[..];
    r := Some(out[..]);
  }

  // ---------------------------------------------------------------- what the notation means

  lemma {:induction false} JoinOfGroups(gs: seq<string>)
    requires AllGroups(gs)
    ensures var s := Join(gs, ':');
            && (s == "" <==> gs == [])
            && (s != "" ==> s[0] != ':' && s[|s| - 1] != ':')
            && (forall k :: 0 <= k < |s| ==> s[k] != '.' && AddressChar(s[k]))
            && (forall k :: !DoubleAt(s, k))
            && PartsOf(s) == gs
  {
    var s := Join(gs, ':');
    if gs != [] {
      if |gs| > 1 {
        JoinOfGroups(gs[1..]);
        var t := Join(gs[1..], ':');
        assert s == gs[0] + ":" + t;
        forall k ensures !DoubleAt(s, k) {
          if |gs[0]| < k < |s| - 1 { assert !DoubleAt(t, k - |gs[0]| - 1); }
        }
      }
      SplitOfJoin(gs, ':');
    }
  }

  /** A text without a dot is not translated. */
  lemma WithoutQuad(ip: string, groups: seq<string>)
    requires ip != "" && AddressChars(ip) && '.' !in ip && GroupsOf(ip) == Some(groups)
    ensures V6Of(ip) == GroupBytes(groups)
  {
    assert TranslateQuad(ip) == Some(ip);
  }

  lemma FullGroups(gs: seq<string>)
    requires |gs| == 8 && AllGroups(gs)
    ensures V6Of(Join(gs, ':')) == Some(BytesOf(gs))
  {
    JoinOfGroups(gs);
    WithoutQuad(Join(gs, ':'), gs);
  }

  lemma DoubleBetween(l: string, r: string)
    requires l != "" ==> l[|l| - 1] != ':'
    requires forall k :: !DoubleAt(l, k)
    ensures IndexOfDouble(l + "::" + r) == |l|
    ensures (l + "::" + r)[..|l|] == l && (l + "::" + r)[|l| + 2..] == r
  {
    var s := l + "::" + r;
    assert DoubleAt(s, |l|);
    forall k | 0 <= k < |l| ensures !DoubleAt(s, k) {
      if k < |l| - 1 { assert !DoubleAt(l, k); }
    }
  }

  lemma {:induction false} ZeroBytes(gs: seq<string>, hs: seq<string>)
    requires |gs| == |hs|
    requires forall k :: 0 <= k < |gs| ==> IsGroup(gs[k]) && IsGroup(hs[k]) && GroupValue(gs[k]) == GroupValue(hs[k])
    ensures BytesOf(gs) == BytesOf(hs)
  {
    if gs != [] { ZeroBytes(gs[..|gs| - 1], hs[..|hs| - 1]); }
  }

  /**
   `::` for any run of zero groups, empty or not, means the full address; every group may
   be written in any way the notation allows.
   */
  lemma CompressedAddress(left: seq<string>, zeros: seq<string>, right: seq<string>)
    requires |left| + |zeros| + |right| == 8
    requires AllGroups(left) && AllGroups(zeros) && AllGroups(right)
    requires forall k :: 0 <= k < |zeros| ==> GroupValue(zeros[k]) == 0
    ensures var gs := left + zeros + right;
            && AllGroups(gs)
            && V6Of(Join(left, ':') + "::" + Join(right, ':')) == V6Of(Join(gs, ':')) == Some(BytesOf(gs))
  {
    SameBytes(left, zeros, right);
    FullGroups(left + zeros + right);
    CompressedGroups(left, right, |zeros|);
  }

  lemma GroupsBetween(l: string, r: string, missing: nat)
    requires (l != "" ==> l[|l| - 1] != ':') && forall k :: !DoubleAt(l, k)
    requires |PartsOf(l)| + missing + |PartsOf(r)| == 8
    ensures GroupsOf(l + "::" + r) == Some(PartsOf(l) + Zeros(missing) + PartsOf(r))
  {
    DoubleBetween(l, r);
  }

  lemma CharsBetween(l: string, r: string)
    requires AddressChars(l) && AddressChars(r) && '.' !in l && '.' !in r
    ensures AddressChars(l + "::" + r) && '.' !in l + "::" + r
  {
    CharsOfBoth(l + "::", r);
    CharsOfBoth(l, "::");
  }

  lemma CompressedGroups(left: seq<string>, right: seq<string>, n: nat)
    requires |left| + n + |right| == 8
    requires AllGroups(left) && AllGroups(right)
    ensures V6Of(Join(left, ':') + "::" + Join(right, ':')) == GroupBytes(left + Zeros(n) + right)
  {
    var l, r := Join(left, ':'), Join(right, ':');
    JoinOfGroups(left);
    JoinOfGroups(right);
    GroupsBetween(l, r, n);
    CharsBetween(l, r);
    WithoutQuad(l + "::" + r, left + Zeros(n) + right);
  }

  lemma ZeroGroup()
    ensures IsGroup("0") && GroupValue("0") == 0
  {
    assert "0"[..0] == "";
  }

  lemma {:induction false} BytesConcat(a: seq<string>, b: seq<string>)
    requires AllGroups(a) && AllGroups(b)
    ensures AllGroups(a + b) && BytesOf(a + b) == BytesOf(a) + BytesOf(b)
    decreases |b|
  {
    if b == [] {
      ConcatFacts(a, [], []);
      ConcatFacts(BytesOf(a), [], []);
    } else {
      BytesConcat(a, b[..|b| - 1]);
      BytesConcatSnoc(a, b[..|b| - 1], b[|b| - 1]);
      assert b[..|b| - 1] + [b[|b| - 1]] == b;
    }
  }

  lemma BytesConcatSnoc(a: seq<string>, b: seq<string>, g: string)
    requires AllGroups(a) && AllGroups(b) && IsGroup(g) && AllGroups(a + b) && BytesOf(a + b) == BytesOf(a) + BytesOf(b)
    ensures AllGroups(b + [g]) && AllGroups(a + (b + [g]))
    ensures BytesOf(a + (b + [g])) == BytesOf(a) + BytesOf(b + [g])
  {
    var last := [GroupValue(g) / 256, GroupValue(g) % 256];
    BytesSnoc(b, g);
    BytesSnoc(a + b, g);
    ConcatFacts(a, b, [g]);
    ConcatFacts(BytesOf(a), BytesOf(b), last);
  }

  lemma SameBytes(left: seq<string>, zeros: seq<string>, right: seq<string>)
    requires |left| + |zeros| + |right| == 8
    requires AllGroups(left) && AllGroups(zeros) && AllGroups(right)
    requires forall k :: 0 <= k < |zeros| ==> GroupValue(zeros[k]) == 0
    ensures AllGroups(left + zeros + right)
    ensures GroupBytes(left + Zeros(|zeros|) + right) == Some(BytesOf(left + zeros + right))
  {
    var zs := Zeros(|zeros|);
    ZeroGroup();
    ZeroBytes(zeros, zs);
    BytesConcat(left, zeros);
    BytesConcat(left, zs);
    BytesConcat(left + zeros, right);
    BytesConcat(left + zs, right);
  }

  /** A quad after the last colon means the two groups of its bytes. */
  lemma QuadTail(p: string, quad: string)
    requires V4Of(quad).Some?
    ensures V6Of(p + ":" + quad) == V6Of(p + ":" + Join(QuadGroups(V4Of(quad).value), ':'))
  {
    var q := QuadGroups(V4Of(quad).value);
    var text, work := p + ":" + quad, p + ":" + Join(q, ':');
    QuadChars(quad);
    QuadGroupsHex(V4Of(quad).value);
    TranslateText(p, quad);
    TranslateGroups(p, q[0], q[1]);
    assert Join(q, ':') == q[0] + ":" + q[1] by { assert q[1..] == [q[1]]; }
    CharsOfBoth(p + ":", quad);
    CharsOfBoth(p + ":", Join(q, ':'));
  }

  lemma TranslateText(p: string, quad: string)
    requires V4Of(quad).Some? && ':' !in quad && '.' in quad
    ensures var q := QuadGroups(V4Of(quad).value);
            TranslateQuad(p + ":" + quad) == Some(p + ":" + (q[0] + ":" + q[1]))
  {
    var q := QuadGroups(V4Of(quad).value);
    var text := p + ":" + quad;
    LastIs(p, ':', quad);
    assert text[|p|..] == ":" + quad && text[|p| + 1..] == quad && text[..|p| + 1] == p + ":";
    ConcatFacts(p + ":", q[0], ":" + q[1]);
    ConcatFacts(p + ":" + q[0], ":", q[1]);
    ConcatFacts(q[0], ":", q[1]);
  }

  lemma TranslateGroups(p: string, g: string, h: string)
    requires AllHex(g) && AllHex(h)
    ensures var work := p + ":" + (g + ":" + h); TranslateQuad(work) == Some(work)
  {
    GroupsText(p, g, h);
    LastIs(p + ":" + g, ':', h);
  }

  lemma GroupsText(p: string, g: string, h: string)
    requires AllHex(h)
    ensures var work := p + ":" + (g + ":" + h);
            work == p + ":" + g + [':'] + h && '.' !in work[|p + ":" + g|..]
  {
    var work := p + ":" + (g + ":" + h);
    assert work[|p + ":" + g|..] == [':'] + h;
  }

  lemma CharsOfBoth(a: string, b: string)
    ensures AddressChars(a + b) <==> AddressChars(a) && AddressChars(b)
  {
    if AddressChars(a + b) {
      assert forall k :: 0 <= k < |a| ==> a[k] == (a + b)[k];
      assert forall k :: 0 <= k < |b| ==> b[k] == (a + b)[|a| + k];
    }
  }

  lemma {:induction false} LastIs(p: string, c: char, q: string)
    requires c !in q
    ensures LastIndexOf(p + [c] + q, c) == |p|
  {
    var s := p + [c] + q;
    if q == "" {
      assert s == p + [c];
    } else {
      LastIs(p, c, q[..|q| - 1]);
      assert s[..|s| - 1] == p + [c] + q[..|q| - 1] && s[|s| - 1] == q[|q| - 1];
    }
  }

  lemma QuadChars(quad: string)
    requires V4Of(quad).Some?
    ensures ':' !in quad && AddressChars(quad) && '.' in quad
  {
    var p := Split(quad, '.');
    JoinOfSplit(quad, '.');
    ElementsOfJoin(p, '.');
    forall k | 0 <= k < |quad| ensures quad[k] == '.' || IsDigit(quad[k]) {
      assert quad[k] in Join(p, '.');
      if quad[k] != '.' {
        var n :| 0 <= n < |p| && quad[k] in p[n];
        assert Octet(p[n]).Some?;
      }
    }
  }

  lemma QuadGroupsHex(b: Bytes)
    requires |b| == 4
    ensures AllHex(QuadGroups(b)[0]) && AllHex(QuadGroups(b)[1])
  {
    TextIsDigits(Word(b[0], b[1]), 16);
    TextIsDigits(Word(b[2], b[3]), 16);
  }

  lemma QuadGroupsMean(b: Bytes, gs: seq<string>)
    requires |b| == 4 && AllGroups(gs)
    ensures AllGroups(QuadGroups(b)) && AllGroups(gs + QuadGroups(b))
    ensures BytesOf(gs + QuadGroups(b)) == BytesOf(gs) + b
  {
    var q := QuadGroups(b);
    WordParts(b[0], b[1]);
    WordParts(b[2], b[3]);
    GroupText(Word(b[0], b[1]));
    GroupText(Word(b[2], b[3]));
    BytesConcat(gs, q);
    BytesSnoc([], q[0]);
    BytesSnoc([q[0]], q[1]);
    FourBytes([], b);
    assert [] + [q[0]] == [q[0]] && [q[0]] + [q[1]] == q;
  }

  lemma FourBytes(a: Bytes, b: Bytes)
    requires |b| == 4
    ensures a + [b[0], b[1]] + [b[2], b[3]] == a + b
  {
  }

  lemma WordParts(hi: Byte, lo: Byte)
    ensures Word(hi, lo) < 0x1_0000 && Word(hi, lo) / 256 == hi && Word(hi, lo) % 256 == lo
  {
  }

  lemma GroupText(w: nat)
    requires w < 0x1_0000
    ensures IsGroup(TextIn(w, 16)) && GroupValue(TextIn(w, 16)) == w
  {
    TextLength(w);
    ValueOfText(w, 16);
  }

  lemma BytesSnoc(gs: seq<string>, g: string)
    requires IsGroup(g) && AllGroups(gs)
    ensures BytesOf(gs + [g]) == BytesOf(gs) + [GroupValue(g) / 256, GroupValue(g) % 256]
  {
    assert (gs + [g])[..|gs|] == gs;
  }

  /** The same with a dotted quad for the last 32 bits. */
  lemma CompressedWithQuad(left: seq<string>, zeros: seq<string>, right: seq<string>, quad: string)
    requires |left| + |zeros| + |right| == 6 && V4Of(quad).Some?
    requires AllGroups(left) && AllGroups(zeros) && AllGroups(right)
    requires forall k :: 0 <= k < |zeros| ==> GroupValue(zeros[k]) == 0
    ensures var gs := left + zeros + right;
            && AllGroups(gs)
            && V6Of(Join(left, ':') + "::" + Join(right + [quad], ':')) == Some(BytesOf(gs) + V4Of(quad).value)
  {
    var b := V4Of(quad).value;
    var q := QuadGroups(b);
    BytesConcat(left, zeros);
    BytesConcat(left + zeros, right);
    QuadGroupsMean(b, left + zeros + right);
    BytesConcat(right, q);
    CompressedAddress(left, zeros, right + q);
    ConcatFacts(left + zeros, right, q);
    CompressedQuadText(Join(left, ':'), right, quad);
  }

  lemma CompressedQuadText(l: string, right: seq<string>, quad: string)
    requires V4Of(quad).Some?
    ensures V6Of(l + "::" + Join(right + [quad], ':'))
            == V6Of(l + "::" + Join(right + QuadGroups(V4Of(quad).value), ':'))
  {
    var q := QuadGroups(V4Of(quad).value);
    JoinLast(right, [quad]);
    JoinLast(right, q);
    var p := if right == [] then l + ":" else l + "::" + Join(right, ':');
    ColonText(l, Join(right, ':'), quad);
    ColonText(l, Join(right, ':'), Join(q, ':'));
    QuadTail(p, quad);
  }

  lemma ColonText(l: string, mid: string, t: string)
    ensures l + "::" + ("" + t) == l + ":" + ":" + t
    ensures l + "::" + (mid + ":" + t) == l + "::" + mid + ":" + t
  {
  }

  lemma {:induction false} JoinLast(gs: seq<string>, more: seq<string>)
    requires more != []
    ensures Join(gs + more, ':') == (if gs == [] then "" else Join(gs, ':') + ":") + Join(more, ':')
  {
    if gs == [] {
      assert gs + more == more;
    } else {
      JoinLast(gs[1..], more);
      assert (gs + more)[1..] == gs[1..] + more;
    }
  }

  // ---------------------------------------------------------------- IPv4-mapped addresses

  predicate IsMapped(b: Bytes) {
    |b| == 16 && (forall i :: 0 <= i < 10 ==> b[i] == 0) && b[10] == 0xff && b[11] == 0xff
  }

  method IPv4FromMappedV6(ip: string) returns (r: Option<string>)
    ensures r == match V6Of(ip)
                 case None => None
                 case Some(b) =>
                   if 0xffff_0000_0000 <= Value(b) < 0x1_0000_0000_0000 then Some(Dotted(b[12..])) else None
  {
    var parsed := ParseIPv6Bytes(ip);
    if parsed.None? { return None; }
    r := MappedQuad(parsed.value);
  }

  /** Lines 98-103 of the source. */
  method MappedQuad(bytes: Bytes) returns (r: Option<string>)
    requires |bytes| == 16
    ensures r == if 0xffff_0000_0000 <= Value(bytes) < 0x1_0000_0000_0000 then Some(Dotted(bytes[12..])) else None
  {
    MappedBlock(bytes);
    for i := 0 to 10
      invariant forall k :: 0 <= k < i ==> bytes[k] == 0
    {
      if bytes[i] != 0 { return None; }
    }
    if bytes[10] != 0xff || bytes[11] != 0xff { return None; }
    LastFour(bytes);
    r := Some(Dotted([bytes[12], bytes[13], bytes[14], bytes[15]]));
  }

  lemma LastFour(b: Bytes)
    requires |b| == 16
    ensures b[12..] == [b[12], b[13], b[14], b[15]]
  {
  }

  /** Family and bytes of an address text; a mapped address counts as its IPv4 address. */
  function AddressOf(ip: string): (r: Option<(Kind, Bytes)>)
    ensures r.Some? ==> |r.value.1| == if r.value.0.V4? then 4 else 16
  {
    if ':' in ip then
      match V6Of(ip)
      case None => None
      case Some(b) => if IsMapped(b) then Some((V4, b[12..])) else Some((V6, b))
    else
      match V4Of(ip) case None => None case Some(b) => Some((V4, b))
  }

  /** `::ffff:` in front of a dotted quad changes nothing. */
  lemma MappedText(quad: string)
    requires V4Of(quad).Some?
    ensures AddressOf("::ffff:" + quad) == AddressOf(quad) == Some((V4, V4Of(quad).value))
  {
    ZeroGroup();
    FfffValue();
    CompressedWithQuad([], Zeros(5), ["ffff"], quad);
    MappedPrefix(quad);
    ZerosThenFfff();
    ConcatDrop(BytesOf([] + Zeros(5) + ["ffff"]), V4Of(quad).value);
    assert ':' in "::ffff:" + quad by { assert ("::ffff:" + quad)[0] == ':'; }
    QuadChars(quad);
  }

  lemma ConcatDrop(a: Bytes, b: Bytes)
    ensures (a + b)[|a|..] == b && forall k :: 0 <= k < |a| ==> (a + b)[k] == a[k]
  {
  }

  lemma MappedPrefix(quad: string)
    ensures Join([], ':') + "::" + Join(["ffff"] + [quad], ':') == "::ffff:" + quad
  {
    assert ["ffff"] + [quad] == ["ffff", quad] && ["ffff", quad][1..] == [quad];
    assert Join(["ffff", quad], ':') == "ffff" + [':'] + quad;
  }

  lemma FfffValue()
    ensures IsGroup("ffff") && GroupValue("ffff") == 0xffff
  {
    assert "ffff"[..3] == "fff" && "fff"[..2] == "ff" && "ff"[..1] == "f" && "f"[..0] == "";
    assert ValueIn("f", 16) == 15;
    assert ValueIn("ff", 16) == 255;
    assert ValueIn("fff", 16) == 4095;
  }

  lemma ZerosThenFfff()
    ensures var gs := [] + Zeros(5) + ["ffff"];
            && AllGroups(gs)
            && (forall i :: 0 <= i < 10 ==> BytesOf(gs)[i] == 0) && BytesOf(gs)[10] == BytesOf(gs)[11] == 0xff
  {
    ZeroGroup();
    FfffValue();
    ZerosBytes(5);
    BytesSnoc(Zeros(5), "ffff");
    ConcatFacts(Zeros(5), ["ffff"], []);
  }

  lemma {:induction false} ZerosBytes(n: nat)
    ensures forall i :: 0 <= i < 2 * n ==> BytesOf(Zeros(n))[i] == 0
  {
    if n > 0 {
      ZerosBytes(n - 1);
      ZeroGroup();
      assert Zeros(n)[..n - 1] == Zeros(n - 1);
    }
  }

  // ---------------------------------------------------------------- masks

  /** `(0xff << k) & 0xff`. */
  function ShiftedMask(k: nat): nat { BitAnd(ShiftLeft(0xff, k), 0xff) }

  /** `v` rounded down to a multiple of `m`. */
  function FloorTo(v: nat, m: nat): (f: nat)
    requires m > 0
    ensures f <= v
  {
    ModLess(v, m);
    v - v % m
  }

  lemma ModLess(r: nat, m: nat)
    requires m > 0
    ensures 0 <= r % m <= r && r == m * (r / m) + r % m
  {
  }

  /** What is left of a byte of which `bits` leading bits are kept. */
  function KeptByte(b: Byte, bits: int): Byte {
    if bits >= 8 then b else if bits <= 0 then 0 else FloorTo(b, Pow2(8 - bits))
  }

  lemma KeptByMask(b: Byte, bits: int)
    requires 0 < bits < 8
    ensures BitAnd(b, ShiftedMask(8 - bits)) == KeptByte(b, bits)
  {
    KeptBits(b, 8 - bits, bits);
  }

  lemma KeptBits(b: Byte, k: nat, bits: nat)
    requires 0 < k < 8 && bits + k == 8
    ensures BitAnd(b, ShiftedMask(k)) == FloorTo(b, Pow2(k))
  {
    MaskIs(k, bits);
    KeptByOnes(b, ShiftedMask(k), k, bits);
  }

  lemma KeptByOnes(b: Byte, mask: nat, k: nat, bits: nat)
    requires bits + k == 8 && mask == ShiftLeft(Pow2(bits) - 1, k)
    ensures BitAnd(b, mask) == FloorTo(b, Pow2(k))
  {
    Pow2Of8();
    HighOnes(b, k, bits);
  }

  lemma MaskIs(k: nat, bits: nat)
    requires 0 < k < 8 && bits + k == 8
    ensures ShiftedMask(k) == ShiftLeft(Pow2(bits) - 1, k)
  {
    assert bits == 8 - k;
    MaskConstants(k);
    LowByte(ShiftLeft(0xff, k));
  }

  lemma LowByte(x: nat)
    ensures BitAnd(x, 0xff) == x % 256
  {
    Pow2Of8();
    LowOnes(x, 8);
  }

  /** Masking an (n + k)-bit number with n ones above k zeros rounds it down. */
  lemma HighOnes(x: nat, k: nat, n: nat)
    requires x < Pow2(n + k)
    ensures BitAnd(x, ShiftLeft(Pow2(n) - 1, k)) == FloorTo(x, Pow2(k))
  {
    ShiftedOnes(x, k, Pow2(n) - 1);
    LowOnes(ShiftRight(x, k), n);
    ShiftRightBound(x, k, n);
    SmallMod(ShiftRight(x, k), Pow2(n));
    ShiftBack(x, k);
  }

  lemma SmallMod(x: nat, m: nat)
    requires x < m
    ensures x % m == x
  {
  }

  lemma MaskConstants(k: nat)
    requires 0 < k < 8
    ensures Pow2(8) == 256 && Pow2(8 - k) >= 1
    ensures ShiftLeft(0xff, k) % 256 == ShiftLeft(Pow2(8 - k) - 1, k)
  {
    Pow2Of8();
    ByteParts(k);
    ShiftLeftMul(0xff, k);
    ShiftLeftMul(Pow2(8 - k) - 1, k);
    MaskedProduct(Pow2(k), Pow2(8 - k));
  }

  lemma MaskedProduct(m: nat, c: nat)
    requires m * c == 256 && m > 0
    ensures c >= 1 && (0xff * m) % 256 == (c - 1) * m
  {
    assert (c - 1) * m == 256 - m;
    DivModUnique(255 * m, 256, m - 1, 256 - m);
  }

  lemma {:induction false} ShiftLeftMul(m: nat, k: nat)
    ensures ShiftLeft(m, k) == m * Pow2(k)
  {
    if k > 0 { ShiftLeftMul(m, k - 1); }
  }

  lemma {:induction false} ShiftRightBound(x: nat, k: nat, n: nat)
    requires x < Pow2(n + k)
    ensures ShiftRight(x, k) < Pow2(n)
  {
    if k > 0 { ShiftRightBound(x / 2, k - 1, n); }
  }

  function Mask(bytes: Bytes, prefixLen: int): (m: Bytes)
    ensures |m| == |bytes|
  {
    seq(|bytes|, i requires 0 <= i < |bytes| => KeptByte(bytes[i], prefixLen - 8 * i))
  }

  method MaskBytes(bytes: Bytes, prefixLen: int) returns (r: Bytes)
    ensures r == Mask(bytes, prefixLen)
  {
    var out := new Byte[|bytes|](_ => 0);
    for i := 0 to |bytes|
      invariant forall k :: 0 <= k < i ==> out[k] == KeptByte(bytes[k], prefixLen - 8 * k)
    {
      var bitsLeft := prefixLen - i * 8;
      if bitsLeft >= 8 {
        out[i] := bytes[i];
      } else if bitsLeft <= 0 {
        out[i] := 0;
      } else {
        KeptByMask(bytes[i], bitsLeft);
        out[i] := BitAnd(bytes[i], ShiftedMask(8 - bitsLeft));
      }
    }
    r := out[..];
  }

  /** The number an address spells, first byte first. */
  function Value(b: Bytes): nat {
    if b == [] then 0 else Value(b[..|b| - 1]) * 256 + b[|b| - 1]
  }

  lemma {:induction false} ValueInjective(a: Bytes, b: Bytes)
    requires |a| == |b|
    ensures Value(a) == Value(b) <==> a == b
  {
    if a != [] {
      var n := |a| - 1;
      ValueInjective(a[..n], b[..n]);
      if Value(a) == Value(b) {
        DivModUnique(Value(a), 256, Value(a[..n]), a[n]);
        DivModUnique(Value(a), 256, Value(b[..n]), b[n]);
        assert a == a[..n] + [a[n]] && b == b[..n] + [b[n]];
      }
    }
  }

  /** Byte-wise masking is prefix arithmetic. */
  lemma {:induction false} MaskValue(b: Bytes, p: nat)
    requires p <= 8 * |b|
    ensures Value(Mask(b, p)) == FloorTo(Value(b), Pow2(8 * |b| - p))
  {
    if b != [] {
      var n, m := |b| - 1, Mask(b, p);
      var init, last := Value(b[..n]), b[n];
      assert m[..n] == Mask(b[..n], p);
      var q := 8 * n - p;
      if q >= 0 {
        MaskValue(b[..n], p);
        assert Pow2(8) == 256 by { assert Pow2(4) == 16; }
        Pow2Sum(8, q);
        FloorHigh(init, last, Pow2(q));
      } else {
        MaskAll(b[..n], p);
        FloorLow(init, last, 8 + q);
      }
    }
  }

  lemma MaskAll(b: Bytes, p: int)
    requires p >= 8 * |b|
    ensures Mask(b, p) == b
  {
  }

  lemma FloorHigh(init: nat, last: Byte, m: nat)
    requires m > 0
    ensures FloorTo(init * 256 + last, 256 * m) == FloorTo(init, m) * 256
  {
    var q, r := init / m, init % m;
    assert init * 256 + last == (256 * m) * q + (r * 256 + last);
    DivModUnique(init * 256 + last, 256 * m, q, r * 256 + last);
  }

  lemma FloorLow(init: nat, last: Byte, k: int)
    requires 0 <= k <= 8
    ensures FloorTo(init * 256 + last, Pow2(k)) == init * 256 + FloorTo(last, Pow2(k))
  {
    ByteParts(k);
    FloorByte(init, last, Pow2(k), Pow2(8 - k));
  }

  lemma FloorByte(init: nat, last: Byte, m: nat, c: nat)
    requires m > 0 && m * c == 256
    ensures FloorTo(init * 256 + last, m) == init * 256 + FloorTo(last, m)
  {
    FloorOfSum(init, c, last, m, 256);
  }

  lemma ByteParts(k: int)
    requires 0 <= k <= 8
    ensures Pow2(k) * Pow2(8 - k) == 256
  {
    Pow2Of8();
    Pow2Sum(k, 8 - k);
  }

  lemma Pow2Of8()
    ensures Pow2(8) == 256
  {
    assert Pow2(4) == 16;
  }

  lemma FloorOfSum(a: nat, c: nat, b: nat, m: nat, w: nat)
    requires m > 0 && m * c == w
    ensures FloorTo(a * w + b, m) == a * w + FloorTo(b, m)
  {
    FloorSplit(a, c, b, m);
  }

  lemma FloorSplit(a: nat, c: nat, b: nat, m: nat)
    requires m > 0
    ensures FloorTo(a * (m * c) + b, m) == a * (m * c) + FloorTo(b, m)
  {
    ModLess(b, m);
    assert a * (m * c) == m * (a * c);
    assert m * (a * c) + m * (b / m) == m * (a * c + b / m);
    DivModUnique(a * (m * c) + b, m, a * c + b / m, b % m);
  }

  // ---------------------------------------------------------------- ranges

  function Width(kind: Kind): nat { if kind.V4? then 32 else 128 }

  function CidrOf(ipPart: string, prefixLen: int): Result<Range, CidrError> {
    if prefixLen < 0 then Err(BadPrefix)
    else
      match V4Of(ipPart)
      case Some(b) => if prefixLen > 32 then Err(PrefixTooLong) else Ok(Range(V4, Mask(b, prefixLen), prefixLen))
      case None =>
        match V6Of(ipPart)
        case Some(b) => if prefixLen > 128 then Err(PrefixTooLong) else Ok(Range(V6, Mask(b, prefixLen), prefixLen))
        case None => Err(Unparseable)
  }

  method ParseCIDR(ipPart: string, prefixLen: int) returns (r: Result<Range, CidrError>)
    ensures r == CidrOf(ipPart, prefixLen)
  {
    if prefixLen < 0 { return Err(BadPrefix); }
    var v4 := ParseIPv4Bytes(ipPart);
    if v4.Some? {
      if prefixLen > 32 { return Err(PrefixTooLong); }
      var masked := MaskBytes(v4.value, prefixLen);
      return Ok(Range(V4, masked, prefixLen));
    }
    var v6 := ParseIPv6Bytes(ipPart);
    if v6.Some? {
      if prefixLen > 128 { return Err(PrefixTooLong); }
      var masked := MaskBytes(v6.value, prefixLen);
      return Ok(Range(V6, masked, prefixLen));
    }
    r := Err(Unparseable);
  }

  /** What `ipInCIDR` answers, from the normalised address. */
  predicate InRange(ip: string, range: Range) {
    match AddressOf(ip)
    case None => false
    case Some((kind, bytes)) => kind == range.kind && Mask(bytes, range.prefixLen) == range.bytes
  }

  method IpInCIDR(ip: string, range: Range) returns (inside: bool)
    ensures inside <==> InRange(ip, range)
  {
    if ip == "" { return false; }
    var kind, bytes := V4, None;
    var mapped := None;
    if ':' in ip {
      mapped := IPv4FromMappedV6(ip);
      if V6Of(ip).Some? { MappedBlock(V6Of(ip).value); }
    }
    if mapped.Some? {
      V4RoundTrip(V6Of(ip).value[12..]);
      bytes := ParseIPv4Bytes(mapped.value);
    } else if ':' in ip {
      kind := V6;
      bytes := ParseIPv6Bytes(ip);
    } else {
      bytes := ParseIPv4Bytes(ip);
    }
    assert AddressOf(ip) == match bytes case None => None case Some(b) => Some((kind, b));
    if bytes.None? || kind != range.kind { return false; }
    var masked := MaskBytes(bytes.value, range.prefixLen);
    inside := SameArrays(masked, range.bytes);
  }

  /** Lines 184-188 of the source. */
  method SameArrays(a: Bytes, b: Bytes) returns (same: bool)
    ensures same <==> a == b
  {
    if |a| != |b| { return false; }
    for i := 0 to |a|
      invariant a[..i] == b[..i]
    {
      if a[i] != b[i] { return false; }
    }
    assert a[..|a|] == a && b[..|b|] == b;
    same := true;
  }

  method IpInAnyCIDR(ip: string, ranges: seq<Range>) returns (inside: bool)
    ensures inside <==> exists r :: r in ranges && InRange(ip, r)
  {
    for i := 0 to |ranges|
      invariant forall k :: 0 <= k < i ==> !InRange(ip, ranges[k])
    {
      var hit := IpInCIDR(ip, ranges[i]);
      if hit { return true; }
    }
    inside := false;
  }

  /** What `parseCIDR` returns: a prefix that fits and an address already masked. */
  predicate IsRange(r: Range) {
    && 0 <= r.prefixLen <= Width(r.kind)
    && 8 * |r.bytes| == Width(r.kind)
    && Mask(r.bytes, r.prefixLen) == r.bytes
  }

  /** How many addresses a range spans. */
  function Span(r: Range): (n: nat)
    requires IsRange(r)
    ensures n >= 1
  {
    Pow2(Width(r.kind) - r.prefixLen)
  }

  lemma ParsedIsRange(ipPart: string, prefixLen: int)
    ensures CidrOf(ipPart, prefixLen).Ok? ==> IsRange(CidrOf(ipPart, prefixLen).value)
  {
    if CidrOf(ipPart, prefixLen).Ok? {
      var r := CidrOf(ipPart, prefixLen).value;
      var b := if V4Of(ipPart).Some? then V4Of(ipPart).value else V6Of(ipPart).value;
      MaskOfMask(b, prefixLen, prefixLen);
    }
  }

  lemma ModOfFloor(v: nat, m: nat)
    requires m > 0
    ensures FloorTo(v, m) % m == 0
  {
    DivModUnique(FloorTo(v, m), m, v / m, 0);
  }

  /**
   Membership is an interval: an address is inside exactly when its number lies among the
   `Span(r)` numbers that start at the range's own.
   */
  lemma InRangeIsInterval(ip: string, r: Range)
    requires IsRange(r)
    ensures InRange(ip, r) <==>
              && AddressOf(ip).Some? && AddressOf(ip).value.0 == r.kind
              && Value(r.bytes) <= Value(AddressOf(ip).value.1) < Value(r.bytes) + Span(r)
  {
    if AddressOf(ip).Some? && AddressOf(ip).value.0 == r.kind {
      MaskIsInterval(AddressOf(ip).value.1, r);
    }
  }

  lemma MaskIsInterval(b: Bytes, r: Range)
    requires IsRange(r) && |b| == |r.bytes|
    ensures Mask(b, r.prefixLen) == r.bytes <==> Value(r.bytes) <= Value(b) < Value(r.bytes) + Span(r)
  {
    MaskValue(b, r.prefixLen);
    MaskValue(r.bytes, r.prefixLen);
    ValueInjective(Mask(b, r.prefixLen), r.bytes);
    ModOfFloor(Value(r.bytes), Span(r));
    FloorIsInterval(Value(b), Value(r.bytes), Span(r));
  }

  lemma FloorIsInterval(v: nat, base: nat, m: nat)
    requires m > 0 && base % m == 0
    ensures FloorTo(v, m) == base <==> base <= v < base + m
  {
    if base <= v < base + m {
      assert base == m * (base / m);
      DivModUnique(v, m, base / m, v - base);
    }
  }

  /** Ranges of one family are nested or disjoint. */
  lemma NestedOrDisjoint(r: Range, s: Range)
    requires IsRange(r) && IsRange(s) && r.kind == s.kind && r.prefixLen >= s.prefixLen
    ensures (forall ip :: InRange(ip, r) ==> InRange(ip, s)) || (forall ip :: !(InRange(ip, r) && InRange(ip, s)))
  {
    var inside := Mask(r.bytes, s.prefixLen) == s.bytes;
    forall ip | InRange(ip, r) ensures InRange(ip, s) <==> inside {
      MaskOfMask(AddressOf(ip).value.1, r.prefixLen, s.prefixLen);
    }
  }

  lemma KeptTwice(b: Byte, bits: int, fewer: int)
    requires bits >= fewer
    ensures KeptByte(KeptByte(b, bits), fewer) == KeptByte(b, fewer)
  {
    if 0 < fewer && bits < 8 { FloorOfFloor(b, 8 - bits, 8 - fewer); }
  }

  lemma MaskOfMask(b: Bytes, p: int, q: int)
    requires p >= q
    ensures Mask(Mask(b, p), q) == Mask(b, q)
  {
    forall i | 0 <= i < |b| ensures Mask(Mask(b, p), q)[i] == Mask(b, q)[i] { MaskOfMaskAt(b, p, q, i); }
  }

  lemma MaskOfMaskAt(b: Bytes, p: int, q: int, i: nat)
    requires p >= q && i < |b|
    ensures Mask(Mask(b, p), q)[i] == Mask(b, q)[i]
  {
    KeptTwice(b[i], p - 8 * i, q - 8 * i);
  }

  lemma FloorOfFloor(v: nat, i: nat, j: nat)
    requires i <= j
    ensures FloorTo(FloorTo(v, Pow2(i)), Pow2(j)) == FloorTo(v, Pow2(j))
  {
    Pow2Sum(i, j - i);
    FloorNested(v, Pow2(i), Pow2(j - i));
  }

  lemma FloorNested(v: nat, m: nat, c: nat)
    requires m > 0 && c > 0 && m * c > 0
    ensures FloorTo(FloorTo(v, m), m * c) == FloorTo(v, m * c)
  {
    var q, r := v / (m * c), v % (m * c);
    ModLess(v, m * c);
    ModLess(r, m);
    assert v == q * (m * c) + r;
    FloorSplit(q, c, r, m);
    DivModUnique(q * (m * c) + FloorTo(r, m), m * c, q, FloorTo(r, m));
  }

  // ---------------------------------------------------------------- the verdict, by numbers alone

  lemma {:induction false} ValueConcat(a: Bytes, b: Bytes)
    ensures Value(a + b) == Value(a) * Pow2(8 * |b|) + Value(b)
  {
    if b == [] {
      assert a + b == a;
    } else {
      var n := |b| - 1;
      ValueConcat(a, b[..n]);
      assert (a + b)[..|a| + n] == a + b[..n];
      Pow2Of8();
      Pow2Sum(8 * n, 8);
      ShiftedByByte(Value(a), Pow2(8 * n), Value(b[..n]), b[n]);
    }
  }

  lemma ShiftedByByte(v: nat, m: nat, w: nat, last: nat)
    ensures (v * m + w) * 256 + last == v * (m * 256) + (w * 256 + last)
  {
  }

  lemma {:induction false} ValueBelow(b: Bytes)
    ensures Value(b) < Pow2(8 * |b|)
  {
    if b != [] {
      var n := |b| - 1;
      ValueBelow(b[..n]);
      Pow2Of8();
      Pow2Sum(8 * n, 8);
      OneByteMore(Value(b[..n]), b[n], Pow2(8 * n), Pow2(8 * |b|));
    }
  }

  lemma OneByteMore(v: nat, last: Byte, m: nat, more: nat)
    requires v < m && more == m * 256
    ensures v * 256 + last < more
  {
  }

  lemma {:induction false} ValueZero(b: Bytes)
    ensures Value(b) == 0 <==> forall i :: 0 <= i < |b| ==> b[i] == 0
  {
    if b != [] {
      var n := |b| - 1;
      ValueZero(b[..n]);
      assert forall i :: 0 <= i < n ==> b[..n][i] == b[i];
    }
  }

  lemma PowersOfBytes()
    ensures Pow2(16) == 0x1_0000 && Pow2(32) == 0x1_0000_0000 && Pow2(48) == 0x1_0000_0000_0000
  {
    Pow2Of8();
    Pow2Sum(8, 8);
    Pow2Sum(16, 16);
    Pow2Sum(32, 16);
  }

  /** The mapped block: the 2^32 numbers from 0xffff * 2^32 on, whose last four bytes are the IPv4 address. */
  lemma MappedBlock(b: Bytes)
    requires |b| == 16
    ensures IsMapped(b) <==> 0xffff_0000_0000 <= Value(b) < 0x1_0000_0000_0000
    ensures IsMapped(b) ==> Value(b) == 0xffff_0000_0000 + Value(b[12..])
  {
    var high, mid, low := b[..10], b[10..12], b[12..];
    InThree(b);
    MappedParts(b);
    LastFourBelow(low);
    BlockOf(Value(high), Value(mid), Value(low), Value(b));
  }

  lemma MappedParts(b: Bytes)
    requires |b| == 16
    ensures IsMapped(b) <==> Value(b[..10]) == 0 && Value(b[10..12]) == 0xffff
    ensures Value(b[10..12]) <= 0xffff
  {
    ValueZero(b[..10]);
    TwoBytes(b[10..12]);
    assert forall i :: 0 <= i < 10 ==> b[..10][i] == b[i];
  }

  lemma LastFourBelow(b: Bytes)
    requires |b| == 4
    ensures Value(b) < 0x1_0000_0000
  {
    ValueBelow(b);
    PowersOfBytes();
  }

  lemma InThree(b: Bytes)
    requires |b| == 16
    ensures Value(b) == Value(b[..10]) * 0x1_0000_0000_0000 + (Value(b[10..12]) * 0x1_0000_0000 + Value(b[12..]))
  {
    var high, mid, low := b[..10], b[10..12], b[12..];
    assert b == high + (mid + low);
    ValueConcat(high, mid + low);
    ValueConcat(mid, low);
    PowersOfBytes();
  }

  lemma TwoBytes(b: Bytes)
    requires |b| == 2
    ensures Value(b) == b[0] as int * 256 + b[1] as int
  {
    var one := b[..1];
    assert one[0] == b[0] && one[..0] == [];
    assert Value(one) == Value(one[..0]) * 256 + one[0];
  }

  lemma BlockOf(high: nat, mid: nat, low: nat, v: nat)
    requires low < 0x1_0000_0000 && mid <= 0xffff
    requires v == high * 0x1_0000_0000_0000 + (mid * 0x1_0000_0000 + low)
    ensures 0xffff_0000_0000 <= v < 0x1_0000_0000_0000 <==> high == 0 && mid == 0xffff
  {
  }

  /**
   An IPv6 text is an IPv4 address exactly if its number lies in the mapped block; either way it
   is inside a range exactly if the range has its family and its number lies among the range's.
   */
  lemma InRangeByNumber(ip: string, r: Range, b: Bytes)
    requires IsRange(r) && ':' in ip && V6Of(ip) == Some(b)
    ensures InRange(ip, r) <==>
              if 0xffff_0000_0000 <= Value(b) < 0x1_0000_0000_0000 then
                r.kind == V4 && Value(r.bytes) <= Value(b) - 0xffff_0000_0000 < Value(r.bytes) + Span(r)
              else
                r.kind == V6 && Value(r.bytes) <= Value(b) < Value(r.bytes) + Span(r)
  {
    MappedBlock(b);
    InRangeIsInterval(ip, r);
  }

  /** The same for an IPv4 text; and a text that is no address is in no range. */
  lemma InRangeByNumberV4(ip: string, r: Range)
    requires IsRange(r)
    ensures ':' !in ip && V4Of(ip).Some? ==>
              var b := V4Of(ip).value;
              (InRange(ip, r) <==> r.kind == V4 && Value(r.bytes) <= Value(b) < Value(r.bytes) + Span(r))
    ensures (if ':' in ip then V6Of(ip).None? else V4Of(ip).None?) ==> !InRange(ip, r)
  {
    InRangeIsInterval(ip, r);
  }

  /** What a dotted text means: four parts of one to three digits, each a byte. */
  lemma QuadMeans(parts: seq<string>, b: Bytes)
    requires |parts| >= 1 && forall i :: 0 <= i < |parts| ==> '.' !in parts[i]
    ensures V4Of(Join(parts, '.')) == Some(b) <==>
              && |parts| == |b| == 4
              && forall i :: 0 <= i < 4 ==> 1 <= |parts[i]| <= 3 && AllDigits(parts[i]) && ValueIn(parts[i], 10) == b[i]
  {
    SplitOfJoin(parts, '.');
    if |parts| == 4 && forall i :: 0 <= i < 4 ==> Octet(parts[i]).Some? { OctetsMean(parts, b); }
  }

  lemma OctetsMean(parts: seq<string>, b: Bytes)
    requires |parts| == 4 && forall i :: 0 <= i < 4 ==> Octet(parts[i]).Some?
    ensures [Octet(parts[0]).value, Octet(parts[1]).value, Octet(parts[2]).value, Octet(parts[3]).value] == b
            <==> |b| == 4 && forall i :: 0 <= i < 4 ==> ValueIn(parts[i], 10) == b[i]
  {
  }

  /**
   What a range text means: which texts and prefixes are accepted, and that the range starts at
   the address's number rounded down to a multiple of its size.
   */
  lemma RangeMeans(ipPart: string, prefixLen: int)
    ensures var r, v4, v6 := CidrOf(ipPart, prefixLen), V4Of(ipPart), V6Of(ipPart);
            && (r.Ok? <==> prefixLen >= 0 && if v4.Some? then prefixLen <= 32 else v6.Some? && prefixLen <= 128)
            && (r.Ok? ==>
                  && r.value.prefixLen == prefixLen && r.value.kind == (if v4.Some? then V4 else V6)
                  && IsRange(r.value)
                  && var v := Value(if v4.Some? then v4.value else v6.value);
                     Value(r.value.bytes) == v - v % Pow2((if v4.Some? then 32 else 128) - prefixLen))
  {
    if CidrOf(ipPart, prefixLen).Ok? {
      var b := if V4Of(ipPart).Some? then V4Of(ipPart).value else V6Of(ipPart).value;
      ParsedIsRange(ipPart, prefixLen);
      MaskValue(b, prefixLen);
      RoundedDown(Value(b), Pow2(8 * |b| - prefixLen));
    }
  }

  lemma RoundedDown(v: nat, m: nat)
    requires m > 0
    ensures FloorTo(v, m) == v - v % m
  {
  }

  ghost predicate FullText(ip: string) { exists gs :: |gs| == 8 && AllGroups(gs) && ip == Join(gs, ':') }

  ghost predicate ShortText(ip: string) {
    exists l, r :: |l| + |r| <= 8 && AllGroups(l) && AllGroups(r) && ip == Join(l, ':') + "::" + Join(r, ':')
  }

  /** Without a dotted tail nothing but the full and the compressed forms is an IPv6 address. */
  lemma AcceptedForms(ip: string)
    requires '.' !in ip
    ensures V6Of(ip).Some? <==> FullText(ip) || ShortText(ip)
  {
    if V6Of(ip).Some? { FormOf(ip); }
    if gs :| |gs| == 8 && AllGroups(gs) && ip == Join(gs, ':') { FullGroups(gs); }
    if l, r :| |l| + |r| <= 8 && AllGroups(l) && AllGroups(r) && ip == Join(l, ':') + "::" + Join(r, ':') {
      ZeroGroup();
      CompressedAddress(l, Zeros(8 - |l| - |r|), r);
    }
  }

  lemma FormOf(ip: string)
    requires '.' !in ip && V6Of(ip).Some?
    ensures FullText(ip) || ShortText(ip)
  {
    assert TranslateQuad(ip) == Some(ip) && GroupsOf(ip).Some?;
    var groups, d := GroupsOf(ip).value, IndexOfDouble(ip);
    if d == -1 {
      JoinOfSplit(ip, ':');
      assert |groups| == 8 && AllGroups(groups) && ip == Join(groups, ':');
    } else {
      ShortForm(ip, d);
    }
  }

  lemma ShortForm(ip: string, d: nat)
    requires d == IndexOfDouble(ip) && GroupsOf(ip).Some? && AllGroups(GroupsOf(ip).value) && |GroupsOf(ip).value| == 8
    ensures ShortText(ip)
  {
    var l, r := PartsOf(ip[..d]), PartsOf(ip[d + 2..]);
    InnerGroups(l, Zeros(8 - |l| - |r|), r);
    PartsJoin(ip[..d]);
    PartsJoin(ip[d + 2..]);
    AroundDouble(ip, d);
    ShortTextOf(ip, l, r);
  }

  lemma AroundDouble(ip: string, d: nat)
    requires DoubleAt(ip, d)
    ensures ip == ip[..d] + "::" + ip[d + 2..]
  {
  }

  lemma ShortTextOf(ip: string, l: seq<string>, r: seq<string>)
    requires |l| + |r| <= 8 && AllGroups(l) && AllGroups(r) && ip == Join(l, ':') + "::" + Join(r, ':')
    ensures ShortText(ip)
  {
  }

  lemma InnerGroups(l: seq<string>, zeros: seq<string>, r: seq<string>)
    requires AllGroups(l + zeros + r)
    ensures AllGroups(l) && AllGroups(r)
  {
    assert forall k :: 0 <= k < |l| ==> l[k] == (l + zeros + r)[k];
    assert forall k :: 0 <= k < |r| ==> r[k] == (l + zeros + r)[|l| + |zeros| + k];
  }

  lemma PartsJoin(s: string)
    ensures Join(PartsOf(s), ':') == s
  {
    if s != "" { JoinOfSplit(s, ':'); }
  }

  /** The number eight groups spell, most significant first. */
  function Spelled(gs: seq<string>): nat
    requires AllGroups(gs)
  {
    if gs == [] then 0 else Spelled(gs[..|gs| - 1]) * 0x1_0000 + ValueIn(gs[|gs| - 1], 16)
  }

  lemma {:induction false} SpelledValue(gs: seq<string>)
    requires AllGroups(gs)
    ensures Value(BytesOf(gs)) == Spelled(gs)
  {
    if gs != [] {
      var init, w := gs[..|gs| - 1], GroupValue(gs[|gs| - 1]);
      SpelledValue(init);
      ValueConcat(BytesOf(init), [w / 256, w % 256]);
      TwoBytes([w / 256, w % 256]);
      PowersOfBytes();
    }
  }

  /** The full text form spells the address's number. */
  lemma FullGroupsSpell(gs: seq<string>)
    requires |gs| == 8 && AllGroups(gs)
    ensures V6Of(Join(gs, ':')).Some? && Value(V6Of(Join(gs, ':')).value) == Spelled(gs)
  {
    FullGroups(gs);
    SpelledValue(gs);
  }

  /** An IPv4-mapped address and its dotted IPv4 form get the same verdict, in every range. */
  lemma MappedVerdict(ip: string, range: Range)
    requires ':' in ip && V6Of(ip).Some? && 0xffff_0000_0000 <= Value(V6Of(ip).value) < 0x1_0000_0000_0000
    ensures InRange(ip, range) <==> InRange(Dotted(V6Of(ip).value[12..]), range)
  {
    MappedBlock(V6Of(ip).value);
    var b := V6Of(ip).value[12..];
    V4RoundTrip(b);
    QuadChars(Dotted(b));
  }
}
