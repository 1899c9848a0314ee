/**
 The artifact reader of scripts/ci/aggregate-spend.js: the single-entry ZIP walker, the
 batching loop, and the filter-and-sum phase of `aggregate`.

 The walker's partner is a packer that lays an archive out as sections 4.3.7, 4.3.12 and
 4.3.16 of PKWARE APPNOTE.TXT say, with every field the walker does not read left free.
 */
module SpendArtifacts {
  import opened Octets
  import opened Rounding
  import opened Splitting
  import opened Tally
  import opened Wrappers

  const EOCD_SIG := 0x06054b50
  const CENTRAL_SIG := 0x02014b50
  const LOCAL_SIG := 0x04034b50
  const MAX_COMMENT := 65535

  datatype ZipError = NoEocd | BadCentralSignature | BadLocalSignature | UnsupportedMethod | OutOfRange | InflateFailed

  /** `readUInt16LE`, which throws outside the buffer. */
  function ReadU16(buf: Bytes, i: int): Option<nat> {
    if 0 <= i && i + 2 <= |buf| then Some(Word(buf[i], buf[i + 1])) else None
  }

  /** `readUInt32LE`, which throws outside the buffer. */
  function ReadU32(buf: Bytes, i: int): Option<nat> {
    if 0 <= i && i + 4 <= |buf| then Some(Word(buf[i], buf[i + 1]) + 0x1_0000 * Word(buf[i + 2], buf[i + 3])) else None
  }

  function Word(lo: int, hi: int): nat
    requires 0 <= lo < 256 && 0 <= hi < 256
  {
    lo + 256 * hi
  }

  /** `buf.slice(from, to)`, clamped to the buffer. */
  function Slice(buf: Bytes, from: nat, to: nat): Bytes
    requires from <= to
  {
    var n := |buf|;
    buf[if from <= n then from else n..if to <= n then to else n]
  }

  /** The lowest index the backward search looks at. */
  function WindowStart(buf: Bytes): nat { if |buf| > 65557 then |buf| - 65557 else 0 }

  predicate SignatureAt(buf: Bytes, i: int) { ReadU32(buf, i) == Some(EOCD_SIG) }

  /** The search found the last signature of the window, or there is none. */
  predicate IsLastSignature(buf: Bytes, r: int) {
    && (r == -1 || (WindowStart(buf) <= r <= |buf| - 22 && SignatureAt(buf, r)))
    && forall i :: WindowStart(buf) <= i <= |buf| - 22 && r < i ==> !SignatureAt(buf, i)
  }

  lemma LastSignatureUnique(buf: Bytes, r: int, s: int)
    requires IsLastSignature(buf, r) && IsLastSignature(buf, s)
    ensures r == s
  {
  }

  /** The last signature at `i` or before it. */
  function LastSignature(buf: Bytes, i: int): int
    decreases i
  {
    if i < WindowStart(buf) then -1 else if SignatureAt(buf, i) then i else LastSignature(buf, i - 1)
  }

  lemma {:induction false} LastSignatureFrom(buf: Bytes, i: int)
    requires -1 <= i <= |buf| - 22
    requires forall k :: WindowStart(buf) <= k <= |buf| - 22 && i < k ==> !SignatureAt(buf, k)
    ensures IsLastSignature(buf, LastSignature(buf, i))
    decreases i + 1
  {
    if i >= WindowStart(buf) && !SignatureAt(buf, i) { LastSignatureFrom(buf, i - 1); }
  }

  method FindEocd(buf: Bytes) returns (r: int)
    ensures r == LastSignature(buf, |buf| - 22)
  {
    r := -1;
    var i := |buf| - 22;
    while i >= WindowStart(buf)
      invariant r == -1 && LastSignature(buf, i) == LastSignature(buf, |buf| - 22)
      decreases i
    {
      if ReadU32(buf, i) == Some(EOCD_SIG) { return i; }
      i := i - 1;
    }
  }

  /** What the walker reads in the central directory. */
  datatype Central = Central(compression: nat, compSize: nat, local: nat)

  function CentralAt(buf: Bytes, eocd: int): Result<Central, ZipError> {
    var cd := ReadU32(buf, eocd + 16);
    if cd.None? || ReadU32(buf, cd.value).None? then Err(OutOfRange)
    else if ReadU32(buf, cd.value) != Some(CENTRAL_SIG) then Err(BadCentralSignature)
    else
      var compression, compSize := ReadU16(buf, cd.value + 10), ReadU32(buf, cd.value + 20);
      var local := ReadU32(buf, cd.value + 42);
      if compression.None? || compSize.None? || local.None? then Err(OutOfRange)
      else Ok(Central(compression.value, compSize.value, local.value))
  }

  /** The compressed bytes behind the local header. */
  function DataAt(buf: Bytes, c: Central): Result<Bytes, ZipError> {
    if ReadU32(buf, c.local).None? then Err(OutOfRange)
    else if ReadU32(buf, c.local) != Some(LOCAL_SIG) then Err(BadLocalSignature)
    else
      var nameLen, extraLen := ReadU16(buf, c.local + 26), ReadU16(buf, c.local + 28);
      if nameLen.None? || extraLen.None? then Err(OutOfRange)
      else
        var start := c.local + 30 + nameLen.value + extraLen.value;
        Ok(Slice(buf, start, start + c.compSize))
  }

  function Decoded(inflate: Bytes -> Option<Bytes>, compression: nat, data: Bytes): Result<Bytes, ZipError> {
    if compression == 0 then Ok(data)
    else if compression == 8 then
      match inflate(data) case Some(d) => Ok(d) case None => Err(InflateFailed)
    else Err(UnsupportedMethod)
  }

  /** What is found behind a given end record. */
  function ExtractFrom(inflate: Bytes -> Option<Bytes>, buf: Bytes, eocd: int): Result<Bytes, ZipError> {
    match CentralAt(buf, eocd)
    case Err(e) => Err(e)
    case Ok(c) =>
      match DataAt(buf, c)
      case Err(e) => Err(e)
      case Ok(data) => Decoded(inflate, c.compression, data)
  }

  function Extract(inflate: Bytes -> Option<Bytes>, buf: Bytes): Result<Bytes, ZipError> {
    var eocd := LastSignature(buf, |buf| - 22);
    if eocd < 0 then Err(NoEocd) else ExtractFrom(inflate, buf, eocd)
  }

  method ExtractZipFirstFile(inflate: Bytes -> Option<Bytes>, buf: Bytes) returns (r: Result<Bytes, ZipError>)
    ensures r == Extract(inflate, buf)
  {
    var eocdOffset := FindEocd(buf);
    if eocdOffset < 0 { return Err(NoEocd); }
    var central := CentralAt(buf, eocdOffset);
    if central.Err? { return Err(central.error); }
    var compressed := DataAt(buf, central.value);
    if compressed.Err? { return Err(compressed.error); }
    r := Decoded(inflate, central.value.compression, compressed.value);
  }

  // ---------------------------------------------------------------- the packer

  function U16(n: nat): (b: Bytes)
    requires n < 0x1_0000
    ensures |b| == 2
  {
    [n % 256, n / 256]
  }

  function U32(n: nat): (b: Bytes)
    requires n < 0x1_0000_0000
    ensures |b| == 4
  {
    U16(n % 0x1_0000) + U16(n / 0x1_0000)
  }

  /**
   One entry; the fixed byte strings are the header fields between those the walker reads, the gap
   has room for a data descriptor (section 4.3.9).
   */
  datatype Archive = Archive(
    preamble: Bytes, localFields: Bytes, name: Bytes, extra: Bytes, data: Bytes, gap: Bytes, method_: nat,
    versions: Bytes, stamps: Bytes, attributes: Bytes, centralTail: Bytes, endFields: Bytes, comment: Bytes)

  predicate Packable(a: Archive) {
    && |a.localFields| == 22 && |a.name| < 0x1_0000 && |a.extra| < 0x1_0000 && |a.data| < 0x1_0000_0000
    && a.method_ < 0x1_0000 && |a.versions| == 6 && |a.stamps| == 8 && |a.attributes| == 18
    && |a.endFields| == 12 && |a.comment| <= MAX_COMMENT
    && CentralOffset(a) < 0x1_0000_0000
  }

  function CentralOffset(a: Archive): nat { |a.preamble| + 30 + |a.name| + |a.extra| + |a.data| + |a.gap| }

  function LocalHeader(a: Archive): (b: Bytes)
    requires Packable(a)
    ensures |b| == 30
  {
    U32(LOCAL_SIG) + a.localFields + U16(|a.name|) + U16(|a.extra|)
  }

  function CentralHeader(a: Archive): (b: Bytes)
    requires Packable(a)
    ensures |b| == 46
  {
    U32(CENTRAL_SIG) + a.versions + U16(a.method_) + a.stamps + U32(|a.data|) + a.attributes + U32(|a.preamble|)
  }

  function EndRecord(a: Archive): (b: Bytes)
    requires Packable(a)
    ensures |b| == 22
  {
    U32(EOCD_SIG) + a.endFields + U32(CentralOffset(a)) + U16(|a.comment|)
  }

  /** Everything before the central directory. */
  function Entry(a: Archive): (b: Bytes)
    requires Packable(a)
    ensures |b| == CentralOffset(a)
  {
    a.preamble + (LocalHeader(a) + (a.name + a.extra + a.data + a.gap))
  }

  function EndOffset(a: Archive): nat { CentralOffset(a) + 46 + |a.centralTail| }

  function Pack(a: Archive): (b: Bytes)
    requires Packable(a)
    ensures |b| == EndOffset(a) + 22 + |a.comment|
  {
    Entry(a) + (CentralHeader(a) + (a.centralTail + (EndRecord(a) + a.comment)))
  }

  // ---------------------------------------------------------------- reading packed fields

  /** Reading in a middle piece. */
  lemma ReadInside(pre: Bytes, mid: Bytes, post: Bytes, k: nat)
    ensures k + 4 <= |mid| ==> ReadU32(pre + (mid + post), |pre| + k) == ReadU32(mid, k)
    ensures k + 2 <= |mid| ==> ReadU16(pre + (mid + post), |pre| + k) == ReadU16(mid, k)
  {
    var all := pre + (mid + post);
    assert forall n :: 0 <= n < |mid| ==> all[|pre| + n] == mid[n];
  }

  lemma ReadPackedU16(pre: Bytes, n: nat, post: Bytes)
    requires n < 0x1_0000
    ensures ReadU16(pre + U16(n) + post, |pre|) == Some(n)
  {
    var all := pre + U16(n) + post;
    assert all[|pre|] == n % 256 && all[|pre| + 1] == n / 256;
  }

  lemma ReadPackedU32(pre: Bytes, n: nat, post: Bytes)
    requires n < 0x1_0000_0000
    ensures ReadU32(pre + U32(n) + post, |pre|) == Some(n)
  {
    var lo, hi := n % 0x1_0000, n / 0x1_0000;
    ReadPackedU16(pre, lo, U16(hi) + post);
    ReadPackedU16(pre + U16(lo), hi, post);
    HalvesJoin(pre, U16(lo), U16(hi), post);
  }

  lemma HalvesJoin(pre: Bytes, lo: Bytes, hi: Bytes, post: Bytes)
    requires |lo| == |hi| == 2
    ensures pre + lo + (hi + post) == pre + (lo + hi) + post == (pre + lo) + hi + post
  {
  }

  lemma LocalHeaderReads(a: Archive)
    requires Packable(a)
    ensures ReadU32(LocalHeader(a), 0) == Some(LOCAL_SIG)
    ensures ReadU16(LocalHeader(a), 26) == Some(|a.name|) && ReadU16(LocalHeader(a), 28) == Some(|a.extra|)
  {
    var p := U32(LOCAL_SIG) + a.localFields;
    var h := LocalHeader(a);
    ReadPackedU32([], LOCAL_SIG, h[4..]);
    ReadPackedU16(p, |a.name|, h[28..]);
    ReadPackedU16(p + U16(|a.name|), |a.extra|, []);
    HeaderPieces(U32(LOCAL_SIG), a.localFields, U16(|a.name|), U16(|a.extra|));
  }

  lemma HeaderPieces(sig: Bytes, fields: Bytes, n: Bytes, e: Bytes)
    requires |sig| == 4 && |fields| == 22 && |n| == |e| == 2
    ensures var h := sig + fields + n + e;
            h == [] + sig + h[4..] && h == sig + fields + n + h[28..] && h == sig + fields + n + e + []
  {
  }

  lemma CentralHeaderReads(a: Archive)
    requires Packable(a)
    ensures ReadU32(CentralHeader(a), 0) == Some(CENTRAL_SIG)
    ensures ReadU16(CentralHeader(a), 10) == Some(a.method_)
    ensures ReadU32(CentralHeader(a), 20) == Some(|a.data|)
    ensures ReadU32(CentralHeader(a), 42) == Some(|a.preamble|)
  {
    var p1 := U32(CENTRAL_SIG) + a.versions;
    var p2 := p1 + U16(a.method_) + a.stamps;
    var p3 := p2 + U32(|a.data|) + a.attributes;
    var h := CentralHeader(a);
    ReadPackedU32([], CENTRAL_SIG, h[4..]);
    ReadPackedU16(p1, a.method_, h[12..]);
    ReadPackedU32(p2, |a.data|, h[24..]);
    ReadPackedU32(p3, |a.preamble|, []);
    CentralPieces(a, p1, p2, p3, h);
  }

  lemma CentralPieces(a: Archive, p1: Bytes, p2: Bytes, p3: Bytes, h: Bytes)
    requires Packable(a) && h == CentralHeader(a)
    requires p1 == U32(CENTRAL_SIG) + a.versions && p2 == p1 + U16(a.method_) + a.stamps
    requires p3 == p2 + U32(|a.data|) + a.attributes
    ensures h == [] + U32(CENTRAL_SIG) + h[4..] == p1 + U16(a.method_) + h[12..]
    ensures h == p2 + U32(|a.data|) + h[24..] == p3 + U32(|a.preamble|) + []
  {
  }

  lemma EndRecordReads(a: Archive)
    requires Packable(a)
    ensures ReadU32(EndRecord(a), 0) == Some(EOCD_SIG) && ReadU32(EndRecord(a), 16) == Some(CentralOffset(a))
  {
    var h := EndRecord(a);
    var tail := a.endFields + U32(CentralOffset(a)) + U16(|a.comment|);
    ReadPackedU32([], EOCD_SIG, tail);
    assert h == [] + U32(EOCD_SIG) + tail;
    ReadPackedU32(U32(EOCD_SIG) + a.endFields, CentralOffset(a), U16(|a.comment|));
  }

  lemma EndReads(a: Archive)
    requires Packable(a)
    ensures ReadU32(Pack(a), EndOffset(a)) == Some(EOCD_SIG)
    ensures ReadU32(Pack(a), EndOffset(a) + 16) == Some(CentralOffset(a))
  {
    EndRecordReads(a);
    var pre := Entry(a) + CentralHeader(a) + a.centralTail;
    ReadInside(pre, EndRecord(a), a.comment, 0);
    ReadInside(pre, EndRecord(a), a.comment, 16);
    EndPieces(Entry(a), CentralHeader(a), a.centralTail, EndRecord(a) + a.comment);
  }

  lemma EndPieces(p: Bytes, q: Bytes, r: Bytes, t: Bytes)
    ensures p + (q + (r + t)) == p + q + r + t
  {
  }

  lemma LocalPieces(p: Bytes, q: Bytes, r: Bytes, t: Bytes)
    ensures (p + (q + r)) + t == p + (q + (r + t))
  {
  }

  lemma CentralReads(a: Archive)
    requires Packable(a)
    ensures var b, cd := Pack(a), CentralOffset(a);
            && ReadU32(b, cd) == Some(CENTRAL_SIG) && ReadU16(b, cd + 10) == Some(a.method_)
            && ReadU32(b, cd + 20) == Some(|a.data|) && ReadU32(b, cd + 42) == Some(|a.preamble|)
  {
    CentralHeaderReads(a);
    var post := a.centralTail + (EndRecord(a) + a.comment);
    ReadInside(Entry(a), CentralHeader(a), post, 0);
    ReadInside(Entry(a), CentralHeader(a), post, 10);
    ReadInside(Entry(a), CentralHeader(a), post, 20);
    ReadInside(Entry(a), CentralHeader(a), post, 42);
  }

  lemma LocalReads(a: Archive)
    requires Packable(a)
    ensures var b, local := Pack(a), |a.preamble|;
            && ReadU32(b, local) == Some(LOCAL_SIG)
            && ReadU16(b, local + 26) == Some(|a.name|) && ReadU16(b, local + 28) == Some(|a.extra|)
  {
    LocalHeaderReads(a);
    var body, rest := a.name + a.extra + a.data + a.gap, CentralHeader(a) + (a.centralTail + (EndRecord(a) + a.comment));
    LocalPieces(a.preamble, LocalHeader(a), body, rest);
    ReadInside(a.preamble, LocalHeader(a), body + rest, 0);
    ReadInside(a.preamble, LocalHeader(a), body + rest, 26);
    ReadInside(a.preamble, LocalHeader(a), body + rest, 28);
  }

  lemma PackedData(a: Archive)
    requires Packable(a)
    ensures var start := |a.preamble| + 30 + |a.name| + |a.extra|;
            Slice(Pack(a), start, start + |a.data|) == a.data
  {
    var pre := a.preamble + LocalHeader(a) + a.name + a.extra;
    var rest := CentralHeader(a) + (a.centralTail + (EndRecord(a) + a.comment));
    DataPieces(a.preamble, LocalHeader(a), a.name + a.extra, a.data, a.gap, rest);
    ConcatFacts(a.preamble + LocalHeader(a), a.name, a.extra);
    SliceMiddle(pre, a.data, a.gap + rest);
  }

  lemma DataPieces(p: Bytes, h: Bytes, n: Bytes, d: Bytes, g: Bytes, rest: Bytes)
    ensures (p + (h + (n + d + g))) + rest == p + h + n + d + (g + rest)
  {
  }

  lemma SliceMiddle(pre: Bytes, mid: Bytes, post: Bytes)
    ensures Slice(pre + mid + post, |pre|, |pre| + |mid|) == mid
  {
  }

  /** No end-record signature starts behind the archive's own. */
  predicate NoLaterSignature(a: Archive)
    requires Packable(a)
  {
    forall i :: EndOffset(a) < i <= |Pack(a)| - 22 ==> !SignatureAt(Pack(a), i)
  }

  /** The window always reaches the end record; it is the one found exactly when no later signature is there. */
  lemma EndRecordFound(a: Archive)
    requires Packable(a)
    ensures WindowStart(Pack(a)) <= EndOffset(a) <= |Pack(a)| - 22
    ensures LastSignature(Pack(a), |Pack(a)| - 22) == EndOffset(a) <==> NoLaterSignature(a)
  {
    var b := Pack(a);
    EndReads(a);
    LastSignatureFrom(b, |b| - 22);
    if NoLaterSignature(a) {
      LastSignatureUnique(b, LastSignature(b, |b| - 22), EndOffset(a));
    }
  }

  lemma CentralPacked(a: Archive)
    requires Packable(a)
    ensures CentralAt(Pack(a), EndOffset(a)) == Ok(Central(a.method_, |a.data|, |a.preamble|))
  {
    EndReads(a);
    CentralReads(a);
  }

  lemma DataPacked(a: Archive)
    requires Packable(a)
    ensures DataAt(Pack(a), Central(a.method_, |a.data|, |a.preamble|)) == Ok(a.data)
  {
    LocalReads(a);
    PackedData(a);
  }

  /** Single-entry recovery: a stored entry comes back byte for byte, a deflated one inflated. */
  lemma EntryRecovered(inflate: Bytes -> Option<Bytes>, a: Archive)
    requires Packable(a) && NoLaterSignature(a)
    ensures a.method_ == 0 ==> Extract(inflate, Pack(a)) == Ok(a.data)
    ensures a.method_ == 8 && inflate(a.data).Some? ==> Extract(inflate, Pack(a)) == Ok(inflate(a.data).value)
    ensures a.method_ != 0 && a.method_ != 8 ==> Extract(inflate, Pack(a)) == Err(UnsupportedMethod)
  {
    EndRecordFound(a);
    CentralPacked(a);
    DataPacked(a);
  }

  // ---------------------------------------------------------------- what is read, byte by byte

  /** The number bytes spell, least significant first. */
  function Little(b: Bytes): nat { if b == [] then 0 else b[0] + 256 * Little(b[1..]) }

  lemma LittleTwo(b: Bytes)
    requires |b| == 2
    ensures Little(b) == b[0] as int + 256 * b[1] as int
  {
    var t := b[1..];
    assert t[0] == b[1] && t[1..] == [];
    assert Little(t) == t[0] + 256 * Little(t[1..]);
  }

  lemma LittleFour(b: Bytes)
    requires |b| == 4
    ensures Little(b) == b[0] as int + 256 * b[1] as int + 0x1_0000 * b[2] as int + 0x100_0000 * b[3] as int
  {
    var t := b[1..];
    assert t[0] == b[1] && t[1..] == b[2..];
    LittleTwo(b[2..]);
    assert Little(t) == t[0] + 256 * Little(t[1..]);
  }

  lemma ReadIsLittle(buf: Bytes, i: int)
    ensures ReadU16(buf, i).Some? ==> 0 <= i && i + 2 <= |buf| && ReadU16(buf, i) == Some(Little(buf[i..i + 2]))
    ensures ReadU32(buf, i).Some? ==> 0 <= i && i + 4 <= |buf| && ReadU32(buf, i) == Some(Little(buf[i..i + 4]))
  {
    if ReadU16(buf, i).Some? { LittleTwo(buf[i..i + 2]); }
    if ReadU32(buf, i).Some? { LittleFour(buf[i..i + 4]); }
  }

  /** A signature is the letters PK and two numbers. */
  lemma SignatureBytes(b: Bytes, x: Byte, y: Byte)
    requires |b| == 4 && Little(b) == 0x4b50 + 0x1_0000 * x + 0x100_0000 * y
    ensures b == [0x50, 0x4b, x, y]
  {
    LittleFour(b);
    SameDigits(b[0], b[1], b[2], b[3], 0x50, 0x4b, x, y);
  }

  lemma SameDigits(a: Byte, b: Byte, c: Byte, d: Byte, e: Byte, f: Byte, g: Byte, h: Byte)
    requires a as int + 256 * b as int + 0x1_0000 * c as int + 0x100_0000 * d as int
             == e as int + 256 * f as int + 0x1_0000 * g as int + 0x100_0000 * h as int
    ensures a == e && b == f && c == g && d == h
  {
    LowDigit(a, b as int + 256 * c as int + 0x1_0000 * d as int, e, f as int + 256 * g as int + 0x1_0000 * h as int);
    LowDigit(b, c as int + 256 * d as int, f, g as int + 256 * h as int);
    LowDigit(c, d, g, h);
  }

  lemma LowDigit(a: Byte, x: int, b: Byte, y: int)
    requires a as int + 256 * x == b as int + 256 * y
    ensures a == b && x == y
  {
  }

  /** Where the walker looks: the central directory of an end record, and the local header it names. */
  predicate Located(buf: Bytes, eocd: int, cd: nat, local: nat) {
    && 0 <= eocd && eocd + 22 <= |buf| && buf[eocd..eocd + 4] == [0x50, 0x4b, 5, 6]
    && cd == Little(buf[eocd + 16..eocd + 20]) && cd + 46 <= |buf| && buf[cd..cd + 4] == [0x50, 0x4b, 1, 2]
    && local == Little(buf[cd + 42..cd + 46]) && local + 30 <= |buf| && buf[local..local + 4] == [0x50, 0x4b, 3, 4]
  }

  /** The entry's bytes behind its local header. */
  function Behind(buf: Bytes, cd: nat, local: nat): Bytes
    requires cd + 46 <= |buf| && local + 30 <= |buf|
  {
    var start := local + 30 + Little(buf[local + 26..local + 28]) + Little(buf[local + 28..local + 30]);
    Slice(buf, start, start + Little(buf[cd + 20..cd + 24]))
  }

  /** Whatever is extracted is the named entry's bytes, as they are or inflated, as its method says. */
  lemma ExtractMeans(inflate: Bytes -> Option<Bytes>, buf: Bytes) returns (eocd: int, cd: nat, local: nat)
    requires Extract(inflate, buf).Ok?
    ensures IsLastSignature(buf, eocd) && Located(buf, eocd, cd, local)
    ensures var data, method_ := Behind(buf, cd, local), Little(buf[cd + 10..cd + 12]);
            || (method_ == 0 && Extract(inflate, buf) == Ok(data))
            || (method_ == 8 && inflate(data).Some? && Extract(inflate, buf) == Ok(inflate(data).value))
  {
    eocd := EndMeans(inflate, buf);
    cd, local := Found(buf, eocd);
    DecodedMeans(inflate, CentralAt(buf, eocd).value.compression, DataAt(buf, CentralAt(buf, eocd).value).value);
  }

  lemma DecodedMeans(inflate: Bytes -> Option<Bytes>, method_: nat, data: Bytes)
    ensures Decoded(inflate, method_, data).Ok? ==>
              || (method_ == 0 && Decoded(inflate, method_, data) == Ok(data))
              || (method_ == 8 && inflate(data).Some? && Decoded(inflate, method_, data) == Ok(inflate(data).value))
  {
  }

  lemma Found(buf: Bytes, eocd: int) returns (cd: nat, local: nat)
    requires 0 <= eocd && eocd + 22 <= |buf| && buf[eocd..eocd + 4] == [0x50, 0x4b, 5, 6]
    requires CentralAt(buf, eocd).Ok? && DataAt(buf, CentralAt(buf, eocd).value).Ok?
    ensures Located(buf, eocd, cd, local)
    ensures CentralAt(buf, eocd).value.compression == Little(buf[cd + 10..cd + 12])
    ensures DataAt(buf, CentralAt(buf, eocd).value).value == Behind(buf, cd, local)
  {
    var c := CentralAt(buf, eocd).value;
    cd := CentralFound(buf, eocd);
    local := c.local;
    LocalMeans(buf, c);
    BehindIs(buf, cd, c, DataAt(buf, c).value);
  }

  lemma BehindIs(buf: Bytes, cd: nat, c: Central, data: Bytes)
    requires cd + 46 <= |buf| && c.local + 30 <= |buf| && c.compSize == Little(buf[cd + 20..cd + 24])
    requires var start := c.local + 30 + Little(buf[c.local + 26..c.local + 28]) + Little(buf[c.local + 28..c.local + 30]);
             data == Slice(buf, start, start + c.compSize)
    ensures data == Behind(buf, cd, c.local)
  {
  }

  lemma CentralFound(buf: Bytes, eocd: int) returns (cd: nat)
    requires 0 <= eocd && eocd + 22 <= |buf| && CentralAt(buf, eocd).Ok?
    ensures cd == Little(buf[eocd + 16..eocd + 20]) && cd + 46 <= |buf| && buf[cd..cd + 4] == [0x50, 0x4b, 1, 2]
    ensures CentralAt(buf, eocd).value
            == Central(Little(buf[cd + 10..cd + 12]), Little(buf[cd + 20..cd + 24]), Little(buf[cd + 42..cd + 46]))
  {
    cd := ReadU32(buf, eocd + 16).value;
    ReadIsLittle(buf, eocd + 16);
    CentralMeans(buf, eocd, cd, CentralAt(buf, eocd).value.local);
  }

  lemma EndMeans(inflate: Bytes -> Option<Bytes>, buf: Bytes) returns (eocd: int)
    requires Extract(inflate, buf).Ok?
    ensures IsLastSignature(buf, eocd) && 0 <= eocd && eocd + 22 <= |buf| && buf[eocd..eocd + 4] == [0x50, 0x4b, 5, 6]
    ensures CentralAt(buf, eocd).Ok? && DataAt(buf, CentralAt(buf, eocd).value).Ok?
    ensures Extract(inflate, buf) == Decoded(inflate, CentralAt(buf, eocd).value.compression, DataAt(buf, CentralAt(buf, eocd).value).value)
  {
    eocd := LastSignature(buf, |buf| - 22);
    if |buf| >= 22 { LastSignatureFrom(buf, |buf| - 22); }
    ReadIsLittle(buf, eocd);
    SignatureBytes(buf[eocd..eocd + 4], 5, 6);
  }

  lemma CentralMeans(buf: Bytes, eocd: int, cd: nat, local: nat)
    requires CentralAt(buf, eocd).Ok? && ReadU32(buf, eocd + 16) == Some(cd) && ReadU32(buf, cd + 42) == Some(local)
    ensures cd + 46 <= |buf| && buf[cd..cd + 4] == [0x50, 0x4b, 1, 2] && local == Little(buf[cd + 42..cd + 46])
    ensures CentralAt(buf, eocd).value == Central(Little(buf[cd + 10..cd + 12]), Little(buf[cd + 20..cd + 24]), local)
  {
    ReadIsLittle(buf, cd);
    ReadIsLittle(buf, cd + 10);
    ReadIsLittle(buf, cd + 20);
    ReadIsLittle(buf, cd + 42);
    SignatureBytes(buf[cd..cd + 4], 1, 2);
  }

  lemma LocalMeans(buf: Bytes, c: Central)
    requires DataAt(buf, c).Ok?
    ensures var local := c.local;
            && local + 30 <= |buf| && buf[local..local + 4] == [0x50, 0x4b, 3, 4]
            && var start := local + 30 + Little(buf[local + 26..local + 28]) + Little(buf[local + 28..local + 30]);
               DataAt(buf, c).value == Slice(buf, start, start + c.compSize)
  {
    ReadIsLittle(buf, c.local);
    ReadIsLittle(buf, c.local + 26);
    ReadIsLittle(buf, c.local + 28);
    SignatureBytes(buf[c.local..c.local + 4], 3, 4);
  }

  // ---------------------------------------------------------------- batches

  /** What one artifact turned out to be. `time` and `cost` are absent when not finite. */
  datatype Checked = Verified(p: Payload) | HmacFailed | MalformedJson | Failed

  datatype Payload = Payload(time: Option<int>, month: string, cost: Option<real>, workflow: string)

  function CheckAll(arts: seq<Bytes>, check: Bytes -> Checked): (r: seq<Checked>)
    ensures |r| == |arts|
  {
    if arts == [] then [] else CheckAll(arts[..|arts| - 1], check) + [check(arts[|arts| - 1])]
  }

  lemma {:induction false} CheckAllConcat(a: seq<Bytes>, b: seq<Bytes>, check: Bytes -> Checked)
    ensures CheckAll(a + b, check) == CheckAll(a, check) + CheckAll(b, check)
  {
    if b == [] {
      assert a + b == a;
    } else {
      CheckAllConcat(a, b[..|b| - 1], check);
      assert (a + b)[..|a + b| - 1] == a + b[..|b| - 1];
    }
  }

  lemma OneMoreBatch(items: seq<Bytes>, i: nat, end: nat, check: Bytes -> Checked)
    requires i <= end <= |items|
    ensures CheckAll(items[..end], check) == CheckAll(items[..i], check) + CheckAll(items[i..end], check)
  {
    CheckAllConcat(items[..i], items[i..end], check);
    assert items[..end] == items[..i] + items[i..end];
  }

  /** Batching keeps every result, in order, for any positive batch size. */
  method InBatches(items: seq<Bytes>, size: nat, check: Bytes -> Checked) returns (out: seq<Checked>)
    requires size > 0
    ensures out == CheckAll(items, check)
  {
    out := [];
    var i := 0;
    while i < |items|
      invariant 0 <= i && out == CheckAll(items[..if i < |items| then i else |items|], check)
    {
      var end := if i + size < |items| then i + size else |items|;
      var slice := items[i..end];
      OneMoreBatch(items, i, end, check);
      out := out + CheckAll(slice, check);
      i := i + size;
    }
    assert items[..|items|] == items;
  }

  // ---------------------------------------------------------------- filter and sum

  datatype Dropped = Dropped(hmacFailed: nat, wrongMonth: nat, tooOld: nat, malformed: nat)

  datatype Fate = Survives(p: Payload) | DropHmac | DropMonth | DropOld | DropMalformed

  function FateOf(c: Checked, cutoff: int, month: string): Fate {
    match c
    case HmacFailed => DropHmac
    case MalformedJson => DropMalformed
    case Failed => DropMalformed
    case Verified(p) =>
      if p.time.None? then DropMalformed
      else if p.time.value < cutoff then DropOld
      else if p.month != month then DropMonth
      else Survives(p)
  }

  function Survivors(cs: seq<Checked>, cutoff: int, month: string): seq<Payload> {
    if cs == [] then []
    else
      var f := FateOf(cs[|cs| - 1], cutoff, month);
      Survivors(cs[..|cs| - 1], cutoff, month) + if f.Survives? then [f.p] else []
  }

  function CountFate(cs: seq<Checked>, cutoff: int, month: string, f: Fate): nat {
    if cs == [] then 0
    else CountFate(cs[..|cs| - 1], cutoff, month, f) + if FateOf(cs[|cs| - 1], cutoff, month) == f then 1 else 0
  }

  /** The costs that count, with their workflows. */
  function Costs(ps: seq<Payload>): seq<Item> {
    if ps == [] then []
    else
      var p := ps[|ps| - 1];
      Costs(ps[..|ps| - 1]) + if p.cost.Some? then [Item(p.workflow, p.cost.value)] else []
  }

  /** How many payloads carry no finite cost. */
  function Costless(ps: seq<Payload>): nat {
    if ps == [] then 0 else Costless(ps[..|ps| - 1]) + if ps[|ps| - 1].cost.None? then 1 else 0
  }

  datatype Spend = Spend(total: real, percentage: real, perWorkflow: Totals, dropped: Dropped, survivingCount: nat)

  function DroppedFrom(cs: seq<Checked>, cutoff: int, month: string): Dropped {
    Dropped(CountFate(cs, cutoff, month, DropHmac), CountFate(cs, cutoff, month, DropMonth),
            CountFate(cs, cutoff, month, DropOld), CountFate(cs, cutoff, month, DropMalformed))
  }

  /** Phase 3 of `aggregate`: filter by month and age. */
  method Filter(verified: seq<Checked>, cutoff: int, month: string) returns (surviving: seq<Payload>, dropped: Dropped)
    ensures surviving == Survivors(verified, cutoff, month)
    ensures dropped == DroppedFrom(verified, cutoff, month)
  {
    dropped := Dropped(0, 0, 0, 0);
    surviving := [];
    for i := 0 to |verified|
      invariant surviving == Survivors(verified[..i], cutoff, month)
      invariant dropped == DroppedFrom(verified[..i], cutoff, month)
    {
      assert verified[..i + 1][..i] == verified[..i];
      var v := verified[i];
      if !v.Verified? {
        if v.HmacFailed? { dropped := dropped.(hmacFailed := dropped.hmacFailed + 1); }
        else { dropped := dropped.(malformed := dropped.malformed + 1); }
        continue;
      }
      if v.p.time.None? { dropped := dropped.(malformed := dropped.malformed + 1); continue; }
      if v.p.time.value < cutoff { dropped := dropped.(tooOld := dropped.tooOld + 1); continue; }
      if v.p.month != month { dropped := dropped.(wrongMonth := dropped.wrongMonth + 1); continue; }
      surviving := surviving + [v.p];
    }
    assert verified[..|verified|] == verified;
  }

  /** Phase 4: add up what the survivors cost, in all and by workflow. */
  method SumUp(surviving: seq<Payload>) returns (total: real, perWorkflow: Totals, malformed: nat)
    ensures total == SumAll(Costs(surviving)) && perWorkflow == TotalsOf(Costs(surviving))
    ensures malformed == Costless(surviving)
  {
    total, perWorkflow, malformed := 0.0, [], 0;
    for i := 0 to |surviving|
      invariant total == SumAll(Costs(surviving[..i])) && perWorkflow == TotalsOf(Costs(surviving[..i]))
      invariant malformed == Costless(surviving[..i])
    {
      assert surviving[..i + 1][..i] == surviving[..i];
      var p := surviving[i];
      ghost var before, after := Costs(surviving[..i]), Costs(surviving[..i + 1]);
      if p.cost.None? {
        assert after == before;
        malformed := malformed + 1;
        continue;
      }
      assert after == before + [Item(p.workflow, p.cost.value)];
      OneMore(before, Item(p.workflow, p.cost.value));
      total := total + p.cost.value;
      perWorkflow := AddTo(perWorkflow, p.workflow, p.cost.value);
    }
    assert surviving[..|surviving|] == surviving;
  }

  /** The result of `aggregate` for the artifacts verified so far. */
  method Summarise(verified: seq<Checked>, cutoff: int, month: string, budget: real) returns (s: Spend)
    ensures var ps := Survivors(verified, cutoff, month);
            && s.survivingCount == |ps| && s.perWorkflow == TotalsOf(Costs(ps)) && s.total == Round2(SumAll(Costs(ps)))
            && s.percentage == Percentage(SumAll(Costs(ps)), budget)
            && var d := DroppedFrom(verified, cutoff, month); s.dropped == d.(malformed := d.malformed + Costless(ps))
  {
    var surviving, dropped := Filter(verified, cutoff, month);
    var total, perWorkflow, malformed := SumUp(surviving);
    s := Spend(Round2(total), Percentage(total, budget), perWorkflow,
               dropped.(malformed := dropped.malformed + malformed), |surviving|);
  }

  function Percentage(total: real, budget: real): real {
    if budget > 0.0 then Round(total / budget * 1000.0) as real / 10.0 else 0.0
  }

  /** Nothing gets lost: every artifact survives or is dropped for one reason. */
  lemma {:induction false} EveryArtifactCounted(cs: seq<Checked>, cutoff: int, month: string)
    ensures |cs| == |Survivors(cs, cutoff, month)|
                    + CountFate(cs, cutoff, month, DropHmac) + CountFate(cs, cutoff, month, DropMonth)
                    + CountFate(cs, cutoff, month, DropOld) + CountFate(cs, cutoff, month, DropMalformed)
  {
    if cs != [] { EveryArtifactCounted(cs[..|cs| - 1], cutoff, month); }
  }

  /** A survivor counts in the sum or as one more malformed artifact. */
  lemma {:induction false} EverySurvivorCounted(ps: seq<Payload>)
    ensures |ps| == |Costs(ps)| + Costless(ps)
  {
    if ps != [] { EverySurvivorCounted(ps[..|ps| - 1]); }
  }

  /** What the payloads that satisfy a test cost, as far as their costs are finite. */
  function SpendWhere(ps: seq<Payload>, p: Payload -> bool): real {
    if ps == [] then 0.0
    else
      var last := ps[|ps| - 1];
      SpendWhere(ps[..|ps| - 1], p) + if p(last) && last.cost.Some? then last.cost.value else 0.0
  }

  lemma {:induction false} CostsOfPayloads(ps: seq<Payload>, workflow: string, all: Payload -> bool, one: Payload -> bool)
    requires forall p :: all(p) && (one(p) <==> p.workflow == workflow)
    ensures SumAll(Costs(ps)) == SpendWhere(ps, all) && SumFor(Costs(ps), workflow) == SpendWhere(ps, one)
  {
    if ps != [] {
      var init, p := ps[..|ps| - 1], ps[|ps| - 1];
      CostsOfPayloads(init, workflow, all, one);
      if p.cost.Some? { SumSnoc(Costs(init), Item(p.workflow, p.cost.value), workflow); }
      assert p.cost.None? ==> Costs(ps) == Costs(init);
      assert p.cost.Some? ==> Costs(ps) == Costs(init) + [Item(p.workflow, p.cost.value)];
      assert all(p) && (one(p) <==> p.workflow == workflow);
    }
  }

  lemma SumSnoc(items: seq<Item>, it: Item, key: string)
    ensures SumAll(items + [it]) == SumAll(items) + it.amount
    ensures SumFor(items + [it], key) == SumFor(items, key) + if it.key == key then it.amount else 0.0
  {
    assert (items + [it])[..|items|] == items;
  }

  /** The workflows' spends are what their artifacts cost, and together the total to half a cent. */
  lemma WorkflowsAddUp(ps: seq<Payload>, workflow: string)
    ensures AmountOf(TotalsOf(Costs(ps)), workflow) == SpendWhere(ps, (p: Payload) => p.workflow == workflow)
    ensures Sum(TotalsOf(Costs(ps))) == SumAll(Costs(ps)) == SpendWhere(ps, (p: Payload) => true)
    ensures -0.005 < Round2(SumAll(Costs(ps))) - Sum(TotalsOf(Costs(ps))) <= 0.005
  {
    CostsOfPayloads(ps, workflow, (p: Payload) => true, (p: Payload) => p.workflow == workflow);
    TotalsConserve(Costs(ps), workflow);
    HalfCent(SumAll(Costs(ps)), 0);
  }

  function CountWhere(cs: seq<Checked>, p: Checked -> bool): nat {
    if cs == [] then 0 else CountWhere(cs[..|cs| - 1], p) + if p(cs[|cs| - 1]) then 1 else 0
  }

  function PayloadsWhere(cs: seq<Checked>, p: Payload -> bool): seq<Payload> {
    if cs == [] then []
    else
      var c := cs[|cs| - 1];
      PayloadsWhere(cs[..|cs| - 1], p) + if c.Verified? && p(c.p) then [c.p] else []
  }

  lemma {:induction false} CountsAlike(cs: seq<Checked>, cutoff: int, month: string, f: Fate, p: Checked -> bool)
    requires forall c :: p(c) <==> FateOf(c, cutoff, month) == f
    ensures CountFate(cs, cutoff, month, f) == CountWhere(cs, p)
  {
    if cs != [] { CountsAlike(cs[..|cs| - 1], cutoff, month, f, p); }
  }

  lemma {:induction false} SurvivorsAlike(cs: seq<Checked>, cutoff: int, month: string, p: Payload -> bool)
    requires forall c :: FateOf(c, cutoff, month) == (if c.Verified? && p(c.p) then Survives(c.p) else FateOf(c, cutoff, month))
    requires forall c :: FateOf(c, cutoff, month).Survives? ==> c.Verified? && p(c.p)
    ensures Survivors(cs, cutoff, month) == PayloadsWhere(cs, p)
  {
    if cs != [] { SurvivorsAlike(cs[..|cs| - 1], cutoff, month, p); }
  }

  /**
   Who survives and who is dropped for which reason: a failed signature; no readable payload or
   no time; a time before the cutoff; else another month.
   */
  lemma FatesTell(cs: seq<Checked>, cutoff: int, month: string)
    ensures Survivors(cs, cutoff, month)
            == PayloadsWhere(cs, (p: Payload) => p.time.Some? && p.time.value >= cutoff && p.month == month)
    ensures DroppedFrom(cs, cutoff, month)
            == Dropped(CountWhere(cs, (c: Checked) => c == HmacFailed),
                       CountWhere(cs, (c: Checked) => c.Verified? && c.p.time.Some? && c.p.time.value >= cutoff && c.p.month != month),
                       CountWhere(cs, (c: Checked) => c.Verified? && c.p.time.Some? && c.p.time.value < cutoff),
                       CountWhere(cs, (c: Checked) => c == MalformedJson || c == Failed || (c.Verified? && c.p.time == None)))
  {
    SurvivorsAlike(cs, cutoff, month, (p: Payload) => p.time.Some? && p.time.value >= cutoff && p.month == month);
    CountsAlike(cs, cutoff, month, DropHmac, (c: Checked) => c == HmacFailed);
    CountsAlike(cs, cutoff, month, DropMonth,
                (c: Checked) => c.Verified? && c.p.time.Some? && c.p.time.value >= cutoff && c.p.month != month);
    CountsAlike(cs, cutoff, month, DropOld, (c: Checked) => c.Verified? && c.p.time.Some? && c.p.time.value < cutoff);
    CountsAlike(cs, cutoff, month, DropMalformed,
                (c: Checked) => c == MalformedJson || c == Failed || (c.Verified? && c.p.time == None));
  }

  /** The percentage of the budget, to a twentieth of a point; none without a budget. */
  lemma PercentageIs(total: real, budget: real)
    ensures budget <= 0.0 ==> Percentage(total, budget) == 0.0
    ensures budget > 0.0 ==> var exact := total / budget * 100.0; -0.05 <= Percentage(total, budget) - exact <= 0.05
  {
  }
}
