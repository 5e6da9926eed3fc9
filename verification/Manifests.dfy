/** Manifests and their validation (internal/manifest/types.go, internal/manifest/validate.go). */
module Manifests {
  import opened Bytes

  const MAX_CHUNKS: nat := 0x10_0000
  const VERSION1: uint16 := 1
  const ALGO_FIELD: nat := 32

  datatype Entry = Entry(id: Id, size: uint32, offset: uint64)

  datatype Manifest = Manifest(
    version: uint16,
    flags: uint16,
    algo: bytes,
    chunkSize: uint32,
    totalSize: uint64,
    objectId: Id,
    chunks: seq<Entry>)
  {
    /** Content-defined splitting? */
    predicate IsCdc() {
      And(flags, 1) != 0
    }
  }

  /** The flag is the lowest bit; the others do not matter. */
  lemma FlagBit(m: Manifest)
    ensures m.IsCdc() <==> m.flags % 2 == 1
  {
    AndOnes(m.flags, 1);
    assert Pow2(1) == 2 * Pow2(0);
  }

  datatype Fault =
    | BadVersion | EmptyAlgo | LongAlgo | TooManyChunks | ZeroObject
    | EmptyChunk(i: nat) | ZeroChunk(i: nat) | WrongOffset(i: nat) | WrongSize(i: nat) | LongChunk(i: nat)
    | WrongTotal
    | Truncated | BadCrc | BadMagic | EntryBytes

  datatype Result<+T> = Success(value: T) | Failure(error: Fault)

  /** The bytes the white-space character at the start of s takes up in UTF-8; 0 if there is none. */
  function SpaceLen(s: bytes): (n: nat)
    ensures n <= |s|
  {
    if s == [] then 0
    else if s[0] == 0x20 || 0x09 <= s[0] <= 0x0D then 1
    else if |s| >= 2 && s[0] == 0xC2 && (s[1] == 0x85 || s[1] == 0xA0) then 2
    else if |s| >= 3 && WideSpace(s[0], s[1], s[2]) then 3
    else 0
  }

  /** U+1680, U+2000 to U+200A, U+2028, U+2029, U+202F, U+205F, U+3000. */
  predicate WideSpace(a: byte, b: byte, c: byte) {
    || (a == 0xE1 && b == 0x9A && c == 0x80)
    || (a == 0xE2 && b == 0x80 && (0x80 <= c <= 0x8A || c == 0xA8 || c == 0xA9 || c == 0xAF))
    || (a == 0xE2 && b == 0x81 && c == 0x9F)
    || (a == 0xE3 && b == 0x80 && c == 0x80)
  }

  /** strings.TrimSpace leaves nothing. */
  predicate Blank(s: bytes)
    decreases |s|
  {
    s == [] || (SpaceLen(s) > 0 && Blank(s[SpaceLen(s)..]))
  }

  /** The white space of Unicode. */
  ghost predicate IsSpace(cp: nat) {
    || 9 <= cp <= 13 || cp == 0x20 || cp == 0x85 || cp == 0xA0 || cp == 0x1680 || 0x2000 <= cp <= 0x200A
    || cp == 0x2028 || cp == 0x2029 || cp == 0x202F || cp == 0x205F || cp == 0x3000
  }

  /** A character below U+10000 in UTF-8. */
  ghost function Utf8(cp: nat): bytes
    requires cp < 0x1_0000
  {
    if cp < 0x80 then [cp]
    else if cp < 0x800 then [0xC0 + cp / 64, 0x80 + cp % 64]
    else [0xE0 + cp / 4096, 0x80 + cp / 64 % 64, 0x80 + cp % 64]
  }

  ghost predicate StartsWith(s: bytes, cp: nat) {
    IsSpace(cp) && Utf8(cp) <= s
  }

  /** Which white-space character s begins with. */
  ghost function SpaceAt(s: bytes): nat
    requires SpaceLen(s) > 0
  {
    if SpaceLen(s) == 1 then s[0]
    else if SpaceLen(s) == 2 then s[1]
    else
      var high: int, middle: int, low: int := s[0], s[1], s[2];
      (high - 0xE0) * 4096 + (middle - 0x80) * 64 + (low - 0x80)
  }

  /** SpaceLen finds exactly the white-space characters, and their lengths. */
  lemma SpaceLenExact(s: bytes)
    ensures SpaceLen(s) > 0 <==> exists cp :: StartsWith(s, cp)
    ensures forall cp :: StartsWith(s, cp) ==> SpaceLen(s) == |Utf8(cp)|
  {
    if SpaceLen(s) > 0 {
      assert StartsWith(s, SpaceAt(s));
    }
    forall cp | StartsWith(s, cp)
      ensures SpaceLen(s) == |Utf8(cp)|
    {
      SpaceFound(s, cp);
    }
  }

  lemma SpaceFound(s: bytes, cp: nat)
    requires StartsWith(s, cp)
    ensures SpaceLen(s) == |Utf8(cp)|
  {
    assert s[0] == Utf8(cp)[0];
    assert cp >= 0x80 ==> s[1] == Utf8(cp)[1];
    assert cp >= 0x800 ==> s[2] == Utf8(cp)[2];
  }

  /** The characters cps, one after the other. */
  ghost function Text(cps: seq<nat>): bytes
    requires AllSpaces(cps)
  {
    if cps == [] then [] else Utf8(cps[0]) + Text(cps[1..])
  }

  ghost predicate AllSpaces(cps: seq<nat>) {
    forall i :: 0 <= i < |cps| ==> IsSpace(cps[i])
  }

  lemma {:induction false} BlankIsText(s: bytes) returns (cps: seq<nat>)
    requires Blank(s)
    ensures AllSpaces(cps) && Text(cps) == s
    decreases |s|
  {
    hide SpaceLen, Utf8;
    if s == [] {
      return [];
    }
    SpaceLenExact(s);
    var cp :| StartsWith(s, cp);
    var rest := BlankIsText(s[SpaceLen(s)..]);
    cps := [cp] + rest;
    assert cps[1..] == rest;
  }

  lemma {:induction false} TextIsBlank(cps: seq<nat>)
    requires AllSpaces(cps)
    ensures Blank(Text(cps))
  {
    hide SpaceLen, Utf8;
    if cps != [] {
      var s := Text(cps);
      assert StartsWith(s, cps[0]);
      SpaceLenExact(s);
      TextIsBlank(cps[1..]);
      assert s[SpaceLen(s)..] == Text(cps[1..]);
    }
  }

  /** A name is blank exactly if it is made of white-space characters alone. */
  lemma BlankExact(s: bytes)
    ensures Blank(s) <==> exists cps: seq<nat> :: AllSpaces(cps) && Text(cps) == s
  {
    if Blank(s) {
      var cps := BlankIsText(s);
    }
    forall cps: seq<nat> | AllSpaces(cps) && Text(cps) == s
      ensures Blank(s)
    {
      TextIsBlank(cps);
    }
  }

  function SizeSum(es: seq<Entry>): nat
  {
    if es == [] then 0 else SizeSum(es[..|es| - 1]) + es[|es| - 1].size
  }

  lemma {:induction false} SizeSumBound(es: seq<Entry>)
    ensures SizeSum(es) <= |es| * (TWO32 - 1)
  {
    if es != [] {
      SizeSumBound(es[..|es| - 1]);
    }
  }

  lemma {:induction false} SizeSumPrefix(es: seq<Entry>, i: nat)
    requires i <= |es|
    ensures SizeSum(es[..i]) <= SizeSum(es)
    decreases |es|
  {
    if i < |es| {
      SizeSumPrefix(es[..|es| - 1], i);
      assert es[..|es| - 1][..i] == es[..i];
    } else {
      assert es[..i] == es;
    }
  }

  /** Entry i follows on the ones before it and has a size the policy allows. */
  predicate EntryOk(m: Manifest, i: nat)
    requires i < |m.chunks|
  {
    var e := m.chunks[i];
    && e.size != 0 && e.id != 0
    && e.offset == SizeSum(m.chunks[..i])
    && (m.chunkSize > 0 && !m.IsCdc() ==>
          e.size <= m.chunkSize && (i < |m.chunks| - 1 ==> e.size == m.chunkSize))
  }

  /** A complete manifest: the chunks are non-empty, contiguous, and add up to the total. */
  predicate WellFormed(m: Manifest) {
    && (m.version == 0 || m.version == VERSION1)
    && !Blank(m.algo) && |m.algo| <= 31
    && |m.chunks| <= MAX_CHUNKS
    && m.objectId != 0
    && (forall i :: 0 <= i < |m.chunks| ==> EntryOk(m, i))
    && m.totalSize == SizeSum(m.chunks)
  }

  ghost predicate HeadOk(m: Manifest) {
    && m.version <= 1 && !Blank(m.algo) && |m.algo| <= 31 && |m.chunks| <= 1048576 && m.objectId != 0
  }

  ghost predicate FineUpTo(m: Manifest, i: nat) {
    HeadOk(m) && i <= |m.chunks| && forall j :: 0 <= j < i ==> EntryOk(m, j)
  }

  /** Is f what is wrong with m, and everything looked at before it in order? */
  ghost predicate Explains(m: Manifest, f: Fault) {
    match f
    case BadVersion => m.version > 1
    case EmptyAlgo => m.version <= 1 && Blank(m.algo)
    case LongAlgo => m.version <= 1 && !Blank(m.algo) && |m.algo| > 31
    case TooManyChunks => m.version <= 1 && !Blank(m.algo) && |m.algo| <= 31 && |m.chunks| > 1048576
    case ZeroObject =>
      m.version <= 1 && !Blank(m.algo) && |m.algo| <= 31 && |m.chunks| <= 1048576 && m.objectId == 0
    case EmptyChunk(i) => FineUpTo(m, i) && i < |m.chunks| && m.chunks[i].size == 0
    case ZeroChunk(i) => FineUpTo(m, i) && i < |m.chunks| && m.chunks[i].size != 0 && m.chunks[i].id == 0
    case WrongOffset(i) =>
      && FineUpTo(m, i) && i < |m.chunks| && m.chunks[i].size != 0 && m.chunks[i].id != 0
      && m.chunks[i].offset != SizeSum(m.chunks[..i])
    case WrongSize(i) => Placed(m, i) && i < |m.chunks| - 1 && m.chunks[i].size != m.chunkSize
    case LongChunk(i) => Placed(m, i) && i == |m.chunks| - 1 && m.chunks[i].size > m.chunkSize
    case WrongTotal => FineUpTo(m, |m.chunks|) && m.totalSize != SizeSum(m.chunks)
    case _ => false
  }

  /** Entry i is where it belongs, in a manifest of blocks of one size. */
  ghost predicate Placed(m: Manifest, i: nat) {
    && FineUpTo(m, i) && i < |m.chunks| && m.chunks[i].size != 0 && m.chunks[i].id != 0
    && m.chunks[i].offset == SizeSum(m.chunks[..i]) && m.chunkSize > 0 && !m.IsCdc()
  }

  /** Only what is not well formed is explained, and by one fault only. */
  lemma OneExplanation(m: Manifest, f: Fault, g: Fault)
    requires Explains(m, f)
    ensures !WellFormed(m)
    ensures Explains(m, g) ==> f == g
  {
    hide Blank, SizeSum;
    ExplainsAt(m, f);
    if Explains(m, g) {
      ExplainsAt(m, g);
    }
  }

  /** The entry a fault lies at, one past the last for the total, -1 for the header. */
  ghost function At(m: Manifest, f: Fault): int {
    match f
    case EmptyChunk(i) => i
    case ZeroChunk(i) => i
    case WrongOffset(i) => i
    case WrongSize(i) => i
    case LongChunk(i) => i
    case WrongTotal => |m.chunks|
    case _ => -1
  }

  lemma ExplainsAt(m: Manifest, f: Fault)
    requires Explains(m, f)
    ensures At(m, f) >= 0 ==> FineUpTo(m, At(m, f))
    ensures 0 <= At(m, f) < |m.chunks| ==> !EntryOk(m, At(m, f))
    ensures At(m, f) < 0 ==> !HeadOk(m)
  {
    hide Blank, SizeSum;
  }

  method IsBlank(s: bytes) returns (blank: bool)
    ensures blank == Blank(s)
  {
    var rest := s;
    while rest != []
      invariant Blank(rest) == Blank(s)
      decreases |rest|
    {
      var n := SpaceLen(rest);
      if n == 0 {
        return false;
      }
      rest := rest[n..];
    }
    return true;
  }

  /** What Validate asks of entry i. */
  method CheckEntry(m: Manifest, i: nat, expectOff: uint64) returns (res: Result<Entry>)
    requires FineUpTo(m, i) && i < |m.chunks| && expectOff == SizeSum(m.chunks[..i])
    ensures res.Success? <==> EntryOk(m, i)
    ensures res.Failure? ==> Explains(m, res.error)
  {
    hide Blank, SizeSum;
    var e := m.chunks[i];
    if e.size == 0 {
      return Failure(EmptyChunk(i));
    }
    if e.id == 0 {
      return Failure(ZeroChunk(i));
    }
    if e.offset != expectOff {
      return Failure(WrongOffset(i));
    }
    if m.chunkSize > 0 && !m.IsCdc() && i < |m.chunks| - 1 && e.size != m.chunkSize {
      return Failure(WrongSize(i));
    }
    if m.chunkSize > 0 && !m.IsCdc() && e.size > m.chunkSize {
      return Failure(LongChunk(i));
    }
    return Success(e);
  }

  /** Accepts exactly the well-formed manifests, and gives version 0 the number 1. */
  method Validate(m: Manifest) returns (res: Result<Manifest>)
    ensures res.Success? <==> WellFormed(m)
    ensures res.Success? ==> res.value == m.(version := VERSION1)
    ensures res.Failure? ==> Explains(m, res.error)
  {
    hide Blank;
    var version := if m.version == 0 then VERSION1 else m.version;
    if version != VERSION1 {
      return Failure(BadVersion);
    }
    var blank := IsBlank(m.algo);
    if blank {
      return Failure(EmptyAlgo);
    }
    if |m.algo| > 31 {
      return Failure(LongAlgo);
    }
    if |m.chunks| > MAX_CHUNKS {
      return Failure(TooManyChunks);
    }
    if m.objectId == 0 {
      return Failure(ZeroObject);
    }
    var sum: uint64, expectOff: uint64 := 0, 0;
    SizeSumBound(m.chunks);
    for i := 0 to |m.chunks|
      invariant sum == expectOff == SizeSum(m.chunks[..i])
      invariant forall j :: 0 <= j < i ==> EntryOk(m, j)
    {
      var e := m.chunks[i];
      var fault := CheckEntry(m, i, expectOff);
      if fault.Failure? {
        return Failure(fault.error);
      }
      assert m.chunks[..i + 1][..i] == m.chunks[..i];
      SizeSumPrefix(m.chunks, i + 1);
      sum := (sum + e.size) % TWO64;
      expectOff := (expectOff + e.size) % TWO64;
    }
    assert m.chunks[..|m.chunks|] == m.chunks;
    if sum != m.totalSize {
      return Failure(WrongTotal);
    }
    return Success(m.(version := version));
  }

  /** The manifest of an object: version 1, the total added up from the entries. */
  function Made(algo: bytes, chunkSize: uint32, cdc: bool, oid: Id, chunks: seq<Entry>): Manifest {
    Manifest(VERSION1, if cdc then 1 else 0, algo, chunkSize, SizeSum(chunks) % TWO64, oid, chunks)
  }

  method New(algo: bytes, chunkSize: uint32, cdc: bool, oid: Id, chunks: seq<Entry>) returns (m: Manifest)
    ensures m == Made(algo, chunkSize, cdc, oid, chunks)
  {
    m := Manifest(VERSION1, if cdc then 1 else 0, algo, chunkSize, 0, oid, chunks);
    for i := 0 to |chunks|
      invariant m == Made(algo, chunkSize, cdc, oid, chunks).(totalSize := SizeSum(chunks[..i]) % TWO64)
    {
      assert chunks[..i + 1][..i] == chunks[..i];
      WrapAdd(SizeSum(chunks[..i]), chunks[i].size);
      m := m.(totalSize := (m.totalSize + chunks[i].size) % TWO64);
    }
    assert chunks[..|chunks|] == chunks;
  }

  function ChunkIds(m: Manifest): (ids: seq<Id>)
    ensures |ids| == |m.chunks|
  {
    seq(|m.chunks|, i requires 0 <= i < |m.chunks| => m.chunks[i].id)
  }
}
