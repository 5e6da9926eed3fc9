/** The binary form of a manifest (internal/manifest/codec.go): little-endian fields and a CRC-32 of
    everything before it. The checksum is any function of the bytes. */
module Codec {
  import opened Bytes
  import opened Manifests

  const MAGIC: uint32 := 0x424C_4253
  const HEADER: nat := 88
  const ENTRY: nat := 44
  const CRC: nat := 4

  /** A name padded with zero bytes to the algorithm field. */
  function Padded(s: bytes): (r: bytes)
    requires |s| <= ALGO_FIELD
    ensures |r| == ALGO_FIELD
  {
    s + seq(ALGO_FIELD - |s|, _ => 0)
  }

  function CString(b: bytes): (s: bytes)
    ensures |s| <= |b|
  {
    if b == [] || b[0] == 0 then [] else [b[0]] + CString(b[1..])
  }

  predicate NoNul(s: bytes) {
    forall i :: 0 <= i < |s| ==> s[i] != 0
  }

  function EntryBytesOf(e: Entry): (r: bytes)
    ensures |r| == ENTRY
  {
    LE(e.id, 32) + LE(e.size, 4) + LE(e.offset, 8)
  }

  function EntriesBytes(es: seq<Entry>): (r: bytes)
    ensures |r| == ENTRY * |es|
  {
    if es == [] then [] else EntriesBytes(es[..|es| - 1]) + EntryBytesOf(es[|es| - 1])
  }

  function HeaderBytes(m: Manifest): (r: bytes)
    requires |m.algo| <= ALGO_FIELD
    ensures |r| == HEADER
  {
    LE(MAGIC, 4) + LE(m.version, 2) + LE(m.flags, 2) + Padded(m.algo) + LE(m.chunkSize, 4)
      + LE(|m.chunks|, 4) + LE(m.totalSize, 8) + LE(m.objectId, 32)
  }

  function Body(m: Manifest): (r: bytes)
    requires |m.algo| <= ALGO_FIELD
    ensures |r| == HEADER + ENTRY * |m.chunks|
  {
    HeaderBytes(m) + EntriesBytes(m.chunks)
  }

  function Encoded(m: Manifest, crc: Crc): (raw: bytes)
    requires |m.algo| <= ALGO_FIELD
    ensures |raw| == 92 + 44 * |m.chunks|
  {
    Body(m) + LE(crc(Body(m)), CRC)
  }

  method Encode(m: Manifest, crc: Crc) returns (res: Result<bytes>)
    ensures res.Success? <==> WellFormed(m)
    ensures res.Success? ==> res.value == Encoded(m.(version := VERSION1), crc)
    ensures res.Failure? ==> Explains(m, res.error)
  {
    hide LE, HeaderBytes, EntryBytesOf;
    var checked := Validate(m);
    if checked.Failure? {
      return Failure(checked.error);
    }
    var m1 := checked.value;
    var buf := HeaderBytes(m1);
    for i := 0 to |m1.chunks|
      invariant buf == HeaderBytes(m1) + EntriesBytes(m1.chunks[..i])
    {
      assert m1.chunks[..i + 1][..i] == m1.chunks[..i];
      buf := buf + EntryBytesOf(m1.chunks[i]);
    }
    assert m1.chunks[..|m1.chunks|] == m1.chunks;
    return Success(buf + LE(crc(buf), CRC));
  }

  // ---- Reading it back ----

  function ReadEntry(b: bytes): Entry
    requires |b| == ENTRY
  {
    FieldFits(b[..32], 32);
    FieldFits(b[32..36], 4);
    FieldFits(b[36..44], 8);
    Entry(FromLE(b[..32]), FromLE(b[32..36]), FromLE(b[36..44]))
  }

  lemma FieldFits(b: bytes, width: nat)
    requires |b| == width
    ensures FromLE(b) < Pow256(width)
    ensures Pow256(2) == TWO16 && Pow256(4) == TWO32 && Pow256(8) == TWO64 && Pow256(32) == TWO256
  {
    LEOfFromLE(b);
    FieldWidths();
  }

  function ReadEntries(b: bytes, n: nat): (es: seq<Entry>)
    requires |b| == ENTRY * n
    ensures |es| == n
  {
    if n == 0 then [] else ReadEntries(b[..ENTRY * (n - 1)], n - 1) + [ReadEntry(b[ENTRY * (n - 1)..])]
  }

  /** The manifest the fields of a body spell, whatever they are. */
  function ReadBody(body: bytes, n: nat): (m: Manifest)
    requires |body| == HEADER + ENTRY * n
    ensures |m.chunks| == n
  {
    FieldFits(body[4..6], 2);
    FieldFits(body[6..8], 2);
    FieldFits(body[40..44], 4);
    FieldFits(body[48..56], 8);
    FieldFits(body[56..88], 32);
    Manifest(FromLE(body[4..6]), FromLE(body[6..8]), CString(body[8..40]), FromLE(body[40..44]),
             FromLE(body[48..56]), FromLE(body[56..88]), ReadEntries(body[HEADER..], n))
  }

  /** Are these the bytes of a manifest? Length, checksum, magic and count agree, the rest is well formed. */
  ghost predicate Readable(raw: bytes, crc: Crc) {
    && |raw| >= HEADER + CRC
    && var body := raw[..|raw| - CRC];
       var n := FromLE(body[44..48]);
       && FromLE(raw[|raw| - CRC..]) == crc(body)
       && FromLE(body[..4]) == MAGIC
       && |body| == HEADER + ENTRY * n
       && WellFormed(ReadBody(body, n))
  }

  ghost function Meaning(raw: bytes, crc: Crc): Manifest
    requires Readable(raw, crc)
  {
    var body := raw[..|raw| - CRC];
    ReadBody(body, FromLE(body[44..48])).(version := VERSION1)
  }

  method ReadCString(b: bytes) returns (s: bytes)
    ensures s == CString(b)
  {
    var n := 0;
    while n < |b| && b[n] != 0
      invariant n <= |b| && b[..n] + CString(b[n..]) == CString(b)
    {
      assert CString(b[n..]) == [b[n]] + CString(b[n + 1..]);
      n := n + 1;
    }
    return b[..n];
  }

  /** Long enough, and the last four bytes are the checksum of the others. */
  ghost predicate Sealed(raw: bytes, crc: Crc) {
    |raw| >= 92 && FromLE(raw[|raw| - 4..]) == crc(raw[..|raw| - 4])
  }

  /** What is wrong with the bytes raw: their length, their checksum, the magic number, the number of entries
      or their length, in this order; or with the manifest they spell. */
  ghost predicate DecodeFails(raw: bytes, crc: Crc, f: Fault) {
    if |raw| < 92 then f == Truncated
    else if !Sealed(raw, crc) then f == Fault.BadCrc
    else if raw[..4] != [0x53, 0x42, 0x4C, 0x42] then f == Fault.BadMagic
    else
      var n := FromLE(raw[44..48]);
      if n > 1048576 then f == TooManyChunks
      else if |raw| != 92 + 44 * n then f == EntryBytes
      else Explains(ReadBody(raw[..|raw| - 4], n), f)
  }

  lemma MagicTold(raw: bytes)
    requires |raw| >= 92
    ensures FromLE(raw[..|raw| - 4][..4]) == MAGIC <==> raw[..4] == [0x53, 0x42, 0x4C, 0x42]
    ensures raw[..|raw| - 4][44..48] == raw[44..48]
  {
    hide LE, FromLE;
    MagicBytes();
    FieldBack(MAGIC, 4);
    LEOfFromLE(raw[..4]);
    var body := raw[..|raw| - 4];
    assert body[..4] == raw[..4];
    assert body[44..48] == raw[44..48];
  }

  /** Accepts exactly the readable byte strings. */
  method Decode(raw: bytes, crc: Crc) returns (res: Result<Manifest>)
    ensures res.Success? <==> Readable(raw, crc)
    ensures res.Success? ==> res.value == Meaning(raw, crc)
    ensures res.Failure? ==> DecodeFails(raw, crc, res.error)
  {
    hide Blank, Explains, ReadEntry, FromLE, CString;
    if |raw| < HEADER + CRC {
      return Failure(Truncated);
    }
    var body := raw[..|raw| - CRC];
    if FromLE(raw[|raw| - CRC..]) != crc(body) {
      return Failure(BadCrc);
    }
    MagicTold(raw);
    if FromLE(body[..4]) != MAGIC {
      return Failure(BadMagic);
    }
    var count := FromLE(body[44..48]);
    if count > MAX_CHUNKS {
      if |body| == HEADER + ENTRY * count {
        assert |ReadBody(body, count).chunks| > MAX_CHUNKS;
      }
      return Failure(TooManyChunks);
    }
    if count * ENTRY != |body| - HEADER {
      return Failure(EntryBytes);
    }
    var algo := ReadCString(body[8..40]);
    var rest := body[HEADER..];
    var chunks: seq<Entry> := [];
    for i := 0 to count
      invariant ENTRY * i <= |rest| && chunks == ReadEntries(rest[..ENTRY * i], i)
    {
      var b := rest[..ENTRY * (i + 1)];
      assert b[..ENTRY * i] == rest[..ENTRY * i] && b[ENTRY * i..] == rest[ENTRY * i..ENTRY * (i + 1)];
      chunks := chunks + [ReadEntry(rest[ENTRY * i..ENTRY * (i + 1)])];
    }
    assert rest[..ENTRY * count] == rest;
    var m := ReadBody(body, count).(algo := algo, chunks := chunks);
    assert m == ReadBody(body, count) && body == raw[..|raw| - 4] && count == FromLE(raw[44..48]);
    res := Validate(m);
    assert res.Failure? ==> DecodeFails(raw, crc, res.error);
  }

  // ---- Round trips ----

  lemma {:induction false} CStringOfPadded(s: bytes, n: nat)
    requires NoNul(s)
    ensures CString(s + seq(n, _ => 0)) == s
  {
    if s == [] {
      assert s + seq(n, _ => 0 as byte) == seq(n, _ => 0);
    } else {
      CStringOfPadded(s[1..], n);
      assert (s + seq(n, _ => 0))[1..] == s[1..] + seq(n, _ => 0);
    }
  }

  lemma FieldBack(x: nat, width: nat)
    requires width == 2 || width == 4 || width == 8 || width == 32
    requires width == 2 ==> x < TWO16
    requires width == 4 ==> x < TWO32
    requires width == 8 ==> x < TWO64
    requires width == 32 ==> x < TWO256
    ensures FromLE(LE(x, width)) == x
  {
    FieldWidths();
    FromLEOfLE(x, width);
  }

  lemma EntryBack(e: Entry)
    ensures ReadEntry(EntryBytesOf(e)) == e
  {
    var b := EntryBytesOf(e);
    assert b[..32] == LE(e.id, 32) && b[32..36] == LE(e.size, 4) && b[36..44] == LE(e.offset, 8);
    FieldBack(e.id, 32);
    FieldBack(e.size, 4);
    FieldBack(e.offset, 8);
  }

  lemma {:induction false} EntriesBack(es: seq<Entry>)
    ensures ReadEntries(EntriesBytes(es), |es|) == es
  {
    if es != [] {
      var n := |es|;
      var b := EntriesBytes(es);
      EntriesBack(es[..n - 1]);
      EntryBack(es[n - 1]);
      assert b[..ENTRY * (n - 1)] == EntriesBytes(es[..n - 1]);
      assert b[ENTRY * (n - 1)..] == EntryBytesOf(es[n - 1]);
    }
  }

  lemma HeaderSlices(m: Manifest)
    requires |m.algo| <= ALGO_FIELD
    ensures var h := HeaderBytes(m);
      && h[..4] == LE(MAGIC, 4) && h[4..6] == LE(m.version, 2) && h[6..8] == LE(m.flags, 2)
      && h[8..40] == Padded(m.algo) && h[40..44] == LE(m.chunkSize, 4) && h[44..48] == LE(|m.chunks|, 4)
      && h[48..56] == LE(m.totalSize, 8) && h[56..88] == LE(m.objectId, 32)
  {
  }

  lemma MagicBytes()
    ensures LE(MAGIC, 4) == [0x53, 0x42, 0x4C, 0x42]
  {
    assert LE(MAGIC, 4) == [0x53] + LE(0x42_4C42, 3);
    assert LE(0x42_4C42, 3) == [0x42] + LE(0x424C, 2);
    assert LE(0x424C, 2) == [0x4C] + LE(0x42, 1);
  }

  /** The bytes of a manifest, at their places: magic number, version, flags, name filled up with zeros, chunk
      size, number of entries, total, digest; the entries; the checksum of all before. */
  lemma ManifestLayout(m: Manifest, crc: Crc)
    requires |m.algo| <= 32
    ensures var raw, n := Encoded(m, crc), |m.chunks|;
      && |raw| == 92 + 44 * n && raw[..4] == [0x53, 0x42, 0x4C, 0x42]
      && raw[4..6] == LE(m.version, 2) && raw[6..8] == LE(m.flags, 2)
      && raw[8..8 + |m.algo|] == m.algo && (forall i :: 8 + |m.algo| <= i < 40 ==> raw[i] == 0)
      && raw[40..44] == LE(m.chunkSize, 4) && raw[44..48] == LE(n, 4)
      && raw[48..56] == LE(m.totalSize, 8) && raw[56..88] == LE(m.objectId, 32)
      && raw[88 + 44 * n..] == LE(crc(raw[..88 + 44 * n]), 4)
  {
    hide LE, EntriesBytes;
    MagicBytes();
    HeaderSlices(m);
    var h, raw, n := HeaderBytes(m), Encoded(m, crc), |m.chunks|;
    assert raw[..88] == h && raw[..88 + 44 * n] == Body(m);
    assert raw[..4] == h[..4] && raw[4..6] == h[4..6] && raw[6..8] == h[6..8] && raw[8..40] == h[8..40];
    assert raw[40..44] == h[40..44] && raw[44..48] == h[44..48] && raw[48..56] == h[48..56] && raw[56..88] == h[56..88];
    assert raw[8..8 + |m.algo|] == raw[8..40][..|m.algo|];
    forall i | 8 + |m.algo| <= i < 40
      ensures raw[i] == 0
    {
      assert raw[i] == raw[8..40][i - 8];
    }
  }

  /** Entry i has 44 bytes from 88 + 44 * i on: digest, size, offset. */
  lemma EntryLayout(m: Manifest, crc: Crc, i: nat)
    requires |m.algo| <= 32 && i < |m.chunks|
    ensures var raw, at, e := Encoded(m, crc), 88 + 44 * i, m.chunks[i];
      && raw[at..at + 32] == LE(e.id, 32) && raw[at + 32..at + 36] == LE(e.size, 4)
      && raw[at + 36..at + 44] == LE(e.offset, 8)
  {
    hide LE, HeaderBytes;
    var raw, at, e := Encoded(m, crc), 88 + 44 * i, m.chunks[i];
    EntryAt(m.chunks, i);
    var es := EntriesBytes(m.chunks);
    assert raw[88..88 + |es|] == es;
    assert raw[at..at + 44] == es[44 * i..44 * i + 44] == EntryBytesOf(e);
    assert raw[at..at + 32] == raw[at..at + 44][..32];
    assert raw[at + 32..at + 36] == raw[at..at + 44][32..36];
    assert raw[at + 36..at + 44] == raw[at..at + 44][36..44];
  }

  lemma {:induction false} EntryAt(es: seq<Entry>, i: nat)
    requires i < |es|
    ensures EntriesBytes(es)[44 * i..44 * i + 44] == EntryBytesOf(es[i])
    decreases |es|
  {
    hide EntryBytesOf;
    if i < |es| - 1 {
      EntryAt(es[..|es| - 1], i);
    }
  }

  lemma BodyBack(m: Manifest)
    requires |m.algo| <= ALGO_FIELD && NoNul(m.algo) && |m.chunks| <= MAX_CHUNKS
    ensures FromLE(Body(m)[..4]) == MAGIC && FromLE(Body(m)[44..48]) == |m.chunks|
    ensures ReadBody(Body(m), |m.chunks|) == m
  {
    hide LE, FromLE, CString;
    var h, b := HeaderBytes(m), Body(m);
    HeaderSlices(m);
    assert b[..4] == h[..4] && b[4..6] == h[4..6] && b[6..8] == h[6..8] && b[8..40] == h[8..40];
    assert b[40..44] == h[40..44] && b[44..48] == h[44..48] && b[48..56] == h[48..56] && b[56..88] == h[56..88];
    assert b[HEADER..] == EntriesBytes(m.chunks);
    FieldBack(MAGIC, 4);
    FieldBack(m.version, 2);
    FieldBack(m.flags, 2);
    FieldBack(m.chunkSize, 4);
    FieldBack(|m.chunks|, 4);
    FieldBack(m.totalSize, 8);
    FieldBack(m.objectId, 32);
    CStringOfPadded(m.algo, ALGO_FIELD - |m.algo|);
    EntriesBack(m.chunks);
  }

  /** Every version-1 manifest that validates and has no NUL in its algorithm name comes back unchanged. */
  lemma RoundTrip(m: Manifest, crc: Crc)
    requires WellFormed(m) && m.version == VERSION1 && NoNul(m.algo)
    ensures Readable(Encoded(m, crc), crc) && Meaning(Encoded(m, crc), crc) == m
    ensures |Encoded(m, crc)| == 92 + 44 * |m.chunks|
  {
    var raw := Encoded(m, crc);
    assert raw[..|raw| - CRC] == Body(m) && raw[|raw| - CRC..] == LE(crc(Body(m)), CRC);
    FieldBack(crc(Body(m)), CRC);
    BodyBack(m);
  }

  lemma EntryForth(b: bytes)
    requires |b| == ENTRY
    ensures EntryBytesOf(ReadEntry(b)) == b
  {
    hide LE, FromLE;
    LEOfFromLE(b[..32]);
    LEOfFromLE(b[32..36]);
    LEOfFromLE(b[36..44]);
    assert b == b[..32] + b[32..36] + b[36..44];
  }

  lemma {:induction false} EntriesForth(b: bytes, n: nat)
    requires |b| == ENTRY * n
    ensures EntriesBytes(ReadEntries(b, n)) == b
  {
    hide EntryBytesOf, ReadEntry;
    if n > 0 {
      var k := ENTRY * (n - 1);
      EntriesForth(b[..k], n - 1);
      EntryForth(b[k..]);
      assert ReadEntries(b, n)[..n - 1] == ReadEntries(b[..k], n - 1);
      assert b == b[..k] + b[k..];
    }
  }

  /** The header of what was read, field by field. */
  lemma HeaderForth(h: bytes, m: Manifest, n: nat)
    requires |h| == HEADER && |m.algo| <= ALGO_FIELD && |m.chunks| == n
    requires FromLE(h[..4]) == MAGIC && FromLE(h[6..8]) == m.flags && FromLE(h[40..44]) == m.chunkSize
    requires FromLE(h[44..48]) == n && FromLE(h[48..56]) == m.totalSize && FromLE(h[56..88]) == m.objectId
    ensures HeaderBytes(m) == h <==> h[4..6] == LE(m.version, 2) && h[8..40] == Padded(m.algo)
  {
    hide LE, FromLE, Padded, EntriesBytes;
    HeaderSlices(m);
    LEOfFromLE(h[..4]);
    LEOfFromLE(h[6..8]);
    LEOfFromLE(h[40..44]);
    LEOfFromLE(h[44..48]);
    LEOfFromLE(h[48..56]);
    LEOfFromLE(h[56..88]);
    assert h == h[..4] + h[4..6] + h[6..8] + h[8..40] + h[40..44] + h[44..48] + h[48..56] + h[56..88];
  }

  lemma VersionField(f: bytes)
    requires |f| == 2
    ensures f == LE(VERSION1, 2) <==> FromLE(f) == VERSION1
  {
    LEOfFromLE(f);
    FieldBack(VERSION1, 2);
  }

  lemma BodyForth(body: bytes, n: nat)
    requires |body| == HEADER + ENTRY * n && FromLE(body[..4]) == MAGIC && FromLE(body[44..48]) == n
    requires |CString(body[8..40])| <= 31
    ensures Body(ReadBody(body, n).(version := VERSION1)) == body
        <==> FromLE(body[4..6]) == VERSION1 && body[8..40] == Padded(CString(body[8..40]))
  {
    hide FromLE, LE, Padded, CString, HeaderBytes, EntriesBytes, ReadEntries;
    var m := ReadBody(body, n).(version := VERSION1);
    var h := body[..HEADER];
    assert h[..4] == body[..4] && h[4..6] == body[4..6] && h[6..8] == body[6..8] && h[8..40] == body[8..40];
    assert h[40..44] == body[40..44] && h[44..48] == body[44..48] && h[48..56] == body[48..56]
        && h[56..88] == body[56..88];
    HeaderForth(h, m, n);
    VersionField(body[4..6]);
    EntriesForth(body[HEADER..], n);
    assert body == h + body[HEADER..];
    assert Body(m)[..HEADER] == HeaderBytes(m);
  }

  /** Encoding what was decoded gives the same bytes back exactly when the version field was already 1
      and nothing but zeros follows the first zero of the name field. */
  lemma ReencodeExact(raw: bytes, crc: Crc)
    requires Readable(raw, crc)
    ensures Encoded(Meaning(raw, crc), crc) == raw
        <==> FromLE(raw[4..6]) == VERSION1 && raw[8..40] == Padded(CString(raw[8..40]))
  {
    var body, tail := raw[..|raw| - CRC], raw[|raw| - CRC..];
    var m := Meaning(raw, crc);
    assert raw == body + tail && body[4..6] == raw[4..6] && body[8..40] == raw[8..40];
    BodyForth(body, FromLE(body[44..48]));
    LEOfFromLE(tail);
    assert Encoded(m, crc)[..|Encoded(m, crc)| - CRC] == Body(m);
  }
}
