/** The snapshot files of the count table and of the index (internal/refcount/snapshot.go,
    internal/index/snapshot.go): what is saved is what is loaded, whatever order the map was walked in. */
module Snapshots {
  import opened Bytes
  import opened Journals
  import opened Backends
  import opened Indexes
  import Codec

  const REFS_MAGIC: uint32 := 0x5346_5253
  const INDEX_MAGIC: uint32 := 0x5844_4953
  const VERSION: uint16 := 1
  const HEAD: nat := 10
  const COUNT_ITEM: nat := 40
  const RECORD_ITEM: nat := 56

  datatype Trouble = TooShort | BadCrc | BadMagic | BadVersion | Truncated | ZeroId

  datatype Loaded<+T> = Loaded(value: T) | Rejected(why: Trouble)

  // ---- The frame both files share ----

  function Head(magic: uint32, n: nat): (b: bytes)
    ensures |b| == HEAD
  {
    LE(magic, 4) + LE(VERSION, 2) + LE(n % TWO32, 4)
  }

  function Framed(magic: uint32, n: nat, items: bytes, crc: Crc): bytes {
    Head(magic, n) + items + LE(crc(Head(magic, n) + items), 4)
  }

  /** The number of items and their bytes, if the frame is in order. */
  function Unframed(raw: bytes, magic: uint32, crc: Crc): Loaded<(nat, bytes)> {
    if |raw| < HEAD + 4 then Rejected(TooShort)
    else
      var body := raw[..|raw| - 4];
      if crc(body) != FromLE(raw[|raw| - 4..]) then Rejected(BadCrc)
      else if FromLE(body[..4]) != magic then Rejected(BadMagic)
      else if FromLE(body[4..6]) != VERSION then Rejected(BadVersion)
      else Loaded((FromLE(body[6..10]), body[HEAD..]))
  }

  lemma FrameBack(magic: uint32, n: uint32, items: bytes, crc: Crc)
    ensures Unframed(Framed(magic, n, items, crc), magic, crc) == Loaded((n, items))
  {
    hide LE, FromLE;
    var h, raw := Head(magic, n), Framed(magic, n, items, crc);
    assert raw[..|raw| - 4] == h + items && raw[|raw| - 4..] == LE(crc(h + items), 4);
    assert h[..4] == LE(magic, 4) && h[4..6] == LE(VERSION, 2) && h[6..10] == LE(n, 4);
    assert (h + items)[..4] == h[..4] && (h + items)[4..6] == h[4..6] && (h + items)[6..10] == h[6..10];
    Codec.FieldBack(crc(h + items), 4);
    Codec.FieldBack(magic, 4);
    Codec.FieldBack(VERSION, 2);
    Codec.FieldBack(n, 4);
  }

  /** No other file is accepted as that frame. */
  lemma FrameForth(raw: bytes, magic: uint32, crc: Crc)
    requires Unframed(raw, magic, crc).Loaded?
    ensures var u := Unframed(raw, magic, crc).value;
      u.0 < TWO32 && raw == Framed(magic, u.0, u.1, crc)
  {
    hide LE, FromLE;
    var body, tail := raw[..|raw| - 4], raw[|raw| - 4..];
    FieldWidths();
    LEOfFromLE(body[..4]);
    LEOfFromLE(body[4..6]);
    LEOfFromLE(body[6..10]);
    LEOfFromLE(tail);
    assert raw == body + tail && body == body[..4] + body[4..6] + body[6..10] + body[HEAD..];
  }

  lemma Magics()
    ensures LE(REFS_MAGIC, 4) == [0x53, 0x52, 0x46, 0x53] && LE(INDEX_MAGIC, 4) == [0x53, 0x49, 0x44, 0x58]
  {
    assert LE(REFS_MAGIC, 4) == [0x53] + LE(0x53_4652, 3);
    assert LE(0x53_4652, 3) == [0x52] + LE(0x5346, 2);
    assert LE(0x5346, 2) == [0x46] + LE(0x53, 1);
    assert LE(INDEX_MAGIC, 4) == [0x53] + LE(0x58_4449, 3);
    assert LE(0x58_4449, 3) == [0x49] + LE(0x5844, 2);
    assert LE(0x5844, 2) == [0x44] + LE(0x58, 1);
  }

  /** The bytes of a frame, at their places: magic number, version 1, number of items; the items; the checksum
      of all before. */
  lemma FrameLayout(magic: uint32, n: uint32, items: bytes, crc: Crc)
    ensures var raw := Framed(magic, n, items, crc);
      && |raw| == 14 + |items|
      && raw[..4] == LE(magic, 4) && raw[4..6] == [1, 0] && raw[6..10] == LE(n, 4)
      && raw[10..10 + |items|] == items && raw[10 + |items|..] == LE(crc(raw[..10 + |items|]), 4)
  {
    VersionBytes();
    hide LE;
    var h, raw := Head(magic, n), Framed(magic, n, items, crc);
    assert h[..4] == LE(magic, 4) && h[4..6] == LE(VERSION, 2) && h[6..10] == LE(n, 4);
    assert raw[..10 + |items|] == h + items && raw[..4] == h[..4] && raw[4..6] == h[4..6] && raw[6..10] == h[6..10];
  }

  lemma VersionBytes()
    ensures LE(VERSION, 2) == [1, 0]
  {
    assert LE(VERSION, 2) == [1] + LE(0, 1);
    assert LE(0, 1) == [0] + LE(0, 0);
  }

  /** Why a file is refused before its items are looked at: its length, its checksum, its magic number, its
      version, in this order. */
  lemma FrameFaults(raw: bytes, magic: uint32, crc: Crc)
    ensures var u := Unframed(raw, magic, crc);
      && (u == Rejected(TooShort) <==> |raw| < 14)
      && (u == Rejected(BadCrc) <==> |raw| >= 14 && raw[|raw| - 4..] != LE(crc(raw[..|raw| - 4]), 4))
      && (u == Rejected(BadMagic) <==>
            |raw| >= 14 && raw[|raw| - 4..] == LE(crc(raw[..|raw| - 4]), 4) && raw[..4] != LE(magic, 4))
      && (u == Rejected(BadVersion) <==>
            && |raw| >= 14 && raw[|raw| - 4..] == LE(crc(raw[..|raw| - 4]), 4) && raw[..4] == LE(magic, 4)
            && raw[4..6] != [1, 0])
      && (u.Rejected? ==> u.why == TooShort || u.why == BadCrc || u.why == BadMagic || u.why == BadVersion)
      && (u.Loaded? ==> u.value.1 == raw[10..|raw| - 4] && LE(u.value.0, 4) == raw[6..10])
  {
    VersionBytes();
    hide LE, FromLE;
    if |raw| >= 14 {
      var body, tail := raw[..|raw| - 4], raw[|raw| - 4..];
      assert body[..4] == raw[..4] && body[4..6] == raw[4..6] && body[6..10] == raw[6..10];
      LEOfFromLE(raw[..4]);
      LEOfFromLE(raw[4..6]);
      LEOfFromLE(raw[6..10]);
      LEOfFromLE(tail);
      Codec.FieldBack(magic, 4);
      Codec.FieldBack(VERSION, 2);
      Codec.FieldBack(crc(body), 4);
    }
  }

  // ---- The count table ----

  function CountItem(id: Id, n: uint64): (b: bytes)
    ensures |b| == COUNT_ITEM
  {
    LE(id, 32) + LE(n, 8)
  }

  function CountItems(ids: seq<Id>, m: Counts): (b: bytes)
    ensures |b| == COUNT_ITEM * |ids|
  {
    if ids == [] then [] else CountItems(ids[..|ids| - 1], m) + CountItem(ids[|ids| - 1], Count(m, ids[|ids| - 1]))
  }

  lemma ItemFits(b: bytes)
    requires |b| == COUNT_ITEM
    ensures FromLE(b[..32]) < TWO256 && FromLE(b[32..40]) < TWO64
  {
    FieldWidths();
    LEOfFromLE(b[..32]);
    LEOfFromLE(b[32..40]);
  }

  /** The table after one more item; a zero count is passed over. */
  function Enter(m: Counts, b: bytes): Counts
    requires |b| == COUNT_ITEM
  {
    ItemFits(b);
    if FromLE(b[32..40]) > 0 then m[FromLE(b[..32]) := FromLE(b[32..40])] else m
  }

  function Filled(items: bytes, n: nat): Counts
    requires COUNT_ITEM * n <= |items|
  {
    if n == 0 then map[] else Enter(Filled(items, n - 1), items[COUNT_ITEM * (n - 1)..COUNT_ITEM * n])
  }

  function CountsIn(raw: bytes, crc: Crc): Loaded<Counts> {
    var u := Unframed(raw, REFS_MAGIC, crc);
    if u.Rejected? then Rejected(u.why)
    else if |u.value.1| < COUNT_ITEM * u.value.0 then Rejected(Truncated)
    else Loaded(Filled(u.value.1, u.value.0))
  }

  /** The digest and the number of item j. */
  function IdAt(items: bytes, j: nat): Id
    requires COUNT_ITEM * (j + 1) <= |items|
  {
    ItemFits(items[40 * j..40 * j + 40]);
    FromLE(items[40 * j..40 * j + 40][..32])
  }

  function NumberAt(items: bytes, j: nat): uint64
    requires COUNT_ITEM * (j + 1) <= |items|
  {
    ItemFits(items[40 * j..40 * j + 40]);
    FromLE(items[40 * j..40 * j + 40][32..40])
  }

  /** Item j is the last one that gives id a number above zero. */
  ghost predicate LastFor(items: bytes, n: nat, id: Id, j: nat)
    requires COUNT_ITEM * n <= |items| && j < n
  {
    && IdAt(items, j) == id && NumberAt(items, j) > 0
    && forall k :: j < k < n && IdAt(items, k) == id ==> NumberAt(items, k) == 0
  }

  /** What is read from n items: the last number above zero for every digest; zeros are passed over. */
  lemma {:induction false} FilledExact(items: bytes, n: nat, id: Id)
    requires COUNT_ITEM * n <= |items|
    ensures id in Filled(items, n) <==> exists j :: 0 <= j < n && LastFor(items, n, id, j)
    ensures forall j :: 0 <= j < n && LastFor(items, n, id, j) ==> Filled(items, n)[id] == NumberAt(items, j)
  {
    hide IdAt, NumberAt, Enter;
    if n > 0 {
      FilledExact(items, n - 1, id);
      EnterAt(Filled(items, n - 1), items, n - 1);
      forall j | 0 <= j < n - 1
        ensures LastFor(items, n, id, j) <==>
                  LastFor(items, n - 1, id, j) && !(IdAt(items, n - 1) == id && NumberAt(items, n - 1) > 0)
      {
      }
      if IdAt(items, n - 1) == id && NumberAt(items, n - 1) > 0 {
        assert LastFor(items, n, id, n - 1);
      } else if id in Filled(items, n - 1) {
        var j :| 0 <= j < n - 1 && LastFor(items, n - 1, id, j);
        assert LastFor(items, n, id, j);
      }
    }
  }

  lemma EnterAt(m: Counts, items: bytes, j: nat)
    requires COUNT_ITEM * (j + 1) <= |items|
    ensures Enter(m, items[COUNT_ITEM * j..COUNT_ITEM * (j + 1)])
         == if NumberAt(items, j) > 0 then m[IdAt(items, j) := NumberAt(items, j)] else m
  {
  }

  /** Where the count and the digest of an item lie, and what a whole file is refused for besides its frame. */
  lemma CountsExact(raw: bytes, id: Id, n: uint64, crc: Crc)
    ensures CountItem(id, n)[..32] == LE(id, 32) && CountItem(id, n)[32..] == LE(n, 8)
    ensures var u := Unframed(raw, REFS_MAGIC, crc);
      && (u.Rejected? ==> CountsIn(raw, crc) == Rejected(u.why))
      && (u.Loaded? ==>
            CountsIn(raw, crc) == if |u.value.1| < 40 * u.value.0 then Rejected(Truncated)
                                  else Loaded(Filled(u.value.1, u.value.0)))
  {
  }

  method LoadCounts(raw: bytes, crc: Crc) returns (res: Loaded<Counts>)
    ensures res == CountsIn(raw, crc)
  {
    var u := Unframed(raw, REFS_MAGIC, crc);
    if u.Rejected? {
      return Rejected(u.why);
    }
    var n, items := u.value.0, u.value.1;
    var m: Counts := map[];
    for i := 0 to n
      invariant COUNT_ITEM * i <= |items| && m == Filled(items, i)
    {
      if |items| < COUNT_ITEM * (i + 1) {
        return Rejected(Truncated);
      }
      m := Enter(m, items[COUNT_ITEM * i..COUNT_ITEM * (i + 1)]);
    }
    return Loaded(m);
  }

  ghost function Members(ids: seq<Id>): set<Id> {
    set id | id in ids
  }

  ghost function Part(m: Counts, ids: set<Id>): Counts {
    map id | id in m && id in ids :: m[id]
  }

  lemma EnterBack(m: Counts, id: Id, n: uint64)
    requires n > 0
    ensures Enter(m, CountItem(id, n)) == m[id := n]
  {
    var b := CountItem(id, n);
    assert b[..32] == LE(id, 32) && b[32..40] == LE(n, 8);
    Codec.FieldBack(id, 32);
    Codec.FieldBack(n, 8);
  }

  lemma PartGrows(m: Counts, ids: set<Id>, id: Id)
    requires id in m
    ensures Part(m, ids + {id}) == Part(m, ids)[id := m[id]]
  {
  }

  lemma {:induction false} CountItemsBack(ids: seq<Id>, m: Counts, all: bytes)
    requires NoZeros(m) && (forall i :: 0 <= i < |ids| ==> ids[i] in m) && CountItems(ids, m) <= all
    ensures Filled(all, |ids|) == Part(m, Members(ids))
  {
    hide CountItem, Enter, Part;
    var n := |ids|;
    if n > 0 {
      var before, id := ids[..n - 1], ids[n - 1];
      assert CountItems(ids, m)[..COUNT_ITEM * (n - 1)] == CountItems(before, m);
      CountItemsBack(before, m, all);
      assert all[COUNT_ITEM * (n - 1)..COUNT_ITEM * n] == CountItem(id, m[id]);
      var some := Members(before);
      EnterBack(Part(m, some), id, m[id]);
      PartGrows(m, some, id);
      assert ids == before + [id];
      assert Members(ids) == some + {id};
    } else {
      assert Members(ids) == {};
      NoPart(m);
    }
  }

  lemma NoPart(m: Counts)
    ensures Part(m, {}) == map[]
  {
  }

  lemma MembersListed(ids: seq<Id>, keys: set<Id>)
    requires Lists(ids, keys)
    ensures keys == Members(ids)
  {
  }

  /** A saved count table loads again as it was. */
  lemma CountsRoundTrip(m: Counts, ids: seq<Id>, crc: Crc)
    requires NoZeros(m) && |m| < TWO32 && Lists(ids, m.Keys)
    ensures CountsIn(Framed(REFS_MAGIC, |m|, CountItems(ids, m), crc), crc) == Loaded(m)
  {
    hide LE, FromLE, Framed, Unframed;
    FrameBack(REFS_MAGIC, |m|, CountItems(ids, m), crc);
    ListedOnce(ids, m.Keys);
    MembersListed(ids, m.Keys);
    CountItemsBack(ids, m, CountItems(ids, m));
    assert Part(m, m.Keys) == m;
  }

  /** Writes the table in some order; the file loads again as the table it was. */
  method SaveCounts(m: Counts, crc: Crc) returns (raw: bytes)
    ensures exists ids :: Lists(ids, m.Keys) && raw == Framed(REFS_MAGIC, |m|, CountItems(ids, m), crc)
    ensures NoZeros(m) && |m| < TWO32 ==> CountsIn(raw, crc) == Loaded(m)
  {
    hide Lists, CountsIn, NoZeros, Framed, LE;
    var ids := InSomeOrder(m.Keys);
    MembersListed(ids, m.Keys);
    var buf := [];
    for i := 0 to |ids|
      invariant buf == CountItems(ids[..i], m)
    {
      assert ids[..i + 1][..i] == ids[..i] && ids[i] in Members(ids);
      buf := buf + CountItem(ids[i], m[ids[i]]);
    }
    assert ids[..|ids|] == ids;
    raw := Framed(REFS_MAGIC, |m|, buf, crc);
    if NoZeros(m) && |m| < TWO32 {
      CountsRoundTrip(m, ids, crc);
    }
  }

  // ---- The index ----

  /** An index record as it is stored, with the bits of its creation time. */
  datatype Stamped = Stamped(rec: Record, created: uint64)

  function RecordItem(s: Stamped): (b: bytes)
    ensures |b| == RECORD_ITEM
  {
    LE(s.rec.id, 32) + LE(s.rec.useCount, 4) + LE(s.rec.size, 8) + LE(s.rec.chunks, 4) + LE(s.created, 8)
  }

  function RecordItems(recs: seq<Stamped>): (b: bytes)
    ensures |b| == RECORD_ITEM * |recs|
  {
    if recs == [] then [] else RecordItems(recs[..|recs| - 1]) + RecordItem(recs[|recs| - 1])
  }

  lemma RecordFits(b: bytes)
    requires |b| == RECORD_ITEM
    ensures FromLE(b[..32]) < TWO256 && FromLE(b[32..36]) < TWO32 && FromLE(b[36..44]) < TWO64
    ensures FromLE(b[44..48]) < TWO32 && FromLE(b[48..56]) < TWO64
  {
    FieldWidths();
    LEOfFromLE(b[..32]);
    LEOfFromLE(b[32..36]);
    LEOfFromLE(b[36..44]);
    LEOfFromLE(b[44..48]);
    LEOfFromLE(b[48..56]);
  }

  function ReadRecord(b: bytes): Stamped
    requires |b| == RECORD_ITEM
  {
    RecordFits(b);
    Stamped(Record(FromLE(b[..32]), FromLE(b[32..36]), FromLE(b[36..44]), FromLE(b[44..48])), FromLE(b[48..56]))
  }

  function ReadRecords(items: bytes, n: nat): (recs: seq<Stamped>)
    requires RECORD_ITEM * n <= |items|
    ensures |recs| == n
  {
    if n == 0 then [] else ReadRecords(items, n - 1) + [ReadRecord(items[RECORD_ITEM * (n - 1)..RECORD_ITEM * n])]
  }

  /** Where the fields of a record lie. */
  lemma RecordSlices(a: bytes, b: bytes, c: bytes, d: bytes, e: bytes)
    requires |a| == 32 && |b| == 4 && |c| == 8 && |d| == 4 && |e| == 8
    ensures var all := a + b + c + d + e;
      |all| == RECORD_ITEM && all[..32] == a && all[32..36] == b && all[36..44] == c && all[44..48] == d
          && all[48..56] == e
  {
    var all := a + b + c + d + e;
    assert all[..32] == a;
    assert all[32..36] == b;
    assert all[36..44] == c;
    assert all[44..48] == d;
    assert all[48..56] == e;
  }

  lemma RecordBack(s: Stamped)
    ensures ReadRecord(RecordItem(s)) == s
  {
    hide LE, FromLE;
    var r := s.rec;
    RecordSlices(LE(r.id, 32), LE(r.useCount, 4), LE(r.size, 8), LE(r.chunks, 4), LE(s.created, 8));
    Codec.FieldBack(r.id, 32);
    Codec.FieldBack(r.useCount, 4);
    Codec.FieldBack(r.size, 8);
    Codec.FieldBack(r.chunks, 4);
    Codec.FieldBack(s.created, 8);
    var t := ReadRecord(RecordItem(s));
    assert t.rec.id == r.id;
    assert t.rec.useCount == r.useCount;
    assert t.rec.size == r.size;
    assert t.rec.chunks == r.chunks;
    assert t.created == s.created;
  }

  lemma {:induction false} RecordsBack(recs: seq<Stamped>, all: bytes)
    requires RecordItems(recs) <= all
    ensures ReadRecords(all, |recs|) == recs
  {
    hide RecordItem, ReadRecord;
    var n := |recs|;
    if n > 0 {
      assert RecordItems(recs)[..RECORD_ITEM * (n - 1)] == RecordItems(recs[..n - 1]);
      RecordsBack(recs[..n - 1], all);
      assert all[RECORD_ITEM * (n - 1)..RECORD_ITEM * n] == RecordItem(recs[n - 1]);
      RecordBack(recs[n - 1]);
    }
  }

  /** The 56 bytes of a record, at their places: digest, use count, size, number of chunks, time. */
  lemma RecordLayout(s: Stamped)
    ensures var b := RecordItem(s);
      && |b| == 56 && b[..32] == LE(s.rec.id, 32) && b[32..36] == LE(s.rec.useCount, 4)
      && b[36..44] == LE(s.rec.size, 8) && b[44..48] == LE(s.rec.chunks, 4) && b[48..56] == LE(s.created, 8)
  {
    hide LE;
    var r := s.rec;
    RecordSlices(LE(r.id, 32), LE(r.useCount, 4), LE(r.size, 8), LE(r.chunks, 4), LE(s.created, 8));
  }

  /** Records filed by their ids; the last one of an id stays. */
  function ById(recs: seq<Stamped>): map<Id, Stamped> {
    if recs == [] then map[] else ById(recs[..|recs| - 1])[recs[|recs| - 1].rec.id := recs[|recs| - 1]]
  }

  predicate NoneZero(recs: seq<Stamped>) {
    forall i :: 0 <= i < |recs| ==> recs[i].rec.id != 0
  }

  function IndexIn(raw: bytes, crc: Crc): Loaded<map<Id, Stamped>> {
    var u := Unframed(raw, INDEX_MAGIC, crc);
    if u.Rejected? then Rejected(u.why)
    else
      var n, items := u.value.0, u.value.1;
      var whole := if |items| / RECORD_ITEM < n then |items| / RECORD_ITEM else n;
      var recs := ReadRecords(items, whole);
      if !NoneZero(recs) then Rejected(ZeroId)
      else if whole < n then Rejected(Truncated)
      else Loaded(ById(recs))
  }

  lemma {:induction false} ByIdExact(recs: seq<Stamped>, id: Id)
    ensures id in ById(recs) <==> exists j :: 0 <= j < |recs| && recs[j].rec.id == id
    ensures forall j :: 0 <= j < |recs| && recs[j].rec.id == id
                     && (forall k :: j < k < |recs| ==> recs[k].rec.id != id)
              ==> ById(recs)[id] == recs[j]
  {
    if recs != [] {
      var n := |recs| - 1;
      ByIdExact(recs[..n], id);
      assert forall j :: 0 <= j < n ==> recs[..n][j] == recs[j];
      assert recs[n].rec.id == id ==> id in ById(recs) && ById(recs)[id] == recs[n];
    }
  }

  lemma {:induction false} ReadRecordsAt(items: bytes, n: nat, j: nat)
    requires RECORD_ITEM * n <= |items| && j < n
    ensures ReadRecords(items, n)[j] == ReadRecord(items[56 * j..56 * j + 56])
    decreases n
  {
    hide ReadRecord;
    if j < n - 1 {
      ReadRecordsAt(items, n - 1, j);
    }
  }

  /** What an index file is refused for besides its frame: a zero digest in one of its whole records, else too
      few bytes; and if it is not, every id stands for the last record of it. */
  lemma IndexExact(raw: bytes, crc: Crc)
    ensures var u := Unframed(raw, INDEX_MAGIC, crc);
      && (u.Rejected? ==> IndexIn(raw, crc) == Rejected(u.why))
      && (u.Loaded? ==>
            var n, items := u.value.0, u.value.1;
            var zero := exists j :: 0 <= j < n && 56 * (j + 1) <= |items| && ZeroAt(items, j);
            && (IndexIn(raw, crc) == Rejected(ZeroId) <==> zero)
            && (IndexIn(raw, crc) == Rejected(Truncated) <==> !zero && |items| < 56 * n)
            && (!zero && |items| >= 56 * n ==> IndexIn(raw, crc) == Loaded(ById(ReadRecords(items, n)))))
  {
    hide ReadRecord, ById, LE, FromLE, Unframed;
    var u := Unframed(raw, INDEX_MAGIC, crc);
    if u.Loaded? {
      var n, items := u.value.0, u.value.1;
      var whole := if |items| / RECORD_ITEM < n then |items| / RECORD_ITEM else n;
      forall j | 0 <= j < whole
        ensures ZeroAt(items, j) <==> ReadRecords(items, whole)[j].rec.id == 0
      {
        ReadRecordsAt(items, whole, j);
      }
      forall j | 0 <= j < n && 56 * (j + 1) <= |items| && ZeroAt(items, j)
        ensures j < whole
      {
      }
    }
  }

  ghost predicate ZeroAt(items: bytes, j: nat)
    requires 56 * (j + 1) <= |items|
  {
    ReadRecord(items[56 * j..56 * j + 56]).rec.id == 0
  }

  method LoadIndex(raw: bytes, crc: Crc) returns (res: Loaded<map<Id, Stamped>>)
    ensures res == IndexIn(raw, crc)
  {
    hide Unframed, ReadRecord, LE, FromLE;
    var u := Unframed(raw, INDEX_MAGIC, crc);
    if u.Rejected? {
      return Rejected(u.why);
    }
    var n, items := u.value.0, u.value.1;
    var recs := [];
    for i := 0 to n
      invariant RECORD_ITEM * i <= |items| && recs == ReadRecords(items, i) && NoneZero(recs)
    {
      if |items| < RECORD_ITEM * (i + 1) {
        return Rejected(Truncated);
      }
      var r := ReadRecord(items[RECORD_ITEM * i..RECORD_ITEM * (i + 1)]);
      if r.rec.id == 0 {
        ZeroFound(items, i, if |items| / RECORD_ITEM < n then |items| / RECORD_ITEM else n);
        return Rejected(ZeroId);
      }
      recs := recs + [r];
    }
    var objects := LoadAll(recs);
    return Loaded(objects);
  }

  method LoadAll(recs: seq<Stamped>) returns (objects: map<Id, Stamped>)
    ensures objects == ById(recs)
  {
    objects := map[];
    for i := 0 to |recs|
      invariant objects == ById(recs[..i])
    {
      assert recs[..i + 1][..i] == recs[..i];
      objects := objects[recs[i].rec.id := recs[i]];
    }
    assert recs[..|recs|] == recs;
  }

  lemma {:induction false} ZeroFound(items: bytes, i: nat, n: nat)
    requires i < n && RECORD_ITEM * n <= |items|
    requires ReadRecord(items[RECORD_ITEM * i..RECORD_ITEM * (i + 1)]).rec.id == 0
    ensures !NoneZero(ReadRecords(items, n))
    decreases n
  {
    hide ReadRecord;
    if i < n - 1 {
      ZeroFound(items, i, n - 1);
      var recs := ReadRecords(items, n - 1);
      var j :| 0 <= j < |recs| && recs[j].rec.id == 0;
      assert ReadRecords(items, n)[j] == recs[j];
    } else {
      assert ReadRecords(items, n)[n - 1].rec.id == 0;
    }
  }

  lemma {:induction false} FiledBack(objects: map<Id, Stamped>, recs: seq<Stamped>)
    requires forall i :: 0 <= i < |recs| ==> recs[i].rec.id in objects && objects[recs[i].rec.id] == recs[i]
    ensures forall id :: id in ById(recs) <==> exists i :: 0 <= i < |recs| && recs[i].rec.id == id
    ensures forall id :: id in ById(recs) ==> id in objects && ById(recs)[id] == objects[id]
  {
    if recs != [] {
      var n := |recs|;
      FiledBack(objects, recs[..n - 1]);
      forall id
        ensures id in ById(recs) <==> exists i :: 0 <= i < |recs| && recs[i].rec.id == id
      {
        if i :| 0 <= i < n && recs[i].rec.id == id {
          if i < n - 1 { assert recs[..n - 1][i].rec.id == id; }
        }
      }
    }
  }

  /** No record is filed under another id than its own, and none under the zero id. */
  predicate Sane(objects: map<Id, Stamped>) {
    forall id :: id in objects ==> id != 0 && objects[id].rec.id == id
  }

  ghost function Listing(objects: map<Id, Stamped>, ids: seq<Id>): seq<Stamped>
    requires Lists(ids, objects.Keys)
  {
    seq(|ids|, i requires 0 <= i < |ids| => objects[ids[i]])
  }

  lemma ListingFiled(objects: map<Id, Stamped>, ids: seq<Id>)
    requires Lists(ids, objects.Keys)
    requires Sane(objects)
    ensures ById(Listing(objects, ids)) == objects && NoneZero(Listing(objects, ids))
  {
    var recs := Listing(objects, ids);
    FiledBack(objects, recs);
    forall id | id in objects
      ensures id in ById(recs)
    {
      var j :| 0 <= j < |ids| && ids[j] == id;
      assert recs[j].rec.id == id;
    }
  }

  /** A saved index loads again as it was. */
  lemma IndexRoundTrip(objects: map<Id, Stamped>, ids: seq<Id>, crc: Crc)
    requires |objects| < TWO32 && Lists(ids, objects.Keys)
    requires Sane(objects)
    ensures IndexIn(Framed(INDEX_MAGIC, |objects|, RecordItems(Listing(objects, ids)), crc), crc) == Loaded(objects)
  {
    hide LE, FromLE, Framed, Unframed, ReadRecord, RecordItem, RecordItems, ReadRecords, ById, NoneZero;
    var recs := Listing(objects, ids);
    ListedOnce(ids, objects.Keys);
    FrameBack(INDEX_MAGIC, |recs|, RecordItems(recs), crc);
    RecordsBack(recs, RecordItems(recs));
    ListingFiled(objects, ids);
  }

  /** Writes the index in some order; the file loads again as the index it was. */
  method SaveIndex(objects: map<Id, Stamped>, crc: Crc) returns (raw: bytes)
    ensures exists ids ::
              Lists(ids, objects.Keys) && raw == Framed(INDEX_MAGIC, |objects|, RecordItems(Listing(objects, ids)), crc)
    ensures Sane(objects) && |objects| < TWO32 ==> IndexIn(raw, crc) == Loaded(objects)
  {
    hide IndexIn, Framed, LE, RecordItem, Sane;
    var ids := InSomeOrder(objects.Keys);
    ghost var recs := Listing(objects, ids);
    var buf := [];
    for i := 0 to |ids|
      invariant buf == RecordItems(recs[..i])
    {
      assert recs[..i + 1][..i] == recs[..i];
      buf := buf + RecordItem(objects[ids[i]]);
    }
    assert recs[..|ids|] == recs;
    raw := Framed(INDEX_MAGIC, |objects|, buf, crc);
    if Sane(objects) && |objects| < TWO32 {
      IndexRoundTrip(objects, ids, crc);
    }
  }
}
