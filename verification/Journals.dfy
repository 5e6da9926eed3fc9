/** The journal's byte format and what replaying it over a snapshot means (internal/refcount/journal.go). */
module Journals {
  import opened Bytes

  type Counts = map<Id, uint64>

  const MAGIC: uint32 := 0x4A46_5342
  const REC: nat := 52
  const INC: byte := 1
  const DEC: byte := 2
  const CHECKPOINT: byte := 3

  datatype Rec = Rec(op: byte, id: Id, n: uint64)

  datatype ReplayFault = BadRecord | Underflow | UnknownOp

  datatype Replayed = Ok(counts: Counts) | Err(fault: ReplayFault)

  function RecHead(r: Rec): (b: bytes)
    ensures |b| == 48
  {
    LE(MAGIC, 4) + [r.op] + [0, 0, 0] + LE(r.id, 32) + LE(r.n, 8)
  }

  function EncodeRec(r: Rec, crc: Crc): (b: bytes)
    ensures |b| == REC
  {
    RecHead(r) + LE(crc(RecHead(r)), 4)
  }

  lemma RecFits(b: bytes)
    requires |b| == REC
    ensures FromLE(b[8..40]) < TWO256 && FromLE(b[40..48]) < TWO64
  {
    FieldWidths();
    LEOfFromLE(b[8..40]);
    LEOfFromLE(b[40..48]);
  }

  predicate Intact(b: bytes, crc: Crc)
    requires |b| == REC
  {
    FromLE(b[..4]) == MAGIC && crc(b[..48]) == FromLE(b[48..52])
  }

  function DecodeRec(b: bytes): Rec
    requires |b| == REC
  {
    RecFits(b);
    Rec(b[4], FromLE(b[8..40]), FromLE(b[40..48]))
  }

  lemma RecBack(r: Rec, crc: Crc)
    ensures Intact(EncodeRec(r, crc), crc) && DecodeRec(EncodeRec(r, crc)) == r
  {
    var h, b := RecHead(r), EncodeRec(r, crc);
    FieldWidths();
    FromLEOfLE(MAGIC, 4);
    FromLEOfLE(r.id, 32);
    FromLEOfLE(r.n, 8);
    FromLEOfLE(crc(h), 4);
    assert b[..48] == h && b[48..52] == LE(crc(h), 4);
    assert h[..4] == LE(MAGIC, 4) && h[8..40] == LE(r.id, 32) && h[40..48] == LE(r.n, 8);
    assert b[..4] == h[..4] && b[8..40] == h[8..40] && b[40..48] == h[40..48];
  }

  lemma MagicBytes()
    ensures LE(MAGIC, 4) == [0x42, 0x53, 0x46, 0x4A]
  {
    assert LE(MAGIC, 4) == [0x42] + LE(0x4A_4653, 3);
    assert LE(0x4A_4653, 3) == [0x53] + LE(0x4A46, 2);
    assert LE(0x4A46, 2) == [0x46] + LE(0x4A, 1);
  }

  /** The 52 bytes of a record, at their places: magic number, operation (1 adds, 2 takes, 3 is a mark), three
      zeros, digest, number, checksum of all before. */
  lemma RecordLayout(r: Rec, crc: Crc)
    ensures var b := EncodeRec(r, crc);
      && |b| == 52 && b[..4] == [0x42, 0x53, 0x46, 0x4A] && b[4] == r.op && b[5..8] == [0, 0, 0]
      && b[8..40] == LE(r.id, 32) && b[40..48] == LE(r.n, 8) && b[48..52] == LE(crc(b[..48]), 4)
    ensures INC == 1 && DEC == 2 && CHECKPOINT == 3
  {
    hide LE;
    MagicBytes();
    var h, b := RecHead(r), EncodeRec(r, crc);
    assert b[..48] == h && b[48..52] == LE(crc(h), 4);
    assert h[..4] == LE(MAGIC, 4) && h[4] == r.op && h[5..8] == [0, 0, 0];
    assert h[8..40] == LE(r.id, 32) && h[40..48] == LE(r.n, 8);
    assert b[..4] == h[..4] && b[5..8] == h[5..8] && b[8..40] == h[8..40] && b[40..48] == h[40..48];
  }

  /** A frame is taken for a record exactly if it begins with the magic number and ends in the checksum of
      the bytes before; then it spells what lies at those places. */
  lemma IntactExact(b: bytes, crc: Crc)
    requires |b| == 52
    ensures Intact(b, crc) <==> b[..4] == [0x42, 0x53, 0x46, 0x4A] && b[48..52] == LE(crc(b[..48]), 4)
    ensures var r := DecodeRec(b);
      r.op == b[4] && LE(r.id, 32) == b[8..40] && LE(r.n, 8) == b[40..48]
  {
    hide LE, FromLE;
    MagicBytes();
    FieldWidths();
    LEOfFromLE(b[..4]);
    LEOfFromLE(b[8..40]);
    LEOfFromLE(b[40..48]);
    LEOfFromLE(b[48..52]);
    FromLEOfLE(MAGIC, 4);
    FromLEOfLE(crc(b[..48]), 4);
  }

  // ---- The effect of records on a count table ----

  function Count(counts: Counts, id: Id): uint64 {
    if id in counts then counts[id] else 0
  }

  /** A table never keeps a zero. */
  function SetCount(counts: Counts, id: Id, n: uint64): Counts {
    if n == 0 then counts - {id} else counts[id := n]
  }

  /** One reference more in now than in was for every listed chunk. */
  ghost predicate Plus(now: Counts, was: Counts, ids: seq<Id>) {
    forall id :: Count(now, id) == Count(was, id) + multiset(ids)[id]
  }

  /** One reference less in now than in was for every listed chunk. */
  ghost predicate Minus(now: Counts, was: Counts, ids: seq<Id>) {
    forall id :: Count(now, id) == Count(was, id) - multiset(ids)[id]
  }

  ghost predicate NoZeros(counts: Counts) {
    forall id :: id in counts ==> counts[id] != 0
  }

  function Apply(counts: Counts, r: Rec): Replayed {
    var cur := Count(counts, r.id);
    if r.op == INC then Ok(SetCount(counts, r.id, (cur + r.n) % TWO64))
    else if r.op == DEC then
      if cur < r.n then Err(Underflow) else Ok(SetCount(counts, r.id, cur - r.n))
    else if r.op == CHECKPOINT then Ok(counts)
    else Err(UnknownOp)
  }

  /** In numbers: what each operation does to every count, and when it fails. */
  lemma ApplyExact(counts: Counts, r: Rec, id: Id)
    ensures var now := Apply(counts, r);
      && (now.Ok? <==> r.op == 1 || (r.op == 2 && r.n <= Count(counts, r.id)) || r.op == 3)
      && (now.Err? ==> now.fault == if r.op == 2 then Underflow else UnknownOp)
      && (now.Ok? ==>
            Count(now.counts, id)
            == if id != r.id || r.op == 3 then Count(counts, id)
               else if r.op == 1 then (Count(counts, id) + r.n) % 0x1_0000_0000_0000_0000
               else Count(counts, id) - r.n)
  {
  }

  function ApplyAll(counts: Counts, rs: seq<Rec>): Replayed
  {
    if rs == [] then Ok(counts)
    else
      var before := ApplyAll(counts, rs[..|rs| - 1]);
      if before.Err? then before else Apply(before.counts, rs[|rs| - 1])
  }

  /** Replaying the bytes of a journal: whole records in order; a half-written last one is dropped. */
  function Replay(counts: Counts, file: bytes, crc: Crc): Replayed
    decreases |file|
  {
    if |file| < REC then Ok(counts)
    else if !Intact(file[..REC], crc) then Err(BadRecord)
    else
      var next := Apply(counts, DecodeRec(file[..REC]));
      if next.Err? then next else Replay(next.counts, file[REC..], crc)
  }

  /** One round of a replay. */
  lemma ReplayRound(counts: Counts, rest: bytes, crc: Crc)
    ensures |rest| < REC ==> Replay(counts, rest, crc) == Ok(counts)
    ensures |rest| >= REC && !Intact(rest[..REC], crc) ==> Replay(counts, rest, crc) == Err(BadRecord)
    ensures |rest| >= REC && Intact(rest[..REC], crc) ==>
      var next := Apply(counts, DecodeRec(rest[..REC]));
      Replay(counts, rest, crc) == if next.Err? then next else Replay(next.counts, rest[REC..], crc)
  {
  }

  function Image(rs: seq<Rec>, crc: Crc): (file: bytes)
    ensures |file| == REC * |rs|
  {
    if rs == [] then [] else Image(rs[..|rs| - 1], crc) + EncodeRec(rs[|rs| - 1], crc)
  }

  /** Replay runs through any whole-record prefix first and goes on from there. */
  lemma {:induction false} ReplayAppend(counts: Counts, a: bytes, b: bytes, crc: Crc)
    requires |a| % REC == 0
    ensures Replay(counts, a + b, crc)
         == (var first := Replay(counts, a, crc); if first.Err? then first else Replay(first.counts, b, crc))
    decreases |a|
  {
    if a == [] {
      assert a + b == b;
    } else {
      assert (a + b)[..REC] == a[..REC] && (a + b)[REC..] == a[REC..] + b;
      if Intact(a[..REC], crc) {
        var next := Apply(counts, DecodeRec(a[..REC]));
        if next.Ok? {
          ReplayAppend(next.counts, a[REC..], b, crc);
        }
      }
    }
  }

  /** Appending one record to a journal replays as one more change. */
  lemma ReplayOneMore(counts: Counts, file: bytes, r: Rec, crc: Crc)
    requires |file| % REC == 0 && Replay(counts, file, crc).Ok?
    ensures Replay(counts, file + EncodeRec(r, crc), crc) == Apply(Replay(counts, file, crc).counts, r)
  {
    var b := EncodeRec(r, crc);
    ReplayAppend(counts, file, b, crc);
    RecBack(r, crc);
    assert b[..REC] == b && b[REC..] == [];
  }

  lemma {:induction false} ReplayImage(counts: Counts, rs: seq<Rec>, crc: Crc)
    ensures Replay(counts, Image(rs, crc), crc) == ApplyAll(counts, rs)
  {
    hide Apply, EncodeRec, Intact, DecodeRec;
    if rs != [] {
      var before, r := rs[..|rs| - 1], rs[|rs| - 1];
      ReplayImage(counts, before, crc);
      ReplayAppend(counts, Image(before, crc), EncodeRec(r, crc), crc);
      if ApplyAll(counts, before).Ok? {
        ReplayOneMore(counts, Image(before, crc), r, crc);
      }
    }
  }

  /** A journal cut off at any byte applies exactly its whole records. */
  lemma ReplayCut(counts: Counts, rs: seq<Rec>, cut: nat, crc: Crc)
    requires cut <= REC * |rs|
    ensures Replay(counts, Image(rs, crc)[..cut], crc) == ApplyAll(counts, rs[..cut / REC])
  {
    hide Apply, EncodeRec, Intact, DecodeRec, Image, ApplyAll, Replay;
    var file, k := Image(rs, crc), cut / REC;
    var tail := file[REC * k..cut];
    ImagePrefix(rs, k, crc);
    assert file[..cut] == Image(rs[..k], crc) + tail;
    ReplayImage(counts, rs[..k], crc);
    ReplayAppend(counts, Image(rs[..k], crc), tail, crc);
    if ApplyAll(counts, rs[..k]).Ok? {
      ReplayRound(ApplyAll(counts, rs[..k]).counts, tail, crc);
    }
  }

  lemma {:induction false} ImagePrefix(rs: seq<Rec>, k: nat, crc: Crc)
    requires k <= |rs|
    ensures Image(rs, crc)[..REC * k] == Image(rs[..k], crc)
    decreases |rs|
  {
    if k < |rs| {
      ImagePrefix(rs[..|rs| - 1], k, crc);
      assert rs[..|rs| - 1][..k] == rs[..k];
    } else {
      assert rs[..k] == rs;
      assert Image(rs, crc)[..REC * k] == Image(rs, crc);
    }
  }

  /** The first 52 bytes from a half-written record on, once r is appended behind it. */
  function Mixed(torn: bytes, r: Rec, crc: Crc): (frame: bytes)
    requires |torn| < REC
    ensures |frame| == REC
  {
    (torn + EncodeRec(r, crc))[..REC]
  }

  /** What a journal replays to when bytes were appended behind a half-written record: the records before
      it, and then whatever the mixed frames happen to say. */
  lemma BehindTorn(counts: Counts, rs: seq<Rec>, torn: bytes, more: bytes, crc: Crc)
    requires |torn| < REC <= |torn| + |more|
    ensures var first, frame := ApplyAll(counts, rs), (torn + more)[..REC];
      Replay(counts, Image(rs, crc) + (torn + more), crc)
        == if first.Err? then first
           else if !Intact(frame, crc) then Err(BadRecord)
           else
             var next := Apply(first.counts, DecodeRec(frame));
             if next.Err? then next else Replay(next.counts, (torn + more)[REC..], crc)
  {
    hide Image, ApplyAll, Apply, Replay, Intact, DecodeRec;
    ReplayImage(counts, rs, crc);
    ReplayAppend(counts, Image(rs, crc), torn + more, crc);
    if ApplyAll(counts, rs).Ok? {
      ReplayRound(ApplyAll(counts, rs).counts, torn + more, crc);
    }
  }

  /** A record appended behind a half-written one is not what is read back. With torn bytes of it there,
      0 to 51 of them, a journal to which r is then appended can be replayed exactly if the records before
      can, the mixed frame is intact and what it spells can be applied; and then that is the outcome, not r.
      With nothing torn the frame is r itself. */
  lemma AppendBehindTorn(counts: Counts, rs: seq<Rec>, torn: bytes, r: Rec, crc: Crc)
    requires |torn| < REC
    ensures var first, frame := ApplyAll(counts, rs), Mixed(torn, r, crc);
      var now := Replay(counts, Image(rs, crc) + (torn + EncodeRec(r, crc)), crc);
      && (now.Ok? <==> first.Ok? && Intact(frame, crc) && Apply(first.counts, DecodeRec(frame)).Ok?)
      && (now.Ok? ==> now == Apply(first.counts, DecodeRec(frame)))
      && (first.Ok? && !Intact(frame, crc) ==> now == Err(BadRecord))
    ensures torn == [] ==> Mixed(torn, r, crc) == EncodeRec(r, crc)
    ensures torn == [] ==> Intact(Mixed(torn, r, crc), crc) && DecodeRec(Mixed(torn, r, crc)) == r
  {
    hide Image, ApplyAll, Apply, Replay, Intact, DecodeRec, EncodeRec;
    BehindTorn(counts, rs, torn, EncodeRec(r, crc), crc);
    RecBack(r, crc);
    assert torn == [] ==> torn + EncodeRec(r, crc) == EncodeRec(r, crc) == EncodeRec(r, crc)[..REC];
    var first, frame := ApplyAll(counts, rs), Mixed(torn, r, crc);
    if first.Ok? && Apply(first.counts, DecodeRec(frame)).Ok? {
      ReplayRound(Apply(first.counts, DecodeRec(frame)).counts, (torn + EncodeRec(r, crc))[REC..], crc);
    }
  }

  /** When one to three bytes of a record are there, no record appended behind them makes an intact frame,
      whatever the checksum: the magic number does not match. */
  lemma MagicTorn(torn: Rec, r: Rec, k: nat, crc: Crc)
    requires 1 <= k < 4
    ensures !Intact(Mixed(EncodeRec(torn, crc)[..k], r, crc), crc)
  {
    var b := Mixed(EncodeRec(torn, crc)[..k], r, crc);
    MagicBytes();
    assert EncodeRec(r, crc)[0] == RecHead(r)[0] == LE(MAGIC, 4)[0];
    assert b[..4][k] == 0x42;
    LEOfFromLE(b[..4]);
  }

  // ---- The records of a batch of changes ----

  /** One record of size 1 for every listed chunk. */
  function Changes(op: byte, ids: seq<Id>): (rs: seq<Rec>)
    ensures |rs| == |ids|
  {
    seq(|ids|, i requires 0 <= i < |ids| => Rec(op, ids[i], 1))
  }

  lemma {:induction false} ImageAppend(a: seq<Rec>, b: seq<Rec>, crc: Crc)
    ensures Image(a + b, crc) == Image(a, crc) + Image(b, crc)
    decreases |b|
  {
    hide EncodeRec;
    if b == [] {
      assert a + b == a;
    } else {
      var b', last := b[..|b| - 1], EncodeRec(b[|b| - 1], crc);
      ImageAppend(a, b', crc);
      assert (a + b)[..|a + b| - 1] == a + b';
      assert Image(a, crc) + Image(b', crc) + last == Image(a, crc) + (Image(b', crc) + last);
    }
  }

  lemma {:induction false} ApplyAppend(counts: Counts, a: seq<Rec>, b: seq<Rec>)
    ensures ApplyAll(counts, a + b)
         == (var first := ApplyAll(counts, a); if first.Err? then first else ApplyAll(first.counts, b))
    decreases |b|
  {
    if b == [] {
      assert a + b == a;
    } else {
      var b' := b[..|b| - 1];
      ApplyAppend(counts, a, b');
      assert (a + b)[..|a + b| - 1] == a + b';
    }
  }

  ghost predicate Increments(rs: seq<Rec>) {
    forall i :: 0 <= i < |rs| ==> rs[i].op == INC && rs[i].n == 1
  }

  /** Single increments and decrements: all that a store ever journals. */
  ghost predicate Units(rs: seq<Rec>) {
    forall i :: 0 <= i < |rs| ==> (rs[i].op == INC || rs[i].op == DEC) && rs[i].n == 1
  }

  ghost function Added(rs: seq<Rec>): multiset<Id> {
    if rs == [] then multiset{}
    else
      var r := rs[|rs| - 1];
      Added(rs[..|rs| - 1]) + if r.op == INC then multiset{r.id} else multiset{}
  }

  ghost function Taken(rs: seq<Rec>): multiset<Id> {
    if rs == [] then multiset{}
    else
      var r := rs[|rs| - 1];
      Taken(rs[..|rs| - 1]) + if r.op == DEC then multiset{r.id} else multiset{}
  }

  /** No more is taken of a chunk than is counted and added. */
  ghost predicate Paid(counts: Counts, rs: seq<Rec>) {
    forall id :: Taken(rs)[id] <= Count(counts, id) + Added(rs)[id]
  }

  /** and that at every point on the way. */
  ghost predicate Payable(counts: Counts, rs: seq<Rec>) {
    forall i :: 0 <= i <= |rs| ==> Paid(counts, rs[..i])
  }

  /** now is what was counted and added less what was taken. */
  ghost predicate Balanced(now: Counts, counts: Counts, rs: seq<Rec>) {
    forall id :: Count(now, id) == Count(counts, id) + Added(rs)[id] - Taken(rs)[id]
  }

  lemma {:induction false} SumsBound(rs: seq<Rec>, id: Id)
    ensures Added(rs)[id] + Taken(rs)[id] <= |rs|
  {
    if rs != [] {
      SumsBound(rs[..|rs| - 1], id);
    }
  }

  lemma {:induction false} SumsAppend(a: seq<Rec>, b: seq<Rec>)
    ensures Added(a + b) == Added(a) + Added(b) && Taken(a + b) == Taken(a) + Taken(b)
    decreases |b|
  {
    hide Added, Taken;
    NoSum();
    if b == [] {
      assert a + b == a;
    } else {
      var b', r := b[..|b| - 1], b[|b| - 1];
      SumsAppend(a, b');
      OneMoreSum(a + b', r);
      OneMoreSum(b', r);
      assert (a + b') + [r] == a + b && b' + [r] == b;
    }
  }

  lemma NoSum()
    ensures Added([]) == Taken([]) == multiset{}
  {
  }

  lemma OneMoreSum(rs: seq<Rec>, r: Rec)
    ensures Added(rs + [r]) == Added(rs) + if r.op == INC then multiset{r.id} else multiset{}
    ensures Taken(rs + [r]) == Taken(rs) + if r.op == DEC then multiset{r.id} else multiset{}
  {
    assert (rs + [r])[..|rs|] == rs;
  }

  lemma {:induction false} SumsOfChanges(ids: seq<Id>)
    ensures Added(Changes(INC, ids)) == Taken(Changes(DEC, ids)) == multiset(ids)
    ensures Taken(Changes(INC, ids)) == Added(Changes(DEC, ids)) == multiset{}
  {
    hide Added, Taken, Changes;
    NoSum();
    NoChanges();
    if ids != [] {
      var before, last := ids[..|ids| - 1], ids[|ids| - 1];
      assert ids == before + [last];
      SumsOfChanges(before);
      LastChange(INC, ids);
      LastChange(DEC, ids);
      OneMoreSum(Changes(INC, before), Rec(INC, last, 1));
      OneMoreSum(Changes(DEC, before), Rec(DEC, last, 1));
    }
  }

  lemma NoChanges()
    ensures Changes(INC, []) == Changes(DEC, []) == []
  {
  }

  lemma LastChange(op: byte, ids: seq<Id>)
    requires ids != []
    ensures Changes(op, ids) == Changes(op, ids[..|ids| - 1]) + [Rec(op, ids[|ids| - 1], 1)]
  {
  }

  lemma {:induction false} NothingTaken(rs: seq<Rec>)
    requires Increments(rs)
    ensures Taken(rs) == multiset{}
  {
    if rs != [] {
      NothingTaken(rs[..|rs| - 1]);
    }
  }

  lemma OneUnit(counts: Counts, now: Counts, before: seq<Rec>, r: Rec)
    requires r.n == 1 && (r.op == INC || r.op == DEC) && Count(now, r.id) + 1 < TWO64
    requires Balanced(now, counts, before) && Paid(counts, before)
    ensures Apply(now, r).Ok? <==> Paid(counts, before + [r])
    ensures Apply(now, r).Ok? ==> Balanced(Apply(now, r).counts, counts, before + [r])
  {
    hide Added, Taken, Apply, Count;
    OneMoreSum(before, r);
    UnitApplied(now, r);
  }

  lemma UnitApplied(now: Counts, r: Rec)
    requires r.n == 1 && (r.op == INC || r.op == DEC) && Count(now, r.id) + 1 < TWO64
    ensures Apply(now, r).Ok? <==> r.op == INC || Count(now, r.id) >= 1
    ensures Apply(now, r).Ok? ==> forall id ::
              Count(Apply(now, r).counts, id)
              == Count(now, id) + if id != r.id then 0 else if r.op == INC then 1 else -1
  {
  }

  lemma PayableStep(counts: Counts, before: seq<Rec>, r: Rec)
    ensures Payable(counts, before + [r]) <==> Payable(counts, before) && Paid(counts, before + [r])
  {
    hide Paid;
    var rs := before + [r];
    assert rs[..|rs|] == rs;
    assert forall i :: 0 <= i <= |before| ==> rs[..i] == before[..i];
  }

  /** Any sequence of single changes replays exactly if it never takes what is not there, and then gives
      what was counted and added less what was taken, as long as no count comes near 2^64. */
  lemma {:induction false} ApplyUnits(counts: Counts, rs: seq<Rec>)
    requires Units(rs) && forall id :: Count(counts, id) + |rs| < TWO64
    ensures ApplyAll(counts, rs).Ok? <==> Payable(counts, rs)
    ensures ApplyAll(counts, rs).Ok? ==> Balanced(ApplyAll(counts, rs).counts, counts, rs)
  {
    hide Apply, Payable, Paid, Balanced;
    NothingToPay(counts);
    if rs != [] {
      var before, r := rs[..|rs| - 1], rs[|rs| - 1];
      assert rs == before + [r];
      ApplyUnits(counts, before);
      PayableStep(counts, before, r);
      if ApplyAll(counts, before).Ok? {
        var now := ApplyAll(counts, before).counts;
        BalanceFits(now, counts, before, r.id);
        PaidSoFar(counts, before);
        OneUnit(counts, now, before, r);
      }
    }
  }

  lemma BalanceFits(now: Counts, counts: Counts, rs: seq<Rec>, id: Id)
    requires Balanced(now, counts, rs) && Count(counts, id) + |rs| + 1 < TWO64
    ensures Count(now, id) + 1 < TWO64
  {
    SumsBound(rs, id);
  }

  lemma NothingToPay(counts: Counts)
    ensures Payable(counts, []) && Balanced(counts, counts, [])
  {
  }

  lemma PaidSoFar(counts: Counts, rs: seq<Rec>)
    requires Payable(counts, rs)
    ensures Paid(counts, rs)
  {
    hide Paid;
    assert rs[..|rs|] == rs;
  }

  /** Increments never fail and add what they say, as long as no count comes near 2^64. */
  lemma ApplyIncrements(counts: Counts, rs: seq<Rec>)
    requires Increments(rs) && forall id :: Count(counts, id) + |rs| < TWO64
    ensures ApplyAll(counts, rs).Ok?
    ensures forall id :: Count(ApplyAll(counts, rs).counts, id) == Count(counts, id) + Added(rs)[id]
  {
    ApplyUnits(counts, rs);
    forall i | 0 <= i <= |rs|
      ensures Taken(rs[..i]) == multiset{}
    {
      NothingTaken(rs[..i]);
    }
    assert rs[..|rs|] == rs;
  }

  lemma AtMostAll(ids: seq<Id>, id: Id)
    ensures multiset(ids)[id] <= |ids|
  {
    assert multiset(ids)[id] <= |multiset(ids)|;
  }

  lemma ImageOfNothing(op: byte, crc: Crc)
    ensures Image(Changes(op, []), crc) == []
  {
  }

  /** The journal grows by one record for each listed chunk. */
  lemma ImageOfOneMore(op: byte, ids: seq<Id>, i: nat, crc: Crc)
    requires i < |ids|
    ensures Image(Changes(op, ids[..i + 1]), crc)
        == Image(Changes(op, ids[..i]), crc) + EncodeRec(Rec(op, ids[i], 1), crc)
  {
    assert Changes(op, ids[..i + 1])[..i] == Changes(op, ids[..i]);
  }

  /** Decrements of what is there never fail and take away what they say. */
  lemma {:induction false} ApplyDecrements(counts: Counts, ids: seq<Id>)
    requires forall id :: multiset(ids)[id] <= Count(counts, id)
    ensures ApplyAll(counts, Changes(DEC, ids)).Ok?
    ensures forall id :: Count(ApplyAll(counts, Changes(DEC, ids)).counts, id) == Count(counts, id) - multiset(ids)[id]
  {
    if ids != [] {
      var before, last := ids[..|ids| - 1], ids[|ids| - 1];
      assert ids == before + [last];
      assert Changes(DEC, ids)[..|ids| - 1] == Changes(DEC, before);
      ApplyDecrements(counts, before);
    }
  }

  /** Decrements go through only if what they take is there. */
  lemma {:induction false} DecrementsNeed(counts: Counts, ids: seq<Id>)
    requires ApplyAll(counts, Changes(DEC, ids)).Ok?
    ensures forall id :: multiset(ids)[id] <= Count(counts, id)
  {
    if ids != [] {
      var before, last := ids[..|ids| - 1], ids[|ids| - 1];
      assert ids == before + [last];
      assert Changes(DEC, ids)[..|ids| - 1] == Changes(DEC, before);
      DecrementsNeed(counts, before);
      ApplyDecrements(counts, before);
    }
  }
}
