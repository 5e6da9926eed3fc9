/** The interleaved store on disk: Puts, Deletes, Gets and GCs in flight, each of their atomic steps journalled
    or written as it happens, while persists go on among them (put.go, delete.go, store.go:152-171); and what a
    crash at any point of any run leaves. */
module CrashRuns {
  import opened Bytes
  import opened Sums
  import opened Schemes
  import opened Manifests
  import opened Journals
  import opened Indexes
  import opened Holdings
  import opened Crashes
  import I = Interleaving
  import R = Runs
  import P = Persists

  /** The store in flight, and its tables and files. */
  datatype Both = Both(s: I.State, p: P.State)

  /** A step of an operation, or of the persist that is under way. */
  datatype Move = Store(step: I.Step) | Persist(part: P.Step)

  // ---- Records and files ----

  ghost function IndexOf(cfg: Config, known: iset<bytes>, r: I.Records): map<Id, Record> {
    map o | o in r.objects && cfg.sc.IsObject(known, o) ::
      RecordOf(cfg.sc, cfg.sc.ContentOf(known, o), r.objects[o] % TWO32)
  }

  ghost function RawsOf(cfg: Config, known: iset<bytes>, r: I.Records): map<Id, bytes> {
    map o | o in r.manifests && cfg.sc.IsObject(known, o) :: RawOf(cfg, cfg.sc.ContentOf(known, o))
  }

  /** The index, the files and the count table hold what the records say. */
  ghost predicate Mirrors(cfg: Config, known: iset<bytes>, b: Both) {
    && b.p.index == IndexOf(cfg, known, b.s.rec)
    && b.p.d.raws == RawsOf(cfg, known, b.s.rec)
    && b.p.d.blobs == b.s.rec.blobs
    && forall id: Id :: Count(b.p.counts, id) == b.s.rec.counts[id]
  }

  /** The record a step journals: only counting a chunk up or down does that. */
  ghost function Counting(sc: Scheme, s: I.State, step: I.Step): Option<Rec> {
    if step.Advance? && step.t in s.threads then
      match s.threads[step.t]
      case PutCounting(c, k) => if k < |sc.Ids(c)| then Some(Rec(INC, sc.Ids(c)[k], 1)) else None
      case DelCounting(_, ids, k) => if k < |ids| && ids[k] in s.rec.counts then Some(Rec(DEC, ids[k], 1)) else None
      case _ => None
    else None
  }

  /** A manifest of more than 2^20 chunks is refused. */
  predicate Encodes(sc: Scheme, s: I.State, step: I.Step) {
    step.Advance? && step.t in s.threads && s.threads[step.t].PutFresh? ==>
      |sc.Pieces(s.threads[step.t].c)| <= MAX_CHUNKS
  }

  ghost predicate Enabled(cfg: Config, known: iset<bytes>, b: Both, m: Move) {
    match m
    case Store(step) => I.Enabled(cfg.sc, b.s, step) && I.ContentKnown(known, step) && Encodes(cfg.sc, b.s, step)
    case Persist(part) => !part.Change? && !part.Reindex? && !part.Write? && P.Enabled(b.p, part)
  }

  /** What a step of the store does to tables and files. */
  ghost function Follow(cfg: Config, known: iset<bytes>, b: Both, step: I.Step): P.State
    requires I.Enabled(cfg.sc, b.s, step)
  {
    var r, rec := I.Do(cfg.sc, b.s, step).rec, Counting(cfg.sc, b.s, step);
    if rec.Some? then
      if P.Enabled(b.p, P.Change(rec.value)) then P.Do(b.p, P.Change(rec.value), cfg.crc) else b.p
    else
      P.Do(P.Do(b.p, P.Write(r.blobs, RawsOf(cfg, known, r)), cfg.crc), P.Reindex(IndexOf(cfg, known, r)), cfg.crc)
  }

  ghost function Do(cfg: Config, known: iset<bytes>, b: Both, m: Move): Both
    requires Enabled(cfg, known, b, m)
  {
    match m
    case Store(step) => Both(I.Do(cfg.sc, b.s, step), Follow(cfg, known, b, step))
    case Persist(part) => b.(p := P.Do(b.p, part, cfg.crc))
  }

  const Start := Both(I.Init, P.State(map[], map[], Disk(map[], map[], map[], map[], []), P.Idle, [], 0, 0, 0))

  ghost predicate Trace(cfg: Config, known: iset<bytes>, moves: seq<Move>, states: seq<Both>) {
    && |states| == |moves| + 1 && states[0] == Start
    && forall i :: 0 <= i < |moves| ==>
         Enabled(cfg, known, states[i], moves[i]) && states[i + 1] == Do(cfg, known, states[i], moves[i])
  }

  // ---- The invariant ----

  ghost predicate Fits(sc: Scheme, known: iset<bytes>, o: Id) {
    sc.IsObject(known, o) && |sc.Pieces(sc.ContentOf(known, o))| <= MAX_CHUNKS
  }

  /** Records of known contents: what the index on disk is made of. */
  ghost predicate Filed(cfg: Config, known: iset<bytes>, index: map<Id, Record>) {
    forall o :: o in index ==>
      && Fits(cfg.sc, known, o) && index[o].useCount > 0
      && index[o] == RecordOf(cfg.sc, cfg.sc.ContentOf(known, o), index[o].useCount)
  }

  ghost predicate AllFit(sc: Scheme, known: iset<bytes>, r: I.Records) {
    forall o :: o in r.manifests ==> Fits(sc, known, o)
  }

  /** No use count, and no more records, than there were steps. */
  ghost predicate Short(b: Both, n: nat) {
    |b.p.log| <= n && forall o :: o in b.s.rec.objects ==> b.s.rec.objects[o] <= n
  }

  ghost predicate Good(cfg: Config, known: iset<bytes>, b: Both, n: nat) {
    && I.Inv(cfg.sc, known, b.s) && Mirrors(cfg, known, b) && P.Track(map[], b.p, cfg.crc)
    && AllFit(cfg.sc, known, b.s.rec) && Filed(cfg, known, b.p.d.index) && Short(b, n)
  }

  /** How the records move: a count by one, or anything but a count. */
  lemma CountsMove(sc: Scheme, known: iset<bytes>, s: I.State, step: I.Step)
    requires I.Inv(sc, known, s) && I.Enabled(sc, s, step)
    ensures var r, r', rec := s.rec, I.Do(sc, s, step).rec, Counting(sc, s, step);
      if rec.Some? then
        && (rec.value.op == INC || (rec.value.op == DEC && rec.value.id in r.counts)) && rec.value.n == 1
        && r' == r.(counts := if rec.value.op == INC then r.counts + multiset{rec.value.id}
                              else r.counts - multiset{rec.value.id})
      else
        r'.counts == r.counts
  {
    hide I.Inv, Scheme.Ids, Scheme.Pieces;
  }

  /** What may be new among objects and manifests. */
  lemma ObjectsMove(sc: Scheme, known: iset<bytes>, s: I.State, step: I.Step)
    requires sc.Sound(known) && I.Inv(sc, known, s) && I.Enabled(sc, s, step) && Encodes(sc, s, step)
    requires AllFit(sc, known, s.rec)
    ensures AllFit(sc, known, I.Do(sc, s, step).rec)
  {
    hide I.Inv, I.ThreadInv, I.Do, Fits, Scheme.Sound;
    ManifestsMove(sc, s, step);
    if step.Advance? && s.threads[step.t].PutFresh? {
      R.AtPc(sc, known, s, step.t);
      FreshKnown(sc, known, s.rec, s.threads[step.t]);
      FitsIfShort(sc, known, s.threads[step.t].c);
    }
  }

  lemma FitsIfShort(sc: Scheme, known: iset<bytes>, c: bytes)
    requires sc.Sound(known) && c in known && |sc.Pieces(c)| <= MAX_CHUNKS
    ensures Fits(sc, known, sc.objectId(c))
  {
    sc.ContentUnique(known, c);
  }

  lemma ManifestsMove(sc: Scheme, s: I.State, step: I.Step)
    requires I.Enabled(sc, s, step)
    ensures forall o :: o in I.Do(sc, s, step).rec.manifests ==>
              || o in s.rec.manifests
              || (step.Advance? && s.threads[step.t].PutFresh? && o == sc.objectId(s.threads[step.t].c))
  {
    hide Scheme.Ids, Scheme.Pieces, I.Stored;
    if step.Advance? {
      StoredKeeps(sc, s.rec, s.threads[step.t]);
    }
  }

  lemma StoredKeeps(sc: Scheme, r: I.Records, pc: I.Pc)
    ensures pc.PutWriting? && pc.k < |sc.Pieces(pc.c)| ==> I.Stored(sc, r, pc.c, pc.k).manifests == r.manifests
  {
  }

  lemma FreshKnown(sc: Scheme, known: iset<bytes>, r: I.Records, pc: I.Pc)
    requires I.ThreadInv(sc, known, r, pc) && pc.PutFresh?
    ensures pc.c in known
  {
  }

  lemma UseMoves(sc: Scheme, known: iset<bytes>, s: I.State, step: I.Step, n: nat)
    requires sc.Sound(known) && I.Inv(sc, known, s) && I.Enabled(sc, s, step)
    requires forall o :: o in s.rec.objects ==> s.rec.objects[o] <= n
    ensures forall o :: o in I.Do(sc, s, step).rec.objects ==> I.Do(sc, s, step).rec.objects[o] <= n + 1
  {
    hide I.Inv, I.Do, I.Possible, I.Admitted, Scheme.Sound;
    var r' := I.Do(sc, s, step).rec;
    forall o | o in r'.objects
      ensures r'.objects[o] <= n + 1
    {
      R.StepRefinesMultiset(sc, known, s, step, o);
    }
  }

  lemma CountsSmall(p: P.State, crc: Crc, n: nat)
    requires P.Track(map[], p, crc) && |p.log| <= n && n + 1 < TWO32
    ensures forall id :: Count(p.counts, id) <= n
  {
    hide ApplyAll, Image, Added, Taken;
    ApplyUnits(map[], p.log);
    forall id
      ensures Count(p.counts, id) <= n
    {
      SumsBound(p.log, id);
      assert Count(p.counts, id) == Count(map[], id) + Added(p.log)[id] - Taken(p.log)[id];
    }
  }

  lemma SameFiles(cfg: Config, known: iset<bytes>, r: I.Records, r': I.Records)
    requires r'.objects == r.objects && r'.manifests == r.manifests
    ensures IndexOf(cfg, known, r') == IndexOf(cfg, known, r) && RawsOf(cfg, known, r') == RawsOf(cfg, known, r)
  {
  }

  /** A step that counts a chunk is journalled. */
  lemma CountFollows(cfg: Config, known: iset<bytes>, b: Both, step: I.Step, n: nat)
    requires I.Inv(cfg.sc, known, b.s) && I.Enabled(cfg.sc, b.s, step) && Counting(cfg.sc, b.s, step).Some?
    requires Mirrors(cfg, known, b) && P.Track(map[], b.p, cfg.crc) && |b.p.log| <= n && n + 1 < TWO32
    ensures var rec := Counting(cfg.sc, b.s, step).value;
      P.Enabled(b.p, P.Change(rec)) && Follow(cfg, known, b, step) == P.Do(b.p, P.Change(rec), cfg.crc)
    ensures Mirrors(cfg, known, Both(I.Do(cfg.sc, b.s, step), Follow(cfg, known, b, step)))
    ensures P.Track(map[], Follow(cfg, known, b, step), cfg.crc) && |Follow(cfg, known, b, step).log| <= n + 1
  {
    hide I.Inv, I.Do, I.Possible, I.Admitted, P.Track, Counting, IndexOf, RawsOf, Apply, EncodeRec;
    var rec, r, r' := Counting(cfg.sc, b.s, step).value, b.s.rec, I.Do(cfg.sc, b.s, step).rec;
    CountsMove(cfg.sc, known, b.s, step);
    CountsSmall(b.p, cfg.crc, n);
    assert Count(b.p.counts, rec.id) == r.counts[rec.id];
    UnitApplied(b.p.counts, rec);
    SameFiles(cfg, known, r, r');
    P.StepTracks(map[], b.p, P.Change(rec), cfg.crc);
  }

  /** Any other step leaves the counts and is written. */
  lemma OtherFollows(cfg: Config, known: iset<bytes>, b: Both, step: I.Step)
    requires I.Inv(cfg.sc, known, b.s) && I.Enabled(cfg.sc, b.s, step) && Counting(cfg.sc, b.s, step).None?
    requires Mirrors(cfg, known, b) && P.Track(map[], b.p, cfg.crc)
    ensures Mirrors(cfg, known, Both(I.Do(cfg.sc, b.s, step), Follow(cfg, known, b, step)))
    ensures P.Track(map[], Follow(cfg, known, b, step), cfg.crc) && Follow(cfg, known, b, step).log == b.p.log
    ensures Follow(cfg, known, b, step).d.index == b.p.d.index
  {
    hide I.Inv, I.Do, I.Possible, I.Admitted, P.Track, Counting, IndexOf, RawsOf;
    CountsMove(cfg.sc, known, b.s, step);
    var r := I.Do(cfg.sc, b.s, step).rec;
    var write := P.Write(r.blobs, RawsOf(cfg, known, r));
    P.StepTracks(map[], b.p, write, cfg.crc);
    P.StepTracks(map[], P.Do(b.p, write, cfg.crc), P.Reindex(IndexOf(cfg, known, r)), cfg.crc);
  }

  lemma StoreKeepsGood(cfg: Config, known: iset<bytes>, b: Both, step: I.Step, n: nat)
    requires cfg.sc.Sound(known) && Good(cfg, known, b, n) && n + 1 < TWO32 && Enabled(cfg, known, b, Store(step))
    ensures Good(cfg, known, Do(cfg, known, b, Store(step)), n + 1)
  {
    hide I.Inv, I.Do, I.Possible, I.Admitted, P.Track, Counting, IndexOf, RawsOf, Follow, Mirrors, AllFit, Filed,
      Encodes, Scheme.Sound;
    I.StepKeepsInv(cfg.sc, known, b.s, step);
    ObjectsMove(cfg.sc, known, b.s, step);
    UseMoves(cfg.sc, known, b.s, step, n);
    if Counting(cfg.sc, b.s, step).Some? {
      CountFollows(cfg, known, b, step, n);
    } else {
      OtherFollows(cfg, known, b, step);
    }
  }

  /** What is indexed now may be saved. */
  lemma IndexFiled(cfg: Config, known: iset<bytes>, b: Both, n: nat)
    requires I.Inv(cfg.sc, known, b.s) && AllFit(cfg.sc, known, b.s.rec) && Short(b, n) && n < TWO32
    ensures Filed(cfg, known, IndexOf(cfg, known, b.s.rec))
  {
    hide I.Inv, Fits, RecordOf, Scheme.ContentOf, IndexOf;
    var r := b.s.rec;
    forall o | o in r.objects
      ensures Fits(cfg.sc, known, o) && 0 < r.objects[o] % TWO32
    {
      ListedFits(cfg, known, b.s, o);
    }
    UseCountKept(cfg, known, r);
  }

  lemma ListedFits(cfg: Config, known: iset<bytes>, s: I.State, o: Id)
    requires I.Inv(cfg.sc, known, s) && AllFit(cfg.sc, known, s.rec) && o in s.rec.objects
    ensures Fits(cfg.sc, known, o) && s.rec.objects[o] >= 1
  {
    hide I.ThreadsInv, I.CountInv, I.LockInv, I.FenceInv, Genuine, Fits;
    assert I.ObjectOk(cfg.sc, known, s.rec, o, I.Holder(s, o));
  }

  lemma UseCountKept(cfg: Config, known: iset<bytes>, r: I.Records)
    ensures forall o :: o in IndexOf(cfg, known, r) ==>
              && o in r.objects && cfg.sc.IsObject(known, o)
              && IndexOf(cfg, known, r)[o].useCount == r.objects[o] % TWO32
              && IndexOf(cfg, known, r)[o]
              == RecordOf(cfg.sc, cfg.sc.ContentOf(known, o), IndexOf(cfg, known, r)[o].useCount)
  {
  }

  lemma PersistKeepsGood(cfg: Config, known: iset<bytes>, b: Both, part: P.Step, n: nat)
    requires Good(cfg, known, b, n) && n < TWO32 && Enabled(cfg, known, b, Persist(part))
    ensures Good(cfg, known, Do(cfg, known, b, Persist(part)), n + 1)
  {
    hide I.Inv, P.Track, IndexOf, RawsOf, AllFit, Filed;
    P.StepTracks(map[], b.p, part, cfg.crc);
    if part.SaveIndex? {
      IndexFiled(cfg, known, b, n);
    }
  }

  lemma StartGood(cfg: Config, known: iset<bytes>)
    ensures Good(cfg, known, Start, 0)
  {
    hide I.Inv;
    I.InitInv(cfg.sc, known);
    NoRecords(map[], cfg.crc);
    P.OpenedTracks(Start.p, cfg.crc);
  }

  lemma {:induction false} RunGood(cfg: Config, known: iset<bytes>, moves: seq<Move>, states: seq<Both>, i: nat)
    requires cfg.sc.Sound(known) && Trace(cfg, known, moves, states) && i <= |moves| && |moves| < TWO32
    ensures Good(cfg, known, states[i], i)
  {
    hide Good, Enabled, Do, Scheme.Sound;
    if i == 0 {
      StartGood(cfg, known);
    } else {
      RunGood(cfg, known, moves, states, i - 1);
      if moves[i - 1].Store? {
        StoreKeepsGood(cfg, known, states[i - 1], moves[i - 1].step, i - 1);
      } else {
        PersistKeepsGood(cfg, known, states[i - 1], moves[i - 1].part, i - 1);
      }
    }
  }

  // ---- What a crash leaves ----

  /** Is the object indexed, and not being counted down? */
  predicate Stands(s: I.State, o: Id) {
    o in s.rec.objects && !(I.Holder(s, o).Some? && I.Holder(s, o).value.DelCounting?)
  }

  /** That is: no Delete has begun to take its chunks back. */
  lemma StandsMeans(sc: Scheme, known: iset<bytes>, s: I.State, o: Id)
    requires I.Inv(sc, known, s)
    ensures Stands(s, o) <==>
              o in s.rec.objects && forall t :: t in s.threads ==> !(s.threads[t].DelCounting? && s.threads[t].o == o)
  {
    hide I.ThreadsInv, I.CountInv, I.FenceInv, Genuine, I.ObjectInv;
    if o in s.rec.objects && exists t :: t in s.threads && s.threads[t].DelCounting? && s.threads[t].o == o {
      var t :| t in s.threads && s.threads[t].DelCounting? && s.threads[t].o == o;
      assert I.Holds(sc, s.threads[t]) == Some(o);
    }
  }

  /** What the index on disk lists and still stands, as often as it says. */
  ghost function Copies(cfg: Config, known: iset<bytes>, b: Both): map<Id, multiset<bytes>> {
    map o | o in b.p.d.index && cfg.sc.IsObject(known, o) && Stands(b.s, o) ::
      multiset{}[cfg.sc.ContentOf(known, o) := b.p.d.index[o].useCount]
  }

  /** A crash now is answered for with this; what the index on disk lists and a Delete has begun to take
      away, or has taken, is doomed. */
  ghost function HeldBy(cfg: Config, known: iset<bytes>, b: Both): Held {
    Held(Total(Copies(cfg, known, b)),
         set o | o in b.p.d.index && cfg.sc.IsObject(known, o) && !Stands(b.s, o) :: cfg.sc.ContentOf(known, o))
  }

  ghost function CopiesOf(cfg: Config, b: Both, c: bytes): nat {
    var o := cfg.sc.objectId(c);
    if o in b.p.d.index && Stands(b.s, o) then b.p.d.index[o].useCount else 0
  }

  lemma HeldMeans(cfg: Config, known: iset<bytes>, b: Both, c: bytes)
    requires cfg.sc.Sound(known)
    ensures c in known ==> HeldBy(cfg, known, b).contents[c] == CopiesOf(cfg, b, c)
    ensures c !in known ==> HeldBy(cfg, known, b).contents[c] == 0
    ensures c in HeldBy(cfg, known, b).doomed <==>
              c in known && cfg.sc.objectId(c) in b.p.d.index && !Stands(b.s, cfg.sc.objectId(c))
  {
    hide Stands;
    var o, m := cfg.sc.objectId(c), Copies(cfg, known, b);
    forall q | q in m && (c !in known || q != o)
      ensures c !in m[q]
    {
      assert cfg.sc.objectId(cfg.sc.ContentOf(known, q)) == q;
    }
    if c in known {
      cfg.sc.ContentUnique(known, c);
      TotalAt(m, o, c);
    } else if c in Total(m) {
      var q := TotalMember(m, c);
    }
  }

  /** A standing object has its manifest, its chunks and all of its references. */
  lemma StandingWhole(cfg: Config, known: iset<bytes>, s: I.State, o: Id)
    requires I.Inv(cfg.sc, known, s) && Stands(s, o)
    ensures cfg.sc.IsObject(known, o) && o in s.rec.manifests
    ensures s.rec.manifests[o] == cfg.sc.Ids(cfg.sc.ContentOf(known, o))
    ensures I.AllPresent(s.rec.blobs, s.rec.manifests[o])
    ensures o in I.Shares(s) && I.Shares(s)[o] == multiset(s.rec.manifests[o])
  {
    hide I.ThreadsInv, I.CountInv, I.FenceInv, Genuine, I.AllPresent, Scheme.Ids;
    assert I.ObjectOk(cfg.sc, known, s.rec, o, I.Holder(s, o));
    if I.Holder(s, o).Some? && I.Holder(s, o).value.PutCounting? {
      NotCounting(cfg, known, s, o);
    }
  }

  /** Nobody counts the chunks of an object that is indexed already. */
  lemma NotCounting(cfg: Config, known: iset<bytes>, s: I.State, o: Id)
    requires I.Inv(cfg.sc, known, s) && o in s.rec.objects && I.Holder(s, o).Some?
    ensures !I.Holder(s, o).value.PutCounting?
  {
    hide I.ThreadInv, I.CountInv, I.FenceInv, Genuine, I.ObjectInv;
    I.AtLockedPc(cfg.sc, known, s, s.locks[o]);
    if I.Holder(s, o).value.PutCounting? {
      CountingUnlisted(cfg, known, s.rec, s.threads[s.locks[o]]);
    }
  }

  lemma CountingUnlisted(cfg: Config, known: iset<bytes>, r: I.Records, pc: I.Pc)
    requires I.ThreadInv(cfg.sc, known, r, pc) && pc.PutCounting?
    ensures cfg.sc.objectId(pc.c) !in r.objects
  {
  }

  /** The count table covers what stands. */
  lemma StandingCounted(cfg: Config, known: iset<bytes>, b: Both)
    requires cfg.sc.Sound(known) && I.Inv(cfg.sc, known, b.s) && Mirrors(cfg, known, b)
    ensures Enough(cfg.sc, HeldBy(cfg, known, b).contents, b.p.counts)
  {
    hide I.Inv, Total, I.Shares, HeldBy, Stands, Scheme.Ids, Scheme.Sound, Count, IndexOf, RawsOf;
    var contents := HeldBy(cfg, known, b).contents;
    var need := Demand(cfg.sc, contents);
    forall c | c in need
      ensures c in known && cfg.sc.objectId(c) in I.Shares(b.s) && need[c] <= I.Shares(b.s)[cfg.sc.objectId(c)]
    {
      HeldMeans(cfg, known, b, c);
      StandingWhole(cfg, known, b.s, cfg.sc.objectId(c));
      cfg.sc.ContentUnique(known, c);
    }
    Injective(cfg.sc, known);
    TotalInto(need, I.Shares(b.s), cfg.sc.objectId);
    CountsAre(cfg.sc, known, b.s);
    forall id
      ensures Total(need)[id] <= Count(b.p.counts, id)
    {
      assert Count(b.p.counts, id) == b.s.rec.counts[id];
    }
  }

  lemma Injective(sc: Scheme, known: iset<bytes>)
    requires sc.Sound(known)
    ensures forall c, d :: c in known && d in known && sc.objectId(c) == sc.objectId(d) ==> c == d
  {
  }

  lemma CountsAre(sc: Scheme, known: iset<bytes>, s: I.State)
    requires I.Inv(sc, known, s)
    ensures s.rec.counts == Total(I.Shares(s))
  {
    hide I.ThreadsInv, I.ObjectInv, I.FenceInv, Genuine, I.LockInv;
  }

  /** Tables as they are, beside the index on disk. */
  ghost function Tables(b: Both): Kept {
    Kept(b.p.d.blobs, b.p.counts, b.p.d.index, b.p.d.raws)
  }

  lemma OneStands(cfg: Config, known: iset<bytes>, b: Both, c: bytes)
    requires cfg.sc.Sound(known) && I.Inv(cfg.sc, known, b.s) && Mirrors(cfg, known, b)
    requires Filed(cfg, known, b.p.d.index) && c in HeldBy(cfg, known, b).contents
    ensures HoldsOne(cfg, known, Tables(b), c, HeldBy(cfg, known, b).contents[c])
  {
    hide I.Inv, HeldBy, Stands, Scheme.Sound, RecordOf, RawOf, Scheme.Pieces, I.Shares;
    var o := cfg.sc.objectId(c);
    HeldMeans(cfg, known, b, c);
    StandingWhole(cfg, known, b.s, o);
    cfg.sc.ContentUnique(known, c);
    ChunksStand(cfg.sc, b.s.rec.blobs, c);
  }

  lemma ChunksStand(sc: Scheme, blobs: map<Id, bytes>, c: bytes)
    ensures I.AllPresent(blobs, sc.Ids(c)) ==> ChunksPresent(sc, blobs, c)
  {
    hide Scheme.Pieces;
  }

  lemma RawsAre(cfg: Config, known: iset<bytes>, r: I.Records)
    ensures forall o :: o in RawsOf(cfg, known, r) ==>
              cfg.sc.IsObject(known, o) && RawsOf(cfg, known, r)[o] == RawOf(cfg, cfg.sc.ContentOf(known, o))
  {
    hide RawOf;
  }

  /** In every state of every run, what the index on disk lists and still stands is completely there. */
  lemma StandingCovered(cfg: Config, known: iset<bytes>, b: Both, n: nat)
    requires cfg.sc.Sound(known) && Good(cfg, known, b, n)
    ensures Covers(cfg, known, HeldBy(cfg, known, b), Tables(b))
  {
    hide I.Inv, HeldBy, Stands, Scheme.Sound, RecordOf, RawOf, RawsOf, IndexOf, Scheme.Pieces, P.Track, Enough,
      HoldsOne, AllFit;
    var h := HeldBy(cfg, known, b);
    StandingCounted(cfg, known, b);
    RawsAre(cfg, known, b.s.rec);
    GenuineNow(cfg.sc, known, b.s);
    forall c | c in h.contents
      ensures HoldsOne(cfg, known, Tables(b), c, h.contents[c])
    {
      OneStands(cfg, known, b, c);
    }
    forall o | o in b.p.d.index
      ensures cfg.sc.ContentOf(known, o) in h.contents || cfg.sc.ContentOf(known, o) in h.doomed
    {
      HeldMeans(cfg, known, b, cfg.sc.ContentOf(known, o));
    }
    forall c | c in h.doomed
      ensures c in known && c !in h.contents
    {
      HeldMeans(cfg, known, b, c);
    }
    RecordIds(cfg.sc);
  }

  lemma RecordIds(sc: Scheme)
    ensures forall c, n :: RecordOf(sc, c, n).id == sc.objectId(c)
  {
  }

  lemma GenuineNow(sc: Scheme, known: iset<bytes>, s: I.State)
    requires I.Inv(sc, known, s)
    ensures Genuine(sc, known, s.rec.blobs)
  {
    hide I.ThreadsInv, I.ObjectInv, I.FenceInv, Genuine, I.LockInv, I.CountInv;
  }

  lemma RoomInRun(p: P.State, n: nat)
    requires |p.log| <= n < TWO32
    ensures P.Roomy(map[], p.log)
  {
  }

  /** A crash at any point of any run of Puts, Deletes, Gets, GCs and persists, interleaved in any way: what the
      index on disk lists and still stands is recovered exactly if the journal can be applied and leaves what
      it needs, with what is missing added and what is there twice taken off. */
  lemma CrashInAnyRun(cfg: Config, known: iset<bytes>, moves: seq<Move>, states: seq<Both>, i: nat)
    requires cfg.sc.Sound(known) && Trace(cfg, known, moves, states) && i <= |moves| && |moves| < TWO32
    ensures P.Track(map[], states[i].p, cfg.crc)
    ensures var b, h := states[i], HeldBy(cfg, known, states[i]);
      && Covers(cfg, known, h, Tables(b))
      && (Survives(cfg, known, h, b.p.d)
          <==> Payable(b.p.d.refs, b.p.log[b.p.emptied..]) && P.StillEnough(cfg.sc, h.contents, b.p))
  {
    hide Enabled, Do, Covers, Survives, Payable, P.StillEnough, I.Inv, Mirrors, AllFit, Filed, P.Track, HeldBy,
      Scheme.Sound;
    RunGood(cfg, known, moves, states, i);
    StandingCovered(cfg, known, states[i], i);
    RoomInRun(states[i].p, i);
    P.CrashExact(cfg, known, HeldBy(cfg, known, states[i]), map[], states[i].p);
  }

  /** As long as no chunk is counted up or down between the snapshot of a persist and the emptying of the journal
      that follows it, all of this survives a crash at any point outside that window. */
  lemma QuietRunSurvives(cfg: Config, known: iset<bytes>, moves: seq<Move>, states: seq<Both>, i: nat)
    requires cfg.sc.Sound(known) && Trace(cfg, known, moves, states) && i <= |moves| && |moves| < TWO32
    requires forall k :: 0 <= k < i && moves[k].Store? && Counting(cfg.sc, states[k].s, moves[k].step).Some? ==>
               !states[k].p.phase.Snapped? && !states[k].p.phase.Saved?
    requires !states[i].p.phase.Saved?
    ensures Recovered(states[i].p.d, cfg.crc) == Ok(states[i].p.counts)
    ensures Survives(cfg, known, HeldBy(cfg, known, states[i]), states[i].p.d)
  {
    hide Enabled, Do, Covers, I.Inv, Mirrors, AllFit, Filed, P.Track, HeldBy, Scheme.Sound, P.Quiet, Counting, Replay;
    RunGood(cfg, known, moves, states, i);
    StaysQuiet(cfg, known, moves, states, i);
    StandingCovered(cfg, known, states[i], i);
    P.QuietRecovers(map[], states[i].p, cfg.crc);
    P.RefsNoZeros(map[], states[i].p, cfg.crc);
  }

  lemma {:induction false} StaysQuiet(cfg: Config, known: iset<bytes>, moves: seq<Move>, states: seq<Both>, i: nat)
    requires Trace(cfg, known, moves, states) && i <= |moves|
    requires forall k :: 0 <= k < i && moves[k].Store? && Counting(cfg.sc, states[k].s, moves[k].step).Some? ==>
               !states[k].p.phase.Snapped? && !states[k].p.phase.Saved?
    ensures P.Quiet(states[i].p)
  {
    hide Enabled, Do, Counting, P.Quiet;
    if i == 0 {
      StartQuiet();
    } else {
      StaysQuiet(cfg, known, moves, states, i - 1);
      MoveQuiet(cfg, known, states[i - 1], moves[i - 1]);
    }
  }

  lemma StartQuiet()
    ensures P.Quiet(Start.p)
  {
  }

  lemma MoveQuiet(cfg: Config, known: iset<bytes>, b: Both, m: Move)
    requires Enabled(cfg, known, b, m) && P.Quiet(b.p)
    requires m.Store? && Counting(cfg.sc, b.s, m.step).Some? ==> !b.p.phase.Snapped? && !b.p.phase.Saved?
    ensures P.Quiet(Do(cfg, known, b, m).p)
  {
    hide I.Do, I.Possible, I.Admitted, Counting, IndexOf, RawsOf, P.Quiet, P.Do, Encodes;
    if m.Persist? {
      P.QuietKept(b.p, m.part, cfg.crc);
    } else if Counting(cfg.sc, b.s, m.step).Some? {
      var change := P.Change(Counting(cfg.sc, b.s, m.step).value);
      if P.Enabled(b.p, change) {
        P.QuietKept(b.p, change, cfg.crc);
      }
    } else {
      var r := I.Do(cfg.sc, b.s, m.step).rec;
      var write := P.Write(r.blobs, RawsOf(cfg, known, r));
      P.QuietKept(b.p, write, cfg.crc);
      P.QuietKept(P.Do(b.p, write, cfg.crc), P.Reindex(IndexOf(cfg, known, r)), cfg.crc);
    }
  }

  // ---- Every run of the store is there ----

  /** The steps of persist and of the store can be taken whenever they could by themselves. */
  lemma AnyStep(cfg: Config, known: iset<bytes>, b: Both, step: I.Step)
    ensures I.Enabled(cfg.sc, b.s, step) && I.ContentKnown(known, step) && Encodes(cfg.sc, b.s, step) ==>
              Enabled(cfg, known, b, Store(step)) && Do(cfg, known, b, Store(step)).s == I.Do(cfg.sc, b.s, step)
    ensures b.p.phase.Idle? ==> Enabled(cfg, known, b, Persist(P.SaveIndex))
    ensures b.p.phase.Listed? ==> Enabled(cfg, known, b, Persist(P.Snap))
    ensures b.p.phase.Snapped? ==> Enabled(cfg, known, b, Persist(P.SaveCounts))
    ensures b.p.phase.Saved? ==> Enabled(cfg, known, b, Persist(P.Empty))
  {
    hide I.Do, I.Possible, I.Admitted, Encodes, Follow;
  }

  /** Every run of the store, in which no manifest is too long, is one on disk. */
  lemma {:induction false} RunsLift(cfg: Config, known: iset<bytes>, steps: seq<I.Step>, states: seq<I.State>)
    returns (moves: seq<Move>, all: seq<Both>)
    requires R.Run(cfg.sc, known, steps, states)
    requires forall i :: 0 <= i < |steps| ==> Encodes(cfg.sc, states[i], steps[i])
    ensures Trace(cfg, known, moves, all) && |moves| == |steps|
    ensures forall i :: 0 <= i < |steps| ==> moves[i] == Store(steps[i])
    ensures forall i :: 0 <= i <= |steps| ==> all[i].s == states[i]
    decreases |steps|
  {
    hide Enabled, Do, I.Do, I.Possible, I.Admitted, Encodes;
    if steps == [] {
      return [], [Start];
    }
    var n := |steps| - 1;
    moves, all := RunsLift(cfg, known, steps[..n], states[..n + 1]);
    AnyStep(cfg, known, all[n], steps[n]);
    assert states[n + 1] == I.Do(cfg.sc, states[n], steps[n]);
    moves, all := moves + [Store(steps[n])], all + [Do(cfg, known, all[n], Store(steps[n]))];
  }
}
