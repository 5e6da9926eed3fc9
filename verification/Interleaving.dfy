/** Concurrent Puts, Deletes, Gets and GCs as an interleaving of their atomic steps over the shared
    store: the memory backend, the count table, the index, the manifests, the object locks and the
    shared/exclusive fence (put.go, delete.go, get.go, internal/iofence, internal/gc). */
module Interleaving {
  import opened Bytes
  import opened Schemes
  import opened Sums

  type Tid = nat

  /** Where a thread is in its operation. */
  datatype Pc =
    | PutWriting(c: bytes, k: nat)                   // first k chunks written or found present
    | PutLocked(c: bytes)                            // object lock held, index not yet consulted
    | PutFound(c: bytes, use: nat)                   // already indexed, with this use count
    | PutFresh(c: bytes)                             // not indexed: manifest to be written
    | PutCounting(c: bytes, k: nat)                  // manifest written, first k chunks counted
    | DelStart(o: Id)
    | DelLocked(o: Id)
    | DelFound(o: Id, use: nat)
    | DelLoaded(o: Id, use: nat, ids: seq<Id>)
    | DelCounting(o: Id, ids: seq<Id>, k: nat)       // first k chunks counted down
    | DelUnlisted(o: Id)                             // index entry gone, manifest still there
    | Unlocking(o: Id)
    | GetStart(o: Id)
    | GetFound(o: Id)
    | Incomplete(o: Id)                              // indexed when looked up, but without a manifest now
    | Reading(o: Id, ids: seq<Id>, i: nat, out: bytes)
    | Leaving
    | GcScan(todo: set<Id>)
    | GcDoomed(todo: set<Id>, id: Id)                // count of id seen to be zero
    | Broken                                         // underflow, missing chunk or missing manifest

  /** What the store keeps: chunks, count table, index with use counts, manifests. */
  datatype Records = Records(
    blobs: map<Id, bytes>,
    counts: multiset<Id>,
    objects: map<Id, nat>,
    manifests: map<Id, seq<Id>>)

  datatype State = State(
    rec: Records,
    locks: map<Id, Tid>,
    readers: nat,
    writer: bool,
    threads: map<Tid, Pc>)

  datatype Step =
    | StartPut(t: Tid, c: bytes)
    | StartDelete(t: Tid, o: Id)
    | StartGet(t: Tid, o: Id)
    | StartGc(t: Tid)
    | Advance(t: Tid)
    | Abort(t: Tid)            // the reader fails, or the manifest does not validate
    | CloseReader(t: Tid)
    | Pick(t: Tid, id: Id)     // GC looks at its next chunk

  const Init := State(Records(map[], multiset{}, map[], map[]), map[], 0, false, map[])

  /** Does the thread hold the fence on the shared side? */
  predicate Shared(pc: Pc) {
    !pc.GcScan? && !pc.GcDoomed?
  }

  /** The object whose lock the thread holds. */
  function Holds(sc: Scheme, pc: Pc): Option<Id> {
    match pc
    case PutLocked(c) => Some(sc.objectId(c))
    case PutFound(c, _) => Some(sc.objectId(c))
    case PutFresh(c) => Some(sc.objectId(c))
    case PutCounting(c, _) => Some(sc.objectId(c))
    case DelLocked(o) => Some(o)
    case DelFound(o, _) => Some(o)
    case DelLoaded(o, _, _) => Some(o)
    case DelCounting(o, _, _) => Some(o)
    case DelUnlisted(o) => Some(o)
    case Unlocking(o) => Some(o)
    case _ => None
  }

  /** Can the step be taken, if the fence were not there? */
  predicate Possible(sc: Scheme, s: State, step: Step) {
    match step
    case StartPut(t, c) => t !in s.threads
    case StartDelete(t, o) => t !in s.threads
    case StartGet(t, o) => t !in s.threads
    case StartGc(t) => t !in s.threads
    case Advance(t) =>
      t in s.threads &&
      (match s.threads[t]
       case PutWriting(c, k) => k < |sc.Pieces(c)| || sc.objectId(c) !in s.locks
       case DelStart(o) => o !in s.locks
       case Reading(_, ids, i, _) => i < |ids|
       case GcScan(todo) => todo == {}
       case Broken => false
       case _ => true)
    case Abort(t) => t in s.threads && (s.threads[t].PutWriting? || s.threads[t].PutFresh?)
    case CloseReader(t) => t in s.threads && s.threads[t].Reading?
    case Pick(t, id) => t in s.threads && s.threads[t].GcScan? && id in s.threads[t].todo
  }

  /** Does the fence let the step in: many on the shared side, or one GC alone? */
  predicate Admitted(s: State, step: Step) {
    match step
    case StartGc(_) => !s.writer && s.readers == 0
    case StartPut(_, _) => !s.writer
    case StartDelete(_, _) => !s.writer
    case StartGet(_, _) => !s.writer
    case _ => true
  }

  predicate Enabled(sc: Scheme, s: State, step: Step) {
    Possible(sc, s, step) && Admitted(s, step)
  }

  function Goto(s: State, t: Tid, pc: Pc): State {
    s.(threads := s.threads[t := pc])
  }

  /** Thread t goes to pc and the records become rec. */
  function With(s: State, t: Tid, pc: Pc, rec: Records): State {
    s.(threads := s.threads[t := pc], rec := rec)
  }

  /** The records after the writer of c has put its chunk k. */
  function Stored(sc: Scheme, r: Records, c: bytes, k: nat): Records
    requires k < |sc.Pieces(c)|
  {
    var p := sc.Pieces(c)[k];
    var id := sc.chunkId(p);
    if id in r.blobs then r else r.(blobs := r.blobs[id := p])
  }

  /** The next atomic step of thread t. */
  function Next(sc: Scheme, s: State, t: Tid): State
    requires Possible(sc, s, Advance(t))
  {
    var r := s.rec;
    match s.threads[t]
    case PutWriting(c, k) =>
      if k < |sc.Pieces(c)| then
        With(s, t, PutWriting(c, k + 1), Stored(sc, r, c, k))
      else
        Goto(s, t, PutLocked(c)).(locks := s.locks[sc.objectId(c) := t])
    case PutLocked(c) =>
      var o := sc.objectId(c);
      Goto(s, t, if o in r.objects then PutFound(c, r.objects[o]) else PutFresh(c))
    case PutFound(c, use) =>
      var o := sc.objectId(c);
      With(s, t, Unlocking(o), r.(objects := r.objects[o := use + 1]))
    case PutFresh(c) =>
      With(s, t, PutCounting(c, 0), r.(manifests := r.manifests[sc.objectId(c) := sc.Ids(c)]))
    case PutCounting(c, k) =>
      var o := sc.objectId(c);
      if k < |sc.Ids(c)| then
        With(s, t, PutCounting(c, k + 1), r.(counts := r.counts + multiset{sc.Ids(c)[k]}))
      else
        With(s, t, Unlocking(o), r.(objects := r.objects[o := 1]))
    case DelStart(o) =>
      Goto(s, t, DelLocked(o)).(locks := s.locks[o := t])
    case DelLocked(o) =>
      Goto(s, t, if o in r.objects then DelFound(o, r.objects[o]) else Unlocking(o))
    case DelFound(o, use) =>
      Goto(s, t, if o in r.manifests then DelLoaded(o, use, r.manifests[o]) else Broken)
    case DelLoaded(o, use, ids) =>
      if use > 1 then With(s, t, Unlocking(o), r.(objects := r.objects[o := use - 1]))
      else Goto(s, t, DelCounting(o, ids, 0))
    case DelCounting(o, ids, k) =>
      if k < |ids| then
        if r.counts[ids[k]] < 1 then Goto(s, t, Broken)
        else With(s, t, DelCounting(o, ids, k + 1), r.(counts := r.counts - multiset{ids[k]}))
      else
        With(s, t, DelUnlisted(o), r.(objects := r.objects - {o}))
    case DelUnlisted(o) =>
      With(s, t, Unlocking(o), r.(manifests := r.manifests - {o}))
    case Unlocking(o) =>
      Goto(s, t, Leaving).(locks := s.locks - {o})
    case GetStart(o) =>
      Goto(s, t, if o in r.objects then GetFound(o) else Leaving)
    case GetFound(o) =>
      Goto(s, t, if o in r.manifests then Reading(o, r.manifests[o], 0, []) else Incomplete(o))
    case Incomplete(_) =>
      Goto(s, t, Leaving)
    case Reading(o, ids, i, out) =>
      Goto(s, t, if ids[i] in r.blobs then Reading(o, ids, i + 1, out + r.blobs[ids[i]]) else Broken)
    case Leaving =>
      s.(threads := s.threads - {t}, readers := if s.readers > 0 then s.readers - 1 else 0)
    case GcScan(todo) =>
      s.(threads := s.threads - {t}, writer := false)
    case GcDoomed(todo, id) =>
      With(s, t, GcScan(todo), r.(blobs := r.blobs - {id}))
  }

  function Do(sc: Scheme, s: State, step: Step): State
    requires Possible(sc, s, step)
  {
    match step
    case StartPut(t, c) => Goto(s, t, PutWriting(c, 0)).(readers := s.readers + 1)
    case StartDelete(t, o) => Goto(s, t, DelStart(o)).(readers := s.readers + 1)
    case StartGet(t, o) => Goto(s, t, GetStart(o)).(readers := s.readers + 1)
    case StartGc(t) => Goto(s, t, GcScan(s.rec.blobs.Keys)).(writer := true)
    case Advance(t) => Next(sc, s, t)
    case Abort(t) =>
      if s.threads[t].PutWriting? then Goto(s, t, Leaving)
      else Goto(s, t, Unlocking(sc.objectId(s.threads[t].c)))
    case CloseReader(t) => Goto(s, t, Leaving)
    case Pick(t, id) =>
      var todo := s.threads[t].todo - {id};
      Goto(s, t, if s.rec.counts[id] > 0 then GcScan(todo) else GcDoomed(todo, id))
  }

  /** Contents put are among those the digests are collision-free on. */
  ghost predicate ContentKnown(known: iset<bytes>, step: Step) {
    step.StartPut? ==> step.c in known
  }

  // ---- The invariant ----

  ghost function SharedThreads(s: State): set<Tid> {
    set t | t in s.threads && Shared(s.threads[t])
  }

  predicate Exclusive(s: State, t: Tid) {
    t in s.threads && !Shared(s.threads[t])
  }

  /** The RWMutex counters tell the truth, and the two sides exclude each other. */
  ghost predicate FenceInv(s: State) {
    && s.readers == |SharedThreads(s)|
    && (s.writer ==> s.readers == 0)
    && (forall t :: t in s.threads && !Shared(s.threads[t]) ==> s.writer)
    && (s.writer ==> exists t :: Exclusive(s, t))
    && (forall t, u :: t in s.threads && u in s.threads && !Shared(s.threads[t]) && !Shared(s.threads[u]) ==> t == u)
  }

  ghost predicate LockInv(sc: Scheme, s: State) {
    && (forall t :: t in s.threads && Holds(sc, s.threads[t]).Some? ==>
          var o := Holds(sc, s.threads[t]).value; o in s.locks && s.locks[o] == t)
    && (forall o :: o in s.locks ==>
          s.locks[o] in s.threads && Holds(sc, s.threads[s.locks[o]]) == Some(o))
  }

  ghost predicate AllPresent(blobs: map<Id, bytes>, ids: seq<Id>) {
    forall i :: 0 <= i < |ids| ==> ids[i] in blobs
  }

  /** What the blobs hold under ids, joined. */
  ghost function Joined(blobs: map<Id, bytes>, ids: seq<Id>): bytes
    requires AllPresent(blobs, ids)
  {
    if ids == [] then [] else Joined(blobs, ids[..|ids| - 1]) + blobs[ids[|ids| - 1]]
  }

  /** What holds of the records while a thread is at pc. */
  ghost predicate ThreadInv(sc: Scheme, known: iset<bytes>, r: Records, pc: Pc) {
    match pc
    case PutWriting(c, k) => c in known && k <= |sc.Ids(c)| && AllPresent(r.blobs, sc.Ids(c)[..k])
    case PutLocked(c) => c in known && AllPresent(r.blobs, sc.Ids(c))
    case PutFound(c, use) =>
      && c in known && AllPresent(r.blobs, sc.Ids(c))
      && sc.objectId(c) in r.objects && r.objects[sc.objectId(c)] == use
    case PutFresh(c) => c in known && AllPresent(r.blobs, sc.Ids(c)) && sc.objectId(c) !in r.objects
    case PutCounting(c, k) =>
      && c in known && k <= |sc.Ids(c)|
      && sc.objectId(c) !in r.objects && sc.objectId(c) in r.manifests
    case DelFound(o, use) => o in r.objects && r.objects[o] == use
    case DelLoaded(o, use, ids) =>
      && o in r.objects && r.objects[o] == use
      && o in r.manifests && ids == r.manifests[o]
    case DelCounting(o, ids, k) =>
      && o in r.objects && r.objects[o] == 1
      && o in r.manifests && ids == r.manifests[o] && k <= |ids|
    case DelUnlisted(o) => o !in r.objects && o in r.manifests
    case Reading(o, ids, i, out) =>
      && i <= |ids| && AllPresent(r.blobs, ids)
      && sc.IsObject(known, o) && ids == sc.Ids(sc.ContentOf(known, o))
      && out == Joined(r.blobs, ids[..i])
    case GcScan(todo) => forall id :: id in r.blobs ==> id in todo || id in r.counts
    case GcDoomed(todo, id) =>
      && (forall id' :: id' in r.blobs ==> id' in todo || id' in r.counts || id' == id)
      && id !in r.counts
    case Broken => false
    case _ => true
  }

  /** Is a manifest without an index entry allowed while its lock is held at pc? */
  predicate HalfListed(pc: Pc) {
    pc.PutCounting? || pc.DelUnlisted?
  }

  function Holder(s: State, o: Id): Option<Pc> {
    if o in s.locks && s.locks[o] in s.threads then Some(s.threads[s.locks[o]]) else None
  }

  /** An index entry has a manifest, a manifest describes one content and all its chunks are there, and
      only the thread holding the object's lock sees a manifest without an index entry. */
  ghost predicate ObjectOk(sc: Scheme, known: iset<bytes>, r: Records, o: Id, holder: Option<Pc>) {
    && (o in r.objects ==> o in r.manifests && r.objects[o] >= 1)
    && (o in r.manifests ==>
          && sc.IsObject(known, o)
          && r.manifests[o] == sc.Ids(sc.ContentOf(known, o))
          && AllPresent(r.blobs, r.manifests[o])
          && (o !in r.objects ==> holder.Some? && HalfListed(holder.value)))
  }

  ghost predicate ObjectInv(sc: Scheme, known: iset<bytes>, s: State) {
    forall o :: ObjectOk(sc, known, s.rec, o, Holder(s, o))
  }

  ghost predicate ThreadsInv(sc: Scheme, known: iset<bytes>, s: State) {
    forall t :: t in s.threads ==> ThreadInv(sc, known, s.rec, s.threads[t])
  }

  /** The references an object with chunk list ids contributes to the count table, given whether it
      is indexed and where the thread holding its lock is. */
  function ShareAt(holder: Option<Pc>, ids: seq<Id>, listed: bool): multiset<Id> {
    match holder
    case Some(PutCounting(_, k)) => if k <= |ids| then multiset(ids[..k]) else multiset{}
    case Some(DelCounting(_, _, k)) => if k <= |ids| then multiset(ids[k..]) else multiset{}
    case _ => if listed then multiset(ids) else multiset{}
  }

  function Share(r: Records, o: Id, holder: Option<Pc>): multiset<Id> {
    if o in r.manifests then ShareAt(holder, r.manifests[o], o in r.objects) else multiset{}
  }

  function Shares(s: State): map<Id, multiset<Id>> {
    map o | o in s.rec.manifests :: Share(s.rec, o, Holder(s, o))
  }

  ghost predicate CountInv(s: State) {
    s.rec.counts == Total(Shares(s))
  }

  ghost predicate Inv(sc: Scheme, known: iset<bytes>, s: State) {
    && FenceInv(s)
    && LockInv(sc, s)
    && Genuine(sc, known, s.rec.blobs)
    && ObjectInv(sc, known, s)
    && ThreadsInv(sc, known, s)
    && CountInv(s)
  }

  // ---- What a step leaves alone ----

  /** Thread t moves within the operation it is in: same side of the fence. */
  ghost predicate Moves(s: State, s': State, t: Tid) {
    && t in s.threads && t in s'.threads
    && s'.threads == s.threads[t := s'.threads[t]]
    && Shared(s.threads[t]) == Shared(s'.threads[t])
    && s'.readers == s.readers && s'.writer == s.writer
  }

  lemma FenceMove(s: State, s': State, t: Tid)
    requires FenceInv(s) && Moves(s, s', t)
    ensures FenceInv(s')
  {
    assert SharedThreads(s') == SharedThreads(s);
    if s.writer {
      var u :| Exclusive(s, u);
      assert Exclusive(s', u);
    }
  }

  /** While a thread is on the shared side no GC runs. */
  lemma NoGc(s: State, t: Tid)
    requires FenceInv(s) && t in s.threads && Shared(s.threads[t])
    ensures forall u :: u in s.threads ==> Shared(s.threads[u])
  {
    assert t in SharedThreads(s);
  }

  lemma LockMove(sc: Scheme, s: State, s': State, t: Tid)
    requires LockInv(sc, s) && Moves(s, s', t) && s'.locks == s.locks
    requires Holds(sc, s'.threads[t]) == Holds(sc, s.threads[t])
    ensures LockInv(sc, s')
  {
    hide Shared;
  }

  /** When no lock changes hands and the records stay, the object facts and the shares stay. */
  lemma SameHolders(sc: Scheme, known: iset<bytes>, s: State, s': State)
    requires ObjectInv(sc, known, s) && CountInv(s)
    requires s'.rec == s.rec.(blobs := s'.rec.blobs)
    requires forall id :: id in s.rec.blobs ==> id in s'.rec.blobs
    requires forall o :: Holder(s', o) == Holder(s, o)
    ensures ObjectInv(sc, known, s') && CountInv(s')
  {
    hide ShareAt, Holder, HalfListed, Scheme.Ids, Scheme.IsObject, Scheme.ContentOf, Total;
    forall o
      ensures ObjectOk(sc, known, s'.rec, o, Holder(s', o))
    {
      assert ObjectOk(sc, known, s.rec, o, Holder(s, o));
    }
    assert Shares(s') == Shares(s);
  }

  ghost predicate SameExcept<V>(m: map<Id, V>, m': map<Id, V>, o: Id) {
    forall q :: q != o ==> (q in m' <==> q in m) && (q in m ==> m'[q] == m[q])
  }

  // ---- Steps of the lock holder ----

  /** The step changes index entry, manifest and counts of object o only. */
  ghost predicate LocalTo(r: Records, r': Records, o: Id) {
    r'.blobs == r.blobs && SameExcept(r.objects, r'.objects, o) && SameExcept(r.manifests, r'.manifests, o)
  }

  lemma LocalObjects(sc: Scheme, known: iset<bytes>, s: State, s': State, o: Id)
    requires ObjectInv(sc, known, s) && LocalTo(s.rec, s'.rec, o)
    requires forall q :: q != o ==> Holder(s', q) == Holder(s, q)
    requires ObjectOk(sc, known, s'.rec, o, Holder(s', o))
    ensures ObjectInv(sc, known, s')
  {
    forall q
      ensures ObjectOk(sc, known, s'.rec, q, Holder(s', q))
    {
      if q != o {
        assert ObjectOk(sc, known, s.rec, q, Holder(s, q));
      }
    }
  }

  lemma OtherThread(sc: Scheme, known: iset<bytes>, r: Records, r': Records, pc: Pc, o: Id)
    requires ThreadInv(sc, known, r, pc) && Shared(pc) && Holds(sc, pc) != Some(o)
    requires LocalTo(r, r', o)
    ensures ThreadInv(sc, known, r', pc)
  {
  }

  lemma LocalThreads(sc: Scheme, known: iset<bytes>, s: State, s': State, t: Tid, o: Id)
    requires FenceInv(s) && LockInv(sc, s) && ThreadsInv(sc, known, s)
    requires Moves(s, s', t) && Shared(s.threads[t])
    requires Holds(sc, s.threads[t]) == Some(o) && LocalTo(s.rec, s'.rec, o)
    requires ThreadInv(sc, known, s'.rec, s'.threads[t])
    ensures ThreadsInv(sc, known, s')
  {
    hide ThreadInv, LocalTo;
    NoGc(s, t);
    forall u | u in s'.threads
      ensures ThreadInv(sc, known, s'.rec, s'.threads[u])
    {
      if u != t {
        assert Holds(sc, s.threads[u]) != Some(o);
        OtherThread(sc, known, s.rec, s'.rec, s.threads[u], o);
      }
    }
  }

  lemma Cancel(counts: multiset<Id>, counts': multiset<Id>, total': multiset<Id>, x: multiset<Id>, x': multiset<Id>)
    requires counts' + x == counts + x' && total' + x == counts + x'
    ensures counts' == total'
  {
    forall id: Id
      ensures counts'[id] == total'[id]
    {
      assert (counts' + x)[id] == (total' + x)[id];
    }
  }

  lemma LocalShares(s: State, s': State, o: Id)
    requires CountInv(s)
    requires LocalTo(s.rec, s'.rec, o)
    requires forall q :: q != o ==> Holder(s', q) == Holder(s, q)
    requires s'.rec.counts + Share(s.rec, o, Holder(s, o)) == s.rec.counts + Share(s'.rec, o, Holder(s', o))
    ensures CountInv(s')
  {
    hide ShareAt, Holder, Total;
    var x, x' := Share(s.rec, o, Holder(s, o)), Share(s'.rec, o, Holder(s', o));
    OneShareMoves(Shares(s), Shares(s'), o, x, x');
    Cancel(s.rec.counts, s'.rec.counts, Total(Shares(s')), x, x');
  }

  lemma OneShareMoves(m: map<Id, multiset<Id>>, m': map<Id, multiset<Id>>, o: Id, x: multiset<Id>, x': multiset<Id>)
    requires SameExcept(m, m', o)
    requires x == (if o in m then m[o] else multiset{}) && x' == (if o in m' then m'[o] else multiset{})
    ensures Total(m') + x == Total(m) + x'
  {
    hide Total;
    if o in m' {
      assert m' == m[o := x'];
      TotalSet(m, o, x');
    } else if o in m {
      assert m' == m - {o};
      TotalPick(m, o);
    } else {
      assert m' == m;
    }
  }

  /** What a step of o's lock holder from pc to pc' has to show about the records. */
  ghost predicate LocalOk(sc: Scheme, known: iset<bytes>, r: Records, r': Records, pc: Pc, pc': Pc, o: Id) {
    && LocalTo(r, r', o)
    && r'.counts + Share(r, o, Some(pc)) == r.counts + Share(r', o, Some(pc'))
    && ObjectOk(sc, known, r', o, Some(pc'))
    && ThreadInv(sc, known, r', pc')
  }

  /** Steps of the lock holder that touch the records of that one object only. */
  lemma LocalStep(sc: Scheme, known: iset<bytes>, s: State, t: Tid, o: Id, pc': Pc, r': Records)
    requires Inv(sc, known, s) && t in s.threads
    requires Holds(sc, s.threads[t]) == Holds(sc, pc') == Some(o)
    requires LocalOk(sc, known, s.rec, r', s.threads[t], pc', o)
    ensures Inv(sc, known, With(s, t, pc', r'))
  {
    hide ThreadInv, ShareAt, Share, CountInv, ObjectInv, ThreadsInv, ObjectOk, LocalTo, Genuine;
    var s' := With(s, t, pc', r');
    FenceMove(s, s', t);
    LockMove(sc, s, s', t);
    LocalObjects(sc, known, s, s', o);
    LocalThreads(sc, known, s, s', t, o);
    LocalShares(s, s', o);
    SameBlobs(sc, known, s.rec, r', o);
  }

  lemma SameBlobs(sc: Scheme, known: iset<bytes>, r: Records, r': Records, o: Id)
    requires Genuine(sc, known, r.blobs) && LocalTo(r, r', o)
    ensures Genuine(sc, known, r'.blobs)
  {
  }

  // ---- Steps that leave the records alone ----

  lemma QuietStep(sc: Scheme, known: iset<bytes>, s: State, s': State, t: Tid)
    requires Inv(sc, known, s) && Moves(s, s', t) && s'.locks == s.locks && s'.rec == s.rec
    requires Holds(sc, s.threads[t]) == Holds(sc, s'.threads[t]) == None
    requires ThreadInv(sc, known, s'.rec, s'.threads[t])
    ensures Inv(sc, known, s')
  {
    hide ThreadInv, CountInv, ObjectInv;
    FenceMove(s, s', t);
    LockMove(sc, s, s', t);
    SameHolders(sc, known, s, s');
  }

  lemma LockTaken(sc: Scheme, known: iset<bytes>, s: State, s': State, t: Tid, o: Id)
    requires Inv(sc, known, s) && Moves(s, s', t) && s'.rec == s.rec
    requires o !in s.locks && s'.locks == s.locks[o := t]
    requires Holds(sc, s.threads[t]) == None && Holds(sc, s'.threads[t]) == Some(o)
    requires s'.threads[t].PutLocked? || s'.threads[t].DelLocked?
    requires ThreadInv(sc, known, s'.rec, s'.threads[t])
    ensures Inv(sc, known, s')
  {
    hide ThreadInv, CountInv, ObjectInv;
    FenceMove(s, s', t);
    LockSwap(sc, known, s, s', o);
  }

  predicate Neutral(holder: Option<Pc>) {
    holder.Some? ==> !HalfListed(holder.value) && !holder.value.DelCounting?
  }

  lemma NeutralSame(sc: Scheme, known: iset<bytes>, r: Records, o: Id, holder: Option<Pc>, holder': Option<Pc>)
    requires Neutral(holder) && Neutral(holder')
    ensures Share(r, o, holder') == Share(r, o, holder)
    ensures ObjectOk(sc, known, r, o, holder) ==> ObjectOk(sc, known, r, o, holder')
  {
  }

  /** Taking or dropping a lock between half-finished work changes no fact about the object. */
  lemma LockSwap(sc: Scheme, known: iset<bytes>, s: State, s': State, o: Id)
    requires ObjectInv(sc, known, s) && CountInv(s) && s'.rec == s.rec
    requires forall q :: q != o ==> Holder(s', q) == Holder(s, q)
    requires Neutral(Holder(s, o)) && Neutral(Holder(s', o))
    ensures ObjectInv(sc, known, s') && CountInv(s')
  {
    hide ObjectOk, ShareAt, Share, Neutral, Holder, Total;
    forall q
      ensures ObjectOk(sc, known, s'.rec, q, Holder(s', q))
      ensures Share(s'.rec, q, Holder(s', q)) == Share(s.rec, q, Holder(s, q))
    {
      assert ObjectOk(sc, known, s.rec, q, Holder(s, q));
      if q == o {
        NeutralSame(sc, known, s.rec, o, Holder(s, o), Holder(s', o));
      }
    }
    assert Shares(s') == Shares(s);
  }

  lemma LockReturned(sc: Scheme, s: State, s': State, t: Tid, o: Id)
    requires LockInv(sc, s) && Moves(s, s', t) && s'.locks == s.locks - {o}
    requires Holds(sc, s.threads[t]) == Some(o) && Holds(sc, s'.threads[t]) == None
    ensures LockInv(sc, s')
    ensures Holder(s', o) == None && Holder(s, o) == Some(s.threads[t])
    ensures forall q :: q != o ==> Holder(s', q) == Holder(s, q)
  {
    hide Shared;
  }

  lemma LockDropped(sc: Scheme, known: iset<bytes>, s: State, s': State, t: Tid, o: Id)
    requires Inv(sc, known, s) && Moves(s, s', t) && s'.rec == s.rec
    requires s.threads[t] == Unlocking(o) && s'.threads[t] == Leaving
    requires s'.locks == s.locks - {o}
    ensures Inv(sc, known, s')
  {
    assert ThreadInv(sc, known, s'.rec, s'.threads[t]);
    hide ThreadInv, CountInv, ObjectInv, Genuine;
    FenceMove(s, s', t);
    LockReturned(sc, s, s', t, o);
    LockSwap(sc, known, s, s', o);
  }

  // ---- Writing a chunk ----

  lemma {:induction false} JoinedGrows(a: map<Id, bytes>, b: map<Id, bytes>, ids: seq<Id>)
    requires AllPresent(a, ids)
    requires forall id :: id in a ==> id in b && b[id] == a[id]
    ensures AllPresent(b, ids) && Joined(a, ids) == Joined(b, ids)
  {
    if ids != [] {
      JoinedGrows(a, b, ids[..|ids| - 1]);
    }
  }

  lemma BlobsGrow(sc: Scheme, known: iset<bytes>, r: Records, r': Records, pc: Pc)
    requires ThreadInv(sc, known, r, pc) && Shared(pc)
    requires r' == r.(blobs := r'.blobs)
    requires forall id :: id in r.blobs ==> id in r'.blobs && r'.blobs[id] == r.blobs[id]
    ensures ThreadInv(sc, known, r', pc)
  {
    if pc.Reading? {
      JoinedGrows(r.blobs, r'.blobs, pc.ids[..pc.i]);
    }
  }

  lemma ChunkStored(sc: Scheme, known: iset<bytes>, r: Records, c: bytes, k: nat)
    requires sc.Sound(known) && Genuine(sc, known, r.blobs)
    requires k < |sc.Pieces(c)| && ThreadInv(sc, known, r, PutWriting(c, k))
    ensures var r' := Stored(sc, r, c, k);
      && Genuine(sc, known, r'.blobs)
      && r' == r.(blobs := r'.blobs)
      && (forall id :: id in r.blobs ==> id in r'.blobs && r'.blobs[id] == r.blobs[id])
      && ThreadInv(sc, known, r', PutWriting(c, k + 1))
  {
    hide Scheme.Pieces;
    assert sc.Pieces(c)[k] in known && sc.Ids(c)[k] == sc.chunkId(sc.Pieces(c)[k]);
    hide Genuine, Scheme.Sound;
    OneMorePresent(r.blobs, Stored(sc, r, c, k).blobs, sc.Ids(c), k);
  }

  lemma OneMorePresent(blobs: map<Id, bytes>, blobs': map<Id, bytes>, ids: seq<Id>, k: nat)
    requires k < |ids| && AllPresent(blobs, ids[..k]) && ids[k] in blobs'
    requires forall id :: id in blobs ==> id in blobs'
    ensures AllPresent(blobs', ids[..k + 1])
  {
    assert ids[..k + 1] == ids[..k] + [ids[k]];
  }

  lemma ChunkWritten(sc: Scheme, known: iset<bytes>, s: State, s': State, t: Tid, c: bytes, k: nat)
    requires sc.Sound(known) && Inv(sc, known, s)
    requires t in s.threads && s.threads[t] == PutWriting(c, k) && k < |sc.Pieces(c)|
    requires s' == With(s, t, PutWriting(c, k + 1), Stored(sc, s.rec, c, k))
    ensures Inv(sc, known, s')
  {
    hide ThreadInv, CountInv, ObjectInv, Genuine, Stored;
    assert ThreadInv(sc, known, s.rec, s.threads[t]);
    ChunkStored(sc, known, s.rec, c, k);
    FenceMove(s, s', t);
    LockMove(sc, s, s', t);
    SameHolders(sc, known, s, s');
    NoGc(s, t);
    forall u | u in s'.threads
      ensures ThreadInv(sc, known, s'.rec, s'.threads[u])
    {
      if u != t {
        BlobsGrow(sc, known, s.rec, s'.rec, s.threads[u]);
      }
    }
  }

  // ---- Entering and leaving ----

  /** A thread enters on the shared side, with nothing held. */
  lemma Entered(sc: Scheme, known: iset<bytes>, s: State, s': State, t: Tid)
    requires Inv(sc, known, s) && t !in s.threads && !s.writer
    requires t in s'.threads && s' == s.(threads := s.threads[t := s'.threads[t]], readers := s.readers + 1)
    requires Shared(s'.threads[t]) && Holds(sc, s'.threads[t]) == None
    requires ThreadInv(sc, known, s.rec, s'.threads[t])
    ensures Inv(sc, known, s')
  {
    hide ThreadInv, CountInv, ObjectInv, Genuine, LockInv, FenceInv;
    FenceEntered(s, s', t);
    LocksEntered(sc, s, s', t);
    SameHolders(sc, known, s, s');
  }

  lemma FenceEntered(s: State, s': State, t: Tid)
    requires FenceInv(s) && t !in s.threads && !s.writer && t in s'.threads && Shared(s'.threads[t])
    requires s' == s.(threads := s.threads[t := s'.threads[t]], readers := s.readers + 1)
    ensures FenceInv(s')
  {
    assert SharedThreads(s') == SharedThreads(s) + {t};
  }

  lemma LocksEntered(sc: Scheme, s: State, s': State, t: Tid)
    requires LockInv(sc, s) && t !in s.threads && t in s'.threads && Holds(sc, s'.threads[t]) == None
    requires s' == s.(threads := s.threads[t := s'.threads[t]], readers := s'.readers)
    ensures LockInv(sc, s') && forall o :: Holder(s', o) == Holder(s, o)
  {
  }

  lemma Left(sc: Scheme, known: iset<bytes>, s: State, s': State, t: Tid)
    requires Inv(sc, known, s) && t in s.threads && s.threads[t].Leaving?
    requires s' == s.(threads := s.threads - {t}, readers := if s.readers > 0 then s.readers - 1 else 0)
    ensures Inv(sc, known, s')
  {
    hide ThreadInv, CountInv, ObjectInv, Genuine, LockInv, FenceInv;
    FenceLeft(s, s', t);
    LocksLeft(sc, s, s', t);
    SameHolders(sc, known, s, s');
  }

  lemma FenceLeft(s: State, s': State, t: Tid)
    requires FenceInv(s) && t in s.threads && Shared(s.threads[t])
    requires s' == s.(threads := s.threads - {t}, readers := if s.readers > 0 then s.readers - 1 else 0)
    ensures FenceInv(s')
  {
    assert t in SharedThreads(s);
    assert SharedThreads(s') == SharedThreads(s) - {t};
  }

  lemma LocksLeft(sc: Scheme, s: State, s': State, t: Tid)
    requires LockInv(sc, s) && t in s.threads && Holds(sc, s.threads[t]) == None
    requires s' == s.(threads := s.threads - {t}, readers := s'.readers)
    ensures LockInv(sc, s') && forall o :: Holder(s', o) == Holder(s, o)
  {
  }

  // ---- GC ----

  lemma GcStarted(sc: Scheme, known: iset<bytes>, s: State, s': State, t: Tid)
    requires Inv(sc, known, s) && t !in s.threads && !s.writer && s.readers == 0
    requires s' == s.(threads := s.threads[t := GcScan(s.rec.blobs.Keys)], writer := true)
    ensures Inv(sc, known, s')
  {
    assert Exclusive(s', t);
    assert ThreadInv(sc, known, s'.rec, s'.threads[t]);
    hide ThreadInv, CountInv, ObjectInv;
    assert SharedThreads(s') == SharedThreads(s);
    forall u | u in s.threads
      ensures !Shared(s.threads[u])
    {
      assert u !in SharedThreads(s);
    }
    SameHolders(sc, known, s, s');
  }

  lemma GcEnded(sc: Scheme, known: iset<bytes>, s: State, s': State, t: Tid)
    requires Inv(sc, known, s) && t in s.threads && s.threads[t].GcScan?
    requires s' == s.(threads := s.threads - {t}, writer := false)
    ensures Inv(sc, known, s')
  {
    hide ThreadInv, CountInv, ObjectInv;
    assert SharedThreads(s') == SharedThreads(s);
    SameHolders(sc, known, s, s');
  }

  /** While a GC runs it is alone: no other thread, no lock, every manifest indexed and fully counted. */
  lemma GcAlone(sc: Scheme, known: iset<bytes>, s: State, t: Tid)
    requires Inv(sc, known, s) && t in s.threads && !Shared(s.threads[t])
    ensures forall u :: u in s.threads ==> u == t
    ensures s.locks == map[]
    ensures s.rec.manifests.Keys == s.rec.objects.Keys
    ensures forall o :: o in s.rec.manifests ==> o in Shares(s) && Shares(s)[o] == multiset(s.rec.manifests[o])
  {
    hide ThreadInv, CountInv;
    assert SharedThreads(s) == {};
    forall u | u in s.threads
      ensures u == t
    {
      assert u !in SharedThreads(s);
    }
    forall o
      ensures o !in s.locks
      ensures o in s.rec.manifests <==> o in s.rec.objects
    {
      assert ObjectOk(sc, known, s.rec, o, Holder(s, o));
    }
  }

  /** So a chunk whose count is zero then is in no manifest. */
  lemma ZeroIsUnreferenced(sc: Scheme, known: iset<bytes>, s: State, t: Tid, id: Id)
    requires Inv(sc, known, s) && t in s.threads && !Shared(s.threads[t])
    requires id !in s.rec.counts
    ensures forall o :: o in s.rec.manifests ==> id !in s.rec.manifests[o]
  {
    hide ThreadInv;
    GcAlone(sc, known, s, t);
    forall o | o in s.rec.manifests
      ensures id !in s.rec.manifests[o]
    {
      TotalCovers(Shares(s), o);
      assert id in multiset(s.rec.manifests[o]) ==> id in s.rec.counts;
    }
  }

  /** Removing an unreferenced chunk hurts nothing, as long as no other thread is inside. */
  lemma Swept(sc: Scheme, known: iset<bytes>, r: Records, r': Records, id: Id, todo: set<Id>)
    requires r' == r.(blobs := r.blobs - {id})
    requires forall o :: o in r.manifests ==> id !in r.manifests[o]
    requires Genuine(sc, known, r.blobs) && ThreadInv(sc, known, r, GcDoomed(todo, id))
    ensures Genuine(sc, known, r'.blobs) && ThreadInv(sc, known, r', GcScan(todo))
    ensures forall o :: ObjectOk(sc, known, r, o, None) ==> ObjectOk(sc, known, r', o, None)
  {
  }

  lemma DoomedIsZero(sc: Scheme, known: iset<bytes>, r: Records, pc: Pc)
    requires pc.GcDoomed? && ThreadInv(sc, known, r, pc)
    ensures pc.id !in r.counts
  {
  }

  lemma SweepKeepsCounts(s: State, s': State)
    requires CountInv(s) && s'.rec == s.rec.(blobs := s'.rec.blobs) && s.locks == s'.locks == map[]
    ensures CountInv(s')
  {
    hide ShareAt, Total;
    assert Shares(s') == Shares(s);
  }

  lemma GcSwept(sc: Scheme, known: iset<bytes>, s: State, s': State, t: Tid)
    requires Inv(sc, known, s) && t in s.threads && s.threads[t].GcDoomed?
    requires s' == With(s, t, GcScan(s.threads[t].todo), s.rec.(blobs := s.rec.blobs - {s.threads[t].id}))
    ensures Inv(sc, known, s')
  {
    hide ThreadInv, CountInv, ObjectOk, Genuine;
    var id := s.threads[t].id;
    GcAlone(sc, known, s, t);
    assert ThreadInv(sc, known, s.rec, s.threads[t]);
    DoomedIsZero(sc, known, s.rec, s.threads[t]);
    ZeroIsUnreferenced(sc, known, s, t, id);
    Swept(sc, known, s.rec, s'.rec, id, s.threads[t].todo);
    FenceMove(s, s', t);
    LockMove(sc, s, s', t);
    forall o
      ensures ObjectOk(sc, known, s'.rec, o, Holder(s', o))
    {
      assert ObjectOk(sc, known, s.rec, o, Holder(s, o));
    }
    SweepKeepsCounts(s, s');
  }

  // ---- Each step of an operation, and all of them ----

  lemma PutFoundOk(sc: Scheme, known: iset<bytes>, r: Records, c: bytes, use: nat)
    requires ThreadInv(sc, known, r, PutFound(c, use)) && ObjectOk(sc, known, r, sc.objectId(c), Some(PutFound(c, use)))
    ensures var o := sc.objectId(c);
      LocalOk(sc, known, r, r.(objects := r.objects[o := use + 1]), PutFound(c, use), Unlocking(o), o)
  {
  }

  lemma PutFreshOk(sc: Scheme, known: iset<bytes>, r: Records, c: bytes)
    requires sc.Sound(known)
    requires ThreadInv(sc, known, r, PutFresh(c)) && ObjectOk(sc, known, r, sc.objectId(c), Some(PutFresh(c)))
    ensures var o := sc.objectId(c);
      LocalOk(sc, known, r, r.(manifests := r.manifests[o := sc.Ids(c)]), PutFresh(c), PutCounting(c, 0), o)
  {
    sc.ContentUnique(known, c);
    assert sc.Ids(c)[..0] == [];
  }

  lemma PutCountOk(sc: Scheme, known: iset<bytes>, r: Records, c: bytes, k: nat)
    requires sc.Sound(known) && k < |sc.Ids(c)|
    requires ThreadInv(sc, known, r, PutCounting(c, k))
        && ObjectOk(sc, known, r, sc.objectId(c), Some(PutCounting(c, k)))
    ensures LocalOk(sc, known, r, r.(counts := r.counts + multiset{sc.Ids(c)[k]}), PutCounting(c, k),
                    PutCounting(c, k + 1), sc.objectId(c))
  {
    hide AllPresent, Scheme.Sound, Scheme.IsObject, Scheme.ContentOf, Scheme.Ids, Share;
    sc.ContentUnique(known, c);
    PutCountShare(sc, r, c, k);
  }

  lemma PutCountShare(sc: Scheme, r: Records, c: bytes, k: nat)
    requires k < |sc.Ids(c)| && sc.objectId(c) in r.manifests && r.manifests[sc.objectId(c)] == sc.Ids(c)
    ensures var id := sc.Ids(c)[k];
      Share(r.(counts := r.counts + multiset{id}), sc.objectId(c), Some(PutCounting(c, k + 1)))
      == Share(r, sc.objectId(c), Some(PutCounting(c, k))) + multiset{id}
  {
    hide Scheme.Ids;
    OneMoreIn(sc.Ids(c), k);
  }

  lemma OneMoreIn(ids: seq<Id>, k: nat)
    requires k < |ids|
    ensures multiset(ids[..k + 1]) == multiset(ids[..k]) + multiset{ids[k]}
  {
    assert ids[..k + 1] == ids[..k] + [ids[k]];
  }

  lemma PutListOk(sc: Scheme, known: iset<bytes>, r: Records, c: bytes)
    requires sc.Sound(known)
    requires ThreadInv(sc, known, r, PutCounting(c, |sc.Ids(c)|))
    requires ObjectOk(sc, known, r, sc.objectId(c), Some(PutCounting(c, |sc.Ids(c)|)))
    ensures var o := sc.objectId(c);
      LocalOk(sc, known, r, r.(objects := r.objects[o := 1]), PutCounting(c, |sc.Ids(c)|), Unlocking(o), o)
  {
    hide AllPresent, Scheme.Sound, Scheme.IsObject, Scheme.ContentOf, Scheme.Ids;
    sc.ContentUnique(known, c);
    assert sc.Ids(c)[..|sc.Ids(c)|] == sc.Ids(c);
  }

  lemma DelLoadedOk(sc: Scheme, known: iset<bytes>, r: Records, o: Id, use: nat, ids: seq<Id>)
    requires ThreadInv(sc, known, r, DelLoaded(o, use, ids)) && ObjectOk(sc, known, r, o, Some(DelLoaded(o, use, ids)))
    ensures use > 1 ==>
      LocalOk(sc, known, r, r.(objects := r.objects[o := use - 1]), DelLoaded(o, use, ids), Unlocking(o), o)
    ensures use <= 1 ==> LocalOk(sc, known, r, r, DelLoaded(o, use, ids), DelCounting(o, ids, 0), o)
  {
    assert ids[0..] == ids;
  }

  /** Counting down never underflows: what is left of the object's share is still in the table. */
  lemma NoUnderflow(s: State, t: Tid, o: Id, ids: seq<Id>, k: nat)
    requires CountInv(s) && k < |ids|
    requires o in s.locks && s.locks[o] == t && t in s.threads && s.threads[t] == DelCounting(o, ids, k)
    requires o in s.rec.manifests && s.rec.manifests[o] == ids
    ensures s.rec.counts[ids[k]] >= 1
  {
    TotalCovers(Shares(s), o);
    assert Shares(s)[o] == multiset(ids[k..]);
    assert ids[k] == ids[k..][0];
  }

  lemma FirstOfRest(ids: seq<Id>, k: nat)
    requires k < |ids|
    ensures multiset(ids[k..]) == multiset{ids[k]} + multiset(ids[k + 1..])
  {
    assert ids[k..] == [ids[k]] + ids[k + 1..];
  }

  lemma MoveOne(counts: multiset<Id>, id: Id, rest: multiset<Id>)
    requires counts[id] >= 1
    ensures counts - multiset{id} + (multiset{id} + rest) == counts + rest
  {
  }

  lemma DelCountOk(sc: Scheme, known: iset<bytes>, r: Records, o: Id, ids: seq<Id>, k: nat)
    requires k < |ids| && r.counts[ids[k]] >= 1
    requires ThreadInv(sc, known, r, DelCounting(o, ids, k)) && ObjectOk(sc, known, r, o, Some(DelCounting(o, ids, k)))
    ensures LocalOk(sc, known, r, r.(counts := r.counts - multiset{ids[k]}),
                    DelCounting(o, ids, k), DelCounting(o, ids, k + 1), o)
  {
    FirstOfRest(ids, k);
    MoveOne(r.counts, ids[k], multiset(ids[k + 1..]));
  }

  lemma DelUnlistOk(sc: Scheme, known: iset<bytes>, r: Records, o: Id, ids: seq<Id>)
    requires ThreadInv(sc, known, r, DelCounting(o, ids, |ids|))
        && ObjectOk(sc, known, r, o, Some(DelCounting(o, ids, |ids|)))
    ensures LocalOk(sc, known, r, r.(objects := r.objects - {o}), DelCounting(o, ids, |ids|), DelUnlisted(o), o)
  {
    assert ids[|ids|..] == [];
  }

  lemma DelRemoveOk(sc: Scheme, known: iset<bytes>, r: Records, o: Id)
    requires ThreadInv(sc, known, r, DelUnlisted(o)) && ObjectOk(sc, known, r, o, Some(DelUnlisted(o)))
    ensures LocalOk(sc, known, r, r.(manifests := r.manifests - {o}), DelUnlisted(o), Unlocking(o), o)
  {
  }

  lemma LookupOk(sc: Scheme, known: iset<bytes>, r: Records, pc: Pc, pc': Pc, o: Id)
    requires ThreadInv(sc, known, r, pc) && ObjectOk(sc, known, r, o, Some(pc))
    requires (pc.PutLocked? && o == sc.objectId(pc.c)
              && pc' == if o in r.objects then PutFound(pc.c, r.objects[o]) else PutFresh(pc.c))
          || (pc == DelLocked(o) && pc' == if o in r.objects then DelFound(o, r.objects[o]) else Unlocking(o))
          || (pc.DelFound? && pc.o == o
              && pc' == if o in r.manifests then DelLoaded(o, pc.use, r.manifests[o]) else Broken)
          || (pc.PutFresh? && sc.objectId(pc.c) == o && pc' == Unlocking(o))
    ensures LocalOk(sc, known, r, r, pc, pc', o) && Holds(sc, pc') == Some(o)
  {
    hide AllPresent, Scheme.Ids, Scheme.IsObject, Scheme.ContentOf, Scheme.Pieces, Joined, Share;
    IdleHolder(sc, known, r, pc, pc', o);
  }

  /** A holder that is neither counting nor between two entries or removals can be replaced by another. */
  lemma IdleHolder(sc: Scheme, known: iset<bytes>, r: Records, pc: Pc, pc': Pc, o: Id)
    requires ObjectOk(sc, known, r, o, Some(pc))
    requires !HalfListed(pc) && !HalfListed(pc') && !pc.DelCounting? && !pc'.DelCounting?
    ensures ObjectOk(sc, known, r, o, Some(pc')) && Share(r, o, Some(pc)) == Share(r, o, Some(pc'))
  {
    hide AllPresent, Scheme.Ids, Scheme.IsObject, Scheme.ContentOf;
  }

  /** What LocalStep needs about a thread that holds an object lock. */
  lemma AtLockedPc(sc: Scheme, known: iset<bytes>, s: State, t: Tid)
    requires Inv(sc, known, s) && t in s.threads && Holds(sc, s.threads[t]).Some?
    ensures var o := Holds(sc, s.threads[t]).value;
      && o in s.locks && s.locks[o] == t
      && ThreadInv(sc, known, s.rec, s.threads[t])
      && ObjectOk(sc, known, s.rec, o, Some(s.threads[t]))
  {
    hide ThreadInv, ObjectOk, FenceInv, CountInv, Genuine;
    var o := Holds(sc, s.threads[t]).value;
    assert ObjectOk(sc, known, s.rec, o, Holder(s, o));
  }

  lemma LockedPutStep(sc: Scheme, known: iset<bytes>, s: State, t: Tid)
    requires sc.Sound(known) && Inv(sc, known, s) && Enabled(sc, s, Advance(t))
    requires s.threads[t].PutLocked? || s.threads[t].PutFound? || s.threads[t].PutFresh? || s.threads[t].PutCounting?
    ensures Inv(sc, known, Next(sc, s, t))
  {
    hide Inv, ThreadInv, ObjectOk, LocalOk;
    var pc, r, s' := s.threads[t], s.rec, Next(sc, s, t);
    var o := sc.objectId(pc.c);
    AtLockedPc(sc, known, s, t);
    match pc {
      case PutLocked(c) => LookupOk(sc, known, r, pc, s'.threads[t], o);
      case PutFound(c, use) => PutFoundOk(sc, known, r, c, use);
      case PutFresh(c) => PutFreshOk(sc, known, r, c);
      case PutCounting(c, k) =>
        PcBounds(sc, known, r, pc);
        if k < |sc.Ids(c)| { PutCountOk(sc, known, r, c, k); } else { PutListOk(sc, known, r, c); }
    }
    LocalStep(sc, known, s, t, o, s'.threads[t], s'.rec);
  }

  lemma LockedDeleteStep(sc: Scheme, known: iset<bytes>, s: State, t: Tid)
    requires Inv(sc, known, s) && Enabled(sc, s, Advance(t))
    requires s.threads[t].DelLocked? || s.threads[t].DelFound? || s.threads[t].DelLoaded? || s.threads[t].DelUnlisted?
    ensures Inv(sc, known, Next(sc, s, t))
  {
    hide Inv, ThreadInv, ObjectOk, LocalOk;
    var pc, r, s' := s.threads[t], s.rec, Next(sc, s, t);
    var o := pc.o;
    AtLockedPc(sc, known, s, t);
    match pc {
      case DelLocked(_) => LookupOk(sc, known, r, pc, s'.threads[t], o);
      case DelFound(_, _) => LookupOk(sc, known, r, pc, s'.threads[t], o);
      case DelLoaded(_, use, ids) => DelLoadedOk(sc, known, r, o, use, ids);
      case DelUnlisted(_) => DelRemoveOk(sc, known, r, o);
    }
    LocalStep(sc, known, s, t, o, s'.threads[t], s'.rec);
  }

  lemma DelCountingReady(sc: Scheme, known: iset<bytes>, s: State, t: Tid, o: Id, ids: seq<Id>, k: nat)
    requires Inv(sc, known, s) && t in s.threads && s.threads[t] == DelCounting(o, ids, k)
    ensures ThreadInv(sc, known, s.rec, s.threads[t]) && ObjectOk(sc, known, s.rec, o, Some(s.threads[t]))
    ensures k <= |ids|
    ensures k < |ids| ==> s.rec.counts[ids[k]] >= 1
  {
    hide ThreadInv, ThreadsInv, ObjectOk, FenceInv, LockInv, CountInv, Genuine, ObjectInv;
    AtLockedPc(sc, known, s, t);
    PcBounds(sc, known, s.rec, s.threads[t]);
    if k < |ids| {
      NoUnderflow(s, t, o, ids, k);
    }
  }

  lemma DelCountingStep(sc: Scheme, known: iset<bytes>, s: State, t: Tid, o: Id, ids: seq<Id>, k: nat)
    requires Inv(sc, known, s) && Enabled(sc, s, Advance(t))
    requires s.threads[t] == DelCounting(o, ids, k)
    ensures Inv(sc, known, Next(sc, s, t))
  {
    hide Inv, ThreadInv, ObjectOk, LocalOk;
    DelCountingReady(sc, known, s, t, o, ids, k);
    if k < |ids| {
      DelCountOk(sc, known, s.rec, o, ids, k);
      LocalStep(sc, known, s, t, o, DelCounting(o, ids, k + 1), s.rec.(counts := s.rec.counts - multiset{ids[k]}));
    } else {
      DelUnlistOk(sc, known, s.rec, o, ids);
      LocalStep(sc, known, s, t, o, DelUnlisted(o), s.rec.(objects := s.rec.objects - {o}));
    }
  }

  lemma PcBounds(sc: Scheme, known: iset<bytes>, r: Records, pc: Pc)
    requires ThreadInv(sc, known, r, pc)
    ensures pc.PutWriting? || pc.PutCounting? ==> pc.k <= |sc.Ids(pc.c)|
    ensures pc.DelCounting? ==> pc.k <= |pc.ids| && pc.o in r.manifests && r.manifests[pc.o] == pc.ids
  {
  }

  lemma ReadOk(sc: Scheme, known: iset<bytes>, r: Records, o: Id, ids: seq<Id>, i: nat, out: bytes)
    requires ThreadInv(sc, known, r, Reading(o, ids, i, out)) && i < |ids|
    ensures ids[i] in r.blobs && ThreadInv(sc, known, r, Reading(o, ids, i + 1, out + r.blobs[ids[i]]))
  {
    assert ids[..i + 1][..i] == ids[..i];
  }

  lemma OpenOk(sc: Scheme, known: iset<bytes>, r: Records, o: Id, holder: Option<Pc>)
    requires ObjectOk(sc, known, r, o, holder) && o in r.manifests
    ensures ThreadInv(sc, known, r, Reading(o, r.manifests[o], 0, []))
  {
    assert r.manifests[o][..0] == [];
  }

  /** Steps of a thread on the shared side without an object lock, except writing, locking and leaving. */
  lemma UnlockedStep(sc: Scheme, known: iset<bytes>, s: State, t: Tid)
    requires Inv(sc, known, s) && Enabled(sc, s, Advance(t))
    requires s.threads[t].GetStart? || s.threads[t].GetFound? || s.threads[t].Incomplete? || s.threads[t].Reading?
    ensures Inv(sc, known, Next(sc, s, t))
  {
    hide ThreadInv, ObjectOk, FenceInv, CountInv, Genuine, LockInv;
    var pc, r, s' := s.threads[t], s.rec, Next(sc, s, t);
    assert ThreadInv(sc, known, r, pc);
    match pc {
      case GetStart(o) =>
        FreeOfDuty(sc, known, r, s'.threads[t]);
      case GetFound(o) =>
        if o in r.manifests {
          assert ObjectOk(sc, known, r, o, Holder(s, o));
          OpenOk(sc, known, r, o, Holder(s, o));
        } else {
          FreeOfDuty(sc, known, r, s'.threads[t]);
        }
      case Incomplete(_) => FreeOfDuty(sc, known, r, Leaving);
      case Reading(o, ids, i, out) => ReadOk(sc, known, r, o, ids, i, out);
    }
    QuietStep(sc, known, s, s', t);
  }

  /** Writing the next chunk, or taking the object lock after the last one. */
  lemma WritingStep(sc: Scheme, known: iset<bytes>, s: State, t: Tid)
    requires sc.Sound(known) && Inv(sc, known, s) && Enabled(sc, s, Advance(t))
    requires s.threads[t].PutWriting?
    ensures Inv(sc, known, Next(sc, s, t))
  {
    hide ThreadInv, ObjectOk, FenceInv, CountInv, Genuine, LockInv, ObjectInv;
    var pc, s' := s.threads[t], Next(sc, s, t);
    assert ThreadInv(sc, known, s.rec, pc);
    PcBounds(sc, known, s.rec, pc);
    if pc.k < |sc.Pieces(pc.c)| {
      ChunkWritten(sc, known, s, s', t, pc.c, pc.k);
    } else {
      AllWritten(sc, known, s.rec, pc.c);
      LockTaken(sc, known, s, s', t, sc.objectId(pc.c));
    }
  }

  lemma AdvanceStep(sc: Scheme, known: iset<bytes>, s: State, t: Tid)
    requires sc.Sound(known) && Inv(sc, known, s) && Enabled(sc, s, Advance(t))
    ensures Inv(sc, known, Next(sc, s, t))
  {
    hide ThreadInv, ObjectOk, FenceInv, CountInv, Genuine, LockInv, ObjectInv;
    var pc, s' := s.threads[t], Next(sc, s, t);
    match pc {
      case PutWriting(_, _) => WritingStep(sc, known, s, t);
      case DelStart(o) =>
        FreeOfDuty(sc, known, s.rec, DelLocked(o));
        LockTaken(sc, known, s, s', t, o);
      case Unlocking(o) => LockDropped(sc, known, s, s', t, o);
      case GetStart(_) => UnlockedStep(sc, known, s, t);
      case GetFound(_) => UnlockedStep(sc, known, s, t);
      case Incomplete(_) => UnlockedStep(sc, known, s, t);
      case Reading(_, _, _, _) => UnlockedStep(sc, known, s, t);
      case Leaving => Left(sc, known, s, s', t);
      case GcScan(_) => GcEnded(sc, known, s, s', t);
      case GcDoomed(_, _) => GcSwept(sc, known, s, s', t);
      case PutLocked(_) => LockedPutStep(sc, known, s, t);
      case PutFound(_, _) => LockedPutStep(sc, known, s, t);
      case PutFresh(_) => LockedPutStep(sc, known, s, t);
      case PutCounting(_, _) => LockedPutStep(sc, known, s, t);
      case DelCounting(o, ids, k) => DelCountingStep(sc, known, s, t, o, ids, k);
      case _ => LockedDeleteStep(sc, known, s, t);
    }
  }

  lemma AllWritten(sc: Scheme, known: iset<bytes>, r: Records, c: bytes)
    requires ThreadInv(sc, known, r, PutWriting(c, |sc.Pieces(c)|))
    ensures ThreadInv(sc, known, r, PutLocked(c))
  {
    assert sc.Ids(c)[..|sc.Ids(c)|] == sc.Ids(c);
  }

  lemma FreeOfDuty(sc: Scheme, known: iset<bytes>, r: Records, pc: Pc)
    requires pc.DelStart? || pc.DelLocked? || pc.GetStart? || pc.GetFound? || pc.Incomplete?
          || pc.Leaving? || pc.Unlocking?
          || (pc.PutWriting? && pc.k == 0 && pc.c in known)
    ensures ThreadInv(sc, known, r, pc)
  {
  }

  lemma PickOk(sc: Scheme, known: iset<bytes>, r: Records, todo: set<Id>, id: Id)
    requires ThreadInv(sc, known, r, GcScan(todo)) && id in todo
    ensures r.counts[id] > 0 ==> ThreadInv(sc, known, r, GcScan(todo - {id}))
    ensures r.counts[id] == 0 ==> ThreadInv(sc, known, r, GcDoomed(todo - {id}, id))
  {
  }

  /** Every step of every thread keeps the invariant. */
  lemma StepKeepsInv(sc: Scheme, known: iset<bytes>, s: State, step: Step)
    requires sc.Sound(known) && Inv(sc, known, s) && Enabled(sc, s, step) && ContentKnown(known, step)
    ensures Inv(sc, known, Do(sc, s, step))
  {
    hide ThreadInv, ObjectOk, FenceInv, CountInv, Genuine, LockInv, ObjectInv;
    var s', t := Do(sc, s, step), step.t;
    match step {
      case StartPut(_, c) => FreeOfDuty(sc, known, s.rec, PutWriting(c, 0)); Entered(sc, known, s, s', t);
      case StartDelete(_, o) => FreeOfDuty(sc, known, s.rec, DelStart(o)); Entered(sc, known, s, s', t);
      case StartGet(_, o) => FreeOfDuty(sc, known, s.rec, GetStart(o)); Entered(sc, known, s, s', t);
      case StartGc(_) => GcStarted(sc, known, s, s', t);
      case Advance(_) => AdvanceStep(sc, known, s, t);
      case Abort(_) =>
        if s.threads[t].PutWriting? {
          FreeOfDuty(sc, known, s.rec, Leaving);
          QuietStep(sc, known, s, s', t);
        } else {
          AbortFresh(sc, known, s, t);
        }
      case CloseReader(_) => FreeOfDuty(sc, known, s.rec, Leaving); QuietStep(sc, known, s, s', t);
      case Pick(_, id) =>
        PickOk(sc, known, s.rec, s.threads[t].todo, id);
        QuietStep(sc, known, s, s', t);
    }
  }

  lemma AbortFresh(sc: Scheme, known: iset<bytes>, s: State, t: Tid)
    requires Inv(sc, known, s) && t in s.threads && s.threads[t].PutFresh?
    ensures Inv(sc, known, Goto(s, t, Unlocking(sc.objectId(s.threads[t].c))))
  {
    hide Inv, ThreadInv, ObjectOk, LocalOk;
    var pc := s.threads[t];
    var o := sc.objectId(pc.c);
    AtLockedPc(sc, known, s, t);
    LookupOk(sc, known, s.rec, pc, Unlocking(o), o);
    LocalStep(sc, known, s, t, o, Unlocking(o), s.rec);
  }

  lemma InitInv(sc: Scheme, known: iset<bytes>)
    ensures Inv(sc, known, Init)
  {
    assert Shares(Init) == map[];
  }
}
