/** What holds in every run of the interleaved store. */
module Runs {
  import opened Bytes
  import opened Schemes
  import opened Sums
  import opened Interleaving
  import Boundary

  /** A run from the empty store: every step was possible where it was taken. */
  ghost predicate Run(sc: Scheme, known: iset<bytes>, steps: seq<Step>, states: seq<State>) {
    && |states| == |steps| + 1
    && states[0] == Init
    && forall i :: 0 <= i < |steps| ==>
         && Enabled(sc, states[i], steps[i]) && ContentKnown(known, steps[i])
         && states[i + 1] == Do(sc, states[i], steps[i])
  }

  lemma {:induction false} RunInv(sc: Scheme, known: iset<bytes>, steps: seq<Step>, states: seq<State>, i: nat)
    requires sc.Sound(known) && Run(sc, known, steps, states) && i <= |steps|
    ensures Inv(sc, known, states[i])
  {
    hide Inv;
    if i == 0 {
      InitInv(sc, known);
    } else {
      RunInv(sc, known, steps, states, i - 1);
      StepKeepsInv(sc, known, states[i - 1], steps[i - 1]);
    }
  }

  // ---- Reference counts ----

  ghost function FirstOf(ids: seq<Id>, k: nat): multiset<Id> {
    if k <= |ids| then multiset(ids[..k]) else multiset{}
  }

  /** What a Put in flight at pc has already added. */
  ghost function AddedAt(sc: Scheme, pc: Pc): multiset<Id> {
    if pc.PutCounting? then FirstOf(sc.Ids(pc.c), pc.k) else multiset{}
  }

  /** What a Delete in flight at pc has already taken away. */
  ghost function TakenAt(pc: Pc): multiset<Id> {
    if pc.DelCounting? then FirstOf(pc.ids, pc.k) else multiset{}
  }

  /** What the indexed objects ask for, each chunk as often as the manifests list it. */
  ghost function Indexed(s: State): map<Id, multiset<Id>> {
    map o | o in s.rec.objects && o in s.rec.manifests :: multiset(s.rec.manifests[o])
  }

  ghost function Added(sc: Scheme, s: State): map<Tid, multiset<Id>> {
    map t | t in s.threads :: AddedAt(sc, s.threads[t])
  }

  ghost function Taken(s: State): map<Tid, multiset<Id>> {
    map t | t in s.threads :: TakenAt(s.threads[t])
  }

  /** The same two, and the demand, sorted by object. */
  ghost function Demanded(s: State): map<Id, multiset<Id>> {
    map o | o in s.rec.manifests :: if o in s.rec.objects then multiset(s.rec.manifests[o]) else multiset{}
  }

  ghost function AddedTo(sc: Scheme, s: State): map<Id, multiset<Id>> {
    map o | o in s.rec.manifests :: if Holder(s, o).Some? then AddedAt(sc, Holder(s, o).value) else multiset{}
  }

  ghost function TakenFrom(s: State): map<Id, multiset<Id>> {
    map o | o in s.rec.manifests :: if Holder(s, o).Some? then TakenAt(Holder(s, o).value) else multiset{}
  }

  lemma PutBalance(sc: Scheme, known: iset<bytes>, r: Records, o: Id, pc: Pc)
    requires sc.Sound(known) && ThreadInv(sc, known, r, pc) && ObjectOk(sc, known, r, o, Some(pc))
    requires o in r.manifests && Holds(sc, pc) == Some(o) && pc.PutCounting?
    ensures o !in r.objects && Share(r, o, Some(pc)) == AddedAt(sc, pc)
  {
    sc.ContentUnique(known, pc.c);
  }

  lemma CutInTwo(ids: seq<Id>, k: nat)
    requires k <= |ids|
    ensures multiset(ids[k..]) + multiset(ids[..k]) == multiset(ids)
  {
    assert ids == ids[..k] + ids[k..];
  }

  lemma DeleteBalance(sc: Scheme, known: iset<bytes>, r: Records, o: Id, pc: Pc)
    requires ThreadInv(sc, known, r, pc) && ObjectOk(sc, known, r, o, Some(pc))
    requires o in r.manifests && Holds(sc, pc) == Some(o) && pc.DelCounting?
    ensures o in r.objects && Share(r, o, Some(pc)) + TakenAt(pc) == multiset(r.manifests[o])
  {
    CutInTwo(pc.ids, pc.k);
  }

  /** Object by object: share + taken == demanded + added. */
  lemma ShareBalance(sc: Scheme, known: iset<bytes>, s: State, o: Id)
    requires sc.Sound(known) && Inv(sc, known, s) && o in s.rec.manifests
    ensures Shares(s)[o] + TakenFrom(s)[o] == Demanded(s)[o] + AddedTo(sc, s)[o]
  {
    hide ThreadInv, ObjectOk, FenceInv, Genuine, ObjectInv, CountInv, ThreadsInv, ShareAt, AddedAt, TakenAt;
    if Holder(s, o).Some? {
      var pc := Holder(s, o).value;
      AtLockedPc(sc, known, s, s.locks[o]);
      if pc.PutCounting? {
        PutBalance(sc, known, s.rec, o, pc);
        NotDeleting(pc);
      } else if pc.DelCounting? {
        DeleteBalance(sc, known, s.rec, o, pc);
        NotPutting(sc, pc);
      } else {
        NotDeleting(pc);
        NotPutting(sc, pc);
        Settled(s.rec, o, Some(pc));
      }
    } else {
      Settled(s.rec, o, None);
    }
  }

  lemma NotDeleting(pc: Pc)
    requires !pc.DelCounting?
    ensures TakenAt(pc) == multiset{}
  {
  }

  lemma NotPutting(sc: Scheme, pc: Pc)
    requires !pc.PutCounting?
    ensures AddedAt(sc, pc) == multiset{}
  {
  }

  lemma Settled(r: Records, o: Id, holder: Option<Pc>)
    requires o in r.manifests && (holder.Some? ==> !holder.value.PutCounting? && !holder.value.DelCounting?)
    ensures Share(r, o, holder) == if o in r.objects then multiset(r.manifests[o]) else multiset{}
  {
  }

  ghost function HeldBy(sc: Scheme, s: State): map<Tid, Id> {
    map t | t in s.threads && Holds(sc, s.threads[t]).Some? :: Holds(sc, s.threads[t]).value
  }

  /** A Put or Delete that counts works on an object that has a manifest. */
  lemma CountingHasManifest(sc: Scheme, known: iset<bytes>, r: Records, pc: Pc)
    requires ThreadInv(sc, known, r, pc) && (pc.PutCounting? || pc.DelCounting?)
    ensures Holds(sc, pc).Some? && Holds(sc, pc).value in r.manifests
  {
  }

  lemma CountingThreads(sc: Scheme, known: iset<bytes>, s: State)
    requires Inv(sc, known, s)
    ensures LockInv(sc, s)
    ensures forall t :: t in s.threads && (s.threads[t].PutCounting? || s.threads[t].DelCounting?) ==>
              Holds(sc, s.threads[t]).Some? && Holds(sc, s.threads[t]).value in s.rec.manifests
  {
    hide ThreadInv, ObjectInv, CountInv, FenceInv, Genuine;
    forall t | t in s.threads && (s.threads[t].PutCounting? || s.threads[t].DelCounting?)
      ensures Holds(sc, s.threads[t]).Some? && Holds(sc, s.threads[t]).value in s.rec.manifests
    {
      CountingHasManifest(sc, known, s.rec, s.threads[t]);
    }
  }

  /** Filing references by thread or by the object the thread has locked gives the same sum. */
  lemma AddedByObject(sc: Scheme, known: iset<bytes>, s: State)
    requires Inv(sc, known, s)
    ensures Total(Added(sc, s)) == Total(AddedTo(sc, s))
  {
    CountingThreads(sc, known, s);
    hide Inv, Holds, FirstOf;
    TotalRefiled(Added(sc, s), AddedTo(sc, s), HeldBy(sc, s), s.locks);
  }

  lemma TakenByObject(sc: Scheme, known: iset<bytes>, s: State)
    requires Inv(sc, known, s)
    ensures Total(Taken(s)) == Total(TakenFrom(s))
  {
    CountingThreads(sc, known, s);
    hide Inv, Holds, FirstOf;
    TotalRefiled(Taken(s), TakenFrom(s), HeldBy(sc, s), s.locks);
  }

  /** In every reachable state, whatever is in flight: count table + references already taken away by
      Deletes == references of all indexed objects + references already added by Puts. */
  lemma CountsAccountForAll(sc: Scheme, known: iset<bytes>, s: State)
    requires sc.Sound(known) && Inv(sc, known, s)
    ensures s.rec.counts + Total(Taken(s)) == Total(Indexed(s)) + Total(Added(sc, s))
  {
    forall o | o in s.rec.manifests
      ensures Shares(s)[o] + TakenFrom(s)[o] == Demanded(s)[o] + AddedTo(sc, s)[o]
    {
      ShareBalance(sc, known, s, o);
    }
    AddedByObject(sc, known, s);
    TakenByObject(sc, known, s);
    hide Inv;
    var both: map<Id, multiset<Id>> := map o | o in s.rec.manifests :: Shares(s)[o] + TakenFrom(s)[o];
    TotalPlus(Shares(s), TakenFrom(s), both);
    TotalPlus(Demanded(s), AddedTo(sc, s), both);
    TotalPad(Indexed(s), Demanded(s));
  }

  lemma CountsInEveryRun(sc: Scheme, known: iset<bytes>, steps: seq<Step>, states: seq<State>, i: nat)
    requires sc.Sound(known) && Run(sc, known, steps, states) && i <= |steps|
    ensures states[i].rec.counts + Total(Taken(states[i])) == Total(Indexed(states[i])) + Total(Added(sc, states[i]))
  {
    RunInv(sc, known, steps, states, i);
    CountsAccountForAll(sc, known, states[i]);
  }

  /** Hence with nothing in flight every count is exactly the number of times the manifests of the
      indexed objects list the chunk. */
  lemma CountsExactAtRest(sc: Scheme, known: iset<bytes>, steps: seq<Step>, states: seq<State>, i: nat)
    requires sc.Sound(known) && Run(sc, known, steps, states) && i <= |steps|
    requires states[i].threads == map[]
    ensures states[i].rec.counts == Total(Indexed(states[i]))
  {
    CountsInEveryRun(sc, known, steps, states, i);
    NothingInFlight(sc, states[i]);
  }

  lemma NothingInFlight(sc: Scheme, s: State)
    requires s.threads == map[]
    requires s.rec.counts + Total(Taken(s)) == Total(Indexed(s)) + Total(Added(sc, s))
    ensures s.rec.counts == Total(Indexed(s))
  {
    assert Added(sc, s) == map[] && Taken(s) == map[];
    assert Total(Indexed(s)) == Total(Indexed(s)) + Total(Added(sc, s));
    assert s.rec.counts == s.rec.counts + Total(Taken(s));
  }

  // ---- Nothing needed is ever missing ----

  /** Chunks somebody relies on: those of indexed objects, those a Put in flight has written or found
      present, and those an open reader may still read. */
  ghost predicate Needed(sc: Scheme, s: State, id: Id) {
    || (exists o :: o in s.rec.objects && o in s.rec.manifests && id in s.rec.manifests[o])
    || (exists t :: t in s.threads && NeededBy(sc, s.threads[t], id))
  }

  ghost predicate NeededBy(sc: Scheme, pc: Pc, id: Id) {
    match pc
    case PutWriting(c, k) => k <= |sc.Ids(c)| && id in sc.Ids(c)[..k]
    case PutLocked(c) => id in sc.Ids(c)
    case PutFound(c, _) => id in sc.Ids(c)
    case PutFresh(c) => id in sc.Ids(c)
    case PutCounting(c, _) => id in sc.Ids(c)
    case Reading(_, ids, i, _) => i <= |ids| && id in ids[i..]
    case _ => false
  }

  lemma NeededByPresent(sc: Scheme, known: iset<bytes>, r: Records, pc: Pc, id: Id)
    requires sc.Sound(known) && ThreadInv(sc, known, r, pc) && NeededBy(sc, pc, id)
    requires pc.PutCounting? ==> ObjectOk(sc, known, r, sc.objectId(pc.c), Some(pc))
    ensures id in r.blobs
  {
    if pc.PutCounting? {
      sc.ContentUnique(known, pc.c);
    }
  }

  /** In every reachable state, every chunk somebody relies on is in the backend. */
  lemma NeededIsPresent(sc: Scheme, known: iset<bytes>, s: State, id: Id)
    requires sc.Sound(known) && Inv(sc, known, s) && Needed(sc, s, id)
    ensures id in s.rec.blobs
  {
    if o :| o in s.rec.objects && o in s.rec.manifests && id in s.rec.manifests[o] {
      assert ObjectOk(sc, known, s.rec, o, Holder(s, o));
    } else {
      var t :| t in s.threads && NeededBy(sc, s.threads[t], id);
      assert ThreadInv(sc, known, s.rec, s.threads[t]);
      if s.threads[t].PutCounting? {
        AtLockedPc(sc, known, s, t);
      }
      NeededByPresent(sc, known, s.rec, s.threads[t], id);
    }
  }

  /** The only step that removes a chunk is a GC's, and then nobody relies on the chunk and its count
      is zero. */
  lemma OnlyGarbageIsSwept(sc: Scheme, known: iset<bytes>, s: State, step: Step, id: Id)
    requires sc.Sound(known) && Inv(sc, known, s) && Enabled(sc, s, step) && ContentKnown(known, step)
    requires id in s.rec.blobs && id !in Do(sc, s, step).rec.blobs
    ensures step.Advance? && s.threads[step.t].GcDoomed? && id == s.threads[step.t].id
    ensures !Needed(sc, s, id) && s.rec.counts[id] == 0
  {
    RemovesOnlyDoomed(sc, s, step, id);
    var t := step.t;
    assert ThreadInv(sc, known, s.rec, s.threads[t]);
    DoomedIsZero(sc, known, s.rec, s.threads[t]);
    hide ThreadInv, Do, Enabled;
    ZeroIsUnreferenced(sc, known, s, t, id);
    GcAlone(sc, known, s, t);
    hide Inv;
    assert !NeededBy(sc, s.threads[t], id);
  }

  lemma RemovesOnlyDoomed(sc: Scheme, s: State, step: Step, id: Id)
    requires Enabled(sc, s, step) && id in s.rec.blobs && id !in Do(sc, s, step).rec.blobs
    ensures step.Advance? && s.threads[step.t].GcDoomed? && id == s.threads[step.t].id
  {
    hide Next;
    if step.Advance? {
      AdvanceRemoves(sc, s, step.t);
    }
  }

  lemma AdvanceRemoves(sc: Scheme, s: State, t: Tid)
    requires Enabled(sc, s, Advance(t))
    ensures s.threads[t].GcDoomed? ==> Next(sc, s, t).rec.blobs == s.rec.blobs - {s.threads[t].id}
    ensures !s.threads[t].GcDoomed? ==> s.rec.blobs.Keys <= Next(sc, s, t).rec.blobs.Keys
  {
    hide Holds, Scheme.Ids;
  }

  /** When a GC has nothing left to look at, the backend holds exactly the chunks of indexed objects,
      which are exactly the chunks with a positive count. */
  lemma GcLeavesExactlyTheLive(sc: Scheme, known: iset<bytes>, s: State, t: Tid)
    requires sc.Sound(known) && Inv(sc, known, s) && t in s.threads && s.threads[t] == GcScan({})
    ensures forall id :: id in s.rec.blobs <==> id in s.rec.counts
    ensures forall id :: id in s.rec.blobs <==>
              exists o :: o in s.rec.objects && o in s.rec.manifests && id in s.rec.manifests[o]
  {
    AtPc(sc, known, s, t);
    ScanDone(sc, known, s.rec, s.threads[t]);
    GcAlone(sc, known, s, t);
    forall id | id in s.rec.counts
      ensures exists o :: o in s.rec.objects && o in s.rec.manifests && id in s.rec.manifests[o]
    {
      LiveChunkHasObject(sc, known, s, t, id);
    }
    forall o, id | o in s.rec.objects && o in s.rec.manifests && id in s.rec.manifests[o]
      ensures id in s.rec.blobs && id in s.rec.counts
    {
      hide Inv;
      assert Needed(sc, s, id);
      NeededIsPresent(sc, known, s, id);
    }
    hide Inv;
  }

  lemma ScanDone(sc: Scheme, known: iset<bytes>, r: Records, pc: Pc)
    requires ThreadInv(sc, known, r, pc) && pc == GcScan({})
    ensures forall id :: id in r.blobs ==> id in r.counts
  {
  }

  lemma LiveChunkHasObject(sc: Scheme, known: iset<bytes>, s: State, t: Tid, id: Id)
    requires Inv(sc, known, s) && t in s.threads && !Shared(s.threads[t]) && id in s.rec.counts
    ensures exists o :: o in s.rec.objects && o in s.rec.manifests && id in s.rec.manifests[o]
  {
    GcAlone(sc, known, s, t);
    hide ThreadInv, ObjectInv, FenceInv, Genuine, LockInv;
    var o := TotalMember(Shares(s), id);
    assert id in s.rec.manifests[o];
  }

  // ---- Readers ----

  lemma Ends(sc: Scheme, c: bytes)
    ensures |sc.Ids(c)| == |sc.Pieces(c)| && Concat([]) == []
  {
  }

  lemma StoredPiece(sc: Scheme, known: iset<bytes>, blobs: map<Id, bytes>, c: bytes, i: nat)
    requires sc.Sound(known) && Genuine(sc, known, blobs) && c in known
    requires i < |sc.Ids(c)| && sc.Ids(c)[i] in blobs
    ensures i < |sc.Pieces(c)| && blobs[sc.Ids(c)[i]] == sc.Pieces(c)[i]
  {
    hide Scheme.Pieces;
    assert sc.Ids(c)[i] == sc.chunkId(sc.Pieces(c)[i]) && sc.Pieces(c)[i] in known;
  }

  lemma {:induction false} JoinedIsContent(sc: Scheme, known: iset<bytes>, blobs: map<Id, bytes>, c: bytes, n: nat)
    requires sc.Sound(known) && Genuine(sc, known, blobs) && c in known
    requires n <= |sc.Ids(c)| && AllPresent(blobs, sc.Ids(c)[..n])
    ensures Joined(blobs, sc.Ids(c)[..n]) == Concat(sc.Pieces(c)[..n])
  {
    hide Scheme.Sound, Scheme.Ids, Scheme.Pieces, Genuine;
    Ends(sc, c);
    if n > 0 {
      var ids, ps := sc.Ids(c), sc.Pieces(c);
      assert ids[..n][..n - 1] == ids[..n - 1];
      assert forall i :: 0 <= i < n ==> ids[..n][i] == ids[i];
      JoinedIsContent(sc, known, blobs, c, n - 1);
      assert ids[..n][n - 1] in blobs;
      StoredPiece(sc, known, blobs, c, n - 1);
      assert ps[..n] == ps[..n - 1] + [ps[n - 1]];
      ConcatSnoc(ps[..n - 1], ps[n - 1]);
    }
  }

  /** A reader has at any moment delivered a prefix of the object's content, and all of it once it has
      read its last chunk, whatever Deletes and other operations ran since it was opened. */
  lemma ReaderDelivers(sc: Scheme, known: iset<bytes>, s: State, t: Tid)
    requires sc.Sound(known) && Inv(sc, known, s) && t in s.threads && s.threads[t].Reading?
    ensures var pc := s.threads[t];
      && sc.IsObject(known, pc.o)
      && pc.out <= sc.ContentOf(known, pc.o)
      && (pc.i == |pc.ids| ==> pc.out == sc.ContentOf(known, pc.o))
  {
    AtPc(sc, known, s, t);
    hide Inv;
    ReadingFacts(sc, known, s.rec, s.threads[t]);
  }

  lemma FrontPresent(blobs: map<Id, bytes>, ids: seq<Id>, n: nat)
    requires n <= |ids| && AllPresent(blobs, ids)
    ensures AllPresent(blobs, ids[..n])
  {
  }

  lemma ReadingFacts(sc: Scheme, known: iset<bytes>, r: Records, pc: Pc)
    requires sc.Sound(known) && Genuine(sc, known, r.blobs) && ThreadInv(sc, known, r, pc) && pc.Reading?
    ensures sc.IsObject(known, pc.o) && pc.ids == sc.Ids(sc.ContentOf(known, pc.o)) && pc.i <= |pc.ids|
    ensures pc.out <= sc.ContentOf(known, pc.o)
    ensures pc.i == |pc.ids| ==> pc.out == sc.ContentOf(known, pc.o)
  {
    hide Scheme.Sound, Genuine, AllPresent, Joined, ThreadInv, Scheme.Pieces;
    ReadingPc(sc, known, r, pc);
    var c := sc.ContentOf(known, pc.o);
    hide Scheme.IsObject, Scheme.ContentOf;
    FrontPresent(r.blobs, pc.ids, pc.i);
    JoinedIsContent(sc, known, r.blobs, c, pc.i);
    FrontOfPieces(sc, c, pc.i);
  }

  lemma ReadingPc(sc: Scheme, known: iset<bytes>, r: Records, pc: Pc)
    requires ThreadInv(sc, known, r, pc) && pc.Reading?
    ensures sc.IsObject(known, pc.o) && pc.ids == sc.Ids(sc.ContentOf(known, pc.o)) && pc.i <= |pc.ids|
    ensures AllPresent(r.blobs, pc.ids) && pc.out == Joined(r.blobs, pc.ids[..pc.i])
  {
  }

  /** The first n pieces of a content make up its beginning, and all of them all of it. */
  lemma FrontOfPieces(sc: Scheme, c: bytes, n: nat)
    requires n <= |sc.Pieces(c)|
    ensures Concat(sc.Pieces(c)[..n]) <= c
    ensures n == |sc.Pieces(c)| ==> Concat(sc.Pieces(c)[..n]) == c
  {
    var ps := sc.Pieces(c);
    Boundary.SplitConcat(sc.pol, sc.table, c);
    assert ps == ps[..n] + ps[n..];
    ConcatAppend(ps[..n], ps[n..]);
    assert n == |ps| ==> ps[..n] == ps;
  }

  /** No thread ever meets an underflow or a missing chunk, and no Delete a missing manifest. (A Get may
      meet one: see MissesManifest.) */
  lemma NeverBroken(sc: Scheme, known: iset<bytes>, steps: seq<Step>, states: seq<State>, i: nat, t: Tid)
    requires sc.Sound(known) && Run(sc, known, steps, states) && i <= |steps| && t in states[i].threads
    ensures !states[i].threads[t].Broken?
  {
    RunInv(sc, known, steps, states, i);
    InvNeverBroken(sc, known, states[i], t);
  }

  lemma InvNeverBroken(sc: Scheme, known: iset<bytes>, s: State, t: Tid)
    requires Inv(sc, known, s) && t in s.threads
    ensures !s.threads[t].Broken?
  {
    hide ObjectInv, CountInv, FenceInv, Genuine, LockInv;
    assert ThreadInv(sc, known, s.rec, s.threads[t]);
  }

  /** A Get that has found its object in the index goes on to find no manifest exactly if the index entry
      has gone since and no Put or Delete of the object is between its two removals or entries. */
  lemma MissesManifest(sc: Scheme, known: iset<bytes>, s: State, t: Tid, o: Id)
    requires Inv(sc, known, s) && t in s.threads && s.threads[t] == GetFound(o)
    ensures Enabled(sc, s, Advance(t))
    ensures Do(sc, s, Advance(t)).threads[t].Incomplete?
       <==> o !in s.rec.objects && !(Holder(s, o).Some? && HalfListed(Holder(s, o).value))
    ensures !Do(sc, s, Advance(t)).threads[t].Incomplete? ==>
              Do(sc, s, Advance(t)).threads[t] == Reading(o, sc.Ids(sc.ContentOf(known, o)), 0, [])
  {
    hide Inv, Do, Holder, HalfListed, Possible, ObjectOk;
    LooksForManifest(sc, s, t, o);
    ObjectAt(sc, known, s, o);
    hide AllPresent, Scheme.IsObject, Scheme.Ids, Scheme.ContentOf;
    if Holder(s, o).Some? && HalfListed(Holder(s, o).value) {
      HalfListedHasManifest(sc, known, s, o);
    }
  }

  /** The step of a Get from the index to the manifest. */
  lemma LooksForManifest(sc: Scheme, s: State, t: Tid, o: Id)
    requires t in s.threads && s.threads[t] == GetFound(o)
    ensures Enabled(sc, s, Advance(t))
    ensures Do(sc, s, Advance(t)).threads[t]
         == if o in s.rec.manifests then Reading(o, s.rec.manifests[o], 0, []) else Incomplete(o)
  {
  }

  lemma ObjectAt(sc: Scheme, known: iset<bytes>, s: State, o: Id)
    requires Inv(sc, known, s)
    ensures o in s.rec.objects ==> o in s.rec.manifests
    ensures o in s.rec.manifests ==> s.rec.manifests[o] == sc.Ids(sc.ContentOf(known, o))
    ensures o in s.rec.manifests && o !in s.rec.objects ==> Holder(s, o).Some? && HalfListed(Holder(s, o).value)
  {
    hide FenceInv, LockInv, Genuine, ThreadsInv, CountInv;
    assert ObjectOk(sc, known, s.rec, o, Holder(s, o));
  }

  /** A thread between the two entries or removals of an object leaves its manifest there. */
  lemma HalfListedHasManifest(sc: Scheme, known: iset<bytes>, s: State, o: Id)
    requires Inv(sc, known, s) && Holder(s, o).Some? && HalfListed(Holder(s, o).value)
    ensures o in s.rec.manifests
  {
    AtLockedPc(sc, known, s, s.locks[o]);
  }

  // ---- The store is a multiset of objects ----

  function Use(s: State, o: Id): nat {
    if o in s.rec.objects then s.rec.objects[o] else 0
  }

  /** The step by which a Put of object o takes effect. */
  predicate PutTakesEffect(sc: Scheme, s: State, step: Step, o: Id) {
    && step.Advance? && step.t in s.threads
    && match s.threads[step.t]
       case PutFound(c, _) => o == sc.objectId(c)
       case PutCounting(c, k) => o == sc.objectId(c) && k >= |sc.Ids(c)|
       case _ => false
  }

  /** The step by which a Delete of object o takes effect. */
  predicate DeleteTakesEffect(s: State, step: Step, o: Id) {
    && step.Advance? && step.t in s.threads
    && match s.threads[step.t]
       case DelLoaded(q, use, _) => o == q && use > 1
       case DelCounting(q, ids, k) => o == q && k >= |ids|
       case _ => false
  }

  function One(b: bool): nat {
    if b then 1 else 0
  }

  /** Every step adds one copy of an object, removes one, or changes no multiplicity at all. */
  lemma StepRefinesMultiset(sc: Scheme, known: iset<bytes>, s: State, step: Step, o: Id)
    requires sc.Sound(known) && Inv(sc, known, s) && Enabled(sc, s, step)
    ensures Use(Do(sc, s, step), o) + One(DeleteTakesEffect(s, step, o))
         == Use(s, o) + One(PutTakesEffect(sc, s, step, o))
  {
    hide ThreadInv, Inv;
    if step.Advance? {
      AtPc(sc, known, s, step.t);
      EffectOfAdvance(sc, known, s.rec, s.threads[step.t]);
      AdvanceRefinesMultiset(sc, s, step.t, o);
    }
  }

  lemma AdvanceRefinesMultiset(sc: Scheme, s: State, t: Tid, o: Id)
    requires Enabled(sc, s, Advance(t))
    requires var r, pc := s.rec, s.threads[t];
      && (pc.PutFound? ==> sc.objectId(pc.c) in r.objects && r.objects[sc.objectId(pc.c)] == pc.use)
      && (pc.PutCounting? ==> sc.objectId(pc.c) !in r.objects)
      && (pc.DelLoaded? ==> pc.o in r.objects && r.objects[pc.o] == pc.use)
      && (pc.DelCounting? ==> pc.o in r.objects && r.objects[pc.o] == 1)
    ensures Use(Next(sc, s, t), o) + One(DeleteTakesEffect(s, Advance(t), o))
         == Use(s, o) + One(PutTakesEffect(sc, s, Advance(t), o))
  {
  }

  lemma AtPc(sc: Scheme, known: iset<bytes>, s: State, t: Tid)
    requires Inv(sc, known, s) && t in s.threads
    ensures ThreadInv(sc, known, s.rec, s.threads[t]) && Genuine(sc, known, s.rec.blobs)
  {
    hide ThreadInv, ObjectInv, CountInv, FenceInv, Genuine, LockInv;
  }

  lemma EffectOfAdvance(sc: Scheme, known: iset<bytes>, r: Records, pc: Pc)
    requires ThreadInv(sc, known, r, pc)
    ensures pc.PutFound? ==> sc.objectId(pc.c) in r.objects && r.objects[sc.objectId(pc.c)] == pc.use
    ensures pc.PutCounting? ==> sc.objectId(pc.c) !in r.objects
    ensures pc.DelLoaded? ==> pc.o in r.objects && r.objects[pc.o] == pc.use
    ensures pc.DelCounting? ==> pc.o in r.objects && r.objects[pc.o] == 1
  {
  }

  ghost function Puts(sc: Scheme, steps: seq<Step>, states: seq<State>, o: Id, n: nat): nat
    requires n <= |steps| < |states|
  {
    if n == 0 then 0
    else Puts(sc, steps, states, o, n - 1) + One(PutTakesEffect(sc, states[n - 1], steps[n - 1], o))
  }

  ghost function Deletes(steps: seq<Step>, states: seq<State>, o: Id, n: nat): nat
    requires n <= |steps| < |states|
  {
    if n == 0 then 0
    else Deletes(steps, states, o, n - 1) + One(DeleteTakesEffect(states[n - 1], steps[n - 1], o))
  }

  /** Over every run: the use count of an object is the Puts of it that have taken effect less the
      Deletes of it that have. */
  lemma {:induction false} UseCountIsMultiplicity(sc: Scheme, known: iset<bytes>, steps: seq<Step>,
                                                  states: seq<State>, o: Id, n: nat)
    requires sc.Sound(known) && Run(sc, known, steps, states) && n <= |steps|
    ensures Use(states[n], o) + Deletes(steps, states, o, n) == Puts(sc, steps, states, o, n)
  {
    if n > 0 {
      UseCountIsMultiplicity(sc, known, steps, states, o, n - 1);
      RunInv(sc, known, steps, states, n - 1);
      hide Inv;
      StepRefinesMultiset(sc, known, states[n - 1], steps[n - 1], o);
    }
  }
}
