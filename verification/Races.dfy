/** Runs that show what the operations do not promise each other: a Get that a Delete overtakes, and what
    would happen without the fence. */
module Races {
  import opened Bytes
  import opened Schemes
  import opened Interleaving
  import opened Runs

  /** A run from the empty store, with the fence or without it. */
  ghost predicate Trace(sc: Scheme, known: iset<bytes>, fenced: bool, steps: seq<Step>, states: seq<State>) {
    && |states| == |steps| + 1
    && states[0] == Init
    && forall i :: 0 <= i < |steps| ==>
         && Possible(sc, states[i], steps[i]) && (fenced ==> Admitted(states[i], steps[i]))
         && ContentKnown(known, steps[i])
         && states[i + 1] == Do(sc, states[i], steps[i])
  }

  ghost predicate Reached(sc: Scheme, known: iset<bytes>, fenced: bool, s: State) {
    exists steps, states :: Trace(sc, known, fenced, steps, states) && states[|steps|] == s
  }

  /** With the fence these are the runs of the store. */
  lemma FencedIsRun(sc: Scheme, known: iset<bytes>, steps: seq<Step>, states: seq<State>)
    ensures Trace(sc, known, true, steps, states) <==> Run(sc, known, steps, states)
  {
    hide Possible, Admitted, Do;
  }

  lemma AtStart(sc: Scheme, known: iset<bytes>, fenced: bool)
    ensures Reached(sc, known, fenced, Init)
  {
    assert Trace(sc, known, fenced, [], [Init]);
  }

  lemma Onward(sc: Scheme, known: iset<bytes>, fenced: bool, s: State, step: Step)
    requires Reached(sc, known, fenced, s) && Possible(sc, s, step) && ContentKnown(known, step)
    requires fenced ==> Admitted(s, step)
    ensures Reached(sc, known, fenced, Do(sc, s, step))
  {
    hide Possible, Admitted, Do;
    var steps, states :| Trace(sc, known, fenced, steps, states) && states[|steps|] == s;
    var steps', states' := steps + [step], states + [Do(sc, s, step)];
    assert forall i :: 0 <= i < |steps| ==> steps'[i] == steps[i];
    assert forall i :: 0 <= i < |states| ==> states'[i] == states[i];
    assert Trace(sc, known, fenced, steps', states') && states'[|steps'|] == Do(sc, s, step);
  }

  // ---- Whole stretches of an operation ----

  lemma Again(s: State, t: Tid, pc: Pc, r: Records, pc': Pc, r': Records)
    ensures With(With(s, t, pc, r), t, pc', r') == With(s, t, pc', r')
  {
    assert s.threads[t := pc][t := pc'] == s.threads[t := pc'];
  }

  /** Thread t moves on from pc to pc', the records become r' and nothing else changes. */
  lemma Along(sc: Scheme, known: iset<bytes>, fenced: bool, s: State, t: Tid, pc: Pc, r: Records, pc': Pc, r': Records)
    requires Reached(sc, known, fenced, With(s, t, pc, r)) && Possible(sc, With(s, t, pc, r), Advance(t))
    requires Next(sc, With(s, t, pc, r), t) == With(With(s, t, pc, r), t, pc', r')
    ensures Reached(sc, known, fenced, With(s, t, pc', r'))
  {
    hide Reached, Possible, Next;
    Onward(sc, known, fenced, With(s, t, pc, r), Advance(t));
    Again(s, t, pc, r, pc', r');
  }

  /** A Put writes the rest of its chunks. */
  lemma {:induction false} WriteChunks(sc: Scheme, known: iset<bytes>, fenced: bool, s: State, t: Tid, c: bytes, k: nat)
    returns (s': State)
    requires Reached(sc, known, fenced, s) && t in s.threads && s.threads[t] == PutWriting(c, k)
    requires k <= |sc.Ids(c)| && AllPresent(s.rec.blobs, sc.Ids(c)[..k])
    ensures Reached(sc, known, fenced, s')
    ensures s' == With(s, t, PutWriting(c, |sc.Ids(c)|), s.rec.(blobs := s'.rec.blobs))
    ensures s.rec.blobs.Keys <= s'.rec.blobs.Keys && AllPresent(s'.rec.blobs, sc.Ids(c))
    decreases |sc.Ids(c)| - k
  {
    hide Reached;
    if k == |sc.Ids(c)| {
      assert sc.Ids(c)[..k] == sc.Ids(c);
      return s;
    }
    var next := WritesOne(sc, known, fenced, s, t, c, k);
    s' := WriteChunks(sc, known, fenced, next, t, c, k + 1);
  }

  lemma WritesOne(sc: Scheme, known: iset<bytes>, fenced: bool, s: State, t: Tid, c: bytes, k: nat) returns (s': State)
    requires Reached(sc, known, fenced, s) && t in s.threads && s.threads[t] == PutWriting(c, k)
    requires k < |sc.Ids(c)| && AllPresent(s.rec.blobs, sc.Ids(c)[..k])
    ensures Reached(sc, known, fenced, s')
    ensures s' == With(s, t, PutWriting(c, k + 1), s.rec.(blobs := s'.rec.blobs))
    ensures s.rec.blobs.Keys <= s'.rec.blobs.Keys && AllPresent(s'.rec.blobs, sc.Ids(c)[..k + 1])
  {
    hide Reached;
    Onward(sc, known, fenced, s, Advance(t));
    s' := Do(sc, s, Advance(t));
    assert sc.Ids(c)[..k + 1] == sc.Ids(c)[..k] + [sc.Ids(c)[k]];
  }

  /** and counts them. */
  lemma {:induction false} CountUp(sc: Scheme, known: iset<bytes>, fenced: bool, s: State, t: Tid, c: bytes,
                                   r: Records, k: nat)
    requires k <= |sc.Ids(c)|
    requires Reached(sc, known, fenced,
                     With(s, t, PutCounting(c, k), r.(counts := r.counts + multiset(sc.Ids(c)[..k]))))
    ensures Reached(sc, known, fenced,
                    With(s, t, PutCounting(c, |sc.Ids(c)|), r.(counts := r.counts + multiset(sc.Ids(c)))))
    decreases |sc.Ids(c)| - k
  {
    hide Reached, Scheme.Ids;
    var ids := sc.Ids(c);
    if k == |ids| {
      assert ids[..k] == ids;
    } else {
      assert ids[..k + 1] == ids[..k] + [ids[k]];
      var counts := r.counts + multiset(ids[..k]);
      assert counts + multiset{ids[k]} == r.counts + multiset(ids[..k + 1]);
      CountsOne(sc, known, fenced, s, t, c, r.(counts := counts), k);
      CountUp(sc, known, fenced, s, t, c, r, k + 1);
    }
  }

  lemma CountsOne(sc: Scheme, known: iset<bytes>, fenced: bool, s: State, t: Tid, c: bytes, r: Records, k: nat)
    requires k < |sc.Ids(c)| && Reached(sc, known, fenced, With(s, t, PutCounting(c, k), r))
    ensures Reached(sc, known, fenced,
                    With(s, t, PutCounting(c, k + 1), r.(counts := r.counts + multiset{sc.Ids(c)[k]})))
  {
    hide Reached;
    Along(sc, known, fenced, s, t, PutCounting(c, k), r, PutCounting(c, k + 1),
          r.(counts := r.counts + multiset{sc.Ids(c)[k]}));
  }

  /** A Delete takes its references back. */
  lemma {:induction false} CountDown(sc: Scheme, known: iset<bytes>, fenced: bool, s: State, t: Tid, o: Id,
                                     ids: seq<Id>, r: Records, k: nat)
    requires k <= |ids| && multiset(ids) <= r.counts
    requires Reached(sc, known, fenced, With(s, t, DelCounting(o, ids, k), r.(counts := r.counts - multiset(ids[..k]))))
    ensures Reached(sc, known, fenced, With(s, t, DelCounting(o, ids, |ids|), r.(counts := r.counts - multiset(ids))))
    decreases |ids| - k
  {
    hide Reached;
    if k == |ids| {
      assert ids[..k] == ids;
    } else {
      OneLess(r.counts, ids, k);
      TakesOne(sc, known, fenced, s, t, o, ids, r.(counts := r.counts - multiset(ids[..k])), k);
      CountDown(sc, known, fenced, s, t, o, ids, r, k + 1);
    }
  }

  lemma TakesOne(sc: Scheme, known: iset<bytes>, fenced: bool, s: State, t: Tid, o: Id, ids: seq<Id>, r: Records,
                 k: nat)
    requires k < |ids| && ids[k] in r.counts && Reached(sc, known, fenced, With(s, t, DelCounting(o, ids, k), r))
    ensures Reached(sc, known, fenced,
                    With(s, t, DelCounting(o, ids, k + 1), r.(counts := r.counts - multiset{ids[k]})))
  {
    hide Reached;
    Along(sc, known, fenced, s, t, DelCounting(o, ids, k), r, DelCounting(o, ids, k + 1),
          r.(counts := r.counts - multiset{ids[k]}));
  }

  lemma OneLess(counts: multiset<Id>, ids: seq<Id>, k: nat)
    requires k < |ids| && multiset(ids) <= counts
    ensures (counts - multiset(ids[..k]))[ids[k]] >= 1
    ensures counts - multiset(ids[..k]) - multiset{ids[k]} == counts - multiset(ids[..k + 1])
  {
    assert ids[..k + 1] == ids[..k] + [ids[k]];
    assert ids == ids[..k + 1] + ids[k + 1..];
  }

  /** The records once a first copy of c is entered. */
  function Entered(sc: Scheme, r: Records, c: bytes): Records {
    var o := sc.objectId(c);
    Records(r.blobs, r.counts + multiset(sc.Ids(c)), r.objects[o := 1], r.manifests[o := sc.Ids(c)])
  }

  /** A Put that has written its chunks enters a first copy: lock, look up, manifest, counts, index, unlock. */
  lemma EnterFirst(sc: Scheme, known: iset<bytes>, fenced: bool, s: State, t: Tid, c: bytes)
    requires Reached(sc, known, fenced, s) && t in s.threads && s.threads[t] == PutWriting(c, |sc.Ids(c)|)
    requires sc.objectId(c) !in s.locks && sc.objectId(c) !in s.rec.objects
    ensures Reached(sc, known, fenced, With(s, t, Leaving, Entered(sc, s.rec, c)))
  {
    hide Reached, Scheme.Ids;
    var o, r, n := sc.objectId(c), s.rec, |sc.Ids(c)|;
    var locked := s.(locks := s.locks[o := t]);
    Onward(sc, known, fenced, s, Advance(t));
    Along(sc, known, fenced, locked, t, PutLocked(c), r, PutFresh(c), r);
    var listed := r.(manifests := r.manifests[o := sc.Ids(c)]);
    Along(sc, known, fenced, locked, t, PutFresh(c), r, PutCounting(c, 0), listed);
    assert sc.Ids(c)[..0] == [];
    assert listed == listed.(counts := listed.counts + multiset(sc.Ids(c)[..0]));
    CountUp(sc, known, fenced, locked, t, c, listed, 0);
    Along(sc, known, fenced, locked, t, PutCounting(c, n), listed.(counts := r.counts + multiset(sc.Ids(c))),
          Unlocking(o), Entered(sc, r, c));
    Unlocks(sc, known, fenced, s, t, o, Entered(sc, r, c));
  }

  lemma Unlocks(sc: Scheme, known: iset<bytes>, fenced: bool, s: State, t: Tid, o: Id, r: Records)
    requires o !in s.locks && Reached(sc, known, fenced, With(s.(locks := s.locks[o := t]), t, Unlocking(o), r))
    ensures Reached(sc, known, fenced, With(s, t, Leaving, r))
  {
    hide Reached;
    var before := With(s.(locks := s.locks[o := t]), t, Unlocking(o), r);
    Onward(sc, known, fenced, before, Advance(t));
    assert s.locks[o := t] - {o} == s.locks;
    assert s.threads[t := Unlocking(o)][t := Leaving] == s.threads[t := Leaving];
  }

  /** The records once the last copy of o, with chunk list ids, is removed. */
  function Removed(r: Records, o: Id, ids: seq<Id>): Records {
    Records(r.blobs, r.counts - multiset(ids), r.objects - {o}, r.manifests - {o})
  }

  /** A Delete of a last copy, from its beginning to its end. */
  lemma DeleteLast(sc: Scheme, known: iset<bytes>, fenced: bool, s: State, t: Tid, o: Id)
    requires Reached(sc, known, fenced, s) && t !in s.threads && !s.writer && o !in s.locks
    requires o in s.rec.objects && s.rec.objects[o] == 1 && o in s.rec.manifests
    requires multiset(s.rec.manifests[o]) <= s.rec.counts
    ensures Reached(sc, known, fenced,
                    With(s.(readers := s.readers + 1), t, Leaving, Removed(s.rec, o, s.rec.manifests[o])))
  {
    hide Reached;
    var r, ids := s.rec, s.rec.manifests[o];
    var inside := s.(readers := s.readers + 1);
    Onward(sc, known, fenced, s, StartDelete(t, o));
    Locks(sc, known, fenced, inside, t, o, r);
    DeleteBegins(sc, known, fenced, inside.(locks := s.locks[o := t]), t, o, r);
    DeleteEnds(sc, known, fenced, inside, t, o, ids, r);
  }

  lemma DeleteBegins(sc: Scheme, known: iset<bytes>, fenced: bool, s: State, t: Tid, o: Id, r: Records)
    requires Reached(sc, known, fenced, With(s, t, DelLocked(o), r))
    requires o in r.objects && r.objects[o] == 1 && o in r.manifests
    ensures Reached(sc, known, fenced, With(s, t, DelCounting(o, r.manifests[o], 0), r))
  {
    hide Reached;
    var ids := r.manifests[o];
    Along(sc, known, fenced, s, t, DelLocked(o), r, DelFound(o, 1), r);
    Along(sc, known, fenced, s, t, DelFound(o, 1), r, DelLoaded(o, 1, ids), r);
    Along(sc, known, fenced, s, t, DelLoaded(o, 1, ids), r, DelCounting(o, ids, 0), r);
  }

  lemma DeleteEnds(sc: Scheme, known: iset<bytes>, fenced: bool, s: State, t: Tid, o: Id, ids: seq<Id>, r: Records)
    requires o !in s.locks && multiset(ids) <= r.counts
    requires Reached(sc, known, fenced, With(s.(locks := s.locks[o := t]), t, DelCounting(o, ids, 0), r))
    ensures Reached(sc, known, fenced, With(s, t, Leaving, Removed(r, o, ids)))
  {
    hide Reached, Do, Next, Possible;
    var locked, less := s.(locks := s.locks[o := t]), r.(counts := r.counts - multiset(ids));
    assert ids[..0] == [];
    assert r == r.(counts := r.counts - multiset(ids[..0]));
    CountDown(sc, known, fenced, locked, t, o, ids, r, 0);
    Unlists(sc, known, fenced, locked, t, o, ids, less);
    Unlocks(sc, known, fenced, s, t, o, Removed(r, o, ids));
  }

  lemma Unlists(sc: Scheme, known: iset<bytes>, fenced: bool, s: State, t: Tid, o: Id, ids: seq<Id>, r: Records)
    requires Reached(sc, known, fenced, With(s, t, DelCounting(o, ids, |ids|), r))
    ensures Reached(sc, known, fenced,
                    With(s, t, Unlocking(o), r.(objects := r.objects - {o}, manifests := r.manifests - {o})))
  {
    hide Reached;
    var unlisted := r.(objects := r.objects - {o});
    Along(sc, known, fenced, s, t, DelCounting(o, ids, |ids|), r, DelUnlisted(o), unlisted);
    Along(sc, known, fenced, s, t, DelUnlisted(o), unlisted, Unlocking(o), unlisted.(manifests := r.manifests - {o}));
  }

  lemma Locks(sc: Scheme, known: iset<bytes>, fenced: bool, s: State, t: Tid, o: Id, r: Records)
    requires o !in s.locks && Reached(sc, known, fenced, With(s, t, DelStart(o), r))
    ensures Reached(sc, known, fenced, With(s.(locks := s.locks[o := t]), t, DelLocked(o), r))
  {
    hide Reached;
    Onward(sc, known, fenced, With(s, t, DelStart(o), r), Advance(t));
    assert s.threads[t := DelStart(o)][t := DelLocked(o)] == s.threads[t := DelLocked(o)];
  }

  /** The store after one Put of c, by thread 0, which has not left yet. */
  lemma OnePut(sc: Scheme, known: iset<bytes>, fenced: bool, c: bytes) returns (s: State)
    requires c in known
    ensures Reached(sc, known, fenced, s) && AllPresent(s.rec.blobs, sc.Ids(c))
    ensures s == State(Entered(sc, Records(s.rec.blobs, multiset{}, map[], map[]), c), map[], 1, false,
                       map[0 := Leaving])
  {
    hide Reached;
    AtStart(sc, known, fenced);
    Onward(sc, known, fenced, Init, StartPut(0, c));
    var s0 := Do(sc, Init, StartPut(0, c));
    assert sc.Ids(c)[..0] == [];
    var s1 := WriteChunks(sc, known, fenced, s0, 0, c, 0);
    EnterFirst(sc, known, fenced, s1, 0, c);
    s := With(s1, 0, Leaving, Entered(sc, s1.rec, c));
  }

  // ---- A Get overtaken by a Delete ----

  /** For every content: put it, look it up for a Get, delete it. With the fence in force and every lock
      observed, the Get now finds no manifest for the object it found in the index. */
  lemma GetOvertaken(sc: Scheme, known: iset<bytes>, c: bytes) returns (s: State)
    requires c in known
    ensures Reached(sc, known, true, s) && 1 in s.threads && s.threads[1] == Incomplete(sc.objectId(c))
  {
    hide Reached, Scheme.Ids, Do, Possible, Admitted, AllPresent;
    var o := sc.objectId(c);
    var s0 := OnePut(sc, known, true, c);
    var s2 := LooksUp(sc, known, s0, o);
    DeleteLast(sc, known, true, s2, 2, o);
    var s3 := With(s2.(readers := s2.readers + 1), 2, Leaving, Removed(s2.rec, o, s2.rec.manifests[o]));
    s := FindsNone(sc, known, s3, o);
  }

  /** Thread 1 begins a Get and finds the object in the index. */
  lemma LooksUp(sc: Scheme, known: iset<bytes>, s: State, o: Id) returns (s': State)
    requires Reached(sc, known, true, s) && 1 !in s.threads && !s.writer && o in s.rec.objects
    ensures Reached(sc, known, true, s')
    ensures s' == s.(threads := s.threads[1 := GetFound(o)], readers := s.readers + 1)
  {
    hide Reached;
    Onward(sc, known, true, s, StartGet(1, o));
    var begun := Do(sc, s, StartGet(1, o));
    Onward(sc, known, true, begun, Advance(1));
    s' := Do(sc, begun, Advance(1));
    assert s.threads[1 := GetStart(o)][1 := GetFound(o)] == s.threads[1 := GetFound(o)];
  }

  lemma FindsNone(sc: Scheme, known: iset<bytes>, s: State, o: Id) returns (s': State)
    requires Reached(sc, known, true, s) && 1 in s.threads && s.threads[1] == GetFound(o) && o !in s.rec.manifests
    ensures Reached(sc, known, true, s') && 1 in s'.threads && s'.threads[1] == Incomplete(o)
  {
    hide Reached;
    Onward(sc, known, true, s, Advance(1));
    s' := Do(sc, s, Advance(1));
  }

  // ---- Without the fence ----

  /** An object whose index entry and manifest are there and whose chunk id is not. */
  ghost predicate Lost(sc: Scheme, s: State, c: bytes, id: Id) {
    var o := sc.objectId(c);
    && o in s.rec.objects && o in s.rec.manifests && s.rec.manifests[o] == sc.Ids(c)
    && id in sc.Ids(c) && id !in s.rec.blobs
  }

  /** For any two contents that share a chunk, without the fence: x is put; a Put of y finds the shared chunk
      present; a Delete of x takes its count to zero; a GC sweeps it; the Put of y goes on and enters y, whose
      chunk is gone. */
  lemma FenceIsNeeded(sc: Scheme, known: iset<bytes>, x: bytes, y: bytes, id: Id) returns (s: State)
    requires sc.Sound(known) && x in known && y in known && x != y && id in sc.Ids(x) && id in sc.Ids(y)
    ensures Reached(sc, known, false, s) && Lost(sc, s, y, id)
  {
    hide Reached, Scheme.Ids, Scheme.Sound;
    var o, q := sc.objectId(x), sc.objectId(y);
    assert o != q by { Apart(sc, known, x, y); }
    var s0 := OnePut(sc, known, false, x);
    Onward(sc, known, false, s0, StartPut(1, y));
    var s1 := Do(sc, s0, StartPut(1, y));
    assert sc.Ids(y)[..0] == [];
    var s2 := WriteChunks(sc, known, false, s1, 1, y, 0);
    DeleteLast(sc, known, false, s2, 2, o);
    var s3 := With(s2.(readers := s2.readers + 1), 2, Leaving, Removed(s2.rec, o, sc.Ids(x)));
    s := SweptUnder(sc, known, s3, y, id);
  }

  lemma Apart(sc: Scheme, known: iset<bytes>, x: bytes, y: bytes)
    requires sc.Sound(known) && x in known && y in known && x != y
    ensures sc.objectId(x) != sc.objectId(y)
  {
  }

  /** A GC that nothing keeps out sweeps id under a Put that has written its chunks, and the Put enters y. */
  lemma SweptUnder(sc: Scheme, known: iset<bytes>, s: State, y: bytes, id: Id) returns (s': State)
    requires Reached(sc, known, false, s) && 1 in s.threads && s.threads[1] == PutWriting(y, |sc.Ids(y)|)
    requires 3 !in s.threads && s.locks == map[] && sc.objectId(y) !in s.rec.objects
    requires id in sc.Ids(y) && id in s.rec.blobs && id !in s.rec.counts
    ensures Reached(sc, known, false, s') && Lost(sc, s', y, id)
  {
    hide Reached, Scheme.Ids;
    Onward(sc, known, false, s, StartGc(3));
    var s1 := Do(sc, s, StartGc(3));
    Onward(sc, known, false, s1, Pick(3, id));
    var s2 := Do(sc, s1, Pick(3, id));
    assert s2.threads[3].GcDoomed?;
    Onward(sc, known, false, s2, Advance(3));
    var s3 := Do(sc, s2, Advance(3));
    assert s3.rec == s.rec.(blobs := s.rec.blobs - {id}) && s3.threads[1] == s.threads[1];
    EnterFirst(sc, known, false, s3, 1, y);
    s' := With(s3, 1, Leaving, Entered(sc, s3.rec, y));
  }
}
