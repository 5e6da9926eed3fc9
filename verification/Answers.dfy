/** What the operations answer, over runs of the interleaved store (put.go, delete.go, get.go): each takes effect
    once, between its beginning and its end, and its answer is true at a moment in between. */
module Answers {
  import opened Bytes
  import opened Schemes
  import opened Interleaving
  import opened Runs

  /** Thread t begins an operation with step i and is in it in every state up to m. */
  ghost predicate Spans(steps: seq<Step>, states: seq<State>, t: Tid, i: nat, m: nat) {
    && i < m <= |steps| < |states|
    && t !in states[i].threads
    && forall k :: i < k <= m ==> t in states[k].threads
  }

  /** Does step k belong to thread t and make a Put of o take effect, or a Delete of it? */
  ghost predicate Effect(sc: Scheme, s: State, step: Step, t: Tid, o: Id) {
    step.t == t && (PutTakesEffect(sc, s, step, o) || DeleteTakesEffect(s, step, o))
  }

  /** How often an operation of t on o has taken effect from step i to before step m. */
  ghost function Effects(sc: Scheme, steps: seq<Step>, states: seq<State>, t: Tid, o: Id, i: nat, m: nat): nat
    requires i <= m <= |steps| < |states|
    decreases m
  {
    if m == i then 0
    else Effects(sc, steps, states, t, o, i, m - 1) + One(Effect(sc, states[m - 1], steps[m - 1], t, o))
  }

  /** A step of another thread leaves t where it is. */
  lemma OthersMove(sc: Scheme, s: State, step: Step, t: Tid)
    requires Enabled(sc, s, step) && step.t != t && t in s.threads
    ensures t in Do(sc, s, step).threads && Do(sc, s, step).threads[t] == s.threads[t]
  {
    hide Scheme.Ids, Stored, Scheme.Pieces, Admitted, Next;
    if step.Advance? {
      OthersWait(sc, s, step.t, t);
    }
  }

  lemma OthersWait(sc: Scheme, s: State, u: Tid, t: Tid)
    requires Possible(sc, s, Advance(u)) && u != t && t in s.threads
    ensures t in Next(sc, s, u).threads && Next(sc, s, u).threads[t] == s.threads[t]
  {
    hide Scheme.Ids, Stored, Scheme.Pieces, Possible;
    OneThread(sc, s, u);
  }

  /** A step of thread u changes where u is, or ends it, and no other thread. */
  lemma OneThread(sc: Scheme, s: State, u: Tid)
    requires Possible(sc, s, Advance(u))
    ensures var after := Next(sc, s, u).threads;
      after == s.threads - {u} || (u in after && after == s.threads[u := after[u]])
  {
    hide Scheme.Ids, Stored, Scheme.Pieces;
    var pc := s.threads[u];
    if pc.Leaving? || pc.GcScan? {
      assert Next(sc, s, u).threads == s.threads - {u};
    } else {
      assert u in Next(sc, s, u).threads;
    }
  }

  // ---- Put ----

  /** A Put of c that has not taken effect yet. */
  predicate InPut(c: bytes, pc: Pc) {
    match pc
    case PutWriting(d, _) => d == c
    case PutLocked(d) => d == c
    case PutFound(d, _) => d == c
    case PutFresh(d) => d == c
    case PutCounting(d, _) => d == c
    case _ => false
  }

  /** An operation on o that has nothing left to do but to leave. */
  predicate Done(o: Id, pc: Pc) {
    pc == Unlocking(o) || pc == Leaving
  }

  ghost predicate Aborts(steps: seq<Step>, t: Tid, i: nat, m: nat)
    requires m <= |steps|
  {
    exists k :: i <= k < m && steps[k] == Abort(t)
  }

  lemma PutBegins(sc: Scheme, s: State, t: Tid, c: bytes, o: Id)
    requires Enabled(sc, s, StartPut(t, c))
    ensures t in Do(sc, s, StartPut(t, c)).threads && InPut(c, Do(sc, s, StartPut(t, c)).threads[t])
    ensures !Effect(sc, s, StartPut(t, c), t, o)
  {
  }

  lemma PutMoves(sc: Scheme, s: State, step: Step, t: Tid, c: bytes)
    requires Enabled(sc, s, step) && step.t == t && t in s.threads && t in Do(sc, s, step).threads
    requires InPut(c, s.threads[t]) || Done(sc.objectId(c), s.threads[t])
    ensures var o, pc' := sc.objectId(c), Do(sc, s, step).threads[t];
      if InPut(c, s.threads[t]) then
        if step.Abort? then Done(o, pc') && !Effect(sc, s, step, t, o)
        else if Effect(sc, s, step, t, o) then Done(o, pc')
        else InPut(c, pc')
      else
        Done(o, pc') && !step.Abort? && !Effect(sc, s, step, t, o)
  {
    hide Scheme.Ids, Stored, Scheme.Pieces;
  }

  /** A Put takes effect exactly once before it ends, unless it is aborted, and then never: while it is under
      way it has not, and once it has nothing left to do it has. */
  lemma {:induction false} PutOnce(sc: Scheme, known: iset<bytes>, steps: seq<Step>, states: seq<State>, t: Tid,
                                   c: bytes, i: nat, m: nat)
    requires Run(sc, known, steps, states) && Spans(steps, states, t, i, m) && steps[i] == StartPut(t, c)
    ensures var o, pc := sc.objectId(c), states[m].threads[t];
      if InPut(c, pc) then !Aborts(steps, t, i, m) && Effects(sc, steps, states, t, o, i, m) == 0
      else Done(o, pc) && Effects(sc, steps, states, t, o, i, m) == One(!Aborts(steps, t, i, m))
    decreases m
  {
    hide Possible, Admitted, Do, InPut, Done, Effect;
    var o := sc.objectId(c);
    var s, step := states[m - 1], steps[m - 1];
    assert states[m - 1 + 1] == Do(sc, s, step);
    AbortsOneMore(steps, t, i, m);
    NotBoth(c, o, states[m].threads[t]);
    if m == i + 1 {
      PutBegins(sc, s, t, c, o);
    } else {
      PutOnce(sc, known, steps, states, t, c, i, m - 1);
      NotBoth(c, o, s.threads[t]);
      if step.t == t {
        PutMoves(sc, s, step, t, c);
      } else {
        OthersMove(sc, s, step, t);
        NoEffect(sc, s, step, t, o);
      }
    }
  }

  lemma NotBoth(c: bytes, o: Id, pc: Pc)
    ensures InPut(c, pc) ==> !Done(o, pc)
  {
  }

  lemma NoEffect(sc: Scheme, s: State, step: Step, t: Tid, o: Id)
    requires step.t != t
    ensures !Effect(sc, s, step, t, o)
  {
  }

  lemma AbortsOneMore(steps: seq<Step>, t: Tid, i: nat, m: nat)
    requires i < m <= |steps|
    ensures Aborts(steps, t, i, m) <==> Aborts(steps, t, i, m - 1) || steps[m - 1] == Abort(t)
    ensures !Aborts(steps, t, i, i)
  {
  }

  // ---- Delete ----

  /** A Delete of o that has not taken effect: it has not looked the object up yet, or has found it. */
  predicate Looking(o: Id, pc: Pc) {
    pc == DelStart(o) || pc == DelLocked(o)
  }

  predicate Removing(o: Id, pc: Pc) {
    match pc
    case DelFound(q, _) => q == o
    case DelLoaded(q, _, _) => q == o
    case DelCounting(q, _, _) => q == o
    case _ => false
  }

  /** t has been where a Delete goes that finds its object. */
  ghost predicate Finds(states: seq<State>, t: Tid, i: nat, m: nat)
    requires m < |states|
  {
    exists k :: i < k <= m && t in states[k].threads && states[k].threads[t].DelFound?
  }

  /** At some moment in between the object was not there. */
  ghost predicate Absent(states: seq<State>, o: Id, i: nat, m: nat)
    requires m < |states|
  {
    exists k :: i <= k <= m && Use(states[k], o) == 0
  }

  lemma DeleteBegins(sc: Scheme, s: State, t: Tid, o: Id)
    requires Enabled(sc, s, StartDelete(t, o))
    ensures t in Do(sc, s, StartDelete(t, o)).threads && Looking(o, Do(sc, s, StartDelete(t, o)).threads[t])
    ensures !Effect(sc, s, StartDelete(t, o), t, o)
  {
  }

  /** The places of a Delete, in their order. */
  predicate InDelete(o: Id, pc: Pc) {
    Looking(o, pc) || Removing(o, pc) || pc == DelUnlisted(o) || Done(o, pc)
  }

  lemma DeleteMoves(sc: Scheme, s: State, step: Step, t: Tid, o: Id)
    requires Enabled(sc, s, step) && step.t == t && t in s.threads && t in Do(sc, s, step).threads
    requires InDelete(o, s.threads[t]) && !Do(sc, s, step).threads[t].Broken?
    ensures var pc, pc' := s.threads[t], Do(sc, s, step).threads[t];
      if Looking(o, pc) then
        && !Effect(sc, s, step, t, o)
        && (Looking(o, pc') || (Removing(o, pc') && pc'.DelFound?) || (Done(o, pc') && Use(s, o) == 0))
      else if Removing(o, pc) then
        && !pc'.DelFound?
        && if Effect(sc, s, step, t, o) then pc' == DelUnlisted(o) || Done(o, pc') else Removing(o, pc')
      else
        Done(o, pc') && !Effect(sc, s, step, t, o)
  {
    hide Scheme.Ids, Stored, Scheme.Pieces, Looking, Removing, Done, Effect, Do, Possible, Admitted, Use;
    Apart(o, s.threads[t]);
    if Looking(o, s.threads[t]) {
      LookingMoves(sc, s, step, t, o);
    } else if Removing(o, s.threads[t]) {
      RemovingMoves(sc, s, step, t, o);
    } else {
      DoneMoves(sc, s, step, t, o);
    }
  }

  lemma LookingMoves(sc: Scheme, s: State, step: Step, t: Tid, o: Id)
    requires Enabled(sc, s, step) && step.t == t && t in s.threads && t in Do(sc, s, step).threads
    requires Looking(o, s.threads[t])
    ensures var pc' := Do(sc, s, step).threads[t];
      && !Effect(sc, s, step, t, o)
      && (Looking(o, pc') || (Removing(o, pc') && pc'.DelFound?) || (Done(o, pc') && Use(s, o) == 0))
  {
    hide Scheme.Ids, Stored, Scheme.Pieces;
  }

  lemma RemovingMoves(sc: Scheme, s: State, step: Step, t: Tid, o: Id)
    requires Enabled(sc, s, step) && step.t == t && t in s.threads && t in Do(sc, s, step).threads
    requires Removing(o, s.threads[t]) && !Do(sc, s, step).threads[t].Broken?
    ensures var pc' := Do(sc, s, step).threads[t];
      && !pc'.DelFound?
      && if Effect(sc, s, step, t, o) then pc' == DelUnlisted(o) || Done(o, pc') else Removing(o, pc')
  {
    hide Scheme.Ids, Stored, Scheme.Pieces;
  }

  lemma DoneMoves(sc: Scheme, s: State, step: Step, t: Tid, o: Id)
    requires Enabled(sc, s, step) && step.t == t && t in s.threads && t in Do(sc, s, step).threads
    requires s.threads[t] == DelUnlisted(o) || Done(o, s.threads[t])
    ensures Done(o, Do(sc, s, step).threads[t]) && !Effect(sc, s, step, t, o)
  {
    hide Scheme.Ids, Stored, Scheme.Pieces;
  }

  /** A Delete that finds its object takes effect exactly once before it ends. One that ends without having
      found it has no effect, and at some moment in between the object was not there. */
  lemma {:induction false} DeleteOnce(sc: Scheme, known: iset<bytes>, steps: seq<Step>, states: seq<State>, t: Tid,
                                      o: Id, i: nat, m: nat)
    requires sc.Sound(known) && Run(sc, known, steps, states) && Spans(steps, states, t, i, m)
    requires steps[i] == StartDelete(t, o)
    ensures var pc, n, found := states[m].threads[t], Effects(sc, steps, states, t, o, i, m), Finds(states, t, i, m);
      if Looking(o, pc) then n == 0 && !found
      else if Removing(o, pc) then n == 0 && found
      else
        && (pc == DelUnlisted(o) || Done(o, pc)) && n == One(found)
        && (!found ==> Absent(states, o, i, m))
    decreases m
  {
    hide Possible, Admitted, Do, Looking, Removing, Done, Effect, Use, Scheme.Sound;
    var s, step := states[m - 1], steps[m - 1];
    assert states[m - 1 + 1] == Do(sc, s, step);
    FindsOneMore(states, t, i, m);
    if m == i + 1 {
      DeleteBegins(sc, s, t, o);
      Apart(o, states[m].threads[t]);
    } else {
      DeleteOnce(sc, known, steps, states, t, o, i, m - 1);
      NeverBroken(sc, known, steps, states, m, t);
      Apart(o, s.threads[t]);
      Apart(o, states[m].threads[t]);
      if step.t == t {
        DeleteMoves(sc, s, step, t, o);
      } else {
        OthersMove(sc, s, step, t);
        NoEffect(sc, s, step, t, o);
      }
    }
  }

  /** The places exclude each other. */
  lemma Apart(o: Id, pc: Pc)
    ensures Looking(o, pc) ==> !Removing(o, pc) && !Done(o, pc) && pc != DelUnlisted(o) && !pc.DelFound?
    ensures Removing(o, pc) ==> !Done(o, pc) && pc != DelUnlisted(o)
    ensures Done(o, pc) ==> !pc.DelFound?
  {
  }

  lemma FindsOneMore(states: seq<State>, t: Tid, i: nat, m: nat)
    requires i < m < |states| && t in states[m].threads
    ensures Finds(states, t, i, m) <==> Finds(states, t, i, m - 1) || states[m].threads[t].DelFound?
    ensures !Finds(states, t, i, i)
  {
  }

  // ---- Get ----

  /** The places of a Get once it has found its object in the index. */
  predicate Looked(o: Id, pc: Pc) {
    pc == GetFound(o) || pc == Incomplete(o) || (pc.Reading? && pc.o == o)
  }

  ghost predicate LookedIn(states: seq<State>, t: Tid, o: Id, i: nat, m: nat)
    requires m < |states|
  {
    exists k :: i < k <= m && t in states[k].threads && Looked(o, states[k].threads[t])
  }

  /** At some moment in between the object was there. */
  ghost predicate There(states: seq<State>, o: Id, i: nat, m: nat)
    requires m < |states|
  {
    exists k :: i <= k <= m && Use(states[k], o) >= 1
  }

  lemma GetBegins(sc: Scheme, s: State, t: Tid, o: Id)
    requires Enabled(sc, s, StartGet(t, o))
    ensures t in Do(sc, s, StartGet(t, o)).threads && Do(sc, s, StartGet(t, o)).threads[t] == GetStart(o)
  {
  }

  lemma GetMoves(sc: Scheme, known: iset<bytes>, s: State, step: Step, t: Tid, o: Id)
    requires Inv(sc, known, s) && Enabled(sc, s, step) && step.t == t && t in s.threads && t in Do(sc, s, step).threads
    requires s.threads[t] == GetStart(o) || Looked(o, s.threads[t]) || s.threads[t] == Leaving
    requires !Do(sc, s, step).threads[t].Broken?
    ensures var pc, pc' := s.threads[t], Do(sc, s, step).threads[t];
      if pc == GetStart(o) then
        if o in s.rec.objects then pc' == GetFound(o) && Use(s, o) >= 1 else pc' == Leaving && Use(s, o) == 0
      else
        Looked(o, pc) && (Looked(o, pc') || pc' == Leaving)
  {
    hide Scheme.Ids, Stored, Scheme.Pieces, Inv;
    if o in s.rec.objects {
      IndexedOnce(sc, known, s, o);
    }
  }

  lemma LookedOneMore(states: seq<State>, t: Tid, o: Id, i: nat, m: nat)
    requires i < m < |states| && t in states[m].threads
    ensures LookedIn(states, t, o, i, m) <==> LookedIn(states, t, o, i, m - 1) || Looked(o, states[m].threads[t])
    ensures !LookedIn(states, t, o, i, i)
    ensures There(states, o, i, m - 1) ==> There(states, o, i, m)
    ensures Absent(states, o, i, m - 1) ==> Absent(states, o, i, m)
    ensures Use(states[m - 1], o) >= 1 ==> There(states, o, i, m)
    ensures Use(states[m - 1], o) == 0 ==> Absent(states, o, i, m)
  {
    hide Looked, Use;
  }

  /** A Get first looks its object up. If it goes on to look for the manifest or to read, the object was there
      at some moment since it began; if it ends without, the object was not there at some moment. */
  lemma {:induction false} GetOnce(sc: Scheme, known: iset<bytes>, steps: seq<Step>, states: seq<State>, t: Tid,
                                   o: Id, i: nat, m: nat)
    requires sc.Sound(known) && Run(sc, known, steps, states) && Spans(steps, states, t, i, m)
    requires steps[i] == StartGet(t, o)
    ensures var pc := states[m].threads[t];
      && (pc == GetStart(o) || Looked(o, pc) || pc == Leaving)
      && (LookedIn(states, t, o, i, m) ==> There(states, o, i, m))
      && (pc == GetStart(o) ==> !LookedIn(states, t, o, i, m))
      && (pc == Leaving && !LookedIn(states, t, o, i, m) ==> Absent(states, o, i, m))
    decreases m
  {
    hide Possible, Admitted, Do, Looked, LookedIn, There, Absent, Use, Scheme.Sound, Inv;
    var s, step := states[m - 1], steps[m - 1];
    assert states[m - 1 + 1] == Do(sc, s, step);
    LookedOneMore(states, t, o, i, m);
    if m == i + 1 {
      GetBegins(sc, s, t, o);
      StartIsNoLook(o, states[m].threads[t]);
    } else {
      GetOnce(sc, known, steps, states, t, o, i, m - 1);
      NeverBroken(sc, known, steps, states, m, t);
      RunInv(sc, known, steps, states, m - 1);
      StartIsNoLook(o, s.threads[t]);
      StartIsNoLook(o, states[m].threads[t]);
      if step.t == t {
        GetMoves(sc, known, s, step, t, o);
      } else {
        OthersMove(sc, s, step, t);
      }
      if Looked(o, s.threads[t]) {
        SeenLooking(states, t, o, i, m - 1);
      }
    }
  }

  lemma StartIsNoLook(o: Id, pc: Pc)
    ensures pc == GetStart(o) || pc == Leaving ==> !Looked(o, pc)
    ensures pc == GetFound(o) ==> Looked(o, pc)
  {
  }

  lemma SeenLooking(states: seq<State>, t: Tid, o: Id, i: nat, m: nat)
    requires i < m < |states| && t in states[m].threads && Looked(o, states[m].threads[t])
    ensures LookedIn(states, t, o, i, m)
  {
  }

  /** A Get of an object that is there at no moment of its span is nowhere but at its beginning or at its end. */
  lemma GetOfNothing(sc: Scheme, known: iset<bytes>, steps: seq<Step>, states: seq<State>, t: Tid, o: Id, i: nat,
                     m: nat, k: nat)
    requires sc.Sound(known) && Run(sc, known, steps, states) && Spans(steps, states, t, i, m)
    requires steps[i] == StartGet(t, o) && i < k <= m
    requires forall j :: i <= j <= m ==> Use(states[j], o) == 0
    ensures states[k].threads[t] == GetStart(o) || states[k].threads[t] == Leaving
  {
    hide Run, Use, Looked, Scheme.Sound;
    GetOnce(sc, known, steps, states, t, o, i, k);
    if Looked(o, states[k].threads[t]) {
      SeenLooking(states, t, o, i, k);
    }
  }

  /** The step that takes the last copy of o out of the index. */
  predicate LastCopyGoes(s: State, step: Step, o: Id) {
    DeleteTakesEffect(s, step, o) && s.threads[step.t].DelCounting?
  }

  lemma StaysIndexed(sc: Scheme, known: iset<bytes>, s: State, step: Step, o: Id)
    requires sc.Sound(known) && Inv(sc, known, s) && Enabled(sc, s, step)
    requires o in s.rec.objects && !LastCopyGoes(s, step, o)
    ensures o in Do(sc, s, step).rec.objects
  {
    hide Inv, Do, ThreadInv;
    StepRefinesMultiset(sc, known, s, step, o);
    IndexedOnce(sc, known, s, o);
    if DeleteTakesEffect(s, step, o) {
      AtPc(sc, known, s, step.t);
      EffectOfAdvance(sc, known, s.rec, s.threads[step.t]);
    }
  }

  lemma IndexedOnce(sc: Scheme, known: iset<bytes>, s: State, o: Id)
    requires Inv(sc, known, s) && o in s.rec.objects
    ensures Use(s, o) >= 1 && sc.IsObject(known, o)
  {
    hide FenceInv, LockInv, Genuine, ThreadsInv, CountInv;
    assert ObjectOk(sc, known, s.rec, o, Holder(s, o));
  }

  lemma {:induction false} StaysIndexedFor(sc: Scheme, known: iset<bytes>, steps: seq<Step>, states: seq<State>, o: Id,
                                           i: nat, m: nat)
    requires sc.Sound(known) && Run(sc, known, steps, states) && i <= m <= |steps| && o in states[i].rec.objects
    requires forall k :: i <= k < m ==> !LastCopyGoes(states[k], steps[k], o)
    ensures o in states[m].rec.objects
    decreases m
  {
    hide Possible, Admitted, Do, LastCopyGoes, Scheme.Sound, Inv;
    if i < m {
      StaysIndexedFor(sc, known, steps, states, o, i, m - 1);
      RunInv(sc, known, steps, states, m - 1);
      StaysIndexed(sc, known, states[m - 1], steps[m - 1], o);
    }
  }

  /** Thread t finds object o in the index with step i and looks for its manifest with its next step m. If no
      Delete takes the last copy in between, it gets a reader on the whole content. */
  lemma GetOpens(sc: Scheme, known: iset<bytes>, steps: seq<Step>, states: seq<State>, t: Tid, o: Id, i: nat, m: nat)
    requires sc.Sound(known) && Run(sc, known, steps, states) && i < m < |steps|
    requires t in states[i].threads && states[i].threads[t] == GetStart(o) && steps[i] == Advance(t)
    requires o in states[i].rec.objects
    requires steps[m] == Advance(t) && forall k :: i < k < m ==> steps[k].t != t
    requires forall k :: i <= k < m ==> !LastCopyGoes(states[k], steps[k], o)
    ensures t in states[m + 1].threads && sc.IsObject(known, o)
    ensures states[m + 1].threads[t] == Reading(o, sc.Ids(sc.ContentOf(known, o)), 0, [])
  {
    hide Do, LastCopyGoes, Scheme.Sound, Inv, Scheme.ContentOf, Scheme.Ids;
    FindsIt(sc, states[i], t, o);
    Waits(sc, known, steps, states, t, i + 1, m);
    StaysIndexedFor(sc, known, steps, states, o, i, m);
    RunInv(sc, known, steps, states, m);
    MissesManifest(sc, known, states[m], t, o);
    LooksForManifest(sc, states[m], t, o);
    StillThere(sc, states[m], t, o);
    IndexedOnce(sc, known, states[m], o);
  }

  lemma StillThere(sc: Scheme, s: State, t: Tid, o: Id)
    requires t in s.threads && s.threads[t] == GetFound(o)
    ensures Enabled(sc, s, Advance(t)) && t in Do(sc, s, Advance(t)).threads
  {
  }

  lemma FindsIt(sc: Scheme, s: State, t: Tid, o: Id)
    requires t in s.threads && s.threads[t] == GetStart(o) && o in s.rec.objects
    ensures Enabled(sc, s, Advance(t)) && t in Do(sc, s, Advance(t)).threads
    ensures Do(sc, s, Advance(t)).threads[t] == GetFound(o)
  {
  }

  lemma {:induction false} Waits(sc: Scheme, known: iset<bytes>, steps: seq<Step>, states: seq<State>, t: Tid, i: nat,
                                 m: nat)
    requires Run(sc, known, steps, states) && i <= m <= |steps| && t in states[i].threads
    requires forall k :: i <= k < m ==> steps[k].t != t
    ensures t in states[m].threads && states[m].threads[t] == states[i].threads[t]
    decreases m
  {
    hide Possible, Admitted, Do;
    if i < m {
      Waits(sc, known, steps, states, t, i, m - 1);
      OthersMove(sc, states[m - 1], steps[m - 1], t);
    }
  }

  // ---- Going on ----

  /** Is there a step thread t can take? */
  ghost predicate CanMove(sc: Scheme, s: State, t: Tid) {
    exists step: Step :: step.t == t && Enabled(sc, s, step)
  }

  /** The object whose lock t is waiting for. */
  function WaitsFor(sc: Scheme, pc: Pc): Option<Id> {
    match pc
    case PutWriting(c, k) => if k < |sc.Pieces(c)| then None else Some(sc.objectId(c))
    case DelStart(o) => Some(o)
    case _ => None
  }

  /** A thread in its operation can go on, or it waits for a lock whose holder can: nobody is ever stuck. */
  lemma NobodyStuck(sc: Scheme, known: iset<bytes>, s: State, t: Tid)
    requires Inv(sc, known, s) && t in s.threads
    ensures CanMove(sc, s, t)
         || (var o := WaitsFor(sc, s.threads[t]);
             o.Some? && o.value in s.locks && s.locks[o.value] in s.threads && s.locks[o.value] != t
             && Enabled(sc, s, Advance(s.locks[o.value])))
  {
    hide Inv, Scheme.Pieces, Scheme.Ids;
    InvNeverBroken(sc, known, s, t);
    var o := WaitsFor(sc, s.threads[t]);
    if o.Some? && o.value in s.locks {
      HolderMoves(sc, known, s, o.value);
    } else {
      OwnStep(sc, known, s, t);
    }
  }

  lemma OwnStep(sc: Scheme, known: iset<bytes>, s: State, t: Tid)
    requires t in s.threads && !s.threads[t].Broken?
    requires WaitsFor(sc, s.threads[t]).None? || WaitsFor(sc, s.threads[t]).value !in s.locks
    ensures CanMove(sc, s, t)
  {
    var pc := s.threads[t];
    if pc.Reading? {
      assert Enabled(sc, s, CloseReader(t));
    } else if pc.GcScan? && pc.todo != {} {
      var id :| id in pc.todo;
      assert Enabled(sc, s, Pick(t, id));
    } else {
      assert Enabled(sc, s, Advance(t));
    }
  }

  lemma HolderMoves(sc: Scheme, known: iset<bytes>, s: State, o: Id)
    requires Inv(sc, known, s) && o in s.locks
    ensures s.locks[o] in s.threads && WaitsFor(sc, s.threads[s.locks[o]]).None?
    ensures Enabled(sc, s, Advance(s.locks[o]))
  {
    hide ObjectInv, CountInv, FenceInv, Genuine, ThreadsInv, Scheme.Pieces;
  }

  /** A GC comes to its end only when every chunk that is stored is counted, and an idle store lets one in. */
  lemma GcEnds(sc: Scheme, known: iset<bytes>, s: State, t: Tid)
    requires Inv(sc, known, s)
    ensures t in s.threads && s.threads[t].GcScan? && Enabled(sc, s, Advance(t)) ==>
              && t !in Do(sc, s, Advance(t)).threads && !Do(sc, s, Advance(t)).writer
              && forall id :: id in Do(sc, s, Advance(t)).rec.blobs ==> id in Do(sc, s, Advance(t)).rec.counts
    ensures s.threads == map[] ==> Enabled(sc, s, StartGc(t))
  {
    hide ObjectInv, CountInv, Genuine, LockInv;
    if t in s.threads {
      assert ThreadInv(sc, known, s.rec, s.threads[t]);
    }
    if s.threads == map[] {
      assert SharedThreads(s) == {};
    }
  }

  /** How far an operation at pc is from its end: first by phases, then within one. */
  function Phase(pc: Pc): nat {
    match pc
    case PutWriting(_, _) => 8
    case PutLocked(_) => 7
    case PutFound(_, _) => 3
    case PutFresh(_) => 6
    case PutCounting(_, _) => 5
    case DelStart(_) => 9
    case DelLocked(_) => 8
    case DelFound(_, _) => 7
    case DelLoaded(_, _, _) => 6
    case DelCounting(_, _, _) => 5
    case DelUnlisted(_) => 4
    case GetStart(_) => 9
    case GetFound(_) => 8
    case Incomplete(_) => 7
    case Reading(_, _, _, _) => 7
    case Unlocking(_) => 2
    case GcScan(_) => 1
    case GcDoomed(_, _) => 1
    case _ => 1
  }

  function Inside(sc: Scheme, pc: Pc): int {
    match pc
    case PutWriting(c, k) => |sc.Pieces(c)| - k
    case PutCounting(c, k) => |sc.Ids(c)| - k
    case DelCounting(_, ids, k) => |ids| - k
    case Reading(_, ids, i, _) => |ids| - i
    case GcScan(todo) => 2 * |todo|
    case GcDoomed(todo, _) => 2 * |todo| + 1
    case _ => 0
  }

  /** Every step of a thread brings its operation nearer to its end: so every operation ends after a bounded
      number of its own steps. */
  lemma StepsRunOut(sc: Scheme, known: iset<bytes>, s: State, step: Step)
    requires Inv(sc, known, s) && Enabled(sc, s, step) && step.t in s.threads
    requires step.t in Do(sc, s, step).threads && !Do(sc, s, step).threads[step.t].Broken?
    ensures var pc, pc' := s.threads[step.t], Do(sc, s, step).threads[step.t];
      Nearer(sc, pc, pc') && Inside(sc, pc') >= 0
  {
    hide Scheme.Ids, Scheme.Pieces, Inv, Do, Possible, Admitted, Phase, Inside, ThreadInv;
    var pc := s.threads[step.t];
    AtPc(sc, known, s, step.t);
    Within(sc, known, s.rec, pc);
    if pc.PutWriting? || pc.PutLocked? || pc.PutFound? || pc.PutFresh? || pc.PutCounting? {
      PutNearer(sc, s, step);
    } else if pc.GcScan? || pc.GcDoomed? {
      GcNearer(sc, s, step);
    } else if pc.GetStart? || pc.GetFound? || pc.Incomplete? || pc.Reading? || pc.Leaving? || pc.Unlocking? {
      GetNearer(sc, s, step);
    } else {
      DeleteNearer(sc, s, step);
    }
  }

  ghost predicate Nearer(sc: Scheme, pc: Pc, pc': Pc) {
    Phase(pc') < Phase(pc) || (Phase(pc') == Phase(pc) && Inside(sc, pc') < Inside(sc, pc))
  }

  lemma PutNearer(sc: Scheme, s: State, step: Step)
    requires Enabled(sc, s, step) && step.t in s.threads && step.t in Do(sc, s, step).threads
    requires var pc := s.threads[step.t];
      pc.PutWriting? || pc.PutLocked? || pc.PutFound? || pc.PutFresh? || pc.PutCounting?
    ensures Nearer(sc, s.threads[step.t], Do(sc, s, step).threads[step.t])
    ensures Inside(sc, s.threads[step.t]) >= 0 ==> Inside(sc, Do(sc, s, step).threads[step.t]) >= 0
  {
    hide Stored, Scheme.Pieces;
  }

  lemma GcNearer(sc: Scheme, s: State, step: Step)
    requires Enabled(sc, s, step) && step.t in s.threads && step.t in Do(sc, s, step).threads
    requires s.threads[step.t].GcScan? || s.threads[step.t].GcDoomed?
    ensures Nearer(sc, s.threads[step.t], Do(sc, s, step).threads[step.t])
    ensures Inside(sc, Do(sc, s, step).threads[step.t]) >= 0
  {
    hide Scheme.Ids, Stored, Scheme.Pieces;
  }

  lemma GetNearer(sc: Scheme, s: State, step: Step)
    requires Enabled(sc, s, step) && step.t in s.threads && step.t in Do(sc, s, step).threads
    requires var pc := s.threads[step.t];
      pc.GetStart? || pc.GetFound? || pc.Incomplete? || pc.Reading? || pc.Leaving? || pc.Unlocking?
    requires !Do(sc, s, step).threads[step.t].Broken?
    ensures Nearer(sc, s.threads[step.t], Do(sc, s, step).threads[step.t])
    ensures Inside(sc, s.threads[step.t]) >= 0 ==> Inside(sc, Do(sc, s, step).threads[step.t]) >= 0
  {
    hide Scheme.Ids, Stored, Scheme.Pieces;
  }

  lemma DeleteNearer(sc: Scheme, s: State, step: Step)
    requires Enabled(sc, s, step) && step.t in s.threads && step.t in Do(sc, s, step).threads
    requires var pc := s.threads[step.t];
      pc.DelStart? || pc.DelLocked? || pc.DelFound? || pc.DelLoaded? || pc.DelCounting? || pc.DelUnlisted? || pc.Broken?
    requires !Do(sc, s, step).threads[step.t].Broken?
    ensures Nearer(sc, s.threads[step.t], Do(sc, s, step).threads[step.t])
    ensures Inside(sc, s.threads[step.t]) >= 0 ==> Inside(sc, Do(sc, s, step).threads[step.t]) >= 0
  {
    hide Scheme.Ids, Stored, Scheme.Pieces;
  }

  lemma Within(sc: Scheme, known: iset<bytes>, r: Records, pc: Pc)
    requires ThreadInv(sc, known, r, pc)
    ensures Inside(sc, pc) >= 0
    ensures pc.PutWriting? ==> |sc.Ids(pc.c)| == |sc.Pieces(pc.c)|
  {
    hide Scheme.Pieces;
  }

  /** A Put may break off before it has begun to count: when its reader fails or its manifest is refused. A
      reader may be closed at any time. */
  lemma MayBreakOff(sc: Scheme, s: State, t: Tid)
    requires t in s.threads
    ensures Enabled(sc, s, Abort(t)) <==> s.threads[t].PutWriting? || s.threads[t].PutFresh?
    ensures s.threads[t].Reading? ==> Enabled(sc, s, CloseReader(t)) && Do(sc, s, CloseReader(t)).threads[t] == Leaving
  {
  }

  /** While there is no GC, Puts, Deletes and Gets are let in at any time. */
  lemma LetIn(sc: Scheme, known: iset<bytes>, s: State, t: Tid, c: bytes, o: Id)
    requires Inv(sc, known, s) && t !in s.threads
    requires forall u :: u in s.threads ==> !s.threads[u].GcScan? && !s.threads[u].GcDoomed?
    ensures Enabled(sc, s, StartPut(t, c)) && Enabled(sc, s, StartDelete(t, o)) && Enabled(sc, s, StartGet(t, o))
  {
    hide ObjectInv, CountInv, Genuine, LockInv, ThreadsInv;
  }
}
