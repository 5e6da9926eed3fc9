/** Per-object locks that are created on first use and deleted on last (internal/iofence/object.go), as
    an interleaving of the callers' steps. What runs under the table mutex is one step. */
module ObjectLocks {
  import opened Bytes
  import opened Schemes

  type Tid = nat
  type Ref = nat   // identity of a lock object

  /** A lock object: how many callers it was handed to, and who is inside its mutex. */
  datatype Lock = Lock(waiters: int, owner: Option<Tid>)

  /** Where a caller of LockObject(o) is: it has been given the lock object l. */
  datatype Pc = Waiting(o: Id, l: Ref) | Holding(o: Id, l: Ref) | Releasing(o: Id, l: Ref)

  datatype State = State(objs: map<Id, Ref>, heap: map<Ref, Lock>, next: Ref, threads: map<Tid, Pc>)

  datatype Step = Arrive(t: Tid, o: Id) | Acquire(t: Tid) | Unlock(t: Tid) | Leave(t: Tid)

  const Init := State(map[], map[], 0, map[])

  predicate Enabled(s: State, step: Step) {
    match step
    case Arrive(t, _) => t !in s.threads
    case Acquire(t) =>
      t in s.threads && s.threads[t].Waiting? && s.threads[t].l in s.heap && s.heap[s.threads[t].l].owner == None
    case Unlock(t) => t in s.threads && s.threads[t].Holding? && s.threads[t].l in s.heap
    case Leave(t) => t in s.threads && s.threads[t].Releasing? && s.threads[t].l in s.heap
  }

  function Do(s: State, step: Step): State
    requires Enabled(s, step)
  {
    match step
    case Arrive(t, o) =>
      if o in s.objs && s.objs[o] in s.heap then
        var l := s.objs[o];
        s.(heap := s.heap[l := s.heap[l].(waiters := s.heap[l].waiters + 1)], threads := s.threads[t := Waiting(o, l)])
      else
        State(s.objs[o := s.next], s.heap[s.next := Lock(1, None)], s.next + 1, s.threads[t := Waiting(o, s.next)])
    case Acquire(t) =>
      var pc := s.threads[t];
      s.(heap := s.heap[pc.l := s.heap[pc.l].(owner := Some(t))], threads := s.threads[t := Holding(pc.o, pc.l)])
    case Unlock(t) =>
      var pc := s.threads[t];
      s.(heap := s.heap[pc.l := s.heap[pc.l].(owner := None)], threads := s.threads[t := Releasing(pc.o, pc.l)])
    case Leave(t) =>
      var pc := s.threads[t];
      var lock := s.heap[pc.l].(waiters := s.heap[pc.l].waiters - 1);
      State(if lock.waiters == 0 then s.objs - {pc.o} else s.objs, s.heap[pc.l := lock], s.next, s.threads - {t})
  }

  /** The callers waiting for, holding or releasing the lock of o. */
  ghost function Users(s: State, o: Id): set<Tid> {
    set t | t in s.threads && s.threads[t].o == o
  }

  /** A caller's lock object is the one in the table. */
  ghost predicate SameLock(s: State) {
    forall t :: t in s.threads ==> s.threads[t].o in s.objs && s.objs[s.threads[t].o] == s.threads[t].l
  }

  ghost predicate TableOk(s: State) {
    && (forall o :: o in s.objs ==> s.objs[o] in s.heap && s.objs[o] < s.next)
    && (forall o, q :: o in s.objs && q in s.objs && s.objs[o] == s.objs[q] ==> o == q)
    && (forall l :: l in s.heap ==> l < s.next)
  }

  ghost predicate WaitersOk(s: State) {
    forall o :: o in s.objs && s.objs[o] in s.heap ==>
      s.heap[s.objs[o]].waiters == |Users(s, o)| && Users(s, o) != {}
  }

  ghost predicate OwnersOk(s: State) {
    && (forall t :: t in s.threads && s.threads[t].Holding? && s.threads[t].l in s.heap ==>
          s.heap[s.threads[t].l].owner == Some(t))
    && (forall o :: o in s.objs && s.objs[o] in s.heap && s.heap[s.objs[o]].owner.Some? ==>
          var t := s.heap[s.objs[o]].owner.value; t in s.threads && s.threads[t] == Holding(o, s.objs[o]))
  }

  ghost predicate Inv(s: State) {
    SameLock(s) && TableOk(s) && WaitersOk(s) && OwnersOk(s)
  }

  lemma TableStep(s: State, step: Step)
    requires Inv(s) && Enabled(s, step)
    ensures TableOk(Do(s, step))
  {
    hide WaitersOk, OwnersOk;
  }

  lemma UsersStep(s: State, step: Step, o: Id)
    requires Inv(s) && Enabled(s, step)
    ensures var s' := Do(s, step);
      Users(s', o) == if step.Arrive? && step.o == o then Users(s, o) + {step.t}
                      else if step.Leave? && s.threads[step.t].o == o then Users(s, o) - {step.t}
                      else Users(s, o)
    ensures step.Arrive? ==> step.t !in Users(s, o)
    ensures step.Leave? && s.threads[step.t].o == o ==> step.t in Users(s, o)
  {
    hide WaitersOk, OwnersOk, TableOk, SameLock;
  }

  /** Nobody is left when the count comes to zero. */
  lemma LastOneLeaves(s: State, t: Tid)
    requires Inv(s) && Enabled(s, Leave(t)) && s.heap[s.threads[t].l].waiters == 1
    ensures forall u :: u in s.threads && s.threads[u].o == s.threads[t].o ==> u == t
  {
    var o := s.threads[t].o;
    assert s.objs[o] == s.threads[t].l && o in s.objs;
    assert |Users(s, o)| == 1 && t in Users(s, o);
    forall u | u in s.threads && s.threads[u].o == o
      ensures u == t
    {
      assert u in Users(s, o);
      assert |Users(s, o) - {t}| == 0;
    }
  }

  lemma SameLockStep(s: State, step: Step)
    requires Inv(s) && Enabled(s, step)
    ensures SameLock(Do(s, step))
  {
    if step.Leave? && s.heap[s.threads[step.t].l].waiters == 1 {
      LastOneLeaves(s, step.t);
    }
    if step.Arrive? && step.o !in s.objs {
      assert forall t :: t in s.threads ==> s.threads[t].o != step.o;
    }
    hide WaitersOk, OwnersOk;
  }

  lemma WaitersStep(s: State, step: Step)
    requires Inv(s) && Enabled(s, step)
    ensures WaitersOk(Do(s, step))
  {
    forall o | o in Do(s, step).objs && Do(s, step).objs[o] in Do(s, step).heap
      ensures Do(s, step).heap[Do(s, step).objs[o]].waiters == |Users(Do(s, step), o)| && Users(Do(s, step), o) != {}
    {
      WaitersOfOne(s, step, o);
    }
    hide Do, Users;
  }

  /** The caller's lock object is the table's entry of its object and of no other. */
  lemma AtCaller(s: State, t: Tid)
    requires Inv(s) && t in s.threads
    ensures var pc := s.threads[t];
      && pc.o in s.objs && s.objs[pc.o] == pc.l && pc.l in s.heap && pc.l < s.next
      && s.heap[pc.l].waiters == |Users(s, pc.o)|
      && (pc.Holding? ==> s.heap[pc.l].owner == Some(t))
      && (forall q :: q in s.objs && q != pc.o ==> s.objs[q] != pc.l)
  {
  }

  /** What the table says about object o. */
  lemma AtEntry(s: State, o: Id)
    requires Inv(s)
    ensures o in s.objs ==>
      && s.objs[o] in s.heap && s.objs[o] < s.next && s.heap[s.objs[o]].waiters == |Users(s, o)| && Users(s, o) != {}
    ensures o !in s.objs ==> Users(s, o) == {}
  {
  }

  lemma WaitersOfOne(s: State, step: Step, o: Id)
    requires Inv(s) && Enabled(s, step)
    requires var s' := Do(s, step); o in s'.objs && s'.objs[o] in s'.heap
    ensures var s' := Do(s, step); s'.heap[s'.objs[o]].waiters == |Users(s', o)| && Users(s', o) != {}
  {
    hide Inv, Users;
    AtEntry(s, o);
    UsersStep(s, step, o);
    if step.t in s.threads {
      AtCaller(s, step.t);
    } else {
      AtEntry(s, step.o);
      DistinctEntries(s, step.o, o);
    }
    var users, users' := Users(s, o), Users(Do(s, step), o);
    assert step.Leave? && s.threads[step.t].o == o ==> |users'| == |users| - 1 && (|users'| > 0 ==> users' != {});
  }

  lemma DistinctEntries(s: State, o: Id, q: Id)
    requires Inv(s)
    ensures o in s.objs && q in s.objs && s.objs[o] == s.objs[q] ==> o == q
  {
  }

  lemma NoUsers(s: State, o: Id)
    requires SameLock(s) && o !in s.objs
    ensures Users(s, o) == {}
  {
  }

  lemma OwnersStep(s: State, step: Step)
    requires Inv(s) && Enabled(s, step)
    ensures OwnersOk(Do(s, step))
  {
    hide Inv, Users;
    var s' := Do(s, step);
    forall t | t in s'.threads && s'.threads[t].Holding? && s'.threads[t].l in s'.heap
      ensures s'.heap[s'.threads[t].l].owner == Some(t)
    {
      HolderOwns(s, step, t);
    }
    forall o | o in s'.objs && s'.objs[o] in s'.heap && s'.heap[s'.objs[o]].owner.Some?
      ensures var t := s'.heap[s'.objs[o]].owner.value; t in s'.threads && s'.threads[t] == Holding(o, s'.objs[o])
    {
      OwnerHolds(s, step, o);
    }
  }

  lemma HolderOwns(s: State, step: Step, t: Tid)
    requires Inv(s) && Enabled(s, step)
    requires var s' := Do(s, step); t in s'.threads && s'.threads[t].Holding? && s'.threads[t].l in s'.heap
    ensures var s' := Do(s, step); s'.heap[s'.threads[t].l].owner == Some(t)
  {
    hide WaitersOk, Users;
  }

  lemma OwnerHolds(s: State, step: Step, o: Id)
    requires Inv(s) && Enabled(s, step)
    requires var s' := Do(s, step); o in s'.objs && s'.objs[o] in s'.heap && s'.heap[s'.objs[o]].owner.Some?
    ensures var s' := Do(s, step);
      var t := s'.heap[s'.objs[o]].owner.value; t in s'.threads && s'.threads[t] == Holding(o, s'.objs[o])
  {
    hide Inv, Users;
    if o in s.objs {
      OwnerOfEntry(s, o);
    }
    if step.t in s.threads {
      AtCaller(s, step.t);
    } else {
      AtEntry(s, step.o);
      DistinctEntries(s, step.o, o);
    }
  }

  /** An entry's owner is a caller that holds its lock. */
  lemma OwnerOfEntry(s: State, o: Id)
    requires Inv(s) && o in s.objs
    ensures s.objs[o] in s.heap && s.objs[o] < s.next
    ensures var owner := s.heap[s.objs[o]].owner;
      owner.Some? ==> owner.value in s.threads && s.threads[owner.value] == Holding(o, s.objs[o])
  {
  }

  lemma StepKeepsInv(s: State, step: Step)
    requires Inv(s) && Enabled(s, step)
    ensures Inv(Do(s, step))
  {
    TableStep(s, step);
    SameLockStep(s, step);
    WaitersStep(s, step);
    OwnersStep(s, step);
  }

  // ---- Runs ----

  ghost predicate Run(steps: seq<Step>, states: seq<State>) {
    && |states| == |steps| + 1
    && states[0] == Init
    && forall i :: 0 <= i < |steps| ==> Enabled(states[i], steps[i]) && states[i + 1] == Do(states[i], steps[i])
  }

  lemma {:induction false} RunInv(steps: seq<Step>, states: seq<State>, i: nat)
    requires Run(steps, states) && i <= |steps|
    ensures Inv(states[i])
  {
    if i > 0 {
      RunInv(steps, states, i - 1);
      StepKeepsInv(states[i - 1], steps[i - 1]);
    }
  }

  /** At most one caller at a time holds an object's lock, whatever entries were deleted and made again. */
  lemma MutualExclusion(steps: seq<Step>, states: seq<State>, i: nat, t: Tid, u: Tid)
    requires Run(steps, states) && i <= |steps|
    requires t in states[i].threads && u in states[i].threads
    requires states[i].threads[t].Holding? && states[i].threads[u].Holding?
        && states[i].threads[t].o == states[i].threads[u].o
    ensures t == u
  {
    RunInv(steps, states, i);
  }

  /** The waiter count is the number of callers, all of them share one lock object, and there is an
      entry exactly while there are callers. */
  lemma EntriesAccountForCallers(steps: seq<Step>, states: seq<State>, i: nat, o: Id)
    requires Run(steps, states) && i <= |steps|
    ensures var s := states[i];
      && (o in s.objs <==> Users(s, o) != {})
      && (forall t :: t in Users(s, o) ==> o in s.objs && s.threads[t].l == s.objs[o])
      && (o in s.objs ==> s.objs[o] in s.heap && s.heap[s.objs[o]].waiters == |Users(s, o)|)
  {
    RunInv(steps, states, i);
    if o !in states[i].objs {
      NoUsers(states[i], o);
    }
  }

  /** A caller that waits can go in whenever nobody is inside: no lock is left taken. */
  lemma NoLostLock(steps: seq<Step>, states: seq<State>, i: nat, t: Tid)
    requires Run(steps, states) && i <= |steps|
    requires t in states[i].threads && states[i].threads[t].Waiting?
    requires forall u :: u in states[i].threads && states[i].threads[u].o == states[i].threads[t].o ==>
               !states[i].threads[u].Holding?
    ensures Enabled(states[i], Acquire(t))
  {
    RunInv(steps, states, i);
    var s := states[i];
    var o := s.threads[t].o;
    assert o in s.objs && s.objs[o] == s.threads[t].l;
  }

  /** A newcomer can always ask for a lock, and who holds or gives up one can always go on. */
  lemma GoesOn(steps: seq<Step>, states: seq<State>, i: nat, t: Tid, o: Id)
    requires Run(steps, states) && i <= |steps|
    ensures t !in states[i].threads ==> Enabled(states[i], Arrive(t, o))
    ensures t in states[i].threads && states[i].threads[t].Holding? ==> Enabled(states[i], Unlock(t))
    ensures t in states[i].threads && states[i].threads[t].Releasing? ==> Enabled(states[i], Leave(t))
  {
    RunInv(steps, states, i);
    hide WaitersOk, OwnersOk;
  }

  // ---- As a map of atomic locks ----

  /** Who holds what. */
  ghost function HeldIn(objs: map<Id, Ref>, heap: map<Ref, Lock>): map<Id, Tid> {
    map o | o in objs && objs[o] in heap && heap[objs[o]].owner.Some? :: heap[objs[o]].owner.value
  }

  ghost function Held(s: State): map<Id, Tid> {
    HeldIn(s.objs, s.heap)
  }

  /** Writing the lock object of o changes o's holder only. */
  lemma LockWritten(objs: map<Id, Ref>, heap: map<Ref, Lock>, o: Id, lock: Lock)
    requires o in objs && objs[o] in heap && forall q :: q in objs && q != o ==> objs[q] != objs[o]
    ensures var held' := HeldIn(objs, heap[objs[o] := lock]);
      held' == if lock.owner.Some? then HeldIn(objs, heap)[o := lock.owner.value] else HeldIn(objs, heap) - {o}
    ensures o in HeldIn(objs, heap) <==> heap[objs[o]].owner.Some?
    ensures heap[objs[o]].owner.Some? ==> HeldIn(objs, heap)[o] == heap[objs[o]].owner.value
  {
  }

  lemma EntryDropped(objs: map<Id, Ref>, heap: map<Ref, Lock>, o: Id)
    ensures HeldIn(objs - {o}, heap) == HeldIn(objs, heap) - {o}
  {
  }

  lemma EntryMade(objs: map<Id, Ref>, heap: map<Ref, Lock>, o: Id, l: Ref)
    requires o !in objs && l !in heap && forall q :: q in objs ==> objs[q] != l
    ensures HeldIn(objs[o := l], heap[l := Lock(1, None)]) == HeldIn(objs, heap)
  {
  }

  /** A lock object nobody counts any more is not held. */
  lemma LeavesNothingHeld(s: State, t: Tid)
    requires Inv(s) && Enabled(s, Leave(t))
    ensures s.heap[s.threads[t].l].waiters == 1 ==> s.heap[s.threads[t].l].owner == None
  {
    if s.heap[s.threads[t].l].waiters == 1 {
      LastOneLeaves(s, t);
    }
  }

  /** Seen from outside, taking and giving back are atomic on a map of locks, and arriving and leaving
      do nothing: this is the lock the interleaved store relies on. */
  lemma RefinesAtomicLock(s: State, step: Step)
    requires Inv(s) && Enabled(s, step)
    ensures Inv(Do(s, step))
    ensures step.Acquire? ==>
              s.threads[step.t].o !in Held(s) && Held(Do(s, step)) == Held(s)[s.threads[step.t].o := step.t]
    ensures step.Unlock? ==>
      && s.threads[step.t].o in Held(s) && Held(s)[s.threads[step.t].o] == step.t
      && Held(Do(s, step)) == Held(s) - {s.threads[step.t].o}
    ensures step.Arrive? || step.Leave? ==> Held(Do(s, step)) == Held(s)
  {
    StepKeepsInv(s, step);
    hide Inv, HeldIn;
    match step {
      case Arrive(t, o) =>
        AtEntry(s, o);
        if o in s.objs {
          EntryIsOwn(s, o);
          LockWritten(s.objs, s.heap, o, Do(s, step).heap[s.objs[o]]);
          Unheld(s, o);
        } else {
          FreshLock(s);
          EntryMade(s.objs, s.heap, o, s.next);
        }
      case Acquire(t) =>
        AtCaller(s, t);
        LockWritten(s.objs, s.heap, s.threads[t].o, Do(s, step).heap[s.threads[t].l]);
      case Unlock(t) =>
        AtCaller(s, t);
        LockWritten(s.objs, s.heap, s.threads[t].o, Do(s, step).heap[s.threads[t].l]);
      case Leave(t) =>
        var o := s.threads[t].o;
        AtCaller(s, t);
        LeavesNothingHeld(s, t);
        LockWritten(s.objs, s.heap, o, Do(s, step).heap[s.threads[t].l]);
        Unheld(s, o);
        EntryDropped(s.objs, Do(s, step).heap, o);
    }
  }

  lemma EntryIsOwn(s: State, o: Id)
    requires Inv(s) && o in s.objs
    ensures forall q :: q in s.objs && q != o ==> s.objs[q] != s.objs[o]
  {
  }

  lemma FreshLock(s: State)
    requires Inv(s)
    ensures s.next !in s.heap && forall q :: q in s.objs ==> s.objs[q] != s.next
  {
  }

  /** Setting the holder of o to what it is already. */
  lemma Unheld(s: State, o: Id)
    ensures o !in Held(s) ==> Held(s) - {o} == Held(s)
    ensures o in Held(s) ==> Held(s)[o := Held(s)[o]] == Held(s)
  {
  }
}
