/** Persists among other operations (store.go:152-171, internal/refcount/table.go:29-75). Only persists exclude
    each other: other operations go on changing counts and index between the steps of one, and a change that
    is journalled after the count snapshot was taken is emptied away with the rest. */
module Persists {
  import opened Bytes
  import opened Sums
  import opened Schemes
  import opened Manifests
  import opened Journals
  import opened Indexes
  import opened Holdings
  import opened Crashes

  /** What the persist that is under way has done: nothing, saved the index, taken its snapshot of the
      counts, saved that. */
  datatype Phase = Idle | Listed | Snapped(snapshot: Counts) | Saved

  /** The tables, the disk, and the history: log is every record journalled since the store was opened, with
      those the journal held then in front; taken, saved and emptied say how long it was when the last
      snapshot was taken, when the one on the disk was, and when the journal was last emptied. */
  datatype State = State(
    index: map<Id, Record>,
    counts: Counts,
    d: Disk,
    phase: Phase,
    log: seq<Rec>,
    taken: nat,
    saved: nat,
    emptied: nat)

  /** Change journals a record and changes the count with it; Reindex is any change of the index, Write any
      change of chunk and manifest files; the others are those of persist, in this order. */
  datatype Step =
    | Change(r: Rec)
    | Reindex(index: map<Id, Record>)
    | Write(blobs: map<Id, bytes>, raws: map<Id, bytes>)
    | SaveIndex
    | Snap
    | SaveCounts
    | Empty

  predicate Enabled(s: State, step: Step) {
    match step
    case Change(r) => (r.op == INC || r.op == DEC) && r.n == 1 && Apply(s.counts, r).Ok?
    case Reindex(_) => true
    case Write(_, _) => true
    case SaveIndex => s.phase.Idle?
    case Snap => s.phase.Listed?
    case SaveCounts => s.phase.Snapped?
    case Empty => s.phase.Saved?
  }

  function Do(s: State, step: Step, crc: Crc): State
    requires Enabled(s, step)
  {
    match step
    case Change(r) =>
      s.(counts := Apply(s.counts, r).counts, log := s.log + [r],
         d := s.d.(journal := s.d.journal + EncodeRec(r, crc)))
    case Reindex(index) => s.(index := index)
    case Write(blobs, raws) => s.(d := s.d.(blobs := blobs, raws := raws))
    case SaveIndex => s.(d := s.d.(index := s.index), phase := Listed)
    case Snap => s.(phase := Snapped(s.counts), taken := |s.log|)
    case SaveCounts => s.(d := s.d.(refs := s.phase.snapshot), phase := Saved, saved := s.taken)
    case Empty => s.(d := s.d.(journal := []), phase := Idle, emptied := |s.log|)
  }

  /** A store just opened: no persist under way, the journal replayed over the snapshot beside it. */
  ghost predicate Opened(s: State, crc: Crc) {
    && s.phase.Idle? && s.taken == s.saved == s.emptied == 0
    && NoZeros(s.d.refs) && Units(s.log) && s.d.journal == Image(s.log, crc)
    && ApplyAll(s.d.refs, s.log) == Ok(s.counts)
  }

  ghost predicate Trace(start: State, steps: seq<Step>, states: seq<State>, crc: Crc) {
    && |states| == |steps| + 1 && states[0] == start
    && forall i :: 0 <= i < |steps| ==>
         Enabled(states[i], steps[i]) && states[i + 1] == Do(states[i], steps[i], crc)
  }

  ghost predicate Reached(start: State, s: State, crc: Crc) {
    exists steps, states :: Trace(start, steps, states, crc) && states[|steps|] == s
  }

  // ---- What is on the disk ----

  /** The snapshot on the disk is the log up to saved, the journal is the log from emptied on, and until
      counts are saved the former is no longer than the latter leaves out. */
  ghost predicate Track(origin: Counts, s: State, crc: Crc) {
    && NoZeros(origin) && Units(s.log)
    && s.saved <= |s.log| && s.emptied <= |s.log| && s.taken <= |s.log|
    && ApplyAll(origin, s.log) == Ok(s.counts)
    && ApplyAll(origin, s.log[..s.saved]) == Ok(s.d.refs)
    && s.d.journal == Image(s.log[s.emptied..], crc)
    && match s.phase
       case Idle => s.taken == s.saved <= s.emptied
       case Listed => s.taken == s.saved <= s.emptied
       case Snapped(snapshot) =>
         s.saved <= s.emptied <= s.taken && ApplyAll(origin, s.log[..s.taken]) == Ok(snapshot)
       case Saved => s.emptied <= s.saved == s.taken
  }

  lemma OpenedTracks(s: State, crc: Crc)
    requires Opened(s, crc)
    ensures Track(s.d.refs, s, crc)
  {
    assert s.log[..0] == [] && s.log[0..] == s.log;
  }

  lemma ChangeTracks(origin: Counts, s: State, r: Rec, crc: Crc)
    requires Track(origin, s, crc) && Enabled(s, Change(r))
    ensures Track(origin, Do(s, Change(r), crc), crc)
  {
    hide EncodeRec, Apply, ApplyAll, Image, NoZeros;
    OneMore(origin, s.log, r, crc);
    OneMore(origin, s.log[s.emptied..], r, crc);
    var log := s.log + [r];
    assert log[..s.saved] == s.log[..s.saved] && log[..s.taken] == s.log[..s.taken];
    assert log[s.emptied..] == s.log[s.emptied..] + [r];
  }

  lemma OneMore(counts: Counts, rs: seq<Rec>, r: Rec, crc: Crc)
    ensures Image(rs + [r], crc) == Image(rs, crc) + EncodeRec(r, crc)
    ensures ApplyAll(counts, rs).Ok? ==> ApplyAll(counts, rs + [r]) == Apply(ApplyAll(counts, rs).counts, r)
  {
    hide EncodeRec, Apply;
    assert (rs + [r])[..|rs|] == rs;
  }

  lemma StepTracks(origin: Counts, s: State, step: Step, crc: Crc)
    requires Track(origin, s, crc) && Enabled(s, step)
    ensures Track(origin, Do(s, step, crc), crc)
  {
    hide EncodeRec, Apply, ApplyAll, Image, NoZeros, Units;
    if step.Change? {
      ChangeTracks(origin, s, step.r, crc);
    }
    assert s.log[..|s.log|] == s.log;
    if step.Empty? {
      assert s.log[|s.log|..] == [];
      assert Image([], crc) == [] by { NoRecords(origin, crc); }
    }
  }

  lemma {:induction false} RunTracks(start: State, steps: seq<Step>, states: seq<State>, i: nat, crc: Crc)
    requires Opened(start, crc) && Trace(start, steps, states, crc) && i <= |steps|
    ensures Track(start.d.refs, states[i], crc)
  {
    hide Opened, Track, Enabled, Do;
    if i == 0 {
      OpenedTracks(start, crc);
    } else {
      RunTracks(start, steps, states, i - 1, crc);
      StepTracks(start.d.refs, states[i - 1], steps[i - 1], crc);
    }
  }

  // ---- What a crash recovers ----

  /** Changes that are neither in the snapshot on the disk nor in the journal. */
  function Missing(s: State): seq<Rec>
    requires s.emptied <= |s.log|
  {
    if s.saved <= s.emptied then s.log[s.saved..s.emptied] else []
  }

  /** Changes that are in both. */
  function Twice(s: State): seq<Rec>
    requires s.saved <= |s.log|
  {
    if s.emptied <= s.saved then s.log[s.emptied..s.saved] else []
  }

  /** No count comes near 2^64. */
  ghost predicate Roomy(origin: Counts, log: seq<Rec>) {
    forall id :: Count(origin, id) + 2 * |log| < TWO64
  }

  /** Both parts of the disk overlap in Twice, or leave Missing out. */
  lemma Overlap(s: State, id: Id)
    requires s.saved <= |s.log| && s.emptied <= |s.log|
    ensures Added(s.log[..s.saved])[id] + Added(s.log[s.emptied..])[id] + Added(Missing(s))[id]
         == Added(s.log)[id] + Added(Twice(s))[id]
    ensures Taken(s.log[..s.saved])[id] + Taken(s.log[s.emptied..])[id] + Taken(Missing(s))[id]
         == Taken(s.log)[id] + Taken(Twice(s))[id]
  {
    hide Added, Taken;
    NoSum();
    if s.saved <= s.emptied {
      ThreeSums(s.log, s.saved, s.emptied);
    } else {
      ThreeSums(s.log, s.emptied, s.saved);
      SumsAppend(s.log[..s.emptied], s.log[s.emptied..s.saved]);
      SumsAppend(s.log[s.emptied..s.saved], s.log[s.saved..]);
      assert s.log[..s.saved] == s.log[..s.emptied] + s.log[s.emptied..s.saved];
      assert s.log[s.emptied..] == s.log[s.emptied..s.saved] + s.log[s.saved..];
    }
  }

  lemma ThreeSums(log: seq<Rec>, i: nat, j: nat)
    requires i <= j <= |log|
    ensures Added(log) == Added(log[..i]) + Added(log[i..j]) + Added(log[j..])
    ensures Taken(log) == Taken(log[..i]) + Taken(log[i..j]) + Taken(log[j..])
  {
    hide Added, Taken;
    assert log == (log[..i] + log[i..j]) + log[j..];
    SumsAppend(log[..i] + log[i..j], log[j..]);
    SumsAppend(log[..i], log[i..j]);
  }

  lemma UnitsOfParts(log: seq<Rec>, i: nat)
    requires Units(log) && i <= |log|
    ensures Units(log[..i]) && Units(log[i..])
  {
  }

  lemma RoomInParts(origin: Counts, s: State, crc: Crc)
    requires Track(origin, s, crc) && Roomy(origin, s.log)
    ensures Balanced(s.counts, origin, s.log) && Balanced(s.d.refs, origin, s.log[..s.saved])
    ensures forall id :: Count(s.d.refs, id) + |s.log[s.emptied..]| < TWO64
  {
    hide ApplyAll, Image, NoZeros, Added, Taken, Units;
    UnitsOfParts(s.log, s.saved);
    ApplyUnits(origin, s.log);
    ApplyUnits(origin, s.log[..s.saved]);
    forall id
      ensures Count(s.d.refs, id) + |s.log[s.emptied..]| < TWO64
    {
      SumsBound(s.log[..s.saved], id);
    }
  }

  /** What a crash in any state recovers: replaying goes well exactly if nothing is taken that is not there,
      and then the counts are those of the table, less what is missing and with what is there twice made
      twice. */
  lemma CrashRecovers(origin: Counts, s: State, crc: Crc)
    requires Track(origin, s, crc) && Roomy(origin, s.log)
    ensures Recovered(s.d, crc).Ok? <==> Payable(s.d.refs, s.log[s.emptied..])
    ensures Recovered(s.d, crc).Ok? ==> forall id ::
              Count(Recovered(s.d, crc).counts, id) + Added(Missing(s))[id] + Taken(Twice(s))[id]
              == Count(s.counts, id) + Taken(Missing(s))[id] + Added(Twice(s))[id]
  {
    hide ApplyAll, Image, Replay, NoZeros, Added, Taken, Units, Payable, Missing, Twice;
    var rest := s.log[s.emptied..];
    UnitsOfParts(s.log, s.emptied);
    RoomInParts(origin, s, crc);
    ReplayImage(s.d.refs, rest, crc);
    ApplyUnits(s.d.refs, rest);
    if Recovered(s.d, crc).Ok? {
      var now := Recovered(s.d, crc).counts;
      forall id
        ensures Count(now, id) + Added(Missing(s))[id] + Taken(Twice(s))[id]
             == Count(s.counts, id) + Taken(Missing(s))[id] + Added(Twice(s))[id]
      {
        Overlap(s, id);
        assert Count(now, id) == Count(s.d.refs, id) + Added(rest)[id] - Taken(rest)[id];
      }
    }
  }

  /** If no change came between a snapshot and the emptying of the journal, all of it is recovered. */
  lemma AllRecovered(origin: Counts, s: State, crc: Crc)
    requires Track(origin, s, crc) && s.saved == s.emptied
    ensures Recovered(s.d, crc) == Ok(s.counts)
  {
    hide ApplyAll, Image, Replay, NoZeros, Units;
    var rest := s.log[s.emptied..];
    assert s.log == s.log[..s.saved] + rest;
    ApplyAppend(origin, s.log[..s.saved], rest);
    ReplayImage(s.d.refs, rest, crc);
  }

  /** What the contents need, with what is missing added and what is there twice taken off, is counted. */
  ghost predicate StillEnough(sc: Scheme, contents: multiset<bytes>, s: State)
    requires s.saved <= |s.log| && s.emptied <= |s.log|
  {
    forall id :: Total(Demand(sc, contents))[id] + Added(Missing(s))[id] + Taken(Twice(s))[id]
              <= Count(s.counts, id) + Taken(Missing(s))[id] + Added(Twice(s))[id]
  }

  /** A crash in any state of any run: if what the saved index lists is held by the tables, it is held by
      what is recovered exactly under this condition. */
  lemma CrashExact(cfg: Config, known: iset<bytes>, h: Held, origin: Counts, s: State)
    requires Track(origin, s, cfg.crc) && Roomy(origin, s.log)
    requires Covers(cfg, known, h, Kept(s.d.blobs, s.counts, s.d.index, s.d.raws))
    ensures Survives(cfg, known, h, s.d)
       <==> Payable(s.d.refs, s.log[s.emptied..]) && StillEnough(cfg.sc, h.contents, s)
  {
    hide Covers, ApplyAll, Image, Replay, NoZeros, Added, Taken, Units, Payable, Missing, Twice, Total, Demand, Enough;
    RefsNoZeros(origin, s, cfg.crc);
    CrashRecovers(origin, s, cfg.crc);
    if Recovered(s.d, cfg.crc).Ok? {
      var now := Recovered(s.d, cfg.crc).counts;
      var k := Kept(s.d.blobs, s.counts, s.d.index, s.d.raws);
      GenuineCovered(cfg, known, h, k);
      OtherCounts(cfg, known, h, k, k.blobs, now);
      EnoughShifted(cfg.sc, h.contents, now, s.counts, Added(Missing(s)) + Taken(Twice(s)),
                    Taken(Missing(s)) + Added(Twice(s)));
    }
  }

  /** The same, said of runs. */
  lemma CrashInAnyRun(cfg: Config, known: iset<bytes>, h: Held, start: State, steps: seq<Step>, states: seq<State>,
                      i: nat)
    requires Opened(start, cfg.crc) && Trace(start, steps, states, cfg.crc) && i <= |steps|
    requires Roomy(start.d.refs, states[i].log)
    requires Covers(cfg, known, h, Kept(states[i].d.blobs, states[i].counts, states[i].d.index, states[i].d.raws))
    ensures Track(start.d.refs, states[i], cfg.crc)
    ensures Survives(cfg, known, h, states[i].d)
       <==> Payable(states[i].d.refs, states[i].log[states[i].emptied..]) && StillEnough(cfg.sc, h.contents, states[i])
  {
    hide Opened, Covers, Survives, Payable, StillEnough, ApplyAll, Image, NoZeros, Units, Enabled, Do;
    RunTracks(start, steps, states, i, cfg.crc);
    CrashExact(cfg, known, h, start.d.refs, states[i]);
  }

  lemma RefsNoZeros(origin: Counts, s: State, crc: Crc)
    requires Track(origin, s, crc)
    ensures NoZeros(s.d.refs)
  {
    hide ApplyAll, Image, NoZeros;
    NoZerosApplied(origin, s.log[..s.saved]);
  }

  lemma EnoughShifted(sc: Scheme, contents: multiset<bytes>, now: Counts, counts: Counts,
                      less: multiset<Id>, more: multiset<Id>)
    requires forall id :: Count(now, id) + less[id] == Count(counts, id) + more[id]
    ensures Enough(sc, contents, now) <==>
              forall id :: Total(Demand(sc, contents))[id] + less[id] <= Count(counts, id) + more[id]
  {
    hide Total, Demand, Count;
    var demand := Total(Demand(sc, contents));
    forall id
      ensures demand[id] <= Count(now, id) <==> demand[id] + less[id] <= Count(counts, id) + more[id]
    {
      assert Count(now, id) + less[id] == Count(counts, id) + more[id];
    }
    assert Enough(sc, contents, now) <==> forall id :: demand[id] <= Count(now, id);
  }

  /** As long as there were only Puts the journal can always be applied, and the condition is that what the
      saved index needs, and what is missing, is counted. */
  lemma PutsExact(cfg: Config, known: iset<bytes>, h: Held, origin: Counts, s: State)
    requires Track(origin, s, cfg.crc) && Roomy(origin, s.log) && Increments(s.log)
    requires Covers(cfg, known, h, Kept(s.d.blobs, s.counts, s.d.index, s.d.raws))
    ensures Survives(cfg, known, h, s.d) <==>
              forall id :: Total(Demand(cfg.sc, h.contents))[id] + Added(Missing(s))[id]
                        <= Count(s.counts, id) + Added(Twice(s))[id]
  {
    hide Covers, ApplyAll, Image, Replay, NoZeros, Added, Taken, Units, Payable, Total, Demand, Enough, Survives;
    CrashExact(cfg, known, h, origin, s);
    NothingTaken(Missing(s));
    NothingTaken(Twice(s));
    AlwaysPayable(s.d.refs, s.log[s.emptied..]);
  }

  lemma AlwaysPayable(counts: Counts, rs: seq<Rec>)
    requires Increments(rs)
    ensures Payable(counts, rs)
  {
    hide Added, Taken;
    forall i | 0 <= i <= |rs|
      ensures Paid(counts, rs[..i])
    {
      NothingTaken(rs[..i]);
    }
  }

  // ---- Quiet persists ----

  /** No change has come between a snapshot and the emptying that followed it. */
  ghost predicate Quiet(s: State) {
    match s.phase
    case Idle => s.saved == s.emptied
    case Listed => s.saved == s.emptied
    case Snapped(_) => s.saved == s.emptied && s.taken == |s.log|
    case Saved => s.saved == |s.log|
  }

  /** Every step keeps it but a change of a count between a snapshot and the emptying. */
  lemma QuietKept(s: State, step: Step, crc: Crc)
    requires Quiet(s) && Enabled(s, step)
    ensures Quiet(Do(s, step, crc)) <==> !(step.Change? && (s.phase.Snapped? || s.phase.Saved?))
  {
    hide EncodeRec, Apply;
  }

  /** In a quiet state everything is recovered, but in the window in which counts are saved and the journal is
      not yet emptied. */
  lemma QuietRecovers(origin: Counts, s: State, crc: Crc)
    requires Track(origin, s, crc) && Quiet(s) && !s.phase.Saved?
    ensures Recovered(s.d, crc) == Ok(s.counts)
  {
    AllRecovered(origin, s, crc);
  }

  // ---- A Put that counts while another persists ----

  lemma AtStart(start: State, crc: Crc)
    ensures Reached(start, start, crc)
  {
    assert Trace(start, [], [start], crc);
  }

  lemma Onward(start: State, s: State, step: Step, crc: Crc)
    requires Reached(start, s, crc) && Enabled(s, step)
    ensures Reached(start, Do(s, step, crc), crc)
  {
    hide Enabled, Do;
    var steps, states :| Trace(start, steps, states, crc) && states[|steps|] == s;
    var steps', states' := steps + [step], states + [Do(s, step, crc)];
    assert forall i :: 0 <= i < |steps| ==> steps'[i] == steps[i];
    assert forall i :: 0 <= i < |states| ==> states'[i] == states[i];
    assert Trace(start, steps', states', crc) && states'[|steps'|] == Do(s, step, crc);
  }

  /** The state after a batch of increments. */
  function Counted(s: State, ids: seq<Id>, crc: Crc): State
    requires ApplyAll(s.counts, Changes(INC, ids)).Ok?
  {
    var rs := Changes(INC, ids);
    s.(counts := ApplyAll(s.counts, rs).counts, log := s.log + rs,
       d := s.d.(journal := s.d.journal + Image(rs, crc)))
  }

  lemma OneMoreChange(counts: Counts, ids: seq<Id>, crc: Crc)
    requires ids != []
    ensures var before, r := ids[..|ids| - 1], Rec(INC, ids[|ids| - 1], 1);
      && Changes(INC, ids) == Changes(INC, before) + [r]
      && Image(Changes(INC, ids), crc) == Image(Changes(INC, before), crc) + EncodeRec(r, crc)
      && (ApplyAll(counts, Changes(INC, before)).Ok? ==>
            ApplyAll(counts, Changes(INC, ids)) == Apply(ApplyAll(counts, Changes(INC, before)).counts, r))
  {
    hide EncodeRec, Apply, ApplyAll, Image;
    var before, r := ids[..|ids| - 1], Rec(INC, ids[|ids| - 1], 1);
    assert Changes(INC, ids) == Changes(INC, before) + [r];
    OneMore(counts, Changes(INC, before), r, crc);
  }

  lemma {:induction false} CountsAll(start: State, s: State, ids: seq<Id>, crc: Crc)
    requires Reached(start, s, crc)
    ensures ApplyAll(s.counts, Changes(INC, ids)).Ok? && Reached(start, Counted(s, ids, crc), crc)
  {
    hide Reached, Image, EncodeRec;
    if ids == [] {
      NoRecords(s.counts, crc);
      assert Changes(INC, ids) == [];
      assert Counted(s, ids, crc) == s;
    } else {
      var before, r := ids[..|ids| - 1], Rec(INC, ids[|ids| - 1], 1);
      CountsAll(start, s, before, crc);
      OneMoreChange(s.counts, ids, crc);
      Onward(start, Counted(s, before, crc), Change(r), crc);
      assert Do(Counted(s, before, crc), Change(r), crc) == Counted(s, ids, crc);
    }
  }

  /** The store before: exact counts, everything persisted, chunks and manifest of y written. */
  ghost predicate Waiting(cfg: Config, known: iset<bytes>, h: Held, k: Kept, y: bytes) {
    && cfg.sc.Sound(known) && Covers(cfg, known, h, k) && CountsMatch(cfg.sc, h.contents, k.counts) && NoZeros(k.counts)
    && y in known && y !in h.contents && |cfg.sc.Pieces(y)| <= MAX_CHUNKS && ChunksPresent(cfg.sc, k.blobs, y)
    && cfg.sc.objectId(y) in k.raws && k.raws[cfg.sc.objectId(y)] == RawOf(cfg, y)
    && forall id :: Count(k.counts, id) + MAX_CHUNKS < TWO64
  }

  function Clean(k: Kept): State {
    State(k.objects, k.counts, Disk(k.blobs, k.raws, k.objects, k.counts, []), Idle, [], 0, 0, 0)
  }

  lemma CleanOpened(k: Kept, crc: Crc)
    requires NoZeros(k.counts)
    ensures Opened(Clean(k), crc)
  {
    NoRecords(k.counts, crc);
  }

  /** For every content with chunks: one Put persists while the Put of y counts; i of y's chunks are counted
      by the snapshot and the rest before the journal is emptied; then y is entered and the index saved. A
      crash now finds y whole exactly if i is all of them. */
  lemma RacingRun(cfg: Config, known: iset<bytes>, h: Held, k: Kept, y: bytes, i: nat) returns (s: State)
    requires Waiting(cfg, known, h, k, y) && i <= |cfg.sc.Ids(y)|
    ensures Opened(Clean(k), cfg.crc) && Reached(Clean(k), s, cfg.crc)
    ensures s.d.index == k.objects[cfg.sc.objectId(y) := RecordOf(cfg.sc, y, 1)] && s.phase.Listed?
    ensures Survives(cfg, known, WithFirst(h, y), s.d) <==> i == |cfg.sc.Ids(y)|
  {
    hide Waiting, Opened, Reached, Scheme.Ids, ApplyAll, Survives, RecordOf, Image, Changes;
    WaitingOpened(cfg, known, h, k, y);
    var crc, start, ids := cfg.crc, Clean(k), cfg.sc.Ids(y);
    AtStart(start, crc);
    Onward(start, start, SaveIndex, crc);
    var s1 := Do(start, SaveIndex, crc);
    CountsAll(start, s1, ids[..i], crc);
    var s2 := Counted(s1, ids[..i], crc);
    Onward(start, s2, Snap, crc);
    var s3 := Do(s2, Snap, crc);
    CountsAll(start, s3, ids[i..], crc);
    var s4 := Counted(s3, ids[i..], crc);
    s := Finishes(start, s4, k.objects[cfg.sc.objectId(y) := RecordOf(cfg.sc, y, 1)], crc);
    SnapshotCounts(cfg, known, h, k, y, i);
  }

  lemma WaitingOpened(cfg: Config, known: iset<bytes>, h: Held, k: Kept, y: bytes)
    requires Waiting(cfg, known, h, k, y)
    ensures Opened(Clean(k), cfg.crc)
  {
    CleanOpened(k, cfg.crc);
  }

  /** The persist ends, the index changes, and the next persist saves it. */
  lemma Finishes(start: State, s: State, index: map<Id, Record>, crc: Crc) returns (s': State)
    requires Reached(start, s, crc) && s.phase.Snapped?
    ensures Reached(start, s', crc) && s'.phase == Listed
    ensures s'.d == s.d.(refs := s.phase.snapshot, journal := [], index := index)
  {
    hide Reached;
    Onward(start, s, SaveCounts, crc);
    var s1 := Do(s, SaveCounts, crc);
    Onward(start, s1, Empty, crc);
    var s2 := Do(s1, Empty, crc);
    Onward(start, s2, Reindex(index), crc);
    var s3 := Do(s2, Reindex(index), crc);
    Onward(start, s3, SaveIndex, crc);
    s' := Do(s3, SaveIndex, crc);
  }

  lemma SnapshotCounts(cfg: Config, known: iset<bytes>, h: Held, k: Kept, y: bytes, i: nat)
    requires Waiting(cfg, known, h, k, y) && i <= |cfg.sc.Ids(y)|
    requires ApplyAll(k.counts, Changes(INC, cfg.sc.Ids(y)[..i])).Ok?
    ensures var snapshot := ApplyAll(k.counts, Changes(INC, cfg.sc.Ids(y)[..i])).counts;
      Survives(cfg, known, WithFirst(h, y),
               Disk(k.blobs, k.raws, k.objects[cfg.sc.objectId(y) := RecordOf(cfg.sc, y, 1)], snapshot, []))
      <==> i == |cfg.sc.Ids(y)|
  {
    hide ApplyAll, Survives, Covers, NoZeros, CountsMatch, Scheme.Sound, ChunksPresent, RawOf, RecordOf, Changes, Added;
    var some := cfg.sc.Ids(y)[..i];
    var snapshot := ApplyAll(k.counts, Changes(INC, some)).counts;
    CountedSoFar(k.counts, some);
    RacingPersists(cfg, known, h, k, y, i, snapshot);
  }

  lemma CountedSoFar(counts: Counts, ids: seq<Id>)
    requires NoZeros(counts) && forall id :: Count(counts, id) + |ids| < TWO64
    ensures var now := ApplyAll(counts, Changes(INC, ids));
      now.Ok? && Plus(now.counts, counts, ids) && NoZeros(now.counts)
  {
    hide ApplyAll, NoZeros, Added;
    ApplyIncrements(counts, Changes(INC, ids));
    SumsOfChanges(ids);
    NoZerosApplied(counts, Changes(INC, ids));
  }
}
